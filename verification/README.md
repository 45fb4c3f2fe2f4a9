# FSA registry checker: a Dafny model of its core

The repository builds a one-page "is this company registered?" checker from the Japanese
Financial Services Agency's three Excel registers: 金融商品取引業者 (dealers, `kinyushohin`),
金融商品仲介業者 (intermediaries, `chuukai`) and 登録金融機関 (registered financial
institutions, `touroku`). Python scripts read the registers and keep each company once under a
normalised name key. A build script embeds the three lists as JSON into `checker.html`. The
page's JavaScript normalises the user's input the same way and sorts the register entries
into a matched tier and a partial tier. A separate script adds a mobile hamburger menu to
three other pages.

This project models that core as pure Dafny functions, with a few methods where the source
loops, and proves what the code promises:

- `Normalizer`: the name/address normaliser in its Python and JavaScript copies.
  - Steps: full-width letters and digits folded to ASCII, the eleven legal-entity tokens
    removed left to right, whitespace and U+3000 removed, ASCII lower-casing.
  - The two copies differ only in what counts as whitespace (`Chars.Dialect`).
- `Cells`: the two `cell_str` readers.
  - `extract_all_fsa.py` turns line breaks into `" / "` and drops `\r`.
  - `extract_fsa_data.py` turns `\n` into a space and keeps `\r`.
  - Both share Python's `str.strip()`.
- `Dedup` and `Extraction`: the per-register loop and the two `main` functions.
  - The loop starts at row 8, skips blank names and keeps the first row for each non-empty
    key.
  - `extract_all_fsa.py` concatenates the three registers, and a missing workbook gives an
    empty list.
  - `extract_fsa_data.py` fails on a missing workbook or on an empty result.
- `Matcher`: `loadData`'s concatenation of the three embedded lists, `searchDB` and
  `doSearch`.
  - `searchDB` uses a symmetric substring test on names and addresses.
  - The address is used only when its normalised UTF-16 length is at least 3.
  - `doSearch` gives the safe / warning / danger verdict.
- `Html`: `escHtml`.
- `Embed`: the steps of `build_checker.py`.
  - Building the data block.
  - Replacing every `EMBEDDED_DB_START … EMBEDDED_DB_END` block through Python's `re.sub`
    template expansion.
  - Replacing the JavaScript tail from the old `データ管理` banner to the end of the file.
  - The header sentence update.
- `MobileMenu`: the per-file transform of `add_mobile_menu.py`, which has four guarded
  insertions.
- `Strings`, `Chars`, `Wrappers`: the substring search, replacement, subsequence and
  character vocabulary that the modules above share.

The model works on Dafny `string`, a sequence of Unicode scalar values. Where the
JavaScript side counts UTF-16 code units (`normAddr.length`), the model counts them
explicitly (`Matcher.Utf16Length`).

## Model

| member | source | states |
|---|---|---|
| Normalizer.Normalize | extract_all_fsa.py:34-51 | the key of empty text is empty; the key is never longer than the text; no character of the key is whitespace (in the dialect's sense), a full-width letter or digit, or an upper-case ASCII letter |
| Normalizer.FoldWidth | extract_all_fsa.py:38-45 | the translate table maps every character on its own and keeps the length; `Normalizer.WidthIgnored` states what it achieves |
| Normalizer.RemoveEntities | extract_all_fsa.py:46-49 | the leftmost non-overlapping token removal; its properties are `Normalizer.RemoveEntitiesSubseq` and `Normalizer.RemoveEntitiesFront` |
| Normalizer.Lower | extract_all_fsa.py:51 | lower-casing maps every character on its own and keeps the length |
| Normalizer.EntityAtSpec | extract_all_fsa.py:46-49 | the token alternation matches at the front of a text exactly when one of the eleven legal-entity tokens is a prefix of it, and the match is that token |
| Normalizer.RemoveEntitiesSubseq | extract_all_fsa.py:46-49 | removing legal-entity tokens only deletes characters: the result is a subsequence of the input |
| Normalizer.RemoveSpace | extract_all_fsa.py:50 | after the whitespace step no whitespace or U+3000 character is left |
| Normalizer.RemoveSpaceSubseq | extract_all_fsa.py:50 | the whitespace step only deletes characters |
| Normalizer.RemoveSpaceAppend | extract_all_fsa.py:50 | whitespace removal works piecewise over concatenation |
| Normalizer.RemoveEntitiesFront | extract_all_fsa.py:46-49 | a token at the front is removed whole and scanning continues after it |
| Normalizer.EntityPrefixIgnored | extract_all_fsa.py:46-49 | prefixing a name with a legal-entity token does not change its key |
| Normalizer.WidthIgnored | extract_all_fsa.py:38-45 | writing the ASCII letters and digits of a name in full width does not change its key |
| Normalizer.NormalizePlain | extract_all_fsa.py:34-51 | text with no whitespace, no full-width letter or digit, no upper-case ASCII letter and no character that can start a legal-entity token is its own key |
| Normalizer.DialectsAgree | build_checker.py:68-77 | the JavaScript normaliser on the page and the Python normaliser in the extractor give the same key for every text without characters on which `\s` differs between the two languages |
| Normalizer.NotIdempotent | extract_all_fsa.py:46-49 | normalising is not idempotent: `株株式会社式会社` has key `株式会社`, whose own key is empty |
| Normalizer.SpaceInsideTokenMatters | extract_all_fsa.py:46-50 | tokens are removed before whitespace, so `株式 会社X` keeps the token while `株式会社X` loses it |
| Normalizer.ExampleWidth | extract_all_fsa.py:38-45 | `Ａｂｃ１２３` and `Abc123` both have key `abc123` |
| Normalizer.ExampleEntities | extract_all_fsa.py:46-49 | `株式会社テスト` and `(株)テスト` both have the key of `テスト` |
| Normalizer.ExampleSpace | extract_all_fsa.py:50 | `東京 都` and `東京都` both have key `東京都` |
| Chars.FoldChar | extract_all_fsa.py:38-45 | a full-width letter or digit becomes the ASCII character 0xFEE0 below it; every other character is kept |
| Chars.WidenChar | extract_all_fsa.py:38-45 | widening an ASCII letter or digit gives a full-width character that folds back to it |
| Chars.LowerChar | extract_all_fsa.py:51 | the result is never an upper-case ASCII letter; upper-case ASCII moves down by 32; every other character is kept |
| Cells.Strip | extract_all_fsa.py:59 | the result is what is left after cutting a whitespace run from each end; it starts and ends with non-whitespace; it is empty exactly when the text is all whitespace |
| Cells.StripUnique | extract_all_fsa.py:59 | only one string is what is left after cutting whitespace from both ends |
| Cells.StripTrimmed | extract_all_fsa.py:59 | stripping text that is already trimmed changes nothing |
| Cells.StripIdempotent | extract_all_fsa.py:59 | stripping twice is stripping once |
| Cells.ReplaceChar | extract_all_fsa.py:59 | after replacing a character with text that does not contain it, the character is gone; text without it is unchanged |
| Cells.ReplaceAllSingle | extract_all_fsa.py:59 | replacing a one-character pattern with the general `str.replace` is the same as the character replacement |
| Strings.ReplaceAll | extract_all_fsa.py:59 | Python's `str.replace`; `Strings.ReplaceAllAbsent` shows that text without the pattern is unchanged and `Embed.UpdateHeaderSpec` gives the first-occurrence split |
| Cells.ReplaceCharAppend | extract_all_fsa.py:59 | character replacement works piecewise over concatenation |
| Cells.ReplaceCharPointwise | extract_fsa_data.py:80 | replacing a character by one character keeps the length and changes exactly the positions that held it |
| Cells.CellStrAll | extract_all_fsa.py:54-59 | the value read from a cell has no line feed or carriage return and no whitespace at either end |
| Cells.CellStrFsa | extract_fsa_data.py:74-80 | the value read from a cell has no line feed and no whitespace at either end |
| Cells.CellStrAllIdempotent | extract_all_fsa.py:54-59 | reading a cell value again gives the same text |
| Cells.CellStrFsaIdempotent | extract_fsa_data.py:74-80 | reading a cell value again gives the same text |
| Cells.CellStrFsaContents | extract_fsa_data.py:80 | the value is the stripped text with each line feed changed into a space and nothing else changed |
| Cells.CellBlank | extract_all_fsa.py:95-97 | both readers return an empty name exactly for an empty cell or an all-whitespace value, so these are the rows the loop skips |
| Cells.CrLfReaders | extract_fsa_data.py:80 | the readers disagree on a Windows line break: `a\r\nb` reads as `a / b` in one and as `a\r b` in the other |
| Dedup.KeepFirst | extract_all_fsa.py:94-116 | the loop with its `seen` set outputs exactly the records at the first positions of each non-empty key, in order |
| Dedup.SeenStep | extract_all_fsa.py:98-101 | the `seen` set grows by the row's key when that key is non-empty, and a non-empty key is already in it exactly when an earlier row had it |
| Dedup.FirstIndicesIncreasing | extract_all_fsa.py:94-116 | kept positions are strictly increasing, so the source order is preserved |
| Dedup.FirstIndicesAreFirst | extract_all_fsa.py:98-101 | every kept row has a non-empty key that no earlier row had |
| Dedup.FirstIndicesDistinct | extract_all_fsa.py:98-101 | no two kept rows share a key |
| Dedup.FirstIsSelected | extract_all_fsa.py:98-103 | every row that is the first with its non-empty key is kept |
| Dedup.FirstIndicesComplete | extract_all_fsa.py:98-103 | every non-empty key that occurs is represented among the kept rows |
| Dedup.FirstIndicesEmpty | extract_all_fsa.py:98-103 | nothing is kept exactly when every key is empty |
| Extraction.DataRows | extract_all_fsa.py:94 | rows are read from row 8 on (1-based), keeping their order; a sheet shorter than that gives nothing |
| Extraction.Read | extract_all_fsa.py:95-110 | a column read through the layout's `cell_str` holds no line feed and no surrounding whitespace, and a cell that is `None` or past the end of the row reads as empty text |
| Extraction.KeyOf | extract_all_fsa.py:95-98 | the key of a row is never longer than its name, and a blank name gives an empty key |
| Extraction.Record | extract_all_fsa.py:103-116 | a record carries the name, its key, the address read from the row's address column and an address key that is that address normalised, and it is labelled with its register in the combined extraction and unlabelled in the single-register one |
| Extraction.BlankNameEmptyKey | extract_all_fsa.py:95-99 | a blank name has an empty key, so the name test and the key test skip the same rows |
| Extraction.Extract | extract_all_fsa.py:77-120 | extracting a sheet keeps the first record per name key of its data rows |
| Extraction.KeptKeysNonEmpty | extract_all_fsa.py:95-101 | every kept company has a non-empty name and a non-empty key, and the key is the normalised name |
| Extraction.KeptKeysDistinct | extract_all_fsa.py:99-101 | within one register no two kept companies share a key |
| Extraction.KeptComplete | extract_all_fsa.py:99-103 | every row with a non-empty key is represented by a kept company with that key |
| Extraction.KeptInOrder | extract_all_fsa.py:94-116 | kept companies are the records of increasing rows, each the first row with its key |
| Extraction.KeptEmpty | extract_fsa_data.py:142-144 | extraction yields no company exactly when every data row has an empty key |
| Extraction.ExtractOrSkip | extract_all_fsa.py:217-222 | a missing workbook contributes an empty list, and a present one its extracted companies |
| Extraction.MainAll | extract_all_fsa.py:209-239 | each register's list comes from its own workbook or is empty, and the total count is the sum of the three counts and the length of the concatenation |
| Extraction.MainFsa | extract_fsa_data.py:133-152 | a missing workbook is an error, an empty extraction is a different error, and success carries a non-empty company list with its count |
| Extraction.SameNameTwoRegisters | extract_all_fsa.py:88-89 | deduplication is per register: the same row is kept by both the dealer and the intermediary extraction |
| Matcher.LoadDb | build_checker.py:83-87 | the search database is the dealers, then the intermediaries, then the institutions |
| Matcher.LoadDbTiers | build_checker.py:83-87 | each tier over the combined database is the tier over dealers, then over intermediaries, then over institutions |
| Matcher.SelectAppend | build_checker.py:112-125 | the tiers are filters, so the tier of a concatenation is the concatenation of the tiers |
| Matcher.Utf16Length | build_checker.py:117 | the UTF-16 length is between the number of characters and twice it, and equals it for text within the Basic Multilingual Plane |
| Matcher.AddressLengthUnits | build_checker.py:117 | two supplementary-plane characters already meet the three-unit address threshold, while two BMP characters do not |
| Matcher.Classify | build_checker.py:112-124 | an entry is skipped exactly when neither name key contains the other; it is partial exactly when the name hits, the address is usable and neither address key contains the other |
| Matcher.SearchDB | build_checker.py:103-128 | the two tiers are the entries classified matched and partial, in database order, under the JavaScript-normalised name and address |
| Matcher.SelectMembers | build_checker.py:112-125 | an entry is in a tier exactly when it is in the database and classified into that tier |
| Matcher.TiersPartition | build_checker.py:112-125 | the matched, partial and skipped entries together number exactly the entries scanned, so each entry lands in exactly one tier |
| Matcher.SelectFirst | build_checker.py:112-125 | a tier is non-empty exactly when some entry has that class, and its head is the first such entry |
| Matcher.SelectSubseq | build_checker.py:109-127 | a tier lists its entries in database order: it is a subsequence of the entries scanned |
| Matcher.TiersSubseq | build_checker.py:109-127 | both result lists of `searchDB` are subsequences of the database |
| Matcher.ShortAddressAllMatched | build_checker.py:117-124 | with an unusable address nothing is partial, and an entry is matched exactly when the names hit |
| Matcher.EmptyFieldsAlwaysHit | build_checker.py:113-119 | an entry with an empty address key is never partial and one with an empty name key is never skipped, because the empty string is contained in every string |
| Matcher.VerdictOf | build_checker.py:145-151 | safe shows the first matched entry; warning applies only when nothing matched and shows the first partial entry; danger otherwise |
| Matcher.DoSearch | build_checker.py:133-152 | no search happens exactly when the trimmed name is empty; otherwise the verdict is that of the tiers for the trimmed inputs |
| Matcher.VerdictMeaning | build_checker.py:143-151 | safe exactly when some entry matches; danger exactly when no entry's name hits; the shown entry is in the database with a name hit, and a warning's entry fails a usable address |
| Matcher.EntityOnlyQueryFindsNothing | build_checker.py:104-107 | a query consisting only of a legal-entity token normalises to nothing and finds nothing |
| Matcher.FoundByRegisteredName | build_checker.py:103-128 | searching for a company's registered name never gives danger, and gives safe when the address is left blank |
| Html.EscapeChar | build_checker.py:327-328 | each of `& < > " '` becomes an entity reference starting with `&`; every other character is kept |
| Html.EscHtml | build_checker.py:326-330 | the escaped text contains no `<`, `>`, `"` or `'` and is no shorter than the input |
| Html.RoundTrip | build_checker.py:326-330 | reading the entity references back gives the original text |
| Html.Injective | build_checker.py:326-330 | different texts stay different once escaped |
| Html.PlainUnchanged | build_checker.py:326-330 | text without the five characters is left alone |
| Html.EscHtmlAppend | build_checker.py:326-330 | escaping works piecewise over concatenation |
| Html.NotIdempotent | build_checker.py:326-330 | escaping twice escapes the ampersand again |
| Embed.NewDbBlock | build_checker.py:39-45 | the block starts with the start marker, ends with the end marker and contains each of the three JSON texts |
| Embed.FindBlock | build_checker.py:48-52 | a block is found exactly when a start marker is followed by an end marker; the span is the leftmost start with the nearest end after it |
| Embed.ReplaceBlocks | build_checker.py:48-56 | a page without a marker pair is unchanged; with blocks, `Embed.ReplaceBlocksSplit` states the rest |
| Embed.BareBlock | build_checker.py:48-51 | a page holding just the two markers is found as one block spanning it |
| Embed.ReplaceBareBlock | build_checker.py:48-56 | replacing that block leaves only the replacement |
| Embed.FindBlockAt | build_checker.py:48-52 | on a page made of text without START, a well-formed block and any rest, the match is exactly that block |
| Embed.ReplaceBlocksSplit | build_checker.py:48-56 | on any page the first non-greedy block becomes the replacement, the text before it is kept, and the rest of the page is handled the same way, so every block is replaced and the text between blocks is kept |
| Embed.ReplaceSingleBlock | build_checker.py:48-56 | on a page with a single block, the block becomes the replacement and the text before and after it is kept |
| Embed.ReplaceTwoBlocks | build_checker.py:48-56 | on a page with two blocks both become the replacement and the text before, between and after them is kept |
| Embed.RebuildStable | build_checker.py:48-56 | replacing the block of such a page a second time with the same well-formed block gives the same page |
| Embed.TemplateEscape | build_checker.py:56 | only `\\`, `\a`, `\b`, `\f`, `\n`, `\r`, `\t`, `\v` are known template escapes, and `\\` gives one backslash |
| Embed.Expand | build_checker.py:56 | template expansion never lengthens the text |
| Embed.ExpandPlain | build_checker.py:56 | a template without backslashes expands to itself |
| Embed.ExpandDoubleBackslash | build_checker.py:56 | a doubled backslash in the template becomes a single one |
| Embed.ExpandUnicodeEscape | build_checker.py:56 | a `\u` in the template is rejected as a bad escape |
| Embed.EmbedDbAsWritten | build_checker.py:52-56 | a missing marker pair is the only marker error, and success means the block went through template expansion |
| Embed.EmbedDb | build_checker.py:52-56 | failure happens exactly when the marker pair is missing, and on success the page contains the new block verbatim; `Embed.EmbedDbSplit` gives the whole result |
| Embed.EmbedDbStable | build_checker.py:39-56 | on a single-block page the corrected data step keeps everything outside the block, and running it again on its own output changes nothing |
| Embed.EmbedDbSplit | build_checker.py:39-56 | on any page the corrected data step puts the new block in place of the first block, keeps the text before it, and replaces the remaining blocks the same way |
| Embed.AsWrittenAgreesWithoutBackslash | build_checker.py:56 | while the JSON holds no backslash the code as written and the corrected embedding agree |
| Embed.BackslashCorrupted | build_checker.py:56 | a JSON string holding one escaped backslash is embedded as written without error, yet the result differs from the verbatim embedding |
| Embed.ControlCharacterRejected | build_checker.py:56 | a JSON string holding a `\u001f` escape makes the build as written fail, while the corrected embedding succeeds |
| Embed.LStripNewlines | build_checker.py:356 | the result is a suffix of the text, the dropped prefix is all line feeds, and the result does not start with one |
| Embed.LStripIdempotent | build_checker.py:356 | stripping leading line feeds twice is doing it once |
| Embed.ReplaceTail | build_checker.py:347-357 | without the old banner the build fails; otherwise everything from the first banner on is replaced by the new script with leading line feeds stripped, taken literally |
| Embed.ReplaceTailIdempotent | build_checker.py:347-357 | when the new script itself starts with the banner, replacing the tail a second time changes nothing |
| Embed.UpdateHeader | build_checker.py:359-363 | the header sentence replacement; its properties are in `Embed.UpdateHeaderSpec` |
| Embed.UpdateHeaderSpec | build_checker.py:359-363 | a page without the old header sentence is unchanged; otherwise its occurrences are replaced by the three-register sentence |
| Embed.Build | build_checker.py:48-363 | the build with the corrected data step: a missing marker pair and a missing banner are its two errors, each reported exactly in its own case, and success implies the marker pair was present |
| Embed.BuildAsWritten | build_checker.py:48-363 | the build as written: it fails on a missing marker pair, fails on the template expansion exactly when the pair is present and the data block is not a valid `re.sub` template, and fails on a missing banner only after a successful expansion |
| Embed.BuildAgreesWithoutBackslash | build_checker.py:48-363 | the build as written and the corrected build give the same outcome whenever the JSON texts hold no backslash |
| MobileMenu.Insert | add_mobile_menu.py:147 | text is inserted once, before or after the first occurrence of the anchor; a page without the anchor is unchanged |
| MobileMenu.Guarded | add_mobile_menu.py:139-149 | a page that already has the guard string is unchanged; otherwise the text is inserted at the anchor |
| MobileMenu.GuardedSubseq | add_mobile_menu.py:138-176 | each step only inserts: the old page is a subsequence of the new one |
| MobileMenu.GuardedEstablishes | add_mobile_menu.py:138-176 | when the page has the guard or the anchor and the inserted text has the guard, the page has the guard afterwards |
| MobileMenu.GuardedIdempotent | add_mobile_menu.py:138-176 | a step whose text contains its own guard does nothing the second time |
| MobileMenu.GuardedPreserves | add_mobile_menu.py:138-176 | a string present before a step that does not overlap the anchor in a way the insertion could split is still present afterwards |
| MobileMenu.MediaCss | add_mobile_menu.py:140-146 | the inserted CSS starts with the shared hamburger CSS and contains the file's `@media (max-width: …)` rule and its nav-link hiding rule |
| MobileMenu.ButtonText | add_mobile_menu.py:153-157 | the inserted button carries `id="hamburger"` |
| MobileMenu.DrawerText | add_mobile_menu.py:163-167 | the inserted drawer carries `id="nav-drawer"` and the file's drawer links |
| MobileMenu.AddCss | add_mobile_menu.py:138-149 | without `nav-drawer` the CSS is inserted before the first `  </style>`; otherwise, or with no such tag, the page is unchanged |
| MobileMenu.AddButton | add_mobile_menu.py:151-159 | without `id="hamburger"` the button is inserted before the first `<ul class="nav-links"`; otherwise, or with no such list, the page is unchanged |
| MobileMenu.AddDrawer | add_mobile_menu.py:161-170 | without `id="nav-drawer"` the drawer is inserted after the first `</nav>` line end; otherwise, or with no such tag, the page is unchanged |
| MobileMenu.AddScript | add_mobile_menu.py:172-176 | without `toggleMenu` the script is inserted before the first `</body>`; otherwise, or with no such tag, the page is unchanged |
| MobileMenu.DoneUnchanged | add_mobile_menu.py:138-176 | a page that already has all four guards is left alone |
| MobileMenu.Transform | add_mobile_menu.py:138-176 | the four guarded steps in order; `MobileMenu.TransformSubseq`, `MobileMenu.TransformDone` and `MobileMenu.TransformIdempotent` state its properties |
| MobileMenu.TransformSubseq | add_mobile_menu.py:138-176 | the transform never removes anything from a page |
| MobileMenu.TransformDone | add_mobile_menu.py:138-176 | on a page that has, for each step, its guard or its anchor, the transform leaves all four guards in place |
| MobileMenu.TransformIdempotent | add_mobile_menu.py:138-176 | on such a page running the script twice is running it once |
| MobileMenu.DrawerArrives | add_mobile_menu.py:161-170 | a page with the drawer guard or a `</nav>` line end has the drawer after the transform |
| MobileMenu.NotIdempotent | add_mobile_menu.py:138-176 | on `</nav></body>` the first run adds only the script, whose leading line feed, placed right after `</nav>`, creates the `</nav>\n` anchor, and the second run then adds a drawer |

## Left out

- File I/O, `openpyxl`, `json.dumps`/`json.load`, `print`, `sys.exit` and `datetime.now()`.
  A workbook is a `seq<Row>` of optional cell strings. A missing file is `None`. The JSON
  texts are parameters. An exit is a `Failure` value.
- `excel_date`: its `datetime` and numeric serial-date branches are not modelled. Its fall
  through to `cell_str` is modelled, so the registration date of `extract_all_fsa.py` is read
  like any other cell. `extract_fsa_data.py` uses `cell_str` for the date anyway.
- Cell values other than strings and `None`. `str(value)` of numbers and dates is not
  modelled.
- Chars.LowerChar: lower-casing is ASCII only. Python's `str.lower()` and JavaScript's
  `toLowerCase()` also fold other scripts, and that full Unicode table is not modelled.
- Chars.IsPySpace, Chars.IsJsSpace: they list the whitespace characters of Python's `\s`
  and JavaScript's `\s` by code point. Unicode database changes are not followed.
- `Matcher.Utf16Length` counts code units. The page never inspects surrogate pairs
  otherwise, so no surrogate content is modelled.
- The contents of `HAMBURGER_CSS`, `HAMBURGER_JS` and `NEW_JS` are not reproduced.
  - They are parameters (`MobileMenu.Fragments`, the `newJs` argument of `Embed.Build`).
  - `MobileMenu.Shipped` states the one fact about them the proofs use: the CSS contains
    `nav-drawer` and the script contains `toggleMenu`.
  - `Embed.ReplaceTailIdempotent` assumes that the new script starts with the old banner,
    which the shipped `NEW_JS` does.
- The `FILES` table of `add_mobile_menu.py`, its loop over the three pages and the skip of a
  missing page are not modelled. A page is a `MobileMenu.FileConfig` and one call of
  `MobileMenu.Transform`.
- Embed.EmbedDbStable: it assumes the new data block is well formed, that is, no END
  marker inside the JSON texts. It does not derive this from the JSON.
- MobileMenu.TransformIdempotent holds only for pages with every anchor or guard
  (`MobileMenu.Ready`). `MobileMenu.NotIdempotent` shows a page outside that condition.
- Embed.Expand models Python's `re.sub` template language for escapes and group
  references as far as the embedded block can reach it. Every `\g<…>` and numeric group
  reference is classed as an error, since the pattern has no capturing groups. This is wrong
  for three forms: Python expands `\g<0>` to the whole match, and it reads `\0` and a
  three-digit escape such as `\101` as octal escapes. None of these forms can come out of
  `json.dumps`.
- The DOM side of the page is not modelled: modal, flash message, focus, key handlers and the
  status line. `Matcher.DoSearch` returns the verdict that decides which modal is shown.
- Normalizer.Normalize: no idempotence is claimed, because the code does not have it.
  `Normalizer.NotIdempotent` gives an input that shows this.
- Embed.Build composes the corrected data step `Embed.EmbedDb`, so it omits the template
  failure the script as written can raise at `build_checker.py:56`. `Embed.BuildAsWritten`
  models the build as written, including that failure.
- Extraction.Record models the fields the matcher reads (name, keys, address, category).
  The other columns are read into `Details` with the same reader and carry no further
  property.

## Findings

| source | as written | input that shows it | evidently intended | confidence | as-written member | corrected member |
|---|---|---|---|---|---|---|
| build_checker.py:56 | `pattern.sub(new_db_block, html)` passes the data block as a replacement template, so `re.sub` interprets backslashes in the JSON | a register value whose JSON holds `\\`: `["\\"]` is embedded as `["\"]` and the page's script no longer parses; a value with a control character, JSON `["\u001f"]`, makes `re.sub` raise on the unknown escape `\u` | the block is inserted verbatim, as the later tail replacement already does with `lambda _: new_js_clean` | not executed | Embed.EmbedDbAsWritten | Embed.EmbedDb |

`Embed.BackslashCorrupted` and `Embed.ControlCharacterRejected` exhibit the two inputs against
the as-written member. `Embed.AsWrittenAgreesWithoutBackslash` shows the two agree on JSON
without backslashes. `Embed.Build` uses the corrected `Embed.EmbedDb`; `Embed.BuildAsWritten`
uses the as-written step, and `Embed.BuildAgreesWithoutBackslash` ties the two builds together.
