/** The registry normaliser `normalize`: width fold, legal-entity removal, whitespace
    removal, lower-casing. The Python copies (both extraction scripts) and the JavaScript
    copy embedded in the checker page are the same pipeline over different whitespace sets. */
module Normalizer {
  import opened Wrappers
  import opened Strings
  import opened Chars

  /** The eleven legal-entity tokens of the alternation, in source order. */
  const Entities: seq<string> := [
    "株式会社", "有限会社", "合同会社", "合資会社", "合名会社", "一般社団法人", "一般財団法人",
    "(株)", "(有)", "（株）", "（有）"
  ]

  /** Step 1: full-width letters and digits become ASCII; everything else is kept. */
  function FoldWidth(s: string): (r: string)
    ensures |r| == |s|
    ensures forall i :: 0 <= i < |s| ==> r[i] == FoldChar(s[i])
  {
    seq(|s|, i requires 0 <= i < |s| => FoldChar(s[i]))
  }

  /** The token the alternation matches at the start of `s`: the alternatives are tried
      in source order and the first that matches wins. */
  function EntityAt(s: string): Option<string> {
    if IsPrefix("株式会社", s) then Some("株式会社")
    else if IsPrefix("有限会社", s) then Some("有限会社")
    else if IsPrefix("合同会社", s) then Some("合同会社")
    else if IsPrefix("合資会社", s) then Some("合資会社")
    else if IsPrefix("合名会社", s) then Some("合名会社")
    else if IsPrefix("一般社団法人", s) then Some("一般社団法人")
    else if IsPrefix("一般財団法人", s) then Some("一般財団法人")
    else if IsPrefix("(株)", s) then Some("(株)")
    else if IsPrefix("(有)", s) then Some("(有)")
    else if IsPrefix("（株）", s) then Some("（株）")
    else if IsPrefix("（有）", s) then Some("（有）")
    else None
  }

  /** Step 2: `re.sub(<tokens>, '', text)` — scan left to right; where a token starts,
      drop it and continue after it; otherwise keep one character. */
  function RemoveEntities(s: string): string
    decreases |s|
  {
    if s == [] then []
    else match EntityAt(s)
      case Some(t) =>
        EntityNonEmpty(t);
        RemoveEntities(s[|t|..])
      case None =>
        [s[0]] + RemoveEntities(s[1..])
  }

  /** The alternation matches a token exactly when one starts the text. */
  lemma EntityAtSpec(s: string)
    ensures var r := EntityAt(s);
      (r.Some? ==> r.value in Entities && IsPrefix(r.value, s))
      && (r.None? ==> forall t :: t in Entities ==> !IsPrefix(t, s))
  {
  }

  /** Token removal only deletes. */
  lemma {:induction false} RemoveEntitiesSubseq(s: string)
    ensures IsSubseq(RemoveEntities(s), s)
    decreases |s|
  {
    if s != [] {
      match EntityAt(s)
      case Some(t) =>
        EntityNonEmpty(t);
        var rest := RemoveEntities(s[|t|..]);
        RemoveEntitiesSubseq(s[|t|..]);
        SubseqPrependRight(rest, s[..|t|], s[|t|..]);
        assert s[..|t|] + s[|t|..] == s;
      case None =>
        var rest := RemoveEntities(s[1..]);
        RemoveEntitiesSubseq(s[1..]);
        SubseqPrependBoth([s[0]], rest, s[1..]);
        assert [s[0]] + s[1..] == s;
    }
  }

  /** Step 3: `re.sub(r'[\s　]+', '', text)` — delete every whitespace character. */
  function RemoveSpace(d: Dialect, s: string): (r: string)
    ensures forall i :: 0 <= i < |r| ==> !IsSpace(d, r[i])
    decreases |s|
  {
    if s == [] then []
    else if IsSpace(d, s[0]) then RemoveSpace(d, s[1..])
    else [s[0]] + RemoveSpace(d, s[1..])
  }

  /** Whitespace removal only deletes. */
  lemma {:induction false} RemoveSpaceSubseq(d: Dialect, s: string)
    ensures IsSubseq(RemoveSpace(d, s), s)
    decreases |s|
  {
    if s != [] {
      var rest := RemoveSpace(d, s[1..]);
      RemoveSpaceSubseq(d, s[1..]);
      assert [s[0]] + s[1..] == s;
      if IsSpace(d, s[0]) {
        SubseqPrependRight(rest, [s[0]], s[1..]);
      } else {
        SubseqPrependBoth([s[0]], rest, s[1..]);
      }
    }
  }

  /** Step 4: ASCII-only lower-casing. */
  function Lower(s: string): (r: string)
    ensures |r| == |s|
    ensures forall i :: 0 <= i < |s| ==> r[i] == LowerChar(s[i])
  {
    seq(|s|, i requires 0 <= i < |s| => LowerChar(s[i]))
  }

  /** `normalize(text)`. The guard `if not text: return ""` needs no branch: every
      step maps the empty string to itself. */
  function Normalize(d: Dialect, s: string): (r: string)
    ensures s == [] ==> r == []
    ensures |r| <= |s|
    ensures forall i :: 0 <= i < |r| ==>
      !IsSpace(d, r[i]) && !IsFullWidthAlnum(r[i]) && !IsAsciiUpper(r[i])
  {
    var folded := FoldWidth(s);
    var kept := RemoveEntities(folded);
    var compact := RemoveSpace(d, kept);
    RemoveEntitiesSubseq(folded);
    RemoveSpaceSubseq(d, kept);
    SubseqMembers(kept, folded);
    SubseqMembers(compact, kept);
    assert forall i :: 0 <= i < |compact| ==> !IsFullWidthAlnum(compact[i]) by {
      forall i | 0 <= i < |compact|
        ensures !IsFullWidthAlnum(compact[i])
      {
        assert compact[i] in kept;
        assert compact[i] in folded;
      }
    }
    Lower(compact)
  }

  // ---------------------------------------------------------------------------
  // Facts about the token list
  // ---------------------------------------------------------------------------

  lemma EntityNonEmpty(t: string)
    requires t in Entities
    ensures |t| >= 3
  {
  }

  /** Every token starts with a token-initial character (see `IsEntityHead`). */
  lemma EntityShape(t: string)
    requires t in Entities
    ensures |t| >= 3 && IsEntityHead(t[0])
  {
  }

  /** No token contains a full-width letter or digit, so the fold leaves tokens alone. */
  lemma EntitiesFoldFixed(t: string)
    requires t in Entities
    ensures FoldWidth(t) == t
  {
  }

  /** Distinct tokens already differ in their first three characters. */
  lemma EntitiesDistinctHeads(u: string, t: string)
    requires u in Entities && t in Entities && u != t
    ensures |u| >= 3 && |t| >= 3 && u[..3] != t[..3]
  {
    var i :| 0 <= i < |Entities| && Entities[i] == u;
    var j :| 0 <= j < |Entities| && Entities[j] == t;
    assert u[0] != t[0] || u[1] != t[1] || u[2] != t[2];
    assert u[..3][0] == u[0] && u[..3][1] == u[1] && u[..3][2] == u[2];
  }

  /** When a token starts the text, the alternation picks that very token. */
  lemma EntityAtFront(t: string, x: string)
    requires t in Entities
    ensures EntityAt(t + x) == Some(t)
  {
    assert IsPrefix(t, t + x) by { assert (t + x)[..|t|] == t; }
    var r := EntityAt(t + x);
    if r.Some? && r.value != t {
      EntitiesDistinctHeads(r.value, t);
    }
  }

  /** A token at the front is dropped whole. */
  lemma RemoveEntitiesFront(t: string, x: string)
    requires t in Entities
    ensures RemoveEntities(t + x) == RemoveEntities(x)
  {
    EntityAtFront(t, x);
    EntityNonEmpty(t);
    assert (t + x)[|t|..] == x;
  }

  /** Where no token starts, one character is kept. */
  lemma RemoveEntitiesKeep(c: char, x: string)
    requires EntityAt([c] + x) == None
    ensures RemoveEntities([c] + x) == [c] + RemoveEntities(x)
  {
    assert ([c] + x)[1..] == x;
  }

  /** A character that can start a token. */
  predicate IsEntityHead(c: char) {
    c == '株' || c == '有' || c == '合' || c == '一' || c == '(' || c == '（'
  }

  /** Text with no token-initial character passes the removal step untouched. */
  lemma {:induction false} RemoveEntitiesPlain(s: string)
    requires forall i :: 0 <= i < |s| ==> !IsEntityHead(s[i])
    ensures RemoveEntities(s) == s
    decreases |s|
  {
    if s != [] {
      forall t | t in Entities
        ensures !IsPrefix(t, s)
      {
        EntityShape(t);
        if |t| <= |s| {
          assert s[..|t|][0] == s[0];
        }
      }
      EntityAtSpec(s);
      RemoveEntitiesPlain(s[1..]);
      assert [s[0]] + s[1..] == s;
    }
  }

  lemma {:induction false} RemoveSpacePlain(d: Dialect, s: string)
    requires forall i :: 0 <= i < |s| ==> !IsSpace(d, s[i])
    ensures RemoveSpace(d, s) == s
    decreases |s|
  {
    if s != [] {
      RemoveSpacePlain(d, s[1..]);
      assert [s[0]] + s[1..] == s;
    }
  }

  /** Text that is already in normal form and contains no token-initial character is
      its own key. */
  lemma NormalizePlain(d: Dialect, s: string)
    requires forall i :: 0 <= i < |s| ==>
      !IsEntityHead(s[i]) && !IsSpace(d, s[i]) && !IsFullWidthAlnum(s[i]) && !IsAsciiUpper(s[i])
    ensures Normalize(d, s) == s
  {
    assert FoldWidth(s) == s;
    RemoveEntitiesPlain(s);
    RemoveSpacePlain(d, s);
    assert Lower(s) == s;
  }

  lemma {:induction false} RemoveSpaceAppend(d: Dialect, a: string, b: string)
    ensures RemoveSpace(d, a + b) == RemoveSpace(d, a) + RemoveSpace(d, b)
    decreases |a|
  {
    if a == [] {
      assert a + b == b;
    } else {
      var ab := a + b;
      assert ab[0] == a[0] && ab[1..] == a[1..] + b;
      RemoveSpaceAppend(d, a[1..], b);
      var x, y := RemoveSpace(d, a[1..]), RemoveSpace(d, b);
      assert RemoveSpace(d, ab[1..]) == x + y;
      if !IsSpace(d, a[0]) {
        assert [a[0]] + (x + y) == [a[0]] + x + y;
      }
    }
  }

  /** A whitespace character on its own disappears. */
  lemma RemoveSpaceSingle(d: Dialect, c: char)
    requires IsSpace(d, c)
    ensures RemoveSpace(d, [c]) == []
  {
    assert [c][1..] == [];
  }

  /** A single whitespace character between two space-free runs is dropped. */
  lemma {:induction false} RemoveOneSpace(d: Dialect, a: string, c: char, b: string)
    requires IsSpace(d, c)
    requires forall i :: 0 <= i < |a| ==> !IsSpace(d, a[i])
    requires forall i :: 0 <= i < |b| ==> !IsSpace(d, b[i])
    ensures RemoveSpace(d, a + [c] + b) == a + b
    decreases |a|
  {
    var s := a + [c] + b;
    if a == [] {
      assert s[1..] == b;
      RemoveSpacePlain(d, b);
      assert a + b == b;
    } else {
      assert s[0] == a[0];
      assert s[1..] == a[1..] + [c] + b;
      RemoveOneSpace(d, a[1..], c, b);
      assert a + b == [a[0]] + (a[1..] + b);
    }
  }

  /** Once the token step is known, the key follows. */
  lemma NormalizeVia(d: Dialect, s: string, x: string)
    requires RemoveEntities(FoldWidth(s)) == x
    requires forall i :: 0 <= i < |x| ==> !IsSpace(d, x[i])
    ensures Normalize(d, s) == Lower(x)
  {
    RemoveSpacePlain(d, x);
  }

  // ---------------------------------------------------------------------------
  // Properties of the normaliser
  // ---------------------------------------------------------------------------

  /** A legal-entity token in front of a name does not change its key: `株式会社テスト`,
      `(株)テスト` and `テスト` all normalise alike. */
  lemma {:induction false} EntityPrefixIgnored(d: Dialect, t: string, s: string)
    requires t in Entities
    ensures Normalize(d, t + s) == Normalize(d, s)
  {
    assert FoldWidth(t + s) == t + FoldWidth(s) by {
      EntitiesFoldFixed(t);
      assert FoldWidth(t + s) == FoldWidth(t) + FoldWidth(s);
    }
    RemoveEntitiesFront(t, FoldWidth(s));
  }

  /** Full-width letters and digits are interchangeable with their ASCII twins. */
  lemma WidthIgnored(d: Dialect, s: string)
    ensures Normalize(d, seq(|s|, i requires 0 <= i < |s| => WidenChar(s[i]))) == Normalize(d, s)
  {
    var w := seq(|s|, i requires 0 <= i < |s| => WidenChar(s[i]));
    assert FoldWidth(w) == FoldWidth(s);
  }

  /** Whitespace removal agrees between the dialects on text where their sets agree. */
  lemma {:induction false} RemoveSpaceDialects(s: string)
    requires forall i :: 0 <= i < |s| ==> !IsDialectSensitive(s[i])
    ensures RemoveSpace(Python, s) == RemoveSpace(JavaScript, s)
    decreases |s|
  {
    if s != [] {
      RemoveSpaceDialects(s[1..]);
    }
  }

  /** The Python copies and the page's JavaScript copy compute the same key on every
      text without a character on which `\s` differs between the two languages. */
  lemma DialectsAgree(s: string)
    requires forall i :: 0 <= i < |s| ==> !IsDialectSensitive(s[i])
    ensures Normalize(Python, s) == Normalize(JavaScript, s)
  {
    var folded := FoldWidth(s);
    var kept := RemoveEntities(folded);
    RemoveEntitiesSubseq(folded);
    SubseqMembers(kept, folded);
    forall i | 0 <= i < |kept|
      ensures !IsDialectSensitive(kept[i])
    {
      assert kept[i] in folded;
    }
    RemoveSpaceDialects(kept);
  }

  // ---------------------------------------------------------------------------
  // What the normaliser does NOT promise
  // ---------------------------------------------------------------------------

  /** `normalize` is not idempotent: removing an inner token can splice an outer one
      together, and that one only goes on the second pass. */
  lemma NotIdempotent(d: Dialect)
    ensures Normalize(d, "株株式会社式会社") == "株式会社"
    ensures Normalize(d, Normalize(d, "株株式会社式会社")) == ""
  {
    FoldSpliced();
    RemoveSpliced();
    NormalizeVia(d, "株株式会社式会社", "株式会社");
    LowerJapanese();
    TokenAlone(d);
  }

  /** Tokens go before whitespace, so a space inside a token keeps the token. */
  lemma SpaceInsideTokenMatters(d: Dialect)
    ensures Normalize(d, "株式 会社X") == "株式会社x"
    ensures Normalize(d, "株式会社X") == "x"
  {
    FoldSpaced();
    RemoveSpaced();
    SpaceOfSpaced(d);
    LowerSpaced();
    FoldTokenX();
    RemoveTokenX();
    NormalizeVia(d, "株式会社X", "X");
  }

  // Single computations on literals, kept apart so that each proof sees one literal.

  lemma FoldSpliced()
    ensures FoldWidth("株株式会社式会社") == "株株式会社式会社"
  {
  }

  lemma RemoveSpliced()
    ensures RemoveEntities("株株式会社式会社") == "株式会社"
  {
    NoEntityAtSpliced();
    assert "株株式会社式会社" == ['株'] + "株式会社" + "式会社";
    RemoveHeadThenToken('株', "株式会社", "式会社");
  }

  /** A character that starts no token, then a token, then plain text: only the token goes. */
  lemma RemoveHeadThenToken(c: char, t: string, x: string)
    requires EntityAt([c] + t + x) == None && t in Entities
    requires forall i :: 0 <= i < |x| ==> !IsEntityHead(x[i])
    ensures RemoveEntities([c] + t + x) == [c] + x
  {
    assert [c] + t + x == [c] + (t + x);
    RemoveEntitiesKeep(c, t + x);
    RemoveEntitiesFront(t, x);
    RemoveEntitiesPlain(x);
  }

  lemma NoEntityAtSpliced()
    ensures EntityAt("株株式会社式会社") == None
  {
    var s := "株株式会社式会社";
    assert s[0] == '株' && s[1] == '株';
    forall t | t in Entities
      ensures !IsPrefix(t, s)
    {
      EntityShape(t);
      assert IsPrefix(t, s) ==> t[0] == s[0] && t[1] == s[1];
      if t[0] == '株' {
        KabuToken(t);
      }
    }
  }

  lemma LowerJapanese()
    ensures Lower("株式会社") == "株式会社"
  {
  }

  lemma TokenAlone(d: Dialect)
    ensures Normalize(d, "株式会社") == ""
  {
    EntityPrefixIgnored(d, "株式会社", "");
    assert "株式会社" + "" == "株式会社";
  }

  lemma FoldSpaced()
    ensures FoldWidth("株式 会社X") == "株式 会社X"
  {
  }

  lemma RemoveSpaced()
    ensures RemoveEntities("株式 会社X") == "株式 会社X"
  {
    NoEntityAtSpaced();
    RemoveAfterHead("株式 会社X");
  }

  /** A text whose only token-initial character is its first, where no token starts. */
  lemma RemoveAfterHead(s: string)
    requires s != [] && EntityAt(s) == None
    requires forall i :: 1 <= i < |s| ==> !IsEntityHead(s[i])
    ensures RemoveEntities(s) == s
  {
    var x := s[1..];
    forall i | 0 <= i < |x|
      ensures !IsEntityHead(x[i])
    {
      assert x[i] == s[i + 1];
    }
    assert s == [s[0]] + x;
    RemoveEntitiesKeep(s[0], x);
    RemoveEntitiesPlain(x);
  }

  /** The only token beginning with 株 is 株式会社. */
  lemma KabuToken(t: string)
    requires t in Entities && t[0] == '株'
    ensures t == "株式会社"
  {
  }

  lemma NoEntityAtSpaced()
    ensures EntityAt("株式 会社X") == None
  {
    var s := "株式 会社X";
    assert s[0] == '株' && s[2] == ' ';
    forall t | t in Entities
      ensures !IsPrefix(t, s)
    {
      EntityNonEmpty(t);
      assert IsPrefix(t, s) ==> t[0] == s[0];
      if t[0] == '株' {
        KabuToken(t);
      }
    }
  }

  lemma SpaceOfSpaced(d: Dialect)
    ensures RemoveSpace(d, "株式 会社X") == "株式会社X"
  {
    assert "株式 会社X" == "株式" + [' '] + "会社X";
    RemoveOneSpace(d, "株式", ' ', "会社X");
  }

  lemma LowerSpaced()
    ensures Lower("株式会社X") == "株式会社x"
    ensures Lower("X") == "x"
  {
  }

  lemma FoldTokenX()
    ensures FoldWidth("株式会社X") == "株式会社X"
  {
  }

  lemma RemoveTokenX()
    ensures RemoveEntities("株式会社X") == "X"
  {
    assert "株式会社X" == "株式会社" + "X";
    RemoveEntitiesFront("株式会社", "X");
    RemoveEntitiesPlain("X");
  }

  // ---------------------------------------------------------------------------
  // Worked examples
  // ---------------------------------------------------------------------------

  /** Full-width and ASCII spellings of a name give the same key. */
  lemma ExampleWidth(d: Dialect)
    ensures Normalize(d, "Ａｂｃ１２３") == Normalize(d, "Abc123") == "abc123"
  {
    WidenAbc();
    WidthIgnored(d, "Abc123");
    KeyAbc(d);
  }

  lemma KeyAbc(d: Dialect)
    ensures Normalize(d, "Abc123") == "abc123"
  {
    PlainAbc();
    AbcNoSpace(d);
    NormalizeVia(d, "Abc123", "Abc123");
    LowerAbc();
  }

  lemma AbcNoSpace(d: Dialect)
    ensures forall i :: 0 <= i < |"Abc123"| ==> !IsSpace(d, "Abc123"[i])
  {
    forall i | 0 <= i < |"Abc123"|
      ensures !IsSpace(d, "Abc123"[i])
    {
      assert '0' <= "Abc123"[i] <= 'z';
    }
  }

  lemma WidenAbc()
    ensures seq(6, i requires 0 <= i < 6 => WidenChar("Abc123"[i])) == "Ａｂｃ１２３"
  {
  }

  lemma PlainAbc()
    ensures RemoveEntities(FoldWidth("Abc123")) == "Abc123"
  {
    assert FoldWidth("Abc123") == "Abc123";
    RemoveEntitiesPlain("Abc123");
  }

  lemma LowerAbc()
    ensures Lower("Abc123") == "abc123"
  {
  }

  /** Legal-entity prefixes do not matter. */
  lemma ExampleEntities(d: Dialect)
    ensures Normalize(d, "株式会社テスト") == Normalize(d, "テスト")
    ensures Normalize(d, "(株)テスト") == Normalize(d, "テスト")
  {
    SplitTest();
    EntityPrefixIgnored(d, "株式会社", "テスト");
    EntityPrefixIgnored(d, "(株)", "テスト");
  }

  lemma SplitTest()
    ensures "株式会社テスト" == "株式会社" + "テスト"
    ensures "(株)テスト" == "(株)" + "テスト"
  {
  }

  /** A space between two ordinary words does not matter. */
  lemma ExampleSpace(d: Dialect)
    ensures Normalize(d, "東京 都") == Normalize(d, "東京都") == "東京都"
  {
    PlainTokyo(d);
    NormalizePlain(d, "東京都");
  }

  lemma PlainTokyo(d: Dialect)
    ensures RemoveEntities(FoldWidth("東京 都")) == "東京 都"
    ensures Lower(RemoveSpace(d, "東京 都")) == "東京都"
  {
    FoldTokyo();
    RemoveTokyo();
    SpaceTokyo(d);
    LowerTokyo();
  }

  lemma FoldTokyo()
    ensures FoldWidth("東京 都") == "東京 都"
  {
  }

  lemma RemoveTokyo()
    ensures RemoveEntities("東京 都") == "東京 都"
  {
    RemoveEntitiesPlain("東京 都");
  }

  lemma SpaceTokyo(d: Dialect)
    ensures RemoveSpace(d, "東京 都") == "東京都"
  {
    assert "東京 都" == "東京" + [' '] + "都";
    RemoveOneSpace(d, "東京", ' ', "都");
  }

  lemma LowerTokyo()
    ensures Lower("東京都") == "東京都"
  {
  }
}
