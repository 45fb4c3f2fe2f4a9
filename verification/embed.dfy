/** The page build: the registry JSON is spliced between two comment markers of the checker
    page, the page's script is replaced from a marker comment to the end, and the header
    sentence is rewritten. The JSON texts and the new script are given as strings. */
module Embed {
  import opened Wrappers
  import opened Strings

  const StartMark: string := "/* EMBEDDED_DB_START */"
  const EndMark: string := "/* EMBEDDED_DB_END */"

  /** What can stop the build. */
  datatype TemplateError = TrailingBackslash | BadEscape(c: char) | GroupReference
  datatype BuildError = NoMarkers | NoJsMarker | BadTemplate(e: TemplateError)

  /** The fixed text around the three JSON lists in the block. */
  const Head: string := StartMark + "\nconst EMBEDDED_KINYUSHOHIN="
  const Mid1: string := ";\nconst EMBEDDED_CHUUKAI="
  const Mid2: string := ";\nconst EMBEDDED_TOUROKU="
  const Tail: string := ";\n" + EndMark

  /** The text that goes between (and including) the markers, given the three JSON lists. */
  function NewDbBlock(k: string, c: string, t: string): (r: string)
    ensures IsPrefix(StartMark, r)
    ensures |r| >= |EndMark| && r[|r| - |EndMark|..] == EndMark
    ensures Contains(r, k) && Contains(r, c) && Contains(r, t)
  {
    var r := Head + k + Mid1 + c + Mid2 + t + Tail;
    assert r[..|StartMark|] == StartMark by {
      assert r == StartMark + (r[|StartMark|..]);
    }
    ContainsSelf(k);
    ContainsSelf(c);
    ContainsSelf(t);
    Regroup(Head, k, Mid1, c, Mid2, t, Tail);
    ContainsInContext(Head, k, Mid1 + c + Mid2 + t + Tail, k);
    ContainsInContext(Head + k + Mid1, c, Mid2 + t + Tail, c);
    ContainsInContext(Head + k + Mid1 + c + Mid2, t, Tail, t);
    assert r == (Head + k + Mid1 + c + Mid2 + t + ";\n") + EndMark;
    r
  }

  /** The groupings of a seven-part concatenation used above. */
  lemma Regroup<T>(a: seq<T>, b: seq<T>, c: seq<T>, d: seq<T>, e: seq<T>, f: seq<T>, g: seq<T>)
    ensures a + b + c + d + e + f + g == a + b + (c + d + e + f + g)
    ensures a + b + c + d + e + f + g == a + b + c + d + (e + f + g)
    ensures a + b + c + d + e + f + g == a + (b + c + d + e + f + g)
  {
  }

  lemma RegroupFirst<T>(h: seq<T>, q: seq<T>, x: seq<T>, r: seq<T>, m1: seq<T>, c: seq<T>,
                        m2: seq<T>, t: seq<T>, tl: seq<T>)
    ensures h + (q + x + r) + m1 + c + m2 + t + tl == (h + q) + (x + r + m1 + c + m2 + t + tl)
  {
  }

  // ---------------------------------------------------------------------------
  // The non-greedy block pattern `START.*?END` (dot matches newlines), for any two markers
  // ---------------------------------------------------------------------------

  /** Some START is followed, at or after its end, by an END: the pattern matches somewhere. */
  predicate HasBlock(h: string, s: string, e: string) {
    exists i, j | 0 <= i <= |h| && 0 <= j <= |h| ::
      OccursAt(h, s, i) && i + |s| <= j && OccursAt(h, e, j)
  }

  /** The match `h[start..stop]`. */
  datatype Span = Span(start: nat, stop: nat)

  /** The leftmost match: the first START, and the first END that follows it. A later START
      cannot produce a match when the first one has no END after it. */
  function FindBlock(h: string, s: string, e: string): (r: Option<Span>)
    ensures r.None? <==> !HasBlock(h, s, e)
    ensures r.Some? ==>
      r.value.start + |s| + |e| <= r.value.stop <= |h|
      && OccursAt(h, s, r.value.start) && OccursAt(h, e, r.value.stop - |e|)
      && (forall i :: 0 <= i < r.value.start ==> !OccursAt(h, s, i))
      && (forall j :: r.value.start + |s| <= j < r.value.stop - |e| ==> !OccursAt(h, e, j))
  {
    match IndexOf(h, s)
    case None => None
    case Some(p) =>
      match FindFrom(h, e, p + |s|)
      case None =>
        assert !HasBlock(h, s, e) by {
          forall i, j | 0 <= i <= |h| && 0 <= j <= |h| && OccursAt(h, s, i) && i + |s| <= j
            ensures !OccursAt(h, e, j)
          {
            assert p <= i;
          }
        }
        None
      case Some(q) =>
        assert HasBlock(h, s, e) by {
          assert OccursAt(h, s, p) && OccursAt(h, e, q);
        }
        Some(Span(p, q + |e|))
  }

  /** `pattern.sub` with a literal replacement: every match, left to right, becomes `rep`. */
  function ReplaceBlocks(h: string, s: string, e: string, rep: string): (r: string)
    requires |s| > 0
    ensures !HasBlock(h, s, e) ==> r == h
    decreases |h|
  {
    match FindBlock(h, s, e)
    case None => h
    case Some(Span(p, q)) => h[..p] + rep + ReplaceBlocks(h[q..], s, e, rep)
  }

  /** A bare block, START immediately followed by END, is one match covering the whole text. */
  lemma BareBlock(s: string, e: string)
    requires |s| > 0
    ensures HasBlock(s + e, s, e)
    ensures FindBlock(s + e, s, e) == Some(Span(0, |s| + |e|))
  {
    var h := s + e;
    assert h[..|s|] == s && h[|s|..] == e;
    assert OccursAt(h, s, 0);
    assert h[|s|..][..|e|] == e;
    assert OccursAt(h, e, |s|);
  }

  /** Replacing in a bare block gives the replacement. */
  lemma ReplaceBareBlock(s: string, e: string, rep: string)
    requires |s| > 0
    ensures ReplaceBlocks(s + e, s, e, rep) == rep
  {
    BareBlock(s, e);
    var h := s + e;
    assert h[..0] == [] && h[|s| + |e|..] == [];
    assert !HasBlock([], s, e);
  }

  /** A well-formed block: it starts with START, ends with END, and END occurs nowhere else
      after the opening START. */
  predicate IsBlock(b: string, s: string, e: string) {
    && |s| + |e| <= |b| && IsPrefix(s, b) && OccursAt(b, e, |b| - |e|)
    && forall j :: |s| <= j < |b| - |e| ==> !OccursAt(b, e, j)
  }

  /** A well-formed block preceded by text without START is the match. */
  lemma FindBlockAt(a: string, b: string, c: string, s: string, e: string)
    requires |s| > 0 && IsBlock(b, s, e)
    requires forall i :: 0 <= i < |a| ==> !OccursAt(a + b + c, s, i)
    ensures FindBlock(a + b + c, s, e) == Some(Span(|a|, |a| + |b|))
  {
    var i := |a| + |s|;
    StartOfBlock(a, b, c, s, e);
    EndOfBlock(a, b, c, s, e, i);
    FindBlockOf(a + b + c, s, e, |a|, i, |a| + |b| - |e|);
  }

  /** The first END after the block's START is the block's. */
  lemma EndOfBlock(a: string, b: string, c: string, s: string, e: string, i: nat)
    requires IsBlock(b, s, e) && i == |a| + |s|
    ensures i <= |a + b + c| && FindFrom(a + b + c, e, i) == Some(|a| + |b| - |e|)
  {
    var h := a + b + c;
    var q := |a| + |b| - |e|;
    OccursInMiddle(a, b, c, e, |b| - |e|);
    forall j | i <= j < q
      ensures !OccursAt(h, e, j)
    {
      OccursInMiddle(a, b, c, e, j - |a|);
    }
    FindFromAt(h, e, i, q);
  }

  /** The match is made of the first START and the first END after it. */
  lemma FindBlockOf(h: string, s: string, e: string, p: nat, i: nat, q: nat)
    requires IndexOf(h, s) == Some(p) && i == p + |s| && i <= |h| && FindFrom(h, e, i) == Some(q)
    ensures FindBlock(h, s, e) == Some(Span(p, q + |e|))
  {
  }

  /** The first START of the page is the block's. */
  lemma StartOfBlock(a: string, b: string, c: string, s: string, e: string)
    requires |s| > 0 && IsBlock(b, s, e)
    requires forall i :: 0 <= i < |a| ==> !OccursAt(a + b + c, s, i)
    ensures IndexOf(a + b + c, s) == Some(|a|)
  {
    OccursInMiddle(a, b, c, s, 0);
    FindFromAt(a + b + c, s, 0, |a|);
  }

  /** The first block of a page becomes the replacement, the text before it is kept, and the
      rest of the page is replaced in the same way, whatever blocks it holds. */
  lemma ReplaceBlocksSplit(a: string, b: string, c: string, s: string, e: string, rep: string)
    requires |s| > 0 && IsBlock(b, s, e)
    requires forall i :: 0 <= i < |a| ==> !OccursAt(a + b + c, s, i)
    ensures ReplaceBlocks(a + b + c, s, e, rep) == a + rep + ReplaceBlocks(c, s, e, rep)
  {
    var h := a + b + c;
    FindBlockAt(a, b, c, s, e);
    assert h[..|a|] == a && h[|a| + |b|..] == c;
  }

  /** On a page with a single block, only the block changes: the text before and after it is
      kept. */
  lemma ReplaceSingleBlock(a: string, b: string, c: string, s: string, e: string, rep: string)
    requires |s| > 0 && IsBlock(b, s, e) && !HasBlock(c, s, e)
    requires forall i :: 0 <= i < |a| ==> !OccursAt(a + b + c, s, i)
    ensures ReplaceBlocks(a + b + c, s, e, rep) == a + rep + c
  {
    ReplaceBlocksSplit(a, b, c, s, e, rep);
  }

  lemma Assoc5<T>(a: seq<T>, b: seq<T>, c: seq<T>, d: seq<T>, e: seq<T>)
    ensures a + b + c + d + e == a + b + (c + d + e)
  {
  }

  /** On a page with two blocks, both become the replacement and the text around and between
      them is kept. */
  lemma ReplaceTwoBlocks(a: string, b1: string, m: string, b2: string, c: string, s: string, e: string,
                         rep: string)
    requires |s| > 0 && IsBlock(b1, s, e) && IsBlock(b2, s, e) && !HasBlock(c, s, e)
    requires forall i :: 0 <= i < |a| ==> !OccursAt(a + b1 + m + b2 + c, s, i)
    requires forall i :: 0 <= i < |m| ==> !OccursAt(m + b2 + c, s, i)
    ensures ReplaceBlocks(a + b1 + m + b2 + c, s, e, rep) == a + rep + m + rep + c
  {
    ReplaceSingleBlock(m, b2, c, s, e, rep);
    Assoc5(a, b1, m, b2, c);
    Assoc5(a, rep, m, rep, c);
    ReplaceBlocksSplit(a, b1, m + b2 + c, s, e, rep);
  }

  /** Replacing the single block of a page by a well-formed block, and then doing it again,
      gives the page of the first replacement: rebuilding is stable. */
  lemma RebuildStable(a: string, b: string, c: string, s: string, e: string, rep: string)
    requires |s| > 0 && IsBlock(b, s, e) && IsBlock(rep, s, e) && !HasBlock(c, s, e)
    requires forall i :: 0 <= i < |a| ==> !OccursAt(a + b + c, s, i)
    ensures ReplaceBlocks(ReplaceBlocks(a + b + c, s, e, rep), s, e, rep) == a + rep + c
  {
    ReplaceSingleBlock(a, b, c, s, e, rep);
    NoStartBefore(a, b, c, s, e, rep);
    ReplaceSingleBlock(a, rep, c, s, e, rep);
  }

  /** Swapping one block for another leaves the text before it free of START. */
  lemma NoStartBefore(a: string, b: string, c: string, s: string, e: string, rep: string)
    requires IsBlock(b, s, e) && IsBlock(rep, s, e)
    requires forall i :: 0 <= i < |a| ==> !OccursAt(a + b + c, s, i)
    ensures forall i :: 0 <= i < |a| ==> !OccursAt(a + rep + c, s, i)
  {
    assert (b + c)[..|s|] == s && (rep + c)[..|s|] == s;
    assert a + b + c == a + (b + c) && a + rep + c == a + (rep + c);
    forall i | 0 <= i < |a|
      ensures !OccursAt(a + rep + c, s, i)
    {
      OccursBeforeSplice(a, b + c, rep + c, s, i);
    }
  }

  // ---------------------------------------------------------------------------
  // Python's replacement-template expansion, which `pattern.sub` applies to a string
  // ---------------------------------------------------------------------------

  /** The escapes a template turns into one character. */
  function TemplateEscape(c: char): (r: Option<char>)
    ensures r.Some? ==> c in "\\abfnrtv"
    ensures c == '\\' <==> r == Some('\\')
  {
    match c
    case '\\' => Some('\\')
    case 'a' => Some('\U{7}')
    case 'b' => Some('\U{8}')
    case 'f' => Some('\U{C}')
    case 'n' => Some('\n')
    case 'r' => Some('\r')
    case 't' => Some('\t')
    case 'v' => Some('\U{B}')
    case _ => None
  }

  predicate IsAsciiLetter(c: char) {
    ('a' <= c <= 'z') || ('A' <= c <= 'Z')
  }

  /** Puts `a` in front of a successful expansion. */
  function Prepend(a: string, r: Result<string, TemplateError>): (s: Result<string, TemplateError>)
    ensures s.Failure? <==> r.Failure?
    ensures s.Failure? ==> s.error == r.error
    ensures s.Success? ==> s.value == a + r.value
  {
    match r
    case Success(v) => Success(a + v)
    case Failure(e) => Failure(e)
  }

  /** A template's expansion: a backslash starts an escape; the single-character escapes and
      `\\` are replaced, `\g` and digits name groups, any other ASCII letter is an error, and
      any other escaped character is kept together with its backslash. */
  function Expand(t: string): (r: Result<string, TemplateError>)
    ensures r.Success? ==> |r.value| <= |t|
    decreases |t|
  {
    if t == [] then Success([])
    else if t[0] != '\\' then Prepend([t[0]], Expand(t[1..]))
    else if |t| == 1 then Failure(TrailingBackslash)
    else
      var c := t[1];
      match TemplateEscape(c)
      case Some(x) => Prepend([x], Expand(t[2..]))
      case None =>
        if c == 'g' || ('0' <= c <= '9') then Failure(GroupReference)
        else if IsAsciiLetter(c) then Failure(BadEscape(c))
        else Prepend(['\\', c], Expand(t[2..]))
  }

  lemma PrependTwice(x: string, y: string, r: Result<string, TemplateError>)
    ensures Prepend(x, Prepend(y, r)) == Prepend(x + y, r)
  {
    if r.Success? {
      assert x + (y + r.value) == (x + y) + r.value;
    }
  }

  /** Text without a backslash expands to itself, in front of anything. */
  lemma {:induction false} ExpandAppendPlain(a: string, b: string)
    requires '\\' !in a
    ensures Expand(a + b) == Prepend(a, Expand(b))
    decreases |a|
  {
    if a != [] {
      assert (a + b)[0] == a[0] && (a + b)[1..] == a[1..] + b;
      ExpandAppendPlain(a[1..], b);
      PrependTwice([a[0]], a[1..], Expand(b));
      assert [a[0]] + a[1..] == a;
    } else {
      assert a + b == b;
      match Expand(b)
      case Success(v) => assert [] + v == v;
      case Failure(_) =>
    }
  }

  lemma ExpandPlain(a: string)
    requires '\\' !in a
    ensures Expand(a) == Success(a)
  {
    ExpandAppendPlain(a, []);
    assert a + [] == a;
  }

  /** A doubled backslash collapses to one. */
  lemma ExpandDoubleBackslash(b: string)
    ensures Expand("\\\\" + b) == Prepend("\\", Expand(b))
  {
    var t := "\\\\" + b;
    assert t[0] == '\\' && t[1] == '\\' && t[2..] == b;
  }

  /** A `\u` escape, as JSON writes control characters, is rejected. */
  lemma ExpandUnicodeEscape(b: string)
    ensures Expand("\\u" + b) == Failure(BadEscape('u'))
  {
    var t := "\\u" + b;
    assert t[0] == '\\' && t[1] == 'u';
  }

  // ---------------------------------------------------------------------------
  // The data step, as written and as intended
  // ---------------------------------------------------------------------------

  /** The script as written: the block text is handed to `pattern.sub` as a template. */
  function EmbedDbAsWritten(h: string, k: string, c: string, t: string): (r: Result<string, BuildError>)
    ensures r == Failure(NoMarkers) <==> !HasBlock(h, StartMark, EndMark)
    ensures r.Success? ==> Expand(NewDbBlock(k, c, t)).Success?
  {
    if FindBlock(h, StartMark, EndMark).None? then Failure(NoMarkers)
    else
      match Expand(NewDbBlock(k, c, t))
      case Failure(e) => Failure(BadTemplate(e))
      case Success(x) => Success(ReplaceBlocks(h, StartMark, EndMark, x))
  }

  /** The step as intended: the block text is inserted verbatim, as the script step after it
      does for the new script by passing a function instead of a template. */
  function EmbedDb(h: string, k: string, c: string, t: string): (r: Result<string, BuildError>)
    ensures r.Failure? <==> !HasBlock(h, StartMark, EndMark)
    ensures r.Failure? ==> r.error == NoMarkers
    ensures r.Success? ==>
      IsPrefix(h[..FindBlock(h, StartMark, EndMark).value.start] + NewDbBlock(k, c, t), r.value)
      && Contains(r.value, NewDbBlock(k, c, t))
  {
    if FindBlock(h, StartMark, EndMark).None? then Failure(NoMarkers)
    else
      var p := FindBlock(h, StartMark, EndMark).value.start;
      var b := NewDbBlock(k, c, t);
      var r := ReplaceBlocks(h, StartMark, EndMark, b);
      assert IsPrefix(h[..p] + b, r);
      ContainsAt(r, b, p);
      Success(r)
  }

  /** Running the corrected data step again on its own output changes nothing, on a page with a
      single block and for a data block that is well formed (no END marker inside the JSON). */
  lemma EmbedDbStable(a: string, b: string, c: string, k: string, cj: string, t: string)
    requires IsBlock(b, StartMark, EndMark) && IsBlock(NewDbBlock(k, cj, t), StartMark, EndMark)
    requires !HasBlock(c, StartMark, EndMark)
    requires forall i :: 0 <= i < |a| ==> !OccursAt(a + b + c, StartMark, i)
    ensures EmbedDb(a + b + c, k, cj, t) == Success(a + NewDbBlock(k, cj, t) + c)
    ensures EmbedDb(a + NewDbBlock(k, cj, t) + c, k, cj, t) == EmbedDb(a + b + c, k, cj, t)
  {
    var blk := NewDbBlock(k, cj, t);
    FindBlockAt(a, b, c, StartMark, EndMark);
    ReplaceSingleBlock(a, b, c, StartMark, EndMark, blk);
    RebuildStable(a, b, c, StartMark, EndMark, blk);
    NoStartBefore(a, b, c, StartMark, EndMark, blk);
    FindBlockAt(a, blk, c, StartMark, EndMark);
  }

  /** On any page, the corrected data step puts the new block in place of the first block,
      keeps the text before it, and treats the rest of the page the same way. */
  lemma EmbedDbSplit(a: string, b: string, c: string, k: string, cj: string, t: string)
    requires IsBlock(b, StartMark, EndMark)
    requires forall i :: 0 <= i < |a| ==> !OccursAt(a + b + c, StartMark, i)
    ensures EmbedDb(a + b + c, k, cj, t)
      == Success(a + NewDbBlock(k, cj, t) + ReplaceBlocks(c, StartMark, EndMark, NewDbBlock(k, cj, t)))
  {
    FindBlockAt(a, b, c, StartMark, EndMark);
    ReplaceBlocksSplit(a, b, c, StartMark, EndMark, NewDbBlock(k, cj, t));
  }

  /** The fixed parts of the block hold no backslash. */
  lemma FixedPartsPlain()
    ensures '\\' !in Head && '\\' !in Mid1 && '\\' !in Mid2 && '\\' !in Tail
  {
    NoMemberAppend('\\', StartMark, "\nconst EMBEDDED_KINYUSHOHIN=");
    NoMemberAppend('\\', ";\n", EndMark);
  }

  lemma NoMemberAppend<T>(x: T, a: seq<T>, b: seq<T>)
    requires x !in a && x !in b
    ensures x !in a + b
  {
  }

  /** A block whose JSON texts hold no backslash is its own expansion. */
  lemma ExpandBlockPlain(k: string, c: string, t: string)
    requires '\\' !in k && '\\' !in c && '\\' !in t
    ensures Expand(NewDbBlock(k, c, t)) == Success(NewDbBlock(k, c, t))
  {
    FixedPartsPlain();
    var b := NewDbBlock(k, c, t);
    assert forall i | 0 <= i < |b| :: b[i] != '\\';
    ExpandPlain(b);
  }

  /** When the JSON texts hold no backslash, the template reading changes nothing. */
  lemma AsWrittenAgreesWithoutBackslash(h: string, k: string, c: string, t: string)
    requires '\\' !in k && '\\' !in c && '\\' !in t
    ensures EmbedDbAsWritten(h, k, c, t) == EmbedDb(h, k, c, t)
  {
    ExpandBlockPlain(k, c, t);
  }

  /** A block whose first list starts `["` followed by `x`: the expansion sees the fixed text
      first and then `x`. */
  lemma ExpandBlockFrom(x: string, rest: string)
    ensures Expand(NewDbBlock("[\"" + x + rest, "[]", "[]"))
            == Prepend(Head + "[\"", Expand(x + rest + Mid1 + "[]" + Mid2 + "[]" + Tail))
  {
    FixedPartsPlain();
    var a := Head + "[\"";
    assert '\\' !in a;
    var tl := x + rest + Mid1 + "[]" + Mid2 + "[]" + Tail;
    RegroupFirst(Head, "[\"", x, rest, Mid1, "[]", Mid2, "[]", Tail);
    assert NewDbBlock("[\"" + x + rest, "[]", "[]") == a + tl;
    ExpandAppendPlain(a, tl);
  }

  /** The JSON text of a list holding one backslash: `["\\"]`. */
  const BackslashJson: string := "[\"\\\\\"]"

  /** The JSON text of a list holding the control character U+001F: `["\u001f"]`. */
  const ControlJson: string := "[\"\\u001f\"]"

  /** Expanding the block of `["\\"]` drops one character. */
  lemma BackslashExpansion()
    ensures Expand(NewDbBlock(BackslashJson, "[]", "[]")).Success?
    ensures |Expand(NewDbBlock(BackslashJson, "[]", "[]")).value| < |NewDbBlock(BackslashJson, "[]", "[]")|
  {
    var q := "\"]" + Mid1 + "[]" + Mid2 + "[]" + Tail;
    JsonParts();
    ExpandBlockFrom("\\\\", "\"]");
    Regroup("\\\\", "\"]", Mid1, "[]", Mid2, "[]", Tail);
    ExpandDoubleBackslash(q);
    ClosingPlain(q);
  }

  /** The two sample JSON texts, cut after their opening `["`. */
  lemma JsonParts()
    ensures BackslashJson == "[\"" + "\\\\" + "\"]"
    ensures ControlJson == "[\"" + "\\u" + "001f\"]"
  {
  }

  /** The fixed text after the first sample list holds no backslash. */
  lemma ClosingPlain(q: string)
    requires q == "\"]" + Mid1 + "[]" + Mid2 + "[]" + Tail
    ensures Expand(q).Success?
  {
    FixedPartsPlain();
    NoMemberAppend('\\', "\"]" + Mid1 + "[]" + Mid2 + "[]", Tail);
    ExpandPlain(q);
  }

  /** A backslash in the data loses its escaping backslash: the page receives `["\"]`, which
      is no longer a JSON string. */
  lemma BackslashCorrupted()
    ensures EmbedDbAsWritten(StartMark + EndMark, BackslashJson, "[]", "[]").Success?
    ensures EmbedDbAsWritten(StartMark + EndMark, BackslashJson, "[]", "[]")
            != EmbedDb(StartMark + EndMark, BackslashJson, "[]", "[]")
  {
    BackslashExpansion();
    var b := NewDbBlock(BackslashJson, "[]", "[]");
    var x := Expand(b).value;
    BareBlock(StartMark, EndMark);
    ReplaceBareBlock(StartMark, EndMark, x);
    ReplaceBareBlock(StartMark, EndMark, b);
  }

  /** An interior control character, which the cell reader keeps and JSON writes as `\u001f`,
      stops the build with a template error. */
  lemma ControlCharacterRejected()
    ensures EmbedDbAsWritten(StartMark + EndMark, ControlJson, "[]", "[]")
            == Failure(BadTemplate(BadEscape('u')))
    ensures EmbedDb(StartMark + EndMark, ControlJson, "[]", "[]").Success?
  {
    var q := "001f\"]" + Mid1 + "[]" + Mid2 + "[]" + Tail;
    JsonParts();
    ExpandBlockFrom("\\u", "001f\"]");
    Regroup("\\u", "001f\"]", Mid1, "[]", Mid2, "[]", Tail);
    ExpandUnicodeEscape(q);
    BareBlock(StartMark, EndMark);
  }

  // ---------------------------------------------------------------------------
  // The script tail and the header sentence
  // ---------------------------------------------------------------------------

  /** The comment line of 60 `=` that opens the data-management section of the old script. */
  const OldJsStart: string := "// " + Rule + "\n// データ管理"

  const Rule: string := "============================================================"

  /** `str.lstrip("\n")`. */
  function LStripNewlines(s: string): (r: string)
    ensures |r| <= |s| && r == s[|s| - |r|..]
    ensures r != [] ==> r[0] != '\n'
    ensures forall i :: 0 <= i < |s| - |r| ==> s[i] == '\n'
    decreases |s|
  {
    if s != [] && s[0] == '\n' then LStripNewlines(s[1..]) else s
  }

  /** Stripping twice strips nothing more. */
  lemma LStripIdempotent(s: string)
    ensures LStripNewlines(LStripNewlines(s)) == LStripNewlines(s)
  {
  }

  /** The pattern `OLD_JS_START.*$` with DOTALL: everything from the first marker to the end
      of the page is replaced by the new script with its leading newlines stripped. */
  function ReplaceTail(h: string, newJs: string): (r: Result<string, BuildError>)
    ensures r.Failure? <==> !Contains(h, OldJsStart)
    ensures r.Failure? ==> r.error == NoJsMarker
    ensures r.Success? ==>
      exists p :: OccursAt(h, OldJsStart, p) && (forall j :: 0 <= j < p ==> !OccursAt(h, OldJsStart, j))
                  && r.value == h[..p] + LStripNewlines(newJs)
  {
    match IndexOf(h, OldJsStart)
    case None => Failure(NoJsMarker)
    case Some(p) => Success(h[..p] + LStripNewlines(newJs))
  }

  /** Cutting at the first occurrence of `m` and appending a text that opens with `m` leaves
      the first occurrence where it was. */
  lemma CutKeepsFirst(h: string, m: string, s: string, p: nat)
    requires IndexOf(h, m) == Some(p) && IsPrefix(m, s)
    ensures IndexOf(h[..p] + s, m) == Some(p)
  {
    var n := |m|;
    var r := h[..p] + s;
    assert r[..p + n] == h[..p + n] by {
      assert r[p..p + n] == s[..n] == m == h[p..p + n];
      assert r[..p] == h[..p];
    }
    assert OccursAt(r, m, p) by {
      assert r[p..][..n] == s[..n];
    }
    assert forall i | 0 <= i < p + n :: r[i] == h[i] by {
      forall i | 0 <= i < p + n ensures r[i] == h[i] {
        assert r[i] == r[..p + n][i];
      }
    }
    forall j | 0 <= j < p
      ensures !OccursAt(r, m, j)
    {
      assert r[j..][..n] == h[j..][..n];
      assert !OccursAt(h, m, j);
    }
    var f := IndexOf(r, m);
    assert Contains(r, m);
    assert f.Some? && f.value <= p;
  }

  /** When the new script itself opens with the marker, replacing the tail a second time
      changes nothing. */
  lemma ReplaceTailIdempotent(h: string, newJs: string)
    requires IsPrefix(OldJsStart, LStripNewlines(newJs))
    requires Contains(h, OldJsStart)
    ensures ReplaceTail(h, newJs).Success?
    ensures ReplaceTail(ReplaceTail(h, newJs).value, newJs) == ReplaceTail(h, newJs)
  {
    var p := IndexOf(h, OldJsStart).value;
    var s := LStripNewlines(newJs);
    CutKeepsFirst(h, OldJsStart, s, p);
    var r := h[..p] + s;
    assert r[..p] + s == r;
  }

  const OldHeader: string := "会社名と住所を入力するだけで、金融庁の金融商品取引業者登録一覧に掲載されているかを即座に確認できます。"
  const NewHeader: string := "会社名と住所を入力するだけで、金融庁の<strong>金融商品取引業者・金融商品仲介業者・登録金融機関</strong>の3リストを一括検索できます。"

  /** `str.replace` of the header sentence, every occurrence. */
  function UpdateHeader(h: string): string {
    ReplaceAll(h, OldHeader, NewHeader)
  }

  /** A page without the old sentence is left alone; otherwise its first occurrence is
      rewritten and the search carries on after it. */
  lemma UpdateHeaderSpec(h: string)
    ensures !Contains(h, OldHeader) ==> UpdateHeader(h) == h
    ensures Contains(h, OldHeader) ==> var i := IndexOf(h, OldHeader).value;
      UpdateHeader(h) == h[..i] + NewHeader + UpdateHeader(h[i + |OldHeader|..])
  {
    if Contains(h, OldHeader) {
      ReplaceAllSplit(h, OldHeader, NewHeader, IndexOf(h, OldHeader).value);
    } else {
      ReplaceAllAbsent(h, OldHeader, NewHeader);
    }
  }

  /** The whole rewrite of the page as the script is written: the data step can also fail
      on the block's template expansion. */
  function BuildAsWritten(h: string, k: string, c: string, t: string, newJs: string): (r: Result<string, BuildError>)
    ensures r == Failure(NoMarkers) <==> !HasBlock(h, StartMark, EndMark)
    ensures r.Failure? && r.error.BadTemplate? <==>
      HasBlock(h, StartMark, EndMark) && Expand(NewDbBlock(k, c, t)).Failure?
    ensures r == Failure(NoJsMarker) <==>
      HasBlock(h, StartMark, EndMark) && Expand(NewDbBlock(k, c, t)).Success?
      && !Contains(ReplaceBlocks(h, StartMark, EndMark, Expand(NewDbBlock(k, c, t)).value), OldJsStart)
  {
    match EmbedDbAsWritten(h, k, c, t)
    case Failure(e) => Failure(e)
    case Success(x) =>
      match ReplaceTail(x, newJs)
      case Failure(e) => Failure(e)
      case Success(y) => Success(UpdateHeader(y))
  }

  /** The whole rewrite of the page, with the data step as intended. */
  function Build(h: string, k: string, c: string, t: string, newJs: string): (r: Result<string, BuildError>)
    ensures r == Failure(NoMarkers) <==> !HasBlock(h, StartMark, EndMark)
    ensures r == Failure(NoJsMarker) <==>
      HasBlock(h, StartMark, EndMark) && !Contains(EmbedDb(h, k, c, t).value, OldJsStart)
    ensures r.Success? ==> HasBlock(h, StartMark, EndMark)
  {
    match EmbedDb(h, k, c, t)
    case Failure(e) => Failure(e)
    case Success(x) =>
      match ReplaceTail(x, newJs)
      case Failure(e) => Failure(e)
      case Success(y) => Success(UpdateHeader(y))
  }

  /** Without a backslash in the JSON texts the build as written and the corrected build
      agree; with one they can differ, as BackslashCorrupted and ControlCharacterRejected show. */
  lemma BuildAgreesWithoutBackslash(h: string, k: string, c: string, t: string, newJs: string)
    requires '\\' !in k && '\\' !in c && '\\' !in t
    ensures BuildAsWritten(h, k, c, t, newJs) == Build(h, k, c, t, newJs)
  {
    AsWrittenAgreesWithoutBackslash(h, k, c, t);
  }
}
