/** Turning a spreadsheet cell into text: `str.strip()`, the newline rewriting of the two
    `cell_str` variants, and the JavaScript `trim()` used on the query. */
module Cells {
  import opened Wrappers
  import opened Strings
  import opened Chars

  /** Every character of `t` is whitespace. */
  predicate AllSpace(d: Dialect, t: string) {
    forall k :: 0 <= k < |t| ==> IsSpace(d, t[k])
  }

  /** Neither end of `r` is whitespace. */
  predicate Trimmed(d: Dialect, r: string) {
    r == [] || (!IsSpace(d, r[0]) && !IsSpace(d, r[|r| - 1]))
  }

  /** `r` is what is left of `s` after cutting whitespace runs off both ends: the meaning of
      Python's `str.strip()` and JavaScript's `String.prototype.trim()`. */
  ghost predicate StripsTo(d: Dialect, s: string, r: string) {
    exists i, j | 0 <= i <= j <= |s| ::
      AllSpace(d, s[..i]) && AllSpace(d, s[j..]) && r == s[i..j] && Trimmed(d, r)
  }

  /** Length of the leading whitespace run. */
  function LeadingSpace(d: Dialect, s: string): (n: nat)
    ensures n <= |s|
    ensures forall k :: 0 <= k < n ==> IsSpace(d, s[k])
    ensures n < |s| ==> !IsSpace(d, s[n])
    decreases |s|
  {
    if s == [] || !IsSpace(d, s[0]) then 0 else 1 + LeadingSpace(d, s[1..])
  }

  /** Index just past the last non-whitespace character (0 when there is none). */
  function TrailingEnd(d: Dialect, s: string): (n: nat)
    ensures n <= |s|
    ensures forall k :: n <= k < |s| ==> IsSpace(d, s[k])
    ensures n > 0 ==> !IsSpace(d, s[n - 1])
    decreases |s|
  {
    if s == [] || !IsSpace(d, s[|s| - 1]) then |s| else TrailingEnd(d, s[..|s| - 1])
  }

  /** `s.strip()` (Python) or `s.trim()` (JavaScript), depending on the dialect. */
  function Strip(d: Dialect, s: string): (r: string)
    ensures StripsTo(d, s, r)
    ensures Trimmed(d, r)
    ensures r == [] <==> AllSpace(d, s)
  {
    var lo := LeadingSpace(d, s);
    if lo == |s| then
      assert AllSpace(d, s[..lo]) && AllSpace(d, s[lo..]) && s[lo..lo] == [];
      []
    else
      var hi := TrailingEnd(d, s);
      assert !IsSpace(d, s[lo]);
      assert AllSpace(d, s[..lo]) && AllSpace(d, s[hi..]);
      s[lo..hi]
  }

  /** Every occurrence of the single character `c` becomes `rep`: `str.replace(c, rep)` for a
      one-character pattern; `rep == []` deletes `c`. */
  function ReplaceChar(s: string, c: char, rep: string): (r: string)
    ensures c !in rep ==> c !in r
    ensures c !in s ==> r == s
    decreases |s|
  {
    if s == [] then []
    else
      (if s[0] == c then rep else [s[0]]) + ReplaceChar(s[1..], c, rep)
  }

  /** `cell_str` of extract_all_fsa.py on a text cell (`None` is an empty cell): strip, each
      line break becomes " / ", carriage returns are deleted. */
  function CellStrAll(v: Option<string>): (r: string)
    ensures '\n' !in r && '\r' !in r
    ensures Trimmed(Python, r)
  {
    match v
    case None => []
    case Some(s) =>
      var t := Strip(Python, s);
      SlashLinesTrimmed(t);
      ReplaceChar(ReplaceChar(t, '\n', " / "), '\r', [])
  }

  /** The rewriting of extract_all_fsa.py keeps a stripped string stripped. */
  lemma SlashLinesTrimmed(t: string)
    requires Trimmed(Python, t)
    ensures var r := ReplaceChar(ReplaceChar(t, '\n', " / "), '\r', []);
      Trimmed(Python, r) && (r == [] <==> t == []) && '\n' !in r
  {
    var u := ReplaceChar(t, '\n', " / ");
    ReplaceCharEnds(t, '\n', " / ");
    ReplaceCharEnds(u, '\r', []);
    ReplaceCharMembers(u, '\r', []);
  }

  /** Replacement only brings in characters of the original or of the replacement. */
  lemma {:induction false} ReplaceCharMembers(s: string, c: char, rep: string)
    ensures forall x :: x in ReplaceChar(s, c, rep) ==> x in s || x in rep
    decreases |s|
  {
    if s != [] {
      ReplaceCharMembers(s[1..], c, rep);
      assert forall x :: x in s[1..] ==> x in s;
    }
  }

  /** `cell_str` of extract_fsa_data.py on a text cell: strip, each line break becomes one
      space. Carriage returns inside the text are kept. */
  function CellStrFsa(v: Option<string>): (r: string)
    ensures '\n' !in r
    ensures Trimmed(Python, r)
  {
    match v
    case None => []
    case Some(s) =>
      var t := Strip(Python, s);
      ReplaceCharEnds(t, '\n', " ");
      ReplaceChar(t, '\n', " ")
  }

  // ---------------------------------------------------------------------------
  // Strip
  // ---------------------------------------------------------------------------

  /** `strip()` has exactly one possible result. */
  lemma StripUnique(d: Dialect, s: string, r1: string, r2: string)
    requires StripsTo(d, s, r1) && StripsTo(d, s, r2)
    ensures r1 == r2
  {
    var i1, j1 :| 0 <= i1 <= j1 <= |s| && AllSpace(d, s[..i1]) && AllSpace(d, s[j1..])
                 && r1 == s[i1..j1] && Trimmed(d, r1);
    var i2, j2 :| 0 <= i2 <= j2 <= |s| && AllSpace(d, s[..i2]) && AllSpace(d, s[j2..])
                 && r2 == s[i2..j2] && Trimmed(d, r2);
    StripCut(d, s, i1, j1);
    StripCut(d, s, i2, j2);
    // a non-empty result starts and ends at the only non-whitespace characters a cut-off
    // run may border
    assert r1 != [] && r2 != [] ==> i1 == i2 && j1 == j2;
  }

  /** What one way of cutting `s` says about `s`. */
  lemma StripCut(d: Dialect, s: string, i: int, j: int)
    requires 0 <= i <= j <= |s| && AllSpace(d, s[..i]) && AllSpace(d, s[j..])
    requires Trimmed(d, s[i..j])
    ensures s[i..j] == [] <==> AllSpace(d, s)
    ensures forall k :: 0 <= k < i ==> IsSpace(d, s[k])
    ensures forall k :: j <= k < |s| ==> IsSpace(d, s[k])
    ensures i < j ==> !IsSpace(d, s[i]) && !IsSpace(d, s[j - 1])
  {
    assert forall k :: 0 <= k < i ==> s[..i][k] == s[k];
    assert forall k :: j <= k < |s| ==> s[j..][k - j] == s[k];
    if i == j {
      AllSpaceSplit(d, s, i);
    } else {
      assert s[i..j][0] == s[i] && s[i..j][j - i - 1] == s[j - 1];
    }
  }

  /** Two whitespace runs that meet make a whitespace string. */
  lemma AllSpaceSplit(d: Dialect, s: string, i: int)
    requires 0 <= i <= |s| && AllSpace(d, s[..i]) && AllSpace(d, s[i..])
    ensures AllSpace(d, s)
  {
    forall k | 0 <= k < |s|
      ensures IsSpace(d, s[k])
    {
      if k < i { assert s[..i][k] == s[k]; } else { assert s[i..][k - i] == s[k]; }
    }
  }

  /** A string with no whitespace at either end is its own strip. */
  lemma StripTrimmed(d: Dialect, t: string)
    requires Trimmed(d, t)
    ensures Strip(d, t) == t
  {
    assert t[..0] == [] && t[|t|..] == [] && t[0..|t|] == t;
    assert StripsTo(d, t, t);
    StripUnique(d, t, t, Strip(d, t));
  }

  /** Stripping twice is stripping once. */
  lemma StripIdempotent(d: Dialect, s: string)
    ensures Strip(d, Strip(d, s)) == Strip(d, s)
  {
    StripTrimmed(d, Strip(d, s));
  }

  // ---------------------------------------------------------------------------
  // Single-character replacement
  // ---------------------------------------------------------------------------

  /** Replacement distributes over concatenation. */
  lemma {:induction false} ReplaceCharAppend(a: string, b: string, c: char, rep: string)
    ensures ReplaceChar(a + b, c, rep) == ReplaceChar(a, c, rep) + ReplaceChar(b, c, rep)
    decreases |a|
  {
    if a == [] {
      assert a + b == b;
    } else {
      assert (a + b)[1..] == a[1..] + b;
      ReplaceCharAppend(a[1..], b, c, rep);
    }
  }

  /** Ends that are not the replaced character stay where they are. */
  lemma ReplaceCharEnds(s: string, c: char, rep: string)
    requires s != [] ==> s[0] != c && s[|s| - 1] != c
    ensures var r := ReplaceChar(s, c, rep);
      (s == [] <==> r == []) && (s != [] ==> r[0] == s[0] && r[|r| - 1] == s[|s| - 1])
  {
    if s != [] {
      var init := s[..|s| - 1];
      assert s == init + [s[|s| - 1]];
      ReplaceCharAppend(init, [s[|s| - 1]], c, rep);
      assert ReplaceChar([s[|s| - 1]], c, rep) == [s[|s| - 1]];
    }
  }

  /** With a one-character replacement the length is kept and the change is pointwise. */
  lemma {:induction false} ReplaceCharPointwise(s: string, c: char, e: char)
    ensures |ReplaceChar(s, c, [e])| == |s|
    ensures forall i :: 0 <= i < |s| ==>
      ReplaceChar(s, c, [e])[i] == (if s[i] == c then e else s[i])
    decreases |s|
  {
    if s != [] {
      ReplaceCharPointwise(s[1..], c, e);
      var r := ReplaceChar(s, c, [e]);
      assert r == [if s[0] == c then e else s[0]] + ReplaceChar(s[1..], c, [e]);
      forall i | 1 <= i < |s|
        ensures r[i] == (if s[i] == c then e else s[i])
      {
        assert s[1..][i - 1] == s[i];
      }
    }
  }

  /** For a one-character pattern, the general left-to-right `replace` and the character
      replacement agree. */
  lemma {:induction false} ReplaceAllSingle(s: string, c: char, rep: string)
    ensures ReplaceAll(s, [c], rep) == ReplaceChar(s, c, rep)
    decreases |s|
  {
    if s != [] {
      assert IsPrefix([c], s) <==> s[0] == c;
      assert [c] + [] == [c];
      ReplaceAllSingle(s[1..], c, rep);
    }
  }

  // ---------------------------------------------------------------------------
  // The two cell readers
  // ---------------------------------------------------------------------------

  /** Reading a cell's text back through `cell_str` changes nothing (extract_all_fsa.py). */
  lemma CellStrAllIdempotent(v: Option<string>)
    ensures CellStrAll(Some(CellStrAll(v))) == CellStrAll(v)
  {
    var r := CellStrAll(v);
    StripTrimmed(Python, r);
  }

  /** Reading a cell's text back through `cell_str` changes nothing (extract_fsa_data.py). */
  lemma CellStrFsaIdempotent(v: Option<string>)
    ensures CellStrFsa(Some(CellStrFsa(v))) == CellStrFsa(v)
  {
    var r := CellStrFsa(v);
    StripTrimmed(Python, r);
  }

  /** The extract_fsa_data.py reader keeps the stripped text's length and only turns line
      breaks into spaces. */
  lemma CellStrFsaContents(s: string)
    ensures var t := Strip(Python, s); var r := CellStrFsa(Some(s));
      |r| == |t| && forall i :: 0 <= i < |t| ==> r[i] == (if t[i] == '\n' then ' ' else t[i])
  {
    ReplaceCharPointwise(Strip(Python, s), '\n', ' ');
  }

  /** A cell is blank for the extraction loop exactly when it is empty or all whitespace. */
  lemma CellBlank(v: Option<string>)
    ensures CellStrAll(v) == [] <==> (v.None? || AllSpace(Python, v.value))
    ensures CellStrFsa(v) == [] <==> (v.None? || AllSpace(Python, v.value))
  {
    if v.Some? {
      var t := Strip(Python, v.value);
      ReplaceCharEnds(t, '\n', " / ");
      ReplaceCharEnds(ReplaceChar(t, '\n', " / "), '\r', []);
      ReplaceCharEnds(t, '\n', " ");
    }
  }

  /** A Windows line break: the two readers disagree on what survives of it. */
  lemma CrLfReaders()
    ensures CellStrAll(Some("a\r\nb")) == "a / b"
    ensures CellStrFsa(Some("a\r\nb")) == "a\r b"
  {
    StripTrimmed(Python, "a\r\nb");
    CrLfSlash();
    CrLfDropCr();
    CrLfSpace();
  }

  lemma CrLfSlash()
    ensures ReplaceChar("a\r\nb", '\n', " / ") == "a\r / b"
  {
  }

  lemma CrLfDropCr()
    ensures ReplaceChar("a\r / b", '\r', []) == "a / b"
  {
    assert "a\r / b" == ['a', '\r'] + " / b";
    ReplaceCharAppend(['a', '\r'], " / b", '\r', []);
    DropCrHead();
    NoCrTail();
  }

  lemma DropCrHead()
    ensures ReplaceChar(['a', '\r'], '\r', []) == ['a']
  {
  }

  lemma NoCrTail()
    ensures ReplaceChar(" / b", '\r', []) == " / b"
  {
    assert '\r' !in " / b";
  }

  lemma CrLfSpace()
    ensures ReplaceChar("a\r\nb", '\n', " ") == "a\r b"
  {
  }
}
