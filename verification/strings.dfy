/** Literal substring search and splicing, the only "regex" the scripts really need. */
module Strings {
  import opened Wrappers

  /** `p` is a prefix of `s`. */
  predicate IsPrefix<T(==)>(p: seq<T>, s: seq<T>) {
    |p| <= |s| && s[..|p|] == p
  }

  /** `p` occurs in `s` starting at index `i`. */
  predicate OccursAt<T(==)>(s: seq<T>, p: seq<T>, i: int) {
    0 <= i <= |s| && IsPrefix(p, s[i..])
  }

  /** Python's `p in s`, JavaScript's `s.includes(p)`. */
  predicate Contains<T(==)>(s: seq<T>, p: seq<T>) {
    exists i | 0 <= i <= |s| :: OccursAt(s, p, i)
  }

  /** The first occurrence of `p` in `s` at or after `i`. */
  function FindFrom<T(==)>(s: seq<T>, p: seq<T>, i: nat): (r: Option<nat>)
    requires i <= |s|
    ensures r.Some? ==> i <= r.value && OccursAt(s, p, r.value) && r.value + |p| <= |s|
    ensures r.Some? ==> forall j :: i <= j < r.value ==> !OccursAt(s, p, j)
    ensures r.None? ==> forall j :: i <= j <= |s| ==> !OccursAt(s, p, j)
    decreases |s| - i
  {
    if IsPrefix(p, s[i..]) then Some(i)
    else if i == |s| then None
    else FindFrom(s, p, i + 1)
  }

  /** The first occurrence of `p` in `s` (Python's `str.find`, but `None` for -1). */
  function IndexOf<T(==)>(s: seq<T>, p: seq<T>): (r: Option<nat>)
    ensures r.None? <==> !Contains(s, p)
    ensures r.Some? ==> OccursAt(s, p, r.value) && r.value + |p| <= |s|
    ensures r.Some? ==> forall j :: 0 <= j < r.value ==> !OccursAt(s, p, j)
  {
    FindFrom(s, p, 0)
  }

  /** Python's `s.replace(pat, rep, 1)`: only the first occurrence of `pat` is rewritten. */
  function ReplaceFirst<T(==)>(s: seq<T>, pat: seq<T>, rep: seq<T>): (r: seq<T>)
    ensures !Contains(s, pat) ==> r == s
    ensures Contains(s, pat) ==>
      exists i :: OccursAt(s, pat, i) && (forall j :: 0 <= j < i ==> !OccursAt(s, pat, j))
                  && r == s[..i] + rep + s[i + |pat|..]
  {
    match IndexOf(s, pat)
    case None => s
    case Some(i) => s[..i] + rep + s[i + |pat|..]
  }

  /** Python's `s.replace(pat, rep)`: every non-overlapping occurrence, scanning left to right. */
  function ReplaceAll<T(==)>(s: seq<T>, pat: seq<T>, rep: seq<T>): (r: seq<T>)
    requires |pat| > 0
    decreases |s|
  {
    if s == [] then []
    else if IsPrefix(pat, s) then
      rep + ReplaceAll(s[|pat|..], pat, rep)
    else
      [s[0]] + ReplaceAll(s[1..], pat, rep)
  }

  /** Without an occurrence, `ReplaceAll` changes nothing. */
  lemma {:induction false} ReplaceAllAbsent<T>(s: seq<T>, pat: seq<T>, rep: seq<T>)
    requires |pat| > 0 && !Contains(s, pat)
    ensures ReplaceAll(s, pat, rep) == s
    decreases |s|
  {
    if s != [] {
      assert !OccursAt(s, pat, 0);
      NoOccurrenceTail(s, pat);
      ReplaceAllAbsent(s[1..], pat, rep);
    }
  }

  /** `ReplaceAll` rewrites the first occurrence and carries on after it: the left-to-right,
      non-overlapping reading of `str.replace`. */
  lemma {:induction false} ReplaceAllSplit<T>(s: seq<T>, pat: seq<T>, rep: seq<T>, i: nat)
    requires |pat| > 0 && OccursAt(s, pat, i)
    requires forall j :: 0 <= j < i ==> !OccursAt(s, pat, j)
    ensures i + |pat| <= |s|
    ensures ReplaceAll(s, pat, rep) == s[..i] + rep + ReplaceAll(s[i + |pat|..], pat, rep)
    decreases i
  {
    if i == 0 {
      assert IsPrefix(pat, s);
    } else {
      var t := s[1..];
      assert !OccursAt(s, pat, 0);
      assert ReplaceAll(s, pat, rep) == [s[0]] + ReplaceAll(t, pat, rep);
      OccursShift(s, pat, i - 1);
      forall j | 0 <= j < i - 1
        ensures !OccursAt(t, pat, j)
      {
        OccursShift(s, pat, j);
      }
      ReplaceAllSplit(t, pat, rep, i - 1);
      ReplaceAllGlue(s, pat, rep, i);
    }
  }

  /** Putting back the head element in front of a split of the tail. */
  lemma ReplaceAllGlue<T>(s: seq<T>, pat: seq<T>, rep: seq<T>, i: nat)
    requires |pat| > 0 && 0 < i && i + |pat| <= |s|
    requires ReplaceAll(s[1..], pat, rep)
             == s[1..][..i - 1] + rep + ReplaceAll(s[1..][i - 1 + |pat|..], pat, rep)
    ensures [s[0]] + ReplaceAll(s[1..], pat, rep) == s[..i] + rep + ReplaceAll(s[i + |pat|..], pat, rep)
  {
    SliceShift(s, i, |pat|);
    Glue(s[0], s[1..][..i - 1], s[..i], rep, ReplaceAll(s[i + |pat|..], pat, rep));
  }

  lemma Glue<T>(h: T, a: seq<T>, b: seq<T>, rep: seq<T>, rest: seq<T>)
    requires [h] + a == b
    ensures [h] + (a + rep + rest) == b + rep + rest
  {
  }

  /** The search from `i` stops at the first occurrence at or after `i`. */
  lemma FindFromAt<T>(s: seq<T>, p: seq<T>, i: nat, k: nat)
    requires i <= k <= |s| && OccursAt(s, p, k)
    requires forall j :: i <= j < k ==> !OccursAt(s, p, j)
    ensures FindFrom(s, p, i) == Some(k)
  {
  }

  /** Swapping the part after `a` for one with the same first `|p|` elements does not change
      the occurrences of `p` that start inside `a`. */
  lemma OccursBeforeSplice<T>(a: seq<T>, x: seq<T>, y: seq<T>, p: seq<T>, i: nat)
    requires |p| <= |x| && |p| <= |y| && x[..|p|] == y[..|p|] && i < |a|
    ensures OccursAt(a + x, p, i) <==> OccursAt(a + y, p, i)
  {
    var n := |a| + |p|;
    assert (a + x)[..n] == a + x[..|p|];
    assert (a + y)[..n] == a + y[..|p|];
    OccursSamePrefix(a + x, a + y, p, i, n);
  }

  /** An occurrence inside the middle part of `a + b + c` is an occurrence in `b`. */
  lemma OccursInMiddle<T>(a: seq<T>, b: seq<T>, c: seq<T>, p: seq<T>, j: nat)
    requires j + |p| <= |b|
    ensures OccursAt(a + b + c, p, |a| + j) <==> OccursAt(b, p, j)
  {
    var h := a + b + c;
    assert forall n :: 0 <= n < |b| ==> h[|a| + n] == b[n];
    assert h[|a| + j..][..|p|] == b[j..][..|p|];
  }

  /** Two sequences that agree on their first `n` elements have the same occurrences within
      those elements. */
  lemma OccursSamePrefix<T>(x: seq<T>, y: seq<T>, p: seq<T>, i: nat, n: nat)
    requires n <= |x| && n <= |y| && x[..n] == y[..n] && i + |p| <= n
    ensures OccursAt(x, p, i) <==> OccursAt(y, p, i)
  {
    assert x[i..][..|p|] == x[..n][i..i + |p|];
    assert y[i..][..|p|] == y[..n][i..i + |p|];
  }

  /** An occurrence in the tail is an occurrence one place later in the whole. */
  lemma OccursShift<T>(s: seq<T>, p: seq<T>, j: nat)
    requires s != []
    ensures OccursAt(s[1..], p, j) <==> OccursAt(s, p, j + 1)
  {
    if j <= |s| - 1 {
      assert s[1..][j..] == s[j + 1..];
    }
  }

  lemma SliceShift<T>(s: seq<T>, i: nat, k: nat)
    requires 0 < i && i + k <= |s|
    ensures [s[0]] + s[1..][..i - 1] == s[..i]
    ensures s[1..][i - 1 + k..] == s[i + k..]
  {
  }

  /** `a` is a (not necessarily contiguous) subsequence of `b`. */
  predicate IsSubseq<T(==)>(a: seq<T>, b: seq<T>)
    decreases |b|
  {
    a == [] || (b != [] && ((a[0] == b[0] && IsSubseq(a[1..], b[1..])) || IsSubseq(a, b[1..])))
  }

  // ---------------------------------------------------------------------------
  // Lemmas about occurrences
  // ---------------------------------------------------------------------------

  /** An occurrence in the tail of `s` is an occurrence in `s`. */
  lemma NoOccurrenceTail<T>(s: seq<T>, p: seq<T>)
    requires s != []
    ensures !Contains(s, p) ==> !Contains(s[1..], p)
  {
    if !Contains(s, p) {
      forall i | OccursAt(s[1..], p, i)
        ensures false
      {
        assert s[1..][i..] == s[i + 1..];
        assert OccursAt(s, p, i + 1);
      }
    }
  }

  /** Occurrences survive in any text that surrounds the one they were found in. */
  lemma ContainsInContext<T>(a: seq<T>, m: seq<T>, b: seq<T>, p: seq<T>)
    requires Contains(m, p)
    ensures Contains(a + m + b, p)
  {
    var i :| 0 <= i <= |m| && OccursAt(m, p, i);
    assert (a + m + b)[|a| + i..][..|p|] == m[i..][..|p|];
    assert OccursAt(a + m + b, p, |a| + i);
  }

  /** A witness index is enough to show containment. */
  lemma ContainsAt<T>(s: seq<T>, p: seq<T>, i: nat)
    requires i + |p| <= |s| && s[i..i + |p|] == p
    ensures Contains(s, p)
  {
    assert OccursAt(s, p, i);
  }

  lemma ContainsSelf<T>(s: seq<T>)
    ensures Contains(s, s)
  {
    assert OccursAt(s, s, 0);
  }

  /** A text lacking one of the pattern's elements does not contain the pattern. */
  lemma MissingElement<T>(s: seq<T>, p: seq<T>, k: nat)
    requires k < |p| && p[k] !in s
    ensures !Contains(s, p)
  {
    ContainedElements(s, p, p[k]);
  }

  /** The elements of a contained pattern are elements of the text. */
  lemma ContainedElements<T>(s: seq<T>, p: seq<T>, c: T)
    requires c in p
    ensures Contains(s, p) ==> c in s
  {
    if Contains(s, p) {
      var i :| 0 <= i <= |s| && OccursAt(s, p, i);
      var k :| 0 <= k < |p| && p[k] == c;
      assert s[i..][..|p|][k] == s[i + k];
    }
  }

  /** An occurrence in `a + b + c` whose first element cannot lie in `a` and whose last element
      cannot lie in `c` lies in `b`. */
  lemma ContainsWithin<T>(a: seq<T>, b: seq<T>, c: seq<T>, p: seq<T>)
    requires p != [] && p[0] !in a && p[|p| - 1] !in c
    ensures Contains(a + b + c, p) ==> Contains(b, p)
  {
    var s := a + b + c;
    if Contains(s, p) {
      var i :| 0 <= i <= |s| && OccursAt(s, p, i);
      assert s[i] == p[0] by { assert s[i..][..|p|][0] == s[i]; }
      assert s[i + |p| - 1] == p[|p| - 1] by { assert s[i..][..|p|][|p| - 1] == s[i + |p| - 1]; }
      assert forall n :: 0 <= n < |a| ==> s[n] == a[n];
      assert forall n :: |a| + |b| <= n < |s| ==> s[n] == c[n - |a| - |b|];
      assert b[i - |a|..][..|p|] == s[i..][..|p|];
      assert OccursAt(b, p, i - |a|);
    }
  }

  /** An occurrence fixes the elements it covers. */
  lemma OccursElement<T>(s: seq<T>, p: seq<T>, i: int, k: nat)
    requires k < |p|
    ensures OccursAt(s, p, i) ==> s[i + k] == p[k]
  {
    if OccursAt(s, p, i) {
      assert s[i..][..|p|][k] == s[i + k];
    }
  }

  /** Every sequence contains the empty sequence. */
  lemma ContainsEmpty<T>(s: seq<T>)
    ensures Contains(s, [])
  {
    assert OccursAt(s, [], 0);
  }

  /** A single element is contained exactly when it is a member. */
  lemma ContainsSingleton<T>(s: seq<T>, c: T)
    ensures Contains(s, [c]) <==> c in s
  {
    if c in s {
      var i :| 0 <= i < |s| && s[i] == c;
      assert OccursAt(s, [c], i);
    }
    if Contains(s, [c]) {
      var i :| 0 <= i <= |s| && OccursAt(s, [c], i);
      assert s[i] == c;
    }
  }

  // ---------------------------------------------------------------------------
  // Lemmas about subsequences
  // ---------------------------------------------------------------------------

  lemma {:induction false} SubseqRefl<T>(a: seq<T>)
    ensures IsSubseq(a, a)
    decreases |a|
  {
    if a != [] {
      SubseqRefl(a[1..]);
    }
  }

  /** Prepending arbitrary elements to the larger sequence keeps a subsequence. */
  lemma {:induction false} SubseqPrependRight<T>(a: seq<T>, x: seq<T>, b: seq<T>)
    requires IsSubseq(a, b)
    ensures IsSubseq(a, x + b)
    decreases |x|
  {
    if x != [] {
      SubseqPrependRight(a, x[1..], b);
      assert (x + b)[1..] == x[1..] + b;
      if a != [] {
        assert IsSubseq(a, (x + b)[1..]);
      }
    } else {
      assert x + b == b;
    }
  }

  /** A common prefix keeps a subsequence. */
  lemma {:induction false} SubseqPrependBoth<T>(p: seq<T>, a: seq<T>, b: seq<T>)
    requires IsSubseq(a, b)
    ensures IsSubseq(p + a, p + b)
    decreases |p|
  {
    if p != [] {
      SubseqPrependBoth(p[1..], a, b);
      assert (p + a)[1..] == p[1..] + a;
      assert (p + b)[1..] == p[1..] + b;
      assert (p + a)[0] == (p + b)[0];
    } else {
      assert p + a == a && p + b == b;
    }
  }

  /** Inserting `x` between `a` and `b` keeps `a + b` as a subsequence. */
  lemma SubseqInsert<T>(a: seq<T>, x: seq<T>, b: seq<T>)
    ensures IsSubseq(a + b, a + x + b)
  {
    SubseqRefl(b);
    SubseqPrependRight(b, x, b);
    SubseqPrependBoth(a, b, x + b);
    assert a + (x + b) == a + x + b;
  }

  /** A common suffix keeps a subsequence. */
  lemma {:induction false} SubseqAppendBoth<T>(a: seq<T>, b: seq<T>, x: seq<T>)
    requires IsSubseq(a, b)
    ensures IsSubseq(a + x, b + x)
    decreases |b|
  {
    if a == [] {
      SubseqRefl(x);
      SubseqPrependRight(x, b, x);
      assert a + x == x;
    } else {
      assert (a + x)[1..] == a[1..] + x && (a + x)[0] == a[0];
      assert (b + x)[1..] == b[1..] + x && (b + x)[0] == b[0];
      if a[0] == b[0] && IsSubseq(a[1..], b[1..]) {
        SubseqAppendBoth(a[1..], b[1..], x);
      } else {
        SubseqAppendBoth(a, b[1..], x);
      }
    }
  }

  /** Appending arbitrary elements to the larger sequence keeps a subsequence. */
  lemma SubseqAppendRight<T>(a: seq<T>, b: seq<T>, x: seq<T>)
    requires IsSubseq(a, b)
    ensures IsSubseq(a, b + x)
  {
    SubseqPrependBoth(b, [], x);
    assert b + [] == b;
    SubseqTrans(a, b, b + x);
  }

  /** Dropping the first element of the smaller sequence keeps a subsequence. */
  lemma {:induction false} SubseqTail<T>(a: seq<T>, b: seq<T>)
    requires a != [] && IsSubseq(a, b)
    ensures IsSubseq(a[1..], b)
    decreases |b|
  {
    if a[0] == b[0] && IsSubseq(a[1..], b[1..]) {
      SubseqPrependRight(a[1..], b[..1], b[1..]);
      assert b[..1] + b[1..] == b;
    } else {
      SubseqTail(a, b[1..]);
      SubseqPrependRight(a[1..], b[..1], b[1..]);
      assert b[..1] + b[1..] == b;
    }
  }

  lemma {:induction false} SubseqTrans<T>(a: seq<T>, b: seq<T>, c: seq<T>)
    requires IsSubseq(a, b) && IsSubseq(b, c)
    ensures IsSubseq(a, c)
    decreases |c|, |b|
  {
    if a != [] {
      assert b != [] && c != [];
      if b[0] == c[0] && IsSubseq(b[1..], c[1..]) {
        if a[0] == b[0] && IsSubseq(a[1..], b[1..]) {
          SubseqTrans(a[1..], b[1..], c[1..]);
        } else {
          SubseqTrans(a, b[1..], c[1..]);
        }
      } else {
        SubseqTrans(a, b, c[1..]);
      }
    }
  }

  /** Members of a subsequence are members of the sequence. */
  lemma {:induction false} SubseqMembers<T>(a: seq<T>, b: seq<T>)
    requires IsSubseq(a, b)
    ensures forall x :: x in a ==> x in b
    ensures |a| <= |b|
    decreases |b|
  {
    if a != [] {
      if a[0] == b[0] && IsSubseq(a[1..], b[1..]) {
        SubseqMembers(a[1..], b[1..]);
        assert a == [a[0]] + a[1..];
      } else {
        SubseqMembers(a, b[1..]);
      }
    }
  }
}
