/** First-occurrence selection over a column of keys: the `seen` set loop of the extraction
    scripts, stated on keys alone. An empty key never selects its row. */
module Dedup {

  /** Row `k` carries a non-empty key that no earlier row carries. */
  predicate IsFirst(keys: seq<string>, k: nat)
    requires k < |keys|
  {
    keys[k] != [] && forall j :: 0 <= j < k ==> keys[j] != keys[k]
  }

  /** The indices among the first `n` rows that are the first of their key, ascending. */
  function FirstIndices(keys: seq<string>, n: nat): (r: seq<nat>)
    requires n <= |keys|
    ensures forall m :: 0 <= m < |r| ==> r[m] < n
    decreases n
  {
    if n == 0 then []
    else FirstIndices(keys, n - 1) + (if IsFirst(keys, n - 1) then [n - 1] else [])
  }

  /** Positions listed in strictly ascending order. */
  predicate Increasing(r: seq<nat>) {
    forall a, b :: 0 <= a < b < |r| ==> r[a] < r[b]
  }

  /** Every listed position is the first of its key. */
  predicate AllFirst(keys: seq<string>, r: seq<nat>) {
    forall m :: 0 <= m < |r| ==> r[m] < |keys| && IsFirst(keys, r[m])
  }

  /** The elements of `xs` at the positions `idx`, in that order. */
  function Pick<T>(xs: seq<T>, idx: seq<nat>): (r: seq<T>)
    requires forall m :: 0 <= m < |idx| ==> idx[m] < |xs|
    ensures |r| == |idx|
    ensures forall m :: 0 <= m < |idx| ==> r[m] == xs[idx[m]]
  {
    seq(|idx|, m requires 0 <= m < |idx| => xs[idx[m]])
  }

  /** The non-empty keys among the first `n` rows: the script's `seen` set. */
  ghost function Seen(keys: seq<string>, n: nat): set<string>
    requires n <= |keys|
  {
    set j | 0 <= j < n && keys[j] != [] :: keys[j]
  }

  /** How `seen` grows by one row, and what membership in it means. */
  lemma SeenStep(keys: seq<string>, i: nat)
    requires i < |keys|
    ensures Seen(keys, i + 1) == Seen(keys, i) + (if keys[i] != [] then {keys[i]} else {})
    ensures keys[i] != [] ==> (keys[i] in Seen(keys, i) <==> !IsFirst(keys, i))
  {
    if keys[i] != [] && keys[i] in Seen(keys, i) {
      var j :| 0 <= j < i && keys[j] != [] && keys[j] == keys[i];
    }
  }

  /** Picking one more position appends one element. */
  lemma PickAppend<T>(xs: seq<T>, idx: seq<nat>, i: nat)
    requires forall m :: 0 <= m < |idx| ==> idx[m] < |xs|
    requires i < |xs|
    ensures Pick(xs, idx + [i]) == Pick(xs, idx) + [xs[i]]
  {
  }

  // ---------------------------------------------------------------------------
  // The loop of the extraction scripts
  // ---------------------------------------------------------------------------

  /** The scripts' loop: skip a row with a blank name, skip a row whose key is empty or
      already in `seen`, otherwise remember the key and keep the row's record. A blank name
      always has an empty key, which is what lets the two skips agree with `IsFirst`. */
  method KeepFirst<T>(names: seq<string>, keys: seq<string>, recs: seq<T>) returns (out: seq<T>)
    requires |names| == |keys| == |recs|
    requires forall k :: 0 <= k < |keys| && names[k] == [] ==> keys[k] == []
    ensures out == Pick(recs, FirstIndices(keys, |keys|))
  {
    out := [];
    var seen: set<string> := {};
    for i := 0 to |keys|
      invariant out == Pick(recs, FirstIndices(keys, i))
      invariant seen == Seen(keys, i)
    {
      SeenStep(keys, i);
      if names[i] == [] {
        continue;
      }
      var key := keys[i];
      if key == [] || key in seen {
        continue;
      }
      seen := seen + {key};
      PickAppend(recs, FirstIndices(keys, i), i);
      out := out + [recs[i]];
    }
  }

  // ---------------------------------------------------------------------------
  // What the selection promises
  // ---------------------------------------------------------------------------

  /** Selected positions are strictly increasing: row order is kept. */
  lemma {:induction false} FirstIndicesIncreasing(keys: seq<string>, n: nat)
    requires n <= |keys|
    ensures Increasing(FirstIndices(keys, n))
    decreases n
  {
    if n > 0 {
      FirstIndicesIncreasing(keys, n - 1);
      var prev := FirstIndices(keys, n - 1);
      var r := FirstIndices(keys, n);
      assert r == prev + (if IsFirst(keys, n - 1) then [n - 1] else []);
      forall a, b | 0 <= a < b < |r|
        ensures r[a] < r[b]
      {
        assert r[a] == prev[a];
        if b < |prev| { assert r[b] == prev[b]; } else { assert r[b] == n - 1; }
      }
    }
  }

  /** Every selected position is the first of its key; hence keys are non-empty. */
  lemma {:induction false} FirstIndicesAreFirst(keys: seq<string>, n: nat)
    requires n <= |keys|
    ensures AllFirst(keys, FirstIndices(keys, n))
    decreases n
  {
    if n > 0 {
      FirstIndicesAreFirst(keys, n - 1);
      var prev := FirstIndices(keys, n - 1);
      var r := FirstIndices(keys, n);
      assert r == prev + (if IsFirst(keys, n - 1) then [n - 1] else []);
      forall m | 0 <= m < |r|
        ensures IsFirst(keys, r[m])
      {
        if m < |prev| { assert r[m] == prev[m]; } else { assert r[m] == n - 1; }
      }
    }
  }

  /** Selected positions carry pairwise different keys. */
  lemma FirstIndicesDistinct(keys: seq<string>, n: nat)
    requires n <= |keys|
    ensures var r := FirstIndices(keys, n);
      forall a, b :: 0 <= a < b < |r| ==> keys[r[a]] != keys[r[b]]
  {
    FirstIndicesIncreasing(keys, n);
    FirstIndicesAreFirst(keys, n);
    var r := FirstIndices(keys, n);
    forall a, b | 0 <= a < b < |r|
      ensures keys[r[a]] != keys[r[b]]
    {
      assert IsFirst(keys, r[b]);
      assert r[a] < r[b];
    }
  }

  /** A position that is the first of its key is selected. */
  lemma {:induction false} FirstIsSelected(keys: seq<string>, n: nat, k: nat)
    requires k < n <= |keys| && IsFirst(keys, k)
    ensures k in FirstIndices(keys, n)
    decreases n
  {
    if k < n - 1 {
      FirstIsSelected(keys, n - 1, k);
    }
  }

  /** Every non-empty key among the first `n` rows is represented by a selected position. */
  lemma FirstIndicesComplete(keys: seq<string>, n: nat, k: nat)
    requires k < n <= |keys| && keys[k] != []
    ensures exists m :: 0 <= m < |FirstIndices(keys, n)| && keys[FirstIndices(keys, n)[m]] == keys[k]
  {
    var f := EarliestWithKey(keys, k);
    FirstIsSelected(keys, n, f);
    var r := FirstIndices(keys, n);
    var m :| 0 <= m < |r| && r[m] == f;
  }

  /** The earliest position at or before `k` with the same key as `k`. */
  lemma {:induction false} EarliestWithKey(keys: seq<string>, k: nat) returns (f: nat)
    requires k < |keys| && keys[k] != []
    ensures f <= k && keys[f] == keys[k] && IsFirst(keys, f)
    decreases k
  {
    if IsFirst(keys, k) {
      f := k;
    } else {
      var j :| 0 <= j < k && keys[j] == keys[k];
      f := EarliestWithKey(keys, j);
    }
  }

  /** Nothing is selected exactly when every key is empty. */
  lemma FirstIndicesEmpty(keys: seq<string>)
    ensures FirstIndices(keys, |keys|) == [] <==> forall k :: 0 <= k < |keys| ==> keys[k] == []
  {
    var r := FirstIndices(keys, |keys|);
    if r == [] {
      forall k | 0 <= k < |keys|
        ensures keys[k] == []
      {
        if keys[k] != [] {
          FirstIndicesComplete(keys, |keys|, k);
        }
      }
    } else {
      FirstIndicesAreFirst(keys, |keys|);
      assert IsFirst(keys, r[0]) && r[0] < |keys|;
    }
  }
}
