/** The checker page's search: `searchDB` sorts the registered companies whose normalised
    name overlaps the query into a "matched" and a "partial" tier, and `doSearch` turns the
    tiers into a verdict. Queries are normalised with the page's own (JavaScript) copy of
    `normalize`; the entries carry keys made by the Python copy. */
module Matcher {
  import opened Wrappers
  import opened Strings
  import opened Chars
  import opened Normalizer
  import opened Cells
  import opened Extraction

  /** `a.includes(b) || b.includes(a)`. */
  predicate Overlaps(a: string, b: string) {
    Contains(a, b) || Contains(b, a)
  }

  /** JavaScript's `length`: UTF-16 code units, two for a character outside the Basic
      Multilingual Plane. */
  function Utf16Length(s: string): (n: nat)
    ensures |s| <= n <= 2 * |s|
    ensures (forall i :: 0 <= i < |s| ==> (s[i] as int) < 0x1_0000) ==> n == |s|
    decreases |s|
  {
    if s == [] then 0
    else (if (s[0] as int) >= 0x1_0000 then 2 else 1) + Utf16Length(s[1..])
  }

  /** `normAddr && normAddr.length >= 3`: only then is the address compared. */
  predicate AddressUsable(normAddr: string) {
    normAddr != [] && Utf16Length(normAddr) >= 3
  }

  /** Where one entry lands for a query with normalised name `nn` and address `na`. */
  datatype Tier = Matched | Partial | Skipped

  function Classify(nn: string, na: string, e: Company): (t: Tier)
    ensures t == Skipped <==> !Overlaps(e.nameN, nn)
    ensures t == Partial <==> Overlaps(e.nameN, nn) && AddressUsable(na) && !Overlaps(e.addrN, na)
  {
    if !Overlaps(e.nameN, nn) then Skipped
    else if AddressUsable(na) && !Overlaps(e.addrN, na) then Partial
    else Matched
  }

  /** Reference definition of one tier: the entries among the first `n` that land in it, in
      database order. */
  function Select(db: seq<Company>, nn: string, na: string, tier: Tier, n: nat): seq<Company>
    requires n <= |db|
    decreases n
  {
    if n == 0 then []
    else Select(db, nn, na, tier, n - 1) + (if Classify(nn, na, db[n - 1]) == tier then [db[n - 1]] else [])
  }

  /** The two result lists. */
  datatype Tiers = Tiers(matched: seq<Company>, partial: seq<Company>)

  /** What `searchDB` must return for normalised name `nn` and address `na`. */
  function Expected(db: seq<Company>, nn: string, na: string): Tiers {
    if nn == [] then Tiers([], [])
    else Tiers(Select(db, nn, na, Matched, |db|), Select(db, nn, na, Partial, |db|))
  }

  /** `searchDB(name, address)` over the database `db` (`DB` in the page: the three
      embedded lists concatenated). */
  method SearchDB(db: seq<Company>, name: string, address: string) returns (t: Tiers)
    ensures t == Expected(db, Normalize(JavaScript, name), Normalize(JavaScript, address))
  {
    var normName := Normalize(JavaScript, name);
    var normAddr := Normalize(JavaScript, address);
    if normName == [] {
      return Tiers([], []);
    }
    var matched: seq<Company> := [];
    var partial: seq<Company> := [];
    for i := 0 to |db|
      invariant matched == Select(db, normName, normAddr, Matched, i)
      invariant partial == Select(db, normName, normAddr, Partial, i)
    {
      var entry := db[i];
      var nameHit := Contains(entry.nameN, normName) || Contains(normName, entry.nameN);
      if !nameHit {
        continue;
      }
      if normAddr != [] && Utf16Length(normAddr) >= 3 {
        var addrHit := Contains(entry.addrN, normAddr) || Contains(normAddr, entry.addrN);
        if addrHit {
          matched := matched + [entry];
        } else {
          partial := partial + [entry];
        }
      } else {
        matched := matched + [entry];
      }
    }
    t := Tiers(matched, partial);
  }

  // ---------------------------------------------------------------------------
  // What the tiers promise
  // ---------------------------------------------------------------------------

  /** An entry is in a tier exactly when it is one of the entries classified into it. */
  lemma {:induction false} SelectMembers(db: seq<Company>, nn: string, na: string, tier: Tier, n: nat, e: Company)
    requires n <= |db|
    ensures e in Select(db, nn, na, tier, n) <==>
      exists k :: 0 <= k < n && db[k] == e && Classify(nn, na, db[k]) == tier
    decreases n
  {
    if n > 0 {
      SelectMembers(db, nn, na, tier, n - 1, e);
    }
  }

  /** A tier keeps database order: it is a subsequence of the entries scanned. */
  lemma {:induction false} SelectSubseq(db: seq<Company>, nn: string, na: string, tier: Tier, n: nat)
    requires n <= |db|
    ensures IsSubseq(Select(db, nn, na, tier, n), db[..n])
    decreases n
  {
    if n > 0 {
      SelectSubseq(db, nn, na, tier, n - 1);
      assert db[..n] == db[..n - 1] + [db[n - 1]];
      if Classify(nn, na, db[n - 1]) == tier {
        SubseqAppendBoth(Select(db, nn, na, tier, n - 1), db[..n - 1], [db[n - 1]]);
        assert Select(db, nn, na, tier, n) == Select(db, nn, na, tier, n - 1) + [db[n - 1]];
      } else {
        SubseqAppendRight(Select(db, nn, na, tier, n - 1), db[..n - 1], [db[n - 1]]);
        assert Select(db, nn, na, tier, n) == Select(db, nn, na, tier, n - 1);
      }
    }
  }

  /** Both result lists of `searchDB` are subsequences of the database. */
  lemma TiersSubseq(db: seq<Company>, nn: string, na: string)
    ensures IsSubseq(Expected(db, nn, na).matched, db)
    ensures IsSubseq(Expected(db, nn, na).partial, db)
  {
    assert db[..|db|] == db;
    SelectSubseq(db, nn, na, Matched, |db|);
    SelectSubseq(db, nn, na, Partial, |db|);
  }

  /** Every entry lands in exactly one tier: the three tiers partition the database. */
  lemma {:induction false} TiersPartition(db: seq<Company>, nn: string, na: string, n: nat)
    requires n <= |db|
    ensures |Select(db, nn, na, Matched, n)| + |Select(db, nn, na, Partial, n)|
            + |Select(db, nn, na, Skipped, n)| == n
    decreases n
  {
    if n > 0 {
      TiersPartition(db, nn, na, n - 1);
    }
  }

  /** A tier's first entry is the earliest entry classified into it. */
  lemma {:induction false} SelectFirst(db: seq<Company>, nn: string, na: string, tier: Tier, n: nat)
    requires n <= |db|
    ensures Select(db, nn, na, tier, n) != [] <==>
      exists k :: 0 <= k < n && Classify(nn, na, db[k]) == tier
    ensures Select(db, nn, na, tier, n) != [] ==>
      exists k :: 0 <= k < n && Classify(nn, na, db[k]) == tier
        && Select(db, nn, na, tier, n)[0] == db[k]
        && forall j :: 0 <= j < k ==> Classify(nn, na, db[j]) != tier
    decreases n
  {
    if n > 0 {
      SelectFirst(db, nn, na, tier, n - 1);
      if Select(db, nn, na, tier, n - 1) == [] && Classify(nn, na, db[n - 1]) == tier {
        assert Select(db, nn, na, tier, n)[0] == db[n - 1];
      }
    }
  }

  /** Without a usable address nothing is partial, and every name hit is matched. */
  lemma {:induction false} ShortAddressAllMatched(db: seq<Company>, nn: string, na: string, n: nat)
    requires n <= |db| && !AddressUsable(na)
    ensures Select(db, nn, na, Partial, n) == []
    ensures forall k :: 0 <= k < n ==> (Classify(nn, na, db[k]) == Matched <==> Overlaps(db[k].nameN, nn))
    decreases n
  {
    if n > 0 {
      ShortAddressAllMatched(db, nn, na, n - 1);
    }
  }

  /** An entry without a registered address is never a partial hit, and an entry with an
      empty key overlaps every query. */
  lemma EmptyFieldsAlwaysHit(nn: string, na: string, e: Company)
    ensures e.addrN == [] ==> Classify(nn, na, e) != Partial
    ensures e.nameN == [] ==> Classify(nn, na, e) != Skipped
  {
    ContainsEmpty(na);
    ContainsEmpty(nn);
  }

  /** The address is judged by UTF-16 length: two characters outside the Basic Multilingual
      Plane already count as long enough, while two ordinary characters do not. */
  lemma AddressLengthUnits()
    ensures AddressUsable("\U{20B9F}\U{20B9F}")
    ensures !AddressUsable("千代")
  {
    assert Utf16Length("\U{20B9F}\U{20B9F}"[1..]) == 2;
  }

  // ---------------------------------------------------------------------------
  // The verdict
  // ---------------------------------------------------------------------------

  /** What the page shows after a search. */
  datatype Verdict =
    | NoSearch               // blank name: the field is focused and a flash message shown
    | Safe(entry: Company)   // first matched entry
    | Warning(entry: Company)  // no matched entry, first partial one
    | Danger                 // no entry at all

  /** The verdict for given tiers. */
  function VerdictOf(t: Tiers): (v: Verdict)
    ensures v.Safe? <==> t.matched != []
    ensures v.Warning? <==> t.matched == [] && t.partial != []
    ensures v.Safe? ==> v.entry == t.matched[0]
    ensures v.Warning? ==> v.entry == t.partial[0]
    ensures !v.NoSearch?
  {
    if |t.matched| > 0 then Safe(t.matched[0])
    else if |t.partial| > 0 then Warning(t.partial[0])
    else Danger
  }

  /** `doSearch`: both inputs are trimmed, a blank name stops the search, otherwise the
      first matched entry, else the first partial one, else nothing. */
  method DoSearch(db: seq<Company>, nameInput: string, addrInput: string) returns (v: Verdict)
    ensures v.NoSearch? <==> Strip(JavaScript, nameInput) == []
    ensures !v.NoSearch? ==> v == VerdictOf(Expected(db,
      Normalize(JavaScript, Strip(JavaScript, nameInput)),
      Normalize(JavaScript, Strip(JavaScript, addrInput))))
  {
    var name := Strip(JavaScript, nameInput);
    var address := Strip(JavaScript, addrInput);
    if name == [] {
      return NoSearch;
    }
    var t := SearchDB(db, name, address);
    if |t.matched| > 0 {
      v := Safe(t.matched[0]);
    } else if |t.partial| > 0 {
      v := Warning(t.partial[0]);
    } else {
      v := Danger;
    }
  }

  /** The verdict in terms of the database: safe on the earliest entry whose name and
      address both fit, warning on the earliest name-only fit when there is none, danger
      when no entry's name fits (or the name normalises to nothing). */
  lemma VerdictMeaning(db: seq<Company>, nn: string, na: string)
    requires nn != []
    ensures var v := VerdictOf(Expected(db, nn, na));
      && (v.Safe? <==> exists k :: 0 <= k < |db| && Classify(nn, na, db[k]) == Matched)
      && (v.Danger? <==> forall k :: 0 <= k < |db| ==> !Overlaps(db[k].nameN, nn))
      && (v.Safe? || v.Warning? ==> v.entry in db && Overlaps(v.entry.nameN, nn))
      && (v.Warning? ==> AddressUsable(na) && !Overlaps(v.entry.addrN, na))
  {
    SelectFirst(db, nn, na, Matched, |db|);
    SelectFirst(db, nn, na, Partial, |db|);
    var v := VerdictOf(Expected(db, nn, na));
    if v.Danger? {
      forall k | 0 <= k < |db|
        ensures !Overlaps(db[k].nameN, nn)
      {
        assert Classify(nn, na, db[k]) != Matched && Classify(nn, na, db[k]) != Partial;
      }
    }
    if !v.Danger? {
      var tier := if v.Safe? then Matched else Partial;
      var k :| 0 <= k < |db| && Classify(nn, na, db[k]) == tier
        && Select(db, nn, na, tier, |db|)[0] == db[k]
        && forall j :: 0 <= j < k ==> Classify(nn, na, db[j]) != tier;
      assert v.entry == db[k];
    }
  }

  /** A name that is nothing but a legal-entity token finds nothing. */
  lemma EntityOnlyQueryFindsNothing(db: seq<Company>, na: string)
    ensures VerdictOf(Expected(db, Normalize(JavaScript, "株式会社"), na)) == Danger
  {
    TokenAlone(JavaScript);
  }

  /** Searching for a registered company by its registered name, typed as registered,
      never says danger; with no address it says safe. This needs the name to avoid the
      characters on which Python's and JavaScript's whitespace differ, since the entry's key
      was made by the Python copy of `normalize` and the query's by the JavaScript copy. */
  lemma FoundByRegisteredName(db: seq<Company>, k: nat, addrInput: string)
    requires k < |db|
    requires db[k].nameN == Normalize(Python, db[k].name) != []
    requires Trimmed(Python, db[k].name)
    requires forall i :: 0 <= i < |db[k].name| ==> !IsDialectSensitive(db[k].name[i])
    ensures var name := Strip(JavaScript, db[k].name);
      var t := Expected(db, Normalize(JavaScript, name), Normalize(JavaScript, Strip(JavaScript, addrInput)));
      && name != []
      && !VerdictOf(t).Danger?
      && (Strip(JavaScript, addrInput) == [] ==> VerdictOf(t).Safe?)
  {
    var s := db[k].name;
    assert !IsDialectSensitive(s[0]) && !IsDialectSensitive(s[|s| - 1]);
    StripTrimmed(JavaScript, s);
    DialectsAgree(s);
    var nn := Normalize(JavaScript, s);
    SelfOverlaps(nn);
    assert Classify(nn, Normalize(JavaScript, Strip(JavaScript, addrInput)), db[k]) != Skipped;
    VerdictMeaning(db, nn, Normalize(JavaScript, Strip(JavaScript, addrInput)));
    if Strip(JavaScript, addrInput) == [] {
      assert Normalize(JavaScript, []) == [];
      assert Classify(nn, [], db[k]) == Matched;
    }
  }

  lemma SelfOverlaps(s: string)
    ensures Overlaps(s, s)
  {
    assert OccursAt(s, s, 0);
  }

  // ---------------------------------------------------------------------------
  // The database: the three embedded lists, in order
  // ---------------------------------------------------------------------------

  /** `DB = [...EMBEDDED_KINYUSHOHIN, ...EMBEDDED_CHUUKAI, ...EMBEDDED_TOUROKU]`. */
  function LoadDb(k: seq<Company>, c: seq<Company>, t: seq<Company>): (db: seq<Company>)
    ensures |db| == |k| + |c| + |t|
    ensures db[..|k|] == k && db[|k|..|k| + |c|] == c && db[|k| + |c|..] == t
  {
    k + c + t
  }

  /** A tier over a longer database starts with the tier over its front part. */
  lemma {:induction false} SelectPrefix(a: seq<Company>, b: seq<Company>, nn: string, na: string, tier: Tier, n: nat)
    requires n <= |a|
    ensures Select(a + b, nn, na, tier, n) == Select(a, nn, na, tier, n)
    decreases n
  {
    if n > 0 {
      SelectPrefix(a, b, nn, na, tier, n - 1);
      assert (a + b)[n - 1] == a[n - 1];
    }
  }

  /** A tier over two lists put end to end is the first list's tier followed by the
      second's. */
  lemma {:induction false} SelectAppend(a: seq<Company>, b: seq<Company>, nn: string, na: string, tier: Tier, m: nat)
    requires m <= |b|
    ensures Select(a + b, nn, na, tier, |a| + m) == Select(a, nn, na, tier, |a|) + Select(b, nn, na, tier, m)
    decreases m
  {
    if m == 0 {
      SelectPrefix(a, b, nn, na, tier, |a|);
    } else {
      SelectAppend(a, b, nn, na, tier, m - 1);
      assert (a + b)[|a| + m - 1] == b[m - 1];
    }
  }

  /** Each tier of the loaded database lists the kinyushohin hits first, then the chuukai
      hits, then the touroku hits, each in its list's order. */
  lemma LoadDbTiers(k: seq<Company>, c: seq<Company>, t: seq<Company>, nn: string, na: string)
    ensures var e := Expected(LoadDb(k, c, t), nn, na);
      && e.matched == Expected(k, nn, na).matched + Expected(c, nn, na).matched + Expected(t, nn, na).matched
      && e.partial == Expected(k, nn, na).partial + Expected(c, nn, na).partial + Expected(t, nn, na).partial
  {
    if nn != [] {
      SelectAppend(k + c, t, nn, na, Matched, |t|);
      SelectAppend(k, c, nn, na, Matched, |c|);
      SelectAppend(k + c, t, nn, na, Partial, |t|);
      SelectAppend(k, c, nn, na, Partial, |c|);
    }
  }
}
