/** The ordering the store keeps (datastore/datastore.go:21-31): the comparator on death times
    and, as pure functions on values, the observable behaviour of the sorted map the store is
    built on (a map from keys to items plus the keys listed by ascending death time). */
module SortedIndex {
  import opened Entries

  /** compareDataTypesByDeathTime: `a` dies strictly before `b`. */
  predicate DiesBefore(a: Entry, b: Entry) {
    a.deathTime < b.deathTime
  }

  /** The comparator is a strict order: equal death times compare false both ways. */
  lemma DiesBeforeIsStrict(a: Entry, b: Entry, c: Entry)
    ensures DiesBefore(a, b) <==> a.deathTime < b.deathTime
    ensures !DiesBefore(a, a)
    ensures DiesBefore(a, b) ==> !DiesBefore(b, a)
    ensures a.deathTime == b.deathTime ==> !DiesBefore(a, b) && !DiesBefore(b, a)
    ensures DiesBefore(a, b) && DiesBefore(b, c) ==> DiesBefore(a, c)
  {
  }

  function Elements(s: seq<string>): set<string> {
    set x | x in s
  }

  /** The elements of a non-empty list: its head and the elements of its tail. */
  lemma ElementsUncons(s: seq<string>)
    requires s != []
    ensures Elements(s) == {s[0]} + Elements(s[1..])
  {
    assert s == [s[0]] + s[1..];
  }

  /** The elements of a prefix one position longer: one more element. */
  lemma ElementsSnoc(s: seq<string>, i: nat)
    requires i < |s|
    ensures Elements(s[..i + 1]) == Elements(s[..i]) + {s[i]}
  {
    assert s[..i + 1] == s[..i] + [s[i]];
  }

  predicate Distinct(s: seq<string>) {
    forall i, j :: 0 <= i < j < |s| ==> s[i] != s[j]
  }

  /** Every listed key has an item in `m`. */
  predicate Indexed(s: seq<string>, m: map<string, Entry>) {
    forall i :: 0 <= i < |s| ==> s[i] in m
  }

  /** No later key dies strictly before an earlier one. */
  predicate SortedByDeath(s: seq<string>, m: map<string, Entry>)
    requires Indexed(s, m)
  {
    forall i, j :: 0 <= i < j < |s| ==> !DiesBefore(m[s[j]], m[s[i]])
  }

  /** The sorted map's invariant: `s` lists exactly the keys of `m`, each once, by
      non-decreasing death time. */
  predicate OrderedIndex(s: seq<string>, m: map<string, Entry>) {
    && Indexed(s, m)
    && Elements(s) == m.Keys
    && Distinct(s)
    && SortedByDeath(s, m)
  }

  /** The key list with every key of `gone` taken out, the rest in their order. */
  function Omit(s: seq<string>, gone: set<string>): (r: seq<string>)
    ensures Elements(r) == Elements(s) - gone
    ensures |r| <= |s|
  {
    if s == [] then []
    else
      ElementsUncons(s);
      if s[0] in gone then
        Omit(s[1..], gone)
      else
        var r := [s[0]] + Omit(s[1..], gone);
        ElementsUncons(r);
        r
  }

  /** The key list with `k` placed before the first key that dies strictly after it. */
  function InsertByDeath(s: seq<string>, m: map<string, Entry>, k: string): (r: seq<string>)
    requires Indexed(s, m) && k in m
    ensures Elements(r) == Elements(s) + {k}
    ensures |r| == |s| + 1
    ensures Indexed(r, m)
  {
    if s == [] then [k]
    else
      ElementsUncons(s);
      if DiesBefore(m[k], m[s[0]]) then
        var r := [k] + s;
        ElementsUncons(r);
        r
      else
        var r := [s[0]] + InsertByDeath(s[1..], m, k);
        ElementsUncons(r);
        r
  }

  /** Putting a key in front of a sorted, duplicate-free list keeps it so when the key is new
      and no listed key dies strictly before it. */
  lemma ConsKeepsOrder(x: string, r: seq<string>, m: map<string, Entry>)
    requires Indexed(r, m) && x in m && Distinct(r) && SortedByDeath(r, m)
    requires forall i :: 0 <= i < |r| ==> r[i] != x && !DiesBefore(m[r[i]], m[x])
    ensures Indexed([x] + r, m) && Distinct([x] + r) && SortedByDeath([x] + r, m)
  {
    var c := [x] + r;
    assert forall i :: 0 < i < |c| ==> c[i] == r[i - 1];
  }

  /** Omitting keys keeps a sorted, duplicate-free list sorted and duplicate-free. */
  lemma {:induction false} OmitKeepsOrder(s: seq<string>, m: map<string, Entry>, gone: set<string>)
    requires Indexed(s, m) && Distinct(s) && SortedByDeath(s, m)
    ensures Indexed(Omit(s, gone), m) && Distinct(Omit(s, gone)) && SortedByDeath(Omit(s, gone), m)
  {
    if s != [] {
      var t := s[1..];
      OmitKeepsOrder(t, m, gone);
      if s[0] !in gone {
        var r := Omit(t, gone);
        forall i | 0 <= i < |r|
          ensures r[i] != s[0] && !DiesBefore(m[r[i]], m[s[0]])
        {
          assert r[i] in Elements(r);
          var j :| 0 <= j < |t| && t[j] == r[i];
          assert s[j + 1] == r[i];
        }
        ConsKeepsOrder(s[0], r, m);
      }
    }
  }

  /** Inserting a new key keeps a sorted, duplicate-free list sorted and duplicate-free. */
  lemma {:induction false} InsertKeepsOrder(s: seq<string>, m: map<string, Entry>, k: string)
    requires Indexed(s, m) && k in m && k !in s
    requires Distinct(s) && SortedByDeath(s, m)
    ensures Distinct(InsertByDeath(s, m, k)) && SortedByDeath(InsertByDeath(s, m, k), m)
  {
    if s == [] {
    } else if DiesBefore(m[k], m[s[0]]) {
      forall i | 0 <= i < |s| ensures s[i] != k && !DiesBefore(m[s[i]], m[k]) {
        if i > 0 {
          assert !DiesBefore(m[s[i]], m[s[0]]);
        }
      }
      ConsKeepsOrder(k, s, m);
    } else {
      var t := s[1..];
      assert k !in t;
      InsertKeepsOrder(t, m, k);
      var r := InsertByDeath(t, m, k);
      forall i | 0 <= i < |r|
        ensures r[i] != s[0] && !DiesBefore(m[r[i]], m[s[0]])
      {
        assert r[i] in Elements(r);
        if r[i] != k {
          var j :| 0 <= j < |t| && t[j] == r[i];
          assert s[j + 1] == r[i];
        }
      }
      ConsKeepsOrder(s[0], r, m);
    }
  }

  /** A duplicate-free list has as many positions as elements. */
  lemma {:induction false} DistinctCardinality(s: seq<string>)
    requires Distinct(s)
    ensures |Elements(s)| == |s|
  {
    if s != [] {
      var t := s[1..];
      DistinctCardinality(t);
      assert Elements(s) == {s[0]} + Elements(t);
      assert s[0] !in Elements(t);
    }
  }

  /** The store holds as many keys as its key list has positions. */
  lemma IndexCount(s: seq<string>, m: map<string, Entry>)
    requires OrderedIndex(s, m)
    ensures |s| == |m|
  {
    DistinctCardinality(s);
    assert |m.Keys| == |m|;
  }

  /** Delete's update of the sorted map: dropping keys and their items keeps the invariant. */
  lemma OmitKeepsIndex(s: seq<string>, m: map<string, Entry>, gone: set<string>)
    requires OrderedIndex(s, m)
    ensures OrderedIndex(Omit(s, gone), m - gone)
  {
    OmitKeepsOrder(s, m, gone);
  }

  /** Replace's update of the key list: `k` is taken out and put back at the place its new
      item's death time calls for. */
  function Reindex(s: seq<string>, m: map<string, Entry>, k: string, e: Entry): (r: seq<string>)
    requires OrderedIndex(s, m)
    ensures OrderedIndex(r, m[k := e])
  {
    var m' := m[k := e];
    var t := Omit(s, {k});
    OmitKeepsOrder(s, m, {k});
    assert Indexed(t, m') by {
      forall i | 0 <= i < |t| ensures t[i] in m' && t[i] != k {
        assert t[i] in Elements(t);
      }
    }
    assert SortedByDeath(t, m') by {
      forall i | 0 <= i < |t| ensures m'[t[i]] == m[t[i]] {
        assert t[i] in Elements(t);
      }
    }
    assert k !in t by {
      assert k !in Elements(t);
    }
    InsertKeepsOrder(t, m', k);
    InsertByDeath(t, m', k)
  }

  /** Omitting two batches of keys one after the other omits their union. */
  lemma {:induction false} OmitTwice(s: seq<string>, a: set<string>, b: set<string>)
    ensures Omit(Omit(s, a), b) == Omit(s, a + b)
  {
    if s != [] {
      OmitTwice(s[1..], a, b);
    }
  }

  /** Omitting keys none of which is listed changes nothing. */
  lemma {:induction false} OmitNoneListed(s: seq<string>, gone: set<string>)
    requires forall i :: 0 <= i < |s| ==> s[i] !in gone
    ensures Omit(s, gone) == s
  {
    if s != [] {
      OmitNoneListed(s[1..], gone);
    }
  }

  /** Omitting a key that is not stored leaves the key list as it is. */
  lemma OmitAbsent(s: seq<string>, m: map<string, Entry>, k: string)
    requires OrderedIndex(s, m) && k !in m
    ensures Omit(s, {k}) == s
  {
    forall i | 0 <= i < |s| ensures s[i] !in {k} {
      assert s[i] in Elements(s);
    }
    OmitNoneListed(s, {k});
  }

  /** In a duplicate-free list, omitting the keys of a prefix leaves the rest of the list. */
  lemma {:induction false} OmitPrefix(s: seq<string>, n: nat)
    requires Distinct(s) && n <= |s|
    ensures Omit(s, Elements(s[..n])) == s[n..]
  {
    var p := Elements(s[..n]);
    forall i | n <= i < |s| ensures s[i] !in p {
      assert forall j :: 0 <= j < n ==> s[..n][j] != s[i];
    }
    OmitSplit(s, n, p);
  }

  /** Helper of OmitPrefix: from position `n` on nothing is omitted, before it everything is. */
  lemma {:induction false} OmitSplit(s: seq<string>, n: nat, p: set<string>)
    requires n <= |s|
    requires forall i :: 0 <= i < n ==> s[i] in p
    requires forall i :: n <= i < |s| ==> s[i] !in p
    ensures Omit(s, p) == s[n..]
  {
    if n == 0 {
      OmitNoneListed(s, p);
    } else {
      OmitSplit(s[1..], n - 1, p);
    }
  }
}
