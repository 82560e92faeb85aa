/**
 * The dictionary's backing store, a `defaultdict(list)`, as a value: its
 * keys in insertion order and each key's list. Reading a missing key
 * through the default factory inserts it, with an empty list, at the end
 * of the key order; `get`, `in` and `pop` do not.
 */
module DefaultDict {
  import opened Wrappers
  import opened Shapes
  import PyList

  datatype Table<K(==), V> = Table(keys: seq<K>, data: map<K, seq<V>>)

  /** The store after an operation, and whether the operation raised (possibly after mutating). */
  datatype Applied<K(==), V> = Applied(table: Table<K, V>, outcome: Outcome<Error<K, V>>)

  ghost predicate Distinct<T>(s: seq<T>) {
    forall i, j | 0 <= i < j < |s| :: s[i] != s[j]
  }

  /** The key order lists every key of the dict exactly once. */
  ghost predicate Valid<K(!new), V>(t: Table<K, V>) {
    && Distinct(t.keys)
    && (forall k :: k in t.data <==> k in t.keys)
  }

  /** What `data[k]` holds, an absent key reading as the empty list. */
  function Lookup<K(==, !new), V>(t: Table<K, V>, k: K): seq<V> {
    if k in t.data then t.data[k] else []
  }

  function Empty<K(==, !new), V>(): (t: Table<K, V>)
    ensures Valid(t) && t.keys == [] && forall k :: k !in t.data
  {
    Table([], map[])
  }

  /**
   * `data[k]` through the default factory: an absent key is inserted at the
   * end of the key order; no key's list changes.
   */
  function Touch<K(==, !new), V>(t: Table<K, V>, k: K): (r: Table<K, V>)
    ensures Valid(t) ==> Valid(r)
    ensures r.keys == if k in t.data then t.keys else t.keys + [k]
    ensures r.data.Keys == t.data.Keys + {k}
    ensures forall j :: Lookup(r, j) == Lookup(t, j)
  {
    if k in t.data then t else Table(t.keys + [k], t.data[k := []])
  }

  /**
   * `data[k] = vs`: the key's list becomes `vs`; a new key goes to the end of
   * the key order, an existing one keeps its place; no other key changes.
   */
  function Put<K(==, !new), V>(t: Table<K, V>, k: K, vs: seq<V>): (r: Table<K, V>)
    ensures Valid(t) ==> Valid(r)
    ensures r.keys == if k in t.data then t.keys else t.keys + [k]
    ensures r.data.Keys == t.data.Keys + {k}
    ensures Lookup(r, k) == vs
    ensures forall j | j != k :: Lookup(r, j) == Lookup(t, j)
  {
    Table(if k in t.data then t.keys else t.keys + [k], t.data[k := vs])
  }

  /** `data[k].extend(vs)` (and `data[k].append(v)` for `vs == [v]`) through the default factory. */
  function Extend<K(==, !new), V>(t: Table<K, V>, k: K, vs: seq<V>): (r: Table<K, V>)
    ensures Valid(t) ==> Valid(r)
    ensures r.keys == if k in t.data then t.keys else t.keys + [k]
    ensures r.data.Keys == t.data.Keys + {k}
    ensures Lookup(r, k) == Lookup(t, k) + vs
    ensures forall j | j != k :: Lookup(r, j) == Lookup(t, j)
  {
    Put(t, k, Lookup(t, k) + vs)
  }

  /** Removing a value from a list of distinct keys leaves them distinct. */
  lemma {:induction false} DistinctRemoveAll<T>(s: seq<T>, v: T)
    requires Distinct(s)
    ensures Distinct(PyList.RemoveAll(s, v))
    decreases |s|
  {
    if s != [] {
      var rest := PyList.RemoveAll(s[1..], v);
      assert Distinct(s[1..]) by {
        forall i, j | 0 <= i < j < |s[1..]| ensures s[1..][i] != s[1..][j] {
          assert s[1..][i] == s[i + 1] && s[1..][j] == s[j + 1];
        }
      }
      DistinctRemoveAll(s[1..], v);
      assert s[0] !in s[1..] by {
        forall i | 0 <= i < |s[1..]| ensures s[1..][i] != s[0] {
          assert s[1..][i] == s[i + 1];
        }
      }
      assert s[0] !in multiset(rest);
      var r := PyList.RemoveAll(s, v);
      if s[0] != v {
        assert r == [s[0]] + rest;
        forall i, j | 0 <= i < j < |r| ensures r[i] != r[j] {
          if i == 0 {
            assert r[j] == rest[j - 1] && r[j] in rest;
          } else {
            assert r[i] == rest[i - 1] && r[j] == rest[j - 1];
          }
        }
      } else {
        assert r == rest;
      }
    }
  }

  /**
   * `del data[k]` for a present key: the key leaves the key order, the
   * remaining keys keep their order and their lists.
   */
  function Delete<K(==, !new), V>(t: Table<K, V>, k: K): (r: Table<K, V>)
    requires Valid(t) && k in t.data
    ensures Valid(r)
    ensures r.keys == PyList.RemoveAll(t.keys, k)
    ensures k !in r.data
    ensures forall j | j != k :: (j in r.data <==> j in t.data) && Lookup(r, j) == Lookup(t, j)
  {
    DistinctRemoveAll(t.keys, k);
    PyList.RemoveAllMembership(t.keys, k);
    Table(PyList.RemoveAll(t.keys, k), t.data - {k})
  }

  /** Deleting the most recently inserted key leaves the key order without its last entry. */
  lemma DeleteLast<K(!new), V>(t: Table<K, V>)
    requires Valid(t) && t.keys != []
    ensures var last := t.keys[|t.keys| - 1];
      last in t.data && Delete(t, last).keys == t.keys[..|t.keys| - 1]
  {
    var n := |t.keys|;
    var last := t.keys[n - 1];
    assert t.keys == t.keys[..n - 1] + [last];
    var p := t.keys[..n - 1];
    assert last !in p by {
      forall i | 0 <= i < n - 1 ensures p[i] != last {
        assert p[i] == t.keys[i];
      }
    }
    PyList.RemoveAllConcat(p, [last], last);
    PyList.RemoveAllAbsent(p, last);
    assert PyList.RemoveAll([last], last) == [];
  }

  /** Each key with its list, in key order: `data.items()`. */
  function Items<K(==, !new), V>(t: Table<K, V>): (r: seq<(K, seq<V>)>)
    requires Valid(t)
    ensures KeysOf(r) == t.keys
    ensures forall i | 0 <= i < |r| :: r[i].0 in t.data && r[i].1 == t.data[r[i].0]
  {
    seq(|t.keys|, i requires 0 <= i < |t.keys| => (t.keys[i], t.data[t.keys[i]]))
  }

  /** Each key's list, in key order: `data.values()`. */
  function Values<K(==, !new), V>(t: Table<K, V>): (r: seq<seq<V>>)
    requires Valid(t)
    ensures |r| == |t.keys|
    ensures forall i | 0 <= i < |r| :: r[i] == Items(t)[i].1
  {
    seq(|t.keys|, i requires 0 <= i < |t.keys| => t.data[t.keys[i]])
  }

  /** An item belongs to the items view exactly when it pairs a key with that key's list. */
  lemma ItemsMembership<K(!new), V>(t: Table<K, V>, p: (K, seq<V>))
    requires Valid(t)
    ensures p in Items(t) <==> p.0 in t.data && p.1 == t.data[p.0]
  {
    if p.0 in t.data && p.1 == t.data[p.0] {
      var i :| 0 <= i < |t.keys| && t.keys[i] == p.0;
      assert Items(t)[i] == p;
    }
  }

  lemma ItemsView<K(!new), V>(t: Table<K, V>)
    requires Valid(t)
    ensures forall p :: p in Items(t) <==> p.0 in t.data && p.1 == t.data[p.0]
  {
    forall p ensures p in Items(t) <==> p.0 in t.data && p.1 == t.data[p.0] {
      ItemsMembership(t, p);
    }
  }

  /**
   * Dict equality (`data == other`) ignores key order: two stores are equal
   * exactly when their items views hold the same items.
   */
  lemma SameDataIffSameItems<K(!new), V>(t: Table<K, V>, u: Table<K, V>)
    requires Valid(t) && Valid(u)
    ensures t.data == u.data <==> (forall p :: p in Items(t) <==> p in Items(u))
  {
    if forall p :: p in Items(t) <==> p in Items(u) {
      forall k | k in t.data ensures k in u.data && u.data[k] == t.data[k] {
        ItemsMembership(t, (k, t.data[k]));
        ItemsMembership(u, (k, t.data[k]));
      }
      forall k | k in u.data ensures k in t.data {
        ItemsMembership(u, (k, u.data[k]));
        ItemsMembership(t, (k, u.data[k]));
      }
      assert t.data == u.data;
    }
    if t.data == u.data {
      forall p ensures p in Items(t) <==> p in Items(u) {
        ItemsMembership(t, p);
        ItemsMembership(u, p);
      }
    }
  }

  /** The number of distinct elements of a sequence without repeats is its length. */
  lemma {:induction false} DistinctCardinality<T>(s: seq<T>)
    requires Distinct(s)
    ensures |set x | x in s| == |s|
    decreases |s|
  {
    if s != [] {
      var p := s[..|s| - 1];
      var x := s[|s| - 1];
      assert Distinct(p) by {
        forall i, j | 0 <= i < j < |p| ensures p[i] != p[j] {
          assert p[i] == s[i] && p[j] == s[j];
        }
      }
      DistinctCardinality(p);
      assert x !in p by {
        forall i | 0 <= i < |p| ensures p[i] != x {
          assert p[i] == s[i];
        }
      }
      assert s == p + [x];
      assert (set y | y in s) == (set y | y in p) + {x};
    }
  }

  /** `len(data)`, the number of keys, is the length of the key order. */
  lemma KeyCount<K(!new), V>(t: Table<K, V>)
    requires Valid(t)
    ensures |t.data| == |t.keys|
  {
    assert t.data.Keys == set k | k in t.keys;
    DistinctCardinality(t.keys);
  }

  // Totals

  function SumLengths<K(==, !new), V>(ks: seq<K>, data: map<K, seq<V>>): nat
    requires forall k | k in ks :: k in data
  {
    if ks == [] then 0 else SumLengths(ks[..|ks| - 1], data) + |data[ks[|ks| - 1]]|
  }

  /** `sum(map(len, data.values()))`: how many values the dictionary holds. */
  function TotalLength<K(==, !new), V>(t: Table<K, V>): (n: nat)
    requires Valid(t)
    ensures forall k | k in t.data :: |t.data[k]| <= n
    ensures n == 0 <==> forall k | k in t.data :: t.data[k] == []
  {
    SumLengthsBounds(t.keys, t.data);
    SumLengths(t.keys, t.data)
  }

  /** No list is longer than the sum, and the sum is zero exactly when every list is empty. */
  lemma {:induction false} SumLengthsBounds<K(!new), V>(ks: seq<K>, data: map<K, seq<V>>)
    requires forall k | k in ks :: k in data
    ensures forall k | k in ks :: |data[k]| <= SumLengths(ks, data)
    ensures SumLengths(ks, data) == 0 <==> forall k | k in ks :: data[k] == []
    decreases |ks|
  {
    if ks != [] {
      var p := ks[..|ks| - 1];
      SumLengthsBounds(p, data);
      assert forall k | k in ks :: k in p || k == ks[|ks| - 1];
    }
  }

  lemma {:induction false} SumLengthsUpdate<K(!new), V>(ks: seq<K>, data: map<K, seq<V>>, k: K, vs: seq<V>)
    requires Distinct(ks) && forall j | j in ks :: j in data
    ensures k !in ks ==> SumLengths(ks, data[k := vs]) == SumLengths(ks, data)
    ensures k in ks ==> SumLengths(ks, data[k := vs]) + |data[k]| == SumLengths(ks, data) + |vs|
    decreases |ks|
  {
    if ks != [] {
      var p := ks[..|ks| - 1];
      var x := ks[|ks| - 1];
      assert ks == p + [x];
      assert Distinct(p) by {
        forall i, j | 0 <= i < j < |p| ensures p[i] != p[j] {
          assert p[i] == ks[i] && p[j] == ks[j];
        }
      }
      assert x !in p by {
        forall i | 0 <= i < |p| ensures p[i] != x {
          assert p[i] == ks[i];
        }
      }
      SumLengthsUpdate(p, data, k, vs);
    }
  }

  /** Replacing a key's list changes the total by the difference of the lengths. */
  lemma TotalLengthPut<K(!new), V>(t: Table<K, V>, k: K, vs: seq<V>)
    requires Valid(t)
    ensures TotalLength(Put(t, k, vs)) + |Lookup(t, k)| == TotalLength(t) + |vs|
  {
    var r := Put(t, k, vs);
    SumLengthsUpdate(t.keys, t.data, k, vs);
    if k !in t.data {
      assert (t.keys + [k])[..|t.keys|] == t.keys;
    }
  }

  // Merging sources

  /** `for k, vs in lists: data[k].extend(vs)`, in order. */
  function ExtendEntries<K(==, !new), V>(t: Table<K, V>, lists: seq<(K, seq<V>)>): (r: Table<K, V>)
    ensures Valid(t) ==> Valid(r)
    decreases |lists|
  {
    if lists == [] then t
    else
      var last := lists[|lists| - 1];
      Extend(ExtendEntries(t, lists[..|lists| - 1]), last.0, last.1)
  }

  function KeysOf<K, W>(e: seq<(K, W)>): seq<K> {
    seq(|e|, i requires 0 <= i < |e| => e[i].0)
  }

  /** The lists that `lists` gives for key `k`, concatenated in order. */
  function ValuesFor<K(==, !new), V>(lists: seq<(K, seq<V>)>, k: K): seq<V>
    decreases |lists|
  {
    if lists == [] then []
    else
      var last := lists[|lists| - 1];
      ValuesFor(lists[..|lists| - 1], k) + (if last.0 == k then last.1 else [])
  }

  /** Each pair's value as a one-element list. */
  function Singletons<K, V>(pairs: seq<(K, V)>): seq<(K, seq<V>)> {
    seq(|pairs|, i requires 0 <= i < |pairs| => (pairs[i].0, [pairs[i].1]))
  }

  /** The values that `pairs` gives for key `k`, in encounter order. */
  function Matching<K(==, !new), V>(pairs: seq<(K, V)>, k: K): seq<V>
    decreases |pairs|
  {
    if pairs == [] then []
    else
      var last := pairs[|pairs| - 1];
      Matching(pairs[..|pairs| - 1], k) + (if last.0 == k then [last.1] else [])
  }

  /** `for k, v in pairs: data[k].append(v)`, in order. */
  function AppendEntries<K(==, !new), V>(t: Table<K, V>, pairs: seq<(K, V)>): (r: Table<K, V>)
    ensures Valid(t) ==> Valid(r)
  {
    ExtendEntries(t, Singletons(pairs))
  }

  /** One more pair appends its value to its key's list. */
  lemma AppendEntriesSnoc<K(!new), V>(t: Table<K, V>, pairs: seq<(K, V)>, k: K, v: V)
    ensures AppendEntries(t, pairs + [(k, v)]) == Extend(AppendEntries(t, pairs), k, [v])
  {
    var s := Singletons(pairs + [(k, v)]);
    assert s[..|pairs|] == Singletons(pairs);
    assert s[|pairs|] == (k, [v]);
  }

  /** The distinct elements of `s` in order of first occurrence: the key order of `dict.fromkeys(s)`. */
  function Dedup<K(==, !new)>(s: seq<K>): (r: seq<K>)
    ensures Distinct(r)
    ensures forall x :: x in r <==> x in s
  {
    if s == [] then []
    else
      var d := Dedup(s[..|s| - 1]);
      assert s == s[..|s| - 1] + [s[|s| - 1]];
      if s[|s| - 1] in d then d else d + [s[|s| - 1]]
  }

  lemma IndexOfUnique<T>(s: seq<T>, v: T, i: nat)
    requires i < |s| && s[i] == v && v !in s[..i]
    ensures PyList.IndexOf(s, v) == i
  {
  }

  /** Keys come out of Dedup in the order of their first occurrence. */
  lemma {:induction false} DedupFirstSeen<K(!new)>(s: seq<K>)
    ensures forall i, j | 0 <= i < j < |Dedup(s)| :: PyList.IndexOf(s, Dedup(s)[i]) < PyList.IndexOf(s, Dedup(s)[j])
    decreases |s|
  {
    if s != [] {
      var p := s[..|s| - 1];
      var x := s[|s| - 1];
      var d := Dedup(p);
      DedupFirstSeen(p);
      assert s == p + [x];
      forall y | y in p ensures PyList.IndexOf(s, y) == PyList.IndexOf(p, y) {
        var k := PyList.IndexOf(p, y);
        assert s[..k] == p[..k];
        IndexOfUnique(s, y, k);
      }
      var r := Dedup(s);
      if x !in p {
        assert s[..|p|] == p;
        IndexOfUnique(s, x, |p|);
        forall i, j | 0 <= i < j < |r| ensures PyList.IndexOf(s, r[i]) < PyList.IndexOf(s, r[j]) {
          assert r[i] == d[i] && r[i] in p;
          assert PyList.IndexOf(s, r[i]) == PyList.IndexOf(p, r[i]);
          if j < |d| {
            assert r[j] == d[j] && r[j] in p;
            assert PyList.IndexOf(s, r[j]) == PyList.IndexOf(p, r[j]);
            assert PyList.IndexOf(p, d[i]) < PyList.IndexOf(p, d[j]);
          } else {
            assert r[j] == x;
          }
        }
      } else {
        assert r == d;
        forall i, j | 0 <= i < j < |r| ensures PyList.IndexOf(s, r[i]) < PyList.IndexOf(s, r[j]) {
          assert r[i] in p && r[j] in p;
          assert PyList.IndexOf(s, r[i]) == PyList.IndexOf(p, r[i]);
          assert PyList.IndexOf(s, r[j]) == PyList.IndexOf(p, r[j]);
          assert PyList.IndexOf(p, d[i]) < PyList.IndexOf(p, d[j]);
        }
      }
    }
  }

  lemma DedupSnoc<K(!new)>(s: seq<K>, x: K)
    ensures Dedup(s + [x]) == if x in Dedup(s) then Dedup(s) else Dedup(s) + [x]
  {
    assert (s + [x])[..|s|] == s;
  }

  /** A key order without repeats is its own Dedup. */
  lemma {:induction false} DedupOfDistinct<K(!new)>(s: seq<K>)
    requires Distinct(s)
    ensures Dedup(s) == s
    decreases |s|
  {
    if s != [] {
      var p := s[..|s| - 1];
      assert Distinct(p) by {
        forall i, j | 0 <= i < j < |p| ensures p[i] != p[j] {
          assert p[i] == s[i] && p[j] == s[j];
        }
      }
      DedupOfDistinct(p);
      assert s[|s| - 1] !in p by {
        forall i | 0 <= i < |p| ensures p[i] != s[|s| - 1] {
          assert p[i] == s[i];
        }
      }
      assert s == p + [s[|s| - 1]];
    }
  }

  /** Merging appends to each key's list the source's lists for that key, in order. */
  lemma {:induction false} ExtendEntriesLookup<K(!new), V>(t: Table<K, V>, lists: seq<(K, seq<V>)>, k: K)
    ensures Lookup(ExtendEntries(t, lists), k) == Lookup(t, k) + ValuesFor(lists, k)
    decreases |lists|
  {
    if lists == [] {
      assert Lookup(t, k) + [] == Lookup(t, k);
    } else {
      var p := lists[..|lists| - 1];
      var last := lists[|lists| - 1];
      ExtendEntriesLookup(t, p, k);
      ExtendLookup(ExtendEntries(t, p), last.0, last.1, k);
      PyList.ConcatAssoc(Lookup(t, k), ValuesFor(p, k), if last.0 == k then last.1 else []);
    }
  }

  /** Merging keeps the existing keys in place: the old key order is a prefix of the new one. */
  lemma {:induction false} ExtendEntriesPrefix<K(!new), V>(t: Table<K, V>, lists: seq<(K, seq<V>)>)
    ensures t.keys <= ExtendEntries(t, lists).keys
    decreases |lists|
  {
    if lists != [] {
      ExtendEntriesPrefix(t, lists[..|lists| - 1]);
    }
  }

  /**
   * Merging leaves the keys in order of first occurrence: the existing keys,
   * then the new ones as the source first names them.
   */
  lemma {:induction false} ExtendEntriesKeys<K(!new), V>(t: Table<K, V>, lists: seq<(K, seq<V>)>)
    requires Valid(t)
    ensures ExtendEntries(t, lists).keys == Dedup(t.keys + KeysOf(lists))
    decreases |lists|
  {
    if lists == [] {
      assert t.keys + KeysOf(lists) == t.keys;
      DedupOfDistinct(t.keys);
    } else {
      var p := lists[..|lists| - 1];
      var last := lists[|lists| - 1];
      ExtendEntriesKeys(t, p);
      var u := ExtendEntries(t, p);
      var s' := t.keys + KeysOf(p);
      KeysOfSnoc(lists);
      assert t.keys + KeysOf(lists) == s' + [last.0];
      DedupSnoc(s', last.0);
      ExtendKeys(u, last.0, last.1);
    }
  }

  lemma KeysOfSnoc<K, W>(e: seq<(K, W)>)
    requires e != []
    ensures KeysOf(e) == KeysOf(e[..|e| - 1]) + [e[|e| - 1].0]
  {
  }

  lemma ExtendLookup<K(!new), V>(u: Table<K, V>, j: K, vs: seq<V>, k: K)
    ensures Lookup(Extend(u, j, vs), k) == Lookup(u, k) + (if j == k then vs else [])
  {
  }

  lemma ExtendKeys<K(!new), V>(u: Table<K, V>, k: K, vs: seq<V>)
    requires Valid(u)
    ensures Extend(u, k, vs).keys == if k in u.keys then u.keys else u.keys + [k]
  {
  }

  lemma {:induction false} SingletonsFacts<K(!new), V>(pairs: seq<(K, V)>, k: K)
    ensures ValuesFor(Singletons(pairs), k) == Matching(pairs, k)
    ensures KeysOf(Singletons(pairs)) == KeysOf(pairs)
    decreases |pairs|
  {
    if pairs != [] {
      var p := pairs[..|pairs| - 1];
      assert Singletons(pairs)[..|pairs| - 1] == Singletons(p);
      SingletonsFacts(p, k);
    }
  }

  /** Appending pairs adds to each key's list its values from the pairs, in encounter order. */
  lemma AppendEntriesLookup<K(!new), V>(t: Table<K, V>, pairs: seq<(K, V)>, k: K)
    ensures Lookup(AppendEntries(t, pairs), k) == Lookup(t, k) + Matching(pairs, k)
  {
    ExtendEntriesLookup(t, Singletons(pairs), k);
    SingletonsFacts(pairs, k);
  }

  /** Appending pairs keeps the existing keys in place and adds new keys at the end in first-seen order. */
  lemma AppendEntriesKeys<K(!new), V>(t: Table<K, V>, pairs: seq<(K, V)>)
    requires Valid(t)
    ensures var r := AppendEntries(t, pairs);
      t.keys <= r.keys && r.keys == Dedup(t.keys + KeysOf(pairs))
  {
    ExtendEntriesPrefix(t, Singletons(pairs));
    ExtendEntriesKeys(t, Singletons(pairs));
    if pairs != [] {
      SingletonsFacts(pairs, pairs[0].0);
    } else {
      assert KeysOf(Singletons(pairs)) == KeysOf(pairs);
    }
  }

  /** Each pair appended adds exactly one value to the total. */
  lemma {:induction false} TotalLengthAppendEntries<K(!new), V>(t: Table<K, V>, pairs: seq<(K, V)>)
    requires Valid(t)
    ensures TotalLength(AppendEntries(t, pairs)) == TotalLength(t) + |pairs|
    decreases |pairs|
  {
    if pairs != [] {
      var p := pairs[..|pairs| - 1];
      var last := pairs[|pairs| - 1];
      assert Singletons(pairs)[..|pairs| - 1] == Singletons(p);
      TotalLengthAppendEntries(t, p);
      TotalLengthPut(AppendEntries(t, p), last.0, Lookup(AppendEntries(t, p), last.0) + [last.1]);
    }
  }

  /** For a source with unique keys, the lists for `k` are just k's own list. */
  lemma {:induction false} ValuesForDistinct<K(!new), V>(lists: seq<(K, seq<V>)>, i: nat)
    requires i < |lists| && Distinct(KeysOf(lists))
    ensures ValuesFor(lists, lists[i].0) == lists[i].1
    decreases |lists|
  {
    var n := |lists|;
    var p := lists[..n - 1];
    assert Distinct(KeysOf(p)) by {
      forall a, b | 0 <= a < b < |p| ensures KeysOf(p)[a] != KeysOf(p)[b] {
        assert KeysOf(p)[a] == KeysOf(lists)[a] && KeysOf(p)[b] == KeysOf(lists)[b];
      }
    }
    if i < n - 1 {
      ValuesForDistinct(p, i);
      assert KeysOf(lists)[i] != KeysOf(lists)[n - 1];
    } else {
      assert lists[i].0 !in KeysOf(p) by {
        forall a | 0 <= a < |p| ensures KeysOf(p)[a] != lists[i].0 {
          assert KeysOf(p)[a] == KeysOf(lists)[a] && KeysOf(lists)[i] == lists[i].0;
        }
      }
      ValuesForAbsent(p, lists[i].0);
    }
  }

  lemma {:induction false} ValuesForAbsent<K(!new), V>(lists: seq<(K, seq<V>)>, k: K)
    requires k !in KeysOf(lists)
    ensures ValuesFor(lists, k) == []
    decreases |lists|
  {
    if lists != [] {
      var p := lists[..|lists| - 1];
      assert KeysOf(lists)[|lists| - 1] == lists[|lists| - 1].0;
      assert forall a | 0 <= a < |p| :: KeysOf(p)[a] == KeysOf(lists)[a];
      ValuesForAbsent(p, k);
    }
  }

  /**
   * Updating from a multi-valued source extends each key's list by the
   * source's whole list for that key.
   */
  lemma MergeLookup<K(!new), V>(t: Table<K, V>, u: Table<K, V>, k: K)
    requires Valid(t) && Valid(u)
    ensures Lookup(ExtendEntries(t, Items(u)), k) == Lookup(t, k) + Lookup(u, k)
  {
    ExtendEntriesLookup(t, Items(u), k);
    assert KeysOf(Items(u)) == u.keys;
    if k in u.data {
      var i :| 0 <= i < |u.keys| && u.keys[i] == k;
      ValuesForDistinct(Items(u), i);
    } else {
      ValuesForAbsent(Items(u), k);
    }
  }

  /** Valid stores with the same key order and the same lists are the same store. */
  lemma TableExtensionality<K(!new), V>(t: Table<K, V>, u: Table<K, V>)
    requires Valid(t) && Valid(u)
    requires t.keys == u.keys && forall k :: Lookup(t, k) == Lookup(u, k)
    ensures t == u
  {
    forall k | k in t.data ensures k in u.data && t.data[k] == u.data[k] {
      assert Lookup(t, k) == Lookup(u, k);
    }
    assert t.data == u.data;
  }

  /**
   * A fresh dictionary built from a multi-valued source's items is that
   * source again: same keys, same order, same lists (what `copy` relies on).
   */
  lemma CopyRoundTrip<K(!new), V>(t: Table<K, V>)
    requires Valid(t)
    ensures ExtendEntries(Empty(), Items(t)) == t
  {
    var r := ExtendEntries(Empty(), Items(t));
    ExtendEntriesKeys(Empty(), Items(t));
    assert KeysOf(Items(t)) == t.keys;
    assert Empty<K, V>().keys + t.keys == t.keys;
    DedupOfDistinct(t.keys);
    forall k ensures Lookup(r, k) == Lookup(t, k) {
      MergeLookup(Empty(), t, k);
    }
    TableExtensionality(r, t);
  }

  // Pair sequences

  /** The index of the first element that is not a pair, or the length when every element is one. */
  function FirstBad<K, V>(elements: seq<Element<K, V>>): (i: nat)
    ensures i <= |elements|
    ensures forall j | 0 <= j < i :: elements[j].Pair?
    ensures i < |elements| ==> !elements[i].Pair?
  {
    if elements == [] || !elements[0].Pair? then 0 else 1 + FirstBad(elements[1..])
  }

  /** The key-value pairs of a sequence of elements that are all pairs. */
  function PairsOf<K, V>(elements: seq<Element<K, V>>): seq<(K, V)>
    requires forall j | 0 <= j < |elements| :: elements[j].Pair?
  {
    seq(|elements|, i requires 0 <= i < |elements| => (elements[i].key, elements[i].value))
  }

  lemma PairsOfSnoc<K, V>(elements: seq<Element<K, V>>, i: nat)
    requires i < |elements| && forall j | 0 <= j <= i :: elements[j].Pair?
    ensures PairsOf(elements[..i + 1]) == PairsOf(elements[..i]) + [(elements[i].key, elements[i].value)]
  {
  }

  /** The first bad element is the one the loop stops at: every earlier element is a pair. */
  lemma FirstBadAt<K, V>(elements: seq<Element<K, V>>, i: nat)
    requires i <= |elements| && forall j | 0 <= j < i :: elements[j].Pair?
    requires i == |elements| || !elements[i].Pair?
    ensures FirstBad(elements) == i
  {
  }

  /** `dict.fromkeys(ks, v)`: each distinct key once, in first-seen order, with the value `v`. */
  function DictFromKeys<K(==, !new), V>(ks: seq<K>, v: V): (r: seq<(K, V)>)
    ensures KeysOf(r) == Dedup(ks)
    ensures forall i | 0 <= i < |r| :: r[i].1 == v
  {
    var d := Dedup(ks);
    seq(|d|, i requires 0 <= i < |d| => (d[i], v))
  }

  // The merge loops

  /** `for k, vs in source.items(): data[k].extend(vs)`. */
  method ExtendEach<K(==, !new), V>(t: Table<K, V>, lists: seq<(K, seq<V>)>) returns (r: Table<K, V>)
    requires Valid(t)
    ensures Valid(r) && r == ExtendEntries(t, lists)
  {
    r := t;
    for j := 0 to |lists|
      invariant Valid(r) && r == ExtendEntries(t, lists[..j])
    {
      assert lists[..j + 1][..j] == lists[..j];
      r := Extend(r, lists[j].0, lists[j].1);
    }
    assert lists[..|lists|] == lists;
  }

  /** `for k, v in source.items(): data[k].append(v)`. */
  method AppendEach<K(==, !new), V>(t: Table<K, V>, pairs: seq<(K, V)>) returns (r: Table<K, V>)
    requires Valid(t)
    ensures Valid(r) && r == AppendEntries(t, pairs)
  {
    r := t;
    for j := 0 to |pairs|
      invariant Valid(r) && r == AppendEntries(t, pairs[..j])
    {
      assert pairs[..j + 1] == pairs[..j] + [pairs[j]];
      AppendEntriesSnoc(t, pairs[..j], pairs[j].0, pairs[j].1);
      r := Extend(r, pairs[j].0, [pairs[j].1]);
    }
    assert pairs[..|pairs|] == pairs;
  }

  /**
   * The loop over a would-be pair sequence: append each pair's value to its
   * key's list, stopping at the first element that is not a pair, whose
   * index `i` is returned (the length when there is none).
   */
  method AppendLeadingPairs<K(==, !new), V>(t: Table<K, V>, elements: seq<Element<K, V>>) returns (r: Table<K, V>, i: nat)
    requires Valid(t)
    ensures i == FirstBad(elements)
    ensures Valid(r) && r == AppendEntries(t, PairsOf(elements[..i]))
  {
    r, i := t, 0;
    while i < |elements| && elements[i].Pair?
      invariant i <= |elements|
      invariant forall j | 0 <= j < i :: elements[j].Pair?
      invariant Valid(r) && r == AppendEntries(t, PairsOf(elements[..i]))
    {
      var key, value := elements[i].key, elements[i].value;
      PairsOfSnoc(elements, i);
      AppendEntriesSnoc(t, PairsOf(elements[..i]), key, value);
      r := Extend(r, key, [value]);
      i := i + 1;
    }
    FirstBadAt(elements, i);
  }

  // Deleting values

  /**
   * `__delkv__(k, v, allkv, direction)`: the direction flag is checked first;
   * then `data[k]` is read through the default factory, so an absent key is
   * inserted with an empty list before anything is removed.
   */
  function DelKV<K(==, !new), V(==)>(t: Table<K, V>, k: K, v: V, allkv: bool, direction: string): (r: Applied<K, V>)
    requires Valid(t)
    ensures Valid(r.table)
    ensures r.outcome == Fail(InvalidDirection) <==> direction != START_POS && direction != END_POS
    ensures r.outcome.Fail? ==> r.outcome == Fail(InvalidDirection) || r.outcome == Fail(ValueNotFound)
    ensures |Lookup(r.table, k)| <= |Lookup(t, k)|
    ensures forall j | j != k :: Lookup(r.table, j) == Lookup(t, j)
  {
    if direction != START_POS && direction != END_POS then Applied(t, Fail(InvalidDirection))
    else
      var touched := Touch(t, k);
      var s := Lookup(t, k);
      if allkv then Applied(Put(touched, k, PyList.RemoveAll(s, v)), Pass)
      else if direction == START_POS then
        match PyList.Remove(s, v)
        case None => Applied(touched, Fail(ValueNotFound))
        case Some(rest) => Applied(Put(touched, k, rest), Pass)
      else Applied(Put(touched, k, PyList.RemoveLast(s, v)), Pass)
  }

  /** A direction other than START_POS or END_POS is refused before anything changes. */
  lemma DelKVRejectsDirection<K(!new), V>(t: Table<K, V>, k: K, v: V, allkv: bool, direction: string)
    requires Valid(t) && direction != START_POS && direction != END_POS
    ensures DelKV(t, k, v, allkv, direction) == Applied(t, Fail(InvalidDirection))
  {
  }

  /**
   * With `allkv`, no occurrence of `v` is left in k's list, what remains
   * keeps its order and multiplicities, and no other list changes; an absent
   * key ends up present with an empty list.
   */
  lemma DelKVAll<K(!new), V>(t: Table<K, V>, k: K, v: V, direction: string)
    requires Valid(t) && (direction == START_POS || direction == END_POS)
    ensures var r := DelKV(t, k, v, true, direction);
      && r.outcome == Pass
      && r.table.keys == Touch(t, k).keys
      && k in r.table.data
      && v !in Lookup(r.table, k)
      && multiset(Lookup(r.table, k)) == multiset(Lookup(t, k))[v := 0]
      && PyList.Subsequence(Lookup(r.table, k), Lookup(t, k))
      && forall j | j != k :: Lookup(r.table, j) == Lookup(t, j)
  {
    PyList.RemoveAllSubsequence(Lookup(t, k), v);
  }

  /**
   * From the start, one occurrence is removed, the lowest-index one; when
   * there is none, ValueError is raised and only the default factory's
   * insertion of k remains.
   */
  lemma DelKVFirst<K(!new), V>(t: Table<K, V>, k: K, v: V)
    requires Valid(t)
    ensures var r := DelKV(t, k, v, false, START_POS);
      var s := Lookup(t, k);
      && r.table.keys == Touch(t, k).keys
      && (v !in s ==> r == Applied(Touch(t, k), Fail(ValueNotFound)))
      && (v in s ==>
           && r.outcome == Pass
           && exists i | 0 <= i < |s| :: s[i] == v && v !in s[..i] && Lookup(r.table, k) == s[..i] + s[i + 1..])
      && forall j | j != k :: Lookup(r.table, j) == Lookup(t, j)
  {
  }

  /**
   * From the end, one occurrence is removed, the highest-index one; when
   * there is none nothing is removed and nothing is raised.
   */
  lemma DelKVLast<K(!new), V>(t: Table<K, V>, k: K, v: V)
    requires Valid(t)
    ensures var r := DelKV(t, k, v, false, END_POS);
      var s := Lookup(t, k);
      && r.outcome == Pass
      && r.table.keys == Touch(t, k).keys
      && (v !in s ==> Lookup(r.table, k) == s)
      && (v in s ==>
           exists i | 0 <= i < |s| :: s[i] == v && v !in s[i + 1..] && Lookup(r.table, k) == s[..i] + s[i + 1..])
      && forall j | j != k :: Lookup(r.table, j) == Lookup(t, j)
  {
  }
}
