/**
 * The earlier, root-level `multivalued_dict`. Its constructor routes every
 * source through `update`, so values are never spread; a pair of the wrong
 * length raises `KeyValuePairsError` carrying the element; an element is
 * not checked for being iterable before `len` is applied to it; and
 * `__lenvalue__` takes `None` for "no key".
 */
module LegacyMultivaluedDict {
  import opened Wrappers
  import opened Shapes
  import opened DefaultDict
  import PyList
  import Modern = MultivaluedDictModule

  /** The exception for the first element that is not a pair: `len` fails, or `KeyValuePairsError`. */
  function PairError<K, V>(element: Element<K, V>): (e: Error<K, V>)
    requires !element.Pair?
    ensures e.KeyValuePairs? <==> element.BadLength?
    ensures e.KeyValuePairs? ==> e.element == element && e.element.length != 2
    ensures e.ElementHasNoLength? <==> element.NonSequence?
  {
    match element
    case NonSequence => ElementHasNoLength
    case BadLength(_) => KeyValuePairs(element)
  }

  /** `update` with one positional argument, as the root-level version does it. */
  function ApplySource<K(==, !new), V>(t: Table<K, V>, source: Source<K, V>): (r: Applied<K, V>)
    requires Valid(t)
    ensures Valid(r.table)
  {
    match source
    case NonIterable => Applied(t, Fail(SourceNotIterable))
    case MultiDict(lists) => Applied(ExtendEntries(t, lists), Pass)
    case PlainDict(entries) => Applied(AppendEntries(t, entries), Pass)
    case Pairs(elements) =>
      var i := FirstBad(elements);
      var done := AppendEntries(t, PairsOf(elements[..i]));
      if i == |elements| then Applied(done, Pass) else Applied(done, Fail(PairError(elements[i])))
  }

  /** `update(*args, **kwargs)`: the keyword arguments are applied as a plain dict after the positional one. */
  function UpdateSpec<K(==, !new), V>(t: Table<K, V>, args: seq<Source<K, V>>, kwargs: seq<(K, V)>): (r: Applied<K, V>)
    requires Valid(t)
    ensures Valid(r.table)
    decreases |kwargs|
  {
    if |args| > 1 then Applied(t, Fail(TooManyArguments(|args|)))
    else
      var a := if |args| == 1 then ApplySource(t, args[0]) else Applied(t, Pass);
      if a.outcome.Fail? || kwargs == [] then a else UpdateSpec(a.table, [PlainDict(kwargs)], [])
  }

  /** `__init__(*args, **kwargs)`: `update` with the positional argument, then `update` with the keywords. */
  function InitSpec<K(==, !new), V>(t: Table<K, V>, args: seq<Source<K, V>>, kwargs: seq<(K, V)>): (r: Applied<K, V>)
    requires Valid(t)
    ensures Valid(r.table)
  {
    if |args| > 1 then Applied(t, Fail(TooManyArguments(|args|)))
    else
      var a := if |args| == 1 then UpdateSpec(t, args, []) else Applied(t, Pass);
      if a.outcome.Fail? || kwargs == [] then a else UpdateSpec(a.table, [], kwargs)
  }

  /** Initialising is updating: both calls of `update` together do what one `update` with both arguments does. */
  lemma InitIsUpdate<K(!new), V>(t: Table<K, V>, args: seq<Source<K, V>>, kwargs: seq<(K, V)>)
    requires Valid(t)
    ensures InitSpec(t, args, kwargs) == UpdateSpec(t, args, kwargs)
  {
  }

  /** More than one positional argument is refused before anything changes. */
  lemma TooManyArgumentsChangeNothing<K(!new), V>(t: Table<K, V>, args: seq<Source<K, V>>, kwargs: seq<(K, V)>)
    requires Valid(t) && |args| > 1
    ensures UpdateSpec(t, args, kwargs) == Applied(t, Fail(TooManyArguments(|args|)))
    ensures InitSpec(t, args, kwargs) == Applied(t, Fail(TooManyArguments(|args|)))
  {
  }

  /** Updating from another multi-valued dictionary extends each key's list by that dictionary's whole list. */
  lemma UpdateMultiDict<K(!new), V>(t: Table<K, V>, u: Table<K, V>, k: K)
    requires Valid(t) && Valid(u)
    ensures var r := UpdateSpec(t, [MultiDict(Items(u))], []);
      r.outcome == Pass && Lookup(r.table, k) == Lookup(t, k) + Lookup(u, k)
  {
    MergeLookup(t, u, k);
  }

  /**
   * Updating from a pair sequence appends the values of the pairs before
   * the first bad element in encounter order, existing keys keeping their
   * place.
   */
  lemma UpdatePairs<K(!new), V>(t: Table<K, V>, elements: seq<Element<K, V>>, k: K)
    requires Valid(t)
    ensures var r := UpdateSpec(t, [Pairs(elements)], []).table;
      var done := PairsOf(elements[..FirstBad(elements)]);
      && Lookup(r, k) == Lookup(t, k) + Matching(done, k)
      && t.keys <= r.keys
  {
    var done := PairsOf(elements[..FirstBad(elements)]);
    assert UpdateSpec(t, [Pairs(elements)], []).table == AppendEntries(t, done);
    AppendEntriesLookup(t, done, k);
    AppendEntriesKeys(t, done);
  }

  /** A pair update fails exactly when some element is not a pair; the failure carries the first such element. */
  lemma UpdatePairsOutcome<K(!new), V>(t: Table<K, V>, elements: seq<Element<K, V>>)
    requires Valid(t)
    ensures var r := UpdateSpec(t, [Pairs(elements)], []);
      var i := FirstBad(elements);
      && (r.outcome.Pass? <==> forall j | 0 <= j < |elements| :: elements[j].Pair?)
      && (i < |elements| && elements[i].BadLength? ==> r.outcome == Fail(KeyValuePairs(elements[i])))
      && (i < |elements| && elements[i].NonSequence? ==> r.outcome == Fail(ElementHasNoLength))
  {
    var i := FirstBad(elements);
    assert UpdateSpec(t, [Pairs(elements)], []).outcome == ApplySource(t, Pairs(elements)).outcome;
    if i < |elements| {
      assert !elements[i].Pair?;
    }
  }

  /** The two versions agree on pair sequences except for which exception they raise. */
  lemma PairUpdatesAgree<K(!new), V>(t: Table<K, V>, elements: seq<Element<K, V>>)
    requires Valid(t)
    ensures var legacy := UpdateSpec(t, [Pairs(elements)], []);
      var modern := Modern.UpdateSpec(t, [Pairs(elements)], []);
      legacy.table == modern.table && legacy.outcome.Pass? == modern.outcome.Pass?
  {
    assert UpdateSpec(t, [Pairs(elements)], []) == ApplySource(t, Pairs(elements));
    assert Modern.UpdateSpec(t, [Pairs(elements)], []) == Modern.ApplySource(t, Pairs(elements));
  }

  /**
   * A plain dict given to the constructor: here a list value is appended as
   * one element, where the packaged version spreads its elements.
   */
  lemma InitKeepsDictValuesWhole<K(!new), A>(t: Table<K, Value<A>>, entries: seq<(K, Value<A>)>, i: nat)
    requires Valid(t) && i < |entries| && Distinct(KeysOf(entries))
    ensures var k := entries[i].0;
      && Lookup(InitSpec(t, [PlainDict(entries)], []).table, k) == Lookup(t, k) + [entries[i].1]
      && Lookup(Modern.InitSpec(t, [PlainDict(entries)], []).table, k) == Lookup(t, k) + Spread(entries[i].1)
  {
    Modern.UpdatePlainDict(t, entries, i);
    Modern.InitSpreadsDictValues(t, entries, i);
    assert UpdateSpec(t, [PlainDict(entries)], []) == Modern.UpdateSpec(t, [PlainDict(entries)], []);
  }

  /** `fromkeys(ks, v)` holds one entry per distinct key of `ks`, in first-seen order. */
  lemma FromKeysKeys<K(!new), V>(ks: seq<K>, v: V)
    ensures var r := InitSpec(Empty(), [PlainDict(DictFromKeys(ks, v))], []);
      r.outcome == Pass && r.table.keys == Dedup(ks)
  {
    var entries := DictFromKeys(ks, v);
    var e := Empty<K, V>();
    assert InitSpec(e, [PlainDict(entries)], []) == Applied(AppendEntries(e, entries), Pass);
    AppendEntriesKeys(e, entries);
    assert e.keys + KeysOf(entries) == Dedup(ks);
    DedupOfDistinct(Dedup(ks));
  }

  /** Each key of `fromkeys(ks, v)` holds exactly `[v]`, lists included; no other key is present. */
  lemma FromKeysLookup<K(!new), V>(ks: seq<K>, v: V, k: K)
    ensures var r := InitSpec(Empty(), [PlainDict(DictFromKeys(ks, v))], []).table;
      && (k in ks ==> Lookup(r, k) == [v])
      && (k !in ks ==> k !in r.data)
  {
    var entries := DictFromKeys(ks, v);
    var e := Empty<K, V>();
    assert InitSpec(e, [PlainDict(entries)], []).table == AppendEntries(e, entries);
    if k in ks {
      var i :| 0 <= i < |Dedup(ks)| && Dedup(ks)[i] == k;
      assert KeysOf(entries)[i] == k;
      AppendEntriesLookup(e, entries, k);
      Modern.MatchingDistinct(entries, i);
    } else {
      FromKeysKeys(ks, v);
    }
  }

  class MultivaluedDict<K(==, !new), V(==)> {
    /** `self.data`, the `defaultdict(list)` behind the dictionary. */
    var data: Table<K, V>

    ghost predicate Valid()
      reads this
    {
      DefaultDict.Valid(data)
    }

    /** `self.data = defaultdict(list)`: a fresh, empty store. */
    constructor ()
      ensures Valid() && data == Empty()
    {
      data := Empty();
    }

    /** `multivalued_dict(*args, **kwargs)`: a new dictionary, or the exception its initialisation raises. */
    static method New(args: seq<Source<K, V>>, kwargs: seq<(K, V)>) returns (r: Result<MultivaluedDict<K, V>, Error<K, V>>)
      ensures var spec := InitSpec(Empty(), args, kwargs);
        && (r.Success? <==> spec.outcome.Pass?)
        && (r.Success? ==> fresh(r.value) && r.value.Valid() && r.value.data == spec.table)
        && (r.Failure? ==> spec.outcome == Fail(r.error))
    {
      var d := new MultivaluedDict();
      var outcome := d.Init(args, kwargs);
      r := if outcome.Pass? then Success(d) else Failure(outcome.error);
    }

    /** `__init__`: `update` with the positional argument, then with the keyword arguments. */
    method Init(args: seq<Source<K, V>>, kwargs: seq<(K, V)>) returns (r: Outcome<Error<K, V>>)
      requires Valid()
      modifies this
      ensures Valid() && Applied(data, r) == InitSpec(old(data), args, kwargs)
    {
      if |args| > 1 {
        return Fail(TooManyArguments(|args|));
      }
      r := Pass;
      if |args| == 1 {
        r := Update(args, []);
      }
      if r.Pass? && kwargs != [] {
        r := Update([], kwargs);
      }
    }

    /** The body of `update` for its one positional argument. */
    method ApplyOne(source: Source<K, V>) returns (r: Outcome<Error<K, V>>)
      requires Valid()
      modifies this
      ensures Valid() && Applied(data, r) == ApplySource(old(data), source)
    {
      r := Pass;
      match source {
        case NonIterable => r := Fail(SourceNotIterable);
        case MultiDict(lists) => data := ExtendEach(data, lists);
        case PlainDict(entries) => data := AppendEach(data, entries);
        case Pairs(elements) =>
          var i;
          data, i := AppendLeadingPairs(data, elements);
          if i < |elements| {
            r := Fail(PairError(elements[i]));
          }
      }
    }

    /** `update`: merges one positional source, then the keyword arguments. */
    method Update(args: seq<Source<K, V>>, kwargs: seq<(K, V)>) returns (r: Outcome<Error<K, V>>)
      requires Valid()
      modifies this
      ensures Valid() && Applied(data, r) == UpdateSpec(old(data), args, kwargs)
      decreases |kwargs|
    {
      if |args| > 1 {
        return Fail(TooManyArguments(|args|));
      }
      r := Pass;
      if |args| == 1 {
        r := ApplyOne(args[0]);
      }
      if r.Pass? && kwargs != [] {
        r := Update([PlainDict(kwargs)], []);
      }
    }

    /** `fromkeys(iterable, value)`: the constructor applied to `dict.fromkeys(iterable, value)`. */
    static method FromKeys(iterable: seq<K>, value: V) returns (d: MultivaluedDict<K, V>)
      ensures fresh(d) && d.Valid()
      ensures d.data.keys == Dedup(iterable)
      ensures forall k | k in iterable :: Lookup(d.data, k) == [value]
    {
      d := new MultivaluedDict();
      var outcome := d.Init([PlainDict(DictFromKeys(iterable, value))], []);
      FromKeysKeys(iterable, value);
      forall k | k in iterable ensures Lookup(d.data, k) == [value] {
        FromKeysLookup(iterable, value, k);
      }
    }

    /** `copy`: a new dictionary built from this one's store, with the same keys, order and lists. */
    method Copy() returns (c: MultivaluedDict<K, V>)
      requires Valid()
      ensures fresh(c) && c.Valid() && c.data == data
    {
      c := new MultivaluedDict();
      var outcome := c.Init([MultiDict(DefaultDict.Items(data))], []);
      CopyRoundTrip(data);
    }

    /**
     * `__lenvalue__(key)`: with `None`, the number of values over all keys;
     * with a key, the length of its list, read through the default factory.
     */
    method LenValue(key: Option<K>) returns (n: nat)
      requires Valid()
      modifies this
      ensures Valid()
      ensures key.None? ==> data == old(data) && n == TotalLength(data)
      ensures key.Some? ==> data == Touch(old(data), key.value) && n == |Lookup(old(data), key.value)|
    {
      match key {
        case None => n := TotalLength(data);
        case Some(k) =>
          data := Touch(data, k);
          n := |data.data[k]|;
      }
    }

    /** `__matchkv__(key, value)`: whether the key's list holds the value; an absent key is inserted. */
    method MatchKV(key: K, value: V) returns (b: bool)
      requires Valid()
      modifies this
      ensures Valid() && data == Touch(old(data), key)
      ensures b <==> PyList.Count(Lookup(old(data), key), value) > 0
    {
      data := Touch(data, key);
      b := value in data.data[key];
    }

    /** `__delkv__`: removes every, the first or the last occurrence of a value from a key's list. */
    method DelKV(key: K, value: V, allkv: bool, direction: string) returns (r: Outcome<Error<K, V>>)
      requires Valid()
      modifies this
      ensures Valid() && Applied(data, r) == DefaultDict.DelKV(old(data), key, value, allkv, direction)
    {
      if direction != START_POS && direction != END_POS {
        return Fail(InvalidDirection);
      }
      data := Touch(data, key);
      var s := data.data[key];
      r := Pass;
      if allkv {
        s := PyList.RemoveEach(s, value);
        data := Put(data, key, s);
      } else if direction == START_POS {
        match PyList.Remove(s, value) {
          case None => r := Fail(ValueNotFound);
          case Some(rest) => data := Put(data, key, rest);
        }
      } else {
        s := PyList.RemoveLastOccurrence(s, value);
        data := Put(data, key, s);
      }
    }

    /** `count(key, value)`: occurrences of the value in the key's list; an absent key is inserted. */
    method Count(key: K, value: V) returns (n: nat)
      requires Valid()
      modifies this
      ensures Valid() && data == Touch(old(data), key)
      ensures n == multiset(Lookup(old(data), key))[value]
    {
      data := Touch(data, key);
      n := PyList.Count(data.data[key], value);
    }

    /** `reverse(key)`: the key's list in the opposite order; an absent key is inserted with an empty list. */
    method Reverse(key: K)
      requires Valid()
      modifies this
      ensures Valid()
      ensures data.keys == Touch(old(data), key).keys
      ensures Lookup(data, key) == PyList.Reversed(Lookup(old(data), key))
      ensures forall j | j != key :: Lookup(data, j) == Lookup(old(data), j)
    {
      data := Touch(data, key);
      data := Put(data, key, PyList.Reversed(data.data[key]));
    }

    /** `items()`: each key with its list, in key order. */
    function Items(): (r: seq<(K, seq<V>)>)
      reads this
      requires Valid()
      ensures KeysOf(r) == data.keys
      ensures forall i | 0 <= i < |r| :: r[i].1 == Lookup(data, r[i].0)
    {
      DefaultDict.Items(data)
    }

    /** `keys()`: each key once, in insertion order. */
    function Keys(): (r: seq<K>)
      reads this
      requires Valid()
      ensures |r| == |data.data|
      ensures forall k :: k in r <==> k in data.data
      ensures r == KeysOf(Items())
    {
      KeyCount(data);
      data.keys
    }

    /** `values()`: each key's list, in key order. */
    function Values(): (r: seq<seq<V>>)
      reads this
      requires Valid()
      ensures |r| == |data.keys|
      ensures forall i | 0 <= i < |r| :: r[i] == Lookup(data, data.keys[i])
    {
      DefaultDict.Values(data)
    }
  }
}
