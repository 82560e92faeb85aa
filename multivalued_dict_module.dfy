/**
 * The packaged `multivalued_dict`: a dictionary that maps each key to a
 * list of values, kept in a `defaultdict(list)` named `data`. Values are
 * `Value<A>` because the constructor treats list and tuple values apart.
 */
module MultivaluedDictModule {
  import opened Wrappers
  import opened Shapes
  import opened DefaultDict
  import PyList

  // Building and merging, as functions of the store

  /** A plain dict's entries with each value spread the way `__init__` spreads it. */
  function SpreadLists<K, A>(entries: seq<(K, Value<A>)>): (r: seq<(K, seq<Value<A>>)>)
    ensures KeysOf(r) == KeysOf(entries)
    ensures forall i | 0 <= i < |r| :: r[i].1 == Spread(entries[i].1)
  {
    seq(|entries|, i requires 0 <= i < |entries| => (entries[i].0, Spread(entries[i].1)))
  }

  /** The exception `update` raises for element #i of a pair sequence. */
  function PairError<K, V>(elements: seq<Element<K, V>>, i: nat): (e: Error<K, V>)
    requires i < |elements| && !elements[i].Pair?
    ensures (e.ElementNotSequence? || e.ElementWrongLength?) && e.index == i
    ensures e.ElementNotSequence? <==> elements[i].NonSequence?
    ensures e.ElementWrongLength? ==> e.length == elements[i].length && e.length != 2
  {
    match elements[i]
    case NonSequence => ElementNotSequence(i)
    case BadLength(n) => ElementWrongLength(i, n)
  }

  /**
   * `update` with one positional argument: a non-iterable is refused; a
   * multi-valued source extends each key's list by its list; a plain dict
   * appends each value whole; a pair sequence appends pair by pair and
   * stops at the first element that is not a pair, keeping what it did.
   */
  function ApplySource<K(==, !new), V>(t: Table<K, V>, source: Source<K, V>): (r: Applied<K, V>)
    requires Valid(t)
    ensures Valid(r.table)
  {
    match source
    case NonIterable => Applied(t, Fail(SourceNotIterable))
    case MultiDict(lists) => Applied(ExtendEntries(t, lists), Pass)
    case PlainDict(entries) => Applied(AppendEntries(t, entries), Pass)
    case Pairs(elements) =>
      var i := FirstBad(elements);
      var done := AppendEntries(t, PairsOf(elements[..i]));
      if i == |elements| then Applied(done, Pass) else Applied(done, Fail(PairError(elements, i)))
  }

  /** `update(*args, **kwargs)`: the keyword arguments are applied as a plain dict after the positional one. */
  function UpdateSpec<K(==, !new), V>(t: Table<K, V>, args: seq<Source<K, V>>, kwargs: seq<(K, V)>): (r: Applied<K, V>)
    requires Valid(t)
    ensures Valid(r.table)
    decreases |kwargs|
  {
    if |args| > 1 then Applied(t, Fail(TooManyArguments(|args|)))
    else
      var a := if |args| == 1 then ApplySource(t, args[0]) else Applied(t, Pass);
      if a.outcome.Fail? || kwargs == [] then a else UpdateSpec(a.table, [PlainDict(kwargs)], [])
  }

  /**
   * `__init__(*args, **kwargs)` on the existing store: a plain dict source
   * has its list and tuple values spread, any other source goes through
   * `update`; the keyword arguments are then applied the same way as a dict.
   */
  function InitSpec<K(==, !new), A>(t: Table<K, Value<A>>, args: seq<Source<K, Value<A>>>, kwargs: seq<(K, Value<A>)>): (r: Applied<K, Value<A>>)
    requires Valid(t)
    ensures Valid(r.table)
    decreases |kwargs|
  {
    if |args| > 1 then Applied(t, Fail(TooManyArguments(|args|)))
    else
      var a :=
        if |args| == 0 then Applied(t, Pass)
        else match args[0]
          case PlainDict(entries) => Applied(ExtendEntries(t, SpreadLists(entries)), Pass)
          case _ => UpdateSpec(t, args, []);
      if a.outcome.Fail? || kwargs == [] then a else InitSpec(a.table, [PlainDict(kwargs)], [])
  }

  /** The store handed to the constructor by `copy`: a dict whose values are the lists themselves. */
  function AsDict<K(==, !new), A>(t: Table<K, Value<A>>): (r: seq<(K, Value<A>)>)
    requires Valid(t)
    ensures SpreadLists(r) == Items(t)
  {
    var r := seq(|t.keys|, i requires 0 <= i < |t.keys| => (t.keys[i], ListOrTuple(t.data[t.keys[i]])));
    assert SpreadLists(r) == Items(t);
    r
  }

  // What the specification functions promise

  /** More than one positional argument is refused before anything changes. */
  lemma TooManyArgumentsChangeNothing<K(!new), A>(t: Table<K, Value<A>>, args: seq<Source<K, Value<A>>>, kwargs: seq<(K, Value<A>)>)
    requires Valid(t) && |args| > 1
    ensures UpdateSpec(t, args, kwargs) == Applied(t, Fail(TooManyArguments(|args|)))
    ensures InitSpec(t, args, kwargs) == Applied(t, Fail(TooManyArguments(|args|)))
  {
  }

  /**
   * Updating from a pair sequence appends the values of the pairs before
   * the first bad element to their keys' lists in encounter order; existing
   * keys keep their place and new keys follow in first-seen order.
   */
  lemma UpdatePairs<K(!new), V>(t: Table<K, V>, elements: seq<Element<K, V>>, k: K)
    requires Valid(t)
    ensures var r := UpdateSpec(t, [Pairs(elements)], []).table;
      var done := PairsOf(elements[..FirstBad(elements)]);
      && Lookup(r, k) == Lookup(t, k) + Matching(done, k)
      && t.keys <= r.keys
      && r.keys == Dedup(t.keys + KeysOf(done))
  {
    var done := PairsOf(elements[..FirstBad(elements)]);
    assert UpdateSpec(t, [Pairs(elements)], []).table == AppendEntries(t, done);
    AppendEntriesLookup(t, done, k);
    AppendEntriesKeys(t, done);
  }

  /**
   * A pair update fails exactly when some element is not a pair, and then
   * names the first such element: TypeError for one that is not a
   * sequence, ValueError with its length for one of the wrong length.
   */
  lemma UpdatePairsOutcome<K(!new), V>(t: Table<K, V>, elements: seq<Element<K, V>>)
    requires Valid(t)
    ensures var r := UpdateSpec(t, [Pairs(elements)], []);
      var i := FirstBad(elements);
      && (r.outcome.Pass? <==> forall j | 0 <= j < |elements| :: elements[j].Pair?)
      && (r.outcome.Fail? ==> forall j | 0 <= j < i :: elements[j].Pair?)
      && (r.outcome == Fail(ElementNotSequence(i)) <==> i < |elements| && elements[i].NonSequence?)
      && (r.outcome.Fail? && elements[i].BadLength? ==> r.outcome == Fail(ElementWrongLength(i, elements[i].length)))
  {
    var i := FirstBad(elements);
    assert UpdateSpec(t, [Pairs(elements)], []).outcome == ApplySource(t, Pairs(elements)).outcome;
    if i < |elements| {
      assert !elements[i].Pair?;
    }
  }

  /** A failed pair update still holds one more value for every element before the bad one. */
  lemma UpdatePairsTotal<K(!new), V>(t: Table<K, V>, elements: seq<Element<K, V>>)
    requires Valid(t)
    ensures TotalLength(UpdateSpec(t, [Pairs(elements)], []).table) == TotalLength(t) + FirstBad(elements)
  {
    var done := PairsOf(elements[..FirstBad(elements)]);
    assert UpdateSpec(t, [Pairs(elements)], []).table == AppendEntries(t, done);
    TotalLengthAppendEntries(t, done);
  }

  /** Updating from another multi-valued dictionary extends each key's list by that dictionary's whole list. */
  lemma UpdateMultiDict<K(!new), V>(t: Table<K, V>, u: Table<K, V>, k: K)
    requires Valid(t) && Valid(u)
    ensures var r := UpdateSpec(t, [MultiDict(Items(u))], []);
      r.outcome == Pass && Lookup(r.table, k) == Lookup(t, k) + Lookup(u, k)
  {
    MergeLookup(t, u, k);
  }

  /** In a source with distinct keys, the pair for key `entries[i].0` is the only one that contributes. */
  lemma MatchingDistinct<K(!new), V>(entries: seq<(K, V)>, i: nat)
    requires i < |entries| && Distinct(KeysOf(entries))
    ensures Matching(entries, entries[i].0) == [entries[i].1]
  {
    SingletonsFacts(entries, entries[i].0);
    ValuesForDistinct(Singletons(entries), i);
  }

  /** Updating from a plain dict appends each value whole, lists included. */
  lemma UpdatePlainDict<K(!new), V>(t: Table<K, V>, entries: seq<(K, V)>, i: nat)
    requires Valid(t) && i < |entries| && Distinct(KeysOf(entries))
    ensures var r := UpdateSpec(t, [PlainDict(entries)], []);
      r.outcome == Pass && Lookup(r.table, entries[i].0) == Lookup(t, entries[i].0) + [entries[i].1]
  {
    AppendEntriesLookup(t, entries, entries[i].0);
    MatchingDistinct(entries, i);
  }

  /** Keyword arguments are a plain dict applied after the positional source. */
  lemma UpdateKeywords<K(!new), V>(t: Table<K, V>, kwargs: seq<(K, V)>, i: nat)
    requires Valid(t) && i < |kwargs| && Distinct(KeysOf(kwargs))
    ensures var r := UpdateSpec(t, [], kwargs);
      r.outcome == Pass && Lookup(r.table, kwargs[i].0) == Lookup(t, kwargs[i].0) + [kwargs[i].1]
  {
    UpdatePlainDict(t, kwargs, i);
  }

  /**
   * The constructor spreads a plain dict's list and tuple values element by
   * element where `update` would append them whole.
   */
  lemma InitSpreadsDictValues<K(!new), A>(t: Table<K, Value<A>>, entries: seq<(K, Value<A>)>, i: nat)
    requires Valid(t) && i < |entries| && Distinct(KeysOf(entries))
    ensures var k := entries[i].0;
      && InitSpec(t, [PlainDict(entries)], []) == Applied(ExtendEntries(t, SpreadLists(entries)), Pass)
      && Lookup(InitSpec(t, [PlainDict(entries)], []).table, k) == Lookup(t, k) + Spread(entries[i].1)
      && Lookup(UpdateSpec(t, [PlainDict(entries)], []).table, k) == Lookup(t, k) + [entries[i].1]
  {
    var k := entries[i].0;
    ExtendEntriesLookup(t, SpreadLists(entries), k);
    ValuesForDistinct(SpreadLists(entries), i);
    UpdatePlainDict(t, entries, i);
  }

  /** Constructing from a store handed over as a dict of lists rebuilds that store exactly. */
  lemma InitFromOwnData<K(!new), A>(t: Table<K, Value<A>>)
    requires Valid(t)
    ensures InitSpec(Empty(), [PlainDict(AsDict(t))], []) == Applied(t, Pass)
  {
    CopyRoundTrip(t);
  }

  /** `fromkeys(ks, v)` holds one entry per distinct key of `ks`, in first-seen order. */
  lemma FromKeysKeys<K(!new), A>(ks: seq<K>, v: Value<A>)
    ensures var r := InitSpec(Empty(), [PlainDict(DictFromKeys(ks, v))], []);
      r.outcome == Pass && r.table.keys == Dedup(ks)
  {
    var entries := DictFromKeys(ks, v);
    var lists := SpreadLists(entries);
    var e := Empty<K, Value<A>>();
    assert InitSpec(e, [PlainDict(entries)], []) == Applied(ExtendEntries(e, lists), Pass);
    ExtendEntriesKeys(e, lists);
    assert KeysOf(lists) == Dedup(ks);
    assert e.keys + KeysOf(lists) == Dedup(ks);
    DedupOfDistinct(Dedup(ks));
  }

  /** Each key of `fromkeys(ks, v)` holds `v` spread as the constructor spreads it; no other key is present. */
  lemma FromKeysLookup<K(!new), A>(ks: seq<K>, v: Value<A>, k: K)
    ensures var r := InitSpec(Empty(), [PlainDict(DictFromKeys(ks, v))], []).table;
      && (k in ks ==> Lookup(r, k) == Spread(v))
      && (k !in ks ==> k !in r.data)
  {
    var entries := DictFromKeys(ks, v);
    var lists := SpreadLists(entries);
    var e := Empty<K, Value<A>>();
    assert InitSpec(e, [PlainDict(entries)], []).table == ExtendEntries(e, lists);
    ExtendEntriesLookup(e, lists, k);
    if k in ks {
      var i :| 0 <= i < |Dedup(ks)| && Dedup(ks)[i] == k;
      assert KeysOf(lists)[i] == k;
      ValuesForDistinct(lists, i);
    } else {
      FromKeysKeys(ks, v);
    }
  }

  /** Reversing a key's list twice restores it; only the default factory's insertion of the key remains. */
  lemma ReverseTwice<K(!new), V>(t: Table<K, V>, k: K)
    requires Valid(t)
    ensures var once := Put(t, k, PyList.Reversed(Lookup(t, k)));
      Put(once, k, PyList.Reversed(Lookup(once, k))) == Touch(t, k)
  {
    var once := Put(t, k, PyList.Reversed(Lookup(t, k)));
    var twice := Put(once, k, PyList.Reversed(Lookup(once, k)));
    PyList.ReversedTwice(Lookup(t, k));
    TableExtensionality(twice, Touch(t, k));
  }

  /** The store's loop for a plain dict in `__init__`: extend with list and tuple values, append others. */
  method SpreadEach<K(==, !new), A>(t: Table<K, Value<A>>, entries: seq<(K, Value<A>)>) returns (r: Table<K, Value<A>>)
    requires Valid(t)
    ensures Valid(r) && r == ExtendEntries(t, SpreadLists(entries))
  {
    r := t;
    for j := 0 to |entries|
      invariant Valid(r) && r == ExtendEntries(t, SpreadLists(entries[..j]))
    {
      var key, value := entries[j].0, entries[j].1;
      assert SpreadLists(entries[..j + 1])[..j] == SpreadLists(entries[..j]);
      match value {
        case ListOrTuple(items) => r := Extend(r, key, items);
        case Atom(_) => r := Extend(r, key, [value]);
      }
    }
    assert entries[..|entries|] == entries;
  }

  /** The argument of `__eq__`: a plain mapping, or another multi-valued dictionary. */
  datatype Operand<K(==, !new), A(==, !new)> = Mapping(entries: map<K, seq<Value<A>>>) | Instance(other: MultivaluedDict<K, A>)

  class MultivaluedDict<K(==, !new), A(==, !new)> {
    /** `self.data`, the `defaultdict(list)` behind the dictionary. */
    var data: Table<K, Value<A>>

    ghost predicate Valid()
      reads this
    {
      DefaultDict.Valid(data)
    }

    /** `self.data = defaultdict(list)`: a fresh, empty store. */
    constructor ()
      ensures Valid() && data == Empty()
    {
      data := Empty();
    }

    /** `multivalued_dict(*args, **kwargs)`: a new dictionary, or the exception its initialisation raises. */
    static method New(args: seq<Source<K, Value<A>>>, kwargs: seq<(K, Value<A>)>) returns (r: Result<MultivaluedDict<K, A>, Error<K, Value<A>>>)
      ensures var spec := InitSpec(Empty(), args, kwargs);
        && (r.Success? <==> spec.outcome.Pass?)
        && (r.Success? ==> fresh(r.value) && r.value.Valid() && r.value.data == spec.table)
        && (r.Failure? ==> spec.outcome == Fail(r.error))
    {
      var d := new MultivaluedDict();
      var outcome := d.Init(args, kwargs);
      r := if outcome.Pass? then Success(d) else Failure(outcome.error);
    }

    /** `__init__`: a plain dict's list and tuple values are spread, other sources go through `update`. */
    method Init(args: seq<Source<K, Value<A>>>, kwargs: seq<(K, Value<A>)>) returns (r: Outcome<Error<K, Value<A>>>)
      requires Valid()
      modifies this
      ensures Valid() && Applied(data, r) == InitSpec(old(data), args, kwargs)
      decreases |kwargs|
    {
      if |args| > 1 {
        return Fail(TooManyArguments(|args|));
      }
      r := Pass;
      if |args| == 1 {
        match args[0] {
          case PlainDict(entries) => data := SpreadEach(data, entries);
          case _ => r := Update(args, []);
        }
      }
      if r.Pass? && kwargs != [] {
        r := Init([PlainDict(kwargs)], []);
      }
    }

    /** The body of `update` for its one positional argument. */
    method ApplyOne(source: Source<K, Value<A>>) returns (r: Outcome<Error<K, Value<A>>>)
      requires Valid()
      modifies this
      ensures Valid() && Applied(data, r) == ApplySource(old(data), source)
    {
      r := Pass;
      match source {
        case NonIterable => r := Fail(SourceNotIterable);
        case MultiDict(lists) => data := ExtendEach(data, lists);
        case PlainDict(entries) => data := AppendEach(data, entries);
        case Pairs(elements) =>
          var i;
          data, i := AppendLeadingPairs(data, elements);
          if i < |elements| {
            r := Fail(PairError(elements, i));
          }
      }
    }

    /** `update`: merges one positional source, then the keyword arguments. */
    method Update(args: seq<Source<K, Value<A>>>, kwargs: seq<(K, Value<A>)>) returns (r: Outcome<Error<K, Value<A>>>)
      requires Valid()
      modifies this
      ensures Valid() && Applied(data, r) == UpdateSpec(old(data), args, kwargs)
      decreases |kwargs|
    {
      if |args| > 1 {
        return Fail(TooManyArguments(|args|));
      }
      r := Pass;
      if |args| == 1 {
        r := ApplyOne(args[0]);
      }
      if r.Pass? && kwargs != [] {
        r := Update([PlainDict(kwargs)], []);
      }
    }

    /** `fromkeys(iterable, value)`: the constructor applied to `dict.fromkeys(iterable, value)`. */
    static method FromKeys(iterable: seq<K>, value: Value<A>) returns (d: MultivaluedDict<K, A>)
      ensures fresh(d) && d.Valid()
      ensures d.data.keys == Dedup(iterable)
      ensures forall k | k in iterable :: Lookup(d.data, k) == Spread(value)
    {
      d := new MultivaluedDict();
      var outcome := d.Init([PlainDict(DictFromKeys(iterable, value))], []);
      FromKeysKeys(iterable, value);
      forall k | k in iterable ensures Lookup(d.data, k) == Spread(value) {
        FromKeysLookup(iterable, value, k);
      }
    }

    /** `copy`: a new dictionary built from this one's store, with the same keys, order and lists. */
    method Copy() returns (c: MultivaluedDict<K, A>)
      requires Valid()
      ensures fresh(c) && c.Valid() && c.data == data
    {
      c := new MultivaluedDict();
      var outcome := c.Init([PlainDict(AsDict(data))], []);
      InitFromOwnData(data);
    }

    /** `len(d)`: the number of keys. */
    function Len(): (n: nat)
      reads this
      requires Valid()
      ensures n == |data.keys|
    {
      KeyCount(data);
      |data.data|
    }

    /**
     * `__lenvalue__(key)`: with no key, the number of values over all keys;
     * with a key, the length of its list, read through the default factory.
     */
    method LenValue(key: Option<K>) returns (n: nat)
      requires Valid()
      modifies this
      ensures Valid()
      ensures key.None? ==> data == old(data) && n == TotalLength(data)
      ensures key.Some? ==> data == Touch(old(data), key.value) && n == |Lookup(old(data), key.value)|
    {
      match key {
        case None => n := TotalLength(data);
        case Some(k) =>
          data := Touch(data, k);
          n := |data.data[k]|;
      }
    }

    /** `d[key]`: the key's list; an absent key raises KeyError and is not inserted. */
    function GetItem(key: K): (r: Result<seq<Value<A>>, Error<K, Value<A>>>)
      reads this
      requires Valid()
      ensures r.Success? <==> key in data.keys
      ensures r.Success? ==> r.value == Lookup(data, key)
      ensures r.Failure? ==> r.error == KeyNotFound(key)
    {
      if key in data.data then Success(data.data[key]) else Failure(KeyNotFound(key))
    }

    /** `__matchkv__(key, value)`: whether the key's list holds the value; an absent key is inserted. */
    method MatchKV(key: K, value: Value<A>) returns (b: bool)
      requires Valid()
      modifies this
      ensures Valid() && data == Touch(old(data), key)
      ensures b <==> PyList.Count(Lookup(old(data), key), value) > 0
    {
      data := Touch(data, key);
      b := value in data.data[key];
    }

    /** `__eq__` as written: `dict.__eq__` of the store, which gives up on a multi-valued operand, so `==` falls back to identity. */
    function EqualsAsWritten(o: Operand<K, A>): (b: bool)
      reads this, if o.Instance? then {o.other} else {}
      ensures o.Instance? && b ==> o.other.data == data
    {
      match o
      case Mapping(m) => data.data == m
      case Instance(d) => d == this
    }

    /** `__eq__` as intended: dict equality of the stores, whatever the operand's kind. */
    function Equals(o: Operand<K, A>): (b: bool)
      reads this, if o.Instance? then {o.other} else {}
      ensures EqualsAsWritten(o) ==> b
      ensures o.Mapping? ==> (b <==> EqualsAsWritten(o))
    {
      match o
      case Mapping(m) => data.data == m
      case Instance(d) => data.data == d.data.data
    }

    /** `key in d`: membership, without inserting. */
    function Contains(key: K): (b: bool)
      reads this
      requires Valid()
      ensures b <==> key in data.keys
      ensures b <==> GetItem(key).Success?
    {
      key in data.data
    }

    /** `__delkv__`: removes every, the first or the last occurrence of a value from a key's list. */
    method DelKV(key: K, value: Value<A>, allkv: bool, direction: string) returns (r: Outcome<Error<K, Value<A>>>)
      requires Valid()
      modifies this
      ensures Valid() && Applied(data, r) == DefaultDict.DelKV(old(data), key, value, allkv, direction)
    {
      if direction != START_POS && direction != END_POS {
        return Fail(InvalidDirection);
      }
      data := Touch(data, key);
      var s := data.data[key];
      r := Pass;
      if allkv {
        s := PyList.RemoveEach(s, value);
        data := Put(data, key, s);
      } else if direction == START_POS {
        match PyList.Remove(s, value) {
          case None => r := Fail(ValueNotFound);
          case Some(rest) => data := Put(data, key, rest);
        }
      } else {
        s := PyList.RemoveLastOccurrence(s, value);
        data := Put(data, key, s);
      }
    }

    /** `del d[key]`: the key and its list go; an absent key raises KeyError. */
    method DelItem(key: K) returns (r: Outcome<Error<K, Value<A>>>)
      requires Valid()
      modifies this
      ensures Valid()
      ensures key in old(data.data) ==> r == Pass && data == Delete(old(data), key)
      ensures key !in old(data.data) ==> r == Fail(KeyNotFound(key)) && data == old(data)
    {
      if key in data.data {
        data := Delete(data, key);
        r := Pass;
      } else {
        r := Fail(KeyNotFound(key));
      }
    }

    /** `d[key] = item`: the key's list becomes exactly `[item]`, whatever it held. */
    method SetItem(key: K, item: Value<A>)
      requires Valid()
      modifies this
      ensures Valid() && data == Put(old(data), key, [item])
      ensures Lookup(data, key) == [item]
      ensures data.keys == if key in old(data.data) then old(data.keys) else old(data.keys) + [key]
      ensures forall j | j != key :: Lookup(data, j) == Lookup(old(data), j)
    {
      data := Put(data, key, [item]);
    }

    /** `get(key, default)`: the key's list, or `[default]` for an absent key, which is not inserted. */
    function Get(key: K, default: Value<A>): (r: seq<Value<A>>)
      reads this
      requires Valid()
      ensures key in data.keys ==> r == Lookup(data, key)
      ensures key !in data.keys ==> r == [default]
    {
      if key in data.data then data.data[key] else [default]
    }

    /** `count(key, value)`: occurrences of the value in the key's list; an absent key is inserted. */
    method Count(key: K, value: Value<A>) returns (n: nat)
      requires Valid()
      modifies this
      ensures Valid() && data == Touch(old(data), key)
      ensures n == multiset(Lookup(old(data), key))[value]
    {
      data := Touch(data, key);
      n := PyList.Count(data.data[key], value);
    }

    /** `setdefault(key, default)`: an absent key is inserted with `[default]`; the key's list is returned. */
    method SetDefault(key: K, default: Value<A>) returns (r: seq<Value<A>>)
      requires Valid()
      modifies this
      ensures Valid()
      ensures key in old(data.data) ==> r == old(data.data[key]) && data == old(data)
      ensures key !in old(data.data) ==> r == [default] && data == Put(old(data), key, [default])
    {
      if key in data.data {
        r := data.data[key];
      } else {
        r := [default];
        data := Put(data, key, r);
      }
    }

    /**
     * `pop(key, default)`: a present key is removed and its list returned;
     * for an absent key nothing changes and `[default]` is returned, or
     * KeyError raised when no default is given.
     */
    method Pop(key: K, default: Option<Value<A>>) returns (r: Result<seq<Value<A>>, Error<K, Value<A>>>)
      requires Valid()
      modifies this
      ensures Valid()
      ensures key in old(data.data) ==> r == Success(old(data.data[key])) && data == Delete(old(data), key)
      ensures key !in old(data.data) ==> data == old(data)
      ensures key !in old(data.data) && default.None? ==> r == Failure(KeyNotFound(key))
      ensures key !in old(data.data) && default.Some? ==> r == Success([default.value])
    {
      if key in data.data {
        r := Success(data.data[key]);
        data := Delete(data, key);
      } else if default.None? {
        r := Failure(KeyNotFound(key));
      } else {
        r := Success([default.value]);
      }
    }

    /** `popitem()`: removes and returns the most recently inserted key with its list. */
    method PopItem() returns (r: Result<(K, seq<Value<A>>), Error<K, Value<A>>>)
      requires Valid()
      modifies this
      ensures Valid()
      ensures old(data.keys) == [] ==> r == Failure(EmptyDictionary) && data == old(data)
      ensures old(data.keys) != [] ==>
        var last := old(data.keys)[|old(data.keys)| - 1];
        && r == Success((last, old(data.data)[last]))
        && data.keys == old(data.keys)[..|old(data.keys)| - 1]
        && data == Delete(old(data), last)
    {
      if data.keys == [] {
        return Failure(EmptyDictionary);
      }
      var last := data.keys[|data.keys| - 1];
      DeleteLast(data);
      r := Success((last, data.data[last]));
      data := Delete(data, last);
    }

    /** `items()`: each key with its list, in key order. */
    function Items(): (r: seq<(K, seq<Value<A>>)>)
      reads this
      requires Valid()
      ensures KeysOf(r) == data.keys
      ensures forall p :: p in r <==> p.0 in data.data && p.1 == data.data[p.0]
    {
      ItemsView(data);
      DefaultDict.Items(data)
    }

    /** `keys()`: each key once, in insertion order. */
    function Keys(): (r: seq<K>)
      reads this
      requires Valid()
      ensures |r| == Len()
      ensures forall k :: k in r <==> k in data.data
      ensures forall i | 0 <= i < |r| :: r[i] == Items()[i].0
    {
      data.keys
    }

    /** `values()`: each key's list, in key order. */
    function Values(): (r: seq<seq<Value<A>>>)
      reads this
      requires Valid()
      ensures |r| == |data.keys|
      ensures forall i | 0 <= i < |r| :: r[i] == Lookup(data, data.keys[i])
    {
      DefaultDict.Values(data)
    }

    /** `clear()`: no keys remain. */
    method Clear()
      requires Valid()
      modifies this
      ensures Valid() && data == Empty()
    {
      data := Empty();
    }

    /** `reverse(key)`: the key's list in the opposite order; an absent key is inserted with an empty list. */
    method Reverse(key: K)
      requires Valid()
      modifies this
      ensures Valid()
      ensures data.keys == Touch(old(data), key).keys
      ensures Lookup(data, key) == PyList.Reversed(Lookup(old(data), key))
      ensures forall j | j != key :: Lookup(data, j) == Lookup(old(data), j)
      ensures data == Put(old(data), key, PyList.Reversed(Lookup(old(data), key)))
    {
      data := Touch(data, key);
      data := Put(data, key, PyList.Reversed(data.data[key]));
    }
  }

  /**
   * Two distinct dictionaries with the same contents: `__eq__` as written
   * says they differ, the corrected comparison says they are equal.
   */
  method EqualsAsWrittenCounterexample() returns (a: MultivaluedDict<string, string>, b: MultivaluedDict<string, string>)
    ensures a.data == b.data
    ensures !a.EqualsAsWritten(Instance(b))
    ensures a.Equals(Instance(b))
  {
    a := new MultivaluedDict();
    a.SetItem("a", Atom("x"));
    b := new MultivaluedDict();
    b.SetItem("a", Atom("x"));
  }

  /** As written, a dictionary equals another one only when they are the same object. */
  lemma EqualsAsWrittenIsIdentity<K(!new), A(!new)>(a: MultivaluedDict<K, A>, b: MultivaluedDict<K, A>)
    ensures a.EqualsAsWritten(Instance(b)) <==> a == b
  {
  }

  /** The corrected comparison is dict equality: it ignores key order and compares the items. */
  lemma EqualsIgnoresOrder<K(!new), A(!new)>(a: MultivaluedDict<K, A>, b: MultivaluedDict<K, A>)
    requires a.Valid() && b.Valid()
    ensures a.Equals(Instance(b)) <==> (forall p :: p in Items(a.data) <==> p in Items(b.data))
    ensures a.Equals(Instance(b)) <==> b.Equals(Instance(a))
  {
    SameDataIffSameItems(a.data, b.data);
  }

  /** Against a plain mapping, the comparison as written and the corrected one agree. */
  lemma EqualsMappingUnchanged<K(!new), A(!new)>(a: MultivaluedDict<K, A>, m: map<K, seq<Value<A>>>)
    ensures a.EqualsAsWritten(Mapping(m)) == a.Equals(Mapping(m))
  {
  }
}
