# multivalued_dict in Dafny

This project models `multivalued_dict`, a dictionary in which every key maps
to a list of values. It models two versions of the class:

- the packaged version, `src/multivalued_dict_package/multivalued_dict_module.py`
  (module `MultivaluedDictModule`);
- the earlier root-level version, `multivalued_dict.py` (module
  `LegacyMultivaluedDict`).

Both versions keep their entries in a `defaultdict(list)` called `data`.
Module `DefaultDict` models that store as a `Table`: the key order (Python
dicts keep insertion order) plus a map from key to list. The model keeps one
behaviour of the store that matters throughout. Reading `data[key]` for an
absent key inserts that key with an empty list at the end of the key order
(`Touch`). `__lenvalue__(key)`, `__matchkv__`, `count`, `reverse` and
`__delkv__` all read the store this way, so they can add a key. `get`,
`__getitem__`, `__contains__` and `pop` do not.

Each class is a Dafny `class` with the field `data` and the invariant
`Valid()`. Every key in the order is distinct, and the order lists exactly the
keys of the map. Methods that change the dictionary have a `modifies` clause,
and their `ensures` relates the new `data` to the old one. Methods that take
arguments of a dynamic shape (`__init__`, `update`, `__delkv__`) are proved
equal to a specification function (`InitSpec`, `UpdateSpec`,
`DefaultDict.DelKV`). The properties are then proved as lemmas about those
functions.

- Module `Shapes` gives Python's run-time shapes as datatypes:
  - a stored value is a list or tuple, or something else (`Value`);
  - an update element is a pair, an iterable of another length, or not
    iterable (`Element`);
  - a positional argument is a multi-valued source, a plain dict, another
    iterable, or not iterable (`Source`);
  - `Error` lists the exceptions.
- Module `PyList` models the list methods the class uses (`count`,
  `remove`, `reverse`) and the two deletion loops of `__delkv__`.
- Module `Wrappers` holds `Option`, `Result` and `Outcome`.

Where the code and its documented behaviour differ, the model follows the
code:

- Validation of a sequence of pairs is fail-fast, not batch. `update` appends
  every pair before the first bad element, then raises an error naming only
  that element. `UpdatePairs` and `UpdatePairsOutcome` state this.
- The packaged `fromkeys` builds a plain dict and passes it to the
  constructor, so a list or tuple value is spread over the key's list
  (`FromKeysLookup`). The root-level `fromkeys` appends the value whole.
- `reverse` of an absent key does not fail. It inserts the key with an empty
  list.
- `__delkv__` with `allkv=False` and `END_POS` removes nothing and raises
  nothing when the value is absent, though an absent key is still inserted
  with an empty list. `START_POS` raises ValueError.
- Rebuilding from `items()` through the pair path does not round-trip: each
  key then gets one element, its whole list (docstring, lines 172-174 of the
  packaged module). What does round-trip is `copy`, which passes `self.data`
  back to the constructor (`InitFromOwnData`, `CopyRoundTrip`).
- Equality as written is identity between two dictionaries (see Findings).

## Model

| member | source | states |
|---|---|---|
| PyList.Count | src/multivalued_dict_package/multivalued_dict_module.py:351 | `list.count` is the value's multiplicity, and it is positive exactly when the value is in the list |
| PyList.Remove | src/multivalued_dict_package/multivalued_dict_module.py:292 | `list.remove` fails exactly when the value is absent; otherwise it deletes the lowest-index occurrence and keeps everything else in order |
| PyList.RemoveLast | src/multivalued_dict_package/multivalued_dict_module.py:293-298 | deleting the highest-index occurrence; a list without the value is unchanged |
| PyList.RemoveAll | src/multivalued_dict_package/multivalued_dict_module.py:287-289 | after removing every occurrence the value is absent, and every other element keeps its multiplicity |
| PyList.RemoveThenRemoveAll | src/multivalued_dict_package/multivalued_dict_module.py:288-289 | one `remove` step does not change what removing every occurrence leaves (the loop's variant step) |
| PyList.RemoveEach | src/multivalued_dict_package/multivalued_dict_module.py:287-289 | the `while value in l: l.remove(value)` loop ends with exactly the occurrences of the value removed |
| PyList.RemoveLastOccurrence | src/multivalued_dict_package/multivalued_dict_module.py:294-298 | the backwards scan that deletes the first match from the end equals deleting the last occurrence |
| PyList.RemoveAllSubsequence | src/multivalued_dict_package/multivalued_dict_module.py:287-289 | removing every occurrence keeps the other values in their original order |
| PyList.Reversed | src/multivalued_dict_package/multivalued_dict_module.py:567 | `list.reverse` puts element i at position len-1-i |
| PyList.ReversedTwice | src/multivalued_dict_package/multivalued_dict_module.py:567 | reversing twice restores the list |
| Shapes.Spread | src/multivalued_dict_package/multivalued_dict_module.py:149-152 | a list or tuple value gives its elements; any other value gives a one-element list of itself |
| DefaultDict.Empty | src/multivalued_dict_package/multivalued_dict_module.py:144 | a fresh `defaultdict(list)` has no keys and satisfies the store invariant |
| DefaultDict.Touch | src/multivalued_dict_package/multivalued_dict_module.py:233 | reading `data[key]` adds an absent key at the end of the key order and changes no list |
| DefaultDict.Put | src/multivalued_dict_package/multivalued_dict_module.py:329 | assigning a key replaces its list, keeps its position (or appends a new key) and leaves other keys alone |
| DefaultDict.Extend | src/multivalued_dict_package/multivalued_dict_module.py:409 | `data[key].extend(vs)` appends vs to the key's list, inserting an absent key last, and leaves other keys alone |
| DefaultDict.Delete | src/multivalued_dict_package/multivalued_dict_module.py:310 | deleting a key removes it from the map and the order; other keys, their lists and their order stay |
| DefaultDict.DeleteLast | src/multivalued_dict_package/multivalued_dict_module.py:477 | `popitem` removes the most recently inserted key, leaving the order's prefix |
| DefaultDict.Items | src/multivalued_dict_package/multivalued_dict_module.py:511 | `items()` pairs each key, in key order, with its list |
| DefaultDict.Values | src/multivalued_dict_package/multivalued_dict_module.py:541 | `values()` is the lists of the items, in the same order |
| DefaultDict.ItemsMembership | src/multivalued_dict_package/multivalued_dict_module.py:511 | a pair is among the items exactly when it is a key with its list |
| DefaultDict.ItemsView | src/multivalued_dict_package/multivalued_dict_module.py:511 | the items view holds exactly the key-list associations of the store |
| DefaultDict.SameDataIffSameItems | src/multivalued_dict_package/multivalued_dict_module.py:248 | two stores map keys to the same lists exactly when their items agree as sets, whatever their key order |
| DefaultDict.KeyCount | src/multivalued_dict_package/multivalued_dict_module.py:188 | the number of keys in the map equals the length of the key order |
| DefaultDict.TotalLength | src/multivalued_dict_package/multivalued_dict_module.py:200 | the sum of the list lengths: no list is longer than it, and it is zero exactly when every list is empty |
| DefaultDict.TotalLengthPut | src/multivalued_dict_package/multivalued_dict_module.py:200 | the total number of values changes by the new list's length less the old one's when a key is reassigned |
| DefaultDict.ExtendEntries | src/multivalued_dict_package/multivalued_dict_module.py:408-409 | extending key by key from a multi-valued source keeps the store invariant |
| DefaultDict.AppendEntries | src/multivalued_dict_package/multivalued_dict_module.py:411-412 | appending value by value keeps the store invariant |
| DefaultDict.AppendEntriesSnoc | src/multivalued_dict_package/multivalued_dict_module.py:420-421 | one more pair appends its value to its key after all earlier pairs |
| DefaultDict.Dedup | src/multivalued_dict_package/multivalued_dict_module.py:111 | the key order of `dict.fromkeys` has no repeats and holds exactly the given keys |
| DefaultDict.DedupFirstSeen | src/multivalued_dict_package/multivalued_dict_module.py:111 | the keys are ordered by first occurrence |
| DefaultDict.DedupOfDistinct | src/multivalued_dict_package/multivalued_dict_module.py:111 | keys without repeats keep their order |
| DefaultDict.ExtendEntriesLookup | src/multivalued_dict_package/multivalued_dict_module.py:408-409 | after the merge a key's list is its old list followed by every list the source gives it, in order |
| DefaultDict.ExtendEntriesPrefix | src/multivalued_dict_package/multivalued_dict_module.py:408-409 | a merge keeps the existing keys first, in their order |
| DefaultDict.ExtendEntriesKeys | src/multivalued_dict_package/multivalued_dict_module.py:408-409 | the new key order is the old keys followed by the source's new keys in first-seen order |
| DefaultDict.SingletonsFacts | src/multivalued_dict_package/multivalued_dict_module.py:411-412 | appending values one by one is extending by one-element lists |
| DefaultDict.AppendEntriesLookup | src/multivalued_dict_package/multivalued_dict_module.py:411-412 | after appending pairs a key's list is its old list followed by that key's values in encounter order |
| DefaultDict.AppendEntriesKeys | src/multivalued_dict_package/multivalued_dict_module.py:411-412 | appending pairs keeps the old keys first and adds new keys in first-seen order |
| DefaultDict.TotalLengthAppendEntries | src/multivalued_dict_package/multivalued_dict_module.py:420-421 | appending n pairs adds exactly n values in total |
| DefaultDict.ValuesForDistinct | src/multivalued_dict_package/multivalued_dict_module.py:408-409 | a source whose keys are distinct contributes to a key exactly that key's list |
| DefaultDict.ValuesForAbsent | src/multivalued_dict_package/multivalued_dict_module.py:408-409 | a key the source does not name gets nothing from it |
| DefaultDict.MergeLookup | src/multivalued_dict_package/multivalued_dict_module.py:407-409 | merging another multi-valued dictionary concatenates its list for each key onto ours |
| DefaultDict.CopyRoundTrip | src/multivalued_dict_package/multivalued_dict_module.py:496 | extending an empty store by a store's own items rebuilds that store exactly, key order included |
| DefaultDict.FirstBad | src/multivalued_dict_package/multivalued_dict_module.py:414-419 | the position of the first element that is not a pair; every earlier element is a pair |
| DefaultDict.PairsOfSnoc | src/multivalued_dict_package/multivalued_dict_module.py:420 | each accepted element contributes its key and value, in order |
| DefaultDict.FirstBadAt | src/multivalued_dict_package/multivalued_dict_module.py:414-419 | the position where the pair loop stops is the first element that is not a pair |
| DefaultDict.DictFromKeys | src/multivalued_dict_package/multivalued_dict_module.py:111 | `dict.fromkeys` has one entry per distinct key, in first-seen order, each with the given value |
| DefaultDict.ExtendEach | src/multivalued_dict_package/multivalued_dict_module.py:408-409 | the loop that extends each key's list computes the merge |
| DefaultDict.AppendEach | src/multivalued_dict_package/multivalued_dict_module.py:411-412 | the loop that appends each value computes the append merge |
| DefaultDict.AppendLeadingPairs | src/multivalued_dict_package/multivalued_dict_module.py:414-422 | the pair loop stops at the first element that is not a pair, having appended exactly the pairs before it |
| DefaultDict.DelKV | src/multivalued_dict_package/multivalued_dict_module.py:284-298 | `__delkv__` keeps the store invariant; it fails with the direction error exactly for a bad direction, otherwise only with ValueError; it never lengthens the key's list and leaves every other key's list alone (its branches: `DelKVAll`, `DelKVFirst`, `DelKVLast`) |
| DefaultDict.DelKVRejectsDirection | src/multivalued_dict_package/multivalued_dict_module.py:285 | a direction other than START_POS or END_POS fails before anything changes, even with `allkv` |
| DefaultDict.DelKVAll | src/multivalued_dict_package/multivalued_dict_module.py:287-289 | with `allkv` every occurrence goes, the other values keep their order and multiplicity, the key is inserted if absent, other keys stay |
| DefaultDict.DelKVFirst | src/multivalued_dict_package/multivalued_dict_module.py:291-292 | START_POS deletes the first occurrence, or fails with ValueError after inserting an absent key |
| DefaultDict.DelKVLast | src/multivalued_dict_package/multivalued_dict_module.py:293-298 | END_POS deletes the last occurrence, or changes no list when the value is absent |
| MultivaluedDictModule.SpreadLists | src/multivalued_dict_package/multivalued_dict_module.py:148-152 | a plain dict's value becomes the list of its elements when it is a list or tuple, else a one-element list; key order kept |
| MultivaluedDictModule.PairError | src/multivalued_dict_package/multivalued_dict_module.py:414-419 | a bad element is reported by its index, as TypeError when it is not a sequence and as ValueError with its length (never 2) otherwise |
| MultivaluedDictModule.ApplySource | src/multivalued_dict_package/multivalued_dict_module.py:403-422 | applying one positional argument keeps the store invariant on success and on failure |
| MultivaluedDictModule.UpdateSpec | src/multivalued_dict_package/multivalued_dict_module.py:400-424 | `update`, keyword arguments included, keeps the store invariant |
| MultivaluedDictModule.InitSpec | src/multivalued_dict_package/multivalued_dict_module.py:139-156 | `__init__`, keyword arguments included, keeps the store invariant |
| MultivaluedDictModule.AsDict | src/multivalued_dict_package/multivalued_dict_module.py:496 | the store read as a plain dict spreads back to exactly its items |
| MultivaluedDictModule.TooManyArgumentsChangeNothing | src/multivalued_dict_package/multivalued_dict_module.py:139-141 | more than one positional argument raises TypeError with the count and changes nothing, in `__init__` and `update` (lines 400-402) alike |
| MultivaluedDictModule.UpdatePairs | src/multivalued_dict_package/multivalued_dict_module.py:414-422 | a pair sequence appends exactly the pairs before the first bad element, per key in order, and adds new keys in first-seen order |
| MultivaluedDictModule.UpdatePairsOutcome | src/multivalued_dict_package/multivalued_dict_module.py:414-419 | the update succeeds exactly when every element is a pair; otherwise it reports the first bad element by index, as TypeError or as ValueError with its length |
| MultivaluedDictModule.UpdatePairsTotal | src/multivalued_dict_package/multivalued_dict_module.py:414-422 | the total number of values grows by the number of pairs accepted before the failure |
| MultivaluedDictModule.UpdateMultiDict | src/multivalued_dict_package/multivalued_dict_module.py:407-409 | a multi-valued source extends each key's list by the source's list |
| MultivaluedDictModule.MatchingDistinct | src/multivalued_dict_package/multivalued_dict_module.py:411-412 | a dict's key receives exactly its one value |
| MultivaluedDictModule.UpdatePlainDict | src/multivalued_dict_package/multivalued_dict_module.py:410-412 | `update` from a plain dict appends each value whole, lists included |
| MultivaluedDictModule.UpdateKeywords | src/multivalued_dict_package/multivalued_dict_module.py:423-424 | keyword arguments append one value to each named key |
| MultivaluedDictModule.InitSpreadsDictValues | src/multivalued_dict_package/multivalued_dict_module.py:147-152 | `__init__` from a plain dict spreads list and tuple values, unlike `update` from the same dict |
| MultivaluedDictModule.InitFromOwnData | src/multivalued_dict_package/multivalued_dict_module.py:496 | passing a dictionary's own store to the constructor rebuilds it exactly |
| MultivaluedDictModule.FromKeysKeys | src/multivalued_dict_package/multivalued_dict_module.py:111-112 | `fromkeys` succeeds with one key per distinct element of the iterable, in first-seen order |
| MultivaluedDictModule.FromKeysLookup | src/multivalued_dict_package/multivalued_dict_module.py:111-112 | each given key holds the spread value; no other key is present |
| MultivaluedDictModule.ReverseTwice | src/multivalued_dict_package/multivalued_dict_module.py:567 | reversing a key twice leaves the store as a single read of that key leaves it |
| MultivaluedDictModule.SpreadEach | src/multivalued_dict_package/multivalued_dict_module.py:148-152 | the constructor's loop over a plain dict computes the spread merge |
| MultivaluedDictModule.MultivaluedDict.constructor | src/multivalued_dict_package/multivalued_dict_module.py:143-144 | a new dictionary has an empty store |
| MultivaluedDictModule.MultivaluedDict.New | src/multivalued_dict_package/multivalued_dict_module.py:139-156 | construction succeeds exactly when `__init__` does, with its store, and otherwise raises its error |
| MultivaluedDictModule.MultivaluedDict.Init | src/multivalued_dict_package/multivalued_dict_module.py:139-156 | calling `__init__` again on a dictionary adds to its store as the specification says |
| MultivaluedDictModule.MultivaluedDict.ApplyOne | src/multivalued_dict_package/multivalued_dict_module.py:403-422 | the branches over the argument's shape change the store as the specification says |
| MultivaluedDictModule.MultivaluedDict.Update | src/multivalued_dict_package/multivalued_dict_module.py:400-424 | `update` changes the store and reports errors as the specification says |
| MultivaluedDictModule.MultivaluedDict.FromKeys | src/multivalued_dict_package/multivalued_dict_module.py:101-112 | a fresh dictionary whose keys are the distinct keys in first-seen order, each holding the spread value |
| MultivaluedDictModule.MultivaluedDict.Copy | src/multivalued_dict_package/multivalued_dict_module.py:496 | a fresh dictionary with the same keys, order and lists |
| MultivaluedDictModule.MultivaluedDict.Len | src/multivalued_dict_package/multivalued_dict_module.py:188 | the number of keys |
| MultivaluedDictModule.MultivaluedDict.LenValue | src/multivalued_dict_package/multivalued_dict_module.py:199-202 | without a key, the total number of values; with one, its list's length, the key being inserted if absent |
| MultivaluedDictModule.MultivaluedDict.GetItem | src/multivalued_dict_package/multivalued_dict_module.py:217-220 | a present key's list, else KeyError, without inserting |
| MultivaluedDictModule.MultivaluedDict.MatchKV | src/multivalued_dict_package/multivalued_dict_module.py:233 | true exactly when the value is in the key's list; an absent key is inserted |
| MultivaluedDictModule.MultivaluedDict.Contains | src/multivalued_dict_package/multivalued_dict_module.py:263 | true exactly for present keys, agreeing with `__getitem__` |
| MultivaluedDictModule.MultivaluedDict.EqualsAsWritten | src/multivalued_dict_package/multivalued_dict_module.py:248 | `__eq__` as written: against another dictionary it is true only for the same object, hence only with the same store |
| MultivaluedDictModule.MultivaluedDict.Equals | src/multivalued_dict_package/multivalued_dict_module.py:248 | `__eq__` as intended: true whenever the written one is, and the same as it against a plain mapping (`EqualsIgnoresOrder` states when it holds) |
| MultivaluedDictModule.MultivaluedDict.DelKV | src/multivalued_dict_package/multivalued_dict_module.py:284-298 | the two assertions and the three deletion branches change the store as `DefaultDict.DelKV` says |
| MultivaluedDictModule.MultivaluedDict.DelItem | src/multivalued_dict_package/multivalued_dict_module.py:310 | a present key is removed with its list; an absent key raises KeyError and changes nothing |
| MultivaluedDictModule.MultivaluedDict.SetItem | src/multivalued_dict_package/multivalued_dict_module.py:329 | the key's list becomes the one-element list of the item, keeping its position; other keys stay |
| MultivaluedDictModule.MultivaluedDict.Get | src/multivalued_dict_package/multivalued_dict_module.py:342 | a present key's list, else a one-element list of the default, without inserting |
| MultivaluedDictModule.MultivaluedDict.Count | src/multivalued_dict_package/multivalued_dict_module.py:351 | the value's multiplicity in the key's list; an absent key is inserted |
| MultivaluedDictModule.MultivaluedDict.SetDefault | src/multivalued_dict_package/multivalued_dict_module.py:441 | a present key's list and no change, else the key is added last with a one-element list of the default |
| MultivaluedDictModule.MultivaluedDict.Pop | src/multivalued_dict_package/multivalued_dict_module.py:461-464 | a present key is removed and its list returned; an absent one raises KeyError without a default, or returns a one-element list of the default; nothing else changes |
| MultivaluedDictModule.MultivaluedDict.PopItem | src/multivalued_dict_package/multivalued_dict_module.py:477 | the last inserted key and its list are removed and returned; on an empty dictionary KeyError |
| MultivaluedDictModule.MultivaluedDict.Items | src/multivalued_dict_package/multivalued_dict_module.py:511 | the key-list pairs in key order, exactly the store's associations |
| MultivaluedDictModule.MultivaluedDict.Keys | src/multivalued_dict_package/multivalued_dict_module.py:526 | as many keys as `len`, exactly the present ones, in insertion order (the keys of `items()`, position by position) |
| MultivaluedDictModule.MultivaluedDict.Values | src/multivalued_dict_package/multivalued_dict_module.py:541 | the lists in key order |
| MultivaluedDictModule.MultivaluedDict.Clear | src/multivalued_dict_package/multivalued_dict_module.py:555 | the store becomes empty |
| MultivaluedDictModule.MultivaluedDict.Reverse | src/multivalued_dict_package/multivalued_dict_module.py:567 | the key's list is reversed in place, an absent key is inserted with an empty list, other keys stay |
| MultivaluedDictModule.EqualsAsWrittenCounterexample | src/multivalued_dict_package/multivalued_dict_module.py:248 | two dictionaries with the same store compare unequal as written, and equal under the intended comparison |
| MultivaluedDictModule.EqualsAsWrittenIsIdentity | src/multivalued_dict_package/multivalued_dict_module.py:248 | as written, comparing two dictionaries is object identity |
| MultivaluedDictModule.EqualsIgnoresOrder | src/multivalued_dict_package/multivalued_dict_module.py:248 | the intended equality holds exactly when the two dictionaries have the same key-list pairs, whatever their key order, and it is symmetric |
| MultivaluedDictModule.EqualsMappingUnchanged | src/multivalued_dict_package/multivalued_dict_module.py:248 | against a plain mapping the correction changes nothing |
| LegacyMultivaluedDict.ApplySource | multivalued_dict.py:186-201 | applying one positional argument keeps the store invariant |
| LegacyMultivaluedDict.UpdateSpec | multivalued_dict.py:183-203 | `update`, keyword arguments included, keeps the store invariant |
| LegacyMultivaluedDict.InitSpec | multivalued_dict.py:73-83 | `__init__` keeps the store invariant |
| LegacyMultivaluedDict.InitIsUpdate | multivalued_dict.py:79-83 | `__init__` is `update` with the same arguments |
| LegacyMultivaluedDict.TooManyArgumentsChangeNothing | multivalued_dict.py:183-185 | more than one positional argument raises TypeError with the count and changes nothing, in `update` and `__init__` (lines 73-75) alike |
| LegacyMultivaluedDict.UpdateMultiDict | multivalued_dict.py:190-192 | a multi-valued source extends each key's list by the source's list |
| LegacyMultivaluedDict.PairError | multivalued_dict.py:198-199 | a wrong-length element raises KeyValuePairsError carrying that element; one with no length raises TypeError |
| LegacyMultivaluedDict.UpdatePairs | multivalued_dict.py:197-201 | a pair sequence appends exactly the pairs before the first bad element, per key in order, keeping the old keys first |
| LegacyMultivaluedDict.UpdatePairsOutcome | multivalued_dict.py:197-199 | success exactly when every element is a pair; a wrong-length element raises KeyValuePairsError carrying it, and one with no length raises TypeError |
| LegacyMultivaluedDict.PairUpdatesAgree | multivalued_dict.py:197-201 | on pair sequences the two versions leave the same store and fail on the same inputs |
| LegacyMultivaluedDict.InitKeepsDictValuesWhole | multivalued_dict.py:79-81 | the root-level constructor appends a plain dict's values whole where the packaged one spreads them |
| LegacyMultivaluedDict.FromKeysKeys | multivalued_dict.py:243-244 | `fromkeys` succeeds with one key per distinct element, in first-seen order |
| LegacyMultivaluedDict.FromKeysLookup | multivalued_dict.py:243-244 | each given key holds a one-element list of the value; no other key is present |
| LegacyMultivaluedDict.MultivaluedDict.constructor | multivalued_dict.py:77-78 | a new dictionary has an empty store |
| LegacyMultivaluedDict.MultivaluedDict.New | multivalued_dict.py:73-83 | construction succeeds exactly when `__init__` does, with its store, and otherwise raises its error |
| LegacyMultivaluedDict.MultivaluedDict.Init | multivalued_dict.py:73-83 | calling `__init__` on a dictionary changes its store as the specification says |
| LegacyMultivaluedDict.MultivaluedDict.ApplyOne | multivalued_dict.py:186-201 | the branches over the argument's shape change the store as the specification says |
| LegacyMultivaluedDict.MultivaluedDict.Update | multivalued_dict.py:183-203 | `update` changes the store and reports errors as the specification says |
| LegacyMultivaluedDict.MultivaluedDict.FromKeys | multivalued_dict.py:243-244 | a fresh dictionary whose keys are the distinct keys in first-seen order, each holding a one-element list of the value |
| LegacyMultivaluedDict.MultivaluedDict.Copy | multivalued_dict.py:215 | a fresh dictionary with the same keys, order and lists |
| LegacyMultivaluedDict.MultivaluedDict.LenValue | multivalued_dict.py:96-99 | without a key, the total number of values; with one, its list's length, the key being inserted if absent |
| LegacyMultivaluedDict.MultivaluedDict.MatchKV | multivalued_dict.py:111 | true exactly when the value is in the key's list; an absent key is inserted |
| LegacyMultivaluedDict.MultivaluedDict.DelKV | multivalued_dict.py:131-145 | the same deletion behaviour as the packaged version |
| LegacyMultivaluedDict.MultivaluedDict.Count | multivalued_dict.py:153 | the value's multiplicity in the key's list; an absent key is inserted |
| LegacyMultivaluedDict.MultivaluedDict.Reverse | multivalued_dict.py:209 | the key's list is reversed, an absent key is inserted, other keys stay |
| LegacyMultivaluedDict.MultivaluedDict.Items | multivalued_dict.py:221 | the key-list pairs in key order |
| LegacyMultivaluedDict.MultivaluedDict.Keys | multivalued_dict.py:227 | one entry per key, exactly the present ones, in insertion order (the keys of `items()`) |
| LegacyMultivaluedDict.MultivaluedDict.Values | multivalued_dict.py:233 | the lists in key order |

## Left out

- Key hashability (`is_hash.py`) is not modelled. Keys are any type with equality.
- Exception messages are not modelled. An error is its kind plus the data it names (count, index, length, key, element).
- `__repr__` of both classes and `KeyValuePairsError.__repr__` are left out. The latter refers to an undefined name, so it would raise NameError if called.
- `__iter__` is left out. It yields `data.items()`, which `Items` models.
- The guards that `self` is a multi-valued dictionary are left out: the root-level lines 71-72 and 181-182, and the packages under `src/check_self_class_call*`. A Dafny method always has a receiver of its class.
- Aliasing is not modelled. Lists are immutable sequences here, so the following are out of scope:
  - mutating a list returned by `get`, `__getitem__`, `setdefault` or `items()`;
  - the sharing left by a shallow `copy`;
  - `d.update(d)` on the same object.
- Views from `items`, `keys` and `values` are snapshots (sequences), not live views.
- A `defaultdict(list)` source is taken to hold lists; a multi-valued source is given by its items. When the packaged constructor receives one, its dict branch spreads the lists, which gives the same result.
- Lists and tuples are not told apart (`ListOrTuple`). Both are spread by the packaged constructor.
- An element that is iterable but has no length (a generator) is left out. Python then raises TypeError from `len`; elements here are pairs, sized non-pairs, or not iterable.
- Keyword arguments are a sequence of distinct key-value pairs. Their keys being strings is not modelled.
- Disabling `assert` with `python -O` is not modelled. The direction check then could not fail; the model always checks it. `allkv` is a `bool`, so its own assertion cannot fail.
- In the root-level `__lenvalue__`, an argument equal to `None` (test `key == None`) means "all values". The model's `Option` cannot give a stored key that compares equal to `None`.
- The root-level class inherits `__getitem__`, `__setitem__`, `__delitem__`, `get`, `pop`, `popitem`, `setdefault`, `clear`, `__contains__`, `__len__` and `__eq__` from `collections.UserDict`. That is library code, not this repository's, and it is not part of this model.
- Default arguments are not modelled as defaults: the caller passes every argument. This covers `get` and `setdefault` (`default=None`), `fromkeys` (`value=None`) and `__delkv__` (`allkv=True`, `direction=START_POS`). Each default behaves as the same value passed explicitly. The "no key" default of `__lenvalue__` is `None` in `Option`.
- `setup.py` and the version string are packaging and are not modelled.

## Findings

| source | as written | input that shows it | evidently intended | confidence | as-written member | corrected member |
|---|---|---|---|---|---|---|
| src/multivalued_dict_package/multivalued_dict_module.py:248 | `__eq__` returns `self.data.__eq__(other)`. When `other` is a multi-valued dictionary, `dict.__eq__` returns NotImplemented, the reflected call does too, and `==` falls back to identity | `multivalued_dict({'a': 'x'}) == multivalued_dict({'a': 'x'})` is False | two dictionaries are equal when they map the same keys to the same lists, whatever their key order | high, not executed | MultivaluedDictModule.EqualsAsWrittenCounterexample | MultivaluedDictModule.EqualsIgnoresOrder |
