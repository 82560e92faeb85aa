/**
 * The shapes of what callers hand to the dictionary, and the errors it
 * raises. Python decides these at run time with `isinstance` and `len`;
 * here each shape is a datatype variant.
 */
module Shapes {

  /** `START_POS` and `END_POS`: the two accepted values of `__delkv__`'s `direction`. */
  const START_POS: string := "S"
  const END_POS: string := "E"

  /**
   * A stored value as far as the dictionary can tell them apart: a list or
   * tuple (whose elements the constructor spreads) or anything else.
   */
  datatype Value<A> = Atom(a: A) | ListOrTuple(items: seq<Value<A>>)

  /** What `__init__` adds for one value of a plain dict: a list or tuple's elements, otherwise the value itself. */
  function Spread<A>(v: Value<A>): (r: seq<Value<A>>)
    ensures v.ListOrTuple? ==> r == v.items
    ensures v.Atom? ==> r == [v]
  {
    match v
    case ListOrTuple(items) => items
    case Atom(_) => [v]
  }

  /** A length other than 2. */
  type NotTwo = n: nat | n != 2

  /**
   * One element of a would-be pair sequence: a key-value pair, an iterable
   * of another length, or an object that is not iterable at all.
   */
  datatype Element<K, V> = Pair(key: K, value: V) | BadLength(length: NotTwo) | NonSequence

  /**
   * The positional argument of `__init__` and `update`:
   * a multi-valued source (a multi-valued dictionary or a `defaultdict(list)`)
   * given by its items, a plain dict given by its items, any other iterable
   * given by its elements, or an object that is not iterable.
   */
  datatype Source<K, V> =
    | MultiDict(lists: seq<(K, seq<V>)>)
    | PlainDict(entries: seq<(K, V)>)
    | Pairs(elements: seq<Element<K, V>>)
    | NonIterable

  /** The exceptions the two versions of the dictionary raise. */
  datatype Error<K, V> =
    | TooManyArguments(given: nat)             // TypeError: expected at most 1 arguments
    | SourceNotIterable                        // TypeError: object is not iterable
    | ElementNotSequence(index: nat)           // TypeError naming element #index (packaged version)
    | ElementWrongLength(index: nat, length: nat)  // ValueError naming element #index (packaged version)
    | KeyValuePairs(element: Element<K, V>)    // KeyValuePairsError carrying the element (root-level version)
    | ElementHasNoLength                       // TypeError raised by len() on the element (root-level version)
    | KeyNotFound(key: K)                      // KeyError
    | EmptyDictionary                          // KeyError from popitem on an empty dictionary
    | ValueNotFound                            // ValueError from list.remove
    | InvalidDirection                         // AssertionError on the direction flag
}
