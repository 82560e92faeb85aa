/**
 * The Python `list` behaviour that the multi-valued dictionary relies on,
 * over immutable sequences: `count`, `remove`, deletion of the last
 * occurrence, the remove-until-absent loop and `reverse`.
 */
module PyList {
  import opened Wrappers

  /** `l.count(v)`: the number of elements equal to `v`, which is v's multiplicity. */
  function Count<T(==)>(s: seq<T>, v: T): (n: nat)
    ensures n == multiset(s)[v]
    ensures n > 0 <==> v in s
  {
    if s == [] then 0
    else
      assert s == [s[0]] + s[1..];
      (if s[0] == v then 1 else 0) + Count(s[1..], v)
  }

  /** The position of the first element equal to `v`, or -1 when there is none. */
  function IndexOf<T(==)>(s: seq<T>, v: T): (i: int)
    ensures -1 <= i < |s|
    ensures i == -1 <==> v !in s
    ensures 0 <= i ==> s[i] == v && v !in s[..i]
  {
    if s == [] then -1
    else if s[0] == v then 0
    else
      var j := IndexOf(s[1..], v);
      assert j >= 0 ==> s[..j + 1] == [s[0]] + s[1..][..j];
      if j == -1 then -1 else j + 1
  }

  /** The position of the last element equal to `v`, or -1 when there is none. */
  function LastIndexOf<T(==)>(s: seq<T>, v: T): (i: int)
    ensures -1 <= i < |s|
    ensures i == -1 <==> v !in s
    ensures 0 <= i ==> s[i] == v && v !in s[i + 1..]
  {
    if s == [] then -1
    else if s[|s| - 1] == v then |s| - 1
    else
      assert s == s[..|s| - 1] + [s[|s| - 1]];
      LastIndexOf(s[..|s| - 1], v)
  }

  /**
   * `l.remove(v)`: drops the lowest-index element equal to `v`. `None` stands
   * for the ValueError Python raises when no element equals `v`.
   */
  function Remove<T(==)>(s: seq<T>, v: T): (r: Option<seq<T>>)
    ensures r.None? <==> v !in s
    ensures r.Some? ==>
      exists i | 0 <= i < |s| :: s[i] == v && v !in s[..i] && r.value == s[..i] + s[i + 1..]
  {
    var i := IndexOf(s, v);
    if i < 0 then None else Some(s[..i] + s[i + 1..])
  }

  /**
   * Deletion of the highest-index element equal to `v`; a sequence without
   * `v` is returned unchanged.
   */
  function RemoveLast<T(==)>(s: seq<T>, v: T): (r: seq<T>)
    ensures v !in s ==> r == s
    ensures v in s ==>
      exists i | 0 <= i < |s| :: s[i] == v && v !in s[i + 1..] && r == s[..i] + s[i + 1..]
  {
    var i := LastIndexOf(s, v);
    if i < 0 then s else s[..i] + s[i + 1..]
  }

  /** Every element not equal to `v`, in their original order. */
  function RemoveAll<T(==)>(s: seq<T>, v: T): (r: seq<T>)
    ensures v !in r
    ensures multiset(r) == multiset(s)[v := 0]
    ensures |r| <= |s|
  {
    if s == [] then []
    else
      assert s == [s[0]] + s[1..];
      (if s[0] == v then [] else [s[0]]) + RemoveAll(s[1..], v)
  }

  lemma RemoveAllMembership<T>(s: seq<T>, v: T)
    ensures forall x :: x in RemoveAll(s, v) <==> x in s && x != v
  {
    forall x ensures x in RemoveAll(s, v) <==> x in s && x != v {
      assert x in RemoveAll(s, v) <==> x in multiset(RemoveAll(s, v));
    }
  }

  /** `l.reverse()`: the same elements in the opposite order. */
  function Reversed<T>(s: seq<T>): (r: seq<T>)
    ensures |r| == |s|
    ensures forall i | 0 <= i < |s| :: r[i] == s[|s| - 1 - i]
  {
    if s == [] then [] else Reversed(s[1..]) + [s[0]]
  }

  /** `r` is obtained from `s` by deleting elements: what is left keeps its relative order. */
  ghost predicate Subsequence<T>(r: seq<T>, s: seq<T>)
    decreases |s|
  {
    if r == [] then true
    else if s == [] then false
    else (r[0] == s[0] && Subsequence(r[1..], s[1..])) || Subsequence(r, s[1..])
  }

  lemma {:induction false} RemoveAllSubsequence<T>(s: seq<T>, v: T)
    ensures Subsequence(RemoveAll(s, v), s)
    decreases |s|
  {
    if s != [] {
      RemoveAllSubsequence(s[1..], v);
      var r := RemoveAll(s, v);
      if s[0] != v {
        assert r[0] == s[0] && r[1..] == RemoveAll(s[1..], v);
      } else {
        assert r == RemoveAll(s[1..], v);
      }
    }
  }

  lemma ConcatAssoc<T>(a: seq<T>, b: seq<T>, c: seq<T>)
    ensures (a + b) + c == a + (b + c)
  {
  }

  lemma {:induction false} RemoveAllConcat<T>(a: seq<T>, b: seq<T>, v: T)
    ensures RemoveAll(a + b, v) == RemoveAll(a, v) + RemoveAll(b, v)
    decreases |a|
  {
    if a != [] {
      assert (a + b)[0] == a[0] && (a + b)[1..] == a[1..] + b;
      RemoveAllConcat(a[1..], b, v);
      ConcatAssoc(if a[0] == v then [] else [a[0]], RemoveAll(a[1..], v), RemoveAll(b, v));
    } else {
      assert a + b == b;
    }
  }

  /** Without any element equal to `v`, nothing is removed. */
  lemma {:induction false} RemoveAllAbsent<T>(s: seq<T>, v: T)
    requires v !in s
    ensures RemoveAll(s, v) == s
    decreases |s|
  {
    if s != [] {
      RemoveAllAbsent(s[1..], v);
      assert s == [s[0]] + s[1..];
    }
  }

  /** Past a first element other than `v`, `remove` keeps that element and works on the rest. */
  lemma RemoveCons<T>(s: seq<T>, v: T)
    requires v in s && s[0] != v
    ensures v in s[1..] && Remove(s, v).value == [s[0]] + Remove(s[1..], v).value
  {
    assert s == [s[0]] + s[1..];
    var i := IndexOf(s[1..], v);
    assert IndexOf(s, v) == i + 1;
    assert s[..i + 1] == [s[0]] + s[1..][..i];
    assert s[i + 2..] == s[1..][i + 1..];
  }

  /** One `remove` followed by removing every `v` leaves what removing every `v` leaves. */
  lemma {:induction false} RemoveThenRemoveAll<T>(s: seq<T>, v: T)
    requires v in s
    ensures RemoveAll(Remove(s, v).value, v) == RemoveAll(s, v)
    decreases |s|
  {
    if s[0] == v {
      assert Remove(s, v).value == s[1..];
    } else {
      RemoveCons(s, v);
      RemoveThenRemoveAll(s[1..], v);
      var r := [s[0]] + Remove(s[1..], v).value;
      assert r[0] == s[0] && r[1..] == Remove(s[1..], v).value;
    }
  }

  /**
   * The `while v in l: l.remove(v)` loop of `__delkv__` with `allkv`:
   * it removes exactly the occurrences of `v`.
   */
  method RemoveEach<T(==)>(s: seq<T>, v: T) returns (r: seq<T>)
    ensures r == RemoveAll(s, v)
  {
    r := s;
    while v in r
      invariant RemoveAll(r, v) == RemoveAll(s, v)
      decreases |r|
    {
      RemoveThenRemoveAll(r, v);
      r := Remove(r, v).value;
    }
    RemoveAllAbsent(r, v);
  }

  /**
   * The loop of `__delkv__` for the end position: scan from the last element
   * towards the first and delete the first match found.
   */
  method RemoveLastOccurrence<T(==)>(s: seq<T>, v: T) returns (r: seq<T>)
    ensures r == RemoveLast(s, v)
  {
    var n := |s|;
    for i := 0 to n
      invariant forall j | n - i <= j < n :: s[j] != v
    {
      var p := n - 1 - i;
      if s[p] == v {
        var last := LastIndexOf(s, v);
        assert last == p;
        return s[..p] + s[p + 1..];
      }
    }
    r := s;
  }

  lemma {:induction false} ReversedTwice<T>(s: seq<T>)
    ensures Reversed(Reversed(s)) == s
  {
    var r := Reversed(s);
    assert |Reversed(r)| == |s|;
    forall i | 0 <= i < |s|
      ensures Reversed(r)[i] == s[i]
    {
      assert Reversed(r)[i] == r[|s| - 1 - i];
    }
  }
}
