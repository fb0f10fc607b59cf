/** The growable list of borrowed string references, `Strings` in valete.c
    (lines 106-158). The list stores the references themselves and compares
    them by identity, so elements are opaque values of an equality type. */
module StringLists {

  /** SIZE_MAX of a 64-bit `size_t`: the "not found" answer of `strings_find`. */
  const SizeMax: nat := 0xFFFF_FFFF_FFFF_FFFF

  /** The capacity `strings_add` leaves behind: doubled exactly when the
      list is full, otherwise unchanged. Either way a live list then has room
      for one more element. */
  function Grown(length: nat, count: nat): (r: nat)
    ensures r == length || r == 2 * length
    ensures 1 <= length && count <= length ==> count < r
    ensures r == length <==> (count < length || length == 0)
  {
    if count >= length then 2 * length else length
  }

  /** The contents after removing position `index`, order kept. */
  function RemovedAt<T>(s: seq<T>, index: nat): (r: seq<T>)
    requires index < |s|
    ensures |r| == |s| - 1
    ensures forall k :: 0 <= k < index ==> r[k] == s[k]
    ensures forall k :: index <= k < |r| ==> r[k] == s[k + 1]
  {
    s[..index] + s[index + 1..]
  }

  /** The scan of `strings_find` from position `i` on: the first position at
      or after `i` holding `e`, or SIZE_MAX when there is none. */
  function IndexFrom<T(==)>(s: seq<T>, e: T, i: nat): (r: nat)
    requires i <= |s|
    ensures || (i <= r < |s| && s[r] == e && forall j :: i <= j < r ==> s[j] != e)
            || (r == SizeMax && forall j :: i <= j < |s| ==> s[j] != e)
    decreases |s| - i
  {
    if i == |s| then SizeMax
    else if s[i] == e then i
    else IndexFrom(s, e, i + 1)
  }

  /** What `strings_find` answers for the contents `s`: the first position
      holding `e`, or SIZE_MAX when `e` is absent. */
  function FindIn<T(==)>(s: seq<T>, e: T): (r: nat)
    ensures || (r < |s| && s[r] == e && e !in s[..r])
            || (r == SizeMax && e !in s)
  {
    IndexFrom(s, e, 0)
  }

  /** `strings_find` answers an index exactly when the element is present,
      and then the first position holding it. */
  lemma FindInIsFirst<T>(s: seq<T>, e: T)
    requires |s| <= SizeMax
    ensures FindIn(s, e) < |s| <==> e in s
    ensures FindIn(s, e) == SizeMax <==> e !in s
    ensures e in s ==> s[FindIn(s, e)] == e && e !in s[..FindIn(s, e)]
  {
    if e in s {
      var k :| 0 <= k < |s| && s[k] == e;
      assert FindIn(s, e) <= k;
    }
  }

  /** Adding an element that was not yet present and then looking it up
      answers the position it was stored at. */
  lemma FindAfterAdd<T>(s: seq<T>, e: T)
    requires e !in s
    ensures FindIn(s + [e], e) == |s|
  {
    var t := s + [e];
    assert t[|s|] == e;
    assert forall j :: 0 <= j < |s| ==> t[j] == s[j];
  }

  /** After removing position `index`, an element first found after `index`
      is found one position earlier, and one first found before `index` is
      found where it was. */
  lemma FindAfterRemove<T>(s: seq<T>, index: nat, e: T)
    requires index < |s| <= SizeMax
    ensures FindIn(s, e) < index ==> FindIn(RemovedAt(s, index), e) == FindIn(s, e)
    ensures index < FindIn(s, e) < |s| ==> FindIn(RemovedAt(s, index), e) == FindIn(s, e) - 1
  {
    var r := RemovedAt(s, index);
    var f := FindIn(s, e);
    if f < index {
      assert r[f] == e;
    } else if index < f < |s| {
      assert r[f - 1] == e;
      assert forall j :: 0 <= j < f - 1 ==> r[j] != e by {
        forall j | 0 <= j < f - 1 ensures r[j] != e {
          if j >= index { assert r[j] == s[j + 1]; }
        }
      }
    }
  }

  /** 2 to the power `k`. */
  function Pow2(k: nat): (r: nat)
    ensures r >= 1
  {
    if k == 0 then 1 else 2 * Pow2(k - 1)
  }

  /** The capacity reached by doubling `length` until it holds `need` slots:
      the least `length * 2^k` that is at least `need`. */
  function Doubled(length: nat, need: nat): (r: nat)
    requires length >= 1
    ensures r >= need && r >= length
    ensures exists k: nat :: r == length * Pow2(k)
    ensures r > length ==> r < 2 * need
    decreases need - length
  {
    if need <= length then
      assert length == length * Pow2(0);
      length
    else
      var r := Doubled(2 * length, need);
      var k: nat :| r == 2 * length * Pow2(k);
      assert r == length * Pow2(k + 1);
      r
  }

  /** The capacity after `n` more calls of `strings_add` on a list of
      capacity `length` holding `count` elements. */
  function CapacityAfterAdds(length: nat, count: nat, n: nat): nat
    decreases n
  {
    if n == 0 then length else CapacityAfterAdds(Grown(length, count), count + 1, n - 1)
  }

  /** Appending to a list created with capacity `length` (so `count` starts
      at 0, or in general `count <= length`) leaves the least doubling of
      `length` that holds all elements. */
  lemma {:induction false} CapacityIsLeastDoubling(length: nat, count: nat, n: nat)
    requires 1 <= length && count <= length
    ensures CapacityAfterAdds(length, count, n) == Doubled(length, count + n)
    decreases n
  {
    if n > 0 {
      CapacityIsLeastDoubling(Grown(length, count), count + 1, n - 1);
    }
  }

  /** A `Strings` value. `length` is the capacity of the backing storage and
      `count` the number of populated slots; after `Destroy` both are 0 and
      `elements` is null. */
  class Strings<T(==,0)> {
    var length: nat
    var count: nat
    var elements: array?<T>

    ghost predicate Valid()
      reads this
    {
      count <= length
      && (elements == null ==> length == 0)
      && (elements != null ==> elements.Length == length)
    }

    /** The references held, in insertion order. */
    ghost function Contents(): seq<T>
      reads this, elements
      requires Valid()
    {
      if elements == null then [] else elements[..count]
    }

    /** `strings_create`: the initial capacity must be at least 1. */
    constructor (length: nat)
      requires length >= 1
      ensures Valid() && fresh(elements)
      ensures this.length == length && count == 0 && Contents() == []
    {
      this.length := length;
      count := 0;
      elements := new T[length];
    }

    /** `strings_destroy`: releases the storage and resets to the zero state. */
    method Destroy()
      modifies this
      ensures length == 0 && count == 0 && elements == null
      ensures Valid() && Contents() == []
    {
      length, count, elements := 0, 0, null;
    }

    /** `strings_add`: grows by doubling when full, stores the element at the
      old count and answers the new count. A destroyed list (capacity 0) has
      no storage to write to, so the capacity must be at least 1. */
    method Add(element: T) returns (n: nat)
      requires Valid() && length >= 1
      modifies this, elements
      ensures Valid() && elements != null
      ensures length == Grown(old(length), old(count))
      ensures Contents() == old(Contents()) + [element]
      ensures n == count == old(count) + 1
      ensures old(count) < old(length) ==> elements == old(elements)
      ensures old(count) >= old(length) ==> fresh(elements)
    {
      if count >= length {
        var grown := new T[2 * length];
        forall i | 0 <= i < length {
          grown[i] := elements[i];
        }
        length := 2 * length;
        elements := grown;
      }
      elements[count] := element;
      count := count + 1;
      n := count;
    }

    /** `strings_remove`: shifts every later element one slot left and
      answers the new count; the index must be in range. */
    method Remove(index: nat) returns (n: nat)
      requires Valid() && index < count
      modifies this`count, elements
      ensures Valid() && elements == old(elements) && length == old(length)
      ensures Contents() == RemovedAt(old(Contents()), index)
      ensures n == count == old(count) - 1
    {
      var i := index;
      while i < count - 1
        invariant count == old(count)
        invariant index <= i <= count - 1
        invariant forall k :: 0 <= k < index ==> elements[k] == old(elements[k])
        invariant forall k :: index <= k < i ==> elements[k] == old(elements[k + 1])
        invariant forall k :: i <= k < elements.Length ==> elements[k] == old(elements[k])
      {
        elements[i] := elements[i + 1];
        i := i + 1;
      }
      count := count - 1;
      n := count;
    }

    /** `strings_find`: the first position holding `element`, compared by
      identity, or SIZE_MAX when it is absent. */
    method Find(element: T) returns (r: nat)
      requires Valid()
      ensures r == FindIn(Contents(), element)
    {
      var i := 0;
      while i < count
        invariant i <= count
        invariant forall j :: 0 <= j < i ==> elements[j] != element
      {
        if elements[i] == element {
          return i;
        }
        i := i + 1;
      }
      return SizeMax;
    }
  }
}
