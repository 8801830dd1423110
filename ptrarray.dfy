// The growable array of pointers behind the stack's connection, device and
// channel lists (src/common/ptrarray.cpp). Pointers are natural numbers,
// 0 standing for null.
module PtrArrays {
  import opened Bytes

  class PtrArray {
    var storage: array<nat>
    var count: nat
    const increment: nat

    ghost predicate Valid()
      reads this
    {
      0 < storage.Length && 0 < increment && count <= storage.Length
    }

    /** The pointers in use, in index order. */
    function Elements(): seq<nat>
      reads this, storage
      requires Valid()
    {
      storage[..count]
    }

    constructor (initialSize: nat, sizeIncrement: nat)
      requires initialSize > 0 && sizeIncrement > 0
      ensures Valid() && fresh(storage)
      ensures Elements() == [] && storage.Length == initialSize && increment == sizeIncrement
    {
      storage := new nat[initialSize](_ => 0);
      count := 0;
      increment := sizeIncrement;
    }

    function GetCount(): (n: nat)
      reads this, storage
      requires Valid()
      ensures n == |Elements()|
    {
      count
    }

    /** `operator[]`: only indices below the count may be read. */
    function At(index: nat): (p: nat)
      reads this, storage
      requires Valid() && index < count
      ensures p in Elements()
    {
      storage[index]
    }

    /**
     * Stores `p` behind the last used slot and returns that slot's index.
     * A full array is first replaced by one `increment` slots larger holding
     * the same pointers.
     */
    method Append(p: nat) returns (index: nat)
      modifies this, storage
      requires Valid()
      ensures Valid()
      ensures index == old(count)
      ensures Elements() == old(Elements()) + [p]
      ensures old(count) < old(storage.Length) ==> storage == old(storage)
      ensures old(count) == old(storage.Length) ==>
        fresh(storage) && storage.Length == old(storage.Length) + increment
    {
      if count == storage.Length {
        var full := storage;
        var grown := new nat[full.Length + increment](_ => 0);
        var i := 0;
        while i < full.Length
          modifies grown
          invariant 0 <= i <= full.Length
          invariant grown[..i] == full[..i]
        {
          grown[i] := full[i];
          i := i + 1;
        }
        storage := grown;
      }
      storage[count] := p;
      index := count;
      count := count + 1;
      assert Elements() == old(Elements()) + [p];
    }

    /** TRUE exactly when `p` sits in one of the used slots. */
    method Find(p: nat) returns (found: bool)
      requires Valid()
      ensures found <==> p in Elements()
    {
      found := false;
      var i := 0;
      while i < count
        invariant 0 <= i <= count
        invariant found <==> p in storage[..i]
      {
        if storage[i] == p {
          found := true;
        }
        assert storage[..i + 1] == storage[..i] + [storage[i]];
        i := i + 1;
      }
      assert storage[..count] == Elements();
    }

    /**
     * Removes one occurrence of `p` by swapping it with the last used slot
     * and shrinking the count; returns the new count. Without an occurrence
     * nothing changes.
     */
    method Delete(p: nat) returns (n: nat)
      modifies this, storage
      requires Valid() && count > 0
      ensures Valid() && storage == old(storage)
      ensures n == count
      ensures Elements() == Removed(old(Elements()), p)
    {
      ghost var s := Elements();
      var i := Position(p);
      if i < count {
        RemovedAt(s, p, i);
        var last := count - 1;
        ghost var a := storage[..];
        Swap(i, last);
        count := last;
        SwapThenCut(a, i, last);
        assert Elements() == storage[..][..last];
      } else {
        assert s[..i] == s;
      }
      n := count;
    }

    /**
     * `Delete` as written: the search loop's `i++` runs once more after the
     * match, so the slot after the match is swapped with the last used slot.
     * `overrun` reports that slot lying past the reserved storage; nothing is
     * written then.
     */
    method DeleteFoundLoop(p: nat) returns (n: nat, overrun: bool)
      modifies this, storage
      requires Valid() && count > 0
      ensures Valid() && storage == old(storage) && n == count
      ensures var r := DeleteAsWritten(old(storage[..]), old(count), p);
        && (overrun <==> r.None?)
        && (r.Some? ==> storage[..] == r.value.0 && count == r.value.1)
        && (r.None? ==> storage[..] == old(storage[..]) && count == old(count))
    {
      ghost var a := storage[..];
      var found := false;
      var i := 0;
      while i < count && !found
        invariant Valid() && storage == old(storage) && count == old(count) && storage[..] == a
        invariant 0 <= i <= count
        invariant found ==> 0 < i && FirstIndex(a[..count], p) == i - 1
        invariant !found ==> p !in a[..i]
      {
        if storage[i] == p {
          FirstIndexUnique(a[..count], p, i);
          found := true;
        }
        assert a[..i + 1] == a[..i] + [a[i]];
        i := i + 1;
      }
      overrun := false;
      if found {
        if i >= storage.Length {
          overrun := true;
        } else {
          var last := count - 1;
          Swap(i, last);
          count := last;
        }
      } else {
        assert a[..count][..i] == a[..count];
      }
      n := count;
    }

    /** Exchanges two slots of the reserved storage. */
    method Swap(i: nat, j: nat)
      modifies storage
      requires i < storage.Length && j < storage.Length
      ensures storage[..] == old(storage[..])[i := old(storage[j])][j := old(storage[i])]
    {
      var tmp := storage[j];
      storage[j] := storage[i];
      storage[i] := tmp;
    }

    /** The first used slot holding `p`, or the count when there is none. */
    method Position(p: nat) returns (i: nat)
      requires Valid()
      ensures i <= count && p !in Elements()[..i]
      ensures i < count ==> Elements()[i] == p
    {
      i := 0;
      while i < count && storage[i] != p
        invariant 0 <= i <= count
        invariant p !in storage[..i]
      {
        assert storage[..i + 1] == storage[..i] + [storage[i]];
        i := i + 1;
      }
      assert Elements()[..i] == storage[..i];
    }

    /** Drops the last used slot. */
    method RemoveLast()
      modifies this
      requires Valid() && count > 0
      ensures Valid() && storage == old(storage)
      ensures Elements() == old(Elements())[..old(count) - 1]
    {
      count := count - 1;
    }
  }

  /**
   * The used slots after deleting `p`: the last slot moves into the first
   * slot holding `p` and the count drops by one; without `p` nothing changes.
   */
  function Removed(s: seq<nat>, p: nat): (r: seq<nat>)
    ensures p in s ==> |r| == |s| - 1 && multiset(r) + multiset{p} == multiset(s)
    ensures p !in s ==> r == s
  {
    var m := FirstIndex(s, p);
    if m == |s| then s
    else
      SwapRemove(s, m);
      s[m := s[|s| - 1]][..|s| - 1]
  }

  /** Deleting the first occurrence at `i` is the swap with the last slot. */
  lemma RemovedAt(s: seq<nat>, p: nat, i: nat)
    requires i < |s| && s[i] == p && p !in s[..i]
    ensures Removed(s, p) == s[i := s[|s| - 1]][..|s| - 1]
  {
    FirstIndexUnique(s, p, i);
  }

  /** Swapping slot `i` with `last` and cutting at `last` moves the last element into slot `i`. */
  lemma SwapThenCut(a: seq<nat>, i: nat, last: nat)
    requires i <= last < |a|
    ensures a[i := a[last]][last := a[i]][..last] == a[..last + 1][i := a[last]][..last]
  {
  }

  lemma FirstIndexUnique(s: seq<nat>, p: nat, i: nat)
    requires i < |s| && s[i] == p && p !in s[..i]
    ensures FirstIndex(s, p) == i
  {
  }

  /** Moving the last element into slot `i` and cutting the last off removes exactly `s[i]`. */
  lemma SwapRemove(s: seq<nat>, i: nat)
    requires i < |s|
    ensures multiset(s[i := s[|s| - 1]][..|s| - 1]) + multiset{s[i]} == multiset(s)
  {
    var last := |s| - 1;
    var t := s[i := s[last]];
    assert t == t[..last] + [s[last]];
    var pre, post := s[..i], s[i + 1..];
    assert s == pre + [s[i]] + post;
    assert t == pre + [s[last]] + post;
    assert multiset(s) == multiset(pre) + multiset{s[i]} + multiset(post);
    assert multiset(t) == multiset(pre) + multiset{s[last]} + multiset(post);
    assert multiset(t) == multiset(t[..last]) + multiset{s[last]};
    var m := multiset(t[..last]) + multiset{s[i]};
    assert forall x :: m[x] == multiset(s)[x] by {
      forall x
        ensures m[x] == multiset(s)[x]
      {
        assert multiset(t)[x] + multiset{s[i]}[x] == multiset(s)[x] + multiset{s[last]}[x];
      }
    }
  }

  // ---------------------------------------------------------------------
  // `Delete` as written: the search loop increments `i` once more after the
  // match, so the swap uses the slot after the match.

  /**
   * The reserved storage after the as-written `Delete`, or None when the
   * swap reads or writes past the reserved slots (the match was the last
   * slot of a full array).
   */
  function DeleteAsWritten(storage: seq<nat>, count: nat, p: nat): (r: Option<(seq<nat>, nat)>)
    requires 0 < count <= |storage|
    ensures r.Some? ==> |r.value.0| == |storage| && r.value.1 <= count
  {
    var m := FirstIndex(storage[..count], p);
    if m == count then Some((storage, count))
    else
      var i := m + 1;
      var last := count - 1;
      if i >= |storage| then None
      else Some((storage[last := storage[i]][i := storage[last]], last))
  }

  function FirstIndex(s: seq<nat>, p: nat): (m: nat)
    ensures m <= |s| && p !in s[..m]
    ensures m < |s| ==> s[m] == p
  {
    if |s| == 0 then 0
    else if s[0] == p then 0
    else
      var m := FirstIndex(s[1..], p);
      assert s[..m + 1] == [s[0]] + s[1..][..m];
      m + 1
  }

  /**
   * Deleting 1 from [1, 2, 3] as written leaves it in the used slots and
   * drops 2 instead; the corrected delete leaves [3, 2].
   */
  lemma DeleteAsWrittenKeepsMatch()
    ensures var r := DeleteAsWritten([1, 2, 3], 3, 1);
      r.Some? && r.value.0[..r.value.1] == [1, 3]
    ensures Removed([1, 2, 3], 1) == [3, 2]
  {
    assert FirstIndex([1, 2, 3], 1) == 0;
  }

  /** Deleting the last pointer of a full array swaps with a slot past its end. */
  lemma DeleteAsWrittenOverruns()
    ensures DeleteAsWritten([1, 2, 3], 3, 3) == None
  {
    assert FirstIndex([1, 2, 3], 3) == 2 by {
      assert FirstIndex([3], 3) == 0;
      assert FirstIndex([2, 3], 3) == 1 by { assert [2, 3][1..] == [3]; }
      assert [1, 2, 3][1..] == [2, 3];
    }
  }
}
