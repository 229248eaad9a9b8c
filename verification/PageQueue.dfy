/**
 The shifting array queue that all four page-replacement simulations run on.
 Slots `arr[..tail]` are in use; inserting or removing in the middle shifts the rest by one slot.
 */
module PageQueue {

  const MAX_SIZE := 1000

  class Queue {
    const arr: array<int>
    var tail: nat
    var len: int

    ghost predicate Valid()
      reads this
    {
      arr.Length == MAX_SIZE && tail <= MAX_SIZE
    }

    /** The pages held, in slot order. */
    ghost function Contents(): (s: seq<int>)
      requires Valid()
      reads this, arr
    {
      arr[..tail]
    }

    /** A queue for `size` pages; the slots start out with arbitrary values, as on the C stack. */
    constructor (size: int)
      ensures Valid() && fresh(arr) && Contents() == [] && len == size
    {
      arr := new int[MAX_SIZE];
      tail := 0;
      len := size;
    }

    method Push(num: int, idx: nat)
      requires Valid() && idx <= tail < MAX_SIZE
      modifies this`tail, arr
      ensures Valid()
      ensures Contents() == old(Contents())[..idx] + [num] + old(Contents())[idx..]
    {
      ghost var before := Contents();
      var i := tail;
      while i > idx
        invariant idx <= i <= tail
        invariant tail == old(tail)
        invariant forall j :: 0 <= j < i ==> arr[j] == old(arr[j])
        invariant forall j :: i < j <= tail ==> arr[j] == old(arr[j - 1])
      {
        arr[i] := arr[i - 1];
        i := i - 1;
      }
      arr[idx] := num;
      tail := tail + 1;
      Inserted(before, Contents(), idx, num);
    }

    /** Removes slot `idx`. The shift also copies the unused slot `arr[tail]`, which must exist. */
    method Pop(idx: nat)
      requires Valid() && idx < tail < MAX_SIZE
      modifies this`tail, arr
      ensures Valid()
      ensures Contents() == old(Contents())[..idx] + old(Contents())[idx + 1..]
    {
      var i := idx;
      while i < tail
        invariant idx <= i <= tail
        invariant tail == old(tail)
        invariant forall j :: 0 <= j < idx ==> arr[j] == old(arr[j])
        invariant forall j :: idx <= j < i ==> arr[j] == old(arr[j + 1])
        invariant forall j :: i <= j < MAX_SIZE ==> arr[j] == old(arr[j])
      {
        arr[i] := arr[i + 1];
        i := i + 1;
      }
      tail := tail - 1;
    }

    /** Overwrites one slot in place, as the use-bit updates do. */
    method Set(idx: nat, num: int)
      requires Valid() && idx < tail
      modifies arr
      ensures Contents() == old(Contents())[idx := num]
    {
      arr[idx] := num;
    }

    method IsFull() returns (full: bool)
      requires Valid()
      ensures full <==> |Contents()| == len
    {
      full := tail == len;
    }

    method IsHere(num: int) returns (idx: int)
      requires Valid()
      ensures -1 <= idx < |Contents()|
      ensures idx == -1 <==> num !in Contents()
      ensures idx != -1 ==> Contents()[idx] == num && num !in Contents()[..idx]
    {
      var i := 0;
      while i < tail
        invariant i <= tail
        invariant num !in arr[..i]
      {
        if num == arr[i] {
          return i;
        }
        i := i + 1;
      }
      idx := -1;
    }
  }

  lemma Inserted(s: seq<int>, r: seq<int>, idx: nat, num: int)
    requires idx <= |s| && |r| == |s| + 1 && r[idx] == num
    requires forall j :: 0 <= j < idx ==> r[j] == s[j]
    requires forall j :: idx < j < |r| ==> r[j] == s[j - 1]
    ensures r == s[..idx] + [num] + s[idx..]
  {
  }
}
