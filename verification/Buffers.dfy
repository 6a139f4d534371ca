/** The non-owning output buffer of twe/core/containers/buffer.h: a window on storage somebody else owns. */
module Buffers {
  class Buffer<T> {
    const data: array<T>
    const base: nat  // where the window starts in the storage
    const capacity: nat
    var count: nat
    var overflowCount: nat

    ghost predicate Valid()
      reads this
    {
      count <= capacity && base + capacity <= data.Length
    }

    // The elements written so far.
    ghost function Contents(): seq<T>
      requires Valid()
      reads this, data
    {
      data[base..base + count]
    }

    function At(i: nat): (x: T)
      requires Valid() && i < count
      reads this, data
      ensures x == Contents()[i]
    {
      data[base + i]
    }

    constructor WrapExisting(data: array<T>, base: nat, count: nat, capacity: nat)
      requires count <= capacity && base + capacity <= data.Length
      ensures Valid() && this.data == data && this.base == base && this.capacity == capacity
      ensures Contents() == data[base..base + count] && overflowCount == 0
    {
      this.data, this.base, this.capacity := data, base, capacity;
      this.count, overflowCount := count, 0;
    }

    // Forgets the elements; neither the storage nor the overflow count changes.
    method Reset()
      requires Valid()
      modifies this`count
      ensures Valid() && Contents() == []
    {
      count := 0;
    }

    method Push(value: T) returns (ok: bool)
      requires Valid()
      modifies this`count, this`overflowCount, data
      ensures Valid() && ok == (old(count) < capacity)
      ensures Contents() == old(Contents()) + if ok then [value] else []
      ensures overflowCount == old(overflowCount) + if ok then 0 else 1
      ensures forall i | 0 <= i < data.Length && i != base + old(count) :: data[i] == old(data[i])
    {
      if count >= capacity {
        overflowCount := overflowCount + 1;
        return false;
      }
      data[base + count] := value;
      count := count + 1;
      return true;
    }

    function Remaining(): nat
      requires Valid()
      reads this
    {
      capacity - count
    }

    // A full view of part of the elements, over the same storage.
    method Slice(start: nat, len: nat) returns (part: Buffer<T>)
      requires Valid() && start + len <= count
      ensures part.Valid() && fresh(part) && part.data == data
      ensures part.Contents() == Contents()[start..start + len] && part.Remaining() == 0
    {
      part := new Buffer<T>.WrapExisting(data, base + start, len, len);
      assert data[base + start..base + start + len] == data[base..base + count][start..start + len];
    }
  }

  // The first n elements of ys, or all of them if there are fewer.
  function Take<T>(n: nat, ys: seq<T>): (r: seq<T>)
    ensures r <= ys && |r| == if n < |ys| then n else |ys|
  {
    if n < |ys| then ys[..n] else ys
  }

  /**
   What is left after the elements ys were pushed one by one into a buffer with room elements to
   spare: as many as fit, and one overflow counted if pushing stopped at the first refusal, or one
   for every refusal.
   */
  ghost predicate Poured<T>(ys: seq<T>, room: nat, stopping: bool,
                            before: seq<T>, after: seq<T>, overflowBefore: nat, overflowAfter: nat) {
    && after == before + Take(room, ys)
    && overflowAfter == overflowBefore
                        + if |ys| <= room then 0 else if stopping then 1 else |ys| - room
  }

  // Stopping or not makes no difference to the contents, and to the count only when two or more are refused.
  lemma StoppingOrNot<T>(ys: seq<T>, room: nat, before: seq<T>, a: seq<T>, b: seq<T>, v0: nat, va: nat, vb: nat)
    requires Poured(ys, room, true, before, a, v0, va) && Poured(ys, room, false, before, b, v0, vb)
    ensures a == b && va <= vb
    ensures va == vb <==> |ys| <= room + 1
  {}
}
