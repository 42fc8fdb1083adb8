// A ring buffer of fixed capacity, as a value and as the class that updates it in place.
module Rings {

  datatype Ring = Ring(buffer: seq<int>, insertIdx: int, removeIdx: int, length: int)

  predicate ValidRing(r: Ring) {
    && 0 <= r.length <= |r.buffer|
    && (if |r.buffer| == 0 then r.insertIdx == r.removeIdx == 0
        else 0 <= r.removeIdx < |r.buffer| && r.insertIdx == (r.removeIdx + r.length) % |r.buffer|)
  }

  function NewRing(buffer: seq<int>): Ring {
    Ring(buffer, 0, 0, 0)
  }

  function PushRing(r: Ring, val: int): Ring
    requires ValidRing(r) && r.length < |r.buffer|
  {
    Ring(r.buffer[r.insertIdx := val], (r.insertIdx + 1) % |r.buffer|, r.removeIdx, r.length + 1)
  }

  function PopRing(r: Ring): (int, Ring)
    requires ValidRing(r) && r.length > 0
  {
    (r.buffer[r.removeIdx], Ring(r.buffer, r.insertIdx, (r.removeIdx + 1) % |r.buffer|, r.length - 1))
  }

  // The elements in the order in which they will be popped.
  function Contents(r: Ring): seq<int>
    requires ValidRing(r)
  {
    seq(r.length, k requires 0 <= k < r.length => r.buffer[(r.removeIdx + k) % |r.buffer|])
  }

  lemma ModIsOneSubtraction(a: int, n: int)
    requires 0 < n && 0 <= a < 2 * n
    ensures a % n == if a < n then a else a - n
  {
  }

  // A push, wherever it lands in the buffer, appends to the contents.
  lemma PushAppends(r: Ring, val: int)
    requires ValidRing(r) && r.length < |r.buffer|
    ensures ValidRing(PushRing(r, val)) && Contents(PushRing(r, val)) == Contents(r) + [val]
  {
    var n := |r.buffer|;
    var r' := PushRing(r, val);
    ModIsOneSubtraction(r.removeIdx + r.length, n);
    ModIsOneSubtraction(r.insertIdx + 1, n);
    ModIsOneSubtraction(r.removeIdx + r.length + 1, n);
    forall k | 0 <= k < r'.length
      ensures Contents(r')[k] == (Contents(r) + [val])[k]
    {
      ModIsOneSubtraction(r.removeIdx + k, n);
    }
  }

  // A pop, across the wrap-around too, removes the first element of the contents.
  lemma PopRemovesFirst(r: Ring)
    requires ValidRing(r) && r.length > 0
    ensures var (val, r') := PopRing(r);
            ValidRing(r') && Contents(r) == [val] + Contents(r')
  {
    var n := |r.buffer|;
    var (val, r') := PopRing(r);
    ModIsOneSubtraction(r.removeIdx, n);
    ModIsOneSubtraction(r.removeIdx + 1, n);
    ModIsOneSubtraction(r.removeIdx + r.length, n);
    ModIsOneSubtraction(r'.removeIdx + r'.length, n);
    forall k | 0 <= k < r.length
      ensures Contents(r)[k] == ([val] + Contents(r'))[k]
    {
      ModIsOneSubtraction(r.removeIdx + k, n);
      if k > 0 { ModIsOneSubtraction(r'.removeIdx + k - 1, n); }
    }
  }

  class RingBuffer {
    var buffer: array<int>
    var insertIdx: int
    var removeIdx: int
    var length: int

    ghost function Value(): Ring
      reads this, buffer
    {
      Ring(buffer[..], insertIdx, removeIdx, length)
    }

    ghost predicate Valid()
      reads this, buffer
    {
      ValidRing(Value())
    }

    constructor (size: nat)
      ensures Valid() && fresh(buffer) && buffer.Length == size && Value() == NewRing(buffer[..])
    {
      buffer := new int[size];
      insertIdx := 0;
      removeIdx := 0;
      length := 0;
    }

    // The original asserts that there is room.
    method Push(val: int)
      requires Valid() && length < buffer.Length
      modifies this, buffer
      ensures Valid() && buffer == old(buffer)
      ensures Value() == PushRing(old(Value()), val)
      ensures Contents(Value()) == old(Contents(Value())) + [val]
    {
      PushAppends(Value(), val);
      buffer[insertIdx] := val;
      insertIdx := (insertIdx + 1) % buffer.Length;
      length := length + 1;
    }

    // The original asserts that there is an element.
    method Pop() returns (val: int)
      requires Valid() && length > 0
      modifies this
      ensures Valid() && buffer == old(buffer)
      ensures (val, Value()) == PopRing(old(Value()))
      ensures old(Contents(Value())) == [val] + Contents(Value())
    {
      PopRemovesFirst(Value());
      val := buffer[removeIdx];
      removeIdx := (removeIdx + 1) % buffer.Length;
      length := length - 1;
    }
  }
}
