/** The fixed-storage ring buffer of src/core/buffer.c, as a bounded first-in first-out sequence. */
module Ring {
  import opened Core

  /** The n bytes of a circular store that begin at `start`. */
  function Window(store: bytes, start: nat, n: nat): (w: bytes)
    requires start < |store| && n <= |store|
    ensures |w| == n
  {
    if start + n <= |store| then store[start..start + n]
    else store[start..] + store[..start + n - |store|]
  }

  /** Position i of the circle, counted from `start`. */
  function Wrap(start: nat, i: nat, capacity: nat): (p: nat)
    requires start < capacity && i <= capacity
    ensures p < capacity
  {
    if start + i < capacity then start + i else start + i - capacity
  }

  lemma WrapIsMod(start: nat, i: nat, capacity: nat)
    requires start < capacity && i <= capacity
    ensures Wrap(start, i, capacity) == (start + i) % capacity
  {
    if start + i < capacity {
      ModOf(start + i, capacity, 0, start + i);
    } else {
      ModOf(start + i, capacity, 1, start + i - capacity);
    }
  }

  lemma ModOf(x: nat, m: nat, q: nat, r: nat)
    requires q <= 1 && x == q * m + r && r < m
    ensures x % m == r
  {
  }

  lemma WindowAt(store: bytes, start: nat, n: nat, i: nat)
    requires start < |store| && n <= |store| && i < n
    ensures Window(store, start, n)[i] == store[Wrap(start, i, |store|)]
  {
  }

  /** Storing at the write position appends to the window. */
  lemma WindowPush(store: bytes, start: nat, n: nat, x: byte)
    requires start < |store| && n < |store|
    ensures Window(store[Wrap(start, n, |store|) := x], start, n + 1) == Window(store, start, n) + [x]
  {
    hide Window;
    var p := Wrap(start, n, |store|);
    var w, w' := Window(store, start, n), Window(store[p := x], start, n + 1);
    forall i | 0 <= i < n + 1
      ensures w'[i] == (w + [x])[i]
    {
      WindowAt(store[p := x], start, n + 1, i);
      if i < n {
        WindowAt(store, start, n, i);
      }
    }
  }

  lemma WrapTwice(start: nat, k: nat, i: nat, capacity: nat)
    requires start < capacity && k + i <= capacity
    ensures Wrap(Wrap(start, k, capacity), i, capacity) == Wrap(start, k + i, capacity)
  {
  }

  /** Moving the read position forward drops a prefix of the window. */
  lemma WindowDrop(store: bytes, start: nat, n: nat, k: nat)
    requires start < |store| && k <= n <= |store|
    ensures Window(store, Wrap(start, k, |store|), n - k) == Window(store, start, n)[k..]
  {
    hide Window, Wrap;
    var q := Wrap(start, k, |store|);
    var w, w' := Window(store, start, n), Window(store, q, n - k);
    forall i | 0 <= i < n - k
      ensures w'[i] == w[k..][i]
    {
      WindowAt(store, q, n - k, i);
      WindowAt(store, start, n, k + i);
      WrapTwice(start, k, i, |store|);
    }
  }

  class Buffer {
    const data: array<byte>
    var readPos: nat
    var writePos: nat
    var length: nat
    const highWater: nat
    const lowWater: nat

    ghost predicate Valid()
      reads this
    {
      && readPos < data.Length && length <= data.Length
      && writePos == Wrap(readPos, length, data.Length)
      && lowWater <= highWater <= data.Length
    }

    ghost function Contents(): (s: bytes)
      reads this, data
      requires Valid()
      ensures |s| == length
    {
      Window(data[..], readPos, length)
    }

    constructor (capacity: nat, high: nat, low: nat)
      requires 0 < capacity && low <= high <= capacity
      ensures Valid() && Contents() == [] && fresh(data)
      ensures data.Length == capacity && highWater == high && lowWater == low
    {
      data := new byte[capacity](_ => 0);
      readPos, writePos, length := 0, 0, 0;
      highWater, lowWater := high, low;
    }

    method Clear()
      requires Valid()
      modifies this
      ensures Valid() && Contents() == []
    {
      readPos, writePos, length := 0, 0, 0;
    }

    function Readable(): nat
      reads this
    {
      length
    }

    function Writable(): (n: int)
      reads this
    {
      data.Length - length
    }

    predicate IsHigh()
      reads this
    {
      length >= highWater
    }

    /** Appends the longest prefix of `src` that fits. */
    method Write(src: bytes) returns (rc: Status, written: nat)
      requires Valid()
      modifies this, data
      ensures Valid()
      ensures written == Min(|src|, data.Length - old(length))
      ensures Contents() == old(Contents()) + src[..written]
      ensures rc == if written < |src| then Overflow else Ok
    {
      hide Window;
      var toWrite := Min(|src|, data.Length - length);
      ghost var before := Contents();
      assert src[..0] == [];
      for i := 0 to toWrite
        modifies this`writePos, data
        invariant Valid'(i)
        invariant Window(data[..], readPos, length + i) == before + src[..i]
      {
        WindowPush(data[..], readPos, length + i, src[i]);
        ghost var store := data[..];
        data[writePos] := src[i];
        assert data[..] == store[writePos := src[i]];
        writePos := writePos + 1;
        if writePos == data.Length {
          writePos := 0;
        }
        assert src[..i + 1] == src[..i] + [src[i]];
      }
      length := length + toWrite;
      return if toWrite < |src| then Overflow else Ok, toWrite;
    }

    /** The ring in the middle of a write, when i bytes are stored but not yet counted. */
    ghost predicate Valid'(i: nat)
      reads this
    {
      && readPos < data.Length && length + i <= data.Length
      && writePos == Wrap(readPos, length + i, data.Length)
    }

    /** Copies the oldest bytes out without removing them. */
    method Peek(out: array<byte>, outLen: nat) returns (count: nat)
      requires Valid() && outLen <= out.Length && out != data
      modifies out
      ensures count == Min(outLen, length)
      ensures out[..count] == Contents()[..count]
    {
      var toRead := Min(outLen, length);
      var pos := readPos;
      for i := 0 to toRead
        invariant pos == Wrap(readPos, i, data.Length)
        invariant out[..i] == Contents()[..i]
      {
        WindowAt(data[..], readPos, length, i);
        out[i] := data[pos];
        pos := pos + 1;
        if pos == data.Length {
          pos := 0;
        }
        assert out[..i + 1] == out[..i] + [out[i]];
      }
      return toRead;
    }

    /** Removes the oldest bytes. */
    method Consume(count: nat) returns (consumed: nat)
      requires Valid()
      modifies this
      ensures Valid()
      ensures consumed == Min(count, old(length))
      ensures Contents() == old(Contents())[consumed..]
    {
      var toConsume := Min(count, length);
      WindowDrop(data[..], readPos, length, toConsume);
      ghost var start := readPos;
      readPos := readPos + toConsume;
      while readPos >= data.Length
        modifies this`readPos
        invariant readPos == start + toConsume || readPos == start + toConsume - data.Length
        invariant readPos >= 0
      {
        readPos := readPos - data.Length;
      }
      length := length - toConsume;
      return toConsume;
    }

    method Read(out: array<byte>, outLen: nat) returns (count: nat)
      requires Valid() && outLen <= out.Length && out != data
      modifies this, out
      ensures Valid()
      ensures count == Min(outLen, old(length))
      ensures out[..count] == old(Contents())[..count]
      ensures Contents() == old(Contents())[count..]
    {
      count := Peek(out, outLen);
      var n := Consume(count);
    }
  }

  /** sockify_buffer_init: refuses an empty store and water marks out of order. */
  method Init(capacity: nat, high: nat, low: nat) returns (rc: Status, ring: Buffer?)
    ensures rc == if capacity == 0 || high > capacity || low > high then Invalid else Ok
    ensures rc == Ok <==> ring != null
    ensures rc == Ok ==>
      && fresh(ring) && fresh(ring.data) && ring.Valid() && ring.Contents() == []
      && ring.data.Length == capacity && ring.highWater == high && ring.lowWater == low
  {
    if capacity == 0 {
      return Invalid, null;
    }
    if high > capacity || low > high {
      return Invalid, null;
    }
    ring := new Buffer(capacity, high, low);
    return Ok, ring;
  }

  // ---------------------------------------------------------------------
  // Whole runs
  // ---------------------------------------------------------------------

  datatype Op = Put(src: bytes) | Take(n: nat) | Look(n: nat) | Drop(n: nat) | Reset

  /** The bounded queue that a ring stands for: its contents and all bytes handed out so far. */
  datatype Queue = Queue(contents: bytes, out: bytes)

  function Apply(q: Queue, op: Op, capacity: nat): (r: Queue)
    requires |q.contents| <= capacity
    ensures |r.contents| <= capacity
  {
    match op
    case Put(src) => q.(contents := q.contents + src[..Min(|src|, capacity - |q.contents|)])
    case Take(n) =>
      var k := Min(n, |q.contents|);
      Queue(q.contents[k..], q.out + q.contents[..k])
    case Look(n) => q.(out := q.out + q.contents[..Min(n, |q.contents|)])
    case Drop(n) => q.(contents := q.contents[Min(n, |q.contents|)..])
    case Reset => q.(contents := [])
  }

  function ApplyAll(q: Queue, ops: seq<Op>, capacity: nat): (r: Queue)
    requires |q.contents| <= capacity
    ensures |r.contents| <= capacity
  {
    if ops == [] then q else Apply(ApplyAll(q, ops[..|ops| - 1], capacity), ops[|ops| - 1], capacity)
  }

  /** Every sequence of operations on a ring agrees with the bounded queue. */
  method RunOps(ops: seq<Op>, capacity: nat, high: nat, low: nat) returns (out: bytes, contents: bytes)
    requires 0 < capacity && low <= high <= capacity
    ensures Queue(contents, out) == ApplyAll(Queue([], []), ops, capacity)
  {
    hide Window, Apply;
    var ring := new Buffer(capacity, high, low);
    out := [];
    assert ops[..0] == [];
    for i := 0 to |ops|
      modifies ring, ring.data
      invariant ring.Valid() && ring.data.Length == capacity
      invariant Queue(ring.Contents(), out) == ApplyAll(Queue([], []), ops[..i], capacity)
    {
      assert ops[..i + 1][..i] == ops[..i];
      out := RunOp(ring, ops[i], out);
    }
    assert ops[..|ops|] == ops;
    var store := new byte[ring.Readable()];
    var n := ring.Peek(store, ring.Readable());
    contents := store[..];
  }

  method RunOp(ring: Buffer, op: Op, out: bytes) returns (out': bytes)
    requires ring.Valid()
    modifies ring, ring.data
    ensures ring.Valid()
    ensures Queue(ring.Contents(), out') == Apply(Queue(old(ring.Contents()), out), op, ring.data.Length)
  {
    out' := out;
    match op
    case Put(src) =>
      var rc, n := ring.Write(src);
    case Take(n) =>
      var buf := new byte[n];
      var k := ring.Read(buf, n);
      out' := out + buf[..k];
    case Look(n) =>
      var buf := new byte[n];
      var k := ring.Peek(buf, n);
      out' := out + buf[..k];
    case Drop(n) =>
      var k := ring.Consume(n);
    case Reset =>
      ring.Clear();
  }
}
