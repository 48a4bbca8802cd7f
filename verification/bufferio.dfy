/**
 * The FIFO byte buffer that the library's tests use as the sink of the
 * escape writer and the source of the readers: a circular array in which
 * one slot always stays empty, so that `writePos == readPos` means "empty"
 * and `NextPos(writePos) == readPos` means "full".
 */
module BufferIo {
  import opened Bytes

  /** `nextPos`: the following slot, wrapping to 0 at `size`. */
  function NextPos(pos: nat, size: nat): (r: nat)
    requires pos < size
    ensures r < size
    ensures r == 0 <==> pos == size - 1
    ensures r != 0 ==> r == pos + 1
  {
    (pos + 1) % size
  }

  /** A position past the end taken back to the start. */
  function Slot(p: nat, size: nat): (r: nat)
    requires p < 2 * size
    ensures r < size
  {
    if p < size then p else p - size
  }

  /** The `n` bytes of the circular buffer `b` starting at slot `from`. */
  function Ring(b: seq<Byte>, from: nat, n: nat): (r: seq<Byte>)
    requires from < |b| && n <= |b|
    ensures |r| == n
  {
    if n == 0 then [] else Ring(b, from, n - 1) + [b[Slot(from + n - 1, |b|)]]
  }

  /** Slots from `from` up to (not including) `k`, going round. */
  function Distance(from: nat, k: nat, size: nat): nat
    requires from < size
  {
    if from <= k then k - from else size - from + k
  }

  /** Writing a slot outside the region leaves the region's bytes alone. */
  lemma {:induction false} RingUpdate(b: seq<Byte>, from: nat, n: nat, k: nat, c: Byte)
    requires from < |b| && k < |b| && n <= Distance(from, k, |b|) && n <= |b|
    ensures Ring(b[k := c], from, n) == Ring(b, from, n)
  {
    if n > 0 {
      RingUpdate(b, from, n - 1, k, c);
    }
  }

  /** Dropping the oldest byte moves the start one slot on. */
  lemma {:induction false} RingTail(b: seq<Byte>, from: nat, n: nat)
    requires from < |b| && 0 < n <= |b|
    ensures Ring(b, from, n)[0] == b[from]
    ensures Ring(b, from, n)[1..] == Ring(b, NextPos(from, |b|), n - 1)
  {
    if n > 1 {
      RingTail(b, from, n - 1);
    }
  }

  class BufferIO {
    const size: nat
    const buffer: array<Byte>
    var writePos: nat
    var readPos: nat
    /** The bytes written and not yet read, oldest first. */
    ghost var Contents: seq<Byte>

    ghost predicate Valid()
      reads this, buffer
    {
      && buffer.Length == size
      && writePos < size && readPos < size
      && |Contents| == Distance(readPos, writePos, size)
      && Contents == Ring(buffer[..], readPos, |Contents|)
    }

    /** Free space: one slot always stays empty. */
    ghost function Room(): (n: int)
      reads this, buffer
      requires Valid()
      ensures n == size - 1 - |Contents| && 0 <= n
    {
      size - 1 - |Contents|
    }

    constructor (n: nat)
      requires n > 0
      ensures Valid() && fresh(buffer)
      ensures size == n && Contents == []
    {
      size := n;
      buffer := new Byte[n];
      writePos, readPos := 0, 0;
      Contents := [];
    }

    /**
     * `writeChar`: refuses a byte when the buffer is full and otherwise
     * appends it. (The library's definition has no `return true` on the
     * success path; success is reported here as `true`.)
     */
    method WriteChar(c: Byte) returns (ok: bool)
      requires Valid()
      modifies this, buffer
      ensures Valid()
      ensures ok <==> old(Room()) > 0
      ensures Contents == if ok then old(Contents) + [c] else old(Contents)
    {
      var next := NextPos(writePos, size);
      if next == readPos {
        return false;
      }
      RingUpdate(buffer[..], readPos, |Contents|, writePos, c);
      buffer[writePos] := c;
      writePos := next;
      Contents := Contents + [c];
      ok := true;
    }

    /** `isCharAvailable`: something has been written and not yet read. */
    method IsCharAvailable() returns (available: bool)
      requires Valid()
      ensures available <==> Contents != []
    {
      available := writePos != readPos;
    }

    /** `getChar`: the oldest byte, which is then removed. */
    method GetChar() returns (c: Byte)
      requires Valid() && Contents != []
      modifies this
      ensures Valid()
      ensures c == old(Contents)[0] && Contents == old(Contents)[1..]
    {
      c := buffer[readPos];
      var next := NextPos(readPos, size);
      RingTail(buffer[..], readPos, |Contents|);
      readPos := next;
      Contents := Contents[1..];
    }
  }

  /**
   * The buffer is first-in first-out: bytes written into an empty buffer
   * come back out in the order they went in.
   */
  method Transfer(io: BufferIO, bytes: seq<Byte>) returns (out: seq<Byte>)
    requires io.Valid() && io.Contents == [] && |bytes| < io.size
    modifies io, io.buffer
    ensures io.Valid() && io.Contents == []
    ensures out == bytes
  {
    var i := 0;
    while i < |bytes|
      invariant io.Valid() && i <= |bytes|
      invariant io.Contents == bytes[..i]
    {
      var ok := io.WriteChar(bytes[i]);
      assert ok;
      i := i + 1;
    }
    out := [];
    while true
      invariant io.Valid()
      invariant out + io.Contents == bytes
      decreases |io.Contents|
    {
      var available := io.IsCharAvailable();
      if !available {
        break;
      }
      var c := io.GetChar();
      out := out + [c];
    }
  }
}
