/**
 * The read-only window that both envelope readers hand to deserialisation
 * (`EnvelopeReader::Reader`, `COBSReader::Reader`; the two are identical).
 * It borrows the reader's decoded bytes `m_buffer[0 .. m_idx)` and keeps its
 * own cursor. The bytes are captured when the window is made: callers must
 * not feed the envelope reader while a window is in use, so nothing can
 * change them meanwhile.
 */
module Window {
  import opened Bytes

  /** A message as a reader reports it: `msgCode()` and the decoded bytes. */
  datatype Message = Message(code: Byte, payload: seq<Byte>)

  class Reader {
    /** The decoded bytes of the last message. */
    const data: seq<Byte>
    /** `m_idx`: how many of them have been consumed. */
    var idx: nat

    ghost predicate Valid()
      reads this
    {
      idx <= |data|
    }

    /** Not yet consumed. */
    ghost function Rest(): seq<Byte>
      reads this
      requires Valid()
    {
      data[idx..]
    }

    /** A window at the start of `bytes` (`Reader(envReader)`). */
    constructor (bytes: seq<Byte>)
      ensures Valid() && data == bytes && idx == 0
    {
      data := bytes;
      idx := 0;
    }

    /** A copy of `other` (the value copy `m_reader = *reader` in `List`). */
    constructor Copy(other: Reader)
      requires other.Valid()
      ensures Valid() && data == other.data && idx == other.idx
    {
      data := other.data;
      idx := other.idx;
    }

    /** `read`: the next `size` bytes, or false without moving if fewer remain. */
    method Read(size: nat) returns (ok: bool, bytes: seq<Byte>)
      requires Valid()
      modifies this
      ensures Valid()
      ensures ok <==> old(idx) + size <= |data|
      ensures ok ==> bytes == old(Rest())[..size] && idx == old(idx) + size
      ensures !ok ==> bytes == [] && idx == old(idx)
    {
      if idx + size > |data| {
        return false, [];
      }
      bytes := data[idx..idx + size];
      idx := idx + size;
      ok := true;
    }

    /** `skip`: advance by `size`, or false without moving if fewer remain. */
    method Skip(size: nat) returns (ok: bool)
      requires Valid()
      modifies this
      ensures Valid()
      ensures ok <==> old(idx) + size <= |data|
      ensures idx == if ok then old(idx) + size else old(idx)
    {
      if idx + size > |data| {
        return false;
      }
      idx := idx + size;
      ok := true;
    }
  }
}
