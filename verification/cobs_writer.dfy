/**
 * The COBS writer (`COBSWriter`): it stuffs a packet straight into the
 * region a buffered writer lends it. Each block's code byte is written once
 * the block is finished, into a slot reserved when the block was opened.
 * The writer succeeds exactly when the stuffed frame fits the region, with
 * one spare byte: `finishBlock` always reserves the next code slot, even
 * after the last block.
 */
module CobsEncode {
  import opened Bytes
  import opened Checksum
  import opened CobsFormat

  // ---------------------------------------------------------------------
  // The region during an envelope

  /**
   * The region `r` inside an envelope with message code `msg` after the
   * bytes `s`: the header and the finished blocks, the slot `codePos`
   * reserved for the open block's code, then the open block up to `dst`;
   * `code` is the open block's code.
   */
  ghost predicate Layout(r: seq<Byte>, msg: Byte, s: seq<Byte>, code: Byte, codePos: nat, dst: nat)
  {
    var st := Stuffed(s);
    && msg < 255
    && codePos == 2 + |st.closed| && dst == codePos + 1 + |st.block| && dst <= |r|
    && code == |st.block| + 1
    && r[..codePos] == [0x00, CodeByte(msg)] + st.closed
    && r[codePos + 1..dst] == st.block
  }

  /** Writing the code slot between the finished blocks and the open block. */
  lemma FillSlot(r: seq<Byte>, head: seq<Byte>, blk: seq<Byte>, pos: nat, end: nat, v: Byte)
    requires pos < end <= |r| && r[..pos] == head && r[pos + 1..end] == blk
    ensures r[pos := v][..end] == head + [v] + blk
  {
    var t := r[pos := v];
    assert t[..end] == t[..pos] + [t[pos]] + t[pos + 1..end];
  }

  /** A zero closes the open block: its code fills the slot and the next slot is reserved. */
  lemma LayoutZero(r: seq<Byte>, msg: Byte, s: seq<Byte>, code: Byte, codePos: nat, dst: nat)
    requires Layout(r, msg, s, code, codePos, dst) && dst < |r|
    ensures Layout(r[codePos := code], msg, s + [0], 1, dst, dst + 1)
  {
    var st := Stuffed(s);
    StuffedSnoc(s, 0);
    FillSlot(r, [0x00, CodeByte(msg)] + st.closed, st.block, codePos, dst, code);
    var t := r[codePos := code];
    assert t[..dst] == [0x00, CodeByte(msg)] + (st.closed + [|st.block| + 1] + st.block);
  }

  /** A non-zero byte that leaves the block short of 254 bytes joins it. */
  lemma LayoutAppend(r: seq<Byte>, msg: Byte, s: seq<Byte>, code: Byte, codePos: nat, dst: nat, b: Byte)
    requires Layout(r, msg, s, code, codePos, dst) && dst < |r|
    requires b != 0 && |Stuffed(s).block| < 253
    ensures code < 254 && Layout(r[dst := b], msg, s + [b], code + 1, codePos, dst + 1)
  {
    var st := Stuffed(s);
    StuffedSnoc(s, b);
    var t := r[dst := b];
    assert t[..codePos] == r[..codePos];
    assert t[codePos + 1..dst + 1] == t[codePos + 1..dst] + [t[dst]];
  }

  /** The 254th non-zero byte of a block closes it with code 0xFF. */
  lemma LayoutFull(r: seq<Byte>, msg: Byte, s: seq<Byte>, code: Byte, codePos: nat, dst: nat, b: Byte)
    requires Layout(r, msg, s, code, codePos, dst) && dst + 1 < |r|
    requires b != 0 && |Stuffed(s).block| == 253
    ensures code == 254 && Layout(r[dst := b][codePos := 0xFF], msg, s + [b], 1, dst + 1, dst + 2)
  {
    var st := Stuffed(s);
    StuffedSnoc(s, b);
    var t := r[dst := b];
    assert t[..codePos] == r[..codePos];
    assert t[codePos + 1..dst + 1] == st.block + [b] by {
      assert t[codePos + 1..dst + 1] == t[codePos + 1..dst] + [t[dst]];
    }
    FillSlot(t, [0x00, CodeByte(msg)] + st.closed, st.block + [b], codePos, dst + 1, 0xFF);
    assert t[codePos := 0xFF][..dst + 1] == [0x00, CodeByte(msg)] + (st.closed + [0xFF] + st.block + [b]);
  }

  /** Filling the last code slot completes the header and the stuffed bytes. */
  lemma LayoutClose(r: seq<Byte>, msg: Byte, s: seq<Byte>, code: Byte, codePos: nat, dst: nat)
    requires Layout(r, msg, s, code, codePos, dst)
    ensures r[codePos := code][..dst] == [0x00, CodeByte(msg)] + Stuff(s)
  {
    var st := Stuffed(s);
    FillSlot(r, [0x00, CodeByte(msg)] + st.closed, st.block, codePos, dst, code);
  }

  /** Failing bytes: a byte fits exactly when the stuffed bytes, with it, fit. */
  lemma LayoutRoom(r: seq<Byte>, msg: Byte, s: seq<Byte>, code: Byte, codePos: nat, dst: nat, b: Byte)
    requires Layout(r, msg, s, code, codePos, dst)
    ensures 3 + StuffedLength(s + [b]) == dst + (if b != 0 && |Stuffed(s).block| == 253 then 2 else 1)
  {
    StuffedLengthStep(s, b);
  }

  /**
   * Writing one more byte of `data` extends what was written, and what fails
   * to fit after the first i + 1 bytes cannot fit with the whole of `data`.
   */
  lemma WrittenPrefix(s: seq<Byte>, data: seq<Byte>, i: nat)
    requires i < |data|
    ensures s + data[..i + 1] == (s + data[..i]) + [data[i]]
    ensures StuffedLength(s + data[..i + 1]) <= StuffedLength(s + data)
  {
    assert data[..i + 1] == data[..i] + [data[i]];
    assert s + data == (s + data[..i + 1]) + data[i + 1..];
    StuffedLengthMonotone(s + data[..i + 1], data[i + 1..]);
  }

  /** The stuffed frame's length: the header, the stuffed bytes with their last code, and the closing zero. */
  lemma FrameLength(alg: Algorithm, code: Byte, payload: seq<Byte>, terminate: bool)
    requires code < 255
    ensures var body := payload + DigestBytes(alg, [CodeByte(code)] + payload);
      |CobsFrame(alg, code, payload, terminate)| == 3 + StuffedLength(body) + (if terminate then 1 else 0)
  {
  }

  /**
   * A frame is at least three bytes plus the payload and its checksum, and
   * COBS adds at most one byte per 254 to them.
   */
  lemma FrameLengthBounds(alg: Algorithm, code: Byte, payload: seq<Byte>, terminate: bool)
    requires code < 255
    ensures var n := |payload| + SumWidth(alg);
      var len := |CobsFrame(alg, code, payload, terminate)| - (if terminate then 1 else 0);
      3 + n <= len <= 3 + n + n / 254
  {
    var body := payload + DigestBytes(alg, [CodeByte(code)] + payload);
    FrameLength(alg, code, payload, terminate);
    StuffedLengthBounds(body);
  }

  // ---------------------------------------------------------------------
  // Writer

  class CobsWriter {
    const algorithm: Algorithm
    /** The writer's region: `dataPointer()` up to `dataPointer() + dataSize()`. */
    const region: array<Byte>
    /** `m_checksum`. */
    const checksum: ChecksumGenerator
    /** `m_code`: one more than the length of the open block. */
    var code: Byte
    /** `m_codePtr`, as an offset into the region: the slot reserved for the open block's code. */
    var codePos: nat
    /** `m_dstPtr`, as an offset into the region. */
    var dst: nat
    /** The message code of the open envelope (the library does not keep it). */
    ghost var msgCode: Byte
    /** The bytes written into the open envelope. */
    ghost var sent: seq<Byte>

    /** The parts every call relies on. */
    ghost predicate Valid()
      reads this, checksum
    {
      checksum.Valid() && checksum.algorithm == algorithm
    }

    /**
     * Inside an envelope: the region holds the header and the finished blocks
     * of the stuffed bytes, then the reserved code slot and the open block.
     */
    ghost predicate InEnvelope()
      reads this, region, checksum
    {
      && Valid()
      && Layout(region[..], msgCode, sent, code, codePos, dst)
      && checksum.fed == [CodeByte(msgCode)] + sent
    }

    constructor (alg: Algorithm, out: array<Byte>)
      ensures Valid() && algorithm == alg && region == out && fresh(checksum)
    {
      algorithm, region := alg, out;
      checksum := new ChecksumGenerator(alg);
      code, codePos, dst := 1, 0, 0;
      msgCode, sent := 0, [];
    }

    /**
     * `startEnvelope`: a zero and the message code plus one, then the slot for
     * the first block's code. It needs a region of three bytes and a code
     * below 255.
     */
    method StartEnvelope(msg: Byte) returns (ok: bool)
      requires Valid()
      modifies this, region, checksum
      ensures Valid()
      ensures ok <==> region.Length > 2 && msg < 255
      ensures ok ==> InEnvelope() && msgCode == msg && sent == []
      ensures !ok ==> region[..] == old(region[..])
    {
      dst := 0;
      if dst + 2 >= region.Length {
        return false;
      }
      checksum.Reset();
      if msg >= 255 {
        return false;
      }
      region[dst] := 0x00;
      dst := dst + 1;
      // The region holds at least three bytes, so this write finds room.
      ok := WriteAndChecksum(CodeByte(msg));
      code := 1;
      codePos := dst;
      dst := dst + 1;
      msgCode, sent := msg, [];
      assert region[..codePos] == [0x00, CodeByte(msg)];
    }

    /** `writeAndChecksum`: the byte goes into the checksum first, then into the region if it has room. */
    method WriteAndChecksum(c: Byte) returns (ok: bool)
      requires Valid() && dst <= region.Length
      modifies this`dst, region, checksum
      ensures Valid() && checksum.fed == old(checksum.fed) + [c]
      ensures ok <==> old(dst) < region.Length
      ensures ok ==> dst == old(dst) + 1 && region[..] == old(region[..])[old(dst) := c]
      ensures !ok ==> dst == old(dst) && region[..] == old(region[..])
    {
      checksum.Add(c);
      if dst == region.Length {
        return false;
      }
      region[dst] := c;
      dst := dst + 1;
      ok := true;
    }

    /** `finishBlock`: the code goes into its slot, and a new slot is reserved if there is room. */
    method FinishBlock(blockCode: Byte) returns (ok: bool)
      requires codePos < region.Length && dst <= region.Length
      modifies this`code, this`codePos, this`dst, region
      ensures region[..] == old(region[..])[old(codePos) := blockCode]
      ensures ok <==> old(dst) < region.Length
      ensures ok ==> codePos == old(dst) && dst == old(dst) + 1 && code == 1
      ensures !ok ==> codePos == old(codePos) && dst == old(dst) && code == old(code)
    {
      region[codePos] := blockCode;
      if dst == region.Length {
        return false;
      }
      codePos := dst;
      dst := dst + 1;
      code := 1;
      ok := true;
    }

    /**
     * One byte of `write`. A zero is checksummed and closes the open block;
     * any other byte is written and closes the block when it is the 254th.
     * The byte fits exactly when the stuffed bytes, with it, fit the region.
     */
    method WriteByte(b: Byte) returns (ok: bool)
      requires InEnvelope()
      modifies this, region, checksum
      ensures Valid()
      ensures ok <==> 3 + StuffedLength(old(sent) + [b]) <= region.Length
      ensures ok ==> InEnvelope() && sent == old(sent) + [b] && msgCode == old(msgCode)
    {
      if b == 0 {
        ok := WriteZero();
      } else {
        ok := WriteNonZero(b);
      }
    }

    /** A zero byte of `write`: into the checksum, then the open block is finished. */
    method WriteZero() returns (ok: bool)
      requires InEnvelope()
      modifies this, region, checksum
      ensures Valid()
      ensures ok <==> 3 + StuffedLength(old(sent) + [0]) <= region.Length
      ensures ok ==> InEnvelope() && sent == old(sent) + [0] && msgCode == old(msgCode)
    {
      ghost var r0, code0, codePos0, dst0 := region[..], code, codePos, dst;
      LayoutRoom(r0, msgCode, sent, code, codePos, dst, 0);
      checksum.Add(0x00);
      ok := FinishBlock(code);
      if !ok {
        return;
      }
      LayoutZero(r0, msgCode, sent, code0, codePos0, dst0);
      AppendAssoc([CodeByte(msgCode)], sent, [0]);
      sent := sent + [0];
    }

    /** A non-zero byte of `write`: written and checksummed; the 254th byte of a block finishes it. */
    method WriteNonZero(b: Byte) returns (ok: bool)
      requires InEnvelope() && b != 0
      modifies this, region, checksum
      ensures Valid()
      ensures ok <==> 3 + StuffedLength(old(sent) + [b]) <= region.Length
      ensures ok ==> InEnvelope() && sent == old(sent) + [b] && msgCode == old(msgCode)
    {
      ghost var r0, code0, codePos0, dst0 := region[..], code, codePos, dst;
      LayoutRoom(r0, msgCode, sent, code, codePos, dst, b);
      ok := WriteAndChecksum(b);
      if !ok {
        return;
      }
      code := code + 1;
      if code == 0xFF {
        ok := FinishBlock(code);
        if !ok {
          return;
        }
        LayoutFull(r0, msgCode, sent, code0, codePos0, dst0, b);
      } else {
        LayoutAppend(r0, msgCode, sent, code0, codePos0, dst0, b);
      }
      AppendAssoc([CodeByte(msgCode)], sent, [b]);
      sent := sent + [b];
    }

    /** `write`: the bytes one by one, stopping at the first that does not fit. */
    method Write(data: seq<Byte>) returns (ok: bool)
      requires InEnvelope()
      modifies this, region, checksum
      ensures Valid()
      ensures ok <==> 3 + StuffedLength(old(sent) + data) <= region.Length
      ensures ok ==> InEnvelope() && sent == old(sent) + data && msgCode == old(msgCode)
    {
      ghost var sent0, code0 := sent, msgCode;
      var i := 0;
      while i < |data|
        invariant 0 <= i <= |data| && InEnvelope()
        invariant sent == sent0 + data[..i] && msgCode == code0
      {
        WrittenPrefix(sent0, data, i);
        ok := WriteByte(data[i]);
        if !ok {
          return;
        }
        i := i + 1;
      }
      assert data[..i] == data;
      ok := true;
    }

    /**
     * `endEnvelope`: the checksum (least significant byte first) goes through
     * `write`, the last block is finished, the reserved slot after it is given
     * back, and a terminating zero follows when asked for. The packet length
     * handed to `packetComplete` is returned as `length`.
     */
    method EndEnvelope(terminate: bool) returns (ok: bool, length: nat)
      requires InEnvelope()
      modifies this, region, checksum
      ensures Valid()
      ensures ok <==> |CobsFrame(algorithm, old(msgCode), old(sent), true)| <= region.Length
      ensures ok ==> length == |CobsFrame(algorithm, old(msgCode), old(sent), terminate)| <= region.Length
      ensures ok ==> region[..length] == CobsFrame(algorithm, old(msgCode), old(sent), terminate)
    {
      ghost var payload := sent;
      var sum := checksum.Value();
      var bytes := LittleEndian(sum, SumWidth(algorithm));
      ghost var all := payload + bytes;
      assert bytes == DigestBytes(algorithm, [CodeByte(msgCode)] + payload);
      FrameLength(algorithm, msgCode, payload, true);
      FrameLength(algorithm, msgCode, payload, terminate);
      length := 0;
      ok := Write(bytes);
      if !ok {
        return;
      }
      ghost var r0 := region[..];
      LayoutClose(r0, msgCode, all, code, codePos, dst);
      ok := FinishBlock(code);
      if !ok {
        return;
      }
      dst := dst - 1;
      assert region[..dst] == [0x00, CodeByte(msgCode)] + Stuff(all);
      if terminate {
        // `finishBlock` left room for a code byte here, so this check always passes.
        assert dst < region.Length;
        region[dst] := 0x00;
        dst := dst + 1;
        assert region[..dst] == [0x00, CodeByte(msgCode)] + Stuff(all) + [0x00];
      }
      length := dst;
    }

    /** `send`: one envelope around a message whose serialisation writes `payload`. */
    method Send(msg: Byte, payload: seq<Byte>, terminate: bool) returns (ok: bool, length: nat)
      requires Valid()
      modifies this, region, checksum
      ensures Valid()
      ensures ok <==> msg < 255 && |CobsFrame(algorithm, msg, payload, true)| <= region.Length
      ensures ok ==> length == |CobsFrame(algorithm, msg, payload, terminate)|
      ensures ok ==> region[..length] == CobsFrame(algorithm, msg, payload, terminate)
    {
      length := 0;
      ok := StartEnvelope(msg);
      if !ok {
        if msg < 255 {
          FrameLengthBounds(algorithm, msg, payload, true);
        }
        return;
      }
      ok := Write(payload);
      assert [] + payload == payload;
      if !ok {
        FrameLength(algorithm, msg, payload, true);
        StuffedLengthMonotone(payload, DigestBytes(algorithm, [CodeByte(msg)] + payload));
        return;
      }
      ok, length := EndEnvelope(terminate);
    }
  }
}
