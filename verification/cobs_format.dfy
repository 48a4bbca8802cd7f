/**
 * Consistent overhead byte stuffing as the COBS writer produces it. The
 * stuffed stream is a run of blocks, each a code byte followed by
 * `code - 1` non-zero bytes. A block with code below 0xFF stands for its
 * bytes followed by a zero; a block with code 0xFF stands for its 254 bytes
 * alone. The last block's implied zero is not part of the data.
 */
module CobsFormat {
  import opened Bytes
  import opened Checksum

  /** No zero byte anywhere in `s`. */
  predicate NoZero(s: seq<Byte>)
  {
    forall i :: 0 <= i < |s| ==> s[i] != 0
  }

  /**
   * The writer's position in the stuffed stream: the blocks already
   * finished, each with its code byte (`closed`), and the bytes of the open
   * block, whose code byte is still reserved (`block`).
   */
  datatype Stuffing = Stuffing(closed: seq<Byte>, block: seq<Byte>)

  /** An open block of at most 253 bytes; its code `|block| + 1` is then below 0xFF. */
  predicate Open(st: Stuffing)
  {
    |st.block| <= 253
  }

  /**
   * One byte of `write`: a zero closes the open block with code
   * `|block| + 1`; the 254th non-zero byte of a block closes it with code
   * 0xFF; any other byte joins the open block.
   */
  function StuffStep(st: Stuffing, b: Byte): (r: Stuffing)
    requires Open(st)
    ensures Open(r)
  {
    if b == 0 then Stuffing(st.closed + [|st.block| + 1] + st.block, [])
    else if |st.block| == 253 then Stuffing(st.closed + [0xFF] + st.block + [b], [])
    else Stuffing(st.closed, st.block + [b])
  }

  /** The stuffing state after the bytes `s` of a packet. */
  function Stuffed(s: seq<Byte>): (st: Stuffing)
    ensures Open(st) && NoZero(st.block) && NoZero(st.closed)
    ensures |st.block| <= |s|
  {
    if |s| == 0 then Stuffing([], [])
    else
      var prev := Stuffed(s[..|s| - 1]);
      var b := s[|s| - 1];
      assert s[..|s| - 1] + [b] == s;
      StuffStep(prev, b)
  }

  /** The stuffed form of `s`: the finished blocks and the last block with its code. */
  function Stuff(s: seq<Byte>): (r: seq<Byte>)
    ensures |s| < |r| <= |s| + 1 + |s| / 254
  {
    StuffedLengthBounds(s);
    var st := Stuffed(s);
    st.closed + [|st.block| + 1] + st.block
  }

  /** Bytes written for `s` after the header, counting the last block's code slot. */
  function StuffedLength(s: seq<Byte>): nat
  {
    |Stuffed(s).closed| + |Stuffed(s).block|
  }

  /** The bytes before the open block: those the finished blocks stand for. */
  function ClosedPart(s: seq<Byte>): (c: seq<Byte>)
    ensures c + Stuffed(s).block == s
  {
    if |s| == 0 then []
    else
      var init, b := s[..|s| - 1], s[|s| - 1];
      assert init + [b] == s;
      if b == 0 || |Stuffed(init).block| == 253 then s
      else
        var c := ClosedPart(init);
        assert c + (Stuffed(init).block + [b]) == s;
        c
  }

  /** The message code as the writer sends it: one more, so that it is never zero. */
  function CodeByte(code: Byte): Byte
    requires code < 255
  {
    code + 1
  }

  /**
   * The wire image of one packet: a zero, the message code plus one, the
   * stuffed payload followed by its checksum (least significant byte first),
   * and, when the packet is terminated, a closing zero.
   */
  function CobsFrame(alg: Algorithm, code: Byte, payload: seq<Byte>, terminate: bool): (r: seq<Byte>)
    requires code < 255
    ensures 3 + |payload| + SumWidth(alg) + (if terminate then 1 else 0) <= |r|
    ensures r[0] == 0x00 && r[1] != 0x00
  {
    [0x00, CodeByte(code)] + Stuff(payload + DigestBytes(alg, [CodeByte(code)] + payload)) + (if terminate then [0x00] else [])
  }

  // ---------------------------------------------------------------------
  // Properties of the stuffed form

  /** Stuffing removes every zero: the only zeros on the wire are frame delimiters. */
  lemma StuffHasNoZero(s: seq<Byte>)
    ensures NoZero(Stuff(s))
  {
    var st := Stuffed(s);
    assert Stuff(s) == st.closed + ([|st.block| + 1] + st.block);
  }

  /** A frame holds a zero only at its start and, when terminated, at its end. */
  lemma FrameZeros(alg: Algorithm, code: Byte, payload: seq<Byte>, terminate: bool, i: nat)
    requires code < 255 && i < |CobsFrame(alg, code, payload, terminate)|
    ensures CobsFrame(alg, code, payload, terminate)[i] == 0 <==>
      i == 0 || (terminate && i == |CobsFrame(alg, code, payload, terminate)| - 1)
  {
    var body := Stuff(payload + DigestBytes(alg, [CodeByte(code)] + payload));
    StuffHasNoZero(payload + DigestBytes(alg, [CodeByte(code)] + payload));
    var f := CobsFrame(alg, code, payload, terminate);
    if 2 <= i < 2 + |body| {
      assert f[i] == body[i - 2];
    }
  }

  /** Each byte adds one byte to the stuffed stream, or two when it completes a 254-byte block. */
  lemma StuffedLengthStep(s: seq<Byte>, b: Byte)
    ensures StuffedLength(s + [b]) == StuffedLength(s) + if b != 0 && |Stuffed(s).block| == 253 then 2 else 1
  {
    assert (s + [b])[..|s + [b]| - 1] == s;
  }

  /** Stuffing one more byte is one step of `StuffStep`. */
  lemma StuffedSnoc(s: seq<Byte>, b: Byte)
    ensures Stuffed(s + [b]) == StuffStep(Stuffed(s), b)
  {
    assert (s + [b])[..|s|] == s;
  }

  /** A byte that closes a block moves the open block, and the byte itself unless it is a zero, into the closed part. */
  lemma ClosedPartSnoc(s: seq<Byte>, b: Byte)
    ensures Stuffed(s + [b]) == StuffStep(Stuffed(s), b)
    ensures ClosedPart(s + [b]) == ClosedPart(s) +
      (if b == 0 then Stuffed(s).block + [0] else if |Stuffed(s).block| == 253 then Stuffed(s).block + [b] else [])
  {
    StuffedSnoc(s, b);
    var st := Stuffed(s);
    var t := s + [b];
    assert t[..|t| - 1] == s && t[|t| - 1] == b;
    if b == 0 || |st.block| == 253 {
      assert ClosedPart(t) == t;
      assert ClosedPart(s) + st.block == s;
      AppendAssoc(ClosedPart(s), st.block, [b]);
    } else {
      assert ClosedPart(t) == ClosedPart(s);
      assert ClosedPart(s) + [] == ClosedPart(s);
    }
  }

  /** Stuffing never shrinks as bytes are added. */
  lemma {:induction false} StuffedLengthMonotone(s: seq<Byte>, t: seq<Byte>)
    ensures StuffedLength(s) + |t| <= StuffedLength(s + t)
    decreases |t|
  {
    if |t| == 0 {
      assert s + t == s;
    } else {
      var init := t[..|t| - 1];
      StuffedLengthMonotone(s, init);
      assert s + t == (s + init) + [t[|t| - 1]];
      StuffedLengthStep(s + init, t[|t| - 1]);
    }
  }

  /**
   * The overhead of COBS: one extra byte for the last block's code, and one
   * more per run of 254 non-zero bytes, so at most one per 254 bytes.
   */
  lemma StuffedLengthBounds(s: seq<Byte>)
    ensures |s| <= StuffedLength(s) <= |s| + |s| / 254
  {
    StuffedOverhead(s);
  }

  /** Each extra byte is paid for by 254 bytes, the open block's included. */
  lemma {:induction false} StuffedOverhead(s: seq<Byte>)
    ensures |s| <= StuffedLength(s)
    ensures (StuffedLength(s) - |s|) * 254 + |Stuffed(s).block| <= |s|
    decreases |s|
  {
    if |s| > 0 {
      var init := s[..|s| - 1];
      StuffedOverhead(init);
      assert init + [s[|s| - 1]] == s;
      StuffedLengthStep(init, s[|s| - 1]);
    }
  }
}
