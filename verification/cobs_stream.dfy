/**
 * The COBS reader over whole byte streams. `Run` feeds a stream to `Step`
 * and records what `take` reported. The lemmas show that the reader decodes
 * what the writer stuffs, that a packet made by the writer is delivered
 * intact whatever state the reader was in, that packets follow one another,
 * that an unterminated packet is
 * closed by the zero that opens the next, and that a changed payload byte
 * is reported as a checksum error.
 */
module CobsStream {
  import opened Bytes
  import opened Checksum
  import opened Window
  import opened CobsFormat
  import opened CobsDecode

  /**
   * The state after a stream, the messages delivered and the error reports.
   * `EnvelopeStream` has its own `Trace` and `Run`: the escape machine has
   * other states and never reports `FRAME_ERROR`, so the two are not shared.
   */
  datatype Trace = Trace(final: ReaderState, delivered: seq<Message>, checksumErrors: nat, frameErrors: nat)

  /** What one `take` hands to its caller. */
  function Emit(s: ReaderState, r: TakeResult): (m: seq<Message>)
    ensures |m| <= 1
    ensures m != [] <==> r == NewMessage
  {
    if r == NewMessage then [Message(s.msgCode, s.data)] else []
  }

  function Run(cfg: Config, s: ReaderState, input: seq<Byte>): Trace
    decreases |input|
  {
    if |input| == 0 then Trace(s, [], 0, 0)
    else
      var (next, r) := Step(cfg, s, input[0]);
      var rest := Run(cfg, next, input[1..]);
      Trace(rest.final, Emit(next, r) + rest.delivered,
            (if r == ChecksumError then 1 else 0) + rest.checksumErrors,
            (if r == FrameError then 1 else 0) + rest.frameErrors)
  }

  /** One trace followed by another. */
  function Then(a: Trace, b: Trace): Trace
  {
    Trace(b.final, a.delivered + b.delivered, a.checksumErrors + b.checksumErrors, a.frameErrors + b.frameErrors)
  }

  /** A trace of a stream that reports nothing. */
  function Quiet(s: ReaderState): Trace
  {
    Trace(s, [], 0, 0)
  }

  /** A stream can be cut anywhere: the reader simply carries on from where it was. */
  lemma {:induction false} RunAppend(cfg: Config, s: ReaderState, a: seq<Byte>, b: seq<Byte>)
    ensures Run(cfg, s, a + b) == Then(Run(cfg, s, a), Run(cfg, Run(cfg, s, a).final, b))
    decreases |a|
  {
    if |a| == 0 {
      assert a + b == b;
    } else {
      assert (a + b)[0] == a[0];
      assert (a + b)[1..] == a[1..] + b;
      var next := Step(cfg, s, a[0]).0;
      RunAppend(cfg, next, a[1..], b);
      AppendAssoc(Emit(next, Step(cfg, s, a[0]).1), Run(cfg, next, a[1..]).delivered,
                  Run(cfg, Run(cfg, next, a[1..]).final, b).delivered);
    }
  }

  /** A stream of one byte. */
  lemma RunOne(cfg: Config, s: ReaderState, c: Byte)
    ensures var (next, r) := Step(cfg, s, c);
      Run(cfg, s, [c]) == Trace(next, Emit(next, r), if r == ChecksumError then 1 else 0, if r == FrameError then 1 else 0)
  {
    assert [c][1..] == [];
  }

  /** A stream is its first byte followed by the rest. */
  lemma RunCons(cfg: Config, s: ReaderState, c: Byte, rest: seq<Byte>)
    ensures Run(cfg, s, [c] + rest) == Then(Run(cfg, s, [c]), Run(cfg, Step(cfg, s, c).0, rest))
  {
    RunAppend(cfg, s, [c], rest);
    RunOne(cfg, s, c);
  }

  /** A byte that changes the state and reports nothing. */
  lemma RunQuiet(cfg: Config, s: ReaderState, c: Byte, next: ReaderState)
    requires Step(cfg, s, c) == (next, NeedMoreData)
    ensures Run(cfg, s, [c]) == Quiet(next)
  {
    RunOne(cfg, s, c);
  }

  /** After a stretch that reports nothing, the reader simply carries on. */
  lemma RunAfterQuiet(cfg: Config, s: ReaderState, a: seq<Byte>, mid: ReaderState, b: seq<Byte>)
    requires Run(cfg, s, a) == Quiet(mid)
    ensures Run(cfg, s, a + b) == Run(cfg, mid, b)
  {
    var r := Run(cfg, mid, b);
    RunAppend(cfg, s, a, b);
    assert [] + r.delivered == r.delivered;
  }

  /** Two quiet stretches make one. */
  lemma RunQuietAppend(cfg: Config, s: ReaderState, a: seq<Byte>, mid: ReaderState, b: seq<Byte>, last: ReaderState)
    requires Run(cfg, s, a) == Quiet(mid) && Run(cfg, mid, b) == Quiet(last)
    ensures Run(cfg, s, a + b) == Quiet(last)
  {
    RunAppend(cfg, s, a, b);
  }

  // ---------------------------------------------------------------------
  // Decoding the stuffed form

  /** What one block stands for: its bytes, and a zero unless it is a full 254-byte block. */
  function Decoded(blk: seq<Byte>): seq<Byte>
  {
    if |blk| == 254 then blk else blk + [0]
  }

  /** A zero outside a packet readies the reader for a message code. */
  lemma IdleZeroStep(cfg: Config, s: ReaderState)
    requires s.phase == Start || s.phase == MsgCode
    ensures Step(cfg, s, 0) == (s.(phase := MsgCode), NeedMoreData)
  {
  }

  /** A zero inside a packet closes it. */
  lemma CloseStep(cfg: Config, m: Byte, d: seq<Byte>)
    ensures Step(cfg, ReaderState(CobsCode, m, d), 0) == FinishFrame(cfg, ReaderState(CobsCode, m, d))
  {
  }

  /** A non-zero byte after the opening zero is the message code plus one. */
  lemma MsgCodeStep(cfg: Config, s: ReaderState, c: Byte)
    requires s.phase == MsgCode && c != 0
    ensures Step(cfg, s, c) == (ReaderState(CobsCode, c - 1, []), NeedMoreData)
  {
  }

  /** A block code: 1 stands for a lone zero; a larger code opens a block of `c - 1` bytes. */
  lemma CodeStep(cfg: Config, m: Byte, d: seq<Byte>, c: Byte)
    requires c != 0 && |d| < cfg.max
    ensures Step(cfg, ReaderState(CobsCode, m, d), c) ==
      (if c == 1 then ReaderState(CobsCode, m, d + [0]) else ReaderState(CobsData(c, c - 1), m, d), NeedMoreData)
  {
  }

  /** One data byte of a block with `k` bytes still to come, while the buffer has room. */
  lemma DataStep(cfg: Config, m: Byte, d: seq<Byte>, code: Byte, k: Byte, b: Byte)
    requires 1 <= k && b != 0 && |d| < cfg.max
    ensures Step(cfg, ReaderState(CobsData(code, k), m, d), b) ==
      (if k > 1 then ReaderState(CobsData(code, k - 1), m, d + [b])
       else if code == 0xFF then ReaderState(CobsCode, m, d + [b])
       else if |d| + 1 == cfg.max then ReaderState(Start, m, d + [b])
       else ReaderState(CobsCode, m, d + [b] + [0]), NeedMoreData)
  {
  }

  /**
   * The bytes of a block with `|blk|` bytes still to come are stored as they
   * arrive; after the last, the implied zero is stored unless the code is 0xFF.
   */
  lemma {:induction false} BlockDataRun(cfg: Config, m: Byte, d: seq<Byte>, code: Byte, blk: seq<Byte>)
    requires 1 <= |blk| <= 255 && NoZero(blk)
    requires |d| + |blk| + (if code != 0xFF then 1 else 0) <= cfg.max
    ensures Run(cfg, ReaderState(CobsData(code, |blk|), m, d), blk)
         == Quiet(ReaderState(CobsCode, m, d + blk + (if code != 0xFF then [0] else [])))
    decreases |blk|
  {
    var s := ReaderState(CobsData(code, |blk|), m, d);
    var b := blk[0];
    var tail: seq<Byte> := if code != 0xFF then [0] else [];
    var last := ReaderState(CobsCode, m, d + blk + tail);
    assert blk == [b] + blk[1..];
    DataStep(cfg, m, d, code, |blk|, b);
    if |blk| == 1 {
      assert d + blk == d + [b];
      assert Step(cfg, s, b) == (last, NeedMoreData) by {
        if code != 0xFF {
          assert Step(cfg, s, b).0 == ReaderState(CobsCode, m, d + [b] + [0]);
        } else {
          assert tail == [] && d + blk + tail == d + [b];
        }
      }
      RunQuiet(cfg, s, b, last);
    } else {
      var next := ReaderState(CobsData(code, |blk| - 1), m, d + [b]);
      RunQuiet(cfg, s, b, next);
      BlockDataRun(cfg, m, d + [b], code, blk[1..]);
      AppendAssoc(d, [b], blk[1..]);
      assert d + [b] + blk[1..] + tail == d + blk + tail;
      RunQuietAppend(cfg, s, [b], next, blk[1..], last);
    }
  }

  /** A whole block, its code byte `|blk| + 1` first, decodes to what it stands for. */
  lemma ChunkRun(cfg: Config, m: Byte, d: seq<Byte>, blk: seq<Byte>)
    requires |blk| <= 254 && NoZero(blk)
    requires |d| + |Decoded(blk)| <= cfg.max
    ensures Run(cfg, ReaderState(CobsCode, m, d), [|blk| + 1] + blk) == Quiet(ReaderState(CobsCode, m, d + Decoded(blk)))
  {
    var s := ReaderState(CobsCode, m, d);
    CodeStep(cfg, m, d, |blk| + 1);
    if |blk| == 0 {
      assert [|blk| + 1] + blk == [1];
      RunQuiet(cfg, s, 1, ReaderState(CobsCode, m, d + [0]));
    } else {
      var inBlock := ReaderState(CobsData(|blk| + 1, |blk|), m, d);
      RunQuiet(cfg, s, |blk| + 1, inBlock);
      BlockDataRun(cfg, m, d, |blk| + 1, blk);
      RunQuietAppend(cfg, s, [|blk| + 1], inBlock, blk, ReaderState(CobsCode, m, d + Decoded(blk)));
    }
  }

  /** The block a byte closes, with its code byte, is appended to the finished blocks. */
  lemma ClosingChunk(st: Stuffing, b: Byte)
    requires NoZero(st.block) && |st.block| <= 253
    ensures b == 0 ==> StuffStep(st, b).closed == st.closed + ([|st.block| + 1] + st.block)
    ensures b != 0 && |st.block| == 253 ==>
      && NoZero(st.block + [b])
      && StuffStep(st, b).closed == st.closed + ([|st.block + [b]| + 1] + (st.block + [b]))
  {
    AppendAssoc(st.closed, [|st.block| + 1], st.block);
    AppendAssoc(st.closed, [0xFF], st.block + [b]);
  }

  /** A zero closes the open block, which then decodes right after the blocks closed before it. */
  lemma ClosedByZero(cfg: Config, m: Byte, d: seq<Byte>, pre: seq<Byte>, st: Stuffing)
    requires NoZero(st.block) && |st.block| <= 253
    requires |d| + |pre| + |st.block| + 1 <= cfg.max
    requires Run(cfg, ReaderState(CobsCode, m, d), st.closed) == Quiet(ReaderState(CobsCode, m, d + pre))
    ensures Run(cfg, ReaderState(CobsCode, m, d), StuffStep(st, 0).closed)
         == Quiet(ReaderState(CobsCode, m, d + pre + (st.block + [0])))
  {
    ClosingChunk(st, 0);
    ChunkRun(cfg, m, d + pre, st.block);
    RunQuietAppend(cfg, ReaderState(CobsCode, m, d), st.closed, ReaderState(CobsCode, m, d + pre),
                   [|st.block| + 1] + st.block, ReaderState(CobsCode, m, d + pre + (st.block + [0])));
  }

  /** The 254th byte of a block closes it with code 0xFF. */
  lemma ClosedByLength(cfg: Config, m: Byte, d: seq<Byte>, pre: seq<Byte>, st: Stuffing, b: Byte)
    requires NoZero(st.block) && |st.block| == 253 && b != 0
    requires |d| + |pre| + |st.block| + 1 <= cfg.max
    requires Run(cfg, ReaderState(CobsCode, m, d), st.closed) == Quiet(ReaderState(CobsCode, m, d + pre))
    ensures Run(cfg, ReaderState(CobsCode, m, d), StuffStep(st, b).closed)
         == Quiet(ReaderState(CobsCode, m, d + pre + (st.block + [b])))
  {
    var blk := st.block + [b];
    ClosingChunk(st, b);
    ChunkRun(cfg, m, d + pre, blk);
    RunQuietAppend(cfg, ReaderState(CobsCode, m, d), st.closed, ReaderState(CobsCode, m, d + pre),
                   [|blk| + 1] + blk, ReaderState(CobsCode, m, d + pre + blk));
  }

  /** The finished blocks decode to the bytes before the open block. */
  lemma {:induction false} ClosedRun(cfg: Config, m: Byte, d: seq<Byte>, s: seq<Byte>)
    requires |d| + |s| <= cfg.max
    ensures Run(cfg, ReaderState(CobsCode, m, d), Stuffed(s).closed)
         == Quiet(ReaderState(CobsCode, m, d + ClosedPart(s)))
    decreases |s|
  {
    if |s| == 0 {
      assert ClosedPart(s) == [] && d + [] == d;
    } else {
      var init, b := s[..|s| - 1], s[|s| - 1];
      InitLast(s);
      var prev := Stuffed(init);
      ClosedRun(cfg, m, d, init);
      var pre := ClosedPart(init);
      ClosedPartSnoc(init, b);
      var added := if b == 0 then prev.block + [0] else if |prev.block| == 253 then prev.block + [b] else [];
      if b == 0 {
        ClosedByZero(cfg, m, d, pre, prev);
      } else if |prev.block| == 253 {
        ClosedByLength(cfg, m, d, pre, prev, b);
      } else {
        assert d + pre + [] == d + pre;
      }
      AppendAssoc(d, pre, added);
    }
  }

  /** Decoding undoes stuffing: the stuffed bytes decode to the bytes and the last block's implied zero. */
  lemma StuffRun(cfg: Config, m: Byte, d: seq<Byte>, s: seq<Byte>)
    requires |d| + |s| + 1 <= cfg.max
    ensures Run(cfg, ReaderState(CobsCode, m, d), Stuff(s)) == Quiet(ReaderState(CobsCode, m, d + s + [0]))
  {
    var st := Stuffed(s);
    var c := ClosedPart(s);
    var chunk := [|st.block| + 1] + st.block;
    StuffSplit(d, s);
    ClosedRun(cfg, m, d, s);
    ChunkRun(cfg, m, d + c, st.block);
    RunQuietAppend(cfg, ReaderState(CobsCode, m, d), st.closed, ReaderState(CobsCode, m, d + c),
                   chunk, ReaderState(CobsCode, m, d + s + [0]));
  }

  /** The stuffed form is the finished blocks and the open block with its code; together they stand for `s` and a zero. */
  lemma StuffSplit(d: seq<Byte>, s: seq<Byte>)
    ensures var st := Stuffed(s);
      && Stuff(s) == st.closed + ([|st.block| + 1] + st.block)
      && d + ClosedPart(s) + Decoded(st.block) == d + s + [0]
  {
    var st := Stuffed(s);
    var c := ClosedPart(s);
    AppendAssoc(st.closed, [|st.block| + 1], st.block);
    assert Decoded(st.block) == st.block + [0];
    calc {
      d + c + (st.block + [0]);
      { AppendAssoc(d, c, st.block + [0]); }
      d + (c + (st.block + [0]));
      { AppendAssoc(c, st.block, [0]); }
      d + (c + st.block + [0]);
      { assert c + st.block == s; }
      d + (s + [0]);
      { AppendAssoc(d, s, [0]); }
      d + s + [0];
    }
  }

  // ---------------------------------------------------------------------
  // Whole packets

  /** The bytes the writer stuffs for a payload: the payload and its checksum. */
  function Packet(alg: Algorithm, code: Byte, payload: seq<Byte>): seq<Byte>
    requires code < 255
  {
    payload + DigestBytes(alg, [CodeByte(code)] + payload)
  }

  /**
   * The closing zero after a payload `q` and a stored sum `t`: the message
   * is delivered exactly when `t` is the checksum of the code byte and `q`.
   */
  lemma FinishChecks(cfg: Config, ph: Phase, code: Byte, q: seq<Byte>, t: seq<Byte>)
    requires code < 255 && |t| == SumWidth(cfg.alg)
    ensures FinishFrame(cfg, ReaderState(ph, code, q + t + [0])) ==
      if FromLittleEndian(t) == Digest(cfg.alg, [CodeByte(code)] + q)
      then (ReaderState(MsgCode, code, q), NewMessage)
      else (ReaderState(MsgCode, code, q + t), ChecksumError)
  {
    var data := q + t + [0];
    var n := |data| - 1 - SumWidth(cfg.alg);
    assert data[..n] == q && data[n..|data| - 1] == t && data[..|data| - 1] == q + t by {
      assert n == |q|;
    }
    assert [Seed(code)] + data[..n] == [CodeByte(code)] + q by {
      assert Seed(code) == CodeByte(code);
    }
    FinishVerdict(cfg, ReaderState(ph, code, data), Digest(cfg.alg, [CodeByte(code)] + q), FromLittleEndian(t));
  }

  /** From a reader waiting for a code: the code byte, the stuffed packet, then a closing zero. */
  lemma BodyRun(cfg: Config, s: ReaderState, code: Byte, q: seq<Byte>, t: seq<Byte>)
    requires s.phase == MsgCode && code < 255 && |t| == SumWidth(cfg.alg)
    requires |q| + |t| + 1 <= cfg.max
    ensures Run(cfg, s, [CodeByte(code)] + Stuff(q + t)) == Quiet(ReaderState(CobsCode, code, q + t + [0]))
  {
    var open := ReaderState(CobsCode, code, []);
    calc {
      Run(cfg, s, [CodeByte(code)] + Stuff(q + t));
    == { MsgCodeStep(cfg, s, CodeByte(code));
         RunQuiet(cfg, s, CodeByte(code), open);
         RunAfterQuiet(cfg, s, [CodeByte(code)], open, Stuff(q + t)); }
      Run(cfg, open, Stuff(q + t));
    == { StuffRun(cfg, code, [], q + t); assert [] + (q + t) + [0] == q + t + [0]; }
      Quiet(ReaderState(CobsCode, code, q + t + [0]));
    }
  }

  /** The zero after a decoded packet closes it: delivered when the stored sum `t` matches, otherwise one checksum error. */
  lemma CloseRun(cfg: Config, code: Byte, q: seq<Byte>, t: seq<Byte>)
    requires code < 255 && |t| == SumWidth(cfg.alg)
    ensures Run(cfg, ReaderState(CobsCode, code, q + t + [0]), [0]) ==
      if FromLittleEndian(t) == Digest(cfg.alg, [CodeByte(code)] + q)
      then Trace(ReaderState(MsgCode, code, q), [Message(code, q)], 0, 0)
      else Trace(ReaderState(MsgCode, code, q + t), [], 1, 0)
  {
    CloseStep(cfg, code, q + t + [0]);
    RunOne(cfg, ReaderState(CobsCode, code, q + t + [0]), 0);
    FinishChecks(cfg, CobsCode, code, q, t);
  }

  /**
   * A packet whose stuffed bytes carry a payload `q` and a stored sum `t`,
   * read by a reader waiting for a code: delivered when `t` matches,
   * otherwise one checksum error.
   */
  lemma TerminatedBodyRun(cfg: Config, s: ReaderState, code: Byte, q: seq<Byte>, t: seq<Byte>)
    requires s.phase == MsgCode && code < 255 && |t| == SumWidth(cfg.alg)
    requires |q| + |t| + 1 <= cfg.max
    ensures Run(cfg, s, [CodeByte(code)] + Stuff(q + t) + [0]) ==
      if FromLittleEndian(t) == Digest(cfg.alg, [CodeByte(code)] + q)
      then Trace(ReaderState(MsgCode, code, q), [Message(code, q)], 0, 0)
      else Trace(ReaderState(MsgCode, code, q + t), [], 1, 0)
  {
    var full := ReaderState(CobsCode, code, q + t + [0]);
    calc {
      Run(cfg, s, [CodeByte(code)] + Stuff(q + t) + [0]);
    == { BodyRun(cfg, s, code, q, t); RunAfterQuiet(cfg, s, [CodeByte(code)] + Stuff(q + t), full, [0]); }
      Run(cfg, full, [0]);
    == { CloseRun(cfg, code, q, t); }
      if FromLittleEndian(t) == Digest(cfg.alg, [CodeByte(code)] + q)
      then Trace(ReaderState(MsgCode, code, q), [Message(code, q)], 0, 0)
      else Trace(ReaderState(MsgCode, code, q + t), [], 1, 0);
    }
  }

  /** The wire image of a packet: the opening zero, the code byte, the stuffed packet and the closing zero if any. */
  lemma FrameParts(alg: Algorithm, code: Byte, payload: seq<Byte>)
    requires code < 255
    ensures CobsFrame(alg, code, payload, false) == [0x00] + ([CodeByte(code)] + Stuff(Packet(alg, code, payload)))
    ensures CobsFrame(alg, code, payload, true) == [0x00] + ([CodeByte(code)] + Stuff(Packet(alg, code, payload)) + [0x00])
    ensures FromLittleEndian(DigestBytes(alg, [CodeByte(code)] + payload)) == Digest(alg, [CodeByte(code)] + payload)
  {
    FromLittleEndianOfLittleEndian(Digest(alg, [CodeByte(code)] + payload), SumWidth(alg));
  }

  /**
   * Round trip: whatever the reader was doing, the writer's terminated
   * packet is delivered intact after whatever its opening zero closed.
   */
  lemma FrameRoundTrip(cfg: Config, s: ReaderState, code: Byte, payload: seq<Byte>)
    requires code < 255 && |payload| + SumWidth(cfg.alg) + 1 <= cfg.max
    ensures Run(cfg, s, CobsFrame(cfg.alg, code, payload, true))
         == Then(Run(cfg, s, [0x00]), Trace(ReaderState(MsgCode, code, payload), [Message(code, payload)], 0, 0))
  {
    var t := DigestBytes(cfg.alg, [CodeByte(code)] + payload);
    FrameParts(cfg.alg, code, payload);
    RunCons(cfg, s, 0x00, [CodeByte(code)] + Stuff(payload + t) + [0x00]);
    TerminatedBodyRun(cfg, Step(cfg, s, 0x00).0, code, payload, t);
  }

  /** From an idle reader the opening zero reports nothing, so exactly the one message comes out. */
  lemma FrameRoundTripFromIdle(cfg: Config, s: ReaderState, code: Byte, payload: seq<Byte>)
    requires s.phase == Start || s.phase == MsgCode
    requires code < 255 && |payload| + SumWidth(cfg.alg) + 1 <= cfg.max
    ensures Run(cfg, s, CobsFrame(cfg.alg, code, payload, true))
         == Trace(ReaderState(MsgCode, code, payload), [Message(code, payload)], 0, 0)
  {
    FrameRoundTrip(cfg, s, code, payload);
    IdleZeroStep(cfg, s);
    RunQuiet(cfg, s, 0x00, s.(phase := MsgCode));
  }

  /** From an idle reader: the opening zero, the code byte and the stuffed packet, with no closing zero yet. */
  lemma OpenBodyRun(cfg: Config, s: ReaderState, code: Byte, q: seq<Byte>, t: seq<Byte>)
    requires s.phase == Start || s.phase == MsgCode
    requires code < 255 && |t| == SumWidth(cfg.alg) && |q| + |t| + 1 <= cfg.max
    ensures Run(cfg, s, [0x00] + ([CodeByte(code)] + Stuff(q + t))) == Quiet(ReaderState(CobsCode, code, q + t + [0]))
  {
    var waiting := s.(phase := MsgCode);
    IdleZeroStep(cfg, s);
    RunQuiet(cfg, s, 0x00, waiting);
    BodyRun(cfg, waiting, code, q, t);
    RunQuietAppend(cfg, s, [0x00], waiting, [CodeByte(code)] + Stuff(q + t), ReaderState(CobsCode, code, q + t + [0]));
  }

  /** An unterminated packet leaves the reader holding the decoded packet, waiting for a zero. */
  lemma UnterminatedFrame(cfg: Config, s: ReaderState, code: Byte, payload: seq<Byte>)
    requires s.phase == Start || s.phase == MsgCode
    requires code < 255 && |payload| + SumWidth(cfg.alg) + 1 <= cfg.max
    ensures Run(cfg, s, CobsFrame(cfg.alg, code, payload, false))
         == Quiet(ReaderState(CobsCode, code, Packet(cfg.alg, code, payload) + [0]))
  {
    FrameParts(cfg.alg, code, payload);
    OpenBodyRun(cfg, s, code, payload, DigestBytes(cfg.alg, [CodeByte(code)] + payload));
  }

  /** Two terminated packets in a row are delivered as two messages, in order, with no error. */
  lemma TwoFrames(cfg: Config, s: ReaderState, c1: Byte, p1: seq<Byte>, c2: Byte, p2: seq<Byte>)
    requires s.phase == Start || s.phase == MsgCode
    requires c1 < 255 && |p1| + SumWidth(cfg.alg) + 1 <= cfg.max
    requires c2 < 255 && |p2| + SumWidth(cfg.alg) + 1 <= cfg.max
    ensures Run(cfg, s, CobsFrame(cfg.alg, c1, p1, true) + CobsFrame(cfg.alg, c2, p2, true))
         == Trace(ReaderState(MsgCode, c2, p2), [Message(c1, p1), Message(c2, p2)], 0, 0)
  {
    RunAppend(cfg, s, CobsFrame(cfg.alg, c1, p1, true), CobsFrame(cfg.alg, c2, p2, true));
    FrameRoundTripFromIdle(cfg, s, c1, p1);
    FrameRoundTripFromIdle(cfg, ReaderState(MsgCode, c1, p1), c2, p2);
  }

  /**
   * Packets sent without their closing zero (`endEnvelope(false)`) are
   * closed by the zero that opens the next: both messages arrive, in order.
   */
  lemma UnterminatedThenTerminated(cfg: Config, s: ReaderState, c1: Byte, p1: seq<Byte>, c2: Byte, p2: seq<Byte>)
    requires s.phase == Start || s.phase == MsgCode
    requires c1 < 255 && |p1| + SumWidth(cfg.alg) + 1 <= cfg.max
    requires c2 < 255 && |p2| + SumWidth(cfg.alg) + 1 <= cfg.max
    ensures Run(cfg, s, CobsFrame(cfg.alg, c1, p1, false) + CobsFrame(cfg.alg, c2, p2, true))
         == Trace(ReaderState(MsgCode, c2, p2), [Message(c1, p1), Message(c2, p2)], 0, 0)
  {
    var f1, f2 := CobsFrame(cfg.alg, c1, p1, false), CobsFrame(cfg.alg, c2, p2, true);
    var t1 := DigestBytes(cfg.alg, [CodeByte(c1)] + p1);
    var held := ReaderState(CobsCode, c1, p1 + t1 + [0]);
    var first := Trace(ReaderState(MsgCode, c1, p1), [Message(c1, p1)], 0, 0);
    var second := Trace(ReaderState(MsgCode, c2, p2), [Message(c2, p2)], 0, 0);
    calc {
      Run(cfg, s, f1 + f2);
    == { UnterminatedFrame(cfg, s, c1, p1); RunAfterQuiet(cfg, s, f1, held, f2); }
      Run(cfg, held, f2);
    == { FrameRoundTrip(cfg, held, c2, p2); }
      Then(Run(cfg, held, [0x00]), second);
    == { FrameParts(cfg.alg, c1, p1); CloseRun(cfg, c1, p1, t1); }
      Then(first, second);
    }
  }

  /** A payload byte changed to a value the checksum tells apart no longer matches the sum sent with the original. */
  lemma ChangedPayloadMismatch(alg: Algorithm, code: Byte, payload: seq<Byte>, j: nat, v: Byte)
    requires code < 255 && j < |payload| && (v - payload[j]) % Modulus(alg) != 0
    ensures FromLittleEndian(DigestBytes(alg, [CodeByte(code)] + payload)) != Digest(alg, [CodeByte(code)] + payload[j := v])
  {
    FromLittleEndianOfLittleEndian(Digest(alg, [CodeByte(code)] + payload), SumWidth(alg));
    assert ([CodeByte(code)] + payload)[j + 1 := v] == [CodeByte(code)] + payload[j := v];
    DigestDetectsByteChange(alg, [CodeByte(code)] + payload, j + 1, v);
  }

  /**
   * A payload byte changed in transit, to a value the checksum tells apart
   * (a difference that is not a multiple of its modulus), is reported as
   * one checksum error and no message.
   */
  lemma ChangedPayloadRejected(cfg: Config, s: ReaderState, code: Byte, payload: seq<Byte>, j: nat, v: Byte)
    requires s.phase == Start || s.phase == MsgCode
    requires code < 255 && |payload| + SumWidth(cfg.alg) + 1 <= cfg.max
    requires j < |payload| && (v - payload[j]) % Modulus(cfg.alg) != 0
    ensures var t := DigestBytes(cfg.alg, [CodeByte(code)] + payload);
      Run(cfg, s, [0x00, CodeByte(code)] + Stuff(payload[j := v] + t) + [0x00])
        == Trace(ReaderState(MsgCode, code, payload[j := v] + t), [], 1, 0)
  {
    var t := DigestBytes(cfg.alg, [CodeByte(code)] + payload);
    var q := payload[j := v];
    var waiting := s.(phase := MsgCode);
    assert [0x00, CodeByte(code)] + Stuff(q + t) + [0x00] == [0x00] + ([CodeByte(code)] + Stuff(q + t) + [0]);
    RunCons(cfg, s, 0x00, [CodeByte(code)] + Stuff(q + t) + [0]);
    IdleZeroStep(cfg, s);
    RunQuiet(cfg, s, 0x00, waiting);
    ChangedPayloadMismatch(cfg.alg, code, payload, j, v);
    TerminatedBodyRun(cfg, waiting, code, q, t);
  }
}
