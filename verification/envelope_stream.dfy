/**
 * The escape reader over whole byte streams: `Run` feeds a stream to the
 * `Step` machine one byte at a time and records what `take` reported. The
 * lemmas show that a frame made by the writer is delivered intact, that
 * frames follow one another, that a frame whose payload exactly fills the
 * buffer is dropped silently, that a longer one makes the library's reader
 * read the rest of the frame as new traffic while the corrected reader
 * skips it, that a frame with a code START2 refuses is lost, and that a frame
 * restarted from the ESCAPE state is rejected by the
 * library's machine but delivered by the seeded one.
 */
module EnvelopeStream {
  import opened Bytes
  import opened Checksum
  import opened Envelope
  import opened Window

  /**
   * The state after a stream, the messages delivered and the `CHECKSUM_ERROR`
   * count. `CobsStream` has its own `Trace` and `Run`: its machine has other
   * states and also reports `FRAME_ERROR`, so the two are not shared.
   */
  datatype Trace = Trace(final: ReaderState, delivered: seq<Message>, checksumErrors: nat)

  /** What one `take` hands to its caller. */
  function Emit(s: ReaderState, r: TakeResult): (m: seq<Message>)
    ensures |m| <= 1
    ensures m != [] <==> r == NewMessage
  {
    if r == NewMessage then [Message(s.msgCode, s.data)] else []
  }

  function Run(cfg: Config, s: ReaderState, input: seq<Byte>): Trace
    decreases |input|
  {
    if |input| == 0 then Trace(s, [], 0)
    else
      var (next, r) := Step(cfg, s, input[0]);
      var rest := Run(cfg, next, input[1..]);
      Trace(rest.final, Emit(next, r) + rest.delivered,
            (if r == ChecksumError then 1 else 0) + rest.checksumErrors)
  }

  /** One trace followed by another. */
  function Then(a: Trace, b: Trace): Trace
  {
    Trace(b.final, a.delivered + b.delivered, a.checksumErrors + b.checksumErrors)
  }

  /** A stream can be cut anywhere: the reader simply carries on from where it was. */
  lemma {:induction false} RunAppend(cfg: Config, s: ReaderState, a: seq<Byte>, b: seq<Byte>)
    ensures Run(cfg, s, a + b) == Then(Run(cfg, s, a), Run(cfg, Run(cfg, s, a).final, b))
    decreases |a|
  {
    if |a| == 0 {
      assert a + b == b;
    } else {
      assert (a + b)[0] == a[0];
      assert (a + b)[1..] == a[1..] + b;
      var next := Step(cfg, s, a[0]).0;
      RunAppend(cfg, next, a[1..], b);
      AppendAssoc(Emit(next, Step(cfg, s, a[0]).1), Run(cfg, next, a[1..]).delivered,
                  Run(cfg, Run(cfg, next, a[1..]).final, b).delivered);
    }
  }

  /** A stream of one byte. */
  lemma RunOne(cfg: Config, s: ReaderState, c: Byte)
    ensures Run(cfg, s, [c]) == Trace(Step(cfg, s, c).0, Emit(Step(cfg, s, c).0, Step(cfg, s, c).1),
                                      if Step(cfg, s, c).1 == ChecksumError then 1 else 0)
  {
    assert [c][1..] == [];
  }

  /** A stream is its first byte followed by the rest. */
  lemma RunCons(cfg: Config, s: ReaderState, c: Byte, rest: seq<Byte>)
    ensures Run(cfg, s, [c] + rest) == Then(Run(cfg, s, [c]), Run(cfg, Step(cfg, s, c).0, rest))
  {
    RunAppend(cfg, s, [c], rest);
    RunOne(cfg, s, c);
  }

  /** A byte that changes the state and reports nothing. */
  lemma RunQuiet(cfg: Config, s: ReaderState, c: Byte, next: ReaderState)
    requires Step(cfg, s, c) == (next, NeedMoreData)
    ensures Run(cfg, s, [c]) == Trace(next, [], 0)
  {
    RunOne(cfg, s, c);
  }

  /** One payload byte, in its wire form, is stored and checksummed while there is room. */
  lemma RunEscapeByte(cfg: Config, code: Byte, d: seq<Byte>, f: seq<Byte>, b: Byte)
    requires |d| < cfg.max
    ensures Run(cfg, ReaderState(Data, code, d, f), EscapeByte(b))
         == Trace(ReaderState(Data, code, d + [b], f + [b]), [], 0)
  {
    var s := ReaderState(Data, code, d, f);
    var t := ReaderState(Data, code, d + [b], f + [b]);
    if b == 0xFF {
      var e := s.(phase := Escape);
      RunQuiet(cfg, s, 0xFF, e);
      RunQuiet(cfg, e, 0xFE, t);
      RunCons(cfg, s, 0xFF, [0xFE]);
    } else {
      RunQuiet(cfg, s, b, t);
    }
  }

  /** An escaped payload that fits is stored and checksummed byte for byte, with nothing reported. */
  lemma {:induction false} RunPayload(cfg: Config, code: Byte, d: seq<Byte>, f: seq<Byte>, p: seq<Byte>)
    requires |d| + |p| <= cfg.max
    ensures Run(cfg, ReaderState(Data, code, d, f), Escaped(p))
         == Trace(ReaderState(Data, code, d + p, f + p), [], 0)
    decreases |p|
  {
    var s := ReaderState(Data, code, d, f);
    if |p| == 0 {
      assert d + p == d && f + p == f;
      assert Escaped(p) == [];
    } else {
      var init, b := p[..|p| - 1], p[|p| - 1];
      InitLast(p);
      assert Escaped(p) == Escaped(init) + EscapeByte(b);
      RunPayload(cfg, code, d, f, init);
      RunAppend(cfg, s, Escaped(init), EscapeByte(b));
      RunEscapeByte(cfg, code, d + init, f + init, b);
      AppendAssoc(d, init, [b]);
      AppendAssoc(f, init, [b]);
    }
  }

  /** The opening pair 0xFF code takes an idle reader into DATA with the checksum seeded by the code. */
  lemma RunHeader(cfg: Config, s: ReaderState, code: Byte)
    requires s.phase == Start1 && code != 0xFD && code != 0xFE && code != 0xFF
    ensures Run(cfg, s, Header(code)) == Trace(ReaderState(Data, code, [], [code]), [], 0)
  {
    var s2 := s.(phase := Start2);
    RunQuiet(cfg, s, 0xFF, s2);
    RunQuiet(cfg, s2, code, ReaderState(Data, code, [], [code]));
    assert Header(code) == [0xFF] + [code];
    RunCons(cfg, s, 0xFF, [code]);
  }

  /** 0xFF code arriving inside a frame restarts it from ESCAPE. */
  lemma RunRestart(cfg: Config, s: ReaderState, code: Byte)
    requires s.phase == Data && |s.data| < cfg.max
    requires code != 0xFD && code != 0xFE
    ensures Run(cfg, s, Header(code))
         == Trace(ReaderState(Data, code, [], if cfg.seedOnRestart then [code] else []), [], 0)
  {
    var e := s.(phase := Escape);
    RunQuiet(cfg, s, 0xFF, e);
    RunQuiet(cfg, e, code, ReaderState(Data, code, [], if cfg.seedOnRestart then [code] else []));
    assert Header(code) == [0xFF] + [code];
    RunCons(cfg, s, 0xFF, [code]);
  }

  /** The closing bytes 0xFF 0xFD chk after a stored payload, with room left in the buffer. */
  lemma RunTrailer(cfg: Config, s: ReaderState, chk: Byte)
    requires s.phase == Data && |s.data| < cfg.max
    ensures Run(cfg, s, Trailer(chk)).final == s.(phase :=
      if chk == Digest(cfg.alg, s.fed) then Start1 else if chk == 0xFF then Start2 else Start1)
    ensures Run(cfg, s, Trailer(chk)).delivered ==
      if chk == Digest(cfg.alg, s.fed) then [Message(s.msgCode, s.data)] else []
    ensures Run(cfg, s, Trailer(chk)).checksumErrors ==
      if chk == Digest(cfg.alg, s.fed) then 0 else 1
  {
    var e := s.(phase := Escape);
    var a := s.(phase := AwaitChecksum);
    RunQuiet(cfg, s, 0xFF, e);
    RunQuiet(cfg, e, 0xFD, a);
    RunOne(cfg, a, chk);
    var tail: seq<Byte> := [0xFD, chk];
    assert tail == [0xFD] + [chk] && Trailer(chk) == [0xFF] + tail;
    RunCons(cfg, e, 0xFD, [chk]);
    RunCons(cfg, s, 0xFF, tail);
  }

  /**
   * Whatever brought the reader into DATA with an empty buffer and `f0`
   * already checksummed, the rest of the writer's frame is stored and then
   * judged against the checksum the writer computed over the code and the
   * payload.
   */
  lemma RunFrameAfterHeader(cfg: Config, s: ReaderState, code: Byte, p: seq<Byte>, f0: seq<Byte>)
    requires cfg.alg != Fletcher16
    requires Run(cfg, s, Header(code)) == Trace(ReaderState(Data, code, [], f0), [], 0)
    requires |p| <= cfg.max
    ensures var chk := Digest(cfg.alg, [code] + p);
      Run(cfg, s, Frame(cfg.alg, code, p)) == Then(Trace(ReaderState(Data, code, p, f0 + p), [], 0),
                                                   Run(cfg, ReaderState(Data, code, p, f0 + p), Trailer(chk)))
  {
    var chk := Digest(cfg.alg, [code] + p);
    var header, body, trailer := Header(code), Escaped(p), Trailer(chk);
    assert Frame(cfg.alg, code, p) == header + body + trailer;
    var inFrame := ReaderState(Data, code, [], f0);
    assert [] + p == p;
    RunPayload(cfg, code, [], f0, p);
    RunAppend(cfg, s, header, body);
    RunAppend(cfg, s, header + body, trailer);
  }

  /**
   * Round trip: an idle reader fed the writer's frame for a payload shorter
   * than `MaxPacketSize` delivers exactly that message and no error, and is
   * idle again.
   */
  lemma FrameRoundTrip(cfg: Config, s: ReaderState, code: Byte, p: seq<Byte>)
    requires cfg.alg != Fletcher16
    requires s.phase == Start1 && code != 0xFD && code != 0xFE && code != 0xFF
    requires |p| < cfg.max
    ensures Run(cfg, s, Frame(cfg.alg, code, p))
         == Trace(ReaderState(Start1, code, p, [code] + p), [Message(code, p)], 0)
  {
    RunHeader(cfg, s, code);
    RunFrameAfterHeader(cfg, s, code, p, [code]);
    RunTrailer(cfg, ReaderState(Data, code, p, [code] + p), Digest(cfg.alg, [code] + p));
  }

  /** Two frames in a row are delivered as two messages, in order. */
  lemma TwoFrames(cfg: Config, s: ReaderState, c1: Byte, p1: seq<Byte>, c2: Byte, p2: seq<Byte>)
    requires cfg.alg != Fletcher16 && s.phase == Start1
    requires c1 != 0xFD && c1 != 0xFE && c1 != 0xFF && |p1| < cfg.max
    requires c2 != 0xFD && c2 != 0xFE && c2 != 0xFF && |p2| < cfg.max
    ensures Run(cfg, s, Frame(cfg.alg, c1, p1) + Frame(cfg.alg, c2, p2)).delivered
         == [Message(c1, p1), Message(c2, p2)]
    ensures Run(cfg, s, Frame(cfg.alg, c1, p1) + Frame(cfg.alg, c2, p2)).checksumErrors == 0
  {
    RunAppend(cfg, s, Frame(cfg.alg, c1, p1), Frame(cfg.alg, c2, p2));
    FrameRoundTrip(cfg, s, c1, p1);
    FrameRoundTrip(cfg, ReaderState(Start1, c1, p1, [c1] + p1), c2, p2);
  }

  /**
   * `startEnvelope` sends any message code, but START2 opens a packet only
   * for a code other than 0xFD, 0xFE and 0xFF. A frame with one of those
   * codes is lost: here the empty one, which delivers nothing and reports no
   * error either. With the plain modular sum its checksum byte is the code
   * itself, which START2 refuses as well; with the inverted sum see
   * `ReservedCodeOpensPacket`.
   */
  lemma ReservedCodeLost(cfg: Config, s: ReaderState, code: Byte)
    requires cfg.alg != Fletcher16 && s.phase == Start1
    requires code == 0xFD || code == 0xFE || code == 0xFF
    ensures Run(cfg, s, Frame(cfg.alg, code, [])).delivered == []
    ensures Run(cfg, s, Frame(cfg.alg, code, [])).checksumErrors == 0
  {
    var chk := Digest(cfg.alg, [code] + []);
    assert Escaped([]) == [];
    assert Frame(cfg.alg, code, []) == [0xFF] + ([code] + ([0xFF] + ([0xFD] + [chk])));
    var s2 := s.(phase := Start2);
    RunQuiet(cfg, s, 0xFF, s2);
    RunQuiet(cfg, s2, code, s2);
    RunQuiet(cfg, s2, 0xFF, s2);
    RunQuiet(cfg, s2, 0xFD, s2);
    RunOne(cfg, s2, chk);
    RunCons(cfg, s2, 0xFD, [chk]);
    RunCons(cfg, s2, 0xFF, [0xFD] + [chk]);
    RunCons(cfg, s2, code, [0xFF] + ([0xFD] + [chk]));
    RunCons(cfg, s, 0xFF, [code] + ([0xFF] + ([0xFD] + [chk])));
  }

  /**
   * With the inverted sum, the checksum byte of such an empty frame is
   * `255 - code`, which START2 accepts: the reader opens a packet with that
   * byte as its code and is left inside it, so that the next frame is a
   * restart from ESCAPE (see `RestartedFrameRejected`).
   */
  lemma ReservedCodeOpensPacket(cfg: Config, s: ReaderState, code: Byte)
    requires cfg.alg == InvertedModSum && s.phase == Start1
    requires code == 0xFD || code == 0xFE || code == 0xFF
    ensures Run(cfg, s, Frame(cfg.alg, code, []))
         == Trace(ReaderState(Data, 255 - code, [], [255 - code]), [], 0)
  {
    var chk := Digest(cfg.alg, [code] + []);
    assert chk == 255 - code by {
      assert [code] + [] == [code] && [code][..0] == [];
      assert Sum([code]) == code;
    }
    assert Escaped([]) == [];
    assert Frame(cfg.alg, code, []) == [0xFF] + ([code] + ([0xFF] + ([0xFD] + [chk])));
    var s2 := s.(phase := Start2);
    RunQuiet(cfg, s, 0xFF, s2);
    RunQuiet(cfg, s2, code, s2);
    RunQuiet(cfg, s2, 0xFF, s2);
    RunQuiet(cfg, s2, 0xFD, s2);
    RunQuiet(cfg, s2, chk, ReaderState(Data, chk, [], [chk]));
    RunCons(cfg, s2, 0xFD, [chk]);
    RunCons(cfg, s2, 0xFF, [0xFD] + [chk]);
    RunCons(cfg, s2, code, [0xFF] + ([0xFD] + [chk]));
    RunCons(cfg, s, 0xFF, [code] + ([0xFF] + ([0xFD] + [chk])));
  }

  // ---------------------------------------------------------------------
  // A frame that fills the buffer

  /**
   * A payload of exactly `MaxPacketSize` bytes fills the buffer; the 0xFF
   * that would close the frame then drops it. Nothing is delivered, no error
   * is reported, and the reader is idle again (in START2 when the library's
   * reader takes a checksum byte 0xFF for the start of a frame).
   */
  lemma FrameAtCapacityDropped(cfg: Config, s: ReaderState, code: Byte, p: seq<Byte>)
    requires cfg.alg != Fletcher16
    requires s.phase == Start1 && code != 0xFD && code != 0xFE && code != 0xFF
    requires |p| == cfg.max
    ensures var chk := Digest(cfg.alg, [code] + p);
      Run(cfg, s, Frame(cfg.alg, code, p))
        == Trace(ReaderState(if !cfg.skipOversize && chk == 0xFF then Start2 else Start1, code, p, [code] + p), [], 0)
  {
    RunHeader(cfg, s, code);
    RunFrameAfterHeader(cfg, s, code, p, [code]);
    RunTrailerWhenFull(cfg, ReaderState(Data, code, p, [code] + p), Digest(cfg.alg, [code] + p));
  }

  /**
   * The closing bytes after a payload that filled the buffer: the frame is
   * dropped. The library's reader goes back to START1 at the 0xFF and reads
   * 0xFD and the checksum byte as idle traffic; the corrected reader skips
   * them.
   */
  lemma RunTrailerWhenFull(cfg: Config, s: ReaderState, chk: Byte)
    requires s.phase == Data && |s.data| == cfg.max
    ensures Run(cfg, s, Trailer(chk))
         == Trace(s.(phase := if !cfg.skipOversize && chk == 0xFF then Start2 else Start1), [], 0)
  {
    if cfg.skipOversize {
      SkipTrailer(cfg, s, chk);
    } else {
      var idle := s.(phase := Start1);
      RunQuiet(cfg, s, 0xFF, idle);
      RunQuiet(cfg, idle, 0xFD, idle);
      RunQuiet(cfg, idle, chk, idle.(phase := if chk == 0xFF then Start2 else Start1));
      var tail: seq<Byte> := [0xFD, chk];
      assert tail == [0xFD] + [chk] && Trailer(chk) == [0xFF] + tail;
      RunCons(cfg, idle, 0xFD, [chk]);
      RunCons(cfg, s, 0xFF, tail);
    }
  }

  // ---------------------------------------------------------------------
  // A frame longer than the buffer

  /** The opening pair and a payload that fits take an idle reader into DATA with that payload stored. */
  lemma RunOpening(cfg: Config, s: ReaderState, code: Byte, p: seq<Byte>)
    requires s.phase == Start1 && code != 0xFD && code != 0xFE && code != 0xFF
    requires |p| <= cfg.max
    ensures Run(cfg, s, Header(code) + Escaped(p)) == Trace(ReaderState(Data, code, p, [code] + p), [], 0)
  {
    RunHeader(cfg, s, code);
    assert [] + p == p;
    RunPayload(cfg, code, [], [code], p);
    RunAppend(cfg, s, Header(code), Escaped(p));
  }

  /**
   * With the buffer full, the library's reader drops the frame at byte `x`;
   * an escaped 0xFF then leaves it in START2, where the next byte opens a packet.
   */
  lemma RunDropThenOpen(cfg: Config, full: ReaderState, x: Byte, c: Byte)
    requires !cfg.skipOversize && full.phase == Data && |full.data| == cfg.max
    requires x != 0xFF && c != 0xFD && c != 0xFE && c != 0xFF
    ensures Run(cfg, full, [x, 0xFF, 0xFE, c]) == Trace(ReaderState(Data, c, [], [c]), [], 0)
  {
    var idle, s2 := full.(phase := Start1), full.(phase := Start2);
    var phantom := ReaderState(Data, c, [], [c]);
    RunQuiet(cfg, full, x, idle);
    RunQuiet(cfg, idle, 0xFF, s2);
    RunQuiet(cfg, s2, 0xFE, s2);
    RunQuiet(cfg, s2, c, phantom);
    assert [x, 0xFF, 0xFE, c] == [x] + ([0xFF] + ([0xFE] + [c]));
    RunCons(cfg, s2, 0xFE, [c]);
    RunCons(cfg, idle, 0xFF, [0xFE] + [c]);
    RunCons(cfg, full, x, [0xFF] + ([0xFE] + [c]));
  }

  /** The checksummed bytes of the frame in `OversizeFramePhantom`: the dropped ones, then the phantom packet's. */
  lemma PhantomRegroup(code: Byte, k: seq<Byte>, x: Byte, c: Byte, q: seq<Byte>)
    ensures [code] + (k + [x, 0xFF, c] + q) == ([code] + k + [x, 0xFF]) + ([c] + q)
  {
    assert [x, 0xFF, c] == [x, 0xFF] + [c];
    Regroup([code], k, [x, 0xFF], [c], q);
  }

  lemma Regroup<T>(a: seq<T>, b: seq<T>, u: seq<T>, v: seq<T>, w: seq<T>)
    ensures a + (b + (u + v) + w) == (a + b + u) + (v + w)
  {
  }

  lemma SumOfDropped(code: Byte, k: seq<Byte>, x: Byte)
    ensures Sum([code] + k + [x, 0xFF]) == code + Sum(k) + x + 0xFF
  {
    assert Sum([code]) == code by { assert [code][..0] == []; }
    assert Sum([x, 0xFF]) == x + 0xFF by { assert [x, 0xFF][..1] == [x] && [x][..0] == []; }
    SumAppend([code], k);
    SumAppend([code] + k, [x, 0xFF]);
  }

  /** Bytes that sum to a multiple of 256 in front of a stream leave a modular-sum digest as it was. */
  lemma DigestSkipsMultiple(alg: Algorithm, dropped: seq<Byte>, rest: seq<Byte>)
    requires alg != Fletcher16 && Sum(dropped) % 256 == 0
    ensures Digest(alg, dropped + rest) == Digest(alg, rest)
  {
    SumAppend(dropped, rest);
    ModAdd256(Sum(dropped), Sum(rest));
    DigestCarriesSum(alg, dropped + rest);
    DigestCarriesSum(alg, rest);
  }

  /** The checksum the writer sent for the frame in `OversizeFramePhantom` is that of the phantom packet. */
  lemma DroppedBytesKeepDigest(alg: Algorithm, code: Byte, k: seq<Byte>, x: Byte, c: Byte, q: seq<Byte>)
    requires alg != Fletcher16 && (code + Sum(k) + x + 0xFF) % 256 == 0
    ensures Digest(alg, [code] + (k + [x, 0xFF, c] + q)) == Digest(alg, [c] + q)
  {
    var dropped, rest := [code] + k + [x, 0xFF], [c] + q;
    PhantomRegroup(code, k, x, c, q);
    SumOfDropped(code, k, x);
    DigestSkipsMultiple(alg, dropped, rest);
  }

  /** The wire form of the frame in `OversizeFramePhantom`, cut where the reader's behaviour changes. */
  lemma PhantomFrameBytes(code: Byte, k: seq<Byte>, x: Byte, c: Byte, q: seq<Byte>, chk: Byte)
    requires x != 0xFF && c != 0xFF
    ensures Header(code) + Escaped(k + [x, 0xFF, c] + q) + Trailer(chk)
         == Header(code) + Escaped(k) + [x, 0xFF, 0xFE, c] + Escaped(q) + Trailer(chk)
  {
    EscapedThree(k, [x, 0xFF, c], q);
    EscapedPhantomBytes(x, c);
    Regroup5(Header(code), Escaped(k), Escaped([x, 0xFF, c]), Escaped(q), Trailer(chk));
  }

  lemma EscapedPhantomBytes(x: Byte, c: Byte)
    requires x != 0xFF && c != 0xFF
    ensures Escaped([x, 0xFF, c]) == [x, 0xFF, 0xFE, c]
  {
    assert [x, 0xFF, c] == [x] + [0xFF] + [c];
    EscapedThree([x], [0xFF], [c]);
    EscapedOne(x);
    EscapedOne(0xFF);
    EscapedOne(c);
  }

  lemma EscapedOne(b: Byte)
    ensures Escaped([b]) == EscapeByte(b)
  {
    assert [b][..0] == [];
  }

  lemma EscapedThree(a: seq<Byte>, b: seq<Byte>, c: seq<Byte>)
    ensures Escaped(a + b + c) == Escaped(a) + Escaped(b) + Escaped(c)
  {
    EscapedAppend(a + b, c);
    EscapedAppend(a, b);
  }

  lemma Regroup5<T>(h: seq<T>, a: seq<T>, b: seq<T>, c: seq<T>, t: seq<T>)
    ensures h + (a + b + c) + t == h + a + b + c + t
  {
  }

  /** A stream that leaves the reader in DATA, closed by the right checksum, delivers what it stored. */
  lemma RunThenTrailer(cfg: Config, s: ReaderState, a: seq<Byte>, open: ReaderState, chk: Byte)
    requires Run(cfg, s, a) == Trace(open, [], 0)
    requires open.phase == Data && |open.data| < cfg.max && chk == Digest(cfg.alg, open.fed)
    ensures Run(cfg, s, a + Trailer(chk)).delivered == [Message(open.msgCode, open.data)]
    ensures Run(cfg, s, a + Trailer(chk)).checksumErrors == 0
  {
    RunTrailer(cfg, open, chk);
    RunAppend(cfg, s, a, Trailer(chk));
  }

  /** The frame in `OversizeFramePhantom` up to its trailer leaves the reader inside the phantom packet. */
  lemma RunPhantomOpening(cfg: Config, s: ReaderState, code: Byte, k: seq<Byte>, x: Byte, c: Byte, q: seq<Byte>)
    requires !cfg.skipOversize && s.phase == Start1
    requires code != 0xFD && code != 0xFE && code != 0xFF
    requires |k| == cfg.max && x != 0xFF
    requires c != 0xFD && c != 0xFE && c != 0xFF && |q| < cfg.max
    ensures Run(cfg, s, Header(code) + Escaped(k) + [x, 0xFF, 0xFE, c] + Escaped(q))
         == Trace(ReaderState(Data, c, q, [c] + q), [], 0)
  {
    var head, mid := Header(code) + Escaped(k), [x, 0xFF, 0xFE, c];
    var full := ReaderState(Data, code, k, [code] + k);
    RunOpening(cfg, s, code, k);
    RunDropThenOpen(cfg, full, x, c);
    assert [] + q == q;
    RunPayload(cfg, c, [], [c], q);
    RunAppend(cfg, s, head, mid);
    RunAppend(cfg, s, head + mid, Escaped(q));
  }

  /**
   * The library's reader returns to START1 as soon as a byte arrives with
   * the buffer full, in the middle of the frame, and reads the rest of the
   * frame as new traffic. When the payload goes on with a byte `x`, an
   * escaped 0xFF and a byte `c` that START2 accepts, `c` opens a packet the
   * writer never sent, and the frame's own trailer delivers it whenever the
   * bytes dropped in front of it (the code, the stored bytes, `x` and 0xFF)
   * sum to a multiple of 256. With `MaxPacketSize` 2, code 0xFB and payload
   * 1 2 3 0xFF 7 8, the message 7 carrying 8 arrives.
   */
  lemma OversizeFramePhantom(cfg: Config, s: ReaderState, code: Byte, k: seq<Byte>, x: Byte, c: Byte, q: seq<Byte>)
    requires cfg.alg != Fletcher16 && !cfg.skipOversize && s.phase == Start1
    requires code != 0xFD && code != 0xFE && code != 0xFF
    requires |k| == cfg.max && x != 0xFF
    requires c != 0xFD && c != 0xFE && c != 0xFF && |q| < cfg.max
    requires (code + Sum(k) + x + 0xFF) % 256 == 0
    ensures Run(cfg, s, Frame(cfg.alg, code, k + [x, 0xFF, c] + q)).delivered == [Message(c, q)]
    ensures Run(cfg, s, Frame(cfg.alg, code, k + [x, 0xFF, c] + q)).checksumErrors == 0
  {
    var p := k + [x, 0xFF, c] + q;
    var chk := Digest(cfg.alg, [code] + p);
    var opening := Header(code) + Escaped(k) + [x, 0xFF, 0xFE, c] + Escaped(q);
    assert Frame(cfg.alg, code, p) == opening + Trailer(chk) by {
      PhantomFrameBytes(code, k, x, c, q, chk);
    }
    DroppedBytesKeepDigest(cfg.alg, code, k, x, c, q);
    RunPhantomOpening(cfg, s, code, k, x, c, q);
    RunThenTrailer(cfg, s, opening, ReaderState(Data, c, q, [c] + q), chk);
  }

  /** The instance named above: the library's reader delivers a message nobody sent. */
  lemma OversizeFramePhantomExample()
    ensures Run(Config(ModSum, 2, false, false), ReaderState(Start1, 0, [], []),
                Frame(ModSum, 0xFB, [1, 2] + [3, 0xFF, 7] + [8])).delivered == [Message(7, [8])]
  {
    assert Sum([1, 2]) == 3 by { assert [1, 2][..1] == [1] && [1][..0] == []; }
    OversizeFramePhantom(Config(ModSum, 2, false, false), ReaderState(Start1, 0, [], []), 0xFB, [1, 2], 3, 7, [8]);
  }

  /**
   * A state in which the corrected reader discards its next byte: skipping,
   * or in DATA with the buffer full.
   */
  ghost predicate Skipping(cfg: Config, s: ReaderState)
  {
    cfg.skipOversize && (s.phase == Skip || (s.phase == Data && |s.data| == cfg.max))
  }

  /** One payload byte, in its wire form, is discarded. */
  lemma SkipEscapeByte(cfg: Config, s: ReaderState, b: Byte)
    requires Skipping(cfg, s)
    ensures Run(cfg, s, EscapeByte(b)) == Trace(s.(phase := Skip), [], 0)
  {
    if b == 0xFF {
      var e := s.(phase := SkipEscape);
      RunQuiet(cfg, s, 0xFF, e);
      RunQuiet(cfg, e, 0xFE, s.(phase := Skip));
      RunCons(cfg, s, 0xFF, [0xFE]);
    } else {
      RunQuiet(cfg, s, b, s.(phase := Skip));
    }
  }

  /** The rest of an oversize payload, in its wire form, is discarded with nothing reported. */
  lemma {:induction false} SkipPayload(cfg: Config, s: ReaderState, p: seq<Byte>)
    requires Skipping(cfg, s)
    ensures Run(cfg, s, Escaped(p)) == Trace(if |p| == 0 then s else s.(phase := Skip), [], 0)
    decreases |p|
  {
    if |p| == 0 {
      assert Escaped(p) == [];
    } else {
      var init, b := p[..|p| - 1], p[|p| - 1];
      assert Escaped(p) == Escaped(init) + EscapeByte(b);
      SkipPayload(cfg, s, init);
      RunAppend(cfg, s, Escaped(init), EscapeByte(b));
      SkipEscapeByte(cfg, Run(cfg, s, Escaped(init)).final, b);
    }
  }

  /** The closing bytes of an oversize frame take the corrected reader back to START1. */
  lemma SkipTrailer(cfg: Config, s: ReaderState, chk: Byte)
    requires Skipping(cfg, s)
    ensures Run(cfg, s, Trailer(chk)) == Trace(s.(phase := Start1), [], 0)
  {
    var e := s.(phase := SkipEscape);
    var k := s.(phase := SkipChecksum);
    RunQuiet(cfg, s, 0xFF, e);
    RunQuiet(cfg, e, 0xFD, k);
    RunQuiet(cfg, k, chk, s.(phase := Start1));
    var tail: seq<Byte> := [0xFD, chk];
    assert tail == [0xFD] + [chk] && Trailer(chk) == [0xFF] + tail;
    RunCons(cfg, e, 0xFD, [chk]);
    RunCons(cfg, s, 0xFF, tail);
  }

  /** The rest of an oversize frame, payload and trailer, takes the corrected reader back to START1. */
  lemma SkipRest(cfg: Config, s: ReaderState, q: seq<Byte>, chk: Byte)
    requires Skipping(cfg, s)
    ensures Run(cfg, s, Escaped(q) + Trailer(chk)) == Trace(s.(phase := Start1), [], 0)
  {
    SkipPayload(cfg, s, q);
    RunAppend(cfg, s, Escaped(q), Trailer(chk));
    SkipTrailer(cfg, Run(cfg, s, Escaped(q)).final, chk);
  }

  /**
   * The corrected reader drops a frame whose payload does not fit, whatever
   * its length and content: it delivers nothing, reports no error, and is
   * idle again once the frame's checksum byte has gone by.
   */
  lemma OversizeFrameSkipped(cfg: Config, s: ReaderState, code: Byte, p: seq<Byte>)
    requires cfg.alg != Fletcher16 && cfg.skipOversize
    requires s.phase == Start1 && code != 0xFD && code != 0xFE && code != 0xFF
    requires |p| >= cfg.max
    ensures Run(cfg, s, Frame(cfg.alg, code, p))
         == Trace(ReaderState(Start1, code, p[..cfg.max], [code] + p[..cfg.max]), [], 0)
  {
    var chk := Digest(cfg.alg, [code] + p);
    var kept, dropped := p[..cfg.max], p[cfg.max..];
    var head, tail := Header(code) + Escaped(kept), Escaped(dropped) + Trailer(chk);
    assert Frame(cfg.alg, code, p) == head + tail by {
      assert p == kept + dropped;
      EscapedAppend(kept, dropped);
      AppendAssoc(Header(code), Escaped(kept), Escaped(dropped));
      AppendAssoc(Header(code) + Escaped(kept), Escaped(dropped), Trailer(chk));
    }
    var full := ReaderState(Data, code, kept, [code] + kept);
    RunOpening(cfg, s, code, kept);
    SkipRest(cfg, full, dropped, chk);
    RunAppend(cfg, s, head, tail);
  }

  /** After an oversize frame the corrected reader delivers the next frame intact. */
  lemma OversizeThenFrame(cfg: Config, s: ReaderState, c1: Byte, p1: seq<Byte>, c2: Byte, p2: seq<Byte>)
    requires cfg.alg != Fletcher16 && cfg.skipOversize && s.phase == Start1
    requires c1 != 0xFD && c1 != 0xFE && c1 != 0xFF && |p1| >= cfg.max
    requires c2 != 0xFD && c2 != 0xFE && c2 != 0xFF && |p2| < cfg.max
    ensures Run(cfg, s, Frame(cfg.alg, c1, p1) + Frame(cfg.alg, c2, p2)).delivered == [Message(c2, p2)]
    ensures Run(cfg, s, Frame(cfg.alg, c1, p1) + Frame(cfg.alg, c2, p2)).checksumErrors == 0
  {
    var idle := ReaderState(Start1, c1, p1[..cfg.max], [c1] + p1[..cfg.max]);
    OversizeFrameSkipped(cfg, s, c1, p1);
    FrameRoundTrip(cfg, idle, c2, p2);
    RunBoth(cfg, s, Frame(cfg.alg, c1, p1), Frame(cfg.alg, c2, p2),
            Trace(idle, [], 0), Trace(ReaderState(Start1, c2, p2, [c2] + p2), [Message(c2, p2)], 0));
  }

  /** Two streams whose runs are known, one after the other. */
  lemma RunBoth(cfg: Config, s: ReaderState, a: seq<Byte>, b: seq<Byte>, ta: Trace, tb: Trace)
    requires Run(cfg, s, a) == ta && Run(cfg, ta.final, b) == tb
    ensures Run(cfg, s, a + b) == Then(ta, tb)
  {
    RunAppend(cfg, s, a, b);
  }

  // ---------------------------------------------------------------------
  // A frame that starts while the reader is inside another frame

  /**
   * The library's reader restarts a packet from ESCAPE without feeding the
   * new code to the checksum. A frame whose opening 0xFF arrives while an
   * earlier frame is still open (its tail was lost) is therefore rejected
   * with a checksum error whenever the code is non-zero.
   */
  lemma RestartedFrameRejected(cfg: Config, s: ReaderState, code: Byte, p: seq<Byte>)
    requires cfg.alg != Fletcher16 && !cfg.seedOnRestart
    requires s.phase == Data && |s.data| < cfg.max
    requires code != 0 && code != 0xFD && code != 0xFE && code != 0xFF
    requires |p| < cfg.max
    ensures Run(cfg, s, Frame(cfg.alg, code, p)).delivered == []
    ensures Run(cfg, s, Frame(cfg.alg, code, p)).checksumErrors == 1
  {
    var chk := Digest(cfg.alg, [code] + p);
    var mid := ReaderState(Data, code, p, p);
    RunRestart(cfg, s, code);
    assert [] + p == p;
    RunFrameAfterHeader(cfg, s, code, p, []);
    PrefixChangesModSum(cfg.alg, code, p);
    RunTrailer(cfg, mid, chk);
    var tail := Run(cfg, mid, Trailer(chk));
    assert tail.delivered == [] && tail.checksumErrors == 1;
    assert Run(cfg, s, Frame(cfg.alg, code, p)) == Then(Trace(mid, [], 0), tail);
  }

  /** Prefixing a non-zero byte changes either modular-sum digest. */
  lemma PrefixChangesModSum(alg: Algorithm, code: Byte, p: seq<Byte>)
    requires alg != Fletcher16 && code != 0
    ensures Digest(alg, [code] + p) != Digest(alg, p)
  {
    SumAppend([code], p);
    assert [code][..0] == [];
    assert Sum([code]) == code;
    DigestCarriesSum(alg, [code] + p);
    DigestCarriesSum(alg, p);
    ShiftChangesResidue(Sum(p), code);
  }

  lemma ShiftChangesResidue(x: nat, k: nat)
    requires 0 < k < 256
    ensures (k + x) % 256 != x % 256
  {
    SameResidue(k + x, x, 256);
  }

  /**
   * The seeded reader delivers such a frame: from inside an open frame, the
   * writer's frame is received intact and the earlier one is abandoned.
   */
  lemma RestartedFrameDeliveredWhenSeeded(cfg: Config, s: ReaderState, code: Byte, p: seq<Byte>)
    requires cfg.alg != Fletcher16 && cfg.seedOnRestart
    requires s.phase == Data && |s.data| < cfg.max
    requires code != 0xFD && code != 0xFE && code != 0xFF
    requires |p| < cfg.max
    ensures Run(cfg, s, Frame(cfg.alg, code, p))
         == Trace(ReaderState(Start1, code, p, [code] + p), [Message(code, p)], 0)
  {
    RunRestart(cfg, s, code);
    RunFrameAfterHeader(cfg, s, code, p, [code]);
    RunTrailer(cfg, ReaderState(Data, code, p, [code] + p), Digest(cfg.alg, [code] + p));
  }
}

module EnvelopeLoopback {
  import opened Bytes
  import opened Checksum
  import opened BufferIo
  import opened Envelope
  import opened EnvelopeStream
  import opened Window

  /** Traces chain associatively. */
  lemma ThenAssoc(a: Trace, b: Trace, c: Trace)
    ensures Then(Then(a, b), c) == Then(a, Then(b, c))
  {
    AppendAssoc(a.delivered, b.delivered, c.delivered);
  }

  /**
   * One message through the writer, as the generated serialisation code
   * drives it: `startEnvelope`, the payload through `write`, `endEnvelope`.
   * It goes out whole exactly when the sink has room for the whole frame.
   */
  method Send(w: EnvelopeWriter, code: Byte, payload: seq<Byte>) returns (ok: bool)
    requires w.Valid()
    modifies w.sink, w.sink.buffer, w.checksum
    ensures w.Valid()
    ensures ok <==> |Frame(w.checksum.algorithm, code, payload)| <= old(w.sink.Room())
    ensures ok ==> w.sink.Contents == old(w.sink.Contents) + Frame(w.checksum.algorithm, code, payload)
  {
    ghost var out0, room := w.sink.Contents, w.sink.Room();
    assert |Frame(w.checksum.algorithm, code, payload)| == 5 + |Escaped(payload)|;
    ok := w.StartEnvelope(code);
    if ok {
      ok := SendRest(w, code, payload, out0, room);
    }
  }

  /**
   * `Send` with the message code checked first: a code the reader cannot
   * open a packet with (0xFD, 0xFE, 0xFF) is refused before anything is
   * written, as the COBS writer refuses the code 255. Every frame it sends
   * is one that `FrameRoundTrip` delivers.
   */
  method SendChecked(w: EnvelopeWriter, code: Byte, payload: seq<Byte>) returns (ok: bool)
    requires w.Valid()
    modifies w.sink, w.sink.buffer, w.checksum
    ensures w.Valid()
    ensures ok <==> code < 0xFD && |Frame(w.checksum.algorithm, code, payload)| <= old(w.sink.Room())
    ensures ok ==> w.sink.Contents == old(w.sink.Contents) + Frame(w.checksum.algorithm, code, payload)
    ensures code >= 0xFD ==> w.sink.Contents == old(w.sink.Contents)
  {
    if code >= 0xFD {
      return false;
    }
    ok := Send(w, code, payload);
  }

  /** `write` and `endEnvelope` of `Send`, after a header that fitted. */
  method SendRest(w: EnvelopeWriter, code: Byte, payload: seq<Byte>, ghost out0: seq<Byte>, ghost room: nat) returns (ok: bool)
    requires w.Valid() && w.sink.Room() + 2 == room
    requires w.sink.Contents == out0 + Header(code) && w.checksum.fed == [code]
    modifies w.sink, w.sink.buffer, w.checksum
    ensures w.Valid()
    ensures ok <==> 5 + |Escaped(payload)| <= room
    ensures ok ==> w.sink.Contents == out0 + Frame(w.checksum.algorithm, code, payload)
  {
    ok := w.Write(payload);
    if !ok {
      return;
    }
    ghost var mid := w.sink.Contents;
    ok := w.EndEnvelope();
    if ok {
      calc {
        w.sink.Contents;
        mid + Trailer(Digest(w.checksum.algorithm, [code] + payload));
        out0 + Header(code) + Escaped(payload) + Trailer(Digest(w.checksum.algorithm, [code] + payload));
      }
    }
  }

  /** One turn of the receiving loop keeps the prediction. */
  lemma ReceiveStep(cfg: Config, total: Trace, before: ReaderState, c: Byte, rest: seq<Byte>,
                    after: ReaderState, r: TakeResult, msgs: seq<Message>, errors: nat)
    requires (after, r) == Step(cfg, before, c)
    requires total == Then(Trace(before, msgs, errors), Run(cfg, before, [c] + rest))
    ensures total == Then(Trace(after, msgs + Emit(after, r), errors + if r == ChecksumError then 1 else 0),
                          Run(cfg, after, rest))
  {
    RunCons(cfg, before, c, rest);
    RunOne(cfg, before, c);
    ThenAssoc(Trace(before, msgs, errors), Run(cfg, before, [c]), Run(cfg, after, rest));
  }

  /** One turn of the receiving loop: `take` one byte, then collect its report. */
  method Receive(reader: EnvelopeReader, c: Byte, msgs: seq<Message>, errors: nat)
    returns (r: TakeResult, msgs': seq<Message>, errors': nat)
    requires reader.Valid()
    modifies reader, reader.buffer, reader.generator
    ensures reader.Valid()
    ensures (reader.View(), r) == Step(Config(reader.algorithm, reader.maxPacketSize, false, false), old(reader.View()), c)
    ensures msgs' == msgs + Emit(reader.View(), r) && errors' == errors + if r == ChecksumError then 1 else 0
  {
    r := reader.Take(c);
    msgs' := msgs + if r == NewMessage then [Message(reader.MsgCode(), reader.buffer[..reader.idx])] else [];
    errors' := errors + if r == ChecksumError then 1 else 0;
  }

  /**
   * The receiving loop of the tests: while the buffer has a byte, hand it
   * to `take`, and collect the messages it reports. What it collects is what
   * `Run` predicts for the buffered bytes.
   */
  method ReceiveAll(io: BufferIO, reader: EnvelopeReader) returns (msgs: seq<Message>, errors: nat)
    requires io.Valid() && reader.Valid() && io.buffer != reader.buffer
    modifies io, reader, reader.buffer, reader.generator
    ensures io.Valid() && io.Contents == [] && reader.Valid()
    ensures Run(Config(reader.algorithm, reader.maxPacketSize, false, false), old(reader.View()), old(io.Contents))
         == Trace(reader.View(), msgs, errors)
  {
    var cfg := Config(reader.algorithm, reader.maxPacketSize, false, false);
    ghost var total := Run(cfg, reader.View(), io.Contents);
    msgs, errors := [], 0;
    while true
      invariant io.Valid() && reader.Valid() && io.buffer != reader.buffer
      invariant total == Then(Trace(reader.View(), msgs, errors), Run(cfg, reader.View(), io.Contents))
      decreases |io.Contents|
    {
      var available := io.IsCharAvailable();
      if !available {
        break;
      }
      ghost var before, pending := reader.View(), io.Contents;
      var c := io.GetChar();
      assert pending == [c] + io.Contents;
      ghost var rest, msgs0, errors0 := io.Contents, msgs, errors;
      var r;
      r, msgs, errors := Receive(reader, c, msgs, errors);
      assert io.Contents == rest;
      ReceiveStep(cfg, total, before, c, rest, reader.View(), r, msgs0, errors0);
    }
    assert Run(cfg, reader.View(), []) == Trace(reader.View(), [], 0);
    assert msgs + [] == msgs;
  }

  /**
   * The escape round-trip test: a message written twice into a fresh FIFO,
   * through the checked writer, is received twice, intact, with no checksum
   * error, when the FIFO holds both frames and the payload is shorter than
   * the reader's capacity. A code the reader cannot accept is refused by the
   * writer, and then nothing arrives.
   */
  method Loopback(alg: Algorithm, code: Byte, payload: seq<Byte>, size: nat, max: nat)
    returns (msgs: seq<Message>, errors: nat)
    requires alg != Fletcher16
    requires |payload| < max && 2 * |Frame(alg, code, payload)| < size
    ensures code < 0xFD ==> msgs == [Message(code, payload), Message(code, payload)]
    ensures code >= 0xFD ==> msgs == []
    ensures errors == 0
  {
    ghost var frame := Frame(alg, code, payload);
    var io := new BufferIO(size);
    var w := new EnvelopeWriter(io, alg);
    var ok := SendChecked(w, code, payload);
    assert ok ==> io.Contents == [] + frame;
    ok := SendChecked(w, code, payload);
    assert ok ==> io.Contents == [] + frame + frame == frame + frame;
    var reader := new EnvelopeReader(alg, max);
    ghost var s0 := reader.View();
    msgs, errors := ReceiveAll(io, reader);
    if code < 0xFD {
      TwoFrames(Config(alg, max, false, false), s0, code, payload, code, payload);
    } else {
      assert Run(Config(alg, max, false, false), s0, []) == Trace(s0, [], 0);
    }
  }
}
