/**
 * The COBS writer and reader back to back, as in the library's COBS test:
 * a message stuffed twice into the writer's region and handed byte by byte
 * to a reader comes out twice, intact, with no error reported.
 */
module CobsLoopback {
  import opened Bytes
  import opened Checksum
  import opened Window
  import opened CobsFormat
  import opened CobsDecode
  import opened CobsStream
  import opened CobsEncode

  /** The trace so far, with one more report of `take` collected. */
  function Tally(t: Trace, after: ReaderState, r: TakeResult): Trace
  {
    Trace(after, t.delivered + Emit(after, r),
          t.checksumErrors + (if r == ChecksumError then 1 else 0),
          t.frameErrors + (if r == FrameError then 1 else 0))
  }

  /** One turn of the receiving loop keeps the prediction. */
  lemma ReceiveStep(cfg: Config, total: Trace, seen: Trace, c: Byte, rest: seq<Byte>, after: ReaderState, r: TakeResult)
    requires (after, r) == Step(cfg, seen.final, c)
    requires total == Then(seen, Run(cfg, seen.final, [c] + rest))
    ensures total == Then(Tally(seen, after, r), Run(cfg, after, rest))
  {
    RunCons(cfg, seen.final, c, rest);
    AppendAssoc(seen.delivered, Emit(after, r), Run(cfg, after, rest).delivered);
  }

  /** One turn of the receiving loop: `take` one byte, then collect its report. */
  method Receive(reader: CobsReader, c: Byte, msgs: seq<Message>, checksumErrors: nat, frameErrors: nat)
    returns (r: TakeResult, msgs': seq<Message>, checksumErrors': nat, frameErrors': nat)
    requires reader.Valid()
    modifies reader, reader.buffer, reader.generator
    ensures reader.Valid() && reader.Cfg() == old(reader.Cfg())
    ensures (reader.View(), r) == Step(reader.Cfg(), old(reader.View()), c)
    ensures Trace(reader.View(), msgs', checksumErrors', frameErrors')
         == Tally(Trace(old(reader.View()), msgs, checksumErrors, frameErrors), reader.View(), r)
  {
    r := reader.Take(c);
    msgs' := msgs + if r == NewMessage then [Message(reader.MsgCodeValue(), reader.buffer[..reader.idx])] else [];
    checksumErrors' := checksumErrors + if r == ChecksumError then 1 else 0;
    frameErrors' := frameErrors + if r == FrameError then 1 else 0;
  }

  /**
   * The receiving loop: every byte of `input` goes to `take`; each message
   * is collected and each error counted. What is collected is what `Run`
   * predicts.
   */
  method ReceiveAll(reader: CobsReader, input: seq<Byte>) returns (msgs: seq<Message>, checksumErrors: nat, frameErrors: nat)
    requires reader.Valid()
    modifies reader, reader.buffer, reader.generator
    ensures reader.Valid()
    ensures Run(reader.Cfg(), old(reader.View()), input) == Trace(reader.View(), msgs, checksumErrors, frameErrors)
  {
    ghost var cfg := reader.Cfg();
    ghost var total := Run(cfg, reader.View(), input);
    msgs, checksumErrors, frameErrors := [], 0, 0;
    assert input[0..] == input;
    var i := 0;
    while i < |input|
      invariant i <= |input| && reader.Valid() && reader.Cfg() == cfg
      invariant total == Then(Trace(reader.View(), msgs, checksumErrors, frameErrors), Run(cfg, reader.View(), input[i..]))
    {
      assert input[i..] == [input[i]] + input[i + 1..];
      ghost var seen := Trace(reader.View(), msgs, checksumErrors, frameErrors);
      var r;
      r, msgs, checksumErrors, frameErrors := Receive(reader, input[i], msgs, checksumErrors, frameErrors);
      ReceiveStep(cfg, total, seen, input[i], input[i + 1..], reader.View(), r);
      i := i + 1;
    }
    assert msgs + [] == msgs;
  }

  /**
   * The COBS round-trip test: one message written twice by the same writer.
   * Each packet is handed on from the region as `packetComplete` reports it,
   * and the two packets are fed to a fresh reader. When the region has room
   * for the terminated frame and the reader's buffer for the payload, its
   * checksum and the implied zero, the reader delivers the message twice and
   * reports no error.
   */
  method Loopback(alg: Algorithm, code: Byte, payload: seq<Byte>, size: nat, max: nat)
    returns (msgs: seq<Message>, checksumErrors: nat, frameErrors: nat)
    requires code < 255 && |CobsFrame(alg, code, payload, true)| <= size
    requires |payload| + SumWidth(alg) + 1 <= max
    ensures msgs == [Message(code, payload), Message(code, payload)]
    ensures checksumErrors == 0 && frameErrors == 0
  {
    var region := new Byte[size];
    var writer := new CobsWriter(alg, region);
    var ok, length := writer.Send(code, payload, true);
    var wire := region[..length];
    ok, length := writer.Send(code, payload, true);
    wire := wire + region[..length];
    var reader := new CobsReader(alg, max);
    ghost var s0 := reader.View();
    msgs, checksumErrors, frameErrors := ReceiveAll(reader, wire);
    TwoFrames(Config(alg, max), s0, code, payload, code, payload);
  }
}
