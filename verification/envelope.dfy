/**
 * The escape envelope of libucomm.
 *
 * Wire format of one frame:
 *   0xFF code <payload, every 0xFF sent as 0xFF 0xFE> 0xFF 0xFD <checksum byte>
 * Escape codes: 0xFF 0xFE stands for a literal 0xFF, 0xFF 0xFD ends the
 * packet, 0xFF followed by anything else starts a packet.
 *
 * The writer emits through a `BufferIO` sink one byte at a time; the reader
 * is a five-state machine fed one byte per `Take`. The machine is given as
 * the pure function `Step`, which the `EnvelopeReader` class is proved to
 * follow; properties of byte streams are stated with `Run`.
 */
module Envelope {
  import opened Bytes
  import opened Checksum
  import opened BufferIo
  import Integers
  import Window

  // ---------------------------------------------------------------------
  // Wire format

  /** The wire form of one payload byte. */
  function EscapeByte(c: Byte): (r: seq<Byte>)
  {
    if c == 0xFF then [0xFF, 0xFE] else [c]
  }

  /** The wire form of a payload: every 0xFF followed by 0xFE. */
  function Escaped(data: seq<Byte>): (r: seq<Byte>)
    ensures |data| <= |r| <= 2 * |data|
  {
    if |data| == 0 then [] else Escaped(data[..|data| - 1]) + EscapeByte(data[|data| - 1])
  }

  /** Escaping works byte by byte, so it distributes over concatenation. */
  lemma {:induction false} EscapedAppend(a: seq<Byte>, b: seq<Byte>)
    ensures Escaped(a + b) == Escaped(a) + Escaped(b)
    decreases |b|
  {
    if |b| == 0 {
      assert a + b == a;
    } else {
      var n := |b| - 1;
      assert (a + b)[..|a + b| - 1] == a + b[..n];
      assert Escaped(a + b) == Escaped(a + b[..n]) + EscapeByte(b[n]);
      EscapedAppend(a, b[..n]);
      AppendAssoc(Escaped(a), Escaped(b[..n]), EscapeByte(b[n]));
    }
  }

  /** Escaped data never holds the end-of-packet pair 0xFF 0xFD: every 0xFF is followed by 0xFE. */
  lemma {:induction false} EscapedTransparent(data: seq<Byte>)
    ensures forall i :: 0 <= i < |Escaped(data)| && Escaped(data)[i] == 0xFF ==>
              i + 1 < |Escaped(data)| && Escaped(data)[i + 1] == 0xFE
  {
    if |data| != 0 {
      var init := data[..|data| - 1];
      EscapedTransparent(init);
      var head, tail := Escaped(init), EscapeByte(data[|data| - 1]);
      forall i | 0 <= i < |head + tail| && (head + tail)[i] == 0xFF
        ensures i + 1 < |head + tail| && (head + tail)[i + 1] == 0xFE
      {
        if i < |head| {
          assert (head + tail)[i] == head[i];
          if i + 1 < |head| {
            assert (head + tail)[i + 1] == head[i + 1];
          }
        }
      }
    }
  }

  /** One byte more of the payload is one wire form more. */
  lemma EscapedSnoc(data: seq<Byte>, i: nat)
    requires i < |data|
    ensures Escaped(data[..i + 1]) == Escaped(data[..i]) + EscapeByte(data[i])
  {
    assert data[..i + 1][..i] == data[..i];
  }

  /** The escaped payload is its escaped head followed by its escaped rest. */
  lemma EscapedSplit(data: seq<Byte>, i: nat)
    requires i <= |data|
    ensures Escaped(data) == Escaped(data[..i]) + Escaped(data[i..])
  {
    assert data[..i] + data[i..] == data;
    EscapedAppend(data[..i], data[i..]);
  }

  /** The escaped prefix, one byte, and the escaped rest make up the whole. */
  lemma EscapedStep(data: seq<Byte>, i: nat)
    requires i < |data|
    ensures Escaped(data) == Escaped(data[..i]) + EscapeByte(data[i]) + Escaped(data[i + 1..])
  {
    EscapedSnoc(data, i);
    EscapedSplit(data, i + 1);
  }

  /** What `startEnvelope` emits. */
  function Header(code: Byte): seq<Byte>
  {
    [0xFF, code]
  }

  /** What `endEnvelope` emits for a one-byte checksum `chk`. */
  function Trailer(chk: Byte): seq<Byte>
  {
    [0xFF, 0xFD, chk]
  }

  /** The frame the writer emits for one message, with a one-byte checksum. */
  function Frame(alg: Algorithm, code: Byte, payload: seq<Byte>): (r: seq<Byte>)
    requires alg != Fletcher16
    ensures 5 + |payload| <= |r| <= 5 + 2 * |payload|
  {
    Header(code) + Escaped(payload) + Trailer(Digest(alg, [code] + payload))
  }

  // ---------------------------------------------------------------------
  // Writer

  /** A cut through the middle piece of a three-piece sequence. */
  lemma PrefixCut(pre: seq<Byte>, mid: seq<Byte>, post: seq<Byte>, room: nat)
    requires |pre| <= room < |pre| + |mid|
    ensures (pre + mid + post)[..room] == pre + mid[..room - |pre|]
  {
  }

  /** What the sink holds when `write` is refused at byte i. */
  lemma WriteCut(out0: seq<Byte>, data: seq<Byte>, i: nat, room: nat, contents: seq<Byte>)
    requires i < |data|
    requires |Escaped(data[..i])| <= room < |Escaped(data[..i])| + |EscapeByte(data[i])|
    requires contents == out0 + Escaped(data[..i]) + EscapeByte(data[i])[..room - |Escaped(data[..i])|]
    ensures room < |Escaped(data)|
    ensures contents == out0 + Escaped(data)[..room]
  {
    var done, mid := Escaped(data[..i]), EscapeByte(data[i]);
    EscapedStep(data, i);
    PrefixCut(done, mid, Escaped(data[i + 1..]), room);
    AppendAssoc(out0, done, mid[..room - |done|]);
  }

  /**
   * The writer emits through a sink that refuses bytes when full; each
   * operation reports whether every byte went out, and on a refusal the sink
   * holds what was accepted up to that point.
   */
  class EnvelopeWriter {
    /** `m_charWriter`: the sink (borrowed). */
    const sink: BufferIO
    /** `m_checksum`. */
    const checksum: ChecksumGenerator

    ghost predicate Valid()
      reads this, sink, sink.buffer, checksum
    {
      sink.Valid() && checksum.Valid() && checksum.algorithm != Fletcher16
    }

    constructor (out: BufferIO, alg: Algorithm)
      requires out.Valid() && alg != Fletcher16
      ensures Valid() && sink == out && checksum.algorithm == alg && fresh(checksum)
    {
      sink := out;
      checksum := new ChecksumGenerator(alg);
    }

    /** `startEnvelope`: 0xFF and the code; the checksum restarts from the code. */
    method StartEnvelope(code: Byte) returns (ok: bool)
      requires Valid()
      modifies sink, sink.buffer, checksum
      ensures Valid()
      ensures ok <==> old(sink.Room()) >= 2
      ensures ok ==> sink.Contents == old(sink.Contents) + [0xFF, code] && checksum.fed == [code]
      ensures !ok ==> sink.Contents == old(sink.Contents) + [0xFF, code][..old(sink.Room())]
      ensures !ok ==> checksum.fed == old(checksum.fed)
    {
      ok := sink.WriteChar(0xFF);
      if !ok {
        return;
      }
      ok := sink.WriteChar(code);
      if !ok {
        return;
      }
      checksum.Reset();
      checksum.Add(code);
    }

    /** One payload byte of `write`: its wire form, then the byte into the checksum. */
    method WriteEscaped(c: Byte) returns (ok: bool)
      requires Valid()
      modifies sink, sink.buffer, checksum
      ensures Valid()
      ensures ok <==> |EscapeByte(c)| <= old(sink.Room())
      ensures ok ==> sink.Contents == old(sink.Contents) + EscapeByte(c) && checksum.fed == old(checksum.fed) + [c]
      ensures !ok ==> sink.Contents == old(sink.Contents) + EscapeByte(c)[..old(sink.Room())]
    {
      if c == 0xFF {
        ok := WriteEscapePair();
      } else {
        ok := sink.WriteChar(c);
      }
      if ok {
        checksum.Add(c);
      }
    }

    /** The wire form of 0xFF: 0xFF, then 0xFE if the first went out. */
    method WriteEscapePair() returns (ok: bool)
      requires Valid()
      modifies sink, sink.buffer
      ensures Valid()
      ensures ok <==> old(sink.Room()) >= 2
      ensures ok ==> sink.Contents == old(sink.Contents) + [0xFF, 0xFE]
      ensures !ok ==> sink.Contents == old(sink.Contents) + [0xFF, 0xFE][..old(sink.Room())]
    {
      ok := sink.WriteChar(0xFF);
      if ok {
        ok := sink.WriteChar(0xFE);
        assert [0xFF] + [0xFE] == [0xFF, 0xFE];
      }
    }

    /** `write`: each byte (0xFF followed by 0xFE); only the data byte is checksummed. */
    method Write(data: seq<Byte>) returns (ok: bool)
      requires Valid()
      modifies sink, sink.buffer, checksum
      ensures Valid()
      ensures ok <==> |Escaped(data)| <= old(sink.Room())
      ensures ok ==> sink.Contents == old(sink.Contents) + Escaped(data) && checksum.fed == old(checksum.fed) + data
      ensures !ok ==> sink.Contents == old(sink.Contents) + Escaped(data)[..old(sink.Room())]
    {
      ghost var room, out0, fed0 := sink.Room(), sink.Contents, checksum.fed;
      var i := 0;
      while i < |data|
        invariant 0 <= i <= |data| && Valid()
        invariant sink.Contents == out0 + Escaped(data[..i])
        invariant checksum.fed == fed0 + data[..i]
      {
        ghost var done := Escaped(data[..i]);
        EscapedSnoc(data, i);
        PrefixSnoc(data, i);
        ok := WriteEscaped(data[i]);
        if !ok {
          WriteCut(out0, data, i, room, sink.Contents);
          return;
        }
        AppendAssoc(out0, done, EscapeByte(data[i]));
        AppendAssoc(fed0, data[..i], [data[i]]);
        i := i + 1;
      }
      assert data[..i] == data;
      ok := true;
    }

    /** `endEnvelope`: 0xFF 0xFD and the checksum value as one raw byte. */
    method EndEnvelope() returns (ok: bool)
      requires Valid()
      modifies sink, sink.buffer
      ensures Valid()
      ensures ok <==> old(sink.Room()) >= 3
      ensures ok ==> sink.Contents == old(sink.Contents) + [0xFF, 0xFD, Digest(checksum.algorithm, checksum.fed)]
      ensures !ok ==> sink.Contents == old(sink.Contents) + [0xFF, 0xFD][..old(sink.Room())]
    {
      ghost var out0, room := sink.Contents, sink.Room();
      var value := checksum.Value();
      ok := sink.WriteChar(0xFF);
      if !ok {
        assert [0xFF, 0xFD][..room] == [];
        return;
      }
      assert sink.Room() == room - 1;
      ok := sink.WriteChar(0xFD);
      if !ok {
        assert [0xFF, 0xFD][..room] == [0xFF];
        return;
      }
      assert sink.Contents == out0 + [0xFF, 0xFD] && sink.Room() == room - 2;
      ok := sink.WriteChar(value);
    }
  }

  // ---------------------------------------------------------------------
  // Reader state machine

  /**
   * `m_state`. `Skip`, `SkipEscape` and `SkipChecksum` are not the library's:
   * they belong to the corrected machine, which discards the rest of an
   * oversize frame up to its checksum byte (see `Config`).
   */
  datatype Phase = Start1 | Start2 | Data | Escape | AwaitChecksum | Skip | SkipEscape | SkipChecksum

  datatype TakeResult = NewMessage | NeedMoreData | ChecksumError

  /**
   * The reader's state: `m_state`, `m_msgCode`, the stored bytes
   * `m_buffer[0 .. m_idx)` and the bytes fed to `m_generator` since its reset.
   */
  datatype ReaderState = ReaderState(phase: Phase, msgCode: Byte, data: seq<Byte>, fed: seq<Byte>)

  /** What the reader keeps true between bytes: the cursor stays within the buffer. */
  ghost predicate Inv(max: nat, s: ReaderState)
  {
    |s.data| <= max && (s.phase == Escape ==> |s.data| < max)
  }

  /**
   * A reader's parameters: the checksum, `MaxPacketSize`, and whether a packet
   * restarted from ESCAPE seeds its checksum with the new code. The library's
   * reader does not (`seedOnRestart == false`); the seeded variant is the
   * corrected machine, see `EnvelopeStream`. Likewise, once the buffer is
   * full the library's reader returns to START1 in the middle of the frame;
   * with `skipOversize` the reader instead discards the frame's remaining
   * bytes, its ESCAPE pairs and its checksum byte.
   */
  datatype Config = Config(alg: Algorithm, max: nat, seedOnRestart: bool, skipOversize: bool)

  /** `take(c)`. */
  function Step(cfg: Config, s: ReaderState, c: Byte): (r: (ReaderState, TakeResult))
    ensures Inv(cfg.max, s) ==> Inv(cfg.max, r.0)
    ensures r.1 != NeedMoreData <==> s.phase == AwaitChecksum
    ensures r.1 == NewMessage <==> s.phase == AwaitChecksum && c == Digest(cfg.alg, s.fed)
  {
    match s.phase
    case Start1 =>
      (if c == 0xFF then s.(phase := Start2) else s, NeedMoreData)
    case Start2 =>
      if c != 0xFF && c != 0xFE && c != 0xFD then (ReaderState(Data, c, [], [c]), NeedMoreData)
      else (s, NeedMoreData)
    case Data =>
      if |s.data| == cfg.max then
        if cfg.skipOversize then (s.(phase := if c == 0xFF then SkipEscape else Skip), NeedMoreData)
        else (s.(phase := Start1), NeedMoreData)
      else if c == 0xFF then (s.(phase := Escape), NeedMoreData)
      else (s.(data := s.data + [c], fed := s.fed + [c]), NeedMoreData)
    case Escape =>
      if c == 0xFE then (s.(phase := Data, data := s.data + [0xFF], fed := s.fed + [0xFF]), NeedMoreData)
      else if c == 0xFD then (s.(phase := AwaitChecksum), NeedMoreData)
      else (ReaderState(Data, c, [], if cfg.seedOnRestart then [c] else []), NeedMoreData)
    case AwaitChecksum =>
      if c == Digest(cfg.alg, s.fed) then (s.(phase := Start1), NewMessage)
      else (s.(phase := if c == 0xFF then Start2 else Start1), ChecksumError)
    case Skip =>
      (s.(phase := if c == 0xFF then SkipEscape else Skip), NeedMoreData)
    case SkipEscape =>
      if c == 0xFE then (s.(phase := Skip), NeedMoreData)
      else if c == 0xFD then (s.(phase := SkipChecksum), NeedMoreData)
      else (ReaderState(Data, c, [], if cfg.seedOnRestart then [c] else []), NeedMoreData)
    case SkipChecksum =>
      (s.(phase := Start1), NeedMoreData)
  }

  /** The cursor `m_idx` always fits the `SizeType` chosen for the capacity. */
  lemma CursorFitsSizeType(max: nat, s: ReaderState)
    requires max < 0x8000_0000 && Inv(max, s)
    ensures |s.data| < Pow256(Integers.IntForSize(max))
  {
    Integers.IntForSizeFits(max, |s.data|);
  }

  class EnvelopeReader {
    const algorithm: Algorithm
    const maxPacketSize: nat
    var state: Phase
    var msgCode: Byte
    const buffer: array<Byte>
    var idx: nat
    const generator: ChecksumGenerator

    ghost predicate Valid()
      reads this, buffer, generator
    {
      && buffer.Length == maxPacketSize
      && generator.algorithm == algorithm && generator.Valid()
      && idx <= maxPacketSize && (state == Escape ==> idx < maxPacketSize)
      && !state.Skip? && !state.SkipEscape? && !state.SkipChecksum?
    }

    /** The state as the pure machine sees it. */
    ghost function View(): (s: ReaderState)
      reads this, buffer, generator
      requires Valid()
      ensures Inv(maxPacketSize, s)
    {
      ReaderState(state, msgCode, buffer[..idx], generator.fed)
    }

    constructor (alg: Algorithm, max: nat)
      ensures Valid() && fresh(buffer) && fresh(generator)
      ensures algorithm == alg && maxPacketSize == max
      ensures View().phase == Start1 && View().data == []
    {
      algorithm, maxPacketSize := alg, max;
      state, msgCode := Start1, 0;
      buffer := new Byte[max];
      idx := 0;
      generator := new ChecksumGenerator(alg);
    }

    /** `take(c)`: one step of `Step`. */
    method Take(c: Byte) returns (r: TakeResult)
      requires Valid()
      modifies this, buffer, generator
      ensures Valid()
      ensures (View(), r) == Step(Config(algorithm, maxPacketSize, false, false), old(View()), c)
    {
      ghost var s := View();
      r := NeedMoreData;
      match state
      case Start1 =>
        if c == 0xFF {
          state := Start2;
        }
      case Start2 =>
        if c != 0xFF && c != 0xFE && c != 0xFD {
          msgCode, idx, state := c, 0, Data;
          generator.Reset();
          generator.Add(c);
          assert View() == ReaderState(Data, c, [], [c]);
        }
      case Data =>
        if idx == maxPacketSize {
          state := Start1;
        } else if c == 0xFF {
          state := Escape;
        } else {
          buffer[idx] := c;
          idx := idx + 1;
          assert buffer[..idx] == s.data + [c];
          generator.Add(c);
        }
      case Escape =>
        if c == 0xFE {
          buffer[idx] := 0xFF;
          idx := idx + 1;
          assert buffer[..idx] == s.data + [0xFF];
          state := Data;
          generator.Add(0xFF);
        } else if c == 0xFD {
          state := AwaitChecksum;
        } else {
          msgCode, idx, state := c, 0, Data;
          generator.Reset();
          assert View() == ReaderState(Data, c, [], []);
        }
      case AwaitChecksum =>
        if c == generator.Value() {
          state := Start1;
          r := NewMessage;
        } else {
          state := if c == 0xFF then Start2 else Start1;
          r := ChecksumError;
        }
      case Skip | SkipEscape | SkipChecksum =>
        assert false;
    }

    /** `msgCode()`. */
    function MsgCode(): (code: Byte)
      reads this, buffer, generator
      requires Valid()
      ensures code == View().msgCode
    {
      msgCode
    }

    /** `makeReader()`: a window over the stored bytes. */
    method MakeReader() returns (w: Window.Reader)
      requires Valid()
      ensures fresh(w) && w.Valid() && w.data == View().data && w.idx == 0
    {
      w := new Window.Reader(buffer[..idx]);
    }
  }
}
