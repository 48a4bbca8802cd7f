/**
 * The COBS reader (`COBSReader`): a state machine fed one wire byte at a
 * time. A zero byte always ends what came before it and readies the reader
 * for a message code; the blocks that follow are decoded into the buffer,
 * and the next zero closes the packet, whose last `SumWidth` bytes (before
 * the implied zero of the last block) carry the checksum.
 */
module CobsDecode {
  import opened Bytes
  import opened Checksum
  import Window

  /**
   * `m_state`. In `CobsData` the reader also keeps `m_cobsCode` (the code of
   * the block being read) and `m_cobsLength` (how many of its bytes are
   * still to come); they play no part in the other states.
   */
  datatype Phase = Start | MsgCode | CobsCode | CobsData(code: Byte, remaining: Byte)

  datatype TakeResult = NewMessage | NeedMoreData | ChecksumError | FrameError

  /** The reader's state: the phase, `m_msgCode` and the decoded bytes `m_buffer[0 .. m_idx)`. */
  datatype ReaderState = ReaderState(phase: Phase, msgCode: Byte, data: seq<Byte>)

  /** The checksum and `MaxPacketSize`. */
  datatype Config = Config(alg: Algorithm, max: nat)

  /** The cursor stays within the buffer. */
  ghost predicate Inv(max: nat, s: ReaderState)
  {
    |s.data| <= max
  }

  /** The byte that starts the checksum: `m_msgCode + 1`, as the generator's byte parameter takes it. */
  function Seed(msgCode: Byte): Byte
  {
    (msgCode + 1) % 256
  }

  /**
   * `finish()`, on the zero that closes a packet. Too few bytes for the
   * implied zero and a checksum is a frame error. Otherwise the implied zero
   * is dropped, and the checksum over the code byte and the body is compared
   * with the stored little-endian sum: on a match the sum is dropped too and
   * the message is ready. Every outcome leaves the reader waiting for a code.
   */
  function FinishFrame(cfg: Config, s: ReaderState): (r: (ReaderState, TakeResult))
    ensures r.0.phase == MsgCode && r.0.msgCode == s.msgCode && r.1 != NeedMoreData
    ensures |r.0.data| <= |s.data|
    ensures r.1 == FrameError <==> |s.data| < SumWidth(cfg.alg) + 1
  {
    var w := SumWidth(cfg.alg);
    if |s.data| < w + 1 then (s.(phase := MsgCode), FrameError)
    else
      var stored := s.data[..|s.data| - 1];
      var n := |stored| - w;
      if Digest(cfg.alg, [Seed(s.msgCode)] + stored[..n]) != FromLittleEndian(stored[n..])
      then (ReaderState(MsgCode, s.msgCode, stored), ChecksumError)
      else (ReaderState(MsgCode, s.msgCode, stored[..n]), NewMessage)
  }

  /**
   * A message is delivered only when its checksum holds: the body is what
   * remains after the stored sum and the implied zero, and the stored sum is
   * the checksum over the code byte and the body.
   */
  lemma FinishDeliversChecked(cfg: Config, s: ReaderState)
    ensures var (next, r) := FinishFrame(cfg, s);
      r == NewMessage ==>
        && |s.data| == |next.data| + SumWidth(cfg.alg) + 1
        && next.data == s.data[..|next.data|]
        && FromLittleEndian(s.data[|next.data|..|s.data| - 1]) == Digest(cfg.alg, [Seed(s.msgCode)] + next.data)
  {
    if |s.data| >= SumWidth(cfg.alg) + 1 {
      var stored := s.data[..|s.data| - 1];
      var n := |stored| - SumWidth(cfg.alg);
      assert stored[..n] == s.data[..n] && stored[n..] == s.data[n..|s.data| - 1];
    }
  }

  /** The outcome of `finish()` once the checksum and the stored sum are known. */
  lemma FinishVerdict(cfg: Config, s: ReaderState, value: nat, sum: nat)
    requires |s.data| >= SumWidth(cfg.alg) + 1
    requires var n := |s.data| - 1 - SumWidth(cfg.alg);
      && value == Digest(cfg.alg, [Seed(s.msgCode)] + s.data[..n])
      && sum == FromLittleEndian(s.data[n..|s.data| - 1])
    ensures FinishFrame(cfg, s) == if value != sum
      then (ReaderState(MsgCode, s.msgCode, s.data[..|s.data| - 1]), ChecksumError)
      else (ReaderState(MsgCode, s.msgCode, s.data[..|s.data| - 1 - SumWidth(cfg.alg)]), NewMessage)
  {
    var stored := s.data[..|s.data| - 1];
    var n := |stored| - SumWidth(cfg.alg);
    assert stored[..n] == s.data[..n] && stored[n..] == s.data[n..|s.data| - 1];
  }

  /** `take(c)`. */
  function Step(cfg: Config, s: ReaderState, c: Byte): (r: (ReaderState, TakeResult))
    ensures Inv(cfg.max, s) ==> Inv(cfg.max, r.0)
    ensures c == 0 ==> r.0.phase == MsgCode
    ensures r.1 != NeedMoreData <==> c == 0 && (s.phase == CobsCode || s.phase.CobsData?)
  {
    match s.phase
    case Start =>
      (if c == 0 then s.(phase := MsgCode) else s, NeedMoreData)
    case MsgCode =>
      (if c != 0 then ReaderState(CobsCode, c - 1, []) else s, NeedMoreData)
    case CobsCode =>
      if c == 0 then FinishFrame(cfg, s)
      else if c == 1 then
        (if |s.data| == cfg.max then s.(phase := Start) else s.(data := s.data + [0]), NeedMoreData)
      else (s.(phase := CobsData(c, c - 1)), NeedMoreData)
    case CobsData(code, remaining) =>
      if c == 0 then FinishFrame(cfg, s)
      else if |s.data| == cfg.max then (s.(phase := Start), NeedMoreData)
      else
        var data := s.data + [c];
        var left := (remaining + 255) % 256;
        if left != 0 then (ReaderState(CobsData(code, left), s.msgCode, data), NeedMoreData)
        else if code == 0xFF then (ReaderState(CobsCode, s.msgCode, data), NeedMoreData)
        else if |data| == cfg.max then (ReaderState(Start, s.msgCode, data), NeedMoreData)
        else (ReaderState(CobsCode, s.msgCode, data + [0]), NeedMoreData)
  }

  class CobsReader {
    const algorithm: Algorithm
    const maxPacketSize: nat
    /** `m_state`, with `m_cobsCode` and `m_cobsLength` carried by `CobsData`. */
    var state: Phase
    var msgCode: Byte
    const buffer: array<Byte>
    var idx: nat
    const generator: ChecksumGenerator

    ghost predicate Valid()
      reads this, buffer, generator
    {
      && buffer.Length == maxPacketSize && idx <= maxPacketSize
      && generator.algorithm == algorithm && generator.Valid()
    }

    ghost function Cfg(): Config
      reads this
    {
      Config(algorithm, maxPacketSize)
    }

    /** The state as the pure machine sees it. */
    ghost function View(): (s: ReaderState)
      reads this, buffer, generator
      requires Valid()
      ensures Inv(maxPacketSize, s)
    {
      ReaderState(state, msgCode, buffer[..idx])
    }

    /** The reader starts out waiting for a zero. */
    constructor (alg: Algorithm, max: nat)
      ensures Valid() && fresh(buffer) && fresh(generator)
      ensures algorithm == alg && maxPacketSize == max
      ensures View().phase == Start
    {
      algorithm, maxPacketSize := alg, max;
      state, msgCode := Start, 0;
      buffer := new Byte[max];
      idx := 0;
      generator := new ChecksumGenerator(alg);
    }

    /** `take(c)`: one step of `Step`. */
    method Take(c: Byte) returns (r: TakeResult)
      requires Valid()
      modifies this, buffer, generator
      ensures Valid()
      ensures (View(), r) == Step(Cfg(), old(View()), c)
    {
      ghost var s := View();
      r := NeedMoreData;
      match state
      case Start =>
        if c == 0 {
          state := MsgCode;
        }
      case MsgCode =>
        if c != 0 {
          msgCode, idx, state := c - 1, 0, CobsCode;
        }
      case CobsCode =>
        if c == 0 {
          r := Finish();
          return;
        }
        if c == 1 {
          if idx == maxPacketSize {
            state := Start;
            return;
          }
          buffer[idx] := 0;
          idx := idx + 1;
          assert buffer[..idx] == s.data + [0];
        } else {
          state := CobsData(c, c - 1);
        }
      case CobsData(code, remaining) =>
        if c == 0 {
          r := Finish();
          return;
        }
        if idx == maxPacketSize {
          state := Start;
          return;
        }
        buffer[idx] := c;
        idx := idx + 1;
        assert buffer[..idx] == s.data + [c];
        var left := (remaining + 255) % 256;
        state := CobsData(code, left);
        if left == 0 {
          if code != 0xFF {
            if idx == maxPacketSize {
              state := Start;
              return;
            }
            buffer[idx] := 0;
            idx := idx + 1;
            assert buffer[..idx] == s.data + [c] + [0];
          }
          state := CobsCode;
        }
    }

    /** `finish()`: checks the packet against its checksum, feeding the generator byte by byte. */
    method Finish() returns (r: TakeResult)
      requires Valid()
      modifies this, generator
      ensures Valid()
      ensures (View(), r) == FinishFrame(Cfg(), old(View()))
    {
      ghost var s := View();
      var w := SumWidth(algorithm);
      if idx < w + 1 {
        state := MsgCode;
        assert View() == s.(phase := MsgCode);
        return FrameError;
      }
      var end := idx - 1;
      var value := ChecksumOf(end - w);
      var sum := FromLittleEndian(buffer[end - w..end]);
      assert buffer[..end - w] == s.data[..end - w] && buffer[end - w..end] == s.data[end - w..end];
      FinishVerdict(Cfg(), s, value, sum);
      if value != sum {
        idx, state := end, MsgCode;
        r := ChecksumError;
        assert View() == ReaderState(MsgCode, s.msgCode, s.data[..end]);
      } else {
        idx, state := end - w, MsgCode;
        r := NewMessage;
        assert View() == ReaderState(MsgCode, s.msgCode, s.data[..end - w]);
      }
    }

    /** The checking loop of `finish()`: the generator restarted, fed the code byte and the first `n` bytes. */
    method ChecksumOf(n: nat) returns (value: nat)
      requires Valid() && n <= idx
      modifies generator
      ensures Valid()
      ensures value == Digest(algorithm, [Seed(msgCode)] + buffer[..n])
    {
      generator.Reset();
      generator.Add(Seed(msgCode));
      var i := 0;
      while i < n
        invariant 0 <= i <= n
        invariant generator.Valid() && generator.fed == [Seed(msgCode)] + buffer[..i]
      {
        PrefixSnoc(buffer[..], i);
        generator.Add(buffer[i]);
        i := i + 1;
      }
      value := generator.Value();
    }

    /** `msgCode()`. */
    function MsgCodeValue(): (code: Byte)
      reads this, buffer, generator
      requires Valid()
      ensures code == View().msgCode
    {
      msgCode
    }

    /** `makeReader()`: a window over the decoded bytes. */
    method MakeReader() returns (w: Window.Reader)
      requires Valid()
      ensures fresh(w) && w.Valid() && w.data == View().data && w.idx == 0
    {
      w := new Window.Reader(buffer[..idx]);
    }
  }
}
