/**
 * Variable-length lists inside messages (`List`). On the wire a list is its
 * element count, `IntForSize(Size)` bytes wide, followed by the elements,
 * each `width` bytes (`sizeof(T)` for an integral `T`, `T::POD_SIZE` for a
 * structure), least significant byte first. The readable list reads the
 * count and hands out the elements one by one; the writable list takes its
 * elements from an array or from a callback.
 */
module Lists {
  import opened Bytes
  import opened Checksum
  import opened Envelope
  import Window

  // ---------------------------------------------------------------------
  // Wire image

  /** Every element fits in `width` bytes. */
  predicate AllFit(vs: seq<nat>, width: nat)
  {
    forall i :: 0 <= i < |vs| ==> vs[i] < Pow256(width)
  }

  /** The elements one after another, each `width` bytes. */
  function Items(vs: seq<nat>, width: nat): (r: seq<Byte>)
    requires AllFit(vs, width)
    ensures |r| == |vs| * width
    decreases |vs|
  {
    if |vs| == 0 then []
    else
      var rest := Items(vs[1..], width);
      assert |vs| * width == width + (|vs| - 1) * width;
      LittleEndian(vs[0], width) + rest
  }

  /** A whole list: the count, then the elements. */
  function ListImage(vs: seq<nat>, width: nat, countWidth: nat): (r: seq<Byte>)
    requires AllFit(vs, width) && |vs| < Pow256(countWidth)
    ensures |r| == countWidth + |vs| * width
  {
    LittleEndian(|vs|, countWidth) + Items(vs, width)
  }

  /**
   * What a reader takes out of `bytes` when it expects `n` elements: element
   * after element until `n` are read or fewer than `width` bytes are left.
   */
  function Available(bytes: seq<Byte>, width: nat, n: nat): (r: seq<nat>)
    ensures |r| <= n
    decreases n
  {
    if n == 0 || |bytes| < width then []
    else [FromLittleEndian(bytes[..width])] + Available(bytes[width..], width, n - 1)
  }

  /** The count stored at `at`. */
  function CountField(data: seq<Byte>, at: nat, countWidth: nat): nat
    requires at + countWidth <= |data|
  {
    FromLittleEndian(data[at..at + countWidth])
  }

  /** The image of two runs of elements is the two images one after the other. */
  lemma {:induction false} ItemsAppend(a: seq<nat>, b: seq<nat>, width: nat)
    requires AllFit(a, width) && AllFit(b, width)
    ensures AllFit(a + b, width)
    ensures Items(a + b, width) == Items(a, width) + Items(b, width)
    decreases |a|
  {
    if |a| == 0 {
      assert a + b == b;
    } else {
      assert (a + b)[1..] == a[1..] + b;
      ItemsAppend(a[1..], b, width);
      AppendAssoc(LittleEndian(a[0], width), Items(a[1..], width), Items(b, width));
    }
  }

  /** Reading the elements back gives the elements written, whatever follows them. */
  lemma {:induction false} AvailableOfItems(vs: seq<nat>, width: nat, tail: seq<Byte>)
    requires AllFit(vs, width)
    ensures Available(Items(vs, width) + tail, width, |vs|) == vs
    decreases |vs|
  {
    if |vs| > 0 {
      var head := LittleEndian(vs[0], width);
      var bytes := Items(vs, width) + tail;
      assert bytes == head + (Items(vs[1..], width) + tail);
      assert bytes[..width] == head && bytes[width..] == Items(vs[1..], width) + tail;
      FromLittleEndianOfLittleEndian(vs[0], width);
      AvailableOfItems(vs[1..], width, tail);
    }
  }

  /** A list image read back: the count, and after it exactly the elements. */
  lemma ListImageRoundTrip(vs: seq<nat>, width: nat, countWidth: nat, tail: seq<Byte>)
    requires AllFit(vs, width) && |vs| < Pow256(countWidth)
    ensures var bytes := ListImage(vs, width, countWidth) + tail;
      && CountField(bytes, 0, countWidth) == |vs|
      && Available(bytes[countWidth..], width, |vs|) == vs
  {
    var bytes := ListImage(vs, width, countWidth) + tail;
    assert bytes[0..countWidth] == LittleEndian(|vs|, countWidth);
    assert bytes[countWidth..] == Items(vs, width) + tail;
    FromLittleEndianOfLittleEndian(|vs|, countWidth);
    AvailableOfItems(vs, width, tail);
  }

  /** k steps of `width` within n steps stay within n steps. */
  lemma StepsWithin(width: nat, k: nat, n: nat)
    requires k <= n
    ensures width * k <= width * n
  {
  }

  /** One step of `width` more. */
  lemma StepMore(width: nat, k: nat)
    ensures width * (k + 1) == width * k + width
  {
  }

  /**
   * The skipping loop for elements that are not integral: one element at a
   * time, stopping at the first that runs past the end. It fails exactly
   * when the `n` elements do not fit.
   */
  method SkipElements(src: Window.Reader, width: nat, n: nat) returns (ok: bool)
    requires src.Valid()
    modifies src
    ensures src.Valid()
    ensures ok <==> old(src.idx) + width * n <= |src.data|
    ensures ok ==> src.idx == old(src.idx) + width * n
  {
    ghost var start := src.idx;
    var i: nat := n;
    while i != 0
      invariant i <= n && src.Valid() && src.idx == start + width * (n - i)
      decreases i
    {
      StepMore(width, n - i);
      ok := src.Skip(width);
      if !ok {
        StepsWithin(width, n - i + 1, n);
        return;
      }
      i := i - 1;
    }
    ok := true;
  }

  // ---------------------------------------------------------------------
  // Readable list

  class ReadableList {
    /** Bytes per element. */
    const width: nat
    /** `sizeof(SizeType)`. */
    const countWidth: nat
    /** Whether `T` is integral (its elements are skipped in one go). */
    const integral: bool
    /** `IOI::IsLast`: the list is the message's last member, so nothing after it needs its elements skipped. */
    const isLast: bool
    /** `m_count`: the elements not yet taken. */
    var count: nat
    /** `m_reader`: a copy of the window, placed at the first element not yet taken. */
    var reader: Window.Reader

    ghost predicate Valid()
      reads this, reader
    {
      reader.Valid()
    }

    constructor (width: nat, countWidth: nat, integral: bool, isLast: bool)
      ensures Valid() && fresh(reader) && count == 0
      ensures this.width == width && this.countWidth == countWidth
      ensures this.integral == integral && this.isLast == isLast
    {
      this.width, this.countWidth := width, countWidth;
      this.integral, this.isLast := integral, isLast;
      count := 0;
      reader := new Window.Reader([]);
    }

    /**
     * `remaining()`: the count `m_count`, which bounds the elements `next`
     * can still hand out; the bound itself is `Available`'s.
     */
    function Remaining(): (n: nat)
      reads this, reader
      requires Valid()
      ensures |Available(reader.Rest(), width, n)| <= n
      ensures n == count
    {
      count
    }

    /**
     * `deserialize`: the count is read, the window copied at the first
     * element, and, unless the list is last, the elements skipped on the
     * caller's window. It fails when the count or the elements run past the
     * end of the message.
     */
    method Deserialize(src: Window.Reader) returns (ok: bool)
      requires Valid() && src.Valid()
      modifies this, src
      ensures Valid() && src.Valid()
      ensures ok <==> (old(src.idx) + countWidth <= |src.data| &&
        (isLast || old(src.idx) + countWidth + width * CountField(src.data, old(src.idx), countWidth) <= |src.data|))
      ensures old(src.idx) + countWidth <= |src.data| ==>
        && count == CountField(src.data, old(src.idx), countWidth) && fresh(reader)
        && reader.data == src.data && reader.idx == old(src.idx) + countWidth
      ensures ok ==> src.idx == old(src.idx) + countWidth + if isLast then 0 else width * count
    {
      ghost var at := src.idx;
      var bytes;
      ok, bytes := src.Read(countWidth);
      if !ok {
        return;
      }
      assert bytes == src.data[at..at + countWidth];
      count := FromLittleEndian(bytes);
      reader := new Window.Reader.Copy(src);
      if !isLast {
        if integral {
          ok := src.Skip(width * count);
        } else {
          ok := SkipElements(src, width, count);
        }
      }
    }

    /**
     * `next`: nothing once the count is exhausted; otherwise the count goes
     * down, even when the element then fails to read.
     */
    method Next() returns (ok: bool, value: nat)
      requires Valid()
      modifies this, reader
      ensures Valid() && reader == old(reader)
      ensures count == if old(count) == 0 then 0 else old(count) - 1
      ensures ok <==> old(count) > 0 && width <= |old(reader.Rest())|
      ensures ok ==> value == FromLittleEndian(old(reader.Rest())[..width]) && reader.Rest() == old(reader.Rest())[width..]
      ensures Available(old(reader.Rest()), width, old(count)) == (if ok then [value] else []) + Available(reader.Rest(), width, count)
      ensures !ok ==> Available(reader.Rest(), width, count) == []
    {
      if count == 0 {
        return false, 0;
      }
      count := count - 1;
      var bytes;
      ok, bytes := reader.Read(width);
      value := if ok then FromLittleEndian(bytes) else 0;
    }
  }

  /** The loop of a message handler: `next` until it reports nothing more. */
  method TakeAll(list: ReadableList) returns (vs: seq<nat>)
    requires list.Valid()
    modifies list, list.reader
    ensures list.Valid()
    ensures vs == Available(old(list.reader.Rest()), list.width, old(list.count))
  {
    ghost var expected := Available(list.reader.Rest(), list.width, list.count);
    vs := [];
    var more := true;
    while more
      invariant list.Valid() && list.reader == old(list.reader)
      invariant more ==> expected == vs + Available(list.reader.Rest(), list.width, list.count)
      invariant !more ==> expected == vs
      decreases list.count, more
    {
      var value;
      ghost var before := vs;
      more, value := list.Next();
      if more {
        vs := vs + [value];
        AppendAssoc(before, [value], Available(list.reader.Rest(), list.width, list.count));
      } else {
        assert vs + [] == vs;
      }
    }
  }

  /**
   * A list image read back through the readable list: `deserialize`
   * succeeds whatever follows the list, and `next` hands out exactly the
   * elements that were written.
   */
  method ListRoundTrip(vs: seq<nat>, width: nat, countWidth: nat, integral: bool, isLast: bool, tail: seq<Byte>)
    returns (ok: bool, got: seq<nat>)
    requires AllFit(vs, width) && |vs| < Pow256(countWidth)
    ensures ok && got == vs
  {
    var bytes := ListImage(vs, width, countWidth) + tail;
    ListImageRoundTrip(vs, width, countWidth, tail);
    assert bytes[0..countWidth] == bytes[0..0 + countWidth];
    var src := new Window.Reader(bytes);
    var list := new ReadableList(width, countWidth, integral, isLast);
    ok := list.Deserialize(src);
    got := TakeAll(list);
  }

  // ---------------------------------------------------------------------
  // Writable list

  /** `m_mode` with the member of the union it selects. */
  datatype Source = Empty | Direct(data: seq<nat>) | Callback(produce: nat -> Option<nat>)

  /** The callback's results for indices 0 to n - 1, or nothing once one of them fails. */
  function Produce(produce: nat -> Option<nat>, n: nat): (r: Option<seq<nat>>)
    ensures r.Some? ==> |r.value| == n && forall i :: 0 <= i < n ==> produce(i) == Some(r.value[i])
    ensures r.None? ==> exists i :: 0 <= i < n && produce(i).None?
  {
    if n == 0 then Some([])
    else match Produce(produce, n - 1)
      case None => None
      case Some(vs) => if produce(n - 1).Some? then Some(vs + [produce(n - 1).value]) else None
  }

  /** A callback that yields the array's elements writes what the array would. */
  lemma {:induction false} CallbackMatchesData(produce: nat -> Option<nat>, data: seq<nat>, n: nat)
    requires n <= |data| && forall i :: 0 <= i < n ==> produce(i) == Some(data[i])
    ensures Produce(produce, n) == Some(data[..n])
  {
    if n > 0 {
      CallbackMatchesData(produce, data, n - 1);
      assert data[..n] == data[..n - 1] + [data[n - 1]];
    }
  }

  class WritableList {
    /** Bytes per element. */
    const width: nat
    /** `sizeof(SizeType)`. */
    const countWidth: nat
    /** Whether `T` is integral (direct data is then written in one go). */
    const integral: bool
    /** `m_count`. */
    var count: nat
    var source: Source

    /** The count fits its type, and every element the source can give fits an element. */
    ghost predicate Valid()
      reads this
    {
      && count < Pow256(countWidth)
      && match source
         case Empty => count == 0
         case Direct(data) => count <= |data| && AllFit(data[..count], width)
         case Callback(produce) => forall i :: produce(i).Some? ==> produce(i).value < Pow256(width)
    }

    /** The elements `serialize` writes, or nothing when the callback fails. */
    ghost function Elements(): (r: Option<seq<nat>>)
      reads this
      requires Valid()
      ensures r.Some? ==> |r.value| == count && AllFit(r.value, width)
    {
      match source
      case Empty => Some([])
      case Direct(data) => Some(data[..count])
      case Callback(produce) => Produce(produce, count)
    }

    /** A new list is empty (the library leaves its count unset; here it is zero). */
    constructor (width: nat, countWidth: nat, integral: bool)
      requires countWidth > 0
      ensures Valid() && Elements() == Some([])
      ensures this.width == width && this.countWidth == countWidth && this.integral == integral
    {
      this.width, this.countWidth, this.integral := width, countWidth, integral;
      count, source := 0, Empty;
    }

    /** `setData`: the first `n` elements of `data`. */
    method SetData(data: seq<nat>, n: nat)
      requires n < Pow256(countWidth) && n <= |data| && AllFit(data[..n], width)
      modifies this
      ensures Valid() && Elements() == Some(data[..n])
    {
      source, count := Direct(data), n;
    }

    /** `setCallback`: `n` elements, element i as `produce(i)` gives it. */
    method SetCallback(produce: nat -> Option<nat>, n: nat)
      requires n < Pow256(countWidth)
      requires forall i :: produce(i).Some? ==> produce(i).value < Pow256(width)
      modifies this
      ensures Valid() && Elements() == Produce(produce, n)
    {
      source, count := Callback(produce), n;
    }

    /**
     * `serialize`: the count, then the elements, through the envelope
     * writer. It fails when the callback fails or the sink runs out of room;
     * when it succeeds the sink holds the escaped list image, and the
     * checksum has taken in the image itself.
     */
    method Serialize(w: EnvelopeWriter) returns (ok: bool)
      requires Valid() && w.Valid()
      modifies w.sink, w.sink.buffer, w.checksum
      ensures w.Valid()
      ensures ok <==> Elements().Some? && |Escaped(ListImage(Elements().value, width, countWidth))| <= old(w.sink.Room())
      ensures ok ==> w.sink.Contents == old(w.sink.Contents) + Escaped(ListImage(Elements().value, width, countWidth))
      ensures ok ==> w.checksum.fed == old(w.checksum.fed) + ListImage(Elements().value, width, countWidth)
    {
      ghost var out0, fed0, room := w.sink.Contents, w.checksum.fed, w.sink.Room();
      var head := LittleEndian(count, countWidth);
      ok := w.Write(head);
      if !ok {
        if Elements().Some? {
          EscapedAppend(head, Items(Elements().value, width));
        }
        return;
      }
      match source
      case Empty =>
        assert head + Items([], width) == head;
      case Direct(data) =>
        if integral {
          ok := WriteBlock(w, head, data[..count], width, out0, fed0, room);
        } else {
          ok := WriteItems(w, head, data[..count], out0, fed0, room);
        }
      case Callback(produce) =>
        ok := WriteProduced(w, head, produce, out0, fed0, room);
    }

    /** The element loop of direct data that is not integral: element by element. */
    method WriteItems(w: EnvelopeWriter, head: seq<Byte>, vs: seq<nat>, ghost out0: seq<Byte>, ghost fed0: seq<Byte>, ghost room: nat)
      returns (ok: bool)
      requires w.Valid() && AllFit(vs, width)
      requires w.sink.Contents == out0 + Escaped(head) && w.checksum.fed == fed0 + head
      requires |Escaped(head)| + w.sink.Room() == room
      modifies w.sink, w.sink.buffer, w.checksum
      ensures w.Valid()
      ensures ok <==> |Escaped(head + Items(vs, width))| <= room
      ensures ok ==> w.sink.Contents == out0 + Escaped(head + Items(vs, width))
      ensures ok ==> w.checksum.fed == fed0 + (head + Items(vs, width))
    {
      assert head + Items(vs[..0], width) == head;
      var i := 0;
      while i < |vs|
        invariant i <= |vs| && w.Valid()
        invariant w.sink.Contents == out0 + Escaped(head + Items(vs[..i], width))
        invariant w.checksum.fed == fed0 + (head + Items(vs[..i], width))
        invariant |Escaped(head + Items(vs[..i], width))| + w.sink.Room() == room
      {
        PrefixSnoc(vs, i);
        ok := WriteOne(w, head, vs[..i], vs[i], width, out0, fed0, room);
        if !ok {
          LongerAt(head, vs, i + 1, width);
          return;
        }
        i := i + 1;
      }
      assert vs[..i] == vs;
      ok := true;
    }

    /** The callback loop: element i from the callback, then written; a failing callback stops it. */
    method WriteProduced(w: EnvelopeWriter, head: seq<Byte>, produce: nat -> Option<nat>, ghost out0: seq<Byte>, ghost fed0: seq<Byte>, ghost room: nat)
      returns (ok: bool)
      requires Valid() && source == Callback(produce) && w.Valid()
      requires w.sink.Contents == out0 + Escaped(head) && w.checksum.fed == fed0 + head
      requires |Escaped(head)| + w.sink.Room() == room
      modifies w.sink, w.sink.buffer, w.checksum
      ensures w.Valid()
      ensures ok <==> Produce(produce, count).Some? && |Escaped(head + Items(Produce(produce, count).value, width))| <= room
      ensures ok ==> w.sink.Contents == out0 + Escaped(head + Items(Produce(produce, count).value, width))
      ensures ok ==> w.checksum.fed == fed0 + (head + Items(Produce(produce, count).value, width))
    {
      var i := 0;
      var done: seq<nat> := [];
      assert head + Items(done, width) == head;
      while i != count
        invariant i <= count && w.Valid() && Produce(produce, i) == Some(done)
        invariant AllFit(done, width)
        invariant w.sink.Contents == out0 + Escaped(head + Items(done, width))
        invariant w.checksum.fed == fed0 + (head + Items(done, width))
        invariant |Escaped(head + Items(done, width))| + w.sink.Room() == room
      {
        var item := produce(i);
        if item.None? {
          NoneStaysNone(produce, i + 1, count);
          return false;
        }
        assert item.value < Pow256(width);
        ok := WriteOne(w, head, done, item.value, width, out0, fed0, room);
        if !ok {
          NoRoomForAll(produce, head, done, item.value, i, count, width, room);
          return;
        }
        assert Produce(produce, i + 1) == Some(done + [item.value]);
        done := done + [item.value];
        i := i + 1;
      }
      ok := true;
    }
  }

  /** One element through `write`, as its little-endian image. */
  method WriteOne(w: EnvelopeWriter, head: seq<Byte>, done: seq<nat>, v: nat, width: nat,
                  ghost out0: seq<Byte>, ghost fed0: seq<Byte>, ghost room: nat) returns (ok: bool)
    requires w.Valid() && AllFit(done, width) && v < Pow256(width)
    requires w.sink.Contents == out0 + Escaped(head + Items(done, width))
    requires w.checksum.fed == fed0 + (head + Items(done, width))
    requires |Escaped(head + Items(done, width))| + w.sink.Room() == room
    modifies w.sink, w.sink.buffer, w.checksum
    ensures w.Valid() && AllFit(done + [v], width)
    ensures ok <==> |Escaped(head + Items(done + [v], width))| <= room
    ensures ok ==> w.sink.Contents == out0 + Escaped(head + Items(done + [v], width))
    ensures ok ==> w.checksum.fed == fed0 + (head + Items(done + [v], width))
    ensures ok ==> |Escaped(head + Items(done + [v], width))| + w.sink.Room() == room
  {
    var item := LittleEndian(v, width);
    ghost var before := head + Items(done, width);
    ghost var after := head + Items(done + [v], width);
    assert after == before + item by {
      ItemsAppend(done, [v], width);
      assert Items([v], width) == item + Items([], width);
      AppendAssoc(head, Items(done, width), item);
    }
    EscapedAppend(before, item);
    ok := w.Write(item);
    if ok {
      AppendAssoc(out0, Escaped(before), Escaped(item));
      AppendAssoc(fed0, before, item);
    }
  }

  /** Direct integral data: all the elements in one `write`. */
  method WriteBlock(w: EnvelopeWriter, head: seq<Byte>, vs: seq<nat>, width: nat,
                    ghost out0: seq<Byte>, ghost fed0: seq<Byte>, ghost room: nat) returns (ok: bool)
    requires w.Valid() && AllFit(vs, width)
    requires w.sink.Contents == out0 + Escaped(head) && w.checksum.fed == fed0 + head
    requires |Escaped(head)| + w.sink.Room() == room
    modifies w.sink, w.sink.buffer, w.checksum
    ensures w.Valid()
    ensures ok <==> |Escaped(head + Items(vs, width))| <= room
    ensures ok ==> w.sink.Contents == out0 + Escaped(head + Items(vs, width))
    ensures ok ==> w.checksum.fed == fed0 + (head + Items(vs, width))
  {
    var block := Items(vs, width);
    EscapedAppend(head, block);
    ok := w.Write(block);
    if ok {
      AppendAssoc(out0, Escaped(head), Escaped(block));
      AppendAssoc(fed0, head, block);
    }
  }

  /** Bytes appended after a prefix make the escaped image longer, never shorter. */
  lemma Longer(head: seq<Byte>, a: seq<nat>, b: seq<nat>, width: nat)
    requires AllFit(a, width) && AllFit(b, width)
    ensures AllFit(a + b, width)
    ensures |Escaped(head + Items(a, width))| <= |Escaped(head + Items(a + b, width))|
  {
    ItemsAppend(a, b, width);
    AppendAssoc(head, Items(a, width), Items(b, width));
    EscapedAppend(head + Items(a, width), Items(b, width));
  }

  /** The escaped image of a prefix of the elements is no longer than that of all of them. */
  lemma LongerAt(head: seq<Byte>, vs: seq<nat>, k: nat, width: nat)
    requires AllFit(vs, width) && k <= |vs|
    ensures AllFit(vs[..k], width)
    ensures |Escaped(head + Items(vs[..k], width))| <= |Escaped(head + Items(vs, width))|
  {
    assert vs[..k] + vs[k..] == vs;
    Longer(head, vs[..k], vs[k..], width);
  }

  /** An element that did not fit leaves no room for the whole run either. */
  lemma NoRoomForAll(produce: nat -> Option<nat>, head: seq<Byte>, done: seq<nat>, v: nat, i: nat, n: nat, width: nat, room: nat)
    requires forall k :: produce(k).Some? ==> produce(k).value < Pow256(width)
    requires i < n && Produce(produce, i) == Some(done) && produce(i) == Some(v)
    requires room < |Escaped(head + Items(done + [v], width))|
    ensures !(Produce(produce, n).Some? && |Escaped(head + Items(Produce(produce, n).value, width))| <= room)
  {
    if Produce(produce, n).Some? {
      var all := Produce(produce, n).value;
      assert AllFit(all, width) by {
        forall k | 0 <= k < |all| ensures all[k] < Pow256(width) {
          assert produce(k) == Some(all[k]);
        }
      }
      SomeExtends(produce, i + 1, n);
      assert all[..i + 1] == done + [v];
      LongerAt(head, all, i + 1, width);
    }
  }

  /** Once the callback has failed, the longer run fails too. */
  lemma {:induction false} NoneStaysNone(produce: nat -> Option<nat>, i: nat, n: nat)
    requires i <= n && Produce(produce, i).None?
    ensures Produce(produce, n).None?
    decreases n - i
  {
    if i < n {
      NoneStaysNone(produce, i + 1, n);
    }
  }

  /** A successful longer run extends every shorter one. */
  lemma {:induction false} SomeExtends(produce: nat -> Option<nat>, i: nat, n: nat)
    requires i <= n && Produce(produce, n).Some?
    ensures Produce(produce, i) == Some(Produce(produce, n).value[..i])
    decreases n - i
  {
    if i < n {
      SomeExtends(produce, i + 1, n);
      var next := Produce(produce, n).value[..i + 1];
      assert Produce(produce, i).Some?;
      var vs := Produce(produce, i).value;
      assert vs + [produce(i).value] == next;
      assert vs == next[..i];
      assert next[..i] == Produce(produce, n).value[..i];
    } else {
      assert Produce(produce, n).value[..n] == Produce(produce, n).value;
    }
  }
}
