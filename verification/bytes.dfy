/**
 * Bytes as they travel on the wire, the little-endian encoding used for
 * multi-byte counts and checksums, and the Option wrapper used for the
 * element producer of a List.
 */
module Bytes {

  /** One octet (`uint8_t` in the library). */
  type Byte = x: int | 0 <= x < 256

  datatype Option<+T> = None | Some(value: T)

  /** 256^n: the number of distinct values of an n-byte unsigned integer. */
  function Pow256(n: nat): (p: nat)
    ensures p >= 1
  {
    if n == 0 then 1 else 256 * Pow256(n - 1)
  }

  /** Little-endian encoding of v in exactly `width` bytes. */
  function LittleEndian(v: nat, width: nat): (r: seq<Byte>)
    requires v < Pow256(width)
    ensures |r| == width
  {
    if width == 0 then [] else [v % 256] + LittleEndian(v / 256, width - 1)
  }

  /** The unsigned value of a little-endian byte string. */
  function FromLittleEndian(s: seq<Byte>): (v: nat)
    ensures v < Pow256(|s|)
  {
    if |s| == 0 then 0 else s[0] + 256 * FromLittleEndian(s[1..])
  }

  /** Decoding an encoding gives the value back. */
  lemma {:induction false} FromLittleEndianOfLittleEndian(v: nat, width: nat)
    requires v < Pow256(width)
    ensures FromLittleEndian(LittleEndian(v, width)) == v
  {
    if width > 0 {
      var r := LittleEndian(v, width);
      assert r[1..] == LittleEndian(v / 256, width - 1);
      FromLittleEndianOfLittleEndian(v / 256, width - 1);
    }
  }

  /** Encoding the decoded value of a byte string gives the string back. */
  lemma {:induction false} LittleEndianOfFromLittleEndian(s: seq<Byte>)
    ensures LittleEndian(FromLittleEndian(s), |s|) == s
  {
    if s != [] {
      LittleEndianOfFromLittleEndian(s[1..]);
    }
  }

  /** Two byte strings of one width are equal exactly when their values are. */
  lemma LittleEndianInjective(s: seq<Byte>, t: seq<Byte>)
    requires |s| == |t|
    ensures FromLittleEndian(s) == FromLittleEndian(t) <==> s == t
  {
    if FromLittleEndian(s) == FromLittleEndian(t) {
      LittleEndianOfFromLittleEndian(s);
      LittleEndianOfFromLittleEndian(t);
    }
  }

  /** A prefix one element longer. */
  lemma PrefixSnoc<T>(s: seq<T>, i: nat)
    requires i < |s|
    ensures s[..i + 1] == s[..i] + [s[i]]
  {
  }

  /** A non-empty sequence is its front followed by its last element. */
  lemma InitLast<T>(s: seq<T>)
    requires |s| > 0
    ensures s == s[..|s| - 1] + [s[|s| - 1]]
  { }

  /** Concatenation is associative. */
  lemma AppendAssoc<T>(a: seq<T>, b: seq<T>, c: seq<T>)
    ensures a + b + c == a + (b + c)
  {
  }
}
