/**
 * The checksum generators of libucomm: a modular sum, an inverted modular
 * sum and Fletcher-16. The library has one class per algorithm, all with
 * the same `reset/add/value` interface and chosen by the envelope's template
 * argument; here they are one class tagged with its `Algorithm`.
 *
 * The pure part: `AddByte` is one `add()`, `Accumulate` folds the bytes fed
 * since `reset()`, `ValueOf` is `value()` and `Digest` their composition.
 */
module Checksum {
  import opened Bytes

  datatype Algorithm = ModSum | InvertedModSum | Fletcher16

  /** `sizeof(SumType)`: one byte for the modular sums, two for Fletcher-16. */
  function SumWidth(alg: Algorithm): (w: nat)
    ensures w == 1 || w == 2
    ensures w == 2 <==> alg == Fletcher16
  {
    if alg == Fletcher16 then 2 else 1
  }

  /** The accumulator registers: `m_value` (in sum1) or `m_sum1`/`m_sum2`. */
  datatype Sums = Sums(sum1: nat, sum2: nat)

  /** One `add(c)`. */
  function AddByte(alg: Algorithm, s: Sums, c: Byte): (r: Sums)
    ensures alg == Fletcher16 ==> r.sum1 < 255 && r.sum2 < 255
    ensures alg != Fletcher16 ==> r.sum1 < 256 && r.sum2 == s.sum2
  {
    match alg
    case ModSum | InvertedModSum => Sums((s.sum1 + c) % 256, s.sum2)
    case Fletcher16 =>
      var s1 := (s.sum1 + c) % 255;
      Sums(s1, (s.sum2 + s1) % 255)
  }

  /** The registers after `reset()` followed by `add` of each byte in order. */
  function Accumulate(alg: Algorithm, bytes: seq<Byte>): (r: Sums)
    ensures alg == Fletcher16 ==> r.sum1 < 255 && r.sum2 < 255
    ensures alg != Fletcher16 ==> r.sum1 < 256 && r.sum2 == 0
  {
    if |bytes| == 0 then Sums(0, 0)
    else AddByte(alg, Accumulate(alg, bytes[..|bytes| - 1]), bytes[|bytes| - 1])
  }

  /** Feeding one more byte is one more `add`. */
  lemma AccumulateSnoc(alg: Algorithm, bytes: seq<Byte>, c: Byte)
    ensures Accumulate(alg, bytes + [c]) == AddByte(alg, Accumulate(alg, bytes), c)
  {
    assert (bytes + [c])[..|bytes|] == bytes;
  }

  /** `value()` read from the registers. */
  function ValueOf(alg: Algorithm, s: Sums): nat
  {
    match alg
    case ModSum => s.sum1 % 256
    case InvertedModSum => 255 - s.sum1 % 256
    case Fletcher16 => (s.sum2 % 256) * 256 + s.sum1 % 256
  }

  /**
   * The digest of the bytes fed since `reset()`, in closed form: the sum of
   * the bytes modulo 256, its complement, or Fletcher's two sums modulo 255
   * packed as high and low byte. `RegistersGiveDigest` shows that the
   * registers, updated byte by byte, arrive at this value.
   */
  function Digest(alg: Algorithm, bytes: seq<Byte>): (d: nat)
    ensures d < Pow256(SumWidth(alg))
  {
    match alg
    case ModSum => Sum(bytes) % 256
    case InvertedModSum => 255 - Sum(bytes) % 256
    case Fletcher16 => (WeightedSum(bytes) % 255) * 256 + Sum(bytes) % 255
  }

  /**
   * The digest as it is carried on the wire: `SumWidth` bytes, low byte first.
   * (The library copies the native-order `SumType`; a little-endian host is
   * assumed, so Fletcher-16 travels as `[sum1, sum2]`.)
   */
  function DigestBytes(alg: Algorithm, bytes: seq<Byte>): (r: seq<Byte>)
    ensures |r| == SumWidth(alg)
  {
    LittleEndian(Digest(alg, bytes), SumWidth(alg))
  }

  // ---------------------------------------------------------------------
  // Closed forms

  /** Plain sum of the bytes. */
  function Sum(bytes: seq<Byte>): nat
  {
    if |bytes| == 0 then 0 else Sum(bytes[..|bytes| - 1]) + bytes[|bytes| - 1]
  }

  /** Fletcher's second sum: byte k of n is counted n - k times. */
  function WeightedSum(bytes: seq<Byte>): nat
  {
    if |bytes| == 0 then 0 else WeightedSum(bytes[..|bytes| - 1]) + Sum(bytes)
  }

  /** The plain sum of a concatenation. */
  lemma {:induction false} SumAppend(a: seq<Byte>, b: seq<Byte>)
    ensures Sum(a + b) == Sum(a) + Sum(b)
    decreases |b|
  {
    if |b| == 0 {
      assert a + b == a;
    } else {
      assert (a + b)[..|a + b| - 1] == a + b[..|b| - 1];
      SumAppend(a, b[..|b| - 1]);
    }
  }

  /** The modular-sum register holds the sum of the bytes modulo 256. */
  lemma {:induction false} ModSumRegister(alg: Algorithm, bytes: seq<Byte>)
    requires alg != Fletcher16
    ensures Accumulate(alg, bytes) == Sums(Sum(bytes) % 256, 0)
  {
    if bytes != [] {
      var init := bytes[..|bytes| - 1];
      ModSumRegister(alg, init);
      assert Sum(bytes) == Sum(init) + bytes[|bytes| - 1];
      ModAdd256(Sum(init), bytes[|bytes| - 1]);
    }
  }

  lemma ModAdd256(a: nat, b: nat)
    ensures (a % 256 + b) % 256 == (a + b) % 256
  {
    var q := a / 256;
    assert a == 256 * q + a % 256;
    assert a + b == 256 * q + (a % 256 + b);
  }

  /** Fletcher-16's registers are the plain and the weighted sum modulo 255. */
  lemma {:induction false} FletcherRegisters(bytes: seq<Byte>)
    ensures Accumulate(Fletcher16, bytes) == Sums(Sum(bytes) % 255, WeightedSum(bytes) % 255)
  {
    if bytes != [] {
      var init := bytes[..|bytes| - 1];
      FletcherRegisters(init);
      var c := bytes[|bytes| - 1];
      assert Sum(bytes) == Sum(init) + c;
      assert WeightedSum(bytes) == WeightedSum(init) + Sum(bytes);
      ModAdd255(Sum(init), c);
      ModAdd255(WeightedSum(init), Sum(bytes) % 255);
      ModAdd255(Sum(bytes), WeightedSum(init));
    }
  }

  lemma ModAdd255(a: nat, b: nat)
    ensures (a % 255 + b) % 255 == (a + b) % 255
  {
    var q := a / 255;
    assert a == 255 * q + a % 255;
    assert a + b == 255 * q + (a % 255 + b);
  }

  /**
   * `value()` read from the registers after `add` of each byte is the
   * closed-form digest.
   */
  lemma RegistersGiveDigest(alg: Algorithm, bytes: seq<Byte>)
    ensures ValueOf(alg, Accumulate(alg, bytes)) == Digest(alg, bytes)
  {
    if alg == Fletcher16 {
      FletcherRegisters(bytes);
      FletcherValue(Sum(bytes) % 255, WeightedSum(bytes) % 255);
    } else {
      ModSumRegister(alg, bytes);
    }
  }

  /** Two registers below 255 are packed as high and low byte. */
  lemma FletcherValue(s1: nat, s2: nat)
    requires s1 < 255 && s2 < 255
    ensures ValueOf(Fletcher16, Sums(s1, s2)) == s2 * 256 + s1
    ensures (s2 * 256 + s1) % 256 == s1 && (s2 * 256 + s1) / 256 == s2
  {
  }

  // ---------------------------------------------------------------------
  // Order independence of the modular sums

  /** Removing the byte at index i subtracts it from the sum. */
  lemma {:induction false} SumRemove(bytes: seq<Byte>, i: nat)
    requires i < |bytes|
    ensures Sum(bytes) == Sum(bytes[..i] + bytes[i + 1..]) + bytes[i]
    decreases |bytes|
  {
    var n := |bytes|;
    if i < n - 1 {
      var rest := bytes[..i] + bytes[i + 1..];
      SumRemove(bytes[..n - 1], i);
      assert bytes[..n - 1][..i] + bytes[..n - 1][i + 1..] == rest[..|rest| - 1];
    } else {
      assert bytes[..i] + bytes[i + 1..] == bytes[..n - 1];
    }
  }

  /** Taking out the byte at index i takes one copy of it out of the multiset. */
  lemma MultisetRemove(t: seq<Byte>, i: nat)
    requires i < |t|
    ensures multiset(t) == multiset(t[..i] + t[i + 1..]) + multiset{t[i]}
  {
    assert t == t[..i] + [t[i]] + t[i + 1..];
  }

  /** Taking the same byte out of two permutations of each other leaves two permutations of each other. */
  lemma MultisetRemoveBoth(s: seq<Byte>, j: nat, t: seq<Byte>, i: nat)
    requires j < |s| && i < |t| && s[j] == t[i] && multiset(s) == multiset(t)
    ensures multiset(s[..j] + s[j + 1..]) == multiset(t[..i] + t[i + 1..])
  {
    MultisetRemove(s, j);
    MultisetRemove(t, i);
    assert multiset(s[..j] + s[j + 1..]) == multiset(s) - multiset{s[j]};
    assert multiset(t[..i] + t[i + 1..]) == multiset(t) - multiset{t[i]};
  }

  /** The sum depends only on the multiset of bytes. */
  lemma {:induction false} SumPermutation(s: seq<Byte>, t: seq<Byte>)
    requires multiset(s) == multiset(t)
    ensures Sum(s) == Sum(t)
    decreases |s|
  {
    if s != [] {
      var n := |s|;
      var last, init := s[n - 1], s[..n - 1];
      assert last in multiset(t) by {
        assert s[n - 1] in multiset(s);
      }
      var i :| 0 <= i < |t| && t[i] == last;
      var t' := t[..i] + t[i + 1..];
      MultisetRemoveBoth(s, n - 1, t, i);
      assert s[..n - 1] + s[n..] == init;
      SumPermutation(init, t');
      SumRemove(t, i);
    } else {
      assert |t| == |multiset(t)| == 0;
    }
  }

  /** Both modular-sum digests ignore the order in which bytes are fed. */
  lemma ModSumOrderIndependent(alg: Algorithm, s: seq<Byte>, t: seq<Byte>)
    requires alg != Fletcher16
    requires multiset(s) == multiset(t)
    ensures Digest(alg, s) == Digest(alg, t)
  {
    SumPermutation(s, t);
  }

  // ---------------------------------------------------------------------
  // Single-byte corruption

  /** Changing byte k by d changes the plain sum by exactly d. */
  lemma {:induction false} SumUpdate(bytes: seq<Byte>, k: nat, v: Byte)
    requires k < |bytes|
    ensures Sum(bytes[k := v]) + bytes[k] == Sum(bytes) + v
    decreases |bytes|
  {
    var n := |bytes|;
    var u := bytes[k := v];
    assert u[..n - 1] == if k < n - 1 then bytes[..n - 1][k := v] else bytes[..n - 1];
    if k < n - 1 {
      SumUpdate(bytes[..n - 1], k, v);
    }
  }

  /** The modulus of the plain sum that each digest carries. */
  function Modulus(alg: Algorithm): (m: nat)
    ensures m == 255 || m == 256
  {
    if alg == Fletcher16 then 255 else 256
  }

  /** The plain sum modulo `Modulus(alg)` can be read back from every digest. */
  lemma DigestCarriesSum(alg: Algorithm, bytes: seq<Byte>)
    ensures Sum(bytes) % Modulus(alg) == match alg
      case ModSum => Digest(alg, bytes)
      case InvertedModSum => 255 - Digest(alg, bytes)
      case Fletcher16 => Digest(alg, bytes) % 256
  {
    if alg == Fletcher16 {
      FletcherValue(Sum(bytes) % 255, WeightedSum(bytes) % 255);
    }
  }

  /**
   * A single corrupted byte always changes the digest, provided the change is
   * not a multiple of 255 (Fletcher-16) or 256 (the modular sums).
   */
  lemma DigestDetectsByteChange(alg: Algorithm, bytes: seq<Byte>, k: nat, v: Byte)
    requires k < |bytes|
    requires (v - bytes[k]) % Modulus(alg) != 0
    ensures Digest(alg, bytes[k := v]) != Digest(alg, bytes)
  {
    var u := bytes[k := v];
    SumUpdate(bytes, k, v);
    SameResidue(Sum(u), Sum(bytes), Modulus(alg));
    assert Sum(u) % Modulus(alg) != Sum(bytes) % Modulus(alg);
    DigestCarriesSum(alg, u);
    DigestCarriesSum(alg, bytes);
  }

  /** Equal residues differ by a multiple of the modulus. */
  lemma SameResidue(a: nat, b: nat, m: nat)
    requires m == 255 || m == 256
    ensures a % m == b % m ==> (a - b) % m == 0
  {
    var qa, qb := a / m, b / m;
    assert a == m * qa + a % m && b == m * qb + b % m;
    if a % m == b % m {
      assert a - b == m * (qa - qb);
    }
  }

  // ---------------------------------------------------------------------
  // The generator object

  class ChecksumGenerator {
    const algorithm: Algorithm
    /** `m_value` of the modular sums, `m_sum1` of Fletcher-16. */
    var sum1: nat
    /** `m_sum2` of Fletcher-16 (unused by the modular sums). */
    var sum2: nat
    /** The bytes added since the last `reset()`. */
    ghost var fed: seq<Byte>

    ghost predicate Valid()
      reads this
    {
      Sums(sum1, sum2) == Accumulate(algorithm, fed)
    }

    /** The library leaves the registers uninitialised until `reset()`; here they start reset. */
    constructor (alg: Algorithm)
      ensures algorithm == alg && Valid() && fed == []
    {
      algorithm := alg;
      sum1, sum2 := 0, 0;
      fed := [];
    }

    method Reset()
      modifies this
      ensures Valid() && fed == []
      ensures sum1 == 0 && sum2 == 0
    {
      sum1, sum2 := 0, 0;
      fed := [];
    }

    method Add(c: Byte)
      requires Valid()
      modifies this
      ensures Valid() && fed == old(fed) + [c]
    {
      ghost var next := AddByte(algorithm, Sums(sum1, sum2), c);
      AccumulateSnoc(algorithm, fed, c);
      if algorithm == Fletcher16 {
        sum1 := (sum1 + c) % 255;
        sum2 := (sum2 + sum1) % 255;
      } else {
        sum1 := (sum1 + c) % 256;
      }
      assert Sums(sum1, sum2) == next;
      fed := fed + [c];
    }

    /** `value()`: a function of the registers, so it changes nothing. */
    function Value(): (v: nat)
      reads this
      requires Valid()
      ensures v == Digest(algorithm, fed)
      ensures v < Pow256(SumWidth(algorithm))
    {
      RegistersGiveDigest(algorithm, fed);
      ValueOf(algorithm, Sums(sum1, sum2))
    }
  }
}
