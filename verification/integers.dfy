/**
 * The integer-width selector of libucomm: `IntForSize<Size>::Type` is the
 * unsigned type used for a buffer cursor or a list count that must hold
 * every value in [0, Size]. The template recursion is modelled as a
 * recursive function returning the width of that type in bytes.
 */
module Integers {
  import opened Bytes

  /** `TypeForBytes<n>`: 0 or 1 byte -> uint8_t, 2 -> uint16_t, 3 or 4 -> uint32_t. */
  function TypeForBytes(n: nat): (width: nat)
    requires n <= 4
    ensures width == 1 || width == 2 || width == 4
    ensures n <= width
    ensures width == 1 || (width == 2 && n > 1) || (width == 4 && n > 2)
  {
    if n <= 1 then 1 else if n == 2 then 2 else 4
  }

  /** Number of base-256 digits of `size` (0 for 0). */
  function Digits(size: nat): nat
  {
    if size == 0 then 0 else 1 + Digits(size / 256)
  }

  /** A value has at most k base-256 digits exactly when it is below 256^k. */
  lemma {:induction false} DigitsBound(size: nat, k: nat)
    ensures Digits(size) <= k <==> size < Pow256(k)
  {
    if size != 0 && k != 0 {
      DigitsBound(size / 256, k - 1);
    }
  }

  /** `DoIntForSize<Size, Acc>`: divide by 256 until zero, counting steps in Acc. */
  function DoIntForSize(size: nat, acc: nat): (width: nat)
    requires acc <= 4 && size < Pow256(4 - acc)
    ensures width == 1 || width == 2 || width == 4
    ensures acc <= width && size < Pow256(width - acc)
    decreases size
  {
    if size == 0 then TypeForBytes(acc)
    else
      var width := DoIntForSize(size / 256, acc + 1);
      assert size < 256 * Pow256(width - (acc + 1));
      width
  }

  /** `IntForSize<Size>`: the width, in bytes, of the type chosen for `size`. */
  function IntForSize(size: nat): (width: nat)
    requires size < 0x8000_0000
    ensures width == 1 || width == 2 || width == 4
    ensures size < Pow256(width)
  {
    assert Pow256(4) == 0x1_0000_0000;
    DoIntForSize(size, 0)
  }

  /** The recursion counts digits: the accumulator ends as acc + Digits(size). */
  lemma {:induction false} DoIntForSizeCountsDigits(size: nat, acc: nat)
    requires acc <= 4 && size < Pow256(4 - acc)
    ensures acc + Digits(size) <= 4
    ensures DoIntForSize(size, acc) == TypeForBytes(acc + Digits(size))
    decreases size
  {
    DigitsBound(size, 4 - acc);
    if size != 0 {
      DoIntForSizeCountsDigits(size / 256, acc + 1);
    }
  }

  /** The selected width is the digit count of `size`, rounded up to 1, 2 or 4. */
  lemma IntForSizeIsRoundedDigits(size: nat)
    requires size < 0x8000_0000
    ensures Digits(size) <= 4
    ensures IntForSize(size) == TypeForBytes(Digits(size))
  {
    assert Pow256(4) == 0x1_0000_0000;
    DoIntForSizeCountsDigits(size, 0);
  }

  /** The three bands of sizes and the width each receives. */
  lemma IntForSizeBands(size: nat)
    requires size < 0x8000_0000
    ensures size < 0x100 ==> IntForSize(size) == 1
    ensures 0x100 <= size < 0x1_0000 ==> IntForSize(size) == 2
    ensures 0x1_0000 <= size ==> IntForSize(size) == 4
  {
    IntForSizeIsRoundedDigits(size);
    DigitsBound(size, 1);
    DigitsBound(size, 2);
    DigitsBound(size, 3);
    assert Pow256(1) == 0x100 && Pow256(2) == 0x1_0000 && Pow256(3) == 0x100_0000;
  }

  /** Every value in [0, size] fits in the selected type. */
  lemma IntForSizeFits(size: nat, v: nat)
    requires size < 0x8000_0000 && v <= size
    ensures v < Pow256(IntForSize(size))
  {
    IntForSizeIsRoundedDigits(size);
    DigitsBound(size, IntForSize(size));
  }

  /** A larger size never selects a narrower type. */
  lemma IntForSizeMonotone(a: nat, b: nat)
    requires a <= b < 0x8000_0000
    ensures IntForSize(a) <= IntForSize(b)
  {
    IntForSizeBands(a);
    IntForSizeBands(b);
  }
}
