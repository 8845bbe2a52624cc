/** Integers and floating-point numbers as bit patterns: what the patterns mean, and the bit flips that
    make their big-endian bytes sort (crates/ingodb-sstable/src/keys.rs:70-90). */
module Numbers {
  import opened Prelude
  import opened Bytes
  import opened Values
  import opened Compaction

  // ---- numbers ----

  const SIGN: nat := 0x8000_0000_0000_0000

  /** Two's complement with the sign bit flipped. */
  function FlipSigned(n: i64): u64 {
    var u := TwosComplement(n);
    if u >= SIGN then u - SIGN else u + SIGN
  }

  lemma FlipSignedOrder(a: i64, b: i64)
    ensures CompareInt(FlipSigned(a), FlipSigned(b)) == CompareInt(a, b)
  {
  }

  /** A floating-point pattern made sortable: all bits flipped when negative, else the sign bit flipped. */
  function SortableBits(bits: u64): u64 {
    if bits >= SIGN then 0xFFFF_FFFF_FFFF_FFFF - bits else bits + SIGN
  }

  function Exponent(bits: u64): nat { bits % SIGN / 0x10_0000_0000_0000 }

  function Mantissa(bits: u64): nat { bits % 0x10_0000_0000_0000 }

  predicate IsNaN(bits: u64) { Exponent(bits) == 2047 && Mantissa(bits) != 0 }

  predicate IsNegativeZero(bits: u64) { bits == SIGN }

  /** The magnitude in units of the smallest positive number; infinity is the next step after the largest. */
  function Magnitude(bits: u64): nat {
    if Exponent(bits) == 0 then Mantissa(bits)
    else (0x10_0000_0000_0000 + Mantissa(bits)) * Pow(2, Exponent(bits) - 1)
  }

  /** The number a non-NaN pattern stands for, in those units. */
  function Numeric(bits: u64): int { if bits >= SIGN then 0 - Magnitude(bits) else Magnitude(bits) }

  /** `partial_cmp`: no answer when a NaN is involved. */
  function CompareFloat(a: u64, b: u64): Option<Ordering> {
    if IsNaN(a) || IsNaN(b) then None else Some(CompareInt(Numeric(a), Numeric(b)))
  }

  /** NaN is every pattern beyond infinity, of either sign. */
  lemma NaNIsBeyondInfinity(bits: u64)
    ensures IsNaN(bits) <==> bits % SIGN > 0x7FF0_0000_0000_0000
  {
    Split(bits);
  }

  lemma Split(bits: u64)
    ensures bits % SIGN == Exponent(bits) * 0x10_0000_0000_0000 + Mantissa(bits)
    ensures Mantissa(bits) < 0x10_0000_0000_0000 && Exponent(bits) < 2048
  {
  }

  /** Larger patterns of one sign have larger magnitudes. */
  lemma MagnitudeOrder(a: u64, b: u64)
    requires a % SIGN < b % SIGN
    ensures Magnitude(a) < Magnitude(b)
  {
    Split(a);
    Split(b);
    var e, f := Exponent(a), Exponent(b);
    var top := 0x10_0000_0000_0000;
    if e == f {
      if e > 0 { MulLess(top + Mantissa(a), top + Mantissa(b), Pow(2, e - 1)); }
    } else {
      assert e < f;
      MulGrows(top + Mantissa(b), 1, Pow(2, f - 1));
      if e > 0 {
        MulLess(top + Mantissa(a), 2 * top, Pow(2, e - 1));
        Regroup(top, 2, Pow(2, e - 1));
        assert Pow(2, e) == 2 * Pow(2, e - 1);
        PowMonotone(2, e, f - 1);
        MulGrows(top, Pow(2, e), Pow(2, f - 1));
        MulMore(top, top + Mantissa(b), Pow(2, f - 1));
      }
    }
  }

  lemma MulLess(a: nat, b: nat, c: nat)
    requires a < b && c >= 1
    ensures a * c < b * c
  {
  }

  lemma MulMore(a: nat, b: nat, c: nat)
    requires a <= b
    ensures a * c <= b * c
  {
  }

  /** The sortable bits order non-NaN numbers numerically, except that negative zero comes just before zero. */
  lemma SortableBitsOrder(a: u64, b: u64)
    requires !IsNaN(a) && !IsNaN(b)
    ensures CompareInt(SortableBits(a), SortableBits(b)) ==
            if IsNegativeZero(a) && b == 0 then Less
            else if a == 0 && IsNegativeZero(b) then Greater
            else CompareInt(Numeric(a), Numeric(b))
  {
    hide Magnitude, IsNaN;
    if a % SIGN < b % SIGN { MagnitudeOrder(a, b); }
    if b % SIGN < a % SIGN { MagnitudeOrder(b, a); }
    ZeroMagnitude(a);
    ZeroMagnitude(b);
    if a % SIGN == b % SIGN { SameMagnitude(a, b); }
  }

  lemma SameMagnitude(a: u64, b: u64)
    requires a % SIGN == b % SIGN
    ensures Magnitude(a) == Magnitude(b)
  {
    Split(a);
    Split(b);
  }

  lemma ZeroMagnitude(a: u64)
    ensures Magnitude(a) == 0 <==> a % SIGN == 0
  {
    Split(a);
    if a % SIGN > 0 {
      MagnitudeOrder(0, a);
    }
  }
}
