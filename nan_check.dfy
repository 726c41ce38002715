/**
 * The `NaNCheck` helpers that the generator emits into the preamble of every
 * generated test file, on raw IEEE 754 binary32/binary64 bit patterns.
 * Fields follow section 3.4 of IEEE 754-2008: sign, biased exponent, and
 * trailing significand ("mantissa"). A NaN has the exponent all ones and a
 * non-zero mantissa; an infinity has the exponent all ones and a zero mantissa.
 */
module NaNCheck {

  // ---------------- binary32 ----------------

  const F32_SIGN: bv32 := 0x8000_0000
  const F32_MANTISSA: bv32 := 0x007F_FFFF
  /** Most significant mantissa bit: the quiet bit (bit 22). */
  const F32_QUIET: bv32 := 1 << 22
  /** The mask the source XORs with: sign bit and the 22 low mantissa bits. */
  const F32_CANONICAL_MASK: bv32 := 0x803F_FFFF

  function Exponent32(b: bv32): bv32 { (b >> 23) & 0xFF }
  function Mantissa32(b: bv32): bv32 { b & F32_MANTISSA }

  /** `f32::is_nan`: the magnitude bits lie above those of infinity. */
  predicate IsNaN32(b: bv32): (r: bool)
    ensures r <==> b & 0x7FFF_FFFF > 0x7F80_0000
  {
    Exponent32(b) == 0xFF && Mantissa32(b) != 0
  }

  /** `f32::is_infinite`: the magnitude bits are those of infinity. */
  predicate IsInfinite32(b: bv32): (r: bool)
    ensures r <==> b & 0x7FFF_FFFF == 0x7F80_0000
  {
    Exponent32(b) == 0xFF && Mantissa32(b) == 0
  }

  /** `f32::is_sign_negative`: the sign bit, whatever the class of the value; it lies in the upper half. */
  predicate IsSignNegative32(b: bv32): (r: bool)
    ensures r <==> b >= 0x8000_0000
  {
    b & F32_SIGN != 0
  }

  /** `<f32 as NaNCheck>::is_quiet_nan` */
  function IsQuietNaN32(b: bv32): (r: bool)
    ensures r <==> Exponent32(b) == 0xFF && Mantissa32(b) >= 0x40_0000
    ensures r ==> IsNaN32(b)
  {
    IsNaN32(b) && (b & F32_QUIET) == F32_QUIET
  }

  /** `<f32 as NaNCheck>::is_canonical_nan` */
  function IsCanonicalNaN32(b: bv32): (r: bool)
    ensures r <==> IsNaN32(b) && Mantissa32(b) == F32_QUIET
    ensures r <==> b == 0x7FC0_0000 || b == 0xFFC0_0000
    ensures r ==> IsQuietNaN32(b)
  {
    var masked := b ^ F32_CANONICAL_MASK;
    masked == 0xFFFF_FFFF || masked == 0x7FFF_FFFF
  }

  // ---------------- binary64 ----------------

  const F64_SIGN: bv64 := 0x8000_0000_0000_0000
  const F64_MANTISSA: bv64 := 0x000F_FFFF_FFFF_FFFF
  /** Most significant mantissa bit: the quiet bit (bit 51). */
  const F64_QUIET: bv64 := 1 << 51
  /** The mask the source XORs with: sign bit and the 51 low mantissa bits. */
  const F64_CANONICAL_MASK: bv64 := 0x8007_FFFF_FFFF_FFFF

  function Exponent64(b: bv64): bv64 { (b >> 52) & 0x7FF }
  function Mantissa64(b: bv64): bv64 { b & F64_MANTISSA }

  /** `f64::is_nan`: the magnitude bits lie above those of infinity. */
  predicate IsNaN64(b: bv64): (r: bool)
    ensures r <==> b & 0x7FFF_FFFF_FFFF_FFFF > 0x7FF0_0000_0000_0000
  {
    Exponent64(b) == 0x7FF && Mantissa64(b) != 0
  }

  /** `f64::is_infinite`: the magnitude bits are those of infinity. */
  predicate IsInfinite64(b: bv64): (r: bool)
    ensures r <==> b & 0x7FFF_FFFF_FFFF_FFFF == 0x7FF0_0000_0000_0000
  {
    Exponent64(b) == 0x7FF && Mantissa64(b) == 0
  }

  /** `f64::is_sign_negative`: the sign bit, whatever the class of the value; it lies in the upper half. */
  predicate IsSignNegative64(b: bv64): (r: bool)
    ensures r <==> b >= 0x8000_0000_0000_0000
  {
    b & F64_SIGN != 0
  }

  /** `<f64 as NaNCheck>::is_quiet_nan` */
  function IsQuietNaN64(b: bv64): (r: bool)
    ensures r <==> Exponent64(b) == 0x7FF && Mantissa64(b) >= 0x8_0000_0000_0000
    ensures r ==> IsNaN64(b)
  {
    IsNaN64(b) && (b & F64_QUIET) == F64_QUIET
  }

  /**
   * `<f64 as NaNCheck>::is_canonical_nan` AS WRITTEN: its second target is
   * the 15-digit literal 0xFFF_FFFF_FFFF_FFFF. It accepts the negative
   * canonical NaN and a negative finite number, and rejects the positive
   * canonical NaN.
   */
  function IsCanonicalNaN64AsWritten(b: bv64): (r: bool)
    ensures r <==> b == 0xFFF8_0000_0000_0000 || b == 0x8FF8_0000_0000_0000
  {
    var masked := b ^ F64_CANONICAL_MASK;
    masked == 0x7FFF_FFFF_FFFF_FFFF || masked == 0xFFF_FFFF_FFFF_FFFF
  }

  /** The positive canonical NaN is rejected by the check as written. */
  lemma AsWrittenRejectsPositiveCanonicalNaN()
    ensures IsNaN64(0x7FF8_0000_0000_0000) && Mantissa64(0x7FF8_0000_0000_0000) == F64_QUIET
    ensures !IsCanonicalNaN64AsWritten(0x7FF8_0000_0000_0000)
  {
  }

  /** A pattern that is not a NaN at all is accepted by the check as written. */
  lemma AsWrittenAcceptsNonNaN()
    ensures IsCanonicalNaN64AsWritten(0x8FF8_0000_0000_0000)
    ensures !IsNaN64(0x8FF8_0000_0000_0000) && !IsInfinite64(0x8FF8_0000_0000_0000)
  {
  }

  /**
   * `<f64 as NaNCheck>::is_canonical_nan` with the evidently intended second
   * target 0xFFFF_FFFF_FFFF_FFFF (the binary32 version's counterpart).
   */
  function IsCanonicalNaN64(b: bv64): (r: bool)
    ensures r <==> IsNaN64(b) && Mantissa64(b) == F64_QUIET
    ensures r <==> b == 0x7FF8_0000_0000_0000 || b == 0xFFF8_0000_0000_0000
    ensures r ==> IsQuietNaN64(b)
  {
    var masked := b ^ F64_CANONICAL_MASK;
    masked == 0x7FFF_FFFF_FFFF_FFFF || masked == 0xFFFF_FFFF_FFFF_FFFF
  }
}
