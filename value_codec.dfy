/**
 * The value codec: how a script value (`wabt::script::Value`) is written
 * into the generated Rust code, as a type name, a destructuring pattern, a
 * bare scalar expression or a `Value::…` constructor expression.
 *
 * Floats are carried as their raw bit patterns. The decimal text Rust's
 * `{:?}` gives a finite float is a parameter (`FloatFormat`); its reader
 * (`FloatReader`) is the partner used to state the round trip.
 */
module ValueCodec {
  import opened Wrappers
  import opened Decimal
  import opened NaNCheck

  type Int32 = x: int | -0x8000_0000 <= x < 0x8000_0000
  type Int64 = x: int | -0x8000_0000_0000_0000 <= x < 0x8000_0000_0000_0000

  /** A script value: two integer widths and two float widths (raw bits). */
  datatype Value = I32(i: Int32) | I64(l: Int64) | F32(f: bv32) | F64(d: bv64)

  datatype ValueType = I32T | I64T | F32T | F64T

  function TypeOf(v: Value): ValueType
  {
    match v
    case I32(_) => I32T
    case I64(_) => I64T
    case F32(_) => F32T
    case F64(_) => F64T
  }

  /** `{:?}` of a finite float, per width; not modelled beyond its type. */
  datatype FloatFormat = FloatFormat(f32: bv32 -> string, f64: bv64 -> string)

  /** How rustc reads a finite float literal back, per width. */
  datatype FloatReader = FloatReader(f32: string -> Option<bv32>, f64: string -> Option<bv64>)

  predicate IsFinite32(b: bv32) { !IsNaN32(b) && !IsInfinite32(b) }
  predicate IsFinite64(b: bv64) { !IsNaN64(b) && !IsInfinite64(b) }

  /** Rust's float `{:?}` text starts with a digit or a minus sign. */
  predicate StartsNumeric(s: string) { |s| > 0 && (IsDigit(s[0]) || s[0] == '-') }

  /** `rd` reads back exactly what `fmt` prints for every finite float. */
  ghost predicate ReadsBack(fmt: FloatFormat, rd: FloatReader)
  {
    && (forall b: bv32 :: IsFinite32(b) ==> StartsNumeric(fmt.f32(b)) && rd.f32(fmt.f32(b)) == Some(b))
    && (forall b: bv64 :: IsFinite64(b) ==> StartsNumeric(fmt.f64(b)) && rd.f64(fmt.f64(b)) == Some(b))
  }

  // ---------------- the codec (build/spectests.rs) ----------------

  /** `wabt2rust_type` */
  function TypeName(v: Value): (r: string)
    ensures r == "i32" <==> v.I32?
    ensures r == "i64" <==> v.I64?
    ensures r == "f32" <==> v.F32?
    ensures r == "f64" <==> v.F64?
  {
    match v
    case I32(_) => "i32"
    case I64(_) => "i64"
    case F32(_) => "f32"
    case F64(_) => "f64"
  }

  /** `wabt2rust_type_destructure`: the pattern `Value::<T>(<placeholder>)`. */
  function TypeDestructure(v: Value, placeholder: string): (r: string)
    ensures ReadPattern(r) == Some((TypeOf(v), placeholder))
  {
    var r := "Value::" + VariantName(TypeOf(v)) + "(" + placeholder + ")";
    assert r[..7] == "Value::" && r[7..10] == VariantName(TypeOf(v));
    assert r[11..|r| - 1] == placeholder;
    r
  }

  /** `is_nan`: only a float can be a NaN. */
  function IsNaN(v: Value): (r: bool)
    ensures v.I32? || v.I64? ==> !r
    ensures v.F32? ==> (r <==> Exponent32(v.f) == 0xFF && Mantissa32(v.f) != 0)
    ensures v.F64? ==> (r <==> Exponent64(v.d) == 0x7FF && Mantissa64(v.d) != 0)
  {
    if v.F32? then IsNaN32(v.f)
    else if v.F64? then IsNaN64(v.d)
    else false
  }

  /** `wabt2rust_value_bare`: the scalar expression without the `Value::` wrapper. */
  function ValueBare(v: Value, fmt: FloatFormat): (r: string)
  {
    match v
    case I32(n) => IntText(n) + " as i32"
    case I64(n) => IntText(n) + " as i64"
    case F32(b) =>
      if IsInfinite32(b) then
        (if IsSignNegative32(b) then "f32::NEG_INFINITY" else "f32::INFINITY")
      else if IsNaN32(b) then "f32::from_bits(" + NatText(b as int) + ")"
      else fmt.f32(b)
    case F64(b) =>
      if IsInfinite64(b) then
        (if IsSignNegative64(b) then "f64::NEG_INFINITY" else "f64::INFINITY")
      else if IsNaN64(b) then "f64::from_bits(" + NatText(b as int) + ")"
      else fmt.f64(b)
  }

  /**
   * `wabt2rust_value`: the `Value::<T>(…)` expression. Its argument is the
   * bare expression, except that a finite float is written `((<text>f32))`.
   */
  function ValueLiteral(v: Value, fmt: FloatFormat): (r: string)
    ensures ReadPattern(r).Some? && ReadPattern(r).value.0 == TypeOf(v)
  {
    var inner :=
      match v
      case F32(b) => if IsFinite32(b) then "(" + fmt.f32(b) + "f32)" else ValueBare(v, fmt)
      case F64(b) => if IsFinite64(b) then "(" + fmt.f64(b) + "f64)" else ValueBare(v, fmt)
      case _ => ValueBare(v, fmt);
    TypeDestructure(v, inner)
  }

  // ---------------- the reader: what rustc makes of the emitted text ----------------

  function VariantName(t: ValueType): (r: string)
    ensures |r| == 3
  {
    match t
    case I32T => "I32"
    case I64T => "I64"
    case F32T => "F32"
    case F64T => "F64"
  }

  function VariantOf(s: string): (r: Option<ValueType>)
    ensures r.Some? ==> VariantName(r.value) == s
  {
    if s == "I32" then Some(I32T)
    else if s == "I64" then Some(I64T)
    else if s == "F32" then Some(F32T)
    else if s == "F64" then Some(F64T)
    else None
  }

  /** Splits `Value::<T>(<inner>)` into its variant and its inner text. */
  function ReadPattern(s: string): Option<(ValueType, string)>
  {
    if |s| >= 12 && s[..7] == "Value::" && s[10] == '(' && s[|s| - 1] == ')' then
      match VariantOf(s[7..10])
      case Some(t) => Some((t, s[11..|s| - 1]))
      case None => None
    else None
  }

  predicate EndsWith(s: string, suffix: string)
  {
    |s| >= |suffix| && s[|s| - |suffix|..] == suffix
  }

  predicate StartsWith(s: string, prefix: string)
  {
    |s| >= |prefix| && s[..|prefix|] == prefix
  }

  /** Reads `<int> as <t>`. */
  function ReadCast(s: string, suffix: string): Option<int>
  {
    if EndsWith(s, suffix) then ParseInt(s[..|s| - |suffix|]) else None
  }

  /** Reads `<t>::from_bits(<digits>)`. */
  function ReadFromBits(s: string, prefix: string): Option<nat>
  {
    if StartsWith(s, prefix) && EndsWith(s, ")") && |s| > |prefix| then
      ParseNat(s[|prefix|..|s| - 1])
    else None
  }

  /** The value of a bare scalar expression of type `t`. */
  function EvalBare(t: ValueType, s: string, rd: FloatReader): Option<Value>
  {
    match t
    case I32T =>
      (match ReadCast(s, " as i32")
       case Some(n) => if -0x8000_0000 <= n < 0x8000_0000 then Some(I32(n)) else None
       case None => None)
    case I64T =>
      (match ReadCast(s, " as i64")
       case Some(n) =>
         if -0x8000_0000_0000_0000 <= n < 0x8000_0000_0000_0000 then Some(I64(n)) else None
       case None => None)
    case F32T =>
      if s == "f32::INFINITY" then Some(F32(0x7F80_0000))
      else if s == "f32::NEG_INFINITY" then Some(F32(0xFF80_0000))
      else if StartsWith(s, "f32::from_bits(") then
        (match ReadFromBits(s, "f32::from_bits(")
         case Some(n) => if n < 0x1_0000_0000 then Some(F32(n as bv32)) else None
         case None => None)
      else
        (match rd.f32(s)
         case Some(b) => Some(F32(b))
         case None => None)
    case F64T =>
      if s == "f64::INFINITY" then Some(F64(0x7FF0_0000_0000_0000))
      else if s == "f64::NEG_INFINITY" then Some(F64(0xFFF0_0000_0000_0000))
      else if StartsWith(s, "f64::from_bits(") then
        (match ReadFromBits(s, "f64::from_bits(")
         case Some(n) => if n < 0x1_0000_0000_0000_0000 then Some(F64(n as bv64)) else None
         case None => None)
      else
        (match rd.f64(s)
         case Some(b) => Some(F64(b))
         case None => None)
  }

  /** The value of a `Value::<T>(…)` expression. */
  function EvalLiteral(s: string, rd: FloatReader): Option<Value>
  {
    match ReadPattern(s)
    case None => None
    case Some((t, inner)) =>
      if (t == F32T || t == F64T) && |inner| >= 5 && inner[0] == '(' && inner[|inner| - 1] == ')' then
        var text := inner[1..|inner| - 4];
        if t == F32T && inner[|inner| - 4..|inner| - 1] == "f32" then
          (match rd.f32(text) case Some(b) => Some(F32(b)) case None => None)
        else if t == F64T && inner[|inner| - 4..|inner| - 1] == "f64" then
          (match rd.f64(text) case Some(b) => Some(F64(b)) case None => None)
        else None
      else EvalBare(t, inner, rd)
  }

  // ---------------- properties ----------------

  /** An infinity is written as the infinity constant its sign selects. */
  lemma InfinityText(v: Value, fmt: FloatFormat)
    requires v.F32? || v.F64?
    ensures v.F32? && IsInfinite32(v.f) ==>
      (v.f == 0x7F80_0000 && ValueBare(v, fmt) == "f32::INFINITY") ||
      (v.f == 0xFF80_0000 && ValueBare(v, fmt) == "f32::NEG_INFINITY")
    ensures v.F64? && IsInfinite64(v.d) ==>
      (v.d == 0x7FF0_0000_0000_0000 && ValueBare(v, fmt) == "f64::INFINITY") ||
      (v.d == 0xFFF0_0000_0000_0000 && ValueBare(v, fmt) == "f64::NEG_INFINITY")
  {
  }

  lemma ReadCastText(n: int, suffix: string)
    requires suffix == " as i32" || suffix == " as i64"
    ensures ReadCast(IntText(n) + suffix, suffix) == Some(n)
  {
    var s := IntText(n) + suffix;
    assert s[|s| - |suffix|..] == suffix;
    assert s[..|s| - |suffix|] == IntText(n);
    ParseIntText(n);
  }

  lemma ReadFromBitsText(n: nat, prefix: string)
    requires prefix == "f32::from_bits(" || prefix == "f64::from_bits("
    ensures StartsWith(prefix + NatText(n) + ")", prefix)
    ensures ReadFromBits(prefix + NatText(n) + ")", prefix) == Some(n)
  {
    var s := prefix + NatText(n) + ")";
    assert s[..|prefix|] == prefix;
    assert s[|prefix|..|s| - 1] == NatText(n);
    ParseNatText(n);
  }

  /** A `from_bits` text is neither infinity constant nor a finite float's text. */
  lemma FromBitsTextShape(n: nat, prefix: string)
    requires prefix == "f32::from_bits(" || prefix == "f64::from_bits("
    ensures var s := prefix + NatText(n) + ")";
      && s != "f32::INFINITY" && s != "f32::NEG_INFINITY"
      && s != "f64::INFINITY" && s != "f64::NEG_INFINITY"
      && s[0] == 'f'
  {
    var s := prefix + NatText(n) + ")";
    assert s[5] == 'f';
    assert "f32::INFINITY"[5] == 'I' && "f64::INFINITY"[5] == 'I';
    assert "f32::NEG_INFINITY"[5] == 'N' && "f64::NEG_INFINITY"[5] == 'N';
  }

  /** A finite float's text does not look like any of the special forms. */
  lemma FiniteTextShape(s: string, prefix: string)
    requires StartsNumeric(s)
    requires |prefix| > 0 && prefix[0] == 'f'
    ensures !StartsWith(s, prefix)
  {
  }

  lemma BareInf32(b: bv32, fmt: FloatFormat, rd: FloatReader)
    requires IsInfinite32(b)
    ensures EvalBare(F32T, ValueBare(F32(b), fmt), rd) == Some(F32(b))
  {
    assert b == 0x7F80_0000 || b == 0xFF80_0000;
  }

  lemma BareNaN32(b: bv32, fmt: FloatFormat, rd: FloatReader)
    requires IsNaN32(b)
    ensures EvalBare(F32T, ValueBare(F32(b), fmt), rd) == Some(F32(b))
  {
    var s := "f32::from_bits(" + NatText(b as int) + ")";
    assert ValueBare(F32(b), fmt) == s;
    ReadFromBitsText(b as int, "f32::from_bits(");
    FromBitsTextShape(b as int, "f32::from_bits(");
  }

  lemma BareFinite32(b: bv32, fmt: FloatFormat, rd: FloatReader)
    requires ReadsBack(fmt, rd)
    requires IsFinite32(b)
    ensures EvalBare(F32T, ValueBare(F32(b), fmt), rd) == Some(F32(b))
  {
    var s := fmt.f32(b);
    assert StartsNumeric(s) && rd.f32(s) == Some(b);
    FiniteTextShape(s, "f32::from_bits(");
    FiniteTextShape(s, "f32::INFINITY");
    FiniteTextShape(s, "f32::NEG_INFINITY");
  }

  lemma BareInf64(b: bv64, fmt: FloatFormat, rd: FloatReader)
    requires IsInfinite64(b)
    ensures EvalBare(F64T, ValueBare(F64(b), fmt), rd) == Some(F64(b))
  {
    assert b == 0x7FF0_0000_0000_0000 || b == 0xFFF0_0000_0000_0000;
  }

  lemma BareNaN64(b: bv64, fmt: FloatFormat, rd: FloatReader)
    requires IsNaN64(b)
    ensures EvalBare(F64T, ValueBare(F64(b), fmt), rd) == Some(F64(b))
  {
    var s := "f64::from_bits(" + NatText(b as int) + ")";
    assert ValueBare(F64(b), fmt) == s;
    ReadFromBitsText(b as int, "f64::from_bits(");
    FromBitsTextShape(b as int, "f64::from_bits(");
  }

  lemma BareFinite64(b: bv64, fmt: FloatFormat, rd: FloatReader)
    requires ReadsBack(fmt, rd)
    requires IsFinite64(b)
    ensures EvalBare(F64T, ValueBare(F64(b), fmt), rd) == Some(F64(b))
  {
    var s := fmt.f64(b);
    assert StartsNumeric(s) && rd.f64(s) == Some(b);
    FiniteTextShape(s, "f64::from_bits(");
    FiniteTextShape(s, "f64::INFINITY");
    FiniteTextShape(s, "f64::NEG_INFINITY");
  }

  /**
   * Round trip of the bare form: the scalar expression evaluates to the
   * value it was printed from, bit for bit, for every NaN payload and sign
   * and both infinities.
   */
  lemma BareRoundTrip(v: Value, fmt: FloatFormat, rd: FloatReader)
    requires ReadsBack(fmt, rd)
    ensures EvalBare(TypeOf(v), ValueBare(v, fmt), rd) == Some(v)
  {
    match v
    case I32(n) => ReadCastText(n, " as i32");
    case I64(n) => ReadCastText(n, " as i64");
    case F32(b) =>
      if IsInfinite32(b) { BareInf32(b, fmt, rd); }
      else if IsNaN32(b) { BareNaN32(b, fmt, rd); }
      else { BareFinite32(b, fmt, rd); }
    case F64(b) =>
      if IsInfinite64(b) { BareInf64(b, fmt, rd); }
      else if IsNaN64(b) { BareNaN64(b, fmt, rd); }
      else { BareFinite64(b, fmt, rd); }
  }

  /**
   * Round trip of `wabt2rust_value`: the emitted `Value::…` expression
   * evaluates to the original value, with the variant it was printed from.
   */
  lemma LiteralRoundTrip(v: Value, fmt: FloatFormat, rd: FloatReader)
    requires ReadsBack(fmt, rd)
    ensures EvalLiteral(ValueLiteral(v, fmt), rd) == Some(v)
  {
    match v
    case F32(b) =>
      if IsFinite32(b) { LiteralFinite32(b, fmt, rd); } else { LiteralBare(v, fmt, rd); }
    case F64(b) =>
      if IsFinite64(b) { LiteralFinite64(b, fmt, rd); } else { LiteralBare(v, fmt, rd); }
    case _ =>
      LiteralBare(v, fmt, rd);
  }

  lemma LiteralFinite32(b: bv32, fmt: FloatFormat, rd: FloatReader)
    requires ReadsBack(fmt, rd) && IsFinite32(b)
    ensures EvalLiteral(ValueLiteral(F32(b), fmt), rd) == Some(F32(b))
  {
    var inner := "(" + fmt.f32(b) + "f32)";
    assert ValueLiteral(F32(b), fmt) == TypeDestructure(F32(b), inner);
    assert inner[1..|inner| - 4] == fmt.f32(b);
    assert inner[|inner| - 4..|inner| - 1] == "f32";
  }

  lemma LiteralFinite64(b: bv64, fmt: FloatFormat, rd: FloatReader)
    requires ReadsBack(fmt, rd) && IsFinite64(b)
    ensures EvalLiteral(ValueLiteral(F64(b), fmt), rd) == Some(F64(b))
  {
    var inner := "(" + fmt.f64(b) + "f64)";
    assert ValueLiteral(F64(b), fmt) == TypeDestructure(F64(b), inner);
    assert inner[1..|inner| - 4] == fmt.f64(b);
    assert inner[|inner| - 4..|inner| - 1] == "f64";
  }

  /** Integers, infinities and NaNs are written bare inside the pattern. */
  lemma LiteralBare(v: Value, fmt: FloatFormat, rd: FloatReader)
    requires ReadsBack(fmt, rd)
    requires v.F32? ==> !IsFinite32(v.f)
    requires v.F64? ==> !IsFinite64(v.d)
    ensures EvalLiteral(ValueLiteral(v, fmt), rd) == Some(v)
  {
    var inner := ValueBare(v, fmt);
    assert ValueLiteral(v, fmt) == TypeDestructure(v, inner);
    BareRoundTrip(v, fmt, rd);
    if v.F32? || v.F64? {
      assert inner[0] == 'f';
    }
  }

  /** The pattern names the variant and keeps the placeholder: distinct inputs, distinct patterns. */
  lemma DestructureInjective(v: Value, p: string, w: Value, q: string)
    requires TypeDestructure(v, p) == TypeDestructure(w, q)
    ensures TypeOf(v) == TypeOf(w) && p == q
  {
  }
}
