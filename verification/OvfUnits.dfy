/** Capacities and quantities with programmatic units (pkg/source/ova/client.go:47-56, 438-497). */
module OvfUnits {
  import opened Wrappers
  import opened Text
  import opened Integers

  /** int64(math.Pow(x, y)): binary64 arithmetic is only relied on where it is exact. */
  type Power = (int, int) -> int

  ghost predicate ExactOnTwo(pow: Power) {
    forall e: nat :: e < 63 ==> pow(2, e) == Pow2(e)
  }

  // ---------------------------------------------------------------- strings.Fields, strings.ToLower

  predicate IsSpace(c: char) {
    c in {' ', '\t', '\n', '\r', '\U{0b}', '\U{0c}', '\U{85}', '\U{a0}'}
  }

  predicate NoSpace(s: string) { forall i :: 0 <= i < |s| ==> !IsSpace(s[i]) }

  function WordEnd(s: string, i: nat): (k: nat)
    requires i <= |s|
    ensures i <= k <= |s|
    ensures forall j :: i <= j < k ==> !IsSpace(s[j])
    ensures k < |s| ==> IsSpace(s[k])
    decreases |s| - i
  {
    if i == |s| || IsSpace(s[i]) then i else WordEnd(s, i + 1)
  }

  function Fields(s: string): seq<string>
    decreases |s|
  {
    if s == [] then []
    else if IsSpace(s[0]) then Fields(s[1..])
    else [s[..WordEnd(s, 0)]] + Fields(s[WordEnd(s, 0)..])
  }

  lemma FieldsWord(w: string, rest: string)
    requires w != "" && NoSpace(w) && (rest == "" || IsSpace(rest[0]))
    ensures Fields(w + rest) == [w] + Fields(rest)
  {
    var s := w + rest;
    assert !IsSpace(s[0]) by { assert s[0] == w[0]; }
    assert WordEnd(s, 0) == |w| by {
      assert forall j :: 0 <= j < |w| ==> s[j] == w[j];
      if rest != "" {
        assert s[|w|] == rest[0];
      }
    }
    assert s[..|w|] == w && s[|w|..] == rest;
  }

  lemma FieldsSpace(rest: string)
    ensures Fields([' '] + rest) == Fields(rest)
  {
    assert ([' '] + rest)[1..] == rest;
  }

  const BYTE := "byte"
  const TIMES := "*"

  lemma ScaledFields(factor: string)
    requires factor != "" && NoSpace(factor)
    ensures Fields(Scaled(factor)) == [BYTE, TIMES, factor]
  {
    var tail := [' '] + factor;
    FieldsWord(BYTE, [' '] + (TIMES + tail));
    FieldsSpace(TIMES + tail);
    FieldsWord(TIMES, tail);
    FieldsSpace(factor);
    assert factor + "" == factor;
    FieldsWord(factor, "");
    assert [BYTE] + ([TIMES] + ([factor] + [])) == [BYTE, TIMES, factor];
  }

  /** "byte * <factor>" */
  function Scaled(factor: string): string {
    BYTE + ([' '] + (TIMES + ([' '] + factor)))
  }

  function LowerChar(c: char): char {
    if 'A' <= c <= 'Z' then (c as int + 32) as char else c
  }

  function Lower(s: string): string {
    if s == [] then [] else [LowerChar(s[0])] + Lower(s[1..])
  }

  /** The exponent of the table's power of two. */
  function UnitExponent(unit: string): Option<nat> {
    if unit == "kb" || unit == "kilobytes" then Some(10)
    else if unit == "mb" || unit == "megabytes" then Some(20)
    else if unit == "gb" || unit == "gigabytes" then Some(30)
    else if unit == "tb" || unit == "terabytes" then Some(40)
    else None
  }

  // ---------------------------------------------------------------- the two parsers

  /** strconv.ParseUint with 64 bits; its error is ignored. */
  function Uint64Of(s: string): int {
    if s == [] then 0
    else match ScanDigits(s, 0, Pow2(64) - 1)
         case Syntax => 0
         case Range => Pow2(64) - 1
         case Value(n) => n
  }

  function Multiply(b: int, units: string, bits: nat, exponent: string -> int, pow: Power): int
    requires bits > 0
  {
    var c := Fields(units);
    if |c| == 3 && c[0] == BYTE && c[1] == TIMES then
      var p := Split(c[2], '^');
      var x := ParseInt(p[0], bits).value;
      Int64(b * if |p| == 2 then pow(x, exponent(p[1])) else x)
    else if |c| == 1 && UnitExponent(Lower(c[0])).Some? then Int64(b * Pow2(UnitExponent(Lower(c[0])).value))
    else b
  }

  function Capacity(capacity: string, units: Option<string>, pow: Power): int {
    var b := ParseInt(capacity, 64).value;
    if units.None? then b else Multiply(b, units.value, 64, Uint64Of, pow)
  }

  function Quantity(quantity: nat, units: Option<string>, pow: Power): int {
    var b := Int64(quantity);
    if units.None? then b else Multiply(b, units.value, 32, s => ParseInt(s, 32).value, pow)
  }

  method ParseCapacity(capacity: string, units: Option<string>, pow: Power) returns (b: int)
    ensures b == Capacity(capacity, units, pow)
  {
    b := ParseInt(capacity, 64).value;
    if units == None {
      return;
    }
    var c := Fields(units.value);
    if |c| == 3 && c[0] == "byte" && c[1] == "*" {
      var p := Split(c[2], '^');
      var x := ParseInt(p[0], 64).value;
      if |p| == 2 {
        var y := Uint64Of(p[1]);
        b := Int64(b * pow(x, y));
      } else {
        b := Int64(b * x);
      }
    }
    if |c| == 1 {
      var multiplier := UnitExponent(Lower(c[0]));
      if multiplier != None {
        b := Int64(b * Pow2(multiplier.value));
      }
    }
  }

  method ParseVirtualQuantity(quantity: nat, units: Option<string>, pow: Power) returns (b: int)
    ensures b == Quantity(quantity, units, pow)
  {
    b := Int64(quantity);
    if units == None {
      return;
    }
    var c := Fields(units.value);
    if |c| == 3 && c[0] == "byte" && c[1] == "*" {
      var p := Split(c[2], '^');
      var x := ParseInt(p[0], 32).value;
      if |p| == 2 {
        var y := ParseInt(p[1], 32).value;
        b := Int64(b * pow(x, y));
      } else {
        b := Int64(b * x);
      }
    }
    if |c| == 1 {
      var multiplier := UnitExponent(Lower(c[0]));
      if multiplier != None {
        b := Int64(b * Pow2(multiplier.value));
      }
    }
  }

  // ---------------------------------------------------------------- powers of two

  lemma PowersOfTwo()
    ensures Pow2(10) == 0x400 && Pow2(20) == 0x10_0000 && Pow2(30) == 0x4000_0000 && Pow2(40) == 0x100_0000_0000
    ensures Pow2(31) == INT32_LIMIT && Pow2(63) == INT64_LIMIT
  {
    assert Pow2(8) == 0x100;
    assert Pow2(10) == 4 * Pow2(8);
    assert Pow2(16) == 64 * Pow2(10);
    assert Pow2(20) == 16 * Pow2(16);
    assert Pow2(24) == 16 * Pow2(20);
    assert Pow2(30) == 64 * Pow2(24);
    assert Pow2(31) == 2 * Pow2(30);
    assert Pow2(38) == 256 * Pow2(30);
    assert Pow2(40) == 4 * Pow2(38);
    assert Pow2(48) == 256 * Pow2(40);
    assert Pow2(56) == 256 * Pow2(48);
    assert Pow2(63) == 128 * Pow2(56);
  }

  lemma {:induction false} Pow2Grows(d: nat, e: nat)
    requires d <= e
    ensures Pow2(d) <= Pow2(e)
  {
    if d < e {
      Pow2Grows(d, e - 1);
    }
  }

  lemma ProductAtLeast(b: nat, p: nat)
    requires b > 0 && p > 0
    ensures b * p >= b && b * p >= p
  {
    assert b * p == b + b * (p - 1);
    assert b * p == p + (b - 1) * p;
  }

  /** A nonzero value shifted by e stays below 2^63 only for e below 63. */
  lemma ShiftFits(b: nat, e: nat)
    requires b > 0 && b * Pow2(e) < INT64_LIMIT
    ensures e < 63 && b < INT64_LIMIT
  {
    PowersOfTwo();
    ProductAtLeast(b, Pow2(e));
    if e >= 63 {
      Pow2Grows(63, e);
    }
  }

  // ---------------------------------------------------------------- the forms agree

  function Exponential(e: nat): string {
    Scaled("2^" + Decimal(e))
  }

  lemma DecimalIsPlain(n: nat)
    ensures NoSpace(Decimal(n)) && NoChar(Decimal(n), '^')
  {
  }

  /** The parts of "byte * x^e". */
  lemma PowerParts(x: nat, e: nat)
    ensures Fields(Scaled(Decimal(x) + "^" + Decimal(e))) == [BYTE, TIMES, Decimal(x) + "^" + Decimal(e)]
    ensures Split(Decimal(x) + "^" + Decimal(e), '^') == [Decimal(x), Decimal(e)]
  {
    var word := Decimal(x) + "^" + Decimal(e);
    DecimalIsPlain(x);
    DecimalIsPlain(e);
    assert word == Decimal(x) + ['^'] + Decimal(e);
    ScaledFields(word);
    SplitOnce(Decimal(x), Decimal(e), '^');
    SplitNone(Decimal(e), '^');
  }

  /** Numbers in int32 range are read back by all three parsers. */
  lemma SmallNumber(n: nat)
    requires n < INT32_LIMIT
    ensures Uint64Of(Decimal(n)) == n && ParseInt(Decimal(n), 32).value == n && ParseInt(Decimal(n), 64).value == n
  {
    PowersOfTwo();
    assert Pow2(64) == 2 * Pow2(63);
    ScanDecimal(n, Pow2(64) - 1);
    ParseDecimal(n, 32);
    ParseDecimal(n, 64);
  }

  lemma MultiplyPower(b: int, x: nat, e: nat, bits: nat, exponent: string -> int, pow: Power)
    requires bits > 0 && ParseInt(Decimal(x), bits).value == x
    ensures Multiply(b, Scaled(Decimal(x) + "^" + Decimal(e)), bits, exponent, pow) ==
            Int64(b * pow(x, exponent(Decimal(e))))
  {
    PowerParts(x, e);
  }

  lemma ScaledWord(word: string)
    ensures "byte * " + word == Scaled(word)
  {
  }

  /** Any base and exponent in int32 range: both parsers multiply by the power, in int64 arithmetic. */
  lemma PowerForm(b: nat, x: nat, e: nat, pow: Power)
    requires b < 0x8000_0000_0000_0000 && x < 0x8000_0000 && e < 0x8000_0000
    ensures var units := Some("byte * " + (Decimal(x) + "^" + Decimal(e)));
            && Wraps(b * pow(x, e), Capacity(Decimal(b), units, pow))
            && Wraps(b * pow(x, e), Quantity(b, units, pow))
  {
    ScaledWord(Decimal(x) + "^" + Decimal(e));
    SmallNumber(x);
    SmallNumber(e);
    PlainForm(b, pow);
    MultiplyPower(b, x, e, 64, Uint64Of, pow);
    MultiplyPower(b, x, e, 32, s => ParseInt(s, 32).value, pow);
  }

  lemma BaseTwo()
    ensures Decimal(2) == "2" && ParseInt("2", 64).value == 2 && ParseInt("2", 32).value == 2
  {
    assert Decimal(2) == "2";
    SmallNumber(2);
  }

  lemma TwoWord(e: nat)
    ensures Exponential(e) == Scaled(Decimal(2) + "^" + Decimal(e))
  {
    BaseTwo();
    assert "2^" + Decimal(e) == Decimal(2) + "^" + Decimal(e);
  }

  lemma MultiplyExponential(b: int, e: nat, bits: nat, exponent: string -> int, pow: Power)
    requires bits > 0 && ParseInt("2", bits).value == 2
    ensures Multiply(b, Exponential(e), bits, exponent, pow) == Int64(b * pow(2, exponent(Decimal(e))))
  {
    BaseTwo();
    TwoWord(e);
    MultiplyPower(b, 2, e, bits, exponent, pow);
  }

  lemma CapacityExponential(b: nat, e: nat, pow: Power)
    requires b < INT64_LIMIT
    ensures Capacity(Decimal(b), Some(Exponential(e)), pow) == Int64(b * pow(2, Uint64Of(Decimal(e))))
  {
    BaseTwo();
    PowersOfTwo();
    ParseDecimal(b, 64);
    MultiplyExponential(b, e, 64, Uint64Of, pow);
  }

  lemma QuantityExponential(b: nat, e: nat, pow: Power)
    requires b < INT64_LIMIT
    ensures Quantity(b, Some(Exponential(e)), pow) == Int64(b * pow(2, ParseInt(Decimal(e), 32).value))
  {
    BaseTwo();
    MultiplyExponential(b, e, 32, s => ParseInt(s, 32).value, pow);
  }

  /** The exponent y that was parsed only matters for a nonzero b. */
  lemma ShiftByPower(b: nat, e: nat, y: int, pow: Power)
    requires ExactOnTwo(pow) && b * Pow2(e) < INT64_LIMIT
    requires b > 0 ==> e < 63 && y == e
    ensures Int64(b * pow(2, y)) == b * Pow2(e)
  {
    if b > 0 {
      assert pow(2, e) == Pow2(e);
    }
  }

  lemma ParsedExponents(b: nat, e: nat)
    requires b * Pow2(e) < INT64_LIMIT
    ensures b < INT64_LIMIT
    ensures b > 0 ==> e < 63 && Uint64Of(Decimal(e)) == e && ParseInt(Decimal(e), 32).value == e
  {
    if b > 0 {
      ShiftFits(b, e);
      SmallNumber(e);
    }
  }

  /** Printing b with "byte * 2^e" and parsing gives b * 2^e in both parsers, whenever that fits an int64. */
  lemma ExponentialForm(b: nat, e: nat, pow: Power)
    requires ExactOnTwo(pow) && b * Pow2(e) < INT64_LIMIT
    ensures Capacity(Decimal(b), Some(Exponential(e)), pow) == b * Pow2(e)
    ensures Quantity(b, Some(Exponential(e)), pow) == b * Pow2(e)
  {
    ParsedExponents(b, e);
    CapacityExponential(b, e, pow);
    QuantityExponential(b, e, pow);
    ShiftByPower(b, e, Uint64Of(Decimal(e)), pow);
    ShiftByPower(b, e, ParseInt(Decimal(e), 32).value, pow);
  }

  lemma MultiplyFactor(b: int, f: nat, bits: nat, exponent: string -> int, pow: Power)
    requires bits > 0
    ensures Multiply(b, Scaled(Decimal(f)), bits, exponent, pow) == Int64(b * ParseInt(Decimal(f), bits).value)
  {
    DecimalIsPlain(f);
    ScaledFields(Decimal(f));
    SplitNone(Decimal(f), '^');
  }

  lemma CapacityFactor(b: nat, f: nat, pow: Power)
    requires b < INT64_LIMIT && f < INT64_LIMIT
    ensures Capacity(Decimal(b), Some(Scaled(Decimal(f))), pow) == Int64(b * f)
  {
    PowersOfTwo();
    ParseDecimal(b, 64);
    ParseDecimal(f, 64);
    MultiplyFactor(b, f, 64, Uint64Of, pow);
  }

  lemma QuantityFactor(b: nat, f: nat, pow: Power)
    requires b < INT64_LIMIT
    ensures Quantity(b, Some(Scaled(Decimal(f))), pow) == Int64(b * Clamped(f))
  {
    FactorClamped(f);
    MultiplyFactor(b, f, 32, s => ParseInt(s, 32).value, pow);
  }

  lemma FactorClamped(f: nat)
    ensures ParseInt(Decimal(f), 32).value == Clamped(f)
  {
    PowersOfTwo();
    ParseDecimal(f, 32);
  }

  /** What a 32-bit parse makes of a natural number. */
  function Clamped(f: nat): nat {
    if f < INT32_LIMIT then f else INT32_LIMIT - 1
  }

  /** The explicit-factor form: a capacity takes any int64 factor, a quantity one below 2^31 only; from 2^31 on
      the quantity's parser silently uses 2^31 - 1. */
  lemma FactorForm(b: nat, f: nat, pow: Power)
    requires b < INT64_LIMIT && f < INT64_LIMIT && b * f < INT64_LIMIT
    ensures Capacity(Decimal(b), Some(Scaled(Decimal(f))), pow) == b * f
    ensures Quantity(b, Some(Scaled(Decimal(f))), pow) == b * Clamped(f)
    ensures Quantity(b, Some(Scaled(Decimal(f))), pow) == b * f <==> b == 0 || f < INT32_LIMIT
  {
    CapacityFactor(b, f, pow);
    QuantityFactor(b, f, pow);
    ClampedProduct(b, f);
  }

  /** Beyond that range both products wrap around to int64. */
  lemma FactorWraps(b: nat, f: nat, pow: Power)
    requires b < 0x8000_0000_0000_0000 && f < 0x8000_0000_0000_0000
    ensures Wraps(b * f, Capacity(Decimal(b), Some("byte * " + Decimal(f)), pow))
    ensures Wraps(b * if f < 0x8000_0000 then f else 0x7FFF_FFFF, Quantity(b, Some("byte * " + Decimal(f)), pow))
  {
    ScaledWord(Decimal(f));
    CapacityFactor(b, f, pow);
    QuantityFactor(b, f, pow);
  }

  lemma ClampedProduct(b: nat, f: nat)
    requires b * f < INT64_LIMIT
    ensures Int64(b * f) == b * f && Int64(b * Clamped(f)) == b * Clamped(f)
    ensures b * Clamped(f) == b * f <==> b == 0 || f < INT32_LIMIT
  {
    ProductOrder(b, Clamped(f), f);
  }

  lemma ProductOrder(b: nat, x: nat, f: nat)
    requires x <= f
    ensures b * x <= b * f
    ensures b * x == b * f <==> b == 0 || x == f
  {
    assert b * f == b * x + b * (f - x);
    if b > 0 && f > x {
      assert b * (f - x) > 0;
    }
  }

  /** The word is this lower-case one, in any capitalization. */
  predicate Spelled(word: string, lower: string) {
    |word| == |lower| &&
    forall i :: 0 <= i < |word| ==>
      word[i] == lower[i] || ('A' <= word[i] <= 'Z' && word[i] as int + 32 == lower[i] as int)
  }

  predicate NoCapital(s: string) { forall i :: 0 <= i < |s| ==> !('A' <= s[i] <= 'Z') }

  lemma {:induction false} LowerAt(s: string)
    ensures |Lower(s)| == |s| && forall i :: 0 <= i < |s| ==> Lower(s)[i] == LowerChar(s[i])
  {
    if s != [] {
      LowerAt(s[1..]);
    }
  }

  lemma LowerSpelled(word: string, lower: string)
    requires NoCapital(lower)
    ensures Lower(word) == lower <==> Spelled(word, lower)
  {
    LowerAt(word);
    if Spelled(word, lower) {
      forall i | 0 <= i < |word| ensures Lower(word)[i] == lower[i] {
        assert word[i] == lower[i] || ('A' <= word[i] <= 'Z' && word[i] as int + 32 == lower[i] as int);
      }
    }
    if Lower(word) == lower {
      forall i | 0 <= i < |word|
        ensures word[i] == lower[i] || ('A' <= word[i] <= 'Z' && word[i] as int + 32 == lower[i] as int)
      {
        assert LowerChar(word[i]) == lower[i];
      }
    }
  }

  /** What a unit's name, in any capitalization, stands for. */
  predicate Names(unit: string, e: nat) {
    || (e == 10 && (Spelled(unit, "kb") || Spelled(unit, "kilobytes")))
    || (e == 20 && (Spelled(unit, "mb") || Spelled(unit, "megabytes")))
    || (e == 30 && (Spelled(unit, "gb") || Spelled(unit, "gigabytes")))
    || (e == 40 && (Spelled(unit, "tb") || Spelled(unit, "terabytes")))
  }

  lemma NamesMean(unit: string, e: nat)
    ensures Names(unit, e) <==> UnitExponent(Lower(unit)) == Some(e)
  {
    LowerSpelled(unit, "kb");
    LowerSpelled(unit, "kilobytes");
    LowerSpelled(unit, "mb");
    LowerSpelled(unit, "megabytes");
    LowerSpelled(unit, "gb");
    LowerSpelled(unit, "gigabytes");
    LowerSpelled(unit, "tb");
    LowerSpelled(unit, "terabytes");
  }

  lemma MultiplyWord(b: int, unit: string, bits: nat, exponent: string -> int, pow: Power)
    requires bits > 0 && unit != "" && NoSpace(unit)
    ensures Multiply(b, unit, bits, exponent, pow) ==
            match UnitExponent(Lower(unit))
            case Some(e) => Int64(b * Pow2(e))
            case None => b
  {
    FieldsWord(unit, "");
    assert unit + "" == unit;
  }

  /** A named unit, in any capitalization, multiplies any capacity and any quantity by its power of two, in int64
      arithmetic. */
  lemma NamedUnits(unit: string, e: nat, capacity: string, quantity: nat, pow: Power)
    requires Names(unit, e)
    ensures Wraps(Capacity(capacity, None, pow) * Pow2(e), Capacity(capacity, Some(unit), pow))
    ensures Wraps(Quantity(quantity, None, pow) * Pow2(e), Quantity(quantity, Some(unit), pow))
  {
    NamesMean(unit, e);
    SpelledPlain(unit, e);
    MultiplyWord(ParseInt(capacity, 64).value, unit, 64, Uint64Of, pow);
    MultiplyWord(Int64(quantity), unit, 32, s => ParseInt(s, 32).value, pow);
  }

  lemma SpelledPlain(unit: string, e: nat)
    requires Names(unit, e)
    ensures unit != "" && NoSpace(unit)
  {
  }

  /** So it means the same as its power of two written out, for every number. */
  lemma NamedIsPower(unit: string, e: nat, capacity: string, quantity: nat, pow: Power)
    requires ExactOnTwo(pow) && Names(unit, e)
    ensures Capacity(capacity, Some(unit), pow) == Capacity(capacity, Some(Exponential(e)), pow)
    ensures Quantity(quantity, Some(unit), pow) == Quantity(quantity, Some(Exponential(e)), pow)
  {
    var exponent := s => ParseInt(s, 32).value;
    NamesMean(unit, e);
    SpelledPlain(unit, e);
    BaseTwo();
    SmallNumber(e);
    assert pow(2, e) == Pow2(e);
    MultiplyWord(ParseInt(capacity, 64).value, unit, 64, Uint64Of, pow);
    MultiplyWord(Int64(quantity), unit, 32, exponent, pow);
    MultiplyExponential(ParseInt(capacity, 64).value, e, 64, Uint64Of, pow);
    MultiplyExponential(Int64(quantity), e, 32, exponent, pow);
  }

  /** Any other single word, "byte" alone included, scales by one. */
  lemma UnknownUnit(unit: string, capacity: string, quantity: nat, pow: Power)
    requires unit != "" && NoSpace(unit) && !Names(unit, 10) && !Names(unit, 20) && !Names(unit, 30) && !Names(unit, 40)
    ensures Capacity(capacity, Some(unit), pow) == Capacity(capacity, None, pow)
    ensures Quantity(quantity, Some(unit), pow) == Quantity(quantity, None, pow)
  {
    NamesMean(unit, 10);
    NamesMean(unit, 20);
    NamesMean(unit, 30);
    NamesMean(unit, 40);
    MultiplyWord(ParseInt(capacity, 64).value, unit, 64, Uint64Of, pow);
    MultiplyWord(Int64(quantity), unit, 32, s => ParseInt(s, 32).value, pow);
  }

  /** A unit of two words, or of more than three, or of three that do not begin with "byte *", scales by one too. */
  lemma OtherForm(units: string, capacity: string, quantity: nat, pow: Power)
    requires var c := Fields(units); |c| != 1 && !(|c| == 3 && c[0] == "byte" && c[1] == "*")
    ensures Capacity(capacity, Some(units), pow) == Capacity(capacity, None, pow)
    ensures Quantity(quantity, Some(units), pow) == Quantity(quantity, None, pow)
  {
  }

  /** Without units, a printed number is read back, and a quantity is taken as it is. */
  lemma PlainForm(b: nat, pow: Power)
    requires b < 0x8000_0000_0000_0000
    ensures Capacity(Decimal(b), None, pow) == b && Quantity(b, None, pow) == b
  {
    PowersOfTwo();
    ParseDecimal(b, 64);
  }
}
