/** The few string operations of Go's library that the parsers rely on, as functions. */
module Text {
  predicate IsDigit(c: char) { '0' <= c <= '9' }

  function DigitValue(c: char): (d: nat)
    requires IsDigit(c)
    ensures d <= 9
  {
    c as int - '0' as int
  }

  function DigitChar(d: nat): (c: char)
    requires d <= 9
    ensures IsDigit(c) && DigitValue(c) == d
  {
    ('0' as int + d) as char
  }

  predicate AllDigits(s: string) { forall i :: 0 <= i < |s| ==> IsDigit(s[i]) }

  predicate NoChar(s: string, c: char) { forall i :: 0 <= i < |s| ==> s[i] != c }

  /** fmt's %d of a natural number. */
  function Decimal(n: nat): (s: string)
    ensures |s| > 0 && AllDigits(s)
  {
    if n < 10 then [DigitChar(n)] else Decimal(n / 10) + [DigitChar(n % 10)]
  }

  // ---------------------------------------------------------------- strconv.ParseInt, base 10

  datatype Scan = Syntax | Range | Value(n: nat)

  /** strconv.ParseUint's loop: a digit that takes the value over max ends the scan, whatever follows. */
  function ScanDigits(s: string, n: nat, max: nat): Scan
    decreases |s|
  {
    if s == [] then Value(n)
    else if !IsDigit(s[0]) then Syntax
    else if n * 10 + DigitValue(s[0]) > max then Range
    else ScanDigits(s[1..], n * 10 + DigitValue(s[0]), max)
  }

  function Pow2(e: nat): (p: nat)
    ensures p > 0
  {
    if e == 0 then 1 else 2 * Pow2(e - 1)
  }

  const INT32_LIMIT := 0x8000_0000

  lemma Pow31()
    ensures Pow2(31) == INT32_LIMIT
  {
    assert Pow2(8) == 256;
    assert Pow2(16) == 256 * Pow2(8);
    assert Pow2(24) == 256 * Pow2(16);
    assert Pow2(31) == 128 * Pow2(24);
  }

  datatype Parsed = Parsed(value: int, ok: bool)

  /** On a range error the value is the nearest bound; on a syntax error it is zero. */
  function ParseInt(s: string, bits: nat): Parsed
    requires bits > 0
  {
    if s == [] then Parsed(0, false)
    else
      var neg := s[0] == '-';
      var body := if s[0] == '+' || s[0] == '-' then s[1..] else s;
      var half := Pow2(bits - 1);
      match if body == [] then Syntax else ScanDigits(body, 0, Pow2(bits) - 1)
      case Syntax => Parsed(0, false)
      case Range => Parsed(if neg then 0 - half else half - 1, false)
      case Value(n) =>
        if !neg && n >= half then Parsed(half - 1, false)
        else if neg && n > half then Parsed(0 - half, false)
        else Parsed(if neg then 0 - n else n, true)
  }

  lemma {:induction false} ScanAppend(s: string, c: char, n: nat, max: nat)
    requires IsDigit(c)
    ensures ScanDigits(s + [c], n, max) ==
            match ScanDigits(s, n, max)
            case Value(m) => if m * 10 + DigitValue(c) > max then Range else Value(m * 10 + DigitValue(c))
            case other => other
    decreases |s|
  {
    if s == [] {
      assert s + [c] == [c] && [c][1..] == [];
    } else {
      assert (s + [c])[1..] == s[1..] + [c];
      if IsDigit(s[0]) && n * 10 + DigitValue(s[0]) <= max {
        ScanAppend(s[1..], c, n * 10 + DigitValue(s[0]), max);
      }
    }
  }

  lemma {:induction false} ScanDecimal(n: nat, max: nat)
    ensures ScanDigits(Decimal(n), 0, max) == if n <= max then Value(n) else Range
  {
    if n < 10 {
      assert Decimal(n)[1..] == [];
    } else {
      ScanDecimal(n / 10, max);
      ScanAppend(Decimal(n / 10), DigitChar(n % 10), 0, max);
    }
  }

  /** Printing and parsing agree below the bound; above it the bound is answered, with an error. */
  lemma ParseDecimal(n: nat, bits: nat)
    requires bits > 0
    ensures ParseInt(Decimal(n), bits) ==
            if n < Pow2(bits - 1) then Parsed(n, true) else Parsed(Pow2(bits - 1) - 1, false)
  {
    ScanDecimal(n, Pow2(bits) - 1);
    assert IsDigit(Decimal(n)[0]);
  }

  /** A sign is read: a minus negates, down to the lower bound, and a plus changes nothing. */
  lemma ParseSigned(n: nat, bits: nat)
    requires bits > 0
    ensures ParseInt("-" + Decimal(n), bits) ==
            if n <= Pow2(bits - 1) then Parsed(0 - n, true) else Parsed(0 - Pow2(bits - 1), false)
    ensures ParseInt("+" + Decimal(n), bits) == ParseInt(Decimal(n), bits)
  {
    ScanDecimal(n, Pow2(bits) - 1);
    assert ("-" + Decimal(n))[1..] == Decimal(n) && ("+" + Decimal(n))[1..] == Decimal(n);
    assert IsDigit(Decimal(n)[0]);
  }

  lemma DecimalInjective(n: nat, m: nat)
    ensures Decimal(n) == Decimal(m) ==> n == m
  {
    var max := if n < m then m else n;
    ScanDecimal(n, max);
    ScanDecimal(m, max);
  }

  lemma {:induction false} ParseBound(s: string, bits: nat)
    requires bits > 0
    ensures -(Pow2(bits - 1) as int) <= ParseInt(s, bits).value < Pow2(bits - 1)
  {
  }

  // ---------------------------------------------------------------- strings.Split, strings.LastIndex

  /** The position of the first c at or after i, the length if there is none. */
  function IndexFrom(s: string, c: char, i: nat): (k: nat)
    requires i <= |s|
    ensures i <= k <= |s|
    ensures k < |s| ==> s[k] == c
    ensures forall j :: i <= j < k ==> s[j] != c
    decreases |s| - i
  {
    if i == |s| || s[i] == c then i else IndexFrom(s, c, i + 1)
  }

  function Split(s: string, c: char): (parts: seq<string>)
    ensures |parts| > 0
    decreases |s|
  {
    var k := IndexFrom(s, c, 0);
    if k == |s| then [s] else [s[..k]] + Split(s[k + 1..], c)
  }

  function Count(s: string, c: char): nat {
    if s == [] then 0 else (if s[0] == c then 1 else 0) + Count(s[1..], c)
  }

  lemma {:induction false} NoCharCount(s: string, c: char)
    ensures NoChar(s, c) <==> Count(s, c) == 0
  {
    if s != [] {
      NoCharCount(s[1..], c);
      if NoChar(s[1..], c) && s[0] != c {
        forall i | 0 <= i < |s| ensures s[i] != c {
          if i > 0 { assert s[i] == s[1..][i - 1]; }
        }
      }
      if NoChar(s, c) {
        forall i | 0 <= i < |s[1..]| ensures s[1..][i] != c {
          assert s[1..][i] == s[i + 1];
        }
      }
    }
  }

  lemma {:induction false} CountConcat(s: string, t: string, c: char)
    ensures Count(s + t, c) == Count(s, c) + Count(t, c)
  {
    if s == [] {
      assert s + t == t;
    } else {
      assert (s + t)[1..] == s[1..] + t;
      CountConcat(s[1..], t, c);
    }
  }

  lemma SplitNone(s: string, c: char)
    requires NoChar(s, c)
    ensures Split(s, c) == [s]
  {
  }

  lemma SplitOnce(s: string, t: string, c: char)
    requires NoChar(s, c)
    ensures Split(s + [c] + t, c) == [s] + Split(t, c)
  {
    var whole := s + [c] + t;
    assert whole[|s|] == c;
    assert IndexFrom(whole, c, 0) == |s| by {
      assert forall j :: 0 <= j < |s| ==> whole[j] == s[j];
    }
    assert whole[..|s|] == s && whole[|s| + 1..] == t;
  }

  /** One part more than separators. */
  lemma {:induction false} SplitCount(s: string, c: char)
    ensures |Split(s, c)| == Count(s, c) + 1
    decreases |s|
  {
    var k := IndexFrom(s, c, 0);
    NoCharCount(s[..k], c);
    CountConcat(s[..k], s[k..], c);
    assert s == s[..k] + s[k..];
    if k < |s| {
      SplitCount(s[k + 1..], c);
      assert s[k..][1..] == s[k + 1..];
    }
  }

  /** Split into two parts: the parts around the one separator. */
  lemma SplitInTwo(s: string, c: char)
    requires |Split(s, c)| == 2
    ensures var p := Split(s, c); s == p[0] + [c] + p[1] && NoChar(p[0], c) && NoChar(p[1], c)
  {
    var k := IndexFrom(s, c, 0);
    var rest := s[k + 1..];
    SplitCount(rest, c);
    NoCharCount(rest, c);
    SplitNone(rest, c);
    assert s == s[..k] + [c] + rest;
  }

  /** What follows the last c, the whole string if there is none. */
  function AfterLast(s: string, c: char): (t: string)
    ensures NoChar(t, c)
    decreases |s|
  {
    var k := IndexFrom(s, c, 0);
    if k == |s| then s else AfterLast(s[k + 1..], c)
  }

  lemma {:induction false} AfterLastIsSuffix(s: string, c: char)
    ensures var t := AfterLast(s, c);
            && |t| <= |s| && s[|s| - |t|..] == t
            && (|t| < |s| ==> s[|s| - |t| - 1] == c)
    decreases |s|
  {
    var k := IndexFrom(s, c, 0);
    if k < |s| {
      var rest := s[k + 1..];
      AfterLastIsSuffix(rest, c);
      SuffixOfRest(s, k + 1, |AfterLast(rest, c)|);
    }
  }

  lemma SuffixOfRest(s: string, k: nat, n: nat)
    requires k + n <= |s|
    ensures s[k..][|s| - k - n..] == s[|s| - n..]
    ensures k + n < |s| ==> s[k..][|s| - k - n - 1] == s[|s| - n - 1]
  {
  }

  lemma {:induction false} AfterLastOfPath(p: string, t: string, c: char)
    requires NoChar(t, c) && (p == "" || p[|p| - 1] == c)
    ensures AfterLast(p + t, c) == t
    decreases |p|
  {
    var s := p + t;
    var k := IndexFrom(s, c, 0);
    if p == "" {
      assert s == t;
    } else {
      assert s[|p| - 1] == c;
      assert k < |p|;
      assert s[k + 1..] == p[k + 1..] + t;
      AfterLastOfPath(p[k + 1..], t, c);
    }
  }
}
