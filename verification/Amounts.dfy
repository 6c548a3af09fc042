/** Decimal amounts and 64-bit base units. */
module Amounts {
  import opened Prelude
  import opened Text

  datatype AmountError = PrecisionTooHigh | Malformed | Overflow

  const MAX_DECIMALS: int := 19

  function Pow10(n: nat): nat { if n == 0 then 1 else 10 * Pow10(n - 1) }

  function CheckedMul(a: u64, b: u64): Option<u64> { if a * b < U64_LIMIT then Some(a * b) else None }

  function CheckedAdd(a: u64, b: u64): Option<u64> { if a + b < U64_LIMIT then Some(a + b) else None }

  // The parts before and after the first point
  function SplitPoint(s: string): (string, string) {
    if s == [] then ([], [])
    else if s[0] == '.' then ([], s[1..])
    else var (whole, fraction) := SplitPoint(s[1..]); ([s[0]] + whole, fraction)
  }

  /** `parse_amount`, with every intermediate value held in 64 bits. */
  function ParseAmount(input: string, decimals: byte): Result<u64, AmountError> {
    if decimals > MAX_DECIMALS then Err(PrecisionTooHigh)
    else if input == [] || input[0] == '-' || input[0] == '+' then Err(Malformed)
    else
      var (whole, fractional) := SplitPoint(input);
      if whole == [] || !AllDigits(whole) || !AllDigits(fractional) || |fractional| > decimals then Err(Malformed)
      else
        Pow10Fits(decimals);
        var scale: u64 := Pow10(decimals);
        var units := ParseU64(whole);
        var fraction := if fractional == [] then Some(0) else ParseU64(fractional);
        Pow10Fits(decimals - |fractional|);
        if units.None? || fraction.None? then Err(Overflow)
        else Combine(units.value, scale, fraction.value, Pow10(decimals - |fractional|))
  }

  function Combine(units: u64, scale: u64, fraction: u64, shift: u64): Result<u64, AmountError> {
    var scaled := CheckedMul(units, scale);
    var shifted := CheckedMul(fraction, shift);
    if scaled.None? || shifted.None? then Err(Overflow)
    else match CheckedAdd(scaled.value, shifted.value)
      case None => Err(Overflow)
      case Some(v) => Ok(v)
  }

  function Zeros(n: nat): (s: string)
    ensures |s| == n && AllDigits(s)
  {
    seq(n, _ => '0')
  }

  /** What an amount means: its digits with the point moved right by `decimals` places, as an unbounded
      number; nothing if it is not digits with at most one point and at most `decimals` places. */
  function Exact(input: string, decimals: nat): Option<nat> {
    var (whole, fractional) := SplitPoint(input);
    if whole == [] || !AllDigits(whole) || !AllDigits(fractional) || |fractional| > decimals then None
    else Some(NumberOf(whole + fractional + Zeros(decimals - |fractional|)))
  }

  // ---------------------------------------------------------------- digits

  lemma {:induction false} Pow10Add(a: nat, b: nat)
    ensures Pow10(a + b) == Pow10(a) * Pow10(b)
  {
    if a > 0 {
      Pow10Add(a - 1, b);
    }
  }

  lemma {:induction false} Pow10Grows(a: nat, b: nat)
    requires a <= b
    ensures 1 <= Pow10(a) <= Pow10(b)
  {
    if a < b {
      Pow10Grows(a, b - 1);
    } else if a > 0 {
      Pow10Grows(a - 1, a - 1);
    }
  }

  // 10^19 is the largest power of ten below 2^64.
  lemma Pow10Fits(n: nat)
    requires n <= MAX_DECIMALS
    ensures Pow10(n) < U64_LIMIT
  {
    Pow10Grows(n, 19);
    assert Pow10(4) == 10_000;
    assert Pow10(8) == 100_000_000 by { Pow10Add(4, 4); }
    assert Pow10(16) == 10_000_000_000_000_000 by { Pow10Add(8, 8); }
    assert Pow10(19) == 10_000_000_000_000_000_000 by { Pow10Add(16, 3); assert Pow10(3) == 1000; }
  }

  // What one more digit, and one more place, do
  lemma OneMoreDigit(a: string, b: string)
    requires AllDigits(a) && AllDigits(b) && b != []
    ensures var front, digit := b[..|b| - 1], b[|b| - 1] as int - '0' as int;
      && NumberOf(a + b) == 10 * NumberOf(a + front) + digit
      && NumberOf(b) == 10 * NumberOf(front) + digit
      && Pow10(|b|) == 10 * Pow10(|front|)
  {
    assert (a + b)[..|a + b| - 1] == a + b[..|b| - 1];
  }

  lemma TenTimes(a: nat, p: nat)
    ensures a * (10 * p) == 10 * (a * p)
  {
  }

  lemma {:induction false} NumberOfAppend(a: string, b: string)
    requires AllDigits(a) && AllDigits(b)
    ensures NumberOf(a + b) == NumberOf(a) * Pow10(|b|) + NumberOf(b)
  {
    hide NumberOf, Pow10;
    if b == [] {
      assert a + b == a;
      NoDigits();
    } else {
      OneMoreDigit(a, b);
      NumberOfAppend(a, b[..|b| - 1]);
      TenTimes(NumberOf(a), Pow10(|b| - 1));
    }
  }

  lemma NoDigits()
    ensures NumberOf([]) == 0 && Pow10(0) == 1
  {
  }

  lemma {:induction false} NumberOfZeros(n: nat)
    ensures NumberOf(Zeros(n)) == 0
  {
    if n > 0 {
      assert Zeros(n)[..n - 1] == Zeros(n - 1);
      NumberOfZeros(n - 1);
    }
  }

  lemma {:induction false} NumberOfBounded(s: string)
    requires AllDigits(s)
    ensures NumberOf(s) < Pow10(|s|)
  {
    if s != [] {
      NumberOfBounded(s[..|s| - 1]);
    }
  }

  // The 64-bit combination fails only when the exact value does not fit.
  lemma CombineIsExact(units: u64, scale: u64, fraction: u64, shift: u64)
    ensures var exact := units * scale + fraction * shift;
      Combine(units, scale, fraction, shift) == if exact < U64_LIMIT then Ok(exact) else Err(Overflow)
  {
    NotNegative(units, scale);
    NotNegative(fraction, shift);
  }

  lemma NotNegative(a: nat, b: nat)
    ensures a * b >= 0
  {
  }

  lemma ExactValue(whole: string, fractional: string, places: nat)
    requires AllDigits(whole) && AllDigits(fractional)
    ensures NumberOf(whole + fractional + Zeros(places))
      == NumberOf(whole) * Pow10(|fractional| + places) + NumberOf(fractional) * Pow10(places)
  {
    hide NumberOf, Pow10;
    NumberOfAppend(whole + fractional, Zeros(places));
    NumberOfAppend(whole, fractional);
    NumberOfZeros(places);
    Pow10Add(|fractional|, places);
    ExactParts(NumberOf(whole), NumberOf(fractional), Pow10(|fractional|), Pow10(places));
  }

  // A run of at most 19 digits always fits 64 bits, and digits are parsed to their number.
  lemma DigitsParse(s: string)
    requires AllDigits(s) && s != []
    ensures ParseU64(s) == if NumberOf(s) < U64_LIMIT then Some(NumberOf(s)) else None
    ensures |s| <= MAX_DECIMALS ==> NumberOf(s) < U64_LIMIT
  {
    hide NumberOf, Pow10;
    NumberOfBounded(s);
    if |s| <= MAX_DECIMALS {
      Pow10Fits(|s|);
    }
  }

  /** Parsing is exact: it succeeds exactly when the precision is at most 19, the amount is well-formed
      and its exact value fits 64 bits, and then it returns that value; no intermediate overflow gets
      in the way. */
  lemma ParsingIsExact(input: string, decimals: byte)
    ensures ParseAmount(input, decimals) ==
      if decimals > MAX_DECIMALS then Err(PrecisionTooHigh)
      else match Exact(input, decimals)
        case None => Err(Malformed)
        case Some(v) => if v < U64_LIMIT then Ok(v) else Err(Overflow)
  {
    hide NumberOf, Pow10, SplitPoint, ParseU64, Combine, AllDigits;
    if decimals <= MAX_DECIMALS {
      SplitOfEmpty();
      var (whole, fractional) := SplitPoint(input);
      SignIsNoDigit(input);
      if Exact(input, decimals).Some? {
        var places := decimals - |fractional|;
        ExactValue(whole, fractional, places);
        Pow10Fits(decimals);
        Pow10Fits(places);
        DigitsParse(whole);
        NoDigits();
        if fractional != [] {
          DigitsParse(fractional);
        }
        Pow10Grows(0, decimals);
        WholeFits(NumberOf(whole), Pow10(decimals));
        NotNegative(NumberOf(fractional), Pow10(places));
        if NumberOf(whole) < U64_LIMIT {
          CombineIsExact(NumberOf(whole), Pow10(decimals), NumberOf(fractional), Pow10(places));
        }
      }
    }
  }

  lemma SplitOfEmpty()
    ensures SplitPoint([]) == ([], [])
  {
  }

  lemma SignIsNoDigit(s: string)
    ensures s != [] && s[0] in {'-', '+'} ==> !AllDigits(SplitPoint(s).0)
  {
    if s != [] && s[0] != '.' {
      assert SplitPoint(s).0[0] == s[0];
    }
  }

  lemma ExactParts(w: nat, f: nat, p: nat, q: nat)
    ensures (w * p + f) * q == w * (p * q) + f * q
  {
  }

  lemma WholeFits(w: nat, scale: nat)
    requires scale >= 1
    ensures w <= w * scale
  {
  }

  // ---------------------------------------------------------------- printing

  function DigitsOf(n: nat): (s: string)
    ensures s != [] && AllDigits(s)
  {
    var last := ('0' as int + n % 10) as char;
    if n < 10 then [last] else DigitsOf(n / 10) + [last]
  }

  function PadLeft(s: string, width: nat): string {
    if |s| >= width then s else Zeros(width - |s|) + s
  }

  function TrimZeros(s: string): string {
    if s != [] && s[|s| - 1] == '0' then TrimZeros(s[..|s| - 1]) else s
  }

  function Quotient(n: nat, scale: nat): nat
    requires scale > 0
  {
    n / scale
  }

  function Remainder(n: nat, scale: nat): (r: nat)
    requires scale > 0
    ensures r < scale
  {
    n % scale
  }

  lemma DivisionAddsUp(n: nat, scale: nat)
    requires scale > 0
    ensures Quotient(n, scale) * scale + Remainder(n, scale) == n
  {
  }

  function FormatAmount(amount: u64, decimals: byte): string {
    if decimals > MAX_DECIMALS then DigitsOf(amount) + " base units (decimals " + DigitsOf(decimals) + ")"
    else if decimals == 0 then DigitsOf(amount)
    else
      Pow10Grows(0, decimals);
      var scale := Pow10(decimals);
      var trimmed := TrimZeros(PadLeft(DigitsOf(Remainder(amount, scale)), decimals));
      if trimmed == [] then DigitsOf(Quotient(amount, scale)) else DigitsOf(Quotient(amount, scale)) + "." + trimmed
  }

  lemma {:induction false} NumberOfDigits(n: nat)
    ensures NumberOf(DigitsOf(n)) == n
  {
    var s := DigitsOf(n);
    if n < 10 {
      assert s[..0] == [];
    } else {
      NumberOfDigits(n / 10);
      assert s[..|s| - 1] == DigitsOf(n / 10);
    }
  }

  lemma {:induction false} DigitsAreShort(n: nat, width: nat)
    requires width > 0 && n < Pow10(width)
    ensures |DigitsOf(n)| <= width
  {
    if n >= 10 {
      assert width > 1;
      DigitsAreShort(n / 10, width - 1);
    }
  }

  lemma {:induction false} TrimmedZeros(s: string)
    requires AllDigits(s)
    ensures |TrimZeros(s)| <= |s| && AllDigits(TrimZeros(s))
    ensures TrimZeros(s) + Zeros(|s| - |TrimZeros(s)|) == s
  {
    if s != [] && s[|s| - 1] == '0' {
      var front := s[..|s| - 1];
      TrimmedZeros(front);
      var n := |s| - |TrimZeros(s)|;
      assert Zeros(n) == Zeros(n - 1) + ['0'];
      assert s == front + ['0'];
      assert TrimZeros(s) + Zeros(n) == (TrimZeros(front) + Zeros(n - 1)) + ['0'];
    } else {
      assert TrimZeros(s) + Zeros(0) == s;
    }
  }

  lemma {:induction false} SplitDigits(whole: string, rest: string)
    requires AllDigits(whole)
    ensures SplitPoint(whole + rest) == (whole + SplitPoint(rest).0, SplitPoint(rest).1)
  {
    if whole == [] {
      assert whole + rest == rest && whole + SplitPoint(rest).0 == SplitPoint(rest).0;
    } else {
      assert (whole + rest)[1..] == whole[1..] + rest;
      SplitDigits(whole[1..], rest);
      assert [whole[0]] + (whole[1..] + SplitPoint(rest).0) == whole + SplitPoint(rest).0;
    }
  }

  // The printed fraction has all its places before it is trimmed.
  lemma FractionDigits(n: nat, width: nat)
    requires width > 0 && n < Pow10(width)
    ensures var s := PadLeft(DigitsOf(n), width); |s| == width && AllDigits(s) && NumberOf(s) == n
  {
    hide NumberOf, DigitsOf, Pow10;
    DigitsAreShort(n, width);
    NumberOfDigits(n);
    var d := DigitsOf(n);
    if |d| < width {
      NumberOfAppend(Zeros(width - |d|), d);
      assert 0 * Pow10(|d|) == 0;
      NumberOfZeros(width - |d|);
    }
  }

  lemma PrintedIsExact(amount: u64, decimals: byte)
    requires decimals <= MAX_DECIMALS
    ensures Exact(FormatAmount(amount, decimals), decimals) == Some(amount)
  {
    hide NumberOf, DigitsOf, TrimZeros, PadLeft, Pow10, Quotient, Remainder, SplitPoint;
    if decimals == 0 {
      var s := DigitsOf(amount);
      NoPoint(s);
      NumberOfDigits(amount);
      assert s + [] + Zeros(0) == s;
    } else {
      Pow10Grows(0, decimals);
      var scale := Pow10(decimals);
      var whole := DigitsOf(Quotient(amount, scale));
      var padded := PadLeft(DigitsOf(Remainder(amount, scale)), decimals);
      var trimmed := TrimZeros(padded);
      FractionDigits(Remainder(amount, scale), decimals);
      TrimmedZeros(padded);
      NumberOfDigits(Quotient(amount, scale));
      NumberOfAppend(whole, padded);
      DivisionAddsUp(amount, scale);
      var zeros := Zeros(decimals - |trimmed|);
      assert whole + trimmed + zeros == whole + padded;
      if trimmed == [] {
        NoPoint(whole);
        assert whole + [] == whole;
      } else {
        PointBetween(whole, trimmed);
      }
    }
  }

  lemma NoPoint(s: string)
    requires AllDigits(s)
    ensures SplitPoint(s) == (s, [])
  {
    SplitDigits(s, []);
    assert s + [] == s;
  }

  lemma PointBetween(whole: string, fraction: string)
    requires AllDigits(whole)
    ensures SplitPoint(whole + "." + fraction) == (whole, fraction)
  {
    SplitDigits(whole, "." + fraction);
    assert whole + "." + fraction == whole + ("." + fraction);
    assert ("." + fraction)[1..] == fraction;
    assert whole + [] == whole;
  }

  /** What an amount means, over its parts: digits, then optionally a point and up to `decimals` more. */
  lemma ExactIff(input: string, decimals: nat, v: nat)
    ensures Exact(input, decimals) == Some(v) <==> exists whole, fraction :: Reads(input, whole, fraction, decimals, v)
  {
    hide NumberOf, Exact, SplitPoint, Zeros, AllDigits;
    var (whole, fraction) := SplitPoint(input);
    SplitIsParts(input);
    ExactOfParts(input, decimals);
    forall a, b | Reads(input, a, b, decimals, v)
      ensures a == whole && b == fraction
    {
      if input == a && b == "" { NoPoint(a); } else { PointBetween(a, b); }
    }
    if Exact(input, decimals) == Some(v) { assert Reads(input, whole, fraction, decimals, v); }
  }

  // `whole` and `fraction` are the digits before and after the point of the text, and `v` is what they make.
  ghost predicate Reads(text: string, whole: string, fraction: string, decimals: nat, v: nat) {
    && (text == whole + "." + fraction || (text == whole && fraction == ""))
    && whole != "" && AllDigits(whole) && AllDigits(fraction) && |fraction| <= decimals
    && v == NumberOf(whole) * Pow10(decimals) + NumberOf(fraction) * Pow10(decimals - |fraction|)
  }

  lemma ExactOfParts(input: string, decimals: nat)
    ensures var (whole, fraction) := SplitPoint(input);
      Exact(input, decimals) ==
        if whole == "" || !AllDigits(whole) || !AllDigits(fraction) || |fraction| > decimals then None
        else Some(NumberOf(whole) * Pow10(decimals) + NumberOf(fraction) * Pow10(decimals - |fraction|))
  {
    hide NumberOf, Pow10, SplitPoint, Zeros;
    var (whole, fraction) := SplitPoint(input);
    if AllDigits(whole) && AllDigits(fraction) && |fraction| <= decimals {
      ExactValue(whole, fraction, decimals - |fraction|);
    }
  }

  lemma {:induction false} SplitIsParts(s: string)
    ensures var (whole, fraction) := SplitPoint(s);
      s == whole + "." + fraction || (s == whole && fraction == "")
  {
    if s != [] && s[0] != '.' {
      SplitIsParts(s[1..]);
      var (whole, fraction) := SplitPoint(s[1..]);
      assert s == [s[0]] + s[1..];
      assert [s[0]] + (whole + "." + fraction) == ([s[0]] + whole) + "." + fraction;
    } else if s != [] {
      assert s == "." + s[1..];
    }
  }

  // Digits without a needless zero: at most one before the point, none at the end behind it
  predicate Shortest(text: string, whole: string, fraction: string, decimals: nat) {
    && text == (if fraction == "" then whole else whole + "." + fraction)
    && AllDigits(whole) && AllDigits(fraction) && |fraction| <= decimals
    && whole != "" && (whole[0] == '0' ==> whole == "0")
    && (fraction != "" ==> fraction[|fraction| - 1] != '0')
  }

  lemma {:induction false} NoLeadingZero(n: nat)
    ensures DigitsOf(n)[0] == '0' ==> DigitsOf(n) == "0"
    ensures n > 0 ==> DigitsOf(n)[0] != '0'
  {
    if n >= 10 { NoLeadingZero(n / 10); }
  }

  lemma {:induction false} NoLastZero(s: string)
    ensures TrimZeros(s) != "" ==> TrimZeros(s)[|TrimZeros(s)| - 1] != '0'
  {
    if s != [] { NoLastZero(s[..|s| - 1]); }
  }

  /** The printed form has no zero or point that could be left out; beyond 19 decimals it is the raw number. */
  lemma PrintedIsShort(amount: u64, decimals: byte)
    ensures decimals <= MAX_DECIMALS ==> exists whole, fraction :: Shortest(FormatAmount(amount, decimals), whole, fraction, decimals)
    ensures decimals > MAX_DECIMALS ==>
      FormatAmount(amount, decimals) == DigitsOf(amount) + " base units (decimals " + DigitsOf(decimals) + ")"
  {
    hide Pow10, Quotient, Remainder, DigitsOf, PadLeft, TrimZeros;
    if decimals == 0 {
      NoLeadingZero(amount);
      assert Shortest(FormatAmount(amount, decimals), DigitsOf(amount), "", decimals);
    } else if decimals <= MAX_DECIMALS {
      Pow10Grows(0, decimals);
      var scale := Pow10(decimals);
      var padded := PadLeft(DigitsOf(Remainder(amount, scale)), decimals);
      FractionDigits(Remainder(amount, scale), decimals);
      TrimmedZeros(padded);
      NoLastZero(padded);
      NoLeadingZero(Quotient(amount, scale));
      assert Shortest(FormatAmount(amount, decimals), DigitsOf(Quotient(amount, scale)), TrimZeros(padded), decimals);
    }
  }

  /** Printing then parsing gives every amount back, at every precision. */
  lemma AmountRoundTrip(amount: u64, decimals: byte)
    requires decimals <= MAX_DECIMALS
    ensures ParseAmount(FormatAmount(amount, decimals), decimals) == Ok(amount)
  {
    PrintedIsExact(amount, decimals);
    ParsingIsExact(FormatAmount(amount, decimals), decimals);
  }
}
