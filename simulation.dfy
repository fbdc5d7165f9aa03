/**
 * The pure computations of server.js: the simulated value of a tick (base
 * times a jitter factor, rounded to two decimals), the two-character code
 * a tick derives from the printed values, and the cron expression for a
 * slot time. Values are integer hundredths; the jitter factor
 * `0.98 + Math.random() * 0.04` is an integer count of 10^-12 units, fine
 * enough that every hundredth within 2% of a base up to fifty million is
 * reachable; larger bases skip some hundredths.
 */
module Simulation {
  import opened Text
  import opened Clock

  const FactorScale := 1000000000000
  const MinFactor := 980000000000
  const MaxFactor := 1020000000000

  /** The fallback bases of `set_value || 10000` and `trade_value || 20000`, in hundredths. */
  const DefaultSetBase := 1000000
  const DefaultTradeBase := 2000000

  /** `parseFloat((base * factor).toFixed(2))`: the product rounded to hundredths, halves upwards. */
  function Simulated(base: int, factor: int): int {
    (base * factor + FactorScale / 2) / FactorScale
  }

  lemma MulMonotonic(b: int, f: int, g: int)
    requires b >= 0 && f <= g
    ensures b * f <= b * g
  {
  }

  /**
   * A simulated value lies within 2% of its base, up to half a hundredth
   * of rounding: 0.98 * base - 0.005 < value <= 1.02 * base + 0.005.
   */
  lemma SimulatedBounds(base: int, factor: int)
    requires base >= 0 && MinFactor <= factor <= MaxFactor
    ensures 98 * base - 50 < 100 * Simulated(base, factor) <= 102 * base + 50
  {
    var q := Simulated(base, factor);
    assert FactorScale * q <= base * factor + FactorScale / 2 < FactorScale * (q + 1);
    MulMonotonic(base, MinFactor, factor);
    MulMonotonic(base, factor, MaxFactor);
  }

  /** With the default bases 10000 and 20000 every tick stays within [0.98, 1.02] of the base, exactly. */
  lemma DefaultBaseBounds(factor: int)
    requires MinFactor <= factor <= MaxFactor
    ensures 980000 <= Simulated(DefaultSetBase, factor) <= 1020000
    ensures 1960000 <= Simulated(DefaultTradeBase, factor) <= 2040000
  {
    SimulatedBounds(DefaultSetBase, factor);
    SimulatedBounds(DefaultTradeBase, factor);
  }

  /**
   * Conversely every value of hundredths within [0.98, 1.02] of a positive
   * base (up to 5e9, a price of fifty million) is the rounded product for
   * some factor in range: the jitter reaches every hundredth, odd ones
   * included.
   */
  lemma SimulatedReachesEveryValue(base: int, v: int)
    requires 0 < base <= FactorScale / 200 && 98 * base <= 100 * v <= 102 * base
    ensures exists factor :: MinFactor <= factor <= MaxFactor && Simulated(base, factor) == v
  {
    var q := v * FactorScale + base - 1;
    var factor := q / base;
    var rem := q % base;
    assert q == base * factor + rem && 0 <= rem < base;
    assert v * FactorScale <= base * factor <= v * FactorScale + base - 1;
    if factor < MinFactor {
      MulMonotonic(base, factor, MinFactor - 1);
    }
    if factor > MaxFactor {
      MulMonotonic(base, MaxFactor + 1, factor);
    }
    var n := base * factor + FactorScale / 2;
    assert v * FactorScale <= n < (v + 1) * FactorScale;
    assert Simulated(base, factor) == v;
  }

  function Abs(h: int): nat {
    if h < 0 then -h else h
  }

  /** The fractional part `Number.prototype.toString` prints: none, or a dot and up to two digits without trailing zeros. */
  function FractionText(f: nat): (s: string)
    requires f < 100
    ensures f == 0 <==> s == ""
    ensures s != "" ==> s[0] == '.' && '.' !in s[1..] && |s| >= 2
  {
    if f == 0 then ""
    else if f % 10 == 0 then "." + [Digit(f / 10)]
    else "." + [Digit(f / 10), Digit(f % 10)]
  }

  /** The sign and digits before the decimal point. */
  function IntegerText(h: int): (s: string)
    ensures |s| >= 1 && '.' !in s
    ensures s[|s| - 1] == Digit((Abs(h) / 100) % 10)
  {
    (if h < 0 then "-" else "") + NatToDecimal(Abs(h) / 100)
  }

  /** `String(h / 100)` for a value of hundredths (values below 1e21, where no exponent is printed). */
  function NumberToString(h: int): string {
    IntegerText(h) + FractionText(Abs(h) % 100)
  }

  /** `value.toString().split('.')`: the integer text, then the fraction digits when there are any. */
  lemma SplitNumber(h: int)
    ensures Abs(h) % 100 == 0 ==> Split(NumberToString(h), '.') == [IntegerText(h)]
    ensures Abs(h) % 100 != 0 ==> Split(NumberToString(h), '.') == [IntegerText(h), FractionText(Abs(h) % 100)[1..]]
  {
    var frac := FractionText(Abs(h) % 100);
    if frac == "" {
      assert NumberToString(h) == IntegerText(h);
      SplitWithoutSeparator(IntegerText(h), '.');
    } else {
      assert NumberToString(h) == IntegerText(h) + ['.'] + frac[1..];
      SplitAtFirstSeparator(IntegerText(h), '.', frac[1..]);
      SplitWithoutSeparator(frac[1..], '.');
    }
  }

  /** `simulatedSet.toString().split('.')[0].slice(-1)`. */
  function FirstDigit(setValue: int): string {
    SliceLast(Split(NumberToString(setValue), '.')[0])
  }

  /** `simulatedTrade.toString().split('.')[1]?.slice(-1) || '0'`. */
  function SecondDigit(tradeValue: int): string {
    var parts := Split(NumberToString(tradeValue), '.');
    var last := if |parts| > 1 then SliceLast(parts[1]) else "";
    if last == "" then "0" else last
  }

  /** The two-character code of a tick. */
  function TickCode(setValue: int, tradeValue: int): string {
    FirstDigit(setValue) + SecondDigit(tradeValue)
  }

  /** The last printed fraction digit: the hundredths digit, or the tenths digit when hundredths are zero, or '0' for a whole number. */
  function LastFractionDigit(f: nat): char
    requires f < 100
  {
    if f == 0 then '0' else if f % 10 == 0 then Digit(f / 10) else Digit(f % 10)
  }

  /** The first character is the units digit of the integer part of the simulated set value. */
  lemma FirstDigitIsUnits(setValue: int)
    ensures FirstDigit(setValue) == [Digit((Abs(setValue) / 100) % 10)]
  {
    SplitNumber(setValue);
    var intText := IntegerText(setValue);
    assert Split(NumberToString(setValue), '.')[0] == intText;
    assert SliceLast(intText) == [intText[|intText| - 1]];
  }

  /** The second character is the last printed fraction digit of the simulated trade value, or '0'. */
  lemma SecondDigitIsLastFraction(tradeValue: int)
    ensures SecondDigit(tradeValue) == [LastFractionDigit(Abs(tradeValue) % 100)]
  {
    SplitNumber(tradeValue);
    var f := Abs(tradeValue) % 100;
    var parts := Split(NumberToString(tradeValue), '.');
    if f != 0 {
      var digits := FractionText(f)[1..];
      assert parts[1] == digits;
      assert SliceLast(digits) == [LastFractionDigit(f)];
    } else {
      assert |parts| == 1;
    }
  }

  /** The code, by arithmetic instead of by printing and splitting. */
  lemma TickCodeDigits(setValue: int, tradeValue: int)
    ensures TickCode(setValue, tradeValue) == [Digit((Abs(setValue) / 100) % 10), LastFractionDigit(Abs(tradeValue) % 100)]
  {
    FirstDigitIsUnits(setValue);
    SecondDigitIsLastFraction(tradeValue);
  }

  /** 12345.00 gives '5' first; 20000.37 gives '7' second, 20000.30 gives '3', 20000.00 gives '0'. */
  lemma TickCodeExamples(a: int, b: int, c: int, d: int)
    requires a == 1234500 && b == 2000037 && c == 2000030 && d == 2000000
    ensures TickCode(a, b) == "57" && TickCode(a, c) == "53" && TickCode(a, d) == "50"
  {
    assert Abs(a) / 100 % 10 == 5 && Digit(5) == '5';
    assert Abs(b) % 100 == 37 && LastFractionDigit(37) == Digit(7) == '7';
    assert Abs(c) % 100 == 30 && LastFractionDigit(30) == Digit(3) == '3';
    assert Abs(d) % 100 == 0 && LastFractionDigit(0) == '0';
    TickCodeDigits(a, b);
    TickCodeDigits(a, c);
    TickCodeDigits(a, d);
  }

  /**
   * `const [hour, minute] = time.split(':')` and the cron expression
   * `${minute} ${hour} * * *`; a missing minute prints as "undefined".
   */
  function CronExpression(time: string): string {
    var parts := Split(time, ':');
    var minute := if |parts| > 1 then parts[1] else "undefined";
    minute + " " + parts[0] + " * * *"
  }

  /** A slot time `HH:MM:SS` gives the daily cron `MM HH * * *`. */
  lemma CronOfSlotTime(t: Time)
    ensures CronExpression(Format(t)) == Pad2(t.minute) + " " + Pad2(t.hour) + " * * *"
  {
    var h, m, s := Pad2(t.hour), Pad2(t.minute), Pad2(t.second);
    assert Format(t) == h + [':'] + (m + [':'] + s);
    SplitAtFirstSeparator(h, ':', m + [':'] + s);
    SplitAtFirstSeparator(m, ':', s);
    SplitWithoutSeparator(s, ':');
  }

  /** The seconds of a slot time are dropped: two slots in the same minute get the same cron. */
  lemma CronIgnoresSeconds(a: Time, b: Time)
    requires a.hour == b.hour && a.minute == b.minute
    ensures CronExpression(Format(a)) == CronExpression(Format(b))
  {
    CronOfSlotTime(a);
    CronOfSlotTime(b);
  }
}
