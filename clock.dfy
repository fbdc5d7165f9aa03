/**
 * Times of day as the database returns them for a `TIME` column and as
 * `new Date().toTimeString().split(' ')[0]` prints the current time: a
 * zero-padded `HH:MM:SS` string. The strict comparison `lottery_time > ?`
 * is taken on these values; the lemma LexOrderAgrees shows that comparing
 * the printed strings character by character gives the same order as
 * comparing the seconds since midnight.
 */
module Clock {
  import opened Text

  datatype TimeOfDay = TimeOfDay(hour: nat, minute: nat, second: nat)

  /** A valid time of day, 00:00:00 to 23:59:59. */
  type Time = t: TimeOfDay | t.hour < 24 && t.minute < 60 && t.second < 60
    witness TimeOfDay(0, 0, 0)

  const SecondsPerDay := 86400

  /** Seconds since midnight: the order in which times of day follow each other. */
  function Seconds(t: Time): (n: nat)
    ensures n < SecondsPerDay
  {
    t.hour * 3600 + t.minute * 60 + t.second
  }

  /** Two digits with a leading zero, for values below 100. */
  function Pad2(n: nat): (s: string)
    requires n < 100
    ensures |s| == 2 && ':' !in s && ' ' !in s
  {
    [Digit(n / 10), Digit(n % 10)]
  }

  /** The `HH:MM:SS` text of a time. */
  function Format(t: Time): (s: string)
    ensures |s| == 8 && s[2] == ':' && s[5] == ':'
  {
    Pad2(t.hour) + ":" + Pad2(t.minute) + ":" + Pad2(t.second)
  }

  /** String comparison `a < b` (by character code, a proper prefix first). */
  predicate LexLess(a: string, b: string)
  {
    if |b| == 0 then false
    else if |a| == 0 then true
    else if a[0] != b[0] then a[0] < b[0]
    else LexLess(a[1..], b[1..])
  }

  /** Comparing two concatenations whose first parts have equal length. */
  lemma {:induction false} LexLessConcat(a1: string, a2: string, b1: string, b2: string)
    requires |a1| == |b1|
    ensures LexLess(a1 + a2, b1 + b2) <==> LexLess(a1, b1) || (a1 == b1 && LexLess(a2, b2))
  {
    if |a1| == 0 {
      assert a1 + a2 == a2 && b1 + b2 == b2;
    } else {
      assert (a1 + a2)[0] == a1[0] && (b1 + b2)[0] == b1[0];
      assert (a1 + a2)[1..] == a1[1..] + a2 && (b1 + b2)[1..] == b1[1..] + b2;
      LexLessConcat(a1[1..], a2, b1[1..], b2);
      if a1[0] == b1[0] {
        assert a1 == b1 <==> a1[1..] == b1[1..] by {
          assert a1 == [a1[0]] + a1[1..] && b1 == [b1[0]] + b1[1..];
        }
      }
    }
  }

  /** Two-digit texts compare as their numbers do, and are equal only for equal numbers. */
  lemma Pad2Order(x: nat, y: nat)
    requires x < 100 && y < 100
    ensures LexLess(Pad2(x), Pad2(y)) <==> x < y
    ensures Pad2(x) == Pad2(y) <==> x == y
  {
    DigitOrder(x / 10, y / 10);
    DigitOrder(x % 10, y % 10);
    var lx, ly := [Digit(x % 10)], [Digit(y % 10)];
    assert Pad2(x)[1..] == lx && Pad2(y)[1..] == ly;
    assert lx[1..] == [] && ly[1..] == [];
    assert !LexLess(lx[1..], ly[1..]);
    assert LexLess(lx, ly) <==> x % 10 < y % 10;
    assert x == 10 * (x / 10) + x % 10 && y == 10 * (y / 10) + y % 10;
    assert LexLess(Pad2(x), Pad2(y)) <==> x / 10 < y / 10 || (x / 10 == y / 10 && x % 10 < y % 10);
    if Pad2(x) == Pad2(y) {
      assert Pad2(x)[0] == Pad2(y)[0] && Pad2(x)[1] == Pad2(y)[1];
    }
  }

  /** Ordering by hour, then minute, then second is ordering by seconds since midnight. */
  lemma FieldOrder(a: Time, b: Time)
    ensures Seconds(a) < Seconds(b) <==>
      a.hour < b.hour || (a.hour == b.hour && (a.minute < b.minute || (a.minute == b.minute && a.second < b.second)))
  {
  }

  /**
   * Zero-padded `HH:MM:SS` strings compare (as strings) exactly as the times
   * they print compare, so the source's text comparison with the current time
   * is a comparison of times of day.
   */
  lemma LexOrderAgrees(a: Time, b: Time)
    ensures LexLess(Format(a), Format(b)) <==> Seconds(a) < Seconds(b)
  {
    var ta := ":" + Pad2(a.minute) + ":" + Pad2(a.second);
    var tb := ":" + Pad2(b.minute) + ":" + Pad2(b.second);
    assert Format(a) == Pad2(a.hour) + ta && Format(b) == Pad2(b.hour) + tb;
    LexLessConcat(Pad2(a.hour), ta, Pad2(b.hour), tb);
    Pad2Order(a.hour, b.hour);
    var ma := Pad2(a.minute) + ":" + Pad2(a.second);
    var mb := Pad2(b.minute) + ":" + Pad2(b.second);
    assert ta == ":" + ma && tb == ":" + mb;
    LexLessConcat(":", ma, ":", mb);
    assert !LexLess(":", ":");
    var sa := ":" + Pad2(a.second);
    var sb := ":" + Pad2(b.second);
    assert ma == Pad2(a.minute) + sa && mb == Pad2(b.minute) + sb;
    LexLessConcat(Pad2(a.minute), sa, Pad2(b.minute), sb);
    Pad2Order(a.minute, b.minute);
    LexLessConcat(":", Pad2(a.second), ":", Pad2(b.second));
    Pad2Order(a.second, b.second);
    FieldOrder(a, b);
  }

  /** Printing is injective: equal texts are equal times. */
  lemma FormatInjective(a: Time, b: Time)
    requires Format(a) == Format(b)
    ensures a == b
  {
    var fa, fb := Format(a), Format(b);
    assert fa[0..2] == Pad2(a.hour) && fb[0..2] == Pad2(b.hour);
    assert fa[3..5] == Pad2(a.minute) && fb[3..5] == Pad2(b.minute);
    assert fa[6..8] == Pad2(a.second) && fb[6..8] == Pad2(b.second);
    Pad2Order(a.hour, b.hour);
    Pad2Order(a.minute, b.minute);
    Pad2Order(a.second, b.second);
  }
}
