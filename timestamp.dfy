/**
 * The submission time stamp: `datetime.now().strftime("%Y-%m-%d %H:%M:%S")`
 * with the clock reading passed in, and the fact the admin panel's date
 * sort depends on, that comparing two such strings compares the times.
 */
module Timestamp {
  import opened Strings

  /** One reading of the local clock, field by field. */
  datatype Clock = Clock(year: int, month: int, day: int, hour: int, minute: int, second: int)

  /** The ranges Python's `datetime` guarantees for each field. */
  predicate Valid(c: Clock) {
    1 <= c.year <= 9999 && 1 <= c.month <= 12 && 1 <= c.day <= 31 &&
    0 <= c.hour <= 23 && 0 <= c.minute <= 59 && 0 <= c.second <= 59
  }

  /** Chronological order: the clock fields compared from year down to second. */
  predicate Earlier(a: Clock, b: Clock) {
    a.year < b.year || (a.year == b.year &&
    (a.month < b.month || (a.month == b.month &&
    (a.day < b.day || (a.day == b.day &&
    (a.hour < b.hour || (a.hour == b.hour &&
    (a.minute < b.minute || (a.minute == b.minute && a.second < b.second)))))))))
  }

  function Pow10(n: nat): nat {
    if n == 0 then 1 else 10 * Pow10(n - 1)
  }

  function Digit(d: nat): char
    requires d < 10
  {
    ('0' as int + d) as char
  }

  predicate IsDigit(c: char) {
    '0' <= c <= '9'
  }

  /** The last `width` decimal digits of `n`, zero-padded on the left. */
  function Pad(n: nat, width: nat): (s: string)
    ensures |s| == width
    ensures forall i :: 0 <= i < width ==> IsDigit(s[i])
  {
    if width == 0 then [] else Pad(n / 10, width - 1) + [Digit(n % 10)]
  }

  /** The number a string of decimal digits denotes. */
  function Value(s: string): int {
    if s == [] then 0 else 10 * Value(s[..|s| - 1]) + (s[|s| - 1] as int - '0' as int)
  }

  /** Padding loses nothing when the number fits the width. */
  lemma {:induction false} PadValue(n: nat, width: nat)
    requires n < Pow10(width)
    ensures Value(Pad(n, width)) == n
  {
    if width > 0 {
      var s := Pad(n, width);
      assert s[..width - 1] == Pad(n / 10, width - 1);
      PadValue(n / 10, width - 1);
    }
  }

  /** Fixed-width padding compares as the numbers do. */
  lemma {:induction false} PadOrder(n: nat, m: nat, width: nat)
    requires n < Pow10(width) && m < Pow10(width)
    ensures StrLess(Pad(n, width), Pad(m, width)) <==> n < m
    ensures Pad(n, width) == Pad(m, width) <==> n == m
  {
    PadValue(n, width);
    PadValue(m, width);
    if width > 0 {
      PadOrder(n / 10, m / 10, width - 1);
      StrLessAppend(Pad(n / 10, width - 1), [Digit(n % 10)], Pad(m / 10, width - 1), [Digit(m % 10)]);
    }
  }

  /** The `%Y-%m-%d %H:%M:%S` rendering, every field zero-padded. */
  function Format(c: Clock): (s: string)
    requires Valid(c)
    ensures WellFormed(s)
  {
    Pad(c.year, 4) + "-" + Pad(c.month, 2) + "-" + Pad(c.day, 2) + " " +
    Pad(c.hour, 2) + ":" + Pad(c.minute, 2) + ":" + Pad(c.second, 2)
  }

  /** The shape `YYYY-MM-DD HH:MM:SS`. */
  predicate WellFormed(s: string) {
    |s| == 19 &&
    s[4] == '-' && s[7] == '-' && s[10] == ' ' && s[13] == ':' && s[16] == ':' &&
    forall i :: 0 <= i < 19 && i !in {4, 7, 10, 13, 16} ==> IsDigit(s[i])
  }

  /**
   * Two strings of equal length followed by two of equal length compare as
   * the first pair does, and on a tie as the second pair does.
   */
  lemma Peel(x: string, s: string, y: string, t: string)
    requires |x| == |y| && |s| == |t|
    ensures StrLess(x + s, y + t) <==> StrLess(x, y) || (x == y && StrLess(s, t))
    ensures x + s == y + t <==> x == y && s == t
  {
    StrLessAppend(x, s, y, t);
    if x + s == y + t {
      assert x == (x + s)[..|x|] && y == (y + t)[..|y|];
      assert s == (x + s)[|x|..] && t == (y + t)[|y|..];
    }
  }

  /** The `%Y-%m-%d` part of a stamp. */
  function DatePart(c: Clock): string
    requires Valid(c)
  {
    Pad(c.year, 4) + "-" + Pad(c.month, 2) + "-" + Pad(c.day, 2)
  }

  /** The date parts of two stamps compare as the dates do. */
  lemma DateOrder(a: Clock, b: Clock)
    requires Valid(a) && Valid(b)
    ensures |DatePart(a)| == |DatePart(b)|
    ensures StrLess(DatePart(a), DatePart(b)) <==>
      a.year < b.year || (a.year == b.year && (a.month < b.month || (a.month == b.month && a.day < b.day)))
    ensures DatePart(a) == DatePart(b) <==> a.year == b.year && a.month == b.month && a.day == b.day
  {
    PadOrder(a.year, b.year, 4);
    PadOrder(a.month, b.month, 2);
    PadOrder(a.day, b.day, 2);
    var a1, b1 := Pad(a.year, 4) + "-", Pad(b.year, 4) + "-";
    Peel(Pad(a.year, 4), "-", Pad(b.year, 4), "-");
    var a2, b2 := a1 + Pad(a.month, 2), b1 + Pad(b.month, 2);
    Peel(a1, Pad(a.month, 2), b1, Pad(b.month, 2));
    var a3, b3 := a2 + "-", b2 + "-";
    Peel(a2, "-", b2, "-");
    Peel(a3, Pad(a.day, 2), b3, Pad(b.day, 2));
    StrLessIrreflexive("-");
  }

  /**
   * For clock readings in range, comparing the rendered time stamps as
   * Python strings gives chronological order, and equal stamps mean equal
   * readings.
   */
  lemma TimestampOrder(a: Clock, b: Clock)
    requires Valid(a) && Valid(b)
    ensures StrLess(Format(a), Format(b)) <==> Earlier(a, b)
    ensures Format(a) == Format(b) <==> a == b
  {
    DateOrder(a, b);
    PadOrder(a.hour, b.hour, 2);
    PadOrder(a.minute, b.minute, 2);
    PadOrder(a.second, b.second, 2);
    var a5, b5 := DatePart(a) + " ", DatePart(b) + " ";
    Peel(DatePart(a), " ", DatePart(b), " ");
    var a6, b6 := a5 + Pad(a.hour, 2), b5 + Pad(b.hour, 2);
    Peel(a5, Pad(a.hour, 2), b5, Pad(b.hour, 2));
    var a7, b7 := a6 + ":", b6 + ":";
    Peel(a6, ":", b6, ":");
    var a8, b8 := a7 + Pad(a.minute, 2), b7 + Pad(b.minute, 2);
    Peel(a7, Pad(a.minute, 2), b7, Pad(b.minute, 2));
    var a9, b9 := a8 + ":", b8 + ":";
    Peel(a8, ":", b8, ":");
    Peel(a9, Pad(a.second, 2), b9, Pad(b.second, 2));
    StrLessIrreflexive(" ");
    StrLessIrreflexive(":");
  }
}
