/** The .NET value types the sales core works with: `System.Guid` and
    `System.DateTime`, with the three-way comparisons their `CompareTo` methods
    perform. */
module SystemTypes {

  type UInt32 = x: int | 0 <= x < 0x1_0000_0000
  /** C# `int`. */
  type Int32 = x: int | -0x8000_0000 <= x < 0x8000_0000
  type UInt16 = x: int | 0 <= x < 0x1_0000
  type Byte = x: int | 0 <= x < 0x100

  /** A `System.Guid`, as its eleven fields in the order `Guid.CompareTo`
      compares them: one 32-bit field, two 16-bit fields and eight bytes, each
      compared as an unsigned number. The first eight hexadecimal digits of
      `ToString("N")` spell the field `a`. */
  datatype Guid = Guid(a: UInt32, b: UInt16, c: UInt16,
                       d: Byte, e: Byte, f: Byte, g: Byte, h: Byte, i: Byte, j: Byte, k: Byte)

  /** `Guid.Empty`, the default value of a `Guid` field. */
  const EmptyGuid: Guid := Guid(0, 0, 0, 0, 0, 0, 0, 0, 0, 0, 0)

  function GuidFields(x: Guid): (r: seq<int>)
    ensures |r| == 11
  {
    [x.a, x.b, x.c, x.d, x.e, x.f, x.g, x.h, x.i, x.j, x.k]
  }

  lemma GuidFieldsInjective(x: Guid, y: Guid)
    ensures GuidFields(x) == GuidFields(y) ==> x == y
  {
    if GuidFields(x) == GuidFields(y) {
      var fx, fy := GuidFields(x), GuidFields(y);
      assert fx[0] == fy[0] && fx[1] == fy[1] && fx[2] == fy[2] && fx[3] == fy[3];
      assert fx[4] == fy[4] && fx[5] == fy[5] && fx[6] == fy[6] && fx[7] == fy[7];
      assert fx[8] == fy[8] && fx[9] == fy[9] && fx[10] == fy[10];
    }
  }

  /** Three-way comparison with the results -1, 0 and 1 that .NET's
      `CompareTo` methods on numbers and `Guid` return. */
  function CompareInt(x: int, y: int): int
  {
    if x < y then -1 else if x > y then 1 else 0
  }

  function CompareReal(x: real, y: real): int
  {
    if x < y then -1 else if x > y then 1 else 0
  }

  /** Lexicographic three-way comparison: the first differing position decides,
      and a proper prefix sorts first. */
  function CompareSeq(xs: seq<int>, ys: seq<int>): int
  {
    if xs == [] && ys == [] then 0
    else if xs == [] then -1
    else if ys == [] then 1
    else if xs[0] != ys[0] then CompareInt(xs[0], ys[0])
    else CompareSeq(xs[1..], ys[1..])
  }

  lemma {:induction false} CompareSeqRange(xs: seq<int>, ys: seq<int>)
    ensures -1 <= CompareSeq(xs, ys) <= 1
  {
    if xs != [] && ys != [] && xs[0] == ys[0] {
      CompareSeqRange(xs[1..], ys[1..]);
    }
  }

  /** Two sequences compare equal exactly when they are equal. */
  lemma {:induction false} CompareSeqZeroIff(xs: seq<int>, ys: seq<int>)
    ensures CompareSeq(xs, ys) == 0 <==> xs == ys
  {
    if xs != [] && ys != [] && xs[0] == ys[0] {
      CompareSeqZeroIff(xs[1..], ys[1..]);
      if xs[1..] == ys[1..] {
        assert xs == [xs[0]] + xs[1..] && ys == [ys[0]] + ys[1..];
      }
    }
  }

  /** Swapping the arguments flips the sign of the comparison. */
  lemma {:induction false} CompareSeqAntisymmetric(xs: seq<int>, ys: seq<int>)
    ensures CompareSeq(xs, ys) == -CompareSeq(ys, xs)
  {
    if xs != [] && ys != [] && xs[0] == ys[0] {
      CompareSeqAntisymmetric(xs[1..], ys[1..]);
    }
  }

  /** "Sorts no later than" is transitive. */
  lemma {:induction false} CompareSeqTransitive(xs: seq<int>, ys: seq<int>, zs: seq<int>)
    requires CompareSeq(xs, ys) <= 0 && CompareSeq(ys, zs) <= 0
    ensures CompareSeq(xs, zs) <= 0
  {
    if xs != [] && ys != [] && zs != [] && xs[0] == ys[0] && ys[0] == zs[0] {
      CompareSeqTransitive(xs[1..], ys[1..], zs[1..]);
    }
  }

  /** `Guid.CompareTo`: field by field, each as an unsigned number. */
  function CompareGuid(x: Guid, y: Guid): (r: int)
    ensures -1 <= r <= 1
  {
    CompareSeqRange(GuidFields(x), GuidFields(y));
    CompareSeq(GuidFields(x), GuidFields(y))
  }

  lemma CompareGuidZeroIff(x: Guid, y: Guid)
    ensures CompareGuid(x, y) == 0 <==> x == y
  {
    CompareSeqZeroIff(GuidFields(x), GuidFields(y));
    GuidFieldsInjective(x, y);
  }

  lemma CompareGuidAntisymmetric(x: Guid, y: Guid)
    ensures CompareGuid(x, y) == -CompareGuid(y, x)
  {
    CompareSeqAntisymmetric(GuidFields(x), GuidFields(y));
  }

  lemma CompareGuidTransitive(x: Guid, y: Guid, z: Guid)
    requires CompareGuid(x, y) <= 0 && CompareGuid(y, z) <= 0
    ensures CompareGuid(x, z) <= 0
  {
    CompareSeqTransitive(GuidFields(x), GuidFields(y), GuidFields(z));
  }

  const TicksPerDay: int := 864_000_000_000

  predicate IsLeapYear(year: int)
  {
    year % 4 == 0 && (year % 100 != 0 || year % 400 == 0)
  }

  function DaysInMonth(year: int, month: int): int
  {
    if month == 2 then (if IsLeapYear(year) then 29 else 28)
    else if month == 4 || month == 6 || month == 9 || month == 11 then 30
    else 31
  }

  /** The calendar fields of a `DateTime`: the date and the 100-nanosecond
      ticks elapsed since midnight. */
  datatype DateTimeFields = DateTimeFields(year: int, month: int, day: int, tickOfDay: int)

  predicate IsDateTime(t: DateTimeFields)
  {
    && 1 <= t.year <= 9999
    && 1 <= t.month <= 12
    && 1 <= t.day <= DaysInMonth(t.year, t.month)
    && 0 <= t.tickOfDay < TicksPerDay
  }

  /** A `System.DateTime`: a Gregorian date in years 1 to 9999 and a time of day. */
  type DateTime = t: DateTimeFields | IsDateTime(t) witness DateTimeFields(1, 1, 1, 0)

  /** `DateTime.MinValue`, the default value of a `DateTime` field. */
  const MinDateTime: DateTime := DateTimeFields(1, 1, 1, 0)

  function DateTimeKey(t: DateTime): seq<int>
  {
    [t.year, t.month, t.day, t.tickOfDay]
  }

  /** `DateTime.CompareTo`: chronological order. */
  function CompareDateTime(x: DateTime, y: DateTime): int
  {
    CompareSeq(DateTimeKey(x), DateTimeKey(y))
  }

  lemma CompareDateTimeZeroIff(x: DateTime, y: DateTime)
    ensures CompareDateTime(x, y) == 0 <==> x == y
  {
    CompareSeqZeroIff(DateTimeKey(x), DateTimeKey(y));
    if DateTimeKey(x) == DateTimeKey(y) {
      assert DateTimeKey(x)[0] == DateTimeKey(y)[0] && DateTimeKey(x)[1] == DateTimeKey(y)[1];
      assert DateTimeKey(x)[2] == DateTimeKey(y)[2] && DateTimeKey(x)[3] == DateTimeKey(y)[3];
    }
  }

  /** `x` comes strictly before `y`: an earlier year, or the same year and an
      earlier month, and so on down to the tick of the day. */
  predicate Earlier(x: DateTime, y: DateTime)
  {
    || x.year < y.year
    || (x.year == y.year && x.month < y.month)
    || (x.year == y.year && x.month == y.month && x.day < y.day)
    || (x.year == y.year && x.month == y.month && x.day == y.day && x.tickOfDay < y.tickOfDay)
  }

  /** The comparison is chronological: -1 exactly when the first date is
      earlier, 1 exactly when it is later. */
  lemma CompareDateTimeChronological(x: DateTime, y: DateTime)
    ensures CompareDateTime(x, y) == -1 <==> Earlier(x, y)
    ensures CompareDateTime(x, y) == 1 <==> Earlier(y, x)
  {
    var kx, ky := DateTimeKey(x), DateTimeKey(y);
    var c := CompareDateTime(x, y);
    if x.year != y.year {
      assert c == CompareInt(x.year, y.year);
    } else {
      assert c == CompareSeq([x.month, x.day, x.tickOfDay], [y.month, y.day, y.tickOfDay]) by {
        assert kx[1..] == [x.month, x.day, x.tickOfDay] && ky[1..] == [y.month, y.day, y.tickOfDay];
      }
      if x.month != y.month {
        assert c == CompareInt(x.month, y.month);
      } else {
        assert c == CompareSeq([x.day, x.tickOfDay], [y.day, y.tickOfDay]) by {
          assert [x.month, x.day, x.tickOfDay][1..] == [x.day, x.tickOfDay];
          assert [y.month, y.day, y.tickOfDay][1..] == [y.day, y.tickOfDay];
        }
        if x.day != y.day {
          assert c == CompareInt(x.day, y.day);
        } else {
          assert c == CompareSeq([x.tickOfDay], [y.tickOfDay]) by {
            assert [x.day, x.tickOfDay][1..] == [x.tickOfDay] && [y.day, y.tickOfDay][1..] == [y.tickOfDay];
          }
          if x.tickOfDay == y.tickOfDay {
            assert [x.tickOfDay][1..] == [] && [y.tickOfDay][1..] == [];
            assert c == CompareSeq([], []) == 0;
          }
        }
      }
    }
  }

  /** `x <= y` on `DateTime`. */
  predicate NotLaterThan(x: DateTime, y: DateTime)
  {
    CompareDateTime(x, y) <= 0
  }
}
