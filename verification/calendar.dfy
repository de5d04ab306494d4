/** Calendar dates as the services see them: what `new Date("YYYY-MM-DD")`
    denotes (a UTC midnight, so a day number), and what
    `toISOString().split('T')[0]` prints back. Time zones are idealised to UTC. */
module Calendar {
  import opened Wrappers
  import opened Text

  datatype Date = Date(year: int, month: int, day: int)

  predicate IsLeapYear(y: int) {
    y % 4 == 0 && (y % 100 != 0 || y % 400 == 0)
  }

  function YearLength(y: int): int {
    if IsLeapYear(y) then 366 else 365
  }

  function DaysInMonth(y: int, m: int): int
    requires 1 <= m <= 12
  {
    if m == 2 then (if IsLeapYear(y) then 29 else 28)
    else if m == 4 || m == 6 || m == 9 || m == 11 then 30
    else 31
  }

  /** A real day of the proleptic Gregorian calendar, from year 0 on. */
  predicate IsCalendarDate(d: Date) {
    0 <= d.year && 1 <= d.month <= 12 && 1 <= d.day <= DaysInMonth(d.year, d.month)
  }

  /** Days from 0000-01-01 to the first day of year `y`. */
  function DaysBeforeYear(y: nat): nat {
    if y == 0 then 0 else DaysBeforeYear(y - 1) + YearLength(y - 1)
  }

  /** Days from the first day of year `y` to the first day of month `m`. */
  function DaysBeforeMonth(y: int, m: int): nat
    requires 1 <= m <= 12
  {
    var leap := if m > 2 && IsLeapYear(y) then 1 else 0;
    [0, 31, 59, 90, 120, 151, 181, 212, 243, 273, 304, 334][m - 1] + leap
  }

  /** The day number (days since 0000-01-01) of year `y`, month `m`, day `d`;
      like JavaScript's Date arithmetic, `d` may run past the month's end. */
  function DayNumber(y: nat, m: int, d: int): int
    requires 1 <= m <= 12
  {
    DaysBeforeYear(y) + DaysBeforeMonth(y, m) + d - 1
  }

  function Ordinal(d: Date): int
    requires IsCalendarDate(d)
  {
    DayNumber(d.year, d.month, d.day)
  }

  /** Milliseconds in a day of UTC time. */
  const MsPerDay: nat := 1000 * 60 * 60 * 24

  /** `setDate(getDate() + 1)`: the following calendar day, one day number on. */
  function NextDay(d: Date): (n: Date)
    requires IsCalendarDate(d)
    ensures IsCalendarDate(n) && Ordinal(n) == Ordinal(d) + 1
  {
    if d.day < DaysInMonth(d.year, d.month) then Date(d.year, d.month, d.day + 1)
    else if d.month < 12 then Date(d.year, d.month + 1, 1)
    else Date(d.year + 1, 1, 1)
  }

  /** V8 accepts a day of 1..31 for any month and rolls the overflow into the
      next month ("2023-02-30" is 2023-03-02). */
  function Normalize(y: nat, m: int, d: int): (r: Date)
    requires 1 <= m <= 12 && 1 <= d <= 31
    ensures IsCalendarDate(r) && r.year == y && Ordinal(r) == DayNumber(y, m, d)
    ensures 1 <= d <= DaysInMonth(y, m) ==> r == Date(y, m, d)
  {
    if d <= DaysInMonth(y, m) then Date(y, m, d)
    else Date(y, m + 1, d - DaysInMonth(y, m))
  }

  lemma {:induction false} DaysBeforeYearMonotone(a: nat, b: nat)
    requires a <= b
    ensures DaysBeforeYear(a) + 365 * (b - a) <= DaysBeforeYear(b)
    decreases b - a
  {
    if a < b {
      DaysBeforeYearMonotone(a, b - 1);
    }
  }

  /** Day numbers order dates by year first: a date no later than `b` is in
      `b`'s year or an earlier one. */
  lemma OrdinalYearBound(a: Date, b: Date)
    requires IsCalendarDate(a) && IsCalendarDate(b) && Ordinal(a) <= Ordinal(b)
    ensures a.year <= b.year
  {
    if a.year > b.year {
      DaysBeforeYearMonotone(b.year + 1, a.year);
      assert false;
    }
  }

  // ---------------------------------------------------------------------
  // The "YYYY-MM-DD" form

  /** `/^\d{4}-\d{2}-\d{2}$/`. */
  predicate HasDateShape(s: string) {
    |s| == 10 && s[4] == '-' && s[7] == '-' &&
    forall i :: 0 <= i < 10 && i != 4 && i != 7 ==> IsDigit(s[i])
  }

  /** The date `new Date(s)` holds, or None for Invalid Date. A string of the
      date shape is valid when its month is 1..12 and its day 1..31; other
      strings are taken to be Invalid Date. */
  function ParseDate(s: string): (r: Option<Date>)
    ensures r.Some? ==> HasDateShape(s) && IsCalendarDate(r.value) && r.value.year <= 9999
  {
    if !HasDateShape(s) then None
    else
      assert AllDigits(s[0..4]) && AllDigits(s[5..7]) && AllDigits(s[8..10]);
      var y := DigitsValue(s[0..4]);
      var m := DigitsValue(s[5..7]);
      var d := DigitsValue(s[8..10]);
      Value4(s[0..4]);
      Value2(s[5..7]);
      if 1 <= m <= 12 && 1 <= d <= 31 then Some(Normalize(y, m, d)) else None
  }

  function Pad2(n: nat): (s: string)
    requires n < 100
    ensures |s| == 2 && AllDigits(s)
  {
    [DigitChar(n / 10), DigitChar(n % 10)]
  }

  function Pad4(n: nat): (s: string)
    requires n < 10000
    ensures |s| == 4 && AllDigits(s)
  {
    Pad2(n / 100) + Pad2(n % 100)
  }

  /** `toISOString().split('T')[0]` of a date from year 0 to 9999. */
  function FormatDate(d: Date): (s: string)
    requires IsCalendarDate(d) && d.year <= 9999
    ensures HasDateShape(s)
  {
    Pad4(d.year) + "-" + Pad2(d.month) + "-" + Pad2(d.day)
  }

  lemma Value2(s: string)
    requires |s| == 2 && AllDigits(s)
    ensures DigitsValue(s) == 10 * DigitValue(s[0]) + DigitValue(s[1])
    ensures DigitsValue(s) < 100
  {
    var p1 := s[..1];
    assert p1[..0] == [];
    assert DigitsValue(p1) == DigitValue(s[0]);
  }

  lemma Value4(s: string)
    requires |s| == 4 && AllDigits(s)
    ensures DigitsValue(s) == 100 * DigitsValue(s[..2]) + DigitsValue(s[2..])
    ensures DigitsValue(s) < 10000
  {
    var p3 := s[..3];
    var p2 := p3[..2];
    assert p2 == s[..2];
    Value2(p2);
    Value2(s[2..]);
    assert DigitsValue(p3) == DigitsValue(p2) * 10 + DigitValue(s[2]);
  }

  lemma DivMod100(v: int, q: int, r: int)
    requires v == 100 * q + r && 0 <= r < 100
    ensures v / 100 == q && v % 100 == r
  {
  }

  lemma DivMod10(v: int, q: int, r: int)
    requires v == 10 * q + r && 0 <= r < 10
    ensures v / 10 == q && v % 10 == r
  {
  }

  lemma Pad2Value(n: nat)
    requires n < 100
    ensures DigitsValue(Pad2(n)) == n
  {
    Value2(Pad2(n));
  }

  lemma Pad4Value(n: nat)
    requires n < 10000
    ensures DigitsValue(Pad4(n)) == n
  {
    var s := Pad4(n);
    Value4(s);
    assert s[..2] == Pad2(n / 100) && s[2..] == Pad2(n % 100);
    Pad2Value(n / 100);
    Pad2Value(n % 100);
  }

  lemma Pad2OfValue(s: string)
    requires |s| == 2 && AllDigits(s)
    ensures DigitsValue(s) < 100 && Pad2(DigitsValue(s)) == s
  {
    Value2(s);
    DivMod10(DigitsValue(s), DigitValue(s[0]), DigitValue(s[1]));
  }

  lemma Pad4OfValue(s: string)
    requires |s| == 4 && AllDigits(s)
    ensures DigitsValue(s) < 10000 && Pad4(DigitsValue(s)) == s
  {
    Value4(s);
    Value2(s[..2]);
    Value2(s[2..]);
    DivMod100(DigitsValue(s), DigitsValue(s[..2]), DigitsValue(s[2..]));
    Pad2OfValue(s[..2]);
    Pad2OfValue(s[2..]);
    assert s == s[..2] + s[2..];
  }

  /** Round trip: reading back a printed calendar date gives the date. */
  lemma ParseFormat(d: Date)
    requires IsCalendarDate(d) && d.year <= 9999
    ensures ParseDate(FormatDate(d)) == Some(d)
  {
    var s := FormatDate(d);
    assert s[0..4] == Pad4(d.year);
    assert s[5..7] == Pad2(d.month);
    assert s[8..10] == Pad2(d.day);
    Pad4Value(d.year);
    Pad2Value(d.month);
    Pad2Value(d.day);
  }

  /** Round trip the other way: a valid date string without day overflow
      prints back as itself. */
  lemma FormatParse(s: string)
    requires ParseDate(s).Some?
    requires DigitsValue(s[8..10]) <= DaysInMonth(DigitsValue(s[0..4]), DigitsValue(s[5..7]))
    ensures FormatDate(ParseDate(s).value) == s
  {
    var d := ParseDate(s).value;
    Pad4OfValue(s[0..4]);
    Pad2OfValue(s[5..7]);
    Pad2OfValue(s[8..10]);
    assert d == Date(DigitsValue(s[0..4]), DigitsValue(s[5..7]), DigitsValue(s[8..10]));
    assert s == s[0..4] + "-" + s[5..7] + "-" + s[8..10];
  }
}
