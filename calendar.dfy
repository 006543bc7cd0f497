/** Calendar arithmetic of `src/utils/helper.ts`: the custom week numbering in
    which week 1 starts on 1 January (not ISO 8601), the "last completed week"
    rollover, UTC calendar days of millisecond timestamps, and the textual date
    keys (`YYYY-MM-DD`, `YYYY-Www`, `YYYY-MM`) that label every series entry. */
module Calendar {
  import opened Common

  datatype Date = Date(year: int, month: int, day: int)

  predicate IsLeapYear(y: int)
  {
    (y % 4 == 0 && y % 100 != 0) || y % 400 == 0
  }

  function DaysInYear(y: int): int
  {
    if IsLeapYear(y) then 366 else 365
  }

  function DaysInMonth(y: int, m: int): int
    requires 1 <= m <= 12
  {
    if m == 2 then (if IsLeapYear(y) then 29 else 28)
    else if m == 4 || m == 6 || m == 9 || m == 11 then 30
    else 31
  }

  /** Days of year `y` before the first of month `m` (`m == 13` gives the whole year). */
  function DaysBeforeMonth(y: int, m: int): int
    requires 1 <= m <= 13
  {
    var common := [0, 31, 59, 90, 120, 151, 181, 212, 243, 273, 304, 334, 365];
    common[m - 1] + (if IsLeapYear(y) && m > 2 then 1 else 0)
  }

  lemma MonthsTileYear(y: int, m: int)
    requires 1 <= m <= 12
    ensures DaysBeforeMonth(y, m + 1) == DaysBeforeMonth(y, m) + DaysInMonth(y, m)
    ensures DaysBeforeMonth(y, 1) == 0 && DaysBeforeMonth(y, 13) == DaysInYear(y)
  {
  }

  predicate ValidDate(d: Date)
  {
    1 <= d.month <= 12 && 1 <= d.day <= DaysInMonth(d.year, d.month)
  }

  /** The 1-based day of the year, what `getWeekNumber` derives from the
      difference between the date and 1 January. */
  function DayOfYear(d: Date): (doy: int)
    requires ValidDate(d)
    ensures 1 <= doy <= DaysInYear(d.year)
  {
    MonthsTileYear(d.year, d.month);
    DaysBeforeMonth(d.year, d.month) + d.day
  }

  /** `Math.ceil(n / 7)` for a positive integer `n`. */
  function CeilDiv7(n: int): int
    requires n >= 1
  {
    (n + 6) / 7
  }

  /** getWeekNumber, on the day of the year it computes from the date. */
  function WeekNumber(year: int, dayOfYear: int): int
    requires 1 <= dayOfYear <= DaysInYear(year)
  {
    var weekNumber := CeilDiv7(dayOfYear);
    var completeWeeks := DaysInYear(year) / 7;
    var excessDays := DaysInYear(year) % 7;
    if excessDays > 0 && dayOfYear > completeWeeks * 7 then 53 else weekNumber
  }

  function WeekOfDate(d: Date): int
    requires ValidDate(d)
  {
    WeekNumber(d.year, DayOfYear(d))
  }

  /** getWeeksInYear */
  function WeeksInYear(year: int): int
  {
    var completeWeeks := DaysInYear(year) / 7;
    var excessDays := DaysInYear(year) % 7;
    if excessDays > 0 then completeWeeks + 1 else completeWeeks
  }

  /** Week w holds exactly the days 7(w-1)+1 .. 7w of the year, clipped to the
      year: the fold into week 53 never changes the plain ceiling. */
  lemma WeekNumberIsCeiling(year: int, dayOfYear: int)
    requires 1 <= dayOfYear <= DaysInYear(year)
    ensures var w := WeekNumber(year, dayOfYear);
      1 <= w <= 53 && 7 * (w - 1) < dayOfYear <= 7 * w
    ensures dayOfYear >= 365 ==> WeekNumber(year, dayOfYear) == 53
  {
  }

  /** Every year has 53 weeks, and that is the week number of its last day and
      an upper bound for the week number of each of its days. */
  lemma WeeksInYearIsLastWeek(year: int)
    ensures WeeksInYear(year) == 53
    ensures WeekNumber(year, DaysInYear(year)) == WeeksInYear(year)
    ensures forall doy :: 1 <= doy <= DaysInYear(year) ==> WeekNumber(year, doy) <= WeeksInYear(year)
  {
    forall doy | 1 <= doy <= DaysInYear(year)
      ensures WeekNumber(year, doy) <= WeeksInYear(year)
    {
      WeekNumberIsCeiling(year, doy);
    }
  }

  /** getLastCompletedWeek, given today's date (the source reads the clock). */
  function LastCompletedWeek(today: Date): (r: (int, int))
    requires ValidDate(today)
    ensures r.1 >= 1
    ensures WeekOfDate(today) == 1 ==> r == (today.year - 1, WeeksInYear(today.year - 1))
    ensures WeekOfDate(today) != 1 ==> r == (today.year, WeekOfDate(today) - 1)
  {
    var currentWeek := WeekOfDate(today);
    WeekNumberIsCeiling(today.year, DayOfYear(today));
    if currentWeek == 1 then
      WeeksInYearIsLastWeek(today.year - 1);
      (today.year - 1, WeeksInYear(today.year - 1))
    else (today.year, currentWeek - 1)
  }

  /** The last completed week is the week that contains the day seven days
      before today, in that day's year. */
  lemma LastCompletedWeekIsWeekBefore(today: Date)
    requires ValidDate(today) && DayOfYear(today) > 7
    ensures LastCompletedWeek(today) == (today.year, WeekNumber(today.year, DayOfYear(today) - 7))
  {
    var doy := DayOfYear(today);
    WeekNumberIsCeiling(today.year, doy);
    WeekNumberIsCeiling(today.year, doy - 7);
  }

  // ----- Days since 1970-01-01 -----

  /** Days from 1970-01-01 to 1 January of `y`. */
  function DaysBeforeYear(y: int): int
    decreases if y >= 1970 then y - 1970 else 1970 - y
  {
    if y == 1970 then 0
    else if y > 1970 then DaysBeforeYear(y - 1) + DaysInYear(y - 1)
    else DaysBeforeYear(y + 1) - DaysInYear(y)
  }

  lemma YearStep(y: int)
    ensures DaysBeforeYear(y + 1) == DaysBeforeYear(y) + DaysInYear(y)
  {
  }

  function EpochDay(d: Date): int
    requires ValidDate(d)
  {
    DaysBeforeYear(d.year) + DayOfYear(d) - 1
  }

  /** The year holding the day `offset` days after 1 January of `y`, and the
      0-based day of that year. */
  function LocateYear(offset: int, y: int): (r: (int, int))
    ensures 0 <= r.1 < DaysInYear(r.0)
    ensures DaysBeforeYear(r.0) + r.1 == DaysBeforeYear(y) + offset
    decreases if offset < 0 then 400 - offset else offset
  {
    if offset < 0 then
      YearStep(y - 1);
      LocateYear(offset + DaysInYear(y - 1), y - 1)
    else if offset >= DaysInYear(y) then
      YearStep(y);
      LocateYear(offset - DaysInYear(y), y + 1)
    else (y, offset)
  }

  function LocateMonth(y: int, day0: int, m: int): (month: int)
    requires 1 <= m <= 12 && DaysBeforeMonth(y, m) <= day0 < DaysInYear(y)
    ensures m <= month <= 12
    ensures DaysBeforeMonth(y, month) <= day0 < DaysBeforeMonth(y, month + 1)
    decreases 12 - m
  {
    MonthsTileYear(y, m);
    if day0 < DaysBeforeMonth(y, m + 1) then m else LocateMonth(y, day0, m + 1)
  }

  /** The calendar date of a day number (proleptic Gregorian, UTC). */
  function DateOfEpochDay(n: int): (d: Date)
    ensures ValidDate(d) && EpochDay(d) == n
  {
    var (y, day0) := LocateYear(n, 1970);
    var m := LocateMonth(y, day0, 1);
    MonthsTileYear(y, m);
    Date(y, m, day0 - DaysBeforeMonth(y, m) + 1)
  }

  const MsPerDay: int := 86400000

  /** The UTC calendar day of a millisecond timestamp (`new Date(ms)`, the day
      `toISOString` prints). Euclidean division floors, as the Date object does. */
  function DateOfMs(ms: int): (d: Date)
    ensures ValidDate(d)
    ensures EpochDay(d) * MsPerDay <= ms < (EpochDay(d) + 1) * MsPerDay
  {
    DateOfEpochDay(ms / MsPerDay)
  }

  // ----- Date keys -----

  /** The `date` string of a series entry. `InvalidKey` is the text
      `"NaN-WNaN"` (weekly) or `"NaN-NaN"` (monthly) that grouping produces for
      a key no date parser accepts. */
  datatype DateKey =
    | DayKey(date: Date)
    | WeekKey(year: int, week: int)
    | MonthKey(year: int, month: int)
    | InvalidKey(weekly: bool)

  /** The decimal digits of a natural number. */
  function NatText(n: nat): (s: string)
    ensures |s| >= 1
    ensures forall i :: 0 <= i < |s| ==> '0' <= s[i] <= '9'
  {
    var digit := ['0' + (n % 10) as char];
    if n < 10 then digit else NatText(n / 10) + digit
  }

  /** `${n}` for an integer. */
  function IntText(n: int): string
  {
    if n < 0 then "-" + NatText(-n) else NatText(n)
  }

  /** `s.padStart(width, '0')` */
  function PadStart(s: string, width: nat): (r: string)
    ensures |r| == if |s| >= width then |s| else width
    ensures r[|r| - |s|..] == s
    ensures forall i :: 0 <= i < |r| - |s| ==> r[i] == '0'
  {
    if |s| >= width then s
    else
      var zeros := seq(width - |s|, _ => '0');
      assert (zeros + s)[width - |s|..] == s;
      zeros + s
  }

  /** The year as `toISOString` prints it: four digits, or a sign and six. */
  function IsoYearText(y: int): string
  {
    if 0 <= y <= 9999 then PadStart(NatText(y), 4)
    else if y > 9999 then "+" + PadStart(NatText(y), 6)
    else "-" + PadStart(NatText(-y), 6)
  }

  function Pad2(n: int): string
  {
    if n < 0 then "-" + NatText(-n) else PadStart(NatText(n), 2)
  }

  function KeyText(k: DateKey): string
  {
    match k
    case DayKey(d) => IsoYearText(d.year) + "-" + Pad2(d.month) + "-" + Pad2(d.day)
    case WeekKey(y, w) => IntText(y) + "-W" + Pad2(w)
    case MonthKey(y, m) => IntText(y) + "-" + Pad2(m)
    case InvalidKey(weekly) => if weekly then "NaN-WNaN" else "NaN-NaN"
  }

  /** Characters a rendered key may contain. */
  predicate KeyChar(c: char)
  {
    '0' <= c <= '9' || c == '-' || c == '+' || c == 'W' || c == 'N' || c == 'a'
  }

  predicate KeyChars(s: string)
  {
    forall i :: 0 <= i < |s| ==> KeyChar(s[i])
  }

  lemma ConcatKeyChars(a: string, b: string)
    requires KeyChars(a) && KeyChars(b)
    ensures KeyChars(a + b)
  {
    forall i | 0 <= i < |a + b| ensures KeyChar((a + b)[i]) {
      if i >= |a| {
        assert (a + b)[i] == b[i - |a|];
      }
    }
  }

  lemma {:induction false} PadStartChars(s: string, width: nat)
    requires KeyChars(s)
    ensures KeyChars(PadStart(s, width))
  {
    var r := PadStart(s, width);
    forall i | 0 <= i < |r| ensures KeyChar(r[i]) {
      if i >= |r| - |s| {
        assert r[i] == r[|r| - |s|..][i - (|r| - |s|)];
      }
    }
  }

  lemma PaddedNumberChars(n: int)
    ensures KeyChars(IntText(n)) && KeyChars(Pad2(n))
    ensures n >= 0 ==> KeyChars(PadStart(NatText(n), 4)) && KeyChars(PadStart(NatText(n), 6))
  {
    if n < 0 {
      ConcatKeyChars("-", NatText(-n));
    } else {
      PadStartChars(NatText(n), 2);
      PadStartChars(NatText(n), 4);
      PadStartChars(NatText(n), 6);
    }
  }

  lemma IsoYearChars(y: int)
    ensures KeyChars(IsoYearText(y))
  {
    if 0 <= y <= 9999 {
      PadStartChars(NatText(y), 4);
    } else if y > 9999 {
      PadStartChars(NatText(y), 6);
      ConcatKeyChars("+", PadStart(NatText(y), 6));
    } else {
      PadStartChars(NatText(-y), 6);
      ConcatKeyChars("-", PadStart(NatText(-y), 6));
    }
  }

  lemma Join3KeyChars(a: string, sep: string, b: string)
    requires KeyChars(a) && KeyChars(sep) && KeyChars(b)
    ensures KeyChars(a + sep + b)
  {
    ConcatKeyChars(a, sep);
    ConcatKeyChars(a + sep, b);
  }

  /** Every rendered key is made of digits, signs, `W` and the letters of
      `NaN`: in particular it holds no comma and no line break. */
  lemma KeyTextChars(k: DateKey)
    ensures KeyChars(KeyText(k))
  {
    match k
    case DayKey(d) =>
      IsoYearChars(d.year);
      PaddedNumberChars(d.month);
      PaddedNumberChars(d.day);
      var ym := IsoYearText(d.year) + "-" + Pad2(d.month);
      Join3KeyChars(IsoYearText(d.year), "-", Pad2(d.month));
      Join3KeyChars(ym, "-", Pad2(d.day));
    case WeekKey(y, w) =>
      PaddedNumberChars(y);
      PaddedNumberChars(w);
      Join3KeyChars(IntText(y), "-W", Pad2(w));
    case MonthKey(y, m) =>
      PaddedNumberChars(y);
      PaddedNumberChars(m);
      Join3KeyChars(IntText(y), "-", Pad2(m));
    case InvalidKey(weekly) =>
  }
}
