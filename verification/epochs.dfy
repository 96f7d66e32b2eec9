/** Broadcast epochs (Python datetime values) and filename dates, as integer tuples. */
module Epochs {
  import opened Wrappers

  /** One datetime: the fields datetime(year, month, day, hour, minute, second, microsecond) takes. */
  datatype Epoch = Epoch(year: int, month: int, day: int, hour: int, minute: int, second: int, micro: int)

  predicate IsLeap(y: int) { y % 4 == 0 && (y % 100 != 0 || y % 400 == 0) }

  function DaysInMonth(y: int, m: int): (n: int)
    requires 1 <= m <= 12
    ensures 28 <= n <= 31
  {
    if m == 2 then (if IsLeap(y) then 29 else 28)
    else if m == 4 || m == 6 || m == 9 || m == 11 then 30
    else 31
  }

  function DaysInYear(y: int): int { if IsLeap(y) then 366 else 365 }

  /** The arguments datetime() accepts without raising ValueError. */
  predicate Valid(e: Epoch) {
    && 1 <= e.year <= 9999
    && 1 <= e.month <= 12
    && 1 <= e.day <= DaysInMonth(e.year, e.month)
    && 0 <= e.hour < 24
    && 0 <= e.minute < 60
    && 0 <= e.second < 60
    && 0 <= e.micro < 1000000
  }

  /** A datetime value: Python refuses to build an invalid one. */
  type DateTime = e: Epoch | Valid(e) witness Epoch(1, 1, 1, 0, 0, 0, 0)

  /** The number of days of year `y` before the first day of month `m`. */
  function DaysBefore(y: int, m: int): (n: int)
    requires 1 <= m <= 13
    ensures 0 <= n <= 31 * (m - 1)
    decreases m
  {
    if m == 1 then 0 else DaysBefore(y, m - 1) + DaysInMonth(y, m - 1)
  }

  /** `%j` of a valid epoch. */
  function DayOfYear(e: Epoch): (d: int)
    requires Valid(e)
  {
    DaysBefore(e.year, e.month) + e.day
  }

  lemma {:induction false} DaysBeforeYear(y: int, m: int)
    requires 1 <= m <= 13
    ensures DaysBefore(y, m) <= DaysInYear(y)
    ensures m == 13 ==> DaysBefore(y, m) == DaysInYear(y)
    decreases 13 - m
  {
    if m < 13 { DaysBeforeYear(y, m + 1); }
    else {
      assert DaysBefore(y, 13) == 31 + DaysInMonth(y, 2) + 31 + 30 + 31 + 30 + 31 + 31 + 30 + 31 + 30 + 31;
    }
  }

  /** The day of the year of a valid epoch is a day of that year. */
  lemma DayOfYearRange(e: Epoch)
    requires Valid(e)
    ensures 1 <= DayOfYear(e) <= DaysInYear(e.year)
  {
    DaysBeforeYear(e.year, e.month + 1);
  }

  /** `a < b` on datetimes: field by field, most significant first. */
  predicate Before(a: Epoch, b: Epoch) {
    if a.year != b.year then a.year < b.year
    else if a.month != b.month then a.month < b.month
    else if a.day != b.day then a.day < b.day
    else if a.hour != b.hour then a.hour < b.hour
    else if a.minute != b.minute then a.minute < b.minute
    else if a.second != b.second then a.second < b.second
    else a.micro < b.micro
  }

  lemma BeforeTotal(a: Epoch, b: Epoch)
    ensures a == b || Before(a, b) || Before(b, a)
    ensures !(Before(a, b) && Before(b, a))
    ensures !Before(a, a)
  {
  }

  lemma BeforeTransitive(a: Epoch, b: Epoch, c: Epoch)
    requires Before(a, b) && Before(b, c)
    ensures Before(a, c)
  {
  }

  /** The date a navigation file's name announces: a year and a day of that year. */
  datatype FileDate = FileDate(year: int, doy: int)

  /** `datetime.strptime(year + days, fmt)` once the digits are read: `%j` accepts 1 to 366,
      and day 366 of a common year rolls over to the first of January of the next. */
  function StrpDate(year: int, doy: int): (r: Result<FileDate>)
    ensures r.Ok? ==> 1 <= r.value.year <= 9999 && 1 <= r.value.doy <= DaysInYear(r.value.year)
    ensures r.Ok? <==> 1 <= year <= 9999 && 1 <= doy <= 366 && !(year == 9999 && doy == 366)
    ensures r.Ok? && doy <= DaysInYear(year) ==> r.value == FileDate(year, doy)
    ensures r.Ok? && doy > DaysInYear(year) ==> r.value == FileDate(year + 1, 1)
  {
    if doy < 1 || doy > 366 || year < 1 || year > 9999 then Err(ValueError)
    else if doy == 366 && !IsLeap(year) then
      (if year == 9999 then Err(ValueError) else Ok(FileDate(year + 1, 1)))
    else Ok(FileDate(year, doy))
  }

  /** `strftime('%y%j')` of an epoch, as the pair it spells. */
  function EpochYearDay(e: DateTime): (int, int)
  {
    (e.year % 100, DayOfYear(e))
  }

  /** `strftime('%y%j')` of a filename date. */
  function FileYearDay(d: FileDate): (int, int)
  {
    (d.year % 100, d.doy)
  }

  predicate StrictlyIncreasing(s: seq<DateTime>) {
    forall i, j :: 0 <= i < j < |s| ==> Before(s[i], s[j])
  }

  /** `x` put into its place in a strictly increasing list, unless it is already there. */
  function InsertSorted(x: DateTime, s: seq<DateTime>): (r: seq<DateTime>)
    requires StrictlyIncreasing(s)
    ensures StrictlyIncreasing(r)
    ensures forall y :: y in r <==> y == x || y in s
  {
    if s == [] then [x]
    else if x == s[0] then s
    else if Before(x, s[0]) then
      assert forall j :: 0 < j < |s| ==> Before(x, s[j]) by {
        forall j | 0 < j < |s| ensures Before(x, s[j]) { BeforeTransitive(x, s[0], s[j]); }
      }
      [x] + s
    else
      BeforeTotal(x, s[0]);
      var rest := InsertSorted(x, s[1..]);
      assert forall y :: y in rest ==> Before(s[0], y);
      [s[0]] + rest
  }

  /** `np.unique` of a list of datetimes: sorted ascending, each value once. */
  function Unique(s: seq<DateTime>): (u: seq<DateTime>)
    ensures StrictlyIncreasing(u)
    ensures forall y :: y in u <==> y in s
  {
    if s == [] then [] else InsertSorted(s[|s| - 1], Unique(s[..|s| - 1]))
  }
}
