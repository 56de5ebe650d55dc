/** The month view of backend/server.py (`get_calendar_data`): one record
    per day of the month, holding the first journal entry, mood and shared
    reflection of that day for the user and the partner. Dates are day
    numbers in the proleptic Gregorian calendar, 0001-01-01 being day 1,
    as Python's `date.toordinal` counts them. */
module MonthCalendar {
  import opened Common
  import opened Records

  // ---------------------------------------------------------------------
  // Day numbers, as Python's `datetime.date` computes them.
  // ---------------------------------------------------------------------

  predicate IsLeap(y: int)
  {
    y % 4 == 0 && (y % 100 != 0 || y % 400 == 0)
  }

  /** `calendar.monthrange(year, month)[1]`. */
  function DaysInMonth(y: int, m: int): (n: int)
    requires 1 <= m <= 12
    ensures 28 <= n <= 31
  {
    if m == 2 then (if IsLeap(y) then 29 else 28)
    else if m == 4 || m == 6 || m == 9 || m == 11 then 30
    else 31
  }

  /** Days in the year before the first of month `m`. */
  function DaysBeforeMonth(y: int, m: int): (n: int)
    requires 1 <= m <= 12
    ensures 0 <= n <= 335
  {
    var table := [0, 31, 59, 90, 120, 151, 181, 212, 243, 273, 304, 334];
    table[m - 1] + (if m > 2 && IsLeap(y) then 1 else 0)
  }

  /** Days before January 1st of year `y`. */
  function DaysBeforeYear(y: int): int
    requires 1 <= y
  {
    var y1 := y - 1;
    y1 * 365 + y1 / 4 - y1 / 100 + y1 / 400
  }

  /** `date(y, m, d).toordinal()`. */
  function Ordinal(y: int, m: int, d: int): int
    requires 1 <= y && 1 <= m <= 12
  {
    DaysBeforeYear(y) + DaysBeforeMonth(y, m) + d
  }

  /** The day number of 9999-12-31, the last day Python's `date` holds. */
  const MaxOrdinal: int := 3652059

  /** February has 29 days exactly in leap years. */
  lemma LeapFebruary(y: int)
    ensures DaysInMonth(y, 2) == 29 <==> IsLeap(y)
    ensures !IsLeap(y) ==> DaysInMonth(y, 2) == 28
  {
  }

  /** The day after a month's last day is the first of the next month. */
  lemma MonthsFollowEachOther(y: int, m: int)
    requires 1 <= y && 1 <= m < 12
    ensures Ordinal(y, m, DaysInMonth(y, m)) + 1 == Ordinal(y, m + 1, 1)
  {
  }

  /** The day after December 31st is January 1st of the next year: a year
      has 366 days exactly when it is a leap year. */
  lemma YearsFollowEachOther(y: int)
    requires 1 <= y
    ensures Ordinal(y, 12, 31) + 1 == Ordinal(y + 1, 1, 1)
    ensures DaysBeforeYear(y + 1) - DaysBeforeYear(y) == if IsLeap(y) then 366 else 365
  {
    YearLength(y);
    assert DaysBeforeMonth(y, 12) == 334 + (if IsLeap(y) then 1 else 0);
  }

  lemma YearLength(y: int)
    requires 1 <= y
    ensures DaysBeforeYear(y + 1) - DaysBeforeYear(y) == if IsLeap(y) then 366 else 365
  {
    QuotientStep4(y);
    QuotientStep100(y);
    QuotientStep400(y);
    DivisorsNest(y);
    var y1 := y - 1;
    assert DaysBeforeYear(y + 1) == y * 365 + y / 4 - y / 100 + y / 400;
    assert DaysBeforeYear(y) == y1 * 365 + y1 / 4 - y1 / 100 + y1 / 400;
  }

  /** Multiples of 400 are multiples of 100, and those are multiples of 4. */
  lemma DivisorsNest(y: int)
    ensures y % 400 == 0 ==> y % 100 == 0
    ensures y % 100 == 0 ==> y % 4 == 0
  {
    if y % 400 == 0 {
      var q := y / 400;
      assert y == 100 * (4 * q);
    }
    if y % 100 == 0 {
      var q := y / 100;
      assert y == 4 * (25 * q);
    }
  }

  lemma QuotientStep4(y: int)
    ensures y / 4 == (y - 1) / 4 + (if y % 4 == 0 then 1 else 0)
  {
  }

  lemma QuotientStep100(y: int)
    ensures y / 100 == (y - 1) / 100 + (if y % 100 == 0 then 1 else 0)
  {
  }

  lemma QuotientStep400(y: int)
    ensures y / 400 == (y - 1) / 400 + (if y % 400 == 0 then 1 else 0)
  {
  }

  /** Day numbers grow year by year up to 9999-12-31. */
  lemma {:induction false} YearEndBound(y: int)
    requires 1 <= y <= 9999
    ensures Ordinal(y, 12, 31) <= MaxOrdinal
    ensures Ordinal(y, 12, 31) == MaxOrdinal <==> y == 9999
    decreases 9999 - y
  {
    if y < 9999 {
      YearEndBound(y + 1);
      YearsFollowEachOther(y);
    }
  }

  /** The last day of a valid month is at most 9999-12-31, and is that day
      only for December 9999. */
  lemma MonthEndBound(y: int, m: int)
    requires 1 <= y <= 9999 && 1 <= m <= 12
    ensures Ordinal(y, m, DaysInMonth(y, m)) <= MaxOrdinal
    ensures Ordinal(y, m, DaysInMonth(y, m)) == MaxOrdinal <==> y == 9999 && m == 12
  {
    YearEndBound(y);
  }

  // ---------------------------------------------------------------------
  // The month's rows: `.gte("date", first).lte("date", last)`.
  // ---------------------------------------------------------------------

  function JournalDate(e: JournalEntry): int { e.date }
  function MoodDate(e: MoodEntry): int { e.date }
  function ReflectionDate(r: SharedReflection): int { r.date }

  /** The rows dated between `lo` and `hi`, in their stored order. */
  function Window<T>(s: seq<T>, dateOf: T -> int, lo: int, hi: int): (w: seq<T>)
    ensures |w| <= |s|
    ensures forall i :: 0 <= i < |w| ==> lo <= dateOf(w[i]) <= hi
  {
    if s == [] then []
    else (if lo <= dateOf(s[0]) <= hi then [s[0]] else []) + Window(s[1..], dateOf, lo, hi)
  }

  /** Looking up the first row of a day inside the window gives the same
      row as looking it up among all rows: the range query loses nothing
      the day-by-day lookups need. */
  lemma {:induction false} FirstInWindow<T>(s: seq<T>, dateOf: T -> int, lo: int, hi: int, p: T -> bool)
    requires forall x :: p(x) ==> lo <= dateOf(x) <= hi
    ensures First(Window(s, dateOf, lo, hi), p) == First(s, p)
  {
    if s != [] {
      var rest := Window(s[1..], dateOf, lo, hi);
      FirstInWindow(s[1..], dateOf, lo, hi, p);
      if lo <= dateOf(s[0]) <= hi {
        assert Window(s, dateOf, lo, hi) == [s[0]] + rest;
        assert ([s[0]] + rest)[0] == s[0] && ([s[0]] + rest)[1..] == rest;
      } else {
        assert Window(s, dateOf, lo, hi) == rest;
        assert !p(s[0]);
      }
    }
  }

  // ---------------------------------------------------------------------
  // One day of the calendar.
  // ---------------------------------------------------------------------

  datatype CalendarDay = CalendarDay(
    date: int,
    userEntry: Option<JournalEntry>,
    partnerEntry: Option<JournalEntry>,
    sharedReflection: Option<SharedReflection>,
    userMood: Option<MoodEntry>,
    partnerMood: Option<MoodEntry>)

  function JournalOn(d: int, u: UserId): JournalEntry -> bool
  {
    (e: JournalEntry) => e.date == d && e.userId == u
  }

  function MoodOn(d: int, u: UserId): MoodEntry -> bool
  {
    (e: MoodEntry) => e.date == d && e.userId == u
  }

  /** Any reflection of that day: the lookup does not check whose it is. */
  function ReflectionOn(d: int): SharedReflection -> bool
  {
    (r: SharedReflection) => r.date == d
  }

  /** The record of day `d` for `user`, whose partner is `partner`: the
      first matching row of each table, and no partner rows without a
      partner. */
  function DayRecord(d: int, user: UserId, partner: Option<UserId>,
      js: seq<JournalEntry>, ms: seq<MoodEntry>, rs: seq<SharedReflection>): CalendarDay
  {
    CalendarDay(d,
      First(js, JournalOn(d, user)),
      if partner.Some? then First(js, JournalOn(d, partner.value)) else None,
      First(rs, ReflectionOn(d)),
      First(ms, MoodOn(d, user)),
      if partner.Some? then First(ms, MoodOn(d, partner.value)) else None)
  }

  /** What a day's record holds: the user's first entry and first mood of
      that day in stored order, none exactly when the user has none that
      day; the same for the partner when there is one, and no partner rows
      without a partner; and the day's first reflection, whoever it names. */
  lemma DayRecordMeaning(d: int, user: UserId, partner: Option<UserId>,
      js: seq<JournalEntry>, ms: seq<MoodEntry>, rs: seq<SharedReflection>)
    ensures var c := DayRecord(d, user, partner, js, ms, rs);
      && c.date == d
      && IsFirstMatch(js, JournalOn(d, user), c.userEntry)
      && IsFirstMatch(ms, MoodOn(d, user), c.userMood)
      && (partner.None? ==> c.partnerEntry.None? && c.partnerMood.None?)
      && (partner.Some? ==> IsFirstMatch(js, JournalOn(d, partner.value), c.partnerEntry))
      && (partner.Some? ==> IsFirstMatch(ms, MoodOn(d, partner.value), c.partnerMood))
      && IsFirstMatch(rs, ReflectionOn(d), c.sharedReflection)
  {
    FirstIsFirstMatch(js, JournalOn(d, user));
    FirstIsFirstMatch(ms, MoodOn(d, user));
    FirstIsFirstMatch(rs, ReflectionOn(d));
    if partner.Some? {
      FirstIsFirstMatch(js, JournalOn(d, partner.value));
      FirstIsFirstMatch(ms, MoodOn(d, partner.value));
    }
  }

  /** A day inside the month has the same record whether it is built from
      the month's rows or from all rows. */
  lemma DayRecordWindow(d: int, lo: int, hi: int, user: UserId, partner: Option<UserId>,
      js: seq<JournalEntry>, ms: seq<MoodEntry>, rs: seq<SharedReflection>)
    requires lo <= d <= hi
    ensures DayRecord(d, user, partner, Window(js, JournalDate, lo, hi), Window(ms, MoodDate, lo, hi),
      Window(rs, ReflectionDate, lo, hi)) == DayRecord(d, user, partner, js, ms, rs)
  {
    FirstInWindow(js, JournalDate, lo, hi, JournalOn(d, user));
    FirstInWindow(ms, MoodDate, lo, hi, MoodOn(d, user));
    FirstInWindow(rs, ReflectionDate, lo, hi, ReflectionOn(d));
    if partner.Some? {
      FirstInWindow(js, JournalDate, lo, hi, JournalOn(d, partner.value));
      FirstInWindow(ms, MoodDate, lo, hi, MoodOn(d, partner.value));
    }
  }

  // ---------------------------------------------------------------------
  // The month.
  // ---------------------------------------------------------------------

  /** The records of the `n` days starting at day `first`. */
  function MonthDays(first: int, n: nat, user: UserId, partner: Option<UserId>,
      js: seq<JournalEntry>, ms: seq<MoodEntry>, rs: seq<SharedReflection>): seq<CalendarDay>
  {
    if n == 0 then []
    else MonthDays(first, n - 1, user, partner, js, ms, rs) + [DayRecord(first + n - 1, user, partner, js, ms, rs)]
  }

  /** There is one record per day, in date order. */
  lemma {:induction false} MonthDaysMeaning(first: int, n: nat, user: UserId, partner: Option<UserId>,
      js: seq<JournalEntry>, ms: seq<MoodEntry>, rs: seq<SharedReflection>, i: int)
    requires 0 <= i < n
    ensures |MonthDays(first, n, user, partner, js, ms, rs)| == n
    ensures MonthDays(first, n, user, partner, js, ms, rs)[i] == DayRecord(first + i, user, partner, js, ms, rs)
  {
    MonthDaysLength(first, n, user, partner, js, ms, rs);
    if i < n - 1 {
      MonthDaysMeaning(first, n - 1, user, partner, js, ms, rs, i);
    }
  }

  lemma {:induction false} MonthDaysLength(first: int, n: nat, user: UserId, partner: Option<UserId>,
      js: seq<JournalEntry>, ms: seq<MoodEntry>, rs: seq<SharedReflection>)
    ensures |MonthDays(first, n, user, partner, js, ms, rs)| == n
  {
    if n > 0 {
      MonthDaysLength(first, n - 1, user, partner, js, ms, rs);
    }
  }

  /** `date(year, month, 1)` raises for a month outside 1..12 or a year
      outside 1..9999. */
  predicate ValidMonth(year: int, month: int)
  {
    1 <= year <= 9999 && 1 <= month <= 12
  }

  /** The calendar of `month` of `year` for `user`, whose profile row is
      `profile` (`None` when it is missing). The loop walks from the first
      to the last day of the month; stepping past 9999-12-31 raises, so
      December 9999 fails after the last day was built. */
  method GetCalendarData(year: int, month: int, user: UserId, profile: Option<Profile>,
      js: seq<JournalEntry>, ms: seq<MoodEntry>, rs: seq<SharedReflection>)
    returns (r: Result<seq<CalendarDay>>)
    ensures profile.None? ==> r == Err(ProfileNotFound)
    ensures profile.Some? && !ValidMonth(year, month) ==> r == Err(InvalidDate)
    ensures profile.Some? && year == 9999 && month == 12 ==> r == Err(DateOverflow)
    ensures r.Ok? <==> profile.Some? && ValidMonth(year, month) && !(year == 9999 && month == 12)
    ensures r.Ok? ==> (|r.value| == DaysInMonth(year, month)
      && r.value == MonthDays(Ordinal(year, month, 1), DaysInMonth(year, month), user, PartnerOf(profile.value),
           js, ms, rs))
  {
    if profile.None? {
      return Err(ProfileNotFound);
    }
    var partner := PartnerOf(profile.value);
    if !ValidMonth(year, month) {
      return Err(InvalidDate);
    }
    var first := Ordinal(year, month, 1);
    var last := Ordinal(year, month, DaysInMonth(year, month));
    MonthEndBound(year, month);
    r := WalkMonth(first, last, user, partner, js, ms, rs);
    MonthDaysLength(first, last - first + 1, user, partner, js, ms, rs);
  }

  /** The `while current_date <= last_day` loop over the month's rows,
      from day `first` to day `last`. */
  method WalkMonth(first: int, last: int, user: UserId, partner: Option<UserId>,
      js: seq<JournalEntry>, ms: seq<MoodEntry>, rs: seq<SharedReflection>)
    returns (r: Result<seq<CalendarDay>>)
    requires first <= last <= MaxOrdinal
    ensures r.Err? <==> last == MaxOrdinal
    ensures r.Err? ==> r.error == DateOverflow
    ensures r.Ok? ==> r.value == MonthDays(first, last - first + 1, user, partner, js, ms, rs)
  {
    var jw := Window(js, JournalDate, first, last);
    var mw := Window(ms, MoodDate, first, last);
    var rw := Window(rs, ReflectionDate, first, last);
    var days: seq<CalendarDay> := [];
    var current := first;
    while current <= last
      invariant first <= current <= last + 1 && current <= MaxOrdinal
      invariant days == MonthDays(first, current - first, user, partner, js, ms, rs)
    {
      var day := DayRecord(current, user, partner, jw, mw, rw);
      DayRecordWindow(current, first, last, user, partner, js, ms, rs);
      days := days + [day];
      if current == MaxOrdinal {
        return Err(DateOverflow);
      }
      current := current + 1;
    }
    r := Ok(days);
  }
}
