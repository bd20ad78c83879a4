/**
 Maintenance schedules (internal/maintenance/service.go): the backward cron
 search, the recurring windows built on it, and the lookup over a domain's windows.

 Times are nanoseconds since midnight UTC on Monday, 1 January of year 1, and may
 be negative.  Day of month and month are given by a calendar over day numbers.
 */
module CronWindow {
  import opened Wrappers
  import opened DecimalText
  import opened CronField

  const MINUTE: int := 60_000_000_000
  const DAY: int := 1440 * MINUTE
  const WEEK_MINUTES: int := 60 * 24 * 7

  datatype Calendar = Calendar(day: int -> int, month: int -> int)

  function Weekday(day: int): int {
    (day + 1) % 7
  }

  function MinuteOf(t: int): int {
    t / MINUTE
  }

  /** The clock: days and minutes as nanoseconds, and weekdays in turn, with Sunday as 0.  Day 0 is a Monday, and so is
      27 April 2026, day 739732. */
  lemma ClockMeans(t: int, day: int)
    ensures MinuteOf(t) * 60_000_000_000 <= t < MinuteOf(t) * 60_000_000_000 + 60_000_000_000
    ensures t / DAY * 86_400_000_000_000 <= t < t / DAY * 86_400_000_000_000 + 86_400_000_000_000
    ensures 0 <= Weekday(day) <= 6 && Weekday(day + 1) == if Weekday(day) == 6 then 0 else Weekday(day) + 1
    ensures Weekday(0) == 1 && Weekday(739_732) == 1
  {
  }

  // ── The expression ─────────────────────────────────────────────────────────

  function WordLength(s: Text): (k: nat)
    ensures k <= |s| && (s != [] && !IsSpace(s[0]) ==> k > 0)
  {
    if s == [] || IsSpace(s[0]) then 0 else 1 + WordLength(s[1..])
  }

  /** strings.Fields: the maximal runs of non-space characters. */
  function Fields(s: Text): seq<Text>
    decreases |s|
  {
    if s == [] then []
    else if IsSpace(s[0]) then Fields(s[1..])
    else
      var k := WordLength(s);
      [s[..k]] + Fields(s[k..])
  }

  predicate IsWord(w: Text) {
    w != [] && forall i :: 0 <= i < |w| ==> !IsSpace(w[i])
  }

  lemma {:induction false} WordLengthStops(w: Text, rest: Text)
    requires forall i :: 0 <= i < |w| ==> !IsSpace(w[i])
    requires rest == [] || IsSpace(rest[0])
    ensures WordLength(w + rest) == |w|
  {
    if w == [] {
      assert w + rest == rest;
    } else {
      WordLengthStops(w[1..], rest);
      assert (w + rest)[1..] == w[1..] + rest;
    }
  }

  /** Words joined by single spaces are split back into exactly those words. */
  lemma {:induction false} FieldsUndoJoin(words: seq<Text>)
    requires |words| >= 1 && forall w :: w in words ==> IsWord(w)
    ensures Fields(Join(words, ' ')) == words
  {
    var w := words[0];
    assert w in words;
    var s := Join(words, ' ');
    if |words| == 1 {
      WordLengthStops(w, []);
      assert w + [] == w == s;
      assert s[..|w|] == w && s[|w|..] == [];
    } else {
      var rest := Join(words[1..], ' ');
      FieldsUndoJoin(words[1..]);
      WordLengthStops(w, [' '] + rest);
      assert s == w + ([' '] + rest);
      assert s[..|w|] == w && s[|w|..] == [' '] + rest;
      assert s[|w|..][1..] == rest;
    }
  }

  /** A minute fires when all five fields match, day of month and day of week included. */
  predicate Fires(cal: Calendar, fields: seq<Text>, m: int)
    requires |fields| == 5
  {
    var day := m / 1440;
    && Matches(fields[4], Weekday(day))
    && Matches(fields[3], cal.month(day))
    && Matches(fields[2], cal.day(day))
    && Matches(fields[1], m / 60 % 24)
    && Matches(fields[0], m % 60)
  }

  method MinuteMatches(cal: Calendar, fields: seq<Text>, m: int) returns (r: bool)
    requires |fields| == 5
    ensures r <==> Fires(cal, fields, m)
  {
    r := MatchCronField(fields[4], Weekday(m / 1440));
    if r { r := MatchCronField(fields[3], cal.month(m / 1440)); }
    if r { r := MatchCronField(fields[2], cal.day(m / 1440)); }
    if r { r := MatchCronField(fields[1], m / 60 % 24); }
    if r { r := MatchCronField(fields[0], m % 60); }
  }

  datatype ScheduleError = FieldCount | NoFire | BadStartTime | BadConfig

  /** No minute in (low, high] fires. */
  ghost predicate Quiet(cal: Calendar, fields: seq<Text>, low: int, high: int)
    requires |fields| == 5
  {
    forall m :: low < m <= high ==> !Fires(cal, fields, m)
  }

  lemma QuietSnoc(cal: Calendar, fields: seq<Text>, low: int, high: int)
    requires |fields| == 5 && Quiet(cal, fields, low, high) && !Fires(cal, fields, low)
    ensures Quiet(cal, fields, low - 1, high)
  {
  }

  /** The backward search over the fields: the latest firing minute of the week up to `now`, if there is one. */
  method SearchBack(cal: Calendar, fields: seq<Text>, now: int) returns (r: Option<int>)
    requires |fields| == 5
    ensures match r
            case Some(f) => now - WEEK_MINUTES < f <= now && Fires(cal, fields, f) && Quiet(cal, fields, f, now)
            case None => Quiet(cal, fields, now - WEEK_MINUTES, now)
  {
    var candidate := now;
    for i := 0 to WEEK_MINUTES
      invariant candidate == now - i
      invariant Quiet(cal, fields, candidate, now)
    {
      var matched := MinuteMatches(cal, fields, candidate);
      if matched {
        return Some(candidate);
      }
      QuietSnoc(cal, fields, candidate, now);
      candidate := candidate - 1;
    }
    return None;
  }

  /** The latest firing minute of the last week, or an error exactly when there is none. */
  method PrevCronFire(cal: Calendar, expression: Text, t: int) returns (r: Result<int, ScheduleError>)
    ensures |Fields(expression)| != 5 <==> r == Err(FieldCount)
    ensures |Fields(expression)| == 5 ==>
              var fields, now := Fields(expression), MinuteOf(t);
              match r
              case Ok(f) => now - WEEK_MINUTES < f <= now && Fires(cal, fields, f) && Quiet(cal, fields, f, now)
              case Err(e) => e == NoFire && Quiet(cal, fields, now - WEEK_MINUTES, now)
  {
    var fields := Fields(expression);
    if |fields| != 5 {
      return Err(FieldCount);
    }
    var found := SearchBack(cal, fields, MinuteOf(t));
    if found.None? {
      return Err(NoFire);
    }
    return Ok(found.value);
  }

  // ── Cron windows ───────────────────────────────────────────────────────────

  /** The window opened at minute `f` is open at `t`. */
  predicate OpenSince(f: int, duration: int, t: int) {
    f * MINUTE <= t <= (f + duration) * MINUTE
  }

  /** Some minute of the last week fired and its window is still open. */
  ghost predicate CoversWithin(cal: Calendar, fields: seq<Text>, duration: int, t: int)
    requires |fields| == 5
  {
    exists f :: MinuteOf(t) - WEEK_MINUTES < f <= MinuteOf(t) && Fires(cal, fields, f) && OpenSince(f, duration, t)
  }

  /** The schedule without the search limit: some minute, however long ago. */
  ghost predicate CoversEver(cal: Calendar, fields: seq<Text>, duration: int, t: int)
    requires |fields| == 5
  {
    exists f :: Fires(cal, fields, f) && OpenSince(f, duration, t)
  }

  method CoversCron(cal: Calendar, expression: Text, duration: int, t: int) returns (r: Result<bool, ScheduleError>)
    ensures r == Err(FieldCount) <==> |Fields(expression)| != 5
    ensures |Fields(expression)| == 5 ==>
              && (r == Ok(true) <==> CoversWithin(cal, Fields(expression), duration, t))
              && (r.Err? <==> Quiet(cal, Fields(expression), MinuteOf(t) - WEEK_MINUTES, MinuteOf(t)))
  {
    var fire := PrevCronFire(cal, expression, t);
    if fire.Err? {
      return Err(fire.error);
    }
    var f := fire.value;
    ghost var fields := Fields(expression);
    forall g | g <= MinuteOf(t) && Fires(cal, fields, g) && OpenSince(g, duration, t)
      ensures OpenSince(f, duration, t)
    {
      assert g <= f;
    }
    return Ok(f * MINUTE <= t && t <= f * MINUTE + duration * MINUTE);
  }

  /** A cron window is open from a firing minute for the given number of minutes, both ends included. */
  lemma CronCoverMeans(cal: Calendar, fields: seq<Text>, duration: int, t: int)
    requires |fields| == 5
    ensures CoversWithin(cal, fields, duration, t) <==>
            exists f :: && Fires(cal, fields, f)
                        && f * 60_000_000_000 <= t <= f * 60_000_000_000 + duration * 60_000_000_000
                        && t - f * 60_000_000_000 < 604_800_000_000_000
  {
    forall f
      ensures f * MINUTE <= t && MinuteOf(t) - WEEK_MINUTES < f <==> f * MINUTE <= t < (f + WEEK_MINUTES) * MINUTE
    {
    }
  }

  /** Only a window longer than the search can be missed. */
  lemma ShortWindowsAreFound(cal: Calendar, fields: seq<Text>, duration: int, t: int)
    requires |fields| == 5 && duration < WEEK_MINUTES
    ensures CoversWithin(cal, fields, duration, t) <==> CoversEver(cal, fields, duration, t)
  {
    forall f | Fires(cal, fields, f) && OpenSince(f, duration, t)
      ensures MinuteOf(t) - WEEK_MINUTES < f <= MinuteOf(t)
    {
    }
  }

  /** One day follows another: the next of the same month, or the first of the next month. */
  predicate NextDay(cal: Calendar, n: int) {
    || (cal.day(n + 1) == cal.day(n) + 1 && cal.month(n + 1) == cal.month(n))
    || (28 <= cal.day(n) <= 31 && cal.day(n + 1) == 1 && cal.month(n + 1) == cal.month(n) % 12 + 1)
  }

  ghost predicate IsCivil(cal: Calendar) {
    && (forall n :: NextDay(cal, n))
    && (forall n :: 1 <= cal.day(n) <= 31 && 1 <= cal.month(n) <= 12)
  }

  /** Such calendars exist, for instance one with months of 28 days. */
  lemma LunarIsCivil()
    ensures IsCivil(Calendar((n: int) => n % 28 + 1, (n: int) => n / 28 % 12 + 1))
  {
    var cal := Calendar((n: int) => n % 28 + 1, (n: int) => n / 28 % 12 + 1);
    forall n
      ensures NextDay(cal, n)
    {
      if n % 28 == 27 {
        assert (n + 1) / 28 == n / 28 + 1;
      }
    }
  }

  /** Every calendar has a first of the month. */
  lemma {:induction false} FirstOfMonth(cal: Calendar, n: int) returns (first: int)
    requires IsCivil(cal)
    ensures cal.day(first) == 1
    decreases 31 - cal.day(n)
  {
    assert NextDay(cal, n);
    if cal.day(n) == 1 {
      first := n;
    } else if cal.day(n + 1) == 1 {
      first := n + 1;
    } else {
      first := FirstOfMonth(cal, n + 1);
    }
  }

  /** "minute hour day * *". */
  function MonthlyFields(minute: nat, hour: nat, day: nat): seq<Text> {
    [ListField([minute]), ListField([hour]), ListField([day]), "*", "*"]
  }

  lemma MonthlyFires(cal: Calendar, minute: nat, hour: nat, day: nat, m: int)
    ensures Fires(cal, MonthlyFields(minute, hour, day), m) <==>
            m % 60 == minute && m / 60 % 24 == hour && cal.day(m / 1440) == day
  {
    ListFieldMatchesItsMembers([minute], m % 60);
    ListFieldMatchesItsMembers([hour], m / 60 % 24);
    ListFieldMatchesItsMembers([day], cal.day(m / 1440));
  }

  lemma {:induction false} DaysAfterTheFirst(cal: Calendar, first: int, k: nat)
    requires IsCivil(cal) && cal.day(first) == 1 && k <= 27
    ensures cal.day(first + k) == 1 + k
  {
    if k > 0 {
      DaysAfterTheFirst(cal, first, k - 1);
      assert NextDay(cal, first + (k - 1));
    }
  }

  /** The only firing minute of the last week and one minute is just out of the search's reach. */
  lemma OutOfReach(cal: Calendar, fields: seq<Text>, duration: int, f: int)
    requires |fields| == 5 && duration >= WEEK_MINUTES
    requires Fires(cal, fields, f) && Quiet(cal, fields, f, f + WEEK_MINUTES)
    ensures var t := (f + WEEK_MINUTES) * MINUTE;
            CoversEver(cal, fields, duration, t) && !CoversWithin(cal, fields, duration, t)
  {
    var t := (f + WEEK_MINUTES) * MINUTE;
    assert MinuteOf(t) == f + WEEK_MINUTES;
    assert OpenSince(f, duration, t);
  }

  lemma NotTheFirst(cal: Calendar, first: int, m: int)
    requires IsCivil(cal) && cal.day(first) == 1
    requires first * 1440 < m <= first * 1440 + WEEK_MINUTES
    ensures !(m % 60 == 0 && m / 60 % 24 == 0 && cal.day(m / 1440) == 1)
  {
    DaysAfterTheFirst(cal, first, m / 1440 - first);
  }

  /** A monthly window of a week or longer is missed when the first of the month is a week ago. */
  lemma LongWindowIsMissed(cal: Calendar, duration: int) returns (fields: seq<Text>, t: int)
    requires IsCivil(cal) && duration >= WEEK_MINUTES
    ensures |fields| == 5 && CoversEver(cal, fields, duration, t) && !CoversWithin(cal, fields, duration, t)
  {
    var first := FirstOfMonth(cal, 0);
    var f := first * 1440;
    var zero, one := 0, 1;
    fields := MonthlyFields(zero, zero, one);
    MonthlyFires(cal, zero, zero, one, f);
    forall m | f < m <= f + WEEK_MINUTES
      ensures !Fires(cal, fields, m)
    {
      MonthlyFires(cal, zero, zero, one, m);
      NotTheFirst(cal, first, m);
    }
    t := (f + WEEK_MINUTES) * MINUTE;
    OutOfReach(cal, fields, duration, f);
  }

  /** The search limit is harmless exactly for windows shorter than a week. */
  lemma SearchLimitIsHarmlessExactly(cal: Calendar, duration: int)
    requires IsCivil(cal)
    ensures duration < WEEK_MINUTES <==>
            forall fields: seq<Text>, t | |fields| == 5 ::
              CoversWithin(cal, fields, duration, t) <==> CoversEver(cal, fields, duration, t)
  {
    if duration < WEEK_MINUTES {
      forall fields: seq<Text>, t | |fields| == 5
        ensures CoversWithin(cal, fields, duration, t) <==> CoversEver(cal, fields, duration, t)
      {
        ShortWindowsAreFound(cal, fields, duration, t);
      }
    } else {
      var fields, t := LongWindowIsMissed(cal, duration);
    }
  }

  // ── Week-periodic expressions ──────────────────────────────────────────────

  predicate IsWeekly(fields: seq<Text>) {
    |fields| == 5 && fields[2] == "*" && fields[3] == "*"
  }

  /** The fields can be met by some weekday, hour and minute. */
  ghost predicate Satisfiable(fields: seq<Text>)
    requires |fields| == 5
  {
    && (exists w :: 0 <= w < 7 && Matches(fields[4], w))
    && (exists h :: 0 <= h < 24 && Matches(fields[1], h))
    && (exists n :: 0 <= n < 60 && Matches(fields[0], n))
  }

  lemma Compose(day: int, hour: int, minute: int)
    requires 0 <= hour < 24 && 0 <= minute < 60
    ensures var m := 1440 * day + 60 * hour + minute;
            m / 1440 == day && m / 60 % 24 == hour && m % 60 == minute
  {
    var m := 1440 * day + 60 * hour + minute;
    assert m / 60 == 24 * day + hour;
  }

  /** Every weekday, hour and minute comes round once in any week. */
  lemma WeekHasEveryMinute(now: int, w: int, hour: int, minute: int) returns (m: int)
    requires 0 <= w < 7 && 0 <= hour < 24 && 0 <= minute < 60
    ensures now - WEEK_MINUTES < m <= now
    ensures Weekday(m / 1440) == w && m / 60 % 24 == hour && m % 60 == minute
  {
    var r := (w + 6) % 7 * 1440 + hour * 60 + minute;
    var q := (now - r) / WEEK_MINUTES;
    m := q * WEEK_MINUTES + r;
    var day := 7 * q + (w + 6) % 7;
    assert m == 1440 * day + 60 * hour + minute;
    Compose(day, hour, minute);
    assert Weekday(day) == w;
  }

  /** An expression with open day and month fields finds a fire time at every moment, exactly when
      its other fields can be met at all. */
  lemma WeeklyExpressionsAlwaysFire(cal: Calendar, fields: seq<Text>, t: int)
    requires IsWeekly(fields)
    ensures !Quiet(cal, fields, MinuteOf(t) - WEEK_MINUTES, MinuteOf(t)) <==> Satisfiable(fields)
  {
    var now := MinuteOf(t);
    if Satisfiable(fields) {
      var w :| 0 <= w < 7 && Matches(fields[4], w);
      var h :| 0 <= h < 24 && Matches(fields[1], h);
      var n :| 0 <= n < 60 && Matches(fields[0], n);
      var m := WeekHasEveryMinute(now, w, h, n);
      assert Fires(cal, fields, m);
    }
    if m :| now - WEEK_MINUTES < m <= now && Fires(cal, fields, m) {
      assert Matches(fields[4], Weekday(m / 1440)) && Matches(fields[1], m / 60 % 24) && Matches(fields[0], m % 60);
    }
  }

  /** The text of a weekly schedule with list fields. */
  function WeeklyExpression(minutes: seq<nat>, hours: seq<nat>, weekdays: seq<nat>): Text
    requires |minutes| >= 1 && |hours| >= 1 && |weekdays| >= 1
  {
    Join([ListField(minutes), ListField(hours), "*", "*", ListField(weekdays)], ' ')
  }

  lemma {:induction false} JoinIsWord(parts: seq<Text>)
    requires |parts| >= 1 && forall i :: 0 <= i < |parts| ==> IsWord(parts[i])
    ensures IsWord(Join(parts, ','))
  {
    if |parts| > 1 {
      JoinIsWord(parts[1..]);
    }
  }

  lemma ListFieldIsWord(ns: seq<nat>)
    requires |ns| >= 1
    ensures IsWord(ListField(ns))
  {
    JoinIsWord(seq(|ns|, i requires 0 <= i < |ns| => Decimal(ns[i])));
  }

  /** From text to time: a weekly list expression fires exactly in the listed minutes. */
  lemma WeeklyListsMeanTheirTimes(cal: Calendar, minutes: seq<nat>, hours: seq<nat>, weekdays: seq<nat>)
    requires |minutes| >= 1 && |hours| >= 1 && |weekdays| >= 1
    ensures var fields := Fields(WeeklyExpression(minutes, hours, weekdays));
            && IsWeekly(fields)
            && forall m :: Fires(cal, fields, m) <==>
                             Weekday(m / 1440) in weekdays && m / 60 % 24 in hours && m % 60 in minutes
  {
    var words := [ListField(minutes), ListField(hours), "*", "*", ListField(weekdays)];
    ListFieldIsWord(minutes);
    ListFieldIsWord(hours);
    ListFieldIsWord(weekdays);
    FieldsUndoJoin(words);
    forall m
      ensures Fires(cal, words, m) <==> Weekday(m / 1440) in weekdays && m / 60 % 24 in hours && m % 60 in minutes
    {
      ListFieldMatchesItsMembers(minutes, m % 60);
      ListFieldMatchesItsMembers(hours, m / 60 % 24);
      ListFieldMatchesItsMembers(weekdays, Weekday(m / 1440));
    }
  }

  /** The text of an expression with five list fields. */
  function ListExpression(minutes: seq<nat>, hours: seq<nat>, days: seq<nat>, months: seq<nat>, weekdays: seq<nat>): Text
    requires |minutes| >= 1 && |hours| >= 1 && |days| >= 1 && |months| >= 1 && |weekdays| >= 1
  {
    Join([ListField(minutes), ListField(hours), ListField(days), ListField(months), ListField(weekdays)], ' ')
  }

  /** From text to time for all five fields, in the order minute, hour, day of month, month, weekday. */
  lemma ListsMeanTheirTimes(cal: Calendar, minutes: seq<nat>, hours: seq<nat>, days: seq<nat>, months: seq<nat>, weekdays: seq<nat>, m: int)
    requires |minutes| >= 1 && |hours| >= 1 && |days| >= 1 && |months| >= 1 && |weekdays| >= 1
    ensures var fields := Fields(ListExpression(minutes, hours, days, months, weekdays));
            && |fields| == 5
            && (Fires(cal, fields, m) <==>
                  && m % 60 in minutes && m / 60 % 24 in hours
                  && cal.day(m / 1440) in days && cal.month(m / 1440) in months && Weekday(m / 1440) in weekdays)
  {
    var words := [ListField(minutes), ListField(hours), ListField(days), ListField(months), ListField(weekdays)];
    ListFieldIsWord(minutes);
    ListFieldIsWord(hours);
    ListFieldIsWord(days);
    ListFieldIsWord(months);
    ListFieldIsWord(weekdays);
    FieldsUndoJoin(words);
    ListFieldMatchesItsMembers(minutes, m % 60);
    ListFieldMatchesItsMembers(hours, m / 60 % 24);
    ListFieldMatchesItsMembers(days, cal.day(m / 1440));
    ListFieldMatchesItsMembers(months, cal.month(m / 1440));
    ListFieldMatchesItsMembers(weekdays, Weekday(m / 1440));
  }

  /** A window of fixed length every week: in the week from a listed day on, it is open from its start time, `k` minutes
      after that day's midnight, exactly for its duration, if that ends within the week. */
  lemma OneTimeAWeek(cal: Calendar, fields: seq<Text>, minute: nat, hour: nat, duration: nat, day: int, k: nat)
    requires |fields| == 5 && minute < 60 && hour < 24 && 60 * hour + minute + duration < WEEK_MINUTES && k < WEEK_MINUTES
    requires forall m :: Fires(cal, fields, m) <==> Weekday(m / 1440) == Weekday(day) && m / 60 % 24 == hour && m % 60 == minute
    ensures CoversWithin(cal, fields, duration, (1440 * day + k) * 60_000_000_000) <==>
            60 * hour + minute <= k <= 60 * hour + minute + duration
  {
    var now, f := 1440 * day + k, 1440 * day + 60 * hour + minute;
    var t := now * MINUTE;
    assert MinuteOf(t) == now;
    Compose(day, hour, minute);
    assert Fires(cal, fields, f);
    OpenSinceMinute(f, duration, now);
    forall g | now - WEEK_MINUTES < g <= now && Fires(cal, fields, g) && OpenSince(g, duration, t)
      ensures g == f
    {
      OpenSinceMinute(g, duration, now);
      var q := WeeksBetween(f, g);
      OnlyThisWeek(1440 * day, f, g, q, now, duration);
    }
  }

  lemma OpenSinceMinute(f: int, duration: int, now: int)
    ensures OpenSince(f, duration, now * MINUTE) <==> f <= now <= f + duration
  {
  }

  lemma OnlyThisWeek(start: int, f: int, g: int, q: int, now: int, duration: nat)
    requires start <= f && f + duration < start + WEEK_MINUTES && start <= now < start + WEEK_MINUTES
    requires f - g == q * WEEK_MINUTES && g <= now <= g + duration
    ensures g == f
  {
  }

  lemma SplitMinutes(f: int)
    ensures f == 1440 * (f / 1440) + 60 * (f / 60 % 24) + f % 60
  {
    var h := f / 60;
    assert f == 60 * h + f % 60 && h == 24 * (h / 24) + h % 24;
    assert h / 24 == f / 1440;
  }

  /** Two minutes with one weekday, hour and minute are whole weeks apart. */
  lemma WeeksBetween(f: int, g: int) returns (q: int)
    requires Weekday(f / 1440) == Weekday(g / 1440) && f / 60 % 24 == g / 60 % 24 && f % 60 == g % 60
    ensures f - g == q * WEEK_MINUTES
  {
    SplitMinutes(f);
    SplitMinutes(g);
    var a, b := f / 1440 + 1, g / 1440 + 1;
    q := a / 7 - b / 7;
    assert a == 7 * (a / 7) + a % 7 && b == 7 * (b / 7) + b % 7;
  }

  // ── Weekly and monthly windows ─────────────────────────────────────────────

  /** The window that starts `start` minutes into `day` is open at `t`. */
  predicate OpenOn(day: int, start: int, duration: int, t: int) {
    day * DAY + start * MINUTE <= t <= day * DAY + (start + duration) * MINUTE
  }

  /** What coversWeekly computes: only the window of t's own day is looked at. */
  predicate WeeklyToday(weekdays: seq<int>, start: int, duration: int, t: int) {
    Weekday(t / DAY) in weekdays && OpenOn(t / DAY, start, duration, t)
  }

  /** The schedule: a window on every listed weekday. */
  ghost predicate WeeklySchedule(weekdays: seq<int>, start: int, duration: int, t: int) {
    exists day :: Weekday(day) in weekdays && OpenOn(day, start, duration, t)
  }

  lemma TodayMeans(start: Option<int>, duration: int, t: int)
    ensures start.Some? ==>
              (OpenOn(t / DAY, start.value, duration, t) <==>
                 start.value * 60_000_000_000 <= t % 86_400_000_000_000 <= (start.value + duration) * 60_000_000_000)
  {
  }

  method CoversWeekly(weekdays: seq<int>, start: Option<int>, duration: int, t: int) returns (r: Result<bool, ScheduleError>)
    ensures r == Ok(true) <==> start.Some? && WeeklyToday(weekdays, start.value, duration, t)
    ensures r == Ok(true) <==>
              && start.Some? && Weekday(t / 86_400_000_000_000) in weekdays
              && start.value * 60_000_000_000 <= t % 86_400_000_000_000 <= (start.value + duration) * 60_000_000_000
    ensures r.Err? <==> start.None? && Weekday(t / DAY) in weekdays
  {
    TodayMeans(start, duration, t);
    var matched := false;
    for i := 0 to |weekdays|
      invariant matched <==> Weekday(t / DAY) in weekdays[..i]
    {
      if Weekday(t / DAY) == weekdays[i] {
        matched := true;
        break;
      }
    }
    if !matched {
      return Ok(false);
    }
    if start.None? {
      return Err(BadStartTime);
    }
    return Ok(OpenOn(t / DAY, start.value, duration, t));
  }

  predicate EveryDay(weekdays: seq<int>) {
    forall w :: 0 <= w < 7 ==> w in weekdays
  }

  predicate NoDay(weekdays: seq<int>) {
    forall w :: 0 <= w < 7 ==> w !in weekdays
  }

  /** The schedules for which looking at today's window alone is enough: none at all, windows that end
      before midnight, or round-the-clock cover. */
  predicate TodayIsEnough(weekdays: seq<int>, start: int, duration: int) {
    NoDay(weekdays) || start + duration < 1440 || (start == 0 && EveryDay(weekdays))
  }

  lemma TodaySuffices(weekdays: seq<int>, start: int, duration: int, t: int)
    requires 0 <= start < 1440 && TodayIsEnough(weekdays, start, duration)
    ensures WeeklyToday(weekdays, start, duration, t) <==> WeeklySchedule(weekdays, start, duration, t)
  {
    if day :| Weekday(day) in weekdays && OpenOn(day, start, duration, t) {
      if start + duration < 1440 {
        assert t / DAY == day;
      } else {
        assert 0 <= Weekday(day) < 7 && 0 <= Weekday(t / DAY) < 7;
        assert OpenOn(t / DAY, start, duration, t);
      }
    }
  }

  /** A listed weekday whose successor is not listed, if the list is neither empty nor full. */
  lemma {:induction false} LastListedDay(weekdays: seq<int>, day: int, k: nat) returns (last: int)
    requires Weekday(day) in weekdays && Weekday(day + k) !in weekdays
    ensures Weekday(last) in weekdays && Weekday(last + 1) !in weekdays
    decreases k
  {
    if Weekday(day + 1) in weekdays {
      last := LastListedDay(weekdays, day + 1, k - 1);
    } else {
      last := day;
    }
  }

  lemma MidnightIsMissed(weekdays: seq<int>, start: int, duration: int) returns (t: int)
    requires 0 <= start < 1440 && !TodayIsEnough(weekdays, start, duration)
    ensures WeeklySchedule(weekdays, start, duration, t) && !WeeklyToday(weekdays, start, duration, t)
  {
    var w :| 0 <= w < 7 && w in weekdays;
    var day := w + 6;
    assert Weekday(day) == w;
    if start == 0 {
      var v :| 0 <= v < 7 && v !in weekdays;
      var k := (v - w) % 7;
      assert Weekday(day + k) == v;
      day := LastListedDay(weekdays, day, k);
    }
    t := (day + 1) * DAY;
    assert t / DAY == day + 1;
    assert OpenOn(day, start, duration, t);
  }

  /** A weekly window is evaluated right at every moment exactly when it does not run past midnight
      (or is trivial); otherwise its part after midnight is lost. */
  lemma WeeklyIsRightExactly(weekdays: seq<int>, start: int, duration: int)
    requires 0 <= start < 1440
    ensures TodayIsEnough(weekdays, start, duration) <==>
            forall t :: WeeklyToday(weekdays, start, duration, t) <==> WeeklySchedule(weekdays, start, duration, t)
  {
    if TodayIsEnough(weekdays, start, duration) {
      forall t ensures WeeklyToday(weekdays, start, duration, t) <==> WeeklySchedule(weekdays, start, duration, t) {
        TodaySuffices(weekdays, start, duration, t);
      }
    } else {
      var t := MidnightIsMissed(weekdays, start, duration);
    }
  }

  /** What coversMonthly computes: only the window of t's own day is looked at. */
  predicate MonthlyToday(cal: Calendar, dom: int, start: int, duration: int, t: int) {
    cal.day(t / DAY) == dom && OpenOn(t / DAY, start, duration, t)
  }

  /** The schedule: a window on that day of every month. */
  ghost predicate MonthlySchedule(cal: Calendar, dom: int, start: int, duration: int, t: int) {
    exists day :: cal.day(day) == dom && OpenOn(day, start, duration, t)
  }

  lemma MonthlyMidnightIsMissed(cal: Calendar, dom: int, start: int, duration: int, day: int)
    requires IsCivil(cal) && 0 <= start < 1440 && start + duration >= 1440 && cal.day(day) == dom
    ensures var t := (day + 1) * DAY;
            MonthlySchedule(cal, dom, start, duration, t) && !MonthlyToday(cal, dom, start, duration, t)
  {
    var t := (day + 1) * DAY;
    assert NextDay(cal, day);
    assert t / DAY == day + 1;
    assert OpenOn(day, start, duration, t);
  }

  /** A monthly window is evaluated right at every moment exactly when it ends before midnight (or its day never
      comes); otherwise its part after midnight is lost. */
  lemma MonthlyIsRightExactly(cal: Calendar, dom: int, start: int, duration: int)
    requires IsCivil(cal) && 0 <= start < 1440
    ensures start + duration < 1440 || (forall day :: cal.day(day) != dom) <==>
            forall t :: MonthlyToday(cal, dom, start, duration, t) <==> MonthlySchedule(cal, dom, start, duration, t)
  {
    if start + duration < 1440 {
      forall t ensures MonthlyToday(cal, dom, start, duration, t) <==> MonthlySchedule(cal, dom, start, duration, t) {
        if day :| cal.day(day) == dom && OpenOn(day, start, duration, t) {
          assert t / DAY == day;
        }
      }
    } else if day :| cal.day(day) == dom {
      MonthlyMidnightIsMissed(cal, dom, start, duration, day);
    }
  }

  // ── A domain's windows ─────────────────────────────────────────────────────

  /** A stored window; `start` is the parsed "HH:MM" in minutes.  Malformed stands for an unknown strategy,
      a missing or unreadable recurrence, or an unknown time zone. */
  datatype Window =
    | Single(startAt: Option<int>, endAt: Option<int>)
    | Weekly(weekdays: seq<int>, start: Option<int>, duration: int)
    | Monthly(dayOfMonth: int, start: Option<int>, duration: int)
    | Cron(expression: Text, duration: int)
    | Malformed

  ghost predicate Covers(cal: Calendar, w: Window, t: int) {
    match w
    case Single(startAt, endAt) => startAt.Some? && endAt.Some? && startAt.value <= t <= endAt.value
    case Weekly(weekdays, start, duration) => start.Some? && WeeklyToday(weekdays, start.value, duration, t)
    case Monthly(dom, start, duration) => start.Some? && MonthlyToday(cal, dom, start.value, duration, t)
    case Cron(expression, duration) =>
      |Fields(expression)| == 5 && CoversWithin(cal, Fields(expression), duration, t)
    case Malformed => false
  }

  /** The schedule cannot be evaluated at `t`: a start time that does not parse is noticed only on a scheduled day, a
      cron expression needs five fields and a fire time within the last week. */
  ghost predicate CannotEvaluate(cal: Calendar, w: Window, t: int) {
    match w
    case Single(_, _) => false
    case Weekly(weekdays, start, _) => start.None? && Weekday(t / DAY) in weekdays
    case Monthly(dom, start, _) => start.None? && cal.day(t / DAY) == dom
    case Cron(expression, _) =>
      |Fields(expression)| != 5 || Quiet(cal, Fields(expression), MinuteOf(t) - WEEK_MINUTES, MinuteOf(t))
    case Malformed => true
  }

  method WindowCoversTime(cal: Calendar, w: Window, t: int) returns (r: Result<bool, ScheduleError>)
    ensures r == Ok(true) <==> Covers(cal, w, t)
    ensures r.Err? <==> CannotEvaluate(cal, w, t)
  {
    match w
    case Single(startAt, endAt) =>
      if startAt.None? || endAt.None? {
        return Ok(false);
      }
      return Ok(!(t < startAt.value) && !(t > endAt.value));
    case Weekly(weekdays, start, duration) =>
      r := CoversWeekly(weekdays, start, duration, t);
    case Monthly(dom, start, duration) =>
      if cal.day(t / DAY) != dom {
        return Ok(false);
      }
      if start.None? {
        return Err(BadStartTime);
      }
      return Ok(OpenOn(t / DAY, start.value, duration, t));
    case Cron(expression, duration) =>
      r := CoversCron(cal, expression, duration, t);
    case Malformed =>
      return Err(BadConfig);
  }

  /** The first covering window; a window whose schedule cannot be evaluated never hides a later one. */
  method IsInMaintenance(cal: Calendar, windows: seq<Window>, t: int) returns (found: Option<nat>)
    ensures match found
            case Some(i) => i < |windows| && Covers(cal, windows[i], t) && forall k :: 0 <= k < i ==> !Covers(cal, windows[k], t)
            case None => forall k :: 0 <= k < |windows| ==> !Covers(cal, windows[k], t)
  {
    for i := 0 to |windows|
      invariant forall k :: 0 <= k < i ==> !Covers(cal, windows[k], t)
    {
      var active := WindowCoversTime(cal, windows[i], t);
      if active.Err? {
        continue;
      }
      if active.value {
        return Some(i);
      }
    }
    return None;
  }
}
