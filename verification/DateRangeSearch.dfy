/** The jumping searches of a date range agree with a second-by-second scan. */
module DateRangeSearch {
  import opened Options
  import opened DateRanges

  // ---------------------------------------------------------------- next valid

  /** No range starts at 24:00 or later, or the last second of the day is covered: then
      from every uncovered second the next start, if any, lies in the day. */
  predicate StartsTimely(ranges: seq<TimeRange>) {
    (forall i :: 0 <= i < |ranges| ==> ranges[i].Start() < DAY) || SomeRangeCovers(ranges, DAY - 1)
  }

  /** Every start in the day is itself a covered second. Ranges whose start is not
      after their end have this property, however they overlap. */
  predicate StartsCovered(ranges: seq<TimeRange>) {
    forall i :: 0 <= i < |ranges| && ranges[i].Start() < DAY ==> SomeRangeCovers(ranges, ranges[i].Start())
  }

  /** Hours and minutes are written with two digits. */
  predicate TwoDigitStarts(ranges: seq<TimeRange>) {
    forall i :: 0 <= i < |ranges| ==> ranges[i].hstart < 100 && ranges[i].mstart < 100
  }

  /** A calendar interval that ends before it starts holds no day. */
  predicate Reversed(d: DateRange) {
    d.Calendar? && d.endDay < d.startDay
  }

  /** What a scan over all seconds from t on would return. */
  ghost predicate IsLeastValid(d: DateRange, t: int, r: Option<int>) {
    match r
    case Some(v) => t <= v && IsTimeValid(d, v) && forall u :: t <= u < v ==> !IsTimeValid(d, u)
    case None => forall u :: t <= u ==> !IsTimeValid(d, u)
  }

  lemma OrderedRangesCoverStarts(ranges: seq<TimeRange>)
    requires forall i :: 0 <= i < |ranges| ==> ranges[i].Start() <= ranges[i].End()
    ensures StartsCovered(ranges)
  {
    forall i | 0 <= i < |ranges|
      ensures SomeRangeCovers(ranges, ranges[i].Start())
    {
      assert ranges[i].Covers(ranges[i].Start());
    }
  }

  /** No second is covered between an uncovered second (or midnight) and the next start. */
  lemma NoCoverBeforeNextStart(ranges: seq<TimeRange>, sec: int, x: int)
    requires 0 <= sec <= x && (sec == 0 || !SomeRangeCovers(ranges, sec))
    requires NextStart(ranges, sec).Some? ==> x < NextStart(ranges, sec).value
    ensures !SomeRangeCovers(ranges, x)
  {
    NextStartIsLeast(ranges, sec);
    if i :| 0 <= i < |ranges| && ranges[i].Covers(x) {
      assert ranges[i].Start() < sec ==> ranges[i].Covers(sec);
    }
  }

  /** The next day of the range after day n, if any. */
  function NextDayIn(d: DateRange, n: int): Option<int> {
    match d
    case Weekly(_, weekday, _) => Some(n + 1 + (weekday - WeekdayOf(n + 1)) % 7)
    case Calendar(_, s, e, _) => if n + 1 < s then Some(s) else if n + 1 <= e then Some(n + 1) else None
  }

  lemma NextDayInIsNext(d: DateRange, n: int, m: int)
    requires WellFormedDay(d) && !Reversed(d) && n < m
    ensures NextDayIn(d, n).Some? ==> DayIn(d, NextDayIn(d, n).value) && n < NextDayIn(d, n).value
    ensures DayIn(d, m) ==> NextDayIn(d, n).Some? && NextDayIn(d, n).value <= m
  {
    if d.Weekly? { WeekdayAfter(n + 1, d.weekday, m); }
  }

  /** The first day from n on that is the given weekday. */
  lemma WeekdayAfter(n: int, weekday: int, m: int)
    requires 0 <= weekday < 7 && n <= m
    ensures var k := n + (weekday - WeekdayOf(n)) % 7;
            n <= k && WeekdayOf(k) == weekday && (WeekdayOf(m) == weekday ==> k <= m)
  {
  }

  /** The result of the search in day coordinates. */
  function NextValidAt(d: DateRange, n: int, sec: int): Option<int> {
    var today := NextStart(d.ranges, sec);
    if DayIn(d, n) && SomeRangeCovers(d.ranges, sec) then Some(At(d.offset, n, sec))
    else if DayIn(d, n) && today.Some? then Some(At(d.offset, n, today.value))
    else
      var m := NextDayIn(d, n);
      var first := NextStart(d.ranges, 0);
      if m.Some? && first.Some? then Some(At(d.offset, m.value, first.value)) else None
  }

  lemma MidnightCoordinates(offset: int, n: int)
    ensures DayNumber(offset, Midnight(offset, n)) == n
    ensures SecFromMorning(offset, Midnight(offset, n)) == 0
    ensures GetDay(offset, Midnight(offset, n)) == Midnight(offset, n)
  {
    AtCoordinates(offset, n, 0);
  }

  lemma WeekArithmetic(n: int, weekday: int)
    requires 0 <= weekday < 7
    ensures var m := n + (weekday - WeekdayOf(n)) % 7;
            var m' := n + 1 + (weekday - WeekdayOf(n + 1)) % 7;
            && (WeekdayOf(n) == weekday <==> m == n)
            && (WeekdayOf(n) != weekday ==> m == m')
            && n <= m && n < m'
  {
    var k := WeekdayOf(n);
    assert WeekdayOf(n + 1) == if k == 6 then 0 else k + 1;
    assert (weekday - k) % 7 == if weekday < k then weekday - k + 7 else weekday - k;
  }

  lemma WeeklyNextValid(d: DateRange, t: int)
    requires d.Weekly? && WellFormedDay(d)
    ensures NextValidTime(d, t) == NextValidAt(d, DayNumber(d.offset, t), SecFromMorning(d.offset, t))
  {
    var o, n, sec := d.offset, DayNumber(d.offset, t), SecFromMorning(d.offset, t);
    Coordinates(o, t);
    ValidInCoordinates(d, t);
    if !IsTimeValid(d, t) {
      WeekArithmetic(n, d.weekday);
      WeeklyNextValidDay(d, t);
      var today := NextStart(d.ranges, sec);
      if DayIn(d, n) && today.Some? {
        assert NextValidDay(d, t) == Some(GetDay(o, t));
      } else {
        var m := NextDayIn(d, n).value;
        MidnightCoordinates(o, m);
        MidnightCoordinates(o, n + 1);
        WeeklyNextValidDay(d, Midnight(o, n + 1));
      }
    }
  }

  /** The next valid day is today while a start remains, else the next one of the week. */
  lemma WeeklyNextValidDay(d: DateRange, t: int)
    requires d.Weekly? && WellFormedDay(d)
    ensures var n := DayNumber(d.offset, t);
            NextValidDay(d, t) ==
              Some(Midnight(d.offset, if DayIn(d, n) && NextFutureTimerangeValid(d, t).Some?
                                      then n else NextDayIn(d, n).value))
  {
    hide DayNumber, SecFromMorning, GetDay, WeekdayOf, IsTimeValid, NextFutureTimerangeValid;
    var o, n := d.offset, DayNumber(d.offset, t);
    Coordinates(o, t);
    WeekArithmetic(n, d.weekday);
    MidnightCoordinates(o, n + 1);
    MidnightCoordinates(o, n);
    MidnightCoordinates(o, NextDayIn(d, n).value);
    ValidInCoordinates(d, t);
  }

  lemma CalendarNextValid(d: DateRange, t: int)
    requires d.Calendar? && !Reversed(d)
    ensures NextValidTime(d, t) == NextValidAt(d, DayNumber(d.offset, t), SecFromMorning(d.offset, t))
  {
    var o, n, sec := d.offset, DayNumber(d.offset, t), SecFromMorning(d.offset, t);
    Coordinates(o, t);
    ValidInCoordinates(d, t);
    MidnightCoordinates(o, n);
    MidnightCoordinates(o, n + 1);
    MidnightCoordinates(o, d.startDay);
    ValidInCoordinates(d, Midnight(o, n + 1));
  }

  /** On every date range that is not reversed, the search returns what the scan does. */
  lemma NextValidIsLeast(d: DateRange, t: int)
    requires WellFormedDay(d) && StartsTimely(d.ranges) && StartsCovered(d.ranges) && !Reversed(d)
    ensures IsLeastValid(d, t, NextValidTime(d, t))
  {
    var o, n, sec := d.offset, DayNumber(d.offset, t), SecFromMorning(d.offset, t);
    if d.Weekly? { WeeklyNextValid(d, t); } else { CalendarNextValid(d, t); }
    Coordinates(o, t);
    ValidInCoordinates(d, t);
    var r := NextValidTime(d, t);
    if !IsTimeValid(d, t) {
      if r.Some? { NextValidAtIsValid(d, n, sec); }
      forall u | t <= u && (r.Some? ==> u < r.value)
        ensures !IsTimeValid(d, u)
      {
        NothingValidBefore(d, n, sec, u);
      }
    }
  }

  lemma NextValidAtIsValid(d: DateRange, n: int, sec: int)
    requires WellFormedDay(d) && StartsTimely(d.ranges) && StartsCovered(d.ranges) && !Reversed(d)
    requires 0 <= sec < DAY && !ValidAt(d, n, sec) && NextValidAt(d, n, sec).Some?
    ensures NextValidAt(d, n, sec).value >= At(d.offset, n, sec)
    ensures IsTimeValid(d, NextValidAt(d, n, sec).value)
  {
    if DayIn(d, n) && NextStart(d.ranges, sec).Some? {
      NextStartIsCovered(d.ranges, sec);
      ValidAtTime(d, n, NextStart(d.ranges, sec).value);
    } else {
      var m := NextDayIn(d, n).value;
      NextDayInIsNext(d, n, m);
      NextStartIsCovered(d.ranges, 0);
      ValidAtTime(d, m, NextStart(d.ranges, 0).value);
    }
  }

  lemma NextStartIsCovered(ranges: seq<TimeRange>, sec: int)
    requires StartsTimely(ranges) && StartsCovered(ranges) && NextStart(ranges, sec).Some?
    requires 0 <= sec < DAY && (sec == 0 || !SomeRangeCovers(ranges, sec))
    ensures SomeRangeCovers(ranges, NextStart(ranges, sec).value)
    ensures NextStart(ranges, sec).value < DAY
  {
    NextStartInDay(ranges, sec);
    NextStartIsLeast(ranges, sec);
  }

  lemma NextStartInDay(ranges: seq<TimeRange>, sec: int)
    requires StartsTimely(ranges) && NextStart(ranges, sec).Some?
    requires 0 <= sec < DAY && (sec == 0 || !SomeRangeCovers(ranges, sec))
    ensures NextStart(ranges, sec).value < DAY
  {
    hide TimeRange.Start, TimeRange.End, NextStart;
    NextStartIsLeast(ranges, sec);
    assert forall i :: 0 <= i < |ranges| && ranges[i].Covers(DAY - 1) && ranges[i].Start() < sec ==>
             ranges[i].Covers(sec);
  }

  lemma NothingValidBefore(d: DateRange, n: int, sec: int, u: int)
    requires WellFormedDay(d) && !Reversed(d) && StartsTimely(d.ranges)
    requires 0 <= sec < DAY && !ValidAt(d, n, sec)
    requires At(d.offset, n, sec) <= u
    requires NextValidAt(d, n, sec).Some? ==> u < NextValidAt(d, n, sec).value
    ensures !IsTimeValid(d, u)
  {
    var m, x := DayNumber(d.offset, u), SecFromMorning(d.offset, u);
    Coordinates(d.offset, u);
    ValidInCoordinates(d, u);
    NextStartIsLeast(d.ranges, sec);
    if DayIn(d, m) {
      if m == n {
        NoCoverBeforeNextStart(d.ranges, sec, x);
      } else {
        NextDayInIsNext(d, n, m);
        if NextStart(d.ranges, 0).Some? { NextStartInDay(d.ranges, 0); }
        NoCoverBeforeNextStart(d.ranges, 0, x);
      }
    }
  }

  /** A weekly range with at least one time range always has a next valid time. */
  lemma WeeklyAlwaysFinds(d: DateRange, t: int)
    requires d.Weekly? && WellFormedDay(d) && |d.ranges| > 0
    ensures NextValidTime(d, t).Some?
  {
    WeeklyNextValid(d, t);
    NextStartIsLeast(d.ranges, 0);
    assert d.ranges[0].Start() >= 0;
  }

  /** For a reversed calendar interval nothing is ever valid, but up to its
      start the search still answers with a time of the start day. */
  lemma ReversedCalendarIff(d: DateRange, t: int)
    requires Reversed(d) && |d.ranges| > 0
    ensures IsLeastValid(d, t, NextValidTime(d, t)) <==> Midnight(d.offset, d.startDay) < t
  {
    forall u ensures !IsTimeValid(d, u) {
      ValidInCoordinates(d, u);
    }
    var start := Midnight(d.offset, d.startDay);
    MidnightCoordinates(d.offset, d.startDay);
    NextStartIsLeast(d.ranges, 0);
    assert d.ranges[0].Start() >= 0;
    if t <= start {
      assert NextValidDay(d, t) == Some(start);
      assert NextStart(d.ranges, 0).Some?;
      assert NextValidTime(d, t).Some?;
    } else {
      assert NextValidDay(d, t).None?;
    }
  }

  ghost predicate SearchIsRight(d: DateRange) {
    forall t :: IsLeastValid(d, t, NextValidTime(d, t))
  }

  /** The search is right at every time exactly when starts are timely and covered; on
      a reversed calendar interval, only if it has no time range at all. */
  lemma SearchRightIff(d: DateRange)
    requires WellFormedDay(d) && (d.Weekly? ==> TwoDigitStarts(d.ranges))
    ensures SearchIsRight(d) <==>
              if Reversed(d) then d.ranges == [] else StartsTimely(d.ranges) && StartsCovered(d.ranges)
  {
    hide NextValidTime, IsTimeValid;
    if Reversed(d) {
      ReversedSearchRightIff(d);
    } else if !StartsTimely(d.ranges) {
      LateStartMisleads(d);
    } else if StartsCovered(d.ranges) {
      forall t ensures IsLeastValid(d, t, NextValidTime(d, t)) {
        NextValidIsLeast(d, t);
      }
    } else {
      var i :| 0 <= i < |d.ranges| && d.ranges[i].Start() < DAY && !SomeRangeCovers(d.ranges, d.ranges[i].Start());
      UncoveredStartMisleads(d, i);
    }
  }

  /** Starts are full minutes: at the last second of the day only those from 24:00 on are left. */
  lemma LateStart(ranges: seq<TimeRange>)
    requires !StartsTimely(ranges)
    ensures NextStart(ranges, DAY - 1).Some? && NextStart(ranges, DAY - 1).value >= DAY
    ensures TwoDigitStarts(ranges) ==> NextStart(ranges, DAY - 1).value < 7 * DAY
  {
    NextStartIsLeast(ranges, DAY - 1);
    var i :| 0 <= i < |ranges| && ranges[i].Start() >= DAY;
    var j :| 0 <= j < |ranges| && ranges[j].Start() == NextStart(ranges, DAY - 1).value;
    var m := ranges[j].hstart * 60 + ranges[j].mstart;
    assert ranges[j].Start() == 60 * m;
  }

  /** The days after a last day, a week long or for ever. */
  lemma DaysAfter(d: DateRange, n: int, m: int)
    requires WellFormedDay(d) && DayIn(d, n) && !DayIn(d, n + 1) && n < m && (d.Weekly? ==> m < n + 7)
    ensures !DayIn(d, m)
  {
  }

  /** Then, at the end of a last day, the search answers with a time of a later day. */
  lemma LateStartMisleads(d: DateRange)
    requires WellFormedDay(d) && !Reversed(d) && (d.Weekly? ==> TwoDigitStarts(d.ranges)) && !StartsTimely(d.ranges)
    ensures !SearchIsRight(d)
  {
    hide IsTimeValid, NextValidTime, NextStart, DayIn;
    var n := SomeLastDay(d);
    LateStart(d.ranges);
    var s := NextStart(d.ranges, DAY - 1).value;
    var t, v := At(d.offset, n, DAY - 1), At(d.offset, n, s);
    ValidAtTime(d, n, DAY - 1);
    AtCoordinates(d.offset, n, DAY - 1);
    if d.Weekly? { WeeklyNextValid(d, t); } else { CalendarNextValid(d, t); }
    assert DayNumber(d.offset, v) == n + s / DAY;
    DaysAfter(d, n, n + s / DAY);
    ValidInCoordinates(d, v);
    assert NextValidTime(d, t) == Some(v);
    assert !IsLeastValid(d, t, NextValidTime(d, t));
  }

  lemma ReversedSearchRightIff(d: DateRange)
    requires Reversed(d)
    ensures SearchIsRight(d) <==> d.ranges == []
  {
    if d.ranges == [] {
      forall t ensures IsLeastValid(d, t, NextValidTime(d, t)) {}
    } else {
      var t := Midnight(d.offset, d.startDay);
      ReversedCalendarIff(d, t);
      assert !IsLeastValid(d, t, NextValidTime(d, t));
    }
  }

  /** Some day of the range. */
  lemma SomeDayIn(d: DateRange) returns (n: int)
    requires WellFormedDay(d) && !Reversed(d)
    ensures DayIn(d, n)
  {
    if d.Calendar? {
      n := d.startDay;
    } else {
      n := NextDayIn(d, 0).value;
      WeekdayAfter(1, d.weekday, n);
    }
  }

  /** A day of the range that is followed by one that is not. */
  lemma SomeLastDay(d: DateRange) returns (n: int)
    requires WellFormedDay(d) && !Reversed(d)
    ensures DayIn(d, n) && !DayIn(d, n + 1)
  {
    n := SomeDayIn(d);
    if d.Calendar? { n := d.endDay; }
  }

  /** At an uncovered start the search returns that very second. */
  lemma UncoveredStartMisleads(d: DateRange, i: int)
    requires WellFormedDay(d) && !Reversed(d)
    requires 0 <= i < |d.ranges| && d.ranges[i].Start() < DAY && !SomeRangeCovers(d.ranges, d.ranges[i].Start())
    ensures !SearchIsRight(d)
  {
    hide DayNumber, SecFromMorning, GetDay, IsTimeValid, NextValidTime, NextStart, DayIn;
    var n := SomeDayIn(d);
    var sec := d.ranges[i].Start();
    var t := At(d.offset, n, sec);
    AtCoordinates(d.offset, n, sec);
    ValidAtTime(d, n, sec);
    if d.Weekly? { WeeklyNextValid(d, t); } else { CalendarNextValid(d, t); }
    NextStartIsLeast(d.ranges, sec);
    assert !IsLeastValid(d, t, NextValidTime(d, t));
  }

  // ---------------------------------------------------------------- next invalid

  /** Some range ends exactly at 24:00. */
  predicate EndsAtMidnight(ranges: seq<TimeRange>) {
    exists i :: 0 <= i < |ranges| && ranges[i].End() == DAY
  }

  /** From every covered second of the day, the next end lies in the day: ends after
      24:00 do no harm unless they reach the last second without one at 24:00. */
  predicate StopsByMidnight(ranges: seq<TimeRange>) {
    SomeRangeCovers(ranges, DAY - 1) ==> EndsAtMidnight(ranges)
  }

  ghost predicate IsLeastInvalid(d: DateRange, t: int, r: int) {
    t <= r && !IsTimeValid(d, r) && forall u :: t <= u < r ==> IsTimeValid(d, u)
  }

  /** On a valid time the search goes to the second after the least end. */
  lemma NextInvalidOfValid(d: DateRange, t: int)
    requires WellFormedDay(d) && IsTimeValid(d, t)
    ensures var sec := SecFromMorning(d.offset, t);
            && SomeRangeCovers(d.ranges, sec)
            && NextEnd(d.ranges, sec).Some? && sec <= NextEnd(d.ranges, sec).value
    ensures NextInvalidTime(d, t) ==
            Some(GetDay(d.offset, t) + NextEnd(d.ranges, SecFromMorning(d.offset, t)).value + 1)
  {
    Coordinates(d.offset, t);
    ValidInCoordinates(d, t);
    var sec := SecFromMorning(d.offset, t);
    NextEndIsLeast(d.ranges, sec);
    var i :| 0 <= i < |d.ranges| && d.ranges[i].Covers(sec);
  }

  lemma NextEndInDay(ranges: seq<TimeRange>, sec: int)
    requires StopsByMidnight(ranges) && 0 <= sec < DAY && SomeRangeCovers(ranges, sec)
    ensures NextEnd(ranges, sec).Some? && NextEnd(ranges, sec).value < DAY
  {
    hide TimeRange.Start, TimeRange.End, NextEnd;
    NextEndIsLeast(ranges, sec);
    var i :| 0 <= i < |ranges| && ranges[i].Covers(sec);
    if ranges[i].End() >= DAY {
      assert ranges[i].Covers(DAY - 1);
      var j :| 0 <= j < |ranges| && ranges[j].End() == DAY;
    }
  }

  /** From a covered second on, all seconds up to the next end are covered. */
  lemma CoveredUpToNextEnd(ranges: seq<TimeRange>, sec: int, x: int)
    requires SomeRangeCovers(ranges, sec) && NextEnd(ranges, sec).Some? && sec <= x <= NextEnd(ranges, sec).value
    ensures SomeRangeCovers(ranges, x)
  {
    NextEndIsLeast(ranges, sec);
    var i :| 0 <= i < |ranges| && ranges[i].Covers(sec);
    assert ranges[i].Covers(x);
  }

  /** Everything before the returned time is valid. */
  lemma ValidUntilNextInvalid(d: DateRange, t: int, u: int)
    requires WellFormedDay(d) && StopsByMidnight(d.ranges)
    ensures NextInvalidTime(d, t).Some? && t <= NextInvalidTime(d, t).value
    ensures t <= u < NextInvalidTime(d, t).value ==> IsTimeValid(d, u)
  {
    if IsTimeValid(d, t) {
      hide NextInvalidTime, IsTimeValid, DayNumber, SecFromMorning, GetDay, DayIn, NextEnd, SomeRangeCovers,
        StopsByMidnight;
      NextInvalidOfValid(d, t);
      var o, n, sec := d.offset, DayNumber(d.offset, t), SecFromMorning(d.offset, t);
      NextEndInDay(d.ranges, sec);
      Coordinates(o, t);
      ValidInCoordinates(d, t);
      if t <= u < NextInvalidTime(d, t).value {
        var x := u - Midnight(o, n);
        ValidAtTime(d, n, x);
        CoveredUpToNextEnd(d.ranges, sec, x);
      }
    }
  }

  ghost predicate AlwaysValidUntil(d: DateRange) {
    forall t :: NextInvalidTime(d, t).Some? && ValidBefore(d, t, NextInvalidTime(d, t).value)
  }

  ghost predicate ValidBefore(d: DateRange, t: int, r: int) {
    t <= r && forall u :: t <= u < r ==> IsTimeValid(d, u)
  }

  /** Ends are full minutes: at the last second of the day only ends from 24:00 on are left. */
  lemma LateEnd(ranges: seq<TimeRange>)
    requires !StopsByMidnight(ranges)
    ensures NextEnd(ranges, DAY - 1).Some? && NextEnd(ranges, DAY - 1).value > DAY
  {
    NextEndIsLeast(ranges, DAY - 1);
    var i :| 0 <= i < |ranges| && ranges[i].Covers(DAY - 1);
    var j :| 0 <= j < |ranges| && ranges[j].End() >= DAY - 1 && LastSecond(ranges[j]) == NextEnd(ranges, DAY - 1).value;
    var e := ranges[j].hend * 60 + ranges[j].mend;
    assert ranges[j].End() == 60 * e;
    assert ranges[j].End() != DAY;
  }

  /** Then the answer lies after the next midnight, which is invalid after a last day. */
  lemma LateEndMisleads(d: DateRange, n: int)
    requires WellFormedDay(d) && !StopsByMidnight(d.ranges) && DayIn(d, n) && !DayIn(d, n + 1)
    ensures var t := At(d.offset, n, DAY - 1);
            && NextInvalidTime(d, t).Some? && t + 1 < NextInvalidTime(d, t).value
            && !IsTimeValid(d, t + 1) && IsTimeValid(d, t)
  {
    hide NextInvalidTime, IsTimeValid, DayNumber, SecFromMorning, GetDay, DayIn, NextEnd, SomeRangeCovers;
    var o := d.offset;
    var t := At(o, n, DAY - 1);
    ValidAtTime(d, n, DAY - 1);
    ValidAtTime(d, n + 1, 0);
    AtCoordinates(o, n, DAY - 1);
    Coordinates(o, t);
    NextInvalidOfValid(d, t);
    LateEnd(d.ranges);
  }

  /** Every time before the answer is valid, at all times, exactly when the ranges
      stop by midnight or nothing is valid anyway. */
  lemma AlwaysValidUntilIff(d: DateRange)
    requires WellFormedDay(d)
    ensures AlwaysValidUntil(d) <==> Reversed(d) || StopsByMidnight(d.ranges)
  {
    if Reversed(d) {
      forall t ensures NextInvalidTime(d, t).Some? && ValidBefore(d, t, NextInvalidTime(d, t).value) {
        ValidInCoordinates(d, t);
      }
    } else if StopsByMidnight(d.ranges) {
      hide NextInvalidTime, IsTimeValid, StopsByMidnight;
      forall t ensures NextInvalidTime(d, t).Some? && ValidBefore(d, t, NextInvalidTime(d, t).value) {
        ValidUntilNextInvalid(d, t, t);
        forall u | t <= u < NextInvalidTime(d, t).value ensures IsTimeValid(d, u) {
          ValidUntilNextInvalid(d, t, u);
        }
      }
    } else {
      hide NextInvalidTime, IsTimeValid, StopsByMidnight;
      var n := SomeLastDay(d);
      LateEndMisleads(d, n);
      var t := At(d.offset, n, DAY - 1);
      assert !ValidBefore(d, t, NextInvalidTime(d, t).value);
    }
  }

  /** No range covers the second of the day that follows the last second of a
      range: ranges may share an end but may not run on into each other. */
  predicate RangesApart(ranges: seq<TimeRange>) {
    forall i :: 0 <= i < |ranges| && LastSecond(ranges[i]) + 1 < DAY ==>
      !SomeRangeCovers(ranges, LastSecond(ranges[i]) + 1)
  }

  /** The last second of a day and midnight are covered, and two days of the interval
      follow each other: then midnight itself stays valid. */
  predicate JoinsAtMidnight(d: DateRange) {
    && d.Calendar? && d.startDay < d.endDay
    && SomeRangeCovers(d.ranges, DAY - 1) && SomeRangeCovers(d.ranges, 0)
  }

  ghost predicate InvalidSearchIsRight(d: DateRange) {
    forall t :: NextInvalidTime(d, t).Some? && IsLeastInvalid(d, t, NextInvalidTime(d, t).value)
  }

  lemma NextInvalidIsLeast(d: DateRange, t: int)
    requires WellFormedDay(d) && StopsByMidnight(d.ranges)
    requires RangesApart(d.ranges) && !JoinsAtMidnight(d)
    ensures NextInvalidTime(d, t).Some? && IsLeastInvalid(d, t, NextInvalidTime(d, t).value)
  {
    assert !IsTimeValid(d, t) ==> NextInvalidTime(d, t) == Some(t);
    hide NextInvalidTime, IsTimeValid, RangesApart, JoinsAtMidnight, StopsByMidnight;
    ValidUntilNextInvalid(d, t, t);
    forall u | t <= u < NextInvalidTime(d, t).value ensures IsTimeValid(d, u) {
      ValidUntilNextInvalid(d, t, u);
    }
    if IsTimeValid(d, t) { InvalidAtNextInvalid(d, t); }
  }

  lemma InvalidAtNextInvalid(d: DateRange, t: int)
    requires WellFormedDay(d) && StopsByMidnight(d.ranges) && IsTimeValid(d, t)
    requires RangesApart(d.ranges) && !JoinsAtMidnight(d)
    ensures NextInvalidTime(d, t).Some? && !IsTimeValid(d, NextInvalidTime(d, t).value)
  {
    hide NextInvalidTime, RangesApart, JoinsAtMidnight, NextEnd, LastSecond, StopsByMidnight, SomeRangeCovers;
    var o, n, sec := d.offset, DayNumber(d.offset, t), SecFromMorning(d.offset, t);
    NextInvalidOfValid(d, t);
    NextEndInDay(d.ranges, sec);
    Coordinates(o, t);
    ValidInCoordinates(d, t);
    hide IsTimeValid, DayNumber, SecFromMorning, GetDay;
    NextEndIsLeast(d.ranges, sec);
    var i :| 0 <= i < |d.ranges| && LastSecond(d.ranges[i]) == NextEnd(d.ranges, sec).value;
    CoveredUpToNextEnd(d.ranges, sec, LastSecond(d.ranges[i]));
    InvalidAfterLast(d, n, i);
  }

  /** The second after the last one of a range is invalid. */
  lemma InvalidAfterLast(d: DateRange, n: int, i: int)
    requires WellFormedDay(d) && DayIn(d, n) && 0 <= i < |d.ranges|
    requires LastSecond(d.ranges[i]) < DAY && SomeRangeCovers(d.ranges, LastSecond(d.ranges[i]))
    requires RangesApart(d.ranges) && !JoinsAtMidnight(d)
    ensures !IsTimeValid(d, At(d.offset, n, LastSecond(d.ranges[i])) + 1)
  {
    hide SomeRangeCovers;
    var e := LastSecond(d.ranges[i]);
    if e + 1 < DAY {
      ValidAtTime(d, n, e + 1);
    } else {
      ValidAtTime(d, n + 1, 0);
      assert DayIn(d, n + 1) ==> d.Calendar?;
    }
  }

  /** Ranges start and end at full minutes: one that covers the second after an end
      covers the end itself. */
  lemma CoveredBefore(ranges: seq<TimeRange>, i: int)
    requires 0 <= i < |ranges| && LastSecond(ranges[i]) + 1 < DAY
    requires SomeRangeCovers(ranges, LastSecond(ranges[i]) + 1)
    ensures SomeRangeCovers(ranges, LastSecond(ranges[i]))
  {
    var j :| 0 <= j < |ranges| && ranges[j].Covers(LastSecond(ranges[i]) + 1);
    FullMinutes(ranges[i].hend, ranges[i].mend, ranges[j].hstart, ranges[j].mstart);
    assert ranges[j].Covers(LastSecond(ranges[i]));
  }

  lemma FullMinutes(h: nat, m: nat, h': nat, m': nat)
    ensures h' * 3600 + m' * 60 <= h * 3600 + m * 60 + 1 ==> h' * 3600 + m' * 60 <= h * 3600 + m * 60
  {
    var x, y := h' * 60 + m', h * 60 + m;
    assert h' * 3600 + m' * 60 == 60 * x && h * 3600 + m * 60 == 60 * y;
  }

  /** A last second in the day that is covered, and followed by a valid time, misleads. */
  lemma TouchingRangesMislead(d: DateRange, n: int, i: int)
    requires WellFormedDay(d) && DayIn(d, n) && 0 <= i < |d.ranges| && LastSecond(d.ranges[i]) < DAY
    requires if LastSecond(d.ranges[i]) + 1 < DAY
             then SomeRangeCovers(d.ranges, LastSecond(d.ranges[i]) + 1)
             else DayIn(d, n + 1) && SomeRangeCovers(d.ranges, DAY - 1) && SomeRangeCovers(d.ranges, 0)
    ensures !InvalidSearchIsRight(d)
  {
    hide IsTimeValid, NextInvalidTime, DayIn, SomeRangeCovers;
    var o, last := d.offset, LastSecond(d.ranges[i]);
    var t := At(o, n, last);
    if last + 1 < DAY { CoveredBefore(d.ranges, i); }
    ValidAtTime(d, n, last);
    StopsAtLastSecond(d, n, i);
    if last + 1 < DAY {
      ValidAtTime(d, n, last + 1);
    } else {
      ValidAtTime(d, n + 1, 0);
    }
    assert !IsLeastInvalid(d, t, NextInvalidTime(d, t).value);
  }

  lemma StopsAtLastSecond(d: DateRange, n: int, i: int)
    requires WellFormedDay(d) && 0 <= i < |d.ranges|
    requires 0 <= LastSecond(d.ranges[i]) < DAY && IsTimeValid(d, At(d.offset, n, LastSecond(d.ranges[i])))
    ensures var t := At(d.offset, n, LastSecond(d.ranges[i]));
            NextInvalidTime(d, t) == Some(t + 1)
  {
    hide NextInvalidTime, IsTimeValid, DayNumber, NextEnd;
    var last := LastSecond(d.ranges[i]);
    var t := At(d.offset, n, last);
    AtCoordinates(d.offset, n, last);
    NextInvalidOfValid(d, t);
    NextEndIsLeast(d.ranges, last);
  }

  /** The search for the next invalid time is right at every time exactly when the
      ranges stop by midnight and none runs on into another, within a day or across
      midnight, or when the calendar interval is reversed and nothing is valid anyway. */
  lemma InvalidSearchRightIff(d: DateRange)
    requires WellFormedDay(d)
    ensures InvalidSearchIsRight(d) <==>
              Reversed(d) || (StopsByMidnight(d.ranges) && RangesApart(d.ranges) && !JoinsAtMidnight(d))
  {
    if Reversed(d) {
      forall t
        ensures NextInvalidTime(d, t).Some? && IsLeastInvalid(d, t, NextInvalidTime(d, t).value)
      {
        ValidInCoordinates(d, t);
      }
    } else if StopsByMidnight(d.ranges) {
      StoppingSearchRightIff(d);
    } else {
      hide NextInvalidTime, IsTimeValid, StopsByMidnight;
      var n := SomeLastDay(d);
      LateEndMisleads(d, n);
      var t := At(d.offset, n, DAY - 1);
      assert !IsLeastInvalid(d, t, NextInvalidTime(d, t).value);
    }
  }

  lemma StoppingSearchRightIff(d: DateRange)
    requires WellFormedDay(d) && !Reversed(d) && StopsByMidnight(d.ranges)
    ensures InvalidSearchIsRight(d) <==> RangesApart(d.ranges) && !JoinsAtMidnight(d)
  {
    if RangesApart(d.ranges) && !JoinsAtMidnight(d) {
      forall t
        ensures NextInvalidTime(d, t).Some? && IsLeastInvalid(d, t, NextInvalidTime(d, t).value)
      {
        NextInvalidIsLeast(d, t);
      }
    } else if RangesApart(d.ranges) {
      var i :| 0 <= i < |d.ranges| && d.ranges[i].End() == DAY;
      TouchingRangesMislead(d, d.startDay, i);
    } else {
      var i :| 0 <= i < |d.ranges| && LastSecond(d.ranges[i]) + 1 < DAY
            && SomeRangeCovers(d.ranges, LastSecond(d.ranges[i]) + 1);
      var n := SomeDayIn(d);
      TouchingRangesMislead(d, n, i);
    }
  }

  lemma WholeDayAndOther(rs: seq<TimeRange>, sec: int)
    requires |rs| == 2 && rs[0].Start() == 0 && rs[0].End() == DAY && 0 <= sec <= rs[1].End() < DAY - 1
    ensures SomeRangeCovers(rs, sec) && SomeRangeCovers(rs, rs[1].End() + 1)
    ensures NextEnd(rs, sec) == Some(rs[1].End())
  {
    hide TimeRange.Start, TimeRange.End, NextEnd;
    assert rs[0].Covers(sec) && rs[0].Covers(rs[1].End() + 1);
    NextEndIsLeast(rs, sec);
  }

  /** Beside 00:00-24:00, any range that ends in the day stops the search at its end,
      even one like 22:00-06:00 that holds no second itself. */
  lemma InnerEndMisleads(offset: int, n: int, rs: seq<TimeRange>, sec: int)
    requires |rs| == 2 && rs[0].Start() == 0 && rs[0].End() == DAY && 0 <= sec <= rs[1].End() < DAY - 1
    ensures var d := Calendar(offset, n, n, rs); var after := At(offset, n, rs[1].End() + 1);
            NextInvalidTime(d, At(offset, n, sec)) == Some(after) && IsTimeValid(d, after)
  {
    hide TimeRange.Start, TimeRange.End, NextInvalidTime, IsTimeValid, DayNumber, SecFromMorning, GetDay, NextEnd,
      SomeRangeCovers;
    WholeDayAndOther(rs, sec);
    var d := Calendar(offset, n, n, rs);
    var t := At(offset, n, sec);
    ValidAtTime(d, n, sec);
    ValidAtTime(d, n, rs[1].End() + 1);
    AtCoordinates(offset, n, sec);
    Coordinates(offset, t);
    NextInvalidOfValid(d, t);
  }

  /** With 00:00-24:00 and 22:00-06:00, from five in the morning (second 18000) the
      next invalid time is said to be just after six (second 21601). */
  lemma EmptyRangeMisleads(offset: int, n: int)
    ensures var d := Calendar(offset, n, n, [TimeRange(0, 0, 24, 0), TimeRange(22, 0, 6, 0)]);
            var after := At(offset, n, 21601);
            NextInvalidTime(d, At(offset, n, 18000)) == Some(after) && IsTimeValid(d, after)
  {
    hide TimeRange.Start, TimeRange.End, NextInvalidTime, IsTimeValid;
    var whole, night := TimeRange(0, 0, 24, 0), TimeRange(22, 0, 6, 0);
    ClockTimes(whole, 0, 0, 24, 0);
    ClockTimes(night, 22, 0, 6, 0);
    InnerEndMisleads(offset, n, [whole, night], 18000);
  }

  /** With 00:00-24:30 on mondays only (weekday 0; day 4 was a monday), from midnight
      the next invalid time is said to be half past midnight on tuesday, although
      tuesday midnight is invalid. */
  lemma AfterMidnightMisleads(offset: int)
    ensures var d := Weekly(offset, 0, [TimeRange(0, 0, 24, 30)]); var tuesday := At(offset, 5, 0);
            && NextInvalidTime(d, At(offset, 4, 0)) == Some(At(offset, 5, 1801))
            && IsTimeValid(d, At(offset, 4, 0)) && !IsTimeValid(d, tuesday)
  {
    hide TimeRange.Start, TimeRange.End, NextInvalidTime, IsTimeValid, DayNumber, SecFromMorning, GetDay, NextEnd;
    var long := TimeRange(0, 0, 24, 30);
    ClockTimes(long, 0, 0, 24, 30);
    var rs, d := [long], Weekly(offset, 0, [long]);
    assert DayIn(d, 4) && !DayIn(d, 5);
    hide DayIn;
    assert rs[0].Covers(0);
    NextEndIsLeast(rs, 0);
    var t := At(offset, 4, 0);
    ValidAtTime(d, 4, 0);
    ValidAtTime(d, 5, 0);
    AtCoordinates(offset, 4, 0);
    Coordinates(offset, t);
    NextInvalidOfValid(d, t);
  }
}
