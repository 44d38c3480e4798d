/** Date ranges: which seconds are valid, and the searches that jump by day and
    by time range to the next valid or invalid second. */
module DateRanges {
  import opened Options

  const DAY := 86400

  /** HH:MM-HH:MM, both ends included. */
  datatype TimeRange = TimeRange(hstart: nat, mstart: nat, hend: nat, mend: nat) {
    function Start(): nat { hstart * 3600 + mstart * 60 }
    function End(): nat { hend * 3600 + mend * 60 }
    predicate Covers(sec: int) { Start() <= sec <= End() }
  }

  /** A weekday (0 is monday) or an interval of calendar days, counted from the
      epoch, with the time ranges of each of its days. The local time is the
      timestamp plus a fixed offset. */
  datatype DateRange =
    | Weekly(offset: int, weekday: int, ranges: seq<TimeRange>)
    | Calendar(offset: int, startDay: int, endDay: int, ranges: seq<TimeRange>)

  /** The order of the clock: hours first, then minutes. */
  predicate NotAfter(h: nat, m: nat, h': nat, m': nat) { h < h' || (h == h' && m <= m') }

  /** A time of the day is covered if it lies between start and end on the clock. */
  lemma CoversByTheClock(r: TimeRange, h: nat, m: nat)
    requires r.mstart < 60 && r.mend < 60 && m < 60
    ensures r.Covers(h * 3600 + m * 60) <==> NotAfter(r.hstart, r.mstart, h, m) && NotAfter(h, m, r.hend, r.mend)
  {
  }

  lemma ClockTimes(r: TimeRange, h: nat, m: nat, h': nat, m': nat)
    requires r == TimeRange(h, m, h', m')
    ensures r.Start() == h * 3600 + m * 60 && r.End() == h' * 3600 + m' * 60
  {
  }

  // ---------------------------------------------------------------- local time

  function DayNumber(offset: int, t: int): int { (t + offset) / DAY }

  function SecFromMorning(offset: int, t: int): (s: int)
    ensures 0 <= s < DAY
  {
    (t + offset) % DAY
  }

  /** Midnight of the day of t. */
  function GetDay(offset: int, t: int): int { t - SecFromMorning(offset, t) }

  /** The epoch was a thursday. */
  function WeekdayOf(dayNumber: int): int { (dayNumber + 3) % 7 }

  function Midnight(offset: int, dayNumber: int): int { dayNumber * DAY - offset }

  /** Local time is the timestamp plus the offset, in days and seconds. */
  lemma LocalTime(offset: int, t: int)
    ensures DayNumber(offset, t) * DAY + SecFromMorning(offset, t) == t + offset
    ensures 0 <= SecFromMorning(offset, t) < DAY
  {
  }

  // ---------------------------------------------------------------- validity

  /** The period that contains t or comes next. */
  function StartAndEnd(d: DateRange, t: int): (int, int) {
    match d
    case Weekly(o, weekday, _) =>
      var n := DayNumber(o, t);
      var m := n + (weekday - WeekdayOf(n)) % 7;
      (Midnight(o, m), Midnight(o, m) + DAY - 1)
    case Calendar(o, s, e, _) =>
      (Midnight(o, s), Midnight(o, e) + DAY - 1)
  }

  predicate IsTimeDayValid(d: DateRange, t: int) {
    var (s, e) := StartAndEnd(d, t);
    s <= t <= e
  }

  predicate SomeRangeCovers(ranges: seq<TimeRange>, sec: int) {
    exists i :: 0 <= i < |ranges| && ranges[i].Covers(sec)
  }

  predicate IsTimeValid(d: DateRange, t: int) {
    IsTimeDayValid(d, t) && SomeRangeCovers(d.ranges, SecFromMorning(d.offset, t))
  }

  // ---------------------------------------------------------------- range ends

  function OptMin(v: int, o: Option<int>): Option<int> {
    if o.Some? && o.value <= v then o else Some(v)
  }

  /** The least start that is not before sec. */
  function NextStart(ranges: seq<TimeRange>, sec: int): (r: Option<int>)
    ensures r.Some? ==> r.value >= sec
  {
    if |ranges| == 0 then None
    else
      var rest := NextStart(ranges[..|ranges| - 1], sec);
      var last := ranges[|ranges| - 1].Start();
      if last >= sec then OptMin(last, rest) else rest
  }

  /** The last second of the day that a range covers; 24:00 stands for 23:59:59. */
  function LastSecond(r: TimeRange): int {
    if r.End() == DAY then DAY - 1 else r.End()
  }

  /** The least last second among the ranges that do not end before sec. */
  function NextEnd(ranges: seq<TimeRange>, sec: int): Option<int>
  {
    if |ranges| == 0 then None
    else
      var rest := NextEnd(ranges[..|ranges| - 1], sec);
      var last := ranges[|ranges| - 1];
      if last.End() >= sec then OptMin(LastSecond(last), rest) else rest
  }

  lemma {:induction false} NextStartIsLeast(ranges: seq<TimeRange>, sec: int)
    ensures var r := NextStart(ranges, sec);
            && (r.None? <==> forall i :: 0 <= i < |ranges| ==> ranges[i].Start() < sec)
            && (r.Some? ==> exists i :: 0 <= i < |ranges| && ranges[i].Start() == r.value)
            && (r.Some? ==> forall i :: 0 <= i < |ranges| && ranges[i].Start() >= sec ==> r.value <= ranges[i].Start())
  {
    if |ranges| > 0 {
      NextStartIsLeast(ranges[..|ranges| - 1], sec);
      var last := |ranges| - 1;
      assert forall i :: 0 <= i < last ==> ranges[..last][i] == ranges[i];
      assert ranges[last].Start() < sec || ranges[last].Start() >= sec;
    }
  }

  lemma {:induction false} NextEndIsLeast(ranges: seq<TimeRange>, sec: int)
    ensures var r := NextEnd(ranges, sec);
            && (r.None? <==> forall i :: 0 <= i < |ranges| ==> ranges[i].End() < sec)
            && (r.Some? ==> exists i :: 0 <= i < |ranges| && ranges[i].End() >= sec && LastSecond(ranges[i]) == r.value)
            && (r.Some? ==> forall i :: 0 <= i < |ranges| && ranges[i].End() >= sec ==> r.value <= LastSecond(ranges[i]))
  {
    if |ranges| > 0 {
      NextEndIsLeast(ranges[..|ranges| - 1], sec);
      var last := |ranges| - 1;
      assert forall i :: 0 <= i < last ==> ranges[..last][i] == ranges[i];
      assert ranges[last].End() < sec || ranges[last].End() >= sec;
    }
  }

  // ---------------------------------------------------------------- searches

  function NextFutureTimerangeValid(d: DateRange, t: int): Option<int> {
    NextStart(d.ranges, SecFromMorning(d.offset, t))
  }

  function NextFutureTimerangeInvalid(d: DateRange, t: int): Option<int> {
    NextEnd(d.ranges, SecFromMorning(d.offset, t))
  }

  function NextValidDay(d: DateRange, t: int): Option<int> {
    var o := d.offset;
    var start := if NextFutureTimerangeValid(d, t).None?
                 then StartAndEnd(d, GetDay(o, t) + DAY).0
                 else StartAndEnd(d, t).0;
    if t <= start then Some(GetDay(o, start))
    else if IsTimeDayValid(d, t) then Some(GetDay(o, t))
    else None
  }

  function NextValidTime(d: DateRange, t: int): Option<int> {
    if IsTimeValid(d, t) then Some(t)
    else
      var day := NextValidDay(d, t);
      if day.None? then None
      else
        var sec := NextFutureTimerangeValid(d, if t < day.value then day.value else t);
        if sec.Some? then Some(day.value + sec.value)
        else
          var day2 := NextValidDay(d, GetDay(d.offset, t) + DAY);
          if day2.None? then None
          else
            var sec2 := NextFutureTimerangeValid(d, day2.value);
            if sec2.Some? then Some(day2.value + sec2.value) else None
  }

  function NextInvalidDay(d: DateRange, t: int): Option<int> {
    var o := d.offset;
    if !IsTimeDayValid(d, t) then Some(t)
    else
      var next := NextFutureTimerangeInvalid(d, t);
      var (start, end) := StartAndEnd(d, if next.None? then GetDay(o, t) else t);
      if next.Some? then
        if start <= t <= end then Some(GetDay(o, t))
        else if start >= t then Some(GetDay(o, start))
        else None
      else Some(GetDay(o, end + 1))
  }

  function NextInvalidTime(d: DateRange, t: int): Option<int> {
    if !IsTimeValid(d, t) then Some(t)
    else
      var day := NextInvalidDay(d, t);
      if day.None? then None
      else
        var sec := NextFutureTimerangeInvalid(d, if t < day.value then day.value else t);
        if sec.Some? then Some(day.value + sec.value + 1) else day
  }

  // ---------------------------------------------------------------- day coordinates

  /** The second sec of day n. */
  function At(offset: int, n: int, sec: int): int { Midnight(offset, n) + sec }

  lemma AtCoordinates(offset: int, n: int, sec: int)
    requires 0 <= sec < DAY
    ensures DayNumber(offset, At(offset, n, sec)) == n
    ensures SecFromMorning(offset, At(offset, n, sec)) == sec
  {
  }

  lemma Coordinates(offset: int, t: int)
    ensures t == At(offset, DayNumber(offset, t), SecFromMorning(offset, t))
    ensures GetDay(offset, t) == Midnight(offset, DayNumber(offset, t))
  {
  }

  /** Whether day n belongs to the date range. */
  predicate DayIn(d: DateRange, n: int) {
    match d
    case Weekly(_, weekday, _) => WeekdayOf(n) == weekday
    case Calendar(_, s, e, _) => s <= n <= e
  }

  predicate WellFormedDay(d: DateRange) {
    d.Weekly? ==> 0 <= d.weekday < 7
  }

  predicate ValidAt(d: DateRange, n: int, sec: int) {
    DayIn(d, n) && SomeRangeCovers(d.ranges, sec)
  }

  lemma ValidInCoordinates(d: DateRange, t: int)
    requires WellFormedDay(d)
    ensures IsTimeDayValid(d, t) <==> DayIn(d, DayNumber(d.offset, t))
    ensures IsTimeValid(d, t) <==> ValidAt(d, DayNumber(d.offset, t), SecFromMorning(d.offset, t))
  {
  }

  lemma ValidAtTime(d: DateRange, n: int, sec: int)
    requires WellFormedDay(d) && 0 <= sec < DAY
    ensures IsTimeValid(d, At(d.offset, n, sec)) <==> ValidAt(d, n, sec)
  {
    AtCoordinates(d.offset, n, sec);
    ValidInCoordinates(d, At(d.offset, n, sec));
  }

  // ---------------------------------------------------------------- the loops

  function MinOf(xs: seq<int>): Option<int> {
    if |xs| == 0 then None else OptMin(xs[|xs| - 1], MinOf(xs[..|xs| - 1]))
  }

  method Min(xs: seq<int>) returns (m: int)
    requires xs != []
    ensures MinOf(xs) == Some(m)
  {
    m := xs[0];
    for i := 1 to |xs|
      invariant MinOf(xs[..i]) == Some(m)
    {
      assert xs[..i + 1][..i] == xs[..i];
      if xs[i] < m { m := xs[i]; }
    }
    assert xs[..|xs|] == xs;
  }

  method CheckTime(d: DateRange, t: int) returns (valid: bool)
    ensures valid == IsTimeValid(d, t)
  {
    if IsTimeDayValid(d, t) {
      for i := 0 to |d.ranges|
        invariant !SomeRangeCovers(d.ranges[..i], SecFromMorning(d.offset, t))
      {
        if d.ranges[i].Covers(SecFromMorning(d.offset, t)) { return true; }
      }
      assert d.ranges[..|d.ranges|] == d.ranges;
    }
    return false;
  }

  method GetNextFutureTimerangeValid(d: DateRange, t: int) returns (r: Option<int>)
    ensures r == NextFutureTimerangeValid(d, t)
  {
    var sec := SecFromMorning(d.offset, t);
    var starts := [];
    for i := 0 to |d.ranges|
      invariant MinOf(starts) == NextStart(d.ranges[..i], sec)
    {
      assert d.ranges[..i + 1][..i] == d.ranges[..i];
      var start := d.ranges[i].Start();
      if start >= sec {
        starts := starts + [start];
      }
    }
    assert d.ranges[..|d.ranges|] == d.ranges;
    if starts != [] {
      var m := Min(starts);
      return Some(m);
    }
    return None;
  }

  method GetNextFutureTimerangeInvalid(d: DateRange, t: int) returns (r: Option<int>)
    ensures r == NextFutureTimerangeInvalid(d, t)
  {
    var sec := SecFromMorning(d.offset, t);
    var ends := [];
    for i := 0 to |d.ranges|
      invariant MinOf(ends) == NextEnd(d.ranges[..i], sec)
    {
      assert d.ranges[..i + 1][..i] == d.ranges[..i];
      var end := d.ranges[i].End();
      if end >= sec {
        if end == DAY { end := DAY - 1; }
        ends := ends + [end];
      }
    }
    assert d.ranges[..|d.ranges|] == d.ranges;
    if ends != [] {
      var m := Min(ends);
      return Some(m);
    }
    return None;
  }
}
