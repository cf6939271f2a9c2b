/**
 * The daylight table generator `calculate_sunrise_sunset`: every date of
 * 2025 in turn is handed to a sunrise/sunset calculator; a date for which
 * the calculator raises is skipped, and every other date contributes one
 * entry to each of six parallel lists (date, sunrise hour, sunset hour,
 * sunrise label, sunset label, daylight hours).
 *
 * The calculator and the time-zone conversion are parameters: `sun` answers
 * for a date with a failure or with sunrise and sunset as UTC instants in
 * seconds, and `toLocal` maps a UTC instant to the local wall-clock reading
 * in seconds.
 */
module Daylight {
  import opened Results
  import opened Calendar
  import opened Clock
  import opened Labels

  const Year := 2025
  const StartDate := Date(2025, 1, 1)
  const EndDate := Date(2025, 12, 31)

  /** What the calculator answers for a date. */
  datatype SunResult = SunTimeException | SunTimes(sunriseUtc: int, sunsetUtc: int)

  /** One day's entry: the values appended to the six lists for one date. */
  datatype DayRecord = DayRecord(
    date: Date,
    sunriseHour: real,
    sunsetHour: real,
    sunriseLabel: string,
    sunsetLabel: string,
    daylightHours: real)

  /** The `strftime("%I:%M %p")` label of a local wall-clock reading. */
  function TimeLabel(t: int): (s: string)
    ensures ParseClockLabel(s) == Some((Hour(t), Minute(t)))
  {
    ParseClockLabelInverts(Hour(t), Minute(t));
    ClockLabel(Hour(t), Minute(t))
  }

  /** The label and the fractional hour of a reading name the same minute of the day. */
  lemma TimeLabelMatchesHour(t: int)
    ensures ParseClockLabel(TimeLabel(t)).Some?
    ensures var (h, m) := ParseClockLabel(TimeLabel(t)).value;
      h as real + m as real / 60.0 == FractionalHour(t)
  {
  }

  /** The entry for date `d` whose local sunrise and sunset readings are given. */
  function MakeRecord(d: Date, localRise: int, localSet: int): (r: DayRecord)
    ensures r.date == d
    ensures 0.0 <= r.sunriseHour < 24.0 && 0.0 <= r.sunsetHour < 24.0
    ensures 0.0 <= r.daylightHours < 24.0
  {
    DayRecord(d, FractionalHour(localRise), FractionalHour(localSet),
              TimeLabel(localRise), TimeLabel(localSet), DurationHours(localRise, localSet))
  }

  /**
   * What every entry satisfies: both hours and the daylight duration lie in
   * [0, 24), each label reads back as the hour and minute of its reading,
   * and the duration is the true difference whenever sunset is at or after
   * sunrise and less than a day later.
   */
  lemma MakeRecordFacts(d: Date, localRise: int, localSet: int)
    ensures var r := MakeRecord(d, localRise, localSet);
      && r.date == d
      && 0.0 <= r.sunriseHour < 24.0 && 0.0 <= r.sunsetHour < 24.0
      && 0.0 <= r.daylightHours < 24.0
      && ParseClockLabel(r.sunriseLabel) == Some((Hour(localRise), Minute(localRise)))
      && ParseClockLabel(r.sunsetLabel) == Some((Hour(localSet), Minute(localSet)))
      && (0 <= localSet - localRise < SecondsPerDay
          ==> r.daylightHours == (localSet - localRise) as real / 3600.0)
  {
    DurationExactIff(localRise, localSet);
  }

  /** The entry the generator makes for a date the calculator answers. */
  function RecordFor(sun: Date -> SunResult, toLocal: int -> int, d: Date): (r: DayRecord)
    requires sun(d).SunTimes?
    ensures r.date == d
    ensures ParseClockLabel(r.sunriseLabel)
         == Some((Hour(toLocal(sun(d).sunriseUtc)), Minute(toLocal(sun(d).sunriseUtc))))
    ensures ParseClockLabel(r.sunsetLabel)
         == Some((Hour(toLocal(sun(d).sunsetUtc)), Minute(toLocal(sun(d).sunsetUtc))))
  {
    MakeRecord(d, toLocal(sun(d).sunriseUtc), toLocal(sun(d).sunsetUtc))
  }

  /** What one date contributes: its entry, or nothing when the calculator raises. */
  function Contribution(sun: Date -> SunResult, toLocal: int -> int, d: Date): (rs: seq<DayRecord>)
    ensures |rs| == (if sun(d).SunTimes? then 1 else 0)
    ensures sun(d).SunTimes? ==> rs[0] == RecordFor(sun, toLocal, d)
  {
    match sun(d)
    case SunTimeException => []
    case SunTimes(_, _) => [RecordFor(sun, toLocal, d)]
  }

  /** The entries made while walking the dates `ds` in order. */
  function Records(sun: Date -> SunResult, toLocal: int -> int, ds: seq<Date>): (rs: seq<DayRecord>)
    ensures |rs| <= |ds|
    ensures forall i :: 0 <= i < |rs| ==>
      && rs[i].date in ds
      && sun(rs[i].date).SunTimes?
      && rs[i] == RecordFor(sun, toLocal, rs[i].date)
    decreases |ds|
  {
    if ds == [] then []
    else Records(sun, toLocal, ds[..|ds| - 1]) + Contribution(sun, toLocal, ds[|ds| - 1])
  }

  /** The dates for which the calculator raises, in walking order: the ones reported and skipped. */
  function Failures(sun: Date -> SunResult, ds: seq<Date>): (fs: seq<Date>)
    ensures forall d :: d in fs <==> d in ds && sun(d).SunTimeException?
    decreases |ds|
  {
    if ds == [] then []
    else
      var init := ds[..|ds| - 1];
      assert ds == init + [ds[|ds| - 1]];
      Failures(sun, init) + (if sun(ds[|ds| - 1]).SunTimeException? then [ds[|ds| - 1]] else [])
  }

  lemma RecordsAppend(sun: Date -> SunResult, toLocal: int -> int, ds: seq<Date>, d: Date)
    ensures Records(sun, toLocal, ds + [d]) == Records(sun, toLocal, ds) + Contribution(sun, toLocal, d)
  {
    assert (ds + [d])[..|ds|] == ds;
  }

  /** Every date the calculator answers yields an entry. */
  lemma {:induction false} RecordsCover(sun: Date -> SunResult, toLocal: int -> int, ds: seq<Date>, d: Date)
    requires d in ds && sun(d).SunTimes?
    ensures exists i :: 0 <= i < |Records(sun, toLocal, ds)| && Records(sun, toLocal, ds)[i].date == d
    decreases |ds|
  {
    var init := ds[..|ds| - 1];
    RecordsStep(sun, toLocal, ds);
    if d == ds[|ds| - 1] {
      assert Records(sun, toLocal, ds)[|Records(sun, toLocal, init)|].date == d;
    } else {
      assert d in init by {
        var k :| 0 <= k < |ds| && ds[k] == d;
        assert k < |ds| - 1 && init[k] == d;
      }
      RecordsCover(sun, toLocal, init, d);
      var i :| 0 <= i < |Records(sun, toLocal, init)| && Records(sun, toLocal, init)[i].date == d;
      assert Records(sun, toLocal, ds)[i].date == d;
    }
  }

  /** The dates of the entries after one more date: the earlier ones, then that date when it is answered. */
  lemma RecordsStep(sun: Date -> SunResult, toLocal: int -> int, ds: seq<Date>)
    requires ds != []
    ensures var prev, rs := Records(sun, toLocal, ds[..|ds| - 1]), Records(sun, toLocal, ds);
      && |rs| == |prev| + (if sun(ds[|ds| - 1]).SunTimes? then 1 else 0)
      && (forall i :: 0 <= i < |prev| ==> rs[i].date == prev[i].date)
      && (sun(ds[|ds| - 1]).SunTimes? ==> rs[|prev|].date == ds[|ds| - 1])
  {
  }

  /** Walking ascending dates yields entries in strictly ascending date order. */
  lemma {:induction false} RecordsAscending(sun: Date -> SunResult, toLocal: int -> int, ds: seq<Date>)
    requires StrictlyAscending(ds)
    ensures forall i, j :: 0 <= i < j < |Records(sun, toLocal, ds)| ==>
      Before(Records(sun, toLocal, ds)[i].date, Records(sun, toLocal, ds)[j].date)
    decreases |ds|
  {
    if ds != [] {
      var init := ds[..|ds| - 1];
      var last := ds[|ds| - 1];
      var prev := Records(sun, toLocal, init);
      var rs := Records(sun, toLocal, ds);
      RecordsAscending(sun, toLocal, init);
      forall i, j | 0 <= i < j < |rs|
        ensures Before(rs[i].date, rs[j].date)
      {
        if j >= |prev| {
          assert rs[j].date == last;
          assert prev[i].date in init;
          var k :| 0 <= k < |init| && init[k] == prev[i].date;
          assert ds[k] == init[k];
        }
      }
    }
  }

  /** Each date walked is either an entry or a failure, never both. */
  lemma {:induction false} RecordsCount(sun: Date -> SunResult, toLocal: int -> int, ds: seq<Date>)
    ensures |Records(sun, toLocal, ds)| + |Failures(sun, ds)| == |ds|
    decreases |ds|
  {
    if ds != [] {
      RecordsCount(sun, toLocal, ds[..|ds| - 1]);
    }
  }

  /** The six lists the generator returns, index `i` of each describing the same date. */
  datatype Table = Table(
    dates: seq<Date>,
    sunriseHours: seq<real>,
    sunsetHours: seq<real>,
    sunriseLabels: seq<string>,
    sunsetLabels: seq<string>,
    daylightHours: seq<real>)
  {
    /** All six lists have the same length. */
    predicate Parallel() {
      && |sunriseHours| == |dates|
      && |sunsetHours| == |dates|
      && |sunriseLabels| == |dates|
      && |sunsetLabels| == |dates|
      && |daylightHours| == |dates|
    }

    /** Index `i` of the six lists read as one entry. */
    function Row(i: int): DayRecord
      requires Parallel() && 0 <= i < |dates|
    {
      DayRecord(dates[i], sunriseHours[i], sunsetHours[i], sunriseLabels[i], sunsetLabels[i], daylightHours[i])
    }

    /** Appending one entry to each of the six lists. */
    function Append(r: DayRecord): (t: Table)
      requires Parallel()
      ensures t.Parallel() && |t.dates| == |dates| + 1
      ensures forall i :: 0 <= i < |dates| ==> t.Row(i) == Row(i)
      ensures t.Row(|dates|) == r
    {
      Table(dates + [r.date], sunriseHours + [r.sunriseHour], sunsetHours + [r.sunsetHour],
            sunriseLabels + [r.sunriseLabel], sunsetLabels + [r.sunsetLabel], daylightHours + [r.daylightHours])
    }
  }

  /** Splits a list of entries into the six parallel lists; reading row `i` back gives entry `i`. */
  function Tabulate(rs: seq<DayRecord>): (t: Table)
    ensures t.Parallel() && |t.dates| == |rs|
    ensures forall i :: 0 <= i < |rs| ==> t.Row(i) == rs[i]
    decreases |rs|
  {
    if rs == [] then Table([], [], [], [], [], [])
    else Tabulate(rs[..|rs| - 1]).Append(rs[|rs| - 1])
  }

  lemma TabulateAppend(rs: seq<DayRecord>, r: DayRecord)
    ensures Tabulate(rs + [r]) == Tabulate(rs).Append(r)
  {
    assert (rs + [r])[..|rs|] == rs;
  }

  /** One step of the walk: the table grows by the date's entry, or stays as it is on a failure. */
  lemma TableStep(sun: Date -> SunResult, toLocal: int -> int, seen: seq<Date>, d: Date)
    ensures Tabulate(Records(sun, toLocal, seen + [d]))
         == if sun(d).SunTimes? then Tabulate(Records(sun, toLocal, seen)).Append(RecordFor(sun, toLocal, d))
            else Tabulate(Records(sun, toLocal, seen))
  {
    var before := Records(sun, toLocal, seen);
    RecordsAppend(sun, toLocal, seen, d);
    if sun(d).SunTimes? {
      TabulateAppend(before, RecordFor(sun, toLocal, d));
    } else {
      assert before + Contribution(sun, toLocal, d) == before;
    }
  }

  /** The walk moves past `current`: the dates seen so far gain `current`, the rest start one day later. */
  lemma WalkStep(seen: seq<Date>, current: Date, first: Date, last: Date)
    requires Valid(current) && Valid(first) && Valid(last)
    requires AtOrBefore(current, last)
    requires seen + DatesFrom(current, last) == DatesFrom(first, last)
    ensures (seen + [current]) + DatesFrom(Next(current), last) == DatesFrom(first, last)
  {
    DatesFromFirst(current, last);
    ConcatAssociates(seen, [current], DatesFrom(Next(current), last));
  }

  lemma ConcatAssociates<T>(a: seq<T>, b: seq<T>, c: seq<T>)
    ensures a + (b + c) == (a + b) + c
  {
  }

  /** Once `current` is past `last`, every date of the range has been seen. */
  lemma WalkDone(seen: seq<Date>, current: Date, first: Date, last: Date)
    requires Valid(current) && Valid(first) && Valid(last)
    requires !AtOrBefore(current, last)
    requires seen + DatesFrom(current, last) == DatesFrom(first, last)
    ensures seen == DatesFrom(first, last)
  {
    assert seen + [] == seen;
  }

  /**
   * The body of the loop for one date (the `try` block and its `except`):
   * on a `SunTimeException` the lists are left as they are; otherwise the
   * sunrise and sunset are converted to local time and one entry is
   * appended to each list.
   */
  method ProcessDate(sun: Date -> SunResult, toLocal: int -> int, current: Date,
                     dates: seq<Date>, sunriseHours: seq<real>, sunsetHours: seq<real>,
                     sunriseLabels: seq<string>, sunsetLabels: seq<string>, daylightHours: seq<real>)
    returns (dates': seq<Date>, sunriseHours': seq<real>, sunsetHours': seq<real>,
             sunriseLabels': seq<string>, sunsetLabels': seq<string>, daylightHours': seq<real>)
    requires Table(dates, sunriseHours, sunsetHours, sunriseLabels, sunsetLabels, daylightHours).Parallel()
    ensures var before := Table(dates, sunriseHours, sunsetHours, sunriseLabels, sunsetLabels, daylightHours);
      var after := Table(dates', sunriseHours', sunsetHours', sunriseLabels', sunsetLabels', daylightHours');
      && (sun(current).SunTimeException? ==> after == before)
      && (sun(current).SunTimes? ==> after == before.Append(RecordFor(sun, toLocal, current)))
  {
    dates', sunriseHours', sunsetHours', sunriseLabels', sunsetLabels', daylightHours' :=
      dates, sunriseHours, sunsetHours, sunriseLabels, sunsetLabels, daylightHours;
    match sun(current) {
      case SunTimeException =>
      case SunTimes(sunriseUtc, sunsetUtc) =>
        var sunriseLocal := toLocal(sunriseUtc);
        var sunsetLocal := toLocal(sunsetUtc);
        var daylight := DurationHours(sunriseLocal, sunsetLocal);
        dates' := dates' + [current];
        sunriseHours' := sunriseHours' + [FractionalHour(sunriseLocal)];
        sunsetHours' := sunsetHours' + [FractionalHour(sunsetLocal)];
        sunriseLabels' := sunriseLabels' + [TimeLabel(sunriseLocal)];
        sunsetLabels' := sunsetLabels' + [TimeLabel(sunsetLocal)];
        daylightHours' := daylightHours' + [daylight];
    }
  }

  /**
   * The loop of `calculate_sunrise_sunset` from `first` through `last`:
   * each date in turn is processed, then `current` advances by one day.
   */
  method WalkDates(sun: Date -> SunResult, toLocal: int -> int, first: Date, last: Date)
    returns (dates: seq<Date>, sunriseHours: seq<real>, sunsetHours: seq<real>,
             sunriseLabels: seq<string>, sunsetLabels: seq<string>, daylightHours: seq<real>)
    requires Valid(first) && Valid(last)
    ensures Table(dates, sunriseHours, sunsetHours, sunriseLabels, sunsetLabels, daylightHours)
         == Tabulate(Records(sun, toLocal, DatesFrom(first, last)))
  {
    dates, sunriseHours, sunsetHours, sunriseLabels, sunsetLabels, daylightHours := [], [], [], [], [], [];
    var current := first;
    ghost var seen: seq<Date> := [];
    while AtOrBefore(current, last)
      invariant Valid(current)
      invariant seen + DatesFrom(current, last) == DatesFrom(first, last)
      invariant Table(dates, sunriseHours, sunsetHours, sunriseLabels, sunsetLabels, daylightHours)
             == Tabulate(Records(sun, toLocal, seen))
      decreases Ordinal(last) + 1 - Ordinal(current)
    {
      OrdinalOrder(current, last);
      dates, sunriseHours, sunsetHours, sunriseLabels, sunsetLabels, daylightHours :=
        ProcessDate(sun, toLocal, current, dates, sunriseHours, sunsetHours, sunriseLabels, sunsetLabels, daylightHours);
      TableStep(sun, toLocal, seen, current);
      WalkStep(seen, current, first, last);
      seen := seen + [current];
      current := Next(current);
    }
    WalkDone(seen, current, first, last);
  }

  /** The entries of a whole year, as a table, hold exactly the answered dates of that year in order. */
  lemma YearTableMembers(sun: Date -> SunResult, toLocal: int -> int, y: int, d: Date)
    requires 1 <= y
    ensures d in Tabulate(Records(sun, toLocal, YearDates(y))).dates <==> Valid(d) && d.year == y && sun(d).SunTimes?
  {
    var ds := YearDates(y);
    var rs := Records(sun, toLocal, ds);
    var t := Tabulate(rs);
    YearDatesMembers(y, d);
    if d in t.dates {
      var i :| 0 <= i < |t.dates| && t.dates[i] == d;
      assert t.Row(i) == rs[i];
    }
    if Valid(d) && d.year == y && sun(d).SunTimes? {
      RecordsCover(sun, toLocal, ds, d);
      var i :| 0 <= i < |rs| && rs[i].date == d;
      assert t.Row(i) == rs[i];
    }
  }

  lemma YearTableAscending(sun: Date -> SunResult, toLocal: int -> int, y: int)
    requires 1 <= y
    ensures StrictlyAscending(Tabulate(Records(sun, toLocal, YearDates(y))).dates)
  {
    var ds := YearDates(y);
    var rs := Records(sun, toLocal, ds);
    var t := Tabulate(rs);
    YearDatesAscending(y);
    RecordsAscending(sun, toLocal, ds);
    forall i, j | 0 <= i < j < |t.dates|
      ensures Before(t.dates[i], t.dates[j])
    {
      assert t.Row(i) == rs[i] && t.Row(j) == rs[j];
    }
  }

  lemma YearTableCount(sun: Date -> SunResult, toLocal: int -> int, y: int)
    requires 1 <= y
    ensures |Tabulate(Records(sun, toLocal, YearDates(y))).dates| + |Failures(sun, YearDates(y))| == YearLength(y)
  {
    RecordsCount(sun, toLocal, YearDates(y));
    YearDatesLength(y);
  }

  /**
   * `calculate_sunrise_sunset`: the six lists for every date of 2025 the
   * calculator answers, in date order; the dates it rejects are missing and
   * every other date of the year is present exactly once.
   */
  method CalculateSunriseSunset(sun: Date -> SunResult, toLocal: int -> int)
    returns (dates: seq<Date>, sunriseHours: seq<real>, sunsetHours: seq<real>,
             sunriseLabels: seq<string>, sunsetLabels: seq<string>, daylightHours: seq<real>)
    ensures Table(dates, sunriseHours, sunsetHours, sunriseLabels, sunsetLabels, daylightHours).Parallel()
    ensures forall d :: d in dates <==> Valid(d) && d.year == Year && sun(d).SunTimes?
    ensures StrictlyAscending(dates)
    ensures |dates| + |Failures(sun, YearDates(Year))| == 365
    ensures forall i :: 0 <= i < |dates| ==>
      && sun(dates[i]).SunTimes?
      && Table(dates, sunriseHours, sunsetHours, sunriseLabels, sunsetLabels, daylightHours).Row(i)
         == RecordFor(sun, toLocal, dates[i])
  {
    dates, sunriseHours, sunsetHours, sunriseLabels, sunsetLabels, daylightHours :=
      WalkDates(sun, toLocal, StartDate, EndDate);
    YearTables(sun, toLocal, Year);
  }

  /** The year-level facts, gathered for one year `y`. */
  lemma YearTables(sun: Date -> SunResult, toLocal: int -> int, y: int)
    requires 1 <= y
    ensures var t := Tabulate(Records(sun, toLocal, YearDates(y)));
      && (forall d :: d in t.dates <==> Valid(d) && d.year == y && sun(d).SunTimes?)
      && StrictlyAscending(t.dates)
      && |t.dates| + |Failures(sun, YearDates(y))| == YearLength(y)
      && (forall i :: 0 <= i < |t.dates| ==> sun(t.dates[i]).SunTimes? && t.Row(i) == RecordFor(sun, toLocal, t.dates[i]))
  {
    var rs := Records(sun, toLocal, YearDates(y));
    var t := Tabulate(rs);
    forall d
      ensures d in t.dates <==> Valid(d) && d.year == y && sun(d).SunTimes?
    {
      YearTableMembers(sun, toLocal, y, d);
    }
    YearTableAscending(sun, toLocal, y);
    YearTableCount(sun, toLocal, y);
    forall i | 0 <= i < |t.dates|
      ensures sun(t.dates[i]).SunTimes? && t.Row(i) == RecordFor(sun, toLocal, t.dates[i])
    {
      assert t.Row(i) == rs[i];
    }
  }
}
