/**
 * The y-axis tick formatter `format_hour` and the tick list built from it:
 * ticks every two hours from 0 through 22, each labelled on the 12-hour
 * clock. Fractional hours are exact reals here.
 */
module Ticks {
  import opened Results
  import opened Labels

  /** `datetime(1, 1, 1, hour, minute)` rejects an hour or minute out of range. */
  datatype FormatError = ValueError

  /** Python's `int(x)` on a number: truncation toward zero. */
  function Trunc(x: real): (r: int)
    ensures 0.0 <= x ==> r as real <= x < r as real + 1.0
    ensures x < 0.0 ==> r as real - 1.0 < x <= r as real
  {
    if 0.0 <= x then x.Floor else -((-x).Floor)
  }

  /**
   * `format_hour`: the whole hour and the whole minute of the fraction,
   * both truncated toward zero; an hour of exactly 24 is shown as 23:59.
   */
  function FormatHour(x: real): (r: Result<string, FormatError>)
    ensures r.Ok? ==> ParseClockLabel(r.value).Some?
  {
    var h := Trunc(x);
    var m := Trunc((x - h as real) * 60.0);
    var (hour, minute) := if h == 24 then (23, 59) else (h, m);
    if 0 <= hour < 24 && 0 <= minute < 60 then
      ParseClockLabelInverts(hour, minute);
      Ok(ClockLabel(hour, minute))
    else Err(ValueError)
  }

  /**
   * `format_hour` produces a label exactly for inputs above -1/60 and below
   * 25; anything else makes the `datetime` constructor raise. Inputs in
   * (-1/60, 0) truncate to 00:00 and are accepted.
   */
  lemma FormatHourDefinedIff(x: real)
    ensures FormatHour(x).Ok? <==> -1.0 / 60.0 < x < 25.0
  {
    var h := Trunc(x);
    var m := Trunc((x - h as real) * 60.0);
    if x < 0.0 && -1.0 < x {
      assert h == 0;
    }
  }

  /** Inputs just below zero, above -1/60, truncate to hour 0 and minute 0. */
  lemma FormatHourNegativeSliver(x: real)
    requires -1.0 / 60.0 < x < 0.0
    ensures FormatHour(x) == Ok("12:00 AM")
  {
    assert Trunc(x) == 0;
    assert (x - 0 as real) * 60.0 == x * 60.0;
    assert -1.0 < x * 60.0 < 0.0;
    FormatHourOfFields(x, 0, 0);
    SampleLabels();
  }

  /** When the truncated hour and minute are a time of day, the label is theirs. */
  lemma FormatHourOfFields(x: real, h: int, m: int)
    requires Trunc(x) == h && Trunc((x - h as real) * 60.0) == m
    requires 0 <= h < 24 && 0 <= m < 60
    ensures FormatHour(x) == Ok(ClockLabel(h, m))
  {
    ParseClockLabelInverts(h, m);
  }

  /** Within the day the label is made from the truncated hour and the truncated minute of the fraction. */
  lemma FormatHourFields(x: real)
    requires 0.0 <= x < 24.0
    ensures 0 <= ((x - x.Floor as real) * 60.0).Floor < 60
    ensures FormatHour(x) == Ok(ClockLabel(x.Floor, ((x - x.Floor as real) * 60.0).Floor))
  {
    var h := x.Floor;
    var f := (x - h as real) * 60.0;
    assert 0.0 <= f < 60.0;
    assert Trunc(f) == f.Floor;
    FormatHourOfFields(x, h, f.Floor);
  }

  /**
   * Within the day the label shows the hour and minute of the time of day
   * with the fraction of a minute dropped: the label's hour and minute add
   * up to `floor(60 x)` minutes.
   */
  lemma FormatHourWithinDay(x: real)
    requires 0.0 <= x < 24.0
    ensures FormatHour(x).Ok?
    ensures ParseClockLabel(FormatHour(x).value).Some?
    ensures ParseClockLabel(FormatHour(x).value).value.0 * 60 + ParseClockLabel(FormatHour(x).value).value.1
         == (x * 60.0).Floor
  {
    var h := x.Floor;
    var m := ((x - h as real) * 60.0).Floor;
    FormatHourFields(x);
    ParseClockLabelInverts(h, m);
    assert (x - h as real) * 60.0 == x * 60.0 - (h * 60) as real;
    assert (x * 60.0).Floor == h * 60 + m;
  }

  /** Every input from 24 up to (not including) 25 is shown as the last minute of the day. */
  lemma FormatHourDayEnd(x: real)
    requires 24.0 <= x < 25.0
    ensures FormatHour(x) == Ok("11:59 PM")
  {
    assert Trunc(x) == 24;
    ParseClockLabelInverts(23, 59);
    assert FormatHour(x) == Ok(ClockLabel(23, 59));
    DayEndLabel();
  }

  lemma DayEndLabel()
    ensures ClockLabel(23, 59) == "11:59 PM"
  {
    assert Pad2(11) == "11";
    assert Pad2(59) == "59";
    assert Hour12(23) == 11;
  }

  /** Sample values of `format_hour`, including the hour-24 case and both error edges. */
  lemma FormatHourExamples()
    ensures FormatHour(0.0) == Ok("12:00 AM")
    ensures FormatHour(13.0) == Ok("01:00 PM")
    ensures FormatHour(23.5) == Ok("11:30 PM")
    ensures FormatHour(24.0) == Ok("11:59 PM")
    ensures FormatHour(25.0) == Err(ValueError)
    ensures FormatHour(-0.01) == Ok("12:00 AM")
  {
    assert FormatHour(0.0) == Ok(ClockLabel(0, 0)) by {
      FormatHourFields(0.0);
    }
    assert FormatHour(13.0) == Ok(ClockLabel(13, 0)) by {
      FormatHourFields(13.0);
      assert (13.0).Floor == 13;
    }
    assert FormatHour(23.5) == Ok(ClockLabel(23, 30)) by {
      FormatHourFields(23.5);
      assert (23.5).Floor == 23;
      assert ((23.5 - 23.0) * 60.0).Floor == 30;
    }
    FormatHourDayEnd(24.0);
    assert FormatHour(25.0) == Err(ValueError) by {
      assert Trunc(25.0) == 25;
    }
    FormatHourNegativeSliver(-0.01);
    SampleLabels();
  }

  lemma SampleLabels()
    ensures ClockLabel(0, 0) == "12:00 AM"
    ensures ClockLabel(13, 0) == "01:00 PM"
    ensures ClockLabel(23, 30) == "11:30 PM"
  {
    assert Pad2(0) == "00";
    assert ClockLabel(0, 0) == "12:00 AM" by {
      assert Hour12(0) == 12;
      assert Meridiem(0) == "AM";
      assert Pad2(12) == "12";
    }
    assert ClockLabel(13, 0) == "01:00 PM" by {
      assert Hour12(13) == 1;
      assert Meridiem(13) == "PM";
      assert Pad2(1) == "01";
    }
    assert ClockLabel(23, 30) == "11:30 PM" by {
      assert Hour12(23) == 11;
      assert Meridiem(23) == "PM";
      assert Pad2(11) == "11";
      assert Pad2(30) == "30";
    }
  }

  /** `range(start, stop, step)` for a positive step. */
  function Range(start: int, stop: int, step: int): (r: seq<int>)
    requires 0 < step
    ensures forall i :: 0 <= i < |r| ==> r[i] == start + i * step && r[i] < stop
    ensures start < stop ==> (|r| - 1) * step < stop - start <= |r| * step
    ensures stop <= start ==> r == []
    decreases stop - start
  {
    if start < stop then
      var tail := Range(start + step, stop, step);
      assert |tail| * step + step == (|tail| + 1) * step;
      assert forall i :: 0 <= i < |tail| ==> start + step + i * step == start + (i + 1) * step;
      [start] + tail
    else []
  }

  /** `y_ticks`: every second hour of the day, 24 excluded. */
  function YTicks(): (r: seq<int>)
    ensures |r| == 12
    ensures forall i :: 0 <= i < 12 ==> r[i] == 2 * i
  {
    Range(0, 24, 2)
  }

  /** The ticks are exactly the even hours of the day. */
  lemma YTicksMembers(x: int)
    ensures x in YTicks() <==> 0 <= x < 24 && x % 2 == 0
  {
    var r := YTicks();
    if 0 <= x < 24 && x % 2 == 0 {
      assert r[x / 2] == x;
    }
  }

  /**
   * A list comprehension over a call that may raise: every value mapped in
   * order, or the first error raised.
   */
  function MapAll(f: int -> Result<string, FormatError>, xs: seq<int>): (r: Result<seq<string>, FormatError>)
    ensures r.Ok? <==> forall i :: 0 <= i < |xs| ==> f(xs[i]).Ok?
    ensures r.Ok? ==> |r.value| == |xs|
    ensures r.Ok? ==> forall i :: 0 <= i < |xs| ==> r.value[i] == f(xs[i]).value
  {
    if xs == [] then Ok([])
    else
      match f(xs[0])
      case Err(e) => Err(e)
      case Ok(first) =>
        var tail := xs[1..];
        assert forall i :: 1 <= i < |xs| ==> xs[i] == tail[i - 1];
        match MapAll(f, tail)
        case Err(e) =>
          var j :| 0 <= j < |tail| && f(tail[j]).Err?;
          assert f(xs[j + 1]).Err?;
          Err(e)
        case Ok(rest) =>
          var r := [first] + rest;
          assert forall i :: 1 <= i < |xs| ==> r[i] == rest[i - 1];
          Ok(r)
  }

  /** `[format_hour(h) for h in hours]`: every value formatted in order, or the first error raised. */
  function FormatAll(hours: seq<int>): (r: Result<seq<string>, FormatError>)
    ensures r.Ok? <==> forall i :: 0 <= i < |hours| ==> FormatHour(hours[i] as real).Ok?
    ensures r.Ok? ==> |r.value| == |hours|
    ensures r.Ok? ==> forall i :: 0 <= i < |hours| ==> r.value[i] == FormatHour(hours[i] as real).value
  {
    MapAll(v => FormatHour(v as real), hours)
  }

  /** `y_tick_labels`, one label per tick. */
  function YTickLabels(): (r: Result<seq<string>, FormatError>)
    ensures r.Ok? && |r.value| == 12
    ensures forall i :: 0 <= i < 12 ==> r.value[i] == ClockLabel(2 * i, 0)
  {
    var ticks := YTicks();
    TicksFormat();
    var r := FormatAll(ticks);
    assert r.Ok? && |r.value| == 12;
    r
  }

  /** Tick `i` formats as hour `2 i` on the hour. */
  lemma TicksFormat()
    ensures forall i :: 0 <= i < 12 ==> FormatHour(YTicks()[i] as real) == Ok(ClockLabel(2 * i, 0))
  {
    var ticks := YTicks();
    forall i | 0 <= i < 12
      ensures FormatHour(ticks[i] as real) == Ok(ClockLabel(2 * i, 0))
    {
      assert ticks[i] == 2 * i;
      EvenHourFormats(i);
    }
  }

  /** An even hour on the hour formats as that hour and minute 0. */
  lemma EvenHourFormats(i: int)
    requires 0 <= i < 12
    ensures FormatHour((2 * i) as real) == Ok(ClockLabel(2 * i, 0))
  {
    var x := (2 * i) as real;
    assert Trunc(x) == 2 * i;
    assert (x - (2 * i) as real) * 60.0 == 0.0;
    FormatHourOfFields(x, 2 * i, 0);
  }

  /** Every tick is labelled, tick `i` with hour `2 i` and minute 0. */
  lemma YTickLabelsShape()
    ensures YTickLabels().Ok?
    ensures |YTickLabels().value| == 12
    ensures forall i :: 0 <= i < 12 ==> YTickLabels().value[i] == ClockLabel(2 * i, 0)
  {
    var ticks := YTicks();
    forall i | 0 <= i < 12
      ensures FormatHour(ticks[i] as real) == Ok(ClockLabel(2 * i, 0))
    {
      EvenHourFormats(i);
    }
  }

  /** The axis labels, as they read. */
  const AxisLabels: seq<string> :=
    ["12:00 AM", "02:00 AM", "04:00 AM", "06:00 AM", "08:00 AM", "10:00 AM",
     "12:00 PM", "02:00 PM", "04:00 PM", "06:00 PM", "08:00 PM", "10:00 PM"]

  /** The label of an even hour on the hour. */
  lemma EvenHourLabel(i: int)
    requires 0 <= i < 12
    ensures ClockLabel(2 * i, 0) == AxisLabels[i]
  {
    if i < 6 {
      MorningLabel(i);
    } else {
      AfternoonLabel(i);
    }
  }

  lemma MorningLabel(i: int)
    requires 0 <= i < 6
    ensures ClockLabel(2 * i, 0) == AxisLabels[i]
  {
    assert Pad2(0) == "00";
    if i == 0 {
      assert Hour12(0) == 12;
      assert Meridiem(0) == "AM";
      assert Pad2(12) == "12";
    } else if i == 1 {
      assert Hour12(2) == 2;
      assert Meridiem(2) == "AM";
      assert Pad2(2) == "02";
    } else if i == 2 {
      assert Hour12(4) == 4;
      assert Meridiem(4) == "AM";
      assert Pad2(4) == "04";
    } else if i == 3 {
      assert Hour12(6) == 6;
      assert Meridiem(6) == "AM";
      assert Pad2(6) == "06";
    } else if i == 4 {
      assert Hour12(8) == 8;
      assert Meridiem(8) == "AM";
      assert Pad2(8) == "08";
    } else {
      assert Hour12(10) == 10;
      assert Meridiem(10) == "AM";
      assert Pad2(10) == "10";
    }
  }

  lemma AfternoonLabel(i: int)
    requires 6 <= i < 12
    ensures ClockLabel(2 * i, 0) == AxisLabels[i]
  {
    assert Pad2(0) == "00";
    if i == 6 {
      assert Hour12(12) == 12;
      assert Meridiem(12) == "PM";
      assert Pad2(12) == "12";
    } else if i == 7 {
      assert Hour12(14) == 2;
      assert Meridiem(14) == "PM";
      assert Pad2(2) == "02";
    } else if i == 8 {
      assert Hour12(16) == 4;
      assert Meridiem(16) == "PM";
      assert Pad2(4) == "04";
    } else if i == 9 {
      assert Hour12(18) == 6;
      assert Meridiem(18) == "PM";
      assert Pad2(6) == "06";
    } else if i == 10 {
      assert Hour12(20) == 8;
      assert Meridiem(20) == "PM";
      assert Pad2(8) == "08";
    } else {
      assert Hour12(22) == 10;
      assert Meridiem(22) == "PM";
      assert Pad2(10) == "10";
    }
  }

  /** Any twelve labels of the even hours on the hour are the axis labels. */
  lemma EvenHourLabels(v: seq<string>)
    requires |v| == 12
    requires forall i :: 0 <= i < 12 ==> v[i] == ClockLabel(2 * i, 0)
    ensures v == AxisLabels
  {
    forall i | 0 <= i < 12
      ensures v[i] == AxisLabels[i]
    {
      EvenHourLabel(i);
    }
  }

  /** The twelve labels as they appear on the axis. */
  lemma YTickLabelsValue()
    ensures YTickLabels() == Ok(["12:00 AM", "02:00 AM", "04:00 AM", "06:00 AM", "08:00 AM", "10:00 AM",
                                "12:00 PM", "02:00 PM", "04:00 PM", "06:00 PM", "08:00 PM", "10:00 PM"])
  {
    YTickLabelsShape();
    EvenHourLabels(YTickLabels().value);
  }
}
