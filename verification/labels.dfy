/**
 * The `"%I:%M %p"` rendering of a time of day: a two-digit hour on the
 * 12-hour clock (01 through 12), a colon, a two-digit minute, a space and
 * the "AM" or "PM" marker. `ParseClockLabel` reads such a label back and is
 * its exact inverse.
 */
module Labels {
  import opened Results

  function DigitChar(n: int): (c: char)
    requires 0 <= n < 10
    ensures '0' <= c <= '9'
    ensures (c as int) - ('0' as int) == n
  {
    (('0' as int) + n) as char
  }

  predicate IsDigit(c: char) {
    '0' <= c <= '9'
  }

  function DigitValue(c: char): int
    requires IsDigit(c)
  {
    (c as int) - ('0' as int)
  }

  /** A number below 100 as exactly two decimal digits, zero-padded. */
  function Pad2(n: int): (s: string)
    requires 0 <= n < 100
    ensures |s| == 2 && IsDigit(s[0]) && IsDigit(s[1])
    ensures DigitValue(s[0]) * 10 + DigitValue(s[1]) == n
  {
    [DigitChar(n / 10), DigitChar(n % 10)]
  }

  /** The hour on the 12-hour clock (`%I`): midnight and noon read 12. */
  function Hour12(h: int): (r: int)
    requires 0 <= h < 24
    ensures 1 <= r <= 12
    ensures r % 12 == h % 12
  {
    if h % 12 == 0 then 12 else h % 12
  }

  /** The `%p` marker: hours before noon are "AM", the rest "PM". */
  function Meridiem(h: int): (s: string)
    requires 0 <= h < 24
    ensures |s| == 2 && s[1] == 'M'
    ensures s[0] == 'A' <==> h < 12
    ensures s[0] == 'P' <==> 12 <= h
  {
    if h < 12 then "AM" else "PM"
  }

  /** The `"%I:%M %p"` label of hour `h` and minute `m` of a day. */
  function ClockLabel(h: int, m: int): (s: string)
    requires 0 <= h < 24 && 0 <= m < 60
    ensures |s| == 8 && s[2] == ':' && s[5] == ' '
  {
    var hh, mm, p := Pad2(Hour12(h)), Pad2(m), Meridiem(h);
    [hh[0], hh[1], ':', mm[0], mm[1], ' ', p[0], p[1]]
  }

  /** Reads a `"%I:%M %p"` label back into (hour of day, minute). */
  function ParseClockLabel(s: string): (r: Option<(int, int)>)
    ensures r.Some? ==> 0 <= r.value.0 < 24 && 0 <= r.value.1 < 60
  {
    if |s| == 8 && IsDigit(s[0]) && IsDigit(s[1]) && s[2] == ':' && IsDigit(s[3]) && IsDigit(s[4])
      && s[5] == ' ' && (s[6] == 'A' || s[6] == 'P') && s[7] == 'M'
    then
      var h12 := DigitValue(s[0]) * 10 + DigitValue(s[1]);
      var m := DigitValue(s[3]) * 10 + DigitValue(s[4]);
      if 1 <= h12 <= 12 && m < 60 then
        Some((h12 % 12 + (if s[6] == 'P' then 12 else 0), m))
      else None
    else None
  }

  /** Reading a rendered label gives back the hour and minute it was made from. */
  lemma ParseClockLabelInverts(h: int, m: int)
    requires 0 <= h < 24 && 0 <= m < 60
    ensures ParseClockLabel(ClockLabel(h, m)) == Some((h, m))
  {
    var s := ClockLabel(h, m);
    assert s[0..2] == Pad2(Hour12(h));
    assert s[3..5] == Pad2(m);
    assert s[6..8] == Meridiem(h);
  }

  /** Two digits are the padding of the number they spell. */
  lemma Pad2OfDigits(a: char, b: char)
    requires IsDigit(a) && IsDigit(b)
    ensures Pad2(DigitValue(a) * 10 + DigitValue(b)) == [a, b]
  {
    var n := DigitValue(a) * 10 + DigitValue(b);
    assert n / 10 == DigitValue(a) && n % 10 == DigitValue(b);
  }

  /** Every label the parser accepts is the rendering of what it reads. */
  lemma ClockLabelOfParse(s: string)
    requires ParseClockLabel(s).Some?
    ensures ClockLabel(ParseClockLabel(s).value.0, ParseClockLabel(s).value.1) == s
  {
    var (h, m) := ParseClockLabel(s).value;
    var h12 := DigitValue(s[0]) * 10 + DigitValue(s[1]);
    Pad2OfDigits(s[0], s[1]);
    Pad2OfDigits(s[3], s[4]);
    assert Hour12(h) == h12;
    assert Meridiem(h) == s[6..8];
    ClockLabelPieces(h, m);
    assert ClockLabel(h, m) == s[0..2] + ":" + s[3..5] + " " + s[6..8];
  }

  /** Different times of day render as different labels. */
  lemma ClockLabelInjective(h1: int, m1: int, h2: int, m2: int)
    requires 0 <= h1 < 24 && 0 <= m1 < 60
    requires 0 <= h2 < 24 && 0 <= m2 < 60
    requires ClockLabel(h1, m1) == ClockLabel(h2, m2)
    ensures h1 == h2 && m1 == m2
  {
    ParseClockLabelInverts(h1, m1);
    ParseClockLabelInverts(h2, m2);
  }

  /** A label is the `%I` field, a colon, the `%M` field, a space and the `%p` field. */
  lemma ClockLabelPieces(h: int, m: int)
    requires 0 <= h < 24 && 0 <= m < 60
    ensures ClockLabel(h, m) == Pad2(Hour12(h)) + ":" + Pad2(m) + " " + Meridiem(h)
  {
    var hh, mm, p := Pad2(Hour12(h)), Pad2(m), Meridiem(h);
    var joined := hh + ":" + mm + " " + p;
    assert joined == [hh[0], hh[1], ':', mm[0], mm[1], ' ', p[0], p[1]];
  }

  /**
   * The four cases of the 12-hour clock: hour 0 reads "12 AM", hours 1-11
   * read themselves with "AM", hour 12 reads "12 PM" and hours 13-23 read
   * `h - 12` with "PM".
   */
  lemma ClockLabelHourCases(h: int, m: int)
    requires 0 <= h < 24 && 0 <= m < 60
    ensures h == 0 ==> ClockLabel(h, m) == "12:" + Pad2(m) + " AM"
    ensures 1 <= h <= 11 ==> ClockLabel(h, m) == Pad2(h) + ":" + Pad2(m) + " AM"
    ensures h == 12 ==> ClockLabel(h, m) == "12:" + Pad2(m) + " PM"
    ensures 13 <= h ==> ClockLabel(h, m) == Pad2(h - 12) + ":" + Pad2(m) + " PM"
  {
    ClockLabelPieces(h, m);
    if h == 0 || h == 12 {
      assert Hour12(h) == 12;
      assert Pad2(12) == "12";
      assert "12" + ":" + Pad2(m) + " " + Meridiem(h) == "12:" + Pad2(m) + " " + Meridiem(h);
    } else if h < 12 {
      assert Hour12(h) == h;
    } else {
      assert Hour12(h) == h - 12;
    }
  }
}
