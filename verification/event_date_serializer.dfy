/** The event-date serializer: 24-hour integer time keys rendered as 12-hour
    text, and stored `YYYYMMDD` dates rendered as `YYYY-MM-DD`.

    The time rendering is written step by step as the serializer performs it
    (`to_s`, left-pad a three-character key, take the last two characters,
    `strptime('%H%M')`, `strftime`, `lstrip`) and is proved equal to the
    plain 12-hour reading `Display`, which `ReadDisplay` inverts. */
module EventDateSerializer {
  import opened Wrappers
  import opened Decimal
  import opened Schema
  import Seqs

  /** What `Time.strptime` and `Date.parse` raise on text they cannot read. */
  datatype FormatError = UnparsableTime(text: string) | UnparsableDate(text: string)

  /** A time of day on the 24-hour clock. */
  datatype Clock = Clock(hour: nat, minute: nat)

  predicate ValidClock(c: Clock) { c.hour < 24 && c.minute < 60 }

  /** The keys the serializer renders: three or four digits, hour at most 23,
      minutes at most 59. Keys below 100 (the hour after midnight) are
      never padded to four digits, so they are not among them. */
  predicate ValidTimeKey(key: int) { 100 <= key < 2400 && key % 100 < 60 }

  function ClockOf(key: int): (c: Clock)
    requires ValidTimeKey(key)
    ensures ValidClock(c)
  {
    Clock(key / 100, key % 100)
  }

  // ---------------------------------------------------------------------------
  // The 12-hour reading of a clock, and its inverse.

  function Hour12(h: nat): (r: nat)
    requires h < 24
    ensures 1 <= r <= 12
  {
    if h % 12 == 0 then 12 else h % 12
  }

  function Meridiem(h: nat): string { if h < 12 then "AM" else "PM" }

  /** The blank and meridiem that end every display. */
  function Suffix(h: nat): (r: string)
    ensures |r| == 3
  {
    if h < 12 then " AM" else " PM"
  }

  /** Two-digit minutes, zero-padded. */
  function TwoDigits(m: nat): (t: string)
    requires m < 100
    ensures |t| == 2 && AllDigits(t)
  {
    [DigitChar(m / 10), DigitChar(m % 10)]
  }

  /** Nothing on the hour, ":MM" otherwise. */
  function MinutesPart(m: nat): string
    requires m < 60
  {
    if m == 0 then "" else ":" + TwoDigits(m)
  }

  /** "H AM" on the hour, "H:MM AM" otherwise, the hour unpadded. */
  function Display(c: Clock): string
    requires ValidClock(c)
  {
    NatText(Hour12(c.hour)) + MinutesPart(c.minute) + Suffix(c.hour)
  }

  /** A 12-hour hour and minutes back on the 24-hour clock. */
  function From12(h12: nat, minute: nat, pm: bool): Option<Clock>
  {
    if 1 <= h12 <= 12 && minute < 60 then
      var h := if h12 == 12 then (if pm then 12 else 0) else (if pm then h12 + 12 else h12);
      Some(Clock(h, minute))
    else None
  }

  /** Reads "H" or "H:MM" in front of the meridiem. */
  function ReadBody(body: string, pm: bool): Option<Clock>
  {
    if |body| >= 3 && body[|body| - 3] == ':' then
      var hourText, minuteText := body[..|body| - 3], body[|body| - 2..];
      if hourText != [] && AllDigits(hourText) && AllDigits(minuteText)
      then From12(Value(hourText), Value(minuteText), pm)
      else None
    else if body != [] && AllDigits(body) then From12(Value(body), 0, pm)
    else None
  }

  /** Reads "H AM", "H PM", "H:MM AM" or "H:MM PM" back into a clock. */
  function ReadDisplay(s: string): Option<Clock>
  {
    if |s| < 4 then None
    else
      var suffix := s[|s| - 3..];
      if suffix == " AM" || suffix == " PM" then ReadBody(s[..|s| - 3], suffix == " PM")
      else None
  }

  lemma ConcatSlices(x: string, y: string)
    ensures (x + y)[..|x|] == x && (x + y)[|x|..] == y
  {
  }

  lemma From12OfHour12(c: Clock)
    requires ValidClock(c)
    ensures From12(Hour12(c.hour), c.minute, c.hour >= 12) == Some(c)
  {
  }

  lemma TwoDigitsValue(m: nat)
    requires m < 100
    ensures Value(TwoDigits(m)) == m
  {
    TwoDigitZero(TwoDigits(m));
  }

  lemma ReadBodyRoundTrip(c: Clock)
    requires ValidClock(c)
    ensures ReadBody(NatText(Hour12(c.hour)) + MinutesPart(c.minute), c.hour >= 12) == Some(c)
  {
    var h12 := Hour12(c.hour);
    var hText := NatText(h12);
    NatTextWidth(h12);
    ValueOfNatText(h12);
    From12OfHour12(c);
    if c.minute == 0 {
      assert hText + MinutesPart(c.minute) == hText;
    } else {
      var tt := TwoDigits(c.minute);
      TwoDigitsValue(c.minute);
      var body := hText + (":" + tt);
      assert |body| == |hText| + 3;
      ConcatSlices(hText, ":" + tt);
      assert body[|body| - 3] == ':';
      assert body[|body| - 2..] == (":" + tt)[1..] == tt;
    }
  }

  /** Reading the display of a clock gives the clock back, so no two times
      share a display text. */
  lemma DisplayRoundTrip(c: Clock)
    requires ValidClock(c)
    ensures ReadDisplay(Display(c)) == Some(c)
  {
    var body := NatText(Hour12(c.hour)) + MinutesPart(c.minute);
    var suffix := Suffix(c.hour);
    ConcatSlices(body, suffix);
    assert (suffix == " PM") == (c.hour >= 12) by {
      if c.hour < 12 { assert suffix[1] != " PM"[1]; }
    }
    ReadBodyRoundTrip(c);
  }

  // ---------------------------------------------------------------------------
  // The serializer's own steps.

  /** A key text of three characters gets one leading '0'; any other text is
      unchanged. */
  function PadKeyText(s: string): string { if |s| == 3 then "0" + s else s }

  /** ActiveSupport's `String#last(n)`: the last `n` characters, or all of a
      shorter string. */
  function Last(s: string, n: nat): (r: string)
    ensures |r| == if |s| <= n then |s| else n
    ensures r == s[|s| - |r|..]
  {
    if |s| <= n then s else s[|s| - n..]
  }

  /** `Time.strptime(text, '%H%M')`: two hour digits, then two minute digits. */
  function StrptimeHourMinute(text: string): Option<Clock>
  {
    if |text| == 4 && AllDigits(text) && Value(text[..2]) < 24 && Value(text[2..]) < 60
    then Some(Clock(Value(text[..2]), Value(text[2..])))
    else None
  }

  /** `%l`: the 12-hour hour, blank-padded to two columns. */
  function BlankPaddedHour(c: Clock): string
    requires ValidClock(c)
  {
    var t := NatText(Hour12(c.hour));
    if |t| < 2 then " " + t else t
  }

  /** `strftime('%l %p')` */
  function StrftimeHour(c: Clock): string
    requires ValidClock(c)
  {
    BlankPaddedHour(c) + " " + Meridiem(c.hour)
  }

  /** `strftime('%l:%M %p')` */
  function StrftimeHourMinute(c: Clock): string
    requires ValidClock(c)
  {
    BlankPaddedHour(c) + ":" + TwoDigits(c.minute) + " " + Meridiem(c.hour)
  }

  /** Ruby's whitespace for `lstrip`: NUL, tab, line feed, vertical tab, form
      feed, carriage return and space. */
  predicate IsSpace(c: char) { c == ' ' || c == '\0' || 9 <= c as int <= 13 }

  /** `String#lstrip` */
  function LStrip(s: string): string
  {
    if |s| > 0 && IsSpace(s[0]) then LStrip(s[1..]) else s
  }

  /** The padded key text parses exactly when the key is valid, and then to
      the key's own hour and minutes; its last two characters are "00"
      exactly on the hour. */
  lemma KeyTextParse(key: int)
    ensures var text := PadKeyText(IntText(key));
      && (StrptimeHourMinute(text).Some? <==> ValidTimeKey(key))
      && (ValidTimeKey(key) ==> StrptimeHourMinute(text) == Some(ClockOf(key)))
      && (ValidTimeKey(key) ==> (Last(text, 2) == "00" <==> key % 100 == 0))
  {
    var text := PadKeyText(IntText(key));
    if key < 0 {
      NegativeKeyText(key);
    } else if key < 100 || key >= 10000 {
      NatTextWidth(key);
    } else {
      FourDigitKeyText(key);
      var hi, lo := text[..2], text[2..];
      HourMinuteSplit(text, key);
      assert Last(text, 2) == lo;
      TwoDigitZero(lo);
    }
  }

  /** A negative key's text carries a minus sign, which `%H%M` cannot read. */
  lemma NegativeKeyText(key: int)
    requires key < 0
    ensures !AllDigits(PadKeyText(IntText(key)))
  {
    var raw := IntText(key);
    var text := PadKeyText(raw);
    if |raw| == 3 {
      assert text[1] == '-';
    } else {
      assert text[0] == '-';
    }
  }

  /** A key of three or four digits is padded to four digits denoting the key. */
  lemma FourDigitKeyText(key: int)
    requires 100 <= key < 10000
    ensures var text := PadKeyText(IntText(key));
      |text| == 4 && AllDigits(text) && Value(text) == key
  {
    var raw := IntText(key);
    NatTextWidth(key);
    ValueOfNatText(key);
    if key < 1000 {
      ValueConcat("0", raw);
    }
  }

  /** The first two of four digits are the hundreds, the last two the rest. */
  lemma HourMinuteSplit(text: string, key: int)
    requires |text| == 4 && AllDigits(text) && Value(text) == key
    ensures Value(text[..2]) == key / 100 && Value(text[2..]) == key % 100
  {
    var hi, lo := text[..2], text[2..];
    assert text == hi + lo;
    ValueConcat(hi, lo);
    assert key == Value(hi) * 100 + Value(lo);
  }

  /** Stripping the blank pad of `%l` leaves the unpadded hour in front. */
  lemma StrippedPad(c: Clock, rest: string)
    requires ValidClock(c)
    ensures LStrip(BlankPaddedHour(c) + rest) == NatText(Hour12(c.hour)) + rest
  {
    var t := NatText(Hour12(c.hour));
    assert !IsSpace((t + rest)[0]);
    if |t| < 2 {
      assert (" " + t + rest)[1..] == t + rest;
    }
  }

  /** `lstrip` of the `strftime` text chosen by the last two key characters
      is the display of the clock. */
  lemma StrippedStrftimeIsDisplay(c: Clock, minutes: string)
    requires ValidClock(c)
    requires minutes == "00" <==> c.minute == 0
    ensures LStrip(if minutes == "00" then StrftimeHour(c) else StrftimeHourMinute(c)) == Display(c)
  {
    var rest := MinutesPart(c.minute) + Suffix(c.hour);
    assert " " + Meridiem(c.hour) == Suffix(c.hour);
    if minutes == "00" {
      assert StrftimeHour(c) == BlankPaddedHour(c) + rest;
    } else {
      assert StrftimeHourMinute(c) == BlankPaddedHour(c) + rest;
    }
    StrippedPad(c, rest);
  }

  lemma DisplayLeadsWithDigit(c: Clock)
    requires ValidClock(c)
    ensures |Display(c)| > 0 && IsDigit(Display(c)[0])
  {
    var t := NatText(Hour12(c.hour));
    assert Display(c)[0] == t[0];
  }

  /** Renders a stored time key as the serializer's `start_time` and
      `end_time` blocks do; a key `strptime` cannot read is an error. The
      text is the 12-hour reading of the key, with no leading blank. */
  function FormatTimeKey(key: int): (r: Result<string, FormatError>)
    ensures r.Success? <==> ValidTimeKey(key)
    ensures r.Success? ==> r.value == Display(ClockOf(key))
    ensures r.Success? ==> |r.value| > 0 && IsDigit(r.value[0])
  {
    var text := PadKeyText(IntText(key));
    var minutes := Last(text, 2);
    KeyTextParse(key);
    match StrptimeHourMinute(text)
    case None => Failure(UnparsableTime(text))
    case Some(c) =>
      StrippedStrftimeIsDisplay(c, minutes);
      DisplayLeadsWithDigit(c);
      Success(LStrip(if minutes == "00" then StrftimeHour(c) else StrftimeHourMinute(c)))
  }

  /** A rendered time reads back as the key's own time: distinct valid keys
      never render alike. */
  lemma TimeKeyRoundTrip(key: int)
    requires ValidTimeKey(key)
    ensures ReadDisplay(FormatTimeKey(key).value) == Some(ClockOf(key))
  {
    DisplayRoundTrip(ClockOf(key));
  }

  lemma DistinctKeysRenderDistinctly(k1: int, k2: int)
    requires ValidTimeKey(k1) && ValidTimeKey(k2) && k1 != k2
    ensures FormatTimeKey(k1) != FormatTimeKey(k2)
  {
    TimeKeyRoundTrip(k1);
    TimeKeyRoundTrip(k2);
  }

  /** The `%l %p` mapping: hours 1 to 11 are themselves before noon, 12 is
      noon, 13 to 23 are twelve less after noon. */
  lemma TwelveHourClock(h: nat, m: nat)
    requires 1 <= h < 24 && m < 60
    ensures var r := FormatTimeKey(h * 100 + m);
      && r.Success?
      && r.value == NatText(if h <= 12 then h else h - 12) + MinutesPart(m) + (if h < 12 then " AM" else " PM")
  {
    var key := h * 100 + m;
    HundredsSplit(h, m);
    assert ValidTimeKey(key);
    assert ClockOf(key) == Clock(h, m);
    TwelveHourDisplay(h, m);
  }

  lemma TwelveHourDisplay(h: nat, m: nat)
    requires 1 <= h < 24 && m < 60
    ensures Display(Clock(h, m)) == NatText(if h <= 12 then h else h - 12) + MinutesPart(m) + (if h < 12 then " AM" else " PM")
  {
    assert Hour12(h) == (if h <= 12 then h else h - 12);
    assert Suffix(h) == (if h < 12 then " AM" else " PM");
  }

  lemma HundredsSplit(h: nat, m: nat)
    requires m < 100
    ensures (h * 100 + m) / 100 == h && (h * 100 + m) % 100 == m
  {
    var key := h * 100 + m;
    assert key == (key / 100) * 100 + key % 100;
  }

  /** A colon appears exactly when the minutes are not zero. */
  lemma ColonExactlyOffTheHour(key: int)
    requires ValidTimeKey(key)
    ensures ':' in FormatTimeKey(key).value <==> key % 100 != 0
  {
    var c := ClockOf(key);
    var t := NatText(Hour12(c.hour));
    var v := FormatTimeKey(key).value;
    assert v == t + MinutesPart(c.minute) + Suffix(c.hour);
    assert ':' !in t by {
      forall i | 0 <= i < |t| ensures t[i] != ':' { assert IsDigit(t[i]); }
    }
    assert ':' !in Suffix(c.hour);
    if key % 100 != 0 {
      assert v[|t|] == ':';
    } else {
      assert v == t + Suffix(c.hour);
    }
  }

  /** The two keys the agency listing shows. */
  lemma ListingTimes()
    ensures FormatTimeKey(930) == Success("9:30 AM")
    ensures FormatTimeKey(2200) == Success("10 PM")
  {
    assert NatText(9) == "9";
    assert MinutesPart(30) == ":30";
    assert Display(Clock(9, 30)) == "9:30 AM";
    assert ClockOf(930) == Clock(9, 30);
    assert NatText(10) == "10";
    assert Display(Clock(22, 0)) == "10 PM";
    assert ClockOf(2200) == Clock(22, 0);
  }

  /** A key of one or two digits (00:00 to 00:59) always raises. */
  lemma MidnightHourKeysRaise(key: int)
    requires 0 <= key < 100
    ensures FormatTimeKey(key).Failure?
  {
  }

  // ---------------------------------------------------------------------------
  // Dates: `Date.parse` of the stored `YYYYMMDD` text, rendered `YYYY-MM-DD`.

  /** Ruby's `Date` follows the Julian calendar up to the 1582 reform and the
      Gregorian calendar after it. */
  predicate IsLeapYear(y: nat)
  {
    if y <= 1582 then y % 4 == 0 else (y % 4 == 0 && y % 100 != 0) || y % 400 == 0
  }

  function DaysInMonth(y: nat, m: nat): nat
    requires 1 <= m <= 12
  {
    if m == 2 then (if IsLeapYear(y) then 29 else 28)
    else if m == 4 || m == 6 || m == 9 || m == 11 then 30
    else 31
  }

  /** A calendar day `Date` accepts; 5 to 14 October 1582 were skipped by
      the reform. */
  predicate ValidCivilDate(y: nat, m: nat, d: nat)
  {
    && 1 <= m <= 12
    && 1 <= d <= DaysInMonth(y, m)
    && !(y == 1582 && m == 10 && 5 <= d <= 14)
  }

  /** The stored form of an event date: eight digits, `YYYYMMDD`. */
  predicate IsStoredDate(s: string) { |s| == 8 && AllDigits(s) }

  /** A `YYYY-MM-DD` text naming a real calendar day. */
  predicate IsIsoDate(s: string)
  {
    && |s| == 10 && s[4] == '-' && s[7] == '-'
    && AllDigits(s[..4]) && AllDigits(s[5..7]) && AllDigits(s[8..])
    && ValidCivilDate(Value(s[..4]), Value(s[5..7]), Value(s[8..]))
  }

  predicate NotDash(c: char) { c != '-' }

  /** `String#delete('-')`, as dates are stored. */
  function StripDashes(s: string): (r: string)
    ensures forall c :: c in r <==> c in s && c != '-'
  {
    Seqs.Filter(s, NotDash)
  }

  /** The serializer's `date` block: `Date.parse` of the stored text, which
      raises on a day the calendar does not have. The rendered date is an ISO
      date whose dashes, removed, give back the stored text. */
  function RenderDate(stored: string): (r: Result<string, FormatError>)
    requires IsStoredDate(stored)
    ensures r.Success? <==> ValidCivilDate(Value(stored[..4]), Value(stored[4..6]), Value(stored[6..]))
    ensures r.Success? ==> IsIsoDate(r.value) && StripDashes(r.value) == stored
  {
    var y, m, d := stored[..4], stored[4..6], stored[6..];
    if ValidCivilDate(Value(y), Value(m), Value(d)) then
      var iso := y + "-" + m + "-" + d;
      assert iso[..4] == y && iso[5..7] == m && iso[8..] == d;
      IsoDigitsStripped(iso);
      assert y + m + d == stored;
      Success(iso)
    else Failure(UnparsableDate(stored))
  }

  /** Removing the dashes of a dashed date leaves its three digit groups. */
  lemma IsoDigitsStripped(iso: string)
    requires |iso| == 10 && iso[4] == '-' && iso[7] == '-'
    requires AllDigits(iso[..4]) && AllDigits(iso[5..7]) && AllDigits(iso[8..])
    ensures StripDashes(iso) == iso[..4] + iso[5..7] + iso[8..]
  {
    var y, m, d := iso[..4], iso[5..7], iso[8..];
    assert iso == (y + "-") + (m + "-") + d;
    Seqs.FilterConcat((y + "-") + (m + "-"), d, NotDash);
    Seqs.FilterConcat(y + "-", m + "-", NotDash);
    DigitGroupThenDash(y);
    DigitGroupThenDash(m);
    DigitGroupSurvives(d);
  }

  lemma DigitGroupSurvives(t: string)
    requires AllDigits(t)
    ensures Seqs.Filter(t, NotDash) == t
  {
    assert forall i :: 0 <= i < |t| ==> NotDash(t[i]) by {
      forall i | 0 <= i < |t| ensures NotDash(t[i]) { assert IsDigit(t[i]); }
    }
    Seqs.FilterKeepsAll(t, NotDash);
  }

  lemma DigitGroupThenDash(t: string)
    requires AllDigits(t)
    ensures Seqs.Filter(t + "-", NotDash) == t
  {
    Seqs.FilterConcat(t, "-", NotDash);
    DigitGroupSurvives(t);
    assert Seqs.Filter("-", NotDash) == [];
  }

  /** An ISO date stored with its dashes removed renders back as itself. */
  lemma StoredDateRoundTrip(iso: string)
    requires IsIsoDate(iso)
    ensures IsStoredDate(StripDashes(iso))
    ensures RenderDate(StripDashes(iso)) == Success(iso)
  {
    IsoDigitsStripped(iso);
    var stored := StripDashes(iso);
    var y, m, d := iso[..4], iso[5..7], iso[8..];
    assert AllDigits(stored) by {
      forall i | 0 <= i < 8 ensures IsDigit(stored[i]) {
        if i < 4 { assert stored[i] == y[i]; }
        else if i < 6 { assert stored[i] == m[i - 4]; }
        else { assert stored[i] == d[i - 6]; }
      }
    }
    assert stored[..4] == y && stored[4..6] == m && stored[6..] == d;
    assert iso == y + "-" + m + "-" + d;
  }

  // ---------------------------------------------------------------------------
  // The serialized event date.

  /** The attributes the serializer emits for one event date. */
  datatype DateView = DateView(
    id: int,
    eventId: int,
    capacity: int,
    acceptWalkin: int,
    acceptReservations: int,
    acceptInterest: int,
    startTime: string,
    endTime: string,
    date: string)

  /** An event date the serializer renders: stored as eight digits, both
      keys valid times, and the date a real calendar day. */
  predicate Renders(ed: EventDate)
  {
    && IsStoredDate(ed.date)
    && ValidTimeKey(ed.startTimeKey) && ValidTimeKey(ed.endTimeKey)
    && ValidCivilDate(Value(ed.date[..4]), Value(ed.date[4..6]), Value(ed.date[6..]))
  }

  /** Serializes one event date; the attribute blocks run in order
      (`start_time`, `end_time`, `date`) and the first to raise is the error.
      Start and end follow the same rule, each on its own key. */
  function Serialize(ed: EventDate): (r: Result<DateView, FormatError>)
    requires IsStoredDate(ed.date)
    ensures r.Success? <==>
      && ValidTimeKey(ed.startTimeKey)
      && ValidTimeKey(ed.endTimeKey)
      && ValidCivilDate(Value(ed.date[..4]), Value(ed.date[4..6]), Value(ed.date[6..]))
    ensures r.Success? ==>
      && r.value.id == ed.id && r.value.eventId == ed.eventId && r.value.capacity == ed.capacity
      && r.value.acceptWalkin == ed.acceptWalkin
      && r.value.acceptReservations == ed.acceptReservations
      && r.value.acceptInterest == ed.acceptInterest
      && r.value.startTime == Display(ClockOf(ed.startTimeKey))
      && r.value.endTime == Display(ClockOf(ed.endTimeKey))
      && IsIsoDate(r.value.date) && StripDashes(r.value.date) == ed.date
    ensures !ValidTimeKey(ed.startTimeKey) ==> r.Failure? && r.error.UnparsableTime?
  {
    match FormatTimeKey(ed.startTimeKey)
    case Failure(e) => Failure(e)
    case Success(startTime) =>
      match FormatTimeKey(ed.endTimeKey)
      case Failure(e) => Failure(e)
      case Success(endTime) =>
        match RenderDate(ed.date)
        case Failure(e) => Failure(e)
        case Success(date) =>
          Success(DateView(ed.id, ed.eventId, ed.capacity, ed.acceptWalkin,
            ed.acceptReservations, ed.acceptInterest, startTime, endTime, date))
  }
}
