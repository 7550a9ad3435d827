/**
 * Times of day as the application writes them: the zero-padded `HH:mm`
 * label, the parse `time.split(":").map(Number)` followed by `h * 60 + m`,
 * and the fact that the whole booking logic rests on: for well-formed
 * labels, string order is minute order.
 */
module TimeOfDay {
  import opened Text
  import opened Options

  /**
   * `${String(h).padStart(2, "0")}:${String(m).padStart(2, "0")}`: for
   * numbers below 100, five characters whose two fields on either side of
   * the `:` read back as `h` and `m`.
   */
  function ClockLabel(h: nat, m: nat): (text: string)
    ensures h < 100 && m < 100 ==>
      && |text| == 5 && text[2] == ':'
      && AllDigits(text[..2]) && DigitsValue(text[..2]) == h
      && AllDigits(text[3..]) && DigitsValue(text[3..]) == m
  {
    var text := Pad2(h) + ":" + Pad2(m);
    assert h < 100 && m < 100 ==> text[..2] == Pad2(h) && text[3..] == Pad2(m);
    text
  }

  /** A zero-padded 24-hour `HH:mm` label with hours 00-23 and minutes 00-59 */
  predicate WellFormedTime(s: string)
  {
    && |s| == 5
    && IsDigit(s[0]) && IsDigit(s[1]) && s[2] == ':' && IsDigit(s[3]) && IsDigit(s[4])
    && DigitsValue(s[..2]) < 24 && DigitsValue(s[3..]) < 60
  }

  /** The hour field of a well-formed label */
  function HourOf(s: string): (h: nat)
    requires WellFormedTime(s)
    ensures h < 24
  {
    DigitsValue(s[..2])
  }

  /** The minute field of a well-formed label */
  function MinuteOf(s: string): (m: nat)
    requires WellFormedTime(s)
    ensures m < 60
  {
    DigitsValue(s[3..])
  }

  /** The minute of the day a well-formed label denotes */
  function MinuteOfDay(s: string): (t: nat)
    requires WellFormedTime(s)
    ensures t < 24 * 60
  {
    HourOf(s) * 60 + MinuteOf(s)
  }

  /** The position of the first `:` in `s`, or `|s|` when there is none */
  function FirstColon(s: string): (i: nat)
    ensures i <= |s|
    ensures i < |s| ==> s[i] == ':'
    ensures forall k :: 0 <= k < i ==> s[k] != ':'
  {
    if |s| == 0 || s[0] == ':' then 0 else 1 + FirstColon(s[1..])
  }

  /**
   * `const [h, m] = s.split(":").map(Number); h * 60 + m` on strings of the
   * shape `digits:digits`; `None` stands for the NaN that JavaScript yields
   * when a part is missing or is not a number.
   */
  function ParseTime(s: string): (r: Option<nat>)
    ensures r.Some? ==> ':' in s
  {
    var i := FirstColon(s);
    if 0 < i < |s| - 1 && AllDigits(s[..i]) && AllDigits(s[i + 1..]) then
      Some(DigitsValue(s[..i]) * 60 + DigitsValue(s[i + 1..]))
    else
      None
  }

  /** Two two-digit fields in range joined by `:` make a well-formed label */
  lemma FieldsWellFormed(hh: string, mm: string)
    requires |hh| == 2 && |mm| == 2 && AllDigits(hh) && AllDigits(mm)
    requires DigitsValue(hh) < 24 && DigitsValue(mm) < 60
    ensures WellFormedTime(hh + ":" + mm)
    ensures MinuteOfDay(hh + ":" + mm) == DigitsValue(hh) * 60 + DigitsValue(mm)
  {
    var s := hh + ":" + mm;
    assert s[..2] == hh && s[3..] == mm;
  }

  /** A label built from an hour below 24 and a minute below 60 is well formed and denotes h * 60 + m */
  lemma ClockLabelWellFormed(h: nat, m: nat)
    requires h < 24 && m < 60
    ensures WellFormedTime(ClockLabel(h, m))
    ensures MinuteOfDay(ClockLabel(h, m)) == h * 60 + m
  {
    FieldsWellFormed(Pad2(h), Pad2(m));
  }

  /** Every well-formed label is the label of its own hour and minute */
  lemma WellFormedIsClockLabel(s: string)
    requires WellFormedTime(s)
    ensures s == ClockLabel(HourOf(s), MinuteOf(s))
  {
    var hh, mm := s[..2], s[3..];
    var h, m := DigitsValue(hh), DigitsValue(mm);
    TwoDigitOrder(Pad2(h), hh);
    TwoDigitOrder(Pad2(m), mm);
    assert s == hh + ":" + mm;
  }

  /** Parsing a well-formed label gives the minute it denotes */
  lemma ParseWellFormed(s: string)
    requires WellFormedTime(s)
    ensures ParseTime(s) == Some(MinuteOfDay(s))
  {
    assert FirstColon(s) == 2 by {
      assert s[0] != ':' && s[1] != ':';
    }
  }

  /** Parsing the label of a minute of the day gives that minute back */
  lemma ParseClockLabel(t: nat)
    requires t < 24 * 60
    ensures WellFormedTime(ClockLabel(t / 60, t % 60))
    ensures ParseTime(ClockLabel(t / 60, t % 60)) == Some(t)
  {
    var h, m := t / 60, t % 60;
    HoursAndMinutes(t);
    ClockLabelWellFormed(h, m);
    ParseWellFormed(ClockLabel(h, m));
  }

  /** A minute of the day splits into an hour below 24 and a minute below 60 */
  lemma HoursAndMinutes(t: nat)
    requires t < 24 * 60
    ensures t / 60 < 24 && t % 60 < 60 && (t / 60) * 60 + t % 60 == t
  {
  }

  /**
   * For well-formed labels the string comparison `s1 < s2` that guards
   * creation and occupancy agrees with comparing minutes of the day, and
   * string equality agrees with equal minutes.
   */
  lemma TimeOrder(s1: string, s2: string)
    requires WellFormedTime(s1) && WellFormedTime(s2)
    ensures LexLess(s1, s2) <==> MinuteOfDay(s1) < MinuteOfDay(s2)
    ensures s1 == s2 <==> MinuteOfDay(s1) == MinuteOfDay(s2)
  {
    assert s1 == s1[..2] + s1[2..] && s2 == s2[..2] + s2[2..];
    assert s1[2..] == [':'] + s1[3..] && s2[2..] == [':'] + s2[3..];
    LexLessConcat(s1[..2], s1[2..], s2[..2], s2[2..]);
    LexLessConcat([':'], s1[3..], [':'], s2[3..]);
    TwoDigitOrder(s1[..2], s2[..2]);
    TwoDigitOrder(s1[3..], s2[3..]);
  }
}
