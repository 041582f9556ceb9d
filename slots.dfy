/**
 * The time-of-day slots offered by the entry form: every half hour from
 * `start:00` to `end:00`, rendered the way Python renders
 * `strftime("%I:%M %p").lstrip("0")`.
 *
 * A time of day is a number of minutes since midnight.
 */
module Slots {

  // Times are minutes since midnight: an hour is 60 minutes, a day 1440,
  // and consecutive slots are 30 minutes apart. The numbers are written
  // as literals so that the solver sees linear arithmetic.

  /** `datetime.hour` and `datetime.minute` of a time of day. */
  function Hour(t: nat): nat { t / 60 }
  function Minute(t: nat): nat { t % 60 }

  // ---------------------------------------------------------------------
  // Rendering a time of day
  // ---------------------------------------------------------------------

  predicate IsDigit(c: char) { '0' <= c <= '9' }

  function DigitValue(c: char): nat
    requires IsDigit(c)
  {
    c as int - '0' as int
  }

  function DigitChar(d: nat): (c: char)
    requires d < 10
    ensures IsDigit(c) && DigitValue(c) == d
  {
    ('0' as int + d) as char
  }

  /** Python's `str.lstrip("0")`: drops every leading '0'. */
  function LStripZeros(s: string): (r: string)
    ensures |r| <= |s|
  {
    if s != [] && s[0] == '0' then LStripZeros(s[1..]) else s
  }

  /**
   * `lstrip("0")` keeps a suffix of its input that does not start with '0',
   * and every character it drops is a '0'.
   */
  lemma {:induction false} LStripZerosSuffix(s: string)
    ensures |LStripZeros(s)| <= |s| && LStripZeros(s) == s[|s| - |LStripZeros(s)|..]
    ensures LStripZeros(s) == [] || LStripZeros(s)[0] != '0'
    ensures forall i :: 0 <= i < |s| - |LStripZeros(s)| ==> s[i] == '0'
  {
    if s != [] && s[0] == '0' {
      LStripZerosSuffix(s[1..]);
      assert s[1..][|s| - 1 - |LStripZeros(s)|..] == s[|s| - |LStripZeros(s)|..];
      forall i | 1 <= i < |s| - |LStripZeros(s)|
        ensures s[i] == '0'
      {
        assert s[i] == s[1..][i - 1];
      }
    }
  }

  /** The `%I` hour: 1..12, where hour 0 prints as 12 and hours past noon count from 1 again. */
  function Hour12(h: nat): (r: nat)
    requires h < 24
    ensures 1 <= r <= 12
    ensures h == (if r == 12 then 0 else r) + (if h < 12 then 0 else 12)
  {
    if h == 0 then 12 else if h > 12 then h - 12 else h
  }

  /** The part of a rendered time after the hour: `:MM AM` or `:MM PM`. */
  function MinuteSuffix(m: nat, pm: bool): (s: string)
    requires m < 60
    ensures |s| == 6
  {
    [':', DigitChar(m / 10), DigitChar(m % 10), ' ', if pm then 'P' else 'A', 'M']
  }

  /**
   * `strftime("%I:%M %p")`, before the leading zero is stripped: the hour
   * and the minute as two digits each, then `AM` before noon and `PM`
   * from noon on.
   */
  function Strftime(t: nat): (s: string)
    requires t < 1440
    ensures |s| == 8
    ensures s[2] == ':' && s[5] == ' ' && s[7] == 'M'
    ensures IsDigit(s[0]) && IsDigit(s[1]) && 10 * DigitValue(s[0]) + DigitValue(s[1]) == Hour12(Hour(t))
    ensures IsDigit(s[3]) && IsDigit(s[4]) && 10 * DigitValue(s[3]) + DigitValue(s[4]) == Minute(t)
    ensures s[6] == 'P' <==> Hour(t) >= 12
    ensures s[6] == 'A' <==> Hour(t) < 12
  {
    var h12 := Hour12(Hour(t));
    var suffix := MinuteSuffix(Minute(t), Hour(t) >= 12);
    var s := [DigitChar(h12 / 10), DigitChar(h12 % 10)] + suffix;
    assert s[2..] == suffix;
    s
  }

  // The shape of a rendered time, read back character by character:
  // `H:MM AM` or `H:MM PM` with a one- or two-digit hour H in 1..12
  // that has no leading zero, and two minute digits MM.

  function HourField(s: string): nat
    requires 7 <= |s| <= 8 && IsDigit(s[0]) && (|s| == 8 ==> IsDigit(s[1]))
  {
    if |s| == 7 then DigitValue(s[0]) else 10 * DigitValue(s[0]) + DigitValue(s[1])
  }

  function MinuteField(s: string): nat
    requires |s| >= 6 && IsDigit(s[|s| - 5]) && IsDigit(s[|s| - 4])
  {
    10 * DigitValue(s[|s| - 5]) + DigitValue(s[|s| - 4])
  }

  predicate IsClockText(s: string)
  {
    && 7 <= |s| <= 8
    && IsDigit(s[0]) && s[0] != '0' && (|s| == 8 ==> IsDigit(s[1]))
    && 1 <= HourField(s) <= 12
    && s[|s| - 6] == ':'
    && IsDigit(s[|s| - 5]) && IsDigit(s[|s| - 4]) && MinuteField(s) < 60
    && s[|s| - 3] == ' '
    && (s[|s| - 2] == 'A' || s[|s| - 2] == 'P') && s[|s| - 1] == 'M'
  }

  /** A slot string: a clock text whose minutes are `00` or `30`. */
  predicate IsSlotText(s: string)
  {
    IsClockText(s) && (MinuteField(s) == 0 || MinuteField(s) == 30)
  }

  /** Reads a clock text back as minutes since midnight: 12 AM is hour 0, 12 PM is hour 12. */
  function ClockMinutes(s: string): (t: nat)
    requires IsClockText(s)
    ensures t < 1440
  {
    var h := HourField(s);
    ((if h == 12 then 0 else h) + (if s[|s| - 2] == 'P' then 12 else 0)) * 60 + MinuteField(s)
  }

  /**
   * One slot label: `t.strftime("%I:%M %p").lstrip("0")`. Only the hour's
   * leading zero goes, so the label is one character shorter exactly when
   * the 12-hour hour has one digit.
   */
  function FormatSlot(t: nat): (s: string)
    requires t < 1440
    ensures |s| == if Hour12(Hour(t)) < 10 then 7 else 8
  {
    var h := Hour12(Hour(t));
    StripTwoDigits(h / 10, h % 10, MinuteSuffix(Minute(t), Hour(t) >= 12));
    LStripZeros(Strftime(t))
  }

  /** The text `H:MM AM|PM` of an hour in 1..12 written without a leading zero, a minute and the meridiem. */
  function ClockText(h: nat, m: nat, pm: bool): (s: string)
    requires 1 <= h <= 12 && m < 60
    ensures |s| == (if h < 10 then 7 else 8)
  {
    (if h < 10 then [DigitChar(h)] else [DigitChar(h / 10), DigitChar(h % 10)]) + MinuteSuffix(m, pm)
  }

  /** Read back, the fields of `ClockText(h, m, pm)` are h, m and the meridiem. */
  lemma ClockTextFields(h: nat, m: nat, pm: bool)
    requires 1 <= h <= 12 && m < 60
    ensures IsClockText(ClockText(h, m, pm))
    ensures HourField(ClockText(h, m, pm)) == h && MinuteField(ClockText(h, m, pm)) == m
    ensures var s := ClockText(h, m, pm); s[|s| - 2] == 'P' <==> pm
  {
    var s := ClockText(h, m, pm);
    var k := |s| - 6;
    assert s[k] == ':' && s[k + 1] == DigitChar(m / 10) && s[k + 2] == DigitChar(m % 10);
    assert s[k + 3] == ' ' && s[k + 4] == (if pm then 'P' else 'A') && s[k + 5] == 'M';
    if h < 10 {
      assert s[0] == DigitChar(h);
    } else {
      assert s[0] == DigitChar(h / 10) && s[1] == DigitChar(h % 10);
    }
  }

  /** `lstrip("0")` on two digits and a suffix removes the first digit exactly when it is 0 (the second is then not 0). */
  lemma StripTwoDigits(a: nat, b: nat, rest: string)
    requires a < 10 && b < 10 && (a == 0 ==> b != 0)
    ensures LStripZeros([DigitChar(a), DigitChar(b)] + rest)
         == if a == 0 then [DigitChar(b)] + rest else [DigitChar(a), DigitChar(b)] + rest
  {
    var s := [DigitChar(a), DigitChar(b)] + rest;
    if a == 0 {
      assert s[0] == '0' && s[1..] == [DigitChar(b)] + rest;
      assert s[1..][0] != '0';
    } else {
      assert s[0] != '0';
    }
  }

  /** A label is the clock text of the 12-hour hour, the minute and the meridiem of the time. */
  lemma FormatSlotIsClockText(t: nat)
    requires t < 1440
    ensures FormatSlot(t) == ClockText(Hour12(Hour(t)), Minute(t), Hour(t) >= 12)
  {
    var h := Hour12(Hour(t));
    StripTwoDigits(h / 10, h % 10, MinuteSuffix(Minute(t), Hour(t) >= 12));
  }

  /** A label has the clock shape and reads back as the very time it renders. */
  lemma FormatSlotReadsBack(t: nat)
    requires t < 1440
    ensures IsClockText(FormatSlot(t)) && ClockMinutes(FormatSlot(t)) == t
  {
    FormatSlotIsClockText(t);
    ClockTextFields(Hour12(Hour(t)), Minute(t), Hour(t) >= 12);
  }

  /** Different times of day never share a label. */
  lemma FormatSlotInjective(a: nat, b: nat)
    requires a < 1440 && b < 1440
    requires FormatSlot(a) == FormatSlot(b)
    ensures a == b
  {
    FormatSlotReadsBack(a);
    FormatSlotReadsBack(b);
  }

  /** A time on the half hour has minute 0 or 30. */
  lemma HalfHourMinute(t: nat)
    requires t % 30 == 0
    ensures Minute(t) == 0 || Minute(t) == 30
  {
    var q := t / 30;
    assert t == 30 * q;
    if q % 2 == 0 {
      assert t == 60 * (q / 2);
    } else {
      assert t == 60 * (q / 2) + 30;
    }
  }

  /** A time on the half hour renders as a slot string: its minutes are `00` or `30`. */
  lemma SlotShape(t: nat)
    requires t < 1440 && t % 30 == 0
    ensures IsSlotText(FormatSlot(t))
  {
    HalfHourMinute(t);
    FormatSlotIsClockText(t);
    ClockTextFields(Hour12(Hour(t)), Minute(t), Hour(t) >= 12);
  }

  /** Hour 0 renders as `12:.. AM` and hour 12 as `12:.. PM`. */
  lemma MidnightAndNoon(t: nat)
    requires t < 1440 && (Hour(t) == 0 || Hour(t) == 12)
    ensures |FormatSlot(t)| == 8 && FormatSlot(t)[..2] == "12"
    ensures FormatSlot(t)[6..] == (if Hour(t) == 0 then "AM" else "PM")
  {
    FormatSlotIsClockText(t);
    var suffix := MinuteSuffix(Minute(t), Hour(t) >= 12);
    assert Hour12(Hour(t)) == 12;
    assert FormatSlot(t) == ['1', '2'] + suffix;
    assert suffix[4..] == (if Hour(t) == 0 then "AM" else "PM");
  }

  // ---------------------------------------------------------------------
  // The list of slots
  // ---------------------------------------------------------------------

  /** Number of slots from `start:00` to `end:00` inclusive, half an hour apart. */
  function SlotCount(start: nat, end: nat): nat
  {
    if start <= end then 2 * (end - start) + 1 else 0
  }

  /** The time of the i-th slot. */
  function SlotTime(start: nat, i: nat): nat
  {
    start * 60 + 30 * i
  }

  /** The loop's condition `t.hour < end or (t.hour == end and t.minute == 0)` is `t <= end:00`. */
  lemma ContinueIffNotPastEnd(t: nat, end: nat)
    ensures (Hour(t) < end || (Hour(t) == end && Minute(t) == 0)) <==> t <= end * 60
  {
  }

  /** Specification of the slot list: the i-th entry labels `start:00` plus i half hours. */
  function HalfHourSlots(start: nat, end: nat): (r: seq<string>)
    requires start <= 23 && end <= 23
    ensures |r| == SlotCount(start, end)
  {
    seq(SlotCount(start, end), i requires 0 <= i < SlotCount(start, end) => FormatSlot(SlotTime(start, i)))
  }

  /** The k-th entry of the specification labels `start:00` plus k half hours. */
  lemma SlotAt(start: nat, end: nat, k: nat)
    requires start <= 23 && end <= 23 && k < SlotCount(start, end)
    ensures SlotTime(start, k) < 1440
    ensures HalfHourSlots(start, end)[k] == FormatSlot(SlotTime(start, k))
  {
  }

  /** The first n + 1 slots are the first n followed by the label of slot n. */
  lemma SlotsPrefixStep(start: nat, end: nat, n: nat)
    requires start <= 23 && end <= 23 && n < SlotCount(start, end)
    ensures SlotTime(start, n) < 1440
    ensures HalfHourSlots(start, end)[..n + 1] == HalfHourSlots(start, end)[..n] + [FormatSlot(SlotTime(start, n))]
  {
    SlotAt(start, end, n);
  }

  /**
   * `generate_half_hour_slots`: walks `t` from `start:00` in steps of
   * 30 minutes while it is not past `end:00`, appending each label.
   * Hours past 23 are outside the model (`datetime` would wrap at midnight).
   */
  method GenerateHalfHourSlots(start: nat, end: nat) returns (slots: seq<string>)
    requires start <= 23 && end <= 23
    ensures slots == HalfHourSlots(start, end)
  {
    ghost var spec := HalfHourSlots(start, end);
    slots := [];
    var t := start * 60;
    while Hour(t) < end || (Hour(t) == end && Minute(t) == 0)
      invariant t == SlotTime(start, |slots|)
      invariant |slots| <= |spec| && slots == spec[..|slots|]
      decreases end * 60 + 30 - t
    {
      ContinueIffNotPastEnd(t, end);
      SlotsPrefixStep(start, end, |slots|);
      slots := slots + [FormatSlot(t)];
      t := t + 30;
    }
    ContinueIffNotPastEnd(t, end);
    assert |slots| == |spec| && spec[..|spec|] == spec;
  }

  // ---------------------------------------------------------------------
  // Properties of the slot list
  // ---------------------------------------------------------------------

  /** Read back, consecutive slots are 30 minutes apart, the first is `start:00` and none is past `end:00`. */
  lemma SlotTimes(start: nat, end: nat, i: nat)
    requires start <= 23 && end <= 23 && i < SlotCount(start, end)
    ensures IsClockText(HalfHourSlots(start, end)[i])
    ensures start * 60 <= ClockMinutes(HalfHourSlots(start, end)[i]) <= end * 60
    ensures ClockMinutes(HalfHourSlots(start, end)[i]) == start * 60 + 30 * i
  {
    SlotAt(start, end, i);
    FormatSlotReadsBack(SlotTime(start, i));
  }

  /** For `start <= end`: 2*(end-start)+1 slots, the first `start:00` and the last `end:00`. */
  lemma SlotsSpan(start: nat, end: nat)
    requires start <= end <= 23
    ensures |HalfHourSlots(start, end)| == 2 * (end - start) + 1
    ensures HalfHourSlots(start, end)[0] == FormatSlot(start * 60)
    ensures HalfHourSlots(start, end)[2 * (end - start)] == FormatSlot(end * 60)
  {
    SlotAt(start, end, 0);
    SlotAt(start, end, 2 * (end - start));
  }

  /** Read back, each slot is 30 minutes after the one before it. */
  lemma SlotsSpacing(start: nat, end: nat, i: nat)
    requires start <= 23 && end <= 23 && i + 1 < SlotCount(start, end)
    ensures IsClockText(HalfHourSlots(start, end)[i]) && IsClockText(HalfHourSlots(start, end)[i + 1])
    ensures ClockMinutes(HalfHourSlots(start, end)[i + 1]) == ClockMinutes(HalfHourSlots(start, end)[i]) + 30
  {
    SlotTimes(start, end, i);
    SlotTimes(start, end, i + 1);
  }

  /** `end:30` is never offered, whatever the bounds. */
  lemma EndHalfPastExcluded(start: nat, end: nat)
    requires start <= 23 && end <= 23
    ensures FormatSlot(end * 60 + 30) !in HalfHourSlots(start, end)
  {
    var r := HalfHourSlots(start, end);
    var late := end * 60 + 30;
    forall i | 0 <= i < |r|
      ensures r[i] != FormatSlot(late)
    {
      SlotTimes(start, end, i);
      FormatSlotReadsBack(late);
      assert ClockMinutes(r[i]) != ClockMinutes(FormatSlot(late));
    }
  }

  /** Slots are in strictly increasing time order, hence pairwise distinct. */
  lemma SlotsIncreasing(start: nat, end: nat, i: nat, j: nat)
    requires start <= 23 && end <= 23 && i < j < SlotCount(start, end)
    ensures IsClockText(HalfHourSlots(start, end)[i]) && IsClockText(HalfHourSlots(start, end)[j])
    ensures ClockMinutes(HalfHourSlots(start, end)[i]) < ClockMinutes(HalfHourSlots(start, end)[j])
    ensures HalfHourSlots(start, end)[i] != HalfHourSlots(start, end)[j]
  {
    SlotTimes(start, end, i);
    SlotTimes(start, end, j);
  }

  /** Every slot has the `H:MM AM|PM` shape with minutes `00` or `30`. */
  lemma SlotsWellShaped(start: nat, end: nat)
    requires start <= 23 && end <= 23
    ensures forall i :: 0 <= i < SlotCount(start, end) ==> IsSlotText(HalfHourSlots(start, end)[i])
  {
    forall i | 0 <= i < SlotCount(start, end)
      ensures IsSlotText(HalfHourSlots(start, end)[i])
    {
      assert SlotTime(start, i) == 30 * (2 * start + i);
      SlotShape(SlotTime(start, i));
    }
  }

  /** With `start > end` there are no slots. */
  lemma NoSlotsWhenStartAfterEnd(start: nat, end: nat)
    requires end < start <= 23
    ensures HalfHourSlots(start, end) == []
  {
  }

  /** `8:00` renders as `8:00 AM`: the hour's leading zero is stripped. */
  lemma EightAmLabel()
    ensures FormatSlot(8 * 60) == "8:00 AM"
  {
    FormatSlotIsClockText(480);
    assert Hour(480) == 8 && Minute(480) == 0 && Hour12(8) == 8;
    assert MinuteSuffix(0, false) == ":00 AM";
  }

  /** `17:00` renders as `5:00 PM`. */
  lemma FivePmLabel()
    ensures FormatSlot(17 * 60) == "5:00 PM"
  {
    FormatSlotIsClockText(1020);
    assert Hour(1020) == 17 && Minute(1020) == 0 && Hour12(17) == 5;
    assert MinuteSuffix(0, true) == ":00 PM";
  }

  /** The form's default list, `generate_half_hour_slots()`: 19 slots from `8:00 AM` to `5:00 PM`. */
  lemma DefaultSlots()
    ensures |HalfHourSlots(8, 17)| == 19
    ensures HalfHourSlots(8, 17)[0] == "8:00 AM"
    ensures HalfHourSlots(8, 17)[18] == "5:00 PM"
  {
    SlotsSpan(8, 17);
    EightAmLabel();
    FivePmLabel();
  }
}
