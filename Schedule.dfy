/**
 * The day schedule: nineteen half-hour slot labels from 09:00 to 18:00, the
 * bookings of the selected date, for each slot the first of them that
 * starts inside the slot, the card's height in slots, and whether the
 * delete control is shown.
 */
module Schedule {
  import opened Text
  import opened Options
  import opened TimeOfDay
  import opened Bookings

  /** The number of slots in a day and their width in minutes */
  const SlotCount: nat := 19
  const SlotWidth: nat := 30
  /** The first slot starts at 09:00, minute 540 of the day */
  const FirstSlot: nat := 540

  /** `totalMinutes = 540 + i * 30` */
  function SlotMinute(i: nat): nat
  {
    FirstSlot + i * SlotWidth
  }

  /**
   * `timeSlots`: `Array.from({ length: 19 }, (_, i) => label of 540 + i * 30)`,
   * each label being `Math.floor(t / 60)` and `t % 60` padded to two digits.
   * The start and end selects of the booking form offer the same list.
   */
  function TimeSlots(): (slots: seq<string>)
    ensures |slots| == SlotCount
  {
    seq(SlotCount, i requires 0 <= i < SlotCount => SlotText(i))
  }

  /** The label of slot `i`: its minute split into `Math.floor(t / 60)` hours and `t % 60` minutes */
  function SlotText(i: nat): string
  {
    ClockLabel(SlotMinute(i) / 60, SlotMinute(i) % 60)
  }

  /** Slot label `i` is a well-formed time that parses back to its minute `540 + 30 * i` */
  lemma SlotLabel(i: nat)
    requires i < SlotCount
    ensures WellFormedTime(TimeSlots()[i]) && MinuteOfDay(TimeSlots()[i]) == SlotMinute(i)
    ensures ParseTime(TimeSlots()[i]) == Some(SlotMinute(i))
  {
    var t := SlotMinute(i);
    assert TimeSlots()[i] == SlotText(i);
    ParseClockLabel(t);
    ClockLabelWellFormed(t / 60, t % 60);
  }

  /** Every slot label is a well-formed time that parses back to its minute */
  lemma SlotLabels()
    ensures forall i :: 0 <= i < SlotCount ==>
      WellFormedTime(TimeSlots()[i]) && MinuteOfDay(TimeSlots()[i]) == SlotMinute(i)
      && ParseTime(TimeSlots()[i]) == Some(SlotMinute(i))
  {
    forall i | 0 <= i < SlotCount
      ensures WellFormedTime(TimeSlots()[i]) && MinuteOfDay(TimeSlots()[i]) == SlotMinute(i)
      && ParseTime(TimeSlots()[i]) == Some(SlotMinute(i))
    {
      SlotLabel(i);
    }
  }

  /** Slot 0 is minute 540, 9 h 0, and slot 18 is minute 1080, 18 h 0 */
  lemma FirstAndLastMinutes()
    ensures SlotMinute(0) / 60 == 9 && SlotMinute(0) % 60 == 0
    ensures SlotMinute(SlotCount - 1) / 60 == 18 && SlotMinute(SlotCount - 1) % 60 == 0
  {
  }

  /** The first label is "09:00" and the last is "18:00" */
  lemma SlotsFirstAndLast()
    ensures TimeSlots()[0] == "09:00" && TimeSlots()[SlotCount - 1] == "18:00"
  {
    FirstAndLastMinutes();
    assert TimeSlots()[0] == SlotText(0) == ClockLabel(9, 0);
    assert TimeSlots()[SlotCount - 1] == SlotText(SlotCount - 1) == ClockLabel(18, 0);
    assert ClockLabel(9, 0) == "09:00";
    assert ClockLabel(18, 0) == "18:00";
  }

  /** The labels strictly increase, as strings and as minutes */
  lemma SlotsIncrease()
    ensures forall i, j :: 0 <= i < j < SlotCount ==> LexLess(TimeSlots()[i], TimeSlots()[j])
  {
    forall i, j | 0 <= i < j < SlotCount
      ensures LexLess(TimeSlots()[i], TimeSlots()[j])
    {
      SlotLabel(i);
      SlotLabel(j);
      TimeOrder(TimeSlots()[i], TimeSlots()[j]);
    }
  }

  /** `currentBookings`: `bookings.filter(b => b.date === selectedDate)` */
  function CurrentBookings(bookings: seq<Booking>, selectedDate: string): (current: seq<Booking>)
    ensures forall b :: b in current <==> b in bookings && b.date == selectedDate
  {
    Filter(bookings, OnDate(selectedDate))
  }

  /** The filter test `b => b.date === selectedDate` */
  function OnDate(selectedDate: string): Booking -> bool
  {
    (b: Booking) => b.date == selectedDate
  }

  /** The bookings of one date of an overlap-free collection are overlap-free */
  lemma CurrentBookingsNoOverlap(bookings: seq<Booking>, selectedDate: string)
    requires NoOverlap(bookings)
    ensures NoOverlap(CurrentBookings(bookings, selectedDate))
  {
    FilterKeepsNoOverlap(bookings, OnDate(selectedDate));
  }

  /**
   * The test inside `find`: the booking's parsed start lies in
   * `[slot, slot + 30)`. A start or a slot that does not parse is NaN in the
   * source, and every comparison with NaN is false.
   */
  function StartsInSlot(b: Booking, slot: Option<nat>): (starts: bool)
    ensures slot.None? ==> !starts
    ensures WellFormedTime(b.startTime) && slot.Some? ==>
      (starts <==> slot.value <= MinuteOfDay(b.startTime) < slot.value + SlotWidth)
  {
    if WellFormedTime(b.startTime) then
      ParseWellFormed(b.startTime);
      InSlot(ParseTime(b.startTime), slot)
    else
      InSlot(ParseTime(b.startTime), slot)
  }

  /** `bStart >= slotMinutes && bStart < slotMinutes + 30`, false when either side is NaN */
  function InSlot(start: Option<nat>, slot: Option<nat>): bool
  {
    match (start, slot)
    case (Some(t), Some(s)) => s <= t < s + SlotWidth
    case _ => false
  }

  /** `currentBookings.find(b => StartsInSlot(b, slot))`: the first booking that starts in the slot */
  function BookingAtSlot(current: seq<Booking>, slot: Option<nat>): (found: Option<Booking>)
    ensures found.None? <==> forall i :: 0 <= i < |current| ==> !StartsInSlot(current[i], slot)
    ensures found.Some? ==>
      exists i :: 0 <= i < |current| && current[i] == found.value && StartsInSlot(current[i], slot)
        && forall j :: 0 <= j < i ==> !StartsInSlot(current[j], slot)
  {
    if |current| == 0 then None
    else if StartsInSlot(current[0], slot) then Some(current[0])
    else
      var found := BookingAtSlot(current[1..], slot);
      assert found.Some? ==>
        exists i :: 0 <= i < |current| - 1 && current[1..][i] == found.value && StartsInSlot(current[i + 1], slot)
          && forall j :: 0 <= j < i ==> !StartsInSlot(current[1..][j], slot);
      found
  }

  /** A JavaScript number as far as the layout produces one */
  datatype JsNumber = Finite(value: real) | NaN

  /**
   * The card's height in slots: 1 when no booking starts in the slot,
   * otherwise `(end - start) / 30` in minutes, a fraction when the
   * booking is not a whole number of half hours, NaN when a time does not parse.
   */
  function SlotSpan(found: Option<Booking>): (span: JsNumber)
    ensures found.None? ==> span == Finite(1.0)
    ensures found.Some? && WellFormedTimes(found.value) ==>
      span == Finite((MinuteOfDay(found.value.endTime) as int - MinuteOfDay(found.value.startTime) as int) as real
                     / SlotWidth as real)
    ensures found.Some? && (ParseTime(found.value.startTime).None? || ParseTime(found.value.endTime).None?) ==>
      span == NaN
  {
    match found
    case None => Finite(1.0)
    case Some(b) =>
      if WellFormedTimes(b) then
        ParseWellFormed(b.startTime);
        ParseWellFormed(b.endTime);
        MinuteSpan(ParseTime(b.startTime), ParseTime(b.endTime))
      else
        MinuteSpan(ParseTime(b.startTime), ParseTime(b.endTime))
  }

  /** `diff / 30` for the parsed start and end, NaN when either is NaN */
  function MinuteSpan(start: Option<nat>, end: Option<nat>): JsNumber
  {
    match (start, end)
    case (Some(s), Some(e)) => Finite((e as int - s as int) as real / SlotWidth as real)
    case _ => NaN
  }

  /** `let duration = 1; if (bookingAtTime) { ...; duration = diff / 30 }` */
  method Duration(found: Option<Booking>) returns (duration: JsNumber)
    ensures duration == SlotSpan(found)
    ensures found.None? ==> duration == Finite(1.0)
  {
    duration := Finite(1.0);
    if found.Some? {
      var start := ParseTime(found.value.startTime);
      var end := ParseTime(found.value.endTime);
      if start.Some? && end.Some? {
        var diff := end.value as int - start.value as int;
        duration := Finite(diff as real / SlotWidth as real);
      } else {
        duration := NaN;
      }
    }
  }

  /** A booking accepted with well-formed times (`endTime > startTime`) has a finite, positive span */
  lemma SpanPositive(b: Booking)
    requires WellFormedTimes(b) && ValidInterval(b)
    ensures SlotSpan(Some(b)).Finite? && SlotSpan(Some(b)).value > 0.0
  {
    ParseWellFormed(b.startTime);
    ParseWellFormed(b.endTime);
    TimeOrder(b.startTime, b.endTime);
  }

  /** A booking from minute `540 + 30 * i` to minute `540 + 30 * j` spans `j - i` slots */
  lemma SpanInSlots(b: Booking, i: nat, j: nat)
    requires ParseTime(b.startTime) == Some(SlotMinute(i)) && ParseTime(b.endTime) == Some(SlotMinute(j))
    ensures SlotSpan(Some(b)) == Finite((j as int - i as int) as real)
  {
    assert SlotMinute(j) as int - SlotMinute(i) as int == (j as int - i as int) * SlotWidth;
  }

  /** A booking from slot `i` to slot `j` of the form's lists spans exactly `j - i` slots */
  lemma SpanOfSlotBooking(b: Booking, i: nat, j: nat)
    requires i < SlotCount && j < SlotCount
    requires b.startTime == TimeSlots()[i] && b.endTime == TimeSlots()[j]
    ensures SlotSpan(Some(b)) == Finite((j as int - i as int) as real)
  {
    SlotLabel(i);
    SlotLabel(j);
    SpanInSlots(b, i, j);
  }

  /** `bookingAtTime?.userId === user.uid`: only the booking's creator gets the delete control */
  function IsOwner(found: Option<Booking>, uid: string): (owner: bool)
    ensures owner <==> found.Some? && found.value.userId == uid
  {
    match found
    case Some(b) => b.userId == uid
    case None => false
  }

  /** One row of the schedule: the slot label, the booking card (if any), its height and its delete control */
  datatype ScheduleRow = ScheduleRow(time: string, booking: Option<Booking>, span: JsNumber, showDelete: bool)

  /**
   * The row of slot `slotLabel`, its minute parsed from the label as the
   * source does: the first booking of `current` starting in the slot (the
   * one `find` returns), if any, its height, and the delete control for
   * the owner only.
   */
  function Row(slotLabel: string, current: seq<Booking>, uid: string): (row: ScheduleRow)
    ensures row.time == slotLabel
    ensures row.booking == BookingAtSlot(current, ParseTime(slotLabel))
    ensures row.booking.None? <==> forall c :: c in current ==> !StartsInSlot(c, ParseTime(slotLabel))
    ensures row.booking.Some? ==> row.booking.value in current && StartsInSlot(row.booking.value, ParseTime(slotLabel))
    ensures row.span == SlotSpan(row.booking)
    ensures row.showDelete <==> row.booking.Some? && row.booking.value.userId == uid
  {
    var found := BookingAtSlot(current, ParseTime(slotLabel));
    ScheduleRow(slotLabel, found, SlotSpan(found), IsOwner(found, uid))
  }

  /**
   * `timeSlots.map(...)` over the bookings of `selectedDate` for the user
   * `uid`: row `i` is labelled with slot `i` and shows the first booking of
   * that date (in the order of `currentBookings`) starting inside the slot,
   * if there is one, with its height; a row is empty exactly when no booking
   * of that date starts in its slot, and then has height 1; the delete
   * control appears only on the signed-in user's own bookings.
   */
  function DaySchedule(bookings: seq<Booking>, selectedDate: string, uid: string): (rows: seq<ScheduleRow>)
    ensures |rows| == SlotCount
    ensures forall i :: 0 <= i < SlotCount ==> rows[i].time == TimeSlots()[i]
    ensures forall i :: 0 <= i < SlotCount ==>
      && rows[i].booking == BookingAtSlot(CurrentBookings(bookings, selectedDate), Some(SlotMinute(i)))
      && rows[i].span == SlotSpan(rows[i].booking)
    ensures forall i :: 0 <= i < SlotCount ==>
      (rows[i].booking.None? <==>
        forall b :: b in bookings && b.date == selectedDate ==> !StartsInSlot(b, Some(SlotMinute(i))))
    ensures forall i :: 0 <= i < SlotCount && rows[i].booking.Some? ==>
      var b := rows[i].booking.value;
      b in bookings && b.date == selectedDate && StartsInSlot(b, Some(SlotMinute(i)))
    ensures forall i :: 0 <= i < SlotCount && rows[i].booking.None? ==> rows[i].span == Finite(1.0)
    ensures forall i :: 0 <= i < SlotCount ==>
      (rows[i].showDelete <==> rows[i].booking.Some? && rows[i].booking.value.userId == uid)
  {
    var current := CurrentBookings(bookings, selectedDate);
    SlotLabels();
    seq(SlotCount, i requires 0 <= i < SlotCount => Row(TimeSlots()[i], current, uid))
  }

  /**
   * The booking `find` returns is the first booking of the date in the
   * collection's own order that starts in the slot: `filter` keeps the
   * order, so no earlier booking of that date starts there.
   */
  lemma {:induction false} FirstOnDate(bookings: seq<Booking>, date: string, slot: Option<nat>)
    ensures BookingAtSlot(CurrentBookings(bookings, date), slot).Some? ==>
      exists k :: 0 <= k < |bookings| && BookingAtSlot(CurrentBookings(bookings, date), slot) == Some(bookings[k])
        && bookings[k].date == date && StartsInSlot(bookings[k], slot)
        && forall j :: 0 <= j < k && bookings[j].date == date ==> !StartsInSlot(bookings[j], slot)
    decreases |bookings|
  {
    if |bookings| > 0 {
      var rest := bookings[1..];
      FindOnCons(bookings, date, slot);
      if bookings[0].date == date && StartsInSlot(bookings[0], slot) {
      } else {
        FirstOnDate(rest, date, slot);
        var later := BookingAtSlot(CurrentBookings(rest, date), slot);
        if later.Some? {
          var k :| 0 <= k < |rest| && later == Some(rest[k])
            && rest[k].date == date && StartsInSlot(rest[k], slot)
            && forall j :: 0 <= j < k && rest[j].date == date ==> !StartsInSlot(rest[j], slot);
          ShiftFirst(bookings, date, slot, k);
        }
      }
    }
  }

  /** A first match at `k` behind a front booking that does not match is a first match at `k + 1` */
  lemma ShiftFirst(bookings: seq<Booking>, date: string, slot: Option<nat>, k: nat)
    requires 0 < |bookings| && !(bookings[0].date == date && StartsInSlot(bookings[0], slot))
    requires k < |bookings| - 1
    requires forall j :: 0 <= j < k && bookings[1..][j].date == date ==> !StartsInSlot(bookings[1..][j], slot)
    ensures bookings[k + 1] == bookings[1..][k]
    ensures forall j :: 0 <= j < k + 1 && bookings[j].date == date ==> !StartsInSlot(bookings[j], slot)
  {
    forall j | 0 < j < k + 1
      ensures bookings[j] == bookings[1..][j - 1]
    {
    }
  }

  /** One step of `find` over the current bookings: the front booking is the answer when it is of the date and starts in the slot */
  lemma FindOnCons(bookings: seq<Booking>, date: string, slot: Option<nat>)
    requires 0 < |bookings|
    ensures var x := bookings[0];
      BookingAtSlot(CurrentBookings(bookings, date), slot) ==
        if x.date == date && StartsInSlot(x, slot) then Some(x) else BookingAtSlot(CurrentBookings(bookings[1..], date), slot)
  {
    var x, rest := bookings[0], bookings[1..];
    assert bookings == [x] + rest;
    FilterAppend([x], rest, OnDate(date));
    FilterSingleton(x, OnDate(date));
    var current, later := CurrentBookings(bookings, date), CurrentBookings(rest, date);
    if x.date == date {
      assert current == [x] + later && current[0] == x && current[1..] == later;
    } else {
      assert current == later;
    }
  }

  /**
   * A saved booking joins the end of its date's current bookings and leaves
   * every other date's current bookings as they were.
   */
  lemma CurrentBookingsAfterSave(bookings: seq<Booking>, record: Booking, date: string)
    ensures CurrentBookings(bookings + [record], date) ==
      CurrentBookings(bookings, date) + (if record.date == date then [record] else [])
  {
    FilterAppend(bookings, [record], OnDate(date));
    FilterSingleton(record, OnDate(date));
  }

  /** A booking that starts on a slot boundary with well-formed times, `endTime > startTime` */
  predicate SlotAligned(b: Booking)
  {
    WellFormedTimes(b) && ValidInterval(b) && MinuteOfDay(b.startTime) % SlotWidth == 0
  }

  /** Every slot starts on a half-hour boundary */
  lemma SlotMinuteAligned(i: nat)
    ensures SlotMinute(i) % SlotWidth == 0
  {
    assert SlotMinute(i) == (18 + i) * SlotWidth;
  }

  /** A booking whose times are picked from the form's slot lists, with end after start, is slot-aligned */
  lemma FormBookingIsAligned(b: Booking, i: nat, j: nat)
    requires i < SlotCount && j < SlotCount
    requires b.startTime == TimeSlots()[i] && b.endTime == TimeSlots()[j] && ValidInterval(b)
    ensures SlotAligned(b)
  {
    SlotLabel(i);
    SlotLabel(j);
    SlotMinuteAligned(i);
  }

  /** The only slot-aligned minute inside a slot that starts on a boundary is the slot's own start */
  lemma AlignedStart(start: nat, slot: nat)
    requires start % SlotWidth == 0 && slot % SlotWidth == 0
    requires slot <= start < slot + SlotWidth
    ensures start == slot
  {
  }

  /**
   * Two different overlap-free, slot-aligned bookings of one date never start
   * in the same slot, so `find` picking the first one loses nothing.
   */
  lemma OneBookingPerSlot(bookings: seq<Booking>, p: nat, q: nat, slot: nat)
    requires NoOverlap(bookings)
    requires p < |bookings| && q < |bookings| && p != q
    requires bookings[p].date == bookings[q].date
    requires SlotAligned(bookings[p]) && SlotAligned(bookings[q])
    requires slot % SlotWidth == 0
    ensures !(StartsInSlot(bookings[p], Some(slot)) && StartsInSlot(bookings[q], Some(slot)))
  {
    var a, b := bookings[p], bookings[q];
    if StartsInSlot(a, Some(slot)) && StartsInSlot(b, Some(slot)) {
      ParseWellFormed(a.startTime);
      ParseWellFormed(b.startTime);
      AlignedStart(MinuteOfDay(a.startTime), slot);
      AlignedStart(MinuteOfDay(b.startTime), slot);
      assert !Clash(a, b);
      TimeOrder(a.startTime, a.endTime);
      TimeOrder(b.startTime, b.endTime);
    }
  }

  /**
   * In an overlap-free collection whose bookings of `selectedDate` are all
   * slot-aligned, each booking of that date is the one shown in the row of
   * the slot it starts at.
   */
  lemma RowShowsBooking(bookings: seq<Booking>, selectedDate: string, uid: string, b: Booking, i: nat)
    requires NoOverlap(bookings)
    requires forall c :: c in bookings && c.date == selectedDate ==> SlotAligned(c)
    requires b in bookings && b.date == selectedDate && WellFormedTime(b.startTime)
    requires i < SlotCount && MinuteOfDay(b.startTime) == SlotMinute(i)
    ensures DaySchedule(bookings, selectedDate, uid)[i].booking == Some(b)
  {
    var current := CurrentBookings(bookings, selectedDate);
    var slot := TimeSlots()[i];
    SlotLabel(i);
    SlotMinuteAligned(i);
    CurrentBookingsNoOverlap(bookings, selectedDate);
    ParseWellFormed(b.startTime);
    assert b in current && StartsInSlot(b, Some(SlotMinute(i)));
    var m :| 0 <= m < |current| && current[m] == b;
    var found := BookingAtSlot(current, Some(SlotMinute(i)));
    assert found.Some?;
    var k :| 0 <= k < |current| && current[k] == found.value && StartsInSlot(current[k], Some(SlotMinute(i)));
    if k != m {
      assert current[k] in bookings && current[m] in bookings;
      OneBookingPerSlot(current, k, m, SlotMinute(i));
      assert false;
    }
    assert DaySchedule(bookings, selectedDate, uid)[i] == Row(slot, current, uid);
  }
}
