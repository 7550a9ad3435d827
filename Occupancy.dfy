/**
 * The "Occupied / Available Now" status: the room is occupied when some
 * booking on today's date covers the current time of day, the start
 * included and the end excluded. Both the date and the time are inputs:
 * the application reads today's date from the clock with `getTodayString()`
 * and the time from the `now` state that a one-minute timer refreshes.
 */
module Occupancy {
  import opened Text
  import opened TimeOfDay
  import opened Bookings

  /**
   * The test inside `bookings.some`: `b.date === today && now >= b.startTime && now < b.endTime`.
   * On well-formed times the start minute is included and the end minute excluded.
   */
  function CoversNow(b: Booking, today: string, now: string): (covers: bool)
    ensures WellFormedTimes(b) && WellFormedTime(now) ==>
      (covers <==> b.date == today && MinuteOfDay(b.startTime) <= MinuteOfDay(now) < MinuteOfDay(b.endTime))
  {
    var covers := b.date == today && !LexLess(now, b.startTime) && LexLess(now, b.endTime);
    if WellFormedTimes(b) && WellFormedTime(now) then
      TimeOrder(now, b.startTime);
      TimeOrder(now, b.endTime);
      covers
    else
      covers
  }

  /** `bookings.some(b => CoversNow(b, today, now))`, scanning from the front */
  function AnyCoversNow(bookings: seq<Booking>, today: string, now: string): (r: bool)
    ensures r <==> exists i :: 0 <= i < |bookings| && CoversNow(bookings[i], today, now)
  {
    if |bookings| == 0 then false
    else CoversNow(bookings[0], today, now) || AnyCoversNow(bookings[1..], today, now)
  }

  /**
   * `isRoomOccupiedNow`, the current time being formatted as the `HH:mm`
   * label of the clock's hours and minutes. For a clock reading and
   * bookings with well-formed times, the room is occupied exactly when some
   * booking dated today has `start <= now < end` in minutes of the day.
   */
  function IsRoomOccupiedNow(bookings: seq<Booking>, today: string, hours: nat, minutes: nat): (occupied: bool)
    ensures hours < 24 && minutes < 60 && AllWellFormed(bookings) ==>
      (occupied <==>
        exists b :: b in bookings && b.date == today
          && MinuteOfDay(b.startTime) <= hours * 60 + minutes < MinuteOfDay(b.endTime))
  {
    var now := ClockLabel(hours, minutes);
    if hours < 24 && minutes < 60 && AllWellFormed(bookings) then
      ClockLabelWellFormed(hours, minutes);
      assert forall b :: b in bookings ==>
        (CoversNow(b, today, now) <==>
          b.date == today && MinuteOfDay(b.startTime) <= hours * 60 + minutes < MinuteOfDay(b.endTime));
      AnyCoversNow(bookings, today, now)
    else
      AnyCoversNow(bookings, today, now)
  }

  /**
   * A 09:00-10:00 booking for today makes the room occupied at 09:30, and
   * no longer at 10:00 exactly: the end is excluded.
   */
  lemma OccupancyExamples(today: string)
    ensures var b := Booking("a", "Standup", "Ops", today, "09:00", "10:00", Focus, "Ann", "u1");
      && AnyCoversNow([b], today, "09:30")
      && !AnyCoversNow([b], today, "10:00")
      && !AnyCoversNow([b], today, "08:59")
  {
    assert LexLess("08:59", "09:00");
  }

  /** The same booking read off the clock: occupied at 9 h 30 */
  lemma ClockExampleOccupied(today: string)
    ensures var b := Booking("a", "Standup", "Ops", today, "09:00", "10:00", Focus, "Ann", "u1");
      IsRoomOccupiedNow([b], today, 9, 30)
  {
    assert ClockLabel(9, 30) == "09:30";
    OccupancyExamples(today);
  }

  /** ... and free again at 10 h 0, when it ends */
  lemma ClockExampleFree(today: string)
    ensures var b := Booking("a", "Standup", "Ops", today, "09:00", "10:00", Focus, "Ann", "u1");
      !IsRoomOccupiedNow([b], today, 10, 0)
  {
    assert ClockLabel(10, 0) == "10:00";
    OccupancyExamples(today);
  }
}
