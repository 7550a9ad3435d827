/**
 * The booking store behind the page: the collection of bookings as last
 * delivered by the live query, and the "new booking" form. Creating a
 * booking runs the guard sequence of the submit handler and, when every
 * guard passes and the write succeeds, appends the record and clears the
 * title and organizer fields; cancelling removes the record.
 */
module Store {
  import opened Text
  import opened Options
  import opened TimeOfDay
  import opened Bookings

  /** The state of the "new booking" form */
  datatype Form = Form(title: string, organizer: string, date: string, start: string, end: string, kind: BookingType)

  /** Why a submission was turned away before anything was written */
  datatype Rejection =
    | MissingInput     // no user, or an empty title or organizer: the handler just returns
    | EndNotAfterStart // "End time must be after start time"
    | SlotReserved     // "This time slot is already reserved"

  /** What a submission ended in */
  datatype Outcome = Rejected(reason: Rejection) | SaveFailed | Saved

  /** The form as the page first shows it: empty fields, today's date, 10:00 to 11:00, an internal meeting */
  function InitialForm(today: string): (f: Form)
    ensures f.title == "" && f.organizer == "" && f.date == today
    ensures f.start == "10:00" && f.end == "11:00" && f.kind == Internal
  {
    Form("", "", today, "10:00", "11:00", Internal)
  }

  /** The document written for a form submitted by `user`, with the identifier the store assigns */
  function NewRecord(id: string, form: Form, user: User): (b: Booking)
    ensures b.id == id && b.userId == user.uid && b.bookedBy == BookedBy(user)
    ensures b.title == form.title && b.organizer == form.organizer && b.date == form.date
    ensures b.startTime == form.start && b.endTime == form.end && b.kind == form.kind
  {
    Booking(id, form.title, form.organizer, form.date, form.start, form.end, form.kind, BookedBy(user), user.uid)
  }

  /**
   * The three guards of the submit handler in their order; `None` when the
   * submission may be written. Only the first failing guard is reported.
   */
  function Screen(bookings: seq<Booking>, form: Form, user: Option<User>): (r: Option<Rejection>)
    ensures r == Some(MissingInput) <==> user.None? || form.title == "" || form.organizer == ""
    ensures r == Some(EndNotAfterStart) <==>
      user.Some? && form.title != "" && form.organizer != "" && !LexLess(form.start, form.end)
    ensures r == Some(SlotReserved) <==>
      user.Some? && form.title != "" && form.organizer != "" && LexLess(form.start, form.end)
      && exists i :: 0 <= i < |bookings| && Conflicts(bookings[i], form.date, form.start, form.end)
  {
    if user.None? || form.title == "" || form.organizer == "" then Some(MissingInput)
    else if !LexLess(form.start, form.end) then Some(EndNotAfterStart)
    else if HasConflict(bookings, form.date, form.start, form.end) then Some(SlotReserved)
    else None
  }

  /** An interval that does not end after it starts is refused whatever bookings exist */
  lemma BadIntervalRejected(bookings: seq<Booking>, form: Form, user: Option<User>)
    requires !LexLess(form.start, form.end)
    ensures Screen(bookings, form, user).Some?
    ensures Screen(bookings, form, user) == Screen([], form, user)
  {
  }

  /** For well-formed times the refusal is exactly "end minute not after start minute" */
  lemma BadIntervalInMinutes(bookings: seq<Booking>, form: Form, u: User)
    requires WellFormedTime(form.start) && WellFormedTime(form.end)
    requires form.title != "" && form.organizer != ""
    ensures Screen(bookings, form, Some(u)) == Some(EndNotAfterStart) <==>
      MinuteOfDay(form.end) <= MinuteOfDay(form.start)
  {
    TimeOrder(form.start, form.end);
  }

  /** Against an empty collection a complete form with end after start is always accepted */
  lemma EmptyCollectionAccepts(form: Form, user: Option<User>)
    ensures Screen([], form, user).None? <==>
      user.Some? && form.title != "" && form.organizer != "" && LexLess(form.start, form.end)
  {
  }

  /**
   * An accepted submission keeps the collection overlap-free and stores a
   * record whose end is after its start.
   */
  lemma AcceptedKeepsNoOverlap(bookings: seq<Booking>, form: Form, u: User, id: string)
    requires Screen(bookings, form, Some(u)).None?
    ensures ValidInterval(NewRecord(id, form, u))
    ensures NoOverlap(bookings) ==> NoOverlap(bookings + [NewRecord(id, form, u)])
  {
    if NoOverlap(bookings) {
      AppendKeepsNoOverlap(bookings, NewRecord(id, form, u));
    }
  }

  /** The filter test of a removal: every record except the one with identifier `id` */
  function OtherThan(id: string): Booking -> bool
  {
    (b: Booking) => b.id != id
  }

  class BookingStore {
    /** The collection as last delivered by the live query, in the order it was delivered, or as changed by a write since */
    var bookings: seq<Booking>
    /** The "new booking" form */
    var form: Form

    /** The page's initial state: no bookings yet and the initial form for `today` */
    constructor(today: string)
      ensures bookings == [] && form == InitialForm(today)
    {
      bookings := [];
      form := InitialForm(today);
    }

    /** The live query delivers a new snapshot of the collection; the form is untouched */
    method ReceiveSnapshot(snapshot: seq<Booking>)
      modifies this
      ensures bookings == snapshot && form == old(form)
    {
      bookings := snapshot;
    }

    /** An input of the form replaces the form state; the collection is untouched */
    method EditForm(edited: Form)
      modifies this
      ensures form == edited && bookings == old(bookings)
    {
      form := edited;
    }

    /**
     * Submitting the form as `user`. The guards run in order: missing
     * input, an end not after the start, an overlap with a booking of the
     * same date. Then the write is attempted (`writeOk` says whether it
     * succeeds and `newId` is the identifier the store assigns); on success
     * the record is added and only the title and organizer are cleared.
     */
    method AddBooking(user: Option<User>, newId: string, writeOk: bool) returns (outcome: Outcome)
      modifies this
      ensures Screen(old(bookings), old(form), user).Some? ==>
        outcome == Rejected(Screen(old(bookings), old(form), user).value)
      ensures Screen(old(bookings), old(form), user).None? ==>
        outcome == (if writeOk then Saved else SaveFailed)
      ensures outcome == Saved ==>
        && user.Some?
        && bookings == old(bookings) + [NewRecord(newId, old(form), user.value)]
        && form == old(form).(title := "", organizer := "")
      ensures outcome != Saved ==> bookings == old(bookings) && form == old(form)
      ensures NoOverlap(old(bookings)) ==> NoOverlap(bookings)
    {
      if user.None? || form.title == "" || form.organizer == "" {
        return Rejected(MissingInput);
      }
      if !LexLess(form.start, form.end) {
        return Rejected(EndNotAfterStart);
      }
      var conflict := HasConflict(bookings, form.date, form.start, form.end);
      if conflict {
        return Rejected(SlotReserved);
      }
      if !writeOk {
        return SaveFailed;
      }
      var record := NewRecord(newId, form, user.value);
      AcceptedKeepsNoOverlap(bookings, form, user.value, newId);
      bookings := bookings + [record];
      form := form.(title := "", organizer := "");
      outcome := Saved;
    }

    /**
     * Cancelling the booking `id`: nothing happens unless the user confirms
     * and the removal succeeds; then every record with that identifier is
     * gone and the others stay in their order. Any signed-in user may
     * cancel any booking here: only the visibility of the control checks
     * ownership.
     */
    method DeleteBooking(id: string, confirmed: bool, writeOk: bool) returns (removed: bool)
      modifies this
      ensures removed <==> confirmed && writeOk
      ensures removed ==> bookings == Filter(old(bookings), OtherThan(id))
      ensures removed ==> forall b :: b in bookings <==> b in old(bookings) && b.id != id
      ensures !removed ==> bookings == old(bookings)
      ensures form == old(form)
      ensures NoOverlap(old(bookings)) ==> NoOverlap(bookings)
    {
      removed := false;
      if confirmed && writeOk {
        if NoOverlap(bookings) {
          FilterKeepsNoOverlap(bookings, OtherThan(id));
        }
        bookings := Filter(bookings, OtherThan(id));
        removed := true;
      }
    }
  }

  /** The 10:00-11:00 review Ann saves first in the worked session below */
  function Review(): Booking
  {
    NewRecord("a", Form("Review", "Sales", "2024-01-01", "10:00", "11:00", Internal), Ann())
  }

  /** The signed-in user of the worked session */
  function Ann(): User
  {
    User("u1", Some("Ann"), None)
  }

  /** A worked session, first step: on an empty page a 10:00-11:00 review is saved and the title is cleared */
  method SessionSaveFirst()
  {
    var store := new BookingStore("2024-01-01");
    SessionTimes();
    store.EditForm(Form("Review", "Sales", "2024-01-01", "10:00", "11:00", Internal));
    var first := store.AddBooking(Some(Ann()), "a", true);
    assert first == Saved;
    assert store.form.title == "" && store.bookings == [Review()];
  }

  /** Second step: with the review stored, a 10:30-11:30 request on the same date is turned away */
  method SessionRejectOverlap()
  {
    var store := new BookingStore("2024-01-01");
    SessionTimes();
    store.ReceiveSnapshot([Review()]);
    store.EditForm(Form("Sync", "Ops", "2024-01-01", "10:30", "11:30", Client));
    assert Conflicts(store.bookings[0], "2024-01-01", "10:30", "11:30");
    var second := store.AddBooking(Some(Ann()), "b", true);
    assert second == Rejected(SlotReserved);
    assert store.bookings == [Review()];
  }

  /** Third step: an 11:00-12:00 request that only touches the review is saved after it */
  method SessionSaveTouching()
  {
    var store := new BookingStore("2024-01-01");
    SessionTimes();
    store.ReceiveSnapshot([Review()]);
    store.EditForm(Form("Plan", "Ops", "2024-01-01", "11:00", "12:00", Focus));
    TouchingIsNoConflict(Review(), "2024-01-01", "11:00", "12:00");
    assert !HasConflict(store.bookings, "2024-01-01", "11:00", "12:00");
    var third := store.AddBooking(Some(Ann()), "c", true);
    assert third == Saved;
    assert |store.bookings| == 2 && store.bookings[0] == Review();
  }

  /** The orderings of the times the worked session uses */
  lemma SessionTimes()
    ensures LexLess("10:00", "11:00")
    ensures LexLess("10:30", "11:30")
    ensures LexLess("10:30", "11:00")
    ensures LexLess("10:00", "11:30")
    ensures LexLess("11:00", "12:00")
  {
  }
}
