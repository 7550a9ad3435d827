/**
 * The booking record and the conflict rule applied before a booking is
 * created: two bookings on the same date clash when their half-open
 * `[startTime, endTime)` intervals overlap, the times being compared as
 * strings exactly as the application compares them.
 */
module Bookings {
  import opened Text
  import opened Options
  import opened TimeOfDay

  /** The closed set of meeting kinds; only the colour of the card depends on it */
  datatype BookingType = Internal | Client | Focus | Social

  /** One stored booking, with `date` as `YYYY-MM-DD` and the times as `HH:mm` */
  datatype Booking = Booking(
    id: string,
    title: string,
    organizer: string,
    date: string,
    startTime: string,
    endTime: string,
    kind: BookingType,
    bookedBy: string,
    userId: string)

  /** The signed-in user as far as the booking logic looks at it; `None` is `null` */
  datatype User = User(uid: string, displayName: Option<string>, email: Option<string>)

  /** JavaScript truthiness of a nullable string: present and not empty */
  predicate Truthy(s: Option<string>)
  {
    s.Some? && s.value != ""
  }

  /**
   * `user.displayName || user.email || "Unknown"`: the first truthy name,
   * so the recorded name is never empty.
   */
  function BookedBy(u: User): (name: string)
    ensures name != ""
    ensures Some(name) == u.displayName || Some(name) == u.email || name == "Unknown"
    ensures Truthy(u.displayName) ==> name == u.displayName.value
    ensures !Truthy(u.displayName) && Truthy(u.email) ==> name == u.email.value
    ensures !Truthy(u.displayName) && !Truthy(u.email) ==> name == "Unknown"
  {
    if Truthy(u.displayName) then u.displayName.value
    else if Truthy(u.email) then u.email.value
    else "Unknown"
  }

  /**
   * The test inside `bookings.some`: `b.date === date && start < b.endTime && end > b.startTime`.
   * On well-formed times it is the overlap of the half-open minute intervals
   * `[start, end)` and `[b.startTime, b.endTime)` on the same date.
   */
  function Conflicts(b: Booking, date: string, start: string, end: string): (c: bool)
    ensures WellFormedTimes(b) && WellFormedTime(start) && WellFormedTime(end) ==>
      (c <==>
        && b.date == date
        && MinuteOfDay(start) < MinuteOfDay(b.endTime)
        && MinuteOfDay(b.startTime) < MinuteOfDay(end))
  {
    var c := b.date == date && LexLess(start, b.endTime) && LexLess(b.startTime, end);
    if WellFormedTimes(b) && WellFormedTime(start) && WellFormedTime(end) then
      TimeOrder(start, b.endTime);
      TimeOrder(b.startTime, end);
      c
    else
      c
  }

  /** `bookings.some(b => Conflicts(b, date, start, end))`, scanning from the front */
  function HasConflict(bookings: seq<Booking>, date: string, start: string, end: string): (r: bool)
    ensures r <==> exists i :: 0 <= i < |bookings| && Conflicts(bookings[i], date, start, end)
  {
    if |bookings| == 0 then false
    else Conflicts(bookings[0], date, start, end) || HasConflict(bookings[1..], date, start, end)
  }

  /** Two bookings on the same date whose intervals overlap */
  predicate Clash(a: Booking, b: Booking)
  {
    Conflicts(a, b.date, b.startTime, b.endTime)
  }

  /** Same-date bookings at different positions never overlap */
  predicate NoOverlap(bookings: seq<Booking>)
  {
    forall i, j :: 0 <= i < |bookings| && 0 <= j < |bookings| && i != j ==> !Clash(bookings[i], bookings[j])
  }

  /** The interval a booking was accepted with: `endTime > startTime` */
  predicate ValidInterval(b: Booking)
  {
    LexLess(b.startTime, b.endTime)
  }

  /** A booking whose times are both well-formed `HH:mm` labels */
  predicate WellFormedTimes(b: Booking)
  {
    WellFormedTime(b.startTime) && WellFormedTime(b.endTime)
  }

  /** Every booking of the collection has well-formed times */
  predicate AllWellFormed(bookings: seq<Booking>)
  {
    forall b :: b in bookings ==> WellFormedTimes(b)
  }

  /** `bookings.filter(keep)`: the bookings that satisfy `keep`, in their order */
  function Filter(bookings: seq<Booking>, keep: Booking -> bool): (r: seq<Booking>)
    ensures |r| <= |bookings|
    ensures forall b :: b in r <==> b in bookings && keep(b)
  {
    if |bookings| == 0 then []
    else (if keep(bookings[0]) then [bookings[0]] else []) + Filter(bookings[1..], keep)
  }

  /**
   * `filter` distributes over concatenation; with the one-element case
   * (`FilterSingleton`) this pins the result down completely: the kept
   * bookings, each as often as in the input, in the input's order.
   */
  lemma {:induction false} FilterAppend(a: seq<Booking>, b: seq<Booking>, keep: Booking -> bool)
    ensures Filter(a + b, keep) == Filter(a, keep) + Filter(b, keep)
    decreases |a|
  {
    if |a| == 0 {
      assert a + b == b;
    } else {
      assert (a + b)[0] == a[0] && (a + b)[1..] == a[1..] + b;
      FilterAppend(a[1..], b, keep);
    }
  }

  /** A single booking is kept exactly when it passes the test */
  lemma FilterSingleton(x: Booking, keep: Booking -> bool)
    ensures Filter([x], keep) == if keep(x) then [x] else []
  {
    assert [x][1..] == [];
  }

  /** Clashing is symmetric: the rule does not depend on which booking came first */
  lemma ClashSymmetric(a: Booking, b: Booking)
    ensures Clash(a, b) <==> Clash(b, a)
  {
  }

  /**
   * Touching intervals are allowed: a candidate that starts when `b` ends,
   * or ends when `b` starts, does not conflict with `b`.
   */
  lemma TouchingIsNoConflict(b: Booking, date: string, start: string, end: string)
    requires start == b.endTime || end == b.startTime
    ensures !Conflicts(b, date, start, end)
  {
  }

  /**
   * The creation check keeps the collection free of overlaps: appending a
   * candidate for which `HasConflict` is false to an overlap-free sequence
   * gives an overlap-free sequence.
   */
  lemma AppendKeepsNoOverlap(bookings: seq<Booking>, c: Booking)
    requires NoOverlap(bookings)
    requires !HasConflict(bookings, c.date, c.startTime, c.endTime)
    ensures NoOverlap(bookings + [c])
  {
    var all := bookings + [c];
    forall i, j | 0 <= i < |all| && 0 <= j < |all| && i != j
      ensures !Clash(all[i], all[j])
    {
      if i == |bookings| {
        assert !Conflicts(all[j], c.date, c.startTime, c.endTime);
        ClashSymmetric(all[i], all[j]);
      } else if j == |bookings| {
        assert !Conflicts(all[i], c.date, c.startTime, c.endTime);
      } else {
        assert all[i] == bookings[i] && all[j] == bookings[j];
      }
    }
  }

  /** An overlap-free sequence with one more booking in front: the rest is overlap-free and the front clashes with none of it */
  lemma NoOverlapCons(x: Booking, rest: seq<Booking>)
    ensures NoOverlap([x] + rest) <==> NoOverlap(rest) && forall y :: y in rest ==> !Clash(x, y)
  {
    var all := [x] + rest;
    if NoOverlap(all) {
      forall i, j | 0 <= i < |rest| && 0 <= j < |rest| && i != j
        ensures !Clash(rest[i], rest[j])
      {
        assert rest[i] == all[i + 1] && rest[j] == all[j + 1];
      }
      forall y | y in rest
        ensures !Clash(x, y)
      {
        var k :| 0 <= k < |rest| && rest[k] == y;
        assert all[0] == x && all[k + 1] == y;
      }
    }
    if NoOverlap(rest) && forall y :: y in rest ==> !Clash(x, y) {
      forall i, j | 0 <= i < |all| && 0 <= j < |all| && i != j
        ensures !Clash(all[i], all[j])
      {
        if i == 0 {
          assert all[j] in rest;
        } else if j == 0 {
          assert all[i] in rest;
          ClashSymmetric(all[i], x);
        } else {
          assert all[i] == rest[i - 1] && all[j] == rest[j - 1];
        }
      }
    }
  }

  /** Removing bookings cannot create an overlap: a filtered overlap-free sequence is overlap-free */
  lemma {:induction false} FilterKeepsNoOverlap(bookings: seq<Booking>, keep: Booking -> bool)
    requires NoOverlap(bookings)
    ensures NoOverlap(Filter(bookings, keep))
    decreases |bookings|
  {
    if |bookings| > 0 {
      var x, rest := bookings[0], bookings[1..];
      assert bookings == [x] + rest;
      NoOverlapCons(x, rest);
      FilterKeepsNoOverlap(rest, keep);
      var tail := Filter(rest, keep);
      if keep(x) {
        forall y | y in tail ensures !Clash(x, y) {
          assert y in rest;
        }
        NoOverlapCons(x, tail);
      } else {
        assert Filter(bookings, keep) == tail;
      }
    }
  }

  /**
   * In an overlap-free collection of well-formed bookings, two same-date
   * bookings occupy disjoint minute ranges: one ends before the other starts.
   */
  lemma NoOverlapInMinutes(bookings: seq<Booking>, i: nat, j: nat)
    requires NoOverlap(bookings)
    requires i < |bookings| && j < |bookings| && i != j
    requires WellFormedTimes(bookings[i]) && WellFormedTimes(bookings[j])
    requires bookings[i].date == bookings[j].date
    ensures MinuteOfDay(bookings[i].endTime) <= MinuteOfDay(bookings[j].startTime)
         || MinuteOfDay(bookings[j].endTime) <= MinuteOfDay(bookings[i].startTime)
  {
    var a, b := bookings[i], bookings[j];
    assert !Clash(a, b);
  }

  /** Worked scenarios against one booking from 10:00 to 11:00: overlap, touching on either side, another day, no bookings */
  lemma ConflictExamples()
    ensures var a := Booking("a", "Review", "Sales", "2024-01-01", "10:00", "11:00", Internal, "Ann", "u1");
      && HasConflict([a], "2024-01-01", "10:30", "11:30")
      && !HasConflict([a], "2024-01-01", "11:00", "12:00")
      && !HasConflict([a], "2024-01-01", "09:00", "10:00")
      && !HasConflict([a], "2024-01-02", "10:00", "11:00")
      && !HasConflict([], "2024-01-01", "10:00", "11:00")
  {
    var a := Booking("a", "Review", "Sales", "2024-01-01", "10:00", "11:00", Internal, "Ann", "u1");
    assert LexLess("10:30", "11:00") && LexLess("10:00", "11:30");
    TouchingIsNoConflict(a, "2024-01-01", "11:00", "12:00");
    TouchingIsNoConflict(a, "2024-01-01", "09:00", "10:00");
  }
}
