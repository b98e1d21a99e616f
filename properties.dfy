/** What the handlers promise over several requests: the capacity invariant,
  * the create/cancel round trip, the repeated-cancel refund, the effect of
  * colliding random ids, a ticket ledger per event, and the seed scenarios. */
module Properties {
  import opened Lookup
  import opened Entities
  import opened Handlers

  // ----- the capacity invariant

  ghost predicate AvailabilityNonNegative(events: seq<Event>) {
    forall j :: 0 <= j < |events| ==> events[j].availableTickets >= 0
  }

  ghost predicate TicketsPositive(bookings: seq<Booking>) {
    forall j :: 0 <= j < |bookings| ==> bookings[j].tickets >= 1
  }

  /** No event is oversold, and every booking holds at least one ticket. */
  ghost predicate Sound(t: Tables) {
    AvailabilityNonNegative(t.events) && TicketsPositive(t.bookings)
  }

  /** The capacity check comes before the debit, so a create never takes an
    * event below zero, whatever number of tickets it is asked for. */
  lemma CreateKeepsAvailabilityNonNegative(t: Tables, eventId: string, userId: string, tickets: int,
                                           suffix: nat, createdAt: string)
    requires suffix < 10000
    requires AvailabilityNonNegative(t.events)
    ensures AvailabilityNonNegative(CreateBooking(t, eventId, userId, tickets, suffix, createdAt).tables.events)
  {
  }

  lemma CreatePreservesSound(t: Tables, eventId: string, userId: string, tickets: int,
                             suffix: nat, createdAt: string)
    requires suffix < 10000
    requires Sound(t) && tickets >= 0
    ensures Sound(CreateBooking(t, eventId, userId, tickets, suffix, createdAt).tables)
  {
    var o := CreateBooking(t, eventId, userId, tickets, suffix, createdAt);
    if o.result.Ok? {
      assert forall j :: 0 <= j < |o.tables.bookings| ==>
        o.tables.bookings[j] == if j < |t.bookings| then t.bookings[j] else o.result.value;
    }
  }

  lemma CancelPreservesSound(t: Tables, id: string)
    requires Sound(t)
    ensures Sound(CancelBooking(t, id).tables)
  {
  }

  /** A request for a negative number of tickets passes the presence check
    * and the capacity check; cancelling it later takes the tickets away
    * again, which can leave an event oversold. Here a sold-out event gets
    * 5 tickets back from a request for -5, those 5 are sold, and the first
    * booking is cancelled. */
  lemma NegativeTicketsBreakAvailability(s1: nat, s2: nat, now: string)
    requires s1 < 10000 && s2 < 10000
    ensures var t := Tables([Event("e", "Gig", "2024-01-01T20:00:00", "Hall", 0)], []);
            var a := CreateBooking(t, "e", "u", -5, s1, now);
            var b := CreateBooking(a.tables, "e", "u", 5, s2, now);
            var c := CancelBooking(b.tables, BookingId(s1));
            && Sound(t)
            && a.result.Ok? && b.result.Ok? && c.result.Ok?
            && c.tables.events[0].availableTickets == -5
            && !AvailabilityNonNegative(c.tables.events)
  {
    var t := Tables([Event("e", "Gig", "2024-01-01T20:00:00", "Hall", 0)], []);
    var a := CreateBooking(t, "e", "u", -5, s1, now);
    assert a.tables.events == [t.events[0].(availableTickets := 5)];
    var b := CreateBooking(a.tables, "e", "u", 5, s2, now);
    assert b.tables.events == [t.events[0]];
    assert b.tables.bookings == [a.result.value, b.result.value];
    assert BookingIndex(b.tables.bookings, BookingId(s1)) == 0;
  }

  // ----- create followed by cancel

  /** Cancelling a booking just created, under an id no earlier booking has,
    * puts the events table back exactly as it was and leaves the new
    * booking in the table, cancelled. */
  lemma CreateThenCancelRestoresEvents(t: Tables, eventId: string, userId: string, tickets: int,
                                       suffix: nat, createdAt: string)
    requires suffix < 10000
    requires CreateBooking(t, eventId, userId, tickets, suffix, createdAt).result.Ok?
    requires forall j :: 0 <= j < |t.bookings| ==> t.bookings[j].id != BookingId(suffix)
    ensures var c := CreateBooking(t, eventId, userId, tickets, suffix, createdAt);
            var d := CancelBooking(c.tables, BookingId(suffix));
            && d.result == Ok(c.result.value.(status := Cancelled))
            && d.tables.events == t.events
            && d.tables.bookings == t.bookings + [d.result.value]
  {
    var c := CreateBooking(t, eventId, userId, tickets, suffix, createdAt);
    var i := EventIndex(t.events, eventId);
    var d := CancelBooking(c.tables, BookingId(suffix));
    var n := |t.bookings|;
    assert c.tables.bookings[n].id == BookingId(suffix);
    assert forall j :: 0 <= j < n ==> c.tables.bookings[j] == t.bookings[j];
    assert BookingIndex(c.tables.bookings, BookingId(suffix)) == n;
    assert EventIndex(c.tables.events, eventId) == i;
    assert d.tables.events == t.events;
    assert d.tables.bookings == t.bookings + [d.result.value];
  }

  /** When the random id of a new booking repeats that of an earlier one,
    * cancelling by that id reaches the earlier booking, and the new one
    * stays confirmed. */
  lemma CancelAfterIdCollisionHitsOlderBooking(t: Tables, eventId: string, userId: string, tickets: int,
                                               suffix: nat, createdAt: string)
    requires suffix < 10000
    requires CreateBooking(t, eventId, userId, tickets, suffix, createdAt).result.Ok?
    requires exists j :: 0 <= j < |t.bookings| && t.bookings[j].id == BookingId(suffix)
    ensures var c := CreateBooking(t, eventId, userId, tickets, suffix, createdAt);
            var d := CancelBooking(c.tables, BookingId(suffix));
            var k := BookingIndex(t.bookings, BookingId(suffix));
            && 0 <= k < |t.bookings|
            && d.result == Ok(t.bookings[k].(status := Cancelled))
            && d.tables.bookings[|t.bookings|] == c.result.value
            && c.result.value.status == Confirmed
  {
    var c := CreateBooking(t, eventId, userId, tickets, suffix, createdAt);
    var k := BookingIndex(t.bookings, BookingId(suffix));
    assert forall j :: 0 <= j < |t.bookings| ==> c.tables.bookings[j] == t.bookings[j];
    assert BookingIndex(c.tables.bookings, BookingId(suffix)) == k;
  }

  /** Cancelling is not guarded by the booking's status: a second cancel of
    * the same booking succeeds and refunds its tickets a second time. */
  lemma CancellingTwiceRefundsTwice(t: Tables, id: string)
    requires 0 <= BookingIndex(t.bookings, id)
    requires 0 <= EventIndex(t.events, t.bookings[BookingIndex(t.bookings, id)].eventId)
    ensures var booking := t.bookings[BookingIndex(t.bookings, id)];
            var e := EventIndex(t.events, booking.eventId);
            var first := CancelBooking(t, id);
            var second := CancelBooking(first.tables, id);
            && first.result.Ok? && second.result.Ok?
            && second.result.value == first.result.value
            && second.tables.bookings == first.tables.bookings
            && second.tables.events[e].availableTickets == t.events[e].availableTickets + 2 * booking.tickets
  {
    var k := BookingIndex(t.bookings, id);
    var booking := t.bookings[k];
    var e := EventIndex(t.events, booking.eventId);
    var first := CancelBooking(t, id);
    assert BookingIndex(first.tables.bookings, id) == k;
    assert EventIndex(first.tables.events, booking.eventId) == e;
    var second := CancelBooking(first.tables, id);
    assert second.tables.bookings == first.tables.bookings;
  }

  // ----- a ledger of tickets per event

  /** The tickets booking `b` holds against event `eventId`. */
  function Holding(b: Booking, eventId: string): (n: int) {
    if b.status == Confirmed && b.eventId == eventId then b.tickets else 0
  }

  /** The tickets all confirmed bookings hold against `eventId`. */
  function Held(bookings: seq<Booking>, eventId: string): (n: int) {
    if |bookings| == 0 then 0
    else Held(bookings[..|bookings| - 1], eventId) + Holding(bookings[|bookings| - 1], eventId)
  }

  /** The remaining capacity of the event `find` picks for `eventId`. */
  function Available(events: seq<Event>, eventId: string): (n: int) {
    var i := EventIndex(events, eventId);
    if i == -1 then 0 else events[i].availableTickets
  }

  /** Capacity left plus tickets held: what create and cancel move between. */
  function Ledger(t: Tables, eventId: string): (n: int) {
    Available(t.events, eventId) + Held(t.bookings, eventId)
  }

  lemma HeldAppend(bookings: seq<Booking>, b: Booking, eventId: string)
    ensures Held(bookings + [b], eventId) == Held(bookings, eventId) + Holding(b, eventId)
  {
    assert (bookings + [b])[..|bookings|] == bookings;
  }

  lemma {:induction false} HeldAfterReplace(bookings: seq<Booking>, k: nat, v: Booking, eventId: string)
    requires k < |bookings|
    ensures Held(bookings[k := v], eventId)
            == Held(bookings, eventId) - Holding(bookings[k], eventId) + Holding(v, eventId)
  {
    var n := |bookings|;
    var updated := bookings[k := v];
    if k == n - 1 {
      assert updated[..n - 1] == bookings[..n - 1];
    } else {
      assert updated[..n - 1] == bookings[..n - 1][k := v];
      HeldAfterReplace(bookings[..n - 1], k, v, eventId);
    }
  }

  /** Changing a row other than an event id leaves every lookup by id where
    * it was. */
  lemma EventIndexAfterReplace(events: seq<Event>, i: nat, v: Event, eventId: string)
    requires i < |events| && v.id == events[i].id
    ensures EventIndex(events[i := v], eventId) == EventIndex(events, eventId)
  {
    FindIndexSameVerdicts(events[i := v], (e: Event) => e.id == eventId,
                          events, (e: Event) => e.id == eventId);
  }

  /** A create moves tickets from an event's capacity to the new booking:
    * the ledger of every event id is unchanged. */
  lemma CreateKeepsLedger(t: Tables, eventId: string, userId: string, tickets: int,
                          suffix: nat, createdAt: string, x: string)
    requires suffix < 10000
    ensures Ledger(CreateBooking(t, eventId, userId, tickets, suffix, createdAt).tables, x) == Ledger(t, x)
  {
    var o := CreateBooking(t, eventId, userId, tickets, suffix, createdAt);
    if o.result.Ok? {
      var i := EventIndex(t.events, eventId);
      assert o.tables.events == t.events[i := o.tables.events[i]];
      EventIndexAfterReplace(t.events, i, o.tables.events[i], x);
      HeldAppend(t.bookings, o.result.value, x);
    }
  }

  /** Cancelling a confirmed booking moves its tickets back to its event:
    * the ledger of every existing event is unchanged. */
  lemma CancelConfirmedKeepsLedger(t: Tables, id: string, x: string)
    requires 0 <= BookingIndex(t.bookings, id)
    requires t.bookings[BookingIndex(t.bookings, id)].status == Confirmed
    requires EventIndex(t.events, x) != -1
    ensures Ledger(CancelBooking(t, id).tables, x) == Ledger(t, x)
  {
    CancelLedger(t, id, x);
  }

  /** Cancelling a booking that is already cancelled refunds tickets no
    * booking holds: its event's ledger grows by the booking's tickets. */
  lemma RecancelGrowsLedger(t: Tables, id: string)
    requires 0 <= BookingIndex(t.bookings, id)
    requires t.bookings[BookingIndex(t.bookings, id)].status == Cancelled
    requires EventIndex(t.events, t.bookings[BookingIndex(t.bookings, id)].eventId) != -1
    ensures var booking := t.bookings[BookingIndex(t.bookings, id)];
            Ledger(CancelBooking(t, id).tables, booking.eventId) == Ledger(t, booking.eventId) + booking.tickets
  {
    CancelLedger(t, id, t.bookings[BookingIndex(t.bookings, id)].eventId);
  }

  /** The ledger change of a successful cancel, for any event id that names
    * an event. */
  lemma CancelLedger(t: Tables, id: string, x: string)
    requires 0 <= BookingIndex(t.bookings, id)
    requires EventIndex(t.events, x) != -1
    ensures var booking := t.bookings[BookingIndex(t.bookings, id)];
            Ledger(CancelBooking(t, id).tables, x)
            == Ledger(t, x) - Holding(booking, x) + (if booking.eventId == x then booking.tickets else 0)
  {
    var k := BookingIndex(t.bookings, id);
    var booking := t.bookings[k];
    var o := CancelBooking(t, id);
    assert o.tables.bookings == t.bookings[k := o.result.value];
    HeldAfterReplace(t.bookings, k, o.result.value, x);
    var e := EventIndex(t.events, booking.eventId);
    if e != -1 {
      assert o.tables.events == t.events[e := o.tables.events[e]];
      EventIndexAfterReplace(t.events, e, o.tables.events[e], x);
    }
  }

  // ----- scenarios on the seed data

  /** Event "1" starts with 100 tickets; booking 10 leaves 90, cancelling
    * that booking brings it back to 100. */
  lemma SeedBookAndCancel(suffix: nat, now: string)
    requires suffix < 10000
    ensures var c := CreateBooking(Seed, "1", "u1", 10, suffix, now);
            var d := CancelBooking(c.tables, BookingId(suffix));
            && SeedEvents[0].availableTickets == 100
            && c.result.Ok? && c.tables.events[0].availableTickets == 90
            && d.result.Ok? && d.tables.events[0].availableTickets == 100
  {
    CreateThenCancelRestoresEvents(Seed, "1", "u1", 10, suffix, now);
  }

  /** A request for 0 tickets is answered like one without the field. */
  lemma SeedZeroTicketsIsMissingField(suffix: nat, now: string)
    requires suffix < 10000
    ensures CreateBooking(Seed, "1", "u1", 0, suffix, now) == Outcome(Err(MissingFields), Seed)
    ensures MissingFields.Code() == 400
  {
  }

  lemma SeedUnknownEvent()
    ensures GetEvent(SeedEvents, "999") == Err(EventNotFound)
    ensures EventNotFound.Code() == 404 && EventNotFound.Message() == "Event not found"
  {
  }
}
