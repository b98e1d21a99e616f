/** The service's in-memory store: the two tables as fields that the
  * booking handlers update in place, and the read handlers over them. */
module Store {
  import opened Entities
  import opened Handlers
  import opened Properties

  class BookingStore {
    var events: seq<Event>
    var bookings: seq<Booking>

    /** Both tables, as one value. */
    function State(): (t: Tables)
      reads this
    {
      Tables(events, bookings)
    }

    /** The store holds the seed data when the service starts. */
    constructor ()
      ensures events == SeedEvents && bookings == SeedBookings
      ensures Sound(State())
    {
      events := SeedEvents;
      bookings := SeedBookings;
    }

    /** `GET /events`: every event, in table order. */
    method ListEvents() returns (r: seq<Event>)
      ensures r == events
    {
      r := events;
    }

    /** `GET /events/:id`. */
    method GetEvent(id: string) returns (r: Result<Event>)
      ensures r == Handlers.GetEvent(events, id)
      ensures r.Err? <==> forall j :: 0 <= j < |events| ==> events[j].id != id
    {
      var i := EventIndex(events, id);
      if i == -1 {
        r := Err(EventNotFound);
      } else {
        r := Ok(events[i]);
      }
    }

    /** `GET /bookings`: every booking, cancelled ones included, in the
      * order they were made. */
    method ListBookings() returns (r: seq<Booking>)
      ensures r == bookings
    {
      r := bookings;
    }

    /** `POST /bookings`: appends the new booking, then debits its event. */
    method CreateBooking(eventId: string, userId: string, tickets: int, suffix: nat, createdAt: string)
      returns (r: Result<Booking>)
      requires suffix < 10000
      modifies this
      ensures Outcome(r, State()) == Handlers.CreateBooking(old(State()), eventId, userId, tickets, suffix, createdAt)
      ensures r.Err? ==> unchanged(this)
      ensures old(AvailabilityNonNegative(events)) ==> AvailabilityNonNegative(events)
      ensures old(Sound(State())) && tickets >= 0 ==> Sound(State())
    {
      if eventId == "" || userId == "" || tickets == 0 {
        return Err(MissingFields);
      }
      var i := EventIndex(events, eventId);
      if i == -1 {
        return Err(EventNotFound);
      }
      if events[i].availableTickets < tickets {
        return Err(NotEnoughTickets);
      }
      var booking := Booking(BookingId(suffix), eventId, userId, tickets, Confirmed, createdAt);
      bookings := bookings + [booking];
      events := events[i := events[i].(availableTickets := events[i].availableTickets - tickets)];
      r := Ok(booking);
    }

    /** `DELETE /bookings/:id`: marks the booking cancelled, then credits its
      * event if there is one. */
    method CancelBooking(id: string) returns (r: Result<Booking>)
      modifies this
      ensures Outcome(r, State()) == Handlers.CancelBooking(old(State()), id)
      ensures r.Err? ==> unchanged(this)
      ensures |bookings| == old(|bookings|) && |events| == old(|events|)
      ensures old(Sound(State())) ==> Sound(State())
    {
      var k := BookingIndex(bookings, id);
      if k == -1 {
        return Err(BookingNotFound);
      }
      var booking := bookings[k].(status := Cancelled);
      bookings := bookings[k := booking];
      var e := EventIndex(events, booking.eventId);
      if e != -1 {
        events := events[e := events[e].(availableTickets := events[e].availableTickets + booking.tickets)];
      }
      r := Ok(booking);
    }
  }

  /** The scenario of one client against a fresh store: book ten tickets
    * of event "1", cancel that booking, then cancel it once more. The
    * results are event "1"'s available tickets after each step. */
  method BookAndCancelOnSeed(suffix: nat, now: string)
    returns (afterCreate: int, afterCancel: int, afterRecancel: int)
    requires suffix < 10000
    ensures afterCreate == 90 && afterCancel == 100 && afterRecancel == 110
  {
    var store := new BookingStore();
    var created := store.CreateBooking("1", "u1", 10, suffix, now);
    SeedBookAndCancel(suffix, now);
    ghost var createdState := store.State();
    assert created.Ok?;
    afterCreate := store.events[0].availableTickets;
    var cancelled := store.CancelBooking(created.value.id);
    afterCancel := store.events[0].availableTickets;
    CancellingTwiceRefundsTwice(createdState, created.value.id);
    var again := store.CancelBooking(created.value.id);
    assert again.Ok?;
    afterRecancel := store.events[0].availableTickets;
  }
}
