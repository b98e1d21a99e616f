/** The request handlers of the service as functions from the state before
  * a request to the response and the state after it. */
module Handlers {
  import opened Lookup
  import opened Entities

  /** `GET /events/:id`: the first event with that id, or EventNotFound. */
  function GetEvent(events: seq<Event>, id: string): (r: Result<Event>)
    ensures r.Err? <==> forall j :: 0 <= j < |events| ==> events[j].id != id
    ensures r.Err? ==> r.error == EventNotFound
    ensures r.Ok? ==> exists i :: 0 <= i < |events| && events[i] == r.value && r.value.id == id &&
                                  forall j :: 0 <= j < i ==> events[j].id != id
  {
    match Find(events, (e: Event) => e.id == id)
    case None => Err(EventNotFound)
    case Some(e) => Ok(e)
  }

  /** The response of a mutating handler and the tables after it. */
  datatype Outcome = Outcome(result: Result<Booking>, tables: Tables)

  /** `POST /bookings` with body fields `eventId`, `userId`, `tickets`; the
    * new id is built from the random number `suffix` and the booking is
    * stamped with the clock reading `createdAt`. */
  function CreateBooking(t: Tables, eventId: string, userId: string, tickets: int,
                         suffix: nat, createdAt: string): (o: Outcome)
    requires suffix < 10000
    // every failure leaves both tables as they were
    ensures o.result.Err? ==> o.tables == t
    // the checks, in the order the handler makes them; a field is missing when
    // it is falsy in JavaScript, so the empty string and the number 0 count
    ensures eventId == "" || userId == "" || tickets == 0 ==> o.result == Err(MissingFields)
    ensures eventId != "" && userId != "" && tickets != 0 &&
            (forall j :: 0 <= j < |t.events| ==> t.events[j].id != eventId) ==>
              o.result == Err(EventNotFound)
    ensures eventId != "" && userId != "" && tickets != 0 ==>
              var i := EventIndex(t.events, eventId);
              0 <= i && t.events[i].availableTickets < tickets ==> o.result == Err(NotEnoughTickets)
    // success: one confirmed booking appended, the first matching event debited
    ensures eventId != "" && userId != "" && tickets != 0 ==>
              var i := EventIndex(t.events, eventId);
              0 <= i && tickets <= t.events[i].availableTickets ==>
                && o.result == Ok(Booking(BookingId(suffix), eventId, userId, tickets, Confirmed, createdAt))
                && o.tables.bookings == t.bookings + [o.result.value]
                && Replaced(t.events, o.tables.events, i,
                            t.events[i].(availableTickets := t.events[i].availableTickets - tickets))
  {
    if eventId == "" || userId == "" || tickets == 0 then Outcome(Err(MissingFields), t)
    else
      var i := EventIndex(t.events, eventId);
      if i == -1 then Outcome(Err(EventNotFound), t)
      else
        var event := t.events[i];
        if event.availableTickets < tickets then Outcome(Err(NotEnoughTickets), t)
        else
          var booking := Booking(BookingId(suffix), eventId, userId, tickets, Confirmed, createdAt);
          var events := t.events[i := event.(availableTickets := event.availableTickets - tickets)];
          Outcome(Ok(booking), Tables(events, t.bookings + [booking]))
  }

  /** `DELETE /bookings/:id`: marks the first booking with that id cancelled
    * and gives its tickets back to its event, if that event exists. The
    * booking's current status is not looked at. */
  function CancelBooking(t: Tables, id: string): (o: Outcome)
    ensures o.result.Err? <==> forall j :: 0 <= j < |t.bookings| ==> t.bookings[j].id != id
    ensures o.result.Err? ==> o.result.error == BookingNotFound && o.tables == t
    ensures o.result.Ok? ==>
              var k := BookingIndex(t.bookings, id);
              0 <= k &&
              var booking := t.bookings[k];
              var e := EventIndex(t.events, booking.eventId);
              && o.result.value == booking.(status := Cancelled)
              && Replaced(t.bookings, o.tables.bookings, k, o.result.value)
              && (e == -1 ==> o.tables.events == t.events)
              && (e != -1 ==> Replaced(t.events, o.tables.events, e,
                                       t.events[e].(availableTickets := t.events[e].availableTickets + booking.tickets)))
  {
    var k := BookingIndex(t.bookings, id);
    if k == -1 then Outcome(Err(BookingNotFound), t)
    else
      var booking := t.bookings[k].(status := Cancelled);
      var bookings := t.bookings[k := booking];
      var e := EventIndex(t.events, booking.eventId);
      var events := if e == -1 then t.events
                    else t.events[e := t.events[e].(availableTickets := t.events[e].availableTickets + booking.tickets)];
      Outcome(Ok(booking), Tables(events, bookings))
  }
}
