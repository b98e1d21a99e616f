# Booking store of the ticket service, in Dafny

The service keeps two in-memory tables. The `events` table holds each event's
`availableTickets` counter. The `bookings` table holds bookings, each
`confirmed` or `cancelled`. Five HTTP handlers act on the tables: list events,
get one event by id, list bookings, create a booking and cancel a booking.
This project models the tables and the handlers and proves what each handler
does to them.

- `find.dfy` (module `Lookup`): JavaScript's `find` and `findIndex` as the
  first element, or first index, that satisfies a pure callback.
- `entities.dfy` (module `Entities`):
  - the `Event` and `Booking` rows;
  - the four error responses, with their HTTP codes and messages;
  - lookup by id in each table;
  - the id `b<n>` a new booking gets from the random number `n`;
  - the seed data.
- `handlers.dfy` (module `Handlers`): the handlers `GetEvent`, `CreateBooking`
  and `CancelBooking` as functions. Each takes the tables before the request
  and gives the response plus the tables after it. Their contracts state:
  - each error case, in the order the handler checks them;
  - that a failure changes nothing;
  - exactly which row a success changes and how.
- `properties.dfy` (module `Properties`): properties that span several
  requests. These are the capacity invariant, the create-then-cancel round
  trip, the second refund when a booking is cancelled twice, what a repeated
  random id does, a per-event ticket ledger, and the seed scenarios.
- `store.dfy` (module `Store`): the class `BookingStore`, with the two tables
  as fields that its methods update in place. `CreateBooking` appends, then
  debits the event. `CancelBooking` flips the status, then credits the event.
  Each method is proved to produce the same response and tables as its
  handler function.

Choices the model makes:

- A booking's tickets are an `int`, as in the code. A negative count passes
  the presence check. It passes the capacity check whenever the event's
  counter is at least the count, which is always the case while the counter
  is non-negative.
- The random number behind a booking id and the clock reading behind
  `createdAt` are parameters. The random number is any integer from 0 to 9999,
  the range of `Math.floor(Math.random() * 10000)`.
- Ids are not claimed to be unique. `CancelAfterIdCollisionHitsOlderBooking`
  shows what happens when one repeats.
- An absent field in the request body is written as `""` (for the two ids) or
  `0` (for `tickets`). In JavaScript both are falsy, so both take the same
  branch as `undefined`.
- Three behaviours of the code are easy to miss; the model keeps all three:
  - `availableTickets >= 0` is kept by every request as long as no booking
    holds a negative ticket count (`CreatePreservesSound`,
    `CancelPreservesSound`). A create for a negative count is accepted and
    raises the event's counter. Cancelling that booking later lowers the
    counter again, and that can take an event below 0
    (`NegativeTicketsBreakAvailability`).
  - Booking ids can repeat.
  - Cancelling an already-cancelled booking refunds its tickets again
    (`CancellingTwiceRefundsTwice`, `RecancelGrowsLedger`).
- The second "Booking not found" guard (index.ts:136-138) can never fire:
  `findIndex` returns either -1 or a valid index. The model has no branch for
  it.

## Model

| member | source | states |
|---|---|---|
| `Lookup.FindIndex` | index.ts:129 | result is -1 exactly when no element satisfies the callback; otherwise it satisfies it and no earlier element does |
| `Lookup.Find` | index.ts:81 | result is absent exactly when no element matches; otherwise it is a matching element with no match before it |
| `Entities.EventIndex` | index.ts:102 | `events.find` by id: the first event with that id, or -1 when no event has it |
| `Entities.BookingIndex` | index.ts:129-133 | `bookings.findIndex` by id: the first booking with that id, or -1 when there is none |
| `Entities.Decimal` | index.ts:113 | the template literal's rendering of the integer: at least one digit, all decimal digits, and a leading zero only in the one-digit rendering of 0 |
| `Entities.Error.Code` | index.ts:83-132 | each error's HTTP status: 404 exactly for the two not-found errors, 400 otherwise |
| `Entities.Error.Message` | index.ts:83-132 | each error's `error` text; it ends in " not found" exactly when the status is 404 |
| `Entities.DecimalValueOfDecimal` | index.ts:113 | the rendered digits read back as the same integer |
| `Entities.BookingId` | index.ts:113 | the new id is `b` followed by digits, with no leading zero unless the number is 0, that read back as the random number; so the id is exactly `b` and the number in decimal |
| `Entities.BookingIdInjective` | index.ts:113 | two new ids are equal exactly when their random numbers are equal |
| `Handlers.GetEvent` | index.ts:79-86 | EventNotFound exactly when no event has the id; otherwise the first event with that id |
| `Handlers.CreateBooking` | index.ts:93-125 | MissingFields when a field is falsy (empty id, 0 tickets); EventNotFound when no event has the id; NotEnoughTickets when the first event with the id has fewer tickets than asked; tables unchanged on every error; on success one confirmed booking with the given fields, id and timestamp appended, and only that event's availableTickets lowered by exactly `tickets` |
| `Handlers.CancelBooking` | index.ts:127-149 | BookingNotFound and nothing changed exactly when no booking has the id; otherwise only the first such booking becomes cancelled, is returned, and the table keeps its length; the first event with its eventId gains its tickets, and events are untouched when there is none |
| `Properties.CreateKeepsAvailabilityNonNegative` | index.ts:107-122 | a create never takes an event's availableTickets below 0, for any requested count |
| `Properties.CreatePreservesSound` | index.ts:98-122 | with a non-negative request, create keeps every event at or above 0 and every booking at 1 ticket or more |
| `Properties.CancelPreservesSound` | index.ts:135-146 | cancel keeps that same invariant |
| `Properties.NegativeTicketsBreakAvailability` | index.ts:98-146 | a request for -5 tickets passes validation; after it, a sale and a cancel leave an event at -5, for any two random ids, equal or not |
| `Properties.CreateThenCancelRestoresEvents` | index.ts:112-146 | cancelling a just-created booking under a fresh id restores the events table exactly and leaves the booking listed as cancelled |
| `Properties.CancelAfterIdCollisionHitsOlderBooking` | index.ts:113-129 | when the new id repeats an older one, cancel reaches the older booking and the new one stays confirmed |
| `Properties.CancellingTwiceRefundsTwice` | index.ts:127-149 | a second cancel succeeds, leaves bookings as the first cancel did, and the event gains the tickets twice |
| `Properties.CreateKeepsLedger` | index.ts:112-122 | for every event id, available tickets plus tickets held by confirmed bookings is unchanged by a create |
| `Properties.CancelLedger` | index.ts:140-146 | exact change of that ledger under a successful cancel, for every existing event |
| `Properties.CancelConfirmedKeepsLedger` | index.ts:140-146 | cancelling a confirmed booking leaves every existing event's ledger unchanged |
| `Properties.RecancelGrowsLedger` | index.ts:140-146 | cancelling an already-cancelled booking raises its event's ledger by the booking's tickets |
| `Properties.SeedBookAndCancel` | index.ts:22-146 | seed event "1" goes 100, then 90 after booking 10, then 100 after the cancel |
| `Properties.SeedZeroTicketsIsMissingField` | index.ts:98-100 | a request for 0 tickets gets MissingFields (400) and nothing changes |
| `Properties.SeedUnknownEvent` | index.ts:79-86 | looking up event "999" on the seed gives EventNotFound (404, "Event not found") |
| `Store.BookingStore.constructor` | index.ts:22-63 | the store starts with the seed tables, which satisfy the invariant |
| `Store.BookingStore.ListEvents` | index.ts:75-77 | returns the whole events table in order |
| `Store.BookingStore.GetEvent` | index.ts:79-86 | returns what `Handlers.GetEvent` gives on the current events table; an error exactly when no event has the id |
| `Store.BookingStore.ListBookings` | index.ts:89-91 | returns the whole bookings table, cancelled bookings included |
| `Store.BookingStore.CreateBooking` | index.ts:93-125 | in-place create: the response and new tables are `Handlers.CreateBooking` of the old tables; an error changes nothing; no event drops below 0; with a non-negative request the whole invariant is kept |
| `Store.BookingStore.CancelBooking` | index.ts:127-149 | in-place cancel: the response and new tables are `Handlers.CancelBooking` of the old tables; table lengths kept; the invariant is preserved |
| `Store.BookAndCancelOnSeed` | index.ts:22-149 | on a fresh store, event "1" has 90 tickets after booking 10, 100 after the cancel, and 110 after cancelling the same booking again |

## Left out

- The Hono application, routing, and building JSON responses (index.ts:1, 66, 75-149). A response is the `Result` value. The HTTP code and message of an error are `Error.Code()` and `Error.Message()`.
- The logging middleware and the `console.log` calls (index.ts:69-72, 153): these are I/O.
- Ticket counts are JavaScript numbers, which are IEEE doubles. The model's counts are unbounded integers, so they agree with the code only while every value stays within ±2^53. Rounding beyond that is not modelled. Nor are `Infinity` and `-Infinity`, which a JSON literal such as `1e400` parses to.
- Reading the request body with `await c.req.json()` (index.ts:94). The three fields are plain parameters. JavaScript coercion of other JSON types is not modelled: non-string ids, fractional or `NaN` ticket counts (`NaN` is falsy).
- `Math.random` and `new Date().toISOString()` (index.ts:113, 118) are nondeterministic. They are parameters: the random number is a parameter, and so is the timestamp string.
- Server start-up, the port and the export (index.ts:152-157).
- Concurrency: handlers run one at a time, to completion.
- Object identity of rows. The code mutates the event and booking objects that the lookups return. The model replaces the row at that index. No other reference to a row exists.
