/** The two tables of the booking service, their rows, the error outcomes of
  * the handlers, the identifiers a new booking receives, and the seed data
  * the service starts with. */
module Entities {
  import opened Lookup

  /** A row of the events table. Events are seeded and never added or
    * removed; only `availableTickets` ever changes. */
  datatype Event = Event(id: string, name: string, date: string, location: string,
                         availableTickets: int)

  datatype Status = Confirmed | Cancelled

  /** A row of the bookings table. Bookings are appended and never removed;
    * only `status` ever changes. */
  datatype Booking = Booking(id: string, eventId: string, userId: string, tickets: int,
                             status: Status, createdAt: string)

  /** The error responses of the handlers. */
  datatype Error = MissingFields | EventNotFound | NotEnoughTickets | BookingNotFound
  {
    /** The HTTP status code sent with the error. */
    function Code(): (r: int)
      ensures r == 400 || r == 404
      ensures r == 404 <==> (EventNotFound? || BookingNotFound?)
    {
      match this
      case MissingFields => 400
      case EventNotFound => 404
      case NotEnoughTickets => 400
      case BookingNotFound => 404
    }

    /** The `error` text of the JSON payload. */
    function Message(): (r: string)
      ensures 10 <= |r|
      ensures Code() == 404 <==> r[|r| - 10..] == " not found"
    {
      match this
      case MissingFields => "Missing required fields"
      case EventNotFound => "Event not found"
      case NotEnoughTickets => "Not enough tickets available"
      case BookingNotFound => "Booking not found"
    }
  }

  datatype Result<T> = Ok(value: T) | Err(error: Error)

  /** The whole state of the service: both tables, in insertion order. */
  datatype Tables = Tables(events: seq<Event>, bookings: seq<Booking>)

  /** `events.find((e) => e.id === id)`, as the position of the event found;
    * -1 when there is none. */
  function EventIndex(events: seq<Event>, id: string): (r: int)
    ensures -1 <= r < |events|
    ensures r == -1 <==> forall j :: 0 <= j < |events| ==> events[j].id != id
    ensures r != -1 ==> events[r].id == id && forall j :: 0 <= j < r ==> events[j].id != id
  {
    FindIndex(events, (e: Event) => e.id == id)
  }

  /** `bookings.findIndex((b) => b.id === id)`. */
  function BookingIndex(bookings: seq<Booking>, id: string): (r: int)
    ensures -1 <= r < |bookings|
    ensures r == -1 <==> forall j :: 0 <= j < |bookings| ==> bookings[j].id != id
    ensures r != -1 ==> bookings[r].id == id && forall j :: 0 <= j < r ==> bookings[j].id != id
  {
    FindIndex(bookings, (b: Booking) => b.id == id)
  }

  /** `after` is `before` with row `k` replaced by `v` and every other row kept. */
  ghost predicate Replaced<T>(before: seq<T>, after: seq<T>, k: int, v: T) {
    && 0 <= k < |before|
    && |after| == |before|
    && after[k] == v
    && forall j :: 0 <= j < |before| && j != k ==> after[j] == before[j]
  }

  // ----- identifiers of new bookings

  predicate IsDigit(c: char) {
    '0' <= c <= '9'
  }

  function DigitValue(c: char): (d: nat)
    requires IsDigit(c)
    ensures d < 10
  {
    c as int - '0' as int
  }

  function DigitChar(d: nat): (c: char)
    requires d < 10
    ensures IsDigit(c) && DigitValue(c) == d
  {
    ('0' as int + d) as char
  }

  /** How a template literal prints a non-negative integer: its decimal
    * digits, most significant first, without leading zeros. */
  function Decimal(n: nat): (s: string)
    ensures 1 <= |s|
    ensures forall i :: 0 <= i < |s| ==> IsDigit(s[i])
    ensures |s| == 1 || s[0] != '0'
  {
    if n < 10 then [DigitChar(n)] else Decimal(n / 10) + [DigitChar(n % 10)]
  }

  /** The value of a string of decimal digits (the inverse of Decimal). */
  function DecimalValue(s: string): (n: nat)
    requires forall i :: 0 <= i < |s| ==> IsDigit(s[i])
  {
    if |s| == 0 then 0
    else 10 * DecimalValue(s[..|s| - 1]) + DigitValue(s[|s| - 1])
  }

  lemma {:induction false} DecimalValueOfDecimal(n: nat)
    ensures DecimalValue(Decimal(n)) == n
  {
    if 10 <= n {
      var s := Decimal(n);
      assert s[..|s| - 1] == Decimal(n / 10);
      DecimalValueOfDecimal(n / 10);
    }
  }

  /** The id of a new booking, `b${Math.floor(Math.random() * 10000)}`, for
    * the random number `suffix` the expression produced. The id can be
    * read back into the suffix, so two ids are equal exactly when the two
    * random numbers were. */
  function BookingId(suffix: nat): (id: string)
    ensures 2 <= |id| && id[0] == 'b'
    ensures forall i :: 1 <= i < |id| ==> IsDigit(id[i])
    ensures |id| == 2 || id[1] != '0'
    ensures DecimalValue(id[1..]) == suffix
  {
    DecimalValueOfDecimal(suffix);
    assert ("b" + Decimal(suffix))[1..] == Decimal(suffix);
    "b" + Decimal(suffix)
  }

  lemma BookingIdInjective(a: nat, b: nat)
    ensures BookingId(a) == BookingId(b) <==> a == b
  {
  }

  // ----- the data the service starts with

  const SeedEvents: seq<Event> := [
    Event("1", "Концерт рок-группы", "2023-12-15T19:00:00", "Главный концертный зал", 100),
    Event("2", "Театральная премьера", "2023-12-20T18:30:00", "Городской театр", 50),
    Event("3", "Кинофестиваль", "2024-01-10T10:00:00", "Кинотеатр \"Премьер\"", 200)
  ]

  const SeedBookings: seq<Booking> := [
    Booking("101", "1", "user1", 2, Confirmed, "2023-11-01T10:00:00"),
    Booking("102", "2", "user2", 4, Confirmed, "2023-11-02T11:30:00")
  ]

  const Seed: Tables := Tables(SeedEvents, SeedBookings)
}
