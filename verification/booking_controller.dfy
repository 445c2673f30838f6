/**
  `createBooking` and `listMyBookings` of `src/controller/bookingController.js`.

  `createBooking` builds a document whose fields (`movieId`, `date`, `clusterId`, `hallId`,
  `startTime`, `endTime`, `seats` as plain codes, `pricePerSeat`, `totalPrice`) are not the
  fields of the schema in `src/model/Booking.js`. `CreateBookingAsWritten` hands that document
  to the schema and shows that it is always refused; `CreateBooking` stores the document the
  handler evidently means to store, in a collection of its own shape.
 */
module BookingController {
  import opened Wrappers
  import opened JsBuiltins
  import BookingModel
  import SeatLockController

  /** The request body. A missing or empty string field is ""; `seats` is None when it is not an array. */
  datatype CreateRequest = CreateRequest(
    movieId: string,
    date: string,
    clusterId: string,
    hallId: string,
    startTime: string,
    endTime: string,
    seats: Option<seq<string>>,
    pricePerSeat: Numeric)

  /** The document `createBooking` builds for `Booking.create`. */
  datatype Order = Order(
    userId: string,
    movieId: string,
    date: string,
    clusterId: string,
    hallId: string,
    startTime: string,
    endTime: string,
    seats: seq<string>,
    pricePerSeat: int,
    totalPrice: int)

  /** A stored order, with the `createdAt` timestamp of the collection. */
  datatype StoredOrder = StoredOrder(order: Order, createdAt: int)

  datatype CreateResponse =
    | CreateBadRequest
    | Created(booking: Order)
    | CreateServerError
  {
    function Status(): int {
      match this
      case CreateBadRequest => 400
      case Created(_) => 201
      case CreateServerError => 500
    }
  }

  /** The guard of `createBooking`: a falsy field, `seats` not a non-empty array,
      or `Number(pricePerSeat)` equal to 0 or NaN. */
  predicate Incomplete(userId: string, req: CreateRequest) {
    || userId == ""
    || req.movieId == ""
    || req.date == ""
    || req.clusterId == ""
    || req.hallId == ""
    || req.startTime == ""
    || req.endTime == ""
    || req.seats.None?
    || |req.seats.value| == 0
    || req.pricePerSeat.NaN?
    || req.pricePerSeat.value == 0
  }

  function BuildOrder(userId: string, req: CreateRequest): Order
    requires !Incomplete(userId, req)
  {
    var price := req.pricePerSeat.value;
    var seats := req.seats.value;
    Order(userId, req.movieId, req.date, req.clusterId, req.hallId, req.startTime, req.endTime,
          seats, price, price * |seats|)
  }

  /** The price of `n` seats at `price` each, added up seat by seat. */
  function PriceOfSeats(price: int, n: nat): int {
    if n == 0 then 0 else PriceOfSeats(price, n - 1) + price
  }

  /** The order total is what adding the seat price once per requested seat gives. */
  lemma {:induction false} TotalIsSumOfSeatPrices(price: int, n: nat)
    ensures PriceOfSeats(price, n) == price * n
  {
    if n > 0 {
      TotalIsSumOfSeatPrices(price, n - 1);
    }
  }

  /** `createBooking` as the handler evidently intends it: an incomplete request is refused
      with 400 and stores nothing; any other stores the order at `now` and answers 201. */
  function CreateBooking(store: seq<StoredOrder>, userId: string, req: CreateRequest, now: int)
    : (out: (seq<StoredOrder>, CreateResponse))
    ensures out.1.CreateBadRequest? <==> Incomplete(userId, req)
    ensures out.1.Created? <==> !Incomplete(userId, req)
    ensures out.1.CreateBadRequest? ==> out.0 == store
    ensures out.1.Created? ==> out.0 == store + [StoredOrder(out.1.booking, now)]
    ensures out.1.Created? ==>
      var o := out.1.booking;
      && o.userId == userId
      && o.movieId == req.movieId && o.date == req.date
      && o.clusterId == req.clusterId && o.hallId == req.hallId
      && o.startTime == req.startTime && o.endTime == req.endTime
      && o.seats == req.seats.value
      && o.pricePerSeat == req.pricePerSeat.value
      && o.totalPrice == PriceOfSeats(o.pricePerSeat, |o.seats|)
  {
    if Incomplete(userId, req) then (store, CreateBadRequest)
    else
      var o := BuildOrder(userId, req);
      TotalIsSumOfSeatPrices(o.pricePerSeat, |o.seats|);
      (store + [StoredOrder(o, now)], Created(o))
  }

  /** The order as `Booking.create` sees it through the schema of `Booking.js`: paths the schema
      does not declare are dropped, the seat codes become line items with neither type nor price,
      and a user id that is not an ObjectId cannot be cast. */
  function SchemaView(o: Order): (b: BookingModel.Booking)
    ensures !BookingModel.Valid(BookingModel.WithDefaults(b))
  {
    BookingModel.Booking(
      userId := if BookingModel.IsValidObjectId(o.userId) then Some(o.userId) else None,
      userEmail := None,
      showtimeId := "",
      movieTitle := "",
      moviePoster := None,
      cinemaInfo := BookingModel.CinemaInfo(None, None, None),
      showtimeInfo := BookingModel.ShowtimeInfo("", "", ""),
      seats := seq(|o.seats|, i requires 0 <= i < |o.seats| => BookingModel.SeatLine(o.seats[i], "", None)),
      combos := [],
      total := None,
      paymentMethod := "",
      paymentStatus := None,
      bookingStatus := None,
      bookingCode := "")
  }

  /** `createBooking` as written: the order goes through `Booking.create`, whose validation always
      refuses it, so a complete request answers 500 and the collection never changes. */
  function CreateBookingAsWritten(ledger: seq<BookingModel.StoredBooking>, userId: string, req: CreateRequest, now: int)
    : (out: (seq<BookingModel.StoredBooking>, CreateResponse))
    ensures out.1.CreateBadRequest? <==> Incomplete(userId, req)
    ensures out.1.CreateServerError? <==> !Incomplete(userId, req)
    ensures out.0 == ledger
  {
    if Incomplete(userId, req) then (ledger, CreateBadRequest)
    else
      var o := BuildOrder(userId, req);
      match BookingModel.Create(ledger, SchemaView(o), now)
      case Some(l) => (l, Created(o))
      case None => (ledger, CreateServerError)
  }

  /** Every request the guard lets through is answered 201 by the intended handler and 500 as written. */
  lemma CompleteRequestNeverStored(ledger: seq<BookingModel.StoredBooking>, store: seq<StoredOrder>,
                                   userId: string, req: CreateRequest, now: int)
    requires !Incomplete(userId, req)
    ensures CreateBookingAsWritten(ledger, userId, req, now).1.Status() == 500
    ensures CreateBooking(store, userId, req, now).1.Status() == 201
  {
  }

  /** One concrete request: a single seat at 75000 from a signed-in user. */
  lemma OneSeatRequestRefused()
    ensures
      var req := CreateRequest("m1", "2025-06-01", "c1", "h1", "18:00", "20:00", Some(["A1"]), Num(75000));
      var userId := "0123456789abcdef01234567";
      && CreateBookingAsWritten([], userId, req, 0) == ([], CreateServerError)
      && CreateBooking([], userId, req, 0).1.Created?
      && CreateBooking([], userId, req, 0).1.booking.totalPrice == 75000
  {
  }

  /** Newest first: `createdAt` never increases along the sequence. */
  predicate NewestFirst(s: seq<BookingModel.StoredBooking>) {
    forall i, j :: 0 <= i < j < |s| ==> s[i].createdAt >= s[j].createdAt
  }

  /** Inserts `b` into a newest-first sequence, ahead of every booking no newer than it. */
  function InsertByNewest(b: BookingModel.StoredBooking, s: seq<BookingModel.StoredBooking>)
    : (r: seq<BookingModel.StoredBooking>)
    requires NewestFirst(s)
    ensures NewestFirst(r)
    ensures multiset(r) == multiset(s) + multiset{b}
  {
    if s == [] then [b]
    else
      NoNewerThanHead(s);
      if b.createdAt >= s[0].createdAt then
        PrependKeepsNewestFirst(b, s);
        [b] + s
      else
        var rest := InsertByNewest(b, s[1..]);
        NoNewerAfterInsert(b, s[1..], rest, s[0].createdAt);
        PrependKeepsNewestFirst(s[0], rest);
        assert s == [s[0]] + s[1..];
        assert multiset([s[0]] + rest) == multiset{s[0]} + multiset(rest);
        [s[0]] + rest
  }

  /** In a newest-first sequence nothing is newer than the head. */
  lemma NoNewerThanHead(s: seq<BookingModel.StoredBooking>)
    requires NewestFirst(s) && s != []
    ensures forall x | x in s :: x.createdAt <= s[0].createdAt
  {
    forall x | x in s
      ensures x.createdAt <= s[0].createdAt
    {
      var j :| 0 <= j < |s| && s[j] == x;
    }
  }

  /** A booking no older than every member of a newest-first sequence can go in front of it. */
  lemma PrependKeepsNewestFirst(x: BookingModel.StoredBooking, s: seq<BookingModel.StoredBooking>)
    requires NewestFirst(s)
    requires forall y | y in s :: y.createdAt <= x.createdAt
    ensures NewestFirst([x] + s)
  {
    var r := [x] + s;
    forall i, j | 0 <= i < j < |r|
      ensures r[i].createdAt >= r[j].createdAt
    {
      assert r[j] == s[j - 1];
      if i > 0 {
        assert r[i] == s[i - 1];
      } else {
        assert s[j - 1] in s;
      }
    }
  }

  /** Adding `b` to a collection of bookings no newer than `bound` keeps it so, when `b` is no newer either. */
  lemma NoNewerAfterInsert(b: BookingModel.StoredBooking, s: seq<BookingModel.StoredBooking>,
                           r: seq<BookingModel.StoredBooking>, bound: int)
    requires multiset(r) == multiset(s) + multiset{b}
    requires b.createdAt <= bound
    requires forall x | x in s :: x.createdAt <= bound
    ensures forall x | x in r :: x.createdAt <= bound
  {
    forall x | x in r
      ensures x.createdAt <= bound
    {
      assert x in multiset(r);
      assert x == b || x in multiset(s);
    }
  }

  /** `.sort({ createdAt: -1 })`. */
  function SortByNewest(s: seq<BookingModel.StoredBooking>): (r: seq<BookingModel.StoredBooking>)
    ensures NewestFirst(r)
    ensures multiset(r) == multiset(s)
  {
    if s == [] then []
    else
      assert s == [s[0]] + s[1..];
      InsertByNewest(s[0], SortByNewest(s[1..]))
  }

  /** The booking belongs to the user with id `userId`. */
  predicate OwnedBy(b: BookingModel.StoredBooking, userId: string) {
    b.doc.userId == Some(userId)
  }

  datatype ListResponse =
    | ListServerError
    | Listed(bookings: seq<BookingModel.StoredBooking>)

  /** `listMyBookings`: the caller's bookings, newest first. A caller id that is not an ObjectId
      makes the query's cast fail, which the handler answers with 500. */
  function ListMyBookings(ledger: seq<BookingModel.StoredBooking>, userId: string): (r: ListResponse)
    ensures r.ListServerError? <==> !BookingModel.IsValidObjectId(userId)
    ensures r.Listed? ==> NewestFirst(r.bookings)
    ensures r.Listed? ==>
      forall b :: multiset(r.bookings)[b] == if OwnedBy(b, userId) then multiset(ledger)[b] else 0
  {
    if !BookingModel.IsValidObjectId(userId) then ListServerError
    else Listed(SortByNewest(Filter(ledger, (b: BookingModel.StoredBooking) => OwnedBy(b, userId))))
  }

  /** The list holds exactly the caller's bookings. */
  lemma ListedExactlyOwned(ledger: seq<BookingModel.StoredBooking>, userId: string, b: BookingModel.StoredBooking)
    requires BookingModel.IsValidObjectId(userId)
    ensures b in ListMyBookings(ledger, userId).bookings <==> b in ledger && OwnedBy(b, userId)
  {
    var r := ListMyBookings(ledger, userId).bookings;
    assert b in r <==> multiset(r)[b] > 0;
    assert b in ledger <==> multiset(ledger)[b] > 0;
  }

  /** A booking confirmed through the seat-lock flow shows up in the list of the user it was made for. */
  lemma ConfirmedBookingListed(st: SeatLockController.State, req: SeatLockController.ConfirmRequest,
                               codeTail: string, now: int)
    requires SeatLockController.ConfirmBooking(st, req, codeTail, now).1.Confirmed?
    ensures
      var st' := SeatLockController.ConfirmBooking(st, req, codeTail, now).0;
      var userId := SeatLockController.AuthUserId(req.user, req.bookingData.value);
      && ListMyBookings(st'.bookings, userId).Listed?
      && st'.bookings[|st.bookings|] in ListMyBookings(st'.bookings, userId).bookings
  {
    var out := SeatLockController.ConfirmBooking(st, req, codeTail, now);
    var userId := SeatLockController.AuthUserId(req.user, req.bookingData.value);
    var k := SeatLockController.LockIndex(st.locks, req.lockId.value).value;
    var doc := SeatLockController.BuildBooking(st.locks[k], req.bookingData.value, req.user, codeTail);
    assert BookingModel.Valid(BookingModel.WithDefaults(doc));
    assert doc.userId == Some(userId);
    var b := out.0.bookings[|st.bookings|];
    assert OwnedBy(b, userId);
    ListedExactlyOwned(out.0.bookings, userId, b);
  }
}
