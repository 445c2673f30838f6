/**
  The booking document of `src/model/Booking.js`: its fields, the defaults the schema fills in,
  the constraints `Booking.create` enforces (required fields, enumerations, the unique booking
  code) and the ledger of stored bookings.

  A required string field that is absent and one that is empty are both written "" here: mongoose's
  `required` validator rejects either for a String path. A path with a default is an `Option`,
  because mongoose fills the default only when the value is absent (`undefined`) and keeps an
  empty string as given.
 */
module BookingModel {
  import opened Wrappers

  const DefaultUserEmail := "unknown@example.com"
  const DefaultPoster := "/images/default-poster.jpg"
  const DefaultSystemName := "CGV Cinemas"
  const DefaultClusterName := "Cụm rạp mặc định"
  const DefaultHallName := "Phòng chiếu 1"
  const DefaultPaymentStatus := "pending"
  const DefaultBookingStatus := "confirmed"

  const SeatTypes: set<string> := {"regular", "vip"}
  const PaymentMethods: set<string> := {"momo", "vnpay", "visa", "cod"}
  const PaymentStatuses: set<string> := {"pending", "paid", "failed", "cancelled"}
  const BookingStatuses: set<string> := {"confirmed", "cancelled", "expired"}

  predicate IsHexDigit(c: char) {
    '0' <= c <= '9' || 'a' <= c <= 'f' || 'A' <= c <= 'F'
  }

  /** mongoose's test for a string that can become an ObjectId: 24 hexadecimal digits. */
  predicate IsValidObjectId(s: string) {
    |s| == 24 && forall i :: 0 <= i < |s| ==> IsHexDigit(s[i])
  }

  /** A seat line item; `price` is None when the value is missing or cannot be cast to a Number. */
  datatype SeatLine = SeatLine(seatNumber: string, seatType: string, price: Option<int>)

  /** A combo line item; the schema puts no constraint on it. */
  datatype ComboLine = ComboLine(comboId: string, name: string, price: int, quantity: int)

  datatype CinemaInfo = CinemaInfo(systemName: Option<string>, clusterName: Option<string>, hallName: Option<string>)

  datatype ShowtimeInfo = ShowtimeInfo(date: string, startTime: string, endTime: string)

  /** A booking document as handed to `Booking.create`. `userId` is None for `null`; a defaulted
      path is None when it is absent. */
  datatype Booking = Booking(
    userId: Option<string>,
    userEmail: Option<string>,
    showtimeId: string,
    movieTitle: string,
    moviePoster: Option<string>,
    cinemaInfo: CinemaInfo,
    showtimeInfo: ShowtimeInfo,
    seats: seq<SeatLine>,
    combos: seq<ComboLine>,
    total: Option<int>,
    paymentMethod: string,
    paymentStatus: Option<string>,
    bookingStatus: Option<string>,
    bookingCode: string)

  /** A document in the collection, with the `createdAt` timestamp the schema's `timestamps` option adds. */
  datatype StoredBooking = StoredBooking(doc: Booking, createdAt: int)

  /** A defaulted path after mongoose's defaulting: the given value, even "", or else the default. */
  function OrDefault(v: Option<string>, default: string): Option<string> {
    Some(v.GetOr(default))
  }

  /** The document after mongoose fills in every path that declares a default. */
  function WithDefaults(b: Booking): (d: Booking)
    ensures d.userEmail.Some? && d.moviePoster.Some? && d.paymentStatus.Some? && d.bookingStatus.Some?
    ensures d.cinemaInfo.systemName.Some? && d.cinemaInfo.clusterName.Some? && d.cinemaInfo.hallName.Some?
    ensures b.userEmail.Some? ==> d.userEmail == b.userEmail
    ensures b.userEmail.None? ==> d.userEmail == Some(DefaultUserEmail)
    ensures b.moviePoster.Some? ==> d.moviePoster == b.moviePoster
    ensures b.moviePoster.None? ==> d.moviePoster == Some(DefaultPoster)
    ensures b.cinemaInfo.systemName.Some? ==> d.cinemaInfo.systemName == b.cinemaInfo.systemName
    ensures b.cinemaInfo.systemName.None? ==> d.cinemaInfo.systemName == Some(DefaultSystemName)
    ensures b.cinemaInfo.clusterName.Some? ==> d.cinemaInfo.clusterName == b.cinemaInfo.clusterName
    ensures b.cinemaInfo.clusterName.None? ==> d.cinemaInfo.clusterName == Some(DefaultClusterName)
    ensures b.cinemaInfo.hallName.Some? ==> d.cinemaInfo.hallName == b.cinemaInfo.hallName
    ensures b.cinemaInfo.hallName.None? ==> d.cinemaInfo.hallName == Some(DefaultHallName)
    ensures b.paymentStatus.Some? ==> d.paymentStatus == b.paymentStatus
    ensures b.paymentStatus.None? ==> d.paymentStatus == Some(DefaultPaymentStatus)
    ensures b.bookingStatus.Some? ==> d.bookingStatus == b.bookingStatus
    ensures b.bookingStatus.None? ==> d.bookingStatus == Some(DefaultBookingStatus)
    ensures d.(userEmail := b.userEmail, moviePoster := b.moviePoster, cinemaInfo := b.cinemaInfo,
               paymentStatus := b.paymentStatus, bookingStatus := b.bookingStatus) == b
  {
    b.(userEmail := OrDefault(b.userEmail, DefaultUserEmail),
       moviePoster := OrDefault(b.moviePoster, DefaultPoster),
       cinemaInfo := CinemaInfo(
         OrDefault(b.cinemaInfo.systemName, DefaultSystemName),
         OrDefault(b.cinemaInfo.clusterName, DefaultClusterName),
         OrDefault(b.cinemaInfo.hallName, DefaultHallName)),
       paymentStatus := OrDefault(b.paymentStatus, DefaultPaymentStatus),
       bookingStatus := OrDefault(b.bookingStatus, DefaultBookingStatus))
  }

  /** A seat line item passes its sub-schema: number present, type one of the two seat types, price present. */
  predicate ValidSeatLine(s: SeatLine) {
    s.seatNumber != "" && s.seatType in SeatTypes && s.price.Some?
  }

  /** Every constraint the schema states, other than the unique index on `bookingCode`. */
  predicate Valid(b: Booking) {
    && b.userId.Some?
    && b.showtimeId != ""
    && b.movieTitle != ""
    && b.showtimeInfo.date != ""
    && b.showtimeInfo.startTime != ""
    && b.showtimeInfo.endTime != ""
    && (forall i :: 0 <= i < |b.seats| ==> ValidSeatLine(b.seats[i]))
    && b.total.Some?
    && b.paymentMethod in PaymentMethods
    && (b.paymentStatus.Some? ==> b.paymentStatus.value in PaymentStatuses)
    && (b.bookingStatus.Some? ==> b.bookingStatus.value in BookingStatuses)
    && b.bookingCode != ""
  }

  /** No stored booking already carries `code`. */
  predicate CodeIsFresh(ledger: seq<StoredBooking>, code: string) {
    forall i :: 0 <= i < |ledger| ==> ledger[i].doc.bookingCode != code
  }

  /** The unique index on `bookingCode` holds of the whole collection. */
  predicate UniqueCodes(ledger: seq<StoredBooking>) {
    forall i, j :: 0 <= i < j < |ledger| ==> ledger[i].doc.bookingCode != ledger[j].doc.bookingCode
  }

  /** `Booking.create(doc)` at time `now`: the collection with the new document appended,
      or None when validation or the unique index rejects it. */
  function Create(ledger: seq<StoredBooking>, doc: Booking, now: int): (r: Option<seq<StoredBooking>>)
    ensures r.Some? <==> Valid(WithDefaults(doc)) && CodeIsFresh(ledger, doc.bookingCode)
    ensures r.Some? ==> |r.value| == |ledger| + 1 && r.value[..|ledger|] == ledger
    ensures r.Some? ==> r.value[|ledger|] == StoredBooking(WithDefaults(doc), now)
  {
    var d := WithDefaults(doc);
    if Valid(d) && CodeIsFresh(ledger, d.bookingCode) then
      Some(ledger + [StoredBooking(d, now)])
    else
      None
  }

  /** Every stored document satisfies the schema and the codes are unique. */
  predicate LedgerValid(ledger: seq<StoredBooking>) {
    && UniqueCodes(ledger)
    && forall i :: 0 <= i < |ledger| ==> Valid(ledger[i].doc)
  }

  /** Defaults are applied once: a second pass changes nothing. */
  lemma WithDefaultsIdempotent(b: Booking)
    ensures WithDefaults(WithDefaults(b)) == WithDefaults(b)
  {
  }

  /** A successful `Create` keeps every document valid and every booking code unique. */
  lemma {:induction false} CreatePreservesLedger(ledger: seq<StoredBooking>, doc: Booking, now: int)
    requires LedgerValid(ledger)
    requires Create(ledger, doc, now).Some?
    ensures LedgerValid(Create(ledger, doc, now).value)
  {
    var l' := Create(ledger, doc, now).value;
    forall i, j | 0 <= i < j < |l'|
      ensures l'[i].doc.bookingCode != l'[j].doc.bookingCode
    {
      if j == |ledger| {
        assert l'[i] == ledger[i];
      } else {
        assert l'[i] == ledger[i] && l'[j] == ledger[j];
      }
    }
    forall i | 0 <= i < |l'|
      ensures Valid(l'[i].doc)
    {
      if i < |ledger| {
        assert l'[i] == ledger[i];
      }
    }
  }
}
