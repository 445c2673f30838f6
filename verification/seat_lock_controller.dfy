/**
  The seat-hold handlers of `src/controller/seatLockController.js` as pure transitions
  `(state, request, now) -> (state', response)`.

  The state is a showtime table (each showtime's seat list), the seat-lock table and the booking
  collection. Each handler is one atomic step; `now` is the clock in milliseconds, read once per
  step. A request string that is absent or empty is "" (JavaScript treats both as falsy).
 */
module SeatLockController {
  import opened Wrappers
  import opened JsBuiltins
  import BookingModel

  /** Lifetime of a hold: ten minutes, in milliseconds. */
  const LockLifetimeMs: int := 10 * 60 * 1000

  const Occupied := "occupied"
  const Sold := "sold"

  /* ---------------------------------------------------------------- state */

  datatype Seat = Seat(seatNumber: string, status: string, seatType: string)

  /** A showtime as the handlers read it: `seatData` is None when that property is not an array;
      `seats` is the fallback list (empty when absent). */
  datatype Showtime = Showtime(seatData: Option<seq<Seat>>, seats: seq<Seat>)

  datatype SeatLock = SeatLock(
    id: nat,
    showtimeId: string,
    seatNumbers: seq<string>,
    userId: string,
    userEmail: string,
    expiresAt: int,
    isActive: bool)

  /** `nextLockId` stands for the database's id generator: every lock id in the table is below it. */
  datatype State = State(
    showtimes: map<string, Showtime>,
    locks: seq<SeatLock>,
    nextLockId: nat,
    bookings: seq<BookingModel.StoredBooking>)

  /** An empty lock table and booking collection over a given showtime table. */
  function Init(showtimes: map<string, Showtime>): State {
    State(showtimes, [], 0, [])
  }

  /** The seat list `lockSeats` inspects: `seatData` when it is an array, otherwise nothing. */
  function LockView(sh: Showtime): seq<Seat> {
    if sh.seatData.Some? then sh.seatData.value else []
  }

  /** The seat list `confirmBooking` rewrites: `seatData` when it is an array, otherwise `seats`. */
  function ConfirmView(sh: Showtime): seq<Seat> {
    if sh.seatData.Some? then sh.seatData.value else sh.seats
  }

  predicate IsTaken(s: Seat) {
    s.status == Occupied || s.status == Sold
  }

  /** A lock holds its seats at `now`: active, and its expiry strictly later than `now`. */
  predicate LiveAt(l: SeatLock, now: int) {
    l.isActive && l.expiresAt > now
  }

  predicate LiveOn(l: SeatLock, showtimeId: string, now: int) {
    l.showtimeId == showtimeId && LiveAt(l, now)
  }

  /** The seat list of the showtime reports seat `x` occupied or sold. */
  ghost predicate SeatTaken(seatData: seq<Seat>, x: string) {
    exists s :: s in seatData && s.seatNumber == x && IsTaken(s)
  }

  /** Some lock on the showtime that is live at `now` covers seat `x`. */
  ghost predicate SeatHeld(locks: seq<SeatLock>, showtimeId: string, x: string, now: int) {
    exists l :: l in locks && LiveOn(l, showtimeId, now) && x in l.seatNumbers
  }

  /** Seat `x` of a known showtime cannot be acquired at `now`. */
  ghost predicate Unavailable(st: State, showtimeId: string, x: string, now: int)
    requires showtimeId in st.showtimes
  {
    SeatTaken(LockView(st.showtimes[showtimeId]), x) || SeatHeld(st.locks, showtimeId, x, now)
  }

  predicate Disjoint(a: seq<string>, b: seq<string>) {
    forall x :: x in a ==> x !in b
  }

  /** No two distinct locks that are live at `now` on the same showtime share a seat number. */
  ghost predicate Exclusive(locks: seq<SeatLock>, now: int) {
    forall i, j ::
      0 <= i < |locks| && 0 <= j < |locks| && i != j
      && LiveAt(locks[i], now) && LiveAt(locks[j], now)
      && locks[i].showtimeId == locks[j].showtimeId
      ==> Disjoint(locks[i].seatNumbers, locks[j].seatNumbers)
  }

  /** Lock ids are distinct and below the id generator. */
  ghost predicate WellFormed(st: State) {
    && (forall i :: 0 <= i < |st.locks| ==> st.locks[i].id < st.nextLockId)
    && (forall i, j :: 0 <= i < j < |st.locks| ==> st.locks[i].id != st.locks[j].id)
  }

  /** The invariant the handlers keep, relative to the clock reading `now`. */
  ghost predicate Inv(st: State, now: int) {
    && WellFormed(st)
    && Exclusive(st.locks, now)
    && BookingModel.LedgerValid(st.bookings)
  }

  /* ---------------------------------------------------------------- lockSeats */

  datatype LockRequest = LockRequest(
    showtimeId: string,
    seatNumbers: seq<string>,
    userId: string,
    userEmail: string)

  datatype BadRequestReason = MissingShowtimeOrSeats | MissingUser

  datatype LockResponse =
    | LockBadRequest(reason: BadRequestReason)
    | LockShowtimeNotFound
    | LockConflict(conflictingSeats: seq<string>)
    | Locked(lockId: nat, expiresAt: int, expiresIn: int)
  {
    function Status(): int {
      match this
      case LockBadRequest(_) => 400
      case LockShowtimeNotFound => 404
      case LockConflict(_) => 409
      case Locked(_, _, _) => 200
    }
  }

  predicate MissingInput(req: LockRequest) {
    req.showtimeId == "" || req.seatNumbers == [] || req.userId == "" || req.userEmail == ""
  }

  /** The requested seats the seat list marks occupied or sold, in seat-list order. */
  function TakenRequested(seatData: seq<Seat>, requested: seq<string>): (r: seq<string>)
    ensures forall x :: x in r <==> x in requested && SeatTaken(seatData, x)
  {
    if seatData == [] then []
    else
      assert seatData == [seatData[0]] + seatData[1..];
      var s := seatData[0];
      (if s.seatNumber in requested && IsTaken(s) then [s.seatNumber] else [])
      + TakenRequested(seatData[1..], requested)
  }

  /** The lock query: a lock of this showtime, live at `now`, holding at least one requested seat. */
  predicate MatchesLockQuery(l: SeatLock, showtimeId: string, requested: seq<string>, now: int) {
    LiveOn(l, showtimeId, now) && exists sn :: sn in l.seatNumbers && sn in requested
  }

  /** The requested seats held by the locks the query returns, lock by lock. */
  function LockedRequested(locks: seq<SeatLock>, showtimeId: string, requested: seq<string>, now: int): (r: seq<string>)
    ensures forall x :: x in r <==> x in requested && SeatHeld(locks, showtimeId, x, now)
  {
    if locks == [] then []
    else
      assert locks == [locks[0]] + locks[1..];
      var l := locks[0];
      (if MatchesLockQuery(l, showtimeId, requested, now) then Filter(l.seatNumbers, sn => sn in requested) else [])
      + LockedRequested(locks[1..], showtimeId, requested, now)
  }

  /** The conflict list: exactly the requested seats that are taken in the seat list or held by a live
      lock on the showtime, each once. */
  function Conflicts(sh: Showtime, locks: seq<SeatLock>, showtimeId: string, requested: seq<string>, now: int): (r: seq<string>)
    ensures NoDuplicates(r)
    ensures forall x :: x in r <==> x in requested && (SeatTaken(LockView(sh), x) || SeatHeld(locks, showtimeId, x, now))
  {
    Dedup(TakenRequested(LockView(sh), requested) + LockedRequested(locks, showtimeId, requested, now))
  }

  /** This user's active locks on this showtime whose expiry is strictly before `now`. */
  predicate Stale(l: SeatLock, userId: string, showtimeId: string, now: int) {
    l.userId == userId && l.showtimeId == showtimeId && l.isActive && l.expiresAt < now
  }

  /** The `updateMany` that deactivates the caller's stale locks on the showtime. */
  function ExpireStale(locks: seq<SeatLock>, userId: string, showtimeId: string, now: int): (r: seq<SeatLock>)
    ensures |r| == |locks|
    ensures forall i :: 0 <= i < |locks| ==> r[i].(isActive := locks[i].isActive) == locks[i]
    ensures forall i :: 0 <= i < |locks| ==>
      (r[i].isActive <==> locks[i].isActive && !Stale(locks[i], userId, showtimeId, now))
  {
    seq(|locks|, i requires 0 <= i < |locks| =>
      if Stale(locks[i], userId, showtimeId, now) then locks[i].(isActive := false) else locks[i])
  }

  /** A successful acquisition: one new active lock with the whole request, the caller's stale
      locks on the showtime deactivated, and nothing else changed. */
  ghost predicate Acquired(st: State, st': State, req: LockRequest, now: int) {
    && st'.showtimes == st.showtimes
    && st'.bookings == st.bookings
    && st'.nextLockId == st.nextLockId + 1
    && |st'.locks| == |st.locks| + 1
    && st'.locks[|st.locks|]
       == SeatLock(st.nextLockId, req.showtimeId, req.seatNumbers, req.userId, req.userEmail, now + LockLifetimeMs, true)
    && forall i :: 0 <= i < |st.locks| ==>
         st'.locks[i] == if Stale(st.locks[i], req.userId, req.showtimeId, now)
                         then st.locks[i].(isActive := false) else st.locks[i]
  }

  /** The writes of a successful `lockSeats`: the stale-lock cleanup, then the new lock. */
  function Acquire(st: State, req: LockRequest, now: int): (st': State)
    ensures Acquired(st, st', req, now)
  {
    var lock := SeatLock(st.nextLockId, req.showtimeId, req.seatNumbers, req.userId, req.userEmail, now + LockLifetimeMs, true);
    st.(locks := ExpireStale(st.locks, req.userId, req.showtimeId, now) + [lock], nextLockId := st.nextLockId + 1)
  }

  /** `lockSeats`: validate, compute the conflicts, and either refuse the whole request or create one lock. */
  function LockSeats(st: State, req: LockRequest, now: int): (out: (State, LockResponse))
    ensures out.1.Status() == 400 <==> MissingInput(req)
    ensures out.1.LockBadRequest? ==>
      out.1.reason == if req.showtimeId == "" || req.seatNumbers == [] then MissingShowtimeOrSeats else MissingUser
    ensures out.1.LockShowtimeNotFound? <==> !MissingInput(req) && req.showtimeId !in st.showtimes
    ensures !out.1.Locked? ==> out.0 == st
    ensures out.1.LockConflict? ==>
      && !MissingInput(req) && req.showtimeId in st.showtimes
      && out.1.conflictingSeats != []
      && NoDuplicates(out.1.conflictingSeats)
      && forall x :: x in out.1.conflictingSeats <==> x in req.seatNumbers && Unavailable(st, req.showtimeId, x, now)
    ensures out.1.Locked? <==>
      && !MissingInput(req) && req.showtimeId in st.showtimes
      && forall x :: x in req.seatNumbers ==> !Unavailable(st, req.showtimeId, x, now)
    ensures out.1.Locked? ==>
      && out.0 == Acquire(st, req, now)
      && out.1 == Locked(st.nextLockId, now + LockLifetimeMs, 600)
  {
    if req.showtimeId == "" || req.seatNumbers == [] then
      (st, LockBadRequest(MissingShowtimeOrSeats))
    else if req.userId == "" || req.userEmail == "" then
      (st, LockBadRequest(MissingUser))
    else if req.showtimeId !in st.showtimes then
      (st, LockShowtimeNotFound)
    else
      var conflicts := Conflicts(st.showtimes[req.showtimeId], st.locks, req.showtimeId, req.seatNumbers, now);
      assert forall x :: x in conflicts <==> x in req.seatNumbers && Unavailable(st, req.showtimeId, x, now);
      if |conflicts| > 0 then
        assert conflicts[0] in conflicts;
        (st, LockConflict(conflicts))
      else
        var expiresAt := now + LockLifetimeMs;
        assert (expiresAt - now) / 1000 == 600 by { assert expiresAt - now == 600000; }
        (Acquire(st, req, now), Locked(st.nextLockId, expiresAt, (expiresAt - now) / 1000))
  }

  /* ---------------------------------------------------------------- getLockedSeats */

  datatype LockedSeat = LockedSeat(seatNumber: string, lockedBy: string, lockedByEmail: string, expiresAt: int)

  datatype LockedSeatsResponse = LockedSeatsBadRequest | LockedSeatsOk(lockedSeats: seq<LockedSeat>)

  /** Entry `e` describes one seat of lock `l`, with that lock's holder and expiry. */
  predicate Describes(l: SeatLock, e: LockedSeat) {
    e.seatNumber in l.seatNumbers && e.lockedBy == l.userId && e.lockedByEmail == l.userEmail && e.expiresAt == l.expiresAt
  }

  /** One entry per seat number of a lock. */
  function Entries(l: SeatLock): (r: seq<LockedSeat>)
    ensures |r| == |l.seatNumbers|
    ensures forall e :: e in r <==> Describes(l, e)
  {
    var r := seq(|l.seatNumbers|, i requires 0 <= i < |l.seatNumbers| =>
      LockedSeat(l.seatNumbers[i], l.userId, l.userEmail, l.expiresAt));
    assert forall e :: Describes(l, e) ==> e in r by {
      forall e | Describes(l, e) ensures e in r {
        var i :| 0 <= i < |l.seatNumbers| && l.seatNumbers[i] == e.seatNumber;
        assert r[i] == e;
      }
    }
    r
  }

  /** The number of seat entries of the locks live on the showtime. */
  function LiveSeatCount(locks: seq<SeatLock>, showtimeId: string, now: int): nat {
    if locks == [] then 0
    else (if LiveOn(locks[0], showtimeId, now) then |locks[0].seatNumbers| else 0)
         + LiveSeatCount(locks[1..], showtimeId, now)
  }

  /** `flatMap` over the live locks of the showtime, in table order. */
  function LockedSeatList(locks: seq<SeatLock>, showtimeId: string, now: int): (r: seq<LockedSeat>)
    ensures |r| == LiveSeatCount(locks, showtimeId, now)
    ensures forall e :: e in r <==> exists l :: l in locks && LiveOn(l, showtimeId, now) && Describes(l, e)
  {
    if locks == [] then []
    else
      assert locks == [locks[0]] + locks[1..];
      (if LiveOn(locks[0], showtimeId, now) then Entries(locks[0]) else [])
      + LockedSeatList(locks[1..], showtimeId, now)
  }

  /** `getLockedSeats`: every seat of every lock on the showtime that is live at `now`. */
  function GetLockedSeats(st: State, showtimeId: string, now: int): (r: LockedSeatsResponse)
    ensures r.LockedSeatsBadRequest? <==> showtimeId == ""
    ensures r.LockedSeatsOk? ==> |r.lockedSeats| == LiveSeatCount(st.locks, showtimeId, now)
    ensures r.LockedSeatsOk? ==> forall e :: e in r.lockedSeats <==>
      exists i :: 0 <= i < |st.locks| && LiveOn(st.locks[i], showtimeId, now) && Describes(st.locks[i], e)
  {
    if showtimeId == "" then LockedSeatsBadRequest
    else
      var r := LockedSeatList(st.locks, showtimeId, now);
      assert forall e :: e in r <==>
        exists i :: 0 <= i < |st.locks| && LiveOn(st.locks[i], showtimeId, now) && Describes(st.locks[i], e) by {
        forall e | e in r
          ensures exists i :: 0 <= i < |st.locks| && LiveOn(st.locks[i], showtimeId, now) && Describes(st.locks[i], e)
        {
          var l :| l in st.locks && LiveOn(l, showtimeId, now) && Describes(l, e);
          var i :| 0 <= i < |st.locks| && st.locks[i] == l;
        }
      }
      LockedSeatsOk(r)
  }

  /* ---------------------------------------------------------------- unlockSeats */

  datatype UnlockResponse = UnlockBadRequest | UnlockNotFound | Unlocked {
    function Status(): int {
      match this
      case UnlockBadRequest => 400
      case UnlockNotFound => 404
      case Unlocked => 200
    }
  }

  /** The `updateOne` filter: this id, this user, still active. Expiry is not part of it. */
  predicate Unlockable(l: SeatLock, lockId: nat, userId: string) {
    l.id == lockId && l.userId == userId && l.isActive
  }

  /** `unlockSeats`: deactivate the first lock matching id, user and `isActive`, or answer 404. */
  function UnlockSeats(st: State, lockId: Option<nat>, userId: string): (out: (State, UnlockResponse))
    ensures out.1.UnlockBadRequest? <==> lockId.None? || userId == ""
    ensures out.1.Unlocked? <==>
      lockId.Some? && userId != "" && exists i :: 0 <= i < |st.locks| && Unlockable(st.locks[i], lockId.value, userId)
    ensures !out.1.Unlocked? ==> out.0 == st
    ensures out.1.Unlocked? ==>
      exists k :: 0 <= k < |st.locks| && Unlockable(st.locks[k], lockId.value, userId)
        && out.0 == st.(locks := st.locks[k := st.locks[k].(isActive := false)])
  {
    if lockId.None? || userId == "" then (st, UnlockBadRequest)
    else
      match FindIndex(st.locks, (l: SeatLock) => Unlockable(l, lockId.value, userId))
      case None => (st, UnlockNotFound)
      case Some(k) => (st.(locks := st.locks[k := st.locks[k].(isActive := false)]), Unlocked)
  }

  /* ---------------------------------------------------------------- confirmBooking */

  /** The authenticated user, with `id` already resolved from `_id || id`. */
  datatype AuthUser = AuthUser(id: string, email: string)

  /** A selected seat as the client sends it: a bare seat number, or an object. */
  datatype SeatInput =
    | SeatCode(code: string)
    | SeatObject(seatNumber: string, seatType: string, price: Numeric)

  /** The client's `bookingData`. The poster and the cinema names, which are passed on untested, are
      None when absent. `selectedSeats` is None when it is not an array; `selectedCombos` lists the
      entries of the combo object in key order; `total` is `Number(total || 0)`. */
  datatype BookingData = BookingData(
    userId: string,
    userEmail: string,
    movieTitle: string,
    moviePoster: Option<string>,
    systemName: Option<string>,
    clusterName: Option<string>,
    hallName: Option<string>,
    date: string,
    startTime: string,
    endTime: string,
    selectedSeats: Option<seq<SeatInput>>,
    selectedCombos: seq<(string, int)>,
    total: Numeric,
    paymentMethod: string)

  datatype ConfirmRequest = ConfirmRequest(user: Option<AuthUser>, lockId: Option<nat>, bookingData: Option<BookingData>)

  datatype ConfirmResponse =
    | ConfirmBadRequest
    | ConfirmLockNotFound
    | ConfirmShowtimeNotFound
    | ConfirmServerError
    | Confirmed(bookingCode: string)
  {
    function Status(): int {
      match this
      case ConfirmBadRequest => 400
      case ConfirmLockNotFound => 404
      case ConfirmShowtimeNotFound => 404
      case ConfirmServerError => 500
      case Confirmed(_) => 200
    }
  }

  /** `req.user?._id || req.user?.id || bookingData?.userId`. */
  function AuthUserId(user: Option<AuthUser>, data: BookingData): (id: string)
    ensures user.Some? && user.value.id != "" ==> id == user.value.id
    ensures (user.None? || user.value.id == "") ==> id == data.userId
  {
    if user.Some? && user.value.id != "" then user.value.id else data.userId
  }

  /** `req.user?.email || bookingData.userEmail || seatLock.userEmail`. */
  function ContactEmail(user: Option<AuthUser>, data: BookingData, lock: SeatLock): (e: string)
    ensures e in {lock.userEmail, data.userEmail} || (user.Some? && e == user.value.email)
    ensures user.Some? && user.value.email != "" ==> e == user.value.email
    ensures (user.None? || user.value.email == "") && data.userEmail != "" ==> e == data.userEmail
    ensures e == "" <==> (user.None? || user.value.email == "") && data.userEmail == "" && lock.userEmail == ""
  {
    if user.Some? && user.value.email != "" then user.value.email
    else if data.userEmail != "" then data.userEmail
    else lock.userEmail
  }

  /** One selected seat as a line item: type defaults to "regular" and price to 0. A seat object
      without a number cannot be cast to a String; it is written "" and fails `required`. A price
      that is NaN cannot be cast to a Number and is written None. */
  function SeatLineOf(s: SeatInput): (l: BookingModel.SeatLine)
    ensures s.SeatCode? ==> l == BookingModel.SeatLine(s.code, "regular", Some(0))
    ensures s.SeatObject? ==> l.seatNumber == s.seatNumber
    ensures s.SeatObject? ==> l.seatType == if s.seatType == "" then "regular" else s.seatType
    ensures s.SeatObject? ==> (l.price.Some? <==> s.price.Num?)
    ensures s.SeatObject? && s.price.Num? ==> l.price.value == s.price.value
  {
    match s
    case SeatCode(c) => BookingModel.SeatLine(c, "regular", Some(0))
    case SeatObject(n, t, p) => BookingModel.SeatLine(n, if t == "" then "regular" else t, NumberCast(p))
  }

  /** mongoose's cast of a JavaScript number to a Number path: NaN is refused. */
  function NumberCast(n: Numeric): (r: Option<int>)
    ensures r.Some? <==> n.Num?
    ensures r.Some? ==> r.value == n.value
  {
    match n
    case NaN => None
    case Num(v) => Some(v)
  }

  /** The combo entries with a positive quantity, each named after its id and priced 0. */
  function ComboLines(entries: seq<(string, int)>): (r: seq<BookingModel.ComboLine>)
    ensures |r| <= |entries|
    ensures forall c :: c in r <==>
      exists e :: e in entries && e.1 > 0 && c == BookingModel.ComboLine(e.0, e.0, 0, e.1)
  {
    if entries == [] then []
    else
      assert entries == [entries[0]] + entries[1..];
      var e := entries[0];
      (if e.1 > 0 then [BookingModel.ComboLine(e.0, e.0, 0, e.1)] else []) + ComboLines(entries[1..])
  }

  /** The document `confirmBooking` hands to `Booking.create`. */
  function BuildBooking(lock: SeatLock, data: BookingData, user: Option<AuthUser>, codeTail: string): (b: BookingModel.Booking)
    ensures |b.bookingCode| >= 2 && b.bookingCode[..2] == "BK"
    ensures b.paymentStatus == Some("paid") && b.bookingStatus == Some("confirmed")
    ensures b.total.Some? <==> data.total.Num?
    ensures b.total.Some? ==> b.total.value == data.total.value
    ensures b.showtimeId == lock.showtimeId
    ensures b.userId.Some? <==> BookingModel.IsValidObjectId(AuthUserId(user, data))
    ensures b.userId.Some? ==> b.userId.value == AuthUserId(user, data)
    ensures b.userEmail == Some(ContactEmail(user, data, lock))
    ensures b.movieTitle == data.movieTitle && b.moviePoster == data.moviePoster
    ensures b.cinemaInfo == BookingModel.CinemaInfo(data.systemName, data.clusterName, data.hallName)
    ensures b.showtimeInfo == BookingModel.ShowtimeInfo(data.date, data.startTime, data.endTime)
    ensures |b.seats| == if data.selectedSeats.Some? then |data.selectedSeats.value| else 0
    ensures data.selectedSeats.Some? ==>
      forall i :: 0 <= i < |b.seats| ==> b.seats[i] == SeatLineOf(data.selectedSeats.value[i])
    ensures forall i :: 0 <= i < |b.seats| ==> b.seats[i].seatType != ""
    ensures b.combos == ComboLines(data.selectedCombos)
    ensures forall c :: c in b.combos ==> c.price == 0 && c.name == c.comboId && c.quantity > 0
    ensures b.paymentMethod == if data.paymentMethod == "" then "momo" else data.paymentMethod
  {
    var authId := AuthUserId(user, data);
    var seats := if data.selectedSeats.Some? then
      seq(|data.selectedSeats.value|, i requires 0 <= i < |data.selectedSeats.value| => SeatLineOf(data.selectedSeats.value[i]))
    else [];
    BookingModel.Booking(
      userId := if BookingModel.IsValidObjectId(authId) then Some(authId) else None,
      userEmail := Some(ContactEmail(user, data, lock)),
      showtimeId := lock.showtimeId,
      movieTitle := data.movieTitle,
      moviePoster := data.moviePoster,
      cinemaInfo := BookingModel.CinemaInfo(data.systemName, data.clusterName, data.hallName),
      showtimeInfo := BookingModel.ShowtimeInfo(data.date, data.startTime, data.endTime),
      seats := seats,
      combos := ComboLines(data.selectedCombos),
      total := NumberCast(data.total),
      paymentMethod := if data.paymentMethod == "" then "momo" else data.paymentMethod,
      paymentStatus := Some("paid"),
      bookingStatus := Some("confirmed"),
      bookingCode := "BK" + codeTail)
  }

  /** A selected seat yields a line item the schema accepts. */
  predicate SeatInputAccepted(s: SeatInput) {
    match s
    case SeatCode(c) => c != ""
    case SeatObject(n, t, p) => n != "" && (t == "" || t in BookingModel.SeatTypes) && p.Num?
  }

  /** The client data and the lock give a document the schema accepts: a valid ObjectId for the user,
      the required strings present, every seat accepted, and a known payment method (or none). */
  predicate BuildAccepted(lock: SeatLock, data: BookingData, user: Option<AuthUser>) {
    && BookingModel.IsValidObjectId(AuthUserId(user, data))
    && lock.showtimeId != ""
    && data.movieTitle != ""
    && data.date != "" && data.startTime != "" && data.endTime != ""
    && (data.selectedSeats.Some? ==>
          forall i :: 0 <= i < |data.selectedSeats.value| ==> SeatInputAccepted(data.selectedSeats.value[i]))
    && data.total.Num?
    && (data.paymentMethod == "" || data.paymentMethod in BookingModel.PaymentMethods)
  }

  /** Every seat whose number the lock holds becomes "occupied"; every other seat is left as it was. */
  function MarkOccupied(seats: seq<Seat>, held: seq<string>): (r: seq<Seat>)
    ensures |r| == |seats|
    ensures forall i :: 0 <= i < |seats| ==>
      && r[i].seatNumber == seats[i].seatNumber && r[i].seatType == seats[i].seatType
      && (r[i].status == Occupied <==> seats[i].seatNumber in held || seats[i].status == Occupied)
      && (seats[i].seatNumber !in held ==> r[i] == seats[i])
  {
    seq(|seats|, i requires 0 <= i < |seats| =>
      if seats[i].seatNumber in held then seats[i].(status := Occupied) else seats[i])
  }

  /** The showtime after the seat update, written back to whichever list it was read from. */
  function CommitSeats(sh: Showtime, held: seq<string>): (r: Showtime)
    ensures SeatsMarked(sh, r, held)
  {
    if sh.seatData.Some? then sh.(seatData := Some(MarkOccupied(sh.seatData.value, held)))
    else sh.(seats := MarkOccupied(sh.seats, held))
  }

  /** `after` is `before` with exactly the held seats set to "occupied", in the list confirmBooking uses. */
  ghost predicate SeatsMarked(before: Showtime, after: Showtime, held: seq<string>) {
    && after.seatData.Some? == before.seatData.Some?
    && (before.seatData.Some? ==> after.seats == before.seats)
    && |ConfirmView(after)| == |ConfirmView(before)|
    && forall i :: 0 <= i < |ConfirmView(before)| ==>
         && ConfirmView(after)[i].seatNumber == ConfirmView(before)[i].seatNumber
         && ConfirmView(after)[i].seatType == ConfirmView(before)[i].seatType
         && ConfirmView(after)[i].status
            == if ConfirmView(before)[i].seatNumber in held then Occupied else ConfirmView(before)[i].status
  }

  /** The lock `findById` returns: the first with the given id. */
  function LockIndex(locks: seq<SeatLock>, lockId: nat): (r: Option<nat>)
    ensures r.Some? ==> r.value < |locks| && locks[r.value].id == lockId
    ensures r.Some? ==> forall j :: 0 <= j < r.value ==> locks[j].id != lockId
    ensures r.None? <==> forall j :: 0 <= j < |locks| ==> locks[j].id != lockId
  {
    FindIndex(locks, (l: SeatLock) => l.id == lockId)
  }

  /** The mutations confirmBooking applies before it builds the booking: lock `k`'s seats occupied in
      its showtime, lock `k` inactive, everything else unchanged. */
  ghost predicate Committed(st: State, st': State, k: nat) {
    && k < |st.locks|
    && var sid := st.locks[k].showtimeId;
       && sid in st.showtimes && sid in st'.showtimes
       && SeatsMarked(st.showtimes[sid], st'.showtimes[sid], st.locks[k].seatNumbers)
       && st'.showtimes == st.showtimes[sid := st'.showtimes[sid]]
       && st'.locks == st.locks[k := st.locks[k].(isActive := false)]
       && st'.nextLockId == st.nextLockId
  }

  /** `confirmBooking`: mark the lock's seats occupied, deactivate the lock, then try to store the
      booking built from the client data. The first two happen whether or not the third succeeds,
      and whatever the lock's `isActive` flag or expiry. */
  function ConfirmBooking(st: State, req: ConfirmRequest, codeTail: string, now: int): (out: (State, ConfirmResponse))
    ensures out.1.ConfirmBadRequest? <==> req.lockId.None? || req.bookingData.None?
    ensures out.1.ConfirmBadRequest? ==> out.0 == st
    ensures out.1.ConfirmLockNotFound? <==>
      req.lockId.Some? && req.bookingData.Some? && forall j :: 0 <= j < |st.locks| ==> st.locks[j].id != req.lockId.value
    ensures out.1.ConfirmShowtimeNotFound? <==>
      && req.lockId.Some? && req.bookingData.Some?
      && LockIndex(st.locks, req.lockId.value).Some?
      && st.locks[LockIndex(st.locks, req.lockId.value).value].showtimeId !in st.showtimes
    ensures out.1.Status() == 400 || out.1.Status() == 404 ==> out.0 == st
    ensures out.1.Status() == 200 || out.1.Status() == 500 ==>
      && req.lockId.Some? && req.bookingData.Some?
      && LockIndex(st.locks, req.lockId.value).Some?
      && Committed(st, out.0, LockIndex(st.locks, req.lockId.value).value)
      && var doc := BuildBooking(st.locks[LockIndex(st.locks, req.lockId.value).value], req.bookingData.value, req.user, codeTail);
         && (out.1.Confirmed? <==>
               BookingModel.Valid(BookingModel.WithDefaults(doc)) && BookingModel.CodeIsFresh(st.bookings, doc.bookingCode))
         && (out.1.Confirmed? ==>
               out.1.bookingCode == doc.bookingCode
               && out.0.bookings == st.bookings + [BookingModel.StoredBooking(BookingModel.WithDefaults(doc), now)])
         && (out.1.ConfirmServerError? ==> out.0.bookings == st.bookings)
  {
    if req.lockId.None? || req.bookingData.None? then (st, ConfirmBadRequest)
    else
      match LockIndex(st.locks, req.lockId.value)
      case None => (st, ConfirmLockNotFound)
      case Some(k) =>
        var lock := st.locks[k];
        if lock.showtimeId !in st.showtimes then (st, ConfirmShowtimeNotFound)
        else
          var st' := st.(showtimes := st.showtimes[lock.showtimeId := CommitSeats(st.showtimes[lock.showtimeId], lock.seatNumbers)],
                         locks := st.locks[k := lock.(isActive := false)]);
          var doc := BuildBooking(lock, req.bookingData.value, req.user, codeTail);
          match BookingModel.Create(st.bookings, doc, now)
          case None => (st', ConfirmServerError)
          case Some(ledger) => (st'.(bookings := ledger), Confirmed(doc.bookingCode))
  }
}
