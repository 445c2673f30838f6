/**
  Properties of the seat-hold handlers across calls: the invariant they keep over any
  chronological sequence of requests (no seat in two live holds), what a second unlock or a second
  confirmation does, and what confirmBooking leaves behind when the booking store rejects the
  document it built.
 */
module SeatLockProperties {
  import opened Wrappers
  import opened JsBuiltins
  import BookingModel
  import opened SeatLockController

  /* ---------------------------------------------------------------- requests over time */

  /** One request to one of the four handlers. */
  datatype Call =
    | LockCall(lockReq: LockRequest)
    | LockedSeatsCall(showtimeId: string)
    | UnlockCall(lockId: Option<nat>, userId: string)
    | ConfirmCall(confirmReq: ConfirmRequest, codeTail: string)

  /** The state after one request handled at `now`. */
  function Step(st: State, call: Call, now: int): State {
    match call
    case LockCall(r) => LockSeats(st, r, now).0
    case LockedSeatsCall(_) => st
    case UnlockCall(id, u) => UnlockSeats(st, id, u).0
    case ConfirmCall(r, tail) => ConfirmBooking(st, r, tail, now).0
  }

  /** The state after a sequence of requests, each paired with the clock reading it is handled at. */
  function Run(st: State, trace: seq<(Call, int)>): State
    decreases |trace|
  {
    if trace == [] then st else Run(Step(st, trace[0].0, trace[0].1), trace[1..])
  }

  /** The clock readings never go backwards, starting from `start`. */
  ghost predicate Chronological(start: int, trace: seq<(Call, int)>) {
    && (trace != [] ==> start <= trace[0].1)
    && forall i :: 0 < i < |trace| ==> trace[i - 1].1 <= trace[i].1
  }

  function EndTime(start: int, trace: seq<(Call, int)>): int {
    if trace == [] then start else trace[|trace| - 1].1
  }

  /* ---------------------------------------------------------------- the invariant */

  /** Holds only lapse as time passes: a lock live later was live earlier. */
  lemma ExclusiveLater(locks: seq<SeatLock>, now: int, later: int)
    requires Exclusive(locks, now)
    requires now <= later
    ensures Exclusive(locks, later)
  {
  }

  /** lockSeats keeps lock ids unique and never lets two live locks on a showtime share a seat. */
  lemma LockSeatsPreservesInv(st: State, req: LockRequest, now: int)
    requires Inv(st, now)
    ensures Inv(LockSeats(st, req, now).0, now)
  {
    var out := LockSeats(st, req, now);
    if out.1.Locked? {
      forall x | x in req.seatNumbers ensures !SeatHeld(st.locks, req.showtimeId, x, now) {
        assert !Unavailable(st, req.showtimeId, x, now);
      }
      AcquirePreservesInv(st, req, now);
    }
  }

  /** The writes of a successful lockSeats keep the invariant when no requested seat is held. */
  lemma AcquirePreservesInv(st: State, req: LockRequest, now: int)
    requires Inv(st, now)
    requires forall x :: x in req.seatNumbers ==> !SeatHeld(st.locks, req.showtimeId, x, now)
    ensures Inv(Acquire(st, req, now), now)
  {
    var st' := Acquire(st, req, now);
    assert Acquired(st, st', req, now);
    AppendFreshLockKeepsExclusive(st.locks, st'.locks, now);
  }

  /** Appending a live lock whose seats no live lock on its showtime holds keeps `Exclusive`, provided
      the older locks only lose liveness. */
  lemma AppendFreshLockKeepsExclusive(locks: seq<SeatLock>, locks': seq<SeatLock>, now: int)
    requires Exclusive(locks, now)
    requires |locks'| == |locks| + 1
    requires forall i :: 0 <= i < |locks| ==>
               locks'[i].showtimeId == locks[i].showtimeId && locks'[i].seatNumbers == locks[i].seatNumbers
               && (LiveAt(locks'[i], now) ==> LiveAt(locks[i], now))
    requires forall x :: x in locks'[|locks|].seatNumbers ==> !SeatHeld(locks, locks'[|locks|].showtimeId, x, now)
    ensures Exclusive(locks', now)
  {
    var n := |locks|;
    var added := locks'[n];
    forall i, j | 0 <= i < |locks'| && 0 <= j < |locks'| && i != j
                  && LiveAt(locks'[i], now) && LiveAt(locks'[j], now)
                  && locks'[i].showtimeId == locks'[j].showtimeId
      ensures Disjoint(locks'[i].seatNumbers, locks'[j].seatNumbers)
    {
      if i < n && j < n {
        assert LiveAt(locks[i], now) && LiveAt(locks[j], now);
      } else if i == n {
        var l := locks[j];
        assert LiveOn(l, added.showtimeId, now);
        forall x | x in added.seatNumbers ensures x !in l.seatNumbers {
          if x in l.seatNumbers {
            assert SeatHeld(locks, added.showtimeId, x, now);
          }
        }
      } else {
        var l := locks[i];
        assert LiveOn(l, added.showtimeId, now);
        forall x | x in l.seatNumbers ensures x !in added.seatNumbers {
          if x in added.seatNumbers {
            assert SeatHeld(locks, added.showtimeId, x, now);
          }
        }
      }
    }
  }

  /** Clearing one lock's `isActive` flag keeps ids unique and live locks disjoint. */
  lemma DeactivateKeepsLockTable(st: State, st': State, k: nat, now: int)
    requires k < |st.locks| && WellFormed(st) && Exclusive(st.locks, now)
    requires st'.locks == st.locks[k := st.locks[k].(isActive := false)]
    requires st'.nextLockId == st.nextLockId
    ensures WellFormed(st') && Exclusive(st'.locks, now)
  {
    assert forall i :: 0 <= i < |st.locks| && LiveAt(st'.locks[i], now) ==> LiveAt(st.locks[i], now);
  }

  /** unlockSeats only ever clears an `isActive` flag, so it keeps the invariant. */
  lemma UnlockPreservesInv(st: State, lockId: Option<nat>, userId: string, now: int)
    requires Inv(st, now)
    ensures Inv(UnlockSeats(st, lockId, userId).0, now)
  {
    var out := UnlockSeats(st, lockId, userId);
    if out.1.Unlocked? {
      var k :| 0 <= k < |st.locks| && Unlockable(st.locks[k], lockId.value, userId)
               && out.0 == st.(locks := st.locks[k := st.locks[k].(isActive := false)]);
      DeactivateKeepsLockTable(st, out.0, k, now);
    }
  }

  /** confirmBooking clears one `isActive` flag and appends at most one valid booking with a fresh
      code, so it keeps the invariant. */
  lemma ConfirmPreservesInv(st: State, req: ConfirmRequest, codeTail: string, now: int)
    requires Inv(st, now)
    ensures Inv(ConfirmBooking(st, req, codeTail, now).0, now)
  {
    var out := ConfirmBooking(st, req, codeTail, now);
    if out.1.Status() == 200 || out.1.Status() == 500 {
      var k := LockIndex(st.locks, req.lockId.value).value;
      assert Committed(st, out.0, k);
      DeactivateKeepsLockTable(st, out.0, k, now);
      if out.1.Confirmed? {
        var doc := BuildBooking(st.locks[k], req.bookingData.value, req.user, codeTail);
        BookingModel.CreatePreservesLedger(st.bookings, doc, now);
      }
    }
  }

  lemma StepPreservesInv(st: State, call: Call, now: int)
    requires Inv(st, now)
    ensures Inv(Step(st, call, now), now)
  {
    match call
    case LockCall(r) => LockSeatsPreservesInv(st, r, now);
    case LockedSeatsCall(_) =>
    case UnlockCall(id, u) => UnlockPreservesInv(st, id, u, now);
    case ConfirmCall(r, tail) => ConfirmPreservesInv(st, r, tail, now);
  }

  /** Any chronological sequence of requests keeps the invariant. */
  lemma {:induction false} RunPreservesInv(st: State, start: int, trace: seq<(Call, int)>)
    requires Inv(st, start)
    requires Chronological(start, trace)
    ensures Inv(Run(st, trace), EndTime(start, trace))
    decreases |trace|
  {
    if trace != [] {
      var t := trace[0].1;
      assert start <= t;
      ExclusiveLater(st.locks, start, t);
      StepPreservesInv(st, trace[0].0, t);
      var rest := trace[1..];
      assert Chronological(t, rest) by {
        if rest != [] {
          assert rest[0] == trace[1];
        }
        forall i | 0 < i < |rest|
          ensures rest[i - 1].1 <= rest[i].1
        {
          assert rest[i] == trace[i + 1] && rest[i - 1] == trace[i];
        }
      }
      RunPreservesInv(Step(st, trace[0].0, t), t, rest);
      assert EndTime(t, rest) == EndTime(start, trace);
    }
  }

  /** From an empty lock table, at every point of a chronological run, no seat of a showtime lies in
      two distinct locks that are both live at that moment, and the booking codes are unique. */
  lemma LiveLocksNeverOverlap(showtimes: map<string, Showtime>, start: int, trace: seq<(Call, int)>)
    requires Chronological(start, trace)
    ensures Exclusive(Run(Init(showtimes), trace).locks, EndTime(start, trace))
    ensures BookingModel.UniqueCodes(Run(Init(showtimes), trace).bookings)
  {
    RunPreservesInv(Init(showtimes), start, trace);
  }

  /* ---------------------------------------------------------------- lockSeats */

  /** A hold acquired by lockSeats: the whole request, the caller's identity, a lifetime of exactly
      ten minutes, and only the caller's own stale locks on the showtime deactivated. */
  lemma LockSeatsSuccess(st: State, req: LockRequest, now: int)
    requires LockSeats(st, req, now).1.Locked?
    ensures var st' := LockSeats(st, req, now).0;
      && |st'.locks| == |st.locks| + 1
      && (var l := st'.locks[|st.locks|];
          && l.seatNumbers == req.seatNumbers && l.userId == req.userId && l.userEmail == req.userEmail
          && l.isActive && l.expiresAt == now + 600000)
      && LockSeats(st, req, now).1.expiresIn == 600
      && forall i :: 0 <= i < |st.locks| && st'.locks[i] != st.locks[i] ==>
           && st.locks[i].userId == req.userId && st.locks[i].showtimeId == req.showtimeId
           && st.locks[i].isActive && st.locks[i].expiresAt < now
           && st'.locks[i] == st.locks[i].(isActive := false)
  {
    assert Acquired(st, LockSeats(st, req, now).0, req, now);
  }

  /** A lock whose expiry equals the clock reading is neither a conflict (that needs expiresAt > now)
      nor cleaned up (that needs expiresAt < now): it stays active, blocking nothing. */
  lemma ExpiryInstantLockUntouched(st: State, req: LockRequest, now: int, i: nat)
    requires i < |st.locks|
    requires st.locks[i].isActive && st.locks[i].expiresAt == now
    requires LockSeats(st, req, now).1.Locked?
    ensures !LiveAt(st.locks[i], now)
    ensures LockSeats(st, req, now).0.locks[i] == st.locks[i]
  {
    assert Acquired(st, LockSeats(st, req, now).0, req, now);
  }

  /** The 409 list starts with the taken seats, in seat-list order and each once; the seats held
      by live locks follow. */
  lemma ConflictsListTakenFirst(sh: Showtime, locks: seq<SeatLock>, showtimeId: string, requested: seq<string>, now: int)
    ensures Dedup(TakenRequested(LockView(sh), requested)) <= Conflicts(sh, locks, showtimeId, requested, now)
  {
    var taken := TakenRequested(LockView(sh), requested);
    var both := taken + LockedRequested(locks, showtimeId, requested, now);
    assert both[..|taken|] == taken;
    DedupExtends(both, |taken|);
  }

  /** A request that repeats a seat number is not refused for it: the lock stores the repeat. */
  lemma DuplicateSeatsAccepted(now: int)
    ensures var st := Init(map["s1" := Showtime(Some([]), [])]);
      var out := LockSeats(st, LockRequest("s1", ["A1", "A1"], "u1", "u1@mail"), now);
      out.1.Locked? && out.0.locks[0].seatNumbers == ["A1", "A1"]
  {
    var st := Init(map["s1" := Showtime(Some([]), [])]);
    var req := LockRequest("s1", ["A1", "A1"], "u1", "u1@mail");
    forall x | x in req.seatNumbers ensures !Unavailable(st, "s1", x, now) {
    }
    assert Acquired(st, LockSeats(st, req, now).0, req, now);
  }

  /** Once every lock covering the requested seats has lapsed and none of them is taken in the seat
      list, another user acquires the same seats. */
  lemma ReacquireAfterExpiry(st: State, req: LockRequest, now: int)
    requires !MissingInput(req) && req.showtimeId in st.showtimes
    requires forall s :: s in LockView(st.showtimes[req.showtimeId]) && s.seatNumber in req.seatNumbers ==> !IsTaken(s)
    requires forall l :: (l in st.locks && l.showtimeId == req.showtimeId && l.isActive
                          && exists x :: x in l.seatNumbers && x in req.seatNumbers) ==> l.expiresAt <= now
    ensures LockSeats(st, req, now).1.Locked?
  {
    forall x | x in req.seatNumbers ensures !Unavailable(st, req.showtimeId, x, now) {
    }
  }

  /* ---------------------------------------------------------------- unlockSeats */

  /** Unlocking the same lock a second time is refused with 404: ids are unique, and the only lock
      with that id is now inactive. */
  lemma UnlockTwiceFails(st: State, lockId: nat, userId: string)
    requires WellFormed(st)
    requires UnlockSeats(st, Some(lockId), userId).1.Unlocked?
    ensures var st' := UnlockSeats(st, Some(lockId), userId).0;
      UnlockSeats(st', Some(lockId), userId) == (st', UnlockNotFound)
  {
    var st' := UnlockSeats(st, Some(lockId), userId).0;
    var k :| 0 <= k < |st.locks| && Unlockable(st.locks[k], lockId, userId)
             && st' == st.(locks := st.locks[k := st.locks[k].(isActive := false)]);
    forall i | 0 <= i < |st'.locks| ensures !Unlockable(st'.locks[i], lockId, userId) {
      if i != k {
        assert st.locks[i].id != st.locks[k].id by {
          if i < k { assert st.locks[i].id != st.locks[k].id; } else { assert st.locks[k].id != st.locks[i].id; }
        }
      }
    }
  }

  /** Expiry is no part of unlockSeats: the holder can release a lapsed lock that is still flagged active. */
  lemma UnlockIgnoresExpiry(st: State, k: nat, now: int)
    requires k < |st.locks| && st.locks[k].isActive && st.locks[k].userId != ""
    requires st.locks[k].expiresAt <= now
    ensures UnlockSeats(st, Some(st.locks[k].id), st.locks[k].userId).1.Unlocked?
  {
    assert Unlockable(st.locks[k], st.locks[k].id, st.locks[k].userId);
  }

  /* ---------------------------------------------------------------- confirmBooking */

  /** The built seat line is accepted by the schema exactly when the selected seat is. */
  lemma SeatLineAccepted(s: SeatInput)
    ensures BookingModel.ValidSeatLine(SeatLineOf(s)) <==> SeatInputAccepted(s)
  {
  }

  /** The document confirmBooking builds passes the schema exactly when the user id is a valid
      ObjectId, the required strings are present, every selected seat has a number and a known type,
      and the payment method is known or absent. */
  lemma BuildAcceptedIff(lock: SeatLock, data: BookingData, user: Option<AuthUser>, codeTail: string)
    ensures BookingModel.Valid(BookingModel.WithDefaults(BuildBooking(lock, data, user, codeTail)))
            <==> BuildAccepted(lock, data, user)
  {
    var b := BuildBooking(lock, data, user, codeTail);
    var d := BookingModel.WithDefaults(b);
    assert d.seats == b.seats;
    if data.selectedSeats.Some? {
      var sel := data.selectedSeats.value;
      assert forall i :: 0 <= i < |sel| ==> b.seats[i] == SeatLineOf(sel[i]);
      forall i | 0 <= i < |sel| ensures BookingModel.ValidSeatLine(b.seats[i]) <==> SeatInputAccepted(sel[i]) {
        SeatLineAccepted(sel[i]);
      }
    }
    assert b.bookingCode != "" by { assert |b.bookingCode| >= 2; }
  }

  /** When the store rejects the built document, confirmBooking answers 500, stores no booking, and
      has nonetheless marked the lock's seats occupied and deactivated the lock. */
  lemma RejectedBookingKeepsMutation(st: State, req: ConfirmRequest, codeTail: string, now: int)
    requires req.lockId.Some? && req.bookingData.Some?
    requires LockIndex(st.locks, req.lockId.value).Some?
    requires st.locks[LockIndex(st.locks, req.lockId.value).value].showtimeId in st.showtimes
    requires !BuildAccepted(st.locks[LockIndex(st.locks, req.lockId.value).value], req.bookingData.value, req.user)
    ensures var out := ConfirmBooking(st, req, codeTail, now);
      && out.1 == ConfirmServerError
      && out.0.bookings == st.bookings
      && Committed(st, out.0, LockIndex(st.locks, req.lockId.value).value)
  {
    var k := LockIndex(st.locks, req.lockId.value).value;
    BuildAcceptedIff(st.locks[k], req.bookingData.value, req.user, codeTail);
  }

  /** An authenticated id that is not an ObjectId makes `userId` null: the booking is refused after the
      seats were marked and the lock was deactivated. */
  lemma InvalidUserIdStillMarksSeats(st: State, req: ConfirmRequest, codeTail: string, now: int)
    requires req.lockId.Some? && req.bookingData.Some?
    requires LockIndex(st.locks, req.lockId.value).Some?
    requires st.locks[LockIndex(st.locks, req.lockId.value).value].showtimeId in st.showtimes
    requires !BookingModel.IsValidObjectId(AuthUserId(req.user, req.bookingData.value))
    ensures var out := ConfirmBooking(st, req, codeTail, now);
      && out.1 == ConfirmServerError && out.0.bookings == st.bookings
      && !out.0.locks[LockIndex(st.locks, req.lockId.value).value].isActive
      && Committed(st, out.0, LockIndex(st.locks, req.lockId.value).value)
  {
    RejectedBookingKeepsMutation(st, req, codeTail, now);
  }

  /** A selected seat whose type is neither "regular" nor "vip" fails the enumeration in the same way. */
  lemma UnknownSeatTypeStillMarksSeats(st: State, req: ConfirmRequest, codeTail: string, now: int, i: nat)
    requires req.lockId.Some? && req.bookingData.Some?
    requires LockIndex(st.locks, req.lockId.value).Some?
    requires st.locks[LockIndex(st.locks, req.lockId.value).value].showtimeId in st.showtimes
    requires req.bookingData.value.selectedSeats.Some? && i < |req.bookingData.value.selectedSeats.value|
    requires req.bookingData.value.selectedSeats.value[i].SeatObject?
    requires req.bookingData.value.selectedSeats.value[i].seatType !in {"", "regular", "vip"}
    ensures var out := ConfirmBooking(st, req, codeTail, now);
      && out.1 == ConfirmServerError && out.0.bookings == st.bookings
      && !out.0.locks[LockIndex(st.locks, req.lockId.value).value].isActive
  {
    assert !SeatInputAccepted(req.bookingData.value.selectedSeats.value[i]);
    RejectedBookingKeepsMutation(st, req, codeTail, now);
  }

  /** A total that converts to NaN fails the Number cast of `total` in the same way. */
  lemma NaNTotalStillMarksSeats(st: State, req: ConfirmRequest, codeTail: string, now: int)
    requires req.lockId.Some? && req.bookingData.Some?
    requires LockIndex(st.locks, req.lockId.value).Some?
    requires st.locks[LockIndex(st.locks, req.lockId.value).value].showtimeId in st.showtimes
    requires req.bookingData.value.total.NaN?
    ensures var out := ConfirmBooking(st, req, codeTail, now);
      && out.1 == ConfirmServerError && out.0.bookings == st.bookings
      && !out.0.locks[LockIndex(st.locks, req.lockId.value).value].isActive
      && Committed(st, out.0, LockIndex(st.locks, req.lockId.value).value)
  {
    RejectedBookingKeepsMutation(st, req, codeTail, now);
  }

  /** confirmBooking checks neither the lock's flag nor its expiry: an inactive or lapsed lock whose
      showtime exists still has its seats marked and reaches the booking store. */
  lemma ConfirmIgnoresLockState(st: State, req: ConfirmRequest, codeTail: string, now: int)
    requires req.lockId.Some? && req.bookingData.Some?
    requires LockIndex(st.locks, req.lockId.value).Some?
    requires !LiveAt(st.locks[LockIndex(st.locks, req.lockId.value).value], now)
    requires st.locks[LockIndex(st.locks, req.lockId.value).value].showtimeId in st.showtimes
    ensures var out := ConfirmBooking(st, req, codeTail, now);
      (out.1.Confirmed? || out.1 == ConfirmServerError) && Committed(st, out.0, LockIndex(st.locks, req.lockId.value).value)
  {
  }

  /** Because the lock's liveness is not checked, confirming a lapsed lock marks "occupied" a seat that
      another user's live lock holds: the seat ends up both sold and held. */
  lemma ConfirmMaySellHeldSeat(st: State, req: ConfirmRequest, codeTail: string, now: int, j: nat, s: nat)
    requires req.lockId.Some? && req.bookingData.Some?
    requires LockIndex(st.locks, req.lockId.value).Some?
    requires var k := LockIndex(st.locks, req.lockId.value).value;
      && j < |st.locks| && j != k
      && st.locks[k].showtimeId in st.showtimes
      && LiveOn(st.locks[j], st.locks[k].showtimeId, now)
      && s < |ConfirmView(st.showtimes[st.locks[k].showtimeId])|
      && ConfirmView(st.showtimes[st.locks[k].showtimeId])[s].seatNumber in st.locks[k].seatNumbers
      && ConfirmView(st.showtimes[st.locks[k].showtimeId])[s].seatNumber in st.locks[j].seatNumbers
    ensures var out := ConfirmBooking(st, req, codeTail, now);
      var sid := st.locks[LockIndex(st.locks, req.lockId.value).value].showtimeId;
      && ConfirmView(out.0.showtimes[sid])[s].status == Occupied
      && LiveOn(out.0.locks[j], sid, now)
      && ConfirmView(out.0.showtimes[sid])[s].seatNumber in out.0.locks[j].seatNumbers
  {
    var k := LockIndex(st.locks, req.lockId.value).value;
    assert Committed(st, ConfirmBooking(st, req, codeTail, now).0, k);
  }

  /** confirmBooking stores the booking whenever its lock and showtime are found and the built
      document passes the schema with a fresh code. */
  lemma ConfirmStores(st: State, req: ConfirmRequest, codeTail: string, now: int, k: nat)
    requires req.lockId.Some? && req.bookingData.Some?
    requires LockIndex(st.locks, req.lockId.value) == Some(k)
    requires st.locks[k].showtimeId in st.showtimes
    requires BookingModel.Valid(BookingModel.WithDefaults(BuildBooking(st.locks[k], req.bookingData.value, req.user, codeTail)))
    requires BookingModel.CodeIsFresh(st.bookings, "BK" + codeTail)
    ensures var out := ConfirmBooking(st, req, codeTail, now);
      && out.1 == Confirmed("BK" + codeTail)
      && out.0.bookings
         == st.bookings + [BookingModel.StoredBooking(BookingModel.WithDefaults(BuildBooking(st.locks[k], req.bookingData.value, req.user, codeTail)), now)]
      && Committed(st, out.0, k)
  {
  }

  /** `findById` still finds a lock after its `isActive` flag is cleared. */
  lemma DeactivatedStillFound(locks: seq<SeatLock>, id: nat, k: nat)
    requires LockIndex(locks, id) == Some(k)
    ensures LockIndex(locks[k := locks[k].(isActive := false)], id) == Some(k)
  {
    var locks' := locks[k := locks[k].(isActive := false)];
    assert locks'[k].id == id;
    assert forall j :: 0 <= j < k ==> locks'[j] == locks[j];
  }

  /** The booking document does not depend on whether the lock is still active; only the code differs. */
  lemma BuildIgnoresActive(lock: SeatLock, data: BookingData, user: Option<AuthUser>, tail1: string, tail2: string)
    ensures BuildBooking(lock.(isActive := false), data, user, tail2)
            == BuildBooking(lock, data, user, tail1).(bookingCode := "BK" + tail2)
  {
  }

  /** A lock can be confirmed twice: the second call finds the (now inactive) lock, marks the same seats
      again and stores a second booking for them, provided its code is fresh. */
  lemma ConfirmTwiceBooksTwice(st: State, req: ConfirmRequest, tail1: string, tail2: string, now: int)
    requires WellFormed(st)
    requires ConfirmBooking(st, req, tail1, now).1.Confirmed?
    requires tail1 != tail2
    requires BookingModel.CodeIsFresh(st.bookings, "BK" + tail2)
    ensures var st1 := ConfirmBooking(st, req, tail1, now).0;
      var out2 := ConfirmBooking(st1, req, tail2, now);
      out2.1.Confirmed? && |out2.0.bookings| == |st.bookings| + 2
  {
    var id := req.lockId.value;
    var k := LockIndex(st.locks, id).value;
    var data := req.bookingData.value;
    var doc1 := BuildBooking(st.locks[k], data, req.user, tail1);
    ConfirmStores(st, req, tail1, now, k);
    var st1 := ConfirmBooking(st, req, tail1, now).0;
    assert Committed(st, st1, k);
    assert st1.locks == st.locks[k := st.locks[k].(isActive := false)];
    DeactivatedStillFound(st.locks, id, k);
    BuildIgnoresActive(st.locks[k], data, req.user, tail1, tail2);
    BuildAcceptedIff(st.locks[k], data, req.user, tail1);
    BuildAcceptedIff(st1.locks[k], data, req.user, tail2);
    assert "BK" + tail1 != "BK" + tail2 by {
      assert ("BK" + tail1)[2..] == tail1 && ("BK" + tail2)[2..] == tail2;
    }
    assert st1.bookings == st.bookings + [BookingModel.StoredBooking(BookingModel.WithDefaults(doc1), now)];
    assert BookingModel.CodeIsFresh(st1.bookings, "BK" + tail2);
    ConfirmStores(st1, req, tail2, now, k);
  }
}
