# Cinema seat holds and bookings, modelled in Dafny

This project models the booking core of a cinema ticketing back end:

- **Seat holds.** A customer holds seats of a showtime for ten minutes (`lockSeats`). The seats held on a showtime can be listed (`getLockedSeats`). A hold can be released by its owner (`unlockSeats`). A hold is turned into a paid booking (`confirmBooking`).
- **Booking schema.** The schema every stored booking satisfies.
- **Seat grid.** The grid of a showtime's auditorium, with reserved seats marked (`getSeatsForShowtime`).
- **Legacy booking endpoints.** `createBooking` and `listMyBookings`.

Each HTTP handler is a pure function from a state, a request and the clock reading `now` (milliseconds) to a new state and a response. The state holds:

- the showtime table;
- the seat-lock table;
- a lock-id counter, which stands for the database's id generator;
- the booking collection.

A request string that is missing and one that is empty are both written `""` where the handlers test it for JavaScript falsiness or the schema marks it `required`. A value that is passed on untested to a schema path with a default (the movie poster and the three cinema names) is an `Option` instead. Mongoose fills a default only for an absent value and stores an empty string as given. A `Number(..)` conversion is `NaN` or a whole number.

Files:

- `wrappers.dfy`: `Option`.
- `js_builtins.dfy`: the results of `Number(..)`, and `Array.from(new Set(..))`, `filter` and `findIndex` as functions on sequences.
- `booking_model.dfy`: the schema of `src/model/Booking.js`. It covers defaults, required fields, enumerations, the unique booking code and `Booking.create`.
- `seat_lock_controller.dfy`: the four handlers of `src/controller/seatLockController.js`.
- `seat_lock_properties.dfy`: traces of requests and the invariant they preserve. Also the behaviours the code has on purpose or by accident.
- `showtime_controller.dfy`: `getSeatsForShowtime` and its seat codes, in UTF-16 code units.
- `booking_controller.dfy`: `createBooking` (as written and as intended) and `listMyBookings`.

Behaviours of the code worth knowing:

- `lockSeats` accepts a request that names a seat twice.
- `confirmBooking` does not check whether the lock is still active or unexpired.
- `confirmBooking` does not check who holds the lock.
- `confirmBooking` does not check whether the seats were sold meanwhile.
- `confirmBooking` takes the client's total as given.
- `unlockSeats` answers 404 for a lock that is already inactive; it is not idempotent.
- `confirmBooking` marks the seats occupied and deactivates the lock before it stores the booking. So a booking the schema refuses still leaves those two changes behind, and the handler answers 500.

## Model

| member | source | states |
|---|---|---|
| JsBuiltins.Dedup | src/controller/seatLockController.js:54-56 | The de-duplicated list holds each element of the input exactly once: same members, no repeats, never longer. |
| JsBuiltins.Filter | src/controller/seatLockController.js:31-37 | The filtered list keeps exactly the elements satisfying the predicate, each as often as in the input. |
| JsBuiltins.DedupExtends | src/controller/seatLockController.js:54-56 | De-duplicating a longer prefix only appends, so the list keeps the order of first occurrence. |
| JsBuiltins.FindIndex | src/controller/seatLockController.js:131-134 | The index found is the first whose element matches; None exactly when nothing matches. |
| BookingModel.WithDefaults | src/model/Booking.js:11-87 | An absent e-mail, poster, cinema name, payment status or booking status gets its schema default. A given value, even an empty string, is kept. No other field changes. |
| BookingModel.WithDefaultsIdempotent | src/model/Booking.js:11-87 | Applying the defaults twice gives the same document as once. |
| BookingModel.Create | src/model/Booking.js:6-104 | `Booking.create` stores a document exactly when, after defaults, every required field is present, every enumeration holds and the booking code is not yet in the collection. The document is appended with its creation time; otherwise nothing changes. |
| BookingModel.CreatePreservesLedger | src/model/Booking.js:93-97 | Every stored document stays valid and all booking codes stay pairwise distinct after a successful create. |
| SeatLockController.TakenRequested | src/controller/seatLockController.js:26-38 | The occupied set holds exactly the requested seats the seat list marks occupied or sold. |
| SeatLockController.LockedRequested | src/controller/seatLockController.js:40-52 | The locked set holds exactly the requested seats held by an active, unexpired lock of the same showtime. |
| SeatLockController.Conflicts | src/controller/seatLockController.js:54-56 | The conflict list names each requested seat that is taken or held exactly once, and no other seat. |
| SeatLockController.ExpireStale | src/controller/seatLockController.js:65-68 | The cleanup keeps every lock in place and changes only the active flag. A lock is active afterwards exactly when it was active and is not one of the caller's locks on the showtime that expired strictly before `now`. |
| SeatLockController.Acquire | src/controller/seatLockController.js:64-78 | A successful hold deactivates exactly the caller's stale locks on the showtime, appends one active lock for the whole request expiring ten minutes later, and changes nothing else. |
| SeatLockController.LockSeats | src/controller/seatLockController.js:10-93 | 400 exactly when the showtime, seats, user id or e-mail is missing, with the matching reason. 404 exactly for an unknown showtime. 409 with the conflict list exactly when some requested seat is taken or held. Otherwise the hold is created with `expiresIn` 600. Every refusal leaves the state unchanged. |
| SeatLockController.Entries | src/controller/seatLockController.js:109-114 | One entry per seat number of a lock, each carrying the lock's holder, e-mail and expiry. |
| SeatLockController.LockedSeatList | src/controller/seatLockController.js:102-115 | The flattened list has one entry per seat of each live lock on the showtime, and every entry describes such a lock. |
| SeatLockController.GetLockedSeats | src/controller/seatLockController.js:96-122 | 400 exactly for a missing showtime id. Otherwise the list holds exactly the seats of the live locks on the showtime, as many entries as those locks have seats. |
| SeatLockController.UnlockSeats | src/controller/seatLockController.js:125-146 | 400 exactly when the lock id or user id is missing. The hold is released exactly when an active lock with that id belongs to that user; only that lock's flag changes. Otherwise the answer is 404 with no change. |
| SeatLockController.ComboLines | src/controller/seatLockController.js:206-213 | The combo lines are exactly the entries with positive quantity, each named after its id and priced 0. |
| SeatLockController.AuthUserId | src/controller/seatLockController.js:153-154 | The authenticated user's id when there is one, otherwise the client's `userId`. |
| SeatLockController.ContactEmail | src/controller/seatLockController.js:215-216 | The first non-empty of the user's e-mail, the client's e-mail and the lock's e-mail; empty only when all three are. |
| SeatLockController.NumberCast | src/controller/seatLockController.js:202 | A Number path accepts exactly the non-NaN values, unchanged. |
| SeatLockController.SeatLineOf | src/controller/seatLockController.js:198-204 | A bare seat code becomes a regular seat priced 0. A seat object keeps its number and its type, or "regular" when it has none. Its price (0 when absent) is kept when numeric and is absent when NaN. |
| SeatLockController.BuildBooking | src/controller/seatLockController.js:153-242 | The booking built from a lock has the following fields. The code starts with "BK" and the statuses are paid/confirmed. The total is the client's, absent when NaN. The showtime comes from the lock. Title, poster, cinema names and times are the client's. The e-mail is the contact e-mail. Seats are one `SeatLineOf` line per selected seat. Combos are exactly the positive-quantity entries, priced 0. The payment method is the client's, or "momo". The user id is the resolved id, present exactly when it is an ObjectId. |
| SeatLockController.MarkOccupied | src/controller/seatLockController.js:177-181 | Each seat keeps its number and type. A seat whose number the lock holds becomes occupied; every other seat is unchanged. |
| SeatLockController.CommitSeats | src/controller/seatLockController.js:173-183 | The update is written back to the list it was read from (`seatData` when that is an array, else `seats`), with exactly the held seats marked occupied. |
| SeatLockController.LockIndex | src/controller/seatLockController.js:164 | The lock found is the first with the requested id; None exactly when there is none. |
| SeatLockController.ConfirmBooking | src/controller/seatLockController.js:149-272 | 400 exactly when the lock id or booking data is missing. 404 exactly when no lock has the id. 404 exactly when the lock is found but its showtime is unknown. These leave the state unchanged. Otherwise the lock's seats become occupied and the lock inactive, whatever its prior state. The answer is 200 with the code exactly when the built booking is valid and its code fresh, in which case it is appended; otherwise 500 with no booking stored. |
| SeatLockProperties.ConflictsListTakenFirst | src/controller/seatLockController.js:54-56 | The 409 list starts with the taken seats, each once, in seat-list order; the seats held by live locks follow. |
| SeatLockProperties.ExclusiveLater | src/controller/seatLockController.js:43 | A state in which no two live locks share a seat stays so as the clock advances. |
| SeatLockProperties.LockSeatsPreservesInv | src/controller/seatLockController.js:40-78 | `lockSeats` keeps lock ids unique and below the counter, keeps live locks on a showtime seat-disjoint, and keeps the booking collection valid. |
| SeatLockProperties.UnlockPreservesInv | src/controller/seatLockController.js:131-134 | `unlockSeats` keeps the same invariant. |
| SeatLockProperties.ConfirmPreservesInv | src/controller/seatLockController.js:172-242 | `confirmBooking` keeps the same invariant. |
| SeatLockProperties.StepPreservesInv | src/controller/seatLockController.js:10-272 | Any one request keeps the invariant. |
| SeatLockProperties.RunPreservesInv | src/controller/seatLockController.js:10-272 | Any sequence of requests handled in clock order keeps the invariant, read at the time of the last request. |
| SeatLockProperties.LiveLocksNeverOverlap | src/controller/seatLockController.js:40-62 | From an empty lock table and booking collection, no seat is ever held by two live locks on one showtime, and booking codes stay unique. |
| SeatLockProperties.LockSeatsSuccess | src/controller/seatLockController.js:64-86 | A successful hold appends one active lock with the request's seats, user and e-mail, expiring `now + 600000` with `expiresIn` 600. Every other lock that changed was one of the caller's stale locks on the showtime, now inactive. |
| SeatLockProperties.ExpiryInstantLockUntouched | src/controller/seatLockController.js:40-68 | A lock expiring exactly at `now` neither blocks a request nor is cleaned up by it. |
| SeatLockProperties.DuplicateSeatsAccepted | src/controller/seatLockController.js:14-78 | A request naming the same seat twice is accepted and stored as sent. |
| SeatLockProperties.ReacquireAfterExpiry | src/controller/seatLockController.js:29-62 | When no requested seat is taken and every lock holding one has expired by `now`, the hold succeeds. |
| SeatLockProperties.UnlockTwiceFails | src/controller/seatLockController.js:131-139 | Releasing the same hold a second time answers 404. |
| SeatLockProperties.UnlockIgnoresExpiry | src/controller/seatLockController.js:131-134 | The owner can release an active hold even after it expired. |
| SeatLockProperties.SeatLineAccepted | src/controller/seatLockController.js:198-204 | A selected seat yields a schema-valid line item exactly when it has a number and its type is absent, regular or vip. |
| SeatLockProperties.BuildAcceptedIff | src/controller/seatLockController.js:153-242 | The built booking passes the schema exactly when the following all hold: the resolved user id is an ObjectId; title and showtime strings are present; every seat is accepted, with a numeric price; the total is numeric; the payment method is absent or known. |
| SeatLockProperties.RejectedBookingKeepsMutation | src/controller/seatLockController.js:172-242 | When the schema refuses the booking, the answer is 500 and no booking is stored, yet the seats stay occupied and the lock inactive. |
| SeatLockProperties.InvalidUserIdStillMarksSeats | src/controller/seatLockController.js:155-220 | A user id that is not an ObjectId gives 500 after the seats were marked and the lock deactivated. |
| SeatLockProperties.UnknownSeatTypeStillMarksSeats | src/controller/seatLockController.js:198-242 | A seat type other than regular or vip, which the seat sub-schema refuses, gives 500 after the same mutations. |
| SeatLockProperties.NaNTotalStillMarksSeats | src/controller/seatLockController.js:172-242 | A total that converts to NaN gives 500 after the seats were marked and the lock deactivated. |
| SeatLockProperties.ConfirmIgnoresLockState | src/controller/seatLockController.js:164-190 | An expired or inactive lock is still confirmed: its seats become occupied. |
| SeatLockProperties.ConfirmMaySellHeldSeat | src/controller/seatLockController.js:177-181 | Confirming a lock can mark occupied a seat that another live lock still holds. |
| SeatLockProperties.ConfirmStores | src/controller/seatLockController.js:164-242 | With the lock and its showtime found, a valid built booking with a fresh code is appended with its creation time. The answer is 200 with that code, and the seat and lock mutations are in place. |
| SeatLockProperties.ConfirmTwiceBooksTwice | src/controller/seatLockController.js:164-242 | Confirming the same lock twice with fresh codes stores two bookings. |
| ShowtimeController.Digits | src/controller/showtimeController.js:50 | The decimal rendering of a column has at least one character, all of them digits. |
| ShowtimeController.ParseDigits | src/controller/showtimeController.js:50 | Reading the decimal rendering back gives the number. |
| ShowtimeController.DigitsInjective | src/controller/showtimeController.js:50 | Distinct columns render differently. |
| ShowtimeController.SeatCodeRoundTrip | src/controller/showtimeController.js:50 | For every row up to 65471, a seat code decodes back to its row and column. |
| ShowtimeController.RowLetters | src/controller/showtimeController.js:50 | A code starts with the character 64 + row, so row 1 is `A` and row 2 is `B`. |
| ShowtimeController.GridLength | src/controller/showtimeController.js:47-53 | The grid has rows × cols seats, and none when either is not positive. |
| ShowtimeController.GridIndex | src/controller/showtimeController.js:47-53 | The seat in row r, column c sits at index (r-1)·cols + (c-1). |
| ShowtimeController.GridRowMajor | src/controller/showtimeController.js:47-53 | Row-major order for every row and column at once. |
| ShowtimeController.GridReserved | src/controller/showtimeController.js:46-51 | A grid seat is reserved exactly when its code is in the reserved list. |
| ShowtimeController.GridRowLetters | src/controller/showtimeController.js:48-50 | Every grid code starts with a letter from `A` to the row count's letter. |
| ShowtimeController.RowCodesDistinct | src/controller/showtimeController.js:49-51 | The codes within one row are pairwise distinct. |
| ShowtimeController.GridCodesDistinct | src/controller/showtimeController.js:47-53 | All grid codes are pairwise distinct, for row counts up to 65471. |
| ShowtimeController.BuildGrid | src/controller/showtimeController.js:47-53 | The nested loops produce exactly the row-major grid. |
| ShowtimeController.GetSeatsForShowtime | src/controller/showtimeController.js:41-58 | 404 exactly for an unknown showtime. 400 exactly when it has no auditorium. Otherwise the response carries the auditorium's rows and cols and rows × cols seats in row-major order, each reserved exactly when its code is in the reserved list (a missing list counts as empty). |
| BookingController.TotalIsSumOfSeatPrices | src/controller/bookingController.js:33 | Adding the seat price once per seat gives price × seat count. |
| BookingController.CreateBooking | src/controller/bookingController.js:4-50 | 400 with nothing stored exactly when the following is missing: the user, a movie, date, cluster, hall or time field, or a non-empty seat array; or when `Number(pricePerSeat)` is 0 or NaN. Otherwise 201, and the stored order carries the request's fields, the numeric price, and the price added once per seat as its total. |
| BookingController.SchemaView | src/controller/bookingController.js:34-45 | The document the handler builds never passes the schema of `Booking.js`. |
| BookingController.CreateBookingAsWritten | src/controller/bookingController.js:4-50 | As written, 400 exactly on the same guard, otherwise always 500, and the booking collection never changes. |
| BookingController.CompleteRequestNeverStored | src/controller/bookingController.js:18-46 | Every request that passes the guard gets 500 as written and 201 as intended. |
| BookingController.OneSeatRequestRefused | src/controller/bookingController.js:18-46 | A concrete one-seat request at 75000: 500 as written, 201 with total 75000 as intended. |
| BookingController.InsertByNewest | src/controller/bookingController.js:56 | Inserting into a newest-first list keeps it newest first and adds exactly that booking. |
| BookingController.SortByNewest | src/controller/bookingController.js:56 | The sort returns a permutation of its input ordered by `createdAt`, newest first. |
| BookingController.ListMyBookings | src/controller/bookingController.js:53-61 | 500 exactly when the caller id is not an ObjectId. Otherwise the caller's bookings, each as often as stored, no one else's, newest first. |
| BookingController.ListedExactlyOwned | src/controller/bookingController.js:55-57 | A booking is listed exactly when it is stored and belongs to the caller. |
| BookingController.ConfirmedBookingListed | src/controller/bookingController.js:55-57 | A booking confirmed from a seat hold appears in the list of the user it was made for. |

## Left out

- Database round trips are not interleaved. Each handler is one atomic step, whereas `lockSeats` reads and writes in separate awaits, so two concurrent holds could both succeed in the real system.
- Every handler reads the clock once, and `expiresIn` is taken from that single reading. The source reads `new Date()` several times within one handler.
- Database failures and their 500 answers are not modelled. Only the 500 that `Booking.create` validation produces is.
- A malformed ObjectId raises a cast error in the source. In `lockSeats`, `unlockSeats` and `confirmBooking` that error is answered with 500. In `getSeatsForShowtime` the `findById` cast error is caught and answered with 400 (src/controller/showtimeController.js:43, 55-56), where the model answers 404 for every unknown id. Here showtime and lock ids are plain keys, so no cast can fail.
- The `Date.now()`/`Math.random()` booking code is not modelled. The code is `"BK"` followed by an opaque tail given as a parameter.
- The `CinemaSystem`/`Cinema` upserts after a confirmed booking (src/controller/seatLockController.js:244-259) are left out. They only append the booking's id to aggregates outside this state.
- Seat entries that are `null` in `seatData` are not modelled.
- Numbers are whole numbers: a `Number(..)` result is NaN or an integer, and fractional values are not modelled.
- `mongoose.isValidObjectId` is modelled as "24 hexadecimal digits". It also accepts 12-character strings, and ObjectIds compare regardless of hex letter case; here ids compare as strings.
- `listMyBookings` without an authenticated user is not modelled; the route is behind token verification.
- The `qrCode` and `isActive` booking fields are left out. They have no constraint and no reader in the core.
- `listShowtimes`, `createShowtime`, authentication, the CRUD controllers, the seed scripts, server set-up and the other schemas are outside this model.
- `src/model/SeatLock.js` is not part of this model. The lock table's fields are those the controller reads and writes.
- ShowtimeController.GridCodesDistinct: distinctness is stated for up to 65471 rows. Beyond that `String.fromCharCode` wraps around and codes repeat.
- CreateBookingAsWritten: when the seat codes are plain strings, the source raises a cast error, which is also a validation failure. Here they become line items without type or price, and the answer is the same 500.

## Findings

| source | as written | input that shows it | evidently intended | confidence | as-written member | corrected member |
|---|---|---|---|---|---|---|
| src/controller/bookingController.js:34-45 | `Booking.create` receives `movieId`, `date`, `clusterId`, `hallId`, `startTime`, `endTime`, `seats` as codes, `pricePerSeat` and `totalPrice`, none of which src/model/Booking.js declares. It receives none of the required `showtimeId`, `movieTitle`, `showtimeInfo.*`, `total`, `paymentMethod` or `bookingCode`, so validation always fails. | user `0123456789abcdef01234567`, movie `m1`, date `2025-06-01`, cluster `c1`, hall `h1`, 18:00–20:00, seats `["A1"]`, price 75000 | store the order and answer 201 with total 75000 | not executed | BookingController.CreateBookingAsWritten | BookingController.CreateBooking |
