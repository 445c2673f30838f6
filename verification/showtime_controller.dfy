/**
  `getSeatsForShowtime` of `src/controller/showtimeController.js`: the rows x cols grid of seat
  codes ("A1", "B12", ...) of a showtime's auditorium, each flagged when the showtime lists it as
  reserved.

  JavaScript strings are sequences of UTF-16 code units, and `String.fromCharCode` reduces its
  argument modulo 2^16; seat codes are modelled at that level.
 */
module ShowtimeController {
  import opened Wrappers

  type CodeUnit = u: int | 0 <= u < 0x1_0000

  type JsString = seq<CodeUnit>

  /** Highest row whose letter `64 + row` is below 2^16, so that no two rows share a letter. */
  const MaxDistinctRow := 0xFFFF - 64

  /** `String.fromCharCode(n)` for an integer `n`. */
  function FromCharCode(n: int): CodeUnit {
    n % 0x1_0000
  }

  /** The decimal rendering of a non-negative integer (`${n}`), most significant digit first. */
  function Digits(n: nat): (r: JsString)
    ensures |r| >= 1
    ensures forall i :: 0 <= i < |r| ==> 48 <= r[i] <= 57
    decreases n
  {
    if n < 10 then [48 + n] else Digits(n / 10) + [48 + n % 10]
  }

  /** Reads a string of decimal digits as a number. */
  function ParseDecimal(s: JsString): int
    decreases |s|
  {
    if s == [] then 0 else 10 * ParseDecimal(s[..|s| - 1]) + (s[|s| - 1] as int - 48)
  }

  /** Reading the rendering of `n` gives back `n`. */
  lemma {:induction false} ParseDigits(n: nat)
    ensures ParseDecimal(Digits(n)) == n
    decreases n
  {
    if n < 10 {
      assert Digits(n)[..0] == [];
    } else {
      ParseDigits(n / 10);
      assert Digits(n)[..|Digits(n)| - 1] == Digits(n / 10);
    }
  }

  /** Distinct numbers render differently. */
  lemma DigitsInjective(a: nat, b: nat)
    requires Digits(a) == Digits(b)
    ensures a == b
  {
    ParseDigits(a);
    ParseDigits(b);
  }

  /** The code of the seat in row `r`, column `c`: the character with code 64 + r, then `c` in decimal. */
  function SeatCode(r: int, c: nat): JsString {
    [FromCharCode(64 + r)] + Digits(c)
  }

  /** Reads a seat code back into its row and column. */
  function DecodeSeatCode(code: JsString): (int, int)
    requires |code| >= 1
  {
    (code[0] as int - 64, ParseDecimal(code[1..]))
  }

  /** A seat code determines its row and column, for every row whose letter does not wrap around. */
  lemma SeatCodeRoundTrip(r: int, c: nat)
    requires 1 <= r <= MaxDistinctRow
    ensures DecodeSeatCode(SeatCode(r, c)) == (r, c)
  {
    assert SeatCode(r, c)[1..] == Digits(c);
    ParseDigits(c);
  }

  /** Row 1 is lettered "A" (code 65), row 2 "B", and so on. */
  lemma RowLetters(r: int, c: nat)
    requires 1 <= r <= MaxDistinctRow
    ensures SeatCode(r, c)[0] == 64 + r
    ensures SeatCode(1, c)[0] == 65 && SeatCode(2, c)[0] == 66
  {
  }

  datatype GridSeat = GridSeat(code: JsString, isReserved: bool)

  datatype Auditorium = Auditorium(rows: int, cols: int)

  /** A showtime with its populated auditorium (None when the reference does not resolve) and its
      reserved seat codes (empty when the list is absent). */
  datatype Showtime = Showtime(auditorium: Option<Auditorium>, seatsReserved: seq<JsString>)

  datatype SeatsResponse =
    | SeatsNotFound
    | SeatsBadRequest
    | SeatsOk(seats: seq<GridSeat>, rows: int, cols: int)
  {
    function Status(): int {
      match this
      case SeatsNotFound => 404
      case SeatsBadRequest => 400
      case SeatsOk(_, _, _) => 200
    }
  }

  /** Where row-major order puts the seat in row `r`, column `c`. */
  function SeatIndex(cols: int, r: int, c: int): int {
    (r - 1) * cols + (c - 1)
  }

  function SeatAt(r: int, c: nat, reserved: seq<JsString>): GridSeat {
    GridSeat(SeatCode(r, c), SeatCode(r, c) in reserved)
  }

  /** Row `r`: columns 1 to `cols`. */
  function Row(r: int, cols: int, reserved: seq<JsString>): seq<GridSeat> {
    if cols <= 0 then [] else seq(cols, j requires 0 <= j < cols => SeatAt(r, j + 1, reserved))
  }

  /** Rows 1 to `rows`, one after the other. */
  function Grid(rows: int, cols: int, reserved: seq<JsString>): seq<GridSeat>
    decreases rows
  {
    if rows <= 0 then [] else Grid(rows - 1, cols, reserved) + Row(rows, cols, reserved)
  }

  /** The grid has rows x cols seats, and none at all when either dimension is not positive. */
  lemma {:induction false} GridLength(rows: int, cols: int, reserved: seq<JsString>)
    ensures |Grid(rows, cols, reserved)| == if rows > 0 && cols > 0 then rows * cols else 0
    decreases rows
  {
    if rows > 0 {
      GridLength(rows - 1, cols, reserved);
      if cols > 0 {
        assert (rows - 1) * cols + cols == rows * cols;
      }
    }
  }

  /** Row-major order: the seat in row `r`, column `c` sits at index (r - 1) * cols + (c - 1). */
  lemma {:induction false} GridIndex(rows: int, cols: int, reserved: seq<JsString>, r: int, c: int)
    requires 1 <= r <= rows && 1 <= c <= cols
    ensures SeatIndex(cols, r, c) < |Grid(rows, cols, reserved)|
    ensures Grid(rows, cols, reserved)[SeatIndex(cols, r, c)] == SeatAt(r, c, reserved)
    decreases rows
  {
    var prev := Grid(rows - 1, cols, reserved);
    GridLength(rows - 1, cols, reserved);
    GridLength(rows, cols, reserved);
    var i := SeatIndex(cols, r, c);
    if r == rows {
      assert i == |prev| + (c - 1);
      assert Grid(rows, cols, reserved)[i] == Row(rows, cols, reserved)[c - 1];
    } else {
      GridIndex(rows - 1, cols, reserved, r, c);
      assert i < |prev|;
      assert Grid(rows, cols, reserved)[i] == prev[i];
    }
  }

  /** GridIndex for every row and column at once. */
  lemma GridRowMajor(rows: int, cols: int, reserved: seq<JsString>)
    ensures forall r, c :: 1 <= r <= rows && 1 <= c <= cols ==>
      SeatIndex(cols, r, c) < |Grid(rows, cols, reserved)|
      && Grid(rows, cols, reserved)[SeatIndex(cols, r, c)] == SeatAt(r, c, reserved)
  {
    forall r, c | 1 <= r <= rows && 1 <= c <= cols
      ensures SeatIndex(cols, r, c) < |Grid(rows, cols, reserved)|
      ensures Grid(rows, cols, reserved)[SeatIndex(cols, r, c)] == SeatAt(r, c, reserved)
    {
      GridIndex(rows, cols, reserved, r, c);
    }
  }

  /** A seat is flagged reserved exactly when its code is in the reserved list. */
  lemma {:induction false} GridReserved(rows: int, cols: int, reserved: seq<JsString>)
    ensures forall i :: 0 <= i < |Grid(rows, cols, reserved)| ==>
      (Grid(rows, cols, reserved)[i].isReserved <==> Grid(rows, cols, reserved)[i].code in reserved)
    decreases rows
  {
    if rows > 0 {
      GridReserved(rows - 1, cols, reserved);
    }
  }

  /** Every seat of the first `rows` rows carries the letter of one of those rows. */
  lemma {:induction false} GridRowLetters(rows: int, cols: int, reserved: seq<JsString>)
    requires rows <= MaxDistinctRow
    ensures forall i :: 0 <= i < |Grid(rows, cols, reserved)| ==>
      |Grid(rows, cols, reserved)[i].code| >= 1 && 65 <= Grid(rows, cols, reserved)[i].code[0] <= 64 + rows
    decreases rows
  {
    if rows > 0 {
      GridRowLetters(rows - 1, cols, reserved);
    }
  }

  /** Within one row the codes are pairwise distinct: they differ in their column number. */
  lemma RowCodesDistinct(r: int, cols: int, reserved: seq<JsString>)
    ensures forall i, j :: 0 <= i < j < |Row(r, cols, reserved)| ==>
      Row(r, cols, reserved)[i].code != Row(r, cols, reserved)[j].code
  {
    var row := Row(r, cols, reserved);
    forall i, j | 0 <= i < j < |row| ensures row[i].code != row[j].code {
      if row[i].code == row[j].code {
        assert row[i].code[1..] == Digits(i + 1);
        assert row[j].code[1..] == Digits(j + 1);
        DigitsInjective(i + 1, j + 1);
      }
    }
  }

  /** No two seats of the grid share a code, as long as the row letters do not wrap around. */
  lemma {:induction false} GridCodesDistinct(rows: int, cols: int, reserved: seq<JsString>)
    requires rows <= MaxDistinctRow
    ensures forall i, j :: 0 <= i < j < |Grid(rows, cols, reserved)| ==>
      Grid(rows, cols, reserved)[i].code != Grid(rows, cols, reserved)[j].code
    decreases rows
  {
    if rows > 0 {
      var prev := Grid(rows - 1, cols, reserved);
      var row := Row(rows, cols, reserved);
      var g := Grid(rows, cols, reserved);
      GridCodesDistinct(rows - 1, cols, reserved);
      GridRowLetters(rows - 1, cols, reserved);
      RowCodesDistinct(rows, cols, reserved);
      forall i, j | 0 <= i < j < |g| ensures g[i].code != g[j].code {
        if j < |prev| {
          assert g[i] == prev[i] && g[j] == prev[j];
        } else if i >= |prev| {
          assert g[i] == row[i - |prev|] && g[j] == row[j - |prev|];
        } else {
          assert g[i] == prev[i] && g[j] == row[j - |prev|];
          assert g[j].code[0] == 64 + rows;
        }
      }
    }
  }

  /** The nested loops of the handler: rows 1..rows outside, columns 1..cols inside. */
  method BuildGrid(rows: int, cols: int, reserved: seq<JsString>) returns (seats: seq<GridSeat>)
    ensures seats == Grid(rows, cols, reserved)
  {
    seats := [];
    var r := 1;
    while r <= rows
      invariant 1 <= r <= (if rows >= 1 then rows + 1 else 1)
      invariant seats == Grid(r - 1, cols, reserved)
    {
      var c := 1;
      while c <= cols
        invariant 1 <= c <= (if cols >= 1 then cols + 1 else 1)
        invariant seats == Grid(r - 1, cols, reserved) + Row(r, cols, reserved)[..c - 1]
      {
        assert Row(r, cols, reserved)[..c] == Row(r, cols, reserved)[..c - 1] + [SeatAt(r, c, reserved)];
        seats := seats + [SeatAt(r, c, reserved)];
        c := c + 1;
      }
      assert Row(r, cols, reserved)[..c - 1] == Row(r, cols, reserved);
      r := r + 1;
    }
  }

  /** `getSeatsForShowtime`: 404 for an unknown showtime, 400 when its auditorium does not resolve
      (reading `rows` of null throws), otherwise the grid with its dimensions. */
  method GetSeatsForShowtime(showtimes: map<string, Showtime>, id: string) returns (r: SeatsResponse)
    ensures r.SeatsNotFound? <==> id !in showtimes
    ensures r.SeatsBadRequest? <==> id in showtimes && showtimes[id].auditorium.None?
    ensures r.SeatsOk? ==>
      && id in showtimes && showtimes[id].auditorium.Some?
      && var st := showtimes[id];
         var a := st.auditorium.value;
         && r.rows == a.rows && r.cols == a.cols
         && |r.seats| == (if a.rows > 0 && a.cols > 0 then a.rows * a.cols else 0)
         && (forall row, col :: 1 <= row <= a.rows && 1 <= col <= a.cols ==>
               SeatIndex(a.cols, row, col) < |r.seats|
               && r.seats[SeatIndex(a.cols, row, col)] == SeatAt(row, col, st.seatsReserved))
         && (forall i :: 0 <= i < |r.seats| ==> (r.seats[i].isReserved <==> r.seats[i].code in st.seatsReserved))
  {
    if id !in showtimes {
      return SeatsNotFound;
    }
    var st := showtimes[id];
    if st.auditorium.None? {
      return SeatsBadRequest;
    }
    var a := st.auditorium.value;
    var seats := BuildGrid(a.rows, a.cols, st.seatsReserved);
    GridLength(a.rows, a.cols, st.seatsReserved);
    GridReserved(a.rows, a.cols, st.seatsReserved);
    GridRowMajor(a.rows, a.cols, st.seatsReserved);
    r := SeatsOk(seats, a.rows, a.cols);
  }
}
