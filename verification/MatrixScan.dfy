/**
 Matrix differencing with ghost filtering (quantum/keyboard.c).

 A `matrix_row_t` is its bits, lowest first, for a word of any width.  `Ghosted` says what
 the ghost test is for, in terms of two keys shared with another row; `ScanEvents` and `Kept`
 say what one pass of `matrix_task` emits and remembers.  The theorems are about the trace
 of every sequence of scans, and class `Scanner` runs the task in place.
 */
module MatrixScan {
  import opened Bytes

  type Row = seq<bool>

  // ---- words as bits ----

  function Value(x: Row): nat {
    if x == [] then 0 else (if x[0] then 1 else 0) + 2 * Value(x[1..])
  }

  /** One less, with the borrow running up to the lowest set bit. */
  function Decrement(x: Row): (r: Row)
    ensures |r| == |x|
  {
    if x == [] then []
    else if x[0] then [false] + x[1..]
    else [true] + Decrement(x[1..])
  }

  function And(x: Row, y: Row): (r: Row)
    requires |x| == |y|
    ensures |r| == |x| && forall i :: 0 <= i < |r| ==> r[i] == (x[i] && y[i])
  {
    if x == [] then [] else [x[0] && y[0]] + And(x[1..], y[1..])
  }

  predicate NonZero(x: Row) {
    x != [] && (x[0] || NonZero(x[1..]))
  }

  function Count(x: Row): nat {
    if x == [] then 0 else (if x[0] then 1 else 0) + Count(x[1..])
  }

  /** `Decrement` is subtraction of one in the width of the word. */
  lemma {:induction false} DecrementSubtracts(x: Row)
    ensures Value(Decrement(x)) == if NonZero(x) then Value(x) - 1 else Pow2(|x|) - 1
    ensures !NonZero(x) ==> Value(x) == 0
  {
    if x != [] {
      DecrementSubtracts(x[1..]);
      var d := Decrement(x);
      assert d[1..] == if x[0] then x[1..] else Decrement(x[1..]);
    }
  }

  lemma {:induction false} AndSelf(x: Row)
    ensures And(x, x) == x
  {
  }

  lemma {:induction false} NonZeroCounts(x: Row)
    ensures NonZero(x) <==> Count(x) > 0
  {
    if x != [] {
      NonZeroCounts(x[1..]);
    }
  }

  /** `popcount_more_than_one`: clearing the lowest set bit leaves something. */
  predicate MoreThanOne(x: Row) {
    NonZero(And(x, Decrement(x)))
  }

  /** The trick counts: for a word of any width it says whether two bits are set. */
  lemma {:induction false} MoreThanOneCounts(x: Row)
    ensures MoreThanOne(x) <==> Count(x) >= 2
  {
    if x != [] {
      var rest := x[1..];
      var d := Decrement(x);
      NonZeroCounts(rest);
      AndSelf(rest);
      MoreThanOneCounts(rest);
      assert d[1..] == if x[0] then rest else Decrement(rest);
      assert And(x, d)[1..] == And(rest, d[1..]);
    }
  }

  lemma {:induction false} SetBit(x: Row, i: nat)
    requires i < |x| && x[i]
    ensures Count(x) >= 1
  {
    if i > 0 {
      SetBit(x[1..], i - 1);
    }
  }

  lemma {:induction false} TwoSetBits(x: Row, i: nat, j: nat)
    requires i < j < |x| && x[i] && x[j]
    ensures Count(x) >= 2
  {
    if i > 0 {
      TwoSetBits(x[1..], i - 1, j - 1);
    } else {
      SetBit(x[1..], j - 1);
    }
  }

  lemma {:induction false} FindBit(x: Row) returns (i: nat)
    requires Count(x) >= 1
    ensures i < |x| && x[i]
  {
    if x[0] {
      i := 0;
    } else {
      i := FindBit(x[1..]);
      i := i + 1;
    }
  }

  lemma {:induction false} FindTwo(x: Row) returns (i: nat, j: nat)
    requires Count(x) >= 2
    ensures i < j < |x| && x[i] && x[j]
  {
    if x[0] {
      i := 0;
      j := FindBit(x[1..]);
    } else {
      i, j := FindTwo(x[1..]);
      i := i + 1;
    }
    j := j + 1;
  }

  // ---- ghosts ----

  /** The keyboard: its columns and the keys its base layer defines. */
  datatype Board = Board(cols: nat, width: nat, keys: seq<Row>)

  predicate Fits(b: Board, m: seq<Row>) {
    && |m| == |b.keys|
    && (forall r :: 0 <= r < |m| ==> |m[r]| == b.width)
  }

  predicate WellFormed(b: Board) {
    b.cols <= b.width && (forall r :: 0 <= r < |b.keys| ==> |b.keys[r]| == b.cols)
  }

  /** Key `(r, c)` is defined and reads as down. */
  predicate RealDown(b: Board, m: seq<Row>, r: nat, c: nat)
    requires WellFormed(b) && Fits(b, m) && r < |m| && c < b.cols
  {
    b.keys[r][c] && m[r][c]
  }

  /** Rows `r` and `i` share two real pressed columns. */
  ghost predicate Share(b: Board, m: seq<Row>, r: nat, i: nat)
    requires WellFormed(b) && Fits(b, m) && r < |m| && i < |m|
  {
    exists c, d :: 0 <= c < d < b.cols
      && RealDown(b, m, r, c) && RealDown(b, m, i, c) && RealDown(b, m, r, d) && RealDown(b, m, i, d)
  }

  /** Row `r` may hold a ghost. */
  ghost predicate Ghosted(b: Board, m: seq<Row>, r: nat)
    requires WellFormed(b) && Fits(b, m) && r < |m|
  {
    exists i :: 0 <= i < |m| && i != r && Share(b, m, r, i)
  }

  /** A row may hold a ghost exactly when it and another row both have two defined keys down in the same two columns. */
  lemma GhostedIff(b: Board, m: seq<Row>, r: nat)
    requires WellFormed(b) && Fits(b, m) && r < |m|
    ensures Ghosted(b, m, r) <==>
            exists i, c, d :: 0 <= i < |m| && i != r && 0 <= c < d < b.cols
              && (b.keys[r][c] && m[r][c]) && (b.keys[r][d] && m[r][d])
              && (b.keys[i][c] && m[i][c]) && (b.keys[i][d] && m[i][d])
  {
    if Ghosted(b, m, r) {
      var i :| 0 <= i < |m| && i != r && Share(b, m, r, i);
      var c, d :| 0 <= c < d < b.cols && RealDown(b, m, r, c) && RealDown(b, m, i, c) && RealDown(b, m, r, d) && RealDown(b, m, i, d);
    }
    if i, c, d :| 0 <= i < |m| && i != r && 0 <= c < d < b.cols
                  && (b.keys[r][c] && m[r][c]) && (b.keys[r][d] && m[r][d])
                  && (b.keys[i][c] && m[i][c]) && (b.keys[i][d] && m[i][d]) {
      assert RealDown(b, m, r, c) && RealDown(b, m, i, c) && RealDown(b, m, r, d) && RealDown(b, m, i, d);
      assert Share(b, m, r, i);
    }
  }

  /** `x` holds the real pressed keys of row `r`, and nothing else. */
  ghost predicate HoldsReal(b: Board, m: seq<Row>, r: nat, x: Row)
    requires WellFormed(b) && Fits(b, m) && r < |m|
  {
    && |x| == b.width
    && (forall c :: 0 <= c < b.width ==> x[c] == (c < b.cols && RealDown(b, m, r, c)))
  }

  /** The bit test of one row against another is the sharing of two columns. */
  lemma ShareBits(b: Board, m: seq<Row>, r: nat, i: nat, x: Row, y: Row)
    requires WellFormed(b) && Fits(b, m) && r < |m| && i < |m| && HoldsReal(b, m, r, x) && HoldsReal(b, m, i, y)
    ensures MoreThanOne(And(y, x)) <==> Share(b, m, r, i)
    ensures Share(b, m, r, i) ==> MoreThanOne(x)
  {
    MoreThanOneCounts(And(y, x));
    if Count(And(y, x)) >= 2 {
      var c, d := FindTwo(And(y, x));
    }
    if c, d :| 0 <= c < d < b.cols && RealDown(b, m, r, c) && RealDown(b, m, i, c) && RealDown(b, m, r, d) && RealDown(b, m, i, d) {
      TwoSetBits(And(y, x), c, d);
      TwoSetBits(x, c, d);
      MoreThanOneCounts(x);
    }
  }

  /** `get_real_keys`. */
  method GetRealKeys(b: Board, m: seq<Row>, r: nat) returns (out: Row)
    requires WellFormed(b) && Fits(b, m) && r < |m|
    ensures HoldsReal(b, m, r, out)
  {
    out := seq(b.width, _ => false);
    for col := 0 to b.cols
      invariant |out| == b.width
      invariant forall c :: 0 <= c < b.width ==> out[c] == (c < col && RealDown(b, m, r, c))
    {
      if b.keys[r][col] && m[r][col] {
        out := out[col := true];
      }
    }
  }

  /** The test of one other row in `has_ghost_in_row`. */
  method SharesColumns(b: Board, m: seq<Row>, r: nat, i: nat, rowdata: Row) returns (shared: bool)
    requires WellFormed(b) && Fits(b, m) && r < |m| && i < |m| && HoldsReal(b, m, r, rowdata)
    ensures shared == Share(b, m, r, i)
  {
    var other := GetRealKeys(b, m, i);
    ShareBits(b, m, r, i, rowdata, other);
    shared := MoreThanOne(And(other, rowdata));
  }

  /** `has_ghost_in_row`. */
  method HasGhostInRow(b: Board, m: seq<Row>, r: nat) returns (ghosted: bool)
    requires WellFormed(b) && Fits(b, m) && r < |m|
    ensures ghosted == Ghosted(b, m, r)
  {
    var rowdata := GetRealKeys(b, m, r);
    if !MoreThanOne(rowdata) {
      NotGhosted(b, m, r, rowdata);
      return false;
    }
    for i := 0 to |m|
      invariant forall k :: 0 <= k < i && k != r ==> !Share(b, m, r, k)
    {
      if i != r {
        var shared := SharesColumns(b, m, r, i, rowdata);
        if shared {
          return true;
        }
      }
    }
    return false;
  }

  lemma NotShared(b: Board, m: seq<Row>, r: nat, i: nat, x: Row)
    requires WellFormed(b) && Fits(b, m) && r < |m| && i < |m| && HoldsReal(b, m, r, x) && !MoreThanOne(x)
    ensures !Share(b, m, r, i)
  {
    var y := seq(b.width, c requires 0 <= c < b.width => c < b.cols && RealDown(b, m, i, c));
    ShareBits(b, m, r, i, x, y);
  }

  /** With fewer than two real keys down the row has no ghost. */
  lemma NotGhosted(b: Board, m: seq<Row>, r: nat, x: Row)
    requires WellFormed(b) && Fits(b, m) && r < |m| && HoldsReal(b, m, r, x) && !MoreThanOne(x)
    ensures !Ghosted(b, m, r)
  {
    forall i | 0 <= i < |m|
      ensures !Share(b, m, r, i)
    {
      NotShared(b, m, r, i, x);
    }
  }

  // ---- one scan ----

  datatype Event = Event(row: nat, col: nat, pressed: bool)

  /** What `matrix_previous` holds for row `r` after the scan `m`. */
  ghost function Kept(b: Board, prev: seq<Row>, m: seq<Row>, r: nat): Row
    requires WellFormed(b) && Fits(b, prev) && Fits(b, m) && r < |m|
  {
    if Ghosted(b, m, r) then prev[r] else m[r]
  }

  ghost function AllKept(b: Board, prev: seq<Row>, m: seq<Row>): (kept: seq<Row>)
    requires WellFormed(b) && Fits(b, prev) && Fits(b, m)
    ensures Fits(b, kept)
  {
    seq(|m|, r requires 0 <= r < |m| => Kept(b, prev, m, r))
  }

  /** The events reported so far, latest on the outside. */
  datatype Trace = Quiet | Then(past: Trace, latest: Event)

  /** The trace `t` followed by the events of row `r` in its first `n` columns. */
  ghost function RowEvents(t: Trace, prev: Row, row: Row, r: nat, n: nat): Trace
    requires n <= |prev| && n <= |row|
  {
    if n == 0 then t
    else
      var before := RowEvents(t, prev, row, r, n - 1);
      if prev[n - 1] != row[n - 1] then Then(before, Event(r, n - 1, row[n - 1])) else before
  }

  /** Two matrices with the same rows, all at least `cols` wide. */
  ghost predicate Alike(prev: seq<Row>, next: seq<Row>, cols: nat) {
    |prev| == |next| && forall r :: 0 <= r < |prev| ==> cols <= |prev[r]| && cols <= |next[r]|
  }

  /** The trace `t` followed by the events of the first `n` rows when the matrix goes from `prev` to `next`. */
  ghost function DiffEvents(t: Trace, prev: seq<Row>, next: seq<Row>, cols: nat, n: nat): Trace
    requires Alike(prev, next, cols) && n <= |prev|
  {
    if n == 0 then t
    else RowEvents(DiffEvents(t, prev, next, cols, n - 1), prev[n - 1], next[n - 1], n - 1, cols)
  }

  /** The trace `t` followed by the events of a scan. */
  ghost function ScanEvents(t: Trace, b: Board, prev: seq<Row>, m: seq<Row>): Trace
    requires WellFormed(b) && Fits(b, prev) && Fits(b, m)
  {
    DiffEvents(t, prev, AllKept(b, prev, m), b.cols, |m|)
  }

  /** The states reported for key `(r, c)`, in order. */
  ghost function At(t: Trace, r: nat, c: nat): seq<bool> {
    match t
    case Quiet => []
    case Then(past, e) => if e.row == r && e.col == c then At(past, r, c) + [e.pressed] else At(past, r, c)
  }

  /** What a key that was reported as `s` reports next when it goes from `was` to `now`. */
  ghost function Changed(s: seq<bool>, was: bool, now: bool): seq<bool> {
    if was == now then s else s + [now]
  }

  lemma {:induction false} AtRow(t: Trace, prev: Row, row: Row, k: nat, n: nat, r: nat, c: nat)
    requires n <= |prev| && n <= |row|
    ensures At(RowEvents(t, prev, row, k, n), r, c) ==
            if k == r && c < n then Changed(At(t, r, c), prev[c], row[c]) else At(t, r, c)
  {
    if n > 0 {
      AtRow(t, prev, row, k, n - 1, r, c);
    }
  }

  lemma {:induction false} AtDiff(t: Trace, prev: seq<Row>, next: seq<Row>, cols: nat, n: nat, r: nat, c: nat)
    requires Alike(prev, next, cols) && n <= |prev| && r < |prev| && c < cols
    ensures At(DiffEvents(t, prev, next, cols, n), r, c) ==
            if r < n then Changed(At(t, r, c), prev[r][c], next[r][c]) else At(t, r, c)
  {
    if n > 0 {
      AtDiff(t, prev, next, cols, n - 1, r, c);
      AtRow(DiffEvents(t, prev, next, cols, n - 1), prev[n - 1], next[n - 1], n - 1, cols, r, c);
    }
  }

  /** One scan reports a key at most once, exactly when its row is free of ghosts and the key changed. */
  lemma AtScan(t: Trace, b: Board, prev: seq<Row>, m: seq<Row>, r: nat, c: nat)
    requires WellFormed(b) && Fits(b, prev) && Fits(b, m) && r < |m| && c < b.cols
    ensures At(ScanEvents(t, b, prev, m), r, c) ==
            if Ghosted(b, m, r) || prev[r][c] == m[r][c] then At(t, r, c) else At(t, r, c) + [m[r][c]]
  {
    AtDiff(t, prev, AllKept(b, prev, m), b.cols, |m|, r, c);
  }

  /** Row-major order, each key at most once. */
  predicate Before(e: Event, f: Event) {
    e.row < f.row || (e.row == f.row && e.col < f.col)
  }

  /** The whole trace in that order. */
  predicate Ordered(t: Trace) {
    t.Then? ==> Ordered(t.past) && (t.past.Then? ==> Before(t.past.latest, t.latest))
  }

  predicate Has(t: Trace, e: Event) {
    t.Then? && (t.latest == e || Has(t.past, e))
  }

  lemma {:induction false} RowOrdered(t: Trace, prev: Row, row: Row, r: nat, n: nat)
    requires n <= |prev| && n <= |row| && Ordered(t) && (t.Then? ==> t.latest.row < r)
    ensures var t' := RowEvents(t, prev, row, r, n);
            Ordered(t') && (t'.Then? ==> Before(t'.latest, Event(r, n, true)))
  {
    if n > 0 {
      RowOrdered(t, prev, row, r, n - 1);
    }
  }

  lemma {:induction false} DiffOrdered(prev: seq<Row>, next: seq<Row>, cols: nat, n: nat)
    requires Alike(prev, next, cols) && n <= |prev|
    ensures var t := DiffEvents(Quiet, prev, next, cols, n);
            Ordered(t) && (t.Then? ==> t.latest.row < n)
  {
    if n > 0 {
      DiffOrdered(prev, next, cols, n - 1);
      RowOrdered(DiffEvents(Quiet, prev, next, cols, n - 1), prev[n - 1], next[n - 1], n - 1, cols);
    }
  }

  /** Whether `e` is a change from `prev` to `next`. */
  predicate IsChange(e: Event, prev: seq<Row>, next: seq<Row>) {
    && e.row < |prev| && e.row < |next| && e.col < |prev[e.row]| && e.col < |next[e.row]|
    && prev[e.row][e.col] != next[e.row][e.col] && next[e.row][e.col] == e.pressed
  }

  lemma {:induction false} RowHas(t: Trace, prev: seq<Row>, next: seq<Row>, r: nat, n: nat, e: Event)
    requires r < |prev| && r < |next| && n <= |prev[r]| && n <= |next[r]|
    requires Has(RowEvents(t, prev[r], next[r], r, n), e)
    ensures Has(t, e) || (IsChange(e, prev, next) && e.col < n)
  {
    if n > 0 && Has(RowEvents(t, prev[r], next[r], r, n - 1), e) {
      RowHas(t, prev, next, r, n - 1, e);
    }
  }

  lemma {:induction false} DiffHas(prev: seq<Row>, next: seq<Row>, cols: nat, n: nat, e: Event)
    requires Alike(prev, next, cols) && n <= |prev| && Has(DiffEvents(Quiet, prev, next, cols, n), e)
    ensures IsChange(e, prev, next) && e.col < cols
  {
    if n > 0 {
      RowHas(DiffEvents(Quiet, prev, next, cols, n - 1), prev, next, n - 1, cols, e);
      if Has(DiffEvents(Quiet, prev, next, cols, n - 1), e) {
        DiffHas(prev, next, cols, n - 1, e);
      }
    }
  }

  /** The events of a scan come in row-major order, each from a row free of ghosts, and each is a real change of its key. */
  lemma ScanReports(b: Board, prev: seq<Row>, m: seq<Row>)
    requires WellFormed(b) && Fits(b, prev) && Fits(b, m)
    ensures Ordered(ScanEvents(Quiet, b, prev, m))
    ensures forall e :: Has(ScanEvents(Quiet, b, prev, m), e) ==>
              e.row < |m| && e.col < b.cols && !Ghosted(b, m, e.row) && IsChange(e, prev, m)
  {
    var kept := AllKept(b, prev, m);
    DiffOrdered(prev, kept, b.cols, |m|);
    forall e | Has(ScanEvents(Quiet, b, prev, m), e)
      ensures e.row < |m| && e.col < b.cols && !Ghosted(b, m, e.row) && IsChange(e, prev, m)
    {
      DiffHas(prev, kept, b.cols, |m|, e);
    }
  }

  // ---- every sequence of scans ----

  datatype Scans = Start | Scan(before: Scans, rows: seq<Row>)

  ghost predicate AllFit(b: Board, s: Scans) {
    s.Scan? ==> AllFit(b, s.before) && Fits(b, s.rows)
  }

  function AllUp(b: Board): (m: seq<Row>) {
    seq(|b.keys|, _ => seq(b.width, _ => false))
  }

  /** `matrix_previous` after the scans. */
  ghost function Previous(b: Board, s: Scans): (m: seq<Row>)
    requires WellFormed(b) && AllFit(b, s)
    ensures Fits(b, m)
  {
    match s
    case Start => AllUp(b)
    case Scan(before, rows) => AllKept(b, Previous(b, before), rows)
  }

  /** All events of the scans. */
  ghost function Events(b: Board, s: Scans): Trace
    requires WellFormed(b) && AllFit(b, s)
  {
    match s
    case Start => Quiet
    case Scan(before, rows) => ScanEvents(Events(b, before), b, Previous(b, before), rows)
  }

  /** Down, up, down, ... */
  ghost predicate Alternates(s: seq<bool>) {
    forall i :: 0 <= i < |s| ==> s[i] == (i % 2 == 0)
  }

  /** The state of a key after its reports: that of the last one, up if there was none. */
  ghost function Folded(s: seq<bool>): bool {
    s != [] && s[|s| - 1]
  }

  lemma ChangeAlternates(s: seq<bool>, now: bool)
    requires Alternates(s)
    ensures Alternates(Changed(s, Folded(s), now)) && Folded(Changed(s, Folded(s), now)) == now
  {
    if s != [] {
      assert s[|s| - 1] == ((|s| - 1) % 2 == 0);
    }
  }

  /** Over every sequence of scans the reports of each key strictly alternate, beginning with a press, and folding them gives `matrix_previous`. */
  lemma {:induction false} TraceAlternates(b: Board, s: Scans, r: nat, c: nat)
    requires WellFormed(b) && AllFit(b, s) && r < |b.keys| && c < b.cols
    ensures Alternates(At(Events(b, s), r, c))
    ensures Folded(At(Events(b, s), r, c)) == Previous(b, s)[r][c]
  {
    if s.Scan? {
      var prev := Previous(b, s.before);
      TraceAlternates(b, s.before, r, c);
      AtScan(Events(b, s.before), b, prev, s.rows, r, c);
      ChangeAlternates(At(Events(b, s.before), r, c), Kept(b, prev, s.rows, r)[c]);
    }
  }

  /** Nothing stays down: once a scan reads every key up, each key has been released as often as it was pressed. */
  lemma NothingStuck(b: Board, s: Scans, r: nat, c: nat)
    requires WellFormed(b) && AllFit(b, s) && s.Scan? && s.rows == AllUp(b) && r < |b.keys| && c < b.cols
    ensures |At(Events(b, s), r, c)| % 2 == 0
  {
    TraceAlternates(b, s, r, c);
    assert !Ghosted(b, s.rows, r);
  }

  /** A row without ghosts is up to date after the scan, whatever was held back before. */
  lemma CatchesUp(b: Board, s: Scans, r: nat, c: nat)
    requires WellFormed(b) && AllFit(b, s) && s.Scan? && r < |b.keys| && c < b.cols && !Ghosted(b, s.rows, r)
    ensures Folded(At(Events(b, s), r, c)) == s.rows[r][c]
  {
    TraceAlternates(b, s, r, c);
  }

  // ---- in place ----

  lemma {:induction false} NoRowEvents(t: Trace, row: Row, r: nat, n: nat)
    requires n <= |row|
    ensures RowEvents(t, row, row, r, n) == t
  {
    if n > 0 {
      NoRowEvents(t, row, r, n - 1);
    }
  }

  lemma {:induction false} NoDiffEvents(t: Trace, m: seq<Row>, cols: nat, n: nat)
    requires Alike(m, m, cols) && n <= |m|
    ensures DiffEvents(t, m, m, cols, n) == t
  {
    if n > 0 {
      NoDiffEvents(t, m, cols, n - 1);
      NoRowEvents(t, m[n - 1], n - 1, cols);
    }
  }

  /** A scan equal to the remembered matrix has nothing to report, so the short cut loses nothing. */
  lemma NoScanEvents(t: Trace, b: Board, m: seq<Row>)
    requires WellFormed(b) && Fits(b, m)
    ensures ScanEvents(t, b, m, m) == t && AllKept(b, m, m) == m
  {
    assert AllKept(b, m, m) == m;
    NoDiffEvents(t, m, b.cols, |m|);
  }

  /** The scanning task with its remembered matrix and the two places its events go. */
  class Scanner {
    const b: Board
    const previous: array<Row>
    /** Every change, as given to `switch_events`. */
    var switches: Trace
    /** The key events given to `action_exec`. */
    var actions: Trace
    /** When the last tick event was given. */
    var lastTick: nat

    ghost predicate Valid()
      reads previous
    {
      WellFormed(b) && Fits(b, previous[..])
    }

    constructor (b: Board)
      requires WellFormed(b)
      ensures Valid() && fresh(previous) && this.b == b && previous[..] == AllUp(b)
      ensures switches == Quiet && actions == Quiet && lastTick == 0
    {
      this.b := b;
      previous := new Row[|b.keys|](_ => seq(b.width, _ => false));
      switches, actions, lastTick := Quiet, Quiet, 0;
      new;
      assert previous[..] == AllUp(b);
    }

    /** `generate_tick_event`: at most one tick for each millisecond of the 16-bit timer. */
    method GenerateTick(now: nat) returns (tick: bool)
      modifies this`lastTick
      ensures tick == ((now - old(lastTick)) % 0x1_0000 != 0)
      ensures lastTick == if tick then now else old(lastTick)
    {
      tick := (now - lastTick) % 0x1_0000 != 0;
      if tick {
        lastTick := now;
      }
    }

    /** The loop over the columns of a changed row without ghosts. */
    method ReportRow(row: nat, current: Row, process: bool)
      requires Valid() && row < previous.Length && |current| == b.width
      modifies this`switches, this`actions
      ensures switches == RowEvents(old(switches), previous[row], current, row, b.cols)
      ensures actions == if process then RowEvents(old(actions), previous[row], current, row, b.cols) else old(actions)
    {
      for col := 0 to b.cols
        invariant switches == RowEvents(old(switches), previous[row], current, row, col)
        invariant actions == if process then RowEvents(old(actions), previous[row], current, row, col) else old(actions)
      {
        if current[col] != previous[row][col] {
          if process {
            actions := Then(actions, Event(row, col, current[col]));
          }
          switches := Then(switches, Event(row, col, current[col]));
        }
      }
    }

    /** The body of the loop over the rows. */
    method TakeRow(m: seq<Row>, row: nat, process: bool)
      requires Valid() && Fits(b, m) && row < |m|
      modifies this`switches, this`actions, previous
      ensures Valid() && previous[..] == old(previous[..])[row := Kept(b, old(previous[..]), m, row)]
      ensures switches == RowEvents(old(switches), old(previous[row]), previous[row], row, b.cols)
      ensures actions == if process then RowEvents(old(actions), old(previous[row]), previous[row], row, b.cols) else old(actions)
    {
      NoRowEvents(switches, previous[row], row, b.cols);
      NoRowEvents(actions, previous[row], row, b.cols);
      if m[row] != previous[row] {
        var skip := HasGhostInRow(b, m, row);
        if !skip {
          ReportRow(row, m[row], process);
          previous[row] := m[row];
        }
      }
    }

    /** The rows of `next` before `n`, those of `prev` from there on. */
    ghost predicate Mixed(prev: seq<Row>, next: seq<Row>, n: nat)
      requires |prev| == |next| == previous.Length && n <= |prev|
      reads previous
    {
      && (forall r :: 0 <= r < n ==> previous[r] == next[r])
      && (forall r :: n <= r < |prev| ==> previous[r] == prev[r])
    }

    /** The loop over the rows. */
    method TakeRows(m: seq<Row>, process: bool)
      requires Valid() && Fits(b, m)
      modifies this`switches, this`actions, previous
      ensures Valid() && previous[..] == AllKept(b, old(previous[..]), m)
      ensures switches == ScanEvents(old(switches), b, old(previous[..]), m)
      ensures actions == if process then ScanEvents(old(actions), b, old(previous[..]), m) else old(actions)
    {
      ghost var prev := previous[..];
      ghost var kept := AllKept(b, prev, m);
      for i := 0 to |m|
        invariant Valid() && Mixed(prev, kept, i)
        invariant switches == DiffEvents(old(switches), prev, kept, b.cols, i)
        invariant actions == if process then DiffEvents(old(actions), prev, kept, b.cols, i) else old(actions)
      {
        TakeRow(m, i, process);
      }
      assert previous[..] == kept;
    }

    /** The loop that looks for a change. */
    method HasChanged(m: seq<Row>) returns (changed: bool)
      requires Valid() && Fits(b, m)
      ensures changed == (m != previous[..])
    {
      changed := false;
      var row := 0;
      while row < |m| && !changed
        invariant row <= |m|
        invariant changed == exists k :: 0 <= k < row && previous[k] != m[k]
      {
        changed := previous[row] != m[row];
        row := row + 1;
      }
      if !changed {
        assert previous[..] == m;
      }
    }

    /** `matrix_task`, with the rows `m` that `matrix_scan` leaves; `tick` tells of a tick event instead of key events. */
    method MatrixTask(m: seq<Row>, canRead: bool, process: bool, now: nat) returns (changed: bool, tick: bool)
      requires Valid() && Fits(b, m)
      modifies this, previous
      ensures Valid()
      ensures previous[..] == if canRead then AllKept(b, old(previous[..]), m) else old(previous[..])
      ensures switches == if canRead then ScanEvents(old(switches), b, old(previous[..]), m) else old(switches)
      ensures actions == if canRead && process then ScanEvents(old(actions), b, old(previous[..]), m) else old(actions)
      ensures changed == (canRead && m != old(previous[..]))
      ensures tick == (!changed && (now - old(lastTick)) % 0x1_0000 != 0) && lastTick == if tick then now else old(lastTick)
    {
      if !canRead {
        changed := false;
        tick := GenerateTick(now);
        return;
      }
      changed := HasChanged(m);
      if changed {
        tick := false;
        TakeRows(m, process);
      } else {
        tick := GenerateTick(now);
        NoScanEvents(switches, b, m);
        NoScanEvents(actions, b, m);
      }
    }
  }
}
