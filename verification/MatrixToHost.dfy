/**
 From the key matrix to what the host is told: the events that scanning reports
 (MatrixScan.dfy) go through the tap/hold resolver (TappingModel.dfy).  For every sequence
 of scans, and every build that keeps order and invents no release, all calls of
 `process_record` together tell the host of each key what the matrix saw: pressed and
 released in turn, up in the end if the matrix says so.
 */
module MatrixToHost {
  import opened Grid
  import opened TappingModel
  import opened TappingOrder
  import opened TappingRuns
  import MatrixScan

  /** The events are those of the trace, in order, at whatever times. */
  predicate Carries(es: seq<Event>, t: MatrixScan.Trace) {
    match t
    case Quiet => es == []
    case Then(past, e) =>
      es != [] &&
      (var n := |es| - 1;
       es[n].key == KeyPos(e.row, e.col) && es[n].pressed == e.pressed && Carries(es[..n], past))
  }

  /** The presses and releases of events, as a sequence of states. */
  function States(es: seq<Event>): (s: seq<bool>)
    ensures |s| == |es|
  {
    seq(|es|, i requires 0 <= i < |es| => es[i].pressed)
  }

  lemma StatesAppend(es: seq<Event>, e: Event)
    ensures States(es + [e]) == States(es) + [e.pressed]
  {
  }

  lemma {:induction false} CarriesEachKey(es: seq<Event>, t: MatrixScan.Trace, k: KeyPos)
    requires Carries(es, t)
    ensures States(Of(es, k)) == MatrixScan.At(t, k.row, k.col)
  {
    if t.Then? {
      var n := |es| - 1;
      CarriesEachKey(es[..n], t.past, k);
      StatesAppend(Of(es[..n], k), es[n]);
    }
  }

  /** Only keys of the matrix are ever reported. */
  lemma {:induction false} OutsideDiff(t: MatrixScan.Trace, prev: seq<MatrixScan.Row>, next: seq<MatrixScan.Row>, cols: nat, n: nat, k: KeyPos)
    requires MatrixScan.Alike(prev, next, cols) && n <= |prev| && !(k.row < |prev| && k.col < cols)
    ensures MatrixScan.At(MatrixScan.DiffEvents(t, prev, next, cols, n), k.row, k.col) == MatrixScan.At(t, k.row, k.col)
  {
    if n > 0 {
      OutsideDiff(t, prev, next, cols, n - 1, k);
      MatrixScan.AtRow(MatrixScan.DiffEvents(t, prev, next, cols, n - 1), prev[n - 1], next[n - 1], n - 1, cols, k.row, k.col);
    }
  }

  lemma {:induction false} OutsideMatrix(board: MatrixScan.Board, scans: MatrixScan.Scans, k: KeyPos)
    requires MatrixScan.WellFormed(board) && MatrixScan.AllFit(board, scans) && !(k.row < |board.keys| && k.col < board.cols)
    ensures MatrixScan.At(MatrixScan.Events(board, scans), k.row, k.col) == []
  {
    if scans.Scan? {
      OutsideMatrix(board, scans.before, k);
      var prev := MatrixScan.Previous(board, scans.before);
      OutsideDiff(MatrixScan.Events(board, scans.before), prev, MatrixScan.AllKept(board, prev, scans.rows), board.cols, |scans.rows|, k);
    }
  }

  lemma StatesAlternate(es: seq<Event>)
    requires MatrixScan.Alternates(States(es))
    ensures Alternates(es)
  {
    forall i | 0 <= i < |es|
      ensures es[i].pressed == (i % 2 == 0)
    {
      assert States(es)[i] == es[i].pressed;
    }
  }

  /** The events of any scans, with any ticks between, are a well-formed run of the resolver. */
  lemma ScansAreWellFormed(b: Build, board: MatrixScan.Board, scans: MatrixScan.Scans, inputs: seq<Input>)
    requires MatrixScan.WellFormed(board) && MatrixScan.AllFit(board, scans)
    requires Stamped(inputs) && (forall i :: 0 <= i < |inputs| ==> Follows(inputs[i].env, b))
    requires Carries(Received(inputs), MatrixScan.Events(board, scans))
    ensures WellFormed(b, inputs)
  {
    forall k: KeyPos
      ensures Alternates(Of(Received(inputs), k))
    {
      CarriesEachKey(Received(inputs), MatrixScan.Events(board, scans), k);
      if k.row < |board.keys| && k.col < board.cols {
        MatrixScan.TraceAlternates(board, scans, k.row, k.col);
      } else {
        OutsideMatrix(board, scans, k);
      }
      StatesAlternate(Of(Received(inputs), k));
    }
  }

  lemma ReceivedTick(inputs: seq<Input>, tick: Input)
    requires tick.event.IsNoEvent()
    ensures Received(inputs + [tick]) == Received(inputs)
  {
    assert (inputs + [tick])[..|inputs|] == inputs;
  }

  /** Any scans and any ticks, given without overflow to a build that keeps order and invents nothing, then a tick past the term. */
  ghost predicate Scanned(b: Build, board: MatrixScan.Board, scans: MatrixScan.Scans, inputs: seq<Input>, tick: Input) {
    && b.KeepsOrder() && b.InventsNothing()
    && MatrixScan.WellFormed(board) && MatrixScan.AllFit(board, scans)
    && Stamped(inputs + [tick]) && (forall i :: 0 <= i < |inputs + [tick]| ==> Follows((inputs + [tick])[i].env, b))
    && Carries(Received(inputs), MatrixScan.Events(board, scans))
    && Run(START, inputs).discarded == []
    && tick.event.IsNoEvent() && !WithinTappingTerm(tick.env, Run(START, inputs), tick.event)
  }

  /**
   What the host was told of a key, by every call of `process_record`, is what scanning reported of it.  It strictly
   alternates, begins with a press, and ends in the state the matrix remembers.
   */
  lemma HostSeesMatrix(b: Build, board: MatrixScan.Board, scans: MatrixScan.Scans, inputs: seq<Input>, tick: Input, k: KeyPos)
    requires Scanned(b, board, scans, inputs, tick)
    requires k.row < |board.keys| && k.col < board.cols
    ensures var told := States(Of(Told(Run(START, inputs + [tick]).trace), k));
            && told == MatrixScan.At(MatrixScan.Events(board, scans), k.row, k.col)
            && MatrixScan.Alternates(told)
            && MatrixScan.Folded(told) == MatrixScan.Previous(board, scans)[k.row][k.col]
  {
    ReceivedTick(inputs, tick);
    ScansAreWellFormed(b, board, scans, inputs + [tick]);
    NothingIsInvented(b, inputs + [tick]);
    TickFlushes(b, inputs, tick);
    CarriesEachKey(Received(inputs), MatrixScan.Events(board, scans), k);
    MatrixScan.TraceAlternates(board, scans, k.row, k.col);
  }

  /** No key stays down: once the matrix has read every key up, the host was told of each as many releases as presses. */
  lemma NoKeyStaysDown(b: Build, board: MatrixScan.Board, scans: MatrixScan.Scans, inputs: seq<Input>, tick: Input, k: KeyPos)
    requires Scanned(b, board, scans, inputs, tick)
    requires scans.Scan? && scans.rows == MatrixScan.AllUp(board)
    requires k.row < |board.keys| && k.col < board.cols
    ensures var told := States(Of(Told(Run(START, inputs + [tick]).trace), k));
            MatrixScan.Alternates(told) && |told| % 2 == 0
  {
    HostSeesMatrix(b, board, scans, inputs, tick, k);
    MatrixScan.NothingStuck(board, scans, k.row, k.col);
  }
}
