/**
 Quadrature decoding and split-half replay (quantum/encoder.c), without interrupt reads
 or a default position.

 `Read` is one encoder as a value: two pad bits in, a lookup in the quadrature table, an
 8-bit signed pulse count, and a turn each time the count reaches the resolution.  Class
 `Half` runs it in place on the arrays of one keyboard half.  The theorems compare the
 turns with the sum of the quadrature steps, and the turns replayed by the master half
 with those made on the other.
 */
module RotaryEncoder {

  /** `encoder_LUT`, indexed by the previous and the new pad bits. */
  function Lut(i: nat): (d: int)
    requires i < 16
    ensures -1 <= d <= 1
  {
    [0, -1, 1, 0, 1, 0, 0, -1, -1, 0, 0, 1, 0, 1, -1, 0][i]
  }

  /** Conversion to int8_t. */
  function Signed8(x: int): (s: int)
    ensures -128 <= s < 128
  {
    (x + 128) % 256 - 128
  }

  /** The C remainder: it has the sign of the dividend. */
  function Rem(a: int, b: int): int
    requires b > 0
  {
    if a >= 0 then a % b else -((-a) % b)
  }

  /** One encoder: the history byte, the pulses since the last turn, and the wrapping turn counter. */
  datatype Enc = Enc(state: nat, pulses: int, value: nat)

  /** One read: the encoder after it, the quadrature step taken, and the turn made (+1, 0 or -1). */
  datatype Reading = Reading(enc: Enc, step: int, turn: int)

  /** The uint8_t turn counter after a turn, or without one. */
  function Count(value: nat, turn: int): nat {
    if turn > 0 then (value + 1) % 256 else if turn < 0 then (value + 255) % 256 else value
  }

  /** `encoder_update` on the new history byte. */
  function Update(e: Enc, resolution: int): Reading
    requires resolution > 0
  {
    var step := Lut(e.state % 16);
    var pulses := Signed8(e.pulses + step);
    var up := if pulses >= resolution then 1 else 0;
    var down := if pulses <= -resolution then 1 else 0;
    Reading(Enc(e.state, Rem(pulses, resolution), Count(e.value, up - down)), step, up - down)
  }

  /** `encoder_read` for one encoder with pad bits `pads`. */
  function Read(e: Enc, pads: nat, resolution: int): Reading
    requires resolution > 0 && pads < 4
  {
    if e.state % 4 == pads then Reading(e, 0, 0)
    else Update(e.(state := (e.state * 4 + pads) % 256), resolution)
  }

  /** A run of reads, with the sum of the steps and the net turns. */
  datatype Total = Total(enc: Enc, sum: int, net: int)

  function Run(e: Enc, pads: seq<nat>, resolution: int): Total
    requires resolution > 0 && AllPads(pads)
  {
    if pads == [] then Total(e, 0, 0)
    else
      var t := Run(e, pads[..|pads| - 1], resolution);
      var r := Read(t.enc, pads[|pads| - 1], resolution);
      Total(r.enc, t.sum + r.step, t.net + r.turn)
  }

  /** The pulses are less than one turn and the counter is a byte, as they are between any two reads. */
  predicate Within(e: Enc, resolution: int) {
    -resolution < e.pulses < resolution && e.value < 256
  }

  predicate AllPads(pads: seq<nat>) {
    forall i :: 0 <= i < |pads| ==> pads[i] < 4
  }

  /** The steps so far, with the pulses at the start, are the resolution times the turns, plus less than one turn; the counter follows the turns. */
  predicate Conserved(e0: Enc, t: Total, resolution: int) {
    && e0.pulses + t.sum == resolution * t.net + t.enc.pulses
    && Within(t.enc, resolution)
    && t.enc.value == (e0.value + t.net) % 256
  }

  lemma RemOfTurn(a: int, b: int)
    requires b > 0 && -b <= a <= b
    ensures Rem(a, b) == if a == b || a == -b then 0 else a
  {
    if a == b || a == -b {
      ModSelf(b);
    } else {
      ModSmall(if a >= 0 then a else -a, b);
    }
  }

  lemma Multiples(q: int, b: int)
    requires b > 0
    ensures q >= 1 ==> q * b >= b
    ensures q >= 2 ==> q * b >= 2 * b
    ensures q <= 0 ==> q * b <= 0
    ensures q <= -1 ==> q * b <= -b
  {
  }

  lemma ModSmall(x: int, b: int)
    requires 0 <= x < b
    ensures x % b == x
  {
    Multiples(x / b, b);
    assert x == x / b * b + x % b;
  }

  lemma ModSelf(b: int)
    requires b > 0
    ensures b % b == 0
  {
    Multiples(b / b, b);
    assert b == b / b * b + b % b;
  }

  /** Counting pulses: within range the count moves by the step, and reaching the resolution is a turn that starts it over. */
  lemma UpdateConserves(e: Enc, resolution: int)
    requires 0 < resolution < 128 && -resolution < e.pulses < resolution && e.value < 256
    ensures var r := Update(e, resolution);
            && e.pulses + r.step == resolution * r.turn + r.enc.pulses
            && -resolution < r.enc.pulses < resolution
            && r.enc.value == (e.value + r.turn) % 256
  {
    var pulses := e.pulses + Lut(e.state % 16);
    assert Signed8(pulses) == pulses;
    RemOfTurn(pulses, resolution);
  }

  lemma ValueFollows(v0: nat, v: nat, net: int, turn: int)
    requires v == (v0 + net) % 256
    ensures (v + turn) % 256 == (v0 + (net + turn)) % 256
  {
  }

  lemma SumFollows(resolution: int, net: int, turn: int)
    ensures resolution * (net + turn) == resolution * net + resolution * turn
  {
  }

  lemma ReadConserves(e: Enc, t: Total, pads: nat, resolution: int)
    requires 0 < resolution < 128 && pads < 4 && Conserved(e, t, resolution)
    ensures var r := Read(t.enc, pads, resolution); Conserved(e, Total(r.enc, t.sum + r.step, t.net + r.turn), resolution)
  {
    if t.enc.state % 4 != pads {
      var e1 := t.enc.(state := (t.enc.state * 4 + pads) % 256);
      UpdateConserves(e1, resolution);
      StepConserves(e, t, Update(e1, resolution), resolution);
    }
  }

  lemma StepConserves(e: Enc, t: Total, r: Reading, resolution: int)
    requires resolution > 0 && Conserved(e, t, resolution)
    requires t.enc.pulses + r.step == resolution * r.turn + r.enc.pulses && -resolution < r.enc.pulses < resolution
    requires r.enc.value == (t.enc.value + r.turn) % 256
    ensures Conserved(e, Total(r.enc, t.sum + r.step, t.net + r.turn), resolution)
  {
    ValueFollows(e.value, t.enc.value, t.net, r.turn);
    SumFollows(resolution, t.net, r.turn);
  }

  /** Over every run of reads the steps are conserved: nothing is lost or counted twice in turns and remainder. */
  lemma {:induction false} RunConserves(e: Enc, pads: seq<nat>, resolution: int)
    requires 0 < resolution < 128 && Within(e, resolution) && AllPads(pads)
    ensures Conserved(e, Run(e, pads, resolution), resolution)
  {
    if pads != [] {
      var n := |pads| - 1;
      RunConserves(e, pads[..n], resolution);
      ReadConserves(e, Run(e, pads[..n], resolution), pads[n], resolution);
    }
  }

  // ---- turns and the shaft ----

  /** The pad bits when the shaft is `n` steps forward of a rest position. */
  function Forward(n: int): nat {
    if n % 4 == 0 then 0 else if n % 4 == 1 then 2 else if n % 4 == 2 then 3 else 1
  }

  /** A shaft that moves at most one step between reads, and the pad bits it shows. */
  predicate Sampled(shaft: seq<int>, pads: seq<nat>) {
    && |shaft| == |pads| + 1 && AllPads(pads)
    && (forall i :: 0 <= i < |pads| ==> pads[i] == Forward(shaft[i + 1]) && -1 <= shaft[i + 1] - shaft[i] <= 1)
  }

  /** The table: one read of a shaft that moved at most one step counts exactly that step. */
  lemma ReadFollows(e: Enc, from: int, to: int, resolution: int)
    requires resolution > 0 && e.state % 4 == Forward(from) && -1 <= to - from <= 1
    ensures var r := Read(e, Forward(to), resolution);
            r.step == to - from && r.enc.state % 4 == Forward(to)
  {
    HistoryBits(e.state, Forward(to));
    StepTable(from, to);
  }

  /** The history byte keeps the previous and the new pad bits in its low half. */
  lemma HistoryBits(state: nat, pads: nat)
    requires pads < 4
    ensures var h := (state * 4 + pads) % 256; h % 16 == state % 4 * 4 + pads && h % 4 == pads
  {
    LowBits(state / 4, state % 4 * 4 + pads);
  }

  lemma LowBits(q: nat, y: nat)
    requires y < 16
    ensures (16 * q + y) % 256 % 16 == y && (16 * q + y) % 256 % 4 == y % 4
  {
    var x := 16 * q + y;
    var k := x / 256;
    assert x % 256 == 16 * (q - 16 * k) + y;
  }

  /** The entries of the table for a shaft that moved at most one step. */
  lemma StepTable(from: int, to: int)
    requires -1 <= to - from <= 1
    ensures Lut(Forward(from) * 4 + Forward(to)) == to - from
    ensures Forward(from) == Forward(to) <==> from == to
  {
    var r := from % 4;
    assert to % 4 == (r + (to - from)) % 4;
  }

  /** Over every run the sum of the steps is the distance the shaft moved. */
  lemma {:induction false} SumIsDistance(e: Enc, shaft: seq<int>, pads: seq<nat>, resolution: int)
    requires resolution > 0 && Sampled(shaft, pads) && e.state % 4 == Forward(shaft[0])
    ensures var t := Run(e, pads, resolution);
            t.sum == shaft[|pads|] - shaft[0] && t.enc.state % 4 == Forward(shaft[|pads|])
  {
    if pads != [] {
      var n := |pads| - 1;
      assert Sampled(shaft[..|pads|], pads[..n]);
      SumIsDistance(e, shaft[..|pads|], pads[..n], resolution);
      ReadFollows(Run(e, pads[..n], resolution).enc, shaft[n], shaft[n + 1], resolution);
    }
  }

  /** The net turns reported over a run are the distance the shaft moved, in units of the resolution, to within one turn. */
  lemma TurnsFollowShaft(e: Enc, shaft: seq<int>, pads: seq<nat>, resolution: int)
    requires 0 < resolution < 128 && Within(e, resolution) && Sampled(shaft, pads) && e.state % 4 == Forward(shaft[0])
    ensures -resolution < e.pulses + (shaft[|pads|] - shaft[0]) - resolution * Run(e, pads, resolution).net < resolution
  {
    SumIsDistance(e, shaft, pads, resolution);
    RunConserves(e, pads, resolution);
  }

  // ---- resolutions beyond the pulse counter ----

  function ForwardRun(n: nat): (pads: seq<nat>)
    ensures |pads| == n && AllPads(pads)
  {
    if n == 0 then [] else ForwardRun(n - 1) + [Forward(n)]
  }

  const STILL: Enc := Enc(0, 0, 0)

  /** A forward step from `n` pulses, before the counter is cut to a turn. */
  lemma ReadForwardStep(e: Enc, n: nat, resolution: int)
    requires e.state % 4 == Forward(n) && e.pulses == n && resolution > 0
    ensures var r, p := Read(e, Forward(n + 1), resolution), Signed8(n + 1);
            && r.step == 1 && r.enc.state % 4 == Forward(n + 1) && r.enc.pulses == Rem(p, resolution)
            && r.turn == (if p >= resolution then 1 else 0) - (if p <= -resolution then 1 else 0)
  {
    ReadFollows(e, n, n + 1, resolution);
    StepTable(n, n + 1);
  }

  lemma ReadForward(e: Enc, n: nat, resolution: int)
    requires e.state % 4 == Forward(n) && e.pulses == n <= 127 && n < resolution < 256
    ensures var r := Read(e, Forward(n + 1), resolution);
            && r.step == 1 && r.enc.state % 4 == Forward(n + 1)
            && (n < 127 && n + 1 < resolution ==> r.turn == 0 && r.enc.pulses == n + 1)
            && (n < 127 && n + 1 == resolution ==> r.turn == 1)
            && (n == 127 ==> if resolution == 128 then r.turn == -1 && r.enc.pulses == 0 else r.turn == 0 && r.enc.pulses == -128)
  {
    ReadForwardStep(e, n, resolution);
    assert Signed8(n + 1) == if n < 127 then n + 1 else -128;
    RemOfTurn(Signed8(n + 1), resolution);
  }

  lemma RunForward(n: nat, resolution: int)
    requires resolution > 0
    ensures var t := Run(STILL, ForwardRun(n), resolution);
            var r := Read(t.enc, Forward(n + 1), resolution);
            Run(STILL, ForwardRun(n + 1), resolution) == Total(r.enc, t.sum + r.step, t.net + r.turn)
  {
    assert ForwardRun(n + 1)[..n] == ForwardRun(n);
  }

  /** Forward steps below the resolution, up to 127 of them, only count. */
  lemma {:induction false} ForwardCounts(n: nat, resolution: int)
    requires n <= 127 && n < resolution < 256
    ensures var t := Run(STILL, ForwardRun(n), resolution);
            t.sum == n && t.net == 0 && t.enc.pulses == n && t.enc.state % 4 == Forward(n)
  {
    if n > 0 {
      ForwardCounts(n - 1, resolution);
      RunForward(n - 1, resolution);
      ReadForward(Run(STILL, ForwardRun(n - 1), resolution).enc, n - 1, resolution);
    }
  }

  /** The 128th step wraps the pulse count to -128, which loses the steps or turns the wrong way. */
  lemma LostSteps(t: Total, resolution: int)
    requires 127 < resolution < 256 && t.sum == 128
    requires if resolution == 128 then t.net == -1 && t.enc.pulses == 0 else t.net == 0 && t.enc.pulses == -128
    ensures !Conserved(STILL, t, resolution)
  {
    if resolution != 128 {
      assert resolution * t.net == 0;
    }
  }

  lemma ForwardWraps(resolution: int)
    requires 127 < resolution < 256
    ensures !Conserved(STILL, Run(STILL, ForwardRun(128), resolution), resolution)
  {
    ForwardCounts(127, resolution);
    RunForward(127, resolution);
    var t := Run(STILL, ForwardRun(127), resolution);
    ReadForward(t.enc, 127, resolution);
    var r := Read(t.enc, Forward(128), resolution);
    LostSteps(Total(r.enc, t.sum + r.step, t.net + r.turn), resolution);
  }

  /** An encoder conserves its steps over every run exactly when its resolution fits the signed pulse counter. */
  lemma ConservesIff(resolution: int)
    requires 0 < resolution < 256
    ensures (forall pads: seq<nat> :: AllPads(pads) ==> Conserved(STILL, Run(STILL, pads, resolution), resolution)) <==> resolution < 128
  {
    if resolution < 128 {
      forall pads: seq<nat> | AllPads(pads)
        ensures Conserved(STILL, Run(STILL, pads, resolution), resolution)
      {
        RunConserves(STILL, pads, resolution);
      }
    } else {
      ForwardWraps(resolution);
    }
  }

  // ---- the wrong resolution ----

  /** Beyond 128 the pulse counter never reaches the resolution, so no turn is ever made. */
  lemma {:induction false} NeverTurns(pads: seq<nat>, resolution: int)
    requires 128 < resolution && AllPads(pads)
    ensures var t := Run(STILL, pads, resolution); t.net == 0 && -128 <= t.enc.pulses < 128
  {
    if pads != [] {
      var n := |pads| - 1;
      NeverTurns(pads[..n], resolution);
      var e := Run(STILL, pads[..n], resolution).enc;
      if e.state % 4 != pads[n] {
        UpdateNeverTurns(e.(state := (e.state * 4 + pads[n]) % 256), resolution);
      }
    }
  }

  lemma UpdateNeverTurns(e: Enc, resolution: int)
    requires 128 < resolution
    ensures var r := Update(e, resolution); r.turn == 0 && -128 <= r.enc.pulses < 128
  {
    RemOfTurn(Signed8(e.pulses + Lut(e.state % 16)), resolution);
  }

  /** Turning forward by the smaller resolution tells two resolutions apart. */
  lemma TurnsDiffer(small: int, large: int)
    requires 0 < small < large < 256 && small <= 128
    ensures Run(STILL, ForwardRun(small), small).net != Run(STILL, ForwardRun(small), large).net
  {
    ForwardCounts(small - 1, small);
    RunForward(small - 1, small);
    ReadForward(Run(STILL, ForwardRun(small - 1), small).enc, small - 1, small);
    NoTurnYet(small, large);
  }

  lemma NoTurnYet(n: nat, resolution: int)
    requires 0 < n <= 128 && n < resolution < 256
    ensures Run(STILL, ForwardRun(n), resolution).net == 0
  {
    if n <= 127 {
      ForwardCounts(n, resolution);
    } else {
      NeverTurns(ForwardRun(n), resolution);
    }
  }

  /** Two resolutions report the same turns over every run exactly when they are equal or both too large ever to turn. */
  lemma SameTurnsIff(r: int, q: int)
    requires 0 < r < 256 && 0 < q < 256
    ensures (forall pads: seq<nat> :: AllPads(pads) ==> Run(STILL, pads, r).net == Run(STILL, pads, q).net)
            <==> r == q || (r > 128 && q > 128)
  {
    if r > 128 && q > 128 {
      forall pads: seq<nat> | AllPads(pads)
        ensures Run(STILL, pads, r).net == Run(STILL, pads, q).net
      {
        NeverTurns(pads, r);
        NeverTurns(pads, q);
      }
    } else if r < q {
      TurnsDiffer(r, q);
    } else if q < r {
      TurnsDiffer(q, r);
    }
  }

  /**
   The table of resolutions holds the left half's first and the right half's behind them, but encoder `i` of a half
   that begins at `thisHand` looks its resolution up at `i`.  It reports the turns of its own resolution over every run
   exactly when the two entries agree or both are too large ever to turn.
   */
  lemma OwnResolutionIff(table: seq<int>, thisHand: nat, i: nat)
    requires thisHand + i < |table| && 0 < table[i] < 256 && 0 < table[thisHand + i] < 256
    ensures (forall pads: seq<nat> :: AllPads(pads) ==> Run(STILL, pads, table[i]).net == Run(STILL, pads, table[thisHand + i]).net)
            <==> table[i] == table[thisHand + i] || (table[i] > 128 && table[thisHand + i] > 128)
  {
    SameTurnsIff(table[i], table[thisHand + i]);
  }

  // ---- split halves ----

  /** The master replays the difference between the slave's counter and its own copy, as a signed byte. */
  function Replayed(slave: nat, copy: nat): int {
    Signed8(slave - copy)
  }

  /** If the copies agreed and the slave then made `moved` net turns, the master replays exactly those turns iff they fit a signed byte. */
  lemma ReplaysIff(copy: nat, moved: int)
    requires copy < 256
    ensures Replayed((copy + moved) % 256, copy) == moved <==> -128 <= moved <= 127
    ensures (copy + Replayed((copy + moved) % 256, copy)) % 256 == (copy + moved) % 256
  {
    assert ((copy + moved) % 256 - copy + 128) % 256 == (moved + 128) % 256;
  }

  /** The net turns the slave makes before each exchange, reading `batches[i]` in between. */
  function Moves(e: Enc, batches: seq<seq<nat>>, resolution: int): (moves: seq<int>)
    requires resolution > 0 && forall i :: 0 <= i < |batches| ==> AllPads(batches[i])
    decreases |batches|
  {
    if batches == [] then []
    else
      var t := Run(e, batches[0], resolution);
      [t.net] + Moves(t.enc, batches[1..], resolution)
  }

  /** What the master replays at each exchange, its copy then being the slave's counter. */
  function MasterReplays(e: Enc, copy: nat, batches: seq<seq<nat>>, resolution: int): (rs: seq<int>)
    requires resolution > 0 && forall i :: 0 <= i < |batches| ==> AllPads(batches[i])
    decreases |batches|
  {
    if batches == [] then []
    else
      var t := Run(e, batches[0], resolution);
      [Replayed(t.enc.value, copy)] + MasterReplays(t.enc, t.enc.value, batches[1..], resolution)
  }

  lemma {:induction false} MasterReplaysMoves(e: Enc, batches: seq<seq<nat>>, resolution: int)
    requires 0 < resolution < 128 && Within(e, resolution) && forall i :: 0 <= i < |batches| ==> AllPads(batches[i])
    ensures MasterReplays(e, e.value, batches, resolution) == Replays(e.value, Moves(e, batches, resolution))
    decreases |batches|
  {
    if batches != [] {
      var t := Run(e, batches[0], resolution);
      RunConserves(e, batches[0], resolution);
      MasterReplaysMoves(t.enc, batches[1..], resolution);
      ReplaysCons(e.value, t.net, Moves(t.enc, batches[1..], resolution));
    }
  }

  lemma ReplaysCons(copy: nat, move: int, moves: seq<int>)
    ensures Replays(copy, [move] + moves) == [Replayed((copy + move) % 256, copy)] + Replays((copy + move) % 256, moves)
  {
    assert ([move] + moves)[1..] == moves;
  }

  /** From the slave's reads to the master's replays, with any number of reads between any number of exchanges. */
  lemma MasterFollowsSlave(e: Enc, batches: seq<seq<nat>>, resolution: int)
    requires 0 < resolution < 128 && Within(e, resolution) && forall i :: 0 <= i < |batches| ==> AllPads(batches[i])
    ensures var moves := Moves(e, batches, resolution);
            MasterReplays(e, e.value, batches, resolution) == moves <==> forall i :: 0 <= i < |moves| ==> -128 <= moves[i] <= 127
  {
    MasterReplaysMoves(e, batches, resolution);
    ReplaysAllIff(e.value, Moves(e, batches, resolution));
  }

  /** What the master replays at each of several exchanges, the slave having made `moves[i]` net turns before exchange `i`. */
  function Replays(copy: nat, moves: seq<int>): (rs: seq<int>)
    ensures |rs| == |moves|
    decreases |moves|
  {
    if moves == [] then []
    else
      var slave := (copy + moves[0]) % 256;
      [Replayed(slave, copy)] + Replays(slave, moves[1..])
  }

  /** Over every sequence of exchanges the master replays exactly the slave's turns iff each move fits a signed byte. */
  lemma {:induction false} ReplaysAllIff(copy: nat, moves: seq<int>)
    requires copy < 256
    ensures Replays(copy, moves) == moves <==> forall i :: 0 <= i < |moves| ==> -128 <= moves[i] <= 127
    decreases |moves|
  {
    if moves != [] {
      var slave := (copy + moves[0]) % 256;
      ReplaysIff(copy, moves[0]);
      ReplaysAllIff(slave, moves[1..]);
      SameSeq(Replayed(slave, copy), Replays(slave, moves[1..]), moves);
      AllFit(moves);
    }
  }

  lemma SameSeq(x: int, rest: seq<int>, s: seq<int>)
    requires s != []
    ensures [x] + rest == s <==> x == s[0] && rest == s[1..]
  {
    if [x] + rest == s {
      assert rest == ([x] + rest)[1..];
    }
  }

  lemma AllFit(s: seq<int>)
    requires s != []
    ensures (forall i :: 0 <= i < |s| ==> -128 <= s[i] <= 127)
            <==> -128 <= s[0] <= 127 && forall i :: 0 <= i < |s[1..]| ==> -128 <= s[1..][i] <= 127
  {
    var rest := s[1..];
    assert forall i :: 0 < i < |s| ==> s[i] == rest[i - 1];
  }

  /** The turns of the replays of the first `n` counters, given the master's copies before. */
  function AllReplayed(slave: seq<nat>, copies: seq<nat>, hand: nat, n: nat): seq<Turn>
    requires n <= |slave| && hand + |slave| <= |copies|
  {
    if n == 0 then [] else AllReplayed(slave, copies, hand, n - 1) + Turns(hand + n - 1, Replayed(slave[n - 1], copies[hand + n - 1]))
  }

  lemma NextByte(v: nat, moved: int, turn: int)
    requires turn == 1 || turn == -1
    ensures ((v + moved) % 256 + (if turn == 1 then 1 else 255)) % 256 == (v + (moved + turn)) % 256
  {
    var x := v + moved;
    WholeBytes(x + turn, if turn == 1 then -(x / 256) else 1 - x / 256);
  }

  lemma WholeBytes(x: int, k: int)
    ensures (x + 256 * k) % 256 == x % 256
  {
  }

  lemma CatchUp(slave: nat, copy: nat)
    requires slave < 256 && copy < 256
    ensures (copy + Replayed(slave, copy)) % 256 == slave
  {
  }

  // ---- in place ----

  /** A turn reported for an encoder: +1 counter-clockwise, -1 clockwise (without direction flip). */
  datatype Turn = Turn(index: nat, turn: int)

  /** The turns of `n` steps in one direction. */
  function Turns(index: nat, n: int): (ts: seq<Turn>)
    decreases if n >= 0 then n else -n
  {
    if n > 0 then Turns(index, n - 1) + [Turn(index, 1)]
    else if n < 0 then Turns(index, n + 1) + [Turn(index, -1)]
    else []
  }

  /** As many turns as steps, all of this encoder and in the direction of the steps. */
  lemma {:induction false} TurnsAre(index: nat, n: int)
    ensures |Turns(index, n)| == if n >= 0 then n else -n
    ensures forall t :: t in Turns(index, n) ==> t == Turn(index, if n > 0 then 1 else -1)
    decreases if n >= 0 then n else -n
  {
    if n > 0 {
      TurnsAre(index, n - 1);
    } else if n < 0 {
      TurnsAre(index, n + 1);
    }
  }

  class Half {
    const count: nat
    const thisHand: nat
    const master: bool
    /** The left half's resolutions, then the right half's; both halves look theirs up from the beginning. */
    const resolutions: seq<int>
    const state: array<nat>
    const pulses: array<int>
    const value: array<nat>

    ghost predicate Valid() {
      && |resolutions| == value.Length && state.Length == count && pulses.Length == count
      && thisHand + count <= value.Length && state != value
      && forall i :: 0 <= i < count ==> resolutions[i] > 0
    }

    /** Encoder `i` of this half. */
    ghost function At(i: nat): Enc
      requires Valid() && i < count
      reads state, pulses, value
    {
      Enc(state[i], pulses[i], value[thisHand + i])
    }

    /** `encoder_init`: the history starts with the pad bits `pads`. */
    constructor (count: nat, thisHand: nat, total: nat, master: bool, resolutions: seq<int>, pads: seq<nat>)
      requires |resolutions| == total && |pads| == count && thisHand + count <= total
      requires forall i :: 0 <= i < count ==> resolutions[i] > 0
      ensures Valid() && this.count == count && this.thisHand == thisHand && this.master == master && this.resolutions == resolutions
      ensures fresh(state) && fresh(pulses) && fresh(value) && value.Length == total
      ensures forall i :: 0 <= i < count ==> At(i) == Enc(pads[i], 0, 0)
    {
      this.count, this.thisHand, this.master, this.resolutions := count, thisHand, master, resolutions;
      state := new nat[count](i requires 0 <= i < count => pads[i]);
      pulses := new int[count](_ => 0);
      value := new nat[total](_ => 0);
    }

    /** The turns of one reading that this half reports: all of them on the master, none on the slave. */
    ghost function Reported(i: nat, r: Reading): seq<Turn> {
      if master && r.turn != 0 then [Turn(thisHand + i, r.turn)] else []
    }

    /** All encoders of this half. */
    ghost function Encs(): seq<Enc>
      requires Valid()
      reads state, pulses, value
    {
      seq(count, i requires 0 <= i < count reads state, pulses, value => At(i))
    }

    /** The turns reported for the first `n` of the encoders `encs`. */
    ghost function AllReported(encs: seq<Enc>, pads: seq<nat>, n: nat): seq<Turn>
      requires Valid() && n <= |encs| == |pads| == count && forall i :: 0 <= i < count ==> pads[i] < 4
    {
      if n == 0 then [] else AllReported(encs, pads, n - 1) + Reported(n - 1, Read(encs[n - 1], pads[n - 1], resolutions[n - 1]))
    }

    /** Only encoder `i` of this half, and its counter, may have changed. */
    twostate predicate OnlyEncoder(i: nat)
      requires Valid() && i < count
      reads state, pulses, value
    {
      && (forall k :: 0 <= k < count && k != i ==> state[k] == old(state[k]) && pulses[k] == old(pulses[k]))
      && (forall k :: 0 <= k < value.Length && k != thisHand + i ==> value[k] == old(value[k]))
    }

    /** `encoder_update`: the turns reported here. */
    method UpdateEncoder(i: nat) returns (turns: seq<Turn>)
      requires Valid() && i < count
      modifies pulses, value
      ensures var r := Update(old(At(i)), resolutions[i]); At(i) == r.enc && turns == Reported(i, r)
      ensures forall t :: t in turns ==> master && t.index == thisHand + i
      ensures OnlyEncoder(i)
    {
      turns := [];
      var index := thisHand + i;
      var resolution := resolutions[i];
      var p := Signed8(pulses[i] + Lut(state[i] % 16));
      pulses[i] := p;
      if p >= resolution {
        value[index] := (value[index] + 1) % 256;
        if master {
          turns := turns + [Turn(index, 1)];
        }
      }
      if p <= -resolution {
        value[index] := (value[index] + 255) % 256;
        if master {
          turns := turns + [Turn(index, -1)];
        }
      }
      pulses[i] := Rem(p, resolution);
    }

    /** The body of the loop in `encoder_read`. */
    method ReadEncoder(i: nat, pads: nat) returns (turns: seq<Turn>)
      requires Valid() && i < count && pads < 4
      modifies state, pulses, value
      ensures var r := Read(old(At(i)), pads, resolutions[i]); At(i) == r.enc && turns == Reported(i, r)
      ensures OnlyEncoder(i)
    {
      turns := [];
      if state[i] % 4 != pads {
        state[i] := (state[i] * 4 + pads) % 256;
        turns := UpdateEncoder(i);
      }
    }

    /** `encoder_read`: every encoder of this half, with its pad bits. */
    method ReadAll(pads: seq<nat>) returns (turns: seq<Turn>)
      requires Valid() && |pads| == count && forall i :: 0 <= i < count ==> pads[i] < 4
      modifies state, pulses, value
      ensures forall i :: 0 <= i < count ==> At(i) == Read(old(At(i)), pads[i], resolutions[i]).enc
      ensures turns == AllReported(old(Encs()), pads, count)
      ensures forall k :: 0 <= k < value.Length && !(thisHand <= k < thisHand + count) ==> value[k] == old(value[k])
    {
      turns := [];
      for i := 0 to count
        invariant forall k :: 0 <= k < count ==> At(k) == if k < i then Read(old(At(k)), pads[k], resolutions[k]).enc else old(At(k))
        invariant turns == AllReported(old(Encs()), pads, i)
        invariant forall k :: 0 <= k < value.Length && !(thisHand <= k < thisHand + count) ==> value[k] == old(value[k])
      {
        ghost var before := Encs();
        var ts := ReadEncoder(i, pads[i]);
        assert forall k :: 0 <= k < count && k != i ==> At(k) == before[k];
        turns := turns + ts;
      }
    }

    /** The copy of counter `index` moves by `total` as a byte, one reported turn at a time, and no other does. */
    twostate predicate Moved(index: nat, total: int, turns: seq<Turn>)
      requires index < value.Length
      reads value
    {
      && turns == Turns(index, total)
      && value[index] == (old(value[index]) + total) % 256
      && forall k :: 0 <= k < value.Length && k != index ==> value[k] == old(value[k])
    }

    /** The first loop of `encoder_update_raw`: the copy catches up turn by turn. */
    method ReplayUp(index: nat, total: int) returns (turns: seq<Turn>)
      requires index < value.Length && value[index] < 256 && total >= 0
      modifies value
      ensures Moved(index, total, turns)
    {
      turns := [];
      var delta := total;
      while delta > 0
        invariant 0 <= delta <= total
        invariant Moved(index, total - delta, turns)
      {
        delta := delta - 1;
        NextByte(old(value[index]), total - delta - 1, 1);
        value[index] := (value[index] + 1) % 256;
        turns := turns + [Turn(index, 1)];
      }
    }

    /** The second loop of `encoder_update_raw`. */
    method ReplayDown(index: nat, total: int) returns (turns: seq<Turn>)
      requires index < value.Length && value[index] < 256 && total <= 0
      modifies value
      ensures Moved(index, total, turns)
    {
      turns := [];
      var delta := total;
      while delta < 0
        invariant total <= delta <= 0
        invariant Moved(index, total - delta, turns)
      {
        delta := delta + 1;
        NextByte(old(value[index]), total - delta + 1, -1);
        value[index] := (value[index] + 255) % 256;
        turns := turns + [Turn(index, -1)];
      }
    }

    /** The body of the loop over the other half's encoders in `encoder_update_raw`. */
    method Replay(slave: nat, index: nat) returns (turns: seq<Turn>)
      requires index < value.Length && slave < 256 && value[index] < 256
      modifies value
      ensures turns == Turns(index, Replayed(slave, old(value[index])))
      ensures value[index] == slave
      ensures forall k :: 0 <= k < value.Length && k != index ==> value[k] == old(value[k])
    {
      var delta := Signed8(slave - value[index]);
      CatchUp(slave, value[index]);
      if delta >= 0 {
        turns := ReplayUp(index, delta);
      } else {
        turns := ReplayDown(index, delta);
      }
    }

    /** `encoder_update_raw`: every counter of the other half, whose counters begin at `thatHand`. */
    method UpdateRaw(slave: seq<nat>, thatHand: nat) returns (turns: seq<Turn>)
      requires thatHand + |slave| <= value.Length
      requires forall i :: 0 <= i < |slave| ==> slave[i] < 256
      requires forall k :: 0 <= k < value.Length ==> value[k] < 256
      modifies value
      ensures value[thatHand..thatHand + |slave|] == slave
      ensures turns == AllReplayed(slave, old(value[..]), thatHand, |slave|)
      ensures forall k :: 0 <= k < value.Length && !(thatHand <= k < thatHand + |slave|) ==> value[k] == old(value[k])
    {
      turns := [];
      for i := 0 to |slave|
        invariant turns == AllReplayed(slave, old(value[..]), thatHand, i)
        invariant forall k :: thatHand <= k < thatHand + i ==> value[k] == slave[k - thatHand]
        invariant forall k :: 0 <= k < value.Length && !(thatHand <= k < thatHand + i) ==> value[k] == old(value[k])
        invariant forall k :: 0 <= k < value.Length ==> value[k] < 256
      {
        var ts := Replay(slave[i], thatHand + i);
        turns := turns + ts;
      }
    }

    /** `encoder_state_raw`: what the slave sends. */
    method StateRaw() returns (slave: seq<nat>)
      requires Valid()
      ensures |slave| == count && forall i :: 0 <= i < count ==> slave[i] == At(i).value
    {
      slave := value[thisHand..thisHand + count];
    }
  }
}
