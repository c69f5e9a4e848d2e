/**
 The limits of per-key order.  A build that fails `KeepsOrder` fails it in one of four ways,
 and for each there is a run, for every choice of keys and every term, in which some key's
 events leave out of order.  With the theorems of TappingRuns.dfy this makes the condition
 exact, both for the order of real events and, with the condition that nothing is invented,
 for the alternation of what `process_record` is told.
 */
module TappingLimits {
  import opened Grid
  import opened TappingModel
  import opened TappingOrder
  import opened TappingRuns

  function Down(k: KeyPos, time: nat): Record {
    Record(Event(k, true, time), Tap(false, 0))
  }

  function Up(k: KeyPos, time: nat): Record {
    Record(Event(k, false, time), Tap(false, 0))
  }

  function Sent(h: History, r: Record): History {
    Then(h, Delivery(r, false))
  }

  predicate IsKey(k: KeyPos) {
    k != KeyPos(TICK, TICK)
  }

  /** The front of the buffer is handled. */
  lemma Pop(env: Env, s: State, r: Record, rest: seq<Record>, t: State)
    requires s.waiting == [r] + rest && ProcessTapping(env, s, r) == Outcome(t, r, true) && t.waiting == s.waiting
    ensures Drain(env, s) == Drain(env, t.(waiting := rest))
  {
    assert t.waiting[1..] == rest;
  }

  /** The front of the buffer is not handled. */
  lemma Stop(env: Env, s: State, r: Record, t: State)
    requires s.waiting != [] && s.waiting[0] == r
    requires ProcessTapping(env, s, r) == Outcome(t, r, false) && t.waiting == s.waiting
    ensures Drain(env, s) == t
  {
    assert t.waiting[0 := r] == t.waiting;
  }

  // ---- runs with fixed settings ----

  function Inputs(env: Env, es: seq<Event>): (inputs: seq<Input>)
    ensures |inputs| == |es| && forall i :: 0 <= i < |es| ==> inputs[i] == Input(env, es[i])
  {
    seq(|es|, i requires 0 <= i < |es| => Input(env, es[i]))
  }

  /** Real events, each key's presses and releases alternating. */
  ghost predicate Orderly(es: seq<Event>) {
    (forall i :: 0 <= i < |es| ==> es[i].IsEvent()) && (forall k :: Alternates(Of(es, k)))
  }

  /** The orderly run `es` from power-up leads to `s`. */
  ghost predicate Leads(env: Env, es: seq<Event>, s: State) {
    Orderly(es) && Steps(env, START, es) == s
  }

  lemma LeadsNowhere(env: Env)
    ensures Leads(env, [], START)
  {
  }

  lemma OrderlySnoc(es: seq<Event>, e: Event)
    requires Orderly(es) && e.IsEvent() && e.pressed == !EndsPressed(Of(es, e.key))
    ensures Orderly(es + [e])
    ensures forall k :: Of(es + [e], k) == if e.key == k then Of(es, k) + [e] else Of(es, k)
  {
    forall k
      ensures Of(es + [e], k) == if e.key == k then Of(es, k) + [e] else Of(es, k)
      ensures Alternates(Of(es + [e], k))
    {
      OfAppend(es, e, k);
      assert Alternates(Of(es, k));
      if e.key == k {
        AlternatesAppend(Of(es, k), e);
      }
    }
  }

  lemma AlternatesAppend(es: seq<Event>, e: Event)
    requires Alternates(es) && e.pressed == !EndsPressed(es)
    ensures Alternates(es + [e])
  {
    if es != [] {
      assert es[|es| - 1].pressed == ((|es| - 1) % 2 == 0);
    }
  }

  lemma StepsSnoc(env: Env, s: State, es: seq<Event>, e: Event)
    ensures Steps(env, s, es + [e]) == Step(env, Steps(env, s, es), e)
  {
    assert (es + [e])[..|es|] == es;
  }

  /** One more event. */
  lemma Extend(env: Env, es: seq<Event>, s: State, e: Event, s': State)
    requires Leads(env, es, s) && e.IsEvent() && e.pressed == !EndsPressed(Of(es, e.key)) && Step(env, s, e) == s'
    ensures Leads(env, es + [e], s')
    ensures forall k :: Of(es + [e], k) == if e.key == k then Of(es, k) + [e] else Of(es, k)
  {
    OrderlySnoc(es, e);
    StepsSnoc(env, START, es, e);
  }

  lemma SentOf(h: History, r: Record, k: KeyPos)
    ensures Of(Delivered(Sent(h, r)), k) == if r.event.key == k then Of(Delivered(h), k) + [r.event] else Of(Delivered(h), k)
  {
    OfAppend(Delivered(h), r.event, k);
  }

  lemma InputsFront(env: Env, es: seq<Event>)
    requires es != []
    ensures Inputs(env, es)[..|es| - 1] == Inputs(env, es[..|es| - 1])
  {
  }

  lemma StepsLast(env: Env, s: State, es: seq<Event>)
    requires es != []
    ensures Steps(env, s, es) == Step(env, Steps(env, s, es[..|es| - 1]), es[|es| - 1])
  {
  }

  lemma {:induction false} RunIsSteps(env: Env, es: seq<Event>)
    ensures Run(START, Inputs(env, es)) == Steps(env, START, es)
  {
    if es != [] {
      RunIsSteps(env, es[..|es| - 1]);
      InputsFront(env, es);
      RunLast(Inputs(env, es));
      StepsLast(env, START, es);
    }
  }

  lemma RunLast(inputs: seq<Input>)
    requires inputs != []
    ensures var n := |inputs| - 1;
            Run(START, inputs) == Step(inputs[n].env, Run(START, inputs[..n]), inputs[n].event)
  {
  }

  lemma {:induction false} InputsReceived(env: Env, es: seq<Event>)
    requires forall i :: 0 <= i < |es| ==> es[i].IsEvent()
    ensures Received(Inputs(env, es)) == es
  {
    if es != [] {
      var n := |es| - 1;
      InputsReceived(env, es[..n]);
      InputsFront(env, es);
      assert es == es[..n] + [es[n]];
    }
  }

  /** A well-formed run of the build, without overflow. */
  ghost predicate Regular(b: Build, inputs: seq<Input>) {
    WellFormed(b, inputs) && Run(START, inputs).discarded == []
  }

  /** A regular run in which some key's events leave out of order, and some key is not told in turn. */
  ghost predicate Breaks(b: Build, inputs: seq<Input>) {
    Regular(b, inputs) && !NoneOvertakes(inputs) && !ToldAlternates(inputs)
  }

  /** All of `k` was delivered and nothing invented, but not in turn. */
  predicate OutOfTurn(h: History, es: seq<Event>, k: KeyPos) {
    && NoneInvented(h)
    && |Of(Delivered(h), k)| == |Of(es, k)|
    && !Alternates(Of(Delivered(h), k))
  }

  lemma RegularRun(b: Build, env: Env, es: seq<Event>, s: State)
    requires Follows(env, b) && Leads(env, es, s) && s.discarded == []
    ensures Regular(b, Inputs(env, es))
    ensures Run(START, Inputs(env, es)) == s && Received(Inputs(env, es)) == es
  {
    RunIsSteps(env, es);
    InputsReceived(env, es);
    OrderlyIsWellFormed(b, env, es);
  }

  /** All was delivered, but `k` out of turn. */
  lemma BreaksAt(b: Build, env: Env, es: seq<Event>, s: State, k: KeyPos)
    requires Follows(env, b) && Leads(env, es, s)
    requires s.tapping == NO_RECORD && s.waiting == [] && s.discarded == []
    requires OutOfTurn(s.trace, es, k)
    ensures Breaks(b, Inputs(env, es))
  {
    RegularRun(b, env, es, s);
    ToldIsDelivered(s.trace);
    OutOfOrder(Inputs(env, es), s, k);
    assert !Alternates(Of(Told(Run(START, Inputs(env, es)).trace), k));
  }

  lemma OrderlyIsWellFormed(b: Build, env: Env, es: seq<Event>)
    requires Follows(env, b) && Orderly(es) && Received(Inputs(env, es)) == es
    ensures WellFormed(b, Inputs(env, es))
  {
  }

  lemma OutOfOrder(inputs: seq<Input>, s: State, k: KeyPos)
    requires Run(START, inputs) == s && s.tapping == NO_RECORD && s.waiting == []
    requires OutOfTurn(s.trace, Received(inputs), k) && Alternates(Of(Received(inputs), k))
    ensures !NoneOvertakes(inputs)
  {
    assert LineOf(s, k) == Of(Delivered(s.trace), k);
    if Subsequence(LineOf(s, k), Of(Received(inputs), k)) {
      SubsequenceLength(LineOf(s, k), Of(Received(inputs), k));
    }
  }

  /** A key other than two given ones. */
  function ThirdKey(t: KeyPos, u: KeyPos): (a: KeyPos)
    ensures IsKey(a) && a != t && a != u
  {
    if t.row != 0 && u.row != 0 then KeyPos(0, 0) else if t.row != 1 && u.row != 1 then KeyPos(1, 0) else KeyPos(2, 0)
  }

  /** With no tap in progress and a press of `a` waiting, the release of `a` is delivered first. */
  lemma ReleaseFirst(env: Env, s: State, a: KeyPos, down: nat, up: nat)
    requires s.tapping == NO_RECORD && s.waiting == [Down(a, down)] && IsKey(a) && down != 0 && up != 0
    requires forall h: History :: !env.isTap(h, Down(a, down))
    ensures Step(env, s, Up(a, up).event) == s.(waiting := [], trace := Sent(Sent(s.trace, Up(a, up)), Down(a, down)))
  {
    var s1 := Deliver(s, Up(a, up));
    assert ProcessTapping(env, s, Up(a, up)) == Outcome(s1, Up(a, up), true);
    assert s1.waiting == [Down(a, down)] + [];
    Pop(env, s1, Down(a, down), [], Deliver(s1, Down(a, down)));
  }

  /** A key that is not in the way goes straight through. */
  lemma PassesIdle(env: Env, h: History, e: Event)
    requires e.IsEvent() && (e.pressed ==> !env.isTap(h, Record(e, Tap(false, 0))))
    ensures Step(env, State(NO_RECORD, [], h, []), e) == State(NO_RECORD, [], Sent(h, Record(e, Tap(false, 0))), [])
  {
  }

  lemma TapGoesDown(env: Env, h: History, t: KeyPos, time: nat)
    requires IsKey(t) && time != 0 && env.isTap(h, Down(t, time))
    ensures Step(env, State(NO_RECORD, [], h, []), Down(t, time).event) == State(Down(t, time), [], h, [])
  {
  }

  // ---- a second tap key ----

  function TwoTaps(t: KeyPos, u: KeyPos, term: nat): Env {
    Env((h: History, r: Record) => r.event.key == t || r.event.key == u,
        (h: History, r: Record) => term, (h: History, r: Record) => term,
        (h: History, r: Record) => false, (h: History, r: Record) => false, (h: History, r: Record) => false)
  }

  lemma TwoTapsFollows(b: Build, t: KeyPos, u: KeyPos)
    requires b.Valid() && !b.hold && t in b.taps && u in b.taps
    ensures Follows(TwoTaps(t, u, b.longest), b)
  {
  }

  /** A time `d` after `t`, as 16-bit time stamps. */
  function Later(t: nat, d: nat): nat {
    (t + d) % 0x1_0000
  }

  lemma LaterDiff(t: nat, d: nat)
    requires t < 0x1_0000 && d < 0x1_0000
    ensures Diff16(Later(t, d), t) == d && Diff16(t, t) == 0
    ensures 0 < t && t + d < 0x1_0000 ==> Later(t, d) != 0
  {
  }

  /** U is pressed inside T's term and waits. */
  lemma SecondTapWaits(t: KeyPos, u: KeyPos, term: nat, time: nat)
    requires IsKey(t) && IsKey(u) && t != u && time != 0 && Diff16(time, time) == 0 < term
    ensures Step(TwoTaps(t, u, term), State(Down(t, time), [], Nothing, []), Down(u, time).event) ==
            State(Record(Event(t, true, time), Tap(true, 0)), [Down(u, time)], Nothing, [])
  {
    var env := TwoTaps(t, u, term);
    var s1 := State(Down(t, time), [], Nothing, []);
    var heldT := Record(Event(t, true, time), Tap(true, 0));
    var s2 := State(heldT, [Down(u, time)], Nothing, []);
    assert ProcessTapping(env, s1, Down(u, time)) == Outcome(s1.(tapping := heldT), Down(u, time), false);
    Stop(env, s2, Down(u, time), s2);
  }

  /** A's press times out T, then U in the buffer loop, and stays behind with no tap in progress. */
  lemma SecondTapTimesOut(t: KeyPos, u: KeyPos, a: KeyPos, term: nat, time: nat, late: nat)
    requires IsKey(t) && IsKey(u) && IsKey(a) && t != u && t != a && u != a
    requires time != 0 && late != 0 && 0 < term <= Diff16(late, time)
    ensures var heldT := Record(Event(t, true, time), Tap(true, 0));
            Step(TwoTaps(t, u, term), State(heldT, [Down(u, time)], Nothing, []), Down(a, late).event) ==
            State(NO_RECORD, [Down(a, late)], Sent(Sent(Nothing, heldT), Down(u, time)), [])
  {
    var env := TwoTaps(t, u, term);
    var heldT := Record(Event(t, true, time), Tap(true, 0));
    var h := Sent(Nothing, heldT);
    var s2 := State(heldT, [Down(u, time)], Nothing, []);
    var s3 := State(NO_RECORD, [Down(a, late)], Sent(h, Down(u, time)), []);
    var q := State(NO_RECORD, [Down(u, time)] + [Down(a, late)], h, []);
    var q1 := State(Down(u, time), [Down(a, late)], h, []);
    assert ProcessTapping(env, s2, Down(a, late)) == Outcome(State(NO_RECORD, [Down(u, time)], h, []), Down(a, late), false);
    assert ProcessTapping(env, q, Down(u, time)) == Outcome(q.(tapping := Down(u, time)), Down(u, time), true);
    Pop(env, q, Down(u, time), [Down(a, late)], q.(tapping := Down(u, time)));
    assert ProcessTapping(env, q1, Down(a, late)) == Outcome(s3, Down(a, late), false);
    Stop(env, q1, Down(a, late), s3);
  }

  /**
   Without "hold on other key press", two tap keys T and U: T down, U down, A down after both have timed out, A up
   before the next tick.  The buffer loop starts a tap on U, lets A's press time it out, and stops with that press
   still waiting and no tap in progress; A's release is then delivered before A's press.
   */
  lemma SecondTapKeyReorders(b: Build, t: KeyPos, u: KeyPos) returns (inputs: seq<Input>)
    requires b.Valid() && !b.hold && b.longest > 0 && t in b.taps && u in b.taps && t != u
    ensures Breaks(b, inputs)
  {
    var a := ThirdKey(t, u);
    var time := if b.longest == 0xFFFF then 2 else 1;
    var late := Later(time, b.longest);
    LaterDiff(time, b.longest);
    var es, h := SecondTapRun(t, u, a, b.longest, time, late);
    TwoTapsFollows(b, t, u);
    inputs := SwappedBreaks(b, TwoTaps(t, u, b.longest), es, h, a, late);
  }

  lemma SecondTapRun(t: KeyPos, u: KeyPos, a: KeyPos, term: nat, time: nat, late: nat) returns (es: seq<Event>, h: History)
    requires IsKey(t) && IsKey(u) && IsKey(a) && t != u && t != a && u != a
    requires time != 0 && late != 0 && Diff16(time, time) == 0 < term <= Diff16(late, time)
    ensures Leads(TwoTaps(t, u, term), es, State(NO_RECORD, [], Sent(Sent(h, Up(a, late)), Down(a, late)), []))
    ensures Of(es, a) == [] + [Down(a, late).event] + [Up(a, late).event] && Of(Delivered(h), a) == [] && NoneInvented(h)
  {
    var env := TwoTaps(t, u, term);
    var heldT := Record(Event(t, true, time), Tap(true, 0));
    h := Sent(Sent(Nothing, heldT), Down(u, time));
    var s2 := State(heldT, [Down(u, time)], Nothing, []);
    var s3 := State(NO_RECORD, [Down(a, late)], h, []);
    var s4 := State(NO_RECORD, [], Sent(Sent(h, Up(a, late)), Down(a, late)), []);
    var e3, e4 := Down(a, late).event, Up(a, late).event;
    var es2 := BothTapsDown(t, u, a, term, time);
    SecondTapTimesOut(t, u, a, term, time, late);
    Extend(env, es2, s2, e3, s3);
    ReleaseFirst(env, s3, a, late, late);
    Extend(env, es2 + [e3], s3, e4, s4);
    es := es2 + [e3] + [e4];
    SentOf(Nothing, heldT, a);
    SentOf(Sent(Nothing, heldT), Down(u, time), a);
  }

  lemma BothTapsDown(t: KeyPos, u: KeyPos, a: KeyPos, term: nat, time: nat) returns (es: seq<Event>)
    requires IsKey(t) && IsKey(u) && t != u && a != t && a != u && time != 0 && Diff16(time, time) == 0 < term
    ensures Leads(TwoTaps(t, u, term), es, State(Record(Event(t, true, time), Tap(true, 0)), [Down(u, time)], Nothing, []))
    ensures Of(es, a) == []
  {
    var env := TwoTaps(t, u, term);
    var s1 := State(Down(t, time), [], Nothing, []);
    var s2 := State(Record(Event(t, true, time), Tap(true, 0)), [Down(u, time)], Nothing, []);
    var e1, e2 := Down(t, time).event, Down(u, time).event;
    LeadsNowhere(env);
    TapGoesDown(env, Nothing, t, time);
    Extend(env, [], START, e1, s1);
    SecondTapWaits(t, u, term, time);
    Extend(env, [] + [e1], s1, e2, s2);
    es := [] + [e1] + [e2];
  }

  /** The press and the release of `a` left in the wrong order. */
  lemma SwappedBreaks(b: Build, env: Env, es: seq<Event>, h: History, a: KeyPos, time: nat) returns (inputs: seq<Input>)
    requires Follows(env, b) && Leads(env, es, State(NO_RECORD, [], Sent(Sent(h, Up(a, time)), Down(a, time)), []))
    requires Of(es, a) == [] + [Down(a, time).event] + [Up(a, time).event] && Of(Delivered(h), a) == [] && NoneInvented(h)
    ensures Breaks(b, inputs)
  {
    var down, up := Down(a, time).event, Up(a, time).event;
    SentOf(h, Up(a, time), a);
    SentOf(Sent(h, Up(a, time)), Down(a, time), a);
    assert ([] + [up] + [down])[0] == up;
    BreaksAt(b, env, es, State(NO_RECORD, [], Sent(Sent(h, Up(a, time)), Down(a, time)), []), a);
    inputs := Inputs(env, es);
  }

  // ---- a term that changes ----

  /** The term is shorter once the tap key has been interrupted. */
  function ShorterWhenInterrupted(t: KeyPos, lo: nat, hi: nat): Env {
    Env((h: History, r: Record) => r.event.key == t,
        (h: History, r: Record) => if r.tap.interrupted then lo else hi, (h: History, r: Record) => lo,
        (h: History, r: Record) => false, (h: History, r: Record) => false, (h: History, r: Record) => false)
  }

  lemma ShorterWhenInterruptedFollows(b: Build, t: KeyPos)
    requires b.Valid() && !b.hold && t in b.taps
    ensures Follows(ShorterWhenInterrupted(t, b.shortest, b.longest), b)
  {
  }

  /**
   Without "hold on other key press", a term that may change: T down, A down inside the longer term but not the
   shorter.  A's press is queued, times T out in the buffer loop, and stays behind; A's release overtakes it.
   */
  lemma ChangingTermReorders(b: Build, t: KeyPos) returns (inputs: seq<Input>)
    requires b.Valid() && !b.hold && b.shortest < b.longest && t in b.taps
    ensures Breaks(b, inputs)
  {
    var a := ThirdKey(t, t);
    var late := Later(1, b.shortest);
    LaterDiff(1, b.shortest);
    var es, h := ChangingTermRun(t, a, b.shortest, b.longest, late);
    ShorterWhenInterruptedFollows(b, t);
    inputs := SwappedBreaks(b, ShorterWhenInterrupted(t, b.shortest, b.longest), es, h, a, late);
  }

  lemma ChangingTermRun(t: KeyPos, a: KeyPos, lo: nat, hi: nat, late: nat) returns (es: seq<Event>, h: History)
    requires IsKey(t) && IsKey(a) && t != a && late != 0 && lo == Diff16(late, 1) < hi
    ensures Leads(ShorterWhenInterrupted(t, lo, hi), es, State(NO_RECORD, [], Sent(Sent(h, Up(a, late)), Down(a, late)), []))
    ensures Of(es, a) == [] + [Down(a, late).event] + [Up(a, late).event] && Of(Delivered(h), a) == [] && NoneInvented(h)
  {
    var env := ShorterWhenInterrupted(t, lo, hi);
    var heldT := Record(Event(t, true, 1), Tap(true, 0));
    h := Sent(Nothing, heldT);
    var s1 := State(Down(t, 1), [], Nothing, []);
    var s2 := State(NO_RECORD, [Down(a, late)], h, []);
    var s3 := State(NO_RECORD, [], Sent(Sent(h, Up(a, late)), Down(a, late)), []);
    var e1, e2, e3 := Down(t, 1).event, Down(a, late).event, Up(a, late).event;
    LeadsNowhere(env);
    TapGoesDown(env, Nothing, t, 1);
    Extend(env, [], START, e1, s1);
    QueuedPressTimesOut(t, a, lo, hi, 1, late);
    Extend(env, [] + [e1], s1, e2, s2);
    ReleaseFirst(env, s2, a, late, late);
    Extend(env, [] + [e1] + [e2], s2, e3, s3);
    es := [] + [e1] + [e2] + [e3];
    SentOf(Nothing, heldT, a);
  }

  lemma QueuedPressTimesOut(t: KeyPos, a: KeyPos, lo: nat, hi: nat, time: nat, late: nat)
    requires IsKey(t) && IsKey(a) && t != a && time != 0 && late != 0 && lo <= Diff16(late, time) < hi
    ensures Step(ShorterWhenInterrupted(t, lo, hi), State(Down(t, time), [], Nothing, []), Down(a, late).event) ==
            State(NO_RECORD, [Down(a, late)], Sent(Nothing, Record(Event(t, true, time), Tap(true, 0))), [])
  {
    var env := ShorterWhenInterrupted(t, lo, hi);
    var heldT := Record(Event(t, true, time), Tap(true, 0));
    var s1 := State(Down(t, time), [], Nothing, []);
    var q := State(heldT, [Down(a, late)], Nothing, []);
    var s2 := State(NO_RECORD, [Down(a, late)], Sent(Nothing, heldT), []);
    assert ProcessTapping(env, s1, Down(a, late)) == Outcome(s1.(tapping := heldT), Down(a, late), false);
    assert ProcessTapping(env, q, Down(a, late)) == Outcome(s2, Down(a, late), false);
    Stop(env, q, Down(a, late), s2);
  }

  // ---- permissive hold and a retained release ----

  /** T is the only tap key, A is a modifier whose release is retained. */
  function PermissiveRetaining(t: KeyPos, a: KeyPos, term: nat): Env {
    Env((h: History, r: Record) => r.event.key == t,
        (h: History, r: Record) => term, (h: History, r: Record) => term,
        (h: History, r: Record) => true, (h: History, r: Record) => false,
        (h: History, r: Record) => r.event.key == a)
  }

  lemma PermissiveRetainingFollows(b: Build, t: KeyPos, a: KeyPos)
    requires b.Valid() && !b.hold && b.permissive && t in b.taps && a in b.retained
    ensures Follows(PermissiveRetaining(t, a, b.longest), b)
  {
  }

  /**
   With permissive hold and without "hold on other key press", a retained key A: A down, T down, A up (retained),
   A down, A up again, all inside the term.  The first release counts as "typed" because of the press queued behind
   it, T becomes a hold in the middle of the buffer loop, and A's second release leaves before its second press.
   */
  lemma PermissiveHoldReorders(b: Build, t: KeyPos, a: KeyPos) returns (inputs: seq<Input>)
    requires b.Valid() && !b.hold && b.permissive && b.longest > 0 && t in b.taps && a in b.retained && t != a
    ensures Breaks(b, inputs)
  {
    var env := PermissiveRetaining(t, a, b.longest);
    var heldT := Record(Event(t, true, 1), Tap(true, 0));
    var h := Sent(Nothing, Down(a, 1));
    var s3 := State(Down(t, 1), [Up(a, 1)], h, []);
    var s4 := State(NO_RECORD, [Up(a, 1)] + [Down(a, 1)], Sent(h, heldT), []);
    var s5 := State(NO_RECORD, [], Sent(Sent(Sent(Sent(h, heldT), Up(a, 1)), Up(a, 1)), Down(a, 1)), []);
    var d, u := Down(a, 1).event, Up(a, 1).event;
    var es3 := RetainedRun(t, a, b.longest);
    RetainedIsTyped(t, a, b.longest, h);
    Extend(env, es3, s3, d, s4);
    BothFollow(t, a, b.longest, Sent(h, heldT));
    Extend(env, es3 + [d], s4, u, s5);
    var es := es3 + [d] + [u];
    SentOf(Nothing, Down(a, 1), a);
    SentOf(h, heldT, a);
    TwiceReleased(Sent(h, heldT), a, es, d, u);
    PermissiveRetainingFollows(b, t, a);
    BreaksAt(b, env, es, s5, a);
    inputs := Inputs(env, es);
  }

  /** A down, T down, A up, which waits. */
  lemma RetainedRun(t: KeyPos, a: KeyPos, term: nat) returns (es: seq<Event>)
    requires IsKey(t) && IsKey(a) && t != a && term > 0
    ensures var h := Sent(Nothing, Down(a, 1));
            Leads(PermissiveRetaining(t, a, term), es, State(Down(t, 1), [Up(a, 1)], h, []))
    ensures Of(es, a) == [] + [Down(a, 1).event] + [Up(a, 1).event]
  {
    var env := PermissiveRetaining(t, a, term);
    LaterDiff(1, 0);
    var h := Sent(Nothing, Down(a, 1));
    var s1 := State(NO_RECORD, [], h, []);
    var s2 := State(Down(t, 1), [], h, []);
    var d, e1, u := Down(a, 1).event, Down(t, 1).event, Up(a, 1).event;
    LeadsNowhere(env);
    PassesIdle(env, Nothing, d);
    Extend(env, [], START, d, s1);
    TapGoesDown(env, h, t, 1);
    Extend(env, [] + [d], s1, e1, s2);
    RetainedWaits(t, a, term, h);
    Extend(env, [] + [d] + [e1], s2, u, State(Down(t, 1), [Up(a, 1)], h, []));
    es := [] + [d] + [e1] + [u];
  }

  lemma RetainedWaits(t: KeyPos, a: KeyPos, term: nat, h: History)
    requires IsKey(t) && IsKey(a) && t != a && term > 0
    ensures Step(PermissiveRetaining(t, a, term), State(Down(t, 1), [], h, []), Up(a, 1).event) ==
            State(Down(t, 1), [Up(a, 1)], h, [])
  {
    var env := PermissiveRetaining(t, a, term);
    var s2 := State(Down(t, 1), [], h, []);
    var s3 := State(Down(t, 1), [Up(a, 1)], h, []);
    assert ProcessTapping(env, s2, Up(a, 1)) == Outcome(s2, Up(a, 1), false);
    assert ProcessTapping(env, s3, Up(a, 1)) == Outcome(s3, Up(a, 1), false);
    Stop(env, s3, Up(a, 1), s3);
  }

  lemma RetainedIsTyped(t: KeyPos, a: KeyPos, term: nat, h: History)
    requires IsKey(t) && IsKey(a) && t != a && term > 0
    ensures Step(PermissiveRetaining(t, a, term), State(Down(t, 1), [Up(a, 1)], h, []), Down(a, 1).event) ==
            State(NO_RECORD, [Up(a, 1)] + [Down(a, 1)], Sent(h, Record(Event(t, true, 1), Tap(true, 0))), [])
  {
    var env := PermissiveRetaining(t, a, term);
    var heldT := Record(Event(t, true, 1), Tap(true, 0));
    var s3 := State(Down(t, 1), [Up(a, 1)], h, []);
    var w := [Up(a, 1)] + [Down(a, 1)];
    var q := State(heldT, w, h, []);
    var s4 := State(NO_RECORD, w, Sent(h, heldT), []);
    assert ProcessTapping(env, s3, Down(a, 1)) == Outcome(s3.(tapping := heldT), Down(a, 1), false);
    assert w[1] == Down(a, 1);
    assert Typed(w, Up(a, 1).event);
    assert ProcessTapping(env, q, Up(a, 1)) == Outcome(s4, Up(a, 1), false);
    Stop(env, q, Up(a, 1), s4);
  }

  lemma BothFollow(t: KeyPos, a: KeyPos, term: nat, h: History)
    requires IsKey(a) && t != a
    ensures Step(PermissiveRetaining(t, a, term), State(NO_RECORD, [Up(a, 1)] + [Down(a, 1)], h, []), Up(a, 1).event) ==
            State(NO_RECORD, [], Sent(Sent(Sent(h, Up(a, 1)), Up(a, 1)), Down(a, 1)), [])
  {
    var env := PermissiveRetaining(t, a, term);
    var s4 := State(NO_RECORD, [Up(a, 1)] + [Down(a, 1)], h, []);
    var up := Deliver(s4, Up(a, 1));
    assert ProcessTapping(env, s4, Up(a, 1)) == Outcome(up, Up(a, 1), true);
    var up1 := Deliver(up, Up(a, 1));
    Pop(env, up, Up(a, 1), [Down(a, 1)], up1);
    var up2 := up1.(waiting := [Down(a, 1)]);
    assert up2.waiting == [Down(a, 1)] + [];
    Pop(env, up2, Down(a, 1), [], Deliver(up2, Down(a, 1)));
  }

  lemma TwiceReleased(h: History, a: KeyPos, es: seq<Event>, d: Event, u: Event)
    requires Of(Delivered(h), a) == [] + [d] && d == Down(a, 1).event && u == Up(a, 1).event && NoneInvented(h)
    requires Of(es, a) == [] + [d] + [u] + [d] + [u]
    ensures OutOfTurn(Sent(Sent(Sent(h, Up(a, 1)), Up(a, 1)), Down(a, 1)), es, a)
  {
    SentOf(h, Up(a, 1), a);
    SentOf(Sent(h, Up(a, 1)), Up(a, 1), a);
    SentOf(Sent(Sent(h, Up(a, 1)), Up(a, 1)), Down(a, 1), a);
    assert ([] + [d] + [u] + [u] + [d])[2] == u;
    assert NoneInvented(Sent(Sent(h, Up(a, 1)), Up(a, 1)));
  }

  // ---- a changing term and a retained release, with "hold on other key press" ----

  /** The term is shorter right after a release; A's release is retained. */
  function ShorterAfterRelease(t: KeyPos, a: KeyPos, lo: nat, hi: nat): Env {
    Env((h: History, r: Record) => r.event.key == t,
        (h: History, r: Record) => if h.Then? && !h.latest.record.event.pressed then lo else hi, (h: History, r: Record) => lo,
        (h: History, r: Record) => false, (h: History, r: Record) => true,
        (h: History, r: Record) => r.event.key == a)
  }

  lemma ShorterAfterReleaseFollows(b: Build, t: KeyPos, a: KeyPos)
    requires b.Valid() && b.hold && t in b.taps && a in b.retained
    ensures Follows(ShorterAfterRelease(t, a, b.shortest, b.longest), b)
  {
  }

  /**
   With "hold on other key press", a changing term and a retained key A: B, A and T down, A up (retained, inside the
   longer term), B up.  B's release shortens the term, A's release times T out in the buffer loop and stays behind;
   A's next press leaves before it.
   */
  lemma RetainedReleaseReorders(b: Build, t: KeyPos, a: KeyPos) returns (inputs: seq<Input>)
    requires b.Valid() && b.hold && b.shortest < b.longest && t in b.taps && a in b.retained && t != a
    ensures Breaks(b, inputs)
  {
    var c := ThirdKey(t, a);
    var late := Later(1, b.shortest);
    LaterDiff(1, b.shortest);
    var es, h := RetainedReleaseRun(t, a, c, b.shortest, b.longest, late);
    TwicePressed(h, a, late, es, Down(a, 1).event, Up(a, late).event, Down(a, late).event);
    var env := ShorterAfterRelease(t, a, b.shortest, b.longest);
    ShorterAfterReleaseFollows(b, t, a);
    BreaksAt(b, env, es, State(NO_RECORD, [], Sent(Sent(h, Down(a, late)), Up(a, late)), []), a);
    inputs := Inputs(env, es);
  }

  lemma RetainedReleaseRun(t: KeyPos, a: KeyPos, c: KeyPos, lo: nat, hi: nat, late: nat) returns (es: seq<Event>, h5: History)
    requires IsKey(t) && IsKey(a) && IsKey(c) && t != a && t != c && a != c && late != 0 && Diff16(late, 1) == lo < hi
    ensures Leads(ShorterAfterRelease(t, a, lo, hi), es, State(NO_RECORD, [], Sent(Sent(h5, Down(a, late)), Up(a, late)), []))
    ensures Of(es, a) == [] + [Down(a, 1).event] + [Up(a, late).event] + [Down(a, late).event]
    ensures Of(Delivered(h5), a) == [] + [Down(a, 1).event] && NoneInvented(h5)
  {
    var env := ShorterAfterRelease(t, a, lo, hi);
    var h := Sent(Sent(Nothing, Down(c, 1)), Down(a, 1));
    h5 := Sent(Sent(h, Up(c, late)), Down(t, 1));
    var s3 := State(Down(t, 1), [], h, []);
    var s4 := State(Down(t, 1), [Up(a, late)], h, []);
    var s5 := State(NO_RECORD, [Up(a, late)], h5, []);
    var s6 := State(NO_RECORD, [], Sent(Sent(h5, Down(a, late)), Up(a, late)), []);
    var e4, e5, e6 := Up(a, late).event, Up(c, late).event, Down(a, late).event;
    var es3 := ThreeDown(t, a, c, lo, hi);
    RetainedInTerm(t, a, lo, hi, h, late);
    Extend(env, es3, s3, e4, s4);
    OvertakingShortens(t, a, c, lo, hi, h, late);
    Extend(env, es3 + [e4], s4, e5, s5);
    PressFirst(env, s5, a, late);
    Extend(env, es3 + [e4] + [e5], s5, e6, s6);
    es := es3 + [e4] + [e5] + [e6];
    ShortenedTrace(t, a, c, late);
  }

  lemma ShortenedTrace(t: KeyPos, a: KeyPos, c: KeyPos, late: nat)
    requires t != a && a != c
    ensures var h := Sent(Sent(Nothing, Down(c, 1)), Down(a, 1));
            var h5 := Sent(Sent(h, Up(c, late)), Down(t, 1));
            Of(Delivered(h5), a) == [] + [Down(a, 1).event] && NoneInvented(h5)
  {
    var h := Sent(Sent(Nothing, Down(c, 1)), Down(a, 1));
    assert NoneInvented(h);
    SentOf(Nothing, Down(c, 1), a);
    SentOf(Sent(Nothing, Down(c, 1)), Down(a, 1), a);
    SentOf(h, Up(c, late), a);
    SentOf(Sent(h, Up(c, late)), Down(t, 1), a);
  }

  /** Two keys go down and are delivered, then the tap key goes down. */
  lemma ThreeDown(t: KeyPos, a: KeyPos, c: KeyPos, lo: nat, hi: nat) returns (es: seq<Event>)
    requires IsKey(t) && IsKey(a) && IsKey(c) && t != a && t != c && a != c
    ensures Leads(ShorterAfterRelease(t, a, lo, hi), es, State(Down(t, 1), [], Sent(Sent(Nothing, Down(c, 1)), Down(a, 1)), []))
    ensures Of(es, a) == [] + [Down(a, 1).event] && Of(es, c) == [] + [Down(c, 1).event]
  {
    var env := ShorterAfterRelease(t, a, lo, hi);
    var h := Sent(Sent(Nothing, Down(c, 1)), Down(a, 1));
    var s1 := State(NO_RECORD, [], Sent(Nothing, Down(c, 1)), []);
    var s2 := State(NO_RECORD, [], h, []);
    var e1, e2, e3 := Down(c, 1).event, Down(a, 1).event, Down(t, 1).event;
    LeadsNowhere(env);
    PassesIdle(env, Nothing, e1);
    Extend(env, [], START, e1, s1);
    PassesIdle(env, s1.trace, e2);
    Extend(env, [] + [e1], s1, e2, s2);
    TapGoesDown(env, h, t, 1);
    Extend(env, [] + [e1] + [e2], s2, e3, State(Down(t, 1), [], h, []));
    es := [] + [e1] + [e2] + [e3];
  }

  lemma RetainedInTerm(t: KeyPos, a: KeyPos, lo: nat, hi: nat, h: History, late: nat)
    requires IsKey(t) && IsKey(a) && t != a && late != 0 && Diff16(late, 1) == lo < hi
    requires h.Then? && h.latest.record.event.pressed
    ensures Step(ShorterAfterRelease(t, a, lo, hi), State(Down(t, 1), [], h, []), Up(a, late).event) ==
            State(Down(t, 1), [Up(a, late)], h, [])
  {
    var env := ShorterAfterRelease(t, a, lo, hi);
    var s3 := State(Down(t, 1), [], h, []);
    var s4 := State(Down(t, 1), [Up(a, late)], h, []);
    assert ProcessTapping(env, s3, Up(a, late)) == Outcome(s3, Up(a, late), false);
    assert ProcessTapping(env, s4, Up(a, late)) == Outcome(s4, Up(a, late), false);
    Stop(env, s4, Up(a, late), s4);
  }

  lemma OvertakingShortens(t: KeyPos, a: KeyPos, c: KeyPos, lo: nat, hi: nat, h: History, late: nat)
    requires IsKey(t) && IsKey(a) && IsKey(c) && t != a && t != c && a != c && late != 0 && Diff16(late, 1) == lo < hi
    requires h.Then? && h.latest.record.event.pressed
    ensures Step(ShorterAfterRelease(t, a, lo, hi), State(Down(t, 1), [Up(a, late)], h, []), Up(c, late).event) ==
            State(NO_RECORD, [Up(a, late)], Sent(Sent(h, Up(c, late)), Down(t, 1)), [])
  {
    var env := ShorterAfterRelease(t, a, lo, hi);
    var s4 := State(Down(t, 1), [Up(a, late)], h, []);
    var q := Deliver(s4, Up(c, late));
    var s5 := State(NO_RECORD, [Up(a, late)], Sent(Sent(h, Up(c, late)), Down(t, 1)), []);
    assert !Typed(s4.waiting, Up(c, late).event);
    assert ProcessTapping(env, s4, Up(c, late)) == Outcome(q, Up(c, late), true);
    assert ProcessTapping(env, q, Up(a, late)) == Outcome(s5, Up(a, late), false);
    Stop(env, q, Up(a, late), s5);
  }

  lemma PressFirst(env: Env, s: State, a: KeyPos, time: nat)
    requires s.tapping == NO_RECORD && s.waiting == [Up(a, time)] && IsKey(a) && time != 0
    requires forall h: History :: !env.isTap(h, Down(a, time))
    ensures Step(env, s, Down(a, time).event) == s.(waiting := [], trace := Sent(Sent(s.trace, Down(a, time)), Up(a, time)))
  {
    var s1 := Deliver(s, Down(a, time));
    assert ProcessTapping(env, s, Down(a, time)) == Outcome(s1, Down(a, time), true);
    assert s1.waiting == [Up(a, time)] + [];
    Pop(env, s1, Up(a, time), [], Deliver(s1, Up(a, time)));
  }

  lemma TwicePressed(h: History, a: KeyPos, late: nat, es: seq<Event>, d: Event, u: Event, d2: Event)
    requires Of(Delivered(h), a) == [] + [d] && u == Up(a, late).event && d2 == Down(a, late).event && NoneInvented(h)
    requires Of(es, a) == [] + [d] + [u] + [d2]
    ensures OutOfTurn(Sent(Sent(h, Down(a, late)), Up(a, late)), es, a)
  {
    SentOf(h, Down(a, late), a);
    SentOf(Sent(h, Down(a, late)), Up(a, late), a);
    assert ([] + [d] + [d2] + [u])[1] == d2;
  }

  // ---- an invented release ----

  /** T and U are tap keys with one term for everything, and any other key press settles a hold. */
  function HoldingTaps(t: KeyPos, u: KeyPos, term: nat): Env {
    Env((h: History, r: Record) => r.event.key == t || r.event.key == u,
        (h: History, r: Record) => term, (h: History, r: Record) => term,
        (h: History, r: Record) => false, (h: History, r: Record) => true, (h: History, r: Record) => false)
  }

  lemma HoldingTapsFollows(b: Build, t: KeyPos, u: KeyPos)
    requires b.Valid() && b.hold && t in b.taps && u in b.taps
    ensures Follows(HoldingTaps(t, u, b.longest), b)
  {
  }

  function Counted(r: Record, n: nat): Record {
    r.(tap := Tap(false, n))
  }

  function Invented(h: History, r: Record): History {
    Then(h, Delivery(r, true))
  }

  /** Down and up inside the term: one tap. */
  lemma OneTap(t: KeyPos, u: KeyPos, term: nat)
    requires IsKey(t) && t != u && term > 0
    ensures Step(HoldingTaps(t, u, term), State(Down(t, 1), [], Nothing, []), Up(t, 1).event) ==
            State(Counted(Up(t, 1), 1), [], Sent(Sent(Nothing, Counted(Down(t, 1), 1)), Counted(Up(t, 1), 1)), [])
  {
    var env := HoldingTaps(t, u, term);
    LaterDiff(1, 0);
    var down, up := Counted(Down(t, 1), 1), Counted(Up(t, 1), 1);
    var h := Sent(Nothing, down);
    var s1 := State(Down(t, 1), [], Nothing, []);
    assert ProcessTapping(env, s1, Up(t, 1)) == Outcome(State(down, [], h, []), up, false);
    var q := State(down, [up] + [], h, []);
    var t1 := State(up, [up] + [], Sent(h, up), []);
    assert ProcessTapping(env, q, up) == Outcome(t1, up, true);
    Pop(env, q, up, [], t1);
    assert [] + [up] == [up] + [];
  }

  /** Down again inside the quick tap term: delivered at once, with count 2. */
  lemma SecondTap(t: KeyPos, u: KeyPos, term: nat, h: History)
    requires IsKey(t) && t != u && term > 0
    ensures Step(HoldingTaps(t, u, term), State(Counted(Up(t, 1), 1), [], h, []), Down(t, 1).event) ==
            State(Counted(Down(t, 1), 2), [], Sent(h, Counted(Down(t, 1), 2)), [])
  {
    LaterDiff(1, 0);
  }

  /** The other tap key goes down: a release of the counted tap is invented. */
  lemma OtherTapInvents(t: KeyPos, u: KeyPos, term: nat, h: History)
    requires IsKey(t) && IsKey(u) && t != u && term > 0
    ensures Step(HoldingTaps(t, u, term), State(Counted(Down(t, 1), 2), [], h, []), Down(u, 1).event) ==
            State(Down(u, 1), [], Invented(h, Counted(Up(t, 1), 2)), [])
  {
    LaterDiff(1, 0);
  }

  /** The real release follows. */
  lemma RealReleaseFollows(t: KeyPos, u: KeyPos, term: nat, h: History)
    requires IsKey(t) && IsKey(u) && t != u && term > 0
    ensures Step(HoldingTaps(t, u, term), State(Down(u, 1), [], h, []), Up(t, 1).event) ==
            State(Down(u, 1), [], Sent(h, Up(t, 1)), [])
  {
    LaterDiff(1, 0);
  }

  function ToldTwice(t: KeyPos): History {
    var h2 := Sent(Sent(Nothing, Counted(Down(t, 1), 1)), Counted(Up(t, 1), 1));
    Sent(Invented(Sent(h2, Counted(Down(t, 1), 2)), Counted(Up(t, 1), 2)), Up(t, 1))
  }

  lemma ToldTwiceOf(t: KeyPos)
    ensures !Alternates(Of(Told(ToldTwice(t)), t))
  {
    var down, up := Down(t, 1).event, Up(t, 1).event;
    OfAppend([], down, t);
    OfAppend([] + [down], up, t);
    OfAppend([] + [down] + [up], down, t);
    OfAppend([] + [down] + [up] + [down], up, t);
    OfAppend([] + [down] + [up] + [down] + [up], up, t);
    ToldTwiceIs(t);
    assert ([] + [down] + [up] + [down] + [up] + [up])[4] == up;
  }

  lemma ToldTwiceIs(t: KeyPos)
    ensures var down, up := Down(t, 1).event, Up(t, 1).event;
            Told(ToldTwice(t)) == [] + [down] + [up] + [down] + [up] + [up]
  {
    var h1 := Sent(Nothing, Counted(Down(t, 1), 1));
    var h3 := Sent(Sent(h1, Counted(Up(t, 1), 1)), Counted(Down(t, 1), 2));
    assert Told(h3) == Told(h1) + [Up(t, 1).event] + [Down(t, 1).event];
  }

  lemma InventingRun(t: KeyPos, u: KeyPos, term: nat) returns (es: seq<Event>)
    requires IsKey(t) && IsKey(u) && t != u && term > 0
    ensures Leads(HoldingTaps(t, u, term), es, State(Down(u, 1), [], ToldTwice(t), []))
  {
    var env := HoldingTaps(t, u, term);
    var down, up, other := Down(t, 1).event, Up(t, 1).event, Down(u, 1).event;
    var h2 := Sent(Sent(Nothing, Counted(Down(t, 1), 1)), Counted(Up(t, 1), 1));
    var h3 := Sent(h2, Counted(Down(t, 1), 2));
    var h4 := Invented(h3, Counted(Up(t, 1), 2));
    LeadsNowhere(env);
    TapGoesDown(env, Nothing, t, 1);
    Extend(env, [], START, down, State(Down(t, 1), [], Nothing, []));
    OneTap(t, u, term);
    var es2 := [] + [down] + [up];
    Extend(env, [] + [down], State(Down(t, 1), [], Nothing, []), up, State(Counted(Up(t, 1), 1), [], h2, []));
    SecondTap(t, u, term, h2);
    Extend(env, es2, State(Counted(Up(t, 1), 1), [], h2, []), down, State(Counted(Down(t, 1), 2), [], h3, []));
    OtherTapInvents(t, u, term, h3);
    Extend(env, es2 + [down], State(Counted(Down(t, 1), 2), [], h3, []), other, State(Down(u, 1), [], h4, []));
    RealReleaseFollows(t, u, term, h4);
    Extend(env, es2 + [down] + [other], State(Down(u, 1), [], h4, []), up, State(Down(u, 1), [], ToldTwice(t), []));
    es := es2 + [down] + [other] + [up];
  }

  /**
   With "hold on other key press", two tap keys T and U: T tapped, T down again, U down, T up, all inside the term.
   U's press makes the resolver invent a release of T, and T's own release is delivered as well.
   */
  lemma InventedReleaseRepeats(b: Build, t: KeyPos, u: KeyPos) returns (inputs: seq<Input>)
    requires b.Valid() && b.hold && b.longest > 0 && t in b.taps && u in b.taps && t != u
    ensures Regular(b, inputs) && !ToldAlternates(inputs)
  {
    var env := HoldingTaps(t, u, b.longest);
    var es := InventingRun(t, u, b.longest);
    HoldingTapsFollows(b, t, u);
    RegularRun(b, env, es, State(Down(u, 1), [], ToldTwice(t), []));
    ToldTwiceOf(t);
    inputs := Inputs(env, es);
    assert !Alternates(Of(Told(Run(START, inputs).trace), t));
  }

  // ---- the exact condition ----

  /** A build that fails the condition has a run that breaks some key's order. */
  lemma OrderBroken(b: Build) returns (inputs: seq<Input>)
    requires b.Valid() && !b.KeepsOrder()
    ensures Breaks(b, inputs)
  {
    if b.hold {
      var a, t :| a in b.retained && t in b.taps && a != t;
      inputs := RetainedReleaseReorders(b, t, a);
    } else if b.shortest < b.longest {
      var t :| t in b.taps;
      inputs := ChangingTermReorders(b, t);
    } else if !b.AtMostOneTap() {
      var t, u :| t in b.taps && u in b.taps && t != u;
      inputs := SecondTapKeyReorders(b, t, u);
    } else {
      var a, t :| a in b.retained && t in b.taps && a != t;
      inputs := PermissiveHoldReorders(b, t, a);
    }
  }

  /** Every regular run keeps the real events of every key, in order, exactly when the build satisfies the condition. */
  lemma OrderKeptIff(b: Build)
    requires b.Valid()
    ensures (forall inputs :: Regular(b, inputs) ==> KeyOrderKept(inputs)) <==> b.KeepsOrder()
  {
    if b.KeepsOrder() {
      forall inputs | Regular(b, inputs)
        ensures KeyOrderKept(inputs)
      {
        PerKeyOrder(b, inputs);
      }
    } else {
      var inputs := OrderBroken(b);
      if KeyOrderKept(inputs) {
        KeptIsInOrder(inputs);
      }
    }
  }

  /** In every run, overflows included, no real event of a key overtakes another, exactly when the build satisfies the condition. */
  lemma NoneOvertakesIff(b: Build)
    requires b.Valid()
    ensures (forall inputs :: WellFormed(b, inputs) ==> NoneOvertakes(inputs)) <==> b.KeepsOrder()
  {
    if b.KeepsOrder() {
      forall inputs | WellFormed(b, inputs)
        ensures NoneOvertakes(inputs)
      {
        OrderThroughOverflow(b, inputs);
      }
    } else {
      var inputs := OrderBroken(b);
      assert WellFormed(b, inputs) && !NoneOvertakes(inputs);
    }
  }

  /** A build that keeps order but may invent a release has two tap keys, a term, and holds on another press. */
  lemma MayInvent(b: Build) returns (t: KeyPos, u: KeyPos)
    requires b.KeepsOrder() && !b.InventsNothing()
    ensures t in b.taps && u in b.taps && t != u && b.longest > 0 && b.hold
  {
    t, u :| t in b.taps && u in b.taps && t != u;
  }

  /**
   In every regular run what `process_record` is told of each key alternates, invented releases included, exactly
   when the build keeps order and invents nothing.
   */
  lemma ToldAlternatesIff(b: Build)
    requires b.Valid()
    ensures (forall inputs :: Regular(b, inputs) ==> ToldAlternates(inputs)) <==> b.KeepsOrder() && b.InventsNothing()
  {
    if !b.KeepsOrder() {
      var inputs := OrderBroken(b);
      assert Regular(b, inputs) && !ToldAlternates(inputs);
    } else if !b.InventsNothing() {
      var t, u := MayInvent(b);
      var inputs := InventedReleaseRepeats(b, t, u);
      assert Regular(b, inputs) && !ToldAlternates(inputs);
    } else {
      forall inputs | Regular(b, inputs)
        ensures ToldAlternates(inputs)
      {
        ToldInTurn(b, inputs);
      }
    }
  }
}
