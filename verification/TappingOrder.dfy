/**
 Per-key order through the tap/hold resolver.  A build is described by what its settings may
 do: which keys may be tap keys, which releases may be retained, the range of the tapping
 term, permissive hold, and hold on other key press.  For builds that satisfy `KeepsOrder`,
 one call takes any settled state to a settled state and reorders the events of no key,
 although the release of a key pressed before the tap overtakes everything in the waiting
 buffer.  TappingRuns.dfy follows whole runs; TappingLimits.dfy shows that every other
 build has a run that breaks the order.
 */
module TappingOrder {
  import opened Grid
  import opened TappingModel

  datatype Build = Build(taps: set<KeyPos>, retained: set<KeyPos>, shortest: nat, longest: nat, permissive: bool, hold: bool) {

    predicate Valid() {
      && shortest <= longest < 0x1_0000
      && KeyPos(TICK, TICK) !in taps && KeyPos(TICK, TICK) !in retained
    }

    predicate AtMostOneTap() {
      forall k, l | k in taps && l in taps :: k == l
    }

    /** The release of some key may be retained while another key is undecided. */
    predicate CanRetain() {
      exists k, t | k in retained && t in taps :: k != t
    }

    /** No event is ever left in the waiting buffer between calls. */
    predicate NothingWaits() {
      taps == {} || longest == 0 || (hold && !CanRetain())
    }

    /** The builds that keep every key's order. */
    predicate KeepsOrder() {
      || NothingWaits()
      || (shortest == longest && (hold || (AtMostOneTap() && (!permissive || !CanRetain()))))
    }

    /** No release is ever invented: no second tap key to interrupt a counted tap, or no term in which to count one. */
    predicate InventsNothing() {
      AtMostOneTap() || longest == 0
    }
  }

  /** Settings that stay within what the build allows; inside it they may depend on everything delivered so far. */
  ghost predicate Follows(env: Env, b: Build) {
    && (forall h: History, r: Record :: b.shortest <= env.tappingTerm(h, r) <= b.longest)
    && (forall h: History, r: Record :: env.isTap(h, r) && r.event.pressed && r.event.IsEvent() ==> r.event.key in b.taps)
    && (forall h: History, r: Record :: env.retain(h, r) ==> r.event.key in b.retained)
    && (forall h: History, r: Record :: env.permissiveHold(h, r) ==> b.permissive)
    && (forall h: History, r: Record :: env.holdOnOtherPress(h, r) == b.hold)
  }

  /** The events of one key, in order. */
  function Of(es: seq<Event>, key: KeyPos): (f: seq<Event>) {
    if es == [] then []
    else
      var before := Of(es[..|es| - 1], key);
      if es[|es| - 1].key == key then before + [es[|es| - 1]] else before
  }

  lemma OfAppend(es: seq<Event>, x: Event, key: KeyPos)
    ensures Of(es + [x], key) == if x.key == key then Of(es, key) + [x] else Of(es, key)
  {
    assert (es + [x])[..|es|] == es;
  }

  lemma {:induction false} OfConcat(a: seq<Event>, b: seq<Event>, key: KeyPos)
    ensures Of(a + b, key) == Of(a, key) + Of(b, key)
  {
    if b == [] {
      assert a + b == a;
    } else {
      var n := |b| - 1;
      OfConcat(a, b[..n], key);
      OfConcatOne(a, b[..n], b[n], key);
      assert b == b[..n] + [b[n]];
    }
  }

  lemma OfConcatOne(a: seq<Event>, b: seq<Event>, x: Event, key: KeyPos)
    requires Of(a + b, key) == Of(a, key) + Of(b, key)
    ensures Of(a + (b + [x]), key) == Of(a, key) + Of(b + [x], key)
  {
    OfAppend(a + b, x, key);
    OfAppend(b, x, key);
    assert a + (b + [x]) == a + b + [x];
  }

  lemma {:induction false} OfMember(es: seq<Event>, key: KeyPos)
    ensures forall x :: x in Of(es, key) ==> x in es && x.key == key
  {
    if es != [] {
      OfMember(es[..|es| - 1], key);
    }
  }

  lemma {:induction false} OfAbsent(es: seq<Event>, key: KeyPos)
    requires forall x :: x in es ==> x.key != key
    ensures Of(es, key) == []
  {
    OfMember(es, key);
    if Of(es, key) != [] {
      assert Of(es, key)[0] in Of(es, key);
    }
  }

  predicate NoneInvented(trace: History) {
    match trace
    case Nothing => true
    case Then(past, d) => !d.synthetic && NoneInvented(past)
  }

  /** Delivered, then held, then waiting: the order in which events will have left. */
  function Line(s: State): seq<Event> {
    Delivered(s.trace) + Held(s) + Events(s.waiting)
  }

  predicate EndsPressed(es: seq<Event>) {
    es != [] && es[|es| - 1].pressed
  }

  predicate WaitsFor(b: Build, s: State, r: Record) {
    && r.event.IsEvent() && r.event.key != s.tapping.event.key
    && Diff16(r.event.time, s.tapping.event.time) < b.longest
    && (r.event.pressed ==> !b.hold && r.event.key !in b.taps)
  }

  /** What holds between calls. */
  ghost predicate Settled(b: Build, s: State) {
    && (s.tapping.event.IsEvent() ==> s.tapping.event.key in b.taps)
    && (s.waiting != [] ==> Undecided(s) && !b.NothingWaits())
    && (forall i :: 0 <= i < |s.waiting| ==> WaitsFor(b, s, s.waiting[i]))
    && (b.permissive && !b.hold && s.waiting != [] ==> s.waiting[0].event.pressed)
    && (b.longest == 0 ==> s.tapping.tap.count == 0)
    && (b.InventsNothing() ==> NoneInvented(s.trace))
  }

  /** An event that can arrive next, as far as it matters: a tapping key that is down is not pressed again, and a release
      whose press does not wait has no event waiting. */
  predicate Plausible(s: State, e: Event) {
    && e.time != 0
    && (e.IsNoEvent() ==> !e.pressed)
    && (TappingPressed(s) && e.key == s.tapping.event.key ==> !e.pressed)
    && (!e.pressed && !Typed(s.waiting, e) ==> forall i :: 0 <= i < |s.waiting| ==> s.waiting[i].event.key != e.key)
  }

  /** A tapping key that is down after `e` has just gone down, or was down before and `e` is of another key. */
  predicate TapFollows(s: State, e: Event, s': State) {
    TappingPressed(s') ==>
      || s'.tapping.event == e
      || (TappingPressed(s) && s'.tapping.event == s.tapping.event && e.key != s.tapping.event.key)
  }

  function EventOrNone(e: Event): seq<Event> {
    if e.IsEvent() then [e] else []
  }

  // ---- emptying the buffer ----

  lemma EventsPop(w: seq<Record>)
    requires w != []
    ensures Events(w) == [w[0].event] + Events(w[1..])
  {
  }

  /** The loop emptied the buffer of `s` in order, ending in `s'`; a press of a tap key at its end may be held now. */
  predicate Emptied(s: State, s': State) {
    && s'.waiting == [] && s'.discarded == s.discarded
    && (NoneInvented(s.trace) ==> NoneInvented(s'.trace))
    && Line(s') == Delivered(s.trace) + Events(s.waiting)
  }

  lemma EmptiedCons(s: State, s1: State, s': State)
    requires s.waiting != [] && s1.waiting == s.waiting[1..] && s1.discarded == s.discarded
    requires NoneInvented(s.trace) ==> NoneInvented(s1.trace)
    requires Delivered(s1.trace) == Delivered(s.trace) + [s.waiting[0].event]
    requires Emptied(s1, s')
    ensures Emptied(s, s')
  {
    EventsPop(s.waiting);
    Regroup(Delivered(s.trace), s.waiting[0].event, Events(s1.waiting));
  }

  lemma Regroup(a: seq<Event>, x: Event, c: seq<Event>)
    ensures a + ([x] + c) == a + [x] + c
  {
  }

  lemma EmptiedNow(s: State)
    requires s.waiting == [] && !Undecided(s)
    ensures Emptied(s, s)
  {
    assert Delivered(s.trace) + [] + [] == Delivered(s.trace) + [];
  }

  /** Only the last waiting record may be the press of a tap key. */
  predicate Flushable(b: Build, w: seq<Record>) {
    forall i :: 0 <= i < |w| ==>
      w[i].event.IsEvent() && (w[i].event.pressed && w[i].event.key in b.taps ==> i == |w| - 1 && w[i].tap.count == 0)
  }

  predicate EndsWithTapPress(b: Build, w: seq<Record>) {
    w != [] && w[|w| - 1].event.pressed && w[|w| - 1].event.key in b.taps
  }

  lemma FrontWhileIdle(b: Build, env: Env, s: State)
    requires Follows(env, b) && s.tapping == NO_RECORD && s.waiting != [] && Flushable(b, s.waiting)
    ensures var r := s.waiting[0];
            var o := ProcessTapping(env, s, r);
            && r.event.IsEvent() && Flushable(b, s.waiting[1..])
            && (|| o == Outcome(Deliver(s, r), r, true)
                || (o == Outcome(s.(tapping := r), r, true) && s.waiting == [r] && EndsWithTapPress(b, s.waiting) && r.tap.count == 0))
  {
    var r := s.waiting[0];
    if r.event.pressed && env.isTap(s.trace, r) {
      assert s.waiting == [r];
      assert ScanTap(env, s.(tapping := r)) == s.(tapping := r);
    }
  }

  lemma EmptiedToTap(s: State, r: Record)
    requires s.tapping == NO_RECORD && s.waiting == [r] && r.event.IsEvent() && r.event.pressed && r.tap.count == 0
    ensures Emptied(s, s.(tapping := r, waiting := []))
  {
    var s' := s.(tapping := r, waiting := []);
    assert Held(s') == [r.event];
    assert Events([r]) == [r.event] && Events([]) == [];
  }

  /** With no tap in progress the whole buffer leaves in order; a press of a tap key at its end becomes the undecided key. */
  lemma {:induction false} DrainIdle(b: Build, env: Env, s: State)
    requires Follows(env, b) && s.tapping == NO_RECORD && Flushable(b, s.waiting)
    ensures var s' := Drain(env, s);
            && Emptied(s, s')
            && (s'.tapping == NO_RECORD || (Undecided(s') && s'.tapping.event.key in b.taps && EndsWithTapPress(b, s.waiting)
                                            && s'.tapping == s.waiting[|s.waiting| - 1]))
    decreases |s.waiting|
  {
    if s.waiting == [] {
      EmptiedNow(s);
    } else {
      var r := s.waiting[0];
      FrontWhileIdle(b, env, s);
      DrainHandled(env, s);
      var o := ProcessTapping(env, s, r);
      var s1 := o.state.(waiting := s.waiting[1..]);
      if o.state == Deliver(s, r) {
        DrainIdle(b, env, s1);
        EmptiedCons(s, s1, Drain(env, s1));
      } else {
        assert s1.waiting == [];
        EmptiedToTap(s, r);
      }
    }
  }

  /** The buffer ends with the release of `key`, and holds no other event of it and no press of a tap key. */
  predicate EndsWithTapRelease(b: Build, key: KeyPos, w: seq<Record>) {
    && w != [] && !w[|w| - 1].event.pressed
    && forall i :: 0 <= i < |w| ==>
         && w[i].event.IsEvent() && (w[i].event.key == key <==> i == |w| - 1)
         && (w[i].event.pressed ==> w[i].event.key !in b.taps)
  }

  lemma FrontWhileTapHeld(b: Build, env: Env, s: State, key: KeyPos)
    requires Follows(env, b) && TappingPressed(s) && s.tapping.tap.count > 0 && s.tapping.event.key == key
    requires EndsWithTapRelease(b, key, s.waiting)
    ensures var o := ProcessTapping(env, s, s.waiting[0]);
            && o.handled && o.state.waiting == s.waiting && o.state.discarded == s.discarded
            && (NoneInvented(s.trace) ==> NoneInvented(o.state.trace))
            && Delivered(o.state.trace) == Delivered(s.trace) + [s.waiting[0].event]
            && (|s.waiting| > 1 ==> o.state.tapping == s.tapping && EndsWithTapRelease(b, key, s.waiting[1..]))
            && (|s.waiting| == 1 ==> !TappingPressed(o.state))
            && (o.state.tapping.event.IsEvent() ==> o.state.tapping.event.key == key)
  {
  }

  /** After a first tap the buffer, which ends with the release of the tap key, is delivered in order. */
  lemma {:induction false} DrainTap(b: Build, env: Env, s: State, key: KeyPos)
    requires Follows(env, b) && TappingPressed(s) && s.tapping.tap.count > 0 && s.tapping.event.key == key
    requires EndsWithTapRelease(b, key, s.waiting)
    ensures var s' := Drain(env, s);
            && Emptied(s, s') && !TappingPressed(s')
            && (s'.tapping.event.IsEvent() ==> s'.tapping.event.key == key)
    decreases |s.waiting|
  {
    FrontWhileTapHeld(b, env, s, key);
    DrainHandled(env, s);
    var t := ProcessTapping(env, s, s.waiting[0]).state;
    var s1 := t.(waiting := t.waiting[1..]);
    if |s.waiting| == 1 {
      EmptiedNow(s1);
    } else {
      DrainTap(b, env, s1, key);
    }
    EmptiedCons(s, s1, Drain(env, s1));
  }

  /** Unless nothing ever waits, a build that keeps order has one fixed term. */
  lemma TermIsFixed(b: Build, env: Env, s: State)
    requires b.KeepsOrder() && !b.NothingWaits() && Follows(env, b)
    ensures env.tappingTerm(s.trace, s.tapping) == b.longest
  {
  }

  lemma NoWaitingPressIsTyped(b: Build, s: State, e: Event)
    requires b.hold && !e.pressed && forall i :: 0 <= i < |s.waiting| ==> WaitsFor(b, s, s.waiting[i])
    ensures !Typed(s.waiting, e)
  {
  }

  /** What `process_tapping` does with the front record while the tap key stays undecided. */
  lemma FrontWhileUndecided(b: Build, env: Env, s: State)
    requires b.KeepsOrder() && Follows(env, b) && Settled(b, s) && s.waiting != []
    ensures var r := s.waiting[0];
            var o := ProcessTapping(env, s, r);
            || (o.handled && o.state == Deliver(s, r) && !r.event.pressed)
            || (!o.handled && o.record == r && o.state.trace == s.trace && o.state.waiting == s.waiting
                && o.state.discarded == s.discarded
                && o.state.tapping.event == s.tapping.event && o.state.tapping.tap.count == 0)
  {
    assert WaitsFor(b, s, s.waiting[0]);
    TermIsFixed(b, env, s);
    if b.hold {
      NoWaitingPressIsTyped(b, s, s.waiting[0].event);
    }
  }

  /** The events of `k` that have left, are held, or wait. */
  lemma OfLine(s: State, k: KeyPos)
    ensures Of(Line(s), k) == Of(Delivered(s.trace), k) + Of(Held(s), k) + Of(Events(s.waiting), k)
  {
    OfConcat(Delivered(s.trace) + Held(s), Events(s.waiting), k);
    OfConcat(Delivered(s.trace), Held(s), k);
  }

  lemma OfOne(e: Event, k: KeyPos)
    ensures Of([e], k) == if e.key == k then [e] else []
  {
    OfAppend([], e, k);
    assert [] + [e] == [e];
  }

  /** While the tap key stays undecided, releases at the front may leave; no key sees its events reordered. */
  lemma {:induction false} DrainUndecided(b: Build, env: Env, s: State, k: KeyPos)
    requires b.KeepsOrder() && Follows(env, b) && Settled(b, s) && Undecided(s)
    ensures var s' := Drain(env, s);
            && Settled(b, s') && s'.discarded == s.discarded && Undecided(s') && s'.tapping.event == s.tapping.event
            && Of(Line(s'), k) == Of(Line(s), k)
    decreases |s.waiting|
  {
    if s.waiting != [] {
      var r := s.waiting[0];
      var o := ProcessTapping(env, s, r);
      FrontWhileUndecided(b, env, s);
      assert WaitsFor(b, s, r);
      if o.handled {
        DrainHandled(env, s);
        OvertakesHeld(b, s, k);
        FrontLeaves(b, s);
        DrainUndecided(b, env, Deliver(s, r).(waiting := s.waiting[1..]), k);
      } else {
        DrainStopped(env, s);
        assert s.waiting[0 := r] == s.waiting;
        StaysSettled(b, s, o.state);
      }
    }
  }

  /** A release leaves the front of the queue. */
  lemma FrontLeaves(b: Build, s: State)
    requires Settled(b, s) && Undecided(s) && s.waiting != [] && !s.waiting[0].event.pressed
    ensures Settled(b, Deliver(s, s.waiting[0]).(waiting := s.waiting[1..]))
  {
    var s1 := Deliver(s, s.waiting[0]).(waiting := s.waiting[1..]);
    assert forall i :: 0 <= i < |s1.waiting| ==> s1.waiting[i] == s.waiting[i + 1] && WaitsFor(b, s, s.waiting[i + 1]);
  }

  /** Only the interrupted flag of the undecided key changed. */
  lemma StaysSettled(b: Build, s: State, s': State)
    requires Settled(b, s) && Undecided(s)
    requires s'.tapping.event == s.tapping.event && s'.tapping.tap.count == 0
    requires s'.waiting == s.waiting && s'.trace == s.trace
    ensures Settled(b, s') && Undecided(s') && Line(s') == Line(s)
  {
    assert forall i :: 0 <= i < |s.waiting| ==> WaitsFor(b, s, s.waiting[i]) ==> WaitsFor(b, s', s.waiting[i]);
  }

  /** Two events of different keys may swap places without any key noticing. */
  lemma OfSwap(a: seq<Event>, x: Event, y: Event, c: seq<Event>, k: KeyPos)
    requires x.key != y.key
    ensures Of(a + [x] + ([y] + c), k) == Of(a + [y] + [x] + c, k)
  {
    Regroup(a + [x], y, c);
    OfConcat(a + [x] + [y], c, k);
    OfConcat(a + [y] + [x], c, k);
    OfAppend(a + [x], y, k);
    OfAppend(a + [y], x, k);
    OfAppend(a, x, k);
    OfAppend(a, y, k);
  }

  /** Delivering the front record past the undecided key changes no key's order: it is another key. */
  lemma OvertakesHeld(b: Build, s: State, k: KeyPos)
    requires Settled(b, s) && Undecided(s) && s.waiting != []
    ensures Of(Line(Deliver(s, s.waiting[0]).(waiting := s.waiting[1..])), k) == Of(Line(s), k)
  {
    var r := s.waiting[0];
    assert WaitsFor(b, s, r);
    EventsPop(s.waiting);
    OfSwap(Delivered(s.trace), s.tapping.event, r.event, Events(s.waiting[1..]), k);
  }

  // ---- one call, by the state it finds ----

  /** The step keeps the shape and appends `e` to the line of its own key only. */
  ghost predicate InOrder(b: Build, s: State, e: Event, s': State, k: KeyPos) {
    Settled(b, s') && TapFollows(s, e, s') && Of(Line(s'), k) == Of(Line(s) + EventOrNone(e), k)
  }

  /** With nothing held or waiting, the line is what was delivered. */
  lemma LineWhenSettled(s: State)
    requires s.waiting == [] && !Undecided(s)
    ensures Line(s) == Delivered(s.trace)
  {
    assert Delivered(s.trace) + [] + [] == Delivered(s.trace);
  }

  /** Delivering one more event with nothing held or waiting. */
  lemma DeliverAppends(s: State, r: Record)
    requires s.waiting == [] && !Undecided(s)
    ensures Line(Deliver(s, r)) == Line(s) + EventOrNone(r.event)
  {
  }

  /** No tap in progress: a press of a tap key becomes the undecided key, anything else is delivered. */
  lemma StepIdle(b: Build, env: Env, s: State, e: Event, k: KeyPos)
    requires Follows(env, b) && Settled(b, s) && Plausible(s, e)
    requires !s.tapping.event.IsEvent()
    ensures InOrder(b, s, e, Step(env, s, e), k)
  {
    var r := Record(e, Tap(false, 0));
    if e.pressed && env.isTap(s.trace, r) {
      StartsTap(b, env, s, e, s);
    } else {
      assert Step(env, s, e) == Deliver(s, r);
      DeliverAppends(s, r);
    }
  }

  /** A press of a tap key starts a new tap, after `s1` has delivered at most an invented release. */
  lemma StartsTap(b: Build, env: Env, s: State, e: Event, s1: State)
    requires Follows(env, b) && Settled(b, s) && s.waiting == [] && !Undecided(s)
    requires e.IsEvent() && e.pressed && e.key in b.taps
    requires ProcessTapping(env, s, Record(e, Tap(false, 0))) == StartTap(env, s1, Record(e, Tap(false, 0)))
    requires s1.tapping == s.tapping && s1.waiting == [] && Delivered(s1.trace) == Delivered(s.trace)
    requires b.InventsNothing() ==> NoneInvented(s1.trace)
    ensures Settled(b, Step(env, s, e)) && Line(Step(env, s, e)) == Line(s) + [e]
    ensures Step(env, s, e).tapping.event == e
  {
    var r := Record(e, Tap(false, 0));
    var s2 := s1.(tapping := r);
    assert ScanTap(env, s2) == s2;
    assert Step(env, s, e) == s2;
    assert Held(s2) == [e] && Held(s) == [];
  }

  /** A tap key is down with a settled count. */
  lemma StepTapHeld(b: Build, env: Env, s: State, e: Event, k: KeyPos)
    requires Follows(env, b) && Settled(b, s) && Plausible(s, e)
    requires TappingPressed(s) && s.tapping.tap.count > 0
    ensures InOrder(b, s, e, Step(env, s, e), k)
  {
    var r := Record(e, Tap(false, 0));
    LineWhenSettled(s);
    if IsTappingKey(s, e.key) && !e.pressed {
      HeldReleased(b, env, s, e);
    } else if env.isTap(s.trace, r) && e.pressed {
      var s1 := if s.tapping.tap.count > 1
                then DeliverSynthetic(s, Record(Event(s.tapping.event.key, false, e.time), s.tapping.tap))
                else s;
      // the tapping key itself is down, so the press is of another tap key
      assert e.key != s.tapping.event.key && !b.AtMostOneTap();
      StartsTap(b, env, s, e, s1);
    } else {
      assert Step(env, s, e) == Deliver(s, r);
      DeliverAppends(s, r);
    }
  }

  lemma HeldReleased(b: Build, env: Env, s: State, e: Event)
    requires Follows(env, b) && Settled(b, s) && e.time != 0
    requires TappingPressed(s) && s.tapping.tap.count > 0 && e.key == s.tapping.event.key && !e.pressed
    ensures Settled(b, Step(env, s, e)) && Line(Step(env, s, e)) == Line(s) + EventOrNone(e)
    ensures !TappingPressed(Step(env, s, e))
  {
    var r' := Record(e, s.tapping.tap);
    DeliverAppends(s, r');
    var s' := Deliver(s, r').(tapping := if WithinTappingTerm(env, s, e) then r' else NO_RECORD);
    assert Step(env, s, e) == s';
    LineWhenSettled(s');
    LineWhenSettled(Deliver(s, r'));
  }

  /** A tap key was released: a repeated tap, an interruption, or the end of the tap. */
  lemma StepTapReleased(b: Build, env: Env, s: State, e: Event, k: KeyPos)
    requires Follows(env, b) && Settled(b, s) && Plausible(s, e)
    requires TappingReleased(s)
    ensures InOrder(b, s, e, Step(env, s, e), k)
  {
    var r := Record(e, Tap(false, 0));
    LineWhenSettled(s);
    if !WithinTappingTerm(env, s, e) {
      TapTimesOut(b, env, s, e, k);
    } else if !e.pressed {
      assert Step(env, s, e) == Deliver(s, r);
      DeliverAppends(s, r);
    } else if IsTappingKey(s, e.key) {
      TapRepeats(b, env, s, e);
    } else if env.isTap(s.trace, r) {
      StartsTap(b, env, s, e, s);
    } else {
      var s1 := s.(tapping := s.tapping.(tap := s.tapping.tap.(interrupted := true)));
      assert Step(env, s, e) == Deliver(s1, r);
      DeliverAppends(s1, r);
      assert Line(s1) == Line(s);
    }
  }

  lemma TapRepeats(b: Build, env: Env, s: State, e: Event)
    requires Follows(env, b) && Settled(b, s) && TappingReleased(s) && WithinTappingTerm(env, s, e)
    requires e.IsEvent() && e.pressed && e.key == s.tapping.event.key
    ensures Settled(b, Step(env, s, e)) && Line(Step(env, s, e)) == Line(s) + [e]
    ensures Step(env, s, e).tapping.event == e
  {
    var t := s.tapping.tap;
    LineWhenSettled(s);
    if WithinQuickTapTerm(env, s, e) && !t.interrupted && t.count > 0 {
      var r' := Record(e, if t.count < MAX_TAP_COUNT then t.(count := t.count + 1) else t);
      var s' := Deliver(s, r').(tapping := r');
      assert Step(env, s, e) == s';
      LineWhenSettled(s');
    } else {
      var s' := s.(tapping := Record(e, Tap(false, 0)));
      assert Step(env, s, e) == s';
      assert Held(s') == [e] && Held(s) == [];
    }
  }

  lemma TapTimesOut(b: Build, env: Env, s: State, e: Event, k: KeyPos)
    requires Follows(env, b) && Settled(b, s) && Plausible(s, e)
    requires TappingReleased(s) && !WithinTappingTerm(env, s, e)
    ensures InOrder(b, s, e, Step(env, s, e), k)
  {
    var r := Record(e, Tap(false, 0));
    var s1 := s.(tapping := NO_RECORD);
    LineWhenSettled(s);
    LineWhenSettled(s1);
    assert ProcessTapping(env, s, r) == Outcome(s1, r, false);
    StepIdle(b, env, s1, e, k);
    if e.IsEvent() {
      RetryIdle(env, s1, r);
    } else {
      assert Step(env, s1, e) == s1;
    }
  }

  /** Queueing a record on an empty buffer with no tap in progress amounts to processing it at once. */
  lemma RetryIdle(env: Env, s: State, r: Record)
    requires !s.tapping.event.IsEvent() && s.waiting == [] && r.event.IsEvent()
    ensures Drain(env, Enqueue(s, r)) == Drain(env, ProcessTapping(env, s, r).state)
  {
    var q := s.(waiting := [r]);
    assert Enqueue(s, r) == q;
    var o := ProcessTapping(env, q, r);
    assert o.handled;
    if r.event.pressed && env.isTap(s.trace, r) {
      assert ScanTap(env, q.(tapping := r)) == q.(tapping := r);
      assert ScanTap(env, s.(tapping := r)) == s.(tapping := r);
    }
    assert o.state.(waiting := []) == ProcessTapping(env, s, r).state;
    assert o.state.waiting[1..] == [];
  }

  lemma EventsPush(w: seq<Record>, r: Record)
    ensures Events(w + [r]) == Events(w) + [r.event]
  {
  }

  /** The undecided key turns into a hold: it and everything queued behind it, `r` included, leave in order. */
  lemma FlushAsHold(b: Build, env: Env, s: State, tapping: Record, r: Record)
    requires Follows(env, b) && Settled(b, s) && Undecided(s)
    requires tapping.event == s.tapping.event && r.tap.count == 0
    requires r.event.IsEvent() ==> |s.waiting| + 1 < WAITING_BUFFER_SIZE
    ensures var s1 := Deliver(s, tapping).(tapping := NO_RECORD);
            var s' := Drain(env, Enqueue(s1, r));
            && s'.waiting == [] && Settled(b, s')
            && (s'.tapping == NO_RECORD || (r.event.IsEvent() && s'.tapping == r))
            && Line(s') == Line(s) + EventOrNone(r.event)
  {
    var s1 := Deliver(s, tapping).(tapping := NO_RECORD);
    var q := Enqueue(s1, r);
    FlushableBehind(b, s, r);
    EventsPush(s.waiting, r);
    DrainIdle(b, env, q);
    assert Delivered(q.trace) == Delivered(s.trace) + Held(s);
  }

  lemma FlushableBehind(b: Build, s: State, r: Record)
    requires forall i :: 0 <= i < |s.waiting| ==> WaitsFor(b, s, s.waiting[i])
    requires r.tap.count == 0
    ensures Flushable(b, s.waiting) && (r.event.IsEvent() ==> Flushable(b, s.waiting + [r]))
    ensures !EndsWithTapPress(b, s.waiting)
  {
    assert s.waiting != [] ==> WaitsFor(b, s, s.waiting[|s.waiting| - 1]);
  }

  /** A record of another key joins the queue while the tap key stays undecided. */
  lemma QueueBehindUndecided(b: Build, env: Env, s: State, tapping: Record, r: Record, k: KeyPos)
    requires b.KeepsOrder() && !b.NothingWaits() && Follows(env, b) && Settled(b, s) && Undecided(s)
    requires tapping.event == s.tapping.event && tapping.tap.count == 0
    requires WaitsFor(b, s, r) && |s.waiting| + 1 < WAITING_BUFFER_SIZE
    requires b.permissive && !b.hold && s.waiting == [] ==> r.event.pressed
    ensures var s' := Drain(env, Enqueue(s.(tapping := tapping), r));
            Settled(b, s') && Of(Line(s'), k) == Of(Line(s) + [r.event], k) && s'.tapping.event == s.tapping.event
  {
    var q := s.(tapping := tapping, waiting := s.waiting + [r]);
    assert Enqueue(s.(tapping := tapping), r) == q;
    assert forall i :: 0 <= i < |q.waiting| ==> WaitsFor(b, s, q.waiting[i]);
    assert forall i :: 0 <= i < |q.waiting| ==> WaitsFor(b, s, q.waiting[i]) ==> WaitsFor(b, q, q.waiting[i]);
    EventsPush(s.waiting, r);
    assert Line(q) == Line(s) + [r.event];
    DrainUndecided(b, env, q, k);
  }

  /** The release of the tap key settles it as a tap. */
  lemma FlushAsTap(b: Build, env: Env, s: State, r: Record)
    requires Follows(env, b) && Settled(b, s) && Undecided(s) && b.longest > 0
    requires r.event.IsEvent() && r.event.key == s.tapping.event.key && !r.event.pressed && |s.waiting| + 1 < WAITING_BUFFER_SIZE
    ensures var tapping := WithCount(s.tapping, 1);
            var s' := Drain(env, Enqueue(Deliver(s.(tapping := tapping), tapping), r));
            Settled(b, s') && Line(s') == Line(s) + [r.event] && !TappingPressed(s')
  {
    var tapping := WithCount(s.tapping, 1);
    var s1 := Deliver(s.(tapping := tapping), tapping);
    var q := s1.(waiting := s.waiting + [r]);
    assert Enqueue(s1, r) == q;
    assert forall i :: 0 <= i < |s.waiting| ==> WaitsFor(b, s, s.waiting[i]);
    EventsPush(s.waiting, r);
    DrainTap(b, env, q, s.tapping.event.key);
    assert Delivered(q.trace) == Delivered(s.trace) + Held(s);
  }

  /** The release of a key with nothing left in the queue overtakes it without any key noticing. */
  lemma OvertakesQueue(b: Build, s: State, r: Record, k: KeyPos)
    requires Settled(b, s) && Undecided(s) && r.event.IsEvent() && r.event.key != s.tapping.event.key
    requires forall i :: 0 <= i < |s.waiting| ==> s.waiting[i].event.key != r.event.key
    ensures Of(Line(Deliver(s, r)), k) == Of(Line(s) + [r.event], k)
  {
    var s1 := Deliver(s, r);
    OfLine(s, k);
    OfLine(s1, k);
    OfAppend(Line(s), r.event, k);
    OfAppend(Delivered(s.trace), r.event, k);
    if r.event.key == k {
      OfOne(s.tapping.event, k);
      OfAbsent(Events(s.waiting), k);
      NothingBehind(Of(Delivered(s.trace), k), r.event);
    }
  }

  lemma NothingBehind(d: seq<Event>, x: Event)
    ensures d + [] + [] + [x] == d + [x] + [] + []
  {
  }

  /** A call that discards nothing either handles its event at once or finds room for it. */
  lemma RoomUnlessHandled(env: Env, s: State, e: Event)
    requires Step(env, s, e).discarded == s.discarded
    ensures e.IsEvent() && !ProcessTapping(env, s, Record(e, Tap(false, 0))).handled ==> |s.waiting| + 1 < WAITING_BUFFER_SIZE
  {
    var o := ProcessTapping(env, s, Record(e, Tap(false, 0)));
    EnqueueDiscards(o.state, o.record);
  }

  lemma EnqueueDiscards(s: State, r: Record)
    ensures r.event.IsEvent() && |s.waiting| + 1 >= WAITING_BUFFER_SIZE ==> |Enqueue(s, r).discarded| > |s.discarded|
  {
  }

  /** Inside the term another key is released: it settles a hold, waits behind its press, is retained, or overtakes the queue. */
  lemma StepOtherReleased(b: Build, env: Env, s: State, e: Event, k: KeyPos)
    requires b.KeepsOrder() && Follows(env, b) && Settled(b, s) && Undecided(s) && WithinTappingTerm(env, s, e)
    requires Plausible(s, e) && e.IsEvent() && !e.pressed && e.key != s.tapping.event.key
    requires Step(env, s, e).discarded == s.discarded
    ensures InOrder(b, s, e, Step(env, s, e), k)
  {
    var r := Record(e, Tap(false, 0));
    RoomUnlessHandled(env, s, e);
    if Typed(s.waiting, e) && env.permissiveHold(s.trace, s.tapping) {
      FlushAsHold(b, env, s, s.tapping, r);
    } else if Typed(s.waiting, e) || env.retain(s.trace, r) {
      assert ProcessTapping(env, s, r) == Outcome(s, r, false);
      TermIsFixed(b, env, s);
      QueueBehindUndecided(b, env, s, s.tapping, r, k);
    } else {
      var s1 := Deliver(s, r);
      assert ProcessTapping(env, s, r) == Outcome(s1, r, true);
      OvertakesQueue(b, s, r, k);
      DeliverSettled(b, s, r);
      DrainUndecided(b, env, s1, k);
    }
  }

  lemma DeliverSettled(b: Build, s: State, r: Record)
    requires Settled(b, s) && Undecided(s)
    ensures Settled(b, Deliver(s, r)) && Undecided(Deliver(s, r))
  {
    assert forall i :: 0 <= i < |s.waiting| ==> WaitsFor(b, s, s.waiting[i]) ==> WaitsFor(b, Deliver(s, r), s.waiting[i]);
  }

  /** A tap key is undecided. */
  lemma StepUndecided(b: Build, env: Env, s: State, e: Event, k: KeyPos)
    requires b.KeepsOrder() && Follows(env, b) && Settled(b, s) && Plausible(s, e) && Undecided(s)
    requires Step(env, s, e).discarded == s.discarded
    ensures InOrder(b, s, e, Step(env, s, e), k)
  {
    var r := Record(e, Tap(false, 0));
    RoomUnlessHandled(env, s, e);
    if !WithinTappingTerm(env, s, e) {
      FlushAsHold(b, env, s, s.tapping, r);
    } else if e.IsNoEvent() {
      assert ProcessTapping(env, s, r) == Outcome(s, r, false);
      DrainUndecided(b, env, s, k);
      assert Line(s) + [] == Line(s);
    } else if e.key == s.tapping.event.key {
      FlushAsTap(b, env, s, r.(tap := s.tapping.tap.(count := 1)));
    } else if e.pressed {
      StepOtherPressed(b, env, s, e, k);
    } else {
      StepOtherReleased(b, env, s, e, k);
    }
  }

  /** Inside the term another key is pressed: it settles a hold or waits. */
  lemma StepOtherPressed(b: Build, env: Env, s: State, e: Event, k: KeyPos)
    requires b.KeepsOrder() && Follows(env, b) && Settled(b, s) && Undecided(s) && WithinTappingTerm(env, s, e)
    requires e.IsEvent() && e.pressed && e.key != s.tapping.event.key
    requires Step(env, s, e).discarded == s.discarded
    ensures InOrder(b, s, e, Step(env, s, e), k)
  {
    var r := Record(e, Tap(false, 0));
    var interrupted := s.tapping.(tap := s.tapping.tap.(interrupted := true));
    RoomUnlessHandled(env, s, e);
    if b.hold {
      FlushAsHold(b, env, s, interrupted, r);
    } else {
      // one tap key at most, and it is the undecided one
      TermIsFixed(b, env, s);
      QueueBehindUndecided(b, env, s, interrupted, r, k);
    }
  }

  /** One call, whatever state it finds. */
  lemma StepInOrder(b: Build, env: Env, s: State, e: Event, k: KeyPos)
    requires b.KeepsOrder() && Follows(env, b) && Settled(b, s) && Plausible(s, e)
    requires Step(env, s, e).discarded == s.discarded
    ensures InOrder(b, s, e, Step(env, s, e), k)
  {
    if Undecided(s) {
      StepUndecided(b, env, s, e, k);
    } else if TappingPressed(s) {
      StepTapHeld(b, env, s, e, k);
    } else if TappingReleased(s) {
      StepTapReleased(b, env, s, e, k);
    } else {
      StepIdle(b, env, s, e, k);
    }
  }

  /** A call that overflows leaves nothing held or waiting; at most the key that was held has been delivered. */
  lemma StepOverflows(b: Build, env: Env, s: State, e: Event)
    requires Follows(env, b) && Settled(b, s) && Step(env, s, e).discarded != s.discarded
    ensures var s' := Step(env, s, e);
            && e.IsEvent() && s'.tapping == NO_RECORD && s'.waiting == [] && |s'.discarded| > |s.discarded|
            && (NoneInvented(s.trace) ==> NoneInvented(s'.trace))
            && (Delivered(s'.trace) == Delivered(s.trace) || Delivered(s'.trace) == Delivered(s.trace) + Held(s))
  {
    var o := ProcessTapping(env, s, Record(e, Tap(false, 0)));
    assert !o.handled && Undecided(s);
    var q := Enqueue(o.state, o.record);
    assert q.waiting == [];
  }
}
