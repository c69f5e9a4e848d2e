/**
 Conservation of key events through the tap/hold resolver: over every run, whatever the
 settings do from call to call, each event received is delivered exactly once, or is the
 undecided key, or is waiting, or was discarded by an overflow; and the only deliveries
 that were never received are releases of a tap that had been delivered before.
 */
module TappingConservation {
  import opened Grid
  import opened TappingModel

  /** How often `e` occurs in `es`. */
  function Tally(es: seq<Event>, e: Event): nat {
    if es == [] then 0
    else Tally(es[..|es| - 1], e) + (if es[|es| - 1] == e then 1 else 0)
  }

  lemma TallyAppend(es: seq<Event>, x: Event, e: Event)
    ensures Tally(es + [x], e) == Tally(es, e) + (if x == e then 1 else 0)
  {
    assert (es + [x])[..|es|] == es;
  }

  lemma {:induction false} TallyConcat(a: seq<Event>, b: seq<Event>, e: Event)
    ensures Tally(a + b, e) == Tally(a, e) + Tally(b, e)
  {
    if b == [] {
      assert a + b == a;
    } else {
      var n := |b| - 1;
      TallyConcat(a, b[..n], e);
      TallyConcatOne(a, b[..n], b[n], e);
      assert b == b[..n] + [b[n]];
    }
  }

  lemma TallyConcatOne(a: seq<Event>, b: seq<Event>, x: Event, e: Event)
    requires Tally(a + b, e) == Tally(a, e) + Tally(b, e)
    ensures Tally(a + (b + [x]), e) == Tally(a, e) + Tally(b + [x], e)
  {
    TallyAppend(a + b, x, e);
    TallyAppend(b, x, e);
    assert a + (b + [x]) == a + b + [x];
  }

  lemma {:induction false} TallyIsMultiplicity(es: seq<Event>, e: Event)
    ensures Tally(es, e) == multiset(es)[e]
  {
    if es != [] {
      var n := |es| - 1;
      TallyIsMultiplicity(es[..n], e);
      assert es == es[..n] + [es[n]];
    }
  }

  function TraceTally(trace: History, e: Event): nat {
    match trace
    case Nothing => 0
    case Then(past, d) => TraceTally(past, e) + (if !d.synthetic && d.record.event == e then 1 else 0)
  }

  lemma {:induction false} TraceTallyIsTally(trace: History, e: Event)
    ensures TraceTally(trace, e) == Tally(Delivered(trace), e)
  {
    match trace
    case Nothing =>
    case Then(past, d) =>
      TraceTallyIsTally(past, e);
      TallyAppend(Delivered(past), d.record.event, e);
  }

  /** How often the resolver can account for `e`. */
  function Ledger(s: State, e: Event): nat {
    TraceTally(s.trace, e)
    + (if Undecided(s) && s.tapping.event == e then 1 else 0)
    + Tally(Events(s.waiting), e)
    + Tally(s.discarded, e)
  }

  /** A press of `key` was really delivered with this tap. */
  predicate TapDelivered(trace: History, key: KeyPos, tap: Tap) {
    match trace
    case Nothing => false
    case Then(past, d) =>
      (!d.synthetic && d.record.event.pressed && d.record.event.key == key && d.record.tap == tap)
      || TapDelivered(past, key, tap)
  }

  /** Delivery `d` is a real event, and if it was invented it releases a tap delivered in `past`. */
  predicate HonestDelivery(past: History, d: Delivery) {
    && d.record.event.IsEvent()
    && (d.synthetic ==>
          && !d.record.event.pressed && 1 < d.record.tap.count <= MAX_TAP_COUNT
          && TapDelivered(past, d.record.event.key, d.record.tap))
  }

  predicate Honest(trace: History) {
    match trace
    case Nothing => true
    case Then(past, d) => Honest(past) && HonestDelivery(past, d)
  }

  /** A waiting record is a real event, and a press carries no tap count. */
  predicate Untapped(r: Record) {
    (r.event.pressed ==> r.tap.count == 0) && r.tap.count <= MAX_TAP_COUNT
  }

  ghost predicate Inv(s: State) {
    && |s.waiting| < WAITING_BUFFER_SIZE
    && (forall i :: 0 <= i < |s.waiting| ==> s.waiting[i].event.IsEvent() && Untapped(s.waiting[i]))
    && s.tapping.tap.count <= MAX_TAP_COUNT
    // tapping_key is never released with count 0
    && (TappingReleased(s) ==> s.tapping.tap.count > 0)
    // a settled press has been delivered as it stands
    && (TappingPressed(s) && s.tapping.tap.count > 0 ==> TapDelivered(s.trace, s.tapping.event.key, s.tapping.tap))
    && Honest(s.trace)
  }

  function One(x: Event, e: Event): nat {
    if x.IsEvent() && x == e then 1 else 0
  }

  /** The outcome accounts for `r`: handled means moved into the ledger, not handled means left to the caller. */
  ghost predicate Accounts(s: State, r: Record, o: Outcome, e: Event) {
    && Inv(o.state)
    && o.record.event == r.event
    && (!o.handled ==> Untapped(o.record))
    && Ledger(o.state, e) == Ledger(s, e) + (if o.handled then One(r.event, e) else 0)
    && Events(o.state.waiting) == Events(s.waiting)
    && o.state.discarded == s.discarded
  }

  lemma HeldTally(s: State, e: Event)
    ensures Tally(Held(s), e) == if Undecided(s) && s.tapping.event == e then 1 else 0
  {
    TallyAppend([], s.tapping.event, e);
    assert [] + [s.tapping.event] == [s.tapping.event];
  }

  /** Delivering the key that was being held: it moves from "undecided" to "delivered". */
  lemma SettleHeld(s: State, tapping: Record, next: Record, e: Event)
    requires Inv(s) && Undecided(s)
    requires tapping.event == s.tapping.event && tapping.tap.count <= MAX_TAP_COUNT
    requires next == NO_RECORD || (next == tapping && tapping.tap.count > 0)
    ensures var s' := Deliver(s, tapping).(tapping := next); Inv(s') && Ledger(s', e) == Ledger(s, e)
  {
  }

  lemma EventsUpdate(rs: seq<Record>, i: nat, r: Record)
    requires i < |rs| && r.event == rs[i].event
    ensures Events(rs[i := r]) == Events(rs)
  {
  }

  /** A settled or idle resolver that takes up the press `r` as its new undecided key accounts for `r`. */
  lemma StartTapKeeps(env: Env, s: State, r: Record, e: Event)
    requires Inv(s) && !Undecided(s) && Untapped(r) && r.event.pressed
    ensures Accounts(s, r, StartTap(env, s, r), e)
  {
    var s1 := s.(tapping := r);
    assert Inv(s1);
    var j := FindTapEnd(env, s1, 0);
    if j < |s1.waiting| {
      var tapping := WithCount(r, 1);
      SettleHeld(s1, tapping, tapping, e);
      EventsUpdate(s1.waiting, j, WithCount(s1.waiting[j], 1));
    }
  }

  /** The release the resolver invents when a new tap starts over a tap counted more than once. */
  lemma SyntheticKeeps(s: State, time: nat, e: Event)
    requires Inv(s) && TappingPressed(s) && s.tapping.tap.count > 1
    ensures var s' := DeliverSynthetic(s, Record(Event(s.tapping.event.key, false, time), s.tapping.tap));
            Inv(s') && Ledger(s', e) == Ledger(s, e)
  {
  }

  lemma DeliverKeeps(s: State, r: Record, r': Record, e: Event)
    requires Inv(s) && r'.event == r.event
    ensures Accounts(s, r, Outcome(Deliver(s, r'), r', true), e)
  {
  }

  lemma UndecidedKeeps(env: Env, s: State, r: Record, e: Event)
    requires Inv(s) && Untapped(r) && Undecided(s)
    ensures Accounts(s, r, OnUndecided(env, s, r), e)
  {
    if IsTappingKey(s, r.event.key) && !r.event.pressed {
      SettleHeld(s, WithCount(s.tapping, 1), WithCount(s.tapping, 1), e);
    } else if r.event.IsEvent() && !r.event.pressed {
      SettleHeld(s, s.tapping, NO_RECORD, e);
      DeliverKeeps(s, r, r, e);
    } else if r.event.pressed {
      var tapping := s.tapping.(tap := s.tapping.tap.(interrupted := true));
      assert Held(s.(tapping := tapping)) == Held(s);
      SettleHeld(s, tapping, NO_RECORD, e);
    }
  }

  lemma TapHeldKeeps(env: Env, s: State, r: Record, within: bool, e: Event)
    requires Inv(s) && Untapped(r) && TappingPressed(s) && s.tapping.tap.count > 0
    ensures Accounts(s, r, OnTapHeld(env, s, r, within), e)
  {
    if IsTappingKey(s, r.event.key) && !r.event.pressed {
      DeliverKeeps(s, r, r.(tap := s.tapping.tap), e);
    } else if env.isTap(s.trace, r) && r.event.pressed {
      if s.tapping.tap.count > 1 {
        SyntheticKeeps(s, r.event.time, e);
        StartTapKeeps(env, DeliverSynthetic(s, Record(Event(s.tapping.event.key, false, r.event.time), s.tapping.tap)), r, e);
      } else {
        StartTapKeeps(env, s, r, e);
      }
    } else {
      DeliverKeeps(s, r, r, e);
    }
  }

  lemma TapReleasedKeeps(env: Env, s: State, r: Record, e: Event)
    requires Inv(s) && Untapped(r) && TappingReleased(s)
    ensures Accounts(s, r, OnTapReleased(env, s, r), e)
  {
    if !WithinTappingTerm(env, s, r.event) {
      TapEndsKeeps(env, s, r, e);
    } else if !r.event.pressed {
      DeliverKeeps(s, r, r, e);
    } else if IsTappingKey(s, r.event.key) {
      TapRepeatsKeeps(env, s, r, e);
    } else if env.isTap(s.trace, r) {
      StartTapKeeps(env, s, r, e);
    } else {
      TapInterruptedKeeps(env, s, r, e);
    }
  }

  lemma TapEndsKeeps(env: Env, s: State, r: Record, e: Event)
    requires Inv(s) && Untapped(r) && TappingReleased(s) && !WithinTappingTerm(env, s, r.event)
    ensures Accounts(s, r, OnTapReleased(env, s, r), e)
  {
  }

  lemma TapRepeatsKeeps(env: Env, s: State, r: Record, e: Event)
    requires Inv(s) && Untapped(r) && TappingReleased(s) && WithinTappingTerm(env, s, r.event)
    requires r.event.pressed && IsTappingKey(s, r.event.key)
    ensures Accounts(s, r, OnTapReleased(env, s, r), e)
  {
    var t := s.tapping.tap;
    var r' := r.(tap := if t.count < MAX_TAP_COUNT then t.(count := t.count + 1) else t);
    DeliverKeeps(s, r, r', e);
  }

  lemma TapInterruptedKeeps(env: Env, s: State, r: Record, e: Event)
    requires Inv(s) && Untapped(r) && TappingReleased(s) && WithinTappingTerm(env, s, r.event)
    requires r.event.pressed && !IsTappingKey(s, r.event.key) && !env.isTap(s.trace, r)
    ensures Accounts(s, r, OnTapReleased(env, s, r), e)
  {
    DeliverKeeps(s.(tapping := s.tapping.(tap := s.tapping.tap.(interrupted := true))), r, r, e);
  }

  /** `process_tapping` delivers or takes up a record it reports handled, and loses no other event. */
  lemma ProcessTappingKeeps(env: Env, s: State, r: Record, e: Event)
    requires Inv(s) && Untapped(r)
    ensures Accounts(s, r, ProcessTapping(env, s, r), e)
  {
    if Undecided(s) {
      if WithinTappingTerm(env, s, r.event) {
        UndecidedKeeps(env, s, r, e);
      } else {
        SettleHeld(s, s.tapping, NO_RECORD, e);
      }
    } else if TappingPressed(s) {
      TapHeldKeeps(env, s, r, WithinTappingTerm(env, s, r.event), e);
    } else if TappingReleased(s) {
      TapReleasedKeeps(env, s, r, e);
    } else if r.event.pressed && env.isTap(s.trace, r) {
      StartTapKeeps(env, s, r, e);
    } else {
      DeliverKeeps(s, r, r, e);
    }
  }

  /** Queueing a record accounts for it, either in the buffer or, on overflow, among the discarded. */
  lemma EnqueueKeeps(s: State, r: Record, e: Event)
    requires Inv(s) && Untapped(r)
    ensures Inv(Enqueue(s, r)) && Ledger(Enqueue(s, r), e) == Ledger(s, e) + One(r.event, e)
  {
    if r.event.IsEvent() {
      if |s.waiting| + 1 < WAITING_BUFFER_SIZE {
        QueueKeeps(s, r, e);
      } else {
        OverflowKeeps(s, r, e);
      }
    }
  }

  lemma QueueKeeps(s: State, r: Record, e: Event)
    requires Inv(s) && Untapped(r) && r.event.IsEvent() && |s.waiting| + 1 < WAITING_BUFFER_SIZE
    ensures var s' := s.(waiting := s.waiting + [r]); Inv(s') && Ledger(s', e) == Ledger(s, e) + One(r.event, e)
  {
    TallyAppend(Events(s.waiting), r.event, e);
    assert Events(s.waiting + [r]) == Events(s.waiting) + [r.event];
  }

  lemma OverflowKeeps(s: State, r: Record, e: Event)
    requires Inv(s) && r.event.IsEvent()
    ensures var s' := Overflowed(s, r.event); Inv(s') && Ledger(s', e) == Ledger(s, e) + One(r.event, e)
  {
    OverflowKeepsInv(s, r.event);
    OverflowAccounts(s, r.event, e);
  }

  /** Everything held or waiting is discarded together with the event that found no room. */
  function Overflowed(s: State, x: Event): State {
    State(NO_RECORD, [], s.trace, s.discarded + Held(s) + Events(s.waiting) + [x])
  }

  lemma OverflowKeepsInv(s: State, x: Event)
    requires Inv(s)
    ensures Inv(Overflowed(s, x))
  {
  }

  lemma OverflowAccounts(s: State, x: Event, e: Event)
    requires x.IsEvent()
    ensures Ledger(Overflowed(s, x), e) == Ledger(s, e) + One(x, e)
  {
    DiscardTally(s, x, e);
  }

  lemma DiscardTally(s: State, x: Event, e: Event)
    requires x.IsEvent()
    ensures Tally(s.discarded + Held(s) + Events(s.waiting) + [x], e) ==
            Tally(s.discarded, e) + (if Undecided(s) && s.tapping.event == e then 1 else 0) + Tally(Events(s.waiting), e) + One(x, e)
    ensures Tally(Events([]), e) == 0
  {
    HeldTally(s, e);
    TallyConcat(s.discarded, Held(s), e);
    TallyConcat(s.discarded + Held(s), Events(s.waiting), e);
    TallyAppend(s.discarded + Held(s) + Events(s.waiting), x, e);
    assert Events([]) == [];
  }

  /** Taking the front record off the buffer after it was handled. */
  lemma PopKeeps(s: State, e: Event)
    requires Inv(s) && s.waiting != []
    ensures var s' := s.(waiting := s.waiting[1..]);
            Inv(s') && Ledger(s, e) == Ledger(s', e) + One(s.waiting[0].event, e)
  {
    var w := s.waiting;
    assert Events(w) == [w[0].event] + Events(w[1..]);
    TallyConcat([w[0].event], Events(w[1..]), e);
    TallyAppend([], w[0].event, e);
    assert [] + [w[0].event] == [w[0].event];
  }

  lemma {:induction false} DrainKeeps(env: Env, s: State, e: Event)
    requires Inv(s)
    ensures Inv(Drain(env, s)) && Ledger(Drain(env, s), e) == Ledger(s, e)
    decreases |s.waiting|
  {
    if s.waiting != [] {
      var r := s.waiting[0];
      ProcessTappingKeeps(env, s, r, e);
      var o := ProcessTapping(env, s, r);
      assert Events(o.state.waiting)[0] == Events(s.waiting)[0];
      if o.handled {
        PopKeeps(o.state, e);
        DrainKeeps(env, o.state.(waiting := o.state.waiting[1..]), e);
      } else {
        EventsUpdate(o.state.waiting, 0, o.record);
      }
    }
  }

  lemma StepKeeps(env: Env, s: State, x: Event, e: Event)
    requires Inv(s)
    ensures Inv(Step(env, s, x)) && Ledger(Step(env, s, x), e) == Ledger(s, e) + One(x, e)
  {
    var r := Record(x, Tap(false, 0));
    ProcessTappingKeeps(env, s, r, e);
    var o := ProcessTapping(env, s, r);
    if o.handled {
      DrainKeeps(env, o.state, e);
    } else {
      EnqueueKeeps(o.state, o.record, e);
      DrainKeeps(env, Enqueue(o.state, o.record), e);
    }
  }

  lemma {:induction false} RunKeeps(inputs: seq<Input>, e: Event)
    ensures Inv(Run(START, inputs)) && Ledger(Run(START, inputs), e) == Tally(Received(inputs), e)
  {
    if inputs == [] {
      assert Events(START.waiting) == [];
    } else {
      var n := |inputs| - 1;
      var before := inputs[..n];
      RunKeeps(before, e);
      StepKeeps(inputs[n].env, Run(START, before), inputs[n].event, e);
      TallyAppend(Received(before), inputs[n].event, e);
    }
  }

  /** Event conservation over every run from power-up, with arbitrary settings at every call. */
  lemma RunConserves(inputs: seq<Input>)
    ensures var s := Run(START, inputs);
            multiset(Received(inputs)) ==
            multiset(Delivered(s.trace)) + multiset(Held(s)) + multiset(Events(s.waiting)) + multiset(s.discarded)
  {
    var s := Run(START, inputs);
    forall e: Event
      ensures multiset(Received(inputs))[e] ==
              multiset(Delivered(s.trace))[e] + multiset(Held(s))[e] + multiset(Events(s.waiting))[e] + multiset(s.discarded)[e]
    {
      RunKeeps(inputs, e);
      TraceTallyIsTally(s.trace, e);
      HeldTally(s, e);
      TallyIsMultiplicity(Received(inputs), e);
      TallyIsMultiplicity(Delivered(s.trace), e);
      TallyIsMultiplicity(Held(s), e);
      TallyIsMultiplicity(Events(s.waiting), e);
      TallyIsMultiplicity(s.discarded, e);
    }
  }

  /** In no reachable state is `tapping_key` released with count 0, the state `waiting_buffer_scan_tap` calls invalid. */
  lemma NeverReleasedUncounted(inputs: seq<Input>)
    ensures var s := Run(START, inputs); TappingReleased(s) ==> 0 < s.tapping.tap.count <= MAX_TAP_COUNT
  {
    RunKeeps(inputs, NO_RECORD.event);
  }

  /** `d` was delivered with history `past` behind it. */
  predicate DeliveredAfter(trace: History, past: History, d: Delivery) {
    trace.Then? && (trace == Then(past, d) || DeliveredAfter(trace.past, past, d))
  }

  lemma {:induction false} HonestThroughout(trace: History, past: History, d: Delivery)
    requires Honest(trace) && DeliveredAfter(trace, past, d)
    ensures HonestDelivery(past, d)
  {
    if trace != Then(past, d) {
      HonestThroughout(trace.past, past, d);
    }
  }

  /** Whatever was delivered without being received releases a tap really delivered before it, counted more than once. */
  lemma SyntheticReleasesDeliveredTap(inputs: seq<Input>, past: History, d: Delivery)
    requires DeliveredAfter(Run(START, inputs).trace, past, d) && d.synthetic
    ensures !d.record.event.pressed && 1 < d.record.tap.count <= MAX_TAP_COUNT
    ensures TapDelivered(past, d.record.event.key, d.record.tap)
  {
    RunKeeps(inputs, NO_RECORD.event);
    HonestThroughout(Run(START, inputs).trace, past, d);
  }
}
