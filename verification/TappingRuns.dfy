/**
 Whole runs through the tap/hold resolver, for builds that satisfy `KeepsOrder`: in a run
 without overflow the real events of every key are delivered, held and waiting in the order
 they arrived; in any run, overflows included, they are a subsequence of what arrived.  For
 builds that also invent no releases, what `process_record` is told of a key alternates.
 */
module TappingRuns {
  import opened Grid
  import opened TappingModel
  import opened TappingOrder

  /** Presses and releases of one key alternate, starting with a press. */
  predicate Alternates(es: seq<Event>) {
    forall i :: 0 <= i < |es| ==> es[i].pressed == (i % 2 == 0)
  }

  /** Time stamps are never 0 and ticks never count as presses. */
  predicate Stamped(inputs: seq<Input>) {
    forall i :: 0 <= i < |inputs| ==> inputs[i].event.time != 0 && (inputs[i].event.IsNoEvent() ==> !inputs[i].event.pressed)
  }

  ghost predicate WellFormed(b: Build, inputs: seq<Input>) {
    && Stamped(inputs)
    && (forall i :: 0 <= i < |inputs| ==> Follows(inputs[i].env, b))
    && (forall k :: Alternates(Of(Received(inputs), k)))
  }

  /** Received grows by the last event. */
  lemma ReceivedLast(inputs: seq<Input>)
    requires inputs != []
    ensures var n := |inputs| - 1;
            Received(inputs) == Received(inputs[..n]) + EventOrNone(inputs[n].event)
  {
  }

  lemma AlternatesPrefix(es: seq<Event>, x: Event)
    requires Alternates(es + [x])
    ensures Alternates(es) && x.pressed == !EndsPressed(es)
  {
    forall i | 0 <= i < |es|
      ensures es[i].pressed == (i % 2 == 0)
    {
      assert (es + [x])[i] == es[i];
    }
    assert (es + [x])[|es|] == x;
  }

  lemma AlternatesBefore(before: seq<Event>, e: Event, k: KeyPos)
    requires Alternates(Of(before + EventOrNone(e), k))
    ensures Alternates(Of(before, k))
    ensures e.IsEvent() && e.key == k ==> e.pressed == !EndsPressed(Of(before, k))
  {
    if e.IsEvent() {
      OfAppend(before, e, k);
      if e.key == k {
        AlternatesPrefix(Of(before, k), e);
      }
    } else {
      assert before + [] == before;
    }
  }

  lemma WellFormedBefore(b: Build, inputs: seq<Input>)
    requires inputs != [] && WellFormed(b, inputs)
    ensures var n := |inputs| - 1;
            var e := inputs[n].event;
            && WellFormed(b, inputs[..n])
            && (e.IsEvent() ==> e.pressed == !EndsPressed(Of(Received(inputs[..n]), e.key)))
  {
    var n := |inputs| - 1;
    var before := Received(inputs[..n]);
    var e := inputs[n].event;
    ReceivedLast(inputs);
    forall k
      ensures Alternates(Of(before, k))
    {
      AlternatesBefore(before, e, k);
    }
    AlternatesBefore(before, e, e.key);
  }

  // ---- subsequences ----

  /** `a` is `c` with some events left out. */
  predicate Subsequence(a: seq<Event>, c: seq<Event>) {
    || a == []
    || (c != [] && a[|a| - 1] == c[|c| - 1] && Subsequence(a[..|a| - 1], c[..|c| - 1]))
    || (c != [] && Subsequence(a, c[..|c| - 1]))
  }

  lemma SubsequenceBoth(a: seq<Event>, c: seq<Event>, x: Event)
    requires Subsequence(a, c)
    ensures Subsequence(a + [x], c + [x])
  {
    assert (a + [x])[..|a|] == a && (c + [x])[..|c|] == c;
  }

  lemma SubsequenceMore(a: seq<Event>, c: seq<Event>, x: Event)
    requires Subsequence(a, c)
    ensures Subsequence(a, c + [x])
  {
    assert (c + [x])[..|c|] == c;
  }

  lemma SnocLast(a: seq<Event>, x: seq<Event>)
    requires x != []
    ensures a + x == a + x[..|x| - 1] + [x[|x| - 1]]
  {
  }

  /** Appending the same events on both sides, or more events on the right. */
  lemma {:induction false} SubsequenceAppend(a: seq<Event>, c: seq<Event>, x: seq<Event>)
    requires Subsequence(a, c)
    ensures Subsequence(a + x, c + x) && Subsequence(a, c + x)
  {
    if x == [] {
      assert a + x == a && c + x == c;
    } else {
      var n := |x| - 1;
      SubsequenceAppend(a, c, x[..n]);
      SubsequenceBoth(a + x[..n], c + x[..n], x[n]);
      SubsequenceMore(a, c + x[..n], x[n]);
      SnocLast(a, x);
      SnocLast(c, x);
    }
  }

  lemma SubsequenceSelf(a: seq<Event>)
    ensures Subsequence(a, a)
  {
    SubsequenceAppend([], [], a);
    assert [] + a == a;
  }

  /** A subsequence is no longer, and if it is as long, nothing was left out. */
  lemma {:induction false} SubsequenceLength(a: seq<Event>, c: seq<Event>)
    requires Subsequence(a, c)
    ensures |a| <= |c| && (|a| == |c| ==> a == c)
    decreases |c|
  {
    if a != [] {
      var x, y := a[..|a| - 1], c[..|c| - 1];
      if a[|a| - 1] == c[|c| - 1] && Subsequence(x, y) {
        SubsequenceLength(x, y);
        assert a == x + [a[|a| - 1]] && c == y + [c[|c| - 1]];
      } else {
        SubsequenceLength(a, y);
      }
    }
  }

  // ---- deliveries only accumulate ----

  lemma ProcessTappingAdds(env: Env, s: State, r: Record)
    ensures Delivered(s.trace) <= Delivered(ProcessTapping(env, s, r).state.trace)
  {
  }

  lemma {:induction false} DrainAdds(env: Env, s: State)
    ensures Delivered(s.trace) <= Delivered(Drain(env, s).trace)
    decreases |s.waiting|
  {
    if s.waiting != [] {
      ProcessTappingAdds(env, s, s.waiting[0]);
      var o := ProcessTapping(env, s, s.waiting[0]);
      if o.handled {
        DrainAdds(env, o.state.(waiting := o.state.waiting[1..]));
      }
    }
  }

  lemma StepAdds(env: Env, s: State, e: Event)
    ensures Delivered(s.trace) <= Delivered(Step(env, s, e).trace)
  {
    var r := Record(e, Tap(false, 0));
    ProcessTappingAdds(env, s, r);
    var o := ProcessTapping(env, s, r);
    DrainAdds(env, if o.handled then o.state else Enqueue(o.state, o.record));
  }

  lemma OfPrefix(a: seq<Event>, c: seq<Event>, k: KeyPos)
    requires a <= c
    ensures Of(a, k) <= Of(c, k)
  {
    OfConcat(a, c[|a|..], k);
    assert a + c[|a|..] == c;
  }

  // ---- one call as part of a run ----

  /** What has been received and has neither left nor been discarded. */
  function Pending(s: State): seq<Event> {
    Held(s) + Events(s.waiting)
  }

  /** A tapping key that is down is really down. */
  predicate TapIsDown(s: State, received: seq<Event>) {
    TappingPressed(s) ==> EndsPressed(Of(received, s.tapping.event.key))
  }

  /** `gone` is what has left or was discarded of `k`: what is pending of it was received last. */
  predicate Gone(s: State, received: seq<Event>, k: KeyPos, gone: seq<Event>) {
    && Of(received, k) == gone + Of(Pending(s), k)
    && Subsequence(Of(Delivered(s.trace), k), gone)
    && (s.discarded == [] ==> gone == Of(Delivered(s.trace), k))
  }

  lemma LastOf(w: seq<Event>, k: KeyPos)
    requires Of(w, k) != []
    ensures Of(w, k)[|Of(w, k)| - 1] in w && Of(w, k)[|Of(w, k)| - 1].key == k
  {
    OfMember(w, k);
    assert Of(w, k)[|Of(w, k)| - 1] in Of(w, k);
  }

  lemma {:induction false} OfHas(es: seq<Event>, i: nat)
    requires i < |es|
    ensures Of(es, es[i].key) != []
  {
    if i < |es| - 1 {
      OfHas(es[..|es| - 1], i);
    }
  }

  /** If the last event of `k` is a press, a waiting event of `k` means a waiting press of `k`. */
  lemma WaitingPress(w: seq<Record>, before: seq<Event>, k: KeyPos, i: nat)
    requires EndsPressed(before + Of(Events(w), k)) && i < |w| && w[i].event.key == k
    ensures exists j :: 0 <= j < |w| && w[j].event.key == k && w[j].event.pressed
  {
    var es := Events(w);
    OfHas(es, i);
    LastOf(es, k);
    var x := Of(es, k)[|Of(es, k)| - 1];
    assert (before + Of(es, k))[|before| + |Of(es, k)| - 1] == x;
    var j :| 0 <= j < |es| && es[j] == x;
    assert w[j].event == x;
  }

  /** A release whose press is not waiting has no event waiting at all. */
  lemma NoneWaiting(s: State, received: seq<Event>, e: Event, gone: seq<Event>)
    requires Of(received, e.key) == gone + Of(Pending(s), e.key) && EndsPressed(Of(received, e.key))
    requires !e.pressed && !Typed(s.waiting, e)
    ensures forall i :: 0 <= i < |s.waiting| ==> s.waiting[i].event.key != e.key
  {
    forall i | 0 <= i < |s.waiting|
      ensures s.waiting[i].event.key != e.key
    {
      if s.waiting[i].event.key == e.key {
        OfConcat(Held(s), Events(s.waiting), e.key);
        assert Of(received, e.key) == (gone + Of(Held(s), e.key)) + Of(Events(s.waiting), e.key);
        WaitingPress(s.waiting, gone + Of(Held(s), e.key), e.key, i);
      }
    }
  }

  /** Alternating keys make every next event plausible. */
  lemma NextIsPlausible(b: Build, s: State, received: seq<Event>, e: Event, gone: seq<Event>)
    requires Settled(b, s) && TapIsDown(s, received) && Gone(s, received, e.key, gone)
    requires e.time != 0 && (e.IsNoEvent() ==> !e.pressed)
    requires e.IsEvent() ==> e.pressed == !EndsPressed(Of(received, e.key))
    ensures Plausible(s, e)
  {
    if e.IsEvent() && !e.pressed && !Typed(s.waiting, e) {
      NoneWaiting(s, received, e, gone);
    }
    assert forall i :: 0 <= i < |s.waiting| ==> WaitsFor(b, s, s.waiting[i]);
  }

  lemma TapStaysDown(s: State, received: seq<Event>, e: Event, s': State)
    requires TapIsDown(s, received) && TapFollows(s, e, s')
    ensures TapIsDown(s', received + EventOrNone(e))
  {
    if TappingPressed(s') {
      if e.IsEvent() {
        OfAppend(received, e, s'.tapping.event.key);
      } else {
        assert received + [] == received;
      }
    }
  }

  /** With `d` delivered, `p` pending and `g` gone before, and `d'`, `p'` after, `g` has grown by what was delivered. */
  lemma Grows(d: seq<Event>, p: seq<Event>, x: seq<Event>, d': seq<Event>, p': seq<Event>, g: seq<Event>) returns (g': seq<Event>)
    requires d' + p' == d + p + x && d <= d' && Subsequence(d, g)
    ensures g + p + x == g' + p' && Subsequence(d', g') && (g == d ==> g' == d')
  {
    var m := d'[|d|..];
    assert d' == d + m;
    g' := g + m;
    SubsequenceAppend(d, g, m);
    Associate(d, m, p');
    Associate(d, p, x);
    Cancel(d, m + p', p + x);
    Associate(g, m, p');
    Associate(g, p, x);
  }

  lemma Associate(a: seq<Event>, c: seq<Event>, x: seq<Event>)
    ensures a + c + x == a + (c + x)
  {
  }

  lemma Cancel(d: seq<Event>, a: seq<Event>, c: seq<Event>)
    requires d + a == d + c
    ensures a == c
  {
    assert (d + a)[|d|..] == a && (d + c)[|d|..] == c;
  }

  lemma OfPending(s: State, k: KeyPos)
    ensures Of(Line(s), k) == Of(Delivered(s.trace), k) + Of(Pending(s), k)
    ensures Of(Pending(s), k) == Of(Held(s), k) + Of(Events(s.waiting), k)
  {
    assert Line(s) == Delivered(s.trace) + Pending(s);
    OfConcat(Delivered(s.trace), Pending(s), k);
    OfConcat(Held(s), Events(s.waiting), k);
  }

  lemma GoneGrows(b: Build, env: Env, s: State, received: seq<Event>, e: Event, k: KeyPos, gone: seq<Event>) returns (gone': seq<Event>)
    requires b.KeepsOrder() && Follows(env, b) && Settled(b, s) && Plausible(s, e) && Gone(s, received, k, gone)
    requires Step(env, s, e).discarded == s.discarded
    ensures Gone(Step(env, s, e), received + EventOrNone(e), k, gone')
  {
    var s' := Step(env, s, e);
    StepInOrder(b, env, s, e, k);
    OfConcat(Line(s), EventOrNone(e), k);
    OfPending(s, k);
    OfPending(s', k);
    StepAdds(env, s, e);
    OfPrefix(Delivered(s.trace), Delivered(s'.trace), k);
    OfConcat(received, EventOrNone(e), k);
    gone' := Grows(Of(Delivered(s.trace), k), Of(Pending(s), k), Of(EventOrNone(e), k),
                   Of(Delivered(s'.trace), k), Of(Pending(s'), k), gone);
  }

  lemma GoneAfterOverflow(s: State, received: seq<Event>, e: Event, k: KeyPos, gone: seq<Event>, s': State) returns (gone': seq<Event>)
    requires Gone(s, received, k, gone) && s'.tapping == NO_RECORD && s'.waiting == [] && s'.discarded != []
    requires Delivered(s'.trace) == Delivered(s.trace) || Delivered(s'.trace) == Delivered(s.trace) + Held(s)
    ensures Gone(s', received + EventOrNone(e), k, gone')
  {
    var d, h, w, x := Of(Delivered(s.trace), k), Of(Held(s), k), Of(Events(s.waiting), k), Of(EventOrNone(e), k);
    gone' := gone + h + (w + x);
    OfPending(s, k);
    OfConcat(received, EventOrNone(e), k);
    OfConcat(Delivered(s.trace), Held(s), k);
    AllGone(d, h, w + x, gone);
    Associate(gone, h, w);
    Associate(gone + h, w, x);
    NothingPending(s', k);
    assert gone' + [] == gone';
  }

  lemma NothingPending(s: State, k: KeyPos)
    requires s.tapping == NO_RECORD && s.waiting == []
    ensures Of(Pending(s), k) == []
  {
  }

  lemma AllGone(d: seq<Event>, h: seq<Event>, rest: seq<Event>, gone: seq<Event>)
    requires Subsequence(d, gone)
    ensures Subsequence(d, gone + h + rest) && Subsequence(d + h, gone + h + rest)
  {
    SubsequenceAppend(d, gone, h);
    SubsequenceAppend(d, gone + h, rest);
    SubsequenceAppend(d + h, gone + h, rest);
  }

  // ---- runs ----

  /** Over every run the resolver stays settled, and what has left of `k` is a subsequence of what was received before what is pending. */
  lemma {:induction false} RunInOrder(b: Build, inputs: seq<Input>, k: KeyPos) returns (gone: seq<Event>)
    requires b.KeepsOrder() && WellFormed(b, inputs)
    ensures Settled(b, Run(START, inputs)) && TapIsDown(Run(START, inputs), Received(inputs))
    ensures Gone(Run(START, inputs), Received(inputs), k, gone)
    decreases |inputs|
  {
    if inputs == [] {
      gone := [];
      assert Pending(START) == [];
    } else {
      var n := |inputs| - 1;
      var s := Run(START, inputs[..n]);
      var e := inputs[n].event;
      WellFormedBefore(b, inputs);
      var gone0 := RunInOrder(b, inputs[..n], k);
      var goneE := RunInOrder(b, inputs[..n], e.key);
      NextIsPlausible(b, s, Received(inputs[..n]), e, goneE);
      gone := StepOfRun(b, inputs[n].env, s, Received(inputs[..n]), e, k, gone0);
      ReceivedLast(inputs);
    }
  }

  lemma StepOfRun(b: Build, env: Env, s: State, received: seq<Event>, e: Event, k: KeyPos, gone: seq<Event>) returns (gone': seq<Event>)
    requires b.KeepsOrder() && Follows(env, b) && Settled(b, s) && TapIsDown(s, received)
    requires Plausible(s, e) && Gone(s, received, k, gone)
    ensures var s' := Step(env, s, e);
            && Settled(b, s') && TapIsDown(s', received + EventOrNone(e))
            && Gone(s', received + EventOrNone(e), k, gone')
  {
    if Step(env, s, e).discarded == s.discarded {
      StepInOrder(b, env, s, e, k);
      TapStaysDown(s, received, e, Step(env, s, e));
      gone' := GoneGrows(b, env, s, received, e, k, gone);
    } else {
      StepOverflows(b, env, s, e);
      gone' := GoneAfterOverflow(s, received, e, k, gone, Step(env, s, e));
    }
  }

  /** What was delivered of a key, then held, then waiting. */
  function LineOf(s: State, k: KeyPos): seq<Event> {
    Of(Delivered(s.trace), k) + Of(Held(s), k) + Of(Events(s.waiting), k)
  }

  /** Every key's events are in order: those delivered, held and waiting are those received, with some left out at most. */
  ghost predicate NoneOvertakes(inputs: seq<Input>) {
    forall k :: Subsequence(LineOf(Run(START, inputs), k), Of(Received(inputs), k))
  }

  /** Every key's events are in order and complete: those delivered, held and waiting are those received. */
  ghost predicate KeyOrderKept(inputs: seq<Input>) {
    forall k :: LineOf(Run(START, inputs), k) == Of(Received(inputs), k)
  }

  /** Complete or not, the events are in order; complete events are in particular in order. */
  lemma KeptIsInOrder(inputs: seq<Input>)
    requires KeyOrderKept(inputs)
    ensures NoneOvertakes(inputs)
  {
    forall k
      ensures Subsequence(LineOf(Run(START, inputs), k), Of(Received(inputs), k))
    {
      SubsequenceSelf(Of(Received(inputs), k));
    }
  }

  lemma LineOfPending(s: State, k: KeyPos)
    ensures LineOf(s, k) == Of(Delivered(s.trace), k) + Of(Pending(s), k)
  {
    OfPending(s, k);
  }

  /** In every run of a build that satisfies the condition, overflows included, no real event of a key overtakes another. */
  lemma OrderThroughOverflow(b: Build, inputs: seq<Input>)
    requires b.KeepsOrder() && WellFormed(b, inputs)
    ensures NoneOvertakes(inputs)
  {
    var s := Run(START, inputs);
    forall k
      ensures Subsequence(LineOf(s, k), Of(Received(inputs), k))
    {
      var gone := RunInOrder(b, inputs, k);
      SubsequenceAppend(Of(Delivered(s.trace), k), gone, Of(Pending(s), k));
      LineOfPending(s, k);
    }
  }

  /** A run without overflow, of a build that satisfies the condition, keeps the real events of every key, in order. */
  lemma PerKeyOrder(b: Build, inputs: seq<Input>)
    requires b.KeepsOrder() && WellFormed(b, inputs) && Run(START, inputs).discarded == []
    ensures KeyOrderKept(inputs)
  {
    var s := Run(START, inputs);
    forall k
      ensures LineOf(s, k) == Of(Received(inputs), k)
    {
      var gone := RunInOrder(b, inputs, k);
      LineOfPending(s, k);
    }
  }

  // ---- what process_record is told ----

  lemma {:induction false} ToldIsDelivered(trace: History)
    requires NoneInvented(trace)
    ensures Told(trace) == Delivered(trace)
  {
    if trace.Then? {
      ToldIsDelivered(trace.past);
    }
  }

  /** What `process_record` is told of each key alternates, invented releases included. */
  ghost predicate ToldAlternates(inputs: seq<Input>) {
    forall k :: Alternates(Of(Told(Run(START, inputs).trace), k))
  }

  lemma NothingIsInvented(b: Build, inputs: seq<Input>)
    requires b.KeepsOrder() && b.InventsNothing() && WellFormed(b, inputs)
    ensures NoneInvented(Run(START, inputs).trace)
    ensures Told(Run(START, inputs).trace) == Delivered(Run(START, inputs).trace)
  {
    var gone := RunInOrder(b, inputs, KeyPos(0, 0));
    ToldIsDelivered(Run(START, inputs).trace);
  }

  lemma AlternatesFront(a: seq<Event>, c: seq<Event>)
    requires Alternates(a + c)
    ensures Alternates(a)
  {
    forall i | 0 <= i < |a|
      ensures a[i].pressed == (i % 2 == 0)
    {
      assert (a + c)[i] == a[i];
    }
  }

  /** Builds that keep order and invent nothing: without overflow what `process_record` is told of each key alternates. */
  lemma ToldInTurn(b: Build, inputs: seq<Input>)
    requires b.KeepsOrder() && b.InventsNothing() && WellFormed(b, inputs) && Run(START, inputs).discarded == []
    ensures ToldAlternates(inputs)
  {
    var s := Run(START, inputs);
    NothingIsInvented(b, inputs);
    PerKeyOrder(b, inputs);
    forall k
      ensures Alternates(Of(Told(s.trace), k))
    {
      LineOfPending(s, k);
      assert Alternates(LineOf(s, k));
      AlternatesFront(Of(Delivered(s.trace), k), Of(Pending(s), k));
    }
  }

  // ---- a tick at the end ----

  lemma TickEmpties(b: Build, env: Env, s: State, e: Event)
    requires Follows(env, b) && Settled(b, s) && e.IsNoEvent() && !e.pressed && !WithinTappingTerm(env, s, e)
    ensures Held(Step(env, s, e)) == [] && Step(env, s, e).waiting == []
  {
    if Undecided(s) {
      FlushAsHold(b, env, s, s.tapping, Record(e, Tap(false, 0)));
    }
  }

  lemma OnlyDelivered(s: State, all: seq<Event>, k: KeyPos)
    requires Held(s) == [] && s.waiting == []
    requires LineOf(s, k) == Of(all, k)
    ensures Of(Delivered(s.trace), k) == Of(all, k)
  {
  }

  /** Nothing is lost: one tick past the term delivers all that was still held or waiting, each key in order. */
  lemma TickFlushes(b: Build, inputs: seq<Input>, tick: Input)
    requires b.KeepsOrder() && WellFormed(b, inputs + [tick]) && tick.event.IsNoEvent()
    requires Run(START, inputs).discarded == []
    requires !WithinTappingTerm(tick.env, Run(START, inputs), tick.event)
    ensures var s := Run(START, inputs + [tick]);
            && Held(s) == [] && s.waiting == []
            && (forall k :: Of(Delivered(s.trace), k) == Of(Received(inputs), k))
  {
    var all := inputs + [tick];
    assert all[..|inputs|] == inputs;
    var s0 := Run(START, inputs);
    var s := Run(START, all);
    WellFormedBefore(b, all);
    var gone := RunInOrder(b, inputs, KeyPos(0, 0));
    TickEmpties(b, tick.env, s0, tick.event);
    ReceivedLast(all);
    PerKeyOrder(b, all);
    forall k
      ensures Of(Delivered(s.trace), k) == Of(Received(inputs), k)
    {
      OnlyDelivered(s, Received(all), k);
    }
  }
}
