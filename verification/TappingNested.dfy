/**
 Nested tap keys: a tap key that is pressed and released while another one is still
 undecided.  When the outer key's term runs out the outer key is a hold, and the inner key
 is settled at once by looking for its release among what waits: a tap if the release comes
 inside the inner key's own term, a hold if it comes later.
 */
module TappingNested {
  import opened Grid
  import opened TappingModel
  import opened TappingDecision

  /** Two tap keys and their terms. */
  datatype Pair = Pair(outer: KeyPos, inner: KeyPos, outerTerm: nat, innerTerm: nat)

  /** These are the tap keys; neither permissive hold nor hold on other key press settles one early. */
  ghost predicate Nests(env: Env, p: Pair) {
    && p.outer != p.inner && p.outer != KeyPos(TICK, TICK) && p.inner != KeyPos(TICK, TICK)
    && (forall h: History, r: Record :: r.event.pressed ==> (env.isTap(h, r) <==> r.event.key == p.outer || r.event.key == p.inner))
    && (forall h: History, r: Record :: env.tappingTerm(h, r) == if r.event.key == p.inner then p.innerTerm else p.outerTerm)
    && (forall h: History, r: Record :: !env.holdOnOtherPress(h, r) && !env.permissiveHold(h, r))
  }

  function Plains(es: seq<Event>): (rs: seq<Record>)
    ensures |rs| == |es| && forall i :: 0 <= i < |rs| ==> rs[i] == Plain(es[i])
  {
    seq(|es|, i requires 0 <= i < |es| => Plain(es[i]))
  }

  /** Events inside the outer term that wait: presses, and releases of keys pressed among them. */
  predicate Queues(p: Pair, es: seq<Event>, start: nat) {
    es != [] ==>
      var n := |es| - 1;
      && Queues(p, es[..n], start)
      && es[n].IsEvent() && es[n].key != p.outer && Diff16(es[n].time, start) < p.outerTerm
      && (es[n].pressed || Typed(Plains(es[..n]), es[n])) && |es| < WAITING_BUFFER_SIZE
  }

  lemma {:induction false} QueuesFirst(p: Pair, es: seq<Event>, start: nat)
    requires Queues(p, es, start) && es != []
    ensures es[0].IsEvent() && es[0].key != p.outer && es[0].pressed && Diff16(es[0].time, start) < p.outerTerm
  {
    if |es| > 1 {
      QueuesFirst(p, es[..|es| - 1], start);
    } else {
      assert Plains(es[..0]) == [];
    }
  }

  /** All of them wait behind the undecided outer key. */
  lemma {:induction false} AllQueue(env: Env, p: Pair, h: History, t: Event, d: seq<Event>, es: seq<Event>)
    requires Nests(env, p) && t.IsEvent() && t.pressed && t.key == p.outer && Queues(p, es, t.time)
    ensures Steps(env, Open(h, t, [], false, d), es) == Open(h, t, Plains(es), es != [], d)
  {
    if es != [] {
      var n := |es| - 1;
      AllQueue(env, p, h, t, d, es[..n]);
      var u := Open(h, t, Plains(es[..n]), es[..n] != [], d);
      var q := Open(h, t, Plains(es), true, d);
      QueuesFirst(p, es, t.time);
      OneQueues(env, p, u, q, es[n]);
      assert Plains(es) == Plains(es[..n]) + [Plain(es[n])];
    } else {
      assert Plains(es) == [];
    }
  }

  lemma OneQueues(env: Env, p: Pair, u: State, q: State, e: Event)
    requires Nests(env, p) && Undecided(u) && u.tapping.event.key == p.outer && u.tapping.tap == Tap(u.waiting != [], 0)
    requires e.IsEvent() && e.key != p.outer && Diff16(e.time, u.tapping.event.time) < p.outerTerm
    requires (e.pressed || Typed(u.waiting, e)) && |u.waiting| + 1 < WAITING_BUFFER_SIZE && (u.waiting == [] ==> e.pressed)
    requires q == u.(waiting := u.waiting + [Plain(e)], tapping := u.tapping.(tap := Tap(true, 0)))
    requires q.waiting[0].event.IsEvent() && q.waiting[0].event.key != p.outer && q.waiting[0].event.pressed
    requires Diff16(q.waiting[0].event.time, u.tapping.event.time) < p.outerTerm
    ensures Step(env, u, e) == q
  {
    var r := Plain(e);
    assert ProcessTapping(env, u, r) == Outcome(u.(tapping := q.tapping), r, false);
    assert Enqueue(u.(tapping := q.tapping), r) == q;
    assert ProcessTapping(env, q, q.waiting[0]) == Outcome(q, q.waiting[0], false);
    DrainStopped(env, q);
    assert q.waiting[0 := q.waiting[0]] == q.waiting;
  }

  // ---- the buffer loop ----

  predicate OtherKey(p: Pair, e: Event) {
    e.IsEvent() && e.key != p.outer && e.key != p.inner
  }

  predicate OtherKeys(p: Pair, es: seq<Event>) {
    forall i :: 0 <= i < |es| ==> OtherKey(p, es[i])
  }

  lemma PlainsFirst(es: seq<Event>)
    requires es != []
    ensures Plains(es) == [Plain(es[0])] + Plains(es[1..])
  {
  }

  lemma FrontPasses(env: Env, s: State, r: Record, rest: seq<Record>, t: State)
    requires s.waiting == [r] + rest && ProcessTapping(env, s, r) == Outcome(t, r, true) && t.waiting == s.waiting
    ensures Drain(env, s) == Drain(env, t.(waiting := rest))
  {
    DrainHandled(env, s);
    assert t.waiting[1..] == rest;
  }

  /** With no tap in progress, or the inner key held as a tap, other keys leave in order. */
  lemma {:induction false} OthersLeave(env: Env, p: Pair, s: State, es: seq<Event>, rest: seq<Record>)
    requires Nests(env, p) && OtherKeys(p, es) && s.waiting == Plains(es) + rest
    requires s.tapping == NO_RECORD || (TappingPressed(s) && s.tapping.event.key == p.inner && s.tapping.tap.count == 1)
    ensures Drain(env, s) == Drain(env, s.(waiting := rest, trace := Followed(s.trace, Plains(es))))
    decreases |es|
  {
    if es == [] {
      assert Plains(es) == [] && s.waiting == rest;
    } else {
      var r := Plain(es[0]);
      PlainsFirst(es);
      assert s.waiting == [r] + (Plains(es[1..]) + rest);
      assert ProcessTapping(env, s, r) == Outcome(Deliver(s, r), r, true);
      FrontPasses(env, s, r, Plains(es[1..]) + rest, Deliver(s, r));
      FollowedFirst(s.trace, Plains(es));
      assert Plains(es)[1..] == Plains(es[1..]);
      OthersLeave(env, p, Deliver(s, r).(waiting := Plains(es[1..]) + rest), es[1..], rest);
    }
  }

  /** Behind the release of the inner key, inside its term, they leave as well and may interrupt the tap. */
  lemma {:induction false} OthersLeaveBehind(env: Env, p: Pair, s: State, es: seq<Event>)
    requires Nests(env, p) && OtherKeys(p, es) && s.waiting == Plains(es)
    requires TappingReleased(s) && s.tapping.event.key == p.inner
    requires forall i :: 0 <= i < |es| ==> Diff16(es[i].time, s.tapping.event.time) < p.innerTerm
    ensures var s' := Drain(env, s);
            s'.waiting == [] && s'.trace == Followed(s.trace, Plains(es)) && s'.discarded == s.discarded
            && s'.tapping.event == s.tapping.event && s'.tapping.tap.count == s.tapping.tap.count
    decreases |es|
  {
    if es == [] {
      assert Plains(es) == [] && s.waiting == [];
    } else {
      var r := Plain(es[0]);
      PlainsFirst(es);
      var s1 := if r.event.pressed then s.(tapping := s.tapping.(tap := s.tapping.tap.(interrupted := true))) else s;
      assert ProcessTapping(env, s, r) == Outcome(Deliver(s1, r), r, true);
      FrontPasses(env, s, r, Plains(es[1..]), Deliver(s1, r));
      FollowedFirst(s.trace, Plains(es));
      assert Plains(es)[1..] == Plains(es[1..]);
      OthersLeaveBehind(env, p, Deliver(s1, r).(waiting := Plains(es[1..])), es[1..]);
    }
  }

  /** The inner key's press and release with other keys around them. */
  datatype Nest = Nest(before: seq<Event>, down: Event, mid: seq<Event>, up: Event, after: seq<Event>) {
    function All(): seq<Event> {
      before + [down] + mid + [up] + after
    }
  }

  predicate Proper(p: Pair, n: Nest) {
    && OtherKeys(p, n.before) && OtherKeys(p, n.mid) && OtherKeys(p, n.after)
    && n.down.IsEvent() && n.down.pressed && n.down.key == p.inner
    && n.up.IsEvent() && !n.up.pressed && n.up.key == p.inner
  }

  lemma PlainsConcat(a: seq<Event>, c: seq<Event>)
    ensures Plains(a + c) == Plains(a) + Plains(c)
  {
  }

  lemma PlainsOne(e: Event)
    ensures Plains([e]) == [Plain(e)]
  {
  }

  lemma PlainsOfNest(n: Nest)
    ensures Plains(n.All()) == Plains(n.before) + ([Plain(n.down)] + (Plains(n.mid) + ([Plain(n.up)] + Plains(n.after))))
  {
    PlainsConcat(n.before + [n.down] + n.mid + [n.up], n.after);
    PlainsConcat(n.before + [n.down] + n.mid, [n.up]);
    PlainsConcat(n.before + [n.down], n.mid);
    PlainsConcat(n.before, [n.down]);
    PlainsOne(n.down);
    PlainsOne(n.up);
  }

  /** The inner press at the front finds its release among what waits. */
  lemma ScanFinds(env: Env, p: Pair, n: Nest, s: State)
    requires Nests(env, p) && Proper(p, n) && s.tapping == NO_RECORD && Diff16(n.up.time, n.down.time) < p.innerTerm
    requires s.waiting == [Plain(n.down)] + (Plains(n.mid) + ([Plain(n.up)] + Plains(n.after)))
    ensures var tap := Record(n.down, Tap(false, 1));
            Drain(env, s) ==
            Drain(env, s.(tapping := tap, trace := Then(s.trace, Delivery(tap, false)),
                          waiting := Plains(n.mid) + ([Record(n.up, Tap(false, 1))] + Plains(n.after))))
  {
    var r := Plain(n.down);
    var s1 := s.(tapping := r);
    var at := 1 + |n.mid|;
    var tap := Record(n.down, Tap(false, 1));
    assert s.waiting[at] == Plain(n.up);
    assert EndsTap(env, s1, s1.waiting[at]);
    forall k | 0 <= k < at
      ensures !EndsTap(env, s1, s1.waiting[k])
    {
      if k > 0 {
        assert s1.waiting[k] == Plain(n.mid[k - 1]);
      }
    }
    assert FindTapEnd(env, s1, 0) == at;
    var rest := Plains(n.mid) + ([Record(n.up, Tap(false, 1))] + Plains(n.after));
    assert s.waiting[at := WithCount(Plain(n.up), 1)] == [r] + rest;
    var s2 := s.(tapping := tap, trace := Then(s.trace, Delivery(tap, false)), waiting := [r] + rest);
    assert ProcessTapping(env, s, r) == Outcome(s2, r, true);
    DrainHandled(env, s);
    assert s2.waiting[1..] == rest;
  }

  /** The release of the inner key ends its tap. */
  lemma InnerReleased(env: Env, p: Pair, s: State, up: Record, rest: seq<Record>)
    requires Nests(env, p) && TappingPressed(s) && s.tapping.event.key == p.inner && s.tapping.tap == Tap(false, 1)
    requires up.event.IsEvent() && !up.event.pressed && up.event.key == p.inner && up.tap == Tap(false, 1)
    requires Diff16(up.event.time, s.tapping.event.time) < p.innerTerm && s.waiting == [up] + rest
    ensures Drain(env, s) == Drain(env, s.(tapping := up, waiting := rest, trace := Then(s.trace, Delivery(up, false))))
  {
    FrontPasses(env, s, up, rest, s.(tapping := up, trace := Then(s.trace, Delivery(up, false))));
  }

  /** What the outer key's hold is followed by. */
  function NestTrace(h: History, n: Nest): History {
    var h1 := Then(Followed(h, Plains(n.before)), Delivery(Record(n.down, Tap(false, 1)), false));
    var h2 := Then(Followed(h1, Plains(n.mid)), Delivery(Record(n.up, Tap(false, 1)), false));
    Followed(h2, Plains(n.after))
  }

  lemma DrainsNest(env: Env, p: Pair, n: Nest, s: State)
    requires Nests(env, p) && Proper(p, n) && s.tapping == NO_RECORD && Diff16(n.up.time, n.down.time) < p.innerTerm
    requires forall i :: 0 <= i < |n.after| ==> Diff16(n.after[i].time, n.up.time) < p.innerTerm
    requires s.waiting == Plains(n.All())
    ensures var s' := Drain(env, s);
            s'.waiting == [] && s'.trace == NestTrace(s.trace, n) && s'.discarded == s.discarded
            && s'.tapping.event == n.up && s'.tapping.tap.count == 1
  {
    var up := Record(n.up, Tap(false, 1));
    var down := Record(n.down, Tap(false, 1));
    PlainsOfNest(n);
    OthersLeave(env, p, s, n.before, [Plain(n.down)] + (Plains(n.mid) + ([Plain(n.up)] + Plains(n.after))));
    var h1 := Followed(s.trace, Plains(n.before));
    ScanFinds(env, p, n, State(NO_RECORD, [Plain(n.down)] + (Plains(n.mid) + ([Plain(n.up)] + Plains(n.after))), h1, s.discarded));
    var h2 := Then(h1, Delivery(down, false));
    OthersLeave(env, p, State(down, Plains(n.mid) + ([up] + Plains(n.after)), h2, s.discarded), n.mid, [up] + Plains(n.after));
    var h3 := Followed(h2, Plains(n.mid));
    InnerReleased(env, p, State(down, [up] + Plains(n.after), h3, s.discarded), up, Plains(n.after));
    OthersLeaveBehind(env, p, State(up, Plains(n.after), Then(h3, Delivery(up, false)), s.discarded), n.after);
  }

  /**
   The outer key goes down, then the inner key is pressed and released inside its own term with other keys around it,
   then the outer term runs out.  The outer key is a hold, and everything that waited follows it in order, the inner key
   as a tap counted 1: nothing is left waiting for the inner key's own term.
   */
  lemma NestedTap(env: Env, p: Pair, n: Nest, s: State, t: Event, late: Event)
    requires Nests(env, p) && Proper(p, n) && Queues(p, n.All(), t.time)
    requires s.tapping == NO_RECORD && s.waiting == [] && t.IsEvent() && t.pressed && t.key == p.outer
    requires Diff16(n.up.time, n.down.time) < p.innerTerm
    requires forall i :: 0 <= i < |n.after| ==> Diff16(n.after[i].time, n.up.time) < p.innerTerm
    requires late.IsNoEvent() && !late.pressed && Diff16(late.time, t.time) >= p.outerTerm
    ensures var s' := Step(env, Steps(env, Step(env, s, t), n.All()), late);
            && s'.trace == NestTrace(Then(s.trace, Delivery(Record(t, Tap(true, 0)), false)), n)
            && s'.waiting == [] && s'.discarded == s.discarded
            && s'.tapping.event == n.up && s'.tapping.tap.count == 1
  {
    assert Step(env, s, t) == Open(s.trace, t, [], false, s.discarded);
    AllQueue(env, p, s.trace, t, s.discarded, n.All());
    OuterTimesOut(env, p, s.trace, t, Plains(n.All()), s.discarded, late);
    DrainsNest(env, p, n, State(NO_RECORD, Plains(n.All()), Then(s.trace, Delivery(Record(t, Tap(true, 0)), false)), s.discarded));
  }

  lemma OuterTimesOut(env: Env, p: Pair, h: History, t: Event, rs: seq<Record>, d: seq<Event>, late: Event)
    requires Nests(env, p) && t.IsEvent() && t.pressed && t.key == p.outer
    requires late.IsNoEvent() && Diff16(late.time, t.time) >= p.outerTerm
    ensures Step(env, Open(h, t, rs, true, d), late) ==
            Drain(env, State(NO_RECORD, rs, Then(h, Delivery(Record(t, Tap(true, 0)), false)), d))
  {
    var u := Open(h, t, rs, true, d);
    var u1 := State(NO_RECORD, rs, Then(h, Delivery(Record(t, Tap(true, 0)), false)), d);
    assert ProcessTapping(env, u, Plain(late)) == Outcome(u1, Plain(late), false);
  }

  /** An inner key that is held past its own term while it waits is a hold: its release finds it out, and still waits. */
  lemma NestedHold(env: Env, p: Pair, s: State, t: Event, down: Event, up: Event, late: Event)
    requires Nests(env, p) && Proper(p, Nest([], down, [], up, [])) && Queues(p, [down, up], t.time)
    requires s.tapping == NO_RECORD && s.waiting == [] && t.IsEvent() && t.pressed && t.key == p.outer
    requires Diff16(up.time, down.time) >= p.innerTerm
    requires late.IsNoEvent() && !late.pressed && Diff16(late.time, t.time) >= p.outerTerm
    ensures Step(env, Steps(env, Step(env, s, t), [down, up]), late) ==
            State(NO_RECORD, [Plain(up)],
                  Then(Then(s.trace, Delivery(Record(t, Tap(true, 0)), false)), Delivery(Plain(down), false)), s.discarded)
  {
    var rs := [Plain(down), Plain(up)];
    assert Plains([down, up]) == rs;
    assert Step(env, s, t) == Open(s.trace, t, [], false, s.discarded);
    AllQueue(env, p, s.trace, t, s.discarded, [down, up]);
    OuterTimesOut(env, p, s.trace, t, rs, s.discarded, late);
    var h := Then(s.trace, Delivery(Record(t, Tap(true, 0)), false));
    InnerTimesOut(env, p, State(NO_RECORD, rs, h, s.discarded), down, up);
  }

  /**
   A tap that was interrupted and is pressed and released again while it all still waits: the press is taken up undecided
   without looking for its release, so that the release only settles it, counted 1, and still waits itself.
   */
  lemma RepeatWaits(env: Env, s: State, down: Event, up: Event)
    requires TappingReleased(s) && s.tapping.tap.interrupted && s.waiting == [Plain(down), Plain(up)]
    requires down.IsEvent() && down.pressed && up.IsEvent() && !up.pressed
    requires s.tapping.event.key == down.key == up.key && WithinTappingTerm(env, s, down)
    requires WithinTappingTerm(env, s.(tapping := Plain(down)), up)
    ensures Drain(env, s) ==
            s.(tapping := Record(down, Tap(false, 1)), waiting := [Record(up, Tap(false, 1))],
               trace := Then(s.trace, Delivery(Record(down, Tap(false, 1)), false)))
  {
    var s1 := s.(tapping := Plain(down));
    assert s.waiting == [Plain(down)] + [Plain(up)];
    assert ProcessTapping(env, s, Plain(down)) == Outcome(s1, Plain(down), true);
    FrontPasses(env, s, Plain(down), [Plain(up)], s1);
    var q := s1.(waiting := [Plain(up)]);
    var tap := Record(down, Tap(false, 1));
    var q1 := s.(tapping := tap, waiting := [Plain(up)], trace := Then(s.trace, Delivery(tap, false)));
    assert ProcessTapping(env, q, Plain(up)) == Outcome(q1, Record(up, Tap(false, 1)), false);
    DrainStopped(env, q);
    assert q1.waiting[0 := Record(up, Tap(false, 1))] == [Record(up, Tap(false, 1))];
  }

  lemma InnerTimesOut(env: Env, p: Pair, s: State, down: Event, up: Event)
    requires Nests(env, p) && Proper(p, Nest([], down, [], up, [])) && Diff16(up.time, down.time) >= p.innerTerm
    requires s.tapping == NO_RECORD && s.waiting == [Plain(down), Plain(up)]
    ensures Drain(env, s) == s.(waiting := [Plain(up)], trace := Then(s.trace, Delivery(Plain(down), false)))
  {
    var s1 := s.(tapping := Plain(down));
    assert s1.waiting == [Plain(down)] + [Plain(up)];
    assert !EndsTap(env, s1, s1.waiting[0]) && !EndsTap(env, s1, s1.waiting[1]);
    assert FindTapEnd(env, s1, 0) == 2;
    assert ProcessTapping(env, s, Plain(down)) == Outcome(s1, Plain(down), true);
    FrontPasses(env, s, Plain(down), [Plain(up)], s1);
    var q := s1.(waiting := [Plain(up)]);
    var q1 := s.(waiting := [Plain(up)], trace := Then(s.trace, Delivery(Plain(down), false)));
    assert ProcessTapping(env, q, Plain(up)) == Outcome(q1, Plain(up), false);
    DrainStopped(env, q);
    assert q1.waiting[0 := Plain(up)] == q1.waiting;
  }
}
