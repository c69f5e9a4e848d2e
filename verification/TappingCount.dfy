/**
 Tap counting: any number of strokes on one tap key, each held for less than the tapping
 term and each following the last within the quick-tap term, with ticks anywhere in
 between, is delivered as taps counted 1, 2, 3, ... up to 15 and no further.
 */
module TappingCount {
  import opened Grid
  import opened TappingModel

  /** A press, the ticks while the key is down, the release, and the ticks before the next press (as time stamps). */
  datatype Stroke = Stroke(press: nat, heldTicks: seq<nat>, release: nat, gapTicks: seq<nat>)

  function Tick(time: nat): Event {
    Event(KeyPos(TICK, TICK), false, time)
  }

  /** The resolver is called on each tick in turn. */
  function Ticks(env: Env, s: State, times: seq<nat>): State {
    if times == [] then s
    else Step(env, Ticks(env, s, times[..|times| - 1]), Tick(times[|times| - 1]))
  }

  function Hit(env: Env, s: State, key: KeyPos, k: Stroke): State {
    var pressed := Ticks(env, Step(env, s, Event(key, true, k.press)), k.heldTicks);
    Ticks(env, Step(env, pressed, Event(key, false, k.release)), k.gapTicks)
  }

  function Hits(env: Env, s: State, key: KeyPos, ks: seq<Stroke>): State {
    if ks == [] then s
    else Hit(env, Hits(env, s, key, ks[..|ks| - 1]), key, ks[|ks| - 1])
  }

  /** `term` and `quick` bound the two terms from below, and `key` is a tap key. */
  ghost predicate Allows(env: Env, key: KeyPos, term: nat, quick: nat) {
    && !(key.row == TICK && key.col == TICK)
    && quick <= term
    && (forall h: History, r: Record :: env.tappingTerm(h, r) >= term)
    && (forall h: History, r: Record :: env.quickTapTerm(h, r) >= quick)
    && (forall h: History, r: Record :: r.event.key == key && r.event.pressed ==> env.isTap(h, r))
  }

  predicate InTerm(times: seq<nat>, from: nat, term: nat) {
    forall i :: 0 <= i < |times| ==> Diff16(times[i], from) < term
  }

  /** Each stroke is short, and each but the first follows the last one quickly. */
  predicate Quick(ks: seq<Stroke>, term: nat, quick: nat) {
    && (forall i :: 0 <= i < |ks| ==>
          && ks[i].press != 0 && ks[i].release != 0
          && Diff16(ks[i].release, ks[i].press) < term
          && InTerm(ks[i].heldTicks, ks[i].press, term)
          && InTerm(ks[i].gapTicks, ks[i].release, term))
    && (forall i :: 0 < i < |ks| ==> Diff16(ks[i].press, ks[i - 1].release) < quick)
  }

  function Capped(n: nat): nat {
    if n < MAX_TAP_COUNT then n else MAX_TAP_COUNT
  }

  /** Stroke number n (from 1) delivered as a press and a release, both counted min(n, 15). */
  function Counted(h: History, key: KeyPos, ks: seq<Stroke>): History {
    if ks == [] then h
    else
      var k := ks[|ks| - 1];
      var tap := Tap(false, Capped(|ks|));
      Then(Then(Counted(h, key, ks[..|ks| - 1]),
                Delivery(Record(Event(key, true, k.press), tap), false)),
           Delivery(Record(Event(key, false, k.release), tap), false))
  }

  /** A tick inside the term leaves a tap in progress alone. */
  lemma TickInTerm(env: Env, s: State, time: nat, term: nat)
    requires s.tapping.event.IsEvent() && s.waiting == []
    requires forall h: History, r: Record :: env.tappingTerm(h, r) >= term
    requires Diff16(time, s.tapping.event.time) < term
    ensures Step(env, s, Tick(time)) == s
  {
    assert Typed([], Tick(time)) == false;
  }

  lemma {:induction false} TicksInTerm(env: Env, s: State, times: seq<nat>, term: nat)
    requires s.tapping.event.IsEvent() && s.waiting == []
    requires forall h: History, r: Record :: env.tappingTerm(h, r) >= term
    requires InTerm(times, s.tapping.event.time, term)
    ensures Ticks(env, s, times) == s
  {
    if times != [] {
      TicksInTerm(env, s, times[..|times| - 1], term);
      TickInTerm(env, s, times[|times| - 1], term);
    }
  }

  /** The first stroke: held back until its release settles it as a tap counted 1. */
  lemma FirstStroke(env: Env, s: State, key: KeyPos, k: Stroke, term: nat, quick: nat)
    requires Allows(env, key, term, quick) && Quick([k], term, quick)
    requires !s.tapping.event.IsEvent() && s.waiting == []
    ensures Hit(env, s, key, k) ==
            State(Record(Event(key, false, k.release), Tap(false, 1)), [], Counted(s.trace, key, [k]), s.discarded)
  {
    assert [k][0] == k;
    var press := Record(Event(key, true, k.press), Tap(false, 0));
    var s1 := s.(tapping := press);
    assert Step(env, s, press.event) == s1;
    TicksInTerm(env, s1, k.heldTicks, term);
    var up := Record(Event(key, false, k.release), Tap(false, 1));
    var s2 := Deliver(s.(tapping := WithCount(press, 1)), WithCount(press, 1));
    assert ProcessTapping(env, s1, Record(up.event, Tap(false, 0))) == Outcome(s2, up, false);
    var q := s2.(waiting := [up]);
    assert Enqueue(s2, up) == q;
    var s3 := Deliver(s2, up).(tapping := up);
    assert ProcessTapping(env, q, up) == Outcome(s3.(waiting := [up]), up, true);
    assert Drain(env, q) == s3 by { assert [up][1..] == []; }
    TicksInTerm(env, s3, k.gapTicks, term);
    assert [k][..0] == [];
  }

  /** Every later stroke: delivered at once, counted one more than the last, up to 15. */
  lemma NextStroke(env: Env, s: State, key: KeyPos, k: Stroke, n: nat, term: nat, quick: nat)
    requires Allows(env, key, term, quick) && Quick([k], term, quick)
    requires s.tapping.event.IsEvent() && s.tapping.event.key == key && !s.tapping.event.pressed
    requires s.waiting == [] && 0 < n && s.tapping.tap == Tap(false, Capped(n))
    requires Diff16(k.press, s.tapping.event.time) < quick
    ensures var tap := Tap(false, Capped(n + 1));
            var down := Record(Event(key, true, k.press), tap);
            var up := Record(Event(key, false, k.release), tap);
            Hit(env, s, key, k) == State(up, [], Then(Then(s.trace, Delivery(down, false)), Delivery(up, false)), s.discarded)
  {
    assert [k][0] == k;
    var tap := Tap(false, Capped(n + 1));
    var down := Record(Event(key, true, k.press), tap);
    var up := Record(Event(key, false, k.release), tap);
    var s1 := Deliver(s, down).(tapping := down);
    assert ProcessTapping(env, s, Record(down.event, Tap(false, 0))) == Outcome(s1, down, true);
    assert Step(env, s, down.event) == s1;
    TicksInTerm(env, s1, k.heldTicks, term);
    var s2 := Deliver(s1, up).(tapping := up);
    assert ProcessTapping(env, s1, Record(up.event, Tap(false, 0))) == Outcome(s2, up, true);
    assert Step(env, s1, up.event) == s2;
    TicksInTerm(env, s2, k.gapTicks, term);
  }

  lemma QuickParts(ks: seq<Stroke>, term: nat, quick: nat)
    requires ks != [] && Quick(ks, term, quick)
    ensures Quick(ks[..|ks| - 1], term, quick) && Quick([ks[|ks| - 1]], term, quick)
    ensures |ks| > 1 ==> Diff16(ks[|ks| - 1].press, ks[|ks| - 2].release) < quick
  {
    var front := ks[..|ks| - 1];
    assert forall i :: 0 <= i < |front| ==> front[i] == ks[i];
  }

  /** From an idle resolver, n quick strokes are delivered as taps counted 1 to n, capped at 15, and nothing else is. */
  lemma {:induction false} StrokesAreCounted(env: Env, s: State, key: KeyPos, ks: seq<Stroke>, term: nat, quick: nat)
    requires Allows(env, key, term, quick) && Quick(ks, term, quick) && ks != []
    requires !s.tapping.event.IsEvent() && s.waiting == []
    ensures Hits(env, s, key, ks) ==
            State(Record(Event(key, false, ks[|ks| - 1].release), Tap(false, Capped(|ks|))), [],
                  Counted(s.trace, key, ks), s.discarded)
  {
    var n := |ks| - 1;
    QuickParts(ks, term, quick);
    if n == 0 {
      assert ks == [ks[0]];
      assert ks[..0] == [];
      FirstStroke(env, s, key, ks[0], term, quick);
    } else {
      StrokesAreCounted(env, s, key, ks[..n], term, quick);
      NextStroke(env, Hits(env, s, key, ks[..n]), key, ks[n], n, term, quick);
    }
  }
}
