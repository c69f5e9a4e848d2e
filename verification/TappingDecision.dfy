/**
 The tap-or-hold decision: a tap key goes down, other keys follow inside the tapping term,
 then the tap key is released or the term runs out.  For every such sequence the trace is
 determined by the decision mode alone: the key is a hold exactly when the term ran out,
 or another key was pressed in the "hold on other key press" mode, or another key was
 tapped in the "permissive hold" mode, or, in that mode, a key whose early release is
 retained at the front of the queue was pressed again, which the documentation does not
 say.  Releases of keys pressed before may go ahead of the tap key; everything else follows
 it in order, but for the one event that comes right after such a press.
 */
module TappingDecision {
  import opened Grid
  import opened TappingModel

  /** The tap key in question, all tap keys, the keys whose early releases are retained, a lower bound of the term, and the decision mode. */
  datatype Config = Config(key: KeyPos, taps: set<KeyPos>, kept: set<KeyPos>, term: nat, holdOnOtherPress: bool, permissiveHold: bool)

  /** The settings are the ones of `c`. */
  ghost predicate Decides(env: Env, c: Config) {
    && !(c.key.row == TICK && c.key.col == TICK) && c.key in c.taps
    && (forall h: History, r: Record :: r.event.pressed ==> (env.isTap(h, r) <==> r.event.key in c.taps))
    && (forall h: History, r: Record :: env.tappingTerm(h, r) >= c.term)
    && (forall h: History, r: Record :: env.holdOnOtherPress(h, r) == c.holdOnOtherPress)
    && (forall h: History, r: Record :: env.permissiveHold(h, r) == c.permissiveHold)
    && (forall h: History, r: Record :: env.retain(h, r) <==> r.event.key in c.kept)
  }

  function Plain(e: Event): Record {
    Record(e, Tap(false, 0))
  }

  predicate PressesKey(es: seq<Event>, k: KeyPos) {
    es != [] && ((es[|es| - 1].IsEvent() && es[|es| - 1].pressed && es[|es| - 1].key == k) || PressesKey(es[..|es| - 1], k))
  }

  predicate AnyPress(es: seq<Event>) {
    es != [] && ((es[|es| - 1].IsEvent() && es[|es| - 1].pressed) || AnyPress(es[..|es| - 1]))
  }

  /** After `es`, `e` is the release of a key that went down among them. */
  predicate Taps(es: seq<Event>, e: Event) {
    e.IsEvent() && !e.pressed && PressesKey(es, e.key)
  }

  /** After `es`, `e` is the release of a key that was down before. */
  predicate Early(es: seq<Event>, e: Event) {
    e.IsEvent() && !e.pressed && !PressesKey(es, e.key)
  }

  /** Some key was pressed and then released. */
  predicate AnyTapped(es: seq<Event>) {
    es != [] && (Taps(es[..|es| - 1], es[|es| - 1]) || AnyTapped(es[..|es| - 1]))
  }

  /** The early release of some key is retained. */
  predicate AnyKept(es: seq<Event>, kept: set<KeyPos>) {
    es != [] && ((Early(es[..|es| - 1], es[|es| - 1]) && es[|es| - 1].key in kept) || AnyKept(es[..|es| - 1], kept))
  }

  /** The documented condition for choosing the hold before the term runs out. */
  predicate ChoosesHold(c: Config, es: seq<Event>) {
    (c.holdOnOtherPress && AnyPress(es)) || (c.permissiveHold && AnyTapped(es))
  }

  /** After `es`, `e` presses again the key whose retained release waits at the front, in the permissive mode: the hold is
      chosen in the buffer loop, which stops with everything still waiting. */
  predicate StallsOn(c: Config, es: seq<Event>, e: Event)
    decreases |es|, 3
  {
    && c.permissiveHold && !Settled(c, es) && !c.holdOnOtherPress && e.IsEvent() && e.pressed
    && (var w := Behind(c, es); w != [] && !w[0].event.pressed && w[0].event.key == e.key)
  }

  /** The last event of `es` did that, so that everything still waits. */
  predicate JustStalled(c: Config, es: seq<Event>)
    decreases |es|, 0
  {
    es != [] && StallsOn(c, es[..|es| - 1], es[|es| - 1])
  }

  /** Some event of `es` did that. */
  predicate Stalled(c: Config, es: seq<Event>)
    decreases |es|, 1
  {
    es != [] && (JustStalled(c, es) || Stalled(c, es[..|es| - 1]))
  }

  /** The hold has been chosen. */
  predicate Settled(c: Config, es: seq<Event>)
    decreases |es|, 2
  {
    ChoosesHold(c, es) || Stalled(c, es)
  }

  /** After `es`, `e` goes ahead of the undecided tap key. */
  predicate Overtakes(c: Config, es: seq<Event>, e: Event)
    decreases |es|, 3
  {
    Early(es, e) && e.key !in c.kept && !Settled(c, es)
  }

  /** The real events among `es` that go ahead of the tap key. */
  function Ahead(c: Config, es: seq<Event>): seq<Record> {
    if es == [] then []
    else
      var before, e := es[..|es| - 1], es[|es| - 1];
      if Overtakes(c, before, e) then Ahead(c, before) + [Plain(e)] else Ahead(c, before)
  }

  /** `r` follows what follows the tap key already, but goes ahead of it if everything still waits. */
  function Joined(c: Config, es: seq<Event>, r: Record): seq<Record>
    decreases |es|, 4
  {
    if JustStalled(c, es) then [r] + Behind(c, es) else Behind(c, es) + [r]
  }

  /** The real events among `es` that follow the tap key. */
  function Behind(c: Config, es: seq<Event>): seq<Record>
    decreases |es|, 0
  {
    if es == [] then []
    else
      var before, e := es[..|es| - 1], es[|es| - 1];
      if e.IsEvent() && !Overtakes(c, before, e) then Joined(c, before, Plain(e)) else Behind(c, before)
  }

  /** An event of another key, or a tick, inside the term that began at `start`; no other tap key goes down. */
  predicate OtherInTerm(c: Config, e: Event, start: nat) {
    && e.key != c.key
    && (e.IsNoEvent() ==> !e.pressed)
    && (e.pressed ==> e.key !in c.taps)
    && Diff16(e.time, start) < c.term
  }

  /** Only other keys, all inside the term, and never more waiting than the buffer holds. */
  predicate Others(c: Config, es: seq<Event>, start: nat) {
    es != [] ==>
      var n := |es| - 1;
      && Others(c, es[..n], start)
      && OtherInTerm(c, es[n], start)
      && (Settled(c, es[..n]) || |Behind(c, es[..n])| + 1 < WAITING_BUFFER_SIZE)
  }

  /** A history followed by the delivery of `rs` in order. */
  function Followed(h: History, rs: seq<Record>): History {
    if rs == [] then h else Then(Followed(h, rs[..|rs| - 1]), Delivery(rs[|rs| - 1], false))
  }

  lemma FollowedOne(h: History, rs: seq<Record>, r: Record)
    ensures Followed(h, rs + [r]) == Then(Followed(h, rs), Delivery(r, false))
  {
    assert (rs + [r])[..|rs|] == rs;
  }

  lemma {:induction false} FollowedFirst(h: History, rs: seq<Record>)
    requires rs != []
    ensures Followed(h, rs) == Followed(Then(h, Delivery(rs[0], false)), rs[1..])
  {
    var n := |rs| - 1;
    if n == 0 {
      assert rs[..0] == [] && rs[1..] == [];
      assert Followed(h, []) == h;
    } else {
      FollowedFirst(h, rs[..n]);
      assert rs[..n][1..] == rs[1..][..n - 1];
    }
  }

  lemma {:induction false} FollowedTwice(h: History, a: seq<Record>, z: seq<Record>)
    ensures Followed(h, a + z) == Followed(Followed(h, a), z)
  {
    if z == [] {
      assert a + z == a;
    } else {
      var n := |z| - 1;
      FollowedTwice(h, a, z[..n]);
      FollowedOne(h, a + z[..n], z[n]);
      assert a + z == a + z[..n] + [z[n]];
    }
  }

  // ---- what waits ----

  /** Records of other keys, fit to wait. */
  predicate OtherRecord(c: Config, r: Record) {
    r.event.IsEvent() && r.event.key != c.key && (r.event.pressed ==> r.event.key !in c.taps) && r.tap == Tap(false, 0)
  }

  predicate OtherRecords(c: Config, rs: seq<Record>) {
    forall i :: 0 <= i < |rs| ==> OtherRecord(c, rs[i])
  }

  /** At the front waits a press, which has interrupted the tap key, or a retained release, which does not count as typed. */
  predicate FrontStays(c: Config, rs: seq<Record>, start: nat, interrupted: bool) {
    rs != [] ==>
      && Diff16(rs[0].event.time, start) < c.term
      && (if rs[0].event.pressed then interrupted && !c.holdOnOtherPress else rs[0].event.key in c.kept && !(c.permissiveHold && Typed(rs, rs[0].event)))
  }

  lemma {:induction false} BehindAreOthers(c: Config, es: seq<Event>, start: nat)
    requires Others(c, es, start)
    ensures OtherRecords(c, Behind(c, es))
  {
    if es != [] {
      BehindAreOthers(c, es[..|es| - 1], start);
    }
  }

  /** What was not settled was not settled before. */
  lemma OpenBefore(c: Config, es: seq<Event>)
    requires es != [] && !Settled(c, es)
    ensures !Settled(c, es[..|es| - 1]) && !JustStalled(c, es) && !JustStalled(c, es[..|es| - 1])
  {
  }

  lemma {:induction false} BehindFront(c: Config, es: seq<Event>, start: nat)
    requires Others(c, es, start) && !Settled(c, es)
    ensures FrontStays(c, Behind(c, es), start, AnyPress(es))
  {
    if es != [] {
      OpenBefore(c, es);
      var before, e := es[..|es| - 1], es[|es| - 1];
      BehindFront(c, before, start);
      if Behind(c, before) == [] {
        NothingTypedYet(c, before);
      } else if e.IsEvent() && !Overtakes(c, before, e) {
        TypedAppend(Behind(c, before), Plain(e), Behind(c, before)[0].event);
      }
    }
  }

  /** While nothing waits and the hold is not chosen, no other key went down. */
  lemma {:induction false} NothingTypedYet(c: Config, es: seq<Event>)
    requires !Settled(c, es) && Behind(c, es) == []
    ensures !AnyPress(es) && forall k :: !PressesKey(es, k)
  {
    if es != [] {
      OpenBefore(c, es);
      NothingTypedYet(c, es[..|es| - 1]);
    }
  }

  /** A release finds its press waiting exactly when the key went down among the events. */
  lemma {:induction false} TypedIffPressed(c: Config, es: seq<Event>, e: Event)
    requires !e.pressed && !Settled(c, es)
    ensures Typed(Behind(c, es), e) <==> PressesKey(es, e.key)
  {
    if es != [] {
      var n := |es| - 1;
      OpenBefore(c, es);
      TypedIffPressed(c, es[..n], e);
      if es[n].IsEvent() && !Overtakes(c, es[..n], es[n]) {
        TypedAppend(Behind(c, es[..n]), Plain(es[n]), e);
      }
    }
  }

  lemma TypedAppend(rs: seq<Record>, r: Record, e: Event)
    ensures Typed(rs + [r], e) <==> Typed(rs, e) || (r.event.key == e.key && r.event.pressed != e.pressed)
  {
    if Typed(rs, e) {
      var i :| 0 <= i < |rs| && rs[i].event.key == e.key && rs[i].event.pressed != e.pressed;
      assert (rs + [r])[i] == rs[i];
    }
    assert (rs + [r])[|rs|] == r;
  }

  // ---- the buffer loop ----

  /** With no tap in progress, waiting records of other keys all leave in order. */
  lemma {:induction false} DrainsIdle(env: Env, c: Config, s: State)
    requires Decides(env, c) && s.tapping == NO_RECORD && OtherRecords(c, s.waiting)
    ensures Drain(env, s) == s.(waiting := [], trace := Followed(s.trace, s.waiting))
    decreases |s.waiting|
  {
    if s.waiting != [] {
      var r := s.waiting[0];
      assert OtherRecord(c, r);
      assert ProcessTapping(env, s, r) == Outcome(Deliver(s, r), r, true);
      DrainHandled(env, s);
      FollowedFirst(s.trace, s.waiting);
      DrainsIdle(env, c, Deliver(s, r).(waiting := s.waiting[1..]));
    } else {
      assert s.waiting == [];
    }
  }

  /** While the tap key is undecided the loop stops at its first record. */
  lemma DrainsUndecided(env: Env, c: Config, s: State)
    requires Decides(env, c) && Undecided(s) && s.tapping.event.key == c.key
    requires OtherRecords(c, s.waiting) && FrontStays(c, s.waiting, s.tapping.event.time, s.tapping.tap.interrupted)
    ensures Drain(env, s) == s
  {
    if s.waiting != [] {
      var r := s.waiting[0];
      assert OtherRecord(c, r);
      assert ProcessTapping(env, s, r) == Outcome(s, r, false);
      DrainStopped(env, s);
      assert s.waiting[0 := r] == s.waiting;
    }
  }

  /** While the tap is down the records of other keys pass it. */
  lemma PassesTap(env: Env, c: Config, s: State, r: Record)
    requires Decides(env, c) && TappingPressed(s) && s.tapping.event.key == c.key && s.tapping.tap.count == 1
    requires OtherRecord(c, r)
    ensures ProcessTapping(env, s, r) == Outcome(Deliver(s, r), r, true)
  {
  }

  lemma TapReleased(env: Env, c: Config, s: State, up: Record)
    requires Decides(env, c) && TappingPressed(s) && s.tapping.event.key == c.key && s.tapping.tap.count == 1
    requires up.event.IsEvent() && up.event.key == c.key && !up.event.pressed && up.tap == s.tapping.tap
    requires Diff16(up.event.time, s.tapping.event.time) < c.term
    ensures ProcessTapping(env, s, up) == Outcome(Deliver(s, up).(tapping := up), up, true)
  {
  }

  lemma FrontAndLast(rs: seq<Record>)
    requires |rs| > 1
    ensures rs[0] == rs[..|rs| - 1][0] && rs[1..] != [] && rs[1..][|rs[1..]| - 1] == rs[|rs| - 1]
    ensures rs[1..][..|rs[1..]| - 1] == rs[..|rs| - 1][1..]
  {
  }

  /** After a first tap the records of other keys leave in order and the queued release ends the tap. */
  lemma {:induction false} DrainsTap(env: Env, c: Config, s: State, up: Record)
    requires Decides(env, c) && TappingPressed(s) && s.tapping.event.key == c.key && s.tapping.tap.count == 1
    requires s.waiting != [] && OtherRecords(c, s.waiting[..|s.waiting| - 1]) && s.waiting[|s.waiting| - 1] == up
    requires up.event.IsEvent() && up.event.key == c.key && !up.event.pressed && up.tap == s.tapping.tap
    requires Diff16(up.event.time, s.tapping.event.time) < c.term
    ensures Drain(env, s) == s.(tapping := up, waiting := [], trace := Followed(s.trace, s.waiting))
    decreases |s.waiting|
  {
    var r := s.waiting[0];
    FollowedFirst(s.trace, s.waiting);
    var rest := s.waiting[1..];
    if |s.waiting| == 1 {
      TapReleased(env, c, s, up);
      DrainHandled(env, s);
      assert rest == [];
    } else {
      FrontAndLast(s.waiting);
      assert OtherRecord(c, s.waiting[..|s.waiting| - 1][0]);
      PassesTap(env, c, s, r);
      DrainHandled(env, s);
      DrainsTap(env, c, Deliver(s, r).(waiting := rest), up);
    }
  }

  // ---- one more event of another key ----

  /** The undecided tap key `t` with `rs` waiting. */
  function Open(h: History, t: Event, rs: seq<Record>, interrupted: bool, discarded: seq<Event>): State {
    State(Record(t, Tap(interrupted, 0)), rs, h, discarded)
  }

  predicate OpenedBy(c: Config, t: Event, rs: seq<Record>) {
    t.IsEvent() && t.pressed && t.key == c.key && OtherRecords(c, rs) && |rs| < WAITING_BUFFER_SIZE
  }

  /** A tick inside the term changes nothing. */
  lemma TickStaysOpen(env: Env, c: Config, h: History, t: Event, rs: seq<Record>, interrupted: bool, d: seq<Event>, e: Event)
    requires Decides(env, c) && OpenedBy(c, t, rs) && OtherInTerm(c, e, t.time) && e.IsNoEvent()
    requires FrontStays(c, rs, t.time, interrupted)
    ensures Step(env, Open(h, t, rs, interrupted, d), e) == Open(h, t, rs, interrupted, d)
  {
    var u := Open(h, t, rs, interrupted, d);
    assert ProcessTapping(env, u, Plain(e)) == Outcome(u, Plain(e), false);
    DrainsUndecided(env, c, u);
  }

  /** An event that settles nothing joins the queue. */
  lemma JoinsQueue(env: Env, c: Config, h: History, t: Event, rs: seq<Record>, interrupted: bool, d: seq<Event>, e: Event)
    requires Decides(env, c) && OpenedBy(c, t, rs) && OtherInTerm(c, e, t.time) && e.IsEvent()
    requires |rs| + 1 < WAITING_BUFFER_SIZE
    requires if e.pressed then !c.holdOnOtherPress else if Typed(rs, e) then !c.permissiveHold else e.key in c.kept
    requires FrontStays(c, rs + [Plain(e)], t.time, interrupted || e.pressed)
    ensures Step(env, Open(h, t, rs, interrupted, d), e) == Open(h, t, rs + [Plain(e)], interrupted || e.pressed, d)
  {
    var u := Open(h, t, rs, interrupted, d);
    var u1 := Open(h, t, rs, interrupted || e.pressed, d);
    assert ProcessTapping(env, u, Plain(e)) == Outcome(u1, Plain(e), false);
    DrainsUndecided(env, c, Open(h, t, rs + [Plain(e)], interrupted || e.pressed, d));
  }

  /** The release of a key that was down before goes ahead. */
  lemma GoesAhead(env: Env, c: Config, h: History, t: Event, rs: seq<Record>, interrupted: bool, d: seq<Event>, e: Event)
    requires Decides(env, c) && OpenedBy(c, t, rs) && OtherInTerm(c, e, t.time) && e.IsEvent()
    requires !e.pressed && !Typed(rs, e) && e.key !in c.kept && FrontStays(c, rs, t.time, interrupted)
    ensures Step(env, Open(h, t, rs, interrupted, d), e) == Open(Then(h, Delivery(Plain(e), false)), t, rs, interrupted, d)
  {
    var u := Open(h, t, rs, interrupted, d);
    var u1 := Open(Then(h, Delivery(Plain(e), false)), t, rs, interrupted, d);
    assert ProcessTapping(env, u, Plain(e)) == Outcome(u1, Plain(e), true);
    DrainsUndecided(env, c, u1);
  }

  /** The event that settles the hold: the tap key leaves, then what waited, then this event. */
  lemma SettlesHold(env: Env, c: Config, h: History, t: Event, rs: seq<Record>, interrupted: bool, d: seq<Event>, e: Event)
    requires Decides(env, c) && OpenedBy(c, t, rs) && OtherInTerm(c, e, t.time) && e.IsEvent()
    requires |rs| + 1 < WAITING_BUFFER_SIZE
    requires if e.pressed then c.holdOnOtherPress else Typed(rs, e) && c.permissiveHold
    ensures Step(env, Open(h, t, rs, interrupted, d), e) ==
            State(NO_RECORD, [], Followed(Then(h, Delivery(Record(t, Tap(interrupted || e.pressed, 0)), false)), rs + [Plain(e)]), d)
  {
    var u := Open(h, t, rs, interrupted, d);
    var u1 := State(NO_RECORD, rs, Then(h, Delivery(Record(t, Tap(interrupted || e.pressed, 0)), false)), d);
    assert ProcessTapping(env, u, Plain(e)) == Outcome(u1, Plain(e), false);
    DrainsIdle(env, c, u1.(waiting := rs + [Plain(e)]));
  }

  /** The release of the undecided key settles the tap: the key leaves, then what waited, then the release. */
  lemma SettlesTap(env: Env, c: Config, h: History, t: Event, rs: seq<Record>, interrupted: bool, d: seq<Event>, up: Event)
    requires Decides(env, c) && OpenedBy(c, t, rs) && |rs| + 1 < WAITING_BUFFER_SIZE
    requires up.IsEvent() && !up.pressed && up.key == c.key && Diff16(up.time, t.time) < c.term
    ensures var tap := Tap(interrupted, 1);
            Step(env, Open(h, t, rs, interrupted, d), up) ==
            State(Record(up, tap), [], Followed(Then(h, Delivery(Record(t, tap), false)), rs + [Record(up, tap)]), d)
  {
    var tap := Tap(interrupted, 1);
    var release := Record(up, tap);
    var u := Open(h, t, rs, interrupted, d);
    var u1 := State(Record(t, tap), rs, Then(h, Delivery(Record(t, tap), false)), d);
    assert ProcessTapping(env, u, Plain(up)) == Outcome(u1, release, false);
    var q := u1.(waiting := rs + [release]);
    assert q.waiting[..|rs|] == rs;
    DrainsTap(env, c, q, release);
  }

  /** The press that makes the retained release at the front count as typed: the tap key leaves as a hold, all else waits. */
  lemma Stalls(env: Env, c: Config, h: History, t: Event, rs: seq<Record>, interrupted: bool, d: seq<Event>, e: Event)
    requires Decides(env, c) && OpenedBy(c, t, rs) && OtherInTerm(c, e, t.time) && e.IsEvent() && e.pressed
    requires |rs| + 1 < WAITING_BUFFER_SIZE && FrontStays(c, rs, t.time, interrupted)
    requires c.permissiveHold && !c.holdOnOtherPress
    requires rs != [] && !rs[0].event.pressed && rs[0].event.key == e.key
    ensures Step(env, Open(h, t, rs, interrupted, d), e) ==
            State(NO_RECORD, rs + [Plain(e)], Then(h, Delivery(Record(t, Tap(true, 0)), false)), d)
  {
    var u := Open(h, t, rs, interrupted, d);
    var u1 := Open(h, t, rs, true, d);
    assert ProcessTapping(env, u, Plain(e)) == Outcome(u1, Plain(e), false);
    StallsAtFront(env, c, h, t, rs + [Plain(e)], d);
  }

  lemma StallsAtFront(env: Env, c: Config, h: History, t: Event, rs: seq<Record>, d: seq<Event>)
    requires Decides(env, c) && t.IsEvent() && t.pressed && t.key == c.key && c.permissiveHold
    requires |rs| > 1 && OtherRecord(c, rs[0]) && !rs[0].event.pressed && Diff16(rs[0].event.time, t.time) < c.term
    requires rs[|rs| - 1].event.pressed && rs[|rs| - 1].event.key == rs[0].event.key
    ensures Drain(env, Open(h, t, rs, true, d)) == State(NO_RECORD, rs, Then(h, Delivery(Record(t, Tap(true, 0)), false)), d)
  {
    var q := Open(h, t, rs, true, d);
    var q1 := State(NO_RECORD, rs, Then(h, Delivery(Record(t, Tap(true, 0)), false)), d);
    assert Typed(rs, rs[0].event);
    assert ProcessTapping(env, q, rs[0]) == Outcome(q1, rs[0], false);
    DrainStopped(env, q);
    assert rs[0 := rs[0]] == rs;
  }

  /** With everything still waiting after a stall, the next event leaves first. */
  lemma LeavesFirst(env: Env, c: Config, h: History, rs: seq<Record>, d: seq<Event>, e: Event)
    requires Decides(env, c) && (e.pressed ==> e.key !in c.taps) && OtherRecords(c, rs)
    ensures Step(env, State(NO_RECORD, rs, h, d), e) ==
            State(NO_RECORD, [], Followed(h, if e.IsEvent() then [Plain(e)] + rs else rs), d)
  {
    var s := State(NO_RECORD, rs, h, d);
    assert ProcessTapping(env, s, Plain(e)) == Outcome(Deliver(s, Plain(e)), Plain(e), true);
    DrainsIdle(env, c, Deliver(s, Plain(e)));
    if e.IsEvent() {
      FollowedFirst(h, [Plain(e)] + rs);
      assert ([Plain(e)] + rs)[1..] == rs;
    }
  }

  /** Once settled, events of other keys and the release of the tap key pass straight through. */
  lemma PassesThrough(env: Env, c: Config, h: History, d: seq<Event>, e: Event)
    requires Decides(env, c) && (e.pressed ==> e.key !in c.taps)
    ensures Step(env, State(NO_RECORD, [], h, d), e) ==
            State(NO_RECORD, [], if e.IsEvent() then Then(h, Delivery(Plain(e), false)) else h, d)
  {
  }

  // ---- while other keys follow ----

  /** The resolver after the tap key `t` went down at `s` and the events `es` followed. */
  function Expected(c: Config, s: State, t: Event, es: seq<Event>): State {
    var h := Followed(s.trace, Ahead(c, es));
    var held := Then(h, Delivery(Record(t, Tap(AnyPress(es), 0)), false));
    if JustStalled(c, es) then State(NO_RECORD, Behind(c, es), held, s.discarded)
    else if Settled(c, es) then State(NO_RECORD, [], Followed(held, Behind(c, es)), s.discarded)
    else Open(h, t, Behind(c, es), AnyPress(es), s.discarded)
  }

  // What one more event does to the expected state.

  lemma ExpectedOpen(c: Config, s: State, t: Event, es: seq<Event>)
    requires !Settled(c, es)
    ensures Expected(c, s, t, es) == Open(Followed(s.trace, Ahead(c, es)), t, Behind(c, es), AnyPress(es), s.discarded)
  {
    NotStalled(c, es);
  }

  lemma NotStalled(c: Config, es: seq<Event>)
    requires !Settled(c, es)
    ensures !Stalled(c, es) && !JustStalled(c, es)
  {
  }

  lemma TickAdds(c: Config, es: seq<Event>)
    requires es != [] && es[|es| - 1].IsNoEvent() && !Settled(c, es[..|es| - 1])
    ensures !Settled(c, es) && Ahead(c, es) == Ahead(c, es[..|es| - 1]) && Behind(c, es) == Behind(c, es[..|es| - 1])
    ensures AnyPress(es) == AnyPress(es[..|es| - 1])
  {
    var before, e := es[..|es| - 1], es[|es| - 1];
    assert !StallsOn(c, before, e) && !Overtakes(c, before, e);
    assert !JustStalled(c, es);
    assert !Stalled(c, es) && !ChoosesHold(c, es);
  }

  lemma StallAdds(c: Config, es: seq<Event>)
    requires es != [] && StallsOn(c, es[..|es| - 1], es[|es| - 1])
    ensures JustStalled(c, es) && Ahead(c, es) == Ahead(c, es[..|es| - 1])
    ensures Behind(c, es) == Behind(c, es[..|es| - 1]) + [Plain(es[|es| - 1])] && AnyPress(es)
  {
    var before, e := es[..|es| - 1], es[|es| - 1];
    assert !Settled(c, before) && !Overtakes(c, before, e);
    NotStalled(c, before);
    assert Joined(c, before, Plain(e)) == Behind(c, before) + [Plain(e)];
  }

  lemma OvertakerAdds(c: Config, es: seq<Event>)
    requires es != [] && Overtakes(c, es[..|es| - 1], es[|es| - 1])
    ensures !Settled(c, es) && Ahead(c, es) == Ahead(c, es[..|es| - 1]) + [Plain(es[|es| - 1])]
    ensures Behind(c, es) == Behind(c, es[..|es| - 1]) && AnyPress(es) == AnyPress(es[..|es| - 1])
  {
    var before, e := es[..|es| - 1], es[|es| - 1];
    assert Early(before, e) && !Settled(c, before);
    assert !JustStalled(c, es);
    assert !Stalled(c, es) && !ChoosesHold(c, es);
  }

  /** Any other event joins what waits, and may choose the hold. */
  lemma OtherAdds(c: Config, es: seq<Event>)
    requires es != [] && es[|es| - 1].IsEvent() && !Settled(c, es[..|es| - 1])
    requires !StallsOn(c, es[..|es| - 1], es[|es| - 1]) && !Overtakes(c, es[..|es| - 1], es[|es| - 1])
    ensures Settled(c, es) == ChoosesHold(c, es) && !JustStalled(c, es) && Ahead(c, es) == Ahead(c, es[..|es| - 1])
    ensures Behind(c, es) == Behind(c, es[..|es| - 1]) + [Plain(es[|es| - 1])]
    ensures AnyPress(es) == (AnyPress(es[..|es| - 1]) || es[|es| - 1].pressed)
  {
    var before, e := es[..|es| - 1], es[|es| - 1];
    NotStalled(c, before);
    assert !JustStalled(c, es);
    assert !Stalled(c, es);
    assert Joined(c, before, Plain(e)) == Behind(c, before) + [Plain(e)];
  }

  /** What comes after the hold was chosen. */
  lemma LaterAdds(c: Config, es: seq<Event>)
    requires es != [] && Settled(c, es[..|es| - 1])
    ensures Settled(c, es) && !JustStalled(c, es) && Ahead(c, es) == Ahead(c, es[..|es| - 1]) && AnyPress(es)
    ensures var before, e := es[..|es| - 1], es[|es| - 1];
            Behind(c, es) == if e.IsEvent() then Joined(c, before, Plain(e)) else Behind(c, before)
  {
    var before, e := es[..|es| - 1], es[|es| - 1];
    assert !StallsOn(c, before, e) && !Overtakes(c, before, e);
    assert ChoosesHold(c, before) ==> ChoosesHold(c, es);
    PressedOnce(c, before);
  }

  /** While the key is undecided. */
  lemma NextWhileOpen(env: Env, c: Config, s: State, t: Event, es: seq<Event>)
    requires Decides(env, c) && t.IsEvent() && t.pressed && t.key == c.key
    requires es != [] && Others(c, es, t.time) && !Settled(c, es[..|es| - 1])
    ensures Step(env, Expected(c, s, t, es[..|es| - 1]), es[|es| - 1]) == Expected(c, s, t, es)
  {
    var before, e := es[..|es| - 1], es[|es| - 1];
    var h := Followed(s.trace, Ahead(c, before));
    var rs := Behind(c, before);
    ExpectedOpen(c, s, t, before);
    BehindAreOthers(c, before, t.time);
    BehindFront(c, before, t.time);
    if e.IsNoEvent() {
      TickStaysOpen(env, c, h, t, rs, AnyPress(before), s.discarded, e);
      TickAdds(c, es);
      ExpectedOpen(c, s, t, es);
    } else if StallsOn(c, before, e) {
      Stalls(env, c, h, t, rs, AnyPress(before), s.discarded, e);
      StallAdds(c, es);
    } else if Overtakes(c, before, e) {
      TypedIffPressed(c, before, e);
      GoesAhead(env, c, h, t, rs, AnyPress(before), s.discarded, e);
      FollowedOne(s.trace, Ahead(c, before), Plain(e));
      OvertakerAdds(c, es);
      ExpectedOpen(c, s, t, es);
    } else {
      OtherWhileOpen(env, c, s, t, es);
    }
  }

  lemma OtherWhileOpen(env: Env, c: Config, s: State, t: Event, es: seq<Event>)
    requires Decides(env, c) && t.IsEvent() && t.pressed && t.key == c.key
    requires es != [] && Others(c, es, t.time) && !Settled(c, es[..|es| - 1]) && es[|es| - 1].IsEvent()
    requires !StallsOn(c, es[..|es| - 1], es[|es| - 1]) && !Overtakes(c, es[..|es| - 1], es[|es| - 1])
    ensures Step(env, Expected(c, s, t, es[..|es| - 1]), es[|es| - 1]) == Expected(c, s, t, es)
  {
    var before, e := es[..|es| - 1], es[|es| - 1];
    var h := Followed(s.trace, Ahead(c, before));
    var rs := Behind(c, before);
    ExpectedOpen(c, s, t, before);
    BehindAreOthers(c, before, t.time);
    OtherAdds(c, es);
    if !e.pressed {
      TypedIffPressed(c, before, e);
    }
    OneMoreChooses(c, es);
    if ChoosesHold(c, es) {
      SettlesHold(env, c, h, t, rs, AnyPress(before), s.discarded, e);
    } else {
      ExpectedOpen(c, s, t, es);
      BehindFront(c, es, t.time);
      JoinsQueue(env, c, h, t, rs, AnyPress(before), s.discarded, e);
    }
  }

  /** What it takes for one more event to choose the hold. */
  lemma OneMoreChooses(c: Config, es: seq<Event>)
    requires es != [] && es[|es| - 1].IsEvent() && !ChoosesHold(c, es[..|es| - 1])
    ensures var before, e := es[..|es| - 1], es[|es| - 1];
            ChoosesHold(c, es) <==> if e.pressed then c.holdOnOtherPress else c.permissiveHold && PressesKey(before, e.key)
  {
  }

  /** Once the hold is chosen. */
  lemma NextWhenSettled(env: Env, c: Config, s: State, t: Event, es: seq<Event>)
    requires Decides(env, c)
    requires es != [] && Others(c, es, t.time) && Settled(c, es[..|es| - 1])
    ensures Step(env, Expected(c, s, t, es[..|es| - 1]), es[|es| - 1]) == Expected(c, s, t, es)
  {
    var before, e := es[..|es| - 1], es[|es| - 1];
    PressedOnce(c, before);
    LaterAdds(c, es);
    var held := Then(Followed(s.trace, Ahead(c, before)), Delivery(Record(t, Tap(true, 0)), false));
    if JustStalled(c, before) {
      BehindAreOthers(c, before, t.time);
      LeavesFirst(env, c, held, Behind(c, before), s.discarded, e);
    } else {
      PassesThrough(env, c, Followed(held, Behind(c, before)), s.discarded, e);
      FollowedOne(held, Behind(c, before), Plain(e));
    }
  }

  /** Choosing the hold takes the press of another key. */
  lemma {:induction false} PressedOnce(c: Config, es: seq<Event>)
    requires Settled(c, es)
    ensures AnyPress(es)
  {
    TappedIsPressed(es);
    if JustStalled(c, es) {
      assert StallsOn(c, es[..|es| - 1], es[|es| - 1]);
    } else if !ChoosesHold(c, es) {
      assert Stalled(c, es) && Stalled(c, es[..|es| - 1]);
      PressedOnce(c, es[..|es| - 1]);
    }
  }

  lemma {:induction false} TappedIsPressed(es: seq<Event>)
    ensures AnyTapped(es) ==> AnyPress(es)
    ensures forall k :: PressesKey(es, k) ==> AnyPress(es)
  {
    if es != [] {
      TappedIsPressed(es[..|es| - 1]);
    }
  }

  /** Whatever other keys do inside the term, the resolver is where the decision mode says. */
  lemma {:induction false} OthersFollow(env: Env, c: Config, s: State, t: Event, es: seq<Event>)
    requires Decides(env, c) && t.IsEvent() && t.pressed && t.key == c.key
    requires s.tapping == NO_RECORD && s.waiting == []
    requires Others(c, es, t.time)
    ensures Steps(env, Step(env, s, t), es) == Expected(c, s, t, es)
  {
    if es == [] {
      assert Step(env, s, t) == s.(tapping := Plain(t));
      assert Followed(s.trace, []) == s.trace;
    } else {
      OthersFollow(env, c, s, t, es[..|es| - 1]);
      if Settled(c, es[..|es| - 1]) {
        NextWhenSettled(env, c, s, t, es);
      } else {
        NextWhileOpen(env, c, s, t, es);
      }
    }
  }

  // ---- the decision ----

  /** First `ahead`, then the tap key, then `behind`. */
  lemma Around(h: History, ahead: seq<Record>, first: Record, behind: seq<Record>)
    ensures Followed(h, ahead + [first] + behind) == Followed(Then(Followed(h, ahead), Delivery(first, false)), behind)
  {
    FollowedTwice(h, ahead + [first], behind);
    FollowedOne(h, ahead, first);
  }

  /**
   The tap key goes down, other keys follow, the tap key is released inside the term.  It is delivered as a hold
   exactly when the hold was chosen before, else as a tap counted 1.  Early releases that are not retained go ahead
   of it while it is undecided; all other events come between its press and its release, in order, but for the event
   right after a stall, which leaves before what waited.
   */
  lemma TapOrHold(env: Env, c: Config, s: State, t: Event, es: seq<Event>, up: Event)
    requires Decides(env, c) && t.IsEvent() && t.pressed && t.key == c.key
    requires s.tapping == NO_RECORD && s.waiting == []
    requires Others(c, es, t.time)
    requires Settled(c, es) || |Behind(c, es)| + 1 < WAITING_BUFFER_SIZE
    requires up.IsEvent() && !up.pressed && up.key == c.key && Diff16(up.time, t.time) < c.term
    ensures var tap := if Settled(c, es) then Tap(true, 0) else Tap(AnyPress(es), 1);
            var release := if Settled(c, es) then Plain(up) else Record(up, tap);
            var s' := Step(env, Steps(env, Step(env, s, t), es), up);
            && s'.trace == Followed(s.trace, Ahead(c, es) + [Record(t, tap)] + Joined(c, es, release))
            && s'.tapping == (if Settled(c, es) then NO_RECORD else release)
            && s'.waiting == [] && s'.discarded == s.discarded
  {
    OthersFollow(env, c, s, t, es);
    var ahead, behind := Ahead(c, es), Behind(c, es);
    var h := Followed(s.trace, ahead);
    if Settled(c, es) {
      PressedOnce(c, es);
      ReleaseWhenSettled(env, c, h, t, es, s.discarded, up);
      Around(s.trace, ahead, Record(t, Tap(true, 0)), Joined(c, es, Plain(up)));
    } else {
      var tap := Tap(AnyPress(es), 1);
      BehindAreOthers(c, es, t.time);
      SettlesTap(env, c, h, t, behind, AnyPress(es), s.discarded, up);
      Around(s.trace, ahead, Record(t, tap), behind + [Record(up, tap)]);
    }
  }

  lemma ReleaseWhenSettled(env: Env, c: Config, h: History, t: Event, es: seq<Event>, d: seq<Event>, up: Event)
    requires Decides(env, c) && Others(c, es, t.time) && up.IsEvent() && !up.pressed
    ensures var held := Then(h, Delivery(Record(t, Tap(true, 0)), false));
            var before := if JustStalled(c, es) then State(NO_RECORD, Behind(c, es), held, d)
                          else State(NO_RECORD, [], Followed(held, Behind(c, es)), d);
            Step(env, before, up) == State(NO_RECORD, [], Followed(held, Joined(c, es, Plain(up))), d)
  {
    var held := Then(h, Delivery(Record(t, Tap(true, 0)), false));
    if JustStalled(c, es) {
      BehindAreOthers(c, es, t.time);
      LeavesFirst(env, c, held, Behind(c, es), d, up);
    } else {
      PassesThrough(env, c, Followed(held, Behind(c, es)), d, up);
      FollowedOne(held, Behind(c, es), Plain(up));
    }
  }

  /** The term runs out: the key is a hold, and what waited follows in order. */
  lemma HoldAtTermEnd(env: Env, c: Config, s: State, t: Event, es: seq<Event>, late: Event)
    requires Decides(env, c) && t.IsEvent() && t.pressed && t.key == c.key
    requires s.tapping == NO_RECORD && s.waiting == []
    requires Others(c, es, t.time)
    requires late.IsNoEvent() && !late.pressed
    requires forall h: History, r: Record :: env.tappingTerm(h, r) <= Diff16(late.time, t.time)
    ensures Step(env, Steps(env, Step(env, s, t), es), late) ==
            State(NO_RECORD, [],
                  Followed(s.trace, Ahead(c, es) + [Record(t, Tap(AnyPress(es), 0))] + Behind(c, es)), s.discarded)
  {
    OthersFollow(env, c, s, t, es);
    var ahead, behind := Ahead(c, es), Behind(c, es);
    var h := Followed(s.trace, ahead);
    var hold := Record(t, Tap(AnyPress(es), 0));
    var held := Then(h, Delivery(hold, false));
    Around(s.trace, ahead, hold, behind);
    BehindAreOthers(c, es, t.time);
    if JustStalled(c, es) {
      LeavesFirst(env, c, held, behind, s.discarded, late);
    } else if Settled(c, es) {
      PassesThrough(env, c, Followed(held, behind), s.discarded, late);
    } else {
      var u1 := State(NO_RECORD, behind, held, s.discarded);
      assert ProcessTapping(env, Expected(c, s, t, es), Plain(late)) == Outcome(u1, Plain(late), false);
      DrainsIdle(env, c, u1);
    }
  }

  // ---- where the code leaves the documentation ----

  /** Without a retained early release, or outside the permissive mode, or with hold on other key press, the documented condition decides. */
  lemma {:induction false} DecidesAsDocumented(c: Config, es: seq<Event>)
    requires !c.permissiveHold || c.holdOnOtherPress || !AnyKept(es, c.kept)
    ensures Settled(c, es) <==> ChoosesHold(c, es)
    ensures !Stalled(c, es)
  {
    if es != [] {
      var before := es[..|es| - 1];
      DecidesAsDocumented(c, before);
      if JustStalled(c, es) {
        assert StallsOn(c, before, es[|es| - 1]);
        FrontIsPress(c, before);
      }
    }
  }

  /** Unless a retained release came first, what waits begins with a press. */
  lemma {:induction false} FrontIsPress(c: Config, es: seq<Event>)
    requires !Settled(c, es) && !AnyKept(es, c.kept) && Behind(c, es) != []
    ensures Behind(c, es)[0].event.pressed
  {
    OpenBefore(c, es);
    var before := es[..|es| - 1];
    if Behind(c, before) == [] {
      NothingTypedYet(c, before);
    } else {
      FrontIsPress(c, before);
    }
  }

  /** In the permissive mode a key that was down before, whose release is retained, makes a hold by being pressed again: no key was tapped. */
  lemma PressAgainHolds(c: Config, up: Event, down: Event)
    requires c.permissiveHold && !c.holdOnOtherPress
    requires up.IsEvent() && !up.pressed && down.IsEvent() && down.pressed && up.key == down.key && up.key in c.kept
    ensures Settled(c, [up, down]) && !ChoosesHold(c, [up, down])
  {
    var es := [up, down];
    assert es[..|es| - 1] == [up];
    OneRetained(c, up);
    assert StallsOn(c, [up], down);
    StallAdds(c, es);
    OneMoreChooses(c, es);
  }

  lemma OneRetained(c: Config, up: Event)
    requires !c.holdOnOtherPress && up.IsEvent() && !up.pressed && up.key in c.kept
    ensures Behind(c, [up]) == [Plain(up)] && !Settled(c, [up]) && !ChoosesHold(c, [up])
  {
    var es, none := [up], [];
    assert es[..|es| - 1] == none;
    assert !Settled(c, none) && Behind(c, none) == [] && !PressesKey(none, up.key);
    assert !StallsOn(c, none, up) && !Overtakes(c, none, up);
    OtherAdds(c, es);
    OneMoreChooses(c, es);
  }
}
