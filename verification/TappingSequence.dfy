/**
 Sequential taps: when a tap key that is pressed again continues the taps before it.  A
 session is any number of strokes of one tap key with any events of other keys in between.
 A stroke continues the last one, and is then delivered at once with the next count,
 exactly when that one was a tap, released less than both terms ago, and no other key has
 gone down since, nor while the first stroke of the sequence was open.  Any other stroke
 is decided as if no tap had come before.
 */
module TappingSequence {
  import opened Grid
  import opened TappingModel
  import opened TappingDecision
  import opened TappingCount

  /** The settings are the ones of `c`, with fixed terms. */
  ghost predicate Timed(env: Env, c: Config, quick: nat) {
    && Decides(env, c)
    && (forall h: History, r: Record :: env.tappingTerm(h, r) == c.term)
    && (forall h: History, r: Record :: env.quickTapTerm(h, r) == quick)
  }

  /** An event of another key, or a tick; no other tap key goes down. */
  predicate Other(c: Config, e: Event) {
    && e.key != c.key
    && (e.IsNoEvent() ==> !e.pressed)
    && (e.pressed ==> e.key !in c.taps)
  }

  predicate AllOther(c: Config, es: seq<Event>) {
    forall i :: 0 <= i < |es| ==> Other(c, es[i])
  }

  predicate AllInTerm(c: Config, es: seq<Event>, start: nat) {
    forall i :: 0 <= i < |es| ==> Diff16(es[i].time, start) < c.term
  }

  /** The real events, as they are delivered. */
  function Reals(es: seq<Event>): seq<Record> {
    if es == [] then []
    else
      var e := es[|es| - 1];
      if e.IsEvent() then Reals(es[..|es| - 1]) + [Plain(e)] else Reals(es[..|es| - 1])
  }

  // ---- what other keys do to a tap ----

  /** While a counted tap is held, whatever the time, other keys pass straight through and leave the tap as it is. */
  lemma {:induction false} OthersWhileHeld(env: Env, c: Config, s: State, es: seq<Event>)
    requires Decides(env, c) && AllOther(c, es)
    requires TappingPressed(s) && s.tapping.event.key == c.key && s.tapping.tap.count > 0 && s.waiting == []
    ensures Steps(env, s, es) == s.(trace := Followed(s.trace, Reals(es)))
  {
    if es != [] {
      var n := |es| - 1;
      OthersWhileHeld(env, c, s, es[..n]);
      var h := Followed(s.trace, Reals(es[..n]));
      OtherWhileHeld(env, c, s.(trace := h), es[n]);
      if es[n].IsEvent() {
        FollowedOne(s.trace, Reals(es[..n]), Plain(es[n]));
      }
    }
  }

  lemma OtherWhileHeld(env: Env, c: Config, s: State, e: Event)
    requires Decides(env, c) && Other(c, e)
    requires TappingPressed(s) && s.tapping.event.key == c.key && s.tapping.tap.count > 0 && s.waiting == []
    ensures Step(env, s, e) == if e.IsEvent() then s.(trace := Then(s.trace, Delivery(Plain(e), false))) else s
  {
    assert ProcessTapping(env, s, Plain(e)) == Outcome(Deliver(s, Plain(e)), Plain(e), true);
  }

  /** After the release of a counted tap, inside the term, other keys pass straight through; one that goes down interrupts the tap. */
  lemma {:induction false} OthersAfterTap(env: Env, c: Config, s: State, es: seq<Event>)
    requires Decides(env, c) && AllOther(c, es) && AllInTerm(c, es, s.tapping.event.time)
    requires TappingReleased(s) && s.tapping.event.key == c.key && s.waiting == []
    ensures Steps(env, s, es) ==
            s.(trace := Followed(s.trace, Reals(es)),
               tapping := s.tapping.(tap := s.tapping.tap.(interrupted := s.tapping.tap.interrupted || AnyPress(es))))
  {
    if es != [] {
      var n := |es| - 1;
      OthersAfterTap(env, c, s, es[..n]);
      OtherAfterTap(env, c, Steps(env, s, es[..n]), es[n]);
      if es[n].IsEvent() {
        FollowedOne(s.trace, Reals(es[..n]), Plain(es[n]));
      }
    }
  }

  lemma OtherAfterTap(env: Env, c: Config, s: State, e: Event)
    requires Decides(env, c) && Other(c, e) && Diff16(e.time, s.tapping.event.time) < c.term
    requires TappingReleased(s) && s.tapping.event.key == c.key && s.waiting == []
    ensures Step(env, s, e) ==
            s.(trace := if e.IsEvent() then Then(s.trace, Delivery(Plain(e), false)) else s.trace,
               tapping := s.tapping.(tap := s.tapping.tap.(interrupted := s.tapping.tap.interrupted || (e.IsEvent() && e.pressed))))
  {
    if e.pressed {
      var t := s.(tapping := s.tapping.(tap := s.tapping.tap.(interrupted := true)));
      assert ProcessTapping(env, s, Plain(e)) == Outcome(Deliver(t, Plain(e)), Plain(e), true);
    } else {
      assert ProcessTapping(env, s, Plain(e)) == Outcome(Deliver(s, Plain(e)), Plain(e), true);
    }
  }

  /** With no tap in progress they pass, too. */
  lemma {:induction false} OthersWhileIdle(env: Env, c: Config, s: State, es: seq<Event>)
    requires Decides(env, c) && AllOther(c, es) && s.tapping == NO_RECORD && s.waiting == []
    ensures Steps(env, s, es) == s.(trace := Followed(s.trace, Reals(es)))
  {
    if es != [] {
      var n := |es| - 1;
      OthersWhileIdle(env, c, s, es[..n]);
      var h := Followed(s.trace, Reals(es[..n]));
      assert Steps(env, s, es[..n]) == State(NO_RECORD, [], h, s.discarded);
      PassesThrough(env, c, h, s.discarded, es[n]);
      if es[n].IsEvent() {
        FollowedOne(s.trace, Reals(es[..n]), Plain(es[n]));
      }
    }
  }

  // ---- the key itself ----

  /** The press continues the sequence of the tap whose release is in `tapping`. */
  predicate Continues(c: Config, quick: nat, tapping: Record, press: Event) {
    && !tapping.tap.interrupted
    && Diff16(press.time, tapping.event.time) < c.term
    && Diff16(press.time, tapping.event.time) < quick
  }

  /** Once the term after its release is over a tap is forgotten: every event is handled as if it had never been. */
  lemma TapExpires(env: Env, s: State, e: Event)
    requires TappingReleased(s) && s.waiting == [] && !WithinTappingTerm(env, s, e) && (e.IsNoEvent() ==> !e.pressed)
    ensures Step(env, s, e) == Step(env, s.(tapping := NO_RECORD), e)
  {
    var s1 := s.(tapping := NO_RECORD);
    var r := Plain(e);
    assert ProcessTapping(env, s, r) == Outcome(s1, r, false);
    if e.IsEvent() {
      Retried(env, s1, r);
    } else {
      assert ProcessTapping(env, s1, r) == Outcome(s1, r, true);
    }
  }

  /** A record put into the empty buffer of an idle resolver is taken out again at once. */
  lemma Retried(env: Env, s: State, r: Record)
    requires s.tapping == NO_RECORD && s.waiting == [] && r.event.IsEvent()
    ensures Drain(env, Enqueue(s, r)) == Drain(env, ProcessTapping(env, s, r).state) && ProcessTapping(env, s, r).handled
  {
    var q := s.(waiting := [r]);
    assert Enqueue(s, r) == q;
    var o := ProcessTapping(env, q, r);
    if r.event.pressed && env.isTap(s.trace, r) {
      assert ScanTap(env, q.(tapping := r)) == q.(tapping := r);
      assert ScanTap(env, s.(tapping := r)) == s.(tapping := r);
    }
    assert o.handled && o.state.waiting[1..] == [];
    assert o.state.(waiting := []) == ProcessTapping(env, s, r).state;
  }

  /** A press of the tap key after a tap is delivered at once with the next count if it continues the sequence; otherwise nothing
      is delivered and the key is undecided, as if no tap had come before. */
  lemma PressAfterTap(env: Env, c: Config, quick: nat, s: State, press: Event)
    requires Timed(env, c, quick) && press.IsEvent() && press.pressed && press.key == c.key
    requires TappingReleased(s) && s.tapping.event.key == c.key && 0 < s.tapping.tap.count <= MAX_TAP_COUNT && s.waiting == []
    ensures Step(env, s, press) ==
            if Continues(c, quick, s.tapping, press) then
              var r := Record(press, Tap(false, Capped(s.tapping.tap.count + 1)));
              s.(tapping := r, trace := Then(s.trace, Delivery(r, false)))
            else s.(tapping := Plain(press))
    ensures !Continues(c, quick, s.tapping, press) ==> Step(env, s, press) == Step(env, s.(tapping := NO_RECORD), press)
  {
    var idle := s.(tapping := NO_RECORD);
    assert Step(env, idle, press) == s.(tapping := Plain(press));
    if !(Diff16(press.time, s.tapping.event.time) < c.term) {
      TapExpires(env, s, press);
    }
  }

  /**
   After a counted tap, any events of other keys inside the term, then a press of the tap key: it is delivered at once,
   counted one more, exactly when no other key went down in between, the tap had not been interrupted before, and the
   press is inside both terms.  Otherwise nothing is delivered and the key is undecided.
   */
  lemma SequentialIff(env: Env, c: Config, quick: nat, s: State, es: seq<Event>, press: Event)
    requires Timed(env, c, quick) && press.IsEvent() && press.pressed && press.key == c.key
    requires TappingReleased(s) && s.tapping.event.key == c.key && 0 < s.tapping.tap.count <= MAX_TAP_COUNT && s.waiting == []
    requires AllOther(c, es) && AllInTerm(c, es, s.tapping.event.time)
    ensures var s1 := Step(env, Steps(env, s, es), press);
            var gap := Diff16(press.time, s.tapping.event.time);
            var h := Followed(s.trace, Reals(es));
            var next := Record(press, Tap(false, Capped(s.tapping.tap.count + 1)));
            if gap < c.term && gap < quick && !s.tapping.tap.interrupted && !AnyPress(es)
            then s1 == State(next, [], Then(h, Delivery(next, false)), s.discarded)
            else s1 == State(Plain(press), [], h, s.discarded) && Undecided(s1)
  {
    OthersAfterTap(env, c, s, es);
    PressAfterTap(env, c, quick, Steps(env, s, es), press);
  }

  /** A counted tap that is released inside the term can be continued; one held longer ends the sequence. */
  lemma ReleaseOfTap(env: Env, c: Config, quick: nat, s: State, up: Event)
    requires Timed(env, c, quick) && up.IsEvent() && !up.pressed && up.key == c.key
    requires TappingPressed(s) && s.tapping.event.key == c.key && s.tapping.tap.count > 0 && s.waiting == []
    ensures var r := Record(up, s.tapping.tap);
            Step(env, s, up) ==
            s.(tapping := if Diff16(up.time, s.tapping.event.time) < c.term then r else NO_RECORD,
               trace := Then(s.trace, Delivery(r, false)))
  {
  }

  /** The press of another tap key is taken up undecided at once.  If a tap counted more than once is still held, its release
      is delivered first, invented, at the time of the press and with the tap's count; otherwise nothing is delivered. */
  lemma OtherTapKeyStarts(env: Env, c: Config, s: State, press: Event)
    requires Decides(env, c) && press.IsEvent() && press.pressed && press.key in c.taps && press.key != c.key
    requires s.tapping.event.IsEvent() && s.tapping.event.key == c.key && s.tapping.tap.count > 0 && s.waiting == []
    requires TappingReleased(s) ==> WithinTappingTerm(env, s, press)
    ensures var invented := Delivery(Record(Event(c.key, false, press.time), s.tapping.tap), true);
            Step(env, s, press) ==
            s.(tapping := Plain(press),
               trace := if TappingPressed(s) && s.tapping.tap.count > 1 then Then(s.trace, invented) else s.trace)
  {
  }

  // ---- sessions ----

  /** One stroke of the tap key: the press, what other keys do while it is down, the release, and what they do after. */
  datatype Beat = Beat(press: Event, during: seq<Event>, release: Event, after: seq<Event>)

  /** What has been delivered, and the release of the tap that a press can continue, if there is one. */
  datatype Told = Told(trace: History, last: Record)

  function StateOf(t: Told, discarded: seq<Event>): State {
    State(t.last, [], t.trace, discarded)
  }

  predicate Continuable(c: Config, last: Record) {
    last == NO_RECORD
    || (last.event.IsEvent() && !last.event.pressed && last.event.key == c.key && 0 < last.tap.count <= MAX_TAP_COUNT)
  }

  predicate InSequence(c: Config, quick: nat, t: Told, k: Beat) {
    t.last.event.IsEvent() && Continues(c, quick, t.last, k.press)
  }

  /** The stroke of a sequence: press and release carry the next count, with what other keys do in between. */
  function NextInSequence(c: Config, t: Told, k: Beat): Told {
    var tap := Tap(false, Capped(t.last.tap.count + 1));
    Told(Followed(t.trace, [Record(k.press, tap)] + Reals(k.during) + [Record(k.release, tap)]),
         if Diff16(k.release.time, k.press.time) < c.term then Record(k.release, tap) else NO_RECORD)
  }

  /** A stroke on its own: a hold or a first tap, as the decision mode says. */
  function OnItsOwn(c: Config, t: Told, k: Beat): Told {
    var hold := Settled(c, k.during);
    var tap := if hold then Tap(true, 0) else Tap(AnyPress(k.during), 1);
    var release := if hold then Plain(k.release) else Record(k.release, tap);
    Told(Followed(t.trace, Ahead(c, k.during) + [Record(k.press, tap)] + Joined(c, k.during, release)),
         if hold then NO_RECORD else release)
  }

  /** What other keys do behind a stroke; one that goes down interrupts its tap. */
  function AndAfter(t: Told, es: seq<Event>): Told {
    Told(Followed(t.trace, Reals(es)),
         if t.last == NO_RECORD then NO_RECORD else t.last.(tap := t.last.tap.(interrupted := t.last.tap.interrupted || AnyPress(es))))
  }

  function Struck(c: Config, quick: nat, t: Told, k: Beat): Told {
    AndAfter(if InSequence(c, quick, t, k) then NextInSequence(c, t, k) else OnItsOwn(c, t, k), k.after)
  }

  function Session(c: Config, quick: nat, t: Told, ks: seq<Beat>): Told {
    if ks == [] then t else Struck(c, quick, Session(c, quick, t, ks[..|ks| - 1]), ks[|ks| - 1])
  }

  function PlayBeat(env: Env, s: State, k: Beat): State {
    Steps(env, UpToRelease(env, s, k), k.after)
  }

  function PlayBeats(env: Env, s: State, ks: seq<Beat>): State {
    if ks == [] then s else PlayBeat(env, PlayBeats(env, s, ks[..|ks| - 1]), ks[|ks| - 1])
  }

  /** A press and a release of the tap key with other keys' events around them; those behind it come inside the term. */
  predicate WellTimed(c: Config, k: Beat) {
    && k.press.IsEvent() && k.press.pressed && k.press.key == c.key
    && k.release.IsEvent() && !k.release.pressed && k.release.key == c.key
    && AllOther(c, k.during) && AllOther(c, k.after) && AllInTerm(c, k.after, k.release.time)
  }

  /** A stroke that is still open until its release is released inside the term, and what waits for it fits the buffer. */
  predicate OpenInTerm(c: Config, k: Beat) {
    && Others(c, k.during, k.press.time) && Diff16(k.release.time, k.press.time) < c.term
    && (Settled(c, k.during) || |Behind(c, k.during)| + 1 < WAITING_BUFFER_SIZE)
  }

  predicate Playable(c: Config, quick: nat, t: Told, k: Beat) {
    WellTimed(c, k) && (InSequence(c, quick, t, k) || OpenInTerm(c, k))
  }

  predicate AllPlayable(c: Config, quick: nat, t: Told, ks: seq<Beat>) {
    ks == [] ||
    (AllPlayable(c, quick, t, ks[..|ks| - 1]) && Playable(c, quick, Session(c, quick, t, ks[..|ks| - 1]), ks[|ks| - 1]))
  }

  lemma AfterBeat(env: Env, c: Config, t: Told, es: seq<Event>, d: seq<Event>)
    requires Decides(env, c) && Continuable(c, t.last) && AllOther(c, es)
    requires t.last != NO_RECORD ==> AllInTerm(c, es, t.last.event.time)
    ensures Steps(env, StateOf(t, d), es) == StateOf(AndAfter(t, es), d) && Continuable(c, AndAfter(t, es).last)
  {
    if t.last == NO_RECORD {
      OthersWhileIdle(env, c, StateOf(t, d), es);
    } else {
      OthersAfterTap(env, c, StateOf(t, d), es);
    }
  }

  /** The state after a stroke of a sequence, step by step. */
  function HeldThrough(c: Config, t: Told, k: Beat, d: seq<Event>): State {
    var tap := Tap(false, Capped(t.last.tap.count + 1));
    var down, up := Record(k.press, tap), Record(k.release, tap);
    State(if Diff16(k.release.time, k.press.time) < c.term then up else NO_RECORD, [],
          Then(Followed(Then(t.trace, Delivery(down, false)), Reals(k.during)), Delivery(up, false)), d)
  }

  lemma HeldThroughIs(c: Config, t: Told, k: Beat, d: seq<Event>)
    ensures HeldThrough(c, t, k, d) == StateOf(NextInSequence(c, t, k), d)
  {
    var tap := Tap(false, Capped(t.last.tap.count + 1));
    HeldTrace(t.trace, Record(k.press, tap), Reals(k.during), Record(k.release, tap));
  }

  /** The stroke up to its release. */
  function UpToRelease(env: Env, s: State, k: Beat): State {
    Step(env, Steps(env, Step(env, s, k.press), k.during), k.release)
  }

  /** The press of a stroke that continues the sequence. */
  lemma PressInSequence(env: Env, c: Config, quick: nat, t: Told, k: Beat, d: seq<Event>, down: Record)
    requires Timed(env, c, quick) && Continuable(c, t.last) && WellTimed(c, k) && InSequence(c, quick, t, k)
    requires down == Record(k.press, Tap(false, Capped(t.last.tap.count + 1)))
    ensures Step(env, StateOf(t, d), k.press) == State(down, [], Then(t.trace, Delivery(down, false)), d) && down.tap.count > 0
  {
    PressAfterTap(env, c, quick, StateOf(t, d), k.press);
  }

  /** From the press of a counted tap, delivered at once, to its release. */
  lemma BeatHeld(env: Env, c: Config, quick: nat, s: State, k: Beat, h: History, down: Record, d: seq<Event>)
    requires Timed(env, c, quick) && WellTimed(c, k) && down.event == k.press && down.tap.count > 0
    requires Step(env, s, k.press) == State(down, [], h, d)
    ensures var up := Record(k.release, down.tap);
            UpToRelease(env, s, k) ==
            State(if Diff16(k.release.time, k.press.time) < c.term then up else NO_RECORD, [],
                  Then(Followed(h, Reals(k.during)), Delivery(up, false)), d)
  {
    HeldBeat(env, c, quick, State(down, [], h, d), k.during, Record(k.release, down.tap));
  }

  lemma BeatInSequence(env: Env, c: Config, quick: nat, t: Told, k: Beat, d: seq<Event>)
    requires Timed(env, c, quick) && Continuable(c, t.last) && WellTimed(c, k) && InSequence(c, quick, t, k)
    ensures UpToRelease(env, StateOf(t, d), k) == HeldThrough(c, t, k, d)
  {
    var down := Record(k.press, Tap(false, Capped(t.last.tap.count + 1)));
    PressInSequence(env, c, quick, t, k, d, down);
    BeatHeld(env, c, quick, StateOf(t, d), k, Then(t.trace, Delivery(down, false)), down, d);
  }

  /** From the press of a counted tap to its release. */
  lemma HeldBeat(env: Env, c: Config, quick: nat, s: State, es: seq<Event>, up: Record)
    requires Timed(env, c, quick) && AllOther(c, es)
    requires TappingPressed(s) && s.tapping.event.key == c.key && s.tapping.tap.count > 0 && s.waiting == []
    requires up.event.IsEvent() && !up.event.pressed && up.event.key == c.key && up.tap == s.tapping.tap
    ensures Step(env, Steps(env, s, es), up.event) ==
            s.(tapping := if Diff16(up.event.time, s.tapping.event.time) < c.term then up else NO_RECORD,
               trace := Then(Followed(s.trace, Reals(es)), Delivery(up, false)))
  {
    OthersWhileHeld(env, c, s, es);
    ReleaseOfTap(env, c, quick, s.(trace := Followed(s.trace, Reals(es))), up.event);
  }

  lemma HeldTrace(h: History, down: Record, rs: seq<Record>, up: Record)
    ensures Followed(h, [down] + rs + [up]) == Then(Followed(Then(h, Delivery(down, false)), rs), Delivery(up, false))
  {
    FollowedOne(h, [down] + rs, up);
    Around(h, [], down, rs);
    assert [] + [down] + rs == [down] + rs;
  }

  lemma BeatOnItsOwn(env: Env, c: Config, quick: nat, t: Told, k: Beat, d: seq<Event>)
    requires Timed(env, c, quick) && Continuable(c, t.last) && WellTimed(c, k) && !InSequence(c, quick, t, k) && OpenInTerm(c, k)
    ensures UpToRelease(env, StateOf(t, d), k) == StateOf(OnItsOwn(c, t, k), d)
  {
    var idle := StateOf(t.(last := NO_RECORD), d);
    if t.last != NO_RECORD {
      PressAfterTap(env, c, quick, StateOf(t, d), k.press);
    }
    assert Step(env, StateOf(t, d), k.press) == Step(env, idle, k.press);
    TapOrHold(env, c, idle, k.press, k.during, k.release);
  }

  /**
   Any number of strokes of the tap key, with any events of other keys between and during them: what is delivered, and
   whether the next stroke can continue the sequence, is what `Session` says.
   */
  lemma {:induction false} SessionFollows(env: Env, c: Config, quick: nat, t: Told, ks: seq<Beat>, d: seq<Event>)
    requires Timed(env, c, quick) && Continuable(c, t.last) && AllPlayable(c, quick, t, ks)
    ensures PlayBeats(env, StateOf(t, d), ks) == StateOf(Session(c, quick, t, ks), d)
    ensures Continuable(c, Session(c, quick, t, ks).last)
  {
    if ks != [] {
      var n := |ks| - 1;
      SessionFollows(env, c, quick, t, ks[..n], d);
      BeatFollows(env, c, quick, Session(c, quick, t, ks[..n]), ks[n], d);
    }
  }

  lemma BeatFollows(env: Env, c: Config, quick: nat, t: Told, k: Beat, d: seq<Event>)
    requires Timed(env, c, quick) && Continuable(c, t.last) && Playable(c, quick, t, k)
    ensures PlayBeat(env, StateOf(t, d), k) == StateOf(Struck(c, quick, t, k), d)
    ensures Continuable(c, Struck(c, quick, t, k).last)
  {
    var t1 := if InSequence(c, quick, t, k) then NextInSequence(c, t, k) else OnItsOwn(c, t, k);
    if InSequence(c, quick, t, k) {
      BeatInSequence(env, c, quick, t, k, d);
      HeldThroughIs(c, t, k, d);
    } else {
      BeatOnItsOwn(env, c, quick, t, k, d);
    }
    AfterBeat(env, c, t1, k.after, d);
  }
}
