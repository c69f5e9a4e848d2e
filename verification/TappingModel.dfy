/**
 The tap/hold resolver of quantum/action_tapping.c as a transition function.

 A state holds the one key whose role is still open (`tapping`), the events that wait
 for that decision (`waiting`, oldest first), everything handed to `process_record`
 so far (`trace`), and the events thrown away when the waiting buffer overflowed
 (`discarded`, bookkeeping only).  The class in TappingEngine.dfy runs the same steps
 in place on a ring buffer and is proved equal to this function.

 Whatever the resolver asks of the rest of the firmware is a parameter (`Env`): whether
 a record is a tap key, the two terms, the hold settings, and whether a release must be
 retained.  In the firmware these depend on the layer state, which delivered events
 change, so each of them is a function of the trace delivered so far.
 */
module TappingModel {
  import opened Grid

  const TICK: nat := 255
  const WAITING_BUFFER_SIZE: nat := 8
  const MAX_TAP_COUNT: nat := 15

  datatype Event = Event(key: KeyPos, pressed: bool, time: nat) {
    predicate IsNoEvent() {
      time == 0 || (key.row == TICK && key.col == TICK)
    }

    predicate IsEvent() {
      !IsNoEvent()
    }
  }

  datatype Tap = Tap(interrupted: bool, count: nat)

  datatype Record = Record(event: Event, tap: Tap)

  /** One call of `process_record`; `synthetic` marks the release the resolver invents. */
  datatype Delivery = Delivery(record: Record, synthetic: bool)

  /** Everything delivered so far, latest on the outside. */
  datatype History = Nothing | Then(past: History, latest: Delivery)

  const NO_RECORD: Record := Record(Event(KeyPos(0, 0), false, 0), Tap(false, 0))

  type Oracle<!T> = (History, Record) -> T

  datatype Env = Env(
    isTap: Oracle<bool>,
    tappingTerm: Oracle<nat>,
    quickTapTerm: Oracle<nat>,
    permissiveHold: Oracle<bool>,
    holdOnOtherPress: Oracle<bool>,
    retain: Oracle<bool>)

  datatype State = State(
    tapping: Record,
    waiting: seq<Record>,
    trace: History,
    discarded: seq<Event>)

  const START: State := State(NO_RECORD, [], Nothing, [])

  /** What `process_tapping` leaves behind: the state, the (possibly re-tagged) record, and its return value. */
  datatype Outcome = Outcome(state: State, record: Record, handled: bool)

  /** TIMER_DIFF_16: unsigned 16-bit subtraction. */
  function Diff16(a: nat, b: nat): (d: nat) {
    (a - b) % 0x1_0000
  }

  predicate TappingPressed(s: State) {
    s.tapping.event.IsEvent() && s.tapping.event.pressed
  }

  predicate TappingReleased(s: State) {
    s.tapping.event.IsEvent() && !s.tapping.event.pressed
  }

  /** The tapping key is down and its role is still open: it has been received but not delivered. */
  predicate Undecided(s: State) {
    TappingPressed(s) && s.tapping.tap.count == 0
  }

  predicate IsTappingKey(s: State, key: KeyPos) {
    s.tapping.event.IsEvent() && s.tapping.event.key == key
  }

  predicate WithinTappingTerm(env: Env, s: State, e: Event) {
    Diff16(e.time, s.tapping.event.time) < env.tappingTerm(s.trace, s.tapping)
  }

  predicate WithinQuickTapTerm(env: Env, s: State, e: Event) {
    Diff16(e.time, s.tapping.event.time) < env.quickTapTerm(s.trace, s.tapping)
  }

  /** `process_record`: ignores non-events, otherwise hands the record on. */
  function Deliver(s: State, r: Record): State {
    if r.event.IsNoEvent() then s else s.(trace := Then(s.trace, Delivery(r, false)))
  }

  function DeliverSynthetic(s: State, r: Record): State {
    if r.event.IsNoEvent() then s else s.(trace := Then(s.trace, Delivery(r, true)))
  }

  /** `waiting_buffer_typed`: the buffer holds the opposite event of the same key. */
  predicate Typed(waiting: seq<Record>, e: Event) {
    exists i | 0 <= i < |waiting| :: waiting[i].event.key == e.key && waiting[i].event.pressed != e.pressed
  }

  predicate EndsTap(env: Env, s: State, r: Record) {
    IsTappingKey(s, r.event.key) && !r.event.pressed && WithinTappingTerm(env, s, r.event)
  }

  /** First waiting record from index `i` on that is the release of the tapping key, inside the term. */
  function FindTapEnd(env: Env, s: State, i: nat): (j: nat)
    requires i <= |s.waiting|
    ensures i <= j <= |s.waiting|
    ensures j < |s.waiting| ==> EndsTap(env, s, s.waiting[j])
    ensures forall k :: i <= k < j ==> !EndsTap(env, s, s.waiting[k])
    decreases |s.waiting| - i
  {
    if i == |s.waiting| || EndsTap(env, s, s.waiting[i]) then i else FindTapEnd(env, s, i + 1)
  }

  function WithCount(r: Record, n: nat): Record {
    r.(tap := r.tap.(count := n))
  }

  /** `waiting_buffer_scan_tap`. */
  function ScanTap(env: Env, s: State): (s': State)
    ensures |s'.waiting| == |s.waiting| && s'.discarded == s.discarded
  {
    if s.tapping.tap.count > 0 || !s.tapping.event.pressed then s
    else
      var j := FindTapEnd(env, s, 0);
      if j == |s.waiting| then s
      else
        var tapping := WithCount(s.tapping, 1);
        Deliver(s.(tapping := tapping, waiting := s.waiting[j := WithCount(s.waiting[j], 1)]), tapping)
  }

  /** Tapping key down, inside the term, count 0. */
  function OnUndecided(env: Env, s: State, r: Record): (o: Outcome)
    ensures |o.state.waiting| == |s.waiting| && o.state.discarded == s.discarded
  {
    var e := r.event;
    var released := e.IsEvent() && !e.pressed;
    if IsTappingKey(s, e.key) && !e.pressed then
      // first tap: deliver the press as a tap, queue the release
      var tapping := WithCount(s.tapping, 1);
      Outcome(Deliver(s.(tapping := tapping), tapping), r.(tap := tapping.tap), false)
    else if released && Typed(s.waiting, e) && env.permissiveHold(s.trace, s.tapping) then
      Outcome(Deliver(s, s.tapping).(tapping := NO_RECORD), r, false)
    else if released && !Typed(s.waiting, e) then
      // key pressed before the tap started: its release overtakes the buffer unless retained
      if env.retain(s.trace, r) then Outcome(s, r, false) else Outcome(Deliver(s, r), r, true)
    else if e.pressed then
      var tapping := s.tapping.(tap := s.tapping.tap.(interrupted := true));
      var s1 := s.(tapping := tapping);
      if env.holdOnOtherPress(s.trace, tapping) then
        Outcome(Deliver(s1, tapping).(tapping := NO_RECORD), r, false)
      else Outcome(s1, r, false)
    else Outcome(s, r, false)
  }

  /** Start a new tap on `r`. */
  function StartTap(env: Env, s: State, r: Record): (o: Outcome)
    ensures |o.state.waiting| == |s.waiting| && o.state.discarded == s.discarded
  {
    Outcome(ScanTap(env, s.(tapping := r)), r, true)
  }

  /** Tapping key down with a settled count; inside and outside the term differ only in what follows its release. */
  function OnTapHeld(env: Env, s: State, r: Record, within: bool): (o: Outcome)
    ensures |o.state.waiting| == |s.waiting| && o.state.discarded == s.discarded
  {
    var e := r.event;
    if IsTappingKey(s, e.key) && !e.pressed then
      var r' := r.(tap := s.tapping.tap);
      Outcome(Deliver(s, r').(tapping := if within then r' else NO_RECORD), r', true)
    else if env.isTap(s.trace, r) && e.pressed then
      var s1 := if s.tapping.tap.count > 1
                then DeliverSynthetic(s, Record(Event(s.tapping.event.key, false, e.time), s.tapping.tap))
                else s;
      StartTap(env, s1, r)
    else Outcome(Deliver(s, r), r, true)
  }

  /** Tapping key already released. */
  function OnTapReleased(env: Env, s: State, r: Record): (o: Outcome)
    ensures |o.state.waiting| == |s.waiting| && o.state.discarded == s.discarded
  {
    var e := r.event;
    if !WithinTappingTerm(env, s, e) then Outcome(s.(tapping := NO_RECORD), r, false)
    else if !e.pressed then Outcome(Deliver(s, r), r, true)
    else if IsTappingKey(s, e.key) then
      var t := s.tapping.tap;
      if WithinQuickTapTerm(env, s, e) && !t.interrupted && t.count > 0 then
        var r' := r.(tap := if t.count < MAX_TAP_COUNT then t.(count := t.count + 1) else t);
        Outcome(Deliver(s, r').(tapping := r'), r', true)
      else Outcome(s.(tapping := r), r, true)
    else if env.isTap(s.trace, r) then StartTap(env, s, r)
    else
      var s1 := s.(tapping := s.tapping.(tap := s.tapping.tap.(interrupted := true)));
      Outcome(Deliver(s1, r), r, true)
  }

  function OnIdle(env: Env, s: State, r: Record): (o: Outcome)
    ensures |o.state.waiting| == |s.waiting| && o.state.discarded == s.discarded
  {
    if r.event.pressed && env.isTap(s.trace, r) then StartTap(env, s, r)
    else Outcome(Deliver(s, r), r, true)
  }

  /** `process_tapping`. */
  function ProcessTapping(env: Env, s: State, r: Record): (o: Outcome)
    ensures |o.state.waiting| == |s.waiting| && o.state.discarded == s.discarded
  {
    if TappingPressed(s) then
      if s.tapping.tap.count > 0 then OnTapHeld(env, s, r, WithinTappingTerm(env, s, r.event))
      else if WithinTappingTerm(env, s, r.event) then OnUndecided(env, s, r)
      else Outcome(Deliver(s, s.tapping).(tapping := NO_RECORD), r, false)
    else if TappingReleased(s) then OnTapReleased(env, s, r)
    else OnIdle(env, s, r)
  }

  /** The undecided key, as a sequence of at most one event. */
  function Held(s: State): seq<Event> {
    if Undecided(s) then [s.tapping.event] else []
  }

  function Events(rs: seq<Record>): (es: seq<Event>)
    ensures |es| == |rs|
    ensures forall i :: 0 <= i < |rs| ==> es[i] == rs[i].event
  {
    seq(|rs|, i requires 0 <= i < |rs| => rs[i].event)
  }

  /** `waiting_buffer_enq`, with the caller's reaction to an overflow. */
  function Enqueue(s: State, r: Record): State {
    if r.event.IsNoEvent() then s
    else if |s.waiting| + 1 >= WAITING_BUFFER_SIZE then
      State(NO_RECORD, [], s.trace, s.discarded + Held(s) + Events(s.waiting) + [r.event])
    else s.(waiting := s.waiting + [r])
  }

  /** The buffer-processing loop of `action_tapping_process`. */
  function Drain(env: Env, s: State): (s': State)
    ensures s'.discarded == s.discarded
    decreases |s.waiting|
  {
    if s.waiting == [] then s
    else
      var o := ProcessTapping(env, s, s.waiting[0]);
      if o.handled then Drain(env, o.state.(waiting := o.state.waiting[1..]))
      else o.state.(waiting := o.state.waiting[0 := o.record])
  }

  /** One turn of the buffer loop when the front record is handled. */
  lemma DrainHandled(env: Env, s: State)
    requires s.waiting != [] && ProcessTapping(env, s, s.waiting[0]).handled
    ensures var t := ProcessTapping(env, s, s.waiting[0]).state;
            Drain(env, s) == Drain(env, t.(waiting := t.waiting[1..]))
  {
  }

  lemma DrainStopped(env: Env, s: State)
    requires s.waiting != [] && !ProcessTapping(env, s, s.waiting[0]).handled
    ensures var o := ProcessTapping(env, s, s.waiting[0]);
            Drain(env, s) == o.state.(waiting := o.state.waiting[0 := o.record])
  {
  }

  /** `action_tapping_process` on the record that `action_exec` builds from an event. */
  function Step(env: Env, s: State, e: Event): State {
    var o := ProcessTapping(env, s, Record(e, Tap(false, 0)));
    Drain(env, if o.handled then o.state else Enqueue(o.state, o.record))
  }

  /** Several calls with the same settings. */
  function Steps(env: Env, s: State, es: seq<Event>): State {
    if es == [] then s else Step(env, Steps(env, s, es[..|es| - 1]), es[|es| - 1])
  }

  /** One call from outside; the settings may change from call to call. */
  datatype Input = Input(env: Env, event: Event)

  function Run(s: State, inputs: seq<Input>): State {
    if inputs == [] then s
    else
      var last := inputs[|inputs| - 1];
      Step(last.env, Run(s, inputs[..|inputs| - 1]), last.event)
  }

  /** The real key events among the inputs, in order of arrival. */
  function Received(inputs: seq<Input>): seq<Event> {
    if inputs == [] then []
    else
      var e := inputs[|inputs| - 1].event;
      var before := Received(inputs[..|inputs| - 1]);
      if e.IsEvent() then before + [e] else before
  }

  /** The events delivered, in order, leaving out the invented releases. */
  function Delivered(trace: History): seq<Event> {
    match trace
    case Nothing => []
    case Then(past, d) => if d.synthetic then Delivered(past) else Delivered(past) + [d.record.event]
  }

  /** Everything `process_record` was told, in order, the invented releases included. */
  function Told(trace: History): seq<Event> {
    match trace
    case Nothing => []
    case Then(past, d) => Told(past) + [d.record.event]
  }
}
