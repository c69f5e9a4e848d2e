/**
 quantum/action_tapping.c in place: the statics `tapping_key`, `waiting_buffer`,
 `waiting_buffer_head` and `waiting_buffer_tail` as fields, with the ring walked by
 index.  Every method is proved equal to the corresponding function of TappingModel on
 the abstract state `Abs()`, so everything proved of runs of that model holds here.
 */
module TappingEngine {
  import opened Grid
  import opened TappingModel

  /** The slot `j` places after `tail`. */
  function Slot(tail: nat, j: nat): (i: nat)
    requires tail < WAITING_BUFFER_SIZE && j < WAITING_BUFFER_SIZE
    ensures i < WAITING_BUFFER_SIZE
  {
    if tail + j < WAITING_BUFFER_SIZE then tail + j else tail + j - WAITING_BUFFER_SIZE
  }

  function Occupied(head: nat, tail: nat): (n: nat)
    requires head < WAITING_BUFFER_SIZE && tail < WAITING_BUFFER_SIZE
    ensures n < WAITING_BUFFER_SIZE && Slot(tail, n) == head
  {
    if tail <= head then head - tail else head + WAITING_BUFFER_SIZE - tail
  }

  function Next(i: nat): (n: nat)
    requires i < WAITING_BUFFER_SIZE
    ensures n == if i == WAITING_BUFFER_SIZE - 1 then 0 else i + 1
  {
    (i + 1) % WAITING_BUFFER_SIZE
  }

  /** The `n` records of a ring that start at slot `tail`. */
  ghost function Window(ring: seq<Record>, tail: nat, n: nat): (w: seq<Record>)
    requires |ring| == WAITING_BUFFER_SIZE && tail < WAITING_BUFFER_SIZE && n < WAITING_BUFFER_SIZE
    ensures |w| == n
    ensures forall j :: 0 <= j < n ==> w[j] == ring[Slot(tail, j)]
  {
    seq(n, j requires 0 <= j < n => ring[Slot(tail, j)])
  }

  /** Writing one occupied slot of the ring changes exactly that waiting record. */
  lemma WindowUpdate(ring: seq<Record>, tail: nat, n: nat, j: nat, r: Record)
    requires |ring| == WAITING_BUFFER_SIZE && tail < WAITING_BUFFER_SIZE && j < n < WAITING_BUFFER_SIZE
    ensures Window(ring[Slot(tail, j) := r], tail, n) == Window(ring, tail, n)[j := r]
  {
  }

  lemma WindowPop(ring: seq<Record>, tail: nat, n: nat)
    requires |ring| == WAITING_BUFFER_SIZE && tail < WAITING_BUFFER_SIZE && 0 < n < WAITING_BUFFER_SIZE
    ensures Window(ring, Next(tail), n - 1) == Window(ring, tail, n)[1..]
  {
  }

  class Engine {
    var tapping: Record
    const ring: array<Record>
    var head: nat
    var tail: nat
    /** Stands for the effect of `process_record`. */
    var trace: History
    ghost var discarded: seq<Event>

    ghost predicate Valid()
      reads this
    {
      ring.Length == WAITING_BUFFER_SIZE && head < WAITING_BUFFER_SIZE && tail < WAITING_BUFFER_SIZE
    }

    ghost function Waiting(): (w: seq<Record>)
      requires Valid()
      reads this, ring
      ensures |w| < WAITING_BUFFER_SIZE
    {
      Window(ring[..], tail, Occupied(head, tail))
    }

    ghost function Abs(): State
      requires Valid()
      reads this, ring
    {
      State(tapping, Waiting(), trace, discarded)
    }

    constructor ()
      ensures Valid() && Abs() == START && fresh(ring)
    {
      tapping := NO_RECORD;
      ring := new Record[WAITING_BUFFER_SIZE](_ => NO_RECORD);
      head := 0;
      tail := 0;
      trace := Nothing;
      discarded := [];
    }

    /** `process_record`: a non-event is ignored, anything else goes on the trace. */
    method ProcessRecord(r: Record)
      requires Valid()
      modifies this`trace
      ensures Abs() == Deliver(old(Abs()), r)
    {
      if r.event.IsNoEvent() {
        return;
      }
      trace := Then(trace, Delivery(r, false));
    }

    /** `process_record` on a record the resolver made up. */
    method ProcessInvented(r: Record)
      requires Valid()
      modifies this`trace
      ensures Abs() == DeliverSynthetic(old(Abs()), r)
    {
      if r.event.IsNoEvent() {
        return;
      }
      trace := Then(trace, Delivery(r, true));
    }

    method Enq(r: Record) returns (ok: bool)
      requires Valid()
      modifies this`head, ring
      ensures Valid()
      ensures !ok <==> r.event.IsEvent() && |old(Waiting())| + 1 >= WAITING_BUFFER_SIZE
      ensures Waiting() == if ok && r.event.IsEvent() then old(Waiting()) + [r] else old(Waiting())
    {
      if r.event.IsNoEvent() {
        return true;
      }
      if Next(head) == tail {
        return false;
      }
      ring[head] := r;
      head := Next(head);
      return true;
    }

    method Clear()
      requires Valid()
      modifies this`head, this`tail
      ensures Valid() && Waiting() == []
    {
      head := 0;
      tail := 0;
    }

    method IsTyped(e: Event) returns (typed: bool)
      requires Valid()
      ensures typed == Typed(Waiting(), e)
    {
      var i := tail;
      ghost var j := 0;
      while i != head
        invariant 0 <= j <= Occupied(head, tail) && i == Slot(tail, j)
        invariant forall k :: 0 <= k < j ==> !(Waiting()[k].event.key == e.key && Waiting()[k].event.pressed != e.pressed)
        decreases Occupied(head, tail) - j
      {
        assert ring[i] == Waiting()[j];
        if ring[i].event.key == e.key && e.pressed != ring[i].event.pressed {
          return true;
        }
        i := Next(i);
        j := j + 1;
      }
      return false;
    }

    method ScanTapped(env: Env)
      requires Valid()
      modifies this`tapping, this`trace, ring
      ensures Valid() && Abs() == ScanTap(env, old(Abs()))
    {
      if tapping.tap.count > 0 || !tapping.event.pressed {
        return;
      }
      var i := tail;
      ghost var j := 0;
      ghost var s := Abs();
      while i != head
        invariant 0 <= j <= Occupied(head, tail) && i == Slot(tail, j)
        invariant Abs() == s && tapping == old(tapping)
        invariant FindTapEnd(env, s, 0) == FindTapEnd(env, s, j)
        decreases Occupied(head, tail) - j
      {
        var e := ring[i].event;
        assert ring[i] == s.waiting[j];
        if tapping.event.IsEvent() && tapping.event.key == e.key && !e.pressed
           && Diff16(e.time, tapping.event.time) < env.tappingTerm(trace, tapping) {
          WindowUpdate(ring[..], tail, Occupied(head, tail), j, WithCount(ring[i], 1));
          tapping := WithCount(tapping, 1);
          ring[i] := WithCount(ring[i], 1);
          ProcessRecord(tapping);
          return;
        }
        i := Next(i);
        j := j + 1;
      }
    }

    method Process(env: Env, r: Record) returns (handled: bool, r': Record)
      requires Valid()
      modifies this`tapping, this`trace, ring
      ensures Valid()
      ensures Outcome(Abs(), r', handled) == ProcessTapping(env, old(Abs()), r)
    {
      var e := r.event;
      r' := r;
      handled := true;
      if tapping.event.IsEvent() && tapping.event.pressed {
        var within := Diff16(e.time, tapping.event.time) < env.tappingTerm(trace, tapping);
        if tapping.tap.count > 0 {
          handled, r' := ProcessHeld(env, r, within);
        } else if within {
          handled, r' := ProcessUndecided(env, r);
        } else {
          ProcessRecord(tapping);
          tapping := NO_RECORD;
          handled := false;
        }
      } else if tapping.event.IsEvent() {
        handled, r' := ProcessReleased(env, r);
      } else if e.pressed && env.isTap(trace, r) {
        tapping := r;
        ScanTapped(env);
      } else {
        ProcessRecord(r);
      }
    }

    method ProcessUndecided(env: Env, r: Record) returns (handled: bool, r': Record)
      requires Valid() && Undecided(Abs())
      modifies this`tapping, this`trace
      ensures Valid()
      ensures Outcome(Abs(), r', handled) == OnUndecided(env, old(Abs()), r)
    {
      var e := r.event;
      r' := r;
      handled := false;
      var typed := IsTyped(e);
      if tapping.event.key == e.key && !e.pressed {
        tapping := WithCount(tapping, 1);
        ProcessRecord(tapping);
        r' := r.(tap := tapping.tap);
      } else if e.IsEvent() && !e.pressed && typed && env.permissiveHold(trace, tapping) {
        ProcessRecord(tapping);
        tapping := NO_RECORD;
      } else if e.IsEvent() && !e.pressed && !typed {
        if !env.retain(trace, r) {
          ProcessRecord(r);
          handled := true;
        }
      } else if e.pressed {
        tapping := tapping.(tap := tapping.tap.(interrupted := true));
        if env.holdOnOtherPress(trace, tapping) {
          ProcessRecord(tapping);
          tapping := NO_RECORD;
        }
      }
    }

    method ProcessHeld(env: Env, r: Record, within: bool) returns (handled: bool, r': Record)
      requires Valid() && TappingPressed(Abs())
      modifies this`tapping, this`trace, ring
      ensures Valid()
      ensures Outcome(Abs(), r', handled) == OnTapHeld(env, old(Abs()), r, within)
    {
      var e := r.event;
      r' := r;
      handled := true;
      if tapping.event.key == e.key && !e.pressed {
        r' := r.(tap := tapping.tap);
        ProcessRecord(r');
        tapping := if within then r' else NO_RECORD;
      } else if env.isTap(trace, r) && e.pressed {
        if tapping.tap.count > 1 {
          ProcessInvented(Record(Event(tapping.event.key, false, e.time), tapping.tap));
        }
        tapping := r;
        ScanTapped(env);
      } else {
        ProcessRecord(r);
      }
    }

    method ProcessReleased(env: Env, r: Record) returns (handled: bool, r': Record)
      requires Valid() && TappingReleased(Abs())
      modifies this`tapping, this`trace, ring
      ensures Valid()
      ensures Outcome(Abs(), r', handled) == OnTapReleased(env, old(Abs()), r)
    {
      var e := r.event;
      r' := r;
      handled := true;
      if !(Diff16(e.time, tapping.event.time) < env.tappingTerm(trace, tapping)) {
        tapping := NO_RECORD;
        handled := false;
      } else if !e.pressed {
        ProcessRecord(r);
      } else if tapping.event.key == e.key {
        if Diff16(e.time, tapping.event.time) < env.quickTapTerm(trace, tapping)
           && !tapping.tap.interrupted && tapping.tap.count > 0 {
          var t := tapping.tap;
          r' := r.(tap := if t.count < MAX_TAP_COUNT then t.(count := t.count + 1) else t);
          ProcessRecord(r');
          tapping := r';
        } else {
          tapping := r;
        }
      } else if env.isTap(trace, r) {
        tapping := r;
        ScanTapped(env);
      } else {
        tapping := tapping.(tap := tapping.tap.(interrupted := true));
        ProcessRecord(r);
      }
    }

    /** One turn of the loop below: the front record is processed in its slot. */
    method ProcessFront(env: Env) returns (handled: bool)
      requires Valid() && tail != head
      modifies this`tapping, this`trace, this`tail, ring
      ensures Valid()
      ensures var s := old(Abs());
              s.waiting != [] &&
              var o := ProcessTapping(env, s, s.waiting[0]);
              && handled == o.handled
              && Abs() == o.state.(waiting := if handled then o.state.waiting[1..] else o.state.waiting[0 := o.record])
    {
      ghost var s := Abs();
      assert ring[tail] == s.waiting[0];
      var r';
      handled, r' := Process(env, ring[tail]);
      if handled {
        WindowPop(ring[..], tail, Occupied(head, tail));
        tail := Next(tail);
      } else {
        WindowUpdate(ring[..], tail, Occupied(head, tail), 0, r');
        ring[tail] := r';
      }
    }

    /** The loop over the buffer at the end of `action_tapping_process`. */
    method ProcessWaiting(env: Env)
      requires Valid()
      modifies this`tapping, this`trace, this`tail, ring
      ensures Valid() && Abs() == Drain(env, old(Abs()))
    {
      while tail != head
        invariant Valid() && Drain(env, Abs()) == Drain(env, old(Abs()))
        decreases |Waiting()|
      {
        ghost var s := Abs();
        var handled := ProcessFront(env);
        if !handled {
          DrainStopped(env, s);
          return;
        }
        DrainHandled(env, s);
      }
      assert Waiting() == [];
    }

    /** `action_tapping_process`, on the record `action_exec` makes of an event. */
    method ActionTappingProcess(env: Env, e: Event)
      requires Valid()
      modifies this, ring
      ensures Valid() && Abs() == Step(env, old(Abs()), e)
    {
      var handled, r := Process(env, Record(e, Tap(false, 0)));
      if !handled {
        ghost var s := Abs();
        var ok := Enq(r);
        if !ok {
          // clear all in case of overflow
          discarded := discarded + Held(s) + Events(s.waiting) + [r.event];
          Clear();
          tapping := NO_RECORD;
        }
        assert Abs() == Enqueue(s, r);
      }
      ProcessWaiting(env);
    }
  }
}
