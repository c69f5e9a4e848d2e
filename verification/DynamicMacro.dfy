/**
 The dynamic macro recorder of quantum/dynamic_macro.h.  Two recordings share one array:
 macro 1 grows from the left, macro 2 from the right, and the only guard is an equality
 test against the end of the other macro.

 `Step` is the recorder on two plain sequences.  `Recorder` is the source's array and
 index arithmetic; it is proved equal to `Step`, so the two macros never overlap, no
 write leaves the array, and recording one never changes what playing the other emits.
 */
module DynamicMacro {

  datatype KeyRecord = KeyRecord(row: nat, col: nat, pressed: bool, time: nat)

  datatype Slot = First | Second {
    function Other(): Slot {
      if First? then Second else First
    }
  }

  datatype Keycode = RecordStart(slot: Slot) | Play(slot: Slot) | RecordStop | Plain(code: nat)

  datatype Input = Input(keycode: Keycode, record: KeyRecord)

  /** While slot `slot` is being recorded its old contents are lost; the other macro is kept. */
  datatype Macros =
    | Idle(first: seq<KeyRecord>, second: seq<KeyRecord>)
    | Recording(slot: Slot, taken: seq<KeyRecord>, kept: seq<KeyRecord>)

  function Saved(slot: Slot, m: seq<KeyRecord>, other: seq<KeyRecord>): Macros {
    if slot.First? then Idle(m, other) else Idle(other, m)
  }

  function MacroOf(s: Macros, slot: Slot): seq<KeyRecord>
    requires s.Idle?
  {
    if slot.First? then s.first else s.second
  }

  /** What a key event leads to: the macros, the events played back, and whether the event goes on to normal processing. */
  datatype Outcome = Outcome(macros: Macros, played: seq<KeyRecord>, pass: bool)

  /** `dynamic_macro_record_key` with room for `capacity` events. */
  function TakeKey(taken: seq<KeyRecord>, r: KeyRecord, capacity: nat): seq<KeyRecord> {
    if !r.pressed && taken == [] then taken
    else if |taken| < capacity then taken + [r]
    else taken
  }

  /** `dynamic_macro_record_end`: keys still held when recording stops are not saved. */
  function TrimTrailingPresses(m: seq<KeyRecord>): seq<KeyRecord> {
    if m != [] && m[|m| - 1].pressed then TrimTrailingPresses(m[..|m| - 1]) else m
  }

  /** Trimming keeps the longest prefix that does not end in a press. */
  lemma {:induction false} TrimKeepsLongestPrefix(m: seq<KeyRecord>)
    ensures var t := TrimTrailingPresses(m);
            && t <= m
            && (t != [] ==> !t[|t| - 1].pressed)
            && (forall i :: |t| <= i < |m| ==> m[i].pressed)
  {
    if m != [] && m[|m| - 1].pressed {
      TrimKeepsLongestPrefix(m[..|m| - 1]);
    }
  }

  /** `process_record_dynamic_macro` for an array of `size` records. */
  function Step(size: nat, s: Macros, i: Input): Outcome {
    match s
    case Idle(first, second) =>
      if i.record.pressed then Outcome(s, [], true)
      else (
        match i.keycode
        case RecordStart(slot) => Outcome(Recording(slot, [], MacroOf(s, slot.Other())), [], false)
        case Play(slot) => Outcome(s, MacroOf(s, slot), false)
        case _ => Outcome(s, [], true)
      )
    case Recording(slot, taken, kept) =>
      match i.keycode
      case RecordStop =>
        Outcome(if i.record.pressed then Saved(slot, TrimTrailingPresses(taken), kept) else s, [], false)
      case Play(_) => Outcome(s, [], false)
      case _ => Outcome(s.(taken := TakeKey(taken, i.record, if size >= |kept| then size - |kept| else 0)), [], true)
  }

  function Run(size: nat, s: Macros, inputs: seq<Input>): Macros {
    if inputs == [] then s
    else Step(size, Run(size, s, inputs[..|inputs| - 1]), inputs[|inputs| - 1]).macros
  }

  predicate Fits(size: nat, s: Macros) {
    match s
    case Idle(first, second) => |first| + |second| <= size
    case Recording(_, taken, kept) => |taken| + |kept| <= size
  }

  /** Over every run the two macros together fit the array. */
  lemma {:induction false} RunFits(size: nat, s: Macros, inputs: seq<Input>)
    requires Fits(size, s)
    ensures Fits(size, Run(size, s, inputs))
  {
    if inputs != [] {
      var before := Run(size, s, inputs[..|inputs| - 1]);
      RunFits(size, s, inputs[..|inputs| - 1]);
      if before.Recording? {
        TrimKeepsLongestPrefix(before.taken);
      }
    }
  }

  // ---- isolation ----

  /** The macro in `slot`, unless that slot is being recorded. */
  predicate Holds(s: Macros, slot: Slot, m: seq<KeyRecord>) {
    match s
    case Idle(_, _) => MacroOf(s, slot) == m
    case Recording(r, _, kept) => r != slot && kept == m
  }

  /** No run that never starts recording `slot` changes what playing `slot` emits. */
  lemma {:induction false} OtherRecordingsKeepMacro(size: nat, s: Macros, inputs: seq<Input>, slot: Slot, m: seq<KeyRecord>)
    requires Holds(s, slot, m)
    requires forall i :: 0 <= i < |inputs| ==> inputs[i].keycode != RecordStart(slot)
    ensures Holds(Run(size, s, inputs), slot, m)
    ensures forall r: KeyRecord :: Run(size, s, inputs).Idle? && !r.pressed ==>
              Step(size, Run(size, s, inputs), Input(Play(slot), r)).played == m
  {
    if inputs != [] {
      var n := |inputs| - 1;
      OtherRecordingsKeepMacro(size, s, inputs[..n], slot, m);
      assert inputs[n].keycode != RecordStart(slot);
    }
  }

  // ---- playback of a recording ----

  /** The events a recording stores: all but the play keys and the release of the stop key. */
  function Recordable(inputs: seq<Input>): seq<KeyRecord> {
    if inputs == [] then []
    else
      var i := inputs[|inputs| - 1];
      var before := Recordable(inputs[..|inputs| - 1]);
      if i.keycode.Play? || i.keycode.RecordStop? then before else before + [i.record]
  }

  /** How many releases come before the first press. */
  function Leading(es: seq<KeyRecord>): (k: nat)
    ensures k <= |es|
    ensures forall i :: 0 <= i < k ==> !es[i].pressed
    ensures k < |es| ==> es[k].pressed
  {
    if es != [] && !es[0].pressed then 1 + Leading(es[1..]) else 0
  }

  /** What a recording holds after the events `es`. */
  function Started(es: seq<KeyRecord>, capacity: nat): seq<KeyRecord> {
    Cut(es[Leading(es)..], capacity)
  }

  /** What a recording of the events `es` saves: leading releases dropped, cut to capacity, trailing presses trimmed. */
  function Recorded(es: seq<KeyRecord>, capacity: nat): seq<KeyRecord> {
    TrimTrailingPresses(Started(es, capacity))
  }

  function Cut(es: seq<KeyRecord>, capacity: nat): seq<KeyRecord> {
    if |es| <= capacity then es else es[..capacity]
  }

  /** One more event of a recording. */
  lemma TakeKeyCuts(es: seq<KeyRecord>, r: KeyRecord, capacity: nat)
    ensures TakeKey(Started(es, capacity), r, capacity) == Started(es + [r], capacity)
  {
    var all := es + [r];
    assert forall i :: 0 <= i < |es| ==> all[i] == es[i];
    assert all[|es|] == r;
    if Leading(es) < |es| {
      assert Leading(all) == Leading(es);
      assert all[Leading(all)..] == es[Leading(es)..] + [r];
    } else {
      assert es[Leading(es)..] == [];
      assert all[Leading(all)..] == if r.pressed then [r] else [];
    }
  }

  /** What is stored part-way through a recording. */
  lemma {:induction false} RecordingTakes(size: nat, slot: Slot, kept: seq<KeyRecord>, inputs: seq<Input>)
    requires |kept| <= size
    requires forall i :: 0 <= i < |inputs| ==> !(inputs[i].keycode.RecordStop? && inputs[i].record.pressed)
    ensures var es := Recordable(inputs);
            Run(size, Recording(slot, [], kept), inputs) == Recording(slot, Started(es, size - |kept|), kept)
  {
    if inputs != [] {
      var n := |inputs| - 1;
      RecordingTakes(size, slot, kept, inputs[..n]);
      TakeKeyCuts(Recordable(inputs[..n]), inputs[n].record, size - |kept|);
    }
  }

  lemma {:induction false} RunConcat(size: nat, s: Macros, a: seq<Input>, b: seq<Input>)
    ensures Run(size, s, a + b) == Run(size, Run(size, s, a), b)
  {
    if b == [] {
      assert a + b == a;
    } else {
      var n := |b| - 1;
      assert (a + b)[..|a + b| - 1] == a + b[..n];
      RunConcat(size, s, a, b[..n]);
    }
  }

  /** Start key, any events, stop key: playing the slot then emits the recorded form of those events, the other macro is as before. */
  lemma PlaybackOfRecording(size: nat, s: Macros, slot: Slot, start: KeyRecord, inputs: seq<Input>, stop: KeyRecord, play: KeyRecord)
    requires s.Idle? && Fits(size, s)
    requires !start.pressed && stop.pressed && !play.pressed
    requires forall i :: 0 <= i < |inputs| ==> !(inputs[i].keycode.RecordStop? && inputs[i].record.pressed)
    ensures var capacity := size - |MacroOf(s, slot.Other())|;
            var m := Recorded(Recordable(inputs), capacity);
            var s' := Run(size, s, [Input(RecordStart(slot), start)] + inputs + [Input(RecordStop, stop)]);
            && s' == Saved(slot, m, MacroOf(s, slot.Other()))
            && Step(size, s', Input(Play(slot), play)) == Outcome(s', m, false)
            && Step(size, s', Input(Play(slot.Other()), play)) == Outcome(s', MacroOf(s, slot.Other()), false)
  {
    var a := [Input(RecordStart(slot), start)];
    var z := [Input(RecordStop, stop)];
    assert a[..0] == [] && z[..0] == [];
    RunConcat(size, s, a + inputs, z);
    RunConcat(size, s, a, inputs);
    RecordingTakes(size, slot, MacroOf(s, slot.Other()), inputs);
    assert Run(size, s, []) == s;
    var r := Run(size, s, a + inputs);
    assert Run(size, r, []) == r;
  }

  // ---- what is passed on, and what is played ----

  /** What the keys alone say about recording. */
  datatype Doing = Nothing | Taking(slot: Slot)

  function DoingIn(s: Macros): Doing {
    if s.Idle? then Nothing else Taking(s.slot)
  }

  /** A start key begins when it is released while nothing is recorded; the stop key ends a recording when it is pressed. */
  function DoingAfter(d: Doing, inputs: seq<Input>): Doing {
    if inputs == [] then d
    else
      var i := inputs[|inputs| - 1];
      var before := DoingAfter(d, inputs[..|inputs| - 1]);
      if before == Nothing && i.keycode.RecordStart? && !i.record.pressed then Taking(i.keycode.slot)
      else if before != Nothing && i.keycode.RecordStop? && i.record.pressed then Nothing
      else before
  }

  /** The keys the recorder keeps to itself: the release of a start or play key while nothing is recorded, and any stop or play key while something is. */
  predicate Keeps(d: Doing, i: Input) {
    if d == Nothing then !i.record.pressed && (i.keycode.RecordStart? || i.keycode.Play?)
    else i.keycode.RecordStop? || i.keycode.Play?
  }

  /** The events that go on to normal processing in a run. */
  function PassedOn(size: nat, s: Macros, inputs: seq<Input>): seq<Input> {
    if inputs == [] then []
    else
      var n := |inputs| - 1;
      var before := PassedOn(size, s, inputs[..n]);
      if Step(size, Run(size, s, inputs[..n]), inputs[n]).pass then before + [inputs[n]] else before
  }

  /** The inputs without those the recorder keeps to itself. */
  function NotKept(d: Doing, inputs: seq<Input>): seq<Input> {
    if inputs == [] then []
    else
      var n := |inputs| - 1;
      var before := NotKept(d, inputs[..n]);
      if Keeps(DoingAfter(d, inputs[..n]), inputs[n]) then before else before + [inputs[n]]
  }

  /** Over every run recording begins and ends as the keys say. */
  lemma {:induction false} RunDoes(size: nat, s: Macros, inputs: seq<Input>)
    ensures DoingIn(Run(size, s, inputs)) == DoingAfter(DoingIn(s), inputs)
  {
    if inputs != [] {
      RunDoes(size, s, inputs[..|inputs| - 1]);
    }
  }

  /** Over every run, recording or not, exactly the inputs the recorder does not keep to itself are passed on. */
  lemma {:induction false} RunPassesOn(size: nat, s: Macros, inputs: seq<Input>)
    ensures PassedOn(size, s, inputs) == NotKept(DoingIn(s), inputs)
  {
    if inputs != [] {
      RunPassesOn(size, s, inputs[..|inputs| - 1]);
      RunDoes(size, s, inputs[..|inputs| - 1]);
    }
  }

  /** After every run, only the release of a play key while nothing is recorded plays anything: the macro of its slot. */
  lemma OnlyPlayKeysPlay(size: nat, s: Macros, inputs: seq<Input>, i: Input)
    ensures var before := Run(size, s, inputs);
            && (before.Idle? <==> DoingAfter(DoingIn(s), inputs) == Nothing)
            && Step(size, before, i).played ==
               (if before.Idle? && i.keycode.Play? && !i.record.pressed
                then (if i.keycode.slot.First? then before.first else before.second)
                else [])
  {
    RunDoes(size, s, inputs);
  }

  // ---- the array ----

  /** Position of event `j` of a macro that starts at `begin` and grows in direction `dir`. */
  function At(begin: int, dir: int, j: int): int {
    if dir == 1 then begin + j else begin - j
  }

  /** How far `p` is from `begin` in direction `dir`. */
  function Dist(begin: int, dir: int, p: int): int {
    if dir == 1 then p - begin else begin - p
  }

  /** The first `len` records from `begin` in direction `dir`. */
  function Span(buffer: seq<KeyRecord>, begin: int, dir: int, len: nat): (m: seq<KeyRecord>)
    requires forall j :: 0 <= j < len ==> 0 <= At(begin, dir, j) < |buffer|
    ensures |m| == len
    ensures forall j :: 0 <= j < len ==> m[j] == buffer[At(begin, dir, j)]
  {
    seq(len, j requires 0 <= j < len => buffer[At(begin, dir, j)])
  }

  predicate InRange(buffer: seq<KeyRecord>, begin: int, dir: int, len: nat) {
    forall j :: 0 <= j < len ==> 0 <= At(begin, dir, j) < |buffer|
  }

  lemma SpanGrows(buffer: seq<KeyRecord>, begin: int, dir: int, len: nat, r: KeyRecord)
    requires InRange(buffer, begin, dir, len + 1)
    ensures 0 <= At(begin, dir, len) < |buffer|
    ensures Span(buffer[At(begin, dir, len) := r], begin, dir, len + 1) == Span(buffer, begin, dir, len) + [r]
  {
    assert 0 <= At(begin, dir, len) < |buffer|;
  }

  /** How many of the first `len` records remain once trailing presses are trimmed. */
  function TrimmedLength(buffer: seq<KeyRecord>, begin: int, dir: int, len: nat): (n: nat)
    requires InRange(buffer, begin, dir, len)
    ensures n <= len
  {
    if len > 0 && buffer[At(begin, dir, len - 1)].pressed then TrimmedLength(buffer, begin, dir, len - 1) else len
  }

  lemma {:induction false} TrimmedLengthTrims(buffer: seq<KeyRecord>, begin: int, dir: int, len: nat)
    requires InRange(buffer, begin, dir, len)
    ensures Span(buffer, begin, dir, TrimmedLength(buffer, begin, dir, len)) == TrimTrailingPresses(Span(buffer, begin, dir, len))
  {
    if len > 0 {
      TrimmedLengthTrims(buffer, begin, dir, len - 1);
      assert Span(buffer, begin, dir, len)[..len - 1] == Span(buffer, begin, dir, len - 1);
    }
  }

  lemma SpanUntouched(a: seq<KeyRecord>, b: seq<KeyRecord>, begin: int, dir: int, len: nat)
    requires |a| == |b| && InRange(a, begin, dir, len)
    requires forall j :: 0 <= j < len ==> a[At(begin, dir, j)] == b[At(begin, dir, j)]
    ensures Span(a, begin, dir, len) == Span(b, begin, dir, len)
  {
  }

  class Recorder {
    const buffer: array<KeyRecord>
    var macroEnd: int
    var rMacroEnd: int
    var macroPointer: int
    var macroId: nat

    ghost predicate Valid()
      reads this
    {
      && buffer.Length > 0
      // macro 1 is [0, macroEnd), macro 2 is (rMacroEnd, Length)
      && 0 <= macroEnd <= rMacroEnd + 1 <= buffer.Length
      && macroId <= 2
      && (macroId == 1 ==> 0 <= macroPointer <= rMacroEnd + 1)
      && (macroId == 2 ==> macroEnd - 1 <= macroPointer < buffer.Length)
    }

    ghost function Left(end: int): seq<KeyRecord>
      requires 0 <= end <= buffer.Length
      reads buffer
    {
      Span(buffer[..], 0, 1, end)
    }

    ghost function Right(end: int): seq<KeyRecord>
      requires -1 <= end < buffer.Length
      reads buffer
    {
      Span(buffer[..], buffer.Length - 1, -1, buffer.Length - 1 - end)
    }

    ghost function Abs(): Macros
      requires Valid()
      reads this, buffer
    {
      if macroId == 0 then Idle(Left(macroEnd), Right(rMacroEnd))
      else if macroId == 1 then Recording(First, Left(macroPointer), Right(rMacroEnd))
      else Recording(Second, Right(macroPointer), Left(macroEnd))
    }

    constructor (size: nat, blank: KeyRecord)
      requires size > 0
      ensures Valid() && buffer.Length == size && Abs() == Idle([], []) && fresh(buffer)
    {
      buffer := new KeyRecord[size](_ => blank);
      macroEnd := 0;
      rMacroEnd := size - 1;
      macroPointer := 0;
      macroId := 0;
    }

    /** `dynamic_macro_play`: hands on each record from `begin` until `end` is met. */
    method PlayBack(begin: int, end: int, dir: int) returns (played: seq<KeyRecord>)
      requires dir == 1 || dir == -1
      requires 0 <= Dist(begin, dir, end)
      requires forall j :: 0 <= j < Dist(begin, dir, end) ==> 0 <= At(begin, dir, j) < buffer.Length
      ensures played == Span(buffer[..], begin, dir, Dist(begin, dir, end))
    {
      played := [];
      var p := begin;
      while p != end
        invariant p == At(begin, dir, |played|) && |played| <= Dist(begin, dir, end)
        invariant forall j :: 0 <= j < |played| ==> played[j] == buffer[At(begin, dir, j)]
        decreases Dist(p, dir, end)
      {
        assert p == At(begin, dir, |played|);
        played := played + [buffer[p]];
        p := p + dir;
      }
    }

    /** `dynamic_macro_record_key`: the only limit check is an equality with the other macro's end. */
    method RecordKey(begin: int, other: int, dir: int, r: KeyRecord)
      requires dir == 1 || dir == -1
      requires if dir == 1 then begin == 0 && -1 <= other < buffer.Length else begin == buffer.Length - 1 && 0 <= other <= buffer.Length
      // the pointer is between the start of this macro and the end of the other
      requires 0 <= Dist(begin, dir, macroPointer) <= Dist(begin, dir, other) + 1
      modifies this`macroPointer, buffer
      ensures 0 <= Dist(begin, dir, macroPointer) <= Dist(begin, dir, other) + 1
      ensures Span(buffer[..], begin, dir, Dist(begin, dir, macroPointer)) ==
              TakeKey(old(Span(buffer[..], begin, dir, Dist(begin, dir, macroPointer))), r, Dist(begin, dir, other) + 1)
      // the other macro is untouched
      ensures forall p :: 0 <= p < buffer.Length && Dist(other, dir, p) > 0 ==> buffer[p] == old(buffer[p])
    {
      if !r.pressed && macroPointer == begin {
        return;
      }
      if macroPointer - dir != other {
        ghost var len := Dist(begin, dir, macroPointer);
        ghost var before := buffer[..];
        assert macroPointer == At(begin, dir, len);
        buffer[macroPointer] := r;
        macroPointer := macroPointer + dir;
        SpanGrows(before, begin, dir, len, r);
      }
    }

    /** `dynamic_macro_record_end`. */
    method RecordEnd(begin: int, dir: int) returns (end: int)
      requires dir == 1 || dir == -1
      requires 0 <= Dist(begin, dir, macroPointer)
      requires InRange(buffer[..], begin, dir, Dist(begin, dir, macroPointer))
      ensures 0 <= Dist(begin, dir, end) <= Dist(begin, dir, macroPointer)
      ensures Span(buffer[..], begin, dir, Dist(begin, dir, end)) ==
              TrimTrailingPresses(Span(buffer[..], begin, dir, Dist(begin, dir, macroPointer)))
    {
      end := macroPointer;
      ghost var n := Dist(begin, dir, macroPointer);
      while end != begin && buffer[end - dir].pressed
        invariant 0 <= Dist(begin, dir, end) <= n
        invariant TrimmedLength(buffer[..], begin, dir, n) == TrimmedLength(buffer[..], begin, dir, Dist(begin, dir, end))
        decreases Dist(begin, dir, end)
      {
        assert At(begin, dir, Dist(begin, dir, end) - 1) == end - dir;
        end := end - dir;
      }
      assert end != begin ==> At(begin, dir, Dist(begin, dir, end) - 1) == end - dir;
      TrimmedLengthTrims(buffer[..], begin, dir, n);
    }

    method ProcessWhileIdle(i: Input) returns (played: seq<KeyRecord>, pass: bool)
      requires Valid() && macroId == 0
      modifies this`macroPointer, this`macroId
      ensures Valid()
      ensures Outcome(Abs(), played, pass) == Step(buffer.Length, old(Abs()), i)
    {
      played := [];
      pass := true;
      var rBegin := buffer.Length - 1;
      if !i.record.pressed {
        match i.keycode {
          case RecordStart(First) =>
            macroPointer := 0;
            macroId := 1;
            pass := false;
          case RecordStart(Second) =>
            macroPointer := rBegin;
            macroId := 2;
            pass := false;
          case Play(First) =>
            played := PlayBack(0, macroEnd, 1);
            pass := false;
          case Play(Second) =>
            played := PlayBack(rBegin, rMacroEnd, -1);
            pass := false;
          case _ =>
        }
      }
    }

    method StopRecording()
      requires Valid() && macroId != 0
      modifies this`macroEnd, this`rMacroEnd, this`macroId
      ensures Valid()
      ensures var s := old(Abs()); Abs() == Saved(s.slot, TrimTrailingPresses(s.taken), s.kept)
    {
      if macroId == 1 {
        macroEnd := RecordEnd(0, 1);
      } else {
        rMacroEnd := RecordEnd(buffer.Length - 1, -1);
      }
      macroId := 0;
    }

    method StoreKey(r: KeyRecord)
      requires Valid() && macroId != 0
      modifies this`macroPointer, buffer
      ensures Valid()
      ensures var s := old(Abs()); |s.kept| <= buffer.Length && Abs() == s.(taken := TakeKey(s.taken, r, buffer.Length - |s.kept|))
    {
      ghost var before := buffer[..];
      if macroId == 1 {
        RecordKey(0, rMacroEnd, 1, r);
        SpanUntouched(before, buffer[..], buffer.Length - 1, -1, buffer.Length - 1 - rMacroEnd);
      } else {
        RecordKey(buffer.Length - 1, macroEnd, -1, r);
        SpanUntouched(before, buffer[..], 0, 1, macroEnd);
      }
    }

    /** `process_record_dynamic_macro`. */
    method ProcessRecord(i: Input) returns (played: seq<KeyRecord>, pass: bool)
      requires Valid()
      modifies this, buffer
      ensures Valid()
      ensures Outcome(Abs(), played, pass) == Step(buffer.Length, old(Abs()), i)
    {
      if macroId == 0 {
        played, pass := ProcessWhileIdle(i);
        return;
      }
      played := [];
      pass := false;
      match i.keycode {
        case RecordStop =>
          if i.record.pressed {
            StopRecording();
          }
        case Play(_) =>
        case _ =>
          StoreKey(i.record);
          pass := true;
      }
    }
  }
}
