/**
 The deferred executor table of quantum/deferred_exec.c: 8-bit tokens handed out by a
 wrapping search, and callbacks fired by signed 32-bit time differences.

 `Apply` is one table as a value; class `Executor` is the source's array and loops, with
 the token counter that all tables share, proved equal to it.  Callbacks are a parameter
 of the task and do not touch the table.
 */
module DeferredExec {

  const INVALID: nat := 0
  const TOKENS: nat := 256
  const TIME: nat := 0x1_0000_0000

  datatype Callback = Null | Callback(id: nat)

  datatype Entry = Entry(token: nat, trigger: nat, callback: Callback, arg: nat)

  const FREE: Entry := Entry(INVALID, 0, Null, 0)

  /** A callback returns the delay to its next run, or 0 to be removed. */
  type Invoke = (Callback, nat, nat) -> nat

  datatype State = State(table: seq<Entry>, current: nat, last: nat)

  datatype Op =
    | Defer(delay: nat, callback: Callback, arg: nat, now: nat)
    | Extend(token: nat, delay: nat, now: nat)
    | Cancel(token: nat)
    | Task(now: nat, invoke: Invoke)
    // another table moves the token counter
    | Elsewhere(token: nat)

  // ---- tokens ----

  /** `token_can_be_used`. */
  predicate Usable(table: seq<Entry>, token: nat) {
    token != INVALID && forall i :: 0 <= i < |table| ==> table[i].token != token
  }

  function TokenAt(current: nat, d: nat): nat {
    (current + d) % TOKENS
  }

  /** How many increments of the counter reach a usable token, from the `d`-th on; 257 if none does. */
  function Increments(table: seq<Entry>, current: nat, d: nat): (r: nat)
    requires 1 <= d <= TOKENS + 1
    ensures d <= r <= TOKENS + 1
    decreases TOKENS + 1 - d
  {
    if d == TOKENS + 1 || Usable(table, TokenAt(current, d)) then d else Increments(table, current, d + 1)
  }

  /** It stops at the first usable token. */
  lemma {:induction false} IncrementsFirst(table: seq<Entry>, current: nat, d: nat)
    requires 1 <= d <= TOKENS + 1
    ensures var r := Increments(table, current, d);
            && (r <= TOKENS ==> Usable(table, TokenAt(current, r)))
            && (forall k :: d <= k < r ==> !Usable(table, TokenAt(current, k)))
    decreases TOKENS + 1 - d
  {
    if d <= TOKENS {
      IncrementsFirst(table, current, d + 1);
    }
  }

  /** The value of the token counter after `allocate_token`. */
  function NextCurrent(table: seq<Entry>, current: nat): nat {
    TokenAt(current, Increments(table, current, 1))
  }

  predicate CanAllocate(table: seq<Entry>, current: nat) {
    Increments(table, current, 1) <= TOKENS
  }

  /** The wrapping search finds a token exactly when one of the 255 is unused. */
  lemma AllocatesIffUnused(table: seq<Entry>, current: nat)
    requires current < TOKENS
    ensures CanAllocate(table, current) <==> exists t :: 0 < t < TOKENS && Usable(table, t)
    ensures CanAllocate(table, current) ==>
              0 < NextCurrent(table, current) < TOKENS && Usable(table, NextCurrent(table, current))
  {
    IncrementsFirst(table, current, 1);
    if CanAllocate(table, current) {
      assert Usable(table, NextCurrent(table, current));
    } else {
      forall t | 0 < t < TOKENS
        ensures !Usable(table, t)
      {
        var d := Reach(current, t);
      }
    }
  }

  /** Every token value is at most 256 increments away. */
  lemma Reach(current: nat, t: nat) returns (d: nat)
    requires current < TOKENS && t < TOKENS
    ensures 1 <= d <= TOKENS && TokenAt(current, d) == t
  {
    d := if t > current then t - current else t + TOKENS - current;
  }

  function Tokens(table: seq<Entry>): set<nat> {
    set i | 0 <= i < |table| :: table[i].token
  }

  lemma {:induction false} FewTokens(table: seq<Entry>)
    ensures |Tokens(table)| <= |table|
  {
    if table != [] {
      var n := |table| - 1;
      FewTokens(table[..n]);
      assert Tokens(table) == Tokens(table[..n]) + {table[n].token};
    }
  }

  function Below(n: nat): (s: set<nat>)
    ensures forall t :: t in s <==> 0 <= t < n
  {
    if n == 0 then {} else Below(n - 1) + {n - 1}
  }

  lemma {:induction false} BelowSize(n: nat)
    ensures |Below(n)| == n
  {
    if n > 0 {
      BelowSize(n - 1);
    }
  }

  lemma {:induction false} SubsetSize(a: set<nat>, b: set<nat>)
    requires a <= b
    ensures |a| <= |b|
  {
    assert |b - a| + |a * b| == |b| && a * b == a;
  }

  /** With a free slot in a table of at most 255 entries some token is unused: 256 token values do not fit 255 slots. */
  lemma Pigeonhole(table: seq<Entry>, current: nat)
    requires current < TOKENS && |table| < TOKENS
    requires exists i :: 0 <= i < |table| && table[i].token == INVALID
    ensures CanAllocate(table, current)
  {
    AllocatesIffUnused(table, current);
    if !CanAllocate(table, current) {
      forall t | t in Below(TOKENS)
        ensures t in Tokens(table)
      {
        if t != INVALID {
          assert !Usable(table, t);
        }
      }
      BelowSize(TOKENS);
      FewTokens(table);
      SubsetSize(Below(TOKENS), Tokens(table));
    }
  }

  // ---- time ----

  /** (int32_t)TIMER_DIFF_32(a, b). */
  function SignedDiff(a: nat, b: nat): int {
    var d := (a - b) % TIME;
    if d < TIME / 2 then d else d - TIME
  }

  predicate Due(e: Entry, now: nat) {
    e.token != INVALID && SignedDiff(e.trigger, now) <= 0
  }

  /** Deferred at `start` for `delay`, an entry is never due early exactly when the delay is below 2^31. */
  lemma NeverEarlyIff(start: nat, delay: nat, token: nat, callback: Callback, arg: nat)
    requires 0 < delay < TIME && token != INVALID
    ensures var e := Entry(token, (start + delay) % TIME, callback, arg);
            (forall now: nat :: start <= now < start + delay ==> !Due(e, now % TIME)) <==> delay < TIME / 2
  {
    var e := Entry(token, (start + delay) % TIME, callback, arg);
    assert Due(e, start % TIME) <==> delay >= TIME / 2 by {
      DiffOfSum(start, delay, start);
    }
    if delay < TIME / 2 {
      forall now: nat | start <= now < start + delay
        ensures !Due(e, now % TIME)
      {
        DiffOfSum(start, delay, now);
      }
    }
  }

  /** Modular time keeps differences. */
  lemma DiffOfSum(start: nat, delay: nat, now: nat)
    ensures (((start + delay) % TIME) - (now % TIME)) % TIME == (start + delay - now) % TIME
  {
  }

  /** Once its time has come an entry is due for the next 2^31 milliseconds. */
  lemma DueWhenElapsed(start: nat, delay: nat, now: nat, token: nat, callback: Callback, arg: nat)
    requires 0 < delay < TIME / 2 && token != INVALID
    requires start + delay <= now <= start + delay + TIME / 2
    ensures Due(Entry(token, (start + delay) % TIME, callback, arg), now % TIME)
  {
    DiffOfSum(start, delay, now);
  }

  // ---- operations ----

  /** First entry from `i` on with this token, or the length of the table. */
  function Find(table: seq<Entry>, token: nat, i: nat): (j: nat)
    requires i <= |table|
    ensures i <= j <= |table|
    ensures j < |table| ==> table[j].token == token
    ensures forall k :: i <= k < j ==> table[k].token != token
    decreases |table| - i
  {
    if i == |table| || table[i].token == token then i else Find(table, token, i + 1)
  }

  /** One entry in a run of the task. */
  function Fire(e: Entry, now: nat, invoke: Invoke): Entry {
    if !Due(e, now) then e
    else
      var delay := invoke(e.callback, e.trigger, e.arg);
      if delay > 0 then e.(trigger := (e.trigger + delay) % TIME) else FREE
  }

  function FireAll(table: seq<Entry>, now: nat, invoke: Invoke): (t: seq<Entry>)
    ensures |t| == |table|
    ensures forall i :: 0 <= i < |t| ==> t[i] == Fire(table[i], now, invoke)
  {
    seq(|table|, i requires 0 <= i < |table| => Fire(table[i], now, invoke))
  }

  /** The new state and the value returned: the token of a `Defer`, 1 or 0 for the success of `Extend` and `Cancel`. */
  function Apply(s: State, op: Op): (State, nat) {
    match op
    case Defer(delay, callback, arg, now) =>
      var j := Find(s.table, INVALID, 0);
      if delay == 0 || callback.Null? || j == |s.table| then (s, INVALID)
      else
        var s1 := s.(current := NextCurrent(s.table, s.current));
        if !CanAllocate(s.table, s.current) then (s1, INVALID)
        else (s1.(table := s.table[j := Entry(s1.current, (now + delay) % TIME, callback, arg)]), s1.current)
    case Extend(token, delay, now) =>
      var j := Find(s.table, token, 0);
      if delay == 0 || token == INVALID || j == |s.table| then (s, 0)
      else (s.(table := s.table[j := s.table[j].(trigger := (now + delay) % TIME)]), 1)
    case Cancel(token) =>
      var j := Find(s.table, token, 0);
      if token == INVALID || j == |s.table| then (s, 0) else (s.(table := s.table[j := FREE]), 1)
    case Task(now, invoke) =>
      if SignedDiff(now, s.last) > 0 then (s.(last := now, table := FireAll(s.table, now, invoke)), 0) else (s, 0)
    case Elsewhere(token) => (s.(current := token % TOKENS), 0)
  }

  function Run(s: State, ops: seq<Op>): State {
    if ops == [] then s else Apply(Run(s, ops[..|ops| - 1]), ops[|ops| - 1]).0
  }

  /** Live tokens are proper token values and pairwise distinct; a dead entry is blank. */
  predicate TokensOk(table: seq<Entry>) {
    && (forall i :: 0 <= i < |table| ==> table[i].token < TOKENS)
    && (forall i :: 0 <= i < |table| && table[i].token == INVALID ==> table[i] == FREE)
    && (forall i, j :: 0 <= i < j < |table| && table[i].token != INVALID ==> table[i].token != table[j].token)
  }

  predicate Inv(s: State) {
    s.current < TOKENS && TokensOk(s.table)
  }

  lemma SlotKeeps(table: seq<Entry>, j: nat, e: Entry)
    requires TokensOk(table) && j < |table| && e.token < TOKENS
    requires e.token == INVALID ==> e == FREE
    requires e.token != INVALID ==> forall i :: 0 <= i < |table| && i != j ==> table[i].token != e.token
    ensures TokensOk(table[j := e])
  {
  }

  lemma FireAllKeeps(table: seq<Entry>, now: nat, invoke: Invoke)
    requires TokensOk(table)
    ensures TokensOk(FireAll(table, now, invoke))
  {
    var t := FireAll(table, now, invoke);
    assert forall i :: 0 <= i < |t| ==> t[i].token == table[i].token || t[i] == FREE;
  }

  lemma DeferKeeps(s: State, delay: nat, callback: Callback, arg: nat, now: nat)
    requires Inv(s)
    ensures var s' := Apply(s, Defer(delay, callback, arg, now)).0; Inv(s') && |s'.table| == |s.table|
  {
    var j := Find(s.table, INVALID, 0);
    AllocatesIffUnused(s.table, s.current);
    if j < |s.table| && CanAllocate(s.table, s.current) {
      SlotKeeps(s.table, j, Entry(NextCurrent(s.table, s.current), (now + delay) % TIME, callback, arg));
    }
  }

  lemma ExtendKeeps(s: State, token: nat, delay: nat, now: nat)
    requires Inv(s)
    ensures var s' := Apply(s, Extend(token, delay, now)).0; Inv(s') && |s'.table| == |s.table|
  {
    var j := Find(s.table, token, 0);
    if token != INVALID && j < |s.table| {
      SlotKeeps(s.table, j, s.table[j].(trigger := (now + delay) % TIME));
    }
  }

  lemma CancelKeeps(s: State, token: nat)
    requires Inv(s)
    ensures var s' := Apply(s, Cancel(token)).0; Inv(s') && |s'.table| == |s.table|
  {
    var j := Find(s.table, token, 0);
    if j < |s.table| {
      SlotKeeps(s.table, j, FREE);
    }
  }

  lemma ApplyKeeps(s: State, op: Op)
    requires Inv(s)
    ensures Inv(Apply(s, op).0) && |Apply(s, op).0.table| == |s.table|
  {
    match op
    case Defer(delay, callback, arg, now) => DeferKeeps(s, delay, callback, arg, now);
    case Extend(token, delay, now) => ExtendKeeps(s, token, delay, now);
    case Cancel(token) => CancelKeeps(s, token);
    case Task(now, invoke) => FireAllKeeps(s.table, now, invoke);
    case Elsewhere(_) =>
  }

  /** Over every run of defer, extend, cancel and task, live tokens are non-zero and pairwise distinct. */
  lemma {:induction false} RunKeepsTokensDistinct(s: State, ops: seq<Op>)
    requires Inv(s)
    ensures Inv(Run(s, ops)) && |Run(s, ops).table| == |s.table|
  {
    if ops != [] {
      RunKeepsTokensDistinct(s, ops[..|ops| - 1]);
      ApplyKeeps(Run(s, ops[..|ops| - 1]), ops[|ops| - 1]);
    }
  }

  /** In any reachable state of a table of at most 255 entries, a defer succeeds exactly when it has a delay, a callback and a free slot, and changes nothing otherwise. */
  lemma DeferSucceedsIffSlotFree(s: State, delay: nat, callback: Callback, arg: nat, now: nat)
    requires Inv(s) && |s.table| < TOKENS
    ensures var (s', token) := Apply(s, Defer(delay, callback, arg, now));
            && (token != INVALID <==> delay > 0 && callback.Callback? && exists i :: 0 <= i < |s.table| && s.table[i].token == INVALID)
            && (token != INVALID ==> Usable(s.table, token))
            && (token == INVALID ==> s' == s)
  {
    var j := Find(s.table, INVALID, 0);
    if j < |s.table| {
      Pigeonhole(s.table, s.current);
      AllocatesIffUnused(s.table, s.current);
    }
  }

  /** The token is the first usable one the counter comes to. */
  predicate NextUsable(table: seq<Entry>, current: nat, token: nat) {
    exists d :: 1 <= d <= TOKENS && token == TokenAt(current, d) && Usable(table, token)
                && forall k :: 1 <= k < d ==> !Usable(table, TokenAt(current, k))
  }

  /** Only entry `i` of the table has changed, to `e`. */
  predicate OnlyEntry(table: seq<Entry>, table': seq<Entry>, i: nat, e: Entry) {
    |table'| == |table| && i < |table| && table'[i] == e && forall k :: 0 <= k < |table| && k != i ==> table'[k] == table[k]
  }

  /** A successful defer puts its callback, argument and trigger time into a free slot under the next usable token, and changes nothing else. */
  lemma DeferStores(s: State, delay: nat, callback: Callback, arg: nat, now: nat) returns (i: nat)
    requires Inv(s) && Apply(s, Defer(delay, callback, arg, now)).1 != INVALID
    ensures var (s', token) := Apply(s, Defer(delay, callback, arg, now));
            && OnlyEntry(s.table, s'.table, i, Entry(token, (now + delay) % TIME, callback, arg)) && s.table[i] == FREE
            && NextUsable(s.table, s.current, token) && 0 < token < TOKENS
            && s'.last == s.last && s'.current == token
  {
    i := Find(s.table, INVALID, 0);
    IncrementsFirst(s.table, s.current, 1);
    AllocatesIffUnused(s.table, s.current);
  }

  /** Extending succeeds exactly for a live token and a delay; it moves the trigger of that entry to the delay from now, and changes nothing else. */
  lemma ExtendMovesTrigger(s: State, token: nat, delay: nat, now: nat)
    requires Inv(s)
    ensures var (s', done) := Apply(s, Extend(token, delay, now));
            && (done == 1 <==> delay > 0 && token != INVALID && exists i :: 0 <= i < |s.table| && s.table[i].token == token)
            && (done != 1 ==> done == 0 && s' == s)
            && (done == 1 ==> s' == s.(table := s'.table))
            && (done == 1 ==> exists i :: 0 <= i < |s.table| && s.table[i].token == token
                                          && OnlyEntry(s.table, s'.table, i, s.table[i].(trigger := (now + delay) % TIME)))
  {
    var j := Find(s.table, token, 0);
    if delay > 0 && token != INVALID && j < |s.table| {
      var s' := Apply(s, Extend(token, delay, now)).0;
      assert OnlyEntry(s.table, s'.table, j, s.table[j].(trigger := (now + delay) % TIME));
    }
  }

  /** Cancelling succeeds exactly for a live token; it blanks that entry and changes nothing else. */
  lemma CancelBlanks(s: State, token: nat)
    requires Inv(s)
    ensures var (s', done) := Apply(s, Cancel(token));
            && (done == 1 <==> token != INVALID && exists i :: 0 <= i < |s.table| && s.table[i].token == token)
            && (done != 1 ==> done == 0 && s' == s)
            && (done == 1 ==> s' == s.(table := s'.table))
            && (done == 1 ==> exists i :: 0 <= i < |s.table| && s.table[i].token == token && OnlyEntry(s.table, s'.table, i, FREE))
  {
    var j := Find(s.table, token, 0);
    if token != INVALID && j < |s.table| {
      assert OnlyEntry(s.table, Apply(s, Cancel(token)).0.table, j, FREE);
    }
  }

  /** Cancelling the token a defer returned gives back the table as it was before the defer. */
  lemma CancelUndoesDefer(s: State, delay: nat, callback: Callback, arg: nat, now: nat)
    requires Inv(s)
    requires Apply(s, Defer(delay, callback, arg, now)).1 != INVALID
    ensures var (s', token) := Apply(s, Defer(delay, callback, arg, now));
            Apply(s', Cancel(token)).1 == 1 && Apply(s', Cancel(token)).0.table == s.table
  {
    var (s', token) := Apply(s, Defer(delay, callback, arg, now));
    AllocatesIffUnused(s.table, s.current);
    var j := Find(s.table, INVALID, 0);
    var k := Find(s'.table, token, 0);
    assert s'.table[j].token == token;
    assert forall i :: 0 <= i < |s.table| && i != j ==> s'.table[i].token == s.table[i].token;
    assert s'.table[j := FREE] == s.table;
  }

  // ---- what fires, and when ----

  /** The callbacks invoked so far, latest on the outside. */
  datatype Firings = Quiet | Fired(past: Firings, entry: Entry)

  /** The firings of the first `n` entries in a run of the task, after `f`. */
  function FireTrace(f: Firings, table: seq<Entry>, now: nat, n: nat): Firings
    requires n <= |table|
  {
    if n == 0 then f
    else
      var before := FireTrace(f, table, now, n - 1);
      if Due(table[n - 1], now) then Fired(before, table[n - 1]) else before
  }

  /** All firings of a run. */
  function Trace(s: State, ops: seq<Op>): Firings {
    if ops == [] then Quiet
    else
      var n := |ops| - 1;
      var before := Trace(s, ops[..n]);
      var t := Run(s, ops[..n]);
      if ops[n].Task? && SignedDiff(ops[n].now, t.last) > 0 then FireTrace(before, t.table, ops[n].now, |t.table|) else before
  }

  /** The entries that fired under `token`: with what trigger time, callback and argument. */
  function Of(f: Firings, token: nat): seq<Entry> {
    match f
    case Quiet => []
    case Fired(past, e) => if e.token == token then Of(past, token) + [e] else Of(past, token)
  }

  /** A due entry fires once in a run of the task, and no other entry fires under its token. */
  lemma {:induction false} FiresOnce(f: Firings, table: seq<Entry>, now: nat, n: nat, i: nat)
    requires n <= |table| && TokensOk(table) && i < |table| && table[i].token != INVALID
    ensures Of(FireTrace(f, table, now, n), table[i].token) ==
            if i < n && Due(table[i], now) then Of(f, table[i].token) + [table[i]] else Of(f, table[i].token)
  {
    if n > 0 {
      FiresOnce(f, table, now, n - 1, i);
      if n - 1 != i {
        TokensDiffer(table, i, n - 1);
      }
    }
  }

  lemma TokensDiffer(table: seq<Entry>, i: nat, j: nat)
    requires TokensOk(table) && i < |table| && j < |table| && i != j && table[i].token != INVALID
    ensures table[i].token != table[j].token
  {
    if j < i && table[j].token != INVALID {
      assert table[j].token != table[i].token;
    }
  }

  /** One entry on its own: what it has become, as what it fired, and the delays its callback returned. */
  datatype Life = Life(entry: Entry, fired: seq<Entry>, delays: seq<nat>)

  function Lived(s: State, i: nat, ops: seq<Op>): Life
    requires i < |s.table|
  {
    if ops == [] then Life(s.table[i], [], [])
    else
      var n := |ops| - 1;
      var l := Lived(s, i, ops[..n]);
      if ops[n].Task? && SignedDiff(ops[n].now, Run(s, ops[..n]).last) > 0 then LiveOn(l, ops[n].now, ops[n].invoke) else l
  }

  /** A run of the task in an entry's life. */
  function LiveOn(l: Life, now: nat, invoke: Invoke): Life {
    if Due(l.entry, now) then
      Life(Fire(l.entry, now, invoke), l.fired + [l.entry], l.delays + [invoke(l.entry.callback, l.entry.trigger, l.entry.arg)])
    else l
  }

  /** The entry as deferred, with the trigger it has after its callback returned the delays `ds`. */
  function Later(e: Entry, ds: seq<nat>): Entry {
    e.(trigger := (e.trigger + Sum(ds)) % TIME)
  }

  /** A life: each firing is that of the entry with the delays returned before added to its trigger, and the entry is blank
      once its callback has returned 0, and not before. */
  predicate Timely(e: Entry, l: Life, k: nat) {
    && |l.fired| == |l.delays|
    && l.entry == (if l.delays != [] && l.delays[|l.delays| - 1] == 0 then FREE else Later(e, l.delays))
    && (k < |l.fired| ==> l.fired[k] == Later(e, l.delays[..k]))
    && (k + 1 < |l.delays| ==> l.delays[k] > 0)
  }

  function Sum(ds: seq<nat>): nat {
    if ds == [] then 0 else Sum(ds[..|ds| - 1]) + ds[|ds| - 1]
  }

  /** The entry with this token is live until the last operation at least, and no operation names its token. */
  predicate LeftAlone(s: State, i: nat, ops: seq<Op>)
    requires i < |s.table|
  {
    ops == [] ||
    (var n := |ops| - 1;
     && LeftAlone(s, i, ops[..n])
     && Lived(s, i, ops[..n]).entry.token == s.table[i].token
     && (ops[n].Extend? || ops[n].Cancel? ==> ops[n].token != s.table[i].token))
  }

  /** An operation leaves a live entry that it does not name alone, unless it is a task, which fires it if it is due. */
  lemma ApplyOnSlot(s: State, op: Op, i: nat)
    requires Inv(s) && i < |s.table| && s.table[i].token != INVALID
    requires op.Extend? || op.Cancel? ==> op.token != s.table[i].token
    ensures |Apply(s, op).0.table| == |s.table|
    ensures Apply(s, op).0.table[i] ==
            if op.Task? && SignedDiff(op.now, s.last) > 0 then Fire(s.table[i], op.now, op.invoke) else s.table[i]
  {
  }

  /** In the table the entry lives as it does on its own, and the firings under its token are its own. */
  lemma {:induction false} SlotLives(s: State, i: nat, ops: seq<Op>)
    requires Inv(s) && i < |s.table| && s.table[i].token != INVALID && LeftAlone(s, i, ops)
    ensures |Run(s, ops).table| == |s.table| && Run(s, ops).table[i] == Lived(s, i, ops).entry
    ensures Of(Trace(s, ops), s.table[i].token) == Lived(s, i, ops).fired
  {
    RunKeepsTokensDistinct(s, ops);
    if ops != [] {
      var n := |ops| - 1;
      SlotLives(s, i, ops[..n]);
      RunKeepsTokensDistinct(s, ops[..n]);
      var t := Run(s, ops[..n]);
      ApplyOnSlot(t, ops[n], i);
      if ops[n].Task? && SignedDiff(ops[n].now, t.last) > 0 {
        FiresOnce(Trace(s, ops[..n]), t.table, ops[n].now, |t.table|, i);
      }
    }
  }

  lemma {:induction false} LifeTimes(s: State, i: nat, ops: seq<Op>, k: nat)
    requires i < |s.table| && s.table[i].token != INVALID && s.table[i].trigger < TIME
    ensures Timely(s.table[i], Lived(s, i, ops), k)
  {
    if ops != [] {
      var n := |ops| - 1;
      LifeTimes(s, i, ops[..n], k);
      if ops[n].Task? {
        LivesOnTimely(s.table[i], Lived(s, i, ops[..n]), ops[n].now, ops[n].invoke, k);
      }
    } else {
      ModSmall(s.table[i].trigger);
    }
  }

  lemma LivesOnTimely(e: Entry, l: Life, now: nat, invoke: Invoke, k: nat)
    requires Timely(e, l, k)
    ensures Timely(e, LiveOn(l, now, invoke), k)
  {
    if Due(l.entry, now) {
      FiredOnceMore(e, l, invoke(l.entry.callback, l.entry.trigger, l.entry.arg), k);
    }
  }

  lemma ModSmall(t: nat)
    requires t < TIME
    ensures t % TIME == t
  {
  }

  lemma FiredOnceMore(e: Entry, l: Life, delay: nat, k: nat)
    requires Timely(e, l, k) && l.entry.token != INVALID
    ensures var ds := l.delays + [delay];
            && l.entry.(trigger := (l.entry.trigger + delay) % TIME) == Later(e, ds)
            && (k <= |l.fired| ==> (l.fired + [l.entry])[k] == Later(e, ds[..k]))
            && (k + 1 < |ds| ==> ds[k] > 0)
  {
    var ds := l.delays + [delay];
    assert ds[..|l.delays|] == l.delays;
    assert l.entry == Later(e, l.delays);
    if k < |l.fired| {
      assert ds[..k] == l.delays[..k];
    }
  }

  /** The firings of an entry whose callback returns the delays `ds` one after the other. */
  function Schedule(e: Entry, ds: seq<nat>): (fs: seq<Entry>)
    ensures |fs| == |ds|
  {
    seq(|ds|, k requires 0 <= k < |ds| => Later(e, ds[..k]))
  }

  lemma LifeOnSchedule(s: State, i: nat, ops: seq<Op>)
    requires i < |s.table| && s.table[i].token != INVALID && s.table[i].trigger < TIME
    ensures var l := Lived(s, i, ops); l.fired == Schedule(s.table[i], l.delays)
  {
    var l := Lived(s, i, ops);
    LifeTimes(s, i, ops, 0);
    forall k | 0 <= k < |l.fired|
      ensures l.fired[k] == Later(s.table[i], l.delays[..k])
    {
      LifeTimes(s, i, ops, k);
    }
  }

  /**
   Over every run that leaves an entry alone, its firings invoke its callback with its argument and carry its trigger time
   plus the delays the callback returned before, modulo 2^32: late tasks do not make it drift.
   */
  lemma FiringTimes(s: State, i: nat, ops: seq<Op>)
    requires Inv(s) && i < |s.table| && s.table[i].token != INVALID && s.table[i].trigger < TIME && LeftAlone(s, i, ops)
    ensures Of(Trace(s, ops), s.table[i].token) == Schedule(s.table[i], Lived(s, i, ops).delays)
  {
    SlotLives(s, i, ops);
    LifeOnSchedule(s, i, ops);
  }

  /** Over such a run the slot is blank once the callback has returned 0, and until then holds the entry with its trigger moved on. */
  lemma LivesUntilZero(s: State, i: nat, ops: seq<Op>)
    requires Inv(s) && i < |s.table| && s.table[i].token != INVALID && s.table[i].trigger < TIME && LeftAlone(s, i, ops)
    ensures var ds := Lived(s, i, ops).delays;
            && |Run(s, ops).table| == |s.table|
            && Run(s, ops).table[i] == (if ds != [] && ds[|ds| - 1] == 0 then FREE else Later(s.table[i], ds))
            && (forall k :: 0 <= k < |ds| - 1 ==> ds[k] > 0)
  {
    var ds := Lived(s, i, ops).delays;
    SlotLives(s, i, ops);
    LifeTimes(s, i, ops, 0);
    forall k | 0 <= k < |ds| - 1
      ensures ds[k] > 0
    {
      LifeTimes(s, i, ops, k);
    }
  }

  // ---- from the call ----

  /** Every task of the run comes at some time from `from` up to but not including `to`. */
  predicate TasksWithin(ops: seq<Op>, from: nat, to: nat) {
    forall n :: 0 <= n < |ops| && ops[n].Task? ==> exists t: nat :: from <= t < to && ops[n].now == t % TIME
  }

  /** An entry set to fire `delay` from `start`, for a delay below 2^31, is left as it is by every run whose tasks all come before that. */
  lemma {:induction false} NotBefore(s: State, i: nat, ops: seq<Op>, start: nat, delay: nat)
    requires i < |s.table| && s.table[i].trigger == (start + delay) % TIME && s.table[i].token != INVALID && 0 < delay < TIME / 2
    requires TasksWithin(ops, start, start + delay)
    ensures Lived(s, i, ops) == Life(s.table[i], [], [])
  {
    if ops != [] {
      var n := |ops| - 1;
      NotBefore(s, i, ops[..n], start, delay);
      if ops[n].Task? {
        var t: nat :| start <= t < start + delay && ops[n].now == t % TIME;
        var e := s.table[i];
        NeverEarlyIff(start, delay, e.token, e.callback, e.arg);
        assert e == Entry(e.token, (start + delay) % TIME, e.callback, e.arg);
      }
    }
  }

  /** Entry `i` is set to fire `delay` from `start`. */
  predicate SetFor(s: State, i: nat, start: nat, delay: nat) {
    i < |s.table| && s.table[i].token != INVALID && s.table[i].trigger == (start + delay) % TIME
  }

  /** The first task behind that time, less than 2^31 late, fires it, and once. */
  lemma FiresAt(s: State, i: nat, ops: seq<Op>, start: nat, delay: nat, t: nat, invoke: Invoke)
    requires Inv(s) && SetFor(s, i, start, delay) && 0 < delay < TIME / 2 && LeftAlone(s, i, ops)
    requires TasksWithin(ops, start, start + delay) && start + delay <= t <= start + delay + TIME / 2
    requires SignedDiff(t % TIME, Run(s, ops).last) > 0
    ensures Of(Trace(s, ops + [Task(t % TIME, invoke)]), s.table[i].token) == [s.table[i]]
  {
    var all := ops + [Task(t % TIME, invoke)];
    assert all[..|ops|] == ops && all[|ops|] == Task(t % TIME, invoke);
    NotBefore(s, i, ops, start, delay);
    var e := s.table[i];
    DueWhenElapsed(start, delay, t, e.token, e.callback, e.arg);
    assert e == Entry(e.token, (start + delay) % TIME, e.callback, e.arg);
    SlotLives(s, i, all);
  }

  /** Over every run that leaves it alone the firings are those of the entry as it is, the first with that trigger; and none comes too early. */
  lemma FiresAsSet(s: State, i: nat, ops: seq<Op>, start: nat, delay: nat)
    requires Inv(s) && SetFor(s, i, start, delay) && delay > 0 && LeftAlone(s, i, ops)
    ensures var fired := Of(Trace(s, ops), s.table[i].token);
            && fired == Schedule(s.table[i], Lived(s, i, ops).delays)
            && (fired != [] ==> fired[0] == s.table[i])
            && (delay < TIME / 2 && TasksWithin(ops, start, start + delay) ==> fired == [])
  {
    FiringTimes(s, i, ops);
    if Lived(s, i, ops).delays != [] {
      FirstOnSchedule(s.table[i], Lived(s, i, ops).delays);
    }
    if delay < TIME / 2 && TasksWithin(ops, start, start + delay) {
      NotBefore(s, i, ops, start, delay);
    }
  }

  lemma FirstOnSchedule(e: Entry, ds: seq<nat>)
    requires e.trigger < TIME && ds != []
    ensures Schedule(e, ds)[0] == e
  {
    assert ds[..0] == [];
    ModSmall(e.trigger);
  }

  /**
   From the call of a successful defer at `start` on: over every later run that leaves the token alone, the firings under
   it invoke the callback given with the argument given, the first with trigger `start + delay` modulo 2^32; and for a
   delay below 2^31 nothing fires under it while every task comes before `start + delay`.
   */
  lemma DeferredFires(s: State, delay: nat, callback: Callback, arg: nat, start: nat, ops: seq<Op>) returns (i: nat)
    requires Inv(s) && Apply(s, Defer(delay, callback, arg, start)).1 != INVALID
    ensures var (s', token) := Apply(s, Defer(delay, callback, arg, start));
            && Inv(s') && delay > 0 && SetFor(s', i, start, delay)
            && s'.table[i] == Entry(token, (start + delay) % TIME, callback, arg)
            && (LeftAlone(s', i, ops) ==>
                  var fired := Of(Trace(s', ops), token);
                  && fired == Schedule(s'.table[i], Lived(s', i, ops).delays)
                  && (fired != [] ==> fired[0] == s'.table[i])
                  && (delay < TIME / 2 && TasksWithin(ops, start, start + delay) ==> fired == []))
  {
    i := DeferStores(s, delay, callback, arg, start);
    var (s', token) := Apply(s, Defer(delay, callback, arg, start));
    DeferKeeps(s, delay, callback, arg, start);
    if LeftAlone(s', i, ops) {
      FiresAsSet(s', i, ops, start, delay);
    }
  }

  /** In real time: a task within 2^31 ms of the last one that ran runs exactly when its time is later, and then sets `last`. */
  lemma RunsOncePerMillisecond(s: State, before: nat, t: nat, invoke: Invoke)
    requires s.last == before % TIME && before <= t < before + TIME / 2
    ensures Apply(s, Task(t % TIME, invoke)).0 == if t == before then s else State(FireAll(s.table, t % TIME, invoke), s.current, t % TIME)
  {
    DiffOfSum(before, t - before, before);
  }

  // ---- the array ----

  /** The token counter, shared by every table. */
  class TokenCounter {
    var current: nat

    constructor ()
      ensures current == 0
    {
      current := 0;
    }
  }

  class Executor {
    const table: array<Entry>
    const counter: TokenCounter
    var last: nat
    /** The callbacks invoked. */
    var fired: Firings

    ghost predicate Valid()
      reads counter
    {
      counter.current < TOKENS
    }

    ghost function Abs(): State
      reads this, table, counter
    {
      State(table[..], counter.current, last)
    }

    constructor (count: nat, counter: TokenCounter)
      requires counter.current < TOKENS
      ensures Valid() && table.Length == count && fresh(table) && this.counter == counter && Inv(Abs()) && fired == Quiet
    {
      table := new Entry[count](_ => FREE);
      this.counter := counter;
      last := 0;
      fired := Quiet;
    }

    /** `token_can_be_used`. */
    method CanBeUsed(token: nat) returns (ok: bool)
      ensures ok == Usable(table[..], token)
    {
      if token == INVALID {
        return false;
      }
      for i := 0 to table.Length
        invariant forall k :: 0 <= k < i ==> table[k].token != token
      {
        if table[i].token == token {
          return false;
        }
      }
      return true;
    }

    /** One turn of the loop of `allocate_token`; `full` when the search has gone round. */
    method TryNext(first: nat, ghost from: nat, ghost d: nat) returns (full: bool, ok: bool)
      requires Valid() && 1 <= d <= TOKENS && counter.current == TokenAt(from, d) && first == TokenAt(from, 1)
      requires !Usable(table[..], counter.current)
      modifies counter
      ensures Valid() && counter.current == TokenAt(from, d + 1)
      ensures Increments(table[..], from, d) == Increments(table[..], from, d + 1)
      ensures full <==> d == TOKENS
      ensures !full ==> ok == Usable(table[..], counter.current)
    {
      NextToken(from, d);
      Passed(table[..], from, d);
      WrapsOnce(from, d + 1);
      counter.current := (counter.current + 1) % TOKENS;
      full := counter.current == first;
      ok := false;
      if !full {
        ok := CanBeUsed(counter.current);
      }
    }

    /** `allocate_token`. */
    method AllocateToken() returns (token: nat)
      requires Valid()
      modifies counter
      ensures Valid()
      ensures counter.current == NextCurrent(table[..], old(counter.current))
      ensures token == if CanAllocate(table[..], old(counter.current)) then counter.current else INVALID
    {
      ghost var from, d := counter.current, 1;
      ghost var goal := Increments(table[..], from, 1);
      counter.current := (counter.current + 1) % TOKENS;
      var first := counter.current;
      var ok := CanBeUsed(counter.current);
      while !ok
        invariant Valid() && 1 <= d <= TOKENS && counter.current == TokenAt(from, d) && first == TokenAt(from, 1)
        invariant ok == Usable(table[..], counter.current) && Increments(table[..], from, d) == goal
        decreases TOKENS - d, !ok
      {
        var full;
        full, ok := TryNext(first, from, d);
        d := d + 1;
        if full {
          SearchEnds(table[..], from, d);
          return INVALID;
        }
      }
      SearchEnds(table[..], from, d);
      return counter.current;
    }

    /** `defer_exec_advanced`. */
    method DeferExec(delay: nat, callback: Callback, arg: nat, now: nat) returns (token: nat)
      requires Valid()
      modifies counter, table
      ensures Valid() && (Abs(), token) == Apply(old(Abs()), Defer(delay, callback, arg, now))
    {
      if table.Length == 0 || delay == 0 || callback.Null? {
        return INVALID;
      }
      for i := 0 to table.Length
        invariant Valid() && Abs() == old(Abs())
        invariant Find(table[..], INVALID, 0) == Find(table[..], INVALID, i)
      {
        if table[i].token == INVALID {
          token := AllocateToken();
          if token == INVALID {
            AllocatesIffUnused(table[..], old(counter.current));
            return;
          }
          table[i] := Entry(counter.current, (now + delay) % TIME, callback, arg);
          return counter.current;
        }
      }
      return INVALID;
    }

    /** `extend_deferred_exec_advanced`. */
    method ExtendExec(token: nat, delay: nat, now: nat) returns (done: bool)
      requires Valid()
      modifies table
      ensures Valid() && (Abs(), if done then 1 else 0) == Apply(old(Abs()), Extend(token, delay, now))
    {
      if table.Length == 0 || delay == 0 || token == INVALID {
        return false;
      }
      for i := 0 to table.Length
        invariant Abs() == old(Abs())
        invariant Find(table[..], token, 0) == Find(table[..], token, i)
      {
        if table[i].token == token {
          table[i] := table[i].(trigger := (now + delay) % TIME);
          return true;
        }
      }
      return false;
    }

    /** `cancel_deferred_exec_advanced`. */
    method CancelExec(token: nat) returns (done: bool)
      requires Valid()
      modifies table
      ensures Valid() && (Abs(), if done then 1 else 0) == Apply(old(Abs()), Cancel(token))
    {
      if table.Length == 0 || token == INVALID {
        return false;
      }
      for i := 0 to table.Length
        invariant Abs() == old(Abs())
        invariant Find(table[..], token, 0) == Find(table[..], token, i)
      {
        if table[i].token == token {
          table[i] := FREE;
          return true;
        }
      }
      return false;
    }

    /** `deferred_exec_advanced_task`. */
    method RunTask(now: nat, invoke: Invoke)
      requires Valid()
      modifies this`last, this`fired, table
      ensures Valid() && Abs() == Apply(old(Abs()), Task(now, invoke)).0
      ensures fired == if SignedDiff(now, old(last)) > 0 then FireTrace(old(fired), old(table[..]), now, table.Length) else old(fired)
    {
      if SignedDiff(now, last) <= 0 {
        return;
      }
      last := now;
      for i := 0 to table.Length
        invariant counter.current == old(counter.current) && last == now
        invariant fired == FireTrace(old(fired), old(table[..]), now, i)
        invariant forall k :: 0 <= k < i ==> table[k] == Fire(old(table[..])[k], now, invoke)
        invariant forall k :: i <= k < table.Length ==> table[k] == old(table[..])[k]
      {
        var e := table[i];
        if e.token != INVALID && SignedDiff(e.trigger, now) <= 0 {
          var delay := invoke(e.callback, e.trigger, e.arg);
          fired := Fired(fired, e);
          table[i] := if delay > 0 then e.(trigger := (e.trigger + delay) % TIME) else FREE;
        }
      }
    }
  }

  lemma Passed(table: seq<Entry>, current: nat, d: nat)
    requires 1 <= d <= TOKENS && !Usable(table, TokenAt(current, d))
    ensures Increments(table, current, d) == Increments(table, current, d + 1)
  {
  }

  /** The search ends at the `d`-th increment, because its token is usable or because it has gone round. */
  lemma SearchEnds(table: seq<Entry>, current: nat, d: nat)
    requires 1 <= d <= TOKENS + 1 && Increments(table, current, 1) == Increments(table, current, d)
    requires d <= TOKENS ==> Usable(table, TokenAt(current, d))
    ensures NextCurrent(table, current) == TokenAt(current, d)
    ensures CanAllocate(table, current) <==> d <= TOKENS
  {
  }

  lemma NextToken(current: nat, d: nat)
    ensures TokenAt(current, d + 1) == (TokenAt(current, d) + 1) % TOKENS
  {
  }

  lemma WrapsOnce(current: nat, d: nat)
    requires 1 < d <= TOKENS + 1
    ensures TokenAt(current, d) == TokenAt(current, 1) <==> d == TOKENS + 1
    ensures TokenAt(current, d) < TOKENS
  {
  }
}
