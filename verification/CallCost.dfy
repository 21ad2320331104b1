/** Inclusive costs of call arcs (callgrind/callstack.c, events.c, dump.c): cost is moved into an
arc when a call returns and when a dump is taken, and zeroed when printed. */
module CallCost {
  import opened SortedList
  import opened ShadowStack
  import opened Words

  type Cost = seq<nat>

  predicate IsCost(c: Cost, events: nat) {
    |c| == events && forall e :: 0 <= e < |c| ==> c[e] < WORD64
  }

  function ZeroCost(events: nat): (c: Cost)
    ensures IsCost(c, events) && forall e :: 0 <= e < events ==> c[e] == 0
  {
    seq(events, e => 0)
  }

  function AddedDiff(dst: nat, old_: nat, now: nat): (r: nat)
    ensures r < WORD64
  {
    (dst + now - old_) % WORD64
  }

  /** add_diff_cost: the difference of two counter vectors added to a third. */
  function AddDiff(dst: Cost, old_: Cost, now: Cost): (r: Cost)
    requires |dst| == |old_| == |now|
    ensures IsCost(r, |dst|) && forall e :: 0 <= e < |dst| ==> r[e] == AddedDiff(dst[e], old_[e], now[e])
  {
    seq(|dst|, e requires 0 <= e < |dst| => AddedDiff(dst[e], old_[e], now[e]))
  }

  lemma SameDiff(dst: nat, now: nat)
    requires dst < WORD64
    ensures AddedDiff(dst, now, now) == dst
  {
  }

  /** add_diff_cost_lz, whose loop skips equal counters: the new sum, the old vector brought up to
      date, and whether anything changed. */
  method AddDiffCost(dst: Cost, old_: Cost, now: Cost) returns (sum: Cost, old': Cost, changed: bool)
    requires IsCost(dst, |now|) && IsCost(old_, |now|) && IsCost(now, |now|)
    ensures sum == AddDiff(dst, old_, now) && old' == now
    ensures changed <==> old_ != now
  {
    sum, old', changed := dst, old_, false;
    var i := 0;
    while i < |now|
      invariant 0 <= i <= |now| == |sum| == |old'|
      invariant forall e :: 0 <= e < i ==> sum[e] == AddedDiff(dst[e], old_[e], now[e]) && old'[e] == now[e]
      invariant forall e :: i <= e < |now| ==> sum[e] == dst[e] && old'[e] == old_[e]
      invariant changed <==> exists e :: 0 <= e < i && old_[e] != now[e]
    {
      if now[i] == old'[i] {
        SameDiff(dst[i], now[i]);
      } else {
        sum := sum[i := AddedDiff(sum[i], old'[i], now[i])];
        old' := old'[i := now[i]];
        changed := true;
      }
      i := i + 1;
    }
    assert sum == AddDiff(dst, old_, now);
  }

  /** is_zero_cost */
  method IsZeroCost(c: Cost) returns (zero: bool)
    ensures zero <==> c == ZeroCost(|c|)
  {
    var i := 0;
    while i < |c|
      invariant 0 <= i <= |c|
      invariant forall e :: 0 <= e < i ==> c[e] == 0
    {
      if c[i] != 0 { return false; }
      i := i + 1;
    }
    return true;
  }

  // ---------------------------------------------------------------- the account

  /** A frame and the counters when it was entered, or last brought up to date. */
  datatype Open = Open(arc: Option<Arc>, enter: Cost)

  /** `held` and `calls` are the arc's own counters; `printed` and `printedCalls` what dumps have
      written for it so far. */
  datatype Account = Account(
    events: nat, now: Cost, stack: seq<Open>, held: map<Arc, Cost>, calls: map<Arc, nat>,
    printed: map<Arc, seq<nat>>, printedCalls: map<Arc, nat>) {

    function Held(a: Arc): Cost { if a in held then held[a] else ZeroCost(events) }
    function Calls(a: Arc): nat { if a in calls then calls[a] else 0 }
    function Printed(a: Arc): seq<nat> { if a in printed then printed[a] else ZeroCost(events) }
    function PrintedCalls(a: Arc): nat { if a in printedCalls then printedCalls[a] else 0 }

    ghost predicate Wf() {
      && IsCost(now, events)
      && (forall i :: 0 <= i < |stack| ==> IsCost(stack[i].enter, events))
      && (forall a :: a in held ==> IsCost(held[a], events))
      && (forall a :: a in printed ==> |printed[a]| == events)
    }
  }

  datatype Op = Spend(delta: seq<nat>) | Push(arc: Option<Arc>) | Pop | AddActive | Print(a: Arc)

  ghost predicate Fits(acc: Account, op: Op) {
    match op
    case Spend(delta) => |delta| == acc.events
    case Pop => acc.stack != []
    case _ => true
  }

  function Plus(x: Cost, y: seq<nat>): (r: Cost)
    requires |x| == |y|
    ensures IsCost(r, |x|) && forall e :: 0 <= e < |x| ==> r[e] == (x[e] + y[e]) % WORD64
  {
    seq(|x|, e requires 0 <= e < |x| => (x[e] + y[e]) % WORD64)
  }

  function Sum(x: seq<nat>, y: seq<nat>): (r: seq<nat>)
    requires |x| == |y|
    ensures |r| == |x| && forall e :: 0 <= e < |x| ==> r[e] == x[e] + y[e]
  {
    seq(|x|, e requires 0 <= e < |x| => x[e] + y[e])
  }

  /** A frame's cost since it was entered, moved into its arc. */
  function Settle(acc: Account, f: Open): (r: Account)
    requires acc.Wf() && |f.enter| == acc.events
    ensures r.Wf()
  {
    if f.arc.None? then acc
    else acc.(held := acc.held[f.arc.value := AddDiff(acc.Held(f.arc.value), f.enter, acc.now)])
  }

  function SettleAt(acc: Account, k: nat): (r: Account)
    requires acc.Wf() && k < |acc.stack|
    ensures r.Wf() && r.now == acc.now && |r.stack| == |acc.stack| && r.events == acc.events
    ensures forall i :: k < i < |acc.stack| ==> r.stack[i] == acc.stack[i]
  {
    var f := acc.stack[k];
    if f.arc.None? then acc else Settle(acc, f).(stack := acc.stack[k := f.(enter := acc.now)])
  }

  /** cs_addCount: every active frame is settled, bottom first, and starts afresh. */
  function SettleFirst(acc: Account, n: nat): (r: Account)
    requires acc.Wf() && n <= |acc.stack|
    ensures r.Wf() && r.now == acc.now && |r.stack| == |acc.stack| && r.events == acc.events
    ensures forall i :: n <= i < |acc.stack| ==> r.stack[i] == acc.stack[i]
  {
    if n == 0 then acc
    else SettleAt(SettleFirst(acc, n - 1), n - 1)
  }

  /** fprint_jcc: an arc with cost is written out and starts again from zero; one without is not
      touched. */
  function PrintArc(acc: Account, a: Arc): (r: Account)
    requires acc.Wf()
    ensures r.Wf()
  {
    if acc.Held(a) == ZeroCost(acc.events) then acc
    else
      acc.(printed := acc.printed[a := Sum(acc.Printed(a), acc.Held(a))],
           printedCalls := acc.printedCalls[a := acc.PrintedCalls(a) + acc.Calls(a)],
           held := acc.held[a := ZeroCost(acc.events)], calls := acc.calls[a := 0])
  }

  function Apply(acc: Account, op: Op): (r: Account)
    requires acc.Wf() && Fits(acc, op)
    ensures r.Wf() && r.events == acc.events
  {
    match op
    case Spend(delta) => acc.(now := Plus(acc.now, delta))
    case Push(arc) =>
      acc.(stack := acc.stack + [Open(arc, if arc.Some? then acc.now else ZeroCost(acc.events))],
           calls := if arc.Some? then acc.calls[arc.value := acc.Calls(arc.value) + 1] else acc.calls)
    case Pop => Settle(acc, Last(acc.stack)).(stack := Init(acc.stack))
    case AddActive => SettleFirst(acc, |acc.stack|)
    case Print(a) => PrintArc(acc, a)
  }

  // ---------------------------------------------------------------- conservation

  predicate Is(f: Open, a: Arc) { f.arc == Some(a) }

  /** What one frame has not yet added to an arc's counter. */
  function Due(f: Open, now: int, a: Arc, e: nat): int
    requires e < |f.enter|
  {
    if Is(f, a) then now - f.enter[e] else 0
  }

  /** Cost of the active calls of an arc that is not in the arc's counter yet. */
  function Owed(stack: seq<Open>, now: int, a: Arc, e: nat): int
    requires forall i :: 0 <= i < |stack| ==> e < |stack[i].enter|
  {
    if stack == [] then 0
    else Owed(Init(stack), now, a, e) + Due(Last(stack), now, a, e)
  }

  function Active(stack: seq<Open>, a: Arc): nat {
    if stack == [] then 0 else Active(Init(stack), a) + if Is(Last(stack), a) then 1 else 0
  }

  /** Printed so far, plus held by the arc, plus owed by its active calls. */
  ghost function Total(acc: Account, a: Arc, e: nat): int
    requires acc.Wf() && e < acc.events
  {
    acc.Printed(a)[e] + acc.Held(a)[e] + Owed(acc.stack, acc.now[e], a, e)
  }

  lemma {:induction false} OwedLater(stack: seq<Open>, now: int, t: int, a: Arc, e: nat)
    requires forall i :: 0 <= i < |stack| ==> e < |stack[i].enter|
    ensures Owed(stack, now + t, a, e) == Owed(stack, now, a, e) + t * Active(stack, a)
  {
    if stack != [] {
      OwedLater(Init(stack), now, t, a, e);
      assert t * (Active(Init(stack), a) + 1) == t * Active(Init(stack), a) + t;
    }
  }

  /** Spending charges every active call of the arc. */
  lemma SpendTotal(acc: Account, delta: seq<nat>, a: Arc, e: nat)
    requires acc.Wf() && |delta| == acc.events && e < acc.events
    ensures Congruent(Total(Apply(acc, Spend(delta)), a, e), Total(acc, a, e) + delta[e] * Active(acc.stack, a))
  {
    var now, d, n := acc.now[e], delta[e], Active(acc.stack, a);
    var q := (now + d) / WORD64;
    assert Apply(acc, Spend(delta)).now[e] == now + (d - q * WORD64);
    OwedLater(acc.stack, now, d - q * WORD64, a, e);
    Spread(d, q, n);
    Wraps(Total(acc, a, e) + d * n - (q * n) * WORD64, q * n);
  }

  lemma Spread(d: int, q: int, n: int)
    ensures (d - q * WORD64) * n == d * n - (q * n) * WORD64
  {
  }

  lemma SettleTotal(acc: Account, f: Open, a: Arc, e: nat)
    requires acc.Wf() && |f.enter| == acc.events && e < acc.events
    ensures Settle(acc, f).Printed(a) == acc.Printed(a)
    ensures Congruent(Settle(acc, f).Held(a)[e], acc.Held(a)[e] + Due(f, acc.now[e], a, e))
  {
    hide Congruent;
    var x: int := acc.Held(a)[e];
    ReduceCongruent(x + Due(f, acc.now[e], a, e));
    Wraps(x, 0);
  }

  lemma PopTotal(acc: Account, a: Arc, e: nat)
    requires acc.Wf() && acc.stack != [] && e < acc.events
    ensures Congruent(Total(Apply(acc, Pop), a, e), Total(acc, a, e))
  {
    hide Congruent, Due, Settle;
    var f, b := Last(acc.stack), Settle(acc, Last(acc.stack));
    SettleTotal(acc, f, a, e);
    SettleKeeps(acc, f);
    var rest: int := acc.Printed(a)[e] + Owed(Init(acc.stack), acc.now[e], a, e);
    CongruentShift(b.Held(a)[e], acc.Held(a)[e] + Due(f, acc.now[e], a, e), rest);
  }

  lemma {:induction false} OwedUpdate(stack: seq<Open>, k: nat, f: Open, now: int, a: Arc, e: nat)
    requires k < |stack| && e < |f.enter| && f.arc == stack[k].arc
    requires forall i :: 0 <= i < |stack| ==> e < |stack[i].enter|
    ensures Owed(stack[k := f], now, a, e) == Owed(stack, now, a, e) + Due(f, now, a, e) - Due(stack[k], now, a, e)
  {
    var s := stack[k := f];
    if k == |stack| - 1 {
      assert Init(s) == Init(stack);
    } else {
      assert Init(s) == Init(stack)[k := f];
      OwedUpdate(Init(stack), k, f, now, a, e);
    }
  }

  lemma SettleAtTotal(acc: Account, k: nat, a: Arc, e: nat)
    requires acc.Wf() && k < |acc.stack| && e < acc.events
    ensures Congruent(Total(SettleAt(acc, k), a, e), Total(acc, a, e))
  {
    hide Congruent, Owed, Settle;
    var f, now := acc.stack[k], acc.now[e];
    if f.arc.Some? {
      SettleTotal(acc, f, a, e);
      OwedUpdate(acc.stack, k, f.(enter := acc.now), now, a, e);
      var rest: int := acc.Printed(a)[e] + Owed(acc.stack, now, a, e) - Due(f, now, a, e);
      CongruentShift(Settle(acc, f).Held(a)[e], acc.Held(a)[e] + Due(f, now, a, e), rest);
      SettleKeeps(acc, f);
    } else {
      Wraps(Total(acc, a, e), 0);
    }
  }

  lemma SettleKeeps(acc: Account, f: Open)
    requires acc.Wf() && |f.enter| == acc.events
    ensures var r := Settle(acc, f);
            r.stack == acc.stack && r.now == acc.now && r.calls == acc.calls && r.printedCalls == acc.printedCalls
  {
  }

  /** Settling active frames at a dump loses nothing and counts nothing twice. */
  lemma {:induction false} SettleFirstTotal(acc: Account, n: nat, a: Arc, e: nat)
    requires acc.Wf() && n <= |acc.stack| && e < acc.events
    ensures Congruent(Total(SettleFirst(acc, n), a, e), Total(acc, a, e))
  {
    hide Total, SettleAt;
    if n == 0 {
      Wraps(Total(acc, a, e), 0);
    } else {
      SettleFirstTotal(acc, n - 1, a, e);
      var b := SettleFirst(acc, n - 1);
      SettleAtTotal(b, n - 1, a, e);
      CongruentChain(Total(SettleAt(b, n - 1), a, e), Total(b, a, e), Total(acc, a, e));
    }
  }

  lemma PushTotal(acc: Account, arc: Option<Arc>, a: Arc, e: nat)
    requires acc.Wf() && e < acc.events
    ensures Total(Apply(acc, Push(arc)), a, e) == Total(acc, a, e)
  {
    assert Init(Apply(acc, Push(arc)).stack) == acc.stack;
  }

  lemma PrintTotal(acc: Account, p: Arc, a: Arc, e: nat)
    requires acc.Wf() && e < acc.events
    ensures Total(Apply(acc, Print(p)), a, e) == Total(acc, a, e)
  {
  }

  // ---------------------------------------------------------------- runs

  function Occurrences(arcs: seq<Option<Arc>>, a: Arc): nat {
    if arcs == [] then 0 else Occurrences(Init(arcs), a) + if Last(arcs) == Some(a) then 1 else 0
  }

  /** The calls active after an operation. */
  function ArcsAfter(arcs: seq<Option<Arc>>, op: Op): seq<Option<Arc>> {
    match op
    case Push(arc) => arcs + [arc]
    case Pop => if arcs == [] then [] else Init(arcs)
    case _ => arcs
  }

  /** What an operation costs the calls of an arc: whatever is spent counts once for every active
      call of the arc. */
  function Charged(op: Op, arcs: seq<Option<Arc>>, a: Arc, e: nat): nat
  {
    if op.Spend? && e < |op.delta| then op.delta[e] * Occurrences(arcs, a) else 0
  }

  /** Cost accrued by calls of an arc while they are active, over a run that starts with the given
      active calls. */
  function Accrued(arcs: seq<Option<Arc>>, ops: seq<Op>, a: Arc, e: nat): nat
    decreases |ops|
  {
    if ops == [] then 0
    else Charged(ops[0], arcs, a, e) + Accrued(ArcsAfter(arcs, ops[0]), ops[1..], a, e)
  }

  function CallsMade(ops: seq<Op>, a: Arc): nat {
    if ops == [] then 0 else CallsMade(ops[1..], a) + if ops[0] == Push(Some(a)) then 1 else 0
  }

  ghost predicate RunFits(acc: Account, ops: seq<Op>)
    requires acc.Wf()
    decreases |ops|
  {
    ops == [] || (Fits(acc, ops[0]) && RunFits(Apply(acc, ops[0]), ops[1..]))
  }

  ghost function RunOps(acc: Account, ops: seq<Op>): (r: Account)
    requires acc.Wf() && RunFits(acc, ops)
    ensures r.Wf() && r.events == acc.events
    decreases |ops|
  {
    if ops == [] then acc else RunOps(Apply(acc, ops[0]), ops[1..])
  }

  function ArcsOf(stack: seq<Open>): (r: seq<Option<Arc>>)
    ensures |r| == |stack| && forall i :: 0 <= i < |r| ==> r[i] == stack[i].arc
  {
    seq(|stack|, i requires 0 <= i < |stack| => stack[i].arc)
  }

  lemma {:induction false} ActiveOccurs(stack: seq<Open>, a: Arc)
    ensures Active(stack, a) == Occurrences(ArcsOf(stack), a)
  {
    if stack != [] {
      ActiveOccurs(Init(stack), a);
      assert Init(ArcsOf(stack)) == ArcsOf(Init(stack));
    }
  }

  lemma SettleAtArcs(acc: Account, k: nat)
    requires acc.Wf() && k < |acc.stack|
    ensures var r := SettleAt(acc, k);
            ArcsOf(r.stack) == ArcsOf(acc.stack) && r.calls == acc.calls && r.printedCalls == acc.printedCalls
  {
  }

  lemma {:induction false} SettleFirstArcs(acc: Account, n: nat)
    requires acc.Wf() && n <= |acc.stack|
    ensures var r := SettleFirst(acc, n);
            ArcsOf(r.stack) == ArcsOf(acc.stack) && r.calls == acc.calls && r.printedCalls == acc.printedCalls
  {
    hide SettleAt, ArcsOf;
    if n > 0 {
      SettleFirstArcs(acc, n - 1);
      SettleAtArcs(SettleFirst(acc, n - 1), n - 1);
    }
  }

  lemma ApplyArcs(acc: Account, op: Op)
    requires acc.Wf() && Fits(acc, op)
    ensures ArcsOf(Apply(acc, op).stack) == ArcsAfter(ArcsOf(acc.stack), op)
  {
    if op == AddActive { SettleFirstArcs(acc, |acc.stack|); }
  }

  lemma StepTotal(acc: Account, op: Op, a: Arc, e: nat)
    requires acc.Wf() && Fits(acc, op) && e < acc.events
    ensures Congruent(Total(Apply(acc, op), a, e),
                      Total(acc, a, e) + Charged(op, ArcsOf(acc.stack), a, e))
  {
    hide Apply, Total, Congruent, Active;
    Wraps(Total(acc, a, e), 0);
    match op
    case Spend(delta) => SpendTotal(acc, delta, a, e); ActiveOccurs(acc.stack, a);
    case Push(arc) => PushTotal(acc, arc, a, e);
    case Pop => PopTotal(acc, a, e);
    case AddActive => AddActiveTotal(acc, a, e);
    case Print(p) => PrintTotal(acc, p, a, e);
  }

  lemma AddActiveTotal(acc: Account, a: Arc, e: nat)
    requires acc.Wf() && e < acc.events
    ensures Congruent(Total(Apply(acc, AddActive), a, e), Total(acc, a, e))
  {
    hide Total, Congruent, SettleFirst;
    SettleFirstTotal(acc, |acc.stack|, a, e);
  }

  /** Inclusive cost is conserved: over any run, what has been printed for an arc, plus what it
      holds, plus what its active calls owe grows by exactly the cost its calls accrue while active
      (modulo the counter width).  Dumps in the middle of a call lose and repeat nothing. */
  lemma {:induction false} InclusiveCostConserved(acc: Account, ops: seq<Op>, a: Arc, e: nat)
    requires acc.Wf() && RunFits(acc, ops) && e < acc.events
    ensures Congruent(Total(RunOps(acc, ops), a, e), Total(acc, a, e) + Accrued(ArcsOf(acc.stack), ops, a, e))
    decreases |ops|
  {
    hide Apply, Total, Congruent, ArcsOf, Occurrences, ArcsAfter, Account.Wf, Charged;
    if ops == [] {
      Wraps(Total(acc, a, e), 0);
    } else {
      var next, arcs := Apply(acc, ops[0]), ArcsOf(acc.stack);
      var here := Charged(ops[0], arcs, a, e);
      var rest := Accrued(ArcsAfter(arcs, ops[0]), ops[1..], a, e);
      StepTotal(acc, ops[0], a, e);
      ApplyArcs(acc, ops[0]);
      InclusiveCostConserved(next, ops[1..], a, e);
      CongruentShift(Total(next, a, e), Total(acc, a, e) + here, rest);
      CongruentChain(Total(RunOps(next, ops[1..]), a, e), Total(next, a, e) + rest, Total(acc, a, e) + here + rest);
      assert Accrued(arcs, ops, a, e) == here + rest;
    }
  }

  /** Call counts likewise. */
  lemma {:induction false} CallsConserved(acc: Account, ops: seq<Op>, a: Arc)
    requires acc.Wf() && RunFits(acc, ops)
    ensures var r := RunOps(acc, ops);
            r.PrintedCalls(a) + r.Calls(a) == acc.PrintedCalls(a) + acc.Calls(a) + CallsMade(ops, a)
    decreases |ops|
  {
    hide Settle, SettleFirst;
    if ops != [] {
      CallsStep(acc, ops[0], a);
      hide Apply, Account.Wf;
      CallsConserved(Apply(acc, ops[0]), ops[1..], a);
    }
  }

  lemma CallsStep(acc: Account, op: Op, a: Arc)
    requires acc.Wf() && Fits(acc, op)
    ensures var r := Apply(acc, op);
            r.PrintedCalls(a) + r.Calls(a) == acc.PrintedCalls(a) + acc.Calls(a) + if op == Push(Some(a)) then 1 else 0
  {
    hide SettleFirst;
    if op == AddActive { SettleFirstArcs(acc, |acc.stack|); }
  }

  // ---------------------------------------------------------------- a dump leaves nothing behind

  lemma SettleStep(acc: Account, n: nat)
    requires acc.Wf() && n <= |acc.stack|
    ensures n == 0 ==> SettleFirst(acc, n) == acc
    ensures n > 0 ==>
              var r, mid := SettleFirst(acc, n), SettleFirst(acc, n - 1);
              && mid.stack[n - 1] == acc.stack[n - 1]
              && (forall i :: 0 <= i < |r.stack| && i != n - 1 ==> r.stack[i] == mid.stack[i])
              && r.stack[n - 1].arc == acc.stack[n - 1].arc
              && (acc.stack[n - 1].arc.Some? ==> r.stack[n - 1].enter == acc.now)
  {
    hide AddDiff;
  }

  lemma {:induction false} SettledFrames(acc: Account, n: nat)
    requires acc.Wf() && n <= |acc.stack|
    ensures forall i :: 0 <= i < n && acc.stack[i].arc.Some? ==> SettleFirst(acc, n).stack[i].enter == acc.now
    ensures forall i :: 0 <= i < |acc.stack| ==> SettleFirst(acc, n).stack[i].arc == acc.stack[i].arc
  {
    hide SettleFirst, SettleAt, Account.Wf;
    SettleStep(acc, n);
    if n > 0 { SettledFrames(acc, n - 1); }
  }

  lemma {:induction false} NothingOwed(stack: seq<Open>, now: Cost, a: Arc, e: nat)
    requires e < |now| && forall i :: 0 <= i < |stack| ==> |stack[i].enter| == |now|
    requires forall i :: 0 <= i < |stack| && stack[i].arc.Some? ==> stack[i].enter == now
    ensures Owed(stack, now[e], a, e) == 0
  {
    if stack != [] { NothingOwed(Init(stack), now, a, e); }
  }

  /** Settling the active calls leaves none of them owing anything. */
  lemma SettledOweNothing(acc: Account, a: Arc, e: nat)
    requires acc.Wf() && e < acc.events
    ensures var r := Apply(acc, AddActive); Owed(r.stack, r.now[e], a, e) == 0
  {
    hide SettleFirst;
    SettledFrames(acc, |acc.stack|);
    var r := Apply(acc, AddActive);
    NothingOwed(r.stack, r.now, a, e);
  }

  /** A dump, of active calls and then of an arc, leaves the arc at zero with nothing owed, and what
      has been printed for it by then is all it ever had, modulo the counter width.  If the dump had
      any cost to print, the calls are all printed, too. */
  lemma DumpShowsAll(acc: Account, a: Arc, e: nat)
    requires acc.Wf() && e < acc.events
    ensures var mid := Apply(acc, AddActive);
            var r := Apply(mid, Print(a));
            && r.Held(a) == ZeroCost(acc.events) && Owed(r.stack, r.now[e], a, e) == 0
            && Congruent(r.Printed(a)[e], Total(acc, a, e))
            && (mid.Held(a) != ZeroCost(acc.events) ==>
                  r.Calls(a) == 0 && r.PrintedCalls(a) == acc.PrintedCalls(a) + acc.Calls(a))
  {
    hide SettleFirst, Congruent;
    var mid := Apply(acc, AddActive);
    var r := Apply(mid, Print(a));
    SettledOweNothing(acc, a, e);
    AddActiveTotal(acc, a, e);
    SettledCalls(acc, |acc.stack|, a);
    PrintTotal(mid, a, a, e);
    Wraps(Total(mid, a, e), 0);
    CongruentChain(Total(r, a, e), Total(mid, a, e), Total(acc, a, e));
  }

  lemma {:induction false} SettledCalls(acc: Account, n: nat, a: Arc)
    requires acc.Wf() && n <= |acc.stack|
    ensures var r := SettleFirst(acc, n); r.Calls(a) == acc.Calls(a) && r.PrintedCalls(a) == acc.PrintedCalls(a)
  {
    if n > 0 { SettledCalls(acc, n - 1, a); }
  }
}
