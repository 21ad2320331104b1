/** Runs of block executions with dumps in between: what happens to the costs of call arcs while the
shadow stack moves (callgrind/bbcc.c, callstack.c, dump.c). */
module CostRuns {
  import opened SortedList
  import opened Words
  import opened ShadowStack
  import opened BbSetup
  import CC = CallCost
  import opened CallCost

  /** Cost of executing up to one exit of a block. */
  function Instructions(events: nat, ir: nat, n: nat): (d: seq<nat>)
    ensures |d| == events
  {
    seq(events, e => if e == ir then n else 0)
  }

  /** The account after the block that was just left, if its instructions are counted. */
  ghost function Spent(acc: Account, ir: nat, last: Option<Bbcc>, passed: nat, counted: bool): (r: Account)
    requires acc.Wf()
    ensures r.Wf() && r.stack == acc.stack
  {
    if last.Some? && counted
    then Apply(acc, CC.Spend(Instructions(acc.events, ir, last.value.bb.ExitAt(passed).instr + 1)))
    else acc
  }

  ghost function PopAll(acc: Account, n: nat): (r: Account)
    requires acc.Wf() && n <= |acc.stack|
    ensures r.Wf() && |r.stack| == |acc.stack| - n
    decreases n
  {
    if n == 0 then acc else PopAll(Apply(acc, CC.Pop), n - 1)
  }

  /** Popping one more. */
  lemma {:induction false} PopAllDone(acc: Account, n: nat)
    requires acc.Wf() && n <= |acc.stack|
    ensures PopAll(acc, 0) == acc
    ensures n < |acc.stack| ==> PopAll(acc, n + 1) == Apply(PopAll(acc, n), CC.Pop)
    decreases n
  {
    hide Account.Wf;
    if n > 0 { PopAllDone(Apply(acc, CC.Pop), n - 1); }
  }

  // ---------------------------------------------------------------- one step

  /** The shadow stack, the last block and the costs. */
  datatype Whole = Whole(control: Control, last: Option<Bbcc>, acc: Account)

  /** A block execution, the settling of active calls at a dump, or the printing of one arc. */
  datatype Event = Block(v: Visit) | SettleAll | PrintOne(a: Arc)

  /** Which counter counts instructions, and whether the block's instructions are counted in it. */
  datatype Mode = Mode(ir: nat, simulateCache: bool)

  ghost predicate StackMatches(w: Whole) {
    Inv(w.control) && w.acc.Wf() && |w.acc.stack| == |w.control.frames|
  }

  /** The account after a block execution: the cost of the block just left, the pops, and the push
      if there is one. */
  ghost predicate Accounted(m: Mode, w: Whole, v: Visit, x: Whole)
    requires StackMatches(w) && Ready(w.control, w.last, v)
  {
    var acc := Spent(w.acc, m.ir, w.last, v.passed, w.control.collect && !m.simulateCache);
    var k := Popped(w.control, w.last, v);
    if |x.control.frames| + k == |w.control.frames| then x.acc == PopAll(acc, k)
    else x.control.frames != [] && x.acc == Apply(PopAll(acc, k), CC.Push(Last(x.control.frames).arc))
  }

  ghost predicate StepsTo(m: Mode, w: Whole, ev: Event, x: Whole) {
    && StackMatches(w)
    && match ev
       case Block(v) => Steps(Exec(w.control, w.last), v, Exec(x.control, x.last)) && Accounted(m, w, v, x)
       case SettleAll => x == w.(acc := Apply(w.acc, CC.AddActive))
       case PrintOne(a) => x == w.(acc := Apply(w.acc, CC.Print(a)))
  }

  // ---------------------------------------------------------------- the account's stack is the shadow stack

  function FrameArcs(frames: seq<Frame>): (r: seq<Option<Arc>>)
    ensures |r| == |frames| && forall i :: 0 <= i < |r| ==> r[i] == frames[i].arc
  {
    seq(|frames|, i requires 0 <= i < |frames| => frames[i].arc)
  }

  ghost predicate InStep(w: Whole) {
    StackMatches(w) && ArcsOf(w.acc.stack) == FrameArcs(w.control.frames)
  }

  lemma {:induction false} PopNFrames(c: Control, n: nat)
    requires Inv(c) && n <= |c.frames|
    ensures PopN(c, n).frames == c.frames[..|c.frames| - n]
    decreases n
  {
    hide Inv, PopCall;
    if n > 0 {
      PopKeeps(c);
      PopNFrames(PopCall(c), n - 1);
    }
  }

  lemma ArrivedFrames(c: Control, v: Visit, s: Source, push: bool)
    requires Inv(c) && v.interned.fn == v.bb.fn && (push ==> MayPush(c, s))
    ensures var r := Arrive(c, v, s, push).control.frames;
            r == c.frames || (r != [] && r == c.frames + [Last(r)])
  {
    hide Inv, Level, MayPush;
  }

  /** A block execution keeps the frames it does not pop and adds at most one. */
  lemma SetupFrames(c: Control, last: Option<Bbcc>, v: Visit)
    requires Ready(c, last, v) && Setup(c, last, v).Next?
    ensures var n, r := |c.frames| - Popped(c, last, v), Setup(c, last, v).control.frames;
            r == c.frames[..n] || (r != [] && r == c.frames[..n] + [Last(r)])
  {
    hide Inv, Setup, Arrive, PopN, MayPush, Popped;
    if last.Some? {
      var k := Popped(c, last, v);
      SetupPops(c, last, v);
      var s, push :| (push ==> MayPush(PopN(c, k), s)) && Setup(c, last, v) == Arrive(PopN(c, k), v, s, push);
      PopNFrames(c, k);
      ArrivedFrames(PopN(c, k), v, s, push);
    } else {
      FirstFrames(c, last, v);
    }
  }

  lemma FirstFrames(c: Control, last: Option<Bbcc>, v: Visit)
    requires Ready(c, last, v) && last.None?
    ensures c.frames == [] && Popped(c, last, v) == 0
    ensures Setup(c, last, v).Next? ==> Setup(c, last, v).control.frames == []
  {
    hide SavedOk, PushersOk, SkipsOk, ActiveOk, Ordered;
  }

  lemma {:induction false} PopAllArcs(acc: Account, n: nat)
    requires acc.Wf() && n <= |acc.stack|
    ensures ArcsOf(PopAll(acc, n).stack) == ArcsOf(acc.stack)[..|acc.stack| - n]
    decreases n
  {
    hide Account.Wf;
    if n > 0 {
      ApplyArcs(acc, CC.Pop);
      PopAllArcs(Apply(acc, CC.Pop), n - 1);
    }
  }

  lemma FrameArcsPrefix(frames: seq<Frame>, n: nat)
    requires n <= |frames|
    ensures FrameArcs(frames[..n]) == FrameArcs(frames)[..n]
  {
  }

  lemma FrameArcsSnoc(frames: seq<Frame>, f: Frame)
    ensures FrameArcs(frames + [f]) == FrameArcs(frames) + [f.arc]
  {
  }

  // ---------------------------------------------------------------- conservation

  /** What the block just left costs the calls of an arc: its instructions, once for every frame of
      the arc on the shadow stack. */
  ghost function BlockCharge(m: Mode, w: Whole, ev: Event, a: Arc, e: nat): nat {
    if ev.Block? && w.last.Some? && w.control.collect && !m.simulateCache && e == m.ir
    then (w.last.value.bb.ExitAt(ev.v.passed).instr + 1) * Occurrences(FrameArcs(w.control.frames), a)
    else 0
  }

  lemma {:induction false} PopAllTotal(acc: Account, n: nat, a: Arc, e: nat)
    requires acc.Wf() && n <= |acc.stack| && e < acc.events
    ensures PopAll(acc, n).events == acc.events && Congruent(Total(PopAll(acc, n), a, e), Total(acc, a, e))
    decreases n
  {
    hide Account.Wf, Total, Congruent, Apply;
    if n == 0 {
      Wraps(Total(acc, a, e), 0);
    } else {
      ApplyArcs(acc, CC.Pop);
      PopTotal(acc, a, e);
      PopAllTotal(Apply(acc, CC.Pop), n - 1, a, e);
      CongruentChain(Total(PopAll(acc, n), a, e), Total(Apply(acc, CC.Pop), a, e), Total(acc, a, e));
    }
  }

  lemma SpentTotal(m: Mode, w: Whole, v: Visit, a: Arc, e: nat)
    requires InStep(w) && e < w.acc.events
    ensures var acc := Spent(w.acc, m.ir, w.last, v.passed, w.control.collect && !m.simulateCache);
            acc.events == w.acc.events && Congruent(Total(acc, a, e), Total(w.acc, a, e) + BlockCharge(m, w, Block(v), a, e))
  {
    hide Account.Wf, Total, Congruent, Inv, Occurrences;
    if w.last.Some? && w.control.collect && !m.simulateCache {
      var n := w.last.value.bb.ExitAt(v.passed).instr + 1;
      var d := Instructions(w.acc.events, m.ir, n);
      StepTotal(w.acc, CC.Spend(d), a, e);
      assert Charged(CC.Spend(d), ArcsOf(w.acc.stack), a, e) == BlockCharge(m, w, Block(v), a, e);
    } else {
      Wraps(Total(w.acc, a, e), 0);
    }
  }

  lemma BlockTotal(m: Mode, w: Whole, v: Visit, x: Whole, a: Arc, e: nat)
    requires InStep(w) && e < w.acc.events && StepsTo(m, w, Block(v), x)
    ensures x.acc.Wf() && x.acc.events == w.acc.events
    ensures Congruent(Total(x.acc, a, e), Total(w.acc, a, e) + BlockCharge(m, w, Block(v), a, e))
  {
    hide Account.Wf, Total, Congruent, Inv, Spent, BlockCharge, Apply, PopAll, Setup, Popped, ArcsOf;
    var acc := Spent(w.acc, m.ir, w.last, v.passed, w.control.collect && !m.simulateCache);
    var k := Popped(w.control, w.last, v);
    SpentTotal(m, w, v, a, e);
    PopAllTotal(acc, k, a, e);
    var q, goal := PopAll(acc, k), Total(w.acc, a, e) + BlockCharge(m, w, Block(v), a, e);
    CongruentChain(Total(q, a, e), Total(acc, a, e), goal);
    if |x.control.frames| + k != |w.control.frames| {
      PushTotal(q, Last(x.control.frames).arc, a, e);
    }
  }

  lemma BlockInStep(m: Mode, w: Whole, v: Visit, x: Whole)
    requires InStep(w) && StepsTo(m, w, Block(v), x)
    ensures InStep(x)
  {
    hide Account.Wf, Inv, Apply, PopAll, Setup, Popped, Spent;
    var acc := Spent(w.acc, m.ir, w.last, v.passed, w.control.collect && !m.simulateCache);
    var k := Popped(w.control, w.last, v);
    SetupFrames(w.control, w.last, v);
    var n := |w.control.frames| - k;
    SpentStack(w.acc, m.ir, w.last, v.passed, w.control.collect && !m.simulateCache);
    PopAllArcs(acc, k);
    FrameArcsPrefix(w.control.frames, n);
    if |x.control.frames| + k != |w.control.frames| {
      var arc := Last(x.control.frames).arc;
      ApplyArcs(PopAll(acc, k), CC.Push(arc));
      FrameArcsSnoc(w.control.frames[..n], Last(x.control.frames));
    }
  }

  lemma SpentStack(acc: Account, ir: nat, last: Option<Bbcc>, passed: nat, counted: bool)
    requires acc.Wf()
    ensures Spent(acc, ir, last, passed, counted).stack == acc.stack
  {
  }

  lemma StepConserves(m: Mode, w: Whole, ev: Event, x: Whole, a: Arc, e: nat)
    requires InStep(w) && e < w.acc.events && StepsTo(m, w, ev, x)
    ensures InStep(x) && x.acc.events == w.acc.events
    ensures Congruent(Total(x.acc, a, e), Total(w.acc, a, e) + BlockCharge(m, w, ev, a, e))
  {
    hide Account.Wf, Inv, Apply, Total, Congruent;
    match ev
    case Block(v) =>
      BlockInStep(m, w, v, x);
      BlockTotal(m, w, v, x, a, e);
    case SettleAll =>
      ApplyArcs(w.acc, CC.AddActive);
      AddActiveTotal(w.acc, a, e);
    case PrintOne(p) =>
      ApplyArcs(w.acc, CC.Print(p));
      PrintTotal(w.acc, p, a, e);
      Wraps(Total(w.acc, a, e), 0);
  }

  /** A run of block executions and dumps without call stack underflow. */
  ghost predicate CostRun(m: Mode, trail: seq<Whole>, events: seq<Event>) {
    |trail| == |events| + 1 && forall i :: 0 <= i < |events| ==> StepsTo(m, trail[i], events[i], trail[i + 1])
  }

  ghost function Charges(m: Mode, trail: seq<Whole>, events: seq<Event>, n: nat, a: Arc, e: nat): nat
    requires n <= |events| < |trail|
  {
    if n == 0 then 0 else Charges(m, trail, events, n - 1, a, e) + BlockCharge(m, trail[n - 1], events[n - 1], a, e)
  }

  lemma InStepWf(w: Whole)
    requires InStep(w)
    ensures w.acc.Wf()
  {
  }

  lemma {:induction false} RunConserves(m: Mode, trail: seq<Whole>, events: seq<Event>, n: nat, a: Arc, e: nat)
    requires CostRun(m, trail, events) && InStep(trail[0]) && e < trail[0].acc.events && n <= |events|
    ensures InStep(trail[n]) && trail[n].acc.events == trail[0].acc.events
    ensures Congruent(Total(trail[n].acc, a, e), Total(trail[0].acc, a, e) + Charges(m, trail, events, n, a, e))
  {
    hide InStep, StepsTo, Total, Congruent, BlockCharge;
    InStepWf(trail[0]);
    if n == 0 {
      Wraps(Total(trail[0].acc, a, e), 0);
    } else {
      RunConserves(m, trail, events, n - 1, a, e);
      assert StepsTo(m, trail[n - 1], events[n - 1], trail[n]);
      StepConserves(m, trail[n - 1], events[n - 1], trail[n], a, e);
      InStepWf(trail[n - 1]);
      InStepWf(trail[n]);
      var before, charge := Charges(m, trail, events, n - 1, a, e), BlockCharge(m, trail[n - 1], events[n - 1], a, e);
      CongruentShift(Total(trail[n - 1].acc, a, e), Total(trail[0].acc, a, e) + before, charge);
      CongruentChain(Total(trail[n].acc, a, e), Total(trail[n - 1].acc, a, e) + charge,
                     Total(trail[0].acc, a, e) + before + charge);
    }
  }

  function NewWhole(events: nat, collect: bool): Whole {
    Whole(Start(collect), None, Account(events, ZeroCost(events), [], map[], map[], map[], map[]))
  }

  /** Over every run from the start, what dumps have printed for an arc, plus what the arc holds,
      plus what its frames on the shadow stack owe, is what the executed blocks cost while frames of
      the arc were on the stack (modulo the counter width). */
  lemma PrintedHeldAndOwed(m: Mode, trail: seq<Whole>, events: seq<Event>, size: nat, collect: bool, a: Arc, e: nat)
    requires CostRun(m, trail, events) && trail[0] == NewWhole(size, collect) && e < size
    ensures var w := trail[|events|];
            w.acc.Wf() && w.acc.events == size &&
            Congruent(Total(w.acc, a, e), Charges(m, trail, events, |events|, a, e))
  {
    hide StepsTo, Congruent, Charges;
    StartInv(collect);
    assert ArcsOf([]) == FrameArcs([]);
    RunConserves(m, trail, events, |events|, a, e);
    assert Total(trail[0].acc, a, e) == 0;
  }
}
