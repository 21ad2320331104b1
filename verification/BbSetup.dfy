/** setup_bbcc (callgrind/bbcc.c): how one block execution is classified as call, return or jump,
and what it does to the shadow stack. */
module BbSetup {
  import opened SortedList
  import opened ShadowStack

  /** A block is about to run: its stack pointer, the exit by which the previous block was left,
      and the context the context table returns if the block's function is entered. */
  datatype Visit = Visit(bb: Bb, sp: nat, passed: nat, interned: Cxt)

  /** `Underflow` stands for handleUnderflow, which this model does not follow. */
  datatype Outcome = Underflow | Next(control: Control, bbcc: Bbcc)

  // ---------------------------------------------------------------- returns

  /** Frames from the top, all at this stack pointer, up to one that returns here; 0 if none does. */
  function MatchPops(frames: seq<Frame>, sp: nat, addr: nat): (n: nat)
    ensures n <= |frames|
  {
    if frames == [] || Last(frames).sp != sp then 0
    else if Last(frames).ret == addr then 1
    else
      var n := MatchPops(Init(frames), sp, addr);
      if n == 0 then 0 else n + 1
  }

  /** How many frames a return should leave; 0 if it is not a return from the top call. */
  function ReturnPops(frames: seq<Frame>, sp: nat, addr: nat): nat
    requires frames != []
  {
    if sp < Last(frames).sp then 0 else if Last(frames).sp == sp then MatchPops(frames, sp, addr) else 1
  }

  /** The innermost frame level with the stack pointer that returns to this block. */
  lemma {:induction false} MatchPopsFindsInnermost(frames: seq<Frame>, sp: nat, addr: nat, k: nat)
    requires Ordered(frames) && k < |frames|
    ensures var n := MatchPops(frames, sp, addr);
            && (n > 0 && k == |frames| - n ==> frames[k].sp == sp && frames[k].ret == addr)
            && (k >= |frames| - n ==> frames[k].sp == sp)
            && ((n == 0 || k > |frames| - n) && Last(frames).sp == frames[k].sp == sp ==> frames[k].ret != addr)
  {
    if Last(frames).sp == sp && Last(frames).ret != addr && k < |frames| - 1 {
      assert frames[k].sp >= frames[|frames| - 2].sp >= Last(frames).sp;
      MatchPopsFindsInnermost(Init(frames), sp, addr, k);
    }
  }

  lemma {:induction false} MatchPopsLevel(frames: seq<Frame>, sp: nat, addr: nat)
    ensures MatchPops(frames, sp, addr) <= CountEqual(frames, sp)
  {
    if frames != [] { MatchPopsLevel(Init(frames), sp, addr); }
  }

  /** What a return leaves: every frame below the stack pointer if there are such frames, else the
      frames up to the innermost one that returns to this block. */
  lemma ReturnUnwinds(frames: seq<Frame>, sp: nat, addr: nat)
    requires Ordered(frames) && frames != [] && ReturnPops(frames, sp, addr) > 0
    ensures Unwound(frames, sp, ReturnPops(frames, sp, addr)) ==
            if Last(frames).sp < sp then CountBelow(frames, sp) else MatchPops(frames, sp, addr)
  {
    if Last(frames).sp == sp {
      NoneBelow(frames, sp);
      MatchPopsLevel(frames, sp, addr);
    }
  }

  // ---------------------------------------------------------------- classification

  /** The jump kind once mismatched returns and calls in disguise are accounted for. */
  datatype Plan = Plan(kind: JumpKind, pops: nat, emulated: bool)

  function Classify(frames: seq<Frame>, last: Option<Bbcc>, v: Visit): (p: Plan)
    ensures p.emulated ==> last.Some? && p.kind == Call
    ensures p.kind == Call || p.kind == Return ==> last.Some?
  {
    var kind := if last.Some? then last.value.bb.ExitAt(v.passed).kind else NoJump;
    var pops := if kind == Return && frames != [] then ReturnPops(frames, v.sp, v.bb.addr) else 1;
    var kind' := if pops == 0 then Jump else kind;
    var emulated :=
      && kind' != Return && kind' != Call && last.Some?
      && (pops == 0 || v.bb.isEntry || last.value.bb.sect != v.bb.sect || last.value.bb.obj != v.bb.obj);
    Plan(if emulated then Call else kind', pops, emulated)
  }

  /** Where a call comes from. */
  datatype Source = Source(control: Control, from: Option<Bbcc>, jmp: nat, sp: nat)

  /** A jump out of a function marked pop-on-jump leaves its frame first, and the call is charged
      to that frame's caller. */
  ghost predicate PopsOnJump(c: Control, last: Option<Bbcc>, p: Plan) {
    p.emulated && last.Some? && last.value.bb.fn.popOnJump && c.frames != [] && Last(c.frames).Counted()
  }

  ghost function SourceOf(c: Control, last: Option<Bbcc>, v: Visit, p: Plan): (s: Source)
    requires Inv(c)
    ensures Inv(s.control) && (last.Some? ==> s.from.Some?)
  {
    hide Inv;
    if PopsOnJump(c, last, p) then
      PopKeeps(c);
      var f := Last(c.frames);
      Source(PopCall(c), Some(f.arc.value.from), f.arc.value.jmp, f.sp)
    else Source(c, last, v.passed, v.sp)
  }

  /** The return would leave the only function on the function stack. */
  ghost predicate Underflows(c: Control) {
    c.frames == [] || (|c.fns| > 1 && c.fns[|c.fns| - 2].None?)
  }

  // ---------------------------------------------------------------- arrival

  /** The function on top of the function stack is active. */
  lemma TopActive(c: Control)
    requires Inv(c) && c.cxt.Some?
    ensures c.cxt.value.fn in c.active
  {
    hide Ordered, SkipsOk, SavedOk;
    var n := |c.fns| - 1;
    if n >= 2 {
      assert HasPusher(c.frames, c.fns, n);
      var k :| 0 <= k < |c.frames| && PushedBy(c.frames[k], c.fns, n);
      CalleesIn(c.frames, k);
    }
  }

  /** The recursion level of the cost centre: the active count, capped, from 0. */
  function Level(fn: Fn, active: multiset<Fn>, entering: bool): nat
    requires entering || fn in active
  {
    if fn.separateRecursions > 1 then Min(active[fn] + (if entering then 1 else 0), fn.separateRecursions) - 1
    else 0
  }

  /** The first block of a run: its function becomes the bottom function. */
  lemma FirstKeeps(c: Control, fn: Fn, interned: Cxt)
    requires Inv(c) && c.cxt.None? && interned.fn == fn
    ensures Inv(PushCxt(c, fn, interned)) && PushCxt(c, fn, interned).cxt.Some?
  {
  }

  /** Which call arc an entered block gets: calls out of skipped functions start at the caller that
      was not skipped. */
  function CallSite(c: Control, from: Bbcc, jmp: nat): (Bbcc, nat) {
    if c.nonskipped.Some? then (c.nonskipped.value, |c.nonskipped.value.bb.side|) else (from, jmp)
  }

  ghost predicate MayPush(c: Control, s: Source) {
    c.cxt.Some? && s.from.Some? && (c.frames != [] ==> s.sp <= Last(c.frames).sp)
  }

  /** The rest of setup_bbcc: context, cost centre and the delayed push. */
  ghost function Arrive(c: Control, v: Visit, s: Source, push: bool): (r: Outcome)
    requires Inv(c) && v.interned.fn == v.bb.fn && (push ==> MayPush(c, s))
    ensures r.Next? && Inv(r.control) && r.control.cxt == Some(r.bbcc.cxt) && r.bbcc.bb == v.bb
  {
    hide Inv, Enter;
    var fn := v.bb.fn;
    if push && !fn.skip then
      var cxt := PushedCxt(c, fn, v.interned);
      var to := Bbcc(v.bb, cxt, Level(cxt.fn, c.active, true));
      var (from, jmp) := CallSite(c, s.from.value, s.jmp);
      EnterKeeps(c, fn, v.interned, from, jmp, to, s.sp);
      EnterCxt(c, fn, v.interned, from, jmp, to, s.sp);
      Next(Enter(c, fn, v.interned, from, jmp, to, s.sp), to)
    else if c.cxt.None? then
      FirstKeeps(c, fn, v.interned);
      var d := EnterFirst(c, fn, v.interned);
      Next(d, Bbcc(v.bb, d.cxt.value, Level(d.cxt.value.fn, d.active, false)))
    else
      TopActive(c);
      var to := Bbcc(v.bb, c.cxt.value, Level(c.cxt.value.fn, c.active, false));
      if push then
        SkipKeeps(c, s.from.value, s.jmp, to, s.sp);
        Next(PushCall(c, s.from.value, s.jmp, to, s.sp, true), to)
      else Next(c, to)
  }

  ghost function EnterFirst(c: Control, fn: Fn, interned: Cxt): (d: Control)
    requires Inv(c) && c.cxt.None? && interned.fn == fn
    ensures Inv(d) && d == PushCxt(c, fn, interned) && d.cxt.Some? && d.cxt.value.fn in d.active
  {
    FirstKeeps(c, fn, interned);
    var d := PushCxt(c, fn, interned);
    TopActive(d);
    d
  }

  /** The context in force after push_cxt. */
  ghost function PushedCxt(c: Control, fn: Fn, interned: Cxt): (r: Cxt)
    requires Inv(c) && c.cxt.Some? && interned.fn == fn
    ensures |c.fns| > 0 && PushCxt(c, fn, interned).cxt == Some(r)
  {
    hide SavedOk, PushersOk, SkipsOk, ActiveOk, Ordered;
    if SameTop(Last(c.fns), fn) then c.cxt.value else interned
  }

  lemma EnterCxt(c: Control, fn: Fn, interned: Cxt, from: Bbcc, jmp: nat, to: Bbcc, sp: nat)
    requires CanEnter(c, fn, interned, to, sp)
    ensures Enter(c, fn, interned, from, jmp, to, sp).cxt == Some(to.cxt)
  {
    hide SavedOk, PushersOk, SkipsOk, ActiveOk, Ordered;
  }

  // ---------------------------------------------------------------- one block execution

  /** Before the first block there is neither a context nor a last block.  The first function must
      not belong to a group: push_cxt would look up the group of the null marker below it. */
  ghost predicate Ready(c: Control, last: Option<Bbcc>, v: Visit) {
    Inv(c) && (last.Some? <==> c.cxt.Some?) && v.interned.fn == v.bb.fn && (last.None? ==> v.bb.fn.group == 0)
  }

  lemma UnwindNone(c: Control, sp: nat)
    requires Inv(c) && |Unwind(c, sp, 0).frames| == |c.frames|
    ensures Unwind(c, sp, 0) == c && (c.frames != [] ==> Last(c.frames).sp >= sp)
  {
    hide Inv, PopCall;
    if c.frames != [] && Leaves(Last(c.frames), sp, 0) { PopKeeps(c); }
  }

  lemma PopKeepsCxt(c: Control)
    requires Inv(c) && c.frames != []
    ensures Poppable(c) && PopCall(c).cxt.Some?
  {
    hide Ordered, SavedOk, SkipsOk, PushersOk, ActiveOk;
    InvPoppable(c);
  }

  /** A call that leaves no frame behind is pushed in order. */
  lemma MayPushHere(c: Control, last: Option<Bbcc>, v: Visit)
    requires Ready(c, last, v) && last.Some?
    ensures var p := Classify(c.frames, last, v);
            var s := SourceOf(c, last, v, p);
            var d := Unwind(s.control, s.sp, 0);
            |d.frames| == |s.control.frames| ==>
              MayPush(d, s.(sp := if p.emulated && d.frames != [] then Last(d.frames).sp else s.sp))
  {
    hide Inv, Unwind, Classify;
    var p := Classify(c.frames, last, v);
    var s := SourceOf(c, last, v, p);
    if PopsOnJump(c, last, p) { PopKeepsCxt(c); }
    if |Unwind(s.control, s.sp, 0).frames| == |s.control.frames| { UnwindNone(s.control, s.sp); }
  }

  ghost function Setup(c: Control, last: Option<Bbcc>, v: Visit): (r: Outcome)
    requires Ready(c, last, v)
    ensures r.Next? ==> Inv(r.control) && r.control.cxt == Some(r.bbcc.cxt) && r.bbcc.bb == v.bb
  {
    hide Inv, Unwind, MayPush, Underflows;
    var p := Classify(c.frames, last, v);
    if p.kind == Return then
      if Underflows(c) then Underflow
      else Arrive(Unwind(c, v.sp, p.pops), v, Source(c, last, v.passed, v.sp), false)
    else
      var s := SourceOf(c, last, v, p);
      var d := Unwind(s.control, s.sp, 0);
      var push := p.kind == Call && |d.frames| == |s.control.frames|;
      if last.Some? then
        MayPushHere(c, last, v);
        Arrive(d, v, s.(sp := if p.emulated && d.frames != [] then Last(d.frames).sp else s.sp), push)
      else Arrive(d, v, s, false)
  }

  // ---------------------------------------------------------------- what a step leaves alone

  /** How many frames a block execution pops. */
  ghost function Popped(c: Control, last: Option<Bbcc>, v: Visit): (n: nat)
    requires Ready(c, last, v)
    ensures n <= |c.frames|
  {
    hide Inv, Unwound, Classify;
    var p := Classify(c.frames, last, v);
    if p.kind == Return then Unwound(c.frames, v.sp, p.pops)
    else
      var s := SourceOf(c, last, v, p);
      Unwound(s.control.frames, s.sp, 0) + if PopsOnJump(c, last, p) then 1 else 0
  }

  lemma {:induction false} PopNAdds(c: Control, m: nat, n: nat)
    requires Inv(c) && m + n <= |c.frames|
    ensures PopN(PopN(c, m), n) == PopN(c, m + n)
    decreases m
  {
    hide Inv, PopCall;
    if m > 0 {
      PopKeeps(c);
      PopNAdds(PopCall(c), m - 1, n);
    }
  }

  /** A block execution pops some frames and then pushes at most one. */
  lemma SetupPops(c: Control, last: Option<Bbcc>, v: Visit)
    requires Ready(c, last, v) && last.Some? && Setup(c, last, v).Next?
    ensures exists s, push :: (push ==> MayPush(PopN(c, Popped(c, last, v)), s)) &&
              Setup(c, last, v) == Arrive(PopN(c, Popped(c, last, v)), v, s, push)
  {
    hide Inv, Unwind, MayPush, Unwound, Classify, Arrive, PopN;
    var p := Classify(c.frames, last, v);
    if p.kind == Return {
      UnwindExact(c, v.sp, p.pops);
      var s := Source(c, last, v.passed, v.sp);
      assert Setup(c, last, v) == Arrive(PopN(c, Popped(c, last, v)), v, s, false);
    } else {
      var s := SourceOf(c, last, v, p);
      var d := Unwind(s.control, s.sp, 0);
      MayPushHere(c, last, v);
      UnwindExact(s.control, s.sp, 0);
      if PopsOnJump(c, last, p) { PopOneMore(c, Unwound(s.control.frames, s.sp, 0)); }
      assert d == PopN(c, Popped(c, last, v));
      var s' := s.(sp := if p.emulated && d.frames != [] then Last(d.frames).sp else s.sp);
      var push := p.kind == Call && |d.frames| == |s.control.frames|;
      assert Setup(c, last, v) == Arrive(PopN(c, Popped(c, last, v)), v, s', push);
    }
  }

  lemma PopOneMore(c: Control, n: nat)
    requires Inv(c) && n < |c.frames|
    ensures Poppable(c) && Inv(PopCall(c)) && PopN(PopCall(c), n) == PopN(c, n + 1)
  {
    hide Inv, PopCall;
    PopKeeps(c);
  }

  /** The stack as it was when it had only `n` frames. */
  ghost function Below(c: Control, n: nat): (r: Control)
    requires Inv(c) && n <= |c.frames|
    ensures Inv(r) && |r.frames| == n
  {
    PopN(c, |c.frames| - n)
  }

  lemma ArriveBelow(c: Control, v: Visit, s: Source, push: bool, n: nat)
    requires Inv(c) && c.cxt.Some? && v.interned.fn == v.bb.fn && (push ==> MayPush(c, s)) && n <= |c.frames|
    ensures |Arrive(c, v, s, push).control.frames| >= n && Below(Arrive(c, v, s, push).control, n) == Below(c, n)
  {
    hide Inv, PopCall, Enter, PopN;
    var r := Arrive(c, v, s, push).control;
    if push && !v.bb.fn.skip {
      var cxt := PushedCxt(c, v.bb.fn, v.interned);
      var to := Bbcc(v.bb, cxt, Level(cxt.fn, c.active, true));
      var (from, jmp) := CallSite(c, s.from.value, s.jmp);
      PopUndoesEnter(c, v.bb.fn, v.interned, from, jmp, to, s.sp);
      assert r == Enter(c, v.bb.fn, v.interned, from, jmp, to, s.sp);
      PopOneMore(r, |c.frames| - n);
    } else if push {
      TopActive(c);
      var to := Bbcc(v.bb, c.cxt.value, Level(c.cxt.value.fn, c.active, false));
      PopUndoesSkip(c, s.from.value, s.jmp, to, s.sp);
      assert r == PushCall(c, s.from.value, s.jmp, to, s.sp, true);
      PopOneMore(r, |c.frames| - n);
    }
  }

  // ---------------------------------------------------------------- runs

  datatype Exec = Exec(control: Control, last: Option<Bbcc>)

  ghost predicate Steps(e: Exec, v: Visit, f: Exec) {
    && Ready(e.control, e.last, v)
    && Setup(e.control, e.last, v).Next?
    && f == Exec(Setup(e.control, e.last, v).control, Some(Setup(e.control, e.last, v).bbcc))
  }

  /** A run of block executions without call stack underflow. */
  ghost predicate Runs(trail: seq<Exec>, visits: seq<Visit>) {
    |trail| == |visits| + 1 && forall i :: 0 <= i < |visits| ==> Steps(trail[i], visits[i], trail[i + 1])
  }

  /** In every state of every run from the start: stack pointers never increase towards the top,
      active counts are frame counts plus one for the bottom function, and every counted frame has
      a context of its own function stack to go back to. */
  lemma {:induction false} EveryStateSound(trail: seq<Exec>, visits: seq<Visit>, collect: bool, i: nat)
    requires Runs(trail, visits) && trail[0] == Exec(Start(collect), None) && i < |trail|
    ensures Ordered(trail[i].control.frames)
    ensures ActiveOk(trail[i].control)
    ensures SavedOk(trail[i].control.frames, trail[i].control.fns)
    ensures Inv(trail[i].control)
  {
    if i == 0 {
      StartInv(collect);
    } else {
      hide Setup;
      EveryStateSound(trail, visits, collect, i - 1);
      assert Steps(trail[i - 1], visits[i - 1], trail[i]);
    }
  }

  /** No block execution of the run pops below `n` frames. */
  ghost predicate StaysAbove(trail: seq<Exec>, visits: seq<Visit>, n: nat)
    requires Runs(trail, visits)
  {
    && n <= |trail[0].control.frames|
    && forall i :: 0 <= i < |visits| && Steps(trail[i], visits[i], trail[i + 1]) ==>
         Popped(trail[i].control, trail[i].last, visits[i]) + n <= |trail[i].control.frames|
  }

  lemma StepBelow(e: Exec, v: Visit, f: Exec, n: nat)
    requires Steps(e, v, f) && e.last.Some? && Popped(e.control, e.last, v) + n <= |e.control.frames|
    ensures Inv(f.control) && f.last.Some? && n <= |f.control.frames| && Below(f.control, n) == Below(e.control, n)
  {
    hide Inv, Setup, Arrive, PopN, MayPush, Popped;
    var c, k := e.control, Popped(e.control, e.last, v);
    SetupPops(c, e.last, v);
    var s, push :| (push ==> MayPush(PopN(c, k), s)) && Setup(c, e.last, v) == Arrive(PopN(c, k), v, s, push);
    PopNAdds(c, k, |c.frames| - k - n);
    PopNCxt(c, k);
    ArriveBelow(PopN(c, k), v, s, push, n);
  }

  lemma {:induction false} PopNCxt(c: Control, n: nat)
    requires Inv(c) && c.cxt.Some? && n <= |c.frames|
    ensures PopN(c, n).cxt.Some?
    decreases n
  {
    hide Inv, PopCall;
    if n > 0 {
      PopKeeps(c);
      PopKeepsCxt(c);
      PopNCxt(PopCall(c), n - 1);
    }
  }

  /** While a run stays above `n` frames, the state those frames will return to does not change:
      contexts, function stack, skip state, active counts and the collect flag. */
  lemma {:induction false} CallersUntouched(trail: seq<Exec>, visits: seq<Visit>, n: nat, i: nat)
    requires Runs(trail, visits) && StaysAbove(trail, visits, n) && i < |trail|
    requires Inv(trail[0].control) && trail[0].last.Some?
    ensures Inv(trail[i].control) && trail[i].last.Some? && n <= |trail[i].control.frames|
    ensures Below(trail[i].control, n) == Below(trail[0].control, n)
  {
    hide Inv, Below, Steps;
    if i > 0 {
      CallersUntouched(trail, visits, n, i - 1);
      assert Steps(trail[i - 1], visits[i - 1], trail[i]);
      StepBelow(trail[i - 1], visits[i - 1], trail[i], n);
    }
  }

  /** A run that comes back to its starting depth without going below it restores everything. */
  lemma BalancedRunRestores(trail: seq<Exec>, visits: seq<Visit>)
    requires Runs(trail, visits) && Inv(trail[0].control) && trail[0].last.Some?
    requires StaysAbove(trail, visits, |trail[0].control.frames|)
    requires |trail[|visits|].control.frames| == |trail[0].control.frames|
    ensures trail[|visits|].control == trail[0].control
  {
    hide Inv, Steps;
    CallersUntouched(trail, visits, |trail[0].control.frames|, |visits|);
  }
}
