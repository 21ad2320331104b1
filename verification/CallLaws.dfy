/** What setup_bbcc (callgrind/bbcc.c) does to the shadow stack, said of the exit taken, the stack
pointer and the block entered: which frames go, when a frame is pushed and what it records, the
context, the recursion level, and whether costs are collected. */
module CallLaws {
  import opened SortedList
  import opened ShadowStack
  import opened BbSetup

  // ---------------------------------------------------------------- which frames go

  /** The way the last block was left. */
  function Taken(last: Bbcc, passed: nat): Exit {
    if passed < |last.bb.side| then last.bb.side[passed] else last.bb.end
  }

  /** `n` is the number of frames above the last one that is not below the stack pointer. */
  ghost predicate LeftBelow(frames: seq<Frame>, sp: nat, n: nat) {
    && n <= |frames|
    && (forall j :: |frames| - n <= j < |frames| ==> frames[j].sp < sp)
    && (n < |frames| ==> frames[|frames| - n - 1].sp >= sp)
  }

  /** The innermost frame level with the stack pointer that returns to this address is the n-th from
      the top, and every frame above it is level too. */
  ghost predicate UpToCall(frames: seq<Frame>, sp: nat, addr: nat, n: nat) {
    && 0 < n <= |frames| && frames[|frames| - n].ret == addr
    && (forall j :: |frames| - n <= j < |frames| ==> frames[j].sp == sp)
    && (forall j :: |frames| - n < j < |frames| ==> frames[j].ret != addr)
  }

  /** A return leaves the top frame's stack area, or goes to where some level frame was called. */
  ghost predicate Matched(frames: seq<Frame>, sp: nat, addr: nat) {
    frames != [] && (frames[|frames| - 1].sp < sp || exists n: nat :: UpToCall(frames, sp, addr, n))
  }

  lemma {:induction false} BelowCounts(frames: seq<Frame>, sp: nat)
    requires Ordered(frames)
    ensures LeftBelow(frames, sp, CountBelow(frames, sp))
  {
    if frames != [] {
      var n := CountBelow(Init(frames), sp);
      BelowCounts(Init(frames), sp);
      if Last(frames).sp >= sp { NoneBelow(frames, sp); }
    }
  }

  lemma {:induction false} MatchIsUpToCall(frames: seq<Frame>, sp: nat, addr: nat)
    ensures var n := MatchPops(frames, sp, addr);
            && (n > 0 ==> UpToCall(frames, sp, addr, n))
            && (n == 0 ==> forall m: nat :: !UpToCall(frames, sp, addr, m))
  {
    var n := MatchPops(frames, sp, addr);
    if frames != [] && Last(frames).sp == sp && Last(frames).ret != addr {
      MatchIsUpToCall(Init(frames), sp, addr);
      forall m: nat | UpToCall(frames, sp, addr, m) ensures m > 1 && UpToCall(Init(frames), sp, addr, m - 1) {
        assert frames[|frames| - m] == Init(frames)[|frames| - m];
      }
      if n > 0 { UpToCallSnoc(frames, sp, addr, n); }
    } else if frames != [] && Last(frames).sp != sp {
      OnlyLevel(frames, sp, addr);
    }
  }

  lemma OnlyLevel(frames: seq<Frame>, sp: nat, addr: nat)
    requires frames != [] && Last(frames).sp != sp
    ensures forall m: nat :: !UpToCall(frames, sp, addr, m)
  {
    forall m: nat ensures !UpToCall(frames, sp, addr, m) {
      if 0 < m <= |frames| { assert frames[|frames| - 1].sp != sp; }
    }
  }

  lemma UpToCallSnoc(frames: seq<Frame>, sp: nat, addr: nat, n: nat)
    requires n > 1 && frames != [] && UpToCall(Init(frames), sp, addr, n - 1)
    requires Last(frames).sp == sp && Last(frames).ret != addr
    ensures UpToCall(frames, sp, addr, n)
  {
    assert forall j :: 0 <= j < |frames| - 1 ==> frames[j] == Init(frames)[j];
  }

  lemma MatchedIsReturn(frames: seq<Frame>, sp: nat, addr: nat)
    requires frames != []
    ensures ReturnPops(frames, sp, addr) > 0 <==> Matched(frames, sp, addr)
  {
    MatchIsUpToCall(frames, sp, addr);
    if sp != Last(frames).sp { OnlyLevel(frames, sp, addr); }
  }

  // ---------------------------------------------------------------- one block execution

  /** Where a call is charged from: calls out of skipped functions start at the caller that was not
      skipped, by the exit at its end. */
  function ArcFrom(nonskipped: Option<Bbcc>, from: Bbcc, jmp: nat): (Bbcc, nat) {
    if nonskipped.Some? then (nonskipped.value, |nonskipped.value.bb.side|) else (from, jmp)
  }

  /** The address a call instruction would return to; other exits have none. */
  function ReturnOf(from: Bbcc, jmp: nat): nat {
    if Taken(from, jmp).kind == Call then Taken(from, jmp).ret else 0
  }

  /** The frame a call gets on a stack: skipped functions have no arc, calls in disguise take over the
      stack pointer of the frame below. */
  ghost predicate NewFrame(c: Control, v: Visit, from: Bbcc, jmp: nat, sp: nat, disguised: bool, to: Bbcc, f: Frame) {
    var (site, exit) := if v.bb.fn.skip then (from, jmp) else ArcFrom(c.nonskipped, from, jmp);
    && f.arc == (if v.bb.fn.skip then None else Some(Arc(site, exit, to)))
    && f.sp == (if disguised && c.frames != [] then c.frames[|c.frames| - 1].sp else sp)
    && f.ret == ReturnOf(site, exit)
  }

  /** Who is charged for what a skipped function calls: the first caller that is not skipped itself. */
  ghost predicate SkipRight(c: Control, v: Visit, from: Bbcc, d: Control) {
    d.nonskipped == if !v.bb.fn.skip then None else if c.nonskipped.Some? then c.nonskipped else Some(from)
  }

  /** Context and function stack on entering a function: unchanged if it, or its group, is on top. */
  ghost predicate Entered(c: Control, v: Visit, d: Control)
    requires |c.fns| > 0
  {
    var top, fn := c.fns[|c.fns| - 1], v.bb.fn;
    if top.Some? && (top.value == fn || (fn.group != 0 && top.value.group == fn.group))
    then d.cxt == c.cxt && d.fns == c.fns
    else d.cxt == Some(v.interned) && d.fns == c.fns + [Some(fn)]
  }

  /** From the stack as it is when the block is arrived at, by a call or otherwise. */
  ghost predicate Arrived(c: Control, v: Visit, pushed: bool, d: Control)
    requires |c.fns| > 0
  {
    && (pushed && !v.bb.fn.skip ==> Entered(c, v, d))
    && (!pushed || v.bb.fn.skip ==> d.cxt == c.cxt && d.fns == c.fns && d.active == c.active && d.collect == c.collect)
    && (!pushed ==> d == c)
  }

  /** The recursion level of the cost centre: how often its function is active, up to a maximum. */
  ghost predicate LevelRight(d: Control, b: Bbcc) {
    d.cxt == Some(b.cxt) &&
    var fn := b.cxt.fn;
    b.level == if fn.separateRecursions <= 1 then 0
               else (if d.active[fn] < fn.separateRecursions then d.active[fn] else fn.separateRecursions) - 1
  }

  /** A return that belongs to a call: the frames it leaves, and nothing else. */
  ghost predicate ReturnLaw(c: Control, v: Visit, r: Outcome)
    requires Inv(c) && c.frames != []
  {
    && (r.Underflow? <==> |c.fns| > 1 && c.fns[|c.fns| - 2].None?)
    && (r.Next? ==>
          exists n: nat ::
            && n <= |c.frames| && r.control == PopN(c, n) && r.control.frames == c.frames[..|c.frames| - n]
            && if c.frames[|c.frames| - 1].sp < v.sp then LeftBelow(c.frames, v.sp, n) else UpToCall(c.frames, v.sp, v.bb.addr, n))
  }

  /** A jump that is a call in disguise: a return that belongs to no call, or a jump or fall-through to
      an entry or to another section or object. */
  predicate Disguised(last: Bbcc, v: Visit) {
    var kind := Taken(last, v.passed).kind;
    kind != Call && (kind == Return || v.bb.isEntry || last.bb.sect != v.bb.sect || last.bb.obj != v.bb.obj)
  }

  /** Anything but a return that belongs to a call, from stack `c` with source and stack pointer
      given: the frames below the stack pointer go; if there are none and it is a call, in disguise or
      not, one frame is pushed. */
  ghost predicate OtherLaw(c: Control, last: Bbcc, v: Visit, from: Bbcc, jmp: nat, sp: nat, r: Outcome)
    requires Inv(c)
  {
    && r.Next?
    && var calls := Taken(last, v.passed).kind == Call || Disguised(last, v);
    && (calls && (c.frames == [] || c.frames[|c.frames| - 1].sp >= sp) ==>
          && |r.control.frames| == |c.frames| + 1 && r.control.frames[..|c.frames|] == c.frames
          && NewFrame(c, v, from, jmp, sp, Disguised(last, v), r.bbcc, r.control.frames[|c.frames|])
          && SkipRight(c, v, from, r.control) && |c.fns| > 0 && Arrived(c, v, true, r.control))
    && (!calls || (c.frames != [] && c.frames[|c.frames| - 1].sp < sp) ==>
          exists n: nat :: n <= |c.frames| && LeftBelow(c.frames, sp, n) && r.control == PopN(c, n)
                           && r.control.frames == c.frames[..|c.frames| - n])
  }

  /** One block execution after another block. */
  ghost predicate StepLaw(c: Control, last: Bbcc, v: Visit, r: Outcome)
    requires Inv(c)
  {
    var kind, top := Taken(last, v.passed).kind, |c.frames| - 1;
    && (r.Next? ==> r.bbcc.bb == v.bb && LevelRight(r.control, r.bbcc))
    && (kind == Return && c.frames == [] ==> r.Underflow?)
    && (kind == Return && Matched(c.frames, v.sp, v.bb.addr) ==> ReturnLaw(c, v, r))
    && (!(kind == Return && (c.frames == [] || Matched(c.frames, v.sp, v.bb.addr))) ==>
          if Disguised(last, v) && last.bb.fn.popOnJump && c.frames != [] && c.frames[top].arc.Some?
          then
            var f := c.frames[top];
            OtherLaw(PopN(c, 1), last, v, f.arc.value.from, f.arc.value.jmp, f.sp, r)
          else OtherLaw(c, last, v, last, v.passed, v.sp, r))
  }

  /** The first block of all: its function is the bottom one. */
  ghost predicate FirstLaw(c: Control, v: Visit, r: Outcome) {
    && r.Next? && r.bbcc.bb == v.bb && LevelRight(r.control, r.bbcc)
    && r.control.frames == [] && r.control.fns == [None, Some(v.bb.fn)] && r.control.cxt == Some(v.interned)
    && r.control.active == multiset{v.bb.fn} && r.control.collect == c.collect
  }

  // ---------------------------------------------------------------- setup_bbcc obeys

  lemma LevelIs(fn: Fn, active: multiset<Fn>, d: Control, b: Bbcc, entering: bool)
    requires entering || fn in active
    requires d.cxt == Some(b.cxt) && b.cxt.fn == fn && b.level == Level(fn, active, entering)
    requires d.active == if entering then active + multiset{fn} else active
    ensures LevelRight(d, b)
  {
  }

  /** Arriving by a call. */
  lemma ArriveCalled(c: Control, v: Visit, s: Source)
    requires Inv(c) && v.interned.fn == v.bb.fn && MayPush(c, s)
    ensures var r := Arrive(c, v, s, true);
            && r.bbcc.bb == v.bb && LevelRight(r.control, r.bbcc) && |c.fns| > 0
            && |r.control.frames| == |c.frames| + 1 && r.control.frames[..|c.frames|] == c.frames
            && NewFrame(c, v, s.from.value, s.jmp, s.sp, false, r.bbcc, r.control.frames[|c.frames|])
            && SkipRight(c, v, s.from.value, r.control) && Arrived(c, v, true, r.control)
  {
    hide Ordered, SavedOk, PushersOk, SkipsOk, ActiveOk, Level;
    var fn, r := v.bb.fn, Arrive(c, v, s, true);
    TopActive(c);
    if fn.skip {
      LevelIs(c.cxt.value.fn, c.active, r.control, r.bbcc, false);
    } else {
      var cxt := PushedCxt(c, fn, v.interned);
      LevelIs(cxt.fn, c.active, r.control, r.bbcc, true);
    }
  }

  lemma ArriveOtherwise(c: Control, v: Visit, s: Source)
    requires Inv(c) && v.interned.fn == v.bb.fn && c.cxt.Some?
    ensures var r := Arrive(c, v, s, false);
            r.control == c && r.bbcc.bb == v.bb && LevelRight(r.control, r.bbcc)
  {
    hide Inv, Level;
    TopActive(c);
    var r := Arrive(c, v, s, false);
    LevelIs(c.cxt.value.fn, c.active, r.control, r.bbcc, false);
  }

  /** The first block. */
  lemma FirstObeys(c: Control, v: Visit)
    requires Ready(c, None, v)
    ensures FirstLaw(c, v, Setup(c, None, v))
  {
    hide Ordered, PushersOk, SkipsOk, Level;
    var d := EnterFirst(c, v.bb.fn, v.interned);
    var b := Bbcc(v.bb, d.cxt.value, Level(d.cxt.value.fn, d.active, false));
    assert c.fns == [None] && c.frames == [] by { assert |c.fns| == 1; }
    assert Callees(c.frames) == multiset{};
    assert Setup(c, None, v) == Next(d, b);
    LevelIs(d.cxt.value.fn, d.active, d, b, false);
  }

  lemma {:induction false} PopNFramesLeft(c: Control, n: nat)
    requires Inv(c) && n <= |c.frames|
    ensures PopN(c, n).frames == c.frames[..|c.frames| - n]
    decreases n
  {
    hide Inv;
    if n > 0 {
      PopKeeps(c);
      PopNFramesLeft(PopCall(c), n - 1);
    }
  }

  lemma {:induction false} PopNCxtStays(c: Control, n: nat)
    requires Inv(c) && n <= |c.frames| && c.cxt.Some?
    ensures PopN(c, n).cxt.Some?
    decreases n
  {
    hide Inv;
    if n > 0 {
      PopKeeps(c);
      PopKeepsCxt(c);
      PopNCxtStays(PopCall(c), n - 1);
    }
  }

  lemma InOrder(c: Control)
    requires Inv(c)
    ensures Ordered(c.frames)
  {
  }

  /** A return that belongs to a call. */
  lemma ReturnObeys(c: Control, last: Bbcc, v: Visit)
    requires Ready(c, Some(last), v) && Taken(last, v.passed).kind == Return && Matched(c.frames, v.sp, v.bb.addr)
    ensures var r := Setup(c, Some(last), v);
            ReturnLaw(c, v, r) && (r.Next? ==> r.bbcc.bb == v.bb && LevelRight(r.control, r.bbcc))
  {
    hide Inv, Arrive, Unwind, ReturnPops, Matched, UpToCall, LeftBelow, LevelRight, Unwound, PopN;
    var p, r := Classify(c.frames, Some(last), v), Setup(c, Some(last), v);
    Nonempty(c.frames, v.sp, v.bb.addr);
    MatchedIsReturn(c.frames, v.sp, v.bb.addr);
    assert p == Plan(Return, ReturnPops(c.frames, v.sp, v.bb.addr), false);
    if !Underflows(c) {
      InOrder(c);
      UnwindExact(c, v.sp, p.pops);
      var n := Unwound(c.frames, v.sp, p.pops);
      ReturnCount(c.frames, v.sp, v.bb.addr);
      PopNFramesLeft(c, n);
      PopNCxtStays(c, n);
      ArriveOtherwise(PopN(c, n), v, Source(c, Some(last), v.passed, v.sp));
    }
  }

  lemma Nonempty(frames: seq<Frame>, sp: nat, addr: nat)
    requires Matched(frames, sp, addr)
    ensures frames != []
  {
  }

  lemma ReturnCount(frames: seq<Frame>, sp: nat, addr: nat)
    requires Ordered(frames) && frames != [] && ReturnPops(frames, sp, addr) > 0
    ensures var n := Unwound(frames, sp, ReturnPops(frames, sp, addr));
            if frames[|frames| - 1].sp < sp then LeftBelow(frames, sp, n) else UpToCall(frames, sp, addr, n)
  {
    hide Ordered, UpToCall, LeftBelow, Unwound, CountBelow, MatchPops;
    ReturnUnwinds(frames, sp, addr);
    BelowCounts(frames, sp);
    MatchIsUpToCall(frames, sp, addr);
  }

  /** Anything else, once its source is settled. */
  lemma OtherObeys(c: Control, v: Visit, s: Source, calls: bool, disguised: bool)
    requires Inv(c) && c.cxt.Some? && s.control == c && s.from.Some? && v.interned.fn == v.bb.fn
    ensures var d := Unwind(c, s.sp, 0);
            var push := calls && |d.frames| == |c.frames|;
            var t := s.(sp := if disguised && d.frames != [] then Last(d.frames).sp else s.sp);
            && d.cxt.Some? && (push ==> MayPush(d, t))
            && var r := Arrive(d, v, t, push);
            && r.bbcc.bb == v.bb && LevelRight(r.control, r.bbcc)
            && (calls && (c.frames == [] || c.frames[|c.frames| - 1].sp >= s.sp) ==>
                  && |r.control.frames| == |c.frames| + 1 && r.control.frames[..|c.frames|] == c.frames
                  && NewFrame(c, v, s.from.value, s.jmp, s.sp, disguised, r.bbcc, r.control.frames[|c.frames|])
                  && SkipRight(c, v, s.from.value, r.control) && |c.fns| > 0 && Arrived(c, v, true, r.control))
            && (!calls || (c.frames != [] && c.frames[|c.frames| - 1].sp < s.sp) ==>
                  exists n: nat :: n <= |c.frames| && LeftBelow(c.frames, s.sp, n) && r.control == PopN(c, n)
                                   && r.control.frames == c.frames[..|c.frames| - n])
  {
    hide Inv, Arrive, Unwind, LeftBelow, LevelRight, PopN, Arrived, CountBelow, CountEqual;
    var d := Unwind(c, s.sp, 0);
    InOrder(c);
    UnwindExact(c, s.sp, 0);
    var n := CountBelow(c.frames, s.sp);
    BelowCounts(c.frames, s.sp);
    PopNFramesLeft(c, n);
    PopNCxtStays(c, n);
    assert Unwound(c.frames, s.sp, 0) == n;
    NoneLeft(c.frames, s.sp);
    if n == 0 { UnwindNone(c, s.sp); }
    var push := calls && n == 0;
    var t := s.(sp := if disguised && d.frames != [] then Last(d.frames).sp else s.sp);
    if push {
      ArriveCalled(d, v, t);
    } else {
      ArriveOtherwise(d, v, t);
    }
  }

  lemma NoneLeft(frames: seq<Frame>, sp: nat)
    requires Ordered(frames)
    ensures CountBelow(frames, sp) == 0 <==> frames == [] || frames[|frames| - 1].sp >= sp
  {
    if frames == [] || frames[|frames| - 1].sp >= sp { NoneBelow(frames, sp); }
  }

  lemma PopOnce(c: Control)
    requires Inv(c) && c.frames != []
    ensures Poppable(c) && Inv(PopCall(c)) && PopN(c, 1) == PopCall(c) && PopN(c, 0) == c
  {
    hide Inv;
    PopKeeps(c);
    assert PopN(PopCall(c), 0) == PopCall(c);
  }

  lemma JumpPlan(c: Control, last: Bbcc, v: Visit)
    requires !(Taken(last, v.passed).kind == Return && (c.frames == [] || Matched(c.frames, v.sp, v.bb.addr)))
    ensures var p := Classify(c.frames, Some(last), v);
            && (p.kind == Call <==> Taken(last, v.passed).kind == Call || Disguised(last, v))
            && (p.emulated <==> Disguised(last, v)) && p.kind != Return
  {
    hide ReturnPops, Matched;
    if c.frames != [] { MatchedIsReturn(c.frames, v.sp, v.bb.addr); }
  }

  lemma JumpObeys(c: Control, last: Bbcc, v: Visit)
    requires Ready(c, Some(last), v)
    requires !(Taken(last, v.passed).kind == Return && (c.frames == [] || Matched(c.frames, v.sp, v.bb.addr)))
    ensures StepLaw(c, last, v, Setup(c, Some(last), v))
  {
    hide Inv, Arrive, Unwind, Matched, LeftBelow, LevelRight, PopN, NewFrame, Arrived, PopCall, MayPush, Classify;
    hide SkipRight, Disguised, Taken;
    var l := Some(last);
    var p, r := Classify(c.frames, l, v), Setup(c, l, v);
    JumpPlan(c, last, v);
    var calls := Taken(last, v.passed).kind == Call || Disguised(last, v);
    if PopsOnJump(c, l, p) {
      PopOnce(c);
      PopKeepsCxt(c);
    }
    var s := SourceOf(c, l, v, p);
    OtherObeys(s.control, v, s, calls, p.emulated);
  }

  /** Every block execution obeys. */
  lemma SetupObeys(c: Control, last: Bbcc, v: Visit)
    requires Ready(c, Some(last), v)
    ensures StepLaw(c, last, v, Setup(c, Some(last), v))
  {
    hide Inv, Arrive, Unwind, ReturnPops, UpToCall, LevelRight, OtherLaw, PopN;
    if Taken(last, v.passed).kind == Return && c.frames == [] {
    } else if Taken(last, v.passed).kind == Return && Matched(c.frames, v.sp, v.bb.addr) {
      ReturnObeys(c, last, v);
    } else {
      JumpObeys(c, last, v);
    }
  }

  /** In particular: a jump or fall-through to the inside of a function, in the same section and
      object, with no frame below the stack pointer, changes nothing but the block. */
  lemma JumpInside(c: Control, last: Bbcc, v: Visit)
    requires Ready(c, Some(last), v) && (Taken(last, v.passed).kind == Jump || Taken(last, v.passed).kind == NoJump)
    requires !v.bb.isEntry && last.bb.sect == v.bb.sect && last.bb.obj == v.bb.obj
    requires c.frames != [] ==> c.frames[|c.frames| - 1].sp >= v.sp
    ensures var r := Setup(c, Some(last), v); r.Next? && r.control == c && r.bbcc.bb == v.bb
  {
    hide Inv, LevelRight, PopN, Setup, LeftBelow;
    SetupObeys(c, last, v);
    var r := Setup(c, Some(last), v);
    var n: nat :| n <= |c.frames| && LeftBelow(c.frames, v.sp, n) && r.control == PopN(c, n);
    NothingLeft(c.frames, v.sp, n);
    assert PopN(c, 0) == c by { PopNone(c); }
  }

  lemma NothingLeft(frames: seq<Frame>, sp: nat, n: nat)
    requires LeftBelow(frames, sp, n) && (frames != [] ==> frames[|frames| - 1].sp >= sp)
    ensures n == 0
  {
    if frames != [] { assert frames[|frames| - 1].sp >= sp; }
  }

  lemma PopNone(c: Control)
    requires Inv(c)
    ensures PopN(c, 0) == c
  {
  }

  // ---------------------------------------------------------------- when costs are collected

  function Called(frames: seq<Frame>): (s: set<Fn>) {
    if frames == [] then {}
    else Called(frames[..|frames| - 1]) +
         if frames[|frames| - 1].Counted() then {frames[|frames| - 1].To()} else {}
  }

  /** The functions that switch collection, and are active by a call: all but the bottom one. */
  function Switching(c: Control): set<Fn> {
    set f | f in Called(c.frames) && f.toggle && !(|c.fns| > 1 && c.fns[1] == Some(f))
  }

  /** Collection is as it was at first, switched once for every such function. */
  ghost predicate CollectRight(start: bool, c: Control) {
    c.collect <==> (start <==> |Switching(c)| % 2 == 0)
  }

  lemma {:induction false} CalledIsCallees(frames: seq<Frame>, f: Fn)
    ensures f in Called(frames) <==> f in Callees(frames)
  {
    if frames != [] { CalledIsCallees(Init(frames), f); }
  }

  /** Whether a function is among them, by its active count without a given frame. */
  lemma CountedOnce(c: Control, f: Fn)
    requires Inv(c) && c.cxt.Some?
    ensures f in Switching(c) <==> f in Called(c.frames) && f.toggle && c.fns[1] != Some(f)
    ensures c.active[f] == Callees(c.frames)[f] + if c.fns[1] == Some(f) then 1 else 0
    ensures f in Called(c.frames) <==> Callees(c.frames)[f] > 0
  {
    hide Ordered, SavedOk, PushersOk, SkipsOk;
    CalledIsCallees(c.frames, f);
  }

  /** A counted frame on top switches collection exactly if its function was not active below. */
  lemma TopSwitches(c: Control)
    requires Inv(c) && c.cxt.Some? && c.frames != [] && Last(c.frames).Counted()
    ensures Poppable(c) && var d, fn := PopCall(c), Last(c.frames).To();
            && d.fns == c.fns[..|d.fns|] && |d.fns| > 1
            && Switching(c) == (if fn.toggle && c.active[fn] == 1 then Switching(d) + {fn} else Switching(d))
            && (fn.toggle && c.active[fn] == 1 ==> fn !in Switching(d))
            && (d.collect <==> if fn.toggle && c.active[fn] == 1 then !c.collect else c.collect)
  {
    hide Ordered, PushersOk, SkipsOk, FnsOk, Called;
    InvPoppable(c);
    var d, fn := PopCall(c), Last(c.frames).To();
    PopKeeps(c);
    PopKeepsCxt(c);
    Bottoms(c, d);
    CalledLast(c.frames);
    forall f ensures f in Switching(c) <==> (f in Switching(d) || (f == fn && fn.toggle && c.active[fn] == 1)) {
      CountedOnce(c, f);
      CountedOnce(d, f);
    }
    CountedOnce(c, fn);
    CountedOnce(d, fn);
  }

  lemma Bottoms(c: Control, d: Control)
    requires Inv(c) && c.cxt.Some? && c.frames != [] && Last(c.frames).Counted() && Poppable(c) && d == PopCall(c)
    ensures |c.fns| > 1 && |d.fns| > 1 && d.fns == c.fns[..|d.fns|] && d.fns[1] == c.fns[1]
    ensures Callees(c.frames) == Callees(d.frames) + multiset{Last(c.frames).To()}
  {
    hide Ordered, PushersOk, SkipsOk, ActiveOk;
    assert SavedAt(c.fns, c.frames[|c.frames| - 1]);
  }

  lemma CalledLast(frames: seq<Frame>)
    requires frames != [] && Last(frames).Counted()
    ensures Called(frames) == Called(Init(frames)) + {Last(frames).To()}
  {
  }

  /** Taking a frame off keeps collection right. */
  lemma PopCollects(start: bool, c: Control)
    requires Inv(c) && c.cxt.Some? && c.frames != [] && CollectRight(start, c)
    ensures Poppable(c) && CollectRight(start, PopCall(c))
  {
    hide Inv, Called;
    InvPoppable(c);
    if Last(c.frames).Counted() {
      TopSwitches(c);
    } else {
      CalledSkip(c.frames);
    }
  }

  lemma CalledSkip(frames: seq<Frame>)
    requires frames != [] && !Last(frames).Counted()
    ensures Called(frames) == Called(Init(frames))
  {
  }

  lemma {:induction false} PopNCollects(start: bool, c: Control, n: nat)
    requires Inv(c) && n <= |c.frames| && c.cxt.Some? && CollectRight(start, c)
    ensures CollectRight(start, PopN(c, n))
    decreases n
  {
    hide Inv, CollectRight, PopCall;
    if n > 0 {
      PopKeeps(c);
      PopKeepsCxt(c);
      PopCollects(start, c);
      PopNCollects(start, PopCall(c), n - 1);
    }
  }

  /** Putting one on does, too: popping it again gives the state before. */
  lemma EnterCollects(start: bool, c: Control, fn: Fn, interned: Cxt, from: Bbcc, jmp: nat, to: Bbcc, sp: nat)
    requires CanEnter(c, fn, interned, to, sp) && CollectRight(start, c)
    ensures CollectRight(start, Enter(c, fn, interned, from, jmp, to, sp))
  {
    hide Inv, Called, PopCall;
    var d := Enter(c, fn, interned, from, jmp, to, sp);
    EnterKeeps(c, fn, interned, from, jmp, to, sp);
    PopUndoesEnter(c, fn, interned, from, jmp, to, sp);
    EnterCxt(c, fn, interned, from, jmp, to, sp);
    TopSwitches(d);
  }

  lemma ArriveCollects(start: bool, c: Control, v: Visit, s: Source, push: bool)
    requires Inv(c) && c.cxt.Some? && v.interned.fn == v.bb.fn && (push ==> MayPush(c, s)) && CollectRight(start, c)
    ensures CollectRight(start, Arrive(c, v, s, push).control)
  {
    hide Inv, Called, Enter, Level, PushCxt, CollectRight;
    if push && !v.bb.fn.skip {
      var cxt := PushedCxt(c, v.bb.fn, v.interned);
      var to := Bbcc(v.bb, cxt, Level(cxt.fn, c.active, true));
      var (from, jmp) := CallSite(c, s.from.value, s.jmp);
      EnterCollects(start, c, v.bb.fn, v.interned, from, jmp, to, s.sp);
    } else if push {
      TopActive(c);
      var to := Bbcc(v.bb, c.cxt.value, Level(c.cxt.value.fn, c.active, false));
      SkipCollects(start, c, s.from.value, s.jmp, to, s.sp);
    }
  }

  lemma SkipCollects(start: bool, c: Control, from: Bbcc, jmp: nat, to: Bbcc, sp: nat)
    requires CollectRight(start, c)
    ensures CollectRight(start, PushCall(c, from, jmp, to, sp, true))
  {
    var d := PushCall(c, from, jmp, to, sp, true);
    assert Init(d.frames) == c.frames;
    CalledSkip(d.frames);
  }

  lemma SetupCollects(start: bool, c: Control, last: Option<Bbcc>, v: Visit)
    requires Ready(c, last, v) && CollectRight(start, c) && Setup(c, last, v).Next?
    ensures CollectRight(start, Setup(c, last, v).control)
  {
    hide Inv, Called, CollectRight, MayPush, Arrive, PopN, Popped, Setup;
    if last.None? {
      FirstObeys(c, v);
      FirstCollects(start, c, Setup(c, last, v).control);
    } else {
      SetupPops(c, last, v);
      var k := Popped(c, last, v);
      var s, push :| (push ==> MayPush(PopN(c, k), s)) && Setup(c, last, v) == Arrive(PopN(c, k), v, s, push);
      PopNCollects(start, c, k);
      PopNCxtStays(c, k);
      ArriveCollects(start, PopN(c, k), v, s, push);
    }
  }

  lemma FirstCollects(start: bool, c: Control, d: Control)
    requires Inv(c) && c.cxt.None? && CollectRight(start, c) && d.frames == [] && d.collect == c.collect
    ensures CollectRight(start, d)
  {
    hide Ordered, SavedOk, PushersOk, SkipsOk, ActiveOk;
    assert Switching(c) == {} && Switching(d) == {};
  }

  /** In every state of every run, costs are collected exactly if they were at first and an even
      number of the functions marked as switches, other than the bottom one, is active by a call, or
      they were not and the number is odd. */
  lemma {:induction false} CollectAlwaysRight(trail: seq<Exec>, visits: seq<Visit>, collect: bool, i: nat)
    requires Runs(trail, visits) && trail[0] == Exec(Start(collect), None) && i < |trail|
    ensures CollectRight(collect, trail[i].control)
  {
    hide CollectRight, Setup, Ready;
    if i == 0 {
      StartCollects(collect);
    } else {
      CollectAlwaysRight(trail, visits, collect, i - 1);
      assert Steps(trail[i - 1], visits[i - 1], trail[i]);
      SetupCollects(collect, trail[i - 1].control, trail[i - 1].last, visits[i - 1]);
    }
  }

  lemma StartCollects(collect: bool)
    ensures CollectRight(collect, Start(collect))
  {
    assert Switching(Start(collect)) == {};
  }
}
