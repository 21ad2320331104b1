/** The state that callgrind updates in place: call entries, function stack and arc costs
(callgrind/callstack.c, context.c, bbcc.c and the counting part of dump.c). */
module CallStacks {
  import opened SortedList
  import SS = ShadowStack
  import opened ShadowStack
  import opened BbSetup
  import CallLaws
  import CC = CallCost
  import opened CallCost
  import opened CostRuns
  import opened Words

  datatype CallEntry = CallEntry(arc: Option<Arc>, sp: nat, ret: nat, nonskipped: Option<Bbcc>, cxt: Option<Cxt>, fnSp: nat)

  function EmptyEntry(): CallEntry { CallEntry(None, 0, 0, None, None, 0) }

  /** The context saved in an entry; a null context means nothing is saved. */
  function SavedIn(e: CallEntry): Option<Saved> {
    if e.cxt.Some? then Some(Saved(e.cxt.value, e.fnSp)) else None
  }

  function FrameOf(e: CallEntry): Frame { Frame(e.arc, e.sp, e.ret, e.nonskipped, SavedIn(e)) }

  function Frames(entries: seq<CallEntry>): (r: seq<Frame>)
    ensures |r| == |entries| && forall i :: 0 <= i < |r| ==> r[i] == FrameOf(entries[i])
  {
    seq(|entries|, i requires 0 <= i < |entries| => FrameOf(entries[i]))
  }

  /** Enter costs matter for counted frames only. */
  function OpenOf(e: CallEntry, enter: Cost, events: nat): Open {
    Open(e.arc, if e.arc.Some? then enter else ZeroCost(events))
  }

  function Opens(entries: seq<CallEntry>, enter: seq<Cost>, events: nat): (r: seq<Open>)
    requires |entries| <= |enter|
    ensures |r| == |entries| && forall i :: 0 <= i < |r| ==> r[i] == OpenOf(entries[i], enter[i], events)
  {
    seq(|entries|, i requires 0 <= i < |entries| => OpenOf(entries[i], enter[i], events))
  }

  lemma FramesSnoc(entries: seq<CallEntry>, n: nat)
    requires n < |entries|
    ensures Frames(entries[..n + 1]) == Frames(entries[..n]) + [FrameOf(entries[n])]
  {
  }

  lemma OpensSnoc(entries: seq<CallEntry>, enter: seq<Cost>, events: nat, n: nat)
    requires n < |entries| == |enter|
    ensures Opens(entries[..n + 1], enter, events) == Opens(entries[..n], enter, events) + [OpenOf(entries[n], enter[n], events)]
  {
  }

  lemma SameOpens(entries: seq<CallEntry>, enter: seq<Cost>, enter': seq<Cost>, events: nat)
    requires |entries| <= |enter| == |enter'| && enter[..|entries|] == enter'[..|entries|]
    ensures Opens(entries, enter, events) == Opens(entries, enter', events)
  {
    hide ZeroCost;
    forall i | 0 <= i < |entries| ensures enter[i] == enter'[i] {
      assert enter[..|entries|][i] == enter'[..|entries|][i];
    }
  }

  ghost predicate CostsWf(acc: Account, enter: seq<Cost>) {
    acc.Wf() && forall i :: 0 <= i < |enter| ==> IsCost(enter[i], acc.events)
  }

  /** The account after a pop, if there is one. */
  ghost function PopIf(acc: Account, pops: bool): Account {
    if pops && acc.Wf() && acc.stack != [] then Apply(acc, CC.Pop) else acc
  }

  lemma CostsAre(acc: Account, enter: seq<Cost>)
    requires CostsWf(acc, enter)
    ensures acc.Wf() && forall i :: 0 <= i < |enter| ==> IsCost(enter[i], acc.events)
  {
  }

  class CallStack {
    const events: nat
    /** Index of the instruction counter. */
    const ir: nat
    const simulateCache: bool

    var entry: seq<CallEntry>
    var enter: seq<Cost>
    var sp: nat
    var fnStack: seq<Option<Fn>>
    var top: nat
    var cxt: Option<Cxt>
    var nonskipped: Option<Bbcc>
    var collect: bool
    var active: multiset<Fn>
    var bbcc: Option<Bbcc>
    var now: Cost
    var held: map<Arc, Cost>
    var calls: map<Arc, nat>
    var printed: map<Arc, seq<nat>>
    var printedCalls: map<Arc, nat>

    ghost predicate Shape()
      reads this
    {
      sp < |entry| == |enter| && top < |fnStack| && ir < events && CostsWf(Acct(), enter)
    }

    ghost function Ctl(): Control
      requires sp < |entry| && top < |fnStack|
      reads this
    {
      Control(Frames(entry[..sp]), SavedIn(entry[sp]), fnStack[..top + 1], cxt, nonskipped, collect, active)
    }

    ghost function Acct(): Account
      requires sp < |entry| == |enter|
      reads this
    {
      Account(events, now, Opens(entry[..sp], enter, events), held, calls, printed, printedCalls)
    }

    /** All of it as one state of a run. */
    ghost function State(): Whole
      requires sp < |entry| == |enter| && top < |fnStack|
      reads this
    {
      Whole(Ctl(), bbcc, Acct())
    }

    ghost function Counting(): Mode { Mode(ir, simulateCache) }

    constructor (events: nat, ir: nat, simulateCache: bool, collect: bool, size: nat)
      requires ir < events && size > 0
      ensures Shape() && Ctl() == Start(collect) && bbcc == None
      ensures Acct() == Account(events, ZeroCost(events), [], map[], map[], map[], map[])
      ensures State() == NewWhole(events, collect)
    {
      this.events, this.ir, this.simulateCache, this.collect := events, ir, simulateCache, collect;
      entry, enter, sp := seq(size, _ => EmptyEntry()), seq(size, _ => ZeroCost(events)), 0;
      fnStack, top := seq(500, _ => None), 0;
      cxt, nonskipped, active, bbcc := None, None, multiset{}, None;
      now, held, calls, printed, printedCalls := ZeroCost(events), map[], map[], map[], map[];
    }

    /** ensure_stack_size.  An index up to the present size exists afterwards; a larger one may
        come out one short. */
    method EnsureStackSize(i: nat)
      requires Shape()
      modifies this`entry, this`enter
      ensures Shape() && i <= |entry| && (i <= old(|entry|) ==> i < |entry|)
      ensures Ctl() == old(Ctl()) && Acct() == old(Acct()) && entry[sp] == old(entry[sp])
    {
      if i < |entry| { return; }
      var size := |entry| * 2;
      while i > size
        invariant size >= |entry| * 2
        decreases i - size
      {
        size := size * 2;
      }
      var more := size - |entry|;
      ghost var entry0, enter0 := entry, enter;
      entry, enter := entry + seq(more, _ => EmptyEntry()), enter + seq(more, _ => ZeroCost(events));
      assert entry[..sp] == entry0[..sp];
      assert Opens(entry[..sp], enter, events) == Opens(entry0[..sp], enter0, events);
    }

    method GrowFnStack()
      requires Shape()
      modifies this`fnStack
      ensures Shape() && top + 1 < |fnStack| && fnStack[..top + 1] == old(fnStack[..top + 1])
      ensures Acct() == old(Acct())
    {
      if top == |fnStack| - 1 { fnStack := fnStack + seq(|fnStack|, _ => None); }
    }

    method SaveCxt()
      requires Shape()
      modifies this`entry
      ensures Shape() && Acct() == old(Acct())
      ensures Ctl() == old(Ctl()).(pending := if cxt.Some? then Some(Saved(cxt.value, top)) else None)
    {
      hide Frames, Opens, CostsWf;
      ghost var entry0 := entry;
      entry := entry[sp := entry[sp].(cxt := cxt, fnSp := top)];
      assert entry[..sp] == entry0[..sp];
    }

    method EnterFn(fn: Fn, interned: Cxt)
      requires Shape()
      modifies this`fnStack, this`top, this`cxt, this`active
      ensures Shape() && Acct() == old(Acct())
      ensures var c := old(Ctl());
              Ctl() == c.(fns := c.fns + [Some(fn)], cxt := Some(interned),
                          active := if Last(c.fns).None? then c.active + multiset{fn} else c.active)
    {
      hide Frames, Opens, CostsWf;
      ghost var fns := fnStack[..top + 1];
      GrowFnStack();
      assert fnStack[top] == Last(fns);
      if fnStack[top].None? { active := active + multiset{fn}; }
      top := top + 1;
      fnStack := fnStack[top := Some(fn)];
      cxt := Some(interned);
      assert fnStack[..top + 1] == fns + [Some(fn)];
    }

    /** push_cxt.  The first function must not belong to a group: its group would be compared with
        that of the null marker. */
    method PushCxt(fn: Fn, interned: Cxt)
      requires Shape() && entry[sp].cxt.None? && (fnStack[top].None? ==> fn.group == 0)
      modifies this`entry, this`fnStack, this`top, this`cxt, this`active
      ensures Shape() && Ctl() == SS.PushCxt(old(Ctl()), fn, interned) && Acct() == old(Acct())
    {
      hide Frames, Opens, CostsWf;
      assert fnStack[top] == Last(Ctl().fns);
      SaveCxt();
      if fnStack[top] == Some(fn) { return; }
      if fn.group > 0 && fnStack[top].value.group == fn.group { return; }
      EnterFn(fn, interned);
    }
  
    /** Fills the entry above the top and makes it the top; the one after it has no context yet. */
    method PutFrame(arc: Option<Arc>, stackPointer: nat, ret: nat)
      requires Shape() && sp + 1 < |entry|
      modifies this`entry, this`sp, this`enter
      ensures Shape()
      ensures var c := old(Ctl());
              Ctl() == c.(frames := c.frames + [Frame(arc, stackPointer, ret, c.nonskipped, c.pending)], pending := None)
      ensures var a := old(Acct());
              Acct() == a.(stack := a.stack + [Open(arc, if arc.Some? then a.now else ZeroCost(events))])
    {
      hide IsCost, Frames, Opens;
      CostsAre(Acct(), enter);
      assert IsCost(now, events) && IsCost(ZeroCost(events), events);
      ghost var entry0, enter0 := entry, enter;
      if arc.Some? { enter := enter[sp := now]; }
      entry := entry[sp := entry[sp].(arc := arc, sp := stackPointer, ret := ret, nonskipped := nonskipped)];
      sp := sp + 1;
      entry := entry[sp := entry[sp].(cxt := None)];
      FramesSnoc(entry, sp - 1);
      OpensSnoc(entry, enter, events, sp - 1);
      assert entry[..sp - 1] == entry0[..sp - 1];
      SameOpens(entry[..sp - 1], enter0, enter, events);
    }

    /** The counting part of a call: active count, call counter and function_entered. */
    method CountCall(a: Arc)
      requires Shape()
      modifies this`active, this`calls, this`collect
      ensures Shape()
      ensures var c, fn := old(Ctl()), a.to.cxt.fn;
              Ctl() == c.(active := c.active + multiset{fn},
                          collect := if fn.toggle && c.active[fn] == 0 then !c.collect else c.collect)
      ensures var acc := old(Acct()); Acct() == acc.(calls := acc.calls[a := acc.Calls(a) + 1])
    {
      hide Frames, Opens, IsCost;
      var fn := a.to.cxt.fn;
      active := active + multiset{fn};
      calls := calls[a := (if a in calls then calls[a] else 0) + 1];
      if active[fn] == 1 && fn.toggle { collect := !collect; }
    }

    /** push_call_stack, with its assertions as preconditions. */
    method PushCallStack(from: Bbcc, jmp: nat, to: Bbcc, stackPointer: nat, skip: bool)
      requires Shape()
      requires !skip ==> entry[sp].cxt.Some? && (nonskipped.Some? ==> nonskipped == Some(from))
      modifies this`entry, this`enter, this`sp, this`nonskipped, this`collect, this`active, this`calls
      ensures Shape() && Ctl() == PushCall(old(Ctl()), from, jmp, to, stackPointer, skip)
      ensures Acct() == Apply(old(Acct()), CC.Push(if skip then None else Some(Arc(from, jmp, to))))
    {
      hide Frames, Opens, RetOf, CostsWf, ZeroCost;
      CostsAre(Acct(), enter);
      hide Account.Wf, IsCost;
      EnsureStackSize(sp + 1);
      if !skip { CountCall(Arc(from, jmp, to)); }
      PutFrame(if skip then None else Some(Arc(from, jmp, to)), stackPointer, RetOf(from, jmp));
      if !skip {
        nonskipped := None;
      } else if nonskipped.None? {
        nonskipped := Some(from);
      }
    }

    /** Takes the top entry off, clearing its saved context. */
    method TakeFrame()
      requires Shape() && sp > 0
      modifies this`entry, this`sp
      ensures Shape() && sp == old(sp) - 1
      ensures var c := old(Ctl()); Ctl() == c.(frames := Init(c.frames), pending := None)
      ensures var a := old(Acct()); Acct() == a.(stack := Init(a.stack))
    {
      ghost var entry0 := entry;
      FramesSnoc(entry, sp - 1);
      OpensSnoc(entry, enter, events, sp - 1);
      FrameCount();
      hide Frames, Opens, IsCost;
      sp := sp - 1;
      entry := entry[sp := entry[sp].(cxt := None)];
      assert entry[..sp] == entry0[..sp];
    }

    /** The entry of the top frame, and what the views say about it. */
    method TopEntry() returns (e: CallEntry)
      requires Shape() && sp > 0
      ensures e == entry[sp - 1] && FrameOf(e) == Last(Ctl().frames)
      ensures OpenOf(e, enter[sp - 1], events) == Last(Acct().stack)
    {
      FramesSnoc(entry, sp - 1);
      OpensSnoc(entry, enter, events, sp - 1);
      e := entry[sp - 1];
    }

    /** Adds a frame's cost since it was entered to its arc. */
    method SettleArc(a: Arc, since: Cost) returns (upToDate: Cost)
      requires Shape() && IsCost(since, events)
      modifies this`held
      ensures Shape() && upToDate == now && Ctl() == old(Ctl())
      ensures Acct() == Settle(old(Acct()), Open(Some(a), since))
    {
      hide Frames, Opens;
      var changed, sum;
      var before := if a in held then held[a] else ZeroCost(events);
      sum, upToDate, changed := AddDiffCost(before, since, now);
      held := held[a := sum];
    }

    /** Back to a saved context and function. */
    method RestoreCxt(saved: Option<Cxt>, fnSp: nat)
      requires Shape() && fnSp <= top
      modifies this`cxt, this`top
      ensures Shape() && Acct() == old(Acct())
      ensures var c := old(Ctl()); Ctl() == c.(cxt := saved, fns := c.fns[..fnSp + 1])
    {
      hide Frames, Opens, CostsWf;
      assert fnStack[..top + 1][..fnSp + 1] == fnStack[..fnSp + 1];
      cxt, top := saved, fnSp;
    }

    /** The counting part of a return: active count and function_left. */
    method UncountCall(fn: Fn)
      requires Shape() && fn in active
      modifies this`active, this`collect
      ensures Shape() && Acct() == old(Acct())
      ensures var c := old(Ctl());
              Ctl() == c.(active := c.active - multiset{fn},
                          collect := if fn.toggle && c.active[fn] == 1 then !c.collect else c.collect)
    {
      hide Frames, Opens, CostsWf;
      assert (active - multiset{fn})[fn] == active[fn] - 1;
      active := active - multiset{fn};
      if active[fn] == 0 && fn.toggle { collect := !collect; }
    }

    /** Everything a return from a counted call does except taking the frame off. */
    method LeaveCall(e: CallEntry, since: Cost)
      requires Shape() && IsCost(since, events)
      requires e.arc.Some? && e.cxt.Some? && e.fnSp <= top && e.arc.value.to.cxt.fn in active
      modifies this`collect, this`active, this`cxt, this`top, this`held
      ensures Shape() && Acct() == Settle(old(Acct()), Open(e.arc, since))
      ensures var c, fn := old(Ctl()), e.arc.value.to.cxt.fn;
              Ctl() == c.(active := c.active - multiset{fn}, cxt := e.cxt, fns := c.fns[..e.fnSp + 1],
                          collect := if fn.toggle && c.active[fn] == 1 then !c.collect else c.collect)
    {
      hide Frames, Opens, CostsWf, Settle;
      var _ := SettleArc(e.arc.value, since);
      UncountCall(e.arc.value.to.cxt.fn);
      RestoreCxt(e.cxt, e.fnSp);
    }

    /** pop_call_stack */
    method PopCallStack()
      requires Shape() && Poppable(Ctl())
      modifies this`entry, this`sp, this`nonskipped, this`collect, this`active, this`cxt, this`top, this`held
      ensures Shape() && sp == old(sp) - 1 && Ctl() == PopCall(old(Ctl()))
      ensures Acct() == Apply(old(Acct()), CC.Pop)
    {
      hide Frames, Opens, CostsWf;
      CostsAre(Acct(), enter);
      hide Account.Wf, IsCost;
      FrameCount();
      var e := TopEntry();
      var since := enter[sp - 1];
      nonskipped := e.nonskipped;
      if e.arc.Some? { LeaveCall(e, since); }
      TakeFrame();
    }

    lemma FrameCount()
      requires Shape()
      ensures |Ctl().frames| == sp == |Acct().stack| && |Ctl().fns| == top + 1
    {
    }

    lemma Matches()
      requires Shape()
      ensures Inv(Ctl()) ==> StackMatches(State())
    {
      hide Frames, Opens, IsCost, Account.Wf, Inv;
      FrameCount();
      CostsAre(Acct(), enter);
    }

    method TopLeaves(stackPointer: nat, minpops: int) returns (r: bool)
      requires Shape() && sp > 0
      ensures |Ctl().frames| > 0 && r == Leaves(Last(Ctl().frames), stackPointer, minpops)
    {
      FrameCount();
      var e := TopEntry();
      r := e.sp < stackPointer || (e.sp == stackPointer && minpops > 0);
    }

    /** unwind_call_stack */
    method UnwindCallStack(stackPointer: nat, minpops: int) returns (count: nat)
      requires Shape() && Inv(Ctl())
      modifies this`entry, this`sp, this`nonskipped, this`collect, this`active, this`cxt, this`top, this`held
      ensures Shape() && Inv(Ctl()) && Ctl() == Unwind(old(Ctl()), stackPointer, minpops)
      ensures count == old(sp) - sp
      ensures Acct() == PopAll(old(Acct()), count)
    {
      hide Inv, PopCall, Frames, Opens, CostsWf, Account.Wf, Poppable, Apply, Unwind, PopAll, PopN, FrameOf, OpenOf;
      CostsAre(Acct(), enter);
      var pops := minpops;
      count := 0;
      ghost var c0, a0 := Ctl(), Acct();
      FrameCount();
      PopAllDone(a0, 0);
      while sp > 0
        invariant Shape() && Inv(Ctl()) && Unwind(Ctl(), stackPointer, pops) == Unwind(c0, stackPointer, minpops)
        invariant a0.Wf() && count + sp == |a0.stack| && Acct() == PopAll(a0, count)
        decreases sp
      {
        FrameCount();
        UnwindStep(Ctl(), stackPointer, pops, 0);
        var leaves := TopLeaves(stackPointer, pops);
        if !leaves { break; }
        pops := pops - 1;
        PopAllDone(a0, count);
        count := count + 1;
        PopCallStack();
      }
      FrameCount();
      if sp == 0 { UnwindEmpty(Ctl(), stackPointer, pops); }
    }

    /** The search of setup_bbcc for the call a return belongs to. */
    method ReturnPopCount(stackPointer: nat, addr: nat) returns (n: nat)
      requires Shape() && sp > 0
      ensures n == ReturnPops(Ctl().frames, stackPointer, addr)
    {
      hide Account.Wf, IsCost, Opens, MatchPops;
      ghost var frames := Ctl().frames;
      FrameCount();
      var up := sp - 1;
      assert Last(frames) == frames[up] == FrameOf(entry[up]);
      if stackPointer < entry[up].sp { return 0; }
      if stackPointer > entry[up].sp { return 1; }
      n := 1;
      while true
        invariant up < sp && n == sp - up && frames[up] == FrameOf(entry[up])
        invariant forall j :: up <= j < sp ==> frames[j].sp == stackPointer
        invariant forall j :: up < j < sp ==> frames[j].ret != addr
        decreases up
      {
        MatchPopsUp(frames, up, stackPointer, addr);
        if entry[up].ret == addr { return; }
        if up > 0 {
          up := up - 1;
          assert frames[up] == FrameOf(entry[up]);
          if entry[up].sp == stackPointer {
            n := n + 1;
            continue;
          }
        }
        return 0;
      }
    }

    /** cs_addCount for the running thread: all active calls are brought up to date. */
    method AddActiveCosts()
      requires Shape()
      modifies this`held, this`enter
      ensures Shape() && Ctl() == old(Ctl())
      ensures Acct() == Apply(old(Acct()), CC.AddActive)
    {
      hide Account.Wf, IsCost, Settle, Opens, Frames, SettleAt;
      ghost var acc := Acct();
      FrameCount();
      var i := 0;
      while i < sp
        invariant 0 <= i <= sp && Shape() && Ctl() == old(Ctl())
        invariant acc.Wf() && |acc.stack| == sp && Acct() == SettleFirst(acc, i)
      {
        SettleEntry(i);
        i := i + 1;
      }
    }

    method SettleEntry(i: nat)
      requires Shape() && i < sp
      modifies this`held, this`enter
      ensures Shape() && Ctl() == old(Ctl()) && |Acct().stack| == sp
      ensures old(|Acct().stack|) == sp && Acct() == SettleAt(old(Acct()), i)
    {
      hide Settle, Frames;
      if entry[i].arc.None? { return; }
      var before := enter[i];
      ghost var stack := Acct().stack;
      var upToDate := SettleArc(entry[i].arc.value, before);
      enter := enter[i := upToDate];
      assert Opens(entry[..sp], enter, events) == stack[i := Open(entry[i].arc, upToDate)];
    }

    /** fprint_jcc for a call arc: prints and clears it if it has any cost. */
    method PrintJcc(a: Arc)
      requires Shape()
      modifies this`held, this`calls, this`printed, this`printedCalls
      ensures Shape() && Ctl() == old(Ctl())
      ensures Acct() == Apply(old(Acct()), CC.Print(a))
    {
      hide Frames, Opens, PrintArc, Sum, CostsWf, Account.Wf, IsCost, ZeroCost;
      CostsAre(Acct(), enter);
      var cost, soFar, made := CostsOf(a);
      PrintsOut(Acct(), a, soFar, cost);
      var zero := IsZeroCost(cost);
      if !zero { Record(a, Sum(soFar, cost), made); }
    }

    method CostsOf(a: Arc) returns (cost: Cost, soFar: seq<nat>, made: nat)
      requires Shape()
      ensures cost == Acct().Held(a) && soFar == Acct().Printed(a) && made == Acct().PrintedCalls(a) + Acct().Calls(a)
    {
      cost := if a in held then held[a] else ZeroCost(events);
      soFar := if a in printed then printed[a] else ZeroCost(events);
      made := (if a in printedCalls then printedCalls[a] else 0) + (if a in calls then calls[a] else 0);
    }

    /** Writes an arc's line and clears its counters. */
    method Record(a: Arc, cost: seq<nat>, made: nat)
      requires Shape() && |cost| == events
      modifies this`held, this`calls, this`printed, this`printedCalls
      ensures Shape() && Ctl() == old(Ctl())
      ensures var acc := old(Acct());
              Acct() == acc.(printed := acc.printed[a := cost], printedCalls := acc.printedCalls[a := made],
                             held := acc.held[a := ZeroCost(events)], calls := acc.calls[a := 0])
    {
      hide Frames, Opens, IsCost;
      assert IsCost(ZeroCost(events), events);
      printed, printedCalls := printed[a := cost], printedCalls[a := made];
      held, calls := held[a := ZeroCost(events)], calls[a := 0];
    }

    /** The two parts of a dump as steps of a run: all active calls settled, then arcs printed. */
    method SettleStep()
      requires Shape() && Inv(Ctl())
      modifies this`held, this`enter
      ensures Shape() && StepsTo(Counting(), old(State()), SettleAll, State())
    {
      hide Inv, Apply, Frames, Opens, CostsWf, StackMatches;
      Matches();
      AddActiveCosts();
    }

    method PrintStep(a: Arc)
      requires Shape() && Inv(Ctl())
      modifies this`held, this`calls, this`printed, this`printedCalls
      ensures Shape() && StepsTo(Counting(), old(State()), PrintOne(a), State())
    {
      hide Inv, Apply, Frames, Opens, CostsWf, StackMatches;
      Matches();
      PrintJcc(a);
    }

    /** The cost of the block just left, counted while collecting. */
    method CountInstructions(last: Option<Bbcc>, passed: nat)
      requires Shape() && (last.Some? ==> passed <= |last.value.bb.side|)
      modifies this`now
      ensures Shape() && Ctl() == old(Ctl()) && Acct() == Spent(old(Acct()), ir, last, passed, collect && !simulateCache)
    {
      hide Frames, Opens;
      if last.Some? && collect && !simulateCache {
        var n := last.value.bb.ExitAt(passed).instr + 1;
        ghost var d := Instructions(events, ir, n);
        assert Plus(now, d) == now[ir := (now[ir] + n) % WORD64];
        now := now[ir := (now[ir] + n) % WORD64];
      }
    }

    /** The recursion level of the block's cost centre. */
    method RecursionLevel(leader: Fn, entering: bool) returns (level: nat)
      requires entering || leader in active
      ensures level == Level(leader, active, entering)
    {
      level := 0;
      if leader.separateRecursions > 1 {
        level := active[leader];
        if entering { level := level + 1; }
        if level > leader.separateRecursions { level := leader.separateRecursions; }
        assert level > 0;
        level := level - 1;
      }
    }

    /** The push at the end of setup_bbcc: a call out of a skipped function is charged to the caller
        that was not skipped. */
    method DelayedPush(from: Bbcc, jmp: nat, to: Bbcc, stackPointer: nat, skip: bool)
      requires Shape() && (!skip ==> entry[sp].cxt.Some?)
      modifies this`entry, this`enter, this`sp, this`nonskipped, this`collect, this`active, this`calls
      ensures Shape()
      ensures var site := if !skip && old(nonskipped).Some? then (old(nonskipped).value, |old(nonskipped).value.bb.side|)
                          else (from, jmp);
              Ctl() == PushCall(old(Ctl()), site.0, site.1, to, stackPointer, skip)
      ensures Ctl().frames != [] && Acct() == Apply(old(Acct()), CC.Push(Last(Ctl().frames).arc))
    {
      hide Frames, Opens, CostsWf, Apply, Account.Wf;
      var site, exit := from, jmp;
      if !skip && nonskipped.Some? {
        site, exit := nonskipped.value, |nonskipped.value.bb.side|;
      }
      PushCallStack(site, exit, to, stackPointer, skip);
    }

    /** From the context change to the end of setup_bbcc. */
    method ArriveAt(v: Visit, from: Option<Bbcc>, jmp: nat, stackPointer: nat, push: bool, ghost s: Source)
      requires s.from == from && s.jmp == jmp && s.sp == stackPointer
      requires Shape() && Inv(Ctl()) && v.interned.fn == v.bb.fn && (push ==> MayPush(Ctl(), s))
      requires cxt.None? ==> v.bb.fn.group == 0
      modifies this
      ensures Shape() && bbcc.Some? && Arrive(old(Ctl()), v, s, push) == Next(Ctl(), bbcc.value)
      ensures !push ==> Acct() == old(Acct())
      ensures push ==> Ctl().frames != [] && Acct() == Apply(old(Acct()), CC.Push(Last(Ctl().frames).arc))
    {
      hide Inv, Arrive, Frames, Opens, CostsWf, Apply, MayPush, SS.PushCxt, Level, Account.Wf, PushCall;
      ghost var c := Ctl();
      InvFacts(c);
      ArriveUnfold(c, v, s, push);
      var entering := push && !v.bb.fn.skip;
      if entering || cxt.None? { PushCxt(v.bb.fn, v.interned); }
      var level := RecursionLevel(cxt.value.fn, entering);
      var to := Bbcc(v.bb, cxt.value, level);
      if push { DelayedPush(from.value, jmp, to, stackPointer, v.bb.fn.skip); }
      bbcc := Some(to);
    }

    /** The classification of the jump that led to a block. */
    method ClassifyJump(v: Visit) returns (p: Plan)
      requires Shape() && (bbcc.Some? ==> v.passed <= |bbcc.value.bb.side|)
      ensures p == Classify(Ctl().frames, bbcc, v)
    {
      hide ReturnPops, Frames, Opens, CostsWf;
      FrameCount();
      var kind := if bbcc.Some? then bbcc.value.bb.ExitAt(v.passed).kind else NoJump;
      var pops := 1;
      if kind == Return && sp > 0 {
        pops := ReturnPopCount(v.sp, v.bb.addr);
        if pops == 0 { kind := Jump; }
      }
      var emulated := false;
      if kind != Return && kind != Call && bbcc.Some? {
        if pops == 0 || v.bb.isEntry || bbcc.value.bb.sect != v.bb.sect || bbcc.value.bb.obj != v.bb.obj {
          kind, emulated := Call, true;
        }
      }
      p := Plan(kind, pops, emulated);
    }

    /** Pop on jump: the source of the call to come. */
    method TakeSource(v: Visit, p: Plan) returns (from: Option<Bbcc>, jmp: nat, stackPointer: nat)
      requires Shape() && Inv(Ctl()) && (p.emulated ==> bbcc.Some?)
      modifies this`entry, this`sp, this`nonskipped, this`collect, this`active, this`cxt, this`top, this`held
      ensures Shape() && Source(Ctl(), from, jmp, stackPointer) == SourceOf(old(Ctl()), bbcc, v, p)
      ensures Acct() == PopIf(old(Acct()), PopsOnJump(old(Ctl()), bbcc, p))
      ensures sp == old(sp) - if PopsOnJump(old(Ctl()), bbcc, p) then 1 else 0
    {
      hide Inv, PopCall, Frames, Opens, CostsWf, Apply, Poppable;
      from, jmp, stackPointer := bbcc, v.passed, v.sp;
      FrameCount();
      CostsAre(Acct(), enter);
      if p.emulated && bbcc.value.bb.fn.popOnJump && sp > 0 {
        PopKeeps(Ctl());
        SkippedHasCaller(Ctl());
        var e := TopEntry();
        if e.arc.Some? {
          from, jmp, stackPointer := Some(e.arc.value.from), e.arc.value.jmp, e.sp;
          PopCallStack();
        } else {
          assert nonskipped.Some?;
        }
      }
    }

    /** Account after a block execution: the block's cost, the pops, and the push if there is one. */
    ghost predicate AccountsFor(acc: Account, c: Control, last: Option<Bbcc>, v: Visit)
      requires Shape() && acc.Wf() && |acc.stack| == |c.frames| && Ready(c, last, v)
      reads this
    {
      var k := Popped(c, last, v);
      if sp + k == |c.frames| then Acct() == PopAll(acc, k)
      else Ctl().frames != [] && Acct() == Apply(PopAll(acc, k), CC.Push(Last(Ctl().frames).arc))
    }

    /** A return: unwind, then arrive. */
    method SetupReturn(v: Visit, p: Plan) returns (underflow: bool)
      requires Shape() && Ready(Ctl(), bbcc, v) && bbcc.Some?
      requires p == Classify(Ctl().frames, bbcc, v) && p.kind == Return
      modifies this
      ensures Shape() && underflow == Underflows(old(Ctl()))
      ensures underflow ==> Ctl() == old(Ctl()) && Acct() == old(Acct())
      ensures !underflow ==> bbcc.Some? && Setup(old(Ctl()), old(bbcc), v) == Next(Ctl(), bbcc.value)
      ensures !underflow ==> |old(Acct()).stack| == |old(Ctl()).frames|
      ensures !underflow ==> AccountsFor(old(Acct()), old(Ctl()), old(bbcc), v)
    {
      hide Inv, Classify, Unwind, Arrive, Frames, Opens, CostsWf, Apply, PopAll, Unwound, Account.Wf, PopN;
      ghost var c := Ctl();
      FrameCount();
      CostsAre(Acct(), enter);
      if sp == 0 || (top > 0 && fnStack[top - 1].None?) { return true; }
      underflow := false;
      UnwindExact(c, v.sp, p.pops);
      CxtAfterUnwind(c, v.sp, p.pops);
      var n := UnwindCallStack(v.sp, p.pops);
      FrameCount();
      ArriveAt(v, bbcc, v.passed, v.sp, false, Source(c, bbcc, v.passed, v.sp));
      ArriveFrames(Unwind(c, v.sp, p.pops), v, Source(c, old(bbcc), v.passed, v.sp), false);
      FrameCount();
    }

    /** Pop on jump, and frames the stack pointer has left. */
    method LeaveFrames(v: Visit, p: Plan) returns (from: Option<Bbcc>, jmp: nat, stackPointer: nat, n: nat)
      requires Shape() && Ready(Ctl(), bbcc, v) && p == Classify(Ctl().frames, bbcc, v) && p.kind != Return
      modifies this`entry, this`sp, this`nonskipped, this`collect, this`active, this`cxt, this`top, this`held
      ensures var s := SourceOf(old(Ctl()), bbcc, v, p);
              && Shape() && Ctl() == Unwind(s.control, s.sp, 0) && n == |s.control.frames| - sp
              && from == s.from && jmp == s.jmp && stackPointer == s.sp
      ensures |old(Acct()).stack| == |old(Ctl()).frames| && sp == |old(Ctl()).frames| - Popped(old(Ctl()), bbcc, v)
      ensures Acct() == PopAll(old(Acct()), Popped(old(Ctl()), bbcc, v))
    {
      hide Inv, Classify, Unwind, Frames, Opens, CostsWf, Apply, PopAll, Account.Wf;
      hide SourceOf, PopsOnJump, Setup, Popped;
      ghost var c, acc := Ctl(), Acct();
      FrameCount();
      CostsAre(acc, enter);
      from, jmp, stackPointer := TakeSource(v, p);
      FrameCount();
      OtherUnfold(c, bbcc, v);
      ghost var mid := Acct();
      n := UnwindCallStack(stackPointer, 0);
      FrameCount();
      PoppedPart(acc, mid, n, PopsOnJump(c, bbcc, p));
    }

    /** A call or jump: frames the stack pointer has left are unwound, and a call that unwound none
        is pushed. */
    method SetupOther(v: Visit, p: Plan)
      requires Shape() && Ready(Ctl(), bbcc, v)
      requires p == Classify(Ctl().frames, bbcc, v) && p.kind != Return
      modifies this
      ensures Shape() && bbcc.Some? && Setup(old(Ctl()), old(bbcc), v) == Next(Ctl(), bbcc.value)
      ensures |old(Acct()).stack| == |old(Ctl()).frames|
      ensures AccountsFor(old(Acct()), old(Ctl()), old(bbcc), v)
    {
      hide Inv, Classify, Unwind, Arrive, Frames, Opens, CostsWf, Apply, PopAll, Account.Wf, MayPush;
      hide SourceOf, PopsOnJump, Setup, Popped;
      ghost var c, last := Ctl(), bbcc;
      CostsAre(Acct(), enter);
      OtherUnfold(c, last, v);
      var from, jmp, stackPointer, n := LeaveFrames(v, p);
      FrameCount();
      var push := p.kind == Call && n == 0;
      if push && p.emulated && sp > 0 {
        var e := TopEntry();
        stackPointer := e.sp;
      }
      ghost var d, t := Ctl(), SourceOf(c, last, v, p).(sp := stackPointer);
      ArriveAt(v, from, jmp, stackPointer, push, t);
      ArriveFrames(d, v, t, push);
      FrameCount();
    }

    /** setup_bbcc */
    method SetupBbcc(v: Visit) returns (underflow: bool)
      requires Shape() && Ready(Ctl(), bbcc, v) && (bbcc.Some? ==> v.passed <= |bbcc.value.bb.side|)
      modifies this
      ensures Shape() && underflow == Setup(old(Ctl()), old(bbcc), v).Underflow?
      ensures !underflow ==> bbcc.Some? && Setup(old(Ctl()), old(bbcc), v) == Next(Ctl(), bbcc.value)
      ensures var acc := Spent(old(Acct()), ir, old(bbcc), v.passed, old(collect) && !simulateCache);
              if underflow then Ctl() == old(Ctl()) && Acct() == acc
              else |acc.stack| == |old(Ctl()).frames| && AccountsFor(acc, old(Ctl()), old(bbcc), v)
      ensures !underflow ==> StepsTo(Counting(), old(State()), Block(v), State())
      ensures !underflow && old(bbcc).Some? ==> CallLaws.StepLaw(old(Ctl()), old(bbcc).value, v, Next(Ctl(), bbcc.value))
      ensures !underflow && old(bbcc).None? ==> CallLaws.FirstLaw(old(Ctl()), v, Next(Ctl(), bbcc.value))
    {
      hide Inv, Classify, Unwind, Arrive, Frames, Opens, CostsWf, Apply, Popped, Spent, Account.Wf, SourceOf;
      hide CallLaws.StepLaw, CallLaws.FirstLaw;
      if bbcc.Some? { CallLaws.SetupObeys(Ctl(), bbcc.value, v); } else { CallLaws.FirstObeys(Ctl(), v); }
      CostsAre(Acct(), enter);
      CountInstructions(bbcc, v.passed);
      var p := ClassifyJump(v);
      if p.kind == Return {
        underflow := SetupReturn(v, p);
      } else {
        SetupOther(v, p);
        underflow := false;
      }
    }
  }

  lemma PrintsOut(acc: Account, a: Arc, soFar: seq<nat>, cost: Cost)
    requires acc.Wf() && soFar == acc.Printed(a) && cost == acc.Held(a)
    ensures |soFar| == |cost| == acc.events
    ensures PrintArc(acc, a) ==
            if cost == ZeroCost(acc.events) then acc
            else acc.(printed := acc.printed[a := Sum(soFar, cost)],
                      printedCalls := acc.printedCalls[a := acc.PrintedCalls(a) + acc.Calls(a)],
                      held := acc.held[a := ZeroCost(acc.events)], calls := acc.calls[a := 0])
  {
  }

  /** Frames that cannot be what a return belongs to are passed over. */
  lemma {:induction false} MatchPopsUp(frames: seq<Frame>, k: nat, sp: nat, addr: nat)
    requires k < |frames|
    requires forall j :: k < j < |frames| ==> frames[j].sp == sp && frames[j].ret != addr
    ensures var m := MatchPops(frames[..k + 1], sp, addr);
            MatchPops(frames, sp, addr) == if m == 0 then 0 else m + (|frames| - 1 - k)
    ensures frames[k].sp == sp && frames[k].ret == addr ==> MatchPops(frames[..k + 1], sp, addr) == 1
    ensures frames[k].sp == sp && frames[k].ret != addr && (k == 0 || frames[k - 1].sp != sp) ==>
              MatchPops(frames[..k + 1], sp, addr) == 0
  {
    if k == |frames| - 1 {
      assert frames[..k + 1] == frames;
      if k > 0 { assert Last(Init(frames)) == frames[k - 1]; }
    } else {
      assert Init(frames)[..k + 1] == frames[..k + 1];
      MatchPopsUp(Init(frames), k, sp, addr);
    }
  }

  lemma InvFacts(c: Control)
    requires Inv(c)
    ensures c.pending.None? && |c.fns| > 0 && (Last(c.fns).None? <==> c.cxt.None?)
    ensures c.cxt.Some? ==> Last(c.fns) == Some(c.cxt.value.fn)
  {
  }

  /** The cases of `Arrive` in the order of the source: context, level, call site, push. */
  lemma ArriveUnfold(c: Control, v: Visit, s: Source, push: bool)
    requires Inv(c) && v.interned.fn == v.bb.fn && (push ==> MayPush(c, s))
    ensures |c.fns| > 0 && (push ==> s.from.Some?)
    ensures var entering := push && !v.bb.fn.skip;
            var d := if entering || c.cxt.None? then SS.PushCxt(c, v.bb.fn, v.interned) else c;
            && d.cxt.Some? && (entering || d.cxt.value.fn in d.active) && d.nonskipped == c.nonskipped
            && (entering ==> d.pending.Some?)
            && var to := Bbcc(v.bb, d.cxt.value, Level(d.cxt.value.fn, d.active, entering));
               var site := if entering && d.nonskipped.Some? then (d.nonskipped.value, |d.nonskipped.value.bb.side|)
                           else if push then (s.from.value, s.jmp) else (to, 0);
               Arrive(c, v, s, push) ==
               Next(if push then PushCall(d, site.0, site.1, to, s.sp, v.bb.fn.skip) else d, to)
  {
    hide SavedOk, PushersOk, SkipsOk, ActiveOk, Ordered, Level;
    var entering := push && !v.bb.fn.skip;
    if !entering && c.cxt.Some? { TopActive(c); }
    if c.cxt.None? { var d := EnterFirst(c, v.bb.fn, v.interned); }
  }

  lemma SkippedHasCaller(c: Control)
    requires Inv(c) && c.frames != []
    ensures !Last(c.frames).Counted() ==> c.nonskipped.Some?
  {
    hide SavedOk, PushersOk, FnsOk, ActiveOk, Ordered;
    var n := |c.frames| - 1;
    assert c.frames[n].Counted() <==> Skipping(c.frames, c.nonskipped, n + 1).None?;
  }

  lemma CxtAfterUnwind(c: Control, sp: nat, minpops: int)
    requires Inv(c) && c.cxt.Some?
    ensures Unwind(c, sp, minpops).cxt.Some?
  {
    hide Inv, Unwind, PopN, Unwound;
    UnwindExact(c, sp, minpops);
    PopNCxt(c, Unwound(c.frames, sp, minpops));
  }

  lemma ArriveFrames(c: Control, v: Visit, s: Source, push: bool)
    requires Inv(c) && v.interned.fn == v.bb.fn && (push ==> MayPush(c, s))
    ensures |Arrive(c, v, s, push).control.frames| == |c.frames| + if push then 1 else 0
  {
    hide Inv, Arrive, MayPush, Level;
    ArriveUnfold(c, v, s, push);
  }

  /** The source's context survives pop on jump and unwinding. */
  lemma OthersCxt(c: Control, last: Option<Bbcc>, v: Visit, p: Plan)
    requires Ready(c, last, v)
    ensures var s := SourceOf(c, last, v, p);
            Unwind(s.control, s.sp, 0).cxt.None? <==> c.cxt.None?
  {
    hide Inv, Unwind;
    var s := SourceOf(c, last, v, p);
    if c.cxt.Some? {
      if PopsOnJump(c, last, p) { PopKeepsCxt(c); }
      CxtAfterUnwind(s.control, s.sp, 0);
    } else {
      NoFramesYet(c);
      UnwindEmpty(c, s.sp, 0);
    }
  }

  lemma NoFramesYet(c: Control)
    requires Inv(c) && c.cxt.None?
    ensures c.frames == []
  {
  }

  lemma PoppedPart(acc: Account, mid: Account, n: nat, one: bool)
    requires acc.Wf() && mid.Wf() && n <= |mid.stack|
    requires |acc.stack| == |mid.stack| + (if one then 1 else 0)
    requires mid == if one then Apply(acc, CC.Pop) else acc
    ensures PopAll(mid, n) == PopAll(acc, n + if one then 1 else 0)
  {
    hide Account.Wf, Apply;
  }

  /** Without a push the source does not matter. */
  lemma ArriveSame(c: Control, v: Visit, s: Source, t: Source, push: bool)
    requires Inv(c) && v.interned.fn == v.bb.fn && (push ==> MayPush(c, s) && s == t)
    ensures Arrive(c, v, s, push) == Arrive(c, v, t, push)
  {
    hide Inv, Level, Enter;
  }

  /** The parts of a step that is not a return, in the order of the source. */
  lemma OtherUnfold(c: Control, last: Option<Bbcc>, v: Visit)
    requires Ready(c, last, v) && Classify(c.frames, last, v).kind != Return
    ensures var p := Classify(c.frames, last, v);
            var s := SourceOf(c, last, v, p);
            var d := Unwind(s.control, s.sp, 0);
            var push := p.kind == Call && |d.frames| == |s.control.frames|;
            var t := if push && p.emulated && d.frames != [] then s.(sp := Last(d.frames).sp) else s;
            && (push ==> MayPush(d, t)) && (d.cxt.None? <==> c.cxt.None?)
            && Setup(c, last, v) == Arrive(d, v, t, push)
            && Popped(c, last, v) == |s.control.frames| - |d.frames| + if PopsOnJump(c, last, p) then 1 else 0
  {
    hide Inv, Unwind, Unwound, Classify, Arrive, MayPush, SourceOf, PopN;
    var p := Classify(c.frames, last, v);
    var s := SourceOf(c, last, v, p);
    var d := Unwind(s.control, s.sp, 0);
    UnwindExact(s.control, s.sp, 0);
    OthersCxt(c, last, v, p);
    if last.Some? {
      MayPushHere(c, last, v);
      if !(p.kind == Call && |d.frames| == |s.control.frames|) {
        ArriveSame(d, v, s, s.(sp := if p.emulated && d.frames != [] then Last(d.frames).sp else s.sp), false);
      }
    }
  }
}
