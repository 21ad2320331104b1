/** Callgrind's shadow call stack as a value (callgrind/callstack.c, context.c and the call
classification of bbcc.c): what each block execution does to frames, contexts and active counts. */
module ShadowStack {
  import opened SortedList

  // ---------------------------------------------------------------- what the stack is made of

  datatype Fn = Fn(number: nat, skip: bool, popOnJump: bool, toggle: bool, group: nat, separateRecursions: nat)

  datatype JumpKind = NoJump | Jump | Call | Return

  /** A way out of a block; `ret` is the address after the instruction that leaves. */
  datatype Exit = Exit(kind: JumpKind, instr: nat, ret: nat)

  datatype Bb = Bb(addr: nat, fn: Fn, obj: nat, sect: nat, isEntry: bool, side: seq<Exit>, end: Exit) {
    function ExitAt(passed: nat): Exit {
      if passed < |side| then side[passed] else end
    }
  }

  /** An interned context: its innermost function and its identity. */
  datatype Cxt = Cxt(fn: Fn, id: nat)

  /** The cost centre of a block in a context and at a recursion level. */
  datatype Bbcc = Bbcc(bb: Bb, cxt: Cxt, level: nat)

  datatype Arc = Arc(from: Bbcc, jmp: nat, to: Bbcc)

  /** Context and function-stack position to go back to. */
  datatype Saved = Saved(cxt: Cxt, fnSp: nat)

  /** A frame; skipped calls have no arc. */
  datatype Frame = Frame(arc: Option<Arc>, sp: nat, ret: nat, nonskipped: Option<Bbcc>, saved: Option<Saved>) {
    predicate Counted() { arc.Some? }
    function To(): Fn requires arc.Some? { arc.value.to.cxt.fn }
  }

  /** Everything but costs.  `fns` is the function stack up to its top; its first entry is the
      null marker.  `pending` is the context saved for the next frame. */
  datatype Control = Control(
    frames: seq<Frame>, pending: Option<Saved>, fns: seq<Option<Fn>>, cxt: Option<Cxt>,
    nonskipped: Option<Bbcc>, collect: bool, active: multiset<Fn>)

  function Start(collect: bool): Control {
    Control([], None, [None], None, None, collect, multiset{})
  }

  function Last<T>(s: seq<T>): T requires |s| > 0 { s[|s| - 1] }
  function Init<T>(s: seq<T>): seq<T> requires |s| > 0 { s[..|s| - 1] }

  // ---------------------------------------------------------------- pushing and popping

  predicate SameTop(top: Option<Fn>, fn: Fn) {
    top.Some? && (top.value == fn || (fn.group > 0 && top.value.group == fn.group))
  }

  /** push_cxt: saves the context and enters `fn` unless the top function or group is the same.
      `interned` is what the context table returns for the new function stack. */
  function PushCxt(c: Control, fn: Fn, interned: Cxt): (r: Control)
    requires |c.fns| > 0
  {
    var top := Last(c.fns);
    var saved := if c.cxt.Some? then Some(Saved(c.cxt.value, |c.fns| - 1)) else None;
    if SameTop(top, fn) then c.(pending := saved)
    else
      c.(pending := saved, fns := c.fns + [Some(fn)], cxt := Some(interned),
         active := if top.None? then c.active + multiset{fn} else c.active)
  }

  function RetOf(from: Bbcc, jmp: nat): nat {
    var exit := from.bb.ExitAt(jmp);
    if exit.kind == Call then exit.ret else 0
  }

  /** push_call_stack */
  function PushCall(c: Control, from: Bbcc, jmp: nat, to: Bbcc, sp: nat, skip: bool): (r: Control) {
    var frame := Frame(if skip then None else Some(Arc(from, jmp, to)), sp, RetOf(from, jmp), c.nonskipped, c.pending);
    var fn := to.cxt.fn;
    if skip then
      c.(frames := c.frames + [frame], pending := None,
         nonskipped := if c.nonskipped.None? then Some(from) else c.nonskipped)
    else
      c.(frames := c.frames + [frame], pending := None, nonskipped := None, active := c.active + multiset{fn},
         collect := if fn.toggle && c.active[fn] == 0 then !c.collect else c.collect)
  }

  /** What pop_call_stack relies on: a context to go back to and a count to take back. */
  ghost predicate Poppable(c: Control) {
    && |c.frames| > 0
    && var f := Last(c.frames);
       f.Counted() ==> f.saved.Some? && f.saved.value.fnSp < |c.fns| && f.To() in c.active
  }

  /** pop_call_stack */
  function PopCall(c: Control): (r: Control)
    requires Poppable(c)
    ensures r.frames == Init(c.frames)
  {
    var f := Last(c.frames);
    if f.Counted() then
      var fn := f.To();
      c.(frames := Init(c.frames), pending := None, nonskipped := f.nonskipped, active := c.active - multiset{fn},
         cxt := Some(f.saved.value.cxt), fns := c.fns[..f.saved.value.fnSp + 1],
         collect := if fn.toggle && c.active[fn] == 1 then !c.collect else c.collect)
    else c.(frames := Init(c.frames), pending := None, nonskipped := f.nonskipped)
  }

  /** A counted call: context and frame. */
  function Enter(c: Control, fn: Fn, interned: Cxt, from: Bbcc, jmp: nat, to: Bbcc, sp: nat): (r: Control)
    requires |c.fns| > 0
  {
    PushCall(PushCxt(c, fn, interned), from, jmp, to, sp, false)
  }

  // ---------------------------------------------------------------- what every step keeps

  /** The stack pointers never increase from bottom to top. */
  ghost predicate Ordered(frames: seq<Frame>) {
    forall i, j :: 0 <= i < j < |frames| ==> frames[i].sp >= frames[j].sp
  }

  /** The current context belongs to the function on top; there is none before the first block. */
  ghost predicate FnsOk(fns: seq<Option<Fn>>, cxt: Option<Cxt>, frames: seq<Frame>) {
    && |fns| > 0 && fns[0] == None && (forall i :: 0 < i < |fns| ==> fns[i].Some?)
    && (cxt.None? <==> |fns| == 1)
    && (cxt.None? ==> frames == [])
    && (cxt.Some? ==> Last(fns) == Some(cxt.value.fn))
  }

  ghost predicate SavedAt(fns: seq<Option<Fn>>, f: Frame) {
    f.Counted() ==> f.saved.Some? && 1 <= f.saved.value.fnSp < |fns| && fns[f.saved.value.fnSp] == Some(f.saved.value.cxt.fn)
  }

  /** Every counted frame can restore its context, and frames restore in stack order. */
  ghost predicate SavedOk(frames: seq<Frame>, fns: seq<Option<Fn>>) {
    && (forall i :: 0 <= i < |frames| ==> SavedAt(fns, frames[i]))
    && (forall i, j :: 0 <= i < j < |frames| && frames[i].Counted() && frames[j].Counted() ==>
          frames[i].saved.value.fnSp <= frames[j].saved.value.fnSp)
  }

  /** The skip state before frame i was pushed, or now for i past the top. */
  function Skipping(frames: seq<Frame>, now: Option<Bbcc>, i: nat): Option<Bbcc> {
    if i < |frames| then frames[i].nonskipped else now
  }

  /** There is a nonskipped caller exactly while the top frame is a skipped call. */
  ghost predicate SkipsOk(frames: seq<Frame>, now: Option<Bbcc>) {
    && Skipping(frames, now, 0).None?
    && forall i :: 0 <= i < |frames| ==> (frames[i].Counted() <==> Skipping(frames, now, i + 1).None?)
  }

  /** The functions of the counted frames. */
  function Callees(frames: seq<Frame>): multiset<Fn> {
    if frames == [] then multiset{}
    else Callees(Init(frames)) + if Last(frames).Counted() then multiset{Last(frames).To()} else multiset{}
  }

  function Bottom(fns: seq<Option<Fn>>): multiset<Fn> {
    if |fns| > 1 && fns[1].Some? then multiset{fns[1].value} else multiset{}
  }

  /** A function's active count is its number of counted frames, plus one for the bottom function. */
  ghost predicate ActiveOk(c: Control) { c.active == Callees(c.frames) + Bottom(c.fns) }

  ghost predicate PushedBy(f: Frame, fns: seq<Option<Fn>>, i: nat)
    requires i < |fns|
  {
    f.Counted() && f.saved.Some? && f.saved.value.fnSp == i - 1 && fns[i] == Some(f.To())
  }

  ghost predicate HasPusher(frames: seq<Frame>, fns: seq<Option<Fn>>, i: nat)
    requires i < |fns|
  {
    exists k :: 0 <= k < |frames| && PushedBy(frames[k], fns, i)
  }

  /** Every function above the bottom one was put there by a frame that is still on the stack. */
  ghost predicate PushersOk(frames: seq<Frame>, fns: seq<Option<Fn>>) {
    forall i :: 2 <= i < |fns| ==> HasPusher(frames, fns, i)
  }

  ghost predicate Inv(c: Control) {
    && FnsOk(c.fns, c.cxt, c.frames) && SavedOk(c.frames, c.fns) && PushersOk(c.frames, c.fns)
    && SkipsOk(c.frames, c.nonskipped) && ActiveOk(c) && Ordered(c.frames) && c.pending.None?
  }

  lemma StartInv(collect: bool)
    ensures Inv(Start(collect))
  {
  }

  // ---------------------------------------------------------------- taking a frame off

  lemma {:induction false} CalleesIn(frames: seq<Frame>, k: nat)
    requires k < |frames| && frames[k].Counted()
    ensures frames[k].To() in Callees(frames)
  {
    if k < |frames| - 1 { CalleesIn(Init(frames), k); }
  }

  lemma InvPoppable(c: Control)
    requires Inv(c) && |c.frames| > 0
    ensures Poppable(c) && SavedAt(c.fns, Last(c.frames))
  {
    hide Ordered, SkipsOk, PushersOk;
    assert SavedAt(c.fns, Last(c.frames));
    if Last(c.frames).Counted() { CalleesIn(c.frames, |c.frames| - 1); }
  }

  /** Dropping the top frame, and the functions it and its callees put on the function stack. */
  lemma DropFrame(frames: seq<Frame>, fns: seq<Option<Fn>>, keep: nat)
    requires frames != [] && SavedOk(frames, fns) && PushersOk(frames, fns) && keep <= |fns|
    requires Last(frames).Counted() ==> keep == Last(frames).saved.value.fnSp + 1
    requires !Last(frames).Counted() ==> keep == |fns|
    ensures SavedOk(Init(frames), fns[..keep]) && PushersOk(Init(frames), fns[..keep])
  {
    var r, g := Init(frames), fns[..keep];
    forall i | 0 <= i < |r| ensures SavedAt(g, r[i]) { assert SavedAt(fns, frames[i]); }
    forall i | 2 <= i < |g| ensures HasPusher(r, g, i) {
      assert HasPusher(frames, fns, i);
      var k :| 0 <= k < |frames| && PushedBy(frames[k], fns, i);
      assert PushedBy(r[k], g, i);
    }
  }

  lemma DropSkips(frames: seq<Frame>, now: Option<Bbcc>)
    requires frames != [] && SkipsOk(frames, now)
    ensures SkipsOk(Init(frames), Last(frames).nonskipped)
  {
    var r, then_ := Init(frames), Last(frames).nonskipped;
    assert forall i :: 0 <= i <= |r| ==> Skipping(r, then_, i) == Skipping(frames, now, i);
    assert forall i :: 0 <= i < |r| ==> r[i] == frames[i];
  }

  lemma PopActive(c: Control)
    requires Inv(c) && |c.frames| > 0
    ensures Poppable(c) && ActiveOk(PopCall(c))
  {
    hide Ordered, SkipsOk, PushersOk, SavedOk;
    InvPoppable(c);
  }

  lemma PopFns(c: Control)
    requires Inv(c) && |c.frames| > 0
    ensures Poppable(c) && FnsOk(PopCall(c).fns, PopCall(c).cxt, PopCall(c).frames) && Ordered(PopCall(c).frames)
  {
    hide SavedOk, PushersOk, SkipsOk, ActiveOk;
    InvPoppable(c);
  }

  lemma PopKeeps(c: Control)
    requires Inv(c) && |c.frames| > 0
    ensures Poppable(c) && Inv(PopCall(c))
  {
    hide SavedOk, PushersOk, SkipsOk, ActiveOk, FnsOk, Ordered;
    InvPoppable(c);
    PopFns(c);
    PopActive(c);
    var f := Last(c.frames);
    DropFrame(c.frames, c.fns, if f.Counted() then f.saved.value.fnSp + 1 else |c.fns|);
    DropSkips(c.frames, c.nonskipped);
    assert c.fns[..|c.fns|] == c.fns;
  }

  // ---------------------------------------------------------------- putting a frame on

  lemma AddFrame(frames: seq<Frame>, fns: seq<Option<Fn>>, f: Frame, more: seq<Option<Fn>>)
    requires SavedOk(frames, fns) && PushersOk(frames, fns) && SavedAt(fns, f) && |more| <= 1
    requires f.Counted() ==> f.saved.value.fnSp == |fns| - 1
    requires more != [] ==> f.Counted() && more[0] == Some(f.To())
    ensures SavedOk(frames + [f], fns + more) && PushersOk(frames + [f], fns + more)
  {
    var r, g, n := frames + [f], fns + more, |frames|;
    forall i | 0 <= i < |r| ensures SavedAt(g, r[i]) {
      assert SavedAt(fns, if i < n then frames[i] else f);
    }
    assert forall i :: 0 <= i < n && frames[i].Counted() ==> SavedAt(fns, frames[i]);
    forall i | 2 <= i < |g| ensures HasPusher(r, g, i) {
      if i < |fns| {
        assert HasPusher(frames, fns, i);
        var k :| 0 <= k < n && PushedBy(frames[k], fns, i);
        assert PushedBy(r[k], g, i);
      } else {
        assert PushedBy(r[n], g, i);
      }
    }
  }

  lemma AddSkips(frames: seq<Frame>, f: Frame, now: Option<Bbcc>)
    requires SkipsOk(frames, f.nonskipped) && (f.Counted() <==> now.None?)
    ensures SkipsOk(frames + [f], now)
  {
    var r := frames + [f];
    assert forall i :: 0 <= i <= |frames| ==> Skipping(r, now, i) == Skipping(frames, f.nonskipped, i);
    assert forall i :: 0 <= i < |frames| ==> r[i] == frames[i];
  }

  lemma AddOrdered(frames: seq<Frame>, f: Frame)
    requires Ordered(frames) && (frames != [] ==> f.sp <= Last(frames).sp)
    ensures Ordered(frames + [f])
  {
    if frames != [] {
      assert forall i :: 0 <= i < |frames| - 1 ==> frames[i].sp >= frames[|frames| - 1].sp;
    }
  }

  lemma AddCallees(frames: seq<Frame>, f: Frame)
    ensures Callees(frames + [f]) == Callees(frames) + if f.Counted() then multiset{f.To()} else multiset{}
  {
    assert Init(frames + [f]) == frames;
  }

  /** A call whose callee runs in the context push_cxt sets up. */
  ghost predicate CanEnter(c: Control, fn: Fn, interned: Cxt, to: Bbcc, sp: nat) {
    && Inv(c) && c.cxt.Some? && interned.fn == fn && to.cxt == PushCxt(c, fn, interned).cxt.value
    && (c.frames != [] ==> sp <= Last(c.frames).sp)
  }

  function EnterFrame(c: Control, from: Bbcc, jmp: nat, to: Bbcc, sp: nat): Frame
    requires c.cxt.Some? && |c.fns| > 0
  {
    Frame(Some(Arc(from, jmp, to)), sp, RetOf(from, jmp), c.nonskipped, Some(Saved(c.cxt.value, |c.fns| - 1)))
  }

  function EnterFn(c: Control, fn: Fn): seq<Option<Fn>>
    requires |c.fns| > 0
  {
    if SameTop(Last(c.fns), fn) then [] else [Some(fn)]
  }

  /** What a counted call changes, field by field. */
  function Entered(c: Control, f: Frame, more: seq<Option<Fn>>, cxt: Cxt): Control {
    Control(c.frames + [f], None, c.fns + more, Some(cxt), None,
            if cxt.fn.toggle && c.active[cxt.fn] == 0 then !c.collect else c.collect, c.active + multiset{cxt.fn})
  }

  ghost predicate EntersBy(c: Control, f: Frame, more: seq<Option<Fn>>, cxt: Cxt) {
    && Inv(c) && c.cxt.Some? && (c.frames != [] ==> f.sp <= Last(c.frames).sp)
    && f.Counted() && f.To() == cxt.fn && f.nonskipped == c.nonskipped
    && |c.fns| > 0 && f.saved == Some(Saved(c.cxt.value, |c.fns| - 1))
    && Last(c.fns + more) == Some(cxt.fn) && (more == [] || more == [Some(cxt.fn)])
  }

  lemma EnterShape(c: Control, fn: Fn, interned: Cxt, from: Bbcc, jmp: nat, to: Bbcc, sp: nat)
    requires CanEnter(c, fn, interned, to, sp)
    ensures var f, more := EnterFrame(c, from, jmp, to, sp), EnterFn(c, fn);
            Enter(c, fn, interned, from, jmp, to, sp) == Entered(c, f, more, to.cxt) && EntersBy(c, f, more, to.cxt)
  {
    hide SavedOk, PushersOk, SkipsOk, Ordered, ActiveOk;
    assert c.fns + [] == c.fns;
  }

  lemma EnteredKeeps(c: Control, f: Frame, more: seq<Option<Fn>>, cxt: Cxt)
    requires EntersBy(c, f, more, cxt)
    ensures Inv(Entered(c, f, more, cxt))
  {
    hide FnsOk, SavedOk, PushersOk, SkipsOk, Ordered, Callees, Bottom;
    AddFns(c, f, more, cxt);
    AddFrame(c.frames, c.fns, f, more);
    AddSkips(c.frames, f, None);
    AddOrdered(c.frames, f);
    AddCallees(c.frames, f);
  }

  lemma PopEntered(c: Control, f: Frame, more: seq<Option<Fn>>, cxt: Cxt)
    requires EntersBy(c, f, more, cxt)
    ensures Poppable(Entered(c, f, more, cxt)) && PopCall(Entered(c, f, more, cxt)) == c
  {
    hide FnsOk, SavedOk, PushersOk, SkipsOk, Ordered, ActiveOk;
    assert Init(c.frames + [f]) == c.frames;
    assert (c.fns + more)[..|c.fns|] == c.fns;
    assert c.active + multiset{cxt.fn} - multiset{cxt.fn} == c.active;
  }

  lemma EnterKeeps(c: Control, fn: Fn, interned: Cxt, from: Bbcc, jmp: nat, to: Bbcc, sp: nat)
    requires CanEnter(c, fn, interned, to, sp)
    ensures Inv(Enter(c, fn, interned, from, jmp, to, sp))
  {
    EnterShape(c, fn, interned, from, jmp, to, sp);
    EnteredKeeps(c, EnterFrame(c, from, jmp, to, sp), EnterFn(c, fn), to.cxt);
  }

  /** Popping a counted call undoes it: context, function stack, skip state, counts and the
      collect flag are those before the call. */
  lemma PopUndoesEnter(c: Control, fn: Fn, interned: Cxt, from: Bbcc, jmp: nat, to: Bbcc, sp: nat)
    requires CanEnter(c, fn, interned, to, sp)
    ensures Poppable(Enter(c, fn, interned, from, jmp, to, sp))
    ensures PopCall(Enter(c, fn, interned, from, jmp, to, sp)) == c
  {
    EnterShape(c, fn, interned, from, jmp, to, sp);
    hide Entered, Enter, PopCall, Poppable;
    PopEntered(c, EnterFrame(c, from, jmp, to, sp), EnterFn(c, fn), to.cxt);
  }

  lemma AddFns(c: Control, f: Frame, more: seq<Option<Fn>>, cxt: Cxt)
    requires FnsOk(c.fns, c.cxt, c.frames) && c.cxt.Some? && f.saved == Some(Saved(c.cxt.value, |c.fns| - 1))
    requires (forall i :: 0 <= i < |more| ==> more[i].Some?) && Last(c.fns + more) == Some(cxt.fn)
    ensures FnsOk(c.fns + more, Some(cxt), c.frames + [f]) && SavedAt(c.fns, f)
    ensures Bottom(c.fns + more) == Bottom(c.fns)
  {
  }

  /** A skipped call. */
  ghost predicate CanSkip(c: Control, sp: nat) {
    Inv(c) && c.cxt.Some? && (c.frames != [] ==> sp <= Last(c.frames).sp)
  }

  lemma SkipKeeps(c: Control, from: Bbcc, jmp: nat, to: Bbcc, sp: nat)
    requires CanSkip(c, sp)
    ensures Inv(PushCall(c, from, jmp, to, sp, true))
  {
    var r := PushCall(c, from, jmp, to, sp, true);
    var f := Last(r.frames);
    AddFrame(c.frames, c.fns, f, []);
    AddSkips(c.frames, f, r.nonskipped);
    AddOrdered(c.frames, f);
    AddCallees(c.frames, f);
    assert c.fns + [] == c.fns;
    hide SavedOk, PushersOk, SkipsOk, Ordered, Callees, Bottom;
  }

  lemma PopUndoesSkip(c: Control, from: Bbcc, jmp: nat, to: Bbcc, sp: nat)
    requires CanSkip(c, sp)
    ensures Poppable(PushCall(c, from, jmp, to, sp, true))
    ensures PopCall(PushCall(c, from, jmp, to, sp, true)) == c
  {
    hide SavedOk, PushersOk, SkipsOk, Ordered, ActiveOk, FnsOk;
    assert Init(c.frames + [Last(PushCall(c, from, jmp, to, sp, true).frames)]) == c.frames;
  }

  // ---------------------------------------------------------------- unwinding

  /** `n` frames popped. */
  ghost function PopN(c: Control, n: nat): (r: Control)
    requires Inv(c) && n <= |c.frames|
    ensures Inv(r) && |r.frames| == |c.frames| - n
    decreases n
  {
    hide Inv;
    if n == 0 then c
    else
      PopKeeps(c);
      PopN(PopCall(c), n - 1)
  }

  predicate Leaves(f: Frame, sp: nat, minpops: int) { f.sp < sp || (f.sp == sp && minpops > 0) }

  /** unwind_call_stack */
  ghost function Unwind(c: Control, sp: nat, minpops: int): (r: Control)
    requires Inv(c)
    ensures Inv(r) && |r.frames| <= |c.frames|
    decreases |c.frames|
  {
    hide Inv;
    if c.frames != [] && Leaves(Last(c.frames), sp, minpops) then
      PopKeeps(c);
      Unwind(PopCall(c), sp, minpops - 1)
    else c
  }

  function CountBelow(frames: seq<Frame>, sp: nat): (n: nat)
    ensures n <= |frames|
  {
    if frames == [] then 0 else CountBelow(Init(frames), sp) + if Last(frames).sp < sp then 1 else 0
  }

  function CountEqual(frames: seq<Frame>, sp: nat): (n: nat)
    ensures CountBelow(frames, sp) + n <= |frames|
  {
    if frames == [] then 0 else CountEqual(Init(frames), sp) + if Last(frames).sp == sp then 1 else 0
  }

  function Min(a: int, b: int): int { if a < b then a else b }
  function Max(a: int, b: int): int { if a < b then b else a }

  /** All frames below the stack pointer, and as many of those level with it as are asked for
      beyond that. */
  function Unwound(frames: seq<Frame>, sp: nat, minpops: int): (n: nat)
    ensures n <= |frames|
  {
    var l := CountBelow(frames, sp);
    l + Min(CountEqual(frames, sp), Max(0, minpops - l))
  }

  lemma {:induction false} NoneBelow(frames: seq<Frame>, sp: nat)
    requires Ordered(frames) && (frames != [] ==> Last(frames).sp >= sp)
    ensures CountBelow(frames, sp) == 0
    ensures frames != [] && Last(frames).sp > sp ==> CountEqual(frames, sp) == 0
  {
    if frames != [] {
      if |frames| > 1 { assert frames[|frames| - 2].sp >= Last(frames).sp; }
      NoneBelow(Init(frames), sp);
    }
  }

  lemma UnwoundStep(frames: seq<Frame>, sp: nat, minpops: int)
    requires frames != [] && Ordered(frames)
    ensures Unwound(frames, sp, minpops) ==
            if Leaves(Last(frames), sp, minpops) then 1 + Unwound(Init(frames), sp, minpops - 1) else 0
  {
    if Last(frames).sp >= sp { NoneBelow(frames, sp); }
    hide Ordered;
  }

  lemma UnwindStep(c: Control, sp: nat, minpops: int, n: nat)
    requires Inv(c) && c.frames != [] && n < |c.frames|
    ensures Poppable(c) && Inv(PopCall(c))
    ensures Unwind(c, sp, minpops) ==
            if Leaves(Last(c.frames), sp, minpops) then Unwind(PopCall(c), sp, minpops - 1) else c
    ensures PopN(c, 0) == c && PopN(c, n + 1) == PopN(PopCall(c), n)
  {
    hide Inv, PopCall, Leaves;
    PopKeeps(c);
  }

  lemma UnwoundTop(c: Control, sp: nat, minpops: int)
    requires Inv(c) && c.frames != []
    ensures Unwound(c.frames, sp, minpops) ==
            if Leaves(Last(c.frames), sp, minpops) then 1 + Unwound(Init(c.frames), sp, minpops - 1) else 0
  {
    hide Unwound, Leaves;
    UnwoundStep(c.frames, sp, minpops);
  }

  lemma UnwindEmpty(c: Control, sp: nat, minpops: int)
    requires Inv(c) && c.frames == []
    ensures Unwind(c, sp, minpops) == c == PopN(c, 0) && Unwound(c.frames, sp, minpops) == 0
  {
    hide Inv, PopCall;
  }

  /** Unwinding pops exactly the frames `Unwound` counts. */
  lemma {:induction false} UnwindExact(c: Control, sp: nat, minpops: int)
    requires Inv(c)
    ensures Unwind(c, sp, minpops) == PopN(c, Unwound(c.frames, sp, minpops))
    decreases |c.frames|
  {
    hide Inv, Unwound, Leaves, Unwind, PopN, PopCall;
    if c.frames == [] {
      UnwindEmpty(c, sp, minpops);
    } else {
      UnwoundTop(c, sp, minpops);
      if Leaves(Last(c.frames), sp, minpops) {
        UnwindStep(c, sp, minpops, Unwound(Init(c.frames), sp, minpops - 1));
        UnwindExact(PopCall(c), sp, minpops - 1);
      } else {
        UnwindStep(c, sp, minpops, 0);
      }
    }
  }
}
