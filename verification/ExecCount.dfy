/** Execution counters of a block: counted live per exit taken (callgrind/bbcc.c), walked out per
instruction when a dump is written (callgrind/dump.c). */
module ExecCount {
  /** The number of instructions of a block and the instruction of each exit; the last exit is the
      end of the block. */
  datatype Layout = Layout(instrs: nat, exits: seq<nat>) {
    ghost predicate Wf() {
      |exits| > 0 && forall p :: 0 <= p < |exits| ==> exits[p] < instrs
    }

    function Side(): nat requires |exits| > 0 { |exits| - 1 }

    /** The walk gets to this side exit: the ones up to it are at increasing instructions. */
    ghost predicate Passed(p: nat) {
      p + 1 < |exits| && forall q :: 0 < q <= p ==> exits[q - 1] < exits[q]
    }

    /** Side exits at strictly increasing instructions, and the end at the last one. */
    ghost predicate Increasing() {
      && (forall q :: 0 < q < |exits| - 1 ==> exits[q - 1] < exits[q])
      && |exits| > 0 && exits[|exits| - 1] == instrs - 1
    }
  }

  /** Executions of a block: the exit each of them took. */
  ghost predicate Runs(l: Layout, runs: seq<nat>) {
    forall t :: 0 <= t < |runs| ==> runs[t] < |l.exits|
  }

  function Taken(runs: seq<nat>, p: nat): (n: nat)
    ensures n <= |runs|
  {
    if runs == [] then 0 else Taken(runs[..|runs| - 1], p) + if runs[|runs| - 1] == p then 1 else 0
  }

  /** Instructions executed: an execution runs everything up to the exit it takes. */
  function Live(l: Layout, runs: seq<nat>): nat
    requires forall t :: 0 <= t < |runs| ==> runs[t] < |l.exits|
  {
    if runs == [] then 0 else Live(l, runs[..|runs| - 1]) + l.exits[runs[|runs| - 1]] + 1
  }

  /** How many executions ran instruction k. */
  function Executed(l: Layout, runs: seq<nat>, k: nat): nat
    requires forall t :: 0 <= t < |runs| ==> runs[t] < |l.exits|
  {
    if runs == [] then 0
    else Executed(l, runs[..|runs| - 1], k) + if l.exits[runs[|runs| - 1]] >= k then 1 else 0
  }

  /** An execution has been taken out of the walk's counter before instruction k. */
  ghost predicate Gone(l: Layout, p: nat, k: nat)
    requires p < |l.exits|
  {
    l.Passed(p) && l.exits[p] < k
  }

  /** The walk's counter at instruction k. */
  ghost function Remaining(l: Layout, runs: seq<nat>, k: nat): nat
    requires Runs(l, runs)
  {
    if runs == [] then 0
    else Remaining(l, runs[..|runs| - 1], k) + if Gone(l, runs[|runs| - 1], k) then 0 else 1
  }

  lemma {:induction false} PassedGrows(l: Layout, p: nat, q: nat)
    requires l.Passed(q) && p < q
    ensures l.Passed(p) && l.exits[p] < l.exits[q]
    decreases q
  {
    if p + 1 < q { PassedGrows(l, p, q - 1); }
  }

  /** Where the walk stands before instruction `instr`: `jmp` side exits are behind it. */
  ghost predicate Standing(l: Layout, instr: nat, jmp: nat) {
    && jmp < |l.exits|
    && (jmp > 0 ==> l.Passed(jmp - 1) && l.exits[jmp - 1] < instr)
    && (l.Passed(jmp) ==> l.exits[jmp] >= instr)
  }

  /** Which exit, if any, leaves the counter after this instruction. */
  lemma ExitHere(l: Layout, instr: nat, jmp: nat, p: nat)
    requires l.Wf() && Standing(l, instr, jmp) && p < |l.exits|
    ensures var here := jmp < |l.exits| - 1 && l.exits[jmp] == instr;
            && (Gone(l, p, instr + 1) <==> Gone(l, p, instr) || (here && p == jmp))
            && (here && p == jmp ==> !Gone(l, p, instr))
            && Standing(l, instr + 1, if here then jmp + 1 else jmp)
  {
    var here := jmp < |l.exits| - 1 && l.exits[jmp] == instr;
    if here {
      assert l.Passed(jmp) by {
        if jmp > 0 { assert forall q :: 0 < q <= jmp ==> l.exits[q - 1] < l.exits[q]; }
      }
      if l.Passed(jmp + 1) { PassedGrows(l, jmp, jmp + 1); }
    }
    if l.Passed(p) {
      if p < jmp - 1 { PassedGrows(l, p, jmp - 1); }
      if jmp < p { PassedGrows(l, jmp, p); }
    }
  }

  lemma {:induction false} RemainingStep(l: Layout, runs: seq<nat>, instr: nat, jmp: nat)
    requires l.Wf() && Runs(l, runs) && Standing(l, instr, jmp)
    ensures var here := jmp < |l.exits| - 1 && l.exits[jmp] == instr;
            Remaining(l, runs, instr) == Remaining(l, runs, instr + 1) + if here then Taken(runs, jmp) else 0
  {
    if runs != [] {
      ExitHere(l, instr, jmp, runs[|runs| - 1]);
      RemainingStep(l, runs[..|runs| - 1], instr, jmp);
    }
  }

  lemma {:induction false} RemainingFirst(l: Layout, runs: seq<nat>)
    requires Runs(l, runs)
    ensures Remaining(l, runs, 0) == |runs|
  {
    if runs != [] { RemainingFirst(l, runs[..|runs| - 1]); }
  }

  // ---------------------------------------------------------------- what the walk counts

  /** With side exits at increasing instructions the walk's counter at each instruction is the
      number of executions of that instruction. */
  lemma {:induction false} WalkCountsExecutions(l: Layout, runs: seq<nat>, k: nat)
    requires l.Wf() && l.Increasing() && Runs(l, runs) && k < l.instrs
    ensures Remaining(l, runs, k) == Executed(l, runs, k)
  {
    if runs != [] {
      WalkCountsExecutions(l, runs[..|runs| - 1], k);
      var p := runs[|runs| - 1];
      assert p < |l.exits| - 1 ==> l.Passed(p);
    }
  }

  function Total(counts: seq<nat>): nat {
    if counts == [] then 0 else Total(counts[..|counts| - 1]) + counts[|counts| - 1]
  }

  /** The walked counters up to instruction n. */
  ghost function Walked(l: Layout, runs: seq<nat>, n: nat): (r: seq<nat>)
    requires Runs(l, runs)
    ensures |r| == n && forall k :: 0 <= k < n ==> r[k] == Remaining(l, runs, k)
  {
    seq(n, k requires 0 <= k < n => Remaining(l, runs, k))
  }

  /** Instructions the walk attributes to one execution. */
  ghost function Share(l: Layout, p: nat, n: nat): nat
    requires p < |l.exits|
  {
    if l.Passed(p) && l.exits[p] < n then l.exits[p] + 1 else n
  }

  lemma {:induction false} NothingWalked(l: Layout, n: nat)
    ensures Total(Walked(l, [], n)) == 0
  {
    if n > 0 {
      assert Walked(l, [], n)[..n - 1] == Walked(l, [], n - 1);
      NothingWalked(l, n - 1);
    }
  }

  lemma {:induction false} OneMoreWalked(l: Layout, runs: seq<nat>, n: nat)
    requires runs != [] && Runs(l, runs)
    ensures var before, p := runs[..|runs| - 1], runs[|runs| - 1];
            Runs(l, before) && Total(Walked(l, runs, n)) == Total(Walked(l, before, n)) + Share(l, p, n)
  {
    var before := runs[..|runs| - 1];
    if n > 0 {
      assert Walked(l, runs, n)[..n - 1] == Walked(l, runs, n - 1);
      assert Walked(l, before, n)[..n - 1] == Walked(l, before, n - 1);
      OneMoreWalked(l, runs, n - 1);
    }
  }

  /** Every exit the walk does not get to is at the last instruction. */
  ghost predicate Faithful(l: Layout) {
    forall p :: 0 <= p < |l.exits| && !l.Passed(p) ==> l.exits[p] == l.instrs - 1
  }

  lemma {:induction false} FaithfulTotals(l: Layout, runs: seq<nat>)
    requires l.Wf() && Faithful(l) && Runs(l, runs)
    ensures Total(Walked(l, runs, l.instrs)) == Live(l, runs)
  {
    if runs == [] {
      NothingWalked(l, l.instrs);
    } else {
      OneMoreWalked(l, runs, l.instrs);
      FaithfulTotals(l, runs[..|runs| - 1]);
    }
  }

  /** One execution by an exit the walk misses. */
  lemma MissedExit(l: Layout, p: nat)
    requires l.Wf() && p < |l.exits| && !l.Passed(p) && l.exits[p] != l.instrs - 1
    ensures Runs(l, [p]) && Total(Walked(l, [p], l.instrs)) != Live(l, [p])
  {
    OneMoreWalked(l, [p], l.instrs);
    assert [p][..0] == [];
    NothingWalked(l, l.instrs);
    assert Live(l, [p]) == Live(l, []) + l.exits[p] + 1;
  }

  /** Dumped and live instruction counts agree for every list of executions if and only if every
      exit the walk does not get to is at the last instruction of the block. */
  lemma DumpAgreesExactly(l: Layout)
    requires l.Wf()
    ensures Faithful(l) <==> forall runs: seq<nat> :: Runs(l, runs) ==> Total(Walked(l, runs, l.instrs)) == Live(l, runs)
  {
    if Faithful(l) {
      forall runs: seq<nat> | Runs(l, runs) ensures Total(Walked(l, runs, l.instrs)) == Live(l, runs) {
        FaithfulTotals(l, runs);
      }
    } else {
      var p :| 0 <= p < |l.exits| && !l.Passed(p) && l.exits[p] != l.instrs - 1;
      MissedExit(l, p);
      assert Runs(l, [p]);
    }
  }

  /** In particular for side exits at increasing instructions. */
  lemma IncreasingAgrees(l: Layout, runs: seq<nat>)
    requires l.Wf() && l.Increasing() && Runs(l, runs)
    ensures Total(Walked(l, runs, l.instrs)) == Live(l, runs)
  {
    FaithfulTotals(l, runs);
  }

  /** Two side exits at one instruction: the second is missed. */
  lemma SameInstructionMissed()
    ensures var l := Layout(3, [0, 0, 2]); l.Wf() && Total(Walked(l, [1], 3)) == 3 && Live(l, [1]) == 1
  {
    var l := Layout(3, [0, 0, 2]);
    assert !(l.exits[1 - 1] < l.exits[1]);
    assert Share(l, 1, 3) == 3;
    OneMoreWalked(l, [1], 3);
    assert [1][..0] == [];
    NothingWalked(l, 3);
    assert Live(l, [1]) == Live(l, []) + l.exits[1] + 1;
  }

  // ---------------------------------------------------------------- the counters themselves

  class BlockCounts {
    const layout: Layout
    var sum: nat
    var jumps: array<nat>
    var ir: nat
    ghost var runs: seq<nat>

    ghost predicate Valid()
      reads this, jumps
    {
      && layout.Wf() && jumps.Length == |layout.exits| && Runs(layout, runs) && sum == |runs|
      && forall p :: 0 <= p < jumps.Length ==> jumps[p] == Taken(runs, p)
    }

    constructor (layout: Layout)
      requires layout.Wf()
      ensures Valid() && runs == [] && ir == 0 && this.layout == layout && fresh(jumps)
    {
      this.layout, sum, ir, runs := layout, 0, 0, [];
      jumps := new nat[|layout.exits|](_ => 0);
    }

    /** The counting part of setup_bbcc, for an execution that is collected, not skipped, and with
        the cache simulation off. */
    method Count(passed: nat)
      requires Valid() && passed < |layout.exits|
      modifies this`sum, this`ir, this`runs, jumps
      ensures Valid() && runs == old(runs) + [passed]
      ensures ir == old(ir) + layout.exits[passed] + 1
      ensures ir - Live(layout, runs) == old(ir) - old(Live(layout, runs))
    {
      ghost var before := runs;
      sum := sum + 1;
      jumps[passed] := jumps[passed] + 1;
      ir := ir + layout.exits[passed] + 1;
      runs := runs + [passed];
      assert runs[..|runs| - 1] == before;
    }

    /** The counter walk of fprint_bbcc, which then clears the counters. */
    method Dump() returns (counts: seq<nat>)
      requires Valid()
      modifies this`sum, this`runs, jumps
      ensures Valid() && runs == []
      ensures counts == Walked(layout, old(runs), layout.instrs)
    {
      hide Remaining, Layout.Passed, Gone, Live;
      var ecounter, jmp := sum, 0;
      counts := [];
      RemainingFirst(layout, runs);
      while |counts| < layout.instrs
        invariant |counts| <= layout.instrs && Standing(layout, |counts|, jmp)
        invariant ecounter == Remaining(layout, runs, |counts|)
        invariant counts == Walked(layout, runs, |counts|)
        modifies {}
      {
        ghost var instr := |counts|;
        RemainingStep(layout, runs, instr, jmp);
        ExitHere(layout, instr, jmp, 0);
        counts := counts + [ecounter];
        if jmp < |layout.exits| - 1 && layout.exits[jmp] == |counts| - 1 {
          ecounter := ecounter - jumps[jmp];
          jmp := jmp + 1;
        }
      }
      sum, runs := 0, [];
      var i := 0;
      while i < jumps.Length
        invariant 0 <= i <= jumps.Length
        invariant forall p :: 0 <= p < i ==> jumps[p] == 0
        modifies jumps
      {
        jumps[i] := 0;
        i := i + 1;
      }
    }
  }
}
