/** What the reconvergence table is for: exactly which analysed kernels a warp runs without
    failing an assertion, and that it then runs each of its lanes as a thread of its own. */
module KernelRuns {
  import opened SimtStack
  import opened SimtRuns
  import opened PostDominance
  import opened PostDominators
  import opened SimtFlow
  import opened SimtHazards
  import opened Reconvergence

  /** The exact condition, on the code and the return address alone. */
  lemma KernelSafeIff(linked: Successors, succ: Successors, code: Code, immediate: seq<int>, branch: seq<bool>,
                      returnPc: Pc, mask: set<nat>)
    requires Analysed(linked, succ, code, immediate, branch) && returnPc != NULL_PC
    ensures var f := FlowOf(succ, code, immediate, branch, returnPc);
      Safe(f, Start(code), mask) <==> CleanFor(f, Start(code), |mask|)
  {
    var f := FlowOf(succ, code, immediate, branch, returnPc);
    FlowOfOk(linked, succ, code, immediate, branch, returnPc);
    hide Analysed, FlowOk, CleanFor, ReachesExit;
    SafeIff(f, Start(code), mask);
  }

  /** The whole chain: a warp that runs a kernel clean for its lanes and reconverges at the points of the
      table takes every lane through a run of its own, and executes only live lanes, each at
      its own PC. */
  lemma KernelRefinesScalar<S(!new)>(linked: Successors, succ: Successors, code: Code, immediate: seq<int>,
                                     branch: seq<bool>, returnPc: Pc, exec: Exec<S>, mask: set<nat>,
                                     ms: seq<Machine<S>>, inputs: seq<Input>, n: nat, t: nat)
    returns (hist: seq<Thread<S>>)
    requires Analysed(linked, succ, code, immediate, branch) && returnPc != NULL_PC
    requires CleanFor(FlowOf(succ, code, immediate, branch, returnPc), Start(code), |mask|)
    requires Follows(exec, PcGraph(succ, code))
    requires FlowRun(exec, FlowOf(succ, code, immediate, branch, returnPc), Start(code), mask, ms, inputs)
    requires n <= |inputs| && t in mask && t < |ms[0].threads|
    ensures |ms[n].threads| == |ms[0].threads| && ScalarRun(exec, t, hist) && hist != []
    ensures hist[0] == ms[0].threads[t] && hist[|hist| - 1] == ms[n].threads[t]
    ensures !ms[n].threads[t].done ==> TopIsLive(ms[n])
  {
    var f, start := FlowOf(succ, code, immediate, branch, returnPc), Start(code);
    FlowOfOk(linked, succ, code, immediate, branch, returnPc);
    hide Analysed, FlowOk, CleanFor, ReachesExit, Follows, FlowRun, Run, TopIsLive;
    CleanRun(exec, f, start, mask, ms, inputs, n);
    hist := LockStepRefinesScalar(exec, start, mask, ms, inputs, n, t);
    if !ms[n].threads[t].done {
      assert SomeLive(ms[n], mask);
    }
  }

  // ---------------------------------------------------------------------------------
  // Conditions on the blocks

  /** The block can be left for two blocks that are not the exit. */
  ghost predicate BlockSplits(succ: Successors, i: nat) {
    i < |succ| && exists a, b :: a in succ[i] && b in succ[i] && a != b && a != |succ| - 1 && b != |succ| - 1
  }

  lemma SplitIsBlockEnd(linked: Successors, succ: Successors, code: Code, immediate: seq<int>, branch: seq<bool>,
                        returnPc: Pc, pc: Pc)
    returns (i: nat)
    requires Analysed(linked, succ, code, immediate, branch)
    requires Splits(FlowOf(succ, code, immediate, branch, returnPc), pc)
    ensures i < |code| - 1 && code[i] != [] && Last(code, i) == pc && BlockSplits(succ, i)
  {
    var a, b :| Edge(succ, code, pc, a) && Edge(succ, code, pc, b) && a != b && a != EXIT && b != EXIT;
    i := BlockEnd(succ, code, pc, a, b);
    hide Splits, Point, ImmediatePostDominator, AllReach;
    var s := NextBlock(succ, code, i, a);
    var t := NextBlock(succ, code, i, b);
    assert s in succ[i] && t in succ[i] && s != t;
  }

  /** Only the last instruction of a block has two successors. */
  lemma BlockEnd(succ: Successors, code: Code, pc: Pc, a: int, b: int) returns (i: nat)
    requires WellFormedCode(succ, code) && Edge(succ, code, pc, a) && Edge(succ, code, pc, b) && a != b
    ensures i < |code| - 1 && Last(code, i) == pc
  {
    if j, k :| 0 <= j < |code| && 0 <= k < |code[j]| - 1 && code[j][k] == pc && code[j][k + 1] == a {
      NextInBlock(succ, code, j, k, b);
      assert false;
    }
    var j, s :| 0 <= j < |code| && s in succ[j] && Last(code, j) == pc && First(code, s) == a;
    i := j;
  }

  lemma BlockSplitIsSplit(succ: Successors, code: Code, immediate: seq<int>, branch: seq<bool>, returnPc: Pc, i: nat)
    requires WellFormedCode(succ, code) && BlockSplits(succ, i) && i < |code| - 1
    ensures IsInstruction(Last(code, i)) && Splits(FlowOf(succ, code, immediate, branch, returnPc), Last(code, i))
  {
    var a, b :| a in succ[i] && b in succ[i] && a != b && a != |succ| - 1 && b != |succ| - 1;
    var g := FlowOf(succ, code, immediate, branch, returnPc).g;
    assert g.edge(Last(code, i), First(code, a)) && g.edge(Last(code, i), First(code, b));
    assert First(code, a) != EXIT && First(code, b) != EXIT && First(code, a) != First(code, b);
  }

  lemma NotBranchEnd(succ: Successors, code: Code, branch: seq<bool>, i: nat, pc: Pc)
    requires WellFormedCode(succ, code) && |branch| == |succ| && i < |code| - 1 && Last(code, i) == pc && !branch[i]
    ensures forall k: nat :: !IsBranchEnd(code, branch, k, pc)
  {
    forall k: nat | k < |code| && Last(code, k) == pc ensures k == i {
      assert code[k][|code[k]| - 1] == code[i][|code[i]| - 1];
    }
  }

  /** The splits without a point are the ends of the blocks that split and are no branch. */
  lemma UntabledIff(linked: Successors, succ: Successors, code: Code, immediate: seq<int>, branch: seq<bool>,
                    returnPc: Pc, pc: Pc)
    requires Analysed(linked, succ, code, immediate, branch) && returnPc != NULL_PC
    ensures Untabled(FlowOf(succ, code, immediate, branch, returnPc), pc) <==>
      exists i: nat :: i < |code| - 1 && Last(code, i) == pc && BlockSplits(succ, i) && !branch[i]
  {
    var f := FlowOf(succ, code, immediate, branch, returnPc);
    if i: nat :| i < |code| - 1 && Last(code, i) == pc && BlockSplits(succ, i) && !branch[i] {
      BlockSplitIsSplit(succ, code, immediate, branch, returnPc, i);
      NotBranchEnd(succ, code, branch, i, pc);
    } else if Untabled(f, pc) {
      var i := SplitIsBlockEnd(linked, succ, code, immediate, branch, returnPc, pc);
      assert IsBranchEnd(code, branch, i, pc);
      PointIs(linked, succ, code, immediate, branch, returnPc, i, pc);
    }
  }

  /** A kernel whose blocks split only in branches is clean if and only if no lane can come to
      the return address from a branch whose paths only meet at the exit. */
  lemma BranchesOnly(linked: Successors, succ: Successors, code: Code, immediate: seq<int>, branch: seq<bool>,
                     returnPc: Pc)
    requires Analysed(linked, succ, code, immediate, branch) && returnPc != NULL_PC
    requires forall i :: 0 <= i < |succ| - 1 && BlockSplits(succ, i) ==> branch[i]
    ensures var f := FlowOf(succ, code, immediate, branch, returnPc);
      Clean(f, Start(code)) <==> NoWayBack(f, Start(code))
  {
    var f := FlowOf(succ, code, immediate, branch, returnPc);
    forall pc: Pc ensures !Untabled(f, pc) {
      UntabledIff(linked, succ, code, immediate, branch, returnPc, pc);
    }
  }

  /** No way back, if no lane can come to the return address at all but by starting there, or
      if every branch has a block to reconverge at. */
  lemma NoWayBackIf(linked: Successors, succ: Successors, code: Code, immediate: seq<int>, branch: seq<bool>,
                    returnPc: Pc)
    requires Analysed(linked, succ, code, immediate, branch) && returnPc != NULL_PC
    requires (forall a: int :: !Edge(succ, code, a, returnPc)) || (forall i :: 0 <= i < |succ| - 1 && branch[i] ==>
      immediate[i] != |succ| - 1)
    ensures NoWayBack(FlowOf(succ, code, immediate, branch, returnPc), Start(code))
  {
    var f := FlowOf(succ, code, immediate, branch, returnPc);
    forall b: Pc, c | Leads(f.g, Start(code), b) && ExitSplit(f, b) && f.g.edge(b, c) ensures !Leads(f.g, c, returnPc) {
      if Leads(f.g, c, returnPc) {
        assert Edge(succ, code, b, c);
        if i :| 0 <= i < |succ| - 1 && branch[i] && immediate[i] == |succ| - 1 {
          NotEntered(f, b, c);
        } else {
          FlowOfOk(linked, succ, code, immediate, branch, returnPc);
          var i: nat :| IsBranchEnd(code, branch, i, b);
          ExitTabled(linked, succ, code, immediate, branch, returnPc, i, b);
        }
      }
    }
  }

  lemma LastEdge(g: Graph, p: seq<int>, a: int, b: int) returns (x: int)
    requires IsWalk(g, p, a, b)
    ensures a == b || g.edge(x, b)
  {
    x := a;
    if |p| > 1 {
      x := p[|p| - 2];
      assert g.edge(p[|p| - 2], p[|p| - 2 + 1]);
    }
  }

  lemma NotEntered(f: Flow, b: Pc, c: int)
    requires f.g.edge(b, c) && forall a: int :: !f.g.edge(a, f.ret)
    ensures !Leads(f.g, c, f.ret)
  {
    assert forall a: int :: !f.g.edge(a, f.ret);
    forall p | IsWalk(f.g, p, c, f.ret) ensures false {
      var x := LastEdge(f.g, p, c, f.ret);
    }
  }

  /** A branch that only meets at the exit has the exit block in the table. */
  lemma ExitTabled(linked: Successors, succ: Successors, code: Code, immediate: seq<int>, branch: seq<bool>,
                   returnPc: Pc, i: nat, pc: Pc)
    requires Analysed(linked, succ, code, immediate, branch) && IsBranchEnd(code, branch, i, pc)
    requires ImmediatePostDominator(PcGraph(succ, code), EXIT, pc)
    ensures immediate[i] == |succ| - 1
  {
    var j := immediate[i];
    ImmediateOfLinks(linked, succ, j, i);
    BlockToPc(succ, code, i, j);
    InstructionReaches(succ, code, i, |code[i]| - 1);
    var p :| IsPath(PcGraph(succ, code), p) && p[0] == pc;
    ImmediateUnique(PcGraph(succ, code), First(code, j), EXIT, pc, p);
    assert code[j][0] == code[|code| - 1][0];
  }
}
