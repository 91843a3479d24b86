/** Programs of analysed functions that call each other: when a warp runs each of its lanes as
    a thread of its own, through calls and returns. */
module ProgramRuns {
  import opened PostDominance
  import opened PostDominators
  import opened SimtStack
  import opened SimtRuns
  import opened SimtFlow
  import opened SimtCalls
  import opened Reconvergence
  import opened KernelRuns

  /** A function as it is analysed. */
  datatype Function = Function(linked: Successors, succ: Successors, code: Code, immediate: seq<int>, branch: seq<bool>)

  ghost predicate IsAnalysed(fn: Function) {
    Analysed(fn.linked, fn.succ, fn.code, fn.immediate, fn.branch)
  }

  ghost function FlowFor(fn: Function, ret: Pc): Flow {
    if WellFormedCode(fn.succ, fn.code) then FlowOf(fn.succ, fn.code, fn.immediate, fn.branch, ret)
    else Flow(Graph((a, b) => false, EXIT), (pc: Pc) => NULL_PC, ret)
  }

  /** The functions by the PCs where they start. */
  ghost function ProgramOf(functions: Pc -> Function, op: Pc -> Op, target: Pc -> Pc, next: Pc -> Pc): Program {
    Program((start: Pc, ret: Pc) => FlowFor(functions(start), ret), op, target, next)
  }

  /** Wherever a call is made, its callee returns to the instruction after it. */
  ghost predicate CallsGoOn(fn: Function, op: Pc -> Op, next: Pc -> Pc)
    requires WellFormedCode(fn.succ, fn.code)
  {
    forall i, k | 0 <= i < |fn.code| && 0 <= k < |fn.code[i]| && IsInstruction(fn.code[i][k]) ::
      op(fn.code[i][k]).CallOp? ==> Edge(fn.succ, fn.code, fn.code[i][k], next(fn.code[i][k]))
  }

  /** A function whose blocks split only in branches, whose branches all have a block to
      reconverge at, and which ends only in blocks whose last instruction is a return. */
  ghost predicate ReturnsOnce(fn: Function, op: Pc -> Op)
    requires WellFormedCode(fn.succ, fn.code) && |fn.branch| == |fn.succ| == |fn.immediate|
  {
    var n := |fn.succ| - 1;
    && (forall i :: 0 <= i < n && BlockSplits(fn.succ, i) ==> fn.branch[i])
    && (forall i :: 0 <= i < n && fn.branch[i] ==> fn.immediate[i] != n)
    && (forall i, k :: 0 <= i < n && 0 <= k < |fn.code[i]| && op(fn.code[i][k]).RetOp? ==>
      k == |fn.code[i]| - 1 && fn.succ[i] == {n})
    && (forall i :: 0 <= i < n && n in fn.succ[i] ==> op(Last(fn.code, i)).RetOp?)
  }

  /** A function of the program that can run. */
  ghost predicate CanRun(functions: Pc -> Function, op: Pc -> Op, next: Pc -> Pc, start: Pc) {
    var fn := functions(start);
    IsAnalysed(fn) && Start(fn.code) == start && CallsGoOn(fn, op, next)
  }

  /** All calls, from anywhere, are of functions that return as one. */
  ghost predicate CalleesOk(functions: Pc -> Function, op: Pc -> Op, target: Pc -> Pc, next: Pc -> Pc) {
    forall c: Pc :: op(c).CallOp? ==>
      next(c) != NULL_PC && CanRun(functions, op, next, target(c)) && ReturnsOnce(functions(target(c)), op)
  }

  lemma RunsOk(functions: Pc -> Function, op: Pc -> Op, target: Pc -> Pc, next: Pc -> Pc, fr: Frame)
    requires CanRun(functions, op, next, fr.start) && fr.ret != NULL_PC
    ensures FunctionOk(ProgramOf(functions, op, target, next), fr)
  {
    var fn := functions(fr.start);
    var f := FlowFor(fn, fr.ret);
    FlowOfOk(fn.linked, fn.succ, fn.code, fn.immediate, fn.branch, fr.ret);
    forall c: Pc | Leads(f.g, fr.start, c) && op(c).CallOp? ensures f.g.edge(c, next(c)) {
      var i, k := Within(fn, c);
    }
  }

  /** Every PC that a function gets to is in its code. */
  lemma Within(fn: Function, c: Pc) returns (i: nat, k: nat)
    requires IsAnalysed(fn) && Leads(PcGraph(fn.succ, fn.code), Start(fn.code), c)
    ensures i < |fn.code| && k < |fn.code[i]| && fn.code[i][k] == c
  {
    var g := PcGraph(fn.succ, fn.code);
    FlowOfOk(fn.linked, fn.succ, fn.code, fn.immediate, fn.branch, 0);
    var w :| IsWalk(g, w, Start(fn.code), c);
    i, k := 0, 0;
    if |w| > 1 {
      assert g.edge(w[|w| - 2], w[|w| - 2 + 1]);
      i, k := TargetWithin(fn, w[|w| - 2], c);
    }
  }

  lemma TargetWithin(fn: Function, a: int, b: int) returns (i: nat, k: nat)
    requires WellFormedCode(fn.succ, fn.code) && Edge(fn.succ, fn.code, a, b)
    ensures i < |fn.code| && k < |fn.code[i]| && fn.code[i][k] == b
  {
    if j, l :| 0 <= j < |fn.code| && 0 <= l < |fn.code[j]| - 1 && fn.code[j][l] == a && fn.code[j][l + 1] == b {
      i, k := j, l + 1;
    } else {
      var j, s :| 0 <= j < |fn.code| && s in fn.succ[j] && Last(fn.code, j) == a && First(fn.code, s) == b;
      i, k := s, 0;
    }
  }

  lemma InnerEdges(fn: Function, op: Pc -> Op, c: Pc, b: int)
    requires WellFormedCode(fn.succ, fn.code) && |fn.branch| == |fn.succ| == |fn.immediate| && ReturnsOnce(fn, op)
    requires Edge(fn.succ, fn.code, c, b)
    ensures b == EXIT ==> op(c).RetOp?
    ensures op(c).RetOp? ==> b == EXIT
  {
    var n := |fn.succ| - 1;
    if j, l :| 0 <= j < |fn.code| && 0 <= l < |fn.code[j]| - 1 && fn.code[j][l] == c && fn.code[j][l + 1] == b {
      assert j < n;
    } else {
      var j, s :| 0 <= j < |fn.code| && s in fn.succ[j] && Last(fn.code, j) == c && First(fn.code, s) == b;
      assert j < n;
      assert b == EXIT <==> s == n;
      assert fn.code[j][|fn.code[j]| - 1] == c;
    }
  }

  /** No branch of the callee waits for the return, so its table is the same for all calls. */
  lemma SamePoint(fn: Function, op: Pc -> Op, ret: Pc, r: Pc, c: Pc)
    requires IsAnalysed(fn) && ReturnsOnce(fn, op)
    ensures FlowFor(fn, r).point(c) == FlowFor(fn, ret).point(c)
  {
    if i: nat :| IsBranchEnd(fn.code, fn.branch, i, c) {
      PointIs(fn.linked, fn.succ, fn.code, fn.immediate, fn.branch, ret, i, c);
      PointIs(fn.linked, fn.succ, fn.code, fn.immediate, fn.branch, r, i, c);
    }
  }

  lemma NoneWaits(fn: Function, op: Pc -> Op, ret: Pc, c: Pc)
    requires IsAnalysed(fn) && ReturnsOnce(fn, op) && ret != NULL_PC
    ensures !Untabled(FlowFor(fn, ret), c) && !ExitSplit(FlowFor(fn, ret), c)
  {
    UntabledIff(fn.linked, fn.succ, fn.code, fn.immediate, fn.branch, ret, c);
    if ExitSplit(FlowFor(fn, ret), c) {
      var i: nat :| IsBranchEnd(fn.code, fn.branch, i, c);
      ExitTabled(fn.linked, fn.succ, fn.code, fn.immediate, fn.branch, ret, i, c);
      assert false;
    }
  }

  /** Such a callee is tame. */
  lemma TameIf(functions: Pc -> Function, op: Pc -> Op, target: Pc -> Pc, next: Pc -> Pc, fr: Frame)
    requires CanRun(functions, op, next, fr.start) && ReturnsOnce(functions(fr.start), op) && fr.ret != NULL_PC
    ensures Tame(ProgramOf(functions, op, target, next), fr)
  {
    var fn := functions(fr.start);
    var f := FlowFor(fn, fr.ret);
    hide Untabled, ExitSplit, ReturnsOnce, Leads, Point;
    forall c: Pc | Leads(f.g, fr.start, c)
      ensures !Untabled(f, c) && !ExitSplit(f, c) && forall r: Pc :: FlowFor(fn, r).point(c) == f.point(c)
      ensures op(c).RetOp? || f.g.edge(c, f.g.exit) ==> op(c).RetOp? && forall b :: f.g.edge(c, b) ==> b == f.g.exit
    {
      NoneWaits(fn, op, fr.ret, c);
      forall r: Pc ensures FlowFor(fn, r).point(c) == f.point(c) {
        SamePoint(fn, op, fr.ret, r, c);
      }
      forall b | f.g.edge(c, b) ensures (b == EXIT ==> op(c).RetOp?) && (op(c).RetOp? ==> b == EXIT) {
        InnerEdges(fn, op, c, b);
      }
    }
  }

  lemma ProgramIsOk(functions: Pc -> Function, op: Pc -> Op, target: Pc -> Pc, next: Pc -> Pc, kernel: Frame)
    requires CanRun(functions, op, next, kernel.start) && kernel.ret != NULL_PC
    requires CalleesOk(functions, op, target, next)
    requires Clean(FlowFor(functions(kernel.start), kernel.ret), kernel.start)
    ensures ProgramOk(ProgramOf(functions, op, target, next), kernel)
  {
    var p := ProgramOf(functions, op, target, next);
    hide CanRun, ReturnsOnce, FunctionOk, Tame, Clean;
    RunsOk(functions, op, target, next, kernel);
    forall c: Pc | op(c).CallOp? ensures FunctionOk(p, Callee(p, c)) && Tame(p, Callee(p, c)) {
      RunsOk(functions, op, target, next, Callee(p, c));
      TameIf(functions, op, target, next, Callee(p, c));
    }
  }

  /** The whole chain with calls: a clean kernel of an analysed program whose callees return
      as one takes every lane, in every run with the tables, through a run of its own, and
      executes only live lanes, each at its own PC. */
  lemma ProgramRefinesScalar<S(!new)>(functions: Pc -> Function, op: Pc -> Op, target: Pc -> Pc, next: Pc -> Pc,
                                      kernel: Frame, exec: Exec<Local<S>>, mask: set<nat>, ms: seq<Machine<Local<S>>>,
                                      inputs: seq<Input>, n: nat, t: nat)
    returns (hist: seq<Thread<Local<S>>>)
    requires CanRun(functions, op, next, kernel.start) && kernel.ret != NULL_PC
    requires CalleesOk(functions, op, target, next)
    requires Clean(FlowFor(functions(kernel.start), kernel.ret), kernel.start)
    requires Obeys(ProgramOf(functions, op, target, next), exec)
    requires ProgramRun(exec, ProgramOf(functions, op, target, next), kernel, mask, ms, inputs)
    requires n <= |inputs| && t in mask && t < |ms[0].threads|
    ensures |ms[n].threads| == |ms[0].threads| && ScalarRun(exec, t, hist) && hist != []
    ensures hist[0] == ms[0].threads[t] && hist[|hist| - 1] == ms[n].threads[t]
    ensures !ms[n].threads[t].done ==> TopIsLive(ms[n])
  {
    var p := ProgramOf(functions, op, target, next);
    ProgramIsOk(functions, op, target, next, kernel);
    hide CanRun, CalleesOk, Clean, Obeys, ProgramRun, ProgramOk, Run, TopIsLive;
    ProgramRunIsRun(exec, p, kernel, mask, ms, inputs, n);
    hist := LockStepRefinesScalar(exec, kernel.start, mask, ms, inputs, n, t);
    if !ms[n].threads[t].done {
      assert SomeLive(ms[n], mask);
    }
  }
}
