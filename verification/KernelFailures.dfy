/** Code that the table does not serve: a kernel with a predicated break inside the region of a
    branch, one that starts at PC 0, where a kernel returns to, and a callee with two returns
    that is called inside the region of a branch. */
module KernelFailures {
  import opened SimtStack
  import opened SimtSafety
  import opened PostDominance
  import opened PostDominators
  import opened SimtFlow
  import opened SimtHazards
  import opened SimtUpdates
  import opened SimtCalls
  import opened Reconvergence
  import opened KernelRuns

  /** What all successors have as a post-dominator. */
  lemma AllWays(g: Graph, x: int, a: int)
    requires a != g.exit && forall b :: g.edge(a, b) ==> PostDominates(g, x, b)
    ensures PostDominates(g, x, a)
  {
    forall p | IsPath(g, p) && p[0] == a ensures x in p {
      assert |p| > 1 && g.edge(p[0], p[1]);
      Suffix(g, p, 1);
      assert x in p[1..];
    }
  }

  /** A successor that comes on every path is the immediate post-dominator. */
  lemma NextImmediate(g: Graph, x: int, a: int)
    requires a != g.exit && x != a && g.edge(a, x) && forall b :: g.edge(a, b) ==> PostDominates(g, x, b)
    ensures ImmediatePostDominator(g, x, a)
  {
    AllWays(g, x, a);
    forall y | y != a && PostDominates(g, y, a) ensures PostDominates(g, y, x) {
      SuccessorPostDominated(g, y, a, x);
    }
  }

  /** Two paths to the exit that share nothing else: only the exit comes on both. */
  lemma ExitImmediate(g: Graph, a: int, p: seq<int>, q: seq<int>)
    requires a != g.exit && IsPath(g, p) && IsPath(g, q) && p[0] == a == q[0]
    requires forall x :: x in p && x in q ==> x == a || x == g.exit
    ensures ImmediatePostDominator(g, g.exit, a)
  {
  }

  // ---------------------------------------------------------------------------------
  // A predicated break inside the region of a branch:
  // 0: @p bra 24;  8: @q break;  16: ...;  24: exit   (the break address is 24)

  const BREAK_SUCC: Successors := [{1, 3}, {2, 3}, {3}, {4}, {}]
  const BREAK_CODE: Code := [[0], [8], [16], [24], [EXIT]]
  const BREAK_BRANCH := [true, false, false, false, false]
  const BREAK_IMMEDIATE := [3, 3, 3, 4, -1]

  lemma BreakReaches()
    ensures AllReach(BREAK_SUCC)
  {
    var g := BlockGraph(BREAK_SUCC);
    forall i | 0 <= i < 5 ensures ReachesExit(g, i) {
      assert IsPath(g, if i == 4 then [4] else if i == 3 then [3, 4] else [i, 3, 4]);
    }
  }

  lemma BreakWellFormed()
    ensures WellFormedCode(BREAK_SUCC, BREAK_CODE)
  {
  }

  lemma BreakAnalysed()
    ensures Analysed(BREAK_SUCC, BREAK_SUCC, BREAK_CODE, BREAK_IMMEDIATE, BREAK_BRANCH)
  {
    BreakWellFormed();
    BreakReaches();
    BreakRegion();
    hide WellFormedCode, AllReach, ImmediatePostDominator, BlockGraph;
    assert 4 !in BREAK_SUCC[0];
  }

  lemma BreakRegion()
    ensures var g := BlockGraph(BREAK_SUCC);
      && ImmediatePostDominator(g, 3, 0) && ImmediatePostDominator(g, 3, 1) && ImmediatePostDominator(g, 3, 2)
      && ImmediatePostDominator(g, 4, 3)
  {
    var g := BlockGraph(BREAK_SUCC);
    NextImmediate(g, 4, 3);
    NextImmediate(g, 3, 2);
    NextImmediate(g, 3, 1);
    NextImmediate(g, 3, 0);
  }

  /** The analysis is right about every block; but the table has no point for the break, and
      exactly the warps of three or more lanes can fail. The step that fails is that of
      `LostLane`. */
  lemma BreakFails(mask: set<nat>)
    ensures Analysed(BREAK_SUCC, BREAK_SUCC, BREAK_CODE, BREAK_IMMEDIATE, BREAK_BRANCH)
    ensures Point(BREAK_CODE, BREAK_IMMEDIATE, BREAK_BRANCH, 0, 8) == NULL_PC
    ensures Safe(FlowOf(BREAK_SUCC, BREAK_CODE, BREAK_IMMEDIATE, BREAK_BRANCH, 0), 0, mask) <==> |mask| < 3
  {
    BreakAnalysed();
    var f := FlowOf(BREAK_SUCC, BREAK_CODE, BREAK_IMMEDIATE, BREAK_BRANCH, 0);
    NotBranchEnd(BREAK_SUCC, BREAK_CODE, BREAK_BRANCH, 1, 8);
    BreakTable();
    assert !NoneInside(f, 0);
    BreakNoWayBack();
    hide Analysed, Point, NoneInside, NoneAfter, NoWayBack, FlowOf, Safe;
    KernelSafeIff(BREAK_SUCC, BREAK_SUCC, BREAK_CODE, BREAK_IMMEDIATE, BREAK_BRANCH, 0, mask);
  }

  lemma BreakNoWayBack()
    ensures NoWayBack(FlowOf(BREAK_SUCC, BREAK_CODE, BREAK_IMMEDIATE, BREAK_BRANCH, 0), 0)
  {
    BreakAnalysed();
    hide Analysed, FlowOf, NoWayBack, Edge;
    assert forall i :: 0 <= i < |BREAK_SUCC| - 1 && BREAK_BRANCH[i] ==> BREAK_IMMEDIATE[i] != |BREAK_SUCC| - 1;
    NoWayBackIf(BREAK_SUCC, BREAK_SUCC, BREAK_CODE, BREAK_IMMEDIATE, BREAK_BRANCH, 0);
  }

  lemma BreakBlocks()
    ensures BlockSplits(BREAK_SUCC, 0) && BlockSplits(BREAK_SUCC, 1)
    ensures WellFormedCode(BREAK_SUCC, BREAK_CODE) ==> Edge(BREAK_SUCC, BREAK_CODE, 0, 8)
  {
    assert 1 in BREAK_SUCC[0] && 3 in BREAK_SUCC[0] && 2 in BREAK_SUCC[1] && 3 in BREAK_SUCC[1];
    assert Last(BREAK_CODE, 0) == 0 && First(BREAK_CODE, 1) == 8;
  }

  lemma BreakTable()
    ensures var f := FlowOf(BREAK_SUCC, BREAK_CODE, BREAK_IMMEDIATE, BREAK_BRANCH, 0);
      Leads(f.g, 0, 0) && Tabled(f, 0) && f.g.edge(0, 8) && Untabled(f, 8) && LeadsAvoiding(f.g, 8, 8, f.point(0))
  {
    var f := FlowOf(BREAK_SUCC, BREAK_CODE, BREAK_IMMEDIATE, BREAK_BRANCH, 0);
    BreakAnalysed();
    BreakBlocks();
    BlockSplitIsSplit(BREAK_SUCC, BREAK_CODE, BREAK_IMMEDIATE, BREAK_BRANCH, 0, 0);
    PointIs(BREAK_SUCC, BREAK_SUCC, BREAK_CODE, BREAK_IMMEDIATE, BREAK_BRANCH, 0, 0, 0);
    UntabledIff(BREAK_SUCC, BREAK_SUCC, BREAK_CODE, BREAK_IMMEDIATE, BREAK_BRANCH, 0, 8);
    hide Analysed, Splits, Point, ImmediatePostDominator, WellFormedCode, BlockSplits, Edge;
    LeadsSelf(f.g, 0);
    LeadsSelf(f.g, 8);
    assert Last(BREAK_CODE, 1) == 8 && !BREAK_BRANCH[1];
  }

  // ---------------------------------------------------------------------------------
  // A kernel at PC 0, which is also where its base frame returns to:
  // 0: ...;  8: @p bra 24;  16: exit;  24: @q bra 0;  32: exit

  const ZERO_SUCC: Successors := [{1, 2}, {4}, {0, 3}, {4}, {}]
  const ZERO_CODE: Code := [[0, 8], [16], [24], [32], [EXIT]]
  const ZERO_BRANCH := [true, false, true, false, false]
  const ZERO_IMMEDIATE := [4, 4, 4, 4, -1]

  lemma ZeroReaches()
    ensures AllReach(ZERO_SUCC)
  {
    var g := BlockGraph(ZERO_SUCC);
    forall i | 0 <= i < 5 ensures ReachesExit(g, i) {
      assert IsPath(g, if i == 4 then [4] else if i == 0 then [0, 1, 4] else if i == 2 then [2, 3, 4] else [i, 4]);
    }
  }

  lemma ZeroWellFormed()
    ensures WellFormedCode(ZERO_SUCC, ZERO_CODE)
  {
  }

  lemma ZeroRegion()
    ensures forall i :: 0 <= i < 4 ==> ImmediatePostDominator(BlockGraph(ZERO_SUCC), 4, i)
  {
    var g := BlockGraph(ZERO_SUCC);
    assert IsPath(g, [0, 1, 4]) && IsPath(g, [0, 2, 3, 4]) && IsPath(g, [2, 3, 4]) && IsPath(g, [2, 0, 1, 4]);
    ExitImmediate(g, 0, [0, 1, 4], [0, 2, 3, 4]);
    ExitImmediate(g, 2, [2, 3, 4], [2, 0, 1, 4]);
    NextImmediate(g, 4, 1);
    NextImmediate(g, 4, 3);
  }

  lemma ZeroAnalysed()
    ensures Analysed(ZERO_SUCC, ZERO_SUCC, ZERO_CODE, ZERO_IMMEDIATE, ZERO_BRANCH)
  {
    ZeroWellFormed();
    ZeroReaches();
    ZeroRegion();
    hide WellFormedCode, AllReach, ImmediatePostDominator, BlockGraph;
    assert 4 !in ZERO_SUCC[0] && 4 !in ZERO_SUCC[2];
  }

  lemma ZeroEdges()
    requires WellFormedCode(ZERO_SUCC, ZERO_CODE)
    ensures Edge(ZERO_SUCC, ZERO_CODE, 0, 8) && Edge(ZERO_SUCC, ZERO_CODE, 8, 24) && Edge(ZERO_SUCC, ZERO_CODE, 24, 0)
  {
    hide WellFormedCode;
    assert ZERO_CODE[0][0] == 0 && ZERO_CODE[0][1] == 8 && Last(ZERO_CODE, 0) == 8;
    assert First(ZERO_CODE, 2) == 24 && Last(ZERO_CODE, 2) == 24 && First(ZERO_CODE, 0) == 0;
    assert 2 in ZERO_SUCC[0] && 0 in ZERO_SUCC[2];
  }

  lemma ZeroWayBack()
    ensures var f := FlowOf(ZERO_SUCC, ZERO_CODE, ZERO_IMMEDIATE, ZERO_BRANCH, 0);
      Leads(f.g, 0, 8) && ExitSplit(f, 8) && f.g.edge(8, 24) && Leads(f.g, 24, 0)
  {
    var f := FlowOf(ZERO_SUCC, ZERO_CODE, ZERO_IMMEDIATE, ZERO_BRANCH, 0);
    ZeroAnalysed();
    assert 1 in ZERO_SUCC[0] && 2 in ZERO_SUCC[0] && 0 in ZERO_SUCC[2];
    assert BlockSplits(ZERO_SUCC, 0);
    BlockSplitIsSplit(ZERO_SUCC, ZERO_CODE, ZERO_IMMEDIATE, ZERO_BRANCH, 0, 0);
    PointIs(ZERO_SUCC, ZERO_SUCC, ZERO_CODE, ZERO_IMMEDIATE, ZERO_BRANCH, 0, 0, 8);
    BlockToPc(ZERO_SUCC, ZERO_CODE, 0, 4);
    hide Analysed, Splits, Point, ImmediatePostDominator, WellFormedCode;
    ZeroEdges();
    EdgeLeads(f.g, 0, 8);
    EdgeLeads(f.g, 24, 0);
  }

  /** A kernel without a break, for which exactly the warps of a single lane never fail. */
  lemma ZeroFails(mask: set<nat>)
    ensures Analysed(ZERO_SUCC, ZERO_SUCC, ZERO_CODE, ZERO_IMMEDIATE, ZERO_BRANCH)
    ensures Safe(FlowOf(ZERO_SUCC, ZERO_CODE, ZERO_IMMEDIATE, ZERO_BRANCH, 0), 0, mask) <==> |mask| < 2
  {
    ZeroAnalysed();
    ZeroWayBack();
    assert !NoWayBack(FlowOf(ZERO_SUCC, ZERO_CODE, ZERO_IMMEDIATE, ZERO_BRANCH, 0), 0);
    KernelSafeIff(ZERO_SUCC, ZERO_SUCC, ZERO_CODE, ZERO_IMMEDIATE, ZERO_BRANCH, 0, mask);
  }

  /** The step that fails: lane 0 has ended at 16, lane 1 branches back to 0, and the entry that
      stands for the exit comes to the top with both. No lane is lost. */
  lemma ZeroStep()
    ensures var s := [Entry(0, {0, 1}, NULL_PC, Normal), Entry(24, {1}, 0, Normal)];
      && KeepsLanes(s, {0}, [24, 0], 0, OtherOp)
      && Updated(s, {0}, [24, 0], 0, OtherOp) == [Entry(0, {0, 1}, NULL_PC, Normal)]
  {
    var s := [Entry(0, {0, 1}, NULL_PC, Normal), Entry(24, {1}, 0, Normal)];
    var pcs: seq<Pc> := [24, 0];
    assert Live(s, {0}) == {1};
    OneGroup({1}, pcs, 0);
    KeptOne(s[1], 0);
    assert s[..1] == [s[0]];
  }

  // ---------------------------------------------------------------------------------
  // A callee with two returns, called inside the region of a branch:
  // 8: @p bra 24;  16: call 40;  24: ...;  32: exit;  40: @q bra 56;  48: ret;  56: ret
  // Lane 2 waits at 24 for lanes 0 and 1, which are in the callee.

  const WAITING := [Entry(24, {0, 1, 2}, NULL_PC, Normal), Entry(16, {0, 1}, 24, Normal)]

  /** A legal update that loses no lane and leaves this stack. */
  ghost predicate Leaves(s: seq<Entry>, done: set<nat>, pcs: seq<Pc>, v: Pc, op: Op, r: seq<Entry>) {
    Legal(s, done, pcs, op) && KeepsLanes(s, done, pcs, v, op) && Updated(s, done, pcs, v, op) == r
  }

  /** The branch in the callee waits at the return address in the CALL entry. */
  lemma CalleeSplits()
    ensures Leaves(WAITING + [Entry(40, {0, 1}, NULL_PC, Call)], {}, [56, 48, 24], 24, OtherOp,
                   WAITING + [Entry(24, {0, 1}, NULL_PC, Call)]
                     + [Entry(48, {1}, 24, Normal)] + [Entry(56, {0}, 24, Normal)])
  {
    var e := Entry(40, {0, 1}, NULL_PC, Normal);
    TwoLanes();
    SplitInTwo(e, [56, 48, 24]);
    assert Live([e], {}) == {0, 1};
    hide *;
    var kids := [Entry(48, {1}, 24, Normal)] + [Entry(56, {0}, 24, Normal)];
    AsCallJoin([e.(pc := 24)], kids);
    OneCall(e.(pc := 24));
    SplitAbove(WAITING, e, [e.(pc := 24)] + kids, [56, 48, 24], 24);
    assert WAITING + ([e.(pc := 24, kind := Call)] + kids)
      == WAITING + [Entry(24, {0, 1}, NULL_PC, Call)] + [Entry(48, {1}, 24, Normal)] + [Entry(56, {0}, 24, Normal)];
  }

  lemma TwoLanes()
    ensures {0, 1} - {1} == {0} && {1} < {0, 1} && Highest({0, 1}) == 1
  {
  }

  lemma SplitInTwo(e: Entry, pcs: seq<Pc>)
    requires e == Entry(40, {0, 1}, NULL_PC, Normal) && pcs == [56, 48, 24]
    ensures Legal([e], {}, pcs, OtherOp)
    ensures Updated([e], {}, pcs, 24, OtherOp) ==
      [e.(pc := 24)] + ([Entry(48, {1}, 24, Normal)] + [Entry(56, {0}, 24, Normal)])
  {
    TwoLanes();
    UpdatedSplit([], e, {}, pcs, 24, {1}, 48, 56);
    hide Updated, Legal;
    assert [] + [e] == [e] && [] + [e.(pc := 24)] == [e.(pc := 24)];
  }

  lemma OneCall(e: Entry)
    ensures AsCall([e]) == [e.(kind := Call)]
  {
  }

  /** The CALL entry, on top of others, does as it would on its own. */
  lemma SplitAbove(low: seq<Entry>, e: Entry, r: seq<Entry>, pcs: seq<Pc>, v: Pc)
    requires e.kind.Normal? && e.rpc == NULL_PC && Legal([e], {}, pcs, OtherOp) && Live([e], {}) != {}
    requires Updated([e], {}, pcs, v, OtherOp) == r
    ensures Leaves(low + [e.(kind := Call)], {}, pcs, v, OtherOp, low + AsCall(r))
  {
    assert KeepsLanes([e], {}, pcs, v, OtherOp);
    hide Updated, Legal, KeepsLanes;
    UpdatedFrame(low, [e], {}, pcs, v);
    OneCall(e);
  }

  /** A return above it is none of its own: it only reconverges there. */
  lemma ReturnReconverges(base: seq<Entry>, c: Pc, t: nat, pcs: seq<Pc>)
    requires t < |pcs| && pcs[t] == 24
    ensures Leaves(base + [Entry(c, {t}, 24, Normal)], {}, pcs, NULL_PC, RetOp, base)
  {
    var e := Entry(c, {t}, 24, Normal);
    assert e.mask - {} == {t} && Live(base + [e], {}) == {t};
    UpdatedRest(base, e, {}, pcs, NULL_PC, 24);
    OtherwiseSame(base + [e], {}, pcs, NULL_PC, RetOp);
    OneGroup({t}, pcs, 24);
  }

  /** A CALL entry never reconverges, so it runs on past the point of its caller. */
  lemma CallRunsOn(base: seq<Entry>, e: Entry, pcs: seq<Pc>, n: Pc)
    requires e.kind.Call? && e.mask != {} && n != NULL_PC && forall t :: t in e.mask ==> t < |pcs| && pcs[t] == n
    ensures Leaves(base + [e], {}, pcs, NULL_PC, OtherOp, base + [e.(pc := n)])
  {
    var s := base + [e];
    assert s[..|s| - 1] == base && Live(s, {}) == e.mask;
    OneGroup(e.mask, pcs, n);
    hide Groups, Class;
    assert Updated(s, {}, pcs, NULL_PC, OtherOp) == base + Spawn([n], e.mask, pcs, e.rpc, Call);
  }

  /** The whole callee, from the call to the end of its lanes: no lane is lost, but then two
      finished lanes are on top, and lane 2 waits below them. */
  lemma TwoReturnsFail()
    ensures
      var s0 := WAITING + [Entry(40, {0, 1}, NULL_PC, Call)];
      var s3 := WAITING + [Entry(24, {0, 1}, NULL_PC, Call)];
      var s2 := s3 + [Entry(48, {1}, 24, Normal)];
      var s1 := s2 + [Entry(56, {0}, 24, Normal)];
      var s4 := WAITING + [Entry(32, {0, 1}, NULL_PC, Call)];
      && Leaves(s0, {}, [56, 48, 24], 24, OtherOp, s1)
      && Leaves(s1, {}, [24, 48, 24], NULL_PC, RetOp, s2)
      && Leaves(s2, {}, [24, 24, 24], NULL_PC, RetOp, s3)
      && Leaves(s3, {}, [32, 32, 24], NULL_PC, OtherOp, s4)
      && Leaves(s4, {0, 1}, [32, 32, 24], NULL_PC, OtherOp, WAITING)
  {
    var s3 := WAITING + [Entry(24, {0, 1}, NULL_PC, Call)];
    var s4 := WAITING + [Entry(32, {0, 1}, NULL_PC, Call)];
    assert Live(s4, {0, 1}) == {} && s4[..|s4| - 1] == WAITING;
    assert Leaves(s4, {0, 1}, [32, 32, 24], NULL_PC, OtherOp, WAITING);
    hide Leaves;
    CalleeSplits();
    ReturnReconverges(s3 + [Entry(48, {1}, 24, Normal)], 56, 0, [24, 48, 24]);
    ReturnReconverges(s3, 48, 1, [24, 24, 24]);
    CallRunsOn(WAITING, Entry(24, {0, 1}, NULL_PC, Call), [32, 32, 24], 32);
  }
}