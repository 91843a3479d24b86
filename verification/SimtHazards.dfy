/** The converse of `SimtFlow.CleanIsSafe`: a kernel that is not clean for the lanes of a warp
    has a run of that warp after which an assertion of `ptx_exec_inst` fails. */
module SimtHazards {
  import opened PostDominance
  import opened SimtStack
  import opened SimtRuns
  import opened SimtFlow
  import opened SimtFewLanes
  import opened SimtUpdates

  type Warp = Machine<()>

  /** Instructions that may take a lane along any edge. */
  ghost function AnyExec(g: Graph): Exec<()> {
    (pc: Pc, t: nat, th: Thread<()>, th': Thread<()>) =>
      if th'.done then g.edge(pc, g.exit) else th'.pc != g.exit && g.edge(pc, th'.pc)
  }

  /** A run of the kernel leads to this state. */
  ghost predicate Gets(f: Flow, start: Pc, mask: set<nat>, m: Warp) {
    exists ms, inputs :: FlowRun(AnyExec(f.g), f, start, mask, ms, inputs) && ms[|inputs|] == m
  }

  /** Some lane is left, and the next instruction fails an assertion for one of its lanes. */
  ghost predicate Stuck(m: Warp, mask: set<nat>) {
    SomeLive(m, mask) && !TopIsLive(m)
  }

  /** No run of the kernel on these lanes fails an assertion. */
  ghost predicate Safe(f: Flow, start: Pc, mask: set<nat>) {
    forall m: Warp :: Gets(f, start, mask, m) ==> !Stuck(m, mask)
  }

  lemma GetsStep(f: Flow, start: Pc, mask: set<nat>, m: Warp, input: Input, m': Warp)
    requires Gets(f, start, mask, m) && FlowStep(AnyExec(f.g), f, m, input, m')
    ensures Gets(f, start, mask, m')
  {
    hide FlowStep, Launched;
    var ms, inputs :| FlowRun(AnyExec(f.g), f, start, mask, ms, inputs) && ms[|inputs|] == m;
    var ms', inputs' := ms + [m'], inputs + [input];
    forall i | 0 <= i < |inputs'| ensures FlowStep(AnyExec(f.g), f, ms'[i], inputs'[i], ms'[i + 1]) {
      if i < |inputs| {
        assert FlowStep(AnyExec(f.g), f, ms[i], inputs[i], ms[i + 1]);
      }
    }
    assert FlowRun(AnyExec(f.g), f, start, mask, ms', inputs');
  }

  lemma GetsLaunch(f: Flow, start: Pc, mask: set<nat>, count: nat) returns (m: Warp)
    requires mask != {} && LanesBelow(mask, count)
    ensures Gets(f, start, mask, m) && m.stack == [Entry(start, mask, NULL_PC, Normal)] && At(m, mask, start)
  {
    m := Machine([Entry(start, mask, NULL_PC, Normal)], seq(count, t => Thread(start, false, ())));
    assert FlowRun(AnyExec(f.g), f, start, mask, [m], []);
  }

  // ---------------------------------------------------------------------------------
  // Steps of the top entry

  /** The lanes are alive at this PC. */
  ghost predicate At(m: Warp, lanes: set<nat>, c: int) {
    forall t :: t in lanes ==> t < |m.threads| && !m.threads[t].done && m.threads[t].pc == c
  }

  ghost predicate Ended(m: Warp, lanes: set<nat>) {
    forall t :: t in lanes ==> t < |m.threads| && m.threads[t].done
  }

  /** The other lanes have not moved. */
  ghost predicate Others(m: Warp, m': Warp, lanes: set<nat>) {
    |m'.threads| == |m.threads| && forall t :: 0 <= t < |m.threads| && t !in lanes ==> m'.threads[t] == m.threads[t]
  }

  /** A lane after an edge to `c`; the exit ends it. */
  ghost function Next(g: Graph, th: Thread<()>, c: int): Thread<()>
    requires c != g.exit ==> 0 <= c < ADDRESS_SPACE
  {
    if c == g.exit then th.(done := true) else Thread(c, false, ())
  }

  ghost function Moved(g: Graph, threads: seq<Thread<()>>, lanes: set<nat>, to: nat -> int): (r: seq<Thread<()>>)
    requires forall t :: t in lanes && to(t) != g.exit ==> 0 <= to(t) < ADDRESS_SPACE
    ensures |r| == |threads|
    ensures forall t :: 0 <= t < |threads| ==> r[t] == if t in lanes then Next(g, threads[t], to(t)) else threads[t]
  {
    seq(|threads|, t requires 0 <= t < |threads| => if t in lanes then Next(g, threads[t], to(t)) else threads[t])
  }

  lemma EdgeTarget(f: Flow, a: int, b: int)
    requires FlowOk(f) && f.g.edge(a, b)
    ensures b == f.g.exit || IsInstruction(b)
  {
  }

  /** The top lanes take edges, and the stack is updated. */
  lemma MovedStep(f: Flow, m: Warp, base: seq<Entry>, e: Entry, to: nat -> int, m': Warp)
    requires m.stack == base + [e] && e.mask != {} && At(m, e.mask, e.pc)
    requires forall t :: t in e.mask ==> f.g.edge(e.pc, to(t))
    requires forall t :: t in e.mask && to(t) != f.g.exit ==> 0 <= to(t) < ADDRESS_SPACE
    requires m'.threads == Moved(f.g, m.threads, e.mask, to)
    requires Legal(m.stack, Done(m'.threads), Pcs(m'.threads), OtherOp)
    requires m'.stack == Updated(m.stack, Done(m'.threads), Pcs(m'.threads), f.point(e.pc), OtherOp)
    ensures FlowStep(AnyExec(f.g), f, m, Input(f.point(e.pc), OtherOp), m')
  {
    hide Updated, Legal, Done, Pcs, Moved;
    forall t | t in e.mask ensures AnyExec(f.g)(e.pc, t, m.threads[t], m'.threads[t]) {
    }
  }

  /** All lanes of the top entry take the same edge. */
  lemma StepAll(f: Flow, start: Pc, mask: set<nat>, m: Warp, base: seq<Entry>, e: Entry, c: int) returns (m': Warp)
    requires FlowOk(f) && Gets(f, start, mask, m) && m.stack == base + [e] && e.kind.Normal? && e.mask != {}
    requires At(m, e.mask, e.pc)
    requires f.g.edge(e.pc, c)
    ensures Gets(f, start, mask, m') && (c == f.g.exit || IsInstruction(c)) && m'.stack == AfterAll(f.g, base, e, c)
    ensures Others(m, m', e.mask) && if c == f.g.exit then Ended(m', e.mask) else At(m', e.mask, c)
  {
    EdgeTarget(f, e.pc, c);
    hide FlowOk, Gets, FlowStep;
    var to: nat -> int := t => c;
    var threads := Moved(f.g, m.threads, e.mask, to);
    m' := Machine(AfterAll(f.g, base, e, c), threads);
    AllTogether(f.g, m, e, c, threads);
    UpdatedAll(f.g, base, e, Done(threads), Pcs(threads), f.point(e.pc), c);
    hide Updated, Legal, AfterAll, Done, Pcs, Moved;
    MovedStep(f, m, base, e, to, m');
    GetsStep(f, start, mask, m, Input(f.point(e.pc), OtherOp), m');
  }

  lemma AllTogether(g: Graph, m: Warp, e: Entry, c: int, threads: seq<Thread<()>>)
    requires c == g.exit || IsInstruction(c)
    requires At(m, e.mask, e.pc) && threads == Moved(g, m.threads, e.mask, t => c)
    ensures LanesBelow(e.mask, |threads|)
    ensures if c == g.exit then e.mask <= Done(threads)
            else e.mask !! Done(threads) && IsInstruction(c) && forall t :: t in e.mask ==> Pcs(threads)[t] == c
  {
    hide Moved;
  }

  /** The highest lanes `a` of the top entry go to `c`, the others to `d`. */
  lemma StepSplit(f: Flow, start: Pc, mask: set<nat>, m: Warp, base: seq<Entry>, e: Entry, a: set<nat>, c: int, d: int)
    returns (m': Warp)
    requires FlowOk(f) && Gets(f, start, mask, m) && m.stack == base + [e] && e.kind.Normal? && e.mask != {}
    requires At(m, e.mask, e.pc)
    requires a < e.mask && Highest(e.mask) in a && c != d && c != e.rpc
    requires f.g.edge(e.pc, c) && f.g.edge(e.pc, d) && c != f.g.exit && d != f.g.exit
    ensures IsInstruction(c) && IsInstruction(d) && Gets(f, start, mask, m')
    ensures m'.stack == AfterSplit(base, e, a, c, d, f.point(e.pc))
    ensures Others(m, m', e.mask) && At(m', a, c) && At(m', e.mask - a, d)
  {
    EdgeTarget(f, e.pc, c);
    EdgeTarget(f, e.pc, d);
    hide FlowOk, Gets, FlowStep;
    var to: nat -> int := t => if t in a then c else d;
    var threads := Moved(f.g, m.threads, e.mask, to);
    var v := f.point(e.pc);
    m' := Machine(AfterSplit(base, e, a, c, d, v), threads);
    TwoWays(f.g, m, e, a, c, d, to, threads);
    UpdatedSplit(base, e, Done(threads), Pcs(threads), v, a, c, d);
    hide Updated, Legal, AfterSplit, Done, Pcs, Moved;
    MovedStep(f, m, base, e, to, m');
    GetsStep(f, start, mask, m, Input(v, OtherOp), m');
  }

  lemma TwoWays(g: Graph, m: Warp, e: Entry, a: set<nat>, c: Pc, d: Pc, to: nat -> int, threads: seq<Thread<()>>)
    requires g.exit != c && g.exit != d && (forall t :: to(t) == if t in a then c else d)
    requires At(m, e.mask, e.pc) && threads == Moved(g, m.threads, e.mask, to)
    ensures LanesBelow(e.mask, |threads|) && e.mask !! Done(threads)
    ensures forall t :: t in e.mask ==> Pcs(threads)[t] == if t in a then c else d
  {
    hide Moved;
  }

  // ---------------------------------------------------------------------------------
  // Longer stretches

  /** The lanes of the top entry walk together, without meeting the point they wait for. */
  lemma {:induction false} WalkTop(f: Flow, start: Pc, mask: set<nat>, m: Warp, base: seq<Entry>, e: Entry,
                                   p: seq<int>, q: Pc)
    returns (m': Warp)
    requires FlowOk(f) && Gets(f, start, mask, m) && m.stack == base + [e] && e.kind.Normal? && e.mask != {}
    requires At(m, e.mask, e.pc)
    requires IsWalk(f.g, p, e.pc, q) && e.rpc !in p
    ensures Gets(f, start, mask, m') && m'.stack == base + [e.(pc := q)] && Others(m, m', e.mask) && At(m', e.mask, q)
    decreases |p|
  {
    if |p| == 1 {
      m' := m;
    } else {
      assert f.g.edge(p[0], p[1]);
      NotExitInside(f, p, e.pc, q, 1);
      var m1 := StepAll(f, start, mask, m, base, e, p[1]);
      WalkRest(f.g, p, e.pc, q);
      m' := WalkTop(f, start, mask, m1, base, e.(pc := p[1]), p[1..], q);
    }
  }

  lemma WalkRest(g: Graph, p: seq<int>, a: int, b: int)
    requires IsWalk(g, p, a, b) && |p| > 1
    ensures IsWalk(g, p[1..], p[1], b) && p[1] in p && forall x :: x in p[1..] ==> x in p
  {
    var q := p[1..];
    forall i | 0 <= i < |q| - 1 ensures g.edge(q[i], q[i + 1]) {
      assert g.edge(p[i + 1], p[i + 2]);
    }
  }

  lemma NotExitInside(f: Flow, p: seq<int>, a: int, b: int, i: nat)
    requires FlowOk(f) && IsWalk(f.g, p, a, b) && i < |p| && b != f.g.exit
    ensures p[i] != f.g.exit
  {
    assert forall x: int :: !f.g.edge(f.g.exit, x);
    assert i < |p| - 1 ==> f.g.edge(p[i], p[i + 1]);
  }

  lemma EndsAtExit(f: Flow, p: seq<int>, i: nat)
    requires FlowOk(f) && IsPath(f.g, p) && i < |p| && p[i] == f.g.exit
    ensures i == |p| - 1
  {
    assert forall x: int :: !f.g.edge(f.g.exit, x);
    forall k | 0 <= k < |p| - 1 ensures p[k] != f.g.exit {
      assert f.g.edge(p[k], p[k + 1]);
    }
  }

  /** The lanes of the top entry leave it, along a path to the exit: at the point they wait
      for, if the path meets it, and otherwise at the exit. */
  lemma {:induction false} RunOut(f: Flow, start: Pc, mask: set<nat>, m: Warp, base: seq<Entry>, e: Entry, p: seq<int>)
    returns (m': Warp)
    requires FlowOk(f) && Gets(f, start, mask, m) && m.stack == base + [e] && e.kind.Normal? && e.mask != {}
    requires At(m, e.mask, e.pc)
    requires IsPath(f.g, p) && p[0] == e.pc && e.pc != e.rpc
    ensures Gets(f, start, mask, m') && m'.stack == base && Others(m, m', e.mask)
    ensures if e.rpc in p then At(m', e.mask, e.rpc) else Ended(m', e.mask)
    decreases |p|
  {
    assert |p| > 1 && f.g.edge(p[0], p[1]);
    var m1 := StepAll(f, start, mask, m, base, e, p[1]);
    Suffix(f.g, p, 1);
    assert p == [p[0]] + p[1..];
    if p[1] == f.g.exit {
      EndsAtExit(f, p, 1);
      m' := m1;
    } else if p[1] == e.rpc {
      m' := m1;
    } else {
      m' := RunOut(f, start, mask, m1, base, e.(pc := p[1]), p[1..]);
    }
  }

  /** A group leaves its entry, if it got one. */
  lemma DrainKid(f: Flow, start: Pc, mask: set<nat>, m: Warp, base: seq<Entry>, lanes: set<nat>, c: Pc, v: Pc, rpc: Pc,
                 p: seq<int>)
    returns (m': Warp)
    requires FlowOk(f) && Gets(f, start, mask, m) && m.stack == base + Kid(c, lanes, v, rpc) && lanes != {}
    requires At(m, lanes, c)
    requires IsPath(f.g, p) && p[0] == c
    ensures Gets(f, start, mask, m') && m'.stack == base && Others(m, m', lanes)
    ensures c != rpc ==> if v in p then At(m', lanes, v) else Ended(m', lanes)
  {
    if c == v || c == rpc {
      assert base + [] == base;
      m' := m;
    } else {
      m' := RunOut(f, start, mask, m, base, Entry(c, lanes, v, Normal), p);
    }
  }

  // ---------------------------------------------------------------------------------
  // Ways through the graph

  lemma NoNull(f: Flow, p: seq<int>)
    requires FlowOk(f) && p != [] && p[0] != NULL_PC && forall i :: 0 <= i < |p| - 1 ==> f.g.edge(p[i], p[i + 1])
    ensures NULL_PC !in p
  {
    assert forall a: int, b: int :: f.g.edge(a, b) ==> b != NULL_PC;
    forall i | 0 <= i < |p| ensures p[i] != NULL_PC {
      if i > 0 {
        assert f.g.edge(p[i - 1], p[i - 1 + 1]);
      }
    }
  }

  /** A successor that is an instruction, with a path on to the exit. */
  lemma WayOut(f: Flow, b: Pc, c: int) returns (p: seq<int>)
    requires FlowOk(f) && f.g.edge(b, c) && c != f.g.exit
    ensures IsInstruction(c) && IsPath(f.g, p) && p[0] == c && NULL_PC !in p
  {
    assert ReachesExit(f.g, c);
    p :| IsPath(f.g, p) && p[0] == c;
    NoNull(f, p);
  }

  lemma Successor(f: Flow, b: Pc, c: int) returns (d: int)
    requires Splits(f, b)
    ensures f.g.edge(b, d) && d != c && d != f.g.exit
  {
    var x, y :| f.g.edge(b, x) && f.g.edge(b, y) && x != y && x != f.g.exit && y != f.g.exit;
    d := if x != c then x else y;
  }

  lemma LeadsToInstruction(f: Flow, a: int, b: Pc)
    requires FlowOk(f) && Leads(f.g, a, b)
    ensures a != f.g.exit
  {
    var p :| IsWalk(f.g, p, a, b);
    NotExitInside(f, p, a, b, 0);
  }

  /** From a split whose paths only meet at the exit, some successor goes there without
      passing the return address. */
  lemma Escape(f: Flow, b: Pc) returns (c: int, p: seq<int>)
    requires FlowOk(f) && ExitSplit(f, b)
    ensures f.g.edge(b, c) && IsInstruction(c) && IsPath(f.g, p) && p[0] == c && f.ret !in p && NULL_PC !in p
  {
    var s := Successor(f, b, b);
    var r := WayOut(f, b, s);
    Prepend(f.g, b, r);
    var q := [b] + r;
    if b != f.ret {
      NotAtReturn(f, b);
      q :| IsPath(f.g, q) && q[0] == b && f.ret !in q;
    } else {
      q := LastVisit(f.g, q);
    }
    assert f.g.edge(q[0], q[1]);
    Suffix(f.g, q, 1);
    c, p := q[1], q[1..];
    assert forall x :: x in p ==> x in q;
    assert !f.g.edge(b, f.g.exit);
    assert IsInstruction(c);
    NoNull(f, p);
  }

  lemma NotAtReturn(f: Flow, b: Pc)
    requires FlowOk(f) && ExitSplit(f, b) && b != f.ret
    ensures !PostDominates(f.g, f.ret, b)
  {
    if PostDominates(f.g, f.ret, b) {
      ExitPostDominated(f.g, f.ret);
      assert false;
    }
  }

  /** The path to the exit that passes the return address first. */
  lemma Through(f: Flow, b: Pc, c: int) returns (p: seq<int>)
    requires FlowOk(f) && f.g.edge(b, c) && Leads(f.g, c, f.ret)
    ensures IsPath(f.g, p) && p[0] == c && f.ret in p
  {
    var w :| IsWalk(f.g, w, c, f.ret);
    assert ReachesExit(f.g, f.ret) by {
      assert forall a: int, x: int :: f.g.edge(a, x) ==> ReachesExit(f.g, x);
      assert |w| > 1 ==> f.g.edge(w[|w| - 2], w[|w| - 2 + 1]);
    }
    var q :| IsPath(f.g, q) && q[0] == f.ret;
    assert IsWalk(f.g, q, f.ret, f.g.exit);
    JoinWalks(f.g, w, q, c, f.ret, f.g.exit);
    p := w + q[1..];
  }

  // ---------------------------------------------------------------------------------
  // The failing runs

  lemma WithoutHighest(mask: set<nat>)
    requires |mask| >= 2
    ensures {Highest(mask)} < mask && |mask - {Highest(mask)}| == |mask| - 1 && mask - {Highest(mask)} != {}
  {
    var h := Highest(mask);
    assert |mask - {h}| == |mask| - 1;
  }

  /** A lane that has ended is at the top, and another lane is left. */
  lemma TopIsStuck(m: Warp, mask: set<nat>, t: nat, u: nat)
    requires m.stack != [] && t in m.stack[|m.stack| - 1].mask && Ended(m, {t})
    requires u in mask && u < |m.threads| && !m.threads[u].done
    ensures Stuck(m, mask)
  {
    assert t in {t};
  }

  /** All lanes go to an instruction the kernel can get to. */
  lemma AllAt(f: Flow, start: Pc, mask: set<nat>, b: Pc) returns (m: Warp)
    requires FlowOk(f) && start != NULL_PC && mask != {} && Leads(f.g, start, b)
    ensures Gets(f, start, mask, m) && m.stack == [] + [Entry(b, mask, NULL_PC, Normal)] && At(m, mask, b)
  {
    var m0 := GetsLaunch(f, start, mask, Highest(mask) + 1);
    var p :| IsWalk(f.g, p, start, b);
    NoNull(f, p);
    hide Gets, FlowOk;
    m := WalkTop(f, start, mask, m0, [], Entry(start, mask, NULL_PC, Normal), p, b);
  }

  /** Both groups of a split leave; those of the first, which pass no `v`, all the way. */
  lemma DrainBoth(f: Flow, start: Pc, mask: set<nat>, m: Warp, base: seq<Entry>, a: set<nat>, c: Pc, p: seq<int>,
                  b: set<nat>, d: Pc, q: seq<int>, v: Pc, rpc: Pc) returns (m': Warp)
    requires FlowOk(f) && Gets(f, start, mask, m) && m.stack == base + Kid(c, a, v, rpc) + Kid(d, b, v, rpc)
    requires a != {} && b != {} && a !! b && At(m, a, c) && At(m, b, d) && c != rpc
    requires IsPath(f.g, p) && p[0] == c && v !in p && IsPath(f.g, q) && q[0] == d
    ensures Gets(f, start, mask, m') && m'.stack == base && Others(m, m', a + b) && Ended(m', a)
    ensures d != rpc && v in q ==> At(m', b, v)
  {
    hide Gets, FlowOk, IsPath, Kid;
    var m1 := DrainKid(f, start, mask, m, base + Kid(c, a, v, rpc), b, d, v, rpc, q);
    m' := DrainKid(f, start, mask, m1, base, a, c, v, rpc, p);
  }

  /** The highest lane goes to `c`, and the others from `d` along a walk to `b`, where they
      split too: the two new groups leave, one of them without passing the point. Then the
      entry of the others is at the top, with lanes that have ended. */
  lemma SplitTwice(f: Flow, start: Pc, mask: set<nat>, m: Warp, base: seq<Entry>, e: Entry, w: seq<int>, b: Pc, x: int,
                   p: seq<int>, h: nat)
    returns (m': Warp)
    requires FlowOk(f) && Gets(f, start, mask, m) && m.stack == base + [e] && e.kind.Normal? && |e.mask| >= 2
    requires At(m, e.mask, e.pc)
    requires h in mask - e.mask && h < |m.threads| && !m.threads[h].done
    requires IsWalk(f.g, w, e.pc, b) && e.rpc !in w
    requires Splits(f, b) && f.point(b) != e.rpc
    requires f.g.edge(b, x) && x != f.g.exit && x != e.rpc && IsPath(f.g, p) && p[0] == x && f.point(b) !in p
    ensures Gets(f, start, mask, m') && Stuck(m', mask)
  {
    var a := {Highest(e.mask)};
    WithoutHighest(e.mask);
    var y := Successor(f, b, x);
    var q := WayOut(f, b, y);
    hide Gets, FlowOk, Splits, IsWalk, IsPath, Stuck;
    var m1 := WalkTop(f, start, mask, m, base, e, w, b);
    var e1 := e.(pc := b);
    var m2 := StepSplit(f, start, mask, m1, base, e1, a, x, y);
    var parent := e.(pc := f.point(b));
    m' := DrainBoth(f, start, mask, m2, base + [parent], a, x, p, e.mask - a, y, q, f.point(b), e.rpc);
    TopIsStuck(m', mask, Highest(e.mask), h);
  }

  /** A split without a point inside the region of a branch: the point becomes the null PC. */
  lemma InsideIsStuck(f: Flow, start: Pc, mask: set<nat>, b: Pc, c: int, i: Pc) returns (m: Warp)
    requires FlowOk(f) && start != NULL_PC && |mask| >= 3
    requires Leads(f.g, start, b) && Tabled(f, b) && f.g.edge(b, c) && Untabled(f, i)
    requires LeadsAvoiding(f.g, c, i, f.point(b))
    ensures Gets(f, start, mask, m) && Stuck(m, mask)
  {
    var v, h := f.point(b), Highest(mask);
    WithoutHighest(mask);
    var w :| IsWalk(f.g, w, c, i) && v !in w;
    LeadsToInstruction(f, c, i);
    assert c in w;
    var c' := Successor(f, b, c);
    var x := Successor(f, i, v);
    var p := WayOut(f, i, x);
    var m1 := AllAt(f, start, mask, b);
    hide Gets, FlowOk, Tabled, Splits, Leads, LeadsAvoiding, IsWalk, IsPath, Stuck;
    var m2 := StepSplit(f, start, mask, m1, [], Entry(b, mask, NULL_PC, Normal), {h}, c', c);
    var base := [Entry(v, mask, NULL_PC, Normal)] + Kid(c', {h}, v, NULL_PC);
    var e := Entry(c, mask - {h}, v, Normal);
    assert m2.stack == base + [e];
    assert h in {h};
    m := SplitTwice(f, start, mask, m2, base, e, w, i, x, p, h);
  }

  /** After a split without a point one group ends at a branch that waits at the return
      address for the exit. */
  lemma AfterIsStuck(f: Flow, start: Pc, mask: set<nat>, i: Pc, d: int, b: Pc) returns (m: Warp)
    requires FlowOk(f) && start != NULL_PC && |mask| >= 3
    requires Leads(f.g, start, i) && Untabled(f, i) && f.g.edge(i, d) && ExitSplit(f, b) && Leads(f.g, d, b)
    ensures Gets(f, start, mask, m) && Stuck(m, mask)
  {
    var h := Highest(mask);
    WithoutHighest(mask);
    LeadsToInstruction(f, d, b);
    var d' := Successor(f, i, d);
    var r := WayOut(f, i, d);
    var w :| IsWalk(f.g, w, d, b);
    NoNull(f, w);
    var x, p := Escape(f, b);
    PointIsReturn(f, b);
    assert f.g.exit < 0 && f.ret != NULL_PC;
    var m1 := AllAt(f, start, mask, i);
    hide Gets, FlowOk, Splits, Leads, IsWalk, IsPath, ImmediatePostDominator, Stuck;
    var m2 := StepSplit(f, start, mask, m1, [], Entry(i, mask, NULL_PC, Normal), {h}, d', d);
    var base := Kid(d', {h}, NULL_PC, NULL_PC);
    var e := Entry(d, mask - {h}, NULL_PC, Normal);
    assert m2.stack == base + [e];
    assert h in {h};
    m := SplitTwice(f, start, mask, m2, base, e, w, b, x, p, h);
  }

  lemma PointIsReturn(f: Flow, b: Pc)
    requires FlowOk(f) && ExitSplit(f, b)
    ensures f.point(b) == f.ret
  {
    var x :| IsPoint(f, b, x);
    var s := Successor(f, b, b);
    var r := WayOut(f, b, s);
    Prepend(f.g, b, r);
    ImmediateUnique(f.g, x, f.g.exit, b, [b] + r);
  }

  /** One successor goes to the exit past the return address, and another gets to it. */
  lemma BothWays(f: Flow, b: Pc, c: int) returns (x: int, p: seq<int>, y: int, q: seq<int>)
    requires FlowOk(f) && ExitSplit(f, b) && f.g.edge(b, c) && Leads(f.g, c, f.ret)
    ensures x != y && f.g.edge(b, x) && f.g.edge(b, y) && IsInstruction(x) && IsInstruction(y)
    ensures IsPath(f.g, p) && p[0] == x && f.ret !in p && IsPath(f.g, q) && q[0] == y && f.ret in q
  {
    LeadsToInstruction(f, c, f.ret);
    x, p := Escape(f, b);
    y := c;
    if x == c {
      var d := Successor(f, b, c);
      if Leads(f.g, d, f.ret) {
        y := d;
      } else {
        x := d;
        p := WayOut(f, b, d);
        forall j | 0 <= j < |p| ensures p[j] != f.ret {
          PrefixWalk(f.g, p, j);
        }
      }
    }
    q := Through(f, b, y);
    assert f.g.edge(b, y) && y != f.g.exit;
  }

  /** A branch that waits at the return address for the exit, and a lane that comes there
      alive: it finds the lanes that have ended in its entry. */
  lemma WayBackIsStuck(f: Flow, start: Pc, mask: set<nat>, b: Pc, c: int) returns (m: Warp)
    requires FlowOk(f) && start != NULL_PC && |mask| >= 2
    requires Leads(f.g, start, b) && ExitSplit(f, b) && f.g.edge(b, c) && Leads(f.g, c, f.ret)
    ensures Gets(f, start, mask, m) && Stuck(m, mask)
  {
    var h := Highest(mask);
    WithoutHighest(mask);
    var x, p, y, q := BothWays(f, b, c);
    var m1 := AllAt(f, start, mask, b);
    PointIsReturn(f, b);
    assert f.g.exit < 0 && f.ret != NULL_PC;
    hide Gets, FlowOk, Splits, Leads, IsPath, ExitSplit, Stuck;
    var e := Entry(b, mask, NULL_PC, Normal);
    var m2 := StepSplit(f, start, mask, m1, [], e, {h}, x, y);
    m := DrainBoth(f, start, mask, m2, [] + [e.(pc := f.ret)], {h}, x, p, mask - {h}, y, q, f.ret, NULL_PC);
    var u := Highest(mask - {h});
    TopIsStuck(m, mask, h, u);
  }

  lemma Hazard(f: Flow, start: Pc, mask: set<nat>) returns (m: Warp)
    requires FlowOk(f) && start != NULL_PC && |mask| >= 3 && !Clean(f, start)
    ensures Gets(f, start, mask, m) && Stuck(m, mask)
  {
    hide FlowOk, Gets, Stuck, Tabled, Untabled, ExitSplit, Leads, LeadsAvoiding;
    if !NoneInside(f, start) {
      var b: Pc, c, i: Pc :| Leads(f.g, start, b) && Tabled(f, b) && f.g.edge(b, c) && Untabled(f,
        i) && LeadsAvoiding(f.g, c, i, f.point(b));
      m := InsideIsStuck(f, start, mask, b, c, i);
    } else if !NoneAfter(f, start) {
      var i: Pc, d, b: Pc :| Leads(f.g, start, i) && Untabled(f, i) && f.g.edge(i, d) && ExitSplit(f, b) && Leads(f.g,
        d, b);
      m := AfterIsStuck(f, start, mask, i, d, b);
    } else {
      var b: Pc, c :| Leads(f.g, start, b) && ExitSplit(f, b) && f.g.edge(b, c) && Leads(f.g, c, f.ret);
      m := WayBackIsStuck(f, start, mask, b, c);
    }
  }

  /** What can go wrong for this many lanes: one lane cannot split, two can split once, and
      three or more can split again inside a region. */
  ghost predicate CleanFor(f: Flow, start: Pc, lanes: nat) {
    && (lanes >= 2 ==> NoWayBack(f, start))
    && (lanes >= 3 ==> NoneInside(f, start) && NoneAfter(f, start))
  }

  /** In every run of a kernel that is clean for its lanes no update loses a lane, and as long
      as a lane is left the next instruction passes the assertions. */
  lemma CleanRun<S(!new)>(exec: Exec<S>, f: Flow, start: Pc, mask: set<nat>, ms: seq<Machine<S>>, inputs: seq<Input>,
                          n: nat)
    requires FlowOk(f) && CleanFor(f, start, |mask|) && start != NULL_PC && ReachesExit(f.g, start)
    requires Follows(exec, f.g)
    requires FlowRun(exec, f, start, mask, ms, inputs) && n <= |inputs|
    ensures Run(exec, start, mask, ms, inputs) && (SomeLive(ms[n], mask) ==> TopIsLive(ms[n]))
  {
    hide FlowOk, NoneInside, NoneAfter, NoWayBack, ReachesExit, Follows, FlowStep, LockStep, Launched, SomeLive,
      TopIsLive, MachineFew;
    if |mask| >= 3 {
      FlowRunIsRun(exec, f, start, mask, ms, inputs);
      if SomeLive(ms[n], mask) {
        CleanIsSafe(exec, f, start, mask, ms, inputs, n);
      }
    } else {
      FewRunKeeps(exec, f, start, mask, ms, inputs, |inputs|);
      FewRunKeeps(exec, f, start, mask, ms, inputs, n);
      if SomeLive(ms[n], mask) {
        FewTopLive(f, start, ms[n], mask);
      }
    }
  }

  lemma AnyHazard(f: Flow, start: Pc, mask: set<nat>) returns (m: Warp)
    requires FlowOk(f) && start != NULL_PC && !CleanFor(f, start, |mask|)
    ensures Gets(f, start, mask, m) && Stuck(m, mask)
  {
    hide FlowOk, Gets, Stuck, ExitSplit, Leads, NoneInside, NoneAfter;
    if |mask| >= 3 {
      m := Hazard(f, start, mask);
    } else {
      var b: Pc, c :| Leads(f.g, start, b) && ExitSplit(f, b) && f.g.edge(b, c) && Leads(f.g, c, f.ret);
      m := WayBackIsStuck(f, start, mask, b, c);
    }
  }

  /** The exact condition, for any number of lanes: no run of the kernel fails an assertion if
      and only if the kernel is clean for that many. */
  lemma SafeIff(f: Flow, start: Pc, mask: set<nat>)
    requires FlowOk(f) && start != NULL_PC && ReachesExit(f.g, start)
    ensures Safe(f, start, mask) <==> CleanFor(f, start, |mask|)
  {
    hide FlowOk, CleanFor, SomeLive, TopIsLive, ReachesExit;
    if CleanFor(f, start, |mask|) {
      forall m: Warp | Gets(f, start, mask, m) ensures !Stuck(m, mask) {
        var ms, inputs :| FlowRun(AnyExec(f.g), f, start, mask, ms, inputs) && ms[|inputs|] == m;
        CleanRun(AnyExec(f.g), f, start, mask, ms, inputs, |inputs|);
      }
    } else {
      var m := AnyHazard(f, start, mask);
    }
  }
}
