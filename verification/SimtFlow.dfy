/** Kernels without calls, on their control-flow graph. A warp takes the reconvergence point of
    every instruction from a table; a branch whose paths only meet at the exit reconverges at
    the return address, which may be the PC of an instruction of the kernel. Here: the
    functions for which no update loses a lane and no finished lane is executed. */
module SimtFlow {
  import opened Collections
  import opened PostDominance
  import opened SimtStack
  import opened SimtSafety
  import opened SimtRuns

  // ---------------------------------------------------------------------------------
  // Kernels

  /** The instructions and the exit, the PC that an instruction hands to `update` (the null PC
      if it is not in the table), and the return address. */
  datatype Flow = Flow(g: Graph, point: Pc -> Pc, ret: Pc)

  /** The point is the immediate post-dominator `x`, the return address standing for the exit. */
  ghost predicate IsPoint(f: Flow, pc: Pc, x: int) {
    ImmediatePostDominator(f.g, x, pc) && f.point(pc) == if x == f.g.exit then f.ret else x
  }

  ghost predicate IsInstruction(a: int) {
    0 <= a < ADDRESS_SPACE && a != NULL_PC
  }

  /** The exit is no PC and has no successor; from everywhere it can be reached; the table has
      only branches, which never go straight to the exit, each with its immediate
      post-dominator. */
  ghost predicate FlowOk(f: Flow) {
    && f.g.exit < 0 && f.ret != NULL_PC
    && (forall b: int :: !f.g.edge(f.g.exit, b))
    && (forall a: int, b: int :: f.g.edge(a, b) ==> ReachesExit(f.g, b) && (b == f.g.exit || IsInstruction(b)))
    && (forall pc: Pc :: f.point(pc) != NULL_PC ==> !f.g.edge(pc, f.g.exit) && exists x :: IsPoint(f, pc, x))
  }

  /** Two lanes of a warp can leave the instruction for different instructions. */
  ghost predicate Splits(f: Flow, pc: Pc) {
    exists a, b :: f.g.edge(pc, a) && f.g.edge(pc, b) && a != b && a != f.g.exit && b != f.g.exit
  }

  ghost predicate Untabled(f: Flow, pc: Pc) {
    Splits(f, pc) && f.point(pc) == NULL_PC
  }

  ghost predicate Tabled(f: Flow, pc: Pc) {
    Splits(f, pc) && f.point(pc) != NULL_PC
  }

  /** A branch whose paths only meet at the exit. */
  ghost predicate ExitSplit(f: Flow, pc: Pc) {
    Tabled(f, pc) && ImmediatePostDominator(f.g, f.g.exit, pc)
  }

  // ---------------------------------------------------------------------------------
  // Runs

  /** The lanes the warp executes next are alive, and each is at the PC it is executed at:
      what `ptx_exec_inst` asserts of every lane. */
  ghost predicate TopIsLive<S>(m: Machine<S>) {
    && m.stack != [] && m.stack[|m.stack| - 1].mask != {}
    && forall t :: t in m.stack[|m.stack| - 1].mask ==>
         t < |m.threads| && !m.threads[t].done && m.threads[t].pc == m.stack[|m.stack| - 1].pc
  }

  /** Every instruction takes a lane along an edge, or ends it by taking the edge to the exit. */
  ghost predicate Follows<S(!new)>(exec: Exec<S>, g: Graph) {
    forall pc: Pc, t, th, th' :: exec(pc, t, th, th') ==>
      if th'.done then g.edge(pc, g.exit) else th'.pc != g.exit && g.edge(pc, th'.pc)
  }

  /** One step of a warp that passes the assertions: all lanes of the top entry execute, and
      the stack is updated. */
  ghost predicate WarpStep<S>(exec: Exec<S>, m: Machine<S>, input: Input, m': Machine<S>) {
    && TopIsLive(m) && |m'.threads| == |m.threads|
    && (forall t :: 0 <= t < |m.threads| ==>
          if t in m.stack[|m.stack| - 1].mask then exec(m.stack[|m.stack| - 1].pc, t, m.threads[t], m'.threads[t])
          else m'.threads[t] == m.threads[t])
    && (Legal(m.stack, Done(m'.threads), Pcs(m'.threads), input.op) ==>
          m'.stack == Updated(m.stack, Done(m'.threads), Pcs(m'.threads), input.recvgPc, input.op))
  }

  /** Without a call, and with the point of the table. */
  ghost predicate FlowStep<S>(exec: Exec<S>, f: Flow, m: Machine<S>, input: Input, m': Machine<S>) {
    WarpStep(exec, m, input, m') && !input.op.CallOp? && input.recvgPc == f.point(m.stack[|m.stack| - 1].pc)
  }

  ghost predicate FlowRun<S>(exec: Exec<S>, f: Flow, start: Pc, mask: set<nat>, ms: seq<Machine<S>>,
                             inputs: seq<Input>)
  {
    && |ms| == |inputs| + 1
    && Launched(ms[0], start, mask) && (forall t :: t in mask ==> !ms[0].threads[t].done)
    && forall i :: 0 <= i < |inputs| ==> FlowStep(exec, f, ms[i], inputs[i], ms[i + 1])
  }

  ghost predicate SomeLive<S>(m: Machine<S>, mask: set<nat>) {
    exists t :: t in mask && t < |m.threads| && !m.threads[t].done
  }

  // ---------------------------------------------------------------------------------
  // What can go wrong

  /** No split without a point inside the region of a branch: after the branch and before its
      point. */
  ghost predicate NoneInside(f: Flow, start: Pc) {
    forall b: Pc, c, i: Pc :: Leads(f.g, start, b) && Tabled(f, b) && f.g.edge(b, c) && Untabled(f, i) ==>
      !LeadsAvoiding(f.g, c, i, f.point(b))
  }

  /** No branch that reconverges at the return address after a split without a point. */
  ghost predicate NoneAfter(f: Flow, start: Pc) {
    forall i: Pc, d, b: Pc :: Leads(f.g, start, i) && Untabled(f, i) && f.g.edge(i, d) && ExitSplit(f, b) ==>
      !Leads(f.g, d, b)
  }

  /** No way from a branch that reconverges at the return address to an instruction there. */
  ghost predicate NoWayBack(f: Flow, start: Pc) {
    forall b: Pc, c :: Leads(f.g, start, b) && ExitSplit(f, b) && f.g.edge(b, c) ==> !Leads(f.g, c, f.ret)
  }

  ghost predicate Clean(f: Flow, start: Pc) {
    NoneInside(f, start) && NoneAfter(f, start) && NoWayBack(f, start)
  }

  // ---------------------------------------------------------------------------------
  // The invariant

  ghost predicate Gone(f: Flow, a: int) {
    !Leads(f.g, a, f.ret)
  }

  /** No split without a point on the way to `r`. */
  ghost predicate Sheltered(f: Flow, a: int, r: int) {
    forall i: Pc :: Untabled(f, i) ==> !LeadsAvoiding(f.g, a, i, r)
  }

  /** The entry is on its way to a post-dominator of where it is, or to the exit, and so will
      never be at the return address itself. */
  ghost predicate Waits(f: Flow, e: Entry) {
    && e.rpc != NULL_PC && e.pc != e.rpc && ReachesExit(f.g, e.pc) && Sheltered(f, e.pc, e.rpc)
    && (PostDominates(f.g, e.rpc, e.pc) || (e.rpc == f.ret && Gone(f, e.pc)))
  }

  /** The entry stands for the exit. */
  ghost predicate Parked(f: Flow, e: Entry, done: set<nat>, pcs: seq<Pc>) {
    && e.rpc == NULL_PC && e.pc == f.ret
    && forall t :: t in e.mask && t !in done ==> t < |pcs| && Gone(f, pcs[t])
  }

  /** The next entry down with lane `t` is where entry `j` is going. */
  ghost predicate OwnerWaits(f: Flow, s: seq<Entry>, j: nat, t: nat, done: set<nat>, pcs: seq<Pc>)
    requires j < |s|
  {
    var i := OwnerBelow(s, j, t);
    i >= 0 && s[i].pc == s[j].rpc && (s[j].rpc == f.ret && Gone(f, s[j].pc) ==> Parked(f, s[i], done, pcs))
  }

  ghost predicate AllWait(f: Flow, s: seq<Entry>, done: set<nat>, pcs: seq<Pc>) {
    && (forall j :: 0 <= j < |s| ==> s[j].kind.Normal?)
    && (forall j :: 0 <= j < |s| && s[j].rpc != NULL_PC ==> Waits(f, s[j]))
    && (forall j, t :: 0 <= j < |s| && s[j].rpc != NULL_PC && t in s[j].mask ==> OwnerWaits(f, s, j, t, done, pcs))
  }

  /** Entries that wait for nothing hold lanes that no lower entry holds. */
  ghost predicate RootsApart(s: seq<Entry>) {
    forall i, j :: 0 <= i < j < |s| && s[j].rpc == NULL_PC ==> s[i].mask !! s[j].mask
  }

  /** Lanes that are done are only in entries that stand for the exit. */
  ghost predicate DeadParked(f: Flow, s: seq<Entry>, done: set<nat>, pcs: seq<Pc>) {
    forall i, t :: 0 <= i < |s| && t in s[i].mask && t in done ==> Parked(f, s[i], done, pcs)
  }

  ghost predicate ManyRoots(s: seq<Entry>) {
    exists j :: 0 < j < |s| && s[j].rpc == NULL_PC
  }

  /** The entry waits for the exit. */
  ghost predicate Leaving(f: Flow, e: Entry) {
    e.rpc != NULL_PC && e.rpc == f.ret && Gone(f, e.pc)
  }

  ghost predicate Late(f: Flow, a: int) {
    forall b: Pc :: ExitSplit(f, b) ==> !Leads(f.g, a, b)
  }

  /** After a split without a point nothing stands for the exit any more. */
  ghost predicate Scattered(f: Flow, s: seq<Entry>, all: set<nat>, done: set<nat>, pcs: seq<Pc>) {
    && (forall i :: 0 <= i < |s| ==> s[i].mask !! done && !Leaving(f, s[i]))
    && (forall t :: t in all && t !in done ==> t < |pcs| && Late(f, pcs[t]))
  }

  ghost predicate OnCourse(f: Flow, start: Pc, all: set<nat>, done: set<nat>, pcs: seq<Pc>) {
    forall t :: t in all && t !in done ==>
      t < |pcs| && pcs[t] != NULL_PC && ReachesExit(f.g, pcs[t]) && Leads(f.g, start, pcs[t])
  }

  ghost predicate FlowInv(f: Flow, start: Pc, s: seq<Entry>, all: set<nat>, done: set<nat>, pcs: seq<Pc>) {
    && Inv(s, all, done, pcs)
    && OnCourse(f, start, all, done, pcs)
    && AllWait(f, s, done, pcs)
    && RootsApart(s)
    && DeadParked(f, s, done, pcs)
    && (ManyRoots(s) ==> Scattered(f, s, all, done, pcs))
  }

  // ---------------------------------------------------------------------------------
  // One step

  /** The lanes of the top entry, all alive and at its PC, each take an edge. */
  ghost predicate Takes(f: Flow, s: seq<Entry>, all: set<nat>, done: set<nat>, pcs: seq<Pc>, done': set<nat>,
                        pcs': seq<Pc>)
  {
    && s != [] && LanesBelow(all, |pcs|) && |pcs'| == |pcs| && done <= done'
    && (var top := s[|s| - 1];
        && top.mask <= all && top.mask !! done && top.mask != {} && IsInstruction(top.pc)
        && (forall t :: t in top.mask ==> pcs[t] == top.pc)
        && (forall t :: t in done' && t !in done ==> t in top.mask && f.g.edge(top.pc, f.g.exit))
        && (forall t :: t in top.mask && t !in done' ==> f.g.edge(top.pc, pcs'[t]) && pcs'[t] != NULL_PC)
        && (forall t :: t in all && t !in top.mask ==> pcs'[t] == pcs[t]))
  }

  lemma GoneStep(f: Flow, a: int, c: int)
    requires Gone(f, a) && f.g.edge(a, c)
    ensures Gone(f, c)
  {
    if Leads(f.g, c, f.ret) {
      EdgeLeads(f.g, a, c);
      LeadsJoin(f.g, a, c, f.ret);
    }
  }

  lemma ParkedStays(f: Flow, s: seq<Entry>, all: set<nat>, done: set<nat>, pcs: seq<Pc>, done': set<nat>,
                    pcs': seq<Pc>, e: Entry)
    requires Takes(f, s, all, done, pcs, done', pcs') && Parked(f, e, done, pcs) && e.mask <= all
    ensures Parked(f, e, done', pcs')
  {
    hide Gone;
    var top := s[|s| - 1];
    forall t | t in e.mask && t !in done' ensures t < |pcs'| && Gone(f, pcs'[t]) {
      assert t in all && t !in done;
      if t in top.mask {
        GoneStep(f, pcs[t], pcs'[t]);
      }
    }
  }

  lemma CourseStays(f: Flow, start: Pc, s: seq<Entry>, all: set<nat>, done: set<nat>, pcs: seq<Pc>, done': set<nat>,
                    pcs': seq<Pc>)
    requires FlowOk(f) && Takes(f, s, all, done, pcs, done', pcs') && OnCourse(f, start, all, done, pcs)
    ensures OnCourse(f, start, all, done', pcs')
  {
    hide Leads, ReachesExit;
    var top := s[|s| - 1];
    forall t | t in all && t !in done'
      ensures pcs'[t] != NULL_PC && ReachesExit(f.g, pcs'[t]) && Leads(f.g, start, pcs'[t])
    {
      if t in top.mask {
        EdgeLeads(f.g, pcs[t], pcs'[t]);
        LeadsJoin(f.g, start, pcs[t], pcs'[t]);
      }
    }
  }

  lemma LateStays(f: Flow, s: seq<Entry>, all: set<nat>, done: set<nat>, pcs: seq<Pc>, done': set<nat>, pcs': seq<Pc>,
                  t: nat)
    requires Takes(f, s, all, done, pcs, done', pcs') && t in all && t !in done' && Late(f, pcs[t])
    ensures Late(f, pcs'[t])
  {
    forall b: Pc | ExitSplit(f, b) ensures !Leads(f.g, pcs'[t], b) {
      if t in s[|s| - 1].mask && Leads(f.g, pcs'[t], b) {
        EdgeLeads(f.g, pcs[t], pcs'[t]);
        LeadsJoin(f.g, pcs[t], pcs'[t], b);
      }
    }
  }

  lemma ShelteredStep(f: Flow, a: int, c: int, r: int)
    requires Sheltered(f, a, r) && f.g.edge(a, c) && a != r && c != r
    ensures Sheltered(f, c, r)
  {
    forall i: Pc | Untabled(f, i) ensures !LeadsAvoiding(f.g, c, i, r) {
      if LeadsAvoiding(f.g, c, i, r) {
        EdgeLeads(f.g, a, c);
        AvoidingJoin(f.g, a, c, i, r);
      }
    }
  }

  /** A post-dominator at the return address can be reached. */
  lemma NotGone(f: Flow, a: int)
    requires PostDominates(f.g, f.ret, a) && ReachesExit(f.g, a)
    ensures !Gone(f, a)
  {
    LeadsToPostDominator(f.g, f.ret, a);
  }

  /** A lane that goes on without reaching the point still waits for it. */
  lemma WaitsStep(f: Flow, e: Entry, c: Pc, lanes: set<nat>)
    requires FlowOk(f) && Waits(f, e) && f.g.edge(e.pc, c) && c != e.rpc
    ensures Waits(f, Entry(c, lanes, e.rpc, Normal))
    ensures e.rpc == f.ret ==> (Gone(f, e.pc) <==> Gone(f, c))
  {
    hide Leads, LeadsAvoiding, Untabled, PostDominates;
    ShelteredStep(f, e.pc, c, e.rpc);
    assert ReachesExit(f.g, c);
    hide ReachesExit;
    if PostDominates(f.g, e.rpc, e.pc) {
      SuccessorPostDominated(f.g, e.rpc, e.pc, c);
      if e.rpc == f.ret {
        NotGone(f, e.pc);
        NotGone(f, c);
      }
    } else {
      GoneStep(f, e.pc, c);
    }
  }

  /** A lane that ends is, below the top entry, only in an entry that stands for the exit. */
  lemma NewlyDead(f: Flow, s: seq<Entry>, all: set<nat>, done: set<nat>, pcs: seq<Pc>, done': set<nat>, pcs': seq<Pc>,
                  i: nat, t: nat)
    requires FlowOk(f) && Takes(f, s, all, done, pcs, done', pcs') && AllWait(f, s, done, pcs) && RootsApart(s)
    requires i < |s| - 1 && t in s[i].mask && t in done' && t !in done
    ensures Parked(f, s[i], done, pcs) && Leaving(f, s[|s| - 1])
  {
    hide Sheltered, Gone, Parked;
    var n := |s| - 1;
    var top := s[n];
    assert top.rpc != NULL_PC;
    assert Waits(f, top) && OwnerWaits(f, s, n, t, done, pcs);
    if PostDominates(f.g, top.rpc, top.pc) {
      OnlyExit(f.g, top.rpc, top.pc);
      assert false;
    }
    hide PostDominates, Waits, OwnerWaits;
    var o := OwnerBelow(s, n, t);
    RootIs(f, s[o], done, pcs);
    assert o != i ==> i < o;
  }

  lemma RootIs(f: Flow, e: Entry, done: set<nat>, pcs: seq<Pc>)
    requires Parked(f, e, done, pcs)
    ensures e.rpc == NULL_PC
  {
  }

  /** A lane of entry `j` that has come from entry `n` finds the same entry below. */
  lemma OwnerCarries(f: Flow, s: seq<Entry>, all: set<nat>, done: set<nat>, pcs: seq<Pc>, done': set<nat>,
                     pcs': seq<Pc>, r: seq<Entry>, n: nat, j: nat, t: nat)
    requires Takes(f, s, all, done, pcs, done', pcs') && (forall i :: 0 <= i < |s| ==> s[i].mask <= all)
    requires n < |s| && n <= j < |r| && (forall k :: 0 <= k < n ==> r[k] == s[k])
    requires forall k :: n <= k < j ==> t !in r[k].mask
    requires OwnerWaits(f, s, n, t, done, pcs) && r[j].rpc == s[n].rpc
    requires r[j].rpc == f.ret && Gone(f, r[j].pc) ==> Gone(f, s[n].pc)
    ensures OwnerWaits(f, r, j, t, done', pcs')
  {
    hide Gone, Parked, Takes;
    OwnerSame(s, r, n, j, t);
    var i := OwnerBelow(s, n, t);
    if Parked(f, s[i], done, pcs) {
      ParkedStays(f, s, all, done, pcs, done', pcs', s[i]);
    }
  }

  /** What is below the top entry stays as it was. */
  lemma LowerStays(f: Flow, s: seq<Entry>, all: set<nat>, done: set<nat>, pcs: seq<Pc>, done': set<nat>, pcs': seq<Pc>,
                   r: seq<Entry>, j: nat, t: nat)
    requires Takes(f, s, all, done, pcs, done', pcs') && AllWait(f, s, done, pcs)
    requires forall i :: 0 <= i < |s| ==> s[i].mask <= all
    requires j < |s| && j < |r| && (forall k :: 0 <= k < j ==> r[k] == s[k]) && r[j].rpc == s[j].rpc
    requires r[j].mask == s[j].mask
    requires s[j].rpc != NULL_PC && t in s[j].mask
    requires r[j].rpc == f.ret && Gone(f, r[j].pc) ==> Gone(f, s[j].pc)
    ensures OwnerWaits(f, r, j, t, done', pcs')
  {
    hide Gone, Takes, Waits;
    assert OwnerWaits(f, s, j, t, done, pcs);
    hide OwnerWaits, AllWait;
    OwnerCarries(f, s, all, done, pcs, done', pcs', r, j, j, t);
  }


  /** The entry and its lanes wait as `AllWait` says. */
  ghost predicate EntryWaits(f: Flow, s: seq<Entry>, j: nat, done: set<nat>, pcs: seq<Pc>)
    requires j < |s|
  {
    Waits(f, s[j]) && forall t :: t in s[j].mask ==> OwnerWaits(f, s, j, t, done, pcs)
  }

  lemma FromEntries(f: Flow, s: seq<Entry>, done: set<nat>, pcs: seq<Pc>)
    requires forall j :: 0 <= j < |s| ==> s[j].kind.Normal? && (s[j].rpc != NULL_PC ==> EntryWaits(f, s, j, done, pcs))
    ensures AllWait(f, s, done, pcs)
  {
    hide Waits, OwnerWaits;
  }

  // The top entry gives way to its groups.

  lemma ReplacedWait(f: Flow, s: seq<Entry>, all: set<nat>, done: set<nat>, pcs: seq<Pc>, done': set<nat>,
                     pcs': seq<Pc>, cs: seq<Pc>)
    requires FlowOk(f) && Takes(f, s, all, done, pcs, done', pcs') && AllWait(f, s, done, pcs)
    requires forall i :: 0 <= i < |s| ==> s[i].mask <= all
    requires GroupsAbove(cs, Live(s, done'), pcs', s[|s| - 1])
    ensures AllWait(f, Replaced(s, Live(s, done'), pcs', cs), done', pcs')
  {
    var n, r := |s| - 1, Replaced(s, Live(s, done'), pcs', cs);
    hide FlowOk, Takes, GroupsAbove, EntryWaits;
    forall j | 0 <= j < |r| ensures r[j].kind.Normal? && (r[j].rpc != NULL_PC ==> EntryWaits(f, r, j, done', pcs')) {
      if j < n {
        if r[j].rpc != NULL_PC {
          LowerWaits(f, s, all, done, pcs, done', pcs', r, j);
        }
      } else if r[j].rpc != NULL_PC {
        UpperWaits(f, s, all, done, pcs, done', pcs', cs, j - n);
      }
    }
    FromEntries(f, r, done', pcs');
  }

  lemma LowerWaits(f: Flow, s: seq<Entry>, all: set<nat>, done: set<nat>, pcs: seq<Pc>, done': set<nat>, pcs': seq<Pc>,
                   r: seq<Entry>, j: nat)
    requires Takes(f, s, all, done, pcs, done', pcs') && AllWait(f, s, done, pcs)
    requires forall i :: 0 <= i < |s| ==> s[i].mask <= all
    requires j < |s| && j < |r| && (forall k :: 0 <= k <= j ==> r[k] == s[k]) && s[j].rpc != NULL_PC
    ensures EntryWaits(f, r, j, done', pcs')
  {
    hide Waits, OwnerWaits, Gone, Takes;
    forall t | t in r[j].mask ensures OwnerWaits(f, r, j, t, done', pcs') {
      LowerStays(f, s, all, done, pcs, done', pcs', r, j, t);
    }
  }

  lemma UpperWaits(f: Flow, s: seq<Entry>, all: set<nat>, done: set<nat>, pcs: seq<Pc>, done': set<nat>, pcs': seq<Pc>,
                   cs: seq<Pc>, k: nat)
    requires FlowOk(f) && Takes(f, s, all, done, pcs, done', pcs') && AllWait(f, s, done, pcs)
    requires forall i :: 0 <= i < |s| ==> s[i].mask <= all
    requires GroupsAbove(cs, Live(s, done'), pcs', s[|s| - 1]) && k < |cs| && s[|s| - 1].rpc != NULL_PC
    ensures EntryWaits(f, Replaced(s, Live(s, done'), pcs', cs), |s| - 1 + k, done', pcs')
  {
    hide Waits, OwnerWaits, Gone, Takes, FlowOk, AllWait, GroupsAbove;
    GroupWaits(f, s, all, done, pcs, done', pcs', cs, k);
    forall t | t in Class(Live(s, done'), pcs', cs[k])
      ensures OwnerWaits(f, Replaced(s, Live(s, done'), pcs', cs), |s| - 1 + k, t, done', pcs')
    {
      GroupOwner(f, s, all, done, pcs, done', pcs', cs, k, t);
    }
  }

  lemma GroupWaits(f: Flow, s: seq<Entry>, all: set<nat>, done: set<nat>, pcs: seq<Pc>, done': set<nat>, pcs': seq<Pc>,
                   cs: seq<Pc>, k: nat)
    requires FlowOk(f) && Takes(f, s, all, done, pcs, done', pcs') && AllWait(f, s, done, pcs)
    requires GroupsAbove(cs, Live(s, done'), pcs', s[|s| - 1]) && k < |cs| && s[|s| - 1].rpc != NULL_PC
    ensures Waits(f, Replaced(s, Live(s, done'), pcs', cs)[|s| - 1 + k])
    ensures s[|s| - 1].rpc == f.ret ==> (Gone(f, s[|s| - 1].pc) <==> Gone(f, cs[k]))
  {
    hide Gone, Waits;
    var n, live := |s| - 1, Live(s, done');
    assert cs[k] in cs;
    var t :| t in Class(live, pcs', cs[k]);
    WaitsStep(f, s[n], cs[k], Class(live, pcs', cs[k]));
  }

  lemma GroupOwner(f: Flow, s: seq<Entry>, all: set<nat>, done: set<nat>, pcs: seq<Pc>, done': set<nat>, pcs': seq<Pc>,
                   cs: seq<Pc>, k: nat, t: nat)
    requires FlowOk(f) && Takes(f, s, all, done, pcs, done', pcs') && AllWait(f, s, done, pcs)
    requires forall i :: 0 <= i < |s| ==> s[i].mask <= all
    requires GroupsAbove(cs, Live(s, done'), pcs', s[|s| - 1]) && k < |cs| && s[|s| - 1].rpc != NULL_PC
    requires t in Class(Live(s, done'), pcs', cs[k])
    ensures OwnerWaits(f, Replaced(s, Live(s, done'), pcs', cs), |s| - 1 + k, t, done', pcs')
  {
    var n, live := |s| - 1, Live(s, done');
    GroupWaits(f, s, all, done, pcs, done', pcs', cs, k);
    assert OwnerWaits(f, s, n, t, done, pcs);
    NotInEarlier(s, live, pcs', cs, k, t);
    hide Gone, Waits, FlowOk, Takes, GroupsAbove, AllWait, OwnerWaits;
    OwnerCarries(f, s, all, done, pcs, done', pcs', Replaced(s, live, pcs', cs), n, n + k, t);
  }


  lemma NotInEarlier(s: seq<Entry>, live: set<nat>, pcs': seq<Pc>, cs: seq<Pc>, k: nat, t: nat)
    requires s != [] && Distinct(cs) && k < |cs| && t in Class(live, pcs', cs[k])
    ensures forall m :: |s| - 1 <= m < |s| - 1 + k ==> t !in Replaced(s, live, pcs', cs)[m].mask
  {
    var n, r := |s| - 1, Replaced(s, live, pcs', cs);
    forall m | n <= m < n + k ensures t !in r[m].mask {
      assert cs[m - n] != cs[k];
    }
  }


  lemma ReplacedApart(s: seq<Entry>, live: set<nat>, pcs': seq<Pc>, cs: seq<Pc>)
    requires s != [] && RootsApart(s) && live <= s[|s| - 1].mask && Distinct(cs)
    ensures RootsApart(Replaced(s, live, pcs', cs))
  {
    var n, r := |s| - 1, Replaced(s, live, pcs', cs);
    forall i, j | 0 <= i < j < |r| && r[j].rpc == NULL_PC ensures r[i].mask !! r[j].mask {
      if j >= n {
        if i < n {
          assert s[i].mask !! s[n].mask;
        } else {
          assert cs[i - n] != cs[j - n];
        }
      }
    }
  }

  lemma ReplacedDead(f: Flow, s: seq<Entry>, all: set<nat>, done: set<nat>, pcs: seq<Pc>, done': set<nat>,
                     pcs': seq<Pc>, cs: seq<Pc>)
    requires FlowOk(f) && Takes(f, s, all, done, pcs, done', pcs') && AllWait(f, s, done, pcs)
    requires forall i :: 0 <= i < |s| ==> s[i].mask <= all
    requires RootsApart(s) && DeadParked(f, s, done, pcs)
    ensures DeadParked(f, Replaced(s, Live(s, done'), pcs', cs), done', pcs')
    ensures !Leaving(f, s[|s| - 1]) && (forall i :: 0 <= i < |s| ==> s[i].mask !! done) ==>
      forall i :: 0 <= i < |s| - 1 + |cs| ==> Replaced(s, Live(s, done'), pcs', cs)[i].mask !! done'
  {
    hide Parked, Leaving, FlowOk, AllWait, RootsApart;
    var n, r := |s| - 1, Replaced(s, Live(s, done'), pcs', cs);
    forall i, t | 0 <= i < |r| && t in r[i].mask && t in done'
      ensures Parked(f, r[i], done', pcs') && (t in done || Leaving(f, s[n]))
    {
      assert i < n;
      if t !in done {
        NewlyDead(f, s, all, done, pcs, done', pcs', i, t);
      }
      ParkedStays(f, s, all, done, pcs, done', pcs', s[i]);
    }
  }

  lemma ScatteredStays(f: Flow, s: seq<Entry>, all: set<nat>, done: set<nat>, pcs: seq<Pc>, done': set<nat>,
                       pcs': seq<Pc>, cs: seq<Pc>)
    requires FlowOk(f) && Takes(f, s, all, done, pcs, done', pcs') && AllWait(f, s, done, pcs)
    requires forall i :: 0 <= i < |s| ==> s[i].mask <= all
    requires RootsApart(s) && DeadParked(f, s, done, pcs) && Scattered(f, s, all, done, pcs)
    requires GroupsAbove(cs, Live(s, done'), pcs', s[|s| - 1])
    ensures Scattered(f, Replaced(s, Live(s, done'), pcs', cs), all, done', pcs')
  {
    var n, r := |s| - 1, Replaced(s, Live(s, done'), pcs', cs);
    assert !Leaving(f, s[n]);
    ReplacedDead(f, s, all, done, pcs, done', pcs', cs);
    hide Late, Gone, DeadParked, RootsApart;
    forall i | 0 <= i < |r| ensures !Leaving(f, r[i]) {
      if i < n {
        assert !Leaving(f, s[i]);
      } else if r[i].rpc != NULL_PC {
        GroupWaits(f, s, all, done, pcs, done', pcs', cs, i - n);
      }
    }
    hide AllWait, FlowOk, Leaving;
    forall t | t in all && t !in done' ensures Late(f, pcs'[t]) {
      LateStays(f, s, all, done, pcs, done', pcs', t);
    }
  }

  lemma FirstScatter(f: Flow, start: Pc, s: seq<Entry>, all: set<nat>, done: set<nat>, pcs: seq<Pc>, done': set<nat>,
                     pcs': seq<Pc>, cs: seq<Pc>)
    requires FlowOk(f) && NoneAfter(f, start) && FlowInv(f, start, s, all, done, pcs)
    requires Takes(f, s, all, done, pcs, done', pcs')
    requires !ManyRoots(s) && ManyRoots(Replaced(s, Live(s, done'), pcs', cs))
    requires s[|s| - 1].rpc == NULL_PC && |cs| >= 2 ==> Untabled(f, s[|s| - 1].pc)
    ensures Scattered(f, Replaced(s, Live(s, done'), pcs', cs), all, done', pcs')
  {
    var n, r := |s| - 1, Replaced(s, Live(s, done'), pcs', cs);
    var j :| 0 < j < |r| && r[j].rpc == NULL_PC;
    assert s[n].rpc == NULL_PC && n == 0;
    var top := s[0];
    assert Untabled(f, top.pc);
    hide AllWait, DeadParked, Untabled, Leads, ExitSplit;
    forall t | t in all && t !in done' ensures Late(f, pcs'[t]) {
      assert Owner(s, t) == 0;
      forall b: Pc | ExitSplit(f, b) ensures !Leads(f.g, pcs'[t], b) {
        assert Leads(f.g, start, pcs[t]) && f.g.edge(top.pc, pcs'[t]);
      }
    }
  }

  lemma ReplaceKeepsFlow(f: Flow, start: Pc, s: seq<Entry>, all: set<nat>, done: set<nat>, pcs: seq<Pc>,
                         done': set<nat>, pcs': seq<Pc>, cs: seq<Pc>)
    requires FlowOk(f) && NoneAfter(f, start) && FlowInv(f, start, s, all, done, pcs)
    requires Takes(f, s, all, done, pcs, done', pcs')
    requires GroupsAbove(cs, Live(s, done'), pcs', s[|s| - 1])
    requires s[|s| - 1].rpc == NULL_PC && |cs| >= 2 ==> Untabled(f, s[|s| - 1].pc)
    requires Inv(Replaced(s, Live(s, done'), pcs', cs), all, done', pcs')
    ensures FlowInv(f, start, Replaced(s, Live(s, done'), pcs', cs), all, done', pcs')
  {
    var r := Replaced(s, Live(s, done'), pcs', cs);
    CourseStays(f, start, s, all, done, pcs, done', pcs');
    ReplacedWait(f, s, all, done, pcs, done', pcs', cs);
    ReplacedApart(s, Live(s, done'), pcs', cs);
    ReplacedDead(f, s, all, done, pcs, done', pcs', cs);
    if ManyRoots(s) {
      ScatteredStays(f, s, all, done, pcs, done', pcs', cs);
    } else if ManyRoots(r) {
      FirstScatter(f, start, s, all, done, pcs, done', pcs', cs);
    }
    hide AllWait, RootsApart, DeadParked, OnCourse, Scattered, ManyRoots;
  }

  // The top entry stays below its groups, at their point.

  /** The top entry splits at a branch of the table. */
  ghost predicate AtBranch(f: Flow, start: Pc, b: Pc, x: int) {
    FlowOk(f) && Clean(f, start) && Leads(f.g, start, b) && ReachesExit(f.g, b) && Tabled(f, b) && IsPoint(f, b, x)
  }

  /** Every group waits for the point, and for the exit exactly when that is the point. */
  lemma ChildWaits(f: Flow, start: Pc, b: Pc, x: int, c: Pc, lanes: set<nat>)
    requires AtBranch(f, start, b, x) && f.g.edge(b, c) && c != f.point(b)
    ensures Waits(f, Entry(c, lanes, f.point(b), Normal))
    ensures f.point(b) == f.ret && Gone(f, c) <==> x == f.g.exit
  {
    hide NoneAfter, Leads, LeadsAvoiding, Splits;
    assert ReachesExit(f.g, c);
    forall i: Pc | Untabled(f, i) ensures !LeadsAvoiding(f.g, c, i, f.point(b)) {
    }
    assert x == f.g.exit ==> Gone(f, c);
    if x != f.g.exit {
      hide NoneInside, NoWayBack;
      SuccessorPostDominated(f.g, x, b, c);
      if x == f.ret {
        NotGone(f, c);
      }
    }
  }

  /** Inside an outer region the new point comes before the outer one. */
  lemma ParentWaits(f: Flow, start: Pc, e: Entry, x: int)
    requires AtBranch(f, start, e.pc, x) && Waits(f, e) && f.point(e.pc) != e.rpc
    ensures x != f.g.exit && Waits(f, e.(pc := f.point(e.pc)))
    ensures e.rpc == f.ret ==> (Gone(f, e.pc) <==> Gone(f, f.point(e.pc)))
  {
    hide Clean, Splits;
    if PostDominates(f.g, e.rpc, e.pc) {
      InnerPoint(f, e, x);
    } else {
      if x == f.g.exit {
        assert false;
      }
      LeavingPoint(f, e, x);
    }
  }

  lemma InnerPoint(f: Flow, e: Entry, x: int)
    requires FlowOk(f) && IsPoint(f, e.pc, x) && Waits(f, e) && f.point(e.pc) != e.rpc
    requires PostDominates(f.g, e.rpc, e.pc)
    ensures x != f.g.exit && x != e.rpc && PostDominates(f.g, e.rpc, x) && ReachesExit(f.g, x) && Sheltered(f, x, e.rpc)
    ensures e.rpc == f.ret ==> !Gone(f, e.pc) && !Gone(f, x)
  {
    hide LeadsAvoiding, Untabled, FlowOk;
    assert PostDominates(f.g, e.rpc, x);
    assert f.g.exit < 0 by {
      ExitNegative(f);
    }
    if x == f.g.exit {
      ExitPostDominated(f.g, e.rpc);
      assert false;
    }
    PostDominatorReaches(f.g, x, e.pc);
    ImmediateFirst(f.g, x, e.rpc, e.pc);
    hide PostDominates, ReachesExit;
    ShelteredOn(f, e.pc, x, e.rpc);
    if e.rpc == f.ret {
      NotGone(f, e.pc);
      NotGone(f, x);
    }
  }

  lemma ExitNegative(f: Flow)
    requires FlowOk(f)
    ensures f.g.exit < 0
  {
  }

  lemma ShelteredOn(f: Flow, a: int, c: int, r: int)
    requires Sheltered(f, a, r) && LeadsAvoiding(f.g, a, c, r)
    ensures Sheltered(f, c, r)
  {
    forall i: Pc | Untabled(f, i) ensures !LeadsAvoiding(f.g, c, i, r) {
      if LeadsAvoiding(f.g, c, i, r) {
        AvoidingJoin(f.g, a, c, i, r);
      }
    }
  }

  /** On the way to the exit, past every way back to the return address. */
  lemma LeavingPoint(f: Flow, e: Entry, x: int)
    requires FlowOk(f) && IsPoint(f, e.pc, x) && Waits(f, e) && e.rpc == f.ret && Gone(f, e.pc) && x != f.g.exit
    ensures x != e.rpc && Gone(f, x) && ReachesExit(f.g, x) && Sheltered(f, x, e.rpc)
  {
    hide LeadsAvoiding, Untabled, Leads;
    LeadsToPostDominator(f.g, x, e.pc);
    PostDominatorReaches(f.g, x, e.pc);
    hide PostDominates, ReachesExit;
    if Leads(f.g, x, f.ret) {
      LeadsJoin(f.g, e.pc, x, f.ret);
    }
    AvoidsUnreachable(f.g, e.pc, x, f.ret);
    ShelteredOn(f, e.pc, x, f.ret);
    LeadsSelf(f.g, x);
  }

  lemma ParentWait(f: Flow, start: Pc, s: seq<Entry>, all: set<nat>, done: set<nat>, pcs: seq<Pc>, done': set<nat>,
                   pcs': seq<Pc>,
                   cs: seq<Pc>, x: int)
    requires s != [] && AtBranch(f, start, s[|s| - 1].pc, x) && f.point(s[|s| - 1].pc) != s[|s| - 1].rpc
    requires Takes(f, s, all, done, pcs, done', pcs') && AllWait(f, s, done, pcs)
    requires forall i :: 0 <= i < |s| ==> s[i].mask <= all
    requires GroupsOver(cs, Live(s, done'), pcs', f.point(s[|s| - 1].pc))
    ensures AllWait(f, OverParent(s, Live(s, done'), pcs', cs, f.point(s[|s| - 1].pc)), done', pcs')
  {
    var n, r := |s| - 1, OverParent(s, Live(s, done'), pcs', cs, f.point(s[|s| - 1].pc));
    hide AtBranch, FlowOk, Takes, GroupsOver, EntryWaits;
    forall j | 0 <= j < |r| ensures r[j].kind.Normal? && (r[j].rpc != NULL_PC ==> EntryWaits(f, r, j, done', pcs')) {
      if j < n {
        if r[j].rpc != NULL_PC {
          LowerWaits(f, s, all, done, pcs, done', pcs', r, j);
        }
      } else if j == n {
        if r[j].rpc != NULL_PC {
          PointWaits(f, start, s, all, done, pcs, done', pcs', r, x);
        }
      } else {
        SplitWaits(f, start, s, all, done, pcs, done', pcs', cs, x, j - n - 1);
      }
    }
    FromEntries(f, r, done', pcs');
  }

  /** The old top entry waits on, at the point. */
  lemma PointWaits(f: Flow, start: Pc, s: seq<Entry>, all: set<nat>, done: set<nat>, pcs: seq<Pc>, done': set<nat>,
                   pcs': seq<Pc>,
                   r: seq<Entry>, x: int)
    requires s != [] && AtBranch(f, start, s[|s| - 1].pc, x) && f.point(s[|s| - 1].pc) != s[|s| - 1].rpc
    requires Takes(f, s, all, done, pcs, done', pcs') && AllWait(f, s, done, pcs)
    requires forall i :: 0 <= i < |s| ==> s[i].mask <= all
    requires |r| >= |s| && (forall k :: 0 <= k < |s| - 1 ==> r[k] == s[k])
    requires r[|s| - 1] == s[|s| - 1].(pc := f.point(s[|s| - 1].pc))
    requires s[|s| - 1].rpc != NULL_PC
    ensures EntryWaits(f, r, |s| - 1, done', pcs')
  {
    var n := |s| - 1;
    hide Waits, OwnerWaits, Gone, Takes, AtBranch;
    ParentWaits(f, start, s[n], x);
    forall t | t in r[n].mask ensures OwnerWaits(f, r, n, t, done', pcs') {
      LowerStays(f, s, all, done, pcs, done', pcs', r, n, t);
    }
  }

  /** So do the groups above it. */
  lemma SplitWaits(f: Flow, start: Pc, s: seq<Entry>, all: set<nat>, done: set<nat>, pcs: seq<Pc>, done': set<nat>,
                   pcs': seq<Pc>,
                   cs: seq<Pc>, x: int, k: nat)
    requires s != [] && AtBranch(f, start, s[|s| - 1].pc, x) && f.point(s[|s| - 1].pc) != s[|s| - 1].rpc
    requires Takes(f, s, all, done, pcs, done', pcs') && AllWait(f, s, done, pcs)
    requires forall i :: 0 <= i < |s| ==> s[i].mask <= all
    requires GroupsOver(cs, Live(s, done'), pcs', f.point(s[|s| - 1].pc)) && k < |cs|
    ensures EntryWaits(f, OverParent(s, Live(s, done'), pcs', cs, f.point(s[|s| - 1].pc)), |s| + k, done', pcs')
  {
    hide Waits, OwnerWaits, Gone, Takes, AtBranch, AllWait, GroupsOver;
    OverWaits(f, start, s, all, done, pcs, done', pcs', cs, x, k);
    forall t | t in Class(Live(s, done'), pcs', cs[k])
      ensures OwnerWaits(f, OverParent(s, Live(s, done'), pcs', cs, f.point(s[|s| - 1].pc)), |s| + k, t, done', pcs')
    {
      OverOwner(f, start, s, all, done, pcs, done', pcs', cs, x, k, t);
    }
  }

  lemma OverWaits(f: Flow, start: Pc, s: seq<Entry>, all: set<nat>, done: set<nat>, pcs: seq<Pc>, done': set<nat>,
                  pcs': seq<Pc>,
                  cs: seq<Pc>, x: int, k: nat)
    requires s != [] && AtBranch(f, start, s[|s| - 1].pc, x) && Takes(f, s, all, done, pcs, done', pcs')
    requires GroupsOver(cs, Live(s, done'), pcs', f.point(s[|s| - 1].pc)) && k < |cs|
    ensures Waits(f, OverParent(s, Live(s, done'), pcs', cs, f.point(s[|s| - 1].pc))[|s| + k])
    ensures Leaving(f, OverParent(s, Live(s, done'), pcs', cs, f.point(s[|s| - 1].pc))[|s| + k]) <==> x == f.g.exit
  {
    hide Gone, Waits, Clean, Leads, IsPoint;
    var live, b := Live(s, done'), s[|s| - 1].pc;
    assert cs[k] in cs;
    var t :| t in Class(live, pcs', cs[k]);
    ChildWaits(f, start, b, x, cs[k], Class(live, pcs', cs[k]));
  }

  lemma OverOwner(f: Flow, start: Pc, s: seq<Entry>, all: set<nat>, done: set<nat>, pcs: seq<Pc>, done': set<nat>,
                  pcs': seq<Pc>,
                  cs: seq<Pc>, x: int, k: nat, t: nat)
    requires s != [] && AtBranch(f, start, s[|s| - 1].pc, x) && Takes(f, s, all, done, pcs, done', pcs')
    requires AllWait(f, s, done, pcs)
    requires f.point(s[|s| - 1].pc) != s[|s| - 1].rpc
    requires GroupsOver(cs, Live(s, done'), pcs', f.point(s[|s| - 1].pc)) && k < |cs|
    requires t in Class(Live(s, done'), pcs', cs[k])
    ensures OwnerWaits(f, OverParent(s, Live(s, done'), pcs', cs, f.point(s[|s| - 1].pc)), |s| + k, t, done', pcs')
  {
    var n, live, v := |s| - 1, Live(s, done'), f.point(s[|s| - 1].pc);
    var r := OverParent(s, live, pcs', cs, v);
    OverWaits(f, start, s, all, done, pcs, done', pcs', cs, x, k);
    forall m | n < m < n + 1 + k ensures t !in r[m].mask {
      assert cs[m - n - 1] != cs[k];
    }
    OwnerIs(r, |s| + k, t, n);
    if x == f.g.exit {
      ParentParked(f, start, s, all, done, pcs, done', pcs');
    }
  }

  /** The old top entry stands for the exit from now on. */
  lemma ParentParked(f: Flow, start: Pc, s: seq<Entry>, all: set<nat>, done: set<nat>, pcs: seq<Pc>, done': set<nat>,
                     pcs': seq<Pc>)
    requires s != [] && AtBranch(f, start, s[|s| - 1].pc, f.g.exit) && Takes(f, s, all, done, pcs, done', pcs')
    requires AllWait(f, s, done, pcs)
    requires f.point(s[|s| - 1].pc) != s[|s| - 1].rpc
    ensures Parked(f, s[|s| - 1].(pc := f.point(s[|s| - 1].pc)), done', pcs')
  {
    hide Leads, NoneInside, NoneAfter;
    var top := s[|s| - 1];
    if top.rpc != NULL_PC {
      ParentWaits(f, start, top, f.g.exit);
    }
    forall t | t in top.mask && t !in done' ensures t < |pcs'| && Gone(f, pcs'[t]) {
      assert f.g.edge(top.pc, pcs'[t]);
    }
  }

  lemma NobodyDies(f: Flow, s: seq<Entry>, all: set<nat>, done: set<nat>, pcs: seq<Pc>, done': set<nat>, pcs': seq<Pc>)
    requires FlowOk(f) && Takes(f, s, all, done, pcs, done', pcs') && f.point(s[|s| - 1].pc) != NULL_PC
    ensures done' == done
  {
    assert !f.g.edge(s[|s| - 1].pc, f.g.exit);
  }

  lemma ParentDead(f: Flow, s: seq<Entry>, all: set<nat>, done: set<nat>, pcs: seq<Pc>, pcs': seq<Pc>, cs: seq<Pc>,
                   v: Pc)
    requires Takes(f, s, all, done, pcs, done, pcs') && DeadParked(f, s, done, pcs)
    requires forall i :: 0 <= i < |s| ==> s[i].mask <= all
    ensures DeadParked(f, OverParent(s, Live(s, done), pcs', cs, v), done, pcs')
  {
    hide Parked;
    var n, r := |s| - 1, OverParent(s, Live(s, done), pcs', cs, v);
    forall i, t | 0 <= i < |r| && t in r[i].mask && t in done ensures Parked(f, r[i], done, pcs') {
      assert i < n;
      ParkedStays(f, s, all, done, pcs, done, pcs', s[i]);
    }
  }

  lemma ParentScattered(f: Flow, start: Pc, s: seq<Entry>, all: set<nat>, done: set<nat>, pcs: seq<Pc>, pcs': seq<Pc>,
                        cs: seq<Pc>, x: int)
    requires s != [] && AtBranch(f, start, s[|s| - 1].pc, x) && f.point(s[|s| - 1].pc) != s[|s| - 1].rpc
    requires Takes(f, s, all, done, pcs, done, pcs') && AllWait(f, s, done, pcs) && Scattered(f, s, all, done, pcs)
    requires GroupsOver(cs, Live(s, done), pcs', f.point(s[|s| - 1].pc))
    ensures Scattered(f, OverParent(s, Live(s, done), pcs', cs, f.point(s[|s| - 1].pc)), all, done, pcs')
  {
    hide Gone, Waits, Clean, Leads, IsPoint, Splits;
    var n, b, v := |s| - 1, s[|s| - 1].pc, f.point(s[|s| - 1].pc);
    var r := OverParent(s, Live(s, done), pcs', cs, v);
    assert x != f.g.exit by {
      NotLateAtExitSplit(f, b, x);
      var t :| t in s[n].mask;
      assert pcs[t] == b;
    }
    forall i | 0 <= i < |r| ensures !Leaving(f, r[i]) {
      if i < n {
        assert !Leaving(f, s[i]);
      } else if i == n {
        if s[n].rpc != NULL_PC {
          ParentWaits(f, start, s[n], x);
          assert !Leaving(f, s[n]);
        }
      } else {
        OverWaits(f, start, s, all, done, pcs, done, pcs', cs, x, i - n - 1);
      }
    }
    hide Leaving, Late, AllWait, FlowOk;
    forall t | t in all && t !in done ensures Late(f, pcs'[t]) {
      LateStays(f, s, all, done, pcs, done, pcs', t);
    }
  }

  lemma NotLateAtExitSplit(f: Flow, b: Pc, x: int)
    requires Tabled(f, b) && IsPoint(f, b, x)
    ensures x == f.g.exit ==> !Late(f, b)
  {
    LeadsSelf(f.g, b);
    assert x == f.g.exit ==> ExitSplit(f, b);
  }

  lemma ParentKeepsFlow(f: Flow, start: Pc, s: seq<Entry>, all: set<nat>, done: set<nat>, pcs: seq<Pc>,
                        done': set<nat>, pcs': seq<Pc>,
                        cs: seq<Pc>, x: int)
    requires FlowInv(f, start, s, all, done, pcs) && Takes(f, s, all, done, pcs, done', pcs')
    requires AtBranch(f, start, s[|s| - 1].pc, x) && f.point(s[|s| - 1].pc) != s[|s| - 1].rpc
    requires GroupsOver(cs, Live(s, done'), pcs', f.point(s[|s| - 1].pc))
    requires Inv(OverParent(s, Live(s, done'), pcs', cs, f.point(s[|s| - 1].pc)), all, done', pcs')
    ensures FlowInv(f, start, OverParent(s, Live(s, done'), pcs', cs, f.point(s[|s| - 1].pc)), all, done', pcs')
  {
    var v := f.point(s[|s| - 1].pc);
    var r := OverParent(s, Live(s, done'), pcs', cs, v);
    NobodyDies(f, s, all, done, pcs, done', pcs');
    hide IsPoint, Clean, Tabled, FlowOk, AllWait, DeadParked, OnCourse, Scattered;
    CourseStays(f, start, s, all, done, pcs, done', pcs');
    ParentWait(f, start, s, all, done, pcs, done', pcs', cs, x);
    ParentDead(f, s, all, done, pcs, pcs', cs, v);
    if ManyRoots(s) {
      ParentScattered(f, start, s, all, done, pcs, pcs', cs, x);
    }
    ParentRoots(s, Live(s, done'), pcs', cs, v);
    hide ManyRoots, RootsApart, Takes;
  }

  lemma ParentRoots(s: seq<Entry>, live: set<nat>, pcs': seq<Pc>, cs: seq<Pc>, v: Pc)
    requires s != [] && RootsApart(s) && v != NULL_PC
    ensures var r := OverParent(s, live, pcs', cs, v); RootsApart(r) && (ManyRoots(r) ==> ManyRoots(s))
  {
    var r := OverParent(s, live, pcs', cs, v);
    forall i, j | 0 <= i < j < |r| && r[j].rpc == NULL_PC ensures r[i].mask !! r[j].mask {
      assert s[i].mask !! s[j].mask;
    }
    if ManyRoots(r) {
      var j :| 0 < j < |r| && r[j].rpc == NULL_PC;
      assert s[j].rpc == NULL_PC;
    }
  }

  // ---------------------------------------------------------------------------------
  // The whole update

  /** A warp that diverges splits. */
  lemma DivergesApart(f: Flow, s: seq<Entry>, all: set<nat>, done: set<nat>, pcs: seq<Pc>, done': set<nat>,
                      pcs': seq<Pc>)
    requires FlowOk(f) && Takes(f, s, all, done, pcs, done', pcs') && Live(s, done') != {}
    requires Diverges(s[|s| - 1], Groups(Live(s, done'), pcs'))
    ensures Splits(f, s[|s| - 1].pc)
  {
    var live := Live(s, done');
    var groups := Groups(live, pcs');
    GroupsPartition(live, pcs');
    WithoutMembers(groups, s[|s| - 1].rpc);
    var c, d := Kept(s[|s| - 1], groups)[0], groups[|groups| - 1];
    assert c in groups && d in groups;
    var t :| t in Class(live, pcs', c);
    var u :| u in Class(live, pcs', d);
    assert f.g.edge(s[|s| - 1].pc, c) && f.g.edge(s[|s| - 1].pc, d);
  }

  /** Inside a region every split has a point. */
  lemma ShelteredSplit(f: Flow, e: Entry)
    requires Waits(f, e) && Splits(f, e.pc)
    ensures Tabled(f, e.pc)
  {
    LeadsSelf(f.g, e.pc);
    assert f.point(e.pc) == NULL_PC ==> Untabled(f, e.pc);
  }

  /** A lane that goes straight from a branch to the outer point has the branch reconverge
      there. */
  lemma StraightToPoint(f: Flow, e: Entry, x: int, c: Pc)
    requires FlowOk(f) && Waits(f, e) && IsPoint(f, e.pc, x) && f.g.edge(e.pc, c) && c == e.rpc
    ensures f.point(e.pc) == e.rpc
  {
    hide Sheltered;
    if PostDominates(f.g, e.rpc, e.pc) {
      BranchToPostDominator(f.g, e.rpc, x, e.pc);
    } else {
      EdgeLeads(f.g, e.pc, c);
    }
  }

  lemma TableKeepsLanes(f: Flow, s: seq<Entry>, all: set<nat>, done: set<nat>, pcs: seq<Pc>, done': set<nat>,
                        pcs': seq<Pc>, op: Op)
    requires FlowOk(f) && Takes(f, s, all, done, pcs, done', pcs') && AllWait(f, s, done, pcs) && !op.CallOp?
    ensures Legal(s, done', pcs', op) && !IsSpecial(s, op) && KeepsLanes(s, done', pcs', f.point(s[|s| - 1].pc), op)
  {
    hide Diverges, Sheltered, Gone, Splits, Parked;
    var top, live := s[|s| - 1], Live(s, done');
    assert forall l :: l in live ==> l in all;
    if live != {} && f.point(top.pc) != top.rpc && Diverges(top, Groups(live, pcs')) {
      DivergesApart(f, s, all, done, pcs, done', pcs');
      forall t | t in live ensures pcs'[t] != top.rpc {
        if pcs'[t] == top.rpc {
          ShelteredSplit(f, top);
          var x :| IsPoint(f, top.pc, x);
          StraightToPoint(f, top, x, pcs'[t]);
        }
      }
    }
  }

  /** A step of the warp keeps the invariant. */
  lemma UpdateKeepsFlow(f: Flow, start: Pc, s: seq<Entry>, all: set<nat>, done: set<nat>, pcs: seq<Pc>,
                        done': set<nat>, pcs': seq<Pc>, op: Op)
    requires FlowOk(f) && Clean(f, start) && FlowInv(f, start, s, all, done, pcs)
    requires Takes(f, s, all, done, pcs, done', pcs')
    requires Legal(s, done', pcs', op) && !IsSpecial(s, op)
    requires Inv(Updated(s, done', pcs', f.point(s[|s| - 1].pc), op), all, done', pcs')
    requires KeepsLanes(s, done', pcs', f.point(s[|s| - 1].pc), op)
    ensures FlowInv(f, start, Updated(s, done', pcs', f.point(s[|s| - 1].pc), op), all, done', pcs')
  {
    var top, live, v := s[|s| - 1], Live(s, done'), f.point(s[|s| - 1].pc);
    hide FlowInv, Takes, Waits;
    TakesSome(f, start, s, all, done, pcs, done', pcs');
    if live == {} {
      assert Updated(s, done', pcs', v, op) == Replaced(s, live, pcs', []);
      ReplaceKeepsFlow(f, start, s, all, done, pcs, done', pcs', []);
    } else {
      var groups, cs := Groups(live, pcs'), SplitGroups(s, live, pcs', v);
      SplitShape(s, live, pcs', v);
      if Diverges(top, groups) && v != top.rpc {
        DivergesApart(f, s, all, done, pcs, done', pcs');
        var x := PointOfSplit(f, start, s, all, done, pcs, done', pcs');
        assert Updated(s, done', pcs', v, op) == OverParent(s, live, pcs', cs, v);
        ParentKeepsFlow(f, start, s, all, done, pcs, done', pcs', cs, x);
      } else {
        OneGroupAtRoot(f, s, all, done, pcs, done', pcs');
        assert Updated(s, done', pcs', v, op) == Replaced(s, live, pcs', cs);
        ReplaceKeepsFlow(f, start, s, all, done, pcs, done', pcs', cs);
      }
    }
  }

  lemma TakesSome(f: Flow, start: Pc, s: seq<Entry>, all: set<nat>, done: set<nat>, pcs: seq<Pc>, done': set<nat>,
                  pcs': seq<Pc>)
    requires FlowInv(f, start, s, all, done, pcs) && Takes(f, s, all, done, pcs, done', pcs')
    ensures s != [] && s[|s| - 1].kind.Normal? && LanesBelow(Live(s, done'), |pcs'|)
    ensures forall t :: t in Live(s, done') ==> pcs'[t] != NULL_PC
  {
  }

  /** A split that gets a new entry has a point of the table. */
  lemma PointOfSplit(f: Flow, start: Pc, s: seq<Entry>, all: set<nat>, done: set<nat>, pcs: seq<Pc>, done': set<nat>,
                     pcs': seq<Pc>)
    returns (x: int)
    requires FlowOk(f) && Clean(f, start) && FlowInv(f, start, s, all, done, pcs)
    requires Takes(f, s, all, done, pcs, done', pcs')
    requires Splits(f, s[|s| - 1].pc) && f.point(s[|s| - 1].pc) != s[|s| - 1].rpc
    ensures AtBranch(f, start, s[|s| - 1].pc, x)
  {
    var top := s[|s| - 1];
    hide Clean, Splits, Leads, ReachesExit;
    var t :| t in top.mask;
    assert t in all && t !in done && pcs[t] == top.pc;
    if top.rpc != NULL_PC {
      ShelteredSplit(f, top);
    }
    assert f.point(top.pc) != NULL_PC;
    x :| IsPoint(f, top.pc, x);
  }

  /** An entry that waits for nothing gives way to two groups only at a split without a point. */
  lemma OneGroupAtRoot(f: Flow, s: seq<Entry>, all: set<nat>, done: set<nat>, pcs: seq<Pc>, done': set<nat>,
                       pcs': seq<Pc>)
    requires FlowOk(f) && Takes(f, s, all, done, pcs, done', pcs') && Live(s, done') != {} && s[|s| - 1].kind.Normal?
    requires Diverges(s[|s| - 1], Groups(Live(s, done'), pcs')) ==> f.point(s[|s| - 1].pc) == s[|s| - 1].rpc
    ensures s[|s| - 1].rpc == NULL_PC && |SplitGroups(s, Live(s, done'), pcs', f.point(s[|s| - 1].pc))| >= 2 ==>
      Untabled(f, s[|s| - 1].pc)
  {
    var top, live := s[|s| - 1], Live(s, done');
    var groups := Groups(live, pcs');
    GroupsPartition(live, pcs');
    if Diverges(top, groups) {
      DivergesApart(f, s, all, done, pcs, done', pcs');
    } else if top.rpc == NULL_PC {
      assert NULL_PC !in groups by {
        assert Class(live, pcs', NULL_PC) == {};
      }
      WithoutAbsent(groups, NULL_PC);
    }
  }

  lemma {:induction false} WithoutAbsent(cs: seq<Pc>, x: Pc)
    requires x !in cs
    ensures Without(cs, x) == cs
  {
    if cs == [] {
    } else {
      assert cs == [cs[0]] + cs[1..];
      WithoutAbsent(cs[1..], x);
    }
  }

  // ---------------------------------------------------------------------------------
  // Whole runs

  ghost predicate MachineFlow<S>(f: Flow, start: Pc, m: Machine<S>, mask: set<nat>) {
    FlowInv(f, start, m.stack, mask, Done(m.threads), Pcs(m.threads))
  }

  /** A step takes the lanes of the top entry along edges. */
  lemma TakesFrom<S(!new)>(exec: Exec<S>, f: Flow, m: Machine<S>, input: Input, m': Machine<S>, mask: set<nat>)
    requires Follows(exec, f.g) && FlowStep(exec, f, m, input, m') && LanesBelow(mask, |m.threads|)
    requires m.stack[|m.stack| - 1].mask <= mask && IsInstruction(m.stack[|m.stack| - 1].pc)
    requires forall a: int, b: int :: f.g.edge(a, b) ==> b == f.g.exit || IsInstruction(b)
    ensures Takes(f, m.stack, mask, Done(m.threads), Pcs(m.threads), Done(m'.threads), Pcs(m'.threads))
  {
    hide Legal, Updated;
    var s, done, done', pcs, pcs' := m.stack, Done(m.threads), Done(m'.threads), Pcs(m.threads), Pcs(m'.threads);
    var top := s[|s| - 1];
    forall t | t in top.mask
      ensures t in mask && t !in done && pcs[t] == top.pc && exec(top.pc, t, m.threads[t], m'.threads[t])
      ensures if t in done' then f.g.edge(top.pc, f.g.exit) else f.g.edge(top.pc, pcs'[t]) && IsInstruction(pcs'[t])
    {
    }
    forall t | t in done ensures t in done' {
      assert t !in top.mask;
    }
    forall t | t in done' && t !in done ensures t in top.mask {
    }
  }

  lemma StepTakes<S(!new)>(exec: Exec<S>, f: Flow, start: Pc, m: Machine<S>, input: Input, m': Machine<S>,
                           mask: set<nat>)
    requires FlowOk(f) && Follows(exec, f.g) && MachineFlow(f, start, m, mask) && FlowStep(exec, f, m, input, m')
    ensures Takes(f, m.stack, mask, Done(m.threads), Pcs(m.threads), Done(m'.threads), Pcs(m'.threads))
  {
    LiveInstruction(f, start, m, mask);
    MaskBelow(f, start, m, mask);
    InvParts(m.stack, mask, Done(m.threads), Pcs(m.threads));
    hide FlowInv, Inv, Follows, Takes, WarpStep;
    TakesFrom(exec, f, m, input, m', mask);
  }

  lemma InvParts(s: seq<Entry>, all: set<nat>, done: set<nat>, pcs: seq<Pc>)
    ensures Inv(s, all, done, pcs) ==> forall i :: 0 <= i < |s| ==> s[i].mask <= all
  {
  }

  lemma LiveInstruction<S>(f: Flow, start: Pc, m: Machine<S>, mask: set<nat>)
    requires FlowOk(f) && MachineFlow(f, start, m, mask) && TopIsLive(m)
    ensures IsInstruction(m.stack[|m.stack| - 1].pc)
  {
    hide AllWait, RootsApart, DeadParked, Scattered, Laminar, Shaped, Reconverges, CallsCover;
    var top := m.stack[|m.stack| - 1];
    var t :| t in top.mask;
    assert t in mask && t !in Done(m.threads) && Pcs(m.threads)[t] == top.pc;
  }

  /** Every step of the warp is a legal lock-step that loses no lane, and keeps the invariant. */
  lemma FlowStepKeeps<S(!new)>(exec: Exec<S>, f: Flow, start: Pc, m: Machine<S>, input: Input, m': Machine<S>,
                               mask: set<nat>)
    requires FlowOk(f) && Clean(f, start) && Follows(exec, f.g) && MachineFlow(f, start, m, mask)
    requires FlowStep(exec, f, m, input, m')
    ensures LockStep(exec, m, input, m') && MachineFlow(f, start, m', mask)
  {
    var s, done, done', pcs, pcs' := m.stack, Done(m.threads), Done(m'.threads), Pcs(m.threads), Pcs(m'.threads);
    StepTakes(exec, f, start, m, input, m', mask);
    FlowParts(f, start, s, mask, done, pcs);
    hide FlowInv, Takes, AllWait, FlowOk, Clean, Follows, Inv, Legal, KeepsLanes, Updated;
    TableKeepsLanes(f, s, mask, done, pcs, done', pcs', input.op);
    StepIsLock(exec, m, input, m');
    LockStepKeeps(exec, m, input, m', mask);
    UpdateKeepsFlow(f, start, s, mask, done, pcs, done', pcs', input.op);
  }

  lemma FlowParts(f: Flow, start: Pc, s: seq<Entry>, all: set<nat>, done: set<nat>, pcs: seq<Pc>)
    requires FlowInv(f, start, s, all, done, pcs)
    ensures Inv(s, all, done, pcs) && AllWait(f, s, done, pcs)
  {
  }

  lemma StepIsLock<S>(exec: Exec<S>, m: Machine<S>, input: Input, m': Machine<S>)
    requires WarpStep(exec, m, input, m') && Legal(m.stack, Done(m'.threads), Pcs(m'.threads), input.op)
    requires KeepsLanes(m.stack, Done(m'.threads), Pcs(m'.threads), input.recvgPc, input.op)
    ensures LockStep(exec, m, input, m')
  {
    hide Legal, KeepsLanes, Updated;
    forall t | 0 <= t < |m.threads|
      ensures if Active(m, t) then exec(m.stack[|m.stack| - 1].pc, t, m.threads[t], m'.threads[t])
        else m'.threads[t] == m.threads[t]
    {
    }
  }

  lemma LaunchFlow<S>(f: Flow, start: Pc, m: Machine<S>, mask: set<nat>)
    requires FlowOk(f) && start != NULL_PC && ReachesExit(f.g, start)
    requires Launched(m, start, mask) && forall t :: t in mask ==> !m.threads[t].done
    ensures MachineFlow(f, start, m, mask)
  {
    StartFlow(f, start, mask, Done(m.threads), Pcs(m.threads));
    hide FlowInv;
  }

  /** Lanes that all start together. */
  lemma StartFlow(f: Flow, start: Pc, mask: set<nat>, done: set<nat>, pcs: seq<Pc>)
    requires start != NULL_PC && ReachesExit(f.g, start) && mask != {} && LanesBelow(mask, |pcs|)
    requires forall t :: t in mask ==> t !in done && pcs[t] == start
    ensures FlowInv(f, start, [Entry(start, mask, NULL_PC, Normal)], mask, done, pcs)
  {
    LaunchEstablishes(start, mask, done, pcs);
    LeadsSelf(f.g, start);
    hide Inv, ReachesExit, Leads;
  }

  lemma {:induction false} FlowRunKeeps<S(!new)>(exec: Exec<S>, f: Flow, start: Pc, mask: set<nat>,
                                                 ms: seq<Machine<S>>, inputs: seq<Input>, n: nat)
    requires FlowOk(f) && Clean(f, start) && start != NULL_PC && ReachesExit(f.g, start) && Follows(exec, f.g)
    requires FlowRun(exec, f, start, mask, ms, inputs) && n <= |inputs|
    ensures MachineFlow(f, start, ms[n], mask) && |ms[n].threads| == |ms[0].threads|
    ensures forall i :: 0 <= i < n ==> LockStep(exec, ms[i], inputs[i], ms[i + 1])
  {
    hide MachineFlow, LockStep, FlowStep, FlowOk, Clean, Follows, Launched, ReachesExit;
    if n == 0 {
      LaunchFlow(f, start, ms[0], mask);
    } else {
      FlowRunKeeps(exec, f, start, mask, ms, inputs, n - 1);
      assert FlowStep(exec, f, ms[n - 1], inputs[n - 1], ms[n]);
      FlowStepKeeps(exec, f, start, ms[n - 1], inputs[n - 1], ms[n], mask);
      SameThreads(exec, f, ms[n - 1], inputs[n - 1], ms[n]);
    }
  }

  lemma SameThreads<S>(exec: Exec<S>, f: Flow, m: Machine<S>, input: Input, m': Machine<S>)
    requires FlowStep(exec, f, m, input, m')
    ensures |m'.threads| == |m.threads|
  {
  }

  /** Every run of a clean kernel is a lock-step run; so by `LockStepRefinesScalar` its lanes
      run as independent threads. */
  lemma FlowRunIsRun<S(!new)>(exec: Exec<S>, f: Flow, start: Pc, mask: set<nat>, ms: seq<Machine<S>>,
                              inputs: seq<Input>)
    requires FlowOk(f) && Clean(f, start) && start != NULL_PC && ReachesExit(f.g, start) && Follows(exec, f.g)
    requires FlowRun(exec, f, start, mask, ms, inputs)
    ensures Run(exec, start, mask, ms, inputs)
  {
    FlowRunKeeps(exec, f, start, mask, ms, inputs, |inputs|);
  }

  /** The lanes of the top entry of a warp with a live lane are all alive, at its PC. */
  lemma TopLanes(f: Flow, start: Pc, s: seq<Entry>, all: set<nat>, done: set<nat>, pcs: seq<Pc>, u: nat)
    requires FlowInv(f, start, s, all, done, pcs) && u in all - done
    ensures s != [] && s[|s| - 1].mask != {}
    ensures forall t :: t in s[|s| - 1].mask ==> t in all - done && pcs[t] == s[|s| - 1].pc
  {
    assert Owner(s, u) >= 0;
    var n := |s| - 1;
    forall t | t in s[n].mask ensures t in all - done && pcs[t] == s[n].pc {
      if t in done {
        ParkedIsNotTop(f, start, s, all, done, pcs, t, u);
        assert false;
      }
      OwnerIs(s, n + 1, t, n);
    }
  }

  /** An entry that stands for the exit comes to the top only when no lane is left. */
  lemma ParkedIsNotTop(f: Flow, start: Pc, s: seq<Entry>, all: set<nat>, done: set<nat>, pcs: seq<Pc>, t: nat, u: nat)
    requires FlowInv(f, start, s, all, done, pcs) && u in all - done && s != []
    ensures !(t in s[|s| - 1].mask && t in done)
  {
    hide AllWait, Reconverges, CallsCover, Laminar, OnCourse, Gone;
    var n := |s| - 1;
    if t in s[n].mask && t in done {
      assert Parked(f, s[n], done, pcs);
      assert !ManyRoots(s) && n == 0;
      assert Owner(s, u) == 0 && u in s[0].mask && pcs[u] == f.ret;
      assert Gone(f, f.ret);
      SelfNotGone(f);
    }
  }

  lemma SelfNotGone(f: Flow)
    ensures !Gone(f, f.ret)
  {
    LeadsSelf(f.g, f.ret);
  }

  lemma TopLive<S>(f: Flow, start: Pc, m: Machine<S>, mask: set<nat>)
    requires MachineFlow(f, start, m, mask) && SomeLive(m, mask)
    ensures TopIsLive(m)
  {
    hide FlowInv;
    var u :| u in mask && u < |m.threads| && !m.threads[u].done;
    MaskBelow(f, start, m, mask);
    assert u in mask - Done(m.threads);
    TopLanes(f, start, m.stack, mask, Done(m.threads), Pcs(m.threads), u);
    var top := m.stack[|m.stack| - 1];
    forall t | t in top.mask ensures t < |m.threads| && !m.threads[t].done && m.threads[t].pc == top.pc {
      assert t in mask - Done(m.threads) && Pcs(m.threads)[t] == top.pc;
    }
  }

  /** In every run of a clean kernel, as long as a lane is left, the next instruction passes
      the assertions for all its lanes. */
  lemma CleanIsSafe<S(!new)>(exec: Exec<S>, f: Flow, start: Pc, mask: set<nat>, ms: seq<Machine<S>>,
                             inputs: seq<Input>, n: nat)
    requires FlowOk(f) && Clean(f, start) && start != NULL_PC && ReachesExit(f.g, start) && Follows(exec, f.g)
    requires FlowRun(exec, f, start, mask, ms, inputs) && n <= |inputs| && SomeLive(ms[n], mask)
    ensures TopIsLive(ms[n])
  {
    FlowRunKeeps(exec, f, start, mask, ms, inputs, n);
    TopLive(f, start, ms[n], mask);
  }

  lemma MaskBelow<S>(f: Flow, start: Pc, m: Machine<S>, mask: set<nat>)
    requires MachineFlow(f, start, m, mask)
    ensures LanesBelow(mask, |m.threads|)
  {
  }
}
