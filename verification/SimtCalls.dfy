/** Kernels with calls. A call puts a CALL entry on the stack, and the callee runs above it on
    its own part of the stack, its frame, which knows its own return address. Here: if the
    callees return as one, every frame runs as a kernel without calls does. */
module SimtCalls {
  import opened PostDominance
  import opened SimtStack
  import opened SimtSafety
  import opened SimtRuns
  import opened SimtFlow
  import opened SimtUpdates

  // ---------------------------------------------------------------------------------
  // Programs

  /** A function, by the PC where it starts, and the address it returns to. */
  datatype Frame = Frame(start: Pc, ret: Pc)

  /** Each function on its own, a call leading on to the next instruction, with the table as
      it is looked up for a lane that returns there; what each instruction is; where a call
      goes, and where its callee returns to. */
  datatype Program = Program(flow: (Pc, Pc) -> Flow, op: Pc -> Op, target: Pc -> Pc, next: Pc -> Pc)

  /** What a lane keeps: the functions it is in, and all else. */
  datatype Local<S> = Local(calls: seq<Frame>, data: S)

  ghost function FlowAt(p: Program, fr: Frame): Flow {
    p.flow(fr.start, fr.ret)
  }

  ghost function Callee(p: Program, c: Pc): Frame {
    Frame(p.target(c), p.next(c))
  }

  /** A call enters the callee, a return in a callee leaves it, and everything else stays in
      the function: along an edge, or ending at the exit. */
  ghost predicate LaneMoves<S>(p: Program, pc: Pc, th: Thread<Local<S>>, th': Thread<Local<S>>) {
    var calls := th.state.calls;
    calls != [] ==>
      var fr := calls[|calls| - 1];
      var g := FlowAt(p, fr).g;
      if p.op(pc).CallOp? then
        !th'.done && th'.pc == p.target(pc) && th'.state.calls == calls + [Callee(p, pc)]
      else if p.op(pc).RetOp? && |calls| > 1 && g.edge(pc, g.exit) then
        !th'.done && th'.pc == fr.ret && th'.state.calls == calls[..|calls| - 1]
      else
        && th'.state.calls == calls
        && if th'.done then g.edge(pc, g.exit) else th'.pc != g.exit && g.edge(pc, th'.pc)
  }

  ghost predicate Obeys<S(!new)>(p: Program, exec: Exec<Local<S>>) {
    forall pc: Pc, t, th, th' :: exec(pc, t, th, th') ==> LaneMoves(p, pc, th, th')
  }

  /** A function that can run: a call leads on to where its callee returns. */
  ghost predicate FunctionOk(p: Program, fr: Frame) {
    var f := FlowAt(p, fr);
    && FlowOk(f) && fr.start != NULL_PC && fr.ret != NULL_PC && ReachesExit(f.g, fr.start)
    && forall c: Pc :: Leads(f.g, fr.start, c) && p.op(c).CallOp? ==> f.g.edge(c, p.next(c))
  }

  /** A callee that returns as one: only branches split it, none waits for the return, and it
      ends only in returns, which are not predicated. */
  ghost predicate Tame(p: Program, fr: Frame) {
    var f := FlowAt(p, fr);
    forall pc: Pc :: Leads(f.g, fr.start, pc) ==>
      && !Untabled(f, pc) && !ExitSplit(f, pc) && (forall r: Pc :: p.flow(fr.start, r).point(pc) == f.point(pc))
      && (p.op(pc).RetOp? || f.g.edge(pc, f.g.exit) ==> p.op(pc).RetOp? && forall b :: f.g.edge(pc, b) ==>
        b == f.g.exit)
  }

  ghost predicate ProgramOk(p: Program, kernel: Frame) {
    && FunctionOk(p, kernel) && Clean(FlowAt(p, kernel), kernel.start)
    && forall c: Pc :: p.op(c).CallOp? ==> FunctionOk(p, Callee(p, c)) && Tame(p, Callee(p, c))
  }

  lemma TameIsClean(p: Program, fr: Frame)
    requires Tame(p, fr)
    ensures Clean(FlowAt(p, fr), fr.start)
  {
    var f := FlowAt(p, fr);
    hide Untabled, ExitSplit, Tabled, Leads, LeadsAvoiding;
    forall b: Pc, c, i: Pc | Leads(f.g, fr.start, b) && f.g.edge(b, c) && Untabled(f, i)
      ensures !LeadsAvoiding(f.g, c, i, f.point(b))
    {
      if LeadsAvoiding(f.g, c, i, f.point(b)) {
        Onwards(f.g, fr.start, b, c, i, f.point(b));
      }
    }
  }

  lemma Onwards(g: Graph, start: int, b: int, c: int, i: int, x: int)
    requires Leads(g, start, b) && g.edge(b, c) && LeadsAvoiding(g, c, i, x)
    ensures Leads(g, start, i)
  {
    EdgeLeads(g, b, c);
    LeadsJoin(g, start, b, c);
    LeadsJoin(g, start, c, i);
  }

  // ---------------------------------------------------------------------------------
  // Frames of the stack

  /** The stack, cut at its CALL entries; in the body of a frame all entries are NORMAL. */
  datatype Frames = Base(fr: Frame, body: seq<Entry>) | Inner(below: Frames, fr: Frame, body: seq<Entry>)

  ghost function AsCall(body: seq<Entry>): seq<Entry> {
    if body == [] then [] else [body[0].(kind := Call)] + body[1..]
  }

  ghost function Flat(fs: Frames): seq<Entry> {
    if fs.Base? then fs.body else Flat(fs.below) + AsCall(fs.body)
  }

  ghost function Calls(fs: Frames): (calls: seq<Frame>)
    ensures calls != [] && calls[|calls| - 1] == fs.fr && (|calls| > 1 <==> fs.Inner?)
  {
    if fs.Base? then [fs.fr] else Calls(fs.below) + [fs.fr]
  }

  ghost function Kernel(fs: Frames): Frame {
    if fs.Base? then fs.fr else Kernel(fs.below)
  }

  /** The entry whose lanes have made the call. */
  ghost function Caller(fs: Frames): Entry
    requires fs.Inner? && fs.below.body != []
  {
    fs.below.body[|fs.below.body| - 1]
  }

  /** The lanes of a frame. */
  ghost function Region(fs: Frames, all: set<nat>): set<nat> {
    if fs.Inner? && fs.below.body != [] then Caller(fs).mask else all
  }

  /** As the caller sees it, the lanes are still at the call. */
  ghost function Back(pcs: seq<Pc>, lanes: set<nat>, c: Pc): (r: seq<Pc>)
    ensures |r| == |pcs| && forall t :: 0 <= t < |pcs| ==> r[t] == if t in lanes then c else pcs[t]
  {
    seq(|pcs|, t requires 0 <= t < |pcs| => if t in lanes then c else pcs[t])
  }

  /** Above the lowest entry every entry waits for a post-dominator. */
  ghost predicate Straight(f: Flow, body: seq<Entry>) {
    forall j :: 0 < j < |body| ==> body[j].rpc != NULL_PC && PostDominates(f.g, body[j].rpc, body[j].pc)
  }

  /** The live lanes of the caller's entry are all in the callee. */
  ghost predicate Calling(p: Program, fs: Frames, done: set<nat>)
    requires fs.Inner?
  {
    && fs.below.body != [] && fs.body != []
    && var e := Caller(fs);
      e.mask != {} && e.mask !! done && p.op(e.pc).CallOp? && fs.fr ==
        Callee(p, e.pc) && Straight(FlowAt(p, fs.fr), fs.body)
  }

  ghost predicate FramesOk(p: Program, fs: Frames, all: set<nat>, done: set<nat>, pcs: seq<Pc>) {
    && FlowInv(FlowAt(p, fs.fr), fs.fr.start, fs.body, Region(fs, all), done, pcs)
    && (fs.Inner? ==>
          Calling(p, fs, done) && FramesOk(p, fs.below, all, done, Back(pcs, Caller(fs).mask, Caller(fs).pc)))
  }

  /** Every live lane is in the functions of its frame. */
  ghost predicate CallsOk(fs: Frames, lanes: set<nat>, done: set<nat>, calls: seq<seq<Frame>>) {
    if fs.Base? || fs.below.body == [] then
      forall t :: t in lanes && t !in done ==> t < |calls| && calls[t] == Calls(fs)
    else
      && (forall t :: t in lanes && t in Caller(fs).mask && t !in done ==> t < |calls| && calls[t] == Calls(fs))
      && CallsOk(fs.below, lanes - Caller(fs).mask, done, calls)
  }

  lemma FrameIsClean(p: Program, kernel: Frame, fs: Frames, all: set<nat>, done: set<nat>, pcs: seq<Pc>)
    requires ProgramOk(p, kernel) && Kernel(fs) == kernel && FramesOk(p, fs, all, done, pcs)
    ensures FunctionOk(p, fs.fr) && Clean(FlowAt(p, fs.fr), fs.fr.start) && (fs.Inner? ==> Tame(p, fs.fr))
  {
    hide FunctionOk, Tame, Clean, FlowInv, Straight;
    if fs.Inner? {
      TameIsClean(p, fs.fr);
    }
  }

  // ---------------------------------------------------------------------------------
  // An update that stays in the function

  lemma AsCallJoin(a: seq<Entry>, b: seq<Entry>)
    requires a != []
    ensures AsCall(a + b) == AsCall(a) + b
  {
    assert (a + b)[1..] == a[1..] + b;
  }

  lemma UpdatedOnTop(base: seq<Entry>, e: Entry, done: set<nat>, pcs: seq<Pc>, v: Pc)
    requires Legal([e], done, pcs, OtherOp)
    ensures Legal(base + [e], done, pcs, OtherOp)
    ensures Updated(base + [e], done, pcs, v, OtherOp) == base + Updated([e], done, pcs, v, OtherOp)
    ensures KeepsLanes(base + [e], done, pcs, v, OtherOp) <==> KeepsLanes([e], done, pcs, v, OtherOp)
  {
    var s := base + [e];
    assert s[..|s| - 1] == base && [e][..0] == [];
    hide Groups, Kept, Without, Class;
  }

  /** The lowest entry of a frame is updated as if it were NORMAL, and stays a CALL. */
  lemma UpdatedCall(e: Entry, done: set<nat>, pcs: seq<Pc>, v: Pc)
    requires Legal([e], done, pcs, OtherOp) && e.kind.Normal? && e.rpc == NULL_PC && e.mask - done != {}
    ensures Legal([e.(kind := Call)], done, pcs, OtherOp)
    ensures Updated([e], done, pcs, v, OtherOp) != []
    ensures Updated([e.(kind := Call)], done, pcs, v, OtherOp) == AsCall(Updated([e], done, pcs, v, OtherOp))
  {
    var live, c := e.mask - done, e.(kind := Call);
    assert Live([e], done) == live && Live([c], done) == live;
    NoNullGroup(live, pcs);
    SplitCall(e, Groups(live, pcs), live, pcs, v);
    hide Groups, Split;
  }

  /** The groups of an entry that waits for nothing. */
  ghost function RootGroups(groups: seq<Pc>, live: set<nat>, pcs: seq<Pc>, v: Pc, kind: EntryType): seq<Entry>
    requires groups != []
  {
    if groups[0] == groups[|groups| - 1] then Spawn(groups, live, pcs, NULL_PC, kind)
    else Spawn(Without(groups, v), live, pcs, v, if v != NULL_PC then Normal else kind)
  }

  lemma SplitRoot(e: Entry, groups: seq<Pc>, live: set<nat>, pcs: seq<Pc>, v: Pc)
    requires e.rpc == NULL_PC && groups != [] && Without(groups, NULL_PC) == groups
    ensures var gs := RootGroups(groups, live, pcs, v, e.kind);
      Split([e], groups, live, pcs, v) ==
        if groups[0] != groups[|groups| - 1] && v != NULL_PC then [e.(pc := v)] + gs else gs
  {
    var s := [e];
    assert Kept(e, groups) == groups && s[..|s| - 1] == [];
    hide Kept, Without, Class, Spawn;
    if groups[0] == groups[|groups| - 1] {
      assert !Diverges(e, groups);
    } else {
      assert Diverges(e, groups);
      assert Parent([], e, v) == if v != NULL_PC then [e.(pc := v)] else [];
    }
  }

  lemma SplitCall(e: Entry, groups: seq<Pc>, live: set<nat>, pcs: seq<Pc>, v: Pc)
    requires e.kind.Normal? && e.rpc == NULL_PC && groups != [] && Without(groups, NULL_PC) == groups
    ensures Split([e.(kind := Call)], groups, live, pcs, v) == AsCall(Split([e], groups, live, pcs, v))
    ensures Split([e], groups, live, pcs, v) != []
  {
    SplitRoot(e, groups, live, pcs, v);
    SplitRoot(e.(kind := Call), groups, live, pcs, v);
    hide Split, Without, Spawn, Class;
    var gs := RootGroups(groups, live, pcs, v, Normal);
    if groups[0] != groups[|groups| - 1] && v != NULL_PC {
      AsCallJoin([e.(pc := v)], gs);
    } else {
      CallSpawn(if groups[0] == groups[|groups| - 1] then groups else Without(groups, v), live, pcs, NULL_PC);
    }
  }

  lemma NoNullGroup(live: set<nat>, pcs: seq<Pc>)
    requires live != {} && LanesBelow(live, |pcs|) && forall l :: l in live ==> pcs[l] != NULL_PC
    ensures Groups(live, pcs) != [] && Without(Groups(live, pcs), NULL_PC) == Groups(live, pcs)
  {
    GroupsPartition(live, pcs);
    assert Class(live, pcs, NULL_PC) == {};
    WithoutAbsent(Groups(live, pcs), NULL_PC);
  }

  lemma CallSpawn(cs: seq<Pc>, live: set<nat>, pcs: seq<Pc>, rpc: Pc)
    ensures AsCall(Spawn(cs, live, pcs, rpc, Normal)) == Spawn(cs, live, pcs, rpc, Call)
  {
  }

  /** A frame is updated as a stack of its own. */
  lemma UpdatedFrame(low: seq<Entry>, body: seq<Entry>, done: set<nat>, pcs: seq<Pc>, v: Pc)
    requires Legal(body, done, pcs, OtherOp) && body[|body| - 1].kind.Normal? && Live(body, done) != {}
    requires KeepsLanes(body, done, pcs, v, OtherOp) && (|body| == 1 ==> body[0].rpc == NULL_PC)
    ensures var s := low + AsCall(body);
      && Legal(s, done, pcs, OtherOp) && KeepsLanes(s, done, pcs, v, OtherOp)
      && Updated(body, done, pcs, v, OtherOp) != []
      && Updated(s, done, pcs, v, OtherOp) == low + AsCall(Updated(body, done, pcs, v, OtherOp))
  {
    var n := |body| - 1;
    var base, e := body[..n], body[n];
    assert body == base + [e];
    assert Legal([e], done, pcs, OtherOp);
    hide Updated, KeepsLanes, Legal;
    if n == 0 {
      assert body == [e] && AsCall(body) == [e.(kind := Call)];
      UpdatedCall(e, done, pcs, v);
      UpdatedOnTop(low, e.(kind := Call), done, pcs, v);
      CallKeepsLanes(low, e.(kind := Call), done, pcs, v);
    } else {
      AsCallJoin(base, [e]);
      AsCallJoin(base, Updated([e], done, pcs, v, OtherOp));
      assert low + AsCall(body) == (low + AsCall(base)) + [e];
      UpdatedOnTop(base, e, done, pcs, v);
      UpdatedOnTop(low + AsCall(base), e, done, pcs, v);
    }
  }

  lemma CallKeepsLanes(low: seq<Entry>, e: Entry, done: set<nat>, pcs: seq<Pc>, v: Pc)
    requires e.kind.Call? && Legal(low + [e], done, pcs, OtherOp)
    ensures KeepsLanes(low + [e], done, pcs, v, OtherOp)
  {
  }

  // ---------------------------------------------------------------------------------
  // Callees stay straight

  /** The lanes of the top entry are at an instruction that the function gets to. */
  lemma TopReached(f: Flow, start: Pc, body: seq<Entry>, all: set<nat>, done: set<nat>, pcs: seq<Pc>, done': set<nat>,
                   pcs': seq<Pc>)
    requires FlowInv(f, start, body, all, done, pcs) && Takes(f, body, all, done, pcs, done', pcs')
    ensures Leads(f.g, start, body[|body| - 1].pc)
  {
    hide Inv, AllWait, RootsApart, DeadParked, Leads, ReachesExit;
    var t :| t in body[|body| - 1].mask;
    assert t in all && t !in done && pcs[t] == body[|body| - 1].pc;
  }

  lemma ReplacedStraight(f: Flow, body: seq<Entry>, all: set<nat>, done: set<nat>, pcs: seq<Pc>, pcs': seq<Pc>,
                         cs: seq<Pc>)
    requires Takes(f, body, all, done, pcs, done, pcs') && Straight(f, body) && Reconverges(body, done)
    requires body[|body| - 1].kind.Normal? && GroupsAbove(cs, Live(body, done), pcs', body[|body| - 1])
    requires |body| == 1 ==> |cs| <= 1
    ensures Straight(f, Replaced(body, Live(body, done), pcs', cs))
  {
    var n, live := |body| - 1, Live(body, done);
    var r, e := Replaced(body, live, pcs', cs), body[n];
    hide PostDominates;
    forall j | 0 < j < |r| ensures r[j].rpc != NULL_PC && PostDominates(f.g, r[j].rpc, r[j].pc) {
      if j >= n {
        var c := cs[j - n];
        assert c in cs;
        var t :| t in Class(live, pcs', c);
        SuccessorPostDominated(f.g, e.rpc, e.pc, c);
      }
    }
  }

  lemma OverStraight(f: Flow, body: seq<Entry>, all: set<nat>, done: set<nat>, pcs: seq<Pc>, pcs': seq<Pc>,
                     cs: seq<Pc>, v: Pc)
    requires Takes(f, body, all, done, pcs, done, pcs') && Straight(f, body)
    requires GroupsOver(cs, Live(body, done), pcs', v) && v != NULL_PC && PostDominates(f.g, v, body[|body| - 1].pc)
    requires v != body[|body| - 1].pc
    requires |body| > 1 ==> PostDominates(f.g, body[|body| - 1].rpc, v)
    ensures Straight(f, OverParent(body, Live(body, done), pcs', cs, v))
  {
    var n, live := |body| - 1, Live(body, done);
    var r, e := OverParent(body, live, pcs', cs, v), body[n];
    hide PostDominates;
    forall j | 0 < j < |r| ensures r[j].rpc != NULL_PC && PostDominates(f.g, r[j].rpc, r[j].pc) {
      if j > n {
        var c := cs[j - |body|];
        assert c in cs;
        var t :| t in Class(live, pcs', c);
        SuccessorPostDominated(f.g, v, e.pc, c);
      }
    }
  }

  /** The new point in an outer region. */
  lemma PointInside(f: Flow, e: Entry, x: int)
    requires IsPoint(f, e.pc, x) && x != f.g.exit && f.point(e.pc) != e.rpc && PostDominates(f.g, e.rpc, e.pc)
    requires e.rpc != e.pc
    ensures PostDominates(f.g, e.rpc, f.point(e.pc))
  {
  }

  /** A callee that has no split without a point and none that waits for the return. */
  lemma StraightStays(f: Flow, start: Pc, body: seq<Entry>, all: set<nat>, done: set<nat>, pcs: seq<Pc>, pcs': seq<Pc>,
                      op: Op)
    requires FlowOk(f) && Clean(f, start) && FlowInv(f, start, body, all, done, pcs)
    requires Takes(f, body, all, done, pcs, done, pcs')
    requires Straight(f, body) && !Untabled(f, body[|body| - 1].pc) && !ExitSplit(f, body[|body| - 1].pc)
    requires Legal(body, done, pcs', op) && !IsSpecial(body, op)
    requires KeepsLanes(body, done, pcs', f.point(body[|body| - 1].pc), op)
    ensures Straight(f, Updated(body, done, pcs', f.point(body[|body| - 1].pc), op))
  {
    var n := |body| - 1;
    var e, live, v := body[n], Live(body, done), f.point(body[n].pc);
    var groups, cs := Groups(live, pcs'), SplitGroups(body, live, pcs', v);
    TopRoot(f, start, body, all, done, pcs, done, pcs');
    hide FlowInv, Takes, Straight, Waits;
    TakesSome(f, start, body, all, done, pcs, done, pcs');
    SplitShape(body, live, pcs', v);
    if Diverges(e, groups) && v != e.rpc {
      DivergesApart(f, body, all, done, pcs, done, pcs');
      var x := PointOfSplit(f, start, body, all, done, pcs, done, pcs');
      if n > 0 {
        PointInside(f, e, x);
      }
      OverStraight(f, body, all, done, pcs, pcs', cs, v);
    } else {
      OneGroupAtRoot(f, body, all, done, pcs, done, pcs');
      ReplacedStraight(f, body, all, done, pcs, pcs', cs);
    }
  }

  /** What the invariant says of the top entry. */
  lemma TopRoot(f: Flow, start: Pc, body: seq<Entry>, all: set<nat>, done: set<nat>, pcs: seq<Pc>, done': set<nat>,
                pcs': seq<Pc>)
    requires FlowInv(f, start, body, all, done, pcs) && Takes(f, body, all, done, pcs, done', pcs')
    ensures Reconverges(body, done) && body[0].rpc == NULL_PC && Live(body, done) == body[|body| - 1].mask != {}
    ensures body[|body| - 1].kind.Normal?
    ensures body[|body| - 1].rpc != NULL_PC ==> body[|body| - 1].rpc != body[|body| - 1].pc
  {
  }

  // ---------------------------------------------------------------------------------
  // A step of the top frame

  ghost function TopOf(fs: Frames): Entry
    requires fs.body != []
  {
    fs.body[|fs.body| - 1]
  }

  /** The lanes of the top entry take edges of their function; all others stay. */
  ghost predicate FrameTakes(p: Program, fs: Frames, all: set<nat>, done: set<nat>, pcs: seq<Pc>, done': set<nat>,
                             pcs': seq<Pc>)
  {
    && Takes(FlowAt(p, fs.fr), fs.body, Region(fs, all), done, pcs, done', pcs')
    && (forall t :: 0 <= t < |pcs| && t !in TopOf(fs).mask ==> pcs'[t] == pcs[t])
    && (fs.Inner? ==> done' == done)
  }

  /** The update of the whole stack is that of the frame. */
  ghost predicate UpdatesFrame(fs: Frames, r: seq<Entry>, done': set<nat>, pcs': seq<Pc>, v: Pc, op: Op) {
    var s := Flat(fs);
    && Legal(s, done', pcs', op) && KeepsLanes(s, done', pcs', v, op) && !IsSpecial(s, op)
    && Updated(s, done', pcs', v, op) == Flat(fs.(body := r))
  }

  lemma NotSpecialSame(s: seq<Entry>, done: set<nat>, pcs: seq<Pc>, v: Pc, op: Op)
    requires Legal(s, done, pcs, op) && !IsSpecial(s, op)
    ensures Legal(s, done, pcs, OtherOp) && Updated(s, done, pcs, v, op) == Updated(s, done, pcs, v, OtherOp)
    ensures KeepsLanes(s, done, pcs, v, op) <==> KeepsLanes(s, done, pcs, v, OtherOp)
  {
  }

  lemma OtherIsLegal(s: seq<Entry>, done: set<nat>, pcs: seq<Pc>, op: Op)
    requires Legal(s, done, pcs, OtherOp) && !IsSpecial(s, op)
    ensures Legal(s, done, pcs, op)
  {
  }

  /** The body of a frame, as a stack of its own, keeps its invariant. */
  lemma BodyKeeps(f: Flow, start: Pc, body: seq<Entry>, all: set<nat>, done: set<nat>, pcs: seq<Pc>, done': set<nat>,
                  pcs': seq<Pc>, op: Op)
    requires FlowOk(f) && Clean(f, start) && FlowInv(f, start, body, all, done, pcs)
    requires Takes(f, body, all, done, pcs, done', pcs') && !op.CallOp?
    ensures var v := f.point(body[|body| - 1].pc);
      && Legal(body, done', pcs', op) && !IsSpecial(body, op) && KeepsLanes(body, done', pcs', v, op)
      && FlowInv(f, start, Updated(body, done', pcs', v, op), all, done', pcs')
  {
    FlowParts(f, start, body, all, done, pcs);
    TakesMoves(f, body, all, done, pcs, done', pcs');
    hide FlowInv, Takes, AllWait, FlowOk, Clean, Inv, Legal, KeepsLanes, Updated;
    TableKeepsLanes(f, body, all, done, pcs, done', pcs', op);
    UpdateKeeps(body, all, done, pcs, done', pcs', f.point(body[|body| - 1].pc), op);
    UpdateKeepsFlow(f, start, body, all, done, pcs, done', pcs', op);
  }

  lemma TakesMoves(f: Flow, s: seq<Entry>, all: set<nat>, done: set<nat>, pcs: seq<Pc>, done': set<nat>, pcs': seq<Pc>)
    requires Takes(f, s, all, done, pcs, done', pcs')
    ensures forall op :: Legal(s, done', pcs', op) ==> Moves(s, all, done, pcs, done', pcs', op)
  {
    hide Legal;
  }

  /** The entries of the whole stack are those of the frame, but that its lowest is a CALL. */
  lemma FlatTop(fs: Frames)
    requires fs.body != []
    ensures var s := Flat(fs);
      s != [] && s[|s| - 1] == if fs.Inner? && |fs.body| == 1 then TopOf(fs).(kind := Call) else TopOf(fs)
  {
  }

  lemma OtherOnFlat(fs: Frames, done: set<nat>, pcs: seq<Pc>, v: Pc, op: Op)
    requires fs.Inner? && fs.body != [] && TopOf(fs).kind.Normal? && !op.CallOp? && (|fs.body| == 1 ==> !op.RetOp?)
    requires Legal(Flat(fs), done, pcs, OtherOp)
    ensures var s := Flat(fs);
      && !IsSpecial(s, op) && Legal(s, done, pcs, op)
      && Updated(s, done, pcs, v, op) == Updated(s, done, pcs, v, OtherOp)
      && (KeepsLanes(s, done, pcs, v, op) <==> KeepsLanes(s, done, pcs, v, OtherOp))
  {
    FlatTop(fs);
    hide Flat, Legal, Updated, KeepsLanes;
    OtherIsLegal(Flat(fs), done, pcs, op);
    NotSpecialSame(Flat(fs), done, pcs, v, op);
  }

  /** For the caller nothing has changed. */
  lemma StillBack(fs: Frames, lanes: set<nat>, pcs: seq<Pc>, pcs': seq<Pc>)
    requires fs.Inner? && fs.below.body != [] && lanes == Caller(fs).mask && fs.body != [] && TopOf(fs).mask <= lanes
    requires |pcs'| == |pcs|
    requires forall t :: 0 <= t < |pcs| && t !in TopOf(fs).mask ==> pcs'[t] == pcs[t]
    ensures Back(pcs', lanes, Caller(fs).pc) == Back(pcs, lanes, Caller(fs).pc)
  {
  }

  /** A step of a callee. */
  lemma InnerKeeps(p: Program, fs: Frames, all: set<nat>, done: set<nat>, pcs: seq<Pc>, pcs': seq<Pc>, op: Op)
    requires fs.Inner? && FunctionOk(p, fs.fr) && Tame(p, fs.fr) && FramesOk(p, fs, all, done, pcs)
    requires FrameTakes(p, fs, all, done, pcs, done, pcs') && !op.CallOp? && (|fs.body| == 1 ==> !op.RetOp?)
    requires Legal(fs.body, done, pcs', op) && !IsSpecial(fs.body, op)
    requires KeepsLanes(fs.body, done, pcs', FlowAt(p, fs.fr).point(TopOf(fs).pc), op)
    requires var r := Updated(fs.body, done, pcs', FlowAt(p, fs.fr).point(TopOf(fs).pc), op);
      FlowInv(FlowAt(p, fs.fr), fs.fr.start, r, Region(fs, all), done, pcs')
    ensures var r := Updated(fs.body, done, pcs', FlowAt(p, fs.fr).point(TopOf(fs).pc), op);
      UpdatesFrame(fs, r, done, pcs', FlowAt(p, fs.fr).point(TopOf(fs).pc), op) && FramesOk(p, fs.(body := r), all,
        done, pcs')
  {
    var f, start, body, lanes := FlowAt(p, fs.fr), fs.fr.start, fs.body, Region(fs, all);
    var v := f.point(TopOf(fs).pc);
    var r := Updated(body, done, pcs', v, op);
    var fs' := fs.(body := r);
    TameIsClean(p, fs.fr);
    TopReached(f, start, body, lanes, done, pcs, done, pcs');
    assert !Untabled(f, TopOf(fs).pc) && !ExitSplit(f, TopOf(fs).pc);
    StraightStays(f, start, body, lanes, done, pcs, pcs', op);
    TopRoot(f, start, body, lanes, done, pcs, done, pcs');
    NotSpecialSame(body, done, pcs', v, op);
    UpdatedFrame(Flat(fs.below), body, done, pcs', v);
    OtherOnFlat(fs, done, pcs', v, op);
    StillBack(fs, lanes, pcs, pcs');
    hide FlowInv, FlowOk, Takes, Clean, Tame, Legal, KeepsLanes, Updated, FunctionOk, Untabled, ExitSplit, Straight;
  }

  /** A step of the kernel. */
  lemma BaseKeeps(p: Program, fs: Frames, r: seq<Entry>, all: set<nat>, done: set<nat>, pcs: seq<Pc>, op: Op)
    requires fs.Base? && fs.body != [] && Legal(fs.body, done, pcs, op) && !IsSpecial(fs.body, op)
    requires KeepsLanes(fs.body, done, pcs, FlowAt(p, fs.fr).point(TopOf(fs).pc), op)
    requires r == Updated(fs.body, done, pcs, FlowAt(p, fs.fr).point(TopOf(fs).pc), op)
    requires FlowInv(FlowAt(p, fs.fr), fs.fr.start, r, Region(fs, all), done, pcs)
    ensures UpdatesFrame(fs, r, done, pcs, FlowAt(p, fs.fr).point(TopOf(fs).pc), op)
    ensures FramesOk(p, Base(fs.fr, r), all, done, pcs)
  {
    hide FlowInv, Legal, KeepsLanes, Updated, IsSpecial;
  }

  lemma TopFlow(p: Program, fs: Frames, all: set<nat>, done: set<nat>, pcs: seq<Pc>)
    requires FramesOk(p, fs, all, done, pcs)
    ensures FlowInv(FlowAt(p, fs.fr), fs.fr.start, fs.body, Region(fs, all), done, pcs)
  {
  }

  lemma FrameFlowOk(p: Program, fr: Frame)
    requires FunctionOk(p, fr)
    ensures FlowOk(FlowAt(p, fr)) && fr.ret != NULL_PC
  {
  }

  lemma TakesParts(p: Program, fs: Frames, all: set<nat>, done: set<nat>, pcs: seq<Pc>, done': set<nat>, pcs': seq<Pc>)
    requires FrameTakes(p, fs, all, done, pcs, done', pcs')
    ensures Takes(FlowAt(p, fs.fr), fs.body, Region(fs, all), done, pcs, done', pcs')
    ensures fs.body != [] && TopOf(fs) == fs.body[|fs.body| - 1] && (fs.Inner? ==> done' == done)
  {
    hide Region;
  }

  /** A frame takes a step of its own. */
  lemma PlainKeeps(p: Program, kernel: Frame, fs: Frames, all: set<nat>, done: set<nat>, pcs: seq<Pc>, done': set<nat>,
                   pcs': seq<Pc>, op: Op)
    returns (r: seq<Entry>)
    requires ProgramOk(p, kernel) && Kernel(fs) == kernel && FramesOk(p, fs, all, done, pcs)
    requires FrameTakes(p, fs, all, done, pcs, done', pcs') && !op.CallOp?
    requires fs.Inner? && |fs.body| == 1 ==> !op.RetOp?
    ensures UpdatesFrame(fs, r, done', pcs', FlowAt(p, fs.fr).point(TopOf(fs).pc), op)
    ensures FramesOk(p, fs.(body := r), all, done', pcs')
  {
    hide *;
    FrameIsClean(p, kernel, fs, all, done, pcs);
    TopFlow(p, fs, all, done, pcs);
    FrameFlowOk(p, fs.fr);
    TakesParts(p, fs, all, done, pcs, done', pcs');
    BodyKeeps(FlowAt(p, fs.fr), fs.fr.start, fs.body, Region(fs, all), done, pcs, done', pcs', op);
    r := Updated(fs.body, done', pcs', FlowAt(p, fs.fr).point(TopOf(fs).pc), op);
    if fs.Base? {
      BaseKeeps(p, fs, r, all, done', pcs', op);
    } else {
      InnerKeeps(p, fs, all, done, pcs, pcs', op);
    }
  }

  // ---------------------------------------------------------------------------------
  // Calls and returns

  /** All lanes of the top entry go to `n`, and nobody else moves. */
  ghost predicate AllGo(e: Entry, done: set<nat>, pcs: seq<Pc>, pcs': seq<Pc>, n: Pc) {
    && e.mask != {} && e.mask !! done && |pcs'| == |pcs| && n != NULL_PC
    && (forall t :: t in e.mask ==> t < |pcs| && pcs[t] == e.pc && pcs'[t] == n)
    && (forall t :: 0 <= t < |pcs| && t !in e.mask ==> pcs'[t] == pcs[t])
  }

  lemma CallKeeps(p: Program, kernel: Frame, fs: Frames, all: set<nat>, done: set<nat>, pcs: seq<Pc>, pcs': seq<Pc>,
                  v: Pc)
    returns (r: Frames)
    requires ProgramOk(p, kernel) && Kernel(fs) == kernel && FramesOk(p, fs, all, done, pcs)
    requires fs.body != [] && p.op(TopOf(fs).pc).CallOp? && AllGo(TopOf(fs), done, pcs, pcs', p.target(TopOf(fs).pc))
    ensures r == Inner(fs, Callee(p, TopOf(fs).pc), r.body) && FramesOk(p, r, all, done, pcs')
    ensures var s := Flat(fs);
      && Legal(s, done, pcs', CallOp) && KeepsLanes(s, done, pcs', v, CallOp)
      && Updated(s, done, pcs', v, CallOp) == Flat(r)
  {
    var e := TopOf(fs);
    var fr := Callee(p, e.pc);
    r := Inner(fs, fr, [Entry(fr.start, e.mask, NULL_PC, Normal)]);
    CalleeOk(p, kernel, e.pc);
    hide FlowInv, Legal, Updated, KeepsLanes, ProgramOk, FramesOk, Tame, Flat;
    CallUpdate(fs, done, pcs', v, fr.start);
    Entered(p, fs, r, all, done, pcs, pcs');
    assert Flat(r) == Flat(fs) + AsCall(r.body) by {
      FlatInner(r);
    }
  }

  lemma FlatInner(fs: Frames)
    requires fs.Inner?
    ensures Flat(fs) == Flat(fs.below) + AsCall(fs.body)
  {
  }

  lemma CalleeOk(p: Program, kernel: Frame, c: Pc)
    requires ProgramOk(p, kernel) && p.op(c).CallOp?
    ensures FunctionOk(p, Callee(p, c)) && Tame(p, Callee(p, c)) && p.target(c) != NULL_PC
  {
  }

  /** The callee's frame when it starts. */
  lemma Entered(p: Program, fs: Frames, r: Frames, all: set<nat>, done: set<nat>, pcs: seq<Pc>, pcs': seq<Pc>)
    requires fs.body != [] && FramesOk(p, fs, all, done, pcs) && p.op(TopOf(fs).pc).CallOp?
    requires FunctionOk(p, Callee(p, TopOf(fs).pc))
    requires AllGo(TopOf(fs), done, pcs, pcs', p.target(TopOf(fs).pc))
    requires r == Inner(fs, Callee(p, TopOf(fs).pc), [Entry(p.target(TopOf(fs).pc), TopOf(fs).mask, NULL_PC, Normal)])
    ensures FramesOk(p, r, all, done, pcs')
  {
    var e := TopOf(fs);
    var n := p.target(e.pc);
    GoBackwards(e, done, pcs, pcs', n);
    hide FlowInv, FlowOk, FramesOk, AllGo, Leads;
    StartFlow(FlowAt(p, r.fr), n, e.mask, done, pcs');
    InnerOk(p, r, all, done, pcs');
  }

  lemma GoBackwards(e: Entry, done: set<nat>, pcs: seq<Pc>, pcs': seq<Pc>, n: Pc)
    requires AllGo(e, done, pcs, pcs', n)
    ensures Back(pcs', e.mask, e.pc) == pcs && e.mask != {} && e.mask !! done && LanesBelow(e.mask, |pcs'|)
    ensures forall t :: t in e.mask ==> t !in done && pcs'[t] == n
  {
  }

  lemma InnerOk(p: Program, fs: Frames, all: set<nat>, done: set<nat>, pcs: seq<Pc>)
    requires fs.Inner? && Calling(p, fs, done)
    requires FlowInv(FlowAt(p, fs.fr), fs.fr.start, fs.body, Caller(fs).mask, done, pcs)
    requires FramesOk(p, fs.below, all, done, Back(pcs, Caller(fs).mask, Caller(fs).pc))
    ensures FramesOk(p, fs, all, done, pcs)
  {
    hide FlowInv, Straight;
    assert Region(fs, all) == Caller(fs).mask;
  }

  lemma CallUpdate(fs: Frames, done: set<nat>, pcs': seq<Pc>, v: Pc, n: Pc)
    requires fs.body != [] && n != NULL_PC && TopOf(fs).mask != {} && TopOf(fs).mask !! done
    requires forall t :: t in TopOf(fs).mask ==> t < |pcs'| && pcs'[t] == n
    ensures var s := Flat(fs);
      && Legal(s, done, pcs', CallOp) && KeepsLanes(s, done, pcs', v, CallOp)
      && Updated(s, done, pcs', v, CallOp) == s + AsCall([Entry(n, TopOf(fs).mask, NULL_PC, Normal)])
  {
    FlatTop(fs);
    var s := Flat(fs);
    hide Flat;
    assert Live(s, done) == TopOf(fs).mask;
  }

  /** A return leaves the caller as if its lanes had gone on to the return address. */
  lemma ReturnUpdate(low: seq<Entry>, e: Entry, done: set<nat>, pcs: seq<Pc>, v: Pc, w: Pc, n: Pc)
    requires low != [] && e.kind.Call? && e.mask == low[|low| - 1].mask != {} && e.mask !! done && n != NULL_PC
    requires forall t :: t in e.mask ==> t < |pcs| && pcs[t] == n
    ensures var s := low + [e];
      && Legal(s, done, pcs, RetOp) && KeepsLanes(s, done, pcs, v, RetOp) && Legal(low, done, pcs, OtherOp)
      && Updated(s, done, pcs, v, RetOp) == Updated(low, done, pcs, w, OtherOp)
  {
    var s, top := low + [e], low[|low| - 1];
    assert s[..|s| - 1] == low && Live(s, done) == e.mask && Live(low, done) == e.mask;
    OneGroup(e.mask, pcs, n);
    OneKept(top, n);
    hide Groups, Class, Kept;
    assert Updated(s, done, pcs, v, RetOp) == Returned(low, n);
  }

  lemma OneKept(e: Entry, n: Pc)
    ensures Kept(e, [n]) == if e.kind.Normal? && n == e.rpc then [] else [n]
  {
    if e.kind.Normal? {
      KeptOne(e, n);
    }
  }

  /** A callee returns from its lowest entry. */
  lemma ReturnsAsOne(p: Program, fs: Frames, all: set<nat>, done: set<nat>, pcs: seq<Pc>, n: Pc, pcs': seq<Pc>)
    requires fs.Inner? && FunctionOk(p, fs.fr) && Tame(p, fs.fr) && FramesOk(p, fs, all, done, pcs)
    requires p.op(TopOf(fs).pc).RetOp? && AllGo(TopOf(fs), done, pcs, pcs', n)
    requires FlowAt(p, fs.fr).g.edge(TopOf(fs).pc, FlowAt(p, fs.fr).g.exit)
    ensures |fs.body| == 1 && fs.body[0].mask == Caller(fs).mask
  {
    var f, e := FlowAt(p, fs.fr), TopOf(fs);
    assert f.g.exit < 0;
    hide Tame, FunctionOk, AllWait, RootsApart, DeadParked, OnCourse, Scattered, CallsCover, Laminar;
    if |fs.body| > 1 {
      assert e.rpc != NULL_PC && PostDominates(f.g, e.rpc, e.pc) && e.rpc != e.pc;
      OnlyExit(f.g, e.rpc, e.pc);
    }
  }

  /** Where the lanes of the top entry are. */
  lemma TopPlace(p: Program, fs: Frames, all: set<nat>, done: set<nat>, pcs: seq<Pc>)
    requires FramesOk(p, fs, all, done, pcs) && fs.body != [] && TopOf(fs).mask != {}
    requires forall t :: t in TopOf(fs).mask ==> t !in done && t < |pcs| && pcs[t] == TopOf(fs).pc
    ensures LanesBelow(Region(fs, all), |pcs|) && TopOf(fs).mask <= Region(fs, all)
    ensures TopOf(fs).pc != NULL_PC && Leads(FlowAt(p, fs.fr).g, fs.fr.start, TopOf(fs).pc)
    ensures ReachesExit(FlowAt(p, fs.fr).g, TopOf(fs).pc)
  {
    hide AllWait, RootsApart, DeadParked, Scattered, Refines, Reconverges, CallsCover, Laminar, Shaped, Leads,
      ReachesExit, Straight;
    var t :| t in TopOf(fs).mask;
    assert t in Region(fs, all);
  }

  lemma CallEdge(p: Program, fr: Frame, c: Pc)
    requires FunctionOk(p, fr) && Leads(FlowAt(p, fr).g, fr.start, c) && p.op(c).CallOp?
    ensures FlowAt(p, fr).g.edge(c, p.next(c))
  {
    hide Leads, FlowOk;
  }

  lemma EdgeTakes(p: Program, fs: Frames, all: set<nat>, done: set<nat>, pcs: seq<Pc>, pcs': seq<Pc>, n: Pc)
    requires fs.body != [] && AllGo(TopOf(fs), done, pcs, pcs', n) && LanesBelow(Region(fs, all), |pcs|)
    requires TopOf(fs).mask <= Region(fs, all)
    requires TopOf(fs).pc != NULL_PC && FlowAt(p, fs.fr).g.edge(TopOf(fs).pc, n)
    ensures FrameTakes(p, fs, all, done, pcs, done, pcs')
  {
    hide Region;
  }

  lemma GoParts(e: Entry, done: set<nat>, pcs: seq<Pc>, pcs': seq<Pc>, n: Pc)
    requires AllGo(e, done, pcs, pcs', n)
    ensures e.mask != {} && forall t :: t in e.mask ==> t !in done && t < |pcs| && pcs[t] == e.pc
  {
  }

  /** Back at the call, the caller's lanes take its edge to the return address. */
  lemma CallerTakes(p: Program, below: Frames, all: set<nat>, done: set<nat>, back: seq<Pc>, pcs': seq<Pc>, n: Pc)
    requires FramesOk(p, below, all, done, back) && FunctionOk(p, below.fr) && below.body != []
    requires p.op(TopOf(below).pc).CallOp? && n == p.next(TopOf(below).pc) && AllGo(TopOf(below), done, back, pcs', n)
    ensures FrameTakes(p, below, all, done, back, done, pcs')
  {
    hide *;
    GoParts(TopOf(below), done, back, pcs', n);
    TopPlace(p, below, all, done, back);
    CallEdge(p, below.fr, TopOf(below).pc);
    EdgeTakes(p, below, all, done, back, pcs', n);
  }

  /** The callee's lanes are the caller's, which are back at the call. */
  lemma GoBack(p: Program, fs: Frames, done: set<nat>, pcs: seq<Pc>, pcs': seq<Pc>)
    requires fs.Inner? && Calling(p, fs, done) && AllGo(TopOf(fs), done, pcs, pcs', fs.fr.ret)
    requires TopOf(fs).mask == Caller(fs).mask
    ensures fs.below.body != [] && p.op(TopOf(fs.below).pc).CallOp? && fs.fr.ret == p.next(TopOf(fs.below).pc)
    ensures AllGo(TopOf(fs.below), done, Back(pcs, Caller(fs).mask, Caller(fs).pc), pcs', fs.fr.ret)
  {
    hide Straight;
  }

  lemma Below(p: Program, fs: Frames, all: set<nat>, done: set<nat>, pcs: seq<Pc>)
    requires fs.Inner? && FramesOk(p, fs, all, done, pcs)
    ensures Calling(p, fs, done) && FramesOk(p, fs.below, all, done, Back(pcs, Caller(fs).mask, Caller(fs).pc))
  {
    hide FlowInv;
  }

  lemma ReturnKeeps(p: Program, kernel: Frame, fs: Frames, all: set<nat>, done: set<nat>, pcs: seq<Pc>, pcs': seq<Pc>,
                    v: Pc)
    returns (r: Frames)
    requires ProgramOk(p, kernel) && Kernel(fs) == kernel && fs.Inner? && FramesOk(p, fs, all, done, pcs)
    requires p.op(TopOf(fs).pc).RetOp? && FlowAt(p, fs.fr).g.edge(TopOf(fs).pc, FlowAt(p, fs.fr).g.exit)
    requires AllGo(TopOf(fs), done, pcs, pcs', fs.fr.ret)
    ensures r == fs.below.(body := r.body) && FramesOk(p, r, all, done, pcs')
    ensures var s := Flat(fs);
      && Legal(s, done, pcs', RetOp) && KeepsLanes(s, done, pcs', v, RetOp)
      && Updated(s, done, pcs', v, RetOp) == Flat(r)
  {
    var below := fs.below;
    assert Kernel(below) == kernel;
    hide *;
    FrameIsClean(p, kernel, fs, all, done, pcs);
    ReturnsAsOne(p, fs, all, done, pcs, fs.fr.ret, pcs');
    Below(p, fs, all, done, pcs);
    var back := Back(pcs, Caller(fs).mask, Caller(fs).pc);
    FrameIsClean(p, kernel, below, all, done, back);
    SameTop(fs);
    GoBack(p, fs, done, pcs, pcs');
    CallerTakes(p, below, all, done, back, pcs', fs.fr.ret);
    var b := PlainKeeps(p, kernel, below, all, done, back, done, pcs', OtherOp);
    r := below.(body := b);
    ReturnFlat(fs, b, done, pcs, pcs', v, FlowAt(p, below.fr).point(TopOf(below).pc));
  }

  lemma SameTop(fs: Frames)
    requires fs.body != []
    ensures TopOf(fs) == fs.body[|fs.body| - 1]
  {
  }

  lemma ReturnFlat(fs: Frames, b: seq<Entry>, done: set<nat>, pcs: seq<Pc>, pcs': seq<Pc>, v: Pc, w: Pc)
    requires fs.Inner? && fs.below.body != [] && |fs.body| == 1 && fs.body[0].mask == Caller(fs).mask
    requires AllGo(TopOf(fs), done, pcs, pcs', fs.fr.ret) && UpdatesFrame(fs.below, b, done, pcs', w, OtherOp)
    ensures var s := Flat(fs);
      && Legal(s, done, pcs', RetOp) && KeepsLanes(s, done, pcs', v, RetOp)
      && Updated(s, done, pcs', v, RetOp) == Flat(fs.below.(body := b))
  {
    var e := TopOf(fs).(kind := Call);
    FlatTop(fs.below);
    FlatInner(fs);
    assert AsCall(fs.body) == [e];
    hide Flat, Legal, Updated, KeepsLanes;
    ReturnUpdate(Flat(fs.below), e, done, pcs', v, w, fs.fr.ret);
  }

  // ---------------------------------------------------------------------------------
  // Steps of the warp

  ghost function CallsOf<S>(threads: seq<Thread<Local<S>>>): (calls: seq<seq<Frame>>)
    ensures |calls| == |threads| && forall t :: 0 <= t < |threads| ==> calls[t] == threads[t].state.calls
  {
    seq(|threads|, t requires 0 <= t < |threads| => threads[t].state.calls)
  }

  ghost predicate FirstLive<S>(m: Machine<S>, mask: set<nat>, u: nat) {
    && u in mask && u < |m.threads| && !m.threads[u].done
    && forall l :: 0 <= l < u && l in mask ==> l < |m.threads| && m.threads[l].done
  }

  /** One step of a warp: the table is that of the function the lanes are in, and where it names
      the return, `update` gets the return address of the first lane of the warp that is left. */
  ghost predicate ProgramStep<S>(exec: Exec<Local<S>>, p: Program, mask: set<nat>, m: Machine<Local<S>>, input: Input,
                                 m': Machine<Local<S>>)
  {
    && WarpStep(exec, m, input, m') && input.op == p.op(m.stack[|m.stack| - 1].pc)
    && forall t: nat, u: nat :: t in m.stack[|m.stack| - 1].mask && t < |m.threads| && FirstLive(m', mask, u) ==>
         var calls, others := m.threads[t].state.calls, m'.threads[u].state.calls;
         calls != [] && others != [] ==>
           input.recvgPc == p.flow(calls[|calls| - 1].start, others[|others| - 1].ret).point(m.stack[|m.stack| - 1].pc)
  }

  ghost predicate MachineFrames<S>(p: Program, fs: Frames, m: Machine<Local<S>>, mask: set<nat>) {
    && m.stack == Flat(fs) && LanesBelow(mask, |m.threads|)
    && FramesOk(p, fs, mask, Done(m.threads), Pcs(m.threads)) && CallsOk(fs, mask, Done(m.threads), CallsOf(m.threads))
  }

  lemma {:induction false} RegionInside(p: Program, fs: Frames, all: set<nat>, done: set<nat>, pcs: seq<Pc>)
    requires FramesOk(p, fs, all, done, pcs)
    ensures Region(fs, all) <= all && forall i :: 0 <= i < |fs.body| ==> fs.body[i].mask <= Region(fs, all)
    decreases fs
  {
    FlowParts(FlowAt(p, fs.fr), fs.fr.start, fs.body, Region(fs, all), done, pcs);
    InvParts(fs.body, Region(fs, all), done, pcs);
    if fs.Base? {
    } else {
      hide FlowInv, Inv;
      RegionInside(p, fs.below, all, done, Back(pcs, Caller(fs).mask, Caller(fs).pc));
    }
  }

  /** The lanes of the top entry are in the functions of the top frame. */
  lemma TopCalls(fs: Frames, all: set<nat>, done: set<nat>, calls: seq<seq<Frame>>, t: nat)
    requires CallsOk(fs, all, done, calls) && t in Region(fs, all) && t in all && t !in done
    ensures t < |calls| && calls[t] == Calls(fs)
  {
  }

  lemma {:induction false} CallsAgree(fs: Frames, lanes: set<nat>, sub: set<nat>, done: set<nat>, done': set<nat>,
                                      calls: seq<seq<Frame>>, calls': seq<seq<Frame>>)
    requires CallsOk(fs, lanes, done, calls) && sub <= lanes && done <= done' && |calls'| == |calls|
    requires forall t :: t in sub && t !in done' && t < |calls| ==> calls'[t] == calls[t]
    ensures CallsOk(fs, sub, done', calls')
    decreases fs
  {
    if fs.Inner? && fs.below.body != [] {
      CallsAgree(fs.below, lanes - Caller(fs).mask, sub - Caller(fs).mask, done, done', calls, calls');
    }
  }

  lemma CallsJoin(fs: Frames, lanes: set<nat>, more: set<nat>, all: set<nat>, done: set<nat>, calls: seq<seq<Frame>>)
    requires CallsOk(fs, lanes - more, done, calls) && more <= Region(fs, all)
    requires forall t :: t in more ==> t < |calls| && calls[t] == Calls(fs)
    ensures CallsOk(fs, lanes, done, calls)
  {
    if fs.Inner? && fs.below.body != [] {
      assert (lanes - more) - Caller(fs).mask == lanes - Caller(fs).mask;
    }
  }

  /** The body of the top frame plays no part. */
  lemma CallsBody(fs: Frames, r: seq<Entry>, lanes: set<nat>, done: set<nat>, calls: seq<seq<Frame>>)
    ensures Calls(fs.(body := r)) == Calls(fs) && Kernel(fs.(body := r)) == Kernel(fs)
    ensures CallsOk(fs.(body := r), lanes, done, calls) <==> CallsOk(fs, lanes, done, calls)
  {
  }

  /** What the lanes do in a step. */
  ghost predicate LanesStep<S>(p: Program, fs: Frames, mask: set<nat>, m: Machine<Local<S>>, m': Machine<Local<S>>) {
    && fs.body != [] && |m'.threads| == |m.threads| && TopOf(fs).mask != {} && TopOf(fs).mask <= Region(fs, mask)
    && Region(fs, mask) <= mask
    && (forall t :: t in TopOf(fs).mask ==>
          && t < |m.threads| && !m.threads[t].done && m.threads[t].pc == TopOf(fs).pc
          && m.threads[t].state.calls == Calls(fs)
          && LaneMoves(p, TopOf(fs).pc, m.threads[t], m'.threads[t]))
    && (forall t :: 0 <= t < |m.threads| && t !in TopOf(fs).mask ==> m'.threads[t] == m.threads[t])
  }

  lemma BodyThere(p: Program, fs: Frames, all: set<nat>, done: set<nat>, pcs: seq<Pc>)
    requires FramesOk(p, fs, all, done, pcs) && Flat(fs) != []
    ensures fs.body != []
  {
    hide FlowInv;
  }

  lemma StepLanes<S(!new)>(exec: Exec<Local<S>>, p: Program, fs: Frames, mask: set<nat>, m: Machine<Local<S>>,
                           input: Input, m': Machine<Local<S>>)
    requires Obeys(p, exec) && MachineFrames(p, fs, m, mask) && WarpStep(exec, m, input, m')
    ensures LanesStep(p, fs, mask, m, m') && m.stack != []
    ensures m.stack[|m.stack| - 1].pc == TopOf(fs).pc && m.stack[|m.stack| - 1].mask == TopOf(fs).mask
  {
    var done := Done(m.threads);
    hide FramesOk, Flat, LaneMoves, Legal, Updated, Region, CallsOk;
    BodyThere(p, fs, mask, done, Pcs(m.threads));
    RegionInside(p, fs, mask, done, Pcs(m.threads));
    FlatTop(fs);
    var e := TopOf(fs);
    assert e.mask <= Region(fs, mask);
    forall t | t in e.mask
      ensures t < |m.threads| && !m.threads[t].done && m.threads[t].pc == e.pc && m.threads[t].state.calls == Calls(fs)
      ensures LaneMoves(p, e.pc, m.threads[t], m'.threads[t])
    {
      assert t in mask && t !in done;
      TopCalls(fs, mask, done, CallsOf(m.threads), t);
      assert exec(e.pc, t, m.threads[t], m'.threads[t]);
    }
  }

  /** All lanes of the top entry go to `n`, and none ends. */
  lemma LanesGo<S>(p: Program, fs: Frames, mask: set<nat>, m: Machine<Local<S>>, m': Machine<Local<S>>, n: Pc)
    requires LanesStep(p, fs, mask, m, m') && n != NULL_PC
    requires forall t :: t in TopOf(fs).mask ==> !m'.threads[t].done && m'.threads[t].pc == n
    ensures AllGo(TopOf(fs), Done(m.threads), Pcs(m.threads), Pcs(m'.threads), n) && Done(m'.threads) == Done(m.threads)
  {
    hide LaneMoves, Region, Calls;
    forall t | t in Done(m'.threads) ensures t in Done(m.threads) {
      assert t !in TopOf(fs).mask;
    }
    forall t | t in Done(m.threads) ensures t in Done(m'.threads) {
      assert t !in TopOf(fs).mask;
    }
  }

  /** The step is legal, loses no lane, and leads to these frames. */
  ghost predicate Keeps<S>(p: Program, r: Frames, mask: set<nat>, m: Machine<Local<S>>, m': Machine<Local<S>>, v: Pc,
                           op: Op)
  {
    var done', pcs' := Done(m'.threads), Pcs(m'.threads);
    && Legal(m.stack, done', pcs', op) && KeepsLanes(m.stack, done', pcs', v, op)
    && Updated(m.stack, done', pcs', v, op) == Flat(r)
    && FramesOk(p, r, mask, done', pcs') && CallsOk(r, mask, done', CallsOf(m'.threads))
  }

  lemma CallMoves<S>(p: Program, fs: Frames, mask: set<nat>, m: Machine<Local<S>>, m': Machine<Local<S>>)
    requires LanesStep(p, fs, mask, m, m') && p.op(TopOf(fs).pc).CallOp?
    ensures forall t :: t in TopOf(fs).mask ==>
      t < |m'.threads| && !m'.threads[t].done && m'.threads[t].pc ==
        p.target(TopOf(fs).pc) && m'.threads[t].state.calls == Calls(fs) + [Callee(p, TopOf(fs).pc)]
    ensures OthersCalls(TopOf(fs), CallsOf(m.threads), CallsOf(m'.threads))
  {
    hide Calls, Region;
  }

  ghost predicate OthersCalls(e: Entry, calls: seq<seq<Frame>>, calls': seq<seq<Frame>>) {
    |calls'| == |calls| && forall t :: 0 <= t < |calls| && t !in e.mask ==> calls'[t] == calls[t]
  }

  lemma CallsCall(fs: Frames, r: Frames, lanes: set<nat>, done: set<nat>, calls: seq<seq<Frame>>,
                  calls': seq<seq<Frame>>)
    requires fs.body != [] && r.Inner? && r.below == fs && CallsOk(fs, lanes, done, calls)
    requires OthersCalls(TopOf(fs), calls, calls')
    requires forall t :: t in TopOf(fs).mask ==> t < |calls'| && calls'[t] == Calls(fs) + [r.fr]
    ensures CallsOk(r, lanes, done, calls')
  {
    assert Caller(r) == TopOf(fs) && Calls(r) == Calls(fs) + [r.fr];
    CallsAgree(fs, lanes, lanes - TopOf(fs).mask, done, done, calls, calls');
    hide Calls;
  }

  lemma CallStepKeeps<S>(p: Program, kernel: Frame, fs: Frames, mask: set<nat>, m: Machine<Local<S>>,
                         m': Machine<Local<S>>, v: Pc)
    returns (r: Frames)
    requires ProgramOk(p, kernel) && Kernel(fs) == kernel && MachineFrames(p, fs, m, mask)
    requires LanesStep(p, fs, mask, m, m')
    requires p.op(TopOf(fs).pc).CallOp?
    ensures Kernel(r) == kernel && Keeps(p, r, mask, m, m', v, CallOp)
  {
    hide *;
    MachineParts(p, fs, m, mask);
    StepPlace(p, fs, mask, m, m');
    CalleeOk(p, kernel, TopOf(fs).pc);
    CallMoves(p, fs, mask, m, m');
    LanesGo(p, fs, mask, m, m', p.target(TopOf(fs).pc));
    r := CallKeeps(p, kernel, fs, mask, Done(m.threads), Pcs(m.threads), Pcs(m'.threads), v);
    CallsCall(fs, r, mask, Done(m.threads), CallsOf(m.threads), CallsOf(m'.threads));
    SameKernel(r);
    NowKept(p, r, mask, m, m', v, CallOp);
  }

  lemma SameKernel(fs: Frames)
    requires fs.Inner?
    ensures Kernel(fs) == Kernel(fs.below)
  {
  }

  lemma StepPlace<S>(p: Program, fs: Frames, mask: set<nat>, m: Machine<Local<S>>, m': Machine<Local<S>>)
    requires LanesStep(p, fs, mask, m, m')
    ensures fs.body != [] && TopOf(fs).mask != {} && |m'.threads| == |m.threads|
    ensures forall t :: t in TopOf(fs).mask ==>
      t in mask && t !in Done(m.threads) && t < |m.threads| && Pcs(m.threads)[t] == TopOf(fs).pc
    ensures forall t :: t in TopOf(fs).mask ==> m.threads[t].state.calls == Calls(fs)
  {
    hide LaneMoves, Calls, Region;
  }

  lemma MachineParts<S>(p: Program, fs: Frames, m: Machine<Local<S>>, mask: set<nat>)
    requires MachineFrames(p, fs, m, mask)
    ensures m.stack == Flat(fs) && LanesBelow(mask, |m.threads|)
    ensures FramesOk(p, fs, mask, Done(m.threads), Pcs(m.threads))
    ensures CallsOk(fs, mask, Done(m.threads), CallsOf(m.threads))
  {
    hide FramesOk, CallsOk, Flat;
  }

  /** A return in a callee is not predicated. */
  lemma ReturnEdge(p: Program, fr: Frame, c: Pc)
    requires FunctionOk(p, fr) && Tame(p, fr) && p.op(c).RetOp?
    requires Leads(FlowAt(p, fr).g, fr.start, c) && ReachesExit(FlowAt(p, fr).g, c)
    ensures FlowAt(p, fr).g.edge(c, FlowAt(p, fr).g.exit)
  {
    var f := FlowAt(p, fr);
    assert FlowOk(f) && forall b :: f.g.edge(c, b) ==> b == f.g.exit;
    hide FunctionOk, Tame, Leads, ReachesExit, FlowOk;
    var b := FirstEdge(f, c);
  }

  lemma FirstEdge(f: Flow, a: Pc) returns (b: int)
    requires FlowOk(f) && ReachesExit(f.g, a)
    ensures f.g.edge(a, b)
  {
    var q :| IsPath(f.g, q) && q[0] == a;
    b := q[1];
    assert f.g.edge(q[0], q[0 + 1]);
  }

  lemma ReturnMoves<S>(p: Program, fs: Frames, mask: set<nat>, m: Machine<Local<S>>, m': Machine<Local<S>>)
    requires LanesStep(p, fs, mask, m, m') && p.op(TopOf(fs).pc).RetOp? && fs.Inner?
    requires FlowAt(p, fs.fr).g.edge(TopOf(fs).pc, FlowAt(p, fs.fr).g.exit)
    ensures forall t :: t in TopOf(fs).mask ==>
      t < |m'.threads| && !m'.threads[t].done && m'.threads[t].pc == fs.fr.ret && m'.threads[t].state.calls ==
        Calls(fs.below)
    ensures OthersCalls(TopOf(fs), CallsOf(m.threads), CallsOf(m'.threads))
  {
    assert Calls(fs)[..|Calls(fs)| - 1] == Calls(fs.below);
    hide Calls, Region;
  }

  lemma CallsReturn(fs: Frames, r: Frames, all: set<nat>, done: set<nat>, calls: seq<seq<Frame>>,
                    calls': seq<seq<Frame>>)
    requires fs.Inner? && fs.below.body != [] && fs.body != [] && TopOf(fs).mask == Caller(fs).mask
    requires Caller(fs).mask <= Region(fs.below, all)
    requires CallsOk(fs, all, done, calls) && OthersCalls(TopOf(fs), calls, calls') && r == fs.below.(body := r.body)
    requires forall t :: t in TopOf(fs).mask ==> t < |calls'| && calls'[t] == Calls(fs.below)
    ensures CallsOk(r, all, done, calls') && Kernel(r) == Kernel(fs)
  {
    var more := TopOf(fs).mask;
    assert CallsOk(fs.below, all - more, done, calls);
    hide CallsOk, Calls, Region;
    CallsAgree(fs.below, all - more, all - more, done, done, calls, calls');
    CallsJoin(fs.below, all, more, all, done, calls');
    CallsBody(fs.below, r.body, all, done, calls');
  }

  lemma ReturnStepKeeps<S>(p: Program, kernel: Frame, fs: Frames, mask: set<nat>, m: Machine<Local<S>>,
                           m': Machine<Local<S>>, v: Pc)
    returns (r: Frames)
    requires ProgramOk(p, kernel) && Kernel(fs) == kernel && MachineFrames(p, fs, m, mask)
    requires LanesStep(p, fs, mask, m, m')
    requires fs.Inner? && p.op(TopOf(fs).pc).RetOp?
    ensures Kernel(r) == kernel && Keeps(p, r, mask, m, m', v, RetOp)
  {
    hide *;
    var done, pcs, pcs' := Done(m.threads), Pcs(m.threads), Pcs(m'.threads);
    MachineParts(p, fs, m, mask);
    StepPlace(p, fs, mask, m, m');
    FrameIsClean(p, kernel, fs, mask, done, pcs);
    CallerInside(p, fs, mask, done, pcs);
    FrameFlowOk(p, fs.fr);
    TopPlace(p, fs, mask, done, pcs);
    ReturnEdge(p, fs.fr, TopOf(fs).pc);
    ReturnMoves(p, fs, mask, m, m');
    LanesGo(p, fs, mask, m, m', fs.fr.ret);
    ReturnsAsOne(p, fs, mask, done, pcs, fs.fr.ret, pcs');
    SameTop(fs);
    r := ReturnKeeps(p, kernel, fs, mask, done, pcs, pcs', v);
    CallsReturn(fs, r, mask, done, CallsOf(m.threads), CallsOf(m'.threads));
    NowKept(p, r, mask, m, m', v, RetOp);
  }

  lemma NowKept<S>(p: Program, r: Frames, mask: set<nat>, m: Machine<Local<S>>, m': Machine<Local<S>>, v: Pc, op: Op)
    requires Legal(m.stack, Done(m'.threads), Pcs(m'.threads), op)
    requires KeepsLanes(m.stack, Done(m'.threads), Pcs(m'.threads), v, op)
    requires Updated(m.stack, Done(m'.threads), Pcs(m'.threads), v, op) == Flat(r)
    requires FramesOk(p, r, mask, Done(m'.threads), Pcs(m'.threads))
    requires CallsOk(r, mask, Done(m'.threads), CallsOf(m'.threads))
    ensures Keeps(p, r, mask, m, m', v, op)
  {
    hide Legal, KeepsLanes, Updated, FramesOk, CallsOk, Flat;
  }

  lemma CallerInside(p: Program, fs: Frames, all: set<nat>, done: set<nat>, pcs: seq<Pc>)
    requires fs.Inner? && FramesOk(p, fs, all, done, pcs)
    ensures fs.body != [] && fs.below.body != [] && Caller(fs).mask <= Region(fs.below, all)
  {
    hide FlowInv, Straight;
    RegionInside(p, fs.below, all, done, Back(pcs, Caller(fs).mask, Caller(fs).pc));
  }

  // A step that stays in the function.

  lemma PlainMoves<S>(p: Program, fs: Frames, mask: set<nat>, m: Machine<Local<S>>, m': Machine<Local<S>>)
    requires LanesStep(p, fs, mask, m, m') && FlowOk(FlowAt(p, fs.fr)) && LanesBelow(mask, |m.threads|)
    requires TopOf(fs).pc != NULL_PC
    requires !p.op(TopOf(fs).pc).CallOp?
    requires (fs.Inner? ==> !p.op(TopOf(fs).pc).RetOp? && !FlowAt(p, fs.fr).g.edge(TopOf(fs).pc,
      FlowAt(p, fs.fr).g.exit))
    ensures FrameTakes(p, fs, mask, Done(m.threads), Pcs(m.threads), Done(m'.threads), Pcs(m'.threads))
    ensures CallsOf(m'.threads) == CallsOf(m.threads)
  {
    var g, e, done, done', pcs, pcs' := FlowAt(p, fs.fr).g, TopOf(fs), Done(m.threads), Done(m'.threads),
      Pcs(m.threads), Pcs(m'.threads);
    hide Region;
    forall t | t in e.mask
      ensures t < |m.threads| && t !in done && pcs[t] == e.pc && m'.threads[t].state.calls == m.threads[t].state.calls
      ensures if t in done' then g.edge(e.pc, g.exit) else g.edge(e.pc, pcs'[t]) && IsInstruction(pcs'[t])
    {
      assert LaneMoves(p, e.pc, m.threads[t], m'.threads[t]);
    }
    forall t | 0 <= t < |m.threads| && t !in e.mask ensures (t in done' <==> t in done) && pcs'[t] == pcs[t] {
    }
    hide LanesStep, LaneMoves, FlowOk;
    assert fs.Inner? ==> done' == done;
  }

  /** Some lane is the first that is left. */
  lemma Lowest<S>(m: Machine<S>, mask: set<nat>, t: nat) returns (u: nat)
    requires t in mask && t < |m.threads| && !m.threads[t].done && LanesBelow(mask, |m.threads|)
    ensures FirstLive(m, mask, u)
    decreases t
  {
    if l: nat :| l < t && l in mask && !m.threads[l].done {
      u := Lowest(m, mask, l);
    } else {
      u := t;
    }
  }

  lemma {:induction false} SomeCalls(fs: Frames, lanes: set<nat>, done: set<nat>, calls: seq<seq<Frame>>, u: nat)
    requires CallsOk(fs, lanes, done, calls) && u in lanes && u !in done
    ensures u < |calls| && calls[u] != [] && (fs.Base? ==> calls[u] == [fs.fr])
    decreases fs
  {
    if fs.Inner? && fs.below.body != [] && u !in Caller(fs).mask {
      SomeCalls(fs.below, lanes - Caller(fs).mask, done, calls, u);
    }
  }

  /** `update` gets the point of the frame, if a lane of the top entry is left. */
  lemma PointOfFrame<S>(exec: Exec<Local<S>>, p: Program, fs: Frames, mask: set<nat>, m: Machine<Local<S>>,
                        input: Input, m': Machine<Local<S>>, t: nat)
    requires ProgramStep(exec, p, mask, m, input, m') && LanesStep(p, fs, mask, m, m') && LanesBelow(mask, |m.threads|)
    requires m.stack[|m.stack| - 1].pc == TopOf(fs).pc && m.stack[|m.stack| - 1].mask == TopOf(fs).mask
    requires CallsOk(fs, mask, Done(m'.threads), CallsOf(m'.threads))
    requires fs.Inner? ==> forall r: Pc ::
      p.flow(fs.fr.start, r).point(TopOf(fs).pc) == FlowAt(p, fs.fr).point(TopOf(fs).pc)
    requires t in TopOf(fs).mask && !m'.threads[t].done
    ensures input.recvgPc == FlowAt(p, fs.fr).point(TopOf(fs).pc)
  {
    hide WarpStep, LaneMoves, CallsOk;
    assert t in mask;
    var u := Lowest(m', mask, t);
    SomeCalls(fs, mask, Done(m'.threads), CallsOf(m'.threads), u);
    assert m.threads[t].state.calls == Calls(fs);
    hide LanesStep;
  }

  lemma AnyPoint(s: seq<Entry>, done: set<nat>, pcs: seq<Pc>, v: Pc, w: Pc, op: Op)
    requires Legal(s, done, pcs, op) && Live(s, done) == {}
    ensures KeepsLanes(s, done, pcs, w, op) && Updated(s, done, pcs, w, op) == Updated(s, done, pcs, v, op)
  {
  }

  lemma PlainStepKeeps<S>(exec: Exec<Local<S>>, p: Program, kernel: Frame, fs: Frames, mask: set<nat>,
                          m: Machine<Local<S>>, input: Input, m': Machine<Local<S>>)
    returns (r: Frames)
    requires ProgramOk(p, kernel) && Kernel(fs) == kernel && MachineFrames(p, fs, m, mask)
    requires LanesStep(p, fs, mask, m, m')
    requires ProgramStep(exec, p, mask, m, input, m') && !input.op.CallOp? && (fs.Inner? ==> !input.op.RetOp?)
    requires m.stack[|m.stack| - 1].pc == TopOf(fs).pc && m.stack[|m.stack| - 1].mask == TopOf(fs).mask
    ensures Kernel(r) == kernel && Keeps(p, r, mask, m, m', input.recvgPc, input.op)
  {
    hide *;
    var done, done', pcs, pcs' := Done(m.threads), Done(m'.threads), Pcs(m.threads), Pcs(m'.threads);
    MachineParts(p, fs, m, mask);
    StepPlace(p, fs, mask, m, m');
    StepOp(exec, p, mask, m, input, m');
    FrameIsClean(p, kernel, fs, mask, done, pcs);
    TopPlace(p, fs, mask, done, pcs);
    StaysInside(p, fs);
    FrameFlowOk(p, fs.fr);
    PlainMoves(p, fs, mask, m, m');
    var b := PlainKeeps(p, kernel, fs, mask, done, pcs, done', pcs', input.op);
    r := fs.(body := b);
    TakesParts(p, fs, mask, done, pcs, done', pcs');
    MoreDone(p, fs, mask, done, pcs, done', pcs');
    CallsAgree(fs, mask, mask, done, done', CallsOf(m.threads), CallsOf(m'.threads));
    CallsBody(fs, b, mask, done', CallsOf(m'.threads));
    KeptByPoint(exec, p, fs, b, mask, m, input, m');
  }

  lemma StepOp<S>(exec: Exec<Local<S>>, p: Program, mask: set<nat>, m: Machine<Local<S>>, input: Input,
                  m': Machine<Local<S>>)
    requires ProgramStep(exec, p, mask, m, input, m')
    ensures m.stack != [] && input.op == p.op(m.stack[|m.stack| - 1].pc)
  {
    hide Legal, Updated;
  }

  lemma MoreDone(p: Program, fs: Frames, all: set<nat>, done: set<nat>, pcs: seq<Pc>, done': set<nat>, pcs': seq<Pc>)
    requires FrameTakes(p, fs, all, done, pcs, done', pcs')
    ensures done <= done'
  {
    hide Region;
  }

  lemma KeptByPoint<S>(exec: Exec<Local<S>>, p: Program, fs: Frames, b: seq<Entry>, mask: set<nat>,
                       m: Machine<Local<S>>, input: Input, m': Machine<Local<S>>)
    requires fs.body != [] && m.stack != [] && m.stack == Flat(fs) && LanesBelow(mask, |m.threads|)
    requires LanesStep(p, fs, mask, m, m') && ProgramStep(exec, p, mask, m, input, m')
    requires m.stack[|m.stack| - 1].pc == TopOf(fs).pc && m.stack[|m.stack| - 1].mask == TopOf(fs).mask
    requires fs.Inner? ==> forall r: Pc ::
      p.flow(fs.fr.start, r).point(TopOf(fs).pc) == FlowAt(p, fs.fr).point(TopOf(fs).pc)
    requires UpdatesFrame(fs, b, Done(m'.threads), Pcs(m'.threads), FlowAt(p, fs.fr).point(TopOf(fs).pc), input.op)
    requires FramesOk(p, fs.(body := b), mask, Done(m'.threads), Pcs(m'.threads))
    requires CallsOk(fs, mask, Done(m'.threads), CallsOf(m'.threads))
    requires CallsOk(fs.(body := b), mask, Done(m'.threads), CallsOf(m'.threads))
    ensures Keeps(p, fs.(body := b), mask, m, m', input.recvgPc, input.op)
  {
    hide *;
    var v, done', pcs' := FlowAt(p, fs.fr).point(TopOf(fs).pc), Done(m'.threads), Pcs(m'.threads);
    if t :| t in TopOf(fs).mask && t !in done' {
      ThreadCount(p, fs, mask, m, m', t);
      PointOfFrame(exec, p, fs, mask, m, input, m', t);
    } else {
      NobodyLeft(m.stack, done');
      AnyFrame(fs, b, m.stack, done', pcs', v, input.recvgPc, input.op);
    }
    AreKept(p, fs, b, mask, m, m', input.recvgPc, input.op);
  }

  lemma NobodyLeft(s: seq<Entry>, done: set<nat>)
    requires s != [] && forall t :: t in s[|s| - 1].mask ==> t in done
    ensures Live(s, done) == {}
  {
  }

  lemma AnyFrame(fs: Frames, b: seq<Entry>, s: seq<Entry>, done: set<nat>, pcs: seq<Pc>, v: Pc, w: Pc, op: Op)
    requires s != [] && s == Flat(fs) && UpdatesFrame(fs, b, done, pcs, v, op) && Live(s, done) == {}
    ensures UpdatesFrame(fs, b, done, pcs, w, op)
  {
    hide Flat, Legal, Live, Updated, KeepsLanes;
    AnyPoint(s, done, pcs, v, w, op);
  }

  lemma AreKept<S>(p: Program, fs: Frames, b: seq<Entry>, mask: set<nat>, m: Machine<Local<S>>, m': Machine<Local<S>>,
                   v: Pc, op: Op)
    requires m.stack == Flat(fs) && UpdatesFrame(fs, b, Done(m'.threads), Pcs(m'.threads), v, op)
    requires FramesOk(p, fs.(body := b), mask, Done(m'.threads), Pcs(m'.threads))
    requires CallsOk(fs.(body := b), mask, Done(m'.threads), CallsOf(m'.threads))
    ensures Keeps(p, fs.(body := b), mask, m, m', v, op)
  {
    hide FramesOk, CallsOk, Legal, KeepsLanes, Updated, Flat;
  }

  lemma ThreadCount<S>(p: Program, fs: Frames, mask: set<nat>, m: Machine<Local<S>>, m': Machine<Local<S>>, t: nat)
    requires LanesStep(p, fs, mask, m, m') && t in TopOf(fs).mask
    ensures t < |m'.threads| && |m'.threads| == |m.threads| && (t !in Done(m'.threads) ==> !m'.threads[t].done)
  {
    hide LaneMoves, Region, Calls;
  }

  /** A callee that is tame does not end here, and does not wait for the return. */
  lemma StaysInside(p: Program, fs: Frames)
    requires fs.body != [] && Leads(FlowAt(p, fs.fr).g, fs.fr.start, TopOf(fs).pc) && (fs.Inner? ==> Tame(p, fs.fr))
    ensures fs.Inner? ==> forall r: Pc ::
      p.flow(fs.fr.start, r).point(TopOf(fs).pc) == FlowAt(p, fs.fr).point(TopOf(fs).pc)
    ensures fs.Inner? && !p.op(TopOf(fs).pc).RetOp? ==> !FlowAt(p, fs.fr).g.edge(TopOf(fs).pc, FlowAt(p, fs.fr).g.exit)
  {
    hide Leads, Untabled, ExitSplit;
  }

  // ---------------------------------------------------------------------------------
  // Runs

  /** Every step of a program is a legal lock-step that loses no lane. */
  lemma ProgramStepKeeps<S(!new)>(exec: Exec<Local<S>>, p: Program, kernel: Frame, fs: Frames, mask: set<nat>,
                                  m: Machine<Local<S>>, input: Input, m': Machine<Local<S>>)
    returns (r: Frames)
    requires ProgramOk(p, kernel) && Obeys(p, exec) && Kernel(fs) == kernel && MachineFrames(p, fs, m, mask)
    requires ProgramStep(exec, p, mask, m, input, m')
    ensures LockStep(exec, m, input, m') && Kernel(r) == kernel && MachineFrames(p, r, m', mask)
  {
    hide MachineFrames, ProgramOk, Obeys, WarpStep, Kernel, LanesStep, Keeps;
    StepLanes(exec, p, fs, mask, m, input, m');
    if input.op.CallOp? {
      r := CallStepKeeps(p, kernel, fs, mask, m, m', input.recvgPc);
    } else if input.op.RetOp? && fs.Inner? {
      r := ReturnStepKeeps(p, kernel, fs, mask, m, m', input.recvgPc);
    } else {
      r := PlainStepKeeps(exec, p, kernel, fs, mask, m, input, m');
    }
    KeptMachine(exec, p, fs, r, mask, m, input, m');
  }

  lemma KeptMachine<S>(exec: Exec<Local<S>>, p: Program, fs: Frames, r: Frames, mask: set<nat>, m: Machine<Local<S>>,
                       input: Input, m': Machine<Local<S>>)
    requires WarpStep(exec, m, input, m') && Keeps(p, r, mask, m, m', input.recvgPc, input.op)
    requires MachineFrames(p, fs, m, mask)
    ensures LockStep(exec, m, input, m') && MachineFrames(p, r, m', mask)
  {
    hide FramesOk, CallsOk, Legal, KeepsLanes, Updated, Flat, LockStep;
    StepIsLock(exec, m, input, m');
  }

  lemma LiveInRegion(p: Program, fs: Frames, all: set<nat>, done: set<nat>, pcs: seq<Pc>, t: nat) returns (u: nat)
    requires FramesOk(p, fs, all, done, pcs) && t in all && t !in done
    ensures u in Region(fs, all) - done
  {
    hide FlowInv;
    if fs.Base? {
      u := t;
    } else {
      u :| u in Caller(fs).mask;
    }
  }

  /** As long as a lane is left, all lanes of the top entry are alive, at its PC. */
  lemma FramesLive(p: Program, fs: Frames, all: set<nat>, done: set<nat>, pcs: seq<Pc>, t: nat)
    requires FramesOk(p, fs, all, done, pcs) && t in all && t !in done
    ensures fs.body != [] && TopOf(fs).mask != {}
    ensures forall u :: u in TopOf(fs).mask ==> u in all && u !in done && u < |pcs| && pcs[u] == TopOf(fs).pc
  {
    hide *;
    var u := LiveInRegion(p, fs, all, done, pcs, t);
    RegionInside(p, fs, all, done, pcs);
    TopFlow(p, fs, all, done, pcs);
    RegionBelow(p, fs, all, done, pcs);
    TopLanes(FlowAt(p, fs.fr), fs.fr.start, fs.body, Region(fs, all), done, pcs, u);
    SameTop(fs);
  }

  lemma RegionBelow(p: Program, fs: Frames, all: set<nat>, done: set<nat>, pcs: seq<Pc>)
    requires FlowInv(FlowAt(p, fs.fr), fs.fr.start, fs.body, Region(fs, all), done, pcs)
    ensures forall t :: t in Region(fs, all) ==> t < |pcs|
  {
  }

  lemma MachineLive<S>(p: Program, fs: Frames, m: Machine<Local<S>>, mask: set<nat>)
    requires MachineFrames(p, fs, m, mask) && SomeLive(m, mask)
    ensures TopIsLive(m)
  {
    hide FramesOk, CallsOk, Flat;
    var t :| t in mask && t < |m.threads| && !m.threads[t].done;
    FramesLive(p, fs, mask, Done(m.threads), Pcs(m.threads), t);
    FlatTop(fs);
  }

  ghost predicate ProgramRun<S>(exec: Exec<Local<S>>, p: Program, kernel: Frame, mask: set<nat>,
                                ms: seq<Machine<Local<S>>>, inputs: seq<Input>)
  {
    && |ms| == |inputs| + 1
    && Launched(ms[0], kernel.start, mask)
    && (forall t :: t in mask ==> !ms[0].threads[t].done && ms[0].threads[t].state.calls == [kernel])
    && forall i :: 0 <= i < |inputs| ==> ProgramStep(exec, p, mask, ms[i], inputs[i], ms[i + 1])
  }

  lemma LaunchFrames<S>(p: Program, kernel: Frame, m: Machine<Local<S>>, mask: set<nat>) returns (fs: Frames)
    requires FunctionOk(p, kernel) && Launched(m, kernel.start, mask)
    requires forall t :: t in mask ==> !m.threads[t].done && m.threads[t].state.calls == [kernel]
    ensures Kernel(fs) == kernel && MachineFrames(p, fs, m, mask)
  {
    fs := Base(kernel, m.stack);
    StartFlow(FlowAt(p, kernel), kernel.start, mask, Done(m.threads), Pcs(m.threads));
    hide FlowInv, FunctionOk;
  }

  lemma ProgramRunStep<S>(exec: Exec<Local<S>>, p: Program, kernel: Frame, mask: set<nat>, ms: seq<Machine<Local<S>>>,
                          inputs: seq<Input>, i: nat)
    requires ProgramRun(exec, p, kernel, mask, ms, inputs) && i < |inputs|
    ensures |ms| == |inputs| + 1 && ProgramStep(exec, p, mask, ms[i], inputs[i], ms[i + 1])
  {
    hide ProgramStep, Launched;
  }

  lemma {:induction false} ProgramRunKeeps<S(!new)>(exec: Exec<Local<S>>, p: Program, kernel: Frame, mask: set<nat>,
                                                    ms: seq<Machine<Local<S>>>, inputs: seq<Input>, n: nat)
    returns (fs: Frames)
    requires ProgramOk(p, kernel) && Obeys(p, exec) && ProgramRun(exec, p, kernel, mask, ms, inputs)
    requires n <= |inputs| < |ms|
    ensures Kernel(fs) == kernel && MachineFrames(p, fs, ms[n], mask)
  {
    if n == 0 {
      hide MachineFrames, Launched, FunctionOk, ProgramStep, Clean;
      fs := LaunchFrames(p, kernel, ms[0], mask);
    } else {
      hide *;
      var before := ProgramRunKeeps(exec, p, kernel, mask, ms, inputs, n - 1);
      ProgramRunStep(exec, p, kernel, mask, ms, inputs, n - 1);
      fs := ProgramStepKeeps(exec, p, kernel, before, mask, ms[n - 1], inputs[n - 1], ms[n]);
    }
  }

  lemma ProgramRunLock<S(!new)>(exec: Exec<Local<S>>, p: Program, kernel: Frame, mask: set<nat>,
                                ms: seq<Machine<Local<S>>>, inputs: seq<Input>, i: nat)
    requires ProgramOk(p, kernel) && Obeys(p, exec) && ProgramRun(exec, p, kernel, mask, ms, inputs)
    requires i < |inputs| < |ms|
    ensures LockStep(exec, ms[i], inputs[i], ms[i + 1])
  {
    hide *;
    var fs := ProgramRunKeeps(exec, p, kernel, mask, ms, inputs, i);
    ProgramRunStep(exec, p, kernel, mask, ms, inputs, i);
    var r := ProgramStepKeeps(exec, p, kernel, fs, mask, ms[i], inputs[i], ms[i + 1]);
  }

  /** In every run of a program whose kernel is clean and whose callees return as one, no
      update loses a lane, and as long as a lane is left the next instruction passes the
      assertions. */
  lemma ProgramRunIsRun<S(!new)>(exec: Exec<Local<S>>, p: Program, kernel: Frame, mask: set<nat>,
                                 ms: seq<Machine<Local<S>>>, inputs: seq<Input>, n: nat)
    requires ProgramOk(p, kernel) && Obeys(p, exec) && ProgramRun(exec, p, kernel, mask, ms, inputs) && n <= |inputs|
    ensures Run(exec, kernel.start, mask, ms, inputs) && (SomeLive(ms[n], mask) ==> TopIsLive(ms[n]))
  {
    hide ProgramOk, Obeys, LockStep, ProgramStep, MachineFrames, TopIsLive, SomeLive, Launched;
    forall i | 0 <= i < |inputs| ensures LockStep(exec, ms[i], inputs[i], ms[i + 1]) {
      ProgramRunLock(exec, p, kernel, mask, ms, inputs, i);
    }
    if SomeLive(ms[n], mask) {
      var fs := ProgramRunKeeps(exec, p, kernel, mask, ms, inputs, n);
      MachineLive(p, fs, ms[n], mask);
    }
  }
}
