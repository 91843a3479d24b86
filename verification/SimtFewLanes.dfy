/** Warps of one or two lanes. A lane that is on its own cannot split again, so only a branch
    that reconverges at the return address can go wrong, and only for two lanes. */
module SimtFewLanes {
  import opened PostDominance
  import opened SimtStack
  import opened SimtSafety
  import opened SimtRuns
  import opened SimtFlow
  import opened SimtUpdates

  /** At most two lanes; if there are two, no way back. */
  ghost predicate FewOk(f: Flow, start: Pc, all: set<nat>) {
    |all| <= 2 && (|all| == 2 ==> NoWayBack(f, start))
  }

  // ---------------------------------------------------------------------------------
  // What the stack looks like

  /** The lanes of the entry are alive, at its PC. */
  ghost predicate Sits(e: Entry, all: set<nat>, done: set<nat>, pcs: seq<Pc>) {
    e.kind.Normal? && e.mask != {} && e.mask <= all && e.mask !! done && forall t :: t in e.mask ==>
      t < |pcs| && pcs[t] == e.pc
  }

  ghost predicate Disjoint(s: seq<Entry>) {
    forall i, j, t :: 0 <= i < j < |s| && t in s[i].mask ==> t !in s[j].mask
  }

  ghost predicate Holds(s: seq<Entry>, t: nat) {
    exists i :: 0 <= i < |s| && t in s[i].mask
  }

  /** Every entry waits for nothing, and every live lane is in one. */
  ghost predicate Roots(s: seq<Entry>, all: set<nat>, done: set<nat>, pcs: seq<Pc>) {
    && s != [] && Disjoint(s)
    && (forall i :: 0 <= i < |s| ==> s[i].rpc == NULL_PC && Sits(s[i], all, done, pcs))
    && (forall t :: t in all && t !in done ==> Holds(s, t))
  }

  /** A lane on its own that waits for `v`. */
  ghost predicate Kids(kids: seq<Entry>, v: Pc, all: set<nat>, done: set<nat>, pcs: seq<Pc>) {
    && Disjoint(kids)
    && forall i :: 0 <= i < |kids| ==>
      kids[i].rpc == v && kids[i].pc != v && |kids[i].mask| == 1 && Sits(kids[i], all, done, pcs)
  }

  /** Everyone gets to `v`: those without an entry of their own are there. */
  ghost predicate Meeting(f: Flow, kids: seq<Entry>, v: Pc, all: set<nat>, done: set<nat>, pcs: seq<Pc>) {
    && (forall i :: 0 <= i < |kids| ==> PostDominates(f.g, v, kids[i].pc))
    && (forall t :: t in all && !Holds(kids, t) ==> t !in done && t < |pcs| && pcs[t] == v)
  }

  /** Everyone ends: those without an entry of their own have. */
  ghost predicate Ending(f: Flow, kids: seq<Entry>, v: Pc, all: set<nat>, done: set<nat>) {
    && v == f.ret && (forall i :: 0 <= i < |kids| ==> Gone(f, kids[i].pc))
    && (forall t :: t in all && !Holds(kids, t) ==> t in done)
  }

  /** Both lanes wait in the bottom entry, for the lanes that still have one of their own. */
  ghost predicate Parted(f: Flow, s: seq<Entry>, all: set<nat>, done: set<nat>, pcs: seq<Pc>) {
    && |s| >= 2 && s[0] == Entry(s[0].pc, all, NULL_PC, Normal) && s[0].pc != NULL_PC
    && Kids(s[1..], s[0].pc, all, done, pcs)
    && (Meeting(f, s[1..], s[0].pc, all, done, pcs) || Ending(f, s[1..], s[0].pc, all, done))
  }

  ghost predicate Over(s: seq<Entry>, all: set<nat>, done: set<nat>) {
    all <= done && forall i :: 0 <= i < |s| ==> s[i].mask <= all
  }

  ghost predicate FewInv(f: Flow, start: Pc, s: seq<Entry>, all: set<nat>, done: set<nat>, pcs: seq<Pc>) {
    && LanesBelow(all, |pcs|) && OnCourse(f, start, all, done, pcs)
    && (Roots(s, all, done, pcs) || Parted(f, s, all, done, pcs) || Over(s, all, done))
  }

  // ---------------------------------------------------------------------------------
  // One step

  lemma SizeOne(a: set<nat>, t: nat)
    requires |a| == 1 && t in a
    ensures a == {t}
  {
    assert |a - {t}| == 0;
    assert a == (a - {t}) + {t};
  }

  lemma TwoOf(a: set<nat>, t: nat, u: nat)
    requires |a| <= 2 && t in a && u in a && t != u
    ensures a == {t, u} && |a| == 2
  {
    assert |a - {t}| == |a| - 1;
    SizeOne(a - {t}, u);
    assert a == (a - {t}) + {t};
  }

  /** The lanes left in the top entry go on together. */
  ghost predicate Together(e: Entry, done': set<nat>, pcs': seq<Pc>)
    requires LanesBelow(e.mask, |pcs'|)
  {
    var live := e.mask - done';
    forall t :: t in live ==> pcs'[t] == pcs'[Highest(live)]
  }

  /** What is left of the top entry after such a step. */
  ghost function Left(e: Entry, done': set<nat>, pcs': seq<Pc>): seq<Entry>
    requires LanesBelow(e.mask, |pcs'|)
  {
    var live := e.mask - done';
    if live == {} || pcs'[Highest(live)] == e.rpc then [] else [Entry(pcs'[Highest(live)], live, e.rpc, Normal)]
  }

  lemma TogetherUpdate(base: seq<Entry>, e: Entry, done': set<nat>, pcs': seq<Pc>, v: Pc, op: Op)
    requires e.kind.Normal? && e.mask != {} && LanesBelow(e.mask, |pcs'|) && !op.CallOp?
    requires Together(e, done', pcs') && forall t :: t in e.mask - done' ==> pcs'[t] != NULL_PC
    ensures Legal(base + [e], done', pcs', op) && !IsSpecial(base + [e], op)
    ensures KeepsLanes(base + [e], done', pcs', v, op)
    ensures Updated(base + [e], done', pcs', v, op) == base + Left(e, done', pcs')
  {
    var s, live := base + [e], e.mask - done';
    assert s[..|s| - 1] == base && Live(s, done') == live;
    if live == {} {
      assert base + [] == base;
    } else {
      var c := pcs'[Highest(live)];
      UpdatedRest(base, e, done', pcs', v, c);
      OneGroup(live, pcs', c);
      KeptOne(e, c);
      assert base + [] == base;
    }
    OtherwiseSame(s, done', pcs', v, op);
  }

  lemma OnlyOne(e: Entry, done': set<nat>, pcs': seq<Pc>)
    requires |e.mask| == 1 && LanesBelow(e.mask, |pcs'|)
    ensures Together(e, done', pcs')
  {
    var t := Highest(e.mask);
    SizeOne(e.mask, t);
  }

  /** Only these lanes move or end. */
  ghost predicate OnlyThese(a: set<nat>, all: set<nat>, done: set<nat>, pcs: seq<Pc>, done': set<nat>, pcs': seq<Pc>) {
    && LanesBelow(all, |pcs|) && |pcs'| == |pcs| && a <= all && done <= done'
    && (forall t :: t in done' && t !in done ==> t in a)
    && forall t :: t in all && t !in a ==> pcs'[t] == pcs[t]
  }

  lemma TopOnly(f: Flow, s: seq<Entry>, all: set<nat>, done: set<nat>, pcs: seq<Pc>, done': set<nat>, pcs': seq<Pc>)
    requires Takes(f, s, all, done, pcs, done', pcs')
    ensures OnlyThese(s[|s| - 1].mask, all, done, pcs, done', pcs')
  {
  }

  lemma StillSits(e: Entry, a: set<nat>, all: set<nat>, done: set<nat>, pcs: seq<Pc>, done': set<nat>, pcs': seq<Pc>)
    requires OnlyThese(a, all, done, pcs, done', pcs') && Sits(e, all, done, pcs) && forall t :: t in e.mask ==> t !in a
    ensures Sits(e, all, done', pcs')
  {
  }

  lemma LeftSits(e: Entry, all: set<nat>, done': set<nat>, pcs': seq<Pc>)
    requires LanesBelow(e.mask, |pcs'|) && e.mask <= all && Together(e, done', pcs') && Left(e, done', pcs') != []
    ensures var r := Left(e, done', pcs')[0];
      Sits(r, all, done', pcs') && r.mask == e.mask - done' && r.rpc == e.rpc && r.pc != e.rpc
  {
  }

  lemma LowerSit(s: seq<Entry>, all: set<nat>, done: set<nat>, pcs: seq<Pc>, done': set<nat>, pcs': seq<Pc>)
    requires Roots(s, all, done, pcs) && OnlyThese(s[|s| - 1].mask, all, done, pcs, done', pcs')
    ensures forall i :: 0 <= i < |s| ==> s[i].rpc == NULL_PC
    ensures forall i :: 0 <= i < |s| - 1 ==> Sits(s[i], all, done', pcs')
  {
    forall i | 0 <= i < |s| - 1 ensures Sits(s[i], all, done', pcs') {
      StillSits(s[i], s[|s| - 1].mask, all, done, pcs, done', pcs');
    }
  }

  /** After a step of the roots in which the top lanes stay together. */
  lemma RootsGoOn(s: seq<Entry>, all: set<nat>, done: set<nat>, pcs: seq<Pc>, done': set<nat>, pcs': seq<Pc>)
    requires s != [] && OnlyThese(s[|s| - 1].mask, all, done, pcs, done', pcs') && Roots(s, all, done, pcs)
    requires Together(s[|s| - 1], done', pcs') && forall t :: t in s[|s| - 1].mask - done' ==> pcs'[t] != NULL_PC
    ensures var r := s[..|s| - 1] + Left(s[|s| - 1], done', pcs'); Roots(r, all, done', pcs') || Over(r, all, done')
  {
    var n, e := |s| - 1, s[|s| - 1];
    var left := Left(e, done', pcs');
    var r := s[..n] + left;
    LowerSit(s, all, done, pcs, done', pcs');
    hide Roots, Over;
    forall t | t in e.mask ensures t in done' || e.mask - done' != {} {
      assert t in done' || t in e.mask - done';
    }
    assert left == [] <==> e.mask <= done';
    if left != [] {
      LeftSits(e, all, done', pcs');
    }
    assert forall i :: 0 <= i < n ==> r[i] == s[i];
    assert left != [] ==> r[n] == left[0];
    hide *;
    StillHeld(s, r, all, done, done', pcs);
    AreRoots(r, all, done', pcs');
  }

  lemma AreRoots(r: seq<Entry>, all: set<nat>, done: set<nat>, pcs: seq<Pc>)
    requires Disjoint(r) && (forall i :: 0 <= i < |r| ==> r[i].rpc == NULL_PC && Sits(r[i], all, done, pcs))
    requires (forall t :: t in all && t !in done ==> Holds(r, t)) && (r == [] ==> all <= done)
    ensures Roots(r, all, done, pcs) || Over(r, all, done)
  {
  }

  lemma StillHeld(s: seq<Entry>, r: seq<Entry>, all: set<nat>, done: set<nat>, done': set<nat>, pcs: seq<Pc>)
    requires s != [] && Roots(s, all, done, pcs) && done <= done' && |s| - 1 <= |r| <= |s|
    requires forall i :: 0 <= i < |s| - 1 ==> r[i] == s[i]
    requires if |r| == |s| then r[|s| - 1].mask == s[|s| - 1].mask - done' else s[|s| - 1].mask <= done'
    ensures Disjoint(r) && (forall t :: t in all && t !in done' ==> Holds(r, t)) && (r == [] ==> all <= done')
  {
    hide Sits;
    forall t | t in all && t !in done' ensures Holds(r, t) {
      assert Holds(s, t);
      var i :| 0 <= i < |s| && t in s[i].mask;
      assert t in r[i].mask;
    }
    if r == [] {
      assert forall t :: !Holds(r, t);
    }
  }

  ghost function NextKids(kids: seq<Entry>, done': set<nat>, pcs': seq<Pc>): seq<Entry>
    requires kids != [] && LanesBelow(kids[|kids| - 1].mask, |pcs'|)
  {
    kids[..|kids| - 1] + Left(kids[|kids| - 1], done', pcs')
  }

  /** The last lane on its own goes on, or has no entry of its own any more. */
  ghost predicate KidMoved(kids: seq<Entry>, kids': seq<Entry>, v: Pc, done': set<nat>, pcs': seq<Pc>, t: nat)
    requires t < |pcs'|
  {
    && Holds(kids, t) && (Holds(kids', t) <==> t !in done' && pcs'[t] != v)
    && (forall u :: u != t ==> (Holds(kids', u) <==> Holds(kids, u)))
    && |kids| - 1 <= |kids'| && forall i :: 0 <= i < |kids'| ==>
      kids'[i].pc == if i < |kids| - 1 then kids[i].pc else pcs'[t]
  }

  lemma KidsGoOn(all: set<nat>, done: set<nat>, pcs: seq<Pc>, done': set<nat>, pcs': seq<Pc>, kids: seq<Entry>, v: Pc,
                 t: nat)
    requires kids != [] && kids[|kids| - 1].mask == {t} && OnlyThese({t}, all, done, pcs, done', pcs')
    requires Kids(kids, v, all, done, pcs)
    ensures Kids(NextKids(kids, done', pcs'), v, all, done', pcs')
    ensures KidMoved(kids, NextKids(kids, done', pcs'), v, done', pcs', t)
  {
    var m, kids' := |kids| - 1, NextKids(kids, done', pcs');
    var e := kids[m];
    assert Sits(e, all, done, pcs) && t in kids[m].mask;
    OnlyOne(e, done', pcs');
    assert e.mask - done' == if t in done' then {} else {t};
    if Left(e, done', pcs') != [] {
      LeftSits(e, all, done', pcs');
    }
    forall i | 0 <= i < m ensures t !in kids'[i].mask && Sits(kids'[i], all, done', pcs') {
      StillSits(kids[i], {t}, all, done, pcs, done', pcs');
    }
    forall u | u != t ensures Holds(kids', u) <==> Holds(kids, u) {
      if i :| 0 <= i < |kids| && u in kids[i].mask {
        assert i < m && u in kids'[i].mask;
      }
      if i :| 0 <= i < |kids'| && u in kids'[i].mask {
        assert i < m && u in kids[i].mask;
      }
    }
    if t !in done' && pcs'[t] != v {
      assert t in kids'[m].mask;
    }
  }

  lemma MeetingGoesOn(f: Flow, all: set<nat>, done: set<nat>, pcs: seq<Pc>, done': set<nat>, pcs': seq<Pc>,
                      kids: seq<Entry>, kids': seq<Entry>, v: Pc, t: nat)
    requires kids != [] && OnlyThese({t}, all, done, pcs, done', pcs') && KidMoved(kids, kids', v, done', pcs', t)
    requires Meeting(f, kids, v, all, done, pcs) && f.g.exit < 0 && v != kids[|kids| - 1].pc
    requires if t in done' then f.g.edge(kids[|kids| - 1].pc, f.g.exit) else f.g.edge(kids[|kids| - 1].pc, pcs'[t])
    ensures Meeting(f, kids', v, all, done', pcs')
  {
    var e := kids[|kids| - 1];
    if t in done' {
      OnlyExit(f.g, v, e.pc);
      assert false;
    }
    SuccessorPostDominated(f.g, v, e.pc, pcs'[t]);
    hide PostDominates, Holds;
    forall i | 0 <= i < |kids'| ensures PostDominates(f.g, v, kids'[i].pc) {
      assert i < |kids| - 1 ==> PostDominates(f.g, v, kids[i].pc);
    }
    forall u | u in all && !Holds(kids', u) ensures u !in done' && u < |pcs'| && pcs'[u] == v {
      assert u != t ==> u !in done && pcs[u] == v;
    }
  }

  lemma EndingGoesOn(f: Flow, all: set<nat>, done: set<nat>, pcs: seq<Pc>, done': set<nat>, pcs': seq<Pc>,
                     kids: seq<Entry>, kids': seq<Entry>, v: Pc, t: nat)
    requires kids != [] && OnlyThese({t}, all, done, pcs, done', pcs') && KidMoved(kids, kids', v, done', pcs', t)
    requires Ending(f, kids, v, all, done) && |kids'| <= |kids|
    requires t !in done' ==> f.g.edge(kids[|kids| - 1].pc, pcs'[t])
    requires t in done' ==> |kids'| == |kids| - 1
    ensures Ending(f, kids', v, all, done')
  {
    if t !in done' {
      GoneStep(f, kids[|kids| - 1].pc, pcs'[t]);
      LeadsSelf(f.g, f.ret);
    }
    hide Holds, Leads;
  }

  /** After a step of a lane on its own that waits. */
  lemma KidGoesOn(f: Flow, s: seq<Entry>, all: set<nat>, done: set<nat>, pcs: seq<Pc>, done': set<nat>, pcs': seq<Pc>)
    requires FlowOk(f) && Takes(f, s, all, done, pcs, done', pcs') && Parted(f, s, all, done, pcs)
    ensures var r := s[..|s| - 1] + Left(s[|s| - 1], done', pcs');
      Roots(r, all, done', pcs') || Parted(f, r, all, done', pcs') || Over(r, all, done')
  {
    var n, e, v, kids := |s| - 1, s[|s| - 1], s[0].pc, s[1..];
    var t := Highest(e.mask);
    assert e == kids[n - 1] && Kids(kids, v, all, done, pcs) && v != e.pc;
    SizeOne(e.mask, t);
    TopOnly(f, s, all, done, pcs, done', pcs');
    assert t in e.mask && f.g.exit < 0;
    assert t !in done && if t in done' then f.g.edge(e.pc, f.g.exit) else f.g.edge(e.pc, pcs'[t]);
    var kids' := NextKids(kids, done', pcs');
    KidsOf(s, Left(e, done', pcs'));
    assert |kids'| <= |kids| && (t in done' ==> |kids'| == |kids| - 1);
    assert Meeting(f, kids, v, all, done, pcs) || Ending(f, kids, v, all, done);
    assert s[0] == Entry(v, all, NULL_PC, Normal) && v != NULL_PC;
    hide *;
    KidsGoOn(all, done, pcs, done', pcs', kids, v, t);
    if Meeting(f, kids, v, all, done, pcs) {
      MeetingGoesOn(f, all, done, pcs, done', pcs', kids, kids', v, t);
    } else {
      EndingGoesOn(f, all, done, pcs, done', pcs', kids, kids', v, t);
    }
    WithoutKids(f, s[0], kids', all, done', pcs');
  }

  lemma KidsOf(s: seq<Entry>, left: seq<Entry>)
    requires |s| >= 2
    ensures s[..|s| - 1] + left == [s[0]] + (s[1..][..|s| - 2] + left)
  {
  }

  /** The waiting entry is the top again when it has no more kids. */
  lemma WithoutKids(f: Flow, e: Entry, kids: seq<Entry>, all: set<nat>, done: set<nat>, pcs: seq<Pc>)
    requires e == Entry(e.pc, all, NULL_PC, Normal) && e.pc != NULL_PC && Kids(kids, e.pc, all, done, pcs) && all != {}
    requires Meeting(f, kids, e.pc, all, done, pcs) || Ending(f, kids, e.pc, all, done)
    ensures Roots([e] + kids, all, done, pcs) || Parted(f, [e] + kids, all, done, pcs) || Over([e] + kids, all, done)
  {
    var r := [e] + kids;
    assert r[1..] == kids;
    if kids == [] {
      assert r == [e];
      assert forall u :: !Holds(kids, u);
      assert forall u :: u in all ==> Holds(r, u) by {
        assert forall u :: u in all ==> u in r[0].mask;
      }
    }
  }

  lemma OnlyRoot(s: seq<Entry>, all: set<nat>, done: set<nat>, pcs: seq<Pc>)
    requires Roots(s, all, done, pcs) && s[|s| - 1].mask == all
    ensures |s| == 1
  {
    if |s| > 1 {
      InsideAndApart(s[0].mask, all);
    }
  }

  lemma InsideAndApart(a: set<nat>, b: set<nat>)
    ensures a <= b && a !! b ==> a == {}
  {
    assert a <= b && a !! b ==> forall t :: t in a ==> t in b && t !in b;
  }

  lemma Strays(e: Entry, done': set<nat>, pcs': seq<Pc>) returns (t: nat, u: nat)
    requires LanesBelow(e.mask, |pcs'|) && !Together(e, done', pcs')
    ensures t in e.mask && u in e.mask && t !in done' && u !in done' && t < |pcs'| && u < |pcs'| && pcs'[t] != pcs'[u]
  {
    u := Highest(e.mask - done');
    t :| t in e.mask - done' && pcs'[t] != pcs'[u];
  }

  /** If the top lanes do not stay together, they are all there are. */
  lemma OtherLane(s: seq<Entry>, all: set<nat>, done: set<nat>, pcs: seq<Pc>, done': set<nat>, pcs': seq<Pc>)
    returns (l: nat)
    requires LanesBelow(all, |pcs'|) && Roots(s, all, done, pcs) && |all| <= 2 && s[|s| - 1].mask <= all
    requires !Together(s[|s| - 1], done', pcs')
    ensures s == [s[0]] && s[0].mask == all && |all| == 2
    ensures all == {Highest(all), l} && l != Highest(all) && all !! done' && pcs'[Highest(all)] != pcs'[l]
  {
    var e := s[|s| - 1];
    hide *;
    var t, u := Strays(e, done', pcs');
    TwoOf(all, t, u);
    assert e.mask == all;
    OnlyRoot(s, all, done, pcs);
    l := if t == Highest(all) then u else t;
  }

  /** A split without a point. */
  lemma TwoRoots(all: set<nat>, done': set<nat>, pcs': seq<Pc>, h: nat, l: nat)
    requires all == {h, l} && h != l && all !! done' && LanesBelow(all, |pcs'|)
    requires pcs'[h] != NULL_PC && pcs'[l] != NULL_PC
    ensures Roots(Kid(pcs'[h], {h}, NULL_PC, NULL_PC) + Kid(pcs'[l], {l}, NULL_PC, NULL_PC), all, done', pcs')
  {
    var r := Kid(pcs'[h], {h}, NULL_PC, NULL_PC) + Kid(pcs'[l], {l}, NULL_PC, NULL_PC);
    assert r == [Entry(pcs'[h], {h}, NULL_PC, Normal), Entry(pcs'[l], {l}, NULL_PC, Normal)];
    assert h in r[0].mask && l in r[1].mask;
  }

  /** The entries of two lanes, of which one may be at the point. */
  lemma BothKids(v: Pc, all: set<nat>, done': set<nat>, pcs': seq<Pc>, h: nat, l: nat)
    requires all == {h, l} && h != l && all !! done' && LanesBelow(all, |pcs'|) && pcs'[h] != pcs'[l]
    requires pcs'[h] != NULL_PC && pcs'[l] != NULL_PC && v != NULL_PC
    ensures var kids := Kid(pcs'[h], {h}, v, NULL_PC) + Kid(pcs'[l], {l}, v, NULL_PC);
      && kids != [] && Kids(kids, v, all, done', pcs')
      && (Holds(kids, h) <==> pcs'[h] != v) && (Holds(kids, l) <==> pcs'[l] != v)
      && forall i :: 0 <= i < |kids| ==> kids[i].pc == pcs'[h] || kids[i].pc == pcs'[l]
  {
    var kids := Kid(pcs'[h], {h}, v, NULL_PC) + Kid(pcs'[l], {l}, v, NULL_PC);
    var a, b := Entry(pcs'[h], {h}, v, Normal), Entry(pcs'[l], {l}, v, Normal);
    assert kids == if pcs'[h] == v then [b] else if pcs'[l] == v then [a] else [a, b];
    assert pcs'[h] != v ==> h in kids[0].mask;
    assert pcs'[l] != v ==> l in kids[|kids| - 1].mask;
  }

  lemma KidsEnd(f: Flow, start: Pc, b: Pc, kids: seq<Entry>, all: set<nat>, done: set<nat>)
    requires FlowOk(f) && NoWayBack(f, start) && Leads(f.g, start, b) && ExitSplit(f, b)
    requires forall i :: 0 <= i < |kids| ==> f.g.edge(b, kids[i].pc)
    requires forall t :: t in all ==> Holds(kids, t)
    ensures Ending(f, kids, f.ret, all, done)
  {
    hide FlowOk, Leads, ExitSplit, Holds;
  }

  lemma KidsMeet(f: Flow, b: Pc, v: Pc, kids: seq<Entry>, all: set<nat>, done: set<nat>, pcs: seq<Pc>)
    requires PostDominates(f.g, v, b) && v != b && LanesBelow(all, |pcs|) && all !! done
    requires forall i :: 0 <= i < |kids| ==> f.g.edge(b, kids[i].pc) && kids[i].pc != v
    requires forall t :: t in all && !Holds(kids, t) ==> pcs[t] == v
    ensures Meeting(f, kids, v, all, done, pcs)
  {
    forall i | 0 <= i < |kids| ensures PostDominates(f.g, v, kids[i].pc) {
      SuccessorPostDominated(f.g, v, b, kids[i].pc);
    }
    hide PostDominates, Holds;
  }

  /** A split with a point. */
  lemma TwoKids(f: Flow, start: Pc, b: Pc, all: set<nat>, done': set<nat>, pcs': seq<Pc>, h: nat, l: nat)
    requires FlowOk(f) && NoWayBack(f, start) && Leads(f.g, start, b) && Splits(f, b) && f.point(b) != NULL_PC
    requires all == {h, l} && h != l && all !! done' && LanesBelow(all, |pcs'|) && pcs'[h] != pcs'[l]
    requires pcs'[h] != NULL_PC && pcs'[l] != NULL_PC && f.g.edge(b, pcs'[h]) && f.g.edge(b, pcs'[l])
    ensures var v := f.point(b);
      Parted(f, [Entry(v, all, NULL_PC, Normal)] + Kid(pcs'[h], {h}, v, NULL_PC) + Kid(pcs'[l], {l}, v, NULL_PC), all,
        done', pcs')
  {
    var v := f.point(b);
    var x := PointOf(f, start, b, pcs'[h], pcs'[l]);
    hide *;
    var kids := Kid(pcs'[h], {h}, v, NULL_PC) + Kid(pcs'[l], {l}, v, NULL_PC);
    BothKids(v, all, done', pcs', h, l);
    if x == f.g.exit {
      KidsEnd(f, start, b, kids, all, done');
    } else {
      KidsMeet(f, b, v, kids, all, done', pcs');
    }
    AfterFirst(Entry(v, all, NULL_PC, Normal), Kid(pcs'[h], {h}, v, NULL_PC), Kid(pcs'[l], {l}, v, NULL_PC));
    AreParted(f, v, kids, [Entry(v, all, NULL_PC, Normal)] + Kid(pcs'[h], {h}, v, NULL_PC) + Kid(pcs'[l], {l}, v,
      NULL_PC), all, done', pcs');
  }

  lemma PointOf(f: Flow, start: Pc, b: Pc, c: Pc, d: Pc) returns (x: int)
    requires FlowOk(f) && NoWayBack(f, start) && Leads(f.g, start, b) && Splits(f, b) && f.point(b) != NULL_PC
    requires f.g.edge(b, c) && f.g.edge(b, d)
    ensures if x == f.g.exit then ExitSplit(f, b) && f.point(b) == f.ret && c != f.ret && d != f.ret
      else PostDominates(f.g, f.point(b), b) && f.point(b) != b
  {
    hide NoWayBack, Leads, Splits;
    x :| IsPoint(f, b, x);
    hide FlowOk;
    if x == f.g.exit {
      NeverBack(f, start, b, c, d);
    }
  }

  lemma NeverBack(f: Flow, start: Pc, b: Pc, c: Pc, d: Pc)
    requires NoWayBack(f, start) && Leads(f.g, start, b) && ExitSplit(f, b) && f.g.edge(b, c) && f.g.edge(b, d)
    ensures c != f.ret && d != f.ret
  {
    LeadsSelf(f.g, f.ret);
  }

  lemma AreParted(f: Flow, v: Pc, kids: seq<Entry>, r: seq<Entry>, all: set<nat>, done: set<nat>, pcs: seq<Pc>)
    requires |r| >= 2 && r[0] == Entry(v, all, NULL_PC, Normal) && r[1..] == kids && v != NULL_PC
    requires Kids(kids, v, all, done, pcs)
    requires Meeting(f, kids, v, all, done, pcs) || (v == f.ret && Ending(f, kids, v, all, done))
    ensures Parted(f, r, all, done, pcs)
  {
    hide Kids, Meeting, Ending;
  }

  lemma AfterFirst<T>(x: T, a: seq<T>, b: seq<T>)
    ensures ([x] + a + b)[1..] == a + b
  {
  }

  /** A step that loses no lane, and what the stack looks like after it. */
  ghost predicate KeepsShape(f: Flow, s: seq<Entry>, all: set<nat>, done': set<nat>, pcs': seq<Pc>, v: Pc, op: Op) {
    && Legal(s, done', pcs', op) && !IsSpecial(s, op) && KeepsLanes(s, done', pcs', v, op)
    && var r := Updated(s, done', pcs', v, op);
      Roots(r, all, done', pcs') || Parted(f, r, all, done', pcs') || Over(r, all, done')
  }

  lemma KeepsTheShape(f: Flow, s: seq<Entry>, r: seq<Entry>, all: set<nat>, done': set<nat>, pcs': seq<Pc>, v: Pc,
                      op: Op)
    requires Legal(s, done', pcs', op) && !IsSpecial(s, op) && KeepsLanes(s, done', pcs', v, op)
    requires r == Updated(s, done', pcs', v, op)
    requires Roots(r, all, done', pcs') || Parted(f, r, all, done', pcs') || Over(r, all, done')
    ensures KeepsShape(f, s, all, done', pcs', v, op)
  {
    hide Legal, KeepsLanes, Updated, Roots, Parted, Over;
  }

  /** Two lanes part. */
  lemma Parts(f: Flow, start: Pc, s: seq<Entry>, all: set<nat>, done: set<nat>, pcs: seq<Pc>, done': set<nat>,
              pcs': seq<Pc>, op: Op)
    requires FlowOk(f) && FewOk(f, start, all) && OnCourse(f, start, all, done, pcs)
    requires Takes(f, s, all, done, pcs, done', pcs')
    requires Roots(s, all, done, pcs) && !Together(s[|s| - 1], done', pcs') && !op.CallOp?
    ensures KeepsShape(f, s, all, done', pcs', f.point(s[|s| - 1].pc), op)
  {
    var e := s[|s| - 1];
    var h := Highest(all);
    var l := OtherLane(s, all, done, pcs, done', pcs');
    assert Sits(s[0], all, done, pcs) && s[0].rpc == NULL_PC;
    assert h in e.mask && l in e.mask && Leads(f.g, start, e.pc);
    assert f.g.edge(e.pc, pcs'[h]) && f.g.edge(e.pc, pcs'[l]) && pcs'[h] != NULL_PC && pcs'[l] != NULL_PC;
    assert e == Entry(e.pc, all, NULL_PC, Normal);
    hide *;
    PartingUpdate(e, all, done', pcs', f.point(e.pc), op, h, l);
    AfterParting(f, start, e, all, done', pcs', h, l);
    KeepsTheShape(f, s, AfterSplit([], e, {h}, pcs'[h], pcs'[l], f.point(e.pc)), all, done', pcs', f.point(e.pc), op);
  }

  lemma PartingUpdate(e: Entry, all: set<nat>, done': set<nat>, pcs': seq<Pc>, v: Pc, op: Op, h: nat, l: nat)
    requires e == Entry(e.pc, all, NULL_PC, Normal) && all == {h, l} && h == Highest(all) && h != l && !op.CallOp?
    requires all !! done' && LanesBelow(all, |pcs'|) && pcs'[h] != pcs'[l] && pcs'[h] != NULL_PC && pcs'[l] != NULL_PC
    ensures Legal([e], done', pcs', op) && !IsSpecial([e], op) && KeepsLanes([e], done', pcs', v, op)
    ensures Updated([e], done', pcs', v, op) == AfterSplit([], e, {h}, pcs'[h], pcs'[l], v)
  {
    assert [e] == [] + [e] && {h} < e.mask;
    UpdatedSplit([], e, done', pcs', v, {h}, pcs'[h], pcs'[l]);
    OtherwiseSame([e], done', pcs', v, op);
    hide Updated, AfterSplit;
  }

  lemma AfterParting(f: Flow, start: Pc, e: Entry, all: set<nat>, done': set<nat>, pcs': seq<Pc>, h: nat, l: nat)
    requires FlowOk(f) && NoWayBack(f, start) && e == Entry(e.pc, all, NULL_PC, Normal) && Leads(f.g, start, e.pc)
    requires all == {h, l} && h != l && all !! done' && LanesBelow(all, |pcs'|) && pcs'[h] != pcs'[l]
    requires pcs'[h] != NULL_PC && pcs'[l] != NULL_PC && f.g.edge(e.pc, pcs'[h]) && f.g.edge(e.pc, pcs'[l])
    ensures var r := AfterSplit([], e, {h}, pcs'[h], pcs'[l], f.point(e.pc));
      Roots(r, all, done', pcs') || Parted(f, r, all, done', pcs')
  {
    var v := f.point(e.pc);
    var r := AfterSplit([], e, {h}, pcs'[h], pcs'[l], v);
    assert e.mask - {h} == {l};
    if v == NULL_PC {
      TwoRoots(all, done', pcs', h, l);
      assert [] + Kid(pcs'[h], {h}, v, NULL_PC) == Kid(pcs'[h], {h}, v, NULL_PC);
    } else {
      assert Splits(f, e.pc) by {
        assert f.g.exit < 0;
      }
      hide FlowOk, NoWayBack, Splits, Leads, Roots, Parted, Kid;
      TwoKids(f, start, e.pc, all, done', pcs', h, l);
      assert [] + [e.(pc := v)] == [Entry(v, all, NULL_PC, Normal)];
    }
  }

  lemma KidStep(f: Flow, s: seq<Entry>, all: set<nat>, done: set<nat>, pcs: seq<Pc>, done': set<nat>, pcs': seq<Pc>,
                v: Pc, op: Op)
    requires FlowOk(f) && Parted(f, s, all, done, pcs) && Takes(f, s, all, done, pcs, done', pcs') && !op.CallOp?
    ensures KeepsShape(f, s, all, done', pcs', v, op)
  {
    var base, e := s[..|s| - 1], s[|s| - 1];
    assert s == base + [e];
    TopNormal(f, s, all, done, pcs, done', pcs');
    TopKid(f, s, all, done, pcs);
    KidGoesOn(f, s, all, done, pcs, done', pcs');
    hide *;
    OnlyOne(e, done', pcs');
    TogetherUpdate(base, e, done', pcs', v, op);
    KeepsTheShape(f, s, base + Left(e, done', pcs'), all, done', pcs', v, op);
  }

  lemma RootStep(f: Flow, s: seq<Entry>, all: set<nat>, done: set<nat>, pcs: seq<Pc>, done': set<nat>, pcs': seq<Pc>,
                 v: Pc, op: Op)
    requires Roots(s, all, done, pcs) && Takes(f, s, all, done, pcs, done', pcs') && !op.CallOp?
    requires LanesBelow(s[|s| - 1].mask, |pcs'|) && Together(s[|s| - 1], done', pcs')
    ensures KeepsShape(f, s, all, done', pcs', v, op)
  {
    var base, e := s[..|s| - 1], s[|s| - 1];
    assert s == base + [e];
    TopNormal(f, s, all, done, pcs, done', pcs');
    TopOnly(f, s, all, done, pcs, done', pcs');
    hide *;
    RootsGoOn(s, all, done, pcs, done', pcs');
    TogetherUpdate(base, e, done', pcs', v, op);
    KeepsTheShape(f, s, base + Left(e, done', pcs'), all, done', pcs', v, op);
  }

  /** A step keeps the invariant, and loses no lane. */
  lemma FewKeeps(f: Flow, start: Pc, s: seq<Entry>, all: set<nat>, done: set<nat>, pcs: seq<Pc>, done': set<nat>,
                 pcs': seq<Pc>, op: Op)
    requires FlowOk(f) && FewOk(f, start, all) && FewInv(f, start, s, all, done, pcs)
    requires Takes(f, s, all, done, pcs, done', pcs') && !op.CallOp?
    ensures var v := f.point(s[|s| - 1].pc);
      && Legal(s, done', pcs', op) && !IsSpecial(s, op) && KeepsLanes(s, done', pcs', v, op)
      && FewInv(f, start, Updated(s, done', pcs', v, op), all, done', pcs')
  {
    var v := f.point(s[|s| - 1].pc);
    CourseStays(f, start, s, all, done, pcs, done', pcs');
    TopNormal(f, s, all, done, pcs, done', pcs');
    hide FlowOk, FewOk, Takes, OnCourse, Roots, Parted, Over, Together, Legal, Updated, KeepsLanes, IsSpecial;
    assert KeepsShape(f, s, all, done', pcs', v, op) by {
      hide KeepsShape;
      if Parted(f, s, all, done, pcs) {
        KidStep(f, s, all, done, pcs, done', pcs', v, op);
      } else if Together(s[|s| - 1], done', pcs') {
        RootStep(f, s, all, done, pcs, done', pcs', v, op);
      } else {
        Parts(f, start, s, all, done, pcs, done', pcs', op);
      }
    }
  }

  lemma TopKid(f: Flow, s: seq<Entry>, all: set<nat>, done: set<nat>, pcs: seq<Pc>)
    requires Parted(f, s, all, done, pcs)
    ensures |s[|s| - 1].mask| == 1
  {
    assert s[|s| - 1] == s[1..][|s| - 2];
  }

  lemma TopNormal(f: Flow, s: seq<Entry>, all: set<nat>, done: set<nat>, pcs: seq<Pc>, done': set<nat>, pcs': seq<Pc>)
    requires Takes(f, s, all, done, pcs, done', pcs')
    ensures !Over(s, all, done) && LanesBelow(all, |pcs'|)
    ensures Roots(s, all, done, pcs) || Parted(f, s, all, done, pcs) ==> s[|s| - 1].kind.Normal?
    ensures forall t :: t in s[|s| - 1].mask - done' ==> pcs'[t] != NULL_PC
    ensures LanesBelow(s[|s| - 1].mask, |pcs'|) && s[|s| - 1].mask != {}
  {
    var e := s[|s| - 1];
    var t :| t in e.mask;
    if Parted(f, s, all, done, pcs) {
      assert e == s[1..][|s| - 2];
    }
  }

  // ---------------------------------------------------------------------------------
  // Whole runs

  ghost predicate MachineFew<S>(f: Flow, start: Pc, m: Machine<S>, mask: set<nat>) {
    FewInv(f, start, m.stack, mask, Done(m.threads), Pcs(m.threads))
  }

  lemma FewTop<S>(f: Flow, start: Pc, m: Machine<S>, mask: set<nat>)
    requires FlowOk(f) && MachineFew(f, start, m, mask) && TopIsLive(m)
    ensures m.stack[|m.stack| - 1].mask <= mask && IsInstruction(m.stack[|m.stack| - 1].pc)
    ensures LanesBelow(mask, |m.threads|)
  {
    var s, n := m.stack, |m.stack| - 1;
    if Parted(f, s, mask, Done(m.threads), Pcs(m.threads)) {
      assert s[n] == s[1..][n - 1];
    }
    var t :| t in s[n].mask;
    assert t in mask && t !in Done(m.threads) && Pcs(m.threads)[t] == s[n].pc;
  }

  lemma FewStepKeeps<S(!new)>(exec: Exec<S>, f: Flow, start: Pc, m: Machine<S>, input: Input, m': Machine<S>,
                              mask: set<nat>)
    requires FlowOk(f) && FewOk(f, start, mask) && Follows(exec, f.g) && MachineFew(f, start, m, mask)
    requires FlowStep(exec, f, m, input, m')
    ensures LockStep(exec, m, input, m') && MachineFew(f, start, m', mask) && |m'.threads| == |m.threads|
  {
    hide FewInv, FlowOk, FewOk, Follows, Takes, Legal, KeepsLanes, Updated, TopIsLive;
    FewTop(f, start, m, mask);
    EdgesTo(f);
    TakesFrom(exec, f, m, input, m', mask);
    FewKeeps(f, start, m.stack, mask, Done(m.threads), Pcs(m.threads), Done(m'.threads), Pcs(m'.threads), input.op);
    StepIsLock(exec, m, input, m');
  }

  lemma EdgesTo(f: Flow)
    requires FlowOk(f)
    ensures forall a: int, b: int :: f.g.edge(a, b) ==> b == f.g.exit || IsInstruction(b)
  {
  }

  lemma LaunchFew<S>(f: Flow, start: Pc, m: Machine<S>, mask: set<nat>)
    requires start != NULL_PC && ReachesExit(f.g, start)
    requires Launched(m, start, mask) && forall t :: t in mask ==> !m.threads[t].done
    ensures MachineFew(f, start, m, mask)
  {
    LeadsSelf(f.g, start);
    forall t | t in mask ensures Holds(m.stack, t) {
      assert t in m.stack[0].mask;
    }
    hide ReachesExit, Leads;
  }

  lemma {:induction false} FewRunKeeps<S(!new)>(exec: Exec<S>, f: Flow, start: Pc, mask: set<nat>, ms: seq<Machine<S>>,
                                                inputs: seq<Input>, n: nat)
    requires FlowOk(f) && FewOk(f, start, mask) && start != NULL_PC && ReachesExit(f.g, start) && Follows(exec, f.g)
    requires FlowRun(exec, f, start, mask, ms, inputs) && n <= |inputs|
    ensures MachineFew(f, start, ms[n], mask) && forall i :: 0 <= i < n ==> LockStep(exec, ms[i], inputs[i], ms[i + 1])
  {
    hide MachineFew, LockStep, FlowStep, FlowOk, FewOk, Follows, Launched, ReachesExit;
    if n == 0 {
      LaunchFew(f, start, ms[0], mask);
    } else {
      FewRunKeeps(exec, f, start, mask, ms, inputs, n - 1);
      assert FlowStep(exec, f, ms[n - 1], inputs[n - 1], ms[n]);
      FewStepKeeps(exec, f, start, ms[n - 1], inputs[n - 1], ms[n], mask);
    }
  }

  /** As long as a lane is left, the next instruction passes the assertions. */
  lemma FewTopLive<S>(f: Flow, start: Pc, m: Machine<S>, mask: set<nat>)
    requires MachineFew(f, start, m, mask) && SomeLive(m, mask)
    ensures TopIsLive(m)
  {
    var s, n := m.stack, |m.stack| - 1;
    var u :| u in mask && u < |m.threads| && !m.threads[u].done;
    assert u !in Done(m.threads);
    var done, pcs := Done(m.threads), Pcs(m.threads);
    if Parted(f, s, mask, done, pcs) {
      assert s[n] == s[1..][n - 1];
    }
    assert Sits(s[n], mask, done, pcs);
    forall t | t in s[n].mask ensures t < |m.threads| && !m.threads[t].done && m.threads[t].pc == s[n].pc {
      assert t < |pcs| && t !in done;
    }
  }
}
