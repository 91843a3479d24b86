/** What every update keeps: the reconvergence stack always says, for each live lane, the
    PC that lane would have on its own. */
module SimtSafety {
  import opened Collections
  import opened SimtStack

  // ---------------------------------------------------------------------------------
  // The invariant

  /** The topmost entry below index `n` whose mask contains lane `t`, or -1. */
  ghost function OwnerBelow(s: seq<Entry>, n: nat, t: nat): (i: int)
    requires n <= |s|
    ensures -1 <= i < n && (i >= 0 ==> t in s[i].mask)
    ensures forall k :: i < k < n ==> t !in s[k].mask
  {
    if n == 0 then -1 else if t in s[n - 1].mask then n - 1 else OwnerBelow(s, n - 1, t)
  }

  ghost function Owner(s: seq<Entry>, t: nat): (i: int)
    ensures -1 <= i < |s|
  {
    OwnerBelow(s, |s|, t)
  }

  ghost predicate Shaped(s: seq<Entry>) {
    && (forall i :: 0 <= i < |s| ==> s[i].mask != {} && (s[i].kind.Call? ==> s[i].rpc == NULL_PC))
    && (s != [] ==> s[0].kind.Normal? && s[0].rpc == NULL_PC)
    && (forall i :: 0 <= i < |s| && CallAbove(s, i) ==> s[i + 1].mask <= s[i].mask)
  }

  /** Two entries, `b` above `a`: disjoint, or `b` inside `a`; strictly if both are NORMAL. */
  ghost predicate Nested(a: Entry, b: Entry) {
    || a.mask !! b.mask
    || (b.mask <= a.mask && (a.kind.Normal? && b.kind.Normal? ==> b.mask != a.mask))
  }

  ghost predicate Laminar(s: seq<Entry>) {
    forall i, j :: 0 <= i < j < |s| ==> Nested(s[i], s[j])
  }

  /** Every live lane finds its own PC in the topmost entry that contains it. */
  ghost predicate Refines(s: seq<Entry>, live: set<nat>, pcs: seq<Pc>) {
    forall t :: t in live ==> t < |pcs| && Owner(s, t) >= 0 && s[Owner(s, t)].pc == pcs[t]
  }

  ghost predicate CallAbove(s: seq<Entry>, i: int) {
    0 <= i < |s| - 1 && s[i + 1].kind.Call?
  }

  ghost predicate Reconverging(e: Entry) {
    e.kind.Normal? && e.rpc != NULL_PC
  }

  /** Lane `t` of entry `j` finds that entry's reconvergence PC in the next lower entry
      containing it, and no CALL starts right above that one. */
  ghost predicate FindsItsPoint(s: seq<Entry>, j: nat, t: nat)
    requires j < |s|
  {
    var i := OwnerBelow(s, j, t);
    i >= 0 && s[i].pc == s[j].rpc && !CallAbove(s, i)
  }

  ghost predicate Reconverges(s: seq<Entry>, done: set<nat>) {
    && (forall j :: 0 <= j < |s| && Reconverging(s[j]) ==> s[j].pc != s[j].rpc)
    && (forall j, t :: 0 <= j < |s| && Reconverging(s[j]) && t in s[j].mask && t !in done ==> FindsItsPoint(s, j, t))
  }

  /** The live lanes of the entry right below a CALL are all in entries above it. */
  ghost predicate CallsCover(s: seq<Entry>, done: set<nat>) {
    forall i, t :: 0 <= i < |s| && CallAbove(s, i) && t in s[i].mask && t !in done ==> Owner(s, t) > i
  }

  ghost predicate Inv(s: seq<Entry>, all: set<nat>, done: set<nat>, pcs: seq<Pc>) {
    && LanesBelow(all, |pcs|)
    && (forall i :: 0 <= i < |s| ==> s[i].mask <= all)
    && Shaped(s)
    && Laminar(s)
    && Refines(s, all - done, pcs)
    && Reconverges(s, done)
    && CallsCover(s, done)
  }

  // ---------------------------------------------------------------------------------
  // One update

  /** One instruction of the warp: the live lanes of the top entry move to any next PC, the
      other live lanes stay where they are, and lanes that are done stay done. */
  ghost predicate Moves(s: seq<Entry>, all: set<nat>, done: set<nat>, pcs: seq<Pc>, done': set<nat>, pcs': seq<Pc>,
                        op: Op)
  {
    && Legal(s, done', pcs', op)
    && LanesBelow(all, |pcs|) && done <= done' && |pcs'| == |pcs|
    && forall t :: t in all && t !in done' && t !in s[|s| - 1].mask ==> pcs'[t] == pcs[t]
  }

  /** A warp that splits may not send a lane to the top entry's own reconvergence PC,
      unless that is where the split reconverges too. */
  ghost predicate KeepsLanes(s: seq<Entry>, done: set<nat>, nextPc: seq<Pc>, recvgPc: Pc, op: Op)
    requires Legal(s, done, nextPc, op)
  {
    var top, live := s[|s| - 1], Live(s, done);
    live != {} && !IsSpecial(s, op) && top.kind.Normal? && recvgPc != top.rpc && Diverges(top, Groups(live, nextPc)) ==>
      forall t :: t in live ==> nextPc[t] != top.rpc
  }

  /** Entries `base` with the groups `cs` of the old top entry on top. */
  ghost predicate GroupsAbove(cs: seq<Pc>, live: set<nat>, pcs: seq<Pc>, top: Entry) {
    && Distinct(cs)
    && forall c :: c in cs <==> Class(live, pcs, c) != {} && !(top.kind.Normal? && c == top.rpc)
  }

  lemma OwnerIs(s: seq<Entry>, n: nat, t: nat, i: nat)
    requires i < n <= |s| && t in s[i].mask && forall k :: i < k < n ==> t !in s[k].mask
    ensures OwnerBelow(s, n, t) == i
  {
  }

  lemma OwnerSame(s: seq<Entry>, r: seq<Entry>, m: nat, n: nat, t: nat)
    requires m <= n <= |r| && m <= |s|
    requires forall k :: 0 <= k < m ==> s[k].mask == r[k].mask
    requires forall k :: m <= k < n ==> t !in r[k].mask
    ensures OwnerBelow(r, n, t) == OwnerBelow(s, m, t)
  {
    var i := OwnerBelow(s, m, t);
    if i >= 0 {
      OwnerIs(r, n, t, i);
    }
  }

  /** The stack whose top entry gives way to its groups `cs`. */
  ghost function Replaced(s: seq<Entry>, live: set<nat>, pcs: seq<Pc>, cs: seq<Pc>): (r: seq<Entry>)
    requires s != []
    ensures |r| == |s| - 1 + |cs|
    ensures forall i :: 0 <= i < |s| - 1 ==> r[i] == s[i]
    ensures forall i {:trigger r[i]} :: |s| - 1 <= i < |r| ==>
      r[i] == Entry(cs[i - (|s| - 1)], Class(live, pcs, cs[i - (|s| - 1)]), s[|s| - 1].rpc,
        if i == |s| - 1 then s[|s| - 1].kind else Normal)
  {
    s[..|s| - 1] + Spawn(cs, live, pcs, s[|s| - 1].rpc, s[|s| - 1].kind)
  }

  /** Where the lanes are once the entries from `n` on have given way to the groups `cs`. */
  ghost predicate OwnerMoves(s: seq<Entry>, r: seq<Entry>, n: nat, live: set<nat>, pcs: seq<Pc>, cs: seq<Pc>, t: nat)
    requires n <= |s| && LanesBelow(live, |pcs|)
  {
    && (t in live && pcs[t] in cs ==> Owner(r, t) >= n && r[Owner(r, t)].pc == pcs[t])
    && (t !in live || pcs[t] !in cs ==> Owner(r, t) == OwnerBelow(s, n, t))
  }

  lemma OwnerAfterReplace(s: seq<Entry>, live: set<nat>, pcs: seq<Pc>, cs: seq<Pc>, t: nat)
    requires s != [] && LanesBelow(live, |pcs|) && live <= s[|s| - 1].mask
    requires GroupsAbove(cs, live, pcs, s[|s| - 1])
    ensures OwnerMoves(s, Replaced(s, live, pcs, cs), |s| - 1, live, pcs, cs, t)
  {
    hide OwnerMoves;
    OwnerAmong(s, Replaced(s, live, pcs, cs), |s| - 1, live, pcs, cs, t);
  }

  lemma OwnerAmong(s: seq<Entry>, r: seq<Entry>, n: nat, live: set<nat>, pcs: seq<Pc>, cs: seq<Pc>, t: nat)
    requires n <= |s| && |r| == n + |cs| && LanesBelow(live, |pcs|) && Distinct(cs)
    requires forall k :: 0 <= k < n ==> s[k].mask == r[k].mask
    requires forall k :: n <= k < |r| ==> r[k].pc == cs[k - n] && r[k].mask == Class(live, pcs, cs[k - n])
    ensures OwnerMoves(s, r, n, live, pcs, cs, t)
  {
    if t in live && pcs[t] in cs {
      var i :| 0 <= i < |cs| && cs[i] == pcs[t];
      forall k | n + i < k < |r| ensures t !in r[k].mask {
        assert cs[i] != cs[k - n];
      }
      OwnerIs(r, |r|, t, n + i);
    } else {
      forall i | n <= i < |r| ensures t !in r[i].mask {
        assert cs[i - n] in cs;
      }
      OwnerSame(s, r, n, |r|, t);
    }
  }

  lemma ReplaceKeeps(s: seq<Entry>, all: set<nat>, done: set<nat>, pcs: seq<Pc>, done': set<nat>, pcs': seq<Pc>,
                     op: Op, cs: seq<Pc>)
    requires Inv(s, all, done, pcs) && Moves(s, all, done, pcs, done', pcs', op)
    requires GroupsAbove(cs, Live(s, done'), pcs', s[|s| - 1])
    ensures Inv(Replaced(s, Live(s, done'), pcs', cs), all, done', pcs')
  {
    var live := Live(s, done');
    var r := Replaced(s, live, pcs', cs);
    ReplaceKeepsShape(s, all, live, pcs', cs);
    ReplaceKeepsPoints(s, done, done', pcs', cs);
    ReplaceKeepsCalls(s, done, done', pcs', cs);
    hide Shaped, Laminar, CallsCover, Reconverges, Replaced, GroupsAbove, Owner;
    forall t | t in all && t !in done' ensures Owner(r, t) >= 0 && r[Owner(r, t)].pc == pcs'[t] {
      ReplaceRefines(s, all, done, pcs, done', pcs', op, cs, t);
    }
  }

  lemma ReplaceRefines(s: seq<Entry>, all: set<nat>, done: set<nat>, pcs: seq<Pc>, done': set<nat>, pcs': seq<Pc>,
                       op: Op, cs: seq<Pc>, t: nat)
    requires Inv(s, all, done, pcs) && Moves(s, all, done, pcs, done', pcs', op) && t in all && t !in done'
    requires GroupsAbove(cs, Live(s, done'), pcs', s[|s| - 1])
    ensures var r := Replaced(s, Live(s, done'), pcs', cs); Owner(r, t) >= 0 && r[Owner(r, t)].pc == pcs'[t]
  {
    var live := Live(s, done');
    hide Laminar, CallsCover, Replaced;
    OwnerAfterReplace(s, live, pcs', cs, t);
    if t in s[|s| - 1].mask {
      assert t in live && t in Class(live, pcs', pcs'[t]);
      if pcs'[t] !in cs {
        assert FindsItsPoint(s, |s| - 1, t);
      }
    } else {
      OwnerSame(s, s, |s| - 1, |s|, t);
    }
  }

  lemma ReplaceKeepsShape(s: seq<Entry>, all: set<nat>, live: set<nat>, pcs: seq<Pc>, cs: seq<Pc>)
    requires s != [] && Shaped(s) && Laminar(s) && (forall i :: 0 <= i < |s| ==> s[i].mask <= all)
    requires LanesBelow(live, |pcs|) && live <= s[|s| - 1].mask && GroupsAbove(cs, live, pcs, s[|s| - 1])
    ensures var r := Replaced(s, live, pcs, cs); Shaped(r) && Laminar(r) && forall i :: 0 <= i < |r| ==>
      r[i].mask <= all
  {
    var n, r := |s| - 1, Replaced(s, live, pcs, cs);
    forall i | n <= i < |r| ensures r[i].mask != {} && r[i].mask <= s[n].mask {
      assert cs[i - n] in cs;
    }
    forall i | 0 <= i < |r| && CallAbove(r, i) ensures r[i + 1].mask <= r[i].mask {
      assert CallAbove(s, i);
    }
    forall i, j | 0 <= i < j < |r| ensures Nested(r[i], r[j]) {
      if j < n {
        assert Nested(s[i], s[j]);
      } else if i < n {
        assert Nested(s[i], s[n]);
        if j > n {
          assert cs[0] != cs[j - n];
          assert r[n].mask != {} && r[n].mask !! r[j].mask;
        }
      } else {
        assert cs[i - n] != cs[j - n];
      }
    }
  }

  lemma ReplaceKeepsPoints(s: seq<Entry>, done: set<nat>, done': set<nat>, pcs': seq<Pc>, cs: seq<Pc>)
    requires s != [] && Shaped(s) && Reconverges(s, done) && CallsCover(s, done) && done <= done'
    requires LanesBelow(Live(s, done'), |pcs'|) && GroupsAbove(cs, Live(s, done'), pcs', s[|s| - 1])
    requires forall t :: t in Live(s, done') ==> pcs'[t] != NULL_PC
    ensures Reconverges(Replaced(s, Live(s, done'), pcs', cs), done')
  {
    var n, live := |s| - 1, Live(s, done');
    var r := Replaced(s, live, pcs', cs);
    forall j | 0 <= j < |r| && Reconverging(r[j]) ensures r[j].pc != r[j].rpc {
      if j >= n {
        assert cs[j - n] in cs;
      }
    }
    forall j, t | 0 <= j < |r| && Reconverging(r[j]) && t in r[j].mask && t !in done' ensures FindsItsPoint(r, j, t) {
      if j < n {
        assert FindsItsPoint(s, j, t);
        OwnerSame(s, r, j, j, t);
      } else {
        assert FindsItsPoint(s, n, t);
        assert t in Class(live, pcs', cs[j - n]);
        forall k | n <= k < j ensures t !in r[k].mask {
          assert cs[k - n] != cs[j - n];
        }
        OwnerSame(s, r, n, j, t);
      }
    }
  }

  lemma ReplaceKeepsCalls(s: seq<Entry>, done: set<nat>, done': set<nat>, pcs': seq<Pc>, cs: seq<Pc>)
    requires s != [] && Shaped(s) && Reconverges(s, done) && CallsCover(s, done) && done <= done'
    requires LanesBelow(Live(s, done'), |pcs'|) && GroupsAbove(cs, Live(s, done'), pcs', s[|s| - 1])
    requires forall t :: t in Live(s, done') ==> pcs'[t] != NULL_PC
    ensures CallsCover(Replaced(s, Live(s, done'), pcs', cs), done')
  {
    var n, live := |s| - 1, Live(s, done');
    var r := Replaced(s, live, pcs', cs);
    forall i, t | 0 <= i < |r| && CallAbove(r, i) && t in r[i].mask && t !in done' ensures Owner(r, t) > i {
      assert i < n && CallAbove(s, i) && t in s[i].mask;
      assert Owner(s, t) > i;
      OwnerAfterReplace(s, live, pcs', cs, t);
      if t in live {
        assert t in Class(live, pcs', pcs'[t]);
        if pcs'[t] !in cs {
          assert FindsItsPoint(s, n, t);
        }
      } else {
        OwnerSame(s, s, n, |s|, t);
      }
    }
  }

  /** The groups of a split above its new reconvergence entry. */
  ghost predicate GroupsOver(cs: seq<Pc>, live: set<nat>, pcs: seq<Pc>, recvgPc: Pc) {
    && Distinct(cs)
    && (forall c :: c in cs <==> Class(live, pcs, c) != {} && c != recvgPc)
  }

  /** The stack after a split that gets a new reconvergence entry. */
  ghost function OverParent(s: seq<Entry>, live: set<nat>, pcs: seq<Pc>, cs: seq<Pc>, recvgPc: Pc): (r: seq<Entry>)
    requires s != []
    ensures |r| == |s| + |cs|
    ensures forall i :: 0 <= i < |s| - 1 ==> r[i] == s[i]
    ensures r[|s| - 1] == s[|s| - 1].(pc := recvgPc)
    ensures forall i :: |s| <= i < |r| ==> r[i] == Entry(cs[i - |s|], Class(live, pcs, cs[i - |s|]), recvgPc, Normal)
  {
    s[..|s| - 1] + [s[|s| - 1].(pc := recvgPc)] + Spawn(cs, live, pcs, recvgPc, Normal)
  }

  lemma OwnerOverParent(s: seq<Entry>, live: set<nat>, pcs: seq<Pc>, cs: seq<Pc>, recvgPc: Pc, t: nat)
    requires s != [] && LanesBelow(live, |pcs|) && live <= s[|s| - 1].mask && GroupsOver(cs, live, pcs, recvgPc)
    ensures var r := OverParent(s, live, pcs, cs, recvgPc);
      && (t in live && pcs[t] in cs ==> Owner(r, t) >= |s| && r[Owner(r, t)].pc == pcs[t])
      && (t !in live || pcs[t] !in cs ==> Owner(r, t) == Owner(s, t))
  {
    var r := OverParent(s, live, pcs, cs, recvgPc);
    if t in live && pcs[t] in cs {
      var i :| 0 <= i < |cs| && cs[i] == pcs[t];
      OwnerIs(r, |r|, t, |s| + i);
    } else {
      OwnerSame(s, r, |s|, |r|, t);
    }
  }

  lemma ParentKeeps(s: seq<Entry>, all: set<nat>, done: set<nat>, pcs: seq<Pc>, done': set<nat>, pcs': seq<Pc>, op: Op,
                    cs: seq<Pc>, recvgPc: Pc)
    requires Inv(s, all, done, pcs) && Moves(s, all, done, pcs, done', pcs', op)
    requires GroupsOver(cs, Live(s, done'), pcs', recvgPc) && recvgPc != s[|s| - 1].rpc
    requires |Groups(Live(s, done'), pcs')| >= 2
    ensures Inv(OverParent(s, Live(s, done'), pcs', cs, recvgPc), all, done', pcs')
  {
    hide Shaped, Laminar, Reconverges, CallsCover, GroupsOver, OverParent, Groups;
    var r := OverParent(s, Live(s, done'), pcs', cs, recvgPc);
    ParentKeepsShape(s, all, Live(s, done'), pcs', cs, recvgPc);
    ParentKeepsPoints(s, done, done', pcs', cs, recvgPc);
    ParentKeepsCalls(s, done, done', pcs', cs, recvgPc);
    forall t | t in all && t !in done' ensures Owner(r, t) >= 0 && r[Owner(r, t)].pc == pcs'[t] {
      ParentRefines(s, all, done, pcs, done', pcs', op, cs, recvgPc, t);
    }
  }

  lemma ParentKeepsCalls(s: seq<Entry>, done: set<nat>, done': set<nat>, pcs': seq<Pc>, cs: seq<Pc>, recvgPc: Pc)
    requires s != [] && CallsCover(s, done) && done <= done'
    requires LanesBelow(Live(s, done'), |pcs'|) && GroupsOver(cs, Live(s, done'), pcs', recvgPc)
    ensures CallsCover(OverParent(s, Live(s, done'), pcs', cs, recvgPc), done')
  {
    var r := OverParent(s, Live(s, done'), pcs', cs, recvgPc);
    forall i, t | 0 <= i < |r| && CallAbove(r, i) && t in r[i].mask && t !in done' ensures Owner(r, t) > i {
      assert CallAbove(s, i) && Owner(s, t) > i;
      OwnerOverParent(s, Live(s, done'), pcs', cs, recvgPc, t);
    }
  }

  lemma ParentKeepsShape(s: seq<Entry>, all: set<nat>, live: set<nat>, pcs: seq<Pc>, cs: seq<Pc>, recvgPc: Pc)
    requires s != [] && Shaped(s) && Laminar(s) && (forall i :: 0 <= i < |s| ==> s[i].mask <= all)
    requires LanesBelow(live, |pcs|) && live <= s[|s| - 1].mask && |Groups(live, pcs)| >= 2
    requires GroupsOver(cs, live, pcs, recvgPc)
    ensures var r := OverParent(s, live, pcs, cs, recvgPc);
      Shaped(r) && Laminar(r) && forall i :: 0 <= i < |r| ==> r[i].mask <= all
  {
    var n, r := |s| - 1, OverParent(s, live, pcs, cs, recvgPc);
    forall i | n < i < |r| ensures r[i].mask != {} && r[i].mask < s[n].mask {
      assert cs[i - n - 1] in cs;
      ClassIsProper(live, pcs, cs[i - n - 1]);
    }
    forall i | 0 <= i < |r| && CallAbove(r, i) ensures r[i + 1].mask <= r[i].mask {
      assert CallAbove(s, i);
    }
    forall i, j | 0 <= i < j < |r| ensures Nested(r[i], r[j]) {
      if j <= n {
        assert Nested(s[i], s[j]);
      } else if i < n {
        assert Nested(s[i], s[n]);
      } else if i > n {
        assert cs[i - n - 1] != cs[j - n - 1];
      }
    }
  }

  lemma ParentRefines(s: seq<Entry>, all: set<nat>, done: set<nat>, pcs: seq<Pc>, done': set<nat>, pcs': seq<Pc>,
                      op: Op,
                      cs: seq<Pc>, recvgPc: Pc, t: nat)
    requires Moves(s, all, done, pcs, done', pcs', op) && Refines(s, all - done, pcs)
    requires GroupsOver(cs, Live(s, done'), pcs', recvgPc) && t in all && t !in done'
    ensures var r := OverParent(s, Live(s, done'), pcs', cs, recvgPc); Owner(r, t) >= 0 && r[Owner(r, t)].pc == pcs'[t]
  {
    OwnerOverParent(s, Live(s, done'), pcs', cs, recvgPc, t);
    if t in s[|s| - 1].mask {
      assert t in Class(Live(s, done'), pcs', pcs'[t]);
      OwnerIs(s, |s|, t, |s| - 1);
    }
  }

  lemma ClassIsProper(live: set<nat>, pcs: seq<Pc>, c: Pc)
    requires LanesBelow(live, |pcs|) && |Groups(live, pcs)| >= 2
    ensures Class(live, pcs, c) < live
  {
    GroupsPartition(live, pcs);
    var cs := Groups(live, pcs);
    var d := if cs[0] == c then cs[1] else cs[0];
    assert d in cs && d != c;
    assert Class(live, pcs, d) !! Class(live, pcs, c);
    var l :| l in Class(live, pcs, d);
    assert l in live;
  }

  lemma ParentKeepsPoints(s: seq<Entry>, done: set<nat>, done': set<nat>, pcs': seq<Pc>, cs: seq<Pc>, recvgPc: Pc)
    requires s != [] && Reconverges(s, done) && done <= done' && recvgPc != s[|s| - 1].rpc
    requires LanesBelow(Live(s, done'), |pcs'|) && GroupsOver(cs, Live(s, done'), pcs', recvgPc)
    ensures Reconverges(OverParent(s, Live(s, done'), pcs', cs, recvgPc), done')
  {
    var n, live := |s| - 1, Live(s, done');
    var r := OverParent(s, live, pcs', cs, recvgPc);
    forall j | 0 <= j < |r| && Reconverging(r[j]) ensures r[j].pc != r[j].rpc {
      if j > n {
        assert cs[j - n - 1] in cs;
      }
    }
    forall j, t | 0 <= j < |r| && Reconverging(r[j]) && t in r[j].mask && t !in done' ensures FindsItsPoint(r, j, t) {
      if j <= n {
        assert FindsItsPoint(s, j, t);
        OwnerSame(s, r, j, j, t);
      } else {
        assert t in Class(live, pcs', cs[j - n - 1]);
        forall k | n < k < j ensures t !in r[k].mask {
          assert cs[k - n - 1] != cs[j - n - 1];
        }
        OwnerIs(r, j, t, n);
      }
    }
  }

  lemma CallKeeps(s: seq<Entry>, all: set<nat>, done: set<nat>, pcs: seq<Pc>, done': set<nat>, pcs': seq<Pc>)
    requires Inv(s, all, done, pcs) && Moves(s, all, done, pcs, done', pcs', CallOp) && Live(s, done') != {}
    ensures Inv(s + [Entry(pcs'[Highest(Live(s, done'))], Live(s, done'), NULL_PC, Call)], all, done', pcs')
  {
    var n, live := |s|, Live(s, done');
    var r := s + [Entry(pcs'[Highest(live)], live, NULL_PC, Call)];
    CallKeepsShape(s, r);
    CallOwners(s, r);
    CallKeepsPoints(s, done, done', r);
    CallStillCovers(s, done, done', r);
    hide Shaped, Laminar, Reconverges, CallsCover, Owner;
    assert Refines(r, all - done', pcs');
  }

  /** Where the lanes are when a call has been pushed. */
  lemma CallOwners(s: seq<Entry>, r: seq<Entry>)
    requires |r| == |s| + 1 && r[..|s|] == s
    ensures forall t :: Owner(r, t) == if t in r[|s|].mask then |s| else Owner(s, t)
  {
    var n := |s|;
    forall t ensures Owner(r, t) == if t in r[n].mask then n else Owner(s, t) {
      if t in r[n].mask {
        OwnerIs(r, n + 1, t, n);
      } else {
        OwnerSame(s, r, n, n + 1, t);
      }
    }
  }

  lemma CallStillCovers(s: seq<Entry>, done: set<nat>, done': set<nat>, r: seq<Entry>)
    requires s != [] && CallsCover(s, done) && done <= done'
    requires |r| == |s| + 1 && r[..|s|] == s && r[|s|].kind.Call? && r[|s|].mask == s[|s| - 1].mask - done'
    ensures CallsCover(r, done')
  {
    CallOwners(s, r);
    hide Owner;
    forall i, t | 0 <= i < |r| && CallAbove(r, i) && t in r[i].mask && t !in done' ensures Owner(r, t) > i {
      if t !in r[|s|].mask {
        assert CallAbove(s, i) && Owner(s, t) > i;
      }
    }
  }

  lemma CallKeepsShape(s: seq<Entry>, r: seq<Entry>)
    requires s != [] && Shaped(s) && Laminar(s)
    requires |r| == |s| + 1 && r[..|s|] == s && r[|s|].kind.Call? && r[|s|].rpc == NULL_PC
    requires {} != r[|s|].mask <= s[|s| - 1].mask
    ensures Shaped(r) && Laminar(r)
  {
    forall i | 0 <= i < |r| && CallAbove(r, i) ensures r[i + 1].mask <= r[i].mask {
      assert i < |s| - 1 ==> CallAbove(s, i);
    }
    forall i, j | 0 <= i < j < |r| ensures Nested(r[i], r[j]) {
      if j < |s| {
        assert Nested(s[i], s[j]);
      } else if i < |s| - 1 {
        assert Nested(s[i], s[|s| - 1]);
      }
    }
  }

  lemma CallKeepsPoints(s: seq<Entry>, done: set<nat>, done': set<nat>, r: seq<Entry>)
    requires Reconverges(s, done) && done <= done'
    requires |r| == |s| + 1 && r[..|s|] == s && r[|s|].kind.Call?
    ensures Reconverges(r, done')
  {
    forall j, t | 0 <= j < |r| && Reconverging(r[j]) && t in r[j].mask && t !in done' ensures FindsItsPoint(r, j, t) {
      assert r[j] == s[j];
      assert FindsItsPoint(s, j, t);
      OwnerSame(s, r, j, j, t);
    }
  }

  /** Where the lanes of a returning call are afterwards: the caller's entry holds exactly
      the live lanes of the call. */
  lemma OwnerAfterReturn(s: seq<Entry>, done: set<nat>, done': set<nat>, c: Pc, t: nat)
    requires |s| >= 2 && Shaped(s) && CallsCover(s, done) && done <= done' && s[|s| - 1].kind.Call? && t !in done'
    ensures t in s[|s| - 1].mask <==> t in s[|s| - 2].mask
    ensures var r := Returned(s[..|s| - 1], c);
      if |r| == |s| - 1 && t in s[|s| - 1].mask then Owner(r, t) == |s| - 2
      else Owner(r, t) == OwnerBelow(s, |s| - 2, t) && (t !in s[|s| - 1].mask ==> Owner(r, t) == Owner(s, t))
  {
    var a, r := |s| - 2, Returned(s[..|s| - 1], c);
    assert CallAbove(s, a);
    if |r| == |s| - 1 && t in s[a + 1].mask {
      OwnerIs(r, |r|, t, a);
    } else {
      OwnerSame(s, r, a, |r|, t);
      if t !in s[a + 1].mask {
        OwnerSame(s, s, a, |s|, t);
      }
    }
  }

  lemma ReturnKeeps(s: seq<Entry>, all: set<nat>, done: set<nat>, pcs: seq<Pc>, done': set<nat>, pcs': seq<Pc>)
    requires Inv(s, all, done, pcs) && Moves(s, all, done, pcs, done', pcs', RetOp)
    requires Live(s, done') != {} && s[|s| - 1].kind.Call?
    ensures Inv(Returned(s[..|s| - 1], pcs'[Highest(Live(s, done'))]), all, done', pcs')
  {
    var c := pcs'[Highest(Live(s, done'))];
    var r := Returned(s[..|s| - 1], c);
    ReturnKeepsShape(s, c);
    ReturnKeepsPoints(s, done, done', c);
    hide Laminar;
    forall t | t in all && t !in done' ensures Owner(r, t) >= 0 && r[Owner(r, t)].pc == pcs'[t] {
      ReturnRefines(s, all, done, pcs, done', pcs', t);
    }
  }

  lemma ReturnRefines(s: seq<Entry>, all: set<nat>, done: set<nat>, pcs: seq<Pc>, done': set<nat>, pcs': seq<Pc>,
                      t: nat)
    requires Inv(s, all, done, pcs) && Moves(s, all, done, pcs, done', pcs', RetOp)
    requires Live(s, done') != {} && s[|s| - 1].kind.Call? && t in all && t !in done'
    ensures var r := Returned(s[..|s| - 1], pcs'[Highest(Live(s, done'))]);
      Owner(r, t) >= 0 && r[Owner(r, t)].pc == pcs'[t]
  {
    var c := pcs'[Highest(Live(s, done'))];
    var r := Returned(s[..|s| - 1], c);
    OwnerAfterReturn(s, done, done', c, t);
    hide Laminar, CallsCover, Shaped;
    if t in s[|s| - 1].mask {
      assert pcs'[t] == c;
      if |r| == |s| - 2 {
        assert FindsItsPoint(s, |s| - 2, t);
      }
    }
  }

  lemma ReturnKeepsShape(s: seq<Entry>, c: Pc)
    requires |s| >= 2 && Shaped(s) && Laminar(s)
    ensures Shaped(Returned(s[..|s| - 1], c)) && Laminar(Returned(s[..|s| - 1], c))
  {
    var r := Returned(s[..|s| - 1], c);
    ReturnedEntries(s, c);
    hide Returned;
    forall i | 0 <= i < |r| && CallAbove(r, i) ensures r[i + 1].mask <= r[i].mask {
      assert CallAbove(s, i);
    }
    hide Shaped, CallAbove;
    forall i, j | 0 <= i < j < |r| ensures Nested(r[i], r[j]) {
      assert Nested(s[i], s[j]);
    }
  }

  lemma ReturnedEntries(s: seq<Entry>, c: Pc)
    requires |s| >= 2
    ensures var r := Returned(s[..|s| - 1], c);
      |r| < |s| && forall i :: 0 <= i < |r| ==> r[i].mask == s[i].mask && r[i].kind == s[i].kind && r[i].rpc == s[i].rpc
  {
  }

  lemma ReturnKeepsPoints(s: seq<Entry>, done: set<nat>, done': set<nat>, c: Pc)
    requires |s| >= 2 && Shaped(s) && CallsCover(s, done) && Reconverges(s, done) && done <= done'
    requires s[|s| - 1].kind.Call?
    requires c != NULL_PC
    ensures Reconverges(Returned(s[..|s| - 1], c), done') && CallsCover(Returned(s[..|s| - 1], c), done')
  {
    var r := Returned(s[..|s| - 1], c);
    forall j, t | 0 <= j < |r| && Reconverging(r[j]) && t in r[j].mask && t !in done' ensures FindsItsPoint(r, j, t) {
      assert FindsItsPoint(s, j, t);
      OwnerSame(s, r, j, j, t);
    }
    assert Reconverges(r, done');
    ReturnStillCovers(s, done, done', c);
  }

  lemma ReturnStillCovers(s: seq<Entry>, done: set<nat>, done': set<nat>, c: Pc)
    requires |s| >= 2 && Shaped(s) && CallsCover(s, done) && Reconverges(s, done) && done <= done'
    requires s[|s| - 1].kind.Call?
    requires c != NULL_PC
    ensures CallsCover(Returned(s[..|s| - 1], c), done')
  {
    var r := Returned(s[..|s| - 1], c);
    hide Laminar, Owner, OwnerBelow;
    forall i, t | 0 <= i < |r| && CallAbove(r, i) && t in r[i].mask && t !in done' ensures Owner(r, t) > i {
      assert CallAbove(s, i) && Owner(s, t) > i;
      OwnerAfterReturn(s, done, done', c, t);
      if t in s[|s| - 1].mask && |r| == |s| - 2 {
        assert FindsItsPoint(s, |s| - 2, t);
      }
    }
  }

  // ---------------------------------------------------------------------------------
  // Any update

  /** The groups that get an entry when the top entry is split. */
  ghost function SplitGroups(s: seq<Entry>, live: set<nat>, pcs: seq<Pc>, recvgPc: Pc): seq<Pc>
    requires s != [] && live != {} && LanesBelow(live, |pcs|)
  {
    var top, groups := s[|s| - 1], Groups(live, pcs);
    if Diverges(top, groups) then Without(Kept(top, groups), recvgPc) else Kept(top, groups)
  }

  lemma SplitStacks(s: seq<Entry>, live: set<nat>, pcs: seq<Pc>, recvgPc: Pc)
    requires s != [] && live != {} && LanesBelow(live, |pcs|)
    ensures var top, groups, cs := s[|s| - 1], Groups(live, pcs), SplitGroups(s, live, pcs, recvgPc);
      Split(s, groups, live, pcs, recvgPc) ==
        if Diverges(top, groups) && recvgPc != top.rpc then OverParent(s, live, pcs, cs, recvgPc)
          else Replaced(s, live, pcs, cs)
  {
    hide Groups, Kept, Without, Spawn, Class;
  }

  lemma SplitShape(s: seq<Entry>, live: set<nat>, pcs: seq<Pc>, recvgPc: Pc)
    requires s != [] && live != {} && LanesBelow(live, |pcs|)
    requires s[|s| - 1].kind.Call? ==> s[|s| - 1].rpc == NULL_PC
    requires forall t :: t in live ==> pcs[t] != NULL_PC
    ensures var top, groups, cs := s[|s| - 1], Groups(live, pcs), SplitGroups(s, live, pcs, recvgPc);
      if Diverges(top, groups) && recvgPc != top.rpc then
        && |groups| >= 2 && Split(s, groups, live, pcs, recvgPc) == OverParent(s, live, pcs, cs, recvgPc)
        && ((forall t :: t in live && top.kind.Normal? ==> pcs[t] != top.rpc) ==> GroupsOver(cs, live, pcs, recvgPc))
        && (top.kind.Normal? ==> top.rpc !in cs)
      else
        Split(s, groups, live, pcs, recvgPc) == Replaced(s, live, pcs, cs) && GroupsAbove(cs, live, pcs, top)
  {
    var top, groups := s[|s| - 1], Groups(live, pcs);
    var kept := Kept(top, groups);
    GroupMembers(live, pcs);
    KeptMembers(top, groups);
    WithoutMembers(kept, recvgPc);
    SplitStacks(s, live, pcs, recvgPc);
    hide Groups, Without, Kept, Split, OverParent, Replaced, Class, Distinct, GroupsOver, GroupsAbove;
    if !Diverges(top, groups) {
      AboveMembers(groups, kept, kept, live, pcs, top);
    } else if recvgPc == top.rpc {
      AboveMembers(groups, kept, Without(kept, recvgPc), live, pcs, top);
    } else {
      OverMembers(groups, kept, Without(kept, recvgPc), live, pcs, top, recvgPc);
      AtLeastTwo(groups, kept);
    }
  }

  lemma AtLeastTwo(groups: seq<Pc>, kept: seq<Pc>)
    requires groups != [] && kept != [] && kept[0] != groups[|groups| - 1] && forall c :: c in kept ==> c in groups
    ensures |groups| >= 2
  {
    assert kept[0] in kept;
  }

  lemma OverMembers(groups: seq<Pc>, kept: seq<Pc>, cs: seq<Pc>, live: set<nat>, pcs: seq<Pc>, top: Entry, recvgPc: Pc)
    requires LanesBelow(live, |pcs|) && Distinct(cs)
    requires forall c :: c in groups <==> Class(live, pcs, c) != {}
    requires forall c :: c in cs <==> c in kept && c != recvgPc
    requires forall c :: c in kept <==> c in groups && !(top.kind.Normal? && c == top.rpc)
    ensures (forall t :: t in live && top.kind.Normal? ==> pcs[t] != top.rpc) ==> GroupsOver(cs, live, pcs, recvgPc)
    ensures top.kind.Normal? ==> top.rpc !in cs
  {
    hide Distinct;
    if forall t :: t in live && top.kind.Normal? ==> pcs[t] != top.rpc {
      assert top.kind.Normal? ==> Class(live, pcs, top.rpc) == {};
      hide Class;
      forall c ensures c in cs <==> Class(live, pcs, c) != {} && c != recvgPc {
      }
    }
  }

  lemma AboveMembers(groups: seq<Pc>, kept: seq<Pc>, cs: seq<Pc>, live: set<nat>, pcs: seq<Pc>, top: Entry)
    requires LanesBelow(live, |pcs|) && Distinct(cs) && forall t :: t in live ==> pcs[t] != NULL_PC
    requires top.kind.Call? ==> top.rpc == NULL_PC
    requires forall c :: c in groups <==> Class(live, pcs, c) != {}
    requires cs == kept || forall c :: c in cs <==> c in kept && c != top.rpc
    requires forall c :: c in kept <==> c in groups && !(top.kind.Normal? && c == top.rpc)
    ensures GroupsAbove(cs, live, pcs, top)
  {
    assert Class(live, pcs, NULL_PC) == {};
    hide Distinct, Class;
    forall c ensures c in cs <==> Class(live, pcs, c) != {} && !(top.kind.Normal? && c == top.rpc) {
    }
  }

  lemma GroupMembers(live: set<nat>, pcs: seq<Pc>)
    requires LanesBelow(live, |pcs|)
    ensures Distinct(Groups(live, pcs)) && forall c :: c in Groups(live, pcs) <==> Class(live, pcs, c) != {}
  {
    GroupsPartition(live, pcs);
  }

  lemma KeptMembers(top: Entry, groups: seq<Pc>)
    requires Distinct(groups)
    ensures Distinct(Kept(top, groups))
    ensures forall c :: c in Kept(top, groups) <==> c in groups && !(top.kind.Normal? && c == top.rpc)
  {
    WithoutMembers(groups, top.rpc);
  }

  /** Every legal update that loses no lane keeps the whole invariant. */
  lemma UpdateKeeps(s: seq<Entry>, all: set<nat>, done: set<nat>, pcs: seq<Pc>, done': set<nat>, pcs': seq<Pc>,
                    recvgPc: Pc, op: Op)
    requires Inv(s, all, done, pcs) && Moves(s, all, done, pcs, done', pcs', op)
    requires KeepsLanes(s, done', pcs', recvgPc, op)
    ensures Inv(Updated(s, done', pcs', recvgPc, op), all, done', pcs')
  {
    var top, live := s[|s| - 1], Live(s, done');
    if live == {} {
      assert Updated(s, done', pcs', recvgPc, op) == Replaced(s, live, pcs', []);
      ReplaceKeeps(s, all, done, pcs, done', pcs', op, []);
    } else if op.CallOp? {
      CallKeeps(s, all, done, pcs, done', pcs');
    } else if IsSpecial(s, op) {
      ReturnKeeps(s, all, done, pcs, done', pcs');
    } else {
      var groups, cs := Groups(live, pcs'), SplitGroups(s, live, pcs', recvgPc);
      SplitShape(s, live, pcs', recvgPc);
      if Diverges(top, groups) && recvgPc != top.rpc {
        assert Updated(s, done', pcs', recvgPc, op) == OverParent(s, live, pcs', cs, recvgPc);
        ParentKeeps(s, all, done, pcs, done', pcs', op, cs, recvgPc);
      } else {
        assert Updated(s, done', pcs', recvgPc, op) == Replaced(s, live, pcs', cs);
        ReplaceKeeps(s, all, done, pcs, done', pcs', op, cs);
      }
    }
  }

  /** An update of a stack that is right for every live lane leaves it right for every live
      lane exactly when it loses no lane: the condition cannot be weakened. */
  lemma RefinesIff(s: seq<Entry>, all: set<nat>, done: set<nat>, pcs: seq<Pc>, done': set<nat>, pcs': seq<Pc>,
                   recvgPc: Pc, op: Op)
    requires Inv(s, all, done, pcs) && Moves(s, all, done, pcs, done', pcs', op)
    ensures Refines(Updated(s, done', pcs', recvgPc, op), all - done', pcs') <==>
      KeepsLanes(s, done', pcs', recvgPc, op)
  {
    if KeepsLanes(s, done', pcs', recvgPc, op) {
      UpdateKeeps(s, all, done, pcs, done', pcs', recvgPc, op);
    } else {
      var top, n, live := s[|s| - 1], |s| - 1, Live(s, done');
      var t :| t in live && pcs'[t] == top.rpc;
      SplitShape(s, live, pcs', recvgPc);
      var cs := SplitGroups(s, live, pcs', recvgPc);
      var r := OverParent(s, live, pcs', cs, recvgPc);
      assert Updated(s, done', pcs', recvgPc, op) == r;
      forall k | n < k < |r| ensures t !in r[k].mask {
        assert cs[k - |s|] in cs;
      }
      OwnerIs(r, |r|, t, n);
      assert t in all - done';
    }
  }

  const LOST_BEFORE: seq<Entry> := [Entry(24, {0, 1, 2}, NULL_PC, Normal), Entry(8, {0, 1}, 24, Normal)]
  const LOST_PCS: seq<Pc> := [8, 8, 24]
  const LOST_NEXT: seq<Pc> := [24, 16, 24]

  lemma LostLaneBefore()
    ensures Inv(LOST_BEFORE, {0, 1, 2}, {}, LOST_PCS)
  {
    var s := LOST_BEFORE;
    OwnerIs(s, 2, 0, 1);
    OwnerIs(s, 2, 1, 1);
    OwnerIs(s, 2, 2, 0);
    OwnerIs(s, 1, 0, 0);
    OwnerIs(s, 1, 1, 0);
    assert 2 in s[0].mask;
  }

  lemma LostLaneGroups()
    ensures Groups({0, 1}, LOST_NEXT) == [16, 24]
  {
    assert Highest({0, 1}) == 1 && Highest({0}) == 0;
    assert {0, 1} - Class({0, 1}, LOST_NEXT, 16) == {0};
    assert {0} - Class({0}, LOST_NEXT, 24) == {};
    assert Groups({0}, LOST_NEXT) == [24] + Groups({}, LOST_NEXT);
  }

  /** A warp of two lanes inside a region that reconverges at PC 24 splits, while one lane goes
      to 24, with any other point, as the null PC for a predicated break: that lane is then
      found at this point. */
  lemma LostLane(recvgPc: Pc)
    requires recvgPc != 24
    ensures Inv(LOST_BEFORE, {0, 1, 2}, {}, LOST_PCS)
    ensures Moves(LOST_BEFORE, {0, 1, 2}, {}, LOST_PCS, {}, LOST_NEXT, OtherOp)
    ensures !Refines(Updated(LOST_BEFORE, {}, LOST_NEXT, recvgPc, OtherOp), {0, 1, 2}, LOST_NEXT)
  {
    LostLaneBefore();
    LostLaneGroups();
    hide Inv, Refines, Updated, Groups;
    var s := LOST_BEFORE;
    assert Live(s, {}) == {0, 1};
    assert Kept(s[1], [16, 24]) == [16] by {
      assert [16, 24][1..] == [24];
      assert Without([24], 24) == Without([24][1..], 24);
    }
    assert !KeepsLanes(s, {}, LOST_NEXT, recvgPc, OtherOp) by {
      assert LOST_NEXT[0] == s[1].rpc && 0 in Live(s, {});
    }
    RefinesIff(s, {0, 1, 2}, {}, LOST_PCS, {}, LOST_NEXT, recvgPc, OtherOp);
    assert {0, 1, 2} - {} == {0, 1, 2};
  }

  lemma LaunchEstablishes(startPc: Pc, mask: set<nat>, done: set<nat>, pcs: seq<Pc>)
    requires mask != {} && LanesBelow(mask, |pcs|) && forall t :: t in mask - done ==> pcs[t] == startPc
    ensures Inv([Entry(startPc, mask, NULL_PC, Normal)], mask, done, pcs)
  {
    var s := [Entry(startPc, mask, NULL_PC, Normal)];
    forall t | t in mask ensures Owner(s, t) == 0 {
      OwnerIs(s, 1, t, 0);
    }
  }

  // ---------------------------------------------------------------------------------
  // Bounded depth

  ghost function Normals(s: seq<Entry>): seq<set<nat>>
  {
    if s == [] then []
    else if s[0].kind.Normal? then [s[0].mask] + Normals(s[1..])
    else Normals(s[1..])
  }

  ghost function Calls(s: seq<Entry>): nat
  {
    if s == [] then 0 else (if s[0].kind.Call? then 1 else 0) + Calls(s[1..])
  }

  /** Non-empty masks inside `u`; each disjoint from or strictly inside every earlier one. */
  ghost predicate Family(ms: seq<set<nat>>, u: set<nat>) {
    && (forall i :: 0 <= i < |ms| ==> ms[i] != {} && ms[i] <= u)
    && (forall i, j :: 0 <= i < j < |ms| ==> ms[i] !! ms[j] || ms[j] < ms[i])
  }

  /** The members of a family inside `a`, if `inside`, or else the other ones. */
  ghost function Pick(ms: seq<set<nat>>, a: set<nat>, inside: bool): seq<set<nat>>
  {
    if ms == [] then []
    else if (ms[0] <= a) == inside then [ms[0]] + Pick(ms[1..], a, inside)
    else Pick(ms[1..], a, inside)
  }

  lemma PickSplits(ms: seq<set<nat>>, a: set<nat>)
    ensures |ms| == |Pick(ms, a, true)| + |Pick(ms, a, false)|
  {
  }

  lemma {:induction false} PickFamily(ms: seq<set<nat>>, a: set<nat>, inside: bool, u: set<nat>)
    requires Family(ms, u) && forall i :: 0 <= i < |ms| ==> ms[i] !! a || ms[i] < a
    ensures var ps := Pick(ms, a, inside);
      && Family(ps, if inside then a else u - a)
      && (forall p :: p in ps ==> p in ms)
      && (inside ==> forall i :: 0 <= i < |ps| ==> ps[i] != a)
      && (u <= a && !inside ==> ps == [])
  {
    if ms == [] {
    } else {
      assert ms == [ms[0]] + ms[1..];
      assert Family(ms[1..], u);
      PickFamily(ms[1..], a, inside, u);
      var qs, ps := Pick(ms[1..], a, inside), Pick(ms, a, inside);
      if (ms[0] <= a) == inside {
        forall j | 0 <= j < |qs| ensures ms[0] !! qs[j] || qs[j] < ms[0] {
          assert qs[j] in ms[1..];
        }
        assert ps == [ms[0]] + qs;
      }
    }
  }

  /** A family of masks inside `u` has at most 2|u| - 1 members, and one less if `u` itself
      is not among them. */
  lemma {:induction false} FamilyBound(ms: seq<set<nat>>, u: set<nat>)
    requires Family(ms, u) && u != {}
    ensures |ms| <= 2 * |u| - 1
    ensures (forall i :: 0 <= i < |ms| ==> ms[i] != u) ==> |ms| <= 2 * |u| - 2
    decreases |u|, |ms|
  {
    if ms == [] {
    } else {
      var a, rest := ms[0], ms[1..];
      var inner, outer := Pick(rest, a, true), Pick(rest, a, false);
      assert Family(rest, u);
      PickSplits(rest, a);
      PickFamily(rest, a, true, u);
      PickFamily(rest, a, false, u);
      assert u == a + (u - a) && |u| == |a| + |u - a|;
      FamilyBound(inner, a);
      if u - a == {} {
        assert outer == [];
      } else {
        FamilyBound(outer, u - a);
      }
    }
  }

  lemma {:induction false} NormalsFamily(s: seq<Entry>, u: set<nat>)
    requires Laminar(s) && forall i :: 0 <= i < |s| ==> s[i].mask != {} && s[i].mask <= u
    ensures Family(Normals(s), u) && |s| == |Normals(s)| + Calls(s)
    ensures forall m :: m in Normals(s) ==> exists i :: 0 <= i < |s| && s[i].kind.Normal? && s[i].mask == m
  {
    if s == [] {
    } else {
      var rest := s[1..];
      forall i, j | 0 <= i < j < |rest| ensures Nested(rest[i], rest[j]) {
        assert Nested(s[i + 1], s[j + 1]);
      }
      NormalsFamily(rest, u);
      if s[0].kind.Normal? {
        var ns := Normals(rest);
        forall j | 0 <= j < |ns| ensures s[0].mask !! ns[j] || ns[j] < s[0].mask {
          assert ns[j] in ns;
          var k :| 0 <= k < |rest| && rest[k].kind.Normal? && rest[k].mask == ns[j];
          assert Nested(s[0], s[k + 1]);
        }
      }
      forall m | m in Normals(s) ensures exists i :: 0 <= i < |s| && s[i].kind.Normal? && s[i].mask == m {
        if !(s[0].kind.Normal? && m == s[0].mask) {
          assert m in Normals(rest);
          var k :| 0 <= k < |rest| && rest[k].kind.Normal? && rest[k].mask == m;
          assert s[k + 1] == rest[k];
        }
      }
    }
  }

  /** The stack of a warp with n launched lanes holds at most 2n - 1 NORMAL entries, so at
      most that many plus one for each pending call. */
  lemma BoundedDepth(s: seq<Entry>, all: set<nat>, done: set<nat>, pcs: seq<Pc>)
    requires Inv(s, all, done, pcs) && all != {}
    ensures |s| <= 2 * |all| - 1 + Calls(s)
  {
    NormalsFamily(s, all);
    FamilyBound(Normals(s), all);
  }
}
