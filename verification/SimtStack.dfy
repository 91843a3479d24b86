/** The SIMT reconvergence stack of one warp (`simt_stack` in
    src/abstract_hardware_model.{h,cc}): the mutable stack itself, and the function on
    stack values that says what one `update` does to it. */
module SimtStack {
  import opened Collections

  const ADDRESS_SPACE := 0x1_0000_0000

  /** `address_type`: an unsigned 32-bit program counter. */
  type Pc = p: int | 0 <= p < ADDRESS_SPACE

  /** The source's `(address_type)-1`. */
  const NULL_PC: Pc := 0xFFFF_FFFF

  datatype EntryType = Normal | Call

  /** `simt_stack_entry`; masks are the sets of lanes whose bit is set. */
  datatype Entry = Entry(pc: Pc, mask: set<nat>, rpc: Pc, kind: EntryType)

  /** A default-constructed entry. */
  const BLANK := Entry(NULL_PC, {}, NULL_PC, Normal)

  datatype Op = CallOp | RetOp | OtherOp

  // ---------------------------------------------------------------------------------
  // Groups of lanes

  ghost function Highest(lanes: set<nat>): (h: nat)
    requires lanes != {}
    ensures h in lanes && forall l :: l in lanes ==> l <= h
  {
    var x :| x in lanes;
    if lanes == {x} then
      x
    else
      assert lanes == {x} + (lanes - {x});
      var h := Highest(lanes - {x});
      if h < x then x else h
  }

  /** The lanes of `live` whose next PC is `c`. */
  ghost function Class(live: set<nat>, nextPc: seq<Pc>, c: Pc): set<nat>
  {
    set l | l in live && l < |nextPc| && nextPc[l] == c
  }

  /** The next PCs of the live lanes, in the order the update takes them: each time the
      PC of the highest lane not yet taken. */
  ghost function Groups(live: set<nat>, nextPc: seq<Pc>): seq<Pc>
    requires LanesBelow(live, |nextPc|)
    decreases |live|
  {
    if live == {} then
      []
    else
      var h := Highest(live);
      var rest := live - Class(live, nextPc, nextPc[h]);
      assert h in Class(live, nextPc, nextPc[h]);
      SubsetSize(rest, live);
      [nextPc[h]] + Groups(rest, nextPc)
  }

  ghost predicate Precedes(a: set<nat>, b: set<nat>) {
    a != {} && b != {} && Highest(b) < Highest(a)
  }

  /** The groups are exactly the classes of live lanes under equal next PC, each taken
      once, in order of decreasing highest lane. */
  lemma {:induction false} GroupsPartition(live: set<nat>, nextPc: seq<Pc>)
    requires LanesBelow(live, |nextPc|)
    ensures forall c :: c in Groups(live, nextPc) <==> Class(live, nextPc, c) != {}
    ensures Distinct(Groups(live, nextPc))
    ensures forall i, j :: 0 <= i < j < |Groups(live, nextPc)| ==>
      Precedes(Class(live, nextPc, Groups(live, nextPc)[i]), Class(live, nextPc, Groups(live, nextPc)[j]))
    decreases |live|
  {
    if live == {} {
    } else {
      var h := Highest(live);
      var c := nextPc[h];
      var rest := live - Class(live, nextPc, c);
      assert h in Class(live, nextPc, c);
      SubsetSize(rest, live);
      GroupsPartition(rest, nextPc);
      var cs, ds := Groups(live, nextPc), Groups(rest, nextPc);
      assert cs == [c] + ds;
      assert Class(rest, nextPc, c) == {};
      forall d | d != c ensures Class(rest, nextPc, d) == Class(live, nextPc, d) {
      }
      forall i, j | 0 <= i < j < |cs|
        ensures cs[i] != cs[j]
        ensures Precedes(Class(live, nextPc, cs[i]), Class(live, nextPc, cs[j]))
      {
        assert cs[j] == ds[j - 1] && cs[j] in ds;
        if i > 0 {
          assert cs[i] == ds[i - 1] && cs[i] in ds;
        }
      }
    }
  }

  ghost function Without(cs: seq<Pc>, x: Pc): seq<Pc>
  {
    if cs == [] then []
    else if cs[0] == x then Without(cs[1..], x)
    else [cs[0]] + Without(cs[1..], x)
  }

  lemma {:induction false} WithoutMembers(cs: seq<Pc>, x: Pc)
    requires Distinct(cs)
    ensures forall c :: c in Without(cs, x) <==> c in cs && c != x
    ensures Distinct(Without(cs, x))
  {
    if cs == [] {
    } else {
      WithoutMembers(cs[1..], x);
      var r, q := Without(cs[1..], x), Without(cs, x);
      assert cs == [cs[0]] + cs[1..];
      assert q == if cs[0] == x then r else [cs[0]] + r;
      forall i, j | 0 <= i < j < |q| ensures q[i] != q[j] {
        if cs[0] != x {
          assert q[j] == r[j - 1] && r[j - 1] in cs[1..];
          assert i > 0 ==> q[i] == r[i - 1];
        }
      }
    }
  }

  lemma WithoutAppend(a: seq<Pc>, b: seq<Pc>, x: Pc)
    ensures Without(a + b, x) == Without(a, x) + Without(b, x)
  {
    if a == [] {
      assert a + b == b;
    } else {
      assert (a + b)[1..] == a[1..] + b;
      WithoutAppend(a[1..], b, x);
    }
  }

  // ---------------------------------------------------------------------------------
  // What an update does

  /** The groups that stay above the reconvergence point of the old top entry. A CALL
      entry never reconverges. */
  ghost function Kept(top: Entry, groups: seq<Pc>): seq<Pc>
  {
    if top.kind.Normal? then Without(groups, top.rpc) else groups
  }

  /** The warp diverges when a kept group is met while other groups are still to come. */
  ghost predicate Diverges(top: Entry, groups: seq<Pc>)
    requires groups != []
  {
    var kept := Kept(top, groups);
    kept != [] && kept[0] != groups[|groups| - 1]
  }

  /** One entry per PC, in order; the first has kind `first`, the others are NORMAL. */
  ghost function Spawn(cs: seq<Pc>, live: set<nat>, nextPc: seq<Pc>, rpc: Pc, first: EntryType): (es: seq<Entry>)
    ensures |es| == |cs|
    ensures forall i :: 0 <= i < |cs| ==>
      es[i] == Entry(cs[i], Class(live, nextPc, cs[i]), rpc, if i == 0 then first else Normal)
  {
    seq(|cs|, i requires 0 <= i < |cs| => Entry(cs[i], Class(live, nextPc, cs[i]), rpc, if i == 0 then first
      else Normal))
  }

  /** The stack after a CALL entry has been popped by a return to `c`: the caller's entry
      takes the return PC, or goes away if that is where it reconverges. */
  ghost function Returned(base: seq<Entry>, c: Pc): seq<Entry>
    requires base != []
  {
    var caller := base[|base| - 1];
    if c == caller.rpc && caller.kind.Normal? then base[..|base| - 1]
    else base[..|base| - 1] + [caller.(pc := c)]
  }

  ghost predicate LanesBelow(mask: set<nat>, n: nat) {
    forall l :: l in mask ==> l < n
  }

  ghost function Live(s: seq<Entry>, done: set<nat>): set<nat>
    requires s != []
  {
    s[|s| - 1].mask - done
  }

  /** What `update` asks of its caller: the assertions of the source, and that no live
      lane of the top entry has the null PC for its next PC. */
  ghost predicate Legal(s: seq<Entry>, done: set<nat>, nextPc: seq<Pc>, op: Op)
  {
    && s != []
    && s[|s| - 1].mask != {}
    && LanesBelow(s[|s| - 1].mask, |nextPc|)
    && (forall l :: l in Live(s, done) ==> nextPc[l] != NULL_PC)
    && (IsSpecial(s, op) ==> forall l, m :: l in Live(s, done) && m in Live(s, done) ==> nextPc[l] == nextPc[m])
    && (op.RetOp? && s[|s| - 1].kind.Call? && Live(s, done) != {} ==> |s| >= 2)
  }

  ghost predicate IsSpecial(s: seq<Entry>, op: Op)
    requires s != []
  {
    op.CallOp? || (op.RetOp? && s[|s| - 1].kind.Call?)
  }

  /** The stack after one `update`. */
  ghost function Updated(s: seq<Entry>, done: set<nat>, nextPc: seq<Pc>, recvgPc: Pc, op: Op): seq<Entry>
    requires Legal(s, done, nextPc, op)
  {
    var live := Live(s, done);
    if live == {} then
      s[..|s| - 1]
    else if op.CallOp? then
      s + [Entry(nextPc[Highest(live)], live, NULL_PC, Call)]
    else if op.RetOp? && s[|s| - 1].kind.Call? then
      Returned(s[..|s| - 1], nextPc[Highest(live)])
    else
      Split(s, Groups(live, nextPc), live, nextPc, recvgPc)
  }

  /** The ordinary case of an update with at least one live lane. */
  ghost function Split(s: seq<Entry>, groups: seq<Pc>, live: set<nat>, nextPc: seq<Pc>, recvgPc: Pc): seq<Entry>
    requires s != [] && groups != []
  {
    var top, base := s[|s| - 1], s[..|s| - 1];
    if Diverges(top, groups) then
      Parent(base, top, recvgPc) + Children(top, groups, live, nextPc, recvgPc)
    else
      base + Spawn(Kept(top, groups), live, nextPc, top.rpc, top.kind)
  }

  /** What stays below the groups of a diverging warp: the old top entry becomes the
      reconvergence entry, unless that entry is already there. */
  ghost function Parent(base: seq<Entry>, top: Entry, recvgPc: Pc): seq<Entry>
  {
    if recvgPc != top.rpc then base + [top.(pc := recvgPc)] else base
  }

  ghost function ChildKind(top: Entry, recvgPc: Pc): EntryType
  {
    if recvgPc != top.rpc then Normal else top.kind
  }

  ghost function Children(top: Entry, groups: seq<Pc>, live: set<nat>, nextPc: seq<Pc>, recvgPc: Pc): seq<Entry>
  {
    Spawn(Without(Kept(top, groups), recvgPc), live, nextPc, recvgPc, ChildKind(top, recvgPc))
  }

  // ---------------------------------------------------------------------------------
  // The stack as the source keeps it

  /** The inner loop of `update`: the group of the highest live lane of `active`, and the
      lanes of `active` that are neither done nor in the group. */
  method ExtractGroup(warpSize: nat, active: set<nat>, done: set<nat>, nextPc: seq<Pc>)
    returns (rest: set<nat>, groupPc: Pc, group: set<nat>)
    requires |nextPc| == warpSize && LanesBelow(active, warpSize)
    requires forall l :: l in active - done ==> nextPc[l] != NULL_PC
    ensures active - done == {} ==> groupPc == NULL_PC && rest == {}
    ensures active - done != {} ==> groupPc != NULL_PC && groupPc == nextPc[Highest(active - done)]
    ensures active - done != {} ==> group == Class(active - done, nextPc, groupPc) && rest == active - done - group
  {
    rest, groupPc, group := active, NULL_PC, {};
    ghost var live := active - done;
    assert forall l :: l in active && l !in done ==> l in live;
    var i := warpSize;
    while i > 0
      invariant 0 <= i <= warpSize
      invariant groupPc == NULL_PC ==> LanesBelow(live, i) && group == {}
      invariant groupPc != NULL_PC ==>
        exists h :: h in live && h >= i && (forall l :: l in live ==> l <= h) && nextPc[h] == groupPc
      invariant forall l :: l in group <==> l in live && l >= i && nextPc[l] == groupPc
      invariant forall l :: l in rest <==> l in active && (l >= i ==> l !in done && nextPc[l] != groupPc)
    {
      i := i - 1;
      if i in rest {
        if i in done {
          rest := rest - {i};
        } else if groupPc == NULL_PC {
          groupPc := nextPc[i];
          group := group + {i};
          rest := rest - {i};
        } else if groupPc == nextPc[i] {
          group := group + {i};
          rest := rest - {i};
        }
      }
    }
  }

  class Stack {
    const warpSize: nat
    var entries: seq<Entry>

    constructor (warpSize: nat)
      ensures this.warpSize == warpSize && entries == []
    {
      this.warpSize := warpSize;
      entries := [];
    }

    method Launch(startPc: Pc, activeMask: set<nat>)
      modifies this
      ensures entries == [Entry(startPc, activeMask, NULL_PC, Normal)]
    {
      entries := [];
      entries := entries + [BLANK.(pc := startPc, mask := activeMask)];
    }

    method Update(done: set<nat>, nextPc: seq<Pc>, recvgPc: Pc, op: Op)
      requires |nextPc| == warpSize
      requires Legal(entries, done, nextPc, op)
      modifies this
      ensures entries == Updated(old(entries), done, nextPc, recvgPc, op)
    {
      ghost var s := entries;
      var top := entries[|entries| - 1];
      var active := top.mask;
      ghost var seen: seq<Pc> := [];
      var diverged := false;
      while active != {}
        invariant AtLoopHead(entries, s, active, done, seen, diverged, nextPc, recvgPc, op)
        decreases |active|
      {
        ghost var before := active;
        ghost var wasSeen := seen;
        var returned;
        active, diverged, returned, seen := Round(s, top, active, done, nextPc, recvgPc, op, diverged, seen);
        if returned {
          return;
        }
        SubsetSize(active, before);
      }
      LoopDone(entries, s, done, seen, diverged, nextPc, recvgPc, op);
      entries := entries[..|entries| - 1];
    }

    /** One iteration of the loop of `update`: takes the next group out of `active`. A call
        or a return ends the update at once. */
    method Round(ghost s: seq<Entry>, top: Entry, active: set<nat>, done: set<nat>, nextPc: seq<Pc>, recvgPc: Pc,
                 op: Op, diverged: bool, ghost seen: seq<Pc>)
      returns (rest: set<nat>, d: bool, returned: bool, ghost nowSeen: seq<Pc>)
      requires |nextPc| == warpSize && Legal(s, done, nextPc, op) && top == s[|s| - 1]
      requires AtLoopHead(entries, s, active, done, seen, diverged, nextPc, recvgPc, op) && active != {}
      requires active <= top.mask
      modifies this
      ensures returned ==> entries == Updated(s, done, nextPc, recvgPc, op)
      ensures !returned ==> rest < active && AtLoopHead(entries, s, rest, done, nowSeen, d, nextPc, recvgPc, op)
    {
      hide AtLoopHead, Placed, Groups, InProgress;
      ghost var es, live := entries, Live(s, done);
      var groupPc, group;
      rest, groupPc, group := ExtractGroup(warpSize, active, done, nextPc);
      d, returned, nowSeen := diverged, false, seen;
      if groupPc == NULL_PC {
        NothingLeft(es, s, active, done, seen, diverged, nextPc, recvgPc, op);
        return;
      }
      GroupTaken(es, s, active, rest, done, seen, diverged, nextPc, recvgPc, op, groupPc, group);
      if op == CallOp {
        returned := true;
        PushCall(groupPc, group);
        return;
      } else if op == RetOp && top.kind == Call {
        returned := true;
        PopCall(groupPc);
        return;
      }
      nowSeen := seen + [groupPc];
      d := Place(top, groupPc, group, rest != {}, recvgPc, diverged);
    }

    method PushCall(groupPc: Pc, group: set<nat>)
      modifies this
      ensures entries == old(entries) + [Entry(groupPc, group, NULL_PC, Call)]
    {
      entries := entries + [BLANK.(pc := groupPc, mask := group, kind := Call)];
    }

    /** Pops the CALL entry and checks whether the caller's entry reconverges. */
    method PopCall(groupPc: Pc)
      requires |entries| >= 2
      modifies this
      ensures entries == Returned(old(entries)[..|old(entries)| - 1], groupPc)
    {
      entries := entries[..|entries| - 1];
      var caller := entries[|entries| - 1];
      entries := entries[..|entries| - 1] + [caller.(pc := groupPc)];
      if groupPc == caller.rpc && caller.kind != Call {
        entries := entries[..|entries| - 1];
      }
    }

    /** The rest of the loop body of `update`: what happens to one group that is neither
        called nor returned. */
    method Place(top: Entry, groupPc: Pc, group: set<nat>, more: bool, recvgPc: Pc, diverged: bool) returns (d: bool)
      requires entries != [] && (!diverged ==> entries[|entries| - 1] == top)
      modifies this
      ensures d == DivergedAfter(top, groupPc, more, diverged)
      ensures entries == Placed(old(entries), top, groupPc, group, more, recvgPc, diverged)
    {
      d := diverged;
      if groupPc == top.rpc && top.kind != Call {
        return;
      }
      if more && !d {
        d := true;
        if recvgPc != top.rpc {
          entries := entries[..|entries| - 1] + [top.(pc := recvgPc)];
          entries := entries + [BLANK];
        }
      }
      if d && groupPc == recvgPc {
        return;
      }
      var cur := entries[|entries| - 1].(pc := groupPc, mask := group, rpc := if d then recvgPc else top.rpc);
      entries := entries[..|entries| - 1] + [cur];
      entries := entries + [BLANK];
    }
  }

  ghost predicate DivergedAfter(top: Entry, groupPc: Pc, more: bool, diverged: bool)
  {
    diverged || (more && !(groupPc == top.rpc && top.kind.Normal?))
  }

  ghost function Placed(es: seq<Entry>, top: Entry, groupPc: Pc, group: set<nat>, more: bool,
                        recvgPc: Pc, diverged: bool): seq<Entry>
    requires es != []
  {
    if groupPc == top.rpc && top.kind.Normal? then
      es
    else
      var es0 := if more && !diverged && recvgPc != top.rpc then es[..|es| - 1] + [top.(pc := recvgPc), BLANK] else es;
      var last := |es0| - 1;
      if diverged || more then
        if groupPc == recvgPc then es0
        else es0[..last] + [Entry(groupPc, group, recvgPc, es0[last].kind), BLANK]
      else
        es0[..last] + [Entry(groupPc, group, top.rpc, es0[last].kind), BLANK]
  }

  /** The lanes `rest` of `live` are still to come, after the groups in `seen`. */
  ghost predicate Remaining(live: set<nat>, rest: set<nat>, seen: seq<Pc>, nextPc: seq<Pc>)
    requires LanesBelow(live, |nextPc|)
  {
    && rest <= live
    && Groups(live, nextPc) == seen + Groups(rest, nextPc)
    && (forall l :: l in rest ==> Class(rest, nextPc, nextPc[l]) == Class(live, nextPc, nextPc[l]))
  }

  /** The loop of `update` part way through `groups`. */
  ghost predicate InProgress(es: seq<Entry>, s: seq<Entry>, groups: seq<Pc>, live: set<nat>, more: bool, seen: seq<Pc>,
                             diverged: bool, nextPc: seq<Pc>, recvgPc: Pc)
    requires s != [] && groups != []
  {
    var top, base := s[|s| - 1], s[..|s| - 1];
    && es != []
    && (if diverged then
          Diverges(top, groups) && Pending(es, top, base, seen, live, nextPc, recvgPc)
        else if more then
          Kept(top, seen) == [] && es == s
        else
          es[..|es| - 1] == Split(s, groups, live, nextPc, recvgPc))
  }

  ghost predicate AtLoopHead(es: seq<Entry>, s: seq<Entry>, active: set<nat>, done: set<nat>, seen: seq<Pc>,
                             diverged: bool,
                             nextPc: seq<Pc>, recvgPc: Pc, op: Op)
    requires Legal(s, done, nextPc, op)
  {
    var top, live := s[|s| - 1], Live(s, done);
    && es != []
    && active <= top.mask
    && (!diverged && active != {} ==> es == s)
    && (if seen == [] then (if active == {} then live == {} && es == s else active == top.mask && !diverged)
        else !IsSpecial(s, op) && active !! done)
    && Remaining(live, active - done, seen, nextPc)
    && (live != {} ==> InProgress(es, s, Groups(live, nextPc), live, active != {}, seen, diverged, nextPc, recvgPc))
  }

  /** The state of a diverging update part way: the groups `seen` have their entries, and
      the last entry is the one the next group overwrites. */
  ghost predicate Pending(es: seq<Entry>, top: Entry, base: seq<Entry>, seen: seq<Pc>,
                          live: set<nat>, nextPc: seq<Pc>, recvgPc: Pc)
  {
    var made := Children(top, seen, live, nextPc, recvgPc);
    && |es| > 0
    && es[|es| - 1].kind == (if made == [] then ChildKind(top, recvgPc) else Normal)
    && es[..|es| - 1] == Parent(base, top, recvgPc) + made
  }

  lemma KeptAppend(top: Entry, a: seq<Pc>, b: seq<Pc>)
    ensures Kept(top, a + b) == Kept(top, a) + Kept(top, b)
  {
    WithoutAppend(a, b, top.rpc);
  }

  lemma KeptSnoc(top: Entry, a: seq<Pc>, c: Pc)
    ensures Kept(top, a + [c]) == if c == top.rpc && top.kind.Normal? then Kept(top, a) else Kept(top, a) + [c]
  {
    KeptAppend(top, a, [c]);
    assert [c][1..] == [];
    assert Without([c], top.rpc) == if c == top.rpc then [] else [c];
    assert Kept(top, a) + [] == Kept(top, a);
  }

  lemma SpawnSnoc(cs: seq<Pc>, c: Pc, live: set<nat>, nextPc: seq<Pc>, rpc: Pc, first: EntryType)
    ensures Spawn(cs + [c], live, nextPc, rpc, first) ==
      Spawn(cs, live, nextPc, rpc, first) + [Entry(c, Class(live, nextPc, c), rpc, if cs == [] then first else Normal)]
  {
  }

  lemma RemainingStep(live: set<nat>, before: set<nat>, rest: set<nat>, seen: seq<Pc>, group: set<nat>, c: Pc,
                      nextPc: seq<Pc>)
    requires LanesBelow(live, |nextPc|) && Remaining(live, before, seen, nextPc) && before != {}
    requires c == nextPc[Highest(before)] && group == Class(before, nextPc, c) && rest == before - group
    ensures Remaining(live, rest, seen + [c], nextPc)
    ensures group == Class(live, nextPc, c) && |rest| < |before|
  {
    HighestTaken(before, nextPc, c, group);
    SubsetSize(rest, before);
    assert Groups(before, nextPc) == [c] + Groups(rest, nextPc);
    Associative(seen, [c], Groups(rest, nextPc));
    assert Highest(before) in before;
    hide Highest, Groups;
    RestClasses(live, before, rest, c, nextPc);
  }

  lemma RestClasses(live: set<nat>, before: set<nat>, rest: set<nat>, c: Pc, nextPc: seq<Pc>)
    requires LanesBelow(live, |nextPc|) && before <= live && rest == before - Class(before, nextPc, c)
    requires forall l :: l in before ==> Class(before, nextPc, nextPc[l]) == Class(live, nextPc, nextPc[l])
    ensures forall l :: l in rest ==> Class(rest, nextPc, nextPc[l]) == Class(live, nextPc, nextPc[l])
  {
    forall l | l in rest ensures Class(rest, nextPc, nextPc[l]) == Class(live, nextPc, nextPc[l]) {
      assert Class(rest, nextPc, nextPc[l]) == Class(before, nextPc, nextPc[l]);
    }
  }

  lemma NothingLeft(es: seq<Entry>, s: seq<Entry>, active: set<nat>, done: set<nat>, seen: seq<Pc>,
                    diverged: bool, nextPc: seq<Pc>, recvgPc: Pc, op: Op)
    requires Legal(s, done, nextPc, op) && AtLoopHead(es, s, active, done, seen, diverged, nextPc, recvgPc, op)
    requires active != {} && active - done == {}
    ensures AtLoopHead(es, s, {}, done, seen, diverged, nextPc, recvgPc, op)
  {
    assert {} - done == active - done;
  }

  lemma GroupTaken(es: seq<Entry>, s: seq<Entry>, active: set<nat>, rest: set<nat>, done: set<nat>, seen: seq<Pc>,
                   diverged: bool, nextPc: seq<Pc>, recvgPc: Pc, op: Op, c: Pc, group: set<nat>)
    requires Legal(s, done, nextPc, op) && AtLoopHead(es, s, active, done, seen, diverged, nextPc, recvgPc, op)
    requires LanesBelow(active, |nextPc|) && active - done != {}
    requires c == nextPc[Highest(active - done)] && group == Class(active - done, nextPc, c)
    requires rest == active - done - group
    ensures es != [] && (!diverged ==> es[|es| - 1] == s[|s| - 1]) && rest < active
    ensures IsSpecial(s, op) ==> es == s && group == Live(s, done) != {} && c == nextPc[Highest(Live(s, done))]
    ensures !IsSpecial(s, op) ==>
      AtLoopHead(Placed(es, s[|s| - 1], c, group, rest != {}, recvgPc, diverged), s, rest, done, seen + [c],
                 DivergedAfter(s[|s| - 1], c, rest != {}, diverged), nextPc, recvgPc, op)
  {
    hide InProgress, Placed, Groups, Highest, DivergedAfter;
    var live := Live(s, done);
    HighestTaken(active - done, nextPc, c, group);
    assert live != {} && rest < active && rest - done == rest by {
      assert Highest(active - done) in live;
    }
    RemainingStep(live, active - done, rest, seen, group, c, nextPc);
    if IsSpecial(s, op) {
      assert active - done == live;
    } else {
      hide IsSpecial, Class;
      PlacedStep(es, s, live, rest, seen, diverged, nextPc, recvgPc, c, group, active != {});
    }
  }

  lemma HighestTaken(lanes: set<nat>, nextPc: seq<Pc>, c: Pc, group: set<nat>)
    requires LanesBelow(lanes, |nextPc|) && lanes != {}
    requires c == nextPc[Highest(lanes)] && group == Class(lanes, nextPc, c)
    ensures Highest(lanes) in group && group <= lanes
  {
  }

  lemma PlacedStep(es: seq<Entry>, s: seq<Entry>, live: set<nat>, rest: set<nat>, seen: seq<Pc>,
                   diverged: bool, nextPc: seq<Pc>, recvgPc: Pc, c: Pc, group: set<nat>, more: bool)
    requires s != [] && live != {} && LanesBelow(live, |nextPc|) && Remaining(live, rest, seen + [c], nextPc)
    requires more && InProgress(es, s, Groups(live, nextPc), live, more, seen, diverged, nextPc, recvgPc)
    requires group == Class(live, nextPc, c)
    ensures InProgress(Placed(es, s[|s| - 1], c, group, rest != {}, recvgPc, diverged), s, Groups(live, nextPc), live,
      rest != {},
                       seen + [c], DivergedAfter(s[|s| - 1], c, rest != {}, diverged), nextPc, recvgPc)
    ensures Placed(es, s[|s| - 1], c, group, rest != {}, recvgPc, diverged) != []
    ensures rest != {} && !DivergedAfter(s[|s| - 1], c, rest != {}, diverged) ==>
      Placed(es, s[|s| - 1], c, group, rest != {}, recvgPc, diverged) == s
  {
    var groups, others := Groups(live, nextPc), Groups(rest, nextPc);
    assert groups == seen + [c] + others && Distinct(groups) by {
      GroupsPartition(live, nextPc);
    }
    assert others == [] <==> rest == {};
    PlacedKeeps(es, s, groups, live, others, seen, diverged, nextPc, recvgPc, c);
  }

  lemma PlacedKeeps(es: seq<Entry>, s: seq<Entry>, groups: seq<Pc>, live: set<nat>, rest: seq<Pc>, seen: seq<Pc>,
                    diverged: bool, nextPc: seq<Pc>, recvgPc: Pc, c: Pc)
    requires s != [] && groups == seen + [c] + rest && Distinct(groups)
    requires InProgress(es, s, groups, live, true, seen, diverged, nextPc, recvgPc)
    ensures InProgress(Placed(es, s[|s| - 1], c, Class(live, nextPc, c), rest != [], recvgPc, diverged), s, groups,
      live, rest != [],
                       seen + [c], DivergedAfter(s[|s| - 1], c, rest != [], diverged), nextPc, recvgPc)
  {
    var top, base := s[|s| - 1], s[..|s| - 1];
    if c == top.rpc && top.kind.Normal? {
      PlacedSkip(es, s, groups, live, rest, seen, diverged, nextPc, recvgPc, c);
    } else if diverged || rest != [] {
      PlacedDiverged(es, top, base, seen, rest != [], diverged, live, nextPc, recvgPc, c, Class(live, nextPc, c));
      hide Pending, Placed, Class, Split, Distinct;
      if !diverged {
        NowDiverges(top, seen, c, rest);
      }
    } else {
      PlacedOnly(es, s, groups, live, seen, nextPc, recvgPc, c);
    }
  }

  /** A group at the reconvergence point of the old top entry gets no entry. */
  lemma PlacedSkip(es: seq<Entry>, s: seq<Entry>, groups: seq<Pc>, live: set<nat>, rest: seq<Pc>, seen: seq<Pc>,
                   diverged: bool, nextPc: seq<Pc>, recvgPc: Pc, c: Pc)
    requires s != [] && groups == seen + [c] + rest
    requires InProgress(es, s, groups, live, true, seen, diverged, nextPc, recvgPc)
    requires c == s[|s| - 1].rpc && s[|s| - 1].kind.Normal?
    ensures InProgress(es, s, groups, live, rest != [], seen + [c], diverged, nextPc, recvgPc)
  {
    hide Class;
    var top, base := s[|s| - 1], s[..|s| - 1];
    KeptSnoc(top, seen, c);
    hide Kept;
    if rest == [] {
      assert groups == seen + [c];
      assert base + Spawn([], live, nextPc, top.rpc, top.kind) == base;
    }
  }

  /** The only group that is kept takes the place of the old top entry. */
  lemma PlacedOnly(es: seq<Entry>, s: seq<Entry>, groups: seq<Pc>, live: set<nat>, seen: seq<Pc>, nextPc: seq<Pc>,
                   recvgPc: Pc, c: Pc)
    requires s != [] && groups == seen + [c] && es == s && Kept(s[|s| - 1], seen) == []
    requires !(c == s[|s| - 1].rpc && s[|s| - 1].kind.Normal?)
    ensures InProgress(Placed(es, s[|s| - 1], c, Class(live, nextPc, c), false, recvgPc, false), s, groups, live, false,
                       groups, false, nextPc, recvgPc)
  {
    var top, base := s[|s| - 1], s[..|s| - 1];
    KeptSnoc(top, seen, c);
    hide Kept, Class;
    assert Placed(es, top, c, Class(live, nextPc, c), false, recvgPc, false)[..|es|] ==
      base + Spawn([c], live, nextPc, top.rpc, top.kind);
  }

  lemma NowDiverges(top: Entry, seen: seq<Pc>, c: Pc, rest: seq<Pc>)
    requires Kept(top, seen) == [] && !(c == top.rpc && top.kind.Normal?) && rest != [] && Distinct(seen + [c] + rest)
    ensures Diverges(top, seen + [c] + rest)
  {
    var groups := seen + [c] + rest;
    KeptSnoc(top, seen, c);
    KeptAppend(top, seen + [c], rest);
    hide Kept;
    assert groups[|seen|] == c && groups[|groups| - 1] == rest[|rest| - 1];
  }

  lemma LoopDone(es: seq<Entry>, s: seq<Entry>, done: set<nat>, seen: seq<Pc>, diverged: bool,
                 nextPc: seq<Pc>, recvgPc: Pc, op: Op)
    requires Legal(s, done, nextPc, op) && AtLoopHead(es, s, {}, done, seen, diverged, nextPc, recvgPc, op)
    ensures es[..|es| - 1] == Updated(s, done, nextPc, recvgPc, op)
  {
    var live := Live(s, done);
    if live != {} {
      var groups := Groups(live, nextPc);
      assert Groups({} - done, nextPc) == [];
      assert groups == seen;
      assert es[..|es| - 1] == Split(s, groups, live, nextPc, recvgPc);
    }
  }

  lemma PlacedDiverged(es: seq<Entry>, top: Entry, base: seq<Entry>, seen: seq<Pc>, more: bool, diverged: bool,
                       live: set<nat>, nextPc: seq<Pc>, recvgPc: Pc, c: Pc, group: set<nat>)
    requires if diverged then Pending(es, top, base, seen, live, nextPc, recvgPc)
             else es == base + [top] && Kept(top, seen) == [] && more
    requires !(c == top.rpc && top.kind.Normal?) && group == Class(live, nextPc, c)
    ensures Pending(Placed(es, top, c, group, more, recvgPc, diverged), top, base, seen + [c], live, nextPc, recvgPc)
  {
    var es0 := if !diverged && recvgPc != top.rpc then es[..|es| - 1] + [top.(pc := recvgPc), BLANK] else es;
    hide Class, Kept;
    assert Pending(es0, top, base, seen, live, nextPc, recvgPc) by {
      if !diverged {
        assert es0[..|es0| - 1] == Parent(base, top, recvgPc) + Children(top, seen, live, nextPc, recvgPc);
      }
    }
    PendingMore(es0, top, base, seen, live, nextPc, recvgPc, c);
  }

  lemma PendingMore(es: seq<Entry>, top: Entry, base: seq<Entry>, seen: seq<Pc>, live: set<nat>, nextPc: seq<Pc>,
                    recvgPc: Pc, c: Pc)
    requires Pending(es, top, base, seen, live, nextPc, recvgPc) && !(c == top.rpc && top.kind.Normal?)
    ensures c == recvgPc ==> Pending(es, top, base, seen + [c], live, nextPc, recvgPc)
    ensures c != recvgPc ==>
      Pending(es[..|es| - 1] + [Entry(c, Class(live, nextPc, c), recvgPc, es[|es| - 1].kind), BLANK], top, base,
        seen + [c], live, nextPc, recvgPc)
  {
    KeptSnoc(top, seen, c);
    hide Class, Kept, Parent;
    var made := Without(Kept(top, seen), recvgPc);
    WithoutAppend(Kept(top, seen), [c], recvgPc);
    assert Without([c], recvgPc) == if c == recvgPc then [] else [c] by {
      assert [c][1..] == [];
    }
    if c == recvgPc {
      assert made + [] == made;
    } else {
      SpawnSnoc(made, c, live, nextPc, recvgPc, ChildKind(top, recvgPc));
      var cur := Entry(c, Class(live, nextPc, c), recvgPc, es[|es| - 1].kind);
      var es1 := es[..|es| - 1] + [cur, BLANK];
      assert es1[..|es1| - 1] == es[..|es| - 1] + [cur];
    }
  }
}
