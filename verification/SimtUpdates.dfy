/** What an update makes of the top entry when its lanes stay together, or part in two. */
module SimtUpdates {
  import opened PostDominance
  import opened SimtStack
  import opened SimtFlow

  lemma OneGroup(live: set<nat>, pcs: seq<Pc>, c: Pc)
    requires LanesBelow(live, |pcs|) && live != {} && forall t :: t in live ==> pcs[t] == c
    ensures Groups(live, pcs) == [c] && Class(live, pcs, c) == live
  {
    assert Class(live, pcs, c) == live;
    assert live - live == {};
    assert Groups({}, pcs) == [];
  }

  lemma TwoGroups(live: set<nat>, pcs: seq<Pc>, a: set<nat>, c: Pc, d: Pc)
    requires LanesBelow(live, |pcs|) && a < live && c != d && live != {} && Highest(live) in a
    requires forall t :: t in live ==> pcs[t] == if t in a then c else d
    ensures Groups(live, pcs) == [c, d] && Class(live, pcs, c) == a && Class(live, pcs, d) == live - a
  {
    assert Class(live, pcs, c) == a;
    assert Class(live, pcs, d) == live - a;
    OneGroup(live - a, pcs, d);
  }

  /** What the stack is after the top entry's lanes have all gone to `c`. */
  ghost function AfterAll(g: Graph, base: seq<Entry>, e: Entry, c: int): seq<Entry>
    requires c != g.exit ==> 0 <= c < ADDRESS_SPACE
  {
    if c == g.exit || c == e.rpc then base else base + [e.(pc := c)]
  }

  lemma UpdatedAll(g: Graph, base: seq<Entry>, e: Entry, done: set<nat>, pcs: seq<Pc>, v: Pc, c: int)
    requires e.kind.Normal? && e.mask != {} && LanesBelow(e.mask, |pcs|)
    requires if c == g.exit then e.mask <= done else e.mask !! done && IsInstruction(c) && forall t ::
      t in e.mask ==> pcs[t] == c
    ensures Legal(base + [e], done, pcs, OtherOp)
    ensures Updated(base + [e], done, pcs, v, OtherOp) == AfterAll(g, base, e, c)
  {
    var s := base + [e];
    assert s[..|s| - 1] == base;
    if c == g.exit {
      assert Live(s, done) == {};
    } else {
      assert Live(s, done) == e.mask;
      OneGroup(e.mask, pcs, c);
      KeptOne(e, c);
      assert base + Spawn([], e.mask, pcs, e.rpc, Normal) == base;
    }
  }

  lemma KeptOne(e: Entry, c: Pc)
    requires e.kind.Normal?
    ensures Kept(e, [c]) == if c == e.rpc then [] else [c]
  {
    assert [c][1..] == [];
    assert Without([c], e.rpc) == if c == e.rpc then [] else [c];
  }

  /** The entry of one group of a split, if it gets one. */
  ghost function Kid(c: Pc, lanes: set<nat>, v: Pc, rpc: Pc): seq<Entry> {
    if c == v || c == rpc then [] else [Entry(c, lanes, v, Normal)]
  }

  ghost function AfterSplit(base: seq<Entry>, e: Entry, a: set<nat>, c: Pc, d: Pc, v: Pc): seq<Entry> {
    (if v != e.rpc then base + [e.(pc := v)] else base) + Kid(c, a, v, e.rpc) + Kid(d, e.mask - a, v, e.rpc)
  }

  lemma UpdatedSplit(base: seq<Entry>, e: Entry, done: set<nat>, pcs: seq<Pc>, v: Pc, a: set<nat>, c: Pc, d: Pc)
    requires e.kind.Normal? && LanesBelow(e.mask, |pcs|) && e.mask !! done && e.mask != {} && a < e.mask
    requires Highest(e.mask) in a
    requires c != d && c != NULL_PC && d != NULL_PC && c != e.rpc
    requires forall t :: t in e.mask ==> pcs[t] == if t in a then c else d
    ensures Legal(base + [e], done, pcs, OtherOp)
    ensures Updated(base + [e], done, pcs, v, OtherOp) == AfterSplit(base, e, a, c, d, v)
  {
    var s := base + [e];
    assert s[..|s| - 1] == base && Live(s, done) == e.mask;
    TwoGroups(e.mask, pcs, a, c, d);
    KeptTwo(e, c, d);
    var kept := if d == e.rpc then [c] else [c, d];
    WithoutTwo(kept, c, d, v);
    hide Groups, Class, Kept, Without;
    var cs := Without(kept, v);
    assert Updated(s, done, pcs, v, OtherOp) == Parent(base, e, v) + Spawn(cs, e.mask, pcs, v, Normal);
    assert Spawn(cs, e.mask, pcs, v, Normal) == Kid(c, a, v, e.rpc) + Kid(d, e.mask - a, v, e.rpc);
  }

  lemma KeptTwo(e: Entry, c: Pc, d: Pc)
    requires e.kind.Normal? && c != e.rpc && c != d
    ensures Kept(e, [c, d]) == if d == e.rpc then [c] else [c, d]
  {
    assert [c, d][1..] == [d] && [d][1..] == [];
    assert Without([d], e.rpc) == if d == e.rpc then [] else [d];
  }

  lemma WithoutTwo(kept: seq<Pc>, c: Pc, d: Pc, v: Pc)
    requires kept == [c] || kept == [c, d]
    ensures Without(kept, v) == (if c == v then [] else [c]) + (if kept == [c] || d == v then [] else [d])
  {
    assert [c, d][1..] == [d] && [d][1..] == [] && [c][1..] == [];
    assert Without([d], v) == if d == v then [] else [d];
  }

  /** Only some lanes of the top entry are left, and go on together. */
  lemma UpdatedRest(base: seq<Entry>, e: Entry, done: set<nat>, pcs: seq<Pc>, v: Pc, c: Pc)
    requires e.kind.Normal? && e.mask - done != {} && LanesBelow(e.mask, |pcs|)
    requires c != NULL_PC && forall t :: t in e.mask - done ==> pcs[t] == c
    ensures Legal(base + [e], done, pcs, OtherOp)
    ensures Updated(base + [e], done, pcs, v, OtherOp) == if c == e.rpc then base
      else base + [Entry(c, e.mask - done, e.rpc, Normal)]
  {
    var s := base + [e];
    assert s[..|s| - 1] == base && Live(s, done) == e.mask - done;
    OneGroup(e.mask - done, pcs, c);
    KeptOne(e, c);
    assert base + Spawn([], e.mask - done, pcs, e.rpc, Normal) == base;
  }

  /** A return in an entry that is no CALL is an instruction like others. */
  lemma OtherwiseSame(s: seq<Entry>, done: set<nat>, pcs: seq<Pc>, v: Pc, op: Op)
    requires Legal(s, done, pcs, OtherOp) && s[|s| - 1].kind.Normal? && !op.CallOp?
    ensures Legal(s, done, pcs, op) && !IsSpecial(s, op)
    ensures Updated(s, done, pcs, v, op) == Updated(s, done, pcs, v, OtherOp)
  {
  }
}
