/** Post-dominance in a control-flow graph with one exit. */
module PostDominance {

  /** A control-flow graph with one exit; its nodes are PCs or block ids. */
  datatype Graph = Graph(edge: (int, int) -> bool, exit: int)

  /** A way along edges. */
  ghost predicate IsWalk(g: Graph, p: seq<int>, a: int, b: int) {
    p != [] && p[0] == a && p[|p| - 1] == b && forall i :: 0 <= i < |p| - 1 ==> g.edge(p[i], p[i + 1])
  }

  /** A walk to the exit. */
  ghost predicate IsPath(g: Graph, p: seq<int>) {
    p != [] && IsWalk(g, p, p[0], g.exit)
  }

  ghost predicate ReachesExit(g: Graph, a: int) {
    exists p :: IsPath(g, p) && p[0] == a
  }

  /** Every path from `a` to the exit passes through `x`. */
  ghost predicate PostDominates(g: Graph, x: int, a: int) {
    forall p :: IsPath(g, p) && p[0] == a ==> x in p
  }

  /** The strict post-dominator of `a` that every other one post-dominates. */
  ghost predicate ImmediatePostDominator(g: Graph, x: int, a: int) {
    && x != a && PostDominates(g, x, a)
    && forall y :: y != a && PostDominates(g, y, a) ==> PostDominates(g, y, x)
  }

  lemma Prepend(g: Graph, a: int, p: seq<int>)
    requires IsPath(g, p) && g.edge(a, p[0])
    ensures IsPath(g, [a] + p)
  {
    var q := [a] + p;
    forall i | 0 <= i < |q| - 1 ensures g.edge(q[i], q[i + 1]) {
      if i > 0 {
        assert g.edge(p[i - 1], p[i]);
      }
    }
  }

  lemma SuccessorPostDominated(g: Graph, x: int, a: int, b: int)
    requires PostDominates(g, x, a) && x != a && g.edge(a, b)
    ensures PostDominates(g, x, b)
  {
    forall p | IsPath(g, p) && p[0] == b ensures x in p {
      Prepend(g, a, p);
      assert x in [a] + p;
    }
  }

  /** Two nodes that post-dominate each other are the same, if one can reach the exit. */
  lemma {:induction false} Antisymmetric(g: Graph, x: int, y: int, p: seq<int>)
    requires PostDominates(g, x, y) && PostDominates(g, y, x) && IsPath(g, p) && p[0] == x
    ensures x == y
    decreases |p|
  {
    if x != y {
      var j :| 0 <= j < |p| && p[j] == y;
      Suffix(g, p, j);
      Antisymmetric(g, y, x, p[j..]);
    }
  }

  lemma Suffix(g: Graph, p: seq<int>, j: nat)
    requires IsPath(g, p) && j < |p|
    ensures IsPath(g, p[j..]) && p[j..][0] == p[j]
  {
    var q := p[j..];
    forall i | 0 <= i < |q| - 1 ensures g.edge(q[i], q[i + 1]) {
      assert g.edge(p[j + i], p[j + i + 1]);
    }
  }

  /** A branch that can go straight to one of its strict post-dominators has that one as
      its immediate post-dominator. */
  lemma BranchToPostDominator(g: Graph, x: int, r: int, a: int)
    requires ImmediatePostDominator(g, r, a) && PostDominates(g, x, a) && x != a && g.edge(a, x) && ReachesExit(g, x)
    ensures x == r
  {
    SuccessorPostDominated(g, r, a, x);
    var p :| IsPath(g, p) && p[0] == x;
    Antisymmetric(g, x, r, p);
  }

  /** A strict post-dominator of a node with an edge to the exit is the exit. */
  lemma OnlyExit(g: Graph, x: int, a: int)
    requires PostDominates(g, x, a) && x != a && g.edge(a, g.exit)
    ensures x == g.exit
  {
    assert IsPath(g, [a, g.exit]);
  }

  lemma ExitPostDominated(g: Graph, x: int)
    requires PostDominates(g, x, g.exit)
    ensures x == g.exit
  {
    assert IsPath(g, [g.exit]);
  }

  /** A node that can reach the exit, and is not it, has an immediate post-dominator: the first
      strict post-dominator on a path. */
  lemma ImmediateExists(g: Graph, a: int, p: seq<int>) returns (x: int)
    requires IsPath(g, p) && p[0] == a && a != g.exit
    ensures ImmediatePostDominator(g, x, a) && x in p
  {
    var j := FirstStrict(g, a, p);
    x := p[j];
    forall y | y != a && PostDominates(g, y, a) ensures PostDominates(g, y, x) {
      forall q | IsPath(g, q) && q[0] == x ensures y in q {
        Join(g, p, j, q);
        assert y in p[..j] + q;
      }
    }
  }

  lemma FirstStrict(g: Graph, a: int, p: seq<int>) returns (j: nat)
    requires IsPath(g, p) && p[0] == a && a != g.exit
    ensures 0 < j < |p| && p[j] != a && PostDominates(g, p[j], a)
    ensures forall i :: 0 <= i < j && p[i] != a ==> !PostDominates(g, p[i], a)
  {
    j := 0;
    while p[j] == a || !PostDominates(g, p[j], a)
      invariant 0 <= j < |p| && forall i :: 0 <= i < j && p[i] != a ==> !PostDominates(g, p[i], a)
      decreases |p| - j
    {
      assert PostDominates(g, p[|p| - 1], a);
      j := j + 1;
    }
  }

  lemma Join(g: Graph, p: seq<int>, j: nat, q: seq<int>)
    requires IsPath(g, p) && IsPath(g, q) && j < |p| && p[j] == q[0]
    ensures IsPath(g, p[..j] + q) && (j > 0 ==> (p[..j] + q)[0] == p[0])
  {
    var r := p[..j] + q;
    forall i | 0 <= i < |r| - 1 ensures g.edge(r[i], r[i + 1]) {
      if i < j {
        assert g.edge(p[i], p[i + 1]);
      } else {
        assert g.edge(q[i - j], q[i - j + 1]);
      }
    }
  }

  lemma ImmediateUnique(g: Graph, x: int, y: int, a: int, p: seq<int>)
    requires ImmediatePostDominator(g, x, a) && ImmediatePostDominator(g, y, a) && IsPath(g, p) && p[0] == a
    ensures x == y
  {
    var j :| 0 <= j < |p| && p[j] == x;
    Suffix(g, p, j);
    Antisymmetric(g, x, y, p[j..]);
  }

  // ---------------------------------------------------------------------------------
  // Walks

  ghost predicate Leads(g: Graph, a: int, b: int) {
    exists p :: IsWalk(g, p, a, b)
  }

  /** There is a way from `a` to `b` that does not touch `x`. */
  ghost predicate LeadsAvoiding(g: Graph, a: int, b: int, x: int) {
    exists p :: IsWalk(g, p, a, b) && x !in p
  }

  lemma LeadsSelf(g: Graph, a: int)
    ensures Leads(g, a, a) && forall x :: x != a ==> LeadsAvoiding(g, a, a, x)
  {
    assert IsWalk(g, [a], a, a);
  }

  lemma JoinWalks(g: Graph, p: seq<int>, q: seq<int>, a: int, b: int, c: int)
    requires IsWalk(g, p, a, b) && IsWalk(g, q, b, c)
    ensures IsWalk(g, p + q[1..], a, c) && forall x :: x in p + q[1..] <==> x in p || x in q
  {
    var r := p + q[1..];
    forall i | 0 <= i < |r| - 1 ensures g.edge(r[i], r[i + 1]) {
      if i < |p| - 1 {
        assert g.edge(p[i], p[i + 1]);
      } else {
        assert g.edge(q[i - |p| + 1], q[i - |p| + 2]);
      }
    }
    assert q == [b] + q[1..] && p[|p| - 1] == b;
  }

  lemma LeadsJoin(g: Graph, a: int, b: int, c: int)
    requires Leads(g, a, b) && Leads(g, b, c)
    ensures Leads(g, a, c)
  {
    var p :| IsWalk(g, p, a, b);
    var q :| IsWalk(g, q, b, c);
    JoinWalks(g, p, q, a, b, c);
  }

  lemma AvoidingJoin(g: Graph, a: int, b: int, c: int, x: int)
    requires LeadsAvoiding(g, a, b, x) && LeadsAvoiding(g, b, c, x)
    ensures LeadsAvoiding(g, a, c, x)
  {
    var p :| IsWalk(g, p, a, b) && x !in p;
    var q :| IsWalk(g, q, b, c) && x !in q;
    JoinWalks(g, p, q, a, b, c);
  }

  lemma EdgeLeads(g: Graph, a: int, b: int)
    requires g.edge(a, b)
    ensures Leads(g, a, b) && forall x :: x != a && x != b ==> LeadsAvoiding(g, a, b, x)
  {
    assert IsWalk(g, [a, b], a, b);
  }

  /** A walk that avoids a node nobody can get to needs no care. */
  lemma AvoidsUnreachable(g: Graph, a: int, b: int, x: int)
    requires Leads(g, a, b) && !Leads(g, a, x)
    ensures LeadsAvoiding(g, a, b, x)
  {
    var p :| IsWalk(g, p, a, b);
    if x in p {
      var j :| 0 <= j < |p| && p[j] == x;
      WalkPrefix(g, p, a, b, j);
    }
  }

  lemma WalkPrefix(g: Graph, p: seq<int>, a: int, b: int, j: nat)
    requires IsWalk(g, p, a, b) && j < |p|
    ensures IsWalk(g, p[..j + 1], a, p[j])
  {
    var q := p[..j + 1];
    forall i | 0 <= i < |q| - 1 ensures g.edge(q[i], q[i + 1]) {
      assert g.edge(p[i], p[i + 1]);
    }
  }

  lemma PrefixWalk(g: Graph, p: seq<int>, j: nat)
    requires IsPath(g, p) && j < |p|
    ensures IsWalk(g, p[..j + 1], p[0], p[j])
  {
    WalkPrefix(g, p, p[0], g.exit, j);
  }

  lemma LeadsToPostDominator(g: Graph, x: int, a: int)
    requires PostDominates(g, x, a) && ReachesExit(g, a)
    ensures Leads(g, a, x)
  {
    var p :| IsPath(g, p) && p[0] == a;
    var j :| 0 <= j < |p| && p[j] == x;
    PrefixWalk(g, p, j);
  }

  lemma PostDominatorReaches(g: Graph, x: int, a: int)
    requires PostDominates(g, x, a) && ReachesExit(g, a)
    ensures ReachesExit(g, x)
  {
    var p :| IsPath(g, p) && p[0] == a;
    var j :| 0 <= j < |p| && p[j] == x;
    Suffix(g, p, j);
  }

  /** The immediate post-dominator can be reached without meeting a later one. */
  lemma ImmediateFirst(g: Graph, x: int, r: int, a: int)
    requires ImmediatePostDominator(g, x, a) && PostDominates(g, r, a) && r != a && r != x && ReachesExit(g, a)
    ensures LeadsAvoiding(g, a, x, r)
  {
    var p :| IsPath(g, p) && p[0] == a;
    var j := FirstIndex(p, x);
    PrefixWalk(g, p, j);
    if r in p[..j + 1] {
      var k :| 0 <= k < |p[..j + 1]| && p[..j + 1][k] == r;
      Suffix(g, p, k);
      var q := Around(g, x, r, p[k..]);
      Join(g, p, k, q);
    }
  }

  /** A path from a later post-dominator that does not come back to an earlier one. */
  lemma Around(g: Graph, x: int, r: int, p: seq<int>) returns (q: seq<int>)
    requires PostDominates(g, r, x) && r != x && IsPath(g, p) && p[0] == r
    ensures IsPath(g, q) && q[0] == r && x !in q
  {
    if PostDominates(g, x, r) {
      Antisymmetric(g, r, x, p);
      assert false;
    }
    q :| IsPath(g, q) && q[0] == r && x !in q;
  }

  lemma FirstIndex(p: seq<int>, x: int) returns (j: nat)
    requires x in p
    ensures j < |p| && p[j] == x && x !in p[..j]
  {
    j := 0;
    var k :| 0 <= k < |p| && p[k] == x;
    while p[j] != x
      invariant 0 <= j <= k && x !in p[..j]
      decreases k - j
    {
      assert p[..j + 1] == p[..j] + [p[j]];
      j := j + 1;
    }
  }

  /** The path from the last visit of its first node. */
  lemma {:induction false} LastVisit(g: Graph, p: seq<int>) returns (q: seq<int>)
    requires IsPath(g, p)
    ensures IsPath(g, q) && q[0] == p[0] && q[0] !in q[1..]
    decreases |p|
  {
    q := p;
    if j :| 0 < j < |p| && p[j] == p[0] {
      Suffix(g, p, j);
      q := LastVisit(g, p[j..]);
    }
  }
}
