/** The data-flow computation of post-dominators in `function_info` (src/cuda-sim/ptx_ir.cc):
    the sets it iterates to are exactly the post-dominators of the block graph, and the set it
    then thins out holds exactly the immediate one. */
module PostDominators {
  import opened Collections
  import opened PostDominance

  /** The blocks a block can go to, by id; the last block is the exit. */
  type Successors = seq<set<nat>>

  ghost predicate Closed(succ: Successors) {
    |succ| >= 2 && forall a, b :: 0 <= a < |succ| && b in succ[a] ==> b < |succ|
  }

  ghost function BlockGraph(succ: Successors): Graph
    requires succ != []
  {
    Graph((a, b) => 0 <= a < |succ| && b in succ[a], |succ| - 1)
  }

  ghost function PostDom(succ: Successors, h: nat): set<nat>
    requires succ != []
  {
    set x: nat | x < |succ| && PostDominates(BlockGraph(succ), x, h)
  }

  /** What all successors share, and the block itself. */
  ghost function Meet(succ: Successors, d: seq<set<nat>>, h: nat): set<nat>
    requires Closed(succ) && |d| == |succ| && h < |succ|
  {
    (set x: nat | x < |succ| && Shared(succ, d, h, x)) + {h}
  }

  ghost predicate Shared(succ: Successors, d: seq<set<nat>>, h: nat, x: nat)
    requires Closed(succ) && |d| == |succ| && h < |succ|
  {
    forall s :: s in succ[h] ==> x in d[s]
  }

  /** What holds of the sets all along: they are never below the post-dominators, and a turn
      never makes one grow. */
  ghost predicate Above(succ: Successors, d: seq<set<nat>>)
    requires Closed(succ)
  {
    && |d| == |succ| && d[|d| - 1] == {|d| - 1}
    && (forall h, x :: 0 <= h < |d| && x in d[h] ==> x < |d|)
    && (forall h :: 0 <= h < |d| - 1 ==> PostDom(succ, h) <= d[h] && Meet(succ, d, h) <= d[h])
  }

  lemma PostDomBelowMeet(succ: Successors, d: seq<set<nat>>, h: nat)
    requires Closed(succ) && Above(succ, d) && h < |succ| - 1
    ensures PostDom(succ, h) <= Meet(succ, d, h)
  {
    var g := BlockGraph(succ);
    forall x | x in PostDom(succ, h) && x != h ensures Shared(succ, d, h, x) {
      forall s | s in succ[h] ensures x in d[s] {
        assert g.edge(h, s);
        SuccessorPostDominated(g, x, h, s);
        if s == |d| - 1 {
          ExitPostDominated(g, x);
        } else {
          assert x in PostDom(succ, s);
        }
      }
    }
  }

  lemma TurnKeeps(succ: Successors, d: seq<set<nat>>, h: nat)
    requires Closed(succ) && Above(succ, d) && h < |succ| - 1
    ensures Above(succ, d[h := Meet(succ, d, h)])
  {
    var d' := d[h := Meet(succ, d, h)];
    PostDomBelowMeet(succ, d, h);
    assert forall s :: 0 <= s < |d| ==> d'[s] <= d[s];
    forall k | 0 <= k < |d| - 1 ensures Meet(succ, d', k) <= d'[k] {
      assert Meet(succ, d', k) <= Meet(succ, d, k);
    }
  }

  /** At a fixed point a member of a block's set is on every path from the block. */
  lemma {:induction false} OnEveryPath(succ: Successors, d: seq<set<nat>>, p: seq<int>, x: nat)
    requires Closed(succ) && Above(succ, d) && forall h :: 0 <= h < |d| - 1 ==> d[h] == Meet(succ, d, h)
    requires IsPath(BlockGraph(succ), p) && 0 <= p[0] < |succ| && x in d[p[0]]
    ensures x in p
    decreases |p|
  {
    var g := BlockGraph(succ);
    if p[0] != x && p[0] != |d| - 1 {
      assert |p| > 1 && g.edge(p[0], p[1]);
      Suffix(g, p, 1);
      OnEveryPath(succ, d, p[1..], x);
    }
  }

  lemma FixedPoint(succ: Successors, d: seq<set<nat>>, h: nat)
    requires Closed(succ) && Above(succ, d) && forall h :: 0 <= h < |d| - 1 ==> d[h] == Meet(succ, d, h)
    requires h < |succ|
    ensures d[h] == PostDom(succ, h)
  {
    var g := BlockGraph(succ);
    forall x | x in d[h] ensures PostDominates(g, x, h) {
      forall p | IsPath(g, p) && p[0] == h ensures x in p {
        OnEveryPath(succ, d, p, x);
      }
    }
    forall x | x in PostDom(succ, h) ensures x in d[h] {
      if h == |d| - 1 {
        ExitPostDominated(g, x);
      }
    }
  }

  ghost function Total(d: seq<set<nat>>): nat {
    if d == [] then 0 else Total(d[..|d| - 1]) + |d[|d| - 1]|
  }

  lemma {:induction false} TotalDrops(d: seq<set<nat>>, h: nat, t: set<nat>)
    requires h < |d| && t < d[h]
    ensures Total(d[h := t]) < Total(d)
    decreases |d|
  {
    var n := |d| - 1;
    if h == n {
      SubsetSize(t, d[h]);
      assert d[h := t][..n] == d[..n];
    } else {
      TotalDrops(d[..n], h, t);
      assert d[h := t][..n] == d[..n][h := t];
    }
  }

  /** Every block can get to the exit. */
  ghost predicate AllReach(succ: Successors)
    requires succ != []
  {
    forall i :: 0 <= i < |succ| ==> ReachesExit(BlockGraph(succ), i)
  }

  /** The ids left while the strict post-dominators of a block are thinned out: the immediate
      one is never erased, and what a block already looked at post-dominates is gone. */
  ghost predicate Thinned(d: seq<set<nat>>, n: nat, closest: nat, tmp: set<nat>, looked: nat)
    requires n < |d|
  {
    closest in tmp && tmp <= d[n] - {n} && (closest < looked ==> tmp == {closest})
  }

  lemma ClosestStays(succ: Successors, d: seq<set<nat>>, n: nat, closest: nat, s: nat)
    requires Closed(succ) && AllReach(succ) && |d| == |succ| && forall h :: 0 <= h < |d| ==> d[h] == PostDom(succ, h)
    requires n < |d| && closest < |d| && ImmediatePostDominator(BlockGraph(succ), closest, n)
    requires s < |d| && s in d[n] - {n} && s != closest
    ensures closest !in d[s] && s in d[closest]
  {
    var g := BlockGraph(succ);
    assert s in PostDom(succ, n) && closest in PostDom(succ, n);
    if closest in d[s] {
      assert closest in PostDom(succ, s);
      assert ReachesExit(g, s);
      var p :| IsPath(g, p) && p[0] == s;
      Antisymmetric(g, s, closest, p);
    }
  }

  function AllIds(n: nat): (r: set<nat>)
    ensures forall x: nat :: x in r <==> x < n
  {
    if n == 0 then {} else AllIds(n - 1) + {n - 1}
  }

  /** Each set without the block itself. */
  function AllStrict(d: seq<set<nat>>): (r: seq<set<nat>>)
    ensures |r| == |d| && forall i :: 0 <= i < |d| ==> r[i] == d[i] - {i}
  {
    if d == [] then [] else AllStrict(d[..|d| - 1]) + [d[|d| - 1] - {|d| - 1}]
  }

  class FunctionInfo {
    const successorIds: Successors
    var postdominatorIds: seq<set<nat>>
    var tmpIds: seq<set<nat>>
    var immediatePostdominatorId: seq<int>

    constructor (successorIds: Successors)
      ensures this.successorIds == successorIds && |postdominatorIds| == |immediatePostdominatorId| == |successorIds|
    {
      this.successorIds := successorIds;
      postdominatorIds := seq(|successorIds|, i => {});
      tmpIds := seq(|successorIds|, i => {});
      immediatePostdominatorId := seq(|successorIds|, i => -1);
    }

    /** `intersect`. */
    static method Intersect(a: set<nat>, b: set<nat>) returns (r: set<nat>)
      ensures r == a * b
    {
      r := a;
      var rest := a;
      while rest != {}
        invariant rest <= a && r == (a - rest) * b + rest
        decreases |rest|
      {
        var x :| x in rest;
        if x !in b {
          r := r - {x};
        }
        rest := rest - {x};
      }
    }

    /** What one turn of `find_postdominators` computes for a block. */
    method ComputeMeet(h: nat) returns (t: set<nat>)
      requires Closed(successorIds) && |postdominatorIds| == |successorIds| && h < |successorIds|
      ensures t == Meet(successorIds, postdominatorIds, h)
    {
      t := AllIds(|successorIds|);
      var rest := successorIds[h];
      while rest != {}
        invariant rest <= successorIds[h]
        invariant forall x: nat :: x in t <==> x < |successorIds| && forall s :: s in successorIds[h] - rest ==>
          x in postdominatorIds[s]
        decreases |rest|
      {
        var s :| s in rest;
        t := Intersect(t, postdominatorIds[s]);
        rest := rest - {s};
      }
      t := t + {h};
    }

    /** `find_postdominators`. */
    method FindPostdominators()
      requires Closed(successorIds) && |postdominatorIds| == |successorIds|
      modifies `postdominatorIds
      ensures |postdominatorIds| == |successorIds|
      ensures forall h :: 0 <= h < |successorIds| ==> postdominatorIds[h] == PostDom(successorIds, h)
    {
      var n := |successorIds|;
      var all := AllIds(n);
      postdominatorIds := seq(n, i => if i == n - 1 then {i} else all);
      var change := true;
      while change
        invariant Above(successorIds, postdominatorIds)
        invariant !change ==> forall h :: 0 <= h < n - 1 ==>
          postdominatorIds[h] == Meet(successorIds, postdominatorIds, h)
        decreases Total(postdominatorIds), change
      {
        change := Pass();
      }
      forall h | 0 <= h < n ensures postdominatorIds[h] == PostDom(successorIds, h) {
        FixedPoint(successorIds, postdominatorIds, h);
      }
    }

    method Pass() returns (change: bool)
      requires Closed(successorIds) && Above(successorIds, postdominatorIds)
      modifies `postdominatorIds
      ensures Above(successorIds, postdominatorIds)
      ensures if change then Total(postdominatorIds) < old(Total(postdominatorIds))
        else postdominatorIds == old(postdominatorIds)
      ensures !change ==> forall h :: 0 <= h < |successorIds| - 1 ==>
        postdominatorIds[h] == Meet(successorIds, postdominatorIds, h)
    {
      change := false;
      for h := |successorIds| - 1 downto 0
        invariant Above(successorIds, postdominatorIds)
        invariant if change then Total(postdominatorIds) < old(Total(postdominatorIds))
          else postdominatorIds == old(postdominatorIds)
        invariant !change ==> forall k :: h <= k < |successorIds| - 1 ==>
          postdominatorIds[k] == Meet(successorIds, postdominatorIds, k)
      {
        var t := ComputeMeet(h);
        if t != postdominatorIds[h] {
          TurnKeeps(successorIds, postdominatorIds, h);
          TotalDrops(postdominatorIds, h, t);
          change := true;
          postdominatorIds := postdominatorIds[h := t];
        }
      }
    }

    /** `find_ipostdominators`: every block but the exit gets its immediate post-dominator,
        and the two assertions of the source hold. */
    method FindIpostdominators()
      requires Closed(successorIds) && AllReach(successorIds)
      requires |postdominatorIds| == |successorIds| == |immediatePostdominatorId|
      requires forall h :: 0 <= h < |successorIds| ==> postdominatorIds[h] == PostDom(successorIds, h)
      modifies `tmpIds, `immediatePostdominatorId
      ensures |immediatePostdominatorId| == |successorIds|
      ensures forall i :: 0 <= i < |successorIds| - 1 ==>
        0 <= immediatePostdominatorId[i] < |successorIds| &&
        ImmediatePostDominator(BlockGraph(successorIds), immediatePostdominatorId[i], i)
    {
      var size := |successorIds|;
      tmpIds := AllStrict(postdominatorIds);
      ghost var closest: seq<nat> := [];
      for i := 0 to size - 1
        invariant |closest| == i && |immediatePostdominatorId| == size && tmpIds == AllStrict(postdominatorIds)
        invariant forall k :: 0 <= k < i ==>
          closest[k] < size && ImmediatePostDominator(BlockGraph(successorIds), closest[k], k)
      {
        var x := ClosestBlock(successorIds, i);
        closest := closest + [x];
      }
      for n := size - 1 downto 0
        invariant |tmpIds| == size == |immediatePostdominatorId|
        invariant forall k :: 0 <= k < n ==> tmpIds[k] == postdominatorIds[k] - {k}
        invariant tmpIds[size - 1] == postdominatorIds[size - 1] - {size - 1}
        invariant forall k :: n <= k < size - 1 ==> tmpIds[k] == {closest[k]}
      {
        var tmp := Thin(n, closest[n]);
        tmpIds := tmpIds[n := tmp];
      }
      var numIpdoms := 0;
      ghost var thinned := tmpIds;
      OnlyTheExit(successorIds);
      for n := size downto 0
        invariant tmpIds == thinned && |immediatePostdominatorId| == size
        invariant forall k :: n <= k < size - 1 ==> immediatePostdominatorId[k] == closest[k]
        invariant numIpdoms == if n == size then 0 else size - 1 - n
      {
        assert n == size - 1 ==> tmpIds[n] == {};
        assert |tmpIds[n]| <= 1;
        if tmpIds[n] != {} {
          var x :| x in tmpIds[n];
          immediatePostdominatorId := immediatePostdominatorId[n := x];
          numIpdoms := numIpdoms + 1;
        }
      }
      assert numIpdoms == size - 1;
    }

    /** The two inner loops, over the ids in ascending order. */
    method Thin(n: nat, ghost closest: nat) returns (tmp: set<nat>)
      requires Closed(successorIds) && AllReach(successorIds) && |postdominatorIds| == |successorIds|
      requires forall h :: 0 <= h < |successorIds| ==> postdominatorIds[h] == PostDom(successorIds, h)
      requires n < |successorIds| && closest < |successorIds|
      requires ImmediatePostDominator(BlockGraph(successorIds), closest, n)
      ensures tmp == {closest}
    {
      tmp := postdominatorIds[n] - {n};
      assert closest in PostDom(successorIds, n);
      for s := 0 to |successorIds|
        invariant Thinned(postdominatorIds, n, closest, tmp, s)
      {
        if s in tmp {
          ghost var before := tmp;
          if s != closest {
            ClosestStays(successorIds, postdominatorIds, n, closest, s);
          }
          for t := 0 to |successorIds|
            invariant closest in tmp && tmp <= before
            invariant forall x :: x in tmp && x < t && x != s ==> x !in postdominatorIds[s]
          {
            if t in tmp && t != s && t in postdominatorIds[s] {
              tmp := tmp - {t};
            }
          }
          if s == closest {
            OthersGone(successorIds, postdominatorIds, n, closest, tmp);
          }
        }
      }
    }
  }

  lemma OthersGone(succ: Successors, d: seq<set<nat>>, n: nat, closest: nat, tmp: set<nat>)
    requires Closed(succ) && AllReach(succ) && |d| == |succ| && forall h :: 0 <= h < |d| ==> d[h] == PostDom(succ, h)
    requires n < |d| && closest < |d| && ImmediatePostDominator(BlockGraph(succ), closest, n)
    requires closest in tmp && tmp <= d[n] - {n} && forall x :: x in tmp && x != closest ==> x !in d[closest]
    ensures tmp == {closest}
  {
    forall x | x in tmp && x != closest ensures false {
      ClosestStays(succ, d, n, closest, x);
    }
  }

  lemma OnlyTheExit(succ: Successors)
    requires Closed(succ)
    ensures PostDom(succ, |succ| - 1) == {|succ| - 1}
  {
    var g := BlockGraph(succ);
    var exit := |succ| - 1;
    forall x | x in PostDom(succ, exit) ensures x == exit {
      ExitPostDominated(g, x);
    }
  }

  lemma ClosestBlock(succ: Successors, n: nat) returns (x: nat)
    requires Closed(succ) && AllReach(succ) && n < |succ| - 1
    ensures x < |succ| && ImmediatePostDominator(BlockGraph(succ), x, n)
  {
    var g := BlockGraph(succ);
    assert ReachesExit(g, n);
    var p :| IsPath(g, p) && p[0] == n;
    var y := ImmediateExists(g, n, p);
    PathInRange(succ, p);
    x := y;
  }

  lemma {:induction false} PathInRange(succ: Successors, p: seq<int>)
    requires Closed(succ) && IsPath(BlockGraph(succ), p) && 0 <= p[0] < |succ|
    ensures forall x :: x in p ==> 0 <= x < |succ|
    decreases |p|
  {
    var g := BlockGraph(succ);
    if |p| <= 1 {
    } else {
      assert g.edge(p[0], p[1]);
      Suffix(g, p, 1);
      PathInRange(succ, p[1..]);
      assert p == [p[0]] + p[1..];
    }
  }
}
