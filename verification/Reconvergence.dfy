/** From blocks to PCs (src/cuda-sim/ptx_ir.cc, cuda-sim.cc): the table of reconvergence points
    that the simulator makes of the immediate post-dominators of the blocks, and what it means
    for the runs of the kernel. */
module Reconvergence {
  import opened SimtStack
  import opened SimtFlow
  import opened PostDominance
  import opened PostDominators

  /** Stands for the end of a lane. */
  const EXIT := -1

  /** Stands for the return address of the frame. */
  const RECONVERGE_RETURN_PC: Pc := 0xFFFF_FFFE

  /** The PCs of each block, in order. The exit block has no instruction in the source; here it
      has the exit. */
  type Code = seq<seq<int>>

  ghost predicate WellFormedCode(succ: Successors, code: Code) {
    && Closed(succ) && |code| == |succ| && code[|code| - 1] == [EXIT] && succ[|succ| - 1] == {}
    && (forall i :: 0 <= i < |code| ==> code[i] != [])
    && (forall i, k :: 0 <= i < |code| - 1 && 0 <= k < |code[i]| ==>
      IsInstruction(code[i][k]) && code[i][k] != RECONVERGE_RETURN_PC)
    && (forall i, k, j, l ::
      0 <= i < |code| && 0 <= k < |code[i]| && 0 <= j < |code| && 0 <= l < |code[j]| && code[i][k] == code[j][l] ==>
          i == j && k == l)
  }

  function First(code: Code, i: nat): int
    requires i < |code| && code[i] != []
  {
    code[i][0]
  }

  function Last(code: Code, i: nat): int
    requires i < |code| && code[i] != []
  {
    code[i][|code[i]| - 1]
  }

  /** The next instruction of the block, or the first one of a successor. */
  ghost predicate Edge(succ: Successors, code: Code, a: int, b: int)
    requires WellFormedCode(succ, code)
  {
    || (exists i, k :: 0 <= i < |code| && 0 <= k < |code[i]| - 1 && code[i][k] == a && code[i][k + 1] == b)
    || (exists i, s :: 0 <= i < |code| && s in succ[i] && Last(code, i) == a && First(code, s) == b)
  }

  ghost function PcGraph(succ: Successors, code: Code): Graph
    requires WellFormedCode(succ, code)
  {
    Graph((a, b) => Edge(succ, code, a, b), EXIT)
  }

  // ---------------------------------------------------------------------------------
  // Block paths and instruction paths

  /** All instructions of the blocks of a path. */
  ghost function Expand(code: Code, bs: seq<int>): seq<int>
    requires forall i :: 0 <= i < |bs| ==> 0 <= bs[i] < |code|
  {
    if bs == [] then [] else code[bs[0]] + Expand(code, bs[1..])
  }

  lemma {:induction false} ExpandHas(code: Code, bs: seq<int>, y: int) returns (c: int)
    requires (forall i :: 0 <= i < |bs| ==> 0 <= bs[i] < |code|) && y in Expand(code, bs)
    ensures c in bs && 0 <= c < |code| && y in code[c]
  {
    if y in code[bs[0]] {
      c := bs[0];
    } else {
      c := ExpandHas(code, bs[1..], y);
    }
  }

  /** A block path gives an instruction path. */
  lemma {:induction false} ExpandIsPath(succ: Successors, code: Code, bs: seq<int>)
    requires WellFormedCode(succ, code) && IsPath(BlockGraph(succ), bs)
    requires forall i :: 0 <= i < |bs| ==> 0 <= bs[i] < |succ|
    ensures var p := Expand(code, bs); IsPath(PcGraph(succ, code), p) && p[0] == First(code, bs[0])
    decreases |bs|
  {
    var g, h := BlockGraph(succ), PcGraph(succ, code);
    var b := bs[0];
    if |bs| == 1 {
      assert Expand(code, bs) == code[b] + [];
    } else {
      assert g.edge(bs[0], bs[1]);
      Suffix(g, bs, 1);
      ExpandIsPath(succ, code, bs[1..]);
      var rest := Expand(code, bs[1..]);
      assert Edge(succ, code, Last(code, b), rest[0]);
      BlockThen(succ, code, b, 0, rest);
      assert code[b][0..] == code[b];
    }
  }

  /** The rest of a block in front of a path from one of its successors. */
  lemma BlockThen(succ: Successors, code: Code, b: nat, k: nat, rest: seq<int>)
    requires WellFormedCode(succ, code) && b < |code| && k < |code[b]|
    requires IsPath(PcGraph(succ, code), rest) && Edge(succ, code, Last(code, b), rest[0])
    ensures var p: seq<int> := code[b][k..] + rest; IsPath(PcGraph(succ, code), p) && p[0] == code[b][k]
  {
    var h := PcGraph(succ, code);
    var p: seq<int> := code[b][k..] + rest;
    var n := |code[b]| - k;
    forall i | 0 <= i < |p| - 1 ensures h.edge(p[i], p[i + 1]) {
      if i < n - 1 {
        assert code[b][k + i] == p[i] && code[b][k + i + 1] == p[i + 1];
        assert Edge(succ, code, p[i], p[i + 1]);
      } else if i >= n {
        assert h.edge(rest[i - n], rest[i - n + 1]);
      }
    }
  }

  /** The instructions from position `k` of the first block, and all of the others. */
  ghost predicate Visits(code: Code, bs: seq<int>, k: nat, p: seq<int>) {
    && bs != [] && (forall i :: 0 <= i < |bs| ==> 0 <= bs[i] < |code|) && k < |code[bs[0]]|
    && (forall y :: y in code[bs[0]][k..] ==> y in p)
    && (forall i, y :: 0 < i < |bs| && y in code[bs[i]] ==> y in p)
  }

  /** An instruction path runs through the blocks of a block path. */
  lemma {:induction false} Project(succ: Successors, code: Code, b: nat, k: nat, p: seq<int>) returns (bs: seq<int>)
    requires WellFormedCode(succ, code) && b < |code| && k < |code[b]|
    requires IsPath(PcGraph(succ, code), p) && p[0] == code[b][k]
    ensures IsPath(BlockGraph(succ), bs) && bs[0] == b && Visits(code, bs, k, p)
    decreases |p|
  {
    var g, h := BlockGraph(succ), PcGraph(succ, code);
    if |p| == 1 {
      assert code[|code| - 1][0] == code[b][k];
      bs := [b];
    } else {
      assert h.edge(p[0], p[1]);
      Suffix(h, p, 1);
      if k < |code[b]| - 1 {
        NextInBlock(succ, code, b, k, p[1]);
        bs := Project(succ, code, b, k + 1, p[1..]);
        StepWithin(code, b, k, bs, p);
      } else {
        var s := NextBlock(succ, code, b, p[1]);
        bs := Project(succ, code, s, 0, p[1..]);
        assert g.edge(b, s);
        Prepend(g, b, bs);
        StepBack(code, b, k, s, bs, p);
        bs := [b] + bs;
      }
    }
  }

  lemma StepWithin(code: Code, b: nat, k: nat, bs: seq<int>, p: seq<int>)
    requires b < |code| && k + 1 < |code[b]| && |p| > 1 && p[0] == code[b][k]
    requires bs != [] && bs[0] == b && Visits(code, bs, k + 1, p[1..])
    ensures Visits(code, bs, k, p)
  {
    assert code[b][k..] == [p[0]] + code[b][k + 1..];
    forall i, y | 0 < i < |bs| && y in code[bs[i]] ensures y in p {
      assert y in p[1..];
    }
  }

  lemma StepBack(code: Code, b: nat, k: nat, s: nat, bs: seq<int>, p: seq<int>)
    requires b < |code| && |code[b]| == k + 1 && |p| > 1 && p[0] == code[b][k]
    requires bs != [] && bs[0] == s && Visits(code, bs, 0, p[1..])
    ensures Visits(code, [b] + bs, k, p)
  {
    var cs := [b] + bs;
    assert code[b][k..] == [p[0]];
    forall i, y | 0 < i < |cs| && y in code[cs[i]] ensures y in p {
      if i == 1 {
        assert code[s][0..] == code[s];
      }
      assert y in p[1..];
    }
  }

  lemma NextInBlock(succ: Successors, code: Code, b: nat, k: nat, y: int)
    requires WellFormedCode(succ, code) && b < |code| && k < |code[b]| - 1 && Edge(succ, code, code[b][k], y)
    ensures y == code[b][k + 1]
  {
  }

  lemma NextBlock(succ: Successors, code: Code, b: nat, y: int) returns (s: nat)
    requires WellFormedCode(succ, code) && b < |code| && Edge(succ, code, Last(code, b), y)
    ensures s in succ[b] && s < |code| && y == First(code, s)
  {
    var i, t :| 0 <= i < |code| && t in succ[i] && Last(code, i) == Last(code, b) && First(code, t) == y;
    s := t;
  }

  // ---------------------------------------------------------------------------------
  // Reconvergence points

  /** From the end of block `i`, any block path on leads through all instructions of its later
      blocks, and back. */
  lemma PathFromEnd(succ: Successors, code: Code, i: nat, bs: seq<int>) returns (p: seq<int>)
    requires WellFormedCode(succ, code) && IsPath(BlockGraph(succ), bs) && bs[0] == i < |succ| - 1
    ensures IsPath(PcGraph(succ, code), p) && p[0] == Last(code, i)
    ensures forall y :: y in p && y != Last(code, i) ==> exists c :: c in bs[1..] && 0 <= c < |code| && y in code[c]
  {
    var g := BlockGraph(succ);
    PathInRange(succ, bs);
    assert g.edge(bs[0], bs[1]);
    Suffix(g, bs, 1);
    assert forall k :: 0 <= k < |bs| - 1 ==> bs[1..][k] == bs[k + 1] && bs[k + 1] in bs;
    var rest := Expand(code, bs[1..]);
    ExpandIsPath(succ, code, bs[1..]);
    assert Edge(succ, code, Last(code, i), rest[0]);
    BlockThen(succ, code, i, |code[i]| - 1, rest);
    p := code[i][|code[i]| - 1..] + rest;
    forall y | y in p && y != Last(code, i) ensures exists c :: c in bs[1..] && 0 <= c < |code| && y in code[c] {
      assert y in rest;
      var c := ExpandHas(code, bs[1..], y);
    }
  }

  /** The first instruction of the immediate post-dominator block comes on every path from the
      end of the block. */
  lemma FirstPostDominates(succ: Successors, code: Code, i: nat, j: nat)
    requires WellFormedCode(succ, code) && i < |succ| && j < |succ| && i != j && PostDominates(BlockGraph(succ), j, i)
    ensures PostDominates(PcGraph(succ, code), First(code, j), Last(code, i))
  {
    var h := PcGraph(succ, code);
    forall p | IsPath(h, p) && p[0] == Last(code, i) ensures First(code, j) in p {
      var bs := Project(succ, code, i, |code[i]| - 1, p);
      var m :| 0 <= m < |bs| && bs[m] == j;
      assert First(code, j) in code[bs[m]];
    }
  }

  /** An instruction on every path from the end of a block is in a block on every block path
      from it. */
  lemma BlockOfPostDominator(succ: Successors, code: Code, i: nat, y: int) returns (c: nat)
    requires WellFormedCode(succ, code) && AllReach(succ) && i < |succ| - 1
    requires y != Last(code, i) && PostDominates(PcGraph(succ, code), y, Last(code, i))
    ensures c < |code| && c != i && y in code[c] && PostDominates(BlockGraph(succ), c, i)
  {
    var g := BlockGraph(succ);
    assert ReachesExit(g, i);
    var bs :| IsPath(g, bs) && bs[0] == i;
    bs := LastVisit(g, bs);
    var p := PathFromEnd(succ, code, i, bs);
    assert y in p;
    var c' :| c' in bs[1..] && 0 <= c' < |code| && y in code[c'];
    c := c';
    forall cs | IsPath(g, cs) && cs[0] == i ensures c in cs {
      var q := PathFromEnd(succ, code, i, cs);
      assert y in q;
      var d :| d in cs[1..] && 0 <= d < |code| && y in code[d];
      assert d == c;
    }
  }

  /** The first PC of a block's immediate post-dominator is the immediate post-dominator of the
      block's last PC. */
  lemma BlockToPc(succ: Successors, code: Code, i: nat, j: nat)
    requires WellFormedCode(succ, code) && AllReach(succ) && i < |succ| - 1 && j < |succ|
    requires ImmediatePostDominator(BlockGraph(succ), j, i)
    ensures ImmediatePostDominator(PcGraph(succ, code), First(code, j), Last(code, i))
  {
    var h := PcGraph(succ, code);
    FirstPostDominates(succ, code, i, j);
    forall y: int | y != Last(code, i) && PostDominates(h, y, Last(code, i))
      ensures PostDominates(h, y, First(code, j))
    {
      var c := BlockOfPostDominator(succ, code, i, y);
      assert PostDominates(BlockGraph(succ), c, j);
      InLaterBlock(succ, code, j, c, y);
    }
  }

  lemma InLaterBlock(succ: Successors, code: Code, j: nat, c: nat, y: int)
    requires WellFormedCode(succ, code) && j < |code| && c < |code| && y in code[c]
    requires PostDominates(BlockGraph(succ), c, j)
    ensures PostDominates(PcGraph(succ, code), y, First(code, j))
  {
    forall p | IsPath(PcGraph(succ, code), p) && p[0] == First(code, j) ensures y in p {
      var bs := Project(succ, code, j, 0, p);
      assert code[j][0..] == code[j];
      var m :| 0 <= m < |bs| && bs[m] == c;
    }
  }

  lemma InstructionReaches(succ: Successors, code: Code, i: nat, k: nat)
    requires WellFormedCode(succ, code) && AllReach(succ) && i < |code| && k < |code[i]|
    ensures ReachesExit(PcGraph(succ, code), code[i][k])
  {
    var g := BlockGraph(succ);
    if i == |succ| - 1 {
      assert IsPath(PcGraph(succ, code), [code[i][k]]);
    } else {
      assert ReachesExit(g, i);
      var bs :| IsPath(g, bs) && bs[0] == i;
      PathInRange(succ, bs);
      assert g.edge(bs[0], bs[1]);
      Suffix(g, bs, 1);
      assert forall m :: 0 <= m < |bs| - 1 ==> bs[1..][m] == bs[m + 1] && bs[m + 1] in bs;
      ExpandIsPath(succ, code, bs[1..]);
      var rest := Expand(code, bs[1..]);
      assert Edge(succ, code, Last(code, i), rest[0]);
      BlockThen(succ, code, i, k, rest);
    }
  }

  // ---------------------------------------------------------------------------------
  // The links of the analysis

  /** `connect_basic_blocks` links every block to its successors, except that a predicated
      return or exit is linked to the exit block alone: the way on to the next instruction is
      looked for one byte after the instruction, where there is none. */
  ghost predicate Linked(linked: Successors, succ: Successors) {
    && |linked| == |succ| > 0
    && forall i :: 0 <= i < |succ| ==> linked[i] <= succ[i] && (linked[i] != succ[i] ==> |succ| - 1 in linked[i])
  }

  /** A path cut short where it can go to the exit has all its links. */
  lemma {:induction false} CutShort(linked: Successors, succ: Successors, p: seq<int>) returns (q: seq<int>)
    requires Linked(linked, succ) && IsPath(BlockGraph(succ), p)
    ensures IsPath(BlockGraph(linked), q) && q[0] == p[0] && forall x :: x in q ==> x in p
    decreases |p|
  {
    var g, h := BlockGraph(linked), BlockGraph(succ);
    if |p| == 1 {
      q := p;
    } else {
      assert h.edge(p[0], p[1]);
      Suffix(h, p, 1);
      var rest := CutShort(linked, succ, p[1..]);
      if p[1] in linked[p[0]] {
        Prepend(g, p[0], rest);
        q := [p[0]] + rest;
      } else {
        q := [p[0], g.exit];
      }
    }
  }

  lemma LinkedPath(linked: Successors, succ: Successors, p: seq<int>)
    requires Linked(linked, succ) && IsPath(BlockGraph(linked), p)
    ensures IsPath(BlockGraph(succ), p)
  {
    forall i | 0 <= i < |p| - 1 ensures BlockGraph(succ).edge(p[i], p[i + 1]) {
      assert BlockGraph(linked).edge(p[i], p[i + 1]);
    }
  }

  /** The missing links change no post-dominator. */
  lemma LinksSuffice(linked: Successors, succ: Successors, x: int, a: int)
    requires Linked(linked, succ)
    ensures PostDominates(BlockGraph(linked), x, a) <==> PostDominates(BlockGraph(succ), x, a)
    ensures ReachesExit(BlockGraph(linked), a) <==> ReachesExit(BlockGraph(succ), a)
  {
    var g, h := BlockGraph(linked), BlockGraph(succ);
    forall p | IsPath(g, p) && p[0] == a ensures IsPath(h, p) {
      LinkedPath(linked, succ, p);
    }
    forall p | IsPath(h, p) && p[0] == a
      ensures exists q :: IsPath(g, q) && q[0] == a && forall y :: y in q ==> y in p
    {
      var q := CutShort(linked, succ, p);
    }
  }

  lemma ImmediateOfLinks(linked: Successors, succ: Successors, x: int, a: int)
    requires Linked(linked, succ) && ImmediatePostDominator(BlockGraph(linked), x, a)
    ensures ImmediatePostDominator(BlockGraph(succ), x, a)
  {
    forall y, b ensures PostDominates(BlockGraph(linked), y, b) <==> PostDominates(BlockGraph(succ), y, b) {
      LinksSuffice(linked, succ, y, b);
    }
  }

  // ---------------------------------------------------------------------------------
  // The table of reconvergence points

  /** `gpgpu_recon_t`. */
  datatype Pair = Pair(source: Pc, target: Pc)

  /** The function as it is analysed: its code, the successors of the blocks, those of them
      that are linked, and which blocks end in a branch. Both targets of a branch are
      instructions. */
  ghost predicate Linkable(linked: Successors, succ: Successors, code: Code, branch: seq<bool>) {
    && WellFormedCode(succ, code) && Linked(linked, succ) && AllReach(succ) && |branch| == |succ|
    && forall i :: 0 <= i < |succ| && branch[i] ==> |succ| - 1 !in succ[i]
  }

  /** Each block has the immediate post-dominator that the analysis found for it. */
  ghost predicate Analysed(linked: Successors, succ: Successors, code: Code, immediate: seq<int>, branch: seq<bool>) {
    && Linkable(linked, succ, code, branch) && |immediate| == |succ|
    && forall i :: 0 <= i < |succ| - 1 ==>
         0 <= immediate[i] < |succ| && ImmediatePostDominator(BlockGraph(linked), immediate[i], i)
  }

  /** The analysis as `ptx_assemble` runs it. */
  method Analyse(linked: Successors, ghost succ: Successors, ghost code: Code, ghost branch: seq<bool>)
    returns (immediate: seq<int>)
    requires Linkable(linked, succ, code, branch)
    ensures Analysed(linked, succ, code, immediate, branch)
  {
    forall i | 0 <= i < |succ| ensures ReachesExit(BlockGraph(linked), i) {
      LinksSuffice(linked, succ, i, i);
    }
    var info := new FunctionInfo(linked);
    info.FindPostdominators();
    info.FindIpostdominators();
    immediate := info.immediatePostdominatorId;
  }

  ghost predicate IsBranchEnd(code: Code, branch: seq<bool>, i: nat, pc: Pc) {
    i < |code| - 1 && i < |branch| && branch[i] && code[i] != [] && Last(code, i) == pc
  }

  /** A branch whose paths only meet at the exit, which has no instruction, reconverges after
      the return. */
  function Target(code: Code, j: int): Pc {
    if 0 <= j < |code| && code[j] != [] && 0 <= First(code, j) < ADDRESS_SPACE then First(code, j)
      else RECONVERGE_RETURN_PC
  }

  /** An entry of the table. */
  ghost predicate IsPair(code: Code, immediate: seq<int>, branch: seq<bool>, pair: Pair) {
    exists i: nat ::
      IsBranchEnd(code, branch, i, pair.source) && i < |immediate| && pair.target == Target(code, immediate[i])
  }

  ghost predicate IsTable(code: Code, immediate: seq<int>, branch: seq<bool>, pairs: seq<Pair>) {
    && (forall p :: p in pairs ==> IsPair(code, immediate, branch, p))
    && (forall i: nat, pc: Pc :: IsBranchEnd(code, branch, i, pc) ==> exists p :: p in pairs && p.source == pc)
  }

  /** `get_reconvergence_pairs`. */
  method GetReconvergencePairs(ghost linked: Successors, ghost succ: Successors, code: Code, immediate: seq<int>,
                               branch: seq<bool>)
    returns (pairs: seq<Pair>)
    requires Analysed(linked, succ, code, immediate, branch)
    ensures IsTable(code, immediate, branch, pairs)
  {
    pairs := [];
    for i := 0 to |code| - 1
      invariant forall p :: p in pairs ==> IsPair(code, immediate, branch, p)
      invariant forall k :: 0 <= k < i && branch[k] ==> exists p :: p in pairs && p.source == Last(code, k)
    {
      if branch[i] {
        var pair := Pair(Last(code, i), Target(code, immediate[i]));
        assert IsBranchEnd(code, branch, i, pair.source);
        pairs := pairs + [pair];
        assert pair in pairs;
      }
    }
  }

  /** What `update` gets for an instruction: for a branch the target, or the return address in
      its place; for every other instruction the null PC. */
  ghost function Point(code: Code, immediate: seq<int>, branch: seq<bool>, returnPc: Pc, pc: Pc): Pc {
    if exists i: nat :: IsBranchEnd(code, branch, i, pc) then
      var i: nat :| IsBranchEnd(code, branch, i, pc);
      if i < |immediate| && Target(code, immediate[i]) != RECONVERGE_RETURN_PC then Target(code, immediate[i])
        else returnPc
    else
      NULL_PC
  }

  lemma OneBranchEnd(succ: Successors, code: Code, branch: seq<bool>, i: nat, k: nat, pc: Pc)
    requires WellFormedCode(succ, code) && IsBranchEnd(code, branch, i, pc) && IsBranchEnd(code, branch, k, pc)
    ensures i == k
  {
    assert code[k][|code[k]| - 1] == code[i][|code[i]| - 1];
  }

  lemma PointIs(linked: Successors, succ: Successors, code: Code, immediate: seq<int>, branch: seq<bool>, returnPc: Pc,
                i: nat, pc: Pc)
    requires Analysed(linked, succ, code, immediate, branch) && IsBranchEnd(code, branch, i, pc)
    ensures Point(code, immediate, branch, returnPc, pc) == if immediate[i] == |code| - 1 then returnPc
      else First(code, immediate[i])
  {
    var k: nat :| IsBranchEnd(code, branch, k, pc) && Point(code, immediate, branch, returnPc, pc) ==
      if k < |immediate| && Target(code, immediate[k]) != RECONVERGE_RETURN_PC then Target(code, immediate[k])
        else returnPc;
    OneBranchEnd(succ, code, branch, i, k, pc);
    hide Point, ImmediatePostDominator, AllReach, IsBranchEnd;
  }

  lemma FoundPoint(succ: Successors, code: Code, immediate: seq<int>, branch: seq<bool>, returnPc: Pc,
                   pairs: seq<Pair>, k: nat)
    requires WellFormedCode(succ, code) && IsTable(code, immediate, branch, pairs) && k < |pairs|
    ensures Point(code, immediate, branch, returnPc, pairs[k].source) ==
      if pairs[k].target == RECONVERGE_RETURN_PC then returnPc else pairs[k].target
  {
    var pc := pairs[k].source;
    assert pairs[k] in pairs;
    var i: nat :| IsBranchEnd(code, branch, i, pc) && i < |immediate| && pairs[k].target == Target(code, immediate[i]);
    forall j: nat | IsBranchEnd(code, branch, j, pc) ensures j == i {
      OneBranchEnd(succ, code, branch, i, j, pc);
    }
    hide IsBranchEnd, Target, WellFormedCode;
  }

  /** `get_converge_point`, with the return address put in as `updateSIMTStack` does. */
  method ReconvergencePc(ghost linked: Successors, ghost succ: Successors, code: Code, immediate: seq<int>,
                         branch: seq<bool>, pc: Pc, returnPc: Pc)
    returns (r: Pc)
    requires Analysed(linked, succ, code, immediate, branch)
    ensures r == Point(code, immediate, branch, returnPc, pc)
  {
    var pairs := GetReconvergencePairs(linked, succ, code, immediate, branch);
    var k := FindPair(pairs, pc);
    if k < |pairs| {
      FoundPoint(succ, code, immediate, branch, returnPc, pairs, k);
      return if pairs[k].target == RECONVERGE_RETURN_PC then returnPc else pairs[k].target;
    }
    hide IsBranchEnd, WellFormedCode, Target;
    assert forall p :: p in pairs ==> p.source != pc;
    return NULL_PC;
  }

  method FindPair(pairs: seq<Pair>, pc: Pc) returns (k: nat)
    ensures k <= |pairs| && (k < |pairs| ==> pairs[k].source == pc) && forall j :: 0 <= j < k ==> pairs[j].source != pc
  {
    k := 0;
    while k < |pairs| && pairs[k].source != pc
      invariant k <= |pairs| && forall j :: 0 <= j < k ==> pairs[j].source != pc
    {
      k := k + 1;
    }
  }

  // ---------------------------------------------------------------------------------
  // The kernel that runs

  /** The PC of the first instruction. */
  function Start(code: Code): Pc {
    if code != [] && code[0] != [] && 0 <= code[0][0] < ADDRESS_SPACE then code[0][0] else NULL_PC
  }

  /** The instruction graph with the table. */
  ghost function FlowOf(succ: Successors, code: Code, immediate: seq<int>, branch: seq<bool>, returnPc: Pc): Flow
    requires WellFormedCode(succ, code)
  {
    Flow(PcGraph(succ, code), (pc: Pc) => Point(code, immediate, branch, returnPc, pc), returnPc)
  }

  lemma EdgesOk(succ: Successors, code: Code, a: int, b: int)
    requires WellFormedCode(succ, code) && AllReach(succ) && Edge(succ, code, a, b)
    ensures a != EXIT && ReachesExit(PcGraph(succ, code), b) && (b == EXIT || IsInstruction(b))
  {
    if i, k :| 0 <= i < |code| && 0 <= k < |code[i]| - 1 && code[i][k] == a && code[i][k + 1] == b {
      InstructionReaches(succ, code, i, k + 1);
    } else {
      var i, s :| 0 <= i < |code| && s in succ[i] && Last(code, i) == a && First(code, s) == b;
      InstructionReaches(succ, code, s, 0);
    }
  }

  /** A branch of the table has the point that it should. */
  lemma PointOk(linked: Successors, succ: Successors, code: Code, immediate: seq<int>, branch: seq<bool>, returnPc: Pc,
                pc: Pc)
    requires Analysed(linked, succ, code, immediate, branch)
    requires Point(code, immediate, branch, returnPc, pc) != NULL_PC
    ensures var f := FlowOf(succ, code, immediate, branch, returnPc); !f.g.edge(pc, f.g.exit) && exists x ::
      IsPoint(f, pc, x)
  {
    var f := FlowOf(succ, code, immediate, branch, returnPc);
    var i: nat :| IsBranchEnd(code, branch, i, pc);
    var j := immediate[i];
    PointIs(linked, succ, code, immediate, branch, returnPc, i, pc);
    ImmediateOfLinks(linked, succ, j, i);
    BlockToPc(succ, code, i, j);
    assert IsPoint(f, pc, First(code, j)) by {
      assert First(code, j) == EXIT <==> j == |code| - 1;
    }
    if Edge(succ, code, pc, EXIT) {
      var s := NextBlock(succ, code, i, EXIT);
    }
  }

  /** An analysed kernel is one that the results about runs are about, wherever it returns to. */
  lemma FlowOfOk(linked: Successors, succ: Successors, code: Code, immediate: seq<int>, branch: seq<bool>, returnPc: Pc)
    requires Analysed(linked, succ, code, immediate, branch) && returnPc != NULL_PC
    ensures FlowOk(FlowOf(succ, code, immediate, branch, returnPc))
    ensures Start(code) == First(code, 0) && IsInstruction(Start(code)) && ReachesExit(PcGraph(succ, code), Start(code))
  {
    var f := FlowOf(succ, code, immediate, branch, returnPc);
    InstructionReaches(succ, code, 0, 0);
    forall a: int, b: int | f.g.edge(a, b) ensures a != EXIT && ReachesExit(f.g, b) && (b == EXIT || IsInstruction(b)) {
      EdgesOk(succ, code, a, b);
    }
    forall pc: Pc | f.point(pc) != NULL_PC ensures !f.g.edge(pc, f.g.exit) && exists x :: IsPoint(f, pc, x) {
      PointOk(linked, succ, code, immediate, branch, returnPc, pc);
    }
  }
}
