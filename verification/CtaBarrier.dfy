/**
  The loop of `functionalCoreSim` in src/cuda-sim/cuda-sim.cc that runs the warps of a thread
  block one instruction at a time, in turn, and holds them at barriers.

  What a warp's instructions do is given: for each warp the finite list of its instructions in
  this run, of which the loop sees two things, whether it is a barrier and how many of the
  warp's threads it ends.
*/
module CtaBarrier {

  datatype Instruction = Instruction(isBarrier: bool, exits: nat)

  type Program = seq<Instruction>

  /** Threads that end at position `j` or later, so those alive before it. */
  ghost function LiveAt(p: Program, j: nat): nat
    requires j <= |p|
    decreases |p| - j
  {
    if j == |p| then 0 else p[j].exits + LiveAt(p, j + 1)
  }

  ghost function Barriers(p: Program, j: nat): nat
    requires j <= |p|
  {
    if j == 0 then 0 else Barriers(p, j - 1) + if p[j - 1].isBarrier then 1 else 0
  }

  lemma {:induction false} BarriersIs(p: Program, j: nat)
    requires j <= |p|
    ensures Barriers(p, j) == |set k | 0 <= k < j && p[k].isBarrier|
  {
    var s := set k | 0 <= k < j && p[k].isBarrier;
    if j == 0 {
      assert s == {};
    } else {
      BarriersIs(p, j - 1);
      assert s == (set k | 0 <= k < j - 1 && p[k].isBarrier) + if p[j - 1].isBarrier then {j - 1} else {};
    }
  }

  /** Instruction `at` of a warp is executed. */
  datatype Step = Step(warp: nat, at: nat)

  ghost predicate InPrograms(trace: seq<Step>, programs: seq<Program>) {
    forall a :: 0 <= a < |trace| ==> trace[a].warp < |programs| && trace[a].at < |programs[trace[a].warp]|
  }

  /** Each warp has executed its first instructions, each once and in order. */
  ghost predicate InOrder(trace: seq<Step>, pos: seq<nat>) {
    && (forall a :: 0 <= a < |trace| ==> trace[a].warp < |pos| && trace[a].at < pos[trace[a].warp])
    && (forall i, j :: 0 <= i < |pos| && 0 <= j < pos[i] ==> Step(i, j) in trace)
    && forall a, b :: 0 <= a < b < |trace| && trace[a].warp == trace[b].warp ==> trace[a].at < trace[b].at
  }

  /** What is executed later has at least as many barriers of its own warp behind it. */
  ghost predicate InPhases(trace: seq<Step>, programs: seq<Program>)
    requires InPrograms(trace, programs)
  {
    forall a, b :: 0 <= a < b < |trace| ==>
      Barriers(programs[trace[a].warp], trace[a].at) <= Barriers(programs[trace[b].warp], trace[b].at)
  }

  /** So what a warp executes after its `n`-th barrier comes later than the `n`-th barrier of
      every other warp that comes to it, and than all before that. */
  lemma BarriersSeparate(trace: seq<Step>, programs: seq<Program>, a: nat, b: nat, n: nat)
    requires InPrograms(trace, programs) && InPhases(trace, programs) && a < |trace| && b < |trace|
    requires |set k | 0 <= k < trace[a].at && programs[trace[a].warp][k].isBarrier| >= n
    requires |set k | 0 <= k < trace[b].at && programs[trace[b].warp][k].isBarrier| < n
    ensures b < a
  {
    BarriersIs(programs[trace[a].warp], trace[a].at);
    BarriersIs(programs[trace[b].warp], trace[b].at);
  }

  /** The record of what was executed while the barrier has opened that often. */
  ghost predicate IsRecord(trace: seq<Step>, programs: seq<Program>, pos: seq<nat>, releases: nat) {
    && InPrograms(trace, programs) && InOrder(trace, pos) && InPhases(trace, programs)
    && forall a :: 0 <= a < |trace| ==> Barriers(programs[trace[a].warp], trace[a].at) <= releases
  }

  lemma RecordMore(trace: seq<Step>, programs: seq<Program>, pos: seq<nat>, releases: nat, i: nat)
    requires IsRecord(trace, programs, pos, releases) && i < |pos| == |programs| && pos[i] < |programs[i]|
    requires Barriers(programs[i], pos[i]) == releases
    ensures IsRecord(trace + [Step(i, pos[i])], programs, pos[i := pos[i] + 1], releases)
  {
    var trace' := trace + [Step(i, pos[i])];
    assert trace'[|trace|] == Step(i, pos[i]);
    forall x | x in trace
      ensures x in trace'
    {
    }
  }

  /** A warp has threads left for as long as it has instructions. */
  ghost predicate IsProgram(p: Program) {
    forall j :: 0 <= j < |p| ==> LiveAt(p, j) > 0
  }

  /** Instructions left to the first `n` warps. */
  ghost function Left(programs: seq<Program>, pos: seq<nat>, n: nat): nat
    requires n <= |programs| == |pos| && forall i :: 0 <= i < |pos| ==> pos[i] <= |programs[i]|
  {
    if n == 0 then 0 else Left(programs, pos, n - 1) + |programs[n - 1]| - pos[n - 1]
  }

  lemma {:induction false} LeftDrops(programs: seq<Program>, pos: seq<nat>, k: nat, n: nat)
    requires n <= |programs| == |pos| && forall i :: 0 <= i < |pos| ==> pos[i] <= |programs[i]|
    requires k < |pos| && pos[k] < |programs[k]|
    ensures Left(programs, pos[k := pos[k] + 1], n) == Left(programs, pos, n) - if k < n then 1 else 0
  {
    if n == 0 {
    } else {
      LeftDrops(programs, pos, k, n - 1);
    }
  }

  class FunctionalCore {
    var liveThreadCount: seq<nat>
    var warpAtBarrier: seq<bool>
    const programs: seq<Program>
    /** How far each warp is, and how often the barrier has opened. */
    var pos: seq<nat>
    ghost var releases: nat
    /** All that was executed, in order. */
    ghost var trace: seq<Step>

    ghost predicate Valid()
      reads this
    {
      && IsRecord(trace, programs, pos, releases)
      && |programs| == |pos| == |liveThreadCount| == |warpAtBarrier|
      && forall i :: 0 <= i < |pos| ==>
        IsProgram(programs[i]) && WarpOk(programs[i], pos[i], liveThreadCount[i], warpAtBarrier[i])
    }

    /** A live warp has passed exactly the barriers that have opened, and one more if it waits
        at it. */
    ghost predicate WarpOk(p: Program, at: nat, live: nat, waiting: bool)
      reads `releases
    {
      at <= |p| && live == LiveAt(p, at) && (live > 0 ==> Barriers(p, at) == releases + if waiting then 1 else 0)
    }

    predicate Running(i: nat)
      requires i < |liveThreadCount| == |warpAtBarrier|
      reads this
    {
      liveThreadCount[i] > 0 && !warpAtBarrier[i]
    }

    /** Some live warp does not wait, unless all are done. */
    ghost predicate CanStep()
      requires Valid()
      reads this
    {
      (exists i :: 0 <= i < |pos| && liveThreadCount[i] > 0) ==> exists i :: 0 <= i < |pos| && Running(i)
    }

    ghost function StepsLeft(): nat
      requires Valid()
      reads this
    {
      Left(programs, pos, |pos|)
    }

    /** No live warp is ever a whole barrier ahead of another: when one has passed a barrier
        that has opened, all have reached it. */
    lemma NoneAhead(i: nat, j: nat)
      requires Valid() && i < |pos| && j < |pos| && liveThreadCount[i] > 0 && liveThreadCount[j] > 0
      ensures Barriers(programs[i], pos[i]) <= Barriers(programs[j], pos[j]) + 1
      ensures !warpAtBarrier[i] ==> Barriers(programs[i], pos[i]) <= Barriers(programs[j], pos[j])
    {
    }

    /** Instructions of a warp that is live are not used up, and of one that is not, are. */
    lemma LiveHasNext(i: nat)
      requires Valid() && i < |pos|
      ensures liveThreadCount[i] > 0 <==> pos[i] < |programs[i]|
    {
      assert WarpOk(programs[i], pos[i], liveThreadCount[i], warpAtBarrier[i]);
    }

    constructor (programs: seq<Program>)
      requires forall i :: 0 <= i < |programs| ==> IsProgram(programs[i])
      ensures Valid() && CanStep() && this.programs == programs && trace == []
      ensures forall i :: 0 <= i < |pos| ==> pos[i] == 0
    {
      this.programs := programs;
      pos := seq(|programs|, i => 0);
      var live := [];
      for i := 0 to |programs|
        invariant |live| == i && forall k :: 0 <= k < i ==> live[k] == LiveAt(programs[k], 0)
      {
        var n := Threads(programs[i]);
        live := live + [n];
      }
      liveThreadCount := live;
      warpAtBarrier := seq(|programs|, i => false);
      releases, trace := 0, [];
      new;
      assert forall i :: 0 <= i < |pos| && liveThreadCount[i] > 0 ==> Running(i);
    }

    static method Threads(p: Program) returns (n: nat)
      ensures n == LiveAt(p, 0)
    {
      n := 0;
      for j := |p| downto 0
        invariant n == LiveAt(p, j)
      {
        n := p[j].exits + n;
      }
    }

    /** A warp executes its next instruction. */
    method StepWarp(i: nat)
      requires Valid() && i < |pos| && Running(i)
      modifies `liveThreadCount, `warpAtBarrier, `pos, `trace
      ensures Valid() && pos == old(pos)[i := old(pos[i]) + 1] && trace == old(trace) + [Step(i, old(pos[i]))]
      ensures forall k :: 0 <= k < |pos| && k != i ==>
        && liveThreadCount[k] == old(liveThreadCount[k])
        && warpAtBarrier[k] == old(warpAtBarrier[k])
      ensures liveThreadCount[i] <= old(liveThreadCount[i])
      ensures StepsLeft() == old(StepsLeft()) - 1
    {
      hide IsRecord, Left, LiveAt, Barriers, IsProgram;
      NextOk(i);
      var inst := programs[i][pos[i]];
      liveThreadCount := liveThreadCount[i := liveThreadCount[i] - inst.exits];
      if inst.isBarrier {
        warpAtBarrier := warpAtBarrier[i := true];
      }
      trace := trace + [Step(i, pos[i])];
      pos := pos[i := pos[i] + 1];
    }

    lemma NextOk(i: nat)
      requires Valid() && i < |pos| && Running(i)
      ensures pos[i] < |programs[i]| && programs[i][pos[i]].exits <= liveThreadCount[i]
      ensures var p, at := programs[i], pos[i];
        && LiveAt(p, at + 1) == liveThreadCount[i] - p[at].exits
        && Barriers(p, at + 1) == releases + (if p[at].isBarrier then 1 else 0)
        && IsRecord(trace + [Step(i, at)], programs, pos[i := at + 1], releases)
        && Left(programs, pos[i := at + 1], |pos|) == Left(programs, pos, |pos|) - 1
    {
      LiveHasNext(i);
      LeftDrops(programs, pos, i, |pos|);
      RecordMore(trace, programs, pos, releases, i);
      hide IsRecord;
      assert WarpOk(programs[i], pos[i], liveThreadCount[i], warpAtBarrier[i]);
    }

    /** `executeWarp`. */
    method ExecuteWarp(i: nat, allAtBarrier: bool, someOneLive: bool) returns (all: bool, some: bool)
      requires Valid() && i < |pos|
      modifies `liveThreadCount, `warpAtBarrier, `pos, `trace
      ensures Valid() && |pos| == old(|pos|)
      ensures if old(Running(i)) then
          pos == old(pos)[i := old(pos[i]) + 1] && trace == old(trace) + [Step(i, old(pos[i]))]
        else pos == old(pos) && trace == old(trace)
      ensures forall k :: 0 <= k < |pos| && k != i ==>
        && liveThreadCount[k] == old(liveThreadCount[k])
        && warpAtBarrier[k] == old(warpAtBarrier[k])
        && Running(k) == old(Running(k))
      ensures liveThreadCount[i] <= old(liveThreadCount[i])
      ensures StepsLeft() == old(StepsLeft()) - if old(Running(i)) then 1 else 0
      ensures some == (someOneLive || liveThreadCount[i] > 0) && all == (allAtBarrier && !Running(i))
    {
      hide IsRecord, Left, WarpOk, IsProgram;
      all, some := allAtBarrier, someOneLive;
      if !warpAtBarrier[i] && liveThreadCount[i] != 0 {
        StepWarp(i);
      }
      if liveThreadCount[i] > 0 {
        some := true;
      }
      if !warpAtBarrier[i] && liveThreadCount[i] > 0 {
        all := false;
      }
    }

    /** One turn of the outer loop. If a warp is live it executes at least one instruction. */
    method Sweep() returns (some: bool)
      requires Valid() && CanStep()
      modifies this
      ensures Valid() && CanStep() && |pos| == old(|pos|)
      ensures forall i :: 0 <= i < |pos| ==> pos[i] == old(pos[i]) + if old(Running(i)) then 1 else 0
      ensures old(trace) <= trace
      ensures some <==> exists i :: 0 <= i < |pos| && liveThreadCount[i] > 0
      ensures (exists i :: 0 <= i < |pos| && old(liveThreadCount[i] > 0)) ==> StepsLeft() < old(StepsLeft())
      ensures some ==> exists i :: 0 <= i < |pos| && old(liveThreadCount[i] > 0)
    {
      hide IsRecord, Left, WarpOk, IsProgram;
      some := false;
      var allAtBarrier := true;
      for i := 0 to |pos|
        invariant Valid() && |pos| == old(|pos|) && releases == old(releases)
        invariant forall k :: 0 <= k < i ==> pos[k] == old(pos[k]) + if old(Running(k)) then 1 else 0
        invariant forall k :: i <= k < |pos| ==> pos[k] == old(pos[k])
        invariant old(trace) <= trace
        invariant forall k :: 0 <= k < |pos| ==> liveThreadCount[k] <= old(liveThreadCount[k])
        invariant some <==> exists k :: 0 <= k < i && liveThreadCount[k] > 0
        invariant allAtBarrier <==> forall k :: 0 <= k < i ==> !Running(k)
        invariant forall k :: i <= k < |pos| ==>
          liveThreadCount[k] == old(liveThreadCount[k]) && warpAtBarrier[k] == old(warpAtBarrier[k])
        invariant StepsLeft() <= old(StepsLeft())
        invariant (exists k :: 0 <= k < i && old(Running(k))) ==> StepsLeft() < old(StepsLeft())
      {
        allAtBarrier, some := ExecuteWarp(i, allAtBarrier, some);
      }
      if some && allAtBarrier {
        Release();
      }
    }

    /** All live warps wait: the barrier opens. */
    method Release()
      requires Valid() && forall i :: 0 <= i < |pos| ==> !Running(i)
      modifies `warpAtBarrier, `releases
      ensures Valid() && CanStep() && releases == old(releases) + 1
      ensures |warpAtBarrier| == old(|warpAtBarrier|) && forall i :: 0 <= i < |pos| ==> !warpAtBarrier[i]
    {
      releases := releases + 1;
      warpAtBarrier := seq(|warpAtBarrier|, i => false);
      forall i | 0 <= i < |pos| ensures WarpOk(programs[i], pos[i], liveThreadCount[i], warpAtBarrier[i]) {
        assert !old(Running(i));
      }
      assert forall i :: 0 <= i < |pos| && liveThreadCount[i] > 0 ==> Running(i);
    }

    /** `execute`: the block always runs to the end, whatever barriers its warps meet. */
    method Execute()
      requires Valid() && CanStep()
      modifies this
      ensures Valid() && |pos| == old(|pos|)
      ensures forall i :: 0 <= i < |pos| ==> liveThreadCount[i] == 0 && pos[i] == |programs[i]|
      ensures old(trace) <= trace && InOrder(trace, pos) && InPrograms(trace, programs) && InPhases(trace, programs)
    {
      var some := true;
      while some
        invariant Valid() && CanStep() && |pos| == old(|pos|)
        invariant !some ==> forall i :: 0 <= i < |pos| ==> liveThreadCount[i] == 0
        invariant old(trace) <= trace
        decreases some, StepsLeft()
      {
        some := Sweep();
      }
      forall i | 0 <= i < |pos| ensures pos[i] == |programs[i]| {
        LiveHasNext(i);
      }
    }
  }
}
