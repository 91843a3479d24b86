/** Whole runs of a warp. The lock-step machine executes, for every active lane, the
    instruction at the PC of the top stack entry; a scalar thread executes the instruction
    at its own PC. Every run of the first is, lane by lane, a run of the second. */
module SimtRuns {
  import opened SimtStack
  import opened SimtSafety

  datatype Thread<S> = Thread(pc: Pc, done: bool, state: S)

  datatype Machine<S> = Machine(stack: seq<Entry>, threads: seq<Thread<S>>)

  /** What the executed instruction hands to `update`. */
  datatype Input = Input(recvgPc: Pc, op: Op)

  /** `exec(pc, t, th, th')`: executing the instruction at `pc` can take lane `t` from `th`
      to `th'`. It is a relation, so what a lane reads from memory may be anything. */
  type Exec<!S> = (Pc, nat, Thread<S>, Thread<S>) -> bool

  ghost function Done<S>(threads: seq<Thread<S>>): set<nat> {
    set t | 0 <= t < |threads| && threads[t].done
  }

  ghost function Pcs<S>(threads: seq<Thread<S>>): (pcs: seq<Pc>)
    ensures |pcs| == |threads|
  {
    seq(|threads|, t requires 0 <= t < |threads| => threads[t].pc)
  }

  /** One step of a thread running on its own. */
  ghost predicate ScalarStep<S>(exec: Exec<S>, t: nat, th: Thread<S>, th': Thread<S>) {
    !th.done && exec(th.pc, t, th, th')
  }

  ghost predicate ScalarRun<S>(exec: Exec<S>, t: nat, hist: seq<Thread<S>>) {
    hist != [] && forall i :: 0 <= i < |hist| - 1 ==> ScalarStep(exec, t, hist[i], hist[i + 1])
  }

  ghost predicate Active<S>(m: Machine<S>, t: nat) {
    m.stack != [] && t < |m.threads| && t in m.stack[|m.stack| - 1].mask && !m.threads[t].done
  }

  /** One step of the warp: the instruction at the PC of the top entry, on its live lanes,
      followed by the update of the stack. */
  ghost predicate LockStep<S>(exec: Exec<S>, m: Machine<S>, input: Input, m': Machine<S>)
  {
    && m.stack != []
    && |m'.threads| == |m.threads|
    && (forall t :: 0 <= t < |m.threads| ==>
          if Active(m, t) then exec(m.stack[|m.stack| - 1].pc, t, m.threads[t], m'.threads[t])
          else m'.threads[t] == m.threads[t])
    && Legal(m.stack, Done(m'.threads), Pcs(m'.threads), input.op)
    && KeepsLanes(m.stack, Done(m'.threads), Pcs(m'.threads), input.recvgPc, input.op)
    && m'.stack == Updated(m.stack, Done(m'.threads), Pcs(m'.threads), input.recvgPc, input.op)
  }

  ghost predicate Launched<S>(m: Machine<S>, startPc: Pc, mask: set<nat>) {
    && mask != {} && LanesBelow(mask, |m.threads|)
    && m.stack == [Entry(startPc, mask, NULL_PC, Normal)]
    && forall t :: t in mask ==> m.threads[t].pc == startPc
  }

  ghost predicate Run<S>(exec: Exec<S>, startPc: Pc, mask: set<nat>, ms: seq<Machine<S>>, inputs: seq<Input>) {
    && |ms| == |inputs| + 1
    && Launched(ms[0], startPc, mask)
    && forall i :: 0 <= i < |inputs| ==> LockStep(exec, ms[i], inputs[i], ms[i + 1])
  }

  ghost predicate MachineInv<S>(m: Machine<S>, mask: set<nat>) {
    Inv(m.stack, mask, Done(m.threads), Pcs(m.threads))
  }

  lemma LockStepKeeps<S>(exec: Exec<S>, m: Machine<S>, input: Input, m': Machine<S>, mask: set<nat>)
    requires MachineInv(m, mask) && LockStep(exec, m, input, m')
    ensures MachineInv(m', mask)
  {
    var done, done' := Done(m.threads), Done(m'.threads);
    forall t | t in done ensures t in done' {
      assert !Active(m, t);
    }
    forall t | t in mask && t !in done' && t !in m.stack[|m.stack| - 1].mask
      ensures Pcs(m'.threads)[t] == Pcs(m.threads)[t]
    {
      assert !Active(m, t);
    }
    UpdateKeeps(m.stack, mask, done, Pcs(m.threads), done', Pcs(m'.threads), input.recvgPc, input.op);
  }

  lemma {:induction false} RunKeeps<S>(exec: Exec<S>, startPc: Pc, mask: set<nat>, ms: seq<Machine<S>>,
                                       inputs: seq<Input>, n: nat)
    requires Run(exec, startPc, mask, ms, inputs) && n <= |inputs|
    ensures MachineInv(ms[n], mask) && |ms[n].threads| == |ms[0].threads|
  {
    if n == 0 {
      LaunchEstablishes(startPc, mask, Done(ms[0].threads), Pcs(ms[0].threads));
    } else {
      RunKeeps(exec, startPc, mask, ms, inputs, n - 1);
      assert LockStep(exec, ms[n - 1], inputs[n - 1], ms[n]);
      LockStepKeeps(exec, ms[n - 1], inputs[n - 1], ms[n], mask);
    }
  }

  /** Whenever a lane is active, the PC of the top entry is that lane's own PC: fetching at
      the top of the stack fetches the right instruction for every active lane. */
  lemma FetchInSync<S>(exec: Exec<S>, startPc: Pc, mask: set<nat>, ms: seq<Machine<S>>, inputs: seq<Input>, n: nat,
                       t: nat)
    requires Run(exec, startPc, mask, ms, inputs) && n <= |inputs| && Active(ms[n], t)
    ensures t in mask && ms[n].stack[|ms[n].stack| - 1].pc == ms[n].threads[t].pc
  {
    RunKeeps(exec, startPc, mask, ms, inputs, n);
    var s := ms[n].stack;
    OwnerIs(s, |s|, t, |s| - 1);
    assert t in mask - Done(ms[n].threads);
  }

  lemma ScalarStart<S>(exec: Exec<S>, t: nat, th: Thread<S>)
    ensures ScalarRun(exec, t, [th])
  {
  }

  lemma RunGrows<S>(exec: Exec<S>, t: nat, hist: seq<Thread<S>>, th: Thread<S>)
    requires ScalarRun(exec, t, hist) && ScalarStep(exec, t, hist[|hist| - 1], th)
    ensures ScalarRun(exec, t, hist + [th])
  {
    var longer := hist + [th];
    forall i | 0 <= i < |longer| - 1 ensures ScalarStep(exec, t, longer[i], longer[i + 1]) {
      if i < |hist| - 1 {
        assert ScalarStep(exec, t, hist[i], hist[i + 1]);
      }
    }
  }

  /** The lock-step machine simulates independent scalar threads: whatever the warp does in
      n steps, each lane has made a run of its own from its launch state to its state. */
  lemma {:induction false} LockStepRefinesScalar<S>(exec: Exec<S>, startPc: Pc, mask: set<nat>, ms: seq<Machine<S>>,
                                                    inputs: seq<Input>, n: nat, t: nat)
    returns (hist: seq<Thread<S>>)
    requires Run(exec, startPc, mask, ms, inputs) && n <= |inputs| && t < |ms[0].threads|
    ensures |ms[n].threads| == |ms[0].threads|
    ensures ScalarRun(exec, t, hist)
    ensures hist != [] && hist[0] == ms[0].threads[t] && hist[|hist| - 1] == ms[n].threads[t]
  {
    hide ScalarRun, MachineInv, Legal, KeepsLanes;
    RunKeeps(exec, startPc, mask, ms, inputs, n);
    if n == 0 {
      assert ScalarRun(exec, t, [ms[0].threads[t]]) by {
        ScalarStart(exec, t, ms[0].threads[t]);
      }
      hist := [ms[0].threads[t]];
    } else {
      hist := LockStepRefinesScalar(exec, startPc, mask, ms, inputs, n - 1, t);
      RunKeeps(exec, startPc, mask, ms, inputs, n - 1);
      assert LockStep(exec, ms[n - 1], inputs[n - 1], ms[n]);
      if Active(ms[n - 1], t) {
        FetchInSync(exec, startPc, mask, ms, inputs, n - 1, t);
        RunGrows(exec, t, hist, ms[n].threads[t]);
        hist := hist + [ms[n].threads[t]];
      }
    }
  }

  /** In every run the stack of a warp with n launched lanes holds at most 2n - 1 entries
      plus one for each pending call. */
  lemma RunDepth<S>(exec: Exec<S>, startPc: Pc, mask: set<nat>, ms: seq<Machine<S>>, inputs: seq<Input>, n: nat)
    requires Run(exec, startPc, mask, ms, inputs) && n <= |inputs|
    ensures |ms[n].stack| <= 2 * |mask| - 1 + Calls(ms[n].stack)
  {
    RunKeeps(exec, startPc, mask, ms, inputs, n);
    BoundedDepth(ms[n].stack, mask, Done(ms[n].threads), Pcs(ms[n].threads));
  }
}
