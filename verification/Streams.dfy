/**
  The CUDA stream manager of src/stream_manager.cc: queues of operations that a host thread
  fills and the simulation thread serves, one operation in progress per stream. Stream zero
  excludes all others: it is served only once they are empty, and they only once it is empty.

  Every method of `Manager` runs under the manager's lock in the source, so any interleaving
  of the host and the simulation thread is a sequence of these calls.
*/
module Streams {

  /** `stream_operation`, by what the manager looks at. Copies in all directions behave alike. */
  datatype Operation = NoOp | Memcpy | Event | Kernel(uid: nat)

  ghost predicate DistinctKernels(ops: seq<Operation>) {
    forall i, j :: 0 <= i < j < |ops| && ops[i].Kernel? ==> ops[i] != ops[j]
  }

  /** `CUstream_st`. */
  class Stream {
    var operations: seq<Operation>
    /** The front operation has started but not yet completed. */
    var pending: bool
    /** All that was ever pushed, and all that has completed. */
    ghost var pushed: seq<Operation>
    ghost var completed: seq<Operation>

    /** Completed operations followed by the queue are what was pushed, in order. */
    ghost predicate Valid()
      reads this
    {
      && pushed == completed + operations && NoOp !in operations && DistinctKernels(operations)
      && (pending ==> operations != [])
    }

    constructor ()
      ensures Valid() && operations == [] && !pending
    {
      operations, pending := [], false;
      pushed, completed := [], [];
    }

    method Push(op: Operation)
      requires Valid() && op != NoOp && (op.Kernel? ==> op !in operations)
      modifies this
      ensures Valid() && operations == old(operations) + [op] && pending == old(pending)
      ensures pushed == old(pushed) + [op] && completed == old(completed)
    {
      operations := operations + [op];
      pushed := pushed + [op];
    }

    method Next() returns (op: Operation)
      requires Valid() && operations != []
      modifies `pending
      ensures Valid() && pending && op == operations[0]
    {
      pending := true;
      op := operations[0];
    }

    method RecordNextDone()
      requires Valid() && pending
      modifies this
      ensures Valid() && !pending && operations == old(operations[1..])
      ensures pushed == old(pushed) && completed == old(completed + [operations[0]])
      ensures forall op :: op in operations ==> op in old(operations)
      ensures old(operations[0]).Kernel? ==> old(operations[0]) !in operations
    {
      completed := completed + [operations[0]];
      operations := operations[1..];
      pending := false;
    }
  }

  /** What each stream still has to do, whether its front operation is in progress, and what it
      has completed. */
  datatype Progress = Progress(queues: map<Stream, seq<Operation>>, pending: map<Stream, bool>,
                               done: map<Stream, seq<Operation>>) {
    ghost predicate Complete() {
      queues.Keys == pending.Keys == done.Keys
    }

    ghost predicate CanStart(s: Stream)
      requires Complete()
    {
      s in queues && queues[s] != [] && !pending[s]
    }

    /** Stream zero is being served, or begins to be, as all others are empty. */
    ghost predicate ServesZero(served: bool, streams: seq<Stream>)
      requires forall t :: t in streams ==> t in queues
    {
      served || forall t :: t in streams ==> queues[t] == []
    }

    /** The operation to start is the front of `s`: of stream zero while it is served, else of the
        first other stream that has one to start. It is `NoOp` only if there is none. */
    ghost predicate Chooses(op: Operation, s: Stream, served: bool, zero: Stream, streams: seq<Stream>)
      requires Complete() && forall t :: t in streams ==> t in queues
    {
      if op == NoOp then
        if ServesZero(served, streams) then !CanStart(zero) else forall t :: t in streams ==> !CanStart(t)
      else
        && CanStart(s) && op == queues[s][0]
        && (if ServesZero(served, streams) then s == zero else IsFirst(s, streams))
    }

    ghost predicate IsFirst(s: Stream, streams: seq<Stream>)
      requires Complete()
    {
      exists i :: 0 <= i < |streams| && streams[i] == s && forall j :: 0 <= j < i ==> !CanStart(streams[j])
    }

    /** The front operation of the stream starts. */
    ghost function Started(s: Stream): (p: Progress)
      requires Complete()
      ensures s in queues ==> p.Complete()
    {
      this.(pending := pending[s := true])
    }

    /** The front operation of the stream is over. */
    ghost function Over(s: Stream): (p: Progress)
      requires Complete()
      ensures p.Complete() && p.queues.Keys == queues.Keys
    {
      if s in queues && queues[s] != [] then
        Progress(queues[s := queues[s][1..]], pending[s := false], done[s := done[s] + [queues[s][0]]])
      else this
    }

    /** The operation `op` of the stream starts, and if it is over at once it is completed too. */
    ghost function Served(op: Operation, s: Stream, canStartKernel: bool, functional: bool): Progress
      requires Complete()
    {
      if op == NoOp then this
      else if OverAtOnce(op, canStartKernel, functional) then Over(s)
      else Started(s)
    }

    /** It makes no difference that what is over at once is started first. */
    lemma StartedThenOver(op: Operation, s: Stream, canStartKernel: bool, functional: bool)
      requires Complete() && (op != NoOp ==> CanStart(s))
      ensures var p := if op == NoOp then this else Started(s);
        p.Complete() &&
        Served(op, s, canStartKernel, functional) == if OverAtOnce(op, canStartKernel, functional) then p.Over(s) else p
    {
    }

    /** What a turn that serves an operation means for each stream. */
    lemma ServedIs(op: Operation, s: Stream, canStartKernel: bool, functional: bool, t: Stream)
      requires Complete() && t in queues && (op != NoOp ==> CanStart(s) && op == queues[s][0])
      ensures var p := Served(op, s, canStartKernel, functional);
        && p.Complete() && t in p.queues && p.queues.Keys == queues.Keys
        && (op == NoOp || t != s ==>
          p.queues[t] == queues[t] && p.pending[t] == pending[t] && p.done[t] == done[t])
        && (op != NoOp && t == s ==>
          if op.Kernel? && !(canStartKernel && functional) then
            p.queues[t] == queues[t] && p.pending[t] && p.done[t] == done[t]
          else [op] + p.queues[t] == queues[t] && !p.pending[t] && p.done[t] == done[t] + [op])
    {
    }
  }

  /** The operation is over when `do_operation` returns; so is a kernel that is simulated
      functionally, if the GPU can start one. */
  ghost predicate OverAtOnce(op: Operation, canStartKernel: bool, functional: bool) {
    op != NoOp && (op.Kernel? ==> canStartKernel && functional)
  }

  /** `stream_manager`. */
  class Manager {
    var streams: seq<Stream>
    const zero: Stream
    var gridIdToStream: map<nat, Stream>
    var serviceStreamZero: bool
    /** The stream each kernel ever queued went to; kernel ids come from a counter. */
    ghost var owner: map<nat, Stream>
    /** The kernels the GPU has accepted and not yet reported as finished. */
    ghost var running: set<nat>

    ghost function All(): (r: set<Stream>)
      reads `streams
      ensures zero in r && (forall s :: s in streams ==> s in r) && forall s :: s in r ==> s == zero || s in streams
    {
      (set s | s in streams) + {zero}
    }

    /** The kernel that a stream has in progress. */
    ghost predicate InProgress(s: Stream, uid: nat)
      reads s
    {
      s.pending && s.operations != [] && s.operations[0] == Kernel(uid)
    }

    ghost predicate Valid()
      reads this, streams, zero
    {
      && zero !in streams && (forall s :: s in All() ==> s.Valid())
      && Exclusive() && Linked() && Owned()
    }

    /** What is served decides what can be in progress. */
    ghost predicate Exclusive()
      reads this, streams, zero
    {
      && (serviceStreamZero ==> forall s :: s in streams ==> !s.pending)
      && (!serviceStreamZero ==> !zero.pending)
    }

    /** The grid map lists exactly the kernels in progress, each with its stream. */
    ghost predicate Linked()
      reads this, streams, zero
    {
      && (forall uid :: uid in gridIdToStream ==>
        uid > 0 && gridIdToStream[uid] in All() && InProgress(gridIdToStream[uid], uid))
      && (forall s, uid :: s in All() && InProgress(s, uid) ==> uid in gridIdToStream && gridIdToStream[uid] == s)
      && (forall uid :: uid in running ==> uid in gridIdToStream)
    }

    ghost predicate Owned()
      reads this, streams, zero
    {
      forall s, op: Operation :: s in All() && op in s.operations && op.Kernel? ==>
        op.uid > 0 && op.uid in owner && owner[op.uid] == s
    }

    /** The promise of stream zero: never one of its operations in progress together with one
        of another stream. */
    lemma NeverTogether(s: Stream)
      requires Valid() && s in streams
      ensures !(s.pending && zero.pending)
    {
    }

    constructor ()
      ensures Valid() && streams == [] && zero.operations == [] && fresh(zero)
    {
      streams, gridIdToStream, serviceStreamZero := [], map[], false;
      owner, running := map[], {};
      zero := new Stream();
    }

    /** `concurrent_streams_empty`. */
    method ConcurrentStreamsEmpty() returns (result: bool)
      ensures result <==> forall s :: s in streams ==> s.operations == []
    {
      result := true;
      for i := 0 to |streams|
        invariant result <==> forall j :: 0 <= j < i ==> streams[j].operations == []
      {
        if streams[i].operations != [] {
          result := false;
        }
      }
    }

    /** `add_stream`: a stream just made joins the list. */
    method AddStream(s: Stream)
      requires Valid() && s !in All() && s.Valid() && s.operations == []
      modifies `streams
      ensures Valid() && streams == old(streams) + [s]
    {
      streams := streams + [s];
    }

    /** `push`, once it has the lock: the host adds an operation to a stream. */
    method Push(s: Stream, op: Operation)
      requires Valid() && s in All() && op != NoOp && (op.Kernel? ==> op.uid > 0 && op.uid !in owner)
      modifies s, `owner
      ensures Valid() && s.operations == old(s.operations) + [op] && s.pending == old(s.pending)
      ensures s.pushed == old(s.pushed) + [op] && s.completed == old(s.completed)
      ensures owner == if op.Kernel? then old(owner)[op.uid := s] else old(owner)
    {
      if op.Kernel? {
        assert op !in s.operations;
        Enrol(op.uid, s);
      }
      s.Push(op);
    }

    /** A kernel that is new gets its stream. */
    ghost method Enrol(uid: nat, s: Stream)
      requires Valid() && uid !in owner
      modifies `owner
      ensures Valid() && owner == old(owner)[uid := s]
    {
      owner := owner[uid := s];
    }

    /** The kernel a stream has in progress is over. */
    method FinishKernel(s: Stream, uid: nat)
      requires Valid() && s in All() && InProgress(s, uid)
      modifies s, `gridIdToStream, `running
      ensures Valid() && !s.pending && s.operations == old(s.operations[1..])
      ensures s.pushed == old(s.pushed) && s.completed == old(s.completed) + [Kernel(uid)]
      ensures gridIdToStream == old(gridIdToStream) - {uid} && running == old(running) - {uid}
    {
      assert gridIdToStream[uid] == s;
      s.RecordNextDone();
      gridIdToStream := gridIdToStream - {uid};
      running := running - {uid};
      assert Exclusive() && Owned();
    }

    /** A copy or an event that a stream has in progress is over. */
    method FinishOther(s: Stream)
      requires Valid() && s in All() && s.pending && !s.operations[0].Kernel?
      modifies s
      ensures Valid() && !s.pending && s.operations == old(s.operations[1..])
      ensures s.pushed == old(s.pushed) && s.completed == old(s.completed + [s.operations[0]])
    {
      s.RecordNextDone();
    }

    /** The front operation of a stream starts. */
    method Start(s: Stream) returns (op: Operation)
      requires Valid() && s in All() && !s.pending && s.operations != [] && (serviceStreamZero <==> s == zero)
      modifies s`pending, `gridIdToStream
      ensures Valid() && s.pending && op == s.operations[0] && op != NoOp
      ensures op.Kernel? ==> op.uid > 0 && op.uid !in old(gridIdToStream)
      ensures gridIdToStream == if op.Kernel? then old(gridIdToStream)[op.uid := s] else old(gridIdToStream)
    {
      assert forall uid :: uid in gridIdToStream ==> gridIdToStream[uid] != s;
      op := s.Next();
      if op.Kernel? {
        assert op in s.operations && op.uid in owner && owner[op.uid] == s;
        assert op.uid !in gridIdToStream;
        gridIdToStream := gridIdToStream[op.uid := s];
      }
      assert Exclusive() && Owned();
    }

    /** All streams as they are. */
    ghost function Now(): (p: Progress)
      reads `streams, streams, zero
      ensures p.Complete() && p.queues.Keys == All()
      ensures forall s :: s in All() ==> Has(s, p)
    {
      Progress(map s | s in All() :: s.operations, map s | s in All() :: s.pending, map s | s in All() :: s.completed)
    }

    static ghost predicate Has(s: Stream, p: Progress)
      requires p.Complete() && s in p.queues
      reads s
    {
      s.operations == p.queues[s] && s.pending == p.pending[s] && s.completed == p.done[s]
    }

    lemma NowIs(p: Progress)
      requires p.Complete() && p.queues.Keys == All() && forall s :: s in All() ==> Has(s, p)
      ensures Now() == p
    {
    }

    /** All streams, once the kernel `uid`, if it is not zero, is recorded as finished. */
    ghost function Recorded(uid: nat): (p: Progress)
      reads `streams, `gridIdToStream, streams, zero
      ensures p.Complete() && p.queues.Keys == All()
    {
      if uid > 0 && uid in gridIdToStream then Now().Over(gridIdToStream[uid]) else Now()
    }

    lemma OnRecord(uid: nat)
      requires Valid() && (uid > 0 ==> uid in gridIdToStream)
      ensures if uid == 0 then Recorded(uid) == Now() else
        var s := gridIdToStream[uid];
        && s in All() && InProgress(s, uid) && s.operations != [] && s.operations[0] == Kernel(uid)
        && Recorded(uid) == Now().Over(s)
    {
    }

    /** The GPU has reported the kernel that a stream has in progress. */
    method EndKernel(s: Stream, uid: nat)
      requires Valid() && s in All() && InProgress(s, uid)
      modifies s, `gridIdToStream, `running
      ensures Valid() && s.pushed == old(s.pushed) && gridIdToStream == old(gridIdToStream) - {uid}
      ensures running == old(running) - {uid} && Now() == old(Now()).Over(s)
    {
      assert s.operations != [] && s.operations[0] == Kernel(uid);
      hide Valid, Exclusive, Linked, Owned, Now;
      ghost var p := Now();
      FinishKernel(s, uid);
      NowIs(p.Over(s));
    }

    /** `register_finished_kernel`: a kernel that some stream has in progress, or zero. The id
        check of the source never fails. */
    method RegisterFinishedKernel(uid: nat) returns (r: bool)
      requires Valid() && (uid > 0 ==> uid in gridIdToStream)
      modifies `gridIdToStream, `running, streams, zero
      ensures Valid() && r == (uid > 0) && running == old(running) - {uid}
      ensures gridIdToStream == old(gridIdToStream) - {uid}
      ensures forall s :: s in All() ==> s.pushed == old(s.pushed)
      ensures Now() == old(Recorded(uid))
    {
      OnRecord(uid);
      hide *;
      if uid > 0 {
        var stream := gridIdToStream[uid];
        assert stream.operations[0] == Kernel(uid);
        EndKernel(stream, uid);
        return true;
      }
      return false;
    }

    /** The front operation of a stream that has one to start is taken. */
    method Take(s: Stream) returns (op: Operation)
      requires Valid() && s in All() && Now().CanStart(s) && (serviceStreamZero <==> s == zero)
      modifies s`pending, `gridIdToStream
      ensures Valid() && op == old(Now()).queues[s][0] && op != NoOp && Ready(op, s)
      ensures op.Kernel? ==> op.uid > 0 && op.uid !in old(gridIdToStream)
      ensures gridIdToStream == if op.Kernel? then old(gridIdToStream)[op.uid := s] else old(gridIdToStream)
      ensures Now() == old(Now()).Started(s)
    {
      hide Valid, Exclusive, Linked, Owned, Now;
      ghost var p := Now();
      assert Has(s, p);
      op := Start(s);
      NowIs(p.Started(s));
    }

    ghost predicate Ready(op: Operation, s: Stream)
      reads s
    {
      s.pending && s.operations != [] && op == s.operations[0]
    }

    /** `front`: while stream zero is being served, or once all others are empty, only its
        next operation may start; else that of the first other stream with work and nothing in
        progress. */
    method Front() returns (op: Operation, s: Stream)
      requires Valid()
      modifies `serviceStreamZero, `gridIdToStream, streams, zero
      ensures Valid() && s in All() && (op != NoOp ==> Ready(op, s))
      ensures forall t :: t in All() ==> t.pushed == old(t.pushed)
      ensures op.Kernel? ==> op.uid > 0 && op.uid !in old(gridIdToStream)
      ensures old(Now()).Chooses(op, s, old(serviceStreamZero), zero, streams)
      ensures Now() == if op == NoOp then old(Now()) else old(Now()).Started(s)
      ensures serviceStreamZero ==
        (old(Now()).ServesZero(old(serviceStreamZero), streams) && old(Now()).queues[zero] != [])
    {
      ghost var p := Now();
      hide *;
      op, s := NoOp, zero;
      var empty := ConcurrentStreamsEmpty();
      EmptyIs(p, serviceStreamZero);
      if empty {
        StartService();
      }
      if serviceStreamZero {
        op := FrontOfZero();
        ZeroChosen(p, op, old(serviceStreamZero));
      } else {
        op, s := FrontConcurrent();
        OtherChosen(p, op, s, old(serviceStreamZero));
      }
    }

    lemma EmptyIs(p: Progress, served: bool)
      requires p == Now()
      ensures p.ServesZero(served, streams) <==> served || forall t :: t in streams ==> t.operations == []
    {
      forall t | t in streams
        ensures t.operations == p.queues[t]
      {
        assert Has(t, p);
      }
    }

    lemma ZeroChosen(p: Progress, op: Operation, served: bool)
      requires p.Complete() && p.queues.Keys == All() && p.ServesZero(served, streams)
      requires if p.CanStart(zero) then op == p.queues[zero][0] && op != NoOp else op == NoOp
      ensures p.Chooses(op, zero, served, zero, streams)
    {
    }

    lemma OtherChosen(p: Progress, op: Operation, s: Stream, served: bool)
      requires p.Complete() && p.queues.Keys == All() && !p.ServesZero(served, streams)
      requires if op == NoOp then forall t :: t in streams ==> !p.CanStart(t)
        else p.CanStart(s) && op == p.queues[s][0] && p.IsFirst(s, streams)
      ensures p.Chooses(op, s, served, zero, streams)
    {
    }

    method StartService()
      requires Valid() && forall t :: t in streams ==> t.operations == []
      modifies `serviceStreamZero
      ensures Valid() && serviceStreamZero
    {
      NonePending();
      serviceStreamZero := true;
    }

    /** The branch of `front` for stream zero, which ends its service once it is empty. */
    method FrontOfZero() returns (op: Operation)
      requires Valid() && serviceStreamZero
      modifies `serviceStreamZero, `gridIdToStream, zero`pending
      ensures Valid() && serviceStreamZero == (old(Now()).queues[zero] != []) && (op != NoOp ==> Ready(op, zero))
      ensures op.Kernel? ==> op.uid > 0 && op.uid !in old(gridIdToStream)
      ensures if old(Now()).CanStart(zero) then op == old(Now()).queues[zero][0] && op != NoOp else op == NoOp
      ensures Now() == if op == NoOp then old(Now()) else old(Now()).Started(zero)
    {
      op := NoOp;
      assert Has(zero, Now());
      if zero.operations != [] {
        if !zero.pending {
          hide Valid, Exclusive, Linked, Owned, Now;
          op := Take(zero);
        }
      } else {
        assert zero in All() && zero.Valid();
        serviceStreamZero := false;
      }
    }

    lemma NonePending()
      requires Valid() && forall t :: t in streams ==> t.operations == []
      ensures forall t :: t in streams ==> !t.pending
    {
      assert forall t :: t in streams ==> t in All() && t.Valid();
    }

    /** The loop of `front` over the other streams. */
    method FrontConcurrent() returns (op: Operation, s: Stream)
      requires Valid() && !serviceStreamZero
      modifies `gridIdToStream, streams
      ensures Valid() && s in All() && (op != NoOp ==> Ready(op, s))
      ensures forall t :: t in All() ==> t.pushed == old(t.pushed)
      ensures op.Kernel? ==> op.uid > 0 && op.uid !in old(gridIdToStream)
      ensures if op == NoOp then forall t :: t in streams ==> !old(Now()).CanStart(t)
        else old(Now()).CanStart(s) && op == old(Now()).queues[s][0] && old(Now()).IsFirst(s, streams)
      ensures Now() == if op == NoOp then old(Now()) else old(Now()).Started(s)
    {
      hide Valid, Exclusive, Linked, Owned, Now;
      ghost var p := Now();
      var i := 0;
      while i < |streams|
        invariant 0 <= i <= |streams| && forall j :: 0 <= j < i ==> !p.CanStart(streams[j])
      {
        assert Has(streams[i], p);
        if !streams[i].pending && streams[i].operations != [] {
          s := streams[i];
          ZeroApart(s);
          op := Take(s);
          return;
        }
        i := i + 1;
      }
      op, s := NoOp, zero;
    }

    lemma ZeroApart(s: Stream)
      requires Valid() && s in streams
      ensures s != zero && s in All()
    {
    }

    /** `do_operation`: a kernel goes to the GPU and stays in progress, or, in functional mode,
        runs to its end here; all else is over at once. */
    method DoOperation(op: Operation, s: Stream, canStartKernel: bool, functional: bool)
      requires Valid() && (op != NoOp ==> s in All() && Ready(op, s))
      requires op.Kernel? ==> op.uid !in running && op.uid > 0
      modifies `gridIdToStream, `running, streams, zero
      ensures Valid()
      ensures running == if op.Kernel? && canStartKernel && !functional then old(running) + {op.uid} else old(running)
      ensures gridIdToStream == if op.Kernel? && canStartKernel && functional then old(gridIdToStream) - {op.uid}
        else old(gridIdToStream)
      ensures forall t :: t in All() ==> t.pushed == old(t.pushed)
      ensures Now() == if OverAtOnce(op, canStartKernel, functional) then old(Now()).Over(s) else old(Now())
    {
      assert op != NoOp ==> s.pending && s.operations != [] && op == s.operations[0];
      hide *;
      match op
      case NoOp =>
      case Kernel(uid) =>
        DoKernel(uid, s, canStartKernel, functional);
      case _ =>
        EndOther(s);
    }

    method DoKernel(uid: nat, s: Stream, canStartKernel: bool, functional: bool)
      requires Valid() && s in All() && Ready(Kernel(uid), s) && uid !in running && uid > 0
      modifies `gridIdToStream, `running, streams, zero
      ensures Valid()
      ensures running == if canStartKernel && !functional then old(running) + {uid} else old(running)
      ensures gridIdToStream == if canStartKernel && functional then old(gridIdToStream) - {uid}
        else old(gridIdToStream)
      ensures forall t :: t in All() ==> t.pushed == old(t.pushed)
      ensures Now() == if canStartKernel && functional then old(Now()).Over(s) else old(Now())
    {
      hide *;
      if canStartKernel {
        if functional {
          RunKernel(uid, s);
        } else {
          KernelOnRecord(s, uid);
          Launch(uid);
        }
      }
    }

    /** A kernel that is simulated functionally runs to its end. */
    method RunKernel(uid: nat, s: Stream)
      requires Valid() && s in All() && Ready(Kernel(uid), s) && uid !in running
      modifies `gridIdToStream, `running, streams, zero
      ensures Valid() && running == old(running) && gridIdToStream == old(gridIdToStream) - {uid}
      ensures forall t :: t in All() ==> t.pushed == old(t.pushed)
      ensures Now() == old(Now()).Over(s)
    {
      KernelOnRecord(s, uid);
      hide *;
      var r := RegisterFinishedKernel(uid);
    }

    /** A copy or an event that a stream has in progress is over. */
    method EndOther(s: Stream)
      requires Valid() && s in All() && s.pending && s.operations != [] && !s.operations[0].Kernel?
      modifies s
      ensures Valid() && s.pushed == old(s.pushed) && Now() == old(Now()).Over(s)
    {
      hide Valid, Exclusive, Linked, Owned, Now;
      ghost var p := Now();
      assert Has(s, p);
      FinishOther(s);
      NowIs(p.Over(s));
    }

    /** The GPU accepts a kernel. */
    ghost method Launch(uid: nat)
      requires Valid() && uid in gridIdToStream
      modifies `running
      ensures Valid() && running == old(running) + {uid}
    {
      running := running + {uid};
    }

    lemma KernelOnRecord(s: Stream, uid: nat)
      requires Valid() && s in All() && Ready(Kernel(uid), s)
      ensures uid in gridIdToStream && gridIdToStream[uid] == s && uid > 0 && Recorded(uid) == Now().Over(s)
    {
    }

    /** `operation`, one turn of the simulation thread: a kernel that has finished is recorded,
        then one operation is chosen and done. No queue loses or reorders anything: what has
        completed only grows, and with the queue it is still what was pushed. */
    method Operate(finished: nat, canStartKernel: bool, functional: bool)
      returns (check: bool, ghost op: Operation, ghost s: Stream)
      requires Valid() && (finished > 0 ==> finished in running)
      modifies this, streams, zero
      ensures Valid() && check == (finished > 0) && streams == old(streams)
      ensures forall s :: s in All() ==> s.pushed == old(s.pushed)
      ensures old(Recorded(finished)).Chooses(op, s, old(serviceStreamZero), zero, streams)
      ensures Now() == old(Recorded(finished)).Served(op, s, canStartKernel, functional)
      ensures running == old(running) - {finished} +
        (if op.Kernel? && canStartKernel && !functional then {op.uid} else {})
      ensures serviceStreamZero ==
        (old(Recorded(finished)).ServesZero(old(serviceStreamZero), streams) &&
         old(Recorded(finished)).queues[zero] != [])
    {
      hide *;
      RunningInProgress();
      check := RegisterFinishedKernel(finished);
      RunningInProgress();
      ghost var p := Now();
      var front, stream := Front();
      if front != NoOp {
        Chosen(p, front, stream, old(serviceStreamZero));
      }
      p.StartedThenOver(front, stream, canStartKernel, functional);
      DoOperation(front, stream, canStartKernel, functional);
      op, s := front, stream;
    }

    lemma Chosen(p: Progress, op: Operation, s: Stream, served: bool)
      requires p.Complete() && (forall t :: t in streams ==> t in p.queues) && zero in p.queues
      requires p.Chooses(op, s, served, zero, streams) && op != NoOp
      ensures p.CanStart(s)
    {
    }

    lemma RunningInProgress()
      requires Valid()
      ensures forall uid :: uid in running ==> uid in gridIdToStream
    {
    }
  }
}
