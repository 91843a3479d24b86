/** Whole runs of the miss path: in every reachable state no wakeup is lost, windows and
    pool agree, and every transaction can still complete. */
module MissRuns {
  import C = Cache
  import W = Window
  import opened Collections
  import opened MissPath
  import opened MissSafety

  // ---------------------------------------------------------------------------------
  // Runs

  /** The atomic steps; every interleaving of them is considered, which covers the order
      in which a simulated cycle takes them. */
  datatype Event =
    | Wait(cycles: nat)
    | Delay(core: nat)
    | Memory(core: nat, address: nat, isRead: bool, filtered: bool)
    | ExecuteReady(core: nat)
    | Commit(core: nat)
    | Simulate(id: int, room: bool)
    | Receive(core: nat)
    | Answer(core: nat, id: int)

  predicate Possible(s: System, e: Event) {
    match e
    case Wait(_) => true
    case Simulate(_, _) => true
    case _ => e.core < |s.cores|
  }

  ghost function Step(cfg: Config, s: System, e: Event): System
    requires Inv(cfg, s) && Possible(s, e)
  {
    match e
    case Wait(n) => s.(clock := s.clock + n)
    case Delay(c) => FetchDelay(s, c)
    case Memory(c, a, isRead, filtered) => FetchMemory(cfg, s, c, a, isRead, filtered)
    case ExecuteReady(c) => Execute(cfg, s, c)
    case Commit(c) => Retire(cfg, s, c)
    case Simulate(id, room) => Visit(cfg, s, id, room)
    case Receive(c) => DeliverKeeps(cfg, s, c); Deliver(s, c)
    case Answer(c, id) => TakeReply(s, c, id)
  }

  lemma StepKeeps(cfg: Config, s: System, e: Event)
    requires Inv(cfg, s) && Possible(s, e)
    ensures Inv(cfg, Step(cfg, s, e)) && |Step(cfg, s, e).cores| == |s.cores|
  {
    match e
    case Wait(n) => WaitKeeps(cfg, s, n);
    case Delay(c) => FetchDelayKeeps(cfg, s, c);
    case Memory(c, a, isRead, filtered) => FetchMemoryKeeps(cfg, s, c, a, isRead, filtered);
    case ExecuteReady(c) => ExecuteKeeps(cfg, s, c);
    case Commit(c) => RetireKeeps(cfg, s, c);
    case Simulate(id, room) => VisitKeeps(cfg, s, id, room);
    case Receive(c) => DeliverKeeps(cfg, s, c);
    case Answer(c, id) => TakeReplyKeeps(cfg, s, c, id);
  }

  lemma WaitKeeps(cfg: Config, s: System, n: nat)
    requires Inv(cfg, s)
    ensures Inv(cfg, s.(clock := s.clock + n))
  {
    hide EntryOk, CoreNetOk, CoreWindowOk;
    var r := s.(clock := s.clock + n);
    assert CachesOk(cfg, r) && PoolOk(r) && Queued(cfg, r);
    assert MshrOk(cfg, r);
  }

  /** The state after a run. A step of a core that does not exist is no step. */
  ghost function After(cfg: Config, s: System, es: seq<Event>): (r: System)
    requires Inv(cfg, s)
    ensures Inv(cfg, r) && |r.cores| == |s.cores|
    decreases |es|
  {
    if es == [] then s
    else if !Possible(s, es[0]) then After(cfg, s, es[1..])
    else
      StepKeeps(cfg, s, es[0]);
      After(cfg, Step(cfg, s, es[0]), es[1..])
  }

  lemma {:induction false} AfterAppend(cfg: Config, s: System, es: seq<Event>, fs: seq<Event>)
    requires Inv(cfg, s)
    ensures After(cfg, s, es + fs) == After(cfg, After(cfg, s, es), fs)
    decreases |es|
  {
    if es == [] {
      assert es + fs == fs;
    } else {
      assert (es + fs)[0] == es[0] && (es + fs)[1..] == es[1..] + fs;
      if Possible(s, es[0]) {
        StepKeeps(cfg, s, es[0]);
        AfterAppend(cfg, Step(cfg, s, es[0]), es[1..], fs);
      } else {
        AfterAppend(cfg, s, es[1..], fs);
      }
    }
  }

  /** The simulator before its first cycle. */
  ghost predicate Initial(cfg: Config, s: System) {
    && s.pool == map[] && s.nextId == 0
    && forall c :: 0 <= c < |s.cores| ==>
      && s.cores[c].window == [] && s.cores[c].mshr == map[] && s.cores[c].net == {} && s.cores[c].fifo == []
      && C.Valid(cfg.flc, s.cores[c].flc) && C.Valid(cfg.mlc, s.cores[c].mlc)
  }

  lemma InitialOk(cfg: Config, s: System)
    requires Initial(cfg, s)
    ensures Inv(cfg, s)
  {
    forall c | 0 <= c < |s.cores|
      ensures CoreNetOk(s.pool, c, s.cores[c].net, s.cores[c].fifo)
      ensures CoreWindowOk(s.pool, s.nextId, c, s.cores[c].window)
    {
    }
  }

  ghost predicate Reachable(cfg: Config, s: System) {
    exists i, es :: Initial(cfg, i) && s == AfterInitial(cfg, i, es)
  }

  ghost function AfterInitial(cfg: Config, i: System, es: seq<Event>): (s: System)
    requires Initial(cfg, i)
    ensures Inv(cfg, s)
  {
    InitialOk(cfg, i);
    After(cfg, i, es)
  }

  lemma ReachableOk(cfg: Config, s: System)
    requires Reachable(cfg, s)
    ensures Inv(cfg, s)
  {
  }

  // ---------------------------------------------------------------------------------
  // No lost wakeup

  /** A transaction that waits in an MSHR entry is in exactly one place of exactly one entry
      of any core, behind a leader whose request is with the network, in the response queue,
      or just back; and its line is not in the MLC. */
  lemma NoLostWakeup(cfg: Config, s: System, id: int)
    requires Reachable(cfg, s) && id in s.pool && s.pool[id].state.MshrPending?
    ensures s.pool[id].cpu < |s.cores|
    ensures var b, ln := s.pool[id].cpu, LineOf(cfg, s.pool[id].address);
      var core := s.cores[b];
      && ln in core.mshr && id in core.mshr[ln] && core.mshr[ln][0] != id && Distinct(core.mshr[ln])
      && (forall c, n :: 0 <= c < |s.cores| && n in s.cores[c].mshr && id in s.cores[c].mshr[n] ==> c == b && n == ln)
      && (var leader := core.mshr[ln][0];
          leader in s.pool && (leader in core.net || leader in core.fifo || s.pool[leader].state.LlcToCore?))
      && C.Shape(cfg.mlc, core.mlc) && C.Lookup(cfg.mlc, core.mlc, s.pool[id].address) == C.Invalid
  {
    ReachableOk(cfg, s);
    var b, ln := s.pool[id].cpu, LineOf(cfg, s.pool[id].address);
    var core := s.cores[b];
    assert EntryOk(cfg, s.pool, b, ln, core.mshr[ln]) && Absent(cfg, core, ln);
    assert CoreNetOk(s.pool, b, core.net, core.fifo);
    forall c, n | 0 <= c < |s.cores| && n in s.cores[c].mshr && id in s.cores[c].mshr[n] ensures c == b && n == ln {
      assert EntryOk(cfg, s.pool, c, n, s.cores[c].mshr[n]);
    }
  }

  /** From `s` to `r` exactly the transactions of the MSHR entry that `id` leads may leave, from
      the next cycle on, and `id` itself now if the line was not in the FLC; the entry is gone,
      and the line is in both caches. */
  ghost predicate Released(cfg: Config, s: System, r: System, id: int) {
    && id in s.pool && s.pool[id].cpu < |s.cores| && |r.cores| == |s.cores| && r.pool.Keys == s.pool.Keys
    && var b, a, ln := s.pool[id].cpu, s.pool[id].address, LineOf(cfg, s.pool[id].address);
    && var core, core' := s.cores[b], r.cores[b];
    && C.Shape(cfg.flc, core.flc) && C.Shape(cfg.mlc, core.mlc) && C.Shape(cfg.flc, core'.flc)
    && ln in core.mshr && core.mshr[ln] != [] && core.mshr[ln][0] == id
    && (forall i :: i in core.mshr[ln] && i != id ==> i in s.pool && r.pool[i] == Freed(s.pool[i], s.clock + 1))
    && r.pool[id] == Freed(s.pool[id], if C.Lookup(cfg.flc, core.flc, a) == C.Invalid then s.clock else s.clock + 1)
    && (forall i :: i in s.pool && i !in core.mshr[ln] ==> r.pool[i] == s.pool[i])
    && C.Lookup(cfg.flc, core'.flc, a) ==
       (if C.Lookup(cfg.flc, core.flc, a) == C.Invalid then C.Exclusive else C.Lookup(cfg.flc, core.flc, a))
    && C.Admits(cfg.flc, core.flc, core'.flc, a, C.Exclusive)
    && C.Lookup(cfg.mlc, core.mlc, a) == C.Invalid && C.Admits(cfg.mlc, core.mlc, core'.mlc, a, C.Exclusive)
    && core' == core.(mshr := core.mshr - {ln}, flc := core'.flc, mlc := core'.mlc)
    && (forall c :: 0 <= c < |s.cores| && c != b ==> r.cores[c] == s.cores[c])
    && r.clock == s.clock && r.nextId == s.nextId
  }

  /** The transaction may leave from then on. */
  function Freed(tr: Tr, time: int): Tr {
    tr.(state := Exit, timestamp := time)
  }

  /** A reply that is due brings the line into both caches, removes its MSHR entry, and lets go
      exactly the transactions of that entry. */
  lemma ReplyWakesAll(cfg: Config, s: System, id: int, room: bool)
    requires Inv(cfg, s) && Due(s, id) && s.pool[id].state.LlcToCore?
    ensures Released(cfg, s, Visit(cfg, s, id, room), id)
  {
    var b, a, r := s.pool[id].cpu, s.pool[id].address, VisitReply(cfg, s, id);
    assert Visit(cfg, s, id, room) == r;
    ReplyMissesMlc(cfg, s, id);
    EntryRanks(cfg, s, id);
    EntryLed(cfg, s, id);
    FillIs(cfg, s, id);
    FlcPart(cfg, s, id);
    assert C.Valid(cfg.flc, s.cores[b].flc) && C.Valid(cfg.mlc, s.cores[b].mlc);
    hide *;
    C.FillAdmits(cfg.mlc, s.cores[b].mlc, a, C.Exclusive);
    FlcAdmits(cfg, s.cores[b].flc, a);
    ReleasedBy(cfg, s, FilledMlc(cfg, s, id), r, id);
  }

  lemma EntryLed(cfg: Config, s: System, id: int)
    requires Inv(cfg, s) && id in s.pool && s.pool[id].state.LlcToCore?
    ensures var mshr, ln := s.cores[s.pool[id].cpu].mshr, LineOf(cfg, s.pool[id].address);
      ln in mshr && mshr[ln] != [] && mshr[ln][0] == id
  {
    var b, ln := s.pool[id].cpu, LineOf(cfg, s.pool[id].address);
    assert EntryOk(cfg, s.pool, b, ln, s.cores[b].mshr[ln]);
  }

  /** What the FLC is after the reply. */
  ghost function FlcAfter(cfg: Config, flc: C.State, a: nat): C.State
    requires C.Valid(cfg.flc, flc)
  {
    if C.Lookup(cfg.flc, flc, a) == C.Invalid then C.Fill(cfg.flc, flc, a, C.Exclusive) else flc
  }

  lemma FlcAdmits(cfg: Config, flc: C.State, a: nat)
    requires C.Valid(cfg.flc, flc)
    ensures C.Admits(cfg.flc, flc, FlcAfter(cfg, flc, a), a, C.Exclusive)
    ensures C.Lookup(cfg.flc, FlcAfter(cfg, flc, a), a) ==
      if C.Lookup(cfg.flc, flc, a) == C.Invalid then C.Exclusive else C.Lookup(cfg.flc, flc, a)
  {
    assert C.Shape(cfg.flc, flc);
    hide C.Valid, C.Lookup, C.Fill, C.LineOf, C.Shape;
    if C.Lookup(cfg.flc, flc, a) == C.Invalid {
      C.FillAdmits(cfg.flc, flc, a, C.Exclusive);
    }
  }

  /** From `m` to `r` the FLC of the transaction's core has been dealt with. */
  ghost predicate FlcAdded(cfg: Config, s: System, m: System, r: System, id: int) {
    && id in s.pool && id in m.pool && s.pool[id].cpu < |s.cores| == |m.cores|
    && C.Valid(cfg.flc, s.cores[s.pool[id].cpu].flc)
    && var b, flc, a := s.pool[id].cpu, s.cores[s.pool[id].cpu].flc, s.pool[id].address;
    && r == m.(
         pool := if C.Lookup(cfg.flc, flc, a) == C.Invalid then m.pool[id := Freed(m.pool[id], s.clock)] else m.pool,
         cores := m.cores[b := m.cores[b].(flc := FlcAfter(cfg, flc, a))])
  }

  lemma FlcPart(cfg: Config, s: System, id: int)
    requires id in s.pool && s.pool[id].cpu < |s.cores| && CachesOk(cfg, s)
    requires C.Lookup(cfg.mlc, s.cores[s.pool[id].cpu].mlc, s.pool[id].address) == C.Invalid
    ensures FlcAdded(cfg, s, FilledMlc(cfg, s, id), VisitReply(cfg, s, id), id)
  {
    hide C.Lookup, C.Fill, LineOf, C.Valid;
    var b, m := s.pool[id].cpu, FilledMlc(cfg, s, id);
    assert id in m.pool && m.pool[id].cpu == b && m.pool[id].address == s.pool[id].address;
    assert m.cores == s.cores[b := m.cores[b]] && m.cores[b].flc == s.cores[b].flc && m.clock == s.clock;
    assert m.cores[b := m.cores[b].(flc := s.cores[b].flc)] == m.cores;
  }

  lemma ReleasedBy(cfg: Config, s: System, m: System, r: System, id: int)
    requires CachesOk(cfg, s) && MlcFilled(cfg, s, m, id) && FlcAdded(cfg, s, m, r, id)
    requires var b, ln := s.pool[id].cpu, LineOf(cfg, s.pool[id].address);
      && s.cores[b].mshr[ln] != [] && s.cores[b].mshr[ln][0] == id
      && forall i :: i in s.cores[b].mshr[ln] ==> i in s.pool
    requires var core, a := s.cores[s.pool[id].cpu], s.pool[id].address;
      && C.Lookup(cfg.mlc, core.mlc, a) == C.Invalid
      && C.Admits(cfg.mlc, core.mlc, C.Fill(cfg.mlc, core.mlc, a, C.Exclusive), a, C.Exclusive)
      && C.Admits(cfg.flc, core.flc, FlcAfter(cfg, core.flc, a), a, C.Exclusive)
      && C.Lookup(cfg.flc, FlcAfter(cfg, core.flc, a), a) ==
         if C.Lookup(cfg.flc, core.flc, a) == C.Invalid then C.Exclusive else C.Lookup(cfg.flc, core.flc, a)
    ensures Released(cfg, s, r, id)
  {
    hide LineOf, C.Lookup, C.Fill, FlcAfter;
  }

  // ---------------------------------------------------------------------------------
  // Windows and pool

  ghost function PooledFor(s: System, c: nat): set<int> {
    set id | id in s.pool && s.pool[id].cpu == c
  }

  ghost function WaitingIds(q: seq<W.Entry>): set<int> {
    set k | 0 <= k < |q| && W.Waiting(q[k]) :: q[k].trId
  }

  lemma {:induction false} WaitingIdsCount(q: seq<W.Entry>)
    requires forall j, k :: 0 <= j < k < |q| && W.Waiting(q[j]) && W.Waiting(q[k]) ==> q[j].trId != q[k].trId
    ensures |WaitingIds(q)| == W.CountUnready(q)
  {
    if q == [] {
    } else {
      var rest := q[1..];
      WaitingIdsCount(rest);
      if W.Waiting(q[0]) {
        assert q[0].trId !in WaitingIds(rest);
        assert WaitingIds(q) == {q[0].trId} + WaitingIds(rest) by {
          WaitingIdsSplit(q);
        }
      } else {
        WaitingIdsSplit(q);
      }
    }
  }

  lemma WaitingIdsSplit(q: seq<W.Entry>)
    requires q != []
    ensures WaitingIds(q) == (if W.Waiting(q[0]) then {q[0].trId} else {}) + WaitingIds(q[1..])
  {
    var a, b := WaitingIds(q), (if W.Waiting(q[0]) then {q[0].trId} else {}) + WaitingIds(q[1..]);
    forall i | i in a ensures i in b {
      var k :| 0 <= k < |q| && W.Waiting(q[k]) && q[k].trId == i;
      assert k > 0 ==> q[1..][k - 1] == q[k];
    }
    forall i | i in b ensures i in a {
      if i in WaitingIds(q[1..]) {
        var k :| 0 <= k < |q[1..]| && W.Waiting(q[1..][k]) && q[1..][k].trId == i;
        assert q[k + 1] == q[1..][k];
      }
    }
  }

  /** The pooled transactions of a core are exactly those its window waits for, with the
      same addresses; so `num_unfinished_mem_entrys`, which counts the waiting entries, is
      their number. */
  lemma WindowMatchesPool(cfg: Config, s: System, c: nat)
    requires Reachable(cfg, s) && c < |s.cores|
    ensures PooledFor(s, c) == WaitingIds(s.cores[c].window)
    ensures |PooledFor(s, c)| == W.CountUnready(s.cores[c].window)
    ensures forall k :: 0 <= k < |s.cores[c].window| && W.Waiting(s.cores[c].window[k]) ==>
      Pooled(s.pool, c, s.cores[c].window[k])
  {
    ReachableOk(cfg, s);
    var q := s.cores[c].window;
    assert CoreWindowOk(s.pool, s.nextId, c, q);
    forall id | id in PooledFor(s, c) ensures id in WaitingIds(q) {
      assert HasEntry(q, id, s.pool[id].address);
    }
    forall j, k | 0 <= j < k < |q| && W.Waiting(q[j]) && W.Waiting(q[k]) ensures q[j].trId != q[k].trId {
      assert Pooled(s.pool, c, q[j]);
    }
    forall k | 0 <= k < |q| && W.Waiting(q[k]) ensures q[k].trId in PooledFor(s, c) {
      assert Pooled(s.pool, c, q[k]);
    }
    WaitingIdsCount(q);
  }

  /** When a transaction leaves, the assertion that it is present in its window holds, the
      entry found is the only one with its id, and it becomes ready: that and the removal
      from the pool are all that changes. */
  lemma ExitCompletes(cfg: Config, s: System, id: int, room: bool)
    requires Reachable(cfg, s) && Due(s, id) && s.pool[id].state.Exit? && s.pool[id].cpu < |s.cores|
    ensures var c := s.pool[id].cpu;
      var q := s.cores[c].window;
      var k := EntryOf(q, s.pool[id].address, id);
      && k < |q| && W.Waiting(q[k]) && (forall j :: 0 <= j < |q| && q[j].trId == id ==> j == k)
      && CachesOk(cfg, s)
      && Visit(cfg, s, id, room) ==
         s.(pool := s.pool - {id}, cores := s.cores[c := s.cores[c].(window := W.MadeReady(q, k, s.clock))])
  {
    ReachableOk(cfg, s);
    ExitFindsEntry(cfg, s, id);
  }

  // ---------------------------------------------------------------------------------
  // Progress

  /** How far a transaction still is from leaving the pool. */
  function Rank(tr: Tr): nat {
    match tr.state
    case Start => 5
    case CoreToLlc => if tr.timestamp == BLOCKED then 3 else 4
    case MshrPending => 3
    case LlcToCore => 2
    case Exit => 1
  }

  ghost function Member<T>(s: set<T>): (x: T)
    requires s != {}
    ensures x in s
  {
    var x :| x in s;
    x
  }

  ghost function Work(pool: map<int, Tr>): nat
    decreases |pool|
  {
    if pool.Keys == {} then 0
    else
      var id := Member(pool.Keys);
      assert |pool - {id}| < |pool| by {
        SmallerMap(pool, id);
      }
      Rank(pool[id]) + Work(pool - {id})
  }

  lemma SomeId(pool: map<int, Tr>) returns (id: int)
    requires pool != map[]
    ensures id in pool
  {
    assert pool.Keys == {} ==> pool == map[];
    id := Member(pool.Keys);
  }

  lemma SmallerMap(pool: map<int, Tr>, id: int)
    requires id in pool
    ensures |pool - {id}| == |pool| - 1
  {
    var rest := pool - {id};
    assert rest.Keys == pool.Keys - {id};
    assert |rest.Keys| == |pool.Keys| - 1;
  }

  lemma {:induction false} WorkWithout(pool: map<int, Tr>, id: int)
    requires id in pool
    ensures Work(pool) == Rank(pool[id]) + Work(pool - {id})
    decreases |pool|
  {
    var first := Member(pool.Keys);
    if first != id {
      SmallerMap(pool, first);
      SmallerMap(pool, id);
      WorkWithout(pool - {first}, id);
      WorkWithout(pool - {id}, first);
      assert pool - {first} - {id} == pool - {id} - {first};
    }
  }

  /** Work never grows when no transaction is added and no rank rises. */
  lemma {:induction false} WorkMonotonic(p: map<int, Tr>, q: map<int, Tr>)
    requires q.Keys <= p.Keys && forall i :: i in q ==> Rank(q[i]) <= Rank(p[i])
    ensures Work(q) <= Work(p)
    decreases |p|
  {
    if p.Keys != {} {
      var id := Member(p.Keys);
      SmallerMap(p, id);
      WorkWithout(p, id);
      if id in q {
        WorkWithout(q, id);
        WorkMonotonic(p - {id}, q - {id});
      } else {
        assert q - {id} == q;
        WorkMonotonic(p - {id}, q);
      }
    } else {
      assert q.Keys == {};
    }
  }

  lemma WorkDrops(p: map<int, Tr>, q: map<int, Tr>, id: int)
    requires q.Keys <= p.Keys && forall i :: i in q ==> Rank(q[i]) <= Rank(p[i])
    requires id in p && (id in q ==> Rank(q[id]) < Rank(p[id]))
    ensures Work(q) < Work(p)
  {
    WorkWithout(p, id);
    if id in q {
      WorkWithout(q, id);
      WorkMonotonic(p - {id}, q - {id});
    } else {
      assert q - {id} == q;
      WorkMonotonic(p - {id}, q);
    }
  }

  /** Visiting a transaction that is due brings it strictly closer to leaving, unless it
      misses and the network has no room; no other transaction is moved back. */
  lemma VisitLowersRank(cfg: Config, s: System, id: int, room: bool)
    requires Inv(cfg, s) && Due(s, id)
    requires
      || room || s.pool[id].state != CoreToLlc
      || C.Lookup(cfg.mlc, s.cores[s.pool[id].cpu].mlc, s.pool[id].address) != C.Invalid
    ensures var q := Visit(cfg, s, id, room).pool;
      && q.Keys <= s.pool.Keys && (id in q ==> Rank(q[id]) < Rank(s.pool[id]))
      && forall i :: i in q ==> Rank(q[i]) <= Rank(s.pool[i])
    ensures Work(Visit(cfg, s, id, room).pool) < Work(s.pool)
  {
    hide MshrOk, Queued, NetOk, WindowOk, CachesOk, C.Lookup, VisitRequest, VisitReply, VisitExit, Work;
    var q := Visit(cfg, s, id, room).pool;
    match s.pool[id].state {
      case LlcToCore =>
        ReplyWakesAll(cfg, s, id, room);
        EntryRanks(cfg, s, id);
      case CoreToLlc =>
        RequestLowersRank(cfg, s, id, room);
      case Exit =>
        ExitFindsEntry(cfg, s, id);
        assert q == s.pool - {id} by {
          ExitKeeps(cfg, s, id);
          ExitRemoves(s, id);
        }
      case Start =>
    }
    WorkDrops(s.pool, q, id);
  }

  lemma ExitRemoves(s: System, id: int)
    requires id in s.pool && s.pool[id].cpu < |s.cores| && id !in VisitExit(s, id).pool
    ensures VisitExit(s, id).pool == s.pool - {id}
  {
  }

  lemma RequestLowersRank(cfg: Config, s: System, id: int, room: bool)
    requires Inv(cfg, s) && Due(s, id) && s.pool[id].state.CoreToLlc?
    requires room || C.Lookup(cfg.mlc, s.cores[s.pool[id].cpu].mlc, s.pool[id].address) != C.Invalid
    ensures C.Shape(cfg.mlc, s.cores[s.pool[id].cpu].mlc)
    ensures var q := VisitRequest(cfg, s, id, room).pool;
      q.Keys == s.pool.Keys && Rank(q[id]) < Rank(s.pool[id]) && forall i :: i in q && i != id ==> q[i] == s.pool[i]
  {
    hide MshrOk, Queued, NetOk, WindowOk, C.Lookup;
  }

  lemma EntryRanks(cfg: Config, s: System, id: int)
    requires Inv(cfg, s) && id in s.pool && s.pool[id].state.LlcToCore?
    ensures var ids := s.cores[s.pool[id].cpu].mshr[LineOf(cfg, s.pool[id].address)];
      id in ids && forall i :: i in ids ==> i in s.pool && Rank(s.pool[i]) >= 2
  {
    ReplyMissesMlc(cfg, s, id);
    var c, ln := s.pool[id].cpu, LineOf(cfg, s.pool[id].address);
    var ids := s.cores[c].mshr[ln];
    assert EntryOk(cfg, s.pool, c, ln, ids);
    EntryPlaces(cfg, s.pool, c, ln, ids);
    hide Inv, LineOf, EntryOk;
  }

  /** A reply that reaches its transaction brings it closer to leaving. */
  lemma ReceiveLowersWork(cfg: Config, s: System, c: nat)
    requires Inv(cfg, s) && c < |s.cores| && s.cores[c].fifo != []
    ensures s.cores[c].fifo[0] in s.pool && Work(Deliver(s, c).pool) < Work(s.pool)
  {
    var id := s.cores[c].fifo[0];
    assert CoreNetOk(s.pool, c, s.cores[c].net, s.cores[c].fifo) && id in s.cores[c].fifo;
    assert id in s.pool && InFlight(s.pool[id]);
    hide *;
    DeliveredPool(s, c);
    WorkDrops(s.pool, Deliver(s, c).pool, id);
  }

  lemma DeliveredPool(s: System, c: nat)
    requires c < |s.cores| && s.cores[c].fifo != [] && s.cores[c].fifo[0] in s.pool
    requires InFlight(s.pool[s.cores[c].fifo[0]])
    ensures var p, q, id := s.pool, Deliver(s, c).pool, s.cores[c].fifo[0];
      q.Keys == p.Keys && Rank(q[id]) < Rank(p[id]) && forall i :: i in q ==> Rank(q[i]) <= Rank(p[i])
  {
  }

  /** A pool that is not empty is never stuck: some transaction will be due in time, or the
      network owes some core a reply, or a core has one it has not looked at. */
  lemma NeverStuck(cfg: Config, s: System)
    requires Inv(cfg, s) && s.pool != map[]
    ensures (exists id :: id in s.pool && s.pool[id].timestamp != BLOCKED) ||
            (exists c :: 0 <= c < |s.cores| && (s.cores[c].net != {} || s.cores[c].fifo != []))
  {
    var id := SomeId(s.pool);
    var b := s.pool[id].cpu;
    var core, ln := s.cores[b], LineOf(cfg, s.pool[id].address);
    assert CoreNetOk(s.pool, b, core.net, core.fifo);
    if s.pool[id].state.MshrPending? {
      assert EntryOk(cfg, s.pool, b, ln, core.mshr[ln]);
      var leader := core.mshr[ln][0];
      assert Leading(s.pool[leader]) && s.pool[leader].cpu == b;
      assert s.pool[leader].timestamp != BLOCKED || leader in core.net || leader in core.fifo;
    }
  }

  /** From every state of every run there is a way on that empties the pool: no transaction
      is ever waiting for something that cannot happen. */
  lemma CanDrain(cfg: Config, s: System) returns (es: seq<Event>)
    requires Inv(cfg, s)
    ensures After(cfg, s, es).pool == map[]
    decreases Work(s.pool)
  {
    if s.pool == map[] {
      return [];
    }
    NeverStuck(cfg, s);
    var first, r := AdvanceOne(cfg, s);
    var rest := CanDrain(cfg, r);
    AfterAppend(cfg, s, first, rest);
    return first + rest;
  }

  /** Some steps that lower the work to be done. */
  lemma AdvanceOne(cfg: Config, s: System) returns (es: seq<Event>, r: System)
    requires Inv(cfg, s) && s.pool != map[]
    ensures Inv(cfg, r) && r == After(cfg, s, es) && Work(r.pool) < Work(s.pool)
  {
    hide Inv;
    NeverStuck(cfg, s);
    if id :| id in s.pool && s.pool[id].timestamp != BLOCKED {
      es, r := AdvanceDue(cfg, s, id);
    } else {
      var c :| 0 <= c < |s.cores| && (s.cores[c].net != {} || s.cores[c].fifo != []);
      es, r := AdvanceReply(cfg, s, c);
    }
  }

  lemma AdvanceDue(cfg: Config, s: System, id: int) returns (es: seq<Event>, r: System)
    requires Inv(cfg, s) && id in s.pool && s.pool[id].timestamp != BLOCKED
    ensures Inv(cfg, r) && r == After(cfg, s, es) && Work(r.pool) < Work(s.pool)
  {
    hide Inv, Visit, Work;
    var n := if s.pool[id].timestamp <= s.clock then 0 else s.pool[id].timestamp - s.clock;
    var e, f := Wait(n), Simulate(id, true);
    StepKeeps(cfg, s, e);
    var s1 := Step(cfg, s, e);
    StepKeeps(cfg, s1, f);
    VisitLowersRank(cfg, s1, id, true);
    es, r := [e, f], Step(cfg, s1, f);
    TwoSteps(cfg, s, e, f);
  }

  lemma AdvanceReply(cfg: Config, s: System, c: nat) returns (es: seq<Event>, r: System)
    requires Inv(cfg, s) && c < |s.cores| && (s.cores[c].net != {} || s.cores[c].fifo != [])
    ensures Inv(cfg, r) && r == After(cfg, s, es) && Work(r.pool) < Work(s.pool)
  {
    hide Inv, Work;
    var e := Wait(0);
    if s.cores[c].fifo == [] {
      var id := Member(s.cores[c].net);
      e := Answer(c, id);
    }
    StepKeeps(cfg, s, e);
    var s1 := Step(cfg, s, e);
    var f := Receive(c);
    StepKeeps(cfg, s1, f);
    ReceiveLowersWork(cfg, s1, c);
    es, r := [e, f], Step(cfg, s1, f);
    TwoSteps(cfg, s, e, f);
  }

  lemma TwoSteps(cfg: Config, s: System, e: Event, f: Event)
    requires Inv(cfg, s) && Possible(s, e) && Inv(cfg, Step(cfg, s, e)) && Possible(Step(cfg, s, e), f)
    ensures After(cfg, s, [e, f]) == Step(cfg, Step(cfg, s, e), f)
  {
    var r := Step(cfg, s, e);
    assert [e, f][1..] == [f];
    assert [f][1..] == [];
    StepKeeps(cfg, r, f);
    assert After(cfg, s, [e, f]) == After(cfg, r, [f]);
    assert After(cfg, r, [f]) == After(cfg, Step(cfg, r, f), []);
  }

  // ---------------------------------------------------------------------------------
  // Every fair schedule

  /** The step serves a transaction: a visit when it is due, which the network does not refuse,
      or a reply that is taken from the queue. */
  ghost predicate Serves(cfg: Config, s: System, e: Event)
    requires Inv(cfg, s)
  {
    match e
    case Simulate(id, room) =>
      && Due(s, id)
      && (|| room || s.pool[id].state != CoreToLlc
          || C.Lookup(cfg.mlc, s.cores[s.pool[id].cpu].mlc, s.pool[id].address) != C.Invalid)
    case Receive(c) => c < |s.cores| && s.cores[c].fifo != []
    case _ => false
  }

  /** No step but the fetch of a memory instruction adds work, and a step that serves lowers it. */
  lemma WorkFalls(cfg: Config, s: System, e: Event)
    requires Inv(cfg, s) && Possible(s, e) && !e.Memory?
    ensures Work(Step(cfg, s, e).pool) <= Work(s.pool)
    ensures Serves(cfg, s, e) ==> Work(Step(cfg, s, e).pool) < Work(s.pool)
  {
    hide Inv, Work, Visit;
    match e {
      case Simulate(id, room) =>
        if Serves(cfg, s, e) {
          VisitLowersRank(cfg, s, id, room);
        } else {
          NotServed(cfg, s, id, room);
        }
      case Receive(c) =>
        if s.cores[c].fifo != [] {
          ReceiveLowersWork(cfg, s, c);
        }
      case _ =>
    }
  }

  lemma NotServed(cfg: Config, s: System, id: int, room: bool)
    requires Inv(cfg, s) && !Serves(cfg, s, Simulate(id, room))
    ensures Visit(cfg, s, id, room) == s
  {
    hide MshrOk, Queued, NetOk, WindowOk, C.Lookup;
  }

  ghost predicate NoFetch(es: seq<Event>) {
    forall k :: 0 <= k < |es| ==> !es[k].Memory?
  }

  /** How many of the steps serve a transaction. */
  ghost function Served(cfg: Config, s: System, es: seq<Event>): nat
    requires Inv(cfg, s)
    decreases |es|
  {
    if es == [] then 0
    else if !Possible(s, es[0]) then Served(cfg, s, es[1..])
    else
      StepKeeps(cfg, s, es[0]);
      (if Serves(cfg, s, es[0]) then 1 else 0) + Served(cfg, Step(cfg, s, es[0]), es[1..])
  }

  /** However long a run without fetches is, only so many of its steps serve a transaction: at
      most five for each one in the pool. */
  lemma {:induction false} ServedBound(cfg: Config, s: System, es: seq<Event>)
    requires Inv(cfg, s) && NoFetch(es)
    ensures Served(cfg, s, es) + Work(After(cfg, s, es).pool) <= Work(s.pool) <= 5 * |s.pool|
    decreases |es|
  {
    hide Inv, Work, Step, Serves, Possible;
    WorkBound(s.pool);
    if es == [] {
    } else {
      if Possible(s, es[0]) {
        StepKeeps(cfg, s, es[0]);
        WorkFalls(cfg, s, es[0]);
        ServedBound(cfg, Step(cfg, s, es[0]), es[1..]);
      } else {
        ServedBound(cfg, s, es[1..]);
      }
    }
  }

  lemma {:induction false} WorkBound(pool: map<int, Tr>)
    ensures Work(pool) <= 5 * |pool|
    decreases |pool|
  {
    if pool.Keys == {} {
    } else {
      var id := Member(pool.Keys);
      SmallerMap(pool, id);
      WorkBound(pool - {id});
    }
  }

  /** At some point the transaction is visited when it is due, and the network does not refuse it. */
  ghost predicate Visited(cfg: Config, s: System, es: seq<Event>, id: int)
    requires Inv(cfg, s)
  {
    exists k :: 0 <= k < |es| && es[k].Simulate? && es[k].id == id && Serves(cfg, After(cfg, s, es[..k]), es[k])
  }

  /** At some point the core takes a reply from its queue. */
  ghost predicate Heard(cfg: Config, s: System, es: seq<Event>, c: nat)
    requires Inv(cfg, s) && c < |s.cores|
  {
    exists k :: 0 <= k < |es| && es[k] == Receive(c) && After(cfg, s, es[..k]).cores[c].fifo != []
  }

  /** No memory instruction is fetched; every transaction with a time gets its visit; every core
      the network owes a reply, or that has one queued, gets to one. */
  ghost predicate Fair(cfg: Config, s: System, es: seq<Event>)
    requires Inv(cfg, s)
  {
    && NoFetch(es)
    && (forall id :: id in s.pool && s.pool[id].timestamp != BLOCKED ==> Visited(cfg, s, es, id))
    && (forall c :: 0 <= c < |s.cores| && (s.cores[c].net != {} || s.cores[c].fifo != []) ==> Heard(cfg, s, es, c))
  }

  lemma {:induction false} ServedAt(cfg: Config, s: System, es: seq<Event>, k: nat)
    requires Inv(cfg, s) && k < |es| && Possible(After(cfg, s, es[..k]), es[k])
    requires Serves(cfg, After(cfg, s, es[..k]), es[k])
    ensures Served(cfg, s, es) > 0
    decreases |es|
  {
    hide Inv, Step, Serves, Possible;
    if k > 0 {
      assert es[..k][1..] == es[1..][..k - 1] && es[..k][0] == es[0] && es[1..][k - 1] == es[k];
      if Possible(s, es[0]) {
        StepKeeps(cfg, s, es[0]);
        ServedAt(cfg, Step(cfg, s, es[0]), es[1..], k - 1);
      } else {
        ServedAt(cfg, s, es[1..], k - 1);
      }
    } else {
      assert es[..k] == [];
    }
  }

  /** A fair stretch of a run serves some transaction, whatever else it does. */
  lemma FairServes(cfg: Config, s: System, es: seq<Event>)
    requires Inv(cfg, s) && s.pool != map[] && Fair(cfg, s, es)
    ensures Served(cfg, s, es) > 0
  {
    hide Inv, After;
    NeverStuck(cfg, s);
    if id :| id in s.pool && s.pool[id].timestamp != BLOCKED {
      assert Visited(cfg, s, es, id);
      var k :| 0 <= k < |es| && es[k].Simulate? && es[k].id == id && Serves(cfg, After(cfg, s, es[..k]), es[k]);
      ServedAt(cfg, s, es, k);
    } else {
      var c :| 0 <= c < |s.cores| && (s.cores[c].net != {} || s.cores[c].fifo != []);
      assert Heard(cfg, s, es, c);
      var k :| 0 <= k < |es| && es[k] == Receive(c) && After(cfg, s, es[..k]).cores[c].fifo != [];
      ServedAt(cfg, s, es, k);
    }
  }

  /** The state after some stretches of a run, each fair from where it starts. */
  ghost predicate FairRun(cfg: Config, s: System, rounds: seq<seq<Event>>, r: System)
    requires Inv(cfg, s)
    decreases |rounds|
  {
    if rounds == [] then r == s
    else Fair(cfg, s, rounds[0]) && FairRun(cfg, After(cfg, s, rounds[0]), rounds[1..], r)
  }

  /** Every fair schedule empties the pool, within five rounds for each transaction. */
  lemma {:induction false} FairDrains(cfg: Config, s: System, rounds: seq<seq<Event>>, r: System)
    requires Inv(cfg, s) && FairRun(cfg, s, rounds, r) && |rounds| >= Work(s.pool)
    ensures r.pool == map[]
    decreases |rounds|
  {
    hide Inv, Work, After;
    if rounds == [] {
      WorkNone(s.pool);
    } else {
      ServedBound(cfg, s, rounds[0]);
      var s' := After(cfg, s, rounds[0]);
      if s.pool != map[] {
        FairServes(cfg, s, rounds[0]);
      } else {
        NoWork(s.pool);
      }
      FairDrains(cfg, s', rounds[1..], r);
    }
  }

  lemma WorkNone(pool: map<int, Tr>)
    requires Work(pool) == 0
    ensures pool == map[]
  {
    if pool != map[] {
      var id := SomeId(pool);
      WorkWithout(pool, id);
    }
  }

  lemma NoWork(pool: map<int, Tr>)
    requires pool == map[]
    ensures Work(pool) == 0
  {
  }
}
