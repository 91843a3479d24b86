/** The out-of-order miss path of the CPU model: reorder windows, the transaction pool with
    its state machine, the MSHR tables, the private caches and an arbitrary network
    (src/cpu-sim/cpu_engine.cpp, processor.cpp, cache.cpp), as a system of atomic steps. */
module MissPath {
  import C = Cache
  import W = Window
  import opened Collections

  // ---------------------------------------------------------------------------------
  // State

  /** The live states of `tr_state`. */
  datatype TrState = Start | CoreToLlc | LlcToCore | MshrPending | Exit

  /** The live fields of `TRANSTYPE`; the id is the key in the pool. */
  datatype Tr = Tr(cpu: nat, address: nat, state: TrState, timestamp: int)

  /** `BLOCKED`: a transaction with this timestamp is never visited. */
  const BLOCKED := -1

  /** One core: its window, its MSHR table from line numbers to waiting transactions, the
      requests it has in the network, the replies it has taken from it, and its caches. */
  datatype Core = Core(window: seq<W.Entry>, instructions: nat, mshr: map<nat, seq<int>>,
                       net: set<int>, fifo: seq<int>, flc: C.State, mlc: C.State)

  datatype System = System(clock: nat, nextId: nat, pool: map<int, Tr>, cores: seq<Core>)

  /** What does not change: the two cache geometries, their look-up times, the widths. */
  datatype Config = Config(flc: C.Geometry, mlc: C.Geometry, flcTime: nat, mlcTime: nat,
                           executionWidth: nat, commitWidth: nat)

  const FIFO_SIZE := 8

  /** The line an address has in the MSHR table, which is kept with the MLC. */
  function LineOf(cfg: Config, a: nat): nat {
    C.LineOf(cfg.mlc, a)
  }

  /** A request that has been sent and not been answered. */
  predicate InFlight(tr: Tr) {
    tr.state.CoreToLlc? && tr.timestamp == BLOCKED
  }

  /** A transaction the others of its MSHR entry wait for. */
  predicate Leading(tr: Tr) {
    InFlight(tr) || tr.state.LlcToCore?
  }

  predicate Idle(tr: Tr) {
    !Leading(tr) && !tr.state.MshrPending?
  }

  // ---------------------------------------------------------------------------------
  // Steps

  ghost predicate CachesOk(cfg: Config, s: System) {
    forall c :: 0 <= c < |s.cores| ==> C.Valid(cfg.flc, s.cores[c].flc) && C.Valid(cfg.mlc, s.cores[c].mlc)
  }

  function WithCore(s: System, c: nat, core: Core): System
    requires c < |s.cores|
  {
    s.(cores := s.cores[c := core])
  }

  function WithTr(s: System, id: int, tr: Tr): System {
    s.(pool := s.pool[id := tr])
  }

  function Fetched(core: Core, mem: bool, ready: bool, address: int, trId: int, minRetire: int): Core {
    core.(window := core.window + [W.Entry(ready, mem, core.instructions + 1, address, trId, minRetire)],
          instructions := core.instructions + 1)
  }

  /** A CDLY instruction enters the window. */
  function FetchDelay(s: System, c: nat): System
    requires c < |s.cores|
  {
    WithCore(s, c, Fetched(s.cores[c], false, false, -1, W.NO_TRANSACTION, s.clock))
  }

  /** A memory instruction enters the window. A read may be `filtered` because its line
      already has an outstanding reference; otherwise both caches are looked up in turn. */
  function FetchMemory(cfg: Config, s: System, c: nat, address: nat, isRead: bool, filtered: bool): System
    requires c < |s.cores| && C.Shape(cfg.flc, s.cores[c].flc) && C.Shape(cfg.mlc, s.cores[c].mlc)
  {
    var core := s.cores[c];
    if isRead && filtered then
      WithCore(s, c, Fetched(core, true, true, address, W.NO_TRANSACTION, s.clock))
    else if C.Lookup(cfg.flc, core.flc, address) != C.Invalid then
      WithCore(s, c, Fetched(core.(flc := C.Access(cfg.flc, core.flc, address)), true, true, address, W.NO_TRANSACTION,
                             s.clock + cfg.flcTime))
    else if C.Lookup(cfg.mlc, core.mlc, address) != C.Invalid then
      WithCore(s, c, Fetched(core.(mlc := C.Access(cfg.mlc, core.mlc, address)), true, true, address, W.NO_TRANSACTION,
                             s.clock + cfg.flcTime + cfg.mlcTime))
    else
      WithCore(s, c, Fetched(core, true, false, address, s.nextId, s.clock + cfg.flcTime + cfg.mlcTime))
        .(nextId := s.nextId + 1, pool := s.pool[s.nextId := Tr(c, address, Start, s.clock)])
  }

  function Execute(cfg: Config, s: System, c: nat): System
    requires c < |s.cores|
  {
    WithCore(s, c, s.cores[c].(window := W.Executed(s.cores[c].window, cfg.executionWidth)))
  }

  function Retire(cfg: Config, s: System, c: nat): System
    requires c < |s.cores|
  {
    var q := s.cores[c].window;
    WithCore(s, c, s.cores[c].(window := q[W.Retiring(q, s.clock, cfg.commitWidth)..]))
  }

  predicate Due(s: System, id: int) {
    id in s.pool && s.pool[id].timestamp <= s.clock && s.pool[id].timestamp != BLOCKED
  }

  /** `simulate_memory` on one transaction; `room` is the network's answer to
      `icnt_has_buffer`. */
  ghost function Visit(cfg: Config, s: System, id: int, room: bool): System
    requires CachesOk(cfg, s) && (id in s.pool ==> s.pool[id].cpu < |s.cores|)
  {
    if !Due(s, id) then s else
    var tr := s.pool[id];
    match tr.state
    case Start => WithTr(s, id, tr.(timestamp := s.clock + cfg.flcTime + cfg.mlcTime, state := CoreToLlc))
    case CoreToLlc => VisitRequest(cfg, s, id, room)
    case LlcToCore => VisitReply(cfg, s, id)
    case MshrPending => s
    case Exit => VisitExit(s, id)
  }

  /** A request that still misses joins the MSHR entry of its line or goes out. */
  function VisitRequest(cfg: Config, s: System, id: int, room: bool): System
    requires id in s.pool && s.pool[id].cpu < |s.cores| && C.Shape(cfg.mlc, s.cores[s.pool[id].cpu].mlc)
  {
    var tr := s.pool[id];
    var core, ln := s.cores[tr.cpu], LineOf(cfg, tr.address);
    if C.Lookup(cfg.mlc, core.mlc, tr.address) != C.Invalid then
      WithTr(s, id, tr.(state := Exit))
    else if !room then
      s
    else if ln in core.mshr then
      WithCore(WithTr(s, id, tr.(state := MshrPending, timestamp := BLOCKED)), tr.cpu,
               core.(mshr := core.mshr[ln := core.mshr[ln] + [id]]))
    else
      WithCore(WithTr(s, id, tr.(timestamp := BLOCKED)), tr.cpu,
               core.(mshr := core.mshr[ln := [id]], net := core.net + {id}))
  }

  /** The waiting transactions of an MSHR entry may leave in the next cycle. */
  function Woken(pool: map<int, Tr>, ids: seq<int>, clock: nat): map<int, Tr> {
    map i | i in pool :: if i in ids then pool[i].(state := Exit, timestamp := clock + 1) else pool[i]
  }

  /** A reply fills the MLC and releases the MSHR entry of its line, and fills the FLC. A
      line that is already in a cache is not filled again, and its entry not released. */
  ghost function VisitReply(cfg: Config, s: System, id: int): System
    requires id in s.pool && s.pool[id].cpu < |s.cores| && CachesOk(cfg, s)
  {
    var tr := s.pool[id];
    var core, ln := s.cores[tr.cpu], LineOf(cfg, tr.address);
    var missed := C.Lookup(cfg.mlc, core.mlc, tr.address) == C.Invalid;
    var s1 := if missed then FilledMlc(cfg, s, id) else s;
    if C.Lookup(cfg.flc, core.flc, tr.address) == C.Invalid then
      FilledFlc(cfg, s1, id)
    else
      s1
  }

  ghost function FilledMlc(cfg: Config, s: System, id: int): System
    requires id in s.pool && s.pool[id].cpu < |s.cores| && CachesOk(cfg, s)
  {
    var tr := s.pool[id];
    var core, ln := s.cores[tr.cpu], LineOf(cfg, tr.address);
    var ids := if ln in core.mshr then core.mshr[ln] else [];
    var core' := core.(mlc := C.Fill(cfg.mlc, core.mlc, tr.address, C.Exclusive), mshr := core.mshr - {ln});
    var pool := Woken(s.pool[id := tr.(timestamp := s.clock)], ids, s.clock);
    WithCore(s.(pool := pool[id := pool[id].(state := Exit)]), tr.cpu, core')
  }

  ghost function FilledFlc(cfg: Config, s: System, id: int): System
    requires id in s.pool && s.pool[id].cpu < |s.cores| && C.Valid(cfg.flc, s.cores[s.pool[id].cpu].flc)
  {
    var tr := s.pool[id];
    var core := s.cores[tr.cpu];
    WithCore(WithTr(s, id, tr.(state := Exit, timestamp := s.clock)), tr.cpu,
             core.(flc := C.Fill(cfg.flc, core.flc, tr.address, C.Exclusive)))
  }

  /** `isPresent` and `get_entry_id`: the oldest window entry of a transaction, or the
      length of the window. */
  function EntryOf(q: seq<W.Entry>, address: int, id: int): (k: nat)
    ensures k <= |q| && (k < |q| ==> q[k].address == address && q[k].trId == id)
    ensures forall j :: 0 <= j < k ==> !(q[j].address == address && q[j].trId == id)
  {
    if q == [] || (q[0].address == address && q[0].trId == id) then 0 else 1 + EntryOf(q[1..], address, id)
  }

  /** The window entry becomes ready and the transaction leaves the pool. */
  function VisitExit(s: System, id: int): System
    requires id in s.pool && s.pool[id].cpu < |s.cores|
  {
    var tr := s.pool[id];
    var core := s.cores[tr.cpu];
    var k := EntryOf(core.window, tr.address, id);
    if k == |core.window| then s
    else WithCore(s.(pool := s.pool - {id}), tr.cpu, core.(window := W.MadeReady(core.window, k, s.clock)))
  }

  /** First half of `cpu_icnt_cycle`: the oldest reply reaches its transaction. */
  function Deliver(s: System, c: nat): System
    requires c < |s.cores| && (s.cores[c].fifo != [] ==> s.cores[c].fifo[0] in s.pool)
  {
    var core := s.cores[c];
    if core.fifo == [] then s else
    var id := core.fifo[0];
    WithCore(WithTr(s, id, s.pool[id].(timestamp := s.clock + 1, state := LlcToCore)), c, core.(fifo := core.fifo[1..]))
  }

  /** Second half: the network hands over the reply to any request it still has, if the
      response queue is not full. */
  function TakeReply(s: System, c: nat, id: int): System
    requires c < |s.cores|
  {
    var core := s.cores[c];
    if id in core.net && |core.fifo| < FIFO_SIZE then
      WithCore(s, c, core.(net := core.net - {id}, fifo := core.fifo + [id]))
    else s
  }

  // ---------------------------------------------------------------------------------
  // Invariants

  ghost predicate PoolOk(s: System) {
    forall id :: id in s.pool ==>
      && 0 <= id < s.nextId && s.pool[id].cpu < |s.cores| && s.pool[id].timestamp >= BLOCKED
      && (s.pool[id].timestamp == BLOCKED <==> InFlight(s.pool[id]) || s.pool[id].state.MshrPending?)
  }

  /** An MSHR entry: a leader that is in flight or has just come back, then the transactions
      of the same core and line that wait for it, each once. */
  ghost predicate EntryOk(cfg: Config, pool: map<int, Tr>, c: nat, ln: nat, ids: seq<int>) {
    && ids != [] && Distinct(ids)
    && (forall k :: 0 <= k < |ids| ==>
      ids[k] in pool && pool[ids[k]].cpu == c && LineOf(cfg, pool[ids[k]].address) == ln)
    && Leading(pool[ids[0]])
    && (forall k :: 0 < k < |ids| ==> pool[ids[k]].state.MshrPending?)
  }

  /** No line with an MSHR entry is valid in the MLC. */
  ghost predicate Absent(cfg: Config, core: Core, ln: nat)
    requires C.Valid(cfg.mlc, core.mlc)
  {
    forall a: nat :: LineOf(cfg, a) == ln ==> C.Lookup(cfg.mlc, core.mlc, a) == C.Invalid
  }

  ghost predicate MshrOk(cfg: Config, s: System)
    requires CachesOk(cfg, s)
  {
    forall c, ln :: 0 <= c < |s.cores| && ln in s.cores[c].mshr ==>
      EntryOk(cfg, s.pool, c, ln, s.cores[c].mshr[ln]) && Absent(cfg, s.cores[c], ln)
  }

  /** Every leader and every waiting transaction is in the entry of its line. */
  ghost predicate Queued(cfg: Config, s: System) {
    forall id :: id in s.pool && !Idle(s.pool[id]) && s.pool[id].cpu < |s.cores| ==>
      var mshr, ln := s.cores[s.pool[id].cpu].mshr, LineOf(cfg, s.pool[id].address);
      ln in mshr && id in mshr[ln]
  }

  /** The network and the response queue of a core hold its requests in flight, each once. */
  ghost predicate NetOk(s: System) {
    forall c :: 0 <= c < |s.cores| ==> CoreNetOk(s.pool, c, s.cores[c].net, s.cores[c].fifo)
  }

  ghost predicate CoreNetOk(pool: map<int, Tr>, c: nat, net: set<int>, fifo: seq<int>) {
    && Distinct(fifo) && |fifo| <= FIFO_SIZE
    && (forall id :: id in net ==> id !in fifo)
    && (forall id :: id in net || id in fifo <==> id in pool && InFlight(pool[id]) && pool[id].cpu == c)
  }

  ghost predicate WindowOk(s: System) {
    forall c :: 0 <= c < |s.cores| ==> CoreWindowOk(s.pool, s.nextId, c, s.cores[c].window)
  }

  /** The waiting entries of a window and the pooled transactions of its core are the same,
      one for one, with the same addresses. */
  ghost predicate CoreWindowOk(pool: map<int, Tr>, nextId: nat, c: nat, q: seq<W.Entry>) {
    && (forall k :: 0 <= k < |q| && q[k].trId != W.NO_TRANSACTION ==> 0 <= q[k].trId < nextId && q[k].mem)
    && (forall j, k :: 0 <= j < k < |q| && q[j].trId != W.NO_TRANSACTION ==> q[j].trId != q[k].trId)
    && (forall k :: 0 <= k < |q| && W.Waiting(q[k]) ==> Pooled(pool, c, q[k]))
    && (forall id :: id in pool && pool[id].cpu == c ==> HasEntry(q, id, pool[id].address))
  }

  ghost predicate Pooled(pool: map<int, Tr>, c: nat, e: W.Entry) {
    e.trId in pool && pool[e.trId].cpu == c && pool[e.trId].address == e.address
  }

  ghost predicate HasEntry(q: seq<W.Entry>, id: int, address: int) {
    exists k :: 0 <= k < |q| && q[k].trId == id && q[k].address == address && W.Waiting(q[k])
  }

  ghost predicate Inv(cfg: Config, s: System) {
    CachesOk(cfg, s) && PoolOk(s) && MshrOk(cfg, s) && Queued(cfg, s) && NetOk(s) && WindowOk(s)
  }
}
