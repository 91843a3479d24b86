/** Every step of the miss path keeps its invariant. */
module MissSafety {
  import C = Cache
  import W = Window
  import opened MissPath

  // ---------------------------------------------------------------------------------
  // Steps that change one core's window or caches

  /** A core may change its window and its caches, as long as its window still matches the
      pool and no line appears in or disappears from its MLC. */
  lemma CoreChangeKeeps(cfg: Config, s: System, c: nat, core: Core)
    requires Inv(cfg, s) && c < |s.cores|
    requires core.mshr == s.cores[c].mshr && core.net == s.cores[c].net && core.fifo == s.cores[c].fifo
    requires C.Valid(cfg.flc, core.flc) && C.Valid(cfg.mlc, core.mlc)
    requires forall a: nat :: C.Lookup(cfg.mlc, core.mlc, a) == C.Lookup(cfg.mlc, s.cores[c].mlc, a)
    requires CoreWindowOk(s.pool, s.nextId, c, core.window)
    ensures Inv(cfg, WithCore(s, c, core))
  {
    hide EntryOk, CoreNetOk, CoreWindowOk;
    var r := WithCore(s, c, core);
    assert CachesOk(cfg, r);
    forall d, ln | 0 <= d < |r.cores| && ln in r.cores[d].mshr
      ensures EntryOk(cfg, r.pool, d, ln, r.cores[d].mshr[ln]) && Absent(cfg, r.cores[d], ln)
    {
      assert ln in s.cores[d].mshr;
      assert Absent(cfg, s.cores[d], ln);
    }
    assert NetOk(r) by {
      assert forall d :: 0 <= d < |r.cores| ==> CoreNetOk(s.pool, d, s.cores[d].net, s.cores[d].fifo);
    }
    assert WindowOk(r);
  }

  /** An instruction without a transaction enters the window ready, or is a CDLY one. */
  lemma AppendKeeps(pool: map<int, Tr>, nextId: nat, c: nat, q: seq<W.Entry>, e: W.Entry)
    requires CoreWindowOk(pool, nextId, c, q) && e.trId == W.NO_TRANSACTION && !W.Waiting(e)
    ensures CoreWindowOk(pool, nextId, c, q + [e])
  {
    forall id | id in pool && pool[id].cpu == c ensures HasEntry(q + [e], id, pool[id].address) {
      EntryStays(q, q + [e], id, pool[id].address);
    }
  }

  lemma EntryStays(q: seq<W.Entry>, r: seq<W.Entry>, id: int, address: int)
    requires HasEntry(q, id, address) && |q| <= |r|
    requires forall k :: 0 <= k < |q| && q[k].trId == id && W.Waiting(q[k]) ==> r[k] == q[k]
    ensures HasEntry(r, id, address)
  {
    var k :| 0 <= k < |q| && q[k].trId == id && q[k].address == address && W.Waiting(q[k]);
    assert r[k] == q[k];
  }

  lemma ExecutedKeeps(pool: map<int, Tr>, nextId: nat, c: nat, q: seq<W.Entry>, width: nat)
    requires CoreWindowOk(pool, nextId, c, q)
    ensures CoreWindowOk(pool, nextId, c, W.Executed(q, width))
  {
    var r := W.Executed(q, width);
    W.ExecutedEntries(q, width);
    forall k | 0 <= k < |q|
      ensures r[k].trId == q[k].trId && r[k].mem == q[k].mem && r[k].address == q[k].address
      ensures q[k].mem ==> r[k] == q[k]
    {
    }
    forall id | id in pool && pool[id].cpu == c ensures HasEntry(r, id, pool[id].address) {
      EntryStays(q, r, id, pool[id].address);
    }
    forall k | 0 <= k < |r| && W.Waiting(r[k]) ensures Pooled(pool, c, r[k]) {
      assert r[k] == q[k];
    }
  }

  lemma RetiredKeeps(pool: map<int, Tr>, nextId: nat, c: nat, q: seq<W.Entry>, clock: int, width: nat)
    requires CoreWindowOk(pool, nextId, c, q)
    ensures CoreWindowOk(pool, nextId, c, q[W.Retiring(q, clock, width)..])
  {
    var n := W.Retiring(q, clock, width);
    var r := q[n..];
    W.RetiresInOrder(q, clock, width);
    forall id | id in pool && pool[id].cpu == c ensures HasEntry(r, id, pool[id].address) {
      var a := pool[id].address;
      assert HasEntry(q, id, a);
      var k :| 0 <= k < |q| && q[k].trId == id && q[k].address == a && W.Waiting(q[k]);
      assert k >= n && r[k - n] == q[k];
    }
  }

  lemma FetchDelayKeeps(cfg: Config, s: System, c: nat)
    requires Inv(cfg, s) && c < |s.cores|
    ensures Inv(cfg, FetchDelay(s, c))
  {
    var core := s.cores[c];
    AppendKeeps(s.pool, s.nextId, c, core.window,
      W.Entry(false, false, core.instructions + 1, -1, W.NO_TRANSACTION, s.clock));
    CoreChangeKeeps(cfg, s, c, Fetched(core, false, false, -1, W.NO_TRANSACTION, s.clock));
  }

  lemma ExecuteKeeps(cfg: Config, s: System, c: nat)
    requires Inv(cfg, s) && c < |s.cores|
    ensures Inv(cfg, Execute(cfg, s, c))
  {
    ExecutedKeeps(s.pool, s.nextId, c, s.cores[c].window, cfg.executionWidth);
    CoreChangeKeeps(cfg, s, c, s.cores[c].(window := W.Executed(s.cores[c].window, cfg.executionWidth)));
  }

  lemma RetireKeeps(cfg: Config, s: System, c: nat)
    requires Inv(cfg, s) && c < |s.cores|
    ensures Inv(cfg, Retire(cfg, s, c))
  {
    var q := s.cores[c].window;
    RetiredKeeps(s.pool, s.nextId, c, q, s.clock, cfg.commitWidth);
    CoreChangeKeeps(cfg, s, c, s.cores[c].(window := q[W.Retiring(q, s.clock, cfg.commitWidth)..]));
  }

  /** A hit changes no look-up. */
  lemma HitKeeps(cfg: Config, s: System, c: nat, core: Core, address: nat, minRetire: int)
    requires Inv(cfg, s) && c < |s.cores|
    requires || core == s.cores[c]
             || core == s.cores[c].(flc := C.Access(cfg.flc, s.cores[c].flc, address))
             || core == s.cores[c].(mlc := C.Access(cfg.mlc, s.cores[c].mlc, address))
    ensures Inv(cfg, WithCore(s, c, Fetched(core, true, true, address, W.NO_TRANSACTION, minRetire)))
  {
    hide CoreWindowOk, PoolOk, MshrOk, Queued, NetOk;
    var was := s.cores[c];
    assert CoreWindowOk(s.pool, s.nextId, c, was.window);
    C.AccessLookup(cfg.flc, was.flc, address, address);
    C.AccessLookup(cfg.mlc, was.mlc, address, address);
    forall a: nat
      ensures C.Lookup(cfg.mlc, core.mlc, a) == C.Lookup(cfg.mlc, was.mlc, a)
    {
      hide C.Valid, C.Lookup, C.Access;
      C.AccessLookup(cfg.mlc, was.mlc, address, a);
    }
    AppendKeeps(s.pool, s.nextId, c, was.window,
      W.Entry(true, true, was.instructions + 1, address, W.NO_TRANSACTION, minRetire));
    CoreChangeKeeps(cfg, s, c, Fetched(core, true, true, address, W.NO_TRANSACTION, minRetire));
  }

  // ---------------------------------------------------------------------------------
  // Steps that change the pool

  /** A new transaction, or a change to one that is neither a leader nor waiting and stays
      so, with its core and address. */
  lemma IdleKeepsMshr(cfg: Config, s: System, r: System, id: int, tr: Tr)
    requires CachesOk(cfg, s) && MshrOk(cfg, s) && Queued(cfg, s) && NetOk(s)
    requires CachesOk(cfg, r) && r.pool == s.pool[id := tr] && Idle(tr) && (id in s.pool ==> Idle(s.pool[id]))
    requires |r.cores| == |s.cores| && forall c :: 0 <= c < |s.cores| ==>
      && r.cores[c].mshr == s.cores[c].mshr && r.cores[c].net == s.cores[c].net && r.cores[c].fifo == s.cores[c].fifo
      && r.cores[c].mlc == s.cores[c].mlc
    ensures MshrOk(cfg, r) && Queued(cfg, r) && NetOk(r)
  {
    forall c, ln | 0 <= c < |r.cores| && ln in r.cores[c].mshr
      ensures EntryOk(cfg, r.pool, c, ln, r.cores[c].mshr[ln]) && Absent(cfg, r.cores[c], ln)
    {
      IdleKeepsEntry(cfg, s.pool, id, tr, c, ln, s.cores[c].mshr[ln]);
      assert Absent(cfg, s.cores[c], ln);
    }
    forall c | 0 <= c < |r.cores| ensures CoreNetOk(r.pool, c, r.cores[c].net, r.cores[c].fifo) {
      assert CoreNetOk(s.pool, c, s.cores[c].net, s.cores[c].fifo);
    }
  }

  lemma IdleKeepsEntry(cfg: Config, pool: map<int, Tr>, id: int, tr: Tr, c: nat, ln: nat, ids: seq<int>)
    requires EntryOk(cfg, pool, c, ln, ids) && (id in pool ==> Idle(pool[id]))
    ensures EntryOk(cfg, pool[id := tr], c, ln, ids)
  {
    forall k | 0 <= k < |ids| ensures ids[k] != id {
      if k > 0 {
        assert pool[ids[k]].state.MshrPending?;
      }
    }
  }

  lemma IdleChangeKeeps(cfg: Config, s: System, id: int, tr: Tr)
    requires Inv(cfg, s) && id in s.pool && Idle(s.pool[id]) && Idle(tr)
    requires tr.cpu == s.pool[id].cpu && tr.address == s.pool[id].address && tr.timestamp > BLOCKED
    ensures Inv(cfg, WithTr(s, id, tr))
  {
    var r := WithTr(s, id, tr);
    assert CachesOk(cfg, r);
    IdleKeepsMshr(cfg, s, r, id, tr);
    assert PoolOk(r);
    forall c | 0 <= c < |r.cores| ensures CoreWindowOk(r.pool, r.nextId, c, r.cores[c].window) {
      TrKeepsWindow(s.pool, s.nextId, c, s.cores[c].window, id, tr);
    }
  }

  lemma TrKeepsWindow(pool: map<int, Tr>, nextId: nat, c: nat, q: seq<W.Entry>, id: int, tr: Tr)
    requires CoreWindowOk(pool, nextId, c, q) && id in pool && tr.cpu == pool[id].cpu && tr.address == pool[id].address
    ensures CoreWindowOk(pool[id := tr], nextId, c, q)
  {
    forall k | 0 <= k < |q| && W.Waiting(q[k]) ensures Pooled(pool[id := tr], c, q[k]) {
      assert Pooled(pool, c, q[k]);
    }
  }

  lemma MissKeeps(cfg: Config, s: System, c: nat, address: nat, minRetire: int)
    requires Inv(cfg, s) && c < |s.cores|
    ensures Inv(cfg, WithCore(s, c, Fetched(s.cores[c], true, false, address, s.nextId, minRetire))
                       .(nextId := s.nextId + 1, pool := s.pool[s.nextId := Tr(c, address, Start, s.clock)]))
  {
    var id, tr := s.nextId, Tr(c, address, Start, s.clock);
    var r := WithCore(s, c, Fetched(s.cores[c], true, false, address, id, minRetire))
      .(nextId := id + 1, pool := s.pool[id := tr]);
    assert CachesOk(cfg, r);
    assert id !in s.pool;
    IdleKeepsMshr(cfg, s, r, id, tr);
    assert PoolOk(r);
    forall d | 0 <= d < |r.cores| ensures CoreWindowOk(r.pool, r.nextId, d, r.cores[d].window) {
      assert CoreWindowOk(s.pool, s.nextId, d, s.cores[d].window);
      if d == c {
        NewEntryKeeps(s.pool, id, c, s.cores[c].window, tr,
          W.Entry(false, true, s.cores[c].instructions + 1, address, id, minRetire));
      } else {
        NewTrKeeps(s.pool, id, d, s.cores[d].window, tr);
      }
    }
  }

  lemma NewTrKeeps(pool: map<int, Tr>, id: nat, c: nat, q: seq<W.Entry>, tr: Tr)
    requires CoreWindowOk(pool, id, c, q) && tr.cpu != c && id !in pool
    ensures CoreWindowOk(pool[id := tr], id + 1, c, q)
  {
    forall k | 0 <= k < |q| && W.Waiting(q[k]) ensures Pooled(pool[id := tr], c, q[k]) {
      assert Pooled(pool, c, q[k]);
    }
  }

  lemma NewEntryKeeps(pool: map<int, Tr>, id: nat, c: nat, q: seq<W.Entry>, tr: Tr, e: W.Entry)
    requires CoreWindowOk(pool, id, c, q) && id !in pool && tr.cpu == c && e.address == tr.address && e.trId == id
    requires W.Waiting(e)
    ensures CoreWindowOk(pool[id := tr], id + 1, c, q + [e])
  {
    var pool', r := pool[id := tr], q + [e];
    forall k | 0 <= k < |r| && W.Waiting(r[k]) ensures Pooled(pool', c, r[k]) {
      if k < |q| {
        assert Pooled(pool, c, q[k]);
      }
    }
    forall i | i in pool' && pool'[i].cpu == c ensures HasEntry(r, i, pool'[i].address) {
      if i == id {
        assert r[|q|] == e;
      } else {
        EntryStays(q, r, i, pool[i].address);
      }
    }
  }

  lemma FetchMemoryKeeps(cfg: Config, s: System, c: nat, address: nat, isRead: bool, filtered: bool)
    requires Inv(cfg, s) && c < |s.cores| && C.Shape(cfg.flc, s.cores[c].flc) && C.Shape(cfg.mlc, s.cores[c].mlc)
    ensures Inv(cfg, FetchMemory(cfg, s, c, address, isRead, filtered))
  {
    hide Inv, C.Lookup, C.Access;
    var core := s.cores[c];
    if isRead && filtered {
      HitKeeps(cfg, s, c, core, address, s.clock);
    } else if C.Lookup(cfg.flc, core.flc, address) != C.Invalid {
      HitKeeps(cfg, s, c, core.(flc := C.Access(cfg.flc, core.flc, address)), address, s.clock + cfg.flcTime);
    } else if C.Lookup(cfg.mlc, core.mlc, address) != C.Invalid {
      HitKeeps(cfg, s, c, core.(mlc := C.Access(cfg.mlc, core.mlc, address)), address,
        s.clock + cfg.flcTime + cfg.mlcTime);
    } else {
      MissKeeps(cfg, s, c, address, s.clock + cfg.flcTime + cfg.mlcTime);
    }
  }

  // ---------------------------------------------------------------------------------
  // Requests

  /** A transaction leaves the idle states for an MSHR entry: appended to one that exists,
      or as the leader of a new one. */
  lemma JoinKeeps(cfg: Config, s: System, id: int)
    requires Inv(cfg, s) && Due(s, id) && s.pool[id].state.CoreToLlc?
    requires C.Lookup(cfg.mlc, s.cores[s.pool[id].cpu].mlc, s.pool[id].address) == C.Invalid
    ensures Inv(cfg, VisitRequest(cfg, s, id, true))
  {
    JoinKeepsMshr(cfg, s, id);
    JoinKeepsNet(cfg, s, id);
    JoinKeepsQueued(cfg, s, id);
    JoinKeepsWindows(cfg, s, id);
  }

  lemma JoinKeepsQueued(cfg: Config, s: System, id: int)
    requires Queued(cfg, s) && PoolOk(s) && Due(s, id) && s.pool[id].state.CoreToLlc?
    requires C.Shape(cfg.mlc, s.cores[s.pool[id].cpu].mlc)
    requires C.Lookup(cfg.mlc, s.cores[s.pool[id].cpu].mlc, s.pool[id].address) == C.Invalid
    ensures Queued(cfg, VisitRequest(cfg, s, id, true)) && PoolOk(VisitRequest(cfg, s, id, true))
  {
    hide C.Lookup;
    var r := VisitRequest(cfg, s, id, true);
    forall i | i in r.pool && !Idle(r.pool[i]) && r.pool[i].cpu < |r.cores|
      ensures var mshr, ln := r.cores[r.pool[i].cpu].mshr, LineOf(cfg, r.pool[i].address); ln in mshr && i in mshr[ln]
    {
    }
  }

  lemma JoinKeepsWindows(cfg: Config, s: System, id: int)
    requires WindowOk(s) && Due(s, id) && s.pool[id].state.CoreToLlc? && s.pool[id].cpu < |s.cores|
    requires C.Shape(cfg.mlc, s.cores[s.pool[id].cpu].mlc)
    requires C.Lookup(cfg.mlc, s.cores[s.pool[id].cpu].mlc, s.pool[id].address) == C.Invalid
    ensures WindowOk(VisitRequest(cfg, s, id, true))
  {
    hide C.Lookup, CoreWindowOk;
    var r := VisitRequest(cfg, s, id, true);
    forall c | 0 <= c < |r.cores| ensures CoreWindowOk(r.pool, r.nextId, c, r.cores[c].window) {
      assert CoreWindowOk(s.pool, s.nextId, c, s.cores[c].window);
      TrKeepsWindow(s.pool, s.nextId, c, s.cores[c].window, id, r.pool[id]);
    }
  }

  lemma JoinKeepsMshr(cfg: Config, s: System, id: int)
    requires CachesOk(cfg, s) && MshrOk(cfg, s) && Due(s, id) && s.pool[id].state.CoreToLlc?
    requires s.pool[id].cpu < |s.cores|
    requires C.Lookup(cfg.mlc, s.cores[s.pool[id].cpu].mlc, s.pool[id].address) == C.Invalid
    ensures CachesOk(cfg, VisitRequest(cfg, s, id, true)) && MshrOk(cfg, VisitRequest(cfg, s, id, true))
  {
    var tr, r := s.pool[id], VisitRequest(cfg, s, id, true);
    var b, ln := tr.cpu, LineOf(cfg, tr.address);
    assert CachesOk(cfg, r);
    forall c, n | 0 <= c < |r.cores| && n in r.cores[c].mshr
      ensures EntryOk(cfg, r.pool, c, n, r.cores[c].mshr[n]) && Absent(cfg, r.cores[c], n)
    {
      if c == b && n == ln {
        if ln in s.cores[b].mshr {
          assert Absent(cfg, s.cores[b], ln);
          JoinedEntry(cfg, s.pool, id, r.pool[id], b, ln, s.cores[b].mshr[ln]);
        } else {
          MissedLineAbsent(cfg, s.cores[b], tr.address);
        }
      } else {
        assert Absent(cfg, s.cores[c], n);
        IdleKeepsEntry(cfg, s.pool, id, r.pool[id], c, n, s.cores[c].mshr[n]);
      }
    }
  }

  lemma JoinedEntry(cfg: Config, pool: map<int, Tr>, id: int, tr: Tr, c: nat, ln: nat, ids: seq<int>)
    requires EntryOk(cfg, pool, c, ln, ids) && id in pool && Idle(pool[id])
    requires tr.state.MshrPending? && tr.cpu == c && LineOf(cfg, tr.address) == ln
    ensures EntryOk(cfg, pool[id := tr], c, ln, ids + [id])
  {
    IdleKeepsEntry(cfg, pool, id, tr, c, ln, ids);
    forall k | 0 <= k < |ids| ensures ids[k] != id {
      if k > 0 {
        assert pool[ids[k]].state.MshrPending?;
      }
    }
  }

  lemma MissedLineAbsent(cfg: Config, core: Core, address: nat)
    requires C.Valid(cfg.mlc, core.mlc) && C.Lookup(cfg.mlc, core.mlc, address) == C.Invalid
    ensures Absent(cfg, core, LineOf(cfg, address))
  {
    forall a: nat | LineOf(cfg, a) == LineOf(cfg, address) ensures C.Lookup(cfg.mlc, core.mlc, a) == C.Invalid {
      C.SameLineSameLookup(cfg.mlc, core.mlc, a, address);
    }
  }

  lemma JoinKeepsNet(cfg: Config, s: System, id: int)
    requires CachesOk(cfg, s) && NetOk(s) && Due(s, id) && s.pool[id].state.CoreToLlc? && s.pool[id].cpu < |s.cores|
    requires C.Lookup(cfg.mlc, s.cores[s.pool[id].cpu].mlc, s.pool[id].address) == C.Invalid
    ensures NetOk(VisitRequest(cfg, s, id, true))
  {
    var r := VisitRequest(cfg, s, id, true);
    forall c | 0 <= c < |r.cores| ensures CoreNetOk(r.pool, c, r.cores[c].net, r.cores[c].fifo) {
      assert CoreNetOk(s.pool, c, s.cores[c].net, s.cores[c].fifo);
      assert id !in s.cores[c].net && id !in s.cores[c].fifo;
    }
  }

  // ---------------------------------------------------------------------------------
  // Replies

  /** The reply to a request finds its line missing in the MLC: the branch of
      `simulate_memory` that reports data already there is never taken. */
  lemma ReplyMissesMlc(cfg: Config, s: System, id: int)
    requires Inv(cfg, s) && id in s.pool && s.pool[id].state.LlcToCore?
    ensures var core, ln := s.cores[s.pool[id].cpu], LineOf(cfg, s.pool[id].address);
      && C.Lookup(cfg.mlc, core.mlc, s.pool[id].address) == C.Invalid
      && ln in core.mshr && core.mshr[ln][0] == id
  {
    var c, ln := s.pool[id].cpu, LineOf(cfg, s.pool[id].address);
    assert ln in s.cores[c].mshr && id in s.cores[c].mshr[ln];
    assert EntryOk(cfg, s.pool, c, ln, s.cores[c].mshr[ln]) && Absent(cfg, s.cores[c], ln);
    var k :| 0 <= k < |s.cores[c].mshr[ln]| && s.cores[c].mshr[ln][k] == id;
    assert k == 0;
  }

  /** From `s` to `r` exactly these transactions may leave. */
  ghost predicate WokenIn(s: System, r: System, ids: seq<int>) {
    && r.pool.Keys == s.pool.Keys
    && forall i :: i in s.pool ==>
      r.pool[i] == if i in ids then s.pool[i].(state := Exit, timestamp := s.clock + 1) else s.pool[i]
  }

  /** From `s` to `r` the line of `id` is filled into the MLC, and exactly the transactions of
      its MSHR entry, which goes, may leave. */
  ghost predicate MlcFilled(cfg: Config, s: System, r: System, id: int)
    requires CachesOk(cfg, s)
  {
    && id in s.pool && s.pool[id].cpu < |s.cores|
    && var b, ln := s.pool[id].cpu, LineOf(cfg, s.pool[id].address);
    && ln in s.cores[b].mshr && WokenIn(s, r, s.cores[b].mshr[ln])
    && r == s.(pool := r.pool, cores := s.cores[b := s.cores[b].(
                 mlc := C.Fill(cfg.mlc, s.cores[b].mlc, s.pool[id].address, C.Exclusive),
                 mshr := s.cores[b].mshr - {ln})])
  }

  lemma WokenPool(s: System, ids: seq<int>, id: int)
    requires id in s.pool && id in ids
    ensures var pool := Woken(s.pool[id := s.pool[id].(timestamp := s.clock)], ids, s.clock);
      WokenIn(s, s.(pool := pool[id := pool[id].(state := Exit)]), ids)
  {
  }

  lemma FillIs(cfg: Config, s: System, id: int)
    requires Inv(cfg, s) && id in s.pool && s.pool[id].state.LlcToCore?
    ensures MlcFilled(cfg, s, FilledMlc(cfg, s, id), id)
  {
    var ids := s.cores[s.pool[id].cpu].mshr[LineOf(cfg, s.pool[id].address)];
    ReplyMissesMlc(cfg, s, id);
    assert id in ids;
    WokenPool(s, ids, id);
    hide Inv, LineOf, C.Fill, CachesOk, Woken;
  }

  lemma FillKeeps(cfg: Config, s: System, id: int)
    requires Inv(cfg, s) && id in s.pool && s.pool[id].state.LlcToCore?
    ensures Inv(cfg, FilledMlc(cfg, s, id))
    ensures Idle(FilledMlc(cfg, s, id).pool[id])
  {
    var r := FilledMlc(cfg, s, id);
    ReplyMissesMlc(cfg, s, id);
    FillIs(cfg, s, id);
    FillKeepsCaches(cfg, s, r, id);
    FillKeepsPool(cfg, s, r, id);
    FillKeepsMshr(cfg, s, r, id);
    FillKeepsNet(cfg, s, r, id);
    FillKeepsQueued(cfg, s, r, id);
    FillKeepsWindows(cfg, s, r, id);
    hide PoolOk, MshrOk, Queued, NetOk, WindowOk, CachesOk, LineOf, FilledMlc, C.Fill;
  }

  lemma FillKeepsCaches(cfg: Config, s: System, r: System, id: int)
    requires Inv(cfg, s) && id in s.pool && s.pool[id].state.LlcToCore? && MlcFilled(cfg, s, r, id)
    ensures CachesOk(cfg, r)
  {
    var b := s.pool[id].cpu;
    ReplyMissesMlc(cfg, s, id);
    C.FillLookup(cfg.mlc, s.cores[b].mlc, s.pool[id].address, C.Exclusive, s.pool[id].address);
    assert CachesOk(cfg, s);
    hide Inv, C.Valid, C.Fill, C.Lookup, LineOf;
  }

  lemma FillKeepsPool(cfg: Config, s: System, r: System, id: int)
    requires Inv(cfg, s) && MlcFilled(cfg, s, r, id)
    ensures PoolOk(r)
  {
    assert PoolOk(s);
    hide Inv, CachesOk, C.Fill, LineOf;
  }

  lemma FillKeepsWindows(cfg: Config, s: System, r: System, id: int)
    requires Inv(cfg, s) && MlcFilled(cfg, s, r, id)
    ensures WindowOk(r)
  {
    assert WindowOk(s);
    hide Inv, CachesOk, C.Fill, LineOf, CoreWindowOk;
    forall c | 0 <= c < |r.cores| ensures CoreWindowOk(r.pool, r.nextId, c, r.cores[c].window) {
      assert CoreWindowOk(s.pool, s.nextId, c, s.cores[c].window);
      SamePlacesKeepWindow(s.pool, r.pool, s.nextId, c, s.cores[c].window);
    }
  }

  lemma FillKeepsMshr(cfg: Config, s: System, r: System, id: int)
    requires Inv(cfg, s) && id in s.pool && s.pool[id].state.LlcToCore? && MlcFilled(cfg, s, r, id) && CachesOk(cfg, r)
    ensures MshrOk(cfg, r)
  {
    var b, ln := s.pool[id].cpu, LineOf(cfg, s.pool[id].address);
    var ids := s.cores[b].mshr[ln];
    assert MshrOk(cfg, s) && EntryOk(cfg, s.pool, b, ln, ids);
    hide C.Fill, LineOf, EntryOk, Absent, PoolOk, Queued, NetOk, WindowOk, C.Valid;
    forall c, n | 0 <= c < |r.cores| && n in r.cores[c].mshr
      ensures EntryOk(cfg, r.pool, c, n, r.cores[c].mshr[n]) && Absent(cfg, r.cores[c], n)
    {
      FillKeepsAbsent(cfg, s, r, id, c, n);
      assert n in s.cores[c].mshr && (c != b || n != ln);
      OtherEntryKeeps(cfg, s.pool, r.pool, b, ln, ids, c, n, s.cores[c].mshr[n]);
    }
  }

  /** The ids of the entry are where the entry is. */
  lemma EntryPlaces(cfg: Config, pool: map<int, Tr>, b: nat, ln: nat, ids: seq<int>)
    requires EntryOk(cfg, pool, b, ln, ids)
    ensures forall i :: i in ids ==> i in pool && pool[i].cpu == b && LineOf(cfg, pool[i].address) == ln
    ensures forall i :: i in ids && i != ids[0] ==> pool[i].state.MshrPending?
  {
    forall i | i in ids ensures i in pool && pool[i].cpu == b && LineOf(cfg, pool[i].address) == ln
      ensures i != ids[0] ==> pool[i].state.MshrPending?
    {
      var k :| 0 <= k < |ids| && ids[k] == i;
    }
  }

  /** One MSHR entry has gone. */
  ghost predicate EntryGone(s: System, r: System, b: nat, ln: nat) {
    && |r.cores| == |s.cores| && b < |s.cores|
    && forall c :: 0 <= c < |s.cores| ==> r.cores[c].mshr == if c == b then s.cores[b].mshr - {ln} else s.cores[c].mshr
  }

  lemma QueuedAfter(cfg: Config, s: System, r: System, b: nat, ln: nat)
    requires Queued(cfg, s) && b < |s.cores| && ln in s.cores[b].mshr
    requires WokenIn(s, r, s.cores[b].mshr[ln]) && EntryGone(s, r, b, ln)
    ensures Queued(cfg, r)
  {
    hide LineOf;
    forall i | i in r.pool && !Idle(r.pool[i]) && r.pool[i].cpu < |r.cores|
      ensures var mshr, n := r.cores[r.pool[i].cpu].mshr, LineOf(cfg, r.pool[i].address); n in mshr && i in mshr[n]
    {
      assert i !in s.cores[b].mshr[ln] && r.pool[i] == s.pool[i];
    }
  }

  lemma FillKeepsQueued(cfg: Config, s: System, r: System, id: int)
    requires Inv(cfg, s) && id in s.pool && MlcFilled(cfg, s, r, id)
    ensures Queued(cfg, r)
  {
    assert Queued(cfg, s);
    hide Inv, CachesOk, LineOf, C.Fill, Queued, WokenIn;
    QueuedAfter(cfg, s, r, s.pool[id].cpu, LineOf(cfg, s.pool[id].address));
  }

  lemma NetAfter(s: System, r: System, ids: seq<int>)
    requires NetOk(s) && WokenIn(s, r, ids) && |r.cores| == |s.cores|
    requires forall i :: i in ids && i in s.pool ==> !InFlight(s.pool[i])
    requires forall c :: 0 <= c < |s.cores| ==> r.cores[c].net == s.cores[c].net && r.cores[c].fifo == s.cores[c].fifo
    ensures NetOk(r)
  {
    forall c | 0 <= c < |r.cores| ensures CoreNetOk(r.pool, c, r.cores[c].net, r.cores[c].fifo) {
      assert CoreNetOk(s.pool, c, s.cores[c].net, s.cores[c].fifo);
    }
  }

  lemma FillKeepsNet(cfg: Config, s: System, r: System, id: int)
    requires Inv(cfg, s) && id in s.pool && s.pool[id].state.LlcToCore? && MlcFilled(cfg, s, r, id)
    ensures NetOk(r)
  {
    var b, ln := s.pool[id].cpu, LineOf(cfg, s.pool[id].address);
    ReplyMissesMlc(cfg, s, id);
    assert EntryOk(cfg, s.pool, b, ln, s.cores[b].mshr[ln]) && NetOk(s);
    EntryPlaces(cfg, s.pool, b, ln, s.cores[b].mshr[ln]);
    hide Inv, EntryOk, LineOf, C.Fill, CachesOk, NetOk, WokenIn;
    NetAfter(s, r, s.cores[b].mshr[ln]);
  }

  lemma OtherEntryKeeps(cfg: Config, pool: map<int, Tr>, pool': map<int, Tr>, b: nat, ln: nat, ids: seq<int>, c: nat,
                        n: nat, other: seq<int>)
    requires EntryOk(cfg, pool, b, ln, ids) && EntryOk(cfg, pool, c, n, other) && (b != c || ln != n)
    requires pool'.Keys == pool.Keys && forall i :: i in pool && i !in ids ==> pool'[i] == pool[i]
    ensures EntryOk(cfg, pool', c, n, other)
  {
    hide LineOf;
    EntryPlaces(cfg, pool, b, ln, ids);
    forall k | 0 <= k < |other| ensures other[k] in pool && pool'[other[k]] == pool[other[k]] {
      assert pool[other[k]].cpu == c && LineOf(cfg, pool[other[k]].address) == n;
      assert other[k] !in ids;
    }
  }

  lemma FillKeepsAbsent(cfg: Config, s: System, r: System, id: int, c: nat, n: nat)
    requires Inv(cfg, s) && id in s.pool && s.pool[id].state.LlcToCore? && MlcFilled(cfg, s, r, id) && CachesOk(cfg, r)
    requires c < |s.cores| && n in r.cores[c].mshr
    ensures Absent(cfg, r.cores[c], n)
  {
    var tr := s.pool[id];
    assert n in s.cores[c].mshr && Absent(cfg, s.cores[c], n);
    ReplyMissesMlc(cfg, s, id);
    if c == tr.cpu {
      hide C.Valid, C.Lookup, C.Fill, C.Evicted, EntryOk, Queued, NetOk, WindowOk, PoolOk;
      forall a: nat | LineOf(cfg, a) == n ensures C.Lookup(cfg.mlc, r.cores[c].mlc, a) == C.Invalid {
        C.FillLookup(cfg.mlc, s.cores[c].mlc, tr.address, C.Exclusive, a);
      }
    }
  }

  lemma SamePlacesKeepWindow(pool: map<int, Tr>, pool': map<int, Tr>, nextId: nat, c: nat, q: seq<W.Entry>)
    requires CoreWindowOk(pool, nextId, c, q) && pool'.Keys == pool.Keys
    requires forall i :: i in pool ==> pool'[i].cpu == pool[i].cpu && pool'[i].address == pool[i].address
    ensures CoreWindowOk(pool', nextId, c, q)
  {
    forall k | 0 <= k < |q| && W.Waiting(q[k]) ensures Pooled(pool', c, q[k]) {
      assert Pooled(pool, c, q[k]);
    }
  }

  lemma FillFlcKeeps(cfg: Config, s: System, id: int)
    requires Inv(cfg, s) && id in s.pool && Idle(s.pool[id])
    requires C.Lookup(cfg.flc, s.cores[s.pool[id].cpu].flc, s.pool[id].address) == C.Invalid
    ensures Inv(cfg, FilledFlc(cfg, s, id))
  {
    var tr := s.pool[id];
    var tr' := tr.(state := Exit, timestamp := s.clock);
    var core := s.cores[tr.cpu];
    C.FillLookup(cfg.flc, core.flc, tr.address, C.Exclusive, tr.address);
    IdleChangeKeeps(cfg, s, id, tr');
    var s1 := WithTr(s, id, tr');
    assert CoreWindowOk(s1.pool, s1.nextId, tr.cpu, core.window);
    hide Inv;
    CoreChangeKeeps(cfg, s1, tr.cpu, core.(flc := C.Fill(cfg.flc, core.flc, tr.address, C.Exclusive)));
  }

  lemma VisitReplyKeeps(cfg: Config, s: System, id: int)
    requires Inv(cfg, s) && id in s.pool && s.pool[id].state.LlcToCore?
    ensures Inv(cfg, VisitReply(cfg, s, id))
  {
    ReplyMissesMlc(cfg, s, id);
    FillKeeps(cfg, s, id);
    var s1 := FilledMlc(cfg, s, id);
    assert s1.pool[id].cpu == s.pool[id].cpu && s1.pool[id].address == s.pool[id].address;
    assert s1.cores[s.pool[id].cpu].flc == s.cores[s.pool[id].cpu].flc;
    if C.Lookup(cfg.flc, s.cores[s.pool[id].cpu].flc, s.pool[id].address) == C.Invalid {
      FillFlcKeeps(cfg, s1, id);
    }
  }

  // ---------------------------------------------------------------------------------
  // Exits

  /** A leaving transaction has its window entry, the only one with its id, and that entry
      waits: the checks of `simulate_memory` and `setReady` never fail. */
  lemma ExitFindsEntry(cfg: Config, s: System, id: int)
    requires Inv(cfg, s) && id in s.pool
    ensures var q := s.cores[s.pool[id].cpu].window;
      var k := EntryOf(q, s.pool[id].address, id);
      k < |q| && W.Waiting(q[k]) && q[k].trId == id && q[k].address == s.pool[id].address &&
      forall j :: 0 <= j < |q| && q[j].trId == id ==> j == k
  {
    var q := s.cores[s.pool[id].cpu].window;
    assert CoreWindowOk(s.pool, s.nextId, s.pool[id].cpu, q);
    assert HasEntry(q, id, s.pool[id].address);
  }

  lemma ExitKeeps(cfg: Config, s: System, id: int)
    requires Inv(cfg, s) && id in s.pool && Idle(s.pool[id])
    ensures Inv(cfg, VisitExit(s, id))
    ensures id !in VisitExit(s, id).pool
  {
    var tr, r := s.pool[id], VisitExit(s, id);
    ExitFindsEntry(cfg, s, id);
    assert CachesOk(cfg, r);
    assert PoolOk(r);
    ExitKeepsMshr(cfg, s, id, r);
    forall c | 0 <= c < |r.cores| ensures CoreWindowOk(r.pool, r.nextId, c, r.cores[c].window) {
      assert CoreWindowOk(s.pool, s.nextId, c, s.cores[c].window);
      if c == tr.cpu {
        ExitKeepsWindow(s.pool, s.nextId, c, s.cores[c].window, id, EntryOf(s.cores[c].window, tr.address, id),
          s.clock);
      } else {
        ExitKeepsOtherWindow(s.pool, s.nextId, c, s.cores[c].window, id);
      }
    }
  }

  lemma ExitKeepsMshr(cfg: Config, s: System, id: int, r: System)
    requires CachesOk(cfg, s) && CachesOk(cfg, r) && MshrOk(cfg, s) && Queued(cfg, s) && NetOk(s)
    requires id in s.pool && Idle(s.pool[id]) && r.pool == s.pool - {id} && |r.cores| == |s.cores|
    requires forall c :: 0 <= c < |s.cores| ==> r.cores[c] == s.cores[c].(window := r.cores[c].window)
    ensures MshrOk(cfg, r) && Queued(cfg, r) && NetOk(r)
  {
    forall c, ln | 0 <= c < |r.cores| && ln in r.cores[c].mshr
      ensures EntryOk(cfg, r.pool, c, ln, r.cores[c].mshr[ln]) && Absent(cfg, r.cores[c], ln)
    {
      assert Absent(cfg, s.cores[c], ln);
      ExitKeepsEntry(cfg, s.pool, id, c, ln, s.cores[c].mshr[ln]);
    }
    forall c | 0 <= c < |r.cores| ensures CoreNetOk(r.pool, c, r.cores[c].net, r.cores[c].fifo) {
      assert CoreNetOk(s.pool, c, s.cores[c].net, s.cores[c].fifo);
    }
  }

  lemma ExitKeepsEntry(cfg: Config, pool: map<int, Tr>, id: int, c: nat, ln: nat, ids: seq<int>)
    requires EntryOk(cfg, pool, c, ln, ids) && id in pool && Idle(pool[id])
    ensures EntryOk(cfg, pool - {id}, c, ln, ids)
  {
    forall k | 0 <= k < |ids| ensures ids[k] != id {
      if k > 0 {
        assert pool[ids[k]].state.MshrPending?;
      }
    }
  }

  lemma ExitKeepsWindow(pool: map<int, Tr>, nextId: nat, c: nat, q: seq<W.Entry>, id: int, k: nat, clock: int)
    requires CoreWindowOk(pool, nextId, c, q) && id in pool && id >= 0 && k < |q| && q[k].trId == id
    ensures CoreWindowOk(pool - {id}, nextId, c, W.MadeReady(q, k, clock))
  {
    var r := W.MadeReady(q, k, clock);
    forall j | 0 <= j < |r| && W.Waiting(r[j]) ensures Pooled(pool - {id}, c, r[j]) {
      assert j != k && r[j] == q[j] && Pooled(pool, c, q[j]);
      assert q[j].trId != q[k].trId;
    }
    forall i | i in pool && i != id && pool[i].cpu == c ensures HasEntry(r, i, pool[i].address) {
      EntryStays(q, r, i, pool[i].address);
    }
  }

  lemma ExitKeepsOtherWindow(pool: map<int, Tr>, nextId: nat, c: nat, q: seq<W.Entry>, id: int)
    requires CoreWindowOk(pool, nextId, c, q) && id in pool && pool[id].cpu != c
    ensures CoreWindowOk(pool - {id}, nextId, c, q)
  {
    forall j | 0 <= j < |q| && W.Waiting(q[j]) ensures Pooled(pool - {id}, c, q[j]) {
      assert Pooled(pool, c, q[j]);
    }
  }

  // ---------------------------------------------------------------------------------
  // The network

  lemma DeliverKeeps(cfg: Config, s: System, c: nat)
    requires Inv(cfg, s) && c < |s.cores|
    ensures s.cores[c].fifo != [] ==> s.cores[c].fifo[0] in s.pool
    ensures Inv(cfg, Deliver(s, c))
  {
    var core := s.cores[c];
    assert CoreNetOk(s.pool, c, core.net, core.fifo);
    if core.fifo != [] {
      var id := core.fifo[0];
      assert id in s.pool && InFlight(s.pool[id]);
      var r := Deliver(s, c);
      assert CachesOk(cfg, r);
      assert PoolOk(r);
      DeliverKeepsMshr(cfg, s, c, r);
      forall d | 0 <= d < |r.cores| ensures CoreWindowOk(r.pool, r.nextId, d, r.cores[d].window) {
        TrKeepsWindow(s.pool, s.nextId, d, s.cores[d].window, id, r.pool[id]);
      }
    }
  }

  lemma DeliverKeepsMshr(cfg: Config, s: System, c: nat, r: System)
    requires CachesOk(cfg, s) && CachesOk(cfg, r) && MshrOk(cfg, s) && Queued(cfg, s) && NetOk(s) && c < |s.cores|
    requires s.cores[c].fifo != [] && s.cores[c].fifo[0] in s.pool && r == Deliver(s, c)
    ensures MshrOk(cfg, r) && Queued(cfg, r) && NetOk(r)
  {
    var core := s.cores[c];
    var id := core.fifo[0];
    hide LineOf, C.Fill, C.Lookup;
    assert CoreNetOk(s.pool, c, core.net, core.fifo) && id in core.fifo;
    forall d, ln | 0 <= d < |r.cores| && ln in r.cores[d].mshr
      ensures EntryOk(cfg, r.pool, d, ln, r.cores[d].mshr[ln]) && Absent(cfg, r.cores[d], ln)
    {
      assert Absent(cfg, s.cores[d], ln);
      LeaderKeepsEntry(cfg, s.pool, id, r.pool[id], d, ln, s.cores[d].mshr[ln]);
    }
    DeliverKeepsNet(s, c, r);
    hide EntryOk, NetOk;
  }

  lemma DeliverKeepsNet(s: System, c: nat, r: System)
    requires NetOk(s) && c < |s.cores|
    requires s.cores[c].fifo != [] && s.cores[c].fifo[0] in s.pool && r == Deliver(s, c)
    ensures NetOk(r)
  {
    var core := s.cores[c];
    assert CoreNetOk(s.pool, c, core.net, core.fifo) && core.fifo[0] in core.fifo;
    forall d | 0 <= d < |r.cores| ensures CoreNetOk(r.pool, d, r.cores[d].net, r.cores[d].fifo) {
      assert CoreNetOk(s.pool, d, s.cores[d].net, s.cores[d].fifo);
      if d == c {
        assert core.fifo == [core.fifo[0]] + core.fifo[1..];
      }
    }
  }

  lemma LeaderKeepsEntry(cfg: Config, pool: map<int, Tr>, id: int, tr: Tr, c: nat, ln: nat, ids: seq<int>)
    requires EntryOk(cfg, pool, c, ln, ids) && id in pool && Leading(pool[id]) && Leading(tr)
    requires tr.cpu == pool[id].cpu && tr.address == pool[id].address
    ensures EntryOk(cfg, pool[id := tr], c, ln, ids)
  {
    forall k | 0 < k < |ids| ensures ids[k] != id {
      assert pool[ids[k]].state.MshrPending?;
    }
  }

  lemma TakeReplyKeeps(cfg: Config, s: System, c: nat, id: int)
    requires Inv(cfg, s) && c < |s.cores|
    ensures Inv(cfg, TakeReply(s, c, id))
  {
    hide CoreWindowOk, EntryOk;
    var r := TakeReply(s, c, id);
    if id in s.cores[c].net && |s.cores[c].fifo| < FIFO_SIZE {
      assert CachesOk(cfg, r);
      forall d, ln | 0 <= d < |r.cores| && ln in r.cores[d].mshr
        ensures EntryOk(cfg, r.pool, d, ln, r.cores[d].mshr[ln]) && Absent(cfg, r.cores[d], ln)
      {
        assert Absent(cfg, s.cores[d], ln);
      }
      forall d | 0 <= d < |r.cores| ensures CoreNetOk(r.pool, d, r.cores[d].net, r.cores[d].fifo) {
        assert CoreNetOk(s.pool, d, s.cores[d].net, s.cores[d].fifo);
      }
      assert forall d :: 0 <= d < |r.cores| ==> CoreWindowOk(s.pool, s.nextId, d, s.cores[d].window);
    }
  }

  lemma VisitKeeps(cfg: Config, s: System, id: int, room: bool)
    requires Inv(cfg, s)
    ensures id in s.pool ==> s.pool[id].cpu < |s.cores|
    ensures Inv(cfg, Visit(cfg, s, id, room))
  {
    hide CachesOk, MshrOk, Queued, NetOk, WindowOk, C.Lookup, VisitRequest, VisitReply, VisitExit;
    if Due(s, id) {
      var tr := s.pool[id];
      match tr.state
      case Start => IdleChangeKeeps(cfg, s, id,
        tr.(timestamp := s.clock + cfg.flcTime + cfg.mlcTime, state := CoreToLlc));
      case CoreToLlc => VisitRequestKeeps(cfg, s, id, room);
      case LlcToCore => VisitReplyKeeps(cfg, s, id);
      case MshrPending =>
      case Exit => ExitKeeps(cfg, s, id);
    }
  }

  lemma VisitRequestKeeps(cfg: Config, s: System, id: int, room: bool)
    requires Inv(cfg, s) && Due(s, id) && s.pool[id].state.CoreToLlc?
    ensures C.Shape(cfg.mlc, s.cores[s.pool[id].cpu].mlc) && Inv(cfg, VisitRequest(cfg, s, id, room))
  {
    hide MshrOk, Queued, NetOk, WindowOk, C.Lookup;
    var tr := s.pool[id];
    if C.Lookup(cfg.mlc, s.cores[tr.cpu].mlc, tr.address) != C.Invalid {
      IdleChangeKeeps(cfg, s, id, tr.(state := Exit));
    } else if room {
      JoinKeeps(cfg, s, id);
    }
  }
}
