/** What each step of the miss path does to the system, said of the states before and after it
    in terms of look-ups, positions and times. */
module MissEffects {
  import C = Cache
  import W = Window
  import opened Collections
  import opened MissPath
  import opened MissSafety
  import opened MissRuns

  /** From `s` to `r` only core `c`, the pool and the ids given out may change. */
  ghost predicate OnlyAt(s: System, r: System, c: nat) {
    && c < |s.cores| == |r.cores| && r.clock == s.clock
    && forall d :: 0 <= d < |s.cores| && d != c ==> r.cores[d] == s.cores[d]
  }

  ghost predicate SamePool(s: System, r: System) {
    r.pool == s.pool && r.nextId == s.nextId
  }

  // ---------------------------------------------------------------------------------
  // Instructions enter and leave the window

  /** The window of core `c` gets one new entry. */
  ghost predicate Enters(s: System, r: System, c: nat, e: W.Entry) {
    && OnlyAt(s, r, c)
    && r.cores[c].window == s.cores[c].window + [e]
    && r.cores[c].instructions == s.cores[c].instructions + 1 == e.icount
    && r.cores[c].mshr == s.cores[c].mshr && r.cores[c].net == s.cores[c].net && r.cores[c].fifo == s.cores[c].fifo
  }

  /** A CDLY instruction enters unready, with no address and no transaction. */
  lemma DelayEnters(s: System, c: nat)
    requires c < |s.cores|
    ensures var r := FetchDelay(s, c);
      && Enters(s, r, c, W.Entry(false, false, s.cores[c].instructions + 1, -1, -1, s.clock)) && SamePool(s, r)
      && r.cores[c].flc == s.cores[c].flc && r.cores[c].mlc == s.cores[c].mlc
  {
  }

  /** A memory instruction enters ready if it is a filtered read or its line is in a cache, and
      then only the cache that has it is stamped; otherwise it waits under a new id, and the
      pool gets a transaction that starts now. Each cache that is looked up takes its time. */
  lemma MemoryEnters(cfg: Config, s: System, c: nat, address: nat, isRead: bool, filtered: bool)
    requires Inv(cfg, s) && c < |s.cores|
    requires C.Valid(cfg.flc, s.cores[c].flc) && C.Valid(cfg.mlc, s.cores[c].mlc)
    ensures
      var core, r := s.cores[c], FetchMemory(cfg, s, c, address, isRead, filtered);
      var quick := isRead && filtered;
      var inFlc := C.Lookup(cfg.flc, core.flc, address) != C.Invalid;
      var inMlc := C.Lookup(cfg.mlc, core.mlc, address) != C.Invalid;
      var ready := quick || inFlc || inMlc;
      var after := if quick then 0 else if inFlc then cfg.flcTime else cfg.flcTime + cfg.mlcTime;
      && Enters(s, r, c, W.Entry(ready, true, core.instructions + 1, address, if ready then -1 else s.nextId,
           s.clock + after))
      && (ready ==> SamePool(s, r))
      && (!ready ==> s.nextId !in s.pool && r.nextId == s.nextId + 1)
      && (!ready ==> r.pool == s.pool[s.nextId := Tr(c, address, Start, s.clock)])
      && (if !quick && inFlc then C.Stamped(cfg.flc, core.flc, r.cores[c].flc, address)
          else r.cores[c].flc == core.flc)
      && (if !quick && !inFlc && inMlc then C.Stamped(cfg.mlc, core.mlc, r.cores[c].mlc, address)
          else r.cores[c].mlc == core.mlc)
  {
    assert s.nextId !in s.pool;
    C.AccessStamps(cfg.flc, s.cores[c].flc, address);
    C.AccessStamps(cfg.mlc, s.cores[c].mlc, address);
    hide Inv, C.Lookup, C.Access, C.Stamped, C.Valid;
  }

  /** Only the window of core `c` changes. */
  ghost predicate OnlyWindow(s: System, r: System, c: nat) {
    OnlyAt(s, r, c) && SamePool(s, r) && r.cores[c] == s.cores[c].(window := r.cores[c].window)
  }

  /** The CDLY instructions at the old end, up to the width, become ready, and no others. */
  lemma ExecuteEffect(cfg: Config, s: System, c: nat)
    requires c < |s.cores|
    ensures var q, r := s.cores[c].window, Execute(cfg, s, c);
      && OnlyWindow(s, r, c) && |r.cores[c].window| == |q|
      && forall i :: 0 <= i < |q| ==>
        var leading := i < cfg.executionWidth && forall k :: 0 <= k <= i ==> !q[k].mem;
        r.cores[c].window[i] == if leading then q[i].(ready := true) else q[i]
  {
    var q := s.cores[c].window;
    W.ExecutedEntries(q, cfg.executionWidth);
    forall i | 0 <= i < |q|
      ensures W.Leading(q, cfg.executionWidth, i) <==>
        i < cfg.executionWidth && forall k :: 0 <= k <= i ==> !q[k].mem
    {
    }
  }

  /** The oldest entries leave, as many as are ready and due, up to the width and to the first
      memory instruction, which is the last to leave. */
  lemma CommitEffect(cfg: Config, s: System, c: nat) returns (n: nat)
    requires c < |s.cores|
    ensures var q, r := s.cores[c].window, Retire(cfg, s, c);
      && OnlyWindow(s, r, c) && n <= |q| && n <= cfg.commitWidth && r.cores[c].window == q[n..]
      && (forall i :: 0 <= i < n ==> q[i].ready && q[i].minRetire <= s.clock && (i < n - 1 ==> !q[i].mem))
      && (n < |q| && n < cfg.commitWidth && (n > 0 ==> !q[n - 1].mem) ==> !q[n].ready || s.clock < q[n].minRetire)
  {
    n := W.Retiring(s.cores[c].window, s.clock, cfg.commitWidth);
    W.RetiresInOrder(s.cores[c].window, s.clock, cfg.commitWidth);
  }

  // ---------------------------------------------------------------------------------
  // A visit to a transaction that is due

  /** Only the transaction changes. */
  ghost predicate OnlyTr(s: System, r: System, id: int, tr: Tr) {
    r == s.(pool := s.pool[id := tr])
  }

  /** A transaction that is not due, or waits for another, is left alone. */
  lemma NotDueEffect(cfg: Config, s: System, id: int, room: bool)
    requires Inv(cfg, s)
    requires id in s.pool && s.pool[id].timestamp <= s.clock ==>
      s.pool[id].timestamp == -1 || s.pool[id].state.MshrPending?
    ensures Visit(cfg, s, id, room) == s
  {
  }

  /** A new transaction spends the time of both look-ups before it asks the network. */
  lemma StartEffect(cfg: Config, s: System, id: int, room: bool)
    requires Inv(cfg, s) && Due(s, id) && s.pool[id].state.Start?
    ensures OnlyTr(s, Visit(cfg, s, id, room), id,
              Tr(s.pool[id].cpu, s.pool[id].address, CoreToLlc, s.clock + cfg.flcTime + cfg.mlcTime))
  {
    hide Inv;
  }

  /** A request whose line has come to the MLC may leave; one that the network has no room for
      stays; one whose line is asked for already joins the others at the end and waits; and
      only the first one for its line goes out. */
  lemma RequestEffect(cfg: Config, s: System, id: int, room: bool)
    requires Inv(cfg, s) && Due(s, id) && s.pool[id].state.CoreToLlc?
    ensures s.pool[id].cpu < |s.cores| && C.Shape(cfg.mlc, s.cores[s.pool[id].cpu].mlc)
    ensures
      var tr, r := s.pool[id], Visit(cfg, s, id, room);
      var b, ln, core := tr.cpu, C.LineOf(cfg.mlc, tr.address), s.cores[tr.cpu];
      if C.Lookup(cfg.mlc, core.mlc, tr.address) != C.Invalid then OnlyTr(s, r, id, tr.(state := Exit))
      else if !room then r == s
      else if ln in core.mshr then
        && OnlyAt(s, r, b) && r.nextId == s.nextId
        && r.pool == s.pool[id := tr.(state := MshrPending, timestamp := -1)]
        && r.cores[b] == core.(mshr := core.mshr[ln := core.mshr[ln] + [id]])
      else
        && OnlyAt(s, r, b) && r.nextId == s.nextId
        && r.pool == s.pool[id := tr.(timestamp := -1)]
        && r.cores[b] == core.(mshr := core.mshr[ln := [id]], net := core.net + {id})
  {
    assert s.pool[id].cpu < |s.cores| && C.Valid(cfg.mlc, s.cores[s.pool[id].cpu].mlc);
    hide Inv, C.Lookup, C.Valid, C.LineOf;
  }

  /** A transaction that leaves makes the one entry that waits for it ready, to retire from now
      on, and goes out of the pool. */
  lemma ExitEffect(cfg: Config, s: System, id: int, room: bool) returns (k: nat)
    requires Inv(cfg, s) && Due(s, id) && s.pool[id].state.Exit?
    ensures s.pool[id].cpu < |s.cores|
    ensures
      var c := s.pool[id].cpu;
      var q := s.cores[c].window;
      && k < |q| && q[k].trId == id && q[k].address == s.pool[id].address && q[k].mem && !q[k].ready
      && (forall j :: 0 <= j < |q| && q[j].trId == id ==> j == k)
      && Visit(cfg, s, id, room) == s.(pool := s.pool - {id}, cores := s.cores[c :=
           s.cores[c].(window := q[k := q[k].(ready := true, minRetire := s.clock)])])
  {
    ExitFindsEntry(cfg, s, id);
    k := EntryOf(s.cores[s.pool[id].cpu].window, s.pool[id].address, id);
    hide Inv;
  }

  // ---------------------------------------------------------------------------------
  // Replies

  /** The oldest reply that has been taken reaches its transaction, which is dealt with in the
      next cycle. */
  lemma ReceiveEffect(cfg: Config, s: System, c: nat)
    requires Inv(cfg, s) && c < |s.cores|
    ensures var q := s.cores[c].fifo;
      if q == [] then Deliver(s, c) == s
      else
        && q[0] in s.pool
        && var tr := s.pool[q[0]].(state := LlcToCore, timestamp := s.clock + 1);
          Deliver(s, c) == s.(pool := s.pool[q[0] := tr], cores := s.cores[c := s.cores[c].(fifo := q[1..])])
  {
    DeliverKeeps(cfg, s, c);
    hide Inv;
  }

  /** A reply to an outstanding request goes to the end of the response queue, if that holds
      fewer than eight; every other offer changes nothing. */
  lemma AnswerEffect(s: System, c: nat, id: int)
    requires c < |s.cores|
    ensures var core := s.cores[c];
      TakeReply(s, c, id) ==
        if id in core.net && |core.fifo| < 8 then
          s.(cores := s.cores[c := core.(net := core.net - {id}, fifo := core.fifo + [id])])
        else s
  {
  }
}
