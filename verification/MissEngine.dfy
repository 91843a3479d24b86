/** The miss path as the source runs it: `simulate_memory` with its loop over the pool
    vector, the MSHR vectors and the searches by id. Each method is tied to the step of
    `MissPath` it takes. */
module MissEngine {
  import C = Cache
  import W = Window
  import opened MissPath
  import opened MissSafety
  import opened MissRuns

  /** An element of `tr_pool`. */
  datatype Slot = Slot(id: int, tr: Tr)

  datatype MshrEntry = MshrEntry(trIds: seq<int>, lineAddress: nat)

  /** A core with its MSHR table as the vector it is. */
  datatype Unit = Unit(window: seq<W.Entry>, instructions: nat, mshr: seq<MshrEntry>,
                       net: set<int>, fifo: seq<int>, flc: C.State, mlc: C.State)

  // ---------------------------------------------------------------------------------
  // Vectors for maps

  ghost predicate PoolRep(slots: seq<Slot>, pool: map<int, Tr>) {
    && (forall i, j :: 0 <= i < j < |slots| ==> slots[i].id != slots[j].id)
    && (forall i :: 0 <= i < |slots| ==> slots[i].id in pool && pool[slots[i].id] == slots[i].tr)
    && (forall id :: id in pool ==> InPool(slots, id))
  }

  ghost predicate InPool(slots: seq<Slot>, id: int) {
    exists i :: 0 <= i < |slots| && slots[i].id == id
  }

  /** At most one entry for each line. */
  ghost predicate MshrRep(cfg: Config, es: seq<MshrEntry>, mshr: map<nat, seq<int>>) {
    && (forall i, j :: 0 <= i < j < |es| ==> LineOf(cfg, es[i].lineAddress) != LineOf(cfg, es[j].lineAddress))
    && (forall i :: 0 <= i < |es| ==>
      LineOf(cfg, es[i].lineAddress) in mshr && mshr[LineOf(cfg, es[i].lineAddress)] == es[i].trIds)
    && (forall ln :: ln in mshr ==> HasLine(cfg, es, ln))
  }

  ghost predicate HasLine(cfg: Config, es: seq<MshrEntry>, ln: nat) {
    exists i :: 0 <= i < |es| && LineOf(cfg, es[i].lineAddress) == ln
  }

  ghost predicate CoreRep(cfg: Config, u: Unit, c: Core) {
    && MshrRep(cfg, u.mshr, c.mshr)
    && c == Core(u.window, u.instructions, c.mshr, u.net, u.fifo, u.flc, u.mlc)
  }

  ghost function Ids(slots: seq<Slot>): seq<int> {
    seq(|slots|, i requires 0 <= i < |slots| => slots[i].id)
  }

  lemma SlotChanged(slots: seq<Slot>, pool: map<int, Tr>, k: nat, tr: Tr)
    requires PoolRep(slots, pool) && k < |slots|
    ensures PoolRep(slots[k := slots[k].(tr := tr)], pool[slots[k].id := tr])
    ensures Ids(slots[k := slots[k].(tr := tr)]) == Ids(slots)
  {
    var r, q := slots[k := slots[k].(tr := tr)], pool[slots[k].id := tr];
    forall id | id in q ensures InPool(r, id) {
      assert InPool(slots, id);
      var i :| 0 <= i < |slots| && slots[i].id == id;
      assert r[i].id == id;
    }
  }

  lemma SlotAdded(slots: seq<Slot>, pool: map<int, Tr>, id: int, tr: Tr)
    requires PoolRep(slots, pool) && id !in pool
    ensures PoolRep(slots + [Slot(id, tr)], pool[id := tr])
    ensures Ids(slots + [Slot(id, tr)]) == Ids(slots) + [id]
  {
    var r := slots + [Slot(id, tr)];
    forall i | i in pool[id := tr] ensures InPool(r, i) {
      if i == id {
        assert r[|slots|].id == id;
      } else {
        assert InPool(slots, i);
        var k :| 0 <= k < |slots| && slots[k].id == i;
        assert r[k].id == i;
      }
    }
  }

  lemma SlotErased(slots: seq<Slot>, pool: map<int, Tr>, k: nat)
    requires PoolRep(slots, pool) && k < |slots|
    ensures PoolRep(slots[..k] + slots[k + 1..], pool - {slots[k].id})
    ensures Ids(slots[..k] + slots[k + 1..]) == Ids(slots)[..k] + Ids(slots)[k + 1..]
  {
    var r, q := slots[..k] + slots[k + 1..], pool - {slots[k].id};
    forall id | id in q ensures InPool(r, id) {
      assert InPool(slots, id);
      var i :| 0 <= i < |slots| && slots[i].id == id;
      assert r[if i < k then i else i - 1].id == id;
    }
  }

  // ---------------------------------------------------------------------------------
  // One pass over the pool

  /** The pass of `simulate_memory` over the ids of the pool from position `k` on. When a
      transaction is erased the next one moves into its place and is not visited in this
      pass. */
  ghost function Sweep(cfg: Config, s: System, ids: seq<int>, k: nat, room: nat -> bool): (r: System)
    requires Inv(cfg, s)
    ensures Inv(cfg, r)
    decreases |ids| - k
  {
    if k >= |ids| then s
    else
      VisitKeeps(cfg, s, ids[k], room(k));
      var s' := Visit(cfg, s, ids[k], room(k));
      if ids[k] in s'.pool then Sweep(cfg, s', ids, k + 1, room)
      else Sweep(cfg, s', ids[..k] + ids[k + 1..], k + 1, room)
  }

  /** The place in the pool where the pass goes on after the one at `j`, whose transaction is
      `id`: the next one, or the one after that if this one has left. */
  ghost function NextPlace(s: System, j: nat, id: int): nat {
    if id in s.pool then j + 1 else j + 2
  }

  /** The steps visit the transactions at these places from `j` on. */
  ghost predicate Visits(cfg: Config, s: System, ids: seq<int>, j: nat, k: nat, room: nat -> bool, es: seq<Event>,
                         at: seq<nat>)
    requires Inv(cfg, s)
  {
    && |at| == |es| + 1 && at[0] == j && at[|es|] >= |ids|
    && forall m :: 0 <= m < |es| ==>
         && at[m] < |ids| && es[m] == Simulate(ids[at[m]], room(k + m))
         && at[m + 1] == NextPlace(After(cfg, s, es[..m + 1]), at[m], ids[at[m]])
  }

  /** A pass is a run of visits, so all that holds in every run holds after it. It starts with
      the first transaction and visits the next one each time, but for those whose predecessor
      has just left. */
  lemma SweepIsRun(cfg: Config, s: System, ids: seq<int>, room: nat -> bool) returns (es: seq<Event>, at: seq<nat>)
    requires Inv(cfg, s)
    ensures Sweep(cfg, s, ids, 0, room) == After(cfg, s, es) && Visits(cfg, s, ids, 0, 0, room, es, at)
  {
    es, at := SweepFrom(cfg, s, ids, 0, ids, 0, room);
  }

  /** The rest of a pass from position `k` of the vector, from which `gone` have been erased. */
  lemma {:induction false} SweepFrom(cfg: Config, s: System, now: seq<int>, k: nat, ids: seq<int>, gone: nat,
                                     room: nat -> bool)
    returns (es: seq<Event>, at: seq<nat>)
    requires Inv(cfg, s) && |now| + gone == |ids| && forall i :: k <= i < |now| ==> now[i] == ids[i + gone]
    ensures Sweep(cfg, s, now, k, room) == After(cfg, s, es) && Visits(cfg, s, ids, k + gone, k, room, es, at)
    decreases |now| - k
  {
    hide Inv, Step, Visits, Sweep, After;
    if k >= |now| {
      es, at := [], [k + gone];
      SweepNothing(cfg, s, now, k, ids, k + gone, room);
    } else {
      var e := Simulate(now[k], room(k));
      var s' := SweepOne(cfg, s, now, k, room);
      var rest, later;
      if now[k] in s'.pool {
        rest, later := SweepFrom(cfg, s', now, k + 1, ids, gone, room);
      } else {
        var now' := now[..k] + now[k + 1..];
        assert forall i :: k + 1 <= i < |now'| ==> now'[i] == now[i + 1];
        rest, later := SweepFrom(cfg, s', now', k + 1, ids, gone + 1, room);
      }
      es, at := [e] + rest, [k + gone] + later;
      VisitsMore(cfg, s, s', ids, k + gone, k, room, e, rest, later);
      AfterFirst(cfg, s, s', e, rest);
    }
  }

  lemma SweepNothing(cfg: Config, s: System, now: seq<int>, k: nat, ids: seq<int>, j: nat, room: nat -> bool)
    requires Inv(cfg, s) && k >= |now| && j >= |ids|
    ensures Sweep(cfg, s, now, k, room) == After(cfg, s, []) && Visits(cfg, s, ids, j, k, room, [], [j])
  {
    hide Inv;
  }

  lemma SweepOne(cfg: Config, s: System, now: seq<int>, k: nat, room: nat -> bool) returns (s': System)
    requires Inv(cfg, s) && k < |now|
    ensures Inv(cfg, s') && s' == Step(cfg, s, Simulate(now[k], room(k)))
    ensures Sweep(cfg, s, now, k, room) ==
      if now[k] in s'.pool then Sweep(cfg, s', now, k + 1, room)
      else Sweep(cfg, s', now[..k] + now[k + 1..], k + 1, room)
  {
    VisitKeeps(cfg, s, now[k], room(k));
    hide Inv, Visit;
    s' := Step(cfg, s, Simulate(now[k], room(k)));
  }

  lemma AfterFirst(cfg: Config, s: System, s': System, e: Event, rest: seq<Event>)
    requires Inv(cfg, s) && Inv(cfg, s') && e.Simulate? && s' == Step(cfg, s, e)
    ensures After(cfg, s, [e] + rest) == After(cfg, s', rest)
  {
    hide Inv, Step;
    assert ([e] + rest)[1..] == rest;
  }

  lemma VisitsMore(cfg: Config, s: System, s': System, ids: seq<int>, j: nat, k: nat, room: nat -> bool, e: Event,
                   rest: seq<Event>, later: seq<nat>)
    requires Inv(cfg, s) && Inv(cfg, s') && j < |ids| && e == Simulate(ids[j], room(k)) && s' == Step(cfg, s, e)
    requires Visits(cfg, s', ids, NextPlace(s', j, ids[j]), k + 1, room, rest, later)
    ensures Visits(cfg, s, ids, j, k, room, [e] + rest, [j] + later)
  {
    hide Inv, Step;
    var es, at := [e] + rest, [j] + later;
    forall m | 0 <= m < |es|
      ensures at[m] < |ids| && es[m] == Simulate(ids[at[m]], room(k + m))
      ensures at[m + 1] == NextPlace(After(cfg, s, es[..m + 1]), at[m], ids[at[m]])
    {
      assert es[..m + 1][0] == e && es[..m + 1][1..] == rest[..m];
      assert After(cfg, s, es[..m + 1]) == After(cfg, s', rest[..m]);
      if m > 0 {
        assert rest[m - 1] == Simulate(ids[later[m - 1]], room(k + 1 + (m - 1)));
        assert later[m] == NextPlace(After(cfg, s', rest[..m - 1 + 1]), later[m - 1], ids[later[m - 1]]);
      } else {
        assert rest[..0] == [];
      }
    }
  }

  class Engine {
    const cfg: Config
    var clock: nat
    var nextId: nat
    var pool: seq<Slot>
    var units: seq<Unit>
    ghost var system: System

    /** The vectors stand for the maps of the abstract system. */
    ghost predicate Rep()
      reads this
    {
      && system.clock == clock && system.nextId == nextId
      && PoolRep(pool, system.pool)
      && |units| == |system.cores| && forall c :: 0 <= c < |units| ==> CoreRep(cfg, units[c], system.cores[c])
    }

    ghost predicate Ok()
      reads this
    {
      Rep() && Inv(cfg, system)
    }

    /** `map_transaction`. */
    method MapTransaction(id: int) returns (k: nat)
      requires exists i :: 0 <= i < |pool| && pool[i].id == id
      ensures k < |pool| && pool[k].id == id
    {
      k := 0;
      while pool[k].id != id
        invariant k < |pool| && forall i :: 0 <= i < k ==> pool[i].id != id
        decreases |pool| - k
      {
        k := k + 1;
      }
    }

    /** `insert_blocked_queue` of the MLC of core `c`: true if the line had an entry. */
    method InsertBlockedQueue(c: nat, id: int, address: nat) returns (found: bool)
      requires Rep() && c < |units|
      modifies `units, `system
      ensures Rep()
      ensures var mshr, ln := old(system).cores[c].mshr, LineOf(cfg, address);
        && found == (ln in mshr)
        && system == WithCore(old(system), c, old(system).cores[c].(mshr :=
             if ln in mshr then mshr[ln := mshr[ln] + [id]] else mshr[ln := [id]]))
      ensures |units| == |old(units)|
    {
      var es := units[c].mshr;
      var ln := LineOf(cfg, address);
      ghost var mshr := system.cores[c].mshr;
      assert CoreRep(cfg, units[c], system.cores[c]);
      var i := 0;
      while i < |es|
        invariant 0 <= i <= |es| && units == old(units) && system == old(system)
        invariant forall k :: 0 <= k < i ==> LineOf(cfg, es[k].lineAddress) != ln
      {
        if ln == LineOf(cfg, es[i].lineAddress) {
          var es' := es[i := es[i].(trIds := es[i].trIds + [id])];
          EntryExtended(cfg, es, mshr, i, id);
          units := units[c := units[c].(mshr := es')];
          system := WithCore(system, c, system.cores[c].(mshr := mshr[ln := mshr[ln] + [id]]));
          return true;
        }
        i := i + 1;
      }
      EntryAdded(cfg, es, mshr, address, id);
      units := units[c := units[c].(mshr := es + [MshrEntry([id], address)])];
      system := WithCore(system, c, system.cores[c].(mshr := mshr[ln := [id]]));
      return false;
    }

    /** `delete_blocked_queue` of the MLC of core `c`: wakes the transactions of the entry of
        the line, and erases it. The loop goes on after the erasure; no other entry can
        match. */
    method DeleteBlockedQueue(c: nat, address: nat)
      requires Rep() && c < |units|
      requires var mshr, ln := system.cores[c].mshr, LineOf(cfg, address);
        ln in mshr ==> forall k :: 0 <= k < |mshr[ln]| ==> mshr[ln][k] in system.pool
      modifies `pool, `units, `system
      ensures Rep() && Ids(pool) == Ids(old(pool)) && |units| == |old(units)|
      ensures var mshr, ln := old(system).cores[c].mshr, LineOf(cfg, address);
        system == WithCore(old(system).(pool := Woken(old(system).pool, if ln in mshr then mshr[ln] else [], clock)), c,
                           old(system).cores[c].(mshr := mshr - {ln}))
    {
      var ln := LineOf(cfg, address);
      ghost var s, mshr := system, system.cores[c].mshr;
      assert CoreRep(cfg, units[c], system.cores[c]);
      var i := 0;
      ghost var erased := false;
      while i < |units[c].mshr|
        invariant c < |units| == |old(units)| && Rep() && Ids(pool) == Ids(old(pool))
        invariant MshrRep(cfg, units[c].mshr, system.cores[c].mshr)
        invariant !erased ==> system == s && i <= |units[c].mshr| && forall k :: 0 <= k < i ==>
          LineOf(cfg, units[c].mshr[k].lineAddress) != ln
        invariant erased ==> ln in mshr && system == WithCore(s.(pool := Woken(s.pool, mshr[ln], clock)), c,
          s.cores[c].(mshr := mshr - {ln}))
        decreases |units[c].mshr| - i
      {
        if ln == LineOf(cfg, units[c].mshr[i].lineAddress) {
          assert !erased;
          var es := units[c].mshr;
          Wake(es[i].trIds);
          EntryErased(cfg, es, mshr, i);
          units := units[c := units[c].(mshr := es[..i] + es[i + 1..])];
          system := WithCore(system, c, system.cores[c].(mshr := mshr - {ln}));
          erased := true;
        }
        i := i + 1;
      }
      if !erased {
        assert ln in mshr ==> HasLine(cfg, units[c].mshr, ln);
        assert mshr - {ln} == mshr;
        assert Woken(s.pool, [], clock) == s.pool;
      }
    }

    /** A change to one element of the pool. */
    method SetTr(k: nat, tr: Tr)
      requires Rep() && k < |pool|
      modifies `pool, `system
      ensures Rep() && Ids(pool) == Ids(old(pool)) && pool == old(pool)[k := old(pool)[k].(tr := tr)]
      ensures system == WithTr(old(system), old(pool)[k].id, tr)
    {
      SlotChanged(pool, system.pool, k, tr);
      system := WithTr(system, pool[k].id, tr);
      pool := pool[k := pool[k].(tr := tr)];
    }

    /** `case CORE_TO_LLC`. */
    method Request(k: nat, room: bool)
      requires Ok() && k < |pool| && Due(system, pool[k].id) && pool[k].tr.state.CoreToLlc?
      modifies `pool, `units, `system
      ensures Rep() && Ids(pool) == Ids(old(pool))
      ensures C.Shape(cfg.mlc, old(system).cores[old(pool)[k].tr.cpu].mlc)
      ensures system == VisitRequest(cfg, old(system), old(pool)[k].id, room)
    {
      hide Inv, C.Lookup;
      var id, tr := pool[k].id, pool[k].tr;
      var c := tr.cpu;
      assert CoreRep(cfg, units[c], system.cores[c]) && C.Shape(cfg.mlc, system.cores[c].mlc) by {
        CoreInBounds(cfg, system, id);
      }
      if C.Lookup(cfg.mlc, units[c].mlc, tr.address) != C.Invalid {
        SetTr(k, tr.(state := Exit));
        return;
      }
      if room {
        ghost var s := system;
        var found := InsertBlockedQueue(c, id, tr.address);
        if found {
          SetTr(k, tr.(timestamp := BLOCKED, state := MshrPending));
        } else {
          SetTr(k, tr.(timestamp := BLOCKED));
          SetCore(c, units[c].(net := units[c].net + {id}), system.cores[c].(net := system.cores[c].net + {id}));
        }
      }
    }

    /** A change to the parts of a core that are kept as they are. */
    method SetCore(c: nat, u: Unit, ghost core: Core)
      requires Rep() && c < |units| && u.mshr == units[c].mshr && CoreRep(cfg, u, core)
      modifies `units, `system
      ensures Rep() && units == old(units)[c := u] && system == WithCore(old(system), c, core)
    {
      units := units[c := u];
      system := WithCore(system, c, core);
    }

    /** `case LLC_TO_CORE`. */
    method Reply(k: nat)
      requires Ok() && k < |pool| && pool[k].tr.state.LlcToCore?
      modifies `pool, `units, `system
      ensures Rep() && Ids(pool) == Ids(old(pool))
      ensures CachesOk(cfg, old(system)) && old(pool)[k].tr.cpu < |old(system).cores|
      ensures system == VisitReply(cfg, old(system), old(pool)[k].id)
    {
      var id, tr := pool[k].id, pool[k].tr;
      var c := tr.cpu;
      CoreInBounds(cfg, system, id);
      FilledMlcSame(cfg, system, id);
      assert CoreRep(cfg, units[c], system.cores[c]);
      assert Ids(pool)[k] == id;
      hide Inv, C.Lookup, C.Valid, FilledMlc, FilledFlc, CoreRep;
      var mlcState := C.Lookup(cfg.mlc, units[c].mlc, tr.address);
      var flcState := C.Lookup(cfg.flc, units[c].flc, tr.address);
      if mlcState == C.Invalid {
        EntryInPool(cfg, system, id);
        FillMlc(k);
        assert Ids(pool)[k] == pool[k].id;
      }
      if flcState == C.Invalid {
        FillFlc(k);
      }
    }

    method FillMlc(k: nat)
      requires Rep() && k < |pool| && CachesOk(cfg, system) && pool[k].tr.cpu < |system.cores|
      requires var mshr, ln := system.cores[pool[k].tr.cpu].mshr, LineOf(cfg, pool[k].tr.address);
        ln in mshr ==> forall i :: 0 <= i < |mshr[ln]| ==> mshr[ln][i] in system.pool
      modifies `pool, `units, `system
      ensures Rep() && Ids(pool) == Ids(old(pool))
      ensures old(pool)[k].id in old(system).pool && old(system).pool[old(pool)[k].id].cpu < |old(system).cores|
      ensures system == FilledMlc(cfg, old(system), old(pool)[k].id)
    {
      var id, tr := pool[k].id, pool[k].tr;
      var c := tr.cpu;
      ghost var s := system;
      SlotInPool(pool, s.pool, k);
      assert C.Valid(cfg.mlc, s.cores[c].mlc);
      InsertInMlc(k);
      DeleteBlockedQueue(c, tr.address);
      assert pool[k].id == id by {
        assert Ids(pool)[k] == Ids(old(pool))[k];
      }
      SetTr(k, pool[k].tr.(state := Exit));
    }

    method InsertInMlc(k: nat)
      requires Rep() && k < |pool| && pool[k].tr.cpu < |units| && C.Valid(cfg.mlc, system.cores[pool[k].tr.cpu].mlc)
      modifies `pool, `units, `system
      ensures Rep() && Ids(pool) == Ids(old(pool)) && |units| == |old(units)|
      ensures var c, core, tr := old(pool)[k].tr.cpu, old(system).cores[old(pool)[k].tr.cpu], old(pool)[k].tr;
        system == WithTr(WithCore(old(system), c, core.(mlc := C.Fill(cfg.mlc, core.mlc, tr.address, C.Exclusive))),
                         old(pool)[k].id, tr.(timestamp := clock))
    {
      var tr := pool[k].tr;
      assert CoreRep(cfg, units[tr.cpu], system.cores[tr.cpu]);
      hide C.Fill, C.Valid, LineOf;
      var filled := C.Fill(cfg.mlc, units[tr.cpu].mlc, tr.address, C.Exclusive);
      SetCore(tr.cpu, units[tr.cpu].(mlc := filled), system.cores[tr.cpu].(mlc := filled));
      SetTr(k, tr.(timestamp := clock));
    }

    method FillFlc(k: nat)
      requires Rep() && k < |pool| && pool[k].tr.cpu < |system.cores|
      requires C.Valid(cfg.flc, system.cores[pool[k].tr.cpu].flc)
      modifies `pool, `units, `system
      ensures Rep() && Ids(pool) == Ids(old(pool))
      ensures system == FilledFlc(cfg, old(system), old(pool)[k].id)
    {
      var tr := pool[k].tr;
      var c := tr.cpu;
      assert CoreRep(cfg, units[c], system.cores[c]);
      var filled := C.Fill(cfg.flc, units[c].flc, tr.address, C.Exclusive);
      SetCore(c, units[c].(flc := filled), system.cores[c].(flc := filled));
      SetTr(k, tr.(timestamp := clock, state := Exit));
    }

    /** `case EXIT`. */
    method Leave(k: nat)
      requires Ok() && k < |pool|
      modifies `pool, `units, `system
      ensures Rep() && old(pool)[k].tr.cpu < |old(system).cores|
      ensures system == VisitExit(old(system), old(pool)[k].id)
      ensures old(pool)[k].id !in system.pool
      ensures Ids(pool) == Ids(old(pool))[..k] + Ids(old(pool))[k + 1..]
    {
      var id, tr := pool[k].id, pool[k].tr;
      var c := tr.cpu;
      ghost var s := system;
      CoreInBounds(cfg, s, id);
      ExitFindsEntry(cfg, s, id);
      assert CoreRep(cfg, units[c], s.cores[c]);
      hide Inv;
      var entry := EntryOf(units[c].window, tr.address, id);
      assert entry < |units[c].window|;
      var window := W.MadeReady(units[c].window, entry, clock);
      assert CoreRep(cfg, units[c].(window := window), s.cores[c].(window := window));
      hide EntryOf, W.MadeReady, PoolRep, CoreRep;
      SetCore(c, units[c].(window := window), s.cores[c].(window := window));
      SlotErased(pool, system.pool, k);
      system := system.(pool := system.pool - {id});
      pool := pool[..k] + pool[k + 1..];
    }

    /** The body of the loop of `simulate_memory`. */
    method VisitAt(k: nat, room: bool)
      requires Ok() && k < |pool|
      modifies `pool, `units, `system
      ensures Rep() && CachesOk(cfg, old(system)) && old(pool)[k].tr.cpu < |old(system).cores|
      ensures system == Visit(cfg, old(system), old(pool)[k].id, room)
      ensures Ids(pool) == Ids(old(pool)) ||
              (old(pool)[k].id !in system.pool && Ids(pool) == Ids(old(pool))[..k] + Ids(old(pool))[k + 1..])
    {
      var tr := pool[k].tr;
      CoreInBounds(cfg, system, pool[k].id);
      hide Inv, CachesOk, PoolRep, CoreRep, C.Shape, VisitRequest, VisitReply, VisitExit;
      assert pool[k].id in system.pool && system.pool[pool[k].id] == tr by {
        SlotInPool(pool, system.pool, k);
      }
      if tr.timestamp <= clock && tr.timestamp != BLOCKED {
        match tr.state {
          case Start => SetTr(k, tr.(timestamp := clock + cfg.flcTime + cfg.mlcTime, state := CoreToLlc));
          case CoreToLlc => Request(k, room);
          case LlcToCore => Reply(k);
          case MshrPending =>
          case Exit => Leave(k);
        }
      }
    }

    /** `simulate_memory`. */
    method SimulateMemory(room: nat -> bool)
      requires Ok()
      modifies `pool, `units, `system
      ensures Ok() && system == Sweep(cfg, old(system), Ids(old(pool)), 0, room)
    {
      hide Inv, Visit, PoolRep, CoreRep, CachesOk;
      var index := 0;
      while index < |pool|
        invariant Ok()
        invariant Sweep(cfg, old(system), Ids(old(pool)), 0, room) == Sweep(cfg, system, Ids(pool), index, room)
        decreases |pool| - index
      {
        ghost var id, ids := pool[index].id, Ids(pool);
        assert ids[index] == id;
        VisitKeeps(cfg, system, id, room(index));
        VisitAt(index, room(index));
        if Ids(pool) == ids {
          assert id in system.pool by {
            assert Ids(pool)[index] == id;
            SlotInPool(pool, system.pool, index);
          }
        }
        index := index + 1;
      }
    }

    /** `insertMemTransaction`: a memory instruction enters the window, ready on a hit, or
        with a new transaction at the end of the pool. */
    method InsertMemTransaction(c: nat, address: nat, isRead: bool, filtered: bool)
      requires Ok() && c < |units|
      modifies `pool, `units, `system, `nextId
      ensures Rep() && C.Shape(cfg.flc, old(system).cores[c].flc) && C.Shape(cfg.mlc, old(system).cores[c].mlc)
      ensures system == FetchMemory(cfg, old(system), c, address, isRead, filtered)
      ensures Ids(pool) == Ids(old(pool)) + if nextId > old(nextId) then [old(nextId)] else []
    {
      assert CoreRep(cfg, units[c], system.cores[c]);
      assert C.Valid(cfg.flc, units[c].flc) && C.Valid(cfg.mlc, units[c].mlc);
      assert nextId !in system.pool;
      hide Inv, C.Lookup, C.Access;
      var insert, minRetire, trId := !(filtered && isRead), clock, W.NO_TRANSACTION;
      var flc, mlc := units[c].flc, units[c].mlc;
      if insert {
        minRetire := clock + cfg.flcTime;
        if C.Lookup(cfg.flc, flc, address) != C.Invalid {
          flc := C.Access(cfg.flc, flc, address);
          insert := false;
        } else {
          minRetire := minRetire + cfg.mlcTime;
          if C.Lookup(cfg.mlc, mlc, address) != C.Invalid {
            mlc := C.Access(cfg.mlc, mlc, address);
            insert := false;
          }
        }
      }
      if insert {
        trId := nextId;
        SlotAdded(pool, system.pool, nextId, Tr(c, address, Start, clock));
        pool := pool + [Slot(nextId, Tr(c, address, Start, clock))];
        system := system.(pool := system.pool[nextId := Tr(c, address, Start, clock)], nextId := nextId + 1);
        nextId := nextId + 1;
      }
      var entry := W.Entry(!insert, true, units[c].instructions + 1, address, trId, minRetire);
      SetCore(c, units[c].(flc := flc, mlc := mlc, window := units[c].window + [entry],
        instructions := units[c].instructions + 1),
              system.cores[c].(flc := flc, mlc := mlc, window := system.cores[c].window + [entry],
                instructions := system.cores[c].instructions + 1));
    }

    /** `cpu_icnt_cycle`: the oldest reply taken earlier reaches its transaction, and the
        packet the network now offers, if it has one, is taken. */
    method CpuIcntCycle(c: nat, packet: int)
      requires Ok() && c < |units|
      modifies `pool, `units, `system
      ensures Rep() && |old(system).cores| == |units| == |system.cores|
      ensures old(system).cores[c].fifo != [] ==> old(system).cores[c].fifo[0] in old(system).pool
      ensures system == TakeReply(Deliver(old(system), c), c, packet) && Ids(pool) == Ids(old(pool))
    {
      ghost var s := system;
      DeliverKeeps(cfg, s, c);
      assert CoreRep(cfg, units[c], system.cores[c]);
      hide Inv;
      if units[c].fifo != [] {
        DeliverReply(c);
      }
      assert system == Deliver(s, c) && CoreRep(cfg, units[c], system.cores[c]);
      if packet in units[c].net && |units[c].fifo| < FIFO_SIZE {
        SetCore(c, units[c].(net := units[c].net - {packet}, fifo := units[c].fifo + [packet]),
                system.cores[c].(net := system.cores[c].net - {packet}, fifo := system.cores[c].fifo + [packet]));
      }
    }

    method DeliverReply(c: nat)
      requires Rep() && c < |units| && units[c].fifo != [] && units[c].fifo[0] in system.pool
      modifies `pool, `units, `system
      ensures Rep() && |old(system).cores| == |units|
      ensures old(units)[c].fifo == old(system).cores[c].fifo && system == Deliver(old(system), c)
      ensures Ids(pool) == Ids(old(pool))
    {
      assert CoreRep(cfg, units[c], system.cores[c]);
      assert InPool(pool, units[c].fifo[0]);
      var k := MapTransaction(units[c].fifo[0]);
      SetTr(k, pool[k].tr.(timestamp := clock + 1, state := LlcToCore));
      SetCore(c, units[c].(fifo := units[c].fifo[1..]), system.cores[c].(fifo := system.cores[c].fifo[1..]));
    }

    /** The inner loop of `delete_blocked_queue`. */
    method Wake(ids: seq<int>)
      requires Rep() && forall k :: 0 <= k < |ids| ==> ids[k] in system.pool
      modifies `pool, `system
      ensures Rep() && Ids(pool) == Ids(old(pool))
      ensures system == old(system).(pool := Woken(old(system).pool, ids, clock))
    {
      ghost var s := system;
      assert Woken(s.pool, [], clock) == s.pool;
      var j := 0;
      while j < |ids|
        invariant 0 <= j <= |ids| && Rep() && Ids(pool) == Ids(old(pool))
        invariant system == s.(pool := Woken(s.pool, ids[..j], clock))
      {
        assert InPool(pool, ids[j]);
        var k := MapTransaction(ids[j]);
        var tr := pool[k].tr.(timestamp := clock + 1, state := Exit);
        SlotChanged(pool, system.pool, k, tr);
        WokenOne(s.pool, ids, j, clock);
        pool := pool[k := pool[k].(tr := tr)];
        system := system.(pool := system.pool[ids[j] := tr]);
        j := j + 1;
      }
      assert ids[..|ids|] == ids;
    }
  }

  lemma WokenOne(pool: map<int, Tr>, ids: seq<int>, j: nat, clock: nat)
    requires j < |ids| && ids[j] in pool
    ensures Woken(pool, ids[..j + 1], clock) ==
      var w := Woken(pool, ids[..j], clock); w[ids[j] := w[ids[j]].(timestamp := clock + 1, state := Exit)]
  {
    assert ids[..j + 1] == ids[..j] + [ids[j]];
  }

  lemma EntryExtended(cfg: Config, es: seq<MshrEntry>, mshr: map<nat, seq<int>>, i: nat, id: int)
    requires MshrRep(cfg, es, mshr) && i < |es|
    ensures var ln := LineOf(cfg, es[i].lineAddress);
      ln in mshr && MshrRep(cfg, es[i := es[i].(trIds := es[i].trIds + [id])], mshr[ln := mshr[ln] + [id]])
  {
    hide LineOf;
    var r := es[i := es[i].(trIds := es[i].trIds + [id])];
    forall n | n in mshr ensures HasLine(cfg, r, n) {
      assert HasLine(cfg, es, n);
      var k :| 0 <= k < |es| && LineOf(cfg, es[k].lineAddress) == n;
      assert LineOf(cfg, r[k].lineAddress) == n;
    }
  }

  lemma EntryAdded(cfg: Config, es: seq<MshrEntry>, mshr: map<nat, seq<int>>, address: nat, id: int)
    requires MshrRep(cfg, es, mshr)
    requires forall k :: 0 <= k < |es| ==> LineOf(cfg, es[k].lineAddress) != LineOf(cfg, address)
    ensures LineOf(cfg, address) !in mshr
    ensures MshrRep(cfg, es + [MshrEntry([id], address)], mshr[LineOf(cfg, address) := [id]])
  {
    hide LineOf;
    var ln, r := LineOf(cfg, address), es + [MshrEntry([id], address)];
    assert ln in mshr ==> HasLine(cfg, es, ln);
    forall n | n in mshr || n == ln ensures HasLine(cfg, r, n) {
      if n == ln {
        assert LineOf(cfg, r[|es|].lineAddress) == n;
      } else {
        assert HasLine(cfg, es, n);
        var k :| 0 <= k < |es| && LineOf(cfg, es[k].lineAddress) == n;
        assert LineOf(cfg, r[k].lineAddress) == n;
      }
    }
  }

  lemma EntryErased(cfg: Config, es: seq<MshrEntry>, mshr: map<nat, seq<int>>, i: nat)
    requires MshrRep(cfg, es, mshr) && i < |es|
    ensures MshrRep(cfg, es[..i] + es[i + 1..], mshr - {LineOf(cfg, es[i].lineAddress)})
  {
    hide LineOf;
    var r, q := es[..i] + es[i + 1..], mshr - {LineOf(cfg, es[i].lineAddress)};
    forall n | n in q ensures HasLine(cfg, r, n) {
      assert HasLine(cfg, es, n);
      var k :| 0 <= k < |es| && LineOf(cfg, es[k].lineAddress) == n;
      assert LineOf(cfg, r[if k < i then k else k - 1].lineAddress) == n;
    }
  }

  lemma CoreInBounds(cfg: Config, s: System, id: int)
    requires Inv(cfg, s) && id in s.pool
    ensures CachesOk(cfg, s) && s.pool[id].cpu < |s.cores|
    ensures C.Shape(cfg.mlc, s.cores[s.pool[id].cpu].mlc) && C.Shape(cfg.flc, s.cores[s.pool[id].cpu].flc)
  {
  }

  lemma FilledMlcSame(cfg: Config, s: System, id: int)
    requires Inv(cfg, s) && id in s.pool
    ensures CachesOk(cfg, s) && s.pool[id].cpu < |s.cores|
    ensures var r, c := FilledMlc(cfg, s, id), s.pool[id].cpu;
      && |r.cores| == |s.cores| && r.cores[c].flc == s.cores[c].flc && C.Valid(cfg.flc, r.cores[c].flc)
      && id in r.pool && r.pool[id].cpu == c && r.pool[id].address == s.pool[id].address
  {
  }

  lemma EntryInPool(cfg: Config, s: System, id: int)
    requires Inv(cfg, s) && id in s.pool && s.pool[id].state.LlcToCore?
    ensures var mshr, ln := s.cores[s.pool[id].cpu].mshr, LineOf(cfg, s.pool[id].address);
      ln in mshr && forall k :: 0 <= k < |mshr[ln]| ==> mshr[ln][k] in s.pool
  {
    ReplyMissesMlc(cfg, s, id);
    assert EntryOk(cfg, s.pool, s.pool[id].cpu, LineOf(cfg, s.pool[id].address),
                   s.cores[s.pool[id].cpu].mshr[LineOf(cfg, s.pool[id].address)]);
  }

  lemma SlotInPool(slots: seq<Slot>, pool: map<int, Tr>, k: nat)
    requires PoolRep(slots, pool) && k < |slots|
    ensures slots[k].id in pool && pool[slots[k].id] == slots[k].tr
  {
  }
}
