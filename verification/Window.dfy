/** The reorder buffer of one CPU core (src/cpu-sim/processor.{h,cpp}): a circular array
    that stands for a queue of instructions, oldest first. */
module Window {

  /** `reorder_buffer_t`: `mem` tells READ and WRITE entries from CDLY ones. */
  datatype Entry = Entry(ready: bool, mem: bool, icount: nat, address: int, trId: int, minRetire: int)

  const NO_TRANSACTION := -1

  // ---------------------------------------------------------------------------------
  // Queues of instructions

  function CountMem(q: seq<Entry>): nat {
    if q == [] then 0 else (if q[0].mem then 1 else 0) + CountMem(q[1..])
  }

  /** The memory instructions that still wait for their data. */
  function CountUnready(q: seq<Entry>): nat {
    if q == [] then 0 else (if Waiting(q[0]) then 1 else 0) + CountUnready(q[1..])
  }

  predicate Waiting(e: Entry) { e.mem && !e.ready }

  /** How many instructions leave the window in one cycle. */
  function Retiring(q: seq<Entry>, clock: int, width: nat): (k: nat)
    ensures k <= |q| && k <= width
    decreases width
  {
    if width == 0 || q == [] || !q[0].ready || clock < q[0].minRetire then 0
    else if q[0].mem then 1
    else 1 + Retiring(q[1..], clock, width - 1)
  }

  /** CDLY instructions at the old end of the window become ready, up to the first other one. */
  function Executed(q: seq<Entry>, width: nat): (r: seq<Entry>)
    ensures |r| == |q|
    decreases width
  {
    if width == 0 || q == [] || q[0].mem then q
    else [q[0].(ready := true)] + Executed(q[1..], width - 1)
  }

  function MadeReady(q: seq<Entry>, k: nat, clock: int): seq<Entry>
    requires k < |q|
  {
    q[k := q[k].(ready := true, minRetire := clock)]
  }

  /** What retires is in order, ready, past its earliest retire time, and has at most one
      memory instruction, the last; and nothing stops it early: the next instruction is not
      due, or the width is used up, or a memory instruction has just retired. */
  lemma {:induction false} RetiresInOrder(q: seq<Entry>, clock: int, width: nat)
    ensures var k := Retiring(q, clock, width);
      && (forall i :: 0 <= i < k ==> q[i].ready && q[i].minRetire <= clock && (q[i].mem ==> i == k - 1))
      && (k < |q| ==> k == width || (k > 0 && q[k - 1].mem) || !q[k].ready || clock < q[k].minRetire)
    decreases width
  {
    if width > 0 && q != [] && q[0].ready && clock >= q[0].minRetire && !q[0].mem {
      RetiresInOrder(q[1..], clock, width - 1);
      assert forall i :: 0 < i < |q| ==> q[i] == q[1..][i - 1];
    }
  }

  lemma {:induction false} CountsAppend(q: seq<Entry>, e: Entry)
    ensures CountMem(q + [e]) == CountMem(q) + (if e.mem then 1 else 0)
    ensures CountUnready(q + [e]) == CountUnready(q) + (if Waiting(e) then 1 else 0)
  {
    if q == [] {
    } else {
      assert (q + [e])[1..] == q[1..] + [e];
      CountsAppend(q[1..], e);
    }
  }

  ghost function MemPlaces(q: seq<Entry>): set<nat> {
    set k | 0 <= k < |q| && q[k].mem
  }

  ghost function UnreadyPlaces(q: seq<Entry>): set<nat> {
    set k | 0 <= k < |q| && q[k].mem && !q[k].ready
  }

  /** The two counts are those of the memory instructions, and of those that are not ready. */
  lemma {:induction false} CountsAre(q: seq<Entry>)
    ensures CountMem(q) == |MemPlaces(q)| && CountUnready(q) == |UnreadyPlaces(q)|
  {
    if q == [] {
      assert MemPlaces(q) == {} && UnreadyPlaces(q) == {};
    } else {
      var n := |q| - 1;
      var p, e := q[..n], q[n];
      CountsAre(p);
      assert q == p + [e];
      CountsAppend(p, e);
      assert MemPlaces(q) == MemPlaces(p) + if e.mem then {n} else {};
      assert UnreadyPlaces(q) == UnreadyPlaces(p) + if Waiting(e) then {n} else {};
    }
  }

  lemma {:induction false} CountsUpdate(q: seq<Entry>, k: nat, e: Entry)
    requires k < |q|
    ensures CountMem(q[k := e]) == CountMem(q) - (if q[k].mem then 1 else 0) + (if e.mem then 1 else 0)
    ensures CountUnready(q[k := e]) == CountUnready(q) - (if Waiting(q[k]) then 1 else 0) + (if Waiting(e) then 1
      else 0)
  {
    if k == 0 {
      assert q[0 := e][1..] == q[1..];
    } else {
      assert q[k := e][1..] == q[1..][k - 1 := e];
      CountsUpdate(q[1..], k - 1, e);
    }
  }

  /** The entry and all older ones are CDLY instructions, and the width reaches it. */
  ghost predicate Leading(q: seq<Entry>, width: nat, i: nat)
    requires i < |q|
  {
    i < width && forall k :: 0 <= k <= i ==> !q[k].mem
  }

  /** Every entry keeps its place; exactly the leading CDLY entries become ready. */
  lemma {:induction false} ExecutedEntries(q: seq<Entry>, width: nat)
    ensures forall i :: 0 <= i < |q| ==>
      Executed(q, width)[i] == if Leading(q, width, i) then q[i].(ready := true) else q[i]
    ensures CountMem(Executed(q, width)) == CountMem(q) && CountUnready(Executed(q, width)) == CountUnready(q)
    decreases width
  {
    if width > 0 && q != [] && !q[0].mem {
      ExecutedEntries(q[1..], width - 1);
      var r := Executed(q, width);
      assert r[1..] == Executed(q[1..], width - 1);
      forall i | 0 <= i < |q| ensures r[i] == if Leading(q, width, i) then q[i].(ready := true) else q[i] {
        if i > 0 {
          assert r[i] == r[1..][i - 1] && q[i] == q[1..][i - 1];
          assert Leading(q, width, i) <==> Leading(q[1..], width - 1, i - 1) by {
            assert forall k :: 0 < k <= i ==> q[k] == q[1..][k - 1];
          }
        }
      }
    }
  }

  lemma WaitingCounted(q: seq<Entry>, k: nat)
    requires k < |q| && Waiting(q[k])
    ensures CountUnready(q) > 0
  {
    if k > 0 {
      WaitingCounted(q[1..], k - 1);
    }
  }

  // ---------------------------------------------------------------------------------
  // The circular array

  /** The slot `i` places after `oldest` in a circular array. */
  function SlotAt(size: nat, oldest: nat, i: nat): (k: nat)
    requires oldest < size && i <= size
    ensures k == if oldest + i < size then oldest + i else oldest + i - size
  {
    Wrap(oldest + i, size);
    (oldest + i) % size
  }

  function Ring(slots: seq<Entry>, oldest: nat, n: nat): (q: seq<Entry>)
    requires oldest < |slots| && n <= |slots|
    ensures |q| == n && forall i :: 0 <= i < n ==> q[i] == slots[SlotAt(|slots|, oldest, i)]
  {
    seq(n, i requires 0 <= i < n => slots[SlotAt(|slots|, oldest, i)])
  }

  class Rob {
    const size: nat
    const slots: array<Entry>
    var next: nat
    var oldest: nat
    var numEntries: nat
    var numMem: int
    var numUnfinished: int
    var instructions: nat
    var retired: nat

    /** The window as a queue, oldest instruction first. */
    ghost function Queue(): (q: seq<Entry>)
      requires slots.Length == size && oldest < size && numEntries <= size
      reads this, slots
    {
      Ring(slots[..], oldest, numEntries)
    }

    /** The free slot follows the newest entry, the counters count, and the entries are the
        instructions fetched but not yet retired, in fetch order. */
    ghost predicate Ok()
      reads this, slots
      ensures Ok() ==> slots.Length == size && oldest < size && numEntries <= size
    {
      && slots.Length == size && oldest < size && numEntries <= size
      && next == SlotAt(size, oldest, numEntries)
      && numMem == CountMem(Queue()) && numUnfinished == CountUnready(Queue())
      && retired + numEntries == instructions
      && forall i :: 0 <= i < numEntries ==> Queue()[i].icount == retired + 1 + i
    }

    constructor (size: nat)
      requires size > 0
      ensures Ok() && fresh(slots) && this.size == size && Queue() == [] && retired == 0
    {
      this.size := size;
      slots := new Entry[size](_ => Entry(false, false, 0, NO_TRANSACTION, NO_TRANSACTION, 0));
      next, oldest, numEntries, numMem, numUnfinished, instructions, retired := 0, 0, 0, 0, 0, 0, 0;
    }

    method IsPresent(address: int, id: int) returns (present: bool)
      requires Ok()
      ensures present <==> exists k :: 0 <= k < |Queue()| && Queue()[k].address == address && Queue()[k].trId == id
    {
      ghost var q := Queue();
      var i := 0;
      while i < numEntries
        invariant 0 <= i <= numEntries
        invariant forall k :: 0 <= k < i ==> !(q[k].address == address && q[k].trId == id)
      {
        assert q[i] == slots[SlotAt(size, oldest, i)];
        if slots[SlotAt(size, oldest, i)].address == address && slots[SlotAt(size, oldest, i)].trId == id {
          return true;
        }
        i := i + 1;
      }
      return false;
    }

    /** The slot of the oldest entry for the transaction, or -1. */
    method GetEntryId(address: int, id: int) returns (entry: int, ghost k: nat)
      requires Ok()
      ensures entry == -1 <==> forall j :: 0 <= j < |Queue()| ==>
        !(Queue()[j].address == address && Queue()[j].trId == id)
      ensures entry != -1 ==> 0 <= entry < size && slots[entry].address == address && slots[entry].trId == id
      ensures entry == -1 ==> k == |Queue()|
      ensures entry != -1 ==> k < |Queue()| && entry == SlotAt(size, oldest, k)
      ensures entry != -1 ==> Queue()[k].address == address && Queue()[k].trId == id
      ensures forall j :: 0 <= j < k ==> !(Queue()[j].address == address && Queue()[j].trId == id)
    {
      ghost var q := Queue();
      var i := 0;
      while i < numEntries
        invariant 0 <= i <= numEntries
        invariant forall j :: 0 <= j < i ==> !(q[j].address == address && q[j].trId == id)
      {
        assert q[i] == slots[SlotAt(size, oldest, i)];
        if slots[SlotAt(size, oldest, i)].address == address && slots[SlotAt(size, oldest, i)].trId == id {
          return SlotAt(size, oldest, i), i;
        }
        i := i + 1;
      }
      return -1, i;
    }

    /** Marks the `k`-th entry ready; the source stops the simulation if the slot is not
        one of the window or holds another transaction. */
    method SetReady(entry: int, id: int, clock: int, ghost k: nat)
      requires Ok() && k < |Queue()| && entry == SlotAt(size, oldest, k)
      requires slots[entry].trId == id && Waiting(slots[entry])
      modifies this, slots
      ensures Ok() && Queue() == MadeReady(old(Queue()), k, clock)
      ensures retired == old(retired) && instructions == old(instructions)
    {
      ghost var q := Queue();
      slots[entry] := slots[entry].(ready := true, minRetire := clock);
      assert Queue() == MadeReady(q, k, clock);
      CountsUpdate(q, k, MadeReady(q, k, clock)[k]);
      numUnfinished := numUnfinished - 1;
    }

    /** The entry that `fetch` writes at `next`: a CDLY instruction, or a memory instruction
        that a hit has already made ready, or one that waits for its transaction. */
    method Push(mem: bool, ready: bool, address: int, trId: int, minRetire: int)
      requires Ok() && numEntries < size && (!mem ==> !ready)
      modifies this, slots
      ensures Ok() && Queue() == old(Queue()) + [Entry(ready, mem, instructions, address, trId, minRetire)]
      ensures retired == old(retired) && instructions == old(instructions) + 1
    {
      hide CountMem, CountUnready, SlotAt, Ring;
      ghost var q := Queue();
      instructions := instructions + 1;
      slots[next] := Entry(ready, mem, instructions, address, trId, minRetire);
      next := SlotAt(size, next, 1);
      numEntries := numEntries + 1;
      if mem {
        numMem := numMem + 1;
        if !ready {
          numUnfinished := numUnfinished + 1;
        }
      }
      CountsAppend(q, slots[SlotAt(size, oldest, numEntries - 1)]);
      assert Queue() == q + [slots[SlotAt(size, oldest, numEntries - 1)]];
    }

    /** `executeNonMemoryInstructions`; it may run past the newest entry, into free slots, and
        round the array again. */
    method ExecuteNonMemory(executionWidth: nat)
      requires Ok()
      modifies slots
      ensures Ok() && Queue() == Executed(old(Queue()), executionWidth)
    {
      hide CountMem, CountUnready, Executed, SlotAt, Ring;
      ghost var q := Queue();
      var i := 0;
      SlotRound(size, oldest, 0);
      while i < executionWidth && !slots[(oldest + i) % size].mem
        invariant 0 <= i <= executionWidth
        invariant (oldest + i) % size == SlotAt(size, oldest, i % size) && 0 <= i % size < size
        invariant i < size ==> i % size == i
        invariant forall k :: i <= k < size ==> slots[SlotAt(size, oldest, k)] == old(slots[SlotAt(size, oldest, k)])
        invariant forall k :: 0 <= k < i && k < size ==>
          !old(slots[SlotAt(size, oldest, k)].mem) && slots[SlotAt(size, oldest, k)] ==
            old(slots[SlotAt(size, oldest, k)]).(ready := true)
      {
        slots[(oldest + i) % size] := slots[(oldest + i) % size].(ready := true);
        i := i + 1;
        SlotRound(size, oldest, i);
      }
      ExecutedIs(q, executionWidth, Queue(), i);
      ExecutedEntries(q, executionWidth);
    }

    lemma Front()
      requires Ok()
      ensures |Queue()| == numEntries && (numEntries > 0 ==> oldest < slots.Length && Queue()[0] == slots[oldest])
    {
    }

    /** `retire`: from the oldest entry on, at most `commitWidth` of them. */
    method Retire(clock: int, commitWidth: nat)
      requires Ok()
      modifies this
      ensures Ok()
      ensures var k := Retiring(old(Queue()), clock, commitWidth);
        Queue() == old(Queue())[k..] && retired == old(retired) + k
      ensures instructions == old(instructions)
    {
      hide Retiring, Ok, Queue;
      ghost var q, gone := Queue(), [];
      var i := 0;
      while i < commitWidth
        invariant 0 <= i <= commitWidth && Ok() && instructions == old(instructions)
        invariant q == gone + Queue() && |gone| == i && retired == old(retired) + i
        invariant Retiring(q, clock, commitWidth) == i + Retiring(Queue(), clock, commitWidth - i)
      {
        Front();
        RetiringOne(Queue(), clock, commitWidth - i);
        if numEntries == 0 || !slots[oldest].ready || clock < slots[oldest].minRetire {
          break;
        }
        OneGone(gone, Queue());
        gone := gone + [Queue()[0]];
        var mem := Pop();
        i := i + 1;
        if mem {
          break;
        }
      }
      RestOf(gone, Queue());
    }

    /** One turn of the loop of `retire`: the oldest entry leaves. */
    method Pop() returns (mem: bool)
      requires Ok() && numEntries > 0 && slots[oldest].ready
      modifies this
      ensures Ok() && Queue() == old(Queue())[1..] && mem == old(Queue())[0].mem
      ensures retired == old(retired) + 1 && instructions == old(instructions)
    {
      ghost var q := Queue();
      assert q[0] == slots[oldest];
      mem := slots[oldest].mem;
      retired := retired + 1;
      numEntries := numEntries - 1;
      if mem {
        numMem := numMem - 1;
      }
      oldest := SlotAt(size, oldest, 1);
      assert Queue() == q[1..];
    }
  }

  lemma OneGone(gone: seq<Entry>, rest: seq<Entry>)
    requires rest != []
    ensures gone + rest == (gone + [rest[0]]) + rest[1..]
  {
  }

  lemma RestOf(gone: seq<Entry>, rest: seq<Entry>)
    ensures (gone + rest)[|gone|..] == rest
  {
  }

  lemma RetiringOne(q: seq<Entry>, clock: int, width: nat)
    requires width > 0
    ensures q == [] || !q[0].ready || clock < q[0].minRetire ==> Retiring(q, clock, width) == 0
    ensures q != [] && q[0].ready && clock >= q[0].minRetire ==>
      Retiring(q, clock, width) == if q[0].mem then 1 else 1 + Retiring(q[1..], clock, width - 1)
  {
  }

  lemma Wrap(a: nat, size: nat)
    requires a < 2 * size
    ensures a % size == if a < size then a else a - size
  {
    var q, r := a / size, a % size;
    assert a == size * q + r;
    assert q >= 2 ==> size * q >= size * 2;
    assert q <= 0 ==> size * q <= 0;
  }

  /** Round the array the slots come again. */
  lemma {:induction false} SlotRound(size: nat, oldest: nat, i: nat)
    requires oldest < size
    ensures 0 <= i % size < size && (oldest + i) % size == SlotAt(size, oldest, i % size)
    ensures i < size ==> i % size == i
    ensures 0 <= (oldest + i) % size < size
  {
    if i >= size {
      SlotRound(size, oldest, i - size);
      Round(i, size);
      Round(oldest + i, size);
    } else {
      Wrap(i, size);
    }
  }

  lemma Round(a: nat, size: nat)
    requires 0 < size <= a
    ensures a % size == (a - size) % size
  {
    var q, r := (a - size) / size, (a - size) % size;
    var q', r' := a / size, a % size;
    Next(size, q' - 1);
    if q < q' - 1 {
      Times(size, q, q' - 1);
    } else if q' - 1 < q {
      Times(size, q' - 1, q);
    }
  }

  lemma {:induction false} Times(size: nat, a: int, b: int)
    requires a < b
    ensures size * a + size <= size * b
    decreases b - a
  {
    Next(size, b - 1);
    if a < b - 1 {
      Times(size, a, b - 1);
    }
  }

  lemma Next(size: nat, a: int)
    ensures size * (a + 1) == size * a + size
  {
  }

  lemma {:induction false} ExecutedIs(q: seq<Entry>, width: nat, r: seq<Entry>, i: nat)
    requires |r| == |q| && i <= width
    requires forall k :: 0 <= k < |q| ==> r[k] == (if k < i then q[k].(ready := true) else q[k])
    requires forall k :: 0 <= k < i && k < |q| ==> !q[k].mem
    requires i < width && i < |q| ==> q[i].mem
    ensures r == Executed(q, width)
  {
    if q != [] && i > 0 {
      ExecutedIs(q[1..], width - 1, r[1..], i - 1);
      assert r == [r[0]] + r[1..];
    }
  }
}
