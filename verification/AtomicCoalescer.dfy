/**
  The coalescing rule for atomics of src/abstract_hardware_model.cc. Lanes that touch the same
  bytes may not share a transaction, so a segment gets a list of transactions and each lane
  goes to the first one whose bytes it does not meet. Here: where each lane ends up, and that
  no other rule needs fewer transactions.
*/
module AtomicCoalescer {
  import opened Coalescer
  import opened Collections

  /** How many of the requests are for this address. */
  ghost function Count(a: seq<Access>, addr: nat): nat {
    if a == [] then 0
    else Count(a[..|a| - 1], addr) + if a[|a| - 1].addr == addr then 1 else 0
  }

  /** How many earlier lanes asked for the address of request `i`. */
  ghost function Rank(a: seq<Access>, i: nat): nat
    requires i < |a|
  {
    Count(a[..i], a[i].addr)
  }

  /** The requests of a segment that have `k` earlier lanes at their own address. */
  ghost function Layer(a: seq<Access>, segment: nat, b: nat, k: nat): set<Access>
    requires segment > 0
  {
    set i | 0 <= i < |a| && Block(a[i].addr, segment) == b && Rank(a, i) == k :: a[i]
  }

  /** The largest number of requests for one address of the segment. */
  ghost function Depth(a: seq<Access>, segment: nat, b: nat): nat
    requires segment > 0
  {
    if a == [] then 0
    else
      var y, d := a[|a| - 1], Depth(a[..|a| - 1], segment, b);
      if Block(y.addr, segment) == b && d < Count(a, y.addr) then Count(a, y.addr) else d
  }

  /** One subwarp of atomics: words of one size, in lane order. */
  ghost predicate Uniform(a: seq<Access>, size: nat) {
    && AllWellFormed(a) && (forall i :: 0 <= i < |a| ==> a[i].size == size)
    && forall i, j :: 0 <= i < j < |a| ==> a[i].lane < a[j].lane
  }

  // ---------------------------------------------------------------------------------
  // Counting

  lemma {:induction false} CountGrows(a: seq<Access>, i: nat, addr: nat)
    requires i <= |a|
    ensures Count(a[..i], addr) <= Count(a, addr)
    decreases |a|
  {
    if i < |a| {
      CountGrows(a[..|a| - 1], i, addr);
      assert a[..|a| - 1][..i] == a[..i];
    } else {
      assert a[..i] == a;
    }
  }

  /** Requests for one address have different ranks, in lane order. */
  lemma RankIncreases(a: seq<Access>, i: nat, j: nat)
    requires i < j < |a| && a[i].addr == a[j].addr
    ensures Rank(a, i) < Rank(a, j)
  {
    CountGrows(a[..j], i + 1, a[i].addr);
    assert a[..j][..i + 1] == a[..i + 1] && a[..i + 1][..i] == a[..i];
  }

  lemma RankBelowCount(a: seq<Access>, i: nat)
    requires i < |a|
    ensures Rank(a, i) < Count(a, a[i].addr)
  {
    CountGrows(a, i + 1, a[i].addr);
    assert a[..i + 1][..i] == a[..i];
  }

  /** Every rank below the count occurs. */
  lemma {:induction false} RankOccurs(a: seq<Access>, addr: nat, k: nat) returns (i: nat)
    requires k < Count(a, addr)
    ensures i < |a| && a[i].addr == addr && Rank(a, i) == k
    decreases |a|
  {
    var n := |a| - 1;
    if k < Count(a[..n], addr) {
      i := RankOccurs(a[..n], addr, k);
      assert a[..n][..i] == a[..i];
    } else {
      i := n;
    }
  }

  /** The depth is the largest count of an address of the segment. */
  lemma {:induction false} DepthIsLargestCount(a: seq<Access>, segment: nat, b: nat)
    requires segment > 0
    ensures forall addr :: Block(addr, segment) == b ==> Count(a, addr) <= Depth(a, segment, b)
    ensures Depth(a, segment, b) > 0 ==>
      exists addr :: Block(addr, segment) == b && Count(a, addr) == Depth(a, segment, b)
  {
    if a == [] {
    } else {
      var n := |a| - 1;
      DepthIsLargestCount(a[..n], segment, b);
      assert a[n].addr == a[n].addr;
      forall addr: nat | Block(addr, segment) == b ensures Count(a, addr) <= Depth(a, segment, b) {
        assert Count(a[..n], addr) <= Depth(a[..n], segment, b);
      }
      if Depth(a, segment, b) > 0 {
        if Depth(a, segment, b) == Count(a, a[n].addr) && Block(a[n].addr, segment) == b {
        } else {
          var addr :| Block(addr, segment) == b && Count(a[..n], addr) == Depth(a[..n], segment, b);
          assert Count(a, addr) <= Depth(a, segment, b);
        }
      }
    }
  }

  lemma LayerNotEmpty(a: seq<Access>, segment: nat, b: nat, k: nat)
    requires segment > 0 && k < Depth(a, segment, b)
    ensures Layer(a, segment, b, k) != {}
  {
    DepthIsLargestCount(a, segment, b);
    var addr :| Block(addr, segment) == b && Count(a, addr) == Depth(a, segment, b);
    var i := RankOccurs(a, addr, k);
    assert a[i] in Layer(a, segment, b, k);
  }

  lemma LayerIsGroup(a: seq<Access>, segment: nat, b: nat, k: nat)
    requires AllWellFormed(a) && IsSize(segment) && k < Depth(a, segment, b)
    ensures IsGroup(Layer(a, segment, b, k), segment, b)
  {
    LayerNotEmpty(a, segment, b, k);
  }

  // ---------------------------------------------------------------------------------
  // Which requests meet

  ghost predicate Meet(x: Access, y: Access) {
    exists k :: k in Offsets(x) && k in Offsets(y)
  }

  /** Words of one size in one segment share a byte only when they are the same word. */
  lemma MeetIffSame(x: Access, y: Access, segment: nat)
    requires WellFormed(x) && WellFormed(y) && x.size == y.size
    requires IsSize(segment) && Block(x.addr, segment) == Block(y.addr, segment)
    ensures Meet(x, y) <==> x.addr == y.addr
  {
    if x.addr == y.addr {
      PositiveSize(x);
      assert Offset(x.addr) in Offsets(x) && Offset(x.addr) in Offsets(y);
    } else {
      SameLine(x.addr, y.addr, segment);
      WordsApart(x.addr, y.addr, x.size);
    }
  }

  lemma SameLine(p: nat, q: nat, segment: nat)
    requires IsSize(segment) && Block(p, segment) == Block(q, segment)
    ensures p - Offset(p) == q - Offset(q)
  {
    LineOfBlock(p, segment);
    LineOfBlock(q, segment);
  }

  lemma WordsApart(p: nat, q: nat, size: nat)
    requires size <= 16 && Aligned(p, size) && Aligned(q, size) && p != q
    ensures p + size <= q || q + size <= p
  {
    var m := WordNumber(p, size);
    var n := WordNumber(q, size);
    hide Aligned;
    if p < q {
      Fits(size, m, n);
    } else {
      Fits(size, n, m);
    }
  }

  /** A new request meets every transaction numbered below its rank, and not the one at its
      rank. */
  lemma FirstFitIsRank(a: seq<Access>, y: Access, size: nat, segment: nat, k: nat)
    requires Uniform(a + [y], size) && IsSize(segment)
    requires k <= Count(a, y.addr)
    ensures var bytes := Bytes(Layer(a, segment, Block(y.addr, segment), k));
      (exists i :: i in Offsets(y) && i in bytes) <==> k < Count(a, y.addr)
  {
    hide Block, Aligned, Offsets;
    var b := Block(y.addr, segment);
    var layer := Layer(a, segment, b, k);
    if k < Count(a, y.addr) {
      var i := RankOccurs(a, y.addr, k);
      var x := (a + [y])[i];
      assert WellFormed((a + [y])[|a|]) && x in layer;
      MeetIffSame(x, y, segment);
      var n :| n in Offsets(x) && n in Offsets(y);
      assert n in Bytes(layer);
    } else if n :| n in Offsets(y) && n in Bytes(layer) {
      var x :| x in layer && n in Offsets(x);
      var i :| 0 <= i < |a| && a[i] == x && Block(a[i].addr, segment) == b && Rank(a, i) == k;
      assert WellFormed((a + [y])[|a|]) && WellFormed((a + [y])[i]);
      MeetIffSame(x, y, segment);
      RankBelowCount(a, i);
      assert false;
    }
  }

  // ---------------------------------------------------------------------------------
  // The transactions of a subwarp

  /** The first `n` transactions of a segment. */
  ghost function Slots(a: seq<Access>, segment: nat, b: nat, n: nat): (r: seq<Transaction>)
    requires segment > 0
    ensures |r| == n && forall k :: 0 <= k < n ==> r[k] == TransactionOf(Layer(a, segment, b, k), segment, b)
  {
    if n == 0 then []
    else Slots(a, segment, b, n - 1) + [TransactionOf(Layer(a, segment, b, n - 1), segment, b)]
  }

  /** All transactions of the segments listed, segment by segment. */
  ghost function EmitSlots(a: seq<Access>, segment: nat, bs: seq<nat>): seq<Transaction>
    requires segment > 0
  {
    if bs == [] then []
    else
      var n := |bs| - 1;
      EmitSlots(a, segment, bs[..n]) + Slots(a, segment, bs[n], Depth(a, segment, bs[n]))
  }

  ghost function AtomicPass(a: seq<Access>, segment: nat): seq<Transaction>
    requires segment > 0
  {
    EmitSlots(a, segment, Ascending(Blocks(a, segment)))
  }

  /** Where a lane ends up: in the transaction of its segment numbered by the earlier lanes at
      its address, whole, and in no other transaction of any segment. */
  lemma LaneInItsSlot(a: seq<Access>, size: nat, segment: nat, i: nat)
    requires Uniform(a, size) && IsSize(segment) && i < |a|
    ensures var x, b, r := a[i], Block(a[i].addr, segment), Rank(a, i);
      && r < Depth(a, segment, b)
      && (var t := Slots(a, segment, b, Depth(a, segment, b))[r]; Inside(x, t) && Offsets(x) <= t.bytes)
      && forall c, k :: 0 <= k < Depth(a, segment, c) ==>
           (x.lane in Slots(a, segment, c, Depth(a, segment, c))[k].active <==> c == b && k == r)
  {
    hide Block, Narrow, Aligned, Depth, Rank;
    var x, b, r := a[i], Block(a[i].addr, segment), Rank(a, i);
    RankBelowCount(a, i);
    DepthIsLargestCount(a, segment, b);
    var g := Layer(a, segment, b, r);
    assert x in g;
    LayerIsGroup(a, segment, b, r);
    GroupTransaction(g, segment, b);
    forall c: nat, k: nat | k < Depth(a, segment, c)
      ensures x.lane in Lanes(Layer(a, segment, c, k)) <==> c == b && k == r
    {
      if z :| z in Layer(a, segment, c, k) && z.lane == x.lane {
        var j :| 0 <= j < |a| && Block(a[j].addr, segment) == c && Rank(a, j) == k && a[j] == z;
        assert j == i;
      }
    }
  }

  /** How many of the transactions have the lane's bit. */
  ghost function Carriers(q: seq<Transaction>, t: nat): nat {
    if q == [] then 0 else Carriers(q[..|q| - 1], t) + if t in q[|q| - 1].active then 1 else 0
  }

  lemma {:induction false} CarriersConcat(p: seq<Transaction>, q: seq<Transaction>, t: nat)
    ensures Carriers(p + q, t) == Carriers(p, t) + Carriers(q, t)
    decreases |q|
  {
    if q == [] {
      assert p + q == p;
    } else {
      assert (p + q)[..|p + q| - 1] == p + q[..|q| - 1];
      CarriersConcat(p, q[..|q| - 1], t);
    }
  }

  lemma {:induction false} NoCarriers(q: seq<Transaction>, t: nat)
    requires Carriers(q, t) == 0
    ensures forall i :: 0 <= i < |q| ==> t !in q[i].active
  {
    if q == [] {
    } else {
      NoCarriers(q[..|q| - 1], t);
      assert q == q[..|q| - 1] + [q[|q| - 1]];
    }
  }

  /** The lane is in one slot of one segment. */
  ghost predicate OnlyIn(a: seq<Access>, segment: nat, t: nat, c: nat, r: nat)
    requires segment > 0
  {
    forall b, k :: 0 <= k < Depth(a, segment, b) ==> (t in Lanes(Layer(a, segment, b, k)) <==> b == c && k == r)
  }

  /** Every transaction with the lane's bit is this one. */
  ghost predicate AllAre(q: seq<Transaction>, t: nat, x: Transaction) {
    forall i :: 0 <= i < |q| && t in q[i].active ==> q[i] == x
  }

  lemma {:induction false} CarriersAt(q: seq<Transaction>, t: nat, r: int)
    requires forall k :: 0 <= k < |q| ==> (t in q[k].active <==> k == r)
    ensures Carriers(q, t) == if 0 <= r < |q| then 1 else 0
  {
    if q == [] {
    } else {
      CarriersAt(q[..|q| - 1], t, r);
    }
  }

  lemma SlotsCarriers(a: seq<Access>, segment: nat, b: nat, t: nat, c: nat, r: nat)
    requires segment > 0 && OnlyIn(a, segment, t, c, r)
    ensures Carriers(Slots(a, segment, b, Depth(a, segment, b)), t) ==
      if b == c && r < Depth(a, segment, b) then 1 else 0
    ensures AllAre(Slots(a, segment, b, Depth(a, segment, b)), t, TransactionOf(Layer(a, segment, c, r), segment, c))
  {
    var q := Slots(a, segment, b, Depth(a, segment, b));
    hide OnlyIn, Slots, Depth, Layer, Lanes, Carriers;
    forall k | 0 <= k < |q| ensures t in q[k].active <==> k == if b == c then r else -1 {
      SlotLanes(a, segment, b, k, t, c, r);
    }
    CarriersAt(q, t, if b == c then r else -1);
  }

  lemma SlotLanes(a: seq<Access>, segment: nat, b: nat, k: nat, t: nat, c: nat, r: nat)
    requires segment > 0 && OnlyIn(a, segment, t, c, r) && k < Depth(a, segment, b)
    ensures t in TransactionOf(Layer(a, segment, b, k), segment, b).active <==> b == c && k == r
  {
    hide Layer, Lanes, Depth;
  }

  lemma BothCarry(p: seq<Transaction>, q: seq<Transaction>, t: nat, y: Transaction)
    requires AllAre(p, t, y) && AllAre(q, t, y)
    ensures AllAre(p + q, t, y) && Carriers(p + q, t) == Carriers(p, t) + Carriers(q, t)
  {
    CarriersConcat(p, q, t);
  }

  lemma LastOf(bs: seq<nat>, c: nat)
    requires Distinct(bs) && bs != []
    ensures var n := |bs| - 1;
      Distinct(bs[..n]) && (c in bs <==> c in bs[..n] || c == bs[n]) && !(c in bs[..n] && c == bs[n])
  {
    assert bs == bs[..|bs| - 1] + [bs[|bs| - 1]];
  }

  lemma {:induction false} EmitCarriers(a: seq<Access>, segment: nat, bs: seq<nat>, t: nat, c: nat, r: nat)
    requires segment > 0 && OnlyIn(a, segment, t, c, r) && r < Depth(a, segment, c) && Distinct(bs)
    ensures Carriers(EmitSlots(a, segment, bs), t) == if c in bs then 1 else 0
    ensures AllAre(EmitSlots(a, segment, bs), t, TransactionOf(Layer(a, segment, c, r), segment, c))
  {
    hide Depth, Layer, OnlyIn, TransactionOf;
    if bs == [] {
    } else {
      LastOf(bs, c);
      hide AllAre, Slots, Carriers, Distinct;
      var n := |bs| - 1;
      EmitCarriers(a, segment, bs[..n], t, c, r);
      SlotsCarriers(a, segment, bs[n], t, c, r);
      BothCarry(EmitSlots(a, segment, bs[..n]), Slots(a, segment, bs[n], Depth(a, segment, bs[n])), t,
                TransactionOf(Layer(a, segment, c, r), segment, c));
    }
  }

  /** One pass serves each of its lanes with one transaction, whole. */
  lemma LaneServedOnce(a: seq<Access>, size: nat, segment: nat, i: nat)
    requires Uniform(a, size) && IsSize(segment) && i < |a|
    ensures var q := AtomicPass(a, segment);
      Carriers(q, a[i].lane) == 1 && forall j :: 0 <= j < |q| && a[i].lane in q[j].active ==>
        Inside(a[i], q[j]) && Offsets(a[i]) <= q[j].bytes
  {
    var x, b, r := a[i], Block(a[i].addr, segment), Rank(a, i);
    LaneInItsSlot(a, size, segment, i);
    assert OnlyIn(a, segment, x.lane, b, r) by {
      forall c, k | 0 <= k < Depth(a, segment, c)
        ensures x.lane in Lanes(Layer(a, segment, c, k)) <==> c == b && k == r
      {
        assert Slots(a, segment, c, Depth(a, segment, c))[k].active == Lanes(Layer(a, segment, c, k));
      }
    }
    var bs := Ascending(Blocks(a, segment));
    assert b in Blocks(a, segment) && b in bs;
    EmitCarriers(a, segment, bs, x.lane, b, r);
    assert Slots(a, segment, b, Depth(a, segment, b))[r] == TransactionOf(Layer(a, segment, b, r), segment, b);
  }

  /** A pass has no transaction for a lane that is not among its requests. */
  lemma {:induction false} StrangerNotServed(a: seq<Access>, segment: nat, bs: seq<nat>, t: nat)
    requires segment > 0 && forall i :: 0 <= i < |a| ==> a[i].lane != t
    ensures Carriers(EmitSlots(a, segment, bs), t) == 0
  {
    hide Depth;
    if bs == [] {
    } else {
      var n := |bs| - 1;
      StrangerNotServed(a, segment, bs[..n], t);
      var p, q := EmitSlots(a, segment, bs[..n]), Slots(a, segment, bs[n], Depth(a, segment, bs[n]));
      NotInSlots(a, segment, bs[n], Depth(a, segment, bs[n]), t);
      CarriersConcat(p, q, t);
    }
  }

  lemma NotInSlots(a: seq<Access>, segment: nat, b: nat, n: nat, t: nat)
    requires segment > 0 && forall i :: 0 <= i < |a| ==> a[i].lane != t
    ensures Carriers(Slots(a, segment, b, n), t) == 0
  {
    var q := Slots(a, segment, b, n);
    hide Slots, Carriers, Block, Rank;
    forall k | 0 <= k < |q| ensures t !in q[k].active {
      assert q[k].active == Lanes(Layer(a, segment, b, k));
    }
    CarriersAt(q, t, -1);
  }

  /** Two lanes of one transaction never touch a common byte. */
  lemma SlotBytesApart(a: seq<Access>, size: nat, segment: nat, b: nat, k: nat, x: Access, y: Access)
    requires Uniform(a, size) && IsSize(segment)
    requires x in Layer(a, segment, b, k) && y in Layer(a, segment, b, k) && x != y
    ensures !Meet(x, y)
  {
    hide Block, Aligned, Rank;
    var i :| 0 <= i < |a| && Block(a[i].addr, segment) == b && Rank(a, i) == k && a[i] == x;
    var j :| 0 <= j < |a| && Block(a[j].addr, segment) == b && Rank(a, j) == k && a[j] == y;
    if x.addr == y.addr {
      RankIncreases(a, if i < j then i else j, if i < j then j else i);
      assert false;
    }
    MeetIffSame(x, y, segment);
  }

  /** A rule that keeps lanes which share a byte apart needs at least this many transactions
      for the segment. */
  lemma FewestTransactions(a: seq<Access>, size: nat, segment: nat, b: nat, slot: seq<nat>, m: nat)
    requires Uniform(a, size) && IsSize(segment) && |slot| == |a|
    requires forall i :: 0 <= i < |a| && Block(a[i].addr, segment) == b ==> slot[i] < m
    requires forall i, j ::
      0 <= i < j < |a| && Block(a[i].addr, segment) == Block(a[j].addr, segment) == b && Meet(a[i], a[j]) ==>
        slot[i] != slot[j]
    ensures Depth(a, segment, b) <= m
  {
    hide Block, Aligned;
    DepthIsLargestCount(a, segment, b);
    if Depth(a, segment, b) > 0 {
      var addr :| Block(addr, segment) == b && Count(a, addr) == Depth(a, segment, b);
      forall i, j | 0 <= i < j < |a| && a[i].addr == a[j].addr == addr ensures slot[i] != slot[j] {
        MeetIffSame(a[i], a[j], segment);
      }
      var used := SlotsUsed(a, addr, slot);
      assert used <= Interval(0, m);
      IntervalSize(0, m);
      SubsetSize(used, Interval(0, m));
    }
  }

  lemma {:induction false} SlotsUsed(a: seq<Access>, addr: nat, slot: seq<nat>) returns (used: set<nat>)
    requires |slot| == |a|
    requires forall i, j :: 0 <= i < j < |a| && a[i].addr == a[j].addr == addr ==> slot[i] != slot[j]
    ensures |used| == Count(a, addr)
    ensures forall s :: s in used ==> exists i :: 0 <= i < |a| && a[i].addr == addr && slot[i] == s
  {
    used := {};
    if a == [] {
    } else {
      var n := |a| - 1;
      used := SlotsUsed(a[..n], addr, slot[..n]);
      if a[n].addr == addr {
        assert slot[n] !in used;
        used := used + {slot[n]};
      }
    }
  }

  lemma {:induction false} IntervalSize(lo: nat, hi: nat)
    requires lo <= hi
    ensures |Interval(lo, hi)| == hi - lo
    decreases hi
  {
    if lo >= hi {
    } else {
      IntervalSize(lo, hi - 1);
      assert hi - 1 !in Interval(lo, hi - 1);
    }
  }

  // ---------------------------------------------------------------------------------
  // One more request

  lemma LayerGrows(a: seq<Access>, y: Access, segment: nat, b: nat, k: nat)
    requires segment > 0
    ensures Layer(a + [y], segment, b, k) ==
      if b == Block(y.addr, segment) && k == Count(a, y.addr) then Layer(a, segment, b, k) + {y}
        else Layer(a, segment, b, k)
  {
    hide Block, Count;
    var a' := a + [y];
    assert a'[..|a|] == a;
    forall i | 0 <= i < |a| ensures a'[i] == a[i] && Rank(a', i) == Rank(a, i) {
      assert a'[..i] == a[..i];
    }
    forall x ensures x in Layer(a', segment, b, k) <==>
        x in Layer(a, segment, b, k) || (x == y && b == Block(y.addr, segment) && k == Count(a, y.addr)) {
      assert a'[|a|] == y && Rank(a', |a|) == Count(a, y.addr);
      if x in Layer(a, segment, b, k) {
        var i :| 0 <= i < |a| && Block(a[i].addr, segment) == b && Rank(a, i) == k && a[i] == x;
        assert a'[i] == x;
      }
    }
  }

  lemma DepthGrows(a: seq<Access>, y: Access, segment: nat, b: nat)
    requires segment > 0
    ensures Depth(a + [y], segment, b) ==
      if b == Block(y.addr, segment) && Depth(a, segment, b) == Count(a, y.addr) then Depth(a, segment, b) + 1
      else Depth(a, segment, b)
    ensures Count(a, y.addr) <= Depth(a, segment, Block(y.addr, segment))
  {
    hide Block;
    DepthIsLargestCount(a, segment, Block(y.addr, segment));
    assert (a + [y])[..|a|] == a;
  }
}
