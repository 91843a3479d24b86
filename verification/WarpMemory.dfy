/**
  The methods of `warp_inst_t` in src/abstract_hardware_model.cc that turn the addresses of a
  warp's global or local memory instruction into memory transactions, proved against the rules
  of the modules `Coalescer` and `AtomicCoalescer`.
*/
module WarpMemory {
  import opened Coalescer
  import opened AtomicCoalescer
  import opened Collections

  // ---------------------------------------------------------------------------------
  // Chunk bits and the halves of the guide

  ghost predicate UsesChunk(used: set<nat>, base: nat) {
    exists u :: u in used && base <= u < base + 32
  }

  /** A chunk bit is set exactly when a byte of that chunk is used: this is where alignment
      matters, as only the chunk of a word's first byte is noted. */
  lemma ChunkBit(g: set<Access>, segment: nat, b: nat, c: nat)
    requires IsGroup(g, segment, b)
    ensures c in Chunks(g) <==> c < 4 && UsesChunk(Used(g), Line(b) + 32 * c)
  {
    hide Aligned, Block, Chunk;
    var start := Line(b) + 32 * c;
    if c in Chunks(g) {
      var x :| x in g && Chunk(x.addr) == c;
      assert x.addr in Words(x) by {
        PositiveSize(x);
      }
      assert x.addr in Used(g);
      ChunkOfWord(x, segment, x.addr, c);
    }
    if c < 4 && UsesChunk(Used(g), start) {
      var u :| u in Used(g) && start <= u < start + 32;
      var x :| x in g && u in Words(x);
      ChunkOfWord(x, segment, u, c);
    }
  }

  lemma ChunkOfWord(x: Access, segment: nat, u: nat, c: nat)
    requires WellFormed(x) && IsSize(segment) && u in Words(x)
    ensures var b := Block(x.addr, segment);
      Chunk(x.addr) == c <==> c < 4 && Line(b) + 32 * c <= u < Line(b) + 32 * c + 32
  {
    hide Aligned, Block;
    LineOfBlock(x.addr, segment);
    OneChunk(x.addr, x.size);
    InChunk(x.addr, u, c);
  }

  lemma InChunk(addr: nat, u: nat, c: nat)
    requires addr <= u < addr + 32 - addr % 32
    ensures Chunk(addr) == c <==> c < 4 && Line(addr) + 32 * c <= u < Line(addr) + 32 * c + 32
  {
    var r := addr % 128;
    var d := r / 32;
    ChunkOffset(addr);
    assert Line(addr) == addr - r && r == 32 * d + r % 32;
    assert Line(addr) + 32 * d <= u < Line(addr) + 32 * d + 32;
    if c < d {
      assert 32 * c + 32 <= 32 * d;
    } else if d < c {
      assert 32 * d + 32 <= 32 * c;
    }
  }

  lemma ChunkOffset(addr: nat)
    ensures addr % 32 == addr % 128 % 32 && addr % 128 / 32 < 4
  {
    var p, r := addr / 128, addr % 128;
    var d, e := r / 32, r % 32;
    assert addr == 32 * (4 * p + d) + e;
    Remainder32(4 * p + d, e);
  }

  lemma Remainder32(n: nat, e: nat)
    requires e < 32
    ensures (32 * n + e) % 32 == e
  {
  }

  lemma Narrow64(b: nat, used: set<nat>)
    requires used != {} && forall u :: u in used ==> b <= u < b + 64
    ensures UsesChunk(used, b) || UsesChunk(used, b + 32)
    ensures Narrow(b, 64, used) ==
      if !UsesChunk(used, b + 32) then (b, 32) else if !UsesChunk(used, b) then (b + 32, 32) else (b, 64)
  {
    var u :| u in used;
    assert UsesChunk(used, b) || UsesChunk(used, b + 32);
  }

  lemma Narrow128(b: nat, used: set<nat>)
    requires used != {} && forall u :: u in used ==> b <= u < b + 128
    ensures var low, high := UsesChunk(used, b) || UsesChunk(used, b + 32),
      UsesChunk(used, b + 64) || UsesChunk(used, b + 96);
      && (low || high)
      && (!high ==> (forall u :: u in used ==> u < b + 64) && Narrow(b, 128, used) == Narrow(b, 64, used))
      && (!low ==> (forall u :: u in used ==> b + 64 <= u) && Narrow(b, 128, used) == Narrow(b + 64, 64, used))
      && (low && high ==> Narrow(b, 128, used) == (b, 128))
  {
    forall u | u in used
      ensures UsesChunk(used, b) || UsesChunk(used, b + 32) || UsesChunk(used, b + 64) || UsesChunk(used, b + 96)
      ensures u < b + 64 ==> UsesChunk(used, b) || UsesChunk(used, b + 32)
      ensures u >= b + 64 ==> UsesChunk(used, b + 64) || UsesChunk(used, b + 96)
    {
      assert u < b + 32 ==> UsesChunk(used, b);
      assert b + 32 <= u < b + 64 ==> UsesChunk(used, b + 32);
      assert b + 64 <= u < b + 96 ==> UsesChunk(used, b + 64);
      assert b + 96 <= u ==> UsesChunk(used, b + 96);
    }
  }

  lemma Narrow32(b: nat, used: set<nat>)
    ensures Narrow(b, 32, used) == (b, 32)
  {
  }

  /** What the reduction may rely on. */
  lemma ChunkBits(g: set<Access>, segment: nat, b: nat)
    requires IsGroup(g, segment, b)
    ensures Aligned(b, segment) && Used(g) != {} && forall u :: u in Used(g) ==> b <= u < b + segment
    ensures Chunks(g) != {} && (segment == 128 ==> b % 128 == 0)
    ensures segment == 64 ==> b % 128 == 0 || b % 128 == 64
    ensures var line := Line(b);
      && (0 in Chunks(g) <==> UsesChunk(Used(g), line)) && (1 in Chunks(g) <==> UsesChunk(Used(g), line + 32))
      && (2 in Chunks(g) <==> UsesChunk(Used(g), line + 64)) && (3 in Chunks(g) <==> UsesChunk(Used(g), line + 96))
  {
    hide UsesChunk, Aligned, IsGroup, Chunks;
    SomeChunk(g, segment, b);
    GroupInSegment(g, segment, b);
    HalfOfLine(b, segment);
    ChunkBit(g, segment, b, 0);
    ChunkBit(g, segment, b, 1);
    ChunkBit(g, segment, b, 2);
    ChunkBit(g, segment, b, 3);
  }

  lemma SomeChunk(g: set<Access>, segment: nat, b: nat)
    requires IsGroup(g, segment, b)
    ensures Chunks(g) != {}
  {
    var x :| x in g;
    assert Chunk(x.addr) in Chunks(g);
  }

  lemma HalfOfLine(b: nat, segment: nat)
    requires Aligned(b, segment)
    ensures segment == 128 ==> b % 128 == 0
    ensures segment == 64 ==> b % 128 == 0 || b % 128 == 64
  {
  }

  // ---------------------------------------------------------------------------------
  // The requests of a subwarp

  /** Local memory words of four bytes or more are split into four-byte requests. */
  function AccessSize(dataSize: nat, isLocal: bool): nat {
    if isLocal && dataSize >= 4 then 4 else dataSize
  }

  function NumAccesses(dataSize: nat, isLocal: bool): nat {
    if isLocal && dataSize >= 4 then dataSize / 4 else 1
  }

  ghost function LaneRequests(lane: nat, addrs: seq<nat>, n: nat, size: nat): seq<Access>
    requires n <= |addrs|
  {
    if n == 0 then [] else LaneRequests(lane, addrs, n - 1, size) + [Access(lane, addrs[n - 1], size)]
  }

  /** Those of the active lanes from `lo` up to `hi`, lane by lane. */
  ghost function Requests(active: set<nat>, addrs: seq<seq<nat>>, lo: nat, hi: nat, n: nat, size: nat): seq<Access>
    requires lo <= hi <= |addrs| && forall t :: lo <= t < hi && t in active ==> n <= |addrs[t]|
    decreases hi
  {
    if lo == hi then []
    else Requests(active, addrs, lo, hi - 1, n, size) +
         if hi - 1 in active then LaneRequests(hi - 1, addrs[hi - 1], n, size) else []
  }

  // ---------------------------------------------------------------------------------
  // The maps the code builds

  const EMPTY := Info({}, {}, {})

  ghost function Added(info: Info, x: Access): Info {
    Info(info.chunks + {Chunk(x.addr)}, info.bytes + Offsets(x), info.active + {x.lane})
  }

  /** The one-pass map: what is known of each segment. */
  ghost predicate Tracks(m: map<nat, Info>, a: seq<Access>, segment: nat)
    requires segment > 0
  {
    m.Keys == Blocks(a, segment) && forall b :: b in m ==> m[b] == InfoOf(Group(a, segment, b))
  }

  lemma TracksNone(segment: nat)
    requires segment > 0
    ensures Tracks(map[], [], segment)
  {
  }

  lemma InfoGrows(g: set<Access>, x: Access)
    ensures InfoOf(g + {x}) == Added(InfoOf(g), x)
    ensures Added(EMPTY, x) == InfoOf({x})
  {
    hide Offsets, Chunk;
    assert Bytes(g + {x}) == Bytes(g) + Offsets(x);
    assert Bytes({x}) == Offsets(x);
  }

  lemma TracksMore(m: map<nat, Info>, a: seq<Access>, x: Access, segment: nat)
    requires segment > 0 && Tracks(m, a, segment)
    ensures var b := Block(x.addr, segment);
      Tracks(m[b := Added(if b in m then m[b] else EMPTY, x)], a + [x], segment)
  {
    hide Block, InfoOf, Added;
    var b := Block(x.addr, segment);
    InfoGrows(Group(a, segment, b), x);
    InfoGrows({}, x);
    assert b !in m ==> Group(a, segment, b) == {};
    forall c ensures Group(a + [x], segment, c) == if c == b then Group(a, segment, c) + {x} else Group(a, segment, c) {
    }
    assert {x} == {} + {x};
  }

  // ---------------------------------------------------------------------------------
  // The map of transaction lists of the atomic variant

  ghost predicate Layered(m: map<nat, seq<Info>>, a: seq<Access>, segment: nat)
    requires segment > 0
  {
    && m.Keys == Blocks(a, segment)
    && forall b :: b in m ==> IsLayers(m[b], a, segment, b)
  }

  ghost predicate IsLayers(list: seq<Info>, a: seq<Access>, segment: nat, b: nat)
    requires segment > 0
  {
    |list| == Depth(a, segment, b) && forall k :: 0 <= k < |list| ==> list[k] == InfoOf(Layer(a, segment, b, k))
  }

  ghost predicate Clash(bytes: set<nat>, idx: nat, size: nat) {
    exists i :: idx <= i < idx + size && i in bytes
  }

  ghost predicate IsFirstFit(list: seq<Info>, idx: nat, size: nat, k: nat) {
    && k <= |list| && (forall j :: 0 <= j < k ==> Clash(list[j].bytes, idx, size))
    && (k < |list| ==> !Clash(list[k].bytes, idx, size))
  }

  /** The list after the access has gone to transaction `k`. */
  ghost function Placed(list: seq<Info>, k: nat, x: Access): seq<Info>
    requires k <= |list|
  {
    if k < |list| then list[k := Added(list[k], x)] else list + [Added(EMPTY, x)]
  }

  lemma LayeredNone(segment: nat)
    requires segment > 0
    ensures Layered(map[], [], segment)
  {
  }

  lemma NoLayers(a: seq<Access>, segment: nat, b: nat)
    requires segment > 0 && b !in Blocks(a, segment)
    ensures IsLayers([], a, segment, b)
  {
    forall x | x in Layer(a, segment, b, 0) ensures x in a && Block(x.addr, segment) == b {
    }
    assert Layer(a, segment, b, 0) == {};
    if Depth(a, segment, b) > 0 {
      LayerNotEmpty(a, segment, b, 0);
    }
  }

  /** First fit finds the lane's rank. */
  lemma FitIsRank(list: seq<Info>, a: seq<Access>, x: Access, segment: nat, k: nat)
    requires Uniform(a + [x], x.size) && IsSize(segment)
    requires IsLayers(list, a, segment, Block(x.addr, segment)) && IsFirstFit(list, Offset(x.addr), x.size, k)
    ensures k == Count(a, x.addr)
  {
    hide Block, Offset, Count, Uniform;
    DepthGrows(a, x, segment, Block(x.addr, segment));
    var j := if k < Count(a, x.addr) then k else Count(a, x.addr);
    FirstFitIsRank(a, x, x.size, segment, j);
    ClashIff(x, Bytes(Layer(a, segment, Block(x.addr, segment), j)));
  }

  lemma ClashIff(x: Access, bytes: set<nat>)
    ensures Clash(bytes, Offset(x.addr), x.size) <==> exists i :: i in Offsets(x) && i in bytes
  {
  }

  lemma LayersMore(list: seq<Info>, a: seq<Access>, x: Access, segment: nat)
    requires segment > 0 && IsLayers(list, a, segment, Block(x.addr, segment))
    ensures Count(a, x.addr) <= |list|
    ensures IsLayers(Placed(list, Count(a, x.addr), x), a + [x], segment, Block(x.addr, segment))
  {
    hide Block, Count, InfoOf, Added;
    var b, r := Block(x.addr, segment), Count(a, x.addr);
    DepthGrows(a, x, segment, b);
    var list' := Placed(list, r, x);
    forall k | 0 <= k < |list'| ensures list'[k] == InfoOf(Layer(a + [x], segment, b, k)) {
      LayerGrows(a, x, segment, b, k);
      InfoGrows(Layer(a, segment, b, k), x);
      if k == |list| {
        NextLayerEmpty(a, segment, b);
        assert {} + {x} == {x};
      }
    }
  }

  lemma NextLayerEmpty(a: seq<Access>, segment: nat, b: nat)
    requires segment > 0
    ensures Layer(a, segment, b, Depth(a, segment, b)) == {}
  {
    DepthIsLargestCount(a, segment, b);
    if x :| x in Layer(a, segment, b, Depth(a, segment, b)) {
      var i :| 0 <= i < |a| && Block(a[i].addr, segment) == b && Rank(a, i) == Depth(a, segment, b) && a[i] == x;
      RankBelowCount(a, i);
      assert false;
    }
  }

  lemma LayersElsewhere(list: seq<Info>, a: seq<Access>, x: Access, segment: nat, b: nat)
    requires segment > 0 && b != Block(x.addr, segment) && IsLayers(list, a, segment, b)
    ensures IsLayers(list, a + [x], segment, b)
  {
    hide Block, Depth, Layer;
    DepthGrows(a, x, segment, b);
    forall k: nat ensures Layer(a + [x], segment, b, k) == Layer(a, segment, b, k) {
      LayerGrows(a, x, segment, b, k);
    }
  }

  lemma LayeredMore(m: map<nat, seq<Info>>, a: seq<Access>, x: Access, segment: nat)
    requires segment > 0 && Layered(m, a, segment)
    ensures var b := Block(x.addr, segment);
      var list := if b in m then m[b] else [];
      && IsLayers(list, a, segment, b) && Count(a, x.addr) <= |list|
      && Layered(m[b := Placed(list, Count(a, x.addr), x)], a + [x], segment)
  {
    hide Block, Count, IsLayers, Placed;
    var b := Block(x.addr, segment);
    if b !in m {
      NoLayers(a, segment, b);
    }
    var list := if b in m then m[b] else [];
    LayersMore(list, a, x, segment);
    var m' := m[b := Placed(list, Count(a, x.addr), x)];
    forall c | c in m' ensures IsLayers(m'[c], a + [x], segment, c) {
      if c != b {
        LayersElsewhere(m[c], a, x, segment, c);
      }
    }
  }

  /** The first lane of a subwarp. */
  function PartStart(warpSize: nat, parts: nat, part: nat): nat
    requires parts > 0
  {
    part * (warpSize / parts)
  }

  lemma PartBounds(warpSize: nat, parts: nat, part: nat)
    requires parts > 0 && warpSize % parts == 0 && part < parts
    ensures PartStart(warpSize, parts, part) <= PartStart(warpSize, parts, part + 1) <= warpSize
  {
    var size := warpSize / parts;
    Scaled(part, part + 1, size);
    Scaled(part + 1, parts, size);
    assert parts * size == warpSize;
  }

  /** The subwarps cover the warp, each lane once. */
  lemma PartOf(warpSize: nat, parts: nat, t: nat) returns (part: nat)
    requires parts > 0 && warpSize % parts == 0 && t < warpSize
    ensures part < parts && part * (warpSize / parts) <= t < (part + 1) * (warpSize / parts)
    ensures forall p: nat :: PartStart(warpSize, parts, p) <= t < PartStart(warpSize, parts, p + 1) <==> p == part
  {
    var size := warpSize / parts;
    assert parts * size == warpSize;
    assert size > 0;
    part := t / size;
    assert part * size <= t < (part + 1) * size by {
      assert t == part * size + t % size;
      assert (part + 1) * size == part * size + size;
    }
    if part >= parts {
      Scaled(parts, part, size);
    }
    forall p: nat ensures PartStart(warpSize, parts, p) <= t < PartStart(warpSize, parts, p + 1) <==> p == part {
      if p < part {
        Scaled(p + 1, part, size);
      } else if p > part {
        Scaled(part + 1, p, size);
      }
    }
  }

  lemma ServedInPass(a: seq<Access>, segment: nat, x: Access) returns (i: nat)
    requires AllWellFormed(a) && IsSize(segment) && x in a
    ensures var q := OnePass(a, segment);
      && i < |q| && Inside(x, q[i]) && x.lane in q[i].active && Offsets(x) <= q[i].bytes
      && forall j :: 0 <= j < |q| && j != i ==> Apart(q[i], q[j])
  {
    hide Smallest, Block, TransactionOf, Group, AllWellFormed, Inside, Offsets;
    var bs := Ascending(Blocks(a, segment));
    ServedExactlyOnce(a, segment, bs);
    var q := Emit(a, segment, bs);
    i :| 0 <= i < |q| && Inside(x, q[i]);
    assert x in ServedBy(a, q[i]);
    hide ServedBy, Lanes, Bytes, Used;
    forall j | 0 <= j < |q| && j != i ensures Apart(q[i], q[j]) {
      assert i < j ==> Apart(q[i], q[j]);
      assert j < i ==> Apart(q[j], q[i]);
    }
  }

  /** The transaction has the piece of memory, the lane's bit, and the bits of its bytes. */
  ghost predicate Holds(q: Transaction, t: nat, addr: nat, size: nat) {
    && q.addr <= addr && addr + size <= q.addr + q.size && t in q.active
    && forall b :: addr <= b < addr + size ==> HasByte(q, b)
  }

  ghost predicate HasByte(q: Transaction, b: nat) {
    b % 128 in q.bytes
  }

  lemma HoldsIf(q: Transaction, x: Access)
    requires WellFormed(x)
    requires Inside(x, q) && x.lane in q.active && Offsets(x) <= q.bytes
    ensures Holds(q, x.lane, x.addr, x.size)
  {
    OneChunk(x.addr, x.size);
    forall b | x.addr <= b < x.addr + x.size ensures HasByte(q, b) {
      SameQuotient(b, x.addr / 128);
      assert b % 128 == x.addr % 128 + (b - x.addr);
      assert b % 128 in Offsets(x);
    }
  }

  class WarpInst {
    const warpSize: nat
    const memWarpParts: nat
    var dataSize: nat
    var isLocal: bool
    var active: set<nat>
    /** `memreqaddr` of each lane. */
    var addrs: seq<seq<nat>>
    var accessq: seq<Transaction>

    /** `memory_coalescing_arch_13_reduce_and_send`. */
    method ReduceAndSend(info: Info, block: nat, segment: nat, ghost g: set<Access>)
      requires IsGroup(g, segment, block) && info == InfoOf(g)
      modifies `accessq
      ensures accessq == old(accessq) + [TransactionOf(g, segment, block)]
    {
      hide UsesChunk, Narrow, IsGroup, Aligned;
      ghost var used := Used(g);
      ChunkBits(g, segment, block);
      assert Aligned(block, segment) && info.chunks != {};
      var q := info.chunks;
      var h: set<nat> := {};
      var addr, size := block, segment;
      assert IsSize(segment) by {
        GroupInSegment(g, segment, block);
      }
      if segment == 128 {
        Narrow128(block, used);
        var lowerHalfUsed := 0 in q || 1 in q;
        var upperHalfUsed := 2 in q || 3 in q;
        if lowerHalfUsed && !upperHalfUsed {
          size := 64;
          if 0 in q { h := h + {0}; }
          if 1 in q { h := h + {1}; }
        } else if !lowerHalfUsed && upperHalfUsed {
          addr := addr + 64;
          size := 64;
          if 2 in q { h := h + {0}; }
          if 3 in q { h := h + {1}; }
        } else {
          assert lowerHalfUsed && upperHalfUsed;
        }
      } else if segment == 64 {
        if addr % 128 == 0 {
          if 0 in q { h := h + {0}; }
          if 1 in q { h := h + {1}; }
        } else {
          assert addr % 128 == 64;
          if 2 in q { h := h + {0}; }
          if 3 in q { h := h + {1}; }
        }
      }
      assert size == 64 ==> (0 in h <==> UsesChunk(used, addr)) && (1 in h <==> UsesChunk(used, addr + 32));
      assert Narrow(block, segment, used) == Narrow(addr, size, used);
      Narrow32(addr, used);
      if size == 64 {
        Narrow64(addr, used);
        var lowerHalfUsed := 0 in h;
        var upperHalfUsed := 1 in h;
        if lowerHalfUsed && !upperHalfUsed {
          size := 32;
        } else if !lowerHalfUsed && upperHalfUsed {
          addr := addr + 32;
          size := 32;
        } else {
          assert lowerHalfUsed && upperHalfUsed;
        }
      }
      accessq := accessq + [Transaction(addr, size, info.active, info.bytes)];
    }

    /** The requests the source relies on: whole subwarps, a word size it knows, and aligned
        addresses for the active lanes. */
    ghost predicate Valid()
      reads `dataSize, `isLocal, `active, `addrs
    {
      && memWarpParts > 0 && warpSize % memWarpParts == 0 && |addrs| == warpSize
      && SegmentSize(dataSize) > 0
      && forall t :: 0 <= t < warpSize && t in active ==>
           && |addrs[t]| == MAX_ACCESSES_PER_INSN_PER_THREAD
           && forall k :: 0 <= k < NumAccesses(dataSize, isLocal) ==>
             WellFormed(Access(t, addrs[t][k], AccessSize(dataSize, isLocal)))
    }

    /** The requests of the lanes from `lo` up to `hi`. */
    ghost function Lanes(lo: nat, hi: nat): seq<Access>
      requires Valid() && lo <= hi <= warpSize
      reads `dataSize, `isLocal, `active, `addrs
    {
      Requests(active, addrs, lo, hi, NumAccesses(dataSize, isLocal), AccessSize(dataSize, isLocal))
    }

    /** The loop that sets the byte bits. */
    static method SetBytes(bytes: set<nat>, idx: nat, size: nat) returns (r: set<nat>)
      ensures r == bytes + Interval(idx, idx + size)
    {
      r := bytes;
      for i := 0 to size
        invariant r == bytes + Interval(idx, idx + i)
      {
        r := r + {idx + i};
      }
    }

    /** One request is noted in the entry of its segment. */
    static method Note(m: map<nat, Info>, t: nat, addr: nat, size: nat, segment: nat, ghost a: seq<Access>)
      returns (r: map<nat, Info>)
      requires WellFormed(Access(t, addr, size)) && IsSize(segment) && Tracks(m, a, segment)
      ensures Tracks(r, a + [Access(t, addr, size)], segment)
    {
      hide Tracks, Block, Chunk, Aligned;
      PositiveSize(Access(t, addr, size));
      InBlock(addr, segment);
      OneSegment(addr, size, segment);
      var block := Block(addr, segment) % TWO_32;
      assert block == Block(addr + size - 1, segment);
      var info := if block in m then m[block] else EMPTY;
      var bytes := SetBytes(info.bytes, Offset(addr), size);
      TracksMore(m, a, Access(t, addr, size), segment);
      r := m[block := Info(info.chunks + {Chunk(addr)}, bytes, info.active + {t})];
    }

    /** Step 1 of `memory_coalescing_arch_13` for one subwarp. */
    method FindTransactions(lo: nat, hi: nat, segment: nat) returns (m: map<nat, Info>)
      requires Valid() && lo <= hi <= warpSize && segment == SegmentSize(dataSize)
      ensures Tracks(m, Lanes(lo, hi), segment)
    {
      hide Tracks, Block;
      var size, n := AccessSize(dataSize, isLocal), NumAccesses(dataSize, isLocal);
      m := map[];
      TracksNone(segment);
      for t := lo to hi
        invariant Tracks(m, Requests(active, addrs, lo, t, n, size), segment)
      {
        assert Requests(active, addrs, lo, t, n, size) + [] == Requests(active, addrs, lo, t, n, size);
        if t in active {
          assert n <= MAX_ACCESSES_PER_INSN_PER_THREAD;
          ghost var before := Requests(active, addrs, lo, t, n, size);
          for k := 0 to n
            invariant Tracks(m, before + LaneRequests(t, addrs[t], k, size), segment)
          {
            ghost var a, x := before + LaneRequests(t, addrs[t], k, size), Access(t, addrs[t][k], size);
            m := Note(m, t, addrs[t][k], size, segment, a);
            assert a + [x] == before + LaneRequests(t, addrs[t], k + 1, size);
          }
        }
      }
    }

    /** Step 2: the map in key order. */
    method SendTransactions(m: map<nat, Info>, segment: nat, ghost a: seq<Access>)
      requires IsSize(segment) && AllWellFormed(a) && Tracks(m, a, segment)
      modifies `accessq
      ensures accessq == old(accessq) + OnePass(a, segment)
    {
      hide Tracks, AllWellFormed, IsGroup, TransactionOf, InfoOf, Emit, Blocks;
      ghost var all, sent := Ascending(Blocks(a, segment)), 0;
      TrackedKeys(m, a, segment);
      var rest := m.Keys;
      assert all[..0] == [] && all[0..] == all;
      EmitNone(a, segment);
      while rest != {}
        invariant 0 <= sent <= |all| && forall b :: b in rest <==> b in all[sent..]
        invariant accessq == old(accessq) + Emit(a, segment, all[..sent])
        decreases |all| - sent
      {
        HasLeast(rest);
        var b: nat :| b in rest && forall c :: c in rest ==> b <= c;
        FirstOfRest(all, sent, rest, b);
        TrackedEntry(m, a, segment, b);
        ReduceAndSend(m[b], b, segment, Group(a, segment, b));
        EmitOneMore(a, segment, all, sent);
        Associative(old(accessq), Emit(a, segment, all[..sent]), [TransactionOf(Group(a, segment, b), segment, b)]);
        rest := rest - {b};
        sent := sent + 1;
      }
      NoneLeft(all, sent);
    }

    /** `memory_coalescing_arch_13`: the transactions of each subwarp in turn. */
    method MemoryCoalescingArch13()
      requires Valid()
      modifies `accessq
      ensures accessq == old(accessq) + Sent(memWarpParts)
    {
      hide OnePass, Valid;
      SegmentIsSize();
      var segment := SegmentSize(dataSize);
      for subwarp := 0 to memWarpParts
        invariant accessq == old(accessq) + Sent(subwarp)
      {
        PartBounds(warpSize, memWarpParts, subwarp);
        var lo, hi := PartStart(warpSize, memWarpParts, subwarp), PartStart(warpSize, memWarpParts, subwarp + 1);
        var m := FindTransactions(lo, hi, segment);
        LanesWellFormed(lo, hi);
        SendTransactions(m, segment, Lanes(lo, hi));
        Associative(old(accessq), Sent(subwarp), OnePass(Lanes(lo, hi), segment));
      }
    }

    lemma SegmentIsSize()
      requires Valid()
      ensures memWarpParts > 0 && warpSize % memWarpParts == 0 && IsSize(SegmentSize(dataSize))
    {
    }

    /** The transactions of the first subwarps. */
    ghost function Sent(parts: nat): seq<Transaction>
      requires Valid() && parts <= memWarpParts
      reads `dataSize, `isLocal, `active, `addrs
    {
      if parts == 0 then []
      else
        Sent(parts - 1) + OnePass(Subwarp(parts - 1), SegmentSize(dataSize))
    }

    lemma LanesWellFormed(lo: nat, hi: nat)
      requires Valid() && lo <= hi <= warpSize
      ensures AllWellFormed(Lanes(lo, hi))
      decreases hi
    {
      if lo < hi {
        LanesWellFormed(lo, hi - 1);
        if hi - 1 in active {
          LaneWellFormed(hi - 1, NumAccesses(dataSize, isLocal));
        }
      }
    }

    lemma LaneWellFormed(t: nat, n: nat)
      requires Valid() && t < warpSize && t in active && n <= NumAccesses(dataSize, isLocal)
      ensures AllWellFormed(LaneRequests(t, addrs[t], n, AccessSize(dataSize, isLocal)))
    {
    }

    /** The `k`-th piece of the word of lane `t`: a word of 4, 8 or 16 bytes of local memory has
        one for each four bytes, any other word is of one piece. */
    ghost predicate IsPiece(t: nat, k: nat, addr: nat, size: nat)
      reads `dataSize, `isLocal, `active, `addrs
    {
      && t < |addrs| && t in active && k < |addrs[t]| && addr == addrs[t][k]
      && if isLocal && dataSize >= 4 then 4 * k < dataSize && size == 4 else k == 0 && size == dataSize
    }

    lemma PieceIff(t: nat, k: nat, addr: nat, size: nat)
      requires Valid()
      ensures IsPiece(t, k, addr, size) <==>
        && t < warpSize && t in active && k < NumAccesses(dataSize, isLocal) && addrs[t][k] == addr
        && size == AccessSize(dataSize, isLocal)
    {
    }

    /** A subwarp makes exactly the requests of its active lanes. */
    lemma RequestIff(lo: nat, hi: nat, x: Access)
      requires Valid() && lo <= hi <= warpSize
      ensures x in Lanes(lo, hi) <==> lo <= x.lane < hi && exists k :: IsPiece(x.lane, k, x.addr, x.size)
    {
      AccessIff(lo, hi, x);
      forall k: nat
        ensures IsPiece(x.lane, k, x.addr, x.size) <==>
          && x.lane < warpSize && x.lane in active && k < NumAccesses(dataSize, isLocal)
          && addrs[x.lane][k] == x.addr && x.size == AccessSize(dataSize, isLocal)
      {
        PieceIff(x.lane, k, x.addr, x.size);
      }
    }

    lemma AccessIff(lo: nat, hi: nat, x: Access)
      requires Valid() && lo <= hi <= warpSize
      ensures x in Lanes(lo, hi) <==>
        && lo <= x.lane < hi && x.lane in active && x.size == AccessSize(dataSize, isLocal)
        && exists k :: 0 <= k < NumAccesses(dataSize, isLocal) && addrs[x.lane][k] == x.addr
      decreases hi
    {
      if lo < hi {
        AccessIff(lo, hi - 1, x);
        if hi - 1 in active {
          LaneRequestIff(hi - 1, NumAccesses(dataSize, isLocal), x);
        }
      }
    }

    lemma {:induction false} LaneRequestIff(t: nat, n: nat, x: Access)
      requires Valid() && t < warpSize && t in active && n <= NumAccesses(dataSize, isLocal)
      ensures x in LaneRequests(t, addrs[t], n, AccessSize(dataSize, isLocal)) <==>
        x.lane == t && x.size == AccessSize(dataSize, isLocal) && exists k :: 0 <= k < n && addrs[t][k] == x.addr
    {
      if n == 0 {
      } else {
        LaneRequestIff(t, n - 1, x);
      }
    }

    ghost function Subwarp(p: nat): seq<Access>
      requires Valid() && p < memWarpParts
      reads `dataSize, `isLocal, `active, `addrs
    {
      PartBounds(warpSize, memWarpParts, p);
      Lanes(PartStart(warpSize, memWarpParts, p), PartStart(warpSize, memWarpParts, p + 1))
    }

    /** Every piece is requested in the subwarp of its lane and in no other. */
    lemma LaneInOneSubwarp(t: nat, k: nat, addr: nat, size: nat) returns (part: nat)
      requires Valid() && IsPiece(t, k, addr, size)
      ensures part < memWarpParts
      ensures part * (warpSize / memWarpParts) <= t < (part + 1) * (warpSize / memWarpParts)
      ensures forall p :: 0 <= p < memWarpParts ==> (Access(t, addr, size) in Subwarp(p) <==> p == part)
    {
      var x := Access(t, addr, size);
      PieceIff(t, k, addr, size);
      SegmentIsSize();
      hide *;
      part := PartOf(warpSize, memWarpParts, t);
      forall p: nat | p < memWarpParts ensures x in Subwarp(p) <==> p == part {
        SubwarpIs(p);
        RequestIff(PartStart(warpSize, memWarpParts, p), PartStart(warpSize, memWarpParts, p + 1), x);
      }
    }

    lemma SubwarpIs(p: nat)
      requires Valid() && p < memWarpParts
      ensures PartStart(warpSize, memWarpParts, p) <= PartStart(warpSize, memWarpParts, p + 1) <= warpSize
      ensures Subwarp(p) == Lanes(PartStart(warpSize, memWarpParts, p), PartStart(warpSize, memWarpParts, p + 1))
    {
      PartBounds(warpSize, memWarpParts, p);
    }

    /** The subwarp loses no piece: each lies whole in one of its transactions, which has the
        lane's bit and the bytes' bits, and away from all others. */
    lemma WordServedOnce(t: nat, k: nat, addr: nat, size: nat) returns (part: nat, i: nat)
      requires Valid() && IsPiece(t, k, addr, size)
      ensures part < memWarpParts
      ensures part * (warpSize / memWarpParts) <= t < (part + 1) * (warpSize / memWarpParts)
      ensures var q := OnePass(Subwarp(part), SegmentSize(dataSize));
        i < |q| && Holds(q[i], t, addr, size) && forall j :: 0 <= j < |q| && j != i ==> Apart(q[i], q[j])
    {
      hide OnePass, Smallest, Apart;
      part := LaneInOneSubwarp(t, k, addr, size);
      var x, segment := Access(t, addr, size), SegmentSize(dataSize);
      var a := Subwarp(part);
      PartBounds(warpSize, memWarpParts, part);
      LanesWellFormed(PartStart(warpSize, memWarpParts, part), PartStart(warpSize, memWarpParts, part + 1));
      i := ServedInPass(a, segment, x);
      HoldsIf(OnePass(a, segment)[i], x);
    }

    // -------------------------------------------------------------------------------
    // Atomics

    /** `transaction_info::test_bytes`. */
    static method TestBytes(bytes: set<nat>, start: nat, end: nat) returns (r: bool)
      ensures r <==> exists i :: start <= i <= end && i in bytes
    {
      var i := start;
      while i <= end
        invariant start <= i
        invariant forall k :: start <= k < i ==> k !in bytes
        decreases end + 1 - i
      {
        if i in bytes {
          return true;
        }
        i := i + 1;
      }
      return false;
    }

    /** The first transaction the access does not meet, or one past the last. */
    static method FirstFit(list: seq<Info>, idx: nat, size: nat) returns (k: nat)
      requires size > 0
      ensures IsFirstFit(list, idx, size, k)
    {
      k := 0;
      while k < |list|
        invariant k <= |list| && forall j :: 0 <= j < k ==> Clash(list[j].bytes, idx, size)
      {
        var meets := TestBytes(list[k].bytes, idx, idx + size - 1);
        if !meets {
          return;
        }
        k := k + 1;
      }
    }

    /** One atomic goes to the first transaction of its segment that has no byte of it. */
    static method Place(m: map<nat, seq<Info>>, t: nat, addr: nat, size: nat, segment: nat, ghost a: seq<Access>)
        returns (r: map<nat, seq<Info>>)
      requires IsSize(segment) && Layered(m, a, segment) && Uniform(a + [Access(t, addr, size)], size)
      ensures Layered(r, a + [Access(t, addr, size)], segment)
    {
      hide Layered, IsLayers, Block, Chunk, Aligned, Offset, Count;
      ghost var x := Access(t, addr, size);
      assert WellFormed((a + [x])[|a|]);
      PositiveSize(x);
      InBlock(addr, segment);
      OneSegment(addr, size, segment);
      var block := Block(addr, segment) % TWO_32;
      assert block == Block(addr + size - 1, segment);
      var list := if block in m then m[block] else [];
      LayeredMore(m, a, x, segment);
      var k := FirstFit(list, Offset(addr), size);
      FitIsRank(list, a, x, segment, k);
      var info := if k < |list| then list[k] else EMPTY;
      assert !Clash(info.bytes, Offset(addr), size);
      var bytes := SetBytes(info.bytes, Offset(addr), size);
      info := Info(info.chunks + {Chunk(addr)}, bytes, info.active + {t});
      r := m[block := if k < |list| then list[k := info] else list + [info]];
    }

    /** Step 1 of `memory_coalescing_arch_13_atomic` for one subwarp. */
    method FindLists(lo: nat, hi: nat, segment: nat) returns (m: map<nat, seq<Info>>)
      requires Valid() && !isLocal && lo <= hi <= warpSize && segment == SegmentSize(dataSize)
      ensures Layered(m, Lanes(lo, hi), segment)
    {
      hide Layered, Block, Uniform;
      m := map[];
      LayeredNone(segment);
      for t := lo to hi
        invariant Layered(m, Lanes(lo, t), segment)
      {
        NextLane(lo, t);
        if t in active {
          m := Place(m, t, addrs[t][0], dataSize, segment, Lanes(lo, t));
        }
      }
    }

    lemma NextLane(lo: nat, t: nat)
      requires Valid() && !isLocal && lo <= t < warpSize
      ensures |addrs| == warpSize && (t !in active ==> Lanes(lo, t + 1) == Lanes(lo, t))
      ensures t in active ==> addrs[t] != [] && Lanes(lo, t + 1) == Lanes(lo, t) + [Access(t, addrs[t][0], dataSize)]
      ensures Uniform(Lanes(lo, t + 1), dataSize)
    {
      LanesUniform(lo, t + 1);
      assert t in active ==> LaneRequests(t, addrs[t], 1, dataSize) == [] + [Access(t, addrs[t][0], dataSize)];
    }

    lemma LanesUniform(lo: nat, hi: nat)
      requires Valid() && !isLocal && lo <= hi <= warpSize
      ensures Uniform(Lanes(lo, hi), dataSize)
      ensures forall x :: x in Lanes(lo, hi) ==> x.lane < hi
      decreases hi
    {
      if lo < hi {
        LanesUniform(lo, hi - 1);
        assert hi - 1 in active ==>
          LaneRequests(hi - 1, addrs[hi - 1], 1, dataSize) == [] + [Access(hi - 1, addrs[hi - 1][0], dataSize)];
      }
    }

    /** Step 2: the lists in key order, each from its front. */
    method SendLists(m: map<nat, seq<Info>>, segment: nat, ghost a: seq<Access>)
      requires IsSize(segment) && AllWellFormed(a) && Layered(m, a, segment)
      modifies `accessq
      ensures accessq == old(accessq) + AtomicPass(a, segment)
    {
      hide Layered, AllWellFormed, EmitSlots, Blocks, Slots;
      ghost var all, sent := Ascending(Blocks(a, segment)), 0;
      LayeredKeys(m, a, segment);
      var rest := m.Keys;
      assert all[..0] == [] && all[0..] == all;
      EmitNoSlots(a, segment);
      while rest != {}
        invariant 0 <= sent <= |all| && forall b :: b in rest <==> b in all[sent..]
        invariant accessq == old(accessq) + EmitSlots(a, segment, all[..sent])
        decreases |all| - sent
      {
        HasLeast(rest);
        var b: nat :| b in rest && forall c :: c in rest ==> b <= c;
        FirstOfRest(all, sent, rest, b);
        SendList(m, b, segment, a);
        EmitSlotsOneMore(a, segment, all, sent);
        Associative(old(accessq), EmitSlots(a, segment, all[..sent]), Slots(a, segment, b, Depth(a, segment, b)));
        rest := rest - {b};
        sent := sent + 1;
      }
      NoneLeft(all, sent);
    }

    method SendList(m: map<nat, seq<Info>>, b: nat, segment: nat, ghost a: seq<Access>)
      requires IsSize(segment) && AllWellFormed(a) && Layered(m, a, segment) && b in Ascending(Blocks(a, segment))
      modifies `accessq
      ensures b in m && accessq == old(accessq) + Slots(a, segment, b, Depth(a, segment, b))
    {
      hide AllWellFormed, IsGroup, TransactionOf, Layer, Depth, InfoOf;
      var list := m[b];
      assert IsLayers(list, a, segment, b);
      for k := 0 to |list|
        invariant accessq == old(accessq) + Slots(a, segment, b, k)
      {
        LayerIsGroup(a, segment, b, k);
        ReduceAndSend(list[k], b, segment, Layer(a, segment, b, k));
        Associative(old(accessq), Slots(a, segment, b, k), [TransactionOf(Layer(a, segment, b, k), segment, b)]);
      }
    }

    /** `memory_coalescing_arch_13_atomic`, which always works on half warps. */
    method MemoryCoalescingArch13Atomic()
      requires Valid() && !isLocal && warpSize % 2 == 0
      modifies `accessq
      ensures accessq == old(accessq) + SentAtomic(2)
    {
      hide AtomicPass, Valid;
      SegmentIsSize();
      var segment := SegmentSize(dataSize);
      for subwarp := 0 to 2
        invariant accessq == old(accessq) + SentAtomic(subwarp)
      {
        PartBounds(warpSize, 2, subwarp);
        var lo, hi := PartStart(warpSize, 2, subwarp), PartStart(warpSize, 2, subwarp + 1);
        var m := FindLists(lo, hi, segment);
        LanesWellFormed(lo, hi);
        SendLists(m, segment, Lanes(lo, hi));
        Associative(old(accessq), SentAtomic(subwarp), AtomicPass(Lanes(lo, hi), segment));
      }
    }

    ghost function SentAtomic(parts: nat): seq<Transaction>
      requires Valid() && !isLocal && warpSize % 2 == 0 && parts <= 2
      reads `dataSize, `isLocal, `active, `addrs
    {
      if parts == 0 then []
      else
        PartBounds(warpSize, 2, parts - 1);
        SentAtomic(parts - 1) + AtomicPass(Lanes(PartStart(warpSize, 2, parts - 1), PartStart(warpSize, 2, parts)),
          SegmentSize(dataSize))
    }

    /** What some lanes send for one of them that is active. */
    lemma MemberServed(lo: nat, hi: nat, t: nat)
      requires Valid() && !isLocal && lo <= t < hi <= warpSize && t in active
      ensures var q := AtomicPass(Lanes(lo, hi), SegmentSize(dataSize));
        Carriers(q, t) == 1 && addrs[t] != [] && AllCarry(q, t, Access(t, addrs[t][0], dataSize))
    {
      var a := Lanes(lo, hi);
      LanesUniform(lo, hi);
      SegmentIsSize();
      var x := Access(t, addrs[t][0], dataSize);
      assert IsPiece(t, 0, x.addr, x.size);
      RequestIff(lo, hi, x);
      assert WellFormed(x);
      hide *;
      var i :| 0 <= i < |a| && a[i] == x;
      LaneServedOnce(a, dataSize, SegmentSize(dataSize), i);
      CarryIf(AtomicPass(a, SegmentSize(dataSize)), x);
    }

    /** They send nothing for any other lane. */
    lemma OthersNotServed(lo: nat, hi: nat, t: nat)
      requires Valid() && !isLocal && lo <= hi <= warpSize && !(t in active && lo <= t < hi)
      ensures var q := AtomicPass(Lanes(lo, hi), SegmentSize(dataSize));
        Carriers(q, t) == 0 && forall i :: 0 <= i < |q| ==> t !in q[i].active
    {
      var a, segment := Lanes(lo, hi), SegmentSize(dataSize);
      SegmentIsSize();
      forall i | 0 <= i < |a| ensures a[i].lane != t {
        RequestIff(lo, hi, a[i]);
      }
      hide *;
      PassOf(a, segment);
      StrangerNotServed(a, segment, Ascending(Blocks(a, segment)), t);
      NoCarriers(AtomicPass(a, segment), t);
    }

    /** What one half warp sends for a lane: one transaction if the lane is active and belongs
        to it, and none otherwise. */
    lemma HalfServes(half: nat, t: nat)
      requires Valid() && !isLocal && warpSize % 2 == 0 && half < 2 && t < warpSize
      ensures PartStart(warpSize, 2, half) <= PartStart(warpSize, 2, half + 1) <= warpSize
      ensures var q := AtomicPass(Lanes(PartStart(warpSize, 2, half), PartStart(warpSize, 2, half + 1)),
        SegmentSize(dataSize));
        && Carriers(q, t) == (if t in active && PartStart(warpSize, 2, half) <= t < PartStart(warpSize, 2,
          half + 1) then 1 else 0)
        && (t in active ==> AllCarry(q, t, Access(t, addrs[t][0], dataSize)))
    {
      PartBounds(warpSize, 2, half);
      var lo, hi := PartStart(warpSize, 2, half), PartStart(warpSize, 2, half + 1);
      hide AtomicPass, PartStart, Carriers, Inside, Offsets, SegmentSize;
      if t in active && lo <= t < hi {
        MemberServed(lo, hi, t);
      } else {
        OthersNotServed(lo, hi, t);
      }
    }

    /** The whole warp: each active lane is in exactly one of the transactions that the atomic
        sends, which has all of its word and its bytes; a lane that is not active is in none. */
    lemma AtomicServedOnce(t: nat)
      requires Valid() && !isLocal && warpSize % 2 == 0 && t < warpSize
      ensures Carriers(SentAtomic(2), t) == if t in active then 1 else 0
      ensures t in active ==> addrs[t] != [] && AllCarry(SentAtomic(2), t, Access(t, addrs[t][0], dataSize))
    {
      HalfServes(0, t);
      HalfServes(1, t);
      var half := PartOf(warpSize, 2, t);
      BothHalves(t);
    }

    lemma BothHalves(t: nat)
      requires Valid() && !isLocal && warpSize % 2 == 0
      requires PartStart(warpSize, 2, 0) <= PartStart(warpSize, 2, 1) <= PartStart(warpSize, 2, 2) <= warpSize
      ensures var segment := SegmentSize(dataSize);
        var p, q := AtomicPass(Lanes(PartStart(warpSize, 2, 0), PartStart(warpSize, 2, 1)), segment),
                    AtomicPass(Lanes(PartStart(warpSize, 2, 1), PartStart(warpSize, 2, 2)), segment);
        SentAtomic(2) == p + q && Carriers(p + q, t) == Carriers(p, t) + Carriers(q, t)
    {
      hide AtomicPass, Carriers, PartStart;
      var segment := SegmentSize(dataSize);
      var p, q := AtomicPass(Lanes(PartStart(warpSize, 2, 0), PartStart(warpSize, 2, 1)), segment),
                  AtomicPass(Lanes(PartStart(warpSize, 2, 1), PartStart(warpSize, 2, 2)), segment);
      assert SentAtomic(0) == [] && SentAtomic(1) == SentAtomic(0) + p && SentAtomic(2) == SentAtomic(1) + q;
      assert [] + p == p;
      CarriersConcat(p, q, t);
    }
  }

  /** Every transaction with the lane's bit has the whole access and its bytes. */
  ghost predicate AllCarry(q: seq<Transaction>, t: nat, x: Access) {
    forall i :: 0 <= i < |q| && t in q[i].active ==> Holds(q[i], t, x.addr, x.size)
  }

  lemma CarryIf(q: seq<Transaction>, x: Access)
    requires WellFormed(x)
    requires forall i :: 0 <= i < |q| && x.lane in q[i].active ==> Inside(x, q[i]) && Offsets(x) <= q[i].bytes
    ensures AllCarry(q, x.lane, x)
  {
    forall i | 0 <= i < |q| && x.lane in q[i].active
      ensures Holds(q[i], x.lane, x.addr, x.size)
    {
      HoldsIf(q[i], x);
    }
  }

  lemma PassOf(a: seq<Access>, segment: nat)
    requires segment > 0
    ensures AtomicPass(a, segment) == EmitSlots(a, segment, Ascending(Blocks(a, segment)))
  {
  }

  lemma LayeredKeys(m: map<nat, seq<Info>>, a: seq<Access>, segment: nat)
    requires segment > 0 && Layered(m, a, segment)
    ensures forall b :: b in m.Keys <==> b in Ascending(Blocks(a, segment))
  {
  }

  lemma EmitNoSlots(a: seq<Access>, segment: nat)
    requires segment > 0
    ensures EmitSlots(a, segment, []) == []
  {
  }

  lemma EmitSlotsOneMore(a: seq<Access>, segment: nat, bs: seq<nat>, n: nat)
    requires segment > 0 && n < |bs|
    ensures EmitSlots(a, segment, bs[..n + 1]) == EmitSlots(a, segment, bs[..n]) + Slots(a, segment, bs[n],
      Depth(a, segment, bs[n]))
  {
    assert bs[..n + 1][..n] == bs[..n];
  }

  lemma TrackedKeys(m: map<nat, Info>, a: seq<Access>, segment: nat)
    requires segment > 0 && Tracks(m, a, segment)
    ensures forall b :: b in m.Keys <==> b in Ascending(Blocks(a, segment))
  {
  }

  lemma TrackedEntry(m: map<nat, Info>, a: seq<Access>, segment: nat, b: nat)
    requires IsSize(segment) && AllWellFormed(a) && Tracks(m, a, segment) && b in Ascending(Blocks(a, segment))
    ensures b in m && m[b] == InfoOf(Group(a, segment, b)) && IsGroup(Group(a, segment, b), segment, b)
  {
    GroupOfBlock(a, segment, b);
  }

  lemma EmitNone(a: seq<Access>, segment: nat)
    requires segment > 0
    ensures Emit(a, segment, []) == []
  {
  }

  lemma EmitOneMore(a: seq<Access>, segment: nat, bs: seq<nat>, n: nat)
    requires segment > 0 && n < |bs|
    ensures Emit(a, segment, bs[..n + 1]) == Emit(a, segment,
      bs[..n]) + [TransactionOf(Group(a, segment, bs[n]), segment, bs[n])]
  {
    assert bs[..n + 1][..n] == bs[..n];
  }

  lemma NoneLeft(all: seq<nat>, sent: nat)
    requires sent <= |all| && forall b :: b !in all[sent..]
    ensures all[..sent] == all
  {
    HasFirst(all[sent..]);
  }

  lemma HasFirst(s: seq<nat>)
    ensures s != [] ==> s[0] in s
  {
  }

  lemma Scaled(m: nat, n: nat, size: nat)
    requires m <= n
    ensures 0 <= m * size <= n * size
  {
  }

  lemma FirstOfRest(all: seq<nat>, sent: nat, rest: set<nat>, b: nat)
    requires sent <= |all| && forall i, j :: 0 <= i < j < |all| ==> all[i] < all[j]
    requires b in rest && (forall c :: c in rest ==> b <= c) && forall c :: c in rest <==> c in all[sent..]
    ensures sent < |all| && all[sent] == b
    ensures forall c :: c in rest - {b} <==> c in all[sent + 1..]
  {
    assert b in all[sent..];
    var k :| 0 <= k < |all[sent..]| && all[sent..][k] == b;
    assert all[sent..][0] in rest;
    assert all[sent..] == [all[sent]] + all[sent + 1..];
  }
}
