/**
  The warp memory coalescer of src/abstract_hardware_model.cc for compute capability 1.3:
  the one-pass grouping of a subwarp's requests into segments, the variant for atomics that
  spreads requests for the same bytes over several transactions, and the reduction of a
  segment to the smallest block that is used.

  The reference is the request-by-request protocol of section G.3.2.2 of the CUDA C
  Programming Guide 3.2, written out here as `Guide`.
*/
module Coalescer {
  import opened Collections

  const MAX_ACCESSES_PER_INSN_PER_THREAD: nat := 8
  const TWO_32: nat := 0x1_0000_0000

  /** One request of one lane. */
  datatype Access = Access(lane: nat, addr: nat, size: nat)

  /** `transaction_info`: the 32-byte chunks used, the bytes used (offsets in a 128-byte line)
      and the lanes served. */
  datatype Info = Info(chunks: set<nat>, bytes: set<nat>, active: set<nat>)

  /** `mem_access_t`: a block of memory, the lanes it serves and the bytes they use. */
  datatype Transaction = Transaction(addr: nat, size: nat, active: set<nat>, bytes: set<nat>)

  function SegmentSize(dataSize: nat): nat {
    match dataSize
    case 1 => 32
    case 2 => 64
    case 4 | 8 | 16 => 128
    case _ => 0
  }

  predicate IsSize(n: nat) {
    n == 32 || n == 64 || n == 128
  }

  /** `line_size_based_tag_func`. */
  function Block(addr: nat, segment: nat): nat
    requires segment > 0
  {
    addr - addr % segment
  }

  /** Its 128-byte line, the offset there, and the 32-byte chunk of the line. */
  function Line(addr: nat): nat { addr - addr % 128 }

  function Offset(addr: nat): nat { addr % 128 }

  function Chunk(addr: nat): nat { addr % 128 / 32 }

  /** The requests the hardware accepts: naturally aligned words in the 32-bit space. */
  predicate WellFormed(x: Access) {
    x.addr < TWO_32 && x.size <= 16 && Aligned(x.addr, x.size)
  }

  predicate Aligned(addr: nat, size: nat) {
    match size
    case 1 => true
    case 2 => addr % 2 == 0
    case 4 => addr % 4 == 0
    case 8 => addr % 8 == 0
    case 16 => addr % 16 == 0
    case 32 => addr % 32 == 0
    case 64 => addr % 64 == 0
    case 128 => addr % 128 == 0
    case _ => false
  }

  predicate AllWellFormed(a: seq<Access>) {
    forall i :: 0 <= i < |a| ==> WellFormed(a[i])
  }

  lemma InBlock(addr: nat, segment: nat)
    requires IsSize(segment)
    ensures var b := Block(addr, segment); Aligned(b, segment) && b <= addr < b + segment
    ensures forall b: nat :: Aligned(b, segment) && b <= addr < b + segment ==> b == Block(addr, segment)
  {
    hide Aligned, Block;
    BlockIs(addr, segment);
    forall b: nat | Aligned(b, segment) && b <= addr < b + segment ensures b == Block(addr, segment) {
      var p := Multiple(b, segment);
      SameQuotient(addr, p);
    }
  }

  lemma SameQuotient(addr: nat, p: nat)
    ensures 32 * p <= addr < 32 * p + 32 ==> addr / 32 == p
    ensures 64 * p <= addr < 64 * p + 64 ==> addr / 64 == p
    ensures 128 * p <= addr < 128 * p + 128 ==> addr / 128 == p
  {
  }

  lemma BlockIs(addr: nat, segment: nat)
    requires IsSize(segment)
    ensures Aligned(Block(addr, segment), segment)
    ensures segment == 32 ==> Block(addr, segment) == 32 * (addr / 32)
    ensures segment == 64 ==> Block(addr, segment) == 64 * (addr / 64)
    ensures segment == 128 ==> Block(addr, segment) == 128 * (addr / 128)
  {
    if segment == 32 {
      BlockIs32(addr);
    } else if segment == 64 {
      BlockIs64(addr);
    } else {
      BlockIs128(addr);
    }
  }

  lemma BlockIs32(addr: nat)
    ensures Block(addr, 32) == 32 * (addr / 32) && Aligned(Block(addr, 32), 32)
  {
  }

  lemma BlockIs64(addr: nat)
    ensures Block(addr, 64) == 64 * (addr / 64) && Aligned(Block(addr, 64), 64)
  {
  }

  lemma BlockIs128(addr: nat)
    ensures Block(addr, 128) == 128 * (addr / 128) && Aligned(Block(addr, 128), 128)
  {
  }

  /** A segment lies in one 128-byte line. */
  lemma LineOfBlock(addr: nat, segment: nat)
    requires IsSize(segment)
    ensures var b := Block(addr, segment);
      addr - addr % 128 == b - b % 128 && addr % 128 == b % 128 + (addr - b) && b % 128 + segment <= 128
  {
    hide Aligned, Block;
    InBlock(addr, segment);
    SegmentOfLine(addr, Block(addr, segment), segment);
  }

  lemma SegmentOfLine(addr: nat, b: nat, segment: nat)
    requires IsSize(segment) && Aligned(b, segment) && b <= addr < b + segment
    ensures addr - addr % 128 == b - b % 128 && b % 128 + segment <= 128
  {
    hide Aligned;
    var q := Multiple(b, segment);
    if segment == 32 {
      InLine(addr, b, q, 1);
    } else if segment == 64 {
      InLine(addr, b, q, 2);
    } else {
      InLine(addr, b, q, 4);
    }
  }

  lemma InLine(addr: nat, b: nat, q: nat, n: nat)
    requires (n == 1 || n == 2 || n == 4) && b == 32 * n * q && b <= addr < b + 32 * n
    ensures addr - addr % 128 == b - b % 128 && b % 128 + 32 * n <= 128
  {
    var p, r := b / 128, b % 128;
    assert b == 128 * p + r;
    if n == 1 {
      Fits(32, q, 4 * p + 4);
    } else if n == 2 {
      Fits(64, q, 2 * p + 2);
    } else {
      Fits(128, q, p + 1);
    }
    assert r + 32 * n <= 128;
    SameQuotient(addr, p);
  }

  /** A word lies in one 32-byte chunk. */
  lemma OneChunk(addr: nat, size: nat)
    requires Aligned(addr, size) && size <= 16
    ensures addr % 32 + size <= 32 && addr % 64 + size <= 64 && addr % 128 + size <= 128
  {
    WordEnds(addr, size, 32);
    WordEnds(addr, size, 64);
    WordEnds(addr, size, 128);
  }

  lemma WordEnds(addr: nat, size: nat, n: nat)
    requires Aligned(addr, size) && size <= 16 && IsSize(n)
    ensures addr % n + size <= n
  {
    var k := WordNumber(addr, size);
    hide Aligned;
    var r := addr % n;
    if n == 32 {
      WordFits(addr, size, k, addr / 32, r, 32);
    } else if n == 64 {
      WordFits(addr, size, k, addr / 64, r, 64);
    } else {
      WordFits(addr, size, k, addr / 128, r, 128);
    }
  }

  lemma WordNumber(addr: nat, size: nat) returns (k: nat)
    requires Aligned(addr, size) && size <= 16
    ensures (size == 1 || size == 2 || size == 4 || size == 8 || size == 16) && addr == size * k
  {
    if size == 1 {
      k := addr;
    } else if size == 2 {
      k := addr / 2;
    } else if size == 4 {
      k := addr / 4;
    } else if size == 8 {
      k := addr / 8;
    } else {
      k := addr / 16;
    }
  }

  lemma WordFits(addr: nat, size: nat, k: nat, p: nat, r: nat, n: nat)
    requires size == 1 || size == 2 || size == 4 || size == 8 || size == 16
    requires IsSize(n) && addr == size * k && addr == n * p + r && r < n
    ensures r + size <= n
  {
    if size == 2 {
      Fits(2, k, (n / 2) * p + n / 2);
    } else if size == 4 {
      Fits(4, k, (n / 4) * p + n / 4);
    } else if size == 8 {
      Fits(8, k, (n / 8) * p + n / 8);
    } else if size == 16 {
      Fits(16, k, (n / 16) * p + n / 16);
    }
  }

  lemma Fits(size: nat, q: nat, k: nat)
    requires size * q < size * k
    ensures size * q + size <= size * k
  {
    var d := k - q;
    assert size * k == size * q + size * d;
    assert d <= 0 ==> size * d <= 0;
    assert d >= 1 ==> size * d >= size;
  }

  /** So it lies in one segment. */
  lemma OneSegment(addr: nat, size: nat, segment: nat)
    requires Aligned(addr, size) && size <= 16 && IsSize(segment)
    ensures var b := Block(addr, segment);
      b <= addr && addr + size <= b + segment && Block(addr + size - 1, segment) == b
  {
    WordEnds(addr, size, segment);
    InBlock(addr, segment);
    assert size > 0;
    hide Aligned;
    InBlock(addr + size - 1, segment);
  }

  // ---------------------------------------------------------------------------------
  // Groups of requests

  ghost function Interval(lo: nat, hi: nat): (s: set<nat>)
    ensures forall k: nat :: k in s <==> lo <= k < hi
    decreases hi
  {
    if lo >= hi then {} else Interval(lo, hi - 1) + {hi - 1}
  }

  /** The memory bytes of a request, and their offsets in the 128-byte line. */
  ghost function Words(x: Access): set<nat> {
    Interval(x.addr, x.addr + x.size)
  }

  ghost function Offsets(x: Access): set<nat> {
    Interval(Offset(x.addr), Offset(x.addr) + x.size)
  }

  ghost function Used(g: set<Access>): set<nat> {
    set x, k | x in g && k in Words(x) :: k
  }

  ghost function Chunks(g: set<Access>): set<nat> {
    set x | x in g :: Chunk(x.addr)
  }

  ghost function Bytes(g: set<Access>): set<nat> {
    set x, k | x in g && k in Offsets(x) :: k
  }

  ghost function Lanes(g: set<Access>): set<nat> {
    set x | x in g :: x.lane
  }

  ghost function InfoOf(g: set<Access>): Info {
    Info(Chunks(g), Bytes(g), Lanes(g))
  }

  /** The requests that fall in a segment. */
  ghost function Group(a: seq<Access>, segment: nat, b: nat): set<Access>
    requires segment > 0
  {
    set x | x in a && Block(x.addr, segment) == b
  }

  ghost function Blocks(a: seq<Access>, segment: nat): set<nat>
    requires segment > 0
  {
    set x | x in a :: Block(x.addr, segment)
  }

  /** A non-empty set of words of one segment. */
  ghost predicate IsGroup(g: set<Access>, segment: nat, b: nat) {
    && IsSize(segment) && g != {}
    && forall x :: x in g ==> WellFormed(x) && Block(x.addr, segment) == b
  }

  // ---------------------------------------------------------------------------------
  // Reduction of a transaction

  /** The reduction of the guide: while only one half is used, keep that half, down to 32
      bytes. */
  ghost function Narrow(base: nat, size: nat, used: set<nat>): (r: (nat, nat))
    decreases size
  {
    if size <= 32 then (base, size)
    else if forall u :: u in used ==> u < base + size / 2 then Narrow(base, size / 2, used)
    else if forall u :: u in used ==> base + size / 2 <= u then Narrow(base + size / 2, size / 2, used)
    else (base, size)
  }

  /** An aligned block of 32, 64 or 128 bytes that holds all the bytes used. */
  ghost predicate Covers(base: nat, size: nat, used: set<nat>) {
    IsSize(size) && Aligned(base, size) && forall u :: u in used ==> base <= u < base + size
  }

  /** It lies in every other such block. */
  ghost predicate Smallest(base: nat, size: nat, used: set<nat>) {
    && Covers(base, size, used)
    && forall b: nat, s: nat :: Covers(b, s, used) ==> b <= base && base + size <= b + s
  }

  /** The reduction finds the smallest block, and there is only one. */
  lemma {:induction false} NarrowIsSmallest(base: nat, size: nat, used: set<nat>)
    requires Covers(base, size, used) && used != {}
    ensures var (b, s) := Narrow(base, size, used); Smallest(b, s, used) && base <= b && b + s <= base + size
    decreases size
  {
    hide Aligned;
    var low, high := exists u :: u in used && u < base + size / 2, exists u :: u in used && base + size / 2 <= u;
    var v :| v in used;
    assert low || high;
    if size == 32 || (low && high) {
      forall b: nat, s: nat | Covers(b, s, used) ensures b <= base && base + size <= b + s {
        CoverSpansHalves(base, size, used, b, s);
      }
    } else if low {
      AlignedHalf(base, size);
      assert Covers(base, size / 2, used);
      NarrowIsSmallest(base, size / 2, used);
    } else {
      AlignedHalf(base, size);
      assert Covers(base + size / 2, size / 2, used);
      NarrowIsSmallest(base + size / 2, size / 2, used);
    }
  }

  lemma AlignedHalf(base: nat, size: nat)
    requires IsSize(size) && size > 32 && Aligned(base, size)
    ensures Aligned(base, size / 2) && Aligned(base + size / 2, size / 2) && IsSize(size / 2)
  {
    if size == 64 {
      Halves64(base);
    } else {
      Halves128(base);
    }
  }

  lemma Halves64(base: nat)
    requires base % 64 == 0
    ensures base % 32 == 0 && (base + 32) % 32 == 0
  {
  }

  lemma Halves128(base: nat)
    requires base % 128 == 0
    ensures base % 64 == 0 && (base + 64) % 64 == 0
  {
  }

  lemma CoverSpansHalves(base: nat, size: nat, used: set<nat>, b: nat, s: nat)
    requires Covers(base, size, used) && Covers(b, s, used) && used != {}
    requires size > 32 ==> exists u, v :: u in used && v in used && u < base + size / 2 <= v
    ensures b <= base && base + size <= b + s
  {
    if size > 32 {
      var u, v :| u in used && v in used && u < base + size / 2 <= v;
      Nested(base, size, b, s, u, v);
    } else {
      var u :| u in used;
      Nested32(base, b, s, u);
    }
  }

  /** An aligned block that holds bytes of both halves of another aligned block holds all of
      it. */
  lemma Nested(base: nat, size: nat, b: nat, s: nat, u: nat, v: nat)
    requires IsSize(size) && IsSize(s) && Aligned(base, size) && Aligned(b, s) && size > 32
    requires base <= u < base + size / 2 <= v < base + size && b <= u < b + s && b <= v < b + s
    ensures b <= base && base + size <= b + s
  {
    hide Aligned;
    AlignedHalf(base, size);
    Finer(base + size / 2, size / 2, s);
    NextMultiple(b, s, base + size / 2);
    Finer(b, s, size);
    NextMultiple(base, size, b + s);
    Finer(base, size, size);
    NextMultiple(b, size, base + size);
  }

  lemma Nested32(base: nat, b: nat, s: nat, u: nat)
    requires IsSize(s) && Aligned(base, 32) && Aligned(b, s) && base <= u < base + 32 && b <= u < b + s
    ensures b <= base && base + 32 <= b + s
  {
    hide Aligned;
    Finer(b, s, 32);
    NextMultiple(base, 32, b + s);
    Finer(base, 32, 32);
    NextMultiple(b, 32, base + 32);
  }

  /** Alignment to a size is alignment to smaller ones, also for the next multiple. */
  lemma Finer(b: nat, s: nat, size: nat)
    requires IsSize(s) && IsSize(size) && Aligned(b, s)
    ensures size <= s ==> Aligned(b, size) && Aligned(b + s, size)
  {
    var q := Multiple(b, s);
    hide Aligned;
    if s == size {
      MultipleAligned(size, q);
      MultipleAligned(size, q + 1);
    } else if s == 2 * size {
      MultipleAligned(size, 2 * q);
      MultipleAligned(size, 2 * q + 2);
    } else if s == 4 * size {
      MultipleAligned(size, 4 * q);
      MultipleAligned(size, 4 * q + 4);
    }
  }

  lemma MultipleAligned(size: nat, n: nat)
    ensures size == 32 ==> Aligned(32 * n, size)
    ensures size == 64 ==> Aligned(64 * n, size)
    ensures size == 128 ==> Aligned(128 * n, size)
  {
  }

  lemma NextMultiple(b: nat, s: nat, x: nat)
    requires IsSize(s)
    ensures Aligned(b, s) && Aligned(x, s) && b < x ==> b + s <= x
  {
    if Aligned(b, s) && Aligned(x, s) && b < x {
      var m := Multiple(b, s);
      var n := Multiple(x, s);
      hide Aligned;
      Fits(s, m, n);
    }
  }

  lemma Multiple(b: nat, s: nat) returns (q: nat)
    requires IsSize(s) && Aligned(b, s)
    ensures s == 32 ==> b == 32 * q
    ensures s == 64 ==> b == 64 * q
    ensures s == 128 ==> b == 128 * q
  {
    if s == 32 {
      q := b / 32;
    } else if s == 64 {
      q := b / 64;
    } else {
      q := b / 128;
    }
  }

  // ---------------------------------------------------------------------------------
  // The transactions of a list of requests

  ghost function TransactionOf(g: set<Access>, segment: nat, b: nat): Transaction {
    var (base, size) := Narrow(b, segment, Used(g));
    Transaction(base, size, Lanes(g), Bytes(g))
  }

  /** One transaction for each of the segments listed. */
  ghost function Emit(a: seq<Access>, segment: nat, bs: seq<nat>): (q: seq<Transaction>)
    requires segment > 0
    ensures |q| == |bs| && forall i :: 0 <= i < |bs| ==> q[i] == TransactionOf(Group(a, segment, bs[i]), segment, bs[i])
  {
    if bs == [] then []
    else Emit(a, segment, bs[..|bs| - 1]) +
         [TransactionOf(Group(a, segment, bs[|bs| - 1]), segment, bs[|bs| - 1])]
  }

  /** The protocol of the guide: serve the segment of the lowest lane that still waits, with
      all others that fall in it, and repeat. */
  ghost function Guide(a: seq<Access>, segment: nat): seq<Transaction>
    requires segment > 0
    decreases |a|
  {
    if a == [] then []
    else
      var b := Block(a[0].addr, segment);
      [TransactionOf(Group(a, segment, b), segment, b)] + Guide(Others(a, segment, b), segment)
  }

  ghost function Others(a: seq<Access>, segment: nat, b: nat): (r: seq<Access>)
    requires segment > 0
    ensures |r| <= |a| && (a != [] && Block(a[0].addr, segment) == b ==> |r| < |a|)
    ensures forall x :: x in r <==> x in a && Block(x.addr, segment) != b
  {
    if a == [] then []
    else if Block(a[0].addr, segment) == b then Others(a[1..], segment, b)
    else [a[0]] + Others(a[1..], segment, b)
  }

  /** The code goes through its map in key order. */
  ghost function OnePass(a: seq<Access>, segment: nat): seq<Transaction>
    requires segment > 0
  {
    Emit(a, segment, Ascending(Blocks(a, segment)))
  }

  ghost predicate IsLeast(s: set<nat>, m: nat) {
    m in s && forall n :: n in s ==> m <= n
  }

  lemma {:induction false} HasLeast(s: set<nat>)
    requires s != {}
    ensures exists m :: IsLeast(s, m)
    decreases |s|
  {
    var m :| m in s;
    if s == {m} {
      assert IsLeast(s, m);
    } else {
      HasLeast(s - {m});
      var n :| IsLeast(s - {m}, n);
      assert forall k :: k in s ==> k == m || k in s - {m};
      assert IsLeast(s, if m < n then m else n);
    }
  }

  ghost function Ascending(s: set<nat>): (r: seq<nat>)
    ensures forall n :: n in r <==> n in s
    ensures forall i, j :: 0 <= i < j < |r| ==> r[i] < r[j]
  {
    if s == {} then []
    else
      HasLeast(s);
      var m :| IsLeast(s, m);
      [m] + Ascending(s - {m})
  }

  // ---------------------------------------------------------------------------------
  // The order of service does not matter

  lemma {:induction false} SameElements(s: seq<nat>, r: seq<nat>)
    requires Distinct(s) && Distinct(r) && forall n :: n in s <==> n in r
    ensures multiset(s) == multiset(r)
  {
    forall n ensures multiset(s)[n] == multiset(r)[n] {
      CountOne(s, n);
      CountOne(r, n);
    }
  }

  lemma {:induction false} CountOne(s: seq<nat>, n: nat)
    requires Distinct(s)
    ensures multiset(s)[n] == if n in s then 1 else 0
  {
    if s == [] {
    } else {
      CountOne(s[1..], n);
      assert s == [s[0]] + s[1..];
    }
  }

  lemma WithoutOne<T>(s: seq<T>, k: nat)
    requires k < |s|
    ensures multiset(s) == multiset(s[..k] + s[k + 1..]) + multiset{s[k]}
  {
    assert s == s[..k] + [s[k]] + s[k + 1..];
  }

  lemma SameWithoutOne<T>(s: seq<T>, r: seq<T>, k: nat)
    requires s != [] && k < |r| && s[0] == r[k]
    ensures multiset(s) == multiset(r) <==> multiset(s[1..]) == multiset(r[..k] + r[k + 1..])
  {
    WithoutOne(s, 0);
    WithoutOne(r, k);
    assert s[..0] + s[1..] == s[1..];
    var m, n, x := multiset(s[1..]), multiset(r[..k] + r[k + 1..]), multiset{s[0]};
    assert multiset(s) == m + x && multiset(r) == n + x;
    assert m == (m + x) - x && n == (n + x) - x;
  }

  lemma EmitWithoutOne(a: seq<Access>, segment: nat, bs: seq<nat>, k: nat)
    requires segment > 0 && k < |bs|
    ensures var q := Emit(a, segment, bs); Emit(a, segment, bs[..k] + bs[k + 1..]) == q[..k] + q[k + 1..]
  {
    hide TransactionOf, Group;
  }

  lemma {:induction false} EmitAnyOrder(a: seq<Access>, segment: nat, bs: seq<nat>, cs: seq<nat>)
    requires segment > 0 && multiset(bs) == multiset(cs)
    ensures multiset(Emit(a, segment, bs)) == multiset(Emit(a, segment, cs))
    decreases |bs|
  {
    hide TransactionOf, Group, Emit;
    assert |multiset(bs)| == |bs| && |multiset(cs)| == |cs|;
    if bs == [] {
      assert cs == [];
    } else {
      assert bs[0] in multiset(cs);
      var k :| 0 <= k < |cs| && cs[k] == bs[0];
      SameWithoutOne(bs, cs, k);
      EmitAnyOrder(a, segment, bs[1..], cs[..k] + cs[k + 1..]);
      EmitWithoutOne(a, segment, bs, 0);
      EmitWithoutOne(a, segment, cs, k);
      assert bs[..0] + bs[1..] == bs[1..];
      var p, q := Emit(a, segment, bs), Emit(a, segment, cs);
      assert p[..0] + p[1..] == p[1..];
      SameWithoutOne(p, q, k);
    }
  }

  ghost function FirstSeen(a: seq<Access>, segment: nat): seq<nat>
    requires segment > 0
    decreases |a|
  {
    if a == [] then []
    else
      var b := Block(a[0].addr, segment);
      [b] + FirstSeen(Others(a, segment, b), segment)
  }

  lemma {:induction false} GuideIsEmit(a: seq<Access>, segment: nat)
    requires segment > 0
    ensures Guide(a, segment) == Emit(a, segment, FirstSeen(a, segment))
    ensures Distinct(FirstSeen(a, segment))
    ensures forall b :: b in FirstSeen(a, segment) <==> b in Blocks(a, segment)
    decreases |a|
  {
    if a == [] {
    } else {
      var b := Block(a[0].addr, segment);
      var rest := Others(a, segment, b);
      GuideIsEmit(rest, segment);
      OthersBlocks(a, segment, b);
      EmitLater(a, segment, b, FirstSeen(rest, segment));
    }
  }

  lemma OthersBlocks(a: seq<Access>, segment: nat, b: nat)
    requires segment > 0 && a != [] && b == Block(a[0].addr, segment)
    ensures forall c :: c in Blocks(a, segment) <==> c == b || c in Blocks(Others(a, segment, b), segment)
    ensures b !in Blocks(Others(a, segment, b), segment)
  {
    assert a[0] in a;
  }

  lemma EmitLater(a: seq<Access>, segment: nat, b: nat, later: seq<nat>)
    requires segment > 0 && b !in later
    ensures Emit(a, segment, [b] + later) ==
      [TransactionOf(Group(a, segment, b), segment, b)] + Emit(Others(a, segment, b), segment, later)
  {
    hide Block, TransactionOf;
    var rest := Others(a, segment, b);
    forall i | 0 <= i < |later| ensures Group(rest, segment, later[i]) == Group(a, segment, later[i]) {
    }
  }

  /** The one-pass map sends exactly the transactions of the guide. */
  lemma FollowsGuide(a: seq<Access>, segment: nat)
    requires segment > 0
    ensures multiset(OnePass(a, segment)) == multiset(Guide(a, segment))
  {
    var bs := Ascending(Blocks(a, segment));
    GuideIsEmit(a, segment);
    SameElements(bs, FirstSeen(a, segment));
    EmitAnyOrder(a, segment, bs, FirstSeen(a, segment));
  }

  // ---------------------------------------------------------------------------------
  // Every request is served by exactly one transaction

  ghost predicate Inside(x: Access, t: Transaction) {
    t.addr <= x.addr && x.addr + x.size <= t.addr + t.size
  }

  ghost predicate Apart(t: Transaction, u: Transaction) {
    t.addr + t.size <= u.addr || u.addr + u.size <= t.addr
  }

  /** The requests a transaction serves, judged by addresses alone. */
  ghost function ServedBy(a: seq<Access>, t: Transaction): set<Access> {
    set x | x in a && Inside(x, t)
  }

  /** The transaction of a group serves the whole group, in the smallest block possible and
      inside the segment. */
  lemma GroupTransaction(g: set<Access>, segment: nat, b: nat)
    requires IsGroup(g, segment, b)
    ensures var t := TransactionOf(g, segment, b);
      && Smallest(t.addr, t.size, Used(g)) && b <= t.addr && t.addr + t.size <= b + segment
      && forall x :: x in g ==> Inside(x, t)
  {
    hide Aligned;
    GroupInSegment(g, segment, b);
    NarrowIsSmallest(b, segment, Used(g));
    var t := TransactionOf(g, segment, b);
    forall x | x in g ensures Inside(x, t) {
      assert WellFormed(x);
      assert x.addr in Words(x) && x.addr + x.size - 1 in Words(x) by {
        PositiveSize(x);
      }
      assert x.addr in Used(g) && x.addr + x.size - 1 in Used(g);
    }
  }

  lemma PositiveSize(x: Access)
    requires WellFormed(x)
    ensures x.size > 0
  {
  }

  lemma GroupInSegment(g: set<Access>, segment: nat, b: nat)
    requires IsGroup(g, segment, b)
    ensures Covers(b, segment, Used(g)) && Used(g) != {}
  {
    hide Aligned, Block;
    forall u | u in Used(g) ensures b <= u < b + segment {
      var x :| x in g && u in Words(x);
      WordInSegment(x, segment);
    }
    var x :| x in g;
    PositiveSize(x);
    assert x.addr in Words(x) && x.addr in Used(g);
    InBlock(x.addr, segment);
  }

  lemma WordInSegment(x: Access, segment: nat)
    requires WellFormed(x) && IsSize(segment)
    ensures var b := Block(x.addr, segment); b <= x.addr && x.addr + x.size <= b + segment
    ensures Block(x.addr + x.size - 1, segment) == Block(x.addr, segment)
    ensures Offset(x.addr) + x.size <= 128
  {
    OneSegment(x.addr, x.size, segment);
    OneChunk(x.addr, x.size);
  }

  /** The group of a segment that some request uses. */
  lemma GroupOfBlock(a: seq<Access>, segment: nat, b: nat)
    requires AllWellFormed(a) && IsSize(segment) && b in Blocks(a, segment)
    ensures IsGroup(Group(a, segment, b), segment, b)
  {
    var x :| x in a && Block(x.addr, segment) == b;
    assert x in Group(a, segment, b);
  }

  ghost predicate IsListOfBlocks(a: seq<Access>, segment: nat, bs: seq<nat>)
    requires segment > 0
  {
    Distinct(bs) && forall b :: b in bs <==> b in Blocks(a, segment)
  }

  lemma ListedBlock(a: seq<Access>, segment: nat, bs: seq<nat>, i: nat)
    requires AllWellFormed(a) && IsSize(segment) && IsListOfBlocks(a, segment, bs) && i < |bs|
    ensures var t := Emit(a, segment, bs)[i];
      && bs[i] <= t.addr && t.addr + t.size <= bs[i] + segment && Aligned(bs[i], segment)
      && Smallest(t.addr, t.size, Used(Group(a, segment, bs[i])))
      && ServedBy(a, t) == Group(a, segment, bs[i])
  {
    hide Block, Narrow, Aligned, Smallest;
    var g := Group(a, segment, bs[i]);
    assert bs[i] in Blocks(a, segment);
    GroupOfBlock(a, segment, bs[i]);
    GroupTransaction(g, segment, bs[i]);
    var t := TransactionOf(g, segment, bs[i]);
    var y :| y in g;
    InBlock(y.addr, segment);
    forall x | x in a ensures Inside(x, t) <==> Block(x.addr, segment) == bs[i] {
      WordInSegment(x, segment);
      InBlock(x.addr, segment);
      PositiveSize(x);
      assert Block(x.addr, segment) == bs[i] ==> x in g;
    }
  }

  lemma PairApart(a: seq<Access>, segment: nat, bs: seq<nat>, i: nat, j: nat)
    requires AllWellFormed(a) && IsSize(segment) && IsListOfBlocks(a, segment, bs) && i < j < |bs|
    ensures Apart(Emit(a, segment, bs)[i], Emit(a, segment, bs)[j])
  {
    ListedBlock(a, segment, bs, i);
    ListedBlock(a, segment, bs, j);
    hide Block, Narrow, Smallest, Used, Bytes, Lanes;
    BlocksApart(bs[i], bs[j], segment);
  }

  lemma InItsBlock(a: seq<Access>, segment: nat, bs: seq<nat>, x: Access) returns (i: nat)
    requires AllWellFormed(a) && IsSize(segment) && IsListOfBlocks(a, segment, bs) && x in a
    ensures i < |bs| && Inside(x, Emit(a, segment, bs)[i])
  {
    hide Narrow, Aligned, Smallest, Used, Bytes, Lanes;
    assert Block(x.addr, segment) in bs;
    i :| 0 <= i < |bs| && bs[i] == Block(x.addr, segment);
    ListedBlock(a, segment, bs, i);
    hide Block;
    assert x in ServedBy(a, Emit(a, segment, bs)[i]);
  }

  /** The transaction has exactly the lanes and bytes of the requests that lie in it, and its
      block is as small as it can be for them. */
  ghost predicate ExactFor(g: set<Access>, t: Transaction) {
    g != {} && Smallest(t.addr, t.size, Used(g)) && t.active == Lanes(g) && t.bytes == Bytes(g)
  }

  lemma MasksAreExact(a: seq<Access>, segment: nat, bs: seq<nat>, i: nat)
    requires AllWellFormed(a) && IsSize(segment) && IsListOfBlocks(a, segment, bs) && i < |bs|
    ensures ExactFor(ServedBy(a, Emit(a, segment, bs)[i]), Emit(a, segment, bs)[i])
  {
    ListedBlock(a, segment, bs, i);
    hide Block, Narrow, Aligned, Smallest, Used, Bytes, Lanes;
    assert bs[i] in Blocks(a, segment);
    GroupOfBlock(a, segment, bs[i]);
  }

  /** The transactions of a subwarp, in any order of its segments: no two overlap; every
      request lies in one of them, so in exactly one; and the block, the lanes and the bytes
      of each are exactly those of the requests that lie in it, the block as small as it can
      be. */
  lemma ServedExactlyOnce(a: seq<Access>, segment: nat, bs: seq<nat>)
    requires AllWellFormed(a) && IsSize(segment) && IsListOfBlocks(a, segment, bs)
    ensures var q := Emit(a, segment, bs);
      && (forall i, j :: 0 <= i < j < |q| ==> Apart(q[i], q[j]))
      && (forall x :: x in a ==> exists i :: 0 <= i < |q| && Inside(x, q[i]))
      && (forall i :: 0 <= i < |q| ==> ExactFor(ServedBy(a, q[i]), q[i]))
  {
    var q := Emit(a, segment, bs);
    hide *;
    forall i, j | 0 <= i < j < |q| ensures Apart(q[i], q[j]) {
      PairApart(a, segment, bs, i, j);
    }
    forall x | x in a ensures exists i :: 0 <= i < |q| && Inside(x, q[i]) {
      var i := InItsBlock(a, segment, bs, x);
    }
    forall i | 0 <= i < |q| ensures ExactFor(ServedBy(a, q[i]), q[i]) {
      MasksAreExact(a, segment, bs, i);
    }
  }

  lemma BlocksApart(b: nat, c: nat, segment: nat)
    requires IsSize(segment) && Aligned(b, segment) && Aligned(c, segment) && b != c
    ensures b + segment <= c || c + segment <= b
  {
    var p := Multiple(b, segment);
    var q := Multiple(c, segment);
    hide Aligned;
    assert p != q;
    if p < q {
      assert p + 1 <= q;
    } else {
      assert q + 1 <= p;
    }
  }
}
