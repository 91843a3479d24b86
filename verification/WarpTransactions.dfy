/**
  What the transactions of a warp's global or local memory instruction mean for its lanes, in
  terms of lane numbers and addresses alone: where each piece of each word is served, which
  words share a transaction, and that nothing else is transferred.
*/
module WarpTransactions {
  import opened Coalescer
  import opened AtomicCoalescer
  import opened WarpMemory

  /** The transactions of one subwarp. */
  ghost function Pass(w: WarpInst, p: nat): seq<Transaction>
    requires w.Valid() && p < w.memWarpParts
    reads w
  {
    OnePass(w.Subwarp(p), SegmentSize(w.dataSize))
  }

  // ---------------------------------------------------------------------------------
  // The passes of the subwarps, one after the other

  ghost function Passes(w: WarpInst, n: nat): (r: seq<seq<Transaction>>)
    requires w.Valid() && n <= w.memWarpParts
    reads w
    ensures |r| == n
  {
    if n == 0 then [] else Passes(w, n - 1) + [Pass(w, n - 1)]
  }

  lemma {:induction false} PassAt(w: WarpInst, n: nat, p: nat)
    requires w.Valid() && p < n <= w.memWarpParts
    ensures Passes(w, n)[p] == Pass(w, p)
  {
    hide Pass, w.Valid;
    if n == p + 1 {
    } else {
      PassAt(w, n - 1, p);
    }
  }

  ghost function Flat(s: seq<seq<Transaction>>): seq<Transaction> {
    if s == [] then [] else Flat(s[..|s| - 1]) + s[|s| - 1]
  }

  lemma {:induction false} SentIsFlat(w: WarpInst, n: nat)
    requires w.Valid() && n <= w.memWarpParts
    ensures w.Sent(n) == Flat(Passes(w, n))
  {
    if n == 0 {
    } else {
      SentIsFlat(w, n - 1);
      assert Passes(w, n)[..n - 1] == Passes(w, n - 1);
    }
  }

  lemma {:induction false} FlatAt(s: seq<seq<Transaction>>, p: nat, j: nat)
    requires p < |s| && j < |s[p]|
    ensures |Flat(s[..p])| + j < |Flat(s)| && Flat(s)[|Flat(s[..p])| + j] == s[p][j]
  {
    var n := |s| - 1;
    if p == n {
    } else {
      FlatAt(s[..n], p, j);
      assert s[..n][..p] == s[..p];
    }
  }

  lemma {:induction false} FlatIs(s: seq<seq<Transaction>>, i: nat) returns (p: nat, j: nat)
    requires i < |Flat(s)|
    ensures p < |s| && j < |s[p]| && i == |Flat(s[..p])| + j && Flat(s)[i] == s[p][j]
  {
    var n := |s| - 1;
    if i < |Flat(s[..n])| {
      p, j := FlatIs(s[..n], i);
      assert s[..n][..p] == s[..p];
    } else {
      p, j := n, i - |Flat(s[..n])|;
    }
  }

  // ---------------------------------------------------------------------------------
  // One pass

  /** The segment of a transaction. */
  ghost function SegmentAt(w: WarpInst, p: nat, j: nat): nat
    requires w.Valid() && p < w.memWarpParts && j < |Pass(w, p)|
    reads w
  {
    Ascending(Blocks(w.Subwarp(p), SegmentSize(w.dataSize)))[j]
  }

  /** The number of bytes of a segment. */
  lemma SegmentBytes(w: WarpInst)
    requires w.Valid()
    ensures SegmentSize(w.dataSize) == if w.dataSize == 1 then 32 else if w.dataSize == 2 then 64 else 128
    ensures w.dataSize == 1 || w.dataSize == 2 || w.dataSize == 4 || w.dataSize == 8 || w.dataSize == 16
  {
  }

  lemma PassOfSubwarp(w: WarpInst, p: nat)
    requires w.Valid() && p < w.memWarpParts
    ensures var a, segment := w.Subwarp(p), SegmentSize(w.dataSize);
      && IsSize(segment) && AllWellFormed(a) && IsListOfBlocks(a, segment, Ascending(Blocks(a, segment)))
      && Pass(w, p) == Emit(a, segment, Ascending(Blocks(a, segment)))
  {
    var lo, hi := PartStart(w.warpSize, w.memWarpParts, p), PartStart(w.warpSize, w.memWarpParts, p + 1);
    PartBounds(w.warpSize, w.memWarpParts, p);
    w.LanesWellFormed(lo, hi);
  }

  lemma RequestOfPart(w: WarpInst, p: nat, x: Access)
    requires w.Valid() && p < w.memWarpParts
    ensures x in w.Subwarp(p) <==>
      && p * (w.warpSize / w.memWarpParts) <= x.lane < (p + 1) * (w.warpSize / w.memWarpParts)
      && exists k :: w.IsPiece(x.lane, k, x.addr, x.size)
  {
    PartBounds(w.warpSize, w.memWarpParts, p);
    w.RequestIff(PartStart(w.warpSize, w.memWarpParts, p), PartStart(w.warpSize, w.memWarpParts, p + 1), x);
  }

  /** A transaction lies in its segment and serves exactly the requests that do. */
  lemma InSegment(w: WarpInst, p: nat, j: nat)
    requires w.Valid() && p < w.memWarpParts && j < |Pass(w, p)|
    ensures var t, b, n := Pass(w, p)[j], SegmentAt(w, p, j), SegmentSize(w.dataSize);
      && IsSize(n) && Aligned(b, n) && b <= t.addr && t.addr + t.size <= b + n
      && ExactFor(ServedBy(w.Subwarp(p), t), t)
  {
    PassOfSubwarp(w, p);
    var a, segment := w.Subwarp(p), SegmentSize(w.dataSize);
    ListedBlock(a, segment, Ascending(Blocks(a, segment)), j);
    MasksAreExact(a, segment, Ascending(Blocks(a, segment)), j);
  }

  lemma SegmentsAscend(w: WarpInst, p: nat, i: nat, j: nat)
    requires w.Valid() && p < w.memWarpParts && i < j < |Pass(w, p)|
    ensures SegmentAt(w, p, i) < SegmentAt(w, p, j)
  {
  }

  /** The lanes a transaction serves. */
  lemma LaneOfPass(w: WarpInst, p: nat, j: nat, t: nat) returns (x: Access)
    requires w.Valid() && p < w.memWarpParts && j < |Pass(w, p)| && t in Pass(w, p)[j].active
    ensures p * (w.warpSize / w.memWarpParts) <= t < (p + 1) * (w.warpSize / w.memWarpParts)
    ensures x.lane == t && x in w.Subwarp(p) && Inside(x, Pass(w, p)[j])
  {
    InSegment(w, p, j);
    var a, q := w.Subwarp(p), Pass(w, p)[j];
    assert t in Lanes(ServedBy(a, q));
    x :| x in ServedBy(a, q) && x.lane == t;
    RequestOfPart(w, p, x);
  }

  // ---------------------------------------------------------------------------------
  // The transactions of the warp

  /** Where a transaction of a subwarp is among those of the warp. */
  ghost function Position(w: WarpInst, p: nat, j: nat): nat
    requires w.Valid() && p < w.memWarpParts
    reads w
  {
    |Flat(Passes(w, w.memWarpParts)[..p])| + j
  }

  lemma InWarp(w: WarpInst, p: nat, j: nat)
    requires w.Valid() && p < w.memWarpParts && j < |Pass(w, p)|
    ensures var q, i := w.Sent(w.memWarpParts), Position(w, p, j); i < |q| && q[i] == Pass(w, p)[j]
  {
    hide *;
    SentIsFlat(w, w.memWarpParts);
    PositionIs(w, p, j);
    PassAt(w, w.memWarpParts, p);
    FlatAt(Passes(w, w.memWarpParts), p, j);
  }

  lemma PositionIs(w: WarpInst, p: nat, j: nat)
    requires w.Valid() && p < w.memWarpParts
    ensures Position(w, p, j) == |Flat(Passes(w, w.memWarpParts)[..p])| + j
  {
  }

  lemma OfPart(w: WarpInst, i: nat) returns (p: nat, j: nat)
    requires w.Valid() && i < |w.Sent(w.memWarpParts)|
    ensures p < w.memWarpParts && j < |Pass(w, p)|
    ensures i == Position(w, p, j) && w.Sent(w.memWarpParts)[i] == Pass(w, p)[j]
  {
    hide *;
    SentIsFlat(w, w.memWarpParts);
    p, j := FlatIs(Passes(w, w.memWarpParts), i);
    PositionIs(w, p, j);
    PassAt(w, w.memWarpParts, p);
  }

  lemma OnePart(w: WarpInst, t: nat, p: nat, p': nat)
    requires w.Valid()
    requires p * (w.warpSize / w.memWarpParts) <= t < (p + 1) * (w.warpSize / w.memWarpParts)
    requires p' * (w.warpSize / w.memWarpParts) <= t < (p' + 1) * (w.warpSize / w.memWarpParts)
    ensures p == p' && w.warpSize / w.memWarpParts > 0 && t / (w.warpSize / w.memWarpParts) == p
  {
    var s := w.warpSize / w.memWarpParts;
    hide *;
    Quotient(t, s, p);
    Quotient(t, s, p');
  }

  lemma Quotient(t: nat, s: nat, p: nat)
    requires p * s <= t < (p + 1) * s
    ensures s > 0 && t / s == p
  {
    assert (p + 1) * s == p * s + s;
    var r := t - p * s;
    assert t == p * s + r && 0 <= r < s;
    if t / s < p {
      Scaled(t / s + 1, p, s);
    } else if p < t / s {
      Scaled(p + 1, t / s, s);
    }
  }

  /** Each piece of each word lies whole in one transaction, which has the lane's bit and the
      bits of its bytes; all others that have the lane's bit lie elsewhere. */
  lemma PieceServedOnce(w: WarpInst, t: nat, k: nat, addr: nat, size: nat) returns (i: nat)
    requires w.Valid() && w.IsPiece(t, k, addr, size)
    ensures var q := w.Sent(w.memWarpParts);
      && i < |q| && Holds(q[i], t, addr, size)
      && forall j :: 0 <= j < |q| && j != i && t in q[j].active ==> Apart(q[i], q[j])
  {
    var p, l := w.WordServedOnce(t, k, addr, size);
    InWarp(w, p, l);
    i := Position(w, p, l);
    forall j | 0 <= j < |w.Sent(w.memWarpParts)| && j != i && t in w.Sent(w.memWarpParts)[j].active
      ensures Apart(w.Sent(w.memWarpParts)[i], w.Sent(w.memWarpParts)[j])
    {
      var p', l' := OfPart(w, j);
      var x := LaneOfPass(w, p', l', t);
      OnePart(w, t, p, p');
    }
  }

  /** Two pieces are served by one transaction exactly if their lanes are of one subwarp and
      they lie in one aligned block of 32, 64 or 128 bytes, for words of one byte, of two, or of
      more. */
  lemma SharedIff(w: WarpInst, t: nat, k: nat, addr: nat, size: nat, u: nat, l: nat, addr': nat, size': nat)
    requires w.Valid() && w.IsPiece(t, k, addr, size) && w.IsPiece(u, l, addr', size')
    ensures w.warpSize / w.memWarpParts > 0
    ensures var q, n := w.Sent(w.memWarpParts), if w.dataSize == 1 then 32 else if w.dataSize == 2 then 64 else 128;
      (exists i :: 0 <= i < |q| && Holds(q[i], t, addr, size) && Holds(q[i], u, addr', size')) <==>
        t / (w.warpSize / w.memWarpParts) == u / (w.warpSize / w.memWarpParts) && addr / n == addr' / n
  {
    var q, n := w.Sent(w.memWarpParts), if w.dataSize == 1 then 32 else if w.dataSize == 2 then 64 else 128;
    var p, j := w.WordServedOnce(t, k, addr, size);
    var p', j' := w.WordServedOnce(u, l, addr', size');
    PieceWellFormed(w, t, k, addr, size);
    PieceWellFormed(w, u, l, addr', size');
    hide *;
    OnePart(w, t, p, p);
    OnePart(w, u, p', p');
    if p == p' && addr / n == addr' / n {
      OneTransaction(w, p, j, t, addr, size, j', u, addr', size');
      InWarp(w, p, j);
    }
    if i :| 0 <= i < |q| && Holds(q[i], t, addr, size) && Holds(q[i], u, addr', size') {
      SharedOnlyIf(w, i, t, addr, size, u, addr', size');
    }
  }

  lemma OneTransaction(w: WarpInst, p: nat, j: nat, t: nat, addr: nat, size: nat,
                       j': nat, u: nat, addr': nat, size': nat)
    requires w.Valid() && p < w.memWarpParts && j < |Pass(w, p)| && j' < |Pass(w, p)| && size > 0 && size' > 0
    requires Holds(Pass(w, p)[j], t, addr, size) && Holds(Pass(w, p)[j'], u, addr', size')
    requires var n := if w.dataSize == 1 then 32 else if w.dataSize == 2 then 64 else 128; addr / n == addr' / n
    ensures j == j'
  {
    hide *;
    PieceBlock(w, p, j, t, addr, size);
    PieceBlock(w, p, j', u, addr', size');
    if j < j' {
      SegmentsAscend(w, p, j, j');
    } else if j' < j {
      SegmentsAscend(w, p, j', j);
    }
  }

  lemma SharedOnlyIf(w: WarpInst, i: nat, t: nat, addr: nat, size: nat, u: nat, addr': nat, size': nat)
    requires w.Valid() && i < |w.Sent(w.memWarpParts)| && size > 0 && size' > 0
    requires Holds(w.Sent(w.memWarpParts)[i], t, addr, size) && Holds(w.Sent(w.memWarpParts)[i], u, addr', size')
    ensures w.warpSize / w.memWarpParts > 0
    ensures var n := if w.dataSize == 1 then 32 else if w.dataSize == 2 then 64 else 128;
      t / (w.warpSize / w.memWarpParts) == u / (w.warpSize / w.memWarpParts) && addr / n == addr' / n
  {
    hide *;
    var p, j := OfPart(w, i);
    HoldsPart(w, p, j, t, addr, size);
    HoldsPart(w, p, j, u, addr', size');
    OnePart(w, t, p, p);
    OnePart(w, u, p, p);
    PieceBlock(w, p, j, t, addr, size);
    PieceBlock(w, p, j, u, addr', size');
  }

  lemma PieceWellFormed(w: WarpInst, t: nat, k: nat, addr: nat, size: nat)
    requires w.Valid() && w.IsPiece(t, k, addr, size)
    ensures WellFormed(Access(t, addr, size)) && size > 0
  {
    w.PieceIff(t, k, addr, size);
  }

  lemma HoldsPart(w: WarpInst, p: nat, j: nat, t: nat, addr: nat, size: nat)
    requires w.Valid() && p < w.memWarpParts && j < |Pass(w, p)| && Holds(Pass(w, p)[j], t, addr, size)
    ensures p * (w.warpSize / w.memWarpParts) <= t < (p + 1) * (w.warpSize / w.memWarpParts)
  {
    var x := LaneOfPass(w, p, j, t);
  }

  /** The segment of a transaction that holds a piece is that of the piece. */
  lemma PieceBlock(w: WarpInst, p: nat, j: nat, t: nat, addr: nat, size: nat)
    requires w.Valid() && p < w.memWarpParts && j < |Pass(w, p)| && Holds(Pass(w, p)[j], t, addr, size)
    requires size > 0
    ensures var n := if w.dataSize == 1 then 32 else if w.dataSize == 2 then 64 else 128;
      SegmentAt(w, p, j) == n * (addr / n)
  {
    InSegment(w, p, j);
    SegmentBytes(w);
    var n := SegmentSize(w.dataSize);
    InBlock(addr, n);
    BlockIs(addr, n);
  }

  // ---------------------------------------------------------------------------------
  // Nothing else is transferred

  /** The byte of memory belongs to a piece that the transaction holds. */
  ghost predicate Uses(w: WarpInst, q: Transaction, c: nat)
    reads w
  {
    exists u: nat, k: nat, addr: nat, size: nat ::
      w.IsPiece(u, k, addr, size) && Holds(q, u, addr, size) && addr <= c < addr + size
  }

  ghost predicate CoversUsed(w: WarpInst, q: Transaction, base: nat, size: nat)
    reads w
  {
    && (size == 32 || size == 64 || size == 128) && base % size == 0
    && forall c: nat :: Uses(w, q, c) ==> base <= c < base + size
  }

  /** The bits of a transaction are those of the pieces it holds, and its block is the smallest
      aligned one of 32, 64 or 128 bytes that has them all. */
  lemma TransactionExact(w: WarpInst, i: nat)
    requires w.Valid() && i < |w.Sent(w.memWarpParts)|
    ensures var q := w.Sent(w.memWarpParts)[i];
      && (forall u :: u in q.active <==>
        exists k: nat, addr: nat, size: nat :: w.IsPiece(u, k, addr, size) && Holds(q, u, addr, size))
      && (forall b :: b in q.bytes <==> exists c: nat :: Uses(w, q, c) && c % 128 == b)
      && CoversUsed(w, q, q.addr, q.size)
      && forall base: nat, size: nat :: CoversUsed(w, q, base, size) ==>
           base <= q.addr && q.addr + q.size <= base + size
  {
    var p, j := OfPart(w, i);
    var a, q := w.Subwarp(p), Pass(w, p)[j];
    InSegment(w, p, j);
    hide *;
    LanesExact(w, p, j);
    BytesExact(w, p, j);
    BlockExact(w, p, j);
  }

  lemma ServedIff(w: WarpInst, p: nat, j: nat, x: Access)
    requires w.Valid() && p < w.memWarpParts && j < |Pass(w, p)|
    ensures var q := Pass(w, p)[j]; x in ServedBy(w.Subwarp(p), q) <==>
      exists k: nat :: w.IsPiece(x.lane, k, x.addr, x.size) && Holds(q, x.lane, x.addr, x.size)
  {
    var a, q := w.Subwarp(p), Pass(w, p)[j];
    InSegment(w, p, j);
    RequestOfPart(w, p, x);
    if x in ServedBy(a, q) {
      assert x.lane in Lanes(ServedBy(a, q)) && forall o :: o in Offsets(x) ==> o in Bytes(ServedBy(a, q));
      var k: nat :| w.IsPiece(x.lane, k, x.addr, x.size);
      PieceWellFormed(w, x.lane, k, x.addr, x.size);
      HoldsIf(q, x);
    } else if k: nat :| w.IsPiece(x.lane, k, x.addr, x.size) && Holds(q, x.lane, x.addr, x.size) {
      var y := LaneOfPass(w, p, j, x.lane);
      assert false;
    }
  }

  lemma LanesExact(w: WarpInst, p: nat, j: nat)
    requires w.Valid() && p < w.memWarpParts && j < |Pass(w, p)|
    ensures var q := Pass(w, p)[j];
      forall u :: u in q.active <==>
        exists k: nat, addr: nat, size: nat :: w.IsPiece(u, k, addr, size) && Holds(q, u, addr, size)
  {
    var q := Pass(w, p)[j];
    hide *;
    forall u | u in q.active
      ensures exists k: nat, addr: nat, size: nat :: w.IsPiece(u, k, addr, size) && Holds(q, u, addr, size)
    {
      var x := LaneOfPass(w, p, j, u);
      InServed(w, p, j, x);
      ServedIff(w, p, j, x);
      var k: nat :| w.IsPiece(x.lane, k, x.addr, x.size) && Holds(q, x.lane, x.addr, x.size);
    }
    forall u: nat, k: nat, addr: nat, size: nat | w.IsPiece(u, k, addr, size) && Holds(q, u, addr, size)
      ensures u in q.active
    {
      LaneHeld(q, u, addr, size);
    }
  }

  lemma LaneHeld(q: Transaction, u: nat, addr: nat, size: nat)
    requires Holds(q, u, addr, size)
    ensures u in q.active
  {
  }

  lemma InServed(w: WarpInst, p: nat, j: nat, x: Access)
    requires w.Valid() && p < w.memWarpParts && j < |Pass(w, p)| && x in w.Subwarp(p) && Inside(x, Pass(w, p)[j])
    ensures x in ServedBy(w.Subwarp(p), Pass(w, p)[j])
  {
  }

  lemma UsedIff(w: WarpInst, p: nat, j: nat, c: nat)
    requires w.Valid() && p < w.memWarpParts && j < |Pass(w, p)|
    ensures var q := Pass(w, p)[j]; c in Used(ServedBy(w.Subwarp(p), q)) <==> Uses(w, q, c)
  {
    var q := Pass(w, p)[j];
    var g := ServedBy(w.Subwarp(p), q);
    hide Pass, Holds, ServedBy, w.IsPiece, w.Subwarp, w.Valid;
    if c in Used(g) {
      var x :| x in g && c in Words(x);
      ServedIff(w, p, j, x);
    }
    if Uses(w, q, c) {
      var u: nat, k: nat, addr: nat, size: nat :|
        w.IsPiece(u, k, addr, size) && Holds(q, u, addr, size) && addr <= c < addr + size;
      ServedIff(w, p, j, Access(u, addr, size));
      assert c in Words(Access(u, addr, size));
    }
  }

  lemma ByteOfWord(x: Access, o: nat) returns (c: nat)
    requires WellFormed(x) && o in Offsets(x)
    ensures x.addr <= c < x.addr + x.size && c % 128 == o
  {
    OneChunk(x.addr, x.size);
    c := x.addr - x.addr % 128 + o;
    SameQuotient(c, x.addr / 128);
  }

  lemma BytesExact(w: WarpInst, p: nat, j: nat)
    requires w.Valid() && p < w.memWarpParts && j < |Pass(w, p)|
    ensures var q := Pass(w, p)[j]; forall b :: b in q.bytes <==> exists c: nat :: Uses(w, q, c) && c % 128 == b
  {
    var q := Pass(w, p)[j];
    InSegment(w, p, j);
    var g := ServedBy(w.Subwarp(p), q);
    assert q.bytes == Bytes(g);
    hide Pass, ServedBy, w.IsPiece, w.Subwarp, w.Valid, ExactFor;
    forall b | b in q.bytes
      ensures exists c: nat :: Uses(w, q, c) && c % 128 == b
    {
      var x :| x in g && b in Offsets(x);
      ServedIff(w, p, j, x);
      var k: nat :| w.IsPiece(x.lane, k, x.addr, x.size) && Holds(q, x.lane, x.addr, x.size);
      PieceWellFormed(w, x.lane, k, x.addr, x.size);
      var c := ByteOfWord(x, b);
      assert Uses(w, q, c);
    }
    forall c: nat | Uses(w, q, c)
      ensures c % 128 in q.bytes
    {
      var u: nat, k: nat, addr: nat, size: nat :|
        w.IsPiece(u, k, addr, size) && Holds(q, u, addr, size) && addr <= c < addr + size;
      assert HasByte(q, c);
    }
  }

  lemma BlockExact(w: WarpInst, p: nat, j: nat)
    requires w.Valid() && p < w.memWarpParts && j < |Pass(w, p)|
    ensures var q := Pass(w, p)[j];
      && CoversUsed(w, q, q.addr, q.size)
      && forall base: nat, size: nat :: CoversUsed(w, q, base, size) ==>
           base <= q.addr && q.addr + q.size <= base + size
  {
    var q := Pass(w, p)[j];
    InSegment(w, p, j);
    var used := Used(ServedBy(w.Subwarp(p), q));
    assert Smallest(q.addr, q.size, used);
    hide Pass, ServedBy, w.IsPiece, w.Subwarp, w.Valid, ExactFor, Uses, Used;
    forall c: nat
      ensures Uses(w, q, c) <==> c in used
    {
      UsedIff(w, p, j, c);
    }
    forall base: nat, size: nat
      ensures CoversUsed(w, q, base, size) <==> Covers(base, size, used)
    {
    }
  }

  /** Those of a subwarp come in the order of their addresses, and the subwarps in turn. */
  lemma InOrder(w: WarpInst, i: nat, j: nat, t: nat, u: nat)
    requires w.Valid() && i < j < |w.Sent(w.memWarpParts)|
    requires t in w.Sent(w.memWarpParts)[i].active && u in w.Sent(w.memWarpParts)[j].active
    ensures w.warpSize / w.memWarpParts > 0
    ensures var q, s := w.Sent(w.memWarpParts), w.warpSize / w.memWarpParts;
      t / s <= u / s && (t / s == u / s ==> q[i].addr + q[i].size <= q[j].addr)
  {
    hide *;
    var p, k := OfPart(w, i);
    var p', k' := OfPart(w, j);
    var x := LaneOfPass(w, p, k, t);
    var y := LaneOfPass(w, p', k', u);
    OnePart(w, t, p, p);
    OnePart(w, u, p', p');
    if p == p' {
      PositionIs(w, p, k);
      PositionIs(w, p, k');
      PassInOrder(w, p, k, k');
    } else if p' < p {
      EarlierPart(w, p', k', p, k);
      assert false;
    }
  }

  lemma PassInOrder(w: WarpInst, p: nat, k: nat, k': nat)
    requires w.Valid() && p < w.memWarpParts && k < k' < |Pass(w, p)|
    ensures Pass(w, p)[k].addr + Pass(w, p)[k].size <= Pass(w, p)[k'].addr
  {
    hide *;
    InSegment(w, p, k);
    InSegment(w, p, k');
    SegmentsAscend(w, p, k, k');
    BlocksApart(SegmentAt(w, p, k), SegmentAt(w, p, k'), SegmentSize(w.dataSize));
  }

  lemma EarlierPart(w: WarpInst, p: nat, j: nat, p': nat, j': nat)
    requires w.Valid() && p < p' < w.memWarpParts && j < |Pass(w, p)|
    ensures Position(w, p, j) < Position(w, p', j')
  {
    var s := Passes(w, w.memWarpParts);
    hide *;
    PositionIs(w, p, j);
    PositionIs(w, p', j');
    PassAt(w, w.memWarpParts, p);
    assert s[..p'][..p] == s[..p];
    FlatAt(s[..p'], p, j);
  }

  // ---------------------------------------------------------------------------------
  // Atomics

  /** A transaction of a list of lists is one of a segment's, and back. */
  lemma {:induction false} SlotOf(a: seq<Access>, segment: nat, bs: seq<nat>, i: nat) returns (b: nat, k: nat)
    requires segment > 0 && i < |EmitSlots(a, segment, bs)|
    ensures b in bs && k < Depth(a, segment, b)
    ensures EmitSlots(a, segment, bs)[i] == Slots(a, segment, b, Depth(a, segment, b))[k]
  {
    hide Depth, Slots;
    var n := |bs| - 1;
    if i < |EmitSlots(a, segment, bs[..n])| {
      b, k := SlotOf(a, segment, bs[..n], i);
    } else {
      b, k := bs[n], i - |EmitSlots(a, segment, bs[..n])|;
    }
  }

  lemma {:induction false} SlotAt(a: seq<Access>, segment: nat, bs: seq<nat>, b: nat, k: nat) returns (i: nat)
    requires segment > 0 && b in bs && k < Depth(a, segment, b)
    ensures i < |EmitSlots(a, segment, bs)|
    ensures EmitSlots(a, segment, bs)[i] == Slots(a, segment, b, Depth(a, segment, b))[k]
  {
    hide Depth, Slots;
    var n := |bs| - 1;
    if bs[n] == b {
      i := |EmitSlots(a, segment, bs[..n])| + k;
    } else {
      assert b in bs[..n];
      i := SlotAt(a, segment, bs[..n], b, k);
    }
  }

  /** One of the transactions has the bits of both lanes. */
  ghost predicate Share(q: seq<Transaction>, t: nat, u: nat) {
    exists i :: 0 <= i < |q| && t in q[i].active && u in q[i].active
  }

  lemma Shared(q: seq<Transaction>, t: nat, u: nat) returns (i: nat)
    requires Share(q, t, u)
    ensures i < |q| && t in q[i].active && u in q[i].active
  {
    i :| i < |q| && t in q[i].active && u in q[i].active;
  }

  lemma ShareAt(q: seq<Transaction>, i: nat, t: nat, u: nat)
    requires i < |q| && t in q[i].active && u in q[i].active
    ensures Share(q, t, u)
  {
  }

  lemma ShareEither(p: seq<Transaction>, q: seq<Transaction>, t: nat, u: nat)
    ensures Share(p + q, t, u) <==> Share(p, t, u) || Share(q, t, u)
  {
    forall i | 0 <= i < |q|
      ensures (p + q)[|p| + i] == q[i]
    {
    }
    forall i | 0 <= i < |p|
      ensures (p + q)[i] == p[i]
    {
    }
  }

  /** Two requests of a pass share a transaction exactly if they have one segment and one rank. */
  lemma PassSharedIff(a: seq<Access>, size: nat, segment: nat, i: nat, j: nat)
    requires Uniform(a, size) && IsSize(segment) && i < |a| && j < |a|
    ensures Share(AtomicPass(a, segment), a[i].lane, a[j].lane) <==>
        Block(a[i].addr, segment) == Block(a[j].addr, segment) && Rank(a, i) == Rank(a, j)
  {
    var q, bs := AtomicPass(a, segment), Ascending(Blocks(a, segment));
    assert Block(a[i].addr, segment) in bs;
    PassOf(a, segment);
    hide *;
    LaneInItsSlot(a, size, segment, i);
    LaneInItsSlot(a, size, segment, j);
    if Share(q, a[i].lane, a[j].lane) {
      var h := Shared(q, a[i].lane, a[j].lane);
      var b, k := SlotOf(a, segment, bs, h);
    }
    if Block(a[i].addr, segment) == Block(a[j].addr, segment) && Rank(a, i) == Rank(a, j) {
      var h := SlotAt(a, segment, bs, Block(a[i].addr, segment), Rank(a, i));
      ShareAt(q, h, a[i].lane, a[j].lane);
    }
  }

  /** The active lanes from `lo` and before `t` that have the address. */
  ghost function LanesAt(w: WarpInst, lo: nat, t: nat, addr: nat): set<nat>
    requires w.Valid() && t <= w.warpSize
    reads w
  {
    set v | lo <= v < t && v in w.active && w.addrs[v][0] == addr
  }

  lemma LanesAtNext(w: WarpInst, lo: nat, t: nat, addr: nat)
    requires w.Valid() && lo <= t < w.warpSize
    ensures |LanesAt(w, lo, t + 1, addr)| ==
      |LanesAt(w, lo, t, addr)| + if t in w.active && w.addrs[t][0] == addr then 1 else 0
  {
    assert LanesAt(w, lo, t + 1, addr) ==
      LanesAt(w, lo, t, addr) + if t in w.active && w.addrs[t][0] == addr then {t} else {};
  }

  lemma CountNext(a: seq<Access>, x: Access, addr: nat)
    ensures Count(a + [x], addr) == Count(a, addr) + if x.addr == addr then 1 else 0
  {
    assert (a + [x])[..|a|] == a;
  }

  lemma CountNone(w: WarpInst, lo: nat, addr: nat)
    requires w.Valid() && lo <= w.warpSize
    ensures Count(w.Lanes(lo, lo), addr) == |LanesAt(w, lo, lo, addr)| == 0
  {
    assert LanesAt(w, lo, lo, addr) == {};
  }

  lemma {:induction false} CountIs(w: WarpInst, lo: nat, t: nat, addr: nat)
    requires w.Valid() && !w.isLocal && lo <= t <= w.warpSize
    ensures Count(w.Lanes(lo, t), addr) == |LanesAt(w, lo, t, addr)|
    decreases t
  {
    hide *;
    if t == lo {
      CountNone(w, lo, addr);
    } else {
      CountIs(w, lo, t - 1, addr);
      w.NextLane(lo, t - 1);
      LanesAtNext(w, lo, t - 1, addr);
      if t - 1 in w.active {
        CountNext(w.Lanes(lo, t - 1), Access(t - 1, w.addrs[t - 1][0], w.dataSize), addr);
      }
    }
  }

  /** The place of an active lane among the requests of a half warp. */
  lemma {:induction false} PlaceOf(w: WarpInst, lo: nat, hi: nat, t: nat)
    requires w.Valid() && !w.isLocal && lo <= t < hi <= w.warpSize && t in w.active
    ensures var a, i := w.Lanes(lo, hi), |w.Lanes(lo, t)|;
      i < |a| && a[i] == Access(t, w.addrs[t][0], w.dataSize) && a[..i] == w.Lanes(lo, t)
    decreases hi
  {
    w.NextLane(lo, hi - 1);
    if t == hi - 1 {
    } else {
      PlaceOf(w, lo, hi - 1, t);
    }
  }

  lemma LanesShareIff(w: WarpInst, lo: nat, hi: nat, t: nat, u: nat)
    requires w.Valid() && !w.isLocal && lo <= t < hi <= w.warpSize && lo <= u < hi
    requires t in w.active && u in w.active
    ensures var n := if w.dataSize == 1 then 32 else if w.dataSize == 2 then 64 else 128;
      Share(AtomicPass(w.Lanes(lo, hi), SegmentSize(w.dataSize)), t, u) <==>
        && w.addrs[t][0] / n == w.addrs[u][0] / n
        && |LanesAt(w, lo, t, w.addrs[t][0])| == |LanesAt(w, lo, u, w.addrs[u][0])|
  {
    var a, segment := w.Lanes(lo, hi), SegmentSize(w.dataSize);
    w.LanesUniform(lo, hi);
    SegmentBytes(w);
    w.SegmentIsSize();
    BlockIs(w.addrs[t][0], segment);
    BlockIs(w.addrs[u][0], segment);
    hide *;
    PlaceOf(w, lo, hi, t);
    PlaceOf(w, lo, hi, u);
    var i, j := |w.Lanes(lo, t)|, |w.Lanes(lo, u)|;
    RankIs(w, a, lo, t);
    RankIs(w, a, lo, u);
    PassSharedIff(a, w.dataSize, segment, i, j);
  }

  lemma RankIs(w: WarpInst, a: seq<Access>, lo: nat, t: nat)
    requires w.Valid() && !w.isLocal && lo <= t < w.warpSize && t in w.active
    requires |w.Lanes(lo, t)| < |a| && a[..|w.Lanes(lo, t)|] == w.Lanes(lo, t)
    requires a[|w.Lanes(lo, t)|] == Access(t, w.addrs[t][0], w.dataSize)
    ensures Rank(a, |w.Lanes(lo, t)|) == |LanesAt(w, lo, t, w.addrs[t][0])|
  {
    var addr := w.addrs[t][0];
    hide w.Valid, w.Lanes, LanesAt, Count;
    CountIs(w, lo, t, addr);
  }

  /** The first lane of the half warp of a lane. */
  ghost function HalfStart(w: WarpInst, t: nat): nat {
    if t < w.warpSize / 2 then 0 else w.warpSize / 2
  }

  /** Two active lanes are served by one transaction of an atomic exactly if they are of one half
      warp, their words lie in one aligned block of 32, 64 or 128 bytes, for words of one byte,
      of two, or of more, and as many active lanes of the half warp come before the one at its
      address as before the other at its own. */
  lemma AtomicSharedIff(w: WarpInst, t: nat, u: nat)
    requires w.Valid() && !w.isLocal && w.warpSize % 2 == 0
    requires t < w.warpSize && u < w.warpSize && t in w.active && u in w.active
    ensures var n := if w.dataSize == 1 then 32 else if w.dataSize == 2 then 64 else 128;
      Share(w.SentAtomic(2), t, u) <==>
        && (t < w.warpSize / 2 <==> u < w.warpSize / 2)
        && w.addrs[t][0] / n == w.addrs[u][0] / n
        && |LanesAt(w, HalfStart(w, t), t, w.addrs[t][0])| == |LanesAt(w, HalfStart(w, u), u, w.addrs[u][0])|
  {
    var h, segment := w.warpSize / 2, SegmentSize(w.dataSize);
    HalvesOf(w, t);
    hide *;
    HalfShares(w, 0, h, t, u);
    HalfShares(w, h, w.warpSize, t, u);
    ShareEither(AtomicPass(w.Lanes(0, h), segment), AtomicPass(w.Lanes(h, w.warpSize), segment), t, u);
    StartOfHalf(w, t);
    StartOfHalf(w, u);
  }

  lemma StartOfHalf(w: WarpInst, t: nat)
    ensures HalfStart(w, t) == if t < w.warpSize / 2 then 0 else w.warpSize / 2
  {
  }

  lemma HalvesOf(w: WarpInst, t: nat)
    requires w.Valid() && !w.isLocal && w.warpSize % 2 == 0
    ensures var h, segment := w.warpSize / 2, SegmentSize(w.dataSize);
      && segment > 0 && h <= w.warpSize
      && w.SentAtomic(2) == AtomicPass(w.Lanes(0, h), segment) + AtomicPass(w.Lanes(h, w.warpSize), segment)
  {
    TwoParts(w.warpSize);
    w.SegmentIsSize();
    hide *;
    w.BothHalves(t);
  }

  lemma TwoParts(n: nat)
    requires n % 2 == 0
    ensures PartStart(n, 2, 0) == 0 && PartStart(n, 2, 1) == n / 2 && PartStart(n, 2, 2) == n
  {
  }

  lemma HalfShares(w: WarpInst, lo: nat, hi: nat, t: nat, u: nat)
    requires w.Valid() && !w.isLocal && lo <= hi <= w.warpSize && t in w.active && u in w.active
    requires t < w.warpSize && u < w.warpSize
    ensures var n := if w.dataSize == 1 then 32 else if w.dataSize == 2 then 64 else 128;
      Share(AtomicPass(w.Lanes(lo, hi), SegmentSize(w.dataSize)), t, u) <==>
        && lo <= t < hi && lo <= u < hi && w.addrs[t][0] / n == w.addrs[u][0] / n
        && |LanesAt(w, lo, t, w.addrs[t][0])| == |LanesAt(w, lo, u, w.addrs[u][0])|
  {
    if lo <= t < hi && lo <= u < hi {
      LanesShareIff(w, lo, hi, t, u);
    } else {
      w.OthersNotServed(lo, hi, if lo <= t < hi then u else t);
    }
  }
}
