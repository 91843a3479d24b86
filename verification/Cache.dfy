/** The set-associative caches of the CPU model (src/cpu-sim/cache.{h,cpp}): geometry,
    look-up, victim selection and replacement. */
module Cache {

  // ---------------------------------------------------------------------------------
  // Geometry

  function Pow2(n: nat): (r: nat)
    ensures r >= 1
  {
    if n == 0 then 1 else 2 * Pow2(n - 1)
  }

  lemma {:induction false} Pow2Add(m: nat, n: nat)
    ensures Pow2(m + n) == Pow2(m) * Pow2(n)
  {
    if m == 0 {
    } else {
      Pow2Add(m - 1, n);
      assert Pow2(m + n) == 2 * Pow2(m - 1 + n) == 2 * (Pow2(m - 1) * Pow2(n)) == Pow2(m) * Pow2(n);
    }
  }

  lemma {:induction false} Pow2Monotonic(m: nat, n: nat)
    requires m < n
    ensures 2 * Pow2(m) <= Pow2(n)
  {
    if m + 1 < n {
      Pow2Monotonic(m, n - 1);
    }
  }

  lemma QuotientIs(a: nat, d: nat, q: nat, r: nat)
    requires d > 0 && a == d * q + r && r < d
    ensures a / d == q && a % d == r
  {
    var k := a / d - q;
    assert d * (a / d) + a % d == a;
    assert d * k == r - a % d;
    assert 0 < d * k + d && d * k < d;
    assert k == 0;
  }

  lemma QuotientOfQuotient(a: nat, x: nat, y: nat)
    requires x > 0 && y > 0
    ensures x * y > 0 && a / (x * y) == a / x / y
  {
    QuotientTwice(a, x, y, a / x, a % x, a / x / y, a / x % y);
  }

  lemma QuotientTwice(a: nat, x: nat, y: nat, q: nat, r: nat, q': nat, r': nat)
    requires r < x && r' < y && a == x * q + r && q == y * q' + r'
    ensures x * y > 0 && a / (x * y) == q'
  {
    Distribute(x, y, q', r', r);
    QuotientIs(a, x * y, q', x * r' + r);
  }

  lemma Distribute(x: nat, y: nat, q: nat, s: nat, r: nat)
    requires s < y && r < x
    ensures x * (y * q + s) + r == (x * y) * q + (x * s + r)
    ensures x * s + r < x * y
  {
    assert x * (y * q + s) == x * (y * q) + x * s;
    assert x * s <= x * (y - 1);
  }

  /** `a >> n`. */
  function Shift(a: nat, n: nat): nat {
    NaturalQuotient(a, Pow2(n));
    a / Pow2(n)
  }

  lemma NaturalQuotient(a: nat, d: nat)
    requires d > 0
    ensures a / d >= 0
  {
    var q := a / d;
    assert a == d * q + a % d;
    assert q <= -1 ==> d * q <= d * -1;
  }

  /** The number of bits of `x`, by shifting it out. */
  method FloorLog2(x: nat) returns (y: nat)
    ensures x < Pow2(y)
    ensures y > 0 ==> Pow2(y - 1) <= x
  {
    y := 0;
    var r := x;
    while r != 0
      invariant r == Shift(x, y)
      invariant y > 0 ==> Pow2(y - 1) <= x
      decreases r
    {
      ShiftOnce(x, y);
      y := y + 1;
      r := Shift(x, y);
    }
    ShiftOnce(x, y);
  }

  lemma ShiftOnce(x: nat, y: nat)
    ensures Shift(x, y + 1) == Shift(x, y) / 2
    ensures Shift(x, y) == 0 <==> x < Pow2(y)
  {
    QuotientOfQuotient(x, Pow2(y), 2);
    assert x == Pow2(y) * Shift(x, y) + x % Pow2(y);
  }

  /** The mask of the low `x` bits, one bit at a time. */
  method Log2Mask(x: nat) returns (mask: nat)
    ensures mask == Pow2(x) - 1
  {
    mask := 0;
    var i := 0;
    while i < x
      invariant i <= x && mask == Pow2(i) - 1
    {
      mask := mask + Pow2(i);
      i := i + 1;
    }
  }

  datatype Geometry = Geometry(setShift: nat, setBits: nat)

  /** The geometry part of the constructor, on power-of-two sizes: the shifts it computes
      are the exponents of the line size and of the number of sets. */
  method Shifts(lineBits: nat, setBits: nat) returns (g: Geometry, setMask: nat, tagShift: nat)
    ensures g == Geometry(lineBits, setBits) && setMask == NumSets(g) - 1 && tagShift == g.setShift + g.setBits
  {
    var lineSize, numSets := Pow2(lineBits), Pow2(setBits);
    var setShift := FloorLog2(lineSize - 1);
    ExponentIs(lineSize - 1, setShift, lineBits);
    var bits := FloorLog2(numSets - 1);
    ExponentIs(numSets - 1, bits, setBits);
    setMask := Log2Mask(bits);
    tagShift := setShift + bits;
    g := Geometry(setShift, bits);
  }

  lemma ExponentIs(x: nat, y: nat, n: nat)
    requires x == Pow2(n) - 1 && x < Pow2(y) && (y > 0 ==> Pow2(y - 1) <= x)
    ensures y == n
  {
    if y < n {
      Pow2Monotonic(y, n);
    } else if y > n {
      if n < y - 1 {
        Pow2Monotonic(n, y - 1);
      }
    }
  }

  ghost function LineSize(g: Geometry): nat { Pow2(g.setShift) }

  function NumSets(g: Geometry): nat { Pow2(g.setBits) }

  /** The cache line an address lies on. */
  function LineOf(g: Geometry, a: nat): nat { Shift(a, g.setShift) }

  /** `DECODE_SET`: `(addr >> set_shift) & set_mask`. */
  function SetOf(g: Geometry, a: nat): (i: nat)
    ensures i < NumSets(g)
  {
    Shift(a, g.setShift) % Pow2(g.setBits)
  }

  /** `addr >> tag_shift`. */
  function TagOf(g: Geometry, a: nat): nat { Shift(a, g.setShift + g.setBits) }

  /** Tag and set together say which line an address lies on, and nothing less does. */
  lemma TagAndSet(g: Geometry, a: nat, b: nat)
    ensures LineOf(g, a) == LineOf(g, b) <==> TagOf(g, a) == TagOf(g, b) && SetOf(g, a) == SetOf(g, b)
  {
    var x, y := Pow2(g.setShift), Pow2(g.setBits);
    Pow2Add(g.setShift, g.setBits);
    QuotientOfQuotient(a, x, y);
    QuotientOfQuotient(b, x, y);
    assert LineOf(g, a) == y * TagOf(g, a) + SetOf(g, a);
    assert LineOf(g, b) == y * TagOf(g, b) + SetOf(g, b);
  }

  /** Lines are numbered from zero up, and lie in the sets in turn. */
  lemma LinesInTurn(g: Geometry, a: nat)
    ensures a < LineSize(g) ==> LineOf(g, a) == 0 && SetOf(g, a) == 0
    ensures LineOf(g, a + LineSize(g)) == LineOf(g, a) + 1
    ensures SetOf(g, a + LineSize(g)) == if SetOf(g, a) + 1 == NumSets(g) then 0 else SetOf(g, a) + 1
  {
    var x, y, q := LineSize(g), NumSets(g), LineOf(g, a);
    NextQuotient(a, x);
    NextRemainder(q, y);
    hide Pow2;
    if a < x {
      QuotientIs(a, x, 0, a);
      QuotientIs(0, y, 0, 0);
    }
  }

  lemma NextQuotient(a: nat, x: nat)
    requires x > 0
    ensures (a + x) / x == a / x + 1
  {
    var q, r := a / x, a % x;
    assert a == x * q + r && x * (q + 1) == x * q + x;
    NaturalQuotient(a, x);
    QuotientIs(a + x, x, q + 1, r);
  }

  lemma NextRemainder(q: nat, y: nat)
    requires y > 0
    ensures (q + 1) % y == if q % y + 1 == y then 0 else q % y + 1
  {
    var p, r := q / y, q % y;
    NaturalQuotient(q, y);
    assert q == y * p + r && y * (p + 1) == y * p + y;
    if r + 1 == y {
      QuotientIs(q + 1, y, p + 1, 0);
    } else {
      QuotientIs(q + 1, y, p, r + 1);
    }
  }

  // ---------------------------------------------------------------------------------
  // Cache states

  datatype LineState = Modified | Exclusive | Shared | Invalid

  /** `CLINE`. */
  datatype Line = Line(address: nat, state: LineState, touched: int)

  /** `CSET`; the associativity is the number of lines. */
  datatype CSet = CSet(lines: seq<Line>, numLines: int)

  /** The mutable part of `CACHE`: its sets and `numrefs_for_repl`. */
  datatype State = State(sets: seq<CSet>, refs: int)

  predicate Hit(g: Geometry, l: Line, a: nat) {
    TagOf(g, l.address) == TagOf(g, a) && l.state != Invalid
  }

  /** The first of the lines from `n` on that holds `a`, or the number of lines. */
  function Find(g: Geometry, lines: seq<Line>, a: nat, n: nat): (i: nat)
    requires n <= |lines|
    ensures n <= i <= |lines| && (i < |lines| ==> Hit(g, lines[i], a))
    ensures forall k :: n <= k < i ==> !Hit(g, lines[k], a)
    decreases |lines| - n
  {
    if n == |lines| || Hit(g, lines[n], a) then n else Find(g, lines, a, n + 1)
  }

  predicate Shape(g: Geometry, c: State) {
    |c.sets| == NumSets(g)
  }

  function SetAt(g: Geometry, c: State, a: nat): CSet
    requires Shape(g, c)
  {
    c.sets[SetOf(g, a)]
  }

  function Lookup(g: Geometry, c: State, a: nat): LineState
    requires Shape(g, c)
  {
    var lines := SetAt(g, c, a).lines;
    var i := Find(g, lines, a, 0);
    if i < |lines| then lines[i].state else Invalid
  }

  /** A look-up with `update` set stamps the line it finds. */
  function Touch(g: Geometry, c: State, a: nat): State
    requires Shape(g, c)
  {
    var s := SetAt(g, c, a);
    var i := Find(g, s.lines, a, 0);
    if i < |s.lines| then
      c.(sets := c.sets[SetOf(g, a) := s.(lines := s.lines[i := s.lines[i].(touched := c.refs)])])
    else c
  }

  /** `determinel1miss` and `determinel2miss`: a hit advances the clock and stamps the
      line, a miss leaves the cache alone. */
  function Access(g: Geometry, c: State, a: nat): State
    requires Shape(g, c)
  {
    if Lookup(g, c, a) == Invalid then c else Touch(g, c.(refs := c.refs + 1), a)
  }

  function CountValid(lines: seq<Line>): nat {
    if lines == [] then 0 else (if lines[0].state == Invalid then 0 else 1) + CountValid(lines[1..])
  }

  function FirstInvalid(lines: seq<Line>): (i: nat)
    requires CountValid(lines) < |lines|
    ensures i < |lines| && lines[i].state == Invalid && forall k :: 0 <= k < i ==> lines[k].state != Invalid
  {
    if lines[0].state == Invalid then 0 else 1 + FirstInvalid(lines[1..])
  }

  /** The line with the smallest stamp among the first `n`; the lowest one, if several. */
  function Oldest(lines: seq<Line>, n: nat): (i: nat)
    requires 0 < n <= |lines|
    ensures i < n && (forall k :: 0 <= k < n ==> lines[i].touched <= lines[k].touched)
    ensures forall k :: 0 <= k < i ==> lines[i].touched < lines[k].touched
  {
    if n == 1 then 0
    else
      var i := Oldest(lines, n - 1);
      if lines[i].touched > lines[n - 1].touched then n - 1 else i
  }

  predicate Full(s: CSet) { s.numLines >= |s.lines| }

  ghost predicate ValidSet(g: Geometry, s: CSet, index: nat, refs: int) {
    && |s.lines| > 0
    && s.numLines == CountValid(s.lines)
    && (forall i :: 0 <= i < |s.lines| ==> s.lines[i].touched <= refs)
    && (forall i :: 0 <= i < |s.lines| && s.lines[i].state != Invalid ==> SetOf(g, s.lines[i].address) == index)
    && DistinctTags(g, s.lines)
  }

  ghost predicate DistinctTags(g: Geometry, lines: seq<Line>) {
    forall i, j :: 0 <= i < j < |lines| && lines[i].state != Invalid && lines[j].state != Invalid ==>
      TagOf(g, lines[i].address) != TagOf(g, lines[j].address)
  }

  /** Every set holds at most one valid line of each tag, counts its valid lines, and bears
      no stamp later than the clock. */
  ghost predicate Valid(g: Geometry, c: State) {
    && Shape(g, c)
    && forall i :: 0 <= i < |c.sets| ==> ValidSet(g, c.sets[i], i, c.refs)
  }

  function VictimPos(s: CSet): (p: nat)
    requires |s.lines| > 0 && (Full(s) || s.numLines == CountValid(s.lines))
    ensures p < |s.lines|
  {
    if Full(s) then Oldest(s.lines, |s.lines|) else FirstInvalid(s.lines)
  }

  function FillSet(s: CSet, a: nat, st: LineState, refs: int): CSet
    requires |s.lines| > 0 && (Full(s) || s.numLines == CountValid(s.lines))
  {
    CSet(s.lines[VictimPos(s) := Line(a, st, refs)], if Full(s) then s.numLines else s.numLines + 1)
  }

  /** `victim_lookup` followed by `replace_victim`. */
  function Fill(g: Geometry, c: State, a: nat, st: LineState): State
    requires Valid(g, c)
  {
    c.(sets := c.sets[SetOf(g, a) := FillSet(SetAt(g, c, a), a, st, c.refs)])
  }

  /** The line a fill takes out of the cache, if any. */
  ghost function Evicted(g: Geometry, c: State, a: nat): set<nat>
    requires Valid(g, c)
  {
    var s := SetAt(g, c, a);
    if Full(s) then {LineOf(g, s.lines[VictimPos(s)].address)} else {}
  }

  lemma {:induction false} CountAfterUpdate(lines: seq<Line>, p: nat, l: Line)
    requires p < |lines|
    ensures CountValid(lines[p := l]) == CountValid(lines)
      - (if lines[p].state == Invalid then 0 else 1) + (if l.state == Invalid then 0 else 1)
  {
    if p == 0 {
      assert lines[0 := l][1..] == lines[1..];
    } else {
      assert lines[p := l][1..] == lines[1..][p - 1 := l];
      CountAfterUpdate(lines[1..], p - 1, l);
    }
  }

  lemma {:induction false} CountAll(lines: seq<Line>)
    ensures CountValid(lines) <= |lines|
    ensures CountValid(lines) == |lines| <==> forall i :: 0 <= i < |lines| ==> lines[i].state != Invalid
  {
    if lines == [] {
    } else {
      CountAll(lines[1..]);
      assert forall i :: 0 < i < |lines| ==> lines[i] == lines[1..][i - 1];
      assert (forall i :: 0 <= i < |lines| ==> lines[i].state != Invalid) <==>
        lines[0].state != Invalid && forall i :: 0 <= i < |lines[1..]| ==> lines[1..][i].state != Invalid;
    }
  }

  lemma FindIs(g: Geometry, lines: seq<Line>, a: nat, i: nat)
    requires i < |lines| && Hit(g, lines[i], a) && forall k :: 0 <= k < i ==> !Hit(g, lines[k], a)
    ensures Find(g, lines, a, 0) == i
  {
  }

  /** The line in a valid set that holds an address is the only one that does. */
  lemma OnlyHit(g: Geometry, s: CSet, index: nat, refs: int, a: nat, i: nat)
    requires ValidSet(g, s, index, refs) && i < |s.lines| && Hit(g, s.lines[i], a)
    ensures Find(g, s.lines, a, 0) == i
  {
    FindIs(g, s.lines, a, i);
  }

  lemma FilledSet(g: Geometry, s: CSet, refs: int, a: nat, st: LineState)
    requires ValidSet(g, s, SetOf(g, a), refs) && Find(g, s.lines, a, 0) == |s.lines| && st != Invalid
    ensures ValidSet(g, FillSet(s, a, st, refs), SetOf(g, a), refs)
  {
    var p, l := VictimPos(s), Line(a, st, refs);
    VictimState(s);
    assert forall k :: 0 <= k < |s.lines| ==> !Hit(g, s.lines[k], a);
    assert FillSet(s, a, st, refs) ==
      CSet(s.lines[p := l], if s.lines[p].state == Invalid then s.numLines + 1 else s.numLines);
    hide *;
    LineReplaced(g, s, refs, p, l);
  }

  lemma VictimState(s: CSet)
    requires |s.lines| > 0 && s.numLines == CountValid(s.lines)
    ensures Full(s) <==> s.lines[VictimPos(s)].state != Invalid
  {
    CountAll(s.lines);
  }

  lemma LineReplaced(g: Geometry, s: CSet, refs: int, p: nat, l: Line)
    requires ValidSet(g, s, SetOf(g, l.address), refs) && p < |s.lines| && l.state != Invalid && l.touched <= refs
    requires forall k :: 0 <= k < |s.lines| ==> !Hit(g, s.lines[k], l.address)
    ensures var n := if s.lines[p].state == Invalid then s.numLines + 1 else s.numLines;
      ValidSet(g, CSet(s.lines[p := l], n), SetOf(g, l.address), refs)
  {
    CountAfterUpdate(s.lines, p, l);
    NewTag(g, s.lines, p, l);
    hide CountValid, TagOf, SetOf, DistinctTags, Hit;
  }

  lemma NewTag(g: Geometry, lines: seq<Line>, p: nat, l: Line)
    requires DistinctTags(g, lines) && p < |lines| && forall k :: 0 <= k < |lines| ==> !Hit(g, lines[k], l.address)
    ensures DistinctTags(g, lines[p := l])
  {
    hide TagOf;
  }

  /** Filling a line that was missing makes it present, takes out the evicted line if there
      is one, and changes no other line. */
  lemma FillLookup(g: Geometry, c: State, a: nat, st: LineState, b: nat)
    requires Valid(g, c) && Lookup(g, c, a) == Invalid && st != Invalid
    ensures Valid(g, Fill(g, c, a, st))
    ensures Lookup(g, Fill(g, c, a, st), b) ==
      if LineOf(g, b) == LineOf(g, a) then st
      else if LineOf(g, b) in Evicted(g, c, a) then Invalid
      else Lookup(g, c, b)
  {
    var s, p := SetAt(g, c, a), VictimPos(SetAt(g, c, a));
    var s', c' := FillSet(s, a, st, c.refs), Fill(g, c, a, st);
    FilledSet(g, s, c.refs, a, st);
    CountAll(s.lines);
    TagAndSet(g, a, b);
    if SetOf(g, b) == SetOf(g, a) {
      if TagOf(g, b) == TagOf(g, a) {
        OnlyHit(g, s', SetOf(g, a), c.refs, b, p);
      } else {
        TagAndSet(g, s.lines[p].address, b);
        var i := Find(g, s.lines, b, 0);
        if i < |s.lines| && i != p {
          OnlyHit(g, s', SetOf(g, a), c.refs, b, i);
        } else if i == p {
          assert forall k :: 0 <= k < |s.lines| && k != p ==> !Hit(g, s.lines[k], b);
          assert Find(g, s'.lines, b, 0) == |s'.lines|;
        } else {
          assert Find(g, s'.lines, b, 0) == |s'.lines|;
        }
      }
    }
  }

  /** A hit changes no line's state. */
  lemma AccessLookup(g: Geometry, c: State, a: nat, b: nat)
    requires Valid(g, c)
    ensures Valid(g, Access(g, c, a))
    ensures Lookup(g, Access(g, c, a), b) == Lookup(g, c, b)
  {
    var s := SetAt(g, c, a);
    var i := Find(g, s.lines, a, 0);
    if i < |s.lines| {
      var l := s.lines[i].(touched := c.refs + 1);
      var lines := s.lines[i := l];
      CountAfterUpdate(s.lines, i, l);
      assert ValidSet(g, s.(lines := lines), SetOf(g, a), c.refs + 1);
      forall k | 0 <= k < |c.sets| ensures ValidSet(g, Access(g, c, a).sets[k], k, c.refs + 1) {
        assert ValidSet(g, c.sets[k], k, c.refs);
      }
      SameFind(g, lines, s.lines, b);
      hide Find, ValidSet;
    }
  }

  lemma SameFind(g: Geometry, p: seq<Line>, q: seq<Line>, b: nat)
    requires |p| == |q| && forall k :: 0 <= k < |p| ==> (Hit(g, p[k], b) <==> Hit(g, q[k], b))
    ensures Find(g, p, b, 0) == Find(g, q, b, 0)
  {
    var j := Find(g, q, b, 0);
    if j < |q| {
      FindIs(g, p, b, j);
    } else {
      assert Find(g, p, b, 0) == |p|;
    }
  }

  // ---------------------------------------------------------------------------------
  // The cache as a bounded map from line numbers to states

  ghost function Resident(g: Geometry, c: State): set<nat> {
    set i, w | 0 <= i < |c.sets| && 0 <= w < |c.sets[i].lines| && c.sets[i].lines[w].state != Invalid ::
      LineOf(g, c.sets[i].lines[w].address)
  }

  ghost function Contents(g: Geometry, c: State): map<nat, LineState>
    requires Valid(g, c)
  {
    map ln | ln in Resident(g, c) :: Lookup(g, c, ln * LineSize(g))
  }

  lemma FirstAddress(g: Geometry, ln: nat)
    ensures LineOf(g, ln * LineSize(g)) == ln
  {
    QuotientIs(ln * LineSize(g), LineSize(g), ln, 0);
  }

  lemma SameLineSameLookup(g: Geometry, c: State, a: nat, b: nat)
    requires Valid(g, c) && LineOf(g, a) == LineOf(g, b)
    ensures Lookup(g, c, a) == Lookup(g, c, b)
  {
    TagAndSet(g, a, b);
    var s := SetAt(g, c, a);
    assert forall k :: 0 <= k < |s.lines| ==> (Hit(g, s.lines[k], a) <==> Hit(g, s.lines[k], b));
  }

  lemma LookupResident(g: Geometry, c: State, a: nat)
    requires Valid(g, c)
    ensures Lookup(g, c, a) != Invalid <==> LineOf(g, a) in Resident(g, c)
  {
    var i := SetOf(g, a);
    var s := c.sets[i];
    assert ValidSet(g, s, i, c.refs);
    var w := Find(g, s.lines, a, 0);
    if w < |s.lines| {
      TagAndSet(g, s.lines[w].address, a);
    } else {
      forall j, v | 0 <= j < |c.sets| && 0 <= v < |c.sets[j].lines| && c.sets[j].lines[v].state != Invalid
        ensures LineOf(g, c.sets[j].lines[v].address) != LineOf(g, a)
      {
        assert ValidSet(g, c.sets[j], j, c.refs);
        TagAndSet(g, c.sets[j].lines[v].address, a);
        assert j == i ==> !Hit(g, s.lines[v], a);
      }
    }
  }

  /** A look-up agrees with the map. */
  lemma LookupIsContents(g: Geometry, c: State, a: nat)
    requires Valid(g, c)
    ensures Lookup(g, c, a) == if LineOf(g, a) in Contents(g, c) then Contents(g, c)[LineOf(g, a)] else Invalid
  {
    LookupResident(g, c, a);
    FirstAddress(g, LineOf(g, a));
    SameLineSameLookup(g, c, a, LineOf(g, a) * LineSize(g));
  }

  /** A fill after a miss is a map update that first drops at most one other line. */
  lemma FillContents(g: Geometry, c: State, a: nat, st: LineState)
    requires Valid(g, c) && Lookup(g, c, a) == Invalid && st != Invalid
    ensures Valid(g, Fill(g, c, a, st))
    ensures Contents(g, Fill(g, c, a, st)) == (Contents(g, c) - Evicted(g, c, a))[LineOf(g, a) := st]
    ensures |Evicted(g, c, a)| <= 1 && Evicted(g, c, a) <= Contents(g, c).Keys && LineOf(g, a) !in Evicted(g, c, a)
  {
    FillLookup(g, c, a, st, a);
    EvictedWasThere(g, c, a);
    assert Evicted(g, c, a) <= Contents(g, c).Keys;
    hide Valid, Resident, Contents, Evicted, Fill, Lookup;
    var before, after := Contents(g, c), Contents(g, Fill(g, c, a, st));
    forall ln: nat
      ensures ln in after <==> ln == LineOf(g, a) || (ln in before && ln !in Evicted(g, c, a))
      ensures ln in after ==> after[ln] == if ln == LineOf(g, a) then st else before[ln]
    {
      FillContentsAt(g, c, a, st, ln);
    }
    DropAndAdd(before, after, Evicted(g, c, a), LineOf(g, a), st);
  }

  lemma DropAndAdd(before: map<nat, LineState>, after: map<nat, LineState>, gone: set<nat>, k: nat, st: LineState)
    requires forall ln: nat :: ln in after <==> ln == k || (ln in before && ln !in gone)
    requires forall ln: nat :: ln in after ==> after[ln] == if ln == k then st else before[ln]
    ensures after == (before - gone)[k := st]
  {
  }

  lemma FillContentsAt(g: Geometry, c: State, a: nat, st: LineState, ln: nat)
    requires Valid(g, c) && Lookup(g, c, a) == Invalid && st != Invalid && Valid(g, Fill(g, c, a, st))
    ensures var before, after := Contents(g, c), Contents(g, Fill(g, c, a, st));
      && (ln in after <==> ln == LineOf(g, a) || (ln in before && ln !in Evicted(g, c, a)))
      && (ln in after ==> after[ln] == if ln == LineOf(g, a) then st else before[ln])
  {
    var b := ln * LineSize(g);
    FirstAddress(g, ln);
    FillLookup(g, c, a, st, b);
    LookupResident(g, c, b);
    LookupResident(g, Fill(g, c, a, st), b);
  }

  lemma EvictedWasThere(g: Geometry, c: State, a: nat)
    requires Valid(g, c) && Lookup(g, c, a) == Invalid
    ensures |Evicted(g, c, a)| <= 1 && Evicted(g, c, a) <= Resident(g, c) && LineOf(g, a) !in Evicted(g, c, a)
  {
    var s, i := SetAt(g, c, a), SetOf(g, a);
    if Full(s) {
      CountAll(s.lines);
      var v := s.lines[VictimPos(s)];
      assert c.sets[i].lines[VictimPos(s)] == v && v.state != Invalid;
      assert !Hit(g, v, a);
      TagAndSet(g, v.address, a);
    }
  }

  lemma AccessContents(g: Geometry, c: State, a: nat)
    requires Valid(g, c)
    ensures Valid(g, Access(g, c, a)) && Contents(g, Access(g, c, a)) == Contents(g, c)
  {
    AccessLookup(g, c, a, a);
    forall ln: nat
      ensures ln in Contents(g, c) <==> ln in Contents(g, Access(g, c, a))
      ensures Lookup(g, Access(g, c, a), ln * LineSize(g)) == Lookup(g, c, ln * LineSize(g))
    {
      var b := ln * LineSize(g);
      FirstAddress(g, ln);
      AccessLookup(g, c, a, b);
      LookupResident(g, c, b);
      LookupResident(g, Access(g, c, a), b);
    }
  }

  // ---------------------------------------------------------------------------------
  // Replacement order

  /** The line of `a` is in its set with a later stamp than every other line there. */
  ghost predicate MostRecent(g: Geometry, c: State, a: nat)
    requires Shape(g, c)
  {
    var lines := SetAt(g, c, a).lines;
    var i := Find(g, lines, a, 0);
    i < |lines| && forall k :: 0 <= k < |lines| && k != i ==> lines[k].touched < lines[i].touched
  }

  lemma HitIsMostRecent(g: Geometry, c: State, a: nat)
    requires Valid(g, c) && Lookup(g, c, a) != Invalid
    ensures MostRecent(g, Access(g, c, a), a)
  {
    var s := SetAt(g, c, a);
    assert ValidSet(g, s, SetOf(g, a), c.refs);
    var i := Find(g, s.lines, a, 0);
    var lines := s.lines[i := s.lines[i].(touched := c.refs + 1)];
    FindIs(g, lines, a, i);
  }

  /** Hits and fills in other sets leave the most recent line of a set what it was. */
  lemma OtherSetsKeepMostRecent(g: Geometry, c: State, a: nat, b: nat, st: LineState)
    requires Valid(g, c) && MostRecent(g, c, a) && SetOf(g, b) != SetOf(g, a)
    ensures MostRecent(g, Access(g, c, b), a) && MostRecent(g, Fill(g, c, b, st), a)
  {
    assert SetAt(g, Access(g, c, b), a) == SetAt(g, c, a) == SetAt(g, Fill(g, c, b, st), a);
  }

  /** From `c` to `r` the line of `a` gets the stamp of a clock that has ticked. */
  ghost predicate Stamped(g: Geometry, c: State, r: State, a: nat) {
    && |r.sets| == |c.sets| == NumSets(g) && r.refs == c.refs + 1
    && (forall i :: 0 <= i < |c.sets| && i != SetOf(g, a) ==> r.sets[i] == c.sets[i])
    && var s := c.sets[SetOf(g, a)];
      exists k :: 0 <= k < |s.lines| && s.lines[k].state != Invalid && TagOf(g, s.lines[k].address) == TagOf(g, a)
        && r.sets[SetOf(g, a)] == s.(lines := s.lines[k := s.lines[k].(touched := c.refs + 1)])
  }

  /** A hit stamps its line, and a miss nothing. */
  lemma AccessStamps(g: Geometry, c: State, a: nat)
    requires Valid(g, c)
    ensures if Lookup(g, c, a) != Invalid then Stamped(g, c, Access(g, c, a), a) else Access(g, c, a) == c
  {
    var s := SetAt(g, c, a);
    var i := Find(g, s.lines, a, 0);
    if i < |s.lines| {
      var r := Access(g, c, a);
      assert Hit(g, s.lines[i], a);
      assert r.sets[SetOf(g, a)] == s.(lines := s.lines[i := s.lines[i].(touched := c.refs + 1)]);
    }
  }

  /** Line `p` of a set gives way: the first that holds nothing, or, if all hold something, the
      first of those with the least stamp. */
  ghost predicate GivesWay(lines: seq<Line>, p: nat) {
    && p < |lines|
    && if exists k :: 0 <= k < |lines| && lines[k].state == Invalid then
         lines[p].state == Invalid && forall k :: 0 <= k < p ==> lines[k].state != Invalid
       else
         && (forall k :: 0 <= k < |lines| ==> lines[p].touched <= lines[k].touched)
         && (forall k :: 0 <= k < p ==> lines[p].touched < lines[k].touched)
  }

  /** A fill puts the line, with the stamp of the clock, where a line of its set gives way, and
      changes nothing else but the count of the set. */
  lemma FillReplaces(g: Geometry, c: State, a: nat, st: LineState) returns (p: nat)
    requires Valid(g, c) && st != Invalid
    ensures var s, r := SetAt(g, c, a), Fill(g, c, a, st);
      && GivesWay(s.lines, p) && r.refs == c.refs && |r.sets| == |c.sets|
      && r.sets[SetOf(g, a)].lines == s.lines[p := Line(a, st, c.refs)]
      && (forall i :: 0 <= i < |c.sets| && i != SetOf(g, a) ==> r.sets[i] == c.sets[i])
  {
    var s := SetAt(g, c, a);
    assert ValidSet(g, s, SetOf(g, a), c.refs);
    CountAll(s.lines);
    p := VictimPos(s);
  }

  /** From `c` to `r` the line of `a` comes in with state `st` if it was not there, and at most
      one other line goes for it; if it was there, nothing changes for any line. */
  ghost predicate Admits(g: Geometry, c: State, r: State, a: nat, st: LineState)
    requires Shape(g, c)
  {
    && Shape(g, r)
    && (Lookup(g, c, a) == Invalid ==> Lookup(g, r, a) == st)
    && (forall b: nat :: LineOf(g, b) != LineOf(g, a) || Lookup(g, c, a) != Invalid ==>
          Lookup(g, r, b) == Lookup(g, c, b) || Lost(g, c, r, b))
    && (forall b: nat, d: nat :: Lost(g, c, r, b) && Lost(g, c, r, d) ==> LineOf(g, b) == LineOf(g, d))
    && (Lookup(g, c, a) != Invalid ==> forall b: nat :: !Lost(g, c, r, b))
  }

  ghost predicate Lost(g: Geometry, c: State, r: State, b: nat)
    requires Shape(g, c) && Shape(g, r)
  {
    Lookup(g, c, b) != Invalid && Lookup(g, r, b) == Invalid
  }

  lemma FillAdmits(g: Geometry, c: State, a: nat, st: LineState)
    requires Valid(g, c) && Lookup(g, c, a) == Invalid && st != Invalid
    ensures Admits(g, c, Fill(g, c, a, st), a, st)
  {
    var r := Fill(g, c, a, st);
    FillLookup(g, c, a, st, a);
    EvictedWasThere(g, c, a);
    hide Lookup, Fill, Evicted, LineOf, Valid;
    forall b: nat ensures LineOf(g, b) != LineOf(g, a) ==> Lookup(g, r, b) == Lookup(g, c, b) || Lost(g, c, r, b)
      ensures Lost(g, c, r, b) ==> LineOf(g, b) in Evicted(g, c, a)
    {
      FillLookup(g, c, a, st, b);
    }
    forall b: nat, d: nat | Lost(g, c, r, b) && Lost(g, c, r, d) ensures LineOf(g, b) == LineOf(g, d) {
      OnlyMember(Evicted(g, c, a), LineOf(g, b), LineOf(g, d));
    }
  }

  lemma OnlyMember(s: set<nat>, x: nat, y: nat)
    requires |s| <= 1 && x in s && y in s
    ensures x == y
  {
    assert |s - {x}| == |s| - 1;
  }

  /** With two or more ways, the most recently hit line of a set survives the next fill of
      that set. */
  lemma MostRecentSurvivesFill(g: Geometry, c: State, a: nat, b: nat, st: LineState)
    requires Valid(g, c) && MostRecent(g, c, a) && SetOf(g, b) == SetOf(g, a) && |SetAt(g, c, a).lines| >= 2
    requires Lookup(g, c, b) == Invalid && st != Invalid
    ensures LineOf(g, a) !in Evicted(g, c, b)
    ensures Lookup(g, Fill(g, c, b, st), a) == Lookup(g, c, a) != Invalid
  {
    var s := SetAt(g, c, a);
    var i, p := Find(g, s.lines, a, 0), VictimPos(s);
    FillLookup(g, c, b, st, a);
    SameLineOrNot(g, c, a, b);
    if Full(s) {
      CountAll(s.lines);
      var k := if i == 0 then 1 else 0;
      assert s.lines[k].touched < s.lines[i].touched;
      assert p != i;
      if LineOf(g, s.lines[p].address) == LineOf(g, a) {
        TagAndSet(g, s.lines[p].address, a);
        OnlyHit(g, s, SetOf(g, a), c.refs, a, p);
      }
    }
  }

  lemma SameLineOrNot(g: Geometry, c: State, a: nat, b: nat)
    requires Valid(g, c) && Lookup(g, c, a) != Invalid && Lookup(g, c, b) == Invalid
    ensures LineOf(g, a) != LineOf(g, b)
  {
    if LineOf(g, a) == LineOf(g, b) {
      SameLineSameLookup(g, c, a, b);
    }
  }

  // ---------------------------------------------------------------------------------
  // The cache as the source keeps it

  class Unit {
    const g: Geometry
    const assoc: nat
    var sets: seq<CSet>
    var refs: int

    ghost function Now(): State
      reads this
    {
      State(sets, refs)
    }

    ghost predicate Ok()
      reads this
    {
      Valid(g, Now()) && forall i :: 0 <= i < |sets| ==> |sets[i].lines| == assoc
    }

    constructor (g: Geometry, assoc: nat)
      requires assoc > 0
      ensures this.g == g && this.assoc == assoc && refs == 0
      ensures Ok() && Contents(g, Now()) == map[]
    {
      this.g, this.assoc := g, assoc;
      refs := 0;
      new;
      var empty := Line(0, Invalid, 0);
      var lines: seq<Line> := [];
      while |lines| < assoc
        invariant |lines| <= assoc && refs == 0 && CountValid(lines) == 0
        invariant forall i :: 0 <= i < |lines| ==> lines[i] == empty
      {
        CountAppend(lines, empty);
        lines := lines + [empty];
      }
      sets := [];
      while |sets| < NumSets(g)
        invariant |sets| <= NumSets(g) && refs == 0 && forall i :: 0 <= i < |sets| ==> sets[i] == CSet(lines, 0)
      {
        sets := sets + [CSet(lines, 0)];
      }
      hide SetOf, TagOf;
      EmptyCache(g, Now(), assoc);
    }

    /** `func_look_up`. */
    method LookUp(address: nat, update: bool) returns (state: LineState)
      requires Ok()
      modifies this
      ensures state == Lookup(g, old(Now()), address)
      ensures Now() == if update then Touch(g, old(Now()), address) else old(Now())
    {
      var setNumber := SetOf(g, address);
      var cacheSet := sets[setNumber].lines;
      assert ValidSet(g, sets[setNumber], setNumber, refs);
      var i := 0;
      while i < assoc
        invariant 0 <= i <= assoc && Now() == old(Now())
        invariant forall k :: 0 <= k < i ==> !Hit(g, cacheSet[k], address)
      {
        if Hit(g, cacheSet[i], address) {
          FindIs(g, cacheSet, address, i);
          state := cacheSet[i].state;
          if update {
            sets := sets[setNumber := sets[setNumber].(lines := cacheSet[i := cacheSet[i].(touched := refs)])];
          }
          return;
        }
        i := i + 1;
      }
      assert Find(g, cacheSet, address, 0) == |cacheSet|;
      return Invalid;
    }

    /** `determinel1miss`, `determinel2miss`. */
    method DetermineMiss(address: nat) returns (miss: bool)
      requires Ok()
      modifies this
      ensures miss <==> Lookup(g, old(Now()), address) == Invalid
      ensures Now() == Access(g, old(Now()), address)
    {
      var state := LookUp(address, false);
      refs := refs + 1;
      miss := state == Invalid;
      if miss {
        refs := refs - 1;
      } else {
        assert Valid(g, Now()) by {
          LaterClock(g, old(Now()), refs);
        }
        state := LookUp(address, true);
      }
    }

    /** `victim_lookup`: an invalid line is claimed at once, a valid victim is only named. */
    method VictimLookUp(address: nat) returns (vaddress: nat, pos: nat)
      requires Ok()
      modifies this
      ensures var s := SetAt(g, old(Now()), address);
        && pos == VictimPos(s) < assoc
        && vaddress == (if Full(s) then s.lines[pos].address else address)
        && Now() == (if Full(s) then old(Now()) else
             var claimed := s.lines[pos].(address := address, touched := refs);
             old(Now()).(sets := old(sets)[SetOf(g, address) := s.(lines := s.lines[pos := claimed])]))
    {
      var setNumber := SetOf(g, address);
      var s := sets[setNumber];
      assert ValidSet(g, s, setNumber, refs);
      CountAll(s.lines);
      if s.numLines < assoc {
        pos := InvalidLine(s.lines);
        sets := sets[setNumber := s.(lines := s.lines[pos := s.lines[pos].(address := address, touched := refs)])];
        return address, pos;
      } else {
        pos := OldestLine(s.lines);
        return s.lines[pos].address, pos;
      }
    }

    static method InvalidLine(lines: seq<Line>) returns (i: nat)
      requires CountValid(lines) < |lines|
      ensures i == FirstInvalid(lines)
    {
      i := 0;
      while lines[i].state != Invalid
        invariant 0 <= i <= FirstInvalid(lines)
        decreases |lines| - i
      {
        i := i + 1;
      }
    }

    /** With all lines valid, the one with the least stamp. */
    static method OldestLine(lines: seq<Line>) returns (minPos: nat)
      requires lines != [] && forall k :: 0 <= k < |lines| ==> lines[k].state != Invalid
      ensures minPos == Oldest(lines, |lines|)
    {
      var minTime := lines[0].touched;
      minPos := 0;
      for i := 0 to |lines|
        invariant minPos < |lines| && minTime == lines[minPos].touched
        invariant minPos == if i == 0 then 0 else Oldest(lines, i)
      {
        if minTime > lines[i].touched && lines[i].state != Invalid {
          minTime, minPos := lines[i].touched, i;
        }
      }
    }

    /** `replace_victim`, as it is called: with what `victim_lookup` has just returned. The
        line it searches for is the one at `pos`. */
    method ReplaceVictim(vaddress: nat, address: nat, state: LineState, pos: nat, ghost c: State)
      requires Valid(g, c) && Shape(g, c) && (forall i :: 0 <= i < |c.sets| ==> |c.sets[i].lines| == assoc)
      requires Lookup(g, c, address) == Invalid && state != Invalid && refs == c.refs
      requires pos == VictimPos(SetAt(g, c, address))
      requires vaddress == if Full(SetAt(g, c, address)) then SetAt(g, c, address).lines[pos].address else address
      requires var s := SetAt(g, c, address);
        sets == if Full(s) then c.sets else
          c.sets[SetOf(g, address) := s.(lines := s.lines[pos := s.lines[pos].(address := address, touched := refs)])]
      modifies this
      ensures Now() == Fill(g, c, address, state)
    {
      var setNumber := SetOf(g, address);
      var s := sets[setNumber];
      ghost var was := SetAt(g, c, address);
      assert ValidSet(g, was, setNumber, refs);
      CountAll(was.lines);
      if address != vaddress {
        var i := 0;
        while i < assoc && !Hit(g, s.lines[i], vaddress)
          invariant 0 <= i <= pos
        {
          i := i + 1;
        }
        OnlyHit(g, was, setNumber, refs, vaddress, pos);
        assert i == pos;
        sets := sets[setNumber := s.(lines := s.lines[i := Line(address, state, refs)])];
      } else {
        assert !Hit(g, was.lines[pos], address);
        sets := sets[setNumber := CSet(s.lines[pos := s.lines[pos].(state := state)], s.numLines + 1)];
        assert sets[setNumber] == FillSet(was, address, state, refs);
      }
    }

    /** The two calls together, as `simulate_memory` makes them on a line it has missed. */
    method Insert(address: nat, state: LineState)
      requires Ok() && Lookup(g, Now(), address) == Invalid && state != Invalid
      modifies this
      ensures Ok() && Now() == Fill(g, old(Now()), address, state)
    {
      ghost var c := Now();
      var vaddress, pos := VictimLookUp(address);
      ReplaceVictim(vaddress, address, state, pos, c);
      FillLookup(g, c, address, state, address);
    }
  }

  lemma EmptyCache(g: Geometry, c: State, assoc: nat)
    requires Shape(g, c) && assoc > 0 && c.refs == 0
    requires forall i :: 0 <= i < |c.sets| ==>
      |c.sets[i].lines| == assoc && c.sets[i].numLines == 0 == CountValid(c.sets[i].lines)
    requires forall i, k :: 0 <= i < |c.sets| && 0 <= k < assoc ==> c.sets[i].lines[k] == Line(0, Invalid, 0)
    ensures Valid(g, c) && Contents(g, c) == map[]
  {
    assert forall i :: 0 <= i < |c.sets| ==> ValidSet(g, c.sets[i], i, 0);
    assert Resident(g, c) == {};
  }

  lemma CountAppend(lines: seq<Line>, l: Line)
    ensures CountValid(lines + [l]) == CountValid(lines) + (if l.state == Invalid then 0 else 1)
  {
    if lines != [] {
      assert (lines + [l])[1..] == lines[1..] + [l];
    }
  }

  lemma LaterClock(g: Geometry, c: State, refs: int)
    requires Valid(g, c) && c.refs <= refs
    ensures Valid(g, c.(refs := refs))
  {
    forall i | 0 <= i < |c.sets| ensures ValidSet(g, c.sets[i], i, refs) {
      assert ValidSet(g, c.sets[i], i, c.refs);
    }
  }
}
