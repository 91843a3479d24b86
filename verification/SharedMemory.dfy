/**
  The bank-conflict counter for shared memory in `warp_inst_t::generate_mem_accesses` of
  src/abstract_hardware_model.cc: how many cycles a subwarp needs, with and without the limited
  broadcast of one word, and why the count the source asserts on is always in range.
*/
module SharedMemory {
  import opened Coalescer
  import opened Collections
  import opened WarpMemory

  const WORD_SIZE: nat := 4

  /** Bank, then word, then number of accesses. */
  type Tally = map<nat, map<nat, nat>>

  function Bank(addr: nat, banks: nat): nat
    requires banks > 0
  {
    addr / WORD_SIZE % banks
  }

  function Word(addr: nat): nat {
    Block(addr, WORD_SIZE)
  }

  function Bumped(t: Tally, bank: nat, word: nat): Tally {
    var inner: map<nat, nat> := if bank in t then t[bank] else map[];
    t[bank := inner[word := (if word in inner then inner[word] else 0) + 1]]
  }

  /** The tally of the addresses of the active lanes. */
  ghost function TallyOf(a: seq<nat>, banks: nat): Tally
    requires banks > 0
  {
    if a == [] then map[]
    else Bumped(TallyOf(a[..|a| - 1], banks), Bank(a[|a| - 1], banks), Word(a[|a| - 1]))
  }

  // ---------------------------------------------------------------------------------
  // Sums over a map

  ghost function Total(m: map<nat, nat>): nat
    decreases |m|
  {
    if m == map[] then 0
    else
      SomeKey(m);
      var k :| k in m;
      m[k] + Total(m - {k})
  }

  lemma {:induction false} TotalWithout(m: map<nat, nat>, k: nat)
    requires k in m
    ensures Total(m) == m[k] + Total(m - {k})
    decreases |m|
  {
    SomeKey(m);
    var j :| j in m && Total(m) == m[j] + Total(m - {j});
    if j != k {
      TotalWithout(m - {j}, k);
      TotalWithout(m - {k}, j);
      assert m - {j} - {k} == m - {k} - {j};
    }
  }

  lemma TotalBumped(m: map<nat, nat>, k: nat)
    ensures Total(m[k := (if k in m then m[k] else 0) + 1]) == Total(m) + 1
  {
    var m' := m[k := (if k in m then m[k] else 0) + 1];
    TotalWithout(m', k);
    assert m' - {k} == m - {k};
    if k in m {
      TotalWithout(m, k);
    } else {
      assert m - {k} == m;
    }
  }

  ghost predicate Positive(m: map<nat, nat>) {
    m != map[] && forall k :: k in m ==> m[k] > 0
  }

  lemma {:induction false} TotalAtLeastSize(m: map<nat, nat>)
    requires forall k :: k in m ==> m[k] > 0
    ensures |m| <= Total(m)
    decreases |m|
  {
    if m == map[] {
    } else {
      SomeKey(m);
      var k :| k in m;
      TotalWithout(m, k);
      TotalAtLeastSize(m - {k});
      assert m.Keys == (m - {k}).Keys + {k};
      assert |m.Keys| == |m|;
    }
  }

  /** Even with one word served in a single cycle, the other accesses of a bank are no fewer
      than its other words. */
  lemma BroadcastKeepsWords(m: map<nat, nat>, w: nat)
    requires Positive(m) && w in m
    ensures |m| <= Total(m) - (m[w] - 1)
  {
    TotalWithout(m, w);
    TotalAtLeastSize(m - {w});
    assert m.Keys == (m - {w}).Keys + {w};
  }

  // ---------------------------------------------------------------------------------
  // Tallies

  ghost predicate WellTallied(t: Tally, n: nat) {
    && (forall b :: b in t ==> Positive(t[b]) && Total(t[b]) <= n)
    && (n > 0 ==> t != map[])
  }

  ghost function Totals(t: Tally): map<nat, nat> {
    map b | b in t :: Total(t[b])
  }

  /** No bank has more accesses than there are active lanes: together they have exactly as
      many. */
  lemma {:induction false} TallyTotals(a: seq<nat>, banks: nat)
    requires banks > 0
    ensures Total(Totals(TallyOf(a, banks))) == |a|
    ensures forall b :: b in TallyOf(a, banks) ==> Positive(TallyOf(a, banks)[b])
  {
    if a == [] {
    } else {
      var n := |a| - 1;
      TallyTotals(a[..n], banks);
      var t, bank, word := TallyOf(a[..n], banks), Bank(a[n], banks), Word(a[n]);
      BumpedTotals(t, bank, word);
    }
  }

  lemma BumpedTotals(t: Tally, bank: nat, word: nat)
    requires forall b :: b in t ==> Positive(t[b])
    ensures Total(Totals(Bumped(t, bank, word))) == Total(Totals(t)) + 1
    ensures forall b :: b in Bumped(t, bank, word) ==> Positive(Bumped(t, bank, word)[b])
  {
    var inner: map<nat, nat> := if bank in t then t[bank] else map[];
    var more := inner[word := (if word in inner then inner[word] else 0) + 1];
    TotalBumped(inner, word);
    assert word in more;
    TotalsUpdate(t, bank, more);
  }

  lemma TotalsUpdate(t: Tally, bank: nat, m: map<nat, nat>)
    ensures Total(Totals(t[bank := m])) == Total(Totals(t)) - (if bank in t then Total(t[bank]) else 0) + Total(m)
  {
    var before, after := Totals(t), Totals(t[bank := m]);
    TotalWithout(after, bank);
    if bank in t {
      TotalWithout(before, bank);
    }
    hide Total;
    assert after - {bank} == before - {bank};
    if bank !in t {
      assert before - {bank} == before;
    }
  }

  lemma Tallied(a: seq<nat>, banks: nat)
    requires banks > 0
    ensures WellTallied(TallyOf(a, banks), |a|)
  {
    var t := TallyOf(a, banks);
    TallyTotals(a, banks);
    forall b | b in t ensures Total(t[b]) <= |a| {
      TotalWithout(Totals(t), b);
    }
    if t == map[] {
      assert Totals(t) == map[];
    }
  }

  // ---------------------------------------------------------------------------------
  // Cycles of a subwarp

  datatype Broadcast = NoBroadcast | At(bank: nat, word: nat)

  ghost predicate Single(m: map<nat, nat>, below: nat) {
    forall w :: w in m && w < below ==> m[w] <= 1
  }

  /** The first word, by bank and then by address, that more than one lane reads. */
  ghost predicate IsBroadcast(t: Tally, x: Broadcast) {
    match x
    case NoBroadcast => forall b, w :: b in t && w in t[b] ==> t[b][w] <= 1
    case At(bank, word) =>
      && bank in t && word in t[bank] && t[bank][word] > 1 && Single(t[bank], word)
      && forall b, w :: b in t && b < bank && w in t[b] ==> t[b][w] <= 1
  }

  /** Accesses of a bank, those to the broadcast word counting once. */
  ghost function LimitedCost(t: Tally, x: Broadcast, b: nat): int
    requires b in t && IsBroadcast(t, x)
  {
    Total(t[b]) - if x.At? && x.bank == b then t[b][x.word] - 1 else 0
  }

  ghost predicate WorstLimited(t: Tally, x: Broadcast, r: nat)
    requires IsBroadcast(t, x)
  {
    && (forall b :: b in t ==> LimitedCost(t, x, b) <= r)
    && if t == map[] then r == 0 else exists b :: b in t && LimitedCost(t, x, b) == r
  }

  ghost predicate WorstDistinct(t: Tally, r: nat) {
    && (forall b :: b in t ==> |t[b]| <= r)
    && if t == map[] then r == 0 else exists b :: b in t && |t[b]| == r
  }

  lemma LimitedInRange(t: Tally, n: nat, x: Broadcast, limited: nat)
    requires WellTallied(t, n) && IsBroadcast(t, x) && WorstLimited(t, x, limited)
    ensures limited <= n && (n > 0 ==> limited > 0)
  {
    if t != map[] {
      var c :| c in t && LimitedCost(t, x, c) == limited;
      CostInRange(t, n, x, c);
    }
  }

  lemma DistinctInRange(t: Tally, n: nat, distinct: nat)
    requires WellTallied(t, n) && WorstDistinct(t, distinct)
    ensures distinct <= n && (n > 0 ==> distinct > 0)
  {
    if t != map[] {
      var b :| b in t && |t[b]| == distinct;
      SomeKey(t[b]);
      assert t[b].Keys != {};
      TotalAtLeastSize(t[b]);
    }
  }

  /** A bank that can broadcast one word is never done sooner than one that serves every word
      once. */
  lemma ModesInOrder(t: Tally, n: nat, x: Broadcast, distinct: nat, limited: nat)
    requires WellTallied(t, n) && IsBroadcast(t, x) && WorstDistinct(t, distinct) && WorstLimited(t, x, limited)
    ensures distinct <= limited
  {
    if t != map[] {
      var b :| b in t && |t[b]| == distinct;
      CostInRange(t, n, x, b);
    }
  }

  lemma CostInRange(t: Tally, n: nat, x: Broadcast, b: nat)
    requires WellTallied(t, n) && IsBroadcast(t, x) && b in t
    ensures 0 < |t[b]| <= LimitedCost(t, x, b) <= Total(t[b]) <= n
  {
    SomeKey(t[b]);
    assert t[b].Keys != {};
    if x.At? && x.bank == b {
      BroadcastKeepsWords(t[b], x.word);
    } else {
      TotalAtLeastSize(t[b]);
    }
  }

  /** What a walk in key order has passed lies below what is left. */
  ghost predicate Below(all: set<nat>, rest: set<nat>) {
    forall b, c :: b in all && b !in rest && c in rest ==> b < c
  }

  lemma StepUp(all: set<nat>, rest: set<nat>, least: nat)
    requires Below(all, rest) && forall c :: c in rest ==> least <= c
    ensures Below(all, rest - {least})
  {
  }

  /** Step 2 of the limited-broadcast count. */
  method FindBroadcast(t: Tally) returns (x: Broadcast)
    ensures IsBroadcast(t, x)
  {
    var rest := t.Keys;
    while rest != {}
      invariant rest <= t.Keys
      invariant Below(t.Keys, rest)
      invariant forall b, w :: b in t.Keys - rest && w in t[b] ==> t[b][w] <= 1
    {
      HasLeast(rest);
      var bank: nat :| bank in rest && forall c :: c in rest ==> bank <= c;
      var words := t[bank].Keys;
      while words != {}
        invariant words <= t[bank].Keys
        invariant Below(t[bank].Keys, words)
        invariant forall w :: w in t[bank].Keys - words ==> t[bank][w] <= 1
      {
        HasLeast(words);
        var word: nat :| word in words && forall w :: w in words ==> word <= w;
        if t[bank][word] > 1 {
          return At(bank, word);
        }
        StepUp(t[bank].Keys, words, word);
        words := words - {word};
      }
      StepUp(t.Keys, rest, bank);
      rest := rest - {bank};
    }
    return NoBroadcast;
  }

  method BankAccesses(m: map<nat, nat>) returns (n: nat)
    ensures n == Total(m)
  {
    n := 0;
    var rest := m;
    while rest != map[]
      invariant rest.Keys <= m.Keys && (forall w :: w in rest ==> rest[w] == m[w]) && n + Total(rest) == Total(m)
      decreases |rest|
    {
      SomeKey(rest);
      var w :| w in rest;
      TotalWithout(rest, w);
      n := n + rest[w];
      rest := rest - {w};
    }
  }

  method LimitedCycles(t: Tally, ghost n: nat) returns (r: nat, x: Broadcast)
    requires WellTallied(t, n)
    ensures IsBroadcast(t, x) && WorstLimited(t, x, r)
  {
    x := FindBroadcast(t);
    r := 0;
    var rest := t.Keys;
    while rest != {}
      invariant rest <= t.Keys
      invariant forall b :: b in t.Keys - rest ==> LimitedCost(t, x, b) <= r
      invariant if rest == t.Keys then r == 0 else exists b :: b in t && LimitedCost(t, x, b) == r
    {
      var bank :| bank in rest;
      CostInRange(t, n, x, bank);
      var accesses: int := BankAccesses(t[bank]);
      if x.At? && x.bank == bank {
        var k := t[bank][x.word];
        assert k > 1 && accesses >= k - 1;
        accesses := accesses - (k - 1);
      }
      if accesses > r {
        r := accesses;
      }
      rest := rest - {bank};
    }
  }

  method DistinctCycles(t: Tally) returns (r: nat)
    ensures WorstDistinct(t, r)
  {
    r := 0;
    var rest := t.Keys;
    while rest != {}
      invariant rest <= t.Keys
      invariant forall b :: b in t.Keys - rest ==> |t[b]| <= r
      invariant if rest == t.Keys then r == 0 else exists b :: b in t && |t[b]| == r
    {
      var bank :| bank in rest;
      if |t[bank]| > r {
        r := |t[bank]|;
      }
      rest := rest - {bank};
    }
  }

  // ---------------------------------------------------------------------------------
  // The whole warp

  ghost function ActiveAddrs(active: set<nat>, addrs: seq<nat>, lo: nat, hi: nat): seq<nat>
    requires lo <= hi <= |addrs|
    decreases hi
  {
    if lo == hi then []
    else ActiveAddrs(active, addrs, lo, hi - 1) + if hi - 1 in active then [addrs[hi - 1]] else []
  }

  lemma {:induction false} ActiveCount(active: set<nat>, addrs: seq<nat>, lo: nat, hi: nat)
    requires lo <= hi <= |addrs|
    ensures |ActiveAddrs(active, addrs, lo, hi)| <= hi - lo
    ensures (exists t :: lo <= t < hi && t in active) ==> |ActiveAddrs(active, addrs, lo, hi)| > 0
    decreases hi
  {
    if lo >= hi {
    } else {
      ActiveCount(active, addrs, lo, hi - 1);
    }
  }

  /** Step 1. */
  method TallyAccesses(active: set<nat>, addrs: seq<nat>, lo: nat, hi: nat, banks: nat) returns (t: Tally)
    requires lo <= hi <= |addrs| && banks > 0
    ensures t == TallyOf(ActiveAddrs(active, addrs, lo, hi), banks)
  {
    t := map[];
    for thread := lo to hi
      invariant t == TallyOf(ActiveAddrs(active, addrs, lo, thread), banks)
    {
      ghost var before := ActiveAddrs(active, addrs, lo, thread);
      if thread in active {
        assert (before + [addrs[thread]])[..|before|] == before;
        t := Bumped(t, Bank(addrs[thread], banks), Word(addrs[thread]));
      } else {
        assert before + [] == before;
      }
    }
  }

  /** The count of one subwarp in either mode. */
  ghost predicate IsCycles(t: Tally, limitedBroadcast: bool, r: nat) {
    if limitedBroadcast then exists x :: IsBroadcast(t, x) && WorstLimited(t, x, r) else WorstDistinct(t, r)
  }

  method SubwarpCycles(active: set<nat>, addrs: seq<nat>, lo: nat, hi: nat, banks: nat, limitedBroadcast: bool)
    returns (r: nat)
    requires lo <= hi <= |addrs| && banks > 0
    ensures IsCycles(TallyOf(ActiveAddrs(active, addrs, lo, hi), banks), limitedBroadcast, r)
    ensures r <= hi - lo && ((exists t :: lo <= t < hi && t in active) ==> r > 0)
  {
    var t := TallyAccesses(active, addrs, lo, hi, banks);
    ghost var n := |ActiveAddrs(active, addrs, lo, hi)|;
    Tallied(ActiveAddrs(active, addrs, lo, hi), banks);
    ActiveCount(active, addrs, lo, hi);
    if limitedBroadcast {
      var x;
      r, x := LimitedCycles(t, n);
      LimitedInRange(t, n, x, r);
    } else {
      r := DistinctCycles(t);
      DistinctInRange(t, n, r);
    }
  }

  ghost function Sum(s: seq<nat>): nat {
    if s == [] then 0 else Sum(s[..|s| - 1]) + s[|s| - 1]
  }

  ghost function PartAddrs(warpSize: nat, parts: nat, active: set<nat>, addrs: seq<nat>, p: nat): seq<nat>
    requires p < parts && warpSize % parts == 0 && |addrs| == warpSize
  {
    PartBounds(warpSize, parts, p);
    ActiveAddrs(active, addrs, PartStart(warpSize, parts, p), PartStart(warpSize, parts, p + 1))
  }

  /** The counts of the first subwarps. */
  ghost predicate Counted(warpSize: nat, parts: nat, active: set<nat>, addrs: seq<nat>, banks: nat,
                          limitedBroadcast: bool, each: seq<nat>)
    requires parts > 0 && warpSize % parts == 0 && |addrs| == warpSize && banks > 0
  {
    |each| <= parts && forall p :: 0 <= p < |each| ==>
      IsCycles(TallyOf(PartAddrs(warpSize, parts, active, addrs, p), banks), limitedBroadcast, each[p])
  }

  lemma OneMorePart(warpSize: nat, parts: nat, active: set<nat>, addrs: seq<nat>, banks: nat, limitedBroadcast: bool,
                    each: seq<nat>, r: nat)
    requires parts > 0 && warpSize % parts == 0 && |addrs| == warpSize && banks > 0 && |each| < parts
    requires Counted(warpSize, parts, active, addrs, banks, limitedBroadcast, each)
    requires IsCycles(TallyOf(PartAddrs(warpSize, parts, active, addrs, |each|), banks), limitedBroadcast, r)
    ensures Counted(warpSize, parts, active, addrs, banks, limitedBroadcast, each + [r])
    ensures Sum(each + [r]) == Sum(each) + r
  {
    hide IsCycles, TallyOf, PartAddrs;
    assert (each + [r])[..|each|] == each;
  }

  /** The shared-memory case of `generate_mem_accesses`, for a warp with an active lane: its
      range assertion never fails. */
  method ConflictCycles(warpSize: nat, parts: nat, active: set<nat>, addrs: seq<nat>, banks: nat,
                        limitedBroadcast: bool)
      returns (cycles: nat, ghost each: seq<nat>)
    requires parts > 0 && warpSize % parts == 0 && |addrs| == warpSize && banks > 0
    requires exists t :: 0 <= t < warpSize && t in active
    ensures |each| == parts && Counted(warpSize, parts, active, addrs, banks, limitedBroadcast, each)
    ensures cycles == Sum(each) && 0 < cycles <= warpSize
  {
    cycles, each := 0, [];
    ghost var lane :| 0 <= lane < warpSize && lane in active;
    ghost var part := PartOf(warpSize, parts, lane);
    PartsEnd(warpSize, parts);
    assert Counted(warpSize, parts, active, addrs, banks, limitedBroadcast, []) && Sum([]) == 0;
    hide IsCycles, TallyOf, ActiveAddrs, PartStart, Counted, Sum;
    for subwarp := 0 to parts
      invariant |each| == subwarp && Counted(warpSize, parts, active, addrs, banks, limitedBroadcast, each)
      invariant cycles == Sum(each)
      invariant cycles <= PartStart(warpSize, parts, subwarp) && (part < subwarp ==> cycles > 0)
    {
      PartBounds(warpSize, parts, subwarp);
      var lo, hi := PartStart(warpSize, parts, subwarp), PartStart(warpSize, parts, subwarp + 1);
      var accesses := SubwarpCycles(active, addrs, lo, hi, banks, limitedBroadcast);
      assert subwarp == part ==> lo <= lane < hi;
      OneMorePart(warpSize, parts, active, addrs, banks, limitedBroadcast, each, accesses);
      cycles := cycles + accesses;
      each := each + [accesses];
    }
  }

  ghost function ActiveLanes(active: set<nat>, lo: nat, hi: nat): set<nat> {
    set t: nat | lo <= t < hi && t in active
  }

  lemma {:induction false} ActiveAddrsSize(active: set<nat>, addrs: seq<nat>, lo: nat, hi: nat)
    requires lo <= hi <= |addrs|
    ensures |ActiveAddrs(active, addrs, lo, hi)| == |ActiveLanes(active, lo, hi)|
    decreases hi
  {
    if lo == hi {
      assert ActiveLanes(active, lo, hi) == {};
    } else {
      ActiveAddrsSize(active, addrs, lo, hi - 1);
      assert ActiveLanes(active, lo, hi) == ActiveLanes(active, lo, hi - 1) + if hi - 1 in active then {hi - 1} else {};
    }
  }

  lemma PartInOrder(a: seq<nat>, banks: nat, distinct: nat, limited: nat)
    requires banks > 0 && IsCycles(TallyOf(a, banks), false, distinct) && IsCycles(TallyOf(a, banks), true, limited)
    ensures distinct <= limited <= |a|
  {
    var t := TallyOf(a, banks);
    Tallied(a, banks);
    var x :| IsBroadcast(t, x) && WorstLimited(t, x, limited);
    ModesInOrder(t, |a|, x, distinct, limited);
    LimitedInRange(t, |a|, x, limited);
  }

  lemma SplitLanes(active: set<nat>, lo: nat, hi: nat)
    requires lo <= hi
    ensures |ActiveLanes(active, 0, hi)| == |ActiveLanes(active, 0, lo)| + |ActiveLanes(active, lo, hi)|
  {
    assert ActiveLanes(active, 0, hi) == ActiveLanes(active, 0, lo) + ActiveLanes(active, lo, hi);
    assert ActiveLanes(active, 0, lo) !! ActiveLanes(active, lo, hi);
  }

  lemma NextPart(warpSize: nat, parts: nat, active: set<nat>, addrs: seq<nat>, banks: nat, n: nat, distinct: nat,
                 limited: nat)
    requires parts > 0 && warpSize % parts == 0 && |addrs| == warpSize && banks > 0 && n < parts
    requires IsCycles(TallyOf(PartAddrs(warpSize, parts, active, addrs, n), banks), false, distinct)
    requires IsCycles(TallyOf(PartAddrs(warpSize, parts, active, addrs, n), banks), true, limited)
    ensures distinct <= limited
    ensures |ActiveLanes(active, 0, PartStart(warpSize, parts, n))| + limited <= |ActiveLanes(active, 0,
      PartStart(warpSize, parts, n + 1))|
  {
    hide IsCycles, TallyOf, ActiveAddrs, PartStart, ActiveLanes;
    PartBounds(warpSize, parts, n);
    var lo, hi := PartStart(warpSize, parts, n), PartStart(warpSize, parts, n + 1);
    PartInOrder(PartAddrs(warpSize, parts, active, addrs, n), banks, distinct, limited);
    ActiveAddrsSize(active, addrs, lo, hi);
    SplitLanes(active, lo, hi);
  }

  /** The first subwarps together: counting different words never takes longer than limited
      broadcast, and that never longer than one cycle for each active lane. */
  lemma {:induction false} PartsInOrder(warpSize: nat, parts: nat, active: set<nat>, addrs: seq<nat>, banks: nat,
                                        distinct: seq<nat>, limited: seq<nat>)
    requires parts > 0 && warpSize % parts == 0 && |addrs| == warpSize && banks > 0 && |distinct| == |limited|
    requires Counted(warpSize, parts, active, addrs, banks, false, distinct)
    requires Counted(warpSize, parts, active, addrs, banks, true, limited)
    ensures Sum(distinct) <= Sum(limited) <= |ActiveLanes(active, 0, PartStart(warpSize, parts, |limited|))|
    decreases |limited|
  {
    hide IsCycles, TallyOf, PartStart, ActiveLanes, PartAddrs;
    if limited == [] {
    } else {
      var n := |limited| - 1;
      PartsInOrder(warpSize, parts, active, addrs, banks, distinct[..n], limited[..n]);
      NextPart(warpSize, parts, active, addrs, banks, n, distinct[n], limited[n]);
    }
  }

  /** The whole warp, in the two modes. */
  lemma WarpModesInOrder(warpSize: nat, parts: nat, active: set<nat>, addrs: seq<nat>, banks: nat, distinct: seq<nat>,
                         limited: seq<nat>)
    requires parts > 0 && warpSize % parts == 0 && |addrs| == warpSize && banks > 0 && |distinct| == |limited| == parts
    requires Counted(warpSize, parts, active, addrs, banks, false, distinct)
    requires Counted(warpSize, parts, active, addrs, banks, true, limited)
    ensures Sum(distinct) <= Sum(limited) <= |ActiveLanes(active, 0, warpSize)|
  {
    PartsInOrder(warpSize, parts, active, addrs, banks, distinct, limited);
    PartsEnd(warpSize, parts);
  }

  lemma PartsEnd(warpSize: nat, parts: nat)
    requires parts > 0 && warpSize % parts == 0
    ensures PartStart(warpSize, parts, 0) == 0 && PartStart(warpSize, parts, parts) == warpSize
  {
    assert parts * (warpSize / parts) == warpSize;
  }
}
