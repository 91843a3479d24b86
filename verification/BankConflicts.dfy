/**
  What the shared-memory cycle count means for the lanes of a subwarp, in terms of their
  addresses alone: a word is four bytes, and word number `n` is in bank `n` modulo the number
  of banks.
*/
module BankConflicts {
  import opened Collections
  import opened SharedMemory
  import opened WarpMemory

  /** What the active lanes from `lo` up to `hi` read from that many banks. */
  datatype Reads = Reads(active: set<nat>, addrs: seq<nat>, lo: nat, hi: nat, banks: nat) {
    ghost predicate Valid() {
      lo <= hi <= |addrs| && banks > 0
    }

    /** The lanes that read the word, the lanes that read from the bank, and the words of the
        bank that are read. */
    ghost function Readers(word: nat): set<nat>
      requires Valid()
    {
      set t | lo <= t < hi && t in active && addrs[t] - addrs[t] % 4 == word
    }

    ghost function LanesOf(bank: nat): set<nat>
      requires Valid()
    {
      set t | lo <= t < hi && t in active && addrs[t] / 4 % banks == bank
    }

    ghost function WordsOf(bank: nat): set<nat>
      requires Valid()
    {
      set t | lo <= t < hi && t in active && addrs[t] / 4 % banks == bank :: addrs[t] - addrs[t] % 4
    }

    ghost function Tallied(): Tally
      requires Valid()
    {
      TallyOf(ActiveAddrs(active, addrs, lo, hi), banks)
    }

    /** Without the last lane. */
    ghost function Before(): Reads
      requires Valid() && lo < hi
    {
      this.(hi := hi - 1)
    }

    // ---------------------------------------------------------------------------------
    // What the tally counts

    ghost function Both(bank: nat, word: nat): set<nat>
      requires Valid()
    {
      set t | lo <= t < hi && t in active && addrs[t] / 4 % banks == bank && addrs[t] - addrs[t] % 4 == word
    }

    ghost function LastBank(): nat
      requires Valid() && lo < hi
    {
      addrs[hi - 1] / 4 % banks
    }

    ghost function LastWord(): nat
      requires Valid() && lo < hi
    {
      addrs[hi - 1] - addrs[hi - 1] % 4
    }

    lemma TalliedStep()
      requires Valid() && lo < hi
      ensures Tallied() == if hi - 1 !in active then Before().Tallied() else
        Bumped(Before().Tallied(), LastBank(), LastWord())
    {
      var a := ActiveAddrs(active, addrs, lo, hi - 1);
      if hi - 1 in active {
        assert (a + [addrs[hi - 1]])[..|a|] == a;
      } else {
        assert a + [] == a;
      }
    }

    lemma BothStep(bank: nat, word: nat)
      requires Valid() && lo < hi
      ensures Both(bank, word) == Before().Both(bank, word) +
        if hi - 1 in active && LastBank() == bank && LastWord() == word then {hi - 1} else {}
      ensures hi - 1 !in Before().Both(bank, word)
    {
    }

    ghost function Entry(bank: nat, word: nat): nat
      requires Valid()
    {
      var t := Tallied();
      if bank in t && word in t[bank] then t[bank][word] else 0
    }

    /** An entry is the number of lanes that read that word of that bank. */
    lemma {:induction false} EntryIs(bank: nat, word: nat)
      requires Valid()
      ensures Entry(bank, word) == |Both(bank, word)|
      decreases hi
    {
      if lo == hi {
        assert Both(bank, word) == {};
      } else {
        Before().EntryIs(bank, word);
        TalliedStep();
        BothStep(bank, word);
        hide Both, ActiveAddrs, TallyOf, Tallied, LastBank, LastWord;
      }
    }

    lemma InTally(bank: nat, word: nat)
      requires Valid()
      ensures bank in Tallied() ==> Tallied()[bank] != map[]
      ensures bank in Tallied() && word in Tallied()[bank] <==> Both(bank, word) != {}
      ensures bank in Tallied() && word in Tallied()[bank] ==> Tallied()[bank][word] == |Both(bank, word)| > 0
    {
      EntryIs(bank, word);
      SizeZero(Both(bank, word));
      TallyTotals(ActiveAddrs(active, addrs, lo, hi), banks);
      hide TallyOf, ActiveAddrs, Both, Total;
      assert bank in Tallied() ==> Positive(Tallied()[bank]);
    }

    /** A bank is in the tally exactly if a lane reads from it, and then has an entry for each of
        its words that is read. */
    lemma BankIs(bank: nat)
      requires Valid()
      ensures bank in Tallied() <==> LanesOf(bank) != {}
      ensures bank in Tallied() ==> Tallied()[bank] != map[] && Tallied()[bank].Keys == WordsOf(bank)
    {
      hide Tallied;
      if bank in Tallied() {
        var m := Tallied()[bank];
        InTally(bank, 0);
        SomeKey(m);
        var w: nat :| w in m;
        InTally(bank, w);
        var u :| u in Both(bank, w);
        assert u in LanesOf(bank);
        forall w: nat
          ensures w in m <==> w in WordsOf(bank)
        {
          InTally(bank, w);
          WordIff(bank, w);
        }
      } else if u :| u in LanesOf(bank) {
        assert u in Both(bank, addrs[u] - addrs[u] % 4);
        InTally(bank, addrs[u] - addrs[u] % 4);
      }
    }

    lemma WordIff(bank: nat, word: nat)
      requires Valid()
      ensures word in WordsOf(bank) <==> Both(bank, word) != {}
    {
      if u :| u in Both(bank, word) {
      }
      if word in WordsOf(bank) {
        var t :| lo <= t < hi && t in active && addrs[t] / 4 % banks == bank && addrs[t] - addrs[t] % 4 == word;
        assert t in Both(bank, word);
      }
    }

    /** A word is in one bank, so its entry is the number of its readers. */
    lemma WordIs(bank: nat, word: nat)
      requires Valid()
      ensures bank in Tallied() && word in Tallied()[bank] <==> Readers(word) != {} && bank == word / 4 % banks
      ensures bank in Tallied() && word in Tallied()[bank] ==> Tallied()[bank][word] == |Readers(word)| > 0
    {
      InTally(bank, word);
      hide Tallied;
      if u :| u in Both(bank, word) {
        ReadersInBank(bank, word, u);
      }
      if u :| u in Readers(word) {
        WordNumber(addrs[u]);
        assert bank == word / 4 % banks ==> u in Both(bank, word);
      }
    }

    lemma ReadersInBank(bank: nat, word: nat, u: nat)
      requires Valid() && u in Both(bank, word)
      ensures Both(bank, word) == Readers(word) && bank == word / 4 % banks
    {
      WordNumber(addrs[u]);
      forall t | t in Readers(word)
        ensures t in Both(bank, word)
      {
        WordNumber(addrs[t]);
      }
    }

    lemma WordNumber(addr: nat)
      ensures (addr - addr % 4) / 4 == addr / 4
    {
    }

    lemma SizeZero(s: set<nat>)
      ensures |s| > 0 <==> s != {}
    {
    }

    static ghost function BankTotal(t: Tally, bank: nat): nat {
      if bank in t then Total(t[bank]) else 0
    }

    /** The accesses of a bank are its lanes. */
    lemma {:induction false} BankTotalIs(bank: nat)
      requires Valid()
      ensures BankTotal(Tallied(), bank) == |LanesOf(bank)|
      decreases hi, 1
    {
      if lo == hi {
        assert LanesOf(bank) == {};
      } else {
        BankTotalNext(bank);
      }
    }

    lemma BankTotalNext(bank: nat)
      requires Valid() && lo < hi
      ensures BankTotal(Tallied(), bank) == |LanesOf(bank)|
      decreases hi, 0
    {
      assert Before().Valid() && Before().hi == hi - 1;
      hide *;
      Before().BankTotalIs(bank);
      TalliedStep();
      LanesOfStep(bank);
      if hi - 1 in active {
        BumpedTotal(Before().Tallied(), LastBank(), LastWord(), bank);
      }
    }

    static lemma BumpedTotal(t: Tally, bank: nat, word: nat, b: nat)
      ensures BankTotal(Bumped(t, bank, word), b) == BankTotal(t, b) + if b == bank then 1 else 0
    {
      TotalBumped(if b in t then t[b] else map[], word);
    }

    lemma LanesOfStep(bank: nat)
      requires Valid() && lo < hi
      ensures LanesOf(bank) ==
        Before().LanesOf(bank) + if hi - 1 in active && LastBank() == bank then {hi - 1} else {}
      ensures hi - 1 !in Before().LanesOf(bank)
    {
    }

    // ---------------------------------------------------------------------------------
    // Cycles

    ghost function BankOf(word: nat): nat
      requires Valid()
    {
      word / 4 % banks
    }

    /** The word that is broadcast is the first, by bank and then by address, that more than one
        lane reads. */
    ghost predicate FirstShared(x: Broadcast)
      requires Valid()
    {
      match x
      case NoBroadcast => forall w: nat :: |Readers(w)| <= 1
      case At(bank, word) =>
        && |Readers(word)| > 1 && bank == BankOf(word)
        && forall w: nat :: |Readers(w)| > 1 ==> bank < BankOf(w) || (bank == BankOf(w) && word <= w)
    }

    /** The lanes of a bank, all those that read the broadcast word counting as one. */
    ghost function Cost(x: Broadcast, bank: nat): int
      requires Valid()
    {
      |LanesOf(bank)| - if x.At? && x.bank == bank then |Readers(x.word)| - 1 else 0
    }

    /** The count is the largest number of different words of one bank; with the limited
        broadcast it is the largest cost of one bank. */
    ghost predicate Takes(limitedBroadcast: bool, r: nat)
      requires Valid()
    {
      if limitedBroadcast then
        exists x :: FirstShared(x) && (forall b: nat :: Cost(x, b) <= r) && exists b: nat :: Cost(x, b) == r
      else (forall b: nat :: |WordsOf(b)| <= r) && exists b: nat :: |WordsOf(b)| == r
    }

    lemma WordReaders(bank: nat, word: nat)
      requires Valid()
      ensures bank in Tallied() && word in Tallied()[bank] <==> |Readers(word)| > 0 && bank == BankOf(word)
      ensures bank in Tallied() && word in Tallied()[bank] ==> Tallied()[bank][word] == |Readers(word)|
    {
      WordIs(bank, word);
      SizeZero(Readers(word));
    }

    /** The tally holds the words that are read, each with the number of its readers. */
    ghost predicate HoldsReaders(t: Tally)
      requires Valid()
    {
      && (forall b, w :: b in t && w in t[b] ==> t[b][w] == |Readers(w)| && b == BankOf(w))
      && (forall w: nat :: |Readers(w)| > 0 ==> BankOf(w) in t && w in t[BankOf(w)])
    }

    lemma TallyHolds()
      requires Valid()
      ensures HoldsReaders(Tallied())
    {
      var t := Tallied();
      hide Tallied, Readers, BankOf;
      forall w: nat | |Readers(w)| > 0
        ensures BankOf(w) in t && w in t[BankOf(w)]
      {
        WordReaders(BankOf(w), w);
      }
      forall b, w | b in t && w in t[b]
        ensures t[b][w] == |Readers(w)| && b == BankOf(w)
      {
        WordReaders(b, w);
      }
    }

    lemma SharedIf(t: Tally, x: Broadcast)
      requires Valid() && HoldsReaders(t) && FirstShared(x)
      ensures IsBroadcast(t, x)
    {
      hide Readers, BankOf;
      if x.At? {
        assert x.bank in t && x.word in t[x.bank] && t[x.bank][x.word] == |Readers(x.word)|;
        forall b, w | b in t && w in t[b] && t[b][w] > 1
          ensures x.bank < b || (x.bank == b && x.word <= w)
        {
          assert |Readers(w)| > 1;
        }
      } else {
        forall b, w | b in t && w in t[b]
          ensures t[b][w] <= 1
        {
          assert |Readers(w)| <= 1;
        }
      }
    }

    lemma SharedOnlyIf(t: Tally, x: Broadcast)
      requires Valid() && HoldsReaders(t) && IsBroadcast(t, x)
      ensures FirstShared(x)
    {
      hide Readers, BankOf;
      if x.At? {
        forall w: nat | |Readers(w)| > 1
          ensures x.bank < BankOf(w) || (x.bank == BankOf(w) && x.word <= w)
        {
          var b := BankOf(w);
          assert w in t[b] && t[b][w] > 1;
        }
      }
    }

    lemma SharedIs(x: Broadcast)
      requires Valid()
      ensures IsBroadcast(Tallied(), x) <==> FirstShared(x)
    {
      TallyHolds();
      hide *;
      if FirstShared(x) {
        SharedIf(Tallied(), x);
      }
      if IsBroadcast(Tallied(), x) {
        SharedOnlyIf(Tallied(), x);
      }
    }

    lemma CostIs(x: Broadcast, bank: nat)
      requires Valid() && IsBroadcast(Tallied(), x)
      ensures if bank in Tallied() then LimitedCost(Tallied(), x, bank) == Cost(x, bank) > 0 else Cost(x, bank) == 0
    {
      BankTotalIs(bank);
      BankIs(bank);
      SizeZero(LanesOf(bank));
      if x.At? {
        WordIs(x.bank, x.word);
      }
      SharedMemory.Tallied(ActiveAddrs(active, addrs, lo, hi), banks);
      if bank in Tallied() {
        CostInRange(Tallied(), |ActiveAddrs(active, addrs, lo, hi)|, x, bank);
      }
      hide LanesOf, Readers, ActiveAddrs, Total;
    }

    lemma DistinctIs(bank: nat)
      requires Valid()
      ensures if bank in Tallied() then |Tallied()[bank]| == |WordsOf(bank)| > 0 else |WordsOf(bank)| == 0
    {
      BankIs(bank);
      hide Tallied;
      if bank in Tallied() {
        var m := Tallied()[bank];
        assert |m| == |m.Keys|;
        SizeZero(m.Keys);
      } else {
        NoWords(bank);
      }
    }

    lemma NoWords(bank: nat)
      requires Valid() && LanesOf(bank) == {}
      ensures WordsOf(bank) == {}
    {
      assert forall t :: lo <= t < hi && t in active && addrs[t] / 4 % banks == bank ==> t in LanesOf(bank);
    }

    /** What is counted for a subwarp, in either mode. */
    lemma CyclesIff(limitedBroadcast: bool, r: nat)
      requires Valid()
      ensures IsCycles(Tallied(), limitedBroadcast, r) <==> Takes(limitedBroadcast, r)
    {
      if limitedBroadcast {
        forall x
          ensures IsBroadcast(Tallied(), x) && WorstLimited(Tallied(), x, r) <==>
            FirstShared(x) && (forall b: nat :: Cost(x, b) <= r) && exists b: nat :: Cost(x, b) == r
        {
          SharedIs(x);
          if IsBroadcast(Tallied(), x) {
            LimitedIff(x, r);
          }
        }
      } else {
        DistinctIff(r);
      }
    }

    lemma LimitedIff(x: Broadcast, r: nat)
      requires Valid() && IsBroadcast(Tallied(), x)
      ensures WorstLimited(Tallied(), x, r) <==> (forall b: nat :: Cost(x, b) <= r) && exists b: nat :: Cost(x, b) == r
    {
      forall b: nat
        ensures if b in Tallied() then LimitedCost(Tallied(), x, b) == Cost(x, b) > 0 else Cost(x, b) == 0
      {
        CostIs(x, b);
      }
      hide Tallied, Cost, LimitedCost;
      var t := Tallied();
      if t == map[] {
        assert Cost(x, 0) == 0;
      } else {
        SomeKey(t);
        var b: nat :| b in t;
        assert Cost(x, b) > 0;
      }
    }

    lemma DistinctIff(r: nat)
      requires Valid()
      ensures WorstDistinct(Tallied(), r) <==>
        (forall b: nat :: |WordsOf(b)| <= r) && exists b: nat :: |WordsOf(b)| == r
    {
      forall b: nat
        ensures if b in Tallied() then |Tallied()[b]| == |WordsOf(b)| > 0 else |WordsOf(b)| == 0
      {
        DistinctIs(b);
      }
      hide Tallied, WordsOf;
      var t := Tallied();
      if t == map[] {
        assert |WordsOf(0)| == 0;
      } else {
        SomeKey(t);
        var b: nat :| b in t;
        assert |WordsOf(b)| > 0;
      }
    }

    // ---------------------------------------------------------------------------------
    // No conflict

    ghost predicate Lane(t: nat) {
      lo <= t < hi && t in active
    }

    ghost predicate SameBank(t: nat, u: nat)
      requires Valid()
    {
      Lane(t) && Lane(u) && addrs[t] / 4 % banks == addrs[u] / 4 % banks
    }

    /** Lanes that read from one bank read one word. */
    ghost predicate OneWordABank()
      requires Valid()
    {
      forall t: nat, u: nat :: SameBank(t, u) ==> addrs[t] / 4 == addrs[u] / 4
    }

    lemma OneWord(t: nat, u: nat)
      requires Valid() && SameBank(t, u) && |WordsOf(addrs[t] / 4 % banks)| <= 1
      ensures addrs[t] / 4 == addrs[u] / 4
    {
      var words := WordsOf(addrs[t] / 4 % banks);
      assert addrs[t] - addrs[t] % 4 in words && addrs[u] - addrs[u] % 4 in words;
      hide WordsOf;
      AtMostOne(words);
      SameWord(addrs[t], addrs[u]);
    }

    lemma TwoWords(bank: nat)
      requires Valid() && OneWordABank()
      ensures |WordsOf(bank)| <= 1
    {
      var words := WordsOf(bank);
      forall w, w' | w in words && w' in words
        ensures w == w'
      {
        var t := ReaderOf(bank, w);
        var u := ReaderOf(bank, w');
        assert SameBank(t, u);
        SameWord(addrs[t], addrs[u]);
      }
      AtMostOne(words);
    }

    lemma ReaderOf(bank: nat, word: nat) returns (t: nat)
      requires Valid() && word in WordsOf(bank)
      ensures Lane(t) && addrs[t] / 4 % banks == bank && addrs[t] - addrs[t] % 4 == word
    {
      t :| lo <= t < hi && t in active && addrs[t] / 4 % banks == bank && addrs[t] - addrs[t] % 4 == word;
    }

    lemma SomeWord(t: nat) returns (bank: nat)
      requires Valid() && Lane(t)
      ensures |WordsOf(bank)| >= 1
    {
      bank := addrs[t] / 4 % banks;
      assert addrs[t] - addrs[t] % 4 in WordsOf(bank);
    }

    /** Serving each word of a bank once, a subwarp takes one cycle exactly if no two of its lanes
        read different words of one bank. */
    lemma OneCycleIff(r: nat)
      requires Valid() && Takes(false, r) && exists t :: Lane(t)
      ensures r == 1 <==> OneWordABank()
    {
      var v: nat :| Lane(v);
      var bank := SomeWord(v);
      var b: nat :| |WordsOf(b)| == r;
      hide WordsOf, Lane;
      if r == 1 {
        forall t: nat, u: nat | SameBank(t, u)
          ensures addrs[t] / 4 == addrs[u] / 4
        {
          OneWord(t, u);
        }
      }
      if OneWordABank() {
        TwoWords(b);
      }
    }

    lemma SameWord(p: nat, q: nat)
      ensures p / 4 == q / 4 <==> p - p % 4 == q - q % 4
    {
    }

    lemma AtMostOne(s: set<nat>)
      ensures |s| <= 1 <==> forall a, b :: a in s && b in s ==> a == b
    {
      if a :| a in s {
        assert s == {a} + (s - {a});
        if b :| b in s - {a} {
          assert s == {a, b} + (s - {a, b});
        }
      }
    }

    lemma OneFirst(x: Broadcast, y: Broadcast)
      requires Valid() && FirstShared(x) && FirstShared(y)
      ensures x == y
    {
    }

    lemma ReadersOfBank(word: nat)
      requires Valid()
      ensures Readers(word) <= LanesOf(BankOf(word))
    {
      forall t | t in Readers(word)
        ensures t in LanesOf(BankOf(word))
      {
        WordNumber(addrs[t]);
      }
    }

    /** No two lanes read from one bank, except that both may read the word that is broadcast. */
    ghost predicate OnlyBroadcast(x: Broadcast)
      requires Valid()
    {
      forall t: nat, u: nat :: SameBank(t, u) && t != u ==>
        x.At? && addrs[t] - addrs[t] % 4 == x.word == addrs[u] - addrs[u] % 4
    }

    /** With the limited broadcast a subwarp takes one cycle exactly in this case. */
    lemma OneCycleLimitedIff(x: Broadcast, r: nat)
      requires Valid() && Takes(true, r) && FirstShared(x) && exists t :: Lane(t)
      ensures r == 1 <==> OnlyBroadcast(x)
    {
      var v: nat :| Lane(v);
      var bank := BankOf(addrs[v]);
      assert v in LanesOf(bank);
      hide *;
      var b := WorstBank(x, r);
      CostAtLeastOne(x, bank);
      if r == 1 {
        AllCheap(x);
      }
      if OnlyBroadcast(x) {
        CostAtMostOne(x, b);
      }
    }

    lemma WorstBank(x: Broadcast, r: nat) returns (bank: nat)
      requires Valid() && Takes(true, r) && FirstShared(x)
      ensures Cost(x, bank) == r && forall b: nat :: Cost(x, b) <= r
    {
      hide FirstShared, Cost;
      var y :| FirstShared(y) && (forall b: nat :: Cost(y, b) <= r) && exists b: nat :: Cost(y, b) == r;
      OneFirst(x, y);
      bank :| Cost(x, bank) == r;
    }

    lemma AllCheap(x: Broadcast)
      requires Valid() && FirstShared(x) && forall b: nat :: Cost(x, b) <= 1
      ensures OnlyBroadcast(x)
    {
      forall t: nat, u: nat | SameBank(t, u) && t != u
        ensures x.At? && addrs[t] - addrs[t] % 4 == x.word == addrs[u] - addrs[u] % 4
      {
        CheapBank(x, t, u);
      }
    }

    lemma CostAtLeastOne(x: Broadcast, b: nat)
      requires Valid() && FirstShared(x) && LanesOf(b) != {}
      ensures Cost(x, b) >= 1
    {
      SizeZero(LanesOf(b));
      if x.At? && x.bank == b {
        ReadersOfBank(x.word);
        SubsetSize(Readers(x.word), LanesOf(b));
      }
    }

    /** A bank of cost one has two lanes only if all its lanes read the broadcast word. */
    lemma CheapBank(x: Broadcast, t: nat, u: nat)
      requires Valid() && FirstShared(x) && SameBank(t, u) && t != u && Cost(x, addrs[t] / 4 % banks) <= 1
      ensures x.At? && addrs[t] - addrs[t] % 4 == x.word == addrs[u] - addrs[u] % 4
    {
      var b := addrs[t] / 4 % banks;
      assert t in LanesOf(b) && u in LanesOf(b);
      AtMostOne(LanesOf(b));
      assert x.At? && x.bank == b;
      ReadersOfBank(x.word);
      SubsetSize(Readers(x.word), LanesOf(b));
      assert Readers(x.word) == LanesOf(b);
      assert t in Readers(x.word) && u in Readers(x.word);
    }

    lemma CostAtMostOne(x: Broadcast, b: nat)
      requires Valid() && FirstShared(x) && OnlyBroadcast(x)
      ensures Cost(x, b) <= 1
    {
      var lanes := LanesOf(b);
      AtMostOne(lanes);
      if |lanes| > 1 {
        var t: nat, u: nat :| t in lanes && u in lanes && t != u;
        assert SameBank(t, u);
        WordNumber(addrs[t]);
        assert x.bank == b;
        forall v | v in lanes
          ensures v in Readers(x.word)
        {
          assert SameBank(v, t) && SameBank(v, u);
        }
        SubsetSize(lanes, Readers(x.word));
      }
    }
  }

  /** What the lanes of a subwarp read. */
  ghost function PartReads(warpSize: nat, parts: nat, active: set<nat>, addrs: seq<nat>, banks: nat, p: nat): (r: Reads)
    requires p < parts && warpSize % parts == 0 && |addrs| == warpSize && banks > 0
    ensures r.Valid() && r.lo == p * (warpSize / parts) && r.hi == (p + 1) * (warpSize / parts)
  {
    PartBounds(warpSize, parts, p);
    Reads(active, addrs, p * (warpSize / parts), (p + 1) * (warpSize / parts), banks)
  }

  /** What `ConflictCycles` counts for each subwarp of a warp. */
  lemma CountedIff(warpSize: nat, parts: nat, active: set<nat>, addrs: seq<nat>, banks: nat,
                   limitedBroadcast: bool, each: seq<nat>)
    requires parts > 0 && warpSize % parts == 0 && |addrs| == warpSize && banks > 0 && |each| == parts
    ensures Counted(warpSize, parts, active, addrs, banks, limitedBroadcast, each) <==>
      forall p :: 0 <= p < parts ==>
        PartReads(warpSize, parts, active, addrs, banks, p).Takes(limitedBroadcast, each[p])
  {
    forall p: nat | p < parts
      ensures IsCycles(TallyOf(PartAddrs(warpSize, parts, active, addrs, p), banks), limitedBroadcast, each[p]) <==>
        PartReads(warpSize, parts, active, addrs, banks, p).Takes(limitedBroadcast, each[p])
    {
      PartCyclesIff(warpSize, parts, active, addrs, banks, limitedBroadcast, p, each[p]);
    }
    hide IsCycles, TallyOf, PartAddrs, PartReads;
  }

  lemma PartCyclesIff(warpSize: nat, parts: nat, active: set<nat>, addrs: seq<nat>, banks: nat,
                      limitedBroadcast: bool, p: nat, r: nat)
    requires p < parts && warpSize % parts == 0 && |addrs| == warpSize && banks > 0
    ensures IsCycles(TallyOf(PartAddrs(warpSize, parts, active, addrs, p), banks), limitedBroadcast, r) <==>
      PartReads(warpSize, parts, active, addrs, banks, p).Takes(limitedBroadcast, r)
  {
    PartBounds(warpSize, parts, p);
    hide IsCycles, TallyOf, ActiveAddrs;
    PartReads(warpSize, parts, active, addrs, banks, p).CyclesIff(limitedBroadcast, r);
  }
}
