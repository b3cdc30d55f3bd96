/** The spent-output deduction as a whole, over the inputs of a main chain and its forks. */
module Blackball {
  import opened CryptoNote
  import opened RingOffsets
  import opened RingScan
  import opened SpentDeduction
  import opened ChainReading

  function RingAt(ss: seq<Sighting>, i: int): seq<Output>
    requires 0 <= i < |ss|
  {
    Ring(ss[i].amount, ss[i].offsets)
  }

  /** The set respects the elimination rule: for the rings of the main chain, and the rings of
      size one of any chain, if all other positions hold spent outputs then so does this one. */
  ghost predicate ClosedUnder(ss: seq<Sighting>, known: set<Output>) {
    forall i, p :: 0 <= i < |ss| && (ss[i].chain == 0 || |ss[i].offsets| == 1) && OthersIn(RingAt(ss, i), p, known) ==>
      RingAt(ss, i)[p] in known
  }

  ghost predicate LeastClosed(ss: seq<Sighting>, spent: set<Output>) {
    ClosedUnder(ss, spent) && forall known :: ClosedUnder(ss, known) ==> spent <= known
  }

  /** Two lists with the same sightings, in any order and with any repetitions. */
  ghost predicate SameSightings(ss: seq<Sighting>, tt: seq<Sighting>) {
    (forall i :: 0 <= i < |ss| ==> ss[i] in tt) && (forall i :: 0 <= i < |tt| ==> tt[i] in ss)
  }

  lemma ClosedUnderSame(ss: seq<Sighting>, tt: seq<Sighting>, known: set<Output>)
    requires SameSightings(ss, tt) && ClosedUnder(ss, known)
    ensures ClosedUnder(tt, known)
  {
    forall i, p | 0 <= i < |tt| && (tt[i].chain == 0 || |tt[i].offsets| == 1) && OthersIn(RingAt(tt, i), p, known)
      ensures RingAt(tt, i)[p] in known
    {
      var j :| 0 <= j < |ss| && ss[j] == tt[i];
      assert RingAt(ss, j) == RingAt(tt, i);
    }
  }

  /** The outcome is a function of the set of rings read: neither the order of the transactions nor
      any visiting order of the passes can change it. */
  lemma LeastClosedIsUnique(ss: seq<Sighting>, tt: seq<Sighting>, a: set<Output>, b: set<Output>)
    requires SameSightings(ss, tt) && LeastClosed(ss, a) && LeastClosed(tt, b)
    ensures a == b
  {
    ClosedUnderSame(ss, tt, a);
    ClosedUnderSame(tt, ss, b);
  }

  // ---- One ring per key image ----

  lemma StoredRingAt(ss: seq<Sighting>, i: int)
    requires OneRing(ss) && 0 <= i < |ss|
    ensures RingOf(ScanAll(ss), ss[i].amount, ss[i].kImage) == RingAt(ss, i)
  {
    OneRingRemembered(ss, ss[i].kImage);
    assert SeenAt(ss, i, ss[i].kImage);
  }

  /** An indexed key image has been seen on the main chain with a ring over that amount. */
  lemma IndexedIsSeen(ss: seq<Sighting>, amount: u64, ki: KeyImage) returns (i: int)
    requires OneRing(ss) && Indexed(ScanAll(ss), amount, ki)
    ensures SeenAt(ss, i, ki) && ss[i].chain == 0 && ss[i].amount == amount
  {
    var o :| o in ScanAll(ss).outputs && ki in ScanAll(ss).outputs[o] && o.amount == amount;
    IndexIsExact(ss, o, ki);
    i :| 0 <= i < |ss| && ss[i].chain == 0 && ss[i].kImage == ki && o in Ring(ss[i].amount, ss[i].offsets);
    InRing(o, ss[i].amount, ss[i].offsets);
  }

  lemma RingIsCovered(ss: seq<Sighting>, i: int, p: int)
    requires OneRing(ss) && 0 <= i < |ss| && ss[i].chain == 0 && |ss[i].offsets| > 1
    ensures Covered(ScanAll(ss), ss[i].amount, ss[i].kImage, p)
  {
    StoredRingAt(ss, i);
    var ring := RingAt(ss, i);
    forall q | 0 <= q < |ring| ensures ss[i].kImage in KeyImagesOf(ScanAll(ss).outputs, ring[q]) {
      IndexIsExact(ss, ring[q], ss[i].kImage);
    }
  }

  lemma LoneMemberIsMarked(ss: seq<Sighting>, i: int)
    requires OneRing(ss) && 0 <= i < |ss| && |ss[i].offsets| == 1
    ensures RingAt(ss, i)[0] in ScanAll(ss).spent
  {
    var o := RingAt(ss, i)[0];
    assert LoneRingAt(ss, i, ss[i].kImage, o);
    OneRingMarks(ss, o);
  }

  lemma CoveredMeansClosed(ss: seq<Sighting>, spent: set<Output>)
    requires OneRing(ss) && ScanAll(ss).spent <= spent && ClosedCovered(ScanAll(ss), spent)
    ensures ClosedUnder(ss, spent)
  {
    forall i, p | 0 <= i < |ss| && (ss[i].chain == 0 || |ss[i].offsets| == 1) && OthersIn(RingAt(ss, i), p, spent)
      ensures RingAt(ss, i)[p] in spent
    {
      if |ss[i].offsets| == 1 {
        LoneMemberIsMarked(ss, i);
      } else {
        StoredRingAt(ss, i);
        RingIsCovered(ss, i, p);
      }
    }
  }

  lemma ClosedUnderMeansClosed(ss: seq<Sighting>, known: set<Output>)
    requires OneRing(ss) && ClosedUnder(ss, known)
    ensures ScanAll(ss).spent <= known && Closed(ScanAll(ss), known)
  {
    var st := ScanAll(ss);
    forall o | o in st.spent ensures o in known {
      OneRingMarks(ss, o);
      var i :| LoneRingAt(ss, i, ScanWitness(ss)[o], o);
      assert OthersIn(RingAt(ss, i), 0, known);
    }
    forall a, ki, p | Indexed(st, a, ki) && OthersIn(RingOf(st, a, ki), p, known)
      ensures RingOf(st, a, ki)[p] in known
    {
      var i := IndexedIsSeen(ss, a, ki);
      StoredRingAt(ss, i);
      assert OthersIn(RingAt(ss, i), p, known);
    }
  }

  /** Least fixpoint: whatever the order of the passes, they end in the least closed set. */
  lemma PassesReachLeast(ss: seq<Sighting>, spent: set<Output>)
    requires OneRing(ss)
    requires ScanAll(ss).spent <= spent && ClosedCovered(ScanAll(ss), spent) && Forced(ScanAll(ss), spent)
    ensures LeastClosed(ss, spent)
  {
    CoveredMeansClosed(ss, spent);
    forall known | ClosedUnder(ss, known) ensures spent <= known {
      ClosedUnderMeansClosed(ss, known);
    }
  }

  /** With one ring per key image the scan leaves a tight matching, so the condition under which
      the passes are sound holds. */
  lemma OneRingIsTight(ss: seq<Sighting>)
    requires OneRing(ss)
    ensures OneAmount(ScanAll(ss))
    ensures Tight(ScanAll(ss), ScanWitness(ss))
  {
    var st, w := ScanAll(ss), ScanWitness(ss);
    forall o | o in w
      ensures AllIn(RingOf(st, o.amount, w[o]), w.Keys) && o in RingOf(st, o.amount, w[o])
    {
      var i := LoneSighting(ss, o);
    }
    forall a, b | a in w && b in w && w[a] == w[b] ensures a == b {
      var i := LoneSighting(ss, a);
      var j := LoneSighting(ss, b);
      assert RingAt(ss, i)[0] == RingAt(ss, j)[0];
    }
    forall o, a | o in w && Indexed(st, a, w[o]) ensures a == o.amount {
      var i := LoneSighting(ss, o);
      var j := IndexedIsSeen(ss, a, w[o]);
    }
    forall a, b, ki | Indexed(st, a, ki) && Indexed(st, b, ki) ensures a == b {
      var i := IndexedIsSeen(ss, a, ki);
      var j := IndexedIsSeen(ss, b, ki);
    }
  }

  lemma LoneSighting(ss: seq<Sighting>, o: Output) returns (i: int)
    requires OneRing(ss) && o in ScanWitness(ss)
    ensures LoneRingAt(ss, i, ScanWitness(ss)[o], o) && ss[i].amount == o.amount
    ensures RingOf(ScanAll(ss), o.amount, ScanWitness(ss)[o]) == [o]
  {
    OneRingMarks(ss, o);
    i :| LoneRingAt(ss, i, ScanWitness(ss)[o], o);
    assert RingAt(ss, i)[0] == o;
    StoredRingAt(ss, i);
  }

  // ---- The program ----

  /** The marked outputs and their spenders are matched one to one, every spender's ring consists
      of marked outputs, and together these rings are exactly the marked outputs. */
  ghost predicate Matching(ss: seq<Sighting>, spent: set<Output>, spender: map<Output, KeyImage>) {
    && spender.Keys == spent
    && Injective(spender)
    && |spender.Values| == |spent|
    && (forall o :: o in spent ==> o in RingOf(ScanAll(ss), o.amount, spender[o]))
    && (forall o :: o in spent ==> AllIn(RingOf(ScanAll(ss), o.amount, spender[o]), spent))
  }

  lemma {:induction false} InjectiveSize<A, B>(m: map<A, B>)
    requires Injective(m)
    ensures |m.Values| == |m.Keys|
    decreases |m|
  {
    if m == map[] {
      assert m.Keys == {} && m.Values == {};
    } else {
      var a :| a in m;
      var rest := m - {a};
      InjectiveSize(rest);
      assert m.Keys == rest.Keys + {a};
      assert m.Values == rest.Values + {m[a]};
      assert m[a] !in rest.Values;
    }
  }

  // ---- In terms of the inputs ----

  lemma OthersKnownIff(s: Sighting, input: TxIn, r: nat, known: set<Output>)
    requires Tells(s.chain, input, s)
    ensures OthersKnown(input, r, known) <==> OthersIn(Ring(s.amount, s.offsets), r, known)
    ensures r < |s.offsets| ==> Ring(s.amount, s.offsets)[r] == Member(input, r)
  {
    hide Absolute;
    assert forall q :: 0 <= q < |s.offsets| ==> Ring(s.amount, s.offsets)[q] == Member(input, q);
  }

  lemma ClosedUnderIff(rctOnly: bool, chains: seq<seq<seq<TxIn>>>, known: set<Output>)
    ensures ClosedUnder(Sightings(rctOnly, chains), known) <==> Eliminates(rctOnly, chains, known)
  {
    hide Sightings, Absolute, Ring, Member;
    var ss := Sightings(rctOnly, chains);
    if Eliminates(rctOnly, chains, known) {
      forall i, r | 0 <= i < |ss| && (ss[i].chain == 0 || |ss[i].offsets| == 1) && OthersIn(RingAt(ss, i), r, known)
        ensures RingAt(ss, i)[r] in known
      {
        var p := PlaceOf(rctOnly, chains, i);
        OthersKnownIff(ss[i], InputAt(chains, p), r, known);
      }
    }
    if ClosedUnder(ss, known) {
      forall p, r: nat | IsRead(rctOnly, chains, p) && (p.chain == 0 || |InputAt(chains, p).keyOffsets| == 1) &&
          OthersKnown(InputAt(chains, p), r, known)
        ensures Member(InputAt(chains, p), r) in known
      {
        var i := IndexOf(rctOnly, chains, p);
        OthersKnownIff(ss[i], InputAt(chains, p), r, known);
        assert RingAt(ss, i)[r] in known;
      }
    }
  }

  lemma LeastClosedIff(rctOnly: bool, chains: seq<seq<seq<TxIn>>>, spent: set<Output>)
    ensures LeastClosed(Sightings(rctOnly, chains), spent) <==> LeastEliminating(rctOnly, chains, spent)
  {
    hide Sightings, ClosedUnder, Eliminates;
    forall known ensures ClosedUnder(Sightings(rctOnly, chains), known) <==> Eliminates(rctOnly, chains, known) {
      ClosedUnderIff(rctOnly, chains, known);
    }
  }

  /** The results of the whole program, said of the inputs themselves. */
  lemma InputsConclude(rctOnly: bool, chains: seq<seq<seq<TxIn>>>, spent: set<Output>, spender: map<Output, KeyImage>)
    requires var ss := Sightings(rctOnly, chains);
             && (OneRing(ss) ==> LeastClosed(ss, spent))
             && (forall spends :: Consistent(spends, ss) ==> (Sound(spends, spender) <==> Injective(spender)))
             && (OneRing(ss) ==> forall spends :: Consistent(spends, ss) ==> Sound(spends, spender))
    ensures OneRingPerImage(rctOnly, chains) ==> LeastEliminating(rctOnly, chains, spent)
    ensures forall spends :: FitsInputs(rctOnly, chains, spends) ==> (Sound(spends, spender) <==> Injective(spender))
    ensures OneRingPerImage(rctOnly, chains) ==>
              forall spends :: FitsInputs(rctOnly, chains, spends) ==> Sound(spends, spender)
  {
    hide Sightings, OneRing, OneRingPerImage, LeastClosed, LeastEliminating, Consistent, FitsInputs, Sound, Injective;
    OneRingIff(rctOnly, chains);
    LeastClosedIff(rctOnly, chains, spent);
    forall spends ensures Consistent(spends, Sightings(rctOnly, chains)) <==> FitsInputs(rctOnly, chains, spends) {
      ConsistentIff(rctOnly, chains, spends);
    }
  }

  /** The whole program. For every list of chains:
      - with one ring per key image the result is the least set that respects the elimination rule
        for the inputs of the main chain, and every mark is spent by its recorded key image in every
        history that fits the inputs;
      - with one ring per key image the result is the least closed set and the spenders match it
        one to one;
      - in every consistent history each marked output is spent by its recorded key image if and
        only if no key image is recorded for two outputs;
      - this holds if no key image settled by the scan has an open ring, so always with one ring
        per key image;
      - where the worklist reaches every inference, the key images settled by the scan add nothing
        if and only if none of their rings has exactly one member outside what the others imply;
      - the passes dequeue as many outputs as are marked in the end. */
  method FindSpent(chains: seq<seq<seq<TxIn>>>, rctOnly: bool)
    returns (spent: set<Output>, ghost spender: map<Output, KeyImage>, ghost dequeued: nat)
    ensures ScanAll(Sightings(rctOnly, chains)).spent <= spent
    ensures ClosedCovered(ScanAll(Sightings(rctOnly, chains)), spent)
    ensures OneRing(Sightings(rctOnly, chains)) ==> LeastClosed(Sightings(rctOnly, chains), spent)
    ensures dequeued == |spent| && spender.Keys == spent
    ensures var ss := Sightings(rctOnly, chains); OneRing(ss) ==> Matching(ss, spent, spender)
    ensures var ss := Sightings(rctOnly, chains);
            forall spends :: Consistent(spends, ss) ==> (Sound(spends, spender) <==> Injective(spender))
    ensures var ss := Sightings(rctOnly, chains);
            Tied(ScanAll(ss), ScanWitness(ss)) ==> forall spends :: Consistent(spends, ss) ==> Sound(spends, spender)
    ensures var ss := Sightings(rctOnly, chains); OneRing(ss) ==> Tied(ScanAll(ss), ScanWitness(ss))
    ensures var st := ScanAll(Sightings(rctOnly, chains));
            forall settled, base :: AllCovered(st) && LeastUnsettled(st, settled, base) ==>
              (spent == base <==> !SettledRingFires(st, settled, base))
    ensures OneRingPerImage(rctOnly, chains) ==> LeastEliminating(rctOnly, chains, spent)
    ensures forall spends :: FitsInputs(rctOnly, chains, spends) ==> (Sound(spends, spender) <==> Injective(spender))
    ensures OneRingPerImage(rctOnly, chains) ==>
              forall spends :: FitsInputs(rctOnly, chains, spends) ==> Sound(spends, spender)
  {
    ghost var ss := Sightings(rctOnly, chains);
    var st := Scan(chains, rctOnly);
    AllMarksQueued(ss);
    spent, spender, dequeued := SecondaryPasses(st, ScanWitness(ss));
    Conclude(ss, spent, spender);
    InputsConclude(rctOnly, chains, spent, spender);
    forall settled, base | AllCovered(st) && LeastUnsettled(st, settled, base)
      ensures spent == base <==> !SettledRingFires(st, settled, base)
    {
      SettledAddNothingIff(st, settled, base, spent);
    }
  }

  lemma Conclude(ss: seq<Sighting>, spent: set<Output>, spender: map<Output, KeyImage>)
    requires Inv(ScanAll(ss), ScanWitness(ss), spent, spender) && ClosedCovered(ScanAll(ss), spent)
    ensures OneRing(ss) ==> LeastClosed(ss, spent) && Matching(ss, spent, spender) && Tied(ScanAll(ss), ScanWitness(ss))
    ensures forall spends :: Consistent(spends, ss) ==> (Sound(spends, spender) <==> Injective(spender))
    ensures Tied(ScanAll(ss), ScanWitness(ss)) ==> forall spends :: Consistent(spends, ss) ==> Sound(spends, spender)
  {
    if OneRing(ss) {
      PassesReachLeast(ss, spent);
      OneRingIsTight(ss);
      InjectiveSize(spender);
    }
    forall spends: map<KeyImage, Output> | Consistent(spends, ss)
      ensures Sound(spends, spender) <==> Injective(spender)
      ensures Tied(ScanAll(ss), ScanWitness(ss)) ==> Sound(spends, spender)
    {
      SoundIff(ss, spent, spender, spends);
    }
  }

  /** In a consistent history the recorded spenders are right if and only if they are distinct. */
  lemma SoundIff(ss: seq<Sighting>, spent: set<Output>, spender: map<Output, KeyImage>, spends: map<KeyImage, Output>)
    requires Inv(ScanAll(ss), ScanWitness(ss), spent, spender) && Consistent(spends, ss)
    ensures Sound(spends, spender) <==> Injective(spender)
    ensures Tied(ScanAll(ss), ScanWitness(ss)) ==> Sound(spends, spender)
  {
    hide Tied, Tight, Forced, Universe, OneAmount, ScanAll, ScanWitness, Fits;
    ScanIsSound(ss, spends);
    if Sound(spends, spender) {
      forall a, b | a in spender && b in spender && spender[a] == spender[b] ensures a == b {
        assert spends[spender[a]] == a;
      }
    }
  }

  // ---- The condition before the passes ----

  /** The set respects every inference from rings of key images that the scan has not settled. */
  ghost predicate ClosedUnsettled(st: ScanState, settled: set<KeyImage>, known: set<Output>) {
    forall a, ki, p :: Indexed(st, a, ki) && ki !in settled && OthersIn(RingOf(st, a, ki), p, known) ==>
      RingOf(st, a, ki)[p] in known
  }

  ghost predicate LeastUnsettled(st: ScanState, settled: set<KeyImage>, base: set<Output>) {
    && st.spent <= base && ClosedUnsettled(st, settled, base)
    && (forall known :: st.spent <= known && ClosedUnsettled(st, settled, known) ==> base <= known)
  }

  /** Some ring of a settled key image has exactly one member outside the set. */
  ghost predicate SettledRingFires(st: ScanState, settled: set<KeyImage>, known: set<Output>) {
    exists a, ki :: Indexed(st, a, ki) && ki in settled && |Open(RingOf(st, a, ki), known)| == 1
  }

  /** Every inference from an indexed ring is reached by the worklist. */
  ghost predicate AllCovered(st: ScanState) {
    && (forall a, ki, p :: Indexed(st, a, ki) && 0 <= p < |RingOf(st, a, ki)| && |RingOf(st, a, ki)| > 1 ==>
          Covered(st, a, ki, p))
    && (forall a, ki :: Indexed(st, a, ki) && |RingOf(st, a, ki)| == 1 ==> RingOf(st, a, ki)[0] in st.spent)
  }

  lemma CoveredPassesClose(st: ScanState, spent: set<Output>)
    requires AllCovered(st) && st.spent <= spent && ClosedCovered(st, spent)
    ensures Closed(st, spent)
  {
    forall a, ki, p | Indexed(st, a, ki) && OthersIn(RingOf(st, a, ki), p, spent)
      ensures RingOf(st, a, ki)[p] in spent
    {
      assert |RingOf(st, a, ki)| == 1 || Covered(st, a, ki, p);
    }
  }

  /** Where the worklist reaches every inference, the settled key images add nothing to what the
      others imply if and only if none of their rings has exactly one member outside that set. The
      condition speaks of the state before the passes only. */
  lemma SettledAddNothingIff(st: ScanState, settled: set<KeyImage>, base: set<Output>, spent: set<Output>)
    requires AllCovered(st) && LeastUnsettled(st, settled, base)
    requires st.spent <= spent && ClosedCovered(st, spent) && Forced(st, spent)
    ensures spent == base <==> !SettledRingFires(st, settled, base)
  {
    CoveredPassesClose(st, spent);
    assert ClosedUnsettled(st, settled, spent);
    if !SettledRingFires(st, settled, base) {
      forall a, ki, p | Indexed(st, a, ki) && OthersIn(RingOf(st, a, ki), p, base)
        ensures RingOf(st, a, ki)[p] in base
      {
        OneOpenIff(RingOf(st, a, ki), base);
      }
      assert Closed(st, base);
    } else {
      var a, ki :| Indexed(st, a, ki) && ki in settled && |Open(RingOf(st, a, ki), base)| == 1;
      OneOpenIff(RingOf(st, a, ki), base);
    }
  }

  // ---- Forks that reuse a key image ----

  /** A key image seen on the main chain with the ring {a, a + b} and on a fork with {a, a + c}. */
  function Forked(ki: KeyImage, a: u64, b: u64, c: u64): seq<Sighting> {
    [Sighting(0, 0, ki, [a, b]), Sighting(1, 0, ki, [a, c])]
  }

  predicate OneInCommon(a: u64, b: u64, c: u64) {
    0 < b && 0 < c && b != c && a + b < TWO64 && a + c < TWO64
  }

  lemma PairRing(a: u64, b: u64)
    requires a + b < TWO64
    ensures Absolute([a, b]) == [a, a + b]
    ensures Ring(0, [a, b]) == [Output(0, a), Output(0, a + b)]
  {
    assert [a, b][..1] == [a];
  }

  lemma CommonOfPairs(a: u64, y: u64, z: u64)
    requires y != a && y != z
    ensures Common([a, y], [a, z]) == [a]
  {
    assert [a, y][..1] == [a] && [a][..0] == [];
    assert Common([a], [a, z]) == [a];
  }

  lemma FirstSighting(s: Sighting)
    requires |s.offsets| == 2 && s.chain == 0
    ensures var st := ScanAll([s]);
            && st.spent == {} && st.relativeRings == map[s.kImage := s.offsets]
            && st.outputs == AddToIndex(map[], Ring(s.amount, s.offsets), s.kImage)
  {
    ScanOneMore([], s);
    assert [] + [s] == [s];
  }

  lemma SecondSighting(s0: Sighting, s1: Sighting, o: Output)
    requires Settled(ScanAll([s0]), s1) == {o} && ScanAll([s0]).spent == {} && s1.chain != 0
    ensures ScanAll([s0, s1]).spent == {o}
    ensures ScanAll([s0, s1]).outputs == ScanAll([s0]).outputs
    ensures StoredRing(ScanAll([s0, s1]).relativeRings, s1.kImage) == Remembered(ScanAll([s0]), s1)
    ensures ScanWitness([s0, s1]) == map[o := s1.kImage]
  {
    assert [s0, s1][..1] == [s0];
  }

  lemma ForkedScan(ki: KeyImage, a: u64, b: u64, c: u64)
    requires OneInCommon(a, b, c)
    ensures var st := ScanAll(Forked(ki, a, b, c));
            && st.spent == {Output(0, a)} && StoredRing(st.relativeRings, ki) == [a, c]
            && ki in KeyImagesOf(st.outputs, Output(0, a))
    ensures ScanWitness(Forked(ki, a, b, c)) == map[Output(0, a) := ki]
  {
    hide ScanAll, ScanWitness, Absolute, Common;
    var s0, s1 := Sighting(0, 0, ki, [a, b]), Sighting(1, 0, ki, [a, c]);
    PairRing(a, b);
    PairRing(a, c);
    FirstSighting(s0);
    CommonOfPairs(a, a + b, a + c);
    var st := ScanAll([s0]);
    assert [a, b][1] != [a, c][1];
    assert CommonOf(st, s1) == [a];
    SecondSighting(s0, s1, Output(0, a));
    AddToIndexAt(map[], Ring(0, [a, b]), ki, Output(0, a));
    assert Ring(0, [a, b])[0] == Output(0, a);
  }

  /** Across forks the passes are not sound. The scan settles output a for the key image but
      remembers the ring {a, a + c}; every run of the passes then marks a + c, although in a
      consistent history no key image spends it. */
  lemma ForkedRingIsUnsound(ki: KeyImage, a: u64, b: u64, c: u64, spent: set<Output>)
    requires OneInCommon(a, b, c)
    requires var st := ScanAll(Forked(ki, a, b, c)); st.spent <= spent && ClosedCovered(st, spent)
    ensures Output(0, a + c) in spent
    ensures var spends := map[ki := Output(0, a)];
            Consistent(spends, Forked(ki, a, b, c)) && Output(0, a + c) !in spends.Values
    ensures !Tied(ScanAll(Forked(ki, a, b, c)), ScanWitness(Forked(ki, a, b, c)))
  {
    hide ScanAll, ScanWitness, Absolute;
    ForkedScan(ki, a, b, c);
    PairRing(a, b);
    PairRing(a, c);
    var st := ScanAll(Forked(ki, a, b, c));
    var ring := RingOf(st, 0, ki);
    assert ring == [Output(0, a), Output(0, a + c)];
    assert Covered(st, 0, ki, 1) && OthersIn(ring, 1, spent);
    assert ring[1] !in st.spent;
    assert Output(0, a) in Ring(0, [a, b]) && Output(0, a) in Ring(0, [a, c]);
  }
}
