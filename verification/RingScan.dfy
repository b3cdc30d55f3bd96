/** First phase of the spent-output deduction: every ring of every input of every chain is read
    once. The phase builds the inverse index of the first chain, remembers one ring per key
    image and marks the outputs that a single ring or an intersection of two rings settles. */
module RingScan {
  import opened CryptoNote
  import opened RingOffsets

  /** A key input met by the scan: the chain it came from and what the input says. */
  datatype Sighting = Sighting(chain: nat, amount: u64, kImage: KeyImage, offsets: seq<u64>)

  datatype ScanState = ScanState(
    relativeRings: map<KeyImage, seq<u64>>,
    outputs: map<Output, set<KeyImage>>,
    spent: set<Output>,
    newlySpent: set<Output>)

  const EMPTY_SCAN := ScanState(map[], map[], {}, {})

  /** The ring an offset list denotes over one amount, position by position. */
  function Ring(amount: u64, offsets: seq<u64>): (r: seq<Output>)
    ensures |r| == |offsets|
  {
    var abs := Absolute(offsets);
    seq(|abs|, i requires 0 <= i < |abs| => Output(amount, abs[i]))
  }

  /** Reading an unordered map, where an absent key stands for the empty value. */
  function KeyImagesOf(outputs: map<Output, set<KeyImage>>, o: Output): set<KeyImage> {
    if o in outputs then outputs[o] else {}
  }

  function StoredRing(rings: map<KeyImage, seq<u64>>, ki: KeyImage): seq<u64> {
    if ki in rings then rings[ki] else []
  }

  /** The entries of r0 that also occur in r1, in the order of r0. */
  function Common(r0: seq<u64>, r1: seq<u64>): (c: seq<u64>)
    ensures forall x :: x in c <==> x in r0 && x in r1
  {
    if r0 == [] then []
    else
      assert r0 == r0[..|r0| - 1] + [r0[|r0| - 1]];
      Common(r0[..|r0| - 1], r1) + (if r0[|r0| - 1] in r1 then [r0[|r0| - 1]] else [])
  }

  function AddToIndex(outputs: map<Output, set<KeyImage>>, ring: seq<Output>, ki: KeyImage)
    : map<Output, set<KeyImage>>
  {
    if ring == [] then outputs
    else
      var m, last := AddToIndex(outputs, ring[..|ring| - 1], ki), ring[|ring| - 1];
      m[last := KeyImagesOf(m, last) + {ki}]
  }

  /** Indexing a ring files the key image under exactly the members of the ring. */
  lemma {:induction false} AddToIndexAt(outputs: map<Output, set<KeyImage>>, ring: seq<Output>, ki: KeyImage, o: Output)
    ensures KeyImagesOf(AddToIndex(outputs, ring, ki), o) ==
            KeyImagesOf(outputs, o) + (if o in ring then {ki} else {})
  {
    if ring != [] {
      AddToIndexAt(outputs, ring[..|ring| - 1], ki, o);
      assert ring == ring[..|ring| - 1] + [ring[|ring| - 1]];
    }
  }

  /** The two rings of a key image that has been seen before with different offsets. */
  function CommonOf(st: ScanState, s: Sighting): seq<u64> {
    Common(Absolute(StoredRing(st.relativeRings, s.kImage)), Absolute(s.offsets))
  }

  predicate SeenDifferently(st: ScanState, s: Sighting) {
    && |s.offsets| != 1
    && s.kImage in st.relativeRings
    && st.relativeRings[s.kImage] != s.offsets
  }

  /** The output that one sighting settles, if any. */
  function Settled(st: ScanState, s: Sighting): (r: set<Output>) {
    if |s.offsets| == 1 then {Output(s.amount, s.offsets[0])}
    else if SeenDifferently(st, s) && |CommonOf(st, s)| == 1 then {Output(s.amount, CommonOf(st, s)[0])}
    else {}
  }

  /** The ring remembered after one sighting. When several members are common the common
      absolute indices are appended to the relative offsets before the list is encoded. */
  function Remembered(st: ScanState, s: Sighting): seq<u64> {
    if SeenDifferently(st, s) && |CommonOf(st, s)| > 1
    then Relative(s.offsets + CommonOf(st, s))
    else s.offsets
  }

  function ScanStep(st: ScanState, s: Sighting): ScanState {
    ScanState(
      st.relativeRings[s.kImage := Remembered(st, s)],
      if s.chain == 0 then AddToIndex(st.outputs, Ring(s.amount, s.offsets), s.kImage) else st.outputs,
      st.spent + Settled(st, s),
      st.newlySpent + Settled(st, s))
  }

  function ScanAll(ss: seq<Sighting>): ScanState {
    if ss == [] then EMPTY_SCAN else ScanStep(ScanAll(ss[..|ss| - 1]), ss[|ss| - 1])
  }

  /** Records a key image for the outputs that have none; a sighting settles at most one. */
  ghost function KeepFirst(w: map<Output, KeyImage>, settled: set<Output>, ki: KeyImage): (r: map<Output, KeyImage>)
    ensures settled == {} ==> r == w
    ensures forall o :: settled == {o} ==> r == if o in w then w else w[o := ki]
  {
    if settled == {} then w
    else
      var o :| o in settled;
      if o in w then w else w[o := ki]
  }

  /** The key image that settled each marked output; the first one is kept. */
  ghost function ScanWitness(ss: seq<Sighting>): (w: map<Output, KeyImage>)
    ensures w.Keys == ScanAll(ss).spent
  {
    if ss == [] then map[]
    else
      var init, s := ss[..|ss| - 1], ss[|ss| - 1];
      KeepFirst(ScanWitness(init), Settled(ScanAll(init), s), s.kImage)
  }

  // ---- The sightings of a list of chains, in reading order ----

  predicate Reads(rctOnly: bool, input: TxIn) {
    input.ToKey? && !(rctOnly && input.amount != 0)
  }

  function InputSightings(n: nat, rctOnly: bool, vin: seq<TxIn>): seq<Sighting> {
    if vin == [] then []
    else
      var input := vin[|vin| - 1];
      InputSightings(n, rctOnly, vin[..|vin| - 1]) +
      (if Reads(rctOnly, input) then [Sighting(n, input.amount, input.kImage, input.keyOffsets)] else [])
  }

  function ChainSightings(n: nat, rctOnly: bool, txs: seq<seq<TxIn>>): seq<Sighting> {
    if txs == [] then []
    else ChainSightings(n, rctOnly, txs[..|txs| - 1]) + InputSightings(n, rctOnly, txs[|txs| - 1])
  }

  function Sightings(rctOnly: bool, chains: seq<seq<seq<TxIn>>>): seq<Sighting> {
    if chains == [] then []
    else Sightings(rctOnly, chains[..|chains| - 1]) + ChainSightings(|chains| - 1, rctOnly, chains[|chains| - 1])
  }

  // ---- The imperative scan ----

  method IndexRing(outputs: map<Output, set<KeyImage>>, s: Sighting, absolute: seq<u64>)
    returns (r: map<Output, set<KeyImage>>)
    requires absolute == Absolute(s.offsets)
    ensures r == AddToIndex(outputs, Ring(s.amount, s.offsets), s.kImage)
  {
    hide Absolute;
    r := outputs;
    ghost var ring := Ring(s.amount, s.offsets);
    for k := 0 to |absolute|
      invariant r == AddToIndex(outputs, ring[..k], s.kImage)
    {
      var o := Output(s.amount, absolute[k]);
      assert ring[..k + 1][..k] == ring[..k];
      r := r[o := KeyImagesOf(r, o) + {s.kImage}];
    }
    assert ring[..|absolute|] == ring;
  }

  /** The treatment of a key image that was seen before with a different ring. */
  method CompareRings(stored: seq<u64>, s: Sighting) returns (settled: set<Output>, newRing: seq<u64>)
    ensures var common := Common(Absolute(stored), Absolute(s.offsets));
            && settled == (if |common| == 1 then {Output(s.amount, common[0])} else {})
            && newRing == (if |common| > 1 then Relative(s.offsets + common) else s.offsets)
  {
    settled, newRing := {}, s.offsets;
    var r0 := RelativeOutputOffsetsToAbsolute(stored);
    var r1 := RelativeOutputOffsetsToAbsolute(s.offsets);
    var common := CommonMembers(r0, r1);
    if |common| == 1 {
      settled := {Output(s.amount, common[0])};
    } else if |common| > 1 {
      var kept := CommonMembers(r0, common);
      CommonTwice(r0, r1);
      newRing := newRing + kept;
      newRing := AbsoluteOutputOffsetsToRelative(newRing);
    }
  }

  /** The body of the loop over the inputs of one transaction. */
  method ScanInput(st: ScanState, s: Sighting) returns (r: ScanState)
    ensures r == ScanStep(st, s)
  {
    var relativeRings, outputs, spent, newlySpent := st.relativeRings, st.outputs, st.spent, st.newlySpent;
    var absolute := RelativeOutputOffsetsToAbsolute(s.offsets);
    if s.chain == 0 {
      outputs := IndexRing(outputs, s, absolute);
    }
    var newRing := s.offsets;
    if |s.offsets| == 1 {
      newlySpent := newlySpent + {Output(s.amount, s.offsets[0])};
      spent := spent + {Output(s.amount, s.offsets[0])};
    } else if s.kImage in relativeRings {
      if relativeRings[s.kImage] != s.offsets {
        var settled;
        settled, newRing := CompareRings(relativeRings[s.kImage], s);
        newlySpent := newlySpent + settled;
        spent := spent + settled;
      }
    }
    relativeRings := relativeRings[s.kImage := newRing];
    r := ScanState(relativeRings, outputs, spent, newlySpent);
  }

  method CommonMembers(r0: seq<u64>, r1: seq<u64>) returns (common: seq<u64>)
    ensures common == Common(r0, r1)
  {
    common := [];
    for k := 0 to |r0|
      invariant common == Common(r0[..k], r1)
    {
      assert r0[..k + 1][..k] == r0[..k];
      if r0[k] in r1 {
        common := common + [r0[k]];
      }
    }
    assert r0[..|r0|] == r0;
  }

  /** Filtering by the common members again selects the same list. */
  lemma {:induction false} CommonTwice(r0: seq<u64>, r1: seq<u64>)
    ensures Common(r0, Common(r0, r1)) == Common(r0, r1)
  {
    CommonBy(r0, r1, Common(r0, r1));
  }

  lemma {:induction false} CommonBy(r0: seq<u64>, r1: seq<u64>, r2: seq<u64>)
    requires forall x :: x in r0 ==> (x in r1 <==> x in r2)
    ensures Common(r0, r1) == Common(r0, r2)
  {
    if r0 != [] {
      CommonBy(r0[..|r0| - 1], r1, r2);
    }
  }

  lemma ScanOneMore(ss: seq<Sighting>, s: Sighting)
    ensures ScanAll(ss + [s]) == ScanStep(ScanAll(ss), s)
  {
    assert (ss + [s])[..|ss|] == ss;
  }

  lemma Assoc<T>(a: seq<T>, b: seq<T>, c: seq<T>)
    ensures a + (b + c) == (a + b) + c
  {
  }

  /** The loop over the inputs of one transaction. */
  method ScanTransaction(st: ScanState, n: nat, rctOnly: bool, vin: seq<TxIn>, ghost seen: seq<Sighting>)
    returns (r: ScanState)
    requires st == ScanAll(seen)
    ensures r == ScanAll(seen + InputSightings(n, rctOnly, vin))
  {
    r := st;
    assert seen + [] == seen;
    for k := 0 to |vin|
      invariant r == ScanAll(seen + InputSightings(n, rctOnly, vin[..k]))
    {
      assert vin[..k + 1][..k] == vin[..k];
      ghost var done := InputSightings(n, rctOnly, vin[..k]);
      if Reads(rctOnly, vin[k]) {
        var s := Sighting(n, vin[k].amount, vin[k].kImage, vin[k].keyOffsets);
        r := ScanInput(r, s);
        ScanOneMore(seen + done, s);
        Assoc(seen, done, [s]);
      } else {
        assert InputSightings(n, rctOnly, vin[..k + 1]) == done;
      }
    }
    assert vin[..|vin|] == vin;
  }

  method ScanChain(st: ScanState, n: nat, rctOnly: bool, txs: seq<seq<TxIn>>, ghost seen: seq<Sighting>)
    returns (r: ScanState)
    requires st == ScanAll(seen)
    ensures r == ScanAll(seen + ChainSightings(n, rctOnly, txs))
  {
    r := st;
    assert seen + [] == seen;
    for t := 0 to |txs|
      invariant r == ScanAll(seen + ChainSightings(n, rctOnly, txs[..t]))
    {
      assert txs[..t + 1][..t] == txs[..t];
      ghost var done := ChainSightings(n, rctOnly, txs[..t]);
      ghost var more := InputSightings(n, rctOnly, txs[t]);
      r := ScanTransaction(r, n, rctOnly, txs[t], seen + done);
      assert ChainSightings(n, rctOnly, txs[..t + 1]) == done + more;
      Assoc(seen, done, more);
    }
    assert txs[..|txs|] == txs;
  }

  /** The whole first phase, over the main chain and the chains of any forks. */
  method Scan(chains: seq<seq<seq<TxIn>>>, rctOnly: bool) returns (st: ScanState)
    ensures st == ScanAll(Sightings(rctOnly, chains))
  {
    st := EMPTY_SCAN;
    for n := 0 to |chains|
      invariant st == ScanAll(Sightings(rctOnly, chains[..n]))
    {
      assert chains[..n + 1][..n] == chains[..n];
      st := ScanChain(st, n, rctOnly, chains[n], Sightings(rctOnly, chains[..n]));
    }
    assert chains[..|chains|] == chains;
  }

  // ---- What the scan establishes ----

  /** The inverse index is exact for every list of chains: it holds a key image under an output
      exactly when a ring of the first chain that carries the key image contains the output. */
  lemma {:induction false} IndexIsExact(ss: seq<Sighting>, o: Output, ki: KeyImage)
    ensures ki in KeyImagesOf(ScanAll(ss).outputs, o) <==>
            exists i :: 0 <= i < |ss| && ss[i].chain == 0 && ss[i].kImage == ki &&
              o in Ring(ss[i].amount, ss[i].offsets)
  {
    if ss != [] {
      var init, s := ss[..|ss| - 1], ss[|ss| - 1];
      IndexIsExact(init, o, ki);
      AddToIndexAt(ScanAll(init).outputs, Ring(s.amount, s.offsets), s.kImage, o);
      assert forall i :: 0 <= i < |init| ==> init[i] == ss[i];
      if exists i :: 0 <= i < |init| && init[i].chain == 0 && init[i].kImage == ki &&
           o in Ring(init[i].amount, init[i].offsets)
      {
        var i :| 0 <= i < |init| && init[i].chain == 0 && init[i].kImage == ki &&
          o in Ring(init[i].amount, init[i].offsets);
        assert ss[i] == init[i];
      }
    }
  }

  /** Every marked output is queued for the second phase. */
  lemma {:induction false} AllMarksQueued(ss: seq<Sighting>)
    ensures ScanAll(ss).newlySpent == ScanAll(ss).spent
  {
    if ss != [] {
      AllMarksQueued(ss[..|ss| - 1]);
    }
  }

  /** A spending history that fits the sightings: every key image spends one output, that output
      is in each ring seen with the key image, and no output is spent by two key images. */
  ghost predicate Consistent(spends: map<KeyImage, Output>, ss: seq<Sighting>) {
    && (forall i :: 0 <= i < |ss| ==>
          ss[i].kImage in spends && spends[ss[i].kImage] in Ring(ss[i].amount, ss[i].offsets))
    && Injective(spends)
  }

  ghost predicate Injective<A, B>(m: map<A, B>) {
    forall a, b :: a in m && b in m && m[a] == m[b] ==> a == b
  }

  /** Every output in the set is the one its recorded key image spends. */
  ghost predicate Sound(spends: map<KeyImage, Output>, spender: map<Output, KeyImage>) {
    forall o :: o in spender ==> spender[o] in spends && spends[spender[o]] == o
  }

  /** The remembered rings and the index do not contradict a history. */
  ghost predicate Fits(spends: map<KeyImage, Output>, st: ScanState) {
    && (forall ki :: ki in st.relativeRings ==>
          ki in spends && spends[ki].index in Absolute(st.relativeRings[ki]))
    && (forall o, ki :: o in st.outputs && ki in st.outputs[o] ==>
          ki in st.relativeRings && ki in spends && spends[ki].amount == o.amount)
  }

  lemma InRing(o: Output, amount: u64, offsets: seq<u64>)
    ensures o in Ring(amount, offsets) <==> o.amount == amount && o.index in Absolute(offsets)
  {
    var r, abs := Ring(amount, offsets), Absolute(offsets);
    if o in r {
      var i :| 0 <= i < |r| && r[i] == o;
      assert abs[i] == o.index;
    }
    if o.amount == amount && o.index in abs {
      var i :| 0 <= i < |abs| && abs[i] == o.index;
      assert r[i] == o;
    }
  }

  /** Whatever list is remembered for a key image still contains the real spend. */
  lemma RememberedHoldsSpend(st: ScanState, s: Sighting, x: u64)
    requires s.kImage in st.relativeRings ==> x in Absolute(st.relativeRings[s.kImage])
    requires x in Absolute(s.offsets)
    ensures x in Absolute(Remembered(st, s))
  {
    if SeenDifferently(st, s) && |CommonOf(st, s)| > 1 {
      var list := s.offsets + CommonOf(st, s);
      AbsoluteOfRelative(list);
      assert x in list;
      assert x in multiset(list);
      assert x in multiset(Sort(list));
    }
  }

  /** In a history that fits the state, a sighting settles nothing but the real spend. */
  lemma SettledIsSpend(st: ScanState, s: Sighting, spends: map<KeyImage, Output>)
    requires Fits(spends, st)
    requires s.kImage in spends && spends[s.kImage] in Ring(s.amount, s.offsets)
    ensures forall x :: x in Settled(st, s) ==> x == spends[s.kImage]
  {
    var o := spends[s.kImage];
    InRing(o, s.amount, s.offsets);
    if |s.offsets| != 1 && SeenDifferently(st, s) {
      assert o.index in CommonOf(st, s);
    }
  }

  lemma FitsAfterStep(st: ScanState, s: Sighting, spends: map<KeyImage, Output>)
    requires Fits(spends, st)
    requires s.kImage in spends && spends[s.kImage] in Ring(s.amount, s.offsets)
    ensures Fits(spends, ScanStep(st, s))
  {
    var o, r := spends[s.kImage], ScanStep(st, s);
    InRing(o, s.amount, s.offsets);
    RememberedHoldsSpend(st, s, o.index);
    forall x, ki | x in r.outputs && ki in r.outputs[x]
      ensures ki in r.relativeRings && ki in spends && spends[ki].amount == x.amount
    {
      AddToIndexAt(st.outputs, Ring(s.amount, s.offsets), s.kImage, x);
      if x in st.outputs && ki in st.outputs[x] {
      } else {
        InRing(x, s.amount, s.offsets);
      }
    }
  }

  /** Scan soundness for any number of chains, rings and sightings: in every consistent history
      each marked output is spent by the key image recorded for it. */
  lemma {:induction false} ScanIsSound(ss: seq<Sighting>, spends: map<KeyImage, Output>)
    requires Consistent(spends, ss)
    ensures Sound(spends, ScanWitness(ss))
    ensures Fits(spends, ScanAll(ss))
  {
    if ss != [] {
      var init, s := ss[..|ss| - 1], ss[|ss| - 1];
      assert forall i :: 0 <= i < |init| ==> init[i] == ss[i];
      ScanIsSound(init, spends);
      SettledIsSpend(ScanAll(init), s, spends);
      FitsAfterStep(ScanAll(init), s, spends);
    }
  }

  /** Each key image is always seen with the same ring: the case of one chain without double
      spends, and of forks that reuse no key image in a new ring. */
  ghost predicate OneRing(ss: seq<Sighting>) {
    forall i, j :: 0 <= i < |ss| && 0 <= j < |ss| && ss[i].kImage == ss[j].kImage ==>
      ss[i].amount == ss[j].amount && ss[i].offsets == ss[j].offsets
  }

  ghost predicate SeenAt(ss: seq<Sighting>, i: int, ki: KeyImage) {
    0 <= i < |ss| && ss[i].kImage == ki
  }

  /** Sighting i is a ring of size one over the output o, carrying the key image ki. */
  ghost predicate LoneRingAt(ss: seq<Sighting>, i: int, ki: KeyImage, o: Output) {
    SeenAt(ss, i, ki) && Ring(ss[i].amount, ss[i].offsets) == [o]
  }

  lemma OneRingPrefix(ss: seq<Sighting>)
    requires OneRing(ss) && ss != []
    ensures OneRing(ss[..|ss| - 1])
    ensures forall i, ki :: SeenAt(ss, i, ki) && i < |ss| - 1 <==> SeenAt(ss[..|ss| - 1], i, ki)
    ensures forall i, ki, o :: LoneRingAt(ss, i, ki, o) && i < |ss| - 1 <==> LoneRingAt(ss[..|ss| - 1], i, ki, o)
  {
    assert forall i :: 0 <= i < |ss| - 1 ==> ss[..|ss| - 1][i] == ss[i];
  }

  /** With one ring per key image the remembered ring is the ring seen. */
  lemma {:induction false} OneRingRemembered(ss: seq<Sighting>, ki: KeyImage)
    requires OneRing(ss)
    ensures ki in ScanAll(ss).relativeRings <==> exists i :: SeenAt(ss, i, ki)
    ensures forall i :: SeenAt(ss, i, ki) ==> StoredRing(ScanAll(ss).relativeRings, ki) == ss[i].offsets
  {
    if ss != [] {
      var init, s := ss[..|ss| - 1], ss[|ss| - 1];
      OneRingPrefix(ss);
      OneRingRemembered(init, ki);
      if s.kImage == ki {
        assert SeenAt(ss, |init|, ki);
        assert init + [s] == ss;
        NothingSettledTwice(init, s);
      } else if i: int :| SeenAt(init, i, ki) {
        assert SeenAt(ss, i, ki);
      }
    }
  }

  /** Seeing the same ring again changes nothing, and only a ring of size one settles an output. */
  lemma NothingSettledTwice(ss: seq<Sighting>, s: Sighting)
    requires OneRing(ss + [s])
    requires s.kImage in ScanAll(ss).relativeRings ==>
      exists i :: SeenAt(ss, i, s.kImage) && StoredRing(ScanAll(ss).relativeRings, s.kImage) == ss[i].offsets
    ensures Remembered(ScanAll(ss), s) == s.offsets
    ensures |s.offsets| != 1 ==> Settled(ScanAll(ss), s) == {}
  {
    if s.kImage in ScanAll(ss).relativeRings {
      var i :| SeenAt(ss, i, s.kImage) && StoredRing(ScanAll(ss).relativeRings, s.kImage) == ss[i].offsets;
      assert (ss + [s])[i] == ss[i] && (ss + [s])[|ss|] == s;
    }
  }

  lemma WitnessStep(ss: seq<Sighting>, s: Sighting, o: Output)
    ensures o in ScanAll(ss).spent ==> ScanWitness(ss + [s])[o] == ScanWitness(ss)[o]
    ensures o !in ScanAll(ss).spent && o in ScanAll(ss + [s]).spent ==>
            o in Settled(ScanAll(ss), s) && ScanWitness(ss + [s])[o] == s.kImage
  {
    hide SeenDifferently, CommonOf, Remembered, AddToIndex, Ring;
    assert (ss + [s])[..|ss|] == ss;
    ScanOneMore(ss, s);
  }

  /** With one ring per key image a sighting marks an output exactly when its ring is that output alone. */
  lemma OneRingStep(ss: seq<Sighting>, s: Sighting, o: Output)
    requires OneRing(ss + [s])
    ensures o in Settled(ScanAll(ss), s) <==> Ring(s.amount, s.offsets) == [o]
  {
    assert (ss + [s])[..|ss|] == ss;
    OneRingPrefix(ss + [s]);
    OneRingRemembered(ss, s.kImage);
    hide ScanAll, Ring, Remembered, CommonOf;
    NothingSettledTwice(ss, s);
    if |s.offsets| == 1 {
      LoneRing(s.amount, s.offsets);
      assert [Output(s.amount, s.offsets[0])] == [o] ==> [Output(s.amount, s.offsets[0])][0] == o;
    }
  }

  /** With one ring per key image the marks are exactly the members of the rings of size one,
      and each is witnessed by the key image of such a ring. */
  lemma {:induction false} OneRingMarks(ss: seq<Sighting>, o: Output)
    requires OneRing(ss)
    ensures o in ScanAll(ss).spent <==> exists i, ki :: LoneRingAt(ss, i, ki, o)
    ensures o in ScanAll(ss).spent ==> exists i :: LoneRingAt(ss, i, ScanWitness(ss)[o], o)
  {
    if ss != [] {
      var init, s := ss[..|ss| - 1], ss[|ss| - 1];
      assert init + [s] == ss;
      OneRingPrefix(ss);
      OneRingMarks(init, o);
      OneRingStep(init, s, o);
      WitnessStep(init, s, o);
      hide OneRing, ScanWitness, Settled, Ring, Remembered, AddToIndex;
      if o in ScanAll(init).spent {
        var i :| LoneRingAt(init, i, ScanWitness(init)[o], o);
        assert LoneRingAt(ss, i, ScanWitness(ss)[o], o);
      } else if o in Settled(ScanAll(init), s) {
        assert LoneRingAt(ss, |init|, s.kImage, o);
      }
    }
  }

  lemma LoneRing(amount: u64, offsets: seq<u64>)
    requires |offsets| == 1
    ensures Ring(amount, offsets) == [Output(amount, offsets[0])]
  {
  }
}
