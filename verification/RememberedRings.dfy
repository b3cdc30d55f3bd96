/** What the first phase remembers and marks, for every list of sightings. */
module RememberedRings {
  import opened CryptoNote
  import opened RingOffsets
  import opened RingScan

  /** Entry p of the first list also occurs in the second. */
  predicate SharedAt(r0: seq<u64>, r1: seq<u64>, p: int) {
    0 <= p < |r0| && r0[p] in r1
  }

  /** Entry p is the only one of the first list that occurs in the second. */
  ghost predicate OnlyShared(r0: seq<u64>, r1: seq<u64>, p: int) {
    SharedAt(r0, r1, p) && forall q :: SharedAt(r0, r1, q) ==> q == p
  }

  ghost predicate SeveralShared(r0: seq<u64>, r1: seq<u64>) {
    exists p, q :: p != q && SharedAt(r0, r1, p) && SharedAt(r0, r1, q)
  }

  lemma {:induction false} CommonEntries(r0: seq<u64>, r1: seq<u64>)
    ensures forall x :: multiset(Common(r0, r1))[x] == if x in r1 then multiset(r0)[x] else 0
  {
    if r0 != [] {
      CommonEntries(r0[..|r0| - 1], r1);
      assert r0 == r0[..|r0| - 1] + [r0[|r0| - 1]];
    }
  }

  /** The list c has one entry for every shared position, in order. */
  ghost predicate PicksShared(r0: seq<u64>, r1: seq<u64>, c: seq<u64>, ps: seq<nat>) {
    && |ps| == |c|
    && (forall i :: 0 <= i < |ps| ==> SharedAt(r0, r1, ps[i]) && c[i] == r0[ps[i]])
    && (forall i, j :: 0 <= i < j < |ps| ==> ps[i] < ps[j])
    && (forall p :: SharedAt(r0, r1, p) ==> p in ps)
  }

  lemma PicksOneMore(r0: seq<u64>, x: u64, r1: seq<u64>, c: seq<u64>, ps: seq<nat>)
    requires PicksShared(r0, r1, c, ps)
    ensures if x in r1 then PicksShared(r0 + [x], r1, c + [x], ps + [|r0|]) else PicksShared(r0 + [x], r1, c, ps)
  {
    assert forall p :: 0 <= p < |r0| ==> (r0 + [x])[p] == r0[p];
    assert forall p :: p != |r0| ==> (SharedAt(r0 + [x], r1, p) <==> SharedAt(r0, r1, p));
    assert SharedAt(r0 + [x], r1, |r0|) <==> x in r1;
  }

  lemma {:induction false} CommonPositions(r0: seq<u64>, r1: seq<u64>) returns (ps: seq<nat>)
    ensures PicksShared(r0, r1, Common(r0, r1), ps)
  {
    ps := [];
    if r0 != [] {
      var n := |r0| - 1;
      ps := CommonPositions(r0[..n], r1);
      hide PicksShared;
      assert r0 == r0[..n] + [r0[n]];
      PicksOneMore(r0[..n], r0[n], r1, Common(r0[..n], r1), ps);
      if r0[n] in r1 {
        ps := ps + [n];
      }
    }
  }

  lemma CommonShares(r0: seq<u64>, r1: seq<u64>)
    ensures |Common(r0, r1)| > 1 <==> SeveralShared(r0, r1)
    ensures |Common(r0, r1)| == 1 <==> exists p :: OnlyShared(r0, r1, p)
    ensures forall p :: OnlyShared(r0, r1, p) ==> Common(r0, r1) == [r0[p]]
  {
    var ps := CommonPositions(r0, r1);
    hide Common;
    if |ps| > 1 {
      assert SharedAt(r0, r1, ps[0]) && SharedAt(r0, r1, ps[1]);
    } else if |ps| == 1 {
      assert OnlyShared(r0, r1, ps[0]);
    }
  }

  /** The list remembered after a sighting: the offsets just seen, except that when several entries of
      the ring remembered before are shared, it decodes to the ascending list of the relative offsets
      seen now and those shared entries. */
  ghost predicate RingAfter(rings: map<KeyImage, seq<u64>>, s: Sighting, ring: seq<u64>) {
    if |s.offsets| != 1 && s.kImage in rings && rings[s.kImage] != s.offsets &&
       SeveralShared(Absolute(rings[s.kImage]), Absolute(s.offsets))
    then
      var first, second := Absolute(rings[s.kImage]), Absolute(s.offsets);
      && Ascending(Absolute(ring))
      && forall x ::
           multiset(Absolute(ring))[x] == multiset(s.offsets)[x] + (if x in second then multiset(first)[x] else 0)
    else ring == s.offsets
  }

  lemma RememberedIs(st: ScanState, s: Sighting)
    ensures RingAfter(st.relativeRings, s, Remembered(st, s))
  {
    hide Absolute, Common, Relative;
    if SeenDifferently(st, s) {
      var first, second := Absolute(st.relativeRings[s.kImage]), Absolute(s.offsets);
      CommonShares(first, second);
      CommonEntries(first, second);
      if SeveralShared(first, second) {
        var list := s.offsets + Common(first, second);
        AbsoluteOfRelative(list);
        assert multiset(list) == multiset(s.offsets) + multiset(Common(first, second));
      }
    }
  }

  ghost predicate LastSeen(ss: seq<Sighting>, j: int, ki: KeyImage) {
    SeenAt(ss, j, ki) && forall i :: j < i < |ss| ==> ss[i].kImage != ki
  }

  /** The rings remembered before sighting j. */
  function RingsBefore(ss: seq<Sighting>, j: nat): map<KeyImage, seq<u64>>
    requires j <= |ss|
  {
    ScanAll(ss[..j]).relativeRings
  }

  lemma RingsStep(ss: seq<Sighting>, ki: KeyImage)
    requires ss != []
    ensures var n := |ss| - 1;
            if ki == ss[n].kImage
            then ki in RingsBefore(ss, n + 1) && RingAfter(RingsBefore(ss, n), ss[n], RingsBefore(ss, n + 1)[ki])
            else
              && (ki in RingsBefore(ss, n + 1) <==> ki in RingsBefore(ss, n))
              && (ki in RingsBefore(ss, n) ==> RingsBefore(ss, n + 1)[ki] == RingsBefore(ss, n)[ki])
  {
    hide RingAfter;
    var n := |ss| - 1;
    RememberedIs(ScanAll(ss[..n]), ss[n]);
    assert ss[..n + 1] == ss;
  }

  lemma RingsOfPrefix(ss: seq<Sighting>, n: nat)
    requires n <= |ss|
    ensures forall j :: 0 <= j <= n ==> RingsBefore(ss[..n], j) == RingsBefore(ss, j)
  {
    hide ScanAll;
    forall j | 0 <= j <= n ensures RingsBefore(ss[..n], j) == RingsBefore(ss, j) {
      assert ss[..n][..j] == ss[..j];
    }
  }

  lemma SeenInPrefix(ss: seq<Sighting>, j: int, ki: KeyImage)
    requires ss != []
    ensures SeenAt(ss[..|ss| - 1], j, ki) ==> SeenAt(ss, j, ki)
    ensures SeenAt(ss, j, ki) ==> j == |ss| - 1 || SeenAt(ss[..|ss| - 1], j, ki)
    ensures SeenAt(ss, |ss| - 1, ki) <==> ss[|ss| - 1].kImage == ki
  {
  }

  /** For every list of sightings, exactly the key images seen have a ring. */
  lemma {:induction false} RingsOfSeen(ss: seq<Sighting>, ki: KeyImage)
    ensures ki in RingsBefore(ss, |ss|) <==> exists j :: SeenAt(ss, j, ki)
  {
    if ss == [] {
      assert RingsBefore(ss, 0) == map[];
    } else {
      var n := |ss| - 1;
      RingsOfSeen(ss[..n], ki);
      RingsOfPrefix(ss, n);
      RingsStep(ss, ki);
      hide RingsBefore, RingAfter, SeenAt;
      if j :| SeenAt(ss[..n], j, ki) {
        SeenInPrefix(ss, j, ki);
      }
      if j :| SeenAt(ss, j, ki) {
        SeenInPrefix(ss, j, ki);
      }
      SeenInPrefix(ss, n, ki);
    }
  }

  /** For every list of sightings, the ring of a key image is what its last sighting makes of the rings
      remembered before. */
  lemma {:induction false} RingOfLastSeen(ss: seq<Sighting>, ki: KeyImage, j: nat)
    requires LastSeen(ss, j, ki)
    ensures ki in RingsBefore(ss, |ss|)
    ensures RingAfter(RingsBefore(ss, j), ss[j], RingsBefore(ss, |ss|)[ki])
    decreases |ss|
  {
    hide RingsBefore, RingAfter;
    var n := |ss| - 1;
    RingsStep(ss, ki);
    if j < n {
      assert LastSeen(ss[..n], j, ki);
      RingOfLastSeen(ss[..n], ki, j);
      RingsOfPrefix(ss, n);
      assert ss[..n][j] == ss[j];
    }
  }

  /** Sighting i settles the output: its ring is that output alone, or exactly one entry of the ring
      remembered for its key image, a different one, is shared. */
  ghost predicate SettlesAt(ss: seq<Sighting>, i: int, o: Output) {
    && 0 <= i < |ss| && o.amount == ss[i].amount
    && var s, rings := ss[i], RingsBefore(ss, i);
       if |s.offsets| == 1 then o.index == s.offsets[0]
       else
         && s.kImage in rings && rings[s.kImage] != s.offsets
         && exists p :: OnlyShared(Absolute(rings[s.kImage]), Absolute(s.offsets), p) &&
              o.index == Absolute(rings[s.kImage])[p]
  }

  lemma SettledIff(ss: seq<Sighting>, i: nat, o: Output)
    requires i < |ss|
    ensures o in Settled(ScanAll(ss[..i]), ss[i]) <==> SettlesAt(ss, i, o)
  {
    hide Absolute, Common, ScanAll;
    var st, s := ScanAll(ss[..i]), ss[i];
    if SeenDifferently(st, s) {
      var first, second := Absolute(st.relativeRings[s.kImage]), Absolute(s.offsets);
      CommonShares(first, second);
      if p :| OnlyShared(first, second, p) {
        assert CommonOf(st, s) == [first[p]];
      }
    }
  }

  lemma MarksStep(ss: seq<Sighting>)
    requires ss != []
    ensures var n := |ss| - 1;
            ScanAll(ss).spent == ScanAll(ss[..n]).spent + Settled(ScanAll(ss[..n]), ss[n])
  {
  }

  lemma SettlesInPrefix(ss: seq<Sighting>, i: int, o: Output)
    requires ss != []
    ensures SettlesAt(ss[..|ss| - 1], i, o) ==> SettlesAt(ss, i, o)
    ensures SettlesAt(ss, i, o) ==> i == |ss| - 1 || SettlesAt(ss[..|ss| - 1], i, o)
  {
    RingsOfPrefix(ss, |ss| - 1);
    hide RingsBefore, Absolute;
  }

  /** For every list of sightings, an output is marked if and only if some sighting settles it. */
  lemma {:induction false} MarkedIff(ss: seq<Sighting>, o: Output)
    ensures o in ScanAll(ss).spent <==> exists i :: SettlesAt(ss, i, o)
  {
    if ss == [] {
      assert ScanAll(ss) == EMPTY_SCAN;
    } else {
      hide ScanAll, Settled, SettlesAt;
      var n := |ss| - 1;
      MarkedIff(ss[..n], o);
      MarksStep(ss);
      SettledIff(ss, n, o);
      if i :| SettlesAt(ss[..n], i, o) {
        SettlesInPrefix(ss, i, o);
      }
      if i :| SettlesAt(ss, i, o) {
        SettlesInPrefix(ss, i, o);
      }
    }
  }
}
