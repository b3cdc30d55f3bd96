/** Second phase of the spent-output deduction: a worklist marks the last open member of every
    ring whose other members are known to be spent, until nothing is left to examine. */
module SpentDeduction {
  import opened CryptoNote
  import opened RingOffsets
  import opened RingScan

  function RingOf(st: ScanState, amount: u64, ki: KeyImage): seq<Output> {
    Ring(amount, StoredRing(st.relativeRings, ki))
  }

  /** All positions of the ring other than p hold members of the set. */
  ghost predicate OthersIn(ring: seq<Output>, p: int, known: set<Output>) {
    0 <= p < |ring| && forall q :: 0 <= q < |ring| && q != p ==> ring[q] in known
  }

  ghost predicate AllIn(ring: seq<Output>, known: set<Output>) {
    forall q :: 0 <= q < |ring| ==> ring[q] in known
  }

  function Open(ring: seq<Output>, known: set<Output>): set<int> {
    set p | 0 <= p < |ring| && ring[p] !in known
  }

  /** The index lists the key image under some output of this amount. */
  ghost predicate Indexed(st: ScanState, amount: u64, ki: KeyImage) {
    exists o :: o in st.outputs && ki in st.outputs[o] && o.amount == amount
  }

  /** The set respects every inference the remembered rings allow. */
  ghost predicate Closed(st: ScanState, known: set<Output>) {
    forall a, ki, p :: Indexed(st, a, ki) && OthersIn(RingOf(st, a, ki), p, known) ==> RingOf(st, a, ki)[p] in known
  }

  /** The worklist is certain to reach this inference: each of its premises leads to the ring. */
  ghost predicate Covered(st: ScanState, amount: u64, ki: KeyImage, p: int) {
    var ring := RingOf(st, amount, ki);
    |ring| > 1 && forall q :: 0 <= q < |ring| && q != p ==> ki in KeyImagesOf(st.outputs, ring[q])
  }

  ghost predicate ClosedCovered(st: ScanState, known: set<Output>) {
    forall a, ki, p :: Covered(st, a, ki, p) && OthersIn(RingOf(st, a, ki), p, known) ==> RingOf(st, a, ki)[p] in known
  }

  ghost predicate Awaits(ring: seq<Output>, p: int, ki: KeyImage, queue: set<Output>, od: Output, todo: set<KeyImage>) {
    exists q :: 0 <= q < |ring| && q != p && (ring[q] in queue || (ring[q] == od && ki in todo))
  }

  /** Worklist invariant: an inference that can be drawn but has not been drawn has a premise
      that is still queued, or that is the output in hand with the ring still to be examined. */
  ghost predicate Pending(st: ScanState, spent: set<Output>, queue: set<Output>, od: Output, todo: set<KeyImage>) {
    forall a, ki, p ::
      Covered(st, a, ki, p) && OthersIn(RingOf(st, a, ki), p, spent) && RingOf(st, a, ki)[p] !in spent ==>
      Awaits(RingOf(st, a, ki), p, ki, queue, od, todo)
  }

  /** Nothing is marked beyond what every closed set containing the scan's marks must contain. */
  ghost predicate Forced(st: ScanState, spent: set<Output>) {
    forall known :: st.spent <= known && Closed(st, known) ==> spent <= known
  }

  // ---- Spenders ----

  /** A key image that settled an output has no open member left in its remembered ring. */
  ghost predicate Tied(st: ScanState, spender: map<Output, KeyImage>) {
    forall o :: o in spender ==> AllIn(RingOf(st, o.amount, spender[o]), spender.Keys)
  }

  /** A tight matching of the marked outputs with key images. */
  ghost predicate Tight(st: ScanState, spender: map<Output, KeyImage>) {
    && Tied(st, spender)
    && Injective(spender)
    && (forall o :: o in spender ==> o in RingOf(st, o.amount, spender[o]))
    && (forall o, a :: o in spender && Indexed(st, a, spender[o]) ==> a == o.amount)
  }

  ghost predicate OneAmount(st: ScanState) {
    forall a, b, ki :: Indexed(st, a, ki) && Indexed(st, b, ki) ==> a == b
  }

  /** Soundness carries over from one assignment of spenders to another. */
  ghost predicate SoundAfter(st: ScanState, before: map<Output, KeyImage>, after: map<Output, KeyImage>) {
    forall spends: map<KeyImage, Output> :: Fits(spends, st) && Injective(spends) && Sound(spends, before) ==>
      Sound(spends, after)
  }

  /** Exactly when a firing ring marks the real spend: in a history that fits and agrees with all
      spenders so far, the one open member of a ring is what its key image spends if and only if
      that key image has not already settled some output. */
  lemma FiringIsExactIff(st: ScanState, spender: map<Output, KeyImage>, spends: map<KeyImage, Output>,
                         amount: u64, ki: KeyImage, p: int)
    requires Fits(spends, st) && Injective(spends) && Sound(spends, spender)
    requires Indexed(st, amount, ki)
    requires OthersIn(RingOf(st, amount, ki), p, spender.Keys) && RingOf(st, amount, ki)[p] !in spender
    ensures ki in spends
    ensures RingOf(st, amount, ki)[p] == spends[ki] <==> ki !in spender.Values
  {
    var ring := RingOf(st, amount, ki);
    InRing(spends[ki], amount, StoredRing(st.relativeRings, ki));
    var q :| 0 <= q < |ring| && ring[q] == spends[ki];
    if q != p {
      assert spends[spender[ring[q]]] == spends[ki];
      assert ki in spender.Values;
    }
  }

  /** A ring with an open member is not the ring of a key image that has settled an output. */
  lemma OpenRingIsNoSpender(st: ScanState, spender: map<Output, KeyImage>, spends: map<KeyImage, Output>,
                            amount: u64, ki: KeyImage, p: int)
    requires Fits(spends, st) && Sound(spends, spender) && Tied(st, spender)
    requires Indexed(st, amount, ki)
    requires 0 <= p < |RingOf(st, amount, ki)| && RingOf(st, amount, ki)[p] !in spender
    ensures ki !in spender.Values
  {
  }

  // ---- What every step of the worklist keeps ----

  ghost predicate Inv(st: ScanState, before: map<Output, KeyImage>, spent: set<Output>,
                      spender: map<Output, KeyImage>)
  {
    && st.spent <= spent
    && spent <= Universe(st)
    && spender.Keys == spent
    && Forced(st, spent)
    && (Tied(st, before) ==> Tied(st, spender) && SoundAfter(st, before, spender))
    && (Injective(spender) ==> SoundAfter(st, before, spender))
    && (OneAmount(st) && Tight(st, before) ==> Tight(st, spender))
  }

  /** Every output that can ever be marked. */
  ghost function Universe(st: ScanState): set<Output> {
    st.spent + set o, ki, i | o in st.outputs && ki in st.outputs[o] && 0 <= i < |RingOf(st, o.amount, ki)| ::
      RingOf(st, o.amount, ki)[i]
  }

  lemma FireKeepsInv(st: ScanState, before: map<Output, KeyImage>, spent: set<Output>, spender: map<Output, KeyImage>,
                     od: Output, ki: KeyImage, p: int)
    requires Inv(st, before, spent, spender)
    requires ki in KeyImagesOf(st.outputs, od)
    requires OthersIn(RingOf(st, od.amount, ki), p, spent) && RingOf(st, od.amount, ki)[p] !in spent
    ensures var h := RingOf(st, od.amount, ki)[p]; Inv(st, before, spent + {h}, spender[h := ki])
  {
    var ring := RingOf(st, od.amount, ki);
    var h := ring[p];
    var next := spender[h := ki];
    assert Indexed(st, od.amount, ki);
    assert h in Universe(st);
    assert h.amount == od.amount;
    assert AllIn(ring, next.Keys);
    FireKeepsForced(st, spent, od.amount, ki, p);
    if Tied(st, before) {
      TiedAfterFire(st, spender, h, ki);
      FireKeepsSound(st, before, spender, od.amount, ki, p);
    }
    if Injective(next) {
      InjectiveBeforeFire(spender, h, ki);
      FreshFireKeepsSound(st, before, spender, od.amount, ki, p);
    }
    if OneAmount(st) && Tight(st, before) {
      TightAfterFire(st, spender, h, ki);
    }
  }

  lemma InjectiveBeforeFire(spender: map<Output, KeyImage>, h: Output, ki: KeyImage)
    requires h !in spender && Injective(spender[h := ki])
    ensures Injective(spender) && ki !in spender.Values
  {
    var next := spender[h := ki];
    assert forall o :: o in spender ==> o in next && next[o] == spender[o];
    assert h in next && next[h] == ki;
  }

  lemma FreshFireKeepsSound(st: ScanState, before: map<Output, KeyImage>, spender: map<Output, KeyImage>,
                            amount: u64, ki: KeyImage, p: int)
    requires SoundAfter(st, before, spender) && Indexed(st, amount, ki) && ki !in spender.Values
    requires OthersIn(RingOf(st, amount, ki), p, spender.Keys) && RingOf(st, amount, ki)[p] !in spender
    ensures SoundAfter(st, before, spender[RingOf(st, amount, ki)[p] := ki])
  {
    forall spends: map<KeyImage, Output> | Fits(spends, st) && Injective(spends) && Sound(spends, before)
      ensures Sound(spends, spender[RingOf(st, amount, ki)[p] := ki])
    {
      assert Sound(spends, spender);
      FiringIsExactIff(st, spender, spends, amount, ki, p);
    }
  }

  lemma FireKeepsForced(st: ScanState, spent: set<Output>, amount: u64, ki: KeyImage, p: int)
    requires Forced(st, spent) && Indexed(st, amount, ki)
    requires OthersIn(RingOf(st, amount, ki), p, spent)
    ensures Forced(st, spent + {RingOf(st, amount, ki)[p]})
  {
    forall known | st.spent <= known && Closed(st, known) ensures spent + {RingOf(st, amount, ki)[p]} <= known {
      assert spent <= known;
      assert OthersIn(RingOf(st, amount, ki), p, known);
    }
  }

  lemma TiedAfterFire(st: ScanState, spender: map<Output, KeyImage>, h: Output, ki: KeyImage)
    requires Tied(st, spender) && h !in spender
    requires AllIn(RingOf(st, h.amount, ki), spender[h := ki].Keys)
    ensures Tied(st, spender[h := ki])
  {
    var next := spender[h := ki];
    forall o | o in next ensures AllIn(RingOf(st, o.amount, next[o]), next.Keys) {
      if o != h {
        assert AllIn(RingOf(st, o.amount, spender[o]), spender.Keys);
      }
    }
  }

  lemma FireKeepsSound(st: ScanState, before: map<Output, KeyImage>, spender: map<Output, KeyImage>, amount: u64,
                       ki: KeyImage, p: int)
    requires Tied(st, spender) && SoundAfter(st, before, spender) && Indexed(st, amount, ki)
    requires OthersIn(RingOf(st, amount, ki), p, spender.Keys) && RingOf(st, amount, ki)[p] !in spender
    ensures SoundAfter(st, before, spender[RingOf(st, amount, ki)[p] := ki])
  {
    hide Indexed, Tied;
    forall spends: map<KeyImage, Output> | Fits(spends, st) && Injective(spends) && Sound(spends, before)
      ensures Sound(spends, spender[RingOf(st, amount, ki)[p] := ki])
    {
      assert Sound(spends, spender);
      OpenRingIsNoSpender(st, spender, spends, amount, ki, p);
      FiringIsExactIff(st, spender, spends, amount, ki, p);
    }
  }

  lemma TightAfterFire(st: ScanState, spender: map<Output, KeyImage>, h: Output, ki: KeyImage)
    requires OneAmount(st) && Tight(st, spender) && Indexed(st, h.amount, ki)
    requires h !in spender && h in RingOf(st, h.amount, ki)
    requires AllIn(RingOf(st, h.amount, ki), spender[h := ki].Keys)
    ensures Tight(st, spender[h := ki])
  {
    TiedAfterFire(st, spender, h, ki);
    assert forall o :: o in spender ==> spender[o] != ki;
  }

  lemma DequeueKeepsPending(st: ScanState, spent: set<Output>, queue: set<Output>, od: Output, any: Output)
    requires Pending(st, spent, queue + {od}, any, {})
    ensures Pending(st, spent, queue, od, KeyImagesOf(st.outputs, od))
  {
    var todo := KeyImagesOf(st.outputs, od);
    forall a, ki, p | Covered(st, a, ki, p) && OthersIn(RingOf(st, a, ki), p, spent) && RingOf(st, a, ki)[p] !in spent
      ensures Awaits(RingOf(st, a, ki), p, ki, queue, od, todo)
    {
      var ring := RingOf(st, a, ki);
      assert Awaits(ring, p, ki, queue + {od}, any, {});
      var q :| 0 <= q < |ring| && q != p && ring[q] in queue + {od};
    }
  }

  /** Examining one ring keeps the worklist invariant, provided its inference is drawn if it can be. */
  lemma ExamineKeepsPending(st: ScanState, spent: set<Output>, queue: set<Output>, od: Output, todo: set<KeyImage>,
                            ki: KeyImage, marked: set<Output>)
    requires Pending(st, spent, queue, od, todo + {ki})
    requires forall p :: OthersIn(RingOf(st, od.amount, ki), p, spent) ==>
             RingOf(st, od.amount, ki)[p] in spent + marked
    ensures Pending(st, spent + marked, queue + marked, od, todo)
  {
    forall a, k, p | Covered(st, a, k, p) && OthersIn(RingOf(st, a, k), p, spent + marked) &&
      RingOf(st, a, k)[p] !in spent + marked
      ensures Awaits(RingOf(st, a, k), p, k, queue + marked, od, todo)
    {
      var ring := RingOf(st, a, k);
      if OthersIn(ring, p, spent) {
        assert Awaits(ring, p, k, queue, od, todo + {ki});
        var q :| 0 <= q < |ring| && q != p && (ring[q] in queue || (ring[q] == od && k in todo + {ki}));
        assert ring[q] in queue || k != ki || a != od.amount;
      } else {
        var q :| 0 <= q < |ring| && q != p && ring[q] !in spent;
        assert ring[q] in marked;
      }
    }
  }

  /** One open position is the same as one inference that can be drawn. */
  lemma OneOpenIff(ring: seq<Output>, known: set<Output>)
    ensures |Open(ring, known)| == 1 <==> exists p :: OthersIn(ring, p, known) && ring[p] !in known
  {
    var open := Open(ring, known);
    if |open| == 1 {
      var p :| p in open;
      assert |open - {p}| == 0;
      assert forall q :: 0 <= q < |ring| && q != p && ring[q] !in known ==> q in open - {p};
      assert OthersIn(ring, p, known);
    }
    if p :| OthersIn(ring, p, known) && ring[p] !in known {
      assert open == {p};
    }
  }

  // ---- The imperative worklist ----

  /** The counting loop over one ring. */
  method CountKnown(amount: u64, absolute: seq<u64>, spent: set<Output>, ghost ring: seq<Output>)
    returns (known: nat, lastUnknown: u64)
    requires |ring| == |absolute| && forall i :: 0 <= i < |ring| ==> ring[i] == Output(amount, absolute[i])
    ensures known + |Open(ring, spent)| == |ring|
    ensures known < |ring| ==>
            exists p :: p in Open(ring, spent) && absolute[p] == lastUnknown &&
              forall q :: q in Open(ring, spent) ==> q <= p
  {
    known, lastUnknown := 0, 0;
    ghost var open: set<int> := {};
    for k := 0 to |absolute|
      invariant open == set p | 0 <= p < k && ring[p] !in spent
      invariant known + |open| == k
      invariant known < k ==> exists p :: p in open && absolute[p] == lastUnknown && forall q :: q in open ==> q <= p
    {
      if Output(amount, absolute[k]) in spent {
        known := known + 1;
      } else {
        lastUnknown := absolute[k];
        open := open + {k};
      }
    }
    assert open == Open(ring, spent);
  }

  /** The body of the loop over the key images listed under a dequeued output. */
  method ExamineRing(st: ScanState, od: Output, ki: KeyImage, spent0: set<Output>, newly0: set<Output>,
                     ghost before: map<Output, KeyImage>, ghost spender0: map<Output, KeyImage>)
    returns (spent: set<Output>, newly: set<Output>, ghost spender: map<Output, KeyImage>, ghost marked: set<Output>)
    requires Inv(st, before, spent0, spender0)
    requires ki in KeyImagesOf(st.outputs, od)
    ensures Inv(st, before, spent, spender)
    ensures marked !! spent0 && spent == spent0 + marked && newly == newly0 + marked
    ensures forall p :: OthersIn(RingOf(st, od.amount, ki), p, spent0) ==> RingOf(st, od.amount, ki)[p] in spent
  {
    hide Inv;
    spent, newly, spender, marked := spent0, newly0, spender0, {};
    ghost var ring := RingOf(st, od.amount, ki);
    var absolute := RelativeOutputOffsetsToAbsolute(StoredRing(st.relativeRings, ki));
    var known, lastUnknown := CountKnown(od.amount, absolute, spent, ring);
    OneOpenIff(ring, spent);
    if known == |absolute| - 1 {
      var h := Output(od.amount, lastUnknown);
      ghost var p :| OthersIn(ring, p, spent) && ring[p] !in spent;
      assert Open(ring, spent) == {p};
      FireKeepsInv(st, before, spent, spender, od, ki, p);
      newly := newly + {h};
      spent := spent + {h};
      spender := spender[h := ki];
      marked := {h};
    }
  }

  /** The loop over the key images listed under one dequeued output. */
  method ExamineRings(st: ScanState, od: Output, spent0: set<Output>, newly0: set<Output>, ghost rest: set<Output>,
                      ghost before: map<Output, KeyImage>, ghost spender0: map<Output, KeyImage>)
    returns (spent: set<Output>, newly: set<Output>, ghost spender: map<Output, KeyImage>, ghost marked: set<Output>)
    requires Inv(st, before, spent0, spender0)
    requires Pending(st, spent0, newly0 + rest, od, KeyImagesOf(st.outputs, od))
    ensures Inv(st, before, spent, spender)
    ensures Pending(st, spent, newly + rest, od, {})
    ensures marked !! spent0 && spent == spent0 + marked && newly == newly0 + marked
  {
    hide Inv, Pending;
    spent, newly, spender, marked := spent0, newly0, spender0, {};
    var todo := KeyImagesOf(st.outputs, od);
    while todo != {}
      invariant todo <= KeyImagesOf(st.outputs, od)
      invariant Inv(st, before, spent, spender)
      invariant Pending(st, spent, newly + rest, od, todo)
      invariant marked !! spent0 && spent == spent0 + marked && newly == newly0 + marked
      decreases todo
    {
      var ki :| ki in todo;
      ghost var was, queue, more := spent, newly + rest, {};
      assert (todo - {ki}) + {ki} == todo;
      todo := todo - {ki};
      spent, newly, spender, more := ExamineRing(st, od, ki, spent, newly, before, spender);
      ExamineKeepsPending(st, was, queue, od, todo, ki, more);
      assert newly + rest == queue + more;
      marked := marked + more;
    }
  }

  /** One pass over the outputs that the previous pass marked. */
  method WorkOff(st: ScanState, work: set<Output>, spent0: set<Output>,
                 ghost before: map<Output, KeyImage>, ghost spender0: map<Output, KeyImage>)
    returns (spent: set<Output>, newly: set<Output>, ghost spender: map<Output, KeyImage>)
    requires Inv(st, before, spent0, spender0)
    requires Pending(st, spent0, work, Output(0, 0), {})
    ensures Inv(st, before, spent, spender)
    ensures Pending(st, spent, newly, Output(0, 0), {})
    ensures newly !! spent0 && spent == spent0 + newly
  {
    hide Inv, Pending;
    spent, newly, spender := spent0, {}, spender0;
    var rest := work;
    assert newly + rest == work;
    while rest != {}
      invariant Inv(st, before, spent, spender)
      invariant Pending(st, spent, newly + rest, Output(0, 0), {})
      invariant newly !! spent0 && spent == spent0 + newly
      decreases rest
    {
      var od :| od in rest;
      ghost var marked;
      assert newly + rest == newly + (rest - {od}) + {od};
      rest := rest - {od};
      DequeueKeepsPending(st, spent, newly + rest, od, Output(0, 0));
      spent, newly, spender, marked := ExamineRings(st, od, spent, newly, rest, before, spender);
      NothingInHand(st, spent, newly + rest, od);
    }
    assert newly + rest == newly;
  }

  lemma NothingInHand(st: ScanState, spent: set<Output>, queue: set<Output>, od: Output)
    requires Pending(st, spent, queue, od, {})
    ensures Pending(st, spent, queue, Output(0, 0), {})
  {
    forall a, ki, p | Covered(st, a, ki, p) && OthersIn(RingOf(st, a, ki), p, spent) && RingOf(st, a, ki)[p] !in spent
      ensures Awaits(RingOf(st, a, ki), p, ki, queue, Output(0, 0), {})
    {
      assert Awaits(RingOf(st, a, ki), p, ki, queue, od, {});
    }
  }

  lemma AllQueuedIsPending(st: ScanState)
    ensures Pending(st, st.spent, st.spent, Output(0, 0), {})
  {
    forall a, ki, p | Covered(st, a, ki, p) && OthersIn(RingOf(st, a, ki), p, st.spent) &&
      RingOf(st, a, ki)[p] !in st.spent
      ensures Awaits(RingOf(st, a, ki), p, ki, st.spent, Output(0, 0), {})
    {
      assert RingOf(st, a, ki)[if p == 0 then 1 else 0] in st.spent;
    }
  }

  lemma ProperSubsetIsSmaller<T>(a: set<T>, b: set<T>)
    requires a < b
    ensures |a| < |b|
  {
    assert |b - a| > 0 by { var x :| x in b && x !in a; assert x in b - a; }
    assert b == a + (b - a);
  }

  lemma ScanMarksKeepInv(st: ScanState, before: map<Output, KeyImage>)
    requires before.Keys == st.spent
    ensures Inv(st, before, st.spent, before)
  {
  }

  lemma MarksAreBounded(st: ScanState, before: map<Output, KeyImage>, spent: set<Output>,
                        spender: map<Output, KeyImage>)
    requires Inv(st, before, spent, spender)
    ensures spent <= Universe(st)
  {
  }

  /** With an empty queue no covered inference is left to draw. */
  lemma NothingPending(st: ScanState, spent: set<Output>)
    requires Pending(st, spent, {}, Output(0, 0), {})
    ensures ClosedCovered(st, spent)
  {
    forall a, ki, p | Covered(st, a, ki, p) && OthersIn(RingOf(st, a, ki), p, spent)
      ensures RingOf(st, a, ki)[p] in spent
    {
      assert !Awaits(RingOf(st, a, ki), p, ki, {}, Output(0, 0), {});
    }
  }

  /** The secondary passes. Every queued output is dequeued exactly once: `dequeued` adds up the
      sizes of all passes. */
  method SecondaryPasses(st: ScanState, ghost before: map<Output, KeyImage>)
    returns (spent: set<Output>, ghost spender: map<Output, KeyImage>, ghost dequeued: nat)
    requires st.newlySpent == st.spent && before.Keys == st.spent
    ensures Inv(st, before, spent, spender)
    ensures ClosedCovered(st, spent)
    ensures dequeued == |spent|
  {
    hide Inv, Pending, ClosedCovered, Universe;
    spent, spender, dequeued := st.spent, before, 0;
    ScanMarksKeepInv(st, before);
    var newly := st.newlySpent;
    AllQueuedIsPending(st);
    ghost var done: set<Output> := {};
    while newly != {}
      invariant Inv(st, before, spent, spender)
      invariant Pending(st, spent, newly, Output(0, 0), {})
      invariant done !! newly && spent == done + newly && dequeued == |done|
      decreases |Universe(st) - spent|, |newly|
    {
      ghost var was := spent;
      var work := newly;
      spent, newly, spender := WorkOff(st, work, spent, before, spender);
      done, dequeued := done + work, dequeued + |work|;
      if newly != {} {
        MarksAreBounded(st, before, spent, spender);
        ProperSubsetIsSmaller(Universe(st) - spent, Universe(st) - was);
      }
    }
    NothingPending(st, spent);
  }
}
