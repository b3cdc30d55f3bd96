/** Which inputs the first phase reads, in which order, and what the results say about them. */
module ChainReading {
  import opened CryptoNote
  import opened RingOffsets
  import opened RingScan

  /** An input, named by its chain, the transaction on it and the position in the transaction. */
  datatype Place = Place(chain: nat, tx: nat, input: nat)

  predicate Before(a: Place, b: Place) {
    a.chain < b.chain || (a.chain == b.chain && (a.tx < b.tx || (a.tx == b.tx && a.input < b.input)))
  }

  /** There is a key input at the place, and it passes the filter for amounts. */
  predicate IsRead(rctOnly: bool, chains: seq<seq<seq<TxIn>>>, p: Place) {
    && p.chain < |chains| && p.tx < |chains[p.chain]| && p.input < |chains[p.chain][p.tx]|
    && chains[p.chain][p.tx][p.input].ToKey?
    && !(rctOnly && chains[p.chain][p.tx][p.input].amount != 0)
  }

  function InputAt(chains: seq<seq<seq<TxIn>>>, p: Place): TxIn
    requires p.chain < |chains| && p.tx < |chains[p.chain]| && p.input < |chains[p.chain][p.tx]|
  {
    chains[p.chain][p.tx][p.input]
  }

  /** The sighting tells the chain it came from and what the input says. */
  predicate Tells(chain: nat, input: TxIn, s: Sighting) {
    input.ToKey? && s == Sighting(chain, input.amount, input.kImage, input.keyOffsets)
  }

  /** The places are in reading order, are exactly the places that are read, and the list of sightings
      tells what stands there, place by place. */
  ghost predicate InReadingOrder(rctOnly: bool, chains: seq<seq<seq<TxIn>>>, ss: seq<Sighting>, places: seq<Place>) {
    && |places| == |ss|
    && (forall i, j :: 0 <= i < j < |places| ==> Before(places[i], places[j]))
    && (forall i :: 0 <= i < |places| ==> IsRead(rctOnly, chains, places[i]))
    && (forall i :: 0 <= i < |places| ==> Tells(places[i].chain, InputAt(chains, places[i]), ss[i]))
    && (forall p :: IsRead(rctOnly, chains, p) ==> p in places)
  }

  // ---- One transaction ----

  predicate Readable(rctOnly: bool, input: TxIn) {
    input.ToKey? && !(rctOnly && input.amount != 0)
  }

  ghost predicate InputsInOrder(n: nat, rctOnly: bool, vin: seq<TxIn>, ss: seq<Sighting>, ks: seq<nat>) {
    && |ks| == |ss|
    && (forall i, j :: 0 <= i < j < |ks| ==> ks[i] < ks[j])
    && (forall i :: 0 <= i < |ks| ==> ks[i] < |vin| && Readable(rctOnly, vin[ks[i]]) && Tells(n, vin[ks[i]], ss[i]))
    && (forall k :: 0 <= k < |vin| && Readable(rctOnly, vin[k]) ==> k in ks)
  }

  lemma InputsOneMore(n: nat, rctOnly: bool, vin: seq<TxIn>, input: TxIn, ss: seq<Sighting>, ks: seq<nat>)
    requires InputsInOrder(n, rctOnly, vin, ss, ks)
    ensures if Readable(rctOnly, input) then
              InputsInOrder(n, rctOnly, vin + [input],
                            ss + [Sighting(n, input.amount, input.kImage, input.keyOffsets)], ks + [|vin|])
            else InputsInOrder(n, rctOnly, vin + [input], ss, ks)
  {
    assert forall k :: 0 <= k < |vin| ==> (vin + [input])[k] == vin[k];
    assert (vin + [input])[|vin|] == input;
  }

  lemma {:induction false} InputsAreRead(n: nat, rctOnly: bool, vin: seq<TxIn>) returns (ks: seq<nat>)
    ensures InputsInOrder(n, rctOnly, vin, InputSightings(n, rctOnly, vin), ks)
  {
    ks := [];
    if vin != [] {
      var m := |vin| - 1;
      ks := InputsAreRead(n, rctOnly, vin[..m]);
      hide InputsInOrder;
      assert vin == vin[..m] + [vin[m]];
      InputsOneMore(n, rctOnly, vin[..m], vin[m], InputSightings(n, rctOnly, vin[..m]), ks);
      if Readable(rctOnly, vin[m]) {
        ks := ks + [m];
      }
    }
  }

  // ---- One chain, and all chains ----

  /** The places that are read in chain n, whatever the chains before it. */
  ghost predicate TxsInOrder(n: nat, rctOnly: bool, txs: seq<seq<TxIn>>, ss: seq<Sighting>, places: seq<Place>) {
    InReadingOrder(rctOnly, Alone(n, txs), ss, places)
  }

  /** A list of chains that are all empty but the last. */
  function Alone(n: nat, txs: seq<seq<TxIn>>): seq<seq<seq<TxIn>>> {
    seq(n, i => []) + [txs]
  }

  function PlacesOf(n: nat, t: nat, ks: seq<nat>): (places: seq<Place>)
    ensures |places| == |ks|
    ensures forall i :: 0 <= i < |ks| ==> places[i] == Place(n, t, ks[i])
  {
    seq(|ks|, i requires 0 <= i < |ks| => Place(n, t, ks[i]))
  }

  lemma {:induction false} TxsAreRead(n: nat, rctOnly: bool, txs: seq<seq<TxIn>>) returns (places: seq<Place>)
    ensures TxsInOrder(n, rctOnly, txs, ChainSightings(n, rctOnly, txs), places)
  {
    places := [];
    if txs != [] {
      var m := |txs| - 1;
      var init := TxsAreRead(n, rctOnly, txs[..m]);
      var ks := InputsAreRead(n, rctOnly, txs[m]);
      places := init + PlacesOf(n, m, ks);
      TxsJoin(n, rctOnly, txs, ChainSightings(n, rctOnly, txs[..m]), init, InputSightings(n, rctOnly, txs[m]), ks);
    }
  }

  lemma ReadInLast(n: nat, rctOnly: bool, txs: seq<seq<TxIn>>, p: Place)
    requires txs != []
    ensures var m := |txs| - 1;
            && (IsRead(rctOnly, Alone(n, txs), p) <==>
                IsRead(rctOnly, Alone(n, txs[..m]), p) ||
                (p.chain == n && p.tx == m && p.input < |txs[m]| && Readable(rctOnly, txs[m][p.input])))
            && (IsRead(rctOnly, Alone(n, txs[..m]), p) ==>
                p.chain == n && p.tx < m && InputAt(Alone(n, txs[..m]), p) == InputAt(Alone(n, txs), p))
  {
  }

  lemma TxsJoin(n: nat, rctOnly: bool, txs: seq<seq<TxIn>>, ss: seq<Sighting>, init: seq<Place>,
                more: seq<Sighting>, ks: seq<nat>)
    requires txs != []
    requires TxsInOrder(n, rctOnly, txs[..|txs| - 1], ss, init)
    requires InputsInOrder(n, rctOnly, txs[|txs| - 1], more, ks)
    ensures TxsInOrder(n, rctOnly, txs, ss + more, init + PlacesOf(n, |txs| - 1, ks))
  {
    var m, last := |txs| - 1, PlacesOf(n, |txs| - 1, ks);
    var all := init + last;
    var below, chains := Alone(n, txs[..m]), Alone(n, txs);
    forall i | 0 <= i < |all|
      ensures IsRead(rctOnly, chains, all[i]) && Tells(all[i].chain, InputAt(chains, all[i]), (ss + more)[i])
      ensures i < |init| ==> all[i].chain == n && all[i].tx < m
    {
      ReadInLast(n, rctOnly, txs, all[i]);
      if i < |init| {
        assert all[i] == init[i] && IsRead(rctOnly, below, init[i]);
      } else {
        assert all[i] == Place(n, m, ks[i - |init|]);
      }
    }
    hide Alone, IsRead;
    forall p | IsRead(rctOnly, chains, p) ensures p in all {
      ReadInLast(n, rctOnly, txs, p);
      if !IsRead(rctOnly, below, p) {
        var i :| 0 <= i < |ks| && ks[i] == p.input;
        assert all[|init| + i] == p;
      }
    }
  }

  /** The sightings are exactly the inputs read, in reading order: by chain, then by transaction, then
      by input, each with the number of its chain. */
  lemma {:induction false} SightingsInOrder(rctOnly: bool, chains: seq<seq<seq<TxIn>>>) returns (places: seq<Place>)
    ensures InReadingOrder(rctOnly, chains, Sightings(rctOnly, chains), places)
  {
    places := [];
    if chains != [] {
      var n := |chains| - 1;
      var init := SightingsInOrder(rctOnly, chains[..n]);
      var last := TxsAreRead(n, rctOnly, chains[n]);
      places := init + last;
      ChainsJoin(rctOnly, chains, Sightings(rctOnly, chains[..n]), init, ChainSightings(n, rctOnly, chains[n]), last);
    }
  }

  lemma ChainsJoin(rctOnly: bool, chains: seq<seq<seq<TxIn>>>, ss: seq<Sighting>, init: seq<Place>,
                   more: seq<Sighting>, last: seq<Place>)
    requires chains != []
    requires InReadingOrder(rctOnly, chains[..|chains| - 1], ss, init)
    requires TxsInOrder(|chains| - 1, rctOnly, chains[|chains| - 1], more, last)
    ensures InReadingOrder(rctOnly, chains, ss + more, init + last)
  {
    var n, all := |chains| - 1, init + last;
    var below, alone := chains[..n], Alone(n, chains[n]);
    forall p: Place
      ensures IsRead(rctOnly, chains, p) <==> IsRead(rctOnly, below, p) || IsRead(rctOnly, alone, p)
      ensures IsRead(rctOnly, alone, p) ==> p.chain == n
    {
    }
    forall i | 0 <= i < |all|
      ensures IsRead(rctOnly, chains, all[i]) && Tells(all[i].chain, InputAt(chains, all[i]), (ss + more)[i])
    {
      if i < |init| {
        assert all[i] == init[i] && IsRead(rctOnly, below, init[i]);
      } else {
        assert all[i] == last[i - |init|] && IsRead(rctOnly, alone, last[i - |init|]);
      }
    }
  }

  /** A sighting is met if and only if some input that is read says so. */
  lemma SightingIff(rctOnly: bool, chains: seq<seq<seq<TxIn>>>, s: Sighting)
    ensures s in Sightings(rctOnly, chains) <==>
            exists p :: IsRead(rctOnly, chains, p) && Tells(p.chain, InputAt(chains, p), s)
  {
    var ss := Sightings(rctOnly, chains);
    var places := SightingsInOrder(rctOnly, chains);
    if s in ss {
      var i :| 0 <= i < |ss| && ss[i] == s;
      assert IsRead(rctOnly, chains, places[i]);
    }
    if p :| IsRead(rctOnly, chains, p) && Tells(p.chain, InputAt(chains, p), s) {
      var i :| 0 <= i < |places| && places[i] == p;
      assert ss[i] == s;
    }
  }

  // ---- The inputs themselves ----

  /** Member r of the ring that a key input names. */
  function Member(input: TxIn, r: nat): Output
    requires input.ToKey? && r < |input.keyOffsets|
  {
    Output(input.amount, Absolute(input.keyOffsets)[r])
  }

  /** Inputs that are read with the same key image name the same ring. */
  ghost predicate OneRingPerImage(rctOnly: bool, chains: seq<seq<seq<TxIn>>>) {
    forall p, q ::
      (IsRead(rctOnly, chains, p) && IsRead(rctOnly, chains, q) &&
       InputAt(chains, p).kImage == InputAt(chains, q).kImage) ==>
        && InputAt(chains, p).amount == InputAt(chains, q).amount
        && InputAt(chains, p).keyOffsets == InputAt(chains, q).keyOffsets
  }

  /** All members of the ring but r are in the set. */
  ghost predicate OthersKnown(input: TxIn, r: nat, known: set<Output>) {
    && input.ToKey? && r < |input.keyOffsets|
    && forall q :: 0 <= q < |input.keyOffsets| && q != r ==> Member(input, q) in known
  }

  /** The elimination rule for every input of the main chain, and for lone members on any chain: if all
      other members of the ring are in the set, so is this one. */
  ghost predicate Eliminates(rctOnly: bool, chains: seq<seq<seq<TxIn>>>, known: set<Output>) {
    forall p, r ::
      (IsRead(rctOnly, chains, p) && (p.chain == 0 || |InputAt(chains, p).keyOffsets| == 1) &&
       OthersKnown(InputAt(chains, p), r, known)) ==>
        Member(InputAt(chains, p), r) in known
  }

  ghost predicate LeastEliminating(rctOnly: bool, chains: seq<seq<seq<TxIn>>>, spent: set<Output>) {
    Eliminates(rctOnly, chains, spent) && forall known :: Eliminates(rctOnly, chains, known) ==> spent <= known
  }

  /** A history that fits the inputs: each key image spends a member of every ring it is read with, and
      no two key images spend the same output. */
  ghost predicate FitsInputs(rctOnly: bool, chains: seq<seq<seq<TxIn>>>, spends: map<KeyImage, Output>) {
    && (forall p :: IsRead(rctOnly, chains, p) ==>
          && InputAt(chains, p).kImage in spends
          && exists r :: 0 <= r < |InputAt(chains, p).keyOffsets| &&
               spends[InputAt(chains, p).kImage] == Member(InputAt(chains, p), r))
    && (forall a, b :: a in spends && b in spends && spends[a] == spends[b] ==> a == b)
  }

  /** The sighting at index i and the place it was read at. */
  lemma PlaceOf(rctOnly: bool, chains: seq<seq<seq<TxIn>>>, i: nat) returns (p: Place)
    requires i < |Sightings(rctOnly, chains)|
    ensures IsRead(rctOnly, chains, p) && Tells(p.chain, InputAt(chains, p), Sightings(rctOnly, chains)[i])
  {
    var places := SightingsInOrder(rctOnly, chains);
    p := places[i];
  }

  lemma IndexOf(rctOnly: bool, chains: seq<seq<seq<TxIn>>>, p: Place) returns (i: nat)
    requires IsRead(rctOnly, chains, p)
    ensures i < |Sightings(rctOnly, chains)| && Tells(p.chain, InputAt(chains, p), Sightings(rctOnly, chains)[i])
  {
    var places := SightingsInOrder(rctOnly, chains);
    i :| 0 <= i < |places| && places[i] == p;
  }

  lemma OneRingIff(rctOnly: bool, chains: seq<seq<seq<TxIn>>>)
    ensures OneRing(Sightings(rctOnly, chains)) <==> OneRingPerImage(rctOnly, chains)
  {
    hide Sightings;
    var ss := Sightings(rctOnly, chains);
    if OneRingPerImage(rctOnly, chains) {
      forall i, j | 0 <= i < |ss| && 0 <= j < |ss| && ss[i].kImage == ss[j].kImage
        ensures ss[i].amount == ss[j].amount && ss[i].offsets == ss[j].offsets
      {
        var p := PlaceOf(rctOnly, chains, i);
        var q := PlaceOf(rctOnly, chains, j);
      }
    }
    if OneRing(ss) {
      forall p, q | IsRead(rctOnly, chains, p) && IsRead(rctOnly, chains, q) &&
          InputAt(chains, p).kImage == InputAt(chains, q).kImage
        ensures InputAt(chains, p).amount == InputAt(chains, q).amount
        ensures InputAt(chains, p).keyOffsets == InputAt(chains, q).keyOffsets
      {
        var i := IndexOf(rctOnly, chains, p);
        var j := IndexOf(rctOnly, chains, q);
      }
    }
  }

  lemma ConsistentIff(rctOnly: bool, chains: seq<seq<seq<TxIn>>>, spends: map<KeyImage, Output>)
    ensures Consistent(spends, Sightings(rctOnly, chains)) <==> FitsInputs(rctOnly, chains, spends)
  {
    hide Sightings, Absolute;
    var ss := Sightings(rctOnly, chains);
    if FitsInputs(rctOnly, chains, spends) {
      forall i | 0 <= i < |ss|
        ensures ss[i].kImage in spends && spends[ss[i].kImage] in Ring(ss[i].amount, ss[i].offsets)
      {
        var p := PlaceOf(rctOnly, chains, i);
        var input := InputAt(chains, p);
        var r :| 0 <= r < |input.keyOffsets| && spends[input.kImage] == Member(input, r);
        assert Ring(ss[i].amount, ss[i].offsets)[r] == Member(input, r);
      }
    }
    if Consistent(spends, ss) {
      forall p | IsRead(rctOnly, chains, p)
        ensures InputAt(chains, p).kImage in spends
        ensures exists r :: 0 <= r < |InputAt(chains, p).keyOffsets| &&
                  spends[InputAt(chains, p).kImage] == Member(InputAt(chains, p), r)
      {
        var i := IndexOf(rctOnly, chains, p);
        var ring := Ring(ss[i].amount, ss[i].offsets);
        var r :| 0 <= r < |ring| && ring[r] == spends[ss[i].kImage];
        assert ring[r] == Member(InputAt(chains, p), r);
      }
    }
  }
}
