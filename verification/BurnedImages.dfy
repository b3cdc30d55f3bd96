/** Key images over whole runs: no double spend, and the permanence of burned images. */
module BurnedImages {
  import opened CryptoNote
  import opened StoreTables
  import opened StoreOps
  import opened StoreInverse
  import opened BlockInverse
  import opened ChainView
  import opened Ledger
  import opened StoreRuns

  /** After any proper run from the empty store, the stored images are the images of the chain's
      inputs and the burned ones; no input repeats an image and none spends a burned image. */
  lemma NoDoubleSpend(c: Crypto, ops: seq<Op>)
    requires ProperRun(c, EMPTY_BOOKS, ops)
    ensures Run(c, EMPTY_DB, ops).Done?
    ensures var b := FollowAll(c, EMPTY_BOOKS, ops).current;
            var t := Run(c, EMPTY_DB, ops).db.view;
            var images := AllImages(Rows(c, b.chain));
            && t.spentKeys == b.burned + Elements(images)
            && Distinct(images) && Elements(images) !! b.burned
  {
    hide ProperRun, FollowAll, Run;
    EmptyStore(c);
    RunRefines(c, EMPTY_BOOKS, ops);
    AcceptedIsUnspent(c, FollowAll(c, EMPTY_BOOKS, ops).current);
  }

  // ---- Burned images ----

  ghost predicate BurnedIn(a: Books, ki: KeyImage) {
    ki in a.committed.burned && ki in a.current.burned
  }

  lemma {:induction false} BurnedStays(c: Crypto, a: Books, ki: KeyImage, ops: seq<Op>)
    requires BurnedIn(a, ki)
    ensures BurnedIn(FollowAll(c, a, ops), ki)
  {
    hide Succeeds;
    if ops != [] {
      BurnedStays(c, a, ki, ops[..|ops| - 1]);
    }
  }

  /** The image is stored after the run, in the committed tables and in the writer's view. */
  predicate StoredAfter(c: Crypto, a: Books, ki: KeyImage, ops: seq<Op>) {
    var r := Run(c, DbOf(c, a), ops);
    r.Done? && ki in r.db.env.spentKeys && ki in r.db.view.spentKeys
  }

  lemma BurnedIsStored(c: Crypto, z: Books, ki: KeyImage, ops: seq<Op>)
    requires Standing(c, z) && BurnedIn(z, ki) && ProperRun(c, z, ops)
    ensures StoredAfter(c, z, ki, ops)
  {
    hide Standing, ProperRun, FollowAll, Run;
    RunRefines(c, z, ops);
    BurnedStays(c, z, ki, ops);
  }

  // ---- Blocks that cannot be popped ----

  /** The chain spends the image in or below a block that cannot be popped. */
  ghost predicate SpentForGood(c: Crypto, chain: seq<Entry>, ki: KeyImage) {
    exists k :: 0 <= k < |chain| && !Poppable(chain[k]) && ki in AllImages(Rows(c, chain[..k + 1]))
  }

  lemma {:induction false} ImagesOfShorter(c: Crypto, chain: seq<Entry>, n: nat)
    requires n <= |chain|
    ensures Elements(AllImages(Rows(c, chain[..n]))) <= Elements(AllImages(Rows(c, chain)))
    decreases |chain|
  {
    hide AllImages, EntryRows;
    if n == |chain| {
      assert chain[..n] == chain;
    } else {
      var init := chain[..|chain| - 1];
      ImagesOfShorter(c, init, n);
      assert init[..n] == chain[..n];
      ImagesOfPrefix(Rows(c, init), EntryRows(c, chain[|chain| - 1], |init|));
    }
  }

  lemma {:induction false} PinnedStays(c: Crypto, a: Books, pinned: seq<Entry>, ops: seq<Op>)
    requires pinned != [] && !Poppable(pinned[|pinned| - 1])
    requires pinned <= a.committed.chain && pinned <= a.current.chain
    ensures var z := FollowAll(c, a, ops); pinned <= z.committed.chain && pinned <= z.current.chain
  {
    hide Accepts, Poppable, Rows, AllImages;
    if ops != [] {
      PinnedStays(c, a, pinned, ops[..|ops| - 1]);
    }
  }

  lemma PinnedIsStored(c: Crypto, z: Books, pinned: seq<Entry>, ki: KeyImage, ops: seq<Op>)
    requires pinned != [] && !Poppable(pinned[|pinned| - 1]) && ki in AllImages(Rows(c, pinned))
    requires Standing(c, z) && pinned <= z.committed.chain && pinned <= z.current.chain && ProperRun(c, z, ops)
    ensures StoredAfter(c, z, ki, ops)
  {
    hide Standing, ProperRun, FollowAll, Run, Poppable, Rows, AllImages;
    RunRefines(c, z, ops);
    PinnedStays(c, z, pinned, ops);
    var y := FollowAll(c, z, ops);
    assert y.committed.chain[..|pinned|] == pinned && y.current.chain[..|pinned|] == pinned;
    assert ki in Elements(AllImages(Rows(c, pinned)));
    ImagesOfShorter(c, y.committed.chain, |pinned|);
    ImagesOfShorter(c, y.current.chain, |pinned|);
  }

  // ---- Popping down to the last block that cannot be popped ----

  function PopsFrom(n: nat): (ops: seq<Op>)
    ensures |ops| == n && forall i :: 0 <= i < n ==> ops[i] == Pop
  {
    seq(n, i => Pop)
  }

  /** The number of blocks on top that can be popped. */
  function Loose(chain: seq<Entry>): (n: nat)
    ensures n <= |chain|
  {
    if chain == [] || !Poppable(chain[|chain| - 1]) then 0 else Loose(chain[..|chain| - 1]) + 1
  }

  lemma {:induction false} LooseOnTop(chain: seq<Entry>)
    ensures var n := Loose(chain);
            && (forall i :: |chain| - n <= i < |chain| ==> Poppable(chain[i]))
            && (n < |chain| ==> !Poppable(chain[|chain| - n - 1]))
  {
    hide Poppable;
    if chain != [] && Poppable(chain[|chain| - 1]) {
      LooseOnTop(chain[..|chain| - 1]);
      assert forall i :: 0 <= i < |chain| - 1 ==> chain[..|chain| - 1][i] == chain[i];
    }
  }

  lemma PoppableIsDefined(e: Entry)
    requires Poppable(e)
    ensures !ReadsPast(e)
  {
    hide Invertible, TransactionsReadPast;
    if TransactionsReadPast(e.bad, e.txs) {
      ReadPastIsStuck(e.bad, e.txs);
    } else if PartlySkips(e.bad, e.blk.minerTx) {
      PartlySkippingIsStuck(e.bad, e.blk.minerTx);
    }
  }

  lemma {:induction false} PoppingMany(c: Crypto, a: Books, n: nat)
    requires !a.batch && !a.readOnly && n <= Loose(a.current.chain)
    ensures ProperRun(c, a, PopsFrom(n))
    ensures var z := FollowAll(c, a, PopsFrom(n));
            !z.batch && !z.readOnly && z.current == a.current.(chain := a.current.chain[..|a.current.chain| - n])
  {
    hide Poppable, ReadsPast, Loose;
    if n > 0 {
      PoppingMany(c, a, n - 1);
      assert PopsFrom(n)[..n - 1] == PopsFrom(n - 1);
      LooseOnTop(a.current.chain);
      PoppableIsDefined(a.current.chain[|a.current.chain| - n]);
    } else {
      assert a.current.chain[..|a.current.chain|] == a.current.chain;
    }
  }

  lemma SpentImageCanVanish(c: Crypto, z: Books, ki: KeyImage)
    requires Standing(c, z) && !z.batch && !z.readOnly
    requires ki !in z.current.burned && !SpentForGood(c, z.current.chain, ki)
    ensures ProperRun(c, z, PopsFrom(Loose(z.current.chain)))
    ensures !StoredAfter(c, z, ki, PopsFrom(Loose(z.current.chain)))
  {
    hide ProperRun, FollowAll, Run, Standing, Poppable, Rows, AllImages, Loose;
    var chain, n := z.current.chain, Loose(z.current.chain);
    PoppingMany(c, z, n);
    RunRefines(c, z, PopsFrom(n));
    if n == |chain| {
      NothingSpent(c);
      assert chain[..0] == [];
    } else {
      LooseOnTop(chain);
      assert chain[..(|chain| - n - 1) + 1] == chain[..|chain| - n];
    }
  }

  lemma NothingSpent(c: Crypto)
    ensures AllImages(Rows(c, [])) == []
  {
  }

  lemma SpentIsNotBurned(c: Crypto, b: Book, ki: KeyImage)
    requires Accepted(c, b) && ki in AllImages(Rows(c, b.chain))
    ensures ki !in b.burned
  {
    AcceptedIsUnspent(c, b);
    hide Distinct, Accepted, Rows, AllImages;
    assert ki in Elements(AllImages(Rows(c, b.chain)));
  }

  /** The burn is permanent: an image that the chain does not spend when the fixup runs is stored
      after every later proper run of additions, pops, batches and fixups. An image that the chain
      does spend stays exactly if a block at or above the spending one cannot be popped; otherwise
      some run loses it. */
  lemma BurnIsPermanentIff(c: Crypto, a: Books, badOuts: seq<PublicKey>, images: seq<KeyImage>, ki: KeyImage)
    requires Standing(c, a) && !a.readOnly && ki in images
    ensures var z, chain := Follow(c, a, Fixup(badOuts, images)), a.current.chain;
            (forall ops :: ProperRun(c, z, ops) ==> StoredAfter(c, z, ki, ops)) <==>
            ki !in AllImages(Rows(c, chain)) || SpentForGood(c, chain, ki)
  {
    hide ProperRun, StoredAfter, AllImages, Accepted, Poppable, Rows, PopsFrom, Unspent, Loose;
    var z, chain := Follow(c, a, Fixup(badOuts, images)), a.current.chain;
    FixupRefines(c, a.current, images);
    if ki !in AllImages(Rows(c, chain)) {
      forall ops | ProperRun(c, z, ops) ensures StoredAfter(c, z, ki, ops) {
        BurnedIsStored(c, z, ki, ops);
      }
    } else if SpentForGood(c, chain, ki) {
      var k :| 0 <= k < |chain| && !Poppable(chain[k]) && ki in AllImages(Rows(c, chain[..k + 1]));
      forall ops | ProperRun(c, z, ops) ensures StoredAfter(c, z, ki, ops) {
        PinnedIsStored(c, z, chain[..k + 1], ki, ops);
      }
    } else {
      SpentIsNotBurned(c, a.current, ki);
      SpentImageCanVanish(c, z, ki);
      assert ProperRun(c, z, PopsFrom(Loose(chain)));
    }
  }

  // ---- Spending a burned image ----

  /** A well-formed block that spends a burned image is rejected: nothing is committed, and outside
      a batch nothing changes. */
  lemma BurnedCannotBeSpent(c: Crypto, a: Books, op: Op, row: TxRow)
    requires Standing(c, a) && op.Add? && EntryStorable(NewEntry(a, op))
    requires row in EntryRows(c, NewEntry(a, op), |a.current.chain|) && Images(row.tx.vin) * a.current.burned != {}
    ensures var r := Apply(c, DbOf(c, a), op);
            r.Done? && r.status != Ok && r.db.env == DbOf(c, a).env && (!a.batch ==> r.db == DbOf(c, a))
  {
    hide TablesOf, AddBlock, EntryStorable, EntryRows, Rows, Accepted;
    var e := NewEntry(a, op);
    var ki :| ki in Images(row.tx.vin) && ki in a.current.burned;
    RowImagesIncluded(Rows(c, a.current.chain) + EntryRows(c, e, |a.current.chain|), row, ki);
    AcceptedIsUnspent(c, a.current);
    AddBlockView(c, a.current, e);
    assert !Accepts(c, a.current, e);
  }

  lemma {:induction false} RowImagesIncluded(rows: seq<TxRow>, row: TxRow, ki: KeyImage)
    requires row in rows && ki in Images(row.tx.vin)
    ensures ki in AllImages(rows)
  {
    var init, last := rows[..|rows| - 1], rows[|rows| - 1];
    assert rows == init + [last];
    if row in init {
      RowImagesIncluded(init, row, ki);
    } else {
      ImageListElements(row.tx.vin);
      assert ki in Elements(ImageList(row.tx.vin));
    }
  }

  /** Running a fixup twice is running it once. */
  lemma FixupIsIdempotent(c: Crypto, db: Db, badOuts: seq<PublicKey>, images: seq<KeyImage>)
    ensures Run(c, db, [Fixup(badOuts, images), Fixup(badOuts, images)]) == Apply(c, db, Fixup(badOuts, images))
  {
    var f := Fixup(badOuts, images);
    assert [f, f][..1] == [f] && [f][..0] == [];
    assert Run(c, db, [f]) == Apply(c, db, f);
  }
}
