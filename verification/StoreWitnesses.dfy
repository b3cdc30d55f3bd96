/** Inputs on which the store does not keep its promises: each shows that the failing side of an
    exact condition is inhabited. */
module StoreWitnesses {
  import opened CryptoNote
  import opened StoreTables
  import opened StoreOps
  import opened StoreInverse
  import opened BlockInverse
  import opened ChainView
  import opened Ledger
  import opened StoreRuns
  import opened RunFailures

  const ANY_INFO := Info(0, 0, 0)

  function Coinbase(vout: seq<TxOut>): Transaction {
    Transaction(2, 0, [Gen(0)], vout, [])
  }

  function Genesis(vout: seq<TxOut>): Block {
    Block(0, 0, Coinbase(vout), [])
  }

  function ToKeys(keys: seq<PublicKey>): (vout: seq<TxOut>)
    ensures |vout| == |keys|
  {
    seq(|keys|, i requires 0 <= i < |keys| => TxOut(1, OutToKey(keys[i])))
  }

  /** A first block whose coinbase transaction pays to any keys is accepted, whatever keys are burned. */
  lemma GenesisIsAccepted(c: Crypto, bad: set<PublicKey>, keys: seq<PublicKey>)
    ensures var e := Entry(Genesis(ToKeys(keys)), ANY_INFO, [], bad);
            EntryStorable(e) && Accepts(c, Book([], {}), e)
    ensures AddBlock(c, bad, EMPTY_TABLES, Genesis(ToKeys(keys)), ANY_INFO, []).status == Ok
  {
    var e := Entry(Genesis(ToKeys(keys)), ANY_INFO, [], bad);
    assert Coinbase(ToKeys(keys)).vin[0].Gen?;
    var rows := Rows(c, []) + EntryRows(c, e, 0);
    assert rows == [MinerRow(c, e, 0)] && rows[..0] == [];
    assert ImageList([Gen(0)]) == [] by { assert [Gen(0)][..0] == []; }
    assert AllImages(rows) == [];
    EmptyStore(c);
    AddBlockView(c, Book([], {}), e);
  }

  /** One burned coinbase output on the empty store: the block is added, but its pop fails. */
  lemma BurnedOutputBlocksPop(c: Crypto, k: PublicKey)
    ensures var r := AddBlock(c, {k}, EMPTY_TABLES, Genesis(ToKeys([k])), ANY_INFO, []);
            var p := PopBlock(c, r.t);
            r.status == Ok && p.status != Ok && p.status != Undefined
  {
    GenesisIsAccepted(c, {k}, [k]);
    hide AddBlock, PopBlock;
    var blk, tx := Genesis(ToKeys([k])), Coinbase(ToKeys([k]));
    assert tx.vin[0].Gen? && IsBad({k}, tx.vout[0]);
    assert Skips({k}, tx, 1) && !PartlySkips({k}, tx);
    StuckBlock(c, {k}, EMPTY_TABLES, blk, ANY_INFO, []);
    BlockReadsPastIff(c, {k}, EMPTY_TABLES, blk, ANY_INFO, []);
  }

  /** A burned output beside another one: popping the block reads past the index list, so the run is
      lost. */
  lemma BurnedOutputLosesPop(c: Crypto, k: PublicKey, other: PublicKey)
    requires other != k
    ensures var r := AddBlock(c, {k}, EMPTY_TABLES, Genesis(ToKeys([other, k])), ANY_INFO, []);
            r.status == Ok && Apply(c, Db(r.t, r.t, false, {k}, false), Pop).Lost?
  {
    GenesisIsAccepted(c, {k}, [other, k]);
    hide AddBlock, PopBlock;
    var blk, tx := Genesis(ToKeys([other, k])), Coinbase(ToKeys([other, k]));
    assert tx.vin[0].Gen? && IsBad({k}, tx.vout[1]) && !IsBad({k}, tx.vout[0]);
    assert PartlySkips({k}, tx);
    BlockReadsPastIff(c, {k}, EMPTY_TABLES, blk, ANY_INFO, []);
  }

  /** An unsupported input in front of a stored image: the transaction is dropped without an error and
      the image is released, so that it can be spent again. */
  lemma UnsupportedInputReleasesImage(c: Crypto, bad: set<PublicKey>, t: Tables, hash: Hash, ki: KeyImage)
    requires ki in t.spentKeys
    ensures var tx := Transaction(2, 0, [ToScript, ToKey(0, [], ki)], [], []);
            AddTransaction(c, bad, t, hash, tx) == Step(t.(spentKeys := t.spentKeys - {ki}), Ok)
  {
    var vin := [ToScript, ToKey(0, [], ki)];
    assert vin[..1] == [ToScript] && [ToScript][..0] == [];
    assert Spend(t.spentKeys, [ToScript]) == Unsupported(t.spentKeys);
    assert vin[1].ToKey? && vin[1].kImage == ki;
    assert Images(vin) == {ki};
  }

  /** A nonzero amount in a transaction that is not mined: no error, a row, and no index list. */
  lemma NonZeroAmountIsAbandoned(c: Crypto, bad: set<PublicKey>, hash: Hash, k: PublicKey)
    ensures var tx := Transaction(2, 0, [], [TxOut(1, OutToKey(k))], []);
            var r := AddTransaction(c, bad, EMPTY_TABLES, hash, tx);
            r.status == Ok && HasTx(r.t, hash) && r.t.txOutputs == map[]
  {
    var tx := Transaction(2, 0, [], [TxOut(1, OutToKey(k))], []);
    assert !IsMiner(tx);
    var d := AddTransactionData(EMPTY_TABLES, tx, hash);
    assert StoreOutputs(c, bad, d.t, hash, tx, 0) == Stored(d.t, []);
    assert StoreOutputs(c, bad, d.t, hash, tx, 1) == NonZero(d.t);
  }

  /** A block that spends an image twice is rejected inside a batch; closing the batch commits its
      coinbase transaction all the same. */
  lemma RejectedBlockIsCommitted(c: Crypto, hash: Hash, ki: KeyImage)
    ensures var spend := ToKey(0, [], ki);
            var tx := Transaction(2, 0, [spend, spend], [], []);
            var op := Add(Block(0, 0, Coinbase([]), [hash]), ANY_INFO, [tx]);
            var db := EMPTY_DB.(batch := true);
            && Apply(c, db, op).Done? && Apply(c, db, op).status != Ok
            && Run(c, db, [op, BatchStop]).Done? && Run(c, db, [op, BatchStop]).db.env != EMPTY_TABLES
  {
    var spend := ToKey(0, [], ki);
    var tx := Transaction(2, 0, [spend, spend], [], []);
    var blk := Block(0, 0, Coinbase([]), [hash]);
    var op, db := Add(blk, ANY_INFO, [tx]), EMPTY_DB.(batch := true);
    var e := Entry(blk, ANY_INFO, [tx], {});
    RepeatedImageIsRejected(c, e, spend);
    EmptyStore(c);
    assert Coinbase([]).vin[0].Gen?;
    hide AddBlock, Accepts;
    AddBlockView(c, Book([], {}), e);
    assert ImageList([Gen(0)]) == [] by { assert [Gen(0)][..0] == []; }
    FailureInBatchIsCleanIff(c, db, op);
  }

  lemma RepeatedImageIsRejected(c: Crypto, e: Entry, spend: TxIn)
    requires spend.ToKey? && e.txs == [Transaction(2, 0, [spend, spend], [], [])] && |e.blk.txHashes| == 1
    requires e.blk.minerTx == Coinbase([])
    ensures Unspent(Rows(c, []), {}) && !Accepts(c, Book([], {}), e)
  {
    var rows := Rows(c, []) + EntryRows(c, e, 0);
    var last := TxRows(e.blk.txHashes, e.txs, 0, e.bad);
    assert rows == [MinerRow(c, e, 0)] + [last[0]];
    AllImagesGrow([MinerRow(c, e, 0)], last[0]);
    var vin := [spend, spend];
    assert vin[..1] == [spend] && [spend][..0] == [];
    assert ImageList(vin) == [spend.kImage, spend.kImage];
    DistinctConcat(AllImages([MinerRow(c, e, 0)]), ImageList(vin));
    assert ImageList(vin)[0] == ImageList(vin)[1];
  }
}
