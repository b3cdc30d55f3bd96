/** When popping a block takes back adding it. */
module BlockInverse {
  import opened CryptoNote
  import opened StoreTables
  import opened StoreOps
  import opened StoreInverse

  function Reversed<T>(s: seq<T>): (r: seq<T>)
    ensures |r| == |s| && forall i :: 0 <= i < |s| ==> r[i] == s[|s| - 1 - i]
  {
    if s == [] then [] else [s[|s| - 1]] + Reversed(s[..|s| - 1])
  }

  predicate AllInvertible(bad: set<PublicKey>, txs: seq<Transaction>) {
    forall i :: 0 <= i < |txs| ==> Invertible(bad, txs[i])
  }

  predicate AllSupported(txs: seq<Transaction>) {
    forall i :: 0 <= i < |txs| ==> Supported(txs[i].vin)
  }

  predicate BlockInvertible(bad: set<PublicKey>, blk: Block, txs: seq<Transaction>) {
    Invertible(bad, blk.minerTx) && AllInvertible(bad, txs)
  }

  /** The number of transactions that get a row. */
  function SupportedCount(txs: seq<Transaction>): (n: nat)
    ensures n <= |txs| && (n == |txs| <==> AllSupported(txs))
  {
    if txs == [] then 0
    else
      assert txs == txs[..|txs| - 1] + [txs[|txs| - 1]];
      SupportedCount(txs[..|txs| - 1]) + (if Supported(txs[|txs| - 1].vin) then 1 else 0)
  }

  lemma {:induction false} AddTransactionsRows(c: Crypto, bad: set<PublicKey>, t: Tables, hashes: seq<Hash>,
                                               txs: seq<Transaction>)
    requires |hashes| == |txs|
    ensures var r := AddTransactions(c, bad, t, hashes, txs);
            && r.t.blocks == t.blocks && r.t.blockHeights == t.blockHeights
            && t.txIndices.Keys <= r.t.txIndices.Keys
            && (ZeroAmounts(t.outputAmounts) ==> ZeroAmounts(r.t.outputAmounts))
            && (r.status == Ok ==> |r.t.txIndices| == |t.txIndices| + SupportedCount(txs))
    decreases |txs|
  {
    hide AddTransaction, ZeroAmounts;
    if txs != [] {
      var n := |txs| - 1;
      AddTransactionsRows(c, bad, t, hashes[..n], txs[..n]);
      AddTransactionRows(c, bad, AddTransactions(c, bad, t, hashes[..n], txs[..n]).t, hashes[n], txs[n]);
    }
  }

  lemma {:induction false} PopTransactionsRows(t: Tables, hashes: seq<Hash>)
    requires PopTransactions(t, hashes).status == Ok
    ensures |PopTransactions(t, hashes).t.txIndices| == |t.txIndices| - |hashes|
    decreases |hashes|
  {
    hide RemoveTransaction;
    if hashes != [] {
      var hash := hashes[|hashes| - 1];
      RemoveTransactionRows(t, hash);
      PopTransactionsRows(RemoveTransaction(t, hash).t, hashes[..|hashes| - 1]);
    }
  }

  lemma {:induction false} UndoTransactions(c: Crypto, bad: set<PublicKey>, t: Tables, hashes: seq<Hash>,
                                            txs: seq<Transaction>)
    requires |hashes| == |txs| && AddTransactions(c, bad, t, hashes, txs).status == Ok && AllInvertible(bad, txs)
    ensures PopTransactions(AddTransactions(c, bad, t, hashes, txs).t, hashes) == Removed(t, Ok, Reversed(txs))
    decreases |txs|
  {
    hide AddTransaction, RemoveTransaction, Invertible;
    if txs != [] {
      var n := |txs| - 1;
      var r := AddTransactions(c, bad, t, hashes[..n], txs[..n]);
      UndoTransaction(c, bad, r.t, hashes[n], txs[n]);
      UndoTransactions(c, bad, t, hashes[..n], txs[..n]);
    }
  }

  lemma {:induction false} StuckTransactions(c: Crypto, bad: set<PublicKey>, t: Tables, hashes: seq<Hash>,
                                             txs: seq<Transaction>)
    requires |hashes| == |txs| && AddTransactions(c, bad, t, hashes, txs).status == Ok
    requires ZeroAmounts(t.outputAmounts) && AllSupported(txs) && !AllInvertible(bad, txs)
    ensures PopTransactions(AddTransactions(c, bad, t, hashes, txs).t, hashes).status != Ok
    decreases |txs|
  {
    hide AddTransaction, RemoveTransaction, Invertible, Supported, ZeroAmounts;
    var n := |txs| - 1;
    var r := AddTransactions(c, bad, t, hashes[..n], txs[..n]);
    AddTransactionsRows(c, bad, t, hashes[..n], txs[..n]);
    assert txs == txs[..n] + [txs[n]];
    if Invertible(bad, txs[n]) {
      UndoTransaction(c, bad, r.t, hashes[n], txs[n]);
      StuckTransactions(c, bad, t, hashes[..n], txs[..n]);
    } else {
      StuckTransaction(c, bad, r.t, hashes[n], txs[n]);
    }
  }

  lemma UndoBlockRow(t: Tables, row: BlockRow)
    requires AddBlockRow(t, row).status == Ok
    ensures RemoveBlockRow(AddBlockRow(t, row).t) == Step(t, Ok)
    ensures AddBlockRow(t, row).t.blocks == t.blocks + [row]
  {
    var u := AddBlockRow(t, row).t;
    assert u.blocks[..|t.blocks|] == t.blocks;
    assert u.blockHeights - {row.hash} == t.blockHeights;
  }

  /** The states between the steps of adding a block. */
  function AfterMiner(c: Crypto, bad: set<PublicKey>, t: Tables, blk: Block): Step {
    AddTransaction(c, bad, t, c.txHash(blk.minerTx), blk.minerTx)
  }

  function AfterTransactions(c: Crypto, bad: set<PublicKey>, t: Tables, blk: Block, txs: seq<Transaction>): Step
    requires |blk.txHashes| == |txs|
  {
    AddTransactions(c, bad, AfterMiner(c, bad, t, blk).t, blk.txHashes, txs)
  }

  lemma AddedBlock(c: Crypto, bad: set<PublicKey>, t: Tables, blk: Block, info: Info, txs: seq<Transaction>)
    requires AddBlock(c, bad, t, blk, info, txs).status == Ok
    ensures |blk.txHashes| == |txs|
    ensures AfterMiner(c, bad, t, blk).status == Ok && AfterTransactions(c, bad, t, blk, txs).status == Ok
    ensures var u := AddBlock(c, bad, t, blk, info, txs).t;
            && RemoveBlockRow(u) == AfterTransactions(c, bad, t, blk, txs)
            && u.blocks == t.blocks + [BlockRow(blk, info, c.blockHash(blk))]
  {
    hide AddTransaction, AddTransactions, RemoveBlockRow;
    var m := AfterMiner(c, bad, t, blk);
    var r := AfterTransactions(c, bad, t, blk, txs);
    AddTransactionRows(c, bad, t, c.txHash(blk.minerTx), blk.minerTx);
    AddTransactionsRows(c, bad, m.t, blk.txHashes, txs);
    UndoBlockRow(r.t, BlockRow(blk, info, c.blockHash(blk)));
  }

  /** Popping an invertible block restores every table and returns that same block and its
      transactions in reverse order. */
  lemma UndoBlock(c: Crypto, bad: set<PublicKey>, t: Tables, blk: Block, info: Info, txs: seq<Transaction>)
    requires AddBlock(c, bad, t, blk, info, txs).status == Ok && BlockInvertible(bad, blk, txs)
    ensures PopBlock(c, AddBlock(c, bad, t, blk, info, txs).t) == Popped(t, Ok, blk, Reversed(txs))
  {
    hide AddTransaction, AddTransactions, RemoveTransaction, PopTransactions, RemoveBlockRow, AddBlock, Invertible;
    AddedBlock(c, bad, t, blk, info, txs);
    UndoTransactions(c, bad, AfterMiner(c, bad, t, blk).t, blk.txHashes, txs);
    UndoTransaction(c, bad, t, c.txHash(blk.minerTx), blk.minerTx);
  }

  /** The blocks that validation admits are popped from every state: a coinbase transaction of version
      2 or later with a single generating input, any amounts and no burned key, and transactions
      with key inputs and zero amounts. */
  lemma OrdinaryBlockIsUndone(c: Crypto, bad: set<PublicKey>, t: Tables, blk: Block, info: Info, txs: seq<Transaction>)
    requires AddBlock(c, bad, t, blk, info, txs).status == Ok
    requires blk.minerTx.version >= 2 && |blk.minerTx.vin| == 1 && blk.minerTx.vin[0].Gen?
    requires forall l :: 0 <= l < |blk.minerTx.vout| && blk.minerTx.vout[l].target.OutToKey? ==>
               blk.minerTx.vout[l].target.key !in bad
    requires forall i, k :: 0 <= i < |txs| && 0 <= k < |txs[i].vin| ==> txs[i].vin[k].ToKey?
    requires forall i, l :: 0 <= i < |txs| && 0 <= l < |txs[i].vout| ==> txs[i].vout[l].amount == 0
    ensures PopBlock(c, AddBlock(c, bad, t, blk, info, txs).t) == Popped(t, Ok, blk, Reversed(txs))
  {
    hide AddBlock, PopBlock, Invertible;
    InvertibleIff(bad, blk.minerTx);
    forall i | 0 <= i < |txs| ensures Invertible(bad, txs[i]) {
      InvertibleIff(bad, txs[i]);
    }
    UndoBlock(c, bad, t, blk, info, txs);
  }

  lemma {:induction false} PopTransactionsKeepBlocks(t: Tables, hashes: seq<Hash>)
    ensures PopTransactions(t, hashes).t.blocks == t.blocks
    decreases |hashes|
  {
    hide RemoveTransaction;
    if hashes != [] {
      var hash := hashes[|hashes| - 1];
      RemoveTransactionKeepsBlocks(t, hash);
      PopTransactionsKeepBlocks(RemoveTransaction(t, hash).t, hashes[..|hashes| - 1]);
    }
  }

  /** From every state a successful pop removes the last block and nothing else from the list of
      blocks, and returns the block it removed. */
  lemma PopTakesTop(c: Crypto, t: Tables)
    requires PopBlock(c, t).status == Ok
    ensures t.blocks != []
    ensures var p := PopBlock(c, t); t.blocks == p.t.blocks + [t.blocks[|t.blocks| - 1]]
    ensures PopBlock(c, t).blk == t.blocks[|t.blocks| - 1].blk
  {
    hide RemoveTransaction, PopTransactions;
    var r, blk := RemoveBlockRow(t), PopBlock(c, t).blk;
    PopTransactionsKeepBlocks(r.t, blk.txHashes);
    RemoveTransactionKeepsBlocks(PopTransactions(r.t, blk.txHashes).t, c.txHash(blk.minerTx));
  }

  /** Popping a block without unsupported inputs that is not invertible does not succeed. */
  lemma StuckBlock(c: Crypto, bad: set<PublicKey>, t: Tables, blk: Block, info: Info, txs: seq<Transaction>)
    requires ZeroAmounts(t.outputAmounts) && AddBlock(c, bad, t, blk, info, txs).status == Ok
    requires Supported(blk.minerTx.vin) && AllSupported(txs) && !BlockInvertible(bad, blk, txs)
    ensures PopBlock(c, AddBlock(c, bad, t, blk, info, txs).t).status != Ok
  {
    hide AddTransaction, AddTransactions, RemoveTransaction, PopTransactions, RemoveBlockRow, AddBlock, Invertible;
    hide Supported, ZeroAmounts;
    AddedBlock(c, bad, t, blk, info, txs);
    var m := AfterMiner(c, bad, t, blk);
    AddTransactionRows(c, bad, t, c.txHash(blk.minerTx), blk.minerTx);
    if AllInvertible(bad, txs) {
      UndoTransactions(c, bad, m.t, blk.txHashes, txs);
      StuckTransaction(c, bad, t, c.txHash(blk.minerTx), blk.minerTx);
    } else {
      StuckTransactions(c, bad, m.t, blk.txHashes, txs);
    }
  }

  /** A block with an unsupported input is popped, if at all, into a store with fewer transactions. */
  lemma UnsupportedBlockLosesRows(c: Crypto, bad: set<PublicKey>, t: Tables, blk: Block, info: Info,
                                  txs: seq<Transaction>)
    requires AddBlock(c, bad, t, blk, info, txs).status == Ok
    requires !(Supported(blk.minerTx.vin) && AllSupported(txs))
    requires PopBlock(c, AddBlock(c, bad, t, blk, info, txs).t).status == Ok
    ensures |PopBlock(c, AddBlock(c, bad, t, blk, info, txs).t).t.txIndices| < |t.txIndices|
  {
    hide AddTransaction, AddTransactions, RemoveTransaction, PopTransactions, RemoveBlockRow, AddBlock, Supported;
    hide ZeroAmounts, AllSupported;
    AddedBlock(c, bad, t, blk, info, txs);
    var m, r := AfterMiner(c, bad, t, blk), AfterTransactions(c, bad, t, blk, txs);
    AddTransactionRows(c, bad, t, c.txHash(blk.minerTx), blk.minerTx);
    AddTransactionsRows(c, bad, m.t, blk.txHashes, txs);
    var p := PopTransactions(r.t, blk.txHashes);
    PopTransactionsRows(r.t, blk.txHashes);
    RemoveTransactionRows(p.t, c.txHash(blk.minerTx));
  }

  /** LIFO inverse, with its exact condition: whatever the tables hold under amount zero, popping a
      block that was just added restores every table if and only if all its transactions are
      invertible. */
  lemma BlockUndoneIff(c: Crypto, bad: set<PublicKey>, t: Tables, blk: Block, info: Info, txs: seq<Transaction>)
    requires ZeroAmounts(t.outputAmounts) && AddBlock(c, bad, t, blk, info, txs).status == Ok
    ensures var p := PopBlock(c, AddBlock(c, bad, t, blk, info, txs).t);
            (p.status == Ok && p.t == t) <==> BlockInvertible(bad, blk, txs)
  {
    hide AddBlock, PopBlock, Supported, AllSupported, ZeroAmounts;
    if BlockInvertible(bad, blk, txs) {
      UndoBlock(c, bad, t, blk, info, txs);
    } else if Supported(blk.minerTx.vin) && AllSupported(txs) {
      StuckBlock(c, bad, t, blk, info, txs);
    } else if PopBlock(c, AddBlock(c, bad, t, blk, info, txs).t).status == Ok {
      UnsupportedBlockLosesRows(c, bad, t, blk, info, txs);
    }
  }

  // ---- Reading past an index list ----

  /** Removing the transactions from the last to the first meets one that is partly skipped before
      any other that is not invertible. */
  predicate TransactionsReadPast(bad: set<PublicKey>, txs: seq<Transaction>) {
    txs != [] &&
    var last := txs[|txs| - 1];
    PartlySkips(bad, last) || (Invertible(bad, last) && TransactionsReadPast(bad, txs[..|txs| - 1]))
  }

  /** Popping the block reads past the index list of one of its transactions. */
  predicate BlockReadsPast(bad: set<PublicKey>, blk: Block, txs: seq<Transaction>) {
    TransactionsReadPast(bad, txs) || (AllInvertible(bad, txs) && PartlySkips(bad, blk.minerTx))
  }

  /** Inputs are supported and no transaction is abandoned. */
  predicate AllFiled(txs: seq<Transaction>) {
    forall i :: 0 <= i < |txs| ==> Supported(txs[i].vin) && !Abandoned(txs[i])
  }

  lemma PartlySkippingIsStuck(bad: set<PublicKey>, tx: Transaction)
    requires PartlySkips(bad, tx)
    ensures !Invertible(bad, tx)
  {
  }

  lemma {:induction false} PopReadsPastIff(c: Crypto, bad: set<PublicKey>, t: Tables, hashes: seq<Hash>,
                                           txs: seq<Transaction>)
    requires |hashes| == |txs| && AddTransactions(c, bad, t, hashes, txs).status == Ok
    requires ZeroAmounts(t.outputAmounts) && AllFiled(txs)
    ensures PopTransactions(AddTransactions(c, bad, t, hashes, txs).t, hashes).status == Undefined <==>
            TransactionsReadPast(bad, txs)
    decreases |txs|
  {
    hide AddTransaction, RemoveTransaction, Invertible, Supported, ZeroAmounts, PartlySkips, Abandoned;
    if txs != [] {
      var n := |txs| - 1;
      var r := AddTransactions(c, bad, t, hashes[..n], txs[..n]);
      AddTransactionsRows(c, bad, t, hashes[..n], txs[..n]);
      RemovalReadsPastIff(c, bad, r.t, hashes[n], txs[n]);
      if Invertible(bad, txs[n]) {
        UndoTransaction(c, bad, r.t, hashes[n], txs[n]);
        PopReadsPastIff(c, bad, t, hashes[..n], txs[..n]);
      } else {
        StuckTransaction(c, bad, r.t, hashes[n], txs[n]);
      }
    }
  }

  lemma {:induction false} ReadPastIsStuck(bad: set<PublicKey>, txs: seq<Transaction>)
    requires TransactionsReadPast(bad, txs)
    ensures !AllInvertible(bad, txs)
  {
    hide Invertible, PartlySkips;
    var n := |txs| - 1;
    if PartlySkips(bad, txs[n]) {
      PartlySkippingIsStuck(bad, txs[n]);
    } else {
      ReadPastIsStuck(bad, txs[..n]);
      assert forall i :: 0 <= i < n ==> txs[..n][i] == txs[i];
    }
  }

  /** Exactly when popping a block that was just added is undefined. */
  lemma BlockReadsPastIff(c: Crypto, bad: set<PublicKey>, t: Tables, blk: Block, info: Info, txs: seq<Transaction>)
    requires ZeroAmounts(t.outputAmounts) && AddBlock(c, bad, t, blk, info, txs).status == Ok
    requires AllFiled([blk.minerTx]) && AllFiled(txs)
    ensures PopBlock(c, AddBlock(c, bad, t, blk, info, txs).t).status == Undefined <==> BlockReadsPast(bad, blk, txs)
  {
    hide AddTransaction, AddTransactions, RemoveTransaction, PopTransactions, RemoveBlockRow, AddBlock;
    hide Invertible, Supported, ZeroAmounts, PartlySkips, Abandoned, TransactionsReadPast;
    AddedBlock(c, bad, t, blk, info, txs);
    var m := AfterMiner(c, bad, t, blk);
    var hash := c.txHash(blk.minerTx);
    AddTransactionRows(c, bad, t, hash, blk.minerTx);
    PopReadsPastIff(c, bad, m.t, blk.txHashes, txs);
    assert [blk.minerTx][0] == blk.minerTx;
    if AllInvertible(bad, txs) {
      UndoTransactions(c, bad, m.t, blk.txHashes, txs);
      RemovalReadsPastIff(c, bad, t, hash, blk.minerTx);
      if TransactionsReadPast(bad, txs) {
        ReadPastIsStuck(bad, txs);
      }
    } else {
      AllFiledIsSupported(txs);
      StuckTransactions(c, bad, m.t, blk.txHashes, txs);
    }
  }

  lemma AllFiledIsSupported(txs: seq<Transaction>)
    requires AllFiled(txs)
    ensures AllSupported(txs)
  {
  }

  // ---- Outputs stay under amount zero ----

  lemma {:induction false} PopTransactionsKeepZero(t: Tables, hashes: seq<Hash>)
    requires ZeroAmounts(t.outputAmounts)
    ensures ZeroAmounts(PopTransactions(t, hashes).t.outputAmounts)
    decreases |hashes|
  {
    hide RemoveTransaction, ZeroAmounts;
    if hashes != [] {
      var hash := hashes[|hashes| - 1];
      RemoveTransactionKeepsZero(t, hash);
      PopTransactionsKeepZero(RemoveTransaction(t, hash).t, hashes[..|hashes| - 1]);
    }
  }

  /** Every outcome of adding or popping any block, failures included, keeps outputs under amount zero. */
  lemma BlocksKeepZero(c: Crypto, bad: set<PublicKey>, t: Tables, blk: Block, info: Info, txs: seq<Transaction>)
    requires ZeroAmounts(t.outputAmounts)
    ensures ZeroAmounts(AddBlock(c, bad, t, blk, info, txs).t.outputAmounts)
    ensures ZeroAmounts(PopBlock(c, t).t.outputAmounts)
  {
    hide AddTransaction, AddTransactions, RemoveTransaction, PopTransactions, ZeroAmounts;
    if |blk.txHashes| == |txs| {
      AddTransactionRows(c, bad, t, c.txHash(blk.minerTx), blk.minerTx);
      AddTransactionsRows(c, bad, AfterMiner(c, bad, t, blk).t, blk.txHashes, txs);
    }
    var r := RemoveBlockRow(t);
    if r.status == Ok {
      var top := t.blocks[|t.blocks| - 1].blk;
      PopTransactionsKeepZero(r.t, top.txHashes);
      RemoveTransactionKeepsZero(PopTransactions(r.t, top.txHashes).t, c.txHash(top.minerTx));
    }
  }
}
