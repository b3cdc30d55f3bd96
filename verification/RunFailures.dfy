/** What failures leave behind, for every run: malformed blocks and failures inside batches included. */
module RunFailures {
  import opened CryptoNote
  import opened StoreTables
  import opened StoreOps
  import opened StoreInverse
  import opened BlockInverse
  import opened ChainView
  import opened StoreRuns

  predicate BlockOp(op: Op) {
    op.Add? || op.Pop?
  }

  lemma RunNext(c: Crypto, db: Db, ops: seq<Op>, op: Op)
    ensures Run(c, db, ops + [op]) ==
            var r := Run(c, db, ops); if r.Lost? then Lost else Apply(c, r.db, op)
  {
    assert (ops + [op])[..|ops|] == ops;
  }

  // ---- Failures outside batches ----

  /** A block operation that fails outside a batch. */
  predicate FailsAlone(c: Crypto, db: Db, op: Op) {
    BlockOp(op) && !db.batch && var r := Apply(c, db, op); r.Done? && r.status != Ok
  }

  /** The run without the block operations that fail outside batches. */
  function Effective(c: Crypto, db: Db, ops: seq<Op>): seq<Op> {
    if ops == [] then []
    else
      var init, op := ops[..|ops| - 1], ops[|ops| - 1];
      var r := Run(c, db, init);
      Effective(c, db, init) + (if r.Done? && FailsAlone(c, r.db, op) then [] else [op])
  }

  predicate SameStore(a: Outcome, b: Outcome) {
    if a.Lost? then b.Lost? else b.Done? && a.db == b.db
  }

  lemma AloneChangesNothing(c: Crypto, db: Db, op: Op)
    requires FailsAlone(c, db, op)
    ensures Apply(c, db, op).db == db
  {
    hide AddBlock, PopBlock;
  }

  /** Failures outside batches leave no trace: every run ends in the same store as the run without
      them. */
  lemma {:induction false} FailuresLeaveNoTrace(c: Crypto, db: Db, ops: seq<Op>)
    ensures SameStore(Run(c, db, ops), Run(c, db, Effective(c, db, ops)))
  {
    hide Apply, FailsAlone;
    if ops != [] {
      var init, op := ops[..|ops| - 1], ops[|ops| - 1];
      FailuresLeaveNoTrace(c, db, init);
      var r := Run(c, db, init);
      if r.Done? && FailsAlone(c, r.db, op) {
        AloneChangesNothing(c, r.db, op);
        FailureIsDefined(c, r.db, op);
        assert Effective(c, db, ops) == Effective(c, db, init);
      } else {
        RunNext(c, db, Effective(c, db, init), op);
      }
    }
  }

  lemma FailureIsDefined(c: Crypto, db: Db, op: Op)
    requires FailsAlone(c, db, op)
    ensures Apply(c, db, op).Done?
  {
  }

  // ---- Commits ----

  /** The operation writes to the committed tables. */
  predicate Commits(db: Db, op: Op, status: Status) {
    match op
    case Fixup(_, _) => !db.readOnly
    case BatchStop => db.batch
    case BatchStart => false
    case BatchAbort => false
    case _ => !db.batch && status == Ok
  }

  /** Nothing in the run commits. */
  predicate CommitsNothing(c: Crypto, db: Db, ops: seq<Op>) {
    ops != [] ==>
      var r := Run(c, db, ops[..|ops| - 1]);
      && CommitsNothing(c, db, ops[..|ops| - 1])
      && (r.Done? ==> var s := Apply(c, r.db, ops[|ops| - 1]); s.Done? ==> !Commits(r.db, ops[|ops| - 1], s.status))
  }

  lemma EnvMovesAtCommits(c: Crypto, db: Db, op: Op)
    ensures var r := Apply(c, db, op); r.Done? && !Commits(db, op, r.status) ==> r.db.env == db.env
  {
    hide AddBlock, PopBlock;
  }

  /** What is committed changes only at a successful block operation outside a batch, at the end of a
      batch, or at a fixup; whatever else happens in a run, and however it fails. */
  lemma {:induction false} OnlyCommitsCount(c: Crypto, db: Db, ops: seq<Op>)
    requires CommitsNothing(c, db, ops)
    ensures Run(c, db, ops).Done? ==> Run(c, db, ops).db.env == db.env
  {
    hide Apply, Commits;
    if ops != [] {
      OnlyCommitsCount(c, db, ops[..|ops| - 1]);
      var r := Run(c, db, ops[..|ops| - 1]);
      if r.Done? {
        EnvMovesAtCommits(c, r.db, ops[|ops| - 1]);
      }
    }
  }

  // ---- Batches ----

  predicate AllBlockOps(ops: seq<Op>) {
    forall i :: 0 <= i < |ops| ==> BlockOp(ops[i])
  }

  lemma BatchStaysOpen(c: Crypto, db: Db, op: Op)
    requires db.batch && BlockOp(op)
    ensures var r := Apply(c, db, op);
            r.Done? ==> r.db.env == db.env && r.db.batch && r.db.bad == db.bad && r.db.readOnly == db.readOnly
  {
    hide AddBlock, PopBlock;
  }

  lemma {:induction false} InsideBatch(c: Crypto, db: Db, ops: seq<Op>)
    requires !db.batch && !db.readOnly && AllBlockOps(ops)
    ensures var r := Run(c, db, [BatchStart] + ops);
            r.Done? ==> r.db.env == db.env && r.db.batch && r.db.bad == db.bad && r.db.readOnly == db.readOnly
  {
    if ops == [] {
      RunNext(c, db, [], BatchStart);
      assert [] + [BatchStart] == [BatchStart] + ops;
    } else {
      var init, op := ops[..|ops| - 1], ops[|ops| - 1];
      InsideBatch(c, db, init);
      assert [BatchStart] + ops == ([BatchStart] + init) + [op];
      RunNext(c, db, [BatchStart] + init, op);
      var r := Run(c, db, [BatchStart] + init);
      if r.Done? {
        BatchStaysOpen(c, r.db, op);
      }
    }
  }

  /** An aborted batch leaves no trace, whatever was added, popped or failed in it. */
  lemma AbortedBatchLeavesNoTrace(c: Crypto, db: Db, ops: seq<Op>)
    requires !db.batch && !db.readOnly && db.view == db.env && AllBlockOps(ops)
    ensures var r := Run(c, db, ([BatchStart] + ops) + [BatchAbort]); r.Done? ==> r.db == db
  {
    hide Run;
    InsideBatch(c, db, ops);
    RunNext(c, db, [BatchStart] + ops, BatchAbort);
  }

  // ---- Popping in every reachable state ----

  ghost predicate ZeroIn(db: Db) {
    ZeroAmounts(db.env.outputAmounts) && ZeroAmounts(db.view.outputAmounts)
  }

  lemma ApplyKeepsZero(c: Crypto, db: Db, op: Op)
    requires ZeroIn(db)
    ensures Apply(c, db, op).Done? ==> ZeroIn(Apply(c, db, op).db)
  {
    hide AddBlock, PopBlock, ZeroAmounts;
    if op.Add? {
      BlocksKeepZero(c, db.bad, db.view, op.blk, op.info, op.txs);
    } else if op.Pop? {
      BlocksKeepZero(c, db.bad, db.view, NULL_BLOCK, Info(0, 0, 0), []);
    }
  }

  lemma {:induction false} RunKeepsZero(c: Crypto, db: Db, ops: seq<Op>)
    requires ZeroIn(db)
    ensures Run(c, db, ops).Done? ==> ZeroIn(Run(c, db, ops).db)
  {
    hide Apply, ZeroIn;
    if ops != [] {
      RunKeepsZero(c, db, ops[..|ops| - 1]);
      var r := Run(c, db, ops[..|ops| - 1]);
      if r.Done? {
        ApplyKeepsZero(c, r.db, ops[|ops| - 1]);
      }
    }
  }

  /** LIFO inverse in every state reachable by any run whatever: popping a block that was just added
      restores every table if and only if all its transactions are invertible. */
  lemma ReachableBlockUndoneIff(c: Crypto, ops: seq<Op>, blk: Block, info: Info, txs: seq<Transaction>)
    requires Run(c, EMPTY_DB, ops).Done?
    requires var db := Run(c, EMPTY_DB, ops).db; AddBlock(c, db.bad, db.view, blk, info, txs).status == Ok
    ensures var db := Run(c, EMPTY_DB, ops).db;
            var p := PopBlock(c, AddBlock(c, db.bad, db.view, blk, info, txs).t);
            (p.status == Ok && p.t == db.view) <==> BlockInvertible(db.bad, blk, txs)
  {
    hide Run, AddBlock, PopBlock, BlockInvertible;
    RunKeepsZero(c, EMPTY_DB, ops);
    var db := Run(c, EMPTY_DB, ops).db;
    BlockUndoneIff(c, db.bad, db.view, blk, info, txs);
  }

  // ---- A failed addition inside a batch ----

  /** Supported inputs store no image at all if and only if there is none, or the first is a repetition. */
  lemma {:induction false} NothingStoredIff(keys: set<KeyImage>, vin: seq<TxIn>)
    requires Supported(vin)
    ensures var s, images := Spend(keys, vin), ImageList(vin);
            && !s.Unsupported? && keys <= s.keys
            && (s.keys == keys <==> images == [] || images[0] in keys)
            && (images != [] && images[0] in keys ==> s.Duplicate?)
            && (images == [] ==> s.Spent?)
  {
    if vin != [] {
      var init, last := vin[..|vin| - 1], vin[|vin| - 1];
      assert last.Gen? || last.ToKey?;
      NothingStoredIff(keys, init);
      hide Supported;
      var s := Spend(keys, init);
      if s.Spent? && last.ToKey? && last.kImage !in s.keys {
        assert last.kImage in Spend(keys, vin).keys;
      }
    }
  }

  /** Adding the block fails before anything is written: the sizes disagree, or the coinbase
      transaction starts with a stored image, or it has no images and is itself stored. */
  predicate FailsFirst(c: Crypto, t: Tables, blk: Block, txs: seq<Transaction>) {
    |blk.txHashes| != |txs| ||
    var images := ImageList(blk.minerTx.vin);
    if images == [] then c.txHash(blk.minerTx) in t.txIndices else images[0] in t.spentKeys
  }

  lemma FirstFailureIsClean(c: Crypto, bad: set<PublicKey>, t: Tables, blk: Block, info: Info, txs: seq<Transaction>)
    requires Supported(blk.minerTx.vin) && FailsFirst(c, t, blk, txs)
    ensures AddBlock(c, bad, t, blk, info, txs).t == t
  {
    hide Spend, FinishTransaction, AddTransactions, Supported;
    NothingStoredIff(t.spentKeys, blk.minerTx.vin);
  }

  /** Once the coinbase transaction has stored an image or its row, the tables stay changed. */
  lemma LaterFailureIsNot(c: Crypto, bad: set<PublicKey>, t: Tables, blk: Block, info: Info, txs: seq<Transaction>)
    requires Supported(blk.minerTx.vin) && !FailsFirst(c, t, blk, txs)
    ensures AddBlock(c, bad, t, blk, info, txs).t != t
  {
    hide AddTransactions, Supported;
    var hash, m := c.txHash(blk.minerTx), AfterMiner(c, bad, t, blk);
    MinerLeavesTrace(c, bad, t, hash, blk.minerTx);
    hide AddTransaction;
    if m.status == Ok {
      AddTransactionsRows(c, bad, m.t, blk.txHashes, txs);
    }
  }

  lemma MinerLeavesTrace(c: Crypto, bad: set<PublicKey>, t: Tables, hash: Hash, tx: Transaction)
    requires Supported(tx.vin)
    requires var images := ImageList(tx.vin); if images == [] then hash !in t.txIndices else images[0] !in t.spentKeys
    ensures var r := AddTransaction(c, bad, t, hash, tx);
            if r.status == Ok then hash !in t.txIndices && hash in r.t.txIndices else r.t != t
  {
    hide Spend, FinishTransaction, Supported, Images;
    NothingStoredIff(t.spentKeys, tx.vin);
    var s := Spend(t.spentKeys, tx.vin);
    if s.Spent? {
      FinishFrame(c, bad, AddTransactionData(t.(spentKeys := s.keys), tx, hash).t, |t.txs|, hash, tx);
    }
  }

  /** Exactly when a failed addition inside a batch leaves no trace: if it fails before anything is
      written. Otherwise closing the batch commits the leftovers. */
  lemma FailureInBatchIsCleanIff(c: Crypto, db: Db, op: Op)
    requires op.Add? && db.batch && !db.readOnly && Supported(op.blk.minerTx.vin)
    requires Apply(c, db, op).Done? && Apply(c, db, op).status != Ok
    ensures var r := Run(c, db, [op, BatchStop]);
            r.Done? && (r.db.env == db.view <==> FailsFirst(c, db.view, op.blk, op.txs))
  {
    hide AddBlock, FailsFirst, Supported;
    RunNext(c, db, [], op);
    RunNext(c, db, [op], BatchStop);
    assert [] + [op] == [op] && [op] + [BatchStop] == [op, BatchStop];
    if |op.blk.txHashes| != |op.txs| {
      SizesFailFirst(c, db.view, op.blk, op.txs);
    } else if FailsFirst(c, db.view, op.blk, op.txs) {
      FirstFailureIsClean(c, db.bad, db.view, op.blk, op.info, op.txs);
    } else {
      LaterFailureIsNot(c, db.bad, db.view, op.blk, op.info, op.txs);
    }
  }

  lemma SizesFailFirst(c: Crypto, t: Tables, blk: Block, txs: seq<Transaction>)
    requires |blk.txHashes| != |txs|
    ensures FailsFirst(c, t, blk, txs)
  {
  }
}
