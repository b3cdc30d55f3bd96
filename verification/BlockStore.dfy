/** The store as an object that updates its tables in place, with the block-level transactions,
    batches and rollbacks of the LMDB backend. */
module BlockStore {
  import opened CryptoNote
  import opened StoreTables
  import opened StoreRuns
  import Ops = StoreOps
  import Tbl = StoreTables
  import Inverse = StoreInverse
  import Blocks = BlockInverse
  import opened ChainView

  /** The loop over the inputs ends as soon as it leaves the spending state. */
  lemma {:induction false} SpendStops(keys: set<KeyImage>, vin: seq<TxIn>, k: nat)
    requires k <= |vin| && !Ops.Spend(keys, vin[..k]).Spent?
    ensures Ops.Spend(keys, vin) == Ops.Spend(keys, vin[..k])
    decreases |vin|
  {
    if k == |vin| {
      assert vin[..k] == vin;
    } else {
      var init := vin[..|vin| - 1];
      assert init[..k] == vin[..k];
      SpendStops(keys, init, k);
    }
  }

  lemma SpendNone(keys: set<KeyImage>)
    ensures Ops.Spend(keys, []) == Ops.Spent(keys)
  {
  }

  lemma SpendNext(keys: set<KeyImage>, vin: seq<TxIn>, k: nat)
    requires k < |vin| && Ops.Spend(keys, vin[..k]).Spent?
    ensures var s := Ops.Spend(keys, vin[..k]);
            Ops.Spend(keys, vin[..k + 1]) ==
            match vin[k] {
              case ToKey(_, _, ki) => if ki in s.keys then Ops.Duplicate(s.keys) else Ops.Spent(s.keys + {ki})
              case Gen(_) => s
              case _ => Ops.Unsupported(s.keys)
            }
  {
    assert vin[..k + 1][..k] == vin[..k];
  }

  lemma {:induction false} AddingStops(c: Crypto, bad: set<PublicKey>, t: Tables, hashes: seq<Hash>,
                                       txs: seq<Transaction>, k: nat)
    requires |hashes| == |txs| && k <= |txs| && Ops.AddTransactions(c, bad, t, hashes[..k], txs[..k]).status != Ok
    ensures Ops.AddTransactions(c, bad, t, hashes, txs) == Ops.AddTransactions(c, bad, t, hashes[..k], txs[..k])
    decreases |txs|
  {
    if k == |txs| {
      assert hashes[..k] == hashes && txs[..k] == txs;
    } else {
      var n := |txs| - 1;
      assert hashes[..n][..k] == hashes[..k] && txs[..n][..k] == txs[..k];
      AddingStops(c, bad, t, hashes[..n], txs[..n], k);
    }
  }

  class BlockchainDb {
    const crypto: Crypto
    const readOnly: bool
    var env: Tables               // what is committed
    var view: Tables              // what the write transaction sees
    var writing: bool             // a write transaction exists
    var batch: bool               // it is a batch
    var badOutpks: set<PublicKey>

    constructor (crypto: Crypto, readOnly: bool)
      ensures Idle() && this.crypto == crypto && State() == Db(EMPTY_TABLES, EMPTY_TABLES, false, {}, readOnly)
    {
      this.crypto, this.readOnly := crypto, readOnly;
      env, view, writing, batch, badOutpks := EMPTY_TABLES, EMPTY_TABLES, false, false, {};
    }

    ghost function State(): Db
      reads this
    {
      Db(env, view, batch, badOutpks, readOnly)
    }

    /** Between two operations. */
    ghost predicate Idle()
      reads this
    {
      (writing <==> batch) && (!batch ==> view == env) && (readOnly ==> !batch)
    }

    // ---- Primitive writes ----

    method AddSpentKey(ki: KeyImage) returns (status: Status)
      requires writing
      modifies this`view
      ensures status == (if ki in old(view).spentKeys then KeyImageExists else Ok)
      ensures view == (if status == Ok then old(view).(spentKeys := old(view).spentKeys + {ki}) else old(view))
    {
      if ki in view.spentKeys {
        return KeyImageExists;
      }
      view := view.(spentKeys := view.spentKeys + {ki});
      status := Ok;
    }

    method RemoveSpentKey(ki: KeyImage)
      requires writing
      modifies this`view
      ensures view == old(view).(spentKeys := old(view).spentKeys - {ki})
    {
      view := view.(spentKeys := view.spentKeys - {ki});
    }

    method RemoveSpentKeys(vin: seq<TxIn>)
      requires writing
      modifies this`view
      ensures view == old(view).(spentKeys := old(view).spentKeys - Ops.Images(vin))
    {
      for k := 0 to |vin|
        invariant view == old(view).(spentKeys := old(view).spentKeys - Ops.Images(vin[..k]))
      {
        Inverse.ImagesGrow(vin[..k + 1]);
        assert vin[..k + 1][..k] == vin[..k];
        if vin[k].ToKey? {
          RemoveSpentKey(vin[k].kImage);
        }
      }
      assert vin[..|vin|] == vin;
    }

    method AddTransactionData(tx: Transaction, hash: Hash) returns (status: Status, id: nat)
      requires writing
      modifies this`view
      ensures Step(view, status) == Tbl.AddTransactionData(old(view), tx, hash)
      ensures id == |old(view).txs|
    {
      id := |view.txs|;
      if hash in view.txIndices {
        return TxExists, id;
      }
      view := view.(txIndices := view.txIndices[hash := TxIndex(id, tx.unlockTime, |view.blocks|)]);
      if !Appends(view.txs, id) {
        return DbError, id;
      }
      view := view.(txs := view.txs[id := tx]);
      status := Ok;
    }

    method AddOutput(hash: Hash, out: TxOut, local: nat, unlockTime: u64, commitment: Key)
      returns (status: Status, index: nat)
      requires writing
      modifies this`view
      ensures Added(view, status, index) == Tbl.AddOutput(old(view), hash, out, local, unlockTime, commitment)
    {
      var height, id := |view.blocks|, |view.outputTxs|;
      index := 0;
      if out.amount != 0 || !out.target.OutToKey? || !Appends(view.outputTxs, id) {
        return DbError, 0;
      }
      view := view.(outputTxs := view.outputTxs[id := OutTx(hash, local)]);
      var count := AmountCount(view, out.amount);
      if !AppendsAmount(view, out.amount, count) {
        return DbError, 0;
      }
      var row := OutKey(id, out.target.key, unlockTime, height, commitment);
      view := view.(outputAmounts := view.outputAmounts[Output(out.amount, count) := row]);
      status, index := Ok, count;
    }

    method AddTxAmountOutputIndices(id: nat, indices: seq<nat>) returns (status: Status)
      requires writing
      modifies this`view
      ensures Step(view, status) == AddIndices(old(view), id, indices)
    {
      if !Appends(view.txOutputs, id) {
        return DbError;
      }
      view := view.(txOutputs := view.txOutputs[id := indices]);
      status := Ok;
    }

    method RemoveOutput(amount: u64, index: nat) returns (status: Status)
      requires writing
      modifies this`view
      ensures Step(view, status) == Tbl.RemoveOutput(old(view), amount, index)
    {
      var o := Output(amount, index);
      if o !in view.outputAmounts {
        return OutputMissing;
      }
      var id := view.outputAmounts[o].outputId;
      if id !in view.outputTxs {
        return DbError;
      }
      view := view.(outputTxs := view.outputTxs - {id});
      view := view.(outputAmounts := view.outputAmounts - {o});
      status := Ok;
    }

    method RemoveTxOutputs(id: nat, tx: Transaction) returns (status: Status)
      requires writing
      modifies this`view
      ensures Step(view, status) == Tbl.RemoveTxOutputs(old(view), id, tx)
    {
      if id !in view.txOutputs {
        return Undefined;
      }
      var indices := view.txOutputs[id];
      if indices == [] && tx.vout != [] {
        return DbError;
      }
      var i := |tx.vout|;
      while i > 0
        invariant 0 <= i <= |tx.vout|
        invariant RemoveOutputs(old(view), tx, indices, |tx.vout|) == RemoveOutputs(view, tx, indices, i)
      {
        i := i - 1;
        if i >= |indices| {
          return Undefined;
        }
        var amount := if PseudoRct(tx) then 0 else tx.vout[i].amount;
        status := RemoveOutput(amount, indices[i]);
        if status != Ok {
          return;
        }
      }
      status := Ok;
    }

    method RemoveTransactionData(hash: Hash, tx: Transaction) returns (status: Status)
      requires writing
      modifies this`view
      ensures Step(view, status) == Tbl.RemoveTransactionData(old(view), hash, tx)
    {
      if hash !in view.txIndices {
        return TxMissing;
      }
      var id := view.txIndices[hash].txId;
      if id !in view.txs {
        return DbError;
      }
      view := view.(txs := view.txs - {id});
      status := RemoveTxOutputs(id, tx);
      if status != Ok {
        return;
      }
      view := view.(txOutputs := view.txOutputs - {id});
      view := view.(txIndices := view.txIndices - {hash});
    }

    method AddBlockRow(blk: Block, info: Info, hash: Hash) returns (status: Status)
      requires writing
      modifies this`view
      ensures Step(view, status) == Tbl.AddBlockRow(old(view), BlockRow(blk, info, hash))
    {
      var height := |view.blocks|;
      if hash in view.blockHeights {
        return BlockExists;
      }
      if height > 0 {
        if blk.prevId !in view.blockHeights {
          return DbError;
        }
        if view.blockHeights[blk.prevId] != height - 1 {
          return ParentMissing;
        }
      }
      view := view.(blocks := view.blocks + [BlockRow(blk, info, hash)]);
      view := view.(blockHeights := view.blockHeights[hash := height]);
      status := Ok;
    }

    method RemoveBlock() returns (status: Status)
      requires writing
      modifies this`view
      ensures Step(view, status) == RemoveBlockRow(old(view))
    {
      var height := |view.blocks|;
      if height == 0 {
        return BlockMissing;
      }
      var hash := view.blocks[height - 1].hash;
      if hash !in view.blockHeights {
        return DbError;
      }
      view := view.(blockHeights := view.blockHeights - {hash});
      view := view.(blocks := view.blocks[..height - 1]);
      status := Ok;
    }

    // ---- Transactions ----

    /** The loop over the inputs. `done` tells that the addition ends here. */
    method SpendInputs(tx: Transaction) returns (status: Status, miner: bool, done: bool)
      requires writing
      modifies this`view
      ensures var s := Ops.Spend(old(view).spentKeys, tx.vin);
              && done == !s.Spent?
              && status == (if s.Duplicate? then KeyImageExists else Ok)
              && view == old(view).(spentKeys := if s.Unsupported? then s.keys - Ops.Images(tx.vin) else s.keys)
              && (!done ==> miner == Ops.IsMiner(tx))
    {
      hide Ops.Images, Ops.Spend;
      SpendNone(view.spentKeys);
      miner := false;
      ghost var keys := view.spentKeys;
      for k := 0 to |tx.vin|
        invariant view == old(view).(spentKeys := view.spentKeys)
        invariant Ops.Spend(keys, tx.vin[..k]) == Ops.Spent(view.spentKeys)
        invariant miner <==> exists i :: 0 <= i < k && tx.vin[i].Gen?
      {
        SpendNext(keys, tx.vin, k);
        match tx.vin[k] {
          case ToKey(_, _, ki) =>
            status := AddSpentKey(ki);
            if status != Ok {
              SpendStops(keys, tx.vin, k + 1);
              return status, miner, true;
            }
          case Gen(_) =>
            miner := true;
          case _ =>
            SpendStops(keys, tx.vin, k + 1);
            RemoveSpentKeys(tx.vin);
            return Ok, miner, true;
        }
      }
      assert tx.vin[..|tx.vin|] == tx.vin;
      status, done := Ok, false;
    }

    /** The loop over the outputs. `done` tells that the addition ends here. */
    method StoreTxOutputs(hash: Hash, tx: Transaction, miner: bool)
      returns (status: Status, indices: seq<nat>, done: bool)
      requires writing && miner == Ops.IsMiner(tx)
      modifies this`view
      ensures match Ops.StoreOutputs(crypto, badOutpks, old(view), hash, tx, |tx.vout|)
              case Stored(u, xs) => !done && view == u && indices == xs
              case Failed(u, e) => done && view == u && status == e
              case NonZero(u) => done && status == Ok && view == u.(spentKeys := u.spentKeys - Ops.Images(tx.vin))
    {
      hide Tbl.AddOutput;
      indices := [];
      var i := 0;
      while i < |tx.vout|
        invariant 0 <= i <= |tx.vout|
        invariant Ops.StoreOutputs(crypto, badOutpks, old(view), hash, tx, i) == Ops.Stored(view, indices)
      {
        var out := tx.vout[i];
        var index;
        if miner {
          var commitment := crypto.zeroCommit(out.amount);
          if Ops.IsBad(badOutpks, out) {
            i := i + 1;
            continue;
          }
          status, index := AddOutput(hash, out.(amount := 0), i, tx.unlockTime, commitment);
        } else {
          if out.amount != 0 {
            Inverse.StoringStops(crypto, badOutpks, old(view), hash, tx, i + 1, |tx.vout|);
            RemoveSpentKeys(tx.vin);
            return Ok, indices, true;
          }
          if i >= |tx.outPk| {
            Inverse.StoringStops(crypto, badOutpks, old(view), hash, tx, i + 1, |tx.vout|);
            return Undefined, indices, true;
          }
          status, index := AddOutput(hash, out, i, tx.unlockTime, tx.outPk[i]);
        }
        if status != Ok {
          Inverse.StoringStops(crypto, badOutpks, old(view), hash, tx, i + 1, |tx.vout|);
          return status, indices, true;
        }
        indices := indices + [index];
        i := i + 1;
      }
      status, done := Ok, false;
    }

    method AddTransaction(hash: Hash, tx: Transaction) returns (status: Status)
      requires writing
      modifies this`view
      ensures Step(view, status) == Ops.AddTransaction(crypto, badOutpks, old(view), hash, tx)
    {
      var miner, done;
      status, miner, done := SpendInputs(tx);
      if done {
        return;
      }
      var id;
      status, id := AddTransactionData(tx, hash);
      if status != Ok {
        return;
      }
      var indices;
      status, indices, done := StoreTxOutputs(hash, tx, miner);
      if done {
        return;
      }
      status := AddTxAmountOutputIndices(id, indices);
    }

    method GetTx(hash: Hash) returns (status: Status, txs: seq<Transaction>)
      ensures status == (if HasTx(view, hash) then Ok else TxMissing)
      ensures txs == (if HasTx(view, hash) then [TxOf(view, hash)] else [])
    {
      if HasTx(view, hash) {
        return Ok, [TxOf(view, hash)];
      }
      return TxMissing, [];
    }

    method RemoveTransaction(hash: Hash) returns (status: Status)
      requires writing
      modifies this`view
      ensures Step(view, status) == Ops.RemoveTransaction(old(view), hash)
    {
      var found;
      status, found := GetTx(hash);
      if status != Ok {
        return;
      }
      var tx := found[0];
      RemoveSpentKeys(tx.vin);
      status := RemoveTransactionData(hash, tx);
    }

    // ---- Block-level transactions and batches ----

    method BlockTxnStart() returns (status: Status)
      modifies this`view, this`writing
      ensures status == (if batch || (!old(writing) && !readOnly) then Ok else TxnStart)
      ensures status == Ok ==> writing == (old(writing) || !batch) && view == (if batch then old(view) else env)
      ensures status != Ok ==> writing == old(writing) && view == old(view)
    {
      if !batch {
        if writing || readOnly {
          return TxnStart;
        }
        writing := true;
        view := env;
      }
      status := Ok;
    }

    method BlockTxnStop()
      modifies this`env, this`writing
      ensures env == (if old(writing) && !batch then view else old(env))
      ensures writing == (old(writing) && batch)
    {
      if writing {
        if !batch {
          env := view;
          writing := false;
        }
      }
    }

    /** Rolls the write transaction back; inside a batch this does nothing. */
    method BlockTxnAbort()
      modifies this`view, this`writing
      ensures view == (if old(writing) && !batch then env else old(view))
      ensures writing == (old(writing) && batch)
    {
      if writing {
        if !batch {
          view := env;
          writing := false;
        }
      }
    }

    /** The part of adding a block that runs inside a write transaction. */
    method AddBlockContents(blk: Block, info: Info, txs: seq<Transaction>) returns (status: Status)
      requires writing && |blk.txHashes| == |txs|
      modifies this`view
      ensures Step(view, status) == Ops.AddBlock(crypto, badOutpks, old(view), blk, info, txs)
    {
      hide Ops.AddTransaction, Tbl.AddBlockRow;
      var hash := crypto.blockHash(blk);
      status := AddTransaction(crypto.txHash(blk.minerTx), blk.minerTx);
      if status != Ok {
        return;
      }
      ghost var start := view;
      for i := 0 to |txs|
        invariant Ops.AddTransactions(crypto, badOutpks, start, blk.txHashes[..i], txs[..i]) == Step(view, Ok)
      {
        assert blk.txHashes[..i + 1][..i] == blk.txHashes[..i] && txs[..i + 1][..i] == txs[..i];
        status := AddTransaction(blk.txHashes[i], txs[i]);
        if status != Ok {
          AddingStops(crypto, badOutpks, start, blk.txHashes, txs, i + 1);
          return;
        }
      }
      assert blk.txHashes[..|txs|] == blk.txHashes && txs[..|txs|] == txs;
      status := AddBlockRow(blk, info, hash);
    }

    /** The backend-independent addition of a block: on success it commits and returns the height
        before the addition, on failure it leaves the write transaction open. */
    method AddBlockBase(blk: Block, info: Info, txs: seq<Transaction>) returns (status: Status, prevHeight: nat)
      requires Idle()
      modifies this`env, this`view, this`writing
      ensures |blk.txHashes| != |txs| ==> status == SizeMismatch && unchanged(this)
      ensures |blk.txHashes| == |txs| && readOnly ==> status == TxnStart && unchanged(this)
      ensures |blk.txHashes| == |txs| && !readOnly ==>
              var r := Ops.AddBlock(crypto, badOutpks, old(view), blk, info, txs);
              && status == r.status
              && (status != Undefined ==> view == r.t)
              && (status == Ok ==>
                    writing == batch && env == (if batch then old(env) else view) && prevHeight == |old(view).blocks|)
              && (status != Ok && status != Undefined ==> writing && env == old(env))
    {
      hide Ops.AddBlock;
      prevHeight := 0;
      if |blk.txHashes| != |txs| {
        return SizeMismatch, 0;
      }
      status := BlockTxnStart();
      if status != Ok {
        return;
      }
      prevHeight := |view.blocks|;
      status := AddBlockContents(blk, info, txs);
      if status != Ok {
        return;
      }
      BlockTxnStop();
    }

    /** Adding a block: one step of the store, rolled back on failure; returns the new height. After
        an out-of-range read nothing is promised. */
    method AddBlock(blk: Block, info: Info, txs: seq<Transaction>) returns (status: Status, height: nat)
      requires Idle()
      modifies this`env, this`view, this`writing
      ensures status == Undefined <==> Apply(crypto, old(State()), Add(blk, info, txs)).Lost?
      ensures status != Undefined ==>
              Idle() && Done(State(), status) == Apply(crypto, old(State()), Add(blk, info, txs))
      ensures status == Ok ==> height == |old(view).blocks| + 1
      ensures status == Ok ==> view.blocks == old(view).blocks + [BlockRow(blk, info, crypto.blockHash(blk))]
    {
      hide Ops.AddBlock;
      height := |view.blocks|;
      var prevHeight;
      status, prevHeight := AddBlockBase(blk, info, txs);
      if status == TxnStart && readOnly {
        return;  // no write transaction was opened, so there is nothing to abort
      }
      if status != Ok {
        BlockTxnAbort();
        return;
      }
      Blocks.AddedBlock(crypto, badOutpks, old(view), blk, info, txs);
      height := height + 1;
    }

    method GetTopBlock() returns (blk: Block)
      ensures blk == (if view.blocks == [] then NULL_BLOCK else view.blocks[|view.blocks| - 1].blk)
    {
      if |view.blocks| != 0 {
        return view.blocks[|view.blocks| - 1].blk;
      }
      return NULL_BLOCK;
    }

    /** The part of popping a block that runs inside a write transaction. */
    method PopBlockContents() returns (status: Status, blk: Block, txs: seq<Transaction>)
      requires writing
      modifies this`view
      ensures Ops.Popped(view, status, blk, txs) == Ops.PopBlock(crypto, old(view))
    {
      hide Ops.RemoveTransaction;
      txs := [];
      blk := GetTopBlock();
      status := RemoveBlock();
      if status != Ok {
        return;
      }
      ghost var start := view;
      var i := |blk.txHashes|;
      assert blk.txHashes[..i] == blk.txHashes;
      assert Popping(start, blk.txHashes, view, blk.txHashes, []) by {
        assert [] + Ops.PopTransactions(start, blk.txHashes).txs == Ops.PopTransactions(start, blk.txHashes).txs;
      }
      while i > 0
        invariant 0 <= i <= |blk.txHashes|
        invariant Popping(start, blk.txHashes, view, blk.txHashes[..i], txs)
      {
        i := i - 1;
        var hash := blk.txHashes[i];
        assert blk.txHashes[..i + 1][..i] == blk.txHashes[..i];
        var found;
        status, found := GetTx(hash);
        if status != Ok {
          NotStored(view, hash);
          return;
        }
        txs := txs + found;
        status := RemoveTransaction(hash);
        if status != Ok {
          return;
        }
      }
      status := RemoveTransaction(crypto.txHash(blk.minerTx));
    }

    /** Popping a block: one step of the store, rolled back on failure. After an out-of-range read
        nothing is promised. The block handed back is the last one, which a successful pop removes. */
    method PopBlock() returns (status: Status, blk: Block, txs: seq<Transaction>)
      requires Idle()
      modifies this`env, this`view, this`writing
      ensures status == Undefined <==> Apply(crypto, old(State()), Pop).Lost?
      ensures status != Undefined ==> Idle() && Done(State(), status) == Apply(crypto, old(State()), Pop)
      ensures status != Undefined && !readOnly ==>
              blk == Ops.PopBlock(crypto, old(view)).blk && txs == Ops.PopBlock(crypto, old(view)).txs
      ensures status == Ok ==> old(view).blocks != [] && blk == old(view).blocks[|old(view).blocks| - 1].blk
      ensures status == Ok ==> view.blocks == old(view).blocks[..|old(view).blocks| - 1]
    {
      hide Ops.PopBlock;
      blk, txs := NULL_BLOCK, [];
      status := BlockTxnStart();
      if status != Ok {
        return;
      }
      status, blk, txs := PopBlockContents();
      if status == Ok {
        Blocks.PopTakesTop(crypto, old(view));
        BlockTxnStop();
      } else {
        BlockTxnAbort();
      }
    }

    method StartBatch() returns (status: Status, started: bool)
      requires Idle()
      modifies this`view, this`writing, this`batch
      ensures Idle()
      ensures Done(State(), status) == Apply(crypto, old(State()), BatchStart)
      ensures started == (status == Ok && !old(batch))
    {
      if batch {
        return Ok, false;
      }
      if readOnly {
        return DbError, false;
      }
      writing, batch, view := true, true, env;
      return Ok, true;
    }

    method StopBatch() returns (status: Status)
      requires Idle()
      modifies this`env, this`writing, this`batch
      ensures Idle()
      ensures Done(State(), status) == Apply(crypto, old(State()), BatchStop)
    {
      if !batch {
        return DbError;
      }
      env, writing, batch := view, false, false;
      status := Ok;
    }

    method AbortBatch() returns (status: Status)
      requires Idle()
      modifies this`view, this`writing, this`batch
      ensures Idle()
      ensures Done(State(), status) == Apply(crypto, old(State()), BatchAbort)
    {
      if !batch {
        return DbError;
      }
      view, writing, batch := env, false, false;
      status := Ok;
    }

    /** Records the burned public keys and stores the missing key images of a list. */
    method FixUp(badOuts: seq<PublicKey>, images: seq<KeyImage>)
      requires Idle()
      modifies this
      ensures Idle()
      ensures State() == Apply(crypto, old(State()), Fixup(badOuts, images)).db
      ensures forall k :: k in badOutpks <==> k in old(badOutpks) || k in badOuts
      ensures !readOnly ==>
              env == old(view).(spentKeys := env.spentKeys) &&
              forall ki :: ki in env.spentKeys <==> ki in old(view).spentKeys || ki in images
    {
      for i := 0 to |badOuts|
        invariant badOutpks == old(badOutpks) + Elements(badOuts[..i])
        invariant view == old(view) && env == old(env) && writing == old(writing) && batch == old(batch)
      {
        assert badOuts[..i + 1] == badOuts[..i] + [badOuts[i]];
        badOutpks := badOutpks + {badOuts[i]};
      }
      assert badOuts[..|badOuts|] == badOuts;
      if readOnly {
        return;
      }
      var status, started := StartBatch();
      ghost var keys := view.spentKeys;
      for i := 0 to |images|
        invariant writing && batch && env == old(env) && badOutpks == old(badOutpks) + Elements(badOuts)
        invariant view == old(view).(spentKeys := keys + Elements(images[..i]))
      {
        assert images[..i + 1] == images[..i] + [images[i]];
        if images[i] !in view.spentKeys {
          status := AddSpentKey(images[i]);
        }
      }
      assert images[..|images|] == images;
      status := StopBatch();
    }
  }

  lemma NotStored(t: Tables, hash: Hash)
    requires !HasTx(t, hash)
    ensures Ops.RemoveTransaction(t, hash) == Step(t, TxMissing)
  {
  }

  /** What is left to pop continues what has been popped. */
  ghost predicate Popping(start: Tables, all: seq<Hash>, now: Tables, left: seq<Hash>, txs: seq<Transaction>) {
    var rest := Ops.PopTransactions(now, left);
    Ops.PopTransactions(start, all) == Ops.Removed(rest.t, rest.status, txs + rest.txs)
  }
}
