/** What adding one transaction writes, field by field and for every state of the store. */
module AddedOutputs {
  import opened CryptoNote
  import opened StoreTables
  import opened StoreOps
  import opened StoreInverse

  /** Index x of the store u is the row of output l, written at the given height. Beside a generating
      input the commitment is computed from the amount, otherwise it is the transaction's own. */
  ghost predicate Filed(c: Crypto, u: Tables, height: nat, hash: Hash, tx: Transaction, l: nat, x: nat) {
    && l < |tx.vout| && tx.vout[l].target.OutToKey?
    && Output(0, x) in u.outputAmounts
    && var row := u.outputAmounts[Output(0, x)];
       && row.outputId in u.outputTxs && u.outputTxs[row.outputId] == OutTx(hash, l)
       && row.pubkey == tx.vout[l].target.key && row.unlockTime == tx.unlockTime && row.height == height
       && (if exists i :: 0 <= i < |tx.vin| && tx.vin[i].Gen?
           then row.commitment == c.zeroCommit(tx.vout[l].amount)
           else l < |tx.outPk| && row.commitment == tx.outPk[l])
  }

  /** Output l gets no row: it goes to a burned key, beside a generating input. */
  ghost predicate LeftOut(bad: set<PublicKey>, tx: Transaction, l: nat)
    requires l < |tx.vout|
  {
    && (exists i :: 0 <= i < |tx.vin| && tx.vin[i].Gen?)
    && tx.vout[l].target.OutToKey? && tx.vout[l].target.key in bad
  }

  /** The indices are the next ones under amount zero, and lead in order to exactly the first n outputs
      that are not left out. */
  ghost predicate Listing(c: Crypto, bad: set<PublicKey>, t: Tables, u: Tables, hash: Hash, tx: Transaction, n: nat,
                          indices: seq<nat>, locals: seq<nat>)
    requires n <= |tx.vout|
  {
    && |locals| == |indices|
    && (forall k :: 0 <= k < |indices| ==> indices[k] == AmountCount(t, 0) + k)
    && (forall k :: 0 <= k < |indices| ==> Filed(c, u, |t.blocks|, hash, tx, locals[k], indices[k]))
    && (forall j, k :: 0 <= j < k < |locals| ==> locals[j] < locals[k])
    && (forall l :: 0 <= l < |tx.vout| ==> (l in locals <==> l < n && !LeftOut(bad, tx, l)))
  }

  /** The output rows of t are among those of u. */
  ghost predicate Keeps(t: Tables, u: Tables) {
    && (forall o :: o in t.outputAmounts ==> o in u.outputAmounts && u.outputAmounts[o] == t.outputAmounts[o])
    && (forall k :: k in t.outputTxs ==> k in u.outputTxs && u.outputTxs[k] == t.outputTxs[k])
  }

  lemma OneMoreOutput(t: Tables, hash: Hash, out: TxOut, local: nat, unlockTime: u64, commitment: Key)
    requires AddOutput(t, hash, out, local, unlockTime, commitment).status == Ok
    ensures var r := AddOutput(t, hash, out, local, unlockTime, commitment);
            var o := Output(0, r.index);
            && out.target.OutToKey?
            && r.index == AmountCount(t, 0) && AmountCount(r.t, 0) == r.index + 1
            && Keeps(t, r.t) && r.t.blocks == t.blocks
            && o in r.t.outputAmounts && r.t.outputAmounts[o].outputId in r.t.outputTxs
            && r.t.outputTxs[r.t.outputAmounts[o].outputId] == OutTx(hash, local)
            && r.t.outputAmounts[o] ==
               OutKey(r.t.outputAmounts[o].outputId, out.target.key, unlockTime, |t.blocks|, commitment)
  {
    var r := AddOutput(t, hash, out, local, unlockTime, commitment);
    var o := Output(0, r.index);
    assert o !in t.outputAmounts;
    assert (set p | p in r.t.outputAmounts && p.amount == 0) == (set p | p in t.outputAmounts && p.amount == 0) + {o};
  }

  lemma KeptOutputsStayFiled(c: Crypto, u: Tables, v: Tables, height: nat, hash: Hash, tx: Transaction, l: nat, x: nat)
    requires Filed(c, u, height, hash, tx, l, x) && Keeps(u, v)
    ensures Filed(c, v, height, hash, tx, l, x) && l < |tx.vout|
  {
  }

  /** The output loop writes the listing of the outputs it has passed, and keeps all earlier rows. */
  lemma {:induction false} LoopLists(c: Crypto, bad: set<PublicKey>, t: Tables, hash: Hash, tx: Transaction, n: nat)
    returns (locals: seq<nat>)
    requires n <= |tx.vout| && StoreOutputs(c, bad, t, hash, tx, n).Stored?
    ensures var s := StoreOutputs(c, bad, t, hash, tx, n);
            && Listing(c, bad, t, s.t, hash, tx, n, s.indices, locals)
            && Keeps(t, s.t) && s.t.blocks == t.blocks
            && AmountCount(s.t, 0) == AmountCount(t, 0) + |locals|
  {
    hide AddOutput, AmountCount;
    locals := [];
    if n > 0 {
      locals := LoopLists(c, bad, t, hash, tx, n - 1);
      var s := StoreOutputs(c, bad, t, hash, tx, n - 1);
      if !LeftOut(bad, tx, n - 1) {
        ListOneMore(c, bad, t, s.t, s.indices, hash, tx, n - 1, locals);
        locals := locals + [n - 1];
      }
    }
  }

  lemma KeepsOn(t: Tables, u: Tables, v: Tables)
    requires Keeps(t, u) && Keeps(u, v)
    ensures Keeps(t, v)
  {
  }

  lemma FileOne(c: Crypto, bad: set<PublicKey>, u: Tables, indices: seq<nat>, hash: Hash, tx: Transaction, n: nat)
    requires n < |tx.vout| && !LeftOut(bad, tx, n) && StoreOutput(c, bad, u, indices, hash, tx, n).Stored?
    ensures var s := StoreOutput(c, bad, u, indices, hash, tx, n);
            && s.indices == indices + [AmountCount(u, 0)]
            && Filed(c, s.t, |u.blocks|, hash, tx, n, AmountCount(u, 0))
            && Keeps(u, s.t) && s.t.blocks == u.blocks && AmountCount(s.t, 0) == AmountCount(u, 0) + 1
  {
    hide AddOutput, AmountCount;
    var out := tx.vout[n];
    if IsMiner(tx) {
      OneMoreOutput(u, hash, out.(amount := 0), n, tx.unlockTime, c.zeroCommit(out.amount));
    } else {
      OneMoreOutput(u, hash, out, n, tx.unlockTime, tx.outPk[n]);
    }
  }

  lemma ListOneMore(c: Crypto, bad: set<PublicKey>, t: Tables, u: Tables, indices: seq<nat>, hash: Hash,
                    tx: Transaction, n: nat, locals: seq<nat>)
    requires n < |tx.vout| && !LeftOut(bad, tx, n) && StoreOutput(c, bad, u, indices, hash, tx, n).Stored?
    requires Listing(c, bad, t, u, hash, tx, n, indices, locals)
    requires Keeps(t, u) && u.blocks == t.blocks && AmountCount(u, 0) == AmountCount(t, 0) + |locals|
    ensures var s := StoreOutput(c, bad, u, indices, hash, tx, n);
            && Listing(c, bad, t, s.t, hash, tx, n + 1, s.indices, locals + [n])
            && Keeps(t, s.t) && s.t.blocks == t.blocks
            && AmountCount(s.t, 0) == AmountCount(t, 0) + |locals| + 1
  {
    hide StoreOutput, AmountCount, LeftOut, Filed;
    var s := StoreOutput(c, bad, u, indices, hash, tx, n);
    FileOne(c, bad, u, indices, hash, tx, n);
    assert Keeps(t, s.t) by { KeepsOn(t, u, s.t); }
    forall k | 0 <= k < |indices|
      ensures Filed(c, s.t, |t.blocks|, hash, tx, locals[k], indices[k]) && locals[k] < |tx.vout|
    {
      KeptOutputsStayFiled(c, u, s.t, |t.blocks|, hash, tx, locals[k], indices[k]);
    }
    assert forall k :: 0 <= k < |locals| ==> locals[k] in locals;
  }

  lemma {:induction false} LoopKeeps(c: Crypto, bad: set<PublicKey>, t: Tables, hash: Hash, tx: Transaction, n: nat)
    requires n <= |tx.vout|
    ensures Keeps(t, StoreOutputs(c, bad, t, hash, tx, n).t)
  {
    hide StoreOutput;
    if n > 0 {
      LoopKeeps(c, bad, t, hash, tx, n - 1);
      var s := StoreOutputs(c, bad, t, hash, tx, n - 1);
      if s.Stored? {
        StoreKeeps(c, bad, s.t, s.indices, hash, tx, n - 1);
      }
    }
  }

  lemma AddKeeps(t: Tables, hash: Hash, out: TxOut, local: nat, unlockTime: u64, commitment: Key)
    ensures Keeps(t, AddOutput(t, hash, out, local, unlockTime, commitment).t)
  {
  }

  lemma StoreKeeps(c: Crypto, bad: set<PublicKey>, t: Tables, indices: seq<nat>, hash: Hash, tx: Transaction, i: nat)
    requires i < |tx.vout|
    ensures Keeps(t, StoreOutput(c, bad, t, indices, hash, tx, i).t)
  {
    hide AddOutput;
    var out := tx.vout[i];
    if IsMiner(tx) {
      AddKeeps(t, hash, out.(amount := 0), i, tx.unlockTime, c.zeroCommit(out.amount));
    } else if i < |tx.outPk| {
      AddKeeps(t, hash, out, i, tx.unlockTime, tx.outPk[i]);
    }
  }

  lemma ListingMoves(c: Crypto, bad: set<PublicKey>, d: Tables, v: Tables, t: Tables, u: Tables, hash: Hash,
                     tx: Transaction, indices: seq<nat>, locals: seq<nat>)
    requires Listing(c, bad, d, v, hash, tx, |tx.vout|, indices, locals)
    requires SameOutputs(d, t) && SameOutputs(u, v) && d.blocks == t.blocks
    ensures Listing(c, bad, t, u, hash, tx, |tx.vout|, indices, locals)
  {
    hide LeftOut;
    assert forall k :: 0 <= k < |indices| ==> Filed(c, u, |t.blocks|, hash, tx, locals[k], indices[k]);
  }

  /** A transaction without unsupported inputs that was added has its row and, if all its amounts are
      zero or it has a generating input, the list of exactly its outputs that are not left out. */
  lemma AddedTransaction(c: Crypto, bad: set<PublicKey>, t: Tables, hash: Hash, tx: Transaction)
    requires AddTransaction(c, bad, t, hash, tx).status == Ok
    requires forall i :: 0 <= i < |tx.vin| ==> tx.vin[i].Gen? || tx.vin[i].ToKey?
    ensures var u := AddTransaction(c, bad, t, hash, tx).t;
            && u.blocks == t.blocks && u.blockHeights == t.blockHeights && Keeps(t, u)
            && hash !in t.txIndices && u.txIndices == t.txIndices[hash := TxIndex(|t.txs|, tx.unlockTime, |t.blocks|)]
            && |t.txs| !in t.txs && u.txs == t.txs[|t.txs| := tx]
            && ((exists i :: 0 <= i < |tx.vin| && tx.vin[i].Gen?) ||
                (forall l :: 0 <= l < |tx.vout| ==> tx.vout[l].amount == 0) ==>
                  && |t.txs| in u.txOutputs && u.txOutputs == t.txOutputs[|t.txs| := u.txOutputs[|t.txs|]]
                  && exists locals :: Listing(c, bad, t, u, hash, tx, |tx.vout|, u.txOutputs[|t.txs|], locals))
  {
    hide AddTransaction, StoreOutputs, Images, Listing, Keeps, AmountCount;
    AddedShape(c, bad, t, hash, tx);
    AddTransactionFrame(c, bad, t, hash, tx);
    var d := Prepared(t, hash, tx);
    var s := StoreOutputs(c, bad, d, hash, tx, |tx.vout|);
    StoreOutputsFrame(c, bad, d, hash, tx, |tx.vout|);
    StopsAtNonZero(c, bad, d, hash, tx, |tx.vout|);
    LoopKeeps(c, bad, d, hash, tx, |tx.vout|);
    var u := AddTransaction(c, bad, t, hash, tx).t;
    assert Keeps(t, u) by { KeepsMoves(d, s.t, t, u); }
    if s.Stored? {
      var locals := LoopLists(c, bad, d, hash, tx, |tx.vout|);
      ListingMoves(c, bad, d, s.t, t, u, hash, tx, s.indices, locals);
    } else {
      NonZeroMeans(tx);
    }
  }

  lemma KeepsMoves(d: Tables, v: Tables, t: Tables, u: Tables)
    requires Keeps(d, v) && SameOutputs(d, t) && SameOutputs(u, v)
    ensures Keeps(t, u)
  {
  }

  lemma NonZeroMeans(tx: Transaction)
    requires !IsMiner(tx) && !RemovalAmountsZero(tx, |tx.vout|)
    ensures forall i :: 0 <= i < |tx.vin| ==> !tx.vin[i].Gen?
    ensures exists l :: 0 <= l < |tx.vout| && tx.vout[l].amount != 0
  {
    PseudoIsMined(tx);
  }
}
