/** When popping a block undoes adding it, for every state of the store. */
module StoreInverse {
  import opened CryptoNote
  import opened StoreTables
  import opened StoreOps

  // ---- What a caller can check about a transaction ----

  predicate Supported(vin: seq<TxIn>) {
    forall i :: 0 <= i < |vin| ==> vin[i].Gen? || vin[i].ToKey?
  }

  /** Some output of a mined transaction is one of the burned public keys, so that it gets no row. */
  predicate Skips(bad: set<PublicKey>, tx: Transaction, n: nat)
    requires n <= |tx.vout|
  {
    IsMiner(tx) && exists i :: 0 <= i < n && IsBad(bad, tx.vout[i])
  }

  /** Every output is filed and looked up under amount zero. */
  predicate RemovalAmountsZero(tx: Transaction, n: nat)
    requires n <= |tx.vout|
  {
    forall i :: 0 <= i < n ==> RemovalAmount(tx, i) == 0
  }

  /** The transactions whose addition can be taken back. */
  predicate Invertible(bad: set<PublicKey>, tx: Transaction) {
    Supported(tx.vin) && !Skips(bad, tx, |tx.vout|) && RemovalAmountsZero(tx, |tx.vout|)
  }

  /** A mined transaction with burned and other outputs has fewer indices than outputs, but some. */
  predicate PartlySkips(bad: set<PublicKey>, tx: Transaction) {
    && (exists i :: 0 <= i < |tx.vin| && tx.vin[i].Gen?)
    && (exists l :: 0 <= l < |tx.vout| && tx.vout[l].target.OutToKey? && tx.vout[l].target.key in bad)
    && (exists l :: 0 <= l < |tx.vout| && !(tx.vout[l].target.OutToKey? && tx.vout[l].target.key in bad))
  }

  /** The position of the first output with a nonzero amount, or the number of outputs. */
  function FirstNonZero(vout: seq<TxOut>): (n: nat)
    ensures n <= |vout| && forall i :: 0 <= i < n ==> vout[i].amount == 0
    ensures n < |vout| ==> vout[n].amount != 0
  {
    if vout == [] || vout[0].amount != 0 then 0 else 1 + FirstNonZero(vout[1..])
  }

  /** The transactions that are abandoned, without an error, after their row was written. */
  predicate Abandoned(tx: Transaction) {
    !IsMiner(tx) && FirstNonZero(tx.vout) < |tx.vout|
  }

  /** The invertible transactions, field by field: all inputs are generating or key inputs; beside a
      generating input no output goes to a burned key; and all amounts are zero, unless the
      transaction has version 2 or later and a generating input as its only one. */
  lemma InvertibleIff(bad: set<PublicKey>, tx: Transaction)
    ensures Invertible(bad, tx) <==>
            && (forall i :: 0 <= i < |tx.vin| ==> tx.vin[i].Gen? || tx.vin[i].ToKey?)
            && ((exists i :: 0 <= i < |tx.vin| && tx.vin[i].Gen?) ==>
                forall l :: 0 <= l < |tx.vout| && tx.vout[l].target.OutToKey? ==> tx.vout[l].target.key !in bad)
            && ((forall l :: 0 <= l < |tx.vout| ==> tx.vout[l].amount == 0) ||
                (tx.version >= 2 && |tx.vin| == 1 && tx.vin[0].Gen?))
  {
    if tx.version >= 2 && |tx.vin| == 1 && tx.vin[0].Gen? {
      assert forall l :: 0 <= l < |tx.vout| ==> RemovalAmount(tx, l) == 0;
    } else {
      assert forall l :: 0 <= l < |tx.vout| ==> RemovalAmount(tx, l) == tx.vout[l].amount;
    }
  }

  /** All outputs are filed under amount zero. */
  predicate ZeroAmounts(outs: map<Output, OutKey>) {
    forall o :: o in outs ==> o.amount == 0
  }

  // ---- Inputs ----

  lemma {:induction false} SpendOutcome(keys: set<KeyImage>, vin: seq<TxIn>)
    ensures var s := Spend(keys, vin);
            && keys <= s.keys <= keys + Images(vin)
            && (s.Spent? ==> Supported(vin) && keys !! Images(vin) && s.keys == keys + Images(vin))
            && (s.Unsupported? ==> !Supported(vin))
  {
    if vin != [] {
      var init, last := vin[..|vin| - 1], vin[|vin| - 1];
      SpendOutcome(keys, init);
      ImagesGrow(vin);
    }
  }

  lemma ImagesGrow(vin: seq<TxIn>)
    requires vin != []
    ensures var init, last := vin[..|vin| - 1], vin[|vin| - 1];
            Images(vin) == Images(init) + (if last.ToKey? then {last.kImage} else {})
  {
    var init, last := vin[..|vin| - 1], vin[|vin| - 1];
    assert vin == init + [last];
    forall k | k in Images(init) ensures k in Images(vin) {
      var i :| 0 <= i < |init| && init[i].ToKey? && init[i].kImage == k;
      assert vin[i].kImage == k;
    }
    assert last.ToKey? ==> vin[|init|].kImage in Images(vin);
  }

  /** An unsupported input makes the store drop every key image of the transaction, including
      those behind it that were never added. The store is left as it was exactly when none of the
      transaction's key images was stored before. */
  lemma RollbackIsExactIff(c: Crypto, bad: set<PublicKey>, t: Tables, hash: Hash, tx: Transaction)
    requires Spend(t.spentKeys, tx.vin).Unsupported?
    ensures var r := AddTransaction(c, bad, t, hash, tx);
            && r == Step(t.(spentKeys := t.spentKeys - Images(tx.vin)), Ok)
            && (r.t == t <==> t.spentKeys !! Images(tx.vin))
  {
    SpendOutcome(t.spentKeys, tx.vin);
  }

  // ---- Outputs ----

  /** w holds the same output rows as t. */
  ghost predicate SameOutputs(w: Tables, t: Tables) {
    w.outputTxs == t.outputTxs && w.outputAmounts == t.outputAmounts
  }

  function WithOutputs(w: Tables, t: Tables): Tables {
    w.(outputTxs := t.outputTxs, outputAmounts := t.outputAmounts)
  }

  lemma UndoOutput(t: Tables, hash: Hash, out: TxOut, local: nat, unlockTime: u64, commitment: Key, w: Tables)
    requires AddOutput(t, hash, out, local, unlockTime, commitment).status == Ok
    requires SameOutputs(w, AddOutput(t, hash, out, local, unlockTime, commitment).t)
    ensures var r := AddOutput(t, hash, out, local, unlockTime, commitment);
            RemoveOutput(w, 0, r.index) == Step(WithOutputs(w, t), Ok)
  {
    var r := AddOutput(t, hash, out, local, unlockTime, commitment);
    var id := |t.outputTxs|;
    var o := Output(0, r.index);
    assert id !in t.outputTxs && o !in t.outputAmounts;
    PutRemove(t.outputTxs, id, OutTx(hash, local));
    PutRemove(t.outputAmounts, o, r.t.outputAmounts[o]);
  }

  lemma PutRemove<K, V>(m: map<K, V>, k: K, v: V)
    requires k !in m
    ensures (m[k := v]) - {k} == m
  {
  }

  lemma {:induction false} IndexCount(c: Crypto, bad: set<PublicKey>, t: Tables, hash: Hash, tx: Transaction, n: nat)
    requires n <= |tx.vout| && StoreOutputs(c, bad, t, hash, tx, n).Stored?
    ensures var s := StoreOutputs(c, bad, t, hash, tx, n);
            && |s.indices| <= n
            && (|s.indices| == n <==> !Skips(bad, tx, n))
            && (|s.indices| == 0 <==> forall i :: 0 <= i < n ==> IsMiner(tx) && IsBad(bad, tx.vout[i]))
  {
    hide AddOutput;
    if n > 0 {
      IndexCount(c, bad, t, hash, tx, n - 1);
    }
  }

  /** Removing the outputs in reverse order takes back exactly what storing them added. */
  lemma {:induction false} UndoOutputs(c: Crypto, bad: set<PublicKey>, t: Tables, hash: Hash, tx: Transaction, n: nat,
                                       w: Tables, indices: seq<nat>)
    requires n <= |tx.vout| && StoreOutputs(c, bad, t, hash, tx, n).Stored?
    requires !Skips(bad, tx, n) && RemovalAmountsZero(tx, n)
    requires SameOutputs(w, StoreOutputs(c, bad, t, hash, tx, n).t)
    requires StoreOutputs(c, bad, t, hash, tx, n).indices <= indices
    ensures RemoveOutputs(w, tx, indices, n) == Step(WithOutputs(w, t), Ok)
  {
    hide AddOutput, RemoveOutput;
    if n > 0 {
      var s := StoreOutputs(c, bad, t, hash, tx, n - 1);
      IndexCount(c, bad, t, hash, tx, n - 1);
      IndexCount(c, bad, t, hash, tx, n);
      var out := tx.vout[n - 1];
      if IsMiner(tx) {
        UndoOutput(s.t, hash, out.(amount := 0), n - 1, tx.unlockTime, c.zeroCommit(out.amount), w);
      } else {
        UndoOutput(s.t, hash, out, n - 1, tx.unlockTime, tx.outPk[n - 1], w);
      }
      UndoOutputs(c, bad, t, hash, tx, n - 1, WithOutputs(w, s.t), indices);
    }
  }

  lemma {:induction false} NonZeroBlocksRemoval(w: Tables, tx: Transaction, indices: seq<nat>, n: nat)
    requires n <= |tx.vout| && ZeroAmounts(w.outputAmounts) && !RemovalAmountsZero(tx, n)
    ensures RemoveOutputs(w, tx, indices, n).status != Ok
    decreases n
  {
    if n - 1 < |indices| && RemovalAmount(tx, n - 1) == 0 {
      var r := RemoveOutput(w, 0, indices[n - 1]);
      if r.status == Ok {
        NonZeroBlocksRemoval(r.t, tx, indices, n - 1);
      }
    }
  }

  /** Storing outputs touches the two output tables only, and files everything under amount zero. */
  lemma AddOutputFrame(t: Tables, hash: Hash, out: TxOut, local: nat, unlockTime: u64, commitment: Key)
    ensures var r := AddOutput(t, hash, out, local, unlockTime, commitment);
            r.t == WithOutputs(t, r.t) && (ZeroAmounts(t.outputAmounts) ==> ZeroAmounts(r.t.outputAmounts))
  {
  }

  lemma StoreOutputFrame(c: Crypto, bad: set<PublicKey>, t: Tables, indices: seq<nat>, hash: Hash, tx: Transaction,
                         i: nat)
    requires i < |tx.vout|
    ensures var s := StoreOutput(c, bad, t, indices, hash, tx, i);
            && s.t == WithOutputs(t, s.t)
            && (ZeroAmounts(t.outputAmounts) ==> ZeroAmounts(s.t.outputAmounts))
            && (s.Failed? ==> s.status != Ok)
  {
    hide AddOutput;
    var out := tx.vout[i];
    if IsMiner(tx) {
      AddOutputFrame(t, hash, out.(amount := 0), i, tx.unlockTime, c.zeroCommit(out.amount));
    } else if i < |tx.outPk| {
      AddOutputFrame(t, hash, out, i, tx.unlockTime, tx.outPk[i]);
    }
  }

  lemma {:induction false} StoreOutputsFrame(c: Crypto, bad: set<PublicKey>, t: Tables, hash: Hash,
                                             tx: Transaction, n: nat)
    requires n <= |tx.vout|
    ensures var s := StoreOutputs(c, bad, t, hash, tx, n);
            && s.t == WithOutputs(t, s.t)
            && (ZeroAmounts(t.outputAmounts) ==> ZeroAmounts(s.t.outputAmounts))
            && (s.Failed? ==> s.status != Ok)
  {
    hide StoreOutput, ZeroAmounts;
    if n > 0 {
      StoreOutputsFrame(c, bad, t, hash, tx, n - 1);
      var s := StoreOutputs(c, bad, t, hash, tx, n - 1);
      if s.Stored? {
        StoreOutputFrame(c, bad, s.t, s.indices, hash, tx, n - 1);
      }
    }
  }

  lemma PseudoIsMined(tx: Transaction)
    ensures PseudoRct(tx) ==> IsMiner(tx)
  {
    assert PseudoRct(tx) ==> tx.vin[0].Gen?;
  }

  /** The loop stops early exactly at a nonzero amount of a transaction that is not mined. */
  lemma {:induction false} StopsAtNonZero(c: Crypto, bad: set<PublicKey>, t: Tables, hash: Hash, tx: Transaction,
                                          n: nat)
    requires n <= |tx.vout|
    ensures var s := StoreOutputs(c, bad, t, hash, tx, n);
            && (s.NonZero? ==> !IsMiner(tx) && !RemovalAmountsZero(tx, n))
            && (s.Stored? ==> IsMiner(tx) || RemovalAmountsZero(tx, n))
  {
    hide AddOutput;
    if n > 0 {
      StopsAtNonZero(c, bad, t, hash, tx, n - 1);
      PseudoIsMined(tx);
      assert !IsMiner(tx) ==> RemovalAmount(tx, n - 1) == tx.vout[n - 1].amount;
    }
  }

  // ---- Transactions ----

  /** The store once the key images and the row of a transaction are written. */
  function Prepared(t: Tables, hash: Hash, tx: Transaction): Tables {
    t.(spentKeys := t.spentKeys + Images(tx.vin),
       txIndices := t.txIndices[hash := TxIndex(|t.txs|, tx.unlockTime, |t.blocks|)],
       txs := t.txs[|t.txs| := tx])
  }

  /** The tables behind a supported transaction that was added. */
  lemma AddedShape(c: Crypto, bad: set<PublicKey>, t: Tables, hash: Hash, tx: Transaction)
    requires AddTransaction(c, bad, t, hash, tx).status == Ok && Supported(tx.vin)
    ensures t.spentKeys !! Images(tx.vin) && hash !in t.txIndices && Appends(t.txs, |t.txs|)
    ensures var s := StoreOutputs(c, bad, Prepared(t, hash, tx), hash, tx, |tx.vout|);
            var u := AddTransaction(c, bad, t, hash, tx).t;
            && (s.NonZero? || s.Stored?)
            && (s.NonZero? ==> u == s.t.(spentKeys := s.t.spentKeys - Images(tx.vin)))
            && (s.Stored? ==>
                Appends(s.t.txOutputs, |t.txs|) && u == s.t.(txOutputs := s.t.txOutputs[|t.txs| := s.indices]))
  {
    hide StoreOutputs;
    SpendOutcome(t.spentKeys, tx.vin);
    StoreOutputsFrame(c, bad, Prepared(t, hash, tx), hash, tx, |tx.vout|);
  }

  /** The loop over the outputs ends as soon as it leaves the storing state. */
  lemma {:induction false} StoringStops(c: Crypto, bad: set<PublicKey>, t: Tables, hash: Hash, tx: Transaction,
                                        k: nat, n: nat)
    requires k <= n <= |tx.vout| && !StoreOutputs(c, bad, t, hash, tx, k).Stored?
    ensures StoreOutputs(c, bad, t, hash, tx, n) == StoreOutputs(c, bad, t, hash, tx, k)
    decreases n
  {
    if k < n {
      StoringStops(c, bad, t, hash, tx, k, n - 1);
    }
  }

  /** Outputs stored for a transaction that is not mined: local index j gets the j-th new identifier. */
  ghost predicate StoredFrom(before: map<nat, OutTx>, after: map<nat, OutTx>, hash: Hash, n: nat) {
    && |after| == |before| + n
    && (forall k :: k in before ==> k in after && after[k] == before[k])
    && (forall k :: |before| <= k < |before| + n ==> k in after && after[k] == OutTx(hash, k - |before|))
  }

  lemma StoredOneMore(before: map<nat, OutTx>, after: map<nat, OutTx>, hash: Hash, n: nat)
    requires StoredFrom(before, after, hash, n) && |after| !in after
    ensures StoredFrom(before, after[|after| := OutTx(hash, n)], hash, n + 1)
  {
  }

  lemma {:induction false} StoredOneByOne(c: Crypto, bad: set<PublicKey>, t: Tables, hash: Hash, tx: Transaction,
                                          n: nat)
    requires n <= |tx.vout| && !IsMiner(tx) && StoreOutputs(c, bad, t, hash, tx, n).Stored?
    ensures StoredFrom(t.outputTxs, StoreOutputs(c, bad, t, hash, tx, n).t.outputTxs, hash, n)
  {
    hide AddOutput, StoredFrom;
    assert n == 0 ==> StoredFrom(t.outputTxs, t.outputTxs, hash, 0) by { NothingStored(t.outputTxs, hash); }
    if n > 0 {
      StoredOneByOne(c, bad, t, hash, tx, n - 1);
      var s, out := StoreOutputs(c, bad, t, hash, tx, n - 1), tx.vout[n - 1];
      NextIdentifier(s.t, hash, out, n - 1, tx.unlockTime, tx.outPk[n - 1]);
      StoredOneMore(t.outputTxs, s.t.outputTxs, hash, n - 1);
    }
  }

  lemma NothingStored(before: map<nat, OutTx>, hash: Hash)
    ensures StoredFrom(before, before, hash, 0)
  {
  }

  lemma NextIdentifier(t: Tables, hash: Hash, out: TxOut, local: nat, unlockTime: u64, commitment: Key)
    ensures var r := AddOutput(t, hash, out, local, unlockTime, commitment);
            r.status == Ok ==>
              && |t.outputTxs| !in t.outputTxs
              && r.t.outputTxs == t.outputTxs[|t.outputTxs| := OutTx(hash, local)]
  {
  }

  /** An abandoned transaction has stored exactly its outputs before the first nonzero amount. */
  lemma AbandonedOutputs(c: Crypto, bad: set<PublicKey>, t: Tables, hash: Hash, tx: Transaction)
    requires StoreOutputs(c, bad, t, hash, tx, |tx.vout|).NonZero? && Abandoned(tx)
    ensures var s := StoreOutputs(c, bad, t, hash, tx, |tx.vout|);
            StoredFrom(t.outputTxs, s.t.outputTxs, hash, FirstNonZero(tx.vout))
  {
    hide AddOutput, StoredFrom;
    var k := FirstNonZero(tx.vout);
    StopsAtNonZero(c, bad, t, hash, tx, k);
    PseudoIsMined(tx);
    var s := StoreOutputs(c, bad, t, hash, tx, k);
    assert RemovalAmountsZero(tx, k);
    if !s.Stored? {
      StoringStops(c, bad, t, hash, tx, k, |tx.vout|);
    }
    StoredOneByOne(c, bad, t, hash, tx, k);
    assert StoreOutputs(c, bad, t, hash, tx, k + 1) == NonZero(s.t);
    StoringStops(c, bad, t, hash, tx, k + 1, |tx.vout|);
  }

  /** Exactly when a supported transaction that was added without an error has no index list: if it
      is not mined and has a nonzero amount. Its key images are then released again, while its row
      and its outputs before the first nonzero amount stay behind. */
  lemma AbandonedIff(c: Crypto, bad: set<PublicKey>, t: Tables, hash: Hash, tx: Transaction)
    requires AddTransaction(c, bad, t, hash, tx).status == Ok && Supported(tx.vin)
    ensures var u := AddTransaction(c, bad, t, hash, tx).t;
            var abandoned := (forall i :: 0 <= i < |tx.vin| ==> !tx.vin[i].Gen?) &&
                             (exists l :: 0 <= l < |tx.vout| && tx.vout[l].amount != 0);
            && (u.txOutputs == t.txOutputs <==> abandoned)
            && HasTx(u, hash) && TxOf(u, hash) == tx
            && u.spentKeys == (if abandoned then t.spentKeys else t.spentKeys + Images(tx.vin))
            && (abandoned ==> StoredFrom(t.outputTxs, u.outputTxs, hash, FirstNonZero(tx.vout)))
  {
    assert Abandoned(tx) <==> (forall i :: 0 <= i < |tx.vin| ==> !tx.vin[i].Gen?) &&
                              (exists l :: 0 <= l < |tx.vout| && tx.vout[l].amount != 0);
    hide AddTransaction, StoreOutputs, Images, Supported, StoredFrom, Abandoned, IsMiner, RemovalAmountsZero;
    AddedShape(c, bad, t, hash, tx);
    var d, n := Prepared(t, hash, tx), |tx.vout|;
    StoreOutputsFrame(c, bad, d, hash, tx, n);
    StopsAtNonZero(c, bad, d, hash, tx, n);
    AbandonedMeansNonZero(tx);
    if StoreOutputs(c, bad, d, hash, tx, n).NonZero? {
      AbandonedOutputs(c, bad, d, hash, tx);
    } else {
      assert |t.txs| !in t.txOutputs;
      assert |t.txs| in AddTransaction(c, bad, t, hash, tx).t.txOutputs;
    }
  }

  lemma AbandonedMeansNonZero(tx: Transaction)
    ensures Abandoned(tx) <==> !IsMiner(tx) && !RemovalAmountsZero(tx, |tx.vout|)
  {
    PseudoIsMined(tx);
    var k := FirstNonZero(tx.vout);
    assert !IsMiner(tx) && k < |tx.vout| ==> RemovalAmount(tx, k) != 0;
  }

  lemma UndoTransaction(c: Crypto, bad: set<PublicKey>, t: Tables, hash: Hash, tx: Transaction)
    requires AddTransaction(c, bad, t, hash, tx).status == Ok && Invertible(bad, tx)
    ensures var u := AddTransaction(c, bad, t, hash, tx).t;
            HasTx(u, hash) && TxOf(u, hash) == tx && RemoveTransaction(u, hash) == Step(t, Ok)
  {
    hide AddTransaction, StoreOutputs, RemoveOutputs;
    AddedShape(c, bad, t, hash, tx);
    var d, id := Prepared(t, hash, tx), |t.txs|;
    var s := StoreOutputs(c, bad, d, hash, tx, |tx.vout|);
    StoreOutputsFrame(c, bad, d, hash, tx, |tx.vout|);
    StopsAtNonZero(c, bad, d, hash, tx, |tx.vout|);
    IndexCount(c, bad, d, hash, tx, |tx.vout|);
    var u := AddTransaction(c, bad, t, hash, tx).t;
    var w := u.(spentKeys := u.spentKeys - Images(tx.vin), txs := u.txs - {id});
    UndoOutputs(c, bad, d, hash, tx, |tx.vout|, w, s.indices);
    RestoresRows(t, hash, tx, s.indices);
    assert u.spentKeys - Images(tx.vin) == t.spentKeys;
  }

  lemma RestoresRows(t: Tables, hash: Hash, tx: Transaction, indices: seq<nat>)
    requires hash !in t.txIndices && Appends(t.txs, |t.txs|) && Appends(t.txOutputs, |t.txs|)
    ensures (t.txs[|t.txs| := tx]) - {|t.txs|} == t.txs
    ensures (t.txOutputs[|t.txs| := indices]) - {|t.txs|} == t.txOutputs
    ensures (t.txIndices[hash := TxIndex(|t.txs|, tx.unlockTime, |t.blocks|)]) - {hash} == t.txIndices
  {
    PutRemove(t.txs, |t.txs|, tx);
    PutRemove(t.txOutputs, |t.txs|, indices);
    PutRemove(t.txIndices, hash, TxIndex(|t.txs|, tx.unlockTime, |t.blocks|));
  }

  /** The tables from which the outputs of a transaction are removed. */
  function Unrowed(u: Tables, id: nat, tx: Transaction): Tables {
    u.(spentKeys := u.spentKeys - Images(tx.vin), txs := u.txs - {id})
  }

  /** Removing a supported transaction that is not invertible does not succeed. */
  lemma StuckTransaction(c: Crypto, bad: set<PublicKey>, t: Tables, hash: Hash, tx: Transaction)
    requires ZeroAmounts(t.outputAmounts)
    requires AddTransaction(c, bad, t, hash, tx).status == Ok && Supported(tx.vin) && !Invertible(bad, tx)
    ensures RemoveTransaction(AddTransaction(c, bad, t, hash, tx).t, hash).status != Ok
  {
    hide AddTransaction, StoreOutputs, RemoveOutputs, Skips, RemovalAmountsZero, ZeroAmounts, Images, Supported;
    AddedShape(c, bad, t, hash, tx);
    var d, id := Prepared(t, hash, tx), |t.txs|;
    var s := StoreOutputs(c, bad, d, hash, tx, |tx.vout|);
    StoreOutputsFrame(c, bad, d, hash, tx, |tx.vout|);
    StopsAtNonZero(c, bad, d, hash, tx, |tx.vout|);
    var u := AddTransaction(c, bad, t, hash, tx).t;
    var w := Unrowed(u, id, tx);
    if !RemovalAmountsZero(tx, |tx.vout|) {
      if id in u.txOutputs {
        NonZeroBlocksRemoval(w, tx, u.txOutputs[id], |tx.vout|);
      }
    } else {
      IndexCount(c, bad, d, hash, tx, |tx.vout|);
      TooFewIndices(w, tx, s.indices, |tx.vout|);
    }
  }

  /** Exactly when removing a transaction reads past its index list. */
  lemma RemovalReadsPastIff(c: Crypto, bad: set<PublicKey>, t: Tables, hash: Hash, tx: Transaction)
    requires AddTransaction(c, bad, t, hash, tx).status == Ok && Supported(tx.vin) && !Abandoned(tx)
    ensures RemoveTransaction(AddTransaction(c, bad, t, hash, tx).t, hash).status == Undefined <==> PartlySkips(bad, tx)
  {
    hide AddTransaction, StoreOutputs, RemoveOutputs, RemovalAmountsZero, Images, Supported, Abandoned;
    AddedShape(c, bad, t, hash, tx);
    var d, id := Prepared(t, hash, tx), |t.txs|;
    var s := StoreOutputs(c, bad, d, hash, tx, |tx.vout|);
    StoreOutputsFrame(c, bad, d, hash, tx, |tx.vout|);
    StopsAtNonZero(c, bad, d, hash, tx, |tx.vout|);
    AbandonedMeansNonZero(tx);
    IndexCount(c, bad, d, hash, tx, |tx.vout|);
    var u := AddTransaction(c, bad, t, hash, tx).t;
    var w := Unrowed(u, id, tx);
    if |s.indices| < |tx.vout| {
      TooFewIndices(w, tx, s.indices, |tx.vout|);
    } else {
      EnoughIndices(w, tx, s.indices, |tx.vout|);
    }
  }

  lemma {:induction false} EnoughIndices(w: Tables, tx: Transaction, indices: seq<nat>, n: nat)
    requires n <= |tx.vout| && n <= |indices|
    ensures RemoveOutputs(w, tx, indices, n).status != Undefined
    decreases n
  {
    if n > 0 {
      var r := RemoveOutput(w, RemovalAmount(tx, n - 1), indices[n - 1]);
      if r.status == Ok {
        EnoughIndices(r.t, tx, indices, n - 1);
      }
    }
  }

  lemma TooFewIndices(w: Tables, tx: Transaction, indices: seq<nat>, n: nat)
    requires |indices| < n <= |tx.vout|
    ensures RemoveOutputs(w, tx, indices, n).status == Undefined
  {
  }

  /** What adding a transaction keeps, whatever its outcome. */
  lemma AddTransactionFrame(c: Crypto, bad: set<PublicKey>, t: Tables, hash: Hash, tx: Transaction)
    ensures var r := AddTransaction(c, bad, t, hash, tx);
            && r.t.blocks == t.blocks && r.t.blockHeights == t.blockHeights
            && t.txIndices.Keys <= r.t.txIndices.Keys
            && (ZeroAmounts(t.outputAmounts) ==> ZeroAmounts(r.t.outputAmounts))
  {
    hide FinishTransaction, Spend, Images, ZeroAmounts, AddTransactionData;
    var s := Spend(t.spentKeys, tx.vin);
    if s.Spent? {
      var d := AddTransactionData(t.(spentKeys := s.keys), tx, hash);
      AddDataFrame(t.(spentKeys := s.keys), tx, hash);
      if d.status == Ok {
        FinishFrame(c, bad, d.t, |t.txs|, hash, tx);
      }
    }
  }

  lemma FinishFrame(c: Crypto, bad: set<PublicKey>, t: Tables, id: nat, hash: Hash, tx: Transaction)
    ensures var r := FinishTransaction(c, bad, t, id, hash, tx);
            && r.t.blocks == t.blocks && r.t.blockHeights == t.blockHeights
            && r.t.txIndices == t.txIndices
            && (ZeroAmounts(t.outputAmounts) ==> ZeroAmounts(r.t.outputAmounts))
  {
    hide StoreOutputs, ZeroAmounts, Appends;
    StoreOutputsFrame(c, bad, t, hash, tx, |tx.vout|);
  }

  lemma AddDataFrame(t: Tables, tx: Transaction, hash: Hash)
    ensures var d := AddTransactionData(t, tx, hash);
            && d.t == t.(txIndices := d.t.txIndices, txs := d.t.txs)
            && t.txIndices.Keys <= d.t.txIndices.Keys
  {
  }

  /** How many rows a transaction that was added has got. */
  lemma AddTransactionCount(c: Crypto, bad: set<PublicKey>, t: Tables, hash: Hash, tx: Transaction)
    requires AddTransaction(c, bad, t, hash, tx).status == Ok
    ensures |AddTransaction(c, bad, t, hash, tx).t.txIndices| == |t.txIndices| + (if Supported(tx.vin) then 1 else 0)
  {
    hide StoreOutputs, Spend, Images, Supported;
    if Supported(tx.vin) {
      hide AddTransaction;
      AddedShape(c, bad, t, hash, tx);
      StoreOutputsFrame(c, bad, Prepared(t, hash, tx), hash, tx, |tx.vout|);
    } else {
      SpendOutcome(t.spentKeys, tx.vin);
    }
  }

  /** The facts about one added transaction that a list of them needs. */
  lemma AddTransactionRows(c: Crypto, bad: set<PublicKey>, t: Tables, hash: Hash, tx: Transaction)
    ensures var r := AddTransaction(c, bad, t, hash, tx);
            && r.t.blocks == t.blocks && r.t.blockHeights == t.blockHeights
            && t.txIndices.Keys <= r.t.txIndices.Keys
            && (ZeroAmounts(t.outputAmounts) ==> ZeroAmounts(r.t.outputAmounts))
            && (r.status == Ok ==> |r.t.txIndices| == |t.txIndices| + (if Supported(tx.vin) then 1 else 0))
  {
    hide AddTransaction, Supported, ZeroAmounts;
    AddTransactionFrame(c, bad, t, hash, tx);
    if AddTransaction(c, bad, t, hash, tx).status == Ok {
      AddTransactionCount(c, bad, t, hash, tx);
    }
  }

  lemma {:induction false} RemoveOutputsFrame(t: Tables, tx: Transaction, indices: seq<nat>, n: nat)
    requires n <= |tx.vout|
    ensures RemoveOutputs(t, tx, indices, n).t == WithOutputs(t, RemoveOutputs(t, tx, indices, n).t)
    decreases n
  {
    if n > 0 && n - 1 < |indices| {
      var r := RemoveOutput(t, RemovalAmount(tx, n - 1), indices[n - 1]);
      if r.status == Ok {
        RemoveOutputsFrame(r.t, tx, indices, n - 1);
      }
    }
  }

  lemma {:induction false} RemoveOutputsKeepZero(t: Tables, tx: Transaction, indices: seq<nat>, n: nat)
    requires n <= |tx.vout| && ZeroAmounts(t.outputAmounts)
    ensures ZeroAmounts(RemoveOutputs(t, tx, indices, n).t.outputAmounts)
    decreases n
  {
    if n > 0 && n - 1 < |indices| {
      var r := RemoveOutput(t, RemovalAmount(tx, n - 1), indices[n - 1]);
      if r.status == Ok {
        RemoveOutputsKeepZero(r.t, tx, indices, n - 1);
      }
    }
  }

  lemma RemoveTransactionKeepsZero(t: Tables, hash: Hash)
    requires ZeroAmounts(t.outputAmounts)
    ensures ZeroAmounts(RemoveTransaction(t, hash).t.outputAmounts)
  {
    hide RemoveOutputs, ZeroAmounts;
    if HasTx(t, hash) {
      var tx, id := TxOf(t, hash), t.txIndices[hash].txId;
      if id in t.txOutputs {
        RemoveOutputsKeepZero(Unrowed(t, id, tx), tx, t.txOutputs[id], |tx.vout|);
      }
    }
  }

  lemma RemoveTransactionKeepsBlocks(t: Tables, hash: Hash)
    ensures RemoveTransaction(t, hash).t.blocks == t.blocks
  {
    hide RemoveOutputs;
    if HasTx(t, hash) {
      var tx, id := TxOf(t, hash), t.txIndices[hash].txId;
      if id in t.txOutputs {
        RemoveOutputsFrame(Unrowed(t, id, tx), tx, t.txOutputs[id], |tx.vout|);
      }
    }
  }

  lemma RemoveTransactionRows(t: Tables, hash: Hash)
    requires RemoveTransaction(t, hash).status == Ok
    ensures |RemoveTransaction(t, hash).t.txIndices| == |t.txIndices| - 1
  {
    var tx := TxOf(t, hash);
    var id := t.txIndices[hash].txId;
    RemoveOutputsFrame(Unrowed(t, id, tx), tx, t.txOutputs[id], |tx.vout|);
  }

  /** Exactly when removing a transaction takes back its addition. */
  lemma TransactionUndoneIff(c: Crypto, bad: set<PublicKey>, t: Tables, hash: Hash, tx: Transaction)
    requires ZeroAmounts(t.outputAmounts) && AddTransaction(c, bad, t, hash, tx).status == Ok
    ensures RemoveTransaction(AddTransaction(c, bad, t, hash, tx).t, hash) == Step(t, Ok) <==> Invertible(bad, tx)
  {
    if Invertible(bad, tx) {
      UndoTransaction(c, bad, t, hash, tx);
    } else if Supported(tx.vin) {
      StuckTransaction(c, bad, t, hash, tx);
    } else {
      var u := AddTransaction(c, bad, t, hash, tx).t;
      AddTransactionRows(c, bad, t, hash, tx);
      if RemoveTransaction(u, hash).status == Ok {
        RemoveTransactionRows(u, hash);
      }
    }
  }
}
