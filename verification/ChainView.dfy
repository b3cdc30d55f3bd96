/** The tables as a function of the list of blocks: the independent description that the store's
    step-by-step updates are compared with. */
module ChainView {
  import opened CryptoNote
  import opened StoreTables
  import opened StoreOps
  import opened StoreInverse

  /** A stored transaction with the height of its block and the burned keys known at that time. */
  datatype TxRow = TxRow(hash: Hash, tx: Transaction, height: nat, bad: set<PublicKey>)

  datatype OutRow = OutRow(txHash: Hash, local: nat, pubkey: PublicKey, unlockTime: u64, height: nat, commitment: Key)

  // ---- Lists read off the chain ----

  predicate Distinct<T(==)>(s: seq<T>) {
    forall i, j :: 0 <= i < j < |s| ==> s[i] != s[j]
  }

  function ImageList(vin: seq<TxIn>): seq<KeyImage> {
    if vin == [] then []
    else ImageList(vin[..|vin| - 1]) + (if vin[|vin| - 1].ToKey? then [vin[|vin| - 1].kImage] else [])
  }

  function AllImages(rows: seq<TxRow>): seq<KeyImage> {
    if rows == [] then [] else AllImages(rows[..|rows| - 1]) + ImageList(rows[|rows| - 1].tx.vin)
  }

  function Elements<T>(s: seq<T>): set<T> {
    set x | x in s
  }

  function Hashes(rows: seq<TxRow>): (r: seq<Hash>)
    ensures |r| == |rows|
  {
    seq(|rows|, i requires 0 <= i < |rows| => rows[i].hash)
  }

  function KeyOf(out: TxOut): PublicKey {
    if out.target.OutToKey? then out.target.key else 0
  }

  /** The outputs of a transaction that get a row: mined outputs to a burned key are skipped. */
  function Kept(c: Crypto, row: TxRow, n: nat): (r: seq<OutRow>)
    requires n <= |row.tx.vout|
    ensures |r| <= n
  {
    if n == 0 then []
    else
      var out := row.tx.vout[n - 1];
      Kept(c, row, n - 1) +
      (if IsMiner(row.tx) && IsBad(row.bad, out) then []
       else [OutRow(row.hash, n - 1, KeyOf(out), row.tx.unlockTime, row.height,
                    if IsMiner(row.tx) then c.zeroCommit(out.amount)
                    else if n - 1 < |row.tx.outPk| then row.tx.outPk[n - 1] else 0)])
  }

  function Outputs(c: Crypto, rows: seq<TxRow>): seq<OutRow> {
    if rows == [] then []
    else
      var row := rows[|rows| - 1];
      Outputs(c, rows[..|rows| - 1]) + Kept(c, row, |row.tx.vout|)
  }

  /** The position of each hash in a list. */
  function Positions(hs: seq<Hash>): (m: map<Hash, nat>)
    ensures m.Keys == Elements(hs)
    ensures forall h :: h in m ==> m[h] < |hs| && hs[m[h]] == h
  {
    if hs == [] then map[]
    else
      assert hs == hs[..|hs| - 1] + [hs[|hs| - 1]];
      Positions(hs[..|hs| - 1])[hs[|hs| - 1] := |hs| - 1]
  }

  function Range(start: nat, len: nat): (r: seq<nat>)
    ensures |r| == len && forall i :: 0 <= i < len ==> r[i] == start + i
  {
    seq(len, i requires 0 <= i => start + i)
  }

  // ---- The tables of a list of rows ----

  function TxTable(rows: seq<TxRow>): map<nat, Transaction> {
    if rows == [] then map[] else TxTable(rows[..|rows| - 1])[|rows| - 1 := rows[|rows| - 1].tx]
  }

  function IndexTable(rows: seq<TxRow>): map<Hash, TxIndex> {
    if rows == [] then map[]
    else
      var init, last := rows[..|rows| - 1], rows[|rows| - 1];
      IndexTable(init)[last.hash := TxIndex(|init|, last.tx.unlockTime, last.height)]
  }

  /** The indices of the outputs of each transaction: as many as it keeps, behind all earlier ones. */
  function RangeTable(c: Crypto, rows: seq<TxRow>): map<nat, seq<nat>> {
    if rows == [] then map[]
    else
      var init, last := rows[..|rows| - 1], rows[|rows| - 1];
      RangeTable(c, init)[|init| := Range(|Outputs(c, init)|, |Kept(c, last, |last.tx.vout|)|)]
  }

  function OutTxTable(outs: seq<OutRow>): map<nat, OutTx> {
    if outs == [] then map[]
    else
      var last := outs[|outs| - 1];
      OutTxTable(outs[..|outs| - 1])[|outs| - 1 := OutTx(last.txHash, last.local)]
  }

  function OutKeyRow(index: nat, row: OutRow): OutKey {
    OutKey(index, row.pubkey, row.unlockTime, row.height, row.commitment)
  }

  function OutKeyTable(outs: seq<OutRow>): map<Output, OutKey> {
    if outs == [] then map[]
    else
      var n := |outs| - 1;
      OutKeyTable(outs[..n])[Output(0, n) := OutKeyRow(n, outs[n])]
  }

  /** The outputs of amount zero with the first n indices. */
  function Slots(n: nat): (s: set<Output>)
    ensures forall o :: o in s <==> o.amount == 0 && o.index < n
    ensures |s| == n
  {
    if n == 0 then {} else Slots(n - 1) + {Output(0, n - 1)}
  }

  function BlockHashes(blocks: seq<BlockRow>): (r: seq<Hash>)
    ensures |r| == |blocks|
  {
    seq(|blocks|, i requires 0 <= i < |blocks| => blocks[i].hash)
  }

  function View(c: Crypto, blocks: seq<BlockRow>, rows: seq<TxRow>, burned: set<KeyImage>): Tables {
    Tables(
      blocks,
      Positions(BlockHashes(blocks)),
      TxTable(rows),
      IndexTable(rows),
      RangeTable(c, rows),
      OutTxTable(Outputs(c, rows)),
      OutKeyTable(Outputs(c, rows)),
      burned + Elements(AllImages(rows)))
  }

  /** No key image is spent twice, none of the burned ones is spent, and hashes are unique. */
  predicate Unspent(rows: seq<TxRow>, burned: set<KeyImage>) {
    && Distinct(Hashes(rows))
    && Distinct(AllImages(rows))
    && Elements(AllImages(rows)) !! burned
  }

  /** What block validation guarantees of a transaction before it reaches the store. */
  predicate Storable(tx: Transaction) {
    && Supported(tx.vin)
    && (forall i :: 0 <= i < |tx.vout| ==> tx.vout[i].target.OutToKey?)
    && (IsMiner(tx) || (|tx.vout| <= |tx.outPk| && forall i :: 0 <= i < |tx.vout| ==> tx.vout[i].amount == 0))
  }

  // ---- Key images ----

  lemma {:induction false} ImageListElements(vin: seq<TxIn>)
    ensures Elements(ImageList(vin)) == Images(vin)
  {
    if vin != [] {
      ImageListElements(vin[..|vin| - 1]);
      ImagesGrow(vin);
    }
  }

  lemma DistinctAppend<T>(s: seq<T>, x: T)
    ensures Distinct(s + [x]) <==> Distinct(s) && x !in s
  {
    assert forall i :: 0 <= i < |s| ==> (s + [x])[i] == s[i];
    assert (s + [x])[|s|] == x;
  }

  lemma {:induction false} DistinctConcat<T>(s: seq<T>, t: seq<T>)
    ensures Distinct(s + t) <==> Distinct(s) && Distinct(t) && Elements(s) !! Elements(t)
  {
    if t == [] {
      assert s + t == s;
    } else {
      var init, x := t[..|t| - 1], t[|t| - 1];
      assert t == init + [x];
      assert s + t == (s + init) + [x];
      DistinctConcat(s, init);
      DistinctAppend(s + init, x);
      DistinctAppend(init, x);
      assert Elements(t) == Elements(init) + {x};
    }
  }

  /** The inputs are spent exactly when they are supported and their images are new and distinct. */
  lemma {:induction false} SpendIff(keys: set<KeyImage>, vin: seq<TxIn>)
    ensures Spend(keys, vin).Spent? <==> Supported(vin) && Distinct(ImageList(vin)) && Images(vin) !! keys
  {
    if vin != [] {
      var init, last := vin[..|vin| - 1], vin[|vin| - 1];
      assert vin == init + [last];
      SpendIff(keys, init);
      SpendOutcome(keys, init);
      ImagesGrow(vin);
      ImageListElements(init);
      assert Supported(vin) <==> Supported(init) && (last.Gen? || last.ToKey?);
      if last.ToKey? {
        DistinctAppend(ImageList(init), last.kImage);
      } else {
        assert ImageList(vin) == ImageList(init);
      }
    }
  }

  /** The inputs that the store can spend in full. */
  predicate Spendable(keys: set<KeyImage>, vin: seq<TxIn>) {
    Supported(vin) && Distinct(ImageList(vin)) && Images(vin) !! keys
  }

  /** Everything before input p can be spent, and p is of an unsupported kind. */
  predicate UnsupportedAt(keys: set<KeyImage>, vin: seq<TxIn>, p: int) {
    0 <= p < |vin| && Spendable(keys, vin[..p]) && !vin[p].Gen? && !vin[p].ToKey?
  }

  /** Everything before input p can be spent, and p repeats a stored image. */
  predicate DuplicateAt(keys: set<KeyImage>, vin: seq<TxIn>, p: int) {
    0 <= p < |vin| && Spendable(keys, vin[..p]) && vin[p].ToKey? && vin[p].kImage in keys + Images(vin[..p])
  }

  ghost predicate Ending(s: Spending, keys: set<KeyImage>, vin: seq<TxIn>) {
    && (s.Spent? <==> Spendable(keys, vin))
    && (s.Unsupported? <==> exists p :: UnsupportedAt(keys, vin, p))
    && (s.Duplicate? <==> exists p :: DuplicateAt(keys, vin, p))
    && (s.Spent? ==> s.keys == keys + Images(vin))
    && (forall p :: UnsupportedAt(keys, vin, p) || DuplicateAt(keys, vin, p) ==> s.keys == keys + Images(vin[..p]))
  }

  /** The three endings of the input loop and the images stored at each: the loop spends all inputs,
      or it stops at the first unsupported or repeating one with the images before it stored. */
  lemma {:induction false} SpendEndings(keys: set<KeyImage>, vin: seq<TxIn>)
    ensures Ending(Spend(keys, vin), keys, vin)
  {
    SpendIff(keys, vin);
    SpendOutcome(keys, vin);
    if vin != [] {
      var init := vin[..|vin| - 1];
      SpendEndings(keys, init);
      SpendIff(keys, init);
      EndingsOfPrefix(keys, vin);
      hide Distinct, Images, ImageList, Supported;
      if Spend(keys, init).Spent? {
        LateEnding(keys, vin);
      } else {
        EarlyEnding(keys, vin);
      }
    }
  }

  lemma EarlyEnding(keys: set<KeyImage>, vin: seq<TxIn>)
    requires vin != [] && !Spendable(keys, vin)
    requires var init := vin[..|vin| - 1];
             Ending(Spend(keys, init), keys, init) && !Spend(keys, init).Spent?
    ensures Ending(Spend(keys, vin), keys, vin)
  {
    var init, n := vin[..|vin| - 1], |vin| - 1;
    EndingsOfPrefix(keys, vin);
    hide Images, Spendable;
    assert forall p :: p >= n ==> !UnsupportedAt(keys, vin, p) && !DuplicateAt(keys, vin, p);
    if p: int :| UnsupportedAt(keys, init, p) {
      assert UnsupportedAt(keys, vin, p);
    }
    if p: int :| DuplicateAt(keys, init, p) {
      assert DuplicateAt(keys, vin, p);
    }
  }

  lemma LateEnding(keys: set<KeyImage>, vin: seq<TxIn>)
    requires vin != [] && (Spend(keys, vin).Spent? <==> Spendable(keys, vin))
    requires Spend(keys, vin).Spent? ==> Spend(keys, vin).keys == keys + Images(vin)
    requires var init := vin[..|vin| - 1];
             Ending(Spend(keys, init), keys, init) && Spend(keys, init).Spent?
    ensures Ending(Spend(keys, vin), keys, vin)
  {
    var init, n := vin[..|vin| - 1], |vin| - 1;
    EndingsOfPrefix(keys, vin);
    hide Images, Spendable;
    assert forall p :: p != n ==> !UnsupportedAt(keys, vin, p) && !DuplicateAt(keys, vin, p);
    assert UnsupportedAt(keys, vin, n) <==> !vin[n].Gen? && !vin[n].ToKey?;
    assert DuplicateAt(keys, vin, n) <==> vin[n].ToKey? && vin[n].kImage in keys + Images(init);
  }

  lemma EndingsOfPrefix(keys: set<KeyImage>, vin: seq<TxIn>)
    requires vin != []
    ensures var init, n := vin[..|vin| - 1], |vin| - 1;
            forall p :: 0 <= p < n ==>
              && (UnsupportedAt(keys, vin, p) <==> UnsupportedAt(keys, init, p))
              && (DuplicateAt(keys, vin, p) <==> DuplicateAt(keys, init, p))
              && init[..p] == vin[..p]
  {
    hide Spendable;
    var init := vin[..|vin| - 1];
    assert forall p :: 0 <= p < |init| ==> init[..p] == vin[..p] && init[p] == vin[p];
  }

  /** Exactly when adding a transaction, whatever its outcome, drops a stored key image: the loop
      stops at an unsupported input, and the image is one of the transaction's own. */
  lemma ReleasedIff(c: Crypto, bad: set<PublicKey>, t: Tables, hash: Hash, tx: Transaction, ki: KeyImage)
    requires ki in t.spentKeys
    ensures ki !in AddTransaction(c, bad, t, hash, tx).t.spentKeys <==>
            ki in Images(tx.vin) && exists p :: UnsupportedAt(t.spentKeys, tx.vin, p)
  {
    hide StoreOutputs, Images, Spend;
    SpendEndings(t.spentKeys, tx.vin);
    SpendOutcome(t.spentKeys, tx.vin);
    var s := Spend(t.spentKeys, tx.vin);
    if s.Spent? {
      var d := AddTransactionData(t.(spentKeys := s.keys), tx, hash);
      StoreOutputsFrame(c, bad, d.t, hash, tx, |tx.vout|);
    }
  }

  // ---- Outputs ----

  lemma {:induction false} TableSize<V>(m: map<nat, V>, n: nat)
    requires forall i :: i in m <==> 0 <= i < n
    ensures |m| == n
  {
    if n == 0 {
      assert m.Keys == {};
    } else {
      TableSize(m - {n - 1}, n - 1);
      assert m.Keys == (m - {n - 1}).Keys + {n - 1};
    }
  }

  lemma {:induction false} OutTxTableKeys(outs: seq<OutRow>)
    ensures forall i :: i in OutTxTable(outs) <==> 0 <= i < |outs|
  {
    if outs != [] {
      OutTxTableKeys(outs[..|outs| - 1]);
    }
  }

  lemma {:induction false} OutKeyTableKeys(outs: seq<OutRow>)
    ensures OutKeyTable(outs).Keys == Slots(|outs|)
  {
    if outs != [] {
      OutKeyTableKeys(outs[..|outs| - 1]);
    }
  }

  lemma OutTxGrows(outs: seq<OutRow>, row: OutRow)
    ensures OutTxTable(outs + [row]) == OutTxTable(outs)[|outs| := OutTx(row.txHash, row.local)]
  {
    assert (outs + [row])[..|outs|] == outs;
  }

  lemma OutKeyGrows(outs: seq<OutRow>, row: OutRow)
    ensures (set o | o in OutKeyTable(outs) && o.amount == 0) == Slots(|outs|)
    ensures forall o :: o in OutKeyTable(outs) ==> o.index < |outs|
    ensures OutKeyTable(outs + [row]) == OutKeyTable(outs)[Output(0, |outs|) := OutKeyRow(|outs|, row)]
  {
    OutKeyTableKeys(outs);
    assert (outs + [row])[..|outs|] == outs;
  }

  /** A new output takes the next index under amount zero. */
  lemma AddOutputView(t: Tables, outs: seq<OutRow>, row: OutRow, out: TxOut)
    requires t == WithOuts(t, outs)
    requires out == TxOut(0, OutToKey(row.pubkey)) && row.height == |t.blocks|
    ensures AddOutput(t, row.txHash, out, row.local, row.unlockTime, row.commitment) ==
            Added(WithOuts(t, outs + [row]), Ok, |outs|)
  {
    OutTxGrows(outs, row);
    OutTxTableKeys(outs);
    TableSize(OutTxTable(outs), |outs|);
    OutKeyGrows(outs, row);
    hide OutTxTable, OutKeyTable, Slots;
    var u := t.(outputTxs := t.outputTxs[|outs| := OutTx(row.txHash, row.local)]);
    assert AmountCount(u, 0) == |outs|;
  }

  function WithOuts(t: Tables, outs: seq<OutRow>): Tables {
    t.(outputTxs := OutTxTable(outs), outputAmounts := OutKeyTable(outs))
  }

  /** Storing the outputs of a transaction appends its kept outputs and yields their index range. */
  lemma {:induction false} StoreOutputsView(c: Crypto, t: Tables, outs: seq<OutRow>, row: TxRow, n: nat)
    requires n <= |row.tx.vout| && Storable(row.tx) && row.height == |t.blocks|
    requires t == WithOuts(t, outs)
    ensures StoreOutputs(c, row.bad, t, row.hash, row.tx, n) ==
            Stored(WithOuts(t, outs + Kept(c, row, n)), Range(|outs|, |Kept(c, row, n)|))
  {
    hide AddOutput, OutTxTable, OutKeyTable;
    if n == 0 {
      assert outs + [] == outs;
    } else {
      StoreOutputsView(c, t, outs, row, n - 1);
      var kept := Kept(c, row, n - 1);
      var s := StoreOutputs(c, row.bad, t, row.hash, row.tx, n - 1);
      var out := row.tx.vout[n - 1];
      if !(IsMiner(row.tx) && IsBad(row.bad, out)) {
        var last := Kept(c, row, n)[|kept|];
        assert Kept(c, row, n) == kept + [last];
        AddOutputView(s.t, outs + kept, last, TxOut(0, OutToKey(last.pubkey)));
        assert (outs + kept) + [last] == outs + Kept(c, row, n);
        assert Range(|outs|, |kept|) + [|outs + kept|] == Range(|outs|, |kept| + 1);
      } else {
        assert Kept(c, row, n) == kept;
      }
    }
  }

  // ---- Transactions ----

  lemma HashesGrow(rows: seq<TxRow>, row: TxRow)
    ensures Hashes(rows + [row]) == Hashes(rows) + [row.hash]
  {
  }

  lemma RowTablesGrow(rows: seq<TxRow>, row: TxRow)
    ensures TxTable(rows + [row]) == TxTable(rows)[|rows| := row.tx]
    ensures IndexTable(rows + [row]) == IndexTable(rows)[row.hash := TxIndex(|rows|, row.tx.unlockTime, row.height)]
  {
    assert (rows + [row])[..|rows|] == rows;
  }

  lemma OutputsGrow(c: Crypto, rows: seq<TxRow>, row: TxRow)
    ensures Outputs(c, rows + [row]) == Outputs(c, rows) + Kept(c, row, |row.tx.vout|)
  {
    hide Kept;
    assert (rows + [row])[..|rows|] == rows;
  }

  lemma RangesGrow(c: Crypto, rows: seq<TxRow>, row: TxRow)
    ensures RangeTable(c, rows + [row]) ==
            RangeTable(c, rows)[|rows| := Range(|Outputs(c, rows)|, |Kept(c, row, |row.tx.vout|)|)]
  {
    hide Kept, Range, Outputs;
    assert (rows + [row])[..|rows|] == rows;
  }

  lemma AllImagesGrow(rows: seq<TxRow>, row: TxRow)
    ensures AllImages(rows + [row]) == AllImages(rows) + ImageList(row.tx.vin)
  {
    assert (rows + [row])[..|rows|] == rows;
  }

  /** Adding one row keeps the ledger free of double spends exactly when its hash and its images are new. */
  lemma UnspentGrowsIff(rows: seq<TxRow>, burned: set<KeyImage>, row: TxRow)
    requires Unspent(rows, burned)
    ensures Unspent(rows + [row], burned) <==>
            && row.hash !in Hashes(rows)
            && Distinct(ImageList(row.tx.vin))
            && Images(row.tx.vin) !! burned + Elements(AllImages(rows))
  {
    hide Distinct;
    HashesGrow(rows, row);
    DistinctAppend(Hashes(rows), row.hash);
    AllImagesGrow(rows, row);
    DistinctConcat(AllImages(rows), ImageList(row.tx.vin));
    ImageListElements(row.tx.vin);
    assert Elements(AllImages(rows) + ImageList(row.tx.vin)) == Elements(AllImages(rows)) + Images(row.tx.vin);
  }

  lemma {:induction false} RowTableKeys(c: Crypto, rows: seq<TxRow>)
    ensures forall i :: i in TxTable(rows) <==> 0 <= i < |rows|
    ensures forall i :: i in RangeTable(c, rows) <==> 0 <= i < |rows|
    ensures IndexTable(rows).Keys == Elements(Hashes(rows))
  {
    hide Outputs, Kept, Range;
    if rows != [] {
      var init, last := rows[..|rows| - 1], rows[|rows| - 1];
      RowTableKeys(c, init);
      assert Hashes(rows) == Hashes(init) + [last.hash];
    }
  }

  lemma TableKeys(c: Crypto, blocks: seq<BlockRow>, rows: seq<TxRow>, burned: set<KeyImage>)
    ensures var t := View(c, blocks, rows, burned);
            && |t.txs| == |rows| && Appends(t.txs, |rows|) && Appends(t.txOutputs, |rows|)
            && t.txIndices.Keys == Elements(Hashes(rows))
            && ZeroAmounts(t.outputAmounts)
  {
    hide TxTable, IndexTable, RangeTable, OutTxTable, OutKeyTable, Outputs, AllImages, Positions;
    RowTableKeys(c, rows);
    TableSize(TxTable(rows), |rows|);
    OutKeyTableKeys(Outputs(c, rows));
  }

  /** Adding a transaction to the tables of a ledger succeeds exactly when the longer ledger is
      free of double spends, and then yields the tables of the longer ledger. */
  lemma AddTransactionView(c: Crypto, blocks: seq<BlockRow>, rows: seq<TxRow>, burned: set<KeyImage>, row: TxRow)
    requires Unspent(rows, burned) && Storable(row.tx) && row.height == |blocks|
    ensures var r := AddTransaction(c, row.bad, View(c, blocks, rows, burned), row.hash, row.tx);
            && (r.status == Ok <==> Unspent(rows + [row], burned))
            && (r.status == Ok ==> r.t == View(c, blocks, rows + [row], burned))
            && r.status != Undefined
  {
    hide StoreOutputs, Spend, Unspent, Storable, TxTable, IndexTable, RangeTable, OutTxTable, OutKeyTable, Positions;
    hide Distinct, Supported;
    var t := View(c, blocks, rows, burned);
    TableKeys(c, blocks, rows, burned);
    UnspentGrowsIff(rows, burned, row);
    StorableIsSupported(row.tx);
    SpendIff(t.spentKeys, row.tx.vin);
    SpendOutcome(t.spentKeys, row.tx.vin);
    if Spend(t.spentKeys, row.tx.vin).Spent? && row.hash !in t.txIndices {
      var d := Prepared(t, row.hash, row.tx);
      var outs := Outputs(c, rows);
      StoreOutputsView(c, d, outs, row, |row.tx.vout|);
      RowTablesGrow(rows, row);
      OutputsGrow(c, rows, row);
      RangesGrow(c, rows, row);
      AllImagesGrow(rows, row);
      ImageListElements(row.tx.vin);
      assert Elements(AllImages(rows + [row])) == Elements(AllImages(rows)) + Images(row.tx.vin);
    }
  }

  lemma StorableIsSupported(tx: Transaction)
    requires Storable(tx)
    ensures Supported(tx.vin)
  {
  }
}
