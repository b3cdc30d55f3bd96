/** How the outputs of every reachable store are numbered. */
module OutputNumbering {
  import opened CryptoNote
  import opened StoreTables
  import opened StoreOps
  import opened ChainView
  import opened Ledger
  import opened StoreRuns

  // ---- What the tables say about one transaction ----

  /** The output goes to a key that was burned when it was added, beside a generating input. */
  predicate Skipped(row: TxRow, l: nat)
    requires l < |row.tx.vout|
  {
    && (exists i :: 0 <= i < |row.tx.vin| && row.tx.vin[i].Gen?)
    && row.tx.vout[l].target.OutToKey? && row.tx.vout[l].target.key in row.bad
  }

  function Commitment(c: Crypto, row: TxRow, l: nat): Key
    requires l < |row.tx.vout|
  {
    if exists i :: 0 <= i < |row.tx.vin| && row.tx.vin[i].Gen? then c.zeroCommit(row.tx.vout[l].amount)
    else if l < |row.tx.outPk| then row.tx.outPk[l] else 0
  }

  /** Index x leads to output l of the transaction, and carries its key and commitment. */
  ghost predicate LeadsTo(c: Crypto, t: Tables, row: TxRow, x: nat, l: nat) {
    && l < |row.tx.vout|
    && x in t.outputTxs && t.outputTxs[x] == OutTx(row.hash, l)
    && Output(0, x) in t.outputAmounts
    && t.outputAmounts[Output(0, x)] ==
       OutKey(x, KeyOf(row.tx.vout[l]), row.tx.unlockTime, row.height, Commitment(c, row, l))
  }

  /** The hash of a transaction leads to its row and to its index list. */
  ghost predicate LookedUp(t: Tables, row: TxRow) {
    && row.hash in t.txIndices
    && var id := t.txIndices[row.hash].txId;
       && id in t.txs && t.txs[id] == row.tx && t.txIndices[row.hash] == TxIndex(id, row.tx.unlockTime, row.height)
       && id in t.txOutputs
  }

  /** Looked up by its hash, a transaction has a contiguous ascending index list whose entries lead,
      in order, to exactly its outputs that were not skipped. */
  ghost predicate Numbered(c: Crypto, t: Tables, row: TxRow) {
    && LookedUp(t, row)
    && var indices := t.txOutputs[t.txIndices[row.hash].txId];
       && (forall k :: 0 < k < |indices| ==> indices[k] == indices[k - 1] + 1)
       && (exists locals: seq<nat> :: Lists(c, t, row, indices, locals))
  }

  ghost predicate Lists(c: Crypto, t: Tables, row: TxRow, indices: seq<nat>, locals: seq<nat>) {
    && |locals| == |indices|
    && (forall k :: 0 <= k < |indices| ==> LeadsTo(c, t, row, indices[k], locals[k]))
    && (forall j, k :: 0 <= j < k < |locals| ==> locals[j] < locals[k])
    && (forall l :: 0 <= l < |row.tx.vout| ==> (l in locals <==> !Skipped(row, l)))
  }

  /** All outputs are filed under amount zero, with the indices 0 to n - 1. */
  ghost predicate Dense(t: Tables) {
    && (forall x :: x in t.outputTxs <==> 0 <= x < |t.outputTxs|)
    && (forall o :: o in t.outputAmounts <==> o.amount == 0 && o.index < |t.outputTxs|)
  }

  /** Each output is in the index list of the transaction it names. */
  ghost predicate Owned(t: Tables, x: nat) {
    && x in t.outputTxs
    && var hash := t.outputTxs[x].txHash;
       hash in t.txIndices && t.txIndices[hash].txId in t.txOutputs && x in t.txOutputs[t.txIndices[hash].txId]
  }

  /** Later transactions have larger indices. */
  ghost predicate InChainOrder(t: Tables) {
    forall i, j, x, y ::
      i in t.txOutputs && j in t.txOutputs && i < j && x in t.txOutputs[i] && y in t.txOutputs[j] ==> x < y
  }

  // ---- Positions in the list of outputs ----

  lemma {:induction false} OutputsAt(c: Crypto, rows: seq<TxRow>, i: nat, k: nat)
    requires i < |rows| && k < |Kept(c, rows[i], |rows[i].tx.vout|)|
    ensures var start := |Outputs(c, rows[..i])|;
            start + k < |Outputs(c, rows)| && Outputs(c, rows)[start + k] == Kept(c, rows[i], |rows[i].tx.vout|)[k]
  {
    hide Kept;
    var init := rows[..|rows| - 1];
    if i < |init| {
      OutputsAt(c, init, i, k);
      assert init[..i] == rows[..i];
    }
  }

  lemma {:induction false} StartsAscend(c: Crypto, rows: seq<TxRow>, i: nat, j: nat)
    requires i <= j <= |rows|
    ensures |Outputs(c, rows[..i])| <= |Outputs(c, rows[..j])|
    decreases j
  {
    hide Kept;
    if i < j {
      StartsAscend(c, rows, i, j - 1);
      assert rows[..j][..j - 1] == rows[..j - 1];
    }
  }

  lemma NextStart(c: Crypto, rows: seq<TxRow>, i: nat)
    requires i < |rows|
    ensures |Outputs(c, rows[..i + 1])| == |Outputs(c, rows[..i])| + |Kept(c, rows[i], |rows[i].tx.vout|)|
  {
    hide Kept, Outputs;
    assert rows[..i + 1] == rows[..i] + [rows[i]];
    OutputsGrow(c, rows[..i], rows[i]);
  }

  /** Every position in the list of outputs falls into the range of one transaction. */
  lemma {:induction false} OwnerOf(c: Crypto, rows: seq<TxRow>, x: nat) returns (i: nat)
    requires x < |Outputs(c, rows)|
    ensures i < |rows|
    ensures |Outputs(c, rows[..i])| <= x < |Outputs(c, rows[..i])| + |Kept(c, rows[i], |rows[i].tx.vout|)|
  {
    hide Kept;
    var init := rows[..|rows| - 1];
    if x < |Outputs(c, init)| {
      i := OwnerOf(c, init, x);
      assert init[..i] == rows[..i];
    } else {
      i := |init|;
    }
  }

  // ---- The kept outputs of a transaction ----

  function Locals(kept: seq<OutRow>): (r: seq<nat>)
    ensures |r| == |kept|
  {
    seq(|kept|, k requires 0 <= k < |kept| => kept[k].local)
  }

  function RowOfLocal(c: Crypto, row: TxRow, l: nat): OutRow
    requires l < |row.tx.vout|
  {
    OutRow(row.hash, l, KeyOf(row.tx.vout[l]), row.tx.unlockTime, row.height, Commitment(c, row, l))
  }

  ghost predicate KeptInOrder(c: Crypto, row: TxRow, kept: seq<OutRow>, n: nat)
    requires n <= |row.tx.vout|
  {
    && (forall k :: 0 <= k < |kept| ==> kept[k].local < n && kept[k] == RowOfLocal(c, row, kept[k].local))
    && (forall j, k :: 0 <= j < k < |kept| ==> Locals(kept)[j] < Locals(kept)[k])
    && (forall l :: 0 <= l < n ==> (l in Locals(kept) <==> !Skipped(row, l)))
  }

  lemma OneMoreKept(c: Crypto, row: TxRow, kept: seq<OutRow>, n: nat)
    requires n < |row.tx.vout| && KeptInOrder(c, row, kept, n) && !Skipped(row, n)
    ensures KeptInOrder(c, row, kept + [RowOfLocal(c, row, n)], n + 1)
  {
    hide Skipped, Commitment;
    var out := RowOfLocal(c, row, n);
    assert Locals(kept + [out]) == Locals(kept) + [n];
    assert forall k :: 0 <= k < |kept| ==> Locals(kept)[k] < n;
  }

  lemma {:induction false} KeptLocals(c: Crypto, row: TxRow, n: nat)
    requires n <= |row.tx.vout|
    ensures KeptInOrder(c, row, Kept(c, row, n), n)
  {
    if n > 0 {
      KeptLocals(c, row, n - 1);
      var init := Kept(c, row, n - 1);
      if Skipped(row, n - 1) {
        assert Kept(c, row, n) == init;
      } else {
        OneMoreKept(c, row, init, n - 1);
        assert Kept(c, row, n) == init + [RowOfLocal(c, row, n - 1)];
      }
    }
  }

  // ---- Tables of a chain ----

  /** The indices of the outputs of transaction i: as many as it keeps, behind all earlier ones. */
  function RangeAt(c: Crypto, rows: seq<TxRow>, i: nat): seq<nat>
    requires i < |rows|
  {
    Range(|Outputs(c, rows[..i])|, |Kept(c, rows[i], |rows[i].tx.vout|)|)
  }

  lemma {:induction false} RangeTableAt(c: Crypto, rows: seq<TxRow>, i: nat)
    requires i < |rows|
    ensures i in RangeTable(c, rows) && RangeTable(c, rows)[i] == RangeAt(c, rows, i)
  {
    hide Kept, Range, Outputs;
    if i < |rows| - 1 {
      RangeTableAt(c, rows[..|rows| - 1], i);
      assert rows[..|rows| - 1][..i] == rows[..i];
    }
  }

  lemma {:induction false} RowTablesAt(rows: seq<TxRow>, i: nat)
    requires i < |rows|
    ensures i in TxTable(rows) && TxTable(rows)[i] == rows[i].tx
    ensures Distinct(Hashes(rows)) ==>
            && rows[i].hash in IndexTable(rows)
            && IndexTable(rows)[rows[i].hash] == TxIndex(i, rows[i].tx.unlockTime, rows[i].height)
  {
    var init, hs := rows[..|rows| - 1], Hashes(rows);
    assert Hashes(init) == hs[..|hs| - 1];
    assert hs[i] == rows[i].hash && hs[|hs| - 1] == rows[|rows| - 1].hash;
    if i < |rows| - 1 {
      RowTablesAt(init, i);
    }
  }

  lemma {:induction false} OutTablesAt(outs: seq<OutRow>, x: nat)
    requires x < |outs|
    ensures x in OutTxTable(outs) && OutTxTable(outs)[x] == OutTx(outs[x].txHash, outs[x].local)
    ensures Output(0, x) in OutKeyTable(outs) && OutKeyTable(outs)[Output(0, x)] == OutKeyRow(x, outs[x])
  {
    if x < |outs| - 1 {
      OutTablesAt(outs[..|outs| - 1], x);
    }
  }

  /** In an accepted chain the hash of transaction i leads to identifier i. */
  lemma LookUp(c: Crypto, b: Book, i: nat)
    requires Accepted(c, b) && i < |Rows(c, b.chain)|
    ensures var row, t := Rows(c, b.chain)[i], TablesOf(c, b);
            LookedUp(t, row) && t.txIndices[row.hash].txId == i
  {
    AcceptedIsUnspent(c, b);
    hide Accepted, Rows, Outputs, Distinct, Hashes, TxTable, IndexTable, RangeTable, AllImages, BlockRows;
    hide OutTxTable, OutKeyTable;
    RowTablesAt(Rows(c, b.chain), i);
    RowTableKeys(c, Rows(c, b.chain));
  }

  lemma EntryLeadsTo(c: Crypto, b: Book, i: nat, k: nat)
    requires i < |Rows(c, b.chain)|
    requires k < |Kept(c, Rows(c, b.chain)[i], |Rows(c, b.chain)[i].tx.vout|)|
    ensures var row := Rows(c, b.chain)[i];
            var kept := Kept(c, row, |row.tx.vout|);
            LeadsTo(c, TablesOf(c, b), row, |Outputs(c, Rows(c, b.chain)[..i])| + k, kept[k].local)
  {
    hide Kept, Rows, Outputs, Positions, IndexTable, RangeTable, TxTable, AllImages, BlockRows, OutTxTable, OutKeyTable;
    var rows := Rows(c, b.chain);
    KeptLocals(c, rows[i], |rows[i].tx.vout|);
    OutputsAt(c, rows, i, k);
    OutTablesAt(Outputs(c, rows), |Outputs(c, rows[..i])| + k);
  }

  lemma IndexListOf(c: Crypto, b: Book, i: nat)
    ensures i in TablesOf(c, b).txOutputs <==> i < |Rows(c, b.chain)|
    ensures i < |Rows(c, b.chain)| ==> TablesOf(c, b).txOutputs[i] == RangeAt(c, Rows(c, b.chain), i)
  {
    RowTableKeys(c, Rows(c, b.chain));
    if i < |Rows(c, b.chain)| {
      RangeTableAt(c, Rows(c, b.chain), i);
    }
    hide Kept, Rows, Outputs, RangeAt, RangeTable, Positions, IndexTable, TxTable, AllImages, BlockRows, OutTxTable;
    hide OutKeyTable;
  }

  lemma OutputIsListed(c: Crypto, b: Book, x: nat)
    requires x in TablesOf(c, b).outputTxs
    ensures x < |Outputs(c, Rows(c, b.chain))|
  {
    hide Kept, Rows, Outputs, RangeTable, Positions, IndexTable, TxTable, AllImages, BlockRows, OutTxTable, OutKeyTable;
    OutTxTableKeys(Outputs(c, Rows(c, b.chain)));
  }

  lemma RowNumbered(c: Crypto, b: Book, i: nat)
    requires Accepted(c, b) && i < |Rows(c, b.chain)|
    ensures Numbered(c, TablesOf(c, b), Rows(c, b.chain)[i])
  {
    hide Accepted, TablesOf, Kept, Outputs, Rows, LeadsTo;
    LookUp(c, b, i);
    IndexListOf(c, b, i);
    var t, rows := TablesOf(c, b), Rows(c, b.chain);
    var row := rows[i];
    var kept, start := Kept(c, row, |row.tx.vout|), |Outputs(c, rows[..i])|;
    KeptLocals(c, row, |row.tx.vout|);
    forall k | 0 <= k < |kept| ensures LeadsTo(c, t, row, start + k, kept[k].local) {
      EntryLeadsTo(c, b, i, k);
    }
    assert Lists(c, t, row, t.txOutputs[i], Locals(kept));
  }

  lemma ChainIsDense(c: Crypto, b: Book)
    ensures Dense(TablesOf(c, b))
  {
    hide Rows, Outputs, Positions, IndexTable, RangeTable, TxTable, AllImages, BlockRows, OutTxTable, OutKeyTable;
    var outs := Outputs(c, Rows(c, b.chain));
    OutTxTableKeys(outs);
    OutKeyTableKeys(outs);
    TableSize(OutTxTable(outs), |outs|);
    assert forall o :: o in OutKeyTable(outs) <==> o in Slots(|outs|);
  }

  lemma ChainOwns(c: Crypto, b: Book, x: nat)
    requires Accepted(c, b) && x in TablesOf(c, b).outputTxs
    ensures Owned(TablesOf(c, b), x)
  {
    hide Accepted, TablesOf, Kept, Outputs, Rows;
    var t, rows := TablesOf(c, b), Rows(c, b.chain);
    OutputIsListed(c, b, x);
    var i := OwnerOf(c, rows, x);
    LookUp(c, b, i);
    IndexListOf(c, b, i);
    var start := |Outputs(c, rows[..i])|;
    EntryLeadsTo(c, b, i, x - start);
    assert t.txOutputs[i][x - start] == x;
  }

  lemma ChainInOrder(c: Crypto, b: Book)
    ensures InChainOrder(TablesOf(c, b))
  {
    hide TablesOf, Kept, Outputs, Rows;
    var t, rows := TablesOf(c, b), Rows(c, b.chain);
    forall i, j, x, y | i in t.txOutputs && j in t.txOutputs && i < j && x in t.txOutputs[i] && y in t.txOutputs[j]
      ensures x < y
    {
      IndexListOf(c, b, i);
      IndexListOf(c, b, j);
      NextStart(c, rows, i);
      StartsAscend(c, rows, i + 1, j);
    }
  }

  /** Output numbering in every reachable store. After any proper run from the empty store, all
      outputs have the indices 0 to n - 1 under amount zero; every transaction of the chain, looked
      up by its hash, has a contiguous index list leading in order to exactly its outputs that were
      not mined to a burned key; every output is in the list of its own transaction; and later
      transactions have larger indices. */
  lemma ReachableNumbering(c: Crypto, ops: seq<Op>)
    requires ProperRun(c, EMPTY_BOOKS, ops)
    ensures Run(c, EMPTY_DB, ops).Done?
    ensures var t := Run(c, EMPTY_DB, ops).db.view;
            var rows := Rows(c, FollowAll(c, EMPTY_BOOKS, ops).current.chain);
            && Dense(t) && InChainOrder(t)
            && |t.txs| == |rows|
            && (forall row :: row in rows ==> Numbered(c, t, row))
            && (forall x :: x in t.outputTxs ==> Owned(t, x))
  {
    hide ProperRun, FollowAll, Run, Numbered, Owned, Dense, InChainOrder, Accepted, Rows;
    EmptyStore(c);
    RunRefines(c, EMPTY_BOOKS, ops);
    var b := FollowAll(c, EMPTY_BOOKS, ops).current;
    var t := TablesOf(c, b);
    TableKeys(c, BlockRows(c, b.chain), Rows(c, b.chain), b.burned);
    hide TablesOf;
    ChainIsDense(c, b);
    ChainInOrder(c, b);
    forall row | row in Rows(c, b.chain) ensures Numbered(c, t, row) {
      var i :| 0 <= i < |Rows(c, b.chain)| && Rows(c, b.chain)[i] == row;
      RowNumbered(c, b, i);
    }
    forall x | x in t.outputTxs ensures Owned(t, x) {
      ChainOwns(c, b, x);
    }
  }
}
