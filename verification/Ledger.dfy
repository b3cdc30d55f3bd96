/** Adding and popping blocks on the tables of a chain. */
module Ledger {
  import opened CryptoNote
  import opened StoreTables
  import opened StoreOps
  import opened StoreInverse
  import opened BlockInverse
  import opened ChainView

  /** A block of the chain with its transactions and the burned keys known when it was added. */
  datatype Entry = Entry(blk: Block, info: Info, txs: seq<Transaction>, bad: set<PublicKey>)

  /** The chain, and the key images stored without being spent by it. */
  datatype Book = Book(chain: seq<Entry>, burned: set<KeyImage>)

  predicate SizesMatch(e: Entry) {
    |e.blk.txHashes| == |e.txs|
  }

  function TxRows(hashes: seq<Hash>, txs: seq<Transaction>, height: nat, bad: set<PublicKey>): (r: seq<TxRow>)
    requires |hashes| == |txs|
    ensures |r| == |txs|
  {
    seq(|txs|, i requires 0 <= i < |txs| => TxRow(hashes[i], txs[i], height, bad))
  }

  function MinerRow(c: Crypto, e: Entry, height: nat): TxRow {
    TxRow(c.txHash(e.blk.minerTx), e.blk.minerTx, height, e.bad)
  }

  /** The transactions of an entry in the order they are added; an entry whose sizes disagree
      lists the coinbase transaction only. */
  function EntryRows(c: Crypto, e: Entry, height: nat): seq<TxRow> {
    [MinerRow(c, e, height)] + (if SizesMatch(e) then TxRows(e.blk.txHashes, e.txs, height, e.bad) else [])
  }

  function Rows(c: Crypto, chain: seq<Entry>): seq<TxRow> {
    if chain == [] then []
    else Rows(c, chain[..|chain| - 1]) + EntryRows(c, chain[|chain| - 1], |chain| - 1)
  }

  function RowOf(c: Crypto, e: Entry): BlockRow {
    BlockRow(e.blk, e.info, c.blockHash(e.blk))
  }

  function BlockRows(c: Crypto, chain: seq<Entry>): (r: seq<BlockRow>)
    ensures |r| == |chain|
  {
    seq(|chain|, i requires 0 <= i < |chain| => RowOf(c, chain[i]))
  }

  /** The tables of a chain: a function of the list of blocks and the burned key images. */
  function TablesOf(c: Crypto, b: Book): Tables {
    View(c, BlockRows(c, b.chain), Rows(c, b.chain), b.burned)
  }

  predicate EntryStorable(e: Entry) {
    Storable(e.blk.minerTx) && AllStorable(e.txs)
  }

  predicate AllStorable(txs: seq<Transaction>) {
    forall i :: 0 <= i < |txs| ==> Storable(txs[i])
  }

  /** The acceptance rule for a block: sizes agree, no transaction hash or key image repeats, no
      burned image is spent, the block is new and continues the chain. */
  predicate Accepts(c: Crypto, b: Book, e: Entry) {
    && SizesMatch(e)
    && Unspent(Rows(c, b.chain) + EntryRows(c, e, |b.chain|), b.burned)
    && c.blockHash(e.blk) !in BlockHashes(BlockRows(c, b.chain))
    && (b.chain == [] || e.blk.prevId == c.blockHash(b.chain[|b.chain| - 1].blk))
  }

  function Extend(b: Book, e: Entry): Book {
    b.(chain := b.chain + [e])
  }

  function Shorten(b: Book): Book
    requires b.chain != []
  {
    b.(chain := b.chain[..|b.chain| - 1])
  }

  /** Every entry was accepted by the chain below it. */
  predicate Accepted(c: Crypto, b: Book)
    decreases |b.chain|
  {
    b.chain != [] ==>
      var e := b.chain[|b.chain| - 1];
      Accepted(c, Shorten(b)) && EntryStorable(e) && Accepts(c, Shorten(b), e)
  }

  // ---- Adding ----

  lemma {:induction false} UnspentPrefix(rows: seq<TxRow>, more: seq<TxRow>, burned: set<KeyImage>)
    requires Unspent(rows + more, burned)
    ensures Unspent(rows, burned)
    decreases |more|
  {
    if more == [] {
      assert rows + more == rows;
    } else {
      var init, x := more[..|more| - 1], more[|more| - 1];
      assert rows + more == (rows + init) + [x];
      var s := rows + init;
      HashesGrow(s, x);
      DistinctAppend(Hashes(s), x.hash);
      AllImagesGrow(s, x);
      DistinctConcat(AllImages(s), ImageList(x.tx.vin));
      UnspentPrefix(rows, init, burned);
    }
  }

  lemma {:induction false} AddTransactionsView(c: Crypto, blocks: seq<BlockRow>, rows: seq<TxRow>,
                                               burned: set<KeyImage>,
                                               bad: set<PublicKey>, hashes: seq<Hash>, txs: seq<Transaction>)
    requires |hashes| == |txs| && Unspent(rows, burned) && AllStorable(txs)
    ensures var r := AddTransactions(c, bad, View(c, blocks, rows, burned), hashes, txs);
            var all := rows + TxRows(hashes, txs, |blocks|, bad);
            && (r.status == Ok <==> Unspent(all, burned))
            && (r.status == Ok ==> r.t == View(c, blocks, all, burned))
            && r.status != Undefined
    decreases |txs|
  {
    hide View, Unspent, AddTransaction, Storable;
    if txs == [] {
      assert rows + TxRows(hashes, txs, |blocks|, bad) == rows;
    } else {
      var n := |txs| - 1;
      AddTransactionsView(c, blocks, rows, burned, bad, hashes[..n], txs[..n]);
      var row := TxRow(hashes[n], txs[n], |blocks|, bad);
      var init := rows + TxRows(hashes[..n], txs[..n], |blocks|, bad);
      assert rows + TxRows(hashes, txs, |blocks|, bad) == init + [row];
      if Unspent(init, burned) {
        AddTransactionView(c, blocks, init, burned, row);
      } else if Unspent(init + [row], burned) {
        UnspentPrefix(init, [row], burned);
      }
    }
  }

  lemma AddBlockRowView(c: Crypto, blocks: seq<BlockRow>, rows: seq<TxRow>, burned: set<KeyImage>, row: BlockRow)
    ensures var r := AddBlockRow(View(c, blocks, rows, burned), row);
            && (r.status == Ok <==>
                row.hash !in BlockHashes(blocks) && (blocks == [] || row.blk.prevId == blocks[|blocks| - 1].hash))
            && (r.status == Ok ==> r.t == View(c, blocks + [row], rows, burned))
            && r.status != Undefined
  {
    hide TxTable, IndexTable, RangeTable, OutTxTable, OutKeyTable, Outputs, AllImages;
    var hs := BlockHashes(blocks);
    assert BlockHashes(blocks + [row]) == hs + [row.hash];
    assert (hs + [row.hash])[..|hs|] == hs;
    assert Positions(hs + [row.hash]) == Positions(hs)[row.hash := |hs|];
    if blocks != [] {
      assert hs[|hs| - 1] == blocks[|blocks| - 1].hash;
      assert Positions(hs) == Positions(hs[..|hs| - 1])[hs[|hs| - 1] := |hs| - 1];
    }
  }

  lemma RowsGrow(c: Crypto, b: Book, e: Entry)
    ensures Rows(c, Extend(b, e).chain) == Rows(c, b.chain) + EntryRows(c, e, |b.chain|)
    ensures BlockRows(c, Extend(b, e).chain) == BlockRows(c, b.chain) + [RowOf(c, e)]
    ensures Shorten(Extend(b, e)) == b
  {
    assert Extend(b, e).chain[..|b.chain|] == b.chain;
  }

  /** Adding a block to the tables of a chain succeeds exactly when the acceptance rule holds, and
      then yields the tables of the longer chain. */
  lemma AddBlockView(c: Crypto, b: Book, e: Entry)
    requires Unspent(Rows(c, b.chain), b.burned) && EntryStorable(e)
    ensures var r := AddBlock(c, e.bad, TablesOf(c, b), e.blk, e.info, e.txs);
            && (r.status == Ok <==> Accepts(c, b, e))
            && (r.status == Ok ==> r.t == TablesOf(c, Extend(b, e)))
            && r.status != Undefined
  {
    hide View, Unspent, AddTransaction, AddTransactions, AddBlockRow, Storable, TxRows, BlockHashes, Rows;
    if SizesMatch(e) {
      var blocks, rows := BlockRows(c, b.chain), Rows(c, b.chain);
      var miner := MinerRow(c, e, |b.chain|);
      var more := TxRows(e.blk.txHashes, e.txs, |b.chain|, e.bad);
      assert rows + EntryRows(c, e, |b.chain|) == (rows + [miner]) + more;
      AddTransactionView(c, blocks, rows, b.burned, miner);
      if Unspent(rows + [miner], b.burned) {
        AddTransactionsView(c, blocks, rows + [miner], b.burned, e.bad, e.blk.txHashes, e.txs);
        AddBlockRowView(c, blocks, (rows + [miner]) + more, b.burned, RowOf(c, e));
        RowsGrow(c, b, e);
      } else if Unspent((rows + [miner]) + more, b.burned) {
        UnspentPrefix(rows + [miner], more, b.burned);
      }
    }
  }

  // ---- Popping ----

  /** The top entry of an accepted chain is what adding it to the chain below produced. */
  lemma TopWasAdded(c: Crypto, b: Book)
    requires Accepted(c, b) && b.chain != []
    ensures var e := b.chain[|b.chain| - 1];
            AddBlock(c, e.bad, TablesOf(c, Shorten(b)), e.blk, e.info, e.txs) == Step(TablesOf(c, b), Ok)
  {
    hide TablesOf, AddBlock, Accepts, EntryStorable;
    var e := b.chain[|b.chain| - 1];
    AcceptedIsUnspent(c, Shorten(b));
    AddBlockView(c, Shorten(b), e);
    assert Extend(Shorten(b), e) == b;
  }

  lemma AcceptsMeansUnspent(c: Crypto, b: Book, e: Entry)
    requires Accepts(c, b, e)
    ensures Unspent(Rows(c, Extend(b, e).chain), b.burned)
  {
    hide Unspent, Rows, EntryRows;
    RowsGrow(c, b, e);
  }

  /** In an accepted chain no key image is spent twice and no burned image is spent. */
  lemma AcceptedIsUnspent(c: Crypto, b: Book)
    requires Accepted(c, b)
    ensures Unspent(Rows(c, b.chain), b.burned)
  {
    hide Accepts, EntryStorable;
    if b.chain != [] {
      hide Unspent, Rows;
      var e := b.chain[|b.chain| - 1];
      AcceptsMeansUnspent(c, Shorten(b), e);
      assert Extend(Shorten(b), e) == b;
    }
  }

  predicate Poppable(e: Entry) {
    BlockInvertible(e.bad, e.blk, e.txs)
  }

  /** Popping the entry is undefined. */
  predicate ReadsPast(e: Entry) {
    BlockReadsPast(e.bad, e.blk, e.txs)
  }

  /** Popping the tables of an accepted chain succeeds exactly when the chain is not empty and its
      top block is invertible; it yields the tables of the shorter chain, the block on top and its
      transactions in reverse order. It is undefined exactly when it reads past an index list. */
  lemma PopBlockView(c: Crypto, b: Book)
    requires Accepted(c, b)
    ensures PopBlock(c, TablesOf(c, b)).status == Ok <==> b.chain != [] && Poppable(b.chain[|b.chain| - 1])
    ensures PopBlock(c, TablesOf(c, b)).status == Undefined <==> b.chain != [] && ReadsPast(b.chain[|b.chain| - 1])
    ensures b.chain != [] && Poppable(b.chain[|b.chain| - 1]) ==>
            var e := b.chain[|b.chain| - 1];
            PopBlock(c, TablesOf(c, b)) == Popped(TablesOf(c, Shorten(b)), Ok, e.blk, Reversed(e.txs))
  {
    if b.chain == [] {
      assert TablesOf(c, b).blocks == [];
    } else {
      hide TablesOf, AddBlock, PopBlock, Accepts, BlockInvertible, BlockReadsPast, ZeroAmounts;
      var e, below := b.chain[|b.chain| - 1], Shorten(b);
      TopWasAdded(c, b);
      TablesOfZero(c, below);
      StorableIsFiled(e);
      BlockReadsPastIff(c, e.bad, TablesOf(c, below), e.blk, e.info, e.txs);
      if Poppable(e) {
        UndoBlock(c, e.bad, TablesOf(c, below), e.blk, e.info, e.txs);
      } else {
        StuckBlock(c, e.bad, TablesOf(c, below), e.blk, e.info, e.txs);
      }
    }
  }

  lemma TablesOfZero(c: Crypto, b: Book)
    ensures ZeroAmounts(TablesOf(c, b).outputAmounts)
  {
    TableKeys(c, BlockRows(c, b.chain), Rows(c, b.chain), b.burned);
  }

  lemma StorableIsFiled(e: Entry)
    requires EntryStorable(e)
    ensures Supported(e.blk.minerTx.vin) && AllSupported(e.txs)
    ensures AllFiled([e.blk.minerTx]) && AllFiled(e.txs)
  {
  }
}
