/** What a reachable store holds, said of the blocks of the chain, their transactions and inputs. */
module ChainContents {
  import opened CryptoNote
  import opened StoreTables
  import opened StoreOps
  import opened StoreInverse
  import opened ChainView
  import opened Ledger
  import opened StoreRuns
  import opened OutputNumbering

  // ---- Transactions of a chain ----

  /** Transaction `index` of a block; the coinbase transaction comes first. */
  datatype TxPlace = TxPlace(block: nat, index: nat)

  predicate IsTx(chain: seq<Entry>, p: TxPlace) {
    p.block < |chain| && p.index <= |chain[p.block].txs|
  }

  predicate Listed(chain: seq<Entry>) {
    forall h :: 0 <= h < |chain| ==> |chain[h].blk.txHashes| == |chain[h].txs|
  }

  function TxAt(chain: seq<Entry>, p: TxPlace): Transaction
    requires IsTx(chain, p)
  {
    if p.index == 0 then chain[p.block].blk.minerTx else chain[p.block].txs[p.index - 1]
  }

  function HashAt(c: Crypto, chain: seq<Entry>, p: TxPlace): Hash
    requires Listed(chain) && IsTx(chain, p)
  {
    if p.index == 0 then c.txHash(chain[p.block].blk.minerTx) else chain[p.block].blk.txHashes[p.index - 1]
  }

  predicate TxBefore(a: TxPlace, b: TxPlace) {
    a.block < b.block || (a.block == b.block && a.index < b.index)
  }

  /** The rows are those of the places, the places are in order and are all there are. */
  ghost predicate RowsInOrder(c: Crypto, chain: seq<Entry>, rows: seq<TxRow>, ps: seq<TxPlace>)
    requires Listed(chain)
  {
    && |ps| == |rows|
    && (forall i, j :: 0 <= i < j < |ps| ==> TxBefore(ps[i], ps[j]))
    && (forall j :: 0 <= j < |ps| ==> IsTx(chain, ps[j]))
    && (forall j :: 0 <= j < |ps| ==>
          rows[j] == TxRow(HashAt(c, chain, ps[j]), TxAt(chain, ps[j]), ps[j].block, chain[ps[j].block].bad))
    && (forall p :: IsTx(chain, p) ==> p in ps)
  }

  function PlacesIn(n: nat, len: nat): (ps: seq<TxPlace>)
    ensures |ps| == len + 1 && forall i :: 0 <= i <= len ==> ps[i] == TxPlace(n, i)
  {
    seq(len + 1, i requires 0 <= i => TxPlace(n, i))
  }

  lemma {:induction false} RowsAreTxs(c: Crypto, chain: seq<Entry>) returns (ps: seq<TxPlace>)
    requires Listed(chain)
    ensures RowsInOrder(c, chain, Rows(c, chain), ps)
  {
    ps := [];
    if chain != [] {
      var n := |chain| - 1;
      assert forall h :: 0 <= h < n ==> chain[..n][h] == chain[h];
      ps := RowsAreTxs(c, chain[..n]);
      RowsJoin(c, chain, Rows(c, chain[..n]), ps);
      ps := ps + PlacesIn(n, |chain[n].txs|);
    }
  }

  lemma RowsJoin(c: Crypto, chain: seq<Entry>, rows: seq<TxRow>, ps: seq<TxPlace>)
    requires chain != [] && Listed(chain) && Listed(chain[..|chain| - 1])
    requires RowsInOrder(c, chain[..|chain| - 1], rows, ps)
    ensures var n := |chain| - 1;
            RowsInOrder(c, chain, rows + EntryRows(c, chain[n], n), ps + PlacesIn(n, |chain[n].txs|))
  {
    var n := |chain| - 1;
    var more, last := EntryRows(c, chain[n], n), PlacesIn(n, |chain[n].txs|);
    var all, places := rows + more, ps + last;
    forall j | 0 <= j < |places|
      ensures IsTx(chain, places[j])
      ensures all[j] ==
              TxRow(HashAt(c, chain, places[j]), TxAt(chain, places[j]), places[j].block, chain[places[j].block].bad)
    {
      if j < |ps| {
        assert IsTx(chain[..n], ps[j]);
      } else {
        assert all[j] == more[j - |ps|];
      }
    }
    forall p | IsTx(chain, p) ensures p in places {
      if p.block < n {
        assert IsTx(chain[..n], p);
      } else {
        assert last[p.index] == p;
      }
    }
  }

  // ---- Inputs of a chain ----

  datatype InputPlace = InputPlace(block: nat, index: nat, input: nat)

  /** The key input at the place carries the image. */
  predicate Spends(chain: seq<Entry>, p: InputPlace, ki: KeyImage) {
    && IsTx(chain, TxPlace(p.block, p.index))
    && var vin := TxAt(chain, TxPlace(p.block, p.index)).vin;
       p.input < |vin| && vin[p.input].ToKey? && vin[p.input].kImage == ki
  }

  /** The images are those of the key inputs, in order. */
  ghost predicate KeysInOrder(vin: seq<TxIn>, images: seq<KeyImage>, ks: seq<nat>) {
    && |ks| == |images|
    && (forall i, j :: 0 <= i < j < |ks| ==> ks[i] < ks[j])
    && (forall i :: 0 <= i < |ks| ==> ks[i] < |vin| && vin[ks[i]].ToKey? && vin[ks[i]].kImage == images[i])
    && (forall k :: 0 <= k < |vin| && vin[k].ToKey? ==> k in ks)
  }

  lemma KeysOneMore(vin: seq<TxIn>, input: TxIn, images: seq<KeyImage>, ks: seq<nat>)
    requires KeysInOrder(vin, images, ks)
    ensures if input.ToKey? then KeysInOrder(vin + [input], images + [input.kImage], ks + [|vin|])
            else KeysInOrder(vin + [input], images, ks)
  {
    assert forall k :: 0 <= k < |vin| ==> (vin + [input])[k] == vin[k];
    assert (vin + [input])[|vin|] == input;
  }

  lemma {:induction false} ImagesAreKeys(vin: seq<TxIn>) returns (ks: seq<nat>)
    ensures KeysInOrder(vin, ImageList(vin), ks)
  {
    ks := [];
    if vin != [] {
      var n := |vin| - 1;
      ks := ImagesAreKeys(vin[..n]);
      hide KeysInOrder;
      assert vin == vin[..n] + [vin[n]];
      KeysOneMore(vin[..n], vin[n], ImageList(vin[..n]), ks);
      if vin[n].ToKey? {
        ks := ks + [n];
      }
    }
  }

  /** Input `input` of row `row`. */
  datatype RowInput = RowInput(row: nat, input: nat)

  predicate InputBefore(a: RowInput, b: RowInput) {
    a.row < b.row || (a.row == b.row && a.input < b.input)
  }

  predicate RowSpends(rows: seq<TxRow>, q: RowInput) {
    q.row < |rows| && q.input < |rows[q.row].tx.vin| && rows[q.row].tx.vin[q.input].ToKey?
  }

  function ImageAt(rows: seq<TxRow>, q: RowInput): KeyImage
    requires RowSpends(rows, q)
  {
    rows[q.row].tx.vin[q.input].kImage
  }

  ghost predicate ImagesInOrder(rows: seq<TxRow>, images: seq<KeyImage>, qs: seq<RowInput>) {
    && |qs| == |images|
    && (forall i, j :: 0 <= i < j < |qs| ==> InputBefore(qs[i], qs[j]))
    && (forall i :: 0 <= i < |qs| ==> RowSpends(rows, qs[i]))
    && (forall i :: 0 <= i < |qs| ==> ImageAt(rows, qs[i]) == images[i])
    && (forall q :: RowSpends(rows, q) ==> q in qs)
  }

  function InputsIn(r: nat, ks: seq<nat>): (qs: seq<RowInput>)
    ensures |qs| == |ks| && forall i :: 0 <= i < |ks| ==> qs[i] == RowInput(r, ks[i])
  {
    seq(|ks|, i requires 0 <= i < |ks| => RowInput(r, ks[i]))
  }

  lemma {:induction false} ImagesAreInputs(rows: seq<TxRow>) returns (qs: seq<RowInput>)
    ensures ImagesInOrder(rows, AllImages(rows), qs)
  {
    qs := [];
    if rows != [] {
      var n := |rows| - 1;
      qs := ImagesAreInputs(rows[..n]);
      var ks := ImagesAreKeys(rows[n].tx.vin);
      ImagesJoin(rows, AllImages(rows[..n]), qs, ImageList(rows[n].tx.vin), ks);
      qs := qs + InputsIn(n, ks);
    }
  }

  lemma ImagesJoin(rows: seq<TxRow>, images: seq<KeyImage>, qs: seq<RowInput>, more: seq<KeyImage>, ks: seq<nat>)
    requires rows != [] && ImagesInOrder(rows[..|rows| - 1], images, qs)
    requires KeysInOrder(rows[|rows| - 1].tx.vin, more, ks)
    ensures ImagesInOrder(rows, images + more, qs + InputsIn(|rows| - 1, ks))
  {
    var n := |rows| - 1;
    var all, last := qs + InputsIn(n, ks), InputsIn(n, ks);
    forall i | 0 <= i < |all| ensures RowSpends(rows, all[i]) && ImageAt(rows, all[i]) == (images + more)[i] {
      if i < |qs| {
        assert RowSpends(rows[..n], qs[i]);
      } else {
        assert all[i] == RowInput(n, ks[i - |qs|]);
      }
    }
    forall q | RowSpends(rows, q) ensures q in all {
      if q.row < n {
        assert RowSpends(rows[..n], q);
      } else {
        var i :| 0 <= i < |ks| && ks[i] == q.input;
        assert all[|qs| + i] == q;
      }
    }
  }

  // ---- Repetitions ----

  ghost predicate HashesDiffer(c: Crypto, chain: seq<Entry>)
    requires Listed(chain)
  {
    forall a, b :: IsTx(chain, a) && IsTx(chain, b) && HashAt(c, chain, a) == HashAt(c, chain, b) ==> a == b
  }

  ghost predicate ImagesDiffer(chain: seq<Entry>) {
    forall a, b, ki :: Spends(chain, a, ki) && Spends(chain, b, ki) ==> a == b
  }

  ghost predicate RowImagesDiffer(rows: seq<TxRow>) {
    forall q, r :: RowSpends(rows, q) && RowSpends(rows, r) && ImageAt(rows, q) == ImageAt(rows, r) ==> q == r
  }

  lemma HashesDifferIff(c: Crypto, chain: seq<Entry>)
    requires Listed(chain)
    ensures Distinct(Hashes(Rows(c, chain))) <==> HashesDiffer(c, chain)
  {
    var ps := RowsAreTxs(c, chain);
    hide Rows, HashAt, TxAt, IsTx;
    var rows, hs := Rows(c, chain), Hashes(Rows(c, chain));
    if Distinct(hs) {
      forall a, b | IsTx(chain, a) && IsTx(chain, b) && HashAt(c, chain, a) == HashAt(c, chain, b) ensures a == b {
        var i :| 0 <= i < |ps| && ps[i] == a;
        var j :| 0 <= j < |ps| && ps[j] == b;
        assert hs[i] == rows[i].hash && hs[j] == rows[j].hash;
      }
    }
    if HashesDiffer(c, chain) {
      forall i, j | 0 <= i < j < |hs| ensures hs[i] != hs[j] {
        assert hs[i] == rows[i].hash && hs[j] == rows[j].hash;
        assert TxBefore(ps[i], ps[j]) && IsTx(chain, ps[i]) && IsTx(chain, ps[j]);
      }
    }
  }

  lemma RowImagesDifferIff(rows: seq<TxRow>)
    ensures Distinct(AllImages(rows)) <==> RowImagesDiffer(rows)
  {
    var qs := ImagesAreInputs(rows);
    hide AllImages, RowSpends, ImageAt;
    var images := AllImages(rows);
    if Distinct(images) {
      forall q, r | RowSpends(rows, q) && RowSpends(rows, r) && ImageAt(rows, q) == ImageAt(rows, r) ensures q == r {
        var i :| 0 <= i < |qs| && qs[i] == q;
        var j :| 0 <= j < |qs| && qs[j] == r;
        assert images[i] == images[j];
      }
    }
    if RowImagesDiffer(rows) {
      forall i, j | 0 <= i < j < |images| ensures images[i] != images[j] {
        assert InputBefore(qs[i], qs[j]) && RowSpends(rows, qs[i]) && RowSpends(rows, qs[j]);
      }
    }
  }

  /** Input q of the rows is the input at a place of the chain. */
  lemma PlaceOfInput(c: Crypto, chain: seq<Entry>, ps: seq<TxPlace>, q: RowInput)
    requires Listed(chain) && RowsInOrder(c, chain, Rows(c, chain), ps) && q.row < |ps|
    ensures var rows, a := Rows(c, chain), InputPlace(ps[q.row].block, ps[q.row].index, q.input);
            && (RowSpends(rows, q) ==> Spends(chain, a, ImageAt(rows, q)))
            && forall ki :: Spends(chain, a, ki) ==> RowSpends(rows, q) && ImageAt(rows, q) == ki
  {
    hide Rows;
    assert IsTx(chain, ps[q.row]);
    assert TxPlace(ps[q.row].block, ps[q.row].index) == ps[q.row];
  }

  lemma RowOfTx(c: Crypto, chain: seq<Entry>, ps: seq<TxPlace>, p: TxPlace) returns (r: nat)
    requires Listed(chain) && RowsInOrder(c, chain, Rows(c, chain), ps) && IsTx(chain, p)
    ensures r < |ps| && ps[r] == p
  {
    r :| 0 <= r < |ps| && ps[r] == p;
  }

  lemma ImagesDifferIff(c: Crypto, chain: seq<Entry>)
    requires Listed(chain)
    ensures Distinct(AllImages(Rows(c, chain))) <==> ImagesDiffer(chain)
  {
    var rows := Rows(c, chain);
    var ps := RowsAreTxs(c, chain);
    RowImagesDifferIff(rows);
    hide Rows, AllImages, Distinct, RowsInOrder, RowSpends, ImageAt;
    if RowImagesDiffer(rows) {
      forall a, b, ki | Spends(chain, a, ki) && Spends(chain, b, ki) ensures a == b {
        var i := RowOfTx(c, chain, ps, TxPlace(a.block, a.index));
        var j := RowOfTx(c, chain, ps, TxPlace(b.block, b.index));
        PlaceOfInput(c, chain, ps, RowInput(i, a.input));
        PlaceOfInput(c, chain, ps, RowInput(j, b.input));
        assert RowInput(i, a.input) == RowInput(j, b.input);
      }
    }
    if ImagesDiffer(chain) {
      SameRow(c, chain, ps);
    }
  }

  lemma SameRow(c: Crypto, chain: seq<Entry>, ps: seq<TxPlace>)
    requires Listed(chain) && RowsInOrder(c, chain, Rows(c, chain), ps) && ImagesDiffer(chain)
    ensures RowImagesDiffer(Rows(c, chain))
  {
    hide Rows, Spends;
    var rows := Rows(c, chain);
    assert forall i, j :: 0 <= i < j < |ps| ==> ps[i] != ps[j] by {
      assert forall i, j :: 0 <= i < j < |ps| ==> TxBefore(ps[i], ps[j]);
    }
    forall q, r | RowSpends(rows, q) && RowSpends(rows, r) && ImageAt(rows, q) == ImageAt(rows, r) ensures q == r {
      PlaceOfInput(c, chain, ps, q);
      PlaceOfInput(c, chain, ps, r);
      assert ps[q.row] == ps[r.row];
    }
  }

  /** The images of a chain are those of its key inputs. */
  lemma ImageIff(c: Crypto, chain: seq<Entry>, ki: KeyImage)
    requires Listed(chain)
    ensures ki in AllImages(Rows(c, chain)) <==> exists a :: Spends(chain, a, ki)
  {
    var rows := Rows(c, chain);
    var ps := RowsAreTxs(c, chain);
    var qs := ImagesAreInputs(rows);
    hide Rows, AllImages;
    if ki in AllImages(rows) {
      var i :| 0 <= i < |qs| && AllImages(rows)[i] == ki;
      PlaceOfInput(c, chain, ps, qs[i]);
    }
    if a :| Spends(chain, a, ki) {
      var r := RowOfTx(c, chain, ps, TxPlace(a.block, a.index));
      var q := RowInput(r, a.input);
      PlaceOfInput(c, chain, ps, q);
      assert q in qs;
      var i :| 0 <= i < |qs| && qs[i] == q;
      assert AllImages(rows)[i] == ki;
    }
  }

  /** The ledger of a chain is free of double spends if and only if no two of its transactions have the
      same hash, no two of its key inputs carry the same image, and none carries a burned one. */
  lemma UnspentIff(c: Crypto, chain: seq<Entry>, burned: set<KeyImage>)
    requires Listed(chain)
    ensures Unspent(Rows(c, chain), burned) <==>
            && HashesDiffer(c, chain) && ImagesDiffer(chain)
            && (forall a, ki :: Spends(chain, a, ki) ==> ki !in burned)
  {
    HashesDifferIff(c, chain);
    ImagesDifferIff(c, chain);
    hide Distinct, HashesDiffer, ImagesDiffer, Spends, Rows, AllImages, Hashes;
    forall ki ensures ki in AllImages(Rows(c, chain)) <==> exists a :: Spends(chain, a, ki) {
      ImageIff(c, chain, ki);
    }
    assert forall ki :: ki in Elements(AllImages(Rows(c, chain))) <==> ki in AllImages(Rows(c, chain));
  }

  // ---- Reachable stores ----

  lemma {:induction false} AcceptedIsListed(c: Crypto, b: Book)
    requires Accepted(c, b)
    ensures Listed(b.chain)
    decreases |b.chain|
  {
    hide Unspent, EntryStorable;
    if b.chain != [] {
      AcceptedIsListed(c, Shorten(b));
      assert forall h :: 0 <= h < |b.chain| - 1 ==> Shorten(b).chain[h] == b.chain[h];
    }
  }

  /** The acceptance rule, said of the blocks: the sizes agree; in the longer chain no two transactions
      have the same hash, no two key inputs carry the same image, and none a burned one; the block is
      new; and it names the last block as its parent. */
  ghost predicate Continues(c: Crypto, b: Book, e: Entry)
    requires Listed(b.chain)
  {
    && |e.blk.txHashes| == |e.txs|
    && Listed(b.chain + [e]) && HashesDiffer(c, b.chain + [e]) && ImagesDiffer(b.chain + [e])
    && (forall a, ki :: Spends(b.chain + [e], a, ki) ==> ki !in b.burned)
    && (forall h :: 0 <= h < |b.chain| ==> c.blockHash(b.chain[h].blk) != c.blockHash(e.blk))
    && (b.chain != [] ==> e.blk.prevId == c.blockHash(b.chain[|b.chain| - 1].blk))
  }

  lemma AcceptsIff(c: Crypto, b: Book, e: Entry)
    requires Listed(b.chain)
    ensures Accepts(c, b, e) <==> Continues(c, b, e)
  {
    var hs := BlockHashes(BlockRows(c, b.chain));
    assert forall h :: 0 <= h < |b.chain| ==> hs[h] == c.blockHash(b.chain[h].blk);
    if |e.blk.txHashes| == |e.txs| {
      RowsGrow(c, b, e);
      assert Listed(b.chain + [e]);
      UnspentIff(c, b.chain + [e], b.burned);
    }
    hide Unspent, Rows, EntryRows, HashesDiffer, ImagesDiffer, Spends;
  }

  /** In every reachable store a well-formed block is added if and only if it continues the chain. */
  lemma ReachableAddIff(c: Crypto, ops: seq<Op>, blk: Block, info: Info, txs: seq<Transaction>)
    requires ProperRun(c, EMPTY_BOOKS, ops)
    requires var a := FollowAll(c, EMPTY_BOOKS, ops); EntryStorable(Entry(blk, info, txs, a.bad))
    ensures Run(c, EMPTY_DB, ops).Done?
    ensures var a := FollowAll(c, EMPTY_BOOKS, ops);
            && Listed(a.current.chain)
            && var r := Apply(c, Run(c, EMPTY_DB, ops).db, Add(blk, info, txs));
               r.Done? && (r.status == Ok <==> Continues(c, a.current, Entry(blk, info, txs, a.bad)))
  {
    EmptyStore(c);
    RunRefines(c, EMPTY_BOOKS, ops);
    NeverReadOnly(c, ops);
    var a, e := FollowAll(c, EMPTY_BOOKS, ops), Entry(blk, info, txs, FollowAll(c, EMPTY_BOOKS, ops).bad);
    hide Run, FollowAll, ProperRun, AddBlock, EntryStorable, TablesOf, Accepts, Continues, Unspent;
    AcceptedIsListed(c, a.current);
    AcceptsIff(c, a.current, e);
    AcceptedIsUnspent(c, a.current);
    AddBlockView(c, a.current, e);
    AcceptsIsListed(c, a.current, e);
  }

  lemma AcceptsIsListed(c: Crypto, b: Book, e: Entry)
    ensures Accepts(c, b, e) ==> |e.blk.txHashes| == |e.txs|
  {
  }

  lemma {:induction false} NeverReadOnly(c: Crypto, ops: seq<Op>)
    ensures !FollowAll(c, EMPTY_BOOKS, ops).readOnly
  {
    hide Succeeds;
    if ops != [] {
      NeverReadOnly(c, ops[..|ops| - 1]);
    }
  }

  /** The block table lists the chain, each block with its metadata, its hash and its height. */
  ghost predicate HoldsBlocks(c: Crypto, t: Tables, chain: seq<Entry>) {
    && |t.blocks| == |chain|
    && (forall h :: 0 <= h < |chain| ==>
      t.blocks[h] == BlockRow(chain[h].blk, chain[h].info, c.blockHash(chain[h].blk)))
    && (forall h :: 0 <= h < |chain| ==>
          t.blocks[h].hash in t.blockHeights && t.blockHeights[t.blocks[h].hash] == h)
    && (forall hash :: hash in t.blockHeights ==> exists h :: 0 <= h < |chain| && t.blocks[h].hash == hash)
  }

  /** Looked up by its hash, a transaction of the chain is found with its lock time and its height. */
  ghost predicate HoldsTx(c: Crypto, t: Tables, chain: seq<Entry>, p: TxPlace)
    requires Listed(chain) && IsTx(chain, p)
  {
    && HashAt(c, chain, p) in t.txIndices
    && var row := t.txIndices[HashAt(c, chain, p)];
       && row.txId in t.txs && t.txs[row.txId] == TxAt(chain, p)
       && row.unlockTime == TxAt(chain, p).unlockTime && row.blockId == p.block
  }

  lemma {:induction false} BlockHashesDiffer(c: Crypto, b: Book)
    requires Accepted(c, b)
    ensures Distinct(BlockHashes(BlockRows(c, b.chain)))
    decreases |b.chain|
  {
    hide Unspent, EntryStorable, Distinct;
    if b.chain == [] {
      assert Distinct(BlockHashes(BlockRows(c, []))) by { NoneDiffer<Hash>(); assert BlockHashes(BlockRows(c,
        [])) == []; }
    } else {
      var e := b.chain[|b.chain| - 1];
      BlockHashesDiffer(c, Shorten(b));
      var hs := BlockHashes(BlockRows(c, Shorten(b).chain));
      DistinctAppend(hs, c.blockHash(e.blk));
      assert BlockHashes(BlockRows(c, b.chain)) == hs + [c.blockHash(e.blk)];
    }
  }

  lemma NoneDiffer<T>()
    ensures Distinct<T>([])
  {
  }

  lemma PositionsAt(hs: seq<Hash>)
    requires Distinct(hs)
    ensures forall h :: 0 <= h < |hs| ==> hs[h] in Positions(hs) && Positions(hs)[hs[h]] == h
  {
    forall h | 0 <= h < |hs| ensures hs[h] in Positions(hs) && Positions(hs)[hs[h]] == h {
      assert hs[h] in Elements(hs);
    }
  }

  lemma AcceptedHoldsBlocks(c: Crypto, b: Book)
    requires Accepted(c, b)
    ensures HoldsBlocks(c, TablesOf(c, b), b.chain)
  {
    hide Accepted, Rows, Positions, Distinct, TablesOf;
    BlockHashesDiffer(c, b);
    BlockTables(c, b);
    var t, rows := TablesOf(c, b), BlockRows(c, b.chain);
    PositionsAt(BlockHashes(rows));
    assert forall h :: 0 <= h < |rows| ==> BlockHashes(rows)[h] == t.blocks[h].hash;
    forall hash | hash in t.blockHeights ensures exists h :: 0 <= h < |b.chain| && t.blocks[h].hash == hash {
      assert BlockHashes(rows)[t.blockHeights[hash]] == hash;
    }
  }

  lemma BlockTables(c: Crypto, b: Book)
    ensures var t, rows := TablesOf(c, b), BlockRows(c, b.chain);
            t.blocks == rows && t.blockHeights == Positions(BlockHashes(rows))
  {
    hide Rows, BlockRows, Positions, BlockHashes;
  }

  /** Every block names the one below as its parent. */
  predicate Linked(c: Crypto, chain: seq<Entry>) {
    forall h :: 0 < h < |chain| ==> chain[h].blk.prevId == c.blockHash(chain[h - 1].blk)
  }

  lemma {:induction false} AcceptedIsLinked(c: Crypto, b: Book)
    requires Accepted(c, b)
    ensures Linked(c, b.chain)
    decreases |b.chain|
  {
    hide Unspent, EntryStorable;
    if b.chain != [] {
      AcceptedIsLinked(c, Shorten(b));
      assert forall h :: 0 <= h < |b.chain| - 1 ==> Shorten(b).chain[h] == b.chain[h];
    }
  }

  lemma AcceptedHoldsTx(c: Crypto, b: Book, p: TxPlace)
    requires Accepted(c, b) && Listed(b.chain) && IsTx(b.chain, p)
    ensures HoldsTx(c, TablesOf(c, b), b.chain, p)
    ensures TxRow(HashAt(c, b.chain, p), TxAt(b.chain, p), p.block, b.chain[p.block].bad) in Rows(c, b.chain)
  {
    AcceptedIsUnspent(c, b);
    var rows := Rows(c, b.chain);
    var ps := RowsAreTxs(c, b.chain);
    var r := RowOfTx(c, b.chain, ps, p);
    hide Rows, Accepted, Distinct, Hashes, TxTable, IndexTable, RangeTable, OutTxTable, OutKeyTable, Outputs, AllImages;
    hide BlockRows, Positions;
    RowTablesAt(rows, r);
    assert rows[r] in rows;
  }

  lemma AcceptedHoldsNoOther(c: Crypto, b: Book, hash: Hash)
    requires Accepted(c, b) && Listed(b.chain) && hash in TablesOf(c, b).txIndices
    ensures exists p :: IsTx(b.chain, p) && HashAt(c, b.chain, p) == hash
  {
    var rows := Rows(c, b.chain);
    var ps := RowsAreTxs(c, b.chain);
    hide Rows, Accepted, TxTable, IndexTable, RangeTable, OutTxTable, OutKeyTable, Outputs, AllImages, BlockRows;
    hide Positions;
    RowTableKeys(c, rows);
    assert hash in Hashes(rows);
    var j :| 0 <= j < |rows| && Hashes(rows)[j] == hash;
    assert IsTx(b.chain, ps[j]);
  }

  /** The store holds the chain. The block table is the chain, each block naming the one below as its
      parent. Each transaction of the chain is found by its hash with its height, and no other hash is
      found. No two key inputs of the chain carry the same image; the stored images are those of its
      key inputs and the burned ones, which no input carries. */
  ghost predicate Holds(c: Crypto, t: Tables, b: Book) {
    && Listed(b.chain) && Linked(c, b.chain) && HoldsBlocks(c, t, b.chain)
    && (forall p :: IsTx(b.chain, p) ==> HoldsTx(c, t, b.chain, p))
    && (forall hash :: hash in t.txIndices ==> exists p :: IsTx(b.chain, p) && HashAt(c, b.chain, p) == hash)
    && ImagesDiffer(b.chain)
    && (forall ki :: ki in t.spentKeys <==> ki in b.burned || exists a :: Spends(b.chain, a, ki))
    && (forall a, ki :: Spends(b.chain, a, ki) ==> ki !in b.burned)
  }

  lemma StoredImages(c: Crypto, b: Book, ki: KeyImage)
    requires Listed(b.chain)
    ensures ki in TablesOf(c, b).spentKeys <==> ki in b.burned || exists a :: Spends(b.chain, a, ki)
  {
    ImageIff(c, b.chain, ki);
    hide Rows, AllImages, Spends;
  }

  lemma AcceptedHolds(c: Crypto, b: Book)
    requires Accepted(c, b)
    ensures Holds(c, TablesOf(c, b), b)
  {
    hide TablesOf, Accepted, Rows, Linked, HoldsBlocks, HoldsTx, ImagesDiffer, HashesDiffer, Spends, Unspent, HashAt;
    hide IsTx;
    AcceptedIsListed(c, b);
    AcceptedIsLinked(c, b);
    AcceptedIsUnspent(c, b);
    UnspentIff(c, b.chain, b.burned);
    AcceptedHoldsBlocks(c, b);
    var t := TablesOf(c, b);
    forall p | IsTx(b.chain, p) ensures HoldsTx(c, t, b.chain, p) {
      AcceptedHoldsTx(c, b, p);
    }
    forall hash | hash in t.txIndices ensures exists p :: IsTx(b.chain, p) && HashAt(c, b.chain, p) == hash {
      AcceptedHoldsNoOther(c, b, hash);
    }
    forall ki ensures ki in t.spentKeys <==> ki in b.burned || exists a :: Spends(b.chain, a, ki) {
      StoredImages(c, b, ki);
    }
  }

  /** After any proper run from the empty store, the store holds the chain of the reference machine, and
      the outputs of every transaction of the chain are numbered as they should be. */
  lemma ReachableContents(c: Crypto, ops: seq<Op>)
    requires ProperRun(c, EMPTY_BOOKS, ops)
    ensures Run(c, EMPTY_DB, ops).Done?
    ensures var t, b := Run(c, EMPTY_DB, ops).db.view, FollowAll(c, EMPTY_BOOKS, ops).current;
            && Holds(c, t, b)
            && forall p :: IsTx(b.chain, p) ==>
                 Numbered(c, t, TxRow(HashAt(c, b.chain, p), TxAt(b.chain, p), p.block, b.chain[p.block].bad))
  {
    EmptyStore(c);
    RunRefines(c, EMPTY_BOOKS, ops);
    ReachableNumbering(c, ops);
    hide Run, FollowAll, ProperRun, Numbered, Holds, Dense, InChainOrder, Owned, Accepted, Rows, TablesOf;
    var b := FollowAll(c, EMPTY_BOOKS, ops).current;
    AcceptedIsListed(c, b);
    AcceptedHolds(c, b);
    forall p | IsTx(b.chain, p)
      ensures TxRow(HashAt(c, b.chain, p), TxAt(b.chain, p), p.block, b.chain[p.block].bad) in Rows(c, b.chain)
    {
      AcceptedHoldsTx(c, b, p);
    }
  }
}
