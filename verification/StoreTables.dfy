/** The tables of the block store and its primitive operations. Each operation returns the tables
    it leaves behind together with its outcome; a failed operation may leave earlier writes. */
module StoreTables {
  import opened CryptoNote

  type Key = nat

  datatype Transaction = Transaction(
    version: nat,
    unlockTime: u64,
    vin: seq<TxIn>,
    vout: seq<TxOut>,
    outPk: seq<Key>)

  datatype Block = Block(prevId: Hash, timestamp: u64, minerTx: Transaction, txHashes: seq<Hash>)

  /** A default-constructed block. */
  const NULL_BLOCK := Block(0, 0, Transaction(0, 0, [], [], []), [])

  /** Metadata stored beside a block. */
  datatype Info = Info(size: nat, difficulty: nat, coins: u64)

  /** Hashing and commitments are arbitrary functions. */
  datatype Crypto = Crypto(
    txHash: Transaction -> Hash,
    blockHash: Block -> Hash,
    zeroCommit: u64 -> Key)

  datatype BlockRow = BlockRow(blk: Block, info: Info, hash: Hash)
  datatype TxIndex = TxIndex(txId: nat, unlockTime: u64, blockId: nat)
  datatype OutTx = OutTx(txHash: Hash, localIndex: nat)
  datatype OutKey = OutKey(outputId: nat, pubkey: PublicKey, unlockTime: u64, height: nat, commitment: Key)

  datatype Tables = Tables(
    blocks: seq<BlockRow>,               // blocks and block_info, written and removed together
    blockHeights: map<Hash, nat>,
    txs: map<nat, Transaction>,
    txIndices: map<Hash, TxIndex>,
    txOutputs: map<nat, seq<nat>>,
    outputTxs: map<nat, OutTx>,
    outputAmounts: map<Output, OutKey>,
    spentKeys: set<KeyImage>)

  const EMPTY_TABLES := Tables([], map[], map[], map[], map[], map[], map[], {})

  /** The exceptions of the store. `Undefined` stands for reading a vector out of range or an
      uninitialised value, after which nothing is known. */
  datatype Status =
    | Ok
    | KeyImageExists
    | TxExists
    | TxMissing
    | OutputMissing
    | BlockExists
    | BlockMissing
    | ParentMissing
    | SizeMismatch
    | TxnStart
    | DbError
    | Undefined

  datatype Step = Step(t: Tables, status: Status)

  /** An append-only put succeeds only behind the last key. */
  predicate Appends<V>(m: map<nat, V>, k: nat) {
    forall j :: j in m ==> j < k
  }

  function AmountCount(t: Tables, amount: u64): nat {
    |set o | o in t.outputAmounts && o.amount == amount|
  }

  predicate AppendsAmount(t: Tables, amount: u64, index: nat) {
    forall o :: o in t.outputAmounts && o.amount == amount ==> o.index < index
  }

  // ---- Blocks ----

  function AddBlockRow(t: Tables, row: BlockRow): Step {
    if row.hash in t.blockHeights then Step(t, BlockExists)
    else if |t.blocks| > 0 && row.blk.prevId !in t.blockHeights then Step(t, DbError)
    else if |t.blocks| > 0 && t.blockHeights[row.blk.prevId] != |t.blocks| - 1 then Step(t, ParentMissing)
    else Step(t.(blocks := t.blocks + [row], blockHeights := t.blockHeights[row.hash := |t.blocks|]), Ok)
  }

  function RemoveBlockRow(t: Tables): Step {
    if t.blocks == [] then Step(t, BlockMissing)
    else
      var hash := t.blocks[|t.blocks| - 1].hash;
      if hash !in t.blockHeights then Step(t, DbError)
      else Step(t.(blocks := t.blocks[..|t.blocks| - 1], blockHeights := t.blockHeights - {hash}), Ok)
  }

  // ---- Transactions ----

  function AddTransactionData(t: Tables, tx: Transaction, hash: Hash): Step {
    var id := |t.txs|;
    if hash in t.txIndices then Step(t, TxExists)
    else
      var u := t.(txIndices := t.txIndices[hash := TxIndex(id, tx.unlockTime, |t.blocks|)]);
      if !Appends(u.txs, id) then Step(u, DbError)
      else Step(u.(txs := u.txs[id := tx]), Ok)
  }

  function AddIndices(t: Tables, id: nat, indices: seq<nat>): Step {
    if !Appends(t.txOutputs, id) then Step(t, DbError)
    else Step(t.(txOutputs := t.txOutputs[id := indices]), Ok)
  }

  predicate HasTx(t: Tables, hash: Hash) {
    hash in t.txIndices && t.txIndices[hash].txId in t.txs
  }

  function TxOf(t: Tables, hash: Hash): Transaction
    requires HasTx(t, hash)
  {
    t.txs[t.txIndices[hash].txId]
  }

  // ---- Outputs ----

  datatype Added = Added(t: Tables, status: Status, index: nat)

  function AddOutput(t: Tables, hash: Hash, out: TxOut, local: nat, unlockTime: u64, commitment: Key): Added {
    var id := |t.outputTxs|;
    if out.amount != 0 || !out.target.OutToKey? then Added(t, DbError, 0)
    else if !Appends(t.outputTxs, id) then Added(t, DbError, 0)
    else
      var u := t.(outputTxs := t.outputTxs[id := OutTx(hash, local)]);
      var index := AmountCount(u, out.amount);
      if !AppendsAmount(u, out.amount, index) then Added(u, DbError, 0)
      else
        var row := OutKey(id, out.target.key, unlockTime, |t.blocks|, commitment);
        Added(u.(outputAmounts := u.outputAmounts[Output(out.amount, index) := row]), Ok, index)
  }

  function RemoveOutput(t: Tables, amount: u64, index: nat): Step {
    var o := Output(amount, index);
    if o !in t.outputAmounts then Step(t, OutputMissing)
    else
      var id := t.outputAmounts[o].outputId;
      if id !in t.outputTxs then Step(t, DbError)
      else Step(t.(outputTxs := t.outputTxs - {id}, outputAmounts := t.outputAmounts - {o}), Ok)
  }

  /** A coinbase transaction of version 2 or later, whose outputs are filed under amount zero. */
  predicate PseudoRct(tx: Transaction) {
    tx.version >= 2 && |tx.vin| == 1 && tx.vin[0].Gen?
  }

  function RemovalAmount(tx: Transaction, i: nat): u64
    requires i < |tx.vout|
  {
    if PseudoRct(tx) then 0 else tx.vout[i].amount
  }

  /** Removes the outputs n - 1 down to 0. */
  function RemoveOutputs(t: Tables, tx: Transaction, indices: seq<nat>, n: nat): Step
    requires n <= |tx.vout|
    decreases n
  {
    if n == 0 then Step(t, Ok)
    else if n - 1 >= |indices| then Step(t, Undefined)
    else
      var r := RemoveOutput(t, RemovalAmount(tx, n - 1), indices[n - 1]);
      if r.status != Ok then r else RemoveOutputs(r.t, tx, indices, n - 1)
  }

  function RemoveTxOutputs(t: Tables, id: nat, tx: Transaction): Step {
    if id !in t.txOutputs then Step(t, Undefined)
    else if t.txOutputs[id] == [] && tx.vout != [] then Step(t, DbError)
    else RemoveOutputs(t, tx, t.txOutputs[id], |tx.vout|)
  }

  function RemoveTransactionData(t: Tables, hash: Hash, tx: Transaction): Step {
    if hash !in t.txIndices then Step(t, TxMissing)
    else
      var id := t.txIndices[hash].txId;
      if id !in t.txs then Step(t, DbError)
      else
        var r := RemoveTxOutputs(t.(txs := t.txs - {id}), id, tx);
        if r.status != Ok then r
        else Step(r.t.(txOutputs := r.t.txOutputs - {id}, txIndices := r.t.txIndices - {hash}), Ok)
  }
}
