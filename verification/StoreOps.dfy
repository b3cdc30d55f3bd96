/** Adding and removing whole transactions and blocks. */
module StoreOps {
  import opened CryptoNote
  import opened StoreTables

  // ---- Adding a transaction ----

  function Images(vin: seq<TxIn>): set<KeyImage> {
    set i | 0 <= i < |vin| && vin[i].ToKey? :: vin[i].kImage
  }

  predicate IsMiner(tx: Transaction) {
    exists i :: 0 <= i < |tx.vin| && tx.vin[i].Gen?
  }

  predicate IsBad(bad: set<PublicKey>, out: TxOut) {
    out.target.OutToKey? && out.target.key in bad
  }

  /** How far the loop over the inputs got, and the key images stored by then. */
  datatype Spending =
    | Spent(keys: set<KeyImage>)
    | Duplicate(keys: set<KeyImage>)
    | Unsupported(keys: set<KeyImage>)

  function Spend(keys: set<KeyImage>, vin: seq<TxIn>): Spending {
    if vin == [] then Spent(keys)
    else
      var s := Spend(keys, vin[..|vin| - 1]);
      if !s.Spent? then s
      else
        match vin[|vin| - 1]
        case ToKey(_, _, ki) => if ki in s.keys then Duplicate(s.keys) else Spent(s.keys + {ki})
        case Gen(_) => s
        case _ => Unsupported(s.keys)
  }

  /** How far the loop over the outputs got. */
  datatype Storing =
    | Stored(t: Tables, indices: seq<nat>)
    | NonZero(t: Tables)
    | Failed(t: Tables, status: Status)

  function StoreOutput(c: Crypto, bad: set<PublicKey>, t: Tables, indices: seq<nat>, hash: Hash, tx: Transaction,
                       i: nat): Storing
    requires i < |tx.vout|
  {
    var out := tx.vout[i];
    if IsMiner(tx) then
      if IsBad(bad, out) then Stored(t, indices)
      else
        var r := AddOutput(t, hash, out.(amount := 0), i, tx.unlockTime, c.zeroCommit(out.amount));
        if r.status == Ok then Stored(r.t, indices + [r.index]) else Failed(r.t, r.status)
    else if out.amount != 0 then NonZero(t)
    else if i >= |tx.outPk| then Failed(t, Undefined)
    else
      var r := AddOutput(t, hash, out, i, tx.unlockTime, tx.outPk[i]);
      if r.status == Ok then Stored(r.t, indices + [r.index]) else Failed(r.t, r.status)
  }

  function StoreOutputs(c: Crypto, bad: set<PublicKey>, t: Tables, hash: Hash, tx: Transaction, n: nat): Storing
    requires n <= |tx.vout|
  {
    if n == 0 then Stored(t, [])
    else
      var s := StoreOutputs(c, bad, t, hash, tx, n - 1);
      if s.Stored? then StoreOutput(c, bad, s.t, s.indices, hash, tx, n - 1) else s
  }

  /** The part of adding a transaction that follows the writing of its row. */
  function FinishTransaction(c: Crypto, bad: set<PublicKey>, t: Tables, id: nat, hash: Hash, tx: Transaction): Step {
    match StoreOutputs(c, bad, t, hash, tx, |tx.vout|)
    case Failed(u, status) => Step(u, status)
    case NonZero(u) => Step(u.(spentKeys := u.spentKeys - Images(tx.vin)), Ok)
    case Stored(u, indices) => AddIndices(u, id, indices)
  }

  function AddTransaction(c: Crypto, bad: set<PublicKey>, t: Tables, hash: Hash, tx: Transaction): Step {
    var s := Spend(t.spentKeys, tx.vin);
    match s
    case Duplicate(keys) => Step(t.(spentKeys := keys), KeyImageExists)
    case Unsupported(keys) => Step(t.(spentKeys := keys - Images(tx.vin)), Ok)
    case Spent(keys) =>
      var d := AddTransactionData(t.(spentKeys := keys), tx, hash);
      if d.status != Ok then d else FinishTransaction(c, bad, d.t, |t.txs|, hash, tx)
  }

  function AddTransactions(c: Crypto, bad: set<PublicKey>, t: Tables, hashes: seq<Hash>, txs: seq<Transaction>): Step
    requires |hashes| == |txs|
  {
    if txs == [] then Step(t, Ok)
    else
      var n := |txs| - 1;
      var r := AddTransactions(c, bad, t, hashes[..n], txs[..n]);
      if r.status != Ok then r else AddTransaction(c, bad, r.t, hashes[n], txs[n])
  }

  // ---- Removing a transaction ----

  function RemoveTransaction(t: Tables, hash: Hash): Step {
    if !HasTx(t, hash) then Step(t, TxMissing)
    else
      var tx := TxOf(t, hash);
      RemoveTransactionData(t.(spentKeys := t.spentKeys - Images(tx.vin)), hash, tx)
  }

  /** The transactions handed back by a removal, in the order they were removed. */
  datatype Removed = Removed(t: Tables, status: Status, txs: seq<Transaction>)

  /** Removes the listed transactions from the last to the first, and returns them in that order. */
  function PopTransactions(t: Tables, hashes: seq<Hash>): Removed
    decreases |hashes|
  {
    if hashes == [] then Removed(t, Ok, [])
    else
      var hash := hashes[|hashes| - 1];
      var r := RemoveTransaction(t, hash);
      var first := if HasTx(t, hash) then [TxOf(t, hash)] else [];
      if r.status != Ok then Removed(r.t, r.status, first)
      else
        var rest := PopTransactions(r.t, hashes[..|hashes| - 1]);
        Removed(rest.t, rest.status, first + rest.txs)
  }

  // ---- Blocks ----

  function AddBlock(c: Crypto, bad: set<PublicKey>, t: Tables, blk: Block, info: Info, txs: seq<Transaction>): Step {
    if |blk.txHashes| != |txs| then Step(t, SizeMismatch)
    else
      var m := AddTransaction(c, bad, t, c.txHash(blk.minerTx), blk.minerTx);
      if m.status != Ok then m
      else
        var r := AddTransactions(c, bad, m.t, blk.txHashes, txs);
        if r.status != Ok then r else AddBlockRow(r.t, BlockRow(blk, info, c.blockHash(blk)))
  }

  /** A popped block with its transactions; on an empty chain the block is a default one. */
  datatype Popped = Popped(t: Tables, status: Status, blk: Block, txs: seq<Transaction>)

  function PopBlock(c: Crypto, t: Tables): Popped {
    var blk := if t.blocks == [] then NULL_BLOCK else t.blocks[|t.blocks| - 1].blk;
    var r := RemoveBlockRow(t);
    if r.status != Ok then Popped(r.t, r.status, blk, [])
    else
      var p := PopTransactions(r.t, blk.txHashes);
      if p.status != Ok then Popped(p.t, p.status, blk, p.txs)
      else
        var m := RemoveTransaction(p.t, c.txHash(blk.minerTx));
        Popped(m.t, m.status, blk, p.txs)
  }
}
