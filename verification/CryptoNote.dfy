/** The CryptoNote values shared by the ring analysis and the block store.
    Keys, key images and hashes are 32-byte strings, modelled as naturals. */
module CryptoNote {

  const TWO64: int := 0x1_0000_0000_0000_0000

  type u64 = x: int | 0 <= x < TWO64

  type KeyImage = nat
  type PublicKey = nat
  type Hash = nat

  /** The input variants of a transaction. */
  datatype TxIn =
    | Gen(height: nat)
    | ToScript
    | ToScriptHash
    | ToKey(amount: u64, keyOffsets: seq<u64>, kImage: KeyImage)

  /** The output target variants. */
  datatype Target =
    | OutToScript
    | OutToScriptHash
    | OutToKey(key: PublicKey)

  datatype TxOut = TxOut(amount: u64, target: Target)

  /** An output named by its amount and its position among the outputs of that amount. */
  datatype Output = Output(amount: u64, index: nat)
}
