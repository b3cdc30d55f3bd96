# Ring analysis and block store of ryo-currency

This project models three parts of the ryo-currency repository and proves what they keep.

**Spent-output deduction** (`RingOffsets`, `RingScan`, `ChainReading`, `RememberedRings`,
`SpentDeduction`, `Blackball`). The blackball tool reads the rings of all inputs of a main chain and of
its forks. A first phase indexes the rings, remembers one ring per key image and marks outputs that one
ring, or the intersection of two rings, settles. A second phase runs a worklist: when all other members of
a ring are known to be spent, the last one is marked. A history is *consistent* when every key image
spends one output that lies in each ring seen with it, and no output is spent twice. The results are:
exactly which inputs are read, in which order; exactly which ring is remembered and which outputs are
marked, for any list of sightings; the scan is sound for any number of sightings; a firing ring marks the
real spend if and only if its key image has not settled an output before; the whole result is exact in
every consistent history if and only if no key image is recorded for two outputs; and with one ring per
key image the result is the least set closed under the elimination rule for the inputs of the main chain,
in every visiting order, matched one to one with key images.

**Block store** (`StoreTables`, `StoreOps`, `StoreInverse`, `BlockInverse`, `AddedOutputs`, `ChainView`,
`Ledger`, `StoreRuns`, `OutputNumbering`, `ChainContents`, `BurnedImages`, `RunFailures`,
`StoreWitnesses`, `BlockStore`). `BlockStore.BlockchainDb` is the store as an object, with the primitives
of the LMDB backend, block-level write transactions, batches and the fixup. Its methods are proved against
functions on the tables. Those functions are compared with an independent description of the tables as a
function of the list of blocks. A run is *lost* at the first read past the end of an index list or of a
commitment list; nothing is claimed about the store afterwards. A run is *proper* when its blocks are well
formed, no pop reads past an index list, and no block operation fails inside a batch; proper runs are
never lost. The results are: what adding a transaction writes, field by field; exactly which blocks are
accepted; every table after any proper run, in terms of the blocks, transactions and inputs of the chain;
exactly when popping a block takes back adding it, in every state reachable by any run; exactly when
popping is undefined; the numbering of outputs; no double spend; exactly when a key image on the burn list
stays stored for good; and, for all runs, what failures leave behind inside and outside batches.
`StoreWitnesses` gives failing inputs for the properties that the store does not meet.

**Embedded files** (`EmbeddedFiles`). The generator of the translation header prints a file as adjacent
C++ string literals; reading them back by the rules of C++11 yields the same bytes if and only if the file
is not empty.

## Where the code does less than it promises

- `blockchain_db.h` says that popping a block removes everything its addition created. The LMDB backend
  reads one stored index per output of the transaction. A coinbase transaction with a skipped burned
  output makes it fail if no index is stored at all, and read past the end of the index list otherwise;
  after that read nothing is known. It also looks a coinbase output up under its own amount unless the
  transaction has version 2 or later and a single input. `BlockInverse.BlockUndoneIff` gives the exact
  condition for a pop that restores the store, `BlockInverse.BlockReadsPastIff` the one for the
  out-of-range read; `StoreWitnesses.BurnedOutputBlocksPop` and `StoreWitnesses.BurnedOutputLosesPop`
  are failing inputs.
- A transaction with an unsupported input is dropped without an error, and all its key images are
  removed from the store, including images behind the unsupported input that an earlier transaction
  spent. `StoreInverse.RollbackIsExactIff` and `ChainView.ReleasedIff` give the exact conditions,
  `StoreWitnesses.UnsupportedInputReleasesImage` a failing input.
- A transaction that is not mined and has a nonzero amount is abandoned without an error after its row
  and its outputs before the first nonzero amount were written. `StoreInverse.AbandonedIff` gives the
  exact condition, `StoreWitnesses.NonZeroAmountIsAbandoned` a failing input.
- A failed addition inside a batch is not rolled back, because aborting does nothing there; closing the
  batch commits the leftovers. `RunFailures.FailureInBatchIsCleanIff` gives the exact condition,
  `StoreWitnesses.RejectedBlockIsCommitted` a failing input.
- When a key image is seen with two rings that share one member, the second phase still uses the second
  ring in full and marks a member that nobody spent (`Blackball.ForkedRingIsUnsound`, for a whole family
  of inputs). When several members are shared, the common absolute indices are appended to relative
  offsets; the stored list still decodes to a superset of the common members, which is why the scan
  itself stays sound.
- `blockchain_db.h` documents the result of `add_block` as the new height; the base class returns the
  height before the addition and the LMDB override the new one. Both are modelled as coded.

## Model

| member | source | states |
|---|---|---|
| RingOffsets.RelativeOutputOffsetsToAbsolute | src/cryptonote_basic/cryptonote_format_utils.cpp:1015-1021 | The in-place running sums yield the decoded ring of 64-bit words |
| RingOffsets.AbsoluteIsPrefixSum | src/cryptonote_basic/cryptonote_format_utils.cpp:1015-1021 | Entry i of a decoded ring is the sum of the first i + 1 offsets modulo 2^64 |
| RingOffsets.AbsoluteOutputOffsetsToRelative | src/cryptonote_basic/cryptonote_format_utils.cpp:1023-1033 | Sorting and the backward subtraction loop yield the differences of the sorted list |
| RingOffsets.AbsoluteOfRelative | src/cryptonote_basic/cryptonote_format_utils.cpp:1023-1033 | Decoding an encoded list yields the list in ascending order |
| RingOffsets.RelativeOfAbsoluteIff | src/cryptonote_basic/cryptonote_format_utils.cpp:1015-1033 | Encoding a decoded ring is the identity if and only if no running sum overflows 64 bits |
| RingScan.IndexRing | src/blockchain_utilities/blockchain_blackball.cpp:393-396 | The loop lists the key image under exactly the members of its ring and changes no other entry |
| RingScan.CompareRings | src/blockchain_utilities/blockchain_blackball.cpp:412-443 | What a second, different ring settles and which list is remembered for zero, one or several common members |
| RingScan.ScanInput | src/blockchain_utilities/blockchain_blackball.cpp:385-446 | One input updates the index, the rings and both mark sets as the scan specification says |
| RingScan.Scan | src/blockchain_utilities/blockchain_blackball.cpp:381-449 | The nested loops over chains, transactions and inputs compute the scan of all readable inputs in order |
| ChainReading.SightingsInOrder | src/blockchain_utilities/blockchain_blackball.cpp:381-392 | The sightings are exactly the key inputs that pass the amount filter, by chain, transaction and input in this order, each with the number of its chain |
| ChainReading.SightingIff | src/blockchain_utilities/blockchain_blackball.cpp:381-392 | A sighting is met if and only if a key input of some chain that passes the filter says so |
| RingScan.IndexIsExact | src/blockchain_utilities/blockchain_blackball.cpp:384-396 | A key image is indexed under an output exactly when a main-chain ring carrying it contains the output, for every list of chains |
| RingScan.AllMarksQueued | src/blockchain_utilities/blockchain_blackball.cpp:400-434 | Every output marked by the scan is queued for the second phase |
| RememberedRings.RememberedIs | src/blockchain_utilities/blockchain_blackball.cpp:408-445 | With several shared entries the remembered list decodes to the ascending list of the relative offsets seen and the shared entries of the first ring; otherwise it is the offsets seen |
| RememberedRings.RingsOfSeen | src/blockchain_utilities/blockchain_blackball.cpp:398-445 | For every list of sightings exactly the key images seen have a remembered ring |
| RememberedRings.RingOfLastSeen | src/blockchain_utilities/blockchain_blackball.cpp:408-445 | For every list of sightings the ring of a key image is what its last sighting makes of the rings remembered before |
| RememberedRings.MarkedIff | src/blockchain_utilities/blockchain_blackball.cpp:400-434 | For every list of sightings an output is marked if and only if it is a ring of size one, or the only entry of the remembered ring that a different ring shares |
| RingScan.RememberedHoldsSpend | src/blockchain_utilities/blockchain_blackball.cpp:398-445 | Whatever list is remembered for a key image still contains the real spend |
| RingScan.ScanIsSound | src/blockchain_utilities/blockchain_blackball.cpp:381-449 | For any chains and any number of sightings, in every consistent history each scan mark is spent by its recorded key image |
| RingScan.OneRingRemembered | src/blockchain_utilities/blockchain_blackball.cpp:408-445 | With one ring per key image exactly the seen key images have a ring, and it is the ring seen |
| RingScan.OneRingMarks | src/blockchain_utilities/blockchain_blackball.cpp:400-434 | With one ring per key image the scan marks exactly the members of rings of size one, each with the key image of such a ring |
| SpentDeduction.CountKnown | src/blockchain_utilities/blockchain_blackball.cpp:462-471 | The loop counts the known positions, and last_unknown is the last open position if there is one |
| SpentDeduction.FiringIsExactIff | src/blockchain_utilities/blockchain_blackball.cpp:472-479 | The one open member of a ring is its key image's real spend if and only if that key image has not settled an output yet |
| SpentDeduction.OpenRingIsNoSpender | src/blockchain_utilities/blockchain_blackball.cpp:461-479 | A ring with an open member does not belong to a key image that settled an output, when settled rings are closed |
| SpentDeduction.FireKeepsInv | src/blockchain_utilities/blockchain_blackball.cpp:472-479 | Every mark is forced, fresh and bounded, keeps the matching tight, and keeps soundness when settled rings are closed or spenders are distinct |
| SpentDeduction.ExamineKeepsPending | src/blockchain_utilities/blockchain_blackball.cpp:459-480 | Worklist invariant: an inference that can be drawn but is not has a premise still queued or in hand |
| SpentDeduction.ExamineRing | src/blockchain_utilities/blockchain_blackball.cpp:461-479 | Examining a ring draws its inference if it has one and marks only a fresh output |
| SpentDeduction.WorkOff | src/blockchain_utilities/blockchain_blackball.cpp:454-481 | One pass leaves as queue exactly the outputs it marked and keeps every invariant |
| SpentDeduction.SecondaryPasses | src/blockchain_utilities/blockchain_blackball.cpp:451-482 | The loop ends with every covered inference drawn, nothing unforced marked, and as many outputs dequeued as are marked |
| Blackball.PassesReachLeast | src/blockchain_utilities/blockchain_blackball.cpp:451-482 | With one ring per key image the result is the least set closed under the elimination rule |
| Blackball.LeastClosedIsUnique | src/blockchain_utilities/blockchain_blackball.cpp:457-481 | The result depends only on the set of rings read: neither the order or repetition of transactions nor any visiting order can change it |
| Blackball.OneRingIsTight | src/blockchain_utilities/blockchain_blackball.cpp:400-407 | With one ring per key image the scan leaves a tight matching of marks and key images |
| Blackball.SoundIff | src/blockchain_utilities/blockchain_blackball.cpp:451-482 | In a consistent history the recorded spenders are all right if and only if they are pairwise distinct |
| Blackball.SettledAddNothingIff | src/blockchain_utilities/blockchain_blackball.cpp:451-482 | Where the worklist reaches every inference, settled key images add no mark if and only if none of their rings has exactly one member outside what the other rings imply |
| Blackball.FindSpent | src/blockchain_utilities/blockchain_blackball.cpp:371-482 | The whole tool, said of the inputs: least set under the elimination rule for the main chain, one-to-one matching, exact conditions for soundness and for what settled key images add, amortised work |
| Blackball.ForkedRingIsUnsound | src/blockchain_utilities/blockchain_blackball.cpp:427-445 | Two rings with one common member make every run mark an output that a consistent history leaves unspent |
| StoreInverse.RollbackIsExactIff | src/blockchain_db/blockchain_db.cpp:157-168 | Dropping a transaction at an unsupported input leaves the store as it was if and only if none of its images was stored |
| AddedOutputs.AddedTransaction | src/blockchain_db/blockchain_db.cpp:130-211 | In every state: the row, the lock time and the height of an added transaction; with a generating input its outputs to burned keys are left out and commitments are computed from amounts, without one every output is listed with its own commitment; the indices are the next ones, in order |
| StoreInverse.AbandonedIff | src/blockchain_db/blockchain_db.cpp:173-210 | A supported transaction added without an error has no index list if and only if it has no generating input and a nonzero amount; then its images are released, and its row and exactly its outputs before the first nonzero amount stay |
| StoreInverse.UndoOutputs | src/blockchain_db/lmdb/db_lmdb.cpp:970-1028 | Removing outputs in reverse order takes back exactly what storing them added |
| StoreInverse.UndoTransaction | src/blockchain_db/blockchain_db.cpp:282-296 | Removing an invertible transaction that was added restores every table |
| StoreInverse.InvertibleIff | src/blockchain_db/lmdb/db_lmdb.cpp:970-990 | Field by field, which transactions are invertible: supported inputs, no burned key beside a generating input, and zero amounts or version 2 or later with a single generating input |
| StoreInverse.StuckTransaction | src/blockchain_db/lmdb/db_lmdb.cpp:970-990 | Removing a supported transaction that is not invertible does not succeed, whatever else is stored under amount zero |
| StoreInverse.RemovalReadsPastIff | src/blockchain_db/lmdb/db_lmdb.cpp:970-990 | Removing an added transaction reads past its index list if and only if it is mined with some but not all outputs burned |
| StoreInverse.TransactionUndoneIff | src/blockchain_db/blockchain_db.cpp:130-211 | Removal takes back addition if and only if inputs are supported, no mined output is skipped and all lookups use amount zero |
| BlockInverse.UndoBlock | src/blockchain_db/blockchain_db.cpp:263-275 | Popping an added invertible block restores every table and returns that same block and its transactions in reverse order |
| BlockInverse.OrdinaryBlockIsUndone | src/blockchain_db/lmdb/db_lmdb.cpp:984-989 | From every state a block with a coinbase of version 2 or later, any amounts and no burned key, and ordinary transactions, is popped: every table is restored, and the same block and its transactions in reverse come back |
| BlockInverse.PopTakesTop | src/blockchain_db/blockchain_db.cpp:263-275 | From every state a successful pop removes the last block, and no other, and returns the block it removed |
| BlockInverse.StuckBlock | src/blockchain_db/lmdb/db_lmdb.cpp:970-990 | Popping a block with supported inputs that is not invertible does not succeed |
| BlockInverse.BlockReadsPastIff | src/blockchain_db/lmdb/db_lmdb.cpp:970-990 | Popping an added block is undefined if and only if, going backwards, a partly burned transaction comes before any other that is not invertible |
| BlockInverse.BlocksKeepZero | src/blockchain_db/blockchain_db.cpp:213-275 | Every outcome of adding or popping any block, failures included, keeps all outputs under amount zero |
| BlockInverse.BlockUndoneIff | src/blockchain_db/blockchain_db.cpp:213-275 | Whatever is stored under amount zero, pop after add restores every table if and only if all transactions of the block are invertible |
| ChainView.SpendIff | src/blockchain_db/blockchain_db.cpp:146-169 | The inputs are spent if and only if they are supported and their images are distinct and new |
| ChainView.SpendEndings | src/blockchain_db/blockchain_db.cpp:146-169 | Exactly when the input loop ends in each of its three ways, and exactly which images are stored then |
| ChainView.ReleasedIff | src/blockchain_db/blockchain_db.cpp:157-168 | Adding a transaction drops a stored image if and only if the image is one of its own and the loop stops at an unsupported input |
| ChainView.StoreOutputsView | src/blockchain_db/blockchain_db.cpp:173-208 | Storing outputs appends the kept ones behind all earlier outputs and yields their contiguous range |
| ChainView.AddTransactionView | src/blockchain_db/blockchain_db.cpp:130-211 | Adding a transaction succeeds if and only if the longer ledger has no repeated hash or image, and yields its tables |
| Ledger.AddBlockView | src/blockchain_db/blockchain_db.cpp:213-256 | Adding a block succeeds if and only if the acceptance rule holds, and yields the tables of the longer chain |
| Ledger.PopBlockView | src/blockchain_db/blockchain_db.cpp:263-275 | Popping succeeds if and only if the top block is invertible, and yields the tables of the shorter chain, the top block and its transactions; it is undefined if and only if it reads past an index list |
| StoreRuns.StepRefines | src/blockchain_db/lmdb/db_lmdb.cpp:3018-3069 | Each proper operation on the tables of a chain is defined and is one step of the machine that only keeps lists of blocks |
| StoreRuns.RunRefines | src/blockchain_db/blockchain_db.cpp:213-275 | A proper run of additions, pops, batches and fixups is never lost, and after it every table is a function of the list of blocks |
| StoreRuns.FixupRefines | src/blockchain_db/blockchain_db.cpp:503-513 | A fixup burns exactly the listed images that the chain does not spend and keeps every entry accepted |
| OutputNumbering.ReachableNumbering | src/blockchain_db/blockchain_db.cpp:173-210 | After any proper run from the empty store: indices 0 to n - 1 under amount zero; each transaction, looked up by hash, has a contiguous list leading in order to exactly its unskipped outputs; every output is in the list of its own transaction; lists ascend in chain order |
| ChainContents.UnspentIff | src/blockchain_db/blockchain_db.cpp:146-151 | A ledger has no double spend if and only if no two transactions of the chain have the same hash, no two key inputs the same image, and none a burned one |
| ChainContents.ReachableAddIff | src/blockchain_db/blockchain_db.cpp:213-256 | In every reachable store a well-formed block is added if and only if sizes agree, no hash or image repeats in the longer chain, no burned image is spent, the block is new and names the last one as its parent |
| ChainContents.ReachableContents | src/blockchain_db/blockchain_db.cpp:213-256 | After any proper run from the empty store the block table is the linked chain with metadata and heights; exactly its transactions are found by hash, with their heights and numbered outputs; key inputs never repeat an image; stored images are theirs and the burned ones |
| BurnedImages.NoDoubleSpend | src/blockchain_db/blockchain_db.cpp:146-151 | After any proper run from the empty store the images of all inputs are distinct, and the stored set is these and the burned ones |
| BurnedImages.BurnIsPermanentIff | src/blockchain_db/blockchain_db.cpp:493-513 | A listed image is stored after every later proper run, batches and fixups included, if and only if the chain does not spend it at the fixup or spends it in or below a block that cannot be popped |
| BurnedImages.BurnedCannotBeSpent | src/blockchain_db/blockchain_db.cpp:146-151 | A well-formed block that spends a burned image is rejected; nothing is committed, and outside a batch nothing changes |
| BurnedImages.FixupIsIdempotent | src/blockchain_db/blockchain_db.cpp:353-514 | A second fixup changes nothing, on writable and read-only stores |
| RunFailures.FailuresLeaveNoTrace | src/blockchain_db/lmdb/db_lmdb.cpp:3034-3069 | Every run, proper or not, ends in the same store as the run without the block operations that fail outside batches |
| RunFailures.OnlyCommitsCount | src/blockchain_db/lmdb/db_lmdb.cpp:2967-3016 | In every run that is not lost the committed tables change only at a successful block operation outside a batch, at the end of a batch, or at a fixup |
| RunFailures.AbortedBatchLeavesNoTrace | src/blockchain_db/lmdb/db_lmdb.cpp:2844-2865 | Whatever additions and pops a batch holds, failed or not, aborting it restores the store, unless the run was lost |
| RunFailures.ReachableBlockUndoneIff | src/blockchain_db/blockchain_db.cpp:213-275 | In every state reachable by any run, pop after add restores every table if and only if all transactions of the block are invertible |
| RunFailures.FailureInBatchIsCleanIff | src/blockchain_db/lmdb/db_lmdb.cpp:2991-3016 | After a failed addition, closing the batch commits the old view if and only if sizes disagree, or the first image of the coinbase is stored, or it has none and is stored itself |
| StoreWitnesses.GenesisIsAccepted | src/blockchain_db/blockchain_db.cpp:213-256 | A first block paying to any keys, burned ones included, is accepted |
| StoreWitnesses.BurnedOutputBlocksPop | src/blockchain_db/lmdb/db_lmdb.cpp:976-982 | One burned coinbase output on the empty store: the addition succeeds, the pop fails |
| StoreWitnesses.BurnedOutputLosesPop | src/blockchain_db/lmdb/db_lmdb.cpp:984-989 | A burned output beside another one: the addition succeeds, the pop loses the run |
| StoreWitnesses.UnsupportedInputReleasesImage | src/blockchain_db/blockchain_db.cpp:157-168 | An unsupported input in front of a stored image releases that image without an error |
| StoreWitnesses.NonZeroAmountIsAbandoned | src/blockchain_db/blockchain_db.cpp:194-204 | A nonzero amount on the empty store: no error, a row, and no index list |
| StoreWitnesses.RejectedBlockIsCommitted | src/blockchain_db/lmdb/db_lmdb.cpp:2991-3016 | A block that repeats an image is rejected inside a batch, and closing the batch changes the committed tables |
| BlockStore.BlockchainDb.RemoveTxOutputs | src/blockchain_db/lmdb/db_lmdb.cpp:970-990 | The backward loop over the outputs, with its errors and its out-of-range reads |
| BlockStore.BlockchainDb.SpendInputs | src/blockchain_db/blockchain_db.cpp:146-169 | The input loop with its rollback meets the specification in all three endings |
| BlockStore.BlockchainDb.StoreTxOutputs | src/blockchain_db/blockchain_db.cpp:173-208 | The output loop with skipping and abort meets the specification in all three endings |
| BlockStore.BlockchainDb.AddTransaction | src/blockchain_db/blockchain_db.cpp:130-211 | Tables and outcome of adding a transaction in place |
| BlockStore.BlockchainDb.AddBlockBase | src/blockchain_db/blockchain_db.cpp:213-256 | Commits only after the coinbase, all transactions and the block row are written; returns the old height |
| BlockStore.BlockchainDb.AddBlock | src/blockchain_db/lmdb/db_lmdb.cpp:3018-3050 | One step of the store with rollback on failure, unless an out-of-range read loses it; on success the block, its metadata and hash are last in the list, and the new height is returned |
| BlockStore.BlockchainDb.PopBlock | src/blockchain_db/lmdb/db_lmdb.cpp:3052-3069 | One step of the store with rollback on failure, unless an out-of-range read loses it; a successful pop removes the last block and returns it with its transactions |
| BlockStore.BlockchainDb.FixUp | src/blockchain_db/blockchain_db.cpp:353-514 | Exactly the listed public keys are added to the burned ones; on a writable store exactly the missing listed images are stored and committed, and no other table changes |
| EmbeddedFiles.PrintFile | translations/generate_translations_header.c:60-73 | The loop prints the literals with their line breaks, the closing quote and the length |
| EmbeddedFiles.ReadTail | translations/generate_translations_header.c:61-72 | Inside a literal the rest of the text reads as the rest of the bytes across every line break |
| EmbeddedFiles.PrintedAt | translations/generate_translations_header.c:61-72 | Where every byte stands in the text, its two hexadecimal digits, and the new line before every sixteenth byte |
| EmbeddedFiles.RoundTripIff | translations/generate_translations_header.c:60-73 | The printed text reads back as the bytes and their number if and only if the file is not empty |

## Left out

- Databases, files and options: LMDB cursors, resizing, option parsing, logging, locks and timing are not modelled; the tables are maps, sets and sequences with LMDB's append rules, and block and block-info rows are one sequence because they are written and removed together.
- Hashes, commitments and serialisation: `Crypto` holds arbitrary functions; a stored transaction or block is the value itself, so parse failures do not occur.
- Persistence of blackballed outputs: the ring database and the lookup of output keys are not modelled; the marked set is the result.
- Output indices across forks: like the tool, the model takes the same amount and index on two chains to be the same output.
- Blackball.FindSpent: the exact condition for soundness is distinctness of the recorded spenders; on the state before the passes, closedness of settled rings is sufficient only, because an open ring of a settled key image need not ever fire. When one does fire is exact where the worklist reaches every inference.
- StoreRuns.RunRefines: runs with malformed blocks, with a failure inside a batch or with a pop that reads past an index list are excluded; the lemmas of `RunFailures` and the exact conditions for rollback, release and undefined pops hold without this.
- RunFailures.FailureInBatchIsCleanIff: speaks of coinbase transactions without unsupported inputs; validation (src/cryptonote_core/blockchain.cpp:1191-1195) admits only a single generating input.
- BlockInverse.BlockReadsPastIff: speaks of transactions without unsupported inputs that are not abandoned, because the others have no index list of their own to read past.
- BlockStore.BlockchainDb.AddBlockBase: the hard-fork update between the last write and the commit is not modelled.
- BlockStore.BlockchainDb.BlockTxnAbort: the error for an abort when neither a write nor a read transaction exists is not modelled.
- Hard forks: the vote table updated by `m_hardfork->add` and its state are not modelled.
- BlockStore.BlockchainDb.FixUp: the two built-in lists of keys and key images are parameters, so the claims hold for all lists.
- Out-of-range reads: they are one status, `Undefined`; a run that meets one is `Lost`, and nothing is claimed about the program afterwards.
- The Berkeley DB backend, the transaction pool tables and the query functions of the store.
- EmbeddedFiles.PrintFile: file names, the lookup table and sizes beyond the range of a C int are not modelled.
