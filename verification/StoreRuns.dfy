/** Whole runs of the store: blocks added and popped, inside and outside batches, and fixups. */
module StoreRuns {
  import opened CryptoNote
  import opened StoreTables
  import opened StoreOps
  import opened StoreInverse
  import opened BlockInverse
  import opened ChainView
  import opened Ledger

  /** The store between two operations. `env` is what is committed, `view` what the writer reads;
      outside a batch they are the same. */
  datatype Db = Db(env: Tables, view: Tables, batch: bool, bad: set<PublicKey>, readOnly: bool)

  datatype Op =
    | Add(blk: Block, info: Info, txs: seq<Transaction>)
    | Pop
    | BatchStart
    | BatchStop
    | BatchAbort
    | Fixup(badOuts: seq<PublicKey>, images: seq<KeyImage>)

  /** What an operation leaves behind. After an out-of-range read nothing is known. */
  datatype Outcome = Done(db: Db, status: Status) | Lost

  /** Ends a block-level transaction. A failure is rolled back, except that inside a batch the
      abort does nothing and the writes made so far stay in the batch. */
  function Finish(db: Db, t: Tables, status: Status): Outcome {
    if status == Undefined then Lost
    else if db.batch then Done(db.(view := t), status)
    else if status == Ok then Done(db.(env := t, view := t), Ok)
    else Done(db, status)
  }

  function Apply(c: Crypto, db: Db, op: Op): Outcome {
    match op
    case Add(blk, info, txs) =>
      if |blk.txHashes| != |txs| then Done(db, SizeMismatch)
      else if db.readOnly then Done(db, TxnStart)
      else
        var r := AddBlock(c, db.bad, db.view, blk, info, txs);
        Finish(db, r.t, r.status)
    case Pop =>
      if db.readOnly then Done(db, TxnStart)
      else
        var r := PopBlock(c, db.view);
        Finish(db, r.t, r.status)
    case BatchStart =>
      if db.batch then Done(db, Ok)
      else if db.readOnly then Done(db, DbError)
      else Done(db.(view := db.env, batch := true), Ok)
    case BatchStop =>
      if db.batch then Done(db.(env := db.view, batch := false), Ok) else Done(db, DbError)
    case BatchAbort =>
      if db.batch then Done(db.(view := db.env, batch := false), Ok) else Done(db, DbError)
    case Fixup(badOuts, images) =>
      var known := db.(bad := db.bad + Elements(badOuts));
      if db.readOnly then Done(known, Ok)
      else
        var base := if db.batch then db.view else db.env;
        var t := base.(spentKeys := base.spentKeys + Elements(images));
        Done(known.(env := t, view := t, batch := false), Ok)
  }

  /** The outcome of the last operation of a run; a run that is lost once stays lost. */
  function Run(c: Crypto, db: Db, ops: seq<Op>): Outcome {
    if ops == [] then Done(db, Ok)
    else
      var r := Run(c, db, ops[..|ops| - 1]);
      if r.Lost? then Lost else Apply(c, r.db, ops[|ops| - 1])
  }

  // ---- The reference machine: lists of blocks ----

  datatype Books = Books(committed: Book, current: Book, batch: bool, bad: set<PublicKey>, readOnly: bool)

  function Commit(a: Books, b: Book): Books {
    if a.batch then a.(current := b) else a.(committed := b, current := b)
  }

  function NewEntry(a: Books, op: Op): Entry
    requires op.Add?
  {
    Entry(op.blk, op.info, op.txs, a.bad)
  }

  /** Whether an operation takes effect. */
  predicate Succeeds(c: Crypto, a: Books, op: Op) {
    match op
    case Add(_, _, _) => !a.readOnly && Accepts(c, a.current, NewEntry(a, op))
    case Pop => !a.readOnly && a.current.chain != [] && Poppable(a.current.chain[|a.current.chain| - 1])
    case BatchStart => a.batch || !a.readOnly
    case BatchStop => a.batch
    case BatchAbort => a.batch
    case Fixup(_, _) => true
  }

  function Burn(c: Crypto, b: Book, images: seq<KeyImage>): Book {
    b.(burned := b.burned + (Elements(images) - Elements(AllImages(Rows(c, b.chain)))))
  }

  function Follow(c: Crypto, a: Books, op: Op): Books {
    if !Succeeds(c, a, op) then a
    else
      match op
      case Add(_, _, _) => Commit(a, Extend(a.current, NewEntry(a, op)))
      case Pop => Commit(a, Shorten(a.current))
      case BatchStart => a.(batch := true)
      case BatchStop => a.(committed := a.current, batch := false)
      case BatchAbort => a.(current := a.committed, batch := false)
      case Fixup(badOuts, images) =>
        var known := a.(bad := a.bad + Elements(badOuts));
        if a.readOnly then known
        else
          var b := Burn(c, a.current, images);
          known.(committed := b, current := b, batch := false)
  }

  function FollowAll(c: Crypto, a: Books, ops: seq<Op>): Books {
    if ops == [] then a else Follow(c, FollowAll(c, a, ops[..|ops| - 1]), ops[|ops| - 1])
  }

  predicate PopIsDefined(a: Books) {
    a.readOnly || a.current.chain == [] || !ReadsPast(a.current.chain[|a.current.chain| - 1])
  }

  /** Blocks are well formed, no pop reads past an index list, and no block operation fails inside a
      batch. */
  predicate Proper(c: Crypto, a: Books, op: Op) {
    && (op.Add? ==> EntryStorable(NewEntry(a, op)))
    && (op.Pop? ==> PopIsDefined(a))
    && (a.batch && (op.Add? || op.Pop?) ==> Succeeds(c, a, op))
  }

  predicate ProperRun(c: Crypto, a: Books, ops: seq<Op>) {
    ops != [] ==>
      ProperRun(c, a, ops[..|ops| - 1]) && Proper(c, FollowAll(c, a, ops[..|ops| - 1]), ops[|ops| - 1])
  }

  predicate Standing(c: Crypto, a: Books) {
    && Accepted(c, a.committed) && Accepted(c, a.current)
    && (!a.batch ==> a.committed == a.current)
    && (a.readOnly ==> !a.batch)
  }

  function DbOf(c: Crypto, a: Books): Db {
    Db(TablesOf(c, a.committed), TablesOf(c, a.current), a.batch, a.bad, a.readOnly)
  }

  // ---- Refinement ----

  lemma {:induction false} ImagesOfPrefix(rows: seq<TxRow>, more: seq<TxRow>)
    ensures Elements(AllImages(rows)) <= Elements(AllImages(rows + more))
    decreases |more|
  {
    if more == [] {
      assert rows + more == rows;
    } else {
      var init, x := more[..|more| - 1], more[|more| - 1];
      assert rows + more == (rows + init) + [x];
      ImagesOfPrefix(rows, init);
      AllImagesGrow(rows + init, x);
    }
  }

  lemma BurnKeepsAccepts(c: Crypto, b: Book, e: Entry, more: set<KeyImage>)
    requires Accepts(c, b, e) && Elements(AllImages(Rows(c, b.chain) + EntryRows(c, e, |b.chain|))) !! more
    ensures Accepts(c, b.(burned := b.burned + more), e)
  {
    hide Distinct, Rows, EntryRows, AllImages;
  }

  /** Burning images that the chain does not spend keeps every entry accepted. */
  lemma {:induction false} BurnKeepsAccepted(c: Crypto, b: Book, more: set<KeyImage>)
    requires Accepted(c, b) && Elements(AllImages(Rows(c, b.chain))) !! more
    ensures Accepted(c, b.(burned := b.burned + more))
    decreases |b.chain|
  {
    hide Accepts, AllImages, Rows, EntryRows, EntryStorable;
    if b.chain != [] {
      var e, below := b.chain[|b.chain| - 1], Shorten(b);
      RowsGrow(c, below, e);
      assert Extend(below, e) == b;
      ImagesOfPrefix(Rows(c, below.chain), EntryRows(c, e, |below.chain|));
      BurnKeepsAccepted(c, below, more);
      BurnKeepsAccepts(c, below, e, more);
      assert Shorten(b.(burned := b.burned + more)) == below.(burned := below.burned + more);
    }
  }

  lemma FixupRefines(c: Crypto, b: Book, images: seq<KeyImage>)
    requires Accepted(c, b)
    ensures Accepted(c, Burn(c, b, images))
    ensures var t := TablesOf(c, b); TablesOf(c, Burn(c, b, images)) == t.(spentKeys := t.spentKeys + Elements(images))
  {
    hide Accepted, Rows, BlockRows, AllImages, Positions, TxTable, IndexTable, RangeTable, OutTxTable, OutKeyTable;
    BurnKeepsAccepted(c, b, Elements(images) - Elements(AllImages(Rows(c, b.chain))));
  }

  lemma ExtendKeepsAccepted(c: Crypto, b: Book, e: Entry)
    requires Accepted(c, b) && EntryStorable(e) && Accepts(c, b, e)
    ensures Accepted(c, Extend(b, e))
  {
    RowsGrow(c, b, e);
  }

  lemma AddRefines(c: Crypto, a: Books, op: Op)
    requires Standing(c, a) && Proper(c, a, op) && op.Add?
    ensures Standing(c, Follow(c, a, op))
    ensures var r := Apply(c, DbOf(c, a), op);
            r.Done? && r.db == DbOf(c, Follow(c, a, op)) && (r.status == Ok <==> Succeeds(c, a, op))
  {
    hide TablesOf, AddBlock, EntryStorable;
    var e := NewEntry(a, op);
    AcceptedIsUnspent(c, a.current);
    AddBlockView(c, a.current, e);
    if Accepts(c, a.current, e) {
      ExtendKeepsAccepted(c, a.current, e);
    }
    hide Accepts, Accepted;
  }

  lemma PopRefines(c: Crypto, a: Books)
    requires Standing(c, a) && Proper(c, a, Pop)
    ensures Standing(c, Follow(c, a, Pop))
    ensures var r := Apply(c, DbOf(c, a), Pop);
            r.Done? && r.db == DbOf(c, Follow(c, a, Pop)) && (r.status == Ok <==> Succeeds(c, a, Pop))
  {
    hide TablesOf, PopBlock, Poppable, ReadsPast;
    PopBlockView(c, a.current);
  }

  /** One operation on the tables of a chain is one step of the reference machine. */
  lemma StepRefines(c: Crypto, a: Books, op: Op)
    requires Standing(c, a) && Proper(c, a, op)
    ensures Standing(c, Follow(c, a, op))
    ensures var r := Apply(c, DbOf(c, a), op);
            r.Done? && r.db == DbOf(c, Follow(c, a, op)) && (r.status == Ok <==> Succeeds(c, a, op))
  {
    match op
    case Add(_, _, _) => AddRefines(c, a, op);
    case Pop => PopRefines(c, a);
    case Fixup(_, images) =>
      FixupRefines(c, a.current, images);
      hide TablesOf, Accepted;
    case _ =>
  }

  /** Refinement over whole runs: a proper sequence of operations never gets lost, and after it every
      table equals the tables of the list of blocks that the reference machine holds. */
  lemma {:induction false} RunRefines(c: Crypto, a: Books, ops: seq<Op>)
    requires Standing(c, a) && ProperRun(c, a, ops)
    ensures Standing(c, FollowAll(c, a, ops))
    ensures Run(c, DbOf(c, a), ops).Done? && Run(c, DbOf(c, a), ops).db == DbOf(c, FollowAll(c, a, ops))
  {
    hide DbOf, Standing, Proper, Follow, Apply;
    if ops != [] {
      RunRefines(c, a, ops[..|ops| - 1]);
      StepRefines(c, FollowAll(c, a, ops[..|ops| - 1]), ops[|ops| - 1]);
    }
  }

  const EMPTY_BOOKS := Books(Book([], {}), Book([], {}), false, {}, false)

  const EMPTY_DB := Db(EMPTY_TABLES, EMPTY_TABLES, false, {}, false)

  lemma EmptyStore(c: Crypto)
    ensures Standing(c, EMPTY_BOOKS)
    ensures DbOf(c, EMPTY_BOOKS) == EMPTY_DB
  {
    var t := TablesOf(c, Book([], {}));
    assert t.outputTxs == map[] && t.txs == map[] && t.txOutputs == map[];
    assert t.outputAmounts.Keys == Slots(0);
    assert t.txIndices.Keys == {};
    assert t == EMPTY_TABLES;
  }
}
