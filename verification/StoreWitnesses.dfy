/** Blocks that the store accepts and for which the plain forms of its properties fail. */
module StoreWitnesses {
  import opened Results
  import opened Transactions
  import opened Ledger
  import opened PopUndoesAdd
  import opened ChainRuns
  import opened RctCounts

  // ---------- accepting transactions and blocks ----------

  lemma {:induction false} Version2Stored(outs: seq<OutRecord>, tx: Tx, hash: nat, n: nat)
    requires tx.version >= 2 && n <= |tx.vout| && forall i :: 0 <= i < |tx.vout| ==> tx.vout[i].tagged
    ensures AddOutputs(outs, tx, hash, n).Ok?
  {
    if n != 0 {
      Version2Stored(outs, tx, hash, n - 1);
    }
  }

  /** A version 2 transaction is accepted if hash and key images are new and its asset types are allowed. */
  lemma {:induction false} AddTxSucceeds(s: Store, tx: Tx, hash: nat)
    requires tx.version >= 2 && hash !in s.txs && AssetsAllowed(tx, IsMiner(tx))
    requires Distinct(Images(tx.vin)) && s.spent !! Elements(Images(tx.vin))
    ensures AddTx(s, tx, hash).Ok?
  {
    hide Images, Distinct, Elements, AddOutputs;
    SpendIsUnion(s.spent, tx.vin);
    Version2Stored(s.outs, tx, hash, |tx.vout|);
  }

  lemma {:induction false} ImagesOfGen()
    ensures Images([Gen]) == []
  {
    assert [Gen][..0] == [];
  }

  lemma {:induction false} ImagesOfKey(k: nat, asset: string)
    ensures Images([ToKey(k, asset)]) == [k]
  {
    assert [ToKey(k, asset)][..0] == [];
  }

  /** One input and one output, of the same known asset type or with generated coins. */
  lemma {:induction false} OneInOneOut(tx: Tx)
    requires |tx.vin| == |tx.vout| == 1 && tx.vin[0] != Unsupported && tx.vout[0].tagged
    requires Known(SourceOf(tx.vin[0])) && (tx.vin[0] == Gen || tx.vout[0].asset == SourceOf(tx.vin[0]))
    ensures AssetsAllowed(tx, IsMiner(tx))
  {
    hide Known;
    assert tx.vin[0] in tx.vin;
    if tx.vin[0] != Gen {
      assert Converts(SourceOf(tx.vin[0]), tx.vout, tx.vout[0].asset);
    }
  }

  /** A block with just its miner transaction on the empty store. */
  lemma {:induction false} LoneBlock(blk: Block)
    requires blk.txHashes == [] && AddTx(EMPTY, blk.minerTx, blk.minerTx.hash).Ok?
    ensures AddBlock(EMPTY, blk, []).Ok?
    ensures AddBlock(EMPTY, blk, []).value.outs == AddTx(EMPTY, blk.minerTx, blk.minerTx.hash).value.outs
    ensures CumTally(AddBlock(EMPTY, blk, []).value.blocks) == BlockTally(blk, [])
  {
    hide AddTx, BlockTally;
    AddedTx(EMPTY, blk.minerTx, blk.minerTx.hash);
  }

  // ---------- popping does not always undo adding ----------

  /** A block that is added to the empty store and then not undone by popping it. */
  lemma {:induction false} MixedInputsAreNotUndone(blk: Block)
    requires blk.minerTx == Tx(1, 2, [Gen, ToKey(7, "SISPOP")], [Output(5, true, "SISPOP")]) && blk.txHashes == []
    ensures AddBlock(EMPTY, blk, []).Ok?
    ensures PopBlock(AddBlock(EMPTY, blk, []).value) != Ok(Popped(EMPTY, blk, []))
  {
    hide AddTx, AddBlock, PopBlock, BlockTally, Known;
    var miner := blk.minerTx;
    SispopIsKnown();
    assert miner.vin[..1] == [Gen] && miner.vin[0] == Gen;
    ImagesOfGen();
    assert Images(miner.vin) == [7];
    assert AssetsAllowed(miner, IsMiner(miner));
    AddTxSucceeds(EMPTY, miner, 1);
    LoneBlock(blk);
    assert miner.vout[0].amount == 5;
    PopUndoesAddExactly(EMPTY, blk, []);
    assert Reversed([]) == [];
  }

  // ---------- counts and stored outputs ----------

  /** A miner transaction without a generating input is counted as rct but stored under its amount. */
  lemma {:induction false} CountWithoutGen(blk: Block)
    requires blk.minerTx == Tx(1, 2, [ToKey(7, "SISPOP")], [Output(5, true, "SISPOP")]) && blk.txHashes == []
    ensures AddBlock(EMPTY, blk, []).Ok?
    ensures var s := AddBlock(EMPTY, blk, []).value;
            CumTally(s.blocks).num == 1 && CountAmount(s.outs, 0) == 0
  {
    hide AddTx, AddBlock, Known, CumTally, CountAmount, AssetsAllowed;
    var miner := blk.minerTx;
    SispopIsKnown();
    OneInOneOut(miner);
    ImagesOfKey(7, "SISPOP");
    AddTxSucceeds(EMPTY, miner, 1);
    LoneBlock(blk);
    LoneTallyNum(blk);
    AddTxCounts(EMPTY, miner, 1);
    EmptyCount();
    StoredAsCounted(miner, 1);
    CountedAll(miner.vout, 1);
    CountedOne(miner.vout[0]);
  }

  lemma {:induction false} EmptyCount()
    ensures CountAmount(EMPTY.outs, 0) == 0
  {
  }

  lemma {:induction false} LoneTallyNum(blk: Block)
    ensures BlockTally(blk, []).num == MinerCounted(blk.minerTx)
  {
    hide MinerTally, MinerCounted;
    MinerTallyNum(blk.minerTx);
  }

  lemma {:induction false} CountedOne(o: Output)
    ensures Counted([o], false, 1) == if o.amount == 0 then 1 else 0
  {
    assert Counted([o], false, 0) == 0;
  }

  /** A block with one more transaction on the empty store. */
  lemma {:induction false} PairBlock(blk: Block, tx: Tx)
    requires |blk.txHashes| == 1 && AddTx(EMPTY, blk.minerTx, blk.minerTx.hash).Ok?
    requires AddTx(AddTx(EMPTY, blk.minerTx, blk.minerTx.hash).value, tx, blk.txHashes[0]).Ok?
    ensures AddBlock(EMPTY, blk, [tx]).Ok?
    ensures AddBlock(EMPTY, blk, [tx]).value.outs ==
            AddTx(AddTx(EMPTY, blk.minerTx, blk.minerTx.hash).value, tx, blk.txHashes[0]).value.outs
    ensures CumTally(AddBlock(EMPTY, blk, [tx]).value.blocks) == BlockTally(blk, [tx])
  {
    hide AddTx, BlockTally;
    var s1 := AddTx(EMPTY, blk.minerTx, blk.minerTx.hash).value;
    AddedTx(EMPTY, blk.minerTx, blk.minerTx.hash);
    AddedTx(s1, tx, blk.txHashes[0]);
    assert AddTxs(s1, blk.txHashes, [tx], 0) == Ok(s1);
  }

  lemma {:induction false} PairTallyNum(blk: Block, tx: Tx)
    ensures BlockTally(blk, [tx]).num == MinerCounted(blk.minerTx) + TxCounted(tx)
  {
    hide TallyOutputs, Counted;
    MinerTallyNum(blk.minerTx);
    assert TallyTxs(MinerTally(blk.minerTx), [tx], 0) == MinerTally(blk.minerTx);
    TallyCounts(MinerTally(blk.minerTx), tx.vout, false, |tx.vout|);
  }

  /** An ordinary transaction with a generating input is stored under 0 but not counted. */
  lemma {:induction false} GenIsNotCounted(blk: Block, tx: Tx)
    requires blk.minerTx == Tx(1, 2, [Gen], [Output(0, true, "SISPOP")]) && blk.txHashes == [2]
    requires tx == Tx(2, 2, [Gen], [Output(5, true, "SISPOP")])
    ensures AddBlock(EMPTY, blk, [tx]).Ok?
    ensures var s := AddBlock(EMPTY, blk, [tx]).value;
            CumTally(s.blocks).num == 1 && CountAmount(s.outs, 0) == 2
  {
    hide AddTx, AddBlock, Known, CountAmount, AssetsAllowed, BlockTally, CumTally, StoredZeros;
    var miner := blk.minerTx;
    SispopIsKnown();
    ImagesOfGen();
    OneInOneOut(miner);
    OneInOneOut(tx);
    AddTxSucceeds(EMPTY, miner, 1);
    var s1 := AddTx(EMPTY, miner, 1).value;
    OnlyOneTx(miner, 1, 2);
    AddTxSucceeds(s1, tx, 2);
    PairBlock(blk, tx);
    AddTxCounts(EMPTY, miner, 1);
    AddTxCounts(s1, tx, 2);
    EmptyCount();
    StoredAsCounted(miner, 1);
    StoredAsCounted(tx, 1);
    CountedAll(miner.vout, 1);
    CountedOne(tx.vout[0]);
    PairTallyNum(blk, tx);
  }

  lemma {:induction false} OnlyOneTx(tx: Tx, hash: nat, other: nat)
    requires AddTx(EMPTY, tx, hash).Ok? && other != hash
    ensures other !in AddTx(EMPTY, tx, hash).value.txs
  {
  }

  // ---------- popping can take another block's output ----------

  const OLD := Tx(1, 1, [Gen], [Output(5, true, "SISPOP"), Output(5, true, "SISPOP")])
  const MIXED := Tx(2, 2, [Gen, ToKey(7, "SISPOP")], [Output(5, true, "SISPOP")])

  const OLD_OUTS := [OutRecord(5, 0, 1, 0), OutRecord(5, 1, 1, 1)]
  const MIXED_OUT := OutRecord(0, 0, 2, 0)

  lemma {:induction false} OldCounts()
    ensures CountAmount([], 5) == 0
    ensures CountAmount([OutRecord(5, 0, 1, 0)], 5) == 1
    ensures CountAmount(OLD_OUTS, 0) == 0
  {
    var one := OutRecord(5, 0, 1, 0);
    assert [one][..0] == [];
    assert CountAmount([one], 0) == 0;
    assert OLD_OUTS[..1] == [one];
  }

  lemma {:induction false} OldOutputs()
    ensures AddOutputs([], OLD, 1, 2) == Ok(OLD_OUTS)
  {
    hide CountAmount, IsMiner;
    var one := OutRecord(5, 0, 1, 0);
    OldCounts();
    assert OLD.vout[0] == OLD.vout[1] == Output(5, true, "SISPOP");
    assert [] + [one] == [one] && [one] + [OutRecord(5, 1, 1, 1)] == OLD_OUTS;
    assert AddOutputs([], OLD, 1, 0) == Ok([]);
    assert AddOutputs([], OLD, 1, 1) == Ok([one]);
  }

  lemma {:induction false} OldIsStored()
    ensures AddTx(EMPTY, OLD, 1).Ok?
    ensures AddTx(EMPTY, OLD, 1).value.outs == OLD_OUTS && AddTx(EMPTY, OLD, 1).value.spent == {}
    ensures 2 !in AddTx(EMPTY, OLD, 1).value.txs
  {
    hide CountAmount, Known, Images;
    SispopIsKnown();
    ImagesOfGen();
    SpendIsUnion({}, OLD.vin);
    assert AssetsAllowed(OLD, IsMiner(OLD)) by { assert OLD.vin[0] == Gen; }
    OldOutputs();
  }

  lemma {:induction false} MixedIsAllowed()
    ensures AssetsAllowed(MIXED, IsMiner(MIXED)) && Images(MIXED.vin) == [7]
  {
    hide Known;
    SispopIsKnown();
    ImagesOfGen();
    assert MIXED.vin[..1] == [Gen] && MIXED.vin[0] == Gen;
  }

  lemma {:induction false} MixedIsStored(s: Store)
    requires s.spent == {} && 2 !in s.txs && s.outs == OLD_OUTS
    ensures AddTx(s, MIXED, 2).Ok?
    ensures AddTx(s, MIXED, 2).value.outs == OLD_OUTS + [MIXED_OUT]
    ensures 2 in AddTx(s, MIXED, 2).value.txs
    ensures AddTx(s, MIXED, 2).value.txs[2].tx == MIXED && AddTx(s, MIXED, 2).value.txs[2].outIndices == [0]
  {
    hide CountAmount, AssetsAllowed, Images, SpendInputs;
    MixedIsAllowed();
    AddTxSucceeds(s, MIXED, 2);
    OldCounts();
    assert MIXED.vin[0] == Gen;
    assert AddOutputs(OLD_OUTS, MIXED, 2, 0) == Ok(OLD_OUTS);
    assert AddOutputs(OLD_OUTS, MIXED, 2, 1) == Ok(OLD_OUTS + [MIXED_OUT]);
  }

  /** Removing the mixed transaction looks for amount 5 and index 0, which is the first output of the other. */
  lemma {:induction false} MixedTakesOldOutput(s: Store)
    requires 2 in s.txs && s.txs[2].tx == MIXED && s.txs[2].outIndices == [0] && s.outs == OLD_OUTS + [MIXED_OUT]
    ensures RemoveTx(s, 2).Ok? && RemoveTx(s, 2).value.outs == [OutRecord(5, 1, 1, 1), MIXED_OUT]
  {
    hide UnspendInputs;
    var outs := s.outs;
    assert RemovalAmount(MIXED, 0) == 5;
    assert outs[2] == MIXED_OUT && outs[1] == OutRecord(5, 1, 1, 1) && outs[0] == OutRecord(5, 0, 1, 0);
    assert FindOutput(outs, 5, 0, 1) == 0;
    assert FindOutput(outs, 5, 0, 2) == 0;
    assert FindOutput(outs, 5, 0, 3) == 0;
    assert RemoveOutput(outs, 5, 0) == Ok(outs[..0] + outs[1..]);
    assert outs[..0] + outs[1..] == [OutRecord(5, 1, 1, 1), MIXED_OUT];
    assert RemoveOutputs(outs, MIXED, [0], 1) == Ok([OutRecord(5, 1, 1, 1), MIXED_OUT]);
  }

  /** A block with just its miner transaction on a store that it fits. */
  lemma {:induction false} LoneBlockOn(s: Store, blk: Block)
    requires blk.txHashes == [] && AddTx(s, blk.minerTx, blk.minerTx.hash).Ok? && !HasBlock(s.blocks, blk.hash)
    requires s.blocks != [] ==> s.blocks[|s.blocks| - 1].blk.hash == blk.prevHash
    ensures AddBlock(s, blk, []).Ok?
    ensures var t, after := AddTx(s, blk.minerTx, blk.minerTx.hash).value, AddBlock(s, blk, []).value;
            && after.outs == t.outs && after.txs == t.txs && after.spent == t.spent
            && |after.blocks| == |s.blocks| + 1 && after.blocks[..|s.blocks|] == s.blocks
            && after.blocks[|s.blocks|].blk == blk
  {
    hide AddTx, HasBlock, BlockTally, CumTally;
    AddedTx(s, blk.minerTx, blk.minerTx.hash);
  }

  lemma {:induction false} LonePop(s: Store, blk: Block)
    requires s.blocks != [] && s.blocks[|s.blocks| - 1].blk == blk && blk.txHashes == []
    requires RemoveTx(s, blk.minerTx.hash).Ok?
    ensures PopBlock(s).Ok? && PopBlock(s).value.store.outs == RemoveTx(s, blk.minerTx.hash).value.outs
  {
    hide RemoveOutputs, UnspendInputs;
  }

  /** The store after adding both blocks, and after popping the second one. */
  lemma {:induction false} BothBlocks(a: Block, b: Block) returns (s1: Store, s2: Store)
    requires a.minerTx == OLD && a.txHashes == [] && b.minerTx == MIXED && b.txHashes == []
    requires b.prevHash == a.hash && b.hash != a.hash
    ensures AddBlock(EMPTY, a, []) == Ok(s1) && AddBlock(s1, b, []) == Ok(s2)
    ensures PopBlock(s2).Ok? && PopBlock(s2).value.store.outs == [OutRecord(5, 1, 1, 1), MIXED_OUT]
  {
    hide AddTx, AddBlock, PopBlock, RemoveTx;
    OldIsStored();
    LoneBlockOn(EMPTY, a);
    s1 := AddBlock(EMPTY, a, []).value;
    MixedIsStored(s1);
    LoneBlockOn(s1, b);
    s2 := AddBlock(s1, b, []).value;
    MixedTakesOldOutput(s2);
    LonePop(s2, b);
  }

  /**
   A run that adds two blocks and pops the second.  The pop succeeds, but takes an output of the first block
   and leaves its own: under amount 0 there is an output although none is counted, and the numbering has a gap.
   */
  lemma {:induction false} PopTakesAnotherOutput(a: Block, b: Block)
    requires a.minerTx == OLD && a.txHashes == [] && b.minerTx == MIXED && b.txHashes == []
    requires b.prevHash == a.hash && b.hash != a.hash
    ensures var steps := [Add(a, []), Add(b, []), Pop];
            && ChainOf(steps) == [Entry(a, [])] && RegularChain(ChainOf(steps))
            && PoppedOf(steps) == [Entry(b, [])]
            && CumTally(Execute(steps).blocks).num != CountAmount(Execute(steps).outs, 0)
            && !Numbered(Execute(steps).outs)
  {
    hide AddBlock, PopBlock, CumTally, RegularBlock, BlockConsistent, CountAmount, Numbered;
    var s1, s2 := BothBlocks(a, b);
    var steps := [Add(a, []), Add(b, []), Pop];
    assert steps[..2] == [Add(a, []), Add(b, [])] && steps[..2][..1] == [Add(a, [])] && [Add(a, [])][..0] == [];
    assert Execute([]) == EMPTY && ChainOf([]) == [] && PoppedOf([]) == [];
    assert Execute([Add(a, [])]) == s1 && ChainOf([Add(a, [])]) == [Entry(a, [])];
    assert PoppedOf([Add(a, [])]) == [];
    assert Execute(steps[..2]) == s2 && ChainOf(steps[..2]) == [Entry(a, []), Entry(b, [])] && PoppedOf(steps[..2]) == [];
    assert ChainOf(steps) == [Entry(a, [])] && PoppedOf(steps) == [Entry(b, [])];
    OldIsRegular(a);
    MixedIsInconsistent(b);
    assert PoppedOf(steps)[0] == Entry(b, []);
    CumRctIsStored(steps);
    GapIsNotNumbered();
  }

  lemma {:induction false} OldIsRegular(a: Block)
    requires a.minerTx == OLD
    ensures RegularBlock(a, [])
  {
  }

  lemma {:induction false} MixedIsInconsistent(b: Block)
    requires b.minerTx == MIXED
    ensures !BlockConsistent(b, [])
  {
    assert MIXED.vin[0] == Gen && MIXED.vout[0].amount == 5;
  }

  lemma {:induction false} GapIsNotNumbered()
    ensures !Numbered([OutRecord(5, 1, 1, 1), MIXED_OUT])
  {
    var outs := [OutRecord(5, 1, 1, 1), MIXED_OUT];
    assert outs[..0] == [] && CountAmount(outs[..0], 5) == 0;
  }

  // ---------- counts by asset type ----------

  lemma {:induction false} OtherIsUnknown()
    ensures !Known("OTHER")
  {
    assert |"OTHER"| == 5 && |"SISPOP"| == 6;
  }

  /** An accepted block whose stored counts by asset type do not add up to the stored count. */
  lemma {:induction false} UnknownAssetIsNotAttributed(blk: Block)
    requires blk.minerTx == Tx(1, 2, [Gen], [Output(0, true, "OTHER")]) && blk.txHashes == []
    ensures AddBlock(EMPTY, blk, []).Ok?
    ensures var t := CumTally(AddBlock(EMPTY, blk, []).value.blocks);
            t.byAsset.Total() < t.num
  {
    hide AddTx, AddBlock, BlockTally, Known, CumTally, AssetsAllowed;
    var miner := blk.minerTx;
    SispopIsKnown();
    OtherIsUnknown();
    ImagesOfGen();
    OneInOneOut(miner);
    AddTxSucceeds(EMPTY, miner, 1);
    LoneBlock(blk);
    assert !Known(miner.vout[0].asset);
    BlockCountsByAsset(blk, []);
  }
}
