/** The cumulative counts of rct outputs kept with every block, against the outputs that are stored. */
module RctCounts {
  import opened Transactions
  import opened Ledger
  import opened PopUndoesAdd
  import opened ChainRuns

  /** How many of the first `n` outputs are counted, and how many of those have an unknown asset type. */
  function Counted(vout: seq<Output>, all: bool, n: nat): nat
    requires n <= |vout|
  {
    if n == 0 then 0
    else Counted(vout, all, n - 1) + (if all || vout[n - 1].amount == 0 then 1 else 0)
  }

  function Unknown(vout: seq<Output>, all: bool, n: nat): nat
    requires n <= |vout|
  {
    if n == 0 then 0
    else
      Unknown(vout, all, n - 1)
      + (if (all || vout[n - 1].amount == 0) && !Known(vout[n - 1].asset) then 1 else 0)
  }

  lemma {:induction false} TallyCounts(t: Tally, vout: seq<Output>, all: bool, n: nat)
    requires n <= |vout|
    ensures TallyOutputs(t, vout, all, n).num == t.num + Counted(vout, all, n)
  {
    if n != 0 {
      TallyCounts(t, vout, all, n - 1);
    }
  }

  lemma {:induction false} TallyMisses(t: Tally, vout: seq<Output>, all: bool, n: nat)
    requires n <= |vout|
    ensures TallyOutputs(t, vout, all, n).num - TallyOutputs(t, vout, all, n).byAsset.Total() ==
            t.num - t.byAsset.Total() + Unknown(vout, all, n)
  {
    if n != 0 {
      TallyMisses(t, vout, all, n - 1);
    }
  }

  // ---------- what is counted against what is stored under amount 0 ----------

  /** The outputs the code counts for a block's miner transaction and for its other transactions. */
  function MinerCounted(tx: Tx): nat {
    if tx.version >= 2 then Counted(tx.vout, true, |tx.vout|) else 0
  }

  function TxCounted(tx: Tx): nat {
    Counted(tx.vout, false, |tx.vout|)
  }

  /** A miner transaction that has a generating input, or nothing that would need one. */
  predicate RegularMiner(tx: Tx) {
    tx.version < 2 || Gen in tx.vin || AllZero(tx.vout)
  }

  /** A transaction other than the miner's that has no generating input, or nothing it would change. */
  predicate RegularTx(tx: Tx) {
    tx.version < 2 || Gen !in tx.vin || AllZero(tx.vout)
  }

  lemma {:induction false} CountedAll(vout: seq<Output>, n: nat)
    requires n <= |vout|
    ensures Counted(vout, true, n) == n
  {
    if n != 0 {
      CountedAll(vout, n - 1);
    }
  }

  /** Outputs with an amount of their own are counted only when all are; without any, the counts agree. */
  lemma {:induction false} CountedZero(vout: seq<Output>, n: nat)
    requires n <= |vout|
    ensures Counted(vout, false, n) <= n
    ensures Counted(vout, false, n) == n <==> forall i :: 0 <= i < n ==> vout[i].amount == 0
  {
    if n != 0 {
      CountedZero(vout, n - 1);
    }
  }

  lemma {:induction false} StoredAsCounted(tx: Tx, n: nat)
    requires n <= |tx.vout|
    ensures StoredZeros(tx, n) == if IsMiner(tx) && tx.version >= 2 then n else Counted(tx.vout, false, n)
  {
    if n != 0 {
      StoredAsCounted(tx, n - 1);
    }
  }

  lemma {:induction false} CountedAmounts(vout: seq<Output>, n: nat)
    requires n <= |vout| && HasAmounts(vout, n)
    ensures Counted(vout, false, n) == 0
  {
    if n != 0 {
      CountedAmounts(vout, n - 1);
    }
  }

  lemma {:induction false} MinerCount(tx: Tx)
    requires tx.version < 2 ==> HasAmounts(tx.vout, |tx.vout|)
    ensures MinerCounted(tx) == StoredZeros(tx, |tx.vout|) <==> RegularMiner(tx)
  {
    var n := |tx.vout|;
    CountedAll(tx.vout, n);
    CountedZero(tx.vout, n);
    StoredAsCounted(tx, n);
    if tx.version < 2 {
      CountedAmounts(tx.vout, n);
    }
  }

  /** The count for a miner transaction is the number of its outputs stored under 0 just when it is regular. */
  lemma {:induction false} MinerCountExact(s: Store, tx: Tx, hash: nat)
    requires AddTx(s, tx, hash).Ok?
    ensures MinerCounted(tx) == StoredZeros(tx, |tx.vout|) <==> RegularMiner(tx)
  {
    hide MinerCounted, StoredZeros, RegularMiner, AssetsAllowed, SpendInputs, AddOutputs;
    if tx.version < 2 {
      OldOutputsHaveAmounts(s.outs, tx, hash, |tx.vout|);
    }
    MinerCount(tx);
  }

  lemma {:induction false} TxCountExact(tx: Tx)
    ensures TxCounted(tx) == StoredZeros(tx, |tx.vout|) <==> RegularTx(tx)
  {
    CountedZero(tx.vout, |tx.vout|);
    StoredAsCounted(tx, |tx.vout|);
  }

  // ---------- blocks ----------

  ghost predicate RegularBlock(blk: Block, txs: seq<Tx>) {
    RegularMiner(blk.minerTx) && forall i :: 0 <= i < |txs| ==> RegularTx(txs[i])
  }

  lemma {:induction false} TallyTxsCounts(t: Tally, txs: seq<Tx>, n: nat)
    requires n <= |txs| && forall i :: 0 <= i < n ==> RegularTx(txs[i])
    ensures TallyTxs(t, txs, n).num == t.num + SumStored(txs[..n])
  {
    if n != 0 {
      TallyTxsCounts(t, txs, n - 1);
      assert txs[..n][..n - 1] == txs[..n - 1];
      TallyCounts(TallyTxs(t, txs, n - 1), txs[n - 1].vout, false, |txs[n - 1].vout|);
      TxCountExact(txs[n - 1]);
    }
  }

  lemma {:induction false} MinerTallyNum(tx: Tx)
    ensures MinerTally(tx).num == MinerCounted(tx)
  {
    hide TallyOutputs, Counted;
    TallyCounts(NO_TALLY, tx.vout, true, |tx.vout|);
  }

  lemma {:induction false} BlockTallyCounts(e: Entry)
    requires BlockAllowed(e.blk, e.txs) && RegularBlock(e.blk, e.txs)
    ensures BlockTally(e.blk, e.txs).num == EntryStored(e)
  {
    hide AssetsAllowed, HasAmounts, StoredZeros, SumStored, TallyTxs, MinerTally, MinerCounted, RegularMiner, RegularTx;
    var miner := e.blk.minerTx;
    MinerTallyNum(miner);
    MinerCount(miner);
    TallyTxsCounts(MinerTally(miner), e.txs, |e.txs|);
    assert e.txs[..|e.txs|] == e.txs;
  }

  ghost predicate RegularChain(chain: seq<Entry>) {
    forall i :: 0 <= i < |chain| ==> RegularBlock(chain[i].blk, chain[i].txs)
  }

  lemma {:induction false} RecordsNum(chain: seq<Entry>)
    requires chain != []
    ensures var top := chain[|chain| - 1];
            CumTally(Records(chain)).num == CumTally(Records(chain[..|chain| - 1])).num + BlockTally(top.blk, top.txs).num
  {
    hide BlockTally;
  }

  /** On a chain of regular blocks the cumulative count is what the chain stores under amount 0. */
  lemma {:induction false} ChainCounts(chain: seq<Entry>)
    requires ChainAllowed(chain) && RegularChain(chain)
    ensures CumTally(Records(chain)).num == ChainStored(chain)
  {
    hide CumTally, BlockTally, EntryStored, BlockAllowed, RegularBlock;
    if chain != [] {
      ChainCounts(chain[..|chain| - 1]);
      RecordsNum(chain);
      BlockTallyCounts(chain[|chain| - 1]);
    }
  }

  /**
   After every run that ends with a chain of regular blocks, the count kept with the top block is the number
   of outputs stored under amount 0 if and only if every block that pops took off is consistent.
   */
  lemma {:induction false} CumRctIsStored(steps: seq<Step>)
    requires RegularChain(ChainOf(steps))
    ensures CumTally(Execute(steps).blocks).num == CountAmount(Execute(steps).outs, 0) <==>
            AllConsistent(PoppedOf(steps))
  {
    hide Execute, ChainOf, PoppedOf, CumTally, CountAmount, Matched, Holds, ChainListings, Records, ChainAllowed,
      RegularChain, ChainStored, LeftBehind, AllConsistent;
    RunFollowsChain(steps);
    ChainCounts(ChainOf(steps));
    RunCounts(steps);
    NothingLeftBehind(PoppedOf(steps));
  }

  // ---------- counts by asset type ----------

  ghost predicate KnownOutputs(vout: seq<Output>, all: bool) {
    forall i :: 0 <= i < |vout| && (all || vout[i].amount == 0) ==> Known(vout[i].asset)
  }

  lemma {:induction false} NoneUnknown(vout: seq<Output>, all: bool, n: nat)
    requires n <= |vout|
    ensures Unknown(vout, all, n) == 0 <==>
            forall i :: 0 <= i < n && (all || vout[i].amount == 0) ==> Known(vout[i].asset)
  {
    if n != 0 {
      NoneUnknown(vout, all, n - 1);
    }
  }

  /** Every output that the block counts has a known asset type. */
  ghost predicate KnownBlock(blk: Block, txs: seq<Tx>) {
    && (blk.minerTx.version >= 2 ==> KnownOutputs(blk.minerTx.vout, true))
    && forall i :: 0 <= i < |txs| ==> KnownOutputs(txs[i].vout, false)
  }

  /** What a tally counts without attributing it to an asset type. */
  function Unattributed(t: Tally): int {
    t.num - t.byAsset.Total()
  }

  lemma {:induction false} TallyTxsUnattributed(t: Tally, txs: seq<Tx>, n: nat)
    requires n <= |txs|
    ensures Unattributed(TallyTxs(t, txs, n)) >= Unattributed(t)
    ensures Unattributed(TallyTxs(t, txs, n)) == Unattributed(t) <==>
            forall i :: 0 <= i < n ==> KnownOutputs(txs[i].vout, false)
  {
    hide KnownOutputs;
    if n != 0 {
      TallyTxsUnattributed(t, txs, n - 1);
      OutputsUnattributed(TallyTxs(t, txs, n - 1), txs[n - 1].vout, false);
    }
  }

  lemma {:induction false} OutputsUnattributed(t: Tally, vout: seq<Output>, all: bool)
    ensures Unattributed(TallyOutputs(t, vout, all, |vout|)) >= Unattributed(t)
    ensures Unattributed(TallyOutputs(t, vout, all, |vout|)) == Unattributed(t) <==> KnownOutputs(vout, all)
  {
    TallyMisses(t, vout, all, |vout|);
    NoneUnknown(vout, all, |vout|);
  }

  lemma {:induction false} BlockUnattributed(blk: Block, txs: seq<Tx>)
    ensures Unattributed(BlockTally(blk, txs)) >= 0
    ensures Unattributed(BlockTally(blk, txs)) == 0 <==> KnownBlock(blk, txs)
  {
    hide KnownOutputs, TallyOutputs, TallyTxs, Unattributed;
    assert Unattributed(NO_TALLY) == 0 by { EmptyTally(); }
    OutputsUnattributed(NO_TALLY, blk.minerTx.vout, true);
    TallyTxsUnattributed(MinerTally(blk.minerTx), txs, |txs|);
  }

  lemma {:induction false} EmptyTally()
    ensures Unattributed(NO_TALLY) == 0
  {
  }

  /** A block's counts by asset type add up to its count exactly when it counts known asset types only. */
  lemma {:induction false} BlockCountsByAsset(blk: Block, txs: seq<Tx>)
    ensures BlockTally(blk, txs).byAsset.Total() <= BlockTally(blk, txs).num
    ensures BlockTally(blk, txs).byAsset.Total() == BlockTally(blk, txs).num <==> KnownBlock(blk, txs)
  {
    hide KnownBlock, BlockTally;
    BlockUnattributed(blk, txs);
  }

  /** Every output that the block counts for a transaction with a generating input has a known asset type. */
  ghost predicate GenOutputsKnown(blk: Block, txs: seq<Tx>) {
    && (blk.minerTx.version >= 2 && IsMiner(blk.minerTx) ==> KnownOutputs(blk.minerTx.vout, true))
    && forall i :: 0 <= i < |txs| && IsMiner(txs[i]) ==> KnownOutputs(txs[i].vout, false)
  }

  lemma {:induction false} AllowedOutputsKnown(tx: Tx, all: bool)
    requires AssetsAllowed(tx, IsMiner(tx)) && !IsMiner(tx)
    ensures KnownOutputs(tx.vout, all)
  {
    hide AssetsAllowed, Known;
    forall i | 0 <= i < |tx.vout| ensures Known(tx.vout[i].asset) {
      AllowedAreKnown(tx, i);
    }
  }

  /** For transactions with allowed asset types only generating inputs let unknown asset types in. */
  lemma {:induction false} AllowedBlockKnown(blk: Block, txs: seq<Tx>)
    requires BlockAllowed(blk, txs)
    ensures KnownBlock(blk, txs) <==> GenOutputsKnown(blk, txs)
  {
    hide AssetsAllowed, KnownOutputs, IsMiner;
    if !IsMiner(blk.minerTx) {
      AllowedOutputsKnown(blk.minerTx, true);
    }
    forall i | 0 <= i < |txs| && !IsMiner(txs[i])
      ensures KnownOutputs(txs[i].vout, false)
    {
      AllowedOutputsKnown(txs[i], false);
    }
  }

  /** The counts by asset type of a block that was added, exactly. */
  lemma {:induction false} AddedCountsByAsset(s: Store, blk: Block, txs: seq<Tx>)
    requires AddBlock(s, blk, txs).Ok?
    ensures BlockTally(blk, txs).byAsset.Total() == BlockTally(blk, txs).num <==> GenOutputsKnown(blk, txs)
  {
    hide AddBlock, BlockTally, KnownBlock, GenOutputsKnown, BlockAllowed;
    AddedBlockAllowed(s, blk, txs);
    AllowedBlockKnown(blk, txs);
    BlockCountsByAsset(blk, txs);
  }

  ghost predicate GenChainKnown(chain: seq<Entry>) {
    forall i :: 0 <= i < |chain| ==> GenOutputsKnown(chain[i].blk, chain[i].txs)
  }

  lemma {:induction false} RecordsUnattributed(chain: seq<Entry>)
    requires chain != []
    ensures var top := chain[|chain| - 1];
            Unattributed(CumTally(Records(chain))) ==
            Unattributed(CumTally(Records(chain[..|chain| - 1]))) + Unattributed(BlockTally(top.blk, top.txs))
  {
    hide BlockTally;
  }

  lemma {:induction false} ChainUnattributed(chain: seq<Entry>)
    requires ChainAllowed(chain)
    ensures Unattributed(CumTally(Records(chain))) >= 0
    ensures Unattributed(CumTally(Records(chain))) == 0 <==> GenChainKnown(chain)
  {
    hide KnownBlock, GenOutputsKnown, BlockTally, BlockAllowed, CumTally, Unattributed;
    if chain == [] {
      EmptyTally();
    } else {
      var init, top := chain[..|chain| - 1], chain[|chain| - 1];
      assert forall i :: 0 <= i < |init| ==> chain[i] == init[i];
      ChainUnattributed(init);
      RecordsUnattributed(chain);
      AllowedBlockKnown(top.blk, top.txs);
      BlockUnattributed(top.blk, top.txs);
      assert GenChainKnown(chain) <==> GenChainKnown(init) && GenOutputsKnown(top.blk, top.txs);
    }
  }

  /** The same for the cumulative counts of a whole chain. */
  lemma {:induction false} ChainCountsByAsset(chain: seq<Entry>)
    requires ChainAllowed(chain)
    ensures CumTally(Records(chain)).byAsset.Total() <= CumTally(Records(chain)).num
    ensures CumTally(Records(chain)).byAsset.Total() == CumTally(Records(chain)).num <==> GenChainKnown(chain)
  {
    hide Records, CumTally, GenChainKnown, ChainAllowed;
    ChainUnattributed(chain);
  }

  // ---------- every run ----------

  /**
   After every run of additions and removals: the spent keys are the key images on the chain, none of them
   there twice; the transaction table holds the chain's transactions, each under its own hash; and the
   cumulative counts by asset type add up exactly when transactions with generating inputs had known types
   only.  On a chain of regular blocks the cumulative count is the number of outputs under amount 0 exactly
   when the blocks that pops took off were consistent; and then the outputs of each amount are numbered in order.
   */
  lemma {:induction false} EveryRun(steps: seq<Step>)
    ensures Matched(ChainOf(steps))
    ensures Spends(Execute(steps).spent, KeyImages(ChainListings(ChainOf(steps))))
    ensures Tables(Execute(steps).txs, ChainListings(ChainOf(steps)))
    ensures CumTally(Execute(steps).blocks).byAsset.Total() == CumTally(Execute(steps).blocks).num <==>
            GenChainKnown(ChainOf(steps))
    ensures RegularChain(ChainOf(steps)) ==>
              (CumTally(Execute(steps).blocks).num == CountAmount(Execute(steps).outs, 0) <==>
               AllConsistent(PoppedOf(steps)))
    ensures AllConsistent(PoppedOf(steps)) ==> Numbered(Execute(steps).outs)
  {
    hide Execute, ChainOf, PoppedOf, Matched, ChainAllowed, Records, CumTally, GenChainKnown, Numbered, CountAmount,
      Spends, Tables, KeyImages, ChainListings, RegularChain, AllConsistent, Replay;
    RunFollowsChain(steps);
    ChainCountsByAsset(ChainOf(steps));
    if RegularChain(ChainOf(steps)) {
      CumRctIsStored(steps);
    }
    if AllConsistent(PoppedOf(steps)) {
      RunIsReplay(steps);
      OutputsAreNumbered(ChainOf(steps));
    }
  }
}
