/** The counts kept with every block, against the outputs themselves. */
module AssetTallies {
  import opened Transactions
  import opened Ledger
  import opened ChainRuns

  /** An output is counted if it has no amount; in a version 2 miner transaction all are. */
  predicate IsCounted(o: Output, all: bool) {
    all || o.amount == 0
  }

  predicate IsOf(o: Output, all: bool, asset: string) {
    IsCounted(o, all) && o.asset == asset
  }

  /** The outputs that are counted. */
  ghost function CountedOutputs(vout: seq<Output>, all: bool): set<nat> {
    FirstCounted(vout, all, |vout|)
  }

  /** Those of one asset type. */
  ghost function OutputsOf(vout: seq<Output>, all: bool, asset: string): set<nat> {
    FirstOf(vout, all, asset, |vout|)
  }

  ghost function FirstCounted(vout: seq<Output>, all: bool, n: nat): set<nat>
    requires n <= |vout|
  {
    set i: nat | i < n && IsCounted(vout[i], all)
  }

  ghost function FirstOf(vout: seq<Output>, all: bool, asset: string, n: nat): set<nat>
    requires n <= |vout|
  {
    set i: nat | i < n && IsOf(vout[i], all, asset)
  }

  ghost function TxsCounted(txs: seq<Tx>): nat {
    if txs == [] then 0 else TxsCounted(txs[..|txs| - 1]) + |CountedOutputs(txs[|txs| - 1].vout, false)|
  }

  ghost function TxsOf(txs: seq<Tx>, asset: string): nat {
    if txs == [] then 0 else TxsOf(txs[..|txs| - 1], asset) + |OutputsOf(txs[|txs| - 1].vout, false, asset)|
  }

  /** How many outputs of a block are counted, in all and of one asset type. */
  ghost function BlockCounted(e: Entry): nat {
    (if e.blk.minerTx.version >= 2 then |CountedOutputs(e.blk.minerTx.vout, true)| else 0) + TxsCounted(e.txs)
  }

  ghost function BlockOf(e: Entry, asset: string): nat {
    (if e.blk.minerTx.version >= 2 then |OutputsOf(e.blk.minerTx.vout, true, asset)| else 0) + TxsOf(e.txs, asset)
  }

  ghost function ChainCounted(chain: seq<Entry>): nat {
    if chain == [] then 0 else ChainCounted(chain[..|chain| - 1]) + BlockCounted(chain[|chain| - 1])
  }

  ghost function ChainOfAsset(chain: seq<Entry>, asset: string): nat {
    if chain == [] then 0 else ChainOfAsset(chain[..|chain| - 1], asset) + BlockOf(chain[|chain| - 1], asset)
  }

  // ---------- counting one output after the other ----------

  lemma {:induction false} AddGets(c: AssetCounts, added: string, asset: string)
    requires Known(asset)
    ensures c.Add(added).Get(asset) == c.Get(asset) + (if added == asset then 1 else 0)
  {
    assert |"SISPOP"| == 6 && |"SISPOPUSD"| == 9 && |"SISPOPRSV"| == 9;
    assert "SISPOPUSD"[6] == 'U' && "SISPOPRSV"[6] == 'R';
  }

  lemma {:induction false} PlusGets(c: AssetCounts, d: AssetCounts, asset: string)
    ensures c.Plus(d).Get(asset) == c.Get(asset) + d.Get(asset)
  {
  }

  lemma {:induction false} CountedFirst(vout: seq<Output>, all: bool, n: nat)
    requires n < |vout|
    ensures |FirstCounted(vout, all, n + 1)| == |FirstCounted(vout, all, n)| + (if IsCounted(vout[n], all) then 1 else 0)
  {
    hide IsCounted;
    OneMore(FirstCounted(vout, all, n), FirstCounted(vout, all, n + 1), n, IsCounted(vout[n], all));
  }

  lemma {:induction false} OfFirst(vout: seq<Output>, all: bool, asset: string, n: nat)
    requires n < |vout|
    ensures |FirstOf(vout, all, asset, n + 1)| ==
            |FirstOf(vout, all, asset, n)| + (if IsOf(vout[n], all, asset) then 1 else 0)
  {
    hide IsOf;
    OneMore(FirstOf(vout, all, asset, n), FirstOf(vout, all, asset, n + 1), n, IsOf(vout[n], all, asset));
  }

  lemma {:induction false} OneMore(before: set<nat>, after: set<nat>, n: nat, added: bool)
    requires n !in before && forall i :: i in after <==> i in before || (added && i == n)
    ensures |after| == |before| + (if added then 1 else 0)
  {
    assert after == if added then before + {n} else before;
  }

  lemma {:induction false} TallyIsCounted(t: Tally, vout: seq<Output>, all: bool, n: nat)
    requires n <= |vout|
    ensures TallyOutputs(t, vout, all, n).num == t.num + |FirstCounted(vout, all, n)|
  {
    hide FirstCounted;
    if n == 0 {
      NoOutputs(vout, all);
    } else {
      TallyIsCounted(t, vout, all, n - 1);
      CountedFirst(vout, all, n - 1);
    }
  }

  lemma {:induction false} NoOutputs(vout: seq<Output>, all: bool)
    ensures FirstCounted(vout, all, 0) == {}
    ensures forall asset :: FirstOf(vout, all, asset, 0) == {}
  {
  }

  lemma {:induction false} TallyIsOf(t: Tally, vout: seq<Output>, all: bool, n: nat, asset: string)
    requires n <= |vout| && Known(asset)
    ensures TallyOutputs(t, vout, all, n).byAsset.Get(asset) == t.byAsset.Get(asset) + |FirstOf(vout, all, asset, n)|
  {
    hide FirstOf, Known, AssetCounts.Add, AssetCounts.Get;
    if n == 0 {
      NoOutputs(vout, all);
    } else {
      var before := TallyOutputs(t, vout, all, n - 1);
      TallyIsOf(t, vout, all, n - 1, asset);
      OfFirst(vout, all, asset, n - 1);
      AddGets(before.byAsset, vout[n - 1].asset, asset);
    }
  }

  lemma {:induction false} TxsTally(t: Tally, txs: seq<Tx>, n: nat, asset: string)
    requires n <= |txs| && Known(asset)
    ensures TallyTxs(t, txs, n).num == t.num + TxsCounted(txs[..n])
    ensures TallyTxs(t, txs, n).byAsset.Get(asset) == t.byAsset.Get(asset) + TxsOf(txs[..n], asset)
  {
    hide TallyOutputs, FirstCounted, FirstOf, Known, AssetCounts.Get;
    if n != 0 {
      TxsTally(t, txs, n - 1, asset);
      assert txs[..n][..n - 1] == txs[..n - 1];
      var before, vout := TallyTxs(t, txs, n - 1), txs[n - 1].vout;
      TallyIsCounted(before, vout, false, |vout|);
      TallyIsOf(before, vout, false, |vout|, asset);
    }
  }

  /** A block's counts are the numbers of its counted outputs, in all and of each known asset type. */
  lemma {:induction false} BlockTallyIsOutputs(e: Entry, asset: string)
    requires Known(asset)
    ensures BlockTally(e.blk, e.txs).num == BlockCounted(e)
    ensures BlockTally(e.blk, e.txs).byAsset.Get(asset) == BlockOf(e, asset)
  {
    hide TallyOutputs, TallyTxs, FirstCounted, FirstOf, Known, TxsCounted, TxsOf;
    var vout := e.blk.minerTx.vout;
    TallyIsCounted(NO_TALLY, vout, true, |vout|);
    TallyIsOf(NO_TALLY, vout, true, |vout|, asset);
    assert e.txs[..|e.txs|] == e.txs;
    TxsTally(MinerTally(e.blk.minerTx), e.txs, |e.txs|, asset);
  }

  lemma {:induction false} RecordsStep(chain: seq<Entry>, asset: string)
    requires chain != []
    ensures var top, below := BlockTally(chain[|chain| - 1].blk, chain[|chain| - 1].txs),
                              CumTally(Records(chain[..|chain| - 1]));
            && CumTally(Records(chain)).num == below.num + top.num
            && CumTally(Records(chain)).byAsset.Get(asset) == below.byAsset.Get(asset) + top.byAsset.Get(asset)
  {
    hide BlockTally, AssetCounts.Get;
    var top, below := chain[|chain| - 1], CumTally(Records(chain[..|chain| - 1]));
    PlusGets(below.byAsset, BlockTally(top.blk, top.txs).byAsset, asset);
  }

  lemma {:induction false} ChainTallyIsOutputs(chain: seq<Entry>, asset: string)
    requires Known(asset)
    ensures CumTally(Records(chain)).num == ChainCounted(chain)
    ensures CumTally(Records(chain)).byAsset.Get(asset) == ChainOfAsset(chain, asset)
  {
    hide BlockTally, BlockCounted, BlockOf, CumTally, Known;
    if chain == [] {
      NoTally(asset);
    } else {
      ChainTallyIsOutputs(chain[..|chain| - 1], asset);
      RecordsStep(chain, asset);
      BlockTallyIsOutputs(chain[|chain| - 1], asset);
    }
  }

  lemma {:induction false} NoTally(asset: string)
    ensures NO_TALLY.num == 0 && NO_TALLY.byAsset.Get(asset) == 0
  {
  }

  /** After every run the top record's counts are the numbers of counted outputs on the chain. */
  lemma {:induction false} RunTallyIsOutputs(steps: seq<Step>, asset: string)
    requires Known(asset)
    ensures CumTally(Execute(steps).blocks).num == ChainCounted(ChainOf(steps))
    ensures CumTally(Execute(steps).blocks).byAsset.Get(asset) == ChainOfAsset(ChainOf(steps), asset)
  {
    hide Execute, ChainOf, CumTally, Records, Holds, ChainListings, Matched, ChainAllowed,
      ChainCounted, ChainOfAsset, Known;
    RunFollowsChain(steps);
    ChainTallyIsOutputs(ChainOf(steps), asset);
  }
}
