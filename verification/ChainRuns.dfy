/** What every run of block additions and removals keeps. */
module ChainRuns {
  import opened Results
  import opened Transactions
  import opened Ledger
  import opened PopUndoesAdd

  datatype Step = Add(blk: Block, txs: seq<Tx>) | Pop

  /** A block of the chain together with the transactions it was added with. */
  datatype Entry = Entry(blk: Block, txs: seq<Tx>)

  /** The store after some steps from the empty store; a step that fails is rolled back. */
  ghost function Execute(steps: seq<Step>): Store {
    if steps == [] then EMPTY
    else
      var before := Execute(steps[..|steps| - 1]);
      match steps[|steps| - 1]
      case Add(blk, txs) => (match AddBlock(before, blk, txs) case Ok(s) => s case Err(_) => before)
      case Pop => (match PopBlock(before) case Ok(p) => p.store case Err(_) => before)
  }

  /** The blocks added and not popped since. */
  ghost function ChainOf(steps: seq<Step>): seq<Entry> {
    if steps == [] then []
    else
      var init, chain := steps[..|steps| - 1], ChainOf(steps[..|steps| - 1]);
      match steps[|steps| - 1]
      case Add(blk, txs) => if AddBlock(Execute(init), blk, txs).Ok? then chain + [Entry(blk, txs)] else chain
      case Pop => if chain != [] && PopBlock(Execute(init)).Ok? then chain[..|chain| - 1] else chain
  }

  /** The blocks that pops took off, in order. */
  ghost function PoppedOf(steps: seq<Step>): seq<Entry> {
    if steps == [] then []
    else
      var init := steps[..|steps| - 1];
      var chain := ChainOf(init);
      if steps[|steps| - 1].Pop? && chain != [] && PopBlock(Execute(init)).Ok?
      then PoppedOf(init) + [chain[|chain| - 1]]
      else PoppedOf(init)
  }

  // ---------- transactions and key images on the chain ----------

  /** A transaction with the hash it is stored under. */
  datatype Listing = Listing(hash: nat, tx: Tx)

  function Listed(hashes: seq<nat>, txs: seq<Tx>, n: nat): seq<Listing>
    requires n <= |txs| == |hashes|
  {
    if n == 0 then [] else Listed(hashes, txs, n - 1) + [Listing(hashes[n - 1], txs[n - 1])]
  }

  /** Every block of the chain has as many transactions as hashes. */
  ghost predicate Matched(chain: seq<Entry>) {
    forall i :: 0 <= i < |chain| ==> |chain[i].blk.txHashes| == |chain[i].txs|
  }

  function EntryListings(e: Entry): seq<Listing>
    requires |e.blk.txHashes| == |e.txs|
  {
    [Listing(e.blk.minerTx.hash, e.blk.minerTx)] + Listed(e.blk.txHashes, e.txs, |e.txs|)
  }

  /** The transactions on the chain, in order. */
  ghost function ChainListings(chain: seq<Entry>): seq<Listing>
    requires Matched(chain)
  {
    if chain == [] then []
    else ChainListings(chain[..|chain| - 1]) + EntryListings(chain[|chain| - 1])
  }

  function Hashes(l: seq<Listing>): seq<nat> {
    if l == [] then [] else Hashes(l[..|l| - 1]) + [l[|l| - 1].hash]
  }

  /** The key images that some transactions spend, in order. */
  function KeyImages(l: seq<Listing>): seq<nat> {
    if l == [] then [] else KeyImages(l[..|l| - 1]) + Images(l[|l| - 1].tx.vin)
  }

  lemma {:induction false} DistinctConcat(a: seq<nat>, b: seq<nat>)
    ensures Distinct(a + b) <==> Distinct(a) && Distinct(b) && Elements(a) !! Elements(b)
    ensures Elements(a + b) == Elements(a) + Elements(b)
  {
    var c := a + b;
    assert forall i :: 0 <= i < |a| ==> c[i] == a[i];
    assert forall j :: 0 <= j < |b| ==> c[|a| + j] == b[j];
    if Distinct(c) {
      forall i, j | 0 <= i < |a| && 0 <= j < |b|
        ensures a[i] != b[j]
      {
        assert c[i] != c[|a| + j];
      }
    } else if Distinct(a) && Distinct(b) && Elements(a) !! Elements(b) {
      assert forall i, j :: 0 <= i < |a| && 0 <= j < |b| ==> a[i] in Elements(a) && b[j] in Elements(b);
    }
  }

  /** The spent set holds each of the listed images, and no image is listed twice. */
  ghost predicate Spends(spent: set<nat>, images: seq<nat>) {
    Distinct(images) && spent == Elements(images)
  }

  /** The table holds exactly the listed transactions, each under its hash, and no hash is listed twice. */
  ghost predicate Tables(txs: map<nat, TxRecord>, l: seq<Listing>) {
    && Distinct(Hashes(l)) && txs.Keys == Elements(Hashes(l))
    && forall i :: 0 <= i < |l| ==> l[i].hash in txs && txs[l[i].hash].tx == l[i].tx
  }

  /** Spent keys and transaction table are those of the listed transactions. */
  ghost predicate Holds(s: Store, l: seq<Listing>) {
    Spends(s.spent, KeyImages(l)) && Tables(s.txs, l)
  }

  lemma {:induction false} ListSnoc(l: seq<Listing>, x: Listing)
    ensures Hashes(l + [x]) == Hashes(l) + [x.hash]
    ensures KeyImages(l + [x]) == KeyImages(l) + Images(x.tx.vin)
  {
    assert (l + [x])[..|l|] == l;
  }

  lemma {:induction false} AddTxHolds(s: Store, tx: Tx, hash: nat, l: seq<Listing>)
    requires AddTx(s, tx, hash).Ok? && Holds(s, l)
    ensures Holds(AddTx(s, tx, hash).value, l + [Listing(hash, tx)])
  {
    hide SpendInputs, AddOutputs, AssetsAllowed, Images, Hashes, KeyImages, Distinct;
    var x := Listing(hash, tx);
    var longer := l + [x];
    ListSnoc(l, x);
    SpendIsUnion(s.spent, tx.vin);
    DistinctConcat(KeyImages(l), Images(tx.vin));
    DistinctAppend(Hashes(l), hash);
    assert Elements(Hashes(longer)) == Elements(Hashes(l)) + {hash};
    assert forall i :: 0 <= i < |l| ==> longer[i] == l[i];
  }

  lemma {:induction false} RemoveTxHolds(s: Store, l: seq<Listing>, x: Listing)
    requires Holds(s, l + [x]) && RemoveTx(s, x.hash).Ok?
    ensures Holds(RemoveTx(s, x.hash).value, l)
    ensures x.hash in s.txs && s.txs[x.hash].tx == x.tx
  {
    hide RemoveOutputs, UnspendInputs, Images, Hashes, KeyImages, Distinct;
    var longer := l + [x];
    ListSnoc(l, x);
    assert longer[|l|] == x;
    UnspendIsDifference(s.spent, x.tx.vin);
    DistinctConcat(KeyImages(l), Images(x.tx.vin));
    DistinctAppend(Hashes(l), x.hash);
    assert Elements(Hashes(longer)) == Elements(Hashes(l)) + {x.hash};
    HashesOf(l);
    assert forall i :: 0 <= i < |l| ==> longer[i] == l[i];
  }

  lemma {:induction false} HashesOf(l: seq<Listing>)
    ensures forall i :: 0 <= i < |l| ==> l[i].hash in Hashes(l)
  {
    if l != [] {
      HashesOf(l[..|l| - 1]);
      assert forall i :: 0 <= i < |l| - 1 ==> l[i] == l[..|l| - 1][i];
    }
  }

  lemma {:induction false} AddTxsHold(s: Store, hashes: seq<nat>, txs: seq<Tx>, n: nat, l: seq<Listing>)
    requires n <= |txs| == |hashes| && AddTxs(s, hashes, txs, n).Ok? && Holds(s, l)
    ensures Holds(AddTxs(s, hashes, txs, n).value, l + Listed(hashes, txs, n))
  {
    hide AddTx, Holds;
    if n == 0 {
      assert l + Listed(hashes, txs, n) == l;
    } else {
      var front := l + Listed(hashes, txs, n - 1);
      AddTxsHold(s, hashes, txs, n - 1, l);
      AddTxHolds(AddTxs(s, hashes, txs, n - 1).value, txs[n - 1], hashes[n - 1], front);
      assert front + [Listing(hashes[n - 1], txs[n - 1])] == l + Listed(hashes, txs, n);
    }
  }

  /** Removing leaves the rest, and returns the transactions last first. */
  lemma {:induction false} RemoveTxsHold(s: Store, hashes: seq<nat>, txs: seq<Tx>, n: nat, l: seq<Listing>, popped: seq<Tx>)
    requires n <= |txs| == |hashes| && RemoveTxs(s, hashes, n, popped).Ok?
    requires Holds(s, l + Listed(hashes, txs, n))
    ensures Holds(RemoveTxs(s, hashes, n, popped).value.store, l)
    ensures RemoveTxs(s, hashes, n, popped).value.txs == popped + Reversed(txs[..n])
    decreases n
  {
    hide RemoveTx, Holds;
    if n == 0 {
      assert l + Listed(hashes, txs, n) == l && popped + Reversed(txs[..n]) == popped;
    } else {
      var front, x := l + Listed(hashes, txs, n - 1), Listing(hashes[n - 1], txs[n - 1]);
      assert front + [x] == l + Listed(hashes, txs, n);
      RemoveTxHolds(s, front, x);
      RemoveTxsHold(RemoveTx(s, x.hash).value, hashes, txs, n - 1, l, popped + [x.tx]);
      assert txs[..n][..n - 1] == txs[..n - 1];
      assert popped + [x.tx] + Reversed(txs[..n - 1]) == popped + Reversed(txs[..n]);
    }
  }

  // ---------- the block table ----------

  /** The records of a chain's blocks, with the cumulative counts. */
  ghost function Records(chain: seq<Entry>): seq<BlockRecord> {
    if chain == [] then []
    else
      var below, top := Records(chain[..|chain| - 1]), chain[|chain| - 1];
      var cum, t := CumTally(below), BlockTally(top.blk, top.txs);
      below + [BlockRecord(top.blk, cum.num + t.num, cum.byAsset.Plus(t.byAsset))]
  }

  /** The asset types of a block's transactions are allowed, and a version 1 miner transaction has amounts. */
  ghost predicate BlockAllowed(blk: Block, txs: seq<Tx>) {
    && (blk.minerTx.version < 2 ==> HasAmounts(blk.minerTx.vout, |blk.minerTx.vout|))
    && AssetsAllowed(blk.minerTx, IsMiner(blk.minerTx))
    && forall i :: 0 <= i < |txs| ==> AssetsAllowed(txs[i], IsMiner(txs[i]))
  }

  /** None of the first `n` outputs is without an amount. */
  predicate HasAmounts(vout: seq<Output>, n: nat)
    requires n <= |vout|
  {
    forall i :: 0 <= i < n ==> vout[i].amount != 0
  }

  lemma {:induction false} OldOutputsHaveAmounts(outs: seq<OutRecord>, tx: Tx, hash: nat, n: nat)
    requires n <= |tx.vout| && tx.version < 2 && AddOutputs(outs, tx, hash, n).Ok?
    ensures HasAmounts(tx.vout, n)
  {
    if n != 0 {
      OldOutputsHaveAmounts(outs, tx, hash, n - 1);
    }
  }

  lemma {:induction false} AddedAreAllowed(s: Store, hashes: seq<nat>, txs: seq<Tx>, n: nat)
    requires n <= |txs| == |hashes| && AddTxs(s, hashes, txs, n).Ok?
    ensures forall i :: 0 <= i < n ==> AssetsAllowed(txs[i], IsMiner(txs[i]))
  {
    hide AssetsAllowed, SpendInputs, AddOutputs;
    if n != 0 {
      AddedAreAllowed(s, hashes, txs, n - 1);
    }
  }

  lemma {:induction false} AddedBlockAllowed(s: Store, blk: Block, txs: seq<Tx>)
    requires AddBlock(s, blk, txs).Ok?
    ensures BlockAllowed(blk, txs)
  {
    hide AssetsAllowed, SpendInputs, AddOutputs, AddTxs, BlockTally, HasBlock, AppendBlock, HasAmounts;
    if blk.minerTx.version < 2 {
      OldOutputsHaveAmounts(s.outs, blk.minerTx, blk.minerTx.hash, |blk.minerTx.vout|);
    }
    AddedAreAllowed(AddTx(s, blk.minerTx, blk.minerTx.hash).value, blk.txHashes, txs, |txs|);
  }

  ghost predicate ChainAllowed(chain: seq<Entry>) {
    forall i :: 0 <= i < |chain| ==> BlockAllowed(chain[i].blk, chain[i].txs)
  }

  /** Everything in the store but the outputs is what the chain says, and adding could accept the chain's blocks. */
  ghost predicate FollowsChain(s: Store, chain: seq<Entry>) {
    && Matched(chain) && ChainAllowed(chain)
    && Holds(s, ChainListings(chain)) && s.blocks == Records(chain)
  }

  lemma {:induction false} ChainSnoc(chain: seq<Entry>, e: Entry)
    requires Matched(chain) && |e.blk.txHashes| == |e.txs|
    ensures Matched(chain + [e])
    ensures ChainListings(chain + [e]) == ChainListings(chain) + EntryListings(e)
    ensures var cum, t := CumTally(Records(chain)), BlockTally(e.blk, e.txs);
            Records(chain + [e]) == Records(chain) + [BlockRecord(e.blk, cum.num + t.num, cum.byAsset.Plus(t.byAsset))]
  {
    hide EntryListings, CumTally, BlockTally;
    assert (chain + [e])[..|chain|] == chain;
  }

  lemma {:induction false} AddBlockFollows(s: Store, chain: seq<Entry>, e: Entry)
    requires FollowsChain(s, chain) && AddBlock(s, e.blk, e.txs).Ok?
    ensures FollowsChain(AddBlock(s, e.blk, e.txs).value, chain + [e])
  {
    hide AddTx, AddTxs, HasBlock, BlockTally, CumTally, Listed, Spends, Tables, BlockAllowed, ChainListings, Records;
    AddedBlockAllowed(s, e.blk, e.txs);
    ChainSnoc(chain, e);
    var miner, longer := e.blk.minerTx, chain + [e];
    var l := ChainListings(chain);
    var s1 := AddTx(s, miner, miner.hash).value;
    AddedTx(s, miner, miner.hash);
    AddTxHolds(s, miner, miner.hash, l);
    AddTxsHold(s1, e.blk.txHashes, e.txs, |e.txs|, l + [Listing(miner.hash, miner)]);
    AddTxsKeepsBlocks(s1, e.blk.txHashes, e.txs, |e.txs|);
    assert l + [Listing(miner.hash, miner)] + Listed(e.blk.txHashes, e.txs, |e.txs|) == ChainListings(longer);
  }

  /** A pop that succeeds returns the top block and its transactions, last first, and leaves the rest. */
  lemma {:induction false} PopBlockFollows(s: Store, chain: seq<Entry>)
    requires FollowsChain(s, chain) && PopBlock(s).Ok?
    ensures chain != [] && FollowsChain(PopBlock(s).value.store, chain[..|chain| - 1])
    ensures PopBlock(s).value.blk == chain[|chain| - 1].blk
    ensures PopBlock(s).value.txs == Reversed(chain[|chain| - 1].txs)
  {
    hide RemoveTx, RemoveTxs, BlockTally, CumTally, Listed, Spends, Tables, BlockAllowed, Reversed;
    var init, top := chain[..|chain| - 1], chain[|chain| - 1];
    var miner, l := top.blk.minerTx, ChainListings(init);
    var s1 := s.(blocks := s.blocks[..|s.blocks| - 1]);
    assert s1.blocks == Records(init);
    assert l + [Listing(miner.hash, miner)] + Listed(top.blk.txHashes, top.txs, |top.txs|) == ChainListings(chain);
    RemoveTxsHold(s1, top.blk.txHashes, top.txs, |top.txs|, l + [Listing(miner.hash, miner)], []);
    assert top.txs[..|top.txs|] == top.txs && [] + Reversed(top.txs) == Reversed(top.txs);
    var s2 := RemoveTxs(s1, top.blk.txHashes, |top.txs|, []).value.store;
    RemoveTxHolds(s2, l, Listing(miner.hash, miner));
    RemoveKeepsBlocks(s1, top.blk.txHashes, |top.txs|, []);
    RemoveTxKeepsBlocks(s2, miner.hash);
  }

  lemma {:induction false} RemoveTxKeepsBlocks(s: Store, hash: nat)
    requires RemoveTx(s, hash).Ok?
    ensures RemoveTx(s, hash).value.blocks == s.blocks
  {
  }

  lemma {:induction false} RemoveKeepsBlocks(s: Store, hashes: seq<nat>, n: nat, popped: seq<Tx>)
    requires n <= |hashes| && RemoveTxs(s, hashes, n, popped).Ok?
    ensures RemoveTxs(s, hashes, n, popped).value.store.blocks == s.blocks
    decreases n
  {
    hide RemoveTx;
    if n != 0 {
      var tx := s.txs[hashes[n - 1]].tx;
      RemoveTxKeepsBlocks(s, hashes[n - 1]);
      RemoveKeepsBlocks(RemoveTx(s, hashes[n - 1]).value, hashes, n - 1, popped + [tx]);
    }
  }

  // ---------- every run ----------

  /** After every run at all, spent keys, transaction table and block table are those of the chain. */
  lemma {:induction false} RunFollowsChain(steps: seq<Step>)
    ensures FollowsChain(Execute(steps), ChainOf(steps))
  {
    hide AddBlock, PopBlock, FollowsChain;
    if steps == [] {
      EmptyFollows();
    } else {
      var init, last := steps[..|steps| - 1], steps[|steps| - 1];
      RunFollowsChain(init);
      var before, chain := Execute(init), ChainOf(init);
      match last
      case Add(blk, txs) =>
        if AddBlock(before, blk, txs).Ok? {
          AddBlockFollows(before, chain, Entry(blk, txs));
        }
      case Pop =>
        if PopBlock(before).Ok? {
          PopBlockFollows(before, chain);
        }
    }
  }

  lemma {:induction false} EmptyFollows()
    ensures FollowsChain(EMPTY, [])
  {
    assert Elements([]) == {};
  }

  /** After every run the spent keys are the key images on the chain, and none of them is there twice. */
  lemma {:induction false} SpentKeysAreChainImages(steps: seq<Step>)
    ensures Matched(ChainOf(steps))
    ensures Distinct(KeyImages(ChainListings(ChainOf(steps))))
    ensures Execute(steps).spent == Elements(KeyImages(ChainListings(ChainOf(steps))))
  {
    hide Execute, ChainOf, Matched, ChainListings, KeyImages, Distinct, Elements, Tables, Records;
    RunFollowsChain(steps);
  }

  // ---------- no trace beyond the chain ----------

  /** Adds the blocks of a chain to the empty store. */
  ghost function Replay(chain: seq<Entry>): Result<Store> {
    if chain == [] then Ok(EMPTY)
    else
      var before :- Replay(chain[..|chain| - 1]);
      AddBlock(before, chain[|chain| - 1].blk, chain[|chain| - 1].txs)
  }

  /** The store, outputs included, is the one obtained by adding just the blocks that are still there. */
  ghost predicate LeavesNoTrace(steps: seq<Step>) {
    Replay(ChainOf(steps)) == Ok(Execute(steps))
  }

  ghost predicate AllConsistent(entries: seq<Entry>) {
    forall i :: 0 <= i < |entries| ==> BlockConsistent(entries[i].blk, entries[i].txs)
  }

  lemma {:induction false} ReplaySnoc(chain: seq<Entry>, e: Entry)
    requires Replay(chain).Ok?
    ensures Replay(chain + [e]) == AddBlock(Replay(chain).value, e.blk, e.txs)
  {
    hide AddBlock;
    assert (chain + [e])[..|chain|] == chain;
  }

  /** From a store without traces, popping a block succeeds and leaves none just when the block is consistent. */
  lemma {:induction false} PopStepExact(chain: seq<Entry>, s: Store)
    requires chain != [] && Replay(chain) == Ok(s) && FollowsChain(s, chain)
    ensures PopBlock(s).Ok? && Replay(chain[..|chain| - 1]) == Ok(PopBlock(s).value.store) <==>
            BlockConsistent(chain[|chain| - 1].blk, chain[|chain| - 1].txs)
  {
    hide AddBlock, PopBlock, BlockConsistent, FollowsChain, Reversed;
    var top := chain[|chain| - 1];
    PopUndoesAddExactly(Replay(chain[..|chain| - 1]).value, top.blk, top.txs);
    if PopBlock(s).Ok? {
      PopBlockFollows(s, chain);
    }
  }

  lemma {:induction false} ConsistentRun(steps: seq<Step>)
    requires AllConsistent(PoppedOf(steps))
    ensures LeavesNoTrace(steps)
  {
    hide AddBlock, PopBlock, BlockConsistent, FollowsChain;
    if steps != [] {
      var init, last := steps[..|steps| - 1], steps[|steps| - 1];
      var popped := PoppedOf(init);
      assert forall i :: 0 <= i < |popped| ==> popped[i] == PoppedOf(steps)[i];
      ConsistentRun(init);
      var before, chain := Execute(init), ChainOf(init);
      match last
      case Add(blk, txs) =>
        ReplaySnoc(chain, Entry(blk, txs));
      case Pop =>
        RunFollowsChain(init);
        if PopBlock(before).Ok? {
          PopBlockFollows(before, chain);
          var top := chain[|chain| - 1];
          assert PoppedOf(steps)[|popped|] == top;
          PopStepExact(chain, before);
        }
    }
  }

  // ---------- outputs under amount 0 ----------

  /** How many outputs of a block go under amount 0, and how many are looked for there when it is popped. */
  function EntryStored(e: Entry): nat {
    StoredZeros(e.blk.minerTx, |e.blk.minerTx.vout|) + SumStored(e.txs)
  }

  function EntryRemoved(e: Entry): nat {
    RemovedZeros(e.blk.minerTx, |e.blk.minerTx.vout|) + SumRemoved(e.txs)
  }

  ghost function ChainStored(chain: seq<Entry>): nat {
    if chain == [] then 0 else ChainStored(chain[..|chain| - 1]) + EntryStored(chain[|chain| - 1])
  }

  /** How many outputs popped blocks have left under amount 0. */
  ghost function LeftBehind(popped: seq<Entry>): int {
    if popped == [] then 0
    else
      var last := popped[|popped| - 1];
      LeftBehind(popped[..|popped| - 1]) + EntryStored(last) - EntryRemoved(last)
  }

  lemma {:induction false} EntryCompare(e: Entry)
    ensures EntryRemoved(e) <= EntryStored(e)
    ensures EntryRemoved(e) == EntryStored(e) <==> BlockConsistent(e.blk, e.txs)
  {
    hide Consistent, StoredZeros, RemovedZeros, SumStored, SumRemoved, StoredAmount, RemovalAmount;
    var miner := e.blk.minerTx;
    ZerosCompare(miner, |miner.vout|);
    ConsistentMeansSameAmounts(miner);
    SumsCompare(e.txs);
  }

  lemma {:induction false} NothingLeftBehind(popped: seq<Entry>)
    ensures LeftBehind(popped) >= 0
    ensures LeftBehind(popped) == 0 <==> AllConsistent(popped)
  {
    hide EntryStored, EntryRemoved, BlockConsistent;
    if popped != [] {
      var init, last := popped[..|popped| - 1], popped[|popped| - 1];
      NothingLeftBehind(init);
      EntryCompare(last);
      assert forall i :: 0 <= i < |init| ==> popped[i] == init[i];
      assert AllConsistent(popped) <==> AllConsistent(init) && BlockConsistent(last.blk, last.txs);
    }
  }

  lemma {:induction false} AddBlockStores(s: Store, e: Entry)
    requires AddBlock(s, e.blk, e.txs).Ok?
    ensures CountAmount(AddBlock(s, e.blk, e.txs).value.outs, 0) == CountAmount(s.outs, 0) + EntryStored(e)
  {
    hide AddTx, AddTxs, AppendBlock, BlockTally, CountAmount, StoredZeros, SumStored;
    var miner := e.blk.minerTx;
    AddTxCounts(s, miner, miner.hash);
    AddTxsCounts(AddTx(s, miner, miner.hash).value, e.blk.txHashes, e.txs, |e.txs|);
    assert e.txs[..|e.txs|] == e.txs;
  }

  lemma {:induction false} MinerIsListed(s: Store, chain: seq<Entry>)
    requires FollowsChain(s, chain) && chain != []
    ensures var miner := chain[|chain| - 1].blk.minerTx;
            miner.hash in s.txs && s.txs[miner.hash].tx == miner
  {
    hide Listed, Hashes, KeyImages, Records, BlockAllowed;
    var l := ChainListings(chain);
    var k := |ChainListings(chain[..|chain| - 1])|;
    assert l[k] == EntryListings(chain[|chain| - 1])[0];
  }

  lemma {:induction false} PopBlockRemoves(s: Store, chain: seq<Entry>)
    requires FollowsChain(s, chain) && PopBlock(s).Ok? && chain != []
    ensures CountAmount(s.outs, 0) == CountAmount(PopBlock(s).value.store.outs, 0) + EntryRemoved(chain[|chain| - 1])
  {
    hide RemoveTx, RemoveTxs, CountAmount, RemovedZeros, SumRemoved, Holds, Records, Reversed, ChainAllowed;
    var top := chain[|chain| - 1];
    var miner := top.blk.minerTx;
    PopBlockFollows(s, chain);
    MinerIsListed(s, chain);
    var s1 := s.(blocks := s.blocks[..|s.blocks| - 1]);
    var r := RemoveTxs(s1, top.blk.txHashes, |top.blk.txHashes|, []).value;
    RemoveTxsCounts(s1, top.blk.txHashes, |top.blk.txHashes|, []);
    RemoveTxCounts(r.store, miner.hash);
    SumRemovedReversed(top.txs);
    NoTxs();
  }

  lemma {:induction false} NoTxs()
    ensures SumRemoved([]) == 0
  {
  }

  /** After every run: what the chain stores under amount 0, and what popped blocks have left there. */
  lemma {:induction false} RunCounts(steps: seq<Step>)
    ensures CountAmount(Execute(steps).outs, 0) == ChainStored(ChainOf(steps)) + LeftBehind(PoppedOf(steps))
  {
    hide AddBlock, PopBlock, FollowsChain, EntryStored, EntryRemoved;
    if steps != [] {
      var init, last := steps[..|steps| - 1], steps[|steps| - 1];
      RunCounts(init);
      var before, chain, popped := Execute(init), ChainOf(init), PoppedOf(init);
      match last
      case Add(blk, txs) =>
        if AddBlock(before, blk, txs).Ok? {
          AddBlockStores(before, Entry(blk, txs));
          assert ChainOf(steps)[..|chain|] == chain;
        }
      case Pop =>
        RunFollowsChain(init);
        if PopBlock(before).Ok? {
          PopBlockFollows(before, chain);
          PopBlockRemoves(before, chain);
          assert PoppedOf(steps)[..|popped|] == popped;
        }
    }
  }

  lemma {:induction false} ReplayCounts(chain: seq<Entry>)
    requires Replay(chain).Ok?
    ensures CountAmount(Replay(chain).value.outs, 0) == ChainStored(chain)
  {
    hide AddBlock, EntryStored;
    if chain != [] {
      ReplayCounts(chain[..|chain| - 1]);
      AddBlockStores(Replay(chain[..|chain| - 1]).value, chain[|chain| - 1]);
    }
  }

  /**
   A run leaves no trace beyond its chain, that is, its store is the one obtained by adding just the blocks
   still on the chain, if and only if every block that its pops took off is consistent.
   */
  lemma {:induction false} RunIsReplay(steps: seq<Step>)
    ensures LeavesNoTrace(steps) <==> AllConsistent(PoppedOf(steps))
  {
    hide Execute, ChainOf, PoppedOf, Replay, AllConsistent, CountAmount, ChainStored, LeftBehind;
    if AllConsistent(PoppedOf(steps)) {
      ConsistentRun(steps);
    } else if LeavesNoTrace(steps) {
      RunCounts(steps);
      ReplayCounts(ChainOf(steps));
      NothingLeftBehind(PoppedOf(steps));
    }
  }

  /** After a run without traces, the next pop succeeds and leaves none if and only if the top block is consistent. */
  lemma {:induction false} NextPopExact(steps: seq<Step>)
    requires AllConsistent(PoppedOf(steps)) && ChainOf(steps) != []
    ensures var chain := ChainOf(steps);
            PopBlock(Execute(steps)).Ok? && LeavesNoTrace(steps + [Pop]) <==>
            BlockConsistent(chain[|chain| - 1].blk, chain[|chain| - 1].txs)
  {
    hide AddBlock, PopBlock, BlockConsistent, FollowsChain, Replay, PoppedOf;
    var longer := steps + [Pop];
    assert longer[..|steps|] == steps;
    ConsistentRun(steps);
    RunFollowsChain(steps);
    PopStepExact(ChainOf(steps), Execute(steps));
  }

  // ---------- output indices ----------

  /** The outputs of each amount are numbered 0, 1, 2, ... in the order in which they were stored. */
  ghost predicate Numbered(outs: seq<OutRecord>) {
    forall k :: 0 <= k < |outs| ==> outs[k].index == CountAmount(outs[..k], outs[k].amount)
  }

  lemma {:induction false} AddOutputsNumbered(outs: seq<OutRecord>, tx: Tx, hash: nat, n: nat)
    requires n <= |tx.vout| && AddOutputs(outs, tx, hash, n).Ok? && Numbered(outs)
    ensures Numbered(AddOutputs(outs, tx, hash, n).value)
  {
    if n != 0 {
      AddOutputsNumbered(outs, tx, hash, n - 1);
      var before, after := AddOutputs(outs, tx, hash, n - 1).value, AddOutputs(outs, tx, hash, n).value;
      forall k | 0 <= k < |after|
        ensures after[k].index == CountAmount(after[..k], after[k].amount)
      {
        assert after[..k] == before[..k];
        assert before[..|before|] == before;
      }
    }
  }

  lemma {:induction false} AddTxsNumbered(s: Store, hashes: seq<nat>, txs: seq<Tx>, n: nat)
    requires n <= |txs| == |hashes| && AddTxs(s, hashes, txs, n).Ok? && Numbered(s.outs)
    ensures Numbered(AddTxs(s, hashes, txs, n).value.outs)
  {
    hide Numbered, SpendInputs, AddOutputs;
    if n != 0 {
      AddTxsNumbered(s, hashes, txs, n - 1);
      AddOutputsNumbered(AddTxs(s, hashes, txs, n - 1).value.outs, txs[n - 1], hashes[n - 1], |txs[n - 1].vout|);
    }
  }

  lemma {:induction false} OutputsAreNumbered(chain: seq<Entry>)
    requires Replay(chain).Ok?
    ensures Numbered(Replay(chain).value.outs)
  {
    hide SpendInputs, AddOutputs, AddTxs, BlockTally, AppendBlock;
    if chain != [] {
      OutputsAreNumbered(chain[..|chain| - 1]);
      var s, top := Replay(chain[..|chain| - 1]).value, chain[|chain| - 1];
      var miner := top.blk.minerTx;
      AddOutputsNumbered(s.outs, miner, miner.hash, |miner.vout|);
      AddTxsNumbered(AddTx(s, miner, miner.hash).value, top.blk.txHashes, top.txs, |top.txs|);
    }
  }

  lemma {:induction false} CountGrows(outs: seq<OutRecord>, j: nat, k: nat, amount: nat)
    requires j < k <= |outs| && outs[j].amount == amount
    ensures CountAmount(outs[..j], amount) < CountAmount(outs[..k], amount)
    decreases k
  {
    assert outs[..k][..k - 1] == outs[..k - 1];
    if j < k - 1 {
      CountGrows(outs, j, k - 1, amount);
    }
  }

  /** An amount and an index find at most one output. */
  lemma {:induction false} IndexFindsOneOutput(outs: seq<OutRecord>, j: nat, k: nat)
    requires Numbered(outs) && j < |outs| && k < |outs|
    requires outs[j].amount == outs[k].amount && outs[j].index == outs[k].index
    ensures j == k
  {
    if j < k {
      CountGrows(outs, j, k, outs[k].amount);
    } else if k < j {
      CountGrows(outs, k, j, outs[j].amount);
    }
  }

  /** Removing an output keeps the numbering if and only if it is the last of its amount. */
  lemma {:induction false} RemovalKeepsNumbers(outs: seq<OutRecord>, amount: nat, index: nat)
    requires Numbered(outs) && RemoveOutput(outs, amount, index).Ok?
    ensures Numbered(RemoveOutput(outs, amount, index).value) <==> index + 1 == CountAmount(outs, amount)
  {
    var k := FindOutput(outs, amount, index, |outs|);
    var rest := outs[..k] + outs[k + 1..];
    assert outs == outs[..k] + [outs[k]] + outs[k + 1..];
    CountConcat(outs[..k] + [outs[k]], outs[k + 1..], amount);
    CountConcat(outs[..k], [outs[k]], amount);
    assert [outs[k]][..0] == [];
    if index + 1 == CountAmount(outs, amount) {
      LastOfAmount(outs, k);
    } else {
      var j := AnotherOfAmount(outs[k + 1..], amount);
      ShiftedCount(outs, k, k + 1 + j);
      assert rest[k + j] == outs[k + 1 + j];
    }
  }

  /** Taking one output out lowers the counts of its amount after it. */
  lemma {:induction false} ShiftedCount(outs: seq<OutRecord>, k: nat, i: nat)
    requires k < i < |outs|
    ensures var rest := outs[..k] + outs[k + 1..];
            CountAmount(outs[..i], outs[i].amount) ==
            CountAmount(rest[..i - 1], outs[i].amount) + (if outs[k].amount == outs[i].amount then 1 else 0)
  {
    var rest, amount := outs[..k] + outs[k + 1..], outs[i].amount;
    assert rest[..i - 1] == outs[..k] + outs[k + 1..i];
    assert outs[..i] == outs[..k] + [outs[k]] + outs[k + 1..i];
    CountConcat(outs[..k] + [outs[k]], outs[k + 1..i], amount);
    CountConcat(outs[..k], [outs[k]], amount);
    CountConcat(outs[..k], outs[k + 1..i], amount);
    assert [outs[k]][..0] == [];
  }

  lemma {:induction false} AnotherOfAmount(outs: seq<OutRecord>, amount: nat) returns (j: nat)
    requires CountAmount(outs, amount) > 0
    ensures j < |outs| && outs[j].amount == amount
  {
    var n := |outs| - 1;
    if outs[n].amount == amount {
      j := n;
    } else {
      j := AnotherOfAmount(outs[..n], amount);
    }
  }

  lemma {:induction false} NoneOfAmount(outs: seq<OutRecord>, amount: nat, j: nat)
    requires CountAmount(outs, amount) == 0 && j < |outs|
    ensures outs[j].amount != amount
  {
    var n := |outs| - 1;
    if j < n {
      NoneOfAmount(outs[..n], amount, j);
    }
  }

  lemma {:induction false} LastOfAmount(outs: seq<OutRecord>, k: nat)
    requires Numbered(outs) && k < |outs| && CountAmount(outs[k + 1..], outs[k].amount) == 0
    ensures Numbered(outs[..k] + outs[k + 1..])
  {
    var rest := outs[..k] + outs[k + 1..];
    forall i | 0 <= i < |rest| ensures rest[i].index == CountAmount(rest[..i], rest[i].amount) {
      if i < k {
        assert rest[..i] == outs[..i];
      } else {
        NoneOfAmount(outs[k + 1..], outs[k].amount, i - k);
        ShiftedCount(outs, k, i + 1);
      }
    }
  }
}
