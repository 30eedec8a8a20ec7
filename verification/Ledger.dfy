/**
 The block store as a value: spent key images, transactions, outputs and blocks, and the four
 operations that add and remove them.  An operation that fails leaves a store that the caller
 rolls back, so failures carry no store.
 */
module Ledger {
  import opened Results
  import opened Transactions

  datatype Block = Block(hash: nat, prevHash: nat, minerTx: Tx, txHashes: seq<nat>)

  /** A stored output: its amount, its index among the outputs of that amount, and where it comes from. */
  datatype OutRecord = OutRecord(amount: nat, index: nat, txHash: nat, localIndex: nat)

  datatype TxRecord = TxRecord(tx: Tx, id: nat, outIndices: seq<nat>)

  datatype AssetCounts = AssetCounts(sispop: nat, sispopUsd: nat, sispopRsv: nat) {

    /** Counts one more output; an unknown asset type is not counted at all. */
    function Add(asset: string): AssetCounts {
      if asset == "SISPOP" then this.(sispop := sispop + 1)
      else if asset == "SISPOPUSD" then this.(sispopUsd := sispopUsd + 1)
      else if asset == "SISPOPRSV" then this.(sispopRsv := sispopRsv + 1)
      else this
    }

    /** The count for one asset type. */
    function Get(asset: string): nat {
      if asset == "SISPOP" then sispop
      else if asset == "SISPOPUSD" then sispopUsd
      else if asset == "SISPOPRSV" then sispopRsv
      else 0
    }

    function Total(): nat {
      sispop + sispopUsd + sispopRsv
    }

    function Plus(other: AssetCounts): AssetCounts {
      AssetCounts(sispop + other.sispop, sispopUsd + other.sispopUsd, sispopRsv + other.sispopRsv)
    }
  }

  /** A stored block, with the number of rct outputs up to and including it, in all and by asset type. */
  datatype BlockRecord = BlockRecord(blk: Block, cumRct: nat, cumByAsset: AssetCounts)

  datatype Store = Store(spent: set<nat>, txs: map<nat, TxRecord>, outs: seq<OutRecord>, blocks: seq<BlockRecord>)

  const EMPTY := Store({}, map[], [], [])
  const NO_TALLY := Tally(0, AssetCounts(0, 0, 0))

  // ---------- adding a transaction ----------

  function SpendInputs(spent: set<nat>, vin: seq<Input>): Result<set<nat>> {
    if vin == [] then Ok(spent)
    else
      var before :- SpendInputs(spent, vin[..|vin| - 1]);
      match vin[|vin| - 1]
      case Gen => Ok(before)
      case ToKey(k, _) => if k in before then Err(KeyImageExists) else Ok(before + {k})
      case Unsupported => Err(UnexpectedInput)
  }

  /** The amount an output is stored under: outputs of version 2 miner transactions all go under 0. */
  function StoredAmount(tx: Tx, i: nat): nat
    requires i < |tx.vout|
  {
    if IsMiner(tx) && tx.version >= 2 then 0 else tx.vout[i].amount
  }

  /** The number of stored outputs with the given amount. */
  function CountAmount(outs: seq<OutRecord>, amount: nat): nat {
    if outs == [] then 0
    else CountAmount(outs[..|outs| - 1], amount) + (if outs[|outs| - 1].amount == amount then 1 else 0)
  }

  /** Stores the first `n` outputs of a transaction. */
  function AddOutputs(outs: seq<OutRecord>, tx: Tx, hash: nat, n: nat): Result<seq<OutRecord>>
    requires n <= |tx.vout|
  {
    if n == 0 then Ok(outs)
    else
      var before :- AddOutputs(outs, tx, hash, n - 1);
      var amount := StoredAmount(tx, n - 1);
      if !tx.vout[n - 1].tagged || (amount == 0 && tx.version < 2) then Err(WrongOutput)
      else Ok(before + [OutRecord(amount, CountAmount(before, amount), hash, n - 1)])
  }

  /** The indices of the last `n` stored outputs. */
  function LastIndices(outs: seq<OutRecord>, n: nat): (r: seq<nat>)
    requires n <= |outs|
    ensures |r| == n
    ensures forall i :: 0 <= i < n ==> r[i] == outs[|outs| - n + i].index
  {
    if n == 0 then []
    else LastIndices(outs[..|outs| - 1], n - 1) + [outs[|outs| - 1].index]
  }

  lemma {:induction false} AddOutputsLength(outs: seq<OutRecord>, tx: Tx, hash: nat, n: nat)
    requires n <= |tx.vout| && AddOutputs(outs, tx, hash, n).Ok?
    ensures |AddOutputs(outs, tx, hash, n).value| == |outs| + n
    ensures AddOutputs(outs, tx, hash, n).value[..|outs|] == outs
  {
    if n != 0 {
      AddOutputsLength(outs, tx, hash, n - 1);
    }
  }

  ghost function AddTx(s: Store, tx: Tx, hash: nat): Result<Store> {
    var spent :- SpendInputs(s.spent, tx.vin);
    if hash in s.txs then Err(TxExists)
    else if !AssetsAllowed(tx, IsMiner(tx)) then Err(WrongAssets)
    else
      var outs :- AddOutputs(s.outs, tx, hash, |tx.vout|);
      AddOutputsLength(s.outs, tx, hash, |tx.vout|);
      Ok(s.(spent := spent,
            txs := s.txs[hash := TxRecord(tx, |s.txs|, LastIndices(outs, |tx.vout|))],
            outs := outs))
  }

  ghost function AddTxs(s: Store, hashes: seq<nat>, txs: seq<Tx>, n: nat): Result<Store>
    requires n <= |txs| == |hashes|
  {
    if n == 0 then Ok(s)
    else
      var before :- AddTxs(s, hashes, txs, n - 1);
      AddTx(before, txs[n - 1], hashes[n - 1])
  }

  // ---------- counting rct outputs ----------

  datatype Tally = Tally(num: nat, byAsset: AssetCounts) {
    function Add(o: Output): Tally {
      Tally(num + 1, byAsset.Add(o.asset))
    }
  }

  /** Counts the first `n` of some outputs, all of them or only those with amount 0. */
  function TallyOutputs(t: Tally, vout: seq<Output>, all: bool, n: nat): Tally
    requires n <= |vout|
  {
    if n == 0 then t
    else
      var before := TallyOutputs(t, vout, all, n - 1);
      if all || vout[n - 1].amount == 0 then before.Add(vout[n - 1]) else before
  }

  function TallyTxs(t: Tally, txs: seq<Tx>, n: nat): Tally
    requires n <= |txs|
  {
    if n == 0 then t
    else TallyOutputs(TallyTxs(t, txs, n - 1), txs[n - 1].vout, false, |txs[n - 1].vout|)
  }

  function MinerTally(tx: Tx): Tally {
    if tx.version >= 2 then TallyOutputs(NO_TALLY, tx.vout, true, |tx.vout|) else NO_TALLY
  }

  function BlockTally(blk: Block, txs: seq<Tx>): Tally {
    TallyTxs(MinerTally(blk.minerTx), txs, |txs|)
  }

  // ---------- adding a block ----------

  predicate HasBlock(blocks: seq<BlockRecord>, hash: nat) {
    exists i :: 0 <= i < |blocks| && blocks[i].blk.hash == hash
  }

  /** The counts up to the top block. */
  function CumTally(blocks: seq<BlockRecord>): (t: Tally)
    ensures blocks == [] ==> t == NO_TALLY
  {
    if blocks == [] then NO_TALLY
    else Tally(blocks[|blocks| - 1].cumRct, blocks[|blocks| - 1].cumByAsset)
  }

  /** Appends the block itself, which must be new and follow the top block. */
  function AppendBlock(blocks: seq<BlockRecord>, blk: Block, t: Tally): Result<seq<BlockRecord>> {
    if HasBlock(blocks, blk.hash) then Err(BlockExists)
    else if blocks != [] && blocks[|blocks| - 1].blk.hash != blk.prevHash then Err(ParentMissing)
    else
      var below := CumTally(blocks);
      Ok(blocks + [BlockRecord(blk, below.num + t.num, below.byAsset.Plus(t.byAsset))])
  }

  ghost function AddBlock(s: Store, blk: Block, txs: seq<Tx>): Result<Store> {
    if |blk.txHashes| != |txs| then Err(SizeMismatch)
    else
      var s1 :- AddTx(s, blk.minerTx, blk.minerTx.hash);
      var s2 :- AddTxs(s1, blk.txHashes, txs, |txs|);
      var blocks :- AppendBlock(s2.blocks, blk, BlockTally(blk, txs));
      Ok(s2.(blocks := blocks))
  }

  // ---------- removing ----------

  function UnspendInputs(spent: set<nat>, vin: seq<Input>): set<nat> {
    if vin == [] then spent
    else
      var before := UnspendInputs(spent, vin[..|vin| - 1]);
      match vin[|vin| - 1]
      case ToKey(k, _) => before - {k}
      case _ => before
  }

  /** The amount an output is looked for under when it is removed. */
  function RemovalAmount(tx: Tx, i: nat): nat
    requires i < |tx.vout|
  {
    if tx.version >= 2 && |tx.vin| == 1 && tx.vin[0] == Gen then 0 else tx.vout[i].amount
  }

  /** The place of the output with the given amount and index, or the number of outputs. */
  function FindOutput(outs: seq<OutRecord>, amount: nat, index: nat, n: nat): (k: nat)
    requires n <= |outs|
    ensures k < n || k == |outs|
    ensures k < n ==> outs[k].amount == amount && outs[k].index == index
    ensures k == |outs| ==> forall i :: 0 <= i < n ==> !(outs[i].amount == amount && outs[i].index == index)
  {
    if n == 0 then |outs|
    else if outs[n - 1].amount == amount && outs[n - 1].index == index then n - 1
    else FindOutput(outs, amount, index, n - 1)
  }

  function RemoveOutput(outs: seq<OutRecord>, amount: nat, index: nat): Result<seq<OutRecord>> {
    var k := FindOutput(outs, amount, index, |outs|);
    if k == |outs| then Err(OutputMissing) else Ok(outs[..k] + outs[k + 1..])
  }

  /** Removes the first `n` outputs of a transaction, the last of them first. */
  function RemoveOutputs(outs: seq<OutRecord>, tx: Tx, indices: seq<nat>, n: nat): Result<seq<OutRecord>>
    requires n <= |tx.vout| && n <= |indices|
  {
    if n == 0 then Ok(outs)
    else
      var after :- RemoveOutput(outs, RemovalAmount(tx, n - 1), indices[n - 1]);
      RemoveOutputs(after, tx, indices, n - 1)
  }

  function RemoveTx(s: Store, hash: nat): Result<Store> {
    if hash !in s.txs then Err(TxMissing)
    else
      var r := s.txs[hash];
      if |r.outIndices| < |r.tx.vout| then Err(OutputMissing)
      else
        var outs :- RemoveOutputs(s.outs, r.tx, r.outIndices, |r.tx.vout|);
        Ok(s.(spent := UnspendInputs(s.spent, r.tx.vin), txs := s.txs - {hash}, outs := outs))
  }

  datatype Removed = Removed(store: Store, txs: seq<Tx>)

  /** Removes the first `n` of the listed transactions, the last of them first, and returns them in that order. */
  function RemoveTxs(s: Store, hashes: seq<nat>, n: nat, popped: seq<Tx>): Result<Removed>
    requires n <= |hashes|
    decreases n
  {
    if n == 0 then Ok(Removed(s, popped))
    else if hashes[n - 1] !in s.txs then Err(TxMissing)
    else
      var tx := s.txs[hashes[n - 1]].tx;
      var after :- RemoveTx(s, hashes[n - 1]);
      RemoveTxs(after, hashes, n - 1, popped + [tx])
  }

  datatype Popped = Popped(store: Store, blk: Block, txs: seq<Tx>)

  function PopBlock(s: Store): Result<Popped> {
    if s.blocks == [] then Err(NoBlock)
    else
      var top := |s.blocks| - 1;
      var blk := s.blocks[top].blk;
      var r :- RemoveTxs(s.(blocks := s.blocks[..top]), blk.txHashes, |blk.txHashes|, []);
      var done :- RemoveTx(r.store, blk.minerTx.hash);
      Ok(Popped(done, blk, r.txs))
  }
}
