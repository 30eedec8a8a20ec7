/** Popping a block undoes adding it, for exactly the blocks whose outputs are looked for where they were stored. */
module PopUndoesAdd {
  import opened Results
  import opened Transactions
  import opened Ledger

  // ---------- key images ----------

  /** The key images spent by some inputs, in order. */
  function Images(vin: seq<Input>): seq<nat> {
    if vin == [] then []
    else Images(vin[..|vin| - 1]) + (match vin[|vin| - 1] case ToKey(k, _) => [k] case _ => [])
  }

  ghost predicate Distinct(s: seq<nat>) {
    forall i, j :: 0 <= i < j < |s| ==> s[i] != s[j]
  }

  ghost function Elements(s: seq<nat>): set<nat> {
    set x | x in s
  }

  /** Inputs can be spent exactly when all are supported and their key images are new and distinct. */
  lemma {:induction false} SpendIsUnion(spent: set<nat>, vin: seq<Input>)
    ensures SpendInputs(spent, vin).Ok? <==>
            Unsupported !in vin && Distinct(Images(vin)) && spent !! Elements(Images(vin))
    ensures SpendInputs(spent, vin).Ok? ==> SpendInputs(spent, vin).value == spent + Elements(Images(vin))
  {
    if vin != [] {
      var init, last := vin[..|vin| - 1], vin[|vin| - 1];
      SpendIsUnion(spent, init);
      assert vin == init + [last];
      var all := Images(vin);
      match last
      case Gen => assert all == Images(init);
      case Unsupported => assert all == Images(init);
      case ToKey(k, _) =>
        DistinctAppend(Images(init), k);
        assert Elements(all) == Elements(Images(init)) + {k};
    }
  }

  lemma {:induction false} DistinctAppend(s: seq<nat>, k: nat)
    ensures Distinct(s + [k]) <==> Distinct(s) && k !in s
  {
    var t := s + [k];
    assert t[|s|] == k && t[..|s|] == s;
    if Distinct(t) {
      assert forall i :: 0 <= i < |s| ==> t[i] == s[i] && t[i] != t[|s|];
    }
  }

  lemma {:induction false} UnspendIsDifference(spent: set<nat>, vin: seq<Input>)
    ensures UnspendInputs(spent, vin) == spent - Elements(Images(vin))
  {
    if vin != [] {
      UnspendIsDifference(spent, vin[..|vin| - 1]);
    }
  }

  lemma {:induction false} UndoInputs(spent: set<nat>, vin: seq<Input>)
    requires SpendInputs(spent, vin).Ok?
    ensures UnspendInputs(SpendInputs(spent, vin).value, vin) == spent
  {
    SpendIsUnion(spent, vin);
    UnspendIsDifference(SpendInputs(spent, vin).value, vin);
  }

  // ---------- outputs ----------

  /** A transaction whose outputs are removed from where they were stored. */
  predicate Consistent(tx: Tx) {
    tx.version < 2 || Gen !in tx.vin || tx.vin == [Gen] || AllZero(tx.vout)
  }

  predicate AllZero(vout: seq<Output>) {
    forall i :: 0 <= i < |vout| ==> vout[i].amount == 0
  }

  /** Consistency compares the two ways in which the code tells a miner transaction. */
  lemma {:induction false} ConsistentMeansSameAmounts(tx: Tx)
    ensures Consistent(tx) <==> forall i :: 0 <= i < |tx.vout| ==> StoredAmount(tx, i) == RemovalAmount(tx, i)
  {
    if tx.vin == [Gen] {
      assert tx.vin[0] == Gen;
    }
    if |tx.vin| == 1 && tx.vin[0] == Gen {
      assert tx.vin == [Gen];
    }
    if forall i :: 0 <= i < |tx.vout| ==> StoredAmount(tx, i) == RemovalAmount(tx, i) {
      if tx.version >= 2 && Gen in tx.vin && tx.vin != [Gen] {
        forall i | 0 <= i < |tx.vout|
          ensures tx.vout[i].amount == 0
        {
          assert StoredAmount(tx, i) == RemovalAmount(tx, i);
        }
      }
    }
  }

  lemma {:induction false} UndoOutputs(outs: seq<OutRecord>, tx: Tx, hash: nat, n: nat, indices: seq<nat>)
    requires n <= |tx.vout| && n <= |indices| && AddOutputs(outs, tx, hash, n).Ok?
    requires |AddOutputs(outs, tx, hash, n).value| == |outs| + n
    requires forall i :: 0 <= i < n ==> indices[i] == AddOutputs(outs, tx, hash, n).value[|outs| + i].index
    requires forall i :: 0 <= i < n ==> StoredAmount(tx, i) == RemovalAmount(tx, i)
    ensures RemoveOutputs(AddOutputs(outs, tx, hash, n).value, tx, indices, n) == Ok(outs)
  {
    if n != 0 {
      var before := AddOutputs(outs, tx, hash, n - 1).value;
      var after := AddOutputs(outs, tx, hash, n).value;
      AddOutputsLength(outs, tx, hash, n - 1);
      assert after[..|before|] == before;
      assert after[|outs| + (n - 1)] == after[|after| - 1];
      assert RemoveOutput(after, RemovalAmount(tx, n - 1), indices[n - 1]) == Ok(before) by {
        assert after[..|after| - 1] + after[|after|..] == before;
      }
      UndoOutputs(outs, tx, hash, n - 1, indices);
    }
  }

  /** Removing a transaction undoes adding it. */
  lemma {:induction false} UndoTx(s: Store, tx: Tx, hash: nat)
    requires AddTx(s, tx, hash).Ok? && Consistent(tx)
    ensures RemoveTx(AddTx(s, tx, hash).value, hash) == Ok(s)
  {
    var after := AddTx(s, tx, hash).value;
    var n := |tx.vout|;
    AddOutputsLength(s.outs, tx, hash, n);
    ConsistentMeansSameAmounts(tx);
    UndoOutputs(s.outs, tx, hash, n, after.txs[hash].outIndices);
    UndoInputs(s.spent, tx.vin);
    assert after.txs - {hash} == s.txs;
  }

  // ---------- a whole block ----------

  function Reversed(s: seq<Tx>): seq<Tx> {
    if s == [] then [] else [s[|s| - 1]] + Reversed(s[..|s| - 1])
  }

  ghost predicate BlockConsistent(blk: Block, txs: seq<Tx>) {
    Consistent(blk.minerTx) && forall i :: 0 <= i < |txs| ==> Consistent(txs[i])
  }

  lemma {:induction false} AddedTx(s: Store, tx: Tx, hash: nat)
    requires AddTx(s, tx, hash).Ok?
    ensures hash in AddTx(s, tx, hash).value.txs
    ensures AddTx(s, tx, hash).value.txs[hash].tx == tx
    ensures AddTx(s, tx, hash).value.blocks == s.blocks
    ensures forall h :: h in s.txs ==> h in AddTx(s, tx, hash).value.txs && AddTx(s, tx, hash).value.txs[h] == s.txs[h]
  {
  }

  lemma {:induction false} UndoTxs(s: Store, hashes: seq<nat>, txs: seq<Tx>, n: nat, popped: seq<Tx>)
    requires n <= |txs| == |hashes| && AddTxs(s, hashes, txs, n).Ok?
    requires forall i :: 0 <= i < n ==> Consistent(txs[i])
    ensures RemoveTxs(AddTxs(s, hashes, txs, n).value, hashes, n, popped) ==
            Ok(Removed(s, popped + Reversed(txs[..n])))
    decreases n
  {
    hide AddTx, RemoveTx;
    if n == 0 {
      assert popped + Reversed(txs[..n]) == popped;
    } else {
      var before := AddTxs(s, hashes, txs, n - 1).value;
      AddedTx(before, txs[n - 1], hashes[n - 1]);
      UndoTx(before, txs[n - 1], hashes[n - 1]);
      UndoTxs(s, hashes, txs, n - 1, popped + [txs[n - 1]]);
      assert txs[..n][..n - 1] == txs[..n - 1];
      assert popped + [txs[n - 1]] + Reversed(txs[..n - 1]) == popped + Reversed(txs[..n]);
    }
  }

  lemma {:induction false} AddTxsKeepsBlocks(s: Store, hashes: seq<nat>, txs: seq<Tx>, n: nat)
    requires n <= |txs| == |hashes| && AddTxs(s, hashes, txs, n).Ok?
    ensures AddTxs(s, hashes, txs, n).value.blocks == s.blocks
  {
    hide AddTx;
    if n != 0 {
      AddTxsKeepsBlocks(s, hashes, txs, n - 1);
      AddedTx(AddTxs(s, hashes, txs, n - 1).value, txs[n - 1], hashes[n - 1]);
    }
  }

  lemma {:induction false} UndoBlock(s: Store, blk: Block, txs: seq<Tx>)
    requires AddBlock(s, blk, txs).Ok? && BlockConsistent(blk, txs)
    ensures PopBlock(AddBlock(s, blk, txs).value) == Ok(Popped(s, blk, Reversed(txs)))
  {
    hide AddTx, AddTxs, RemoveTx, RemoveTxs, Reversed, BlockTally, HasBlock, CumTally;
    var s1 := AddTx(s, blk.minerTx, blk.minerTx.hash).value;
    var s2 := AddTxs(s1, blk.txHashes, txs, |txs|).value;
    var s3 := AddBlock(s, blk, txs).value;
    AddTxsKeepsBlocks(s1, blk.txHashes, txs, |txs|);
    assert s3.(blocks := s3.blocks[..|s3.blocks| - 1]) == s2;
    UndoTxs(s1, blk.txHashes, txs, |txs|, []);
    AddedTx(s, blk.minerTx, blk.minerTx.hash);
    assert txs[..|txs|] == txs;
    assert [] + Reversed(txs) == Reversed(txs);
    UndoTx(s, blk.minerTx, blk.minerTx.hash);
  }

  // ---------- only consistent blocks are undone ----------

  lemma {:induction false} CountConcat(a: seq<OutRecord>, b: seq<OutRecord>, amount: nat)
    ensures CountAmount(a + b, amount) == CountAmount(a, amount) + CountAmount(b, amount)
  {
    if b == [] {
      assert a + b == a;
    } else {
      assert (a + b)[..|a + b| - 1] == a + b[..|b| - 1];
      CountConcat(a, b[..|b| - 1], amount);
    }
  }

  /** How many of the first `n` outputs go under amount 0 when stored, and are looked for there when removed. */
  function StoredZeros(tx: Tx, n: nat): nat
    requires n <= |tx.vout|
  {
    if n == 0 then 0 else StoredZeros(tx, n - 1) + (if StoredAmount(tx, n - 1) == 0 then 1 else 0)
  }

  function RemovedZeros(tx: Tx, n: nat): nat
    requires n <= |tx.vout|
  {
    if n == 0 then 0 else RemovedZeros(tx, n - 1) + (if RemovalAmount(tx, n - 1) == 0 then 1 else 0)
  }

  lemma {:induction false} AddCountsZeros(outs: seq<OutRecord>, tx: Tx, hash: nat, n: nat)
    requires n <= |tx.vout| && AddOutputs(outs, tx, hash, n).Ok?
    ensures CountAmount(AddOutputs(outs, tx, hash, n).value, 0) == CountAmount(outs, 0) + StoredZeros(tx, n)
  {
    if n != 0 {
      AddCountsZeros(outs, tx, hash, n - 1);
      var before := AddOutputs(outs, tx, hash, n - 1).value;
      assert AddOutputs(outs, tx, hash, n).value[..|before|] == before;
    }
  }

  lemma {:induction false} RemoveOneCountsZero(outs: seq<OutRecord>, amount: nat, index: nat)
    requires RemoveOutput(outs, amount, index).Ok?
    ensures CountAmount(outs, 0) ==
            CountAmount(RemoveOutput(outs, amount, index).value, 0) + (if amount == 0 then 1 else 0)
  {
    var k := FindOutput(outs, amount, index, |outs|);
    assert outs == outs[..k] + [outs[k]] + outs[k + 1..];
    CountConcat(outs[..k] + [outs[k]], outs[k + 1..], 0);
    CountConcat(outs[..k], [outs[k]], 0);
    CountConcat(outs[..k], outs[k + 1..], 0);
    assert [outs[k]][..0] == [];
  }

  lemma {:induction false} RemoveCountsZeros(outs: seq<OutRecord>, tx: Tx, indices: seq<nat>, n: nat)
    requires n <= |tx.vout| && n <= |indices| && RemoveOutputs(outs, tx, indices, n).Ok?
    ensures CountAmount(outs, 0) == CountAmount(RemoveOutputs(outs, tx, indices, n).value, 0) + RemovedZeros(tx, n)
    decreases n
  {
    if n != 0 {
      RemoveOneCountsZero(outs, RemovalAmount(tx, n - 1), indices[n - 1]);
      RemoveCountsZeros(RemoveOutput(outs, RemovalAmount(tx, n - 1), indices[n - 1]).value, tx, indices, n - 1);
    }
  }

  /** Removal never looks under amount 0 more often than outputs were put there, and as often just if consistent. */
  lemma {:induction false} ZerosCompare(tx: Tx, n: nat)
    requires n <= |tx.vout|
    ensures RemovedZeros(tx, n) <= StoredZeros(tx, n)
    ensures RemovedZeros(tx, n) == StoredZeros(tx, n) <==>
            forall i :: 0 <= i < n ==> StoredAmount(tx, i) == RemovalAmount(tx, i)
  {
    if n != 0 {
      ZerosCompare(tx, n - 1);
      if |tx.vin| == 1 && tx.vin[0] == Gen {
        assert Gen in tx.vin;
      }
    }
  }

  function SumRemoved(txs: seq<Tx>): nat {
    if txs == [] then 0 else SumRemoved(txs[..|txs| - 1]) + RemovedZeros(txs[|txs| - 1], |txs[|txs| - 1].vout|)
  }

  function SumStored(txs: seq<Tx>): nat {
    if txs == [] then 0 else SumStored(txs[..|txs| - 1]) + StoredZeros(txs[|txs| - 1], |txs[|txs| - 1].vout|)
  }

  lemma {:induction false} SumRemovedConcat(a: seq<Tx>, b: seq<Tx>)
    ensures SumRemoved(a + b) == SumRemoved(a) + SumRemoved(b)
  {
    if b == [] {
      assert a + b == a;
    } else {
      assert (a + b)[..|a + b| - 1] == a + b[..|b| - 1];
      SumRemovedConcat(a, b[..|b| - 1]);
    }
  }

  lemma {:induction false} SumRemovedReversed(txs: seq<Tx>)
    ensures SumRemoved(Reversed(txs)) == SumRemoved(txs)
  {
    if txs != [] {
      var last, init := txs[|txs| - 1], txs[..|txs| - 1];
      SumRemovedReversed(init);
      SumRemovedConcat([last], Reversed(init));
      assert [last][..0] == [];
    }
  }

  lemma {:induction false} SumsCompare(txs: seq<Tx>)
    ensures SumRemoved(txs) <= SumStored(txs)
    ensures SumRemoved(txs) == SumStored(txs) <==> forall i :: 0 <= i < |txs| ==> Consistent(txs[i])
  {
    if txs != [] {
      var last := txs[|txs| - 1];
      SumsCompare(txs[..|txs| - 1]);
      ZerosCompare(last, |last.vout|);
      ConsistentMeansSameAmounts(last);
      assert forall i :: 0 <= i < |txs| - 1 ==> txs[i] == txs[..|txs| - 1][i];
    }
  }

  lemma {:induction false} AddTxCounts(s: Store, tx: Tx, hash: nat)
    requires AddTx(s, tx, hash).Ok?
    ensures CountAmount(AddTx(s, tx, hash).value.outs, 0) == CountAmount(s.outs, 0) + StoredZeros(tx, |tx.vout|)
  {
    AddCountsZeros(s.outs, tx, hash, |tx.vout|);
  }

  lemma {:induction false} AddTxsCounts(s: Store, hashes: seq<nat>, txs: seq<Tx>, n: nat)
    requires n <= |txs| == |hashes| && AddTxs(s, hashes, txs, n).Ok?
    ensures CountAmount(AddTxs(s, hashes, txs, n).value.outs, 0) == CountAmount(s.outs, 0) + SumStored(txs[..n])
  {
    hide AddTx;
    if n != 0 {
      AddTxsCounts(s, hashes, txs, n - 1);
      assert txs[..n][..n - 1] == txs[..n - 1];
      AddTxCounts(AddTxs(s, hashes, txs, n - 1).value, txs[n - 1], hashes[n - 1]);
    }
  }

  /** A transaction added under a hash is still there after more are added. */
  lemma {:induction false} AddTxsKeepsTx(s: Store, hashes: seq<nat>, txs: seq<Tx>, n: nat, hash: nat)
    requires n <= |txs| == |hashes| && AddTxs(s, hashes, txs, n).Ok? && hash in s.txs
    ensures hash in AddTxs(s, hashes, txs, n).value.txs
    ensures AddTxs(s, hashes, txs, n).value.txs[hash] == s.txs[hash]
  {
    hide AddTx;
    if n != 0 {
      AddTxsKeepsTx(s, hashes, txs, n - 1, hash);
      AddedTx(AddTxs(s, hashes, txs, n - 1).value, txs[n - 1], hashes[n - 1]);
    }
  }

  lemma {:induction false} RemoveTxCounts(s: Store, hash: nat)
    requires RemoveTx(s, hash).Ok?
    ensures hash in s.txs
    ensures CountAmount(s.outs, 0) ==
            CountAmount(RemoveTx(s, hash).value.outs, 0) + RemovedZeros(s.txs[hash].tx, |s.txs[hash].tx.vout|)
    ensures forall h :: h in RemoveTx(s, hash).value.txs ==> h in s.txs && RemoveTx(s, hash).value.txs[h] == s.txs[h]
  {
    var r := s.txs[hash];
    RemoveCountsZeros(s.outs, r.tx, r.outIndices, |r.tx.vout|);
  }

  lemma {:induction false} RemoveTxsCounts(s: Store, hashes: seq<nat>, n: nat, popped: seq<Tx>)
    requires n <= |hashes| && RemoveTxs(s, hashes, n, popped).Ok?
    ensures var r := RemoveTxs(s, hashes, n, popped).value;
            && CountAmount(s.outs, 0) + SumRemoved(popped) == CountAmount(r.store.outs, 0) + SumRemoved(r.txs)
            && forall h :: h in r.store.txs ==> h in s.txs && r.store.txs[h] == s.txs[h]
    decreases n
  {
    if n != 0 {
      var tx := s.txs[hashes[n - 1]].tx;
      var after := RemoveTx(s, hashes[n - 1]).value;
      RemoveTxCounts(s, hashes[n - 1]);
      SumRemovedConcat(popped, [tx]);
      assert [tx][..0] == [];
      RemoveTxsCounts(after, hashes, n - 1, popped + [tx]);
    }
  }

  lemma {:induction false} OnlyConsistentUndone(s: Store, blk: Block, txs: seq<Tx>)
    requires AddBlock(s, blk, txs).Ok?
    requires PopBlock(AddBlock(s, blk, txs).value) == Ok(Popped(s, blk, Reversed(txs)))
    ensures BlockConsistent(blk, txs)
  {
    hide AddTx, AddTxs, RemoveTx, RemoveTxs, Reversed, BlockTally, HasBlock, CumTally, Consistent, CountAmount;
    var miner := blk.minerTx;
    var s1 := AddTx(s, miner, miner.hash).value;
    var s2 := AddTxs(s1, blk.txHashes, txs, |txs|).value;
    var s3 := AddBlock(s, blk, txs).value;
    AddTxsKeepsBlocks(s1, blk.txHashes, txs, |txs|);
    AddedTx(s, miner, miner.hash);
    AddTxsKeepsTx(s1, blk.txHashes, txs, |txs|, miner.hash);
    assert s3.(blocks := s3.blocks[..|s3.blocks| - 1]) == s2;
    var r := RemoveTxs(s2, blk.txHashes, |blk.txHashes|, []).value;
    AddTxCounts(s, miner, miner.hash);
    AddTxsCounts(s1, blk.txHashes, txs, |txs|);
    assert txs[..|txs|] == txs;
    RemoveTxsCounts(s2, blk.txHashes, |blk.txHashes|, []);
    RemoveTxCounts(r.store, miner.hash);
    SumRemovedReversed(txs);
    SumsCompare(txs);
    ZerosCompare(miner, |miner.vout|);
    ConsistentMeansSameAmounts(miner);
  }

  /**
   Popping the block just added gives back the store, the block and its transactions, last first, if and
   only if every transaction with several inputs, one of them generating, is of version 1 or has no amounts.
   */
  lemma {:induction false} PopUndoesAddExactly(s: Store, blk: Block, txs: seq<Tx>)
    requires AddBlock(s, blk, txs).Ok?
    ensures PopBlock(AddBlock(s, blk, txs).value) == Ok(Popped(s, blk, Reversed(txs))) <==> BlockConsistent(blk, txs)
  {
    if BlockConsistent(blk, txs) {
      UndoBlock(s, blk, txs);
    } else if PopBlock(AddBlock(s, blk, txs).value) == Ok(Popped(s, blk, Reversed(txs))) {
      OnlyConsistentUndone(s, blk, txs);
    }
  }
}
