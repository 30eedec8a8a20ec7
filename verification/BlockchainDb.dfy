/** The block store as the object that the node updates in place. */
module BlockchainDbs {
  import opened Results
  import opened Transactions
  import opened Ledger

  class BlockchainDb {
    var spent: set<nat>
    var txs: map<nat, TxRecord>
    var outs: seq<OutRecord>
    var blocks: seq<BlockRecord>

    ghost function Contents(): Store
      reads this
    {
      Store(spent, txs, outs, blocks)
    }

    constructor ()
      ensures Contents() == EMPTY
    {
      spent, txs, outs, blocks := {}, map[], [], [];
    }

    // ---------- primitives of the underlying database ----------

    method AddSpentKey(k: nat) returns (r: Result<()>)
      modifies this`spent
      ensures r.Err? <==> k in old(spent)
      ensures r.Err? ==> r == Err(KeyImageExists)
      ensures spent == old(spent) + {k}
    {
      if k in spent {
        return Err(KeyImageExists);
      }
      spent := spent + {k};
      return Ok(());
    }

    method CountOutputs(amount: nat) returns (n: nat)
      ensures n == CountAmount(outs, amount)
    {
      n := 0;
      for i := 0 to |outs|
        invariant n == CountAmount(outs[..i], amount)
      {
        assert outs[..i + 1][..i] == outs[..i];
        if outs[i].amount == amount {
          n := n + 1;
        }
      }
      assert outs[..|outs|] == outs;
    }

    /** Stores one output and returns its index among those of its amount. */
    method AddOutput(hash: nat, o: Output, amount: nat, localIndex: nat, commitment: bool) returns (r: Result<nat>)
      modifies this`outs
      ensures r.Err? <==> !o.tagged || (amount == 0 && !commitment)
      ensures r.Err? ==> r == Err(WrongOutput)
      ensures r.Ok? ==> r.value == CountAmount(old(outs), amount)
      ensures r.Ok? ==> outs == old(outs) + [OutRecord(amount, r.value, hash, localIndex)]
    {
      if !o.tagged || (amount == 0 && !commitment) {
        return Err(WrongOutput);
      }
      var index := CountOutputs(amount);
      outs := outs + [OutRecord(amount, index, hash, localIndex)];
      return Ok(index);
    }

    method FindByIndex(amount: nat, index: nat) returns (k: nat)
      ensures k == FindOutput(outs, amount, index, |outs|)
    {
      var n := |outs|;
      while n > 0
        invariant 0 <= n <= |outs|
        invariant FindOutput(outs, amount, index, |outs|) == FindOutput(outs, amount, index, n)
      {
        if outs[n - 1].amount == amount && outs[n - 1].index == index {
          return n - 1;
        }
        n := n - 1;
      }
      return |outs|;
    }

    method RemoveOutputByIndex(amount: nat, index: nat) returns (r: Result<()>)
      modifies this`outs
      ensures r.Ok? <==> RemoveOutput(old(outs), amount, index).Ok?
      ensures r.Ok? ==> outs == RemoveOutput(old(outs), amount, index).value
      ensures r.Err? ==> r == Err(OutputMissing) && RemoveOutput(old(outs), amount, index) == Err(OutputMissing)
    {
      var k := FindByIndex(amount, index);
      if k == |outs| {
        return Err(OutputMissing);
      }
      outs := outs[..k] + outs[k + 1..];
      return Ok(());
    }

    // ---------- transactions ----------

    /** Marks the key images of the inputs as spent and tells whether an input generates coins. */
    method SpendAll(vin: seq<Input>) returns (r: Result<bool>)
      modifies this`spent
      ensures r.Ok? <==> SpendInputs(old(spent), vin).Ok?
      ensures r.Ok? ==> spent == SpendInputs(old(spent), vin).value && r.value == (Gen in vin)
      ensures r.Err? ==> r.error == SpendInputs(old(spent), vin).error
    {
      var miner := false;
      for i := 0 to |vin|
        invariant SpendInputs(old(spent), vin[..i]) == Ok(spent)
        invariant miner == (Gen in vin[..i])
      {
        assert vin[..i + 1][..i] == vin[..i];
        match vin[i]
        case Gen => miner := true;
        case ToKey(k, _) =>
          var added := AddSpentKey(k);
          if added.Err? {
            SpendFails(old(spent), vin, i + 1);
            return Err(KeyImageExists);
          }
        case Unsupported =>
          SpendFails(old(spent), vin, i + 1);
          return Err(UnexpectedInput);
      }
      assert vin[..|vin|] == vin;
      return Ok(miner);
    }

    method StoreOutputs(tx: Tx, hash: nat, miner: bool) returns (r: Result<seq<nat>>)
      requires miner == IsMiner(tx)
      modifies this`outs
      ensures r.Ok? <==> AddOutputs(old(outs), tx, hash, |tx.vout|).Ok?
      ensures r.Ok? ==> outs == AddOutputs(old(outs), tx, hash, |tx.vout|).value
      ensures r.Ok? ==> |tx.vout| <= |outs| && r.value == LastIndices(outs, |tx.vout|)
      ensures r.Err? ==> r.error == AddOutputs(old(outs), tx, hash, |tx.vout|).error
    {
      var indices := [];
      for i := 0 to |tx.vout|
        invariant AddOutputs(old(outs), tx, hash, i) == Ok(outs)
        invariant |outs| == |old(outs)| + i
        invariant indices == LastIndices(outs, i)
      {
        var amount := if miner && tx.version >= 2 then 0 else tx.vout[i].amount;
        assert amount == StoredAmount(tx, i);
        ghost var before := outs;
        var added := AddOutput(hash, tx.vout[i], amount, i, tx.version >= 2);
        if added.Err? {
          AddFails(old(outs), tx, hash, i + 1, |tx.vout|);
          return Err(WrongOutput);
        }
        assert outs[..|outs| - 1] == before;
        indices := indices + [added.value];
      }
      return Ok(indices);
    }

    method AddTransaction(tx: Tx, hash: nat) returns (r: Result<()>)
      modifies this
      ensures r.Ok? <==> AddTx(old(Contents()), tx, hash).Ok?
      ensures r.Ok? ==> Contents() == AddTx(old(Contents()), tx, hash).value
      ensures r.Err? ==> r.error == AddTx(old(Contents()), tx, hash).error
      ensures blocks == old(blocks)
    {
      var miner := SpendAll(tx.vin);
      if miner.Err? {
        return Err(miner.error);
      }
      if hash in txs {
        return Err(TxExists);
      }
      var assets := GetAssetTypes(tx, miner.value);
      if assets.None? {
        return Err(WrongAssets);
      }
      var id := |txs|;
      var indices := StoreOutputs(tx, hash, miner.value);
      if indices.Err? {
        return Err(indices.error);
      }
      txs := txs[hash := TxRecord(tx, id, indices.value)];
      return Ok(());
    }

    method UnspendAll(vin: seq<Input>)
      modifies this`spent
      ensures spent == UnspendInputs(old(spent), vin)
    {
      for i := 0 to |vin|
        invariant spent == UnspendInputs(old(spent), vin[..i])
      {
        assert vin[..i + 1][..i] == vin[..i];
        match vin[i]
        case ToKey(k, _) => spent := spent - {k};
        case Gen =>
        case Unsupported =>
      }
      assert vin[..|vin|] == vin;
    }

    method RemoveAllOutputs(tx: Tx, indices: seq<nat>) returns (r: Result<()>)
      requires |tx.vout| <= |indices|
      modifies this`outs
      ensures r.Ok? <==> RemoveOutputs(old(outs), tx, indices, |tx.vout|).Ok?
      ensures r.Ok? ==> outs == RemoveOutputs(old(outs), tx, indices, |tx.vout|).value
      ensures r.Err? ==> r.error == RemoveOutputs(old(outs), tx, indices, |tx.vout|).error
    {
      hide RemoveOutput;
      var pseudoRct := tx.version >= 2 && |tx.vin| == 1 && tx.vin[0] == Gen;
      var i := |tx.vout|;
      while i > 0
        invariant 0 <= i <= |tx.vout|
        invariant RemoveOutputs(old(outs), tx, indices, |tx.vout|) == RemoveOutputs(outs, tx, indices, i)
      {
        i := i - 1;
        var amount := if pseudoRct then 0 else tx.vout[i].amount;
        assert amount == RemovalAmount(tx, i);
        var removed := RemoveOutputByIndex(amount, indices[i]);
        if removed.Err? {
          return Err(OutputMissing);
        }
      }
      return Ok(());
    }

    method RemoveTransaction(hash: nat) returns (r: Result<()>)
      modifies this
      ensures r.Ok? <==> RemoveTx(old(Contents()), hash).Ok?
      ensures r.Ok? ==> Contents() == RemoveTx(old(Contents()), hash).value
      ensures r.Err? ==> r.error == RemoveTx(old(Contents()), hash).error
      ensures blocks == old(blocks)
    {
      if hash !in txs {
        return Err(TxMissing);
      }
      var record := txs[hash];
      UnspendAll(record.tx.vin);
      if |record.outIndices| < |record.tx.vout| {
        return Err(OutputMissing);
      }
      var removed := RemoveAllOutputs(record.tx, record.outIndices);
      if removed.Err? {
        return Err(removed.error);
      }
      txs := txs - {hash};
      return Ok(());
    }

    // ---------- blocks ----------

    method CountRct(t: Tally, vout: seq<Output>, all: bool) returns (r: Tally)
      ensures r == TallyOutputs(t, vout, all, |vout|)
    {
      r := t;
      for i := 0 to |vout|
        invariant r == TallyOutputs(t, vout, all, i)
      {
        if all || vout[i].amount == 0 {
          r := r.Add(vout[i]);
        }
      }
    }

    /** Adds a block and its transactions, and returns the height before. */
    method AddBlockAndTransactions(blk: Block, transactions: seq<Tx>) returns (r: Result<nat>)
      modifies this
      ensures r.Ok? <==> AddBlock(old(Contents()), blk, transactions).Ok?
      ensures r.Ok? ==> Contents() == AddBlock(old(Contents()), blk, transactions).value
      ensures r.Ok? ==> r.value == |old(blocks)| && |blocks| == r.value + 1
      ensures r.Err? ==> r.error == AddBlock(old(Contents()), blk, transactions).error
    {
      hide AddTx, TallyOutputs, HasBlock;
      if |blk.txHashes| != |transactions| {
        return Err(SizeMismatch);
      }
      var prevHeight := |blocks|;
      var tally := NO_TALLY;
      var added := AddTransaction(blk.minerTx, blk.minerTx.hash);
      if added.Err? {
        return Err(added.error);
      }
      ghost var s1 := Contents();
      if blk.minerTx.version >= 2 {
        tally := CountRct(tally, blk.minerTx.vout, true);
      }
      for i := 0 to |transactions|
        invariant AddTxs(s1, blk.txHashes, transactions, i) == Ok(Contents())
        invariant tally == TallyTxs(MinerTally(blk.minerTx), transactions, i)
        invariant blocks == old(blocks)
      {
        var next := AddTransaction(transactions[i], blk.txHashes[i]);
        if next.Err? {
          AddTxsFail(s1, blk.txHashes, transactions, i + 1, |transactions|);
          return Err(next.error);
        }
        tally := CountRct(tally, transactions[i].vout, false);
      }
      if HasBlock(blocks, blk.hash) {
        return Err(BlockExists);
      }
      if blocks != [] && blocks[|blocks| - 1].blk.hash != blk.prevHash {
        return Err(ParentMissing);
      }
      var below := CumTally(blocks);
      blocks := blocks + [BlockRecord(blk, below.num + tally.num, below.byAsset.Plus(tally.byAsset))];
      return Ok(prevHeight);
    }

    /** Removes the top block and its transactions, and returns them, the last transaction first. */
    method PopTopBlock() returns (r: Result<(Block, seq<Tx>)>)
      modifies this
      ensures r.Ok? <==> PopBlock(old(Contents())).Ok?
      ensures r.Ok? ==> PopBlock(old(Contents())).value == Popped(Contents(), r.value.0, r.value.1)
      ensures r.Err? ==> r.error == PopBlock(old(Contents())).error
    {
      hide RemoveTx;
      if blocks == [] {
        return Err(NoBlock);
      }
      var blk := blocks[|blocks| - 1].blk;
      blocks := blocks[..|blocks| - 1];
      ghost var s1 := Contents();
      var popped := [];
      var i := |blk.txHashes|;
      while i > 0
        invariant 0 <= i <= |blk.txHashes|
        invariant RemoveTxs(s1, blk.txHashes, |blk.txHashes|, []) == RemoveTxs(Contents(), blk.txHashes, i, popped)
      {
        i := i - 1;
        var hash := blk.txHashes[i];
        if hash !in txs {
          return Err(TxMissing);
        }
        popped := popped + [txs[hash].tx];
        var removed := RemoveTransaction(hash);
        if removed.Err? {
          return Err(removed.error);
        }
      }
      var done := RemoveTransaction(blk.minerTx.hash);
      if done.Err? {
        return Err(done.error);
      }
      return Ok((blk, popped));
    }
  }

  // ---------- an operation that fails part of the way fails as a whole ----------

  lemma {:induction false} SpendFails(spent: set<nat>, vin: seq<Input>, n: nat)
    requires n <= |vin| && SpendInputs(spent, vin[..n]).Err?
    ensures SpendInputs(spent, vin) == SpendInputs(spent, vin[..n])
    decreases |vin|
  {
    if n == |vin| {
      assert vin[..n] == vin;
    } else {
      assert vin[..|vin| - 1][..n] == vin[..n];
      SpendFails(spent, vin[..|vin| - 1], n);
    }
  }

  lemma {:induction false} AddFails(outs: seq<OutRecord>, tx: Tx, hash: nat, i: nat, n: nat)
    requires i <= n <= |tx.vout| && AddOutputs(outs, tx, hash, i).Err?
    ensures AddOutputs(outs, tx, hash, n) == AddOutputs(outs, tx, hash, i)
    decreases n
  {
    if i < n {
      AddFails(outs, tx, hash, i, n - 1);
    }
  }

  lemma {:induction false} AddTxsFail(s: Store, hashes: seq<nat>, txs: seq<Tx>, i: nat, n: nat)
    requires i <= n <= |txs| == |hashes| && AddTxs(s, hashes, txs, i).Err?
    ensures AddTxs(s, hashes, txs, n) == AddTxs(s, hashes, txs, i)
    decreases n
  {
    hide AddTx;
    if i < n {
      AddTxsFail(s, hashes, txs, i, n - 1);
    }
  }
}
