/** Which blocks the store accepts, how they are linked, and what it stores for a transaction. */
module Acceptance {
  import opened Transactions
  import opened Ledger
  import opened PopUndoesAdd
  import opened ChainRuns

  // ---------- what a transaction must be like ----------

  /** What a transaction must satisfy on its own. */
  ghost predicate Sound(tx: Tx) {
    AssetsAllowed(tx, Gen in tx.vin) && (tx.version < 2 ==> HasAmounts(tx.vout, |tx.vout|))
  }

  /** What the listed transactions must satisfy together, with what is in the store. */
  ghost predicate Fresh(s: Store, l: seq<Listing>) {
    && Distinct(Hashes(l)) && s.txs.Keys !! Elements(Hashes(l))
    && Distinct(KeyImages(l)) && s.spent !! Elements(KeyImages(l))
    && forall i :: 0 <= i < |l| ==> Sound(l[i].tx)
  }

  lemma {:induction false} OutputsAccepted(outs: seq<OutRecord>, tx: Tx, hash: nat, n: nat)
    requires n <= |tx.vout| && forall i :: 0 <= i < |tx.vout| ==> tx.vout[i].tagged
    ensures AddOutputs(outs, tx, hash, n).Ok? <==> tx.version >= 2 || HasAmounts(tx.vout, n)
  {
    if n != 0 {
      OutputsAccepted(outs, tx, hash, n - 1);
    }
  }

  lemma {:induction false} AddTxAccepts(s: Store, tx: Tx, hash: nat)
    ensures AddTx(s, tx, hash).Ok? <==>
            hash !in s.txs && Distinct(Images(tx.vin)) && s.spent !! Elements(Images(tx.vin)) && Sound(tx)
    ensures AddTx(s, tx, hash).Ok? ==>
              && AddTx(s, tx, hash).value.txs.Keys == s.txs.Keys + {hash}
              && AddTx(s, tx, hash).value.spent == s.spent + Elements(Images(tx.vin))
  {
    hide OneConversion, Distinct, Elements, Images, AddOutputs, SpendInputs, HasAmounts;
    SpendIsUnion(s.spent, tx.vin);
    if forall i :: 0 <= i < |tx.vout| ==> tx.vout[i].tagged {
      OutputsAccepted(s.outs, tx, hash, |tx.vout|);
    }
  }

  lemma {:induction false} FreshSnoc(s: Store, l: seq<Listing>, x: Listing)
    ensures Fresh(s, l + [x]) <==>
            && Fresh(s, l) && Sound(x.tx)
            && x.hash !in s.txs.Keys + Elements(Hashes(l))
            && Distinct(Images(x.tx.vin)) && (s.spent + Elements(KeyImages(l))) !! Elements(Images(x.tx.vin))
  {
    hide Sound, Images, Distinct, Hashes, KeyImages;
    var longer := l + [x];
    ListSnoc(l, x);
    DistinctAppend(Hashes(l), x.hash);
    DistinctConcat(KeyImages(l), Images(x.tx.vin));
    assert Elements(Hashes(longer)) == Elements(Hashes(l)) + {x.hash};
    assert longer[|l|] == x && forall i :: 0 <= i < |l| ==> longer[i] == l[i];
  }

  lemma {:induction false} AddTxsAccept(s: Store, hashes: seq<nat>, txs: seq<Tx>, n: nat, l: seq<Listing>, t: Store)
    requires n <= |txs| == |hashes| && Fresh(s, l)
    requires t.txs.Keys == s.txs.Keys + Elements(Hashes(l)) && t.spent == s.spent + Elements(KeyImages(l))
    ensures AddTxs(t, hashes, txs, n).Ok? <==> Fresh(s, l + Listed(hashes, txs, n))
    ensures AddTxs(t, hashes, txs, n).Ok? ==>
              var r, all := AddTxs(t, hashes, txs, n).value, l + Listed(hashes, txs, n);
              r.txs.Keys == s.txs.Keys + Elements(Hashes(all)) && r.spent == s.spent + Elements(KeyImages(all))
  {
    hide AddTx, Fresh, Sound, Distinct, Elements, Images, Hashes, KeyImages;
    if n == 0 {
      assert l + Listed(hashes, txs, n) == l;
    } else {
      AddTxsAccept(s, hashes, txs, n - 1, l, t);
      var front, x := l + Listed(hashes, txs, n - 1), Listing(hashes[n - 1], txs[n - 1]);
      assert front + [x] == l + Listed(hashes, txs, n);
      FreshSnoc(s, front, x);
      if AddTxs(t, hashes, txs, n - 1).Ok? {
        AddTxAccepts(AddTxs(t, hashes, txs, n - 1).value, x.tx, x.hash);
        Gathered(s, front, x);
      }
    }
  }

  lemma {:induction false} Gathered(s: Store, l: seq<Listing>, x: Listing)
    ensures s.txs.Keys + Elements(Hashes(l)) + {x.hash} == s.txs.Keys + Elements(Hashes(l + [x]))
    ensures s.spent + Elements(KeyImages(l)) + Elements(Images(x.tx.vin)) == s.spent + Elements(KeyImages(l + [x]))
  {
    hide Hashes, KeyImages, Images;
    ListSnoc(l, x);
    assert Elements(Hashes(l) + [x.hash]) == Elements(Hashes(l)) + {x.hash};
    assert Elements(KeyImages(l) + Images(x.tx.vin)) == Elements(KeyImages(l)) + Elements(Images(x.tx.vin));
  }

  /** A block that is new and whose parent is the top block. */
  ghost predicate Follows(s: Store, blk: Block) {
    && (forall i :: 0 <= i < |s.blocks| ==> s.blocks[i].blk.hash != blk.hash)
    && (s.blocks != [] ==> blk.prevHash == s.blocks[|s.blocks| - 1].blk.hash)
  }

  /**
   A block is accepted if and only if it has as many transactions as hashes, its transactions are sound, their
   hashes and key images are new to the store and to each other, and it follows the top block.
   */
  lemma {:induction false} AddBlockAccepts(s: Store, blk: Block, txs: seq<Tx>)
    ensures AddBlock(s, blk, txs).Ok? <==>
            |blk.txHashes| == |txs| && Fresh(s, EntryListings(Entry(blk, txs))) && Follows(s, blk)
  {
    hide AddTx, AddTxs, Fresh, Listed, BlockTally, CumTally;
    if |blk.txHashes| == |txs| {
      var miner := Listing(blk.minerTx.hash, blk.minerTx);
      MinerAccepted(s, miner);
      var all := [miner] + Listed(blk.txHashes, txs, |txs|);
      if AddTx(s, miner.tx, miner.hash).Ok? {
        var s1 := AddTx(s, miner.tx, miner.hash).value;
        AddTxsAccept(s, blk.txHashes, txs, |txs|, [miner], s1);
        AddedTx(s, miner.tx, miner.hash);
        if AddTxs(s1, blk.txHashes, txs, |txs|).Ok? {
          AddTxsKeepsBlocks(s1, blk.txHashes, txs, |txs|);
        }
      } else if Fresh(s, all) {
        FreshPrefix(s, [miner], Listed(blk.txHashes, txs, |txs|));
      }
    }
  }

  lemma {:induction false} MinerAccepted(s: Store, miner: Listing)
    ensures AddTx(s, miner.tx, miner.hash).Ok? <==> Fresh(s, [miner])
    ensures AddTx(s, miner.tx, miner.hash).Ok? ==>
              var t := AddTx(s, miner.tx, miner.hash).value;
              t.txs.Keys == s.txs.Keys + Elements(Hashes([miner])) && t.spent == s.spent + Elements(KeyImages([miner]))
  {
    hide AddTx, Sound, Images, Distinct;
    AddTxAccepts(s, miner.tx, miner.hash);
    FreshSnoc(s, [], miner);
    Gathered(s, [], miner);
    assert [] + [miner] == [miner];
    assert Elements(Hashes([])) == {} && Elements(KeyImages([])) == {};
    assert Distinct([]) by { EmptyFollows(); }
  }

  lemma {:induction false} FreshPrefix(s: Store, a: seq<Listing>, b: seq<Listing>)
    requires Fresh(s, a + b)
    ensures Fresh(s, a)
    decreases |b|
  {
    hide Fresh;
    if b == [] {
      assert a + b == a;
    } else {
      var n := |b| - 1;
      assert a + b == (a + b[..n]) + [b[n]];
      FreshSnoc(s, a + b[..n], b[n]);
      FreshPrefix(s, a, b[..n]);
    }
  }

  // ---------- the chain is linked ----------

  /** Every block but the first names the one before it as its parent, and no two have the same hash. */
  ghost predicate ChainLinked(chain: seq<Entry>) {
    && (forall i :: 0 < i < |chain| ==> chain[i].blk.prevHash == chain[i - 1].blk.hash)
    && (forall i, j :: 0 <= i < j < |chain| ==> chain[i].blk.hash != chain[j].blk.hash)
  }

  lemma {:induction false} RecordsAt(chain: seq<Entry>, i: nat)
    requires i < |chain|
    ensures |Records(chain)| == |chain| && Records(chain)[i].blk == chain[i].blk
  {
    hide BlockTally, CumTally;
    RecordsLength(chain);
    if i < |chain| - 1 {
      RecordsAt(chain[..|chain| - 1], i);
    } else {
      RecordsLength(chain[..|chain| - 1]);
    }
  }

  lemma {:induction false} RecordsLength(chain: seq<Entry>)
    ensures |Records(chain)| == |chain|
  {
    hide BlockTally, CumTally;
    if chain != [] {
      RecordsLength(chain[..|chain| - 1]);
    }
  }

  lemma {:induction false} LinkedSnoc(s: Store, chain: seq<Entry>, e: Entry)
    requires ChainLinked(chain) && s.blocks == Records(chain) && Follows(s, e.blk)
    ensures ChainLinked(chain + [e])
  {
    hide Records;
    RecordsLength(chain);
    forall i | 0 <= i < |chain| ensures s.blocks[i].blk == chain[i].blk {
      RecordsAt(chain, i);
    }
  }

  /** After every run the chain is linked. */
  lemma {:induction false} RunIsLinked(steps: seq<Step>)
    ensures ChainLinked(ChainOf(steps))
  {
    hide AddBlock, PopBlock, Follows, Fresh, Matched, ChainAllowed, Holds, ChainListings, Records;
    if steps != [] {
      var init, last := steps[..|steps| - 1], steps[|steps| - 1];
      RunIsLinked(init);
      var before, chain := Execute(init), ChainOf(init);
      if last.Add? && AddBlock(before, last.blk, last.txs).Ok? {
        RunFollowsChain(init);
        AddBlockAccepts(before, last.blk, last.txs);
        LinkedSnoc(before, chain, Entry(last.blk, last.txs));
      }
    }
  }

  // ---------- what is stored for a transaction ----------

  /** The outputs of an amount before place `k`. */
  ghost function Earlier(outs: seq<OutRecord>, k: nat, amount: nat): set<nat>
    requires k <= |outs|
  {
    set j: nat | j < k && outs[j].amount == amount
  }

  lemma {:induction false} CountIsEarlier(outs: seq<OutRecord>, k: nat, amount: nat)
    requires k <= |outs|
    ensures CountAmount(outs[..k], amount) == |Earlier(outs, k, amount)|
  {
    if k == 0 {
      assert Earlier(outs, 0, amount) == {};
    } else {
      CountIsEarlier(outs, k - 1, amount);
      assert outs[..k][..k - 1] == outs[..k - 1];
      var before, after := Earlier(outs, k - 1, amount), Earlier(outs, k, amount);
      if outs[k - 1].amount == amount {
        assert after == before + {k - 1 as nat};
      } else {
        assert after == before;
      }
    }
  }

  lemma {:induction false} OutputStored(outs: seq<OutRecord>, tx: Tx, hash: nat, n: nat, i: nat)
    requires i < n <= |tx.vout| && AddOutputs(outs, tx, hash, n).Ok?
    ensures var r, k := AddOutputs(outs, tx, hash, n).value, |outs| + i;
            && |r| == |outs| + n && r[..|outs|] == outs
            && r[k] == OutRecord(
                 if tx.version >= 2 && Gen in tx.vin then 0 else tx.vout[i].amount,
                 CountAmount(r[..k], r[k].amount), hash, i)
  {
    AddOutputsLength(outs, tx, hash, n);
    AddOutputsLength(outs, tx, hash, n - 1);
    var before, r := AddOutputs(outs, tx, hash, n - 1).value, AddOutputs(outs, tx, hash, n).value;
    assert r[..|before|] == before;
    if i < n - 1 {
      OutputStored(outs, tx, hash, n - 1, i);
      assert r[..|outs| + i] == before[..|outs| + i];
    }
  }

  /**
   Adding a transaction stores its outputs after the others: each with its place in the transaction, under its
   amount, or 0 for version 2 with a generating input, numbered by the outputs of that amount before it.
   */
  lemma {:induction false} TxIsStored(s: Store, tx: Tx, hash: nat, i: nat)
    requires AddTx(s, tx, hash).Ok?
    ensures var r := AddTx(s, tx, hash).value;
            && r.blocks == s.blocks && |r.outs| == |s.outs| + |tx.vout| && r.outs[..|s.outs|] == s.outs
            && r.txs - {hash} == s.txs && hash in r.txs && r.txs[hash].tx == tx && r.txs[hash].id == |s.txs|
            && |r.txs[hash].outIndices| == |tx.vout|
            && (i < |tx.vout| ==>
                  var o := r.outs[|s.outs| + i];
                  && o.amount == (if tx.version >= 2 && Gen in tx.vin then 0 else tx.vout[i].amount)
                  && o.index == |Earlier(r.outs, |s.outs| + i, o.amount)|
                  && o.txHash == hash && o.localIndex == i && r.txs[hash].outIndices[i] == o.index)
  {
    hide AssetsAllowed, SpendInputs, AddOutputs, CountAmount;
    var r := AddTx(s, tx, hash).value;
    AddOutputsLength(s.outs, tx, hash, |tx.vout|);
    assert r.txs - {hash} == s.txs;
    if i < |tx.vout| {
      OutputStored(s.outs, tx, hash, |tx.vout|, i);
      CountIsEarlier(r.outs, |s.outs| + i, r.outs[|s.outs| + i].amount);
    }
  }
}
