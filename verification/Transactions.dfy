/** Transactions, and the rule for the asset types that one may spend and create. */
module Transactions {
  import opened Results

  /** A transaction input: newly generated coins, the key image of a spent output, or anything else. */
  datatype Input = Gen | ToKey(keyImage: nat, asset: string) | Unsupported

  /** An output; `tagged` tells whether its target is of the supported kind. */
  datatype Output = Output(amount: nat, tagged: bool, asset: string)

  /** A transaction; `hash` stands for what hashing it gives. */
  datatype Tx = Tx(hash: nat, version: nat, vin: seq<Input>, vout: seq<Output>)

  /** Any generating input makes it a miner transaction. */
  predicate IsMiner(tx: Tx) {
    Gen in tx.vin
  }

  predicate Known(asset: string) {
    asset == "SISPOP" || asset == "SISPOPUSD" || asset == "SISPOPRSV"
  }

  /** The asset type that an input spends; generated coins are SISPOP. */
  function SourceOf(i: Input): string {
    if i.ToKey? then i.asset else "SISPOP"
  }

  /** Some outputs keep the source's asset type as change; the others all have one other known type. */
  ghost predicate OneConversion(source: string, vout: seq<Output>) {
    && (exists i :: 0 <= i < |vout| && vout[i].asset == source)
    && (exists j :: 0 <= j < |vout| && Converts(source, vout, vout[j].asset))
  }

  ghost predicate Converts(source: string, vout: seq<Output>, destination: string) {
    Known(destination) && forall i :: 0 <= i < |vout| ==> vout[i].asset == source || vout[i].asset == destination
  }

  /** All inputs are supported and spend the same known asset type. */
  ghost predicate OneSource(vin: seq<Input>, miner: bool) {
    && vin != [] && Known(SourceOf(vin[0]))
    && forall i :: 0 <= i < |vin| ==> vin[i] != Unsupported && (vin[i] == Gen ==> miner) && SourceOf(vin[i]) == SourceOf(vin[0])
  }

  /** Asset types that a transaction may have; outputs of miner transactions are not restricted here. */
  ghost predicate AssetsAllowed(tx: Tx, miner: bool) {
    && OneSource(tx.vin, miner)
    && tx.vout != [] && (forall i :: 0 <= i < |tx.vout| ==> tx.vout[i].tagged)
    && (!miner ==> OneConversion(SourceOf(tx.vin[0]), tx.vout))
  }

  /** Without a generating input, allowed outputs are of known asset types. */
  lemma {:induction false} AllowedAreKnown(tx: Tx, i: nat)
    requires AssetsAllowed(tx, false) && i < |tx.vout|
    ensures Known(tx.vout[i].asset)
  {
    hide Known;
    var j :| 0 <= j < |tx.vout| && Converts(SourceOf(tx.vin[0]), tx.vout, tx.vout[j].asset);
  }

  // ---------- finding the asset types ----------

  ghost function Sources(vin: seq<Input>): set<string> {
    set i | 0 <= i < |vin| :: SourceOf(vin[i])
  }

  ghost function Destinations(vout: seq<Output>): set<string> {
    set i | 0 <= i < |vout| :: vout[i].asset
  }

  /** The set of the asset types that the inputs spend, unless an input is refused. */
  method CollectSources(vin: seq<Input>, miner: bool) returns (ok: bool, assets: set<string>)
    ensures ok <==> forall i :: 0 <= i < |vin| ==> vin[i] != Unsupported && (vin[i] == Gen ==> miner)
    ensures ok ==> assets == Sources(vin)
  {
    assets := {};
    for k := 0 to |vin|
      invariant assets == Sources(vin[..k])
      invariant forall i :: 0 <= i < k ==> vin[i] != Unsupported && (vin[i] == Gen ==> miner)
    {
      if vin[k] == Unsupported || (vin[k] == Gen && !miner) {
        return false, {};
      }
      SourcesSnoc(vin, k);
      assets := assets + {SourceOf(vin[k])};
    }
    assert vin[..|vin|] == vin;
    ok := true;
  }

  lemma {:induction false} SourcesSnoc(vin: seq<Input>, k: nat)
    requires k < |vin|
    ensures Sources(vin[..k + 1]) == Sources(vin[..k]) + {SourceOf(vin[k])}
  {
    var a, b := vin[..k], vin[..k + 1];
    assert forall i :: 0 <= i < k ==> a[i] == b[i];
    assert b[k] == vin[k];
  }

  method CollectDestinations(vout: seq<Output>) returns (ok: bool, assets: set<string>)
    ensures ok <==> forall i :: 0 <= i < |vout| ==> vout[i].tagged
    ensures ok ==> assets == Destinations(vout)
  {
    assets := {};
    for k := 0 to |vout|
      invariant assets == Destinations(vout[..k])
      invariant forall i :: 0 <= i < k ==> vout[i].tagged
    {
      if !vout[k].tagged {
        return false, {};
      }
      DestinationsSnoc(vout, k);
      assets := assets + {vout[k].asset};
    }
    assert vout[..|vout|] == vout;
    ok := true;
  }

  lemma {:induction false} DestinationsSnoc(vout: seq<Output>, k: nat)
    requires k < |vout|
    ensures Destinations(vout[..k + 1]) == Destinations(vout[..k]) + {vout[k].asset}
  {
    var a, b := vout[..k], vout[..k + 1];
    assert forall i :: 0 <= i < k ==> a[i] == b[i];
    assert b[k] == vout[k];
  }

  /** What a transaction converts from and to. */
  datatype Conversion = Conversion(source: string, destination: string)

  /** The asset types of a transaction, found by the sizes of the two sets; nothing exactly if not allowed. */
  method GetAssetTypes(tx: Tx, miner: bool) returns (r: Option<Conversion>)
    ensures r.Some? <==> AssetsAllowed(tx, miner)
    ensures r.Some? ==> r.value.source == SourceOf(tx.vin[0])
    ensures r.Some? && !miner ==> Converts(r.value.source, tx.vout, r.value.destination)
    ensures r.Some? && miner ==> r.value.destination == "SISPOP"
  {
    hide Known, OneConversion, Sources, Destinations;
    var okIn, sources := CollectSources(tx.vin, miner);
    if !okIn {
      return None;
    }
    SourcesBySize(tx.vin);
    if |sources| != 1 {
      return None;
    }
    var source :| source in sources;
    OnlyMember(sources, source, SourceOf(tx.vin[0]));
    var okOut, dests := CollectDestinations(tx.vout);
    DestinationsBySize(source, tx.vout);
    if !okOut || |dests| == 0 {
      return None;
    }
    var destination := "SISPOP";
    if miner {
      SispopIsKnown();
    } else {
      var pair := SourceAndOther(dests, source);
      if pair.None? {
        return None;
      }
      destination := pair.value;
    }
    if !Known(source) || !Known(destination) {
      return None;
    }
    return Some(Conversion(source, destination));
  }

  /** The member other than the source, or the source if it is alone. */
  method SourceAndOther(dests: set<string>, source: string) returns (r: Option<string>)
    requires |dests| > 0
    ensures r.Some? <==> source in dests && |dests| <= 2
    ensures r.Some? ==> dests == {source, r.value}
  {
    if |dests| > 2 {
      return None;
    }
    var d0 :| d0 in dests;
    if |dests| == 1 {
      OnlyMember(dests, d0, d0);
      return if d0 == source then Some(source) else None;
    }
    OnlyOther(dests, d0);
    var d1 :| d1 in dests - {d0};
    OnlyMember(dests - {d0}, d1, d1);
    assert dests == {d0} + (dests - {d0}) == {d0, d1};
    if d0 == source {
      return Some(d1);
    } else if d1 == source {
      return Some(d0);
    } else {
      return None;
    }
  }

  lemma {:induction false} SispopIsKnown()
    ensures Known("SISPOP")
  {
  }

  lemma {:induction false} OnlyMember<T>(s: set<T>, x: T, y: T)
    requires |s| == 1 && x in s && y in s
    ensures s == {x} && x == y
  {
    assert |s - {x}| == 0;
  }

  lemma {:induction false} OnlyOther<T>(s: set<T>, x: T)
    requires |s| == 2 && x in s
    ensures |s - {x}| == 1
  {
  }

  lemma {:induction false} SourcesBySize(vin: seq<Input>)
    ensures |Sources(vin)| == 1 <==>
            vin != [] && forall i :: 0 <= i < |vin| ==> SourceOf(vin[i]) == SourceOf(vin[0])
    ensures vin != [] ==> SourceOf(vin[0]) in Sources(vin)
  {
    if vin == [] {
      assert Sources(vin) == {};
    } else {
      assert SourceOf(vin[0]) in Sources(vin);
      if |Sources(vin)| == 1 {
        forall i | 0 <= i < |vin| ensures SourceOf(vin[i]) == SourceOf(vin[0]) {
          OnlyMember(Sources(vin), SourceOf(vin[0]), SourceOf(vin[i]));
        }
      } else if forall i :: 0 <= i < |vin| ==> SourceOf(vin[i]) == SourceOf(vin[0]) {
        assert Sources(vin) == {SourceOf(vin[0])};
      }
    }
  }

  /** A conversion from a known source shows in the set of destinations. */
  lemma {:induction false} DestinationsBySize(source: string, vout: seq<Output>)
    ensures |Destinations(vout)| == 0 <==> vout == []
    ensures forall d :: Destinations(vout) == {source, d} ==> (Converts(source, vout, d) <==> Known(d))
    ensures Known(source) ==>
              (OneConversion(source, vout) <==> exists d :: Destinations(vout) == {source, d} && Known(d))
  {
    hide Known;
    var all := Destinations(vout);
    assert forall i :: 0 <= i < |vout| ==> vout[i].asset in all;
    if vout == [] {
      assert all == {};
    } else {
      assert vout[0].asset in all;
    }
    forall d | all == {source, d}
      ensures Converts(source, vout, d) <==> Known(d)
    {
      assert forall i :: 0 <= i < |vout| ==> vout[i].asset in {source, d};
    }
    if OneConversion(source, vout) {
      ConversionShows(source, vout);
    }
    if d :| all == {source, d} && Known(d) {
      SetShowsConversion(source, vout, d);
    }
  }

  lemma {:induction false} ConversionShows(source: string, vout: seq<Output>)
    requires OneConversion(source, vout)
    ensures exists d :: Destinations(vout) == {source, d} && Known(d)
  {
    hide Known;
    var i :| 0 <= i < |vout| && vout[i].asset == source;
    var j :| 0 <= j < |vout| && Converts(source, vout, vout[j].asset);
    assert Destinations(vout) == {source, vout[j].asset};
  }

  lemma {:induction false} SetShowsConversion(source: string, vout: seq<Output>, d: string)
    requires Destinations(vout) == {source, d} && Known(d)
    ensures OneConversion(source, vout)
  {
    hide Known;
    assert source in Destinations(vout) && d in Destinations(vout);
    assert forall i :: 0 <= i < |vout| ==> vout[i].asset in Destinations(vout);
    var j :| 0 <= j < |vout| && vout[j].asset == d;
    assert Converts(source, vout, vout[j].asset);
  }
}
