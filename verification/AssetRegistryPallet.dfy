/** advanced2-contract-dev/task4/examples/substrate-dev/pallets/asset-registry/src/lib.rs as
    written: the storage items as fields, each call a method that updates them step by step. */
module AssetRegistryPallet {
  import opened Prelude
  import opened Ledgers
  import opened AssetRegistry
  import opened AssetInvariants
  import opened AssetTheorems

  class Pallet {
    const cfg: Config
    var assets: map<U32, Asset>
    var assetsByOwner: set<(AccountId, U32)>
    var assetCountByOwner: map<AccountId, U32>
    var assetBySymbol: map<Bytes, U32>
    var nextAssetId: U32
    var events: seq<Event>

    /** The storage as a value. */
    ghost function Abs(): Registry
      reads this
    {
      Registry(assets, assetsByOwner, assetCountByOwner, assetBySymbol, nextAssetId, events)
    }

    /** The storage is that of some run, so whatever holds after every run holds here. */
    ghost predicate Valid()
      reads this
    {
      Reached(cfg, Abs())
    }

    constructor (cfg: Config)
      ensures this.cfg == cfg && Valid() && Abs() == GENESIS
    {
      this.cfg := cfg;
      assets := map[];
      assetsByOwner := {};
      assetCountByOwner := map[];
      assetBySymbol := map[];
      nextAssetId := 0;
      events := [];
      new;
      GenesisReached(cfg);
    }

    method RegisterAsset(who: AccountId, now: nat, d: Details) returns (r: Result<(), Error>)
      requires Valid()
      modifies this
      ensures Valid()
      ensures Follows(r, old(Abs()), Abs(), Step(cfg, old(Abs()), Extrinsic(who, now, Register(d))))
    {
      NextReached(cfg, Abs(), Extrinsic(who, now, Register(d)));
      ghost var after := Next(cfg, Abs(), Extrinsic(who, now, Register(d)));
      if d.name == [] { return Err(AssetNameEmpty); }
      if d.symbol == [] { return Err(AssetSymbolEmpty); }
      if |d.name| > cfg.maxName { return Err(AssetNameTooLong); }
      if |d.symbol| > cfg.maxSymbol { return Err(AssetSymbolTooLong); }
      if |d.description| > cfg.maxDescription { return Err(AssetDescriptionTooLong); }
      if |d.metadata| > cfg.maxMetadata { return Err(AssetMetadataTooLong); }
      if d.decimals > 18 { return Err(InvalidDecimals); }
      if d.totalSupply == 0 { return Err(TotalSupplyZero); }
      if d.symbol in assetBySymbol { return Err(AssetSymbolExists); }
      var currentCount: U32 := if who in assetCountByOwner then assetCountByOwner[who] else 0;
      if currentCount >= cfg.maxPerOwner { return Err(TooManyAssetsPerOwner); }
      var assetId := nextAssetId;
      var asset := Asset(who, d.name, d.symbol, d.description, d.decimals, d.totalSupply, Pending, now,
                         d.metadata, d.isTransferable, d.isMintable, d.isBurnable);
      assets := assets[assetId := asset];
      assetsByOwner := assetsByOwner + {(who, assetId)};
      assetCountByOwner := assetCountByOwner[who := SatAdd(currentCount, 1)];
      assetBySymbol := assetBySymbol[d.symbol := assetId];
      nextAssetId := SatAdd(assetId, 1);
      events := events + [AssetRegistered(assetId, who, d.name, d.symbol)];
      assert Abs() == after;
      return Ok(());
    }

    method ApproveAsset(who: AccountId, now: nat, id: U32) returns (r: Result<(), Error>)
      requires Valid()
      modifies this
      ensures Valid()
      ensures Follows(r, old(Abs()), Abs(), Step(cfg, old(Abs()), Extrinsic(who, now, Approve(id))))
    {
      NextReached(cfg, Abs(), Extrinsic(who, now, Approve(id)));
      ghost var after := Next(cfg, Abs(), Extrinsic(who, now, Approve(id)));
      if id !in assets { return Err(AssetNotFound); }
      var asset := assets[id];
      if asset.status != Pending { return Err(AssetNotPending); }
      assets := assets[id := asset.(status := Approved)];
      events := events + [AssetApproved(id, who)];
      assert Abs() == after;
      return Ok(());
    }

    method RejectAsset(who: AccountId, now: nat, id: U32, reason: Bytes) returns (r: Result<(), Error>)
      requires Valid()
      modifies this
      ensures Valid()
      ensures Follows(r, old(Abs()), Abs(), Step(cfg, old(Abs()), Extrinsic(who, now, Reject(id, reason))))
    {
      NextReached(cfg, Abs(), Extrinsic(who, now, Reject(id, reason)));
      ghost var after := Next(cfg, Abs(), Extrinsic(who, now, Reject(id, reason)));
      if id !in assets { return Err(AssetNotFound); }
      var asset := assets[id];
      if asset.status != Pending { return Err(AssetNotPending); }
      assets := assets[id := asset.(status := Rejected)];
      events := events + [AssetRejected(id, who, reason)];
      assert Abs() == after;
      return Ok(());
    }

    method SuspendAsset(who: AccountId, now: nat, id: U32, reason: Bytes) returns (r: Result<(), Error>)
      requires Valid()
      modifies this
      ensures Valid()
      ensures Follows(r, old(Abs()), Abs(), Step(cfg, old(Abs()), Extrinsic(who, now, Suspend(id, reason))))
    {
      NextReached(cfg, Abs(), Extrinsic(who, now, Suspend(id, reason)));
      ghost var after := Next(cfg, Abs(), Extrinsic(who, now, Suspend(id, reason)));
      if id !in assets { return Err(AssetNotFound); }
      var asset := assets[id];
      if asset.status != Approved { return Err(AssetNotApproved); }
      assets := assets[id := asset.(status := Suspended)];
      events := events + [AssetSuspended(id, who, reason)];
      assert Abs() == after;
      return Ok(());
    }

    method UpdateAssetMetadata(who: AccountId, now: nat, id: U32, metadata: Bytes) returns (r: Result<(), Error>)
      requires Valid()
      modifies this
      ensures Valid()
      ensures Follows(r, old(Abs()), Abs(), Step(cfg, old(Abs()), Extrinsic(who, now, UpdateMetadata(id, metadata))))
    {
      NextReached(cfg, Abs(), Extrinsic(who, now, UpdateMetadata(id, metadata)));
      ghost var after := Next(cfg, Abs(), Extrinsic(who, now, UpdateMetadata(id, metadata)));
      if id !in assets { return Err(AssetNotFound); }
      var asset := assets[id];
      if asset.owner != who { return Err(NotAssetOwner); }
      if |metadata| > cfg.maxMetadata { return Err(AssetMetadataTooLong); }
      assets := assets[id := asset.(metadata := metadata)];
      events := events + [MetadataUpdated(id, who)];
      assert Abs() == after;
      return Ok(());
    }

    /** The old owner's count is written first and the new owner's, read before, last. */
    method TransferOwnership(who: AccountId, now: nat, id: U32, newOwner: AccountId) returns (r: Result<(), Error>)
      requires Valid()
      modifies this
      ensures Valid()
      ensures Follows(r, old(Abs()), Abs(),
                      Step(cfg, old(Abs()), Extrinsic(who, now, Call.TransferOwnership(id, newOwner))))
    {
      NextReached(cfg, Abs(), Extrinsic(who, now, Call.TransferOwnership(id, newOwner)));
      ghost var after := Next(cfg, Abs(), Extrinsic(who, now, Call.TransferOwnership(id, newOwner)));
      if id !in assets { return Err(AssetNotFound); }
      var asset := assets[id];
      if asset.owner != who { return Err(NotAssetOwner); }
      var newOwnerCount: U32 := if newOwner in assetCountByOwner then assetCountByOwner[newOwner] else 0;
      if newOwnerCount >= cfg.maxPerOwner { return Err(TooManyAssetsPerOwner); }
      var oldOwner := asset.owner;
      assets := assets[id := asset.(owner := newOwner)];
      assetsByOwner := assetsByOwner - {(oldOwner, id)};
      assetsByOwner := assetsByOwner + {(newOwner, id)};
      var oldOwnerCount: U32 := if oldOwner in assetCountByOwner then assetCountByOwner[oldOwner] else 0;
      assetCountByOwner := assetCountByOwner[oldOwner := SatSub(oldOwnerCount, 1)];
      assetCountByOwner := assetCountByOwner[newOwner := SatAdd(newOwnerCount, 1)];
      events := events + [OwnershipTransferred(id, oldOwner, newOwner)];
      assert Abs() == after;
      return Ok(());
    }

    /** `get_assets_by_owner`: each listed id once, in an order that is left open as it is that
        of hashed keys. */
    method GetAssetsByOwner(o: AccountId) returns (ids: seq<U32>)
      requires Valid()
      ensures Distinct(ids)
      ensures forall id: U32 :: id in ids <==> (o, id) in assetsByOwner
      ensures forall id: U32 ::
                id in ids <==> id in Owned(Abs(), o) || (id == U32_MAX && Displaced(events, o, U32_MAX))
      ensures Displaced(events, o, U32_MAX) ==> U32_MAX !in Owned(Abs(), o) && Registrations(events, U32_MAX) > 1
    {
      ids := [];
      var rest := assetsByOwner;
      while rest != {}
        invariant rest <= assetsByOwner && Distinct(ids)
        invariant forall id: U32 :: id in ids <==> (o, id) in assetsByOwner && (o, id) !in rest
        decreases |rest|
      {
        var key :| key in rest;
        rest := rest - {key};
        if key.0 == o {
          assert key == (o, key.1);
          ids := ids + [key.1];
        }
      }
      ReachedInv(cfg, Abs());
      ListedOrDisplaced(Abs(), o);
    }

    /** `total_assets`. */
    method TotalAssets() returns (n: U32)
      requires Valid()
      ensures n == nextAssetId
      ensures |assets| == n + if Registrations(events, U32_MAX) > 0 then 1 else 0
      ensures forall id: U32 :: id in assets <==> id < n || (id == U32_MAX && Registrations(events, U32_MAX) > 0)
    {
      n := nextAssetId;
      ReachedInv(cfg, Abs());
      AssetCount(Abs());
    }
  }
}
