/** advanced2-contract-dev/task4/examples/substrate-dev/pallets/asset-registry/src/lib.rs: the
    six calls as transitions of the pallet's storage, and runs of them over the blocks. */
module AssetRegistry {
  import opened Prelude

  /** The `Config` constants. */
  datatype Config = Config(
    maxName: U32, maxSymbol: U32, maxDescription: U32, maxMetadata: U32, maxPerOwner: U32)

  datatype Status = Pending | Approved | Rejected | Suspended

  datatype Asset = Asset(
    owner: AccountId,
    name: Bytes,
    symbol: Bytes,
    description: Bytes,
    decimals: U8,
    totalSupply: U128,
    status: Status,
    registeredAt: nat,
    metadata: Bytes,
    isTransferable: bool,
    isMintable: bool,
    isBurnable: bool)

  datatype Event =
    | AssetRegistered(id: U32, owner: AccountId, name: Bytes, symbol: Bytes)
    | AssetApproved(id: U32, approver: AccountId)
    | AssetRejected(id: U32, rejector: AccountId, reason: Bytes)
    | AssetSuspended(id: U32, suspender: AccountId, reason: Bytes)
    | MetadataUpdated(id: U32, updater: AccountId)
    | OwnershipTransferred(id: U32, from: AccountId, to: AccountId)

  datatype Error =
    | AssetNotFound | AssetNameTooLong | AssetSymbolTooLong | AssetDescriptionTooLong
    | AssetMetadataTooLong | AssetSymbolExists | NotAssetOwner | AssetNotPending | AssetNotApproved
    | TooManyAssetsPerOwner | AssetNameEmpty | AssetSymbolEmpty | InvalidDecimals | TotalSupplyZero

  /** Storage and the events deposited so far. */
  datatype Registry = Registry(
    assets: map<U32, Asset>,
    byOwner: set<(AccountId, U32)>,
    countByOwner: map<AccountId, U32>,
    bySymbol: map<Bytes, U32>,
    nextId: U32,
    events: seq<Event>)

  const GENESIS: Registry := Registry(map[], {}, map[], map[], 0, [])

  /** The arguments of `register_asset`. */
  datatype Details = Details(
    name: Bytes, symbol: Bytes, description: Bytes, decimals: U8, totalSupply: U128,
    metadata: Bytes, isTransferable: bool, isMintable: bool, isBurnable: bool)

  datatype Call =
    | Register(details: Details)
    | Approve(id: U32)
    | Reject(id: U32, reason: Bytes)
    | Suspend(id: U32, reason: Bytes)
    | UpdateMetadata(id: U32, metadata: Bytes)
    | TransferOwnership(id: U32, newOwner: AccountId)

  /** A signed call in a block. */
  datatype Extrinsic = Extrinsic(who: AccountId, block: nat, call: Call)

  /** `asset_count_by_owner`, whose default is zero. */
  function CountOf(s: Registry, o: AccountId): U32 {
    if o in s.countByOwner then s.countByOwner[o] else 0
  }

  /** The first check of `register_asset` that fails. */
  function Refusal(cfg: Config, s: Registry, who: AccountId, d: Details): Option<Error> {
    if d.name == [] then Some(AssetNameEmpty)
    else if d.symbol == [] then Some(AssetSymbolEmpty)
    else if |d.name| > cfg.maxName then Some(AssetNameTooLong)
    else if |d.symbol| > cfg.maxSymbol then Some(AssetSymbolTooLong)
    else if |d.description| > cfg.maxDescription then Some(AssetDescriptionTooLong)
    else if |d.metadata| > cfg.maxMetadata then Some(AssetMetadataTooLong)
    else if d.decimals > 18 then Some(InvalidDecimals)
    else if d.totalSupply == 0 then Some(TotalSupplyZero)
    else if d.symbol in s.bySymbol then Some(AssetSymbolExists)
    else if CountOf(s, who) >= cfg.maxPerOwner then Some(TooManyAssetsPerOwner)
    else None
  }

  function NewAsset(who: AccountId, now: nat, d: Details): Asset {
    Asset(who, d.name, d.symbol, d.description, d.decimals, d.totalSupply, Pending, now,
          d.metadata, d.isTransferable, d.isMintable, d.isBurnable)
  }

  function RegisterAsset(cfg: Config, s: Registry, who: AccountId, now: nat, d: Details): Result<Registry, Error> {
    match Refusal(cfg, s, who, d)
    case Some(e) => Err(e)
    case None => Ok(Registry(
      s.assets[s.nextId := NewAsset(who, now, d)],
      s.byOwner + {(who, s.nextId)},
      s.countByOwner[who := SatAdd(CountOf(s, who), 1)],
      s.bySymbol[d.symbol := s.nextId],
      SatAdd(s.nextId, 1),
      s.events + [AssetRegistered(s.nextId, who, d.name, d.symbol)]))
  }

  /** The shared form of approve, reject and suspend. */
  function SetStatus(s: Registry, id: U32, from: Status, otherwise: Error, to: Status, e: Event)
    : Result<Registry, Error>
  {
    if id !in s.assets then Err(AssetNotFound)
    else if s.assets[id].status != from then Err(otherwise)
    else Ok(s.(assets := s.assets[id := s.assets[id].(status := to)], events := s.events + [e]))
  }

  function SetMetadata(cfg: Config, s: Registry, who: AccountId, id: U32, metadata: Bytes): Result<Registry, Error> {
    if id !in s.assets then Err(AssetNotFound)
    else if s.assets[id].owner != who then Err(NotAssetOwner)
    else if |metadata| > cfg.maxMetadata then Err(AssetMetadataTooLong)
    else Ok(s.(assets := s.assets[id := s.assets[id].(metadata := metadata)],
               events := s.events + [MetadataUpdated(id, who)]))
  }

  /** The new owner's count is read before the old owner's is written back. */
  function Transfer(cfg: Config, s: Registry, who: AccountId, id: U32, newOwner: AccountId): Result<Registry, Error> {
    if id !in s.assets then Err(AssetNotFound)
    else if s.assets[id].owner != who then Err(NotAssetOwner)
    else if CountOf(s, newOwner) >= cfg.maxPerOwner then Err(TooManyAssetsPerOwner)
    else Ok(s.(
      assets := s.assets[id := s.assets[id].(owner := newOwner)],
      byOwner := s.byOwner - {(who, id)} + {(newOwner, id)},
      countByOwner := s.countByOwner[who := SatSub(CountOf(s, who), 1)][newOwner := SatAdd(CountOf(s, newOwner), 1)],
      events := s.events + [OwnershipTransferred(id, who, newOwner)]))
  }

  function Step(cfg: Config, s: Registry, x: Extrinsic): Result<Registry, Error> {
    match x.call
    case Register(d) => RegisterAsset(cfg, s, x.who, x.block, d)
    case Approve(id) => SetStatus(s, id, Pending, AssetNotPending, Approved, AssetApproved(id, x.who))
    case Reject(id, reason) => SetStatus(s, id, Pending, AssetNotPending, Rejected, AssetRejected(id, x.who, reason))
    case Suspend(id, reason) =>
      SetStatus(s, id, Approved, AssetNotApproved, Suspended, AssetSuspended(id, x.who, reason))
    case UpdateMetadata(id, metadata) => SetMetadata(cfg, s, x.who, id, metadata)
    case TransferOwnership(id, newOwner) => Transfer(cfg, s, x.who, id, newOwner)
  }

  /** Storage after one extrinsic; a failed call changes nothing. */
  function Next(cfg: Config, s: Registry, x: Extrinsic): Registry {
    match Step(cfg, s, x)
    case Ok(after) => after
    case Err(_) => s
  }

  function Run(cfg: Config, s: Registry, xs: seq<Extrinsic>): Registry {
    if xs == [] then s else Next(cfg, Run(cfg, s, xs[..|xs| - 1]), xs[|xs| - 1])
  }

  lemma RunSnoc(cfg: Config, s: Registry, front: seq<Extrinsic>, x: Extrinsic)
    ensures Run(cfg, s, front + [x]) == Next(cfg, Run(cfg, s, front), x)
  {
    assert (front + [x])[..|front|] == front;
  }

  /** Runs compose, so a statement from a reached state is one about continuations. */
  lemma {:induction false} RunConcat(cfg: Config, s: Registry, xs: seq<Extrinsic>, ys: seq<Extrinsic>)
    ensures Run(cfg, s, xs + ys) == Run(cfg, Run(cfg, s, xs), ys)
  {
    if ys == [] {
      assert xs + ys == xs;
    } else {
      var front, y := ys[..|ys| - 1], ys[|ys| - 1];
      RunConcat(cfg, s, xs, front);
      RunConcatSnoc(cfg, s, xs, front, y);
      assert ys == front + [y];
    }
  }

  lemma RunConcatSnoc(cfg: Config, s: Registry, xs: seq<Extrinsic>, front: seq<Extrinsic>, y: Extrinsic)
    requires Run(cfg, s, xs + front) == Run(cfg, Run(cfg, s, xs), front)
    ensures Run(cfg, s, xs + (front + [y])) == Run(cfg, Run(cfg, s, xs), front + [y])
  {
    SnocAssociates(xs, front, y);
    RunSnoc(cfg, s, xs + front, y);
    RunSnoc(cfg, Run(cfg, s, xs), front, y);
  }

  /** `s` is the storage after some run from genesis. */
  ghost predicate Reached(cfg: Config, s: Registry) {
    exists xs: seq<Extrinsic> :: s == Run(cfg, GENESIS, xs)
  }

  lemma GenesisReached(cfg: Config)
    ensures Reached(cfg, GENESIS)
  {
    assert GENESIS == Run(cfg, GENESIS, []);
  }

  lemma NextReached(cfg: Config, s: Registry, x: Extrinsic)
    requires Reached(cfg, s)
    ensures Reached(cfg, Next(cfg, s, x))
  {
    var xs :| s == Run(cfg, GENESIS, xs);
    RunSnoc(cfg, GENESIS, xs, x);
    assert Next(cfg, s, x) == Run(cfg, GENESIS, xs + [x]);
  }

  /** Blocks never go back. */
  predicate Chronological(xs: seq<Extrinsic>) {
    forall i, j :: 0 <= i < j < |xs| ==> xs[i].block <= xs[j].block
  }

  // ---------- what the events say ----------

  /** How often an id was registered; more than once means the id was reused. */
  function Registrations(events: seq<Event>, id: U32): nat {
    if events == [] then 0 else
      var e := events[|events| - 1];
      Registrations(events[..|events| - 1], id) + if e.AssetRegistered? && e.id == id then 1 else 0
  }

  /** How many transfers of `o` went to `o` itself. */
  function SelfTransfers(events: seq<Event>, o: AccountId): nat {
    if events == [] then 0 else
      var e := events[|events| - 1];
      SelfTransfers(events[..|events| - 1], o) +
      if e.OwnershipTransferred? && e.from == o && e.to == o then 1 else 0
  }

  /** Who holds `id` according to the events, if anybody. */
  function Holder(events: seq<Event>, id: U32): Option<AccountId> {
    if events == [] then None else HolderAfter(events[|events| - 1], id, Holder(events[..|events| - 1], id))
  }

  function HolderAfter(e: Event, id: U32, before: Option<AccountId>): Option<AccountId> {
    if e.id != id then before
    else match e
      case AssetRegistered(_, owner, _, _) => Some(owner)
      case OwnershipTransferred(_, _, to) => Some(to)
      case _ => before
  }

  /** How many assets `o` lost because their id was registered again while `o` held them. */
  function Overwritten(events: seq<Event>, o: AccountId): nat {
    if events == [] then 0 else
      var e, front := events[|events| - 1], events[..|events| - 1];
      Overwritten(front, o) + if e.AssetRegistered? && Holder(front, e.id) == Some(o) then 1 else 0
  }

  /** `o` lost `id` to somebody else's registration of it and did not hold it since. */
  predicate Displaced(events: seq<Event>, o: AccountId, id: U32) {
    events != [] &&
    var front := events[..|events| - 1];
    DisplacedAfter(events[|events| - 1], o, id, Holder(front, id) == Some(o), Displaced(front, o, id))
  }

  predicate DisplacedAfter(e: Event, o: AccountId, id: U32, held: bool, displaced: bool) {
    if e.AssetRegistered? && e.id == id then e.owner != o && (held || displaced)
    else displaced && !(e.OwnershipTransferred? && e.id == id && e.to == o)
  }

  /** The status an event announces, if any. */
  function Announced(e: Event): seq<Status> {
    match e
    case AssetRegistered(_, _, _, _) => [Pending]
    case AssetApproved(_, _) => [Approved]
    case AssetRejected(_, _, _) => [Rejected]
    case AssetSuspended(_, _, _) => [Suspended]
    case _ => []
  }

  /** The statuses an asset went through, as announced. */
  function Trail(events: seq<Event>, id: U32): seq<Status> {
    if events == [] then [] else
      var e := events[|events| - 1];
      Trail(events[..|events| - 1], id) + if e.id == id then Announced(e) else []
  }

  lemma RegistrationsAppend(events: seq<Event>, e: Event, id: U32)
    ensures Registrations(events + [e], id) ==
            Registrations(events, id) + if e.AssetRegistered? && e.id == id then 1 else 0
  {
    assert (events + [e])[..|events|] == events;
  }

  lemma DisplacedAppend(events: seq<Event>, e: Event, o: AccountId, id: U32)
    ensures Displaced(events + [e], o, id) <==>
            DisplacedAfter(e, o, id, Holder(events, id) == Some(o), Displaced(events, o, id))
  {
    assert (events + [e])[..|events|] == events;
  }

  /** What one more event does to everything counted on the events. */
  ghost predicate Noted(before: seq<Event>, after: seq<Event>, e: Event) {
    && (forall id: U32 :: Registrations(after, id) ==
          Registrations(before, id) + if e.AssetRegistered? && e.id == id then 1 else 0)
    && (forall id: U32 :: Holder(after, id) == HolderAfter(e, id, Holder(before, id)))
    && (forall o: AccountId, id: U32 :: Displaced(after, o, id) <==>
          DisplacedAfter(e, o, id, Holder(before, id) == Some(o), Displaced(before, o, id)))
    && (forall o: AccountId :: SelfTransfers(after, o) ==
          SelfTransfers(before, o) + if e.OwnershipTransferred? && e.from == o && e.to == o then 1 else 0)
    && (forall o: AccountId :: Overwritten(after, o) ==
          Overwritten(before, o) + if e.AssetRegistered? && Holder(before, e.id) == Some(o) then 1 else 0)
  }

  lemma NotedAppend(events: seq<Event>, e: Event)
    ensures Noted(events, events + [e], e)
  {
    assert (events + [e])[..|events|] == events;
  }
}
