/** What every reachable state of the asset registry satisfies. Ids are u32 and the counter
    saturates, so the id U32_MAX can be registered again; each statement says how often. */
module AssetInvariants {
  import opened Prelude
  import opened AssetRegistry

  // ---------- statements ----------

  /** The ids in use, and how often each was registered. */
  ghost predicate IdsInv(s: Registry) {
    && (forall id: U32 :: id in s.assets <==>
          id < s.nextId || (id == U32_MAX && Registrations(s.events, U32_MAX) > 0))
    && (Registrations(s.events, U32_MAX) > 0 ==> s.nextId == U32_MAX)
    && (forall id: U32 :: id < U32_MAX ==> Registrations(s.events, id) == if id < s.nextId then 1 else 0)
  }

  /** Every symbol entry names an asset with that symbol, and every asset's symbol has its entry. */
  ghost predicate SymbolIndexAgrees(s: Registry) {
    && (forall sym :: sym in s.bySymbol ==>
          s.bySymbol[sym] in s.assets && s.assets[s.bySymbol[sym]].symbol == sym)
    && (forall id :: id in s.assets ==>
          s.assets[id].symbol in s.bySymbol && s.bySymbol[s.assets[id].symbol] == id)
  }

  /** A symbol mapped to U32_MAX whose asset has another symbol. */
  ghost predicate StaleSymbol(s: Registry) {
    && U32_MAX in s.assets
    && exists sym :: sym in s.bySymbol && s.bySymbol[sym] == U32_MAX && s.assets[U32_MAX].symbol != sym
  }

  ghost predicate SymbolsInv(s: Registry) {
    if Registrations(s.events, U32_MAX) <= 1 then SymbolIndexAgrees(s) else StaleSymbol(s)
  }

  ghost predicate OwnerIndexAgrees(s: Registry) {
    forall o: AccountId, id: U32 :: (o, id) in s.byOwner <==> id in s.assets && s.assets[id].owner == o
  }

  /** The assets of `o`, by a scan. */
  function Owned(s: Registry, o: AccountId): set<U32> {
    set id | id in s.assets && s.assets[id].owner == o
  }

  /** The ids the owner index lists for `o`. */
  function Listed(byOwner: set<(AccountId, U32)>, o: AccountId): set<U32> {
    set p | p in byOwner && p.0 == o :: p.1
  }

  lemma ListedExact(byOwner: set<(AccountId, U32)>, o: AccountId, id: U32)
    ensures id in Listed(byOwner, o) <==> (o, id) in byOwner
  {
    if (o, id) in byOwner {
      assert (o, id).0 == o && (o, id).1 == id;
    }
  }

  /** The owner index lists `id` for `o` if `o` holds it, or was displaced from it, which takes
      a second registration of U32_MAX. */
  ghost predicate ListedOk(s: Registry, o: AccountId, id: U32) {
    && ((o, id) in s.byOwner <==> Holder(s.events, id) == Some(o) || Displaced(s.events, o, id))
    && (Displaced(s.events, o, id) ==>
          Holder(s.events, id) != Some(o) && id == U32_MAX && Registrations(s.events, U32_MAX) > 1)
  }

  ghost predicate OwnersInv(s: Registry) {
    forall o: AccountId, id: U32 :: ListedOk(s, o, id)
  }

  /** The events say who owns what. */
  ghost predicate HoldersInv(s: Registry) {
    forall id: U32 :: Holder(s.events, id) == if id in s.assets then Some(s.assets[id].owner) else None
  }

  /** The cached count is the true count, plus the owner's transfers to itself, plus the assets
      it lost to reuse of their id; and it is within the limit. */
  ghost predicate CountOk(cfg: Config, s: Registry, o: AccountId) {
    CountOf(s, o) == |Owned(s, o)| + SelfTransfers(s.events, o) + Overwritten(s.events, o) <= cfg.maxPerOwner
  }

  ghost predicate CountsInv(cfg: Config, s: Registry) {
    forall o: AccountId :: CountOk(cfg, s, o)
  }

  ghost predicate NothingOverwritten(s: Registry) {
    forall o: AccountId :: Overwritten(s.events, o) == 0
  }

  ghost predicate CountsAgree(s: Registry) {
    forall o: AccountId :: CountOf(s, o) == |Owned(s, o)| + SelfTransfers(s.events, o)
  }

  ghost predicate IndexesAgree(s: Registry) {
    SymbolIndexAgrees(s) && OwnerIndexAgrees(s) && CountsAgree(s)
  }

  /** Everything about an asset that no call changes. */
  ghost predicate SameTerms(a: Asset, b: Asset) {
    a.(owner := b.owner, status := b.status, metadata := b.metadata) == b
  }

  // ---------- quiet calls: those that keep every index ----------

  /** Owners, terms, indexes and everything counted on the events are as before. */
  ghost predicate Quiet(s: Registry, s': Registry, e: Event) {
    && s'.byOwner == s.byOwner && s'.countByOwner == s.countByOwner
    && s'.bySymbol == s.bySymbol && s'.nextId == s.nextId
    && s'.assets.Keys == s.assets.Keys
    && (forall id :: id in s.assets ==>
          s'.assets[id].owner == s.assets[id].owner && SameTerms(s.assets[id], s'.assets[id]))
    && !e.AssetRegistered? && !e.OwnershipTransferred? && Noted(s.events, s'.events, e)
  }

  ghost predicate IsQuiet(call: Call) {
    !call.Register? && !call.TransferOwnership?
  }

  lemma QuietStatus(s: Registry, id: U32, from: Status, otherwise: Error, to: Status, e: Event)
    requires SetStatus(s, id, from, otherwise, to, e).Ok? && !e.AssetRegistered? && !e.OwnershipTransferred?
    ensures Quiet(s, SetStatus(s, id, from, otherwise, to, e).value, e)
  {
    NotedAppend(s.events, e);
  }

  lemma QuietMetadata(cfg: Config, s: Registry, who: AccountId, id: U32, metadata: Bytes)
    requires SetMetadata(cfg, s, who, id, metadata).Ok?
    ensures Quiet(s, SetMetadata(cfg, s, who, id, metadata).value, MetadataUpdated(id, who))
  {
    NotedAppend(s.events, MetadataUpdated(id, who));
  }

  lemma QuietStep(cfg: Config, s: Registry, x: Extrinsic)
    requires IsQuiet(x.call) && Step(cfg, s, x).Ok?
    ensures |Step(cfg, s, x).value.events| > |s.events|
    ensures var s' := Step(cfg, s, x).value; Quiet(s, s', s'.events[|s.events|])
  {
    match x.call
    case Approve(id) => QuietStatus(s, id, Pending, AssetNotPending, Approved, AssetApproved(id, x.who));
    case Reject(id, reason) =>
      QuietStatus(s, id, Pending, AssetNotPending, Rejected, AssetRejected(id, x.who, reason));
    case Suspend(id, reason) =>
      QuietStatus(s, id, Approved, AssetNotApproved, Suspended, AssetSuspended(id, x.who, reason));
    case UpdateMetadata(id, metadata) => QuietMetadata(cfg, s, x.who, id, metadata);
  }

  lemma QuietOwned(s: Registry, s': Registry, e: Event, o: AccountId)
    requires Quiet(s, s', e)
    ensures Owned(s', o) == Owned(s, o)
  {
    SameIds(s, s', e);
  }

  lemma QuietCounts(cfg: Config, s: Registry, s': Registry, e: Event)
    requires Quiet(s, s', e) && CountsInv(cfg, s)
    ensures CountsInv(cfg, s')
  {
    forall o: AccountId
      ensures CountOk(cfg, s', o)
    {
      QuietOwned(s, s', e, o);
      assert CountOk(cfg, s, o) && CountOf(s', o) == CountOf(s, o);
    }
  }

  lemma QuietOwners(s: Registry, s': Registry, e: Event)
    requires Quiet(s, s', e) && OwnersInv(s)
    ensures OwnersInv(s')
  {
    forall o: AccountId, id: U32
      ensures ListedOk(s', o, id)
    {
      assert ListedOk(s, o, id);
    }
  }

  lemma QuietKeeps(s: Registry, s': Registry, e: Event)
    requires Quiet(s, s', e)
    ensures IdsInv(s) ==> IdsInv(s')
    ensures HoldersInv(s) ==> HoldersInv(s')
    ensures NothingOverwritten(s) ==> NothingOverwritten(s')
  {
    SameIds(s, s', e);
  }

  lemma SameIds(s: Registry, s': Registry, e: Event)
    requires Quiet(s, s', e)
    ensures forall id :: id in s.assets <==> id in s'.assets
  {
    assert s.assets.Keys == s'.assets.Keys;
  }

  lemma QuietSymbols(s: Registry, s': Registry, e: Event)
    requires Quiet(s, s', e) && SymbolsInv(s)
    ensures SymbolsInv(s')
  {
    SameIds(s, s', e);
    if StaleSymbol(s) {
      var sym :| sym in s.bySymbol && s.bySymbol[sym] == U32_MAX && s.assets[U32_MAX].symbol != sym;
      assert sym in s'.bySymbol && s'.assets[U32_MAX].symbol != sym;
    }
  }

  // ---------- registration ----------

  /** What a successful registration amounts to. */
  ghost predicate Adds(cfg: Config, s: Registry, s': Registry, who: AccountId, a: Asset) {
    && s'.assets == s.assets[s.nextId := a]
    && a.owner == who && a.status == Pending
    && a.symbol !in s.bySymbol && s'.bySymbol == s.bySymbol[a.symbol := s.nextId]
    && s'.byOwner == s.byOwner + {(who, s.nextId)}
    && CountOf(s, who) < cfg.maxPerOwner
    && (forall o: AccountId :: CountOf(s', o) == CountOf(s, o) + if o == who then 1 else 0)
    && s'.nextId == SatAdd(s.nextId, 1)
    && Noted(s.events, s'.events, AssetRegistered(s.nextId, who, a.name, a.symbol))
  }

  /** The terms of an asset are those given at its registration. */
  ghost predicate FiledTerms(a: Asset, now: nat, d: Details) {
    && a.registeredAt == now
    && a.name == d.name && a.symbol == d.symbol && a.description == d.description
    && a.decimals == d.decimals && a.totalSupply == d.totalSupply
    && (a.isTransferable <==> d.isTransferable)
    && (a.isMintable <==> d.isMintable)
    && (a.isBurnable <==> d.isBurnable)
  }

  /** Every field of a new asset as the call gave it. */
  ghost predicate Filed(a: Asset, who: AccountId, now: nat, d: Details) {
    a.owner == who && a.status == Pending && a.metadata == d.metadata && FiledTerms(a, now, d)
  }

  lemma RegisterAdds(cfg: Config, s: Registry, x: Extrinsic)
    requires x.call.Register? && Step(cfg, s, x).Ok?
    ensures s.nextId in Step(cfg, s, x).value.assets
    ensures var s' := Step(cfg, s, x).value;
            var a := s'.assets[s.nextId];
            Adds(cfg, s, s', x.who, a) && Filed(a, x.who, x.block, x.call.details)
  {
    var d := x.call.details;
    NotedAppend(s.events, AssetRegistered(s.nextId, x.who, d.name, d.symbol));
  }

  /** A registration that is not the second one of U32_MAX takes a fresh id. */
  lemma FreshId(s: Registry)
    requires IdsInv(s)
    ensures s.nextId in s.assets <==> Registrations(s.events, U32_MAX) > 0
  {
  }

  lemma AddsIds(cfg: Config, s: Registry, s': Registry, who: AccountId, a: Asset)
    requires IdsInv(s) && Adds(cfg, s, s', who, a)
    ensures IdsInv(s')
  {
  }

  lemma AddsHolders(cfg: Config, s: Registry, s': Registry, who: AccountId, a: Asset)
    requires HoldersInv(s) && Adds(cfg, s, s', who, a)
    ensures HoldersInv(s')
  {
  }

  lemma AddsSymbols(cfg: Config, s: Registry, s': Registry, who: AccountId, a: Asset)
    requires IdsInv(s) && SymbolsInv(s) && Adds(cfg, s, s', who, a)
    ensures SymbolsInv(s')
  {
    FreshId(s);
    if Registrations(s.events, U32_MAX) >= 1 {
      var sym := SymbolOfLast(s);
      SymbolGoesStale(cfg, s, s', who, a, sym);
    } else {
      SymbolIndexGrows(cfg, s, s', who, a);
    }
  }

  lemma SymbolIndexGrows(cfg: Config, s: Registry, s': Registry, who: AccountId, a: Asset)
    requires SymbolIndexAgrees(s) && s.nextId !in s.assets && Adds(cfg, s, s', who, a)
    ensures SymbolIndexAgrees(s')
  {
  }

  /** Once U32_MAX is registered some symbol is mapped to it. */
  lemma SymbolOfLast(s: Registry) returns (sym: Bytes)
    requires IdsInv(s) && SymbolsInv(s) && Registrations(s.events, U32_MAX) >= 1
    ensures sym in s.bySymbol && s.bySymbol[sym] == U32_MAX
  {
    if Registrations(s.events, U32_MAX) == 1 {
      sym := s.assets[U32_MAX].symbol;
    } else {
      sym :| sym in s.bySymbol && s.bySymbol[sym] == U32_MAX && s.assets[U32_MAX].symbol != sym;
    }
  }

  /** Registering U32_MAX again takes another symbol and leaves the former one mapped to it. */
  lemma SymbolGoesStale(cfg: Config, s: Registry, s': Registry, who: AccountId, a: Asset, sym: Bytes)
    requires Adds(cfg, s, s', who, a) && s.nextId == U32_MAX
    requires sym in s.bySymbol && s.bySymbol[sym] == U32_MAX
    ensures StaleSymbol(s')
  {
    assert sym in s'.bySymbol && s'.bySymbol[sym] == U32_MAX && s'.assets[U32_MAX].symbol != sym;
  }

  /** One asset of `s` has another owner in `s'`; all others are as they were. */
  lemma OwnedChanges(s: Registry, s': Registry, id: U32, o: AccountId)
    requires id in s'.assets && s'.assets == s.assets[id := s'.assets[id]]
    ensures |Owned(s', o)| == |Owned(s, o)|
            + (if s'.assets[id].owner == o then 1 else 0)
            - (if id in s.assets && s.assets[id].owner == o then 1 else 0)
  {
    var before, after := Owned(s, o), Owned(s', o);
    assert before - {id} == after - {id} by { OthersOwned(s, s', id, o); }
    assert |before| == |before - {id}| + if id in before then 1 else 0;
    assert |after| == |after - {id}| + if id in after then 1 else 0;
  }

  lemma OthersOwned(s: Registry, s': Registry, id: U32, o: AccountId)
    requires id in s'.assets && s'.assets == s.assets[id := s'.assets[id]]
    ensures Owned(s, o) - {id} == Owned(s', o) - {id}
  {
  }

  function HasAsset(s: Registry, id: U32, o: AccountId): int {
    if id in s.assets && s.assets[id].owner == o then 1 else 0
  }

  /** A count that changed by what it should stays right. */
  lemma CountFollows(cfg: Config, s: Registry, s': Registry, id: U32, o: AccountId)
    requires CountOk(cfg, s, o) && id in s'.assets && s'.assets == s.assets[id := s'.assets[id]]
    requires CountOf(s', o) - CountOf(s, o) ==
             HasAsset(s', id, o) - HasAsset(s, id, o)
             + SelfTransfers(s'.events, o) - SelfTransfers(s.events, o)
             + Overwritten(s'.events, o) - Overwritten(s.events, o)
    requires CountOf(s', o) <= cfg.maxPerOwner
    ensures CountOk(cfg, s', o)
  {
    OwnedChanges(s, s', id, o);
  }

  lemma AddsCount(cfg: Config, s: Registry, s': Registry, who: AccountId, a: Asset, o: AccountId)
    requires HoldersInv(s) && CountOk(cfg, s, o) && Adds(cfg, s, s', who, a)
    ensures CountOk(cfg, s', o)
  {
    assert Holder(s.events, s.nextId) ==
           if s.nextId in s.assets then Some(s.assets[s.nextId].owner) else None;
    CountFollows(cfg, s, s', s.nextId, o);
  }

  lemma AddsCounts(cfg: Config, s: Registry, s': Registry, who: AccountId, a: Asset)
    requires HoldersInv(s) && CountsInv(cfg, s) && Adds(cfg, s, s', who, a)
    ensures CountsInv(cfg, s')
  {
    forall o: AccountId
      ensures CountOk(cfg, s', o)
    {
      assert CountOk(cfg, s, o);
      AddsCount(cfg, s, s', who, a, o);
    }
  }

  lemma AddsOwners(cfg: Config, s: Registry, s': Registry, who: AccountId, a: Asset)
    requires IdsInv(s) && HoldersInv(s) && OwnersInv(s) && Adds(cfg, s, s', who, a)
    ensures OwnersInv(s')
  {
    forall o: AccountId, id: U32
      ensures ListedOk(s', o, id)
    {
      assert ListedOk(s, o, id);
    }
  }

  lemma AddsOverwrites(cfg: Config, s: Registry, s': Registry, who: AccountId, a: Asset)
    requires s.nextId !in s.assets && Adds(cfg, s, s', who, a) && HoldersInv(s) && NothingOverwritten(s)
    ensures NothingOverwritten(s')
  {
    assert Holder(s.events, s.nextId) == None;
    forall o: AccountId
      ensures Overwritten(s'.events, o) == 0
    {
      assert Overwritten(s.events, o) == 0;
    }
  }

  // ---------- transfer of ownership ----------

  /** What a successful transfer amounts to, the counts in saturating arithmetic. */
  ghost predicate Moves(cfg: Config, s: Registry, s': Registry, id: U32, newOwner: AccountId) {
    && id in s.assets && s'.assets == s.assets[id := s.assets[id].(owner := newOwner)]
    && var former := s.assets[id].owner;
    && s'.bySymbol == s.bySymbol && s'.nextId == s.nextId
    && s'.byOwner == s.byOwner - {(former, id)} + {(newOwner, id)}
    && CountOf(s, newOwner) < cfg.maxPerOwner
    && (forall o: AccountId :: CountOf(s', o) ==
          if o == newOwner then SatAdd(CountOf(s, o), 1)
          else if o == former then SatSub(CountOf(s, o), 1) else CountOf(s, o))
    && Noted(s.events, s'.events, OwnershipTransferred(id, former, newOwner))
  }

  lemma TransferMoves(cfg: Config, s: Registry, who: AccountId, id: U32, newOwner: AccountId)
    requires Transfer(cfg, s, who, id, newOwner).Ok?
    ensures Moves(cfg, s, Transfer(cfg, s, who, id, newOwner).value, id, newOwner)
  {
    NotedAppend(s.events, OwnershipTransferred(id, who, newOwner));
  }

  /** The owner's count is positive, so neither count saturates. */
  lemma MovesExactly(cfg: Config, s: Registry, s': Registry, id: U32, newOwner: AccountId)
    requires CountsInv(cfg, s) && Moves(cfg, s, s', id, newOwner)
    ensures var former := s.assets[id].owner;
            && CountOf(s, former) >= 1
            && forall o: AccountId :: CountOf(s', o) ==
                 CountOf(s, o) + if o == newOwner then 1 else if o == former then -1 else 0
  {
    var former := s.assets[id].owner;
    assert CountOk(cfg, s, former);
    assert id in Owned(s, former);
  }

  lemma MovesCount(cfg: Config, s: Registry, s': Registry, id: U32, newOwner: AccountId, o: AccountId)
    requires CountOk(cfg, s, o) && Moves(cfg, s, s', id, newOwner)
    requires CountOf(s', o) == CountOf(s, o) + if o == newOwner then 1 else if o == s.assets[id].owner then -1 else 0
    ensures CountOk(cfg, s', o)
  {
    CountFollows(cfg, s, s', id, o);
  }

  lemma MovesCounts(cfg: Config, s: Registry, s': Registry, id: U32, newOwner: AccountId)
    requires CountsInv(cfg, s) && Moves(cfg, s, s', id, newOwner)
    ensures CountsInv(cfg, s')
  {
    MovesExactly(cfg, s, s', id, newOwner);
    forall o: AccountId
      ensures CountOk(cfg, s', o)
    {
      assert CountOk(cfg, s, o);
      MovesCount(cfg, s, s', id, newOwner, o);
    }
  }

  lemma MovesOwners(cfg: Config, s: Registry, s': Registry, id: U32, newOwner: AccountId)
    requires HoldersInv(s) && OwnersInv(s) && Moves(cfg, s, s', id, newOwner)
    ensures OwnersInv(s')
  {
    forall o: AccountId, i: U32
      ensures ListedOk(s', o, i)
    {
      assert ListedOk(s, o, i);
    }
  }

  lemma MovesOverwrites(cfg: Config, s: Registry, s': Registry, id: U32, newOwner: AccountId)
    requires NothingOverwritten(s) && Moves(cfg, s, s', id, newOwner)
    ensures NothingOverwritten(s')
  {
    forall o: AccountId
      ensures Overwritten(s'.events, o) == 0
    {
      assert Overwritten(s.events, o) == 0;
    }
  }

  lemma MovesIds(cfg: Config, s: Registry, s': Registry, id: U32, newOwner: AccountId)
    requires IdsInv(s) && Moves(cfg, s, s', id, newOwner)
    ensures IdsInv(s')
  {
  }

  lemma MovesHolders(cfg: Config, s: Registry, s': Registry, id: U32, newOwner: AccountId)
    requires HoldersInv(s) && Moves(cfg, s, s', id, newOwner)
    ensures HoldersInv(s')
  {
  }

  lemma MovesSymbols(cfg: Config, s: Registry, s': Registry, id: U32, newOwner: AccountId)
    requires SymbolsInv(s) && Moves(cfg, s, s', id, newOwner)
    ensures SymbolsInv(s')
  {
    if StaleSymbol(s) {
      var sym :| sym in s.bySymbol && s.bySymbol[sym] == U32_MAX && s.assets[U32_MAX].symbol != sym;
      assert sym in s'.bySymbol && s'.assets[U32_MAX].symbol != sym;
    }
  }

  // ---------- every run ----------

  ghost predicate IndexInv(cfg: Config, s: Registry) {
    && IdsInv(s)
    && SymbolsInv(s)
    && HoldersInv(s)
    && OwnersInv(s)
    && CountsInv(cfg, s)
    && (Registrations(s.events, U32_MAX) <= 1 ==> NothingOverwritten(s))
  }

  lemma GenesisInv(cfg: Config)
    ensures IndexInv(cfg, GENESIS)
  {
    forall o: AccountId
      ensures CountOk(cfg, GENESIS, o)
    {
      assert Owned(GENESIS, o) == {};
    }
  }

  lemma AddsInv(cfg: Config, s: Registry, s': Registry, who: AccountId, a: Asset)
    requires IndexInv(cfg, s) && Adds(cfg, s, s', who, a)
    ensures IndexInv(cfg, s')
  {
    FreshId(s);
    AddsIds(cfg, s, s', who, a);
    AddsHolders(cfg, s, s', who, a);
    AddsSymbols(cfg, s, s', who, a);
    AddsOwners(cfg, s, s', who, a);
    AddsCounts(cfg, s, s', who, a);
    if Registrations(s'.events, U32_MAX) <= 1 {
      AddsOverwrites(cfg, s, s', who, a);
    }
  }

  lemma MovesInv(cfg: Config, s: Registry, s': Registry, id: U32, newOwner: AccountId)
    requires IndexInv(cfg, s) && Moves(cfg, s, s', id, newOwner)
    ensures IndexInv(cfg, s')
  {
    MovesIds(cfg, s, s', id, newOwner);
    MovesHolders(cfg, s, s', id, newOwner);
    MovesSymbols(cfg, s, s', id, newOwner);
    MovesOwners(cfg, s, s', id, newOwner);
    MovesCounts(cfg, s, s', id, newOwner);
    if Registrations(s'.events, U32_MAX) <= 1 {
      MovesOverwrites(cfg, s, s', id, newOwner);
    }
  }

  lemma StepInv(cfg: Config, s: Registry, x: Extrinsic)
    requires IndexInv(cfg, s) && Step(cfg, s, x).Ok?
    ensures IndexInv(cfg, Step(cfg, s, x).value)
  {
    var s' := Step(cfg, s, x).value;
    if x.call.Register? {
      RegisterAdds(cfg, s, x);
      AddsInv(cfg, s, s', x.who, s'.assets[s.nextId]);
    } else if x.call.TransferOwnership? {
      TransferMoves(cfg, s, x.who, x.call.id, x.call.newOwner);
      MovesInv(cfg, s, s', x.call.id, x.call.newOwner);
    } else {
      QuietStep(cfg, s, x);
      QuietKeeps(s, s', s'.events[|s.events|]);
      QuietSymbols(s, s', s'.events[|s.events|]);
      QuietOwners(s, s', s'.events[|s.events|]);
      QuietCounts(cfg, s, s', s'.events[|s.events|]);
    }
  }

  lemma NextInv(cfg: Config, s: Registry, x: Extrinsic)
    requires IndexInv(cfg, s)
    ensures IndexInv(cfg, Next(cfg, s, x))
  {
    if Step(cfg, s, x).Ok? {
      StepInv(cfg, s, x);
    }
  }

  lemma {:induction false} RunInv(cfg: Config, s: Registry, xs: seq<Extrinsic>)
    requires IndexInv(cfg, s)
    ensures IndexInv(cfg, Run(cfg, s, xs))
  {
    if xs != [] {
      RunInv(cfg, s, xs[..|xs| - 1]);
      NextInv(cfg, Run(cfg, s, xs[..|xs| - 1]), xs[|xs| - 1]);
    }
  }

  lemma ReachedInv(cfg: Config, s: Registry)
    requires Reached(cfg, s)
    ensures IndexInv(cfg, s)
  {
    var xs :| s == Run(cfg, GENESIS, xs);
    GenesisInv(cfg);
    RunInv(cfg, GENESIS, xs);
  }
}
