/** What each call of the asset registry needs, answers and stores, told from the events. */
module AssetCalls {
  import opened Prelude
  import opened AssetRegistry
  import opened AssetInvariants
  import opened AssetHistories

  // ---------- counters and symbols told from the events ----------

  function RegisteredInAll(events: seq<Event>): nat {
    if events == [] then 0 else
      RegisteredInAll(events[..|events| - 1]) + if events[|events| - 1].AssetRegistered? then 1 else 0
  }

  /** The symbols ever registered. */
  function Symbols(events: seq<Event>): set<Bytes> {
    if events == [] then {} else
      var e := events[|events| - 1];
      Symbols(events[..|events| - 1]) + if e.AssetRegistered? then {e.symbol} else {}
  }

  /** The status announced last for `id`; None if nothing was announced. */
  function CurrentStatus(events: seq<Event>, id: U32): Option<Status> {
    var t := Trail(events, id);
    if t == [] then None else Some(t[|t| - 1])
  }

  /** The next id is the number of registrations, as far as a u32 counts them, and no symbol
      once registered is ever free again. */
  ghost predicate CountersTold(s: Registry) {
    && s.nextId == Min(RegisteredInAll(s.events), U32_MAX)
    && s.bySymbol.Keys == Symbols(s.events)
  }

  lemma CountersAppend(events: seq<Event>, e: Event)
    ensures RegisteredInAll(events + [e]) == RegisteredInAll(events) + if e.AssetRegistered? then 1 else 0
    ensures Symbols(events + [e]) == Symbols(events) + if e.AssetRegistered? then {e.symbol} else {}
  {
    assert (events + [e])[..|events|] == events;
  }

  lemma StepCounters(cfg: Config, s: Registry, x: Extrinsic)
    requires CountersTold(s) && Step(cfg, s, x).Ok?
    ensures CountersTold(Step(cfg, s, x).value)
  {
    TouchesOne(cfg, s, x);
    CountersAppend(s.events, Deposited(cfg, s, x));
  }

  lemma {:induction false} RunCounters(cfg: Config, xs: seq<Extrinsic>)
    ensures CountersTold(Run(cfg, GENESIS, xs))
  {
    if xs != [] {
      var front := xs[..|xs| - 1];
      RunCounters(cfg, front);
      if Step(cfg, Run(cfg, GENESIS, front), xs[|xs| - 1]).Ok? {
        StepCounters(cfg, Run(cfg, GENESIS, front), xs[|xs| - 1]);
      }
    }
  }

  lemma ReachedCounters(cfg: Config, s: Registry)
    requires Reached(cfg, s)
    ensures CountersTold(s)
  {
    var xs :| s == Run(cfg, GENESIS, xs);
    RunCounters(cfg, xs);
  }

  lemma ReachedHistory(cfg: Config, s: Registry, id: U32)
    requires Reached(cfg, s)
    ensures CurrentStatus(s.events, id) == if id in s.assets then Some(s.assets[id].status) else None
    ensures Holder(s.events, id) == if id in s.assets then Some(s.assets[id].owner) else None
  {
    var xs :| s == Run(cfg, GENESIS, xs);
    RunHistoryOk(cfg, xs, id);
    ReachedInv(cfg, s);
  }

  // ---------- what each call needs ----------

  /** The count `TooManyAssetsPerOwner` is decided on. */
  ghost function Counted(s: Registry, o: AccountId): nat {
    |Owned(s, o)| + SelfTransfers(s.events, o) + Overwritten(s.events, o)
  }

  lemma CountIsCounted(cfg: Config, s: Registry, o: AccountId)
    requires Reached(cfg, s)
    ensures CountOf(s, o) == Counted(s, o)
  {
    ReachedInv(cfg, s);
    assert CountOk(cfg, s, o);
  }

  lemma RegisterDecided(cfg: Config, s: Registry, who: AccountId, now: nat, d: Details)
    requires Reached(cfg, s)
    ensures Decides(Step(cfg, s, Extrinsic(who, now, Register(d))), Passed
      .Need(d.name != [], AssetNameEmpty)
      .Need(d.symbol != [], AssetSymbolEmpty)
      .Need(|d.name| <= cfg.maxName, AssetNameTooLong)
      .Need(|d.symbol| <= cfg.maxSymbol, AssetSymbolTooLong)
      .Need(|d.description| <= cfg.maxDescription, AssetDescriptionTooLong)
      .Need(|d.metadata| <= cfg.maxMetadata, AssetMetadataTooLong)
      .Need(d.decimals <= 18, InvalidDecimals)
      .Need(d.totalSupply > 0, TotalSupplyZero)
      .Need(d.symbol !in Symbols(s.events), AssetSymbolExists)
      .Need(Counted(s, who) < cfg.maxPerOwner, TooManyAssetsPerOwner))
  {
    ReachedCounters(cfg, s);
    CountIsCounted(cfg, s, who);
  }

  lemma StatusDecided(cfg: Config, s: Registry, who: AccountId, now: nat, id: U32, reason: Bytes)
    requires Reached(cfg, s)
    ensures Decides(Step(cfg, s, Extrinsic(who, now, Approve(id))), Passed
      .Need(CurrentStatus(s.events, id) != None, AssetNotFound)
      .Need(CurrentStatus(s.events, id) == Some(Pending), AssetNotPending))
    ensures Decides(Step(cfg, s, Extrinsic(who, now, Reject(id, reason))), Passed
      .Need(CurrentStatus(s.events, id) != None, AssetNotFound)
      .Need(CurrentStatus(s.events, id) == Some(Pending), AssetNotPending))
    ensures Decides(Step(cfg, s, Extrinsic(who, now, Suspend(id, reason))), Passed
      .Need(CurrentStatus(s.events, id) != None, AssetNotFound)
      .Need(CurrentStatus(s.events, id) == Some(Approved), AssetNotApproved))
  {
    ReachedHistory(cfg, s, id);
  }

  lemma MetadataDecided(cfg: Config, s: Registry, who: AccountId, now: nat, id: U32, metadata: Bytes)
    requires Reached(cfg, s)
    ensures Decides(Step(cfg, s, Extrinsic(who, now, UpdateMetadata(id, metadata))), Passed
      .Need(Holder(s.events, id) != None, AssetNotFound)
      .Need(Holder(s.events, id) == Some(who), NotAssetOwner)
      .Need(|metadata| <= cfg.maxMetadata, AssetMetadataTooLong))
  {
    ReachedHistory(cfg, s, id);
  }

  lemma TransferDecided(cfg: Config, s: Registry, who: AccountId, now: nat, id: U32, newOwner: AccountId)
    requires Reached(cfg, s)
    ensures Decides(Step(cfg, s, Extrinsic(who, now, TransferOwnership(id, newOwner))), Passed
      .Need(Holder(s.events, id) != None, AssetNotFound)
      .Need(Holder(s.events, id) == Some(who), NotAssetOwner)
      .Need(Counted(s, newOwner) < cfg.maxPerOwner, TooManyAssetsPerOwner))
  {
    ReachedHistory(cfg, s, id);
    CountIsCounted(cfg, s, newOwner);
  }

  // ---------- where events and stored fields come from ----------

  /** Call `n` of the run deposited event `k`; the events before it are those before the call. */
  ghost predicate OriginAt(cfg: Config, xs: seq<Extrinsic>, n: nat, k: nat) {
    && n < |xs|
    && var s := Run(cfg, GENESIS, xs[..n]);
       Step(cfg, s, xs[n]).Ok? && Deposits(s.events, Deposited(cfg, s, xs[n]), Run(cfg, GENESIS, xs).events, k)
  }

  /** `e` is the entry at `k` of `log`, behind `before`. */
  ghost predicate Deposits(before: seq<Event>, e: Event, log: seq<Event>, k: nat) {
    k < |log| && log[k] == e && log[..k] == before
  }

  lemma DepositsGrow(before: seq<Event>, e: Event, log: seq<Event>, more: seq<Event>, k: nat)
    requires Deposits(before, e, log, k) && log <= more
    ensures Deposits(before, e, more, k)
  {
    assert more[..k] == log[..k];
  }

  lemma EventsGrow(cfg: Config, s: Registry, x: Extrinsic)
    ensures s.events <= Next(cfg, s, x).events
  {
    if Step(cfg, s, x).Ok? {
      TouchesOne(cfg, s, x);
    }
  }

  lemma OriginStays(cfg: Config, front: seq<Extrinsic>, x: Extrinsic, n: nat, k: nat)
    requires OriginAt(cfg, front, n, k)
    ensures OriginAt(cfg, front + [x], n, k)
  {
    RunSnoc(cfg, GENESIS, front, x);
    EventsGrow(cfg, Run(cfg, GENESIS, front), x);
    assert (front + [x])[..n] == front[..n];
    var s := Run(cfg, GENESIS, front[..n]);
    DepositsGrow(s.events, Deposited(cfg, s, front[n]), Run(cfg, GENESIS, front).events,
                 Run(cfg, GENESIS, front + [x]).events, k);
  }

  lemma OriginNow(cfg: Config, front: seq<Extrinsic>, x: Extrinsic, k: nat)
    requires var s := Run(cfg, GENESIS, front); |s.events| <= k < |Next(cfg, s, x).events|
    ensures OriginAt(cfg, front + [x], |front|, k)
  {
    RunSnoc(cfg, GENESIS, front, x);
    TouchesOne(cfg, Run(cfg, GENESIS, front), x);
    assert (front + [x])[..|front|] == front;
  }

  /** Every event of a run was deposited by a successful call of it. */
  lemma {:induction false} EventOrigin(cfg: Config, xs: seq<Extrinsic>, k: nat) returns (n: nat)
    requires k < |Run(cfg, GENESIS, xs).events|
    ensures OriginAt(cfg, xs, n, k)
  {
    var front, x := xs[..|xs| - 1], xs[|xs| - 1];
    assert xs == front + [x];
    if k < |Run(cfg, GENESIS, front).events| {
      n := EventOrigin(cfg, front, k);
      OriginStays(cfg, front, x, n, k);
    } else {
      n := |front|;
      OriginNow(cfg, front, x, k);
    }
  }

  /** What the events before it must say for `who` to have an event deposited. */
  ghost predicate LegalEvent(before: seq<Event>, e: Event, who: AccountId) {
    match e
    case AssetRegistered(id, owner, name, symbol) =>
      && owner == who && id == Min(RegisteredInAll(before), U32_MAX)
      && name != [] && symbol != [] && symbol !in Symbols(before)
    case AssetApproved(id, approver) => approver == who && CurrentStatus(before, id) == Some(Pending)
    case AssetRejected(id, rejector, _) => rejector == who && CurrentStatus(before, id) == Some(Pending)
    case AssetSuspended(id, suspender, _) => suspender == who && CurrentStatus(before, id) == Some(Approved)
    case MetadataUpdated(id, updater) => updater == who && Holder(before, id) == Some(who)
    case OwnershipTransferred(id, from, _) => from == who && Holder(before, id) == Some(who)
  }

  lemma LegalDeposit(cfg: Config, s: Registry, x: Extrinsic)
    requires Reached(cfg, s) && Step(cfg, s, x).Ok?
    ensures LegalEvent(s.events, Deposited(cfg, s, x), x.who)
  {
    match x.call
    case Register(d) => RegisterDecided(cfg, s, x.who, x.block, d); ReachedCounters(cfg, s);
    case Approve(id) => StatusDecided(cfg, s, x.who, x.block, id, []);
    case Reject(id, reason) => StatusDecided(cfg, s, x.who, x.block, id, reason);
    case Suspend(id, reason) => StatusDecided(cfg, s, x.who, x.block, id, reason);
    case UpdateMetadata(id, metadata) => MetadataDecided(cfg, s, x.who, x.block, id, metadata);
    case TransferOwnership(id, newOwner) => TransferDecided(cfg, s, x.who, x.block, id, newOwner);
  }

  /** Over every run each event is legal given those before it: ids are assigned in order,
      symbols are new, the status allows the change, and whoever updates metadata or transfers
      holds the asset at that moment. */
  lemma {:induction false} LogIsLegal(cfg: Config, xs: seq<Extrinsic>, k: nat) returns (n: nat)
    requires k < |Run(cfg, GENESIS, xs).events|
    ensures OriginAt(cfg, xs, n, k)
    ensures LegalEvent(Run(cfg, GENESIS, xs).events[..k], Run(cfg, GENESIS, xs).events[k], xs[n].who)
  {
    n := EventOrigin(cfg, xs, k);
    assert Reached(cfg, Run(cfg, GENESIS, xs[..n]));
    LegalDeposit(cfg, Run(cfg, GENESIS, xs[..n]), xs[n]);
  }

  /** Call `x` at `s` registers `id`. */
  ghost predicate Files(cfg: Config, s: Registry, x: Extrinsic, id: U32) {
    x.call.Register? && s.nextId == id && Step(cfg, s, x).Ok?
  }

  /** Call `x` at `s` writes the metadata `m` of `id`. */
  ghost predicate WritesMetadata(cfg: Config, s: Registry, x: Extrinsic, id: U32, m: Bytes) {
    || (Files(cfg, s, x, id) && x.call.details.metadata == m)
    || (x.call == UpdateMetadata(id, m) && Step(cfg, s, x).Ok?)
  }

  function MetadataWrites(events: seq<Event>, id: U32): nat {
    if events == [] then 0 else
      var e := events[|events| - 1];
      MetadataWrites(events[..|events| - 1], id) +
      if e.id == id && (e.AssetRegistered? || e.MetadataUpdated?) then 1 else 0
  }

  lemma MetadataWritesAppend(events: seq<Event>, e: Event, id: U32)
    ensures MetadataWrites(events + [e], id) ==
            MetadataWrites(events, id) + if e.id == id && (e.AssetRegistered? || e.MetadataUpdated?) then 1 else 0
  {
    assert (events + [e])[..|events|] == events;
  }

  /** Call `n` of the run is the last one to register `id`, and it gave the terms of the asset. */
  ghost predicate FiledAt(cfg: Config, xs: seq<Extrinsic>, n: nat, id: U32) {
    && n < |xs| && Files(cfg, Run(cfg, GENESIS, xs[..n]), xs[n], id)
    && id in Run(cfg, GENESIS, xs).assets
    && FiledTerms(Run(cfg, GENESIS, xs).assets[id], xs[n].block, xs[n].call.details)
    && Registrations(Run(cfg, GENESIS, xs).events, id) == Registrations(Run(cfg, GENESIS, xs[..n]).events, id) + 1
  }

  lemma FiledNow(cfg: Config, front: seq<Extrinsic>, x: Extrinsic, id: U32)
    requires Files(cfg, Run(cfg, GENESIS, front), x, id)
    ensures FiledAt(cfg, front + [x], |front|, id)
  {
    var s := Run(cfg, GENESIS, front);
    RunSnoc(cfg, GENESIS, front, x);
    RegisterAdds(cfg, s, x);
    assert (front + [x])[..|front|] == front;
  }

  /** A call that does not register `id` keeps its terms and its number of registrations. */
  lemma TermsStay(cfg: Config, s: Registry, x: Extrinsic, id: U32)
    requires id in s.assets && !Files(cfg, s, x, id)
    ensures var s' := Next(cfg, s, x);
            && id in s'.assets && SameTerms(s.assets[id], s'.assets[id])
            && Registrations(s'.events, id) == Registrations(s.events, id)
  {
    if Step(cfg, s, x).Ok? {
      TouchesOne(cfg, s, x);
      RegistrationsAppend(s.events, Deposited(cfg, s, x), id);
    }
  }

  lemma FiledStays(cfg: Config, front: seq<Extrinsic>, x: Extrinsic, n: nat, id: U32)
    requires FiledAt(cfg, front, n, id) && !Files(cfg, Run(cfg, GENESIS, front), x, id)
    ensures FiledAt(cfg, front + [x], n, id)
  {
    RunSnoc(cfg, GENESIS, front, x);
    TermsStay(cfg, Run(cfg, GENESIS, front), x, id);
    assert (front + [x])[..n] == front[..n];
  }

  /** The terms of every stored asset are those of the last successful registration of its id. */
  lemma {:induction false} TermsAreFiled(cfg: Config, xs: seq<Extrinsic>, id: U32) returns (n: nat)
    requires id in Run(cfg, GENESIS, xs).assets
    ensures FiledAt(cfg, xs, n, id)
  {
    var front, x := xs[..|xs| - 1], xs[|xs| - 1];
    assert xs == front + [x];
    var s := Run(cfg, GENESIS, front);
    if Files(cfg, s, x, id) {
      n := |front|;
      FiledNow(cfg, front, x, id);
    } else {
      AssetWasThere(cfg, s, x, id);
      n := TermsAreFiled(cfg, front, id);
      FiledStays(cfg, front, x, n, id);
    }
  }

  lemma AssetWasThere(cfg: Config, s: Registry, x: Extrinsic, id: U32)
    requires id in Next(cfg, s, x).assets && !Files(cfg, s, x, id)
    ensures id in s.assets
  {
    if Step(cfg, s, x).Ok? {
      TouchesOne(cfg, s, x);
    }
  }

  /** Call `n` of the run is the last one to write the metadata of `id`. */
  ghost predicate WrittenAt(cfg: Config, xs: seq<Extrinsic>, n: nat, id: U32) {
    && n < |xs| && id in Run(cfg, GENESIS, xs).assets
    && WritesMetadata(cfg, Run(cfg, GENESIS, xs[..n]), xs[n], id, Run(cfg, GENESIS, xs).assets[id].metadata)
    && MetadataWrites(Run(cfg, GENESIS, xs).events, id) == MetadataWrites(Run(cfg, GENESIS, xs[..n]).events, id) + 1
  }

  /** One call: either it writes the metadata that is then stored, or the metadata stays. */
  ghost predicate MetadataFollows(cfg: Config, s: Registry, x: Extrinsic, id: U32) {
    var s' := Next(cfg, s, x);
    id in s'.assets ==>
      if MetadataWrites(s'.events, id) == MetadataWrites(s.events, id) then
        id in s.assets && s'.assets[id].metadata == s.assets[id].metadata
      else
        && WritesMetadata(cfg, s, x, id, s'.assets[id].metadata)
        && MetadataWrites(s'.events, id) == MetadataWrites(s.events, id) + 1
  }

  lemma RegisterMetadata(cfg: Config, s: Registry, x: Extrinsic, id: U32)
    requires x.call.Register? && Step(cfg, s, x).Ok?
    ensures MetadataFollows(cfg, s, x, id)
  {
    MetadataWritesAppend(s.events, Deposited(cfg, s, x), id);
  }

  lemma UpdatedMetadata(cfg: Config, s: Registry, x: Extrinsic, id: U32)
    requires x.call.UpdateMetadata? && Step(cfg, s, x).Ok?
    ensures MetadataFollows(cfg, s, x, id)
  {
    MetadataWritesAppend(s.events, Deposited(cfg, s, x), id);
  }

  lemma OtherMetadata(cfg: Config, s: Registry, x: Extrinsic, id: U32)
    requires !x.call.Register? && !x.call.UpdateMetadata? && Step(cfg, s, x).Ok?
    ensures MetadataFollows(cfg, s, x, id)
  {
    TouchesOne(cfg, s, x);
    MetadataWritesAppend(s.events, Deposited(cfg, s, x), id);
  }

  lemma MetadataStep(cfg: Config, s: Registry, x: Extrinsic, id: U32)
    ensures MetadataFollows(cfg, s, x, id)
  {
    if Step(cfg, s, x).Ok? {
      match x.call
      case Register(_) => RegisterMetadata(cfg, s, x, id);
      case UpdateMetadata(_, _) => UpdatedMetadata(cfg, s, x, id);
      case _ => OtherMetadata(cfg, s, x, id);
    }
  }

  /** The metadata of every stored asset is what the last successful call to register or update
      its id gave. */
  lemma {:induction false} MetadataIsLatest(cfg: Config, xs: seq<Extrinsic>, id: U32) returns (n: nat)
    requires id in Run(cfg, GENESIS, xs).assets
    ensures WrittenAt(cfg, xs, n, id)
  {
    var front, x := xs[..|xs| - 1], xs[|xs| - 1];
    var s := Run(cfg, GENESIS, front);
    MetadataStep(cfg, s, x, id);
    if MetadataWrites(Run(cfg, GENESIS, xs).events, id) == MetadataWrites(s.events, id) {
      n := MetadataIsLatest(cfg, front, id);
      assert front[..n] == xs[..n];
    } else {
      n := |front|;
    }
  }
}
