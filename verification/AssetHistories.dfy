/** What happens to one asset over a run: its announced statuses, its fixed terms, its
    contents and its registration block. */
module AssetHistories {
  import opened Prelude
  import opened AssetRegistry
  import opened AssetInvariants

  /** The event a successful call deposits. */
  function Deposited(cfg: Config, s: Registry, x: Extrinsic): Event
    requires Step(cfg, s, x).Ok?
  {
    match x.call
    case Register(d) => AssetRegistered(s.nextId, x.who, d.name, d.symbol)
    case Approve(id) => AssetApproved(id, x.who)
    case Reject(id, reason) => AssetRejected(id, x.who, reason)
    case Suspend(id, reason) => AssetSuspended(id, x.who, reason)
    case UpdateMetadata(id, _) => MetadataUpdated(id, x.who)
    case TransferOwnership(id, newOwner) => OwnershipTransferred(id, x.who, newOwner)
  }

  /** A call touches one asset only: the one its event names. */
  lemma TouchesOne(cfg: Config, s: Registry, x: Extrinsic)
    requires Step(cfg, s, x).Ok?
    ensures var s', e := Step(cfg, s, x).value, Deposited(cfg, s, x);
            && s'.events == s.events + [e]
            && e.id in s'.assets && s'.assets == s.assets[e.id := s'.assets[e.id]]
            && (!x.call.Register? ==> e.id in s.assets && SameTerms(s.assets[e.id], s'.assets[e.id]))
  {
  }

  // ---------- status history ----------

  ghost predicate LegalTrail(t: seq<Status>) {
    t == [Pending] || t == [Pending, Approved] || t == [Pending, Approved, Suspended] || t == [Pending, Rejected]
  }

  /** What was announced about an asset ends in its status and, while its id is not reused, is
      a legal history; nothing is announced about an id without an asset. */
  ghost predicate HistoryOk(s: Registry, id: U32) {
    var t := Trail(s.events, id);
    if id in s.assets then
      t != [] && t[|t| - 1] == s.assets[id].status && (Registrations(s.events, id) <= 1 ==> LegalTrail(t))
    else
      t == []
  }

  lemma TrailNext(events: seq<Event>, e: Event, id: U32)
    ensures Trail(events + [e], id) == Trail(events, id) + if e.id == id then Announced(e) else []
  {
    assert (events + [e])[..|events|] == events;
  }

  /** The announced status is the new one, and the old one allowed it. */
  lemma StatusMoves(cfg: Config, s: Registry, x: Extrinsic)
    requires Step(cfg, s, x).Ok? && !x.call.Register?
    ensures var e := Deposited(cfg, s, x);
            var from, to := s.assets[e.id].status, Step(cfg, s, x).value.assets[e.id].status;
            if Announced(e) == [] then to == from
            else Announced(e) == [to] &&
                 ((from == Pending && (to == Approved || to == Rejected)) || (from == Approved && to == Suspended))
  {
  }

  /** One more registration starts a history, one more change of status continues it. */
  lemma RegisterHistory(cfg: Config, s: Registry, x: Extrinsic, id: U32)
    requires IdsInv(s) && HistoryOk(s, id) && Step(cfg, s, x).Ok? && x.call.Register?
    ensures HistoryOk(Step(cfg, s, x).value, id)
  {
    var e := Deposited(cfg, s, x);
    TouchesOne(cfg, s, x);
    TrailNext(s.events, e, id);
    RegistrationsAppend(s.events, e, id);
    FreshId(s);
  }

  lemma ChangeHistory(cfg: Config, s: Registry, x: Extrinsic, id: U32)
    requires HistoryOk(s, id) && Step(cfg, s, x).Ok? && !x.call.Register?
    ensures HistoryOk(Step(cfg, s, x).value, id)
  {
    var e := Deposited(cfg, s, x);
    TouchesOne(cfg, s, x);
    TrailNext(s.events, e, id);
    RegistrationsAppend(s.events, e, id);
    if e.id == id {
      StatusMoves(cfg, s, x);
    }
    if e.id == id && Registrations(s.events, id) <= 1 {
      LegalMove(Trail(s.events, id), Announced(e));
    }
  }

  lemma LegalMove(t: seq<Status>, more: seq<Status>)
    requires LegalTrail(t)
    requires more == [] || (more == [Approved] && t[|t| - 1] == Pending) ||
             (more == [Rejected] && t[|t| - 1] == Pending) || (more == [Suspended] && t[|t| - 1] == Approved)
    ensures LegalTrail(t + more)
  {
  }

  lemma StepHistory(cfg: Config, s: Registry, x: Extrinsic, id: U32)
    requires IdsInv(s) && HistoryOk(s, id) && Step(cfg, s, x).Ok?
    ensures HistoryOk(Step(cfg, s, x).value, id)
  {
    if x.call.Register? {
      RegisterHistory(cfg, s, x, id);
    } else {
      ChangeHistory(cfg, s, x, id);
    }
  }

  lemma {:induction false} RunHistoryOk(cfg: Config, xs: seq<Extrinsic>, id: U32)
    ensures HistoryOk(Run(cfg, GENESIS, xs), id)
  {
    if xs != [] {
      var front, x := xs[..|xs| - 1], xs[|xs| - 1];
      RunHistoryOk(cfg, front, id);
      GenesisInv(cfg);
      RunInv(cfg, GENESIS, front);
      if Step(cfg, Run(cfg, GENESIS, front), x).Ok? {
        StepHistory(cfg, Run(cfg, GENESIS, front), x, id);
      }
    }
  }

  function PendingIn(t: seq<Status>): nat {
    if t == [] then 0 else PendingIn(t[..|t| - 1]) + if t[|t| - 1] == Pending then 1 else 0
  }

  /** Every registration, and nothing else, announces Pending. */
  lemma {:induction false} PendingPerRegistration(events: seq<Event>, id: U32)
    ensures PendingIn(Trail(events, id)) == Registrations(events, id)
  {
    if events != [] {
      var front, e := events[..|events| - 1], events[|events| - 1];
      PendingPerRegistration(front, id);
      if e.id == id && Announced(e) != [] {
        var t := Trail(front, id) + Announced(e);
        assert t[..|t| - 1] == Trail(front, id);
      } else {
        assert Trail(events, id) == Trail(front, id);
      }
    }
  }

  lemma LegalHasOnePending(t: seq<Status>)
    requires LegalTrail(t)
    ensures PendingIn(t) == 1
  {
    assert |t| >= 2 ==> PendingIn(t[..1]) == 1 by { assert t[..1][..0] == []; }
    assert |t| == 3 ==> t[..2][..1] == t[..1];
  }

  lemma LegalExactly(s: Registry, id: U32)
    requires HistoryOk(s, id) && id in s.assets
    ensures LegalTrail(Trail(s.events, id)) <==> Registrations(s.events, id) <= 1
  {
    PendingPerRegistration(s.events, id);
    if LegalTrail(Trail(s.events, id)) {
      LegalHasOnePending(Trail(s.events, id));
    }
  }

  /** After any run the announced history of an asset ends in the stored status, and is
      Pending, Approved, Suspended up to some point, or Pending, Rejected, if and only if its
      id was not reused. About an id without an asset nothing was announced. */
  lemma {:induction false} RunHistory(cfg: Config, xs: seq<Extrinsic>, id: U32)
    ensures var s := Run(cfg, GENESIS, xs);
            var t := Trail(s.events, id);
            if id in s.assets then
              t != [] && t[|t| - 1] == s.assets[id].status && (LegalTrail(t) <==> Registrations(s.events, id) <= 1)
            else
              t == []
  {
    RunHistoryOk(cfg, xs, id);
    if id in Run(cfg, GENESIS, xs).assets {
      LegalExactly(Run(cfg, GENESIS, xs), id);
    }
  }

  // ---------- fixed terms ----------

  /** What an asset `was` became while its id was `reused` or not: still there with the same
      terms, or with another symbol, as its own is never freed. */
  ghost predicate TermsOk(s: Registry, id: U32, was: Asset, reused: bool) {
    && was.symbol in s.bySymbol
    && id in s.assets
    && if reused then s.assets[id].symbol != was.symbol else SameTerms(was, s.assets[id])
  }

  lemma SymbolsStay(cfg: Config, s: Registry, x: Extrinsic)
    requires Step(cfg, s, x).Ok?
    ensures s.bySymbol.Keys <= Step(cfg, s, x).value.bySymbol.Keys
    ensures x.call.Register? ==> Step(cfg, s, x).value.assets[s.nextId].symbol !in s.bySymbol
  {
  }

  lemma StepTerms(cfg: Config, s: Registry, x: Extrinsic, id: U32, was: Asset, reused: bool)
    requires TermsOk(s, id, was, reused) && Step(cfg, s, x).Ok?
    ensures TermsOk(Step(cfg, s, x).value, id, was, reused || (x.call.Register? && s.nextId == id))
  {
    TouchesOne(cfg, s, x);
    SymbolsStay(cfg, s, x);
  }

  lemma {:induction false} TermsFrom(cfg: Config, s: Registry, ys: seq<Extrinsic>, id: U32)
    requires id in s.assets && s.assets[id].symbol in s.bySymbol
    ensures Registrations(s.events, id) <= Registrations(Run(cfg, s, ys).events, id)
    ensures TermsOk(Run(cfg, s, ys), id, s.assets[id],
                    Registrations(Run(cfg, s, ys).events, id) > Registrations(s.events, id))
  {
    if ys != [] {
      var front, y := ys[..|ys| - 1], ys[|ys| - 1];
      TermsFrom(cfg, s, front, id);
      var before := Run(cfg, s, front);
      if Step(cfg, before, y).Ok? {
        TouchesOne(cfg, before, y);
        RegistrationsAppend(before.events, Deposited(cfg, before, y), id);
        StepTerms(cfg, before, y, id, s.assets[id], Registrations(before.events, id) > Registrations(s.events, id));
      }
    }
  }

  lemma {:induction false} SymbolsKnown(cfg: Config, xs: seq<Extrinsic>, id: U32)
    requires id in Run(cfg, GENESIS, xs).assets
    ensures Run(cfg, GENESIS, xs).assets[id].symbol in Run(cfg, GENESIS, xs).bySymbol
  {
    if xs != [] {
      var before, x := Run(cfg, GENESIS, xs[..|xs| - 1]), xs[|xs| - 1];
      if id in before.assets {
        SymbolsKnown(cfg, xs[..|xs| - 1], id);
      }
      if Step(cfg, before, x).Ok? {
        TouchesOne(cfg, before, x);
        SymbolsStay(cfg, before, x);
      }
    }
  }

  /** In any continuation of any run an asset stays, and it keeps its name, symbol, description,
      decimals, supply, flags and registration block if and only if its id is not registered
      again. */
  lemma {:induction false} TermsNeverChange(cfg: Config, xs: seq<Extrinsic>, ys: seq<Extrinsic>, id: U32)
    requires id in Run(cfg, GENESIS, xs).assets
    ensures var s, s' := Run(cfg, GENESIS, xs), Run(cfg, GENESIS, xs + ys);
            && id in s'.assets
            && (SameTerms(s.assets[id], s'.assets[id]) <==>
                Registrations(s'.events, id) == Registrations(s.events, id))
  {
    RunConcat(cfg, GENESIS, xs, ys);
    SymbolsKnown(cfg, xs, id);
    TermsFrom(cfg, Run(cfg, GENESIS, xs), ys, id);
  }

  // ---------- contents ----------

  ghost predicate ValidAsset(cfg: Config, a: Asset) {
    && 0 < |a.name| <= cfg.maxName && 0 < |a.symbol| <= cfg.maxSymbol
    && |a.description| <= cfg.maxDescription && |a.metadata| <= cfg.maxMetadata
    && a.decimals <= 18 && a.totalSupply > 0
  }

  lemma StepContents(cfg: Config, s: Registry, x: Extrinsic, id: U32)
    requires id in s.assets ==> ValidAsset(cfg, s.assets[id])
    requires Step(cfg, s, x).Ok?
    ensures id in Step(cfg, s, x).value.assets ==> ValidAsset(cfg, Step(cfg, s, x).value.assets[id])
  {
    TouchesOne(cfg, s, x);
  }

  /** Every stored asset, at any time, passes the checks made at registration; a later
      metadata update is held to the same length. */
  lemma {:induction false} ContentsValid(cfg: Config, xs: seq<Extrinsic>, id: U32)
    requires id in Run(cfg, GENESIS, xs).assets
    ensures ValidAsset(cfg, Run(cfg, GENESIS, xs).assets[id])
  {
    if xs != [] {
      var before, x := Run(cfg, GENESIS, xs[..|xs| - 1]), xs[|xs| - 1];
      if id in before.assets {
        ContentsValid(cfg, xs[..|xs| - 1], id);
      }
      if Step(cfg, before, x).Ok? {
        StepContents(cfg, before, x, id);
      }
    }
  }

  // ---------- registration blocks ----------

  /** Registration blocks are past and grow with the id. */
  ghost predicate BlocksOrdered(s: Registry, now: nat) {
    && (forall id :: id in s.assets ==> s.assets[id].registeredAt <= now)
    && (forall i, j :: i in s.assets && j in s.assets && i < j ==>
          s.assets[i].registeredAt <= s.assets[j].registeredAt)
  }

  lemma StepBlocks(cfg: Config, s: Registry, x: Extrinsic, now: nat)
    requires IdsInv(s) && BlocksOrdered(s, now) && now <= x.block && Step(cfg, s, x).Ok?
    ensures BlocksOrdered(Step(cfg, s, x).value, x.block)
  {
    TouchesOne(cfg, s, x);
  }

  /** Over any run whose blocks do not go back, even one that reuses U32_MAX, assets with
      larger ids were registered no earlier. */
  lemma {:induction false} RegisteredInOrder(cfg: Config, xs: seq<Extrinsic>)
    requires Chronological(xs)
    ensures BlocksOrdered(Run(cfg, GENESIS, xs), if xs == [] then 0 else xs[|xs| - 1].block)
  {
    if xs != [] {
      var front, x := xs[..|xs| - 1], xs[|xs| - 1];
      RegisteredInOrder(cfg, front);
      GenesisInv(cfg);
      RunInv(cfg, GENESIS, front);
      if Step(cfg, Run(cfg, GENESIS, front), x).Ok? {
        StepBlocks(cfg, Run(cfg, GENESIS, front), x, if front == [] then 0 else front[|front| - 1].block);
      }
    }
  }
}
