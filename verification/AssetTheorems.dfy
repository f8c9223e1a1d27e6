/** The asset registry's promises over every run from genesis, with the exact conditions. */
module AssetTheorems {
  import opened Prelude
  import opened AssetRegistry
  import opened AssetInvariants

  /** The first `n` ids. */
  function IdsBelow(n: nat): (r: set<U32>)
    requires n <= U32_MAX + 1
    ensures forall i: U32 :: i in r <==> i < n
    ensures |r| == n
  {
    if n == 0 then {} else IdsBelow(n - 1) + {n - 1}
  }

  lemma {:induction false} Reachable(cfg: Config, xs: seq<Extrinsic>)
    ensures IndexInv(cfg, Run(cfg, GENESIS, xs))
  {
    GenesisInv(cfg);
    RunInv(cfg, GENESIS, xs);
  }

  lemma KeysFromIds(s: Registry)
    requires IdsInv(s)
    ensures s.assets.Keys == IdsBelow(s.nextId) + (if Registrations(s.events, U32_MAX) > 0 then {U32_MAX} else {})
  {
  }

  lemma IdsBelowOrTop(n: U32, top: bool)
    requires top ==> n == U32_MAX
    ensures |IdsBelow(n) + if top then {U32_MAX} else {}| == n + if top then 1 else 0
    ensures IdsBelow(n) + (if top then {U32_MAX} else {}) == IdsBelow(n) <==> !top
  {
    var below := IdsBelow(n);
    if top {
      assert U32_MAX !in below;
      assert |below + {U32_MAX}| == |below| + 1;
    } else {
      assert below + {} == below;
    }
  }

  /** The number of assets is the counter, or one more once the counter is saturated and used. */
  lemma AssetCount(s: Registry)
    requires IdsInv(s)
    ensures |s.assets| == s.nextId + if Registrations(s.events, U32_MAX) > 0 then 1 else 0
  {
    KeysFromIds(s);
    IdsBelowOrTop(s.nextId, Registrations(s.events, U32_MAX) > 0);
    assert |s.assets| == |s.assets.Keys|;
  }

  /** The ids are exactly 0 .. NextAssetId - 1, and `total_assets` is the number of assets, as
      long as no registration found the counter saturated, and never again after one did. */
  lemma {:induction false} IdsExact(cfg: Config, xs: seq<Extrinsic>)
    ensures var s := Run(cfg, GENESIS, xs);
            && (s.assets.Keys == IdsBelow(s.nextId) <==> Registrations(s.events, U32_MAX) == 0)
            && (|s.assets| == s.nextId <==> Registrations(s.events, U32_MAX) == 0)
  {
    Reachable(cfg, xs);
    var s := Run(cfg, GENESIS, xs);
    KeysFromIds(s);
    IdsBelowOrTop(s.nextId, Registrations(s.events, U32_MAX) > 0);
    AssetCount(s);
  }

  ghost predicate NoneDisplaced(s: Registry) {
    forall o: AccountId :: !Displaced(s.events, o, U32_MAX)
  }

  /** Who holds and who is listed agree, except for accounts that were displaced. */
  lemma OwnerIndexMisses(s: Registry)
    requires HoldersInv(s) && OwnersInv(s)
    ensures OwnerIndexAgrees(s) <==> NoneDisplaced(s)
  {
    if NoneDisplaced(s) {
      forall o: AccountId, id: U32
        ensures (o, id) in s.byOwner <==> id in s.assets && s.assets[id].owner == o
      {
        assert ListedOk(s, o, id) && !Displaced(s.events, o, U32_MAX);
      }
    }
    if OwnerIndexAgrees(s) {
      forall o: AccountId
        ensures !Displaced(s.events, o, U32_MAX)
      {
        assert ListedOk(s, o, U32_MAX);
      }
    }
  }

  lemma NoReuseNoneDisplaced(s: Registry)
    requires OwnersInv(s) && Registrations(s.events, U32_MAX) <= 1
    ensures NoneDisplaced(s)
  {
    forall o: AccountId
      ensures !Displaced(s.events, o, U32_MAX)
    {
      assert ListedOk(s, o, U32_MAX);
    }
  }

  lemma ListedOrDisplaced(s: Registry, o: AccountId)
    requires HoldersInv(s) && OwnersInv(s)
    ensures forall id: U32 :: (o, id) in s.byOwner <==>
              id in Owned(s, o) || (id == U32_MAX && Displaced(s.events, o, U32_MAX))
    ensures Displaced(s.events, o, U32_MAX) ==>
              U32_MAX !in Owned(s, o) && Registrations(s.events, U32_MAX) > 1
  {
    assert ListedOk(s, o, U32_MAX);
    forall id: U32
      ensures (o, id) in s.byOwner <==>
              id in Owned(s, o) || (id == U32_MAX && Displaced(s.events, o, U32_MAX))
    {
      assert ListedOk(s, o, id);
    }
  }

  lemma ListedSet(s: Registry, o: AccountId)
    requires HoldersInv(s) && OwnersInv(s)
    ensures var displaced := Displaced(s.events, o, U32_MAX);
            && Listed(s.byOwner, o) == Owned(s, o) + (if displaced then {U32_MAX} else {})
            && (displaced ==> U32_MAX !in Owned(s, o) && Registrations(s.events, U32_MAX) > 1)
            && (Listed(s.byOwner, o) == Owned(s, o) <==> !displaced)
  {
    ListedOrDisplaced(s, o);
    forall id: U32
      ensures id in Listed(s.byOwner, o) <==> (o, id) in s.byOwner
    {
      ListedExact(s.byOwner, o, id);
    }
  }

  /** After every run the owner index lists what an account owns, and U32_MAX if it was
      displaced from it. So it agrees with a scan for exactly the accounts not displaced. */
  lemma {:induction false} OwnerIndexExact(cfg: Config, xs: seq<Extrinsic>, o: AccountId)
    ensures var s := Run(cfg, GENESIS, xs);
            var displaced := Displaced(s.events, o, U32_MAX);
            && Listed(s.byOwner, o) == Owned(s, o) + (if displaced then {U32_MAX} else {})
            && (displaced ==> U32_MAX !in Owned(s, o) && Registrations(s.events, U32_MAX) > 1)
            && (Listed(s.byOwner, o) == Owned(s, o) <==> !displaced)
            && (OwnerIndexAgrees(s) <==> NoneDisplaced(s))
  {
    Reachable(cfg, xs);
    var s := Run(cfg, GENESIS, xs);
    OwnerIndexMisses(s);
    ListedSet(s, o);
  }

  lemma StaleIsWrong(s: Registry)
    requires StaleSymbol(s)
    ensures !SymbolIndexAgrees(s)
  {
    var sym :| sym in s.bySymbol && s.bySymbol[sym] == U32_MAX && s.assets[U32_MAX].symbol != sym;
  }

  lemma CountsFromInv(cfg: Config, s: Registry)
    requires CountsInv(cfg, s) && NothingOverwritten(s)
    ensures CountsAgree(s)
  {
    forall o: AccountId
      ensures CountOf(s, o) == |Owned(s, o)| + SelfTransfers(s.events, o)
    {
      assert CountOk(cfg, s, o) && Overwritten(s.events, o) == 0;
    }
  }

  /** Every index agrees with a scan of `Assets` exactly as long as U32_MAX was registered at
      most once: the second registration breaks the symbol index for good. */
  lemma {:induction false} IndexesExact(cfg: Config, xs: seq<Extrinsic>)
    ensures var s := Run(cfg, GENESIS, xs);
            && (IndexesAgree(s) <==> Registrations(s.events, U32_MAX) <= 1)
            && (SymbolIndexAgrees(s) <==> Registrations(s.events, U32_MAX) <= 1)
  {
    Reachable(cfg, xs);
    var s := Run(cfg, GENESIS, xs);
    if Registrations(s.events, U32_MAX) > 1 {
      StaleIsWrong(s);
    } else {
      NoReuseNoneDisplaced(s);
      OwnerIndexMisses(s);
      CountsFromInv(cfg, s);
    }
  }

  /** `get_asset_by_symbol`. */
  function AssetBySymbol(s: Registry, sym: Bytes): Option<U32> {
    if sym in s.bySymbol then Some(s.bySymbol[sym]) else None
  }

  /** Looking a symbol up is scanning for it: it answers the one asset with the symbol, and
      nothing when there is none. */
  lemma {:induction false} SymbolLookupIsScan(cfg: Config, xs: seq<Extrinsic>, sym: Bytes)
    requires Registrations(Run(cfg, GENESIS, xs).events, U32_MAX) <= 1
    ensures var s := Run(cfg, GENESIS, xs);
            var withSymbol := set id | id in s.assets && s.assets[id].symbol == sym;
            withSymbol == match AssetBySymbol(s, sym) { case Some(id) => {id} case None => {} }
  {
    Reachable(cfg, xs);
  }

  /** The cached count of every owner in every run: the owned assets, plus the owner's
      transfers to itself, plus the assets it lost to reuse of U32_MAX. So it never falls
      below the true count nor exceeds the limit, and it is the true count exactly for owners
      without either. */
  lemma {:induction false} CountsExact(cfg: Config, xs: seq<Extrinsic>, o: AccountId)
    ensures var s := Run(cfg, GENESIS, xs);
            && CountOf(s, o) == |Owned(s, o)| + SelfTransfers(s.events, o) + Overwritten(s.events, o)
            && |Owned(s, o)| <= CountOf(s, o) <= cfg.maxPerOwner
            && (CountOf(s, o) == |Owned(s, o)| <==>
                SelfTransfers(s.events, o) == 0 && Overwritten(s.events, o) == 0)
            && (Registrations(s.events, U32_MAX) <= 1 ==> Overwritten(s.events, o) == 0)
  {
    Reachable(cfg, xs);
    var s := Run(cfg, GENESIS, xs);
    assert CountOk(cfg, s, o);
  }

  /** What a successful call changes the count of `o` by. */
  function CountChange(x: Extrinsic, o: AccountId): int {
    match x.call
    case Register(_) => if o == x.who then 1 else 0
    case TransferOwnership(_, newOwner) => if o == newOwner then 1 else if o == x.who then -1 else 0
    case _ => 0
  }

  /** What is incremented is below U32_MAX, what is decremented is positive, and the change is
      the integer one. */
  ghost predicate CountsMoveExactly(s: Registry, s': Registry, x: Extrinsic) {
    && (x.call.Register? ==> CountOf(s, x.who) < U32_MAX)
    && (x.call.TransferOwnership? ==> CountOf(s, x.who) > 0 && CountOf(s, x.call.newOwner) < U32_MAX)
    && (forall o: AccountId :: CountOf(s', o) == CountOf(s, o) + CountChange(x, o))
  }

  lemma RegisterCounts(cfg: Config, s: Registry, x: Extrinsic)
    requires x.call.Register? && Step(cfg, s, x).Ok?
    ensures CountsMoveExactly(s, Step(cfg, s, x).value, x)
  {
    RegisterAdds(cfg, s, x);
  }

  lemma TransferCounts(cfg: Config, s: Registry, x: Extrinsic)
    requires x.call.TransferOwnership? && Step(cfg, s, x).Ok? && CountsInv(cfg, s)
    ensures CountsMoveExactly(s, Step(cfg, s, x).value, x)
  {
    TransferMoves(cfg, s, x.who, x.call.id, x.call.newOwner);
    MovesExactly(cfg, s, Step(cfg, s, x).value, x.call.id, x.call.newOwner);
  }

  lemma QuietCallCounts(cfg: Config, s: Registry, x: Extrinsic)
    requires IsQuiet(x.call) && Step(cfg, s, x).Ok?
    ensures CountsMoveExactly(s, Step(cfg, s, x).value, x)
  {
    QuietStep(cfg, s, x);
  }

  /** In no run does a saturating operation on a count saturate: a registration adds one, a
      transfer to another owner takes one and adds one, a transfer to oneself adds one. */
  lemma {:induction false} CountsNeverSaturate(cfg: Config, xs: seq<Extrinsic>, x: Extrinsic)
    requires Step(cfg, Run(cfg, GENESIS, xs), x).Ok?
    ensures var s := Run(cfg, GENESIS, xs); CountsMoveExactly(s, Step(cfg, s, x).value, x)
  {
    Reachable(cfg, xs);
    var s := Run(cfg, GENESIS, xs);
    if x.call.Register? {
      RegisterCounts(cfg, s, x);
    } else if x.call.TransferOwnership? {
      TransferCounts(cfg, s, x);
    } else {
      QuietCallCounts(cfg, s, x);
    }
  }

  /** The events alone tell every owner after every run, even one that reuses U32_MAX. */
  lemma {:induction false} EventsTellOwners(cfg: Config, xs: seq<Extrinsic>, id: U32)
    ensures var s := Run(cfg, GENESIS, xs);
            Holder(s.events, id) == if id in s.assets then Some(s.assets[id].owner) else None
  {
    Reachable(cfg, xs);
  }

  // ---------- the boundary is reached ----------

  /** A configuration whose symbols may be as long as a u32 allows. */
  const ROOMY: Config := Config(1, U32_MAX, 0, 0, 1)

  function Filing(who: AccountId, symbol: Bytes): Extrinsic {
    Extrinsic(who, 0, Register(Details([0], symbol, [], 0, 1, [], true, true, true)))
  }

  function Zeros(n: nat): Bytes {
    seq(n, _ => 0)
  }

  /** After `n` registrations: symbols of zeros up to length `n`, owners up to `n`. */
  ghost predicate Filled(s: Registry, n: nat) {
    && n <= U32_MAX && s.nextId == n && Registrations(s.events, U32_MAX) == 0
    && (forall sym :: sym in s.bySymbol ==> 0 < |sym| <= n && sym[0] == 0)
    && (forall o: AccountId :: o >= n ==> CountOf(s, o) == 0)
  }

  lemma FileNext(s: Registry, n: nat)
    requires Filled(s, n) && n < U32_MAX
    ensures Filled(Next(ROOMY, s, Filing(n, Zeros(n + 1))), n + 1)
  {
    var symbol := Zeros(n + 1);
    assert symbol !in s.bySymbol;
    var x := Filing(n, symbol);
    assert Refusal(ROOMY, s, n, x.call.details) == None;
    var s' := Next(ROOMY, s, x);
    assert s'.nextId == n + 1;
    assert forall sym :: sym in s'.bySymbol ==> 0 < |sym| <= n + 1 && sym[0] == 0;
    forall o: AccountId | o >= n + 1
      ensures CountOf(s', o) == 0
    {
      assert CountOf(s, o) == 0;
    }
    RegistrationsAppend(s.events, AssetRegistered(s.nextId, n, [0], symbol), U32_MAX);
  }

  /** One more filing at the end of a run. */
  lemma FileSnoc(front: seq<Extrinsic>, n: nat)
    requires Filled(Run(ROOMY, GENESIS, front), n) && n < U32_MAX
    ensures Filled(Run(ROOMY, GENESIS, front + [Filing(n, Zeros(n + 1))]), n + 1)
  {
    FileNext(Run(ROOMY, GENESIS, front), n);
    RunSnoc(ROOMY, GENESIS, front, Filing(n, Zeros(n + 1)));
  }

  lemma GenesisFilled()
    ensures Filled(Run(ROOMY, GENESIS, []), 0)
  {
  }

  lemma {:induction false} FillTo(n: nat) returns (xs: seq<Extrinsic>)
    requires n <= U32_MAX
    ensures Filled(Run(ROOMY, GENESIS, xs), n)
  {
    if n == 0 {
      GenesisFilled();
      xs := [];
    } else {
      var front := FillTo(n - 1);
      FileSnoc(front, n - 1);
      xs := front + [Filing(n - 1, Zeros(n))];
    }
  }

  lemma FileLast(s: Registry, who: AccountId, symbol: Bytes)
    requires s.nextId == U32_MAX && 0 < |symbol| <= U32_MAX
    requires symbol !in s.bySymbol && CountOf(s, who) == 0
    ensures var s' := Next(ROOMY, s, Filing(who, symbol));
            && s'.nextId == U32_MAX && s'.bySymbol == s.bySymbol[symbol := U32_MAX]
            && Registrations(s'.events, U32_MAX) == Registrations(s.events, U32_MAX) + 1
            && s'.countByOwner == s.countByOwner[who := 1]
            && s'.events == s.events + [AssetRegistered(U32_MAX, who, [0], symbol)]
  {
    RegistrationsAppend(s.events, AssetRegistered(s.nextId, who, [0], symbol), U32_MAX);
  }

  lemma DisplacedBySecond(events: seq<Event>, first: Event, second: Event)
    requires first.AssetRegistered? && second.AssetRegistered? && first.id == second.id
    requires first.owner != second.owner
    ensures Displaced(events + [first] + [second], first.owner, first.id)
  {
    DisplacedAppend(events + [first], second, first.owner, first.id);
    assert (events + [first])[..|events|] == events;
  }

  lemma FileAgain(before: seq<Event>, s: Registry)
    requires s.nextId == U32_MAX && [2] !in s.bySymbol && CountOf(s, U32_MAX + 1) == 0
    requires s.events == before + [AssetRegistered(U32_MAX, U32_MAX, [0], [1])]
    requires Registrations(s.events, U32_MAX) == 1
    ensures var s' := Next(ROOMY, s, Filing(U32_MAX + 1, [2]));
            Registrations(s'.events, U32_MAX) == 2 && Displaced(s'.events, U32_MAX, U32_MAX)
  {
    FileLast(s, U32_MAX + 1, [2]);
    DisplacedBySecond(before, AssetRegistered(U32_MAX, U32_MAX, [0], [1]),
                      AssetRegistered(U32_MAX, U32_MAX + 1, [0], [2]));
  }

  /** Two different accounts file at the saturated counter. */
  lemma FileTwice(s: Registry, a: Extrinsic, b: Extrinsic)
    requires Filled(s, U32_MAX) && a == Filing(U32_MAX, [1]) && b == Filing(U32_MAX + 1, [2])
    ensures var s' := Next(ROOMY, Next(ROOMY, s, a), b);
            Registrations(s'.events, U32_MAX) == 2 && Displaced(s'.events, U32_MAX, U32_MAX)
  {
    assert CountOf(s, U32_MAX) == 0 && CountOf(s, U32_MAX + 1) == 0;
    FileLast(s, U32_MAX, [1]);
    FileAgain(s.events, Next(ROOMY, s, a));
  }

  /** There is a run that registers U32_MAX twice, after which the symbol index and the owner
      index disagree with a scan. */
  lemma ReuseIsReached() returns (xs: seq<Extrinsic>)
    ensures Registrations(Run(ROOMY, GENESIS, xs).events, U32_MAX) == 2
    ensures !SymbolIndexAgrees(Run(ROOMY, GENESIS, xs)) && !OwnerIndexAgrees(Run(ROOMY, GENESIS, xs))
  {
    var full := FillTo(U32_MAX);
    var a, b := Filing(U32_MAX, [1]), Filing(U32_MAX + 1, [2]);
    FileTwice(Run(ROOMY, GENESIS, full), a, b);
    RunSnoc(ROOMY, GENESIS, full, a);
    RunSnoc(ROOMY, GENESIS, full + [a], b);
    xs := full + [a] + [b];
    IndexesExact(ROOMY, xs);
    OwnerIndexExact(ROOMY, xs, U32_MAX);
  }

  /** One registration and one transfer to oneself: one asset, counted twice. */
  lemma SelfTransferCountsTwice(cfg: Config)
    requires cfg.maxName >= 1 && cfg.maxSymbol >= 1 && cfg.maxPerOwner >= 2
    ensures var s := Run(cfg, GENESIS, [Filing(7, [65]), Extrinsic(7, 0, TransferOwnership(0, 7))]);
            Owned(s, 7) == {0} && CountOf(s, 7) == 2
  {
    var xs := [Filing(7, [65]), Extrinsic(7, 0, TransferOwnership(0, 7))];
    assert xs[..1] == [Filing(7, [65])] && xs[..1][..0] == [];
    var s1 := Next(cfg, GENESIS, xs[0]);
    assert s1 == Run(cfg, GENESIS, xs[..1]);
    assert CountOf(s1, 7) == 1;
  }
}
