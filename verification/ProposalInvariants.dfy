/** What every reachable state of the voting pallet says about one proposal id. */
module ProposalInvariants {
  import opened Prelude
  import opened ProposalVoting

  // ---------- votes and events counted ----------

  /** The stored votes on `id` for option `i`. */
  function Ballots(s: State, id: U32, i: U32): set<(U32, AccountId)> {
    set k | k in s.votes && k.0 == id && s.votes[k].optionIndex == i
  }

  /** How many `VoteCast` events name this proposal and option. */
  function Cast(events: seq<Event>, id: U32, i: U32): nat {
    if events == [] then 0 else
      var e := events[|events| - 1];
      Cast(events[..|events| - 1], id, i) + if e.VoteCast? && e.id == id && e.optionIndex == i then 1 else 0
  }

  /** How often an id was announced as created; more than once means it was overwritten. */
  function Creations(events: seq<Event>, id: U32): nat {
    if events == [] then 0 else
      var e := events[|events| - 1];
      Creations(events[..|events| - 1], id) + if e.ProposalCreated? && e.id == id then 1 else 0
  }

  /** How often a proposal was announced as ended or cancelled. */
  function Closings(events: seq<Event>, id: U32): nat {
    if events == [] then 0 else
      var e := events[|events| - 1];
      Closings(events[..|events| - 1], id) + if (e.ProposalEnded? || e.ProposalCancelled?) && e.id == id then 1 else 0
  }

  lemma CastAppend(events: seq<Event>, e: Event, id: U32, i: U32)
    ensures Cast(events + [e], id, i) ==
            Cast(events, id, i) + if e.VoteCast? && e.id == id && e.optionIndex == i then 1 else 0
  {
    assert (events + [e])[..|events|] == events;
  }

  lemma CreationsAppend(events: seq<Event>, e: Event, id: U32)
    ensures Creations(events + [e], id) ==
            Creations(events, id) + if e.ProposalCreated? && e.id == id then 1 else 0
  {
    assert (events + [e])[..|events|] == events;
  }

  lemma ClosingsAppend(events: seq<Event>, e: Event, id: U32)
    ensures Closings(events + [e], id) ==
            Closings(events, id) + if (e.ProposalEnded? || e.ProposalCancelled?) && e.id == id then 1 else 0
  {
    assert (events + [e])[..|events|] == events;
  }

  // ---------- the invariant of one id ----------

  /** A proposal exists if its id was created; ids below U32_MAX are created once, in order,
      and U32_MAX only by a saturated counter. */
  ghost predicate IdOk(s: State, id: U32) {
    && (id in s.proposals <==> Creations(s.events, id) > 0)
    && (id < U32_MAX ==> Creations(s.events, id) == if id < s.nextId then 1 else 0)
    && (id == U32_MAX && Creations(s.events, id) > 0 ==> s.nextId == U32_MAX)
  }

  ghost predicate ProposalOk(cfg: Config, s: State, now: nat, id: U32) {
    id in s.proposals ==>
      var p := s.proposals[id];
      0 < |p.options| <= cfg.maxOptions && p.startBlock <= now && p.startBlock <= p.endBlock <= cfg.maxBlock
  }

  /** Votes are on proposals that exist, weigh one and, unless it was overwritten, name an option of it. */
  ghost predicate VotesOk(s: State, id: U32) {
    forall a: AccountId :: (id, a) in s.votes ==>
      && id in s.proposals && s.votes[(id, a)].weight == 1
      && (Creations(s.events, id) <= 1 ==> s.votes[(id, a)].optionIndex < |s.proposals[id].options|)
  }

  /** The incremental tally is the number of stored votes, and of announced ones, capped at U32_MAX. */
  ghost predicate TallyOk(s: State, id: U32) {
    forall i: U32 ::
      |Ballots(s, id, i)| == Cast(s.events, id, i) && ResultOf(s, id, i) == Min(Cast(s.events, id, i), U32_MAX)
  }

  function Active(s: State, id: U32): nat {
    if id in s.proposals && s.proposals[id].isActive then 1 else 0
  }

  /** Each creation is closed at most once; a proposal created once is closed or active. */
  ghost predicate ClosedOnce(s: State, id: U32) {
    && Closings(s.events, id) + Active(s, id) <= Creations(s.events, id)
    && (Creations(s.events, id) <= 1 ==> Closings(s.events, id) + Active(s, id) == Creations(s.events, id))
  }

  ghost predicate InvOf(cfg: Config, s: State, now: nat, id: U32) {
    && IdOk(s, id)
    && ProposalOk(cfg, s, now, id)
    && VotesOk(s, id)
    && TallyOk(s, id)
    && ClosedOnce(s, id)
  }

  // ---------- one call ----------

  /** The event a successful call deposits. */
  function Deposited(cfg: Config, s: State, x: Extrinsic): Event
    requires Step(cfg, s, x).Ok?
  {
    match x.call
    case Create(description, _, _) => ProposalCreated(s.nextId, x.who, description)
    case Vote(id, i) => VoteCast(id, x.who, i)
    case End(id) => ProposalEnded(id, Winner(Results(s, id)))
    case Cancel(id) => ProposalCancelled(id)
  }

  /** Nothing stored about `id` differs. */
  ghost predicate SameFor(s: State, s': State, id: U32) {
    && (id in s.proposals <==> id in s'.proposals)
    && (id in s.proposals ==> s'.proposals[id] == s.proposals[id])
    && SameVotes(s, s', id)
  }

  ghost predicate SameVotes(s: State, s': State, id: U32) {
    && (forall a: AccountId :: (id, a) in s.votes <==> (id, a) in s'.votes)
    && (forall a: AccountId :: (id, a) in s.votes ==> s'.votes[(id, a)] == s.votes[(id, a)])
    && (forall i: U32 :: ResultOf(s', id, i) == ResultOf(s, id, i))
  }

  lemma SameBallots(s: State, s': State, id: U32, i: U32)
    requires SameVotes(s, s', id)
    ensures Ballots(s', id, i) == Ballots(s, id, i)
  {
    forall k: (U32, AccountId)
      ensures k in Ballots(s, id, i) <==> k in Ballots(s', id, i)
    {
      if k.0 == id {
        assert k == (id, k.1);
      }
    }
  }

  /** `s'` is `s` after a call that deposited `e`, seen from `id`. */
  ghost predicate Touched(s: State, s': State, e: Event, id: U32) {
    && s'.events == s.events + [e]
    && s'.nextId == (if e.ProposalCreated? then SatAdd(s.nextId, 1) else s.nextId)
    && (id != e.id ==> SameFor(s, s', id))
    && (!e.VoteCast? ==> SameVotes(s, s', id))
  }

  lemma CreateTouches(cfg: Config, s: State, who: AccountId, now: nat,
                      description: Bytes, options: seq<Bytes>, period: nat, id: U32)
    requires CreateProposal(cfg, s, who, now, description, options, period).Ok?
    ensures Touched(s, CreateProposal(cfg, s, who, now, description, options, period).value,
                    ProposalCreated(s.nextId, who, description), id)
  {
  }

  lemma VoteTouches(s: State, who: AccountId, now: nat, voted: U32, i: U32, id: U32)
    requires CastVote(s, who, now, voted, i).Ok?
    ensures Touched(s, CastVote(s, who, now, voted, i).value, VoteCast(voted, who, i), id)
  {
  }

  lemma CloseTouches(cfg: Config, s: State, x: Extrinsic, id: U32)
    requires (x.call.End? || x.call.Cancel?) && Step(cfg, s, x).Ok?
    ensures Touched(s, Step(cfg, s, x).value, Deposited(cfg, s, x), id)
  {
  }

  /** A call touches only the proposal its event names. */
  lemma TouchesOne(cfg: Config, s: State, x: Extrinsic, id: U32)
    requires Step(cfg, s, x).Ok?
    ensures var s', e := Step(cfg, s, x).value, Deposited(cfg, s, x);
            && s'.events == s.events + [e]
            && s'.nextId == (if x.call.Create? then SatAdd(s.nextId, 1) else s.nextId)
            && (id != e.id ==> SameFor(s, s', id))
            && (!x.call.Vote? ==> SameVotes(s, s', id))
  {
    match x.call
    case Create(description, options, period) =>
      CreateTouches(cfg, s, x.who, x.block, description, options, period, id);
    case Vote(voted, i) => VoteTouches(s, x.who, x.block, voted, i, id);
    case _ => CloseTouches(cfg, s, x, id);
  }

  lemma EventsKeepTally(s: State, s': State, e: Event, id: U32)
    requires SameVotes(s, s', id) && s'.events == s.events + [e] && (e.VoteCast? ==> e.id != id)
    requires TallyOk(s, id)
    ensures TallyOk(s', id)
  {
    forall i: U32
      ensures |Ballots(s', id, i)| == Cast(s'.events, id, i)
      ensures ResultOf(s', id, i) == Min(Cast(s'.events, id, i), U32_MAX)
    {
      CastAppend(s.events, e, id, i);
      SameBallots(s, s', id, i);
      assert |Ballots(s, id, i)| == Cast(s.events, id, i);
    }
  }

  /** What a successful vote amounts to. */
  ghost predicate Votes(s: State, s': State, id: U32, who: AccountId, i: U32) {
    && id in s.proposals && s.proposals[id].isActive && i < OptionCount(s.proposals[id])
    && s'.proposals == s.proposals && s'.nextId == s.nextId
    && (id, who) !in s.votes && s'.votes == s.votes[(id, who) := VoteInfo(i, 1)]
    && (forall j: U32 :: ResultOf(s', id, j) == if j == i then SatAdd(ResultOf(s, id, j), 1) else ResultOf(s, id, j))
    && s'.events == s.events + [VoteCast(id, who, i)]
  }

  lemma VoteIs(s: State, who: AccountId, now: nat, id: U32, i: U32)
    requires CastVote(s, who, now, id, i).Ok?
    ensures Votes(s, CastVote(s, who, now, id, i).value, id, who, i)
  {
  }

  lemma VoteBallots(s: State, s': State, id: U32, who: AccountId, i: U32, j: U32)
    requires Votes(s, s', id, who, i)
    ensures |Ballots(s', id, j)| == |Ballots(s, id, j)| + if j == i then 1 else 0
  {
    assert Ballots(s', id, j) == if j == i then Ballots(s, id, j) + {(id, who)} else Ballots(s, id, j);
  }

  lemma VoteTally(s: State, s': State, id: U32, who: AccountId, i: U32)
    requires Votes(s, s', id, who, i) && TallyOk(s, id)
    ensures TallyOk(s', id)
  {
    forall j: U32
      ensures |Ballots(s', id, j)| == Cast(s'.events, id, j)
      ensures ResultOf(s', id, j) == Min(Cast(s'.events, id, j), U32_MAX)
    {
      assert |Ballots(s, id, j)| == Cast(s.events, id, j) && ResultOf(s, id, j) == Min(Cast(s.events, id, j), U32_MAX);
      CastAppend(s.events, VoteCast(id, who, i), id, j);
      VoteBallots(s, s', id, who, i, j);
    }
  }

  lemma OptionCountExact(cfg: Config, s: State, now: nat, id: U32)
    requires ProposalOk(cfg, s, now, id) && id in s.proposals
    ensures OptionCount(s.proposals[id]) == |s.proposals[id].options|
  {
  }

  lemma StepTally(cfg: Config, s: State, x: Extrinsic, id: U32)
    requires TallyOk(s, id) && Step(cfg, s, x).Ok?
    ensures TallyOk(Step(cfg, s, x).value, id)
  {
    TouchesOne(cfg, s, x, id);
    if x.call.Vote? && x.call.id == id {
      VoteIs(s, x.who, x.block, id, x.call.optionIndex);
      VoteTally(s, Step(cfg, s, x).value, id, x.who, x.call.optionIndex);
    } else {
      EventsKeepTally(s, Step(cfg, s, x).value, Deposited(cfg, s, x), id);
    }
  }

  lemma StepIds(cfg: Config, s: State, x: Extrinsic, id: U32)
    requires IdOk(s, id) && Step(cfg, s, x).Ok?
    ensures IdOk(Step(cfg, s, x).value, id)
  {
    TouchesOne(cfg, s, x, id);
    CreationsAppend(s.events, Deposited(cfg, s, x), id);
  }

  lemma StepProposal(cfg: Config, s: State, now: nat, x: Extrinsic, id: U32)
    requires ProposalOk(cfg, s, now, id) && now <= x.block <= cfg.maxBlock && Step(cfg, s, x).Ok?
    ensures ProposalOk(cfg, Step(cfg, s, x).value, x.block, id)
  {
  }

  lemma StepVotes(cfg: Config, s: State, now: nat, x: Extrinsic, id: U32)
    requires IdOk(s, id) && ProposalOk(cfg, s, now, id) && VotesOk(s, id) && Step(cfg, s, x).Ok?
    ensures VotesOk(Step(cfg, s, x).value, id)
  {
    TouchesOne(cfg, s, x, id);
    CreationsAppend(s.events, Deposited(cfg, s, x), id);
  }

  lemma StepClosings(cfg: Config, s: State, x: Extrinsic, id: U32)
    requires IdOk(s, id) && ClosedOnce(s, id) && Step(cfg, s, x).Ok?
    ensures ClosedOnce(Step(cfg, s, x).value, id)
  {
    TouchesOne(cfg, s, x, id);
    ClosingsAppend(s.events, Deposited(cfg, s, x), id);
    CreationsAppend(s.events, Deposited(cfg, s, x), id);
  }

  lemma StepInv(cfg: Config, s: State, now: nat, x: Extrinsic, id: U32)
    requires InvOf(cfg, s, now, id) && now <= x.block <= cfg.maxBlock
    ensures InvOf(cfg, Next(cfg, s, x), x.block, id)
  {
    if Step(cfg, s, x).Ok? {
      StepIds(cfg, s, x, id);
      StepProposal(cfg, s, now, x, id);
      StepVotes(cfg, s, now, x, id);
      StepTally(cfg, s, x, id);
      StepClosings(cfg, s, x, id);
    }
  }

  /** The block a run ends in. */
  function LastBlock(now: nat, xs: seq<Extrinsic>): nat {
    if xs == [] then now else xs[|xs| - 1].block
  }

  lemma {:induction false} RunInv(cfg: Config, s: State, now: nat, xs: seq<Extrinsic>, id: U32)
    requires InvOf(cfg, s, now, id)
    requires Chronological(cfg, xs) && (xs != [] ==> now <= xs[0].block)
    ensures InvOf(cfg, Run(cfg, s, xs), LastBlock(now, xs), id)
  {
    if xs != [] {
      RunInv(cfg, s, now, xs[..|xs| - 1], id);
      StepInv(cfg, Run(cfg, s, xs[..|xs| - 1]), LastBlock(now, xs[..|xs| - 1]), xs[|xs| - 1], id);
    }
  }

  lemma GenesisInv(cfg: Config, id: U32)
    ensures InvOf(cfg, GENESIS, 0, id)
  {
    forall i: U32
      ensures Ballots(GENESIS, id, i) == {}
    {
    }
  }

  lemma {:induction false} Reachable(cfg: Config, xs: seq<Extrinsic>, id: U32)
    requires Chronological(cfg, xs)
    ensures InvOf(cfg, Run(cfg, GENESIS, xs), LastBlock(0, xs), id)
  {
    GenesisInv(cfg, id);
    RunInv(cfg, GENESIS, 0, xs, id);
  }

  /** `s` is the storage after some run from genesis that has not passed block `now`. */
  ghost predicate Reached(cfg: Config, s: State, now: nat) {
    exists xs: seq<Extrinsic> :: Chronological(cfg, xs) && LastBlock(0, xs) <= now && s == Run(cfg, GENESIS, xs)
  }

  lemma GenesisReached(cfg: Config)
    ensures Reached(cfg, GENESIS, 0)
  {
    var xs: seq<Extrinsic> := [];
    assert Chronological(cfg, xs) && LastBlock(0, xs) <= 0 && GENESIS == Run(cfg, GENESIS, xs);
  }

  lemma ChronologicalSnoc(cfg: Config, xs: seq<Extrinsic>, x: Extrinsic)
    requires Chronological(cfg, xs) && LastBlock(0, xs) <= x.block <= cfg.maxBlock
    ensures Chronological(cfg, xs + [x]) && LastBlock(0, xs + [x]) == x.block
  {
  }

  lemma NextReached(cfg: Config, s: State, before: nat, x: Extrinsic)
    requires Reached(cfg, s, before) && before <= x.block <= cfg.maxBlock
    ensures Reached(cfg, Next(cfg, s, x), x.block)
  {
    var xs :| Chronological(cfg, xs) && LastBlock(0, xs) <= before && s == Run(cfg, GENESIS, xs);
    ChronologicalSnoc(cfg, xs, x);
    RunSnoc(cfg, GENESIS, xs, x);
    assert Next(cfg, s, x) == Run(cfg, GENESIS, xs + [x]);
  }

  lemma ReachedInv(cfg: Config, s: State, now: nat, id: U32)
    requires Reached(cfg, s, now)
    ensures TallyOk(s, id) && ProposalOk(cfg, s, now, id)
  {
    var xs :| Chronological(cfg, xs) && LastBlock(0, xs) <= now && s == Run(cfg, GENESIS, xs);
    Reachable(cfg, xs, id);
  }
}
