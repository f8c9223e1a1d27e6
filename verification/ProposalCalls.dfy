/** What each call of the voting pallet needs, answers and stores, told from the events. */
module ProposalCalls {
  import opened Prelude
  import opened ProposalVoting
  import opened ProposalInvariants
  import opened ProposalTheorems

  // ---------- proposals and votes told from the events ----------

  function CreatedInAll(events: seq<Event>): nat {
    if events == [] then 0 else
      CreatedInAll(events[..|events| - 1]) + if events[|events| - 1].ProposalCreated? then 1 else 0
  }

  /** Who created `id` last, if anybody. */
  function Proposer(events: seq<Event>, id: U32): Option<AccountId> {
    if events == [] then None else
      var e := events[|events| - 1];
      if e.ProposalCreated? && e.id == id then Some(e.proposer) else Proposer(events[..|events| - 1], id)
  }

  /** `id` was created and not ended or cancelled since. */
  predicate Open(events: seq<Event>, id: U32) {
    events != [] &&
    var e, front := events[|events| - 1], events[..|events| - 1];
    if e.id != id || e.VoteCast? then Open(front, id) else e.ProposalCreated?
  }

  /** The option `a` voted for on `id`, if it did. */
  function VoteOf(events: seq<Event>, id: U32, a: AccountId): Option<U32> {
    if events == [] then None else
      var e := events[|events| - 1];
      if e.VoteCast? && e.id == id && e.voter == a then Some(e.optionIndex) else VoteOf(events[..|events| - 1], id, a)
  }

  /** The next id is the number of creations, as far as a u32 counts them. */
  ghost predicate CounterTold(s: State) {
    s.nextId == Min(CreatedInAll(s.events), U32_MAX)
  }

  ghost predicate ProposalTold(s: State, id: U32) {
    && (Open(s.events, id) <==> id in s.proposals && s.proposals[id].isActive)
    && Proposer(s.events, id) == if id in s.proposals then Some(s.proposals[id].proposer) else None
  }

  /** Every stored vote is the announced one and weighs one; there is no other. */
  ghost predicate VoteTold(s: State, id: U32, a: AccountId) {
    if (id, a) in s.votes then VoteOf(s.events, id, a) == Some(s.votes[(id, a)].optionIndex) && s.votes[(id, a)].weight == 1
    else VoteOf(s.events, id, a) == None
  }

  ghost predicate Told(s: State) {
    && CounterTold(s)
    && (forall id: U32 :: ProposalTold(s, id))
    && (forall id: U32, a: AccountId :: VoteTold(s, id, a))
  }

  lemma CreatedAppend(events: seq<Event>, e: Event)
    ensures CreatedInAll(events + [e]) == CreatedInAll(events) + if e.ProposalCreated? then 1 else 0
  {
    assert (events + [e])[..|events|] == events;
  }

  lemma OpenAppend(events: seq<Event>, e: Event, id: U32)
    ensures Open(events + [e], id) <==> if e.id != id || e.VoteCast? then Open(events, id) else e.ProposalCreated?
    ensures Proposer(events + [e], id) ==
            if e.ProposalCreated? && e.id == id then Some(e.proposer) else Proposer(events, id)
  {
    assert (events + [e])[..|events|] == events;
  }

  lemma VoteOfAppend(events: seq<Event>, e: Event, id: U32, a: AccountId)
    ensures VoteOf(events + [e], id, a) ==
            if e.VoteCast? && e.id == id && e.voter == a then Some(e.optionIndex) else VoteOf(events, id, a)
  {
    assert (events + [e])[..|events|] == events;
  }

  lemma StepProposalTold(cfg: Config, s: State, x: Extrinsic, id: U32)
    requires ProposalTold(s, id) && Step(cfg, s, x).Ok?
    ensures ProposalTold(Step(cfg, s, x).value, id)
  {
    TouchesOne(cfg, s, x, id);
    OpenAppend(s.events, Deposited(cfg, s, x), id);
  }

  lemma StepVoteTold(cfg: Config, s: State, x: Extrinsic, id: U32, a: AccountId)
    requires VoteTold(s, id, a) && Step(cfg, s, x).Ok?
    ensures VoteTold(Step(cfg, s, x).value, id, a)
  {
    TouchesOne(cfg, s, x, id);
    VoteOfAppend(s.events, Deposited(cfg, s, x), id, a);
  }

  lemma StepTold(cfg: Config, s: State, x: Extrinsic)
    requires Told(s) && Step(cfg, s, x).Ok?
    ensures Told(Step(cfg, s, x).value)
  {
    TouchesOne(cfg, s, x, 0);
    CreatedAppend(s.events, Deposited(cfg, s, x));
    forall id: U32
      ensures ProposalTold(Step(cfg, s, x).value, id)
    {
      StepProposalTold(cfg, s, x, id);
    }
    forall id: U32, a: AccountId
      ensures VoteTold(Step(cfg, s, x).value, id, a)
    {
      StepVoteTold(cfg, s, x, id, a);
    }
  }

  /** After every run the events tell the counter, who proposed what, what is active and who
      voted for what. */
  lemma {:induction false} EventsTellAll(cfg: Config, xs: seq<Extrinsic>)
    ensures Told(Run(cfg, GENESIS, xs))
  {
    if xs != [] {
      var front := xs[..|xs| - 1];
      EventsTellAll(cfg, front);
      if Step(cfg, Run(cfg, GENESIS, front), xs[|xs| - 1]).Ok? {
        StepTold(cfg, Run(cfg, GENESIS, front), xs[|xs| - 1]);
      }
    }
  }

  lemma ReachedTold(cfg: Config, s: State, now: nat, id: U32)
    requires Reached(cfg, s, now)
    ensures Told(s) && ProposalTold(s, id)
  {
    var xs :| Chronological(cfg, xs) && LastBlock(0, xs) <= now && s == Run(cfg, GENESIS, xs);
    EventsTellAll(cfg, xs);
  }

  // ---------- what each call needs ----------

  lemma CreateDecided(cfg: Config, s: State, who: AccountId, at: nat,
                      description: Bytes, options: seq<Bytes>, period: nat)
    ensures Decides(Step(cfg, s, Extrinsic(who, at, Create(description, options, period))), Passed
      .Need(|options| > 0, NoOptions)
      .Need(|options| <= cfg.maxOptions, TooManyOptions)
      .Need(|description| <= cfg.maxDescription, DescriptionTooLong)
      .Need(cfg.minPeriod <= period <= cfg.maxPeriod, InvalidVotingPeriod))
  {
  }

  /** The window and the options are those the proposal was created with, see `ProposalIsFiled`. */
  lemma VoteDecided(cfg: Config, s: State, now: nat, who: AccountId, at: nat, id: U32, i: U32)
    requires Reached(cfg, s, now)
    ensures Decides(Step(cfg, s, Extrinsic(who, at, Vote(id, i))), Passed
      .Need(Proposer(s.events, id) != None, ProposalNotFound)
      .Need(Open(s.events, id), ProposalNotActive)
      .Need(id in s.proposals ==> s.proposals[id].startBlock <= at, VotingPeriodNotStarted)
      .Need(id in s.proposals ==> at <= s.proposals[id].endBlock, VotingPeriodEnded)
      .Need(id in s.proposals ==> i < |s.proposals[id].options|, InvalidOptionIndex)
      .Need(VoteOf(s.events, id, who) == None, AlreadyVoted))
  {
    ReachedTold(cfg, s, now, id);
    assert VoteTold(s, id, who);
    ReachedInv(cfg, s, now, id);
    if id in s.proposals {
      OptionCountExact(cfg, s, now, id);
    }
  }

  lemma EndDecided(cfg: Config, s: State, now: nat, who: AccountId, at: nat, id: U32)
    requires Reached(cfg, s, now)
    ensures Decides(Step(cfg, s, Extrinsic(who, at, End(id))), Passed
      .Need(Proposer(s.events, id) != None, ProposalNotFound)
      .Need(Open(s.events, id), ProposalNotActive)
      .Need(id in s.proposals ==> s.proposals[id].endBlock < at, VotingPeriodEnded))
  {
    ReachedTold(cfg, s, now, id);
  }

  lemma CancelDecided(cfg: Config, s: State, now: nat, who: AccountId, at: nat, id: U32)
    requires Reached(cfg, s, now)
    ensures Decides(Step(cfg, s, Extrinsic(who, at, Cancel(id))), Passed
      .Need(Proposer(s.events, id) != None, ProposalNotFound)
      .Need(Open(s.events, id), ProposalNotActive)
      .Need(Proposer(s.events, id) == Some(who), NotProposer))
  {
    ReachedTold(cfg, s, now, id);
  }

  // ---------- where events and stored fields come from ----------

  /** Call `n` of the run deposited event `k`; the events before it are those before the call. */
  ghost predicate OriginAt(cfg: Config, xs: seq<Extrinsic>, n: nat, k: nat) {
    && n < |xs|
    && var s := Run(cfg, GENESIS, xs[..n]);
       Step(cfg, s, xs[n]).Ok? && Deposits(s.events, Deposited(cfg, s, xs[n]), Run(cfg, GENESIS, xs).events, k)
  }

  /** `e` is the entry at `k` of `log`, behind `before`. */
  ghost predicate Deposits(before: seq<Event>, e: Event, log: seq<Event>, k: nat) {
    k < |log| && log[k] == e && log[..k] == before
  }

  lemma DepositsGrow(before: seq<Event>, e: Event, log: seq<Event>, more: seq<Event>, k: nat)
    requires Deposits(before, e, log, k) && log <= more
    ensures Deposits(before, e, more, k)
  {
    assert more[..k] == log[..k];
  }

  lemma EventsGrow(cfg: Config, s: State, x: Extrinsic)
    ensures s.events <= Next(cfg, s, x).events
  {
    if Step(cfg, s, x).Ok? {
      TouchesOne(cfg, s, x, 0);
    }
  }

  lemma OriginStays(cfg: Config, front: seq<Extrinsic>, x: Extrinsic, n: nat, k: nat)
    requires OriginAt(cfg, front, n, k)
    ensures OriginAt(cfg, front + [x], n, k)
  {
    RunSnoc(cfg, GENESIS, front, x);
    EventsGrow(cfg, Run(cfg, GENESIS, front), x);
    assert (front + [x])[..n] == front[..n];
    var s := Run(cfg, GENESIS, front[..n]);
    DepositsGrow(s.events, Deposited(cfg, s, front[n]), Run(cfg, GENESIS, front).events,
                 Run(cfg, GENESIS, front + [x]).events, k);
  }

  lemma OriginNow(cfg: Config, front: seq<Extrinsic>, x: Extrinsic, k: nat)
    requires var s := Run(cfg, GENESIS, front); |s.events| <= k < |Next(cfg, s, x).events|
    ensures OriginAt(cfg, front + [x], |front|, k)
  {
    RunSnoc(cfg, GENESIS, front, x);
    TouchesOne(cfg, Run(cfg, GENESIS, front), x, 0);
    assert (front + [x])[..|front|] == front;
  }

  /** Every event of a run was deposited by a successful call of it. */
  lemma {:induction false} EventOrigin(cfg: Config, xs: seq<Extrinsic>, k: nat) returns (n: nat)
    requires k < |Run(cfg, GENESIS, xs).events|
    ensures OriginAt(cfg, xs, n, k)
  {
    var front, x := xs[..|xs| - 1], xs[|xs| - 1];
    assert xs == front + [x];
    if k < |Run(cfg, GENESIS, front).events| {
      n := EventOrigin(cfg, front, k);
      OriginStays(cfg, front, x, n, k);
    } else {
      n := |front|;
      OriginNow(cfg, front, x, k);
    }
  }

  lemma ChronologicalPrefix(cfg: Config, xs: seq<Extrinsic>, n: nat)
    requires Chronological(cfg, xs) && n < |xs|
    ensures Chronological(cfg, xs[..n]) && LastBlock(0, xs[..n]) <= xs[n].block
    ensures Reached(cfg, Run(cfg, GENESIS, xs[..n]), xs[n].block)
  {
    assert Chronological(cfg, xs[..n]) && LastBlock(0, xs[..n]) <= xs[n].block;
  }

  /** What the events before it must say for `who` to have an event deposited. */
  ghost predicate LegalEvent(before: seq<Event>, e: Event, who: AccountId) {
    match e
    case ProposalCreated(id, proposer, _) => proposer == who && id == Min(CreatedInAll(before), U32_MAX)
    case VoteCast(id, voter, _) => voter == who && Open(before, id) && VoteOf(before, id, who) == None
    case ProposalEnded(id, _) => Open(before, id)
    case ProposalCancelled(id) => Open(before, id) && Proposer(before, id) == Some(who)
  }

  lemma LegalDeposit(cfg: Config, s: State, x: Extrinsic)
    requires Reached(cfg, s, x.block) && Step(cfg, s, x).Ok?
    ensures LegalEvent(s.events, Deposited(cfg, s, x), x.who)
  {
    match x.call
    case Create(_, _, _) => ReachedTold(cfg, s, x.block, 0);
    case Vote(id, i) => VoteDecided(cfg, s, x.block, x.who, x.block, id, i);
    case End(id) => EndDecided(cfg, s, x.block, x.who, x.block, id);
    case Cancel(id) => CancelDecided(cfg, s, x.block, x.who, x.block, id);
  }

  /** Over every run each event is legal given those before it: ids are assigned in order,
      votes are cast once and only on an open proposal, only an open proposal is closed, and
      only its proposer, the last one announced for its id, cancels it. */
  lemma {:induction false} LogIsLegal(cfg: Config, xs: seq<Extrinsic>, k: nat) returns (n: nat)
    requires Chronological(cfg, xs) && k < |Run(cfg, GENESIS, xs).events|
    ensures OriginAt(cfg, xs, n, k)
    ensures LegalEvent(Run(cfg, GENESIS, xs).events[..k], Run(cfg, GENESIS, xs).events[k], xs[n].who)
  {
    n := EventOrigin(cfg, xs, k);
    ChronologicalPrefix(cfg, xs, n);
    LegalDeposit(cfg, Run(cfg, GENESIS, xs[..n]), xs[n]);
  }

  /** The votes announced so far for each of the first `n` options. */
  function Counts(events: seq<Event>, id: U32, n: U32): (counts: seq<U32>)
    ensures |counts| == n
  {
    seq(n, i requires 0 <= i < n => Capped(events, id, i))
  }

  /** In `s` the active proposal `id` can be ended at block `now`, and `w` is the lowest of its
      options with the most votes announced so far. */
  ghost predicate Wins(s: State, now: nat, id: U32, w: Option<U32>) {
    && id in s.proposals && s.proposals[id].isActive && s.proposals[id].endBlock < now
    && |s.proposals[id].options| <= U32_MAX
    && IsLowestMax(Counts(s.events, id, |s.proposals[id].options|), w)
  }

  lemma EndAnnouncesWinner(cfg: Config, s: State, now: nat, x: Extrinsic)
    requires x.call.End? && InvOf(cfg, s, now, x.call.id) && Step(cfg, s, x).Ok?
    ensures Wins(s, x.block, x.call.id, Winner(Results(s, x.call.id)))
  {
    var id := x.call.id;
    OptionCountExact(cfg, s, now, id);
    WinnerIsLowestMax(Results(s, id));
    assert Results(s, id) == Counts(s.events, id, |s.proposals[id].options|);
  }

  /** Of any proposal, created once or again: whatever a run announces as a winner was, at the
      call that ended the proposal, the lowest of its options with the most votes announced
      for its id until then. */
  lemma {:induction false} AnnouncedWinnerAtItsCall(
      cfg: Config, xs: seq<Extrinsic>, k: nat, id: U32, w: Option<U32>) returns (n: nat)
    requires Chronological(cfg, xs)
    requires k < |Run(cfg, GENESIS, xs).events| && Run(cfg, GENESIS, xs).events[k] == ProposalEnded(id, w)
    ensures OriginAt(cfg, xs, n, k) && xs[n].call == End(id)
    ensures Wins(Run(cfg, GENESIS, xs[..n]), xs[n].block, id, w)
  {
    n := EventOrigin(cfg, xs, k);
    ChronologicalPrefix(cfg, xs, n);
    Reachable(cfg, xs[..n], id);
    EndAnnouncesWinner(cfg, Run(cfg, GENESIS, xs[..n]), LastBlock(0, xs[..n]), xs[n]);
  }

  /** Call `x` at `s` creates proposal `id`. */
  ghost predicate Opens(cfg: Config, s: State, x: Extrinsic, id: U32) {
    x.call.Create? && s.nextId == id && Step(cfg, s, x).Ok?
  }

  /** The fields of a proposal are those its creation gave it. */
  ghost predicate FiledTerms(cfg: Config, p: Proposal, x: Extrinsic)
    requires x.call.Create?
  {
    && p.proposer == x.who && p.startBlock == x.block
    && p.description == x.call.description && p.options == x.call.options
    && p.endBlock == Min(x.block + x.call.period, cfg.maxBlock)
  }

  /** Call `n` of the run is the last one to create `id`, and it gave the fields of the proposal. */
  ghost predicate FiledAt(cfg: Config, xs: seq<Extrinsic>, n: nat, id: U32) {
    && n < |xs| && Opens(cfg, Run(cfg, GENESIS, xs[..n]), xs[n], id)
    && id in Run(cfg, GENESIS, xs).proposals
    && FiledTerms(cfg, Run(cfg, GENESIS, xs).proposals[id], xs[n])
    && Creations(Run(cfg, GENESIS, xs).events, id) == Creations(Run(cfg, GENESIS, xs[..n]).events, id) + 1
  }

  lemma FiledNow(cfg: Config, front: seq<Extrinsic>, x: Extrinsic, id: U32)
    requires Opens(cfg, Run(cfg, GENESIS, front), x, id)
    ensures FiledAt(cfg, front + [x], |front|, id)
  {
    var s := Run(cfg, GENESIS, front);
    RunSnoc(cfg, GENESIS, front, x);
    TouchesOne(cfg, s, x, id);
    CreationsAppend(s.events, Deposited(cfg, s, x), id);
    assert (front + [x])[..|front|] == front;
  }

  /** A call that does not create `id` changes at most whether it is active. */
  lemma FieldsStay(cfg: Config, s: State, x: Extrinsic, id: U32)
    requires !Opens(cfg, s, x, id)
    ensures var s' := Next(cfg, s, x);
            && (id in s.proposals <==> id in s'.proposals)
            && (id in s.proposals ==> s'.proposals[id].(isActive := s.proposals[id].isActive) == s.proposals[id])
            && Creations(s'.events, id) == Creations(s.events, id)
  {
    if Step(cfg, s, x).Ok? {
      TouchesOne(cfg, s, x, id);
      CreationsAppend(s.events, Deposited(cfg, s, x), id);
    }
  }

  lemma FiledStays(cfg: Config, front: seq<Extrinsic>, x: Extrinsic, n: nat, id: U32)
    requires FiledAt(cfg, front, n, id) && !Opens(cfg, Run(cfg, GENESIS, front), x, id)
    ensures FiledAt(cfg, front + [x], n, id)
  {
    RunSnoc(cfg, GENESIS, front, x);
    FieldsStay(cfg, Run(cfg, GENESIS, front), x, id);
    assert (front + [x])[..n] == front[..n];
  }

  /** The fields of every stored proposal are those of the last successful creation of its id. */
  lemma {:induction false} ProposalIsFiled(cfg: Config, xs: seq<Extrinsic>, id: U32) returns (n: nat)
    requires id in Run(cfg, GENESIS, xs).proposals
    ensures FiledAt(cfg, xs, n, id)
  {
    var front, x := xs[..|xs| - 1], xs[|xs| - 1];
    assert xs == front + [x];
    var s := Run(cfg, GENESIS, front);
    if Opens(cfg, s, x, id) {
      n := |front|;
      FiledNow(cfg, front, x, id);
    } else {
      FieldsStay(cfg, s, x, id);
      n := ProposalIsFiled(cfg, front, id);
      FiledStays(cfg, front, x, n, id);
    }
  }
}
