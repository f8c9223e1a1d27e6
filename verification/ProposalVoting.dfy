/** advanced2-contract-dev/task4/examples/substrate-dev/pallets/voting/src/lib.rs: the four
    calls as transitions of the pallet's storage, and runs of them over the blocks. */
module ProposalVoting {
  import opened Prelude

  /** The `Config` constants and the largest block number. */
  datatype Config = Config(maxOptions: U32, maxDescription: U32, minPeriod: nat, maxPeriod: nat, maxBlock: nat)

  datatype Proposal = Proposal(
    proposer: AccountId, description: Bytes, options: seq<Bytes>, startBlock: nat, endBlock: nat, isActive: bool)

  datatype VoteInfo = VoteInfo(optionIndex: U32, weight: U32)

  datatype Event =
    | ProposalCreated(id: U32, proposer: AccountId, description: Bytes)
    | VoteCast(id: U32, voter: AccountId, optionIndex: U32)
    | ProposalEnded(id: U32, winner: Option<U32>)
    | ProposalCancelled(id: U32)

  datatype Error =
    | ProposalNotFound | ProposalNotActive | VotingPeriodEnded | VotingPeriodNotStarted | InvalidOptionIndex
    | AlreadyVoted | TooManyOptions | DescriptionTooLong | InvalidVotingPeriod | NotProposer | NoOptions

  /** Storage and the events deposited so far. */
  datatype State = State(
    proposals: map<U32, Proposal>,
    votes: map<(U32, AccountId), VoteInfo>,
    results: map<(U32, U32), U32>,
    nextId: U32,
    events: seq<Event>)

  const GENESIS: State := State(map[], map[], map[], 0, [])

  datatype Call =
    | Create(description: Bytes, options: seq<Bytes>, period: nat)
    | Vote(id: U32, optionIndex: U32)
    | End(id: U32)
    | Cancel(id: U32)

  /** A signed call in a block. */
  datatype Extrinsic = Extrinsic(who: AccountId, block: nat, call: Call)

  /** `options.len() as u32`. */
  function OptionCount(p: Proposal): U32 {
    |p.options| % (U32_MAX + 1)
  }

  /** `vote_results`, whose default is zero. */
  function ResultOf(s: State, id: U32, i: U32): U32 {
    if (id, i) in s.results then s.results[(id, i)] else 0
  }

  /** `get_vote_results`. */
  function Results(s: State, id: U32): seq<U32> {
    if id in s.proposals then Tally(s, id, OptionCount(s.proposals[id])) else []
  }

  /** The counts of the first `n` options. */
  function Tally(s: State, id: U32, n: U32): (counts: seq<U32>)
    ensures |counts| == n
  {
    seq(n, i requires 0 <= i < n => ResultOf(s, id, i))
  }

  /** The lowest index of the largest count, if any count is positive. */
  function Winner(counts: seq<U32>): (w: Option<U32>)
    requires |counts| <= U32_MAX
    ensures w.Some? ==> w.value < |counts|
  {
    if counts == [] then None else
      var i := |counts| - 1;
      match Winner(counts[..i])
      case None => if counts[i] > 0 then Some(i) else None
      case Some(w) => if counts[i] > counts[w] then Some(i) else Some(w)
  }

  function CreateProposal(
      cfg: Config, s: State, who: AccountId, now: nat, description: Bytes, options: seq<Bytes>, period: nat)
    : Result<State, Error>
  {
    if options == [] then Err(NoOptions)
    else if |options| > cfg.maxOptions then Err(TooManyOptions)
    else if |description| > cfg.maxDescription then Err(DescriptionTooLong)
    else if !(cfg.minPeriod <= period <= cfg.maxPeriod) then Err(InvalidVotingPeriod)
    else Ok(s.(
      proposals := s.proposals[s.nextId :=
        Proposal(who, description, options, now, Min(now + period, cfg.maxBlock), true)],
      nextId := SatAdd(s.nextId, 1),
      events := s.events + [ProposalCreated(s.nextId, who, description)]))
  }

  function CastVote(s: State, who: AccountId, now: nat, id: U32, i: U32): Result<State, Error> {
    if id !in s.proposals then Err(ProposalNotFound)
    else if !s.proposals[id].isActive then Err(ProposalNotActive)
    else if now < s.proposals[id].startBlock then Err(VotingPeriodNotStarted)
    else if now > s.proposals[id].endBlock then Err(VotingPeriodEnded)
    else if i >= OptionCount(s.proposals[id]) then Err(InvalidOptionIndex)
    else if (id, who) in s.votes then Err(AlreadyVoted)
    else Ok(s.(
      votes := s.votes[(id, who) := VoteInfo(i, 1)],
      results := s.results[(id, i) := SatAdd(ResultOf(s, id, i), 1)],
      events := s.events + [VoteCast(id, who, i)]))
  }

  function EndProposal(s: State, now: nat, id: U32): Result<State, Error> {
    if id !in s.proposals then Err(ProposalNotFound)
    else if !s.proposals[id].isActive then Err(ProposalNotActive)
    else if now <= s.proposals[id].endBlock then Err(VotingPeriodEnded)
    else Ok(s.(
      proposals := s.proposals[id := s.proposals[id].(isActive := false)],
      events := s.events + [ProposalEnded(id, Winner(Results(s, id)))]))
  }

  function CancelProposal(s: State, who: AccountId, id: U32): Result<State, Error> {
    if id !in s.proposals then Err(ProposalNotFound)
    else if !s.proposals[id].isActive then Err(ProposalNotActive)
    else if s.proposals[id].proposer != who then Err(NotProposer)
    else Ok(s.(
      proposals := s.proposals[id := s.proposals[id].(isActive := false)],
      events := s.events + [ProposalCancelled(id)]))
  }

  function Step(cfg: Config, s: State, x: Extrinsic): Result<State, Error> {
    match x.call
    case Create(description, options, period) => CreateProposal(cfg, s, x.who, x.block, description, options, period)
    case Vote(id, i) => CastVote(s, x.who, x.block, id, i)
    case End(id) => EndProposal(s, x.block, id)
    case Cancel(id) => CancelProposal(s, x.who, id)
  }

  function Next(cfg: Config, s: State, x: Extrinsic): State {
    match Step(cfg, s, x)
    case Ok(after) => after
    case Err(_) => s
  }

  function Run(cfg: Config, s: State, xs: seq<Extrinsic>): State {
    if xs == [] then s else Next(cfg, Run(cfg, s, xs[..|xs| - 1]), xs[|xs| - 1])
  }

  lemma RunSnoc(cfg: Config, s: State, front: seq<Extrinsic>, x: Extrinsic)
    ensures Run(cfg, s, front + [x]) == Next(cfg, Run(cfg, s, front), x)
  {
    assert (front + [x])[..|front|] == front;
  }

  /** Runs compose, so a statement from a reached state is one about continuations. */
  lemma {:induction false} RunConcat(cfg: Config, s: State, xs: seq<Extrinsic>, ys: seq<Extrinsic>)
    ensures Run(cfg, s, xs + ys) == Run(cfg, Run(cfg, s, xs), ys)
  {
    if ys == [] {
      assert xs + ys == xs;
    } else {
      var front, y := ys[..|ys| - 1], ys[|ys| - 1];
      RunConcat(cfg, s, xs, front);
      RunConcatSnoc(cfg, s, xs, front, y);
      assert ys == front + [y];
    }
  }

  lemma RunConcatSnoc(cfg: Config, s: State, xs: seq<Extrinsic>, front: seq<Extrinsic>, y: Extrinsic)
    requires Run(cfg, s, xs + front) == Run(cfg, Run(cfg, s, xs), front)
    ensures Run(cfg, s, xs + (front + [y])) == Run(cfg, Run(cfg, s, xs), front + [y])
  {
    SnocAssociates(xs, front, y);
    RunSnoc(cfg, s, xs + front, y);
    RunSnoc(cfg, Run(cfg, s, xs), front, y);
  }

  /** Blocks never go back and are block numbers. */
  predicate Chronological(cfg: Config, xs: seq<Extrinsic>) {
    && (forall i, j :: 0 <= i < j < |xs| ==> xs[i].block <= xs[j].block)
    && (forall i :: 0 <= i < |xs| ==> xs[i].block <= cfg.maxBlock)
  }
}
