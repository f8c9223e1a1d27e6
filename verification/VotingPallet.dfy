/** advanced2-contract-dev/task4/examples/substrate-dev/pallets/voting/src/lib.rs as written:
    the storage items as fields, each call a method that updates them step by step. Of the two
    blocks a call names, `before` is the one the storage has reached and `now` the call's own. */
module VotingPallet {
  import opened Prelude
  import opened ProposalVoting
  import opened ProposalInvariants
  import opened ProposalTheorems

  class Pallet {
    const cfg: Config
    var proposals: map<U32, Proposal>
    var votes: map<(U32, AccountId), VoteInfo>
    var voteResults: map<(U32, U32), U32>
    var nextProposalId: U32
    var events: seq<Event>

    /** The storage as a value. */
    ghost function Abs(): State
      reads this
    {
      State(proposals, votes, voteResults, nextProposalId, events)
    }

    /** The storage is that of some run that has not passed block `now`, so whatever holds
        after every run holds here. */
    ghost predicate Valid(now: nat)
      reads this
    {
      Reached(cfg, Abs(), now)
    }

    constructor (cfg: Config)
      ensures this.cfg == cfg && Valid(0) && Abs() == GENESIS
    {
      this.cfg := cfg;
      proposals := map[];
      votes := map[];
      voteResults := map[];
      nextProposalId := 0;
      events := [];
      new;
      GenesisReached(cfg);
    }

    method CreateProposal(
        who: AccountId, ghost before: nat, now: nat, description: Bytes, options: seq<Bytes>, period: nat)
      returns (r: Result<(), Error>)
      requires before <= now <= cfg.maxBlock && Valid(before)
      modifies this
      ensures Valid(now)
      ensures Follows(r, old(Abs()), Abs(),
                      Step(cfg, old(Abs()), Extrinsic(who, now, Create(description, options, period))))
    {
      NextReached(cfg, Abs(), before, Extrinsic(who, now, Create(description, options, period)));
      ghost var after := Next(cfg, Abs(), Extrinsic(who, now, Create(description, options, period)));
      if options == [] { return Err(NoOptions); }
      if |options| > cfg.maxOptions { return Err(TooManyOptions); }
      if |description| > cfg.maxDescription { return Err(DescriptionTooLong); }
      if !(period >= cfg.minPeriod && period <= cfg.maxPeriod) { return Err(InvalidVotingPeriod); }
      var proposalId := nextProposalId;
      var endBlock := if now + period <= cfg.maxBlock then now + period else cfg.maxBlock;
      proposals := proposals[proposalId := Proposal(who, description, options, now, endBlock, true)];
      nextProposalId := SatAdd(proposalId, 1);
      events := events + [ProposalCreated(proposalId, who, description)];
      assert Abs() == after;
      return Ok(());
    }

    method Vote(who: AccountId, ghost before: nat, now: nat, id: U32, optionIndex: U32) returns (r: Result<(), Error>)
      requires before <= now <= cfg.maxBlock && Valid(before)
      modifies this
      ensures Valid(now)
      ensures Follows(r, old(Abs()), Abs(), Step(cfg, old(Abs()), Extrinsic(who, now, Call.Vote(id, optionIndex))))
    {
      NextReached(cfg, Abs(), before, Extrinsic(who, now, Call.Vote(id, optionIndex)));
      ghost var after := Next(cfg, Abs(), Extrinsic(who, now, Call.Vote(id, optionIndex)));
      if id !in proposals { return Err(ProposalNotFound); }
      var proposal := proposals[id];
      if !proposal.isActive { return Err(ProposalNotActive); }
      if now < proposal.startBlock { return Err(VotingPeriodNotStarted); }
      if now > proposal.endBlock { return Err(VotingPeriodEnded); }
      if optionIndex >= OptionCount(proposal) { return Err(InvalidOptionIndex); }
      if (id, who) in votes { return Err(AlreadyVoted); }
      votes := votes[(id, who) := VoteInfo(optionIndex, 1)];
      var currentCount: U32 := if (id, optionIndex) in voteResults then voteResults[(id, optionIndex)] else 0;
      voteResults := voteResults[(id, optionIndex) := SatAdd(currentCount, 1)];
      events := events + [VoteCast(id, who, optionIndex)];
      assert Abs() == after;
      return Ok(());
    }

    /** The argmax loop of `end_proposal`: strictly larger counts replace the leader. */
    method WinningOption(id: U32, proposal: Proposal) returns (winner: Option<U32>)
      ensures winner == Winner(Tally(Abs(), id, OptionCount(proposal)))
      ensures IsLowestMax(Tally(Abs(), id, OptionCount(proposal)), winner)
    {
      ghost var counts := Tally(Abs(), id, OptionCount(proposal));
      var maxVotes: U32 := 0;
      winner := None;
      for i := 0 to OptionCount(proposal)
        invariant IsLowestMax(counts[..i], winner)
        invariant maxVotes == if winner.Some? then counts[winner.value] else 0
      {
        var count: U32 := if (id, i) in voteResults then voteResults[(id, i)] else 0;
        assert counts[i] == count && counts[..i + 1] == counts[..i] + [count];
        if count > maxVotes {
          maxVotes := count;
          winner := Some(i);
        }
      }
      assert counts[..|counts|] == counts;
      WinnerIsLowestMax(counts);
      LowestMaxUnique(counts, winner, Winner(counts));
    }

    method EndProposal(who: AccountId, ghost before: nat, now: nat, id: U32) returns (r: Result<(), Error>)
      requires before <= now <= cfg.maxBlock && Valid(before)
      modifies this
      ensures Valid(now)
      ensures Follows(r, old(Abs()), Abs(), Step(cfg, old(Abs()), Extrinsic(who, now, End(id))))
    {
      NextReached(cfg, Abs(), before, Extrinsic(who, now, End(id)));
      ghost var after := Next(cfg, Abs(), Extrinsic(who, now, End(id)));
      if id !in proposals { return Err(ProposalNotFound); }
      var proposal := proposals[id];
      if !proposal.isActive { return Err(ProposalNotActive); }
      if now <= proposal.endBlock { return Err(VotingPeriodEnded); }
      proposals := proposals[id := proposal.(isActive := false)];
      var winner := WinningOption(id, proposal);
      assert Tally(Abs(), id, OptionCount(proposal)) == Tally(old(Abs()), id, OptionCount(proposal));
      events := events + [ProposalEnded(id, winner)];
      assert Abs() == after;
      return Ok(());
    }

    method CancelProposal(who: AccountId, ghost before: nat, now: nat, id: U32) returns (r: Result<(), Error>)
      requires before <= now <= cfg.maxBlock && Valid(before)
      modifies this
      ensures Valid(now)
      ensures Follows(r, old(Abs()), Abs(), Step(cfg, old(Abs()), Extrinsic(who, now, Cancel(id))))
    {
      NextReached(cfg, Abs(), before, Extrinsic(who, now, Cancel(id)));
      ghost var after := Next(cfg, Abs(), Extrinsic(who, now, Cancel(id)));
      if id !in proposals { return Err(ProposalNotFound); }
      var proposal := proposals[id];
      if !proposal.isActive { return Err(ProposalNotActive); }
      if proposal.proposer != who { return Err(NotProposer); }
      proposals := proposals[id := proposal.(isActive := false)];
      events := events + [ProposalCancelled(id)];
      assert Abs() == after;
      return Ok(());
    }

    /** `get_vote_results`, pushing one count after the other: the answer is the tally of the
        votes announced, option by option. */
    method GetVoteResults(id: U32, ghost now: nat) returns (results: seq<U32>)
      requires Valid(now)
      ensures id !in proposals ==> results == []
      ensures id in proposals ==>
                && |results| == |proposals[id].options|
                && forall i: U32 :: i < |results| ==> results[i] == Min(Cast(events, id, i), U32_MAX)
    {
      results := [];
      if id !in proposals { return; }
      ReachedInv(cfg, Abs(), now, id);
      OptionCountExact(cfg, Abs(), now, id);
      for i := 0 to OptionCount(proposals[id])
        invariant |results| == i
        invariant forall j: U32 :: j < i ==> results[j] == Min(Cast(events, id, j), U32_MAX)
      {
        var count: U32 := if (id, i) in voteResults then voteResults[(id, i)] else 0;
        assert ResultOf(Abs(), id, i) == count;
        results := results + [count];
      }
    }
  }
}
