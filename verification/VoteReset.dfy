/** base2-smartcontractbase/task1/Voting.sol: votes counted over a candidate list that
    `resetVotes` clears but never shortens. */
module VoteReset {
  import opened Prelude
  import opened Ledgers

  datatype Error = VoteForSelf | Overflow

  /** Storage, with the accepted votes so far: those of each closed period, then those cast
      since the last reset. */
  datatype State = State(
    votes: map<Address, nat>,
    candidateList: seq<Address>,
    past: seq<seq<Address>>,
    current: seq<Address>)

  const EMPTY: State := State(map[], [], [], [])

  datatype Call = Vote(sender: Address, candidate: Address) | Reset

  function Step(s: State, call: Call): Result<State, Error> {
    match call
    case Vote(sender, c) =>
      if sender == c then Err(VoteForSelf)
      else if Get(s.votes, c) == U256_MAX then Err(Overflow)
      else Ok(s.(
        candidateList := if Get(s.votes, c) == 0 then s.candidateList + [c] else s.candidateList,
        votes := s.votes[c := Get(s.votes, c) + 1],
        current := s.current + [c]))
    case Reset => Ok(s.(
      votes := Cleared(s.votes, s.candidateList),
      past := s.past + [s.current],
      current := []))
  }

  /** Every listed entry set to zero. */
  function Cleared(votes: map<Address, nat>, listed: seq<Address>): map<Address, nat> {
    map c | c in votes :: if c in listed then 0 else votes[c]
  }

  /** Where a call leads; one that reverts changes nothing. */
  function Next(s: State, call: Call): State {
    match Step(s, call)
    case Ok(after) => after
    case Err(_) => s
  }

  function Run(calls: seq<Call>): State {
    if calls == [] then EMPTY else Next(Run(calls[..|calls| - 1]), calls[|calls| - 1])
  }

  /** `s` is the state after some run. */
  ghost predicate Reached(s: State) {
    exists calls: seq<Call> :: s == Run(calls)
  }

  lemma EmptyReached()
    ensures Reached(EMPTY)
  {
    assert EMPTY == Run([]);
  }

  lemma NextReached(s: State, call: Call)
    requires Reached(s)
    ensures Reached(Next(s, call))
  {
    var calls :| s == Run(calls);
    assert (calls + [call])[..|calls|] == calls;
    assert Next(s, call) == Run(calls + [call]);
  }

  function Count(ballots: seq<Address>, c: Address): nat {
    if ballots == [] then 0 else
      Count(ballots[..|ballots| - 1], c) + if ballots[|ballots| - 1] == c then 1 else 0
  }

  lemma {:induction false} CountPositive(ballots: seq<Address>, c: Address)
    ensures Count(ballots, c) > 0 <==> c in ballots
  {
    if ballots != [] {
      CountPositive(ballots[..|ballots| - 1], c);
      assert ballots == ballots[..|ballots| - 1] + [ballots[|ballots| - 1]];
    }
  }

  /** The candidates of each period in turn, each once per period. */
  function Listed(periods: seq<seq<Address>>): seq<Address> {
    if periods == [] then [] else
      Listed(periods[..|periods| - 1]) + FirstOccurrences(periods[|periods| - 1])
  }

  /** How many different candidates each period had, added up. */
  function DistinctPerPeriod(periods: seq<seq<Address>>): nat {
    if periods == [] then 0 else
      DistinctPerPeriod(periods[..|periods| - 1]) + |Elements(periods[|periods| - 1])|
  }

  lemma {:induction false} ListedLength(periods: seq<seq<Address>>)
    ensures |Listed(periods)| == DistinctPerPeriod(periods)
  {
    if periods != [] {
      ListedLength(periods[..|periods| - 1]);
      FirstOccurrencesExact(periods[|periods| - 1]);
    }
  }

  lemma ListedAppend(past: seq<seq<Address>>, current: seq<Address>)
    ensures Listed(past + [current]) == Listed(past) + FirstOccurrences(current)
  {
    assert (past + [current])[..|past|] == past;
  }

  ghost predicate Inv(s: State) {
    && (forall c: Address :: Get(s.votes, c) == Count(s.current, c) <= U256_MAX)
    && s.candidateList == Listed(s.past) + FirstOccurrences(s.current)
  }

  lemma EveryVoteListed(s: State, c: Address)
    requires Inv(s) && Get(s.votes, c) > 0
    ensures c in s.candidateList
  {
    CountPositive(s.current, c);
    FirstOccurrencesExact(s.current);
  }

  lemma CountAppend(ballots: seq<Address>, c: Address, d: Address)
    ensures Count(ballots + [c], d) == Count(ballots, d) + if c == d then 1 else 0
  {
    assert (ballots + [c])[..|ballots|] == ballots;
  }

  lemma FirstOccurrencesAppend(ballots: seq<Address>, c: Address)
    ensures FirstOccurrences(ballots + [c]) ==
            var first := FirstOccurrences(ballots); if c in ballots then first else first + [c]
  {
    assert (ballots + [c])[..|ballots|] == ballots;
    FirstOccurrencesExact(ballots);
  }

  lemma VoteInv(s: State, sender: Address, c: Address)
    requires Inv(s) && Step(s, Vote(sender, c)).Ok?
    ensures Inv(Step(s, Vote(sender, c)).value)
  {
    var s' := Step(s, Vote(sender, c)).value;
    forall d: Address
      ensures Get(s'.votes, d) == Count(s'.current, d) <= U256_MAX
    {
      assert Get(s.votes, d) == Count(s.current, d) <= U256_MAX;
      CountAppend(s.current, c, d);
    }
    assert Get(s.votes, c) == Count(s.current, c);
    CountPositive(s.current, c);
    FirstOccurrencesAppend(s.current, c);
    assert s'.candidateList == Listed(s'.past) + FirstOccurrences(s'.current);
  }

  lemma ResetInv(s: State)
    requires Inv(s)
    ensures Inv(Step(s, Reset).value)
    ensures forall c: Address :: Get(Step(s, Reset).value.votes, c) == 0
  {
    ListedAppend(s.past, s.current);
    var s' := Step(s, Reset).value;
    forall c: Address
      ensures Get(s'.votes, c) == 0
    {
      ClearedIsZero(s, c);
    }
    assert s'.candidateList == Listed(s'.past) + FirstOccurrences(s'.current);
  }

  lemma ClearedIsZero(s: State, c: Address)
    requires Inv(s)
    ensures Get(Cleared(s.votes, s.candidateList), c) == 0
  {
    if Get(s.votes, c) > 0 {
      EveryVoteListed(s, c);
    }
  }

  lemma {:induction false} RunInv(calls: seq<Call>)
    ensures Inv(Run(calls))
  {
    if calls != [] {
      var front, call := calls[..|calls| - 1], calls[|calls| - 1];
      RunInv(front);
      if call == Reset {
        ResetInv(Run(front));
      } else if Step(Run(front), call).Ok? {
        VoteInv(Run(front), call.sender, call.candidate);
      }
    }
  }

  lemma ReachedInv(s: State)
    requires Reached(s)
    ensures Inv(s)
  {
    var calls :| s == Run(calls);
    RunInv(calls);
  }

  /** The votes accepted since the last reset, told from the calls: nobody votes for itself and
      256 bits hold the count. */
  function Since(calls: seq<Call>): seq<Address> {
    if calls == [] then [] else
      var before := Since(calls[..|calls| - 1]);
      match calls[|calls| - 1]
      case Reset => []
      case Vote(sender, c) => if sender != c && Count(before, c) < U256_MAX then before + [c] else before
  }

  lemma {:induction false} CurrentIsSince(calls: seq<Call>)
    ensures Run(calls).current == Since(calls)
  {
    if calls != [] {
      CurrentIsSince(calls[..|calls| - 1]);
      RunInv(calls[..|calls| - 1]);
    }
  }

  /** After any run a vote is accepted if and only if it is for somebody else whose count does
      not overflow; a reset always is. */
  lemma {:induction false} VoteDecided(calls: seq<Call>, sender: Address, c: Address)
    ensures Decides(Step(Run(calls), Vote(sender, c)), Passed
      .Need(sender != c, VoteForSelf)
      .Need(Count(Since(calls), c) < U256_MAX, Overflow))
    ensures Step(Run(calls), Reset).Ok?
  {
    CurrentIsSince(calls);
    RunInv(calls);
  }

  /** After any run the votes of a candidate are those accepted since the last reset, and
      whoever has votes is in the list. */
  lemma {:induction false} VotesAreThoseSinceReset(calls: seq<Call>, c: Address)
    ensures var s := Run(calls);
            && Get(s.votes, c) == Count(Since(calls), c)
            && (Get(s.votes, c) > 0 ==> c in s.candidateList)
  {
    CurrentIsSince(calls);
    RunInv(calls);
    if Get(Run(calls).votes, c) > 0 {
      EveryVoteListed(Run(calls), c);
    }
  }

  /** A reset after any run leaves every address with zero votes. */
  lemma {:induction false} ResetClearsEveryone(calls: seq<Call>, c: Address)
    ensures Get(Run(calls + [Reset]).votes, c) == 0
  {
    assert (calls + [Reset])[..|calls|] == calls;
    RunInv(calls);
    ResetInv(Run(calls));
  }

  /** The list never shortens: its length is the number of different candidates of each
      period, added over all periods. */
  lemma {:induction false} ListLengthExact(calls: seq<Call>)
    ensures var s := Run(calls);
            |s.candidateList| == DistinctPerPeriod(s.past + [s.current])
  {
    RunInv(calls);
    var s := Run(calls);
    ListedAppend(s.past, s.current);
    ListedLength(s.past + [s.current]);
  }

  /** Clearing one more listed entry. */
  lemma ClearedNext(votes: map<Address, nat>, listed: seq<Address>, i: nat)
    requires i < |listed|
    ensures var so := Cleared(votes, listed[..i]);
            Cleared(votes, listed[..i + 1]) == if Get(so, listed[i]) > 0 then so[listed[i] := 0] else so
  {
    assert listed[..i + 1] == listed[..i] + [listed[i]];
  }

  lemma ResetZeroes(s: State)
    requires Reached(s)
    ensures forall c: Address :: Get(Step(s, Reset).value.votes, c) == 0
  {
    ReachedInv(s);
    ResetInv(s);
  }

  class Voting {
    var votesReceived: map<Address, nat>
    var candidateList: seq<Address>
    ghost var past: seq<seq<Address>>
    ghost var current: seq<Address>

    ghost function Abs(): State
      reads this
    {
      State(votesReceived, candidateList, past, current)
    }

    /** The state is that of some run, so whatever holds after every run holds here. */
    ghost predicate Valid()
      reads this
    {
      Reached(Abs())
    }

    constructor ()
      ensures Valid() && Abs() == EMPTY
    {
      votesReceived := map[];
      candidateList := [];
      past := [];
      current := [];
      new;
      EmptyReached();
    }

    method Vote(sender: Address, candidate: Address) returns (r: Result<(), Error>)
      requires Valid()
      modifies this
      ensures Valid()
      ensures Follows(r, old(Abs()), Abs(), Step(old(Abs()), Call.Vote(sender, candidate)))
    {
      NextReached(Abs(), Call.Vote(sender, candidate));
      ghost var after := Next(Abs(), Call.Vote(sender, candidate));
      if sender == candidate { return Err(VoteForSelf); }
      if Get(votesReceived, candidate) == U256_MAX { return Err(Overflow); }
      if Get(votesReceived, candidate) == 0 {
        candidateList := candidateList + [candidate];
      }
      votesReceived := votesReceived[candidate := Get(votesReceived, candidate) + 1];
      current := current + [candidate];
      assert Abs() == after;
      return Ok(());
    }

    method GetVotes(candidate: Address) returns (number: nat)
      requires Valid()
      ensures number == Count(current, candidate)
    {
      ReachedInv(Abs());
      number := Get(votesReceived, candidate);
    }

    method ResetVotes()
      requires Valid()
      modifies this
      ensures Valid()
      ensures Abs() == Step(old(Abs()), Reset).value
      ensures forall c: Address :: Get(votesReceived, c) == 0
    {
      ghost var after := Next(Abs(), Reset);
      NextReached(Abs(), Reset);
      ResetZeroes(Abs());
      for i := 0 to |candidateList|
        invariant candidateList == old(candidateList) && past == old(past) && current == old(current)
        invariant votesReceived == Cleared(old(votesReceived), candidateList[..i])
      {
        var c := candidateList[i];
        ClearedNext(old(votesReceived), candidateList, i);
        if Get(votesReceived, c) > 0 {
          votesReceived := votesReceived[c := 0];
        }
      }
      assert candidateList[..|candidateList|] == candidateList;
      past := past + [current];
      current := [];
      assert Abs() == after;
    }
  }
}
