/** The voting pallet's promises over every run from genesis whose blocks do not go back. */
module ProposalTheorems {
  import opened Prelude
  import opened ProposalVoting
  import opened ProposalInvariants

  // ---------- the winner of a tally ----------

  /** `w` is the lowest index of the largest positive count, None if there is none. */
  ghost predicate IsLowestMax(counts: seq<U32>, w: Option<U32>) {
    match w
    case None => forall j :: 0 <= j < |counts| ==> counts[j] == 0
    case Some(i) =>
      && i < |counts| && counts[i] > 0
      && (forall j :: 0 <= j < |counts| ==> counts[j] <= counts[i])
      && (forall j :: 0 <= j < i ==> counts[j] < counts[i])
  }

  lemma {:induction false} WinnerIsLowestMax(counts: seq<U32>)
    requires |counts| <= U32_MAX
    ensures IsLowestMax(counts, Winner(counts))
  {
    if counts != [] {
      WinnerIsLowestMax(counts[..|counts| - 1]);
    }
  }

  lemma LowestMaxUnique(counts: seq<U32>, v: Option<U32>, w: Option<U32>)
    requires IsLowestMax(counts, v) && IsLowestMax(counts, w)
    ensures v == w
  {
    if v.Some? && w.Some? {
      assert counts[v.value] == counts[w.value];
    }
  }

  // ---------- the plurality of the votes announced ----------

  /** The votes announced for an option, as far as a u32 counts them. */
  function Capped(events: seq<Event>, id: U32, i: U32): U32 {
    Min(Cast(events, id, i), U32_MAX)
  }

  /** `w` is the lowest option with the most votes announced for `id`; None when nobody voted. */
  ghost predicate Plurality(events: seq<Event>, id: U32, n: nat, w: Option<U32>) {
    match w
    case None => forall i: U32 :: Cast(events, id, i) == 0
    case Some(i) =>
      && i < n && Capped(events, id, i) > 0
      && (forall j: U32 :: Capped(events, id, j) <= Capped(events, id, i))
      && (forall j: U32 :: j < i ==> Capped(events, id, j) < Capped(events, id, i))
  }

  /** No vote is announced for an option the proposal does not have. */
  lemma NoVoteOutside(cfg: Config, s: State, now: nat, id: U32, i: U32)
    requires InvOf(cfg, s, now, id) && Creations(s.events, id) == 1 && i >= |s.proposals[id].options|
    ensures Cast(s.events, id, i) == 0
  {
    assert |Ballots(s, id, i)| == Cast(s.events, id, i);
    forall k: (U32, AccountId)
      ensures k !in Ballots(s, id, i)
    {
      assert k.0 == id ==> k == (id, k.1);
    }
    assert Ballots(s, id, i) == {};
  }

  /** The argmax over the tally is the plurality of the votes announced so far. */
  lemma WinnerIsPlurality(cfg: Config, s: State, now: nat, id: U32)
    requires InvOf(cfg, s, now, id) && Creations(s.events, id) == 1
    ensures Plurality(s.events, id, |s.proposals[id].options|, Winner(Results(s, id)))
  {
    OptionCountExact(cfg, s, now, id);
    var counts := Results(s, id);
    WinnerIsLowestMax(counts);
    forall i: U32
      ensures Capped(s.events, id, i) == if i < |counts| then counts[i] else 0
      ensures Capped(s.events, id, i) == 0 ==> Cast(s.events, id, i) == 0
    {
      assert ResultOf(s, id, i) == Min(Cast(s.events, id, i), U32_MAX);
      if i >= |counts| {
        NoVoteOutside(cfg, s, now, id, i);
      }
    }
    if Winner(counts) == None {
      forall i: U32
        ensures Cast(s.events, id, i) == 0
      {
        assert Capped(s.events, id, i) == 0;
      }
    }
  }

  // ---------- freezing ----------

  /** Created at most once: so is every id below U32_MAX, in every run. */
  lemma {:induction false} CreatedOnceBelowLast(cfg: Config, xs: seq<Extrinsic>, id: U32)
    requires Chronological(cfg, xs) && id < U32_MAX
    ensures Creations(Run(cfg, GENESIS, xs).events, id) <= 1
  {
    Reachable(cfg, xs, id);
  }

  /** One call on a closed proposal: its votes, results and log of votes stay; the proposal
      itself changes exactly when the call creates a proposal under its id. */
  lemma FrozenStep(cfg: Config, s: State, x: Extrinsic, id: U32)
    requires id in s.proposals && !s.proposals[id].isActive
    ensures var s' := Next(cfg, s, x);
            var recreated := x.call.Create? && Step(cfg, s, x).Ok? && s.nextId == id;
            && SameVotes(s, s', id)
            && (SameFor(s, s', id) <==> !recreated)
            && Creations(s'.events, id) == Creations(s.events, id) + (if recreated then 1 else 0)
            && forall i: U32 :: Cast(s'.events, id, i) == Cast(s.events, id, i)
  {
    if Step(cfg, s, x).Ok? {
      TouchesOne(cfg, s, x, id);
      CreationsAppend(s.events, Deposited(cfg, s, x), id);
      forall i: U32
        ensures Cast(Next(cfg, s, x).events, id, i) == Cast(s.events, id, i)
      {
        CastAppend(s.events, Deposited(cfg, s, x), id, i);
      }
    }
  }

  lemma {:induction false} CreationsGrow(cfg: Config, s: State, ys: seq<Extrinsic>, id: U32)
    ensures Creations(s.events, id) <= Creations(Run(cfg, s, ys).events, id)
  {
    if ys != [] {
      var before, y := Run(cfg, s, ys[..|ys| - 1]), ys[|ys| - 1];
      CreationsGrow(cfg, s, ys[..|ys| - 1], id);
      if Step(cfg, before, y).Ok? {
        TouchesOne(cfg, before, y, id);
        CreationsAppend(before.events, Deposited(cfg, before, y), id);
      }
    }
  }

  /** Nothing stored about `id` differs at any moment of the run `ys` from `s`. */
  ghost predicate FrozenThrough(cfg: Config, s: State, ys: seq<Extrinsic>, id: U32) {
    forall k :: 0 <= k <= |ys| ==> SameFor(s, Run(cfg, s, ys[..k]), id)
  }

  lemma FrozenSnoc(cfg: Config, s: State, front: seq<Extrinsic>, y: Extrinsic, id: U32)
    ensures FrozenThrough(cfg, s, front + [y], id) <==>
            FrozenThrough(cfg, s, front, id) && SameFor(s, Run(cfg, s, front + [y]), id)
  {
    var ys := front + [y];
    assert forall k :: 0 <= k <= |front| ==> ys[..k] == front[..k];
    assert ys[..|ys|] == ys && front[..|front|] == front;
  }

  /** From any state a closed proposal stays as it is throughout a run exactly when its id is
      not created again in it; then its log of votes stays too. */
  lemma {:induction false} FrozenFrom(cfg: Config, s: State, ys: seq<Extrinsic>, id: U32)
    requires id in s.proposals && !s.proposals[id].isActive
    ensures FrozenThrough(cfg, s, ys, id) <==>
            Creations(Run(cfg, s, ys).events, id) == Creations(s.events, id)
    ensures FrozenThrough(cfg, s, ys, id) ==>
              SameFor(s, Run(cfg, s, ys), id) &&
              forall i: U32 :: Cast(Run(cfg, s, ys).events, id, i) == Cast(s.events, id, i)
  {
    if ys != [] {
      var front, y := ys[..|ys| - 1], ys[|ys| - 1];
      assert ys == front + [y];
      FrozenFrom(cfg, s, front, id);
      FrozenSnoc(cfg, s, front, y, id);
      CreationsGrow(cfg, s, front, id);
      var before := Run(cfg, s, front);
      if FrozenThrough(cfg, s, front, id) {
        FrozenStep(cfg, before, y, id);
      } else {
        CreationsGrow(cfg, before, [y], id);
        RunConcat(cfg, s, front, [y]);
      }
    }
  }

  /** Once ended or cancelled, a proposal stays as it is through a continuation, inactive and
      with the same votes, results and log of votes, if and only if the continuation does not
      create its id again. */
  lemma {:induction false} InactiveIsFrozen(cfg: Config, xs: seq<Extrinsic>, ys: seq<Extrinsic>, id: U32)
    requires id in Run(cfg, GENESIS, xs).proposals && !Run(cfg, GENESIS, xs).proposals[id].isActive
    ensures var s, s' := Run(cfg, GENESIS, xs), Run(cfg, GENESIS, xs + ys);
            && (FrozenThrough(cfg, s, ys, id) <==> Creations(s'.events, id) == Creations(s.events, id))
            && (FrozenThrough(cfg, s, ys, id) ==>
                  && SameFor(s, s', id) && Results(s', id) == Results(s, id)
                  && forall i: U32 :: Cast(s'.events, id, i) == Cast(s.events, id, i))
  {
    RunConcat(cfg, GENESIS, xs, ys);
    FrozenFrom(cfg, Run(cfg, GENESIS, xs), ys, id);
  }

  // ---------- the announced winner ----------

  /** `id` is closed, its end was not saturated, and `w` is the plurality of its votes. */
  ghost predicate EndedWell(cfg: Config, s: State, id: U32, w: Option<U32>) {
    && id in s.proposals && !s.proposals[id].isActive && s.proposals[id].endBlock < cfg.maxBlock
    && Plurality(s.events, id, |s.proposals[id].options|, w)
  }

  lemma SamePlurality(events: seq<Event>, events': seq<Event>, id: U32, n: nat, w: Option<U32>)
    requires Plurality(events, id, n, w)
    requires forall i: U32 :: Cast(events', id, i) == Cast(events, id, i)
    ensures Plurality(events', id, n, w)
  {
    assert forall i: U32 :: Capped(events', id, i) == Capped(events, id, i);
  }

  lemma EndStep(cfg: Config, s: State, now: nat, x: Extrinsic)
    requires x.call.End? && InvOf(cfg, s, now, x.call.id) && Step(cfg, s, x).Ok? && x.block <= cfg.maxBlock
    requires Creations(s.events, x.call.id) == 1
    ensures EndedWell(cfg, Step(cfg, s, x).value, x.call.id, Winner(Results(s, x.call.id)))
  {
    var id := x.call.id;
    WinnerIsPlurality(cfg, s, now, id);
    forall i: U32
      ensures Cast(Step(cfg, s, x).value.events, id, i) == Cast(s.events, id, i)
    {
      CastAppend(s.events, Deposited(cfg, s, x), id, i);
    }
    SamePlurality(s.events, Step(cfg, s, x).value.events, id, |s.proposals[id].options|, Winner(Results(s, id)));
  }

  /** What ended well stays so while its id is not created again. */
  lemma EndedStays(cfg: Config, s: State, x: Extrinsic, id: U32, w: Option<U32>)
    requires EndedWell(cfg, s, id, w) && Creations(Next(cfg, s, x).events, id) == Creations(s.events, id)
    ensures EndedWell(cfg, Next(cfg, s, x), id, w)
  {
    FrozenStep(cfg, s, x, id);
    SamePlurality(s.events, Next(cfg, s, x).events, id, |s.proposals[id].options|, w);
  }

  /** End to end, on the log alone: every announced winner of a proposal created once, as every
      one below U32_MAX is, is the plurality of all votes announced for it in the whole run. */
  lemma {:induction false} AnnouncedWinnerIsPlurality(
      cfg: Config, xs: seq<Extrinsic>, k: nat, id: U32, w: Option<U32>)
    requires Chronological(cfg, xs) && Creations(Run(cfg, GENESIS, xs).events, id) <= 1
    requires k < |Run(cfg, GENESIS, xs).events| && Run(cfg, GENESIS, xs).events[k] == ProposalEnded(id, w)
    ensures EndedWell(cfg, Run(cfg, GENESIS, xs), id, w)
  {
    if xs != [] {
      var front, x := xs[..|xs| - 1], xs[|xs| - 1];
      var before := Run(cfg, GENESIS, front);
      Reachable(cfg, front, id);
      if Step(cfg, before, x).Ok? {
        TouchesOne(cfg, before, x, id);
        CreationsAppend(before.events, Deposited(cfg, before, x), id);
      }
      if k < |before.events| {
        AnnouncedWinnerIsPlurality(cfg, front, k, id, w);
        EndedStays(cfg, before, x, id, w);
      } else {
        EndStep(cfg, before, LastBlock(0, front), x);
      }
    }
  }

  // ---------- tallies, votes, windows ----------

  /** The incremental tally is the number of stored and of announced votes, capped at U32_MAX. */
  lemma {:induction false} TallyExact(cfg: Config, xs: seq<Extrinsic>, id: U32, i: U32)
    requires Chronological(cfg, xs)
    ensures var s := Run(cfg, GENESIS, xs);
            && ResultOf(s, id, i) == Min(|Ballots(s, id, i)|, U32_MAX)
            && |Ballots(s, id, i)| == Cast(s.events, id, i)
  {
    Reachable(cfg, xs, id);
    assert TallyOk(Run(cfg, GENESIS, xs), id);
  }

  /** The stored votes on `id` for the options below `n`. */
  function BallotsBelow(s: State, id: U32, n: nat): set<(U32, AccountId)> {
    set k | k in s.votes && k.0 == id && s.votes[k].optionIndex < n
  }

  /** The accounts with a stored vote on `id`. */
  function Voters(s: State, id: U32): set<(U32, AccountId)> {
    set k | k in s.votes && k.0 == id
  }

  function SumUp(counts: seq<U32>): nat {
    if counts == [] then 0 else SumUp(counts[..|counts| - 1]) + counts[|counts| - 1]
  }

  lemma SplitBelow(s: State, id: U32, n: U32)
    requires n > 0
    ensures |BallotsBelow(s, id, n)| == |BallotsBelow(s, id, n - 1)| + |Ballots(s, id, n - 1)|
  {
    var below, here := BallotsBelow(s, id, n - 1), Ballots(s, id, n - 1);
    assert BallotsBelow(s, id, n) == below + here;
    assert below !! here;
  }

  lemma TallyNext(s: State, id: U32, n: U32)
    requires n > 0
    ensures SumUp(Tally(s, id, n)) == SumUp(Tally(s, id, n - 1)) + ResultOf(s, id, n - 1)
  {
    assert Tally(s, id, n)[..n - 1] == Tally(s, id, n - 1);
  }

  lemma {:induction false} TallySum(s: State, id: U32, n: U32)
    requires TallyOk(s, id) && |BallotsBelow(s, id, n)| <= U32_MAX
    ensures SumUp(Tally(s, id, n)) == |BallotsBelow(s, id, n)|
  {
    if n == 0 {
      assert BallotsBelow(s, id, 0) == {};
    } else {
      SplitBelow(s, id, n);
      TallySum(s, id, n - 1);
      TallyNext(s, id, n);
      assert |Ballots(s, id, n - 1)| == Cast(s.events, id, n - 1);
    }
  }

  lemma NoProposalNoVoters(cfg: Config, s: State, now: nat, id: U32)
    requires InvOf(cfg, s, now, id) && id !in s.proposals
    ensures Voters(s, id) == {} && Results(s, id) == []
  {
    forall k: (U32, AccountId)
      ensures k !in Voters(s, id)
    {
      assert k.0 == id ==> k == (id, k.1);
    }
  }

  /** With fewer than 2^32 voters the results of a proposal add up to its voters: nothing is
      counted twice or lost. */
  lemma {:induction false} ResultsAddUp(cfg: Config, xs: seq<Extrinsic>, id: U32)
    requires Chronological(cfg, xs) && Creations(Run(cfg, GENESIS, xs).events, id) <= 1
    requires |Voters(Run(cfg, GENESIS, xs), id)| <= U32_MAX
    ensures var s := Run(cfg, GENESIS, xs); SumUp(Results(s, id)) == |Voters(s, id)|
  {
    Reachable(cfg, xs, id);
    var s := Run(cfg, GENESIS, xs);
    if id !in s.proposals {
      NoProposalNoVoters(cfg, s, LastBlock(0, xs), id);
      return;
    }
    OptionCountExact(cfg, s, LastBlock(0, xs), id);
    var n := OptionCount(s.proposals[id]);
    forall k | k in Voters(s, id)
      ensures k in BallotsBelow(s, id, n)
    {
      assert k == (id, k.1);
    }
    assert Voters(s, id) == BallotsBelow(s, id, n);
    TallySum(s, id, n);
  }

  /** A vote, once stored, is never changed or removed, whatever happens to its proposal. */
  lemma {:induction false} VotesAreKept(cfg: Config, s: State, xs: seq<Extrinsic>, id: U32, a: AccountId)
    requires (id, a) in s.votes
    ensures (id, a) in Run(cfg, s, xs).votes
    ensures Run(cfg, s, xs).votes[(id, a)] == s.votes[(id, a)]
  {
    if xs != [] {
      VotesAreKept(cfg, s, xs[..|xs| - 1], id, a);
    }
  }

  /** Every stored vote names an option of its proposal. */
  lemma {:induction false} VotesNameOptions(cfg: Config, xs: seq<Extrinsic>, id: U32, a: AccountId)
    requires Chronological(cfg, xs) && Creations(Run(cfg, GENESIS, xs).events, id) <= 1
    requires (id, a) in Run(cfg, GENESIS, xs).votes
    ensures var s := Run(cfg, GENESIS, xs);
            id in s.proposals && s.votes[(id, a)].optionIndex < |s.proposals[id].options|
  {
    Reachable(cfg, xs, id);
  }

  /** A proposal is announced as ended or cancelled at most as often as it was created, and
      one created once is announced closed exactly when it is no longer active. */
  lemma {:induction false} ClosedAtMostOnce(cfg: Config, xs: seq<Extrinsic>, id: U32)
    requires Chronological(cfg, xs)
    ensures var s := Run(cfg, GENESIS, xs);
            && Closings(s.events, id) + Active(s, id) <= Creations(s.events, id)
            && (Creations(s.events, id) == 1 ==> id in s.proposals && Closings(s.events, id) == 1 - Active(s, id))
  {
    Reachable(cfg, xs, id);
  }

  /** At every block from now on an active proposal either takes a new voter's valid vote or
      can be ended, never both and never neither. */
  lemma {:induction false} VoteOrEnd(cfg: Config, xs: seq<Extrinsic>, now: nat, id: U32, a: AccountId, i: U32)
    requires Chronological(cfg, xs) && LastBlock(0, xs) <= now
    requires var s := Run(cfg, GENESIS, xs);
             id in s.proposals && s.proposals[id].isActive && i < OptionCount(s.proposals[id]) && (id, a) !in s.votes
    ensures var s := Run(cfg, GENESIS, xs);
            CastVote(s, a, now, id, i).Ok? <==> EndProposal(s, now, id).Err?
  {
    Reachable(cfg, xs, id);
  }

  /** The blocks from now on at which an active proposal can be ended. */
  ghost predicate CanEndFrom(cfg: Config, s: State, id: U32, from: nat) {
    exists now :: from <= now <= cfg.maxBlock && EndProposal(s, now, id).Ok?
  }

  /** After any run an active proposal can still be ended at some block number if and only if
      its end block is below the largest one. */
  lemma {:induction false} EndableUnlessSaturated(cfg: Config, xs: seq<Extrinsic>, id: U32)
    requires Chronological(cfg, xs)
    requires id in Run(cfg, GENESIS, xs).proposals && Run(cfg, GENESIS, xs).proposals[id].isActive
    ensures var s := Run(cfg, GENESIS, xs);
            CanEndFrom(cfg, s, id, LastBlock(0, xs)) <==> s.proposals[id].endBlock < cfg.maxBlock
  {
    var s := Run(cfg, GENESIS, xs);
    if s.proposals[id].endBlock < cfg.maxBlock {
      assert LastBlock(0, xs) <= cfg.maxBlock && EndProposal(s, cfg.maxBlock, id).Ok?;
    }
  }

  lemma NewProposal(cfg: Config, s: State, x: Extrinsic)
    requires x.call.Create? && Step(cfg, s, x).Ok?
    ensures s.nextId in Next(cfg, s, x).proposals
    ensures var p := Next(cfg, s, x).proposals[s.nextId];
            p.isActive && p.endBlock == Min(x.block + x.call.period, cfg.maxBlock)
  {
  }

  /** Told from the call that creates it: the new proposal can be ended at some block number
      if and only if its period ends below the largest one. */
  lemma {:induction false} EndableFromCreation(cfg: Config, xs: seq<Extrinsic>, x: Extrinsic)
    requires Chronological(cfg, xs + [x]) && x.call.Create? && Step(cfg, Run(cfg, GENESIS, xs), x).Ok?
    ensures CanEndFrom(cfg, Run(cfg, GENESIS, xs + [x]), Run(cfg, GENESIS, xs).nextId, x.block) <==>
            x.block + x.call.period < cfg.maxBlock
  {
    var s, ys := Run(cfg, GENESIS, xs), xs + [x];
    RunSnoc(cfg, GENESIS, xs, x);
    NewProposal(cfg, s, x);
    assert LastBlock(0, ys) == x.block;
    EndableUnlessSaturated(cfg, ys, s.nextId);
  }

  /** Some run reaches a proposal that is active and can never be ended. */
  lemma NeverEndableIsReached(cfg: Config) returns (xs: seq<Extrinsic>)
    requires cfg.maxOptions >= 1 && cfg.minPeriod <= cfg.maxPeriod
    ensures Chronological(cfg, xs) && 0 in Run(cfg, GENESIS, xs).proposals
    ensures Run(cfg, GENESIS, xs).proposals[0].isActive
    ensures !CanEndFrom(cfg, Run(cfg, GENESIS, xs), 0, LastBlock(0, xs))
  {
    var x := Extrinsic(0, cfg.maxBlock, Create([], [[]], cfg.minPeriod));
    xs := [] + [x];
    RunSnoc(cfg, GENESIS, [], x);
    assert Run(cfg, GENESIS, []) == GENESIS && Step(cfg, GENESIS, x).Ok?;
    NewProposal(cfg, GENESIS, x);
    EndableFromCreation(cfg, [], x);
  }

  /** A proposal created once whose end block is saturated is never announced as ended. */
  lemma {:induction false} SaturatedNeverEnds(cfg: Config, xs: seq<Extrinsic>, id: U32, k: nat)
    requires Chronological(cfg, xs) && Creations(Run(cfg, GENESIS, xs).events, id) == 1
    requires id in Run(cfg, GENESIS, xs).proposals && Run(cfg, GENESIS, xs).proposals[id].endBlock == cfg.maxBlock
    requires k < |Run(cfg, GENESIS, xs).events|
    ensures !(Run(cfg, GENESIS, xs).events[k].ProposalEnded? && Run(cfg, GENESIS, xs).events[k].id == id)
  {
    var e := Run(cfg, GENESIS, xs).events[k];
    if e.ProposalEnded? && e.id == id {
      AnnouncedWinnerIsPlurality(cfg, xs, k, id, e.winner);
    }
  }

  // ---------- the boundary is reached ----------

  /** A proposal anyone can create where one option and the shortest period are allowed. */
  function Opening(cfg: Config): Extrinsic {
    Extrinsic(0, 0, Create([], [[]], cfg.minPeriod))
  }

  lemma {:induction false} OpenMany(cfg: Config, n: nat) returns (xs: seq<Extrinsic>)
    requires n <= U32_MAX && cfg.maxOptions >= 1 && cfg.minPeriod <= cfg.maxPeriod
    ensures Run(cfg, GENESIS, xs).nextId == n
  {
    if n == 0 {
      xs := [];
    } else {
      var front := OpenMany(cfg, n - 1);
      xs := front + [Opening(cfg)];
      RunSnoc(cfg, GENESIS, front, Opening(cfg));
    }
  }

  lemma Reopening(cfg: Config, s: State)
    requires s.nextId == U32_MAX && cfg.maxOptions >= 1 && cfg.minPeriod <= cfg.maxPeriod
    ensures var s1 := Next(cfg, s, Opening(cfg));
            var s2 := Next(cfg, s1, Extrinsic(0, 0, Cancel(U32_MAX)));
            var s3 := Next(cfg, s2, Opening(cfg));
            && U32_MAX in s2.proposals && !s2.proposals[U32_MAX].isActive
            && U32_MAX in s3.proposals && s3.proposals[U32_MAX].isActive
  {
  }

  /** The exception of `InactiveIsFrozen` occurs: some run closes that proposal and one more call makes it
      active again. */
  lemma LastIdIsReopened(cfg: Config) returns (xs: seq<Extrinsic>, x: Extrinsic)
    requires cfg.maxOptions >= 1 && cfg.minPeriod <= cfg.maxPeriod
    ensures var s, s' := Run(cfg, GENESIS, xs), Run(cfg, GENESIS, xs + [x]);
            && U32_MAX in s.proposals && !s.proposals[U32_MAX].isActive
            && U32_MAX in s'.proposals && s'.proposals[U32_MAX].isActive
  {
    var full := OpenMany(cfg, U32_MAX);
    var cancel := Extrinsic(0, 0, Cancel(U32_MAX));
    x := Opening(cfg);
    xs := full + [x] + [cancel];
    RunSnoc(cfg, GENESIS, full, x);
    RunSnoc(cfg, GENESIS, full + [x], cancel);
    RunSnoc(cfg, GENESIS, xs, x);
    Reopening(cfg, Run(cfg, GENESIS, full));
  }
}
