/** base2-smartcontractbase/task2/BeggingContract.sol: its calls as state transitions, what
    every run keeps, and the ranking of donors. */
module Begging {
  import opened Prelude
  import opened Ledgers

  const SECONDS_PER_DAY: int := 86400

  /** The `Donation` event. */
  datatype Donation = Donation(donor: Address, amount: U256, timestamp: U256)

  datatype Error = OnlyOwner | NotInPeriod | ZeroDonation | NoFunds | WithdrawalFailed | Overflow

  /** Storage, ether held, ether paid out so far, and events. */
  datatype State = State(
    owner: Address,
    start: U256,
    end: U256,
    donations: map<Address, nat>,
    allDonors: seq<Address>,
    balance: nat,
    withdrawn: nat,
    log: seq<Donation>)

  datatype Call =
    | Donate(sender: Address, value: U256, now: U256)
    | Withdraw(sender: Address, paid: bool)
    | UpdatePeriod(sender: Address, days: U256, now: U256)

  /** `now + days * 1 days` in checked arithmetic. */
  function PeriodEnd(now: U256, days: U256): Option<U256> {
    if now + days * SECONDS_PER_DAY <= U256_MAX then Some(now + days * SECONDS_PER_DAY) else None
  }

  function Deploy(owner: Address, days: U256, now: U256): Result<State, Error> {
    match PeriodEnd(now, days)
    case None => Err(Overflow)
    case Some(end) => Ok(State(owner, now, end, map[], [], 0, 0, []))
  }

  function Step(s: State, call: Call): Result<State, Error> {
    match call
    case Donate(sender, value, now) =>
      if !(s.start <= now <= s.end) then Err(NotInPeriod)
      else if value == 0 then Err(ZeroDonation)
      else if Get(s.donations, sender) + value > U256_MAX then Err(Overflow)
      else Ok(s.(
        allDonors := if Get(s.donations, sender) == 0 then s.allDonors + [sender] else s.allDonors,
        donations := s.donations[sender := Get(s.donations, sender) + value],
        balance := s.balance + value,
        log := s.log + [Donation(sender, value, now)]))
    case Withdraw(sender, paid) =>
      if sender != s.owner then Err(OnlyOwner)
      else if s.balance == 0 then Err(NoFunds)
      else if !paid then Err(WithdrawalFailed)
      else Ok(s.(balance := 0, withdrawn := s.withdrawn + s.balance))
    case UpdatePeriod(sender, days, now) =>
      if sender != s.owner then Err(OnlyOwner)
      else
        match PeriodEnd(now, days)
        case None => Err(Overflow)
        case Some(end) => Ok(s.(end := end))
  }

  /** Where a call leads; one that reverts changes nothing. */
  function Next(s: State, call: Call): State {
    match Step(s, call)
    case Ok(after) => after
    case Err(_) => s
  }

  /** The state after a run. */
  function Run(s: State, calls: seq<Call>): State {
    if calls == [] then s else Next(Run(s, calls[..|calls| - 1]), calls[|calls| - 1])
  }

  /** What the events say `d` gave in all. */
  function Donated(log: seq<Donation>, d: Address): nat {
    if log == [] then 0 else
      Donated(log[..|log| - 1], d) + if log[|log| - 1].donor == d then log[|log| - 1].amount else 0
  }

  /** The donor of each event, in order. */
  function Donors(log: seq<Donation>): seq<Address> {
    seq(|log|, i requires 0 <= i < |log| => log[i].donor)
  }

  /** Each record is the sum of that donor's events and fits in 256 bits. */
  ghost predicate RecordsMatchLog(s: State) {
    forall d: Address :: Get(s.donations, d) == Donated(s.log, d) <= U256_MAX
  }

  /** The list holds exactly the addresses with a donation, in order of first donation. */
  ghost predicate ListMatchesLog(s: State) {
    && (forall d: Address :: d in s.allDonors <==> Get(s.donations, d) > 0)
    && s.allDonors == FirstOccurrences(Donors(s.log))
  }

  ghost predicate Inv(s: State) {
    && RecordsMatchLog(s)
    && ListMatchesLog(s)
    && s.balance + s.withdrawn == Sum(s.donations)
  }

  lemma DonatedAppend(log: seq<Donation>, e: Donation, d: Address)
    ensures Donated(log + [e], d) == Donated(log, d) + if e.donor == d then e.amount else 0
  {
    assert (log + [e])[..|log|] == log;
  }

  lemma FirstDonorsAppend(log: seq<Donation>, e: Donation)
    ensures FirstOccurrences(Donors(log + [e])) ==
            var before := FirstOccurrences(Donors(log));
            if e.donor in before then before else before + [e.donor]
  {
    assert Donors(log + [e])[..|log|] == Donors(log);
  }

  lemma DonateKeepsRecords(s: State, call: Call)
    requires RecordsMatchLog(s) && call.Donate? && Step(s, call).Ok?
    ensures RecordsMatchLog(Step(s, call).value)
  {
    forall d: Address
      ensures Get(Step(s, call).value.donations, d) == Donated(Step(s, call).value.log, d) <= U256_MAX
    {
      DonatedAppend(s.log, Donation(call.sender, call.value, call.now), d);
    }
  }

  lemma DonateKeepsList(s: State, call: Call)
    requires ListMatchesLog(s) && call.Donate? && Step(s, call).Ok?
    ensures ListMatchesLog(Step(s, call).value)
  {
    FirstDonorsAppend(s.log, Donation(call.sender, call.value, call.now));
  }

  lemma DonateInv(s: State, call: Call)
    requires Inv(s) && call.Donate? && Step(s, call).Ok?
    ensures Inv(Step(s, call).value)
  {
    DonateKeepsRecords(s, call);
    DonateKeepsList(s, call);
    SumUpdate(s.donations, call.sender, Get(s.donations, call.sender) + call.value);
  }

  lemma NextInv(s: State, call: Call)
    requires Inv(s)
    ensures Inv(Next(s, call))
  {
    if call.Donate? && Step(s, call).Ok? {
      DonateInv(s, call);
    }
  }

  lemma {:induction false} RunInv(s: State, calls: seq<Call>)
    requires Inv(s)
    ensures Inv(Run(s, calls))
  {
    if calls != [] {
      RunInv(s, calls[..|calls| - 1]);
      NextInv(Run(s, calls[..|calls| - 1]), calls[|calls| - 1]);
    }
  }

  /** `s` is the state after some deployment and some run. */
  ghost predicate Reached(s: State) {
    exists owner, days, now, calls ::
      Deploy(owner, days, now).Ok? && s == Run(Deploy(owner, days, now).value, calls)
  }

  lemma DeployReached(owner: Address, days: U256, now: U256)
    requires Deploy(owner, days, now).Ok?
    ensures Reached(Deploy(owner, days, now).value)
  {
    assert Deploy(owner, days, now).value == Run(Deploy(owner, days, now).value, []);
  }

  lemma NextReached(s: State, call: Call)
    requires Reached(s)
    ensures Reached(Next(s, call))
  {
    var owner, days, now, calls :|
      Deploy(owner, days, now).Ok? && s == Run(Deploy(owner, days, now).value, calls);
    assert (calls + [call])[..|calls|] == calls;
    assert Next(s, call) == Run(Deploy(owner, days, now).value, calls + [call]);
  }

  lemma ReachedInv(s: State)
    requires Reached(s)
    ensures Inv(s)
  {
    var owner, days, now, calls :|
      Deploy(owner, days, now).Ok? && s == Run(Deploy(owner, days, now).value, calls);
    RunInv(Deploy(owner, days, now).value, calls);
  }

  /** After any run: the ether held and the ether paid out add up to all recorded
      donations, and each record is the sum of that donor's events. */
  lemma {:induction false} EtherAccounted(owner: Address, days: U256, now: U256, calls: seq<Call>)
    requires Deploy(owner, days, now).Ok?
    ensures var s := Run(Deploy(owner, days, now).value, calls);
            && s.balance + s.withdrawn == Sum(s.donations)
            && (forall d: Address :: Get(s.donations, d) == Donated(s.log, d) <= U256_MAX)
  {
    RunInv(Deploy(owner, days, now).value, calls);
  }

  /** After any run the donor list holds each address with a donation exactly once, in the
      order of the first donations. */
  lemma {:induction false} DonorListExact(owner: Address, days: U256, now: U256, calls: seq<Call>)
    requires Deploy(owner, days, now).Ok?
    ensures var s := Run(Deploy(owner, days, now).value, calls);
            && Distinct(s.allDonors)
            && (forall d: Address :: d in s.allDonors <==> Get(s.donations, d) > 0)
            && s.allDonors == FirstOccurrences(Donors(s.log))
  {
    RunInv(Deploy(owner, days, now).value, calls);
    FirstOccurrencesExact(Donors(Run(Deploy(owner, days, now).value, calls).log));
  }

  // ---------- what each call needs, told from the deployment, the calls and the log ----------

  /** The end of the period: that of the deployment until the owner sets another one. */
  function EndAfter(owner: Address, end: nat, calls: seq<Call>): nat {
    if calls == [] then end else
      var call := calls[|calls| - 1];
      if call.UpdatePeriod? && call.sender == owner && call.now + call.days * 86400 <= U256_MAX
      then call.now + call.days * 86400
      else EndAfter(owner, end, calls[..|calls| - 1])
  }

  function TotalDonated(log: seq<Donation>): nat {
    if log == [] then 0 else TotalDonated(log[..|log| - 1]) + log[|log| - 1].amount
  }

  lemma DeployDecided(owner: Address, days: U256, now: U256)
    ensures Decides(Deploy(owner, days, now), Passed.Need(now + days * 86400 <= U256_MAX, Overflow))
  {
  }

  /** After any run the owner and the period are those of the deployment and of the owner's
      updates, and held and paid ether add up to all donations announced. */
  lemma {:induction false} ParametersTold(owner: Address, days: U256, now: U256, calls: seq<Call>)
    requires Deploy(owner, days, now).Ok?
    ensures var s := Run(Deploy(owner, days, now).value, calls);
            && s.owner == owner && s.start == now && s.end == EndAfter(owner, now + days * 86400, calls)
            && s.balance + s.withdrawn == TotalDonated(s.log)
  {
    if calls != [] {
      ParametersTold(owner, days, now, calls[..|calls| - 1]);
      TotalFollows(Run(Deploy(owner, days, now).value, calls[..|calls| - 1]), calls[|calls| - 1]);
    }
  }

  lemma TotalFollows(s: State, call: Call)
    requires s.balance + s.withdrawn == TotalDonated(s.log)
    ensures var s' := Next(s, call); s'.balance + s'.withdrawn == TotalDonated(s'.log)
  {
    if call.Donate? {
      var e := Donation(call.sender, call.value, call.now);
      assert (s.log + [e])[..|s.log|] == s.log;
    }
  }

  lemma {:induction false} DonateDecided(
      owner: Address, days: U256, now: U256, calls: seq<Call>, sender: Address, value: U256, at: U256)
    requires Deploy(owner, days, now).Ok?
    ensures var s := Run(Deploy(owner, days, now).value, calls);
            && Decides(Step(s, Donate(sender, value, at)), Passed
                 .Need(now <= at <= EndAfter(owner, now + days * 86400, calls), NotInPeriod)
                 .Need(value > 0, ZeroDonation)
                 .Need(Donated(s.log, sender) + value <= U256_MAX, Overflow))
            && (Step(s, Donate(sender, value, at)).Ok? ==>
                  Next(s, Donate(sender, value, at)).log == s.log + [Donation(sender, value, at)])
  {
    ParametersTold(owner, days, now, calls);
    RunInv(Deploy(owner, days, now).value, calls);
  }

  lemma {:induction false} OwnerCallsDecided(
      owner: Address, days: U256, now: U256, calls: seq<Call>, sender: Address, paid: bool, newDays: U256, at: U256)
    requires Deploy(owner, days, now).Ok?
    ensures var s := Run(Deploy(owner, days, now).value, calls);
            && Decides(Step(s, Withdraw(sender, paid)), Passed
                 .Need(sender == owner, OnlyOwner)
                 .Need(TotalDonated(s.log) > s.withdrawn, NoFunds)
                 .Need(paid, WithdrawalFailed))
            && Decides(Step(s, UpdatePeriod(sender, newDays, at)), Passed
                 .Need(sender == owner, OnlyOwner)
                 .Need(at + newDays * 86400 <= U256_MAX, Overflow))
  {
    ParametersTold(owner, days, now, calls);
  }

  /** Over any run ether leaves if and only if the owner withdraws, the payment goes through and
      donations exceed what was paid out; then exactly that excess leaves. No call writes the
      log or a record but a donation. */
  lemma {:induction false} PayoutExact(owner: Address, days: U256, now: U256, calls: seq<Call>, call: Call)
    requires Deploy(owner, days, now).Ok?
    ensures var s := Run(Deploy(owner, days, now).value, calls);
            var s' := Next(s, call);
            var pays := call.Withdraw? && call.sender == owner && call.paid && TotalDonated(s.log) > s.withdrawn;
            && (s'.balance < s.balance <==> pays) && (s'.withdrawn > s.withdrawn <==> pays)
            && s'.withdrawn == (if pays then TotalDonated(s.log) else s.withdrawn)
            && (!call.Donate? ==> s'.log == s.log && s'.donations == s.donations && s'.allDonors == s.allDonors)
  {
    ParametersTold(owner, days, now, calls);
  }

  // ---------- ranking ----------

  /** `a` gave more than `b`, or as much and is listed earlier. */
  ghost predicate Outranks(donors: seq<Address>, amounts: map<Address, nat>, a: Address, b: Address) {
    || Get(amounts, a) > Get(amounts, b)
    || (Get(amounts, a) == Get(amounts, b) &&
        exists i, j :: 0 <= i < j < |donors| && donors[i] == a && donors[j] == b)
  }

  /** `r` is the stable descending sort of `donors` by amount. */
  ghost predicate IsRanking(donors: seq<Address>, amounts: map<Address, nat>, r: seq<Address>) {
    && |r| == |donors|
    && (forall d: Address :: d in r <==> d in donors)
    && (forall i, j :: 0 <= i < j < |r| ==> Outranks(donors, amounts, r[i], r[j]))
  }

  /** Where `d` goes in a ranking: behind everyone who gave at least as much. */
  function Place(ranked: seq<Address>, amounts: map<Address, nat>, d: Address): (p: nat)
    ensures p <= |ranked|
    ensures forall k :: 0 <= k < p ==> Get(amounts, ranked[k]) >= Get(amounts, d)
    ensures p < |ranked| ==> Get(amounts, ranked[p]) < Get(amounts, d)
  {
    if ranked == [] || Get(amounts, ranked[0]) < Get(amounts, d) then 0
    else 1 + Place(ranked[1..], amounts, d)
  }

  function Insert(ranked: seq<Address>, amounts: map<Address, nat>, d: Address): seq<Address> {
    var p := Place(ranked, amounts, d);
    ranked[..p] + [d] + ranked[p..]
  }

  /** Insertion sort of the donors. */
  function Ranking(donors: seq<Address>, amounts: map<Address, nat>): seq<Address> {
    if donors == [] then [] else
      Insert(Ranking(donors[..|donors| - 1], amounts), amounts, donors[|donors| - 1])
  }

  lemma RankingNext(donors: seq<Address>, amounts: map<Address, nat>, i: nat)
    requires i < |donors|
    ensures Ranking(donors[..i + 1], amounts) == Insert(Ranking(donors[..i], amounts), amounts, donors[i])
  {
    assert donors[..i + 1][..i] == donors[..i];
  }

  lemma OutranksLift(front: seq<Address>, d: Address, amounts: map<Address, nat>, a: Address, b: Address)
    requires Outranks(front, amounts, a, b)
    ensures Outranks(front + [d], amounts, a, b)
  {
    if Get(amounts, a) == Get(amounts, b) {
      var i, j :| 0 <= i < j < |front| && front[i] == a && front[j] == b;
      assert (front + [d])[i] == a && (front + [d])[j] == b;
    }
  }

  /** Inserting the next donor keeps the ranking. */
  lemma InsertKeepsRanking(front: seq<Address>, d: Address, amounts: map<Address, nat>, r: seq<Address>)
    requires IsRanking(front, amounts, r)
    ensures IsRanking(front + [d], amounts, Insert(r, amounts, d))
  {
    var p := Place(r, amounts, d);
    var r' := Insert(r, amounts, d);
    forall i, j | 0 <= i < j < |r'|
      ensures Outranks(front + [d], amounts, r'[i], r'[j])
    {
      if j == p {
        assert r[i] in front;
        var k :| 0 <= k < |front| && front[k] == r[i];
        assert (front + [d])[k] == r[i] && (front + [d])[|front|] == d;
      } else if i == p {
        if p < j - 1 {
          assert Outranks(front, amounts, r[p], r[j - 1]);
        }
      } else {
        OutranksLift(front, d, amounts, r'[i], r'[j]);
      }
    }
  }

  /** The ranking exists. */
  lemma {:induction false} RankingIsRanking(donors: seq<Address>, amounts: map<Address, nat>)
    ensures IsRanking(donors, amounts, Ranking(donors, amounts))
  {
    if donors != [] {
      var front := donors[..|donors| - 1];
      RankingIsRanking(front, amounts);
      InsertKeepsRanking(front, donors[|donors| - 1], amounts, Ranking(front, amounts));
      assert donors == front + [donors[|donors| - 1]];
    }
  }

  lemma OutranksAsymmetric(donors: seq<Address>, amounts: map<Address, nat>, a: Address, b: Address)
    requires Distinct(donors)
    requires Outranks(donors, amounts, a, b)
    ensures !Outranks(donors, amounts, b, a)
  {
  }

  lemma {:induction false} RankingsAgreeUpTo(
      donors: seq<Address>, amounts: map<Address, nat>, r: seq<Address>, q: seq<Address>, n: nat)
    requires Distinct(donors)
    requires IsRanking(donors, amounts, r) && IsRanking(donors, amounts, q)
    requires n <= |donors|
    ensures r[..n] == q[..n]
  {
    if n > 0 {
      RankingsAgreeUpTo(donors, amounts, r, q, n - 1);
      var x, y := r[n - 1], q[n - 1];
      if x != y {
        Later(donors, amounts, r, q, n - 1);
        Later(donors, amounts, q, r, n - 1);
        OutranksAsymmetric(donors, amounts, x, y);
      }
    }
  }

  lemma RankingDistinct(donors: seq<Address>, amounts: map<Address, nat>, r: seq<Address>)
    requires Distinct(donors) && IsRanking(donors, amounts, r)
    ensures Distinct(r)
  {
    forall i, j | 0 <= i < j < |r|
      ensures r[i] != r[j]
    {
      OutranksAsymmetric(donors, amounts, r[i], r[j]);
    }
  }

  /** Where two rankings first differ, each one's entry comes later in the other. */
  lemma Later(donors: seq<Address>, amounts: map<Address, nat>, r: seq<Address>, q: seq<Address>, n: nat)
    requires Distinct(donors)
    requires IsRanking(donors, amounts, r) && IsRanking(donors, amounts, q)
    requires n < |donors| && r[..n] == q[..n] && r[n] != q[n]
    ensures Outranks(donors, amounts, q[n], r[n])
  {
    RankingDistinct(donors, amounts, r);
    assert r[n] in donors;
    var m :| 0 <= m < |q| && q[m] == r[n];
    assert forall k :: 0 <= k < n ==> q[k] == q[..n][k] == r[..n][k] == r[k];
    assert n < m;
  }

  /** The ranking is unique, so "the stable descending sort" is well defined. */
  lemma RankingUnique(donors: seq<Address>, amounts: map<Address, nat>, r: seq<Address>)
    requires Distinct(donors)
    requires IsRanking(donors, amounts, r)
    ensures r == Ranking(donors, amounts)
  {
    RankingIsRanking(donors, amounts);
    RankingsAgreeUpTo(donors, amounts, r, Ranking(donors, amounts), |donors|);
    assert r[..|donors|] == r;
    assert Ranking(donors, amounts)[..|donors|] == Ranking(donors, amounts);
  }

  /** Entry `k` of a ranking, address 0 past its end. */
  function DonorAt(r: seq<Address>, k: nat): Address {
    if k < |r| then r[k] else 0
  }

  /** Its amount, 0 past the end. */
  function AmountAt(r: seq<Address>, amounts: map<Address, nat>, k: nat): nat {
    if k < |r| then Get(amounts, r[k]) else 0
  }

  /** The first three of a ranking. */
  function TopDonors(r: seq<Address>): seq<Address> {
    [DonorAt(r, 0), DonorAt(r, 1), DonorAt(r, 2)]
  }

  function TopAmounts(r: seq<Address>, amounts: map<Address, nat>): seq<nat> {
    [AmountAt(r, amounts, 0), AmountAt(r, amounts, 1), AmountAt(r, amounts, 2)]
  }

  /** A podium whose slots from `j` on are shifted down to make room for `x`. */
  function Shifted<T>(podium: seq<T>, j: nat, x: T): seq<T>
    requires |podium| == 3 && j <= 3
  {
    if j == 3 then podium else podium[..j] + [x] + podium[j..2]
  }

  lemma ShiftedAt<T>(podium: seq<T>, j: nat, x: T, k: nat)
    requires |podium| == 3 && j <= 3 && k < 3
    ensures |Shifted(podium, j, x)| == 3
    ensures Shifted(podium, j, x)[k] == ShiftedSlot(podium, j, x, k)
  {
  }

  /** Slot `k` of the shifted podium. */
  function ShiftedSlot<T>(podium: seq<T>, j: nat, x: T, k: nat): T
    requires |podium| == 3 && k < 3
  {
    if k < j then podium[k] else if k == j then x else podium[k - 1]
  }

  lemma IsShifted<T>(podium: seq<T>, q: seq<T>, j: nat, x: T)
    requires |podium| == 3 && j <= 3
    requires q == [ShiftedSlot(podium, j, x, 0), ShiftedSlot(podium, j, x, 1), ShiftedSlot(podium, j, x, 2)]
    ensures q == Shifted(podium, j, x)
  {
    ShiftedAt(podium, j, x, 0);
    ShiftedAt(podium, j, x, 1);
    ShiftedAt(podium, j, x, 2);
  }

  lemma InsertAt(r: seq<Address>, amounts: map<Address, nat>, d: Address, k: nat)
    ensures InsertedAt(r, Insert(r, amounts, d), amounts, d, Place(r, amounts, d), k)
  {
  }

  /** If `j` is the first podium slot the donor beats, shifting the podium there is inserting
      the donor into the whole ranking. */
  lemma PodiumInsert(r: seq<Address>, amounts: map<Address, nat>, d: Address, j: nat)
    requires Get(amounts, d) > 0 && j <= 3
    requires forall m :: 0 <= m < j ==> TopAmounts(r, amounts)[m] >= Get(amounts, d)
    requires j < 3 ==> TopAmounts(r, amounts)[j] < Get(amounts, d)
    ensures TopDonors(Insert(r, amounts, d)) == Shifted(TopDonors(r), j, d)
    ensures TopAmounts(Insert(r, amounts, d), amounts) == Shifted(TopAmounts(r, amounts), j, Get(amounts, d))
  {
    PlaceOnPodium(r, amounts, d, j);
    forall k: nat
      ensures InsertedAt(r, Insert(r, amounts, d), amounts, d, Place(r, amounts, d), k)
    {
      InsertAt(r, amounts, d, k);
    }
    PodiumShift(r, Insert(r, amounts, d), amounts, d, j, Place(r, amounts, d));
  }

  /** Slot `k` of `q` is that of `r` with `d` put in at place `p`. */
  ghost predicate InsertedAt(
      r: seq<Address>, q: seq<Address>, amounts: map<Address, nat>, d: Address, p: nat, k: nat)
  {
    && DonorAt(q, k) == (if k < p then DonorAt(r, k) else if k == p then d else DonorAt(r, k - 1))
    && AmountAt(q, amounts, k) ==
       (if k < p then AmountAt(r, amounts, k) else if k == p then Get(amounts, d) else AmountAt(r, amounts, k - 1))
  }

  lemma PodiumShift(r: seq<Address>, q: seq<Address>, amounts: map<Address, nat>, d: Address, j: nat, p: nat)
    requires if j < 3 then p == j else j == 3 && p >= 3
    requires forall k: nat :: InsertedAt(r, q, amounts, d, p, k)
    ensures TopDonors(q) == Shifted(TopDonors(r), j, d)
    ensures TopAmounts(q, amounts) == Shifted(TopAmounts(r, amounts), j, Get(amounts, d))
  {
    assert InsertedAt(r, q, amounts, d, p, 0);
    assert InsertedAt(r, q, amounts, d, p, 1);
    assert InsertedAt(r, q, amounts, d, p, 2);
    IsShifted(TopDonors(r), TopDonors(q), j, d);
    IsShifted(TopAmounts(r, amounts), TopAmounts(q, amounts), j, Get(amounts, d));
  }

  /** The first podium slot the donor beats is its place in the ranking. */
  lemma PlaceOnPodium(r: seq<Address>, amounts: map<Address, nat>, d: Address, j: nat)
    requires Get(amounts, d) > 0 && j <= 3
    requires forall m :: 0 <= m < j ==> TopAmounts(r, amounts)[m] >= Get(amounts, d)
    requires j < 3 ==> TopAmounts(r, amounts)[j] < Get(amounts, d)
    ensures if j < 3 then Place(r, amounts, d) == j else Place(r, amounts, d) >= 3
  {
    var p := Place(r, amounts, d);
    assert AmountAt(r, amounts, p) < Get(amounts, d);
    assert forall k :: 0 <= k < 3 ==> TopAmounts(r, amounts)[k] == AmountAt(r, amounts, k);
  }
}
