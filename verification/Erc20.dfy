/** base2-smartcontractbase/task2/MyERC20.sol over exact integers: the ledger an EIP-20
    token promises, every run of its calls, and what those runs keep. */
module Erc20 {
  import opened Prelude
  import opened Ledgers

  datatype Event =
    | Transfer(from: Address, to: Address, amount: U256)
    | Approval(owner: Address, spender: Address, amount: U256)

  datatype Error =
    | TransferFromZero | TransferToZero | InsufficientBalance
    | ApproveFromZero | ApproveToZero | InsufficientAllowance | MintToZero

  datatype Token = Token(
    totalSupply: nat,
    balances: map<Address, nat>,
    allowances: map<(Address, Address), U256>,
    log: seq<Event>)

  datatype Call =
    | CallTransfer(sender: Address, to: Address, amount: U256)
    | CallApprove(sender: Address, spender: Address, amount: U256)
    | CallTransferFrom(sender: Address, from: Address, to: Address, amount: U256)

  /** The constructor's mint into an empty ledger. */
  function Deploy(deployer: Address, supply: U256): Result<Token, Error> {
    if deployer == 0 then Err(MintToZero)
    else Ok(Token(supply, map[deployer := supply], map[], [Transfer(0, deployer, supply)]))
  }

  function Debited(m: map<Address, nat>, from: Address, amount: nat): map<Address, nat>
    requires amount <= Get(m, from)
  {
    m[from := Get(m, from) - amount]
  }

  function Credited(m: map<Address, nat>, to: Address, amount: nat): map<Address, nat> {
    m[to := Get(m, to) + amount]
  }

  /** `_transfer` with unbounded integers: debit, then credit what the debit left. */
  function Move(t: Token, from: Address, to: Address, amount: U256): Result<Token, Error> {
    if from == 0 then Err(TransferFromZero)
    else if to == 0 then Err(TransferToZero)
    else if Get(t.balances, from) < amount then Err(InsufficientBalance)
    else Ok(t.(balances := Credited(Debited(t.balances, from, amount), to, amount),
               log := t.log + [Transfer(from, to, amount)]))
  }

  function Approve(t: Token, owner: Address, spender: Address, amount: U256): Result<Token, Error> {
    if owner == 0 then Err(ApproveFromZero)
    else if spender == 0 then Err(ApproveToZero)
    else Ok(t.(allowances := t.allowances[(owner, spender) := amount],
               log := t.log + [Approval(owner, spender, amount)]))
  }

  /** `_spendAllowance`: the all-ones allowance is unlimited and is not reduced. */
  function Spend(t: Token, owner: Address, spender: Address, amount: U256): Result<Token, Error> {
    var current := Get(t.allowances, (owner, spender));
    if current < amount then Err(InsufficientAllowance)
    else if current == U256_MAX then Ok(t)
    else Ok(t.(allowances := t.allowances[(owner, spender) := current - amount]))
  }

  function Step(t: Token, call: Call): Result<Token, Error> {
    match call
    case CallTransfer(sender, to, amount) => Move(t, sender, to, amount)
    case CallApprove(sender, spender, amount) => Approve(t, sender, spender, amount)
    case CallTransferFrom(sender, from, to, amount) =>
      match Spend(t, from, sender, amount)
      case Err(e) => Err(e)
      case Ok(spent) => Move(spent, from, to, amount)
  }

  /** Where a call leads; one that reverts changes nothing. */
  function Next(t: Token, call: Call): Token {
    match Step(t, call)
    case Ok(after) => after
    case Err(_) => t
  }

  /** The ledger after a run. */
  function Run(t: Token, calls: seq<Call>): Token {
    if calls == [] then t else Next(Run(t, calls[..|calls| - 1]), calls[|calls| - 1])
  }

  /** `t` is the ledger after some deployment and some run. */
  ghost predicate Reached(t: Token) {
    exists deployer: Address, supply: U256, calls ::
      deployer != 0 && t == Run(Deploy(deployer, supply).value, calls)
  }

  lemma DeployReached(deployer: Address, supply: U256)
    requires deployer != 0
    ensures Reached(Deploy(deployer, supply).value)
  {
    assert Deploy(deployer, supply).value == Run(Deploy(deployer, supply).value, []);
  }

  lemma NextReached(t: Token, call: Call)
    requires Reached(t)
    ensures Reached(Next(t, call))
  {
    var deployer: Address, supply: U256, calls :| deployer != 0 && t == Run(Deploy(deployer, supply).value, calls);
    assert (calls + [call])[..|calls|] == calls;
    assert Next(t, call) == Run(Deploy(deployer, supply).value, calls + [call]);
  }

  /** What the log says `a` received minus what it sent. */
  function Net(log: seq<Event>, a: Address): int {
    if log == [] then 0 else
      Net(log[..|log| - 1], a) +
      match log[|log| - 1]
      case Transfer(from, to, amount) => (if to == a then amount else 0) - (if from == a then amount else 0)
      case Approval(_, _, _) => 0
  }

  /** The ledger invariant: conserved supply, entries of 256 bits, and a log that
      accounts for every balance, address 0 being the source of the mint. */
  ghost predicate Inv(t: Token) {
    && Sum(t.balances) == t.totalSupply <= U256_MAX
    && Get(t.balances, 0) == 0
    && (forall a: Address :: a != 0 ==> Get(t.balances, a) == Net(t.log, a))
    && Net(t.log, 0) + t.totalSupply == 0
  }

  lemma DeployInv(deployer: Address, supply: U256)
    requires deployer != 0
    ensures Inv(Deploy(deployer, supply).value)
  {
    var t := Deploy(deployer, supply).value;
    SumUpdate<Address>(map[], deployer, supply);
    assert t.balances == map[][deployer := supply];
    assert t.log[..0] == [];
  }

  lemma NetAppend(log: seq<Event>, e: Event, a: Address)
    ensures Net(log + [e], a) == Net(log, a) + Net([e], a)
  {
    assert (log + [e])[..|log|] == log;
    assert [e][..0] == [];
  }

  lemma MoveKeepsSum(t: Token, from: Address, to: Address, amount: U256)
    requires Move(t, from, to, amount).Ok?
    ensures Sum(Move(t, from, to, amount).value.balances) == Sum(t.balances)
  {
    DebitCredit(t.balances, from, to, amount);
  }

  /** What one entry loses another, or the same, gains. */
  lemma DebitCredit(m: map<Address, nat>, from: Address, to: Address, amount: nat)
    requires amount <= Get(m, from)
    ensures Sum(Credited(Debited(m, from, amount), to, amount)) == Sum(m)
  {
    SumUpdate(m, from, Get(m, from) - amount);
    SumUpdate(Debited(m, from, amount), to, Get(Debited(m, from, amount), to) + amount);
  }

  lemma MoveChanges(t: Token, from: Address, to: Address, amount: U256, a: Address)
    requires Move(t, from, to, amount).Ok?
    ensures var t' := Move(t, from, to, amount).value;
            Net(t'.log, a) - Net(t.log, a) == Get(t'.balances, a) - Get(t.balances, a)
  {
    NetAppend(t.log, Transfer(from, to, amount), a);
    NetOfTransfer(from, to, amount, a);
    MovedBalance(t.balances, from, to, amount, a);
  }

  lemma NetOfTransfer(from: Address, to: Address, amount: U256, a: Address)
    ensures Net([Transfer(from, to, amount)], a) == (if to == a then amount else 0) - (if from == a then amount else 0)
  {
    assert [Transfer(from, to, amount)][..0] == [];
  }

  lemma MovedBalance(m: map<Address, nat>, from: Address, to: Address, amount: nat, a: Address)
    requires amount <= Get(m, from)
    ensures Get(Credited(Debited(m, from, amount), to, amount), a) ==
            Get(m, a) + (if to == a then amount else 0) - (if from == a then amount else 0)
  {
  }

  lemma MoveInv(t: Token, from: Address, to: Address, amount: U256)
    requires Inv(t) && Move(t, from, to, amount).Ok?
    ensures Inv(Move(t, from, to, amount).value)
  {
    MoveKeepsSum(t, from, to, amount);
    forall a: Address
      ensures var t' := Move(t, from, to, amount).value;
              Net(t'.log, a) - Net(t.log, a) == Get(t'.balances, a) - Get(t.balances, a)
    {
      MoveChanges(t, from, to, amount, a);
    }
  }

  lemma ApproveInv(t: Token, owner: Address, spender: Address, amount: U256)
    requires Inv(t) && Approve(t, owner, spender, amount).Ok?
    ensures Inv(Approve(t, owner, spender, amount).value)
  {
    forall a: Address
      ensures Net(Approve(t, owner, spender, amount).value.log, a) == Net(t.log, a)
    {
      NetAppend(t.log, Approval(owner, spender, amount), a);
    }
  }

  lemma StepInv(t: Token, call: Call)
    requires Inv(t) && Step(t, call).Ok?
    ensures Inv(Step(t, call).value)
    ensures Step(t, call).value.totalSupply == t.totalSupply
  {
    match call
    case CallTransfer(sender, to, amount) => MoveInv(t, sender, to, amount);
    case CallApprove(sender, spender, amount) => ApproveInv(t, sender, spender, amount);
    case CallTransferFrom(sender, from, to, amount) =>
      MoveInv(Spend(t, from, sender, amount).value, from, to, amount);
  }

  lemma {:induction false} RunInv(t: Token, calls: seq<Call>)
    requires Inv(t)
    ensures Inv(Run(t, calls))
    ensures Run(t, calls).totalSupply == t.totalSupply
  {
    if calls != [] {
      RunInv(t, calls[..|calls| - 1]);
      var before := Run(t, calls[..|calls| - 1]);
      if Step(before, calls[|calls| - 1]).Ok? {
        StepInv(before, calls[|calls| - 1]);
      }
    }
  }

  lemma ReachedInv(t: Token)
    requires Reached(t)
    ensures Inv(t)
  {
    var deployer: Address, supply: U256, calls :| deployer != 0 && t == Run(Deploy(deployer, supply).value, calls);
    DeployInv(deployer, supply);
    RunInv(Deploy(deployer, supply).value, calls);
  }

  /** Conservation: after any run the balances sum to the deployed supply, which never
      changes, and no balance or pair of balances exceeds it. */
  lemma {:induction false} SupplyConserved(deployer: Address, supply: U256, calls: seq<Call>)
    requires deployer != 0
    ensures var t := Run(Deploy(deployer, supply).value, calls);
            && t.totalSupply == supply
            && Sum(t.balances) == supply
            && (forall a: Address, b: Address :: a != b ==> Get(t.balances, a) + Get(t.balances, b) <= supply)
  {
    DeployInv(deployer, supply);
    RunInv(Deploy(deployer, supply).value, calls);
    var t := Run(Deploy(deployer, supply).value, calls);
    forall a: Address, b: Address | a != b
      ensures Get(t.balances, a) + Get(t.balances, b) <= supply
    {
      TwoEntriesAtMostSum(t.balances, a, b);
    }
  }

  /** The emitted Transfer log alone reconstructs every balance and the supply. */
  lemma {:induction false} LogReconstructsLedger(deployer: Address, supply: U256, calls: seq<Call>)
    requires deployer != 0
    ensures var t := Run(Deploy(deployer, supply).value, calls);
            && (forall a: Address :: Get(t.balances, a) == if a == 0 then 0 else Net(t.log, a))
            && Net(t.log, 0) + t.totalSupply == 0
  {
    DeployInv(deployer, supply);
    RunInv(Deploy(deployer, supply).value, calls);
  }

  // ---------- what each call needs, told from the log ----------

  /** The deployer starts with the whole supply, everybody else with nothing, nobody with an
      allowance. */
  lemma DeployedLedger(deployer: Address, supply: U256)
    ensures Deploy(deployer, supply).Ok? <==> deployer != 0
    ensures Deploy(deployer, supply).Ok? ==>
              var t := Deploy(deployer, supply).value;
              && t.log == [Transfer(0, deployer, supply)] && t.totalSupply == supply
              && (forall a: Address :: Get(t.balances, a) == if a == deployer then supply else 0)
              && (forall owner: Address, spender: Address :: Get(t.allowances, (owner, spender)) == 0)
  {
  }

  /** A transfer succeeds if and only if both ends are real and the log gives the sender at
      least the amount. */
  lemma TransferDecided(t: Token, sender: Address, to: Address, amount: U256)
    requires Reached(t)
    ensures Decides(Step(t, CallTransfer(sender, to, amount)), Passed
      .Need(sender != 0, TransferFromZero)
      .Need(to != 0, TransferToZero)
      .Need(amount <= Net(t.log, sender), InsufficientBalance))
  {
    ReachedInv(t);
  }

  lemma ApproveDecided(t: Token, sender: Address, spender: Address, amount: U256)
    ensures Decides(Step(t, CallApprove(sender, spender, amount)), Passed
      .Need(sender != 0, ApproveFromZero)
      .Need(spender != 0, ApproveToZero))
  {
  }

  /** The allowance is checked first; an amount equal to it or to the balance is accepted. */
  lemma TransferFromDecided(t: Token, sender: Address, from: Address, to: Address, amount: U256)
    requires Reached(t)
    ensures Decides(Step(t, CallTransferFrom(sender, from, to, amount)), Passed
      .Need(amount <= Get(t.allowances, (from, sender)), InsufficientAllowance)
      .Need(from != 0, TransferFromZero)
      .Need(to != 0, TransferToZero)
      .Need(amount <= Net(t.log, from), InsufficientBalance))
  {
    ReachedInv(t);
  }

  /** The two `unchecked` lines of a transfer that passed its checks, on 256-bit words. */
  lemma UncheckedTransferIsExact(t: Token, from: Address, to: Address, amount: U256)
    requires Inv(t) && Move(t, from, to, amount).Ok?
    ensures (forall a: Address :: Get(t.balances, a) <= U256_MAX)
    ensures var debited := t.balances[from := WrapSub(Get(t.balances, from), amount)];
            && Get(debited, to) <= U256_MAX
            && debited[to := WrapAdd(Get(debited, to), amount)] == Move(t, from, to, amount).value.balances
  {
    forall a: Address
      ensures Get(t.balances, a) <= U256_MAX
    {
      EntryAtMostSum(t.balances, a);
    }
    if from != to {
      TwoEntriesAtMostSum(t.balances, from, to);
    }
  }

  /** Tokens that `spender` moves out of `owner` with this one call. */
  function MovedBy(t: Token, call: Call, owner: Address, spender: Address): nat {
    if call.CallTransferFrom? && call.sender == spender && call.from == owner && Step(t, call).Ok?
    then call.amount else 0
  }

  /** Tokens that `spender` moved out of `owner` by `transferFrom` in this run. */
  function Moved(t: Token, calls: seq<Call>, owner: Address, spender: Address): nat {
    if calls == [] then 0 else
      Moved(t, calls[..|calls| - 1], owner, spender) +
      MovedBy(Run(t, calls[..|calls| - 1]), calls[|calls| - 1], owner, spender)
  }

  predicate IsApproval(call: Call, owner: Address, spender: Address) {
    call.CallApprove? && call.sender == owner && call.spender == spender
  }

  /** A call that is not an approval takes what it moves from a finite allowance and leaves
      the unlimited one alone. */
  lemma StepAllowance(t: Token, call: Call, owner: Address, spender: Address)
    requires !IsApproval(call, owner, spender)
    ensures var start, now := Get(t.allowances, (owner, spender)), Get(Next(t, call).allowances, (owner, spender));
            if start == U256_MAX then now == start else start == now + MovedBy(t, call, owner, spender)
  {
  }

  /** No `approve` by `owner` for `spender` in the run. */
  predicate NoApproval(calls: seq<Call>, owner: Address, spender: Address) {
    forall k :: 0 <= k < |calls| ==> !IsApproval(calls[k], owner, spender)
  }

  /** Between approvals a finite allowance pays exactly for what `transferFrom` moved, and
      the unlimited one is never used up. */
  lemma {:induction false} AllowanceAccounting(t: Token, calls: seq<Call>, owner: Address, spender: Address)
    requires NoApproval(calls, owner, spender)
    ensures var start, now := Get(t.allowances, (owner, spender)), Get(Run(t, calls).allowances, (owner, spender));
            if start == U256_MAX then now == start else start == now + Moved(t, calls, owner, spender)
  {
    if calls != [] {
      AllowanceAccounting(t, calls[..|calls| - 1], owner, spender);
      StepAllowance(Run(t, calls[..|calls| - 1]), calls[|calls| - 1], owner, spender);
    }
  }

  /** All that `owner` ever approved for `spender`, added up. */
  function Granted(log: seq<Event>, owner: Address, spender: Address): nat {
    if log == [] then 0 else
      var e := log[|log| - 1];
      Granted(log[..|log| - 1], owner, spender) +
      if e.Approval? && e.owner == owner && e.spender == spender then e.amount else 0
  }

  /** `owner` never approved the unlimited amount for `spender`. */
  predicate NeverUnlimited(log: seq<Event>, owner: Address, spender: Address) {
    forall k :: 0 <= k < |log| && log[k].Approval? && log[k].owner == owner && log[k].spender == spender
                ==> log[k].amount != U256_MAX
  }

  lemma GrantedAppend(log: seq<Event>, e: Event, owner: Address, spender: Address)
    ensures Granted(log + [e], owner, spender) ==
            Granted(log, owner, spender) +
            if e.Approval? && e.owner == owner && e.spender == spender then e.amount else 0
  {
    assert (log + [e])[..|log|] == log;
  }

  /** The event a successful call emits. */
  function Emitted(call: Call): Event {
    match call
    case CallTransfer(sender, to, amount) => Transfer(sender, to, amount)
    case CallApprove(sender, spender, amount) => Approval(sender, spender, amount)
    case CallTransferFrom(_, from, to, amount) => Transfer(from, to, amount)
  }

  lemma StepLog(t: Token, call: Call)
    ensures Next(t, call).log == t.log + if Step(t, call).Ok? then [Emitted(call)] else []
  {
  }

  /** An approval replaces the allowance by the granted amount. */
  lemma StepApproval(t: Token, call: Call, owner: Address, spender: Address)
    requires IsApproval(call, owner, spender)
    ensures MovedBy(t, call, owner, spender) == 0
    ensures Get(Next(t, call).allowances, (owner, spender)) ==
            if Step(t, call).Ok? then call.amount else Get(t.allowances, (owner, spender))
  {
  }

  /** One call moves no more than it uses up or than the log newly grants. */
  lemma StepWithinGrants(t: Token, call: Call, owner: Address, spender: Address)
    requires NeverUnlimited(Next(t, call).log, owner, spender)
    ensures NeverUnlimited(t.log, owner, spender)
    ensures Get(t.allowances, (owner, spender)) < U256_MAX ==>
              var now := Get(Next(t, call).allowances, (owner, spender));
              && now < U256_MAX
              && MovedBy(t, call, owner, spender) + now - Get(t.allowances, (owner, spender))
                 <= Granted(Next(t, call).log, owner, spender) - Granted(t.log, owner, spender)
  {
    StepLog(t, call);
    GrantedAppend(t.log, Emitted(call), owner, spender);
    assert forall k :: 0 <= k < |t.log| ==> Next(t, call).log[k] == t.log[k];
    if IsApproval(call, owner, spender) {
      StepApproval(t, call, owner, spender);
      if Step(t, call).Ok? {
        assert Next(t, call).log[|t.log|] == Emitted(call);
      }
    } else {
      StepAllowance(t, call, owner, spender);
    }
  }

  /** Whole-run bound: what a spender moved plus what it may still move never exceeds what
      it was granted, unless an unlimited grant was made. */
  lemma {:induction false} MovedWithinGrants(
      deployer: Address, supply: U256, calls: seq<Call>, owner: Address, spender: Address)
    requires deployer != 0
    requires NeverUnlimited(Run(Deploy(deployer, supply).value, calls).log, owner, spender)
    ensures var start := Deploy(deployer, supply).value;
            var t := Run(start, calls);
            && Get(t.allowances, (owner, spender)) < U256_MAX
            && Moved(start, calls, owner, spender) + Get(t.allowances, (owner, spender))
               <= Granted(t.log, owner, spender)
  {
    if calls != [] {
      var front := calls[..|calls| - 1];
      StepWithinGrants(Run(Deploy(deployer, supply).value, front), calls[|calls| - 1], owner, spender);
      MovedWithinGrants(deployer, supply, front, owner, spender);
    }
  }
}
