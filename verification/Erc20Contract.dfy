/** base2-smartcontractbase/task2/MyERC20.sol as written, on 256-bit words. */
module Erc20Contract {
  import opened Prelude
  import opened Ledgers
  import opened Erc20

  class MyERC20 {
    var totalSupply: U256
    var balances: map<Address, U256>
    var allowances: map<(Address, Address), U256>
    var log: seq<Event>

    /** The contract's storage and emitted events as a value. */
    ghost function Abs(): Token
      reads this
    {
      Token(totalSupply, balances, allowances, log)
    }

    /** The ledger is that of some run, so whatever holds after every run holds here. */
    ghost predicate Valid()
      reads this
    {
      Reached(Abs())
    }

    /** The source's constructor; a deployment by the zero address reverts in `_mint`. */
    constructor (deployer: Address, initialSupply: U256)
      requires deployer != 0
      ensures Valid()
      ensures Abs() == Deploy(deployer, initialSupply).value
    {
      totalSupply := initialSupply;
      balances := map[deployer := WrapAdd(0, initialSupply)];
      allowances := map[];
      log := [Event.Transfer(0, deployer, initialSupply)];
      new;
      DeployReached(deployer, initialSupply);
    }

    method BalanceOf(account: Address) returns (balance: U256)
      requires Valid()
      ensures balance == if account == 0 then 0 else Net(log, account)
    {
      ReachedInv(Abs());
      balance := Get(balances, account);
    }

    /** The internal `_transfer`: the wrapping updates equal the exact ones. */
    method DoTransfer(from: Address, to: Address, amount: U256) returns (r: Result<(), Error>)
      requires Inv(Abs())
      modifies this
      ensures Inv(Abs())
      ensures Follows(r, old(Abs()), Abs(), Move(old(Abs()), from, to, amount))
    {
      if from == 0 { return Err(TransferFromZero); }
      if to == 0 { return Err(TransferToZero); }
      if Get(balances, from) < amount { return Err(InsufficientBalance); }
      UncheckedTransferIsExact(Abs(), from, to, amount);
      MoveInv(Abs(), from, to, amount);
      balances := balances[from := WrapSub(Get(balances, from), amount)];
      balances := balances[to := WrapAdd(Get(balances, to), amount)];
      log := log + [Event.Transfer(from, to, amount)];
      return Ok(());
    }

    /** The internal `_approve`. */
    method DoApprove(owner: Address, spender: Address, amount: U256) returns (r: Result<(), Error>)
      requires Inv(Abs())
      modifies this
      ensures Inv(Abs())
      ensures Follows(r, old(Abs()), Abs(), Erc20.Approve(old(Abs()), owner, spender, amount))
    {
      if owner == 0 { return Err(ApproveFromZero); }
      if spender == 0 { return Err(ApproveToZero); }
      ApproveInv(Abs(), owner, spender, amount);
      allowances := allowances[(owner, spender) := amount];
      log := log + [Event.Approval(owner, spender, amount)];
      return Ok(());
    }

    /** The internal `_spendAllowance`. */
    method SpendAllowance(owner: Address, spender: Address, amount: U256) returns (r: Result<(), Error>)
      requires Inv(Abs())
      modifies this`allowances
      ensures Inv(Abs())
      ensures Follows(r, old(Abs()), Abs(), Spend(old(Abs()), owner, spender, amount))
    {
      var currentAllowance := Get(allowances, (owner, spender));
      if currentAllowance < amount { return Err(InsufficientAllowance); }
      if currentAllowance != U256_MAX {
        allowances := allowances[(owner, spender) := WrapSub(currentAllowance, amount)];
      }
      return Ok(());
    }

    method Transfer(sender: Address, to: Address, amount: U256) returns (r: Result<bool, Error>)
      requires Valid()
      modifies this
      ensures Valid()
      ensures Follows(r, old(Abs()), Abs(), Step(old(Abs()), CallTransfer(sender, to, amount)))
      ensures r.Ok? ==> r.value
    {
      NextReached(Abs(), CallTransfer(sender, to, amount));
      ReachedInv(Abs());
      var moved := DoTransfer(sender, to, amount);
      match moved
      case Err(e) => return Err(e);
      case Ok(_) => return Ok(true);
    }

    method Approve(sender: Address, spender: Address, amount: U256) returns (r: Result<bool, Error>)
      requires Valid()
      modifies this
      ensures Valid()
      ensures Follows(r, old(Abs()), Abs(), Step(old(Abs()), CallApprove(sender, spender, amount)))
      ensures r.Ok? ==> r.value
    {
      NextReached(Abs(), CallApprove(sender, spender, amount));
      ReachedInv(Abs());
      var approved := DoApprove(sender, spender, amount);
      match approved
      case Err(e) => return Err(e);
      case Ok(_) => return Ok(true);
    }

    /** A transfer that fails after the allowance was spent reverts the whole call, so the
        allowance write is undone. */
    method TransferFrom(sender: Address, from: Address, to: Address, amount: U256) returns (r: Result<bool, Error>)
      requires Valid()
      modifies this
      ensures Valid()
      ensures Follows(r, old(Abs()), Abs(), Step(old(Abs()), CallTransferFrom(sender, from, to, amount)))
      ensures r.Ok? ==> r.value
    {
      NextReached(Abs(), CallTransferFrom(sender, from, to, amount));
      ReachedInv(Abs());
      var snapshot := allowances;
      var spent := SpendAllowance(from, sender, amount);
      if spent.Err? { return Err(spent.error); }
      var moved := DoTransfer(from, to, amount);
      if moved.Err? {
        allowances := snapshot;
        return Err(moved.error);
      }
      return Ok(true);
    }
  }
}
