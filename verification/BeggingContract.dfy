/** base2-smartcontractbase/task2/BeggingContract.sol as written. */
module BeggingContract {
  import opened Prelude
  import opened Ledgers
  import opened Begging

  class BeggingContract {
    const owner: Address
    var donations: map<Address, nat>
    var allDonors: seq<Address>
    var donationStartTime: U256
    var donationEndTime: U256
    var balance: nat             // address(this).balance
    ghost var withdrawn: nat     // ether paid out so far
    var log: seq<Donation>

    ghost function Abs(): State
      reads this
    {
      State(owner, donationStartTime, donationEndTime, donations, allDonors, balance, withdrawn, log)
    }

    /** The state is that of some run, so whatever holds after every run holds here. */
    ghost predicate Valid()
      reads this
    {
      Reached(Abs())
    }

    /** A duration whose end exceeds 256 bits reverts the deployment. */
    constructor (sender: Address, days: U256, now: U256)
      requires PeriodEnd(now, days).Some?
      ensures Valid()
      ensures Abs() == Deploy(sender, days, now).value
    {
      owner := sender;
      donationStartTime := now;
      donationEndTime := now + days * SECONDS_PER_DAY;
      donations := map[];
      allDonors := [];
      balance := 0;
      withdrawn := 0;
      log := [];
      new;
      DeployReached(sender, days, now);
    }

    /** A revert after the push undoes it; the overflow check therefore comes first here. */
    method Donate(sender: Address, value: U256, now: U256) returns (r: Result<(), Error>)
      requires Valid()
      modifies this
      ensures Valid()
      ensures Follows(r, old(Abs()), Abs(), Step(old(Abs()), Call.Donate(sender, value, now)))
    {
      NextReached(Abs(), Call.Donate(sender, value, now));
      if !(donationStartTime <= now && now <= donationEndTime) { return Err(NotInPeriod); }
      if value == 0 { return Err(ZeroDonation); }
      if Get(donations, sender) + value > U256_MAX { return Err(Overflow); }
      balance := balance + value;
      if Get(donations, sender) == 0 {
        allDonors := allDonors + [sender];
      }
      donations := donations[sender := Get(donations, sender) + value];
      log := log + [Donation(sender, value, now)];
      assert Abs() == Step(old(Abs()), Call.Donate(sender, value, now)).value;
      return Ok(());
    }

    /** `paid` is what the call to the owner's address answered. */
    method Withdraw(sender: Address, paid: bool) returns (r: Result<(), Error>)
      requires Valid()
      modifies this
      ensures Valid()
      ensures Follows(r, old(Abs()), Abs(), Step(old(Abs()), Call.Withdraw(sender, paid)))
    {
      NextReached(Abs(), Call.Withdraw(sender, paid));
      ghost var after := Next(Abs(), Call.Withdraw(sender, paid));
      if sender != owner { return Err(OnlyOwner); }
      var amount := balance;
      if amount == 0 { return Err(NoFunds); }
      if !paid { return Err(WithdrawalFailed); }
      balance := balance - amount;
      withdrawn := withdrawn + amount;
      assert Abs() == after;
      return Ok(());
    }

    method UpdateDonationPeriod(sender: Address, days: U256, now: U256) returns (r: Result<(), Error>)
      requires Valid()
      modifies this
      ensures Valid()
      ensures Follows(r, old(Abs()), Abs(), Step(old(Abs()), Call.UpdatePeriod(sender, days, now)))
    {
      NextReached(Abs(), Call.UpdatePeriod(sender, days, now));
      ghost var after := Next(Abs(), Call.UpdatePeriod(sender, days, now));
      if sender != owner { return Err(OnlyOwner); }
      if now + days * SECONDS_PER_DAY > U256_MAX { return Err(Overflow); }
      donationEndTime := now + days * SECONDS_PER_DAY;
      assert Abs() == after;
      return Ok(());
    }

    /** The inner loops: at the first slot the amount beats, shift the rest down and write. */
    static method Enter(top3Donors: array<Address>, top3Amounts: array<nat>, donor: Address, amount: nat)
      returns (ghost slot: nat)
      requires top3Donors.Length == 3 && top3Amounts.Length == 3
      modifies top3Donors, top3Amounts
      ensures slot <= 3
      ensures forall m :: 0 <= m < slot ==> old(top3Amounts[m]) >= amount
      ensures slot < 3 ==> old(top3Amounts[slot]) < amount
      ensures top3Donors[..] == Shifted(old(top3Donors[..]), slot, donor)
      ensures top3Amounts[..] == Shifted(old(top3Amounts[..]), slot, amount)
    {
      var j := 0;
      while j < 3
        invariant 0 <= j <= 3
        invariant top3Donors[..] == old(top3Donors[..]) && top3Amounts[..] == old(top3Amounts[..])
        invariant forall m :: 0 <= m < j ==> old(top3Amounts[m]) >= amount
      {
        if amount > top3Amounts[j] {
          var k := 2;
          while k > j
            invariant j <= k <= 2
            invariant forall m :: 0 <= m <= k ==> top3Donors[m] == old(top3Donors[m])
            invariant forall m :: 0 <= m <= k ==> top3Amounts[m] == old(top3Amounts[m])
            invariant forall m :: k < m < 3 ==> top3Donors[m] == old(top3Donors[m - 1])
            invariant forall m :: k < m < 3 ==> top3Amounts[m] == old(top3Amounts[m - 1])
          {
            top3Donors[k] := top3Donors[k - 1];
            top3Amounts[k] := top3Amounts[k - 1];
            k := k - 1;
          }
          top3Donors[j] := donor;
          top3Amounts[j] := amount;
          break;
        }
        j := j + 1;
      }
      slot := j;
    }

    /** The outer loop: the podium of the donors passed so far. */
    static method SelectTop3(donors: seq<Address>, amounts: map<Address, nat>)
      returns (top3Donors: array<Address>, top3Amounts: array<nat>)
      requires forall i :: 0 <= i < |donors| ==> Get(amounts, donors[i]) > 0
      ensures fresh(top3Donors) && top3Donors[..] == TopDonors(Ranking(donors, amounts))
      ensures fresh(top3Amounts) && top3Amounts[..] == TopAmounts(Ranking(donors, amounts), amounts)
    {
      top3Donors := new Address[3](_ => 0);
      top3Amounts := new nat[3](_ => 0);
      for i := 0 to |donors|
        invariant top3Donors[..] == TopDonors(Ranking(donors[..i], amounts))
        invariant top3Amounts[..] == TopAmounts(Ranking(donors[..i], amounts), amounts)
      {
        var donor := donors[i];
        var amount := Get(amounts, donor);
        ghost var j := Enter(top3Donors, top3Amounts, donor, amount);
        RankingNext(donors, amounts, i);
        PodiumInsert(Ranking(donors[..i], amounts), amounts, donor, j);
      }
      assert donors[..|donors|] == donors;
    }

    /** The online selection answers the first three of the one stable descending sort. */
    method GetTop3Donors() returns (donors: seq<Address>, amounts: seq<nat>)
      requires Valid()
      ensures IsRanking(allDonors, donations, Ranking(allDonors, donations))
      ensures forall r :: IsRanking(allDonors, donations, r) ==>
                donors == TopDonors(r) && amounts == TopAmounts(r, donations)
    {
      ReachedInv(Abs());
      var top3Donors, top3Amounts := SelectTop3(allDonors, donations);
      donors, amounts := top3Donors[..], top3Amounts[..];
      FirstOccurrencesExact(Donors(log));
      RankingIsRanking(allDonors, donations);
      forall r | IsRanking(allDonors, donations, r)
        ensures r == Ranking(allDonors, donations)
      {
        RankingUnique(allDonors, donations, r);
      }
    }
  }
}
