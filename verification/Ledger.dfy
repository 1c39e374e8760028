/** Main and stake balances and the transfers between them (core/evm.go, core/state/state_object.go). */
module Ledgers {
  import opened Basics

  type Address = nat

  type Balances = map<Address, int>

  /** A missing account has a zero balance. */
  function Get(m: Balances, a: Address): int {
    if a in m then m[a] else 0
  }

  function Add(m: Balances, a: Address, d: int): Balances {
    m[a := Get(m, a) + d]
  }

  datatype Accounts = Accounts(main: Balances, stake: Balances, nonces: map<Address, nat>)

  function NonceOf(s: Accounts, a: Address): nat {
    if a in s.nonces then s.nonces[a] else 0
  }

  /** An account that was never used has nothing and starts at nonce zero. */
  lemma UnusedAccount(s: Accounts, a: Address)
    requires a !in s.main && a !in s.stake && a !in s.nonces
    ensures Get(s.main, a) == 0 && Get(s.stake, a) == 0 && NonceOf(s, a) == 0
  {
  }

  // ---------------------------------------------------------------- sums

  ghost function Sum(m: Balances): int {
    if m == map[] then 0 else var a :| a in m; m[a] + Sum(m - {a})
  }

  lemma {:induction false} SumWithout(m: Balances, a: Address)
    requires a in m
    ensures Sum(m) == m[a] + Sum(m - {a})
    decreases |m|
  {
    var b :| b in m && Sum(m) == m[b] + Sum(m - {b});
    if b != a {
      SumWithout(m - {b}, a);
      SumWithout(m - {a}, b);
      assert m - {b} - {a} == m - {a} - {b};
    }
  }

  lemma SumAdds(m: Balances, a: Address, d: int)
    ensures Sum(Add(m, a, d)) == Sum(m) + d
  {
    var m' := Add(m, a, d);
    SumWithout(m', a);
    if a in m {
      SumWithout(m, a);
      assert m' - {a} == m - {a};
    } else {
      assert m' - {a} == m;
    }
  }

  /** All there is: main and stake balances together. */
  ghost function Supply(s: Accounts): int {
    Sum(s.main) + Sum(s.stake)
  }

  ghost predicate NonNegative(s: Accounts) {
    (forall a | a in s.main :: s.main[a] >= 0) && (forall a | a in s.stake :: s.stake[a] >= 0)
  }

  // ---------------------------------------------------------------- elementary changes

  function AddMain(s: Accounts, a: Address, d: int): Accounts {
    s.(main := Add(s.main, a, d))
  }

  function AddStake(s: Accounts, a: Address, d: int): Accounts {
    s.(stake := Add(s.stake, a, d))
  }

  /** Moves the whole stake to the main balance. */
  function RemoveStake(s: Accounts, a: Address): Accounts {
    if Get(s.stake, a) == 0 then s else AddMain(AddStake(s, a, -Get(s.stake, a)), a, Get(s.stake, a))
  }

  function SetNonce(s: Accounts, a: Address, n: nat): Accounts {
    s.(nonces := s.nonces[a := n])
  }

  lemma AddMainKeeps(s: Accounts, a: Address, d: int)
    ensures Supply(AddMain(s, a, d)) == Supply(s) + d
    ensures NonNegative(s) && Get(s.main, a) + d >= 0 ==> NonNegative(AddMain(s, a, d))
    ensures Get(AddMain(s, a, d).main, a) == Get(s.main, a) + d
  {
    SumAdds(s.main, a, d);
  }

  lemma AddStakeKeeps(s: Accounts, a: Address, d: int)
    ensures Supply(AddStake(s, a, d)) == Supply(s) + d
    ensures NonNegative(s) && Get(s.stake, a) + d >= 0 ==> NonNegative(AddStake(s, a, d))
  {
    SumAdds(s.stake, a, d);
  }

  lemma BalancesNonNegative(s: Accounts, a: Address)
    requires NonNegative(s)
    ensures Get(s.main, a) >= 0 && Get(s.stake, a) >= 0
  {
  }

  // ---------------------------------------------------------------- wallets and transfers

  /** A job wallet as it is encoded: 1 is the main balance, 2 the stake. */
  const MAIN: nat := 1
  const STAKE: nat := 2
  const END: nat := 3

  predicate ValidWallets(base: nat, target: nat) {
    0 < base < END && 0 < target < END && !(base == STAKE && target == STAKE)
  }

  predicate CanTransfer(s: Accounts, a: Address, amount: nat, base: nat) {
    (base == MAIN && Get(s.main, a) >= amount) || (base == STAKE && Get(s.stake, a) >= amount)
  }

  function Transfer(s: Accounts, sender: Address, recipient: Address, amount: nat, base: nat, target: nat): Accounts {
    if base == MAIN && target == MAIN then AddMain(AddMain(s, sender, 0 - amount), recipient, amount)
    else if base == MAIN && target == STAKE then AddStake(AddMain(s, sender, 0 - amount), recipient, amount)
    else if base == STAKE && target == MAIN then RemoveStake(s, sender)
    else s
  }

  /** A transfer that the sender can make moves value and neither creates nor destroys any. */
  lemma TransferConserves(s: Accounts, sender: Address, recipient: Address, amount: nat, base: nat, target: nat)
    requires NonNegative(s) && CanTransfer(s, sender, amount, base)
    ensures Supply(Transfer(s, sender, recipient, amount, base, target)) == Supply(s)
    ensures NonNegative(Transfer(s, sender, recipient, amount, base, target))
  {
    hide NonNegative, Supply, Get;
    if base == MAIN {
      var t := AddMain(s, sender, 0 - amount);
      AddMainKeeps(s, sender, 0 - amount);
      BalancesNonNegative(t, recipient);
      AddMainKeeps(t, recipient, amount);
      AddStakeKeeps(t, recipient, amount);
    } else {
      RemoveStakeConserves(s, sender);
    }
  }

  lemma RemoveStakeConserves(s: Accounts, a: Address)
    requires NonNegative(s)
    ensures Supply(RemoveStake(s, a)) == Supply(s) && NonNegative(RemoveStake(s, a))
  {
    hide NonNegative, Supply, Get;
    var d := Get(s.stake, a);
    BalancesNonNegative(s, a);
    AddStakeKeeps(s, a, -d);
    var t := AddStake(s, a, -d);
    BalancesNonNegative(t, a);
    AddMainKeeps(t, a, d);
  }

  /** A payment takes the amount from the sender's main balance and gives it to the recipient's; nothing else changes. */
  lemma PaymentMoves(s: Accounts, sender: Address, recipient: Address, amount: nat)
    ensures var t := Transfer(s, sender, recipient, amount, 1, 1);
      && t.stake == s.stake && t.nonces == s.nonces
      && forall a :: Get(t.main, a) ==
           Get(s.main, a) - (if a == sender then amount else 0) + (if a == recipient then amount else 0)
  {
  }

  /** Staking takes the amount from the sender's main balance and adds it to the recipient's stake; nothing else changes. */
  lemma StakingMoves(s: Accounts, sender: Address, recipient: Address, amount: nat)
    ensures var t := Transfer(s, sender, recipient, amount, 1, 2);
      && t.nonces == s.nonces
      && (forall a :: Get(t.main, a) == Get(s.main, a) - if a == sender then amount else 0)
      && (forall a :: Get(t.stake, a) == Get(s.stake, a) + if a == recipient then amount else 0)
  {
  }

  /** No other combination of wallets moves anything. */
  lemma OthersMoveNothing(s: Accounts, sender: Address, recipient: Address, amount: nat, base: nat, target: nat)
    requires (base, target) !in {(1, 1), (1, 2), (2, 1)}
    ensures Transfer(s, sender, recipient, amount, base, target) == s
  {
  }

  /** There are three kinds of transfers: payment, staking and unstaking. */
  lemma WalletsMean(base: nat, target: nat)
    ensures ValidWallets(base, target) <==> (base, target) in {(1, 1), (1, 2), (2, 1)}
  {
  }

  /** Unstaking ignores the amount: whatever part of the stake was asked for, all of it becomes main balance. */
  lemma UnstakeMovesAll(s: Accounts, sender: Address, recipient: Address, amount: nat)
    ensures var t := Transfer(s, sender, recipient, amount, 2, 1);
      && t.nonces == s.nonces && Get(t.stake, sender) == 0 && Get(t.main, sender) == Get(s.main, sender) + Get(s.stake, sender)
      && forall a | a != sender :: Get(t.main, a) == Get(s.main, a) && Get(t.stake, a) == Get(s.stake, a)
  {
  }

  /** Stake above the limit goes back to the main balance. */
  function LimitStake(s: Accounts, recipient: Option<Address>, limit: nat): Accounts {
    if recipient.Some? && Get(s.stake, recipient.value) > limit then
      var d := Get(s.stake, recipient.value) - limit;
      AddMain(AddStake(s, recipient.value, -d), recipient.value, d)
    else s
  }

  lemma LimitStakeConserves(s: Accounts, recipient: Option<Address>, limit: nat)
    requires NonNegative(s)
    ensures Supply(LimitStake(s, recipient, limit)) == Supply(s) && NonNegative(LimitStake(s, recipient, limit))
    ensures var t := LimitStake(s, recipient, limit);
      && t.nonces == s.nonces
      && (forall a: Address | recipient == Some(a) && Get(s.stake, a) > limit :: Get(t.stake, a) == limit)
      && (forall a: Address | !(recipient == Some(a) && Get(s.stake, a) > limit) :: Get(t.stake, a) == Get(s.stake, a))
      && (forall a: Address :: Get(t.main, a) + Get(t.stake, a) == Get(s.main, a) + Get(s.stake, a))
  {
    if recipient.Some? && Get(s.stake, recipient.value) > limit {
      var a, d := recipient.value, Get(s.stake, recipient.value) - limit;
      AddStakeKeeps(s, a, -d);
      BalancesNonNegative(AddStake(s, a, -d), a);
      AddMainKeeps(AddStake(s, a, -d), a, d);
    }
  }
}
