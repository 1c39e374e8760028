/** Gas and value accounting of a block's transactions (core/state_transition.go, core/state_processor.go,
    core/gaspool.go, core/blockchain.go). Running contract code is an abstract step; see Sound. */
module StateTransitions {
  import opened Basics
  import opened Ledgers

  type Byte = x: nat | x < 256

  const TX_GAS: nat := 21000
  const TX_GAS_CONTRACT_CREATION: nat := 53000
  const TX_DATA_ZERO_GAS: nat := 4
  const TX_DATA_NON_ZERO_GAS: nat := 68

  datatype TxError =
    | NonceTooHigh | NonceTooLow | InsufficientBalanceForGas | GasLimitReached | InvalidWallet
    | InvalidStakeReceiver | OutOfGas | InsufficientBalance | Locked

  datatype Result<T> = Ok(value: T) | Err(error: TxError)

  datatype Message = Message(from: Address, to: Option<Address>, price: nat, gas: Uint64, value: nat, base: nat, target: nat,
                             nonce: nat, checkNonce: bool, data: seq<Byte>)

  // ---------------------------------------------------------------- intrinsic gas

  ghost function NonZeros(data: seq<Byte>): (n: nat)
    ensures n <= |data|
  {
    if data == [] then 0 else NonZeros(data[..|data| - 1]) + if data[|data| - 1] != 0 then 1 else 0
  }

  /** What a message costs before it runs, without a bound. */
  ghost function TrueIntrinsicGas(data: seq<Byte>, creation: bool, homestead: bool): nat {
    (if creation && homestead then TX_GAS_CONTRACT_CREATION else TX_GAS) +
    TX_DATA_NON_ZERO_GAS * NonZeros(data) + TX_DATA_ZERO_GAS * (|data| - NonZeros(data))
  }

  lemma Exceeds(room: nat, price: nat, n: nat)
    requires price > 0
    ensures room / price < n <==> room < price * n
  {
    var q := room / price;
    assert price * q <= room < price * q + price;
    if q < n {
      assert price * (q + 1) <= price * n by { Monotone(price, q + 1, n); }
    } else {
      Monotone(price, n, q);
    }
  }

  lemma Monotone(p: nat, a: nat, b: nat)
    requires a <= b
    ensures p * a <= p * b
  {
  }

  /** Computed with 64-bit arithmetic: the exact cost, or an error exactly when it does not fit. */
  method IntrinsicGas(data: seq<Byte>, creation: bool, homestead: bool) returns (r: Result<Uint64>)
    ensures r == if TrueIntrinsicGas(data, creation, homestead) <= MAX_UINT64
                 then Ok(TrueIntrinsicGas(data, creation, homestead)) else Err(OutOfGas)
  {
    var gas := if creation && homestead then TX_GAS_CONTRACT_CREATION else TX_GAS;
    if |data| > 0 {
      var nz: nat := 0;
      for i := 0 to |data|
        invariant nz == NonZeros(data[..i])
      {
        assert data[..i + 1][..i] == data[..i];
        if data[i] != 0 {
          nz := nz + 1;
        }
      }
      assert data[..|data|] == data;
      Exceeds(MAX_UINT64 - gas, TX_DATA_NON_ZERO_GAS, nz);
      if (MAX_UINT64 - gas) / TX_DATA_NON_ZERO_GAS < nz {
        return Err(OutOfGas);
      }
      gas := gas + nz * TX_DATA_NON_ZERO_GAS;
      var z := |data| - nz;
      Exceeds(MAX_UINT64 - gas, TX_DATA_ZERO_GAS, z);
      if (MAX_UINT64 - gas) / TX_DATA_ZERO_GAS < z {
        return Err(OutOfGas);
      }
      gas := gas + z * TX_DATA_ZERO_GAS;
    }
    return Ok(gas);
  }

  // ---------------------------------------------------------------- fees

  function Fee(gas: nat, price: nat): nat {
    gas * price
  }

  lemma FeeSplits(a: nat, b: nat, price: nat)
    ensures Fee(a + b, price) == Fee(a, price) + Fee(b, price)
  {
  }

  // ---------------------------------------------------------------- contract code

  /** What running code leaves: the accounts, the gas left, the refund counter, and whether it failed. */
  datatype Execution = Execution(after: Accounts, left: nat, refund: nat, failed: bool)

  type Code = (Accounts, nat) -> Execution

  /** Code moves value around but makes none, and gives back no more gas than it got. */
  ghost predicate Sound(run: Code) {
    forall s: Accounts, gas: nat :: SoundAt(run, s, gas)
  }

  ghost predicate SoundAt(run: Code, s: Accounts, gas: nat) {
    run(s, gas).left <= gas && (NonNegative(s) ==> NonNegative(run(s, gas).after) && Supply(run(s, gas).after) == Supply(s))
  }

  /** A call: the transfer, then the code; a failure takes both back. */
  function Call(run: Code, s: Accounts, sender: Address, recipient: Address, gas: nat, value: nat, base: nat,
                target: nat): (r: Result<Execution>)
    ensures r.Ok? <==> (base == 1 && Get(s.main, sender) >= value) || (base == 2 && Get(s.stake, sender) >= value)
    ensures r.Err? ==> r.error == InsufficientBalance
    ensures r.Ok? && r.value.failed ==> r.value.after == s
  {
    if !CanTransfer(s, sender, value, base) then Err(InsufficientBalance)
    else
      var e := run(Transfer(s, sender, recipient, value, base, target), gas);
      Ok(if e.failed then e.(after := s) else e)
  }

  lemma CallConserves(run: Code, s: Accounts, sender: Address, recipient: Address, gas: nat, value: nat, base: nat,
                      target: nat)
    requires Sound(run) && NonNegative(s)
    ensures var r := Call(run, s, sender, recipient, gas, value, base, target);
      r.Ok? ==> r.value.left <= gas && NonNegative(r.value.after) && Supply(r.value.after) == Supply(s)
  {
    hide NonNegative, Supply, CanTransfer, Transfer;
    if CanTransfer(s, sender, value, base) {
      TransferConserves(s, sender, recipient, value, base, target);
      assert SoundAt(run, Transfer(s, sender, recipient, value, base, target), gas);
    }
  }

  lemma SetNonceKeeps(s: Accounts, a: Address, n: nat)
    ensures Supply(SetNonce(s, a, n)) == Supply(s) && (NonNegative(s) ==> NonNegative(SetNonce(s, a, n)))
  {
  }

  // ---------------------------------------------------------------- a transaction

  class GasPool {
    var gas: Uint64

    constructor (gas: Uint64)
      ensures this.gas == gas
    {
      this.gas := gas;
    }

    /** Returns gas to the pool, which must not overflow: beyond 64 bits the code panics. */
    method AddGas(amount: Uint64)
      requires gas + amount <= MAX_UINT64
      modifies this
      ensures gas == old(gas) + amount
    {
      gas := gas + amount;
    }

    method SubGas(amount: Uint64) returns (ok: bool)
      modifies this
      ensures ok == (old(gas) >= amount) && gas == if ok then old(gas) - amount else old(gas)
    {
      if gas < amount {
        return false;
      }
      gas := gas - amount;
      return true;
    }
  }

  class StateDB {
    var accounts: Accounts
    var refund: nat

    constructor (accounts: Accounts)
      ensures this.accounts == accounts && refund == 0
    {
      this.accounts, refund := accounts, 0;
    }
  }

  datatype Outcome = Outcome(used: Uint64, failed: bool)

  /** Why a message cannot be applied at all, before anything is charged. */
  function PreCheck(s: Accounts, pool: nat, msg: Message): (e: Option<TxError>)
    ensures e != Some(Locked)
    ensures e == None ==> pool >= msg.gas && Get(s.main, msg.from) >= Fee(msg.gas, msg.price)
    ensures e == None <==>
      (msg.checkNonce ==> NonceOf(s, msg.from) == msg.nonce) && Get(s.main, msg.from) >= msg.gas * msg.price && pool >= msg.gas
    ensures e == Some(NonceTooHigh) <==> msg.checkNonce && msg.nonce > NonceOf(s, msg.from)
    ensures e == Some(NonceTooLow) <==> msg.checkNonce && msg.nonce < NonceOf(s, msg.from)
    ensures e == Some(InsufficientBalanceForGas) <==>
      (msg.checkNonce ==> NonceOf(s, msg.from) == msg.nonce) && Get(s.main, msg.from) < msg.gas * msg.price
  {
    if msg.checkNonce && NonceOf(s, msg.from) < msg.nonce then Some(NonceTooHigh)
    else if msg.checkNonce && NonceOf(s, msg.from) > msg.nonce then Some(NonceTooLow)
    else if Get(s.main, msg.from) < Fee(msg.gas, msg.price) then Some(InsufficientBalanceForGas)
    else if pool < msg.gas then Some(GasLimitReached)
    else None
  }

  /** The accounts once the sender has paid for all the gas and the nonce is used. */
  function Charged(s: Accounts, msg: Message): Accounts {
    SetNonce(AddMain(s, msg.from, 0 - Fee(msg.gas, msg.price)), msg.from, NonceOf(s, msg.from) + 1)
  }

  /** The message's call or contract creation, with the gas that is left after the intrinsic part. */
  ghost function Ran(run: Code, s: Accounts, msg: Message, homestead: bool, contract: Address): Result<Execution> {
    var intrinsic := TrueIntrinsicGas(msg.data, msg.to == None, homestead);
    if intrinsic > msg.gas then Err(OutOfGas)
    else if msg.to == None then Call(run, Charged(s, msg), msg.from, contract, msg.gas - intrinsic, msg.value, MAIN, MAIN)
    else Call(run, Charged(s, msg), msg.from, msg.to.value, msg.gas - intrinsic, msg.value, msg.base, msg.target)
  }

  /** A transfer to or from a stake names its own sender as the receiver. */
  predicate WrongStaker(msg: Message) {
    msg.to.Some? && (msg.base == STAKE || msg.target == STAKE) && msg.from != msg.to.value
  }

  /** The reason the message is not applied, if there is one. */
  ghost function Failure(run: Code, s: Accounts, pool: nat, msg: Message, homestead: bool, contract: Address): (e: Option<TxError>)
    ensures e != Some(Locked)
  {
    var ran := Ran(run, s, msg, homestead, contract);
    if PreCheck(s, pool, msg).Some? then PreCheck(s, pool, msg)
    else if !ValidWallets(msg.base, msg.target) then Some(InvalidWallet)
    else if WrongStaker(msg) then Some(InvalidStakeReceiver)
    else if ran.Err? then Some(ran.error)
    else None
  }

  /** The gas used after the refund. */
  function UsedBy(msg: Message, e: Execution): (used: nat)
    requires e.left <= msg.gas
    ensures used <= msg.gas
  {
    msg.gas - e.left - Min((msg.gas - e.left) / 2, e.refund)
  }

  /** The unused gas is paid back and the used gas paid to the coinbase. */
  function Settled(s: Accounts, msg: Message, used: nat, coinbase: Address): Accounts
    requires used <= msg.gas
  {
    AddMain(AddMain(s, msg.from, Fee(msg.gas - used, msg.price)), coinbase, Fee(used, msg.price))
  }

  lemma RanIs(run: Code, s: Accounts, t: Accounts, msg: Message, homestead: bool, contract: Address)
    requires t == AddMain(s, msg.from, 0 - Fee(msg.gas, msg.price))
    requires TrueIntrinsicGas(msg.data, msg.to == None, homestead) <= msg.gas
    ensures Ran(run, s, msg, homestead, contract) ==
      Call(run, SetNonce(t, msg.from, NonceOf(t, msg.from) + 1), msg.from, if msg.to == None then contract else msg.to.value,
           msg.gas - TrueIntrinsicGas(msg.data, msg.to == None, homestead), msg.value,
           if msg.to == None then MAIN else msg.base, if msg.to == None then MAIN else msg.target)
  {
  }

  lemma RanFails(run: Code, s: Accounts, msg: Message, homestead: bool, contract: Address)
    requires TrueIntrinsicGas(msg.data, msg.to == None, homestead) > msg.gas
    ensures Ran(run, s, msg, homestead, contract) == Err(OutOfGas)
  {
  }

  lemma FailureIs(run: Code, s: Accounts, pool: nat, msg: Message, homestead: bool, contract: Address)
    ensures Failure(run, s, pool, msg, homestead, contract) ==
      (if PreCheck(s, pool, msg).Some? then PreCheck(s, pool, msg)
       else if !ValidWallets(msg.base, msg.target) then Some(InvalidWallet)
       else if WrongStaker(msg) then Some(InvalidStakeReceiver)
       else if Ran(run, s, msg, homestead, contract).Err? then Some(Ran(run, s, msg, homestead, contract).error)
       else None)
    ensures WrongStaker(msg) <==> msg.to.Some? && (msg.base == STAKE || msg.target == STAKE) && msg.from != msg.to.value
  {
    hide Ran, PreCheck;
  }

  lemma UsedIs(msg: Message, e: Execution)
    requires e.left <= msg.gas
    ensures UsedBy(msg, e) == msg.gas - e.left - Min((msg.gas - e.left) / 2, e.refund)
  {
  }

  /** All of the refund counter is given back, or half of the gas consumed if that is less. */
  ghost predicate Refunded(consumed: nat, refund: nat, used: nat) {
    && used <= consumed <= used + refund && consumed <= 2 * used
    && (used + refund == consumed || 2 * used <= consumed + 1)
  }

  lemma HalfRefunded(msg: Message, e: Execution)
    requires e.left <= msg.gas
    ensures Refunded(msg.gas - e.left, e.refund, UsedBy(msg, e))
  {
  }

  lemma SettledIs(s: Accounts, msg: Message, used: nat, coinbase: Address)
    requires used <= msg.gas
    ensures Settled(s, msg, used, coinbase) ==
      AddMain(AddMain(s, msg.from, Fee(msg.gas - used, msg.price)), coinbase, Fee(used, msg.price))
  {
  }

  /** The gas a message costs before anything runs, in plain numbers. */
  lemma IntrinsicMeans(data: seq<Byte>, creation: bool, homestead: bool)
    ensures TrueIntrinsicGas(data, creation, homestead) ==
      (if creation && homestead then 53000 else 21000) + 68 * NonZeros(data) + 4 * (|data| - NonZeros(data))
  {
  }

  /** What a message must meet to be applied, in plain numbers: the nonce, the price of its gas, gas in the pool, a kind of
      transfer there is, one's own stake, the intrinsic gas, and the value beside the price of the gas. */
  lemma AppliedExactly(run: Code, s: Accounts, pool: nat, msg: Message, homestead: bool, contract: Address)
    ensures Failure(run, s, pool, msg, homestead, contract) == None <==>
      && (msg.checkNonce ==> NonceOf(s, msg.from) == msg.nonce)
      && Get(s.main, msg.from) >= msg.gas * msg.price && pool >= msg.gas
      && (msg.base, msg.target) in {(1, 1), (1, 2), (2, 1)}
      && (msg.to.Some? && (msg.base == 2 || msg.target == 2) ==> msg.to.value == msg.from)
      && TrueIntrinsicGas(msg.data, msg.to == None, homestead) <= msg.gas
      && (if msg.to.Some? && msg.base == 2 then Get(s.stake, msg.from) >= msg.value
          else Get(s.main, msg.from) >= msg.gas * msg.price + msg.value)
  {
    WalletsMean(msg.base, msg.target);
    ChargedMeans(s, msg);
    hide TrueIntrinsicGas, Transfer, Charged, ValidWallets;
  }

  /** Before the message runs, the sender has paid for all its gas and used the nonce. */
  lemma ChargedMeans(s: Accounts, msg: Message)
    ensures var t := Charged(s, msg);
      && t.stake == s.stake && NonceOf(t, msg.from) == NonceOf(s, msg.from) + 1
      && (forall a | a != msg.from :: NonceOf(t, a) == NonceOf(s, a))
      && (forall a :: Get(t.main, a) == Get(s.main, a) - if a == msg.from then msg.gas * msg.price else 0)
  {
  }

  /** What remains of the price of the gas after the settlement: the sender gets back what was not used, the coinbase is paid. */
  lemma SettledMeans(s: Accounts, msg: Message, used: nat, coinbase: Address)
    requires used <= msg.gas
    ensures var t := Settled(s, msg, used, coinbase);
      && t.stake == s.stake && t.nonces == s.nonces
      && forall a :: Get(t.main, a) ==
           Get(s.main, a) + (if a == msg.from then msg.gas * msg.price - used * msg.price else 0)
           + (if a == coinbase then used * msg.price else 0)
  {
    FeeSplits(used, msg.gas - used, msg.price);
  }

  /** The balances after a message: `main` and `stake` are what the transfer itself changes at each account. */
  ghost predicate Costs(s: Accounts, t: Accounts, msg: Message, used: nat, coinbase: Address, main: Address -> int, stake: Address -> int) {
    && NonceOf(t, msg.from) == NonceOf(s, msg.from) + 1
    && (forall a :: Get(t.stake, a) == Get(s.stake, a) + stake(a))
    && (forall a :: Get(t.main, a) ==
          Get(s.main, a) + main(a) - (if a == msg.from then used * msg.price else 0)
          + (if a == coinbase then used * msg.price else 0))
  }

  /** A payment that runs no code costs the sender its value and the price of the gas used; the recipient gets the value and the
      coinbase the price of the gas, whoever of them are the same. */
  lemma PaymentSettles(run: Code, s: Accounts, msg: Message, homestead: bool, used: nat, coinbase: Address, contract: Address,
                       e: Execution)
    requires forall t: Accounts, gas: nat :: run(t, gas).after == t
    requires msg.to.Some? && msg.base == msg.target == 1 && used <= msg.gas
    requires Ran(run, s, msg, homestead, contract) == Ok(e) && !e.failed
    ensures Costs(s, Settled(e.after, msg, used, coinbase), msg, used, coinbase,
      a => (if a == msg.to.value then msg.value else 0) - (if a == msg.from then msg.value else 0), a => 0)
  {
    ChargedMeans(s, msg);
    PaymentMoves(Charged(s, msg), msg.from, msg.to.value, msg.value);
    RanQuietly(run, s, msg, homestead, contract, e);
    hide Ran, Transfer, Charged, Settled;
    SettledMeans(e.after, msg, used, coinbase);
  }

  /** Staking that runs no code costs the sender its value and the price of the gas used, and the stake grows by the value. */
  lemma StakingSettles(run: Code, s: Accounts, msg: Message, homestead: bool, used: nat, coinbase: Address, contract: Address,
                       e: Execution)
    requires forall t: Accounts, gas: nat :: run(t, gas).after == t
    requires msg.to.Some? && msg.base == 1 && msg.target == 2 && used <= msg.gas
    requires Ran(run, s, msg, homestead, contract) == Ok(e) && !e.failed
    ensures Costs(s, Settled(e.after, msg, used, coinbase), msg, used, coinbase,
      a => if a == msg.from then 0 - msg.value else 0, a => if a == msg.to.value then msg.value else 0)
  {
    ChargedMeans(s, msg);
    StakingMoves(Charged(s, msg), msg.from, msg.to.value, msg.value);
    RanQuietly(run, s, msg, homestead, contract, e);
    hide Ran, Transfer, Charged, Settled;
    SettledMeans(e.after, msg, used, coinbase);
  }

  /** Unstaking that runs no code costs the sender the price of the gas used and turns the whole stake into main balance. */
  lemma UnstakingSettles(run: Code, s: Accounts, msg: Message, homestead: bool, used: nat, coinbase: Address, contract: Address,
                         e: Execution)
    requires forall t: Accounts, gas: nat :: run(t, gas).after == t
    requires msg.to.Some? && msg.base == 2 && msg.target == 1 && used <= msg.gas
    requires Ran(run, s, msg, homestead, contract) == Ok(e) && !e.failed
    ensures Costs(s, Settled(e.after, msg, used, coinbase), msg, used, coinbase,
      a => if a == msg.from then Get(s.stake, a) else 0, a => if a == msg.from then 0 - Get(s.stake, a) else 0)
  {
    ChargedMeans(s, msg);
    UnstakeMovesAll(Charged(s, msg), msg.from, msg.to.value, msg.value);
    RanQuietly(run, s, msg, homestead, contract, e);
    hide Ran, Transfer, Charged, Settled;
    SettledMeans(e.after, msg, used, coinbase);
  }

  /** A message whose code fails costs the sender the price of the gas used and moves nothing, whatever the code did. */
  lemma FailureSettles(run: Code, s: Accounts, msg: Message, homestead: bool, used: nat, coinbase: Address, contract: Address,
                       e: Execution)
    requires used <= msg.gas && Ran(run, s, msg, homestead, contract) == Ok(e) && e.failed
    ensures Costs(s, Settled(e.after, msg, used, coinbase), msg, used, coinbase, a => 0, a => 0)
  {
    ChargedMeans(s, msg);
    assert e.after == Charged(s, msg);
    hide Ran, Charged, Settled;
    SettledMeans(e.after, msg, used, coinbase);
  }

  lemma RanQuietly(run: Code, s: Accounts, msg: Message, homestead: bool, contract: Address, e: Execution)
    requires forall t: Accounts, gas: nat :: run(t, gas).after == t
    requires msg.to.Some? && Ran(run, s, msg, homestead, contract) == Ok(e) && !e.failed
    ensures e.after == Transfer(Charged(s, msg), msg.from, msg.to.value, msg.value, msg.base, msg.target)
  {
    hide Transfer, Charged, TrueIntrinsicGas;
  }

  class StateTransition {
    const msg: Message
    const gp: GasPool
    const state: StateDB
    var gas: Uint64
    var initialGas: Uint64

    constructor (msg: Message, gp: GasPool, state: StateDB)
      ensures this.msg == msg && this.gp == gp && this.state == state && gas == initialGas == 0
    {
      this.msg, this.gp, this.state := msg, gp, state;
      gas, initialGas := 0, 0;
    }

    /** Checks the nonce and takes the gas from the pool and its price from the sender. */
    method BuyGas() returns (error: Option<TxError>)
      requires gas == 0 && NonNegative(state.accounts)
      modifies this, gp, state`accounts
      ensures error == PreCheck(old(state.accounts), old(gp.gas), msg)
      ensures error.Some? ==> unchanged(this, state) && gp.gas == old(gp.gas)
      ensures error == None ==>
        && gas == initialGas == msg.gas && gp.gas == old(gp.gas) - msg.gas && NonNegative(state.accounts)
        && Supply(state.accounts) == old(Supply(state.accounts)) - Fee(msg.gas, msg.price)
        && state.accounts == AddMain(old(state.accounts), msg.from, 0 - Fee(msg.gas, msg.price))
    {
      hide NonNegative, Supply, Fee, Get;
      if msg.checkNonce {
        if NonceOf(state.accounts, msg.from) < msg.nonce {
          return Some(NonceTooHigh);
        } else if NonceOf(state.accounts, msg.from) > msg.nonce {
          return Some(NonceTooLow);
        }
      }
      var mgval: int := Fee(msg.gas, msg.price);
      if Get(state.accounts.main, msg.from) < mgval {
        return Some(InsufficientBalanceForGas);
      }
      var ok := gp.SubGas(msg.gas);
      if !ok {
        return Some(GasLimitReached);
      }
      gas, initialGas := msg.gas, msg.gas;
      AddMainKeeps(state.accounts, msg.from, 0 - mgval);
      state.accounts := AddMain(state.accounts, msg.from, 0 - mgval);
      return None;
    }

    /** Gives back the gas left, and the refund counter up to half the gas used, to the sender and the pool. */
    method RefundGas()
      requires gas <= initialGas && gp.gas + initialGas <= MAX_UINT64 && NonNegative(state.accounts)
      modifies this`gas, gp, state`accounts
      ensures gas == old(gas) + Min((initialGas - old(gas)) / 2, state.refund) && gas <= initialGas
      ensures gp.gas == old(gp.gas) + gas && NonNegative(state.accounts)
      ensures Supply(state.accounts) == old(Supply(state.accounts)) + Fee(gas, msg.price)
      ensures state.accounts == AddMain(old(state.accounts), msg.from, Fee(gas, msg.price))
    {
      hide NonNegative, Supply, Fee, Get;
      var refund := (initialGas - gas) / 2;
      if refund > state.refund {
        refund := state.refund;
      }
      gas := gas + refund;
      BalancesNonNegative(state.accounts, msg.from);
      AddMainKeeps(state.accounts, msg.from, Fee(gas, msg.price));
      state.accounts := AddMain(state.accounts, msg.from, Fee(gas, msg.price));
      gp.AddGas(gas);
    }

    /** Applies the message. What the sender pays for gas goes to the coinbase or comes back, so no value is made or lost;
        the pool loses exactly the gas used; and at most half of what was consumed is refunded. */
    method TransitionDb(run: Code, homestead: bool, coinbase: Address, contract: Address)
      returns (r: Result<Outcome>, ghost e: Execution)
      requires gas == 0 && NonNegative(state.accounts) && Sound(run)
      modifies this, gp, state
      ensures Failure(run, old(state.accounts), old(gp.gas), msg, homestead, contract) == if r.Err? then Some(r.error) else None
      ensures PreCheck(old(state.accounts), old(gp.gas), msg).Some? ==> unchanged(state) && gp.gas == old(gp.gas)
      ensures r.Ok? ==>
        && NonNegative(state.accounts) && Supply(state.accounts) == old(Supply(state.accounts))
        && gp.gas + r.value.used == old(gp.gas)
        && Ran(run, old(state.accounts), msg, homestead, contract) == Ok(e) && r.value.failed == e.failed
        && TrueIntrinsicGas(msg.data, msg.to == None, homestead) <= msg.gas - e.left <= msg.gas
        && r.value.used == UsedBy(msg, e)
        && Refunded(msg.gas - e.left, e.refund, r.value.used)
        && state.accounts == Settled(e.after, msg, r.value.used, coinbase)
    {
      hide *;
      e := Execution(state.accounts, 0, 0, false);
      FailureIs(run, state.accounts, gp.gas, msg, homestead, contract);
      var error := BuyGas();
      if error.Some? {
        return Err(error.value), e;
      }
      if !ValidWallets(msg.base, msg.target) {
        return Err(InvalidWallet), e;
      }
      if msg.to.Some? && (msg.base == STAKE || msg.target == STAKE) && msg.from != msg.to.value {
        return Err(InvalidStakeReceiver), e;
      }
      var intrinsic := IntrinsicGas(msg.data, msg.to == None, homestead);
      MaxIs();
      if TrueIntrinsicGas(msg.data, msg.to == None, homestead) > msg.gas {
        RanFails(run, old(state.accounts), msg, homestead, contract);
      }
      if intrinsic.Err? {
        return Err(intrinsic.error), e;
      }
      if gas < intrinsic.value {
        return Err(OutOfGas), e;
      }
      gas := gas - intrinsic.value;
      RanIs(run, old(state.accounts), state.accounts, msg, homestead, contract);
      var s := SetNonce(state.accounts, msg.from, NonceOf(state.accounts, msg.from) + 1);
      SetNonceKeeps(state.accounts, msg.from, NonceOf(state.accounts, msg.from) + 1);
      var recipient := if msg.to.Some? then msg.to.value else contract;
      var base, target := if msg.to.Some? then msg.base else MAIN, if msg.to.Some? then msg.target else MAIN;
      var result := Call(run, s, msg.from, recipient, gas, msg.value, base, target);
      CallConserves(run, s, msg.from, recipient, gas, msg.value, base, target);
      if result.Err? {
        return Err(result.error), e;
      }
      state.accounts, state.refund, gas := result.value.after, result.value.refund, result.value.left;
      e := result.value;
      UsedIs(msg, e);
      HalfRefunded(msg, e);
      PoolRoom(gp.gas, initialGas, old(gp.gas));
      RefundGas();
      var used := initialGas - gas;
      BalancesNonNegative(state.accounts, coinbase);
      AddMainKeeps(state.accounts, coinbase, Fee(used, msg.price));
      FeeSplits(gas, used, msg.price);
      state.accounts := AddMain(state.accounts, coinbase, Fee(used, msg.price));
      SettledIs(e.after, msg, used, coinbase);
      r := Ok(Outcome(used, result.value.failed));
    }
  }

  lemma PoolRoom(pool: nat, bought: nat, before: Uint64)
    requires pool + bought == before
    ensures pool + bought <= MAX_UINT64
  {
  }

  // ---------------------------------------------------------------- a block

  /** A transaction with what the outside adds to it: the code it runs and the address of a contract it creates. */
  datatype Tx = Tx(msg: Message, run: Code, contract: Address)

  datatype Rules = Rules(homestead: bool, bip4: bool, limitStake: nat)

  datatype Receipt = Receipt(failed: bool, cumulative: Uint64, gasUsed: Uint64)

  ghost function FromBytes(data: seq<Byte>): nat {
    if data == [] then 0 else FromBytes(data[..|data| - 1]) * 256 + data[|data| - 1]
  }

  /** The number a big-endian byte string stands for. */
  method SetBytes(data: seq<Byte>) returns (n: nat)
    ensures n == FromBytes(data)
  {
    n := 0;
    for i := 0 to |data|
      invariant n == FromBytes(data[..i])
    {
      assert data[..i + 1][..i] == data[..i];
      n := n * 256 + data[i];
    }
    assert data[..|data|] == data;
  }

  /** An unstaking message names the block of the stake; more than one block must have passed. */
  ghost predicate IsLocked(msg: Message, rules: Rules, number: nat) {
    rules.bip4 && msg.base == STAKE && msg.target == MAIN && number - FromBytes(msg.data) <= 1
  }

  /** The accounts after the recipient's stake is limited. */
  function Adjusted(s: Accounts, msg: Message, rules: Rules): Accounts {
    if rules.bip4 then LimitStake(s, msg.to, rules.limitStake) else s
  }

  lemma AdjustedIs(s: Accounts, msg: Message, rules: Rules)
    ensures Adjusted(s, msg, rules) == if rules.bip4 then LimitStake(s, msg.to, rules.limitStake) else s
  {
  }

  /** The reason a transaction is not applied, if there is one. */
  ghost function Refusal(tx: Tx, s: Accounts, pool: nat, rules: Rules, number: nat): Option<TxError> {
    if IsLocked(tx.msg, rules, number) then Some(Locked)
    else Failure(tx.run, Adjusted(s, tx.msg, rules), pool, tx.msg, rules.homestead, tx.contract)
  }

  lemma RefusalIs(tx: Tx, s: Accounts, pool: nat, rules: Rules, number: nat)
    ensures Refusal(tx, s, pool, rules, number) ==
      (if IsLocked(tx.msg, rules, number) then Some(Locked)
       else Failure(tx.run, Adjusted(s, tx.msg, rules), pool, tx.msg, rules.homestead, tx.contract))
  {
    hide Failure, IsLocked, Adjusted;
  }

  /** The transaction ran as `e` on the adjusted accounts and was settled for the gas it used. */
  ghost predicate Applies(tx: Tx, s: Accounts, s': Accounts, rules: Rules, coinbase: Address, receipt: Receipt, e: Execution) {
    && Ran(tx.run, Adjusted(s, tx.msg, rules), tx.msg, rules.homestead, tx.contract) == Ok(e)
    && receipt.failed == e.failed && e.left <= tx.msg.gas && receipt.gasUsed == UsedBy(tx.msg, e)
    && s' == Settled(e.after, tx.msg, receipt.gasUsed, coinbase)
  }

  lemma AppliesIs(tx: Tx, s: Accounts, s': Accounts, rules: Rules, coinbase: Address, receipt: Receipt, e: Execution)
    requires Ran(tx.run, Adjusted(s, tx.msg, rules), tx.msg, rules.homestead, tx.contract) == Ok(e)
    requires receipt.failed == e.failed && e.left <= tx.msg.gas && receipt.gasUsed == UsedBy(tx.msg, e)
    requires s' == Settled(e.after, tx.msg, receipt.gasUsed, coinbase)
    ensures Applies(tx, s, s', rules, coinbase, receipt, e)
  {
    hide Ran, Adjusted, UsedBy, Settled;
  }

  /** Applies one transaction and adds its gas to the block's. */
  method ApplyTransaction(tx: Tx, gp: GasPool, state: StateDB, rules: Rules, coinbase: Address, number: nat,
                          usedBefore: nat)
    returns (r: Result<Receipt>, usedGas: nat, ghost e: Execution)
    requires NonNegative(state.accounts) && Sound(tx.run) && usedBefore + gp.gas <= MAX_UINT64
    modifies gp, state
    ensures r.Ok? ==>
      && NonNegative(state.accounts) && Supply(state.accounts) == old(Supply(state.accounts))
      && usedGas == usedBefore + r.value.gasUsed == r.value.cumulative && gp.gas + usedGas == old(gp.gas) + usedBefore
      && Applies(tx, old(state.accounts), state.accounts, rules, coinbase, r.value, e)
    ensures r.Err? ==> usedGas == usedBefore
    ensures Refusal(tx, old(state.accounts), old(gp.gas), rules, number) == if r.Err? then Some(r.error) else None
  {
    hide *;
    usedGas := usedBefore;
    e := Execution(state.accounts, 0, 0, false);
    RefusalIs(tx, state.accounts, gp.gas, rules, number);
    AdjustedIs(state.accounts, tx.msg, rules);
    if rules.bip4 {
      LimitStakeConserves(state.accounts, tx.msg.to, rules.limitStake);
      state.accounts := LimitStake(state.accounts, tx.msg.to, rules.limitStake);
    }
    var since := SetBytes(tx.msg.data);
    LockedIs(tx.msg, rules, number);
    if rules.bip4 && tx.msg.base == STAKE && tx.msg.target == MAIN && number - since <= 1 {
      return Err(Locked), usedGas, e;
    }
    var st := new StateTransition(tx.msg, gp, state);
    var outcome;
    outcome, e := st.TransitionDb(tx.run, rules.homestead, coinbase, tx.contract);
    if outcome.Err? {
      return Err(outcome.error), usedGas, e;
    }
    usedGas := usedGas + outcome.value.used;
    MaxIs();
    r := Ok(Receipt(outcome.value.failed, usedGas, outcome.value.used));
    AppliesIs(tx, old(state.accounts), state.accounts, rules, coinbase, r.value, e);
  }

  lemma LockedIs(msg: Message, rules: Rules, number: nat)
    ensures IsLocked(msg, rules, number) <==> rules.bip4 && msg.base == STAKE && msg.target == MAIN && number - FromBytes(msg.data) <= 1
  {
  }

  lemma MaxIs()
    ensures MAX_UINT64 == 0xFFFF_FFFF_FFFF_FFFF
  {
  }

  /** The receipts' gas adds up: each cumulative figure is the one before plus the transaction's own. */
  ghost predicate RunningSum(receipts: seq<Receipt>) {
    forall i: nat | i < |receipts| :: AddsUp(receipts, i)
  }

  ghost predicate AddsUp(receipts: seq<Receipt>, i: nat)
    requires i < |receipts|
  {
    receipts[i].cumulative == Before(receipts, i) + receipts[i].gasUsed
  }

  ghost function Before(receipts: seq<Receipt>, i: nat): nat
    requires i <= |receipts|
  {
    if i == 0 then 0 else receipts[i - 1].cumulative
  }

  ghost function TotalGas(receipts: seq<Receipt>): nat {
    if receipts == [] then 0 else TotalGas(receipts[..|receipts| - 1]) + receipts[|receipts| - 1].gasUsed
  }

  lemma RunsOn(receipts: seq<Receipt>, x: Receipt)
    requires RunningSum(receipts) && x.cumulative == Before(receipts, |receipts|) + x.gasUsed
    ensures RunningSum(receipts + [x]) && Before(receipts + [x], |receipts| + 1) == x.cumulative
    ensures TotalGas(receipts + [x]) == TotalGas(receipts) + x.gasUsed
  {
    var more := receipts + [x];
    forall i: nat | i < |more| ensures AddsUp(more, i) {
      assert i < |receipts| ==> AddsUp(receipts, i);
      assert Before(more, i) == Before(receipts, i);
    }
    TotalGasAdds(receipts, x);
  }

  lemma TotalGasAdds(receipts: seq<Receipt>, x: Receipt)
    ensures TotalGas(receipts + [x]) == TotalGas(receipts) + x.gasUsed
  {
    assert (receipts + [x])[..|receipts|] == receipts;
  }

  /** The first transactions of a block, applied one after the other: `states` are the accounts before each and after the
      last. */
  ghost predicate Applied(txs: seq<Tx>, states: seq<Accounts>, done: seq<Receipt>, es: seq<Execution>, rules: Rules,
                          coinbase: Address, number: nat, gasLimit: nat)
  {
    && |es| == |done| <= |txs| && |states| == |done| + 1
    && forall i: nat | i < |done| :: AppliedAt(txs, states, done, es, rules, coinbase, number, gasLimit, i)
  }

  ghost predicate AppliedAt(txs: seq<Tx>, states: seq<Accounts>, done: seq<Receipt>, es: seq<Execution>, rules: Rules,
                            coinbase: Address, number: nat, gasLimit: nat, i: nat)
    requires i < |es| == |done| <= |txs| && |states| == |done| + 1
  {
    && Before(done, i) <= gasLimit && Refusal(txs[i], states[i], gasLimit - Before(done, i), rules, number) == None
    && Applies(txs[i], states[i], states[i + 1], rules, coinbase, done[i], es[i])
  }

  lemma NoneApplied(txs: seq<Tx>, s: Accounts, rules: Rules, coinbase: Address, number: nat, gasLimit: nat)
    ensures Applied(txs, [s], [], [], rules, coinbase, number, gasLimit)
  {
  }

  lemma AppliedMore(txs: seq<Tx>, states: seq<Accounts>, done: seq<Receipt>, es: seq<Execution>, rules: Rules,
                    coinbase: Address, number: nat, gasLimit: nat, s: Accounts, receipt: Receipt, e: Execution)
    requires Applied(txs, states, done, es, rules, coinbase, number, gasLimit) && |done| < |txs| && |states| == |done| + 1
    requires Before(done, |done|) <= gasLimit
    requires Refusal(txs[|done|], states[|done|], gasLimit - Before(done, |done|), rules, number) == None
    requires Applies(txs[|done|], states[|done|], s, rules, coinbase, receipt, e)
    ensures Applied(txs, states + [s], done + [receipt], es + [e], rules, coinbase, number, gasLimit)
  {
    hide Refusal, Applies;
    var states', done', es' := states + [s], done + [receipt], es + [e];
    forall i: nat | i < |done'| ensures AppliedAt(txs, states', done', es', rules, coinbase, number, gasLimit, i) {
      assert Before(done', i) == Before(done, i);
      if i < |done| {
        assert AppliedAt(txs, states, done, es, rules, coinbase, number, gasLimit, i);
      }
    }
  }

  /** Applies a block's transactions in order, up to the first that cannot be applied. If all can, no value was made or lost,
      the gas left in the pool and the gas used are together the block's gas limit, and the cumulative gas of the receipts
      is the running sum. */
  method Process(txs: seq<Tx>, state: StateDB, rules: Rules, coinbase: Address, number: nat, gasLimit: Uint64)
    returns (r: Result<seq<Receipt>>, usedGas: nat, gp: GasPool, ghost states: seq<Accounts>, ghost done: seq<Receipt>,
             ghost es: seq<Execution>)
    requires NonNegative(state.accounts) && forall i | 0 <= i < |txs| :: Sound(txs[i].run)
    modifies state
    ensures fresh(gp)
    ensures Applied(txs, states, done, es, rules, coinbase, number, gasLimit) && states[0] == old(state.accounts)
    ensures usedGas == TotalGas(done) <= gasLimit && RunningSum(done)
    ensures r.Ok? ==>
      && r.value == done && |done| == |txs| && state.accounts == states[|done|]
      && NonNegative(state.accounts) && Supply(state.accounts) == old(Supply(state.accounts)) && gp.gas + usedGas == gasLimit
    ensures r.Err? ==>
      |done| < |txs| && Refusal(txs[|done|], states[|done|], gasLimit - usedGas, rules, number) == Some(r.error)
  {
    hide *;
    gp := new GasPool(gasLimit);
    usedGas := 0;
    var receipts: seq<Receipt> := [];
    states, done, es := [state.accounts], [], [];
    NoReceipts();
    NoneApplied(txs, state.accounts, rules, coinbase, number, gasLimit);
    MaxIs();
    for i := 0 to |txs|
      invariant fresh(gp) && |receipts| == |es| == i && |states| == i + 1 && done == receipts
      invariant NonNegative(state.accounts) && state.accounts == states[i] && states[0] == old(state.accounts)
      invariant Supply(state.accounts) == old(Supply(state.accounts)) && gp.gas + usedGas == gasLimit
      invariant usedGas == TotalGas(receipts) == Before(receipts, i) && RunningSum(receipts)
      invariant Applied(txs, states, done, es, rules, coinbase, number, gasLimit)
    {
      var receipt;
      ghost var e;
      receipt, usedGas, e := ApplyTransaction(txs[i], gp, state, rules, coinbase, number, usedGas);
      if receipt.Err? {
        r := Err(receipt.error);
        return;
      }
      AppliedMore(txs, states, done, es, rules, coinbase, number, gasLimit, state.accounts, receipt.value, e);
      RunsOn(receipts, receipt.value);
      receipts := receipts + [receipt.value];
      states, done, es := states + [state.accounts], done + [receipt.value], es + [e];
    }
    r := Ok(receipts);
  }

  lemma NoReceipts()
    ensures RunningSum([]) && TotalGas([]) == 0 && Before([], 0) == 0
  {
  }

  // ---------------------------------------------------------------- derived receipt fields

  function Sub64(a: Uint64, b: Uint64): Uint64 {
    if a >= b then a - b else a + (MAX_UINT64 + 1) - b
  }

  /** The gas derived for a receipt from its cumulative figure and the one before. */
  function DerivedGas(receipts: seq<Receipt>, j: nat): Uint64
    requires j < |receipts|
  {
    if j == 0 then receipts[j].cumulative else Sub64(receipts[j].cumulative, receipts[j - 1].cumulative)
  }

  /** Derives each transaction's gas from the cumulative figures; a count mismatch changes nothing. */
  method SetReceiptsData(txCount: nat, receipts: array<Receipt>) returns (ok: bool)
    modifies receipts
    ensures ok == (txCount == receipts.Length)
    ensures !ok ==> receipts[..] == old(receipts[..])
    ensures ok ==> forall j | 0 <= j < receipts.Length ::
      receipts[j] == old(receipts[j]).(gasUsed := DerivedGas(old(receipts[..]), j))
  {
    if txCount != receipts.Length {
      return false;
    }
    for j := 0 to receipts.Length
      invariant forall i | 0 <= i < j :: receipts[i] == old(receipts[i]).(gasUsed := DerivedGas(old(receipts[..]), i))
      invariant forall i | j <= i < receipts.Length :: receipts[i] == old(receipts[i])
    {
      if j == 0 {
        receipts[j] := receipts[j].(gasUsed := receipts[j].cumulative);
      } else {
        receipts[j] := receipts[j].(gasUsed := Sub64(receipts[j].cumulative, receipts[j - 1].cumulative));
      }
    }
    return true;
  }

  /** From receipts that lost their gas fields, exactly the gas of each transaction is recovered, if the cumulative gas was a
      running sum. */
  lemma GasRecovered(original: seq<Receipt>, stored: seq<Receipt>, j: nat)
    requires RunningSum(original) && |stored| == |original| && j < |stored|
    requires forall i | 0 <= i < |stored| :: stored[i] == original[i].(gasUsed := stored[i].gasUsed)
    ensures stored[j].(gasUsed := DerivedGas(stored, j)) == original[j]
  {
    assert AddsUp(original, j);
    assert j > 0 ==> stored[j - 1].cumulative == original[j - 1].cumulative;
  }
}
