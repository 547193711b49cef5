/** core/state_transition.go and core/gaspool.go: applying one message. Gas is bought, spent and
    given back in 64-bit arithmetic, and the fee is shared between the miner and the fairnode. */
module StateTransitions {
  import opened Basics
  import opened Transactions
  import opened IntrinsicGas

  type Balances = map<Address, int>
  type Nonces = map<Address, nat>

  datatype Message = Message(from: Address, to: Option<Address>, nonce: nat, checkNonce: bool, gas: Uint64,
                             gasPrice: nat, value: int, data: seq<bv8>)

  /** `deb` holds the fairnode's address and its share of the fees in percent. */
  datatype Config = Config(homestead: bool, deb: Option<(Address, int)>, joinAddress: Address, coinbase: Address)

  datatype Error =
    | NonceTooHigh
    | NonceTooLow
    | InsufficientBalanceForGas
    | GasLimitReached
    | OutOfGas
    | InsufficientFundsForTransfer
    | InsufficientBalance

  datatype Result<T> = Ok(value: T) | Err(error: Error)

  // ---------- money ----------

  function BalanceOf(b: Balances, a: Address): int {
    if a in b then b[a] else 0
  }

  function NonceOf(n: Nonces, a: Address): nat {
    if a in n then n[a] else 0
  }

  function Credit(b: Balances, a: Address, amount: int): Balances {
    b[a := BalanceOf(b, a) + amount]
  }

  ghost function TotalMoney(b: Balances): int {
    if b == map[] then 0
    else
      var a :| a in b;
      b[a] + TotalMoney(b - {a})
  }

  lemma {:induction false} TotalWithout(b: Balances, a: Address)
    requires a in b
    ensures TotalMoney(b) == b[a] + TotalMoney(b - {a})
  {
    var c :| c in b && TotalMoney(b) == b[c] + TotalMoney(b - {c});
    if c != a {
      TotalWithout(b - {c}, a);
      TotalWithout(b - {a}, c);
      assert b - {c} - {a} == b - {a} - {c};
    }
  }

  /** Crediting an account changes the total by exactly that amount. */
  lemma CreditTotal(b: Balances, a: Address, amount: int)
    ensures TotalMoney(Credit(b, a, amount)) == TotalMoney(b) + amount
  {
    var c := Credit(b, a, amount);
    TotalWithout(c, a);
    if a in b {
      TotalWithout(b, a);
      assert b - {a} == c - {a};
    } else {
      assert b == c - {a};
    }
  }

  ghost predicate NoDebt(b: Balances) {
    forall a :: a in b ==> b[a] >= 0
  }

  // ---------- the virtual machine ----------

  /** What running a message leaves behind. `shortOfFunds` is the one failure that makes a block invalid. */
  datatype Outcome = Outcome(balances: Balances, nonces: Nonces, gasLeft: nat, refund: nat, shortOfFunds: bool,
                             failed: bool)

  type Machine = (Balances, Nonces, Message, nat) -> Outcome

  /** The virtual machine returns at most the gas it is given, moves money without making or losing any,
      and leaves no account in debt. */
  ghost predicate Sane(evm: Machine) {
    forall b, n, m, g {:trigger evm(b, n, m, g)} ::
      var out := evm(b, n, m, g);
      && out.gasLeft <= g && out.refund <= MAX_UINT64
      && TotalMoney(out.balances) == TotalMoney(b)
      && (NoDebt(b) ==> NoDebt(out.balances))
  }

  lemma SaneAt(evm: Machine, b: Balances, n: Nonces, m: Message, g: nat)
    requires Sane(evm)
    ensures evm(b, n, m, g).gasLeft <= g && evm(b, n, m, g).refund <= MAX_UINT64
  {}

  // ---------- what a message does ----------

  function Cost(msg: Message): (c: int)
    ensures c >= 0
  {
    msg.gas * msg.gasPrice
  }

  /** Joining the league costs no intrinsic gas. */
  function BaseGas(config: Config, msg: Message): Option<nat> {
    var gas := Intrinsic(msg.data, msg.to.None?, config.homestead);
    if gas.Some? && msg.to == Some(config.joinAddress) then Some(0) else gas
  }

  /** Why a message cannot be executed at all. */
  function Refusal(config: Config, b: Balances, n: Nonces, pool: nat, msg: Message): Option<Error> {
    if msg.checkNonce && NonceOf(n, msg.from) < msg.nonce then Some(NonceTooHigh)
    else if msg.checkNonce && NonceOf(n, msg.from) > msg.nonce then Some(NonceTooLow)
    else if BalanceOf(b, msg.from) < Cost(msg) then Some(InsufficientBalanceForGas)
    else if pool < msg.gas then Some(GasLimitReached)
    else if BaseGas(config, msg).None? || msg.gas < BaseGas(config, msg).value then Some(OutOfGas)
    else if msg.value > 0 && BalanceOf(b, msg.from) - Cost(msg) < msg.value then Some(InsufficientFundsForTransfer)
    else None
  }

  /** The message is run on what is left after paying for all its gas in advance. */
  function Executed(config: Config, evm: Machine, b: Balances, n: Nonces, msg: Message): Outcome
    requires BaseGas(config, msg).Some? && BaseGas(config, msg).value <= msg.gas
  {
    evm(Credit(b, msg.from, -Cost(msg)), if msg.to.Some? then n[msg.from := NonceOf(n, msg.from) + 1] else n, msg,
        msg.gas - BaseGas(config, msg).value)
  }

  /** The gas finally given back: what was left, and the refunds up to half of what was used. */
  function GivenBack(msg: Message, out: Outcome): (r: nat)
    requires out.gasLeft <= msg.gas
    ensures out.gasLeft <= r <= msg.gas && 2 * (msg.gas - r) >= msg.gas - out.gasLeft
  {
    var half := (msg.gas - out.gasLeft) / 2;
    out.gasLeft + if half > out.refund then out.refund else half
  }

  function FairnodeFee(fee: int, rate: int): int {
    fee * rate / 100
  }

  /** The share is the percentage, rounded down. */
  lemma FeeIsSplit(fee: int, rate: int)
    ensures 100 * FairnodeFee(fee, rate) <= fee * rate < 100 * (FairnodeFee(fee, rate) + 1)
  {}

  /** At a rate of 101 percent the miner's share of a fee of 100 is negative. */
  lemma ShareIsNegative()
    ensures 100 - FairnodeFee(100, 101) == -1
  {}

  /** Both shares of every fee are non-negative exactly for rates from 0 to 100. */
  lemma SharesExactly(rate: int)
    ensures (forall fee: nat :: 0 <= FairnodeFee(fee, rate) <= fee) <==> 0 <= rate <= 100
  {
    if 0 <= rate <= 100 {
      forall fee: nat
        ensures 0 <= FairnodeFee(fee, rate) <= fee
      {
        assert 0 <= fee * rate;
        assert fee * rate <= fee * 100;
      }
    } else {
      assert FairnodeFee(100, rate) == rate;
    }
  }

  /** The sender gets the unused gas back; the fee goes to the miner and the fairnode. */
  function Settled(config: Config, b: Balances, msg: Message, back: nat): Balances
    requires back <= msg.gas
  {
    var refunded := Credit(b, msg.from, back * msg.gasPrice);
    if config.deb.None? then refunded
    else
      var fee := (msg.gas - back) * msg.gasPrice;
      var fair := FairnodeFee(fee, config.deb.value.1);
      Credit(Credit(refunded, config.coinbase, fee - fair), config.deb.value.0, fair)
  }

  lemma CostSplits(msg: Message, back: nat)
    requires back <= msg.gas
    ensures Cost(msg) == back * msg.gasPrice + (msg.gas - back) * msg.gasPrice
  {}

  /** The whole effect of a message on the total: nothing is lost if the fee is shared out, and otherwise
      exactly the fee, whatever accounts coincide and whatever the rate. */
  lemma Conserves(config: Config, b: Balances, bought: Balances, after: Balances, msg: Message, back: nat)
    requires back <= msg.gas && bought == Credit(b, msg.from, -Cost(msg))
    requires TotalMoney(after) == TotalMoney(bought)
    ensures TotalMoney(Settled(config, after, msg, back))
         == TotalMoney(b) - if config.deb.Some? then 0 else (msg.gas - back) * msg.gasPrice
  {
    hide TotalMoney, Credit, FairnodeFee, BalanceOf, Cost;
    var refunded := Credit(after, msg.from, back * msg.gasPrice);
    CreditTotal(b, msg.from, -Cost(msg));
    CreditTotal(after, msg.from, back * msg.gasPrice);
    CostSplits(msg, back);
    if config.deb.Some? {
      var fee := (msg.gas - back) * msg.gasPrice;
      var fair := FairnodeFee(fee, config.deb.value.1);
      CreditTotal(refunded, config.coinbase, fee - fair);
      CreditTotal(Credit(refunded, config.coinbase, fee - fair), config.deb.value.0, fair);
    }
  }

  /** With a rate from 0 to 100 nobody is left in debt. */
  lemma StaysSolvent(config: Config, after: Balances, msg: Message, back: nat)
    requires back <= msg.gas && NoDebt(after) && (config.deb.Some? ==> 0 <= config.deb.value.1 <= 100)
    ensures NoDebt(Settled(config, after, msg, back))
  {
    assert back * msg.gasPrice >= 0;
    if config.deb.Some? {
      var fee: nat := (msg.gas - back) * msg.gasPrice;
      SharesExactly(config.deb.value.1);
      assert 0 <= FairnodeFee(fee, config.deb.value.1) <= fee;
    }
  }

  // ---------- the objects ----------

  class GasPool {
    var gas: Uint64

    constructor (limit: Uint64)
      ensures gas == limit
    {
      gas := limit;
    }

    /** The source panics on overflow; no caller lets it happen. */
    method AddGas(amount: Uint64)
      requires gas + amount <= MAX_UINT64
      modifies this
      ensures gas == old(gas) + amount
    {
      gas := gas + amount;
    }

    method SubGas(amount: Uint64) returns (ok: bool)
      modifies this
      ensures ok == (old(gas) >= amount)
      ensures gas == if ok then old(gas) - amount else old(gas)
    {
      if gas < amount {
        return false;
      }
      gas := gas - amount;
      return true;
    }
  }

  class StateDB {
    var balances: Balances
    var nonces: Nonces
    var refund: Uint64

    constructor (balances: Balances, nonces: Nonces)
      ensures this.balances == balances && this.nonces == nonces
    {
      this.balances, this.nonces, refund := balances, nonces, 0;
    }

    method AddBalance(a: Address, amount: int)
      modifies this`balances
      ensures balances == Credit(old(balances), a, amount)
    {
      balances := Credit(balances, a, amount);
    }
  }

  class StateTransition {
    const gp: GasPool
    const state: StateDB
    const config: Config
    const msg: Message
    const evm: Machine
    var gas: Uint64
    var initialGas: Uint64

    constructor (config: Config, evm: Machine, msg: Message, gp: GasPool, state: StateDB)
      ensures this.config == config && this.evm == evm && this.msg == msg && this.gp == gp && this.state == state
      ensures gas == 0 && initialGas == 0
    {
      this.config, this.evm, this.msg, this.gp, this.state := config, evm, msg, gp, state;
      gas, initialGas := 0, 0;
    }

    method UseGas(amount: nat) returns (ok: bool)
      modifies this`gas
      ensures ok == (old(gas) >= amount)
      ensures gas == if ok then old(gas) - amount else old(gas)
    {
      if gas < amount {
        return false;
      }
      gas := gas - amount;
      return true;
    }

    /** Take the whole gas allowance from the pool and its price from the sender. */
    method BuyGas() returns (error: Option<Error>)
      requires gas == 0
      modifies this, gp, state`balances
      ensures error == if BalanceOf(old(state.balances), msg.from) < Cost(msg) then Some(InsufficientBalanceForGas)
                       else if old(gp.gas) < msg.gas then Some(GasLimitReached) else None
      ensures error.None? ==>
                && gas == initialGas == msg.gas && gp.gas == old(gp.gas) - msg.gas
                && state.balances == Credit(old(state.balances), msg.from, -Cost(msg))
    {
      var mgval := msg.gas * msg.gasPrice;
      if BalanceOf(state.balances, msg.from) < mgval {
        return Some(InsufficientBalanceForGas);
      }
      var ok := gp.SubGas(msg.gas);
      if !ok {
        return Some(GasLimitReached);
      }
      gas := gas + msg.gas;
      initialGas := msg.gas;
      state.AddBalance(msg.from, -mgval);
      return None;
    }

    method PreCheck() returns (error: Option<Error>)
      requires gas == 0
      modifies this, gp, state`balances
      ensures error.Some? ==> error == Refusal(config, old(state.balances), state.nonces, old(gp.gas), msg)
      ensures error == Some(NonceTooHigh) <==> msg.checkNonce && NonceOf(state.nonces, msg.from) < msg.nonce
      ensures error == Some(NonceTooLow) <==> msg.checkNonce && NonceOf(state.nonces, msg.from) > msg.nonce
      ensures error == Some(InsufficientBalanceForGas) <==>
                NonceFits(state.nonces, msg) && BalanceOf(old(state.balances), msg.from) < msg.gas * msg.gasPrice
      ensures error == Some(GasLimitReached) <==>
                && NonceFits(state.nonces, msg) && BalanceOf(old(state.balances), msg.from) >= msg.gas * msg.gasPrice
                && old(gp.gas) < msg.gas
      ensures error.None? ==>
                && gas == initialGas == msg.gas <= old(gp.gas) && gp.gas == old(gp.gas) - msg.gas
                && state.balances == Credit(old(state.balances), msg.from, -Cost(msg))
                && Refusal(config, old(state.balances), state.nonces, old(gp.gas), msg) in
                   [None, Some(OutOfGas), Some(InsufficientFundsForTransfer)]
    {
      if msg.checkNonce {
        var nonce := NonceOf(state.nonces, msg.from);
        if nonce < msg.nonce {
          return Some(NonceTooHigh);
        } else if nonce > msg.nonce {
          return Some(NonceTooLow);
        }
      }
      error := BuyGas();
    }

    /** Give the unused gas back to the pool and its price to the sender. The panic in AddGas cannot
        happen: the pool gave this gas away before. */
    method RefundGas()
      requires gas <= initialGas == msg.gas && gp.gas + msg.gas <= MAX_UINT64
      modifies this`gas, gp, state`balances
      ensures gas ==
                old(gas) + if (msg.gas - old(gas)) / 2 > state.refund then state.refund else (msg.gas - old(gas)) / 2
      ensures gas <= msg.gas && gp.gas == old(gp.gas) + gas
      ensures state.balances == Credit(old(state.balances), msg.from, gas * msg.gasPrice)
    {
      var refund := (initialGas - gas) / 2;
      if refund > state.refund {
        refund := state.refund;
      }
      gas := gas + refund;
      var remaining := gas * msg.gasPrice;
      state.AddBalance(msg.from, remaining);
      gp.AddGas(gas);
    }

    /** The part before the virtual machine. */
    method PayIntrinsicGas() returns (error: Option<Error>)
      requires gas == 0 && |msg.data| <= MAX_UINT64
      modifies this, gp, state`balances
      ensures error == Refusal(config, old(state.balances), state.nonces, old(gp.gas), msg)
      ensures error.None? ==>
                && initialGas == msg.gas <= old(gp.gas) && gp.gas == old(gp.gas) - msg.gas
                && BaseGas(config, msg).Some? && BaseGas(config, msg).value <= msg.gas
                && gas == msg.gas - BaseGas(config, msg).value
                && state.balances == Credit(old(state.balances), msg.from, -Cost(msg))
    {
      error := PreCheck();
      if error.Some? {
        return;
      }
      var intrinsic := ComputeIntrinsicGas(msg.data, msg.to.None?, config.homestead);
      if intrinsic.None? {
        return Some(OutOfGas);
      }
      var amount := intrinsic.value;
      if msg.to.Some? && msg.to.value == config.joinAddress {
        amount := 0;
      }
      var enough := UseGas(amount);
      if !enough {
        return Some(OutOfGas);
      }
      if msg.value > 0 && BalanceOf(state.balances, msg.from) < msg.value {
        return Some(InsufficientFundsForTransfer);
      }
      return None;
    }

    /** Share the fee out, if a fairnode is configured. */
    method PayFees()
      requires gas <= initialGas == msg.gas
      modifies state`balances
      ensures var fee := (msg.gas - gas) * msg.gasPrice;
              state.balances ==
                if config.deb.None? then old(state.balances)
                else
                  var fair := FairnodeFee(fee, config.deb.value.1);
                  Credit(Credit(old(state.balances), config.coinbase, fee - fair), config.deb.value.0, fair)
    {
      if config.deb.Some? {
        var fee := (initialGas - gas) * msg.gasPrice;
        var fairFee := fee * config.deb.value.1 / 100;
        var minerFee := fee - fairFee;
        state.AddBalance(config.coinbase, minerFee);
        state.AddBalance(config.deb.value.0, fairFee);
      }
    }

    /** The part after the virtual machine. */
    method Settle(ghost out: Outcome)
      requires gas == out.gasLeft <= initialGas == msg.gas && gp.gas + msg.gas <= MAX_UINT64 &&
               state.refund == out.refund
      modifies this`gas, gp, state`balances
      ensures gas == GivenBack(msg, out) && gp.gas == old(gp.gas) + gas
      ensures state.balances == Settled(config, old(state.balances), msg, GivenBack(msg, out))
    {
      RefundGas();
      PayFees();
    }

    /** Runs the message as Applied says, and fails exactly for the reasons of FailsRightly. */
    method TransitionDb() returns (r: Result<(Uint64, bool)>)
      requires Sane(evm) && gas == 0 && |msg.data| <= MAX_UINT64
      modifies this, gp, state
      ensures Applied(config, evm, msg, old(state.balances), old(state.nonces), old(gp.gas), r, state.balances,
                      state.nonces, gp.gas)
      ensures FailsRightly(config, msg, old(state.balances), old(state.nonces), old(gp.gas), r)
    {
      r := Transition();
      AppliedFailsRightly(config, evm, msg, old(state.balances), old(state.nonces), old(gp.gas), r, state.balances,
                          state.nonces, gp.gas);
    }

    method Transition() returns (r: Result<(Uint64, bool)>)
      requires Sane(evm) && gas == 0 && |msg.data| <= MAX_UINT64
      modifies this, gp, state
      ensures Applied(config, evm, msg, old(state.balances), old(state.nonces), old(gp.gas), r, state.balances,
                      state.nonces, gp.gas)
    {
      hide BaseGas, Refusal, TotalMoney, GivenBack, Settled, NoDebt, Credit, Cost, Sane;
      var error := PayIntrinsicGas();
      if error.Some? {
        return Err(error.value);
      }
      var nonces := state.nonces;
      if msg.to.Some? {
        nonces := nonces[msg.from := NonceOf(nonces, msg.from) + 1];
      }
      var out := evm(state.balances, nonces, msg, gas);
      assert out == Executed(config, evm, old(state.balances), old(state.nonces), msg);
      SaneAt(evm, state.balances, nonces, msg, gas);
      state.balances, state.nonces, gas, state.refund := out.balances, out.nonces, out.gasLeft, out.refund;
      if out.shortOfFunds {
        return Err(InsufficientBalance);
      }
      Settle(out);
      return Ok((initialGas - gas, out.failed));
    }
  }

  /** A message fails exactly if it is refused or the virtual machine lacks the funds. Otherwise the gas
      it used is taken from the pool, and the new state is what the machine and the settlement leave. */
  ghost predicate Applied(config: Config, evm: Machine, msg: Message, b: Balances, n: Nonces, pool: nat,
                          r: Result<(Uint64, bool)>, b': Balances, n': Nonces, pool': nat)
    requires Sane(evm)
  {
    var refusal := Refusal(config, b, n, pool, msg);
    if refusal.Some? then r == Err(refusal.value)
    else
      && BaseGas(config, msg).Some? && BaseGas(config, msg).value <= msg.gas
      && var out := Executed(config, evm, b, n, msg);
         if out.shortOfFunds then r == Err(InsufficientBalance)
         else
           && r.Ok? && r.value == (msg.gas - GivenBack(msg, out), out.failed)
           && pool' == pool - r.value.0
           && b' == Settled(config, out.balances, msg, GivenBack(msg, out)) && n' == out.nonces
  }

  // ---------- when a message fails ----------

  predicate NonceFits(n: Nonces, msg: Message) {
    msg.checkNonce ==> NonceOf(n, msg.from) == msg.nonce
  }

  predicate GasIsBought(b: Balances, n: Nonces, pool: nat, msg: Message) {
    NonceFits(n, msg) && BalanceOf(b, msg.from) >= msg.gas * msg.gasPrice && pool >= msg.gas
  }

  /** The allowance covers the intrinsic gas, which is nothing for joining the league. */
  predicate GasSuffices(config: Config, msg: Message) {
    var exact := ExactGas(msg.data, msg.to.None?, config.homestead);
    exact <= MAX_UINT64 && (msg.to == Some(config.joinAddress) || exact <= msg.gas)
  }

  /** The exact condition of every failure. A message that succeeds carries the sender's nonce, and pays for all its
      gas and its value. */
  ghost predicate FailsRightly(config: Config, msg: Message, b: Balances, n: Nonces, pool: nat,
                               r: Result<(Uint64, bool)>) {
    && (r == Err(NonceTooHigh) <==> msg.checkNonce && NonceOf(n, msg.from) < msg.nonce)
    && (r == Err(NonceTooLow) <==> msg.checkNonce && NonceOf(n, msg.from) > msg.nonce)
    && (r == Err(InsufficientBalanceForGas) <==>
        NonceFits(n, msg) && BalanceOf(b, msg.from) < msg.gas * msg.gasPrice)
    && (r == Err(GasLimitReached) <==>
        NonceFits(n, msg) && BalanceOf(b, msg.from) >= msg.gas * msg.gasPrice && pool < msg.gas)
    && (r == Err(OutOfGas) <==> GasIsBought(b, n, pool, msg) && !GasSuffices(config, msg))
    && (r == Err(InsufficientFundsForTransfer) <==>
        && GasIsBought(b, n, pool, msg) && GasSuffices(config, msg)
        && msg.value > 0 && BalanceOf(b, msg.from) < msg.gas * msg.gasPrice + msg.value)
    && (r.Ok? || r == Err(InsufficientBalance) <==>
        && GasIsBought(b, n, pool, msg) && GasSuffices(config, msg)
        && (msg.value > 0 ==> BalanceOf(b, msg.from) >= msg.gas * msg.gasPrice + msg.value))
  }

  lemma AppliedFailsRightly(config: Config, evm: Machine, msg: Message, b: Balances, n: Nonces, pool: nat,
                            r: Result<(Uint64, bool)>, b': Balances, n': Nonces, pool': nat)
    requires Sane(evm) && Applied(config, evm, msg, b, n, pool, r, b', n', pool')
    ensures FailsRightly(config, msg, b, n, pool, r)
  {
    hide ExactGas, Executed, GivenBack, Settled, BalanceOf, NonceOf, Sane;
  }

  // ---------- what a message changes ----------

  /** The refund is the counter's, or half of the gas used if the counter is above it. */
  ghost predicate RefundFits(spent: nat, counter: nat, refund: int) {
    if 2 * counter <= spent then refund == counter else 2 * refund <= spent <= 2 * refund + 1
  }

  /** The money of one account after the settlement; the addresses may coincide. `fair` is the fairnode's share. */
  ghost function MoneyAfter(config: Config, out: Outcome, msg: Message, used: nat, fair: int, a: Address): int {
    var fee := used * msg.gasPrice;
    BalanceOf(out.balances, a)
    + (if a == msg.from then msg.gas * msg.gasPrice - fee else 0)
    + (if config.deb.Some? && a == config.coinbase then fee - fair else 0)
    + (if config.deb.Some? && a == config.deb.value.0 then fair else 0)
  }

  lemma SettledMoney(config: Config, out: Outcome, msg: Message, used: nat, fair: int)
    requires used <= msg.gas
    requires config.deb.Some? ==> fair == FairnodeFee(used * msg.gasPrice, config.deb.value.1)
    ensures forall a :: BalanceOf(Settled(config, out.balances, msg, msg.gas - used), a) ==
                        MoneyAfter(config, out, msg, used, fair, a)
  {
    hide FairnodeFee;
    CostSplits(msg, msg.gas - used);
  }

  lemma RefundExactly(msg: Message, out: Outcome)
    requires out.gasLeft <= msg.gas
    ensures RefundFits(msg.gas - out.gasLeft, out.refund, GivenBack(msg, out) - out.gasLeft)
  {}

  /** A message that pays for its gas is run by the machine on the balances less the price of all its gas, with the
      nonce raised unless a contract is created, and on what the intrinsic gas leaves. Only the machine's lack of funds
      makes it fail then. Otherwise the machine's state stands; the gas left and the refund are given back to the pool
      and, at the message's price, to the sender; and the fee is split by the rate, rounded down for the fairnode. */
  lemma AppliedRuns(config: Config, evm: Machine, msg: Message, b: Balances, n: Nonces, pool: nat,
                    r: Result<(Uint64, bool)>, b': Balances, n': Nonces, pool': nat,
                    bought: Balances, raised: Nonces, gas: nat)
    returns (fair: int)
    requires Sane(evm) && Applied(config, evm, msg, b, n, pool, r, b', n', pool')
    requires GasIsBought(b, n, pool, msg) && GasSuffices(config, msg) && r != Err(InsufficientFundsForTransfer)
    requires bought.Keys == b.Keys + {msg.from} && forall a :: a in bought ==>
               bought[a] == BalanceOf(b, a) - if a == msg.from then msg.gas * msg.gasPrice else 0
    requires raised == if msg.to.Some? then n[msg.from := NonceOf(n, msg.from) + 1] else n
    requires gas + (if msg.to == Some(config.joinAddress) then 0
                    else ExactGas(msg.data, msg.to.None?, config.homestead)) == msg.gas
    ensures r == Err(InsufficientBalance) <==> evm(bought, raised, msg, gas).shortOfFunds
    ensures r.Ok? <==> !evm(bought, raised, msg, gas).shortOfFunds
    ensures r.Ok? ==>
              var out := evm(bought, raised, msg, gas);
              && r.value.1 == out.failed && n' == out.nonces && pool' == pool - r.value.0
              && out.gasLeft <= msg.gas
              && RefundFits(msg.gas - out.gasLeft, out.refund, msg.gas - out.gasLeft - r.value.0)
              && forall a :: BalanceOf(b', a) == MoneyAfter(config, out, msg, r.value.0, fair, a)
    ensures r.Ok? && config.deb.Some? ==>
              100 * fair <= r.value.0 * msg.gasPrice * config.deb.value.1 < 100 * (fair + 1)
  {
    hide ExactGas, Sane, FairnodeFee, TotalMoney, NoDebt, GivenBack, Settled, MoneyAfter, RefundFits;
    assert bought == Credit(b, msg.from, -Cost(msg));
    var out := evm(bought, raised, msg, gas);
    SaneAt(evm, bought, raised, msg, gas);
    assert out == Executed(config, evm, b, n, msg);
    fair := 0;
    if r.Ok? {
      RefundExactly(msg, out);
      if config.deb.Some? {
        fair := FairnodeFee(r.value.0 * msg.gasPrice, config.deb.value.1);
        FeeIsSplit(r.value.0 * msg.gasPrice, config.deb.value.1);
      }
      SettledMoney(config, out, msg, r.value.0, fair);
    }
  }

  /** No money is made or lost but a fee that is not shared out; the gas used is at least half the
      intrinsic gas and at most the allowance; with a fair rate nobody ends up in debt. */
  lemma AppliedConserves(config: Config, evm: Machine, msg: Message, b: Balances, n: Nonces, pool: nat,
                         r: Result<(Uint64, bool)>, b': Balances, n': Nonces, pool': nat)
    requires Sane(evm) && Applied(config, evm, msg, b, n, pool, r, b', n', pool') && r.Ok?
    ensures pool' + r.value.0 == pool && r.value.0 <= msg.gas
    ensures BaseGas(config, msg).Some? && 2 * r.value.0 >= BaseGas(config, msg).value
    ensures TotalMoney(b') == TotalMoney(b) - if config.deb.Some? then 0 else r.value.0 * msg.gasPrice
    ensures NoDebt(b) && (config.deb.Some? ==> 0 <= config.deb.value.1 <= 100) ==> NoDebt(b')
  {
    hide TotalMoney, Settled, NoDebt, Credit, BaseGas, Refusal, FairnodeFee, Cost, GivenBack;
    var out := Executed(config, evm, b, n, msg);
    var bought := Credit(b, msg.from, -Cost(msg));
    Conserves(config, b, bought, out.balances, msg, GivenBack(msg, out));
    if NoDebt(b) && (config.deb.Some? ==> 0 <= config.deb.value.1 <= 100) {
      AffordsGas(config, b, n, pool, msg);
      StaysSolvent(config, out.balances, msg, GivenBack(msg, out));
    }
  }

  /** A message that is not refused can be paid for. */
  lemma AffordsGas(config: Config, b: Balances, n: Nonces, pool: nat, msg: Message)
    requires NoDebt(b) && Refusal(config, b, n, pool, msg).None?
    ensures NoDebt(Credit(b, msg.from, -Cost(msg)))
  {}
}
