/** core/state_processor.go, the transaction loop of a block, and core/blockchain.go, SetReceiptsData:
    gas and money over a whole block, and the gas of each transaction from the cumulative values. */
module StateProcessor {
  import opened Basics
  import opened StateTransitions

  datatype Receipt = Receipt(cumulative: Uint64, gasUsed: Uint64, failed: bool)

  datatype Snapshot = Snapshot(balances: Balances, nonces: Nonces, pool: nat)

  ghost function Capture(state: StateDB, gp: GasPool): Snapshot
    reads state, gp
  {
    Snapshot(state.balances, state.nonces, gp.gas)
  }

  function CumulativeBefore(receipts: seq<Receipt>, j: nat): (c: Uint64)
    requires j <= |receipts|
  {
    if j == 0 then 0 else receipts[j - 1].cumulative
  }

  /** Each receipt adds its own gas to what was used before it. */
  ghost predicate Cumulates(receipts: seq<Receipt>) {
    forall j | 0 <= j < |receipts| :: AddsOwnGas(receipts, j)
  }

  ghost predicate AddsOwnGas(receipts: seq<Receipt>, j: nat)
    requires j < |receipts|
  {
    receipts[j].cumulative == CumulativeBefore(receipts, j) + receipts[j].gasUsed
  }

  lemma CumulatesMore(receipts: seq<Receipt>, r: Receipt)
    requires Cumulates(receipts) && r.cumulative == CumulativeBefore(receipts, |receipts|) + r.gasUsed
    ensures Cumulates(receipts + [r])
  {
    forall j | 0 <= j < |receipts| + 1
      ensures AddsOwnGas(receipts + [r], j)
    {
      assert j < |receipts| ==> AddsOwnGas(receipts, j);
    }
  }

  /** The fees of the transactions of a block. */
  ghost function Fees(msgs: seq<Message>, receipts: seq<Receipt>): int
    requires |msgs| == |receipts|
  {
    if msgs == [] then 0
    else
      var last := |msgs| - 1;
      Fees(msgs[..last], receipts[..last]) + receipts[last].gasUsed * msgs[last].gasPrice
  }

  /** Every transaction of the block was applied to what the one before it left. */
  ghost predicate Replays(config: Config, evm: Machine, msgs: seq<Message>, receipts: seq<Receipt>,
                          trace: seq<Snapshot>)
    requires Sane(evm) && |receipts| == |msgs| && |trace| == |msgs| + 1
  {
    forall i | 0 <= i < |msgs| :: StepReplays(config, evm, msgs[i], receipts[i], trace[i], trace[i + 1])
  }

  ghost predicate StepReplays(config: Config, evm: Machine, msg: Message, receipt: Receipt, s: Snapshot, t: Snapshot)
    requires Sane(evm)
  {
    Applied(config, evm, msg, s.balances, s.nonces, s.pool, Ok((receipt.gasUsed, receipt.failed)), t.balances, t.nonces,
            t.pool)
  }

  /** The message cannot be applied, for this reason. */
  ghost predicate Fails(config: Config, evm: Machine, msg: Message, error: Error, s: Snapshot)
    requires Sane(evm)
  {
    Applied(config, evm, msg, s.balances, s.nonces, s.pool, Err(error), s.balances, s.nonces, s.pool)
  }

  lemma FailsAnyway(config: Config, evm: Machine, msg: Message, error: Error, s: Snapshot, t: Snapshot)
    requires Sane(evm)
    requires Applied(config, evm, msg, s.balances, s.nonces, s.pool, Err(error), t.balances, t.nonces, t.pool)
    ensures Fails(config, evm, msg, error, s)
  {}

  /** Over every block whose transactions all succeed, the gas used and the gas left add up to what the
      pool held, and the money is what it was but for fees that are not shared out. */
  lemma {:induction false} BlockConserves(config: Config, evm: Machine, msgs: seq<Message>, receipts: seq<Receipt>,
                                          trace: seq<Snapshot>)
    requires Sane(evm) && |receipts| == |msgs| && |trace| == |msgs| + 1
    requires Cumulates(receipts) && Replays(config, evm, msgs, receipts, trace)
    ensures trace[|msgs|].pool + CumulativeBefore(receipts, |msgs|) == trace[0].pool
    ensures TotalMoney(trace[|msgs|].balances) ==
            TotalMoney(trace[0].balances) - if config.deb.Some? then 0 else Fees(msgs, receipts)
    ensures NoDebt(trace[0].balances) && (config.deb.Some? ==> 0 <= config.deb.value.1 <= 100) ==>
              NoDebt(trace[|msgs|].balances)
  {
    hide Applied, TotalMoney, NoDebt;
    if msgs != [] {
      var last := |msgs| - 1;
      PrefixReplays(config, evm, msgs, receipts, trace);
      BlockConserves(config, evm, msgs[..last], receipts[..last], trace[..last + 1]);
      assert StepReplays(config, evm, msgs[last], receipts[last], trace[last], trace[last + 1]);
      assert AddsOwnGas(receipts, last);
      var s, t := trace[last], trace[last + 1];
      AppliedConserves(config, evm, msgs[last], s.balances, s.nonces, s.pool,
                       Ok((receipts[last].gasUsed, receipts[last].failed)),
                       t.balances, t.nonces, t.pool);
    }
  }

  lemma PrefixReplays(config: Config, evm: Machine, msgs: seq<Message>, receipts: seq<Receipt>, trace: seq<Snapshot>)
    requires Sane(evm) && |receipts| == |msgs| && |trace| == |msgs| + 1 && msgs != []
    requires Cumulates(receipts) && Replays(config, evm, msgs, receipts, trace)
    ensures Cumulates(receipts[..|msgs| - 1])
    ensures Replays(config, evm, msgs[..|msgs| - 1], receipts[..|msgs| - 1], trace[..|msgs|])
  {
    hide Applied;
    var last := |msgs| - 1;
    forall j | 0 <= j < last
      ensures AddsOwnGas(receipts[..last], j)
      ensures StepReplays(config, evm, msgs[..last][j], receipts[..last][j], trace[..last + 1][j],
                          trace[..last + 1][j + 1])
    {
      assert AddsOwnGas(receipts, j);
      assert StepReplays(config, evm, msgs[j], receipts[j], trace[j], trace[j + 1]);
    }
  }

  /** The running total cannot overflow: with what is left in the pool it makes the block's gas limit. */
  method ApplyTransaction(config: Config, evm: Machine, gp: GasPool, state: StateDB, msg: Message, usedGas: Uint64)
    returns (r: Result<Receipt>)
    requires Sane(evm) && |msg.data| <= MAX_UINT64 && gp.gas + usedGas <= MAX_UINT64
    modifies gp, state
    ensures r.Ok? ==>
              && StepReplays(config, evm, msg, r.value, old(Capture(state, gp)), Capture(state, gp))
              && r.value.cumulative == usedGas + r.value.gasUsed && gp.gas + r.value.gasUsed == old(gp.gas)
    ensures r.Err? ==> Fails(config, evm, msg, r.error, old(Capture(state, gp)))
  {
    hide Applied, TotalMoney, NoDebt, BaseGas;
    var transition := new StateTransition(config, evm, msg, gp, state);
    var result := transition.TransitionDb();
    if result.Err? {
      FailsAnyway(config, evm, msg, result.error, old(Capture(state, gp)), Capture(state, gp));
      return Err(result.error);
    }
    AppliedConserves(config, evm, msg, old(state.balances), old(state.nonces), old(gp.gas), result, state.balances,
                     state.nonces, gp.gas);
    return Ok(Receipt(usedGas + result.value.0, result.value.0, result.value.1));
  }

  /** Every message of the block carries its sender's nonce at that point, if it is checked, and pays for its gas. */
  lemma ReplaysRightly(config: Config, evm: Machine, msgs: seq<Message>, receipts: seq<Receipt>, trace: seq<Snapshot>)
    requires Sane(evm) && |receipts| == |msgs| && |trace| == |msgs| + 1
    requires Replays(config, evm, msgs, receipts, trace)
    ensures forall i | 0 <= i < |msgs| ::
              && (msgs[i].checkNonce ==> NonceOf(trace[i].nonces, msgs[i].from) == msgs[i].nonce)
              && BalanceOf(trace[i].balances, msgs[i].from) >= msgs[i].gas * msgs[i].gasPrice
              && trace[i].pool >= msgs[i].gas
  {
    hide Applied, BalanceOf, NonceOf;
    forall i | 0 <= i < |msgs|
      ensures && (msgs[i].checkNonce ==> NonceOf(trace[i].nonces, msgs[i].from) == msgs[i].nonce)
              && BalanceOf(trace[i].balances, msgs[i].from) >= msgs[i].gas * msgs[i].gasPrice
              && trace[i].pool >= msgs[i].gas
    {
      var s, t := trace[i], trace[i + 1];
      assert StepReplays(config, evm, msgs[i], receipts[i], s, t);
      AppliedFailsRightly(config, evm, msgs[i], s.balances, s.nonces, s.pool,
                          Ok((receipts[i].gasUsed, receipts[i].failed)), t.balances, t.nonces, t.pool);
    }
  }

  lemma FailureIsRight(config: Config, evm: Machine, msg: Message, error: Error, s: Snapshot)
    requires Sane(evm) && Fails(config, evm, msg, error, s)
    ensures FailsRightly(config, msg, s.balances, s.nonces, s.pool, Err(error))
  {
    AppliedFailsRightly(config, evm, msg, s.balances, s.nonces, s.pool, Err(error), s.balances, s.nonces, s.pool);
  }

  /** Process: run the transactions of a block in order and stop at the first error. */
  method Process(config: Config, evm: Machine, state: StateDB, gasLimit: Uint64, msgs: seq<Message>)
    returns (r: Result<(seq<Receipt>, Uint64)>, ghost trace: seq<Snapshot>)
    requires Sane(evm) && forall i :: 0 <= i < |msgs| ==> |msgs[i].data| <= MAX_UINT64
    modifies state
    ensures r.Ok? ==>
              && |r.value.0| == |msgs| && |trace| == |msgs| + 1
              && Cumulates(r.value.0) && Replays(config, evm, msgs, r.value.0, trace)
              && trace[0] == Snapshot(old(state.balances), old(state.nonces), gasLimit)
              && trace[|msgs|].balances == state.balances && trace[|msgs|].nonces == state.nonces
              && r.value.1 == CumulativeBefore(r.value.0, |msgs|) && trace[|msgs|].pool + r.value.1 == gasLimit
              && TotalMoney(state.balances) ==
                 TotalMoney(old(state.balances)) - if config.deb.Some? then 0 else Fees(msgs, r.value.0)
    ensures r.Ok? ==> forall i | 0 <= i < |msgs| :: msgs[i].checkNonce ==>
                        NonceOf(trace[i].nonces, msgs[i].from) == msgs[i].nonce
    ensures r.Err? ==>
              && 0 < |trace| <= |msgs| && Fails(config, evm, msgs[|trace| - 1], r.error, trace[|trace| - 1])
              && trace[0] == Snapshot(old(state.balances), old(state.nonces), gasLimit)
              && (exists done :: |done| == |trace| - 1 && Replays(config, evm, msgs[..|trace| - 1], done, trace))
              && var at := trace[|trace| - 1];
                 FailsRightly(config, msgs[|trace| - 1], at.balances, at.nonces, at.pool, Err(r.error))
  {
    hide Applied, StepReplays, Cumulates, Fails, TotalMoney, NoDebt, FailsRightly, BalanceOf, NonceOf;
    assert Cumulates([]) by { NoReceipts(); }
    var receipts, usedGas: Uint64 := [], 0;
    var gp := new GasPool(0);
    gp.AddGas(gasLimit);
    trace := [Capture(state, gp)];
    for i := 0 to |msgs|
      invariant |receipts| == i && |trace| == i + 1
      invariant trace[0] == Snapshot(old(state.balances), old(state.nonces), gasLimit)
      invariant trace[i] == Capture(state, gp)
      invariant gp.gas + usedGas == gasLimit && usedGas == CumulativeBefore(receipts, i)
      invariant Cumulates(receipts) && Replays(config, evm, msgs[..i], receipts, trace)
    {
      var receipt := ApplyTransaction(config, evm, gp, state, msgs[i], usedGas);
      if receipt.Err? {
        FailureIsRight(config, evm, msgs[i], receipt.error, trace[i]);
        return Err(receipt.error), trace;
      }
      CumulatesMore(receipts, receipt.value);
      ReplaysMore(config, evm, msgs[..i], receipts, trace, msgs[i], receipt.value, Capture(state, gp));
      assert msgs[..i] + [msgs[i]] == msgs[..i + 1];
      usedGas := receipt.value.cumulative;
      receipts := receipts + [receipt.value];
      trace := trace + [Capture(state, gp)];
    }
    assert msgs[..|msgs|] == msgs;
    BlockConserves(config, evm, msgs, receipts, trace);
    ReplaysRightly(config, evm, msgs, receipts, trace);
    return Ok((receipts, usedGas)), trace;
  }

  lemma NoReceipts()
    ensures Cumulates([])
  {}

  lemma ReplaysMore(config: Config, evm: Machine, msgs: seq<Message>, receipts: seq<Receipt>, trace: seq<Snapshot>,
                    msg: Message, receipt: Receipt, after: Snapshot)
    requires Sane(evm) && |receipts| == |msgs| && |trace| == |msgs| + 1
    requires Replays(config, evm, msgs, receipts, trace)
    requires StepReplays(config, evm, msg, receipt, trace[|msgs|], after)
    ensures Replays(config, evm, msgs + [msg], receipts + [receipt], trace + [after])
  {
    hide StepReplays;
    forall i | 0 <= i < |msgs| + 1
      ensures StepReplays(config, evm, (msgs + [msg])[i], (receipts + [receipt])[i], (trace + [after])[i],
                          (trace + [after])[i + 1])
    {
      assert i < |msgs| ==> StepReplays(config, evm, msgs[i], receipts[i], trace[i], trace[i + 1]);
    }
  }

  // ---------- receipts read back from the database ----------

  /** Subtraction as the 64-bit machine does it. */
  function Sub64(a: Uint64, b: Uint64): Uint64 {
    if a >= b then a - b else a + (MAX_UINT64 + 1 - b)
  }

  /** The gas SetReceiptsData derives for receipt `j`. */
  function DerivedGas(receipts: seq<Receipt>, j: nat): Uint64
    requires j < |receipts|
  {
    Sub64(receipts[j].cumulative, CumulativeBefore(receipts, j))
  }

  /** SetReceiptsData, the gas of each receipt. */
  method SetReceiptsData(transactions: nat, receipts: array<Receipt>) returns (ok: bool)
    modifies receipts
    ensures ok == (transactions == receipts.Length)
    ensures !ok ==> receipts[..] == old(receipts[..])
    ensures ok ==> forall j :: 0 <= j < receipts.Length ==>
                     receipts[j] == old(receipts[j]).(gasUsed := DerivedGas(old(receipts[..]), j))
  {
    if transactions != receipts.Length {
      return false;
    }
    for j := 0 to receipts.Length
      invariant forall i :: 0 <= i < j ==> receipts[i] == old(receipts[i]).(gasUsed := DerivedGas(old(receipts[..]), i))
      invariant forall i :: j <= i < receipts.Length ==> receipts[i] == old(receipts[i])
    {
      if j == 0 {
        receipts[j] := receipts[j].(gasUsed := receipts[j].cumulative);
      } else {
        receipts[j] := receipts[j].(gasUsed := Sub64(receipts[j].cumulative, receipts[j - 1].cumulative));
      }
    }
    return true;
  }

  /** The gas of each transaction is recovered from the cumulative values of a processed block, whatever
      the stored receipts held in its place. */
  lemma RecoversGas(full: seq<Receipt>, stored: seq<Receipt>, j: nat)
    requires Cumulates(full) && |stored| == |full| && j < |full|
    requires forall i :: 0 <= i < |full| ==>
               stored[i].cumulative == full[i].cumulative && stored[i].failed == full[i].failed
    ensures stored[j].(gasUsed := DerivedGas(stored, j)) == full[j]
  {
    assert AddsOwnGas(full, j);
    assert CumulativeBefore(stored, j) == CumulativeBefore(full, j);
  }
}
