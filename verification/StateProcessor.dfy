/** Processing a block: its messages in order, over one gas pool. */
module StateProcessor {
  import opened Types
  import opened StateTransition

  datatype Receipt = Receipt(failed: bool, cumulativeGasUsed: nat, gasUsed: nat)

  datatype Processed = Done(receipts: seq<Receipt>, usedGas: nat) | Failed(index: nat, err: Error)

  ghost function SumUsed(receipts: seq<Receipt>): nat {
    if receipts == [] then 0 else SumUsed(receipts[..|receipts| - 1]) + receipts[|receipts| - 1].gasUsed
  }

  /** Each receipt carries the gas used up to and including its message. */
  ghost predicate PrefixSums(receipts: seq<Receipt>) {
    forall i: nat :: i < |receipts| ==> receipts[i].cumulativeGasUsed == SumUsed(receipts[..i + 1])
  }

  /** The virtual machine's part in the change of the total over the first `n` messages. */
  ghost function Minted(msgs: seq<Message>, evms: seq<Evm>, ctx: Context, worlds: seq<World>, n: nat): int
    requires n <= |msgs| && n <= |evms| && n < |worlds|
    requires forall i :: 0 <= i < n ==>
                IntrinsicCost(msgs[i].data, msgs[i].creation, ctx.homestead, ctx.istanbul) <= msgs[i].gas
  {
    if n == 0 then 0
    else Minted(msgs, evms, ctx, worlds, n - 1)
         + Total(Executed(msgs[n - 1], worlds[n - 1], ctx, evms[n - 1]).world.balances)
         - Total(Prepaid(msgs[n - 1], worlds[n - 1]).balances)
  }

  /** The worlds follow each other, a receipt per step. */
  ghost predicate Steps(msgs: seq<Message>, evms: seq<Evm>, ctx: Context, worlds: seq<World>, receipts: seq<Receipt>) {
    && |worlds| == |receipts| + 1 && |receipts| <= |msgs| == |evms|
    && forall i :: 0 <= i < |receipts| ==> Step(msgs[i], worlds[i], ctx, evms[i], worlds[i + 1], receipts[i])
  }

  ghost predicate Step(msg: Message, w: World, ctx: Context, evm: Evm, after: World, receipt: Receipt) {
    Settled(msg, w, ctx, evm, after, Accepted(receipt.gasUsed, receipt.failed))
  }

  lemma StepsMore(msgs: seq<Message>, evms: seq<Evm>, ctx: Context, worlds: seq<World>, receipts: seq<Receipt>,
                  after: World, receipt: Receipt)
    requires Steps(msgs, evms, ctx, worlds, receipts) && |receipts| < |msgs|
    requires Step(msgs[|receipts|], worlds[|receipts|], ctx, evms[|receipts|], after, receipt)
    requires PrefixSums(receipts) && receipt.cumulativeGasUsed == SumUsed(receipts) + receipt.gasUsed
    ensures Steps(msgs, evms, ctx, worlds + [after], receipts + [receipt])
    ensures PrefixSums(receipts + [receipt]) && SumUsed(receipts + [receipt]) == SumUsed(receipts) + receipt.gasUsed
  {
    hide Step;
    var more := receipts + [receipt];
    assert more[..|receipts|] == receipts;
    forall i: nat | i < |more| ensures more[i].cumulativeGasUsed == SumUsed(more[..i + 1]) {
      if i < |receipts| {
        assert more[..i + 1] == receipts[..i + 1];
      } else {
        assert more[..i + 1] == more;
      }
    }
  }

  /** Over a block the total changes by what the virtual machine does in each message. */
  lemma {:induction false} BlockConserves(msgs: seq<Message>, evms: seq<Evm>, ctx: Context, worlds: seq<World>,
                                          receipts: seq<Receipt>, n: nat)
    requires Steps(msgs, evms, ctx, worlds, receipts) && n <= |receipts|
    ensures forall i :: 0 <= i < n ==>
                IntrinsicCost(msgs[i].data, msgs[i].creation, ctx.homestead, ctx.istanbul) <= msgs[i].gas
    ensures Total(worlds[n].balances) - Total(worlds[0].balances) == Minted(msgs, evms, ctx, worlds, n)
  {
    hide Total, IntrinsicCost, Used, Credit;
    if n > 0 {
      BlockConserves(msgs, evms, ctx, worlds, receipts, n - 1);
      assert Step(msgs[n - 1], worlds[n - 1], ctx, evms[n - 1], worlds[n], receipts[n - 1]);
    }
  }

  /** Every message was admissible when its turn came. */
  ghost predicate AllAdmissible(msgs: seq<Message>, ctx: Context, worlds: seq<World>, receipts: seq<Receipt>,
                                limit: nat)
    requires |worlds| == |receipts| + 1 && |receipts| <= |msgs| && SumUsed(receipts) <= limit
  {
    forall i :: 0 <= i < |receipts| ==> AdmissibleAt(msgs, ctx, worlds, receipts, limit, i)
  }

  ghost predicate AdmissibleAt(msgs: seq<Message>, ctx: Context, worlds: seq<World>, receipts: seq<Receipt>,
                               limit: nat, i: nat)
    requires i < |receipts| < |worlds| && |receipts| <= |msgs|
  {
    SumUsed(receipts[..i]) <= limit && Admissible(msgs[i], worlds[i], limit - SumUsed(receipts[..i]), ctx)
  }

  lemma AdmissibleMore(msgs: seq<Message>, ctx: Context, worlds: seq<World>, receipts: seq<Receipt>, limit: nat,
                       after: World, receipt: Receipt)
    requires |worlds| == |receipts| + 1 && |receipts| < |msgs| && SumUsed(receipts) + receipt.gasUsed <= limit
    requires AllAdmissible(msgs, ctx, worlds, receipts, limit)
    requires Admissible(msgs[|receipts|], worlds[|receipts|], limit - SumUsed(receipts), ctx)
    ensures SumUsed(receipts + [receipt]) <= limit
    ensures AllAdmissible(msgs, ctx, worlds + [after], receipts + [receipt], limit)
  {
    hide Admissible;
    var more := receipts + [receipt];
    assert more[..|receipts|] == receipts;
    forall i | 0 <= i < |more| ensures AdmissibleAt(msgs, ctx, worlds + [after], more, limit, i) {
      if i < |receipts| {
        assert AdmissibleAt(msgs, ctx, worlds, receipts, limit, i) && more[..i] == receipts[..i];
      }
    }
  }

  // ----- No message twice -----

  /** A virtual machine that takes no nonce back and, in a creation, raises the sender's. */
  ghost predicate Forward(evm: Evm, msg: Message) {
    forall w: World, g: nat, a: Address ::
      NonceOf(evm(w, g).world.nonces, a) >= NonceOf(w.nonces, a) + if msg.creation && a == msg.from then 1 else 0
  }

  lemma StepRaisesNonce(msg: Message, w: World, ctx: Context, evm: Evm, after: World, receipt: Receipt, a: Address)
    requires Step(msg, w, ctx, evm, after, receipt) && Forward(evm, msg)
    ensures NonceOf(after.nonces, a) >= NonceOf(w.nonces, a) + if a == msg.from then 1 else 0
  {
    hide Total, IntrinsicCost, Credit, Used, NonceOf, Prepaid;
    StartsWith(msg, w, a);
    var g := msg.gas - IntrinsicCost(msg.data, msg.creation, ctx.homestead, ctx.istanbul);
    assert NonceOf(evm(Prepaid(msg, w), g).world.nonces, a)
        >= NonceOf(Prepaid(msg, w).nonces, a) + if msg.creation && a == msg.from then 1 else 0;
  }

  lemma {:induction false} NoncesRise(msgs: seq<Message>, evms: seq<Evm>, ctx: Context, worlds: seq<World>,
                                      receipts: seq<Receipt>, i: nat, j: nat, a: Address)
    requires Steps(msgs, evms, ctx, worlds, receipts) && i <= j <= |receipts|
    requires forall k :: 0 <= k < |receipts| ==> Forward(evms[k], msgs[k])
    ensures NonceOf(worlds[j].nonces, a) >= NonceOf(worlds[i].nonces, a)
    decreases j
  {
    hide Step, Forward, NonceOf;
    if i < j {
      NoncesRise(msgs, evms, ctx, worlds, receipts, i, j - 1, a);
      StepRaisesNonce(msgs[j - 1], worlds[j - 1], ctx, evms[j - 1], worlds[j], receipts[j - 1], a);
    }
  }

  /** No block accepts two messages with the same sender and nonce, where nonces are checked. */
  lemma NoReplay(msgs: seq<Message>, evms: seq<Evm>, ctx: Context, worlds: seq<World>, receipts: seq<Receipt>,
                 limit: nat, i: nat, j: nat)
    requires Steps(msgs, evms, ctx, worlds, receipts) && SumUsed(receipts) <= limit && i < j < |receipts|
    requires AllAdmissible(msgs, ctx, worlds, receipts, limit) && msgs[i].checkNonce && msgs[j].checkNonce
    requires forall k :: 0 <= k < |receipts| ==> Forward(evms[k], msgs[k])
    ensures msgs[i].from == msgs[j].from ==> msgs[i].nonce < msgs[j].nonce
  {
    hide Step, Forward, NonceOf, IntrinsicCost, BalanceOf;
    assert AdmissibleAt(msgs, ctx, worlds, receipts, limit, i) && AdmissibleAt(msgs, ctx, worlds, receipts, limit, j);
    StepRaisesNonce(msgs[i], worlds[i], ctx, evms[i], worlds[i + 1], receipts[i], msgs[i].from);
    NoncesRise(msgs, evms, ctx, worlds, receipts, i + 1, j, msgs[i].from);
  }

  // ----- The block -----

  /** `applyTransaction`: gas and receipt of one message. */
  method ApplyTransaction(msg: Message, gp: GasPool, ctx: Context, evm: Evm, world: World, usedGas: nat)
    returns (err: Option<Error>, receipt: Receipt, world': World, usedGas': nat)
    requires msg.gas <= MAX_UINT64 && gp.gas <= MAX_UINT64 && Frugal(evm)
    modifies gp
    ensures err == FirstError(msg, world, old(gp.gas), ctx) && gp.gas <= old(gp.gas)
    ensures err == None ==> Step(msg, world, ctx, evm, world', receipt)
    ensures err == None ==>
                && usedGas' == usedGas + receipt.gasUsed && receipt.cumulativeGasUsed == usedGas'
                && gp.gas == old(gp.gas) - receipt.gasUsed
  {
    hide Settled, FirstError;
    AdmissibleIff(msg, world, gp.gas, ctx);
    var st := new StateTransition(gp, msg, world);
    var r := st.TransitionDb(ctx, evm);
    if r.Rejected? {
      return Some(r.err), Receipt(false, 0, 0), world, usedGas;
    }
    return None, Receipt(r.failed, usedGas + r.usedGas, r.usedGas), st.world, usedGas + r.usedGas;
  }

  /** `Process`. Pool and used gas always add up to the block's limit, receipts carry prefix
      sums, and a failure names the first message that breaks a rule. */
  method Process(limit: nat, world: World, msgs: seq<Message>, evms: seq<Evm>, ctx: Context)
    returns (r: Processed, gp: GasPool, ghost worlds: seq<World>, ghost receipts: seq<Receipt>)
    requires limit <= MAX_UINT64 && |evms| == |msgs|
    requires forall i :: 0 <= i < |msgs| ==> msgs[i].gas <= MAX_UINT64 && Frugal(evms[i])
    ensures Steps(msgs, evms, ctx, worlds, receipts) && worlds[0] == world && PrefixSums(receipts)
    ensures SumUsed(receipts) <= limit && AllAdmissible(msgs, ctx, worlds, receipts, limit)
    ensures r.Done? ==>
                && |r.receipts| == |msgs| && PrefixSums(r.receipts) && r.usedGas == SumUsed(r.receipts) <= limit
                && gp.gas + r.usedGas == limit
    ensures r.Done? ==> r.receipts == receipts
    ensures r.Failed? ==> r.index == |receipts| < |msgs|
    ensures r.Failed? ==> FirstError(msgs[r.index], worlds[r.index], limit - SumUsed(receipts), ctx) == Some(r.err)
  {
    hide Step, FirstError, PrefixSums, AllAdmissible, Admissible, SumUsed;
    gp := new GasPool();
    var panicked := gp.AddGas(limit);
    var usedGas: nat := 0;
    var done: seq<Receipt>, current := [], world;
    worlds, receipts := [world], [];
    NoSteps(msgs, evms, ctx, world, limit);
    for i := 0 to |msgs|
      invariant Steps(msgs, evms, ctx, worlds, receipts) && |receipts| == i && |worlds| == i + 1
      invariant worlds[i] == current && worlds[0] == world
      invariant PrefixSums(receipts) && done == receipts && usedGas == SumUsed(receipts) && gp.gas + usedGas == limit
      invariant fresh(gp) && AllAdmissible(msgs, ctx, worlds, receipts, limit)
    {
      var err, receipt;
      AdmissibleIff(msgs[i], current, gp.gas, ctx);
      err, receipt, current, usedGas := ApplyTransaction(msgs[i], gp, ctx, evms[i], current, usedGas);
      if err.Some? {
        return Failed(i, err.value), gp, worlds, receipts;
      }
      StepsMore(msgs, evms, ctx, worlds, receipts, current, receipt);
      AdmissibleMore(msgs, ctx, worlds, receipts, limit, current, receipt);
      done := done + [receipt];
      worlds, receipts := worlds + [current], receipts + [receipt];
    }
    r := Done(done, usedGas);
  }

  lemma NoSteps(msgs: seq<Message>, evms: seq<Evm>, ctx: Context, world: World, limit: nat)
    requires |msgs| == |evms|
    ensures Steps(msgs, evms, ctx, [world], []) && PrefixSums([]) && SumUsed([]) == 0
    ensures AllAdmissible(msgs, ctx, [world], [], limit)
  {}
}
