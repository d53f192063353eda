/** What the pool calls executable, the state transition accepts: pooled transactions as
    messages, judged by the chain's own rules. */
module Execution {
  import opened Types
  import opened NonceMap
  import opened TxLists
  import opened Account
  import opened Admission
  import opened History
  import PS = PoolState
  import ST = StateTransition

  /** The message of a transaction; destination and data are in what the pool does not look at. */
  function MessageOf(tx: Tx, creation: bool, data: seq<nat>): ST.Message
    requires tx.price >= 0
  {
    ST.Message(tx.sender, true, tx.nonce, tx.gas, tx.price, tx.value, creation, data)
  }

  /** The sender can buy the gas and, if value moves, still has it then. */
  ghost predicate Funds(balance: int, tx: Tx) {
    balance >= tx.gas * tx.price && (tx.value > 0 ==> balance - tx.gas * tx.price >= tx.value)
  }

  /** The chain state that the pool works with is this world, under these rules. */
  ghost predicate Agrees(state: ChainState, w: ST.World, ctx: ST.Context, tx: Tx, creation: bool, data: seq<nat>) {
    && state.balance(tx.sender) == ST.BalanceOf(w.balances, tx.sender)
    && state.nonce(tx.sender) == ST.NonceOf(w.nonces, tx.sender)
    && state.intrinsic(tx) == (var cost := ST.IntrinsicCost(data, creation, ctx.homestead, ctx.istanbul);
                               if cost <= ST.MAX_UINT64 then Some(cost) else None)
  }

  /** Over its limits means too much gas for a block, or not enough funds. */
  lemma OverMeans(lim: Limits, tx: Tx)
    requires tx.value >= 0
    ensures lim.Over()(tx) <==> tx.gas > lim.maxGas || !Funds(lim.balance, tx)
  {}

  /** What each refusal says about a transaction. */
  ghost predicate Breaks(rules: Rules, locals: set<Address>, tx: Tx, local: bool, e: Error) {
    match e
    case OversizedData => tx.size > 0x2_0000
    case NegativeValue => tx.value < 0
    case GasLimit => tx.gas > rules.state.maxGas
    case Underpriced => !local && tx.sender !in locals && tx.price < rules.gasPrice
    case NonceTooLow => tx.nonce < rules.state.nonce(tx.sender)
    case InsufficientFunds => tx.value >= 0 && !Funds(rules.state.balance(tx.sender), tx)
    case GasUintOverflow => rules.state.intrinsic(tx) == None
    case IntrinsicGas => rules.state.intrinsic(tx).Some? && tx.gas < rules.state.intrinsic(tx).value
    case _ => false
  }

  ghost function Turn(e: Error): nat {
    match e
    case OversizedData => 1
    case NegativeValue => 2
    case GasLimit => 3
    case Underpriced => 4
    case NonceTooLow => 5
    case InsufficientFunds => 6
    case GasUintOverflow => 7
    case IntrinsicGas => 8
    case _ => 9
  }

  /** The pool takes what breaks no rule and refuses for the first that is broken; for funds,
      exactly what the chain would refuse. */
  lemma RefusedFor(rules: Rules, locals: set<Address>, tx: Tx, local: bool)
    ensures Validation(rules, locals, tx, local) == None <==> forall e :: !Breaks(rules, locals, tx, local, e)
    ensures forall e :: Validation(rules, locals, tx, local) == Some(e) ==>
                Breaks(rules, locals, tx, local, e)
                && forall other :: Breaks(rules, locals, tx, local, other) ==> Turn(e) <= Turn(other)
  {
    match Validation(rules, locals, tx, local)
    case None =>
    case Some(e) => assert Breaks(rules, locals, tx, local, e);
  }

  /** Whoever is valid for the pool and next in line is admissible, in any block with its gas left. */
  lemma ValidIsAdmissible(rules: Rules, locals: set<Address>, tx: Tx, local: bool, w: ST.World, pool: nat,
                          ctx: ST.Context, creation: bool, data: seq<nat>)
    requires Validation(rules, locals, tx, local) == None && tx.price >= 0 && tx.gas <= ST.MAX_UINT64
    requires Agrees(rules.state, w, ctx, tx, creation, data) && tx.nonce == rules.state.nonce(tx.sender)
    ensures ST.Admissible(MessageOf(tx, creation, data), w, pool, ctx) <==> pool >= tx.gas
  {
    RefusedFor(rules, locals, tx, local);
    assert !Breaks(rules, locals, tx, local, InsufficientFunds) && !Breaks(rules, locals, tx, local, NegativeValue);
  }

  /** What is refused for funds, or filtered out for them, is not admissible anywhere. */
  lemma UnfundedIsNot(state: ChainState, tx: Tx, w: ST.World, pool: nat, ctx: ST.Context, creation: bool,
                      data: seq<nat>)
    requires !Funds(state.balance(tx.sender), tx) && tx.price >= 0 && Agrees(state, w, ctx, tx, creation, data)
    ensures !ST.Admissible(MessageOf(tx, creation, data), w, pool, ctx)
  {}

  /** Everything pending in a gapless account is funded by itself and fits into a block. */
  lemma GaplessIsFunded(c: Acct, lim: Limits, n: nat)
    requires Gapless(c, lim) && n in c.pending && Fit(c.pending[n])
    ensures Funds(lim.balance, c.pending[n]) && c.pending[n].gas <= lim.maxGas
  {
    OverMeans(lim, c.pending[n]);
  }

  /** In a pool whose accounts are gapless and whose transactions fit and pay for their data, the
      first pending transaction of every account is admissible in every world that the pool's
      state stands for, as long as the block has its gas left; an empty block always has. */
  lemma FirstIsAdmissible(m: Moment, a: Address, w: ST.World, pool: nat, ctx: ST.Context, creation: bool,
                          data: seq<nat>)
    requires Sound(m) && AllGaplessAt(m) && CoveredAt(m) && ProperAt(m) && m.snap.views(a).pending != map[]
    ensures m.state.nonce(a) in m.snap.views(a).pending
    ensures var tx := m.snap.views(a).pending[m.state.nonce(a)];
            tx.sender == a && tx.nonce == m.state.nonce(a) && tx.gas <= m.state.maxGas &&
            (tx.price >= 0 && Agrees(m.state, w, ctx, tx, creation, data) ==>
               (ST.Admissible(MessageOf(tx, creation, data), w, pool, ctx) <==> pool >= tx.gas))
  {
    hide Sound, ST.IntrinsicCost, AllGaplessAt, Limits.Over, OverLimits;
    assert Gapless(m.snap.views(a), m.state.For(a)) by { AccountAt(m, a); }
    var c := m.snap.views(a);
    var n :| n in c.pending;
    assert m.state.nonce(a) in c.pending;
    PendingIsPooled(m, a, m.state.nonce(a));
    GaplessIsFunded(c, m.state.For(a), m.state.nonce(a));
  }

  lemma AccountAt(m: Moment, a: Address)
    requires AllGaplessAt(m)
    ensures Gapless(m.snap.views(a), m.state.For(a))
  {}

  lemma PendingIsPooled(m: Moment, a: Address, n: nat)
    requires Sound(m) && n in m.snap.views(a).pending
    ensures m.snap.views(a).pending[n] in m.snap.all
    ensures m.snap.views(a).pending[n].sender == a && m.snap.views(a).pending[n].nonce == n
  {
    PS.ConsistentAt(m.pending, m.queue, m.snap.all, a);
    assert PS.Has(PS.ItemsOf(m.pending, a), m.snap.views(a).pending[n]);
  }
}
