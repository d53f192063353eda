/** What adding a transaction does to the pool as a whole: who is refused, when the pool
    panics, what is discarded for the newcomer and where everybody ends up. */
module Admission {
  import opened Types
  import opened NonceMap
  import opened TxLists
  import opened PricedList
  import opened Account

  /** Pool limits, as sanitized when the pool is created. */
  datatype Config = Config(priceBump: nat, accountSlots: nat, globalSlots: nat, accountQueue: nat, globalQueue: nat) {
    predicate Sane() {
      priceBump >= 1 && accountSlots >= 1 && globalSlots >= 1 && accountQueue >= 1 && globalQueue >= 1
    }
  }

  /** The chain state the pool validates against: account nonces and balances, the block gas
      limit, and the intrinsic gas rules in force (`None` where the sum overflows). */
  datatype ChainState = ChainState(nonce: Address -> nat, balance: Address -> int, maxGas: nat,
                                   intrinsic: Tx -> Option<nat>) {
    function For(a: Address): Limits {
      Limits(nonce(a), balance(a), maxGas)
    }
  }

  datatype Error =
    | AlreadyKnown | OversizedData | NegativeValue | GasLimit | Underpriced | NonceTooLow
    | InsufficientFunds | GasUintOverflow | IntrinsicGas | ReplaceUnderpriced

  /** How adding a transaction ends; a panic is the negative allocation inside `Discard`. */
  datatype AddResult = Pooled(replaced: bool) | Rejected(err: Error) | Panicked

  /** What a pool checks a transaction against. */
  datatype Rules = Rules(cfg: Config, state: ChainState, gasPrice: int)

  function Validation(rules: Rules, locals: set<Address>, tx: Tx, local: bool): Option<Error> {
    if tx.size > TX_MAX_SIZE then Some(OversizedData)
    else if tx.value < 0 then Some(NegativeValue)
    else if rules.state.maxGas < tx.gas then Some(GasLimit)
    else if !(local || tx.sender in locals) && tx.price < rules.gasPrice then Some(Underpriced)
    else if rules.state.nonce(tx.sender) > tx.nonce then Some(NonceTooLow)
    else if rules.state.balance(tx.sender) < tx.Cost() then Some(InsufficientFunds)
    else if rules.state.intrinsic(tx) == None then Some(GasUintOverflow)
    else if tx.gas < rules.state.intrinsic(tx).value then Some(IntrinsicGas)
    else None
  }

  /** A pool at one moment: the lookup with its slot counter, the price heap, the local
      accounts and every account's lists. */
  datatype Snap = Snap(all: set<Tx>, slots: int, heap: seq<Tx>, locals: set<Address>, views: Address -> Acct)

  /** How one transaction fared, and what was discarded for it. */
  datatype Insertion = Insertion(result: AddResult, drop: seq<Tx>)

  /** Where a new transaction ends up: in place of the pending one with its nonce, if there
      is one, and in the queue otherwise. */
  function AfterInsert(c: Acct, tx: Tx): Acct {
    if tx.nonce !in c.pending then Enqueue(c, tx)
    else c.(pending := c.pending[tx.nonce := tx], pulse := c.pulse.Renewed())
  }

  // ----- A full pool -----

  function Capacity(rules: Rules): nat {
    rules.cfg.globalSlots + rules.cfg.globalQueue
  }

  ghost predicate Full(rules: Rules, s: Snap) {
    |s.all| >= Capacity(rules)
  }

  /** A remote transaction that nothing pooled is cheaper than. */
  ghost predicate Cheapest(rules: Rules, s: Snap, tx: Tx, local: bool) {
    Full(rules, s) && !local && tx.sender !in s.locals && forall t :: t in s.all ==> t.price >= tx.price
  }

  /** The heap that is searched for cheap transactions: comparing prices pops stale entries. */
  ghost function HeapFor(s: Snap, tx: Tx, local: bool): seq<Tx> {
    if local || tx.sender in s.locals then s.heap else StaleFree(s.heap, s.all)
  }

  /** The slots that are missing for the newcomer. */
  function Request(rules: Rules, s: Snap, tx: Tx): int {
    s.slots - Capacity(rules) + NumSlots(tx)
  }

  /** The pool is full by its count of transactions while room is asked for in slots; without
      local accounts that can be more than the heap has entries. */
  ghost predicate Panics(rules: Rules, s: Snap, tx: Tx, local: bool) {
    Full(rules, s) && s.locals == {} && Request(rules, s, tx) > |HeapFor(s, tx, local)|
  }

  /** A lowest-ranked list of remote transactions that frees what is asked for or is all there
      is, and of which nothing goes in vain. */
  ghost predicate MakesRoom(all: set<Tx>, locals: set<Address>, goal: int, drop: seq<Tx>) {
    && (forall d :: d in drop ==> d in all && d.sender !in locals)
    && (forall d, t :: d in drop && t in all && t !in drop && t.sender !in locals ==> NoBetter(d, t))
    && (ListSlots(drop) >= goal || forall t :: t in all && t.sender !in locals ==> t in drop)
    && (drop != [] ==> ListSlots(drop[..|drop| - 1]) < goal)
  }

  /** In prices and nonces: nothing that stays is cheaper than what goes, and at the same price
      what goes has the higher nonce. */
  lemma CheapestGo(all: set<Tx>, locals: set<Address>, goal: int, drop: seq<Tx>, d: Tx, t: Tx)
    requires MakesRoom(all, locals, goal, drop) && d in drop && t in all && t !in drop && t.sender !in locals
    ensures d.price <= t.price && (d.price == t.price ==> d.nonce >= t.nonce)
  {
    GoesFirst(d, t);
  }

  // ----- One transaction -----

  /** Those that hold the newcomer's place after the discard; there is at most one. */
  ghost function Rivals(all: set<Tx>, tx: Tx): set<Tx> {
    set t | t in all && t.sender == tx.sender && t.nonce == tx.nonce
  }

  ghost predicate Outbid(all: set<Tx>, tx: Tx, bump: nat) {
    forall t :: t in Rivals(all, tx) ==> Outbids(tx, t, bump)
  }

  /** What becomes of a transaction: pooled exactly if it is unknown, valid, not the cheapest in
      a full pool, the pool does not panic, and it outbids what holds its place. */
  ghost function Verdict(rules: Rules, s: Snap, tx: Tx, local: bool, drop: seq<Tx>): AddResult {
    if tx in s.all then Rejected(AlreadyKnown)
    else if Validation(rules, s.locals, tx, local).Some? then Rejected(Validation(rules, s.locals, tx, local).value)
    else if Cheapest(rules, s, tx, local) then Rejected(Underpriced)
    else if Panics(rules, s, tx, local) then Panicked
    else if !Outbid(s.all - Elements(drop), tx, rules.cfg.priceBump) then Rejected(ReplaceUnderpriced)
    else Pooled(Rivals(s.all - Elements(drop), tx) != {})
  }

  ghost predicate Discards(rules: Rules, s: Snap, tx: Tx, local: bool, drop: seq<Tx>) {
    if && tx !in s.all && Validation(rules, s.locals, tx, local) == None && Full(rules, s)
       && !Cheapest(rules, s, tx, local) && !Panics(rules, s, tx, local)
    then MakesRoom(s.all, s.locals, DiscardGoal(HeapFor(s, tx, local), Request(rules, s, tx), s.locals), drop)
    else drop == []
  }

  ghost function AllAfter(all: set<Tx>, tx: Tx, i: Insertion): set<Tx> {
    if i.result.Pooled? then all - Elements(i.drop) - Rivals(all - Elements(i.drop), tx) + {tx}
    else all - Elements(i.drop)
  }

  ghost function ViewAfter(c: Acct, a: Address, tx: Tx, i: Insertion): Acct {
    if i.result.Pooled? && a == tx.sender then AfterInsert(Without(c, i.drop, a), tx) else Without(c, i.drop, a)
  }

  /** The whole effect of adding one transaction. */
  ghost predicate AddStep(rules: Rules, s: Snap, tx: Tx, local: bool, i: Insertion, s': Snap) {
    && i.result == Verdict(rules, s, tx, local, i.drop) && Discards(rules, s, tx, local, i.drop)
    && s'.all == AllAfter(s.all, tx, i) && (forall a :: s'.views(a) == ViewAfter(s.views(a), a, tx, i))
    && s'.locals == (if local && i.result.Pooled? && tx.nonce !in s'.views(tx.sender).pending
                     then s.locals + {tx.sender}
                     else s.locals)
    && (i.result == Pooled(false) && !Full(rules, s) ==> multiset(s'.heap) == multiset(s.heap) + multiset{tx})
  }

  lemma ValidMeans(rules: Rules, locals: set<Address>, tx: Tx, local: bool)
    requires Validation(rules, locals, tx, local) == None
    ensures rules.state.nonce(tx.sender) <= tx.nonce && !rules.state.For(tx.sender).Over()(tx)
    ensures Fit(tx) && (local || tx.sender in locals || tx.price >= rules.gasPrice)
  {}

  /** Nothing happened but that stale entries may have left the heap. */
  lemma StepRefused(rules: Rules, s: Snap, tx: Tx, local: bool, r: AddResult, s': Snap)
    requires s'.all == s.all && s'.locals == s.locals && forall a :: s'.views(a) == s.views(a)
    requires (tx in s.all && r == Rejected(AlreadyKnown))
             || (tx !in s.all && Validation(rules, s.locals, tx, local).Some?
                 && r == Rejected(Validation(rules, s.locals, tx, local).value))
             || (tx !in s.all && Validation(rules, s.locals, tx, local) == None
                 && ((Cheapest(rules, s, tx, local) && r == Rejected(Underpriced))
                     || (!Cheapest(rules, s, tx, local) && Panics(rules, s, tx, local) && r == Panicked)))
    ensures AddStep(rules, s, tx, local, Insertion(r, []), s')
  {
    hide Validation, Cheapest, Panics, MakesRoom, Outbid, Rivals;
    assert s.all - Elements([]) == s.all;
  }

  lemma StepKept(s: Snap, s': Snap, drop: seq<Tx>)
    requires drop == [] && s'.all == s.all - Elements(drop) && forall a :: s'.views(a) == Without(s.views(a), drop, a)
    ensures s'.all == s.all && forall a :: s'.views(a) == s.views(a)
  {}

  /** First the discard, then the insertion. */
  lemma StepTaken(rules: Rules, s: Snap, s1: Snap, tx: Tx, local: bool, i: Insertion, s': Snap)
    requires tx !in s.all && Validation(rules, s.locals, tx, local) == None && !Cheapest(rules, s, tx, local)
    requires !Panics(rules, s, tx, local)
    requires if Full(rules, s)
             then MakesRoom(s.all, s.locals, DiscardGoal(HeapFor(s, tx, local), Request(rules, s, tx), s.locals),
                            i.drop)
             else i.drop == [] && s1.heap == s.heap
    requires s1.all == s.all - Elements(i.drop) && s1.locals == s.locals
    requires forall a :: s1.views(a) == Without(s.views(a), i.drop, a)
    requires i.result == if Outbid(s1.all, tx, rules.cfg.priceBump) then Pooled(Rivals(s1.all, tx) != {})
                         else Rejected(ReplaceUnderpriced)
    requires s'.all == if i.result.Pooled? then s1.all - Rivals(s1.all, tx) + {tx} else s1.all
    requires forall a :: s'.views(a) == if i.result.Pooled? && a == tx.sender then AfterInsert(s1.views(a), tx)
                                        else s1.views(a)
    requires s'.locals == if local && i.result.Pooled? && tx.nonce !in s'.views(tx.sender).pending
                          then s1.locals + {tx.sender}
                          else s1.locals
    requires i.result == Pooled(false) ==> multiset(s'.heap) == multiset(s1.heap) + multiset{tx}
    ensures AddStep(rules, s, tx, local, i, s')
  {
    hide Validation, Cheapest, Panics, MakesRoom, Outbid, Rivals, Full, Elements, AfterInsert, Without, Request;
    hide HeapFor, DiscardGoal;
  }

  /** Room is made before the newcomer is compared with what holds its place. So a refusal costs
      others theirs exactly when a full pool can and must discard remote transactions for a
      newcomer that in the end is not better than its rival. */
  lemma RefusedAtACost(rules: Rules, s: Snap, tx: Tx, local: bool, i: Insertion, s': Snap)
    requires AddStep(rules, s, tx, local, i, s')
    ensures !i.result.Pooled? && s'.all != s.all
            <==> && tx !in s.all && Validation(rules, s.locals, tx, local) == None && Full(rules, s)
                 && !Cheapest(rules, s, tx, local) && !Panics(rules, s, tx, local)
                 && DiscardGoal(HeapFor(s, tx, local), Request(rules, s, tx), s.locals) > 0
                 && (exists t :: t in s.all && t.sender !in s.locals)
                 && !Outbid(s.all - Elements(i.drop), tx, rules.cfg.priceBump)
  {
    hide Validation, ViewAfter, Outbid, Cheapest, Panics, Full, HeapFor, DiscardGoal, Request;
    if i.drop == [] {
      assert s.all - Elements([]) == s.all;
    } else {
      assert i.drop[0] in i.drop && i.drop[0] in s.all && i.drop[0] in Elements(i.drop);
    }
  }

  lemma NotAboutRivals(rules: Rules, locals: set<Address>, tx: Tx, local: bool)
    ensures Validation(rules, locals, tx, local) != Some(ReplaceUnderpriced)
  {}

  /** A newcomer takes a place that somebody held exactly by raising the price or, in a full
      pool, after the holder itself was discarded to make room. */
  lemma StepRaises(rules: Rules, s: Snap, tx: Tx, local: bool, i: Insertion, s': Snap, t: Tx)
    requires AddStep(rules, s, tx, local, i, s') && t in Rivals(s.all, tx)
    ensures i.result.Pooled? && t !in i.drop ==> Raises(t.price, tx.price, rules.cfg.priceBump) && t !in s'.all
    ensures i.result == Rejected(ReplaceUnderpriced) ==>
              exists r :: r in Rivals(s.all, tx) && r !in i.drop && !Raises(r.price, tx.price, rules.cfg.priceBump)
    ensures i.result == Pooled(false) ==> t in i.drop && Full(rules, s)
  {
    hide Validation, ViewAfter, Cheapest, Panics, Full, MakesRoom, Outbids, Raises;
    forall r: Tx ensures Outbids(tx, r, rules.cfg.priceBump) <==> Raises(r.price, tx.price, rules.cfg.priceBump) {
      OutbidsRaises(tx, r, rules.cfg.priceBump);
    }
    NotAboutRivals(rules, s.locals, tx, local);
    assert t in s.all - Elements(i.drop) <==> t !in i.drop;
    assert t in Rivals(s.all - Elements(i.drop), tx) <==> t !in i.drop;
    if i.result == Rejected(ReplaceUnderpriced) {
      var r :| r in Rivals(s.all - Elements(i.drop), tx) && !Outbids(tx, r, rules.cfg.priceBump);
      assert r in Rivals(s.all, tx) && r !in i.drop;
    }
  }

  // ----- A batch -----

  ghost predicate Step(rules: Rules, txs: seq<Tx>, local: bool, snaps: seq<Snap>, added: seq<Insertion>, i: nat)
    requires i < |added| <= |txs| && |snaps| == |added| + 1
  {
    AddStep(rules, snaps[i], txs[i], local, added[i], snaps[i + 1])
  }

  /** One insertion after the other; only the last can have panicked. */
  ghost predicate Partial(rules: Rules, txs: seq<Tx>, local: bool, snaps: seq<Snap>, added: seq<Insertion>) {
    && |snaps| == |added| + 1 && |added| <= |txs|
    && (forall i :: 0 <= i < |added| ==> Step(rules, txs, local, snaps, added, i))
    && (forall i :: 0 <= i < |added| - 1 ==> !added[i].result.Panicked?)
  }

  ghost predicate Crashes(added: seq<Insertion>) {
    |added| > 0 && added[|added| - 1].result.Panicked?
  }

  /** A whole batch, or what of it came before a panic. */
  ghost predicate Trace(rules: Rules, txs: seq<Tx>, local: bool, snaps: seq<Snap>, added: seq<Insertion>) {
    Partial(rules, txs, local, snaps, added) && (|added| == |txs| || Crashes(added))
  }

  lemma PartialMore(rules: Rules, txs: seq<Tx>, local: bool, snaps: seq<Snap>, added: seq<Insertion>, i: Insertion,
                    s': Snap)
    requires Partial(rules, txs, local, snaps, added) && !Crashes(added) && |added| < |txs|
    requires AddStep(rules, snaps[|added|], txs[|added|], local, i, s')
    ensures Partial(rules, txs, local, snaps + [s'], added + [i])
  {
    hide AddStep;
    var snaps', added' := snaps + [s'], added + [i];
    forall k | 0 <= k < |added'| ensures Step(rules, txs, local, snaps', added', k) {
      if k < |added| {
        assert Step(rules, txs, local, snaps, added, k);
      }
    }
  }

  /** The accounts to promote after a batch: those with a newcomer in a place nobody held. */
  ghost function Dirty(txs: seq<Tx>, added: seq<Insertion>): set<Address>
    requires |added| <= |txs|
  {
    set i | 0 <= i < |added| && added[i].result == Pooled(false) :: txs[i].sender
  }

  lemma NoneDirty(txs: seq<Tx>)
    ensures Dirty(txs, []) == {}
  {}

  lemma OneDirty(txs: seq<Tx>, added: seq<Insertion>, i: Insertion)
    requires |added| < |txs|
    ensures Dirty(txs, added + [i]) == if i.result == Pooled(false) then Dirty(txs, added) + {txs[|added|].sender}
                                       else Dirty(txs, added)
  {
    var more := added + [i];
    forall a: Address
      ensures a in Dirty(txs, more) <==>
                a in Dirty(txs, added) || (i.result == Pooled(false) && a == txs[|added|].sender)
    {
      if a in Dirty(txs, added) {
        var k :| 0 <= k < |added| && added[k].result == Pooled(false) && txs[k].sender == a;
        assert more[k] == added[k];
      }
      if i.result == Pooled(false) && a == txs[|added|].sender {
        assert more[|added|] == i;
      }
    }
  }

  lemma StepLocals(rules: Rules, s: Snap, tx: Tx, local: bool, i: Insertion, s': Snap)
    requires AddStep(rules, s, tx, local, i, s')
    ensures !local ==> s'.locals == s.locals
  {
    hide Verdict, Discards, AllAfter, ViewAfter;
  }

  /** An insertion takes pending transactions off the top only. */
  lemma StepFalls(rules: Rules, s: Snap, tx: Tx, local: bool, i: Insertion, s': Snap, a: Address)
    requires AddStep(rules, s, tx, local, i, s')
    ensures Fell(s.views(a), s'.views(a))
  {
    hide Verdict, Discards, AllAfter;
    assert s'.views(a) == ViewAfter(s.views(a), a, tx, i);
    WithoutFalls(s.views(a), i.drop, a);
    InsertFalls(Without(s.views(a), i.drop, a), tx);
    FellTwice(s.views(a), Without(s.views(a), i.drop, a), s'.views(a));
  }

  lemma InsertFalls(c: Acct, tx: Tx)
    ensures Fell(c, AfterInsert(c, tx)) && Fell(c, c)
  {}

  lemma {:induction false} TraceFalls(rules: Rules, txs: seq<Tx>, local: bool, snaps: seq<Snap>,
                                      added: seq<Insertion>, n: nat, a: Address)
    requires Partial(rules, txs, local, snaps, added) && n <= |added|
    ensures Fell(snaps[0].views(a), snaps[n].views(a))
  {
    hide AddStep, Fell;
    if n == 0 {
      InsertFalls(snaps[0].views(a), Tx(0, a, 0, 0, 0, 0, 1));
    } else {
      TraceFalls(rules, txs, local, snaps, added, n - 1, a);
      assert Step(rules, txs, local, snaps, added, n - 1);
      StepFalls(rules, snaps[n - 1], txs[n - 1], local, added[n - 1], snaps[n], a);
      FellTwice(snaps[0].views(a), snaps[n - 1].views(a), snaps[n].views(a));
    }
  }

  // ----- The price of a place -----

  /** Whoever holds the place of `t` is `t` or pays its price and the percentage, and somebody does. */
  ghost predicate Dearer(all: set<Tx>, t: Tx, bump: nat) {
    && Rivals(all, t) != {}
    && forall r :: r in Rivals(all, t) ==> r == t || Raises(t.price, r.price, bump)
  }

  /** As long as no holder is discarded, the price of a place only rises, and each time by the
      percentage. */
  lemma {:induction false} TraceRaises(rules: Rules, txs: seq<Tx>, local: bool, snaps: seq<Snap>,
                                       added: seq<Insertion>, n: nat, t: Tx)
    requires Partial(rules, txs, local, snaps, added) && n <= |added| && Rivals(snaps[0].all, t) == {t}
    requires forall i, d :: 0 <= i < n && d in added[i].drop ==> d.sender != t.sender || d.nonce != t.nonce
    ensures Dearer(snaps[n].all, t, rules.cfg.priceBump)
  {
    hide AddStep, Dearer;
    if n == 0 {
      OneHolder(snaps[0].all, t, rules.cfg.priceBump);
    } else {
      TraceRaises(rules, txs, local, snaps, added, n - 1, t);
      assert Step(rules, txs, local, snaps, added, n - 1);
      StepDearer(rules, snaps[n - 1], txs[n - 1], local, added[n - 1], snaps[n], t);
    }
  }

  lemma OneHolder(all: set<Tx>, t: Tx, bump: nat)
    requires Rivals(all, t) == {t}
    ensures Dearer(all, t, bump)
  {}

  lemma StepDearer(rules: Rules, s: Snap, tx: Tx, local: bool, i: Insertion, s': Snap, t: Tx)
    requires AddStep(rules, s, tx, local, i, s') && Dearer(s.all, t, rules.cfg.priceBump)
    requires forall d :: d in i.drop ==> d.sender != t.sender || d.nonce != t.nonce
    ensures Dearer(s'.all, t, rules.cfg.priceBump)
  {
    hide Verdict, Discards, ViewAfter, AddStep;
    assert s'.all == AllAfter(s.all, tx, i) by { StepAll(rules, s, tx, local, i, s'); }
    var r :| r in Rivals(s.all, t);
    if i.result.Pooled? && tx.sender == t.sender && tx.nonce == t.nonce {
      assert r in Rivals(s.all, tx);
      StepRaises(rules, s, tx, local, i, s', r);
      assert tx in Rivals(s'.all, t);
    } else {
      assert r in Rivals(s'.all, t);
    }
  }

  lemma StepAll(rules: Rules, s: Snap, tx: Tx, local: bool, i: Insertion, s': Snap)
    requires AddStep(rules, s, tx, local, i, s')
    ensures s'.all == AllAfter(s.all, tx, i)
  {}

  // ----- Intrinsic gas -----

  /** The transaction pays for its data under the rules. */
  predicate Covers(intrinsic: Tx -> Option<nat>, tx: Tx) {
    intrinsic(tx).Some? && tx.gas >= intrinsic(tx).value
  }

  ghost predicate Covered(intrinsic: Tx -> Option<nat>, all: set<Tx>) {
    forall tx :: tx in all ==> Covers(intrinsic, tx)
  }

  /** What no rules ever admit otherwise: a value that is not negative, in a transaction of bounded
      size. */
  predicate Fit(tx: Tx) {
    tx.value >= 0 && tx.size <= TX_MAX_SIZE
  }

  /** Everything pooled is fit, and pays the floor unless its account is local. */
  ghost predicate Proper(all: set<Tx>, locals: set<Address>, floor: int) {
    forall tx :: tx in all ==> Fit(tx) && (tx.sender in locals || tx.price >= floor)
  }

  /** What a batch lets in was in it, and pays for its data under the rules of the batch. */
  lemma {:induction false} TraceCovers(rules: Rules, txs: seq<Tx>, local: bool, snaps: seq<Snap>,
                                       added: seq<Insertion>, n: nat, tx: Tx)
    requires Partial(rules, txs, local, snaps, added) && n <= |added| && tx in snaps[n].all
    ensures tx in snaps[0].all || (tx in txs && Covers(rules.state.intrinsic, tx))
  {
    hide Discards, ViewAfter, Panics, Cheapest, Outbid, Elements;
    if n > 0 {
      assert Step(rules, txs, local, snaps, added, n - 1);
      if tx in snaps[n - 1].all {
        TraceCovers(rules, txs, local, snaps, added, n - 1, tx);
      } else {
        assert tx == txs[n - 1];
      }
    }
  }

  lemma StepCovers(rules: Rules, s: Snap, tx: Tx, local: bool, i: Insertion, s': Snap)
    requires AddStep(rules, s, tx, local, i, s')
    ensures Covered(rules.state.intrinsic, s.all) ==> Covered(rules.state.intrinsic, s'.all)
  {
    hide Discards, ViewAfter, Panics, Cheapest, Outbid, Elements;
  }

  /** The new rules ask for no more than the old ones. */
  ghost predicate Looser(old_: Tx -> Option<nat>, new_: Tx -> Option<nat>) {
    forall tx :: Covers(old_, tx) ==> Covers(new_, tx)
  }

  // ----- A batch that there is room for -----

  /** What is pooled after a batch of remote transactions, when nothing has to be discarded. */
  ghost function Joined(rules: Rules, locals: set<Address>, all: set<Tx>, txs: seq<Tx>): set<Tx> {
    if txs == [] then all
    else
      var before, tx := Joined(rules, locals, all, txs[..|txs| - 1]), txs[|txs| - 1];
      if tx in before || Validation(rules, locals, tx, false).Some? || !Outbid(before, tx, rules.cfg.priceBump)
      then before
      else before - Rivals(before, tx) + {tx}
  }

  lemma {:induction false} JoinedSize(rules: Rules, locals: set<Address>, all: set<Tx>, txs: seq<Tx>)
    ensures |Joined(rules, locals, all, txs)| <= |all| + |txs|
  {
    hide Validation, Outbid;
    if txs != [] {
      JoinedSize(rules, locals, all, txs[..|txs| - 1]);
      var before, tx := Joined(rules, locals, all, txs[..|txs| - 1]), txs[|txs| - 1];
      SubsetSize(before - Rivals(before, tx) + {tx}, before + {tx});
    }
  }

  lemma {:induction false} TraceJoins(rules: Rules, txs: seq<Tx>, snaps: seq<Snap>, added: seq<Insertion>, n: nat)
    requires Partial(rules, txs, false, snaps, added) && n <= |added| && |snaps[0].all| + |txs| <= Capacity(rules)
    ensures snaps[n].all == Joined(rules, snaps[0].locals, snaps[0].all, txs[..n]) && snaps[n].locals == snaps[0].locals
    ensures n > 0 ==> !added[n - 1].result.Panicked?
  {
    hide AddStep, Joined, Capacity;
    if n == 0 {
      JoinsNone(rules, snaps[0].locals, snaps[0].all, txs[..n]);
    } else {
      TraceJoins(rules, txs, snaps, added, n - 1);
      JoinedSize(rules, snaps[0].locals, snaps[0].all, txs[..n - 1]);
      assert Step(rules, txs, false, snaps, added, n - 1);
      assert txs[..n][..n - 1] == txs[..n - 1];
      StepJoins(rules, snaps[n - 1], txs[..n], added[n - 1], snaps[n], snaps[0].all);
    }
  }

  lemma JoinsNone(rules: Rules, locals: set<Address>, all: set<Tx>, txs: seq<Tx>)
    requires txs == []
    ensures Joined(rules, locals, all, txs) == all
  {}

  lemma StepJoins(rules: Rules, s: Snap, txs: seq<Tx>, i: Insertion, s': Snap, all: set<Tx>)
    requires txs != [] && AddStep(rules, s, txs[|txs| - 1], false, i, s') && |s.all| < Capacity(rules)
    requires s.all == Joined(rules, s.locals, all, txs[..|txs| - 1])
    ensures s'.all == Joined(rules, s.locals, all, txs) && s'.locals == s.locals && !i.result.Panicked?
  {
    hide Validation, ViewAfter, Outbid, MakesRoom, Capacity;
    assert s.all - Elements([]) == s.all;
  }

  /** A valid newcomer to a place nobody holds, in a pool with room. */
  lemma RoomForOne(rules: Rules, s: Snap, tx: Tx, i: Insertion, s': Snap)
    requires AddStep(rules, s, tx, false, i, s') && !Full(rules, s) && tx !in s.all && Rivals(s.all, tx) == {}
    requires Validation(rules, s.locals, tx, false) == None
    ensures i == Insertion(Pooled(false), []) && s'.all == s.all + {tx} && |s'.heap| == |s.heap| + 1
    ensures s'.locals == s.locals
    ensures forall a :: s'.views(a) == if a == tx.sender then AfterInsert(s.views(a), tx) else s.views(a)
  {
    hide Validation, AfterInsert;
    assert s.all - Elements([]) == s.all;
    assert |multiset(s'.heap)| == |multiset(s.heap)| + 1;
  }

  /** More slots asked for than there are entries. */
  lemma NoRoom(rules: Rules, s: Snap, tx: Tx, i: Insertion, s': Snap)
    requires AddStep(rules, s, tx, false, i, s') && tx !in s.all && Validation(rules, s.locals, tx, false) == None
    requires Full(rules, s) && s.locals == {} && Request(rules, s, tx) > |s.heap|
    requires exists t :: t in s.all && t.price < tx.price
    ensures i == Insertion(Panicked, [])
  {
    hide Validation, ViewAfter, Outbid, MakesRoom;
    StaleFreeShrinks(s.heap, s.all);
  }
}
