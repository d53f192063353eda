/** What a pool may lose, and what it may not: a run gives up exactly what it has a reason to, and
    local transactions only leave when the chain or their owner is done with them. */
module Losses {
  import opened Types
  import opened NonceMap
  import opened TxLists
  import opened PricedList
  import opened Account
  import opened PoolState
  import opened Fairness
  import opened Admission
  import opened Conservation
  import opened History

  // ----- Runs -----

  lemma RunTrims(cfg: Config, reset: Option<HeadReset>, dirty: set<Address>, m: Moment, log: RunLog, m': Moment,
                 a: Address)
    requires RunStep(cfg, reset, dirty, m, log, m') && !Crashes(log.added)
    ensures Trimmed(Processed(log.Back().views(a), m'.state.For(a), QueueCap(cfg, m'.snap.locals, a),
                              reset.Some? || a in dirty, reset.Some?), m'.snap.views(a))
    ensures m'.state == HeadAfter(reset, m.state, false) && (!HasHead(reset) ==> log.Back() == m.snap)
    ensures HasHead(reset) ==> log.snaps[0].views(a) == m.snap.views(a).(next := m'.state.nonce(a))
    ensures log.Back().views(a).pending.Keys !! log.Back().views(a).queue.Keys
  {
    hide Trimmed, Processed, Enforced, Trace, Listed;
    assert Trimmed(Prepared(cfg, m'.state, log.Back(), reset.Some?, dirty, a), m'.snap.views(a));
  }

  /** Exactly what a run takes from an account. */
  lemma RunLoses(cfg: Config, reset: Option<HeadReset>, dirty: set<Address>, m: Moment, log: RunLog, m': Moment,
                 a: Address, tx: Tx)
    requires RunStep(cfg, reset, dirty, m, log, m') && !Crashes(log.added)
    ensures var c, lim, cap := log.Back().views(a), m'.state.For(a), QueueCap(cfg, m'.snap.locals, a);
            Listed(m'.snap.views(a), tx) <==>
              && Listed(c, tx) && !Lost(c, lim, cap, reset.Some? || a in dirty, reset.Some?, tx)
              && !CutOff(Processed(c, lim, cap, reset.Some? || a in dirty, reset.Some?), m'.snap.views(a), tx)
  {
    hide AllTrimmed, Enforced, Trimmed, Processed, Lost, CutOff, Coherent;
    RunTrims(cfg, reset, dirty, m, log, m', a);
    RunKeepsIff(log.Back().views(a), m'.snap.views(a), m'.state.For(a), QueueCap(cfg, m'.snap.locals, a),
                reset.Some? || a in dirty, reset.Some?, tx);
  }

  /** No limit of the pool cuts a local account. */
  lemma LocalUncut(cfg: Config, reset: Option<HeadReset>, dirty: set<Address>, m: Moment, log: RunLog, m': Moment,
                   a: Address, tx: Tx)
    requires RunStep(cfg, reset, dirty, m, log, m') && !Crashes(log.added) && Sound(m') && a in m'.snap.locals
    ensures !CutOff(Processed(log.Back().views(a), m'.state.For(a), None, reset.Some? || a in dirty, reset.Some?),
                    m'.snap.views(a), tx)
  {
    hide Trimmed, Processed, SumLens, Tight, NewestFirst, Coherent, Tracks, Consistent;
    var p := Prepared(cfg, m'.state, log.Back(), reset.Some?, dirty, a);
    assert p == Processed(log.Back().views(a), m'.state.For(a), None, reset.Some? || a in dirty, reset.Some?);
    assert LenOf(m'.pending, a) == LenOf(log.pending, a) && ItemsOf(m'.queue, a) == ItemsOf(log.queue, a);
    assert m'.snap.views(a).pending == ItemsOf(m'.pending, a) && m'.snap.views(a).queue == ItemsOf(m'.queue, a);
    assert ItemsOf(log.pending, a) == p.pending && ItemsOf(log.queue, a) == p.queue;
    if tx.nonce in p.pending { LowestIff(p.pending, |p.pending|, tx.nonce); }
    if tx.nonce in p.queue { LowestIff(p.queue, |p.queue|, tx.nonce); }
  }

  // ----- Local transactions -----

  ghost predicate Outpays(r: Tx, tx: Tx, bump: nat) {
    r.sender == tx.sender && r.nonce == tx.nonce && Raises(tx.price, r.price, bump)
  }

  ghost predicate Outpaid(txs: seq<Tx>, tx: Tx, bump: nat) {
    exists r :: r in txs && Outpays(r, tx, bump)
  }

  /** The transactions that an event brings to the pool. */
  ghost function Offered(e: Event): seq<Tx> {
    match e
    case AddEvent(tx, _) => [tx]
    case ReorgEvent(Some(head), _) => head.reinject
    case _ => []
  }

  lemma StepKeepsLocal(rules: Rules, s: Snap, r: Tx, local: bool, i: Insertion, s': Snap, tx: Tx)
    requires AddStep(rules, s, r, local, i, s') && tx in s.all && tx.sender in s.locals
    ensures tx.sender in s'.locals && (tx in s'.all || Outpays(r, tx, rules.cfg.priceBump))
  {
    hide Validation, Cheapest, Panics, HeapFor, DiscardGoal, Raises, ViewAfter;
    assert tx !in i.drop;
    if tx in Rivals(s.all, r) {
      StepRaises(rules, s, r, local, i, s', tx);
    }
  }

  lemma {:induction false} TraceKeepsLocal(rules: Rules, txs: seq<Tx>, snaps: seq<Snap>, added: seq<Insertion>, n: nat,
                                           tx: Tx)
    requires Partial(rules, txs, false, snaps, added) && n <= |added| && tx in snaps[0].all
    requires tx.sender in snaps[0].locals
    ensures tx.sender in snaps[n].locals && (tx in snaps[n].all || Outpaid(txs, tx, rules.cfg.priceBump))
  {
    hide AddStep, Outpays;
    if n > 0 {
      TraceKeepsLocal(rules, txs, snaps, added, n - 1, tx);
      assert Step(rules, txs, false, snaps, added, n - 1);
      StepLocals(rules, snaps[n - 1], txs[n - 1], false, added[n - 1], snaps[n]);
      if tx in snaps[n - 1].all {
        StepKeepsLocal(rules, snaps[n - 1], txs[n - 1], false, added[n - 1], snaps[n], tx);
      }
    }
  }

  lemma RunKeepsLocal(cfg: Config, reset: Option<HeadReset>, dirty: set<Address>, m: Moment, log: RunLog, m': Moment,
                      tx: Tx)
    requires RunStep(cfg, reset, dirty, m, log, m') && Sound(m') && tx in m.snap.all && tx.sender in m.snap.locals
    ensures || tx in m'.snap.all || Outpaid(Offered(ReorgEvent(reset, dirty)), tx, cfg.priceBump)
            || Unusable(m'.state.For(tx.sender), tx)
  {
    hide AllTrimmed, Enforced, Trimmed, Processed, CutOff, Unusable, Outpaid, AddStep, Partial, Sound;
    if HasHead(reset) {
      TraceKeepsLocal(ResetRules(reset.value.loaded.value, Rules(cfg, m.state, m.gasPrice)), reset.value.reinject,
                      log.snaps, log.added, |log.added|, tx);
    }
    if tx in log.Back().all && !Crashes(log.added) {
      RunLoses(cfg, reset, dirty, m, log, m', tx.sender, tx);
      LocalUncut(cfg, reset, dirty, m, log, m', tx.sender, tx);
      SoundListed(m', tx);
    }
  }

  lemma SoundListed(m: Moment, tx: Tx)
    requires Sound(m)
    ensures tx in m.snap.all <==> Listed(m.snap.views(tx.sender), tx)
  {
    hide Tracks, SumSlots;
    ConsistentAt(m.pending, m.queue, m.snap.all, tx.sender);
  }

  /** Whatever happens, a local transaction stays pooled unless one with its nonce that pays more
      by the percentage is offered, or a run finds that the chain is past it or cannot pay it. */
  lemma LocalStays(cfg: Config, e: Event, m: Moment, f: Effect, m': Moment, tx: Tx)
    requires EventStep(cfg, e, m, f, m') && Sound(m) && Sound(m') && tx in m.snap.all && tx.sender in m.snap.locals
    ensures tx.sender in m'.snap.locals
    ensures || tx in m'.snap.all || Outpaid(Offered(e), tx, cfg.priceBump)
            || (e.ReorgEvent? && Unusable(m'.state.For(tx.sender), tx))
  {
    hide AddStep, RunStep, Sound, Unusable, Outpays, Raises;
    match e
    case AddEvent(r, local) =>
      StepKeepsLocal(Rules(cfg, m.state, m.gasPrice), m.snap, r, local, f.i, m'.snap, tx);
      assert r in Offered(e);
    case PriceEvent(_) =>
    case EvictEvent(_) =>
      SoundListed(m, tx);
      SoundListed(m', tx);
    case ClockEvent(_) =>
    case ReorgEvent(reset, dirty) =>
      RunKeepsLocal(cfg, reset, dirty, m, f.log, m', tx);
      SameLocals(cfg, reset, dirty, m, f.log, m');
  }

  lemma SameLocals(cfg: Config, reset: Option<HeadReset>, dirty: set<Address>, m: Moment, log: RunLog, m': Moment)
    requires RunStep(cfg, reset, dirty, m, log, m')
    ensures m'.snap.locals == m.snap.locals
  {}

  /** Over any events: from when its account is local, a transaction is pooled as long as it is
      usable and nobody outpays it. */
  lemma {:induction false} LocalsLast(cfg: Config, events: seq<Event>, ms: seq<Moment>, fs: seq<Effect>, j: nat, k: nat,
                                      tx: Tx)
    requires Unfolds(cfg, events, ms, fs) && j <= k < |ms| && (forall i :: 0 <= i < |ms| ==> Sound(ms[i]))
    requires tx in ms[j].snap.all && tx.sender in ms[j].snap.locals
    requires forall i :: j <= i < k ==> !Outpaid(Offered(events[i]), tx, cfg.priceBump)
    requires forall i :: j < i <= k ==> !Unusable(ms[i].state.For(tx.sender), tx)
    ensures tx in ms[k].snap.all && tx.sender in ms[k].snap.locals
    decreases k
  {
    hide EventStep, Sound, Unusable, Outpaid;
    if j < k {
      LocalsLast(cfg, events, ms, fs, j, k - 1, tx);
      assert StepAt(cfg, events, ms, fs, k - 1);
      LocalStays(cfg, events[k - 1], ms[k - 1], fs[k - 1], ms[k], tx);
    }
  }
}
