/** Heartbeats over time: when an account's is recorded, renewed and forgotten, and what that
    means for its queue at an eviction tick. */
module Heartbeat {
  import opened Types
  import opened NonceMap
  import opened TxLists
  import opened Account
  import opened PoolState
  import opened Admission
  import opened History

  // ----- One account -----

  /** An account with a queue has a heartbeat. */
  ghost predicate Pulsing(c: Acct) {
    c.queue != map[] ==> c.pulse.beat.Some?
  }

  /** At one reading of the clock: the heartbeat is kept, renewed or forgotten, the last only
      without a queue. */
  ghost predicate Paced(c: Acct, c': Acct) {
    && c'.pulse.now == c.pulse.now && Pulsing(c')
    && (c'.pulse.beat == c.pulse.beat || c'.pulse.beat == Some(c.pulse.now) || c'.pulse.beat == None)
  }

  lemma PacedTwice(c: Acct, c1: Acct, c2: Acct)
    requires Paced(c, c1) && Paced(c1, c2)
    ensures Paced(c, c2)
  {}

  lemma PromotePaced(c: Acct, lim: Limits, cap: Option<nat>)
    requires Pulsing(c)
    ensures Paced(c, Promote(c, lim, cap))
    ensures Promote(c, lim, cap).pending != c.pending ==>
              Promote(c, lim, cap).pulse.beat == if Promote(c, lim, cap).queue == map[] then None else Some(c.pulse.now)
  {
    hide Ready, ReadyRun, AfterReady, Lowest;
    if c.queue == map[] {
      NothingToPromote(c, lim, cap);
    }
    assert c.pending + map[] == c.pending;
  }

  lemma DemotePaced(c: Acct, lim: Limits)
    requires Pulsing(c)
    ensures Paced(c, Demote(c, lim))
    ensures c.pulse.beat == Some(c.pulse.now) ==> Demote(c, lim).pulse.beat == c.pulse.beat
    ensures Demote(c, lim).queue != map[] && c.queue == map[] ==> Demote(c, lim).pulse == c.pulse.Heard()
  {
    hide Payable, Postponed;
    assert c.queue + map[] == c.queue;
  }

  lemma RemovePaced(c: Acct, n: nat)
    requires Pulsing(c)
    ensures Paced(c, Remove(c, n))
  {
    assert c.queue + map[] == c.queue;
    assert c.queue == map[] ==> Drop(c.queue, n) == map[];
  }

  lemma {:induction false} WithoutPaced(c: Acct, drop: seq<Tx>, a: Address)
    requires Pulsing(c)
    ensures Paced(c, Without(c, drop, a))
  {
    hide Paced, Remove;
    if drop == [] {
      PacedSame(c);
    } else {
      var c' := Without(c, drop[..|drop| - 1], a);
      WithoutPaced(c, drop[..|drop| - 1], a);
      PacedPulses(c, c');
      RemovePaced(c', drop[|drop| - 1].nonce);
      PacedSame(c');
      PacedTwice(c, c', Without(c, drop, a));
    }
  }

  lemma PacedSame(c: Acct)
    requires Pulsing(c)
    ensures Paced(c, c)
  {}

  lemma PacedPulses(c: Acct, c': Acct)
    requires Paced(c, c')
    ensures Pulsing(c')
  {}

  lemma InsertPaced(c: Acct, tx: Tx)
    requires Pulsing(c)
    ensures Paced(c, AfterInsert(c, tx))
    ensures tx.nonce in c.pending ==> AfterInsert(c, tx).pulse.beat == Some(c.pulse.now)
    ensures c.pulse.beat == None ==> AfterInsert(c, tx).pulse.beat == Some(c.pulse.now)
    ensures tx.nonce !in c.pending && c.pulse.beat.Some? ==> AfterInsert(c, tx).pulse == c.pulse
  {}

  lemma TrimPaced(c: Acct, c': Acct)
    requires Pulsing(c) && Trimmed(c, c')
    ensures Paced(c, c') && (c'.queue != map[] ==> c'.pulse == c.pulse)
  {
    hide Lowest;
    assert c.queue == map[] ==> c'.queue == map[];
  }

  lemma LeavePaced(c: Acct)
    requires Pulsing(c)
    ensures Paced(c, Leave(c, map[]))
  {}

  // ----- One event -----

  lemma StepPaced(rules: Rules, s: Snap, tx: Tx, local: bool, i: Insertion, s': Snap, a: Address)
    requires AddStep(rules, s, tx, local, i, s') && Pulsing(s.views(a))
    ensures Paced(s.views(a), s'.views(a))
    ensures i.result.Pooled? && a == tx.sender && tx.nonce in s'.views(a).pending ==>
              s'.views(a).pulse.beat == Some(s.views(a).pulse.now)
  {
    hide Verdict, Discards, AllAfter, Paced, Without;
    var c := Without(s.views(a), i.drop, a);
    WithoutPaced(s.views(a), i.drop, a);
    PacedPulses(s.views(a), c);
    SameClock(s.views(a), c);
    InsertPaced(c, tx);
    PacedTwice(s.views(a), c, AfterInsert(c, tx));
    assert s'.views(a) == ViewAfter(s.views(a), a, tx, i);
  }

  lemma SameClock(c: Acct, c': Acct)
    requires Paced(c, c')
    ensures c'.pulse.now == c.pulse.now
  {}

  lemma {:induction false} TracePaced(rules: Rules, txs: seq<Tx>, local: bool, snaps: seq<Snap>, added: seq<Insertion>,
                                      n: nat, a: Address)
    requires Partial(rules, txs, local, snaps, added) && n <= |added| && Pulsing(snaps[0].views(a))
    ensures Paced(snaps[0].views(a), snaps[n].views(a))
  {
    hide AddStep, Paced;
    if n == 0 {
      PacedSame(snaps[0].views(a));
    } else {
      TracePaced(rules, txs, local, snaps, added, n - 1, a);
      PacedPulses(snaps[0].views(a), snaps[n - 1].views(a));
      assert Step(rules, txs, local, snaps, added, n - 1);
      StepPaced(rules, snaps[n - 1], txs[n - 1], local, added[n - 1], snaps[n], a);
      PacedTwice(snaps[0].views(a), snaps[n - 1].views(a), snaps[n].views(a));
    }
  }

  lemma ProcessedPaced(c: Acct, lim: Limits, cap: Option<nat>, promoted: bool, demoted: bool, c': Acct)
    requires Pulsing(c) && Trimmed(Processed(c, lim, cap, promoted, demoted), c')
    ensures Paced(c, c')
    ensures promoted && Promote(c, lim, cap).pending != c.pending && c'.queue != map[] ==>
              c'.pulse.beat == Some(c.pulse.now)
  {
    hide Promote, Demote, Trimmed;
    var p := if promoted then Promote(c, lim, cap) else c;
    PromotePaced(c, lim, cap);
    PacedSame(c);
    DemotePaced(p, lim);
    PacedSame(p);
    var d := Processed(c, lim, cap, promoted, demoted);
    PacedTwice(c, p, d);
    TrimPaced(d, c');
    TrimmedWithin(d, c');
    PacedTwice(c, d, c');
  }

  lemma MovedPaced(c: Acct, nonce: nat)
    requires Pulsing(c)
    ensures Paced(c, c.(next := nonce))
  {}

  lemma RunPaced(cfg: Config, reset: Option<HeadReset>, dirty: set<Address>, m: Moment, log: RunLog, m': Moment,
                 a: Address)
    requires RunStep(cfg, reset, dirty, m, log, m') && Pulsing(m.snap.views(a))
    ensures Paced(m.snap.views(a), m'.snap.views(a))
    ensures Promotes(cfg, reset, dirty, log, m', a) && m'.snap.views(a).queue != map[] ==>
              m'.snap.views(a).pulse.beat == Some(m.snap.views(a).pulse.now)
  {
    hide Paced, Trace, Partial, Promote, Demote, Trimmed, Enforced, Processed;
    var c, b := m.snap.views(a), log.Back().views(a);
    ReturnPaced(cfg, reset, m, log, a);
    PacedPulses(c, b);
    SameClock(c, b);
    if !Crashes(log.added) {
      assert Trimmed(Prepared(cfg, m'.state, log.Back(), reset.Some?, dirty, a), m'.snap.views(a));
      ProcessedPaced(b, m'.state.For(a), QueueCap(cfg, log.Back().locals, a), reset.Some? || a in dirty, reset.Some?,
                     m'.snap.views(a));
      PacedTwice(c, b, m'.snap.views(a));
    }
  }

  lemma ReturnPaced(cfg: Config, reset: Option<HeadReset>, m: Moment, log: RunLog, a: Address)
    requires Returned(cfg, reset, m, log) && Pulsing(m.snap.views(a))
    ensures Paced(m.snap.views(a), log.Back().views(a))
  {
    hide Paced, Step, Crashes;
    var c := m.snap.views(a);
    if HasHead(reset) {
      var rules := ResetRules(reset.value.loaded.value, Rules(cfg, m.state, m.gasPrice));
      MovedPaced(c, reset.value.loaded.value.nonce(a));
      PacedPulses(c, log.snaps[0].views(a));
      TracePaced(rules, reset.value.reinject, false, log.snaps, log.added, |log.added|, a);
      PacedTwice(c, log.snaps[0].views(a), log.Back().views(a));
    } else {
      PacedSame(c);
    }
  }

  /** The run made transactions of the account pending. */
  ghost predicate Promotes(cfg: Config, reset: Option<HeadReset>, dirty: set<Address>, log: RunLog, m': Moment,
                           a: Address)
    requires |log.snaps| == |log.added| + 1
  {
    && !Crashes(log.added) && (reset.Some? || a in dirty)
    && Promote(log.Back().views(a), m'.state.For(a), QueueCap(cfg, log.Back().locals, a)).pending
       != log.Back().views(a).pending
  }

  /** The event made a transaction of the account pending, by promotion or in place of another. */
  ghost predicate MakesPending(cfg: Config, e: Event, m: Moment, f: Effect, m': Moment, a: Address)
    requires EventStep(cfg, e, m, f, m')
  {
    match e
    case AddEvent(tx, local) => f.i.result.Pooled? && a == tx.sender && tx.nonce in m'.snap.views(a).pending
    case ReorgEvent(reset, dirty) => Promotes(cfg, reset, dirty, f.log, m', a)
    case _ => false
  }

  /** No event but the clock moves time, and none loses a heartbeat that a queue needs. What
      makes something pending renews it, and so does the first thing queued without one. */
  lemma EventPaced(cfg: Config, e: Event, m: Moment, f: Effect, m': Moment, a: Address)
    requires EventStep(cfg, e, m, f, m') && Pulsing(m.snap.views(a)) && !e.ClockEvent?
    ensures Paced(m.snap.views(a), m'.snap.views(a)) && m'.clock == m.clock
    ensures m'.snap.views(a).queue != map[] ==>
              (MakesPending(cfg, e, m, f, m', a) || m.snap.views(a).pulse.beat == None) ==>
                m'.snap.views(a).pulse.beat == Some(m.snap.views(a).pulse.now)
  {
    hide AddStep, RunStep, Promotes;
    match e
    case AddEvent(tx, local) =>
      StepPaced(Rules(cfg, m.state, m.gasPrice), m.snap, tx, local, f.i, m'.snap, a);
    case PriceEvent(price) =>
      WithoutPaced(m.snap.views(a), f.drop, a);
    case EvictEvent(lifetime) =>
      LeavePaced(m.snap.views(a));
      PacedSame(m.snap.views(a));
    case ReorgEvent(reset, dirty) =>
      RunParts(cfg, reset, dirty, m, f.log, m');
      RunPaced(cfg, reset, dirty, m, f.log, m', a);
  }

  lemma RunParts(cfg: Config, reset: Option<HeadReset>, dirty: set<Address>, m: Moment, log: RunLog, m': Moment)
    requires RunStep(cfg, reset, dirty, m, log, m')
    ensures |log.snaps| == |log.added| + 1 && m'.clock == m.clock
  {}

  // ----- Whole histories -----

  ghost predicate ClockRises(ms: seq<Moment>) {
    forall i :: 0 <= i < |ms| - 1 ==> ms[i].clock <= ms[i + 1].clock
  }

  /** Every queue has a heartbeat, and none lies in the future. */
  ghost predicate Timely(m: Moment) {
    forall a :: TimelyFor(m, a)
  }

  ghost predicate TimelyFor(m: Moment, a: Address) {
    && Pulsing(m.snap.views(a)) && m.snap.views(a).pulse.now == m.clock
    && (m.snap.views(a).pulse.beat.Some? ==> m.snap.views(a).pulse.beat.value <= m.clock)
  }

  lemma EventTimely(cfg: Config, e: Event, m: Moment, f: Effect, m': Moment)
    requires EventStep(cfg, e, m, f, m') && Timely(m) && m.clock <= m'.clock
    ensures Timely(m')
  {
    hide EventStep, Paced;
    forall a ensures TimelyFor(m', a) {
      assert TimelyFor(m, a);
      if e.ClockEvent? {
        TimePasses(cfg, e, m, f, m', a);
      } else {
        EventPaced(cfg, e, m, f, m', a);
        PacedTimely(m, m', a);
      }
    }
  }

  lemma TimePasses(cfg: Config, e: Event, m: Moment, f: Effect, m': Moment, a: Address)
    requires EventStep(cfg, e, m, f, m') && e.ClockEvent?
    ensures m'.clock == e.now && m'.snap.views(a) == m.snap.views(a).(pulse := m.snap.views(a).pulse.(now := e.now))
  {}

  lemma PacedTimely(m: Moment, m': Moment, a: Address)
    requires TimelyFor(m, a) && Paced(m.snap.views(a), m'.snap.views(a)) && m'.clock == m.clock
    ensures TimelyFor(m', a)
  {}

  lemma {:induction false} AlwaysTimely(cfg: Config, events: seq<Event>, ms: seq<Moment>, fs: seq<Effect>, n: nat)
    requires Unfolds(cfg, events, ms, fs) && n < |ms| && ClockRises(ms) && Timely(ms[0])
    ensures Timely(ms[n])
  {
    hide EventStep, Timely;
    if n > 0 {
      AlwaysTimely(cfg, events, ms, fs, n - 1);
      assert StepAt(cfg, events, ms, fs, n - 1);
      EventTimely(cfg, events[n - 1], ms[n - 1], fs[n - 1], ms[n]);
    }
  }

  lemma ChronicleTimely(cfg: Config, events: seq<Event>, ms: seq<Moment>, fs: seq<Effect>, n: nat)
    requires Chronicle(cfg, events, ms, fs) && n < |ms| && ClockRises(ms) && Timely(ms[0])
    ensures Timely(ms[n])
  {
    hide Unfolds, Timely;
    AlwaysTimely(cfg, events, ms, fs, n);
  }

  lemma NewIsTimely(m: Moment, state: ChainState, priceLimit: nat, locals: set<Address>, clock: int)
    requires Starts(m, state, priceLimit, locals, clock)
    ensures Timely(m)
  {}

  /** The account has a queue from moment `j` to moment `k`. */
  ghost predicate Queued(ms: seq<Moment>, a: Address, j: nat, k: nat)
    requires j <= k < |ms|
  {
    forall i :: j <= i <= k ==> ms[i].snap.views(a).queue != map[]
  }

  /** While there is a queue, the heartbeat never gets older. */
  lemma {:induction false} BeatLasts(cfg: Config, events: seq<Event>, ms: seq<Moment>, fs: seq<Effect>, a: Address,
                                     j: nat, k: nat)
    requires Unfolds(cfg, events, ms, fs) && j <= k < |ms| && ClockRises(ms) && Timely(ms[0]) && Queued(ms, a, j, k)
    ensures ms[j].snap.views(a).pulse.beat.Some? && ms[k].snap.views(a).pulse.beat.Some?
    ensures ms[k].snap.views(a).pulse.beat.value >= ms[j].snap.views(a).pulse.beat.value
    decreases k
  {
    hide EventStep;
    AlwaysTimely(cfg, events, ms, fs, k);
    assert TimelyFor(ms[k], a);
    if j < k {
      BeatLasts(cfg, events, ms, fs, a, j, k - 1);
      AlwaysTimely(cfg, events, ms, fs, k - 1);
      assert TimelyFor(ms[k - 1], a);
      assert StepAt(cfg, events, ms, fs, k - 1);
      if events[k - 1].ClockEvent? {
        TimePasses(cfg, events[k - 1], ms[k - 1], fs[k - 1], ms[k], a);
      } else {
        EventPaced(cfg, events[k - 1], ms[k - 1], fs[k - 1], ms[k], a);
      }
    }
  }

  /** Activity protects a queue for the whole lifetime: whoever had something made pending at
      event `j`, or queued something then without a heartbeat on record, and has had a queue
      since, keeps it at any tick that comes no later than the lifetime after. */
  lemma ActivityKeepsQueue(cfg: Config, events: seq<Event>, ms: seq<Moment>, fs: seq<Effect>, a: Address, j: nat,
                           k: nat)
    requires Unfolds(cfg, events, ms, fs) && ClockRises(ms) && Timely(ms[0]) && j < k < |fs| && Queued(ms, a, j + 1, k)
    requires StepAt(cfg, events, ms, fs, j) && !events[j].ClockEvent? && Sound(ms[k])
    requires MakesPending(cfg, events[j], ms[j], fs[j], ms[j + 1], a) || ms[j].snap.views(a).pulse.beat == None
    requires events[k].EvictEvent? && ms[k].clock - ms[j].clock <= events[k].lifetime
    ensures ms[k + 1].snap.views(a) == ms[k].snap.views(a)
  {
    hide EventStep, MakesPending, Sound;
    AlwaysTimely(cfg, events, ms, fs, j);
    assert TimelyFor(ms[j], a);
    EventPaced(cfg, events[j], ms[j], fs[j], ms[j + 1], a);
    BeatLasts(cfg, events, ms, fs, a, j + 1, k);
    assert StepAt(cfg, events, ms, fs, k);
    TickIs(cfg, events[k], ms[k], fs[k], ms[k + 1], a);
  }

  /** A tick takes a remote queue exactly when its heartbeat is older than the lifetime. */
  lemma TickIs(cfg: Config, e: Event, m: Moment, f: Effect, m': Moment, a: Address)
    requires EventStep(cfg, e, m, f, m') && e.EvictEvent? && Sound(m)
    requires m.snap.views(a).queue != map[] && m.snap.views(a).pulse.beat.Some?
    ensures m'.snap.views(a) == (if a !in m.snap.locals && m.clock - m.snap.views(a).pulse.beat.value > e.lifetime
                                 then Leave(m.snap.views(a), map[]) else m.snap.views(a))
  {
  }

  /** For what is queued: at the next tick it is judged by the heartbeat that was on record when
      it came, if there was one, and by its own time only if there was none. */
  lemma QueuedKeptIff(cfg: Config, tx: Tx, local: bool, m: Moment, i: Insertion, m1: Moment, now: int, m2: Moment,
                      lifetime: nat, m3: Moment)
    requires EventStep(cfg, AddEvent(tx, local), m, Inserted(i), m1) && EventStep(cfg, ClockEvent(now), m1, Passed, m2)
    requires EventStep(cfg, EvictEvent(lifetime), m2, Evicted, m3) && Sound(m2) && TimelyFor(m, tx.sender)
    requires i.result.Pooled? && tx.nonce !in m1.snap.views(tx.sender).pending
    ensures var beat := Without(m.snap.views(tx.sender), i.drop, tx.sender).pulse.beat;
            m3.snap.views(tx.sender).queue != map[] <==>
              tx.sender in m2.snap.locals || now - (if beat == None then m.clock else beat.value) <= lifetime
  {
    hide EventStep, Without, Sound;
    var a, c := tx.sender, m.snap.views(tx.sender);
    var w := Without(c, i.drop, a);
    WithoutPaced(c, i.drop, a);
    QueuedView(cfg, tx, local, m, i, m1);
    TimePasses(cfg, ClockEvent(now), m1, Passed, m2, a);
    assert tx.nonce in m1.snap.views(a).queue;
    TickIs(cfg, EvictEvent(lifetime), m2, Evicted, m3, a);
  }

  lemma QueuedView(cfg: Config, tx: Tx, local: bool, m: Moment, i: Insertion, m1: Moment)
    requires EventStep(cfg, AddEvent(tx, local), m, Inserted(i), m1) && i.result.Pooled?
    requires tx.nonce !in m1.snap.views(tx.sender).pending
    ensures m1.snap.views(tx.sender) == Enqueue(Without(m.snap.views(tx.sender), i.drop, tx.sender), tx)
  {
    hide Verdict, Discards, AllAfter, Without, Enqueue;
    assert m1.snap.views(tx.sender) == ViewAfter(m.snap.views(tx.sender), tx.sender, tx, i);
  }
}
