/** What happens to a pool over time, on values: the pool at one moment, what each event makes
    of it, and whole histories of events. */
module History {
  import opened Types
  import opened NonceMap
  import opened TxLists
  import opened PricedList
  import opened Account
  import opened PoolState
  import opened Conservation
  import opened Fairness
  import opened Admission

  // ----- The pool at one moment -----

  datatype Moment = Moment(snap: Snap, stales: int, state: ChainState, gasPrice: int, pending: Lists, queue: Lists,
                           beats: map<Address, int>, clock: int)

  /** The views agree, the counters are right and the heap tracks the lookup. */
  ghost predicate Sound(m: Moment) {
    && Consistent(m.pending, m.queue, m.snap.all) && m.snap.slots == SumSlots(m.snap.all)
    && Tracks(m.snap.all, m.snap.heap, m.stales, 0)
    && (forall a :: m.snap.views(a).pending == ItemsOf(m.pending, a) && m.snap.views(a).queue == ItemsOf(m.queue, a))
    && (forall a :: m.snap.views(a).pulse == PulseOf(m.beats, m.clock, a))
  }

  ghost predicate AllGaplessAt(m: Moment) {
    forall a :: Gapless(m.snap.views(a), m.state.For(a))
  }

  ghost predicate CoveredAt(m: Moment) {
    Covered(m.state.intrinsic, m.snap.all)
  }

  ghost predicate ProperAt(m: Moment) {
    Proper(m.snap.all, m.snap.locals, m.gasPrice)
  }

  /** Sound, and with whatever else is known of a pool's history. */
  ghost predicate Good(m: Moment, fine: bool, paid: bool, fit: bool) {
    Sound(m) && (fine ==> AllGaplessAt(m)) && (paid ==> CoveredAt(m)) && (fit ==> ProperAt(m))
  }

  lemma GoodMeans(m: Moment, fine: bool, paid: bool, fit: bool)
    requires Good(m, fine, paid, fit)
    ensures Sound(m) && (fine ==> AllGaplessAt(m)) && (paid ==> CoveredAt(m)) && (fit ==> ProperAt(m))
  {}

  /** An empty pool with the virtual nonces of the chain state. */
  ghost predicate Starts(m: Moment, state: ChainState, priceLimit: nat, locals: set<Address>, clock: int) {
    && m.state == state && m.gasPrice == priceLimit && m.snap.locals == locals && m.clock == clock
    && m.snap.all == {} && m.snap.heap == []
    && forall a :: m.snap.views(a) == Acct(map[], map[], state.nonce(a), Pulse(None, clock))
  }

  function BeatOf(beats: map<Address, int>, a: Address): int {
    if a in beats then beats[a] else 0
  }

  function PulseOf(beats: map<Address, int>, clock: int, a: Address): Pulse {
    Pulse(if a in beats then Some(beats[a]) else None, clock)
  }

  /** How many a queue may hold: local ones any number. */
  function QueueCap(cfg: Config, locals: set<Address>, a: Address): Option<nat> {
    if a in locals then None else Some(cfg.accountQueue)
  }

  // ----- A run -----

  /** What a head reset hands the pool: the state at the new head, unless it could not be
      loaded, and the transactions of abandoned blocks. */
  datatype HeadReset = HeadReset(loaded: Option<ChainState>, reinject: seq<Tx>) {
    /** The head moved to a descendant: no block was abandoned, no state nonce goes back. */
    ghost predicate Descends(from: ChainState) {
      reinject == [] && (loaded.Some? ==> forall a: Address :: from.nonce(a) <= loaded.value.nonce(a))
    }
  }

  predicate HasHead(reset: Option<HeadReset>) {
    reset.Some? && reset.value.loaded.Some?
  }

  /** The state of the new head, and of the old one the intrinsic gas. */
  function ResetRules(state: ChainState, old_: Rules): Rules {
    old_.(state := state.(intrinsic := old_.state.intrinsic))
  }

  /** As before, but with every virtual nonce back at the state nonce. */
  ghost predicate HeadMovedTo(s: Snap, s0: Snap, state: ChainState) {
    && s.all == s0.all && s.slots == s0.slots && s.heap == s0.heap && s.locals == s0.locals
    && forall a :: s.views(a) == s0.views(a).(next := state.nonce(a))
  }

  /** What happened in a run: the insertions after a head change, and lists and heartbeats just
      before the limits were enforced. */
  datatype RunLog = RunLog(snaps: seq<Snap>, added: seq<Insertion>, pending: Lists, queue: Lists,
                           beats: map<Address, int>) {
    /** The pool once the abandoned transactions were back. */
    function Back(): Snap
      requires |snaps| == |added| + 1
    {
      snaps[|added|]
    }
  }

  /** With a new head, virtual nonces start afresh and the abandoned transactions are added one
      by one; without one nothing happens. */
  ghost predicate Returned(cfg: Config, reset: Option<HeadReset>, m: Moment, log: RunLog) {
    && |log.snaps| == |log.added| + 1
    && if HasHead(reset)
       then && Trace(ResetRules(reset.value.loaded.value, Rules(cfg, m.state, m.gasPrice)), reset.value.reinject,
                     false, log.snaps, log.added)
            && HeadMovedTo(log.snaps[0], m.snap, reset.value.loaded.value)
       else log.snaps == [m.snap] && log.added == []
  }

  /** The state after a run; a panic leaves it between the old and the new one. */
  function HeadAfter(reset: Option<HeadReset>, state: ChainState, crashed: bool): ChainState {
    if !HasHead(reset) then state
    else if crashed then reset.value.loaded.value.(intrinsic := state.intrinsic)
    else reset.value.loaded.value
  }

  /** An account after promotion and demotion, before the limits are enforced. */
  ghost function Prepared(cfg: Config, state: ChainState, s: Snap, reset: bool, dirty: set<Address>, a: Address): Acct {
    Processed(s.views(a), state.For(a), QueueCap(cfg, s.locals, a), reset || a in dirty, reset)
  }

  /** Whoever is older keeps its queue at the cost of all that are newer. */
  ghost predicate NewestFirst(q0: Lists, q: Lists, locals: set<Address>, beats: map<Address, int>) {
    forall a: Address, b: Address :: a !in locals && b !in locals && BeatOf(beats, a) < BeatOf(beats, b) ==>
      ItemsOf(q, a) == ItemsOf(q0, a) || ItemsOf(q, b) == map[]
  }

  /** The limits are enforced fairly. */
  ghost predicate Enforced(cfg: Config, log: RunLog, m: Moment) {
    && FairlyCut(log.pending, m.pending, m.snap.locals, cfg.accountSlots, cfg.globalSlots)
    && Tight(log.pending, m.pending, cfg.globalSlots)
    && QueueFairlyCut(log.queue, m.queue, m.snap.locals, cfg.globalQueue)
    && NewestFirst(log.queue, m.queue, m.snap.locals, log.beats)
  }

  /** Every account is promoted and demoted as it should be, and then trimmed. */
  ghost predicate AllTrimmed(cfg: Config, reset: bool, dirty: set<Address>, log: RunLog, m: Moment)
    requires |log.snaps| == |log.added| + 1
  {
    && (forall a :: Trimmed(Prepared(cfg, m.state, log.Back(), reset, dirty, a), m.snap.views(a)))
    && (forall a :: ItemsOf(log.pending, a) == Prepared(cfg, m.state, log.Back(), reset, dirty, a).pending)
    && (forall a :: ItemsOf(log.queue, a) == Prepared(cfg, m.state, log.Back(), reset, dirty, a).queue)
  }

  /** Lookup and lists hold the same transactions, each in one place. */
  ghost predicate Coherent(s: Snap) {
    && (forall tx: Tx :: tx in s.all <==> Listed(s.views(tx.sender), tx))
    && (forall a :: s.views(a).pending.Keys !! s.views(a).queue.Keys)
  }

  /** The whole effect of a run: abandoned transactions return, then all accounts are brought up
      to date and the limits enforced; a panic ends it among the returning transactions. */
  ghost predicate RunStep(cfg: Config, reset: Option<HeadReset>, dirty: set<Address>, m: Moment, log: RunLog,
                          m': Moment) {
    && Returned(cfg, reset, m, log) && Coherent(log.Back()) && m'.clock == m.clock && m'.gasPrice == m.gasPrice
    && m'.snap.locals == m.snap.locals == log.Back().locals
    && m'.state == HeadAfter(reset, m.state, Crashes(log.added))
    && if Crashes(log.added) then m'.snap == log.Back()
       else AllTrimmed(cfg, reset.Some?, dirty, log, m') && Enforced(cfg, log, m')
  }

  // ----- The price floor and the eviction tick -----

  /** Exactly the remote transactions below the floor go, one after the other. */
  ghost predicate PriceStep(m: Moment, price: int, drop: seq<Tx>, m': Moment) {
    && m'.gasPrice == price && m'.state == m.state && m'.snap.locals == m.snap.locals && m'.clock == m.clock
    && m'.snap.all == (set tx | tx in m.snap.all && (tx.sender in m.snap.locals || tx.price >= price))
    && Elements(drop) == m.snap.all - m'.snap.all
    && forall a :: m'.snap.views(a) == Without(m.snap.views(a), drop, a)
  }

  ghost predicate Idle(m: Moment, lifetime: nat, a: Address) {
    a in m.queue && a !in m.snap.locals && m.clock - BeatOf(m.beats, a) > lifetime
  }

  /** Exactly the idle remote accounts lose their queues. */
  ghost predicate EvictStep(m: Moment, lifetime: nat, m': Moment) {
    && m'.gasPrice == m.gasPrice && m'.state == m.state && m'.snap.locals == m.snap.locals && m'.clock == m.clock
    && forall a :: m'.snap.views(a) == if Idle(m, lifetime, a) then Leave(m.snap.views(a), map[]) else m.snap.views(a)
  }

  /** Time passes, and nothing else happens. */
  ghost predicate ClockStep(m: Moment, now: int, m': Moment) {
    && m'.gasPrice == m.gasPrice && m'.state == m.state && m'.clock == now
    && m'.snap.(views := m.snap.views) == m.snap && m'.pending == m.pending && m'.queue == m.queue
    && forall a :: m'.snap.views(a) == m.snap.views(a).(pulse := m.snap.views(a).pulse.(now := now))
  }

  // ----- Events -----

  /** What happens to a pool under its lock. */
  datatype Event =
    | AddEvent(tx: Tx, local: bool)
    | PriceEvent(price: int)
    | EvictEvent(lifetime: nat)
    | ClockEvent(now: int)
    | ReorgEvent(reset: Option<HeadReset>, dirty: set<Address>)

  /** How an event went. */
  datatype Effect = Inserted(i: Insertion) | Repriced(drop: seq<Tx>) | Evicted | Passed | Ran(log: RunLog)

  predicate Fatal(f: Effect) {
    match f
    case Inserted(i) => i.result.Panicked?
    case Ran(log) => |log.added| > 0 && log.added[|log.added| - 1].result.Panicked?
    case _ => false
  }

  ghost predicate EventStep(cfg: Config, e: Event, m: Moment, f: Effect, m': Moment) {
    match e
    case AddEvent(tx, local) =>
      && f.Inserted? && AddStep(Rules(cfg, m.state, m.gasPrice), m.snap, tx, local, f.i, m'.snap)
      && m'.state == m.state && m'.gasPrice == m.gasPrice && m'.clock == m.clock
    case PriceEvent(price) => f.Repriced? && PriceStep(m, price, f.drop, m')
    case EvictEvent(lifetime) => f.Evicted? && EvictStep(m, lifetime, m')
    case ClockEvent(now) => f.Passed? && ClockStep(m, now, m')
    case ReorgEvent(reset, dirty) => f.Ran? && RunStep(cfg, reset, dirty, m, f.log, m')
  }

  ghost predicate StepAt(cfg: Config, events: seq<Event>, ms: seq<Moment>, fs: seq<Effect>, i: nat)
    requires i < |fs| <= |events| && |ms| == |fs| + 1
  {
    EventStep(cfg, events[i], ms[i], fs[i], ms[i + 1])
  }

  /** One event after the other; only the last can have been fatal. */
  ghost predicate Unfolds(cfg: Config, events: seq<Event>, ms: seq<Moment>, fs: seq<Effect>) {
    && |ms| == |fs| + 1 && |fs| <= |events|
    && (forall i :: 0 <= i < |fs| ==> StepAt(cfg, events, ms, fs, i))
    && (forall i :: 0 <= i < |fs| - 1 ==> !Fatal(fs[i]))
  }

  ghost predicate Ended(fs: seq<Effect>) {
    |fs| > 0 && Fatal(fs[|fs| - 1])
  }

  /** All events, or those up to a fatal one. */
  ghost predicate Chronicle(cfg: Config, events: seq<Event>, ms: seq<Moment>, fs: seq<Effect>) {
    Unfolds(cfg, events, ms, fs) && (|fs| == |events| || Ended(fs))
  }

  lemma NothingYet(cfg: Config, events: seq<Event>, m: Moment)
    ensures Unfolds(cfg, events, [m], [])
  {}

  lemma OneMore(cfg: Config, events: seq<Event>, ms: seq<Moment>, fs: seq<Effect>, f: Effect, m': Moment)
    requires Unfolds(cfg, events, ms, fs) && !Ended(fs) && |fs| < |events|
    requires EventStep(cfg, events[|fs|], ms[|fs|], f, m')
    ensures Unfolds(cfg, events, ms + [m'], fs + [f])
  {
    hide EventStep;
    var ms', fs' := ms + [m'], fs + [f];
    forall k | 0 <= k < |fs'| ensures StepAt(cfg, events, ms', fs', k) {
      if k < |fs| {
        assert StepAt(cfg, events, ms, fs, k);
      }
    }
  }

  /** Every head reset in `events`, starting from `state`, moves to a descendant. */
  ghost predicate OnlyDescends(state: ChainState, events: seq<Event>)
    decreases |events|
  {
    events == [] ||
    match events[0]
    case ReorgEvent(Some(head), _) =>
      head.Descends(state) && OnlyDescends(if head.loaded.Some? then head.loaded.value else state, events[1..])
    case _ => OnlyDescends(state, events[1..])
  }

  /** No head reset in `events`, starting from these rules, makes the rules stricter. */
  ghost predicate OnlyLoosens(intrinsic: Tx -> Option<nat>, events: seq<Event>)
    decreases |events|
  {
    events == [] ||
    match events[0]
    case ReorgEvent(Some(HeadReset(Some(state), _)), _) =>
      Looser(intrinsic, state.intrinsic) && OnlyLoosens(state.intrinsic, events[1..])
    case _ => OnlyLoosens(intrinsic, events[1..])
  }

  /** An event that was not fatal leaves the pool at its own head. */
  ghost function HeadOf(e: Event, state: ChainState): ChainState {
    if e.ReorgEvent? && HasHead(e.reset) then e.reset.value.loaded.value else state
  }

  lemma StepMovesHead(cfg: Config, e: Event, m: Moment, f: Effect, m': Moment)
    requires EventStep(cfg, e, m, f, m')
    ensures if Fatal(f) then m'.state.intrinsic == m.state.intrinsic else m'.state == HeadOf(e, m.state)
  {
    hide AddStep, Returned, AllTrimmed, Enforced;
  }

  lemma StillCovered(events: seq<Event>, st: ChainState, st': ChainState, all: set<Tx>)
    requires events != [] && OnlyLoosens(st.intrinsic, events) && Covered(st.intrinsic, all)
    requires st' == HeadOf(events[0], st)
    ensures Covered(st'.intrinsic, all) && OnlyLoosens(st'.intrinsic, events[1..])
  {}

  lemma OneStep(state: ChainState, events: seq<Event>)
    requires events != [] && OnlyDescends(state, events)
    ensures OnlyDescends(state, [events[0]]) && OnlyDescends(HeadOf(events[0], state), events[1..])
  {}
}
