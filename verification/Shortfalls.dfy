/** Pools in which the code falls short of a promise, each built by the pool's own operations. */
module Shortfalls {
  import opened Types
  import opened NonceMap
  import opened TxLists
  import opened TxNoncer
  import opened PricedList
  import opened Account
  import opened PoolState
  import opened Fairness
  import opened Admission
  import opened History
  import opened Conservation
  import opened Pool = TxPool
  import Heap

  /** A pool with room for two transactions, and two in it, the second a moment later. */
  method TwoPooled(cfg: Config, state: ChainState, t1: Tx, t2: Tx) returns (pool: TxPool)
    requires cfg.Sane() && cfg.globalSlots + cfg.globalQueue == 2 && t1.sender != t2.sender
    requires Validation(Rules(cfg, state, 1), {}, t1, false) == None
    requires Validation(Rules(cfg, state, 1), {}, t2, false) == None
    ensures fresh(pool) && fresh(pool.lookup) && fresh(pool.priced) && pool.Valid()
    ensures pool.RulesNow() == Rules(cfg, state, 1) && pool.locals == {}
    ensures pool.lookup.all == {t1, t2} && pool.lookup.slots == NumSlots(t1) + NumSlots(t2) && |pool.priced.items| == 2
    ensures forall a :: pool.View(a).queue == if a == t1.sender then map[t1.nonce := t1]
                                              else if a == t2.sender then map[t2.nonce := t2]
                                              else map[]
    ensures BeatOf(pool.beats, t1.sender) < BeatOf(pool.beats, t2.sender)
  {
    hide TxPool.Base, Validation, AddStep, TxPool.AllGapless, Tracks, SumSlots, ItemsOf, Noncer.Get, NumSlots, PulseOf;
    hide TxPricedList.Tracking;
    hide BeatOf, AfterInsert, Proper, Quiet;
    pool := new TxPool(cfg, state, 1, {}, 0);
    pool.NowShows();
    ghost var s := pool.Now();
    var r;
    ghost var drop;
    FirstQueued(pool.View(t1.sender), t1);
    r, drop := pool.Add(t1, false);
    RoomForOne(pool.RulesNow(), s, t1, Insertion(r, drop), pool.Now());
    pool.NowShows();
    pool.Tick(1);
    pool.NowShows();
    FirstQueued(pool.View(t2.sender), t2);
    s := pool.Now();
    assert |{t1}| == 1;
    r, drop := pool.Add(t2, false);
    RoomForOne(pool.RulesNow(), s, t2, Insertion(r, drop), pool.Now());
    pool.NowShows();
    OldBeat(pool.beats, pool.clock, t1.sender);
    OldBeat(pool.beats, pool.clock, t2.sender);
    pool.SlotsAre();
    SlotsOfTwo(t1, t2);
    assert pool.lookup.all == {t1, t2};
  }

  lemma FirstQueued(c: Acct, tx: Tx)
    requires c.pending == map[] && c.queue == map[] && c.pulse.beat == None
    ensures AfterInsert(c, tx) == Acct(map[], map[tx.nonce := tx], c.next, c.pulse.Renewed())
  {}

  lemma SlotsOfTwo(t1: Tx, t2: Tx)
    requires t1 != t2
    ensures SumSlots({t1, t2}) == NumSlots(t1) + NumSlots(t2)
  {
    SumSlotsWith({}, t1);
    SumSlotsWith({t1}, t2);
    assert {} + {t1} == {t1} && {t1} + {t2} == {t1, t2};
  }

  /** It happens: a pool full of two big transactions is offered a better paid small one, and
      asks its two entries for three slots. */
  method PanicHappens() returns (pool: TxPool, r: AddResult)
    ensures pool.Valid() && r == Panicked
  {
    hide TxPool.Base, AddStep, TxPool.AllGapless, Tracks, SumSlots, Validation, TxPricedList.Tracking, Proper, Quiet;
    hide PulseOf, ItemsOf, Noncer.Get;
    var cfg := Config(10, 1, 1, 1, 1);
    var state := ChainState((a: Address) => 0, (a: Address) => 100, 100, (t: Tx) => Some(0));
    var t1, t2, t3 := Tx(0, 1, 0, 1, 1, 0, 40000), Tx(0, 2, 0, 1, 1, 0, 40000), Tx(0, 3, 0, 2, 1, 0, 1);
    Acceptable(Rules(cfg, state, 1), t1);
    Acceptable(Rules(cfg, state, 1), t2);
    Acceptable(Rules(cfg, state, 1), t3);
    pool := TwoPooled(cfg, state, t1, t2);
    ghost var s := pool.Now();
    assert |{t1, t2}| == 2 && t1 in s.all && t1.price < t3.price;
    ghost var drop;
    r, drop := pool.Add(t3, false);
    NoRoom(pool.RulesNow(), s, t3, Insertion(r, drop), pool.Now());
  }

  /** Wherever a reset makes the rules stricter for a transaction that is otherwise fine, that
      transaction can come back with it, and stays pooled without paying for its data. */
  method StricterRules(cfg: Config, before: ChainState, after: ChainState, t: Tx) returns (pool: TxPool)
    requires cfg.Sane() && Validation(ResetRules(after, Rules(cfg, before, 1)), {}, t, false) == None
    requires !Covers(after.intrinsic, t)
    ensures pool.Valid() && pool.state == after && t in pool.lookup.all
    ensures !Covered(pool.state.intrinsic, pool.lookup.all)
  {
    hide TxPool.Base, Validation, AddStep, TxPool.AllGapless, Tracks, SumSlots;
    pool := new TxPool(cfg, before, 1, {}, 0);
    var crashed;
    ghost var snaps, added;
    crashed, snaps, added := pool.Reset(HeadReset(Some(after), [t]));
    assert |added| == 1 && Step(ResetRules(after, Rules(cfg, before, 1)), [t], false, snaps, added, 0);
    RoomForOne(ResetRules(after, Rules(cfg, before, 1)), snaps[0], t, added[0], snaps[1]);
  }

  /** A refusal at a cost happens: the newcomer takes the place of the cheapest one, and then
      does not outbid the other. */
  method RefusalCosts() returns (pool: TxPool, r: AddResult, lost: Tx, ghost before: Moment)
    ensures pool.Valid() && r == Rejected(ReplaceUnderpriced) && lost in before.snap.all && lost !in pool.lookup.all
  {
    hide TxPool.Base, AddStep, TxPool.AllGapless, Tracks, SumSlots, Validation, TxPricedList.Tracking;
    var cfg := Config(10, 1, 1, 1, 1);
    var state := ChainState((a: Address) => 0, (a: Address) => 100, 100, (t: Tx) => Some(0));
    var t1, t2, t3 := Tx(0, 1, 0, 5, 1, 0, 1), Tx(0, 2, 0, 1, 1, 0, 1), Tx(1, 1, 0, 5, 1, 0, 1);
    Acceptable(Rules(cfg, state, 1), t1);
    Acceptable(Rules(cfg, state, 1), t2);
    Acceptable(Rules(cfg, state, 1), t3);
    pool := TwoPooled(cfg, state, t1, t2);
    pool.AllOnHeap();
    before, lost := pool.Here(), t2;
    assert |{t1, t2}| == 2 && t2 in pool.lookup.all;
    ghost var s := pool.Now();
    ghost var drop;
    r, drop := pool.Add(t3, false);
    StepDropsCheapest(pool.RulesNow(), s, t1, t2, t3, Insertion(r, drop), pool.Now());
    assert t1 in Rivals({t1}, t3);
  }

  /** It happens: the cheapest one is discarded for a newcomer to its own place, which then needs
      no percentage on top. */
  method RoomWithoutBump() returns (pool: TxPool, r: AddResult, was: Tx, next: Tx, ghost before: Moment)
    ensures pool.Valid() && r == Pooled(false) && was in before.snap.all && next in pool.lookup.all
    ensures was.sender == next.sender && was.nonce == next.nonce && !Raises(was.price, next.price, pool.cfg.priceBump)
  {
    hide TxPool.Base, AddStep, TxPool.AllGapless, Tracks, SumSlots, Validation, TxPricedList.Tracking;
    var cfg := Config(10, 1, 1, 1, 1);
    var state := ChainState((a: Address) => 0, (a: Address) => 100, 100, (t: Tx) => Some(0));
    var t1, t2, t3 := Tx(0, 1, 0, 50, 1, 0, 1), Tx(0, 2, 0, 20, 1, 0, 1), Tx(1, 2, 0, 21, 1, 0, 1);
    Acceptable(Rules(cfg, state, 1), t1);
    Acceptable(Rules(cfg, state, 1), t2);
    Acceptable(Rules(cfg, state, 1), t3);
    pool := TwoPooled(cfg, state, t1, t2);
    pool.AllOnHeap();
    before, was, next := pool.Here(), t2, t3;
    assert |{t1, t2}| == 2 && t2 in pool.lookup.all;
    ghost var s := pool.Now();
    ghost var drop;
    r, drop := pool.Add(t3, false);
    assert Rivals({t1}, t3) == {};
    StepDropsCheapest(pool.RulesNow(), s, t1, t2, t3, Insertion(r, drop), pool.Now());
  }

  lemma Acceptable(rules: Rules, t: Tx)
    requires rules.gasPrice <= t.price && rules.state.nonce(t.sender) == 0
    requires rules.state.balance(t.sender) == 100 == rules.state.maxGas
    requires t.size <= 40000 && t.value == 0 && t.gas == 1 && t.price <= 100 && rules.state.intrinsic(t) == Some(0)
    ensures Validation(rules, {}, t, false) == None
  {}

  /** A full pool of two, and a newcomer that is dearer than the cheaper one. */
  lemma StepDropsCheapest(rules: Rules, s: Snap, t1: Tx, t2: Tx, t3: Tx, i: Insertion, s': Snap)
    requires AddStep(rules, s, t3, false, i, s') && Full(rules, s) && Request(rules, s, t3) == 1 && |s.heap| == 2
    requires s.locals == {} && s.all == {t1, t2} && t3 !in s.all && Validation(rules, {}, t3, false) == None
    requires t2.price < t1.price && t2.price < t3.price && t2 in s.heap
    ensures i.drop == [t2] && s.all - Elements(i.drop) == {t1}
    ensures i.result == if Outbid({t1}, t3, rules.cfg.priceBump) then Pooled(Rivals({t1}, t3) != {})
                        else Rejected(ReplaceUnderpriced)
    ensures s'.all == if i.result.Pooled? then {t1} - Rivals({t1}, t3) + {t3} else {t1}
  {
    hide Validation, ViewAfter, Outbid, Rivals;
    KeepsLive(s.heap, s.all, t2);
    assert |HeapFor(s, t3, false)| >= 1;
    assert MakesRoom(s.all, {}, 1, i.drop);
    OnlyCheapest(s.all, t1, t2, i.drop);
    assert s.all - Elements(i.drop) == {t1};
  }

  lemma OnlyCheapest(all: set<Tx>, t1: Tx, t2: Tx, drop: seq<Tx>)
    requires all == {t1, t2} && MakesRoom(all, {}, 1, drop) && t2.price < t1.price
    ensures drop == [t2]
  {
    assert t1 in all && t2 in all && drop != [];
    ListSlotsCount(drop[..|drop| - 1]);
    assert drop[0] in drop && !NoBetter(t1, t2);
  }

  lemma {:induction false} ListSlotsCount(s: seq<Tx>)
    ensures ListSlots(s) >= |s|
  {
    if s != [] {
      ListSlotsCount(s[..|s| - 1]);
    }
  }

  lemma {:induction false} KeepsLive(heap: seq<Tx>, live: set<Tx>, t: Tx)
    requires t in heap && t in live
    ensures t in StaleFree(heap, live)
    decreases |heap|
  {
    if heap[0] !in live {
      Heap.PoppedHas(heap, PriceRank, t);
      KeepsLive(Heap.Popped(heap, PriceRank), live, t);
    }
  }

  /** It happens: of two queues over the limit, the one with the later heartbeat goes. */
  method NewestGoes() returns (pool: TxPool, ghost before: Moment)
    ensures pool.Valid() && BeatOf(before.beats, 1) < BeatOf(before.beats, 2) && Queues(before.queue, 1, 2)
    ensures ItemsOf(pool.queue, 1) == ItemsOf(before.queue, 1) && ItemsOf(pool.queue, 2) == map[]
  {
    hide TxPool.Base, Tracks, ItemsOf, Noncer.Get, Validation, TxPricedList.Tracking, BeatOf;
    var cfg := Config(10, 1, 1, 1, 1);
    var state := ChainState((a: Address) => 0, (a: Address) => 100, 100, (t: Tx) => Some(0));
    var t1, t2 := Tx(0, 1, 0, 1, 1, 0, 1), Tx(0, 2, 0, 1, 1, 0, 1);
    Acceptable(Rules(cfg, state, 1), t1);
    Acceptable(Rules(cfg, state, 1), t2);
    pool := TwoPooled(cfg, state, t1, t2);
    ghost var c0 := ViewsOf(pool.pending, pool.queue, pool.noncer, pool.beats, pool.clock);
    pool.ViewsAre(c0);
    pool.ListsAre(c0);
    before := pool.Here();
    CutTwo(pool, 1, 2);
  }

  /** Two accounts have one queued transaction each, and nobody else any. */
  ghost predicate Queues(q: Lists, a: Address, b: Address) {
    a != b && LenOf(q, a) == 1 == LenOf(q, b) && forall c: Address :: c != a && c != b ==> ItemsOf(q, c) == map[]
  }

  method CutTwo(pool: TxPool, a: Address, b: Address)
    requires pool.Valid() && pool.locals == {} && pool.cfg.globalQueue == 1 && Queues(pool.queue, a, b)
    requires BeatOf(pool.beats, a) < BeatOf(pool.beats, b)
    modifies pool, pool.lookup, pool.priced
    ensures pool.Valid() && ItemsOf(pool.queue, a) == ItemsOf(old(pool.queue), a) && ItemsOf(pool.queue, b) == map[]
  {
    hide TxPool.Base, Tracks, SumLens, ItemsOf, Noncer.Get, NoEmpty, QueueFairlyCut, NewestFirst, QueueCutTo, BeatOf;
    hide Queues, Lowest;
    pool.NeverEmpty();
    ghost var q0, c0 := pool.queue, ViewsOf(pool.pending, pool.queue, pool.noncer, pool.beats, pool.clock);
    pool.ViewsAre(c0);
    pool.ListsAre(c0);
    pool.TruncateQueue();
    pool.CutQueues(c0, q0);
    pool.NeverEmpty();
    NewestGone(q0, pool.queue, a, b, 1, old(pool.beats));
  }

  lemma NewestGone(q0: Lists, q: Lists, a: Address, b: Address, limit: nat, beats: map<Address, int>)
    requires BeatOf(beats, a) < BeatOf(beats, b) && Queues(q0, a, b) && limit == 1
    requires forall c: Address :: NoEmpty(q0, c) && NoEmpty(q, c)
    requires QueueFairlyCut(q0, q, {}, limit) && NewestFirst(q0, q, {}, beats)
    requires forall c: Address :: ItemsOf(q, c) == Lowest(ItemsOf(q0, c), |ItemsOf(q, c)|)
    ensures ItemsOf(q, a) == ItemsOf(q0, a) && ItemsOf(q, b) == map[]
  {
    WholeLowest(ItemsOf(q0, a), |ItemsOf(q, a)|);
    hide SumLens, NoEmpty, ItemsOf, Lowest;
    TwoQueues(q0, a, b);
    TwoQueues(q, a, b);
    assert ItemsOf(q, a) == ItemsOf(q0, a) || ItemsOf(q, b) == map[];
  }

  lemma WholeLowest(m: TxMap, k: nat)
    ensures |m| == k ==> Lowest(m, k) == m
  {}

  lemma NoLists()
    ensures SumLens(map[]) == 0
  {}

  lemma TwoQueues(q: Lists, a: Address, b: Address)
    requires a != b && (forall c: Address :: NoEmpty(q, c))
    requires forall c: Address :: c != a && c != b ==> ItemsOf(q, c) == map[]
    ensures SumLens(q) == LenOf(q, a) + LenOf(q, b)
  {
    NoLists();
    hide SumLens;
    SumLensSplit(q, a);
    SumLensSplit(q - {a}, b);
    var rest := q - {a} - {b};
    forall c: Address ensures c !in rest {
      assert NoEmpty(q, c) && (c != a && c != b ==> ItemsOf(q, c) == map[]);
    }
    assert rest == map[];
  }

  // ----- A heartbeat that is too old -----

  lemma PromoteOne(c: Acct, lim: Limits, cap: Option<nat>, t: Tx)
    requires c.pending == map[] && c.queue == map[0 := t] && c.next == 0 == lim.nonce && !lim.Over()(t)
    requires cap != Some(0)
    ensures Promote(c, lim, cap) == Acct(map[0 := t], map[], 1, c.pulse.Lost())
  {
    var payable := Ready(c, lim);
    assert payable == map[0 := t];
    RunEndIs(payable, 0, 1);
    MinInRun(payable, 0);
    assert ReadyRun(payable, 0) == map[0 := t] && AfterReady(payable, 0) == map[];
    assert Spans(map[0 := t], 0, 1);
    MaxOfSpan(map[0 := t], 0, 1);
    assert map[] + map[0 := t] == map[0 := t];
    assert 0 in c.queue;
  }

  /** A pool with one transaction, promoted at time 0. */
  method PromotedOne(cfg: Config, state: ChainState, t: Tx) returns (pool: TxPool)
    requires cfg.Sane() && t.sender == 1 && t.nonce == 0 && state.nonce(1) == 0
    requires Validation(Rules(cfg, state, 1), {}, t, false) == None
    ensures fresh(pool) && fresh(pool.lookup) && fresh(pool.priced) && pool.Valid() && pool.locals == {}
    ensures pool.RulesNow() == Rules(cfg, state, 1) && pool.lookup.all == {t}
    ensures pool.View(1) == Acct(map[0 := t], map[], 1, Pulse(None, 0))
  {
    hide TxPool.Base, AddStep, TxPool.AllGapless, Tracks, Validation, ItemsOf, Noncer.Get, PulseOf, Promote, Listed;
    pool := new TxPool(cfg, state, 1, {}, 0);
    pool.NowShows();
    ghost var s := pool.Now();
    var r;
    ghost var drop;
    r, drop := pool.Add(t, false);
    RoomForOne(pool.RulesNow(), s, t, Insertion(r, drop), pool.Now());
    pool.NowShows();
    ValidMeans(pool.RulesNow(), {}, t, false);
    PromoteOne(pool.View(1), state.For(1), QueueCap(cfg, {}, 1), t);
    pool.PromoteExecutables({1});
    pool.AllListed();
    ghost var views := ViewsOf(pool.pending, pool.queue, pool.noncer, pool.beats, pool.clock);
    pool.ViewsAre(views);
    forall a: Address | a != 1 ensures views(a).pending == map[] && views(a).queue == map[] {
      assert pool.View(a) == s.views(a);
    }
    OnlyOne(pool.lookup.all, views, t);
  }

  /** .. and then replaced. */
  method Replaced(cfg: Config, state: ChainState, t1: Tx, t2: Tx) returns (pool: TxPool)
    requires cfg.Sane() && t1.sender == t2.sender == 1 && t1.nonce == t2.nonce == 0 && state.nonce(1) == 0
    requires Validation(Rules(cfg, state, 1), {}, t1, false) == None
    requires Validation(Rules(cfg, state, 1), {}, t2, false) == None && Raises(t1.price, t2.price, cfg.priceBump)
    ensures fresh(pool) && fresh(pool.lookup) && fresh(pool.priced) && pool.Valid() && pool.locals == {}
    ensures pool.RulesNow() == Rules(cfg, state, 1) && pool.lookup.all == {t2}
    ensures pool.View(1) == Acct(map[0 := t2], map[], 1, Pulse(Some(0), 0))
  {
    hide TxPool.Base, AddStep, TxPool.AllGapless, Tracks, Validation, ItemsOf, Noncer.Get, PulseOf;
    pool := PromotedOne(cfg, state, t1);
    pool.NowShows();
    ghost var s := pool.Now();
    assert |{t1}| == 1;
    var r;
    ghost var drop;
    r, drop := pool.Add(t2, false);
    ReplaceOne(pool.RulesNow(), s, t1, t2, Insertion(r, drop), pool.Now());
    pool.NowShows();
  }

  lemma OnlyOne(all: set<Tx>, views: Address -> Acct, t: Tx)
    requires forall tx: Tx :: tx in all <==> Listed(views(tx.sender), tx)
    requires t.nonce == 0 && t.sender == 1 && views(1).pending == map[0 := t] && views(1).queue == map[]
    requires forall a :: a != 1 ==> views(a).pending == map[] && views(a).queue == map[]
    ensures all == {t}
  {
    forall tx: Tx ensures tx in all <==> tx == t {
      assert Listed(views(tx.sender), tx) <==> tx == t;
    }
  }

  lemma ReplaceOne(rules: Rules, s: Snap, t: Tx, tx: Tx, i: Insertion, s': Snap)
    requires AddStep(rules, s, tx, false, i, s') && !Full(rules, s) && s.all == {t} && t.price < tx.price
    requires t.sender == tx.sender && t.nonce == tx.nonce && Raises(t.price, tx.price, rules.cfg.priceBump)
    requires Validation(rules, s.locals, tx, false) == None
    ensures i == Insertion(Pooled(true), []) && s'.all == {tx} && s'.locals == s.locals
    ensures forall a :: s'.views(a) == if a == tx.sender then AfterInsert(s.views(a), tx) else s.views(a)
  {
    hide Validation, AfterInsert;
    OutbidsRaises(tx, t, rules.cfg.priceBump);
    assert s.all - Elements([]) == s.all && Rivals(s.all, tx) == {t};
    assert t in Rivals(s.all, tx);
  }

  /** It happens: replacing a pending transaction leaves a heartbeat although there is no queue.
      Something queued much later does not renew it, and goes at the next tick. */
  method StaleHeartbeat() returns (pool: TxPool, ghost m: Moment, ghost m1: Moment)
    ensures pool.Valid() && m.snap.views(1).queue == map[] && m1.snap.views(1).queue != map[] && m.clock == m1.clock
    ensures pool.View(1).queue == map[] && pool.clock == m1.clock
  {
    hide TxPool.Base, AddStep, TxPool.AllGapless, Tracks, Validation, ItemsOf, Noncer.Get, AfterInsert, PulseOf, BeatOf;
    hide TxPricedList.Tracking, Raises, Proper, Quiet;
    var cfg := Config(10, 1, 1, 1, 2);
    var state := ChainState((a: Address) => 0, (a: Address) => 100, 100, (t: Tx) => Some(0));
    var t1, t2, t3 := Tx(0, 1, 0, 1, 1, 0, 1), Tx(1, 1, 0, 2, 1, 0, 1), Tx(0, 1, 5, 1, 1, 0, 1);
    Acceptable(Rules(cfg, state, 1), t1);
    Acceptable(Rules(cfg, state, 1), t2);
    Acceptable(Rules(cfg, state, 1), t3);
    TwiceThePrice(1, cfg.priceBump);
    pool := Replaced(cfg, state, t1, t2);
    pool.Tick(20000);
    m := pool.Here();
    pool.NowShows();
    assert |{t2}| == 1 && Rivals({t2}, t3) == {};
    QueuedLate(pool.View(1), t3);
    var r;
    ghost var drop;
    r, drop := pool.Add(t3, false);
    RoomForOne(pool.RulesNow(), m.snap, t3, Insertion(r, drop), pool.Now());
    pool.NowShows();
    m1 := pool.Here();
    pool.QueueKeys();
    OldBeat(pool.beats, pool.clock, 1);
    pool.Evict(10800);
    pool.NowShows();
  }

  lemma TwiceThePrice(price: int, bump: nat)
    requires price > 0 && bump <= 100
    ensures Raises(price, 2 * price, bump)
  {
    assert price * (100 + bump) <= price * 200;
  }

  lemma QueuedLate(c: Acct, tx: Tx)
    requires tx.nonce !in c.pending && c.pulse.beat.Some?
    ensures AfterInsert(c, tx) == c.(queue := c.queue[tx.nonce := tx])
  {}

  lemma OldBeat(beats: map<Address, int>, clock: int, a: Address)
    ensures PulseOf(beats, clock, a).beat.Some? ==> BeatOf(beats, a) == PulseOf(beats, clock, a).beat.value
  {}

}
