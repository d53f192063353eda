/** The transaction pool. It keeps four views of one set of transactions: pending lists,
    queued lists, a lookup with a slot counter, and a price heap that shares the lookup. */
module TxPool {
  import opened Types
  import opened NonceMap
  import opened TxLists
  import opened TxNoncer
  import opened PricedList
  import opened Account
  import opened PoolState
  import opened Fairness
  import opened Admission
  import opened Submission
  import opened History
  import opened Conservation
  import opened Losses
  import opened Heartbeat
  import Heap

  class TxPool {
    const cfg: Config
    const lookup: TxLookup
    const priced: TxPricedList
    var pending: Lists
    var queue: Lists
    var beats: map<Address, int>
    var clock: int
    var noncer: Noncer
    var state: ChainState
    var gasPrice: int
    var locals: set<Address>

    /** Everything but the price heap's bookkeeping. */
    ghost predicate Base()
      reads this, lookup, priced
    {
      && priced.lookup == lookup && cfg.Sane()
      && Consistent(pending, queue, lookup.all)
      && lookup.Valid() && Heap.IsHeap(priced.items, PriceRank)
      && noncer.fallback == state.nonce
    }

    /** What holds between operations: the views agree and the heap tracks the lookup. */
    ghost predicate Valid()
      reads this, lookup, priced
    {
      Base() && priced.Tracking(lookup.all, 0)
    }

    ghost function View(a: Address): Acct
      reads this
    {
      Acct(ItemsOf(pending, a), ItemsOf(queue, a), noncer.Get(a), PulseOf(beats, clock, a))
    }

    /** The pool as it is, detached from it. */
    ghost function Now(): Snap
      reads this, lookup, priced
    {
      Snap(lookup.all, lookup.slots, priced.items, locals, ViewsOf(pending, queue, noncer, beats, clock))
    }

    /** .. and with everything else that later events depend on. */
    ghost function Here(): Moment
      reads this, lookup, priced
    {
      Moment(Now(), priced.stales, state, gasPrice, pending, queue, beats, clock)
    }

    /** Every account's pending nonces are gapless and counted by its virtual nonce. */
    ghost predicate AllGapless()
      reads this
    {
      forall a :: Gapless(View(a), state.For(a))
    }

    /** A new pool is empty, and its virtual nonces are those of the chain state. */
    constructor (cfg: Config, state: ChainState, priceLimit: nat, locals: set<Address>, clock: int)
      requires cfg.Sane()
      ensures Valid() && fresh(lookup) && fresh(priced)
      ensures this.cfg == cfg && this.state == state && this.locals == locals && gasPrice == priceLimit
      ensures this.clock == clock
      ensures forall a :: View(a) == Acct(map[], map[], state.nonce(a), Pulse(None, clock))
      ensures lookup.all == {} && priced.items == []
    {
      this.cfg, this.state, this.locals, gasPrice, this.clock := cfg, state, locals, priceLimit, clock;
      pending, queue, beats, noncer := map[], map[], map[], Noncer(state.nonce, map[]);
      var all := new TxLookup();
      lookup := all;
      priced := new TxPricedList(all);
    }

    /** Takes every transaction of `m` out of the lookup; the price heap is told later. */
    method UnlistAll(m: TxMap, ghost debt: nat)
      requires Keyed(m) && Txs(m) <= lookup.all && lookup.Valid() && priced.Tracking(lookup.all, debt)
      modifies lookup
      ensures lookup.Valid() && lookup.all == old(lookup.all) - Txs(m)
      ensures priced.Tracking(lookup.all, debt + |m|)
    {
      hide TxLookup.Valid, Tracks;
      TxsSize(m);
      TracksRemoval(lookup.all, priced.items, priced.stales, debt, Txs(m));
      var todo := Txs(m);
      while todo != {}
        invariant todo <= lookup.all && todo <= Txs(m) && lookup.Valid()
        invariant lookup.all == old(lookup.all) - (Txs(m) - todo)
      {
        var tx :| tx in todo;
        lookup.Remove(tx);
        todo := todo - {tx};
      }
    }

    /** Puts a transaction into its sender's queue, replacing one that it outbids. */
    method EnqueueTx(tx: Tx) returns (inserted: bool, replaced: bool)
      requires priced.lookup == lookup && lookup.Valid() && Heap.IsHeap(priced.items, PriceRank)
      requires tx.nonce in ItemsOf(queue, tx.sender) ==> ItemsOf(queue, tx.sender)[tx.nonce] in lookup.all
      modifies this`queue, this`beats, lookup, priced
      ensures inserted == Accepts(ListOf(old(queue), tx.sender, false), tx, cfg.priceBump)
      ensures replaced <==> inserted && tx.nonce in ItemsOf(old(queue), tx.sender)
      ensures queue == if inserted then old(queue)[tx.sender := Added(ListOf(old(queue), tx.sender, false), tx)]
                       else old(queue)
      ensures lookup.all == if !inserted then old(lookup.all)
                            else old(lookup.all)
                                 - (if replaced then {ItemsOf(old(queue), tx.sender)[tx.nonce]} else {}) + {tx}
      ensures lookup.Valid() && Heap.IsHeap(priced.items, PriceRank)
      ensures beats == if inserted && tx.sender !in old(beats) then old(beats)[tx.sender := clock] else old(beats)
      ensures !replaced && (!inserted || tx in old(lookup.all)) ==>
                priced.items == old(priced.items) && priced.stales == old(priced.stales)
      ensures inserted && !replaced && tx !in old(lookup.all) ==>
                multiset(priced.items) == multiset(old(priced.items)) + multiset{tx}
      ensures old(priced.Tracking(lookup.all, 0)) ==> priced.Tracking(lookup.all, 0)
    {
      hide Heap.IsHeap, TxLookup.Valid, Accepts, Added, Tracks;
      var from := tx.sender;
      var list := ListOf(queue, from, false);
      replaced := false;
      inserted := Accepts(list, tx, cfg.priceBump);
      if !inserted {
        NewListAccepts(queue, tx, cfg.priceBump, false);
        return;
      }
      queue := queue[from := Added(list, tx)];
      if tx.nonce in list.items {
        replaced := true;
        Forget(list.items[tx.nonce]);
      }
      if tx !in lookup.all {
        Learn(tx);
      }
      if from !in beats {
        beats := beats[from := clock];
      }
    }

    /** Moves known transactions of one account into its queue. */
    method EnqueueAll(a: Address, m: TxMap)
      requires priced.lookup == lookup && lookup.Valid() && Heap.IsHeap(priced.items, PriceRank)
      requires Owned(m, a) && m.Keys !! ItemsOf(queue, a).Keys && Txs(m) <= lookup.all
      requires Shape(queue, a, false) && NoEmpty(queue, a)
      modifies this`queue, this`beats, lookup, priced
      ensures ItemsOf(queue, a) == ItemsOf(old(queue), a) + m && SameBut(old(queue), queue, a)
      ensures Shape(queue, a, false) && NoEmpty(queue, a)
      ensures beats == if m == map[] || a in old(beats) then old(beats) else old(beats)[a := clock]
      ensures lookup.all == old(lookup.all) && lookup.Valid()
      ensures priced.items == old(priced.items) && priced.stales == old(priced.stales)
    {
      hide *;
      ghost var q0 := queue;
      var todo: TxMap := m;
      MoveStarts(q0, a, m);
      while todo != map[]
        invariant Within(todo, m) && Moving(q0, queue, a, m, todo)
        invariant beats == if todo == m || a in old(beats) then old(beats) else old(beats)[a := clock]
        invariant Shape(queue, a, false) && NoEmpty(queue, a) && Txs(m) <= lookup.all
        invariant lookup.all == old(lookup.all) && lookup.Valid()
        invariant priced.items == old(priced.items) && priced.stales == old(priced.stales)
        decreases |todo|
      {
        var n := MinNonce(todo);
        DropSize(todo, n);
        MoveStep(q0, queue, a, m, todo, n, cfg.priceBump, false);
        Shrinks(todo, m, n);
        var inserted, replaced := EnqueueTx(todo[n]);
        assert lookup.all == old(lookup.all);
        todo := Drop(todo, n);
      }
      MoveEnds(q0, queue, a, m);
    }

    /** Puts a transaction into the pending list of its sender and moves the virtual nonce
        past it, unless an older one with the same nonce is better. */
    method PromoteTx(a: Address, tx: Tx) returns (inserted: bool)
      requires priced.lookup == lookup && lookup.Valid() && Heap.IsHeap(priced.items, PriceRank)
      requires a == tx.sender && (tx in lookup.all || Accepts(ListOf(pending, a, true), tx, cfg.priceBump))
      requires tx.nonce in ItemsOf(pending, a) ==> ItemsOf(pending, a)[tx.nonce] in lookup.all
      modifies this`pending, this`beats, this`noncer, lookup, priced
      ensures inserted == Accepts(ListOf(old(pending), a, true), tx, cfg.priceBump)
      ensures pending == if inserted then old(pending)[a := Added(ListOf(old(pending), a, true), tx)] else old(pending)
      ensures noncer == if inserted then old(noncer).Set(a, tx.nonce + 1) else old(noncer)
      ensures lookup.all == if !inserted then old(lookup.all) - {tx}
                            else old(lookup.all)
                                 - (if tx.nonce in ItemsOf(old(pending), a)
                                    then {ItemsOf(old(pending), a)[tx.nonce]} else {})
                                 + {tx}
      ensures lookup.Valid() && Heap.IsHeap(priced.items, PriceRank)
      ensures beats == if inserted then old(beats)[a := clock] else old(beats)
      ensures tx.nonce !in ItemsOf(old(pending), a) && tx in old(lookup.all) ==>
                priced.items == old(priced.items) && priced.stales == old(priced.stales)
    {
      hide Heap.IsHeap, TxLookup.Valid, Accepts, Added, Tracks;
      var list := ListOf(pending, a, true);
      if tx.nonce !in list.items {
        FreeNonceAccepts(list, tx, cfg.priceBump);
      }
      inserted := Accepts(list, tx, cfg.priceBump);
      if !inserted {
        Forget(tx);
        return;
      }
      pending := pending[a := Added(list, tx)];
      if tx.nonce in list.items {
        Forget(list.items[tx.nonce]);
      }
      if tx !in lookup.all {
        Learn(tx);
      }
      noncer := noncer.Set(a, tx.nonce + 1);
      beats := beats[a := clock];
    }

    /** Promotes known transactions with free nonces, in nonce order. */
    method PromoteAll(a: Address, m: TxMap)
      requires priced.lookup == lookup && lookup.Valid() && Heap.IsHeap(priced.items, PriceRank)
      requires Owned(m, a) && m.Keys !! ItemsOf(pending, a).Keys && Txs(m) <= lookup.all
      requires Shape(pending, a, true) && NoEmpty(pending, a)
      modifies this`pending, this`beats, this`noncer, lookup, priced
      ensures ItemsOf(pending, a) == ItemsOf(old(pending), a) + m && SameBut(old(pending), pending, a)
      ensures Shape(pending, a, true) && NoEmpty(pending, a)
      ensures noncer.fallback == old(noncer.fallback)
      ensures noncer.Get(a) == if m == map[] then old(noncer).Get(a) else MaxNonce(m) + 1
      ensures forall b :: b != a ==> noncer.Get(b) == old(noncer).Get(b)
      ensures beats == if m == map[] then old(beats) else old(beats)[a := clock]
      ensures lookup.all == old(lookup.all) && lookup.Valid()
      ensures priced.items == old(priced.items) && priced.stales == old(priced.stales)
    {
      hide *;
      ghost var p0 := pending;
      var todo: TxMap := m;
      MoveStarts(p0, a, m);
      NoncerStarts(noncer, a, m);
      while todo != map[]
        invariant Within(todo, m) && Moving(p0, pending, a, m, todo)
        invariant Shape(pending, a, true) && NoEmpty(pending, a) && Txs(m) <= lookup.all
        invariant lookup.all == old(lookup.all) && lookup.Valid()
        invariant priced.items == old(priced.items) && priced.stales == old(priced.stales)
        invariant NoncerMoved(old(noncer), noncer, a, m, todo)
        invariant beats == if todo == m then old(beats) else old(beats)[a := clock]
        decreases |todo|
      {
        var n := MinNonce(todo);
        DropSize(todo, n);
        MoveStep(p0, pending, a, m, todo, n, cfg.priceBump, true);
        NoncerStep(old(noncer), noncer, a, m, todo, n);
        Shrinks(todo, m, n);
        var inserted := PromoteTx(a, todo[n]);
        assert lookup.all == old(lookup.all);
        todo := Drop(todo, n);
      }
      MoveEnds(p0, pending, a, m);
      NoncerEnds(old(noncer), noncer, a, m);
    }

    /** `priced.Removed`, which settles `count` removals. */
    method Announce(count: nat)
      requires priced.lookup == lookup && priced.Tracking(lookup.all, count)
      modifies priced
      ensures priced.Tracking(lookup.all, 0)
    {
      hide Tracks;
      priced.Removed(count);
      assert old(priced.Tracking(priced.lookup.all, count)) && count <= count ==>
               priced.Tracking(priced.lookup.all, count - count);
    }

    /** Drops the queued transactions that are stale or cost too much. */
    method DropUnusable(a: Address, l: ListValue, ghost p: TxMap) returns (list: ListValue, count: nat)
      requires lookup.Valid() && priced.Tracking(lookup.all, 0)
      requires Capped(l) && !l.strict && Holds(p, l.items, map[], lookup.all, a)
      modifies lookup
      ensures lookup.Valid() && priced.Tracking(lookup.all, count) && SameTxsBut(old(lookup.all), lookup.all, a)
      ensures list.items == Reject(From(l.items, state.For(a).nonce), state.For(a).Over())
      ensures Capped(list) && !list.strict && Holds(p, list.items, map[], lookup.all, a)
    {
      hide *;
      var lim := state.For(a);
      var forwards := Below(l.items, lim.nonce);
      ForwardQueue(p, l, lookup.all, a, lim);
      list := l.(items := From(l.items, lim.nonce));
      UnlistAll(forwards, 0);
      var drops := FilterRemoved(list, lim.balance, lim.maxGas);
      FilterQueue(p, list, lookup.all, a, lim);
      list := Filtered(list, lim.balance, lim.maxGas);
      UnlistAll(drops, |forwards|);
      count := |forwards| + |drops|;
      OwnTxs2(old(lookup.all), forwards, drops, a);
    }

    /** Caps the queue of a remote account and announces all removals. */
    method CapAndAnnounce(a: Address, l: ListValue, count: nat, ghost p: TxMap) returns (list: ListValue)
      requires priced.lookup == lookup && lookup.Valid() && priced.Tracking(lookup.all, count)
      requires Capped(l) && !l.strict && Holds(p, l.items, map[], lookup.all, a)
      modifies lookup, priced
      ensures lookup.Valid() && priced.Tracking(lookup.all, 0) && SameTxsBut(old(lookup.all), lookup.all, a)
      ensures list.items == if a in locals then l.items else Lowest(l.items, cfg.accountQueue)
      ensures Capped(list) && !list.strict && Holds(p, list.items, map[], lookup.all, a)
    {
      hide *;
      list := l;
      var caps: TxMap := map[];
      NoTxs(lookup.all, a);
      if a !in locals {
        CapQueue(p, l, lookup.all, a, cfg.accountQueue);
        list := l.(items := Lowest(l.items, cfg.accountQueue));
        caps := Dropped(l.items, list.items);
        UnlistAll(caps, count);
        OwnTxs2(old(lookup.all), caps, map[], a);
      }
      Announce(count + |caps|);
    }

    /** Takes the queue of `a` through a round of `promoteExecutables`, short of storing it. */
    method PromoteList(a: Address) returns (list: ListValue)
      requires Valid() && a in queue
      modifies this`pending, this`beats, this`noncer, lookup, priced
      ensures lookup.Valid() && priced.Tracking(lookup.all, 0) && SameTxsBut(old(lookup.all), lookup.all, a)
      ensures SameBut(old(pending), pending, a) && Shape(pending, a, true) && NoEmpty(pending, a)
      ensures Capped(list) && !list.strict && Holds(ItemsOf(pending, a), list.items, map[], lookup.all, a)
      ensures noncer.fallback == old(noncer.fallback) && forall b :: b != a ==> noncer.Get(b) == old(noncer).Get(b)
      ensures Acct(ItemsOf(pending, a), list.items, noncer.Get(a), Kept(list.items, beats, clock, a))
           == Promote(old(View(a)), state.For(a), QueueCap(cfg, locals, a))
      ensures SameBeats(old(beats), beats, a)
    {
      hide Heap.IsHeap, TxLookup.Valid, Tracks, Consistent, Holds, Shape, NoEmpty, From, SameBut, SameTxsBut, Owned,
           Txs,
           ReadyRun, AfterReady, Lowest, Capped, Reject, Promote, Noncer.Get;
      ConsistentAt(pending, queue, lookup.all, a);
      ListIsCapped(queue, a, false);
      ghost var c, lim, all0 := View(a), state.For(a), lookup.all;
      var count;
      list, count := DropUnusable(a, queue[a], c.pending);
      ghost var payable, all1 := list.items, lookup.all;

      var readies := ReadyRun(list.items, noncer.Get(a));
      ReadyQueue(c.pending, list, lookup.all, a, noncer.Get(a));
      list := list.(items := AfterReady(list.items, noncer.Get(a)));
      TracksIsHeap(lookup.all, priced.items, priced.stales, count);
      PromoteAll(a, readies);
      LandAllPending(c.pending, list.items, readies, lookup.all, a);

      list := CapAndAnnounce(a, list, count, c.pending + readies);
      SameTxsTransitive(all0, all1, lookup.all, a);
      HasQueue(queue, a);
      PromoteIs(c, lim, QueueCap(cfg, locals, a),
                Acct(ItemsOf(pending, a), list.items, noncer.Get(a),
                     Kept(list.items, beats, clock, a)), payable, readies);
    }

    /** One round of `promoteExecutables`. */
    method PromoteAccount(a: Address)
      requires Valid()
      modifies this`pending, this`queue, this`beats, this`noncer, lookup, priced
      ensures Valid()
      ensures View(a) == Promote(old(View(a)), state.For(a), QueueCap(cfg, locals, a))
      ensures forall b :: b != a ==> View(b) == old(View(b))
    {
      hide Heap.IsHeap, TxLookup.Valid, Tracks, Consistent, Holds, Shape, NoEmpty, SameBut, SameTxsBut, Capped, Store;
      hide Promote, Noncer.Get;
      if a !in queue {
        NothingToPromote(View(a), state.For(a), QueueCap(cfg, locals, a));
        return;
      }
      ghost var p0, q0, all0 := pending, queue, lookup.all;
      var list := PromoteList(a);
      Stored(queue, a, list, false);
      queue := Store(queue, a, list);
      if list.items == map[] {
        beats := beats - {a};
      }
      SameItems(p0, pending, a);
      SameItems(q0, queue, a);
      Reassemble(p0, q0, all0, pending, queue, lookup.all, a);
      TracksIsHeap(lookup.all, priced.items, priced.stales, 0);
    }

    /** Moves what has become executable from the queues of the given accounts to pending. */
    method PromoteExecutables(accounts: set<Address>)
      requires Valid()
      modifies this`pending, this`queue, this`beats, this`noncer, lookup, priced
      ensures Valid()
      ensures forall a :: View(a) == if a in accounts
                                     then Promote(old(View(a)), state.For(a), QueueCap(cfg, locals, a))
                                     else old(View(a))
    {
      hide Base, TxPricedList.Tracking, Promote;
      var todo := accounts;
      while todo != {}
        invariant todo <= accounts && Valid()
        invariant forall a :: View(a) == if a in accounts - todo
                                         then Promote(old(View(a)), state.For(a), QueueCap(cfg, locals, a))
                                         else old(View(a))
      {
        var a :| a in todo;
        PromoteAccount(a);
        todo := todo - {a};
      }
    }

    /** Drops the pending transactions of `a` that are included already or cost too much.
        Those stranded behind them are returned, still known to the lookup. */
    method DropUnexecutable(a: Address) returns (list: ListValue, stranded: TxMap)
      requires Valid() && a in pending
      modifies lookup, priced
      ensures lookup.Valid() && priced.Tracking(lookup.all, 0) && SameTxsBut(old(lookup.all), lookup.all, a)
      ensures Capped(list) && list.strict && list.items == Payable(ItemsOf(pending, a), state.For(a))
      ensures stranded == Postponed(ItemsOf(pending, a), state.For(a))
      ensures Holds(list.items, ItemsOf(queue, a), stranded, lookup.all, a)
    {
      hide Heap.IsHeap, TxLookup.Valid, Tracks, Consistent, Holds, Shape, NoEmpty, From, Below, SameTxsBut, Owned,
           Txs, Keyed,
           Capped, Payable, Postponed, FilterRemoved, FilterInvalids, Filtered;
      ConsistentAt(pending, queue, lookup.all, a);
      ListIsCapped(pending, a, true);
      var lim := state.For(a);
      list := pending[a];
      ghost var q := ItemsOf(queue, a);
      var olds := Below(list.items, lim.nonce);
      ForwardPending(list, q, lookup.all, a, lim);
      list := list.(items := From(list.items, lim.nonce));
      UnlistAll(olds, 0);
      var drops := FilterRemoved(list, lim.balance, lim.maxGas);
      stranded := FilterInvalids(list, lim.balance, lim.maxGas);
      FilterPending(pending[a].items, list, q, lookup.all, a, lim);
      list := Filtered(list, lim.balance, lim.maxGas);
      UnlistAll(drops, |olds|);
      OwnTxs2(old(lookup.all), olds, drops, a);
      Announce(|olds| + |drops|);
    }

    /** Takes the pending list of `a` through a round of `demoteUnexecutables`, short of storing it. */
    method DemoteList(a: Address) returns (list: ListValue)
      requires Valid() && a in pending
      modifies this`queue, this`beats, lookup, priced
      ensures lookup.Valid() && priced.Tracking(lookup.all, 0) && SameTxsBut(old(lookup.all), lookup.all, a)
      ensures SameBut(old(queue), queue, a) && Shape(queue, a, false) && NoEmpty(queue, a)
      ensures Capped(list) && list.strict && Holds(list.items, ItemsOf(queue, a), map[], lookup.all, a)
      ensures Acct(list.items, ItemsOf(queue, a), noncer.Get(a), PulseOf(beats, clock, a))
           == Demote(old(View(a)), state.For(a))
      ensures SameBeats(old(beats), beats, a)
    {
      hide Heap.IsHeap, TxLookup.Valid, Tracks, Consistent, Holds, Shape, NoEmpty, SameBut, SameTxsBut, Capped, Store,
           Owned, Txs, Payable, Postponed, Demote, PulseOf, Noncer.Get, SameBeats;
      ghost var q0, c := queue, View(a);
      ConsistentAt(pending, q0, lookup.all, a);
      var stranded;
      list, stranded := DropUnexecutable(a);
      TracksIsHeap(lookup.all, priced.items, priced.stales, 0);
      HoldsApart(list.items, ItemsOf(queue, a), stranded, lookup.all, a);
      ghost var kept := list.items;
      EnqueueAll(a, stranded);
      LandAllQueued(list.items, ItemsOf(q0, a), stranded, lookup.all, a);
      if list.items != map[] && state.nonce(a) !in list.items {
        var gapped := list.items;
        FloatAllPending(list, ItemsOf(queue, a), lookup.all, a);
        ghost var q1 := queue;
        EnqueueAll(a, gapped);
        SameButTransitive(q0, q1, queue, a);
        LandAllQueued(map[], ItemsOf(q1, a), gapped, lookup.all, a);
        list := list.(items := map[]);
      }
      OneHeard(old(beats), beats, clock, a);
      BeatsOfOthers(old(beats), beats, clock, a);
      DemoteIs(c, state.For(a), kept, stranded,
               Acct(list.items, ItemsOf(queue, a), noncer.Get(a), PulseOf(beats, clock, a)));
    }

    /** One round of `demoteUnexecutables`. */
    method DemoteAccount(a: Address)
      requires Valid() && a in pending
      modifies this`pending, this`queue, this`beats, lookup, priced
      ensures Valid() && SameBut(old(pending), pending, a)
      ensures View(a) == Demote(old(View(a)), state.For(a))
      ensures forall b :: b != a ==> View(b) == old(View(b))
    {
      hide Heap.IsHeap, TxLookup.Valid, Tracks, Consistent, Holds, Shape, NoEmpty, SameBut, SameTxsBut, Capped, Store,
           Demote, Noncer.Get;
      ghost var p0, q0, all0 := pending, queue, lookup.all;
      ConsistentAt(p0, q0, all0, a);
      var list := DemoteList(a);
      TracksIsHeap(lookup.all, priced.items, priced.stales, 0);
      Stored(pending, a, list, true);
      pending := Store(pending, a, list);
      SameItems(p0, pending, a);
      SameItems(q0, queue, a);
      Reassemble(p0, q0, all0, pending, queue, lookup.all, a);
    }

    /** Drops pending transactions the new head made invalid; what they leave stranded, and
        lists with a gap in front, go back to the queue. */
    method DemoteUnexecutables()
      requires Valid()
      modifies this`pending, this`queue, this`beats, lookup, priced
      ensures Valid()
      ensures forall a :: View(a) == if a in old(pending) then Demote(old(View(a)), state.For(a)) else old(View(a))
    {
      hide Base, TxPricedList.Tracking, Demote;
      var todo := pending.Keys;
      while todo != {}
        invariant todo <= pending.Keys && todo <= old(pending).Keys && Valid()
        invariant forall a :: View(a) == if a in old(pending).Keys - todo then Demote(old(View(a)), state.For(a))
                                         else old(View(a))
      {
        var a :| a in todo;
        DemoteAccount(a);
        todo := todo - {a};
      }
    }

    /** Removes one transaction; pending ones behind it fall back into the queue. */
    method RemoveTx(tx: Tx, outofbound: bool)
      requires Base()
      modifies this`pending, this`queue, this`beats, this`noncer, lookup, priced
      ensures Base() && lookup.all == old(lookup.all) - {tx}
      ensures forall a :: View(a) == if tx in old(lookup.all) && a == tx.sender then Remove(old(View(a)), tx.nonce)
                                     else old(View(a))
      ensures !outofbound ==> priced.items == old(priced.items) && priced.stales == old(priced.stales)
      ensures outofbound && old(priced.Tracking(lookup.all, 0)) ==> priced.Tracking(lookup.all, 0)
    {
      hide Heap.IsHeap, TxLookup.Valid, Tracks, Consistent, Holds, Shape, NoEmpty, Below, From, Drop, SameBut;
      hide SameTxsBut;
      if tx !in lookup.all {
        return;
      }
      ghost var a, p0, q0, all0 := tx.sender, pending, queue, lookup.all;
      ConsistentAt(p0, q0, all0, a);
      RemoveByNonce(ItemsOf(p0, a), ItemsOf(q0, a), all0, a, tx);
      if outofbound {
        Forget(tx);
      } else {
        lookup.Remove(tx);
      }
      OwnTxs(all0, {tx}, a);
      if tx.sender in pending && tx.nonce in pending[tx.sender].items {
        RemovePending(tx.sender, tx.nonce);
      } else {
        HasQueue(queue, a);
        RemoveFuture(tx.sender, tx.nonce);
      }
      SameItems(p0, pending, a);
      SameItems(q0, queue, a);
      Reassemble(p0, q0, all0, pending, queue, lookup.all, a);
    }

    /** The part of `removeTx` for a pending transaction, which the lookup has forgotten. */
    method RemovePending(a: Address, n: nat)
      requires priced.lookup == lookup && lookup.Valid() && Heap.IsHeap(priced.items, PriceRank)
      requires a in pending && n in pending[a].items && Shape(pending, a, true) && Shape(queue, a, false)
      requires NoEmpty(queue, a)
      requires Holds(Below(ItemsOf(pending, a), n), ItemsOf(queue, a), From(ItemsOf(pending, a), n + 1), lookup.all, a)
      modifies this`pending, this`queue, this`beats, this`noncer, lookup, priced
      ensures View(a) == Remove(old(View(a)), n) && noncer == old(noncer).SetIfLower(a, n)
      ensures Holds(ItemsOf(pending, a), ItemsOf(queue, a), map[], lookup.all, a)
      ensures Shape(pending, a, true) && NoEmpty(pending, a) && Shape(queue, a, false) && NoEmpty(queue, a)
      ensures SameBut(old(pending), pending, a) && SameBut(old(queue), queue, a) && SameBeats(old(beats), beats, a)
      ensures lookup.all == old(lookup.all) && lookup.Valid()
      ensures priced.items == old(priced.items) && priced.stales == old(priced.stales)
    {
      hide Heap.IsHeap, TxLookup.Valid, Holds, Shape, NoEmpty, Below, From, SameBut, Removed, RemoveInvalids, Owned;
      hide Txs;
      var list, invalids := Removed(pending[a], n), RemoveInvalids(pending[a], n);
      RemovedFromPending(pending, a, n);
      HoldsApart(list.items, ItemsOf(queue, a), invalids, lookup.all, a);
      pending := Store(pending, a, list);
      EnqueueAll(a, invalids);
      LandAllQueued(list.items, ItemsOf(old(queue), a), invalids, lookup.all, a);
      noncer := noncer.SetIfLower(a, n);
    }

    /** The part of `removeTx` for a queued transaction. */
    method RemoveFuture(a: Address, n: nat)
      requires a in queue && n !in ItemsOf(pending, a) && Shape(queue, a, false) && ItemsOf(queue, a) != map[]
      modifies this`queue, this`beats
      ensures View(a) == Remove(old(View(a)), n) && SameBut(old(queue), queue, a) && SameBut(pending, pending, a)
      ensures Shape(queue, a, false) && NoEmpty(queue, a) && SameBeats(old(beats), beats, a)
    {
      hide Shape, NoEmpty, SameBut, Removed;
      var list := Removed(queue[a], n);
      RemovedFromQueue(queue, a, n);
      SameAsBefore(pending, a);
      queue := Store(queue, a, list);
      if list.items == map[] {
        beats := beats - {a};
      }
    }

    function RulesNow(): Rules
      reads this
    {
      Rules(cfg, state, gasPrice)
    }

    /** `validateTx`, for a transaction whose signature has been checked. */
    function Validate(tx: Tx, local: bool): Option<Error>
      reads this
    {
      Validation(RulesNow(), locals, tx, local)
    }

    /** Removes a transaction that was already taken off the price heap, maybe twice. */
    method DropOne(d: Tx)
      requires Base() && (d in lookup.all || Gone(View(d.sender), d.nonce))
      modifies this`pending, this`queue, this`beats, this`noncer, lookup, priced
      ensures Base() && lookup.all == old(lookup.all) - {d} && priced.items == old(priced.items)
      ensures priced.stales == old(priced.stales)
      ensures forall a :: View(a) == if a == d.sender then Remove(old(View(a)), d.nonce) else old(View(a))
      ensures Gone(View(d.sender), d.nonce) && forall a, n: nat :: old(Gone(View(a), n)) ==> Gone(View(a), n)
      ensures old(AllGapless()) ==> AllGapless()
    {
      hide Base, Tracks, Remove, Gapless, Gone, ItemsOf, Noncer.Get;
      if AllGapless() {
        RemoveKeepsGapless(View(d.sender), d.nonce, state.For(d.sender));
      }
      ListsApart(d);
      RemoveStaysGone(View(d.sender), d);
      RemoveTx(d, false);
    }

    /** Removes transactions that were already taken off the price heap. */
    method DropAll(drop: seq<Tx>)
      requires Base() && priced.Tracking(lookup.all - Elements(drop), 0) && forall d :: d in drop ==> d in lookup.all
      modifies this`pending, this`queue, this`beats, this`noncer, lookup, priced
      ensures Valid() && lookup.all == old(lookup.all) - Elements(drop)
      ensures forall a :: View(a) == Without(old(View(a)), drop, a)
      ensures old(AllGapless()) ==> AllGapless()
    {
      hide Base, Tracks, Elements, Remove, AllGapless, Gone, ItemsOf, Noncer.Get;
      ElementsMember(drop[..0]);
      for i := 0 to |drop|
        invariant Base() && lookup.all == old(lookup.all) - Elements(drop[..i])
        invariant priced.items == old(priced.items) && priced.stales == old(priced.stales)
        invariant old(AllGapless()) ==> AllGapless()
        invariant forall a :: View(a) == Without(old(View(a)), drop[..i], a)
        invariant forall k :: 0 <= k < i ==> Gone(View(drop[k].sender), drop[k].nonce)
      {
        assert drop[..i + 1] == drop[..i] + [drop[i]] && drop[..i + 1][..i] == drop[..i];
        ElementsAppend(drop[..i], drop[i]);
        ElementsMember(drop[..i]);
        DropOne(drop[i]);
      }
      assert drop[..|drop|] == drop;
    }

    lemma NowShows()
      ensures forall a :: Now().views(a) == View(a)
    {}

    lemma ListsApart(tx: Tx)
      requires Base()
      ensures View(tx.sender).pending.Keys !! View(tx.sender).queue.Keys
      ensures tx in lookup.all <==> Has(View(tx.sender).pending, tx) || Has(View(tx.sender).queue, tx)
    {
      ConsistentAt(pending, queue, lookup.all, tx.sender);
    }

    /** When the pool is full: turns away a remote transaction that is no dearer than the
        cheapest one, and otherwise discards the cheapest remote transactions. */
    method MakeRoom(tx: Tx, local: bool) returns (refused: Option<AddResult>, ghost drop: seq<Tx>)
      requires Valid() && tx !in lookup.all
      modifies this`pending, this`queue, this`beats, this`noncer, lookup, priced
      ensures Valid() && lookup.all == old(lookup.all) - Elements(drop)
      ensures forall a :: View(a) == Without(old(View(a)), drop, a)
      ensures old(AllGapless()) ==> AllGapless()
      ensures refused == if Cheapest(RulesNow(), old(Now()), tx, local) then Some(Rejected(Underpriced))
                         else if Panics(RulesNow(), old(Now()), tx, local) then Some(Panicked) else None
      ensures if refused == None && Full(RulesNow(), old(Now()))
              then MakesRoom(old(lookup.all), locals,
                             DiscardGoal(HeapFor(old(Now()), tx, local), Request(RulesNow(), old(Now()), tx), locals),
                             drop)
              else drop == []
      ensures !Full(RulesNow(), old(Now())) ==> priced.items == old(priced.items)
    {
      hide Consistent, TxLookup.Valid, Heap.IsHeap, Tracks, NoBetter, Gapless, ItemsOf, Noncer.Get, MakesRoom;
      hide DiscardGoal, StaleFree, SumSlots, Elements;
      drop, refused := [], None;
      NoElements();
      if |lookup.all| < cfg.globalSlots + cfg.globalQueue {
        return;
      }
      if !local {
        var under := priced.Underpriced(tx, locals);
        TracksIsHeap(lookup.all, priced.items, priced.stales, 0);
        if under {
          return Some(Rejected(Underpriced)), [];
        }
        SomethingPooled(lookup.all, cfg);
      }
      var panicked;
      panicked, drop := DiscardCheapest(tx);
      if panicked {
        refused := Some(Panicked);
      }
    }

    /** Discards as many cheap remote transactions as the pool has slots too many for `tx`. */
    method DiscardCheapest(tx: Tx) returns (panicked: bool, ghost drop: seq<Tx>)
      requires Valid() && |lookup.all| >= cfg.globalSlots + cfg.globalQueue
      modifies this`pending, this`queue, this`beats, this`noncer, lookup, priced
      ensures Valid() && lookup.all == old(lookup.all) - Elements(drop)
      ensures forall a :: View(a) == Without(old(View(a)), drop, a)
      ensures old(AllGapless()) ==> AllGapless()
      ensures panicked <==> locals == {} && Request(RulesNow(), old(Now()), tx) > |old(priced.items)|
      ensures if panicked then drop == [] else
              MakesRoom(old(lookup.all), locals,
                        DiscardGoal(old(priced.items), Request(RulesNow(), old(Now()), tx), locals), drop)
    {
      hide Consistent, Heap.IsHeap, Tracks, NoBetter, Gapless, ListSlots, DiscardPanics, OneEach, DiscardGoal;
      hide Elements, Distinct, ItemsOf, Noncer.Get;
      SlotsCoverCount(lookup.all);
      PanicsIff(priced.items, lookup.slots - (cfg.globalSlots + cfg.globalQueue) + NumSlots(tx), locals);
      var cheap;
      panicked, cheap := priced.Discard(lookup.slots - (cfg.globalSlots + cfg.globalQueue) + NumSlots(tx), locals);
      TracksIsHeap(lookup.all - Elements(cheap), priced.items, priced.stales, 0);
      drop := cheap;
      DropAll(cheap);
    }

    /** Replaces the pending transaction with the same nonce, if the new one outbids it. */
    method ReplacePending(tx: Tx) returns (inserted: bool)
      requires Valid() && tx !in lookup.all && tx.sender in pending && tx.nonce in pending[tx.sender].items
      modifies this`pending, this`beats, lookup, priced
      ensures Valid() && inserted == Outbids(tx, old(pending)[tx.sender].items[tx.nonce], cfg.priceBump)
      ensures View(tx.sender) == if inserted then AfterInsert(old(View(tx.sender)), tx) else old(View(tx.sender))
      ensures forall b :: b != tx.sender ==> View(b) == old(View(b))
      ensures lookup.all == if inserted then old(lookup.all) - {old(pending)[tx.sender].items[tx.nonce]} + {tx}
                            else old(lookup.all)
    {
      hide Heap.IsHeap, TxLookup.Valid, Tracks, Consistent, Holds, Shape, NoEmpty, SameBut, SameTxsBut, Outbids;
      hide Noncer.Get;
      var a := tx.sender;
      var list := pending[a];
      inserted := Accepts(list, tx, cfg.priceBump);
      if !inserted {
        return;
      }
      ghost var p0, all0 := pending, lookup.all;
      ConsistentAt(p0, queue, all0, a);
      ReplaceKeeps(p0, queue, all0, a, tx);
      Forget(list.items[tx.nonce]);
      Learn(tx);
      pending := pending[a := Added(list, tx)];
      beats := beats[a := clock];
      SameItems(p0, pending, a);
      SameAsBefore(queue, a);
      Reassemble(p0, queue, all0, pending, queue, lookup.all, a);
    }

    /** Queues a transaction that no pending one has the nonce of. */
    method AddToQueue(tx: Tx) returns (inserted: bool, replaced: bool)
      requires Valid() && tx !in lookup.all && tx.nonce !in View(tx.sender).pending
      modifies this`queue, this`beats, lookup, priced
      ensures Valid()
      ensures inserted <==> || tx.nonce !in old(View(tx.sender)).queue
                            || Outbids(tx, old(View(tx.sender)).queue[tx.nonce], cfg.priceBump)
      ensures replaced <==> inserted && tx.nonce in old(View(tx.sender)).queue
      ensures View(tx.sender) == if inserted then Enqueue(old(View(tx.sender)), tx) else old(View(tx.sender))
      ensures forall b :: b != tx.sender ==> View(b) == old(View(b))
      ensures lookup.all == if !inserted then old(lookup.all)
                            else old(lookup.all)
                                 - (if replaced then {old(View(tx.sender)).queue[tx.nonce]} else {}) + {tx}
      ensures inserted && !replaced ==> multiset(priced.items) == multiset(old(priced.items)) + multiset{tx}
    {
      hide Heap.IsHeap, TxLookup.Valid, Tracks, Consistent, Holds, Shape, NoEmpty, SameBut, SameTxsBut, Outbids;
      hide Noncer.Get;
      var a := tx.sender;
      ghost var q0, all0 := queue, lookup.all;
      ConsistentAt(pending, q0, all0, a);
      QueueKeeps(pending, q0, all0, a, tx);
      inserted, replaced := EnqueueTx(tx);
      if inserted {
        SameItems(q0, queue, a);
        SameAsBefore(pending, a);
        Reassemble(pending, q0, all0, pending, queue, lookup.all, a);
      }
    }

    /** The place of `tx` is held by what the sender's lists hold there. */
    lemma RivalsAre(tx: Tx)
      requires Base()
      ensures tx.nonce in View(tx.sender).pending ==> Rivals(lookup.all, tx) == {View(tx.sender).pending[tx.nonce]}
      ensures tx.nonce in View(tx.sender).queue ==> Rivals(lookup.all, tx) == {View(tx.sender).queue[tx.nonce]}
      ensures tx.nonce !in View(tx.sender).pending && tx.nonce !in View(tx.sender).queue ==>
                Rivals(lookup.all, tx) == {}
    {
      ConsistentAt(pending, queue, lookup.all, tx.sender);
      RivalsHeld(View(tx.sender).pending, View(tx.sender).queue, lookup.all, tx);
    }

    /** Pools a valid transaction: over a pending one with its nonce, or in the queue. */
    method Insert(tx: Tx, local: bool) returns (r: AddResult)
      requires Valid() && tx !in lookup.all && state.nonce(tx.sender) <= tx.nonce && !state.For(tx.sender).Over()(tx)
      modifies this`pending, this`queue, this`beats, this`locals, lookup, priced
      ensures Valid() && (old(AllGapless()) ==> AllGapless())
      ensures r == if Outbid(old(lookup.all), tx, cfg.priceBump) then Pooled(Rivals(old(lookup.all), tx) != {})
                   else Rejected(ReplaceUnderpriced)
      ensures lookup.all == if r.Pooled? then old(lookup.all) - Rivals(old(lookup.all), tx) + {tx} else old(lookup.all)
      ensures View(tx.sender) == if r.Pooled? then AfterInsert(old(View(tx.sender)), tx) else old(View(tx.sender))
      ensures forall b :: b != tx.sender ==> View(b) == old(View(b))
      ensures locals == if local && r.Pooled? && tx.nonce !in View(tx.sender).pending then old(locals) + {tx.sender}
                        else old(locals)
      ensures r == Pooled(false) ==> multiset(priced.items) == multiset(old(priced.items)) + multiset{tx}
    {
      hide Consistent, TxLookup.Valid, Heap.IsHeap, Tracks, Gapless, Enqueue, Noncer.Get, Outbids, Rivals;
      var from := tx.sender;
      if AllGapless() {
        AddKeepsGapless(View(from), tx, state.For(from));
      }
      RivalsAre(tx);
      if from in pending && tx.nonce in pending[from].items {
        var inserted := ReplacePending(tx);
        return if inserted then Pooled(true) else Rejected(ReplaceUnderpriced);
      }
      var inserted, replaced := AddToQueue(tx);
      if !inserted {
        return Rejected(ReplaceUnderpriced);
      }
      if local {
        locals := locals + {from};
      }
      r := Pooled(replaced);
    }

    /** The steps of `add`: look up, validate, make room, insert. */
    method Place(tx: Tx, local: bool) returns (r: AddResult, ghost drop: seq<Tx>)
      requires Valid()
      modifies this`pending, this`queue, this`beats, this`noncer, this`locals, lookup, priced
      ensures Valid() && (old(AllGapless()) ==> AllGapless())
      ensures AddStep(RulesNow(), old(Now()), tx, local, Insertion(r, drop), Now())
      ensures r.Pooled? ==> r.replaced == Occupied(Without(old(View(tx.sender)), drop, tx.sender), tx.nonce)
    {
      hide Base, Tracks, Gapless, ItemsOf, Noncer.Get, AfterInsert, Outbid, Rivals, MakesRoom, Cheapest, Panics,
           HeapFor, Elements, DiscardGoal, AllGapless, AddStep, Verdict, Validation, Full, Request, Without;
      drop := [];
      ghost var s := Now();
      NowShows();
      if tx in lookup.all {
        StepRefused(RulesNow(), s, tx, local, Rejected(AlreadyKnown), s);
        return Rejected(AlreadyKnown), [];
      }
      var err := Validate(tx, local);
      if err.Some? {
        StepRefused(RulesNow(), s, tx, local, Rejected(err.value), s);
        return Rejected(err.value), [];
      }
      ValidMeans(RulesNow(), locals, tx, local);
      var refused;
      refused, drop := MakeRoom(tx, local);
      ghost var s1 := Now();
      NowShows();
      if refused.Some? {
        StepKept(s, s1, drop);
        StepRefused(RulesNow(), s, tx, local, refused.value, s1);
        return refused.value, [];
      }
      RivalsAre(tx);
      r := Insert(tx, local);
      NowShows();
      StepTaken(RulesNow(), s, s1, tx, local, Insertion(r, drop), Now());
    }

    /** Validates a transaction and pools it. A full pool first makes room, which may hit
        other accounts. */
    method Add(tx: Tx, local: bool) returns (r: AddResult, ghost drop: seq<Tx>)
      requires Valid()
      modifies this`pending, this`queue, this`beats, this`noncer, this`locals, lookup, priced
      ensures Valid() && (old(AllGapless()) ==> AllGapless())
      ensures AddStep(RulesNow(), old(Now()), tx, local, Insertion(r, drop), Now())
      ensures old(Proper(lookup.all, locals, gasPrice)) ==> Proper(lookup.all, locals, gasPrice)
      ensures old(AllGapless()) ==>
                forall a :: old(Quiet(View(a))) ==> Quiet(View(a)) || (a == tx.sender && r == Pooled(false))
    {
      hide Base, Tracks, Gapless, ItemsOf, Noncer.Get, AddStep, Proper, Quiet, Without, Occupied;
      ghost var s, rules := Now(), RulesNow();
      NowShows();
      r, drop := Place(tx, local);
      NowShows();
      ghost var i := Insertion(r, drop);
      if Proper(s.all, s.locals, rules.gasPrice) {
        StepProper(rules, s, tx, local, i, Now());
      }
      forall a | Gapless(s.views(a), rules.state.For(a)) && Quiet(s.views(a))
        ensures Quiet(View(a)) || (a == tx.sender && r == Pooled(false)) {
        StepQuiet(rules, s, tx, local, i, Now(), a);
      }
    }

    /** Raises or lowers the price floor, dropping exactly the remote transactions below it. */
    method SetGasPrice(price: int) returns (ghost dropped: seq<Tx>)
      requires Valid()
      modifies this`gasPrice, this`pending, this`queue, this`beats, this`noncer, lookup, priced
      ensures Valid() && (old(AllGapless()) ==> AllGapless()) && PriceStep(old(Here()), price, dropped, Here())
    {
      hide Consistent, TxLookup.Valid, Heap.IsHeap, Tracks, Gapless, Elements;
      NowShows();
      gasPrice := price;
      var drop := priced.Cap(price, locals);
      TracksIsHeap(lookup.all - Elements(drop), priced.items, priced.stales, 0);
      ElementsMember(drop);
      DropAll(drop);
      NowShows();
      assert lookup.all == set tx | tx in old(lookup.all) && (tx.sender in locals || tx.price >= price);
      assert Elements(drop) == old(lookup.all) - lookup.all;
      dropped := drop;
    }

    /** Removes some queued transactions of one account, highest nonce first. */
    method RemoveQueued(a: Address, m: TxMap)
      requires Valid() && Within(m, View(a).queue)
      modifies this`pending, this`queue, this`beats, this`noncer, lookup, priced
      ensures Valid() && View(a) == Leave(old(View(a)), Dropped(old(View(a)).queue, m))
      ensures forall b :: b != a ==> View(b) == old(View(b))
    {
      hide Base, Tracks, Dropped, Within, Drop, MaxNonce;
      var todo: TxMap := m;
      ghost var c := View(a);
      QueueCutStarts(c.queue, m);
      while todo != map[]
        invariant Valid() && Within(todo, m) && View(a) == Leave(c, Dropped(c.queue, Dropped(m, todo)))
        invariant forall b :: b != a ==> View(b) == old(View(b))
        decreases |todo|
      {
        var n := MaxNonce(todo);
        DropSize(todo, n);
        QueuedKnown(a);
        QueueCutStep(c, m, todo, n);
        RemoveTx(todo[n], true);
        todo := Drop(todo, n);
      }
      QueueCutEnds(c.queue, m);
    }

    lemma QueuedKnown(a: Address)
      requires Base()
      ensures forall n :: n in View(a).queue ==> && View(a).queue[n] in lookup.all && View(a).queue[n].sender == a
                                                 && View(a).queue[n].nonce == n && n !in View(a).pending
    {
      ConsistentAt(pending, queue, lookup.all, a);
      assert forall n :: n in View(a).queue ==> Has(ItemsOf(queue, a), View(a).queue[n]);
    }

    /** The clock says something else. */
    method Tick(now: int)
      requires Valid()
      modifies `clock
      ensures Valid() && (old(AllGapless()) ==> AllGapless()) && ClockStep(old(Here()), now, Here())
    {
      hide Consistent, TxLookup.Valid, Heap.IsHeap, Tracks, Limits.Over, OverLimits;
      NowShows();
      clock := now;
      NowShows();
    }

    /** The eviction tick: remote accounts without a heartbeat for too long lose their queue. */
    method Evict(lifetime: nat)
      requires Valid()
      modifies this`pending, this`queue, this`beats, this`noncer, lookup, priced
      ensures Valid() && (old(AllGapless()) ==> AllGapless()) && EvictStep(old(Here()), lifetime, Here())
      ensures lookup.all <= old(lookup.all)
    {
      hide Base, Tracks, Gapless, Leave, ItemsOf, Noncer.Get, PulseOf, BeatOf, Listed;
      NowShows();
      AllListed();
      var todo := queue.Keys;
      ghost var done: set<Address> := {};
      while todo != {}
        invariant Valid() && todo + done == old(queue).Keys && todo !! done
        invariant forall a :: View(a) == if a in done && a !in locals && clock - BeatOf(old(beats), a) > lifetime
                                         then Leave(old(View(a)), map[]) else old(View(a))
      {
        var a :| a in todo;
        SameBeat(old(beats), beats, clock, a);
        if a !in locals && clock - BeatOf(beats, a) > lifetime {
          WholeQueue(View(a).queue);
          RemoveQueued(a, ItemsOf(queue, a));
        }
        todo, done := todo - {a}, done + {a};
      }
      if old(AllGapless()) {
        forall a ensures Gapless(View(a), state.For(a)) {
          FewerQueuedGapless(old(View(a)), map[], state.For(a));
        }
      }
      AllListed();
      NowShows();
      forall tx | tx in lookup.all ensures tx in old(lookup.all) {
        FewerListed(old(View(tx.sender)), tx);
        assert Listed(View(tx.sender), tx) && (Listed(old(View(tx.sender)), tx) ==> tx in old(lookup.all));
      }
    }

    /** Takes the pending transaction with the highest nonce off an account with several. */
    method DropLast(a: Address)
      requires Valid() && LenOf(pending, a) > 1
      modifies this`pending, this`noncer, lookup, priced
      ensures Valid() && SameBut(old(pending), pending, a) && LenOf(pending, a) == LenOf(old(pending), a) - 1
      ensures View(a) == Cut(old(View(a)), LenOf(old(pending), a) - 1)
      ensures forall b :: b != a ==> View(b) == old(View(b))
    {
      hide Heap.IsHeap, TxLookup.Valid, Tracks, Consistent, Holds, Shape, NoEmpty, SameBut, SameTxsBut, Owned, Txs;
      hide Keyed, Dropped, Lowest, Capped;
      ghost var p0, all0 := pending, lookup.all;
      ConsistentAt(p0, queue, all0, a);
      ListIsCapped(pending, a, true);
      var list := pending[a];
      var kept := Lowest(list.items, |list.items| - 1);
      var caps := Dropped(list.items, kept);
      CapPending(p0, ItemsOf(queue, a), all0, a, kept, caps);
      UnlistAll(caps, 0);
      noncer := noncer.SetIfLower(a, MinNonce(caps));
      Announce(|caps|);
      TracksIsHeap(lookup.all, priced.items, priced.stales, 0);
      pending := pending[a := list.(items := kept)];
      OwnTxs2(all0, caps, map[], a);
      SameItems(p0, pending, a);
      SameAsBefore(queue, a);
      Reassemble(p0, queue, all0, pending, queue, lookup.all, a);
    }

    /** One round over some accounts; returns the running total. */
    method ReduceAll(accounts: seq<Address>, total: nat) returns (count: nat)
      requires Valid() && total == SumLens(pending) && DistinctAddrs(accounts)
      requires forall i :: 0 <= i < |accounts| ==> LenOf(pending, accounts[i]) > 1
      modifies this`pending, this`noncer, lookup, priced
      ensures Valid() && count == SumLens(pending) && count == total - |accounts|
      ensures OneLess(old(pending), pending, accounts)
      ensures forall a :: OneCut(old(View(a)), View(a))
    {
      hide Base, Tracks, LenOf, SumLens, SameBut, Cut, OneCut, ItemsOf, Noncer.Get;
      count := total;
      forall a ensures OneCut(View(a), View(a)) { NotCut(View(a)); }
      for i := 0 to |accounts|
        invariant Valid() && count == SumLens(pending) && count == total - i
        invariant OneLess(old(pending), pending, accounts[..i])
        invariant forall a :: a !in accounts[..i] ==> View(a) == old(View(a))
        invariant forall a :: OneCut(old(View(a)), View(a))
      {
        var a := accounts[i];
        ghost var p := pending;
        assert a !in accounts[..i];
        ghost var c := View(a);
        DropLast(a);
        IsOneCut(c, View(a), p, a);
        SumLensUpdate(p, pending, a);
        SameLens(p, pending, a);
        assert accounts[..i + 1] == accounts[..i] + [a];
        count := count - 1;
      }
      assert accounts[..|accounts|] == accounts;
    }

    /** The spammer with the most transactions, as the priority queue hands it out. */
    method PopSpammer(spammers: set<Address>) returns (a: Address)
      requires spammers != {}
      ensures a in spammers && forall s :: s in spammers ==> LenOf(pending, s) <= LenOf(pending, a)
    {
      a :| a in spammers;
      var todo := spammers - {a};
      while todo != {}
        invariant todo <= spammers && a in spammers
        invariant forall s :: s in spammers - todo ==> LenOf(pending, s) <= LenOf(pending, a)
      {
        var b :| b in todo;
        if LenOf(pending, a) < LenOf(pending, b) {
          a := b;
        }
        todo := todo - {b};
      }
    }

    /** The first phase: picks offenders, largest first, and levels each batch down to the
        size of the next, until the total fits. */
    method EqualizeOffenders(total: nat, ghost p0: Lists, ghost views: Address -> Acct)
      returns (count: nat, offenders: seq<Address>, spammers: set<Address>)
      requires Valid() && total == SumLens(pending) && p0 == pending && forall a :: views(a) == View(a)
      modifies this`pending, this`noncer, lookup, priced
      ensures Valid() && count == SumLens(pending) && forall a :: Shrunk(views(a), View(a))
      ensures Picked(p0, pending, locals, cfg.accountSlots, offenders, spammers)
      ensures Equalizing(p0, pending, offenders, spammers)
      ensures count > cfg.globalSlots ==> spammers == {} && Level(pending, offenders)
      ensures Tight(p0, pending, cfg.globalSlots)
    {
      hide Tight, Base, Tracks, LenOf, SumLens, Cut, Shrunk, Picked, Equalizing, Level, High, OneLess, DistinctAddrs;
      hide ItemsOf, Noncer.Get;
      BaseIsSane();
      var slots := cfg.accountSlots;
      count, offenders, spammers := total, [], High(pending, locals, slots);
      PickingStarts(pending, locals, slots);
      NothingCut(pending, cfg.globalSlots);
      forall a ensures Shrunk(views(a), View(a)) { ShrunkRefl(View(a)); }
      while count > cfg.globalSlots && spammers != {}
        invariant Valid() && count == SumLens(pending) && forall a :: Shrunk(views(a), View(a))
        invariant Picked(p0, pending, locals, slots, offenders, spammers)
        invariant Equalizing(p0, pending, offenders, spammers)
        invariant (count > cfg.globalSlots ==> Level(pending, offenders)) && Tight(p0, pending, cfg.globalSlots)
        decreases |spammers|
      {
        var offender := PopSpammer(spammers);
        PickNext(p0, pending, locals, slots, offenders, spammers, offender);
        spammers := spammers - {offender};
        offenders := offenders + [offender];
        if |offenders| > 1 {
          var threshold := LenOf(pending, offender);
          while count > cfg.globalSlots && LenOf(pending, offenders[|offenders| - 2]) > threshold
            invariant Valid() && count == SumLens(pending) && forall a :: Shrunk(views(a), View(a))
            invariant Picked(p0, pending, locals, slots, offenders, spammers)
            invariant Equalizing(p0, pending, offenders, spammers)
            invariant threshold == LenOf(pending, offenders[|offenders| - 1]) && Tight(p0, pending, cfg.globalSlots)
            decreases count
          {
            count := EqualizeStep(offenders, spammers, count, p0, views);
          }
        }
        if count > cfg.globalSlots {
          Equalized(p0, pending, offenders, spammers);
        }
      }
    }

    lemma BaseIsSane()
      requires Base()
      ensures cfg.Sane()
    {}

    method EqualizeStep(offenders: seq<Address>, ghost spammers: set<Address>, total: nat, ghost p0: Lists,
                        ghost views: Address -> Acct)
      returns (count: nat)
      requires Valid() && total == SumLens(pending) && (forall a :: Shrunk(views(a), View(a))) && |offenders| > 1
      requires Picked(p0, pending, locals, cfg.accountSlots, offenders, spammers)
      requires Equalizing(p0, pending, offenders, spammers)
      requires LenOf(pending, offenders[|offenders| - 2]) > LenOf(pending, offenders[|offenders| - 1])
      requires LenOf(pending, offenders[|offenders| - 1]) > cfg.accountSlots
      requires total > cfg.globalSlots
      modifies this`pending, this`noncer, lookup, priced
      ensures Valid() && count == SumLens(pending) && count < total && forall a :: Shrunk(views(a), View(a))
      ensures Tight(p0, pending, cfg.globalSlots)
      ensures Picked(p0, pending, locals, cfg.accountSlots, offenders, spammers)
      ensures Equalizing(p0, pending, offenders, spammers)
      ensures LenOf(pending, offenders[|offenders| - 1]) == old(LenOf(pending, offenders[|offenders| - 1]))
    {
      hide Tight, Base, Tracks, SumLens, Shrunk, High, OneLess, LenOf, OneCut, ItemsOf, Noncer.Get;
      BaseIsSane();
      ghost var p1 := pending;
      var front := offenders[..|offenders| - 1];
      FrontIsLong(p0, pending, offenders, spammers);
      label before:
      count := ReduceAll(front, total);
      EqualizeRound(p0, p1, pending, locals, cfg.accountSlots, offenders, spammers);
      assert forall i :: 0 <= i < |front| ==> front[i] == offenders[i];
      TightRound(p0, p1, pending, locals, cfg.accountSlots, cfg.globalSlots, offenders, spammers, front);
      forall a ensures Shrunk(views(a), View(a)) {
        CutOne(views(a), old@before(View(a)), View(a));
      }
    }

    /** One round of the second phase of `truncatePending`. */
    method LowerStep(offenders: seq<Address>, total: nat, ghost p0: Lists, ghost views: Address -> Acct)
      returns (count: nat)
      requires Valid() && total == SumLens(pending) && (forall a :: Shrunk(views(a), View(a))) && |offenders| > 0
      requires Picked(p0, pending, locals, cfg.accountSlots, offenders, {}) && Level(pending, offenders)
      requires LenOf(pending, offenders[|offenders| - 1]) > cfg.accountSlots && total > cfg.globalSlots
      modifies this`pending, this`noncer, lookup, priced
      ensures Valid() && count == SumLens(pending) && count < total && forall a :: Shrunk(views(a), View(a))
      ensures Tight(p0, pending, cfg.globalSlots)
      ensures Picked(p0, pending, locals, cfg.accountSlots, offenders, {}) && Level(pending, offenders)
    {
      hide Tight, Base, Tracks, SumLens, Shrunk, High, OneLess, LenOf, OneCut, ItemsOf, Noncer.Get;
      BaseIsSane();
      ghost var p1 := pending;
      assert forall i :: 0 <= i < |offenders| ==>
               LenOf(pending, offenders[i]) == LenOf(pending, offenders[|offenders| - 1]);
      label before:
      count := ReduceAll(offenders, total);
      LowerRound(p0, p1, pending, locals, cfg.accountSlots, offenders);
      TightRound(p0, p1, pending, locals, cfg.accountSlots, cfg.globalSlots, offenders, {}, offenders);
      forall a ensures Shrunk(views(a), View(a)) {
        CutOne(views(a), old@before(View(a)), View(a));
      }
    }

    /** Brings the pending total under its limit at the cost of the largest remote accounts. */
    method TruncatePending()
      requires Valid()
      modifies this`pending, this`noncer, lookup, priced
      ensures Valid() && forall a :: Shrunk(old(View(a)), View(a))
      ensures FairlyCut(old(pending), pending, locals, cfg.accountSlots, cfg.globalSlots)
      ensures Tight(old(pending), pending, cfg.globalSlots)
    {
      hide Tight, Base, Tracks, SumLens, Shrunk, LenOf, FairlyCut, Picked, Equalizing, Level, ItemsOf, Noncer.Get;
      var count := CountAll(pending);
      ghost var p0, views := pending, ViewsOf(pending, queue, noncer, beats, clock);
      if count <= cfg.globalSlots {
        forall a ensures Shrunk(old(View(a)), View(a)) { ShrunkRefl(View(a)); }
        NobodyCut(pending, locals, cfg.accountSlots, cfg.globalSlots);
        NothingCut(pending, cfg.globalSlots);
        return;
      }
      var offenders, spammers;
      count, offenders, spammers := EqualizeOffenders(count, p0, views);
      if count <= cfg.globalSlots {
        FairAfterEqualizing(p0, pending, locals, cfg.accountSlots, cfg.globalSlots, offenders, spammers);
        return;
      }
      if |offenders| > 0 {
        while count > cfg.globalSlots && LenOf(pending, offenders[|offenders| - 1]) > cfg.accountSlots
          invariant Valid() && count == SumLens(pending) && forall a :: Shrunk(views(a), View(a))
          invariant Picked(p0, pending, locals, cfg.accountSlots, offenders, {}) && Level(pending, offenders)
          invariant Tight(p0, pending, cfg.globalSlots)
          decreases count
        {
          count := LowerStep(offenders, count, p0, views);
        }
      }
      FairAfterLowering(p0, pending, locals, cfg.accountSlots, cfg.globalSlots, offenders);
    }

    /** The remote accounts with queued transactions, oldest heartbeat first. */
    method ByHeartbeat() returns (addresses: seq<Address>)
      ensures DistinctAddrs(addresses) && forall a :: a in addresses <==> a in queue && a !in locals
      ensures forall i, j :: 0 <= i < j < |addresses| ==> BeatOf(beats, addresses[i]) <= BeatOf(beats, addresses[j])
    {
      var keys: seq<Address> := [];
      var todo := set a | a in queue && a !in locals;
      ghost var remote := todo;
      while todo != {}
        invariant todo <= remote && multiset(keys) == multiset(remote - todo)
      {
        var a :| a in todo;
        assert remote - (todo - {a}) == remote - todo + {a};
        keys, todo := keys + [a], todo - {a};
      }
      assert remote - todo == remote;
      var bs := beats;
      addresses := Heap.Sort(keys, (a: Address) => Heap.Rank(BeatOf(bs, a), 0));
      HeartbeatSorted(addresses, remote, bs);
    }

    /** Drops queued transactions of an account, those with the highest nonces, so that `drop`
        of them or all are gone. */
    method CutQueue(a: Address, drop: nat) returns (gone: nat)
      requires Valid() && a in queue && drop > 0
      modifies this`pending, this`queue, this`beats, this`noncer, lookup, priced
      ensures Valid() && gone == (if |old(View(a)).queue| <= drop then |old(View(a)).queue| else drop)
      ensures View(a) == Leave(old(View(a)), Lowest(old(View(a)).queue, |old(View(a)).queue| - gone))
      ensures SumLens(queue) == SumLens(old(queue)) - gone
      ensures forall b :: b != a ==> View(b) == old(View(b))
    {
      hide Base, Tracks, SumLens, Dropped, Lowest, Within, SameBeats;
      ghost var q0 := queue;
      var items := queue[a].items;
      gone := if |items| <= drop then |items| else drop;
      var kept := Lowest(items, |items| - gone);
      CapParts(items, |items| - gone, kept, Dropped(items, kept));
      NeverEmpty();
      RemoveQueued(a, Dropped(items, kept));
      NeverEmpty();
      forall b: Address | b != a ensures ItemsOf(q0, b) == ItemsOf(queue, b) {
        assert View(b) == old(View(b));
      }
      SumLensItems(q0, queue, a);
    }

    lemma NeverEmpty()
      requires Base()
      ensures forall b: Address :: NoEmpty(pending, b) && NoEmpty(queue, b)
    {
      forall b: Address ensures NoEmpty(pending, b) && NoEmpty(queue, b) {
        ConsistentAt(pending, queue, lookup.all, b);
      }
    }

    /** One round of the loop of `truncateQueue`. */
    method CutNext(order: seq<Address>, k: nat, drop: nat, ghost c0: Address -> Acct, ghost v: Address -> Acct)
      returns (gone: nat, ghost v': Address -> Acct)
      requires Valid() && k < |order| && DistinctAddrs(order) && drop > 0 && Emptied(c0, v, order, k + 1, drop)
      requires v == ViewsOf(pending, queue, noncer, beats, clock) && c0(order[k]).queue != map[]
      modifies this`pending, this`queue, this`beats, this`noncer, lookup, priced
      ensures Valid() && gone <= drop && SumLens(queue) == SumLens(old(queue)) - gone
      ensures v' == ViewsOf(pending, queue, noncer, beats, clock) && Emptied(c0, v', order, k, drop - gone)
    {
      hide Base, Tracks, SumLens, ItemsOf, Noncer.Get, DistinctAddrs, Leave, PulseOf, TxPricedList.Tracking, Emptied;
      hide QueueCutTo, Lowest;
      NotYetCut(c0, v, order, k + 1, drop);
      assert v(order[k]) == View(order[k]);
      QueueKey(order[k]);
      gone := CutQueue(order[k], drop);
      v' := ViewsOf(pending, queue, noncer, beats, clock);
      assert v'(order[k]) == View(order[k]);
      forall b | b != order[k] ensures v'(b) == v(b) {
        assert v(b) == old(View(b)) && v'(b) == View(b);
      }
      EmptiedStep(c0, v, v', order, k, drop, gone);
    }

    /** The loop of `truncateQueue`: goes through the accounts from the back until the
        overflow is gone; the first `k` remain untouched. */
    method DropQueues(order: seq<Address>, overflow: nat, ghost c0: Address -> Acct)
      returns (k: nat, drop: nat, ghost v: Address -> Acct)
      requires Valid() && SumLens(queue) == cfg.globalQueue + overflow
      requires DistinctAddrs(order) && forall a :: a in order ==> a in queue
      requires c0 == ViewsOf(pending, queue, noncer, beats, clock)
      modifies this`pending, this`queue, this`beats, this`noncer, lookup, priced
      ensures Valid() && SumLens(queue) == cfg.globalQueue + drop && k <= |order| && (drop == 0 || k == 0)
      ensures v == ViewsOf(pending, queue, noncer, beats, clock) && Emptied(c0, v, order, k, drop)
    {
      hide Base, Tracks, SumLens, ItemsOf, Noncer.Get, DistinctAddrs, PulseOf, TxPricedList.Tracking, Emptied, ViewsOf;
      v := c0;
      forall a | a in order ensures c0(a).queue != map[] {
        ViewsAre(c0);
        QueueKey(a);
      }
      k, drop := |order|, overflow;
      NoneEmptied(c0, order, drop);
      while drop > 0 && k > 0
        invariant Valid() && SumLens(queue) == cfg.globalQueue + drop && k <= |order|
        invariant v == ViewsOf(pending, queue, noncer, beats, clock) && Emptied(c0, v, order, k, drop)
        decreases k
      {
        k := k - 1;
        assert order[k] in order;
        var gone;
        gone, v := CutNext(order, k, drop, c0, v);
        drop := drop - gone;
      }
    }

    /** Brings the queued total under its limit: remote accounts lose their queues, the
        most recently active first, until exactly the overflow is gone. */
    method TruncateQueue()
      requires Valid()
      modifies this`pending, this`queue, this`beats, this`noncer, lookup, priced
      ensures Valid()
      ensures forall a :: QueueCutTo(old(View(a)), View(a))
      ensures forall a :: a in locals ==> View(a) == old(View(a))
      ensures SumLens(old(queue)) <= cfg.globalQueue ==> forall a :: View(a) == old(View(a))
      ensures SumLens(queue) <= cfg.globalQueue || forall a :: a !in locals ==> View(a).queue == map[]
      ensures SumLens(old(queue)) > cfg.globalQueue ==> SumLens(queue) >= cfg.globalQueue
      ensures QueueFairlyCut(old(queue), queue, locals, cfg.globalQueue)
      ensures NewestFirst(old(queue), queue, locals, old(beats))
    {
      hide Base, Tracks, SumLens, QueueCutTo, ItemsOf, Noncer.Get, DistinctAddrs;
      var queued := CountAll(queue);
      if queued <= cfg.globalQueue {
        forall a ensures QueueCutTo(View(a), View(a)) { QueueUncut(View(a)); }
        return;
      }
      QueueKeys();
      var order := ByHeartbeat();
      ghost var c0 := ViewsOf(pending, queue, noncer, beats, clock);
      ViewsAre(c0);
      var k, drop;
      ghost var v;
      k, drop, v := DropQueues(order, queued - cfg.globalQueue, c0);
      ViewsAre(v);
      EmptiedMeans(c0, v, order, k, drop);
      HeartbeatOrder(order, k, old(beats));
      forall b | b !in order && b !in locals ensures View(b).queue == map[] {
        assert View(b) == old(View(b)) && b !in old(queue);
      }
      forall b | b in order && drop > 0 ensures View(b).queue == map[] {
        var i :| 0 <= i < |order| && order[i] == b;
      }
      forall a ensures ItemsOf(queue, a) == View(a).queue && ItemsOf(old(queue), a) == old(View(a)).queue {}
    }

    lemma QueueKey(a: Address)
      requires Base()
      ensures a in queue <==> View(a).queue != map[]
    {
      ConsistentAt(pending, queue, lookup.all, a);
    }

    lemma QueueKeys()
      requires Base()
      ensures forall a: Address :: a in queue <==> View(a).queue != map[]
    {
      NeverEmpty();
      forall a: Address ensures a in queue <==> View(a).queue != map[] {
        assert NoEmpty(queue, a);
      }
    }

    /** Adds a batch; stops if the pool panics. */
    method AddTxsLocked(txs: seq<Tx>, local: bool)
      returns (crashed: bool, errs: seq<AddResult>, dirty: set<Address>, ghost snaps: seq<Snap>,
               ghost added: seq<Insertion>)
      requires Valid()
      modifies this`pending, this`queue, this`beats, this`noncer, this`locals, lookup, priced
      ensures Valid() && (old(AllGapless()) ==> AllGapless())
      ensures Trace(RulesNow(), txs, local, snaps, added) && snaps[0] == old(Now()) && snaps[|added|] == Now()
      ensures crashed <==> Crashes(added)
      ensures |errs| == |added| && (forall i :: 0 <= i < |errs| ==> errs[i] == added[i].result)
      ensures dirty == Dirty(txs, added)
      ensures !local ==> locals == old(locals)
      ensures old(Proper(lookup.all, locals, gasPrice)) ==> Proper(lookup.all, locals, gasPrice)
      // Whoever may have something executable in the queue now is to be promoted.
      ensures old(AllGapless()) ==> forall a :: old(Quiet(View(a))) ==> Quiet(View(a)) || a in dirty
    {
      hide Proper, Quiet;
      hide Base, Tracks, AllGapless, AddStep, ItemsOf, Noncer.Get, Dirty;
      errs, dirty, crashed := [], {}, false;
      snaps, added := [Now()], [];
      NoneDirty(txs);
      for i := 0 to |txs|
        invariant Valid() && (old(AllGapless()) ==> AllGapless())
        invariant Partial(RulesNow(), txs, local, snaps, added) && |added| == i && !Crashes(added)
        invariant snaps[0] == old(Now()) && snaps[i] == Now()
        invariant |errs| == i && (forall k :: 0 <= k < i ==> errs[k] == added[k].result) && dirty == Dirty(txs, added)
        invariant !local ==> locals == old(locals)
        invariant old(Proper(lookup.all, locals, gasPrice)) ==> Proper(lookup.all, locals, gasPrice)
        invariant old(AllGapless()) ==> forall a :: old(Quiet(View(a))) ==> Quiet(View(a)) || a in dirty
      {
        var r;
        ghost var drop;
        r, drop := Add(txs[i], local);
        PartialMore(RulesNow(), txs, local, snaps, added, Insertion(r, drop), Now());
        StepLocals(RulesNow(), snaps[i], txs[i], local, Insertion(r, drop), Now());
        OneDirty(txs, added, Insertion(r, drop));
        snaps, added, errs := snaps + [Now()], added + [Insertion(r, drop)], errs + [r];
        if r == Pooled(false) {
          dirty := dirty + {txs[i].sender};
        }
        if r.Panicked? {
          return true, errs, dirty, snaps, added;
        }
      }
    }

    /** `addTxs`, waiting for the promotion that it asks for. Everybody is told what became of
        their own transaction, and nobody is forgotten: in a pool with nothing executable in any
        queue there is nothing afterwards. */
    method AddTxs(txs: seq<Tx>, local: bool)
      returns (crashed: bool, errs: seq<Option<Error>>, ghost snaps: seq<Snap>, ghost added: seq<Insertion>)
      requires Valid()
      modifies this`state, this`pending, this`queue, this`beats, this`noncer, this`locals, lookup, priced
      ensures Valid() && (old(AllGapless()) ==> AllGapless()) && (crashed <==> Crashes(added))
      ensures Trace(old(RulesNow()), News(txs, old(lookup.all)), local, snaps, added) && snaps[0] == old(Now())
      ensures !crashed ==> forall i :: 0 <= i < |txs| ==> Own(txs, old(lookup.all), Errors(added), errs, i)
      ensures old(AllGapless()) && !crashed ==> (forall a :: old(Quiet(View(a)))) ==> forall a :: Quiet(View(a))
    {
      hide Base, Tracks, AllGapless, Quiet, ItemsOf, Noncer.Get, PulseOf, RunStep, Trace, Dirty, Own, News, Known;
      hide Proper, Covered, Explained;
      var newErrs, news, dirty;
      ghost var known, log := lookup.all, RunLog([Now()], [], map[], map[], map[]);
      errs, news := SetAside(txs, lookup.all);
      if news == [] {
        crashed, snaps, added := false, [Now()], [];
        NothingNew(RulesNow(), news, local, snaps[0]);
        assert Errors(added) == [];
        errs := Merge(txs, lookup.all, errs, []);
        return;
      }
      var results;
      crashed, results, dirty, snaps, added := AddTxsLocked(news, local);
      if crashed {
        return;
      }
      TraceEnds(RulesNow(), news, local, snaps, added);
      newErrs := seq(|results|, i requires 0 <= i < |results| => ErrorOf(results[i]));
      assert newErrs == Errors(added);
      errs := Merge(txs, known, errs, newErrs);
      crashed, log := RunReorg(None, dirty);
    }

    /** Nothing has to be discarded for `n` more transactions. */
    ghost predicate HasRoom(n: nat)
      reads this, lookup
    {
      |lookup.all| + n <= Capacity(RulesNow())
    }

    /** Moves the pool to a new head. The intrinsic gas rules change only after the abandoned
        transactions are back in, so these are checked against the old ones. */
    method Reset(head: HeadReset) returns (crashed: bool, ghost snaps: seq<Snap>, ghost added: seq<Insertion>)
      requires Valid()
      modifies this`state, this`pending, this`queue, this`beats, this`noncer, this`locals, lookup, priced
      ensures Valid() && locals == old(locals) && |snaps| == |added| + 1 && (crashed <==> Crashes(added))
      ensures head.loaded.None? ==> snaps == [old(Now())] && added == [] && Now() == old(Now()) && state == old(state)
      ensures head.loaded.Some? ==>
                Trace(ResetRules(head.loaded.value, old(RulesNow())), head.reinject, false, snaps, added)
      ensures head.loaded.Some? ==> HeadMovedTo(snaps[0], old(Now()), head.loaded.value) && snaps[|added|] == Now()
      ensures state == HeadAfter(Some(head), old(state), crashed)
      ensures forall tx :: tx in lookup.all ==>
                  tx in old(lookup.all) || (tx in head.reinject && Covers(old(state).intrinsic, tx))
      ensures head.loaded.None? || head.reinject == [] ==> lookup.all == old(lookup.all)
      ensures head.loaded.Some? && old(HasRoom(|head.reinject|)) ==> !crashed
      ensures head.loaded.Some? && old(HasRoom(|head.reinject|)) ==>
                lookup.all == Joined(ResetRules(head.loaded.value, old(RulesNow())), old(locals), old(lookup.all),
                                     head.reinject)
      ensures old(Proper(lookup.all, locals, gasPrice)) ==> Proper(lookup.all, locals, gasPrice)
    {
      hide Consistent, TxLookup.Valid, Heap.IsHeap, Tracks, AllGapless, AddStep, Joined;
      if head.loaded.None? {
        return false, [Now()], [];
      }
      state := head.loaded.value.(intrinsic := state.intrinsic);
      noncer := Noncer(state.nonce, map[]);
      var errs, dirty;
      crashed, errs, dirty, snaps, added := AddTxsLocked(head.reinject, false);
      forall tx | tx in lookup.all
        ensures tx in old(lookup.all) || (tx in head.reinject && Covers(old(state).intrinsic, tx))
      {
        TraceCovers(RulesNow(), head.reinject, false, snaps, added, |added|, tx);
      }
      if old(HasRoom(|head.reinject|)) {
        TraceJoins(RulesNow(), head.reinject, snaps, added, |added|);
        assert head.reinject[..|head.reinject|] == head.reinject;
      }
      if !crashed {
        state := state.(intrinsic := head.loaded.value.intrinsic);
      }
    }

    /** Points the virtual nonce of every pending account just past its last transaction. */
    method SettleNonces()
      requires Valid()
      modifies this`noncer
      ensures Valid() && forall a :: View(a) == Settle(old(View(a)))
    {
      hide Consistent, TxLookup.Valid, Heap.IsHeap, Tracks;
      NeverEmpty();
      var todo := pending.Keys;
      while todo != {}
        invariant todo <= pending.Keys && noncer.fallback == old(noncer.fallback)
        invariant forall a :: noncer.Get(a) == if a in pending.Keys - todo then Settle(old(View(a))).next
                                               else old(noncer).Get(a)
      {
        var a :| a in todo;
        assert NoEmpty(pending, a) && old(View(a)).pending == pending[a].items;
        noncer := noncer.Set(a, MaxNonce(pending[a].items) + 1);
        todo := todo - {a};
      }
    }

    /** Both truncations. */
    method Truncate()
      requires Valid()
      modifies this`pending, this`queue, this`beats, this`noncer, lookup, priced
      ensures Valid() && forall a :: Truncated(old(View(a)), View(a))
      ensures FairlyCut(old(pending), pending, locals, cfg.accountSlots, cfg.globalSlots)
      ensures Tight(old(pending), pending, cfg.globalSlots)
      ensures QueueFairlyCut(old(queue), queue, locals, cfg.globalQueue)
      ensures NewestFirst(old(queue), queue, locals, old(beats))
    {
      hide Base, Tracks, Shrunk, QueueCutTo, SumLens, ItemsOf, Noncer.Get, Truncated, FairlyCut, NoEmpty, BeatOf;
      hide Tight, QueueFairlyCut;
      ghost var c3, p3 := ViewsOf(pending, queue, noncer, beats, clock), pending;
      ViewsAre(c3);
      TruncatePending();
      ghost var c4, p4 := ViewsOf(pending, queue, noncer, beats, clock), pending;
      ViewsAre(c4);
      CutKeepsSome(p3, p4, c3);
      NeverEmpty();
      TruncateQueue();
      PendingSame(c4, p4);
      FairlySame(p3, p4, pending, locals, cfg.accountSlots, cfg.globalSlots);
      forall a ensures Truncated(c3(a), View(a)) {
        IsTruncated(c3(a), c4(a), View(a));
      }
    }

    /** The last part of `runReorg`: keeps the pool within its limits and settles nonces. */
    method Trim()
      requires Valid()
      modifies this`pending, this`queue, this`beats, this`noncer, lookup, priced
      ensures Valid() && forall a :: Trimmed(old(View(a)), View(a))
      ensures FairlyCut(old(pending), pending, locals, cfg.accountSlots, cfg.globalSlots)
      ensures Tight(old(pending), pending, cfg.globalSlots)
      ensures QueueFairlyCut(old(queue), queue, locals, cfg.globalQueue)
      ensures NewestFirst(old(queue), queue, locals, old(beats))
    {
      hide Base, Tracks, SumLens, ItemsOf, Noncer.Get, Truncated, Trimmed, Settle, FairlyCut, Tight, QueueFairlyCut;
      Truncate();
      ghost var c5 := ViewsOf(pending, queue, noncer, beats, clock);
      ViewsAre(c5);
      SettleNonces();
      forall a ensures Trimmed(old(View(a)), View(a)) {
        IsTrimmed(old(View(a)), c5(a), View(a));
      }
    }

    /** Promotion and, after a head change, demotion. */
    method Refresh(reset: bool, dirty: set<Address>)
      requires Valid()
      modifies this`pending, this`queue, this`beats, this`noncer, lookup, priced
      ensures Valid()
      ensures forall a :: View(a) == Processed(old(View(a)), state.For(a), QueueCap(cfg, locals, a),
                                               reset || a in dirty, reset)
    {
      hide Base, Tracks, Promote, Demote, ItemsOf, Noncer.Get;
      ghost var c1 := ViewsOf(pending, queue, noncer, beats, clock);
      ViewsAre(c1);
      QueueKeys();
      var accounts := if reset then queue.Keys else dirty;
      PromoteExecutables(accounts);
      ghost var c2 := ViewsOf(pending, queue, noncer, beats, clock);
      ViewsAre(c2);
      PendingKeys();
      if reset {
        DemoteUnexecutables();
      }
      forall a ensures View(a) == Processed(c1(a), state.For(a), QueueCap(cfg, locals, a), reset || a in dirty, reset) {
        if reset {
          if a !in accounts { NothingToPromote(c1(a), state.For(a), QueueCap(cfg, locals, a)); }
          if c2(a).pending == map[] { NothingToDemote(c2(a), state.For(a)); }
        }
      }
    }

    /** The steps of `runReorg` under the lock: reset, promote, demote, truncate, settle. */
    method RunSteps(reset: Option<HeadReset>, dirty: set<Address>) returns (crashed: bool, ghost log: RunLog)
      requires Valid()
      modifies this`state, this`pending, this`queue, this`beats, this`noncer, this`locals, lookup, priced
      ensures Valid() && RunStep(cfg, reset, dirty, old(Here()), log, Here()) && (crashed <==> Crashes(log.added))
      ensures old(Covered(state.intrinsic, lookup.all)) ==> Covered(old(state).intrinsic, lookup.all)
      ensures old(Proper(lookup.all, locals, gasPrice)) ==> Proper(lookup.all, locals, gasPrice)
    {
      hide Base, Tracks, Processed, Trimmed, SumLens, ItemsOf, Noncer.Get, Trace, Partial, AddStep;
      hide FairlyCut, Tight, QueueFairlyCut, NewestFirst, Proper, PulseOf, Coherent;
      crashed := false;
      ghost var snaps, added := [Now()], [];
      if reset.Some? {
        crashed, snaps, added := Reset(reset.value);
      }
      NowShows();
      NowCoherent();
      if crashed {
        log := RunLog(snaps, added, map[], map[], map[]);
        return;
      }
      ghost var all1 := lookup.all;
      ghost var p3, q3, b3 := RefreshAndTrim(reset.Some?, dirty);
      FewerProper(all1, lookup.all, locals, gasPrice);
      log := RunLog(snaps, added, p3, q3, b3);
    }

    /** The pool's share of `runReorg`. */
    method RunReorg(reset: Option<HeadReset>, dirty: set<Address>) returns (crashed: bool, ghost log: RunLog)
      requires Valid()
      modifies this`state, this`pending, this`queue, this`beats, this`noncer, this`locals, lookup, priced
      ensures Valid() && RunStep(cfg, reset, dirty, old(Here()), log, Here()) && (crashed <==> Crashes(log.added))
      ensures reset == None || reset.value.reinject == [] ==> !crashed
      // What becomes of an account that was gapless: is it so again, and does it leave an
      // executable transaction in its queue?
      ensures !crashed && HasHead(reset) ==>
                forall a :: old(Gapless(View(a), state.For(a))) ==>
                  Explained(log.Back().views(a), View(a), state.For(a))
      ensures old(AllGapless()) && (reset == None || reset.value.Descends(old(state))) ==> AllGapless()
      ensures old(AllGapless()) && reset == None ==> forall a :: a in dirty || old(Quiet(View(a))) ==> Quiet(View(a))
      ensures reset == None ==> forall a :: a in dirty && a !in locals ==> |View(a).queue| <= cfg.accountQueue
      // Whatever is pooled pays for its data under the old rules, and stays proper.
      ensures old(Covered(state.intrinsic, lookup.all)) ==> Covered(old(state).intrinsic, lookup.all)
      ensures old(Proper(lookup.all, locals, gasPrice)) ==> Proper(lookup.all, locals, gasPrice)
    {
      hide Base, Tracks, Gapless, ItemsOf, Noncer.Get, Explained, Quiet, Proper, Covered, PulseOf, RunStep, HasHead;
      hide HeadReset.Descends, TxPricedList.Tracking;
      BaseIsSane();
      NowShows();
      ghost var m := Here();
      crashed, log := RunSteps(reset, dirty);
      NowShows();
      ghost var m' := Here();
      RunShape(cfg, reset, dirty, m, log, m');
      forall a ensures !crashed && HasHead(reset) && Gapless(m.snap.views(a), m.state.For(a)) ==>
                         Explained(log.Back().views(a), View(a), state.For(a)) {
        if !crashed && HasHead(reset) && Gapless(m.snap.views(a), m.state.For(a)) {
          RunExplains(cfg, reset, dirty, m, log, m', a);
        }
      }
      if reset == None {
        forall a | a in dirty && a !in locals ensures |View(a).queue| <= cfg.accountQueue {
          RunCapsAt(cfg, reset, dirty, m, log, m', a);
        }
      }
      if old(AllGapless()) && (reset == None || reset.value.Descends(m.state)) {
        forall a ensures Gapless(View(a), state.For(a))
                         && (reset == None && (a in dirty || Quiet(m.snap.views(a))) ==> Quiet(View(a))) {
          assert old(View(a)) == m.snap.views(a) && Gapless(m.snap.views(a), m.state.For(a));
          RunGapless(cfg, reset, dirty, m, log, m', a);
        }
      }
    }

    /** The second half of a run. */
    method RefreshAndTrim(reset: bool, dirty: set<Address>)
      returns (ghost p3: Lists, ghost q3: Lists, ghost b3: map<Address, int>)
      requires Valid()
      modifies this`pending, this`queue, this`beats, this`noncer, lookup, priced
      ensures Valid() && lookup.all <= old(lookup.all)
      ensures AllTrimmed(cfg, reset, dirty, RunLog([old(Now())], [], p3, q3, b3), Here())
      ensures Enforced(cfg, RunLog([old(Now())], [], p3, q3, b3), Here())
    {
      hide Base, Tracks, Processed, Trimmed, SumLens, ItemsOf, Noncer.Get, FairlyCut, Tight, QueueFairlyCut;
      hide NewestFirst, Listed, QueueCap;
      AllListed();
      NowShows();
      ListsDisjoint();
      ghost var c0 := ViewsOf(pending, queue, noncer, beats, clock);
      ViewsAre(c0);
      Refresh(reset, dirty);
      p3, q3, b3 := pending, queue, beats;
      ghost var c3 := ViewsOf(pending, queue, noncer, beats, clock);
      ViewsAre(c3);
      ListsAre(c3);
      Trim();
      AllListed();
      NowShows();
      forall tx | tx in lookup.all ensures tx in old(lookup.all) {
        var a := tx.sender;
        RunKeepsIff(c0(a), View(a), state.For(a), QueueCap(cfg, locals, a), reset || a in dirty, reset, tx);
      }
    }

    lemma HereIsGood(fine: bool, paid: bool, fit: bool)
      requires Valid() && (fine ==> AllGapless()) && (paid ==> Covered(state.intrinsic, lookup.all))
      requires fit ==> Proper(lookup.all, locals, gasPrice)
      ensures Good(Here(), fine, paid, fit)
    {
      NowShows();
      hide Consistent, Tracks, SumSlots, Gapless, Covered, Proper, ItemsOf, Noncer.Get, PulseOf;
    }

    lemma CutQueues(c0: Address -> Acct, q0: Lists)
      requires forall a :: QueueCutTo(c0(a), View(a)) && c0(a).queue == ItemsOf(q0, a)
      ensures forall a :: ItemsOf(queue, a) == Lowest(ItemsOf(q0, a), |ItemsOf(queue, a)|)
    {
      hide ItemsOf, Noncer.Get, Lowest;
      forall a ensures ItemsOf(queue, a) == Lowest(ItemsOf(q0, a), |ItemsOf(queue, a)|) {
        assert QueueCutTo(c0(a), View(a));
      }
    }

    lemma AllOnHeap()
      requires Valid()
      ensures forall tx :: tx in lookup.all ==> tx in priced.items
    {}

    lemma SlotsAre()
      requires Base()
      ensures lookup.slots == SumSlots(lookup.all)
    {}

    /** The lookup holds what the lists hold. */
    lemma NowCoherent()
      requires Valid()
      ensures Coherent(Now())
    {
      hide Base, Tracks, Listed, PulseOf;
      NowShows();
      AllListed();
      ListsDisjoint();
    }

    lemma AllListed()
      requires Base()
      ensures forall tx: Tx :: tx in lookup.all <==> Listed(View(tx.sender), tx)
    {
      forall tx: Tx ensures tx in lookup.all <==> Listed(View(tx.sender), tx) {
        ListsApart(tx);
      }
    }

    lemma ListsDisjoint()
      requires Base()
      ensures forall a :: View(a).pending.Keys !! View(a).queue.Keys
    {
      forall a ensures View(a).pending.Keys !! View(a).queue.Keys {
        ConsistentAt(pending, queue, lookup.all, a);
      }
    }

    lemma ListsAre(views: Address -> Acct)
      requires forall a :: views(a) == View(a)
      ensures forall a :: ItemsOf(pending, a) == views(a).pending && ItemsOf(queue, a) == views(a).queue
    {}

    lemma ViewsAre(views: Address -> Acct)
      requires views == ViewsOf(pending, queue, noncer, beats, clock)
      ensures forall a :: views(a) == View(a)
    {}

    /** Truncation never empties a list. */
    lemma CutKeepsSome(p: Lists, p': Lists, views: Address -> Acct)
      requires Base() && pending == p' && FairlyCut(p, p', locals, cfg.accountSlots, cfg.globalSlots)
      requires exists q: Lists, n: Noncer, b: map<Address, int>, t: int :: views == ViewsOf(p, q, n, b, t)
      ensures forall a: Address :: View(a).pending == map[] ==> views(a).pending == map[]
      ensures SumLens(p') <= cfg.globalSlots || forall a :: a !in locals ==> |View(a).pending| <= cfg.accountSlots
    {
      forall a: Address | View(a).pending == map[] ensures views(a).pending == map[] {
        assert LenOf(p', a) == 0;
        assert LenOf(p, a) == 0;
      }
      forall a: Address ensures |View(a).pending| == LenOf(p', a) {}
    }

    /** The pending totals only depend on what each account holds. */
    lemma PendingSame(c4: Address -> Acct, p4: Lists)
      requires Base() && (forall a :: QueueCutTo(c4(a), View(a))) && (forall a: Address :: NoEmpty(p4, a))
      requires exists q: Lists, n: Noncer, b: map<Address, int>, t: int :: c4 == ViewsOf(p4, q, n, b, t)
      ensures SumLens(pending) == SumLens(p4) && forall a: Address :: ItemsOf(pending, a) == ItemsOf(p4, a)
    {
      NeverEmpty();
      forall a: Address ensures NoEmpty(p4, a) && NoEmpty(pending, a) && ItemsOf(p4, a) == ItemsOf(pending, a) {
        assert QueueCutTo(c4(a), View(a)) && NoEmpty(pending, a) && NoEmpty(p4, a);
      }
      SumLensSame(p4, pending);
    }

    lemma PendingKeys()
      requires Base()
      ensures forall a: Address :: a in pending <==> View(a).pending != map[]
    {
      NeverEmpty();
      forall a: Address ensures a in pending <==> View(a).pending != map[] {
        assert NoEmpty(pending, a);
      }
    }

    /** `all.Remove` followed by `priced.Removed(1)`. */
    method Forget(tx: Tx)
      requires priced.lookup == lookup && lookup.Valid() && Heap.IsHeap(priced.items, PriceRank) && tx in lookup.all
      modifies lookup, priced
      ensures lookup.all == old(lookup.all) - {tx} && lookup.Valid() && Heap.IsHeap(priced.items, PriceRank)
      ensures old(priced.Tracking(lookup.all, 0)) ==> priced.Tracking(lookup.all, 0)
    {
      hide Heap.IsHeap, TxLookup.Valid, Tracks;
      if priced.Tracking(lookup.all, 0) {
        TracksRemoval(lookup.all, priced.items, priced.stales, 0, {tx});
      }
      lookup.Remove(tx);
      assert old(priced.Tracking(lookup.all, 0)) ==> priced.Tracking(lookup.all, 1);
      label removed:
      priced.Removed(1);
      assert old@removed(priced.Tracking(priced.lookup.all, 1)) && 1 <= 1 ==> priced.Tracking(priced.lookup.all, 1 - 1);
    }

    /** `all.Add` and `priced.Put` of an unknown transaction. */
    method Learn(tx: Tx)
      requires priced.lookup == lookup && lookup.Valid() && Heap.IsHeap(priced.items, PriceRank) && tx !in lookup.all
      modifies lookup, priced
      ensures lookup.all == old(lookup.all) + {tx} && lookup.Valid() && Heap.IsHeap(priced.items, PriceRank)
      ensures multiset(priced.items) == multiset(old(priced.items)) + multiset{tx}
      ensures old(priced.Tracking(lookup.all, 0)) ==> priced.Tracking(lookup.all, 0)
    {
      hide Heap.IsHeap, TxLookup.Valid, Tracks;
      lookup.Add(tx);
      priced.Put(tx);
    }
  }

  /** The nonce is in neither list. */
  ghost predicate Gone(c: Acct, n: nat) {
    n !in c.pending && n !in c.queue
  }

  lemma FewerListed(c: Acct, tx: Tx)
    ensures Listed(Leave(c, map[]), tx) ==> Listed(c, tx)
  {}

  lemma SameBeat(b0: map<Address, int>, b1: map<Address, int>, clock: int, a: Address)
    ensures PulseOf(b0, clock, a) == PulseOf(b1, clock, a) ==> BeatOf(b0, a) == BeatOf(b1, a)
  {}

  lemma FewerProper(all: set<Tx>, fewer: set<Tx>, locals: set<Address>, floor: int)
    requires fewer <= all
    ensures Proper(all, locals, floor) ==> Proper(fewer, locals, floor)
  {}

  /** Removing a transaction takes its nonce out, brings none back, and does nothing the second
      time. */
  lemma RemoveStaysGone(c: Acct, d: Tx)
    requires c.pending.Keys !! c.queue.Keys
    ensures Gone(Remove(c, d.nonce), d.nonce) && (Gone(c, d.nonce) ==> Remove(c, d.nonce) == c)
    ensures forall n: nat :: Gone(c, n) ==> Gone(Remove(c, d.nonce), n)
  {
    assert Gone(c, d.nonce) ==> Drop(c.queue, d.nonce) == c.queue;
  }

  lemma RivalsHeld(p: TxMap, q: TxMap, all: set<Tx>, tx: Tx)
    requires Holds(p, q, map[], all, tx.sender)
    ensures tx.nonce in p ==> Rivals(all, tx) == {p[tx.nonce]}
    ensures tx.nonce in q ==> Rivals(all, tx) == {q[tx.nonce]}
    ensures tx.nonce !in p && tx.nonce !in q ==> Rivals(all, tx) == {}
  {
    assert tx.nonce in p ==> Has(p, p[tx.nonce]);
    assert tx.nonce in q ==> Has(q, q[tx.nonce]);
  }

  predicate Occupied(c: Acct, n: nat) {
    n in c.pending || n in c.queue
  }

  /** A newcomer is proper on its own, by making its account local, or by outbidding a rival. */
  lemma StepProper(rules: Rules, s: Snap, tx: Tx, local: bool, i: Insertion, s': Snap)
    requires AddStep(rules, s, tx, local, i, s') && Proper(s.all, s.locals, rules.gasPrice)
    requires i.result.Pooled? ==>
              i.result.replaced == Occupied(Without(s.views(tx.sender), i.drop, tx.sender), tx.nonce)
    ensures Proper(s'.all, s'.locals, rules.gasPrice)
  {
    hide Without, Validation, Cheapest, Panics, Discards;
    if i.result.Pooled? {
      ValidMeans(rules, s.locals, tx, local);
      SamePlace(Without(s.views(tx.sender), i.drop, tx.sender), tx);
      if i.result.replaced {
        var r :| r in Rivals(s.all - Elements(i.drop), tx);
        assert Outbids(tx, r, rules.cfg.priceBump);
      }
    }
  }

  /** A place that is taken over keeps its account quiet, and so does making room. */
  lemma StepQuiet(rules: Rules, s: Snap, tx: Tx, local: bool, i: Insertion, s': Snap, a: Address)
    requires AddStep(rules, s, tx, local, i, s') && Gapless(s.views(a), rules.state.For(a)) && Quiet(s.views(a))
    requires i.result.Pooled? ==>
              i.result.replaced == Occupied(Without(s.views(tx.sender), i.drop, tx.sender), tx.nonce)
    ensures Quiet(s'.views(a)) || (a == tx.sender && i.result == Pooled(false))
  {
    hide Without, Verdict, Discards, AllAfter, Gapless, Quiet, AfterInsert;
    WithoutQuiet(s.views(a), i.drop, a, rules.state.For(a));
    InsertQuiet(Without(s.views(a), i.drop, a), tx);
  }

  lemma SamePlace(c: Acct, tx: Tx)
    ensures tx.nonce in AfterInsert(c, tx).pending <==> tx.nonce in c.pending
  {}

  lemma InsertQuiet(c: Acct, tx: Tx)
    ensures Quiet(c) && Occupied(c, tx.nonce) ==> Quiet(AfterInsert(c, tx))
  {}

  lemma SomethingPooled(all: set<Tx>, cfg: Config)
    requires cfg.Sane() && |all| >= cfg.globalSlots + cfg.globalQueue
    ensures all != {}
  {}

  lemma NewListAccepts(m: Lists, tx: Tx, bump: nat, strict: bool)
    ensures tx.sender !in m ==> Accepts(ListOf(m, tx.sender, strict), tx, bump)
  {}

  lemma FreeNonceAccepts(l: ListValue, tx: Tx, bump: nat)
    requires tx.nonce !in l.items
    ensures Accepts(l, tx, bump)
  {}

  /** Midway through moving `m` into the list of `a`: all but `todo` has arrived. */
  ghost predicate Moving(lists0: Lists, lists: Lists, a: Address, m: TxMap, todo: TxMap) {
    && ItemsOf(lists, a) == ItemsOf(lists0, a) + Dropped(m, todo) && SameBut(lists0, lists, a)
    && m.Keys !! ItemsOf(lists0, a).Keys && Owned(m, a)
  }

  lemma MoveStarts(lists0: Lists, a: Address, m: TxMap)
    requires m.Keys !! ItemsOf(lists0, a).Keys && Owned(m, a)
    ensures Within(m, m) && Moving(lists0, lists0, a, m, m)
  {}

  lemma MoveStep(lists0: Lists, lists: Lists, a: Address, m: TxMap, todo: TxMap, n: nat, bump: nat, strict: bool)
    requires Moving(lists0, lists, a, m, todo) && Within(todo, m) && n in todo
    requires Shape(lists, a, strict)
    ensures todo[n].nonce == n && todo[n].sender == a && todo[n] in Txs(m) && n !in ItemsOf(lists, a)
    ensures Accepts(ListOf(lists, a, strict), todo[n], bump)
    ensures Within(Drop(todo, n), m)
    ensures Moving(lists0, lists[a := Added(ListOf(lists, a, strict), todo[n])], a, m, Drop(todo, n))
    ensures Shape(lists[a := Added(ListOf(lists, a, strict), todo[n])], a, strict)
    ensures NoEmpty(lists[a := Added(ListOf(lists, a, strict), todo[n])], a)
  {
    var tx, list := todo[n], ListOf(lists, a, strict);
    assert tx == m[n];
    ArriveOne(ItemsOf(lists0, a), ItemsOf(lists, a), m, todo, n);
    hide Capped, Dropped, SameBut;
    AddKeepsShape(lists, a, tx, strict);
    SameButTransitive(lists0, lists, lists[a := Added(list, tx)], a);
  }

  lemma ArriveOne(items0: TxMap, items: TxMap, m: TxMap, todo: TxMap, n: nat)
    requires items == items0 + Dropped(m, todo) && m.Keys !! items0.Keys && Within(todo, m) && n in todo
    ensures n !in items && items[n := m[n]] == items0 + Dropped(m, Drop(todo, n))
  {
    assert n in Dropped(m, Drop(todo, n)) && n !in Dropped(m, todo);
  }

  lemma AddKeepsShape(lists: Lists, a: Address, tx: Tx, strict: bool)
    requires Shape(lists, a, strict)
    ensures ItemsOf(lists[a := Added(ListOf(lists, a, strict), tx)], a) == ItemsOf(lists, a)[tx.nonce := tx]
    ensures SameBut(lists, lists[a := Added(ListOf(lists, a, strict), tx)], a)
    ensures Shape(lists[a := Added(ListOf(lists, a, strict), tx)], a, strict)
    ensures NoEmpty(lists[a := Added(ListOf(lists, a, strict), tx)], a)
  {
    assert tx.nonce in Added(ListOf(lists, a, strict), tx).items;
  }

  lemma MoveEnds(lists0: Lists, lists: Lists, a: Address, m: TxMap)
    requires Moving(lists0, lists, a, m, map[])
    ensures ItemsOf(lists, a) == ItemsOf(lists0, a) + m && SameBut(lists0, lists, a)
  {
    assert Dropped(m, map[]) == m;
  }

  /** The virtual nonce lies just past the last transaction promoted. */
  ghost predicate NoncerMoved(n0: Noncer, n1: Noncer, a: Address, m: TxMap, todo: TxMap) {
    && n1.fallback == n0.fallback
    && (forall b :: b != a ==> n1.Get(b) == n0.Get(b))
    && (todo == m ==> n1.Get(a) == n0.Get(a))
    && (todo != m ==> (exists k :: k in m && k !in todo && n1.Get(a) == k + 1))
    && (forall k, j :: k in m && k !in todo && j in todo ==> k < j)
    && (forall k :: k in m && k !in todo ==> k < n1.Get(a))
  }

  lemma NoncerStarts(n0: Noncer, a: Address, m: TxMap)
    ensures NoncerMoved(n0, n0, a, m, m)
  {}

  lemma NoncerStep(n0: Noncer, n1: Noncer, a: Address, m: TxMap, todo: TxMap, n: nat)
    requires NoncerMoved(n0, n1, a, m, todo) && Within(todo, m) && todo != map[] && n == MinNonce(todo)
    ensures NoncerMoved(n0, n1.Set(a, n + 1), a, m, Drop(todo, n))
  {
    assert n in m && n !in Drop(todo, n);
  }

  lemma NoncerEnds(n0: Noncer, n1: Noncer, a: Address, m: TxMap)
    requires NoncerMoved(n0, n1, a, m, map[])
    ensures n1.fallback == n0.fallback && n1.Get(a) == if m == map[] then n0.Get(a) else MaxNonce(m) + 1
    ensures forall b :: b != a ==> n1.Get(b) == n0.Get(b)
  {}

  lemma RemovedFromPending(pending: Lists, a: Address, n: nat)
    requires a in pending && Shape(pending, a, true) && n in pending[a].items
    ensures Removed(pending[a], n).items == Below(pending[a].items, n)
    ensures RemoveInvalids(pending[a], n) == From(pending[a].items, n + 1)
    ensures var p := Store(pending, a, Removed(pending[a], n));
            ItemsOf(p, a) == Below(pending[a].items, n) && SameBut(pending, p, a) && Shape(p, a, true) && NoEmpty(p, a)
  {
    Stored(pending, a, Removed(pending[a], n), true);
  }

  lemma RemovedFromQueue(queue: Lists, a: Address, n: nat)
    requires a in queue && Shape(queue, a, false)
    ensures Removed(queue[a], n).items == Drop(queue[a].items, n)
    ensures var q := Store(queue, a, Removed(queue[a], n));
            ItemsOf(q, a) == Drop(queue[a].items, n) && SameBut(queue, q, a) && Shape(q, a, false) && NoEmpty(q, a)
  {
    Stored(queue, a, Removed(queue[a], n), false);
  }

  lemma SameAsBefore(m: Lists, a: Address)
    ensures SameBut(m, m, a)
  {}

  /** Once the lists of one account are in order again, so is the pool. */
  lemma Reassemble(p0: Lists, q0: Lists, all0: set<Tx>, p: Lists, q: Lists, all: set<Tx>, a: Address)
    requires Consistent(p0, q0, all0) && SameBut(p0, p, a) && SameBut(q0, q, a) && SameTxsBut(all0, all, a)
    requires Holds(ItemsOf(p, a), ItemsOf(q, a), map[], all, a)
    requires Shape(p, a, true) && NoEmpty(p, a) && Shape(q, a, false) && NoEmpty(q, a)
    ensures Consistent(p, q, all)
  {
    OnlyAccountChanged(p0, q0, all0, p, q, all, a);
  }

  lemma ListIsCapped(m: Lists, a: Address, strict: bool)
    requires a in m && Shape(m, a, strict)
    ensures Capped(m[a]) && m[a].strict == strict
  {}

  /** The heartbeat that is left with a queue: none with an empty one. */
  function Kept(queue: TxMap, beats: map<Address, int>, clock: int, a: Address): Pulse {
    if queue == map[] then Pulse(None, clock) else PulseOf(beats, clock, a)
  }

  lemma HasQueue(queue: Lists, a: Address)
    requires a in queue && NoEmpty(queue, a)
    ensures ItemsOf(queue, a) != map[]
  {}

  lemma PromoteIs(c: Acct, lim: Limits, cap: Option<nat>, c': Acct, payable: TxMap, run: TxMap)
    requires payable == Reject(From(c.queue, lim.nonce), lim.Over()) && run == ReadyRun(payable, c.next)
    requires c'.pending == c.pending + run && c'.next == if run == map[] then c.next else MaxNonce(run) + 1
    requires c'.queue == if cap.Some? then Lowest(AfterReady(payable, c.next), cap.value)
                         else AfterReady(payable, c.next)
    requires c.queue != map[]
    requires c'.pulse == if c'.queue == map[] then c.pulse.Lost()
                         else if run == map[] then c.pulse else c.pulse.Renewed()
    ensures c' == Promote(c, lim, cap)
  {
    hide Reject, From, ReadyRun, AfterReady, Lowest;
  }

  lemma DemoteIs(c: Acct, lim: Limits, kept: TxMap, stranded: TxMap, c': Acct)
    requires kept == Payable(c.pending, lim) && stranded == Postponed(c.pending, lim) && c'.next == c.next
    requires if kept != map[] && lim.nonce !in kept
             then c'.pending == map[] && c'.queue == c.queue + stranded + kept && c'.pulse == c.pulse.Heard()
             else && c'.pending == kept && c'.queue == c.queue + stranded
                  && c'.pulse == if stranded == map[] then c.pulse else c.pulse.Heard()
    ensures c' == Demote(c, lim)
  {
    hide Payable, Postponed;
  }

  /** A heartbeat was recorded where there was none, or nothing happened. */
  lemma OneHeard(b0: map<Address, int>, b1: map<Address, int>, clock: int, a: Address)
    ensures b1 == b0[a := clock] && a !in b0 ==>
              PulseOf(b1, clock, a) == PulseOf(b0, clock, a).Heard()
    ensures a in b0 ==> PulseOf(b0, clock, a).Heard() == PulseOf(b0, clock, a)
  {}

  lemma BeatsOfOthers(b0: map<Address, int>, b1: map<Address, int>, clock: int, a: Address)
    ensures b1 == b0 || b1 == b0[a := clock] ==> SameBeats(b0, b1, a)
  {}

  /** Dropping a part of the queue from the lookup too. */
  lemma DropQueuePart(p: TxMap, q: TxMap, all: set<Tx>, a: Address, x: TxMap, rest: TxMap)
    requires Holds(p, q, map[], all, a) && Within(x, q) && Dropped(q, x) == rest
    ensures Holds(p, rest, map[], all - Txs(x), a) && Txs(x) <= all && Keyed(x) && Owned(x, a)
  {
    PartKnown(p, q, map[], all, a, x);
    ForgetQueued(p, q, map[], all, a, x);
  }

  lemma ForwardQueue(p: TxMap, l: ListValue, all: set<Tx>, a: Address, lim: Limits)
    requires Capped(l) && !l.strict && Holds(p, l.items, map[], all, a)
    ensures Holds(p, From(l.items, lim.nonce), map[], all - Txs(Below(l.items, lim.nonce)), a)
    ensures Txs(Below(l.items, lim.nonce)) <= all && Keyed(Below(l.items, lim.nonce))
    ensures Owned(Below(l.items, lim.nonce), a)
    ensures Capped(l.(items := From(l.items, lim.nonce)))
  {
    assert Dropped(l.items, Below(l.items, lim.nonce)) == From(l.items, lim.nonce);
    DropQueuePart(p, l.items, all, a, Below(l.items, lim.nonce), From(l.items, lim.nonce));
  }

  lemma FilterQueue(p: TxMap, l: ListValue, all: set<Tx>, a: Address, lim: Limits)
    requires Capped(l) && !l.strict && Holds(p, l.items, map[], all, a)
    ensures Filtered(l, lim.balance, lim.maxGas).items == Reject(l.items, lim.Over())
    ensures Holds(p, Filtered(l, lim.balance, lim.maxGas).items, map[],
                  all - Txs(FilterRemoved(l, lim.balance, lim.maxGas)), a)
    ensures Txs(FilterRemoved(l, lim.balance, lim.maxGas)) <= all && Keyed(FilterRemoved(l, lim.balance, lim.maxGas))
    ensures Owned(FilterRemoved(l, lim.balance, lim.maxGas), a)
    ensures Capped(Filtered(l, lim.balance, lim.maxGas)) && !Filtered(l, lim.balance, lim.maxGas).strict
  {
    FilterIsFullScan(l, lim.balance, lim.maxGas);
    ApplyKeepsCaps(l, OpFilter(lim.balance, lim.maxGas));
    assert Dropped(l.items, Select(l.items, lim.Over())) == Reject(l.items, lim.Over());
    DropQueuePart(p, l.items, all, a, Select(l.items, lim.Over()), Reject(l.items, lim.Over()));
  }

  lemma ReadyQueue(p: TxMap, l: ListValue, all: set<Tx>, a: Address, start: nat)
    requires Capped(l) && !l.strict && Holds(p, l.items, map[], all, a)
    ensures Holds(p, AfterReady(l.items, start), ReadyRun(l.items, start), all, a)
    ensures Owned(ReadyRun(l.items, start), a) && ReadyRun(l.items, start).Keys !! p.Keys
    ensures Txs(ReadyRun(l.items, start)) <= all
    ensures Capped(l.(items := AfterReady(l.items, start)))
  {
    assert Dropped(l.items, ReadyRun(l.items, start)) == AfterReady(l.items, start);
    FloatQueued(p, l.items, all, a, ReadyRun(l.items, start));
    HoldsApart(p, AfterReady(l.items, start), ReadyRun(l.items, start), all, a);
  }

  lemma CapQueue(p: TxMap, l: ListValue, all: set<Tx>, a: Address, k: nat)
    requires Capped(l) && !l.strict && Holds(p, l.items, map[], all, a)
    ensures Holds(p, Lowest(l.items, k), map[], all - Txs(Dropped(l.items, Lowest(l.items, k))), a)
    ensures Txs(Dropped(l.items, Lowest(l.items, k))) <= all && Keyed(Dropped(l.items, Lowest(l.items, k)))
    ensures Owned(Dropped(l.items, Lowest(l.items, k)), a)
    ensures Capped(l.(items := Lowest(l.items, k)))
  {
    hide Holds, Dropped, Txs, Owned;
    var kept := Lowest(l.items, k);
    CapParts(l.items, k, kept, Dropped(l.items, kept));
    DropQueuePart(p, l.items, all, a, Dropped(l.items, kept), kept);
  }

  lemma OwnTxs2(all: set<Tx>, x: TxMap, y: TxMap, a: Address)
    requires Owned(x, a) && (Owned(y, a) || y == map[])
    ensures SameTxsBut(all, all - Txs(x), a) && SameTxsBut(all, all - Txs(x) - Txs(y), a)
  {}

  lemma NoTxs(all: set<Tx>, a: Address)
    ensures SameTxsBut(all, all, a)
  {}

  lemma SameTxsTransitive(x: set<Tx>, y: set<Tx>, z: set<Tx>, a: Address)
    requires SameTxsBut(x, y, a) && SameTxsBut(y, z, a)
    ensures SameTxsBut(x, z, a)
  {}

  lemma DropPendingPart(p: TxMap, q: TxMap, all: set<Tx>, a: Address, x: TxMap, rest: TxMap)
    requires Holds(p, q, map[], all, a) && Within(x, p) && Dropped(p, x) == rest
    ensures Holds(rest, q, map[], all - Txs(x), a) && Txs(x) <= all && Keyed(x) && Owned(x, a)
  {
    PartKnown(p, q, map[], all, a, x);
    ForgetPending(p, q, map[], all, a, x);
  }

  lemma ForwardPending(l: ListValue, q: TxMap, all: set<Tx>, a: Address, lim: Limits)
    requires Capped(l) && l.strict && Holds(l.items, q, map[], all, a)
    ensures Holds(From(l.items, lim.nonce), q, map[], all - Txs(Below(l.items, lim.nonce)), a)
    ensures Txs(Below(l.items, lim.nonce)) <= all && Keyed(Below(l.items, lim.nonce))
    ensures Owned(Below(l.items, lim.nonce), a)
    ensures Capped(l.(items := From(l.items, lim.nonce)))
  {
    assert Dropped(l.items, Below(l.items, lim.nonce)) == From(l.items, lim.nonce);
    DropPendingPart(l.items, q, all, a, Below(l.items, lim.nonce), From(l.items, lim.nonce));
  }

  /** A strict `Filter` in terms of the account. */
  lemma FilterIsPayable(p: TxMap, l: ListValue, lim: Limits)
    requires Capped(l) && l.strict && l.items == From(p, lim.nonce)
    ensures Filtered(l, lim.balance, lim.maxGas).items == Payable(p, lim)
    ensures FilterInvalids(l, lim.balance, lim.maxGas) == Postponed(p, lim)
    ensures FilterRemoved(l, lim.balance, lim.maxGas) == Select(l.items, lim.Over())
  {
    FilterIsFullScan(l, lim.balance, lim.maxGas);
    var over := Select(l.items, lim.Over());
    if over == map[] {
      assert forall n :: n in l.items && lim.Over()(l.items[n]) ==> n in over;
      assert Reject(l.items, lim.Over()) == l.items;
    } else {
      var low := MinNonce(over);
      assert forall n :: n in l.items && lim.Over()(l.items[n]) ==> n in over;
      assert low in over;
      assert Below(Reject(l.items, lim.Over()), low + 1) == Below(l.items, low);
    }
  }

  lemma FilterPending(p: TxMap, l: ListValue, q: TxMap, all: set<Tx>, a: Address, lim: Limits)
    requires Capped(l) && l.strict && l.items == From(p, lim.nonce) && Holds(l.items, q, map[], all, a)
    ensures Filtered(l, lim.balance, lim.maxGas).items == Payable(p, lim)
    ensures FilterInvalids(l, lim.balance, lim.maxGas) == Postponed(p, lim)
    ensures Capped(Filtered(l, lim.balance, lim.maxGas)) && Filtered(l, lim.balance, lim.maxGas).strict
    ensures Holds(Payable(p, lim), q, Postponed(p, lim), all - Txs(FilterRemoved(l, lim.balance, lim.maxGas)), a)
    ensures Txs(FilterRemoved(l, lim.balance, lim.maxGas)) <= all && Keyed(FilterRemoved(l, lim.balance, lim.maxGas))
    ensures Owned(FilterRemoved(l, lim.balance, lim.maxGas), a)
  {
    hide Holds, Txs;
    FilterIsPayable(p, l, lim);
    ApplyKeepsCaps(l, OpFilter(lim.balance, lim.maxGas));
    FilterPartitions(l, lim.balance, lim.maxGas, 0, 0);
    hide Payable, Postponed, Filtered, FilterRemoved, FilterInvalids;
    var kept, drops, stranded := Payable(p, lim), FilterRemoved(l, lim.balance, lim.maxGas), Postponed(p, lim);
    var rest := Dropped(l.items, drops);
    DropPendingPart(l.items, q, all, a, drops, rest);
    assert Dropped(rest, stranded) == kept;
    FloatPending(rest, q, all - Txs(drops), a, stranded);
  }

  lemma FloatAllPending(l: ListValue, q: TxMap, all: set<Tx>, a: Address)
    requires Capped(l) && l.strict && Holds(l.items, q, map[], all, a)
    ensures Holds(map[], q, l.items, all, a) && Capped(l.(items := map[]))
    ensures Owned(l.items, a) && l.items.Keys !! q.Keys && Txs(l.items) <= all
  {
    assert Dropped(l.items, l.items) == map[];
    FloatPending(l.items, q, all, a, l.items);
    HoldsApart(map[], q, l.items, all, a);
  }

  lemma ElementsMember(s: seq<Tx>)
    ensures forall tx :: tx in Elements(s) <==> tx in s
  {}

  lemma ReplaceKeeps(p: Lists, q: Lists, all: set<Tx>, a: Address, tx: Tx)
    requires Holds(ItemsOf(p, a), ItemsOf(q, a), map[], all, a) && Shape(p, a, true)
    requires a == tx.sender && a in p && tx.nonce in p[a].items && tx !in all
    ensures p[a].items[tx.nonce] in all && p[a].items[tx.nonce] != tx
    ensures var p' := p[a := Added(p[a], tx)];
            var all' := all - {p[a].items[tx.nonce]} + {tx};
            && Holds(ItemsOf(p', a), ItemsOf(q, a), map[], all', a)
            && Shape(p', a, true) && NoEmpty(p', a) && SameBut(p, p', a) && SameTxsBut(all, all', a)
  {
    var old_ := p[a].items[tx.nonce];
    assert Has(ItemsOf(p, a), old_);
    assert tx.nonce in Added(p[a], tx).items;
    UpdatedItems(p, a, Added(p[a], tx));
  }

  lemma QueueKeeps(p: Lists, q: Lists, all: set<Tx>, a: Address, tx: Tx)
    requires Holds(ItemsOf(p, a), ItemsOf(q, a), map[], all, a) && Shape(q, a, false)
    requires a == tx.sender && tx !in all && tx.nonce !in ItemsOf(p, a)
    ensures tx.nonce in ItemsOf(q, a) ==> ItemsOf(q, a)[tx.nonce] in all
    ensures var q' := q[a := Added(ListOf(q, a, false), tx)];
            var all' := all - (if tx.nonce in ItemsOf(q, a) then {ItemsOf(q, a)[tx.nonce]} else {}) + {tx};
            && Holds(ItemsOf(p, a), ItemsOf(q', a), map[], all', a)
            && Shape(q', a, false) && NoEmpty(q', a) && SameBut(q, q', a) && SameTxsBut(all, all', a)
  {
    var l := ListOf(q, a, false);
    assert tx.nonce in l.items ==> Has(ItemsOf(q, a), l.items[tx.nonce]);
    assert tx.nonce in Added(l, tx).items;
    UpdatedItems(q, a, Added(l, tx));
  }


  /** The last heartbeat of an account; one never heard of counts from the zero time. */
  lemma WholeQueue(q: TxMap)
    ensures Within(q, q) && Dropped(q, q) == map[]
  {}

  lemma QueueCutStarts(q: TxMap, m: TxMap)
    ensures Within(m, m) && Dropped(q, Dropped(m, m)) == q
  {}

  lemma QueueCutStep(c: Acct, m: TxMap, todo: TxMap, n: nat)
    requires Within(todo, m) && Within(m, c.queue) && n in todo
    ensures Within(Drop(todo, n), m) && n in Dropped(c.queue, Dropped(m, todo))
    ensures Dropped(c.queue, Dropped(m, todo))[n] == todo[n]
    ensures n !in c.pending ==>
                Remove(Leave(c, Dropped(c.queue, Dropped(m, todo))), n)
                == Leave(c, Dropped(c.queue, Dropped(m, Drop(todo, n))))
  {
    assert Drop(Dropped(c.queue, Dropped(m, todo)), n) == Dropped(c.queue, Dropped(m, Drop(todo, n)));
  }

  lemma QueueCutEnds(q: TxMap, m: TxMap)
    ensures Dropped(q, Dropped(m, map[])) == Dropped(q, m)
  {
    assert Dropped(m, map[]) == m;
  }

  ghost predicate SameBeats(b0: map<Address, int>, b1: map<Address, int>, a: Address) {
    forall b :: b != a ==> (b in b1 <==> b in b0) && (b in b0 ==> b1[b] == b0[b])
  }

  lemma Shrinks(todo: TxMap, m: TxMap, n: nat)
    requires Within(todo, m) && n in todo
    ensures Drop(todo, n) != m && m != map[]
  {
    assert n in m && n !in Drop(todo, n);
  }

  lemma CapPending(p: Lists, q: TxMap, all: set<Tx>, a: Address, kept: TxMap, caps: TxMap)
    requires a in p && Shape(p, a, true) && Holds(ItemsOf(p, a), q, map[], all, a) && |p[a].items| > 1
    requires kept == Lowest(p[a].items, |p[a].items| - 1) && caps == Dropped(p[a].items, kept)
    ensures Keyed(caps) && Owned(caps, a) && Txs(caps) <= all && caps != map[]
    ensures Holds(kept, q, map[], all - Txs(caps), a) && |kept| == |p[a].items| - 1
    ensures ItemsOf(p[a := p[a].(items := kept)], a) == kept && SameBut(p, p[a := p[a].(items := kept)], a)
    ensures Shape(p[a := p[a].(items := kept)], a, true) && NoEmpty(p[a := p[a].(items := kept)], a)
  {
    hide Holds, Lowest, SameBut, Shape, NoEmpty, Dropped, Txs, Owned, Within, Keyed;
    var m := p[a].items;
    CapParts(m, |m| - 1, kept, caps);
    KeptShape(p, a, kept);
    DropPendingPart(m, q, all, a, caps, kept);
  }

  lemma KeptShape(p: Lists, a: Address, kept: TxMap)
    requires a in p && Shape(p, a, true) && Within(kept, p[a].items) && kept != map[]
    ensures ItemsOf(p[a := p[a].(items := kept)], a) == kept && SameBut(p, p[a := p[a].(items := kept)], a)
    ensures Shape(p[a := p[a].(items := kept)], a, true) && NoEmpty(p[a := p[a].(items := kept)], a)
  {}

  lemma CapParts(m: TxMap, k: nat, kept: TxMap, caps: TxMap)
    requires kept == Lowest(m, k) && caps == Dropped(m, kept)
    ensures Dropped(m, caps) == kept && Within(caps, m) && Within(kept, m) && |kept| + |caps| == |m|
  {
    hide Lowest;
    assert forall n :: n in kept ==> n in m && kept[n] == m[n];
    PartsOf(m, kept, caps);
  }

  lemma PartsOf(m: TxMap, kept: TxMap, caps: TxMap)
    requires caps == Dropped(m, kept) && Within(kept, m)
    ensures Dropped(m, caps) == kept && Within(caps, m) && |kept| + |caps| == |m|
  {
    assert kept.Keys !! caps.Keys && kept.Keys + caps.Keys == m.Keys;
    SplitSize(m, kept, caps);
    hide *;
    DroppedTwice(m, kept);
  }

  lemma DroppedTwice(m: TxMap, kept: TxMap)
    requires Within(kept, m)
    ensures Dropped(m, Dropped(m, kept)) == kept && Within(Dropped(m, kept), m)
  {}

  lemma SameLens(p: Lists, p': Lists, a: Address)
    requires SameBut(p, p', a)
    ensures forall b: Address :: b != a ==> LenOf(p', b) == LenOf(p, b)
  {
    SameItems(p, p', a);
  }

  lemma FrontIsLong(p0: Lists, p: Lists, offenders: seq<Address>, spammers: set<Address>)
    requires |offenders| > 1 && DistinctAddrs(offenders) && Equalizing(p0, p, offenders, spammers)
    requires LenOf(p, offenders[|offenders| - 1]) > 1
    ensures var front := offenders[..|offenders| - 1];
            DistinctAddrs(front) && forall i :: 0 <= i < |front| ==> LenOf(p, front[i]) > 1
  {
    hide LenOf;
    var front := offenders[..|offenders| - 1];
    assert forall i :: 0 <= i < |front| ==> front[i] == offenders[i];
  }

  /** At most one transaction was taken off the top. */
  ghost predicate OneCut(c: Acct, c': Acct) {
    c' == c || (|c.pending| > 0 && c' == Cut(c, |c.pending| - 1))
  }

  lemma CutOne(c0: Acct, c: Acct, c': Acct)
    requires Shrunk(c0, c) && OneCut(c, c')
    ensures Shrunk(c0, c')
  {
    if c' != c {
      ShrunkCut(c0, c, |c.pending| - 1);
    }
  }

  lemma NotCut(c: Acct)
    ensures OneCut(c, c)
  {}

  lemma IsOneCut(c: Acct, c': Acct, p: Lists, a: Address)
    requires c.pending == ItemsOf(p, a) && LenOf(p, a) > 0 && c' == Cut(c, LenOf(p, a) - 1)
    ensures OneCut(c, c')
  {}

  /** All accounts as they are now, detached from the pool. */
  ghost function ViewsOf(p: Lists, q: Lists, n: Noncer, beats: map<Address, int>, clock: int): Address -> Acct {
    (a: Address) => Acct(ItemsOf(p, a), ItemsOf(q, a), n.Get(a), PulseOf(beats, clock, a))
  }

  /** At most queued transactions with the highest nonces went. */
  ghost predicate QueueCutTo(c0: Acct, c: Acct) {
    c == Leave(c0, Lowest(c0.queue, |c.queue|))
  }

  lemma QueueUncut(c: Acct)
    ensures QueueCutTo(c, c)
  {}

  lemma CutQueueIs(c: Acct, c': Acct, gone: nat, drop: nat)
    requires gone == (if |c.queue| <= drop then |c.queue| else drop)
    requires c' == Leave(c, Lowest(c.queue, |c.queue| - gone))
    ensures QueueCutTo(c, c') && (gone < drop ==> c'.queue == map[])
  {}

  /** The accounts from `k` on have been emptied, up to the last one of them while something is
      still to be dropped; nobody else was touched. */
  ghost predicate Emptied(c0: Address -> Acct, v: Address -> Acct, order: seq<Address>, k: nat, drop: nat)
    requires k <= |order|
  {
    && (forall a :: QueueCutTo(c0(a), v(a))) && (forall a :: a !in order[k..] ==> v(a) == c0(a))
    && (drop > 0 ==> forall i :: k <= i < |order| ==> v(order[i]).queue == map[])
    && (forall i :: k < i < |order| ==> v(order[i]).queue == map[])
  }

  lemma NoneEmptied(c0: Address -> Acct, order: seq<Address>, drop: nat)
    ensures Emptied(c0, c0, order, |order|, drop)
  {
    forall a ensures QueueCutTo(c0(a), c0(a)) { QueueUncut(c0(a)); }
  }

  lemma NotYetCut(c0: Address -> Acct, v: Address -> Acct, order: seq<Address>, k: nat, drop: nat)
    requires 0 < k <= |order| && DistinctAddrs(order) && Emptied(c0, v, order, k, drop)
    ensures v(order[k - 1]) == c0(order[k - 1])
  {
    hide QueueCutTo;
    assert order[k - 1] !in order[k..];
  }

  lemma EmptiedStep(c0: Address -> Acct, v: Address -> Acct, v': Address -> Acct, order: seq<Address>, k: nat,
                    drop: nat, gone: nat)
    requires k < |order| && DistinctAddrs(order) && drop > 0 && Emptied(c0, v, order, k + 1, drop)
    requires gone == if |v(order[k]).queue| <= drop then |v(order[k]).queue| else drop
    requires v'(order[k]) == Leave(v(order[k]), Lowest(v(order[k]).queue, |v(order[k]).queue| - gone))
    requires forall b :: b != order[k] ==> v'(b) == v(b)
    ensures Emptied(c0, v', order, k, drop - gone)
  {
    hide QueueCutTo, Leave, Lowest;
    var a := order[k];
    assert order[k..] == [a] + order[k + 1..];
    NotYetCut(c0, v, order, k + 1, drop);
    CutQueueIs(v(a), v'(a), gone, drop);
    assert forall i :: k < i < |order| ==> order[i] != a;
  }

  lemma EmptiedMeans(c0: Address -> Acct, v: Address -> Acct, order: seq<Address>, k: nat, drop: nat)
    requires k <= |order| && Emptied(c0, v, order, k, drop)
    ensures (forall a :: QueueCutTo(c0(a), v(a))) && (forall a :: a !in order[k..] ==> v(a) == c0(a))
    ensures drop > 0 ==> forall i :: k <= i < |order| ==> v(order[i]).queue == map[]
    ensures forall i :: k < i < |order| ==> v(order[i]).queue == map[]
  {}

  /** In heartbeat order, whatever comes strictly later sits at a higher index. */
  lemma HeartbeatOrder(order: seq<Address>, k: nat, beats: map<Address, int>)
    requires k <= |order| && forall i, j :: 0 <= i < j < |order| ==> BeatOf(beats, order[i]) <= BeatOf(beats, order[j])
    ensures forall a, b :: a in order[k..] && b in order && BeatOf(beats, a) < BeatOf(beats, b) ==>
                b in order[k..] && exists j :: k < j < |order| && order[j] == b
  {
    forall a, b | a in order[k..] && b in order && BeatOf(beats, a) < BeatOf(beats, b)
      ensures b in order[k..] && exists j :: k < j < |order| && order[j] == b
    {
      var i :| k <= i < |order| && order[i] == a;
      var j :| 0 <= j < |order| && order[j] == b;
      assert i < j;
      assert order[k..][j - k] == b;
    }
  }

  lemma HeartbeatSorted(addresses: seq<Address>, remote: set<Address>, bs: map<Address, int>)
    requires multiset(addresses) == multiset(remote)
    requires Heap.Sorted(addresses, (a: Address) => Heap.Rank(BeatOf(bs, a), 0))
    ensures DistinctAddrs(addresses) && forall a :: a in addresses <==> a in remote
    ensures forall i, j :: 0 <= i < j < |addresses| ==> BeatOf(bs, addresses[i]) <= BeatOf(bs, addresses[j])
  {
    assert forall a :: a in addresses <==> a in multiset(remote);
    forall i, j | 0 <= i < j < |addresses| ensures addresses[i] != addresses[j] {
      if addresses[i] == addresses[j] {
        Heap.Twice(addresses, i, j);
      }
    }
  }

  ghost predicate Truncated(c: Acct, c': Acct) {
    && c'.pending == Lowest(c.pending, |c'.pending|) && (c'.pending == map[] ==> c.pending == map[])
    && c'.queue == Lowest(c.queue, |c'.queue|) && c'.pulse == Leave(c, c'.queue).pulse
    && (c'.pending == map[] ==> c'.next == c.next)
  }

  lemma IsTruncated(c3: Acct, c4: Acct, c5: Acct)
    requires Shrunk(c3, c4) && (c4.pending == map[] ==> c3.pending == map[]) && QueueCutTo(c4, c5)
    ensures Truncated(c3, c5)
  {
    assert c3.pending == map[] ==> Dropped(c3.pending, c4.pending) == map[];
  }

  lemma IsTrimmed(c3: Acct, c5: Acct, c6: Acct)
    requires Truncated(c3, c5) && c6 == Settle(c5)
    ensures Trimmed(c3, c6)
  {}

  /** An account through a whole run: from gapless at the old state to gapless at the new. */
  lemma RunKeepsGapless(c0: Acct, c1: Acct, c': Acct, lim0: Limits, lim: Limits, cap: Option<nat>, reset: bool,
                        dirty: bool)
    requires Gapless(c0, lim0) && lim0.nonce <= lim.nonce
    requires (c1 == c0 && lim == lim0) || (reset && c1 == c0.(next := lim.nonce))
    requires Trimmed(Processed(c1, lim, cap, reset || dirty, reset), c')
    ensures Gapless(c', lim) && (!reset && (dirty || Quiet(c0)) ==> Quiet(c'))
  {
    hide Gapless, Promote, Demote, Trimmed, AlmostGapless, HeadMoved, HeadPromoted;
    var c2 := if reset || dirty then Promote(c1, lim, cap) else c1;
    var k, k';
    if c1 == c0 && lim == lim0 {
      if reset || dirty { PromoteKeepsGapless(c1, lim, cap); }
      GaplessIsAlmost(c2, lim);
      k := c2.next;
      k' := k;
    } else {
      k := HeadMoves(c0, lim0, lim.nonce);
      k := PromoteAfterMove(c1, lim, cap, k);
    }
    if reset {
      k' := DemoteAfterPromote(c2, lim, k);
    }
    TrimKeepsGapless(Processed(c1, lim, cap, reset || dirty, reset), c', lim, k');
  }

  /** After promotion a remote queue is within its limit. */
  lemma RunCaps(c: Acct, lim: Limits, cap: nat, c': Acct)
    requires Trimmed(Processed(c, lim, Some(cap), true, false), c')
    ensures |c'.queue| <= cap
  {
    hide ReadyRun, AfterReady, Ready;
  }

  /** An account through a run with any new head and any transactions that came back. */
  lemma RunOutcome(rules: Rules, txs: seq<Tx>, snaps: seq<Snap>, added: seq<Insertion>, c0: Acct, lim0: Limits,
                   lim: Limits, cap: Option<nat>, c': Acct, a: Address)
    requires Trace(rules, txs, false, snaps, added) && Gapless(c0, lim0) && snaps[0].views(a) == c0.(next := lim.nonce)
    requires snaps[|added|].views(a).pending.Keys !! snaps[|added|].views(a).queue.Keys
    requires Trimmed(Processed(snaps[|added|].views(a), lim, cap, true, true), c') && cap != Some(0)
    ensures Explained(snaps[|added|].views(a), c', lim)
  {
    hide AddStep, Trimmed, Promote, Demote, Disordered, Stranded, Waits;
    TraceFalls(rules, txs, false, snaps, added, |added|, a);
    var hi := FellSpans(snaps[0].views(a), snaps[|added|].views(a), lim0.nonce, c0.next);
    ResetGaplessIff(snaps[|added|].views(a), lim, cap, lim0.nonce, hi, c');
    ResetLeavesBehind(snaps[|added|].views(a), lim, cap, lim0.nonce, hi, c');
  }

  lemma RunShape(cfg: Config, reset: Option<HeadReset>, dirty: set<Address>, m: Moment, log: RunLog, m': Moment)
    requires RunStep(cfg, reset, dirty, m, log, m')
    ensures |log.snaps| == |log.added| + 1 && (reset == None || reset.value.reinject == [] ==> !Crashes(log.added))
  {
    hide AllTrimmed, Enforced, HeadMovedTo;
    if HasHead(reset) && reset.value.reinject == [] {
      QuietTrace(ResetRules(reset.value.loaded.value, Rules(cfg, m.state, m.gasPrice)), log.snaps, log.added);
    }
  }

  lemma RunExplains(cfg: Config, reset: Option<HeadReset>, dirty: set<Address>, m: Moment, log: RunLog, m': Moment,
                    a: Address)
    requires RunStep(cfg, reset, dirty, m, log, m') && !Crashes(log.added) && HasHead(reset) && cfg.Sane()
    requires Gapless(m.snap.views(a), m.state.For(a))
    ensures Explained(log.Back().views(a), m'.snap.views(a), m'.state.For(a))
  {
    hide Gapless, Trimmed, Processed, Enforced, AllTrimmed, Partial, Explained;
    RunTrims(cfg, reset, dirty, m, log, m', a);
    RunOutcome(ResetRules(reset.value.loaded.value, Rules(cfg, m.state, m.gasPrice)), reset.value.reinject, log.snaps,
               log.added, m.snap.views(a), m.state.For(a), m'.state.For(a), QueueCap(cfg, m'.snap.locals, a),
               m'.snap.views(a), a);
  }

  lemma RunCapsAt(cfg: Config, reset: Option<HeadReset>, dirty: set<Address>, m: Moment, log: RunLog, m': Moment,
                  a: Address)
    requires RunStep(cfg, reset, dirty, m, log, m') && !Crashes(log.added) && reset == None
    requires a in dirty && a !in m'.snap.locals
    ensures |m'.snap.views(a).queue| <= cfg.accountQueue
  {
    hide Trimmed, Processed, Enforced, AllTrimmed, Returned;
    RunShape(cfg, reset, dirty, m, log, m');
    RunTrims(cfg, reset, dirty, m, log, m', a);
    RunCaps(log.Back().views(a), m'.state.For(a), cfg.accountQueue, m'.snap.views(a));
  }

  /** With heads that only move to descendants, and none that brings transactions back, every
      account is gapless after the run. */
  lemma RunGapless(cfg: Config, reset: Option<HeadReset>, dirty: set<Address>, m: Moment, log: RunLog, m': Moment,
                   a: Address)
    requires RunStep(cfg, reset, dirty, m, log, m') && Gapless(m.snap.views(a), m.state.For(a))
    requires reset == None || reset.value.Descends(m.state)
    ensures Gapless(m'.snap.views(a), m'.state.For(a))
    ensures reset == None && (a in dirty || Quiet(m.snap.views(a))) ==> Quiet(m'.snap.views(a))
  {
    hide Gapless, Trimmed, Processed, Enforced, AllTrimmed, Quiet;
    RunShape(cfg, reset, dirty, m, log, m');
    RunTrims(cfg, reset, dirty, m, log, m', a);
    if HasHead(reset) {
      QuietTrace(ResetRules(reset.value.loaded.value, Rules(cfg, m.state, m.gasPrice)), log.snaps, log.added);
    }
    RunKeepsGapless(m.snap.views(a), log.Back().views(a), m'.snap.views(a), m.state.For(a), m'.state.For(a),
                    QueueCap(cfg, m'.snap.locals, a), reset.Some?, a in dirty);
  }

  lemma NothingNew(rules: Rules, txs: seq<Tx>, local: bool, s: Snap)
    requires txs == []
    ensures Trace(rules, txs, local, [s], []) && !Crashes([])
  {}

  lemma TraceEnds(rules: Rules, txs: seq<Tx>, local: bool, snaps: seq<Snap>, added: seq<Insertion>)
    requires Trace(rules, txs, local, snaps, added) && !Crashes(added)
    ensures |added| == |txs|
  {}

  ghost function Errors(added: seq<Insertion>): seq<Option<Error>> {
    seq(|added|, i requires 0 <= i < |added| => ErrorOf(added[i].result))
  }

  /** Without insertions the pool is as the head change left it. */
  lemma QuietTrace(rules: Rules, snaps: seq<Snap>, added: seq<Insertion>)
    requires (|snaps| == 1 && added == []) || Trace(rules, [], false, snaps, added)
    ensures |snaps| == 1 && added == []
  {}

  // ----- Whole runs -----

  /** Handles one event. */
  method Handle(pool: TxPool, e: Event) returns (crashed: bool, ghost f: Effect)
    requires pool.Valid()
    modifies pool, pool.lookup, pool.priced
    ensures pool.Valid() && EventStep(pool.cfg, e, old(pool.Here()), f, pool.Here()) && (crashed <==> Fatal(f))
    ensures old(pool.AllGapless()) && OnlyDescends(old(pool.state), [e]) ==>
              pool.AllGapless() && (e.ReorgEvent? ==> !crashed)
    ensures old(Covered(pool.state.intrinsic, pool.lookup.all)) ==> Covered(old(pool.state).intrinsic, pool.lookup.all)
    ensures old(Proper(pool.lookup.all, pool.locals, pool.gasPrice)) ==>
              Proper(pool.lookup.all, pool.locals, pool.gasPrice)
  {
    hide TxPool.Base, TxPool.AllGapless, Tracks, AddStep, RunStep, PriceStep, EvictStep, Explained, Gapless;
    crashed := false;
    match e
    case AddEvent(tx, local) =>
      var r;
      ghost var drop;
      ghost var s := pool.Now();
      r, drop := pool.Add(tx, local);
      StepCovers(pool.RulesNow(), s, tx, local, Insertion(r, drop), pool.Now());
      crashed, f := r.Panicked?, Inserted(Insertion(r, drop));
    case PriceEvent(price) =>
      ghost var m := pool.Here();
      ghost var drop := pool.SetGasPrice(price);
      f := Repriced(drop);
      PriceOnlyDrops(m, price, drop, pool.Here());
    case EvictEvent(lifetime) =>
      pool.Evict(lifetime);
      f := Evicted;
    case ClockEvent(now) =>
      pool.Tick(now);
      f := Passed;
    case ReorgEvent(reset, dirty) =>
      ghost var log;
      crashed, log := pool.RunReorg(reset, dirty);
      f := Ran(log);
  }

  lemma PriceOnlyDrops(m: Moment, price: int, drop: seq<Tx>, m': Moment)
    requires PriceStep(m, price, drop, m')
    ensures m'.snap.all <= m.snap.all && (ProperAt(m) ==> ProperAt(m'))
  {}

  /** Any events in any order, up to a panic. In every state on the way the views agree and the
      heap tracks the lookup; as long as the head only moved to descendants, pending
      transactions are executable; and as long as the rules never became stricter, what is
      pooled pays for its data. */
  method Run(pool: TxPool, events: seq<Event>) returns (crashed: bool, ghost ms: seq<Moment>, ghost fs: seq<Effect>)
    requires pool.Valid()
    modifies pool, pool.lookup, pool.priced
    ensures pool.Valid() && Chronicle(pool.cfg, events, ms, fs) && ms[0] == old(pool.Here()) && ms[|fs|] == pool.Here()
    ensures (crashed <==> Ended(fs)) && forall i :: 0 <= i < |ms| ==> Sound(ms[i])
    ensures old(pool.AllGapless()) && OnlyDescends(old(pool.state), events) ==>
              forall i :: 0 <= i < |ms| ==> AllGaplessAt(ms[i])
    ensures old(Covered(pool.state.intrinsic, pool.lookup.all)) && OnlyLoosens(old(pool.state).intrinsic, events) ==>
              forall i :: 0 <= i < |ms| ==> CoveredAt(ms[i])
    ensures old(Proper(pool.lookup.all, pool.locals, pool.gasPrice)) ==> forall i :: 0 <= i < |ms| ==> ProperAt(ms[i])
  {
    hide TxPool.Base, TxPool.AllGapless, Tracks, TxPricedList.Tracking, Covered, Proper, Looser, Sound, AllGaplessAt;
    hide EventStep, OnlyDescends, OnlyLoosens, Good, Unfolds;
    crashed := false;
    ghost var fine := pool.AllGapless() && OnlyDescends(pool.state, events);
    ghost var paid := Covered(pool.state.intrinsic, pool.lookup.all) && OnlyLoosens(pool.state.intrinsic, events);
    ghost var fit := Proper(pool.lookup.all, pool.locals, pool.gasPrice);
    ms, fs := [pool.Here()], [];
    pool.HereIsGood(fine, paid, fit);
    NothingYet(pool.cfg, events, pool.Here());
    for i := 0 to |events|
      invariant pool.Valid() && |ms| == i + 1 && Unfolds(pool.cfg, events, ms, fs) && !Ended(fs) && |fs| == i
      invariant ms[0] == old(pool.Here()) && ms[i] == pool.Here()
      invariant fine ==> pool.AllGapless() && OnlyDescends(pool.state, events[i..])
      invariant paid ==>
                Covered(pool.state.intrinsic, pool.lookup.all) && OnlyLoosens(pool.state.intrinsic, events[i..])
      invariant fit ==> Proper(pool.lookup.all, pool.locals, pool.gasPrice)
      invariant forall k :: 0 <= k < |ms| ==> Good(ms[k], fine, paid, fit)
    {
      assert events[i..][0] == events[i] && events[i..][1..] == events[i + 1..];
      ghost var st := pool.state;
      if fine {
        OneStep(st, events[i..]);
      }
      ghost var f;
      crashed, f := Handle(pool, events[i]);
      StepMovesHead(pool.cfg, events[i], ms[i], f, pool.Here());
      OneMore(pool.cfg, events, ms, fs, f, pool.Here());
      if paid && !crashed {
        StillCovered(events[i..], st, pool.state, pool.lookup.all);
      }
      pool.HereIsGood(fine, paid, fit);
      ms, fs := ms + [pool.Here()], fs + [f];
      if crashed {
        break;
      }
    }
    forall k | 0 <= k < |ms| ensures Sound(ms[k]) && (fine ==> AllGaplessAt(ms[k])) && (paid ==> CoveredAt(ms[k]))
    {
      GoodMeans(ms[k], fine, paid, fit);
    }
    forall k | 0 <= k < |ms| && fit ensures ProperAt(ms[k]) {
      GoodMeans(ms[k], fine, paid, fit);
    }
  }

  /** The same from the start: a new pool after any events at all. */
  method Lifetime(cfg: Config, state: ChainState, priceLimit: nat, locals: set<Address>, clock: int,
                  events: seq<Event>)
    returns (pool: TxPool, ghost ms: seq<Moment>, ghost fs: seq<Effect>)
    requires cfg.Sane()
    ensures pool.Valid() && Chronicle(cfg, events, ms, fs) && Starts(ms[0], state, priceLimit, locals, clock)
    ensures ms[|fs|] == pool.Here()
    ensures forall i :: 0 <= i < |ms| ==>
                Sound(ms[i]) && 0 <= StaleCount(ms[i].snap.heap, ms[i].snap.all) <= ms[i].stales
    ensures OnlyDescends(state, events) ==> forall i :: 0 <= i < |ms| ==> AllGaplessAt(ms[i])
    ensures OnlyLoosens(state.intrinsic, events) ==> forall i :: 0 <= i < |ms| ==> CoveredAt(ms[i])
    ensures forall i :: 0 <= i < |ms| ==> ProperAt(ms[i])
    ensures ClockRises(ms) ==> forall i :: 0 <= i < |ms| ==> Timely(ms[i])
  {
    hide Tracks, OnlyDescends, OnlyLoosens, StepAt, Consistent, Timely;
    pool := new TxPool(cfg, state, priceLimit, locals, clock);
    assert pool.AllGapless();
    pool.NowShows();
    var crashed;
    crashed, ms, fs := Run(pool, events);
    forall i | 0 <= i < |ms| ensures 0 <= StaleCount(ms[i].snap.heap, ms[i].snap.all) <= ms[i].stales {
      assert Sound(ms[i]);
      StalesBoundReality(ms[i].snap.all, ms[i].snap.heap, ms[i].stales);
    }
    if ClockRises(ms) {
      NewIsTimely(ms[0], state, priceLimit, locals, clock);
      forall i | 0 <= i < |ms| ensures Timely(ms[i]) {
        ChronicleTimely(cfg, events, ms, fs, i);
      }
    }
  }
}
