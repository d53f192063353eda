/** The pool's lookup of all transactions, and the price heap that shares it. The heap is
    cleaned lazily: entries whose transaction left the lookup stay in it, and a counter
    estimates how many there are. */
module PricedList {
  import opened Types
  import Heap
  import NonceMap

  /** Cheapest first; of equal prices, the higher nonce first. */
  function PriceRank(tx: Tx): Heap.Rank {
    Heap.Rank(tx.price, 0 - tx.nonce)
  }

  /** `a` may be discarded before `b`. */
  predicate NoBetter(a: Tx, b: Tx) {
    !Heap.Less(PriceRank(b), PriceRank(a))
  }

  /** A cheaper one goes first, and of equal prices the one with the higher nonce. */
  lemma GoesFirst(a: Tx, b: Tx)
    ensures NoBetter(a, b) <==> a.price < b.price || (a.price == b.price && a.nonce >= b.nonce)
  {}

  // ----- Slot totals -----

  ghost function SumSlots(s: set<Tx>): nat {
    if s == {} then 0 else var tx :| tx in s; NumSlots(tx) + SumSlots(s - {tx})
  }

  lemma {:induction false} SumSlotsWithout(s: set<Tx>, tx: Tx)
    requires tx in s
    ensures SumSlots(s) == NumSlots(tx) + SumSlots(s - {tx})
    decreases |s|
  {
    var t :| t in s && SumSlots(s) == NumSlots(t) + SumSlots(s - {t});
    if t != tx {
      SumSlotsWithout(s - {t}, tx);
      SumSlotsWithout(s - {tx}, t);
      assert s - {t} - {tx} == s - {tx} - {t};
    }
  }

  lemma SumSlotsWith(s: set<Tx>, tx: Tx)
    requires tx !in s
    ensures SumSlots(s + {tx}) == SumSlots(s) + NumSlots(tx)
  {
    SumSlotsWithout(s + {tx}, tx);
    assert s + {tx} - {tx} == s;
  }

  /** Every transaction takes at least one slot. */
  lemma {:induction false} SlotsCoverCount(s: set<Tx>)
    ensures |s| <= SumSlots(s)
    decreases |s|
  {
    if s != {} {
      var tx :| tx in s;
      SumSlotsWithout(s, tx);
      SlotsCoverCount(s - {tx});
    }
  }

  function ListSlots(s: seq<Tx>): nat {
    if s == [] then 0 else ListSlots(s[..|s| - 1]) + NumSlots(s[|s| - 1])
  }

  function Elements(s: seq<Tx>): set<Tx> {
    set tx | tx in s
  }

  lemma ElementsAppend(s: seq<Tx>, tx: Tx)
    ensures Elements(s + [tx]) == Elements(s) + {tx}
  {}

  ghost predicate Distinct(s: seq<Tx>) {
    forall i, j :: 0 <= i < j < |s| ==> s[i] != s[j]
  }

  lemma {:induction false} DistinctSlots(s: seq<Tx>)
    requires Distinct(s)
    ensures SumSlots(Elements(s)) == ListSlots(s)
  {
    if s != [] {
      var s', last := s[..|s| - 1], s[|s| - 1];
      assert s == s' + [last];
      DistinctSlots(s');
      ElementsAppend(s', last);
      assert last !in Elements(s');
      SumSlotsWith(Elements(s'), last);
    }
  }

  lemma {:induction false} ElementsSize(s: seq<Tx>)
    ensures |Elements(s)| <= |s|
  {
    if s != [] {
      var s', last := s[..|s| - 1], s[|s| - 1];
      assert s == s' + [last];
      ElementsSize(s');
      ElementsAppend(s', last);
    }
  }

  // ----- What ties the heap to the lookup -----

  /** Every live transaction has a heap entry, and the heap is no longer than the live
      transactions, the counted stale entries and `debt` removals still to be announced. */
  ghost predicate Tracks(live: set<Tx>, heap: seq<Tx>, stales: int, debt: int) {
    && Heap.IsHeap(heap, PriceRank)
    && (forall tx :: tx in live ==> tx in heap)
    && |heap| - stales - debt <= |live|
  }

  /** The heap entries whose transaction is no longer live. */
  function StaleCount(heap: seq<Tx>, live: set<Tx>): nat {
    if heap == [] then 0
    else StaleCount(heap[..|heap| - 1], live) + if heap[|heap| - 1] in live then 0 else 1
  }

  lemma {:induction false} LiveEntries(heap: seq<Tx>, live: set<Tx>)
    ensures |live * Elements(heap)| <= |heap| - StaleCount(heap, live)
  {
    if heap == [] {
      assert live * Elements(heap) == {};
    } else {
      var h', last := heap[..|heap| - 1], heap[|heap| - 1];
      assert heap == h' + [last];
      LiveEntries(h', live);
      ElementsAppend(h', last);
      if last in live {
        assert live * Elements(heap) == live * Elements(h') + {last};
      } else {
        assert live * Elements(heap) == live * Elements(h');
      }
    }
  }

  /** The stale counter is never negative and never undercounts the stale entries. */
  lemma StalesBoundReality(live: set<Tx>, heap: seq<Tx>, stales: int)
    requires Tracks(live, heap, stales, 0)
    ensures 0 <= StaleCount(heap, live) <= stales
  {
    LiveEntries(heap, live);
    assert live * Elements(heap) == live;
  }

  lemma {:induction false} LiveSplit(heap: seq<Tx>, live: set<Tx>, tx: Tx)
    requires tx in live
    ensures StaleCount(heap, live - {tx}) == StaleCount(heap, live) + multiset(heap)[tx]
  {
    if heap != [] {
      var h', last := heap[..|heap| - 1], heap[|heap| - 1];
      assert heap == h' + [last];
      LiveSplit(h', live, tx);
    }
  }

  /** As many live entries as live transactions means one each. */
  lemma {:induction false} LiveOnce(heap: seq<Tx>, live: set<Tx>)
    requires forall tx :: tx in live ==> tx in heap
    ensures |live| <= |heap| - StaleCount(heap, live)
    ensures |heap| - StaleCount(heap, live) == |live| <==> OneEach(heap, live)
  {
    if live == {} {
      AllStale(heap);
    } else {
      var tx :| tx in live;
      assert tx in multiset(heap);
      LiveSplit(heap, live, tx);
      LiveOnce(heap, live - {tx});
      assert forall t :: t in live ==> t == tx || t in live - {tx};
    }
  }

  lemma {:induction false} AllStale(heap: seq<Tx>)
    ensures StaleCount(heap, {}) == |heap|
  {
    if heap != [] {
      AllStale(heap[..|heap| - 1]);
    }
  }

  /** The counter is exact if and only if no transaction has a second entry and none of the
      removals was counted without leaving an entry. */
  lemma StalesExactIff(live: set<Tx>, heap: seq<Tx>, stales: int)
    requires Tracks(live, heap, stales, 0)
    ensures stales == StaleCount(heap, live) <==> OneEach(heap, live) && |heap| - stales == |live|
  {
    LiveOnce(heap, live);
  }

  /** A list and a lookup with the given transactions. */
  method Filled(txs: seq<Tx>) returns (lookup: TxLookup, priced: TxPricedList)
    requires Distinct(txs)
    ensures fresh(lookup) && fresh(priced) && priced.lookup == lookup && priced.Tracking(lookup.all, 0)
    ensures priced.stales == 0
    ensures lookup.all == Elements(txs) && multiset(priced.items) == multiset(txs)
  {
    hide Heap.IsHeap, Elements;
    lookup := new TxLookup();
    priced := new TxPricedList(lookup);
    EmptyHeap();
    assert txs[..0] == [] && Elements([]) == {} by { NoElements(); }
    for i := 0 to |txs|
      invariant fresh(lookup) && fresh(priced) && priced.lookup == lookup && priced.stales == 0
      invariant lookup.all == Elements(txs[..i]) && multiset(priced.items) == multiset(txs[..i])
      invariant priced.Tracking(lookup.all, 0)
    {
      assert txs[..i + 1] == txs[..i] + [txs[i]];
      ElementsAppend(txs[..i], txs[i]);
      NotYet(txs, i);
      lookup.Add(txs[i]);
      priced.Put(txs[i]);
    }
    assert txs[..|txs|] == txs;
  }

  lemma NoElements()
    ensures Elements([]) == {}
  {}

  lemma NotYet(txs: seq<Tx>, i: nat)
    requires Distinct(txs) && i < |txs|
    ensures txs[i] !in Elements(txs[..i])
  {}

  /** It happens: a transaction is removed and added again while its old entry is still in the
      heap. The entry is live again, and still counted as stale. */
  method CountedTwice(txs: seq<Tx>) returns (lookup: TxLookup, priced: TxPricedList)
    requires Distinct(txs) && |txs| >= 4
    ensures priced.lookup == lookup && priced.Tracking(lookup.all, 0) && lookup.all == Elements(txs)
    ensures priced.stales == 1 && StaleCount(priced.items, lookup.all) == 0 && !OneEach(priced.items, lookup.all)
  {
    hide Heap.IsHeap, StaleCount, OneEach, Distinct, Tracks;
    lookup, priced := Filled(txs);
    var t := txs[0];
    ghost var items := priced.items;
    assert |multiset(items)| == |multiset(txs)| == |txs|;
    assert t in multiset(txs);
    assert lookup.all - {t} + {t} == Elements(txs);
    TracksOne(lookup.all, priced.items, priced.stales, t);
    lookup.Remove(t);
    label removed:
    priced.Removed(1);
    assert old@removed(priced.Tracking(priced.lookup.all, 1)) && 1 <= 1 ==> priced.Tracking(priced.lookup.all, 1 - 1);
    TracksIsHeap(lookup.all, priced.items, priced.stales, 0);
    lookup.Add(t);
    priced.Put(t);
    assert multiset(priced.items)[t] == multiset(txs)[t] + 1;
    TwoEntries(priced.items, txs, lookup.all, t);
  }

  lemma TracksIsHeap(live: set<Tx>, heap: seq<Tx>, stales: int, debt: int)
    requires Tracks(live, heap, stales, debt)
    ensures Heap.IsHeap(heap, PriceRank)
  {}

  lemma TracksOne(live: set<Tx>, heap: seq<Tx>, stales: int, t: Tx)
    requires Tracks(live, heap, stales, 0) && t in live
    ensures Tracks(live - {t}, heap, stales, 1)
  {
    hide Heap.IsHeap;
  }

  lemma EmptyHeap()
    ensures Heap.IsHeap([], PriceRank)
  {}

  lemma TwoEntries(heap: seq<Tx>, txs: seq<Tx>, live: set<Tx>, t: Tx)
    requires live == Elements(txs) && t in txs && multiset(heap) == multiset(txs) + multiset{t}
    ensures StaleCount(heap, live) == 0 && !OneEach(heap, live)
  {
    assert t in multiset(txs);
    forall x | x in multiset(heap) ensures x in live {
      assert x in multiset(txs);
    }
    NoneStale(heap, live);
    assert multiset(heap)[t] >= 2 && t in live;
  }

  lemma {:induction false} NoneStale(heap: seq<Tx>, live: set<Tx>)
    requires forall x :: x in multiset(heap) ==> x in live
    ensures StaleCount(heap, live) == 0
  {
    if heap != [] {
      var h', last := heap[..|heap| - 1], heap[|heap| - 1];
      assert heap == h' + [last];
      assert last in multiset(heap);
      NoneStale(h', live);
    }
  }

  class TxLookup {
    var all: set<Tx>
    var slots: int

    ghost predicate Valid()
      reads this
    {
      slots == SumSlots(all)
    }

    constructor ()
      ensures Valid() && all == {}
    {
      all, slots := {}, 0;
    }

    /** The counter stays exact only if the transaction was not there yet. */
    method Add(tx: Tx)
      modifies this
      ensures all == old(all) + {tx} && slots == old(slots) + NumSlots(tx)
      ensures old(Valid()) && tx !in old(all) ==> Valid()
    {
      if slots == SumSlots(all) && tx !in all {
        SumSlotsWith(all, tx);
      }
      slots := slots + NumSlots(tx);
      all := all + {tx};
    }

    /** Removing an absent transaction would dereference nil. */
    method Remove(tx: Tx)
      requires tx in all
      modifies this
      ensures all == old(all) - {tx} && slots == old(slots) - NumSlots(tx)
      ensures old(Valid()) ==> Valid()
    {
      SumSlotsWithout(all, tx);
      slots := slots - NumSlots(tx);
      all := all - {tx};
    }
  }

  // ----- Popping off the heap -----

  lemma PopMembers(h: seq<Tx>, x: Tx, r: seq<Tx>)
    requires multiset(h) == multiset(r) + multiset{x}
    ensures |h| == |r| + 1 && forall t :: t in h <==> t in r || t == x
  {
    assert |multiset(h)| == |multiset(r)| + 1;
    assert forall t :: t in h <==> t in multiset(h);
    assert forall t :: t in r <==> t in multiset(r);
  }

  /** Live transactions sit in the heap or in one of the lists taken off it. */
  ghost predicate Held(live: set<Tx>, heap: seq<Tx>, drop: seq<Tx>, save: seq<Tx>) {
    forall tx :: tx in live ==> tx in heap || tx in drop || tx in save
  }

  /** Everything taken off so far may be discarded before anything still in the heap. */
  ghost predicate Sifted(taken: seq<Tx>, heap: seq<Tx>) {
    forall a, b :: a in taken && b in heap ==> NoBetter(a, b)
  }

  /** `drop` holds live remote transactions and `save` live local ones. */
  ghost predicate Sorted(live: set<Tx>, locals: set<Address>, drop: seq<Tx>, save: seq<Tx>) {
    && (forall tx :: tx in drop ==> tx in live && tx.sender !in locals)
    && (forall tx :: tx in save ==> tx in live && tx.sender in locals)
  }

  ghost predicate Taking(live: set<Tx>, locals: set<Address>, heap: seq<Tx>, drop: seq<Tx>, save: seq<Tx>) {
    && Heap.IsHeap(heap, PriceRank)
    && Held(live, heap, drop, save) && Sifted(drop + save, heap) && Sorted(live, locals, drop, save)
  }

  lemma TakingStarts(live: set<Tx>, locals: set<Address>, heap: seq<Tx>, stales: int, debt: int)
    requires Tracks(live, heap, stales, debt)
    ensures Taking(live, locals, heap, [], [])
  {}

  lemma RootNoBetter(h: seq<Tx>, x: Tx, r: seq<Tx>)
    requires Heap.IsHeap(h, PriceRank) && |h| > 0 && x == h[0] && multiset(h) == multiset(r) + multiset{x}
    ensures forall t :: t in r ==> NoBetter(x, t)
  {
    Heap.RootIsLeastOfAll(h, PriceRank);
    PopMembers(h, x, r);
  }

  /** One pop of a discarding loop, whichever list the popped entry goes to. */
  lemma TakeOne(live: set<Tx>, locals: set<Address>, h: seq<Tx>, x: Tx, r: seq<Tx>, drop: seq<Tx>, save: seq<Tx>)
    requires Taking(live, locals, h, drop, save) && |h| > 0 && x == h[0]
    requires Heap.IsHeap(r, PriceRank) && multiset(h) == multiset(r) + multiset{x}
    ensures |h| == |r| + 1
    ensures x !in live ==> Taking(live, locals, r, drop, save)
    ensures x in live && x.sender in locals ==> Taking(live, locals, r, drop, save + [x])
    ensures x in live && x.sender !in locals ==> Taking(live, locals, r, drop + [x], save)
  {
    hide Heap.IsHeap, NoBetter;
    PopMembers(h, x, r);
    RootNoBetter(h, x, r);
    SiftOne(h, r, x, drop, save);
  }

  lemma SiftOne(h: seq<Tx>, r: seq<Tx>, x: Tx, drop: seq<Tx>, save: seq<Tx>)
    requires Sifted(drop + save, h) && (forall t :: t in h <==> t in r || t == x)
    requires forall t :: t in r ==> NoBetter(x, t)
    ensures Sifted(drop + save, r) && Sifted(drop + (save + [x]), r) && Sifted((drop + [x]) + save, r)
  {
    hide NoBetter;
    assert forall t :: t in drop + (save + [x]) ==> t in drop + save || t == x;
    assert forall t :: t in (drop + [x]) + save ==> t in drop + save || t == x;
  }

  /** The entries with a remote sender, stale ones included. */
  function RemoteCount(heap: seq<Tx>, locals: set<Address>): nat {
    if heap == [] then 0
    else RemoteCount(heap[..|heap| - 1], locals) + if heap[|heap| - 1].sender in locals then 0 else 1
  }

  lemma {:induction false} RemoteCountBound(heap: seq<Tx>, k: nat, locals: set<Address>)
    requires k <= |heap|
    ensures RemoteCount(heap[..k], locals) <= RemoteCount(heap, locals) <= |heap|
    decreases |heap|
  {
    if k < |heap| {
      RemoteCountBound(heap[..|heap| - 1], k, locals);
      assert heap[..|heap| - 1][..k] == heap[..k];
    } else {
      assert heap[..k] == heap;
      if heap != [] {
        RemoteCountBound(heap[..|heap| - 1], |heap| - 1, locals);
      }
    }
  }

  /** The slots `Discard` really goes for: with local accounts around, never more than there
      are remote entries. */
  function DiscardGoal(heap: seq<Tx>, slots: int, locals: set<Address>): int {
    if locals != {} && slots > RemoteCount(heap, locals) then RemoteCount(heap, locals) else slots
  }

  /** Allocating the result lists panics when a capacity would be negative. */
  predicate DiscardPanics(heap: seq<Tx>, slots: int, locals: set<Address>) {
    var goal := DiscardGoal(heap, slots, locals);
    goal < 0 || goal > |heap|
  }

  /** Only a pool without local accounts can be asked for more than the heap holds. */
  lemma PanicsIff(heap: seq<Tx>, slots: int, locals: set<Address>)
    requires slots >= 0
    ensures DiscardPanics(heap, slots, locals) <==> locals == {} && slots > |heap|
  {
    RemoteCountBound(heap, |heap|, locals);
  }

  /** The heap once its stale head entries are popped. */
  function StaleFree(heap: seq<Tx>, live: set<Tx>): seq<Tx>
    decreases |heap|
  {
    if heap == [] || heap[0] in live then heap else StaleFree(Heap.Popped(heap, PriceRank), live)
  }

  lemma {:induction false} StaleFreeShrinks(heap: seq<Tx>, live: set<Tx>)
    ensures |StaleFree(heap, live)| <= |heap|
    decreases |heap|
  {
    if heap != [] && heap[0] !in live {
      StaleFreeShrinks(Heap.Popped(heap, PriceRank), live);
    }
  }

  class TxPricedList {
    const lookup: TxLookup
    var items: seq<Tx>
    var stales: int

    ghost predicate Tracking(live: set<Tx>, debt: int)
      reads this
    {
      Tracks(live, items, stales, debt)
    }

    constructor (lookup: TxLookup)
      ensures this.lookup == lookup && items == [] && stales == 0
    {
      this.lookup, items, stales := lookup, [], 0;
    }

    method Put(tx: Tx)
      requires Heap.IsHeap(items, PriceRank)
      modifies this
      ensures Heap.IsHeap(items, PriceRank) && multiset(items) == multiset(old(items)) + multiset{tx}
      ensures stales == old(stales)
      ensures forall live, debt :: old(Tracking(live, debt)) && tx !in live ==> Tracking(live + {tx}, debt)
    {
      hide Heap.IsHeap;
      items := Heap.Push(items, PriceRank, tx);
      PopMembers(items, tx, old(items));
    }

    /** Announces `count` removals: they only bump the counter until a quarter of the heap
        may be stale, and then the heap is rebuilt from the lookup. */
    method Removed(count: nat)
      modifies this
      ensures if old(stales) + count <= |old(items)| / 4
              then items == old(items) && stales == old(stales) + count
              else Heap.IsHeap(items, PriceRank) && multiset(items) == multiset(lookup.all) && stales == 0
      ensures forall debt :: old(Tracking(lookup.all, debt)) && count <= debt ==> Tracking(lookup.all, debt - count)
    {
      stales := stales + count;
      if stales <= |items| / 4 {
        return;
      }
      var reheap: seq<Tx> := [];
      var todo := lookup.all;
      while todo != {}
        invariant todo <= lookup.all && multiset(reheap) == multiset(lookup.all - todo)
      {
        var tx :| tx in todo;
        assert lookup.all - (todo - {tx}) == lookup.all - todo + {tx};
        reheap, todo := reheap + [tx], todo - {tx};
      }
      assert lookup.all - todo == lookup.all;
      items := Heap.Init(reheap, PriceRank);
      stales := 0;
      assert |multiset(items)| == |multiset(lookup.all)|;
      assert forall tx :: tx in lookup.all ==> tx in multiset(items);
    }

    /** Pops the stale entries at the head of the heap. */
    method PopStale()
      requires Heap.IsHeap(items, PriceRank)
      modifies this
      ensures items == StaleFree(old(items), lookup.all)
      ensures Heap.IsHeap(items, PriceRank) && |items| - stales == old(|items| - stales)
      ensures items == [] || items[0] in lookup.all
      ensures forall tx :: tx in lookup.all && tx in old(items) ==> tx in items
    {
      hide Heap.IsHeap;
      while |items| > 0 && items[0] !in lookup.all
        invariant Heap.IsHeap(items, PriceRank) && |items| - stales == old(|items| - stales)
        invariant forall tx :: tx in lookup.all && tx in old(items) ==> tx in items
        invariant StaleFree(items, lookup.all) == StaleFree(old(items), lookup.all)
        decreases |items|
      {
        stales := stales - 1;
        var x, rest := Heap.Pop(items, PriceRank);
        PopMembers(items, x, rest);
        items := rest;
      }
    }

    /** A remote transaction is underpriced exactly when the lookup holds something and
        nothing in it is cheaper. */
    method Underpriced(tx: Tx, locals: set<Address>) returns (under: bool)
      requires Tracking(lookup.all, 0)
      modifies this
      ensures Tracking(lookup.all, 0)
      ensures items == if tx.sender in locals then old(items) else StaleFree(old(items), lookup.all)
      ensures under <==> tx.sender !in locals && lookup.all != {} && forall t :: t in lookup.all ==> t.price >= tx.price
    {
      if tx.sender in locals {
        return false;
      }
      PopStale();
      if |items| == 0 {
        return false;
      }
      Heap.RootIsLeastOfAll(items, PriceRank);
      under := items[0].price >= tx.price;
    }

    /** Puts saved entries back. */
    method PutBack(save: seq<Tx>)
      requires Heap.IsHeap(items, PriceRank)
      modifies this`items
      ensures Heap.IsHeap(items, PriceRank) && |items| == |old(items)| + |save|
      ensures forall tx :: tx in items <==> tx in old(items) || tx in save
    {
      hide Heap.IsHeap;
      for i := 0 to |save|
        invariant Heap.IsHeap(items, PriceRank) && |items| == |old(items)| + i
        invariant forall tx :: tx in items <==> tx in old(items) || tx in save[..i]
      {
        var r := Heap.Push(items, PriceRank, save[i]);
        PopMembers(r, save[i], items);
        assert forall tx :: tx in save[..i + 1] <==> tx in save[..i] || tx == save[i];
        items := r;
      }
      assert save[..|save|] == save;
    }

    /** Takes live remote transactions off the heap while they are cheaper than the threshold. */
    method Cap(threshold: int, locals: set<Address>) returns (drop: seq<Tx>)
      requires Tracking(lookup.all, 0)
      modifies this
      ensures Elements(drop) == set tx | tx in lookup.all && tx.sender !in locals && tx.price < threshold
      ensures Tracking(lookup.all - Elements(drop), 0)
    {
      hide Heap.IsHeap, Heap.Popped, Taking;
      drop := [];
      var save: seq<Tx> := [];
      var done := false;
      ghost var live := lookup.all;
      TakingStarts(live, locals, items, stales, 0);
      while |items| > 0 && !done
        invariant !done ==> Taking(live, locals, items, drop, save)
        invariant done ==> |save| > 0 && CapStopped(live, locals, threshold, items, drop, save)
        invariant |items| + |drop| + |save| - stales == old(|items| - stales)
        invariant forall tx :: tx in drop ==> tx.price < threshold
        decreases |items|
      {
        TakingIsHeap(live, locals, items, drop, save);
        var x, rest := Heap.Pop(items, PriceRank);
        TakeOne(live, locals, items, x, rest, drop, save);
        if x !in lookup.all {
          stales := stales - 1;
        } else if x.price >= threshold {
          CapStops(live, locals, threshold, items, x, rest, drop, save);
          save := save + [x];
          done := true;
        } else if x.sender in locals {
          save := save + [x];
        } else {
          drop := drop + [x];
        }
        items := rest;
      }
      CapDone(live, locals, threshold, items, drop, save, done);
      ghost var heap := items;
      PutBack(save);
      HeldAfter(live, heap, items, drop, save);
      TracksAfter(live, items, stales, drop);
    }

    /** The first loop of `Discard`: counts remote entries, but no further than needed. */
    method CountDiscardable(slots: int, locals: set<Address>) returns (discardable: nat)
      ensures (if slots > discardable then discardable else slots)
           == (if slots > RemoteCount(items, locals) then RemoteCount(items, locals) else slots)
    {
      discardable := 0;
      for i := 0 to |items|
        invariant discardable == RemoteCount(items[..i], locals)
      {
        assert items[..i + 1][..i] == items[..i];
        if items[i].sender !in locals {
          discardable := discardable + 1;
        }
        if discardable >= slots {
          RemoteCountBound(items, i + 1, locals);
          return;
        }
      }
      assert items[..|items|] == items;
    }

    /** Takes the cheapest live remote transactions off the heap until `slots` slots are free. */
    method Discard(slots: int, locals: set<Address>) returns (panicked: bool, drop: seq<Tx>)
      requires Tracking(lookup.all, 0)
      modifies this
      ensures panicked == DiscardPanics(old(items), slots, locals)
      ensures panicked ==> drop == [] && items == old(items) && stales == old(stales)
      ensures Tracking(lookup.all - Elements(drop), 0)
      ensures forall d :: d in drop ==> d in lookup.all && d.sender !in locals
      // A lowest-ranked set of remote transactions goes:
      ensures forall d, t :: d in drop && t in lookup.all && t !in drop && t.sender !in locals ==> NoBetter(d, t)
      // .. it frees what was asked for, unless no remote transaction is left ..
      ensures !panicked ==> ListSlots(drop) >= DiscardGoal(old(items), slots, locals)
                            || forall t :: t in lookup.all && t.sender !in locals ==> t in drop
      // .. and none of it goes in vain.
      ensures drop != [] ==> ListSlots(drop[..|drop| - 1]) < DiscardGoal(old(items), slots, locals)
      ensures OneEach(old(items), lookup.all) ==> Distinct(drop)
    {
      hide Heap.IsHeap, NoBetter, ListSlots, RemoteCount, OneEach, Distinct, Tracks, Elements;
      drop := [];
      var goal := slots;
      if locals != {} {
        var discardable := CountDiscardable(slots, locals);
        if goal > discardable {
          goal := discardable;
        }
      }
      panicked := goal < 0 || goal > |items|;
      NothingDropped(lookup.all, items, stales);
      if goal == 0 || panicked {
        return;
      }
      var save;
      drop, save := TakeCheapest(goal, locals);
      ghost var heap := items;
      PutBack(save);
      HeldAfter(lookup.all, heap, items, drop, save);
      TracksAfter(lookup.all, items, stales, drop);
    }

    /** The second loop of `Discard`: pops until the goal is met or the heap is empty. */
    method TakeCheapest(goal: nat, locals: set<Address>) returns (drop: seq<Tx>, save: seq<Tx>)
      requires Tracking(lookup.all, 0) && goal > 0
      modifies this
      ensures Heap.IsHeap(items, PriceRank) && Held(lookup.all, items, drop, save) && Elements(drop) <= lookup.all
      ensures |items| + |drop| + |save| - stales <= |lookup.all|
      ensures forall d :: d in drop ==> d in lookup.all && d.sender !in locals
      ensures forall d, t :: d in drop && t in lookup.all && t !in drop && t.sender !in locals ==> NoBetter(d, t)
      ensures ListSlots(drop) >= goal || forall t :: t in lookup.all && t.sender !in locals ==> t in drop
      ensures drop != [] ==> ListSlots(drop[..|drop| - 1]) < goal
      ensures OneEach(old(items), lookup.all) ==> Distinct(drop)
    {
      hide Heap.IsHeap, Heap.Popped, Taking, NoBetter, Conserved, OneEach, Distinct, Held, Elements;
      drop, save := [], [];
      ghost var live, heap0 := lookup.all, items;
      TakingStarts(live, locals, items, stales, 0);
      NothingDropped(live, items, stales);
      var remaining: int := goal;
      while |items| > 0 && remaining > 0
        invariant Taking(live, locals, items, drop, save) && Conserved(live, heap0, items, drop, save)
        invariant |items| + |drop| + |save| - stales == old(|items| - stales)
        invariant remaining == goal - ListSlots(drop)
        invariant drop != [] ==> ListSlots(drop[..|drop| - 1]) < goal
        decreases |items|
      {
        TakingIsHeap(live, locals, items, drop, save);
        var x, rest := Heap.Pop(items, PriceRank);
        TakeOne(live, locals, items, x, rest, drop, save);
        ConserveOne(live, heap0, items, x, rest, drop, save);
        if x !in lookup.all {
          stales := stales - 1;
        } else if x.sender in locals {
          save := save + [x];
        } else {
          assert (drop + [x])[..|drop|] == drop;
          drop := drop + [x];
          remaining := remaining - NumSlots(x);
        }
        items := rest;
      }
      DiscardDone(live, locals, items, drop, save);
      if OneEach(heap0, live) {
        DropsDiffer(live, heap0, items, drop, save);
      }
    }
  }

  lemma TakingIsHeap(live: set<Tx>, locals: set<Address>, heap: seq<Tx>, drop: seq<Tx>, save: seq<Tx>)
    requires Taking(live, locals, heap, drop, save)
    ensures Heap.IsHeap(heap, PriceRank)
  {}

  lemma NothingDropped(live: set<Tx>, heap: seq<Tx>, stales: int)
    requires Tracks(live, heap, stales, 0)
    ensures Tracks(live - Elements([]), heap, stales, 0) && Conserved(live, heap, heap, [], []) && Distinct([])
  {
    assert live - Elements([]) == live;
  }

  lemma HeldAfter(live: set<Tx>, heap: seq<Tx>, heap': seq<Tx>, drop: seq<Tx>, save: seq<Tx>)
    requires Held(live, heap, drop, save) && (forall tx :: tx in heap' <==> tx in heap || tx in save)
    ensures Held(live, heap', drop, [])
  {}

  /** Taking `drop` off a heap that tracked `live` leaves one that tracks the rest. */
  lemma TracksAfter(live: set<Tx>, heap: seq<Tx>, stales: int, drop: seq<Tx>)
    requires Heap.IsHeap(heap, PriceRank) && Elements(drop) <= live
    requires Held(live, heap, drop, [])
    requires |heap| + |drop| - stales <= |live|
    ensures Tracks(live - Elements(drop), heap, stales, 0)
  {
    ElementsSize(drop);
    assert |live - Elements(drop)| == |live| - |Elements(drop)|;
  }

  /** The loop of `Cap` has seen an entry at or above the threshold. */
  ghost predicate CapStopped(live: set<Tx>, locals: set<Address>, threshold: int, heap: seq<Tx>, drop: seq<Tx>,
                             save: seq<Tx>) {
    && Heap.IsHeap(heap, PriceRank) && Held(live, heap, drop, save)
    && (forall tx :: tx in drop ==> tx in live && tx.sender !in locals)
    && (forall tx :: tx in save ==> tx in live && (tx.sender in locals || tx.price >= threshold))
    && (forall tx :: tx in heap ==> tx.price >= threshold)
  }

  lemma CapStops(live: set<Tx>, locals: set<Address>, threshold: int, h: seq<Tx>, x: Tx, r: seq<Tx>, drop: seq<Tx>,
                 save: seq<Tx>)
    requires Taking(live, locals, h, drop, save) && |h| > 0 && x == h[0] && x in live && x.price >= threshold
    requires Heap.IsHeap(r, PriceRank) && multiset(h) == multiset(r) + multiset{x}
    ensures CapStopped(live, locals, threshold, r, drop, save + [x])
  {
    hide Heap.IsHeap, Sifted;
    PopMembers(h, x, r);
    RootNoBetter(h, x, r);
  }

  lemma CapDone(live: set<Tx>, locals: set<Address>, threshold: int, heap: seq<Tx>, drop: seq<Tx>, save: seq<Tx>,
                done: bool)
    requires if done then CapStopped(live, locals, threshold, heap, drop, save)
             else heap == [] && Taking(live, locals, heap, drop, save)
    requires forall tx :: tx in drop ==> tx.price < threshold
    ensures Elements(drop) == set tx | tx in live && tx.sender !in locals && tx.price < threshold
    ensures Heap.IsHeap(heap, PriceRank) && Held(live, heap, drop, save) && Elements(drop) <= live
  {
    hide Heap.IsHeap, Sifted;
  }

  lemma DiscardDone(live: set<Tx>, locals: set<Address>, heap: seq<Tx>, drop: seq<Tx>, save: seq<Tx>)
    requires Taking(live, locals, heap, drop, save)
    ensures Heap.IsHeap(heap, PriceRank) && Held(live, heap, drop, save) && Elements(drop) <= live
    ensures forall d :: d in drop ==> d in live && d.sender !in locals
    ensures forall d, t :: d in drop && t in live && t !in drop && t.sender !in locals ==> NoBetter(d, t)
    ensures heap == [] ==> forall t :: t in live && t.sender !in locals ==> t in drop
  {
    hide Heap.IsHeap, NoBetter;
    assert forall d :: d in drop ==> d in drop + save;
  }

  /** Every live transaction has exactly one heap entry. */
  ghost predicate OneEach(heap: seq<Tx>, live: set<Tx>) {
    forall tx :: tx in live ==> multiset(heap)[tx] == 1
  }

  /** Entries of live transactions only move between the heap and the two lists. */
  ghost predicate Conserved(live: set<Tx>, heap0: seq<Tx>, heap: seq<Tx>, drop: seq<Tx>, save: seq<Tx>) {
    forall tx :: tx in live ==> multiset(heap0)[tx] == multiset(heap)[tx] + multiset(drop)[tx] + multiset(save)[tx]
  }

  lemma ConserveOne(live: set<Tx>, heap0: seq<Tx>, h: seq<Tx>, x: Tx, r: seq<Tx>, drop: seq<Tx>, save: seq<Tx>)
    requires Conserved(live, heap0, h, drop, save) && multiset(h) == multiset(r) + multiset{x}
    ensures x !in live ==> Conserved(live, heap0, r, drop, save)
    ensures Conserved(live, heap0, r, drop + [x], save) && Conserved(live, heap0, r, drop, save + [x])
  {}

  lemma DropsDiffer(live: set<Tx>, heap0: seq<Tx>, heap: seq<Tx>, drop: seq<Tx>, save: seq<Tx>)
    requires OneEach(heap0, live) && Conserved(live, heap0, heap, drop, save)
    requires forall d :: d in drop ==> d in live
    ensures Distinct(drop)
  {
    forall i, j | 0 <= i < j < |drop| ensures drop[i] != drop[j] {
      if drop[i] == drop[j] {
        Heap.Twice(drop, i, j);
      }
    }
  }

  function Remote(live: set<Tx>, locals: set<Address>): set<Tx> {
    set t | t in live && t.sender !in locals
  }

  lemma {:induction false} RemoteEntries(heap: seq<Tx>, locals: set<Address>)
    ensures |Remote(Elements(heap), locals)| <= RemoteCount(heap, locals)
  {
    if heap == [] {
      assert Remote(Elements(heap), locals) == {};
    } else {
      var h', last := heap[..|heap| - 1], heap[|heap| - 1];
      assert heap == h' + [last];
      RemoteEntries(h', locals);
      ElementsAppend(h', last);
      if last.sender in locals {
        assert Remote(Elements(heap), locals) == Remote(Elements(h'), locals);
      } else {
        assert Remote(Elements(heap), locals) == Remote(Elements(h'), locals) + {last};
      }
    }
  }

  /** With one entry per transaction, a discard frees the slots that were asked for or takes every
      remote transaction; where there are local accounts it may stop at as many slots as there
      are remote transactions. */
  lemma DiscardFrees(live: set<Tx>, heap: seq<Tx>, slots: int, locals: set<Address>, drop: seq<Tx>)
    requires OneEach(heap, live) && Distinct(drop) && (forall d :: d in drop ==> d in Remote(live, locals))
    requires forall t :: t in live ==> t in heap
    requires ListSlots(drop) >= DiscardGoal(heap, slots, locals) || forall t :: t in Remote(live, locals) ==> t in drop
    ensures || SumSlots(Elements(drop)) >= slots || Elements(drop) == Remote(live, locals)
            || (locals != {} && SumSlots(Elements(drop)) >= |Remote(live, locals)|)
  {
    DistinctSlots(drop);
    RemoteEntries(heap, locals);
    NonceMap.SubsetSize(Remote(live, locals), Remote(Elements(heap), locals));
  }
}
