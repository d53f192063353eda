/** The nonce-sorted transaction map: a hash map, a heap of its nonces and a cache of its
    sorted contents, all changed in place. Every method is proved against the value
    operations of `NonceMap`. */
module TxSortedMap {
  import opened Types
  import opened NonceMap
  import Heap

  function NonceRank(n: nat): Heap.Rank {
    Heap.Rank(n, 0)
  }

  function TxRank(tx: Tx): Heap.Rank {
    Heap.Rank(tx.nonce, 0)
  }

  /** The nonces in the heap are the keys of the map, once each. */
  ghost predicate Indexes(index: seq<nat>, m: TxMap) {
    Heap.IsHeap(index, NonceRank) && multiset(index) == multiset(m.Keys)
  }

  lemma IndexRoot(index: seq<nat>, m: TxMap)
    requires Indexes(index, m)
    ensures |index| == |m|
    ensures forall n :: n in m <==> n in index
    ensures |index| > 0 ==> index[0] in m && forall n :: n in m ==> index[0] <= n
  {
    assert |multiset(index)| == |multiset(m.Keys)| == |m.Keys|;
    assert forall n :: n in index <==> n in multiset(index);
    assert forall n :: n in m.Keys <==> n in multiset(m.Keys);
    if |index| > 0 {
      Heap.RootIsLeastOfAll(index, NonceRank);
    }
  }

  lemma IndexIsHeap(index: seq<nat>, m: TxMap)
    requires Indexes(index, m)
    ensures Heap.IsHeap(index, NonceRank)
  {}

  lemma IndexDrop(index: seq<nat>, index': seq<nat>, m: TxMap, n: nat)
    requires multiset(index) == multiset(m.Keys) && n in m
    requires multiset(index) == multiset(index') + multiset{n}
    ensures multiset(index') == multiset((m - {n}).Keys)
  {
    assert (m - {n}).Keys == m.Keys - {n};
    assert multiset(index') == multiset(index) - multiset{n};
  }

  /** What every loop below starts from. */
  lemma Opening(m: TxMap)
    ensures From(m, 0) == m && Below(m, 0) == map[]
    ensures Lists([], map[]) && Ascending([]) && Descending([])
  {}

  lemma KeyedParts(m: TxMap, t: nat)
    requires Keyed(m)
    ensures Keyed(From(m, t)) && Keyed(Below(m, t))
  {}

  lemma ListedSize(s: seq<Tx>, m: TxMap)
    requires Lists(s, m)
    ensures |s| == |m|
  {}

  lemma CacheSplit(s: seq<Tx>, m: TxMap, t: nat)
    requires Lists(s, m) && Ascending(s)
    ensures |s| == |m| && |Below(m, t)| + |From(m, t)| == |m|
    ensures Lists(s[..|Below(m, t)|], Below(m, t)) && Ascending(s[..|Below(m, t)|])
    ensures Lists(s[|Below(m, t)|..], From(m, t)) && Ascending(s[|Below(m, t)|..])
  {
    SortedSplit(s, m, t);
    SplitSize(m, Below(m, t), From(m, t));
  }

  lemma AscendingAppend(taken: seq<Tx>, m: TxMap, cut: nat, n: nat)
    requires Keyed(m) && Lists(taken, Below(m, cut)) && Ascending(taken) && cut <= n && n in m
    ensures Ascending(taken + [m[n]])
  {}

  /** Popping the least nonce moves the boundary between the transactions taken and those
      that remain just past it. */
  lemma PopIndex(m: TxMap, cut: nat, index: seq<nat>, n: nat, rest: seq<nat>)
    requires Indexes(index, From(m, cut)) && |index| > 0 && n == index[0]
    requires Heap.IsHeap(rest, NonceRank) && multiset(index) == multiset(rest) + multiset{n}
    ensures cut <= n && n in m && n in From(m, cut) && From(m, cut)[n] == m[n]
    ensures Drop(From(m, cut), n) == From(m, n + 1) && |From(m, n + 1)| < |From(m, cut)|
    ensures Below(m, n + 1) == Below(m, cut)[n := m[n]]
    ensures Indexes(rest, From(m, n + 1))
  {
    hide Heap.IsHeap;
    IndexRoot(index, From(m, cut));
    IndexDrop(index, rest, From(m, cut), n);
    BoundaryStep(m, cut, n);
  }

  lemma BoundaryStep(m: TxMap, cut: nat, n: nat)
    requires n in From(m, cut) && forall k :: k in From(m, cut) ==> n <= k
    ensures Drop(From(m, cut), n) == From(m, n + 1) && |From(m, n + 1)| < |From(m, cut)|
    ensures Below(m, n + 1) == Below(m, cut)[n := m[n]]
  {
    assert forall k :: k in m && cut <= k ==> k in From(m, cut);
    DropSize(From(m, cut), n);
  }

  lemma PopListed(m: TxMap, cut: nat, n: nat, taken: seq<Tx>)
    requires Keyed(m) && n in m && cut <= n && Below(m, n + 1) == Below(m, cut)[n := m[n]]
    requires Lists(taken, Below(m, cut)) && Ascending(taken)
    ensures Lists(taken + [m[n]], Below(m, n + 1)) && Ascending(taken + [m[n]])
  {
    AscendingAppend(taken, m, cut, n);
    hide Lists;
    ListsAppend(taken, Below(m, cut), m[n]);
  }

  /** When the least remaining nonce has reached `t`, the boundary may as well be `t`. */
  lemma PopEnd(m: TxMap, cut: nat, index: seq<nat>, t: nat)
    requires Indexes(index, From(m, cut)) && cut <= t && (|index| == 0 || index[0] >= t)
    ensures From(m, cut) == From(m, t) && Below(m, cut) == Below(m, t)
  {
    IndexRoot(index, From(m, cut));
    assert forall n :: n in m && cut <= n ==> n in From(m, cut);
  }

  lemma ReadyEnd(m: TxMap, lo: nat, next: nat, index: seq<nat>)
    requires lo in m && (forall n :: n in m ==> lo <= n)
    requires lo <= next && (forall n :: lo <= n < next ==> n in m)
    requires Indexes(index, From(m, next)) && (|index| == 0 || index[0] != next)
    ensures MinNonce(m) == lo && RunEnd(m, lo) == next
  {
    IndexRoot(index, From(m, next));
    assert next in m ==> next in From(m, next);
    RunEndIs(m, lo, next);
  }

  /** The map midway through `filter`, with `todo` still to visit. */
  ghost function Filtering(m: TxMap, todo: TxMap, filter: Tx -> bool): TxMap {
    Reject(m, filter) + Select(todo, filter)
  }

  lemma PartShrinks(m: TxMap, todo: TxMap, n: nat)
    requires Within(todo, m) && n in todo
    ensures Within(Drop(todo, n), m) && |Drop(todo, n)| < |todo| && n in m && todo[n] == m[n]
  {
    DropSize(todo, n);
  }

  /** One iteration of `filter`: transaction `n` leaves the part still to visit. */
  lemma FilterListed(m: TxMap, todo: TxMap, n: nat, filter: Tx -> bool, removed: seq<Tx>)
    requires Keyed(m) && n in todo && Within(todo, m)
    requires Lists(removed, Select(Dropped(m, todo), filter))
    ensures Lists(if filter(m[n]) then removed + [m[n]] else removed, Select(Dropped(m, Drop(todo, n)), filter))
  {
    hide Lists;
    var was, now := Select(Dropped(m, todo), filter), Select(Dropped(m, Drop(todo, n)), filter);
    if filter(m[n]) {
      assert now == was[n := m[n]];
      ListsAppend(removed, was, m[n]);
    } else {
      assert now == was;
    }
  }

  lemma FilterKept(m: TxMap, todo: TxMap, n: nat, filter: Tx -> bool)
    requires n in todo && Within(todo, m)
    ensures Filtering(m, Drop(todo, n), filter)
         == if filter(m[n]) then Drop(Filtering(m, todo, filter), n) else Filtering(m, todo, filter)
  {}

  lemma RangeOpening(m: TxMap)
    ensures Within(m, m) && Lists([], Dropped(m, m)) && Dropped(m, map[]) == m
  {
    assert Dropped(m, m) == map[];
  }

  lemma RangeStep(m: TxMap, todo: TxMap, n: nat, txs: seq<Tx>)
    requires Keyed(m) && n in todo && Within(todo, m) && Lists(txs, Dropped(m, todo))
    ensures Lists(txs + [m[n]], Dropped(m, Drop(todo, n)))
  {
    assert Dropped(m, Drop(todo, n)) == Dropped(m, todo)[n := m[n]];
    ListsAppend(txs, Dropped(m, todo), m[n]);
  }

  lemma CapNothing(m: TxMap, k: nat)
    ensures Lists([], Dropped(m, m)) && Descending([])
    ensures |m| <= k ==> Lowest(m, k) == m
  {}

  lemma CapOpening(m: TxMap, sorted: seq<nat>)
    ensures Lists([], Dropped(m, m)) && Kept(m, sorted, |sorted|) == m
  {}

  lemma CapStep(m: TxMap, kept: TxMap, n: nat, drops: seq<Tx>)
    requires n in kept && kept.Keys <= m.Keys && Keyed(m) && kept[n] == m[n]
    requires Lists(drops, Dropped(m, kept))
    requires Descending(drops) && forall i :: 0 <= i < |drops| ==> n < drops[i].nonce
    ensures Lists(drops + [m[n]], Dropped(m, Drop(kept, n))) && |Drop(kept, n)| == |kept| - 1
    ensures Descending(drops + [m[n]]) && m[n].nonce == n
  {
    DropSize(kept, n);
    assert Dropped(m, Drop(kept, n)) == Dropped(m, kept)[n := m[n]];
    ListsAppend(drops, Dropped(m, kept), m[n]);
  }

  lemma FilterOpening(m: TxMap, filter: Tx -> bool)
    ensures Within(m, m) && Filtering(m, m, filter) == m && Lists([], Select(Dropped(m, m), filter))
  {
    assert Select(Dropped(m, m), filter) == map[];
  }

  lemma FilterEnd(m: TxMap, filter: Tx -> bool)
    requires Keyed(m)
    ensures Select(Dropped(m, map[]), filter) == Select(m, filter)
    ensures Filtering(m, map[], filter) == Reject(m, filter) && Keyed(Reject(m, filter))
  {
    assert Dropped(m, map[]) == m;
  }

  class TxSortedMap {
    var items: TxMap
    var index: seq<nat>
    var cache: Option<seq<Tx>>

    ghost predicate Valid()
      reads this
    {
      && Keyed(items)
      && Indexes(index, items)
      && (cache.Some? ==> Lists(cache.value, items) && Ascending(cache.value))
    }

    constructor ()
      ensures Valid() && items == map[]
    {
      items, index, cache := map[], [], None;
    }

    method Put(tx: Tx)
      requires Valid()
      modifies this
      ensures Valid() && items == old(items)[tx.nonce := tx]
    {
      if tx.nonce !in items {
        index := Heap.Push(index, NonceRank, tx.nonce);
        assert (items[tx.nonce := tx]).Keys == items.Keys + {tx.nonce};
      } else {
        assert (items[tx.nonce := tx]).Keys == items.Keys;
      }
      items, cache := items[tx.nonce := tx], None;
    }

    method Forward(threshold: nat) returns (removed: seq<Tx>)
      requires Valid()
      modifies this
      ensures Valid() && items == From(old(items), threshold)
      ensures Lists(removed, Below(old(items), threshold)) && Ascending(removed)
    {
      hide Lists, Ascending, Indexes, Keyed, From, Below;
      ghost var m := items;
      removed := PopBelow(threshold);
      KeyedParts(m, threshold);
      if cache.Some? {
        CacheSplit(cache.value, m, threshold);
        ListedSize(removed, Below(m, threshold));
        cache := Some(cache.value[|removed|..]);
      }
    }

    /** The loop of `Forward`: pops nonces off the heap until the threshold is reached. */
    method PopBelow(threshold: nat) returns (removed: seq<Tx>)
      requires Keyed(items) && Indexes(index, items)
      modifies this`items, this`index
      ensures items == From(old(items), threshold) && Indexes(index, items)
      ensures Lists(removed, Below(old(items), threshold)) && Ascending(removed)
    {
      hide *;
      ghost var m := items;
      ghost var cut: nat := 0;
      Opening(m);
      removed := [];
      while |index| > 0 && index[0] < threshold
        invariant cut <= threshold && items == From(m, cut) && Indexes(index, items)
        invariant Lists(removed, Below(m, cut)) && Ascending(removed)
        decreases |items|
      {
        IndexIsHeap(index, items);
        var nonce, rest := Heap.Pop(index, NonceRank);
        PopIndex(m, cut, index, nonce, rest);
        PopListed(m, cut, nonce, removed);
        assert Drop(items, nonce) == From(m, nonce + 1) && items[nonce] == m[nonce];
        removed := removed + [items[nonce]];
        items := Drop(items, nonce);
        index := rest;
        cut := nonce + 1;
      }
      PopEnd(m, cut, index, threshold);
    }

    /** `filter`: drops the matching transactions without rebuilding the heap. */
    method DropMatching(filter: Tx -> bool) returns (removed: seq<Tx>)
      requires Keyed(items)
      modifies this
      ensures items == Reject(old(items), filter) && Lists(removed, Select(old(items), filter))
      ensures Keyed(items) && index == old(index)
      ensures cache == if removed == [] then old(cache) else None
    {
      hide *;
      ghost var m := items;
      var todo: TxMap := items;
      FilterOpening(m, filter);
      removed := [];
      while todo.Keys != {}
        invariant Within(todo, m) && items == Filtering(m, todo, filter)
        invariant Lists(removed, Select(Dropped(m, todo), filter))
        invariant index == old(index) && cache == old(cache)
        decreases |todo|
      {
        var n: nat :| n in todo.Keys;
        PartShrinks(m, todo, n);
        FilterListed(m, todo, n, filter, removed);
        FilterKept(m, todo, n, filter);
        if filter(todo[n]) {
          removed := removed + [todo[n]];
          items := Drop(items, n);
        }
        todo := Drop(todo, n);
      }
      assert todo == map[];
      FilterEnd(m, filter);
      if |removed| > 0 {
        cache := None;
      }
    }

    method Reheap()
      requires Keyed(items)
      modifies this
      ensures Valid() && items == old(items) && cache == None
    {
      var nonces: seq<nat> := [];
      var todo := items.Keys;
      while todo != {}
        invariant todo <= items.Keys && items == old(items)
        invariant multiset(nonces) == multiset(items.Keys - todo)
      {
        var n: nat :| n in todo;
        assert items.Keys - (todo - {n}) == (items.Keys - todo) + {n};
        nonces, todo := nonces + [n], todo - {n};
      }
      assert items.Keys - todo == items.Keys;
      index := Heap.Init(nonces, NonceRank);
      cache := None;
    }

    method Filter(filter: Tx -> bool) returns (removed: seq<Tx>)
      requires Valid()
      modifies this
      ensures Valid() && items == Reject(old(items), filter)
      ensures Lists(removed, Select(old(items), filter))
    {
      removed := DropMatching(filter);
      if |removed| > 0 {
        Reheap();
      } else {
        assert items == old(items) by {
          assert Select(old(items), filter) == map[];
          assert forall n :: n in old(items) && filter(old(items)[n]) ==> n in Select(old(items), filter);
        }
      }
    }

    method Cap(threshold: nat) returns (drops: seq<Tx>)
      requires Valid()
      modifies this
      ensures Valid() && items == Lowest(old(items), threshold)
      ensures Lists(drops, Dropped(old(items), items)) && Descending(drops)
    {
      hide Lists, Ascending, Descending, Indexes, Keyed, Below, Kept, SortedKeys, Lowest, Dropped, Heap.IsHeap;
      hide Heap.Sorted;
      ghost var m := items;
      CapNothing(m, threshold);
      if |items| <= threshold {
        return [];
      }
      var sorted := Heap.Sort(index, NonceRank);
      SortedIndex(index, sorted, m);
      drops := DropAbove(sorted, threshold);
      CapEnd(m, sorted, threshold);
      index := Heap.Init(sorted[..threshold], NonceRank);
      IndexMade(index, sorted[..threshold], items);
      KeyedParts(m, sorted[threshold]);
      if cache.Some? {
        CacheSplit(cache.value, m, sorted[threshold]);
        ListedSize(drops, Dropped(m, items));
        cache := Some(cache.value[..|cache.value| - |drops|]);
      }
    }

    /** The loop of `Cap`: drops nonces from the top of the sorted index. */
    method DropAbove(sorted: seq<nat>, threshold: nat) returns (drops: seq<Tx>)
      requires threshold < |items| == |sorted| && Keyed(items) && SortedKeys(sorted, items)
      modifies this`items
      ensures items == Kept(old(items), sorted, threshold) && |items| == threshold
      ensures Lists(drops, Dropped(old(items), items)) && Descending(drops)
    {
      ghost var m := items;
      hide *;
      Opening(m);
      CapOpening(m, sorted);
      drops := [];
      var size := |items|;
      while size > threshold
        invariant threshold <= size <= |m| == |sorted|
        invariant items == Kept(m, sorted, size) && |items| == size
        invariant Lists(drops, Dropped(m, items)) && Descending(drops)
        invariant size == |sorted| ==> drops == []
        invariant size < |sorted| ==> forall i :: 0 <= i < |drops| ==> sorted[size] <= drops[i].nonce
      {
        var n := sorted[size - 1];
        SortedBelow(sorted, m, size);
        CapStep(m, items, n, drops);
        assert Drop(items, n) == Kept(m, sorted, size - 1);
        drops := drops + [items[n]];
        items := Drop(items, n);
        size := size - 1;
      }
    }

    method Remove(nonce: nat) returns (found: bool)
      requires Valid()
      modifies this
      ensures Valid() && items == old(items) - {nonce}
      ensures found <==> nonce in old(items)
    {
      found := nonce in items;
      if !found {
        assert items - {nonce} == items;
        return;
      }
      IndexRoot(index, items);
      var i := 0;
      while i < |index| && index[i] != nonce
        invariant i <= |index| && nonce !in index[..i]
      {
        i := i + 1;
      }
      var x, rest := Heap.Remove(index, NonceRank, i);
      IndexDrop(index, rest, items, nonce);
      index, items, cache := rest, items - {nonce}, None;
    }

    method Ready(start: nat) returns (ready: seq<Tx>)
      requires Valid()
      modifies this
      ensures Valid() && items == AfterReady(old(items), start)
      ensures Lists(ready, ReadyRun(old(items), start)) && Ascending(ready)
    {
      hide Lists, Ascending, Indexes, Keyed, From, Below;
      ghost var m := items;
      Opening(m);
      IndexRoot(index, m);
      ready := [];
      if |index| == 0 || index[0] > start {
        return;
      }
      ghost var lo := index[0];
      ready := PopRun();
      KeyedParts(m, RunEnd(m, lo));
      cache := None;
    }

    /** The loop of `Ready`: pops nonces as long as they follow each other. */
    method PopRun() returns (ready: seq<Tx>)
      requires Keyed(items) && Indexes(index, items) && |index| > 0
      requires index[0] in items && forall n :: n in items ==> index[0] <= n
      modifies this`items, this`index
      ensures items == From(old(items), RunEnd(old(items), old(index[0]))) && Indexes(index, items)
      ensures Lists(ready, Below(old(items), RunEnd(old(items), old(index[0])))) && Ascending(ready)
    {
      hide *;
      ghost var m, lo := items, index[0];
      Opening(m);
      PopEnd(m, 0, index, lo);
      ready := [];
      var next := index[0];
      while |index| > 0 && index[0] == next
        invariant lo <= next && (forall n :: lo <= n < next ==> n in m)
        invariant items == From(m, next) && Indexes(index, items)
        invariant Lists(ready, Below(m, next)) && Ascending(ready)
        decreases |items|
      {
        IndexIsHeap(index, items);
        var nonce, rest := Heap.Pop(index, NonceRank);
        PopIndex(m, next, index, next, rest);
        PopListed(m, next, next, ready);
        assert Drop(items, next) == From(m, next + 1) && items[next] == m[next];
        ready := ready + [items[next]];
        items := Drop(items, next);
        index := rest;
        next := next + 1;
      }
      ReadyEnd(m, lo, next, index);
    }

    /** `flatten`: the sorted contents, computed at most once between changes. */
    method Flatten() returns (s: seq<Tx>)
      requires Valid()
      modifies this
      ensures Valid() && items == old(items)
      ensures Lists(s, items) && Ascending(s) && cache == Some(s)
    {
      if cache == None {
        var txs := Range();
        s := Heap.Sort(txs, TxRank);
        SortedListing(txs, s, items);
        cache := Some(s);
      }
      s := cache.value;
    }

    /** Lists the transactions in map order, as ranging over the map does. */
    method Range() returns (txs: seq<Tx>)
      requires Keyed(items)
      ensures Lists(txs, items)
    {
      hide *;
      RangeOpening(items);
      txs := [];
      var todo: TxMap := items;
      while todo.Keys != {}
        invariant Within(todo, items) && Lists(txs, Dropped(items, todo))
        decreases |todo|
      {
        var n: nat :| n in todo.Keys;
        PartShrinks(items, todo, n);
        RangeStep(items, todo, n, txs);
        txs, todo := txs + [todo[n]], Drop(todo, n);
      }
      assert todo == map[];
    }

    method LastElement() returns (tx: Tx)
      requires Valid() && items != map[]
      modifies this
      ensures Valid() && items == old(items)
      ensures tx == items[MaxNonce(items)]
    {
      var s := Flatten();
      tx := s[|s| - 1];
      ListsAll(s, items, MaxNonce(items));
    }
  }

  /** Sorting a listing by nonce gives the ascending listing. */
  lemma SortedListing(txs: seq<Tx>, s: seq<Tx>, m: TxMap)
    requires Lists(txs, m) && multiset(s) == multiset(txs) && Heap.Sorted(s, TxRank)
    ensures Lists(s, m) && Ascending(s)
  {
    assert |s| == |multiset(s)| == |txs|;
    forall i | 0 <= i < |s| ensures s[i].nonce in m && m[s[i].nonce] == s[i] {
      assert s[i] in multiset(txs);
    }
    forall i, j | 0 <= i < j < |s| ensures s[i].nonce < s[j].nonce {
      if s[i].nonce == s[j].nonce {
        assert s[i] == s[j];
        Heap.Twice(s, i, j);
        Once(txs, s[i]);
      }
    }
  }

  lemma {:induction false} Once<T>(s: seq<T>, x: T)
    requires forall i, j :: 0 <= i < j < |s| ==> s[i] != s[j]
    ensures multiset(s)[x] <= 1
  {
    if s != [] {
      var s', last := s[..|s| - 1], s[|s| - 1];
      assert s == s' + [last];
      Once(s', x);
      assert last !in s';
    }
  }

  lemma IndexMade(index: seq<nat>, nonces: seq<nat>, m: TxMap)
    requires Heap.IsHeap(index, NonceRank) && multiset(index) == multiset(nonces) == multiset(m.Keys)
    ensures Indexes(index, m)
  {}

  lemma SortedIndex(index: seq<nat>, sorted: seq<nat>, m: TxMap)
    requires Indexes(index, m) && multiset(sorted) == multiset(index) && Heap.Sorted(sorted, NonceRank)
    ensures |sorted| == |m| && SortedKeys(sorted, m) && Kept(m, sorted, |sorted|) == m
  {
    hide Heap.IsHeap;
    assert |multiset(sorted)| == |multiset(m.Keys)| == |m.Keys|;
    assert forall n :: n in sorted <==> n in multiset(sorted);
    forall i, j | 0 <= i < j < |sorted| ensures sorted[i] < sorted[j] {
      if sorted[i] == sorted[j] {
        Heap.Twice(sorted, i, j);
      }
    }
  }

  /** What remains of `m` once only the first `size` nonces of its sorted index are kept. */
  ghost function Kept(m: TxMap, sorted: seq<nat>, size: nat): TxMap
    requires size <= |sorted|
  {
    if size == |sorted| then m else Below(m, sorted[size])
  }

  ghost predicate SortedKeys(sorted: seq<nat>, m: TxMap) {
    && (forall n :: n in m <==> n in sorted)
    && (forall i, j :: 0 <= i < j < |sorted| ==> sorted[i] < sorted[j])
  }

  lemma SortedBelow(sorted: seq<nat>, m: TxMap, size: nat)
    requires 0 < size <= |sorted| && SortedKeys(sorted, m)
    ensures sorted[size - 1] in Kept(m, sorted, size) && Kept(m, sorted, size)[sorted[size - 1]] == m[sorted[size - 1]]
    ensures Drop(Kept(m, sorted, size), sorted[size - 1]) == Kept(m, sorted, size - 1)
    ensures Kept(m, sorted, size).Keys <= m.Keys
    ensures size < |sorted| ==> sorted[size - 1] < sorted[size]
  {
    var kept, n := Kept(m, sorted, size), sorted[size - 1];
    assert n in sorted;
    forall k | k in kept ensures k <= n {
      var i :| 0 <= i < |sorted| && sorted[i] == k;
    }
  }

  lemma KeptNone(sorted: seq<nat>, m: TxMap)
    requires SortedKeys(sorted, m)
    ensures Kept(m, sorted, 0).Keys == {}
  {
    assert forall n :: n in m ==> exists i :: 0 <= i < |sorted| && sorted[i] == n;
  }

  lemma {:induction false} SortedPrefix(sorted: seq<nat>, m: TxMap, k: nat)
    requires k <= |sorted| && SortedKeys(sorted, m)
    ensures multiset(sorted[..k]) == multiset(Kept(m, sorted, k).Keys)
  {
    hide SortedKeys, Kept;
    if k == 0 {
      KeptNone(sorted, m);
    } else {
      SortedPrefix(sorted, m, k - 1);
      SortedBelow(sorted, m, k);
      assert sorted[..k] == sorted[..k - 1] + [sorted[k - 1]];
      assert Kept(m, sorted, k).Keys == Kept(m, sorted, k - 1).Keys + {sorted[k - 1]};
    }
  }

  lemma BelowParts(m: TxMap, n: nat)
    ensures Below(m, n).Keys <= m.Keys && forall a :: a in Below(m, n) ==> Below(m, n)[a] == m[a]
    ensures forall a, b :: a in Below(m, n) && b in m && b !in Below(m, n) ==> a < b
    ensures Below(m, n).Keys !! Dropped(m, Below(m, n)).Keys
    ensures Below(m, n).Keys + Dropped(m, Below(m, n)).Keys == m.Keys
  {}

  lemma CapEnd(m: TxMap, sorted: seq<nat>, k: nat)
    requires k < |sorted| == |m| && SortedKeys(sorted, m) && |Kept(m, sorted, k)| == k
    ensures Kept(m, sorted, k) == Lowest(m, k) && Kept(m, sorted, k) == Below(m, sorted[k])
    ensures multiset(sorted[..k]) == multiset(Kept(m, sorted, k).Keys)
    ensures |Kept(m, sorted, k)| + |Dropped(m, Kept(m, sorted, k))| == |m|
  {
    hide SortedKeys, Below, Lowest, Dropped;
    BelowParts(m, sorted[k]);
    SortedPrefix(sorted, m, k);
    LowestUnique(m, k, Kept(m, sorted, k));
    SplitSize(m, Kept(m, sorted, k), Dropped(m, Kept(m, sorted, k)));
  }
}
