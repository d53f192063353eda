/** Per-account transaction lists: their value, the operations on it, what these keep, and
    the in-place class that the pool's lists are. */
module TxLists {
  import opened Types
  import opened NonceMap
  import opened TxSortedMap

  /** A list's value. The caps are lazily maintained bounds on the cost and gas of its members. */
  datatype ListValue = ListValue(strict: bool, items: TxMap, costcap: int, gascap: nat)

  function Empty(strict: bool): ListValue {
    ListValue(strict, map[], 0, 0)
  }

  /** A replacement must pay more than the old transaction, by the bump percentage. */
  predicate Outbids(tx: Tx, old_: Tx, bump: nat) {
    old_.price < tx.price && old_.price * (100 + bump) / 100 <= tx.price
  }

  /** In prices: the newcomer pays more, and in whole units no less than the old price with the
      percentage on top. */
  ghost predicate Raises(old_: int, new_: int, bump: nat) {
    new_ > old_ && 100 * new_ > old_ * (100 + bump) - 100
  }

  lemma OutbidsRaises(tx: Tx, old_: Tx, bump: nat)
    ensures Outbids(tx, old_, bump) <==> Raises(old_.price, tx.price, bump)
  {
    var asked := old_.price * (100 + bump);
    assert asked == asked / 100 * 100 + asked % 100;
  }

  predicate Accepts(l: ListValue, tx: Tx, bump: nat) {
    tx.nonce !in l.items || Outbids(tx, l.items[tx.nonce], bump)
  }

  function Added(l: ListValue, tx: Tx): ListValue {
    ListValue(l.strict, l.items[tx.nonce := tx], Max(l.costcap, tx.Cost()), Max(l.gascap, tx.gas))
  }

  function OverLimits(costLimit: int, gasLimit: nat): Tx -> bool {
    (tx: Tx) => tx.gas > gasLimit || tx.Cost() > costLimit
  }

  /** The short circuit of `Filter`. */
  predicate WithinCaps(l: ListValue, costLimit: int, gasLimit: nat) {
    l.costcap <= costLimit && l.gascap <= gasLimit
  }

  function FilterRemoved(l: ListValue, costLimit: int, gasLimit: nat): TxMap {
    if WithinCaps(l, costLimit, gasLimit) then map[] else Select(l.items, OverLimits(costLimit, gasLimit))
  }

  /** What a strict list also gives up: everything above the lowest removed nonce. */
  function FilterInvalids(l: ListValue, costLimit: int, gasLimit: nat): TxMap {
    var removed := FilterRemoved(l, costLimit, gasLimit);
    if removed == map[] || !l.strict then map[]
    else From(Reject(l.items, OverLimits(costLimit, gasLimit)), MinNonce(removed) + 1)
  }

  function Filtered(l: ListValue, costLimit: int, gasLimit: nat): ListValue {
    if WithinCaps(l, costLimit, gasLimit) then l
    else
      var removed := FilterRemoved(l, costLimit, gasLimit);
      var rest := Reject(l.items, OverLimits(costLimit, gasLimit));
      ListValue(l.strict,
                if removed == map[] || !l.strict then rest else Below(rest, MinNonce(removed) + 1),
                costLimit, gasLimit)
  }

  function RemoveInvalids(l: ListValue, nonce: nat): TxMap {
    if nonce in l.items && l.strict then From(l.items, nonce + 1) else map[]
  }

  function Removed(l: ListValue, nonce: nat): ListValue {
    l.(items := if nonce in l.items && l.strict then Below(l.items, nonce) else Drop(l.items, nonce))
  }

  // ----- Histories -----

  datatype Op =
    | OpAdd(tx: Tx, bump: nat)
    | OpForward(threshold: nat)
    | OpFilter(costLimit: int, gasLimit: nat)
    | OpCap(limit: nat)
    | OpRemove(nonce: nat)
    | OpReady(start: nat)

  function Apply(l: ListValue, op: Op): ListValue {
    match op
    case OpAdd(tx, bump) => if Accepts(l, tx, bump) then Added(l, tx) else l
    case OpForward(t) => l.(items := From(l.items, t))
    case OpFilter(c, g) => Filtered(l, c, g)
    case OpCap(k) => l.(items := Lowest(l.items, k))
    case OpRemove(n) => Removed(l, n)
    case OpReady(s) => l.(items := AfterReady(l.items, s))
  }

  function Run(l: ListValue, ops: seq<Op>): ListValue
    decreases |ops|
  {
    if ops == [] then l else Run(Apply(l, ops[0]), ops[1..])
  }

  /** The caps bound the cost and gas of every member. */
  ghost predicate Capped(l: ListValue) {
    Keyed(l.items) && forall n :: n in l.items ==> l.items[n].Cost() <= l.costcap && l.items[n].gas <= l.gascap
  }

  lemma ApplyKeepsCaps(l: ListValue, op: Op)
    requires Capped(l)
    ensures Capped(Apply(l, op)) && Apply(l, op).strict == l.strict
  {
  }

  /** In every history of a list, the caps stay upper bounds of all members. */
  lemma {:induction false} HistoryKeepsCaps(strict: bool, l: ListValue, ops: seq<Op>)
    requires Capped(l) && l.strict == strict
    ensures Capped(Run(l, ops)) && Run(l, ops).strict == strict
    decreases |ops|
  {
    if ops != [] {
      ApplyKeepsCaps(l, ops[0]);
      HistoryKeepsCaps(strict, Apply(l, ops[0]), ops[1..]);
    }
  }

  /** With sound caps, `Filter` removes what a full scan of the list would remove, whether
      or not it took the short circuit. */
  lemma FilterIsFullScan(l: ListValue, costLimit: int, gasLimit: nat)
    requires Capped(l)
    ensures FilterRemoved(l, costLimit, gasLimit) == Select(l.items, OverLimits(costLimit, gasLimit))
    ensures !l.strict ==> Filtered(l, costLimit, gasLimit).items == Reject(l.items, OverLimits(costLimit, gasLimit))
  {
    if WithinCaps(l, costLimit, gasLimit) {
      assert Select(l.items, OverLimits(costLimit, gasLimit)) == map[];
      assert Reject(l.items, OverLimits(costLimit, gasLimit)) == l.items;
    }
  }

  /** Three maps hold the transactions of `m` between them, each in one place. */
  ghost predicate Partition(m: TxMap, a: TxMap, b: TxMap, c: TxMap) {
    && a.Keys !! b.Keys !! c.Keys
    && a.Keys + b.Keys + c.Keys == m.Keys
    && (forall n :: n in a ==> a[n] == m[n])
    && (forall n :: n in b ==> b[n] == m[n])
    && (forall n :: n in c ==> c[n] == m[n])
  }

  /** Kept, removed and invalidated transactions partition the old list; a gapless strict
      list keeps a gapless prefix, up to the first transaction over the limits. */
  lemma FilterPartitions(l: ListValue, costLimit: int, gasLimit: nat, lo: nat, hi: nat)
    requires Capped(l)
    ensures Partition(l.items, Filtered(l, costLimit, gasLimit).items,
                      FilterRemoved(l, costLimit, gasLimit), FilterInvalids(l, costLimit, gasLimit))
    ensures l.strict && Spans(l.items, lo, hi) ==>
              var removed := Select(l.items, OverLimits(costLimit, gasLimit));
              Spans(Filtered(l, costLimit, gasLimit).items, lo, if removed == map[] then hi else MinNonce(removed))
  {
    FilterIsFullScan(l, costLimit, gasLimit);
    var over := OverLimits(costLimit, gasLimit);
    var removed := FilterRemoved(l, costLimit, gasLimit);
    assert forall n :: n in l.items ==> n in Select(l.items, over) || n in Reject(l.items, over);
    if l.strict && removed != map[] {
      var low := MinNonce(removed);
      assert low in removed && low !in Reject(l.items, over);
    }
  }

  /** Removing one transaction partitions the list too, and leaves a gapless prefix. */
  lemma RemovePartitions(l: ListValue, nonce: nat, lo: nat, hi: nat)
    requires nonce in l.items
    ensures Partition(l.items, Removed(l, nonce).items, map[nonce := l.items[nonce]], RemoveInvalids(l, nonce))
    ensures l.strict && Spans(l.items, lo, hi) ==> Spans(Removed(l, nonce).items, lo, nonce)
  {
  }

  /** `Ready` hands out the longest unbroken run from the lowest nonce, and that run
      together with what stays is the old list. */
  lemma ReadyIsMaximalRun(m: TxMap, start: nat)
    ensures Partition(m, AfterReady(m, start), ReadyRun(m, start), map[])
    ensures m != map[] && MinNonce(m) <= start ==>
              Spans(ReadyRun(m, start), MinNonce(m), RunEnd(m, MinNonce(m))) && RunEnd(m, MinNonce(m)) !in m
    ensures (m == map[] || MinNonce(m) > start) ==> ReadyRun(m, start) == map[]
  {
  }

  // ----- The in-place list -----

  class TxList {
    const strict: bool
    const txs: TxSortedMap
    var costcap: int
    var gascap: nat

    ghost predicate Valid()
      reads this, txs
    {
      txs.Valid()
    }

    function Value(): ListValue
      reads this, txs
    {
      ListValue(strict, txs.items, costcap, gascap)
    }

    constructor (strict: bool)
      ensures Valid() && fresh(txs) && Value() == Empty(strict)
    {
      this.strict := strict;
      txs := new TxSortedMap();
      costcap, gascap := 0, 0;
    }

    method Add(tx: Tx, bump: nat) returns (inserted: bool, replaced: Option<Tx>)
      requires Valid()
      modifies this, txs
      ensures Valid() && inserted == Accepts(old(Value()), tx, bump)
      ensures inserted <==> tx.nonce in old(txs.items) ==> Raises(old(txs.items)[tx.nonce].price, tx.price, bump)
      ensures Value() == if inserted then Added(old(Value()), tx) else old(Value())
      ensures replaced == if inserted && tx.nonce in old(txs.items) then Some(old(txs.items)[tx.nonce]) else None
    {
      replaced := None;
      if tx.nonce in txs.items {
        var was := txs.items[tx.nonce];
        OutbidsRaises(tx, was, bump);
        var threshold := was.price * (100 + bump) / 100;
        if was.price >= tx.price || tx.price < threshold {
          return false, None;
        }
        replaced := Some(was);
      }
      txs.Put(tx);
      if costcap < tx.Cost() {
        costcap := tx.Cost();
      }
      if gascap < tx.gas {
        gascap := tx.gas;
      }
      inserted := true;
    }

    method Forward(threshold: nat) returns (removed: seq<Tx>)
      requires Valid()
      modifies this, txs
      ensures Valid() && Value() == old(Value()).(items := From(old(txs.items), threshold))
      ensures Lists(removed, Below(old(txs.items), threshold)) && Ascending(removed)
    {
      removed := txs.Forward(threshold);
    }

    method Filter(costLimit: int, gasLimit: nat) returns (removed: seq<Tx>, invalids: seq<Tx>)
      requires Valid()
      modifies this, txs
      ensures Valid() && Value() == Filtered(old(Value()), costLimit, gasLimit)
      ensures Lists(removed, FilterRemoved(old(Value()), costLimit, gasLimit))
      ensures Lists(invalids, FilterInvalids(old(Value()), costLimit, gasLimit))
    {
      hide Lists, Select, Reject, From, Below, Indexes, OverLimits;
      Opening(map[]);
      if costcap <= costLimit && gascap <= gasLimit {
        return [], [];
      }
      costcap := costLimit;
      gascap := gasLimit;
      ghost var dropped := Select(txs.items, OverLimits(costLimit, gasLimit));
      removed := txs.Filter(OverLimits(costLimit, gasLimit));
      ListedSize(removed, dropped);
      invalids := [];
      if |removed| == 0 {
        return;
      }
      if strict {
        var lowest := LowestOf(removed, dropped);
        AboveIsFrom(txs.items, lowest);
        invalids := txs.DropMatching((tx: Tx) => tx.nonce > lowest);
      }
      txs.Reheap();
    }

    method Cap(threshold: nat) returns (drops: seq<Tx>)
      requires Valid()
      modifies this, txs
      ensures Valid() && Value() == old(Value()).(items := Lowest(old(txs.items), threshold))
      ensures Lists(drops, Dropped(old(txs.items), txs.items)) && Descending(drops)
    {
      drops := txs.Cap(threshold);
    }

    method Remove(tx: Tx) returns (found: bool, invalids: seq<Tx>)
      requires Valid()
      modifies this, txs
      ensures Valid() && Value() == Removed(old(Value()), tx.nonce)
      ensures found <==> tx.nonce in old(txs.items)
      ensures Lists(invalids, RemoveInvalids(old(Value()), tx.nonce))
    {
      hide Lists, Select, Reject, From, Below, Indexes;
      Opening(map[]);
      invalids := [];
      ghost var m := txs.items;
      found := txs.Remove(tx.nonce);
      if found && strict {
        ghost var rest := txs.items;
        invalids := txs.Filter((t: Tx) => t.nonce > tx.nonce);
        AboveIsFrom(rest, tx.nonce);
        WithoutNonce(m, tx.nonce);
      }
    }

    method Ready(start: nat) returns (ready: seq<Tx>)
      requires Valid()
      modifies this, txs
      ensures Valid() && Value() == old(Value()).(items := AfterReady(old(txs.items), start))
      ensures Lists(ready, ReadyRun(old(txs.items), start)) && Ascending(ready)
    {
      ready := txs.Ready(start);
    }

    method Flatten() returns (s: seq<Tx>)
      requires Valid()
      modifies this, txs
      ensures Valid() && Value() == old(Value())
      ensures Lists(s, txs.items) && Ascending(s)
    {
      s := txs.Flatten();
    }

    method LastElement() returns (tx: Tx)
      requires Valid() && txs.items != map[]
      modifies this, txs
      ensures Valid() && Value() == old(Value())
      ensures tx == txs.items[MaxNonce(txs.items)]
    {
      tx := txs.LastElement();
    }
  }

  /** The loop of `Filter` that looks for the lowest removed nonce. */
  method LowestOf(removed: seq<Tx>, ghost m: TxMap) returns (lowest: nat)
    requires Lists(removed, m) && |removed| > 0
    ensures m != map[] && lowest == MinNonce(m)
  {
    lowest := removed[0].nonce;
    for i := 1 to |removed|
      invariant lowest in m && forall k :: 0 <= k < i ==> lowest <= removed[k].nonce
    {
      if lowest > removed[i].nonce {
        lowest := removed[i].nonce;
      }
    }
    LowestListed(removed, m, lowest);
  }

  lemma LowestListed(s: seq<Tx>, m: TxMap, low: nat)
    requires Lists(s, m) && low in m && forall k :: 0 <= k < |s| ==> low <= s[k].nonce
    ensures MinNonce(m) == low
  {
    ListsAll(s, m, MinNonce(m));
  }

  lemma WithoutNonce(m: TxMap, n: nat)
    ensures From(m - {n}, n + 1) == From(m, n + 1) && Below(m - {n}, n + 1) == Below(m, n)
  {}

  /** Filtering out nonces above `low` splits a map at `low + 1`. */
  lemma AboveIsFrom(m: TxMap, low: nat)
    requires Keyed(m)
    ensures Select(m, (tx: Tx) => tx.nonce > low) == From(m, low + 1)
    ensures Reject(m, (tx: Tx) => tx.nonce > low) == Below(m, low + 1)
  {}
}
