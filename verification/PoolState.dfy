/** The views the pool keeps of one set of transactions, and what it means that they agree:
    per-account pending lists, per-account queued lists and the lookup of everything. */
module PoolState {
  import opened Types
  import opened NonceMap
  import opened TxLists
  import opened PricedList
  import Heap

  type Lists = map<Address, ListValue>

  function ItemsOf(m: Lists, a: Address): TxMap {
    if a in m then m[a].items else map[]
  }

  function ListOf(m: Lists, a: Address, strict: bool): ListValue {
    if a in m then m[a] else Empty(strict)
  }

  function Txs(m: TxMap): set<Tx> {
    set n | n in m :: m[n]
  }

  predicate Has(m: TxMap, tx: Tx) {
    tx.nonce in m && m[tx.nonce] == tx
  }

  /** `m` is keyed by nonce and all its transactions come from `a`. */
  ghost predicate Owned(m: TxMap, a: Address) {
    forall n :: n in m ==> m[n].nonce == n && m[n].sender == a
  }

  lemma TxsHas(m: TxMap)
    requires Keyed(m)
    ensures forall tx :: tx in Txs(m) <==> Has(m, tx)
  {}

  lemma {:induction false} TxsSize(m: TxMap)
    requires Keyed(m)
    ensures |Txs(m)| == |m|
    decreases |m|
  {
    if m == map[] {
      assert Txs(m) == {};
    } else {
      var n := MinNonce(m);
      DropSize(m, n);
      TxsSize(m - {n});
      TxsHas(m);
      TxsHas(m - {n});
      assert Txs(m) == Txs(m - {n}) + {m[n]};
    }
  }

  /** The lookup knows exactly the transactions of account `a` that are pending, queued or,
      midway through a move, in `floating`; no nonce is in two of these. */
  ghost predicate Holds(p: TxMap, q: TxMap, floating: TxMap, all: set<Tx>, a: Address) {
    && Owned(p, a) && Owned(q, a) && Owned(floating, a)
    && p.Keys !! q.Keys && p.Keys !! floating.Keys && q.Keys !! floating.Keys
    && (forall tx: Tx :: tx.sender == a ==> (tx in all <==> Has(p, tx) || Has(q, tx) || Has(floating, tx)))
  }

  /** A pending list is strict and a queued one is not; their caps are sound. */
  ghost predicate Shape(m: Lists, a: Address, strict: bool) {
    a in m ==> m[a].strict == strict && Capped(m[a])
  }

  /** No list is kept empty. */
  ghost predicate NoEmpty(m: Lists, a: Address) {
    a in m ==> m[a].items != map[]
  }

  ghost predicate AccountOk(pending: Lists, queue: Lists, all: set<Tx>, a: Address) {
    && Shape(pending, a, true) && NoEmpty(pending, a)
    && Shape(queue, a, false) && NoEmpty(queue, a)
    && Holds(ItemsOf(pending, a), ItemsOf(queue, a), map[], all, a)
  }

  /** The views agree. */
  ghost predicate Consistent(pending: Lists, queue: Lists, all: set<Tx>) {
    forall a: Address :: AccountOk(pending, queue, all, a)
  }

  ghost predicate SameBut(m: Lists, m': Lists, a: Address) {
    forall b: Address :: b != a ==> (b in m' <==> b in m) && (b in m ==> m'[b] == m[b])
  }

  ghost predicate SameTxsBut(all: set<Tx>, all': set<Tx>, a: Address) {
    forall tx: Tx :: tx.sender != a ==> (tx in all' <==> tx in all)
  }

  /** A change to one account's lists and transactions leaves every other account alone. */
  lemma OnlyAccountChanged(p: Lists, q: Lists, all: set<Tx>, p': Lists, q': Lists, all': set<Tx>, a: Address)
    requires Consistent(p, q, all) && AccountOk(p', q', all', a)
    requires SameBut(p, p', a) && SameBut(q, q', a) && SameTxsBut(all, all', a)
    ensures Consistent(p', q', all')
  {
    forall b: Address ensures AccountOk(p', q', all', b) {
      if b != a {
        assert AccountOk(p, q, all, b);
        OtherAccount(p, q, all, p', q', all', a, b);
      }
    }
  }

  lemma OtherAccount(p: Lists, q: Lists, all: set<Tx>, p': Lists, q': Lists, all': set<Tx>, a: Address, b: Address)
    requires b != a && AccountOk(p, q, all, b)
    requires SameBut(p, p', a) && SameBut(q, q', a) && SameTxsBut(all, all', a)
    ensures AccountOk(p', q', all', b)
  {
    assert ItemsOf(p', b) == ItemsOf(p, b) && ItemsOf(q', b) == ItemsOf(q, b);
  }

  // ----- Moves between the views of one account -----

  lemma PartKnown(p: TxMap, q: TxMap, f: TxMap, all: set<Tx>, a: Address, x: TxMap)
    requires Holds(p, q, f, all, a) && (Within(x, p) || Within(x, q) || Within(x, f))
    ensures Txs(x) <= all && Keyed(x) && Owned(x, a)
  {
    TxsHas(x);
    assert forall n :: n in x ==> x[n].sender == a;
    forall tx | tx in Txs(x) ensures tx in all {
      assert Has(x, tx) && tx.sender == a;
      assert Has(p, tx) || Has(q, tx) || Has(f, tx);
    }
  }

  lemma ForgetQueued(p: TxMap, q: TxMap, f: TxMap, all: set<Tx>, a: Address, x: TxMap)
    requires Holds(p, q, f, all, a) && Within(x, q)
    ensures Holds(p, Dropped(q, x), f, all - Txs(x), a)
  {
    TxsHas(x);
  }

  lemma ForgetPending(p: TxMap, q: TxMap, f: TxMap, all: set<Tx>, a: Address, x: TxMap)
    requires Holds(p, q, f, all, a) && Within(x, p)
    ensures Holds(Dropped(p, x), q, f, all - Txs(x), a)
  {
    TxsHas(x);
  }

  lemma FloatQueued(p: TxMap, q: TxMap, all: set<Tx>, a: Address, x: TxMap)
    requires Holds(p, q, map[], all, a) && Within(x, q)
    ensures Holds(p, Dropped(q, x), x, all, a)
  {}

  lemma FloatPending(p: TxMap, q: TxMap, all: set<Tx>, a: Address, x: TxMap)
    requires Holds(p, q, map[], all, a) && Within(x, p)
    ensures Holds(Dropped(p, x), q, x, all, a)
  {}

  lemma LandAllQueued(p: TxMap, q: TxMap, f: TxMap, all: set<Tx>, a: Address)
    requires Holds(p, q, f, all, a)
    ensures Holds(p, q + f, map[], all, a)
  {}

  lemma LandAllPending(p: TxMap, q: TxMap, f: TxMap, all: set<Tx>, a: Address)
    requires Holds(p, q, f, all, a)
    ensures Holds(p + f, q, map[], all, a)
  {}

  lemma UpdatedItems(m: Lists, a: Address, l: ListValue)
    ensures ItemsOf(m[a := l], a) == l.items && SameBut(m, m[a := l], a)
    ensures ItemsOf(m - {a}, a) == map[] && SameBut(m, m - {a}, a)
  {}

  lemma SameButTransitive(m: Lists, m': Lists, m'': Lists, a: Address)
    requires SameBut(m, m', a) && SameBut(m', m'', a)
    ensures SameBut(m, m'', a)
  {}

  /** Removing transactions from the lookup leaves removals to be announced to the heap. */
  lemma TracksRemoval(live: set<Tx>, heap: seq<Tx>, stales: int, debt: int, gone: set<Tx>)
    requires Tracks(live, heap, stales, debt) && gone <= live
    ensures Tracks(live - gone, heap, stales, debt + |gone|)
  {
    hide Heap.IsHeap;
    assert |live - gone| == |live| - |gone|;
  }

  /** Removal goes by nonce; where the views agree, it hits the right transaction. */
  lemma RemoveByNonce(p: TxMap, q: TxMap, all: set<Tx>, a: Address, tx: Tx)
    requires Holds(p, q, map[], all, a) && tx in all && tx.sender == a
    ensures tx.nonce in p ==> Holds(Below(p, tx.nonce), q, From(p, tx.nonce + 1), all - {tx}, a)
    ensures tx.nonce !in p ==> tx.nonce in q && Holds(p, Drop(q, tx.nonce), map[], all - {tx}, a)
  {}

  lemma SameItems(m: Lists, m': Lists, a: Address)
    requires SameBut(m, m', a)
    ensures forall b: Address :: b != a ==> ItemsOf(m', b) == ItemsOf(m, b)
  {}

  /** Storing a list, or dropping its entry once it is empty. */
  function Store(m: Lists, a: Address, l: ListValue): Lists {
    if l.items == map[] then m - {a} else m[a := l]
  }

  lemma Stored(m: Lists, a: Address, l: ListValue, strict: bool)
    requires Capped(l) && l.strict == strict
    ensures ItemsOf(Store(m, a, l), a) == l.items && SameBut(m, Store(m, a, l), a)
    ensures Shape(Store(m, a, l), a, strict) && NoEmpty(Store(m, a, l), a)
  {}

  lemma HoldsApart(p: TxMap, q: TxMap, f: TxMap, all: set<Tx>, a: Address)
    requires Holds(p, q, f, all, a)
    ensures Owned(f, a) && f.Keys !! q.Keys && f.Keys !! p.Keys && Txs(f) <= all && Keyed(p) && Keyed(q) && Keyed(f)
  {
    PartKnown(p, q, f, all, a, f);
  }

  lemma OwnTxs(all: set<Tx>, gone: set<Tx>, a: Address)
    requires forall tx :: tx in gone ==> tx.sender == a
    ensures SameTxsBut(all, all - gone, a)
  {}

  lemma ConsistentAt(p: Lists, q: Lists, all: set<Tx>, a: Address)
    requires Consistent(p, q, all)
    ensures Holds(ItemsOf(p, a), ItemsOf(q, a), map[], all, a)
    ensures Shape(p, a, true) && NoEmpty(p, a) && Shape(q, a, false) && NoEmpty(q, a)
  {
    assert AccountOk(p, q, all, a);
  }
}
