/** One account's transactions, keyed by nonce: the value that a `txSortedMap` stands for,
    and the pure operations that its in-place methods are proved against. */
module NonceMap {
  import opened Types

  type TxMap = map<nat, Tx>

  ghost predicate Keyed(m: TxMap) {
    forall n :: n in m ==> m[n].nonce == n
  }

  /** `s` holds different transactions of `m`. */
  ghost predicate Among(s: seq<Tx>, m: TxMap) {
    && (forall i :: 0 <= i < |s| ==> s[i].nonce in m && m[s[i].nonce] == s[i])
    && (forall i, j :: 0 <= i < j < |s| ==> s[i].nonce != s[j].nonce)
  }

  /** `s` lists every transaction of `m` once, in any order. */
  ghost predicate Lists(s: seq<Tx>, m: TxMap) {
    |s| == |m| && Among(s, m)
  }

  predicate Ascending(s: seq<Tx>) {
    forall i, j :: 0 <= i < j < |s| ==> s[i].nonce < s[j].nonce
  }

  predicate Descending(s: seq<Tx>) {
    forall i, j :: 0 <= i < j < |s| ==> s[i].nonce > s[j].nonce
  }

  function Drop(m: TxMap, n: nat): TxMap {
    m - {n}
  }

  /** What `m` holds and `kept` does not. */
  function Dropped(m: TxMap, kept: TxMap): TxMap {
    m - kept.Keys
  }

  function Below(m: TxMap, t: nat): TxMap {
    map n | n in m && n < t :: m[n]
  }

  function From(m: TxMap, t: nat): TxMap {
    map n | n in m && t <= n :: m[n]
  }

  function Select(m: TxMap, p: Tx -> bool): TxMap {
    map n | n in m && p(m[n]) :: m[n]
  }

  function Reject(m: TxMap, p: Tx -> bool): TxMap {
    map n | n in m && !p(m[n]) :: m[n]
  }

  lemma KeysSize(m: TxMap)
    ensures |m.Keys| == |m|
  {}

  ghost predicate Within(part: TxMap, m: TxMap) {
    forall n :: n in part ==> n in m && part[n] == m[n]
  }

  /** A map split by a key set loses none of its size. */
  lemma SplitSize(m: TxMap, a: TxMap, b: TxMap)
    requires a.Keys !! b.Keys && a.Keys + b.Keys == m.Keys
    ensures |a| + |b| == |m|
  {
    assert |a.Keys + b.Keys| == |a.Keys| + |b.Keys|;
    KeysSize(m);
    KeysSize(a);
    KeysSize(b);
  }

  lemma DropSize(m: TxMap, n: nat)
    requires n in m
    ensures |Drop(m, n)| == |m| - 1
  {
    assert (m - {n}).Keys == m.Keys - {n};
    KeysSize(m);
    KeysSize(m - {n});
  }

  lemma AddSize(m: TxMap, tx: Tx)
    requires tx.nonce !in m
    ensures |m[tx.nonce := tx]| == |m| + 1
  {
    assert m[tx.nonce := tx].Keys == m.Keys + {tx.nonce};
    KeysSize(m);
    KeysSize(m[tx.nonce := tx]);
  }

  lemma ListsAppend(s: seq<Tx>, m: TxMap, tx: Tx)
    requires Lists(s, m) && tx.nonce !in m
    ensures Lists(s + [tx], m[tx.nonce := tx])
  {
    AddSize(m, tx);
  }

  lemma {:induction false} AmongSize(s: seq<Tx>, m: TxMap)
    requires Among(s, m)
    ensures |s| <= |m|
  {
    if s != [] {
      var last := s[|s| - 1].nonce;
      assert Among(s[..|s| - 1], m - {last});
      AmongSize(s[..|s| - 1], m - {last});
      DropSize(m, last);
    }
  }

  /** A listing misses nothing. */
  lemma ListsAll(s: seq<Tx>, m: TxMap, n: nat)
    requires Lists(s, m) && n in m
    ensures exists i :: 0 <= i < |s| && s[i].nonce == n && s[i] == m[n]
  {
    if forall i :: 0 <= i < |s| ==> s[i].nonce != n {
      assert Among(s, m - {n});
      AmongSize(s, m - {n});
      DropSize(m, n);
    }
  }

  lemma {:induction false} SplitPoint(s: seq<Tx>, t: nat) returns (p: nat)
    requires Ascending(s)
    ensures p <= |s| && (forall i :: 0 <= i < p ==> s[i].nonce < t) && (forall i :: p <= i < |s| ==> t <= s[i].nonce)
  {
    if s == [] || s[|s| - 1].nonce < t {
      p := |s|;
    } else {
      p := SplitPoint(s[..|s| - 1], t);
    }
  }

  lemma AmongParts(s: seq<Tx>, m: TxMap, t: nat, p: nat)
    requires Among(s, m) && p <= |s| && (forall i :: 0 <= i < p ==> s[i].nonce < t)
    requires (forall i :: p <= i < |s| ==> t <= s[i].nonce)
    ensures Among(s[..p], Below(m, t)) && Among(s[p..], From(m, t))
  {}

  /** The sorted listing of a map, cut at a nonce, is the sorted listings of both parts. */
  lemma SortedSplit(s: seq<Tx>, m: TxMap, t: nat)
    requires Lists(s, m) && Ascending(s)
    ensures |Below(m, t)| <= |s|
    ensures Lists(s[..|Below(m, t)|], Below(m, t)) && Lists(s[|Below(m, t)|..], From(m, t))
  {
    hide Among, Ascending;
    var p := SplitPoint(s, t);
    AmongParts(s, m, t, p);
    AmongSize(s[..p], Below(m, t));
    AmongSize(s[p..], From(m, t));
    SplitSize(m, Below(m, t), From(m, t));
    assert p == |Below(m, t)|;
  }

  lemma MaxExists(s: set<nat>)
    requires s != {}
    ensures exists x :: x in s && forall y :: y in s ==> y <= x
  {
    var x :| x in s;
    var best := x;
    if s - {x} != {} {
      MaxExists(s - {x});
      var z :| z in s - {x} && forall y :: y in s - {x} ==> y <= z;
      best := if x <= z then z else x;
    }
    assert forall y :: y in s ==> y == x || y in s - {x};
    assert best in s && forall y :: y in s ==> y <= best;
  }

  lemma MinExists(s: set<nat>)
    requires s != {}
    ensures exists x :: x in s && forall y :: y in s ==> x <= y
  {
    var x :| x in s;
    var best := x;
    if s - {x} != {} {
      MinExists(s - {x});
      var z :| z in s - {x} && forall y :: y in s - {x} ==> z <= y;
      best := if x <= z then x else z;
    }
    assert forall y :: y in s ==> y == x || y in s - {x};
    assert best in s && forall y :: y in s ==> best <= y;
  }

  function MaxNonce(m: TxMap): (x: nat)
    requires m != map[]
    ensures x in m && forall y :: y in m ==> y <= x
  {
    assert m.Keys != {} by { var k :| k in m; assert k in m.Keys; }
    MaxExists(m.Keys);
    var x :| x in m.Keys && forall y :: y in m.Keys ==> y <= x;
    x
  }

  function MinNonce(m: TxMap): (x: nat)
    requires m != map[]
    ensures x in m && forall y :: y in m ==> x <= y
  {
    assert m.Keys != {} by { var k :| k in m; assert k in m.Keys; }
    MinExists(m.Keys);
    var x :| x in m.Keys && forall y :: y in m.Keys ==> x <= y;
    x
  }

  /** The `k` entries with the lowest nonces; all entries when there are no more than `k`. */
  function Lowest(m: TxMap, k: nat): (r: TxMap)
    ensures |r| == if |m| <= k then |m| else k
    ensures forall n :: n in r ==> n in m && r[n] == m[n]
    ensures forall a, b :: a in r && b in m && b !in r ==> a < b
    decreases |m|
  {
    if |m| <= k then m
    else
      DropSize(m, MaxNonce(m));
      Lowest(m - {MaxNonce(m)}, k)
  }

  /** A lower-closed part of `m` is determined by its size. */
  lemma LowestUnique(m: TxMap, k: nat, r: TxMap)
    requires |r| == k <= |m| && r.Keys <= m.Keys && forall n :: n in r ==> r[n] == m[n]
    requires forall a, b :: a in r && b in m && b !in r ==> a < b
    ensures r == Lowest(m, k)
  {
    var l := Lowest(m, k);
    KeysSize(r);
    KeysSize(l);
    if exists a :: a in r && a !in l {
      var a :| a in r && a !in l;
      assert forall b :: b in l ==> b in r;
      assert l.Keys < r.Keys;
      SubsetSize(l.Keys, r.Keys);
      assert false;
    }
    assert r.Keys <= l.Keys;
    if r.Keys != l.Keys {
      SubsetSize(r.Keys, l.Keys);
      assert false;
    }
  }

  lemma SubsetSize<T>(a: set<T>, b: set<T>)
    requires a <= b
    ensures |a| <= |b| && (a != b ==> |a| < |b|)
  {
    assert b == a + (b - a);
    assert |b| == |a| + |b - a|;
    if a != b { assert b - a != {}; }
  }

  lemma FromShrinks(m: TxMap, n: nat)
    requires n in m
    ensures |From(m, n + 1)| < |From(m, n)|
  {
    assert From(m, n + 1) == From(m, n) - {n};
    DropSize(From(m, n), n);
  }

  /** The first nonce from `n` on that is missing. */
  function RunEnd(m: TxMap, n: nat): (e: nat)
    ensures n <= e && e !in m && forall k :: n <= k < e ==> k in m
    decreases |From(m, n)|
  {
    if n in m then FromShrinks(m, n); RunEnd(m, n + 1) else n
  }

  lemma {:induction false} RunEndIs(m: TxMap, n: nat, e: nat)
    requires n <= e && e !in m && forall k :: n <= k < e ==> k in m
    ensures RunEnd(m, n) == e
  {}

  /** What `Ready` takes: the unbroken run that starts at the lowest nonce, unless that
      nonce lies above `start`. */
  function ReadyRun(m: TxMap, start: nat): TxMap {
    if m == map[] || MinNonce(m) > start then map[] else Below(m, RunEnd(m, MinNonce(m)))
  }

  function AfterReady(m: TxMap, start: nat): TxMap {
    if m == map[] || MinNonce(m) > start then m else From(m, RunEnd(m, MinNonce(m)))
  }

  /** The nonces of `m` are exactly `lo, lo + 1, .., hi - 1`. */
  ghost predicate Spans(m: TxMap, lo: nat, hi: nat) {
    lo <= hi && forall n :: n in m <==> lo <= n < hi
  }

  lemma {:induction false} SpansSize(m: TxMap, lo: nat, hi: nat)
    requires Spans(m, lo, hi)
    ensures |m| == hi - lo
    decreases hi - lo
  {
    if lo == hi {
      assert m == map[];
    } else {
      assert Spans(m - {hi - 1}, lo, hi - 1);
      SpansSize(m - {hi - 1}, lo, hi - 1);
      DropSize(m, hi - 1);
    }
  }
}
