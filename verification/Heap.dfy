/** The binary heap of Go's `container/heap`, as both `nonceHeap` and `priceHeap` use it.
    A heap is a sequence ordered by a two-part rank; the methods are the library's own
    sift loops, and each is specified by the heap order and the multiset of its elements. */
module Heap {

  /** Ranks compare lexicographically; the smallest rank sits at the root. */
  datatype Rank = Rank(major: int, minor: int)

  predicate Less(a: Rank, b: Rank) {
    a.major < b.major || (a.major == b.major && a.minor < b.minor)
  }

  function Parent(j: nat): (i: nat)
    requires 0 < j
    ensures i < j && (j == 2 * i + 1 || j == 2 * i + 2)
  {
    (j - 1) / 2
  }

  /** Element `j` does not rank below its parent. */
  ghost predicate Ordered<T>(h: seq<T>, rank: T -> Rank, j: nat)
    requires 0 < j < |h|
  {
    !Less(rank(h[j]), rank(h[Parent(j)]))
  }

  ghost predicate IsHeap<T>(h: seq<T>, rank: T -> Rank) {
    forall j :: 0 < j < |h| ==> Ordered(h, rank, j)
  }

  /** A heap whose only out-of-order element may be `k` against its parent. */
  ghost predicate HeapBut<T>(h: seq<T>, rank: T -> Rank, k: nat) {
    && (forall j :: 0 < j < |h| && j != k ==> Ordered(h, rank, j))
    && (forall j :: 0 < k && 0 < j < |h| && Parent(j) == k && k < |h| ==> !Less(rank(h[j]), rank(h[Parent(k)])))
  }

  /** A heap below index `lo`, except that `k` may rank above its children and element
      `e` may rank below its parent. */
  ghost predicate HeapFrom<T>(h: seq<T>, rank: T -> Rank, lo: nat, k: nat, e: nat) {
    && (forall j :: 0 < j < |h| && lo <= Parent(j) && Parent(j) != k && j != e ==> Ordered(h, rank, j))
    && (forall j :: 0 < k < |h| && lo <= Parent(k) && 0 < j < |h| && Parent(j) == k
          ==> !Less(rank(h[j]), rank(h[Parent(k)])))
  }

  /** The root of a heap has the least rank of all its elements. */
  lemma {:induction false} RootIsLeast<T>(h: seq<T>, rank: T -> Rank, j: nat)
    requires IsHeap(h, rank) && j < |h|
    ensures !Less(rank(h[j]), rank(h[0]))
    decreases j
  {
    if j > 0 {
      assert Ordered(h, rank, j);
      RootIsLeast(h, rank, Parent(j));
    }
  }

  lemma RootIsLeastOfAll<T>(h: seq<T>, rank: T -> Rank)
    requires IsHeap(h, rank) && |h| > 0
    ensures forall x :: x in h ==> !Less(rank(x), rank(h[0]))
  {
    forall x | x in h ensures !Less(rank(x), rank(h[0])) {
      var j :| 0 <= j < |h| && h[j] == x;
      RootIsLeast(h, rank, j);
    }
  }

  function Swap<T>(h: seq<T>, i: nat, j: nat): (s: seq<T>)
    requires i < |h| && j < |h|
    ensures |s| == |h| && s[i] == h[j] && s[j] == h[i]
    ensures forall k :: 0 <= k < |h| && k != i && k != j ==> s[k] == h[k]
    ensures multiset(s) == multiset(h)
  {
    h[i := h[j]][j := h[i]]
  }

  /** One swap of `up`: the element at `j` moves to its parent. */
  lemma UpStep<T>(h: seq<T>, rank: T -> Rank, j: nat)
    requires 0 < j < |h| && HeapBut(h, rank, j) && Less(rank(h[j]), rank(h[Parent(j)]))
    ensures HeapBut(Swap(h, Parent(j), j), rank, Parent(j))
  {
    var i, r := Parent(j), Swap(h, Parent(j), j);
    forall m | 0 < m < |r| && m != i ensures Ordered(r, rank, m) {
      assert m != j ==> Ordered(h, rank, m);
    }
    forall m | 0 < i && 0 < m < |r| && Parent(m) == i ensures !Less(rank(r[m]), rank(r[Parent(i)])) {
      assert Ordered(h, rank, i);
      assert m != j ==> Ordered(h, rank, m);
    }
  }

  method Up<T>(h: seq<T>, rank: T -> Rank, k: nat) returns (r: seq<T>)
    requires k < |h| && HeapBut(h, rank, k)
    ensures IsHeap(r, rank) && multiset(r) == multiset(h) && (k == 0 ==> r == h)
  {
    r := h;
    var j: nat := k;
    while j > 0 && Less(rank(r[j]), rank(r[Parent(j)]))
      invariant j < |r| && multiset(r) == multiset(h) && (k == 0 ==> j == 0 && r == h)
      invariant HeapBut(r, rank, j)
    {
      UpStep(r, rank, j);
      r := Swap(r, Parent(j), j);
      j := Parent(j);
    }
  }

  /** `j` is the child of `i` with the least rank. */
  predicate LeastChild<T>(h: seq<T>, rank: T -> Rank, i: nat, j: nat) {
    && 0 < j < |h| && Parent(j) == i
    && (2 * i + 1 < |h| ==> !Less(rank(h[2 * i + 1]), rank(h[j])))
    && (2 * i + 2 < |h| ==> !Less(rank(h[2 * i + 2]), rank(h[j])))
  }

  /** One swap of `down`: the element at `i` changes places with its least child. */
  lemma DownStep<T>(h: seq<T>, rank: T -> Rank, lo: nat, i: nat, j: nat, e: nat)
    requires lo <= i < |h| && LeastChild(h, rank, i, j) && HeapFrom(h, rank, lo, i, e)
    requires Less(rank(h[j]), rank(h[i])) && (e == i || e >= |h|)
    ensures HeapFrom(Swap(h, i, j), rank, lo, j, |h|)
  {
    var r := Swap(h, i, j);
    forall m | 0 < m < |r| && lo <= Parent(m) && Parent(m) != j ensures Ordered(r, rank, m) {
      if m != j && Parent(m) != i && m != i {
        assert Ordered(h, rank, m);
      }
    }
    forall m | 0 < m < |r| && Parent(m) == j ensures !Less(rank(r[m]), rank(r[Parent(j)])) {
      assert Ordered(h, rank, m);
    }
  }

  function FirstChild<T>(h: seq<T>, rank: T -> Rank, i: nat): (j: nat)
    requires 2 * i + 1 < |h|
    ensures i < j < |h| && LeastChild(h, rank, i, j)
  {
    if 2 * i + 2 < |h| && Less(rank(h[2 * i + 2]), rank(h[2 * i + 1])) then 2 * i + 2 else 2 * i + 1
  }

  /** What `down` makes of a heap, step by step. */
  function Sink<T>(h: seq<T>, rank: T -> Rank, i: nat): (r: seq<T>)
    requires i < |h|
    ensures |r| == |h|
    decreases |h| - i
  {
    if 2 * i + 1 >= |h| then h
    else
      var j := FirstChild(h, rank, i);
      if Less(rank(h[j]), rank(h[i])) then Sink(Swap(h, i, j), rank, j) else h
  }

  /** What is left after a pop. */
  function Popped<T>(h: seq<T>, rank: T -> Rank): (r: seq<T>)
    requires |h| > 0
    ensures |r| == |h| - 1
  {
    if |h| == 1 then [] else Sink(h[0 := h[|h| - 1]][..|h| - 1], rank, 0)
  }

  lemma {:induction false} SinkKeeps<T>(h: seq<T>, rank: T -> Rank, i: nat)
    requires i < |h|
    ensures multiset(Sink(h, rank, i)) == multiset(h)
    decreases |h| - i
  {
    if 2 * i + 1 < |h| {
      var j := FirstChild(h, rank, i);
      SinkKeeps(Swap(h, i, j), rank, j);
    }
  }

  /** Everything but the root survives a pop. */
  lemma PoppedHas<T>(h: seq<T>, rank: T -> Rank, x: T)
    requires |h| > 0 && x in h && x != h[0]
    ensures x in Popped(h, rank)
  {
    if |h| > 1 {
      var s := h[0 := h[|h| - 1]][..|h| - 1];
      var k :| 0 < k < |h| && h[k] == x;
      assert x in s by { if k == |h| - 1 { assert s[0] == x; } else { assert s[k] == x; } }
      SinkKeeps(s, rank, 0);
      assert x in multiset(s);
    }
  }

  lemma DownEnds<T>(h: seq<T>, rank: T -> Rank, lo: nat, i: nat, j: nat, e: nat)
    requires lo <= i < |h| && LeastChild(h, rank, i, j) && HeapFrom(h, rank, lo, i, e) && !Less(rank(h[j]), rank(h[i]))
    ensures HeapFrom(h, rank, lo, |h|, e)
  {}

  lemma NoChildren<T>(h: seq<T>, rank: T -> Rank, lo: nat, i: nat, e: nat)
    requires i < |h| <= 2 * i + 1 && HeapFrom(h, rank, lo, i, e)
    ensures HeapFrom(h, rank, lo, |h|, e)
  {}

  lemma SinkStep<T>(h: seq<T>, rank: T -> Rank, i: nat, j: nat)
    requires 2 * i + 1 < |h| && j == FirstChild(h, rank, i)
    ensures Sink(h, rank, i) == if Less(rank(h[j]), rank(h[i])) then Sink(Swap(h, i, j), rank, j) else h
  {}

  lemma SinkEnds<T>(h: seq<T>, rank: T -> Rank, i: nat)
    requires i < |h| <= 2 * i + 1
    ensures Sink(h, rank, i) == h
  {}

  method Down<T>(h: seq<T>, rank: T -> Rank, lo: nat, k: nat, ghost e: nat) returns (r: seq<T>, moved: bool)
    requires lo <= k < |h| && HeapFrom(h, rank, lo, k, e) && (e == k || e >= |h|)
    ensures HeapFrom(r, rank, lo, |r|, if moved then |h| else e)
    ensures multiset(r) == multiset(h) && |r| == |h| && (!moved ==> r == h) && r == Sink(h, rank, k)
  {
    hide HeapFrom, Ordered, Sink, LeastChild, Less, Swap;
    r := h;
    var i: nat := k;
    while 2 * i + 1 < |r|
      invariant k <= i < |r| == |h| && multiset(r) == multiset(h)
      invariant HeapFrom(r, rank, lo, i, if i > k then |h| else e)
      invariant (i == k ==> r == h) && Sink(r, rank, i) == Sink(h, rank, k)
      decreases |r| - i
    {
      var j: nat := 2 * i + 1;
      if j + 1 < |r| && Less(rank(r[j + 1]), rank(r[j])) {
        j := j + 1;
      }
      assert j == FirstChild(r, rank, i);
      SinkStep(r, rank, i, j);
      if !Less(rank(r[j]), rank(r[i])) {
        DownEnds(r, rank, lo, i, j, if i > k then |h| else e);
        moved := i > k;
        return;
      }
      DownStep(r, rank, lo, i, j, if i > k then |h| else e);
      r := Swap(r, i, j);
      i := j;
    }
    NoChildren(r, rank, lo, i, if i > k then |h| else e);
    SinkEnds(r, rank, i);
    moved := i > k;
  }

  method Init<T>(h: seq<T>, rank: T -> Rank) returns (r: seq<T>)
    ensures IsHeap(r, rank) && multiset(r) == multiset(h)
  {
    r := h;
    var i: int := |h| / 2;
    while i > 0
      invariant 0 <= i <= |h| / 2 && |r| == |h| && multiset(r) == multiset(h)
      invariant HeapFrom(r, rank, i, |h|, |h|)
    {
      i := i - 1;
      var moved;
      r, moved := Down(r, rank, i, i, |h|);
    }
    forall j | 0 < j < |r| ensures Ordered(r, rank, j) {
      assert 0 <= Parent(j);
    }
  }

  method Push<T>(h: seq<T>, rank: T -> Rank, x: T) returns (r: seq<T>)
    requires IsHeap(h, rank)
    ensures IsHeap(r, rank) && multiset(r) == multiset(h) + multiset{x}
  {
    var s := h + [x];
    forall j | 0 < j < |s| && j != |h| ensures Ordered(s, rank, j) {
      assert Ordered(h, rank, j);
    }
    r := Up(s, rank, |h|);
  }

  method Pop<T>(h: seq<T>, rank: T -> Rank) returns (x: T, r: seq<T>)
    requires IsHeap(h, rank) && |h| > 0
    ensures x == h[0] && IsHeap(r, rank) && multiset(h) == multiset(r) + multiset{x} && r == Popped(h, rank)
  {
    x, r := Remove(h, rank, 0);
  }

  method Remove<T>(h: seq<T>, rank: T -> Rank, i: nat) returns (x: T, r: seq<T>)
    requires IsHeap(h, rank) && i < |h|
    ensures x == h[i] && IsHeap(r, rank) && multiset(h) == multiset(r) + multiset{x}
    ensures (i == 0 ==> r == Popped(h, rank))
  {
    hide IsHeap, HeapFrom, HeapBut, Ordered, Sink, Less;
    var n := |h| - 1;
    var s := Swap(h, i, n);
    x := s[n];
    r := s[..n];
    assert s == r + [x];
    if i < n {
      assert r == h[i := h[n]][..n];
      ghost var t := r;
      SwapLast(h, rank, i, t);
      var moved;
      r, moved := Down(r, rank, 0, i, i);
      WholeHeap(r, rank, i, if moved then n else i);
      if !moved {
        r := Up(r, rank, i);
      }
    } else {
      PrefixIsHeap(h, rank, n);
    }
  }

  lemma PrefixIsHeap<T>(h: seq<T>, rank: T -> Rank, n: nat)
    requires IsHeap(h, rank) && n <= |h|
    ensures IsHeap(h[..n], rank)
  {
    forall j | 0 < j < n ensures Ordered(h[..n], rank, j) {
      assert Ordered(h, rank, j);
    }
  }

  lemma WholeHeap<T>(h: seq<T>, rank: T -> Rank, i: nat, e: nat)
    requires HeapFrom(h, rank, 0, |h|, e) && i < |h|
    ensures e >= |h| ==> IsHeap(h, rank)
    ensures forall j :: 0 < j < |h| && Parent(j) == i && j != e ==> Ordered(h, rank, j)
  {}

  /** Moving the last element over index `i` leaves a heap but for `i` and its neighbours. */
  lemma SwapLast<T>(h: seq<T>, rank: T -> Rank, i: nat, r: seq<T>)
    requires IsHeap(h, rank) && i < |r| == |h| - 1 && r == h[i := h[|h| - 1]][..|r|]
    ensures HeapFrom(r, rank, 0, i, i)
    ensures (forall j :: 0 < j < |r| && Parent(j) == i ==> Ordered(r, rank, j)) ==> HeapBut(r, rank, i)
  {
    forall j | 0 < j < |r| && Parent(j) != i && j != i ensures Ordered(r, rank, j) {
      assert Ordered(h, rank, j);
    }
    forall j | 0 < i && 0 < j < |r| && Parent(j) == i ensures !Less(rank(r[j]), rank(r[Parent(i)])) {
      assert Ordered(h, rank, j) && Ordered(h, rank, i);
    }
  }

  ghost predicate Sorted<T>(s: seq<T>, rank: T -> Rank) {
    forall i, j :: 0 <= i < j < |s| ==> !Less(rank(s[j]), rank(s[i]))
  }

  method Insert<T>(s: seq<T>, rank: T -> Rank, x: T) returns (r: seq<T>)
    requires Sorted(s, rank)
    ensures Sorted(r, rank) && multiset(r) == multiset(s) + multiset{x}
  {
    hide Sorted;
    var p := |s|;
    while p > 0 && Less(rank(x), rank(s[p - 1]))
      invariant 0 <= p <= |s| && forall i :: p <= i < |s| ==> Less(rank(x), rank(s[i]))
    {
      p := p - 1;
    }
    InsertedIsSorted(s, rank, x, p);
    r := s[..p] + [x] + s[p..];
    assert s == s[..p] + s[p..];
  }

  lemma InsertedIsSorted<T>(s: seq<T>, rank: T -> Rank, x: T, p: nat)
    requires Sorted(s, rank) && p <= |s| && (forall i :: p <= i < |s| ==> Less(rank(x), rank(s[i])))
    requires p > 0 ==> !Less(rank(x), rank(s[p - 1]))
    ensures Sorted(s[..p] + [x] + s[p..], rank)
  {
    var r := s[..p] + [x] + s[p..];
    forall i, j | 0 <= i < j < |r| ensures !Less(rank(r[j]), rank(r[i])) {
      var a, b := if i < p then i else i - 1, if j < p then j else j - 1;
      assert i == p || r[i] == s[a];
      assert j == p || r[j] == s[b];
    }
  }

  /** `sort.Sort`: an ordered permutation. */
  method Sort<T>(s: seq<T>, rank: T -> Rank) returns (r: seq<T>)
    ensures Sorted(r, rank) && multiset(r) == multiset(s)
  {
    r := [];
    for k := 0 to |s|
      invariant Sorted(r, rank) && multiset(r) == multiset(s[..k])
    {
      assert s[..k + 1] == s[..k] + [s[k]];
      r := Insert(r, rank, s[k]);
    }
    assert s[..|s|] == s;
  }

  lemma Twice<T>(s: seq<T>, i: nat, j: nat)
    requires i < j < |s| && s[i] == s[j]
    ensures multiset(s)[s[i]] >= 2
  {
    var a, b := s[..j], s[j..];
    assert s == a + b;
    assert a[i] in multiset(a) && b[0] in multiset(b);
  }
}
