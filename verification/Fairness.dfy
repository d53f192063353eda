/** Counting transactions across accounts, and what `truncatePending` does to the counts. */
module Fairness {
  import opened Types
  import opened NonceMap
  import opened TxLists
  import opened PoolState

  function LenOf(m: Lists, a: Address): nat {
    |ItemsOf(m, a)|
  }

  ghost function SumLens(m: Lists): nat {
    if m == map[] then 0 else var a :| a in m; |m[a].items| + SumLens(m - {a})
  }

  lemma {:induction false} SumLensWithout(m: Lists, a: Address)
    requires a in m
    ensures SumLens(m) == |m[a].items| + SumLens(m - {a})
    decreases |m|
  {
    var b :| b in m && SumLens(m) == |m[b].items| + SumLens(m - {b});
    if b != a {
      assert (m - {b}).Keys == m.Keys - {b} && (m - {a}).Keys == m.Keys - {a};
      SumLensWithout(m - {b}, a);
      SumLensWithout(m - {a}, b);
      assert m - {b} - {a} == m - {a} - {b};
    }
  }

  lemma SumLensSplit(m: Lists, a: Address)
    ensures SumLens(m) == LenOf(m, a) + SumLens(m - {a})
  {
    hide SumLens;
    if a in m {
      SumLensWithout(m, a);
    } else {
      assert m - {a} == m;
    }
  }

  /** Only one account changed, so the total changes by as much as that account. */
  lemma SumLensUpdate(m: Lists, m': Lists, a: Address)
    requires SameBut(m, m', a)
    ensures SumLens(m') + LenOf(m, a) == SumLens(m) + LenOf(m', a)
  {
    assert m' - {a} == m - {a};
    hide *;
    SumLensSplit(m, a);
    SumLensSplit(m', a);
  }

  /** Totals depend on the transactions held per account, not on the lists' caps. */
  lemma {:induction false} SumLensSame(m: Lists, m': Lists)
    requires forall a: Address :: NoEmpty(m, a) && NoEmpty(m', a)
    requires forall a: Address :: ItemsOf(m, a) == ItemsOf(m', a)
    ensures SumLens(m) == SumLens(m')
    decreases |m|
  {
    if m == map[] {
      forall a: Address ensures a !in m' {
        assert NoEmpty(m', a) && ItemsOf(m, a) == ItemsOf(m', a);
      }
      assert m' == map[];
    } else {
      var a :| a in m;
      assert NoEmpty(m, a) && ItemsOf(m, a) == ItemsOf(m', a);
      assert a in m';
      SumLensWithout(m, a);
      SumLensWithout(m', a);
      assert (m - {a}).Keys == m.Keys - {a};
      forall b: Address
        ensures NoEmpty(m - {a}, b) && NoEmpty(m' - {a}, b) && ItemsOf(m - {a}, b) == ItemsOf(m' - {a}, b)
      {
        assert NoEmpty(m, b) && NoEmpty(m', b) && ItemsOf(m, b) == ItemsOf(m', b);
      }
      SumLensSame(m - {a}, m' - {a});
    }
  }

  lemma SumLensItems(m: Lists, m': Lists, a: Address)
    requires forall b: Address :: NoEmpty(m, b) && NoEmpty(m', b)
    requires forall b: Address :: b != a ==> ItemsOf(m, b) == ItemsOf(m', b)
    ensures SumLens(m') + LenOf(m, a) == SumLens(m) + LenOf(m', a)
  {
    forall b: Address
      ensures NoEmpty(m - {a}, b) && NoEmpty(m' - {a}, b) && ItemsOf(m - {a}, b) == ItemsOf(m' - {a}, b)
    {
      assert NoEmpty(m, b) && NoEmpty(m', b) && (b != a ==> ItemsOf(m, b) == ItemsOf(m', b));
    }
    hide SumLens, ItemsOf, NoEmpty, LenOf;
    SumLensSame(m - {a}, m' - {a});
    SumLensSplit(m, a);
    SumLensSplit(m', a);
  }

  method CountAll(m: Lists) returns (n: nat)
    ensures n == SumLens(m)
  {
    n := 0;
    var todo: Lists := m;
    while todo.Keys != {}
      invariant n + SumLens(todo) == SumLens(m)
      decreases |todo|
    {
      var a: Address :| a in todo.Keys;
      SumLensWithout(todo, a);
      assert (todo - {a}).Keys == todo.Keys - {a};
      n := n + |todo[a].items|;
      todo := todo - {a};
    }
  }

  /** The accounts `truncatePending` may touch: remote ones over their guaranteed slots. */
  function High(p: Lists, locals: set<Address>, slots: nat): set<Address> {
    set a | a in p && a !in locals && LenOf(p, a) > slots
  }

  ghost predicate DistinctAddrs(s: seq<Address>) {
    forall i, j :: 0 <= i < j < |s| ==> s[i] != s[j]
  }

  /** All of `s` have the same number of transactions. */
  ghost predicate Level(p: Lists, s: seq<Address>) {
    forall i, j :: 0 <= i < |s| && 0 <= j < |s| ==> LenOf(p, s[i]) == LenOf(p, s[j])
  }

  /** `offenders` have been picked from the high rollers, `spammers` are left. */
  ghost predicate Picked(p0: Lists, p: Lists, locals: set<Address>, slots: nat, offenders: seq<Address>,
                         spammers: set<Address>) {
    && DistinctAddrs(offenders)
    && (forall a :: a in spammers ==> a !in offenders)
    && (forall a :: a in High(p0, locals, slots) <==> a in spammers || a in offenders)
    && (forall a: Address :: a !in offenders ==> LenOf(p, a) == LenOf(p0, a))
    && (forall i :: 0 <= i < |offenders| ==> slots <= LenOf(p, offenders[i]) <= LenOf(p0, offenders[i]))
  }

  /** While offenders are being equalized: all but the last are level and at or above it,
      and the last, still uncut, is at or above all that are left. */
  ghost predicate Equalizing(p0: Lists, p: Lists, offenders: seq<Address>, spammers: set<Address>) {
    |offenders| > 0 ==>
      && Level(p, offenders[..|offenders| - 1])
      && LenOf(p, offenders[|offenders| - 1]) == LenOf(p0, offenders[|offenders| - 1])
      && (forall i :: 0 <= i < |offenders| ==> LenOf(p, offenders[i]) >= LenOf(p, offenders[|offenders| - 1]))
      && (forall s :: s in spammers ==> LenOf(p, s) <= LenOf(p, offenders[|offenders| - 1]))
  }

  /** The outcome: either the total fits or every remote account is within its guarantee;
      nobody is cut below the guarantee or for being local; whoever is cut ends level with
      the others that are, at or above every remote account that is not. */
  ghost predicate FairlyCut(p0: Lists, p: Lists, locals: set<Address>, slots: nat, limit: nat) {
    && (SumLens(p) <= limit || forall a: Address :: a !in locals ==> LenOf(p, a) <= slots)
    && (forall a: Address :: a in locals || LenOf(p0, a) <= slots ==> LenOf(p, a) == LenOf(p0, a))
    && (forall a: Address :: LenOf(p0, a) > slots ==> slots <= LenOf(p, a) <= LenOf(p0, a))
    && (forall a: Address, b: Address :: LenOf(p, a) < LenOf(p0, a) && LenOf(p, b) < LenOf(p0, b) ==>
          LenOf(p, a) == LenOf(p, b))
    && (forall a: Address, b: Address :: LenOf(p, a) < LenOf(p0, a) && b !in locals && LenOf(p, b) == LenOf(p0, b) ==>
          LenOf(p, b) <= LenOf(p, a))
    && (SumLens(p0) <= limit ==> forall a: Address :: LenOf(p, a) == LenOf(p0, a))
  }

  function Cuts(p0: Lists, p: Lists): set<Address> {
    set a | a in p0 && LenOf(p, a) < LenOf(p0, a)
  }

  /** No cut goes on for a whole round after the total fits: with one more transaction for each
      account that was cut, it would not. */
  ghost predicate Tight(p0: Lists, p: Lists, limit: nat) {
    Cuts(p0, p) == {} || SumLens(p) + |Cuts(p0, p)| > limit
  }

  function AddrSet(s: seq<Address>): set<Address> {
    set a | a in s
  }

  lemma {:induction false} AddrsSize(s: seq<Address>)
    requires DistinctAddrs(s)
    ensures |AddrSet(s)| == |s|
  {
    if s != [] {
      var front, last := s[..|s| - 1], s[|s| - 1];
      AddrsSize(front);
      assert AddrSet(s) == AddrSet(front) + {last} && last !in AddrSet(front);
    }
  }

  /** A round that starts above the limit cuts no more than one from everybody it cuts. */
  lemma TightRound(p0: Lists, p: Lists, p': Lists, locals: set<Address>, slots: nat, limit: nat,
                   offenders: seq<Address>, spammers: set<Address>, s: seq<Address>)
    requires Picked(p0, p, locals, slots, offenders, spammers) && DistinctAddrs(s) && OneLess(p, p', s)
    requires (forall i :: 0 <= i < |s| ==> s[i] in offenders) && SumLens(p) > limit && SumLens(p') == SumLens(p) - |s|
    ensures Tight(p0, p', limit)
  {
    hide SumLens, High;
    AddrsSize(s);
    forall a | a in AddrSet(s) ensures a in Cuts(p0, p') {
      var i :| 0 <= i < |s| && s[i] == a;
      var j :| 0 <= j < |offenders| && offenders[j] == a;
      assert LenOf(p, a) <= LenOf(p0, a) && LenOf(p', s[i]) == LenOf(p, s[i]) - 1;
    }
    SubsetSize(AddrSet(s), Cuts(p0, p'));
  }

  lemma NothingCut(p: Lists, limit: nat)
    ensures Tight(p, p, limit)
  {
    assert Cuts(p, p) == {};
  }

  lemma NobodyCut(p: Lists, locals: set<Address>, slots: nat, limit: nat)
    requires SumLens(p) <= limit
    ensures FairlyCut(p, p, locals, slots, limit)
  {}

  lemma PickingStarts(p: Lists, locals: set<Address>, slots: nat)
    ensures Picked(p, p, locals, slots, [], High(p, locals, slots)) && Equalizing(p, p, [], High(p, locals, slots))
    ensures Level(p, [])
  {}

  lemma PickNext(p0: Lists, p: Lists, locals: set<Address>, slots: nat, offenders: seq<Address>,
                 spammers: set<Address>, next: Address)
    requires Picked(p0, p, locals, slots, offenders, spammers) && Equalizing(p0, p, offenders, spammers)
    requires Level(p, offenders)
    requires next in spammers && forall s :: s in spammers ==> LenOf(p, s) <= LenOf(p, next)
    ensures Picked(p0, p, locals, slots, offenders + [next], spammers - {next})
    ensures Equalizing(p0, p, offenders + [next], spammers - {next})
    ensures LenOf(p, next) > slots
  {
    hide LenOf, High;
    HighLen(p0, locals, slots, next);
    var more := offenders + [next];
    assert more[..|offenders|] == offenders;
    forall i | 0 <= i < |offenders| ensures LenOf(p, offenders[i]) >= LenOf(p, next) {
      assert LenOf(p, offenders[i]) == LenOf(p, offenders[|offenders| - 1]);
    }
    PickOne(p0, p, locals, slots, offenders, spammers, next);
  }

  lemma PickOne(p0: Lists, p: Lists, locals: set<Address>, slots: nat, offenders: seq<Address>,
                spammers: set<Address>, next: Address)
    requires Picked(p0, p, locals, slots, offenders, spammers) && next in spammers && LenOf(p0, next) > slots
    ensures Picked(p0, p, locals, slots, offenders + [next], spammers - {next}) && LenOf(p, next) == LenOf(p0, next)
  {
    hide LenOf, High;
    assert next !in offenders;
    var more, fewer := offenders + [next], spammers - {next};
    assert forall a :: a in more <==> a in offenders || a == next;
  }

  lemma HighLen(p0: Lists, locals: set<Address>, slots: nat, a: Address)
    requires a in High(p0, locals, slots)
    ensures LenOf(p0, a) > slots
  {}

  /** Everybody in `s` loses one transaction, nobody else does. */
  ghost predicate OneLess(p: Lists, p': Lists, s: seq<Address>) {
    && (forall i :: 0 <= i < |s| ==> LenOf(p', s[i]) == LenOf(p, s[i]) - 1)
    && (forall a: Address :: a !in s ==> LenOf(p', a) == LenOf(p, a))
  }

  /** One equalization round over all offenders but the last. */
  lemma EqualizeRound(p0: Lists, p: Lists, p': Lists, locals: set<Address>, slots: nat, offenders: seq<Address>,
                      spammers: set<Address>)
    requires Picked(p0, p, locals, slots, offenders, spammers) && Equalizing(p0, p, offenders, spammers)
    requires |offenders| > 1 && OneLess(p, p', offenders[..|offenders| - 1])
    requires LenOf(p, offenders[|offenders| - 2]) > LenOf(p, offenders[|offenders| - 1]) > slots
    ensures Picked(p0, p', locals, slots, offenders, spammers) && Equalizing(p0, p', offenders, spammers)
    ensures LenOf(p', offenders[|offenders| - 1]) == LenOf(p, offenders[|offenders| - 1])
  {
    hide LenOf, High;
    var front, last := offenders[..|offenders| - 1], offenders[|offenders| - 1];
    assert last !in front;
    assert forall a :: a !in offenders ==> a !in front;
    forall i | 0 <= i < |front| ensures LenOf(p, front[i]) == LenOf(p, offenders[|offenders| - 2]) {
      assert front[|front| - 1] == offenders[|offenders| - 2];
    }
    forall i | 0 <= i < |offenders|
      ensures LenOf(p', offenders[i]) == if i < |front| then LenOf(p, offenders[i]) - 1 else LenOf(p, offenders[i])
    {
      if i < |front| {
        assert front[i] == offenders[i];
      }
    }
  }

  lemma Equalized(p0: Lists, p: Lists, offenders: seq<Address>, spammers: set<Address>)
    requires Equalizing(p0, p, offenders, spammers)
    requires |offenders| > 1 ==> LenOf(p, offenders[|offenders| - 2]) <= LenOf(p, offenders[|offenders| - 1])
    ensures Level(p, offenders)
  {
    hide LenOf;
    if |offenders| > 1 {
      var front := offenders[..|offenders| - 1];
      forall i | 0 <= i < |front| ensures LenOf(p, offenders[i]) == LenOf(p, offenders[|offenders| - 2]) {
        assert front[i] == offenders[i] && front[|front| - 1] == offenders[|offenders| - 2];
      }
    }
  }

  /** One round of the second phase, which takes all offenders down together. */
  lemma LowerRound(p0: Lists, p: Lists, p': Lists, locals: set<Address>, slots: nat, offenders: seq<Address>)
    requires Picked(p0, p, locals, slots, offenders, {}) && Level(p, offenders) && |offenders| > 0
    requires LenOf(p, offenders[|offenders| - 1]) > slots && OneLess(p, p', offenders)
    ensures Picked(p0, p', locals, slots, offenders, {}) && Level(p', offenders)
  {
    hide LenOf, High;
    forall i | 0 <= i < |offenders| ensures LenOf(p', offenders[i]) == LenOf(p, offenders[|offenders| - 1]) - 1 {
      assert LenOf(p, offenders[i]) == LenOf(p, offenders[|offenders| - 1]);
    }
  }

  /** Stopped during equalization, because the total fits. */
  lemma FairAfterEqualizing(p0: Lists, p: Lists, locals: set<Address>, slots: nat, limit: nat,
                            offenders: seq<Address>, spammers: set<Address>)
    requires Picked(p0, p, locals, slots, offenders, spammers) && Equalizing(p0, p, offenders, spammers)
    requires SumLens(p) <= limit < SumLens(p0)
    ensures FairlyCut(p0, p, locals, slots, limit)
  {
    HighMeans(p0, locals, slots);
    hide LenOf, High;
    forall a: Address | LenOf(p, a) < LenOf(p0, a)
      ensures a in offenders && a !in locals && LenOf(p, a) == LenOf(p, offenders[0])
    {
      var i :| 0 <= i < |offenders| && offenders[i] == a;
      assert a in High(p0, locals, slots);
      var front := offenders[..|offenders| - 1];
      assert i < |front| && front[i] == a && front[0] == offenders[0];
    }
    forall a: Address, b: Address | LenOf(p, a) < LenOf(p0, a) && b !in locals && LenOf(p, b) == LenOf(p0, b)
      ensures LenOf(p, b) <= LenOf(p, a)
    {
      var i :| 0 <= i < |offenders| && offenders[i] == a;
      var last := LenOf(p, offenders[|offenders| - 1]);
      assert last <= LenOf(p, a);
      if b in offenders {
        var j :| 0 <= j < |offenders| && offenders[j] == b;
        if j < |offenders| - 1 {
          var front := offenders[..|offenders| - 1];
          assert front[i] == a && front[j] == b;
        }
      } else if b in High(p0, locals, slots) {
        assert b in spammers;
      } else {
        assert LenOf(p0, b) <= slots;
        assert slots <= LenOf(p, offenders[i]);
      }
    }
    forall a: Address | LenOf(p0, a) > slots ensures slots <= LenOf(p, a) <= LenOf(p0, a) {
      if a in offenders {
        var i :| 0 <= i < |offenders| && offenders[i] == a;
      }
    }
  }

  lemma HighMeans(p: Lists, locals: set<Address>, slots: nat)
    ensures forall a: Address :: a in High(p, locals, slots) <==> a !in locals && LenOf(p, a) > slots
  {}

  /** Stopped in the second phase: all high rollers are level. */
  lemma FairAfterLowering(p0: Lists, p: Lists, locals: set<Address>, slots: nat, limit: nat, offenders: seq<Address>)
    requires Picked(p0, p, locals, slots, offenders, {}) && Level(p, offenders) && SumLens(p0) > limit
    requires SumLens(p) <= limit || |offenders| == 0 || LenOf(p, offenders[|offenders| - 1]) <= slots
    ensures FairlyCut(p0, p, locals, slots, limit)
  {
    HighMeans(p0, locals, slots);
    hide LenOf, High;
    forall a: Address | a in offenders
      ensures slots <= LenOf(p, a) <= LenOf(p0, a) && a !in locals
      ensures LenOf(p, a) == LenOf(p, offenders[|offenders| - 1])
    {
      var i :| 0 <= i < |offenders| && offenders[i] == a;
      assert a in High(p0, locals, slots);
    }
    assert forall a: Address :: a !in offenders ==> a in locals || LenOf(p0, a) <= slots;
  }

  /** Fairness only depends on what each account holds. */
  lemma FairlySame(p0: Lists, p: Lists, p': Lists, locals: set<Address>, slots: nat, limit: nat)
    requires FairlyCut(p0, p, locals, slots, limit) && Tight(p0, p, limit)
    requires SumLens(p') == SumLens(p) && forall a: Address :: ItemsOf(p', a) == ItemsOf(p, a)
    ensures FairlyCut(p0, p', locals, slots, limit) && Tight(p0, p', limit)
  {
    hide SumLens, FairlyCut;
    assert forall a: Address :: LenOf(p', a) == LenOf(p, a);
    assert Cuts(p0, p') == Cuts(p0, p);
    FairByLengths(p0, p, p', locals, slots, limit);
  }

  lemma FairByLengths(p0: Lists, p: Lists, p': Lists, locals: set<Address>, slots: nat, limit: nat)
    requires FairlyCut(p0, p, locals, slots, limit) && SumLens(p') == SumLens(p)
    requires forall a: Address :: LenOf(p', a) == LenOf(p, a)
    ensures FairlyCut(p0, p', locals, slots, limit)
  {
    hide SumLens, LenOf;
  }

  /** The outcome of `truncateQueue`: locals are untouched, nobody loses anything within the
      limit, and beyond it the total is cut to exactly the limit or no remote queue is left. */
  ghost predicate QueueFairlyCut(q0: Lists, q: Lists, locals: set<Address>, limit: nat) {
    && (forall a: Address :: a in locals || SumLens(q0) <= limit ==> ItemsOf(q, a) == ItemsOf(q0, a))
    && (SumLens(q) <= limit || forall a: Address :: a !in locals ==> ItemsOf(q, a) == map[])
    && (SumLens(q0) > limit ==> SumLens(q) >= limit)
  }
}
