/** One account inside the transaction pool: its executable (pending) and future (queued)
    transactions and its virtual nonce. The pool's operations act on an account through the
    functions below; the lemmas say what they keep. */
module Account {
  import opened Types
  import opened NonceMap
  import opened TxLists

  /** The last heartbeat of an account, if the pool remembers one, and what the clock says. */
  datatype Pulse = Pulse(beat: Option<int>, now: int) {
    /** Something is queued: a heartbeat that is there stays. */
    function Heard(): Pulse {
      if beat.Some? then this else Renewed()
    }

    /** Something became pending. */
    function Renewed(): Pulse {
      Pulse(Some(now), now)
    }

    /** The queue is gone. */
    function Lost(): Pulse {
      Pulse(None, now)
    }
  }

  const QUIET := Pulse(None, 0)

  datatype Acct = Acct(pending: TxMap, queue: TxMap, next: nat, pulse: Pulse)

  /** What the chain state allows an account: its nonce, its balance, and the gas of a block. */
  datatype Limits = Limits(nonce: nat, balance: int, maxGas: nat) {
    function Over(): Tx -> bool {
      OverLimits(balance, maxGas)
    }
  }

  // ----- The operations -----

  /** The payable part of the queue, from the state nonce on. */
  function Ready(c: Acct, lim: Limits): TxMap {
    Reject(From(c.queue, lim.nonce), lim.Over())
  }

  /** `promoteExecutables`: stale and unpayable queued transactions go, those that follow on
      become pending, and a remote queue is capped. */
  function Promote(c: Acct, lim: Limits, cap: Option<nat>): Acct {
    var payable := Ready(c, lim);
    var run := ReadyRun(payable, c.next);
    var rest := AfterReady(payable, c.next);
    var queue := if cap.Some? then Lowest(rest, cap.value) else rest;
    Acct(c.pending + run, queue, if run == map[] then c.next else MaxNonce(run) + 1,
         if c.queue == map[] then c.pulse
         else if queue == map[] then c.pulse.Lost()
         else if run == map[] then c.pulse else c.pulse.Renewed())
  }

  /** The pending transactions that survive `demoteUnexecutables`, gap check aside. */
  function Payable(pending: TxMap, lim: Limits): TxMap {
    var over := Select(From(pending, lim.nonce), lim.Over());
    if over == map[] then From(pending, lim.nonce) else Below(From(pending, lim.nonce), MinNonce(over))
  }

  /** The payable pending transactions behind an unpayable one. */
  function Postponed(pending: TxMap, lim: Limits): TxMap {
    var over := Select(From(pending, lim.nonce), lim.Over());
    if over == map[] then map[] else From(Reject(From(pending, lim.nonce), lim.Over()), MinNonce(over) + 1)
  }

  /** `demoteUnexecutables`. */
  function Demote(c: Acct, lim: Limits): Acct {
    var kept := Payable(c.pending, lim);
    var queue := c.queue + Postponed(c.pending, lim);
    if kept != map[] && lim.nonce !in kept then Acct(map[], queue + kept, c.next, c.pulse.Heard())
    else Acct(kept, queue, c.next, if Postponed(c.pending, lim) == map[] then c.pulse else c.pulse.Heard())
  }

  /** Queued transactions go; with the last one the heartbeat is forgotten. */
  function Leave(c: Acct, queue: TxMap): Acct {
    c.(queue := queue, pulse := if queue == map[] && c.queue != map[] then c.pulse.Lost() else c.pulse)
  }

  /** `removeTx` of the transaction with nonce `n`. */
  function Remove(c: Acct, n: nat): Acct {
    if n in c.pending then
      Acct(Below(c.pending, n), c.queue + From(c.pending, n + 1), if n < c.next then n else c.next,
           if From(c.pending, n + 1) == map[] then c.pulse else c.pulse.Heard())
    else Leave(c, Drop(c.queue, n))
  }

  function Enqueue(c: Acct, tx: Tx): Acct {
    c.(queue := c.queue[tx.nonce := tx], pulse := c.pulse.Heard())
  }

  /** `truncatePending` taking the account down to `k` pending transactions. */
  function Cut(c: Acct, k: nat): Acct {
    var kept := Lowest(c.pending, k);
    var dropped := Dropped(c.pending, kept);
    Acct(kept, c.queue, if dropped == map[] || c.next <= MinNonce(dropped) then c.next else MinNonce(dropped), c.pulse)
  }

  /** The last loop of `runReorg`. */
  function Settle(c: Acct): Acct {
    if c.pending == map[] then c else c.(next := MaxNonce(c.pending) + 1)
  }

  // ----- Gapless pending nonces -----

  /** Pending transactions are executable: their nonces run without a gap from the state
      nonce up to the virtual nonce and each is payable. Everything queued lies at or above. */
  ghost predicate Gapless(c: Acct, lim: Limits) {
    && Spans(c.pending, lim.nonce, c.next)
    && (forall q :: q in c.queue ==> c.next <= q)
    && (forall n :: n in c.pending ==> !lim.Over()(c.pending[n]))
  }

  /** After the head moved on: pending transactions from the new state nonce on are gapless,
      up to `k`, and nothing queued lies among them. The virtual nonce starts afresh. */
  ghost predicate HeadMoved(c: Acct, nonce: nat, k: nat) {
    && Spans(From(c.pending, nonce), nonce, k)
    && (forall q :: q in c.queue ==> q < nonce || k <= q)
    && c.next == nonce
  }

  /** .. and once its queue was promoted: what lies below the virtual nonce is payable. */
  ghost predicate HeadPromoted(c: Acct, lim: Limits, k: nat) {
    && Spans(From(c.pending, lim.nonce), lim.nonce, k)
    && (forall q :: q in c.queue ==> k <= q)
    && lim.nonce <= c.next <= k
    && (forall n :: n in c.pending && lim.nonce <= n < c.next ==> !lim.Over()(c.pending[n]))
  }

  /** Gapless, but the virtual nonce may lag behind where there are pending transactions. */
  ghost predicate AlmostGapless(c: Acct, lim: Limits, k: nat) {
    && Spans(c.pending, lim.nonce, k)
    && (forall q :: q in c.queue ==> k <= q)
    && (forall n :: n in c.pending ==> !lim.Over()(c.pending[n]))
    && (k == lim.nonce ==> c.next == lim.nonce)
  }

  /** The virtual nonce counts the pending transactions on top of the state nonce. */
  lemma GaplessNext(c: Acct, lim: Limits)
    requires Gapless(c, lim)
    ensures c.next == lim.nonce + |c.pending|
  {
    SpansSize(c.pending, lim.nonce, c.next);
  }

  lemma MinInRun(m: TxMap, n: nat)
    requires n in m && forall q :: q in m ==> n <= q
    ensures m != map[] && MinNonce(m) == n
  {}

  lemma MaxOfSpan(m: TxMap, lo: nat, hi: nat)
    requires Spans(m, lo, hi) && m != map[]
    ensures lo < hi && MaxNonce(m) == hi - 1
  {
    assert MaxNonce(m) in m;
    assert hi - 1 in m;
  }

  /** Where nothing lies below `start`, `Ready` takes the run from `start` on. */
  lemma RunBounds(m: TxMap, start: nat)
    requires forall q :: q in m ==> start <= q
    ensures start <= RunEnd(m, start) && Spans(ReadyRun(m, start), start, RunEnd(m, start))
    ensures ReadyRun(m, start) != map[] ==> MaxNonce(ReadyRun(m, start)) + 1 == RunEnd(m, start)
    ensures ReadyRun(m, start) == map[] ==> RunEnd(m, start) == start
    ensures forall q :: q in AfterReady(m, start) ==> RunEnd(m, start) < q
    ensures forall n :: n in ReadyRun(m, start) ==> n in m && ReadyRun(m, start)[n] == m[n]
  {
    if start in m {
      MinInRun(m, start);
      assert start in ReadyRun(m, start);
      MaxOfSpan(ReadyRun(m, start), start, RunEnd(m, start));
    } else if m != map[] {
      assert MinNonce(m) > start;
    }
  }

  /** What `Promote` makes of its run, once that is known. */
  lemma PromoteShape(c: Acct, lim: Limits, cap: Option<nat>, payable: TxMap)
    requires payable == Ready(c, lim) && forall q :: q in payable ==> c.next <= q
    ensures Promote(c, lim, cap).pending == c.pending + ReadyRun(payable, c.next)
    ensures Promote(c, lim, cap).next == RunEnd(payable, c.next)
    ensures forall q :: q in Promote(c, lim, cap).queue ==> RunEnd(payable, c.next) < q
  {
    hide Ready, From, ReadyRun, AfterReady, Lowest, RunEnd;
    RunBounds(payable, c.next);
    LowestWithin(AfterReady(payable, c.next), cap);
  }

  lemma LowestWithin(m: TxMap, cap: Option<nat>)
    ensures cap.Some? ==> forall q :: q in Lowest(m, cap.value) ==> q in m
  {}

  lemma ReadyMeans(c: Acct, lim: Limits, payable: TxMap)
    requires payable == Ready(c, lim)
    ensures forall q :: q in payable <==> q in c.queue && lim.nonce <= q && !lim.Over()(c.queue[q])
    ensures forall q :: q in payable ==> payable[q] == c.queue[q]
  {}

  lemma PromoteKeepsGapless(c: Acct, lim: Limits, cap: Option<nat>)
    requires Gapless(c, lim)
    ensures Gapless(Promote(c, lim, cap), lim)
    ensures Promote(c, lim, cap).next !in Promote(c, lim, cap).queue
  {
    hide Ready, From, ReadyRun, AfterReady, Promote, RunEnd, Limits.Over, OverLimits;
    var payable := Ready(c, lim);
    ReadyMeans(c, lim, payable);
    RunBounds(payable, c.next);
    PromoteShape(c, lim, cap, payable);
  }

  /** A valid new transaction takes the place of a pending one or joins the queue. */
  lemma AddKeepsGapless(c: Acct, tx: Tx, lim: Limits)
    requires Gapless(c, lim) && lim.nonce <= tx.nonce && !lim.Over()(tx)
    ensures tx.nonce in c.pending ==>
              Gapless(c.(pending := c.pending[tx.nonce := tx], pulse := c.pulse.Renewed()), lim)
    ensures tx.nonce !in c.pending ==> Gapless(Enqueue(c, tx), lim)
  {}

  lemma RemoveKeepsGapless(c: Acct, n: nat, lim: Limits)
    requires Gapless(c, lim)
    ensures Gapless(Remove(c, n), lim)
  {}

  lemma FewerQueuedGapless(c: Acct, queue: TxMap, lim: Limits)
    requires Gapless(c, lim) && queue.Keys <= c.queue.Keys
    ensures Gapless(Leave(c, queue), lim)
  {}

  /** A head that moved to a descendant never takes a state nonce back. */
  lemma HeadMoves(c: Acct, lim: Limits, nonce': nat) returns (k: nat)
    requires Gapless(c, lim) && lim.nonce <= nonce'
    ensures HeadMoved(c.(next := nonce'), nonce', k)
  {
    k := if nonce' < c.next then c.next else nonce';
  }

  lemma PromoteAfterMove(c: Acct, lim: Limits, cap: Option<nat>, k: nat) returns (k': nat)
    requires HeadMoved(c, lim.nonce, k)
    ensures HeadPromoted(Promote(c, lim, cap), lim, k')
  {
    hide Ready, ReadyRun, AfterReady, Promote, Lowest, Limits.Over, OverLimits;
    var payable := Ready(c, lim);
    ReadyMeans(c, lim, payable);
    RunBounds(payable, c.next);
    PromoteShape(c, lim, cap, payable);
    if lim.nonce in payable {
      k' := RunEnd(payable, lim.nonce);
      assert k == lim.nonce;
      assert forall n :: n in c.pending ==> n < lim.nonce || n in From(c.pending, lim.nonce);
    } else {
      k' := k;
      assert ReadyRun(payable, c.next) == map[];
      assert Promote(c, lim, cap).pending == c.pending;
      QueueAbove(c, lim, cap, k);
    }
  }

  lemma QueueAbove(c: Acct, lim: Limits, cap: Option<nat>, k: nat)
    requires forall q :: q in c.queue ==> q < lim.nonce || k <= q
    ensures forall q :: q in Promote(c, lim, cap).queue ==> k <= q
  {
    var payable := Ready(c, lim);
    assert forall q :: q in AfterReady(payable, c.next) ==> q in payable;
    hide AfterReady;
  }

  lemma RunNotEmpty(m: TxMap, start: nat)
    requires start in m && forall q :: q in m ==> start <= q
    ensures start < RunEnd(m, start)
  {}

  lemma NoRun(c: Acct, lim: Limits, cap: Option<nat>, payable: TxMap)
    requires payable == Ready(c, lim) && c.next == lim.nonce && lim.nonce !in payable
    ensures Promote(c, lim, cap).pending == c.pending && Promote(c, lim, cap).next == c.next
    ensures Promote(c, lim, cap).queue == if cap.Some? then Lowest(payable, cap.value) else payable
    ensures forall n :: n in payable <==> n in c.queue && lim.nonce <= n && !lim.Over()(c.queue[n])
  {
    assert ReadyRun(payable, c.next) == map[] && AfterReady(payable, c.next) == payable;
    assert c.pending + map[] == c.pending;
  }

  lemma LowestHasMin(m: TxMap, cap: Option<nat>, n: nat)
    requires n in m && (forall q :: q in m ==> n <= q) && cap != Some(0)
    ensures cap.Some? ==> n in Lowest(m, cap.value)
  {
    if cap.Some? {
      var l := Lowest(m, cap.value);
      assert |m| > 0;
      assert l != map[];
      var x :| x in l;
    }
  }

  /** Moving an account nobody promoted needs no queue: nothing of it changes. */
  lemma NothingToPromote(c: Acct, lim: Limits, cap: Option<nat>)
    requires c.queue == map[]
    ensures Promote(c, lim, cap) == c
  {
    assert Ready(c, lim) == map[];
    assert c.pending + map[] == c.pending;
  }

  /** The first pending nonce that is not payable, or the end of the pending run. */
  function FirstOver(pending: TxMap, lim: Limits, k: nat): nat {
    var over := Select(From(pending, lim.nonce), lim.Over());
    if over == map[] then k else MinNonce(over)
  }

  lemma DemoteParts(pending: TxMap, lim: Limits, k: nat)
    requires Spans(From(pending, lim.nonce), lim.nonce, k)
    ensures lim.nonce <= FirstOver(pending, lim, k) <= k
    ensures Spans(Payable(pending, lim), lim.nonce, FirstOver(pending, lim, k))
    ensures forall n :: n in Payable(pending, lim) ==> !lim.Over()(Payable(pending, lim)[n])
    ensures forall n :: n in Postponed(pending, lim) ==> FirstOver(pending, lim, k) < n
    ensures FirstOver(pending, lim, k) < k ==>
              FirstOver(pending, lim, k) in pending && lim.Over()(pending[FirstOver(pending, lim, k)])
  {
    hide Limits.Over, OverLimits;
    var m := From(pending, lim.nonce);
    var over := Select(m, lim.Over());
    assert forall n :: n in m && lim.Over()(m[n]) ==> n in over;
    if over != map[] {
      var low := MinNonce(over);
      assert low in over && low in m;
    }
  }

  lemma DemoteAfterPromote(c: Acct, lim: Limits, k: nat) returns (k': nat)
    requires HeadPromoted(c, lim, k)
    ensures AlmostGapless(Demote(c, lim), lim, k')
  {
    hide Limits.Over, OverLimits, Payable, Postponed, FirstOver;
    DemoteParts(c.pending, lim, k);
    k' := FirstOver(c.pending, lim, k);
    assert lim.nonce < k' ==> lim.nonce in Payable(c.pending, lim);
  }

  /** The lowest entries of a gapless map are a gapless prefix. */
  lemma {:induction false} LowestSpans(m: TxMap, keep: nat, lo: nat, hi: nat)
    requires Spans(m, lo, hi)
    ensures Spans(Lowest(m, keep), lo, lo + |Lowest(m, keep)|) && lo + |Lowest(m, keep)| <= hi
    decreases |m|
  {
    SpansSize(m, lo, hi);
    if |m| > keep {
      DropSize(m, MaxNonce(m));
      MaxOfSpan(m, lo, hi);
      LowestSpans(m - {MaxNonce(m)}, keep, lo, hi - 1);
    }
  }

  lemma SettleGivesGapless(c: Acct, lim: Limits, k: nat)
    requires AlmostGapless(c, lim, k)
    ensures Gapless(Settle(c), lim)
  {
    if c.pending != map[] {
      MaxOfSpan(c.pending, lim.nonce, k);
    } else {
      assert lim.nonce < k ==> lim.nonce in c.pending;
    }
  }

  lemma GaplessIsAlmost(c: Acct, lim: Limits)
    requires Gapless(c, lim)
    ensures AlmostGapless(c, lim, c.next) && HeadPromoted(c, lim, c.next)
  {}

  /** What `Trim` does to an account: it keeps lowest transactions, at least one pending if
      there was any, and its virtual nonce follows the last pending one. */
  ghost predicate Trimmed(c: Acct, c': Acct) {
    && c'.pending == Lowest(c.pending, |c'.pending|) && (c'.pending == map[] ==> c.pending == map[])
    && c'.queue == Lowest(c.queue, |c'.queue|)
    && c'.next == (if c'.pending == map[] then c.next else MaxNonce(c'.pending) + 1)
    && c'.pulse == Leave(c, c'.queue).pulse
  }

  lemma TrimKeepsGapless(c: Acct, c': Acct, lim: Limits, k: nat)
    requires AlmostGapless(c, lim, k) && Trimmed(c, c')
    ensures Gapless(c', lim) && (k !in c.queue ==> c'.next !in c'.queue)
  {
    hide Limits.Over, OverLimits, Lowest, Gapless;
    LowestSpans(c.pending, |c'.pending|, lim.nonce, k);
    assert lim.nonce < k ==> lim.nonce in c.pending;
    var cut := Acct(c'.pending, c'.queue, c.next, c'.pulse);
    SettleGivesGapless(cut, lim, lim.nonce + |c'.pending|);
    assert Settle(cut) == c';
    GaplessNext(c', lim);
  }

  lemma NothingToDemote(c: Acct, lim: Limits)
    requires c.pending == map[]
    ensures Demote(c, lim) == c
  {
    assert From(c.pending, lim.nonce) == map[] && Select(From(c.pending, lim.nonce), lim.Over()) == map[];
    assert c.queue + map[] == c.queue;
  }

  /** `c` came from `c0` by taking pending transactions off the top. */
  ghost predicate Shrunk(c0: Acct, c: Acct) {
    c == Cut(c0, |c.pending|)
  }

  lemma ShrunkRefl(c: Acct)
    ensures Shrunk(c, c)
  {
    assert Dropped(c.pending, c.pending) == map[];
  }

  lemma LowestTwice(m: TxMap, j: nat, k: nat)
    requires k <= j
    ensures Lowest(Lowest(m, j), k) == Lowest(m, k)
  {
    if k <= |m| {
      LowestUnique(m, k, Lowest(Lowest(m, j), k));
    }
  }

  /** With `l2` and `l1` lower parts of `m`, what lies between them comes before what lies
      above `l1`. */
  lemma LayersOrdered(m: TxMap, l1: TxMap, l2: TxMap)
    requires l2.Keys < l1.Keys <= m.Keys && forall n, k :: n in l1 && k in m && k !in l1 ==> n < k
    ensures Dropped(l1, l2) != map[] && Dropped(m, l2) != map[]
    ensures MinNonce(Dropped(m, l2)) == MinNonce(Dropped(l1, l2))
    ensures Dropped(m, l1) != map[] ==> MinNonce(Dropped(l1, l2)) < MinNonce(Dropped(m, l1))
  {
    var x :| x in l1.Keys && x !in l2.Keys;
    assert x in Dropped(l1, l2) && x in Dropped(m, l2);
    var y := MinNonce(Dropped(m, l2));
    assert y in l1;
    assert y in Dropped(l1, l2);
    assert MinNonce(Dropped(l1, l2)) in Dropped(m, l2);
  }

  /** The lowest nonce a second cut drops lies below all that the first one dropped. */
  lemma CutMinimum(m: TxMap, j: nat, k: nat)
    requires k < j <= |m|
    ensures Dropped(Lowest(m, j), Lowest(m, k)) != map[] && Dropped(m, Lowest(m, k)) != map[]
    ensures MinNonce(Dropped(m, Lowest(m, k))) == MinNonce(Dropped(Lowest(m, j), Lowest(m, k)))
    ensures Dropped(m, Lowest(m, j)) != map[] ==>
              MinNonce(Dropped(Lowest(m, j), Lowest(m, k))) < MinNonce(Dropped(m, Lowest(m, j)))
  {
    hide Dropped;
    LowestTwice(m, j, k);
    var l1, l2 := Lowest(m, j), Lowest(m, k);
    assert l2 == Lowest(l1, k);
    SubsetSize(l2.Keys, l1.Keys);
    KeysSize(l1);
    KeysSize(l2);
    LayersOrdered(m, l1, l2);
  }

  /** Cutting twice is cutting once, virtual nonce included. */
  lemma ShrunkCut(c0: Acct, c: Acct, k: nat)
    requires Shrunk(c0, c) && k < |c.pending|
    ensures Shrunk(c0, Cut(c, k)) && |Cut(c, k).pending| == k
  {
    var m, j := c0.pending, |c.pending|;
    assert |Lowest(m, j)| == j <= |m| && |Lowest(m, k)| == k;
    hide Lowest, Dropped;
    LowestTwice(m, j, k);
    CutMinimum(m, j, k);
  }

  // ----- Nothing executable in the queue -----

  ghost predicate Quiet(c: Acct) {
    c.next !in c.queue
  }

  lemma RemoveQuiet(c: Acct, n: nat, lim: Limits)
    requires Gapless(c, lim) && Quiet(c)
    ensures Quiet(Remove(c, n))
  {}

  // ----- Falling back -----

  /** Where an account stands after transactions were taken out: pending ones have gone from
      the top only, and the virtual nonce has not risen. */
  ghost predicate Fell(c0: Acct, c: Acct) {
    && c.next <= c0.next && (forall n :: n in c.pending ==> n in c0.pending)
    && (forall n, k :: n in c.pending && k in c0.pending && k < n ==> k in c.pending)
  }

  /** The account after some transactions are removed, one after the other. */
  ghost function Without(c: Acct, drop: seq<Tx>, a: Address): Acct {
    if drop == [] then c
    else
      var d := drop[|drop| - 1];
      var c' := Without(c, drop[..|drop| - 1], a);
      if d.sender == a then Remove(c', d.nonce) else c'
  }

  lemma {:induction false} WithoutFalls(c: Acct, drop: seq<Tx>, a: Address)
    ensures Fell(c, Without(c, drop, a))
  {
    if drop != [] {
      WithoutFalls(c, drop[..|drop| - 1], a);
    }
  }

  lemma {:induction false} WithoutQuiet(c: Acct, drop: seq<Tx>, a: Address, lim: Limits)
    requires Gapless(c, lim) && Quiet(c)
    ensures Gapless(Without(c, drop, a), lim) && Quiet(Without(c, drop, a))
  {
    hide Gapless, Quiet, Remove;
    if drop != [] {
      var c' := Without(c, drop[..|drop| - 1], a);
      WithoutQuiet(c, drop[..|drop| - 1], a, lim);
      RemoveKeepsGapless(c', drop[|drop| - 1].nonce, lim);
      RemoveQuiet(c', drop[|drop| - 1].nonce, lim);
    }
  }

  lemma FellTwice(c0: Acct, c1: Acct, c2: Acct)
    requires Fell(c0, c1) && Fell(c1, c2)
    ensures Fell(c0, c2)
  {}

  /** What is left of a gapless list is gapless. */
  lemma FellSpans(c0: Acct, c: Acct, lo: nat, hi: nat) returns (hi': nat)
    requires Spans(c0.pending, lo, hi) && Fell(c0, c)
    ensures Spans(c.pending, lo, hi')
  {
    if c.pending == map[] {
      hi' := lo;
    } else {
      hi' := MaxNonce(c.pending) + 1;
    }
  }

  /** What a run makes of an account before it is trimmed. */
  ghost function Processed(c: Acct, lim: Limits, cap: Option<nat>, promoted: bool, demoted: bool): Acct {
    var p := if promoted then Promote(c, lim, cap) else c;
    if demoted then Demote(p, lim) else p
  }

  // ----- What a resetting run leaves behind -----

  /** A whole resetting run on one account that no limit cuts. */
  ghost function AfterReset(c: Acct, lim: Limits, cap: Option<nat>): Acct {
    Settle(Processed(c, lim, cap, true, true))
  }

  lemma UncutIsTrimmed(c: Acct)
    ensures Trimmed(c, Settle(c))
  {
    assert Lowest(c.pending, |c.pending|) == c.pending && Lowest(c.queue, |c.queue|) == c.queue;
  }

  /** Everything pending from the state nonce up to `k` can be paid. */
  ghost predicate RunPayable(pending: TxMap, lim: Limits, k: nat) {
    forall n :: n in pending && lim.nonce <= n < k ==> !lim.Over()(pending[n])
  }

  /** An executable transaction waits in the queue: it follows on the pending ones that run from
      the state nonce on. */
  ghost predicate Waits(c: Acct, lim: Limits) {
    RunEnd(c.pending, lim.nonce) in c.queue
  }

  /** How far a resetting run can bring an account: promotion takes the queue from the state
      nonce on, but nothing while the virtual nonce is lower, and then come those that are
      still pending. */
  function Reach(c: Acct, lim: Limits): nat {
    RunEnd(c.pending, if c.next < lim.nonce then lim.nonce else RunEnd(Ready(c, lim), lim.nonce))
  }

  /** The transaction at the reach is queued and payable and so are the pending ones before it,
      and no limit cut either list short of it. */
  ghost predicate Stranded(c: Acct, lim: Limits, kept: nat, queued: nat) {
    && Reach(c, lim) in Ready(c, lim) && RunPayable(c.pending, lim, Reach(c, lim))
    && kept == Reach(c, lim) - lim.nonce && queued > 0
  }

  /** Promotion looks from the state nonce on and stops at what is still pending. So for any new
      head, with or without discards on the way, a whole run leaves an executable transaction in
      the queue exactly when one is stranded like that. */
  lemma ResetLeavesBehind(c: Acct, lim: Limits, cap: Option<nat>, lo: nat, hi: nat, c': Acct)
    requires Spans(c.pending, lo, hi) && c.next <= lim.nonce && c.pending.Keys !! c.queue.Keys
    requires cap != Some(0) && Trimmed(Processed(c, lim, cap, true, true), c')
    ensures Waits(c', lim) <==> Stranded(c, lim, |c'.pending|, |c'.queue|)
  {
    hide Ready, ReadyRun, AfterReady, Promote, Demote, Trimmed, Limits.Over, OverLimits, RunEnd, HeadMoved, Gapless;
    hide RunPayable;
    if c.next < lim.nonce {
      FellBehind(c, lim, cap, lo, hi, c');
    } else if lim.nonce >= lo || lo == hi {
      var k := if lo <= lim.nonce < hi then hi else lim.nonce;
      MovedInto(c, lim, lo, hi, k);
      MovedLeavesBehind(c, lim, cap, k, c');
      MovedIsGapless(c, lim, cap, k, c');
      GaplessRun(c', lim);
      MovedReach(c, lim, lo, hi, k);
    } else {
      WentBack(c, lim, cap, lo, hi, c');
    }
  }

  lemma GaplessRun(c: Acct, lim: Limits)
    requires Gapless(c, lim)
    ensures RunEnd(c.pending, lim.nonce) == c.next && (Waits(c, lim) <==> c.next in c.queue)
  {
    RunEndIs(c.pending, lim.nonce, c.next);
  }

  lemma MovedReach(c: Acct, lim: Limits, lo: nat, hi: nat, k: nat)
    requires Spans(c.pending, lo, hi) && c.next == lim.nonce && c.pending.Keys !! c.queue.Keys
    requires (lim.nonce >= lo || lo == hi) && k == if lo <= lim.nonce < hi then hi else lim.nonce
    ensures if lim.nonce in Ready(c, lim) then Reach(c, lim) !in Ready(c, lim) else Reach(c, lim) == k
  {
    hide Ready;
    ReadyMeans(c, lim, Ready(c, lim));
    var r := RunEnd(Ready(c, lim), lim.nonce);
    if lim.nonce in Ready(c, lim) {
      assert lim.nonce !in c.pending && r !in c.pending;
      RunEndIs(c.pending, r, r);
    } else {
      RunEndIs(Ready(c, lim), lim.nonce, lim.nonce);
      RunEndIs(c.pending, lim.nonce, k);
    }
  }

  /** The head moved on: what follows the pending ones that it left in place is left behind. */
  lemma MovedLeavesBehind(c: Acct, lim: Limits, cap: Option<nat>, k: nat, c': Acct)
    requires HeadMoved(c, lim.nonce, k) && cap != Some(0) && Trimmed(Processed(c, lim, cap, true, true), c')
    ensures c'.next in c'.queue <==>
              && lim.nonce !in Ready(c, lim) && k in Ready(c, lim) && RunPayable(c.pending, lim, k)
              && |c'.pending| == k - lim.nonce && |c'.queue| > 0
  {
    hide Ready, ReadyRun, AfterReady, Promote, Lowest, Limits.Over, OverLimits, RunEnd, Payable, Postponed, FirstOver;
    hide Demote, Trimmed;
    ReadyMeans(c, lim, Ready(c, lim));
    var payable := Ready(c, lim);
    if lim.nonce in payable {
      PromotedLeavesNothing(c, lim, cap, k, c', payable);
    } else {
      NoRun(c, lim, cap, payable);
      if k in payable {
        LowestHasMin(payable, cap, k);
      }
      LowestWithin(payable, cap);
      LeavesBehind(Promote(c, lim, cap), lim, k, c');
    }
  }

  /** The virtual nonce fell below the state nonce, so that nothing is promoted. */
  lemma FellBehind(c: Acct, lim: Limits, cap: Option<nat>, lo: nat, hi: nat, c': Acct)
    requires Spans(c.pending, lo, hi) && c.next < lim.nonce && c.pending.Keys !! c.queue.Keys
    requires cap != Some(0) && Trimmed(Processed(c, lim, cap, true, true), c')
    ensures Waits(c', lim) <==> Stranded(c, lim, |c'.pending|, |c'.queue|)
  {
    hide Ready, ReadyRun, AfterReady, Promote, Demote, Trimmed, Limits.Over, OverLimits, Payable, Postponed;
    hide FirstOver, Lowest, Gapless, RunPayable;
    ReadyMeans(c, lim, Ready(c, lim));
    var payable := Ready(c, lim);
    NothingReady(c, lim, cap, payable);
    LowestWithin(payable, cap);
    var p := Promote(c, lim, cap);
    if lim.nonce !in c.pending {
      RunEndIs(c.pending, lim.nonce, lim.nonce);
      NothingFromHere(p, lim);
      if lim.nonce in payable {
        LowestHasMin(payable, cap, lim.nonce);
      }
      StaysQueued(p, lim, c');
    } else {
      RunEndIs(c.pending, lim.nonce, hi);
      assert Spans(From(p.pending, lim.nonce), lim.nonce, hi);
      if hi in payable {
        LowestHasMin(payable, cap, hi);
      }
      if lim.Over()(c.pending[lim.nonce]) {
        FirstNotPayable(p, lim, hi, c');
      } else {
        LeavesBehind(p, lim, hi, c');
        NonceFell(c, lim, cap, lo, hi, c');
        GaplessRun(c', lim);
      }
    }
  }

  /** Nothing is pending at the state nonce: what waits is the transaction there. */
  lemma StaysQueued(p: Acct, lim: Limits, c': Acct)
    requires lim.nonce !in p.pending && (forall q :: q in p.queue ==> lim.nonce <= q)
    requires Demote(p, lim).pending == map[] && Trimmed(Demote(p, lim), c')
    ensures c'.pending == map[] && (Waits(c', lim) <==> lim.nonce in p.queue && |c'.queue| > 0)
    ensures RunPayable(p.pending, lim, lim.nonce)
  {
    PartsFrom(p.pending, lim);
    hide Payable, Postponed, Lowest, Limits.Over, OverLimits;
    var q := Demote(p, lim).queue;
    assert lim.nonce in q <==> lim.nonce in p.queue;
    assert forall n :: n in q ==> lim.nonce <= n;
    RunEndIs(c'.pending, lim.nonce, lim.nonce);
    if lim.nonce in q && |c'.queue| > 0 {
      LowestHasMin(q, Some(|c'.queue|), lim.nonce);
    }
  }

  lemma PartsFrom(pending: TxMap, lim: Limits)
    ensures forall n :: n in Payable(pending, lim) ==> n in pending && lim.nonce <= n
    ensures forall n :: n in Postponed(pending, lim) ==> n in pending && lim.nonce < n
  {}

  /** The pending transaction at the state nonce goes, and nothing is left in its place. */
  lemma FirstNotPayable(p: Acct, lim: Limits, k: nat, c': Acct)
    requires Spans(From(p.pending, lim.nonce), lim.nonce, k) && lim.nonce in p.pending
    requires lim.Over()(p.pending[lim.nonce])
    requires lim.nonce !in p.queue && Trimmed(Demote(p, lim), c')
    ensures !Waits(c', lim) && !RunPayable(p.pending, lim, k)
  {
    hide Limits.Over, OverLimits, Payable, Postponed, FirstOver, Lowest;
    DemoteParts(p.pending, lim, k);
    FirstOverAt(p.pending, lim, k);
    PartsFrom(p.pending, lim);
    assert Payable(p.pending, lim) == map[];
    assert c'.pending == map[];
    RunEndIs(c'.pending, lim.nonce, lim.nonce);
    assert lim.nonce in From(p.pending, lim.nonce);
  }

  /** The head went back below what is pending. */
  lemma WentBack(c: Acct, lim: Limits, cap: Option<nat>, lo: nat, hi: nat, c': Acct)
    requires Spans(c.pending, lo, hi) && c.next == lim.nonce && c.pending.Keys !! c.queue.Keys && lim.nonce < lo < hi
    requires cap != Some(0) && Trimmed(Processed(c, lim, cap, true, true), c')
    ensures Waits(c', lim) <==> Stranded(c, lim, |c'.pending|, |c'.queue|)
  {
    hide Ready, ReadyRun, AfterReady, Promote, Demote, Trimmed, Limits.Over, OverLimits, Lowest, Gapless, RunPayable;
    ReadyMeans(c, lim, Ready(c, lim));
    var payable := Ready(c, lim);
    var r := RunEnd(payable, lim.nonce);
    if lim.nonce !in payable {
      RunEndIs(payable, lim.nonce, lim.nonce);
      RunEndIs(c.pending, lim.nonce, lim.nonce);
      FrontGap(c, lim, cap, lo, hi, payable, c');
      RunEndIs(c'.pending, lim.nonce, lim.nonce);
    } else {
      RunReaches(c, lim, cap, lo, hi, payable);
      if r == lo {
        RunEndIs(c.pending, lo, hi);
        Rejoined(c, lim, cap, lo, hi, payable, c');
      } else {
        RunEndIs(c.pending, r, r);
        ShortLeavesNothing(c, lim, cap, lo, hi, payable, c');
      }
    }
  }

  /** What came back reaches the pending ones: what follows on those is left behind. */
  lemma Rejoined(c: Acct, lim: Limits, cap: Option<nat>, lo: nat, hi: nat, payable: TxMap, c': Acct)
    requires Spans(c.pending, lo, hi) && c.next == lim.nonce && c.pending.Keys !! c.queue.Keys && lim.nonce < lo < hi
    requires cap != Some(0) && Trimmed(Processed(c, lim, cap, true, true), c')
    requires payable == Ready(c, lim) && lim.nonce in payable && RunEnd(payable, lim.nonce) == lo
    ensures Waits(c', lim) <==>
              hi in payable && RunPayable(c.pending, lim, hi) && |c'.pending| == hi - lim.nonce && |c'.queue| > 0
  {
    hide Ready, Promote, Demote, Trimmed, Limits.Over, OverLimits, Gapless, HeadPromoted, AlmostGapless, RunPayable;
    RejoinedShape(c, lim, cap, lo, hi, payable);
    RunReaches(c, lim, cap, lo, hi, payable);
    var p := Promote(c, lim, cap);
    LeavesBehind(p, lim, hi, c');
    var k := DemoteAfterPromote(p, lim, hi);
    TrimKeepsGapless(Demote(p, lim), c', lim, k);
    GaplessRun(c', lim);
  }

  lemma RejoinedShape(c: Acct, lim: Limits, cap: Option<nat>, lo: nat, hi: nat, payable: TxMap)
    requires Spans(c.pending, lo, hi) && c.next == lim.nonce && c.pending.Keys !! c.queue.Keys && lim.nonce < lo < hi
    requires cap != Some(0)
    requires payable == Ready(c, lim) && lim.nonce in payable && RunEnd(payable, lim.nonce) == lo
    ensures Spans(From(Promote(c, lim, cap).pending, lim.nonce), lim.nonce, hi)
    ensures forall q :: q in Promote(c, lim, cap).queue ==> hi <= q
    ensures lim.nonce in Promote(c, lim, cap).pending && !lim.Over()(Promote(c, lim, cap).pending[lim.nonce])
    ensures hi in Promote(c, lim, cap).queue <==> hi in payable
    ensures RunPayable(Promote(c, lim, cap).pending, lim, hi) <==> RunPayable(c.pending, lim, hi)
  {
    hide Ready, ReadyRun, AfterReady, Promote, Limits.Over, OverLimits, RunEnd;
    ReadyMeans(c, lim, payable);
    RunBounds(payable, c.next);
    PromoteShape(c, lim, cap, payable);
    QueueWithin(c, lim, cap, payable);
    CapKeeps(c, lim, cap, payable, hi);
  }

  /** What lies just above the promoted run and what is pending stays in a capped queue. */
  lemma CapKeeps(c: Acct, lim: Limits, cap: Option<nat>, payable: TxMap, n: nat)
    requires payable == Ready(c, lim) && cap != Some(0)
    requires (forall q :: q in payable ==> c.next <= q) && RunEnd(payable, c.next) < n
    requires forall q :: q in payable && RunEnd(payable, c.next) < q ==> n <= q
    ensures n in Promote(c, lim, cap).queue <==> n in payable
  {
    hide Ready, Lowest, Limits.Over, OverLimits;
    var rest := AfterReady(payable, c.next);
    RunBounds(payable, c.next);
    assert forall q :: q in rest ==> q in payable;
    if c.next in payable {
      MinInRun(payable, c.next);
    }
    assert n in payable ==> n in rest;
    LowestWithin(rest, cap);
    if n in rest {
      LowestHasMin(rest, cap, n);
    }
  }

  /** What came back stops short of the pending ones: nothing follows on it. */
  lemma ShortLeavesNothing(c: Acct, lim: Limits, cap: Option<nat>, lo: nat, hi: nat, payable: TxMap, c': Acct)
    requires Spans(c.pending, lo, hi) && c.next == lim.nonce && c.pending.Keys !! c.queue.Keys && lim.nonce < lo < hi
    requires payable == Ready(c, lim) && lim.nonce in payable
    requires lim.nonce < RunEnd(payable, lim.nonce) < lo && Trimmed(Processed(c, lim, cap, true, true), c')
    ensures !Waits(c', lim)
  {
    hide Ready, Promote, Demote, Limits.Over, OverLimits, RunEnd, Trimmed;
    var p, r := Promote(c, lim, cap), RunEnd(payable, lim.nonce);
    ShortShape(c, lim, cap, lo, hi, payable);
    NothingAt(p, lim, r, lo);
    TrimmedWithin(Demote(p, lim), c');
    RunStops(c'.pending, lim.nonce, r);
  }

  lemma NothingAt(p: Acct, lim: Limits, r: nat, lo: nat)
    requires lim.nonce < r < lo && (forall n :: n in p.pending ==> lim.nonce <= n < r || lo <= n)
    requires lim.nonce in p.pending
    requires (forall n :: n in p.pending && n < r ==> !lim.Over()(p.pending[n])) && (forall q :: q in p.queue ==> r < q)
    ensures r !in Demote(p, lim).pending && forall q :: q in Demote(p, lim).queue ==> r < q
  {
    hide Limits.Over, OverLimits;
    PartsWithin(p.pending, lim);
    var m := From(p.pending, lim.nonce);
    var over := Select(m, lim.Over());
    assert over != map[] ==> MinNonce(over) in over && r < MinNonce(over);
    assert lim.nonce in Payable(p.pending, lim);
  }

  lemma TrimmedWithin(c: Acct, c': Acct)
    requires Trimmed(c, c')
    ensures (forall n :: n in c'.pending ==> n in c.pending) && (forall n :: n in c'.queue ==> n in c.queue)
  {}

  lemma RunStops(m: TxMap, start: nat, r: nat)
    requires start <= r && r !in m
    ensures RunEnd(m, start) <= r
  {
    assert r < RunEnd(m, start) ==> r in m;
  }

  /** With the virtual nonce at the state nonce a returning run is promoted whole. */
  lemma PromotedLeavesNothing(c: Acct, lim: Limits, cap: Option<nat>, k: nat, c': Acct, payable: TxMap)
    requires HeadMoved(c, lim.nonce, k) && Trimmed(Processed(c, lim, cap, true, true), c')
    requires payable == Ready(c, lim) && lim.nonce in payable
    ensures k == lim.nonce && c'.next !in c'.queue
  {
    hide Ready, ReadyRun, AfterReady, Promote, Lowest, Limits.Over, OverLimits, RunEnd, Payable, Postponed, FirstOver;
    hide Demote, Trimmed;
    ReadyMeans(c, lim, payable);
    assert k == lim.nonce;
    RunBounds(payable, c.next);
    PromoteShape(c, lim, cap, payable);
    var p, r := Promote(c, lim, cap), RunEnd(payable, lim.nonce);
    RunNotEmpty(payable, lim.nonce);
    assert forall n :: n in From(c.pending, lim.nonce) <==> n in c.pending && lim.nonce <= n;
    assert Spans(From(p.pending, lim.nonce), lim.nonce, r);
    assert forall n :: n in p.pending && lim.nonce <= n < r ==> !lim.Over()(p.pending[n]);
    DemoteWhole(p, lim, r);
    TrimKeepsGapless(Demote(p, lim), c', lim, r);
  }

  /** All payable: demotion only drops what the state has passed. */
  lemma DemoteWhole(p: Acct, lim: Limits, k: nat)
    requires Spans(From(p.pending, lim.nonce), lim.nonce, k) && RunPayable(p.pending, lim, k)
    requires (forall q :: q in p.queue ==> k <= q)
    requires k == lim.nonce ==> p.next == lim.nonce
    ensures AlmostGapless(Demote(p, lim), lim, k) && Demote(p, lim).queue == p.queue
    ensures Demote(p, lim).pending == From(p.pending, lim.nonce)
  {
    hide Limits.Over, OverLimits;
    var m := From(p.pending, lim.nonce);
    var over := Select(m, lim.Over());
    assert forall n :: n in m ==> n in p.pending && lim.nonce <= n < k && m[n] == p.pending[n];
    assert over.Keys == {};
    assert p.queue + map[] == p.queue;
    assert lim.nonce < k ==> lim.nonce in m;
  }

  lemma LeavesBehind(p: Acct, lim: Limits, k: nat, c': Acct)
    requires Spans(From(p.pending, lim.nonce), lim.nonce, k) && (forall q :: q in p.queue ==> k <= q)
    requires p.next == lim.nonce || (lim.nonce in p.pending && !lim.Over()(p.pending[lim.nonce]))
    requires Trimmed(Demote(p, lim), c') && (k == lim.nonce ==> k !in p.queue)
    ensures c'.next in c'.queue <==>
              k in p.queue && RunPayable(p.pending, lim, k) && |c'.pending| == k - lim.nonce && |c'.queue| > 0
  {
    hide Limits.Over, OverLimits, Payable, Postponed, FirstOver, Demote, Trimmed, Lowest;
    assert lim.nonce in p.pending ==> lim.nonce in From(p.pending, lim.nonce);
    if RunPayable(p.pending, lim, k) {
      DemoteWhole(p, lim, k);
      TrimmedNext(Demote(p, lim), c', lim, k);
      if k in p.queue && |c'.queue| > 0 {
        LowestHasMin(p.queue, Some(|c'.queue|), k);
      }
    } else {
      DemoteParts(p.pending, lim, k);
      var f := FirstOver(p.pending, lim, k);
      FirstOverIsFirst(p.pending, lim, k);
      if lim.nonce in p.pending {
        FirstOverAt(p.pending, lim, k);
      }
      DemotedAt(p, lim, k);
      TrimKeepsGapless(Demote(p, lim), c', lim, f);
    }
  }

  lemma FirstOverIsFirst(pending: TxMap, lim: Limits, k: nat)
    requires Spans(From(pending, lim.nonce), lim.nonce, k) && !RunPayable(pending, lim, k)
    ensures FirstOver(pending, lim, k) < k
  {
    hide Limits.Over, OverLimits;
    var n :| n in pending && lim.nonce <= n < k && lim.Over()(pending[n]);
    assert n in Select(From(pending, lim.nonce), lim.Over());
  }

  /** Demotion up to the first unpayable transaction, which is gone altogether. */
  lemma DemotedAt(p: Acct, lim: Limits, k: nat)
    requires Spans(From(p.pending, lim.nonce), lim.nonce, k) && (forall q :: q in p.queue ==> k <= q)
    requires FirstOver(p.pending, lim, k) < k && (FirstOver(p.pending, lim, k) == lim.nonce ==> p.next == lim.nonce)
    ensures AlmostGapless(Demote(p, lim), lim, FirstOver(p.pending, lim, k))
    ensures FirstOver(p.pending, lim, k) !in Demote(p, lim).queue
  {
    hide Limits.Over, OverLimits, Payable, Postponed, FirstOver;
    DemoteParts(p.pending, lim, k);
    assert lim.nonce < FirstOver(p.pending, lim, k) ==> lim.nonce in Payable(p.pending, lim);
  }

  lemma TrimmedNext(c: Acct, c': Acct, lim: Limits, k: nat)
    requires AlmostGapless(c, lim, k) && Trimmed(c, c')
    ensures c'.next == lim.nonce + |c'.pending| <= k && c'.queue == Lowest(c.queue, |c'.queue|)
  {
    TrimKeepsGapless(c, c', lim, k);
    GaplessNext(c', lim);
    LowestSpans(c.pending, |c'.pending|, lim.nonce, k);
  }

  /** It happens: nonce 0 is pending, nonce 1 has just been queued, and a new head comes before
      its promotion. */
  lemma ResetCanLeaveBehind(a: Address)
    ensures exists c: Acct, lim: Limits :: Gapless(c, lim) && Waits(AfterReset(c.(next := lim.nonce), lim, None), lim)
  {
    hide Promote, Demote, Settle, Waits, AfterReset, Limits.Over;
    var t0, t1 := Tx(0, a, 0, 1, 1, 0, 1), Tx(1, a, 1, 1, 1, 0, 1);
    var lim, c := Limits(0, 1, 1), Acct(map[0 := t0], map[1 := t1], 1, QUIET);
    assert !lim.Over()(t0) && !lim.Over()(t1) by { Payable1(lim, t0); Payable1(lim, t1); }
    assert Gapless(c, lim);
    LeftBehind(c.(next := lim.nonce), lim, t0, t1);
  }

  lemma Payable1(lim: Limits, t: Tx)
    requires t.Cost() <= lim.balance && t.gas <= lim.maxGas
    ensures !lim.Over()(t)
  {}

  lemma LeftBehind(c: Acct, lim: Limits, t0: Tx, t1: Tx)
    requires c == Acct(map[0 := t0], map[1 := t1], 0, QUIET) && lim.nonce == 0 && !lim.Over()(t0) && !lim.Over()(t1)
    ensures Waits(AfterReset(c, lim, None), lim)
  {
    hide Limits.Over, OverLimits, Promote, Demote;
    NoRun(c, lim, None, Ready(c, lim));
    var p := Promote(c, lim, None);
    assert From(p.pending, 0) == p.pending;
    DemoteWhole(p, lim, 1);
    RunEndIs(p.pending, 0, 1);
  }

  /** It also happens to an account that goes back: nonce 1 is still pending, nonce 0 returns,
      and nonce 2 waits behind both. */
  lemma ReturnCanLeaveBehind(a: Address)
    ensures exists c: Acct, lim: Limits ::
              Spans(c.pending, 1, 2) && c.next == lim.nonce == 0 && Waits(AfterReset(c, lim, None), lim)
  {
    hide Promote, Demote, Settle, Waits, AfterReset, Limits.Over;
    var t0, t1, t2 := Tx(0, a, 0, 1, 1, 0, 1), Tx(1, a, 1, 1, 1, 0, 1), Tx(2, a, 2, 1, 1, 0, 1);
    var lim, c := Limits(0, 1, 1), Acct(map[1 := t1], map[0 := t0, 2 := t2], 0, QUIET);
    Payable1(lim, t0);
    Payable1(lim, t1);
    Payable1(lim, t2);
    assert Spans(c.pending, 1, 2);
    LeftAfterReturn(c, lim, t0, t1, t2);
  }

  lemma LeftAfterReturn(c: Acct, lim: Limits, t0: Tx, t1: Tx, t2: Tx)
    requires c == Acct(map[1 := t1], map[0 := t0, 2 := t2], 0, QUIET) && lim.nonce == 0
    requires !lim.Over()(t0) && !lim.Over()(t1) && !lim.Over()(t2)
    ensures Waits(AfterReset(c, lim, None), lim)
  {
    hide Limits.Over, OverLimits, Promote, Demote, Ready;
    ReadyMeans(c, lim, Ready(c, lim));
    RunEndIs(Ready(c, lim), 0, 1);
    RejoinedShape(c, lim, None, 1, 2, Ready(c, lim));
    var p := Promote(c, lim, None);
    DemoteWhole(p, lim, 2);
    RunEndIs(From(p.pending, 0), 0, 2);
  }

  /** Once stranded, the transaction is there to stay: a later resetting run makes it pending
      exactly when the state nonce has reached it. */
  lemma StrandedUntil(c: Acct, lim: Limits, lim': Limits, cap: Option<nat>, c': Acct)
    requires Gapless(c, lim) && c.next in c.queue
    requires Trimmed(Processed(c.(next := lim'.nonce), lim', cap, true, true), c')
    ensures c.next in c'.pending <==> lim'.nonce == c.next && !lim'.Over()(c.queue[c.next])
  {
    hide ReadyRun, AfterReady, Promote, Demote, Trimmed, Limits.Over, OverLimits, Ready, RunEnd;
    var c1 := c.(next := lim'.nonce);
    var payable := Ready(c1, lim');
    ReadyMeans(c1, lim', payable);
    RunBounds(payable, c1.next);
    PromoteShape(c1, lim', cap, payable);
    var p := Promote(c1, lim', cap);
    TrimmedWithin(Demote(p, lim'), c');
    DemoteWithin(p, lim');
    if lim'.nonce == c.next && c.next in payable {
      assert forall n :: n in From(p.pending, c.next) <==> n in ReadyRun(payable, c.next);
      FirstStays(p, lim', RunEnd(payable, c.next), c');
    } else if c1.next !in payable {
      RunEndIs(payable, c1.next, c1.next);
    }
  }

  lemma DemoteWithin(p: Acct, lim: Limits)
    ensures forall n :: n in Demote(p, lim).pending ==> n in p.pending
  {
    PartsWithin(p.pending, lim);
  }

  /** A payable transaction at the state nonce stays pending. */
  lemma FirstStays(p: Acct, lim: Limits, k: nat, c': Acct)
    requires Spans(From(p.pending, lim.nonce), lim.nonce, k) && lim.nonce in p.pending
    requires !lim.Over()(p.pending[lim.nonce])
    requires Trimmed(Demote(p, lim), c')
    ensures lim.nonce in c'.pending
  {
    hide Limits.Over, OverLimits, Payable, Postponed, FirstOver, Lowest;
    DemoteParts(p.pending, lim, k);
    FirstOverAt(p.pending, lim, k);
    assert lim.nonce in Payable(p.pending, lim);
    LowestHasMin(Demote(p, lim).pending, Some(|c'.pending|), lim.nonce);
  }

  /** A run that is asked to promote the account does move it on. */
  lemma StrandedNoMore(c: Acct, lim: Limits, cap: Option<nat>)
    requires Gapless(c, lim) && c.next in c.queue && !lim.Over()(c.queue[c.next])
    ensures c.next in Promote(c, lim, cap).pending
  {
    hide ReadyRun, AfterReady, Promote, Limits.Over, OverLimits, Ready;
    ReadyMeans(c, lim, Ready(c, lim));
    RunBounds(Ready(c, lim), c.next);
    RunNotEmpty(Ready(c, lim), c.next);
    PromoteShape(c, lim, cap, Ready(c, lim));
  }

  // ----- Heads that abandon blocks -----

  /** The head went back to a lower state nonce; the transactions that came back make a run
      from it that stops short of what is still pending and payable. */
  ghost predicate StopsShort(c: Acct, lim: Limits) {
    var payable := Ready(c, lim);
    && c.pending != map[] && lim.nonce < MinNonce(c.pending)
    && lim.nonce in payable && RunEnd(payable, lim.nonce) < MinNonce(c.pending)
    && !lim.Over()(c.pending[MinNonce(c.pending)])
  }

  /** The two ways in which a resetting run leaves an account in disorder, with `kept` pending
      transactions after truncation. A discard took the virtual nonce below the state nonce and
      nothing payable is pending there to settle it; or the returned run stops short, and what
      is kept reaches beyond the gap. */
  ghost predicate Disordered(c: Acct, lim: Limits, kept: nat) {
    if c.next < lim.nonce then !(lim.nonce in c.pending && !lim.Over()(c.pending[lim.nonce]))
    else StopsShort(c, lim) && kept > RunEnd(Ready(c, lim), lim.nonce) - lim.nonce
  }

  /** For any new head, with or without discards on the way: an account whose pending nonces
      had no gap is executable after the whole run, truncation included, exactly unless it ends
      in one of these ways. */
  lemma ResetGaplessIff(c: Acct, lim: Limits, cap: Option<nat>, lo: nat, hi: nat, c': Acct)
    requires Spans(c.pending, lo, hi) && c.next <= lim.nonce && c.pending.Keys !! c.queue.Keys
    requires Trimmed(Processed(c, lim, cap, true, true), c')
    ensures Gapless(c', lim) <==> !Disordered(c, lim, |c'.pending|)
  {
    hide Ready, ReadyRun, AfterReady, Promote, Demote, Trimmed, Limits.Over, OverLimits, RunEnd, HeadMoved, Gapless;
    var payable := Ready(c, lim);
    if c.next < lim.nonce {
      NonceFell(c, lim, cap, lo, hi, c');
    } else if lim.nonce >= lo || lo == hi {
      var k := if lo <= lim.nonce < hi then hi else lim.nonce;
      MovedInto(c, lim, lo, hi, k);
      MovedIsGapless(c, lim, cap, k, c');
      assert !StopsShort(c, lim) by {
        if c.pending != map[] {
          assert lo in c.pending && MinNonce(c.pending) == lo;
        }
      }
    } else {
      assert lo in c.pending && MinNonce(c.pending) == lo;
      if lim.nonce !in payable {
        FrontGap(c, lim, cap, lo, hi, payable, c');
      } else {
        RunReaches(c, lim, cap, lo, hi, payable);
        if RunEnd(payable, lim.nonce) == lo {
          var k := DemoteAfterPromote(Promote(c, lim, cap), lim, hi);
          TrimKeepsGapless(Processed(c, lim, cap, true, true), c', lim, k);
        } else {
          ShortRun(c, lim, cap, lo, hi, payable, c');
        }
      }
    }
  }

  /** Both questions about an account after a resetting run are answered. */
  ghost predicate Explained(c: Acct, c': Acct, lim: Limits) {
    && (Gapless(c', lim) <==> !Disordered(c, lim, |c'.pending|))
    && (Waits(c', lim) <==> Stranded(c, lim, |c'.pending|, |c'.queue|))
  }

  lemma MovedInto(c: Acct, lim: Limits, lo: nat, hi: nat, k: nat)
    requires Spans(c.pending, lo, hi) && c.next == lim.nonce && c.pending.Keys !! c.queue.Keys
    requires (lim.nonce >= lo || lo == hi) && k == if lo <= lim.nonce < hi then hi else lim.nonce
    ensures HeadMoved(c, lim.nonce, k)
  {}

  lemma MovedIsGapless(c: Acct, lim: Limits, cap: Option<nat>, k: nat, c': Acct)
    requires HeadMoved(c, lim.nonce, k) && Trimmed(Processed(c, lim, cap, true, true), c')
    ensures Gapless(c', lim)
  {
    hide HeadMoved, HeadPromoted, AlmostGapless, Gapless, Promote, Demote, Trimmed;
    var k1 := PromoteAfterMove(c, lim, cap, k);
    var k2 := DemoteAfterPromote(Promote(c, lim, cap), lim, k1);
    TrimKeepsGapless(Processed(c, lim, cap, true, true), c', lim, k2);
  }

  /** With the virtual nonce below the state nonce nothing is promoted, and only what is pending
      from the state nonce on can settle it. */
  lemma NonceFell(c: Acct, lim: Limits, cap: Option<nat>, lo: nat, hi: nat, c': Acct)
    requires Spans(c.pending, lo, hi) && c.next < lim.nonce && c.pending.Keys !! c.queue.Keys
    requires Trimmed(Processed(c, lim, cap, true, true), c')
    ensures Gapless(c', lim) <==> lim.nonce in c.pending && !lim.Over()(c.pending[lim.nonce])
  {
    hide Ready, ReadyRun, AfterReady, Promote, Demote, Trimmed, Limits.Over, OverLimits, Payable, Postponed;
    hide FirstOver, Lowest;
    var payable := Ready(c, lim);
    NothingReady(c, lim, cap, payable);
    LowestWithin(payable, cap);
    var p := Promote(c, lim, cap);
    if lim.nonce in c.pending {
      assert Spans(From(p.pending, lim.nonce), lim.nonce, hi);
      DemoteParts(p.pending, lim, hi);
      FirstOverAt(p.pending, lim, hi);
      DemotedFrom(p, lim, hi);
      if lim.Over()(c.pending[lim.nonce]) {
        TrimmedEmpty(Demote(p, lim), c');
      } else {
        TrimKeepsGapless(Demote(p, lim), c', lim, FirstOver(p.pending, lim, hi));
      }
    } else {
      NothingFromHere(p, lim);
      TrimmedEmpty(Demote(p, lim), c');
    }
  }

  lemma FirstOverAt(pending: TxMap, lim: Limits, k: nat)
    requires Spans(From(pending, lim.nonce), lim.nonce, k) && lim.nonce in pending
    ensures FirstOver(pending, lim, k) == lim.nonce <==> lim.Over()(pending[lim.nonce])
  {
    hide Limits.Over, OverLimits;
    var over := Select(From(pending, lim.nonce), lim.Over());
    assert lim.Over()(pending[lim.nonce]) ==> lim.nonce in over;
    assert forall n :: n in over ==> lim.nonce <= n;
    assert lim.nonce in From(pending, lim.nonce);
  }

  lemma DemotedFrom(p: Acct, lim: Limits, k: nat)
    requires Spans(From(p.pending, lim.nonce), lim.nonce, k) && lim.nonce in p.pending
    requires forall q :: q in p.queue ==> lim.nonce <= q && q !in p.pending
    ensures Spans(Demote(p, lim).pending, lim.nonce, FirstOver(p.pending, lim, k)) && Demote(p, lim).next == p.next
    ensures lim.nonce < FirstOver(p.pending, lim, k) ==>
              AlmostGapless(Demote(p, lim), lim, FirstOver(p.pending, lim, k))
  {
    hide Limits.Over, OverLimits, Payable, Postponed, FirstOver;
    DemoteParts(p.pending, lim, k);
    assert forall q :: q in p.queue ==> lim.nonce <= q && q !in From(p.pending, lim.nonce);
    assert lim.nonce < FirstOver(p.pending, lim, k) ==> lim.nonce in Payable(p.pending, lim);
  }

  lemma NothingReady(c: Acct, lim: Limits, cap: Option<nat>, payable: TxMap)
    requires payable == Ready(c, lim) && c.next < lim.nonce
    ensures Promote(c, lim, cap).pending == c.pending && Promote(c, lim, cap).next == c.next
    ensures Promote(c, lim, cap).queue == if cap.Some? then Lowest(payable, cap.value) else payable
    ensures forall n :: n in payable ==> n in c.queue && lim.nonce <= n
  {
    assert ReadyRun(payable, c.next) == map[] && AfterReady(payable, c.next) == payable;
    assert c.pending + map[] == c.pending;
  }

  /** Without a pending transaction at the state nonce none stays pending. */
  lemma NothingFromHere(p: Acct, lim: Limits)
    requires lim.nonce !in p.pending
    ensures Demote(p, lim).pending == map[] && Demote(p, lim).next == p.next
  {
    PartsWithin(p.pending, lim);
    hide Payable, Postponed;
  }

  lemma TrimmedEmpty(c: Acct, c': Acct)
    requires c.pending == map[] && Trimmed(c, c')
    ensures c'.pending == map[] && c'.next == c.next && forall q :: q in c'.queue ==> q in c.queue
  {}

  /** Nothing came back at the new state nonce: all pending transactions return to the queue. */
  lemma FrontGap(c: Acct, lim: Limits, cap: Option<nat>, lo: nat, hi: nat, payable: TxMap, c': Acct)
    requires Spans(c.pending, lo, hi) && c.next == lim.nonce && lim.nonce < lo
    requires Trimmed(Processed(c, lim, cap, true, true), c')
    requires payable == Ready(c, lim) && lim.nonce !in payable
    ensures Gapless(c', lim) && c'.pending == map[] && lim.nonce !in c'.queue
  {
    hide Ready, From, Promote, Demote, Lowest, Limits.Over, OverLimits, Trimmed;
    NoRun(c, lim, cap, payable);
    LowestWithin(payable, cap);
    GapDemotes(Promote(c, lim, cap), lim);
    TrimmedEmpty(Processed(c, lim, cap, true, true), c');
  }

  lemma GapDemotes(p: Acct, lim: Limits)
    requires forall n :: n in p.pending ==> lim.nonce < n
    ensures Demote(p, lim).pending == map[] && Demote(p, lim).next == p.next
    ensures forall q :: q in Demote(p, lim).queue ==> q in p.queue || q in p.pending
  {
    PartsWithin(p.pending, lim);
    hide Payable, Postponed;
  }

  lemma PartsWithin(pending: TxMap, lim: Limits)
    ensures forall n :: n in Payable(pending, lim) ==> n in pending
    ensures forall n :: n in Postponed(pending, lim) ==> n in pending
  {}

  /** The run that came back ends where the old pending transactions start, or before. */
  lemma RunReaches(c: Acct, lim: Limits, cap: Option<nat>, lo: nat, hi: nat, payable: TxMap)
    requires Spans(c.pending, lo, hi) && c.next == lim.nonce && c.pending.Keys !! c.queue.Keys && lim.nonce < lo < hi
    requires payable == Ready(c, lim) && lim.nonce in payable
    ensures lim.nonce < RunEnd(payable, lim.nonce) <= lo
    ensures RunEnd(payable, lim.nonce) == lo ==> HeadPromoted(Promote(c, lim, cap), lim, hi)
  {
    hide Ready, ReadyRun, AfterReady, Promote, Lowest, Limits.Over, OverLimits;
    ReadyMeans(c, lim, payable);
    RunBounds(payable, c.next);
    PromoteShape(c, lim, cap, payable);
    assert lo in c.pending && lo !in payable;
    QueueWithin(c, lim, cap, payable);
  }

  lemma QueueWithin(c: Acct, lim: Limits, cap: Option<nat>, payable: TxMap)
    requires payable == Ready(c, lim)
    ensures forall q :: q in Promote(c, lim, cap).queue ==> q in c.queue
  {
    assert forall q :: q in AfterReady(payable, c.next) ==> q in payable;
    LowestWithin(AfterReady(payable, c.next), cap);
    hide AfterReady, Lowest;
  }

  lemma ShortRun(c: Acct, lim: Limits, cap: Option<nat>, lo: nat, hi: nat, payable: TxMap, c': Acct)
    requires Spans(c.pending, lo, hi) && c.next == lim.nonce && c.pending.Keys !! c.queue.Keys && lim.nonce < lo < hi
    requires payable == Ready(c, lim) && lim.nonce in payable
    requires lim.nonce < RunEnd(payable, lim.nonce) < lo && Trimmed(Processed(c, lim, cap, true, true), c')
    ensures Gapless(c', lim) <==> lim.Over()(c.pending[lo]) || |c'.pending| <= RunEnd(payable, lim.nonce) - lim.nonce
  {
    hide Ready, From, Promote, Demote, Trimmed, Limits.Over, OverLimits, RunEnd, Gapless, AlmostGapless, HasGap;
    var p, r := Promote(c, lim, cap), RunEnd(payable, lim.nonce);
    ShortShape(c, lim, cap, lo, hi, payable);
    if lim.Over()(c.pending[lo]) {
      ShortRunCut(p, lim, r, lo, hi);
      TrimKeepsGapless(Demote(p, lim), c', lim, r);
    } else {
      GapRemains(p, lim, r, lo, hi);
      GapTrimmed(Demote(p, lim), c', lim, r, lo);
    }
  }

  /** The run that came back is pending now, with a gap behind it. */
  lemma ShortShape(c: Acct, lim: Limits, cap: Option<nat>, lo: nat, hi: nat, payable: TxMap)
    requires Spans(c.pending, lo, hi) && c.next == lim.nonce && c.pending.Keys !! c.queue.Keys && lim.nonce < lo < hi
    requires payable == Ready(c, lim) && lim.nonce in payable && lim.nonce < RunEnd(payable, lim.nonce) < lo
    ensures forall n :: n in Promote(c, lim, cap).pending <==>
              lim.nonce <= n < RunEnd(payable, lim.nonce) || lo <= n < hi
    ensures From(Promote(c, lim, cap).pending, lim.nonce) == Promote(c, lim, cap).pending
    ensures forall n :: lim.nonce <= n < RunEnd(payable, lim.nonce) ==> !lim.Over()(Promote(c, lim, cap).pending[n])
    ensures forall q :: q in Promote(c, lim, cap).queue ==> RunEnd(payable, lim.nonce) < q
    ensures Promote(c, lim, cap).pending[lo] == c.pending[lo]
  {
    hide Ready, ReadyRun, AfterReady, Promote, Lowest, Limits.Over, OverLimits, RunEnd;
    ReadyMeans(c, lim, payable);
    RunBounds(payable, c.next);
    PromoteShape(c, lim, cap, payable);
  }

  /** The first old pending transaction is not payable: only the run remains. */
  lemma ShortRunCut(p: Acct, lim: Limits, r: nat, lo: nat, hi: nat)
    requires lim.nonce < r < lo < hi && (forall n :: n in p.pending <==> lim.nonce <= n < r || lo <= n < hi)
    requires From(p.pending, lim.nonce) == p.pending && (forall n :: lim.nonce <= n < r ==> !lim.Over()(p.pending[n]))
    requires lim.Over()(p.pending[lo]) && (forall q :: q in p.queue ==> r <= q)
    ensures AlmostGapless(Demote(p, lim), lim, r)
  {
    hide Limits.Over, OverLimits;
    var over := Select(p.pending, lim.Over());
    assert lo in over;
    assert MinNonce(over) == lo;
    assert Spans(Payable(p.pending, lim), lim.nonce, r);
    assert lim.nonce in Payable(p.pending, lim);
    assert forall n :: n in Postponed(p.pending, lim) ==> r <= n;
  }

  /** The first old pending transaction is payable: it stays pending, behind a gap. */
  lemma GapRemains(p: Acct, lim: Limits, r: nat, lo: nat, hi: nat)
    requires lim.nonce < r < lo < hi && (forall n :: n in p.pending <==> lim.nonce <= n < r || lo <= n < hi)
    requires From(p.pending, lim.nonce) == p.pending && (forall n :: lim.nonce <= n < r ==> !lim.Over()(p.pending[n]))
    requires !lim.Over()(p.pending[lo]) && (forall q :: q in p.queue ==> r <= q)
    ensures HasGap(Demote(p, lim), lim, r, lo)
  {
    hide Limits.Over, OverLimits;
    var over := Select(p.pending, lim.Over());
    assert over != map[] ==> MinNonce(over) in over && MinNonce(over) > lo;
    var kept := Payable(p.pending, lim);
    assert lim.nonce in kept && lo in kept && r !in kept;
    assert forall n :: n in p.pending && lim.Over()(p.pending[n]) ==> n in over;
    assert forall n :: n in kept ==> n in p.pending && kept[n] == p.pending[n] && n !in over;
    assert forall n :: lim.nonce <= n < r ==> n in kept;
    assert forall n :: n in Postponed(p.pending, lim) ==> r <= n;
    assert Demote(p, lim).pending == kept;
  }

  /** A payable run up to `r`, and then more from `lo` on. */
  ghost predicate HasGap(c: Acct, lim: Limits, r: nat, lo: nat) {
    && lim.nonce < r < lo && lo in c.pending && (forall n :: lim.nonce <= n < r ==> n in c.pending)
    && (forall n :: n in c.pending ==> lim.nonce <= n < r || lo <= n)
    && (forall n :: n in c.pending ==> !lim.Over()(c.pending[n])) && (forall q :: q in c.queue ==> r <= q)
  }

  /** Truncation closes the gap exactly when it cuts down to the run before it. */
  lemma GapTrimmed(c: Acct, c': Acct, lim: Limits, r: nat, lo: nat)
    requires HasGap(c, lim, r, lo) && Trimmed(c, c')
    ensures Gapless(c', lim) <==> |c'.pending| <= r - lim.nonce
  {
    hide Limits.Over, OverLimits, Gapless, Lowest;
    SpansSize(Below(c.pending, r), lim.nonce, r);
    if |c'.pending| <= r - lim.nonce {
      LowestOfBelow(c.pending, r, |c'.pending|);
      CutToRun(c, c', lim, r, lo);
    } else {
      ReachesBeyond(c.pending, c'.pending, r);
      GapStays(c'.pending, c.pending, lim.nonce, r, lo);
      NotGapless(c', lim, r);
    }
  }

  lemma CutToRun(c: Acct, c': Acct, lim: Limits, r: nat, lo: nat)
    requires HasGap(c, lim, r, lo) && Trimmed(c, c') && Spans(Below(c.pending, r), lim.nonce, r)
    requires c'.pending == Lowest(Below(c.pending, r), |c'.pending|)
    ensures Gapless(c', lim)
  {
    hide Limits.Over, OverLimits, Lowest;
    var run := c.(pending := Below(c.pending, r));
    assert AlmostGapless(run, lim, r);
    TrimKeepsGapless(run, c', lim, r);
  }

  lemma GapStays(l: TxMap, m: TxMap, nonce: nat, r: nat, lo: nat)
    requires (exists x :: x in l && r <= x) && l.Keys <= m.Keys && nonce < r < lo
    requires forall n :: n in m ==> nonce <= n < r || lo <= n
    ensures r !in l && exists x :: x in l && r < x
  {
    var x :| x in l && r <= x;
    assert x in m.Keys;
  }

  lemma NotGapless(c: Acct, lim: Limits, r: nat)
    requires lim.nonce < r && r !in c.pending && exists x :: x in c.pending && r < x
    ensures !Gapless(c, lim)
  {
    hide Limits.Over, OverLimits;
  }

  lemma LowestOfBelow(m: TxMap, r: nat, k: nat)
    requires k <= |Below(m, r)|
    ensures Lowest(m, k) == Lowest(Below(m, r), k)
  {
    var b := Below(m, r);
    SubsetSize(b.Keys, m.Keys);
    KeysSize(b);
    KeysSize(m);
    LowestUnique(m, |b|, b);
    LowestTwice(m, |b|, k);
  }

  lemma ReachesBeyond(m: TxMap, l: TxMap, r: nat)
    requires l.Keys <= m.Keys && |l| > |Below(m, r)|
    ensures exists x :: x in l && r <= x
  {
    if forall x :: x in l ==> x < r {
      SubsetSize(l.Keys, Below(m, r).Keys);
      KeysSize(l);
      KeysSize(Below(m, r));
    }
  }

  /** The first way happens: nonces 0 and 1 are pending, the head moves to nonce 1, and a
      discard then takes nonce 0. The other one stays queued above a virtual nonce of 0. */
  lemma ResetCanLoseNonce(a: Address)
    ensures exists c0: Acct, lim: Limits :: lim.nonce == 1 && Gapless(c0, lim.(nonce := 0))
              && !Gapless(AfterReset(Remove(c0.(next := lim.nonce), 0), lim, None), lim)
  {
    hide Promote, Demote, Settle, Trimmed, Gapless, Remove;
    var t0, t1 := Tx(0, a, 0, 1, 1, 0, 1), Tx(1, a, 1, 1, 1, 0, 1);
    var lim, c0 := Limits(1, 1, 1), Acct(map[0 := t0, 1 := t1], map[], 2, QUIET);
    LostNonce(c0, lim, t0, t1);
    var c := Remove(c0.(next := lim.nonce), 0);
    UncutIsTrimmed(Processed(c, lim, None, true, true));
    ResetGaplessIff(c, lim, None, 0, 0, AfterReset(c, lim, None));
  }

  lemma LostNonce(c0: Acct, lim: Limits, t0: Tx, t1: Tx)
    requires c0 == Acct(map[0 := t0, 1 := t1], map[], 2, QUIET) && lim.nonce == 1 && !lim.Over()(t0) && !lim.Over()(t1)
    ensures Gapless(c0, lim.(nonce := 0))
    ensures Remove(c0.(next := lim.nonce), 0) == Acct(map[], map[1 := t1], 0, QUIET.Heard())
  {
    assert Below(c0.pending, 0) == map[] && From(c0.pending, 1) == map[1 := t1];
    assert 1 in From(c0.pending, 1);
    hide Limits.Over, OverLimits;
    assert lim.(nonce := 0).Over() == lim.Over();
  }

  /** So does the second: nonce 2 is pending, the head goes back to nonce 0, and of the
      abandoned transactions only nonce 0 returns. Afterwards 0 and 2 are pending and 1 is
      missing. */
  lemma ResetCanLeaveGap(a: Address)
    ensures exists c: Acct, lim: Limits ::
              && Spans(c.pending, 2, 3) && c.next == lim.nonce && c.pending.Keys !! c.queue.Keys
              && !Gapless(AfterReset(c, lim, None), lim)
  {
    var t0, t2 := Tx(0, a, 0, 1, 1, 0, 1), Tx(2, a, 2, 1, 1, 0, 1);
    var lim := Limits(0, 1, 1);
    var c := Acct(map[2 := t2], map[0 := t0], 0, QUIET);
    var payable := Ready(c, lim);
    assert payable == map[0 := t0];
    RunEndIs(payable, 0, 1);
    assert 2 in c.pending && MinNonce(c.pending) == 2;
    assert StopsShort(c, lim);
    TwoPending(c, lim, payable);
    hide Promote, Demote, Settle, Trimmed, Gapless;
    UncutIsTrimmed(Processed(c, lim, None, true, true));
    ResetGaplessIff(c, lim, None, 2, 3, AfterReset(c, lim, None));
  }

  lemma TwoPending(c: Acct, lim: Limits, payable: TxMap)
    requires Spans(c.pending, 2, 3) && c.next == lim.nonce == 0 && c.pending.Keys !! c.queue.Keys
    requires !lim.Over()(c.pending[2])
    requires payable == Ready(c, lim) && 0 in payable && RunEnd(payable, 0) == 1
    ensures |AfterReset(c, lim, None).pending| > 1
  {
    hide Ready, ReadyRun, AfterReady, Promote, Lowest, Limits.Over, OverLimits, RunEnd, Demote;
    ReadyMeans(c, lim, payable);
    RunBounds(payable, c.next);
    PromoteShape(c, lim, None, payable);
    var p := Promote(c, lim, None);
    assert forall n :: n in p.pending <==> n == 0 || n == 2;
    assert From(p.pending, 0) == p.pending;
    GapRemains(p, lim, 1, 2, 3);
    var m := Demote(p, lim).pending;
    assert 0 in m && 2 in m;
    SubsetSize({0, 2}, m.Keys);
    KeysSize(m);
  }
}
