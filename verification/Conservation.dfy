/** Runs neither make up transactions nor lose them without a reason: exactly which of an account's
    transactions are gone afterwards. */
module Conservation {
  import opened Types
  import opened NonceMap
  import opened TxLists
  import opened Account
  import opened PoolState

  predicate Listed(c: Acct, tx: Tx) {
    Has(c.pending, tx) || Has(c.queue, tx)
  }

  /** The state has moved past it, or it cannot be paid for. */
  ghost predicate Unusable(lim: Limits, tx: Tx) {
    tx.nonce < lim.nonce || lim.Over()(tx)
  }

  /** Usable and waiting, but as many as the cap allows come before it. */
  ghost predicate OverCap(c: Acct, lim: Limits, cap: Option<nat>, tx: Tx) {
    && cap.Some? && Has(AfterReady(Ready(c, lim), c.next), tx)
    && |Below(AfterReady(Ready(c, lim), c.next), tx.nonce)| >= cap.value
  }

  /** Why promotion and demotion give up a transaction. */
  ghost predicate Lost(c: Acct, lim: Limits, cap: Option<nat>, promoted: bool, demoted: bool, tx: Tx) {
    || (promoted && Has(c.queue, tx) && (Unusable(lim, tx) || OverCap(c, lim, cap, tx)))
    || (demoted && Has(c.pending, tx) && Unusable(lim, tx))
  }

  /** A list was cut, and as many as were left come before it. */
  ghost predicate CutOff(c: Acct, c': Acct, tx: Tx) {
    || (Has(c.pending, tx) && |Below(c.pending, tx.nonce)| >= |c'.pending|)
    || (Has(c.queue, tx) && |Below(c.queue, tx.nonce)| >= |c'.queue|)
  }

  lemma LowestIff(m: TxMap, k: nat, n: nat)
    requires n in m
    ensures n in Lowest(m, k) <==> |Below(m, n)| < k
  {
    var low := Lowest(m, k);
    KeysSize(low);
    KeysSize(Below(m, n));
    if n in low {
      assert n in low.Keys && n !in Below(m, n).Keys && forall b :: b in Below(m, n) ==> b in low;
      SubsetSize(Below(m, n).Keys, low.Keys);
    } else {
      assert forall a :: a in low ==> a in Below(m, n);
      SubsetSize(low.Keys, Below(m, n).Keys);
    }
  }

  lemma LowestHas(m: TxMap, k: nat, tx: Tx)
    ensures Has(Lowest(m, k), tx) <==> Has(m, tx) && |Below(m, tx.nonce)| < k
  {
    if tx.nonce in m {
      LowestIff(m, k, tx.nonce);
    }
  }

  lemma PromoteKeepsIff(c: Acct, lim: Limits, cap: Option<nat>, tx: Tx)
    requires c.pending.Keys !! c.queue.Keys
    ensures Listed(Promote(c, lim, cap), tx) <==> Listed(c, tx) && !Lost(c, lim, cap, true, false, tx)
    ensures Has(Promote(c, lim, cap).pending, tx) && !Has(c.pending, tx) ==> !Unusable(lim, tx)
    ensures Has(c.pending, tx) ==> Has(Promote(c, lim, cap).pending, tx)
  {
    hide Unusable, Lowest, Ready, ReadyRun, AfterReady;
    var payable := Ready(c, lim);
    var rest := AfterReady(payable, c.next);
    ReadyHas(c, lim, tx);
    RunSplits(payable, c.next, tx);
    ReadyWithin(c, lim);
    RunApart(payable, c.next);
    if cap.Some? {
      LowestHas(rest, cap.value, tx);
    }
  }

  lemma ReadyHas(c: Acct, lim: Limits, tx: Tx)
    ensures Has(Ready(c, lim), tx) <==> Has(c.queue, tx) && !Unusable(lim, tx)
  {}

  lemma ReadyWithin(c: Acct, lim: Limits)
    ensures forall n :: n in Ready(c, lim) ==> n in c.queue
  {}

  lemma RunSplits(m: TxMap, start: nat, tx: Tx)
    ensures Has(m, tx) <==> Has(ReadyRun(m, start), tx) || Has(AfterReady(m, start), tx)
  {}

  lemma RunApart(m: TxMap, start: nat)
    ensures ReadyRun(m, start).Keys !! AfterReady(m, start).Keys
    ensures forall n :: n in ReadyRun(m, start) || n in AfterReady(m, start) ==> n in m
  {}

  lemma DemoteKeepsIff(c: Acct, lim: Limits, tx: Tx)
    requires c.pending.Keys !! c.queue.Keys
    ensures Listed(Demote(c, lim), tx) <==> Has(c.queue, tx) || (Has(c.pending, tx) && !Unusable(lim, tx))
  {
    hide Limits.Over, OverLimits;
    hide Payable, Postponed, Unusable;
    PartsHave(c.pending, lim, tx);
    PartsApart(c.pending, lim);
  }

  lemma PartsHave(pending: TxMap, lim: Limits, tx: Tx)
    ensures Has(Payable(pending, lim), tx) || Has(Postponed(pending, lim), tx) <==>
              Has(pending, tx) && !Unusable(lim, tx)
  {
    hide Limits.Over, OverLimits;
    var over := Select(From(pending, lim.nonce), lim.Over());
    assert Has(pending, tx) && tx.nonce >= lim.nonce && lim.Over()(tx) ==> tx.nonce in over;
  }

  lemma ProcessedIff(c: Acct, lim: Limits, cap: Option<nat>, promoted: bool, demoted: bool, tx: Tx)
    requires c.pending.Keys !! c.queue.Keys
    ensures Listed(Processed(c, lim, cap, promoted, demoted), tx) <==>
              Listed(c, tx) && !Lost(c, lim, cap, promoted, demoted, tx)
  {
    hide Promote, Demote, Unusable, OverCap;
    PromoteApart(c, lim, cap);
    PromoteKeepsIff(c, lim, cap, tx);
    DemoteKeepsIff(if promoted then Promote(c, lim, cap) else c, lim, tx);
  }

  lemma TrimKeepsIff(c: Acct, c': Acct, tx: Tx)
    requires Trimmed(c, c')
    ensures Listed(c', tx) <==> (Has(c.pending, tx) && |Below(c.pending, tx.nonce)| < |c'.pending|)
                                || (Has(c.queue, tx) && |Below(c.queue, tx.nonce)| < |c'.queue|)
  {
    LowestHas(c.pending, |c'.pending|, tx);
    LowestHas(c.queue, |c'.queue|, tx);
  }

  /** A run keeps a transaction unless, and only unless, it is unusable where it is looked at,
      beyond the cap of its queue, or cut off by a limit of the whole pool. */
  lemma RunKeepsIff(c: Acct, c': Acct, lim: Limits, cap: Option<nat>, promoted: bool, demoted: bool, tx: Tx)
    requires Trimmed(Processed(c, lim, cap, promoted, demoted), c') && c.pending.Keys !! c.queue.Keys
    ensures Listed(c', tx) <==> && Listed(c, tx) && !Lost(c, lim, cap, promoted, demoted, tx)
                                && !CutOff(Processed(c, lim, cap, promoted, demoted), c', tx)
  {
    hide Trimmed, Lost, Processed;
    ProcessedIff(c, lim, cap, promoted, demoted, tx);
    ProcessedApart(c, lim, cap, promoted, demoted);
    TrimKeepsIff(Processed(c, lim, cap, promoted, demoted), c', tx);
  }

  lemma ProcessedApart(c: Acct, lim: Limits, cap: Option<nat>, promoted: bool, demoted: bool)
    requires c.pending.Keys !! c.queue.Keys
    ensures Processed(c, lim, cap, promoted, demoted).pending.Keys
         !! Processed(c, lim, cap, promoted, demoted).queue.Keys
  {
    hide Promote, Demote;
    PromoteApart(c, lim, cap);
    DemoteApart(if promoted then Promote(c, lim, cap) else c, lim);
  }

  lemma PromoteApart(c: Acct, lim: Limits, cap: Option<nat>)
    requires c.pending.Keys !! c.queue.Keys
    ensures Promote(c, lim, cap).pending.Keys !! Promote(c, lim, cap).queue.Keys
  {
    hide Lowest, Ready, ReadyRun, AfterReady;
    ReadyWithin(c, lim);
    RunApart(Ready(c, lim), c.next);
  }

  lemma DemoteApart(c: Acct, lim: Limits)
    requires c.pending.Keys !! c.queue.Keys
    ensures Demote(c, lim).pending.Keys !! Demote(c, lim).queue.Keys
  {
    hide Payable, Postponed;
    PartsApart(c.pending, lim);
  }

  lemma PartsApart(pending: TxMap, lim: Limits)
    ensures Payable(pending, lim).Keys !! Postponed(pending, lim).Keys
    ensures forall n :: n in Payable(pending, lim) || n in Postponed(pending, lim) ==> n in pending
  {
    hide Limits.Over, OverLimits;
  }
}
