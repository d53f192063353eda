/** A submitted batch: what the pool knows is set aside before the lock is taken, and the errors
    of the others are merged back in afterwards. */
module Submission {
  import opened Types
  import opened Admission

  /** What the caller is told: nothing exactly if the transaction was pooled. */
  function ErrorOf(r: AddResult): Option<Error> {
    if r.Rejected? then Some(r.err) else None
  }

  function News(txs: seq<Tx>, known: set<Tx>): seq<Tx> {
    if txs == [] then []
    else News(txs[..|txs| - 1], known) + if txs[|txs| - 1] in known then [] else [txs[|txs| - 1]]
  }

  lemma {:induction false} NewsAt(txs: seq<Tx>, known: set<Tx>, i: nat)
    requires i < |txs|
    ensures |News(txs[..i], known)| <= |News(txs, known)|
    ensures txs[i] !in known ==>
              |News(txs[..i], known)| < |News(txs, known)| && News(txs, known)[|News(txs[..i], known)|] == txs[i]
  {
    if i < |txs| - 1 {
      NewsAt(txs[..|txs| - 1], known, i);
      assert txs[..|txs| - 1][..i] == txs[..i];
    }
  }

  lemma NewsStep(txs: seq<Tx>, known: set<Tx>, i: nat)
    requires i < |txs|
    ensures News(txs[..i + 1], known) == News(txs[..i], known) + if txs[i] in known then [] else [txs[i]]
  {
    assert txs[..i + 1][..i] == txs[..i];
  }

  ghost predicate Known(txs: seq<Tx>, known: set<Tx>, errs: seq<Option<Error>>) {
    |errs| == |txs| && forall i :: 0 <= i < |txs| ==> errs[i] == if txs[i] in known then Some(AlreadyKnown) else None
  }

  method SetAside(txs: seq<Tx>, known: set<Tx>) returns (errs: seq<Option<Error>>, news: seq<Tx>)
    ensures Known(txs, known, errs) && news == News(txs, known)
  {
    errs, news := [], [];
    for i := 0 to |txs|
      invariant Known(txs[..i], known, errs) && news == News(txs[..i], known)
    {
      NewsStep(txs, known, i);
      if txs[i] in known {
        errs := errs + [Some(AlreadyKnown)];
      } else {
        errs, news := errs + [None], news + [txs[i]];
      }
    }
    assert txs[..|txs|] == txs;
  }

  /** The error at position `i` is that of the transaction there. */
  ghost predicate Own(txs: seq<Tx>, known: set<Tx>, newErrs: seq<Option<Error>>, errs: seq<Option<Error>>, i: nat) {
    && i < |txs| == |errs|
    && if txs[i] in known then errs[i] == Some(AlreadyKnown)
       else |News(txs[..i], known)| < |newErrs| && errs[i] == newErrs[|News(txs[..i], known)|]
  }

  /** Fills the free positions in order. That a success leaves a position looking free does not
      matter, because the search goes on behind it. */
  method Merge(ghost txs: seq<Tx>, ghost known: set<Tx>, errs0: seq<Option<Error>>, newErrs: seq<Option<Error>>)
    returns (errs: seq<Option<Error>>)
    requires Known(txs, known, errs0) && |newErrs| == |News(txs, known)|
    ensures |errs| == |txs| && forall i :: 0 <= i < |txs| ==> Own(txs, known, newErrs, errs, i)
  {
    hide News;
    errs := errs0;
    var slot := 0;
    assert News(txs[..0], known) == [] by { NoNews(known, txs[..0]); }
    for k := 0 to |newErrs|
      invariant slot <= |txs| == |errs| && |News(txs[..slot], known)| == k && errs[slot..] == errs0[slot..]
      invariant forall i :: 0 <= i < slot ==> Own(txs, known, newErrs, errs, i)
    {
      AllSeen(txs, known, slot);
      while errs[slot] != None
        invariant slot < |txs| == |errs| && |News(txs[..slot], known)| == k && errs[slot..] == errs0[slot..]
        invariant forall i :: 0 <= i < slot ==> Own(txs, known, newErrs, errs, i)
        decreases |txs| - slot
      {
        assert errs[slot] == errs[slot..][0] == errs0[slot];
        NewsStep(txs, known, slot);
        slot := slot + 1;
        AllSeen(txs, known, slot);
      }
      assert errs[slot] == errs[slot..][0] == errs0[slot];
      NewsStep(txs, known, slot);
      ghost var before := errs;
      errs := errs[slot := newErrs[k]];
      forall i | 0 <= i < slot ensures Own(txs, known, newErrs, errs, i) {
        assert Own(txs, known, newErrs, before, i);
      }
      slot := slot + 1;
    }
    forall i | slot <= i < |txs| ensures Own(txs, known, newErrs, errs, i) {
      assert errs[i] == errs[slot..][i - slot] == errs0[i];
      NoneLeft(txs, known, slot, i);
    }
  }

  lemma NoNews(known: set<Tx>, txs: seq<Tx>)
    requires txs == []
    ensures News(txs, known) == []
  {}

  lemma AllSeen(txs: seq<Tx>, known: set<Tx>, slot: nat)
    requires slot <= |txs|
    ensures slot == |txs| ==> News(txs[..slot], known) == News(txs, known)
  {
    assert slot == |txs| ==> txs[..slot] == txs;
  }

  lemma NoneLeft(txs: seq<Tx>, known: set<Tx>, slot: nat, i: nat)
    requires slot <= i < |txs| && |News(txs[..slot], known)| == |News(txs, known)|
    ensures txs[i] in known
  {
    NewsAt(txs, known, i);
    if slot < i {
      NewsAt(txs[..i], known, slot);
      assert txs[..i][..slot] == txs[..slot];
    }
  }
}
