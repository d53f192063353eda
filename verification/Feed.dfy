/** One-to-many event delivery. `Send` works in place on its list of cases: a prefix of it is
    still to be served, and unsubscribing removes cases from either part while it runs. */
module Feed {

  /** The receive case for removals, or the send case of one subscription. */
  datatype Case = RemoveSub | Sub(channel: nat, id: nat)

  ghost predicate Distinct(cs: seq<Case>) {
    forall i, j :: 0 <= i < j < |cs| ==> cs[i] != cs[j]
  }

  /** `find`: the first case with the channel. */
  method Find(cs: seq<Case>, channel: nat) returns (index: int)
    ensures -1 <= index < |cs|
    ensures index >= 0 ==> cs[index].Sub? && cs[index].channel == channel
    ensures forall i :: 0 <= i < (if index < 0 then |cs| else index) ==> !(cs[i].Sub? && cs[i].channel == channel)
  {
    for i := 0 to |cs|
      invariant forall k :: 0 <= k < i ==> !(cs[k].Sub? && cs[k].channel == channel)
    {
      if cs[i].Sub? && cs[i].channel == channel {
        return i;
      }
    }
    index := -1;
  }

  function Delete(cs: seq<Case>, index: nat): seq<Case>
    requires index < |cs|
  {
    cs[..index] + cs[index + 1..]
  }

  /** `deactivate` on a prefix of length `active` of the shared list. */
  function Deactivate(cs: seq<Case>, active: nat, index: nat): seq<Case>
    requires index < active <= |cs|
  {
    cs[index := cs[active - 1]][active - 1 := cs[index]]
  }

  /** Where a send stands: `active` cases are still unserved, the others were delivered to, and
      what is listed or removed is what there was at the start. */
  ghost predicate Progress(start: seq<Case>, cs: seq<Case>, active: nat, delivered: seq<Case>, removed: seq<Case>) {
    && 1 <= active <= |cs| && cs[0] == RemoveSub && Distinct(cs) && Distinct(delivered)
    && multiset(cs) + multiset(removed) == multiset(start)
    && (forall i :: 1 <= i < active ==> cs[i] !in delivered)
    && (forall i :: active <= i < |cs| ==> cs[i] in delivered)
    && (forall c :: c in delivered ==> c in start && c != RemoveSub)
  }

  lemma MemberOf(start: seq<Case>, cs: seq<Case>, removed: seq<Case>, i: nat)
    requires multiset(cs) + multiset(removed) == multiset(start) && i < |cs|
    ensures cs[i] in start
  {
    assert cs[i] in multiset(cs);
    assert cs[i] in multiset(start);
  }

  lemma Swapped(cs: seq<Case>, active: nat, index: nat)
    requires index < active <= |cs|
    ensures multiset(Deactivate(cs, active, index)) == multiset(cs)
    ensures Distinct(cs) ==> Distinct(Deactivate(cs, active, index))
  {}

  /** A delivery moves its case from the unserved prefix to the rest. */
  lemma Delivers(start: seq<Case>, cs: seq<Case>, active: nat, delivered: seq<Case>, removed: seq<Case>, index: nat)
    requires Progress(start, cs, active, delivered, removed) && 1 <= index < active
    ensures Progress(start, Deactivate(cs, active, index), active - 1, delivered + [cs[index]], removed)
  {
    Swapped(cs, active, index);
    MemberOf(start, cs, removed, index);
    var after, more := Deactivate(cs, active, index), delivered + [cs[index]];
    assert cs[0] != cs[index];
    forall i | 1 <= i < active - 1 ensures after[i] !in more {
      var k := if i == index then active - 1 else i;
      assert after[i] == cs[k] && cs[k] !in delivered && cs[k] != cs[index];
    }
  }

  lemma Deleted(cs: seq<Case>, index: nat)
    requires index < |cs|
    ensures multiset(Delete(cs, index)) + multiset{cs[index]} == multiset(cs)
    ensures Distinct(cs) ==> Distinct(Delete(cs, index))
  {
    assert cs == cs[..index] + [cs[index]] + cs[index + 1..];
  }

  /** A removal takes its case out of whichever part it is in. */
  lemma Removes(start: seq<Case>, cs: seq<Case>, active: nat, delivered: seq<Case>, removed: seq<Case>, index: nat)
    requires Progress(start, cs, active, delivered, removed) && 1 <= index < |cs|
    ensures Progress(start, Delete(cs, index), if index < active then active - 1 else active, delivered,
                     removed + [cs[index]])
  {
    Deleted(cs, index);
    assert multiset(removed + [cs[index]]) == multiset(removed) + multiset{cs[index]};
  }

  class Feed {
    var sendCases: seq<Case>
    var inbox: seq<Case>

    ghost predicate Valid()
      reads this
    {
      |sendCases| > 0 && sendCases[0] == RemoveSub && Distinct(sendCases + inbox)
    }

    constructor ()
      ensures Valid() && sendCases == [RemoveSub] && inbox == []
    {
      sendCases, inbox := [RemoveSub], [];
    }

    method Subscribe(channel: nat, id: nat)
      requires Valid() && Sub(channel, id) !in sendCases && Sub(channel, id) !in inbox
      modifies `inbox
      ensures Valid() && inbox == old(inbox) + [Sub(channel, id)]
    {
      inbox := inbox + [Sub(channel, id)];
      assert sendCases + inbox == old(sendCases + inbox) + [Sub(channel, id)];
    }

    /** `remove` while no send is in progress: takes the first case of the channel out of the
        inbox if it is there, and out of the list otherwise. */
    method Remove(channel: nat) returns (ghost c: Case)
      requires Valid() && exists c: Case :: c in sendCases + inbox && c.Sub? && c.channel == channel
      modifies this
      ensures Valid() && c.Sub? && c.channel == channel
      ensures if exists d :: d in old(inbox) && d.Sub? && d.channel == channel
              then sendCases == old(sendCases) && multiset(inbox) + multiset{c} == multiset(old(inbox))
              else inbox == old(inbox) && multiset(sendCases) + multiset{c} == multiset(old(sendCases))
    {
      var index := Find(inbox, channel);
      if index != -1 {
        assert inbox[index] in inbox;
        Deleted(inbox, index);
        Shorter(sendCases, inbox, |sendCases| + index);
        c := inbox[index];
        inbox := Delete(inbox, index);
      } else {
        index := Find(sendCases, channel);
        Deleted(sendCases, index);
        Shorter(sendCases, inbox, index);
        c := sendCases[index];
        sendCases := Delete(sendCases, index);
      }
    }

    /** The fast path: tries every unserved case once without blocking. */
    method TrySendAll(ghost start: seq<Case>, active: nat, ghost delivered: seq<Case>, ghost removed: seq<Case>)
      returns (active': nat, nsent: nat, ghost delivered': seq<Case>)
      requires Progress(start, sendCases, active, delivered, removed)
      modifies `sendCases
      ensures Progress(start, sendCases, active', delivered', removed) && delivered <= delivered'
      ensures active' == active - nsent && |delivered'| == |delivered| + nsent && |sendCases| == old(|sendCases|)
    {
      hide Progress;
      active', nsent, delivered' := active, 0, delivered;
      var i: nat := 1;
      Bounds(start, sendCases, active, delivered, removed);
      while i < active'
        invariant Progress(start, sendCases, active', delivered', removed) && delivered <= delivered'
        invariant 1 <= i <= active' <= |sendCases|
        invariant active' == active - nsent && |delivered'| == |delivered| + nsent && |sendCases| == old(|sendCases|)
        decreases active' - i
      {
        var ready: bool := *;
        if ready {
          Delivers(start, sendCases, active', delivered', removed, i);
          delivered' := delivered' + [sendCases[i]];
          nsent := nsent + 1;
          sendCases, active' := Deactivate(sendCases, active', i), active' - 1;
        } else {
          i := i + 1;
        }
      }
    }

    /** While a send blocks, others subscribe and unsubscribe in the inbox. */
    method Meanwhile(start: seq<Case>)
      requires Newcomers(start, inbox)
      modifies `inbox
      ensures Newcomers(start, inbox)
    {
      var steps: int := *;
      while steps > 0
        invariant Newcomers(start, inbox)
      {
        steps := steps - 1;
        var c: Case, k: int := *, *;
        if c.Sub? && c !in start && c !in inbox {
          inbox := inbox + [c];
        } else if 0 <= k < |inbox| {
          Deleted(inbox, k);
          inbox := Delete(inbox, k);
        }
      }
    }

    /** A removal received by the select: the first case of the requested channel goes. */
    method RemoveOne(channel: nat, ghost start: seq<Case>, active: nat, ghost delivered: seq<Case>,
                     ghost removed: seq<Case>)
      returns (active': nat, ghost c: Case)
      requires Progress(start, sendCases, active, delivered, removed) && Listed(sendCases, channel)
      modifies `sendCases
      ensures Progress(start, sendCases, active', delivered, removed + [c])
      ensures active' + |sendCases| < active + old(|sendCases|)
      ensures c.Sub? && c.channel == channel
    {
      hide Progress;
      var index := Find(sendCases, channel);
      FirstIsNot(start, sendCases, active, delivered, removed);
      Removes(start, sendCases, active, delivered, removed, index);
      c := sendCases[index];
      sendCases, active' := Delete(sendCases, index), if index >= 0 && index < active then active - 1 else active;
    }

    /** One blocking select: a removal that is waiting, or a delivery to an unserved case. */
    method Select(requests: seq<nat>, taken: nat, start: seq<Case>, active: nat, ghost delivered: seq<Case>,
                  ghost removed: seq<Case>)
      returns (active': nat, taken': nat, nsent: nat, ghost delivered': seq<Case>, ghost removed': seq<Case>)
      requires Progress(start, sendCases, active, delivered, removed) && Newcomers(start, inbox) && active > 1
      requires Covers(start, requests) && taken == |removed| <= |requests| && Answers(removed, requests[..taken])
      modifies `sendCases, `inbox
      ensures Progress(start, sendCases, active', delivered', removed') && Newcomers(start, inbox)
      ensures taken' == |removed'| <= |requests| && Answers(removed', requests[..taken'])
      ensures |delivered'| == |delivered| + nsent
      ensures active' + |sendCases| < active + old(|sendCases|)
      ensures (nsent == 1 && taken' == taken) || (nsent == 0 && taken' == taken + 1 && delivered' == delivered)
    {
      hide Progress, Newcomers, Covers, Answers, Listed;
      Meanwhile(start);
      active', taken', nsent, delivered', removed' := active, taken, 0, delivered, removed;
      Bounds(start, sendCases, active, delivered, removed);
      var removal: bool := *;
      if removal && taken < |requests| {
        StillListed(start, sendCases, active, delivered, removed, requests, taken);
        ghost var c;
        active', c := RemoveOne(requests[taken], start, active, delivered, removed);
        AnswersMore(removed, requests, taken, c);
        removed', taken' := removed + [c], taken + 1;
      } else {
        var chosen: nat :| 1 <= chosen < active;
        Delivers(start, sendCases, active, delivered, removed, chosen);
        delivered' := delivered + [sendCases[chosen]];
        sendCases, active', nsent := Deactivate(sendCases, active, chosen), active - 1, 1;
      }
    }

    /** `Send`. Readiness is whatever the receivers do, and `requests` are the channels whose
        removal the select receives, in this order, for as long as it runs. */
    method Send(requests: seq<nat>) returns (nsent: nat, ghost delivered: seq<Case>, ghost removed: seq<Case>)
      requires Valid() && Covers(sendCases + inbox, requests)
      modifies this
      ensures Valid() && nsent == |delivered|
      // At most once each, and only to what was subscribed.
      ensures Distinct(delivered) && forall c :: c in delivered ==> c in old(sendCases + inbox) && c != RemoveSub
      // Exactly once to each that was not removed.
      ensures forall i :: 1 <= i < |sendCases| ==> sendCases[i] in delivered
      // Who subscribes meanwhile waits for the next send.
      ensures forall c :: c in inbox ==> c !in old(sendCases + inbox)
      // The list is a permutation of what there was minus the removed, one for each request.
      ensures multiset(sendCases) + multiset(removed) == multiset(old(sendCases + inbox))
      ensures |removed| <= |requests|
      ensures forall i :: 0 <= i < |removed| ==> removed[i].Sub? && removed[i].channel == requests[i]
    {
      hide Progress, Distinct, Newcomers, Covers, Answers, Listed;
      sendCases, inbox := sendCases + inbox, [];
      var start := sendCases;
      var active: nat, taken: nat := |sendCases|, 0;
      nsent, delivered, removed := 0, [], [];
      Begins(start, requests);
      var sent;
      active, sent, delivered := TrySendAll(start, active, delivered, removed);
      nsent := nsent + sent;
      Bounds(start, sendCases, active, delivered, removed);
      while active != 1
        invariant Progress(start, sendCases, active, delivered, removed) && nsent == |delivered|
        invariant 1 <= active <= |sendCases| && Newcomers(start, inbox)
        invariant taken == |removed| <= |requests| && Answers(removed, requests[..taken])
        decreases active + |sendCases|
      {
        active, taken, sent, delivered, removed := Select(requests, taken, start, active, delivered, removed);
        nsent := nsent + sent;
        Bounds(start, sendCases, active, delivered, removed);
        active, sent, delivered := TrySendAll(start, active, delivered, removed);
        nsent := nsent + sent;
        Bounds(start, sendCases, active, delivered, removed);
      }
      Ends(start, sendCases, delivered, removed);
      StillDistinct(start, sendCases, removed, inbox);
      AnswersAre(removed, requests, taken);
    }
  }

  // ----- Subscriptions of a channel -----

  /** How often the channel is subscribed in a list. */
  ghost function Count(cs: seq<Case>, channel: nat): nat {
    if cs == [] then 0
    else Count(cs[..|cs| - 1], channel) + if cs[|cs| - 1].Sub? && cs[|cs| - 1].channel == channel then 1 else 0
  }

  /** No channel is to be removed more often than it is subscribed. */
  ghost predicate Covers(cs: seq<Case>, requests: seq<nat>) {
    forall channel: nat :: multiset(requests)[channel] <= Count(cs, channel)
  }

  ghost predicate Listed(cs: seq<Case>, channel: nat) {
    exists i :: 0 <= i < |cs| && cs[i].Sub? && cs[i].channel == channel
  }

  ghost predicate Answers(removed: seq<Case>, requests: seq<nat>) {
    |removed| == |requests| && forall i :: 0 <= i < |removed| ==> removed[i].Sub? && removed[i].channel == requests[i]
  }

  lemma {:induction false} CountAppend(a: seq<Case>, b: seq<Case>, channel: nat)
    ensures Count(a + b, channel) == Count(a, channel) + Count(b, channel)
  {
    if b == [] {
      assert a + b == a;
    } else {
      CountAppend(a, b[..|b| - 1], channel);
      assert (a + b)[..|a + b| - 1] == a + b[..|b| - 1];
    }
  }

  lemma CountWithout(cs: seq<Case>, i: nat, channel: nat)
    requires i < |cs|
    ensures Count(cs, channel) == Count(Delete(cs, i), channel) + Count([cs[i]], channel)
  {
    var a, b := cs[..i], cs[i + 1..];
    assert cs == a + [cs[i]] + b;
    CountAppend(a + [cs[i]], b, channel);
    CountAppend(a, [cs[i]], channel);
    CountAppend(a, b, channel);
  }

  lemma {:induction false} CountOfPermutation(a: seq<Case>, b: seq<Case>, channel: nat)
    requires multiset(a) == multiset(b)
    ensures Count(a, channel) == Count(b, channel)
  {
    if a == [] {
      assert |multiset(b)| == 0;
    } else {
      var front, last := a[..|a| - 1], a[|a| - 1];
      assert a == front + [last];
      assert last in multiset(b);
      var i :| 0 <= i < |b| && b[i] == last;
      Deleted(b, i);
      assert multiset(front) == multiset(a) - multiset{last} && multiset(Delete(b, i)) == multiset(b) - multiset{last};
      CountOfPermutation(front, Delete(b, i), channel);
      CountWithout(b, i, channel);
      CountAppend(front, [last], channel);
    }
  }

  lemma {:induction false} CountAnswered(removed: seq<Case>, requests: seq<nat>, channel: nat)
    requires Answers(removed, requests)
    ensures Count(removed, channel) == multiset(requests)[channel]
  {
    if removed != [] {
      var n := |removed| - 1;
      CountAnswered(removed[..n], requests[..n], channel);
      assert requests == requests[..n] + [requests[n]];
    }
  }

  lemma {:induction false} CountedIsListed(cs: seq<Case>, channel: nat)
    requires Count(cs, channel) > 0
    ensures Listed(cs, channel)
  {
    var front, last := cs[..|cs| - 1], cs[|cs| - 1];
    if Count(front, channel) > 0 {
      CountedIsListed(front, channel);
      var i :| 0 <= i < |front| && front[i].Sub? && front[i].channel == channel;
      assert cs[i] == front[i];
    } else {
      assert last.Sub? && last.channel == channel;
    }
  }

  /** The channel of the next request is still listed: each request so far took one. */
  lemma StillListed(start: seq<Case>, cs: seq<Case>, active: nat, delivered: seq<Case>, removed: seq<Case>,
                    requests: seq<nat>, taken: nat)
    requires Progress(start, cs, active, delivered, removed) && Covers(start, requests)
    requires taken < |requests| && Answers(removed, requests[..taken])
    ensures Listed(cs, requests[taken])
  {
    hide Count, Listed, Answers;
    var x := requests[taken];
    assert multiset(cs + removed) == multiset(start);
    CountOfPermutation(cs + removed, start, x);
    CountAppend(cs, removed, x);
    CountAnswered(removed, requests[..taken], x);
    assert requests == requests[..taken] + [x] + requests[taken + 1..];
    assert multiset(requests)[x] >= multiset(requests[..taken])[x] + 1;
    CountedIsListed(cs, x);
  }

  lemma AnswersMore(removed: seq<Case>, requests: seq<nat>, taken: nat, c: Case)
    requires taken < |requests| && Answers(removed, requests[..taken]) && c.Sub? && c.channel == requests[taken]
    ensures Answers(removed + [c], requests[..taken + 1])
  {}

  lemma AnswersAre(removed: seq<Case>, requests: seq<nat>, taken: nat)
    requires taken <= |requests| && Answers(removed, requests[..taken])
    ensures |removed| <= |requests|
    ensures forall i :: 0 <= i < |removed| ==> removed[i].Sub? && removed[i].channel == requests[i]
  {}

  lemma Shorter(a: seq<Case>, b: seq<Case>, i: nat)
    requires Distinct(a + b) && i < |a| + |b|
    ensures Distinct(if i < |a| then Delete(a, i) + b else a + Delete(b, i - |a|))
  {
    Deleted(a + b, i);
    if i < |a| {
      assert Delete(a, i) + b == Delete(a + b, i);
    } else {
      assert a + Delete(b, i - |a|) == Delete(a + b, i);
    }
  }

  ghost predicate Newcomers(start: seq<Case>, inbox: seq<Case>) {
    Distinct(inbox) && forall c :: c in inbox ==> c.Sub? && c !in start
  }

  lemma StillDistinct(start: seq<Case>, cs: seq<Case>, removed: seq<Case>, inbox: seq<Case>)
    requires Distinct(cs) && Newcomers(start, inbox) && multiset(cs) + multiset(removed) == multiset(start)
    ensures Distinct(cs + inbox) && forall c :: c in inbox ==> c !in start
  {
    forall i | 0 <= i < |cs| ensures cs[i] in start {
      MemberOf(start, cs, removed, i);
    }
  }

  lemma Begins(start: seq<Case>, requests: seq<nat>)
    requires |start| > 0 && start[0] == RemoveSub && Distinct(start)
    ensures Progress(start, start, |start|, [], []) && Newcomers(start, []) && Answers([], requests[..0])
  {}

  lemma Bounds(start: seq<Case>, cs: seq<Case>, active: nat, delivered: seq<Case>, removed: seq<Case>)
    requires Progress(start, cs, active, delivered, removed)
    ensures 1 <= active <= |cs|
  {}

  lemma FirstIsNot(start: seq<Case>, cs: seq<Case>, active: nat, delivered: seq<Case>, removed: seq<Case>)
    requires Progress(start, cs, active, delivered, removed)
    ensures |cs| > 0 && cs[0] == RemoveSub
  {}

  lemma Ends(start: seq<Case>, cs: seq<Case>, delivered: seq<Case>, removed: seq<Case>)
    requires Progress(start, cs, 1, delivered, removed)
    ensures |cs| > 0 && cs[0] == RemoveSub && Distinct(cs) && Distinct(delivered)
    ensures multiset(cs) + multiset(removed) == multiset(start)
    ensures forall i :: 1 <= i < |cs| ==> cs[i] in delivered
    ensures forall c :: c in delivered ==> c in start && c != RemoveSub
  {}
}
