/** The pool's reorg scheduler as a state machine: requests arrive, runs are launched one at a
    time in the background and close a channel when they end. The steps of the scheduler, of
    the head loop and of the running goroutine interleave freely. */
module Scheduler {
  import opened Types
  import opened Chain

  datatype Reset = Reset(oldHead: Block, newHead: Block)

  /** The arguments of one `runReorg`; channels are numbered as they are made. */
  datatype Run = Run(done: nat, reset: Option<Reset>, dirty: Option<set<Address>>, events: seq<Tx>)

  datatype Promote = Promote(accounts: set<Address>, done: nat)

  /** A reset over the heads from position `i` to position `j` of the head history. */
  ghost function Between(heads: seq<Block>, i: nat, j: nat): Option<Reset>
    requires i < |heads| && j < |heads|
  {
    if i == j then None else Some(Reset(heads[i], heads[j]))
  }

  ghost predicate Resets(run: Run, heads: seq<Block>, i: nat, j: nat) {
    i <= j < |heads| && run.reset == Between(heads, i, j)
  }

  /** The runs tile the head history: run `i` resets from position `bounds[i]` to the next. */
  ghost predicate Tiling(heads: seq<Block>, bounds: seq<nat>, runs: seq<Run>) {
    && |bounds| == |runs| + 1 && bounds[0] == 0 && bounds[|runs|] < |heads|
    && (forall i :: 0 <= i < |runs| ==> runs[i].done == i && Resets(runs[i], heads, bounds[i], bounds[i + 1]))
  }

  /** The request over positions `i` and `i + 1` was promised a run that covers it, or the
      next one to be launched. */
  ghost predicate Promised(bounds: seq<nat>, done: nat, i: nat) {
    && done < |bounds| && bounds[done] <= i && (done < |bounds| - 1 ==> i < bounds[done + 1])
  }

  ghost predicate Served(runs: seq<Run>, dirty: Option<set<Address>>, p: Promote) {
    if p.done < |runs| then runs[p.done].dirty.Some? && p.accounts <= runs[p.done].dirty.value
    else p.done == |runs| && dirty.Some? && p.accounts <= dirty.value
  }

  ghost predicate AllPromised(bounds: seq<nat>, resets: seq<nat>) {
    forall i :: 0 <= i < |resets| ==> Promised(bounds, resets[i], i)
  }

  ghost predicate AllServed(runs: seq<Run>, dirty: Option<set<Address>>, promotes: seq<Promote>) {
    forall p :: p in promotes ==> Served(runs, dirty, p)
  }

  ghost function Announced(runs: seq<Run>): seq<Tx> {
    if runs == [] then [] else Announced(runs[..|runs| - 1]) + runs[|runs| - 1].events
  }

  /** Each resetting run starts where the resetting run before it ended, the first one at the
      first head. */
  lemma {:induction false} ResetsTile(heads: seq<Block>, bounds: seq<nat>, runs: seq<Run>, i: int, j: nat)
    requires Tiling(heads, bounds, runs) && -1 <= i < j < |runs| && runs[j].reset.Some?
    requires (i >= 0 ==> runs[i].reset.Some?) && forall k :: i < k < j ==> runs[k].reset.None?
    ensures runs[j].reset.value.oldHead == if i < 0 then heads[0] else runs[i].reset.value.newHead
  {
    NoneBetween(heads, bounds, runs, i, j);
    assert Resets(runs[j], heads, bounds[j], bounds[j + 1]);
    if i >= 0 {
      assert Resets(runs[i], heads, bounds[i], bounds[i + 1]);
    }
  }

  lemma {:induction false} NoneBetween(heads: seq<Block>, bounds: seq<nat>, runs: seq<Run>, i: int, j: nat)
    requires Tiling(heads, bounds, runs) && -1 <= i < j < |runs|
    requires forall k :: i < k < j ==> runs[k].reset.None?
    ensures bounds[j] == bounds[i + 1]
    decreases j
  {
    if i + 1 < j {
      NoneBetween(heads, bounds, runs, i, j - 1);
      assert runs[j - 1].reset.None?;
    }
  }

  lemma TilingLast(heads: seq<Block>, bounds: seq<nat>, runs: seq<Run>)
    requires Tiling(heads, bounds, runs)
    ensures |bounds| == |runs| + 1 && bounds[|runs|] < |heads|
    ensures forall i :: bounds[|runs|] <= i ==> Promised(bounds, |runs|, i)
  {}

  lemma TilingLonger(heads: seq<Block>, bounds: seq<nat>, runs: seq<Run>, head: Block)
    requires Tiling(heads, bounds, runs)
    ensures Tiling(heads + [head], bounds, runs)
  {
    forall i | 0 <= i < |runs| ensures Resets(runs[i], heads + [head], bounds[i], bounds[i + 1]) {
      assert Resets(runs[i], heads, bounds[i], bounds[i + 1]);
    }
  }

  lemma TilingGrows(heads: seq<Block>, bounds: seq<nat>, runs: seq<Run>, run: Run, resets: seq<nat>)
    requires Tiling(heads, bounds, runs) && run.done == |runs|
    requires run.reset == Between(heads, bounds[|runs|], |heads| - 1)
    requires |resets| == |heads| - 1 && AllPromised(bounds, resets)
    ensures Tiling(heads, bounds + [|heads| - 1], runs + [run]) && AllPromised(bounds + [|heads| - 1], resets)
  {
    var more, all := bounds + [|heads| - 1], runs + [run];
    forall i | 0 <= i < |all| ensures all[i].done == i && Resets(all[i], heads, more[i], more[i + 1]) {
      if i < |runs| {
        assert Resets(runs[i], heads, bounds[i], bounds[i + 1]);
      }
    }
  }

  lemma ServedByRun(runs: seq<Run>, run: Run, promotes: seq<Promote>)
    requires AllServed(runs, run.dirty, promotes)
    ensures AllServed(runs + [run], None, promotes)
  {}

  lemma NoReset(heads: seq<Block>, i: nat)
    requires i < |heads|
    ensures Between(heads, i, i) == None
  {}

  lemma AnnouncedBy(runs: seq<Run>, run: Run)
    ensures Announced(runs + [run]) == Announced(runs) + run.events
  {
    assert (runs + [run])[..|runs|] == runs;
  }

  lemma BackgroundStarts(running: set<nat>, closed: set<nat>, launched: nat)
    requires Background(None, running, closed, launched)
    ensures running + {launched} == {launched} && Background(Some(launched), {launched}, closed, launched + 1)
  {}

  /** The history: runs tile the heads up to the waiting reset, every request has its run or
      is waiting, and every event is in one run or queued, in order. */
  ghost predicate Ledger(heads: seq<Block>, bounds: seq<nat>, runs: seq<Run>, resets: seq<nat>,
                         promotes: seq<Promote>, events: seq<Tx>,
                         reset: Option<Reset>, dirty: Option<set<Address>>, queued: seq<Tx>)
    ensures Ledger(heads, bounds, runs, resets, promotes, events, reset, dirty, queued) ==> |heads| > 0
  {
    && Tiling(heads, bounds, runs) && reset == Between(heads, bounds[|runs|], |heads| - 1)
    && |resets| == |heads| - 1 && AllPromised(bounds, resets) && AllServed(runs, dirty, promotes)
    && events == Announced(runs) + queued
  }

  lemma LedgerLaunch(heads: seq<Block>, bounds: seq<nat>, runs: seq<Run>, resets: seq<nat>, promotes: seq<Promote>,
                     events: seq<Tx>,
                     reset: Option<Reset>, dirty: Option<set<Address>>, queued: seq<Tx>)
    requires Ledger(heads, bounds, runs, resets, promotes, events, reset, dirty, queued)
    ensures Ledger(heads, bounds + [|heads| - 1], runs + [Run(|runs|, reset, dirty, queued)], resets, promotes,
                   events, None, None, [])
  {
    hide Tiling, AllPromised, AllServed, Announced, Between;
    var run := Run(|runs|, reset, dirty, queued);
    AnnouncedBy(runs, run);
    TilingLast(heads, bounds, runs);
    NoReset(heads, |heads| - 1);
    assert events == Announced(runs + [run]) + [];
    TilingGrows(heads, bounds, runs, run, resets);
    ServedByRun(runs, run, promotes);
  }

  lemma LedgerReset(heads: seq<Block>, bounds: seq<nat>, runs: seq<Run>, resets: seq<nat>, promotes: seq<Promote>,
                    events: seq<Tx>,
                    reset: Option<Reset>, dirty: Option<set<Address>>, queued: seq<Tx>, newHead: Block)
    requires Ledger(heads, bounds, runs, resets, promotes, events, reset, dirty, queued)
    ensures Ledger(heads + [newHead], bounds, runs, resets + [|runs|], promotes, events,
                   Some(Reset(if reset.None? then heads[|heads| - 1] else reset.value.oldHead, newHead)), dirty, queued)
  {
    hide Tiling, Promised, AllServed, Announced;
    TilingLast(heads, bounds, runs);
    TilingLonger(heads, bounds, runs, newHead);
  }

  lemma LedgerPromote(heads: seq<Block>, bounds: seq<nat>, runs: seq<Run>, resets: seq<nat>, promotes: seq<Promote>,
                      events: seq<Tx>,
                      reset: Option<Reset>, dirty: Option<set<Address>>, queued: seq<Tx>, accounts: set<Address>)
    requires Ledger(heads, bounds, runs, resets, promotes, events, reset, dirty, queued)
    ensures Ledger(heads, bounds, runs, resets, promotes + [Promote(accounts, |runs|)], events, reset,
                   Some(if dirty.None? then accounts else dirty.value + accounts), queued)
  {
    hide Tiling, AllPromised, Announced;
  }

  lemma LedgerEvent(heads: seq<Block>, bounds: seq<nat>, runs: seq<Run>, resets: seq<nat>, promotes: seq<Promote>,
                    events: seq<Tx>,
                    reset: Option<Reset>, dirty: Option<set<Address>>, queued: seq<Tx>, tx: Tx)
    requires Ledger(heads, bounds, runs, resets, promotes, events, reset, dirty, queued)
    ensures Ledger(heads, bounds, runs, resets, promotes, events + [tx], reset, dirty, queued + [tx])
  {
    hide Tiling, AllPromised, AllServed, Announced;
  }

  /** What the scheduler, the head loop and the background work with. */
  datatype Desk = Desk(curDone: Option<nat>, launchNextRun: bool, reset: Option<Reset>, dirty: Option<set<Address>>,
                       queued: seq<Tx>, head: Block, running: set<nat>, closed: set<nat>, runs: seq<Run>)

  function Open(head: Block): Desk {
    Desk(None, false, None, None, [], head, {}, {}, [])
  }

  /** The top of the loop: everything that is waiting goes to a new run, unless one is active. */
  function Launched(d: Desk): Desk {
    if d.curDone.Some? || !d.launchNextRun then d
    else
      Desk(Some(|d.runs|), false, None, None, [], d.head, {|d.runs|}, d.closed,
           d.runs + [Run(|d.runs|, d.reset, d.dirty, d.queued)])
  }

  function Performed(d: Desk, step: Step): Desk {
    match step
    case NewHead(h) =>
      d.(reset := Some(Reset(if d.reset.None? then d.head else d.reset.value.oldHead, h)), head := h,
         launchNextRun := true)
    case NewAccounts(accounts) =>
      d.(dirty := Some(if d.dirty.None? then accounts else d.dirty.value + accounts), launchNextRun := true)
    case NewEvent(tx) => d.(queued := d.queued + [tx])
    case RunEnds => d.(running := {}, closed := d.closed + d.running)
    case SeeEnd => if d.curDone.Some? && d.curDone.value in d.closed then d.(curDone := None) else d
  }

  /** The whole desk after some steps, with the loop's top before each. */
  function After(head: Block, steps: seq<Step>): Desk {
    if steps == [] then Open(head)
    else Performed(Launched(After(head, steps[..|steps| - 1])), steps[|steps| - 1])
  }

  // ----- Progress -----

  /** A run that is not seen to be over is the last one, and over or running. */
  ghost predicate Orderly(d: Desk) {
    && (d.curDone.Some? ==> d.running == if d.curDone.value in d.closed then {} else {d.curDone.value})
    && (d.curDone.None? ==> d.running == {})
    && (forall c :: c in d.closed || c in d.running ==> c < |d.runs|)
  }

  lemma {:induction false} AlwaysOrderly(head: Block, steps: seq<Step>)
    ensures Orderly(After(head, steps))
  {
    if steps != [] {
      AlwaysOrderly(head, steps[..|steps| - 1]);
    }
  }

  const ROUND := [RunEnds, SeeEnd]

  /** After one round no run is active; if none was and one was wanted, it has come and gone. */
  lemma RoundEnds(head: Block, steps: seq<Step>)
    ensures var d, e := After(head, steps), After(head, steps + ROUND);
            && e.curDone.None? && (e.launchNextRun <==> d.launchNextRun && d.curDone.Some?)
            && e.runs == Launched(d).runs && d.closed + d.running <= e.closed
  {
    AlwaysOrderly(head, steps);
    var all := steps + ROUND;
    assert all[..|all| - 1] == steps + [RunEnds] && (steps + [RunEnds])[..|steps|] == steps;
    AlwaysOrderly(head, steps + [RunEnds]);
  }

  /** Whatever happened, once nobody asks for more, two rounds bring the scheduler to rest. */
  lemma ComesToRest(head: Block, steps: seq<Step>)
    ensures var d := After(head, steps + ROUND + ROUND); d.curDone.None? && !d.launchNextRun
  {
    RoundEnds(head, steps);
    RoundEnds(head, steps + ROUND);
  }

  class Scheduler {
    // The scheduler's own variables.
    var curDone: Option<nat>
    var nextDone: nat
    var launchNextRun: bool
    var reset: Option<Reset>
    var dirty: Option<set<Address>>
    var queued: seq<Tx>
    // The head loop's variable.
    var head: Block
    // The background: runs still active, and channels already closed.
    var running: set<nat>
    var closed: set<nat>

    // The history: heads seen, runs launched, and what the requesters were promised.
    ghost var heads: seq<Block>
    ghost var bounds: seq<nat>
    ghost var runs: seq<Run>
    ghost var resets: seq<nat>
    ghost var promotes: seq<Promote>
    ghost var events: seq<Tx>

    ghost predicate Valid()
      reads this
    {
      && Ledger(heads, bounds, runs, resets, promotes, events, reset, dirty, queued) && head == heads[|heads| - 1]
      && Background(curDone, running, closed, |runs|) && nextDone == |runs|
      && (launchNextRun <==> reset.Some? || dirty.Some?)
    }

    constructor (head: Block)
      ensures Valid() && DeskOf(this) == Open(head) && heads == [head] && promotes == [] && resets == [] && events == []
    {
      curDone, nextDone, launchNextRun, reset, dirty, queued := None, 0, false, None, None, [];
      this.head, running, closed := head, {}, {};
      heads, bounds, runs, resets, promotes, events := [head], [0], [], [], [], [];
    }

    /** Hands everything that is waiting to a new run. */
    method Start()
      requires Valid() && curDone.None? && launchNextRun
      modifies `curDone, `nextDone, `launchNextRun, `reset, `dirty, `queued, `running, `bounds, `runs
      ensures Valid() && DeskOf(this) == Launched(old(DeskOf(this)))
      ensures runs == old(runs) + [Run(old(nextDone), old(reset), old(dirty), old(queued))]
    {
      hide Ledger, Background;
      LedgerLaunch(heads, bounds, runs, resets, promotes, events, reset, dirty, queued);
      BackgroundStarts(running, closed, nextDone);
      runs, bounds := runs + [Run(nextDone, reset, dirty, queued)], bounds + [|heads| - 1];
      running := running + {nextDone};
      curDone, nextDone := Some(nextDone), nextDone + 1;
      launchNextRun := false;
      reset, dirty, queued := None, None, [];
    }

    /** The top of the loop: launches the next run unless one is active or none is wanted. */
    method Launch()
      requires Valid()
      modifies `curDone, `nextDone, `launchNextRun, `reset, `dirty, `queued, `running, `bounds, `runs
      ensures Valid() && (old(curDone.Some? || !launchNextRun) ==> unchanged(this))
      ensures DeskOf(this) == Launched(old(DeskOf(this)))
    {
      hide Ledger, Background;
      if curDone.None? && launchNextRun {
        Start();
      }
    }

    /** A new head: the head loop asks for a reset from the head before it, which joins a
        reset still waiting. */
    method RequestReset(newHead: Block) returns (done: nat)
      requires Valid()
      modifies `reset, `launchNextRun, `head, `heads, `resets
      ensures Valid() && heads == old(heads) + [newHead] && resets == old(resets) + [done] && done == |runs|
      ensures launchNextRun && head == newHead
      ensures reset == Some(Reset(if old(reset).None? then old(head) else old(reset).value.oldHead, newHead))
    {
      hide Ledger, Background;
      LedgerReset(heads, bounds, runs, resets, promotes, events, reset, dirty, queued, newHead);
      var req := Reset(head, newHead);
      reset := if reset.None? then Some(req) else Some(reset.value.(newHead := req.newHead));
      launchNextRun := true;
      done := nextDone;
      head := newHead;
      heads, resets := heads + [newHead], resets + [done];
    }

    method RequestPromote(accounts: set<Address>) returns (done: nat)
      requires Valid()
      modifies `dirty, `launchNextRun, `promotes
      ensures Valid() && promotes == old(promotes) + [Promote(accounts, done)] && done == |runs| && launchNextRun
      ensures dirty == Some(if old(dirty).None? then accounts else old(dirty).value + accounts)
    {
      hide Ledger, Background;
      LedgerPromote(heads, bounds, runs, resets, promotes, events, reset, dirty, queued, accounts);
      dirty := if dirty.None? then Some(accounts) else Some(dirty.value + accounts);
      launchNextRun := true;
      done := nextDone;
      promotes := promotes + [Promote(accounts, done)];
    }

    method QueueTxEvent(tx: Tx)
      requires Valid()
      modifies `queued, `events
      ensures Valid() && events == old(events) + [tx] && queued == old(queued) + [tx]
    {
      hide Ledger, Background;
      LedgerEvent(heads, bounds, runs, resets, promotes, events, reset, dirty, queued, tx);
      queued := queued + [tx];
      events := events + [tx];
    }

    /** The active run ends and closes its channel. */
    method Finish(done: nat)
      requires Valid() && done in running
      modifies `running, `closed
      ensures Valid() && running == {} && closed == old(closed) + {done}
    {
      hide Ledger;
      running, closed := running - {done}, closed + {done};
    }

    /** The scheduler sees the closed channel of the run it launched. */
    method Observe()
      requires Valid() && curDone.Some? && curDone.value in closed
      modifies `curDone
      ensures Valid() && curDone == None
    {
      hide Ledger;
      curDone := None;
    }

    /** One step of somebody. */
    method Perform(step: Step)
      requires Valid()
      modifies this
      ensures Valid() && DeskOf(this) == Performed(old(DeskOf(this)), step)
      ensures heads == old(heads) + (if step.NewHead? then [step.newHead] else [])
      ensures resets == old(resets) + (if step.NewHead? then [|runs|] else [])
      ensures events == old(events) + if step.NewEvent? then [step.tx] else []
      ensures promotes == old(promotes) + if step.NewAccounts? then [Promote(step.accounts, |runs|)] else []
    {
      hide Ledger, Background;
      match step
      case NewHead(h) =>
        var done := RequestReset(h);
      case NewAccounts(accounts) =>
        var done := RequestPromote(accounts);
      case NewEvent(tx) =>
        QueueTxEvent(tx);
      case RunEnds =>
        if running != {} {
          LastRuns(curDone, running, closed, |runs|);
          var done :| done in running;
          Finish(done);
        }
      case SeeEnd =>
        BackgroundOver(curDone, running, closed, |runs|);
        if curDone.Some? && curDone.value in closed {
          Observe();
        }
    }

    /** A closed channel belongs to a run that is over and included the request. */
    lemma ClosedMeansServed()
      requires Valid()
      ensures |running| <= 1
      ensures forall i :: 0 <= i < |resets| && resets[i] in closed ==>
                resets[i] < |runs| && resets[i] !in running && bounds[resets[i]] <= i < bounds[resets[i] + 1]
      ensures forall p :: p in promotes && p.done in closed ==>
                && p.done < |runs| && p.done !in running && runs[p.done].dirty.Some?
                && p.accounts <= runs[p.done].dirty.value
    {
      AtMostOne(running, |runs|);
    }

    /** At rest every request was served. Events are announced in order; those since the last run
        wait for the next one, since an event alone starts none. */
    lemma QuietMeansServed()
      requires Valid() && curDone == None && !launchNextRun
      ensures forall i :: 0 <= i < |resets| ==> resets[i] in closed
      ensures forall p :: p in promotes ==> p.done in closed
      ensures bounds[|runs|] == |heads| - 1 && events == Announced(runs) + queued
    {
      forall i | 0 <= i < |resets| ensures resets[i] in closed {
        assert Promised(bounds, resets[i], i);
      }
      forall p | p in promotes ensures p.done in closed {
        assert Served(runs, dirty, p);
      }
    }
  }

  ghost function DeskOf(s: Scheduler): Desk
    reads s
  {
    Desk(s.curDone, s.launchNextRun, s.reset, s.dirty, s.queued, s.head, s.running, s.closed, s.runs)
  }

  lemma LastRuns(curDone: Option<nat>, running: set<nat>, closed: set<nat>, launched: nat)
    requires Background(curDone, running, closed, launched)
    ensures forall d :: d in running ==> running == {d}
  {}

  /** Only the last run can be active, and every run that is over has closed its channel. */
  ghost predicate Background(curDone: Option<nat>, running: set<nat>, closed: set<nat>, launched: nat) {
    && (curDone == None ==> running == {})
    && (curDone.Some? ==> curDone.value == launched - 1)
    && (forall d :: d in running ==> d == launched - 1)
    && (forall d: nat :: d in closed <==> d < launched && d !in running)
  }

  lemma BackgroundOver(curDone: Option<nat>, running: set<nat>, closed: set<nat>, launched: nat)
    requires Background(curDone, running, closed, launched)
    ensures curDone.Some? && running == {} ==> curDone.value in closed
  {}

  lemma AtMostOne(s: set<nat>, n: nat)
    requires forall d :: d in s ==> d == n - 1
    ensures |s| <= 1
  {
    if s != {} {
      assert s == {n - 1};
    }
  }

  datatype Step = NewHead(newHead: Block) | NewAccounts(accounts: set<Address>) | NewEvent(tx: Tx) | RunEnds | SeeEnd

  ghost function HeadsOf(head: Block, steps: seq<Step>): seq<Block> {
    if steps == [] then [head]
    else HeadsOf(head, steps[..|steps| - 1]) + if steps[|steps| - 1].NewHead? then [steps[|steps| - 1].newHead] else []
  }

  ghost function EventsOf(steps: seq<Step>): seq<Tx> {
    if steps == [] then []
    else EventsOf(steps[..|steps| - 1]) + if steps[|steps| - 1].NewEvent? then [steps[|steps| - 1].tx] else []
  }

  ghost function AccountsOf(steps: seq<Step>): seq<set<Address>> {
    if steps == [] then []
    else AccountsOf(steps[..|steps| - 1]) + if steps[|steps| - 1].NewAccounts? then [steps[|steps| - 1].accounts]
                                            else []
  }

  /** The promised promotions are the requested ones, in order. */
  ghost predicate Requested(promotes: seq<Promote>, accounts: seq<set<Address>>) {
    |promotes| == |accounts| && forall i :: 0 <= i < |promotes| ==> promotes[i].accounts == accounts[i]
  }

  /** Every interleaving keeps the invariant over all heads, promotion requests and events
      so far, and leaves exactly the runs and channels that the steps lead to; steps that are
      not enabled do not happen. */
  method Interleave(head: Block, steps: seq<Step>) returns (s: Scheduler)
    ensures s.Valid() && DeskOf(s) == After(head, steps) && fresh(s)
    ensures s.heads == HeadsOf(head, steps) && s.events == EventsOf(steps) && Requested(s.promotes, AccountsOf(steps))
  {
    hide Ledger, Background, Performed, Launched;
    s := new Scheduler(head);
    for i := 0 to |steps|
      invariant s.Valid() && DeskOf(s) == After(head, steps[..i]) && fresh(s)
      invariant s.heads == HeadsOf(head, steps[..i]) && s.events == EventsOf(steps[..i])
      invariant Requested(s.promotes, AccountsOf(steps[..i]))
    {
      assert steps[..i + 1][..i] == steps[..i];
      s.Launch();
      s.Perform(steps[i]);
    }
    assert steps[..|steps|] == steps;
  }

  /** Nobody waits for ever: after any steps, and two rounds in which runs end and are seen to,
      every reset and every promotion that was asked for has been part of a run that is over. */
  method Drain(head: Block, steps: seq<Step>) returns (s: Scheduler)
    ensures s.Valid() && s.heads == HeadsOf(head, steps) && Requested(s.promotes, AccountsOf(steps))
    ensures |s.resets| == |s.heads| - 1 && forall i :: 0 <= i < |s.resets| ==> s.resets[i] in s.closed
    ensures forall p :: p in s.promotes ==> p.done in s.closed
  {
    hide After;
    s := Interleave(head, steps + ROUND + ROUND);
    NothingAsked(head, steps);
    NothingAsked(head, steps + ROUND);
    ComesToRest(head, steps);
    s.QuietMeansServed();
  }

  lemma NothingAsked(head: Block, steps: seq<Step>)
    ensures HeadsOf(head, steps + ROUND) == HeadsOf(head, steps) && AccountsOf(steps + ROUND) == AccountsOf(steps)
  {
    var all := steps + ROUND;
    assert all[..|all| - 1] == steps + [RunEnds] && (steps + [RunEnds])[..|steps|] == steps;
  }
}
