/** The header chain: a tree of stored headers, a total difficulty for each, an index from
    numbers to the hashes of the canonical chain, and its head. The database is a set of
    maps; what goes through one write batch takes effect at once. */
module HeaderChain {
  import opened Chain

  function Elements(s: seq<Block>): set<Block> {
    set b | b in s
  }

  /** Stored headers form a tree on `genesis`, with the difficulty sum of the path for each. */
  ghost predicate Tree(headers: set<Block>, td: map<Block, nat>, genesis: Block) {
    && IsGenesis(genesis) && genesis in headers
    && (forall h :: h in headers ==> Rooted(h, genesis) && (h != genesis ==> h.parent.block in headers))
    && td.Keys == headers && (forall h :: h in headers ==> td[h] == TotalDifficulty(h))
  }

  /** The index is exactly the path from genesis to `head`, with nothing above it. */
  ghost predicate Canonical(canon: map<nat, Hash>, head: Block) {
    && (forall n: nat :: n in canon <==> n <= head.number)
    && (forall n :: n in canon ==> canon[n] == At(head, n))
  }

  /** `a` is heavier than `b`, or as heavy and no longer. */
  ghost predicate Ahead(a: Block, b: Block) {
    TotalDifficulty(a) > TotalDifficulty(b) || (TotalDifficulty(a) == TotalDifficulty(b) && a.number <= b.number)
  }

  /** No stored header has a higher total difficulty than `head`, and none as high a one is
      shorter. */
  ghost predicate Heaviest(headers: set<Block>, head: Block) {
    head in headers && forall h :: h in headers ==> Ahead(head, h)
  }

  /** A batch that passed `ValidateHeaderChain` and the consensus engine: linked by hash and
      number, with positive difficulties; a known parent has the preceding number. */
  predicate Batch(hs: seq<Block>, headers: set<Block>) {
    && (forall i :: 0 < i < |hs| ==> hs[i].parent == Of(hs[i - 1]) && hs[i].number == hs[i - 1].number + 1)
    && (forall i :: 0 <= i < |hs| ==> hs[i].difficulty > 0 && hs[i].number > 0)
    && (|hs| > 0 && hs[0].parent.Of? && hs[0].parent.block in headers ==> hs[0].number == hs[0].parent.block.number + 1)
  }

  predicate LinkedAt(hs: seq<Block>, i: nat)
    requires 0 < i < |hs|
  {
    hs[i].parent == Of(hs[i - 1]) && hs[i].number == hs[i - 1].number + 1
  }

  datatype LinkCheck = Sound | Unlinked(at: nat) | Blacklisted(at: nat)

  /** The loop of `ValidateHeaderChain`. The first fault is reported; a banned header that
      comes alone is not noticed here. */
  method CheckLinks(hs: seq<Block>, banned: set<Block>) returns (r: LinkCheck)
    ensures r == Sound <==>
              (forall i :: 0 < i < |hs| ==> LinkedAt(hs, i)) && (|hs| > 1 ==> forall h :: h in hs ==> h !in banned)
    ensures r.Unlinked? ==> 0 < r.at < |hs| && !LinkedAt(hs, r.at) && (forall i :: 0 < i < r.at ==> LinkedAt(hs, i))
    ensures r.Unlinked? ==> forall i :: 0 <= i < r.at - 1 ==> hs[i] !in banned
    ensures r.Blacklisted? ==>
              r.at < |hs| && hs[r.at] in banned && (forall i :: 0 < i < |hs| && i <= r.at + 1 ==> LinkedAt(hs, i))
    ensures r.Blacklisted? ==> forall i :: 0 <= i < r.at ==> hs[i] !in banned
  {
    var i := 1;
    while i < |hs|
      invariant 1 <= i && (|hs| > 0 ==> i <= |hs|) && forall k :: 0 < k < i && k < |hs| ==> LinkedAt(hs, k)
      invariant forall k :: 0 <= k < i - 1 && k < |hs| ==> hs[k] !in banned
      invariant 1 < i == |hs| ==> hs[i - 1] !in banned
    {
      if !LinkedAt(hs, i) {
        return Unlinked(i);
      }
      if hs[i - 1] in banned {
        return Blacklisted(i - 1);
      }
      if i == |hs| - 1 && hs[i] in banned {
        return Blacklisted(i);
      }
      i := i + 1;
    }
    r := Sound;
  }

  /** It happens: no header that comes alone is ever found to be banned. */
  method BannedAlone(h: Block) returns (r: LinkCheck)
    ensures r == Sound
  {
    r := CheckLinks([h], {h});
  }

  // ----- Facts about a batch on a stored parent -----

  lemma {:induction false} BatchRooted(hs: seq<Block>, headers: set<Block>, genesis: Block, i: nat)
    requires Batch(hs, headers) && i < |hs| && hs[0].parent.Of? && hs[0].parent.block in headers
    requires IsGenesis(genesis) && Rooted(hs[0].parent.block, genesis)
    ensures Rooted(hs[i], genesis) && hs[i].number == hs[0].number + i
    ensures TotalDifficulty(hs[i]) > TotalDifficulty(hs[0].parent.block)
  {
    if i > 0 {
      BatchRooted(hs, headers, genesis, i - 1);
    }
  }

  /** Below the batch, the ancestry of its headers is that of the parent; within it, it is
      the batch itself. */
  lemma {:induction false} BatchAt(hs: seq<Block>, headers: set<Block>, genesis: Block, i: nat, n: nat)
    requires Batch(hs, headers) && i < |hs| && hs[0].parent.Of? && hs[0].parent.block in headers
    requires IsGenesis(genesis) && Rooted(hs[0].parent.block, genesis) && n <= hs[i].number
    ensures hs[i].number == hs[0].number + i
    ensures At(hs[i], n) == if n < hs[0].number then At(hs[0].parent.block, n)
                            else if n - hs[0].number < |hs| then Of(hs[n - hs[0].number])
                            else Zero
  {
    BatchRooted(hs, headers, genesis, i);
    if i > 0 && n < hs[i].number {
      BatchRooted(hs, headers, genesis, i - 1);
      BatchAt(hs, headers, genesis, i - 1, n);
    }
  }

  /** Difficulty grows strictly along a path. */
  lemma {:induction false} HeavierAbove(b: Block, genesis: Block, n: nat)
    requires IsGenesis(genesis) && Rooted(b, genesis) && n <= b.number
    ensures At(b, n).Of? && TotalDifficulty(At(b, n).block) <= TotalDifficulty(b)
    ensures n < b.number ==> TotalDifficulty(At(b, n).block) < TotalDifficulty(b)
    decreases b.number
  {
    AtNumber(b, genesis, n);
    if n < b.number {
      HeavierAbove(b.parent.block, genesis, n);
    }
  }

  datatype WriteStatus = NonStatTy | CanonStatTy | SideStatTy

  datatype WriteResult = UnknownAncestor | Written(status: WriteStatus, ignored: nat, imported: nat)

  /** Fork choice: more total difficulty wins; of equals, the shorter chain, and at equal
      length a coin. */
  predicate Prefers(newTd: nat, newNumber: nat, localTd: nat, localNumber: nat, coin: bool) {
    newTd > localTd || (newTd == localTd && (newNumber < localNumber || (newNumber == localNumber && coin)))
  }

  predicate Switches(last: Block, head: Block, coin: bool) {
    Prefers(TotalDifficulty(last), last.number, TotalDifficulty(head), head.number, coin)
  }

  class HeaderChain {
    const genesis: Block
    var headers: set<Block>
    var td: map<Block, nat>
    var canon: map<nat, Hash>
    var current: Block

    ghost predicate Valid()
      reads this
    {
      Tree(headers, td, genesis) && Canonical(canon, current) && Heaviest(headers, current)
    }

    constructor (genesis: Block)
      requires IsGenesis(genesis)
      ensures Valid() && this.genesis == genesis && headers == {genesis} && current == genesis
    {
      this.genesis, headers, td := genesis, {genesis}, map[genesis := genesis.difficulty];
      canon, current := map[0 := Of(genesis)], genesis;
    }

    /** The first loop of `writeHeaders`: accumulates difficulty and collects what is new. */
    method Collect(hs: seq<Block>) returns (newTd: nat, batchTd: map<Block, nat>, inserted: seq<Block>, first: int)
      requires Tree(headers, td, genesis) && Batch(hs, headers) && |hs| > 0 && hs[0].parent.Of?
      requires hs[0].parent.block in headers
      ensures newTd == TotalDifficulty(hs[|hs| - 1])
      ensures -1 <= first < |hs| && inserted == (if first < 0 then [] else hs[first..])
      ensures forall i :: 0 <= i < |hs| ==> (hs[i] in headers <==> first < 0 || i < first)
      ensures batchTd.Keys == Elements(inserted) && forall h :: h in batchTd ==> batchTd[h] == TotalDifficulty(h)
    {
      hide Rooted, Tree, Elements;
      NoElements();
      TreeHas(headers, td, genesis, hs[0].parent.block);
      newTd := td[hs[0].parent.block];
      batchTd, inserted, first := map[], [], -1;
      for i := 0 to |hs|
        invariant newTd == if i == 0 then TotalDifficulty(hs[0].parent.block) else TotalDifficulty(hs[i - 1])
        invariant -1 <= first < i || first == -1
        invariant inserted == if first < 0 then [] else hs[first..i]
        invariant forall k :: 0 <= k < i ==> (hs[k] in headers <==> first < 0 || k < first)
        invariant batchTd.Keys == Elements(inserted) && forall h :: h in batchTd ==> batchTd[h] == TotalDifficulty(h)
      {
        newTd := newTd + hs[i].difficulty;
        if hs[i] !in headers {
          batchTd := batchTd[hs[i] := newTd];
          OneMore(inserted, hs[i]);
          inserted := inserted + [hs[i]];
          if first < 0 {
            first := i;
          }
        } else if i > 0 {
          TreeHas(headers, td, genesis, hs[i]);
          assert hs[i - 1] in headers;
        }
      }
      assert first >= 0 ==> hs[first..|hs|] == hs[first..];
    }

    /** The canonical numbers above `last`, as the deletion loop finds them. */
    method NumbersAbove(last: nat) returns (dels: set<nat>)
      requires Canonical(canon, current)
      ensures dels == set n | n in canon && n > last
    {
      dels := {};
      var i := last + 1;
      while i in canon
        invariant last < i && dels == set n | n in canon && last < n < i
        decreases current.number + 1 - i
      {
        dels := dels + {i};
        i := i + 1;
      }
    }

    /** Walks back from `start` over numbers the index has wrong, down to a canonical block. */
    method WalkBack(start: Block) returns (puts: map<nat, Hash>, ghost stop: nat)
      requires Tree(headers, td, genesis) && start in headers && Canonical(canon, current) && current in headers
      ensures stop <= start.number && stop <= current.number && At(current, stop) == At(start, stop)
      ensures forall n: nat :: n in puts <==> stop < n <= start.number
      ensures forall n: nat :: n in puts ==> puts[n] == At(start, n)
      ensures stop < start.number ==> stop + 1 <= current.number ==> At(current, stop + 1) != At(start, stop + 1)
    {
      hide Tree, Rooted, At, Canonical;
      puts := map[];
      var block := start;
      TreeHas(headers, td, genesis, start);
      TreeHas(headers, td, genesis, current);
      SelfAt(start);
      while !(block.number in canon && canon[block.number] == Of(block))
        invariant block in headers && block.number <= start.number && At(start, block.number) == Of(block)
        invariant forall n: nat :: n in puts <==> block.number < n <= start.number
        invariant forall n: nat :: n in puts ==> puts[n] == At(start, n)
        invariant block.number < start.number && block.number + 1 <= current.number ==>
                  At(current, block.number + 1) != At(start, block.number + 1)
        decreases block.number
      {
        StepBack(headers, td, genesis, canon, current, start, block);
        puts := puts[block.number := Of(block)];
        block := block.parent.block;
      }
      stop := block.number;
      CanonicalAt(canon, current, stop);
    }

    /** Rewrites the index for a batch that won: deletes numbers above the new head, walks back
        to the fork point, then marks the batch. Headers that were known all along are marked
        only when some later one is new. */
    method Reindex(hs: seq<Block>, first: int)
      requires Tree(headers, td, genesis) && Canonical(canon, current) && current in headers
      requires Batch(hs, headers) && |hs| > 0 && hs[0].parent.Of? && hs[0].parent.block in headers
      requires -1 <= first < |hs| && (hs[0].parent == Of(current) ==> first == 0)
      modifies this`canon
      ensures first >= 0 || hs[|hs| - 1] == current ==> Canonical(canon, hs[|hs| - 1])
      ensures first < 0 ==> forall n: nat :: hs[0].number <= n <= hs[|hs| - 1].number ==>
                (n in canon <==> n in old(canon)) && (n in canon ==> canon[n] == old(canon)[n])
    {
      hide Tree, Canonical, Batch, Markers, Marked, At, Rooted;
      var parent, last := hs[0].parent.block, hs[|hs| - 1];
      ghost var stop := current.number;
      TreeHas(headers, td, genesis, parent);
      TreeHas(headers, td, genesis, current);
      BatchStarts(hs, headers);
      var dels: set<nat>, puts: map<nat, Hash> := {}, map[];
      if hs[0].parent != Of(current) {
        dels := NumbersAbove(last.number);
        puts, stop := WalkBack(parent);
      } else {
        NothingAbove(canon, current, hs, headers);
      }
      if first >= 0 {
        puts := puts + Markers(hs, 0);
      }
      MarkersAre(hs, headers, 0);
      Reindexed(canon, current, genesis, hs, headers, dels, puts, stop, first);
      canon := Marked(canon, dels, puts);
    }

    /** The numbers above `num` at which anything is stored. */
    method StoredAbove(num: nat) returns (nums: set<nat>)
      requires Tree(headers, td, genesis)
      ensures forall h :: h in headers && h.number > num ==> h.number in nums
      ensures forall n :: n in nums ==> n > num
    {
      nums := {};
      ghost var top := TopNumber(headers);
      var n := num + 1;
      while exists h :: h in headers && h.number == n
        invariant n > num && (forall k :: k in nums <==> num < k < n)
        decreases top + 1 - n
      {
        nums := nums + {n};
        n := n + 1;
      }
      forall h | h in headers && h.number > num ensures h.number in nums {
        if h.number >= n {
          TreeHas(headers, td, genesis, h);
          AncestorStored(headers, td, genesis, h, n);
        }
      }
    }

    /** Rewinds the chain, with no callbacks installed: the head moves back along its own
        ancestry and everything stored above it goes, side branches included. */
    method SetHead(head: nat)
      requires Tree(headers, td, genesis) && Canonical(canon, current) && current in headers
      modifies this
      ensures Tree(headers, td, genesis) && Canonical(canon, current) && current in headers
      ensures head >= old(current).number ==> headers == old(headers) && current == old(current)
      ensures head < old(current).number ==>
                Of(current) == At(old(current), head) && headers == UpTo(old(headers), head)
    {
      hide Tree, Canonical, At, Rooted, TotalDifficulty, UpTo, Spared, SparedTd;
      if head >= current.number {
        return;
      }
      ghost var old_ := current;
      TreeHas(headers, td, genesis, current);
      SelfAt(current);
      var gone := StoredAbove(current.number);
      while current.number > head
        invariant current in headers && head <= current.number <= old_.number && At(old_, current.number) == Of(current)
        invariant forall n :: n in gone ==> n > current.number
        invariant forall h :: h in headers && h.number > current.number ==> h.number in gone
        invariant forall n: nat :: current.number < n <= old_.number ==> n in gone
        invariant headers == old(headers) && td == old(td) && canon == old(canon)
        decreases current.number
      {
        TreeHas(headers, td, genesis, current);
        NumberedBy(current, genesis);
        AtParent(old_, genesis, current.number - 1);
        gone := gone + {current.number};
        current := current.parent.block;
      }
      Rewound(headers, td, genesis, canon, old_, current, gone, head);
      headers := Spared(headers, gone);
      td := SparedTd(td, gone);
      canon := canon - gone;
    }

    /** Writes a validated batch: stores what is new and lets it take over if it is preferred. */
    method WriteHeaders(hs: seq<Block>, coin: bool) returns (r: WriteResult)
      requires Valid() && Batch(hs, headers)
      modifies this
      ensures Tree(headers, td, genesis)
      ensures r == UnknownAncestor <==> |hs| > 0 && !(hs[0].parent.Of? && hs[0].parent.block in old(headers))
      ensures headers == if r == UnknownAncestor then old(headers) else old(headers) + Elements(hs)
      ensures current == if r.Written? && |hs| > 0 && Switches(hs[|hs| - 1], old(current), coin) then hs[|hs| - 1]
                         else old(current)
      // What is new are the headers from the first unknown one on.
      ensures r.Written? ==> r.ignored + r.imported == |hs| && forall i :: 0 <= i < |hs| ==>
                  (hs[i] in old(headers) <==> i < r.ignored)
      ensures r.Written? ==> r.status == if r.imported == 0 then NonStatTy
                                         else if Switches(hs[|hs| - 1], old(current), coin) then CanonStatTy
                                              else SideStatTy
      // The invariant survives exactly when the batch holds something new, stays a side branch
      // or ends in the head.
      ensures Valid() <==> r == UnknownAncestor || |hs| == 0 || (exists h :: h in hs && h !in old(headers))
                           || !Switches(hs[|hs| - 1], old(current), coin) || hs[|hs| - 1] == old(current)
    {
      hide Tree, Batch, Canonical, Heaviest, Elements, TotalDifficulty, Rooted;
      if |hs| == 0 {
        NoElements();
        return Written(NonStatTy, 0, 0);
      }
      if !(hs[0].parent.Of? && hs[0].parent.block in headers) {
        return UnknownAncestor;
      }
      var newTd, batchTd, inserted, first := Collect(hs);
      var last := hs[|hs| - 1];
      HeadHas(headers, td, genesis, current);
      var localTd := td[current];
      TreeGrows(headers, td, genesis, hs, inserted, batchTd, first);
      HeaviestAfter(headers, td, genesis, hs, current);
      HeadNotReached(headers, td, genesis, hs, current, first);
      ghost var canon0, current0, headers0 := canon, current, headers;
      headers := headers + Elements(inserted);
      td := td + batchTd;
      var reorg := Prefers(newTd, last.number, localTd, current.number, coin);
      if reorg {
        BatchGrows(hs, headers0, headers);
        Reindex(hs, first);
        current := last;
        if first < 0 && last != current0 {
          IndexStale(headers, td, genesis, hs, canon0, current0, canon);
        }
      }
      r := Written(if |inserted| == 0 then NonStatTy else if reorg then CanonStatTy else SideStatTy,
                   |hs| - |inserted|, |inserted|);
    }
  }

  function UpTo(headers: set<Block>, head: nat): set<Block> {
    set h | h in headers && h.number <= head
  }

  /** What is left when everything at the numbers in `gone` is deleted. */
  function Spared(headers: set<Block>, gone: set<nat>): set<Block> {
    set h | h in headers && h.number !in gone
  }

  function SparedTd(td: map<Block, nat>, gone: set<nat>): map<Block, nat> {
    map h | h in td && h.number !in gone :: td[h]
  }

  /** The index after the marker batch: stale numbers deleted, then the new path written. */
  function Marked(canon: map<nat, Hash>, dels: set<nat>, puts: map<nat, Hash>): map<nat, Hash> {
    (canon - dels) + puts
  }

  /** What the marker batch writes for the batch's headers from index `from` on. */
  function Markers(hs: seq<Block>, from: nat): map<nat, Hash>
    requires from <= |hs|
    decreases |hs| - from
  {
    if from == |hs| then map[] else Markers(hs, from + 1)[hs[from].number := Of(hs[from])]
  }

  lemma {:induction false} MarkersAre(hs: seq<Block>, headers: set<Block>, from: nat)
    requires Batch(hs, headers) && from <= |hs|
    ensures forall n: nat :: n in Markers(hs, from) <==>
              from < |hs| && hs[from].number <= n < hs[from].number + |hs| - from
    ensures forall i :: from <= i < |hs| ==> hs[i].number == hs[from].number + i - from
    ensures forall i :: from <= i < |hs| ==>
                hs[i].number in Markers(hs, from) && Markers(hs, from)[hs[i].number] == Of(hs[i])
    decreases |hs| - from
  {
    if from < |hs| {
      MarkersAre(hs, headers, from + 1);
    }
  }

  lemma RootAgrees(genesis: Block, a: Block, b: Block)
    requires IsGenesis(genesis) && Rooted(a, genesis) && Rooted(b, genesis)
    ensures At(a, 0) == Of(genesis) && At(b, 0) == Of(genesis)
  {
    RootIsGenesis(a, genesis);
    RootIsGenesis(b, genesis);
  }

  lemma {:induction false} RootIsGenesis(a: Block, genesis: Block)
    requires IsGenesis(genesis) && Rooted(a, genesis)
    ensures At(a, 0) == Of(genesis)
  {
    if a != genesis {
      RootIsGenesis(a.parent.block, genesis);
    }
  }

  /** Piled onto the head, a batch has nothing to delete. */
  lemma NothingAbove(canon: map<nat, Hash>, current: Block, hs: seq<Block>, headers: set<Block>)
    requires Canonical(canon, current) && Batch(hs, headers) && |hs| > 0 && hs[0].parent == Of(current)
    requires current in headers
    ensures {} == set n | n in canon && n > hs[|hs| - 1].number
  {
    MarkersAre(hs, headers, 0);
  }

  lemma Reindexed(canon: map<nat, Hash>, current: Block, genesis: Block, hs: seq<Block>, headers: set<Block>,
                  dels: set<nat>, puts: map<nat, Hash>, stop: nat, first: int)
    requires IsGenesis(genesis) && Rooted(current, genesis) && Canonical(canon, current)
    requires Batch(hs, headers) && |hs| > 0 && hs[0].parent.Of? && hs[0].parent.block in headers
    requires Rooted(hs[0].parent.block, genesis)
    requires dels == set n | n in canon && n > hs[|hs| - 1].number
    requires stop <= hs[0].parent.block.number && stop <= current.number
    requires At(current, stop) == At(hs[0].parent.block, stop)
    requires forall n: nat :: n in puts <==>
               stop < n <= hs[0].parent.block.number || (first >= 0 && n in Markers(hs, 0))
    requires forall n: nat :: stop < n <= hs[0].parent.block.number ==> puts[n] == At(hs[0].parent.block, n)
    requires forall n: nat :: n in Markers(hs, 0) && first >= 0 ==> puts[n] == Markers(hs, 0)[n]
    ensures first >= 0 || hs[|hs| - 1] == current ==> Canonical(Marked(canon, dels, puts), hs[|hs| - 1])
    ensures first < 0 ==> forall n: nat :: hs[0].number <= n <= hs[|hs| - 1].number ==>
              && (n in Marked(canon, dels, puts) <==> n in canon)
              && (n in canon ==> Marked(canon, dels, puts)[n] == canon[n])
  {
    hide Rooted, At, Markers, Batch;
    MarkersAre(hs, headers, 0);
    BatchStarts(hs, headers);
    var parent, last, now := hs[0].parent.block, hs[|hs| - 1], Marked(canon, dels, puts);
    forall n: nat | n <= last.number ensures first >= 0 || last == current ==> n in now && now[n] == At(last, n) {
      BatchAt(hs, headers, genesis, |hs| - 1, n);
      if n <= stop {
        AtAt(current, genesis, stop, n);
        AtAt(parent, genesis, stop, n);
      } else if n > parent.number {
        assert n in Markers(hs, 0);
        assert hs[n - hs[0].number].number == n;
      }
    }
  }

  lemma NoElements()
    ensures Elements([]) == {}
  {}

  lemma OneMore(s: seq<Block>, b: Block)
    ensures Elements(s + [b]) == Elements(s) + {b}
  {}

  lemma TreeHas(headers: set<Block>, td: map<Block, nat>, genesis: Block, h: Block)
    requires Tree(headers, td, genesis) && h in headers
    ensures IsGenesis(genesis) && Rooted(h, genesis) && h in td && td[h] == TotalDifficulty(h)
    ensures h != genesis ==> h.parent.Of? && h.parent.block in headers
    ensures h.number > 0 ==> h != genesis
  {}

  lemma HeadHas(headers: set<Block>, td: map<Block, nat>, genesis: Block, head: Block)
    requires Tree(headers, td, genesis) && Heaviest(headers, head)
    ensures head in headers && head in td && td[head] == TotalDifficulty(head)
  {}

  lemma SelfAt(b: Block)
    ensures At(b, b.number) == Of(b)
  {}

  lemma CanonicalAt(canon: map<nat, Hash>, head: Block, n: nat)
    requires Canonical(canon, head)
    ensures n in canon <==> n <= head.number
    ensures n in canon ==> canon[n] == At(head, n)
  {}

  lemma StepBack(headers: set<Block>, td: map<Block, nat>, genesis: Block, canon: map<nat, Hash>, current: Block,
                 start: Block, block: Block)
    requires Tree(headers, td, genesis) && start in headers && block in headers && current in headers
    requires Canonical(canon, current)
    requires block.number <= start.number && At(start, block.number) == Of(block)
    requires !(block.number in canon && canon[block.number] == Of(block))
    ensures block.parent.Of? && block.parent.block in headers && block.number == block.parent.block.number + 1
    ensures At(start, block.number - 1) == block.parent
    ensures block.number <= current.number ==> At(current, block.number) != At(start, block.number)
  {
    hide Tree, At, Rooted, Canonical, TotalDifficulty;
    TreeHas(headers, td, genesis, start);
    TreeHas(headers, td, genesis, current);
    TreeHas(headers, td, genesis, block);
    NumberedBy(block, genesis);
    RootAgrees(genesis, current, start);
    CanonicalAt(canon, current, block.number);
    assert block != genesis;
    AtParent(start, genesis, block.number - 1);
  }

  lemma NumberedBy(b: Block, genesis: Block)
    requires Rooted(b, genesis) && IsGenesis(genesis)
    ensures b != genesis ==> b.parent.Of? && b.number == b.parent.block.number + 1
  {}

  lemma BatchStarts(hs: seq<Block>, headers: set<Block>)
    requires Batch(hs, headers) && |hs| > 0 && hs[0].parent.Of? && hs[0].parent.block in headers
    ensures hs[0].number == hs[0].parent.block.number + 1
  {}

  lemma BatchGrows(hs: seq<Block>, headers: set<Block>, more: set<Block>)
    requires Batch(hs, headers) && |hs| > 0 && hs[0].parent.Of? && hs[0].parent.block in headers && headers <= more
    ensures Batch(hs, more)
  {}

  /** The new part of a batch sits on the tree. */
  lemma NewPart(headers: set<Block>, genesis: Block, hs: seq<Block>, inserted: seq<Block>, first: int)
    requires Batch(hs, headers) && |hs| > 0 && hs[0].parent.Of? && hs[0].parent.block in headers
    requires IsGenesis(genesis) && Rooted(hs[0].parent.block, genesis)
    requires -1 <= first < |hs| && inserted == (if first < 0 then [] else hs[first..])
    requires forall i :: 0 <= i < |hs| ==> (hs[i] in headers <==> first < 0 || i < first)
    ensures forall h :: h in inserted ==>
                && Rooted(h, genesis) && h.parent.Of? && (h.parent.block in headers || h.parent.block in inserted)
                && h in hs && h !in headers
    ensures forall h :: h in hs ==> h in headers || h in inserted
  {
    hide Rooted, TotalDifficulty;
    forall h | h in inserted
      ensures Rooted(h, genesis) && h.parent.Of? && (h.parent.block in headers || h.parent.block in inserted)
      ensures h in hs && h !in headers
    {
      var i :| 0 <= i < |inserted| && inserted[i] == h;
      BatchRooted(hs, headers, genesis, first + i);
      assert h == hs[first + i];
      if i > 0 {
        assert inserted[i - 1] == hs[first + i - 1];
        assert h.parent == Of(inserted[i - 1]);
      } else if first > 0 {
        assert h.parent == Of(hs[first - 1]);
      }
    }
    forall h | h in hs ensures h in headers || h in inserted {
      var i :| 0 <= i < |hs| && hs[i] == h;
      if first >= 0 && i >= first {
        assert inserted[i - first] == h;
      }
    }
  }

  /** Storing the new part of a batch keeps the tree, and stores the whole batch. */
  lemma TreeGrows(headers: set<Block>, td: map<Block, nat>, genesis: Block, hs: seq<Block>, inserted: seq<Block>,
                  batchTd: map<Block, nat>, first: int)
    requires Tree(headers, td, genesis) && Batch(hs, headers) && |hs| > 0 && hs[0].parent.Of?
    requires hs[0].parent.block in headers
    requires -1 <= first < |hs| && inserted == (if first < 0 then [] else hs[first..])
    requires forall i :: 0 <= i < |hs| ==> (hs[i] in headers <==> first < 0 || i < first)
    requires batchTd.Keys == Elements(inserted) && forall h :: h in batchTd ==> batchTd[h] == TotalDifficulty(h)
    ensures Tree(headers + Elements(inserted), td + batchTd, genesis)
    ensures headers + Elements(inserted) == headers + Elements(hs)
    ensures first >= 0 <==> exists h :: h in hs && h !in headers
    ensures |inserted| == if first < 0 then 0 else |hs| - first
  {
    hide Rooted, TotalDifficulty, Batch;
    NewPart(headers, genesis, hs, inserted, first);
    if first >= 0 {
      assert hs[first] in hs && hs[first] !in headers;
    }
    hide *;
    MembersOf(inserted);
    MembersOf(hs);
    TreeExtends(headers, td, genesis, Elements(inserted), batchTd);
  }

  lemma MembersOf(s: seq<Block>)
    ensures forall b :: b in Elements(s) <==> b in s
  {}

  lemma TreeExtends(headers: set<Block>, td: map<Block, nat>, genesis: Block, more: set<Block>,
                    batchTd: map<Block, nat>)
    requires Tree(headers, td, genesis) && batchTd.Keys == more
    requires forall h :: h in batchTd ==> batchTd[h] == TotalDifficulty(h)
    requires forall h :: h in more ==>
                Rooted(h, genesis) && h.parent.Of? && (h.parent.block in headers || h.parent.block in more)
    ensures Tree(headers + more, td + batchTd, genesis)
  {
    hide Rooted, TotalDifficulty;
  }

  lemma {:induction false} BatchWeights(hs: seq<Block>, headers: set<Block>, i: nat)
    requires Batch(hs, headers) && i < |hs|
    ensures i < |hs| - 1 ==> TotalDifficulty(hs[i]) < TotalDifficulty(hs[|hs| - 1])
    decreases |hs| - i
  {
    if i < |hs| - 1 {
      BatchWeights(hs, headers, i + 1);
    }
  }

  /** The heavier of the old head and the batch's last header is the heaviest of all. */
  lemma HeaviestAfter(headers: set<Block>, td: map<Block, nat>, genesis: Block, hs: seq<Block>, head: Block)
    requires Tree(headers, td, genesis) && Batch(hs, headers) && |hs| > 0 && Heaviest(headers, head)
    ensures Ahead(hs[|hs| - 1], head) ==> Heaviest(headers + Elements(hs), hs[|hs| - 1])
    ensures Ahead(head, hs[|hs| - 1]) ==> Heaviest(headers + Elements(hs), head)
  {
    forall h | h in hs ensures Ahead(hs[|hs| - 1], h) {
      var i :| 0 <= i < |hs| && hs[i] == h;
      BatchWeights(hs, headers, i);
    }
  }

  /** What piles onto the heaviest header cannot be known yet. */
  lemma HeadNotReached(headers: set<Block>, td: map<Block, nat>, genesis: Block, hs: seq<Block>, head: Block,
                       first: int)
    requires Tree(headers, td, genesis) && Batch(hs, headers) && |hs| > 0 && Heaviest(headers, head)
    requires forall i :: 0 <= i < |hs| ==> (hs[i] in headers <==> first < 0 || i < first)
    ensures hs[0].parent == Of(head) ==> first == 0
  {
    if hs[0].parent == Of(head) {
      assert TotalDifficulty(hs[0]) > TotalDifficulty(head);
      assert hs[0] !in headers;
    }
  }

  /** A batch of known headers that takes over leaves the index on the old branch. */
  lemma IndexStale(headers: set<Block>, td: map<Block, nat>, genesis: Block, hs: seq<Block>, canon: map<nat, Hash>,
                   head: Block, canon': map<nat, Hash>)
    requires Tree(headers, td, genesis) && |hs| > 0 && Canonical(canon, head) && head in headers
    requires hs[|hs| - 1] in headers && hs[|hs| - 1] != head
    requires TotalDifficulty(hs[|hs| - 1]) >= TotalDifficulty(head) && Batch(hs, headers)
    requires forall n: nat :: hs[0].number <= n <= hs[|hs| - 1].number ==>
               (n in canon' <==> n in canon) && (n in canon' ==> canon'[n] == canon[n])
    ensures !Canonical(canon', hs[|hs| - 1])
  {
    var last := hs[|hs| - 1];
    MarkersAre(hs, headers, 0);
    SelfAt(last);
    if Canonical(canon', last) {
      assert last.number in canon' && canon'[last.number] == Of(last);
      assert At(head, last.number) == Of(last);
      HeavierAbove(head, genesis, last.number);
    }
  }

  /** It happens: two branches of one header each, equally heavy. The head moves to the first
      by the coin of a re-import, and the index stays on the second. */
  method StaleIndex() returns (hc: HeaderChain)
    ensures Tree(hc.headers, hc.td, hc.genesis) && hc.current in hc.headers && !Canonical(hc.canon, hc.current)
  {
    hide Tree, Canonical, Heaviest, Elements;
    var g := Block(Zero, 0, 1, [], 0);
    var a, b := Block(Of(g), 1, 1, [], 0), Block(Of(g), 1, 1, [], 1);
    assert TotalDifficulty(a) == 2 && TotalDifficulty(b) == 2 && TotalDifficulty(g) == 1;
    hc := new HeaderChain(g);
    var r := hc.WriteHeaders([a], false);
    assert hc.current == a;
    MembersOf([a]);
    r := hc.WriteHeaders([b], false);
    assert hc.current == a;
    MembersOf([b]);
    HeadHas(hc.headers, hc.td, g, a);
    assert hc.headers == {g, a, b};
    r := hc.WriteHeaders([b], true);
    assert hc.headers == {g, a, b} && hc.current == b;
    AsHeavy({g, a, b}, b);
  }

  lemma AsHeavy(headers: set<Block>, head: Block)
    requires head in headers && forall h :: h in headers ==> Ahead(head, h)
    ensures Heaviest(headers, head)
  {}

  /** A valid batch on a stored parent that holds something new. */
  ghost predicate Importable(hs: seq<Block>, headers: set<Block>) {
    Batch(hs, headers) && (exists h :: h in hs && h !in headers) && hs[0].parent.Of? && hs[0].parent.block in headers
  }

  /** What a run of batches stores. */
  ghost function HeadersAfter(genesis: Block, batches: seq<seq<Block>>): set<Block> {
    if batches == [] then {genesis}
    else
      var before := HeadersAfter(genesis, batches[..|batches| - 1]);
      if Importable(batches[|batches| - 1], before) then before + Elements(batches[|batches| - 1]) else before
  }

  /** Any run of batches from genesis, importing those that are valid where they arrive and
      hold something new, ends with the index on the path to the heaviest header. */
  method ImportAll(genesis: Block, batches: seq<seq<Block>>) returns (hc: HeaderChain)
    requires IsGenesis(genesis)
    ensures hc.Valid() && hc.genesis == genesis && hc.headers == HeadersAfter(genesis, batches)
  {
    hide Tree, Canonical, Heaviest, Batch, Elements;
    hc := new HeaderChain(genesis);
    for i := 0 to |batches|
      invariant hc.Valid() && hc.genesis == genesis && hc.headers == HeadersAfter(genesis, batches[..i]) && fresh(hc)
    {
      assert batches[..i + 1][..i] == batches[..i];
      if Batch(batches[i], hc.headers) && exists h :: h in batches[i] && h !in hc.headers {
        var coin: bool := *;
        var r := hc.WriteHeaders(batches[i], coin);
      }
    }
    assert batches[..|batches|] == batches;
  }

  lemma {:induction false} TopNumber(headers: set<Block>) returns (top: nat)
    ensures forall h :: h in headers ==> h.number <= top
  {
    if headers == {} {
      top := 0;
    } else {
      var h :| h in headers;
      top := TopNumber(headers - {h});
      top := if top < h.number then h.number else top;
      assert forall g :: g in headers ==> g == h || g in headers - {h};
    }
  }

  lemma {:induction false} AncestorStored(headers: set<Block>, td: map<Block, nat>, genesis: Block, h: Block, n: nat)
    requires Tree(headers, td, genesis) && h in headers && n <= h.number
    ensures At(h, n).Of? && At(h, n).block in headers && At(h, n).block.number == n
    decreases h.number
  {
    TreeHas(headers, td, genesis, h);
    if n < h.number {
      NumberedBy(h, genesis);
      AncestorStored(headers, td, genesis, h.parent.block, n);
    }
  }

  lemma Rewound(headers: set<Block>, td: map<Block, nat>, genesis: Block, canon: map<nat, Hash>, old_: Block,
                current: Block, gone: set<nat>, head: nat)
    requires Tree(headers, td, genesis) && Canonical(canon, old_) && old_ in headers && current in headers
    requires current.number == head <= old_.number && At(old_, head) == Of(current)
    requires forall n :: n in gone ==> n > head
    requires forall h :: h in headers && h.number > head ==> h.number in gone
    requires forall n: nat :: head < n <= old_.number ==> n in gone
    ensures Spared(headers, gone) == UpTo(headers, head) && Tree(Spared(headers, gone), SparedTd(td, gone), genesis)
    ensures Canonical(canon - gone, current) && current in Spared(headers, gone)
  {
    TreeHas(headers, td, genesis, old_);
    forall h | h in headers && h.number !in gone && h != genesis
      ensures h.parent.Of? && h.parent.block.number !in gone
    {
      TreeHas(headers, td, genesis, h);
      NumberedBy(h, genesis);
    }
    forall n: nat | n <= head ensures At(old_, n) == At(current, n) {
      AtAt(old_, genesis, head, n);
    }
    hide Rooted, At, TotalDifficulty;
  }
}
