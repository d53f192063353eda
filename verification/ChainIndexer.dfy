/** The chain indexer: sections of the canonical chain are processed in the background, without
    the lock, while reorganisations roll finished sections back. */
module ChainIndexer {
  import opened Types
  import opened Chain
  import opened HeaderChain

  /** The number of the last block of a section. */
  function LastOf(size: nat, section: nat): nat
    requires size > 0
  {
    section * size + size - 1
  }

  /** `SectionHead`: the zero hash where none is stored. */
  function HeadOf(heads: map<nat, Hash>, section: nat): Hash {
    if section in heads then heads[section] else Zero
  }

  function Before(heads: map<nat, Hash>, section: nat): Hash {
    if section == 0 then Zero else HeadOf(heads, section - 1)
  }

  /** The section head is the last block of its section, a section above the head before it. */
  ghost predicate Follows(h: Hash, size: nat, section: nat, before: Hash)
    requires size > 0
  {
    h.Of? && h.block.number == LastOf(size, section) && Walk(h, size) == before
  }

  /** From section `base` on, the stored heads are linked by hash; nothing is stored beyond. */
  ghost predicate Linked(heads: map<nat, Hash>, size: nat, base: nat, stored: nat)
    requires size > 0
  {
    && base <= stored && (forall s :: s in heads ==> s < stored)
    && (base > 0 ==> HeadOf(heads, base - 1) != Zero)
    && (forall s: nat :: base <= s < stored ==> s in heads && Follows(heads[s], size, s, Before(heads, s)))
  }

  /** A chain of `size` blocks below a canonical block is canonical. */
  lemma LinkIsCanonical(canon: map<nat, Hash>, head: Block, genesis: Block, h: Hash, size: nat, section: nat)
    requires IsGenesis(genesis) && Rooted(head, genesis) && Canonical(canon, head) && size > 0 && section > 0
    requires h.Of? && h.block.number == LastOf(size, section) && h.block.number in canon && canon[h.block.number] == h
    ensures LastOf(size, section - 1) in canon && canon[LastOf(size, section - 1)] == Walk(h, size)
  {
    hide Canonical, At, Rooted, Walk;
    var n := h.block.number;
    assert LastOf(size, section - 1) == n - size by { assert (section - 1) * size == section * size - size; }
    CanonicalAt(canon, head, n);
    CanonicalAt(canon, head, n - size);
    AtNumber(head, genesis, n);
    AtAt(head, genesis, n, n - size);
    WalkIsAt(h.block, genesis, size);
  }

  /** One match proves every stored section head from the base on canonical, and the head the
      base was built on with them. */
  lemma {:induction false} MatchProvesAll(heads: map<nat, Hash>, size: nat, base: nat, stored: nat,
                                          canon: map<nat, Hash>, head: Block, genesis: Block, s: nat)
    requires IsGenesis(genesis) && Rooted(head, genesis) && Canonical(canon, head) && size > 0
    requires Linked(heads, size, base, stored) && base < stored && base <= s + 1 <= stored
    requires LastOf(size, stored - 1) in canon && HeadOf(heads, stored - 1) == canon[LastOf(size, stored - 1)]
    ensures LastOf(size, s) in canon && HeadOf(heads, s) == canon[LastOf(size, s)] && HeadOf(heads, s) != Zero
    decreases stored - s
  {
    hide Linked, Canonical, Rooted, LastOf, Walk, IsGenesis;
    if s + 1 < stored {
      MatchProvesAll(heads, size, base, stored, canon, head, genesis, s + 1);
      LinkedAt(heads, size, base, stored, s + 1);
      LinkIsCanonical(canon, head, genesis, heads[s + 1], size, s + 1);
      LinkedBelow(heads, size, base, stored, s);
    } else {
      LinkedAt(heads, size, base, stored, s);
    }
  }

  lemma LinkedAt(heads: map<nat, Hash>, size: nat, base: nat, stored: nat, s: nat)
    requires size > 0 && Linked(heads, size, base, stored) && base <= s < stored
    ensures s in heads && Follows(heads[s], size, s, Before(heads, s))
  {}

  lemma LinkedBelow(heads: map<nat, Hash>, size: nat, base: nat, stored: nat, s: nat)
    requires size > 0 && Linked(heads, size, base, stored) && base <= s + 1 <= stored
    ensures HeadOf(heads, s) != Zero
  {
    if base <= s {
      LinkedAt(heads, size, base, stored, s);
    }
  }

  function Truncate(heads: map<nat, Hash>, stored: nat): map<nat, Hash> {
    map s | s in heads && s < stored :: heads[s]
  }

  lemma Truncated(heads: map<nat, Hash>, size: nat, base: nat, stored: nat, fewer: nat)
    requires size > 0 && Linked(heads, size, base, stored) && base <= fewer <= stored
    ensures Linked(Truncate(heads, fewer), size, base, fewer)
  {
    hide LastOf, Walk;
    forall s: nat | base <= s < fewer
      ensures s in heads && Follows(heads[s], size, s, Before(Truncate(heads, fewer), s))
    {
      assert Follows(heads[s], size, s, Before(heads, s));
    }
  }

  lemma TruncateAll(heads: map<nat, Hash>, size: nat, base: nat, stored: nat)
    requires size > 0 && Linked(heads, size, base, stored)
    ensures Truncate(heads, stored) == heads
  {}

  lemma TruncateTwice(heads: map<nat, Hash>, stored: nat, fewer: nat)
    requires fewer <= stored
    ensures Truncate(Truncate(heads, stored), fewer) == Truncate(heads, fewer)
    ensures forall s :: s in Truncate(heads, stored) ==> s in heads && Truncate(heads, stored)[s] == heads[s]
  {}

  lemma HeadsKept(heads: map<nat, Hash>, fewer: nat)
    ensures forall s: nat :: s < fewer ==> HeadOf(Truncate(heads, fewer), s) == HeadOf(heads, s)
  {}

  lemma Appended(heads: map<nat, Hash>, size: nat, base: nat, stored: nat, h: Hash)
    requires size > 0 && Linked(heads, size, base, stored) && Follows(h, size, stored, Before(heads, stored))
    ensures Linked(heads[stored := h], size, base, stored + 1)
  {
    hide LastOf, Walk;
    var more := heads[stored := h];
    forall s: nat | base <= s < stored + 1 ensures s in more && Follows(more[s], size, s, Before(more, s)) {
      if s < stored {
        assert Follows(heads[s], size, s, Before(heads, s));
      }
    }
  }

  datatype Job = Job(section: nat, oldHead: Hash)

  /** What an indexer remembers at one moment. */
  datatype Memory = Memory(stored: nat, known: nat, cascaded: nat, checkpoint: nat, checkpointHead: Hash,
                           heads: map<nat, Hash>, job: Option<Job>, base: nat)

  /** The stored heads are linked from the base on, and the section in work is not stored yet and
      builds on the last one unless a rollback came in between. */
  ghost predicate InOrder(size: nat, m: Memory)
    requires size > 0
  {
    && Linked(m.heads, size, m.base, m.stored) && (m.base == 0 || m.base == m.checkpoint)
    && (m.base > 0 ==> HeadOf(m.heads, m.base - 1) == m.checkpointHead)
    && (m.job.Some? ==> m.stored <= m.job.value.section && (m.job.value.section > 0 ==> m.job.value.oldHead != Zero))
    && (m.job.Some? && m.stored == m.job.value.section ==> m.job.value.oldHead == Before(m.heads, m.stored))
  }

  ghost function MemoryOf(c: ChainIndexer): Memory
    reads c
  {
    Memory(c.stored, c.known, c.cascaded, c.checkpoint, c.checkpointHead, c.heads, c.job, c.base)
  }

  class ChainIndexer {
    const size: nat
    const confirms: nat
    var stored: nat
    var known: nat
    var cascaded: nat
    var checkpoint: nat
    var checkpointHead: Hash
    var heads: map<nat, Hash>
    /** The section in work: what the updater remembers across the time without the lock. */
    var job: Option<Job>
    /** The first section that this indexer built itself. */
    ghost var base: nat

    ghost predicate Valid()
      reads this
    {
      size > 0 && InOrder(size, MemoryOf(this))
    }

    constructor (size: nat, confirms: nat)
      requires size > 0
      ensures Valid() && this.size == size && this.confirms == confirms && MemoryOf(this) == First(None)
    {
      this.size, this.confirms := size, confirms;
      stored, known, cascaded, checkpoint, checkpointHead, heads, job, base := 0, 0, 0, 0, Zero, map[], None, 0;
    }

    /** `setValidSections` to fewer sections: removes the heads above. */
    method SetValidSections(sections: nat)
      requires size > 0 && sections <= stored && forall s :: s in heads ==> s < stored
      modifies `stored, `heads
      ensures stored == sections && heads == Truncate(old(heads), sections)
    {
      while stored > sections
        invariant sections <= stored <= old(stored) && heads == Truncate(old(heads), stored)
      {
        stored := stored - 1;
        heads := heads - {stored};
      }
    }

    /** `verifyLastHead`: drops sections from the end until the last one is canonical. */
    method VerifyLastHead(canon: map<nat, Hash>)
      requires Valid()
      modifies `stored, `heads
      ensures Valid() && stored <= old(stored) && heads == Truncate(old(heads), stored)
      ensures stored == old(stored) || stored >= checkpoint
      // It stops on a match, or with nothing left that it may drop.
      ensures stored > checkpoint ==>
                LastOf(size, stored - 1) in canon && HeadOf(heads, stored - 1) == canon[LastOf(size, stored - 1)]
      // Nothing canonical is dropped.
      ensures forall s: nat :: stored <= s < old(stored) ==> !Matches(canon, size, s, HeadOf(old(heads), s))
      ensures stored == Kept(size, old(heads), old(stored), checkpoint, canon)
    {
      hide Linked, LastOf, Truncate, Kept;
      TruncateAll(heads, size, base, stored);
      Stored(heads, size, base, stored);
      while stored > 0 && stored > checkpoint
        invariant Valid() && stored <= old(stored) && heads == Truncate(old(heads), stored)
        invariant stored == old(stored) || stored >= checkpoint
        invariant stored > checkpoint ==> HeadOf(heads, stored - 1) == HeadOf(old(heads), stored - 1)
        invariant forall s: nat :: stored <= s < old(stored) ==> !Matches(canon, size, s, HeadOf(old(heads), s))
      {
        Stored(heads, size, base, stored);
        if LastOf(size, stored - 1) in canon && HeadOf(heads, stored - 1) == canon[LastOf(size, stored - 1)] {
          KeptIs(size, old(heads), old(stored), checkpoint, canon, stored);
          return;
        }
        Truncated(heads, size, base, stored, stored - 1);
        TruncateTwice(old(heads), stored, stored - 1);
        HeadsKept(heads, stored - 1);
        SetValidSections(stored - 1);
      }
      KeptIs(size, old(heads), old(stored), checkpoint, canon, stored);
    }

    /** Starts from a trusted section head; what is below it is never built here. */
    method AddCheckpoint(section: nat, shead: Hash)
      requires Valid() && job == None && shead != Zero
      modifies `checkpoint, `checkpointHead, `heads, `stored, `base
      ensures Valid()
      ensures if old(checkpoint) >= section + 1 || section < old(stored) then unchanged(this)
              else && checkpoint == section + 1 == stored == base && checkpointHead == shead
                   && heads == old(heads)[section := shead]
    {
      if checkpoint >= section + 1 || section < stored {
        return;
      }
      checkpoint, checkpointHead := section + 1, shead;
      heads, stored := heads[section := shead], section + 1;
      base := section + 1;
    }

    /** `newHead` after a reorganisation: rolls back to the sections that end at or below the
        common ancestor, but not below the checkpoint. */
    method Rollback(head: nat) returns (cascade: bool)
      requires Valid()
      modifies `known, `stored, `heads, `cascaded
      ensures Valid() && stored == Min(old(stored), Max((head + 1) / size, checkpoint))
      ensures heads == Truncate(old(heads), stored)
      ensures known == Min(old(known), if (head + 1) / size < checkpoint then 0 else (head + 1) / size)
      ensures cascade <==> cascaded < old(cascaded)
      ensures cascaded == Min(old(cascaded), if (head + 1) / size < checkpoint then 0 else (head + 1) / size * size)
    {
      hide Linked, Truncate;
      Stored(heads, size, base, stored);
      TruncateAll(heads, size, base, stored);
      var known' := (head + 1) / size;
      var stored' := known';
      if known' < checkpoint {
        known' := 0;
      }
      if stored' < checkpoint {
        stored' := checkpoint;
      }
      if known' < known {
        known := known';
      }
      if stored' < stored {
        Truncated(heads, size, base, stored, stored');
        HeadsKept(heads, stored');
        SetValidSections(stored');
      }
      var end := known' * size;
      cascade := end < cascaded;
      if cascade {
        cascaded := end;
      }
    }

    /** The sections that end with enough blocks on top of them; below the checkpoint none. */
    function Confirmed(head: nat): nat
      requires size > 0
      reads this
    {
      if head < confirms || (head + 1 - confirms) / size < checkpoint then 0 else (head + 1 - confirms) / size
    }

    /** A section is confirmed exactly when its last block has enough blocks on top, and none is
        before the checkpoint is. */
    lemma ConfirmedIff(head: nat, section: nat)
      requires size > 0
      ensures Confirmed(head) == 0 <==> LastOf(size, Max(checkpoint, 1) - 1) + confirms > head
      ensures Confirmed(head) > 0 ==> (section < Confirmed(head) <==> LastOf(size, section) + confirms <= head)
    {
      hide LastOf;
      if head >= confirms {
        SectionsUpTo(size, head + 1 - confirms, section);
        SectionsUpTo(size, head + 1 - confirms, Max(checkpoint, 1) - 1);
      }
    }

    /** `newHead` without a reorganisation. The first time the chain reaches the checkpoint its
        block there must be the trusted one. */
    method NewHead(head: nat, canon: map<nat, Hash>) returns (update: bool)
      requires Valid()
      modifies `known
      ensures Valid() && known >= old(known) && (update <==> known > old(known))
      ensures known == if && Confirmed(head) > old(known)
                          && (old(known) < checkpoint ==> Matches(canon, size, checkpoint - 1, checkpointHead))
                       then Confirmed(head) else old(known)
      ensures known > old(known) ==>
                known >= checkpoint && head >= confirms && LastOf(size, known - 1) + confirms <= head
      ensures known > old(known) && old(known) < checkpoint ==>
                LastOf(size, checkpoint - 1) in canon && canon[LastOf(size, checkpoint - 1)] == checkpointHead
    {
      hide Linked, LastOf;
      update := false;
      if head >= confirms {
        var sections := (head + 1 - confirms) / size;
        if sections < checkpoint {
          sections := 0;
        }
        if sections > known {
          SectionsUpTo(size, head + 1 - confirms, sections - 1);
          if known < checkpoint {
            var end := LastOf(size, checkpoint - 1);
            if !(end in canon && canon[end] == checkpointHead) {
              return;
            }
          }
          known := sections;
          update := true;
        }
      }
    }

    /** The first half of an update, under the lock: remembers the section to process. */
    method BeginUpdate(canon: map<nat, Hash>)
      requires Valid() && job == None
      modifies `stored, `heads, `job
      ensures Valid() && stored <= old(stored) && (stored == old(stored) || stored >= checkpoint)
      ensures stored == if known > old(stored) then Kept(size, old(heads), old(stored), checkpoint, canon)
                        else old(stored)
      ensures heads == if known > old(stored) then Truncate(old(heads), stored) else old(heads)
      ensures (job.Some? <==> known > old(stored)) && (job.Some? ==> job.value == Job(stored, Before(heads, stored)))
    {
      TruncateAll(heads, size, base, stored);
      if known > stored {
        VerifyLastHead(canon);
        BeforeIsSet(heads, size, base, stored);
        job := Some(Job(stored, Before(heads, stored)));
      }
    }

    /** `processSection`, without the lock: `views[i]` is the canonical index when block `i` of
        the section is read, and `fine[i]` says that database and backend handle that block.
        There is an answer exactly when nothing fails and what was read is one hash-linked
        section on the head the updater remembered. */
    method ProcessSection(section: nat, oldHead: Hash, views: seq<map<nat, Hash>>, fine: seq<bool>, committed: bool)
      returns (r: Option<Hash>)
      requires size > 0 && |views| == |fine| == size
      ensures r.Some? ==> r.value == LastRead(views, size, section) && Follows(r.value, size, section, oldHead)
      ensures r.Some? <==> committed && (forall i :: 0 <= i < size ==>
                  fine[i]) && IsSection(LastRead(views, size, section), views, size, section, oldHead)
    {
      hide Follows;
      ghost var h := LastRead(views, size, section);
      var lastHead := oldHead;
      for i := 0 to size
        invariant Built(lastHead, views, size, section, oldHead, i) && forall k :: 0 <= k < i ==> fine[k]
        invariant IsSection(h, views, size, section, oldHead) ==> lastHead == Walk(h, size - i)
      {
        var number: nat := section * size + i;
        if IsSection(h, views, size, section, oldHead) {
          SectionStep(h, views, size, section, oldHead, i);
        }
        if !(number in views[i]) || views[i][number] == Zero {
          return None;
        }
        var header := views[i][number].block;
        if !fine[i] || header.number != number || header.parent != lastHead {
          return None;
        }
        BuiltMore(lastHead, header, views, size, section, oldHead, i);
        lastHead := Of(header);
      }
      BuiltAll(lastHead, views, size, section, oldHead);
      r := if committed then Some(lastHead) else None;
    }

    /** The backend could not be reset: everything is dropped, the checkpoint too. */
    method ResetFailed()
      requires Valid()
      modifies `stored, `heads, `base
      ensures Valid() && stored == 0 && heads == map[] && base == 0
    {
      Stored(heads, size, base, stored);
      SetValidSections(0);
      base := 0;
    }

    /** The second half of an update: the section counts exactly when it was processed and no
        rollback came in between. */
    method EndUpdate(r: Option<Hash>, canon: map<nat, Hash>)
      requires Valid() && job.Some? && (r.Some? ==> Follows(r.value, size, job.value.section, job.value.oldHead))
      modifies `stored, `heads, `known, `cascaded, `job
      ensures Valid() && job == None
      ensures r.Some? && old(stored) == old(job).value.section ==>
                && stored == old(stored) + 1 && heads == old(heads)[old(stored) := r.value] && known == old(known)
                && cascaded == LastOf(size, old(stored))
      ensures !(r.Some? && old(stored) == old(job).value.section) ==>
                && stored == Kept(size, old(heads), old(stored), checkpoint, canon)
                && heads == Truncate(old(heads), stored)
                && known == stored && cascaded == old(cascaded)
    {
      hide Linked, LastOf, Walk;
      var section, oldHead := job.value.section, job.value.oldHead;
      Stored(heads, size, base, stored);
      job := None;
      if r.Some? && (section == 0 || oldHead == HeadOf(heads, section - 1)) {
        Appended(heads, size, base, stored, r.value);
        heads, stored := heads[section := r.value], section + 1;
        cascaded := LastOf(size, section);
      } else {
        VerifyLastHead(canon);
        known := stored;
      }
    }

    /** `Sections`. What it reports is canonical from the base on exactly when nothing but the
        checkpoint lies at or below it, or the last section up to it matches. */
    method Sections(canon: map<nat, Hash>, ghost head: Block, ghost genesis: Block) returns (count: nat, last: Hash)
      requires Valid() && IsGenesis(genesis) && Rooted(head, genesis) && Canonical(canon, head)
      modifies `stored, `heads
      ensures Valid() && count == stored && last == Before(heads, stored) && count <= old(stored)
      ensures heads == Truncate(old(heads), stored)
      ensures count == old(stored) || count >= checkpoint
      ensures AllCanonical(heads, size, base, count, canon) <==>
                base >= Min(old(stored), checkpoint)
                || Matches(canon, size, Min(old(stored), checkpoint) - 1,
                           HeadOf(old(heads), Min(old(stored), checkpoint) - 1))
      ensures count > checkpoint ==> AllCanonical(heads, size, base, count, canon)
      ensures count > checkpoint && base > 0 ==> Matches(canon, size, checkpoint - 1, checkpointHead)
    {
      hide Linked, LastOf, Canonical, Rooted, IsGenesis, Truncate, AllCanonical;
      ghost var heads0, m := heads, Min(stored, checkpoint);
      VerifyLastHead(canon);
      Stored(heads, size, base, stored);
      HeadsKept(heads0, stored);
      count, last := stored, Before(heads, stored);
      AllMatch(heads, size, base, stored, canon, head, genesis);
      if base < m {
        SomeMatch(heads, size, base, stored, canon, head, genesis, m);
      }
      if count > checkpoint && base > 0 {
        MatchProvesAll(heads, size, base, stored, canon, head, genesis, checkpoint - 1);
      }
    }
  }

  // ----- Canonical sections -----

  ghost predicate Matches(canon: map<nat, Hash>, size: nat, section: nat, h: Hash)
    requires size > 0
  {
    Reads(canon, LastOf(size, section), h)
  }

  ghost predicate AllCanonical(heads: map<nat, Hash>, size: nat, base: nat, stored: nat, canon: map<nat, Hash>)
    requires size > 0
  {
    forall s: nat :: base <= s < stored ==> Matches(canon, size, s, HeadOf(heads, s))
  }

  lemma AllMatch(heads: map<nat, Hash>, size: nat, base: nat, stored: nat, canon: map<nat, Hash>, head: Block,
                 genesis: Block)
    requires IsGenesis(genesis) && Rooted(head, genesis) && Canonical(canon, head) && size > 0
    requires Linked(heads, size, base, stored)
    ensures AllCanonical(heads, size, base, stored, canon) <==>
              base == stored || Matches(canon, size, stored - 1, HeadOf(heads, stored - 1))
  {
    hide Linked, Canonical, Rooted, IsGenesis, LastOf;
    Stored(heads, size, base, stored);
    if base < stored && Matches(canon, size, stored - 1, HeadOf(heads, stored - 1)) {
      forall s: nat | base <= s < stored ensures Matches(canon, size, s, HeadOf(heads, s)) {
        MatchProvesAll(heads, size, base, stored, canon, head, genesis, s);
      }
    }
  }

  /** If the last section matches, so does any before it. */
  lemma SomeMatch(heads: map<nat, Hash>, size: nat, base: nat, stored: nat, canon: map<nat, Hash>, head: Block,
                  genesis: Block, m: nat)
    requires IsGenesis(genesis) && Rooted(head, genesis) && Canonical(canon, head) && size > 0
    requires Linked(heads, size, base, stored)
    requires base < m <= stored
    ensures AllCanonical(heads, size, base, stored, canon) ==> Matches(canon, size, m - 1, HeadOf(heads, m - 1))
  {}

  /** The hash that the last read of a section gave. */
  ghost function LastRead(views: seq<map<nat, Hash>>, size: nat, section: nat): Hash
    requires |views| == size > 0
  {
    HeadOf(views[size - 1], LastOf(size, section))
  }

  /** Every block of the section below `h` was the canonical one when it was read. */
  ghost predicate IsSection(h: Hash, views: seq<map<nat, Hash>>, size: nat, section: nat, oldHead: Hash)
    requires |views| == size > 0
  {
    && Walk(h, size) == oldHead
    && forall i: nat :: i < size ==> IsRead(views[i], section * size + i, Walk(h, size - 1 - i))
  }

  ghost predicate IsRead(canon: map<nat, Hash>, number: nat, h: Hash) {
    Reads(canon, number, h) && h.Of? && h.block.number == number
  }

  /** The first `n` blocks of a section. */
  ghost predicate Built(h: Hash, views: seq<map<nat, Hash>>, size: nat, section: nat, oldHead: Hash, n: nat)
    requires n <= |views| == size
  {
    Walk(h, n) == oldHead && forall k: nat :: k < n ==> IsRead(views[k], section * size + k, Walk(h, n - 1 - k))
  }

  lemma BuiltMore(h: Hash, b: Block, views: seq<map<nat, Hash>>, size: nat, section: nat, oldHead: Hash, n: nat)
    requires n < |views| == size && Built(h, views, size, section, oldHead, n)
    requires b.parent == h && b.number == section * size + n && Reads(views[n], b.number, Of(b))
    ensures Built(Of(b), views, size, section, oldHead, n + 1)
  {
    hide IsRead;
    assert IsRead(views[n], b.number, Of(b)) by { IsReadIs(views[n], b); }
    assert Walk(Of(b), n + 1) == Walk(h, n);
    forall k: nat | k < n + 1 ensures IsRead(views[k], section * size + k, Walk(Of(b), n - k)) {
      if k < n {
        assert Walk(Of(b), n - k) == Walk(h, n - 1 - k);
      }
    }
  }

  lemma IsReadIs(canon: map<nat, Hash>, b: Block)
    requires Reads(canon, b.number, Of(b))
    ensures IsRead(canon, b.number, Of(b))
  {}

  lemma BuiltAll(h: Hash, views: seq<map<nat, Hash>>, size: nat, section: nat, oldHead: Hash)
    requires |views| == size > 0 && Built(h, views, size, section, oldHead, size)
    ensures h == LastRead(views, size, section) && IsSection(h, views, size, section, oldHead)
    ensures Follows(h, size, section, oldHead)
  {
    assert IsRead(views[size - 1], section * size + (size - 1), Walk(h, size - 1 - (size - 1)));
    assert section * size + (size - 1) == LastOf(size, section);
  }

  lemma SectionStep(h: Hash, views: seq<map<nat, Hash>>, size: nat, section: nat, oldHead: Hash, i: nat)
    requires i < |views| == size && IsSection(h, views, size, section, oldHead)
    ensures IsRead(views[i], section * size + i, Walk(h, size - 1 - i))
    ensures Walk(h, size - 1 - i).block.parent == Walk(h, size - i)
  {
    WalkAdd(h, size - 1 - i, 1);
  }

  lemma Stored(heads: map<nat, Hash>, size: nat, base: nat, stored: nat)
    requires size > 0 && Linked(heads, size, base, stored)
    ensures base <= stored && (forall s :: s in heads ==> s < stored)
    ensures (forall s: nat :: base <= s < stored ==> s in heads && heads[s].Of?)
  {
    forall s: nat | base <= s < stored ensures s in heads && heads[s].Of? {
      assert Follows(heads[s], size, s, Before(heads, s));
    }
  }

  /** The block was the canonical one with its number when it was read. */
  ghost predicate Reads(canon: map<nat, Hash>, number: nat, h: Hash) {
    number in canon && canon[number] == h
  }

  lemma BeforeIsSet(heads: map<nat, Hash>, size: nat, base: nat, stored: nat)
    requires size > 0 && Linked(heads, size, base, stored)
    ensures stored > 0 ==> Before(heads, stored) != Zero
  {
    if base < stored {
      assert Follows(heads[stored - 1], size, stored - 1, Before(heads, stored - 1));
    }
  }

  /** A section is among the first `n / size` exactly when it ends below block `n`. */
  lemma SectionsUpTo(size: nat, n: nat, section: nat)
    requires size > 0
    ensures section < n / size <==> LastOf(size, section) < n
  {
    var q := n / size;
    assert n == q * size + n % size;
    if section < q {
      assert (section + 1) * size <= q * size by { MulMono(section + 1, q, size); }
    } else {
      assert q * size <= section * size by { MulMono(q, section, size); }
    }
  }

  lemma MulMono(a: nat, b: nat, c: nat)
    requires a <= b
    ensures a * c <= b * c
  {}

  datatype Step =
    | HeadStep(head: nat, canon: map<nat, Hash>)
    | ReorgStep(ancestor: nat)
    | BeginStep(canon: map<nat, Hash>)
    | ResetFailStep
    | EndStep(views: seq<map<nat, Hash>>, fine: seq<bool>, committed: bool, canon: map<nat, Hash>)
    | VerifyStep(canon: map<nat, Hash>)

  /** An indexer whose backend could not be reset once: it starts over below its checkpoint. */
  method StartedOver(trusted: Hash, canon: map<nat, Hash>) returns (c: ChainIndexer)
    requires trusted != Zero && Reads(canon, 3, trusted)
    ensures fresh(c) && c.Valid() && c.size == 2 && c.checkpoint == 2 && c.stored == 0 && c.known == 3 && c.job == None
  {
    hide Linked, Truncate;
    c := new ChainIndexer(2, 0);
    c.AddCheckpoint(1, trusted);
    assert c.Confirmed(5) == 3 && LastOf(2, 1) == 3;
    var update := c.NewHead(5, canon);
    c.BeginUpdate(canon);
    c.ResetFailed();
    c.EndUpdate(None, canon);
    assert c.Confirmed(5) == 3;
    update := c.NewHead(5, canon);
  }

  /** It happens: the first section is stored, the chain moves to another branch, and neither
      the notification nor the report that follows drops it. */
  method StaleSection() returns (c: ChainIndexer, count: nat, last: Hash, canon: map<nat, Hash>, ghost head: Block)
    ensures c.size > 0 && Canonical(canon, head) && count == 1 == c.stored && last == HeadOf(c.heads, 0)
    ensures !Matches(canon, c.size, 0, last)
  {
    hide Linked, Truncate;
    var g := Block(Zero, 0, 1, [], 0);
    var a1 := Block(Of(g), 1, 1, [], 0);
    var a3 := Block(Of(Block(Of(a1), 2, 1, [], 0)), 3, 1, [], 0);
    var first := map[0 := Of(g), 1 := Of(a1), 2 := a3.parent, 3 := Of(a3)];
    c := StartedOver(Of(a3), first);
    c.BeginUpdate(first);
    var views := [first, first];
    OneSection(g, a1, views);
    var r := c.ProcessSection(0, Zero, views, [true, true], true);
    c.EndUpdate(r, first);
    assert HeadOf(c.heads, 0) == Of(a1);
    HeadsKept(c.heads, 1);
    var cascade := c.Rollback(0);
    assert HeadOf(c.heads, 0) == Of(a1);
    var b1 := Block(Of(g), 1, 2, [], 0);
    canon, head := map[0 := Of(g), 1 := Of(b1)], b1;
    assert At(b1, 0) == Of(g) && LastOf(2, 0) == 1;
    HeadsKept(c.heads, 1);
    count, last := c.Sections(canon, b1, g);
  }

  lemma OneSection(g: Block, a1: Block, views: seq<map<nat, Hash>>)
    requires IsGenesis(g) && a1.parent == Of(g) && a1.number == 1 && |views| == 2
    requires Reads(views[0], 0, Of(g)) && Reads(views[1], 1, Of(a1))
    ensures LastRead(views, 2, 0) == Of(a1) && IsSection(Of(a1), views, 2, 0, Zero)
  {
    assert Walk(Of(a1), 1) == Of(g) && Walk(Of(a1), 2) == Zero;
  }

  // ----- Interleavings -----

  /** A new indexer, with a trusted section if there is one. */
  ghost function First(checkpoint: Option<(nat, Hash)>): Memory {
    match checkpoint
    case None => Memory(0, 0, 0, 0, Zero, map[], None, 0)
    case Some((section, head)) => Memory(section + 1, 0, 0, section + 1, head, map[section := head], None, section + 1)
  }

  /** The sections that `verifyLastHead` keeps: up to the last canonical one above the
      checkpoint. */
  ghost function Kept(size: nat, heads: map<nat, Hash>, stored: nat, checkpoint: nat, canon: map<nat, Hash>): nat
    requires size > 0
  {
    if stored <= checkpoint || Matches(canon, size, stored - 1, HeadOf(heads, stored - 1)) then stored
    else Kept(size, heads, stored - 1, checkpoint, canon)
  }

  lemma {:induction false} KeptIs(size: nat, heads: map<nat, Hash>, stored: nat, checkpoint: nat,
                                  canon: map<nat, Hash>, k: nat)
    requires size > 0 && k <= stored && (k == stored || k >= checkpoint)
    requires k > checkpoint ==> Matches(canon, size, k - 1, HeadOf(heads, k - 1))
    requires forall s: nat :: k <= s < stored ==> !Matches(canon, size, s, HeadOf(heads, s))
    ensures Kept(size, heads, stored, checkpoint, canon) == k
  {
    hide LastOf;
    if k < stored {
      KeptIs(size, heads, stored - 1, checkpoint, canon, k);
    }
  }

  ghost function Verified(size: nat, m: Memory, canon: map<nat, Hash>): Memory
    requires size > 0
  {
    var k := Kept(size, m.heads, m.stored, m.checkpoint, canon);
    m.(stored := k, heads := Truncate(m.heads, k))
  }

  /** The sections that end with enough blocks on top of them, if the checkpoint is in place. */
  ghost function KnownAfter(size: nat, confirms: nat, m: Memory, head: nat, canon: map<nat, Hash>): nat
    requires size > 0
  {
    var n := if head < confirms || (head + 1 - confirms) / size < m.checkpoint then 0 else (head + 1 - confirms) / size;
    if n > m.known && (m.known < m.checkpoint ==> Matches(canon, size, m.checkpoint - 1, m.checkpointHead)) then n
    else m.known
  }

  ghost function RolledBack(size: nat, m: Memory, ancestor: nat): Memory
    requires size > 0
  {
    var n := (ancestor + 1) / size;
    var known := if n < m.checkpoint then 0 else n;
    var stored := Min(m.stored, Max(n, m.checkpoint));
    m.(stored := stored, heads := Truncate(m.heads, stored), known := Min(m.known, known),
       cascaded := Min(m.cascaded, known * size))
  }

  ghost function Begun(size: nat, m: Memory, canon: map<nat, Hash>): Memory
    requires size > 0
  {
    if m.job.Some? || m.known <= m.stored then m
    else
      var v := Verified(size, m, canon);
      v.(job := Some(Job(v.stored, Before(v.heads, v.stored))))
  }

  /** The section in work was read as one hash-linked section on the remembered head. */
  ghost predicate Succeeds(size: nat, job: Job, views: seq<map<nat, Hash>>, fine: seq<bool>, committed: bool) {
    && |views| == |fine| == size > 0 && committed && (forall i :: 0 <= i < size ==> fine[i])
    && IsSection(LastRead(views, size, job.section), views, size, job.section, job.oldHead)
  }

  ghost function Finished(size: nat, m: Memory, views: seq<map<nat, Hash>>, fine: seq<bool>, committed: bool,
                          canon: map<nat, Hash>): Memory
    requires size > 0
  {
    if m.job == None then m
    else if Succeeds(size, m.job.value, views, fine, committed) && m.stored == m.job.value.section then
      m.(job := None, stored := m.stored + 1, heads := m.heads[m.stored := LastRead(views, size, m.stored)],
         cascaded := LastOf(size, m.stored))
    else
      var v := Verified(size, m.(job := None), canon);
      v.(known := v.stored)
  }

  /** What each step makes of the indexer; a step that is not enabled does nothing. */
  ghost function After(size: nat, confirms: nat, m: Memory, step: Step): Memory
    requires size > 0
  {
    match step
    case HeadStep(head, canon) => m.(known := KnownAfter(size, confirms, m, head, canon))
    case ReorgStep(ancestor) => RolledBack(size, m, ancestor)
    case BeginStep(canon) => Begun(size, m, canon)
    case ResetFailStep => if m.job == None then m else m.(stored := 0, heads := map[], base := 0)
    case EndStep(views, fine, committed, canon) => Finished(size, m, views, fine, committed, canon)
    case VerifyStep(canon) => Verified(size, m, canon)
  }

  /** The memory after a number of steps. */
  ghost function AfterAll(size: nat, confirms: nat, m: Memory, steps: seq<Step>): Memory
    requires size > 0
  {
    if steps == [] then m
    else After(size, confirms, AfterAll(size, confirms, m, steps[..|steps| - 1]), steps[|steps| - 1])
  }

  method Perform(c: ChainIndexer, step: Step)
    requires c.Valid()
    modifies c
    ensures c.Valid() && MemoryOf(c) == After(c.size, c.confirms, old(MemoryOf(c)), step)
  {
    hide Linked, LastOf, Truncate, Follows, IsSection, LastRead, Kept;
    match step
    case HeadStep(head, canon) =>
      var update := c.NewHead(head, canon);
    case ReorgStep(ancestor) =>
      var cascade := c.Rollback(ancestor);
    case BeginStep(canon) =>
      if c.job == None {
        c.BeginUpdate(canon);
      }
    case ResetFailStep =>
      if c.job.Some? {
        c.ResetFailed();
      }
    case EndStep(views, fine, committed, canon) =>
      if c.job.Some? {
        var r := None;
        if |views| == |fine| == c.size {
          r := c.ProcessSection(c.job.value.section, c.job.value.oldHead, views, fine, committed);
        }
        c.EndUpdate(r, canon);
      }
    case VerifyStep(canon) =>
      c.VerifyLastHead(canon);
  }

  /** Every interleaving of section processing with heads and reorganisations, over any
      canonical indexes read on the way: after each step the indexer is exactly what the steps
      so far make of it, and its stored heads are linked. */
  method Interleave(size: nat, confirms: nat, checkpoint: Option<(nat, Hash)>, steps: seq<Step>)
    returns (c: ChainIndexer)
    requires size > 0 && (checkpoint.Some? ==> checkpoint.value.1 != Zero)
    ensures c.Valid() && c.size == size && c.confirms == confirms
    ensures MemoryOf(c) == AfterAll(size, confirms, First(checkpoint), steps)
    ensures forall n :: 0 <= n <= |steps| ==> InOrder(size, AfterAll(size, confirms, First(checkpoint), steps[..n]))
  {
    hide Linked, After;
    c := new ChainIndexer(size, confirms);
    if checkpoint.Some? {
      c.AddCheckpoint(checkpoint.value.0, checkpoint.value.1);
    }
    for i := 0 to |steps|
      invariant c.Valid() && c.size == size && c.confirms == confirms && fresh(c)
      invariant MemoryOf(c) == AfterAll(size, confirms, First(checkpoint), steps[..i])
      invariant forall n :: 0 <= n <= i ==> InOrder(size, AfterAll(size, confirms, First(checkpoint), steps[..n]))
    {
      assert steps[..i + 1][..i] == steps[..i];
      Perform(c, steps[i]);
    }
    assert steps[..|steps|] == steps;
  }
}
