/** Block reorganisation: moving the canonical chain, its number index and its transaction
    lookups from one branch to another. */
module Reorg {
  import opened Types
  import opened Chain
  import opened HeaderChain

  // ----- Transactions along a chain -----

  ghost predicate OnChain(b: Block, tx: nat) {
    tx in b.txs || (b.parent.Of? && OnChain(b.parent.block, tx))
  }

  /** The number of the last block with the transaction. */
  ghost function TxNumber(b: Block, tx: nat): nat {
    if tx in b.txs || b.parent.Zero? then b.number else TxNumber(b.parent.block, tx)
  }

  /** No transaction is in two blocks of the chain: its nonce is spent by the first. */
  ghost predicate NoRepeat(b: Block) {
    b.parent.Of? ==> NoRepeat(b.parent.block) && forall tx :: tx in b.txs ==> !OnChain(b.parent.block, tx)
  }

  /** Lookups lead exactly the transactions of the chain to their block numbers. */
  ghost predicate LookedUp(lookup: map<nat, nat>, head: Block) {
    && (forall tx: nat :: tx in lookup <==> OnChain(head, tx))
    && (forall tx :: tx in lookup ==> lookup[tx] == TxNumber(head, tx))
  }

  /** The transaction is in a block of the chain above number `n`. */
  ghost predicate Above(b: Block, n: nat, tx: nat) {
    b.number > n && (tx in b.txs || (b.parent.Of? && Above(b.parent.block, n, tx)))
  }

  // ----- Branches -----

  /** The blocks from `b` down to the one above number `n`. */
  function Branch(b: Block, n: nat): seq<Block> {
    if b.number <= n then [] else [b] + if b.parent.Zero? then [] else Branch(b.parent.block, n)
  }

  /** `c` is on both chains and nothing above it is. */
  ghost predicate LowestCommon(a: Block, b: Block, c: Block) {
    && c.number <= a.number && c.number <= b.number
    && At(a, c.number) == Of(c) && At(b, c.number) == Of(c)
    && forall n: nat :: c.number < n <= a.number && n <= b.number ==> At(a, n) != At(b, n)
  }

  lemma {:induction false} BranchGrows(b: Block, genesis: Block, n: nat)
    requires IsGenesis(genesis) && Rooted(b, genesis) && n < b.number
    ensures At(b, n + 1).Of? && Branch(b, n) == Branch(b, n + 1) + [At(b, n + 1).block]
    ensures forall tx :: Above(b, n, tx) <==> Above(b, n + 1, tx) || tx in At(b, n + 1).block.txs
    decreases b.number
  {
    if n + 1 < b.number {
      BranchGrows(b.parent.block, genesis, n);
    } else {
      assert b.parent.Of?;
      assert Branch(b.parent.block, n) == [] && Branch(b, n + 1) == [];
    }
  }

  lemma {:induction false} BranchIs(b: Block, genesis: Block, n: nat)
    requires IsGenesis(genesis) && Rooted(b, genesis) && n <= b.number
    ensures |Branch(b, n)| == b.number - n
    ensures forall i :: 0 <= i < |Branch(b, n)| ==> At(b, b.number - i) == Of(Branch(b, n)[i])
    decreases b.number
  {
    if n < b.number {
      BranchIs(b.parent.block, genesis, n);
    }
  }

  // ----- Lookups along a branch -----

  /** Above `c` or on the chain of `c`, and without repetition not both. */
  lemma {:induction false} SplitChain(b: Block, genesis: Block, n: nat, tx: nat)
    requires IsGenesis(genesis) && Rooted(b, genesis) && n <= b.number
    ensures At(b, n).Of? && (OnChain(b, tx) <==> Above(b, n, tx) || OnChain(At(b, n).block, tx))
    ensures NoRepeat(b) ==> NoRepeat(At(b, n).block) && !(Above(b, n, tx) && OnChain(At(b, n).block, tx))
    ensures NoRepeat(b) && OnChain(At(b, n).block, tx) ==> TxNumber(b, tx) == TxNumber(At(b, n).block, tx)
    decreases b.number
  {
    if n < b.number {
      SplitChain(b.parent.block, genesis, n, tx);
    }
  }

  function WithTxs(lookup: map<nat, nat>, b: Block): map<nat, nat> {
    lookup + map tx | tx in b.txs :: b.number
  }

  function Without(lookup: map<nat, nat>, txs: seq<nat>): map<nat, nat> {
    lookup - set tx | tx in txs
  }

  /** While the new branch is written, lookups of the old one are still there. */
  ghost predicate Mixed(lookup: map<nat, nat>, b: Block, old_: Block) {
    && (forall tx: nat :: tx in lookup <==> OnChain(b, tx) || OnChain(old_, tx))
    && (forall tx: nat :: OnChain(b, tx) ==> tx in lookup && lookup[tx] == TxNumber(b, tx))
  }

  lemma MixedStarts(lookup: map<nat, nat>, old_: Block, genesis: Block, c: Block)
    requires IsGenesis(genesis) && Rooted(old_, genesis) && c.number <= old_.number && At(old_, c.number) == Of(c)
    requires NoRepeat(old_) && LookedUp(lookup, old_)
    ensures Mixed(lookup, c, old_)
  {
    hide OnChain, Above, NoRepeat, TxNumber, Rooted, At;
    forall tx: nat ensures OnChain(c, tx) ==> OnChain(old_, tx) && TxNumber(c, tx) == TxNumber(old_, tx) {
      SplitChain(old_, genesis, c.number, tx);
    }
  }

  lemma MixedGrows(lookup: map<nat, nat>, b: Block, old_: Block, next: Block)
    requires Mixed(lookup, b, old_) && next.parent == Of(b)
    ensures Mixed(WithTxs(lookup, next), next, old_)
  {}

  lemma LookupsGrow(lookup: map<nat, nat>, b: Block, next: Block)
    requires LookedUp(lookup, b) && (next == b || next.parent == Of(b))
    ensures LookedUp(WithTxs(lookup, next), next)
  {}

  /** Deleting what only the old branch holds leaves the lookups of the new one. */
  lemma MixedEnds(lookup: map<nat, nat>, b: Block, old_: Block, genesis: Block, c: Block, gone: seq<nat>)
    requires IsGenesis(genesis) && Rooted(old_, genesis) && Rooted(b, genesis) && c.number <= old_.number
    requires c.number <= b.number
    requires At(old_, c.number) == Of(c) && At(b, c.number) == Of(c) && NoRepeat(old_) && Mixed(lookup, b, old_)
    requires forall tx :: tx in gone <==> Above(old_, c.number, tx) && !Above(b, c.number, tx)
    ensures LookedUp(Without(lookup, gone), b)
  {
    hide OnChain, Above, NoRepeat, TxNumber, Rooted, At;
    forall tx: nat
      ensures OnChain(b, tx) ==> tx !in gone
      ensures OnChain(old_, tx) && !OnChain(b, tx) ==> tx in gone
    {
      SplitChain(old_, genesis, c.number, tx);
      SplitChain(b, genesis, c.number, tx);
    }
  }

  // ----- The number index -----

  /** Up to the head the index follows its ancestry. */
  ghost predicate Prefix(canon: map<nat, Hash>, head: Block) {
    forall n: nat :: n <= head.number ==> n in canon && canon[n] == At(head, n)
  }

  ghost predicate Tall(canon: map<nat, Hash>, top: nat) {
    forall n: nat :: n in canon <==> n <= top
  }

  lemma ExactIff(canon: map<nat, Hash>, head: Block, top: nat)
    requires Prefix(canon, head) && Tall(canon, top)
    ensures head.number <= top && (Canonical(canon, head) <==> top == head.number)
  {
    assert head.number in canon;
    if Canonical(canon, head) {
      assert top in canon;
    }
  }

  lemma PrefixGrows(canon: map<nat, Hash>, b: Block, next: Block, genesis: Block)
    requires Prefix(canon, b) && IsGenesis(genesis) && Rooted(next, genesis) && (next.parent == Of(b) || next == b)
    ensures Prefix(canon[next.number := Of(next)], next)
  {
    if next.parent == Of(b) {
      NumberedBy(next, genesis);
      assert next != genesis;
    }
  }

  lemma PrefixBelow(canon: map<nat, Hash>, head: Block, genesis: Block, c: Block)
    requires Prefix(canon, head) && IsGenesis(genesis) && Rooted(head, genesis)
    requires c.number <= head.number && At(head, c.number) == Of(c)
    ensures Prefix(canon, c)
  {
    forall n: nat | n <= c.number ensures At(c, n) == At(head, n) {
      AtAt(head, genesis, c.number, n);
    }
  }

  function Kept(a: seq<nat>, b: seq<nat>): seq<nat> {
    if a == [] then [] else Kept(a[..|a| - 1], b) + if a[|a| - 1] in b then [] else [a[|a| - 1]]
  }

  /** `types.TxDifference`: those of `a` that are not in `b`, in order and as often. */
  method TxDifference(a: seq<nat>, b: seq<nat>) returns (keep: seq<nat>)
    ensures keep == Kept(a, b) && forall tx :: tx in keep <==> tx in a && tx !in b
  {
    var remove := set tx | tx in b;
    keep := [];
    for i := 0 to |a|
      invariant keep == Kept(a[..i], b) && forall tx :: tx in keep <==> tx in a[..i] && tx !in b
    {
      assert a[..i + 1] == a[..i] + [a[i]] && a[..i + 1][..i] == a[..i];
      if a[i] !in remove {
        keep := keep + [a[i]];
      }
    }
    assert a[..|a|] == a;
  }

  /** The new branch has at least two blocks of its own. */
  ghost predicate Forks(old_: Block, block: Block) {
    block.number > 0 && At(old_, block.number - 1) != block.parent
  }

  /** The last number in the index once `block` is the head. */
  ghost function NextTop(top: nat, old_: Block, block: Block): nat {
    if block.parent == Of(old_) then Max(top, block.number)
    else if Forks(old_, block) then block.number
    else Max(old_.number, block.number)
  }

  datatype Status = NoParent | Canon | Side

  /** Fork choice for blocks: as for headers, but between equals of the same length a block to
      preserve comes first. */
  predicate Chooses(externTd: nat, number: nat, localTd: nat, localNumber: nat, keepCurrent: bool, keepBlock: bool,
                    coin: bool) {
    externTd > localTd || (externTd == localTd &&
      (number < localNumber || (number == localNumber && !keepCurrent && (keepBlock || coin))))
  }

  /** Between equals of the same length: the head stays if it is to be preserved, and otherwise
      gives way to a block that is, or to a coin. Nothing else is left to either. */
  lemma TiesAre(td: nat, number: nat, td': nat, number': nat, keepCurrent: bool, keepBlock: bool, coin: bool)
    ensures td != td' || number != number' ==>
              Chooses(td, number, td', number', keepCurrent, keepBlock, coin) == Prefers(td, number, td', number', coin)
    ensures Chooses(td, number, td, number, true, keepBlock, coin) == false
    ensures Chooses(td, number, td, number, false, true, coin)
    ensures Chooses(td, number, td, number, false, false, coin) == coin
  {}

  class BlockChain {
    const genesis: Block
    var blocks: set<Block>
    var td: map<Block, nat>
    var canon: map<nat, Hash>
    var lookup: map<nat, nat>
    var current: Block
    var header: Block
    var fast: Block
    ghost var top: nat

    /** Walks both branches back to the last block they share. A missing block is an error. */
    method FindSplit(old_: Block, new_: Block)
      returns (ok: bool, common: Block, deleted: seq<nat>, oldChain: seq<Block>, newChain: seq<Block>)
      requires IsGenesis(genesis) && Rooted(old_, genesis) && Rooted(new_, genesis)
      ensures ok ==> LowestCommon(old_, new_, common)
      ensures ok ==> oldChain == Branch(old_, common.number) && newChain == Branch(new_, common.number)
      ensures ok ==> forall tx :: tx in deleted <==> Above(old_, common.number, tx)
      ensures Tree(blocks, td, genesis) && old_ in blocks && new_ in blocks ==> ok
    {
      hide Tree, At, Rooted, Branch, Above, TotalDifficulty;
      var o, n := old_, new_;
      common, deleted, oldChain, newChain := old_, [], [], [];
      SelfAt(old_);
      SelfAt(new_);
      BranchEmpty(old_);
      BranchEmpty(new_);
      ghost var stored := Tree(blocks, td, genesis) && old_ in blocks && new_ in blocks;
      if o.number > n.number {
        while o.number != n.number
          invariant new_.number <= o.number <= old_.number && At(old_, o.number) == Of(o) && (stored ==> o in blocks)
          invariant oldChain == Branch(old_, o.number) && forall tx :: tx in deleted <==> Above(old_, o.number, tx)
          decreases o.number
        {
          oldChain, deleted := oldChain + [o], deleted + o.txs;
          WalkDown(old_, genesis, o);
          if stored { TreeHas(blocks, td, genesis, o); }
          if o.parent.block !in blocks {
            return false, common, deleted, oldChain, newChain;
          }
          o := o.parent.block;
        }
      } else {
        while n.number != o.number
          invariant old_.number <= n.number <= new_.number && At(new_, n.number) == Of(n) && (stored ==> n in blocks)
          invariant newChain == Branch(new_, n.number)
          decreases n.number
        {
          newChain := newChain + [n];
          WalkDown(new_, genesis, n);
          if stored { TreeHas(blocks, td, genesis, n); }
          if n.parent.block !in blocks {
            return false, common, deleted, oldChain, newChain;
          }
          n := n.parent.block;
        }
      }
      while o != n
        invariant o.number == n.number <= old_.number && n.number <= new_.number && At(old_, o.number) == Of(o)
        invariant At(new_, n.number) == Of(n)
        invariant oldChain == Branch(old_, o.number) && newChain == Branch(new_, n.number)
        invariant forall tx :: tx in deleted <==> Above(old_, o.number, tx)
        invariant forall k: nat :: o.number < k <= old_.number && k <= new_.number ==> At(old_, k) != At(new_, k)
        invariant stored ==> o in blocks && n in blocks
        decreases o.number
      {
        RootAgrees(genesis, old_, new_);
        assert o.number > 0;
        oldChain, deleted, newChain := oldChain + [o], deleted + o.txs, newChain + [n];
        WalkDown(old_, genesis, o);
        WalkDown(new_, genesis, n);
        if stored {
          TreeHas(blocks, td, genesis, o);
          TreeHas(blocks, td, genesis, n);
        }
        if o.parent.block !in blocks || n.parent.block !in blocks {
          return false, common, deleted, oldChain, newChain;
        }
        o, n := o.parent.block, n.parent.block;
      }
      return true, o, deleted, oldChain, newChain;
    }

    /** Makes `block` the head of the index and of the lookups; the other two heads follow
        when the index did not lead to it before. */
    method WriteHeadBlock(block: Block)
      modifies `canon, `lookup, `current, `header, `fast
      ensures canon == old(canon)[block.number := Of(block)] && lookup == WithTxs(old(lookup), block)
      ensures current == block
      ensures var known := block.number in old(canon) && old(canon)[block.number] == Of(block);
              header == (if known then old(header) else block) && fast == if known then old(fast) else block
    {
      var updateHeads := !(block.number in canon && canon[block.number] == Of(block));
      canon, lookup := canon[block.number := Of(block)], WithTxs(lookup, block);
      if updateHeads {
        header, fast := block, block;
      }
      current := block;
    }

    /** Writes the new branch from its oldest block up, all but the last. */
    method WriteBranch(old_: Block, new_: Block, common: Block, newChain: seq<Block>)
      returns (added: seq<nat>, ghost b: Block)
      requires IsGenesis(genesis) && Rooted(old_, genesis) && Rooted(new_, genesis) && current == old_ && NoRepeat(old_)
      requires LowestCommon(old_, new_, common) && newChain == Branch(new_, common.number)
      requires Prefix(canon, old_) && Tall(canon, top) && LookedUp(lookup, old_)
      modifies `canon, `lookup, `current, `header, `fast
      ensures b == if |newChain| == 0 then new_ else new_.parent.block
      ensures Rooted(b, genesis) && common.number <= b.number && At(b, common.number) == Of(common)
      ensures Prefix(canon, b) && Tall(canon, Max(top, b.number)) && Mixed(lookup, b, old_)
      ensures forall tx :: tx in added <==> Above(b, common.number, tx)
      ensures |newChain| >= 2 ==> current == b
      ensures |newChain| < 2 ==> unchanged(this)
      ensures forall n :: n in canon ==>
                  (n in old(canon) && canon[n] == old(canon)[n]) || (n <= new_.number && canon[n] == At(new_, n))
    {
      hide At, Rooted, Branch, Above, OnChain, NoRepeat, TxNumber, LookedUp, Mixed, WithTxs, Prefix, Tall;
      BranchIs(new_, genesis, common.number);
      MixedStarts(lookup, old_, genesis, common);
      PrefixBelow(canon, old_, genesis, common);
      AtNumber(new_, genesis, common.number);
      SelfAt(common);
      SelfAt(new_);
      BranchEmpty(common);
      TallMax(canon, old_, top, common);
      ghost var c0 := canon;
      added, b := [], common;
      var i := |newChain| - 1;
      if i >= 0 { BranchStep(new_, genesis, common, i); }
      while i >= 1
        invariant i < |newChain| || |newChain| == 0
        invariant |newChain| > 0 ==> i >= 0 && newChain[i].parent == Of(b)
        invariant b.number == common.number + (|newChain| - 1 - i) || |newChain| == 0
        invariant |newChain| == 0 ==> b == common && i == -1
        invariant Rooted(b, genesis) && common.number <= b.number && At(b, common.number) == Of(common)
        invariant Prefix(canon, b) && Tall(canon, Max(top, b.number)) && Mixed(lookup, b, old_)
        invariant forall tx :: tx in added <==> Above(b, common.number, tx)
        invariant i < |newChain| - 1 ==> current == b
        invariant i == |newChain| - 1 ==> unchanged(this)
        invariant forall n :: n in canon ==>
                    (n in c0 && canon[n] == c0[n]) || (n <= new_.number && canon[n] == At(new_, n))
        decreases i
      {
        BranchStep(new_, genesis, common, i);
        BranchStep(new_, genesis, common, i - 1);
        MixedGrows(lookup, b, old_, newChain[i]);
        PrefixGrows(canon, b, newChain[i], genesis);
        TallGrows(canon, Max(top, b.number), newChain[i]);
        AboveGrows(b, common.number, newChain[i], genesis);
        WriteHeadBlock(newChain[i]);
        added := added + newChain[i].txs;
        b := newChain[i];
        i := i - 1;
      }
    }

    /** The numbers indexed above `number`, up to the first gap. */
    method NumbersAbove(number: nat, ghost last: nat) returns (dels: set<nat>)
      requires Tall(canon, last) && number <= last
      ensures forall n :: n in dels <==> number < n && n in canon
    {
      dels := {};
      var i: nat := number + 1;
      while i in canon
        invariant number < i && forall n :: n in dels <==> number < n < i
        invariant i <= last + 1
        decreases last + 1 - i
      {
        dels := dels + {i};
        i := i + 1;
      }
    }

    /** `reorg`: moves index and lookups from the branch of `old_` to that of `new_`, except for
        `new_` itself. */
    method Reorganise(old_: Block, new_: Block) returns (ok: bool, ghost b: Block)
      requires IsGenesis(genesis) && Rooted(old_, genesis) && Rooted(new_, genesis) && current == old_ && NoRepeat(old_)
      requires Prefix(canon, old_) && Tall(canon, top) && LookedUp(lookup, old_) && new_.parent != Of(old_)
      modifies `canon, `lookup, `current, `header, `fast
      ensures Tree(blocks, td, genesis) && old_ in blocks && new_ in blocks ==> ok
      ensures !ok ==> unchanged(this)
      ensures ok ==> b == new_ || new_.parent == Of(b)
      ensures ok ==> Rooted(b, genesis) && Prefix(canon, b) && LookedUp(lookup, b)
      ensures ok ==> Tall(canon, if Forks(old_, new_) then b.number else old_.number)
      ensures ok && b != new_ ==> !(new_.number in canon && canon[new_.number] == Of(new_))
      ensures ok && b == new_ ==>
                  && header == old(header) && fast == old(fast) && new_.number <= old_.number
                  && At(old_, new_.number) == Of(new_)
      ensures ok && Forks(old_, new_) ==> b != new_
      ensures ok && At(old_, new_.number) == Of(new_) ==> b == new_
      ensures ok ==> forall n :: n in canon ==>
                  (n in old(canon) && canon[n] == old(canon)[n]) || (n <= new_.number && canon[n] == At(new_, n))
    {
      hide Tree, At, Rooted, Branch, Above, OnChain, NoRepeat, TxNumber, LookedUp, Mixed, Without, Prefix, Tall;
      hide Forks, LowestCommon;
      var common, deleted, oldChain, newChain;
      b := new_;
      ok, common, deleted, oldChain, newChain := FindSplit(old_, new_);
      if !ok {
        return;
      }
      SplitShape(old_, new_, genesis, common);
      TallMax(canon, old_, top, common);
      var added;
      added, b := WriteBranch(old_, new_, common, newChain);
      var gone := TxDifference(deleted, added);
      MixedEnds(lookup, b, old_, genesis, common, gone);
      ghost var canon0 := canon;
      var dels := NumbersAbove(current.number, Max(top, b.number));
      CutAbove(canon, Max(top, b.number), b, current.number, dels);
      if |newChain| == 1 { NotThere(canon0, dels, old_, new_, b, current.number, common, genesis); }
      canon, lookup := canon - dels, Without(lookup, gone);
      assert forall n :: n in canon ==> n in canon0 && canon[n] == canon0[n];
    }

    /** What every change of head keeps, whatever the fork choice. */
    ghost predicate Linked()
      reads this
    {
      && Tree(blocks, td, genesis) && current in blocks && NoneRepeats(blocks)
      && Prefix(canon, current) && Tall(canon, top) && LookedUp(lookup, current) && Indexes(canon, blocks)
    }

    /** `writeKnownBlock`, and the change of head in `writeBlockWithState`. The lookups are
        always those of the new chain; the index has stale entries above the new head exactly
        when the last number says so. */
    method WriteKnownBlock(block: Block)
      requires Linked() && block in blocks
      modifies `canon, `lookup, `current, `header, `fast, `top
      ensures Linked() && current == block && top == NextTop(old(top), old(current), block)
      ensures Canonical(canon, block) <==> top == block.number
      ensures old(Canonical(canon, current)) ==>
                (Canonical(canon, block) <==> Forks(old(current), block) || old(current).number <= block.number)
      ensures && At(old(current), block.number) != Of(block)
              && (block.parent == Of(old(current)) ==> !Leads(old(canon), block)) ==>
                header == block && fast == block
      ensures block == old(current) ==> header == old(header) && fast == old(fast)
    {
      hide Tree, At, Rooted, LookedUp, Prefix, Tall, Forks, NoRepeat, NoneRepeats, Indexes, Canonical, WithTxs;
      hide TotalDifficulty;
      ghost var old_, canon0, top0, b := current, canon, top, current;
      HeadFacts(blocks, td, genesis, current);
      HeadFacts(blocks, td, genesis, block);
      ExactIff(canon, current, top);
      if block.parent != Of(current) {
        var ok;
        ok, b := Reorganise(current, block);
        assert ok;
        StepHeight(block, b, genesis);
        ExactIff(canon, b, if Forks(old_, block) then b.number else old_.number);
        TallGrows(canon, if Forks(old_, block) then b.number else old_.number, block);
        top := if Forks(old_, block) then block.number else Max(old_.number, block.number);
      } else {
        StepHeight(block, b, genesis);
        TallGrows(canon, top, block);
        top := Max(top, block.number);
      }
      LookupsGrow(lookup, b, block);
      PrefixGrows(canon, b, block, genesis);
      SelfAt(old_);
      PrefixLeads(canon, b);
      StillIndexes(canon0, canon, blocks, td, genesis, block);
      ExactIff(canon[block.number := Of(block)], block, top);
      WriteHeadBlock(block);
    }

    ghost predicate Valid()
      reads this
    {
      Linked() && Heaviest(blocks, current) && header == current && fast == current
    }

    constructor (genesis: Block)
      requires IsGenesis(genesis)
      ensures Valid() && this.genesis == genesis && blocks == {genesis} && current == genesis && top == 0
    {
      this.genesis, blocks, td := genesis, {genesis}, map[genesis := genesis.difficulty];
      canon, lookup, top := map[0 := Of(genesis)], WithTxs(map[], genesis), 0;
      current, header, fast := genesis, genesis, genesis;
    }

    /** The fork choice of `writeBlockWithState`, for a block that the engine and the processor
        accepted. */
    method WriteBlock(block: Block, keepCurrent: bool, keepBlock: bool) returns (r: Status)
      requires Valid() && Extends(block, blocks) && NoRepeat(block)
      modifies this
      ensures Valid()
      ensures r == NoParent <==> !(block.parent.Of? && block.parent.block in old(blocks))
      ensures r == NoParent ==> unchanged(this)
      ensures r != NoParent ==> blocks == old(blocks) + {block}
      ensures r == Canon ==> current == block && top == NextTop(old(top), old(current), block)
      ensures r != Canon ==> unchanged(`canon) && unchanged(`lookup) && unchanged(`current) && unchanged(`top)
      // A coin only decides between equals of the same length, none of them to be preserved.
      ensures r != NoParent && Wins(block, old(current), keepCurrent, keepBlock, false) ==> r == Canon
      ensures r != NoParent && !Wins(block, old(current), keepCurrent, keepBlock, true) ==> r == Side
    {
      hide Tree, At, Rooted, LookedUp, Prefix, Tall, Forks, NoRepeat, NoneRepeats, Indexes, Canonical, Heaviest;
      hide TotalDifficulty;
      if !(block.parent.Of? && block.parent.block in blocks) {
        return NoParent;
      }
      var parent := block.parent.block;
      BlockStored(blocks, td, genesis, canon, block);
      TreeHas(blocks, td, genesis, parent);
      TreeHas(blocks, td, genesis, current);
      var externTd, localTd := block.difficulty + td[parent], td[current];
      HeaviestWith(blocks, td, genesis, canon, current, block);
      SelfAt(current);
      ghost var old_ := current;
      blocks, td := blocks + {block}, td[block := externTd];
      var coin: bool := *;
      if Chooses(externTd, block.number, localTd, current.number, keepCurrent, keepBlock, coin) {
        WriteKnownBlock(block);
        r := Canon;
      } else {
        r := Side;
      }
    }
  }

  lemma SplitShape(old_: Block, new_: Block, genesis: Block, c: Block)
    requires IsGenesis(genesis) && Rooted(old_, genesis) && Rooted(new_, genesis) && LowestCommon(old_, new_, c)
    requires new_.parent != Of(old_)
    ensures c.number <= old_.number && At(old_, c.number) == Of(c)
    ensures |Branch(new_, c.number)| >= 2 <==> Forks(old_, new_)
    ensures |Branch(new_, c.number)| == 0 <==> c == new_
    ensures At(old_, new_.number) == Of(new_) ==> c == new_
    ensures |Branch(new_, c.number)| == 0 ==> new_.number <= old_.number && At(old_, new_.number) == Of(new_)
    ensures |Branch(new_, c.number)| > 0 ==> new_ != c && new_.parent.Of? && new_.parent.block.number == new_.number - 1
    ensures |Branch(new_, c.number)| == 1 ==> new_.parent == Of(c) && c.number < old_.number
  {
    hide Rooted, At, Branch;
    BranchIs(new_, genesis, c.number);
    SelfAt(new_);
    SelfAt(old_);
    NumberedBy(new_, genesis);
    if new_.number > 0 {
      AtParent(new_, genesis, new_.number - 1);
      if c.number + 2 <= new_.number && new_.number - 1 <= old_.number {
        assert At(old_, new_.number - 1) != At(new_, new_.number - 1);
      }
      if new_.number - 1 > old_.number {
        AtBeyond(old_, genesis, new_.number - 1);
      }
    }
    if c == new_ && new_.number > 0 {
      AtParent(old_, genesis, new_.number - 1);
    }
    if new_.number > old_.number {
      AtBeyond(old_, genesis, new_.number);
    }
  }

  lemma {:induction false} AtBeyond(b: Block, genesis: Block, n: nat)
    requires IsGenesis(genesis) && Rooted(b, genesis) && n > b.number
    ensures At(b, n) == Zero
  {
    if b != genesis {
      AtBeyond(b.parent.block, genesis, n);
    }
  }

  lemma BranchEmpty(b: Block)
    ensures Branch(b, b.number) == [] && forall tx :: !Above(b, b.number, tx)
  {}

  /** One step down a chain. */
  lemma WalkDown(b: Block, genesis: Block, o: Block)
    requires IsGenesis(genesis) && Rooted(b, genesis) && 0 < o.number <= b.number && At(b, o.number) == Of(o)
    ensures o != genesis && o.parent.Of? && o.parent.block.number == o.number - 1 && At(b, o.number - 1) == o.parent
    ensures Branch(b, o.number - 1) == Branch(b, o.number) + [o]
    ensures forall tx :: Above(b, o.number - 1, tx) <==> Above(b, o.number, tx) || tx in o.txs
  {
    BranchGrows(b, genesis, o.number - 1);
    AtNumber(b, genesis, o.number);
    NumberedBy(o, genesis);
    AtParent(b, genesis, o.number - 1);
  }

  lemma TallMax(canon: map<nat, Hash>, old_: Block, top: nat, c: Block)
    requires Prefix(canon, old_) && Tall(canon, top) && c.number <= old_.number
    ensures old_.number <= top && Max(top, c.number) == top
  {
    assert old_.number in canon;
  }

  lemma TallGrows(canon: map<nat, Hash>, top: nat, b: Block)
    requires Tall(canon, top) && b.number <= top + 1
    ensures Tall(canon[b.number := Of(b)], Max(top, b.number))
  {}

  lemma AboveGrows(b: Block, n: nat, next: Block, genesis: Block)
    requires next.parent == Of(b) && next.number == b.number + 1 && n <= b.number && At(b, n).Of?
    requires At(b, n).block.number == n
    ensures At(next, n) == At(b, n)
    ensures forall tx :: Above(next, n, tx) <==> tx in next.txs || Above(b, n, tx)
  {}

  lemma BranchStep(b: Block, genesis: Block, c: Block, i: nat)
    requires IsGenesis(genesis) && Rooted(b, genesis) && c.number < b.number && At(b, c.number) == Of(c)
    requires i < b.number - c.number
    ensures |Branch(b, c.number)| == b.number - c.number && Rooted(Branch(b, c.number)[i], genesis)
    ensures Branch(b, c.number)[i].number == b.number - i && At(b, b.number - i) == Of(Branch(b, c.number)[i])
    ensures Branch(b, c.number)[i].parent == if i == b.number - c.number - 1 then Of(c)
                                             else Of(Branch(b, c.number)[i + 1])
    ensures Branch(b, c.number)[0] == b
  {
    BranchIs(b, genesis, c.number);
    AtNumber(b, genesis, b.number - i);
    AtParent(b, genesis, b.number - i - 1);
  }

  /** Deleting what is above `number` keeps everything up to it. */
  lemma CutAbove(canon: map<nat, Hash>, top: nat, b: Block, number: nat, dels: set<nat>)
    requires Prefix(canon, b) && Tall(canon, top) && b.number <= number <= top
    requires forall n :: n in dels <==> number < n && n in canon
    ensures Prefix(canon - dels, b) && Tall(canon - dels, number)
  {}

  /** A single new block is not in the index before it is written. */
  lemma NotThere(canon: map<nat, Hash>, dels: set<nat>, old_: Block, new_: Block, b: Block, number: nat, c: Block,
                 genesis: Block)
    requires new_.parent == Of(b) && b == c && LowestCommon(old_, new_, c) && number == old_.number
    requires Prefix(canon, old_)
    requires IsGenesis(genesis) && Rooted(new_, genesis) && new_.number == b.number + 1
    requires forall n :: n in dels <==> number < n && n in canon
    ensures !(new_.number in canon - dels && (canon - dels)[new_.number] == Of(new_))
  {
    SelfAt(new_);
  }

  ghost predicate NoneRepeats(blocks: set<Block>) {
    forall b :: b in blocks ==> NoRepeat(b)
  }

  ghost predicate Indexes(canon: map<nat, Hash>, blocks: set<Block>) {
    forall n :: n in canon ==> canon[n].Of? && canon[n].block in blocks
  }

  ghost predicate Leads(canon: map<nat, Hash>, b: Block) {
    b.number in canon && canon[b.number] == Of(b)
  }

  lemma PrefixLeads(canon: map<nat, Hash>, b: Block)
    requires Prefix(canon, b)
    ensures Leads(canon, b)
  {}

  lemma HeadFacts(blocks: set<Block>, td: map<Block, nat>, genesis: Block, b: Block)
    requires Tree(blocks, td, genesis) && b in blocks && NoneRepeats(blocks)
    ensures IsGenesis(genesis) && Rooted(b, genesis) && NoRepeat(b) && b.parent != Of(b)
  {
    TreeHas(blocks, td, genesis, b);
    NumberedBy(b, genesis);
  }

  lemma StepHeight(block: Block, b: Block, genesis: Block)
    requires IsGenesis(genesis) && Rooted(block, genesis) && (b == block || block.parent == Of(b))
    ensures block.number == if b == block then b.number else b.number + 1
  {
    NumberedBy(block, genesis);
  }

  lemma StillIndexes(canon0: map<nat, Hash>, canon: map<nat, Hash>, blocks: set<Block>, td: map<Block, nat>,
                     genesis: Block, block: Block)
    requires Indexes(canon0, blocks) && Tree(blocks, td, genesis) && block in blocks
    requires forall n :: n in canon ==>
                (n in canon0 && canon[n] == canon0[n]) || (n <= block.number && canon[n] == At(block, n))
    ensures Indexes(canon[block.number := Of(block)], blocks)
  {
    forall n | n in canon && n <= block.number && canon[n] == At(block, n)
      ensures canon[n].Of? && canon[n].block in blocks
    {
      AncestorStored(blocks, td, genesis, block, n);
    }
  }

  /** A header the engine accepted: on a known parent the number follows. */
  predicate Extends(block: Block, blocks: set<Block>) {
    block.parent.Of? && block.parent.block in blocks ==>
      block.number == block.parent.block.number + 1 && block.difficulty > 0
  }

  predicate Wins(block: Block, head: Block, keepCurrent: bool, keepBlock: bool, coin: bool) {
    Chooses(TotalDifficulty(block), block.number, TotalDifficulty(head), head.number, keepCurrent, keepBlock, coin)
  }

  lemma BlockStored(blocks: set<Block>, td: map<Block, nat>, genesis: Block, canon: map<nat, Hash>, block: Block)
    requires Tree(blocks, td, genesis) && NoneRepeats(blocks) && Indexes(canon, blocks) && NoRepeat(block)
    requires Extends(block, blocks)
    requires block.parent.Of? && block.parent.block in blocks
    ensures block.parent.block in td && td[block.parent.block] + block.difficulty == TotalDifficulty(block)
    ensures Tree(blocks + {block}, td[block := block.difficulty + td[block.parent.block]], genesis)
    ensures NoneRepeats(blocks + {block}) && Indexes(canon, blocks + {block}) && Rooted(block, genesis)
  {
    hide Tree, NoRepeat;
    TreeHas(blocks, td, genesis, block.parent.block);
    TreeWith(blocks, td, genesis, block);
  }

  lemma TreeWith(blocks: set<Block>, td: map<Block, nat>, genesis: Block, block: Block)
    requires Tree(blocks, td, genesis) && block.parent.Of? && block.parent.block in blocks && Rooted(block, genesis)
    ensures Tree(blocks + {block}, td[block := TotalDifficulty(block)], genesis)
  {
    hide Tree, Rooted, TotalDifficulty;
    var more := map[block := TotalDifficulty(block)];
    assert td[block := TotalDifficulty(block)] == td + more;
    TreeExtends(blocks, td, genesis, {block}, more);
  }

  /** The chosen head stays the heaviest block, and a block that wins is new to the index or
      the head itself. */
  lemma HeaviestWith(blocks: set<Block>, td: map<Block, nat>, genesis: Block, canon: map<nat, Hash>, head: Block,
                     block: Block)
    requires Tree(blocks, td, genesis) && Heaviest(blocks, head) && Indexes(canon, blocks) && Rooted(block, genesis)
    ensures Ahead(block, head) ==> Heaviest(blocks + {block}, block)
    ensures Ahead(head, block) ==> Heaviest(blocks + {block}, head)
    ensures TotalDifficulty(block) >= TotalDifficulty(head) && At(head, block.number) == Of(block) ==> block == head
    ensures block.parent == Of(head) ==> !Leads(canon, block)
  {
    TreeHas(blocks, td, genesis, head);
    if At(head, block.number) == Of(block) {
      if block.number <= head.number {
        HeavierAbove(head, genesis, block.number);
      } else {
        AtBeyond(head, genesis, block.number);
      }
    }
    if block.parent == Of(head) {
      NumberedBy(block, genesis);
      assert TotalDifficulty(block) > TotalDifficulty(head);
    }
  }

  /** What a run of writes stores: every accepted block on a stored parent. */
  ghost function BlocksAfter(genesis: Block, bs: seq<Block>): set<Block> {
    if bs == [] then {genesis}
    else
      var before, b := BlocksAfter(genesis, bs[..|bs| - 1]), bs[|bs| - 1];
      if Extends(b, before) && b.parent.Of? && b.parent.block in before then before + {b} else before
  }

  /** Over any run of block writes from genesis, whatever the coins, the head is the heaviest
      block, the index follows its ancestry up to it and the lookups are exactly those of its
      chain. */
  method ImportBlocks(genesis: Block, bs: seq<Block>) returns (bc: BlockChain)
    requires IsGenesis(genesis) && forall b :: b in bs ==> NoRepeat(b)
    ensures bc.Valid() && bc.genesis == genesis && bc.blocks == BlocksAfter(genesis, bs)
  {
    hide NoRepeat, Heaviest, Tree, Prefix, Tall, LookedUp, Indexes, NoneRepeats, NextTop, Wins;
    bc := new BlockChain(genesis);
    for i := 0 to |bs|
      invariant bc.Valid() && bc.genesis == genesis && bc.blocks == BlocksAfter(genesis, bs[..i]) && fresh(bc)
    {
      assert bs[..i + 1][..i] == bs[..i];
      if Extends(bs[i], bc.blocks) {
        var keepCurrent: bool, keepBlock: bool := *, *;
        var r := bc.WriteBlock(bs[i], keepCurrent, keepBlock);
      }
    }
    assert bs[..|bs|] == bs;
  }

  /** It happens: a chain writes two light blocks and then one heavy block beside them, and
      keeps the index of the second light one. */
  method StaleIndex() returns (bc: BlockChain)
    ensures bc.Valid() && bc.top > bc.current.number && !Canonical(bc.canon, bc.current)
  {
    hide NoRepeat, Heaviest, Tree, Prefix, Tall, LookedUp, Indexes, NoneRepeats, Canonical;
    var g := Block(Zero, 0, 1, [], 0);
    var a1 := Block(Of(g), 1, 1, [], 0);
    var a2 := Block(Of(a1), 2, 1, [], 0);
    var b1 := Block(Of(g), 1, 3, [], 0);
    Repeatless(g, a1, a2, b1);
    assert TotalDifficulty(g) == 1 && TotalDifficulty(a1) == 2 && TotalDifficulty(a2) == 3 && TotalDifficulty(b1) == 4;
    bc := new BlockChain(g);
    var r := bc.WriteBlock(a1, false, false);
    r := bc.WriteBlock(a2, false, false);
    assert bc.current == a2 && bc.top == 2;
    assert At(a2, 0) == At(a1, 0) == Of(g);
    r := bc.WriteBlock(b1, false, false);
    ExactIff(bc.canon, bc.current, bc.top);
  }

  lemma Repeatless(g: Block, a1: Block, a2: Block, b1: Block)
    requires g.txs == [] && a1.txs == [] && a2.txs == [] && b1.txs == []
    requires g.parent == Zero && a1.parent == Of(g) && a2.parent == Of(a1) && b1.parent == Of(g)
    ensures NoRepeat(a1) && NoRepeat(a2) && NoRepeat(b1)
  {}

  // ----- The pool's own walk -----

  datatype Reinjection = Abandoned | Reinject(txs: seq<nat>)

  const MAX_REORG_DEPTH := 64

  /** The pool compares branches unless it is new, the head moved by one block or too far. */
  predicate Compares(oldHead: Hash, newHead: Block) {
    oldHead.Of? && oldHead != newHead.parent && Distance(oldHead.block.number, newHead.number) <= MAX_REORG_DEPTH
  }

  /** Branches are compared up to a distance of 64 in either direction. */
  lemma ComparesIff(oldHead: Block, newHead: Block)
    ensures Compares(Of(oldHead), newHead) <==>
              Of(oldHead) != newHead.parent && -64 <= oldHead.number - newHead.number <= 64
    ensures !Compares(Zero, newHead)
  {}

  /** The walk in the pool's `reset`: what was on the old chain and is not on the new one
      returns to the pool. */
  method Reinjected(blocks: set<Block>, oldHead: Hash, newHead: Block, ghost td: map<Block, nat>, ghost genesis: Block)
    returns (r: Reinjection)
    requires IsGenesis(genesis) && Rooted(newHead, genesis) && newHead in blocks
    requires (oldHead.Of? ==> Rooted(oldHead.block, genesis))
    ensures Tree(blocks, td, genesis) && (oldHead.Of? ==> oldHead.block in blocks) ==> r.Reinject?
    ensures r.Reinject? && !Compares(oldHead, newHead) ==> r.txs == []
    ensures r.Reinject? && Compares(oldHead, newHead) && NoRepeat(oldHead.block) ==>
              forall tx :: tx in r.txs <==> OnChain(oldHead.block, tx) && !OnChain(newHead, tx)
    // A descendant abandons nothing.
    ensures r.Reinject? && oldHead.Of? && At(newHead, oldHead.block.number) == oldHead ==> r.txs == []
  {
    hide Tree, At, Rooted, Branch, Above, TotalDifficulty, OnChain, NoRepeat;
    if !Compares(oldHead, newHead) {
      return Reinject([]);
    }
    var old_ := oldHead.block;
    if old_ !in blocks {
      return Abandoned;
    }
    var rem, add := old_, newHead;
    var discarded: seq<nat>, included: seq<nat> := [], [];
    SelfAt(old_);
    SelfAt(newHead);
    BranchEmpty(old_);
    BranchEmpty(newHead);
    ghost var stored := Tree(blocks, td, genesis);
    while rem.number > add.number
      invariant newHead.number <= rem.number <= old_.number || rem == old_
      invariant At(old_, rem.number) == Of(rem) && rem.number <= old_.number && rem in blocks
      invariant forall tx :: tx in discarded <==> Above(old_, rem.number, tx)
      decreases rem.number
    {
      discarded := discarded + rem.txs;
      WalkDown(old_, genesis, rem);
      if stored { TreeHas(blocks, td, genesis, rem); }
      if rem.parent.block !in blocks {
        return Abandoned;
      }
      rem := rem.parent.block;
    }
    while add.number > rem.number
      invariant rem.number <= add.number <= newHead.number && At(newHead, add.number) == Of(add) && add in blocks
      invariant forall tx :: tx in included <==> Above(newHead, add.number, tx)
      decreases add.number
    {
      included := included + add.txs;
      WalkDown(newHead, genesis, add);
      if stored { TreeHas(blocks, td, genesis, add); }
      if add.parent.block !in blocks {
        return Abandoned;
      }
      add := add.parent.block;
    }
    while rem != add
      invariant rem.number == add.number <= old_.number && add.number <= newHead.number && rem in blocks
      invariant add in blocks
      invariant At(old_, rem.number) == Of(rem) && At(newHead, add.number) == Of(add)
      invariant forall tx :: tx in discarded <==> Above(old_, rem.number, tx)
      invariant forall tx :: tx in included <==> Above(newHead, add.number, tx)
      invariant forall k: nat :: rem.number < k <= old_.number && k <= newHead.number ==> At(old_, k) != At(newHead, k)
      decreases rem.number
    {
      RootAgrees(genesis, old_, newHead);
      assert rem.number > 0;
      discarded, included := discarded + rem.txs, included + add.txs;
      WalkDown(old_, genesis, rem);
      WalkDown(newHead, genesis, add);
      if stored {
        TreeHas(blocks, td, genesis, rem);
        TreeHas(blocks, td, genesis, add);
      }
      if rem.parent.block !in blocks || add.parent.block !in blocks {
        return Abandoned;
      }
      rem, add := rem.parent.block, add.parent.block;
    }
    var reinject := TxDifference(discarded, included);
    r := Reinject(reinject);
    if NoRepeat(old_) {
      OnlyOnOld(old_, newHead, genesis, rem, reinject);
    }
    if reinject != [] {
      if old_.number > newHead.number {
        AtBeyond(newHead, genesis, old_.number);
      }
      assert reinject[0] in reinject;
    }
  }

  lemma OnlyOnOld(old_: Block, new_: Block, genesis: Block, c: Block, txs: seq<nat>)
    requires IsGenesis(genesis) && Rooted(old_, genesis) && Rooted(new_, genesis) && LowestCommon(old_, new_, c)
    requires NoRepeat(old_)
    requires forall tx :: tx in txs <==> Above(old_, c.number, tx) && !Above(new_, c.number, tx)
    ensures forall tx :: tx in txs <==> OnChain(old_, tx) && !OnChain(new_, tx)
  {
    hide OnChain, Above, NoRepeat, TxNumber, Rooted, At;
    forall tx: nat ensures tx in txs <==> OnChain(old_, tx) && !OnChain(new_, tx) {
      SplitChain(old_, genesis, c.number, tx);
      SplitChain(new_, genesis, c.number, tx);
    }
  }
}
