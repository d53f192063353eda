/** Fast ways to an ancestor: through the canonical index, through a growing cache of hashes,
    and in strides for header replies. All agree with the plain parent walk. */
module Ancestry {
  import opened Types
  import opened Chain
  import opened HeaderChain

  predicate IsCanonical(canon: map<nat, Hash>, b: Block) {
    b.number in canon && canon[b.number] == Of(b)
  }

  /** The steps from `b` down to its first canonical ancestor, the block itself included. */
  ghost function StepsOff(canon: map<nat, Hash>, b: Block): nat {
    if IsCanonical(canon, b) || b.parent.Zero? then 0 else 1 + StepsOff(canon, b.parent.block)
  }

  ghost predicate Indexed(hc: HeaderChain)
    reads hc
  {
    Tree(hc.headers, hc.td, hc.genesis) && Canonical(hc.canon, hc.current) && hc.current in hc.headers
  }

  lemma Known(headers: set<Block>, td: map<Block, nat>, genesis: Block, b: Block)
    requires Tree(headers, td, genesis) && b in headers
    ensures IsGenesis(genesis) && Rooted(b, genesis)
    ensures b.number > 0 ==> b.parent.Of? && b.parent.block in headers && b.parent.block.number == b.number - 1
    ensures b.number == 0 ==> b == genesis
  {
    TreeHas(headers, td, genesis, b);
    NumberedBy(b, genesis);
  }

  lemma CanonicalIsStored(hc: HeaderChain, b: Block)
    requires Indexed(hc) && IsCanonical(hc.canon, b)
    ensures b in hc.headers && Rooted(hc.current, hc.genesis) && IsGenesis(hc.genesis)
    ensures b.number <= hc.current.number && At(hc.current, b.number) == Of(b)
  {
    CanonicalAt(hc.canon, hc.current, b.number);
    AncestorStored(hc.headers, hc.td, hc.genesis, hc.current, b.number);
    TreeHas(hc.headers, hc.td, hc.genesis, hc.current);
  }

  /** From a canonical block, the index answers at once. */
  lemma IndexAnswers(hc: HeaderChain, b: Block, k: nat)
    requires Indexed(hc) && IsCanonical(hc.canon, b) && k <= b.number
    ensures b.number - k in hc.canon && hc.canon[b.number - k] == Walk(Of(b), k) && Walk(Of(b), k).Of?
  {
    hide Tree, Canonical, At, Walk, TotalDifficulty, Rooted;
    CanonicalIsStored(hc, b);
    CanonicalAt(hc.canon, hc.current, b.number - k);
    AtAt(hc.current, hc.genesis, b.number, b.number - k);
    AtNumber(hc.current, hc.genesis, b.number);
    WalkIsAt(b, hc.genesis, k);
  }

  /** Genesis is canonical, so every stored block has a canonical ancestor. */
  lemma GenesisIsCanonical(hc: HeaderChain)
    requires Indexed(hc)
    ensures IsCanonical(hc.canon, hc.genesis)
  {
    TreeHas(hc.headers, hc.td, hc.genesis, hc.current);
    RootIsGenesis(hc.current, hc.genesis);
    CanonicalAt(hc.canon, hc.current, 0);
  }

  lemma IndexHasBlocks(hc: HeaderChain, n: nat)
    requires Indexed(hc)
    ensures n in hc.canon ==> hc.canon[n] != Zero
  {
    if n in hc.canon {
      TreeHas(hc.headers, hc.td, hc.genesis, hc.current);
      CanonicalAt(hc.canon, hc.current, n);
      AtNumber(hc.current, hc.genesis, n);
    }
  }

  /** `GetHeader` finds a header stored under this hash and number. */
  predicate Has(headers: set<Block>, h: Hash, n: nat) {
    h.Of? && h.block in headers && h.block.number == n
  }

  /** `ReadCanonicalHash`: the zero hash for a number without a canonical block. */
  function ReadCanonical(canon: map<nat, Hash>, n: nat): Hash {
    if n in canon then canon[n] else Zero
  }

  /** `GetAncestor`. A non-zero answer is the plain walk; for a stored block the answer is
      non-zero exactly when the ancestor exists and the budget lasts, and the budget pays for
      the steps taken outside the canonical chain. The zero hash passes for the block of any
      number above the chain, and is answered from the index. */
  method GetAncestor(hc: HeaderChain, hash: Hash, number: nat, ancestor: nat, budget: nat)
    returns (h: Hash, n: nat, left: nat)
    requires Indexed(hc)
    ensures left <= budget
    ensures h != Zero ==> ancestor <= number && n == number - ancestor
    ensures h != Zero && hash != Zero ==> h == Walk(hash, ancestor)
    ensures hash == Zero ==>
                h == if 1 < ancestor <= number && number !in hc.canon then ReadCanonical(hc.canon, number - ancestor)
                     else Zero
    ensures h != Zero && Has(hc.headers, hash, number) ==> Has(hc.headers, h, n)
    ensures Has(hc.headers, hash, number) ==>
              (h != Zero <==>
                 ancestor <= number && (ancestor <= 1 || budget >= Min(ancestor, StepsOff(hc.canon, hash.block))))
    ensures Has(hc.headers, hash, number) && 1 < ancestor <= number ==>
              budget - left == Min(budget, Min(ancestor, StepsOff(hc.canon, hash.block)))
    ensures ancestor > number || ancestor <= 1 ==> left == budget
  {
    hide Tree, Canonical, Rooted, At, TotalDifficulty;
    h, n, left := Zero, 0, budget;
    if ancestor > number {
      return;
    }
    ghost var has := Has(hc.headers, hash, number);
    if has {
      Known(hc.headers, hc.td, hc.genesis, hash.block);
      WalkIsAt(hash.block, hc.genesis, ancestor);
      AncestorStored(hc.headers, hc.td, hc.genesis, hash.block, number - ancestor);
    }
    if ancestor == 1 {
      if Has(hc.headers, hash, number) {
        return hash.block.parent, number - 1, budget;
      }
      return;
    }
    var todo: nat := ancestor;
    h, n := hash, number;
    GenesisIsCanonical(hc);
    while todo != 0
      invariant todo <= ancestor && n == number - (ancestor - todo) && todo <= n && left == budget - (ancestor - todo)
      invariant left >= 0
      invariant Walk(h, todo) == Walk(hash, ancestor)
      invariant has ==>
                  && Has(hc.headers, h, n)
                  && StepsOff(hc.canon, hash.block) == (ancestor - todo) + StepsOff(hc.canon, h.block)
      invariant !has ==> h == hash && todo == ancestor
      decreases todo
    {
      IndexHasBlocks(hc, n);
      if ReadCanonical(hc.canon, n) == h {
        if h == Zero {
          return ReadCanonical(hc.canon, n - todo), n - todo, left;
        }
        CanonicalAt(hc.canon, hc.current, n);
        AncestorStored(hc.headers, hc.td, hc.genesis, hc.current, n);
        IndexAnswers(hc, h.block, todo);
        return hc.canon[n - todo], n - todo, left;
      }
      if has {
        Known(hc.headers, hc.td, hc.genesis, h.block);
      }
      if left == 0 {
        return Zero, 0, left;
      }
      left := left - 1;
      if !Has(hc.headers, h, n) {
        return Zero, 0, left;
      }
      todo, h, n := todo - 1, h.block.parent, n - 1;
    }
  }

  // ----- The hash function handed to the virtual machine -----

  /** The difference of two 64-bit numbers, as the machine computes it. */
  function Wrapped(x: int): nat {
    x % U64
  }

  lemma WrappedIs(x: int)
    requires -U64 <= x < U64
    ensures Wrapped(x) == if x >= 0 then x else x + U64
  {}

  /** `GetHashFn`: a closure over a growing cache of ancestor hashes. */
  class HashFn {
    const ref: Block
    var cache: seq<Hash>

    /** Entry `i` of the cache is `i + 1` parent steps away. */
    ghost predicate Valid()
      reads this
    {
      |cache| <= ref.number + 1 && forall i :: 0 <= i < |cache| ==> cache[i] == Walk(Of(ref), i + 1)
    }

    constructor (ref: Block)
      ensures Valid() && this.ref == ref && cache == []
    {
      this.ref, cache := ref, [];
    }

    /** Whatever was asked before, a non-zero answer is the hash of the ancestor with number
        `n`; once the parent of `ref` is stored the answer is zero only where there is none. */
    method Get(n: nat, headers: set<Block>, ghost td: map<Block, nat>, ghost genesis: Block) returns (h: Hash)
      requires Valid() && n < U64 && ref.number < U64 && Tree(headers, td, genesis) && Rooted(ref, genesis)
      modifies this
      ensures Valid()
      ensures h != Zero ==> n < ref.number && h == At(ref, n)
      ensures ref.parent.Of? && ref.parent.block in headers && n < ref.number ==> h == At(ref, n) && h != Zero
    {
      hide Tree, Rooted, At, TotalDifficulty, Walk, Wrapped;
      GenesisOf(headers, td, genesis);
      if |cache| == 0 {
        WalkOne(ref);
        cache := [ref.parent];
      }
      WalkEnds(ref, genesis);
      if n < ref.number {
        WalkIsAt(ref, genesis, ref.number - n);
      }
      WrappedIs(ref.number - n - 1);
      var idx := Wrapped(ref.number - n - 1);
      if idx < |cache| {
        return cache[idx];
      }
      var lastHash := cache[|cache| - 1];
      WrappedIs(ref.number - |cache|);
      var lastNumber := Wrapped(ref.number - |cache|);
      while true
        invariant Valid() && |cache| > 0 && lastHash == cache[|cache| - 1]
        invariant lastNumber == Wrapped(ref.number - |cache|)
        invariant n < ref.number ==> |cache| < ref.number - n
        decreases ref.number + 1 - |cache|
      {
        WrappedIs(ref.number - |cache|);
        if |cache| <= ref.number {
          CacheStep(ref, genesis, |cache|);
          if ref.parent.Of? && ref.parent.block in headers {
            CacheStored(headers, td, genesis, ref, |cache|);
          }
        }
        if !Has(headers, lastHash, lastNumber) {
          break;
        }
        var header := lastHash.block;
        cache := cache + [header.parent];
        lastHash := header.parent;
        lastNumber := Wrapped(header.number - 1);
        WrappedIs(header.number - 1);
        if n == lastNumber {
          return lastHash;
        }
      }
      h := Zero;
    }
  }

  lemma GenesisOf(headers: set<Block>, td: map<Block, nat>, genesis: Block)
    requires Tree(headers, td, genesis)
    ensures IsGenesis(genesis)
  {}

  lemma WalkOne(b: Block)
    ensures Walk(Of(b), 1) == b.parent
  {}

  /** Past the first block the walk is at the zero hash. */
  lemma WalkEnds(b: Block, genesis: Block)
    requires IsGenesis(genesis) && Rooted(b, genesis)
    ensures Walk(Of(b), b.number + 1) == Zero
  {
    WalkIsAt(b, genesis, b.number);
    RootIsGenesis(b, genesis);
    WalkAdd(Of(b), b.number, 1);
  }

  lemma CacheStep(ref: Block, genesis: Block, k: nat)
    requires IsGenesis(genesis) && Rooted(ref, genesis) && 1 <= k <= ref.number
    ensures Walk(Of(ref), k).Of? && Walk(Of(ref), k).block.number == ref.number - k
    ensures Walk(Of(ref), k).block.parent == Walk(Of(ref), k + 1)
  {
    WalkIsAt(ref, genesis, k);
    WalkAdd(Of(ref), k, 1);
  }

  lemma CacheStored(headers: set<Block>, td: map<Block, nat>, genesis: Block, ref: Block, k: nat)
    requires Tree(headers, td, genesis) && Rooted(ref, genesis) && ref.parent.Of? && ref.parent.block in headers
    requires 1 <= k <= ref.number
    ensures Walk(Of(ref), k).Of? && Walk(Of(ref), k).block in headers
  {
    NumberedBy(ref, genesis);
    WalkIsAt(ref, genesis, k);
    AncestorStored(headers, td, genesis, ref.parent.block, ref.number - k);
  }

  // ----- Header replies -----

  const MAX_HEADER_FETCH := 192
  const NON_CANONICAL_BUDGET := 100

  /** Consecutive headers are exactly `stride` parent steps apart, towards genesis if
      `reverse` and away from it otherwise. */
  ghost predicate Strided(reply: seq<Block>, stride: nat, reverse: bool) {
    forall i :: 0 <= i < |reply| - 1 ==>
      if reverse then Of(reply[i + 1]) == Walk(Of(reply[i]), stride)
      else Of(reply[i]) == Walk(Of(reply[i + 1]), stride)
  }

  /** There is no canonical block a stride beyond `last`. */
  ghost predicate OutOfRange(last: Block, stride: nat, reverse: bool, head: Block) {
    if reverse then last.number < stride else last.number + stride > head.number
  }

  /** One stride from a canonical block, by the index. */
  lemma CanonicalStride(hc: HeaderChain, b: Block, k: nat)
    requires Indexed(hc) && IsCanonical(hc.canon, b)
    ensures StepsOff(hc.canon, b) == 0
    ensures k <= b.number ==> Walk(Of(b), k).Of? && IsCanonical(hc.canon, Walk(Of(b), k).block)
    ensures b.number + k <= hc.current.number ==> b.number + k in hc.canon && hc.canon[b.number + k].Of?
    ensures b.number + k <= hc.current.number ==>
              IsCanonical(hc.canon, hc.canon[b.number + k].block) && Walk(hc.canon[b.number + k], k) == Of(b)
    ensures b.number + k > hc.current.number ==> b.number + k !in hc.canon
  {
    hide Tree, Canonical, Rooted, At, TotalDifficulty, Walk;
    CanonicalIsStored(hc, b);
    if k <= b.number {
      IndexAnswers(hc, b, k);
      CanonicalIsIndexed(hc, b.number - k);
    }
    if b.number + k <= hc.current.number {
      CanonicalIsIndexed(hc, b.number + k);
      IndexAnswers(hc, hc.canon[b.number + k].block, k);
    } else {
      CanonicalAt(hc.canon, hc.current, b.number + k);
    }
  }

  lemma CanonicalIsIndexed(hc: HeaderChain, n: nat)
    requires Indexed(hc)
    ensures n in hc.canon <==> n <= hc.current.number
    ensures n in hc.canon ==> Has(hc.headers, hc.canon[n], n) && IsCanonical(hc.canon, hc.canon[n].block)
  {
    CanonicalAt(hc.canon, hc.current, n);
    if n <= hc.current.number {
      AncestorStored(hc.headers, hc.td, hc.genesis, hc.current, n);
    }
  }

  lemma StridedMore(reply: seq<Block>, b: Block, stride: nat, reverse: bool)
    requires Strided(reply, stride, reverse)
    requires |reply| > 0 ==>
                if reverse then Of(b) == Walk(Of(reply[|reply| - 1]), stride)
                else Of(reply[|reply| - 1]) == Walk(Of(b), stride)
    ensures Strided(reply + [b], stride, reverse)
  {}

  /** Below the chain, or further from the index than the budget allows. */
  ghost predicate Stuck(canon: map<nat, Hash>, header: Block, skip: nat, budget: nat) {
    header.number < skip + 1 || budget < Min(skip + 1, StepsOff(canon, header))
  }

  /** The switch at the end of the gathering loop: the hash and number of the next header. */
  method Advance(hc: HeaderChain, header: Block, skip: nat, reverse: bool, budget: nat)
    returns (hash: Hash, number: nat, left: nat, unknown: bool)
    requires Indexed(hc) && header in hc.headers && skip < U64 && forall h :: h in hc.headers ==> h.number < U64
    ensures left <= budget
    ensures !unknown ==> Has(hc.headers, hash, number)
    ensures !unknown ==>
              if reverse then hash == Walk(Of(header), skip + 1) else Of(header) == Walk(hash, skip + 1)
    ensures IsCanonical(hc.canon, header) ==>
              left == budget && (unknown <==> OutOfRange(header, skip + 1, reverse, hc.current))
    ensures IsCanonical(hc.canon, header) && !unknown ==> IsCanonical(hc.canon, hash.block)
    // Off the canonical chain there is no way up, and the way down is as long as the budget.
    ensures !IsCanonical(hc.canon, header) ==>
              (unknown <==> !reverse || header.number < skip + 1
                            || (skip > 0 && Stuck(hc.canon, header, skip, budget)))
  {
    hide Tree, Canonical, Rooted, At, TotalDifficulty, StepsOff, Walk;
    hash, number, left, unknown := Of(header), header.number, budget, false;
    if IsCanonical(hc.canon, header) {
      CanonicalStride(hc, header, skip + 1);
    }
    if reverse {
      var ancestor := (skip + 1) % U64;
      if ancestor == 0 {
        unknown := true;
      } else {
        hash, number, left := GetAncestor(hc, hash, number, ancestor, budget);
        unknown := hash == Zero;
      }
    } else {
      var current := header.number;
      var next := (current + skip + 1) % U64;
      assert hc.current.number < U64;
      if next <= current {
        unknown := true;
      } else if next in hc.canon {
        CanonicalIsIndexed(hc, next);
        CanonicalStride(hc, hc.canon[next].block, skip + 1);
        var expected, m;
        expected, m, left := GetAncestor(hc, hc.canon[next], next, skip + 1, budget);
        if expected == hash {
          hash, number := hc.canon[next], next;
        } else {
          unknown := true;
        }
      } else {
        CanonicalIsIndexed(hc, next);
        unknown := true;
      }
    }
  }

  /** The gathering loop of a header query by hash. The reply limit by size allows more
      headers than the limit by number does. From a canonical origin the reply only ends at
      a limit or at the end of the chain. */
  method GatherByHash(hc: HeaderChain, origin: Hash, amount: nat, skip: nat, reverse: bool) returns (reply: seq<Block>)
    requires Indexed(hc) && skip < U64 && origin != Zero && forall h :: h in hc.headers ==> h.number < U64
    ensures |reply| <= amount && |reply| <= 192 && Strided(reply, skip + 1, reverse)
    ensures forall i :: 0 <= i < |reply| ==> reply[i] in hc.headers
    ensures |reply| > 0 ==> Of(reply[0]) == origin
    ensures reply == [] <==> amount == 0 || origin.block !in hc.headers
    ensures |reply| > 0 && IsCanonical(hc.canon, origin.block) && |reply| < amount && |reply| < 192 ==>
              OutOfRange(reply[|reply| - 1], skip + 1, reverse, hc.current)
    // Down a side branch, header by header, only genesis ends it; up there is no way.
    ensures reverse && skip == 0 && 0 < |reply| < amount && |reply| < 192 ==> reply[|reply| - 1].number == 0
    ensures !reverse && !IsCanonical(hc.canon, origin.block) ==> |reply| <= 1
    // In longer strides there is a second header as long as a hundred steps reach the index.
    ensures reverse && skip > 0 && amount > 1 && reply != [] && !IsCanonical(hc.canon, origin.block) ==>
              (|reply| == 1 <==> Stuck(hc.canon, origin.block, skip, 100))
  {
    hide Tree, Canonical, Rooted, At, TotalDifficulty, StepsOff, Walk, OutOfRange, Strided, IsCanonical, Stuck;
    reply := [];
    assert Strided(reply, skip + 1, reverse) by { NoStride(skip + 1, reverse); }
    var hash, number, budget, unknown := origin, 0, NON_CANONICAL_BUDGET, false;
    if origin.block in hc.headers {
      number := origin.block.number;
    }
    while !unknown && |reply| < amount && |reply| < MAX_HEADER_FETCH
      invariant |reply| <= amount && |reply| <= MAX_HEADER_FETCH && budget >= 0
      invariant forall i :: 0 <= i < |reply| ==> reply[i] in hc.headers
      invariant Strided(reply, skip + 1, reverse) && (|reply| > 0 ==> Of(reply[0]) == origin)
      invariant reply == [] ==>
                !unknown && hash == origin && (origin.block in hc.headers ==> number == origin.block.number)
      invariant |reply| > 0 && !unknown ==> Has(hc.headers, hash, number)
      invariant |reply| > 0 && !unknown ==>
        if reverse then hash == Walk(Of(reply[|reply| - 1]), skip + 1)
        else Of(reply[|reply| - 1]) == Walk(hash, skip + 1)
      invariant IsCanonical(hc.canon, origin.block) ==>
        if unknown then OutOfRange(reply[|reply| - 1], skip + 1, reverse, hc.current)
        else IsCanonical(hc.canon, hash.block)
      invariant reverse && skip == 0 && unknown ==> reply[|reply| - 1].number == 0
      invariant !reverse && !IsCanonical(hc.canon, origin.block) ==> reply == [] || (|reply| == 1 && unknown)
      invariant reply == [] ==> budget == 100
      invariant reverse && skip > 0 && |reply| > 0 && !IsCanonical(hc.canon, origin.block) ==>
                (|reply| == 1 && unknown <==> Stuck(hc.canon, origin.block, skip, 100))
      decreases amount - |reply|
    {
      if !Has(hc.headers, hash, number) {
        break;
      }
      var header := hash.block;
      StridedMore(reply, header, skip + 1, reverse);
      reply := reply + [header];
      hash, number, budget, unknown := Advance(hc, header, skip, reverse, budget);
      AtBottom(header, hc.current);
      StuckBelow(hc.canon, header, skip);
    }
  }

  lemma StuckBelow(canon: map<nat, Hash>, header: Block, skip: nat)
    ensures header.number < skip + 1 ==> Stuck(canon, header, skip, 100)
  {}

  lemma AtBottom(last: Block, head: Block)
    ensures OutOfRange(last, 1, true, head) ==> last.number == 0
  {}

  lemma NoStride(stride: nat, reverse: bool)
    ensures Strided([], stride, reverse)
  {}
}
