/** Blocks and headers linked by hash. Hashing is injective, so a hash stands for the block
    it was taken from; the zero hash belongs to none. A block thus determines its ancestry. */
module Chain {

  datatype Hash = Zero | Of(block: Block)

  datatype Block = Block(parent: Hash, number: nat, difficulty: nat, txs: seq<nat>, seal: nat)

  /** The plain `k`-step parent walk. */
  function Walk(h: Hash, k: nat): Hash
    decreases k
  {
    if k == 0 || h.Zero? then h else Walk(h.block.parent, k - 1)
  }

  /** The hash of the ancestor of `b` with number `n`, the block itself included. */
  function At(b: Block, n: nat): Hash {
    if n == b.number then Of(b)
    else if b.parent.Zero? then Zero
    else At(b.parent.block, n)
  }

  /** The sum of difficulties from the first block up to `b`. */
  function TotalDifficulty(b: Block): nat {
    b.difficulty + if b.parent.Zero? then 0 else TotalDifficulty(b.parent.block)
  }

  /** `b` descends from `genesis` with consecutive numbers and positive difficulties. */
  ghost predicate Rooted(b: Block, genesis: Block) {
    b == genesis ||
    (b.parent.Of? && b.number == b.parent.block.number + 1 && b.difficulty > 0 && Rooted(b.parent.block, genesis))
  }

  ghost predicate IsGenesis(g: Block) {
    g.parent == Zero && g.number == 0
  }

  lemma {:induction false} WalkIsAt(b: Block, genesis: Block, k: nat)
    requires IsGenesis(genesis) && Rooted(b, genesis) && k <= b.number
    ensures Walk(Of(b), k) == At(b, b.number - k) && At(b, b.number - k).Of?
    ensures At(b, b.number - k).block.number == b.number - k && Rooted(At(b, b.number - k).block, genesis)
    decreases k
  {
    if k > 0 {
      WalkIsAt(b.parent.block, genesis, k - 1);
    }
  }

  lemma AtNumber(b: Block, genesis: Block, n: nat)
    requires IsGenesis(genesis) && Rooted(b, genesis) && n <= b.number
    ensures At(b, n).Of? && At(b, n).block.number == n && Rooted(At(b, n).block, genesis)
  {
    WalkIsAt(b, genesis, b.number - n);
  }

  /** Ancestors of an ancestor are ancestors. */
  lemma {:induction false} AtAt(b: Block, genesis: Block, m: nat, n: nat)
    requires IsGenesis(genesis) && Rooted(b, genesis) && n <= m <= b.number
    ensures At(b, m).Of? && At(At(b, m).block, n) == At(b, n)
    decreases b.number
  {
    AtNumber(b, genesis, m);
    if m < b.number {
      AtAt(b.parent.block, genesis, m, n);
    }
  }

  lemma AtParent(b: Block, genesis: Block, n: nat)
    requires IsGenesis(genesis) && Rooted(b, genesis) && n < b.number
    ensures At(b, n + 1).Of? && At(b, n + 1).block.parent == At(b, n)
  {
    AtNumber(b, genesis, n + 1);
    AtAt(b, genesis, n + 1, n);
  }

  lemma WalkAdd(h: Hash, j: nat, k: nat)
    ensures Walk(Walk(h, j), k) == Walk(h, j + k)
    decreases j
  {
    if j > 0 && h.Of? {
      WalkAdd(h.block.parent, j - 1, k);
    }
  }
}
