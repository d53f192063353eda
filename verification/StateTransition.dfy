/** Applying messages: gas is bought, spent, refunded and paid for, and what a message leaves
    unused returns to the block's gas pool. Follows section 6.2 of the Ethereum Yellow Paper.
    The virtual machine is any function that returns no more gas than it was given. */
module StateTransition {
  import opened Types

  const MAX_UINT64 := U64 - 1
  const TX_GAS := 21000
  const TX_GAS_CONTRACT_CREATION := 53000
  const TX_DATA_ZERO_GAS := 4
  const TX_DATA_NON_ZERO_GAS_FRONTIER := 68
  const TX_DATA_NON_ZERO_GAS_EIP2028 := 16

  // ----- Balances -----

  type Balances = map<Address, int>

  function BalanceOf(m: Balances, a: Address): int {
    if a in m then m[a] else 0
  }

  function Credit(m: Balances, a: Address, v: int): Balances {
    m[a := BalanceOf(m, a) + v]
  }

  ghost function Total(m: Balances): int {
    if m.Keys == {} then 0 else var a :| a in m.Keys; m[a] + Total(m - {a})
  }

  lemma {:induction false} TotalWithout(m: Balances, a: Address)
    requires a in m
    ensures Total(m) == m[a] + Total(m - {a})
  {
    var b :| b in m.Keys && Total(m) == m[b] + Total(m - {b});
    if b != a {
      TotalWithout(m - {b}, a);
      TotalWithout(m - {a}, b);
      assert m - {b} - {a} == m - {a} - {b};
    }
  }

  /** A credit changes the total by its amount. */
  lemma Credited(m: Balances, a: Address, v: int)
    ensures Total(Credit(m, a, v)) == Total(m) + v
  {
    var more := Credit(m, a, v);
    TotalWithout(more, a);
    assert more - {a} == m - {a};
    if a in m {
      TotalWithout(m, a);
    } else {
      assert m - {a} == m;
    }
  }

  predicate CanTransfer(m: Balances, a: Address, amount: int) {
    BalanceOf(m, a) >= amount
  }

  function Transfer(m: Balances, sender: Address, recipient: Address, amount: int): Balances {
    Credit(Credit(m, sender, -amount), recipient, amount)
  }

  /** A transfer moves value without creating any, also to oneself. */
  lemma TransferConserves(m: Balances, sender: Address, recipient: Address, amount: int)
    ensures Total(Transfer(m, sender, recipient, amount)) == Total(m)
    ensures forall a :: a != sender && a != recipient ==>
                BalanceOf(Transfer(m, sender, recipient, amount), a) == BalanceOf(m, a)
    ensures sender == recipient ==> BalanceOf(Transfer(m, sender, recipient, amount), sender) == BalanceOf(m, sender)
    ensures sender != recipient ==>
              && BalanceOf(Transfer(m, sender, recipient, amount), sender) == BalanceOf(m, sender) - amount
              && BalanceOf(Transfer(m, sender, recipient, amount), recipient) == BalanceOf(m, recipient) + amount
  {
    Credited(m, sender, -amount);
    Credited(Credit(m, sender, -amount), recipient, amount);
  }

  // ----- Intrinsic gas -----

  function NonZero(data: seq<nat>): nat {
    if data == [] then 0 else NonZero(data[..|data| - 1]) + if data[|data| - 1] != 0 then 1 else 0
  }

  /** The price of the data of a message, before any limit. */
  function IntrinsicCost(data: seq<nat>, creation: bool, homestead: bool, istanbul: bool): nat {
    (if creation && homestead then TX_GAS_CONTRACT_CREATION else TX_GAS)
    + NonZero(data) * (if istanbul then TX_DATA_NON_ZERO_GAS_EIP2028 else TX_DATA_NON_ZERO_GAS_FRONTIER)
    + (|data| - NonZero(data)) * TX_DATA_ZERO_GAS
  }

  /** 21000 for a call, 53000 for a creation since Homestead, 4 for a zero byte, and for any other
      68, or 16 since Istanbul (EIP-2028). */
  lemma IntrinsicPrices(data: seq<nat>, byte: nat, creation: bool, homestead: bool, istanbul: bool)
    ensures IntrinsicCost([], creation, homestead, istanbul) == if creation && homestead then 53000 else 21000
    ensures IntrinsicCost(data + [byte], creation, homestead, istanbul)
         == IntrinsicCost(data, creation, homestead, istanbul) + if byte == 0 then 4 else if istanbul then 16 else 68
  {
    assert (data + [byte])[..|data|] == data;
    NonZeroAtMost(data);
  }

  lemma {:induction false} NonZeroAtMost(data: seq<nat>)
    ensures NonZero(data) <= |data|
  {
    if data != [] {
      NonZeroAtMost(data[..|data| - 1]);
    }
  }

  method CountNonZero(data: seq<nat>) returns (nz: nat)
    ensures nz == NonZero(data) <= |data|
  {
    nz := 0;
    for i := 0 to |data|
      invariant nz == NonZero(data[..i])
    {
      assert data[..i + 1][..i] == data[..i];
      if data[i] != 0 {
        nz := nz + 1;
      }
    }
    assert data[..|data|] == data;
    NonZeroAtMost(data);
  }

  /** Dividing first shows whether a product still fits. */
  lemma Overflows(room: nat, price: nat, n: nat)
    requires price > 0
    ensures room / price < n <==> n * price > room
  {
    if room / price < n {
      assert (room / price + 1) * price <= n * price;
    } else {
      assert n * price <= room / price * price;
    }
  }

  /** `IntrinsicGas` fails exactly when the price is above 64 bits. */
  method IntrinsicGas(data: seq<nat>, creation: bool, homestead: bool, istanbul: bool) returns (r: Option<nat>)
    ensures r == if IntrinsicCost(data, creation, homestead, istanbul) <= MAX_UINT64
                 then Some(IntrinsicCost(data, creation, homestead, istanbul)) else None
  {
    var gas: nat := if creation && homestead then TX_GAS_CONTRACT_CREATION else TX_GAS;
    if |data| > 0 {
      var nz := CountNonZero(data);
      var nonZeroGas := if istanbul then TX_DATA_NON_ZERO_GAS_EIP2028 else TX_DATA_NON_ZERO_GAS_FRONTIER;
      Overflows(MAX_UINT64 - gas, nonZeroGas, nz);
      if (MAX_UINT64 - gas) / nonZeroGas < nz {
        return None;
      }
      gas := gas + nz * nonZeroGas;
      var z: nat := |data| - nz;
      if (MAX_UINT64 - gas) / TX_DATA_ZERO_GAS < z {
        return None;
      }
      gas := gas + z * TX_DATA_ZERO_GAS;
    }
    r := Some(gas);
  }

  // ----- The gas pool -----

  class GasPool {
    var gas: nat

    constructor ()
      ensures gas == 0
    {
      gas := 0;
    }

    /** Panics rather than wrap around. */
    method AddGas(amount: nat) returns (panicked: bool)
      requires amount <= MAX_UINT64
      modifies this
      ensures panicked <==> old(gas) + amount > MAX_UINT64
      ensures gas == if panicked then old(gas) else old(gas) + amount
    {
      if gas > MAX_UINT64 - amount {
        return true;
      }
      gas := gas + amount;
      panicked := false;
    }

    method SubGas(amount: nat) returns (ok: bool)
      modifies this
      ensures ok <==> old(gas) >= amount
      ensures gas == if ok then old(gas) - amount else old(gas)
    {
      if gas < amount {
        return false;
      }
      gas := gas - amount;
      ok := true;
    }
  }

  // ----- One message -----

  datatype Message = Message(from: Address, checkNonce: bool, nonce: nat, gas: nat, price: nat, value: int,
                             creation: bool, data: seq<nat>)

  datatype World = World(balances: Balances, nonces: map<Address, nat>)

  /** What a call or creation leaves: the world, the gas left, and the refund counter. */
  datatype Outcome = Outcome(world: World, left: nat, refund: nat, failed: bool)

  type Evm = (World, nat) -> Outcome

  ghost predicate Frugal(evm: Evm) {
    forall w: World, g: nat :: evm(w, g).left <= g
  }

  /** The rules in force and the address that collects fees. */
  datatype Context = Context(coinbase: Address, homestead: bool, istanbul: bool)

  datatype Error =
    | NonceTooHigh | NonceTooLow | InsufficientFunds | GasLimitReached | GasUintOverflow | IntrinsicGasTooLow
    | InsufficientFundsForTransfer

  datatype Result = Accepted(usedGas: nat, failed: bool) | Rejected(err: Error) | Panicked

  function NonceOf(m: map<Address, nat>, a: Address): nat {
    if a in m then m[a] else 0
  }

  /** The consensus rules a message must meet. */
  ghost predicate Admissible(msg: Message, w: World, pool: nat, ctx: Context) {
    && (msg.checkNonce ==> NonceOf(w.nonces, msg.from) == msg.nonce)
    && BalanceOf(w.balances, msg.from) >= msg.gas * msg.price && pool >= msg.gas
    && IntrinsicCost(msg.data, msg.creation, ctx.homestead, ctx.istanbul) <= msg.gas
    && (msg.value > 0 ==> BalanceOf(w.balances, msg.from) - msg.gas * msg.price >= msg.value)
  }

  /** The first rule that a message breaks, in the order they are checked. */
  ghost function FirstError(msg: Message, w: World, pool: nat, ctx: Context): Option<Error> {
    var cost := IntrinsicCost(msg.data, msg.creation, ctx.homestead, ctx.istanbul);
    if msg.checkNonce && NonceOf(w.nonces, msg.from) < msg.nonce then Some(NonceTooHigh)
    else if msg.checkNonce && NonceOf(w.nonces, msg.from) > msg.nonce then Some(NonceTooLow)
    else if BalanceOf(w.balances, msg.from) < msg.gas * msg.price then Some(InsufficientFunds)
    else if pool < msg.gas then Some(GasLimitReached)
    else if cost > MAX_UINT64 then Some(GasUintOverflow)
    else if msg.gas < cost then Some(IntrinsicGasTooLow)
    else if msg.value > 0 && BalanceOf(w.balances, msg.from) - msg.gas * msg.price < msg.value
    then Some(InsufficientFundsForTransfer)
    else None
  }

  lemma AdmissibleIff(msg: Message, w: World, pool: nat, ctx: Context)
    requires msg.gas <= MAX_UINT64
    ensures Admissible(msg, w, pool, ctx) <==> FirstError(msg, w, pool, ctx) == None
  {}

  /** The world and the gas that the virtual machine starts with. */
  ghost function Prepaid(msg: Message, w: World): World {
    World(Credit(w.balances, msg.from, -(msg.gas * msg.price)),
          if msg.creation then w.nonces else w.nonces[msg.from := NonceOf(w.nonces, msg.from) + 1])
  }

  /** The virtual machine of a call starts with the sender's nonce one up and the gas paid for;
      that of a creation raises the nonce itself. Nobody else is touched. */
  lemma StartsWith(msg: Message, w: World, a: Address)
    ensures NonceOf(Prepaid(msg, w).nonces, a)
         == NonceOf(w.nonces, a) + if a == msg.from && !msg.creation then 1 else 0
    ensures BalanceOf(Prepaid(msg, w).balances, a)
         == BalanceOf(w.balances, a) - if a == msg.from then msg.gas * msg.price else 0
  {}

  ghost function Executed(msg: Message, w: World, ctx: Context, evm: Evm): Outcome
    requires IntrinsicCost(msg.data, msg.creation, ctx.homestead, ctx.istanbul) <= msg.gas
  {
    evm(Prepaid(msg, w), msg.gas - IntrinsicCost(msg.data, msg.creation, ctx.homestead, ctx.istanbul))
  }

  /** Gas used, after a refund of at most half of it. */
  function Used(limit: nat, left: nat, refund: nat): nat
    requires left <= limit
  {
    limit - left - Min((limit - left) / 2, refund)
  }

  /** A refund of up to half of the gas is granted in full, a larger one is cut to half. */
  lemma UsedBounds(limit: nat, left: nat, refund: nat)
    requires left <= limit
    ensures limit - left <= 2 * Used(limit, left, refund) && Used(limit, left, refund) <= limit - left
    ensures 2 * refund <= limit - left ==> Used(limit, left, refund) == limit - left - refund
    ensures 2 * refund > limit - left ==> 2 * Used(limit, left, refund) <= limit - left + 1
  {}

  /** What the sender pays in the end and what the coinbase earns are the same, so the total
      changes by what the virtual machine does and nothing else. */
  lemma FeesBalance(b: Balances, out: Balances, from: Address, coinbase: Address, limit: nat, used: nat, price: nat)
    requires used <= limit
    ensures limit * price - (limit - used) * price == used * price
    ensures Total(Credit(Credit(out, from, (limit - used) * price), coinbase, used * price)) - Total(b)
         == Total(out) - Total(Credit(b, from, -(limit * price)))
  {
    Credited(out, from, (limit - used) * price);
    Credited(Credit(out, from, (limit - used) * price), coinbase, used * price);
    Credited(b, from, -(limit * price));
    assert limit * price == (limit - used) * price + used * price;
  }

  /** The world after an accepted message. */
  ghost predicate Settled(msg: Message, w: World, ctx: Context, evm: Evm, after: World, r: Result) {
    && r.Accepted? && IntrinsicCost(msg.data, msg.creation, ctx.homestead, ctx.istanbul) <= msg.gas
    && var out := Executed(msg, w, ctx, evm);
    && out.left <= msg.gas && r.usedGas == Used(msg.gas, out.left, out.refund) && r.usedGas <= msg.gas
    && r.failed == out.failed
    && after.nonces == out.world.nonces
    && after.balances == Credit(Credit(out.world.balances, msg.from, (msg.gas - r.usedGas) * msg.price),
                                ctx.coinbase, r.usedGas * msg.price)
    && Total(after.balances) - Total(w.balances) == Total(out.world.balances) - Total(Prepaid(msg, w).balances)
  }

  /** Apart from what the virtual machine moves, the sender is charged and the coinbase is
      paid the gas used times the price, nobody else anything; where they are the same, the
      two cancel. */
  lemma NetPayment(msg: Message, w: World, ctx: Context, evm: Evm, after: World, r: Result, a: Address)
    requires Settled(msg, w, ctx, evm, after, r)
    ensures var out := Executed(msg, w, ctx, evm).world.balances; var before := Prepaid(msg, w).balances;
            BalanceOf(after.balances, a) - BalanceOf(w.balances, a)
              == BalanceOf(out, a) - BalanceOf(before, a)
                 - (if a == msg.from then r.usedGas * msg.price else 0)
                 + (if a == ctx.coinbase then r.usedGas * msg.price else 0)
  {
    hide Total, IntrinsicCost;
    assert msg.gas * msg.price == (msg.gas - r.usedGas) * msg.price + r.usedGas * msg.price;
  }

  class StateTransition {
    const gp: GasPool
    const msg: Message
    var world: World
    var gas: nat
    var initialGas: nat

    constructor (gp: GasPool, msg: Message, world: World)
      ensures this.gp == gp && this.msg == msg && this.world == world && gas == 0 && initialGas == 0
    {
      this.gp, this.msg, this.world, gas, initialGas := gp, msg, world, 0, 0;
    }

    method BuyGas() returns (err: Option<Error>)
      requires gas == 0
      modifies this, gp
      ensures err == if old(BalanceOf(world.balances, msg.from)) < msg.gas * msg.price then Some(InsufficientFunds)
                     else if old(gp.gas) < msg.gas then Some(GasLimitReached) else None
      ensures err == None ==> gp.gas == old(gp.gas) - msg.gas && gas == msg.gas && initialGas == msg.gas
      ensures err == None ==>
                world == old(world).(balances := Credit(old(world).balances, msg.from, -(msg.gas * msg.price)))
      ensures err.Some? ==> unchanged(this) && gp.gas == old(gp.gas)
    {
      var mgval := msg.gas * msg.price;
      if BalanceOf(world.balances, msg.from) < mgval {
        return Some(InsufficientFunds);
      }
      var ok := gp.SubGas(msg.gas);
      if !ok {
        return Some(GasLimitReached);
      }
      gas := gas + msg.gas;
      initialGas := msg.gas;
      world := world.(balances := Credit(world.balances, msg.from, -mgval));
      err := None;
    }

    method PreCheck() returns (err: Option<Error>)
      requires gas == 0
      modifies this, gp
      ensures err == if msg.checkNonce && NonceOf(old(world).nonces, msg.from) < msg.nonce then Some(NonceTooHigh)
                     else if msg.checkNonce && NonceOf(old(world).nonces, msg.from) > msg.nonce then Some(NonceTooLow)
                     else if BalanceOf(old(world).balances, msg.from) < msg.gas * msg.price then Some(InsufficientFunds)
                     else if old(gp.gas) < msg.gas then Some(GasLimitReached) else None
      ensures err == None ==> gp.gas == old(gp.gas) - msg.gas && gas == msg.gas && initialGas == msg.gas
      ensures err == None ==>
                world == old(world).(balances := Credit(old(world).balances, msg.from, -(msg.gas * msg.price)))
      ensures err.Some? ==> unchanged(this) && gp.gas == old(gp.gas)
    {
      if msg.checkNonce {
        var stNonce := NonceOf(world.nonces, msg.from);
        if stNonce < msg.nonce {
          return Some(NonceTooHigh);
        } else if stNonce > msg.nonce {
          return Some(NonceTooLow);
        }
      }
      err := BuyGas();
    }

    /** Refunds at most half, pays the sender back and returns the gas to the block. */
    method RefundGas(refundCounter: nat) returns (panicked: bool)
      requires gas <= initialGas <= MAX_UINT64 && gp.gas + initialGas <= MAX_UINT64
      modifies this, gp
      ensures !panicked && initialGas == old(initialGas)
      ensures gas == initialGas - Used(initialGas, old(gas), refundCounter)
      ensures gp.gas == old(gp.gas) + gas
      ensures world == old(world).(balances := Credit(old(world).balances, msg.from, gas * msg.price))
    {
      var refund := (initialGas - gas) / 2;
      if refund > refundCounter {
        refund := refundCounter;
      }
      gas := gas + refund;
      world := world.(balances := Credit(world.balances, msg.from, gas * msg.price));
      panicked := gp.AddGas(gas);
    }

    /** Everything before execution: checks the rules, buys the gas and pays the intrinsic part. */
    method Prepare(ctx: Context) returns (err: Option<Error>)
      requires gas == 0 && msg.gas <= MAX_UINT64
      modifies this, gp
      ensures err == FirstError(msg, old(world), old(gp.gas), ctx)
      ensures err == None ==> gp.gas == old(gp.gas) - msg.gas && initialGas == msg.gas
      ensures err == None ==> gas == msg.gas - IntrinsicCost(msg.data, msg.creation, ctx.homestead, ctx.istanbul)
      ensures err == None ==>
                world == old(world).(balances := Credit(old(world).balances, msg.from, -(msg.gas * msg.price)))
      ensures gp.gas <= old(gp.gas)
    {
      hide Credit, IntrinsicCost;
      err := PreCheck();
      if err.Some? {
        return;
      }
      var intrinsic := IntrinsicGas(msg.data, msg.creation, ctx.homestead, ctx.istanbul);
      if intrinsic.None? {
        return Some(GasUintOverflow);
      }
      if gas < intrinsic.value {
        return Some(IntrinsicGasTooLow);
      }
      gas := gas - intrinsic.value;
      Debited(old(world).balances, msg.from, -(msg.gas * msg.price));
      if msg.value > 0 && !CanTransfer(world.balances, msg.from, msg.value) {
        return Some(InsufficientFundsForTransfer);
      }
    }

    /** `TransitionDb`. Accepts exactly the admissible messages, never panics, and then the gas
        pool loses the gas used, the sender and the coinbase settle at the gas used times the
        price, and otherwise the world is what the virtual machine made of it. */
    method TransitionDb(ctx: Context, evm: Evm) returns (r: Result)
      requires gas == 0 && msg.gas <= MAX_UINT64 && gp.gas <= MAX_UINT64 && Frugal(evm)
      modifies this, gp
      ensures gp.gas <= old(gp.gas)
      ensures r != Panicked && (r.Accepted? <==> Admissible(msg, old(world), old(gp.gas), ctx))
      ensures r.Rejected? ==> FirstError(msg, old(world), old(gp.gas), ctx) == Some(r.err)
      ensures r.Accepted? ==> Settled(msg, old(world), ctx, evm, world, r) && gp.gas == old(gp.gas) - r.usedGas
    {
      hide Total, Credit, IntrinsicCost, FirstError, Admissible;
      AdmissibleIff(msg, world, gp.gas, ctx);
      var err := Prepare(ctx);
      if err.Some? {
        return Rejected(err.value);
      }
      EnoughGas(msg, old(world), old(gp.gas), ctx);
      if !msg.creation {
        world := world.(nonces := world.nonces[msg.from := NonceOf(world.nonces, msg.from) + 1]);
      }
      assert world == Prepaid(msg, old(world));
      var out := evm(world, gas);
      world, gas := out.world, out.left;
      var panicked := RefundGas(out.refund);
      if panicked {
        return Panicked;
      }
      var used := initialGas - gas;
      FeesBalance(old(world).balances, out.world.balances, msg.from, ctx.coinbase, msg.gas, used, msg.price);
      world := world.(balances := Credit(world.balances, ctx.coinbase, used * msg.price));
      r := Accepted(used, out.failed);
    }
  }

  lemma EnoughGas(msg: Message, w: World, pool: nat, ctx: Context)
    requires FirstError(msg, w, pool, ctx) == None
    ensures pool >= msg.gas >= IntrinsicCost(msg.data, msg.creation, ctx.homestead, ctx.istanbul)
  {}

  lemma Debited(m: Balances, a: Address, v: int)
    ensures BalanceOf(Credit(m, a, v), a) == BalanceOf(m, a) + v
  {}
}
