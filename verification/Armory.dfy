/** Redeeming Armory offers: the check against the balance, and the balances declared to the game. */
module Armory {
  import opened Prelude

  const UINT32 := 0x1_0000_0000
  const UINT64 := 0x1_0000_0000_0000_0000

  type uint32 = n: nat | n < 0x1_0000_0000

  /** Go's unsigned arithmetic wraps around. */
  function Mul32(a: uint32, b: uint32): uint32 { a * b % UINT32 }
  function Sub32(a: uint32, b: uint32): uint32 { (a - b) % UINT32 }
  function Add32(a: uint32, b: uint32): uint32 { (a + b) % UINT32 }
  function Mul64(a: uint32, b: uint32): nat { a * b % UINT64 }

  datatype Offer = Offer(campaign: uint32, redeem: uint32, cost: uint32)

  datatype Snapshot = Snapshot(ready: bool, generation: uint32, balance: uint32, offers: seq<Offer>)

  datatype Request = Request(
    campaign: uint32, redeem: uint32, balance: uint32, cost: uint32, generation: uint32, quantity: uint32)

  datatype Refusal = Disabled | Invalid | Stale | NoMatch

  lemma Product(a: nat, b: nat, c: nat, d: nat)
    requires a <= c && b <= d
    ensures a * b <= c * d
  {}

  /** Two 32-bit factors do not overflow the 64-bit product. */
  lemma Mul64IsExact(a: uint32, b: uint32)
    ensures Mul64(a, b) == a * b
  {
    Product(a, b, UINT32 - 1, UINT32 - 1);
  }

  /** Within the balance, no step of the send loop wraps. */
  lemma DeclaredIsExact(balance: uint32, cost: uint32, quantity: uint32, index: uint32)
    requires cost * quantity <= balance && index < quantity
    ensures Mul32(index, cost) == index * cost
    ensures Sub32(balance, Mul32(index, cost)) == balance - index * cost >= cost
    ensures Add32(index, 1) == index + 1
  {
    Product(index + 1, cost, quantity, cost);
    assert (index + 1) * cost == index * cost + cost;
    assert 0 <= index * cost <= balance;
  }

  /** The armory's part of the service. */
  class Service {
    var armory: Snapshot

    /**
      The check that a request must pass before anything is sent; the request's numbers are `None`
      where the input lacks them.
     */
    method Check(enabled: bool, connected: bool, request: Option<Request>) returns (r: Result<Request, Refusal>)
      ensures r.Ok? <==>
        && enabled && connected && request.Some?
        && var q := request.value;
           && armory.ready && armory.generation == q.generation && armory.balance == q.balance
           && Offer(q.campaign, q.redeem, q.cost) in armory.offers
           && q.quantity > 0 && q.cost * q.quantity <= q.balance
      ensures r.Ok? ==> r.value == request.value
    {
      if !enabled {
        return Err(Disabled);
      }
      if request.None? {
        return Err(Invalid);
      }
      var q := request.value;
      if !connected || !armory.ready || armory.generation != q.generation || armory.balance != q.balance {
        return Err(Stale);
      }
      var matched := None;
      var i := 0;
      while i < |armory.offers|
        invariant 0 <= i <= |armory.offers|
        invariant matched == None && Offer(q.campaign, q.redeem, q.cost) !in armory.offers[..i]
      {
        var offer := armory.offers[i];
        if offer.campaign == q.campaign && offer.redeem == q.redeem && offer.cost == q.cost {
          matched := Some(offer);
          break;
        }
        i := i + 1;
      }
      Mul64IsExact(q.cost, q.quantity);
      if q.quantity == 0 || matched == None || Mul64(q.cost, q.quantity) > q.balance {
        return Err(NoMatch);
      }
      return Ok(q);
    }

    /**
      The messages of a redemption, as the balances they declare; `sent(i)` says whether the i-th was
      handed over, and the loop stops at the first that was not.
     */
    method SendAll(q: Request, sent: nat -> bool) returns (declared: seq<uint32>, ok: bool)
      requires q.cost * q.quantity <= q.balance
      ensures |declared| <= q.quantity
      ensures forall i :: 0 <= i < |declared| ==> declared[i] == q.balance - i * q.cost >= q.cost
      ensures forall i :: 0 <= i < |declared| - 1 ==> sent(i)
      ensures if ok then |declared| == q.quantity && forall i :: 0 <= i < q.quantity ==> sent(i)
              else declared != [] && !sent(|declared| - 1)
    {
      declared, ok := [], true;
      var index: uint32 := 0;
      while index < q.quantity
        invariant index <= q.quantity && |declared| == index
        invariant forall i :: 0 <= i < index ==> declared[i] == q.balance - i * q.cost >= q.cost && sent(i)
        decreases q.quantity - index
      {
        DeclaredIsExact(q.balance, q.cost, q.quantity, index);
        var prePurchaseBalance := Sub32(q.balance, Mul32(index, q.cost));
        declared := declared + [prePurchaseBalance];
        if !sent(index) {
          return declared, false;
        }
        index := Add32(index, 1);
      }
    }

    /** A confirmed purchase takes its cost from the balance, unless the balance no longer covers it. */
    method ApplyConfirmed(cost: uint32)
      modifies this
      ensures armory == old(armory).(balance := if cost > old(armory.balance) then old(armory.balance)
                                                else old(armory.balance) - cost)
    {
      if cost > armory.balance {
        return;
      }
      armory := armory.(balance := Sub32(armory.balance, cost));
    }
  }
}
