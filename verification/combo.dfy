/**
 * "幫我選" (pick for me): `generateRandomCombo`, the greedy randomized loop that
 * fills a cart up to a budget.
 */
module Combo {
  import opened Cart
  import Seqs
  import Random

  predicate IsPurchasable(item: MenuItem) {
    item.price > 0
  }

  /** The purchasable items whose price fits in `remaining`. */
  function Affordable(purchasable: seq<MenuItem>, remaining: int): (r: seq<MenuItem>)
    ensures forall i :: 0 <= i < |r| ==> r[i] in purchasable && r[i].price <= remaining
    ensures forall i :: 0 <= i < |purchasable| && purchasable[i].price <= remaining ==> purchasable[i] in r
  {
    Seqs.Filter(purchasable, (item: MenuItem) => item.price <= remaining)
  }

  /** Every id in the cart is that of a purchasable menu item. */
  predicate OnlyPurchasable(c: Cart, menu: seq<MenuItem>) {
    forall id :: id in Ids(c) ==> exists item :: item in menu && IsPurchasable(item) && item.id == id
  }

  /** No purchasable menu item costs at most `remaining`. */
  predicate NothingFits(menu: seq<MenuItem>, remaining: int) {
    forall i :: 0 <= i < |menu| && IsPurchasable(menu[i]) ==> menu[i].price > remaining
  }

  /** What the loop keeps between picks: the cart so far, its cost and the items that still fit. */
  predicate Progress(menu: seq<MenuItem>, purchasable: seq<MenuItem>, maxBudget: nat, cart: Cart, spent: nat, available: seq<MenuItem>) {
    && purchasable == Seqs.Filter(menu, IsPurchasable)
    && WellFormed(cart)
    && OnlyPurchasable(cart, menu)
    && spent == Total(cart, menu) <= maxBudget
    && available == Affordable(purchasable, maxBudget - spent)
    && (NothingFits(menu, maxBudget) ==> cart == [])
  }

  /**
   * `generateRandomCombo(maxBudget)`. Draw number `k` of `Math.random()` is
   * `rand(k)`. The cart never costs more than the budget, holds only
   * purchasable items, and on return either the budget is exactly spent or no
   * purchasable item fits what is left.
   */
  method GenerateRandomCombo(menu: seq<MenuItem>, maxBudget: nat, rand: nat -> real) returns (cart: Cart)
    requires UniqueIds(menu)
    requires forall k: nat :: Random.IsDraw(rand(k))
    ensures WellFormed(cart)
    ensures Total(cart, menu) <= maxBudget
    ensures OnlyPurchasable(cart, menu)
    ensures Total(cart, menu) < maxBudget ==> NothingFits(menu, maxBudget - Total(cart, menu))
    ensures NothingFits(menu, maxBudget) ==> cart == []
  {
    var currentSpent: nat := 0;
    cart := [];
    var draws: nat := 0;

    var purchasable := Seqs.Filter(menu, IsPurchasable);
    var available := Affordable(purchasable, maxBudget);

    // `generateRandomCombo` also stops when the draw finds no item, and gives
    // up after 100 draws in a row that do not fit; every available item fits
    // what is left, so that counter never moves and is not modelled.
    while currentSpent < maxBudget && |available| > 0
      invariant Progress(menu, purchasable, maxBudget, cart, currentSpent, available)
      decreases maxBudget - currentSpent
    {
      var k := Random.PickIndex(rand(draws), |available|);
      var candidate := available[k];
      draws := draws + 1;

      AcceptCandidate(menu, purchasable, maxBudget, cart, currentSpent, available, k);
      cart := Add(cart, candidate.id);
      currentSpent := currentSpent + candidate.price;
      available := Affordable(purchasable, maxBudget - currentSpent);
    }
    Finished(menu, purchasable, maxBudget, cart, currentSpent, available);
  }

  /**
   * The candidate drawn at index `k` of the available items always fits: it
   * spends a positive amount within what is left, and adding it keeps the
   * loop's state.
   */
  lemma AcceptCandidate(menu: seq<MenuItem>, purchasable: seq<MenuItem>, maxBudget: nat, cart: Cart, spent: nat, available: seq<MenuItem>, k: nat)
    requires UniqueIds(menu)
    requires Progress(menu, purchasable, maxBudget, cart, spent, available)
    requires k < |available|
    ensures 0 < available[k].price <= maxBudget - spent
    ensures Progress(menu, purchasable, maxBudget, Add(cart, available[k].id), spent + available[k].price,
                     Affordable(purchasable, maxBudget - (spent + available[k].price)))
  {
    var candidate := available[k];
    assert candidate in purchasable && candidate.price <= maxBudget - spent;
    var i :| 0 <= i < |purchasable| && purchasable[i] == candidate;
    assert candidate in menu && IsPurchasable(candidate);
    FindListed(menu, candidate);
    TotalAdd(cart, menu, candidate.id);
    AddPurchasable(cart, menu, candidate);
    var j :| 0 <= j < |menu| && menu[j] == candidate;
    assert !NothingFits(menu, maxBudget) by {
      assert IsPurchasable(menu[j]) && menu[j].price <= maxBudget;
    }
  }

  /** Adding a purchasable menu item keeps the cart to purchasable items. */
  lemma AddPurchasable(cart: Cart, menu: seq<MenuItem>, item: MenuItem)
    requires OnlyPurchasable(cart, menu)
    requires item in menu && IsPurchasable(item)
    ensures OnlyPurchasable(Add(cart, item.id), menu)
  {
    assert Ids(Add(cart, item.id)) == Ids(cart) + {item.id};
  }

  /** On exit the budget is spent or nothing purchasable fits what is left. */
  lemma Finished(menu: seq<MenuItem>, purchasable: seq<MenuItem>, maxBudget: nat, cart: Cart, spent: nat, available: seq<MenuItem>)
    requires Progress(menu, purchasable, maxBudget, cart, spent, available)
    requires spent >= maxBudget || |available| == 0
    ensures WellFormed(cart)
    ensures Total(cart, menu) <= maxBudget
    ensures OnlyPurchasable(cart, menu)
    ensures Total(cart, menu) < maxBudget ==> NothingFits(menu, maxBudget - Total(cart, menu))
    ensures NothingFits(menu, maxBudget) ==> cart == []
  {
    if spent < maxBudget {
      NoneAffordable(menu, purchasable, maxBudget - spent);
    }
  }

  /** When no purchasable item is affordable, nothing on the menu fits. */
  lemma NoneAffordable(menu: seq<MenuItem>, purchasable: seq<MenuItem>, remaining: int)
    requires purchasable == Seqs.Filter(menu, IsPurchasable)
    requires |Affordable(purchasable, remaining)| == 0
    ensures NothingFits(menu, remaining)
  {
    forall i | 0 <= i < |menu| && IsPurchasable(menu[i])
      ensures menu[i].price > remaining
    {
      assert menu[i] in purchasable;
      var k :| 0 <= k < |purchasable| && purchasable[k] == menu[i];
    }
  }
}
