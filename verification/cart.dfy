/**
 * The stall's shopping cart (阿嬌滷味 ordering screen): a JavaScript object
 * from menu-item id to quantity, modelled as an association list in the
 * order JavaScript lists the object's keys.
 */
module Cart {
  import opened Wrappers
  import Text
  import Seqs

  /** Orders of this amount or more earn a free noodle. */
  const FREE_NOODLE_THRESHOLD: int := 70

  datatype Category = Tofu | Egg | Veggie | Balls | Meat

  datatype MenuItem = MenuItem(id: string, name: string, price: nat, category: Category)

  /** One key of the cart object and its quantity. */
  datatype Entry = Entry(id: string, qty: nat)

  type Cart = seq<Entry>

  /** The keys of the cart object. */
  function Ids(c: Cart): set<string> {
    if |c| == 0 then {} else {c[0].id} + Ids(c[1..])
  }

  /** No id appears twice: the entries are the keys of one object. */
  predicate DistinctIds(c: Cart) {
    |c| == 0 || (c[0].id !in Ids(c[1..]) && DistinctIds(c[1..]))
  }

  /** The keys are exactly the ids of the entries. */
  lemma {:induction false} IdsIndexed(c: Cart)
    ensures forall id :: id in Ids(c) <==> exists i :: 0 <= i < |c| && c[i].id == id
  {
    if |c| > 0 {
      IdsIndexed(c[1..]);
      forall id | (exists i :: 0 <= i < |c| && c[i].id == id)
        ensures id in Ids(c)
      {
        var i :| 0 <= i < |c| && c[i].id == id;
        if i > 0 {
          assert c[1..][i - 1].id == id;
        }
      }
      forall id | id in Ids(c)
        ensures exists i :: 0 <= i < |c| && c[i].id == id
      {
        if id != c[0].id {
          assert id in Ids(c[1..]);
          var i :| 0 <= i < |c[1..]| && c[1..][i].id == id;
          assert c[i + 1].id == id;
        }
      }
    }
  }

  /** Distinct keys: no two positions of the cart carry the same id. */
  lemma {:induction false} DistinctIdsIndexed(c: Cart)
    ensures DistinctIds(c) <==> forall i, j :: 0 <= i < j < |c| ==> c[i].id != c[j].id
  {
    if |c| > 0 {
      DistinctIdsIndexed(c[1..]);
      IdsIndexed(c[1..]);
      if DistinctIds(c) {
        forall i, j | 0 <= i < j < |c|
          ensures c[i].id != c[j].id
        {
          assert c[j].id == c[1..][j - 1].id;
          if i > 0 {
            assert c[i].id == c[1..][i - 1].id;
          }
        }
      }
      if forall i, j :: 0 <= i < j < |c| ==> c[i].id != c[j].id {
        forall k | 0 <= k < |c[1..]|
          ensures c[1..][k].id != c[0].id
        {
          assert c[1..][k] == c[k + 1];
        }
        forall i, j | 0 <= i < j < |c[1..]|
          ensures c[1..][i].id != c[1..][j].id
        {
          assert c[1..][i] == c[i + 1] && c[1..][j] == c[j + 1];
        }
      }
    }
  }

  /** 2^32 - 1: the array indices are the integers below it. */
  const ARRAY_INDEX_LIMIT: int := 0xFFFF_FFFF

  /**
   * A key JavaScript treats as an array index: the canonical decimal form
   * (no leading zero except "0" itself) of an integer below 2^32 - 1, as
   * defined in section 6.1.7 of ECMA-262. Every default menu id ("1" to
   * "39") is one.
   */
  predicate IsArrayIndex(k: string) {
    && |k| >= 1 && Text.AllDigits(k)
    && (k[0] != '0' || |k| == 1)
    && Text.DigitsValue(k) < ARRAY_INDEX_LIMIT
  }

  /**
   * Key `a` is listed before key `b` whenever both are own keys of one object,
   * whatever the insertion order: array indices come first in ascending
   * numeric order, ahead of every other string key (section 10.1.11.1 of
   * ECMA-262, OrdinaryOwnPropertyKeys). Other keys keep insertion order.
   */
  predicate KeyBefore(a: string, b: string) {
    IsArrayIndex(a) && (!IsArrayIndex(b) || Text.DigitsValue(a) < Text.DigitsValue(b))
  }

  /** No key of `keys` is listed before `k`. */
  predicate NoneBefore(keys: set<string>, k: string) {
    forall x :: x in keys ==> !KeyBefore(x, k)
  }

  /**
   * The entries are in the order `Object.entries` lists the object's keys:
   * no key comes after one it is listed before.
   */
  predicate JsOrdered(c: Cart) {
    |c| == 0 || (NoneBefore(Ids(c[1..]), c[0].id) && JsOrdered(c[1..]))
  }

  /** Every key holds a quantity of at least one. */
  predicate PositiveQty(c: Cart) {
    forall i :: 0 <= i < |c| ==> c[i].qty >= 1
  }

  /**
   * The cart invariant the screen keeps: distinct keys in JavaScript's key
   * order, every quantity at least one.
   */
  predicate WellFormed(c: Cart) {
    DistinctIds(c) && JsOrdered(c) && PositiveQty(c)
  }

  /** Being listed before is a strict order on keys. */
  lemma KeyBeforeStrict(a: string, b: string, k: string)
    ensures !(KeyBefore(a, b) && KeyBefore(b, a))
    ensures KeyBefore(a, b) && KeyBefore(b, k) ==> KeyBefore(a, k)
  {
  }

  /** Property order: array indices ascending, all of them ahead of the other keys. */
  lemma {:induction false} JsOrderedIndexed(c: Cart)
    ensures JsOrdered(c) <==> forall i, j :: 0 <= i < j < |c| ==> !KeyBefore(c[j].id, c[i].id)
  {
    if |c| > 0 {
      JsOrderedIndexed(c[1..]);
      IdsIndexed(c[1..]);
      if JsOrdered(c) {
        forall i, j | 0 <= i < j < |c|
          ensures !KeyBefore(c[j].id, c[i].id)
        {
          assert c[j].id == c[1..][j - 1].id;
          if i > 0 {
            assert c[i].id == c[1..][i - 1].id;
          }
        }
      }
      if forall i, j :: 0 <= i < j < |c| ==> !KeyBefore(c[j].id, c[i].id) {
        forall x | x in Ids(c[1..])
          ensures !KeyBefore(x, c[0].id)
        {
          var k :| 0 <= k < |c[1..]| && c[1..][k].id == x;
          assert c[1..][k] == c[k + 1];
        }
        forall i, j | 0 <= i < j < |c[1..]|
          ensures !KeyBefore(c[1..][j].id, c[1..][i].id)
        {
          assert c[1..][i] == c[i + 1] && c[1..][j] == c[j + 1];
        }
      }
    }
  }

  /** `cart[id] || 0`: the quantity of `id`, zero when absent. */
  function Qty(c: Cart, id: string): nat {
    if |c| == 0 then 0
    else if c[0].id == id then c[0].qty
    else Qty(c[1..], id)
  }

  lemma {:induction false} QtyAbsent(c: Cart, id: string)
    requires id !in Ids(c)
    ensures Qty(c, id) == 0
  {
    if |c| > 0 {
      QtyAbsent(c[1..], id);
    }
  }

  /** How each cart notion splits over the first entry and the rest. */
  lemma Cons(e: Entry, c: Cart)
    ensures ([e] + c)[1..] == c
    ensures Ids([e] + c) == {e.id} + Ids(c)
    ensures DistinctIds([e] + c) <==> e.id !in Ids(c) && DistinctIds(c)
    ensures JsOrdered([e] + c) <==> NoneBefore(Ids(c), e.id) && JsOrdered(c)
    ensures PositiveQty([e] + c) <==> e.qty >= 1 && PositiveQty(c)
    ensures WellFormed([e] + c) <==> e.qty >= 1 && e.id !in Ids(c) && NoneBefore(Ids(c), e.id) && WellFormed(c)
    ensures forall id :: Qty([e] + c, id) == if e.id == id then e.qty else Qty(c, id)
  {
    var r := [e] + c;
    assert r[1..] == c;
    assert r[0] == e;
    if PositiveQty(r) {
      forall i | 0 <= i < |c| ensures c[i].qty >= 1 {
        assert c[i] == r[i + 1];
      }
    }
  }

  /** A non-empty cart is its first entry followed by the rest. */
  lemma Uncons(c: Cart)
    requires |c| > 0
    ensures c == [c[0]] + c[1..]
  {
  }

  /**
   * Where a new key goes: in front of the first key it is listed before, at
   * the end when there is none.
   */
  function InsertPos(c: Cart, id: string): (p: nat)
    ensures p <= |c|
    ensures forall i :: 0 <= i < p ==> !KeyBefore(id, c[i].id)
    ensures p < |c| ==> KeyBefore(id, c[p].id)
  {
    if |c| == 0 || KeyBefore(id, c[0].id) then 0
    else
      var p := 1 + InsertPos(c[1..], id);
      assert forall i :: 1 <= i < p ==> c[i] == c[1..][i - 1];
      p
  }

  /**
   * `r` is `c` after creating key `e.id` with quantity `e.qty`: the new key
   * sits at its property-order position, every other key keeps its place and
   * quantity, and the cart invariants carry over.
   */
  ghost predicate IsInsertion(c: Cart, e: Entry, r: Cart) {
    && (forall other :: other != e.id ==> Qty(r, other) == Qty(c, other))
    && Qty(r, e.id) == e.qty
    && Ids(r) == Ids(c) + {e.id}
    && r == c[..InsertPos(c, e.id)] + [e] + c[InsertPos(c, e.id)..]
    && (DistinctIds(c) ==> DistinctIds(r))
    && (JsOrdered(c) ==> JsOrdered(r))
    && (PositiveQty(c) && e.qty >= 1 ==> PositiveQty(r))
  }

  /** A key the object does not hold is created. */
  function InsertKey(c: Cart, e: Entry): (r: Cart)
    requires e.id !in Ids(c)
    ensures IsInsertion(c, e, r)
  {
    if |c| == 0 then
      Cons(e, c);
      [e]
    else if KeyBefore(e.id, c[0].id) then
      InsertFront(c, e);
      [e] + c
    else
      Uncons(c);
      Cons(c[0], c[1..]);
      var rest := InsertKey(c[1..], e);
      InsertBehind(c, e, rest);
      [c[0]] + rest
  }

  lemma InsertFront(c: Cart, e: Entry)
    requires e.id !in Ids(c) && |c| > 0 && KeyBefore(e.id, c[0].id)
    ensures IsInsertion(c, e, [e] + c)
  {
    Cons(e, c);
    NoneBeforeFront(c, e.id);
    assert InsertPos(c, e.id) == 0;
    assert c[..0] + [e] + c[0..] == [e] + c;
  }

  lemma InsertBehind(c: Cart, e: Entry, rest: Cart)
    requires e.id !in Ids(c) && |c| > 0 && !KeyBefore(e.id, c[0].id)
    requires IsInsertion(c[1..], e, rest)
    ensures IsInsertion(c, e, [c[0]] + rest)
  {
    Uncons(c);
    Cons(c[0], c[1..]);
    Cons(c[0], rest);
    var p := InsertPos(c[1..], e.id);
    assert InsertPos(c, e.id) == p + 1;
    Seqs.SpliceCons(c, p, e);
  }

  /** A key listed before the first key of an ordered cart is listed before all of them. */
  lemma NoneBeforeFront(c: Cart, k: string)
    requires |c| > 0 && KeyBefore(k, c[0].id)
    ensures JsOrdered(c) ==> NoneBefore(Ids(c), k)
  {
    Cons(c[0], c[1..]);
    forall x | x in Ids(c) && JsOrdered(c)
      ensures !KeyBefore(x, k)
    {
      KeyBeforeStrict(x, k, c[0].id);
    }
  }

  /** A key the object already holds gets a new quantity where it stands. */
  function SetQty(c: Cart, id: string, count: nat): (r: Cart)
    requires id in Ids(c)
    ensures forall other :: other != id ==> Qty(r, other) == Qty(c, other)
    ensures Qty(r, id) == count
    ensures |r| == |c| && forall i :: 0 <= i < |c| ==> r[i].id == c[i].id
    ensures Ids(r) == Ids(c)
    ensures DistinctIds(c) ==> DistinctIds(r)
    ensures JsOrdered(c) ==> JsOrdered(r)
    ensures PositiveQty(c) && count >= 1 ==> PositiveQty(r)
  {
    Uncons(c);
    Cons(c[0], c[1..]);
    if c[0].id == id then
      var e := Entry(id, count);
      Cons(e, c[1..]);
      [e] + c[1..]
    else
      var rest := SetQty(c[1..], id, count);
      Cons(c[0], rest);
      [c[0]] + rest
  }

  /**
   * `newCart[id] = count`: an existing key keeps its place; a new key is
   * inserted where JavaScript lists it.
   */
  function Put(c: Cart, id: string, count: nat): (r: Cart)
    ensures forall other :: other != id ==> Qty(r, other) == Qty(c, other)
    ensures Qty(r, id) == count
    ensures Ids(r) == Ids(c) + {id}
    ensures DistinctIds(c) ==> DistinctIds(r)
    ensures JsOrdered(c) ==> JsOrdered(r)
  {
    if id in Ids(c) then SetQty(c, id, count) else InsertKey(c, Entry(id, count))
  }

  /**
   * Where `Put` leaves the keys: an existing key where it stood, a new key in
   * front of the first key it is listed before.
   */
  lemma PutPosition(c: Cart, id: string, count: nat)
    ensures id in Ids(c) ==> |Put(c, id, count)| == |c| && forall i :: 0 <= i < |c| ==> Put(c, id, count)[i].id == c[i].id
    ensures id !in Ids(c) ==> Put(c, id, count) == c[..InsertPos(c, id)] + [Entry(id, count)] + c[InsertPos(c, id)..]
  {
  }

  /** A new key listed before none of the cart's keys is appended at the end. */
  lemma PutAtEnd(c: Cart, id: string, count: nat)
    requires id !in Ids(c)
    requires forall i :: 0 <= i < |c| ==> !KeyBefore(id, c[i].id)
    ensures Put(c, id, count) == c + [Entry(id, count)]
  {
    InsertPosLast(c, id);
    InsertKeyLast(c, Entry(id, count));
  }

  lemma InsertPosLast(c: Cart, id: string)
    requires forall i :: 0 <= i < |c| ==> !KeyBefore(id, c[i].id)
    ensures InsertPos(c, id) == |c|
  {
  }

  lemma InsertKeyLast(c: Cart, e: Entry)
    requires e.id !in Ids(c)
    requires InsertPos(c, e.id) == |c|
    ensures InsertKey(c, e) == c + [e]
  {
    assert c[..|c|] + [e] + c[|c|..] == c + [e];
  }

  /**
   * `addToCart`: one more of `id`. A key already there keeps its place; a new
   * key with quantity 1 goes where JavaScript lists it, which is the end
   * unless it is an array index.
   */
  function Add(c: Cart, id: string): (r: Cart)
    ensures forall other :: other != id ==> Qty(r, other) == Qty(c, other)
    ensures Qty(r, id) == Qty(c, id) + 1
    ensures Ids(r) == Ids(c) + {id}
    ensures id in Ids(c) ==> |r| == |c| && forall i :: 0 <= i < |c| ==> r[i].id == c[i].id
    ensures id !in Ids(c) ==> r == c[..InsertPos(c, id)] + [Entry(id, 1)] + c[InsertPos(c, id)..]
    ensures id !in Ids(c) && !IsArrayIndex(id) ==> r == c + [Entry(id, 1)]
    ensures WellFormed(c) ==> WellFormed(r)
  {
    if id in Ids(c) then
      SetQty(c, id, Qty(c, id) + 1)
    else
      QtyAbsent(c, id);
      assert !IsArrayIndex(id) ==> InsertPos(c, id) == |c|;
      assert c[..|c|] + [Entry(id, 1)] + c[|c|..] == c + [Entry(id, 1)];
      InsertKey(c, Entry(id, 1))
  }

  /** Sorting the ids by JavaScript's key order, not by when they were added: "2" is listed before "10". */
  lemma ArrayIndexKeysAscending()
    ensures Add(Add([], "10"), "2") == [Entry("2", 1), Entry("10", 1)]
  {
    var one := Add([], "10");
    assert Text.DigitsValue("10"[..1]) == 1;
    assert Text.DigitsValue("10") == 10;
    assert Text.DigitsValue("2") == 2;
    assert one == [Entry("10", 1)];
    assert KeyBefore("2", "10");
    assert InsertPos(one, "2") == 0;
  }

  /**
   * `removeFromCart`: a quantity above one goes down by one; otherwise the key
   * is deleted (an absent key leaves the cart as it was).
   */
  function Remove(c: Cart, id: string): (r: Cart)
    ensures forall other :: other != id ==> Qty(r, other) == Qty(c, other)
    ensures Qty(c, id) > 1 ==> Qty(r, id) == Qty(c, id) - 1 && Ids(r) == Ids(c)
    ensures WellFormed(c) && Qty(c, id) <= 1 ==> Qty(r, id) == 0 && Ids(r) == Ids(c) - {id}
    ensures id !in Ids(c) ==> r == c
    ensures WellFormed(c) ==> WellFormed(r)
  {
    if |c| == 0 then c
    else
      Uncons(c);
      Cons(c[0], c[1..]);
      if c[0].id == id then
        if c[0].qty > 1 then
          var e := Entry(id, c[0].qty - 1);
          Cons(e, c[1..]);
          [e] + c[1..]
        else
          assert WellFormed(c) ==> Qty(c[1..], id) == 0 by {
            if WellFormed(c) { QtyAbsent(c[1..], id); }
          }
          c[1..]
      else
        var rest := Remove(c[1..], id);
        Cons(c[0], rest);
        [c[0]] + rest
  }

  /**
   * Where `removeFromCart` leaves the keys: `newCart[itemId] -= 1` keeps every
   * key in its place, and `delete newCart[itemId]` takes out that key's entry
   * and leaves every other entry where it was.
   */
  lemma {:induction false} RemovePositions(c: Cart, id: string)
    ensures Qty(c, id) > 1 ==> |Remove(c, id)| == |c| && forall i :: 0 <= i < |c| ==> Remove(c, id)[i].id == c[i].id
    ensures id in Ids(c) && Qty(c, id) <= 1 ==>
      exists k :: 0 <= k < |c| && c[k].id == id && Remove(c, id) == c[..k] + c[k + 1..]
  {
    if Qty(c, id) > 1 {
      if c[0].id != id {
        RemovePositions(c[1..], id);
        assert Remove(c, id) == [c[0]] + Remove(c[1..], id);
      }
    }
    if id in Ids(c) && Qty(c, id) <= 1 {
      if c[0].id == id {
        assert Remove(c, id) == c[1..] == c[..0] + c[1..];
      } else {
        RemovePositions(c[1..], id);
        var k :| 0 <= k < |c[1..]| && c[1..][k].id == id && Remove(c[1..], id) == c[1..][..k] + c[1..][k + 1..];
        assert Remove(c, id) == [c[0]] + Remove(c[1..], id);
        Seqs.DeleteCons(c, k);
      }
    }
  }

  /** Removing what was just added gives back the cart it was added to, key order included. */
  lemma RemoveAdd(c: Cart, id: string)
    requires WellFormed(c)
    ensures Remove(Add(c, id), id) == c
  {
    if id in Ids(c) {
      RemoveSetQty(c, id);
    } else {
      RemoveInsertKey(c, Entry(id, 1));
    }
  }

  lemma {:induction false} RemoveSetQty(c: Cart, id: string)
    requires WellFormed(c) && id in Ids(c)
    ensures Remove(SetQty(c, id, Qty(c, id) + 1), id) == c
  {
    Uncons(c);
    Cons(c[0], c[1..]);
    var r := SetQty(c, id, Qty(c, id) + 1);
    if c[0].id == id {
      assert r[1..] == c[1..];
    } else {
      RemoveSetQty(c[1..], id);
      assert r[1..] == SetQty(c[1..], id, Qty(c[1..], id) + 1);
    }
  }

  lemma {:induction false} RemoveInsertKey(c: Cart, e: Entry)
    requires e.id !in Ids(c) && e.qty == 1
    ensures Remove(InsertKey(c, e), e.id) == c
  {
    if |c| > 0 {
      Uncons(c);
      Cons(c[0], c[1..]);
      var r := InsertKey(c, e);
      if KeyBefore(e.id, c[0].id) {
        assert r[1..] == c;
      } else {
        RemoveInsertKey(c[1..], e);
        assert r[1..] == InsertKey(c[1..], e);
      }
    }
  }

  /** `menu.find(i => i.id === id)`: the first menu item with that id. */
  function FindItem(menu: seq<MenuItem>, id: string): (r: Option<MenuItem>)
    ensures r.Some? ==> r.value in menu && r.value.id == id
    ensures r.None? <==> forall i :: 0 <= i < |menu| ==> menu[i].id != id
  {
    if |menu| == 0 then None
    else if menu[0].id == id then Some(menu[0])
    else FindItem(menu[1..], id)
  }

  /** `find` returns the first item carrying the id, whatever later items carry it too. */
  lemma {:induction false} FindFirst(menu: seq<MenuItem>, id: string, i: nat)
    requires i < |menu| && menu[i].id == id
    requires forall j :: 0 <= j < i ==> menu[j].id != id
    ensures FindItem(menu, id) == Some(menu[i])
  {
    if i > 0 {
      assert menu[i] == menu[1..][i - 1];
      FindFirst(menu[1..], id, i - 1);
    }
  }

  /** No two menu items share an id. */
  predicate UniqueIds(menu: seq<MenuItem>) {
    forall i, j :: 0 <= i < j < |menu| ==> menu[i].id != menu[j].id
  }

  /** The price one unit of `id` adds to the total: 0 for an id the menu does not list. */
  function PriceOf(menu: seq<MenuItem>, id: string): nat {
    match FindItem(menu, id)
    case Some(item) => item.price
    case None => 0
  }

  /** With unique ids every listed item is the one `find` returns. */
  lemma {:induction false} FindListed(menu: seq<MenuItem>, item: MenuItem)
    requires UniqueIds(menu)
    requires item in menu
    ensures FindItem(menu, item.id) == Some(item)
    ensures PriceOf(menu, item.id) == item.price
  {
    if menu[0] != item {
      assert item in menu[1..];
      assert menu[0].id != item.id by {
        var j :| 0 <= j < |menu| && menu[j] == item;
      }
      FindListed(menu[1..], item);
    }
  }

  /** `calculateTotal`: price times quantity summed over the cart's keys. */
  function Total(c: Cart, menu: seq<MenuItem>): nat {
    if |c| == 0 then 0
    else PriceOf(menu, c[0].id) * c[0].qty + Total(c[1..], menu)
  }

  /**
   * The same amount counted from the menu's side: each listed item's price
   * times the quantity the cart holds of it.
   */
  function MenuSum(menu: seq<MenuItem>, c: Cart): int {
    if |menu| == 0 then 0
    else menu[0].price * Qty(c, menu[0].id) + MenuSum(menu[1..], c)
  }

  /**
   * `calculateTotal` agrees with the menu-side count: ids the menu does not
   * list contribute nothing, and every listed item contributes price times
   * quantity.
   */
  lemma {:induction false} TotalIsMenuSum(c: Cart, menu: seq<MenuItem>)
    requires UniqueIds(menu)
    requires DistinctIds(c)
    ensures Total(c, menu) == MenuSum(menu, c)
  {
    if |c| == 0 {
      MenuSumEmpty(menu, c);
    } else {
      Uncons(c);
      Cons(c[0], c[1..]);
      TotalIsMenuSum(c[1..], menu);
      MenuSumCons(menu, c[0], c[1..]);
    }
  }

  lemma MenuSumEmpty(menu: seq<MenuItem>, c: Cart)
    requires |c| == 0
    ensures MenuSum(menu, c) == 0
  {
  }

  lemma {:induction false} MenuSumCons(menu: seq<MenuItem>, e: Entry, rest: Cart)
    requires UniqueIds(menu)
    requires e.id !in Ids(rest)
    ensures MenuSum(menu, [e] + rest) == MenuSum(menu, rest) + PriceOf(menu, e.id) * e.qty
  {
    Cons(e, rest);
    if |menu| > 0 {
      assert UniqueIds(menu[1..]);
      MenuSumCons(menu[1..], e, rest);
      if menu[0].id == e.id {
        QtyAbsent(rest, e.id);
        assert FindItem(menu[1..], e.id).None?;
      }
    }
  }

  /** Adding one unit raises the total by that item's price (nothing for an id off the menu). */
  lemma TotalAdd(c: Cart, menu: seq<MenuItem>, id: string)
    ensures Total(Add(c, id), menu) == Total(c, menu) + PriceOf(menu, id)
  {
    if id in Ids(c) {
      var q := Qty(c, id);
      assert Add(c, id) == SetQty(c, id, q + 1);
      TotalSetQty(c, menu, id, q + 1);
      OneMoreUnit(Total(c, menu), Total(SetQty(c, id, q + 1), menu), PriceOf(menu, id), q);
    } else {
      QtyAbsent(c, id);
      assert Add(c, id) == InsertKey(c, Entry(id, 1));
      TotalInsertKey(c, menu, Entry(id, 1));
      assert PriceOf(menu, id) * Entry(id, 1).qty == PriceOf(menu, id);
    }
  }

  lemma OneMoreUnit(before: int, after: int, price: int, q: int)
    requires after + price * q == before + price * (q + 1)
    ensures after == before + price
  {
  }

  lemma {:induction false} TotalSetQty(c: Cart, menu: seq<MenuItem>, id: string, count: nat)
    requires id in Ids(c)
    ensures Total(SetQty(c, id, count), menu) + PriceOf(menu, id) * Qty(c, id) == Total(c, menu) + PriceOf(menu, id) * count
  {
    Uncons(c);
    Cons(c[0], c[1..]);
    var r := SetQty(c, id, count);
    if c[0].id == id {
      assert r[1..] == c[1..];
    } else {
      TotalSetQty(c[1..], menu, id, count);
      assert r[1..] == SetQty(c[1..], id, count);
    }
  }

  lemma {:induction false} TotalInsertKey(c: Cart, menu: seq<MenuItem>, e: Entry)
    requires e.id !in Ids(c)
    ensures Total(InsertKey(c, e), menu) == Total(c, menu) + PriceOf(menu, e.id) * e.qty
  {
    if |c| > 0 {
      Uncons(c);
      Cons(c[0], c[1..]);
      var r := InsertKey(c, e);
      if KeyBefore(e.id, c[0].id) {
        assert r[1..] == c;
      } else {
        TotalInsertKey(c[1..], menu, e);
        assert r[1..] == InsertKey(c[1..], e);
      }
    }
  }

  /** Removing one unit of an id in the cart lowers the total by its price; an absent id changes nothing. */
  lemma {:induction false} TotalRemove(c: Cart, menu: seq<MenuItem>, id: string)
    requires WellFormed(c)
    ensures Total(Remove(c, id), menu) == Total(c, menu) - (if Qty(c, id) > 0 then PriceOf(menu, id) else 0)
  {
    if |c| > 0 && c[0].id != id {
      assert WellFormed(c[1..]);
      TotalRemove(c[1..], menu, id);
      assert Remove(c, id)[1..] == Remove(c[1..], id);
    } else if |c| > 0 && c[0].qty > 1 {
      assert Remove(c, id)[1..] == c[1..];
    }
  }

  /** The total only grows as items are added, so eligibility once reached is kept. */
  lemma EligibilityKeptByAdd(c: Cart, menu: seq<MenuItem>, id: string)
    requires IsFreeNoodleEligible(Total(c, menu))
    ensures IsFreeNoodleEligible(Total(Add(c, id), menu))
  {
    TotalAdd(c, menu, id);
  }

  /** `isFreeNoodleEligible`: the free noodle is offered from the threshold on. */
  predicate IsFreeNoodleEligible(total: int) {
    total >= FREE_NOODLE_THRESHOLD
  }
}
