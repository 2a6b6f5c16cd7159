/**
 * Turning a cart into a stored order (`handleFinalSubmit`, `handleUpdateOrder`)
 * and a stored order back into a cart (`reOrder`, `startEditOrder`).
 */
module Order {
  import opened Wrappers
  import opened Cart
  import Text

  /** The marker every free-noodle line carries in its name. */
  const GIFT_MARK: string := "贈送"
  /** The name used when the chosen noodle id is not one of the choices. */
  const DEFAULT_NOODLE_NAME: string := "主食麵"

  datatype NoodleChoice = NoodleChoice(name: string, id: string)

  const FREE_NOODLE_CHOICES: seq<NoodleChoice> := [
    NoodleChoice("烏龍麵", "noodle-udon"),
    NoodleChoice("粄條", "noodle-bantiao"),
    NoodleChoice("白油麵", "noodle-oil"),
    NoodleChoice("麵疙瘩", "noodle-geda")
  ]

  /** One line of a stored order. */
  datatype OrderLine = OrderLine(name: string, price: int, count: nat, id: string)

  /** The condiment toggles of the submit form; chili is one of the level names. */
  datatype Condiments = Condiments(scallion: bool, garlic: bool, pickles: bool, chili: string)

  /** The condiments as stored: "加" (add) or "不加" (leave out), chili as chosen. */
  datatype StoredCondiments = StoredCondiments(scallion: string, garlic: string, pickles: string, chili: string)

  datatype Order = Order(
    userName: string,
    lines: seq<OrderLine>,
    total: int,
    isPaid: bool,
    condiments: Option<StoredCondiments>)

  datatype SubmitError =
    | NoodleNotChosen        // eligible for the gift but no noodle picked
    | UnknownItem(id: string) // `menu.find` found nothing, so `item.name` throws

  /** JavaScript truthiness of the selected noodle id (`null` and "" are falsy). */
  predicate IsChosen(selected: Option<string>) {
    selected.Some? && selected.value != ""
  }

  function AddOrNot(b: bool): string {
    if b then "加" else "不加"
  }

  /** The condiments object written with an order; restoring it gives back the form. */
  function EncodeCondiments(c: Condiments): (s: StoredCondiments)
    ensures RestoreCondiments(s) == c
  {
    StoredCondiments(AddOrNot(c.scallion), AddOrNot(c.garlic), AddOrNot(c.pickles), c.chili)
  }

  /** `startEditOrder`: a toggle is on exactly when its stored value is "加". */
  function RestoreCondiments(s: StoredCondiments): Condiments {
    Condiments(s.scallion == "加", s.garlic == "加", s.pickles == "加", s.chili)
  }

  function FindNoodle(choices: seq<NoodleChoice>, id: string): Option<NoodleChoice> {
    if |choices| == 0 then None
    else if choices[0].id == id then Some(choices[0])
    else FindNoodle(choices[1..], id)
  }

  /** The gift line's name: the gift mark, then the noodle's name or the fallback name. */
  function GiftName(selected: string): (name: string)
    ensures Text.Contains(name, GIFT_MARK)
  {
    var noodle := match FindNoodle(FREE_NOODLE_CHOICES, selected)
      case Some(n) => if n.name != "" then n.name else DEFAULT_NOODLE_NAME
      case None => DEFAULT_NOODLE_NAME;
    var name := "\U{1F381} " + GIFT_MARK + ": " + noodle;
    assert name[2..4] == GIFT_MARK;
    Text.ContainsAt(name, GIFT_MARK, 2);
    name
  }

  /** The free line that records the chosen noodle. */
  function GiftLine(selected: string): OrderLine {
    OrderLine(GiftName(selected), 0, 1, selected)
  }

  /** Price times count summed over order lines. */
  function LinesTotal(lines: seq<OrderLine>): int {
    if |lines| == 0 then 0 else lines[0].price * lines[0].count + LinesTotal(lines[1..])
  }

  lemma {:induction false} LinesTotalAppend(a: seq<OrderLine>, b: seq<OrderLine>)
    ensures LinesTotal(a + b) == LinesTotal(a) + LinesTotal(b)
  {
    if |a| == 0 {
      assert a + b == b;
    } else {
      assert (a + b)[1..] == a[1..] + b;
      LinesTotalAppend(a[1..], b);
    }
  }

  /** Every id of the cart names a menu item. */
  predicate AllListed(c: Cart, menu: seq<MenuItem>) {
    forall i :: 0 <= i < |c| ==> FindItem(menu, c[i].id).Some?
  }

  /**
   * `Object.entries(cart).map(...)`: one line per cart entry, in the cart's
   * order, with the menu item's name and price and the cart's count; the first
   * id the menu does not list aborts the whole submission.
   */
  function CartLines(c: Cart, menu: seq<MenuItem>): (r: Result<seq<OrderLine>, SubmitError>)
    ensures r.Success? <==> AllListed(c, menu)
    ensures r.Failure? ==> r.error.UnknownItem? && r.error.id in Ids(c) && FindItem(menu, r.error.id).None?
    ensures r.Success? ==> |r.value| == |c|
    ensures r.Success? ==> forall i :: 0 <= i < |c| ==>
      && r.value[i].id == c[i].id
      && r.value[i].count == c[i].qty
      && r.value[i].price == PriceOf(menu, c[i].id)
      && r.value[i].name == FindItem(menu, c[i].id).value.name
    ensures r.Success? ==> LinesTotal(r.value) == Total(c, menu)
  {
    if |c| == 0 then Success([])
    else
      Uncons(c);
      Cons(c[0], c[1..]);
      match FindItem(menu, c[0].id)
      case None => Failure(UnknownItem(c[0].id))
      case Some(item) =>
        match CartLines(c[1..], menu)
        case Failure(e) => Failure(e)
        case Success(rest) =>
          var lines := [OrderLine(item.name, item.price, c[0].qty, c[0].id)] + rest;
          assert lines[1..] == rest;
          Success(lines)
  }

  /** The lines of an order: the cart's lines, then the gift line when earned and chosen. */
  function OrderLines(c: Cart, menu: seq<MenuItem>, selected: Option<string>): Result<seq<OrderLine>, SubmitError> {
    match CartLines(c, menu)
    case Failure(e) => Failure(e)
    case Success(lines) =>
      if IsFreeNoodleEligible(Total(c, menu)) && IsChosen(selected) then Success(lines + [GiftLine(selected.value)])
      else Success(lines)
  }

  /**
   * `handleFinalSubmit`: refuses an eligible order without a chosen noodle,
   * otherwise records the lines, the cart's total and the condiments, unpaid.
   */
  function Submit(c: Cart, menu: seq<MenuItem>, selected: Option<string>, userName: string, condiments: Condiments)
    : (r: Result<Order, SubmitError>)
    ensures r == Failure(NoodleNotChosen) <==> IsFreeNoodleEligible(Total(c, menu)) && !IsChosen(selected)
    ensures r.Failure? && r.error.UnknownItem? ==> !AllListed(c, menu)
    ensures r.Success? ==> AllListed(c, menu)
    ensures r.Success? ==> && r.value.userName == userName
                           && r.value.total == Total(c, menu)
                           && !r.value.isPaid
                           && r.value.condiments == Some(EncodeCondiments(condiments))
    ensures r.Success? ==> GiftFaithful(c, menu, selected, r.value.lines)
  {
    var total := Total(c, menu);
    if IsFreeNoodleEligible(total) && !IsChosen(selected) then Failure(NoodleNotChosen)
    else
      match OrderLines(c, menu, selected)
      case Failure(e) => Failure(e)
      case Success(lines) =>
        OrderLinesFaithful(c, menu, selected);
        Success(Order(userName, lines, total, false, Some(EncodeCondiments(condiments))))
  }

  /**
   * What the stored lines say about the cart: a line per entry carrying the
   * menu item's name and price and the entry's id and count, then exactly
   * one free gift line when the total reached the threshold and a noodle was
   * chosen, none otherwise; the lines add up to the cart's total.
   */
  predicate GiftFaithful(c: Cart, menu: seq<MenuItem>, selected: Option<string>, lines: seq<OrderLine>) {
    var gift := IsFreeNoodleEligible(Total(c, menu)) && IsChosen(selected);
    && |lines| == |c| + (if gift then 1 else 0)
    && (forall i :: 0 <= i < |c| ==> lines[i].id == c[i].id && lines[i].count == c[i].qty && lines[i].price == PriceOf(menu, c[i].id))
    && (forall i :: 0 <= i < |c| ==> FindItem(menu, c[i].id).Some? && lines[i].name == FindItem(menu, c[i].id).value.name)
    && (gift ==> lines[|c|] == GiftLine(selected.value) && lines[|c|].price == 0)
    && LinesTotal(lines) == Total(c, menu)
  }

  lemma OrderLinesFaithful(c: Cart, menu: seq<MenuItem>, selected: Option<string>)
    requires OrderLines(c, menu, selected).Success?
    ensures GiftFaithful(c, menu, selected, OrderLines(c, menu, selected).value)
  {
    var lines := CartLines(c, menu).value;
    if IsFreeNoodleEligible(Total(c, menu)) && IsChosen(selected) {
      LinesTotalAppend(lines, [GiftLine(selected.value)]);
      assert LinesTotal([GiftLine(selected.value)]) == 0;
    }
  }

  /**
   * `handleUpdateOrder`: rewrites an order's lines, total and condiments from
   * the edited cart; the gift is added only if earned and chosen, never demanded.
   */
  function Update(order: Order, c: Cart, menu: seq<MenuItem>, selected: Option<string>, condiments: Condiments)
    : (r: Result<Order, SubmitError>)
    ensures r.Success? <==> AllListed(c, menu)
    ensures r.Success? ==> && r.value.userName == order.userName
                           && r.value.isPaid == order.isPaid
                           && r.value.total == Total(c, menu)
                           && r.value.condiments == Some(EncodeCondiments(condiments))
                           && GiftFaithful(c, menu, selected, r.value.lines)
  {
    match OrderLines(c, menu, selected)
    case Failure(e) => Failure(e)
    case Success(lines) =>
      OrderLinesFaithful(c, menu, selected);
      Success(order.(lines := lines, total := Total(c, menu), condiments := Some(EncodeCondiments(condiments))))
  }

  /** A line `reOrder` and `startEditOrder` drop: a gift by name or a free line. */
  predicate IsGiftLine(line: OrderLine) {
    Text.Contains(line.name, GIFT_MARK) || line.price == 0
  }

  /**
   * `reOrder`: `newCart[item.id] = item.count` for every kept line in order,
   * so a later line with the same id overwrites an earlier one. The object
   * lists its keys in JavaScript's order, array indices ascending first.
   */
  function Rebuild(lines: seq<OrderLine>): (r: Cart)
    ensures DistinctIds(r)
    ensures JsOrdered(r)
  {
    if |lines| == 0 then []
    else
      var acc := Rebuild(lines[..|lines| - 1]);
      var last := lines[|lines| - 1];
      if IsGiftLine(last) then acc else Put(acc, last.id, last.count)
  }

  /** The rebuilt cart holds exactly the ids of the kept lines. */
  lemma {:induction false} RebuildIds(lines: seq<OrderLine>)
    ensures forall id :: id in Ids(Rebuild(lines)) <==> exists i :: 0 <= i < |lines| && !IsGiftLine(lines[i]) && lines[i].id == id
  {
    if |lines| > 0 {
      var prefix := lines[..|lines| - 1];
      var last := lines[|lines| - 1];
      RebuildIds(prefix);
      RebuildStepIds(lines);
      KeptIdsStep(lines, Ids(Rebuild(prefix)), Ids(Rebuild(lines)));
    }
  }

  /** The kept ids of all lines are those of all but the last, plus the last one's unless it is a gift. */
  lemma KeptIdsStep(lines: seq<OrderLine>, before: set<string>, now: set<string>)
    requires |lines| > 0
    requires forall id :: id in before <==> exists i :: 0 <= i < |lines| - 1 && !IsGiftLine(lines[i]) && lines[i].id == id
    requires now == before + (if IsGiftLine(lines[|lines| - 1]) then {} else {lines[|lines| - 1].id})
    ensures forall id :: id in now <==> exists i :: 0 <= i < |lines| && !IsGiftLine(lines[i]) && lines[i].id == id
  {
  }

  /** One more line adds its id to the rebuilt cart's keys, unless it is a gift. */
  lemma RebuildStepIds(lines: seq<OrderLine>)
    requires |lines| > 0
    ensures Ids(Rebuild(lines)) == Ids(Rebuild(lines[..|lines| - 1])) + (if IsGiftLine(lines[|lines| - 1]) then {} else {lines[|lines| - 1].id})
  {
  }

  /** Each id gets the count of the last kept line that carries it. */
  lemma {:induction false} RebuildLastKept(lines: seq<OrderLine>)
    ensures forall i :: 0 <= i < |lines| && IsLastKept(lines, i) ==> Qty(Rebuild(lines), lines[i].id) == lines[i].count
  {
    if |lines| > 0 {
      var prefix := lines[..|lines| - 1];
      var last := lines[|lines| - 1];
      RebuildLastKept(prefix);
      forall i | 0 <= i < |lines| && IsLastKept(lines, i)
        ensures Qty(Rebuild(lines), lines[i].id) == lines[i].count
      {
        if i < |prefix| {
          assert prefix[i] == lines[i];
          assert IsLastKept(prefix, i) by {
            forall j | i < j < |prefix| && !IsGiftLine(prefix[j])
              ensures prefix[j].id != prefix[i].id
            {
              assert prefix[j] == lines[j];
            }
          }
          if !IsGiftLine(last) {
            assert last.id != lines[i].id;
          }
        }
      }
    }
  }

  /** What `startEditOrder` loads into the screen: a cart and the condiment form. */
  datatype EditState = EditState(cart: Cart, form: Condiments)

  /**
   * `startEditOrder`: the cart is rebuilt like `reOrder`; the stored
   * condiments, when the order has them, replace the current form.
   */
  function StartEdit(order: Order, form: Condiments): (r: EditState)
    ensures r.cart == Rebuild(order.lines)
    ensures order.condiments.None? ==> r.form == form
    ensures order.condiments.Some? ==>
      var stored := order.condiments.value;
      && (r.form.scallion <==> stored.scallion == "加")
      && (r.form.garlic <==> stored.garlic == "加")
      && (r.form.pickles <==> stored.pickles == "加")
      && r.form.chili == stored.chili
  {
    match order.condiments
    case Some(stored) => EditState(Rebuild(order.lines), RestoreCondiments(stored))
    case None => EditState(Rebuild(order.lines), form)
  }

  /**
   * Editing a freshly submitted order loads exactly the cart and the
   * condiment choices it was submitted with, whatever the form held before.
   */
  lemma SubmitThenEdit(c: Cart, menu: seq<MenuItem>, selected: Option<string>, userName: string, condiments: Condiments, form: Condiments)
    requires WellFormed(c)
    requires OnlyPaidItems(c, menu)
    requires Submit(c, menu, selected, userName, condiments).Success?
    ensures StartEdit(Submit(c, menu, selected, userName, condiments).value, form) == EditState(c, condiments)
  {
    RebuildSubmit(c, menu, selected, userName, condiments);
  }

  /** Line `i` is kept and no later kept line has its id. */
  predicate IsLastKept(lines: seq<OrderLine>, i: nat)
    requires i < |lines|
  {
    !IsGiftLine(lines[i]) && forall j :: i < j < |lines| && !IsGiftLine(lines[j]) ==> lines[j].id != lines[i].id
  }

  /**
   * `handleShowModal`: nothing opens for an empty total; an eligible order
   * without a chosen noodle gets the first choice preselected.
   */
  function ShowModal(c: Cart, menu: seq<MenuItem>, selected: Option<string>): (r: Option<Option<string>>)
    ensures r.None? <==> Total(c, menu) == 0
    ensures r.Some? && IsFreeNoodleEligible(Total(c, menu)) ==> IsChosen(r.value)
    ensures r.Some? && IsChosen(selected) ==> r.value == selected
    ensures r.Some? && IsFreeNoodleEligible(Total(c, menu)) && !IsChosen(selected) ==> r.value == Some(FREE_NOODLE_CHOICES[0].id)
    ensures r.Some? && !IsFreeNoodleEligible(Total(c, menu)) ==> r.value == selected
  {
    if Total(c, menu) == 0 then None
    else if IsFreeNoodleEligible(Total(c, menu)) && !IsChosen(selected) then Some(Some(FREE_NOODLE_CHOICES[0].id))
    else Some(selected)
  }

  /** After the modal has opened, submitting never fails for want of a noodle. */
  lemma ShowModalThenSubmit(c: Cart, menu: seq<MenuItem>, selected: Option<string>, userName: string, condiments: Condiments)
    requires ShowModal(c, menu, selected).Some?
    ensures Submit(c, menu, ShowModal(c, menu, selected).value, userName, condiments) != Failure(NoodleNotChosen)
  {
  }

  /** A cart that holds only paid, non-gift menu items. */
  predicate OnlyPaidItems(c: Cart, menu: seq<MenuItem>) {
    forall i :: 0 <= i < |c| ==>
      match FindItem(menu, c[i].id)
      case Some(item) => item.price > 0 && !Text.Contains(item.name, GIFT_MARK)
      case None => false
  }

  /** Reordering a submitted order gives back the cart it was submitted from, gift dropped. */
  lemma RebuildSubmit(c: Cart, menu: seq<MenuItem>, selected: Option<string>, userName: string, condiments: Condiments)
    requires WellFormed(c)
    requires OnlyPaidItems(c, menu)
    requires Submit(c, menu, selected, userName, condiments).Success?
    ensures Rebuild(Submit(c, menu, selected, userName, condiments).value.lines) == c
  {
    RebuildOrderLines(c, menu, selected);
  }

  /** Editing an order rebuilds the cart it was last written from. */
  lemma RebuildUpdate(order: Order, c: Cart, menu: seq<MenuItem>, selected: Option<string>, condiments: Condiments)
    requires WellFormed(c)
    requires OnlyPaidItems(c, menu)
    ensures Update(order, c, menu, selected, condiments).Success?
    ensures Rebuild(Update(order, c, menu, selected, condiments).value.lines) == c
  {
    RebuildOrderLines(c, menu, selected);
  }

  lemma RebuildOrderLines(c: Cart, menu: seq<MenuItem>, selected: Option<string>)
    requires WellFormed(c)
    requires OnlyPaidItems(c, menu)
    ensures OrderLines(c, menu, selected).Success?
    ensures Rebuild(OrderLines(c, menu, selected).value) == c
  {
    assert AllListed(c, menu) by {
      forall i | 0 <= i < |c| ensures FindItem(menu, c[i].id).Some? {
        assert match FindItem(menu, c[i].id) case Some(item) => true case None => false;
      }
    }
    var lines := CartLines(c, menu).value;
    DistinctIdsIndexed(c);
    JsOrderedIndexed(c);
    forall i | 0 <= i < |lines| ensures !IsGiftLine(lines[i]) {
      assert match FindItem(menu, c[i].id) case Some(item) => item.price > 0 && !Text.Contains(item.name, GIFT_MARK) case None => false;
    }
    RebuildKept(lines);
    assert Entries(lines) == c;
    if IsFreeNoodleEligible(Total(c, menu)) && IsChosen(selected) {
      var all := lines + [GiftLine(selected.value)];
      assert all[..|all| - 1] == lines;
    }
  }

  /** The cart entries the lines spell out, one per line. */
  function Entries(lines: seq<OrderLine>): (r: Cart)
    ensures |r| == |lines|
    ensures forall i :: 0 <= i < |lines| ==> r[i] == Entry(lines[i].id, lines[i].count)
  {
    if |lines| == 0 then [] else Entries(lines[..|lines| - 1]) + [Entry(lines[|lines| - 1].id, lines[|lines| - 1].count)]
  }

  /**
   * With no gift lines, no repeated ids and the ids already in JavaScript's
   * key order (as the lines of every submitted cart are), rebuilding keeps
   * every line, in the order given.
   */
  lemma {:induction false} RebuildKept(lines: seq<OrderLine>)
    requires forall i :: 0 <= i < |lines| ==> !IsGiftLine(lines[i])
    requires forall i, j :: 0 <= i < j < |lines| ==> lines[i].id != lines[j].id
    requires forall i, j :: 0 <= i < j < |lines| ==> !KeyBefore(lines[j].id, lines[i].id)
    ensures Rebuild(lines) == Entries(lines)
  {
    if |lines| > 0 {
      var prefix := lines[..|lines| - 1];
      var last := lines[|lines| - 1];
      RebuildKept(prefix);
      var before := Entries(prefix);
      IdsIndexed(before);
      assert last.id !in Ids(before);
      assert forall i :: 0 <= i < |before| ==> !KeyBefore(last.id, before[i].id);
      PutAtEnd(before, last.id, last.count);
    }
  }

  /** The lines of a well-formed cart list its ids in JavaScript's key order. */
  lemma LinesInKeyOrder(c: Cart, menu: seq<MenuItem>)
    requires WellFormed(c)
    requires CartLines(c, menu).Success?
    ensures forall i, j :: 0 <= i < j < |CartLines(c, menu).value| ==>
      !KeyBefore(CartLines(c, menu).value[j].id, CartLines(c, menu).value[i].id)
  {
    JsOrderedIndexed(c);
  }
}
