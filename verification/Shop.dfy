/** The handlers themselves: each one updates the shop's rows in place, all or
    nothing, and is proved to be the transaction the run theorems are about. */
module Shop {
  import opened Common
  import opened Commerce
  import C = Conversations

  /** A line of the confirmed turn: untrusted short id and quantity. */
  datatype DetectedItem = DetectedItem(shortId: string, quantity: int)
  datatype Product = Product(id: string, price: int)

  /** ^[0-9a-f]{8}$ */
  predicate ValidShortId(s: string) {
    |s| == 8 && forall c <- s :: '0' <= c <= '9' || 'a' <= c <= 'f'
  }

  /** The item one detected line resolves to, if any; quantity 0 means 1. */
  function ResolveOne(d: DetectedItem, catalog: map<string, Product>): Option<Item> {
    if ValidShortId(d.shortId) && d.shortId in catalog then
      Some(Item(catalog[d.shortId].id, catalog[d.shortId].price, if d.quantity == 0 then 1 else d.quantity))
    else None
  }

  function Resolve(detected: seq<DetectedItem>, catalog: map<string, Product>): (items: seq<Item>) {
    if detected == [] then []
    else
      var n := |detected| - 1;
      var rest := Resolve(detected[..n], catalog);
      match ResolveOne(detected[n], catalog)
      case Some(item) => rest + [item]
      case None => rest
  }

  /** Every resolved line is a catalogue product in a non-zero quantity, and
      non-negative requests resolve to the positive quantities the stock law needs. */
  lemma {:induction false} ResolvedLines(detected: seq<DetectedItem>, catalog: map<string, Product>)
    ensures forall item <- Resolve(detected, catalog) ::
              && item.quantity != 0
              && exists d <- detected :: ResolveOne(d, catalog) == Some(item)
    ensures (forall d <- detected :: 0 <= d.quantity) ==>
              forall item <- Resolve(detected, catalog) :: 0 < item.quantity
  {
    if detected != [] {
      var n := |detected| - 1;
      ResolvedLines(detected[..n], catalog);
      assert detected == detected[..n] + [detected[n]];
      assert detected[n] in detected;
    }
  }

  /** A line that names a catalogue product by eight lower-case hexadecimal digits. */
  predicate Names(d: DetectedItem, catalog: map<string, Product>) {
    && |d.shortId| == 8 && d.shortId in catalog
    && forall i :: 0 <= i < 8 ==> d.shortId[i] in "0123456789abcdef"
  }

  predicate IsLine(item: Item, d: DetectedItem, catalog: map<string, Product>) {
    && d.shortId in catalog && item.product == catalog[d.shortId].id && item.price == catalog[d.shortId].price
    && item.quantity == if d.quantity == 0 then 1 else d.quantity
  }

  /** `items` are exactly the lines that name a product, each once and in order; `from`
      says where each was. */
  predicate Resolved(detected: seq<DetectedItem>, catalog: map<string, Product>, items: seq<Item>, from: seq<nat>) {
    && |from| == |items| && (forall j, k :: 0 <= j < k < |from| ==> from[j] < from[k])
    && (forall k :: 0 <= k < |from| ==> from[k] < |detected| && Names(detected[from[k]], catalog)
                                        && IsLine(items[k], detected[from[k]], catalog))
    && (forall i :: 0 <= i < |detected| && Names(detected[i], catalog) ==> i in from)
  }

  lemma ResolvedOneMore(detected: seq<DetectedItem>, catalog: map<string, Product>, items: seq<Item>, from: seq<nat>,
                        d: DetectedItem, item: Item)
    requires Resolved(detected, catalog, items, from) && (Names(d, catalog) ==> IsLine(item, d, catalog))
    ensures var named := Names(d, catalog);
            Resolved(detected + [d], catalog, if named then items + [item] else items, if named then from + [|detected|] else from)
  {
    var all, more := detected + [d], if Names(d, catalog) then from + [|detected|] else from;
    forall i | 0 <= i < |all| && Names(all[i], catalog) ensures i in more {
      if i < |detected| {
        assert all[i] == detected[i] && i in from;
      } else {
        assert more[|from|] == i;
      }
    }
  }

  /** Exactly the lines that name a product resolve, each once and in order, with that
      product's id and price and the quantity asked for, or one when it was zero. */
  lemma {:induction false} ResolvedExactly(detected: seq<DetectedItem>, catalog: map<string, Product>) returns (from: seq<nat>)
    ensures Resolved(detected, catalog, Resolve(detected, catalog), from)
  {
    if detected == [] {
      from := [];
    } else {
      var front, last := detected[..|detected| - 1], detected[|detected| - 1];
      assert detected == front + [last];
      from := ResolvedExactly(front, catalog);
      ShortIdIs(last.shortId);
      match ResolveOne(last, catalog)
      case Some(item) =>
        ResolvedOneMore(front, catalog, Resolve(front, catalog), from, last, item);
        from := from + [|front|];
      case None =>
        ResolvedOneMore(front, catalog, Resolve(front, catalog), from, last, Item("", 0, 0));
    }
  }

  lemma ShortIdIs(s: string)
    ensures ValidShortId(s) <==> |s| == 8 && forall i :: 0 <= i < 8 ==> s[i] in "0123456789abcdef"
  {
    if ValidShortId(s) {
      forall i | 0 <= i < 8 ensures s[i] in "0123456789abcdef" {
        assert s[i] in s;
        Hex(s[i]);
      }
    }
    if |s| == 8 && forall i :: 0 <= i < 8 ==> s[i] in "0123456789abcdef" {
      forall i | 0 <= i < 8 ensures '0' <= s[i] <= '9' || 'a' <= s[i] <= 'f' {
        Hex(s[i]);
      }
    }
  }

  lemma Hex(c: char)
    ensures c in "0123456789abcdef" <==> '0' <= c <= '9' || 'a' <= c <= 'f'
  {
    var digits := "0123456789abcdef";
    if '0' <= c <= '9' {
      assert digits[c as int - '0' as int] == c;
    }
    if 'a' <= c <= 'f' {
      assert digits[c as int - 'a' as int + 10] == c;
    }
  }

  method ResolveProducts(detected: seq<DetectedItem>, catalog: map<string, Product>) returns (items: seq<Item>)
    ensures items == Resolve(detected, catalog)
  {
    items := [];
    for i := 0 to |detected|
      invariant items == Resolve(detected[..i], catalog)
    {
      assert detected[..i + 1][..i] == detected[..i];
      var d := detected[i];
      if !ValidShortId(d.shortId) || d.shortId !in catalog {
        continue;
      }
      var quantity := d.quantity;
      if quantity == 0 {
        quantity := 1;
      }
      items := items + [Item(catalog[d.shortId].id, catalog[d.shortId].price, quantity)];
    }
    assert detected[..|detected|] == detected;
  }

  method TotalAmount(items: seq<Item>) returns (total: int)
    ensures total == Total(items)
  {
    total := 0;
    for i := 0 to |items|
      invariant total == Total(items[..i])
    {
      assert items[..i + 1][..i] == items[..i];
      total := total + items[i].price * items[i].quantity;
    }
    assert items[..|items|] == items;
  }

  /** What a product's combined quantity costs. */
  function Worth(items: seq<Item>, price: string -> int): string -> int {
    (p: string) => price(p) * Quantity(items, p)
  }

  /** When every product has one price, the order total is each product's price times
      its combined quantity, over any list of the products ordered. */
  lemma {:induction false} TotalByProduct(items: seq<Item>, price: string -> int, products: seq<string>)
    requires forall item <- items :: item.price == price(item.product) && item.product in products
    requires forall j, k :: 0 <= j < k < |products| ==> products[j] != products[k]
    ensures Total(items) == Sum(products, Worth(items, price))
  {
    if items == [] {
      NoWorth(price, products);
    } else {
      var front, last := items[..|items| - 1], items[|items| - 1];
      TotalByProduct(front, price, products);
      assert items == front + [last] && last in items;
      OneMoreLine(front, last, price, products);
    }
  }

  lemma {:induction false} NoWorth(price: string -> int, products: seq<string>)
    ensures Sum(products, Worth([], price)) == 0
  {
    if products != [] {
      NoWorth(price, products[..|products| - 1]);
    }
  }

  lemma {:induction false} OneMoreLine(items: seq<Item>, item: Item, price: string -> int, products: seq<string>)
    requires forall j, k :: 0 <= j < k < |products| ==> products[j] != products[k]
    ensures Sum(products, Worth(items + [item], price))
         == Sum(products, Worth(items, price)) + if item.product in products then price(item.product) * item.quantity else 0
  {
    if products != [] {
      var n := |products| - 1;
      OneMoreLine(items, item, price, products[..n]);
      LineAdds(items, item, products[n]);
      assert products == products[..n] + [products[n]];
      WorthGrows(items, item, price, products[n]);
    }
  }

  lemma WorthGrows(items: seq<Item>, item: Item, price: string -> int, p: string)
    ensures Worth(items + [item], price)(p)
         == Worth(items, price)(p) + if item.product == p then price(p) * item.quantity else 0
  {
    LineAdds(items, item, p);
  }

  /** One aggregated per-product decrement. */
  datatype Entry = Entry(id: string, qty: int)

  predicate Distinct(entries: seq<Entry>) {
    forall i, j :: 0 <= i < j < |entries| ==> entries[i].id != entries[j].id
  }

  predicate Lists(entries: seq<Entry>, id: string) {
    exists k :: 0 <= k < |entries| && entries[k].id == id
  }

  lemma MentionsAppend(items: seq<Item>, item: Item, p: string)
    ensures Mentions(items + [item], p) <==> Mentions(items, p) || p == item.product
  {
    if Mentions(items, p) {
      var i :| 0 <= i < |items| && items[i].product == p;
      assert (items + [item])[i].product == p;
    }
    assert (items + [item])[|items|].product == item.product;
  }

  /** What the first pass over the lines has built: the running totals, and one
      entry per product seen. */
  predicate Folded(items: seq<Item>, totals: map<string, int>, entries: seq<Entry>) {
    && Distinct(entries)
    && (forall k :: 0 <= k < |entries| ==> entries[k].id in totals)
    && (forall p <- totals :: Lists(entries, p) && Mentions(items, p) && totals[p] == Quantity(items, p))
    && (forall i :: 0 <= i < |items| ==> items[i].product in totals)
  }

  lemma LinesAppend(items: seq<Item>, item: Item, p: string)
    ensures Quantity(items + [item], p) == Quantity(items, p) + QuantityOf(p)(item)
    ensures Mentions(items + [item], p) <==> Mentions(items, p) || p == item.product
  {
    SumAppend(items, item, QuantityOf(p));
    MentionsAppend(items, item, p);
  }

  lemma FoldSeen(items: seq<Item>, totals: map<string, int>, entries: seq<Entry>, item: Item)
    requires Folded(items, totals, entries) && item.product in totals
    ensures Folded(items + [item], totals[item.product := totals[item.product] + item.quantity], entries)
  {
    var totals' := totals[item.product := totals[item.product] + item.quantity];
    forall p <- totals'
      ensures Lists(entries, p) && Mentions(items + [item], p) && totals'[p] == Quantity(items + [item], p)
    {
      LinesAppend(items, item, p);
    }
  }

  lemma FoldNew(items: seq<Item>, totals: map<string, int>, entries: seq<Entry>, item: Item)
    requires Folded(items, totals, entries) && item.product !in totals
    ensures Folded(items + [item], totals[item.product := item.quantity], entries + [Entry(item.product, 0)])
  {
    var totals', entries' := totals[item.product := item.quantity], entries + [Entry(item.product, 0)];
    assert entries'[|entries|].id == item.product;
    assert !Mentions(items, item.product);
    UnmentionedIsZero(items, item.product);
    forall p <- totals'
      ensures Lists(entries', p) && Mentions(items + [item], p) && totals'[p] == Quantity(items + [item], p)
    {
      LinesAppend(items, item, p);
      if p in totals {
        ListsAppend(entries, Entry(item.product, 0), p);
      }
    }
  }

  lemma ListsAppend(entries: seq<Entry>, e: Entry, p: string)
    requires Lists(entries, p)
    ensures Lists(entries + [e], p)
  {
    var k :| 0 <= k < |entries| && entries[k].id == p;
    assert (entries + [e])[k].id == p;
  }

  lemma FoldedLists(items: seq<Item>, totals: map<string, int>, entries: seq<Entry>, p: string)
    requires Folded(items, totals, entries)
    ensures Lists(entries, p) <==> Mentions(items, p)
    ensures p in totals <==> Mentions(items, p)
  {
  }

  /** The first loop: combined quantities, and the products in first-seen order. */
  method FoldItems(items: seq<Item>) returns (qtyByProduct: map<string, int>, listed: seq<Entry>)
    ensures Folded(items, qtyByProduct, listed)
  {
    qtyByProduct, listed := map[], [];
    for i := 0 to |items|
      invariant Folded(items[..i], qtyByProduct, listed)
    {
      var item := items[i];
      assert items[..i + 1] == items[..i] + [item];
      if item.product in qtyByProduct {
        FoldSeen(items[..i], qtyByProduct, listed, item);
      } else {
        FoldNew(items[..i], qtyByProduct, listed, item);
        listed := listed + [Entry(item.product, 0)];
        qtyByProduct := qtyByProduct[item.product := 0];
      }
      qtyByProduct := qtyByProduct[item.product := qtyByProduct[item.product] + item.quantity];
    }
    assert items[..|items|] == items;
  }

  /** Folds the order lines into one entry per product, in first-seen order,
      each carrying the combined quantity as a 32-bit integer. */
  method Aggregate(items: seq<Item>) returns (entries: seq<Entry>)
    ensures Distinct(entries)
    ensures forall p :: Lists(entries, p) <==> Mentions(items, p)
    ensures forall e <- entries :: e.qty == ToInt32(Quantity(items, e.id))
  {
    var qtyByProduct, listed := FoldItems(items);
    entries := Truncated(listed, qtyByProduct);
    assert forall k :: 0 <= k < |listed| ==> qtyByProduct[listed[k].id] == Quantity(items, listed[k].id);
    forall p ensures Lists(entries, p) <==> Mentions(items, p) {
      FoldedLists(items, qtyByProduct, listed, p);
      SameIds(listed, entries, p);
      SameIds(entries, listed, p);
    }
  }

  /** The second loop: int32(quantity) into the parameter array. */
  method Truncated(listed: seq<Entry>, qtyByProduct: map<string, int>) returns (entries: seq<Entry>)
    requires forall k :: 0 <= k < |listed| ==> listed[k].id in qtyByProduct
    ensures |entries| == |listed|
    ensures forall k :: 0 <= k < |entries| ==> entries[k] == Entry(listed[k].id, ToInt32(qtyByProduct[listed[k].id]))
  {
    entries := listed;
    for i := 0 to |entries|
      invariant |entries| == |listed|
      invariant forall k :: i <= k < |entries| ==> entries[k] == listed[k]
      invariant forall k :: 0 <= k < i ==> entries[k] == Entry(listed[k].id, ToInt32(qtyByProduct[listed[k].id]))
    {
      entries := entries[i := Entry(entries[i].id, ToInt32(qtyByProduct[entries[i].id]))];
    }
  }

  lemma SameIds(a: seq<Entry>, b: seq<Entry>, p: string)
    requires |a| == |b| && forall k :: 0 <= k < |a| ==> a[k].id == b[k].id
    ensures Lists(a, p) ==> Lists(b, p)
  {
    if Lists(a, p) {
      var k :| 0 <= k < |a| && a[k].id == p;
      assert b[k].id == p;
    }
  }

  predicate Covers(stock: map<string, int>, e: Entry) { e.id in stock && e.qty <= stock[e.id] }

  /** UPDATE products SET stock = stock - qty WHERE id = entry.id AND stock >= qty:
      touches only rows that hold enough and counts them. */
  method DecrementStockIfAvailable(stock: map<string, int>, entries: seq<Entry>)
    returns (outOfRange: bool, after: map<string, int>, affected: nat)
    requires Distinct(entries)
    ensures outOfRange <==> exists e <- entries :: Overflows(stock, e)
    ensures after.Keys == stock.Keys
    ensures forall e <- entries :: Covers(stock, e) ==> after[e.id] == stock[e.id] - e.qty
    ensures forall p <- stock :: (forall e <- entries :: e.id == p ==> !Covers(stock, e)) ==> after[p] == stock[p]
    ensures affected <= |entries| && (affected == |entries| <==> forall e <- entries :: Covers(stock, e))
  {
    outOfRange, after, affected := false, stock, 0;
    for i := 0 to |entries|
      invariant Lowering(stock, entries, i, outOfRange, after, affected)
    {
      outOfRange, after, affected := LowerRow(stock, entries, i, outOfRange, after, affected);
    }
    LoweredAll(stock, entries, outOfRange, after, affected);
  }

  /** One row of the statement. */
  method LowerRow(ghost stock: map<string, int>, entries: seq<Entry>, i: nat, out: bool, before: map<string, int>, n: nat)
    returns (outOfRange: bool, after: map<string, int>, affected: nat)
    requires i < |entries| && Distinct(entries) && Lowering(stock, entries, i, out, before, n)
    ensures Lowering(stock, entries, i + 1, outOfRange, after, affected)
  {
    outOfRange, after, affected := out, before, n;
    LowerOne(stock, entries, i, out, before, n);
    var e := entries[i];
    if e.id in after && e.qty <= after[e.id] {
      var left := after[e.id] - e.qty;
      if !FitsInt32(left) {
        outOfRange := true;
      }
      after := after[e.id := left];
      affected := affected + 1;
    }
  }

  predicate Overflows(stock: map<string, int>, e: Entry) { Covers(stock, e) && !FitsInt32(stock[e.id] - e.qty) }

  /** The statement has visited the first `i` entries. */
  predicate Lowering(stock: map<string, int>, entries: seq<Entry>, i: nat, outOfRange: bool, after: map<string, int>, affected: nat)
    requires i <= |entries|
  {
    && after.Keys == stock.Keys
    && (outOfRange <==> exists k :: 0 <= k < i && Overflows(stock, entries[k]))
    && (forall k :: 0 <= k < i && Covers(stock, entries[k]) ==> after[entries[k].id] == stock[entries[k].id] - entries[k].qty)
    && (forall p <- stock :: (forall k :: 0 <= k < i && entries[k].id == p ==> !Covers(stock, entries[k])) ==> after[p] == stock[p])
    && affected <= i && (affected == i <==> forall k :: 0 <= k < i ==> Covers(stock, entries[k]))
  }

  lemma LowerOne(stock: map<string, int>, entries: seq<Entry>, i: nat, outOfRange: bool, after: map<string, int>, affected: nat)
    requires i < |entries| && Distinct(entries) && Lowering(stock, entries, i, outOfRange, after, affected)
    ensures var e := entries[i];
            var hit := Covers(stock, e);
            && (hit <==> e.id in after && e.qty <= after[e.id])
            && Lowering(stock, entries, i + 1, outOfRange || Overflows(stock, e),
                        if hit then after[e.id := after[e.id] - e.qty] else after, if hit then affected + 1 else affected)
  {
    var e := entries[i];
    assert forall k :: 0 <= k < i ==> entries[k].id != e.id;
    assert e.id in stock ==> after[e.id] == stock[e.id];
  }

  lemma LoweredAll(stock: map<string, int>, entries: seq<Entry>, outOfRange: bool, after: map<string, int>, affected: nat)
    requires Lowering(stock, entries, |entries|, outOfRange, after, affected)
    ensures outOfRange <==> exists e <- entries :: Overflows(stock, e)
    ensures forall e <- entries :: Covers(stock, e) ==> after[e.id] == stock[e.id] - e.qty
    ensures forall p <- stock :: (forall e <- entries :: e.id == p ==> !Covers(stock, e)) ==> after[p] == stock[p]
    ensures affected == |entries| <==> forall e <- entries :: Covers(stock, e)
  {
    forall k | 0 <= k < |entries| ensures entries[k] in entries {}
  }

  /** The stock part of a checkout: aggregate the lines, lower the stock, compare
      the number of rows touched. */
  method DecrementItems(stock: map<string, int>, items: seq<Item>)
    returns (outOfRange: bool, short: bool, after: map<string, int>)
    ensures outOfRange <==> DecrementOverflows(stock, items)
    ensures short <==> !AllAfford(stock, items)
    ensures !short ==> after == Decremented(stock, items)
  {
    var entries := Aggregate(items);
    var affected;
    outOfRange, after, affected := DecrementStockIfAvailable(stock, entries);
    EntriesAreItems(stock, items, entries);
    short := affected != |entries|;
    if !short {
      DecrementIsSpec(stock, items, entries, after);
    }
  }

  /** Adding every line back adds each product's combined quantity. */
  method AddBack(stock: map<string, int>, items: seq<Item>) returns (after: map<string, int>)
    ensures after.Keys == stock.Keys && forall p <- stock :: after[p] == stock[p] + Quantity(items, p)
    ensures forall p <- stock :: !Mentions(items, p) ==> after[p] == stock[p]
  {
    after := stock;
    for k := 0 to |items|
      invariant AddedBack(stock, after, items[..k])
    {
      AddOneBack(stock, after, items[..k], items[k]);
      assert items[..k + 1] == items[..k] + [items[k]];
      var item := items[k];
      if item.product in after {
        after := after[item.product := after[item.product] + item.quantity];
      }
    }
    assert items[..|items|] == items;
    forall p <- stock | !Mentions(items, p) ensures after[p] == stock[p] {
      UnmentionedIsZero(items, p);
    }
  }

  predicate AddedBack(stock: map<string, int>, after: map<string, int>, items: seq<Item>) {
    after.Keys == stock.Keys && forall p <- stock :: after[p] == stock[p] + Quantity(items, p)
  }

  lemma AddOneBack(stock: map<string, int>, after: map<string, int>, items: seq<Item>, item: Item)
    requires AddedBack(stock, after, items)
    ensures AddedBack(stock, if item.product in after then after[item.product := after[item.product] + item.quantity] else after,
                      items + [item])
  {
    var after' := if item.product in after then after[item.product := after[item.product] + item.quantity] else after;
    forall p <- stock ensures after'[p] == stock[p] + Quantity(items + [item], p) {
      LineAdds(items, item, p);
    }
  }

  lemma LineAdds(items: seq<Item>, item: Item, p: string)
    ensures Quantity(items + [item], p) == Quantity(items, p) + if item.product == p then item.quantity else 0
  {
    SumAppend(items, item, QuantityOf(p));
  }

  class ShopRows {
    var stock: map<string, int>
    var orders: seq<Order>
    var conversations: C.Table
    var events: seq<Event>
    var tasks: set<Task>
    var settling: set<nat>
    var profiles: map<string, Profile>

    function Now(): World
      reads this
    {
      World(stock, orders, conversations, events, tasks, settling, profiles)
    }

    constructor (stock: map<string, int>, conversations: C.Table, profiles: map<string, Profile>)
      ensures Now() == World(stock, [], conversations, [], {}, {}, profiles)
    {
      this.stock, this.conversations, this.profiles := stock, conversations, profiles;
      orders, events, tasks, settling := [], [], {}, {};
    }

    /** Creates one order from a confirmed turn in one transaction; every
        rejection leaves all rows as they were. */
    method HandleCheckout(detected: seq<DetectedItem>, catalog: map<string, Product>,
                          conversation: string, customer: string, sourceMessage: string, business: Business)
      returns (outcome: Outcome)
      modifies this
      ensures var job := CheckoutJob(conversation, customer, sourceMessage, business, Resolve(detected, catalog));
              && outcome == CheckoutOutcome(old(Now()), job)
              && Now() == Checkout(old(Now()), job)
    {
      var items := ResolveProducts(detected, catalog);
      if items == [] {
        return NothingResolved;
      }
      var total := TotalAmount(items);
      if business == Business("") {
        return NoCurrency;
      }
      var (moved, conversations') := C.TransitionTo(conversations, conversation, ORDERABLE, C.State.Invoicing);
      if !moved {
        return NotOrderable;
      }
      if KeyTaken(orders, sourceMessage) {
        return Duplicate;
      }
      var outOfRange, short, stock' := DecrementItems(stock, items);
      if outOfRange {
        return StockOutOfRange;
      }
      if short {
        return InsufficientStock;
      }
      var id := |orders|;
      conversations := conversations';
      orders := orders + [Order(conversation, customer, sourceMessage, total, items, Confirmed, false, false)];
      stock := stock';
      events := InsertEvent(events, Event(id, OrderCreated, customer, total));
      return Created;
    }

    /** Marks an open order CANCELLED, closes its conversation and emits the event together. */
    method CancelOrder(i: nat)
      modifies `orders, `conversations, `events
      ensures Now() == Cancel(old(Now()), i)
    {
      if i >= |orders| || !Open(orders[i].status) {
        return;
      }
      var o := orders[i];
      orders := orders[i := o.(status := Cancelled)];
      conversations := C.Transition(conversations, o.conversation, C.State.Invoicing, C.State.Cancelled);
      events := InsertEvent(events, Event(i, OrderCancelled, o.customer, o.total));
    }

    /** Applies a reconciled payment outcome: a failed payment cancels, anything
        else marks the order PAID and then moves its conversation. */
    method SettleReconciledOrder(i: nat, failed: bool)
      requires i < |orders|
      modifies `orders, `conversations, `events, `settling
      ensures Now() == if failed then Cancel(old(Now()), i) else FinishPaid(MarkPaid(old(Now()), i), i)
    {
      if failed {
        CancelOrder(i);
        return;
      }
      orders := orders[i := orders[i].(status := Paid)];
      settling := settling + {i};
      conversations := C.Transition(conversations, orders[i].conversation, C.State.Invoicing, C.State.Paid);
      settling := settling - {i};
    }

    /** Consumer of order.cancelled: claim the marker, then add each product's
        combined quantity back; an out-of-range sum rolls the claim back too. */
    method Restock(i: nat) returns (restored: bool)
      modifies `orders, `stock
      ensures Now() == HandleRestock(old(Now()), i)
      ensures restored <==> RestockCommits(old(Now()), i)
    {
      if i >= |orders| || orders[i].stockRestored {
        return false;
      }
      var items := orders[i].items;
      var after := AddBack(stock, items);
      if exists p <- stock :: Mentions(items, p) && !FitsInt32(after[p]) {
        return false;
      }
      orders := orders[i := orders[i].(stockRestored := true)];
      stock := after;
      return true;
    }

    /** Consumer of order.created: claim the marker, then count the order. */
    method RecordStats(i: nat, customer: string, total: int)
      modifies `orders, `profiles
      ensures Now() == HandleProfileStats(old(Now()), i, customer, total)
    {
      if i >= |orders| || orders[i].statsRecorded {
        return;
      }
      orders := orders[i := orders[i].(statsRecorded := true)];
      if customer !in profiles {
        return;
      }
      var newTotalOrders := profiles[customer].totalOrders + 1;
      var newTotalSpent := profiles[customer].totalSpent + total;
      profiles := profiles[customer := Profile(newTotalOrders, newTotalSpent)];
    }
  }

  /** The aggregated entries stand for exactly the products the lines mention. */
  lemma EntriesAreItems(stock: map<string, int>, items: seq<Item>, entries: seq<Entry>)
    requires forall p :: Lists(entries, p) <==> Mentions(items, p)
    requires forall e <- entries :: e.qty == ToInt32(Quantity(items, e.id))
    ensures (exists e <- entries :: Overflows(stock, e)) <==> DecrementOverflows(stock, items)
    ensures (forall e <- entries :: Covers(stock, e)) <==> AllAfford(stock, items)
  {
    forall e <- entries ensures Mentions(items, e.id) && (Covers(stock, e) <==> Affords(stock, items, e.id)) {
      assert Lists(entries, e.id);
    }
    if DecrementOverflows(stock, items) {
      var p :| p in stock && Mentions(items, p) && Affords(stock, items, p)
               && !FitsInt32(stock[p] - ToInt32(Quantity(items, p)));
      assert Lists(entries, p);
      var k :| 0 <= k < |entries| && entries[k].id == p;
      assert entries[k] in entries;
    }
    if forall e <- entries :: Covers(stock, e) {
      forall i | 0 <= i < |items| ensures Affords(stock, items, items[i].product) {
        assert Mentions(items, items[i].product);
        assert Lists(entries, items[i].product);
        var k :| 0 <= k < |entries| && entries[k].id == items[i].product;
        assert entries[k] in entries;
      }
    }
    if AllAfford(stock, items) {
      forall e <- entries ensures Covers(stock, e) {
        var i :| 0 <= i < |items| && items[i].product == e.id;
        assert Affords(stock, items, items[i].product);
      }
    }
  }

  lemma DecrementIsSpec(stock: map<string, int>, items: seq<Item>, entries: seq<Entry>, after: map<string, int>)
    requires forall p :: Lists(entries, p) <==> Mentions(items, p)
    requires forall e <- entries :: e.qty == ToInt32(Quantity(items, e.id)) && Covers(stock, e)
    requires after.Keys == stock.Keys
    requires forall e <- entries :: e.id in after && after[e.id] == stock[e.id] - e.qty
    requires forall p <- stock :: (forall e <- entries :: e.id == p ==> !Covers(stock, e)) ==> after[p] == stock[p]
    ensures after == Decremented(stock, items)
  {
    forall p <- stock ensures after[p] == Decremented(stock, items)[p] {
      if Mentions(items, p) {
        assert Lists(entries, p);
        var k :| 0 <= k < |entries| && entries[k].id == p;
        assert entries[k] in entries;
      } else {
        assert forall k :: 0 <= k < |entries| ==> entries[k].id != p;
      }
    }
  }
}
