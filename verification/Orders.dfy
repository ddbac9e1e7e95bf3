/** From the requested goods to the order total, the payment total and the stored payment
  * records, in 64-bit arithmetic. */
module Orders {
  import opened Wrappers
  import opened MachineIntegers

  // ----- goods -----

  datatype SKU = SKU(sn: string, quantity: Int64)

  datatype ProductSKU = ProductSKU(id: int, spu: int, price: Int64, stock: Int64)

  /** The product service: stock-keeping units by serial number, and the known products. */
  datatype Catalogue = Catalogue(skus: map<string, ProductSKU>, spus: set<int>)

  datatype Item = Item(spu: int, sku: int, sn: string, originalPrice: Int64, realPrice: Int64, quantity: Int64)

  datatype Error = NoGoods | UnknownSKU | BadQuantity | UnknownSPU | BadChannel | AmountMismatch

  /** What is wrong with one requested unit, if anything. */
  function Fault(c: Catalogue, s: SKU): Option<Error> {
    if s.sn !in c.skus then Some(UnknownSKU)
    else if s.quantity < 1 || s.quantity > c.skus[s.sn].stock then Some(BadQuantity)
    else if c.skus[s.sn].spu !in c.spus then Some(UnknownSPU)
    else None
  }

  function ItemOf(c: Catalogue, s: SKU): Item
    requires Fault(c, s).None?
  {
    var p := c.skus[s.sn];
    Item(p.spu, p.id, s.sn, p.price, p.price, s.quantity)
  }

  /** The first fault of a request, in its order. */
  function FirstFault(c: Catalogue, skus: seq<SKU>): Option<Error> {
    if skus == [] then None
    else
      var earlier := FirstFault(c, skus[..|skus| - 1]);
      if earlier.Some? then earlier else Fault(c, skus[|skus| - 1])
  }

  /** The items of a faultless request. */
  function ItemsOf(c: Catalogue, skus: seq<SKU>): seq<Item>
    requires FirstFault(c, skus).None?
  {
    if skus == [] then [] else ItemsOf(c, skus[..|skus| - 1]) + [ItemOf(c, skus[|skus| - 1])]
  }

  function RealPrice(i: Item): int { i.realPrice * i.quantity }
  function OriginalPrice(i: Item): int { i.originalPrice * i.quantity }

  /** The price of everything, as a whole number. */
  function RealTotal(items: seq<Item>): int {
    if items == [] then 0 else RealTotal(items[..|items| - 1]) + RealPrice(items[|items| - 1])
  }

  function OriginalTotal(items: seq<Item>): int {
    if items == [] then 0 else OriginalTotal(items[..|items| - 1]) + OriginalPrice(items[|items| - 1])
  }

  lemma TotalsAppend(items: seq<Item>, item: Item)
    ensures RealTotal(items + [item]) == RealTotal(items) + RealPrice(item)
    ensures OriginalTotal(items + [item]) == OriginalTotal(items) + OriginalPrice(item)
  {
    assert (items + [item])[..|items|] == items;
  }

  datatype Order = Order(items: seq<Item>, originalTotal: Int64, realTotal: Int64)

  /** Looking up and checking one requested unit. */
  method FindItem(c: Catalogue, sku: SKU) returns (r: Result<Item, Error>)
    ensures Fault(c, sku).None? ==> r == Success(ItemOf(c, sku))
    ensures Fault(c, sku).Some? ==> r == Failure(Fault(c, sku).value)
  {
    if sku.sn !in c.skus { return Failure(UnknownSKU); }
    var productSKU := c.skus[sku.sn];
    if sku.quantity < 1 || sku.quantity > productSKU.stock { return Failure(BadQuantity); }
    if productSKU.spu !in c.spus { return Failure(UnknownSPU); }
    return Success(Item(productSKU.spu, productSKU.id, sku.sn, productSKU.price, productSKU.price, sku.quantity));
  }

  lemma {:induction false} FaultStays(c: Catalogue, skus: seq<SKU>, n: nat)
    requires n <= |skus| && FirstFault(c, skus[..n]).Some?
    ensures FirstFault(c, skus) == FirstFault(c, skus[..n])
  {
    if n < |skus| {
      assert skus[..|skus| - 1][..n] == skus[..n];
      FaultStays(c, skus[..|skus| - 1], n);
    } else {
      assert skus[..n] == skus;
    }
  }

  lemma ItemsNext(c: Catalogue, skus: seq<SKU>, i: nat)
    requires i < |skus| && FirstFault(c, skus[..i]).None?
    ensures FirstFault(c, skus[..i + 1]) == Fault(c, skus[i])
    ensures Fault(c, skus[i]).None? ==> ItemsOf(c, skus[..i + 1]) == ItemsOf(c, skus[..i]) + [ItemOf(c, skus[i])]
  {
    assert skus[..i + 1][..i] == skus[..i];
  }

  /** The sum goes on in 64-bit arithmetic, wrapping as it may. */
  lemma RealNext(items: seq<Item>, item: Item)
    ensures S64(RealTotal(items + [item])) == S64(S64(RealTotal(items)) + S64(RealPrice(item)))
  {
    TotalsAppend(items, item);
    S64Adds(RealTotal(items), RealPrice(item));
  }

  lemma OriginalNext(items: seq<Item>, item: Item)
    ensures S64(OriginalTotal(items + [item])) == S64(S64(OriginalTotal(items)) + S64(OriginalPrice(item)))
  {
    TotalsAppend(items, item);
    S64Adds(OriginalTotal(items), OriginalPrice(item));
  }

  /** Two running totals of the items so far. */
  predicate Totals(items: seq<Item>, original: int, paid: int) {
    original == S64(OriginalTotal(items)) && paid == S64(RealTotal(items))
  }

  lemma TotalsNext(items: seq<Item>, item: Item, original: int, paid: int)
    requires Totals(items, original, paid)
    ensures Totals(items + [item], S64(original + S64(OriginalPrice(item))), S64(paid + S64(RealPrice(item))))
  {
    OriginalNext(items, item);
    RealNext(items, item);
  }

  // ----- what is asked for -----

  /** The unit is known, of a known product, and in stock in the requested quantity. */
  predicate Sold(c: Catalogue, s: SKU) {
    s.sn in c.skus && 1 <= s.quantity <= c.skus[s.sn].stock && c.skus[s.sn].spu in c.spus
  }

  /** Why a unit is refused. */
  predicate RefusedFor(c: Catalogue, s: SKU, e: Error) {
    if s.sn !in c.skus then e == UnknownSKU
    else if !(1 <= s.quantity <= c.skus[s.sn].stock) then e == BadQuantity
    else e == UnknownSPU && c.skus[s.sn].spu !in c.spus
  }

  /** The item of a requested unit: number and quantity from the request, products and price from
    * the catalogue. */
  predicate ItemFor(c: Catalogue, s: SKU, item: Item) {
    && item.sn == s.sn && item.quantity == s.quantity
    && s.sn in c.skus && item.sku == c.skus[s.sn].id && item.spu == c.skus[s.sn].spu
    && item.realPrice == c.skus[s.sn].price && item.originalPrice == c.skus[s.sn].price
  }

  /** What the catalogue asks for the requested quantities, as a whole number. */
  function GoodsTotal(c: Catalogue, skus: seq<SKU>): int
    requires forall i | 0 <= i < |skus| :: Sold(c, skus[i])
  {
    if skus == [] then 0
    else
      var k := |skus| - 1;
      assert Sold(c, skus[k]);
      GoodsTotal(c, skus[..k]) + c.skus[skus[k].sn].price * skus[k].quantity
  }

  lemma {:induction false} NoFaultMeans(c: Catalogue, skus: seq<SKU>)
    ensures FirstFault(c, skus).None? <==> forall i | 0 <= i < |skus| :: Sold(c, skus[i])
  {
    if skus != [] { NoFaultMeans(c, skus[..|skus| - 1]); }
  }

  lemma {:induction false} FirstFaultMeans(c: Catalogue, skus: seq<SKU>) returns (i: nat)
    requires FirstFault(c, skus).Some?
    ensures i < |skus| && !Sold(c, skus[i]) && RefusedFor(c, skus[i], FirstFault(c, skus).value)
    ensures forall j | 0 <= j < i :: Sold(c, skus[j])
  {
    var k := |skus| - 1;
    if FirstFault(c, skus[..k]).Some? {
      i := FirstFaultMeans(c, skus[..k]);
    } else {
      i := k;
      NoFaultMeans(c, skus[..k]);
    }
  }

  lemma {:induction false} ItemsAre(c: Catalogue, skus: seq<SKU>)
    requires FirstFault(c, skus).None?
    ensures |ItemsOf(c, skus)| == |skus| && forall i | 0 <= i < |skus| :: ItemFor(c, skus[i], ItemsOf(c, skus)[i])
  {
    if skus != [] { ItemsAre(c, skus[..|skus| - 1]); }
  }

  /** The items cost what the catalogue asks. */
  lemma {:induction false} TotalsAre(c: Catalogue, skus: seq<SKU>)
    requires FirstFault(c, skus).None?
    ensures forall i | 0 <= i < |skus| :: Sold(c, skus[i])
    ensures RealTotal(ItemsOf(c, skus)) == GoodsTotal(c, skus) == OriginalTotal(ItemsOf(c, skus))
  {
    NoFaultMeans(c, skus);
    if skus != [] {
      var k := |skus| - 1;
      TotalsAre(c, skus[..k]);
      TotalsAppend(ItemsOf(c, skus[..k]), ItemOf(c, skus[k]));
    }
  }

  /** The first faulty unit decides the error; otherwise the totals are the sums, on 64 bits. */
  method GetDomainOrderItems(c: Catalogue, skus: seq<SKU>) returns (r: Result<Order, Error>)
    ensures r.Success? <==> skus != [] && forall i | 0 <= i < |skus| :: Sold(c, skus[i])
    ensures r.Success? ==>
              && |r.value.items| == |skus|
              && (forall i | 0 <= i < |skus| :: ItemFor(c, skus[i], r.value.items[i]))
              && r.value.realTotal == r.value.originalTotal == S64(GoodsTotal(c, skus))
    ensures r.Success? ==> FirstFault(c, skus).None? && r.value.items == ItemsOf(c, skus)
    ensures r.Failure? ==>
              if skus == [] then r.error == NoGoods
              else exists i :: 0 <= i < |skus| && !Sold(c, skus[i]) && RefusedFor(c, skus[i], r.error) &&
                               forall j | 0 <= j < i :: Sold(c, skus[j])
  {
    NoFaultMeans(c, skus);
    if |skus| == 0 { return Failure(NoGoods); }
    var orderItems: seq<Item> := [];
    var originalTotalAmt: Int64, realTotalAmt: Int64 := 0, 0;
    for i := 0 to |skus|
      invariant FirstFault(c, skus[..i]).None? && orderItems == ItemsOf(c, skus[..i])
      invariant Totals(orderItems, originalTotalAmt, realTotalAmt)
    {
      ItemsNext(c, skus, i);
      var found := FindItem(c, skus[i]);
      if found.Failure? {
        FaultStays(c, skus, i + 1);
        var first := FirstFaultMeans(c, skus);
        return Failure(found.error);
      }
      var item := found.value;
      TotalsNext(orderItems, item, originalTotalAmt, realTotalAmt);
      originalTotalAmt := S64(originalTotalAmt + S64(OriginalPrice(item)));
      realTotalAmt := S64(realTotalAmt + S64(RealPrice(item)));
      orderItems := orderItems + [item];
    }
    assert skus[..|skus|] == skus;
    ItemsAre(c, skus);
    TotalsAre(c, skus);
    return Success(Order(orderItems, originalTotalAmt, realTotalAmt));
  }

  // ----- payment -----

  /** What the request asks for: a channel number of any size, and an amount. */
  datatype PaymentItem = PaymentItem(kind: Int64, amount: Int64)

  type Byte = b: int | 0 <= b < 256

  datatype Record = Record(channel: Byte, amount: Int64)

  datatype Payment = Payment(total: Int64, records: seq<Record>)

  /** The conversion of a channel number keeps its last eight bits. */
  function Converted(item: PaymentItem): Record {
    Record(item.kind % 256, item.amount)
  }

  function Records(items: seq<PaymentItem>): (records: seq<Record>)
    ensures |records| == |items|
  {
    seq(|items|, i requires 0 <= i < |items| => Converted(items[i]))
  }

  /** Credit, WeChat and WeChat JS are 1, 2 and 3. */
  predicate Known(channel: Byte) { 1 <= channel <= 3 }

  predicate KnownChannels(items: seq<PaymentItem>) {
    forall i | 0 <= i < |items| :: Known(Converted(items[i]).channel)
  }

  function Paid(records: seq<Record>): int {
    if records == [] then 0 else Paid(records[..|records| - 1]) + records[|records| - 1].amount
  }

  /** The sum of the amounts that were sent, as a whole number. */
  function Sent(items: seq<PaymentItem>): int {
    Paid(Records(items))
  }

  lemma PaidAppend(records: seq<Record>, r: Record)
    ensures Paid(records + [r]) == Paid(records) + r.amount
  {
    assert (records + [r])[..|records|] == records;
  }

  lemma RecordsNext(items: seq<PaymentItem>, i: nat)
    requires i < |items|
    ensures Records(items[..i + 1]) == Records(items[..i]) + [Converted(items[i])]
    ensures S64(S64(Sent(items[..i])) + items[i].amount) == S64(Sent(items[..i + 1]))
  {
    PaidAppend(Records(items[..i]), Converted(items[i]));
    S64AddsOne(Sent(items[..i]), items[i].amount);
  }

  /** What the code accepts as a payment of `total`. */
  predicate Accepted(items: seq<PaymentItem>, total: Int64) {
    KnownChannels(items) && S64(Sent(items)) == total
  }

  method CreatePayment(order: Order, items: seq<PaymentItem>) returns (r: Result<Payment, Error>)
    ensures r.Success? <==> Accepted(items, order.realTotal)
    ensures r.Success? ==> r.value == Payment(order.realTotal, Records(items))
    ensures r.Success? ==>
              forall i | 0 <= i < |items| ::
                var rec := r.value.records[i];
                rec.channel == items[i].kind % 256 && rec.channel in {1, 2, 3} && rec.amount == items[i].amount
    ensures r.Failure? ==>
              r.error ==
              if forall i | 0 <= i < |items| :: items[i].kind % 256 in {1, 2, 3} then AmountMismatch else BadChannel
  {
    var records: seq<Record> := [];
    var realTotalAmt: Int64 := 0;
    for i := 0 to |items|
      invariant records == Records(items[..i])
      invariant forall k | 0 <= k < i :: Known(Converted(items[k]).channel)
      invariant realTotalAmt == S64(Sent(items[..i]))
    {
      var pc := items[i];
      var channel: Byte := pc.kind % 256;
      if !Known(channel) { return Failure(BadChannel); }
      RecordsNext(items, i);
      records := records + [Record(channel, pc.amount)];
      realTotalAmt := S64(realTotalAmt + pc.amount);
    }
    assert items[..|items|] == items;
    if realTotalAmt != order.realTotal { return Failure(AmountMismatch); }
    return Success(Payment(order.realTotal, records));
  }

  // ----- does the payment cover the goods? -----

  /** Which word of 2^64 numbers, centred at zero, a number lies in. */
  function Word(x: int): int {
    (x + WORD / 2) / WORD
  }

  predicate Fits(x: int) {
    -WORD / 2 <= x < WORD / 2
  }

  /** A number is its 64-bit value and its word. */
  lemma WordAndValue(x: int)
    ensures x == S64(x) + Word(x) * WORD
    ensures Fits(x) <==> Word(x) == 0
  {
    U64Equal(S64(x), x);
    var k := S64(x) / WORD - x / WORD;
    assert x == S64(x) - k * WORD;
  }

  lemma SameValue(x: int, y: int)
    requires S64(x) == S64(y)
    ensures x == y <==> Word(x) == Word(y)
  {
    WordAndValue(x);
    WordAndValue(y);
  }

  /** An accepted payment is for exactly what the goods cost if and only if the amounts that were
    * sent sum up to the same word as the price: for a price of 64 bits, if their sum fits too. */
  lemma PaymentCoversGoods(c: Catalogue, skus: seq<SKU>, order: Order, items: seq<PaymentItem>)
    requires (forall i | 0 <= i < |skus| :: Sold(c, skus[i])) && order.realTotal == S64(GoodsTotal(c, skus))
    requires Accepted(items, order.realTotal)
    ensures Sent(items) == GoodsTotal(c, skus) <==> Word(Sent(items)) == Word(GoodsTotal(c, skus))
    ensures Fits(GoodsTotal(c, skus)) ==> (Sent(items) == GoodsTotal(c, skus) <==> Fits(Sent(items)))
  {
    SumsAgree(GoodsTotal(c, skus), Sent(items), order.realTotal);
  }

  lemma SumsAgree(x: int, y: int, total: int)
    requires S64(x) == total == S64(y)
    ensures y == x <==> Word(y) == Word(x)
    ensures Fits(x) ==> (y == x <==> Fits(y))
  {
    SameValue(x, y);
    WordAndValue(x);
    WordAndValue(y);
  }

  /** Three amounts that are accepted for every price but sum up to a whole word more. */
  lemma WordTooMuch(price: Int64)
    requires 0 <= price < 0x7FFF_FFFF_FFFF_FFFE
    ensures var items := [PaymentItem(1, 0x7FFF_FFFF_FFFF_FFFF), PaymentItem(2, 0x7FFF_FFFF_FFFF_FFFF),
                          PaymentItem(3, price + 2)];
            Accepted(items, price) && Sent(items) == price + WORD
  {
    var a, b, c := Record(1, 0x7FFF_FFFF_FFFF_FFFF), Record(2, 0x7FFF_FFFF_FFFF_FFFF), Record(3, price + 2);
    var items := [PaymentItem(1, a.amount), PaymentItem(2, b.amount), PaymentItem(3, c.amount)];
    assert Records(items) == [] + [a] + [b] + [c];
    PaidAppend([], a);
    PaidAppend([a], b);
    PaidAppend([a, b], c);
    U64Shift(price, 1);
  }

  // ----- storing the payment -----

  predicate Has(records: seq<Record>, channel: int) {
    exists i | 0 <= i < |records| :: records[i].channel == channel
  }

  /** The table has one record per channel: the first one stays. */
  function Stored(records: seq<Record>): seq<Record> {
    if records == [] then []
    else
      var k := |records| - 1;
      var before := Stored(records[..k]);
      if Has(records[..k], records[k].channel) then before else before + [records[k]]
  }

  predicate DistinctChannels(items: seq<PaymentItem>) {
    forall i, j | 0 <= i < j < |items| :: Converted(items[i]).channel != Converted(items[j]).channel
  }

  /** An item whose channel an earlier one has taken. */
  predicate Repeats(items: seq<PaymentItem>, i: nat)
    requires i < |items|
  {
    exists j | 0 <= j < i :: Converted(items[j]).channel == Converted(items[i]).channel
  }

  lemma StoredNext(items: seq<PaymentItem>, k: nat)
    requires |items| == k + 1
    ensures Records(items) == Records(items[..k]) + [Converted(items[k])]
    ensures Stored(Records(items)) ==
            Stored(Records(items[..k])) + if Repeats(items, k) then [] else [Converted(items[k])]
    ensures forall i: nat | i < k :: Repeats(items, i) <==> Repeats(items[..k], i)
  {
    var before := Records(items[..k]);
    assert Records(items)[..k] == before;
    assert Has(before, Converted(items[k]).channel) <==> Repeats(items, k) by {
      if i :| 0 <= i < |before| && before[i].channel == Converted(items[k]).channel {
        assert Converted(items[i]).channel == Converted(items[k]).channel;
      }
      if j :| 0 <= j < k && Converted(items[j]).channel == Converted(items[k]).channel {
        assert before[j].channel == Converted(items[k]).channel;
      }
    }
  }

  predicate NoneNegative(items: seq<PaymentItem>) {
    forall i | 0 <= i < |items| :: items[i].amount >= 0
  }

  predicate RepeatsAreFree(items: seq<PaymentItem>) {
    forall i: nat | i < |items| :: Repeats(items, i) ==> items[i].amount == 0
  }

  lemma StoredSumNext(items: seq<PaymentItem>, k: nat)
    requires |items| == k + 1
    ensures Sent(items) == Sent(items[..k]) + items[k].amount
    ensures Paid(Stored(Records(items))) ==
            Paid(Stored(Records(items[..k]))) + if Repeats(items, k) then 0 else items[k].amount
  {
    StoredNext(items, k);
    PaidAppend(Records(items[..k]), Converted(items[k]));
    PaidAppend(Stored(Records(items[..k])), Converted(items[k]));
    assert Stored(Records(items[..k])) + [] == Stored(Records(items[..k]));
  }

  lemma FreeNext(items: seq<PaymentItem>, k: nat)
    requires |items| == k + 1
    ensures RepeatsAreFree(items) <==> RepeatsAreFree(items[..k]) && (Repeats(items, k) ==> items[k].amount == 0)
  {
    StoredNext(items, k);
  }

  lemma {:induction false} StoredIsLess(items: seq<PaymentItem>)
    requires NoneNegative(items)
    ensures Paid(Stored(Records(items))) <= Sent(items)
    ensures Paid(Stored(Records(items))) == Sent(items) <==> RepeatsAreFree(items)
  {
    if items != [] {
      var k := |items| - 1;
      StoredIsLess(items[..k]);
      StoredSumNext(items, k);
      FreeNext(items, k);
    }
  }

  lemma {:induction false} StoredIsAll(items: seq<PaymentItem>)
    ensures |Stored(Records(items))| <= |items|
    ensures Stored(Records(items)) == Records(items) <==> DistinctChannels(items)
  {
    if items != [] {
      var k := |items| - 1;
      StoredIsAll(items[..k]);
      StoredNext(items, k);
      assert DistinctChannels(items) <==> DistinctChannels(items[..k]) && !Repeats(items, k);
    }
  }

  /** All records are stored exactly when the converted channels differ. Of amounts that are not
    * negative nothing is lost exactly when every item whose channel is taken is for nothing; so
    * with positive amounts, exactly when the converted channels differ. */
  lemma StoredSum(items: seq<PaymentItem>)
    ensures Stored(Records(items)) == Records(items) <==> DistinctChannels(items)
    ensures NoneNegative(items) ==> (Paid(Stored(Records(items))) == Sent(items) <==> RepeatsAreFree(items))
    ensures (forall i | 0 <= i < |items| :: items[i].amount > 0) ==>
              (Paid(Stored(Records(items))) == Sent(items) <==> DistinctChannels(items))
  {
    StoredIsAll(items);
    if NoneNegative(items) { StoredIsLess(items); }
    assert (forall i | 0 <= i < |items| :: items[i].amount > 0) ==>
        (RepeatsAreFree(items) <==> DistinctChannels(items));
  }

  /** Paying twice by credit: accepted for ten, stored for five. The second number is 1 again on
    * eight bits. */
  lemma CreditTwice(kind: Int64)
    requires kind % 256 == 1
    ensures var items := [PaymentItem(1, 5), PaymentItem(kind, 5)];
            Accepted(items, 10) && Stored(Records(items)) == [Record(1, 5)] && Paid(Stored(Records(items))) == 5
  {
    var items := [PaymentItem(1, 5), PaymentItem(kind, 5)];
    var r := Record(1, 5);
    assert Records(items) == [] + [r] + [r];
    PaidAppend([], r);
    PaidAppend([r], r);
    StoredNext(items, 1);
    assert items[..1] == [PaymentItem(1, 5)];
    StoredNext(items[..1], 0);
    assert Converted(items[0]).channel == Converted(items[1]).channel;
  }
}
