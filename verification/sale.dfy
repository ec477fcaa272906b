/** The `Sale` aggregate root: a customer's purchase at a branch, made of
    line items added one at a time. The sale keeps its total equal to the
    sum over its active items, cancels one-way, cancels single items, and
    records every change in its domain-event buffer. */
module Sales {
  import opened Wrappers
  import opened SystemTypes
  import opened Text
  import opened Exceptions
  import opened BaseEntity
  import opened SaleItems
  import opened Sequences

  /** `ValidateItemQuantity`: the aggregate's own bound on a line's quantity. */
  function ValidateItemQuantity(quantity: int): (r: Outcome<Exception>)
    ensures r.Pass? <==> 1 <= quantity <= 20
    ensures r.Fail? ==> r.error.Domain?
  {
    if quantity <= 0 then Fail(Domain("Quantity must be greater than zero"))
    else if quantity > 20 then Fail(Domain("Cannot add more than 20 items of the same product"))
    else Pass
  }

  /** What an item contributes to the sale total: nothing once cancelled. */
  function ActiveAmount(v: ItemView): real
  {
    if v.isCancelled then 0.0 else v.totalAmount
  }

  /** `CalculateTotalAmount`: the sum of `TotalAmount` over the items that
      are not cancelled, added up in list order. */
  function Total(items: seq<ItemView>): real
  {
    if items == [] then 0.0 else Total(items[..|items| - 1]) + ActiveAmount(items[|items| - 1])
  }

  /** Appending an item adds what it contributes. */
  lemma TotalAppend(items: seq<ItemView>, v: ItemView)
    ensures Total(items + [v]) == Total(items) + ActiveAmount(v)
  {
    assert (items + [v])[..|items|] == items;
  }

  /** Cancelling an active item lowers the total by exactly that item's amount. */
  lemma {:induction false} TotalAfterCancel(items: seq<ItemView>, k: nat)
    requires k < |items| && !items[k].isCancelled
    ensures Total(items[k := items[k].(isCancelled := true)]) == Total(items) - items[k].totalAmount
  {
    var n := |items|;
    var after := items[k := items[k].(isCancelled := true)];
    if k == n - 1 {
      assert after[..n - 1] == items[..n - 1];
    } else {
      assert after[..n - 1] == items[..n - 1][k := items[k].(isCancelled := true)];
      TotalAfterCancel(items[..n - 1], k);
    }
  }

  /** Items of non-negative amount give a non-negative total. */
  lemma {:induction false} TotalNonNegative(items: seq<ItemView>)
    requires forall i | 0 <= i < |items| :: items[i].totalAmount >= 0.0
    ensures Total(items) >= 0.0
  {
    if items != [] {
      TotalNonNegative(items[..|items| - 1]);
    }
  }

  /** A non-empty list of active items of positive amount has a positive total. */
  lemma {:induction false} TotalPositive(items: seq<ItemView>)
    requires items != []
    requires forall i | 0 <= i < |items| :: !items[i].isCancelled && items[i].totalAmount > 0.0
    ensures Total(items) > 0.0
  {
    if |items| > 1 {
      TotalPositive(items[..|items| - 1]);
    }
  }

  /** `_items.FirstOrDefault(i => i.Id == itemId)`, as the index of the first
      item with that identifier. */
  function FindItem(items: seq<ItemView>, itemId: Guid): (r: Option<nat>)
    ensures r.Some? ==> r.value < |items| && items[r.value].id == itemId
    ensures r.Some? ==> forall j | 0 <= j < r.value :: items[j].id != itemId
    ensures r.None? ==> forall j | 0 <= j < |items| :: items[j].id != itemId
  {
    if items == [] then None
    else if items[0].id == itemId then Some(0)
    else match FindItem(items[1..], itemId)
      case None => None
      case Some(k) => Some(k + 1)
  }

  /** `GenerateSaleNumber`, with the clock reading and the fresh `Guid`
      passed in: "SALE-", the date as `yyyyMMdd`, "-", the first eight
      hexadecimal digits of the `Guid`, all upper-cased. */
  function GenerateSaleNumber(now: DateTime, g: Guid): string
  {
    ToUpper("SALE-" + FixedDigits(now.year, 4, 10) + FixedDigits(now.month, 2, 10)
            + FixedDigits(now.day, 2, 10) + "-" + FixedDigits(g.a, 8, 16))
  }

  /** The shape of a sale number: 22 characters, "SALE-", eight decimal
      digits, "-", eight upper-case hexadecimal digits. */
  lemma SaleNumberShape(now: DateTime, g: Guid)
    ensures var r := GenerateSaleNumber(now, g);
      && |r| == 22 && r[..5] == "SALE-" && r[13] == '-'
      && (forall i | 5 <= i < 13 :: IsAsciiDigit(r[i]))
      && (forall i | 14 <= i < 22 :: IsUpperHexDigit(r[i]))
  {
    NumberShape(FixedDigits(now.year, 4, 10), FixedDigits(now.month, 2, 10), FixedDigits(now.day, 2, 10),
                FixedDigits(g.a, 8, 16));
  }

  /** "SALE-", four, two and two decimal digits, "-" and eight hexadecimal
      digits, upper-cased, have the sale number's shape. */
  lemma NumberShape(year: string, month: string, day: string, hex: string)
    requires |year| == 4 && |month| == 2 && |day| == 2 && |hex| == 8
    requires DigitsBelow(year, 10) && DigitsBelow(month, 10) && DigitsBelow(day, 10) && DigitsBelow(hex, 16)
    ensures var r := ToUpper("SALE-" + year + month + day + "-" + hex);
      && |r| == 22 && r[..5] == "SALE-" && r[13] == '-'
      && (forall i | 5 <= i < 13 :: IsAsciiDigit(r[i]))
      && (forall i | 14 <= i < 22 :: IsUpperHexDigit(r[i]))
  {
    var date := year + month + day;
    assert DigitsBelow(date, 10) by {
      DigitsBelowConcat(year, month, 10);
      DigitsBelowConcat(year + month, day, 10);
    }
    var raw := "SALE-" + year + month + day + "-" + hex;
    var r := ToUpper(raw);
    forall i | 5 <= i < 13 ensures IsAsciiDigit(r[i]) {
      assert raw[i] == date[i - 5];
      DecimalDigitUpper(raw[i]);
    }
    forall i | 14 <= i < 22 ensures IsUpperHexDigit(r[i]) {
      assert raw[i] == hex[i - 14];
      HexDigitUpper(raw[i]);
    }
  }

  /** The sale number can be read back: its digit groups spell the year,
      month and day of the clock reading and the `Guid`'s first field. */
  lemma SaleNumberRoundTrip(now: DateTime, g: Guid)
    ensures var r := GenerateSaleNumber(now, g);
      && |r| == 22
      && DigitsValue(r[5..9], 10) == now.year
      && DigitsValue(r[9..11], 10) == now.month
      && DigitsValue(r[11..13], 10) == now.day
      && DigitsValue(r[14..22], 16) == g.a
  {
    var y, m, d, h := FixedDigits(now.year, 4, 10), FixedDigits(now.month, 2, 10),
                      FixedDigits(now.day, 2, 10), FixedDigits(g.a, 8, 16);
    var raw := "SALE-" + y + m + d + "-" + h;
    var r := GenerateSaleNumber(now, g);
    assert r == ToUpper(raw);
    assert raw[5..9] == y && raw[9..11] == m && raw[11..13] == d && raw[14..22] == h;
    ToUpperSlice(raw, 5, 9);
    ToUpperSlice(raw, 9, 11);
    ToUpperSlice(raw, 11, 13);
    ToUpperSlice(raw, 14, 22);
    DigitsValueToUpper(y, 10);
    DigitsValueToUpper(m, 10);
    DigitsValueToUpper(d, 10);
    DigitsValueToUpper(h, 16);
    SaleNumberFieldsFit(now, g);
  }

  lemma SaleNumberFieldsFit(now: DateTime, g: Guid)
    ensures DigitsValue(FixedDigits(now.year, 4, 10), 10) == now.year
    ensures DigitsValue(FixedDigits(now.month, 2, 10), 10) == now.month
    ensures DigitsValue(FixedDigits(now.day, 2, 10), 10) == now.day
    ensures DigitsValue(FixedDigits(g.a, 8, 16), 16) == g.a
  {
    assert Pow(10, 2) == 100;
    assert Pow(10, 4) == 10000;
    assert Pow(16, 8) == 0x1_0000_0000;
    FixedDigitsRoundTrip(now.year, 4, 10);
    FixedDigitsRoundTrip(now.month, 2, 10);
    FixedDigitsRoundTrip(now.day, 2, 10);
    FixedDigitsRoundTrip(g.a, 8, 16);
  }

  /** The observable states of a list of items, in order. */
  function Views(s: seq<SaleItem>): seq<ItemView>
    reads s
  {
    seq(|s|, i requires 0 <= i < |s| reads s => s[i].View())
  }

  class Sale {
    /** `Id`: publicly settable; the persistence layer assigns it. */
    var id: Guid
    const saleNumber: string
    const saleDate: DateTime
    const customerId: Guid
    const customerName: string
    const branchId: Guid
    const branchName: string
    var isCancelled: bool
    var totalAmount: real
    /** `_items`, in the order they were added. */
    var items: seq<SaleItem>
    /** The `_domainEvents` list the sale inherits. */
    const buffer: EventBuffer

    /** No item object occurs twice in the list. */
    ghost predicate Valid()
      reads this
    {
      forall i, j | 0 <= i < j < |items| :: items[i] != items[j]
    }

    /** `Items`: the items' states, in list order. */
    function Items(): seq<ItemView>
      reads this, items
    {
      Views(items)
    }

    /** The total agrees with the active items, except that a cancelled sale
        may still show the zero that `Cancel` wrote. Every operation keeps
        it, and every successful one establishes it. */
    predicate TotalConsistent()
      reads this, items
    {
      totalAmount == Total(Items()) || (isCancelled && totalAmount == 0.0)
    }

    /** A new sale: no items, a zero total, not cancelled, and the single
        event `SaleCreated`. `now` and `newGuid` stand for `DateTime.UtcNow`
        and `Guid.NewGuid()` read while generating the sale number. */
    constructor (customerId: Guid, customerName: string, branchId: Guid, branchName: string,
                 saleDate: DateTime, now: DateTime, newGuid: Guid)
      ensures Valid() && TotalConsistent()
      ensures this.customerId == customerId && this.customerName == customerName
      ensures this.branchId == branchId && this.branchName == branchName && this.saleDate == saleDate
      ensures saleNumber == GenerateSaleNumber(now, newGuid)
      ensures id == EmptyGuid && !isCancelled && totalAmount == 0.0 && Items() == []
      ensures buffer.events == [SaleCreated]
      ensures fresh(buffer)
    {
      this.id := EmptyGuid;
      this.customerId := customerId;
      this.customerName := customerName;
      this.branchId := branchId;
      this.branchName := branchName;
      this.saleDate := saleDate;
      this.saleNumber := GenerateSaleNumber(now, newGuid);
      this.totalAmount := 0.0;
      this.isCancelled := false;
      this.items := [];
      var b := new EventBuffer();
      this.buffer := b;
      new;
      buffer.AddDomainEvent(SaleCreated);
    }

    /** `UpdateTotalAmount`: sums the active items' amounts into `TotalAmount`. */
    method UpdateTotalAmount()
      modifies this
      ensures totalAmount == Total(Items())
      ensures items == old(items) && isCancelled == old(isCancelled) && id == old(id)
    {
      var sum := 0.0;
      var i := 0;
      while i < |items|
        invariant 0 <= i <= |items|
        invariant sum == Total(Views(items[..i]))
      {
        assert Views(items[..i + 1])[..i] == Views(items[..i]);
        if !items[i].isCancelled {
          sum := sum + items[i].totalAmount;
        }
        i := i + 1;
      }
      TakeWhole(items, i);
      totalAmount := sum;
    }

    /** `AddItem`: a quantity outside 1..20 fails before anything changes;
        otherwise one new item, owned by this sale, is appended, the total is
        recomputed and one `SaleModified` event is recorded. A cancelled sale
        is not refused. */
    method AddItem(productId: Guid, productName: string, unitPrice: real, quantity: int)
      returns (r: Outcome<Exception>)
      requires Valid()
      modifies this, buffer
      ensures Valid()
      ensures r == ValidateItemQuantity(quantity)
      ensures isCancelled == old(isCancelled) && id == old(id)
      ensures r.Fail? ==> && items == old(items) && Items() == old(Items())
                          && totalAmount == old(totalAmount) && buffer.events == old(buffer.events)
      ensures r.Pass? ==> && Items() == old(Items()) + [NewItemView(id, productId, productName, unitPrice, quantity)]
                          && totalAmount == Total(Items())
                          && buffer.events == old(buffer.events) + [SaleModified]
    ensures r.Pass? ==> TotalConsistent()
    ensures old(TotalConsistent()) ==> TotalConsistent()
    {
      r := ValidateItemQuantity(quantity);
      if r.Fail? {
        return;
      }
      ghost var before := Items();
      var item := new SaleItem(id, productId, productName, unitPrice, quantity);
      items := items + [item];
      assert forall j | 0 <= j < |items| - 1 :: items[j].View() == before[j];
      Recompute(SaleModified);
    }

    /** The tail `AddItem` and `CancelItem` share: `UpdateTotalAmount`, then
        the event. The items and their states stay as they are. */
    method Recompute(e: DomainEvent)
      modifies this, buffer
      ensures items == old(items) && Items() == old(Items())
      ensures isCancelled == old(isCancelled) && id == old(id)
      ensures totalAmount == Total(Items())
      ensures buffer.events == old(buffer.events) + [e]
    {
      UpdateTotalAmount();
      buffer.AddDomainEvent(e);
    }

    /** `Cancel`: an active sale becomes cancelled with a zero total and one
        `SaleCancelled` event; cancelling again fails and changes nothing.
        The items keep their own flags. */
    method Cancel() returns (r: Outcome<Exception>)
      modifies this, buffer
      ensures r == if old(isCancelled) then Fail(Domain("Sale is already cancelled")) else Pass
      ensures isCancelled && items == old(items) && Items() == old(Items()) && id == old(id)
      ensures old(isCancelled) ==> totalAmount == old(totalAmount) && buffer.events == old(buffer.events)
      ensures !old(isCancelled) ==> totalAmount == 0.0 && buffer.events == old(buffer.events) + [SaleCancelled]
      ensures r.Pass? ==> TotalConsistent()
      ensures old(TotalConsistent()) ==> TotalConsistent()
    {
      if isCancelled {
        return Fail(Domain("Sale is already cancelled"));
      }
      isCancelled := true;
      totalAmount := 0.0;
      buffer.AddDomainEvent(SaleCancelled);
      r := Pass;
    }

    /** `CancelItem`: the first item with the identifier is cancelled, the
        total recomputed and one `ItemCancelled` event recorded. An unknown
        identifier, or an item already cancelled, fails before the total or
        the events change. */
    method CancelItem(itemId: Guid) returns (r: Outcome<Exception>)
      requires Valid()
      modifies this, buffer, items
      ensures Valid() && items == old(items)
      ensures isCancelled == old(isCancelled) && id == old(id)
      ensures (r, Items()) == CancelItemEffect(old(Items()), itemId, saleNumber)
      ensures r.Fail? ==> totalAmount == old(totalAmount) && buffer.events == old(buffer.events)
      ensures r.Pass? ==> totalAmount == Total(Items()) && buffer.events == old(buffer.events) + [ItemCancelled]
      ensures r.Pass? ==> TotalConsistent()
      ensures old(TotalConsistent()) ==> TotalConsistent()
    {
      var k := FindItem(Items(), itemId);
      if k.None? {
        return Fail(ItemNotFound(itemId, saleNumber));
      }
      ghost var before := Items();
      r := CancelAt(k.value);
      if r.Fail? {
        assert before[k.value := before[k.value].(isCancelled := true)] == before;
        return;
      }
      Recompute(ItemCancelled);
    }

    /** `CancelItem` past the lookup: the item at position `k` cancels
        itself (or throws when it already is cancelled); the other items are
        distinct objects and keep their states. */
    method CancelAt(k: nat) returns (r: Outcome<Exception>)
      requires Valid() && k < |items|
      modifies items[k]
      ensures r == if old(items[k].isCancelled) then Fail(Domain("Item is already cancelled")) else Pass
      ensures Items() == old(Items())[k := old(Items())[k].(isCancelled := true)]
    {
      ghost var before := Items();
      var item := items[k];
      r := item.Cancel();
      forall j | 0 <= j < |items|
        ensures Items()[j] == before[k := before[k].(isCancelled := true)][j]
      {
        if j != k {
          assert items[j] != item;
        }
      }
    }
  }

  /** The exception `CancelItem` throws for an identifier no item has. */
  function ItemNotFound(itemId: Guid, saleNumber: string): Exception
  {
    Domain("Item " + GuidToString(itemId) + " not found in sale " + saleNumber)
  }

  /** What `CancelItem` does to the items' states: its outcome and the new
      states. */
  function CancelItemEffect(items: seq<ItemView>, itemId: Guid, saleNumber: string): (Outcome<Exception>, seq<ItemView>)
  {
    match FindItem(items, itemId)
    case None => (Fail(ItemNotFound(itemId, saleNumber)), items)
    case Some(k) =>
      if items[k].isCancelled then (Fail(Domain("Item is already cancelled")), items)
      else (Pass, items[k := items[k].(isCancelled := true)])
  }

  /** `CancelItem` succeeds exactly when the first item with the identifier
      is active; it then cancels that item alone, which lowers the total by
      that item's amount. On failure the items are untouched. */
  lemma CancelItemEffectSpec(items: seq<ItemView>, itemId: Guid, saleNumber: string)
    ensures var (r, after) := CancelItemEffect(items, itemId, saleNumber);
      && |after| == |items|
      && (r.Pass? <==> FindItem(items, itemId).Some? && !items[FindItem(items, itemId).value].isCancelled)
      && (r.Fail? ==> after == items && r.error.Domain?)
      && (r.Pass? ==>
            var k := FindItem(items, itemId).value;
            && after[k] == items[k].(isCancelled := true)
            && (forall j | 0 <= j < |items| && j != k :: after[j] == items[j])
            && Total(after) == Total(items) - items[k].totalAmount)
  {
    var k := FindItem(items, itemId);
    if k.Some? && !items[k.value].isCancelled {
      TotalAfterCancel(items, k.value);
    }
  }

  /** An identifier that no item carries gives the not-found message, which
      names the identifier and the sale. */
  lemma CancelUnknownItem(items: seq<ItemView>, itemId: Guid, saleNumber: string)
    requires forall j | 0 <= j < |items| :: items[j].id != itemId
    ensures CancelItemEffect(items, itemId, saleNumber)
         == (Fail(Domain("Item " + GuidToString(itemId) + " not found in sale " + saleNumber)), items)
  {
  }

  /** `AddItem` and `CancelItem` do not look at the sale's own flag, so a
      cancelled sale that gains an item shows a non-zero total again: 10
      units at 100 after `Cancel` bring the total of a cancelled sale to 800. */
  method CancelledSaleRegainsTotal(now: DateTime, g: Guid) returns (s: Sale)
    ensures s.isCancelled && s.totalAmount == 800.0
  {
    s := new Sale(EmptyGuid, "Customer", EmptyGuid, "Branch", now, now, g);
    var cancelled := s.Cancel();
    var added := s.AddItem(EmptyGuid, "Product", 100.0, 10);
    assert s.Items() == [NewItemView(s.id, EmptyGuid, "Product", 100.0, 10)];
    assert Total(s.Items()) == 800.0 by {
      TotalAppend([], s.Items()[0]);
      LineTotalExample();
    }
  }
}
