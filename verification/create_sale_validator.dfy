/** `CreateSaleValidator` and the item loop of the create handler that it
    guards: a command the validator accepts always builds a sale with one
    item per command item and a positive total. */
module CreateSaleValidation {
  import opened Wrappers
  import opened SystemTypes
  import opened Text
  import opened Exceptions
  import opened BaseEntity
  import opened SaleItems
  import opened Sales
  import opened Validation
  import opened Sequences

  datatype CreateSaleCommand = CreateSaleCommand(saleDate: DateTime, customerId: Guid, customerName: string,
                                                 branchId: Guid, branchName: string, items: seq<SaleItemCommand>)

  const ItemsRequiredMessage := "At least one item is required"
  const QuantityRangeMessage := "Quantity must be between 1 and 20 items"

  /** What the validator demands, rule by rule; `now` stands for
      `DateTime.UtcNow` read when the validator is built. */
  predicate CreateSaleAccepted(cmd: CreateSaleCommand, now: DateTime)
  {
    && NotEmptyDate(cmd.saleDate) && NotLaterThan(cmd.saleDate, now)
    && NotEmptyGuid(cmd.customerId) && NotEmptyString(cmd.customerName)
    && NotEmptyGuid(cmd.branchId) && NotEmptyString(cmd.branchName)
    && cmd.items != []
    && forall k | 0 <= k < |cmd.items| :: ItemAccepted(cmd.items[k])
  }

  /** The validation result's errors, in rule order. */
  function CreateSaleFailures(cmd: CreateSaleCommand, now: DateTime): (r: seq<ValidationFailure>)
    ensures r == [] <==> CreateSaleAccepted(cmd, now)
  {
    HeaderFailures(cmd, now) + EachItemFailures(cmd.items, 0, Some(QuantityRangeMessage))
  }

  /** The rules before the item rules; `WithMessage` on the items rule
      replaces that rule's text only. */
  function HeaderFailures(cmd: CreateSaleCommand, now: DateTime): seq<ValidationFailure>
  {
    Check(NotEmptyDate(cmd.saleDate), "SaleDate", NotEmpty, None)
    + Check(NotLaterThan(cmd.saleDate, now), "SaleDate", LessThanOrEqualTo, None)
    + Check(NotEmptyGuid(cmd.customerId), "CustomerId", NotEmpty, None)
    + Check(NotEmptyString(cmd.customerName), "CustomerName", NotEmpty, None)
    + Check(NotEmptyGuid(cmd.branchId), "BranchId", NotEmpty, None)
    + Check(NotEmptyString(cmd.branchName), "BranchName", NotEmpty, None)
    + Check(cmd.items != [], "Items", NotEmpty, Some(ItemsRequiredMessage))
  }

  lemma MessageOfMember(fs: seq<ValidationFailure>, f: ValidationFailure)
    requires f in fs
    ensures ErrorMessage(f) in ErrorMessages(fs)
  {
    var k :| 0 <= k < |fs| && fs[k] == f;
    assert ErrorMessages(fs)[k] == ErrorMessage(f);
  }

  /** An item whose quantity lies outside 1..20 (21, say) is reported with
      the custom text. */
  lemma QuantityOutOfRangeReported(cmd: CreateSaleCommand, now: DateTime, k: nat)
    requires k < |cmd.items| && !(1 <= cmd.items[k].quantity <= 20)
    ensures QuantityRangeMessage in ErrorMessages(CreateSaleFailures(cmd, now))
  {
    var f := ValidationFailure(ItemPath(0 + k, "Quantity"), InclusiveBetween(1, 20), Some(QuantityRangeMessage));
    var each := EachItemFailures(cmd.items, 0, Some(QuantityRangeMessage));
    assert f in each by {
      QuantityFailureReported(cmd.items, 0, Some(QuantityRangeMessage), k);
    }
    InRightPart(HeaderFailures(cmd, now), each, f);
    MessageOfMember(CreateSaleFailures(cmd, now), f);
  }

  /** A command without items is reported with the custom text. */
  lemma NoItemsReported(cmd: CreateSaleCommand, now: DateTime)
    requires cmd.items == []
    ensures ItemsRequiredMessage in ErrorMessages(CreateSaleFailures(cmd, now))
  {
    var f := ValidationFailure("Items", NotEmpty, Some(ItemsRequiredMessage));
    assert CreateSaleFailures(cmd, now) == HeaderFailures(cmd, now);
    assert HeaderFailures(cmd, now)[|HeaderFailures(cmd, now)| - 1] == f;
    MessageOfMember(CreateSaleFailures(cmd, now), f);
  }

  /** The item the sale records for a command item. */
  function ItemFor(saleId: Guid, item: SaleItemCommand): ItemView
  {
    NewItemView(saleId, item.productId, item.productName, item.unitPrice, item.quantity)
  }

  /** `n` copies of an event. */
  function Repeat(e: DomainEvent, n: nat): seq<DomainEvent>
  {
    seq(n, _ => e)
  }

  lemma RepeatOneMore(e: DomainEvent, n: nat)
    ensures Repeat(e, n + 1) == Repeat(e, n) + [e]
  {
  }

  /** The items a sale holds after recording `items` in order, each as a new
      item of a sale whose identifier is still the default. */
  function ItemsFor(items: seq<SaleItemCommand>): seq<ItemView>
  {
    seq(|items|, k requires 0 <= k < |items| => ItemFor(EmptyGuid, items[k]))
  }

  /** Recording one more item appends its new-item state. */
  lemma ItemsForPrefix(items: seq<SaleItemCommand>, i: nat)
    requires i < |items|
    ensures ItemsFor(items[..i + 1]) == ItemsFor(items[..i]) + [ItemFor(EmptyGuid, items[i])]
  {
  }

  /** Accepted items, recorded as new items, add up to a positive total. */
  lemma AcceptedItemsTotal(items: seq<SaleItemCommand>)
    requires items != []
    requires forall k | 0 <= k < |items| :: ItemAccepted(items[k])
    ensures Total(ItemsFor(items)) > 0.0
  {
    forall k | 0 <= k < |items| {
      LineTotalPositive(items[k].unitPrice, items[k].quantity);
    }
    TotalPositive(ItemsFor(items));
  }

  /** The create handler up to persisting: validate (throwing FluentValidation's
      exception with every error message), build the sale, then add the items
      in order behind the handler's own `Quantity > 20` guard. For an accepted
      command neither that guard nor `AddItem`'s quantity check can fire, so
      the sale holds one active item per command item and a positive total. */
  method HandleCreateSale(cmd: CreateSaleCommand, now: DateTime, newGuid: Guid) returns (r: Result<Sale, Exception>)
    ensures !CreateSaleAccepted(cmd, now) ==>
      r == Failure(FluentValidation(ErrorMessages(CreateSaleFailures(cmd, now))))
    ensures CreateSaleAccepted(cmd, now) ==>
      && r.Success? && fresh(r.value) && r.value.Valid()
      && r.value.saleDate == cmd.saleDate && r.value.saleNumber == GenerateSaleNumber(now, newGuid)
      && r.value.Items() == ItemsFor(cmd.items)
      && r.value.totalAmount == Total(r.value.Items()) && r.value.totalAmount > 0.0
      && r.value.buffer.events == [SaleCreated] + Repeat(SaleModified, |cmd.items|)
  {
    var failures := CreateSaleFailures(cmd, now);
    if failures != [] {
      return Failure(FluentValidation(ErrorMessages(failures)));
    }
    var sale := new Sale(cmd.customerId, cmd.customerName, cmd.branchId, cmd.branchName, cmd.saleDate, now, newGuid);
    AddCommandItems(sale, cmd.items);
    AcceptedItemsTotal(cmd.items);
    r := Success(sale);
  }

  /** The state after the loop's first `i` passes: the sale holds the first
      `i` command items in order, its total is theirs, and one
      `SaleModified` per pass follows the events it started with. */
  ghost predicate AddedFirst(sale: Sale, items: seq<SaleItemCommand>, i: nat, events0: seq<DomainEvent>)
    reads sale, sale.items, sale.buffer
  {
    && i <= |items|
    && sale.Valid() && sale.id == EmptyGuid
    && sale.Items() == ItemsFor(items[..i])
    && sale.totalAmount == Total(sale.Items())
    && sale.buffer.events == events0 + Repeat(SaleModified, i)
  }

  /** The handler's `foreach` over the command's items. With every
      quantity in 1..20 no pass can throw, so each item is appended in
      order with one `SaleModified` event. */
  method AddCommandItems(sale: Sale, items: seq<SaleItemCommand>)
    requires sale.Valid() && sale.id == EmptyGuid && sale.Items() == [] && sale.totalAmount == 0.0
    requires forall k | 0 <= k < |items| :: 1 <= items[k].quantity <= 20
    modifies sale, sale.buffer
    ensures sale.Valid() && sale.id == EmptyGuid
    ensures sale.Items() == ItemsFor(items) && sale.totalAmount == Total(sale.Items())
    ensures sale.buffer.events == old(sale.buffer.events) + Repeat(SaleModified, |items|)
  {
    ghost var events0 := sale.buffer.events;
    assert events0 + Repeat(SaleModified, 0) == events0;
    var i := 0;
    while i < |items|
      invariant AddedFirst(sale, items, i, events0)
    {
      AddCommandItem(sale, items, i, events0);
      i := i + 1;
    }
    TakeWhole(items, i);
  }

  /** Pass `i` of the loop: the handler's `Quantity > 20` guard, then
      `AddItem`; neither throws for a quantity in 1..20, so the item is
      appended with one event. */
  method AddCommandItem(sale: Sale, items: seq<SaleItemCommand>, i: nat, ghost events0: seq<DomainEvent>)
    requires i < |items| && 1 <= items[i].quantity <= 20
    requires AddedFirst(sale, items, i, events0)
    modifies sale, sale.buffer
    ensures AddedFirst(sale, items, i + 1, events0)
    ensures sale.Items() == old(sale.Items()) + [ItemFor(EmptyGuid, items[i])]
    ensures sale.buffer.events == old(sale.buffer.events) + [SaleModified]
  {
    var item := items[i];
    if item.quantity > 20 {
      assert false;
    }
    var added := sale.AddItem(item.productId, item.productName, item.unitPrice, item.quantity);
    if added.Fail? {
      assert false;
    }
    ItemsForPrefix(items, i);
    RepeatOneMore(SaleModified, i);
  }
}
