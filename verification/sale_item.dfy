/** A line item of a sale: a product, its unit price and quantity, the
    quantity-tiered discount and the discounted line total, and a one-way
    cancellation flag. Money is exact (`decimal` in the source). */
module SaleItems {
  import opened Wrappers
  import opened SystemTypes
  import opened Exceptions

  /** `CalculateDiscount`: 20% for 10 to 20 units, otherwise 10% from 4 units
      up, otherwise nothing. The tiers do not cap the quantity: above 20 the
      second test applies. */
  function Discount(quantity: int): (d: real)
    ensures d == 0.0 || d == 0.1 || d == 0.2
  {
    if 10 <= quantity <= 20 then 0.20
    else if quantity >= 4 then 0.10
    else 0.0
  }

  /** `CalculateTotalAmount`: the subtotal less the discount on it. */
  function LineTotal(unitPrice: real, quantity: int): real
  {
    var subtotal := unitPrice * quantity as real;
    subtotal - subtotal * Discount(quantity)
  }

  /** The discount table as the business rules state it, tier by tier. */
  lemma DiscountTiers(quantity: int)
    ensures 1 <= quantity <= 3 ==> Discount(quantity) == 0.0
    ensures 4 <= quantity <= 9 ==> Discount(quantity) == 0.1
    ensures 10 <= quantity <= 20 ==> Discount(quantity) == 0.2
    ensures quantity > 20 ==> Discount(quantity) == 0.1
    ensures quantity <= 0 ==> Discount(quantity) == 0.0
  {
  }

  /** Within the accepted quantities, buying more never lowers the discount. */
  lemma DiscountMonotone(q1: int, q2: int)
    requires 1 <= q1 <= q2 <= 20
    ensures Discount(q1) <= Discount(q2)
  {
  }

  /** The line total is the quantity times the unit price times (1 - discount). */
  lemma LineTotalFactored(unitPrice: real, quantity: int)
    ensures LineTotal(unitPrice, quantity) == quantity as real * unitPrice * (1.0 - Discount(quantity))
  {
  }

  /** For a non-negative price and quantity the line total lies between zero
      and the undiscounted subtotal. */
  lemma LineTotalBounds(unitPrice: real, quantity: int)
    requires unitPrice >= 0.0 && quantity >= 0
    ensures 0.0 <= LineTotal(unitPrice, quantity) <= unitPrice * quantity as real
  {
    var subtotal := unitPrice * quantity as real;
    assert subtotal >= 0.0;
    assert subtotal * Discount(quantity) <= subtotal * 0.2;
  }

  /** A priced item with an accepted quantity contributes a positive amount. */
  lemma LineTotalPositive(unitPrice: real, quantity: int)
    requires unitPrice > 0.0 && 1 <= quantity <= 20
    ensures LineTotal(unitPrice, quantity) > 0.0
  {
    var subtotal := unitPrice * quantity as real;
    assert subtotal > 0.0;
    assert subtotal * Discount(quantity) <= subtotal * 0.2;
  }

  /** The worked example: 10 units at 100 earn 20% and come to 800. */
  lemma LineTotalExample()
    ensures Discount(10) == 0.2 && LineTotal(100.0, 10) == 800.0
  {
  }

  /** The observable state of a line item. */
  datatype ItemView = ItemView(id: Guid, saleId: Guid, productId: Guid, productName: string,
                               unitPrice: real, quantity: int, discount: real,
                               totalAmount: real, isCancelled: bool)

  /** The state of an item just built by the constructor: it has the default
      identifier, the derived discount and total, and is not cancelled. */
  function NewItemView(saleId: Guid, productId: Guid, productName: string, unitPrice: real, quantity: int): ItemView
  {
    ItemView(EmptyGuid, saleId, productId, productName, unitPrice, quantity,
             Discount(quantity), LineTotal(unitPrice, quantity), false)
  }

  class SaleItem {
    /** `Id`: publicly settable; the persistence layer assigns it. */
    var id: Guid
    const saleId: Guid
    const productId: Guid
    const productName: string
    const unitPrice: real
    const quantity: int
    const discount: real
    const totalAmount: real
    var isCancelled: bool

    /** Stores the product fields and derives the discount and total. The
        constructor itself accepts any quantity. */
    constructor (saleId: Guid, productId: Guid, productName: string, unitPrice: real, quantity: int)
      ensures View() == NewItemView(saleId, productId, productName, unitPrice, quantity)
    {
      this.id := EmptyGuid;
      this.saleId := saleId;
      this.productId := productId;
      this.productName := productName;
      this.unitPrice := unitPrice;
      this.quantity := quantity;
      this.discount := Discount(quantity);
      this.totalAmount := LineTotal(unitPrice, quantity);
      this.isCancelled := false;
    }

    function View(): ItemView
      reads this
    {
      ItemView(id, saleId, productId, productName, unitPrice, quantity, discount, totalAmount, isCancelled)
    }

    /** `Cancel`: sets the flag, or throws if it is already set. Nothing else
        about the item changes. */
    method Cancel() returns (r: Outcome<Exception>)
      modifies this
      ensures r == if old(isCancelled) then Fail(Domain("Item is already cancelled")) else Pass
      ensures View() == old(View()).(isCancelled := true)
    {
      if isCancelled {
        return Fail(Domain("Item is already cancelled"));
      }
      isCancelled := true;
      r := Pass;
    }
  }
}
