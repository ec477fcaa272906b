/** The FluentValidation vocabulary the command validators use: the rule
    kinds, a failure record per failed rule, and the emptiness tests of
    `NotEmpty()` for each property type. Every rule runs (the default
    cascade), and failures are reported in rule order. */
module Validation {
  import opened Wrappers
  import opened SystemTypes
  import opened Text

  datatype Rule =
    | NotEmpty
    | LessThanOrEqualTo
    | GreaterThan
    | InclusiveBetween(from: int, to: int)
    | Matches

  /** One failed rule: the property path, the rule, and the `WithMessage`
      text when the rule has one. */
  datatype ValidationFailure = ValidationFailure(propertyName: string, rule: Rule, customMessage: Option<string>)

  /** The failure's `ErrorMessage`: the custom text, or the rule's default
      text naming the property. */
  function ErrorMessage(f: ValidationFailure): string
  {
    if f.customMessage.Some? then f.customMessage.value
    else DefaultMessage(f.propertyName, f.rule)
  }

  /** FluentValidation's English default texts, with the compared values left out. */
  function DefaultMessage(propertyName: string, rule: Rule): string
  {
    var name := "'" + propertyName + "'";
    match rule
    case NotEmpty => name + " must not be empty."
    case LessThanOrEqualTo => name + " must be less than or equal to the limit."
    case GreaterThan => name + " must be greater than the limit."
    case InclusiveBetween(from, to) => name + " must be between " + NatOrNegative(from) + " and " + NatOrNegative(to) + "."
    case Matches => name + " is not in the correct format."
  }

  function NatOrNegative(n: int): string
  {
    if n >= 0 then NatToString(n) else "-" + NatToString(-n)
  }

  /** The messages of a list of failures, in order. */
  function ErrorMessages(fs: seq<ValidationFailure>): (r: seq<string>)
    ensures |r| == |fs|
    ensures forall i | 0 <= i < |fs| :: r[i] == ErrorMessage(fs[i])
  {
    if fs == [] then [] else [ErrorMessage(fs[0])] + ErrorMessages(fs[1..])
  }

  /** The failures of one rule: none when it holds, one otherwise. */
  function Check(holds: bool, propertyName: string, rule: Rule, customMessage: Option<string>): (r: seq<ValidationFailure>)
    ensures r == [] <==> holds
  {
    if holds then [] else [ValidationFailure(propertyName, rule, customMessage)]
  }

  /** `NotEmpty()` on a string: not null, not empty, not only white space
      (`null` is represented by the empty string). */
  predicate NotEmptyString(s: string)
  {
    !IsNullOrWhiteSpace(s)
  }

  /** `NotEmpty()` on a `Guid`: not `Guid.Empty`. */
  predicate NotEmptyGuid(g: Guid)
  {
    g != EmptyGuid
  }

  /** `NotEmpty()` on a `DateTime`: not `default(DateTime)`. */
  predicate NotEmptyDate(d: DateTime)
  {
    d != MinDateTime
  }

  /** The item command both validators check with `ChildRules`. */
  datatype SaleItemCommand = SaleItemCommand(productId: Guid, productName: string, unitPrice: real, quantity: int)

  /** What the item rules demand of one item. */
  predicate ItemAccepted(item: SaleItemCommand)
  {
    && NotEmptyGuid(item.productId)
    && NotEmptyString(item.productName)
    && item.unitPrice > 0.0
    && 1 <= item.quantity <= 20
  }

  /** `Items[i]`, the property path of an item's rules. */
  function ItemPath(i: nat, property: string): string
  {
    "Items[" + NatToString(i) + "]." + property
  }

  /** The child rules on item `i`, in declaration order; `quantityMessage`
      is the quantity rule's `WithMessage` text, if any. */
  function ItemFailures(i: nat, item: SaleItemCommand, quantityMessage: Option<string>): (r: seq<ValidationFailure>)
    ensures r == [] <==> ItemAccepted(item)
  {
    Check(NotEmptyGuid(item.productId), ItemPath(i, "ProductId"), NotEmpty, None)
    + Check(NotEmptyString(item.productName), ItemPath(i, "ProductName"), NotEmpty, None)
    + Check(item.unitPrice > 0.0, ItemPath(i, "UnitPrice"), GreaterThan, None)
    + Check(1 <= item.quantity <= 20, ItemPath(i, "Quantity"), InclusiveBetween(1, 20), quantityMessage)
  }

  /** `RuleForEach(x => x.Items).ChildRules(...)`: item by item, from
      position `start`. */
  function EachItemFailures(items: seq<SaleItemCommand>, start: nat, quantityMessage: Option<string>): (r: seq<ValidationFailure>)
    ensures r == [] <==> forall k | 0 <= k < |items| :: ItemAccepted(items[k])
    decreases |items|
  {
    if items == [] then []
    else ItemFailures(start, items[0], quantityMessage) + EachItemFailures(items[1..], start + 1, quantityMessage)
  }

  /** An item that breaks the quantity rule contributes exactly that
      rule's failure, under its own path, among the item failures. */
  lemma {:induction false} QuantityFailureReported(items: seq<SaleItemCommand>, start: nat, quantityMessage: Option<string>, k: nat)
    requires k < |items| && !(1 <= items[k].quantity <= 20)
    ensures ValidationFailure(ItemPath(start + k, "Quantity"), InclusiveBetween(1, 20), quantityMessage)
            in EachItemFailures(items, start, quantityMessage)
    decreases k
  {
    if k > 0 {
      QuantityFailureReported(items[1..], start + 1, quantityMessage, k - 1);
    }
  }
}
