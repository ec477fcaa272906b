/** `UpdateSaleValidator`: the create rules without the date bound, plus a
    sale number that must match `^SALE-\d{8}-[A-F0-9]{8}$`, the format that
    `Sale.GenerateSaleNumber` produces. */
module UpdateSaleValidation {
  import opened Wrappers
  import opened SystemTypes
  import opened Text
  import opened Sales
  import opened Validation
  import opened CreateSaleValidation

  datatype UpdateSaleCommand = UpdateSaleCommand(id: Guid, saleNumber: string, saleDate: DateTime,
                                                 customerId: Guid, customerName: string,
                                                 branchId: Guid, branchName: string,
                                                 items: seq<SaleItemCommand>)

  const InvalidSaleNumberMessage := "Invalid sale number format"

  /** The pattern between its anchors: "SALE-", eight digits, "-", eight
      characters of `[A-F0-9]`. */
  predicate SaleNumberBody(t: string)
  {
    && |t| == 22 && t[..5] == "SALE-" && t[13] == '-'
    && (forall i | 5 <= i < 13 :: IsAsciiDigit(t[i]))
    && (forall i | 14 <= i < 22 :: IsUpperHexDigit(t[i]))
  }

  /** The anchored match: without `RegexOptions.Multiline`, `$` also
      matches just before a final line feed. */
  predicate SaleNumberMatches(s: string)
  {
    || SaleNumberBody(s)
    || (|s| == 23 && s[22] == '\n' && SaleNumberBody(s[..22]))
  }

  /** What the validator demands, rule by rule. */
  predicate UpdateSaleAccepted(cmd: UpdateSaleCommand)
  {
    && NotEmptyString(cmd.saleNumber) && SaleNumberMatches(cmd.saleNumber)
    && NotEmptyDate(cmd.saleDate)
    && NotEmptyGuid(cmd.customerId) && NotEmptyString(cmd.customerName)
    && NotEmptyGuid(cmd.branchId) && NotEmptyString(cmd.branchName)
    && cmd.items != []
    && forall k | 0 <= k < |cmd.items| :: ItemAccepted(cmd.items[k])
  }

  /** The rules before the item rules. `WithMessage` belongs to the
      `Matches` rule only; `NotEmpty` keeps its default text. */
  function UpdateHeaderFailures(cmd: UpdateSaleCommand): seq<ValidationFailure>
  {
    Check(NotEmptyString(cmd.saleNumber), "SaleNumber", NotEmpty, None)
    + Check(SaleNumberMatches(cmd.saleNumber), "SaleNumber", Matches, Some(InvalidSaleNumberMessage))
    + Check(NotEmptyDate(cmd.saleDate), "SaleDate", NotEmpty, None)
    + Check(NotEmptyGuid(cmd.customerId), "CustomerId", NotEmpty, None)
    + Check(NotEmptyString(cmd.customerName), "CustomerName", NotEmpty, None)
    + Check(NotEmptyGuid(cmd.branchId), "BranchId", NotEmpty, None)
    + Check(NotEmptyString(cmd.branchName), "BranchName", NotEmpty, None)
    + Check(cmd.items != [], "Items", NotEmpty, None)
  }

  /** The validation result's errors, in rule order. */
  function UpdateSaleFailures(cmd: UpdateSaleCommand): (r: seq<ValidationFailure>)
    ensures r == [] <==> UpdateSaleAccepted(cmd)
  {
    UpdateHeaderFailures(cmd) + EachItemFailures(cmd.items, 0, None)
  }

  /** A string of the right shape is never blank, so for a matching sale
      number the `NotEmpty` rule holds as well. */
  lemma MatchingNumberNotEmpty(s: string)
    requires SaleNumberMatches(s)
    ensures NotEmptyString(s)
  {
    assert s[0] == 'S';
  }

  /** Every number `GenerateSaleNumber` produces passes both sale-number rules. */
  lemma GeneratedNumberMatches(now: DateTime, g: Guid)
    ensures SaleNumberMatches(GenerateSaleNumber(now, g))
    ensures NotEmptyString(GenerateSaleNumber(now, g))
  {
    SaleNumberShape(now, g);
    MatchingNumberNotEmpty(GenerateSaleNumber(now, g));
  }

  /** The hexadecimal part must be upper case: a lower-case digit there
      (as `Guid.ToString` writes it) breaks the match. */
  lemma LowerCaseHexRejected(s: string, k: nat)
    requires 14 <= k < 22 && k < |s| && 'a' <= s[k] <= 'f'
    ensures !SaleNumberMatches(s)
  {
    if |s| == 23 {
      assert s[..22][k] == s[k];
    }
  }

  /** A sale number that does not match is reported with the custom text. */
  lemma InvalidNumberReported(cmd: UpdateSaleCommand)
    requires !SaleNumberMatches(cmd.saleNumber)
    ensures InvalidSaleNumberMessage in ErrorMessages(UpdateSaleFailures(cmd))
  {
    var f := ValidationFailure("SaleNumber", Matches, Some(InvalidSaleNumberMessage));
    var head := Check(NotEmptyString(cmd.saleNumber), "SaleNumber", NotEmpty, None);
    assert UpdateSaleFailures(cmd)[|head|] == f;
    MessageOfMember(UpdateSaleFailures(cmd), f);
  }

  /** The update command that re-submits a sale as created: the sale number
      the aggregate generated and the create command's fields. */
  function ResubmittedUpdate(id: Guid, saleNumber: string, cmd: CreateSaleCommand): UpdateSaleCommand
  {
    UpdateSaleCommand(id, saleNumber, cmd.saleDate, cmd.customerId, cmd.customerName,
                      cmd.branchId, cmd.branchName, cmd.items)
  }

  /** Whatever the create validator accepted, with the generated number,
      the update validator accepts too. */
  lemma CreatedSaleUpdatable(cmd: CreateSaleCommand, now: DateTime, created: DateTime, g: Guid, id: Guid)
    requires CreateSaleAccepted(cmd, now)
    ensures UpdateSaleAccepted(ResubmittedUpdate(id, GenerateSaleNumber(created, g), cmd))
  {
    GeneratedNumberMatches(created, g);
  }

  /** Unlike create, update has no upper bound on the date: a command dated
      after `now` is refused by create but accepted by update. */
  lemma FutureDateOnlyUpdatable(cmd: CreateSaleCommand, now: DateTime, created: DateTime, g: Guid, id: Guid)
    requires CreateSaleAccepted(cmd.(saleDate := now), now)
    requires NotEmptyDate(cmd.saleDate) && !NotLaterThan(cmd.saleDate, now)
    ensures !CreateSaleAccepted(cmd, now)
    ensures UpdateSaleAccepted(ResubmittedUpdate(id, GenerateSaleNumber(created, g), cmd))
  {
    GeneratedNumberMatches(created, g);
    assert forall k | 0 <= k < |cmd.items| :: ItemAccepted(cmd.items[k]) by {
      assert cmd.(saleDate := now).items == cmd.items;
    }
  }
}
