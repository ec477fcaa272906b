/** `ListSalesRequestValidator`: two independent rules on the optional
    `_page` and `_size` query values, each applied only when the value is
    present, and what they guarantee to the repository's paging. */
module ListSalesRequestValidation {
  import opened Wrappers
  import opened SystemTypes
  import opened Validation
  import opened SaleRepository

  /** The query's `_page` and `_size`, each absent or a 32-bit `int`. */
  datatype ListSalesRequest = ListSalesRequest(page: Option<Int32>, size: Option<Int32>)

  const PageMessage := "Page number must be greater than 0"
  const SizeMessage := "Page size must be between 1 and 100"

  predicate PageAccepted(req: ListSalesRequest)
  {
    req.page.Some? ==> req.page.value > 0
  }

  predicate SizeAccepted(req: ListSalesRequest)
  {
    req.size.Some? ==> 1 <= req.size.value <= 100
  }

  /** The validation result's errors: the page rule's, then the size rule's. */
  function ListRequestFailures(req: ListSalesRequest): (r: seq<ValidationFailure>)
    ensures r == [] <==> PageAccepted(req) && SizeAccepted(req)
    ensures |r| <= 2
  {
    Check(PageAccepted(req), "_page", GreaterThan, Some(PageMessage))
    + Check(SizeAccepted(req), "_size", InclusiveBetween(1, 100), Some(SizeMessage))
  }

  /** The two rules are independent: each message appears exactly when its
      own rule is broken, whatever the other value is. */
  lemma RulesIndependent(req: ListSalesRequest)
    ensures PageMessage in ErrorMessages(ListRequestFailures(req)) <==> !PageAccepted(req)
    ensures SizeMessage in ErrorMessages(ListRequestFailures(req)) <==> !SizeAccepted(req)
  {
    assert PageMessage != SizeMessage by {
      assert PageMessage[5] != SizeMessage[5];
    }
    var ms := ErrorMessages(ListRequestFailures(req));
    if !PageAccepted(req) {
      assert ms[0] == PageMessage;
    }
    if !SizeAccepted(req) {
      assert ms[|ms| - 1] == SizeMessage;
    }
  }

  /** A request breaking both rules (`_page=0&_size=0`, say) gets both
      messages, page first. */
  lemma BothErrorsReported(req: ListSalesRequest)
    requires !PageAccepted(req) && !SizeAccepted(req)
    ensures ErrorMessages(ListRequestFailures(req)) == [PageMessage, SizeMessage]
  {
  }

  /** Accepted values make the exact product (page - 1) * size
      non-negative and the take count between 1 and 100, so a page never
      holds more than 100 sales. The repository's 32-bit skip count can
      still be negative (see `AcceptedRequestOverflows`). */
  lemma AcceptedPagingBounds<T>(req: ListSalesRequest, ordered: seq<T>)
    requires PageAccepted(req) && SizeAccepted(req) && req.page.Some? && req.size.Some?
    ensures (req.page.value - 1) * req.size.value >= 0
    ensures 1 <= req.size.value <= 100
    ensures |Page(ordered, req.page.value, req.size.value)| <= 100
  {
    MulNonNegative(req.page.value - 1, req.size.value);
  }

  /** The validator bounds the size but not the page, so a request it
      accepts still overflows the repository's 32-bit skip count: on any
      non-empty listing, page 21474838 of size 100 returns the first page
      under LINQ-to-objects paging rather than the empty page past the end. */
  lemma AcceptedRequestOverflows<T>(ordered: seq<T>)
    requires 0 < |ordered| < 2147483700
    ensures var req := ListSalesRequest(Some(21474838), Some(100));
      && PageAccepted(req) && SizeAccepted(req)
      && PageAsWritten(ordered, 21474838, 100) != Page(ordered, 21474838, 100)
  {
    SkipCountOverflow(ordered);
    assert PageAsWritten(ordered, 1, 100) == Page(ordered, 1, 100) by {
      PageAsWrittenAgrees(ordered, 1, 100);
    }
    assert |Page(ordered, 1, 100)| > 0;
  }
}
