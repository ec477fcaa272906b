/** The classification in `ErrorHandlingMiddleware.HandleExceptionAsync`:
    the body's Type, Error and Detail come from one `switch` over the
    exception, the HTTP status from another, and the two look at different
    things (the body at the class and its `Type` string, the status at the
    class alone). */
module ErrorHandling {
  import opened Wrappers
  import opened Text
  import opened Exceptions
  import opened SaleFilters
  import opened Validation
  import opened CreateSaleValidation

  /** The JSON body written for an exception. */
  datatype ErrorResponse = ErrorResponse(errorType: string, error: string, detail: string)

  const ValidationText := "The provided data is invalid"
  const NotFoundText := "The requested resource was not found"
  const BusinessRuleText := "A business rule was violated"
  const GenericText := "An error occurred while processing your request"

  /** The three types the `AppException` subclasses carry. */
  predicate KnownAppType(t: string)
  {
    t == "ValidationError" || t == "ResourceNotFound" || t == "BusinessRuleViolation"
  }

  /** `GetUserFriendlyErrorMessage`: a text of its own for each known type,
      the generic text for any other. */
  function FriendlyMessage(errorType: string): (r: string)
    ensures r != []
    ensures r == GenericText <==> !KnownAppType(errorType)
  {
    match errorType
    case "ValidationError" => ValidationText
    case "ResourceNotFound" => NotFoundText
    case "BusinessRuleViolation" => BusinessRuleText
    case _ => GenericText
  }

  /** The table: each known type has its own text, different from the
      others and from the generic one, and every other type gets the
      generic text. */
  lemma FriendlyMessageTable(t: string)
    ensures KnownAppType(t) <==> FriendlyMessage(t) != GenericText
    ensures !KnownAppType(t) ==> FriendlyMessage(t) == GenericText
    ensures FriendlyMessage("ValidationError") != FriendlyMessage("ResourceNotFound")
    ensures FriendlyMessage("ValidationError") != FriendlyMessage("BusinessRuleViolation")
    ensures FriendlyMessage("ResourceNotFound") != FriendlyMessage("BusinessRuleViolation")
  {
    assert |ValidationText| == |BusinessRuleText| == 28 && |NotFoundText| == 36 && |GenericText| == 47;
    assert ValidationText[0] != BusinessRuleText[0];
  }

  /** The separator FluentValidation's messages are joined with. */
  const DetailSeparator := "; "

  /** The response `switch`, first matching arm first: any `AppException`,
      then FluentValidation's exception, then `DomainException`, then
      anything else. */
  function ResponseFor(e: Exception): (r: ErrorResponse)
    ensures r.error != []
    ensures !e.FluentValidation? ==> r.detail == e.message
    ensures e.IsAppException() ==> r.errorType == e.AppType() && r.error == FriendlyMessage(r.errorType)
    ensures !e.IsAppException() ==> r.errorType in {"ValidationError", "DomainException", "UnexpectedError"}
  {
    match e
    case FluentValidation(messages) =>
      ErrorResponse("ValidationError", "One or more validation errors occurred", Join(DetailSeparator, messages))
    case Domain(message) =>
      ErrorResponse("DomainException", "A business rule was violated", message)
    case Unexpected(message) =>
      ErrorResponse("UnexpectedError", "An unexpected error occurred", message)
    case _ =>
      ErrorResponse(e.AppType(), FriendlyMessage(e.AppType()), e.message)
  }

  /** The status `switch`, on the exception's class. */
  function StatusCode(e: Exception): (r: int)
    ensures r == 400 || r == 404 || r == 500
    ensures r != 500 ==> e.IsAppException() && KnownAppType(e.AppType())
  {
    match e
    case ResourceNotFound(_) => 404
    case ValidationEx(_) => 400
    case BusinessRule(_) => 400
    case _ => 500
  }

  /** The status by class: 404 for a missing resource, 400 for the two
      client-error subclasses, 500 for everything else. */
  lemma StatusByClass(e: Exception)
    ensures StatusCode(e) == 404 <==> e.ResourceNotFound?
    ensures StatusCode(e) == 400 <==> e.ValidationEx? || e.BusinessRule?
    ensures StatusCode(e) == 500 <==> !(e.ResourceNotFound? || e.ValidationEx? || e.BusinessRule?)
    ensures StatusCode(e) in {400, 404, 500}
  {
  }

  /** For an `AppException`, the body's Type is the exception's Type, its
      Error the table's text for that type, and its Detail the message. */
  lemma AppExceptionBody(e: Exception)
    requires e.IsAppException()
    ensures ResponseFor(e) == ErrorResponse(e.AppType(), FriendlyMessage(e.AppType()), e.message)
    ensures e.ValidationEx? ==> ResponseFor(e).errorType == "ValidationError" && ResponseFor(e).error == ValidationText
    ensures e.ResourceNotFound? ==> ResponseFor(e).errorType == "ResourceNotFound" && ResponseFor(e).error == NotFoundText
    ensures e.BusinessRule? ==> ResponseFor(e).errorType == "BusinessRuleViolation" && ResponseFor(e).error == BusinessRuleText
  {
  }

  /** A client-error status always comes with the subclass's own Type and a
      specific friendly text, never the generic one. */
  lemma ClientErrorsAreTyped(e: Exception)
    requires StatusCode(e) != 500
    ensures KnownAppType(ResponseFor(e).errorType)
    ensures ResponseFor(e).error == FriendlyMessage(ResponseFor(e).errorType) != GenericText
    ensures ResponseFor(e).detail == e.message
  {
    FriendlyMessageTable(ResponseFor(e).errorType);
  }

  /** The two switches disagree: a body of Type "ValidationError" comes
      with status 500 when it was FluentValidation's exception or a plain
      `AppException` given that type, and a `DomainException` is a 500 too. */
  lemma TypeDoesNotDecideStatus(messages: seq<string>, message: string)
    ensures ResponseFor(FluentValidation(messages)).errorType == "ValidationError"
            && StatusCode(FluentValidation(messages)) == 500
    ensures ResponseFor(App("ValidationError", message)) == ResponseFor(ValidationEx(message))
            && StatusCode(App("ValidationError", message)) == 500 && StatusCode(ValidationEx(message)) == 400
    ensures ResponseFor(Domain(message)).errorType == "DomainException" && StatusCode(Domain(message)) == 500
  {
  }

  /** For FluentValidation's exception the Detail holds every message, in
      order, each followed by "; " and the next. */
  lemma ValidationDetailKeepsMessages(messages: seq<string>, i: nat)
    requires i < |messages|
    ensures var d := ResponseFor(FluentValidation(messages)).detail;
      && var at := JoinOffset(DetailSeparator, messages, i);
      && at + |messages[i]| <= |d| && d[at..at + |messages[i]|] == messages[i]
      && (i + 1 < |messages| ==>
            && JoinOffset(DetailSeparator, messages, i + 1) == at + |messages[i]| + |DetailSeparator|
            && JoinOffset(DetailSeparator, messages, i + 1) <= |d|
            && d[at + |messages[i]|..JoinOffset(DetailSeparator, messages, i + 1)] == DetailSeparator)
  {
    JoinKeepsParts(DetailSeparator, messages, i);
  }

  /** `t` occurs in `s` at position `at`. */
  predicate OccursAt(s: string, t: string, at: nat)
  {
    at + |t| <= |s| && s[at..at + |t|] == t
  }

  /** Each message of FluentValidation's exception can be found in the Detail. */
  lemma MessageInDetail(messages: seq<string>, m: string)
    requires m in messages
    ensures exists at: nat :: OccursAt(ResponseFor(FluentValidation(messages)).detail, m, at)
  {
    var i :| 0 <= i < |messages| && messages[i] == m;
    ValidationDetailKeepsMessages(messages, i);
    assert OccursAt(ResponseFor(FluentValidation(messages)).detail, m, JoinOffset(DetailSeparator, messages, i));
  }

  /** The exception the create handler throws for a command with a quantity
      outside 1..20 maps to a ValidationError body (status 500) whose Detail
      contains the custom quantity text. Over HTTP the controller's request
      validator refuses such a request with 400 before any command exists. */
  lemma QuantityErrorResponse(cmd: CreateSaleCommand, now: SystemTypes.DateTime, k: nat)
    requires k < |cmd.items| && !(1 <= cmd.items[k].quantity <= 20)
    ensures var e := FluentValidation(ErrorMessages(CreateSaleFailures(cmd, now)));
      && ResponseFor(e).errorType == "ValidationError" && StatusCode(e) == 500
      && exists at: nat :: OccursAt(ResponseFor(e).detail, QuantityRangeMessage, at)
  {
    QuantityOutOfRangeReported(cmd, now, k);
    MessageInDetail(ErrorMessages(CreateSaleFailures(cmd, now)), QuantityRangeMessage);
  }

  /** Every filter map the repository refuses is answered with status 400
      and a ValidationError body. */
  lemma RefusedFilterIsBadRequest(filters: seq<(string, string)>, p: Parsers)
    requires Criteria(filters, p).Failure?
    ensures var e := Criteria(filters, p).error;
      && StatusCode(e) == 400
      && ResponseFor(e).errorType == "ValidationError" && ResponseFor(e).error == ValidationText
  {
    CriteriaFailure(filters, p);
    var i :| 0 <= i < |filters| && FilterFor(filters[i].0, filters[i].1, p) == Failure(Criteria(filters, p).error);
  }
}
