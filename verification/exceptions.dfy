/** The exception kinds the sales core throws and the error middleware
    tells apart: the `AppException` family, FluentValidation's
    `ValidationException`, `DomainException` and everything else. */
module Exceptions {

  datatype Exception =
    /** `ValidationEx`: an `AppException` of type "ValidationError". */
    | ValidationEx(message: string)
    /** `ResourceNotFoundException`: an `AppException` of type "ResourceNotFound". */
    | ResourceNotFound(message: string)
    /** `BusinessRuleException`: an `AppException` of type "BusinessRuleViolation". */
    | BusinessRule(message: string)
    /** An `AppException` constructed directly, with a type of the thrower's choice. */
    | App(appType: string, message: string)
    /** FluentValidation's `ValidationException`, with the messages of its errors in order. */
    | FluentValidation(errorMessages: seq<string>)
    /** `DomainException`, thrown by the entities. */
    | Domain(message: string)
    /** Any other exception, with its message. */
    | Unexpected(message: string)
  {
    predicate IsAppException()
    {
      ValidationEx? || ResourceNotFound? || BusinessRule? || App?
    }

    /** `AppException.Type`: fixed by each subclass's constructor. */
    function AppType(): string
      requires IsAppException()
    {
      match this
      case ValidationEx(_) => "ValidationError"
      case ResourceNotFound(_) => "ResourceNotFound"
      case BusinessRule(_) => "BusinessRuleViolation"
      case App(t, _) => t
    }
  }
}
