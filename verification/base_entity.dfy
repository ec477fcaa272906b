/** What every entity inherits from `BaseEntity`: an identifier, the
    comparison on identifiers, and the buffer of domain events that an
    aggregate fills and the application layer drains. */
module BaseEntity {
  import opened Wrappers
  import opened SystemTypes

  /** The domain events of the sales aggregate, as tags; the event objects
      also carry the sale (and the item), which the model leaves out. */
  datatype DomainEvent = SaleCreated | SaleModified | SaleCancelled | ItemCancelled

  /** The `_domainEvents` list of an entity. */
  class EventBuffer {
    var events: seq<DomainEvent>

    constructor ()
      ensures events == []
    {
      events := [];
    }

    /** `DomainEvents`: the buffered events in the order they were raised. */
    function DomainEvents(): seq<DomainEvent>
      reads this
    {
      events
    }

    /** `AddDomainEvent`: appends one event at the end. */
    method AddDomainEvent(e: DomainEvent)
      modifies this
      ensures events == old(events) + [e]
    {
      events := events + [e];
    }

    /** `ClearDomainEvents`. */
    method ClearDomainEvents()
      modifies this
      ensures events == []
    {
      events := [];
    }
  }

  /** How the update handler drains an aggregate: the buffered events are
      published one at a time, in buffer order, and then the buffer is
      cleared. The bus is represented by the sequence of published events;
      `refusedAt` is the position of the first event the bus refuses, if
      any. The publisher logs and rethrows that failure, so the loop stops
      there: the events before it stay published, and neither that event
      nor the ones after it are sent, and the buffer is not cleared. */
  method PublishAndClear(buffer: EventBuffer, refusedAt: Option<nat>)
    returns (published: seq<DomainEvent>, failed: bool)
    modifies buffer
    ensures failed <==> refusedAt.Some? && refusedAt.value < |old(buffer.events)|
    ensures !failed ==> published == old(buffer.events) && buffer.events == []
    ensures failed ==> published == old(buffer.events)[..refusedAt.value]
                       && buffer.events == old(buffer.events)
  {
    var pending := buffer.DomainEvents();
    published := [];
    var i := 0;
    while i < |pending|
      invariant 0 <= i <= |pending|
      invariant published == pending[..i]
      invariant refusedAt.Some? ==> i <= refusedAt.value
      invariant buffer.events == pending
    {
      if refusedAt == Some(i) {
        return published, true;
      }
      published := published + [pending[i]];
      i := i + 1;
    }
    buffer.ClearDomainEvents();
    failed := false;
  }

  /** `CompareTo(other)` of the entity whose identifier is `id`; `other` is
      the other entity's identifier, or `None` for `null`. */
  function CompareTo(id: Guid, other: Option<Guid>): (r: int)
    ensures -1 <= r <= 1
    ensures other.None? ==> r == 1
  {
    match other
    case None => 1
    case Some(otherId) => CompareGuid(otherId, id)
  }

  /** Entities sort in descending identifier order. */
  lemma CompareToReversesIdOrder(a: Guid, b: Guid)
    ensures CompareTo(a, Some(b)) == -CompareGuid(a, b)
  {
    CompareGuidAntisymmetric(a, b);
  }

  /** Two entities compare equal exactly when their identifiers are equal. */
  lemma CompareToZeroIff(a: Guid, b: Guid)
    ensures CompareTo(a, Some(b)) == 0 <==> a == b
  {
    CompareGuidZeroIff(b, a);
  }

  /** Swapping the entities flips the sign of the comparison. */
  lemma CompareToAntisymmetric(a: Guid, b: Guid)
    ensures CompareTo(a, Some(b)) == -CompareTo(b, Some(a))
  {
    CompareGuidAntisymmetric(a, b);
  }

  lemma CompareToTransitive(a: Guid, b: Guid, c: Guid)
    requires CompareTo(a, Some(b)) <= 0 && CompareTo(b, Some(c)) <= 0
    ensures CompareTo(a, Some(c)) <= 0
  {
    CompareGuidTransitive(c, b, a);
  }
}
