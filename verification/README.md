# Sales backend core, modelled in Dafny

This project models the core of a sales back end written in C#.

- **Domain.** The `Sale` aggregate and its `SaleItem`s:
  - quantity limits and quantity-based discounts;
  - the non-cancelled total;
  - cancellation of a sale or of one item;
  - the generated sale number;
  - the domain-event buffer inherited from `BaseEntity`, and its identifier ordering.
- **Application.** The create handler's validate-then-add-items loop, the update handler's publish-and-clear of buffered events, and the FluentValidation rule sets of `CreateSaleValidator` and `UpdateSaleValidator`.
- **Listing.** The sales listing in `SaleRepository`:
  - the string-keyed filter map, with its range, wildcard and exact filters and their `ValidationEx` refusals;
  - the `_order` string, with comma-separated clauses, `asc`/`desc` suffixes, column aliases and a default order;
  - paging with `Skip((page - 1) * size).Take(size)`;
  - the total count.
- **Web API.** `ListSalesRequestValidator`, and `ErrorHandlingMiddleware`, which turns an exception into a JSON body and an HTTP status.

**How the code is represented**

- `Sale`, `SaleItem` and the event buffer are classes whose methods update fields in place. Each method's contract ties the new state to specification functions over value views (`ItemView`, `Total`, `CancelItemEffect`).
- Pure logic (discounts, validators, filters, ordering, paging, error mapping) is functions with lemmas.
- Each loop of the source is a method with invariants:
  - the create handler's item loop;
  - the filter loop;
  - the ordering clause loop;
  - the publish loop.
- The database query is modelled over an in-memory sequence of `SaleRecord` values.
- The database does not promise an order among ties, so a listing is specified as a page of *some* arrangement of the filtered sales that respects the sort keys. Insertion sort is the witness.
- The clock (`DateTime.UtcNow`) and `Guid.NewGuid()` are parameters.
- `decimal.TryParse`, `DateTime.TryParse` and `bool.TryParse` are supplied as functions.
- The event bus is the sequence of published events.
- C# `int` arithmetic in the skip count is modelled with explicit 32-bit wrap-around (`Wrap32`).

## Model

| member | source | states |
|---|---|---|
| SystemTypes.GuidFieldsInjective | src/Ambev.DeveloperEvaluation.Domain/Common/BaseEntity.cs:26 | two identifiers with the same fields, in `Guid.CompareTo` order, are the same identifier |
| SystemTypes.CompareGuid | src/Ambev.DeveloperEvaluation.Domain/Common/BaseEntity.cs:26 | the identifier comparison yields -1, 0 or 1 |
| SystemTypes.CompareGuidZeroIff | src/Ambev.DeveloperEvaluation.Domain/Common/BaseEntity.cs:26 | the comparison is 0 exactly for equal identifiers |
| SystemTypes.CompareGuidAntisymmetric | src/Ambev.DeveloperEvaluation.Domain/Common/BaseEntity.cs:26 | swapping the operands negates the comparison |
| SystemTypes.CompareGuidTransitive | src/Ambev.DeveloperEvaluation.Domain/Common/BaseEntity.cs:26 | the comparison is a transitive order |
| SystemTypes.CompareDateTimeZeroIff | src/Ambev.DeveloperEvaluation.Application/Sales/CreateSale/CreateSaleValidator.cs:8 | two dates compare equal exactly when they are the same instant |
| SystemTypes.CompareDateTimeChronological | src/Ambev.DeveloperEvaluation.ORM/Repositories/SaleRepository.cs:311-312 | `CompareDateTime` is chronological: -1 exactly when the first date is earlier (year, then month, day and time of day), 1 exactly when it is later |
| Text.TrimSpec | src/Ambev.DeveloperEvaluation.ORM/Repositories/SaleRepository.cs:218 | `Trim` yields a slice of the text that neither starts nor ends with white space; every character it drops before and after that slice is white space; the result is empty exactly for a blank text |
| Text.RemoveChar | src/Ambev.DeveloperEvaluation.ORM/Repositories/SaleRepository.cs:320 | `Replace("*", "")` leaves no `*` and keeps every other character, with its count |
| Text.SplitRemoveEmpty | src/Ambev.DeveloperEvaluation.ORM/Repositories/SaleRepository.cs:212 | every piece of the split is non-empty and free of the separator |
| Text.SplitAllJoin | src/Ambev.DeveloperEvaluation.ORM/Repositories/SaleRepository.cs:212 | joining the pieces of a split with the separator gives back the text |
| Text.SplitRemoveEmptyConcat | src/Ambev.DeveloperEvaluation.ORM/Repositories/SaleRepository.cs:212 | dropping empty pieces loses no character other than the separators |
| Text.JoinKeepsParts | src/Ambev.DeveloperEvaluation.WebApi/Middleware/ErrorHandlingMiddleware.cs:47 | `string.Join` places each part at its offset, followed by the separator and the next part |
| Text.CompareOrdinalZeroIff | src/Ambev.DeveloperEvaluation.ORM/Repositories/SaleRepository.cs:253-263 | ordinal string comparison is 0 exactly for equal strings |
| Text.FixedDigitsRoundTrip | src/Ambev.DeveloperEvaluation.Domain/Entities/Sale.cs:95 | a fixed-width rendering in base 10 or 16 reads back as the number it renders |
| Text.GuidToString | src/Ambev.DeveloperEvaluation.Domain/Entities/Sale.cs:61 | an identifier renders to 36 characters |
| Text.GuidToStringLayout | src/Ambev.DeveloperEvaluation.Domain/Entities/Sale.cs:61 | the rendering is the eleven fields as fixed-width lower-case hexadecimal in the 8-4-4-4-12 layout, with dashes at positions 8, 13, 18 and 23 |
| Text.GuidToStringReadBack | src/Ambev.DeveloperEvaluation.Domain/Entities/Sale.cs:61 | each hexadecimal group of the rendering reads back as the field it renders |
| Text.GuidToStringInjective | src/Ambev.DeveloperEvaluation.Domain/Entities/Sale.cs:61 | different identifiers render to different texts, so the not-found message names the identifier unambiguously |
| BaseEntity.EventBuffer.constructor | src/Ambev.DeveloperEvaluation.Domain/Common/BaseEntity.cs:11 | a new entity has no buffered events |
| BaseEntity.EventBuffer.AddDomainEvent | src/Ambev.DeveloperEvaluation.Domain/Common/BaseEntity.cs:34-37 | the event is appended after those already buffered |
| BaseEntity.EventBuffer.ClearDomainEvents | src/Ambev.DeveloperEvaluation.Domain/Common/BaseEntity.cs:39-42 | the buffer is emptied |
| BaseEntity.PublishAndClear | src/Ambev.DeveloperEvaluation.Application/Sales/UpdateSale/UpdateSaleHandler.cs:53-60 | if the bus accepts every event, each buffered event is published once, in buffer order, and the buffer ends empty; if the publisher rethrows the bus's failure at position k, exactly the first k events are published and the buffer is left as it was |
| BaseEntity.CompareTo | src/Ambev.DeveloperEvaluation.Domain/Common/BaseEntity.cs:19-27 | the result is -1, 0 or 1, and comparing with `null` gives 1 |
| BaseEntity.CompareToReversesIdOrder | src/Ambev.DeveloperEvaluation.Domain/Common/BaseEntity.cs:26 | entities compare in descending identifier order |
| BaseEntity.CompareToZeroIff | src/Ambev.DeveloperEvaluation.Domain/Common/BaseEntity.cs:26 | two entities compare equal exactly when their identifiers are equal |
| BaseEntity.CompareToAntisymmetric | src/Ambev.DeveloperEvaluation.Domain/Common/BaseEntity.cs:19-27 | `a.CompareTo(b) == -b.CompareTo(a)` |
| BaseEntity.CompareToTransitive | src/Ambev.DeveloperEvaluation.Domain/Common/BaseEntity.cs:19-27 | entity comparison is transitive, so it is a total order usable for sorting |
| SaleItems.Discount | src/Ambev.DeveloperEvaluation.Domain/Entities/SaleItem.cs:30-39 | the discount is always one of 0, 10% or 20% |
| SaleItems.DiscountTiers | src/Ambev.DeveloperEvaluation.Domain/Entities/SaleItem.cs:30-39 | 1-3 units give no discount, 4-9 give 10%, 10-20 give 20%; above 20 the branch order gives 10% |
| SaleItems.DiscountMonotone | src/Ambev.DeveloperEvaluation.Domain/Entities/SaleItem.cs:30-39 | within the allowed 1..20, buying more never lowers the discount rate |
| SaleItems.LineTotalFactored | src/Ambev.DeveloperEvaluation.Domain/Entities/SaleItem.cs:41-45 | `LineTotal`: the line total is quantity × unit price × (1 − discount) |
| SaleItems.LineTotalBounds | src/Ambev.DeveloperEvaluation.Domain/Entities/SaleItem.cs:41-45 | the line total lies between 0 and the undiscounted subtotal |
| SaleItems.LineTotalPositive | src/Ambev.DeveloperEvaluation.Domain/Entities/SaleItem.cs:41-45 | an allowed quantity at a positive price has a positive line total |
| SaleItems.LineTotalExample | src/Ambev.DeveloperEvaluation.Domain/Entities/SaleItem.cs:30-45 | 10 units at 100 get 20% off and total 800 |
| SaleItems.SaleItem.constructor | src/Ambev.DeveloperEvaluation.Domain/Entities/SaleItem.cs:18-28 | a new item carries its inputs, the tiered discount and the discounted line total, and is not cancelled |
| SaleItems.SaleItem.Cancel | src/Ambev.DeveloperEvaluation.Domain/Entities/SaleItem.cs:47-53 | cancelling an active item marks it cancelled; cancelling it again fails with "Item is already cancelled" |
| Sales.ValidateItemQuantity | src/Ambev.DeveloperEvaluation.Domain/Entities/Sale.cs:85-91 | a quantity passes exactly when it is in 1..20; otherwise a `DomainException` |
| Sales.TotalAppend | src/Ambev.DeveloperEvaluation.Domain/Entities/Sale.cs:69-75 | `Total` (the sum in `UpdateTotalAmount`/`CalculateTotalAmount`): adding an item raises the total by its amount if it is active, otherwise leaves it unchanged |
| Sales.TotalAfterCancel | src/Ambev.DeveloperEvaluation.Domain/Entities/Sale.cs:69-75 | cancelling one active item lowers the total by exactly that item's amount |
| Sales.TotalNonNegative | src/Ambev.DeveloperEvaluation.Domain/Entities/Sale.cs:77-82 | items with non-negative amounts have a non-negative total |
| Sales.TotalPositive | src/Ambev.DeveloperEvaluation.Domain/Entities/Sale.cs:77-82 | a non-empty list of active, positive items has a positive total |
| Sales.FindItem | src/Ambev.DeveloperEvaluation.Domain/Entities/Sale.cs:59 | `FirstOrDefault`: the index of the first item with the identifier, or none when no item has it |
| Sales.SaleNumberShape | src/Ambev.DeveloperEvaluation.Domain/Entities/Sale.cs:93-96 | `GenerateSaleNumber`: a sale number is "SALE-", eight decimal digits, "-", eight upper-case hexadecimal digits |
| Sales.SaleNumberRoundTrip | src/Ambev.DeveloperEvaluation.Domain/Entities/Sale.cs:93-96 | the sale number reads back as the year, month and day of the clock and the identifier's first field |
| Sales.SaleNumberFieldsFit | src/Ambev.DeveloperEvaluation.Domain/Entities/Sale.cs:95 | each date field and the identifier's first field fit their fixed widths |
| Sales.Sale.constructor | src/Ambev.DeveloperEvaluation.Domain/Entities/Sale.cs:22-33 | a new sale keeps its header, has a generated sale number, no items, total 0, and exactly one `SaleCreated` event |
| Sales.Sale.UpdateTotalAmount | src/Ambev.DeveloperEvaluation.Domain/Entities/Sale.cs:69-75 | the stored total becomes the sum of the active items |
| Sales.Sale.AddItem | src/Ambev.DeveloperEvaluation.Domain/Entities/Sale.cs:35-45 | a quantity outside 1..20 fails and changes nothing; otherwise the new item is appended, the total is recomputed and `SaleModified` is buffered; the total stays consistent with the active items |
| Sales.Sale.Recompute | src/Ambev.DeveloperEvaluation.Domain/Entities/Sale.cs:42-44 | the total is recomputed and one event is appended; the items are unchanged |
| Sales.Sale.Cancel | src/Ambev.DeveloperEvaluation.Domain/Entities/Sale.cs:47-55 | a second cancel fails and changes nothing; the first sets the total to 0 and buffers `SaleCancelled`; the total stays consistent (a cancelled sale may show 0) |
| Sales.Sale.CancelItem | src/Ambev.DeveloperEvaluation.Domain/Entities/Sale.cs:57-67 | the outcome and new items are those of `CancelItemEffect`; on success the total is recomputed and `ItemCancelled` is buffered, on failure nothing changes; the total stays consistent with the active items |
| Sales.Sale.CancelAt | src/Ambev.DeveloperEvaluation.Domain/Entities/Sale.cs:63 | cancels exactly the item at the index and no other |
| Sales.CancelItemEffectSpec | src/Ambev.DeveloperEvaluation.Domain/Entities/Sale.cs:57-67 | `CancelItemEffect`: item cancellation succeeds exactly when the first item with the identifier is active; it then cancels that item alone, lowering the total by its amount; a failure leaves the items untouched |
| Sales.CancelUnknownItem | src/Ambev.DeveloperEvaluation.Domain/Entities/Sale.cs:60-61 | an unknown identifier fails with the message naming the identifier and the sale number |
| Sales.CancelledSaleRegainsTotal | src/Ambev.DeveloperEvaluation.Domain/Entities/Sale.cs:35-55 | a cancelled sale still accepts items, after which its total is non-zero again |
| SaleFilters.RangeFilter | src/Ambev.DeveloperEvaluation.ORM/Repositories/SaleRepository.cs:297-316 | a range key whose field is "totalamount" (any case) and whose value parses yields the inclusive bound on the total at the parsed amount; a "date" field yields the bound on the sale date at the parsed date; the bound is a lower one for "_min" and an upper one otherwise; an unknown field or unparsable value gives "Invalid range filter field: ..." |
| SaleFilters.WildcardFilter | src/Ambev.DeveloperEvaluation.ORM/Repositories/SaleRepository.cs:318-336 | accepted exactly for the customer or branch name, in any case; "customername" tests the customer name and "branchname" the branch name, as a starts-with or ends-with test; otherwise "Invalid wildcard filter field: ..." |
| SaleFilters.ExactFilter | src/Ambev.DeveloperEvaluation.ORM/Repositories/SaleRepository.cs:338-348 | accepted exactly for a name field or a parsable cancelled flag; "customername" tests the customer name and "branchname" the branch name for equality with the value, and "iscancelled" tests the flag against the parsed value; otherwise "Invalid filter field: ..." |
| SaleFilters.FilterFor | src/Ambev.DeveloperEvaluation.ORM/Repositories/SaleRepository.cs:60-87 | every refusal is a `ValidationEx`; an entry is skipped exactly when it is an exact-case amount key whose value does not parse |
| SaleFilters.CriteriaFailure | src/Ambev.DeveloperEvaluation.ORM/Repositories/SaleRepository.cs:58-88 | `Criteria` (the filter loop as a function): the filter map is refused exactly when one entry is, and then with the first such entry's exception |
| SaleFilters.ProducesSplit | src/Ambev.DeveloperEvaluation.ORM/Repositories/SaleRepository.cs:58-88 | the criteria of a map are those of its prefix plus the last entry's |
| SaleFilters.CriteriaMembers | src/Ambev.DeveloperEvaluation.ORM/Repositories/SaleRepository.cs:58-88 | a criterion is applied exactly when some entry of the map produces it |
| SaleFilters.CriteriaCount | src/Ambev.DeveloperEvaluation.ORM/Repositories/SaleRepository.cs:58-88 | `Criteria`: each entry of the map adds at most one `Where` |
| SaleFilters.Where | src/Ambev.DeveloperEvaluation.ORM/Repositories/SaleRepository.cs:65 | with `Holds` as its lambda, a `Where` keeps exactly the sales that meet its criterion |
| SaleFilters.BoundsMeetAtValue | src/Ambev.DeveloperEvaluation.ORM/Repositories/SaleRepository.cs:304-345 | `Holds` (the `Where` lambdas): the range bounds are inclusive, so a lower and an upper bound at one amount or date keep exactly the sales at that amount or date; an exact name match also passes the starts-with and ends-with tests |
| SaleFilters.Select | src/Ambev.DeveloperEvaluation.ORM/Repositories/SaleRepository.cs:58-88 | the filtered query is a sub-multiset holding exactly the sales that meet every criterion |
| SaleFilters.WhereSelect | src/Ambev.DeveloperEvaluation.ORM/Repositories/SaleRepository.cs:58-88 | narrowing by one more `Where` equals selecting with the extended criteria list |
| SaleFilters.MeetsAllAppend | src/Ambev.DeveloperEvaluation.ORM/Repositories/SaleRepository.cs:58-88 | meeting the extended criteria is meeting the old ones and the new one |
| SaleFilters.SelectNone | src/Ambev.DeveloperEvaluation.ORM/Repositories/SaleRepository.cs:56 | with no criteria every sale is kept, in order |
| SaleFilters.ApplyFilters | src/Ambev.DeveloperEvaluation.ORM/Repositories/SaleRepository.cs:56-88 | the filter loop returns the first refusal's exception, or the sales meeting every produced criterion |
| SaleFilters.CriteriaStaysFailed | src/Ambev.DeveloperEvaluation.ORM/Repositories/SaleRepository.cs:58-88 | once a prefix of the map throws, the whole map throws the same exception |
| SaleFilters.FilteredMeaning | src/Ambev.DeveloperEvaluation.ORM/Repositories/SaleRepository.cs:58-88 | a sale is kept exactly when it is stored and meets the criterion of every entry that produced one |
| SaleFilters.ExactCaseAmountKeys | src/Ambev.DeveloperEvaluation.ORM/Repositories/SaleRepository.cs:62-73 | "_minTotalAmount"/"_maxTotalAmount" bound the total inclusively when the value parses and are skipped otherwise |
| SaleFilters.OtherRangeKeys | src/Ambev.DeveloperEvaluation.ORM/Repositories/SaleRepository.cs:75-79 | any other "_min"/"_max" key is accepted exactly for "totalamount" or "date" with a parsable value, and refused otherwise |
| SaleFilters.AmountRangeExample | src/Ambev.DeveloperEvaluation.ORM/Repositories/SaleRepository.cs:62-73 | min 100 and max 200 keep exactly the sales totalling between 100 and 200 |
| SaleFilters.UnknownKeyRefused | src/Ambev.DeveloperEvaluation.ORM/Repositories/SaleRepository.cs:346 | an unknown plain key is refused with "Invalid filter field: invalidField" |
| SaleOrdering.ParseClauseRoundTrip | src/Ambev.DeveloperEvaluation.ORM/Repositories/SaleRepository.cs:218-225 | a name followed by " desc"/" asc" in any letter case reads back as that name and direction |
| SaleOrdering.ParseClauseTrimmed | src/Ambev.DeveloperEvaluation.ORM/Repositories/SaleRepository.cs:218-225 | `ParseClause`: for any clause the name is trimmed and no longer than the clause, and the direction is descending exactly when the trimmed clause ends with " desc" in some letter case |
| SaleOrdering.FieldNamedSpellings | src/Ambev.DeveloperEvaluation.ORM/Repositories/SaleRepository.cs:243-265 | `FieldNamed` (the `ToLower()` switch): a name selects a column exactly when, lower-cased, it is that column's property name or its alias; upper-casing the name changes nothing |
| SaleOrdering.InitialOrdering | src/Ambev.DeveloperEvaluation.ORM/Repositories/SaleRepository.cs:241-267 | a known name yields the one key on its column in the requested direction; an unknown name yields the default order, latest date first, whatever direction was asked |
| SaleOrdering.ThenOrdering | src/Ambev.DeveloperEvaluation.ORM/Repositories/SaleRepository.cs:269-295 | a known name appends the key on its column in the requested direction after the earlier keys; an unknown name leaves the keys as they were |
| SaleOrdering.TieBreaker | src/Ambev.DeveloperEvaluation.ORM/Repositories/SaleRepository.cs:269-295 | a later clause with a known name contributes the key on its column in its parsed direction; one with an unknown name contributes nothing |
| SaleOrdering.OrderingKeys | src/Ambev.DeveloperEvaluation.ORM/Repositories/SaleRepository.cs:207-239 | every order string denotes a non-empty list of sort keys |
| SaleOrdering.TieBreakersAppend | src/Ambev.DeveloperEvaluation.ORM/Repositories/SaleRepository.cs:216-236 | the later clauses' keys follow the clause order |
| SaleOrdering.ApplyOrdering | src/Ambev.DeveloperEvaluation.ORM/Repositories/SaleRepository.cs:207-239 | the clause loop with its first-order flag yields exactly the keys the order string denotes |
| SaleOrdering.OrderingOfClausesAppend | src/Ambev.DeveloperEvaluation.ORM/Repositories/SaleRepository.cs:227-236 | one more clause applies `ThenBy` to the ordering so far |
| SaleOrdering.OrderFor | src/Ambev.DeveloperEvaluation.ORM/Repositories/SaleRepository.cs:91-98 | the empty order string and the ordering path agree on the keys the string denotes |
| SaleOrdering.TwoClauses | src/Ambev.DeveloperEvaluation.ORM/Repositories/SaleRepository.cs:212-236 | "a,b" sorts by a's key, then b's tie-breaker |
| SaleOrdering.NamedClausesOrdering | src/Ambev.DeveloperEvaluation.ORM/Repositories/SaleRepository.cs:212-236 | "n1 dir1,n2 dir2" sorts by the first column and direction, then the second |
| SaleOrdering.NamedClausesKeys | src/Ambev.DeveloperEvaluation.ORM/Repositories/SaleRepository.cs:212-295 | for "n1 dir1,n2 dir2": an unknown first name gives the default key first, a known one its column and direction; an unknown second name adds no key, a known one adds its column and direction second |
| SaleOrdering.FieldNameExamples | src/Ambev.DeveloperEvaluation.ORM/Repositories/SaleRepository.cs:243-265 | column names are case-insensitive and have aliases; an unknown name selects no column |
| SaleOrdering.MultiOrderExample | src/Ambev.DeveloperEvaluation.ORM/Repositories/SaleRepository.cs:207-295 | "totalAmount desc,saleDate asc" sorts by total descending, then date ascending |
| SaleOrdering.UnknownFirstColumnExample | src/Ambev.DeveloperEvaluation.ORM/Repositories/SaleRepository.cs:265 | an unknown first column gives latest date first even when ascending was asked for; a known second column still breaks ties |
| SaleOrdering.CompareFieldAntisymmetric | src/Ambev.DeveloperEvaluation.ORM/Repositories/SaleRepository.cs:245-263 | each column comparison is antisymmetric |
| SaleOrdering.CompareFieldTransitive | src/Ambev.DeveloperEvaluation.ORM/Repositories/SaleRepository.cs:245-263 | each column comparison is transitive |
| SaleOrdering.CompareFieldTie | src/Ambev.DeveloperEvaluation.ORM/Repositories/SaleRepository.cs:245-263 | sales tied on a column compare the same against any third sale |
| SaleOrdering.CompareFieldReflexive | src/Ambev.DeveloperEvaluation.ORM/Repositories/SaleRepository.cs:245-263 | a sale ties with itself on every column |
| SaleOrdering.CompareFieldZeroIff | src/Ambev.DeveloperEvaluation.ORM/Repositories/SaleRepository.cs:245-263 | `CompareField`: a column comparison answers -1, 0 or 1, and 0 exactly when both sales hold the same value in that column |
| SaleOrdering.CompareByAntisymmetric | src/Ambev.DeveloperEvaluation.ORM/Repositories/SaleRepository.cs:207-295 | the multi-key comparison is antisymmetric |
| SaleOrdering.CompareByReflexive | src/Ambev.DeveloperEvaluation.ORM/Repositories/SaleRepository.cs:207-295 | the multi-key comparison ties a sale with itself |
| SaleOrdering.CompareByTransitive | src/Ambev.DeveloperEvaluation.ORM/Repositories/SaleRepository.cs:207-295 | the multi-key comparison is transitive, so sorting by it is well defined |
| SaleOrdering.CompareByZeroIff | src/Ambev.DeveloperEvaluation.ORM/Repositories/SaleRepository.cs:207-295 | `CompareBy`: the multi-key comparison answers -1, 0 or 1, and 0 exactly when both sales hold the same value in every key's column |
| SaleOrdering.Insert | src/Ambev.DeveloperEvaluation.ORM/Repositories/SaleRepository.cs:93 | inserting adds exactly the one sale |
| SaleOrdering.InsertSorted | src/Ambev.DeveloperEvaluation.ORM/Repositories/SaleRepository.cs:93 | inserting into an ordered list keeps it ordered |
| SaleOrdering.SortBy | src/Ambev.DeveloperEvaluation.ORM/Repositories/SaleRepository.cs:93-97 | every list of sales has an arrangement in the keys' order: a permutation that is sorted |
| SaleOrdering.SortedFirstIsLeast | src/Ambev.DeveloperEvaluation.ORM/Repositories/SaleRepository.cs:93-97 | the first sale of an ordered list sorts no later than any other |
| SaleOrdering.SortedPairs | src/Ambev.DeveloperEvaluation.ORM/Repositories/SaleRepository.cs:93-97 | in an ordered list every earlier sale sorts no later than every later one |
| SaleRepository.Page | src/Ambev.DeveloperEvaluation.ORM/Repositories/SaleRepository.cs:100-103 | `Skip` then `Take` with the exact skip count: a page is the contiguous slice starting at the skip count, holding at most `size` sales |
| SaleRepository.PageSlice | src/Ambev.DeveloperEvaluation.ORM/Repositories/SaleRepository.cs:100-103 | for positive page and size, page k is `ordered[(k-1)·size .. k·size]`, clipped to the list |
| SaleRepository.PagesPrefix | src/Ambev.DeveloperEvaluation.ORM/Repositories/SaleRepository.cs:100-103 | pages 1..k laid end to end are exactly the first k·size sales: pages neither overlap nor skip a sale |
| SaleRepository.Wrap32 | src/Ambev.DeveloperEvaluation.ORM/Repositories/SaleRepository.cs:101 | 32-bit wrap-around keeps the value modulo 2^32 and leaves in-range values unchanged |
| SaleRepository.SkipCountCongruent | src/Ambev.DeveloperEvaluation.ORM/Repositories/SaleRepository.cs:101 | `SkipCountAsWritten`: the 32-bit skip count differs from the exact (page − 1)·size by a multiple of 2^32 and equals it whenever the product fits in an `int` |
| SaleRepository.PageAsWritten | src/Ambev.DeveloperEvaluation.ORM/Repositories/SaleRepository.cs:100-103 | `Skip`/`Take` with the 32-bit skip count: at most `size` sales, the contiguous run that starts at the wrapped skip count, or at the front when that count is negative |
| SaleRepository.PageAsWrittenAgrees | src/Ambev.DeveloperEvaluation.ORM/Repositories/SaleRepository.cs:100-103 | when (page − 1)·size fits in an `int`, the 32-bit computation gives the intended page |
| SaleRepository.SkipCountOverflow | src/Ambev.DeveloperEvaluation.ORM/Repositories/SaleRepository.cs:101 | page 21474838 of size 100 wraps the skip count negative; with LINQ-to-objects `Skip`/`Take` (the in-memory provider) that returns page 1, where the intended page is empty |
| SaleRepository.GetAll | src/Ambev.DeveloperEvaluation.ORM/Repositories/SaleRepository.cs:43-108 | the listing is the first refused filter's exception, or a page of the filtered sales in an arrangement the order keys accept |
| SaleRepository.GetTotalCount | src/Ambev.DeveloperEvaluation.ORM/Repositories/SaleRepository.cs:167-205 | the count is the refusal, or the number of sales meeting the same filters, without ordering or paging |
| SaleRepository.PageOfSorted | src/Ambev.DeveloperEvaluation.ORM/Repositories/SaleRepository.cs:100-103 | a page of an ordered list is ordered and holds only sales of the list |
| SaleRepository.ListingMeaning | src/Ambev.DeveloperEvaluation.ORM/Repositories/SaleRepository.cs:43-108 | `IsListing` (what `GetAllAsync` may return): a listing holds at most `size` sales and never more than the count; every sale in it is stored and meets every filter; the listing is in the requested order |
| SaleRepository.DefaultListing | src/Ambev.DeveloperEvaluation.ORM/Repositories/SaleRepository.cs:56-98 | with no filters and no order string, the listings are exactly the pages of all sales, latest date first |
| Validation.ErrorMessages | src/Ambev.DeveloperEvaluation.WebApi/Middleware/ErrorHandlingMiddleware.cs:47 | one message per failure, in failure order |
| Validation.Check | src/Ambev.DeveloperEvaluation.Application/Sales/CreateSale/CreateSaleValidator.cs:8-13 | a rule contributes a failure exactly when it does not hold |
| Validation.ItemFailures | src/Ambev.DeveloperEvaluation.Application/Sales/CreateSale/CreateSaleValidator.cs:15-22 | an item has no failures exactly when product, name, positive price and quantity 1..20 all hold |
| Validation.EachItemFailures | src/Ambev.DeveloperEvaluation.Application/Sales/CreateSale/CreateSaleValidator.cs:15-22 | `RuleForEach` yields no failures exactly when every item is accepted |
| Validation.QuantityFailureReported | src/Ambev.DeveloperEvaluation.Application/Sales/CreateSale/CreateSaleValidator.cs:20-21 | an out-of-range quantity is reported under its indexed property path with the rule's message |
| CreateSaleValidation.CreateSaleFailures | src/Ambev.DeveloperEvaluation.Application/Sales/CreateSale/CreateSaleValidator.cs:6-23 | the command has no failures exactly when every create rule holds |
| CreateSaleValidation.MessageOfMember | src/Ambev.DeveloperEvaluation.WebApi/Middleware/ErrorHandlingMiddleware.cs:47 | every failure's message appears among the reported messages |
| CreateSaleValidation.QuantityOutOfRangeReported | src/Ambev.DeveloperEvaluation.Application/Sales/CreateSale/CreateSaleValidator.cs:20-21 | any item outside 1..20 makes "Quantity must be between 1 and 20 items" appear |
| CreateSaleValidation.NoItemsReported | src/Ambev.DeveloperEvaluation.Application/Sales/CreateSale/CreateSaleValidator.cs:13 | an empty item list makes "At least one item is required" appear |
| CreateSaleValidation.RepeatOneMore | src/Ambev.DeveloperEvaluation.Application/Sales/CreateSale/CreateSaleHandler.cs:42-54 | each loop pass adds one more `SaleModified` event at the end |
| CreateSaleValidation.ItemsForPrefix | src/Ambev.DeveloperEvaluation.Application/Sales/CreateSale/CreateSaleHandler.cs:42-54 | the items after i+1 passes are those after i passes plus the i-th command item |
| CreateSaleValidation.AcceptedItemsTotal | src/Ambev.DeveloperEvaluation.Application/Sales/CreateSale/CreateSaleHandler.cs:42-54 | a validated command's items have a positive total |
| CreateSaleValidation.HandleCreateSale | src/Ambev.DeveloperEvaluation.Application/Sales/CreateSale/CreateSaleHandler.cs:27-54 | a rejected command throws with every validation message. An accepted one yields a fresh sale: its items are the command's, in order, with positive total, and its events are `SaleCreated` then one `SaleModified` per item |
| CreateSaleValidation.AddCommandItems | src/Ambev.DeveloperEvaluation.Application/Sales/CreateSale/CreateSaleHandler.cs:42-54 | the item loop appends the command's items in order and buffers one `SaleModified` per item |
| CreateSaleValidation.AddCommandItem | src/Ambev.DeveloperEvaluation.Application/Sales/CreateSale/CreateSaleHandler.cs:44-53 | pass `i`: the guard cannot fire and `AddItem` succeeds, appending the i-th command item and one event, so the state after `i` passes becomes the state after `i + 1` |
| UpdateSaleValidation.UpdateSaleFailures | src/Ambev.DeveloperEvaluation.Application/Sales/UpdateSale/UpdateSaleValidator.cs:8-29 | the command has no failures exactly when every update rule holds |
| UpdateSaleValidation.MatchingNumberNotEmpty | src/Ambev.DeveloperEvaluation.Application/Sales/UpdateSale/UpdateSaleValidator.cs:10-13 | a number matching the pattern also passes `NotEmpty` |
| UpdateSaleValidation.GeneratedNumberMatches | src/Ambev.DeveloperEvaluation.Application/Sales/UpdateSale/UpdateSaleValidator.cs:10-13 | every generated sale number passes both sale-number rules |
| UpdateSaleValidation.LowerCaseHexRejected | src/Ambev.DeveloperEvaluation.Application/Sales/UpdateSale/UpdateSaleValidator.cs:12 | a lower-case hexadecimal digit breaks the match |
| UpdateSaleValidation.InvalidNumberReported | src/Ambev.DeveloperEvaluation.Application/Sales/UpdateSale/UpdateSaleValidator.cs:12-13 | a non-matching number is reported as "Invalid sale number format" |
| UpdateSaleValidation.CreatedSaleUpdatable | src/Ambev.DeveloperEvaluation.Application/Sales/UpdateSale/UpdateSaleValidator.cs:8-29 | a command the create validator accepts, re-submitted with its generated number, passes the update validator |
| UpdateSaleValidation.FutureDateOnlyUpdatable | src/Ambev.DeveloperEvaluation.Application/Sales/UpdateSale/UpdateSaleValidator.cs:15 | a future sale date is refused on create but accepted on update |
| ListSalesRequestValidation.ListRequestFailures | src/Ambev.DeveloperEvaluation.WebApi/Features/Sale/ListSales/ListSalesRequestValidator.cs:15-23 | the request has no failures exactly when a given page is positive and a given size is in 1..100; at most two failures |
| ListSalesRequestValidation.RulesIndependent | src/Ambev.DeveloperEvaluation.WebApi/Features/Sale/ListSales/ListSalesRequestValidator.cs:15-23 | each message appears exactly when its own rule is broken |
| ListSalesRequestValidation.BothErrorsReported | src/Ambev.DeveloperEvaluation.WebApi/Features/Sale/ListSales/ListSalesRequestValidator.cs:15-23 | breaking both rules reports both messages, page first |
| ListSalesRequestValidation.AcceptedPagingBounds | src/Ambev.DeveloperEvaluation.WebApi/Features/Sale/ListSales/ListSalesRequestValidator.cs:15-23 | accepted values make the exact product (page − 1)·size non-negative and a page at most 100 sales; the 32-bit skip count can still wrap (see `AcceptedRequestOverflows`) |
| ListSalesRequestValidation.AcceptedRequestOverflows | src/Ambev.DeveloperEvaluation.WebApi/Features/Sale/ListSales/ListSalesRequestValidator.cs:15-18 | a page the validator accepts still overflows the repository's skip count and, under LINQ-to-objects paging, returns the wrong page |
| ErrorHandling.FriendlyMessageTable | src/Ambev.DeveloperEvaluation.WebApi/Middleware/ErrorHandlingMiddleware.cs:76-82 | the three known types get distinct texts, none of them the generic one; every other type gets the generic text |
| ErrorHandling.FriendlyMessage | src/Ambev.DeveloperEvaluation.WebApi/Middleware/ErrorHandlingMiddleware.cs:76-82 | the friendly text is never empty, and it is the generic text exactly for a type other than the three known ones |
| ErrorHandling.StatusCode | src/Ambev.DeveloperEvaluation.WebApi/Middleware/ErrorHandlingMiddleware.cs:65-71 | the status is 400, 404 or 500, and anything but 500 comes from an `AppException` subclass of a known type |
| ErrorHandling.ResponseFor | src/Ambev.DeveloperEvaluation.WebApi/Middleware/ErrorHandlingMiddleware.cs:34-63 | the Error text is never empty; the Detail is the exception's message except for FluentValidation's exception; an `AppException` body carries its Type and the friendly text for that Type; any other exception gets "ValidationError", "DomainException" or "UnexpectedError" |
| ErrorHandling.StatusByClass | src/Ambev.DeveloperEvaluation.WebApi/Middleware/ErrorHandlingMiddleware.cs:65-71 | 404 exactly for resource-not-found, 400 exactly for validation and business-rule exceptions, 500 otherwise |
| ErrorHandling.AppExceptionBody | src/Ambev.DeveloperEvaluation.WebApi/Middleware/ErrorHandlingMiddleware.cs:36-41 | an `AppException` body carries its Type, the friendly text for that Type and its message; the subclasses' Types are fixed |
| ErrorHandling.ClientErrorsAreTyped | src/Ambev.DeveloperEvaluation.WebApi/Middleware/ErrorHandlingMiddleware.cs:34-71 | a non-500 status always comes with a known Type, a specific friendly text and the exception's message |
| ErrorHandling.TypeDoesNotDecideStatus | src/Ambev.DeveloperEvaluation.WebApi/Middleware/ErrorHandlingMiddleware.cs:34-71 | a "ValidationError" body can come with 500 (FluentValidation's exception, or a plain `AppException` of that Type), and a domain exception is a 500 |
| ErrorHandling.ValidationDetailKeepsMessages | src/Ambev.DeveloperEvaluation.WebApi/Middleware/ErrorHandlingMiddleware.cs:43-48 | the Detail holds every validation message, in order, separated by "; " |
| ErrorHandling.MessageInDetail | src/Ambev.DeveloperEvaluation.WebApi/Middleware/ErrorHandlingMiddleware.cs:47 | each validation message can be found in the Detail |
| ErrorHandling.QuantityErrorResponse | src/Ambev.DeveloperEvaluation.WebApi/Middleware/ErrorHandlingMiddleware.cs:43-48 | the exception the create handler throws for a command with an out-of-range quantity maps to a ValidationError body with status 500 whose Detail holds the quantity text (over HTTP the controller's request validator answers 400 before any command exists) |
| ErrorHandling.RefusedFilterIsBadRequest | src/Ambev.DeveloperEvaluation.WebApi/Middleware/ErrorHandlingMiddleware.cs:36-41 | every filter map the repository refuses is answered with 400 and a ValidationError body |

## Left out

- Skip/Take follow LINQ-to-objects semantics, as with the in-memory provider; the database's refusal of a negative OFFSET/LIMIT is not modelled (on PostgreSQL the wrapped skip count makes the query fail, which the middleware answers with 500).
- Persistence: Entity Framework, the database, and the repository's create, get-by-id, update and delete operations. The listing query is modelled over an in-memory sequence.
- Logging (`Console.WriteLine`, `ILogger`).
- `async` and cancellation tokens.
- The decimal type.
  - `decimal` is modelled as `real`: no 28-digit rounding, no overflow, no (18,2) column precision.
  - `TotalPages` is a `double` division and is not modelled.
- The culture-dependent grammars of `decimal.TryParse`, `DateTime.TryParse` and `bool.TryParse`. They are parameters of the model.
- Text handling beyond ASCII.
  - `ToLower`/`ToUpper` use an ASCII-only case mapping, with no culture rules.
  - `\d` in the sale-number pattern is ASCII digits only; .NET also accepts other Unicode decimal digits.
  - String ordering is ordinal (code-unit) comparison, not the database's collation.
  - The repository's `StartsWith(string)` key tests (the `_min`/`_max` prefixes and the leading `*` of a wildcard) are culture-sensitive in .NET and skip ignorable characters; the model compares ordinally.
  - The same holds for the wildcard `Where` lambdas, `CustomerName.StartsWith(value)`/`EndsWith(value)` and their branch-name twins (SaleRepository.cs:325-332): under LINQ-to-objects they are culture-sensitive, under a database they become `LIKE` patterns; `Holds` tests them ordinally.
- The order among sales that tie on every sort key. The database does not promise it, so any arrangement the keys accept is allowed.
- `CreatedAt`, `UpdatedAt` and the events' `OccurredOn`.
  - Events are tags (`SaleCreated`, `SaleModified`, `SaleCancelled`, `ItemCancelled`) without payloads.
  - `SaleItem`'s own inherited event buffer is never used and is left out.
- `Sale.UpdateSaleDetails` is called by the update handler but not defined in Sale.cs; it is not part of this model.
- The update handler's other steps.
  - Its validation and not-found steps follow the same pattern as the create handler.
  - Only its publish-and-clear of buffered events is modelled (`PublishAndClear`). The bus is external: which publish it refuses, if any, is a parameter, and the rethrown exception is reported as a flag.
- The other handlers (get, delete, cancel, list) and the controllers are not part of this model. This includes:
  - the AutoMapper mapping of `_page`/`_size` to the defaults 1/10;
  - the controller's dropping of `_`-prefixed query keys.
- Nulls. `null` strings are represented as `""`; `null` filter maps as `None`. One visible difference: FluentValidation's `Matches` passes a `null` value, so a `null` sale number on update gets only the `NotEmpty` failure, while the model's `""` also fails `SaleNumberMatches` and adds "Invalid sale number format".
- FluentValidation's default message texts ("'X' must not be empty." and so on) are approximations. Only the custom `WithMessage` texts are exact.
- The FluentValidation exception's own `Message` is not modelled. The middleware does not use it.
- `DomainException`'s definition is not part of this model. It is taken not to derive from `AppException`.
- `BaseEntity.ValidateAsync` and the `Validator` helper.
- Method boundaries that differ from the source.
  - `CreateSaleValidation.AddCommandItems`, `CreateSaleValidation.AddCommandItem`, `Sales.Sale.Recompute` and `Sales.Sale.CancelAt` are separate methods here; in the source they are inline code of the create handler's loop, `AddItem` and `CancelItem`.
  - `Sale.CalculateTotalAmount` is unused in the source and shares the specification function `Total` with `UpdateTotalAmount`.
- SaleRepository.GetAll: pages with the corrected skip count (`Page`). The 32-bit computation as written is modelled separately (`PageAsWritten`); see Findings.
- SaleItems.SaleItem.constructor: accepts any quantity, as the source does. The above-20 branch giving 10% is modelled but never reached through `AddItem`.

## Findings

| source | as written | input that shows it | evidently intended | confidence | as-written member | corrected member |
|---|---|---|---|---|---|---|
| src/Ambev.DeveloperEvaluation.ORM/Repositories/SaleRepository.cs:101 | `Skip((page - 1) * size)` multiplies 32-bit `int`s, which wraps around; the request validator bounds the size but not the page | `_page=21474838&_size=100` passes `ListSalesRequestValidator`; (page − 1)·size = 2147483700 wraps to −2147483596; with the in-memory provider a negative skip skips nothing, so the first 100 sales come back; on PostgreSQL the negative OFFSET makes the query fail | a page past the end of the listing is empty | not executed | SaleRepository.SkipCountOverflow | SaleRepository.PagesPrefix |
