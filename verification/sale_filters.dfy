/** The filter half of the sales listing: each entry of the string-keyed
    filter map becomes a criterion on a sale (or is skipped, or is refused
    with `ValidationEx`), and the listing keeps the sales that meet every
    criterion. The query is modelled over an in-memory sequence of sales. */
module SaleFilters {
  import opened Wrappers
  import opened SystemTypes
  import opened Text
  import opened Exceptions
  import opened Sequences

  /** The columns of a stored sale that the listing filters and orders on. */
  datatype SaleRecord = SaleRecord(id: Guid, saleNumber: string, saleDate: DateTime, customerName: string,
                                   branchName: string, totalAmount: real, isCancelled: bool)

  /** `decimal.TryParse`, `DateTime.TryParse` and `bool.TryParse`, as partial
      functions of the text; their culture-dependent grammars are not modelled. */
  datatype Parsers = Parsers(decimal: string -> Option<real>,
                             dateTime: string -> Option<DateTime>,
                             boolean: string -> Option<bool>)

  datatype TextField = CustomerName | BranchName

  /** One `Where` clause the listing can add to its query. */
  datatype Criterion =
    | AmountAtLeast(amount: real)
    | AmountAtMost(amount: real)
    | DateAtLeast(date: DateTime)
    | DateAtMost(date: DateTime)
    | TextStartsWith(field: TextField, text: string)
    | TextEndsWith(field: TextField, text: string)
    | TextEquals(field: TextField, text: string)
    | CancelledIs(flag: bool)

  function TextOf(field: TextField, s: SaleRecord): string
  {
    match field
    case CustomerName => s.customerName
    case BranchName => s.branchName
  }

  /** The lambda inside each `Where`; string tests are ordinal and the
      bounds inclusive. */
  predicate Holds(c: Criterion, s: SaleRecord)
  {
    match c
    case AmountAtLeast(a) => s.totalAmount >= a
    case AmountAtMost(a) => s.totalAmount <= a
    case DateAtLeast(d) => NotLaterThan(d, s.saleDate)
    case DateAtMost(d) => NotLaterThan(s.saleDate, d)
    case TextStartsWith(f, t) => StartsWith(TextOf(f, s), t)
    case TextEndsWith(f, t) => EndsWith(TextOf(f, s), t)
    case TextEquals(f, t) => TextOf(f, s) == t
    case CancelledIs(b) => s.isCancelled == b
  }

  /** The bounds are inclusive: a lower and an upper bound at the same value
      keep exactly the sales at that value, and an exact name match also
      passes the starts-with and ends-with tests. */
  lemma BoundsMeetAtValue(s: SaleRecord, a: real, d: DateTime, f: TextField, t: string)
    ensures Holds(AmountAtLeast(a), s) && Holds(AmountAtMost(a), s) <==> s.totalAmount == a
    ensures Holds(DateAtLeast(d), s) && Holds(DateAtMost(d), s) <==> s.saleDate == d
    ensures Holds(TextEquals(f, t), s) ==> Holds(TextStartsWith(f, t), s) && Holds(TextEndsWith(f, t), s)
  {
    CompareDateTimeZeroIff(d, s.saleDate);
    CompareDateTimeZeroIff(s.saleDate, d);
    CompareSeqAntisymmetric(DateTimeKey(d), DateTimeKey(s.saleDate));
  }

  predicate IsRangeKey(key: string)
  {
    StartsWith(key, "_min") || StartsWith(key, "_max")
  }

  /** `ApplyRangeFilter`: the field after the four-character prefix, taken
      case-insensitively, must be `totalamount` with a decimal value or `date`
      with a date value; "_min" gives a lower bound and "_max" an upper one. */
  function RangeFilter(key: string, value: string, p: Parsers): (r: Result<Criterion, Exception>)
    requires IsRangeKey(key)
    ensures r.Failure? ==> r.error == ValidationEx("Invalid range filter field: " + key[4..])
    ensures r.Success? ==> r.value.AmountAtLeast? || r.value.AmountAtMost? || r.value.DateAtLeast? || r.value.DateAtMost?
    ensures r.Success? ==> (StartsWith(key, "_min") <==> r.value.AmountAtLeast? || r.value.DateAtLeast?)
    ensures ToLower(key[4..]) == "totalamount" && p.decimal(value).Some? ==>
              r == Success(if StartsWith(key, "_min") then AmountAtLeast(p.decimal(value).value)
                           else AmountAtMost(p.decimal(value).value))
    ensures ToLower(key[4..]) == "date" && p.dateTime(value).Some? ==>
              r == Success(if StartsWith(key, "_min") then DateAtLeast(p.dateTime(value).value)
                           else DateAtMost(p.dateTime(value).value))
  {
    var fieldName := key[4..];
    var isMin := StartsWith(key, "_min");
    if ToLower(fieldName) == "totalamount" && p.decimal(value).Some? then
      var amount := p.decimal(value).value;
      Success(if isMin then AmountAtLeast(amount) else AmountAtMost(amount))
    else if ToLower(fieldName) == "date" && p.dateTime(value).Some? then
      var date := p.dateTime(value).value;
      Success(if isMin then DateAtLeast(date) else DateAtMost(date))
    else Failure(ValidationEx("Invalid range filter field: " + fieldName))
  }

  /** `ApplyWildcardFilter`: the value without its stars must prefix the
      customer or branch name, or end it when the value starts with a star. */
  function WildcardFilter(key: string, value: string): (r: Result<Criterion, Exception>)
    ensures r.Success? <==> (ToLower(key) == "customername" || ToLower(key) == "branchname")
    ensures r.Failure? ==> r.error == ValidationEx("Invalid wildcard filter field: " + key)
    ensures r.Success? ==> && (r.value.TextEndsWith? || r.value.TextStartsWith?)
                           && r.value.text == RemoveChar(value, '*') && '*' !in r.value.text
                           && (r.value.TextEndsWith? <==> StartsWith(value, "*"))
    ensures ToLower(key) == "customername" ==> r.Success? && r.value.field == CustomerName
    ensures ToLower(key) == "branchname" ==> r.Success? && r.value.field == BranchName
  {
    var text := RemoveChar(value, '*');
    var field := match ToLower(key) {
      case "customername" => Some(CustomerName)
      case "branchname" => Some(BranchName)
      case _ => None
    };
    match field
    case None => Failure(ValidationEx("Invalid wildcard filter field: " + key))
    case Some(f) => Success(if StartsWith(value, "*") then TextEndsWith(f, text) else TextStartsWith(f, text))
  }

  /** `ApplyExactFilter`: name equality, or the cancellation flag when the
      value is a boolean. */
  function ExactFilter(key: string, value: string, p: Parsers): (r: Result<Criterion, Exception>)
    ensures r.Success? <==> || ToLower(key) == "customername" || ToLower(key) == "branchname"
                            || (ToLower(key) == "iscancelled" && p.boolean(value).Some?)
    ensures r.Failure? ==> r.error == ValidationEx("Invalid filter field: " + key)
    ensures r.Success? && r.value.TextEquals? ==> r.value.text == value
    ensures ToLower(key) == "customername" ==> r == Success(TextEquals(CustomerName, value))
    ensures ToLower(key) == "branchname" ==> r == Success(TextEquals(BranchName, value))
    ensures ToLower(key) == "iscancelled" && p.boolean(value).Some? ==> r == Success(CancelledIs(p.boolean(value).value))
  {
    match ToLower(key)
    case "customername" => Success(TextEquals(CustomerName, value))
    case "branchname" => Success(TextEquals(BranchName, value))
    case "iscancelled" =>
      if p.boolean(value).Some? then Success(CancelledIs(p.boolean(value).value))
      else Failure(ValidationEx("Invalid filter field: " + key))
    case _ => Failure(ValidationEx("Invalid filter field: " + key))
  }

  /** One pass of the filter loop's `switch`: the criterion the entry adds,
      `None` when an exact-case amount key has an unparsable value, or the
      exception it throws. */
  function FilterFor(key: string, value: string, p: Parsers): (r: Result<Option<Criterion>, Exception>)
    ensures r.Failure? ==> r.error.ValidationEx?
    ensures r == Success(None) <==> (key == "_minTotalAmount" || key == "_maxTotalAmount") && p.decimal(value).None?
  {
    if key == "_minTotalAmount" then
      match p.decimal(value)
      case Some(a) => Success(Some(AmountAtLeast(a)))
      case None => Success(None)
    else if key == "_maxTotalAmount" then
      match p.decimal(value)
      case Some(a) => Success(Some(AmountAtMost(a)))
      case None => Success(None)
    else if IsRangeKey(key) then
      match RangeFilter(key, value, p)
      case Success(c) => Success(Some(c))
      case Failure(e) => Failure(e)
    else if '*' in value then
      match WildcardFilter(key, value)
      case Success(c) => Success(Some(c))
      case Failure(e) => Failure(e)
    else
      match ExactFilter(key, value, p)
      case Success(c) => Success(Some(c))
      case Failure(e) => Failure(e)
  }

  /** The criteria the whole map contributes, in enumeration order; the
      first entry that throws ends the loop with its exception. */
  function Criteria(filters: seq<(string, string)>, p: Parsers): Result<seq<Criterion>, Exception>
  {
    if filters == [] then Success([])
    else
      var last := filters[|filters| - 1];
      match Criteria(filters[..|filters| - 1], p)
      case Failure(e) => Failure(e)
      case Success(cs) =>
        match FilterFor(last.0, last.1, p)
        case Failure(e) => Failure(e)
        case Success(None) => Success(cs)
        case Success(Some(c)) => Success(cs + [c])
  }

  /** Each entry contributes at most one criterion. */
  lemma {:induction false} CriteriaCount(filters: seq<(string, string)>, p: Parsers)
    ensures Criteria(filters, p).Success? ==> |Criteria(filters, p).value| <= |filters|
  {
    if filters != [] {
      CriteriaCount(filters[..|filters| - 1], p);
    }
  }

  predicate Fails(entry: (string, string), p: Parsers)
  {
    FilterFor(entry.0, entry.1, p).Failure?
  }

  /** The map is refused exactly when one of its entries is, and then with the
      exception of the first such entry. */
  lemma {:induction false} CriteriaFailure(filters: seq<(string, string)>, p: Parsers)
    ensures Criteria(filters, p).Failure? <==> exists i | 0 <= i < |filters| :: Fails(filters[i], p)
    ensures Criteria(filters, p).Failure? ==>
      exists i | 0 <= i < |filters| ::
        && FilterFor(filters[i].0, filters[i].1, p) == Failure(Criteria(filters, p).error)
        && forall j | 0 <= j < i :: !Fails(filters[j], p)
  {
    if filters != [] {
      var n := |filters|;
      var init := filters[..n - 1];
      var last := filters[n - 1];
      CriteriaFailure(init, p);
      assert forall i | 0 <= i < n - 1 :: init[i] == filters[i];
      if Criteria(init, p).Failure? {
        assert Criteria(filters, p) == Criteria(init, p);
        var i :| 0 <= i < |init| && FilterFor(init[i].0, init[i].1, p) == Failure(Criteria(init, p).error)
                 && forall j | 0 <= j < i :: !Fails(init[j], p);
        assert filters[i] == init[i] && Fails(filters[i], p);
      } else if Fails(last, p) {
        assert Criteria(filters, p) == Failure(FilterFor(last.0, last.1, p).error);
        assert forall j | 0 <= j < n - 1 :: !Fails(filters[j], p);
      } else {
        forall i | 0 <= i < n ensures !Fails(filters[i], p) {
          if i < n - 1 { assert filters[i] == init[i]; }
        }
      }
    }
  }

  /** Some entry of the map produces the criterion `c`. */
  predicate Produces(filters: seq<(string, string)>, p: Parsers, c: Criterion)
  {
    exists i | 0 <= i < |filters| :: FilterFor(filters[i].0, filters[i].1, p) == Success(Some(c))
  }

  lemma ProducesSplit(filters: seq<(string, string)>, p: Parsers, c: Criterion)
    requires filters != []
    ensures var n := |filters|;
      Produces(filters, p, c) <==> Produces(filters[..n - 1], p, c) || FilterFor(filters[n - 1].0, filters[n - 1].1, p) == Success(Some(c))
  {
    ExistsSplit(filters, filters[..|filters| - 1], (e: (string, string)) => FilterFor(e.0, e.1, p) == Success(Some(c)));
  }

  /** On success the criteria are exactly those of the entries that produced
      one. */
  lemma {:induction false} CriteriaMembers(filters: seq<(string, string)>, p: Parsers, c: Criterion)
    requires Criteria(filters, p).Success?
    ensures c in Criteria(filters, p).value <==> Produces(filters, p, c)
  {
    if filters != [] {
      var n := |filters|;
      CriteriaMembers(filters[..n - 1], p, c);
      ProducesSplit(filters, p, c);
    }
  }

  /** Every criterion of the list holds for the sale. */
  predicate MeetsAll(cs: seq<Criterion>, s: SaleRecord)
  {
    forall i | 0 <= i < |cs| :: Holds(cs[i], s)
  }

  /** One `Where`: the sales meeting `c`, in their original order. */
  function Where(sales: seq<SaleRecord>, c: Criterion): (r: seq<SaleRecord>)
    ensures |r| <= |sales|
    ensures forall x :: x in r <==> x in sales && Holds(c, x)
  {
    if sales == [] then []
    else (if Holds(c, sales[0]) then [sales[0]] else []) + Where(sales[1..], c)
  }

  /** The sales meeting every criterion, in their original order. */
  function Select(sales: seq<SaleRecord>, cs: seq<Criterion>): (r: seq<SaleRecord>)
    ensures |r| <= |sales|
    ensures multiset(r) <= multiset(sales)
    ensures forall x :: x in r <==> x in sales && MeetsAll(cs, x)
  {
    if sales == [] then []
    else
      assert sales == [sales[0]] + sales[1..];
      (if MeetsAll(cs, sales[0]) then [sales[0]] else []) + Select(sales[1..], cs)
  }

  /** Chaining one more `Where` onto the filtered query is selecting with
      one more criterion. */
  lemma {:induction false} WhereSelect(sales: seq<SaleRecord>, cs: seq<Criterion>, c: Criterion)
    ensures Where(Select(sales, cs), c) == Select(sales, cs + [c])
  {
    if sales != [] {
      var s, rest := sales[0], sales[1..];
      WhereSelect(rest, cs, c);
      MeetsAllAppend(cs, c, s);
      var sel := Select(sales, cs);
      if MeetsAll(cs, s) {
        assert sel == [s] + Select(rest, cs);
        assert sel[0] == s && sel[1..] == Select(rest, cs);
        assert Where(sel, c) == (if Holds(c, s) then [s] else []) + Where(Select(rest, cs), c);
      } else {
        assert sel == Select(rest, cs);
      }
    }
  }

  lemma MeetsAllAppend(cs: seq<Criterion>, c: Criterion, s: SaleRecord)
    ensures MeetsAll(cs + [c], s) <==> MeetsAll(cs, s) && Holds(c, s)
  {
    if MeetsAll(cs, s) && Holds(c, s) {
      forall i | 0 <= i < |cs + [c]| ensures Holds((cs + [c])[i], s) {
        if i < |cs| { assert (cs + [c])[i] == cs[i]; }
      }
    }
    if MeetsAll(cs + [c], s) {
      assert (cs + [c])[|cs|] == c;
      forall i | 0 <= i < |cs| ensures Holds(cs[i], s) {
        assert (cs + [c])[i] == cs[i];
      }
    }
  }

  lemma {:induction false} SelectNone(sales: seq<SaleRecord>)
    ensures Select(sales, []) == sales
  {
    if sales != [] {
      SelectNone(sales[1..]);
      assert MeetsAll([], sales[0]);
      assert Select(sales, []) == [sales[0]] + Select(sales[1..], []);
      assert [sales[0]] + sales[1..] == sales;
    }
  }

  /** The filter loop of `GetAllAsync` and `GetTotalCountAsync` (`null`
      counts as an empty map): each entry narrows the query by its criterion,
      is skipped, or throws. */
  method ApplyFilters(sales: seq<SaleRecord>, filters: Option<seq<(string, string)>>, p: Parsers)
    returns (r: Result<seq<SaleRecord>, Exception>)
    ensures var entries := if filters.Some? then filters.value else [];
      match Criteria(entries, p)
      case Failure(e) => r == Failure(e)
      case Success(cs) => r == Success(Select(sales, cs))
  {
    var entries := if filters.Some? then filters.value else [];
    var query := sales;
    SelectNone(sales);
    var i := 0;
    while i < |entries|
      invariant 0 <= i <= |entries|
      invariant Criteria(entries[..i], p).Success?
      invariant query == Select(sales, Criteria(entries[..i], p).value)
    {
      var (key, value) := entries[i];
      assert entries[..i + 1][..i] == entries[..i];
      ghost var cs := Criteria(entries[..i], p).value;
      match FilterFor(key, value, p) {
        case Failure(e) =>
          CriteriaStaysFailed(entries, i + 1, p);
          return Failure(e);
        case Success(None) =>
        case Success(Some(c)) =>
          WhereSelect(sales, cs, c);
          query := Where(query, c);
      }
      i := i + 1;
    }
    TakeWhole(entries, i);
    r := Success(query);
  }

  /** Once a prefix of the map has thrown, the whole map throws the same
      exception. */
  lemma {:induction false} CriteriaStaysFailed(entries: seq<(string, string)>, n: nat, p: Parsers)
    requires n <= |entries| && Criteria(entries[..n], p).Failure?
    ensures Criteria(entries, p) == Criteria(entries[..n], p)
    decreases |entries| - n
  {
    if n < |entries| {
      assert entries[..n + 1][..n] == entries[..n];
      CriteriaStaysFailed(entries, n + 1, p);
    } else {
      assert entries[..n] == entries;
    }
  }

  /** What the filtered listing means: on success, a sale is kept exactly when
      it is one of the sales and meets the criterion of every entry that
      produced one. */
  lemma FilteredMeaning(sales: seq<SaleRecord>, filters: seq<(string, string)>, p: Parsers, x: SaleRecord)
    requires Criteria(filters, p).Success?
    ensures x in Select(sales, Criteria(filters, p).value) <==>
      x in sales && forall c | Produces(filters, p, c) :: Holds(c, x)
  {
    var cs := Criteria(filters, p).value;
    if x in sales && MeetsAll(cs, x) {
      forall c | Produces(filters, p, c) ensures Holds(c, x) {
        CriteriaMembers(filters, p, c);
      }
    }
    if x in sales && forall c | Produces(filters, p, c) :: Holds(c, x) {
      forall k | 0 <= k < |cs| ensures Holds(cs[k], x) {
        CriteriaMembers(filters, p, cs[k]);
      }
    }
  }

  /** The exact-case keys "_minTotalAmount" and "_maxTotalAmount" bound the
      total inclusively when their value parses and are skipped otherwise. */
  lemma ExactCaseAmountKeys(value: string, p: Parsers)
    ensures p.decimal(value).Some? ==>
      && FilterFor("_minTotalAmount", value, p) == Success(Some(AmountAtLeast(p.decimal(value).value)))
      && FilterFor("_maxTotalAmount", value, p) == Success(Some(AmountAtMost(p.decimal(value).value)))
    ensures p.decimal(value).None? ==>
      FilterFor("_minTotalAmount", value, p) == Success(None) && FilterFor("_maxTotalAmount", value, p) == Success(None)
  {
  }

  /** Any other key with a "_min" or "_max" prefix is a range filter, whatever
      its value; a key spelled "_mintotalamount" is therefore refused when its
      value does not parse, unlike the exact-case spelling. */
  lemma OtherRangeKeys(key: string, value: string, p: Parsers)
    requires IsRangeKey(key) && key != "_minTotalAmount" && key != "_maxTotalAmount"
    ensures FilterFor(key, value, p).Success? <==>
      || (ToLower(key[4..]) == "totalamount" && p.decimal(value).Some?)
      || (ToLower(key[4..]) == "date" && p.dateTime(value).Some?)
    ensures FilterFor(key, value, p).Failure? ==>
      FilterFor(key, value, p).error == ValidationEx("Invalid range filter field: " + key[4..])
  {
  }

  /** The worked range example: 100 to 200 keeps exactly the sales whose
      total lies in [100, 200]. */
  lemma AmountRangeExample(sales: seq<SaleRecord>, p: Parsers, x: SaleRecord)
    requires p.decimal("100") == Some(100.0) && p.decimal("200") == Some(200.0)
    ensures var filters := [("_minTotalAmount", "100"), ("_maxTotalAmount", "200")];
      && Criteria(filters, p) == Success([AmountAtLeast(100.0), AmountAtMost(200.0)])
      && (x in Select(sales, Criteria(filters, p).value) <==> x in sales && 100.0 <= x.totalAmount <= 200.0)
  {
    var filters := [("_minTotalAmount", "100"), ("_maxTotalAmount", "200")];
    assert FilterFor("_minTotalAmount", "100", p) == Success(Some(AmountAtLeast(100.0)));
    assert FilterFor("_maxTotalAmount", "200", p) == Success(Some(AmountAtMost(200.0)));
    var first := filters[..1];
    assert first == [("_minTotalAmount", "100")];
    assert first[..0] == [];
    assert Criteria(first[..0], p) == Success([]);
    assert first[|first| - 1] == ("_minTotalAmount", "100");
    assert [] + [AmountAtLeast(100.0)] == [AmountAtLeast(100.0)];
    assert Criteria(first, p) == Success([AmountAtLeast(100.0)]);
    assert filters[..|filters| - 1] == first;
    assert filters[|filters| - 1] == ("_maxTotalAmount", "200");
    assert [AmountAtLeast(100.0)] + [AmountAtMost(200.0)] == [AmountAtLeast(100.0), AmountAtMost(200.0)];
    var cs := [AmountAtLeast(100.0), AmountAtMost(200.0)];
    assert MeetsAll(cs, x) <==> Holds(cs[0], x) && Holds(cs[1], x);
  }

  /** An unknown plain key, such as "invalidField", is refused. */
  lemma UnknownKeyRefused(p: Parsers)
    ensures FilterFor("invalidField", "value", p) == Failure(ValidationEx("Invalid filter field: " + "invalidField"))
  {
    var key := "invalidField";
    assert key != "_minTotalAmount" && key != "_maxTotalAmount";
    assert !StartsWith(key, "_min") && !StartsWith(key, "_max") by {
      assert key[0] != '_';
    }
    assert '*' !in "value";
    assert ToLower(key) == "invalidfield" by {
      forall i | 0 <= i < |key| ensures ToLower(key)[i] == "invalidfield"[i] {
      }
    }
    assert "invalidfield"[0] != "customername"[0];
  }
}
