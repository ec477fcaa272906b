/** The ordering half of the sales listing: the `_order` string is split
    into comma-separated clauses, each naming a column and an optional
    direction; the first clause is the primary sort key and the later ones
    break ties. The result is a lexicographic comparator on sales. */
module SaleOrdering {
  import opened Wrappers
  import opened SystemTypes
  import opened Text
  import SaleFilters
  import opened Sequences

  type SaleRecord = SaleFilters.SaleRecord

  /** The columns a clause may name. */
  datatype Field = SaleDate | TotalAmount | CustomerName | BranchName | SaleNumber

  /** One `OrderBy`/`ThenBy` (ascending) or `OrderByDescending`/`ThenByDescending` call. */
  datatype SortKey = SortKey(field: Field, descending: bool)

  /** `OrderByDescending(s => s.SaleDate)`, the listing's default order. */
  const DefaultOrder: seq<SortKey> := [SortKey(SaleDate, true)]

  /** The `propertyName.ToLower()` switch shared by `ApplyInitialOrdering`
      and `ApplyThenOrdering`. */
  function FieldNamed(name: string): Option<Field>
  {
    match ToLower(name)
    case "date" => Some(SaleDate)
    case "saledate" => Some(SaleDate)
    case "amount" => Some(TotalAmount)
    case "totalamount" => Some(TotalAmount)
    case "customer" => Some(CustomerName)
    case "customername" => Some(CustomerName)
    case "branch" => Some(BranchName)
    case "branchname" => Some(BranchName)
    case "number" => Some(SaleNumber)
    case "salenumber" => Some(SaleNumber)
    case _ => None
  }

  /** The property each column holds, in lower case. */
  function ColumnName(f: Field): string
  {
    match f
    case SaleDate => "saledate"
    case TotalAmount => "totalamount"
    case CustomerName => "customername"
    case BranchName => "branchname"
    case SaleNumber => "salenumber"
  }

  /** The short alias each column also answers to. */
  function ColumnAlias(f: Field): string
  {
    match f
    case SaleDate => "date"
    case TotalAmount => "amount"
    case CustomerName => "customer"
    case BranchName => "branch"
    case SaleNumber => "number"
  }

  /** A name selects a column exactly when, lower-cased, it is that column's
      property name or alias; letter case never matters. */
  lemma FieldNamedSpellings(name: string, f: Field)
    ensures FieldNamed(name) == Some(f) <==> ToLower(name) == ColumnName(f) || ToLower(name) == ColumnAlias(f)
    ensures FieldNamed(ToUpper(name)) == FieldNamed(name)
  {
    ToLowerOfUpper(name);
  }

  /** The property name and direction of one clause: trimmed, then a
      case-insensitive " desc" or " asc" suffix is cut off and the rest
      trimmed again; no suffix means ascending. */
  function ParseClause(clause: string): (string, bool)
  {
    var t := Trim(clause);
    if EndsWithIgnoreCase(t, " desc") then (Trim(t[..|t| - 5]), true)
    else if EndsWithIgnoreCase(t, " asc") then (Trim(t[..|t| - 4]), false)
    else (t, false)
  }

  /** A clause written as a name followed by a direction word in any letter
      case reads back as that name and direction. */
  lemma ParseClauseRoundTrip(name: string, direction: string)
    requires name != [] && !IsWhiteSpace(name[0]) && !IsWhiteSpace(name[|name| - 1])
    requires ToUpper(direction) == " DESC" || ToUpper(direction) == " ASC"
    ensures ParseClause(name + direction) == (name, ToUpper(direction) == " DESC")
  {
    var t := name + direction;
    var n := |direction|;
    assert ToUpper(direction)[n - 1] == 'C';
    assert ToUpperChar(direction[n - 1]) == 'C';
    TrimUnchanged(t);
    TrimUnchanged(name);
    assert ToUpper(" desc") == " DESC";
    assert ToUpper(" asc") == " ASC";
    assert t[|t| - n..] == direction;
    assert t[..|t| - n] == name;
    if ToUpper(direction) == " ASC" {
      var tail := t[|t| - 5..];
      assert tail == [name[|name| - 1]] + direction;
      assert tail[1] == direction[0];
      assert ToUpperChar(direction[0]) == ToUpper(direction)[0] == ' ';
      assert ToUpper(tail)[1] == ' ';
      assert ToUpper(" desc")[1] == 'D';
    }
  }

  /** Whatever the clause, the name it yields is trimmed and no longer than
      the clause, and the direction is descending exactly when the trimmed
      clause ends with " desc" in some letter case. */
  lemma ParseClauseTrimmed(clause: string)
    ensures var (name, descending) := ParseClause(clause);
      && |name| <= |clause|
      && (name != [] ==> !IsWhiteSpace(name[0]) && !IsWhiteSpace(name[|name| - 1]))
      && (descending <==> EndsWithIgnoreCase(Trim(clause), " desc"))
  {
    var t := Trim(clause);
    TrimSpec(clause);
    if EndsWithIgnoreCase(t, " desc") {
      TrimSpec(t[..|t| - 5]);
    } else if EndsWithIgnoreCase(t, " asc") {
      TrimSpec(t[..|t| - 4]);
    }
  }

  /** `ApplyInitialOrdering`: the primary key; an unknown name falls back to
      the default order, whatever direction was asked for. */
  function InitialOrdering(name: string, descending: bool): (r: seq<SortKey>)
    ensures |r| == 1
    ensures FieldNamed(name).Some? ==> r == [SortKey(FieldNamed(name).value, descending)]
    ensures FieldNamed(name).None? ==> r == DefaultOrder
  {
    match FieldNamed(name)
    case Some(f) => [SortKey(f, descending)]
    case None => DefaultOrder
  }

  /** `ApplyThenOrdering`: one more tie-breaker; an unknown name adds nothing. */
  function ThenOrdering(keys: seq<SortKey>, name: string, descending: bool): (r: seq<SortKey>)
    ensures keys <= r && |r| <= |keys| + 1
    ensures FieldNamed(name).Some? ==> r == keys + [SortKey(FieldNamed(name).value, descending)]
    ensures FieldNamed(name).None? ==> r == keys
  {
    match FieldNamed(name)
    case Some(f) => keys + [SortKey(f, descending)]
    case None => keys
  }

  /** The key a later clause contributes: none for an unknown name. */
  function TieBreaker(clause: string): (r: seq<SortKey>)
    ensures |r| <= 1
    ensures var (name, descending) := ParseClause(clause);
      && (FieldNamed(name).Some? ==> r == [SortKey(FieldNamed(name).value, descending)])
      && (FieldNamed(name).None? ==> r == [])
  {
    var (name, descending) := ParseClause(clause);
    ThenOrdering([], name, descending)
  }

  /** The keys of the later clauses, in order, skipping unknown names. */
  function TieBreakers(clauses: seq<string>): seq<SortKey>
  {
    if clauses == [] then [] else TieBreaker(clauses[0]) + TieBreakers(clauses[1..])
  }

  /** The sort keys an `_order` string denotes: the default order when it
      is blank or holds no clause, otherwise the first clause's key (or the
      default for an unknown name) followed by the later clauses' keys. */
  function OrderingKeys(orderBy: string): (r: seq<SortKey>)
    ensures r != []
  {
    var clauses := SplitRemoveEmpty(orderBy, ',');
    if IsNullOrWhiteSpace(orderBy) || clauses == [] then DefaultOrder
    else OrderingOfClauses(clauses)
  }

  lemma {:induction false} TieBreakersAppend(clauses: seq<string>, c: string)
    ensures TieBreakers(clauses + [c]) == TieBreakers(clauses) + TieBreaker(c)
  {
    if clauses != [] {
      assert (clauses + [c])[1..] == clauses[1..] + [c];
      TieBreakersAppend(clauses[1..], c);
    } else {
      assert clauses + [c] == [c];
      assert TieBreakers([c]) == TieBreaker(c) + TieBreakers([]);
    }
  }

  /** `ApplyOrdering`: the clause loop with its `firstOrderApplied` flag and
      the `orderedQuery ?? default` fallback. It yields the keys the order
      string denotes. */
  method ApplyOrdering(orderBy: string) returns (keys: seq<SortKey>)
    ensures keys == OrderingKeys(orderBy)
  {
    if IsNullOrWhiteSpace(orderBy) {
      return DefaultOrder;
    }
    var orderClauses := SplitRemoveEmpty(orderBy, ',');
    var firstOrderApplied := false;
    var orderedQuery: Option<seq<SortKey>> := None;
    for i := 0 to |orderClauses|
      invariant firstOrderApplied <==> i > 0
      invariant orderedQuery.Some? <==> firstOrderApplied
      invariant i > 0 ==> orderedQuery.value == OrderingOfClauses(orderClauses[..i])
    {
      var clause := ParseClause(orderClauses[i]);
      var propertyName, descending := clause.0, clause.1;
      if !firstOrderApplied {
        orderedQuery := Some(InitialOrdering(propertyName, descending));
        firstOrderApplied := true;
        assert orderClauses[..1] == [orderClauses[0]];
      } else {
        orderedQuery := Some(ThenOrdering(orderedQuery.value, propertyName, descending));
        OrderingOfClausesAppend(orderClauses[..i], orderClauses[i]);
        TakeOneMore(orderClauses, i);
      }
    }
    if orderedQuery.Some? {
      TakeWhole(orderClauses, |orderClauses|);
      keys := orderedQuery.value;
    } else {
      keys := DefaultOrder;
    }
  }

  /** The keys a non-empty list of clauses denotes. */
  function OrderingOfClauses(clauses: seq<string>): seq<SortKey>
    requires clauses != []
  {
    var (name, descending) := ParseClause(clauses[0]);
    InitialOrdering(name, descending) + TieBreakers(clauses[1..])
  }

  lemma OrderingOfClausesAppend(clauses: seq<string>, c: string)
    requires clauses != []
    ensures OrderingOfClauses(clauses + [c])
         == ThenOrdering(OrderingOfClauses(clauses), ParseClause(c).0, ParseClause(c).1)
  {
    assert (clauses + [c])[0] == clauses[0];
    assert (clauses + [c])[1..] == clauses[1..] + [c];
    TieBreakersAppend(clauses[1..], c);
  }

  /** `GetAllAsync`'s choice: an empty order string means the default order,
      anything else goes through `ApplyOrdering`. */
  method OrderFor(orderBy: string) returns (keys: seq<SortKey>)
    ensures keys == OrderingKeys(orderBy)
  {
    if orderBy != "" {
      keys := ApplyOrdering(orderBy);
    } else {
      keys := DefaultOrder;
    }
  }

  /** An order string of two clauses denotes the first clause's key
      followed by the second clause's tie-breaker. */
  lemma TwoClauses(a: string, b: string)
    requires a != [] && b != [] && ',' !in a && ',' !in b && !IsWhiteSpace(a[0])
    ensures OrderingKeys(a + [','] + b)
         == InitialOrdering(ParseClause(a).0, ParseClause(a).1) + TieBreaker(b)
  {
    var s := a + [','] + b;
    SplitAllAround(a, b, ',');
    SplitAllNoSeparator(a, ',');
    SplitAllNoSeparator(b, ',');
    NonEmptyAppend([a], [b]);
    assert SplitRemoveEmpty(s, ',') == [a, b];
    assert !IsNullOrWhiteSpace(s) by { assert s[0] == a[0]; }
    assert [a, b][1..] == [b];
    assert TieBreakers([b]) == TieBreaker(b) + TieBreakers([]);
  }

  /** A column name as a clause may spell it: no comma, no white space at
      either end. */
  predicate NameWord(n: string)
  {
    n != [] && ',' !in n && !IsWhiteSpace(n[0]) && !IsWhiteSpace(n[|n| - 1])
  }

  /** A direction suffix: " desc" or " asc" in any letter case. */
  predicate DirectionWord(w: string)
  {
    ToUpper(w) == " DESC" || ToUpper(w) == " ASC"
  }

  /** "name1 dir1,name2 dir2" sorts by the first column in the first
      direction, then by the second column in the second direction; an
      unknown first name falls back to the default order and an unknown
      second name adds nothing. */
  lemma NamedClausesOrdering(n1: string, w1: string, n2: string, w2: string)
    requires NameWord(n1) && NameWord(n2) && DirectionWord(w1) && DirectionWord(w2)
    ensures OrderingKeys(n1 + w1 + [','] + n2 + w2)
         == InitialOrdering(n1, ToUpper(w1) == " DESC") + ThenOrdering([], n2, ToUpper(w2) == " DESC")
  {
    assert ',' !in w1 by { assert forall k | 0 <= k < |w1| :: ToUpperChar(w1[k]) == ToUpper(w1)[k]; }
    assert ',' !in w2 by { assert forall k | 0 <= k < |w2| :: ToUpperChar(w2[k]) == ToUpper(w2)[k]; }
    assert n1 + w1 + [','] + n2 + w2 == (n1 + w1) + [','] + (n2 + w2);
    TwoClauses(n1 + w1, n2 + w2);
    ParseClauseRoundTrip(n1, w1);
    ParseClauseRoundTrip(n2, w2);
  }

  /** The keys of "name1 dir1,name2 dir2": an unknown first name gives
      SaleDate descending whatever its direction word, a known one its own
      column and direction; an unknown second name adds nothing, a known one
      its own column and direction as the tie-breaker. */
  lemma NamedClausesKeys(n1: string, w1: string, n2: string, w2: string)
    requires NameWord(n1) && NameWord(n2) && DirectionWord(w1) && DirectionWord(w2)
    ensures var keys := OrderingKeys(n1 + w1 + [','] + n2 + w2);
      && (FieldNamed(n1).None? ==> keys[..1] == DefaultOrder)
      && (FieldNamed(n1).Some? ==> keys[0] == SortKey(FieldNamed(n1).value, ToUpper(w1) == " DESC"))
      && (FieldNamed(n2).None? ==> |keys| == 1)
      && (FieldNamed(n2).Some? ==> |keys| == 2 && keys[1] == SortKey(FieldNamed(n2).value, ToUpper(w2) == " DESC"))
  {
    NamedClausesOrdering(n1, w1, n2, w2);
  }

  /** How some column names read, whatever their letter case. */
  lemma FieldNameExamples()
    ensures FieldNamed("totalAmount") == Some(TotalAmount)
    ensures FieldNamed("saleDate") == Some(SaleDate)
    ensures FieldNamed("amount") == Some(TotalAmount)
    ensures FieldNamed("price") == None
  {
    assert ToLower("totalAmount") == "totalamount";
    assert ToLower("saleDate") == "saledate";
    assert "saledate"[0] != "customer"[0];
    assert ToLower("amount") == "amount";
    assert ToLower("price") == "price";
    assert "price"[0] != "email"[0];
  }

  /** "totalAmount desc,saleDate asc", the direction words in any letter
      case, sorts by total, largest first, then by date, earliest first. */
  lemma MultiOrderExample(desc: string, asc: string)
    requires ToUpper(desc) == " DESC" && ToUpper(asc) == " ASC"
    ensures OrderingKeys("totalAmount" + desc + [','] + "saleDate" + asc)
         == [SortKey(TotalAmount, true), SortKey(SaleDate, false)]
  {
    FieldNameExamples();
    NamedClausesOrdering("totalAmount", desc, "saleDate", asc);
  }

  /** "price asc,amount desc": the unknown first column yields the default
      order (latest date first) although ascending was asked for, and the
      known second column still breaks ties. */
  lemma UnknownFirstColumnExample(desc: string, asc: string)
    requires ToUpper(desc) == " DESC" && ToUpper(asc) == " ASC"
    ensures OrderingKeys("price" + asc + [','] + "amount" + desc)
         == [SortKey(SaleDate, true), SortKey(TotalAmount, true)]
  {
    FieldNameExamples();
    NamedClausesOrdering("price", asc, "amount", desc);
  }

  /** One column compared with `CompareTo` on its type: dates
      chronologically, amounts numerically, strings ordinally. */
  function CompareField(f: Field, a: SaleRecord, b: SaleRecord): int
  {
    match f
    case SaleDate => CompareDateTime(a.saleDate, b.saleDate)
    case TotalAmount => CompareReal(a.totalAmount, b.totalAmount)
    case CustomerName => CompareOrdinal(a.customerName, b.customerName)
    case BranchName => CompareOrdinal(a.branchName, b.branchName)
    case SaleNumber => CompareOrdinal(a.saleNumber, b.saleNumber)
  }

  /** One key: the column comparison, reversed when descending. */
  function CompareKey(k: SortKey, a: SaleRecord, b: SaleRecord): int
  {
    if k.descending then -CompareField(k.field, a, b) else CompareField(k.field, a, b)
  }

  /** The comparator the keys build: the first key that tells the two sales
      apart decides. */
  function CompareBy(keys: seq<SortKey>, a: SaleRecord, b: SaleRecord): int
  {
    if keys == [] then 0
    else if CompareKey(keys[0], a, b) != 0 then CompareKey(keys[0], a, b)
    else CompareBy(keys[1..], a, b)
  }

  /** The column's value, as a sequence of numbers compared lexicographically. */
  function FieldCodes(f: Field, s: SaleRecord): seq<int>
  {
    match f
    case SaleDate => DateTimeKey(s.saleDate)
    case TotalAmount => []
    case CustomerName => Codes(s.customerName)
    case BranchName => Codes(s.branchName)
    case SaleNumber => Codes(s.saleNumber)
  }

  lemma CompareFieldAntisymmetric(f: Field, a: SaleRecord, b: SaleRecord)
    ensures CompareField(f, a, b) == -CompareField(f, b, a)
  {
    if f != TotalAmount {
      CompareSeqAntisymmetric(FieldCodes(f, a), FieldCodes(f, b));
    }
  }

  lemma CompareFieldTransitive(f: Field, a: SaleRecord, b: SaleRecord, c: SaleRecord)
    requires CompareField(f, a, b) <= 0 && CompareField(f, b, c) <= 0
    ensures CompareField(f, a, c) <= 0
  {
    if f != TotalAmount {
      CompareSeqTransitive(FieldCodes(f, a), FieldCodes(f, b), FieldCodes(f, c));
    }
  }

  /** Two sales that tie on a column compare alike with every third sale. */
  lemma CompareFieldTie(f: Field, a: SaleRecord, b: SaleRecord, c: SaleRecord)
    requires CompareField(f, b, c) == 0
    ensures CompareField(f, a, b) == CompareField(f, a, c)
  {
    if f != TotalAmount {
      CompareSeqZeroIff(FieldCodes(f, b), FieldCodes(f, c));
    }
  }

  lemma CompareFieldReflexive(f: Field, a: SaleRecord)
    ensures CompareField(f, a, a) == 0
  {
    if f != TotalAmount {
      CompareSeqZeroIff(FieldCodes(f, a), FieldCodes(f, a));
    }
  }

  /** The two sales hold the same value in the column. */
  predicate SameValue(f: Field, a: SaleRecord, b: SaleRecord)
  {
    match f
    case SaleDate => a.saleDate == b.saleDate
    case TotalAmount => a.totalAmount == b.totalAmount
    case CustomerName => a.customerName == b.customerName
    case BranchName => a.branchName == b.branchName
    case SaleNumber => a.saleNumber == b.saleNumber
  }

  /** A column comparison answers -1, 0 or 1, and 0 exactly when the two
      sales hold the same value in that column. */
  lemma CompareFieldZeroIff(f: Field, a: SaleRecord, b: SaleRecord)
    ensures -1 <= CompareField(f, a, b) <= 1
    ensures CompareField(f, a, b) == 0 <==> SameValue(f, a, b)
  {
    match f
    case SaleDate =>
      CompareDateTimeZeroIff(a.saleDate, b.saleDate);
      CompareSeqRange(DateTimeKey(a.saleDate), DateTimeKey(b.saleDate));
    case TotalAmount =>
    case CustomerName =>
      CompareOrdinalZeroIff(a.customerName, b.customerName);
      CompareSeqRange(Codes(a.customerName), Codes(b.customerName));
    case BranchName =>
      CompareOrdinalZeroIff(a.branchName, b.branchName);
      CompareSeqRange(Codes(a.branchName), Codes(b.branchName));
    case SaleNumber =>
      CompareOrdinalZeroIff(a.saleNumber, b.saleNumber);
      CompareSeqRange(Codes(a.saleNumber), Codes(b.saleNumber));
  }

  /** The keys' comparison answers -1, 0 or 1, and 0 exactly when the two
      sales hold the same value in every key's column. */
  lemma {:induction false} CompareByZeroIff(keys: seq<SortKey>, a: SaleRecord, b: SaleRecord)
    ensures -1 <= CompareBy(keys, a, b) <= 1
    ensures CompareBy(keys, a, b) == 0 <==> forall i | 0 <= i < |keys| :: SameValue(keys[i].field, a, b)
  {
    if keys != [] {
      CompareFieldZeroIff(keys[0].field, a, b);
      CompareByZeroIff(keys[1..], a, b);
      assert forall i | 1 <= i < |keys| :: keys[i] == keys[1..][i - 1];
    }
  }

  /** Swapping the sales flips the sign of the comparison. */
  lemma {:induction false} CompareByAntisymmetric(keys: seq<SortKey>, a: SaleRecord, b: SaleRecord)
    ensures CompareBy(keys, a, b) == -CompareBy(keys, b, a)
  {
    if keys != [] {
      CompareFieldAntisymmetric(keys[0].field, a, b);
      CompareByAntisymmetric(keys[1..], a, b);
    }
  }

  /** Every sale ties with itself. */
  lemma {:induction false} CompareByReflexive(keys: seq<SortKey>, a: SaleRecord)
    ensures CompareBy(keys, a, a) == 0
  {
    if keys != [] {
      CompareFieldReflexive(keys[0].field, a);
      CompareByReflexive(keys[1..], a);
    }
  }

  /** "Sorts no later than" is transitive, so the keys define a total
      preorder on sales. */
  lemma {:induction false} CompareByTransitive(keys: seq<SortKey>, a: SaleRecord, b: SaleRecord, c: SaleRecord)
    requires CompareBy(keys, a, b) <= 0 && CompareBy(keys, b, c) <= 0
    ensures CompareBy(keys, a, c) <= 0
  {
    if keys != [] {
      var f := keys[0].field;
      var ab, bc, ac := CompareField(f, a, b), CompareField(f, b, c), CompareField(f, a, c);
      if bc == 0 {
        CompareFieldTie(f, a, b, c);
        if ab == 0 {
          CompareByTransitive(keys[1..], a, b, c);
        }
      } else if ab == 0 {
        CompareFieldAntisymmetric(f, a, b);
        CompareFieldTie(f, c, b, a);
        CompareFieldAntisymmetric(f, c, a);
        CompareFieldAntisymmetric(f, c, b);
      } else {
        CompareFieldAntisymmetric(f, a, b);
        CompareFieldAntisymmetric(f, b, c);
        CompareFieldAntisymmetric(f, a, c);
        if keys[0].descending {
          CompareFieldTransitive(f, c, b, a);
        } else {
          CompareFieldTransitive(f, a, b, c);
        }
        if ac == 0 {
          CompareFieldTie(f, b, a, c);
        }
      }
    }
  }

  /** Adjacent sales respect the comparator. The database's sort is not
      promised to be stable, so nothing is said about ties. */
  predicate Sorted(keys: seq<SortKey>, s: seq<SaleRecord>)
  {
    forall i | 0 <= i < |s| - 1 :: CompareBy(keys, s[i], s[i + 1]) <= 0
  }

  /** `ordered` is `s` rearranged into an order the keys accept. */
  predicate IsOrdering(keys: seq<SortKey>, s: seq<SaleRecord>, ordered: seq<SaleRecord>)
  {
    Sorted(keys, ordered) && multiset(ordered) == multiset(s)
  }

  function Insert(keys: seq<SortKey>, x: SaleRecord, s: seq<SaleRecord>): (r: seq<SaleRecord>)
    ensures multiset(r) == multiset(s) + multiset{x}
    ensures r != [] && (r[0] == x || (s != [] && r[0] == s[0]))
  {
    if s == [] then [x]
    else if CompareBy(keys, x, s[0]) <= 0 then [x] + s
    else
      assert s == [s[0]] + s[1..];
      [s[0]] + Insert(keys, x, s[1..])
  }

  lemma {:induction false} InsertSorted(keys: seq<SortKey>, x: SaleRecord, s: seq<SaleRecord>)
    requires Sorted(keys, s)
    ensures Sorted(keys, Insert(keys, x, s))
  {
    if s != [] && CompareBy(keys, x, s[0]) > 0 {
      InsertSorted(keys, x, s[1..]);
      CompareByAntisymmetric(keys, x, s[0]);
      var r := Insert(keys, x, s);
      assert r[1..] == Insert(keys, x, s[1..]);
    }
  }

  /** A witness that every list of sales can be put in the keys' order:
      insertion sort. */
  function SortBy(keys: seq<SortKey>, s: seq<SaleRecord>): (r: seq<SaleRecord>)
    ensures IsOrdering(keys, s, r)
  {
    if s == [] then []
    else
      var rest := SortBy(keys, s[1..]);
      InsertSorted(keys, s[0], rest);
      assert s == [s[0]] + s[1..];
      Insert(keys, s[0], rest)
  }

  /** The first element of an ordered list sorts no later than any other. */
  lemma {:induction false} SortedFirstIsLeast(keys: seq<SortKey>, s: seq<SaleRecord>, j: nat)
    requires Sorted(keys, s) && j < |s|
    ensures CompareBy(keys, s[0], s[j]) <= 0
  {
    if j == 0 {
      CompareByReflexive(keys, s[0]);
    } else {
      SortedFirstIsLeast(keys, s, j - 1);
      CompareByTransitive(keys, s[0], s[j - 1], s[j]);
    }
  }

  /** In an ordered list every earlier sale sorts no later than every later one. */
  lemma SortedPairs(keys: seq<SortKey>, s: seq<SaleRecord>, i: nat, j: nat)
    requires Sorted(keys, s) && i <= j < |s|
    ensures CompareBy(keys, s[i], s[j]) <= 0
  {
    assert Sorted(keys, s[i..]);
    SortedFirstIsLeast(keys, s[i..], j - i);
  }
}
