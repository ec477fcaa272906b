/** The listing queries of the sale repository, over an in-memory sequence
    of sales: the filter loop, the ordering, and `Skip`/`Take` paging, plus
    the count over the same filters. */
module SaleRepository {
  import opened Wrappers
  import opened SystemTypes
  import opened Exceptions
  import opened SaleFilters
  import SaleOrdering
  import opened Sequences

  function Min(a: int, b: int): int
  {
    if a <= b then a else b
  }

  function Max(a: int, b: int): int
  {
    if a <= b then b else a
  }

  /** LINQ-to-objects `Skip`, as the in-memory provider runs it: a count at
      or below zero skips nothing, a count past the end leaves nothing. (A
      database would refuse a negative OFFSET instead.) */
  function Skip<T>(s: seq<T>, n: int): seq<T>
  {
    if n <= 0 then s else if n >= |s| then [] else s[n..]
  }

  /** LINQ `Take`: a count at or below zero takes nothing. */
  function Take<T>(s: seq<T>, n: int): seq<T>
  {
    if n <= 0 then [] else if n >= |s| then s else s[..n]
  }

  /** Where a page starts in the ordered listing. */
  function PageStart<T>(ordered: seq<T>, page: int, size: int): nat
  {
    Min(Max((page - 1) * size, 0), |ordered|)
  }

  /** `.Skip((page - 1) * size).Take(size)` with the skip count computed
      exactly: the page is the run of at most `size` sales that starts at
      position (page - 1) * size (or at the front when that is negative). */
  function Page<T>(ordered: seq<T>, page: int, size: int): (r: seq<T>)
    ensures |r| <= Max(size, 0)
    ensures PageStart(ordered, page, size) + |r| <= |ordered|
    ensures r == ordered[PageStart(ordered, page, size)..PageStart(ordered, page, size) + |r|]
    ensures |r| == Min(Max(size, 0), |ordered| - PageStart(ordered, page, size))
  {
    Take(Skip(ordered, (page - 1) * size), size)
  }

  /** For a positive page number and size, page `page` holds positions
      (page - 1) * size up to page * size - 1, cut at the end of the list. */
  lemma PageSlice<T>(ordered: seq<T>, page: int, size: int)
    requires page >= 1 && size >= 1
    ensures (page - 1) * size <= page * size
    ensures Page(ordered, page, size)
         == ordered[Min((page - 1) * size, |ordered|)..Min(page * size, |ordered|)]
  {
    assert page * size == (page - 1) * size + size;
    assert (page - 1) * size >= 0 by { MulNonNegative(page - 1, size); }
  }

  lemma MulNonNegative(a: int, b: int)
    requires a >= 0 && b >= 0
    ensures a * b >= 0
  {
  }

  /** Pages 1 to `k`, one after the other. */
  function Pages<T>(ordered: seq<T>, k: nat, size: int): seq<T>
  {
    if k == 0 then [] else Pages(ordered, k - 1, size) + Page(ordered, k, size)
  }

  /** Paging neither skips nor repeats a sale: the first `k` pages, read in
      turn, are exactly the first k * size sales of the ordered listing. */
  lemma {:induction false} PagesPrefix<T>(ordered: seq<T>, k: nat, size: int)
    requires size >= 1
    ensures Pages(ordered, k, size) == ordered[..Min(k * size, |ordered|)]
  {
    if k > 0 {
      PagesPrefix(ordered, k - 1, size);
      PageSlice(ordered, k, size);
      var lo, hi := (k - 1) * size, k * size;
      assert 0 <= lo <= hi by {
        MulNonNegative(k - 1, size);
      }
      SliceConcat(ordered, Min(lo, |ordered|), Min(hi, |ordered|));
    }
  }

  /** C# `unchecked` `int` arithmetic: the mathematical value reduced to the
      32-bit two's-complement range. */
  function Wrap32(x: int): (r: Int32)
    ensures (x - r) % 0x1_0000_0000 == 0
    ensures -0x8000_0000 <= x < 0x8000_0000 ==> r == x
  {
    var m := x % 0x1_0000_0000;
    if m >= 0x8000_0000 then m - 0x1_0000_0000 else m
  }

  /** The skip count as `GetAllAsync` computes it, `(page - 1) * size` on
      32-bit `int`. */
  function SkipCountAsWritten(page: Int32, size: Int32): Int32
  {
    Wrap32(Wrap32(page - 1) * size)
  }

  /** The 32-bit skip count differs from the exact product (page - 1) * size
      by a multiple of 2^32, and equals it whenever the product fits in an
      `int`. */
  lemma SkipCountCongruent(page: Int32, size: Int32)
    ensures (SkipCountAsWritten(page, size) - (page - 1) * size) % 0x1_0000_0000 == 0
    ensures -0x8000_0000 <= (page - 1) * size < 0x8000_0000 ==> SkipCountAsWritten(page, size) == (page - 1) * size
  {
    var exact := (page - 1) * size;
    var w := Wrap32(page - 1);
    var r := Wrap32(w * size);
    CongruentScaled(w, page - 1, size);
    CongruentTrans(r, w * size, exact);
    CongruentInRange(r, exact);
  }

  /** Scaling keeps values congruent modulo 2^32. */
  lemma CongruentScaled(x: int, y: int, z: int)
    requires (x - y) % 0x1_0000_0000 == 0
    ensures (x * z - y * z) % 0x1_0000_0000 == 0
  {
    var k := (x - y) / 0x1_0000_0000;
    assert x - y == 0x1_0000_0000 * k;
    assert x * z - y * z == (x - y) * z == 0x1_0000_0000 * (k * z);
  }

  /** Congruence modulo 2^32 is transitive. */
  lemma CongruentTrans(x: int, y: int, z: int)
    requires (x - y) % 0x1_0000_0000 == 0 && (y - z) % 0x1_0000_0000 == 0
    ensures (x - z) % 0x1_0000_0000 == 0
  {
    var k, j := (x - y) / 0x1_0000_0000, (y - z) / 0x1_0000_0000;
    assert x - z == 0x1_0000_0000 * (k + j);
  }

  /** Two congruent values in the `int` range are equal. */
  lemma CongruentInRange(x: int, y: int)
    requires (x - y) % 0x1_0000_0000 == 0
    ensures -0x8000_0000 <= x < 0x8000_0000 && -0x8000_0000 <= y < 0x8000_0000 ==> x == y
  {
    var k := (x - y) / 0x1_0000_0000;
    assert x - y == 0x1_0000_0000 * k;
  }

  /** The page as the repository computes it, with the wrapping skip count. */
  function PageAsWritten<T>(ordered: seq<T>, page: Int32, size: Int32): (r: seq<T>)
    ensures |r| <= Max(size, 0)
    ensures var start := Min(Max(SkipCountAsWritten(page, size), 0), |ordered|);
      start + |r| <= |ordered| && r == ordered[start..start + |r|]
  {
    Take(Skip(ordered, SkipCountAsWritten(page, size)), size)
  }

  /** Whenever (page - 1) * size fits in an `int`, the repository's page is
      the intended one. */
  lemma PageAsWrittenAgrees<T>(ordered: seq<T>, page: Int32, size: Int32)
    requires page >= 1 && size >= 0 && (page - 1) * size < 0x8000_0000
    ensures PageAsWritten(ordered, page, size) == Page(ordered, page, size)
  {
    MulNonNegative(page - 1, size);
  }

  /** The overflow: page 21474838 of size 100 passes the request validator,
      but (page - 1) * size = 2147483700 exceeds `int.MaxValue` and wraps to
      -2147483596. With the in-memory provider the negative skip count skips
      nothing, so the first page comes back instead of the empty page past
      the end; on PostgreSQL the negative OFFSET makes the query fail. */
  lemma SkipCountOverflow<T>(ordered: seq<T>)
    requires |ordered| < 2147483700
    ensures SkipCountAsWritten(21474838, 100) == -2147483596
    ensures PageAsWritten(ordered, 21474838, 100) == PageAsWritten(ordered, 1, 100)
    ensures Page(ordered, 21474838, 100) == []
  {
    assert Wrap32(21474837 * 100) == -2147483596;
  }

  /** The listing `GetAllAsync` may return: the exception of the first
      refused filter entry, or a page of some arrangement of the filtered
      sales in the requested order. The database does not promise an order
      among ties, so any arrangement that respects the keys is allowed. */
  ghost predicate IsListing(sales: seq<SaleRecord>, page: int, size: int, orderBy: string,
                      entries: seq<(string, string)>, p: Parsers,
                      r: Result<seq<SaleRecord>, Exception>)
  {
    match Criteria(entries, p)
    case Failure(e) => r == Failure(e)
    case Success(cs) =>
      && r.Success?
      && exists ordered | SaleOrdering.IsOrdering(SaleOrdering.OrderingKeys(orderBy), Select(sales, cs), ordered)
           :: r.value == Page(ordered, page, size)
  }

  /** `null` filters count as an empty map. */
  function Entries(filters: Option<seq<(string, string)>>): seq<(string, string)>
  {
    if filters.Some? then filters.value else []
  }

  /** `GetAllAsync`: filter, order (the default order for an empty order
      string), then page. */
  method GetAll(sales: seq<SaleRecord>, page: Int32, size: Int32, orderBy: string,
                filters: Option<seq<(string, string)>>, p: Parsers)
    returns (r: Result<seq<SaleRecord>, Exception>)
    ensures IsListing(sales, page, size, orderBy, Entries(filters), p, r)
  {
    var query := ApplyFilters(sales, filters, p);
    if query.Failure? {
      return Failure(query.error);
    }
    var keys := SaleOrdering.OrderFor(orderBy);
    var ordered := SaleOrdering.SortBy(keys, query.value);
    r := Success(Page(ordered, page, size));
  }

  /** `GetTotalCountAsync`: the number of sales that pass the same filters,
      with no ordering and no paging. */
  method GetTotalCount(sales: seq<SaleRecord>, filters: Option<seq<(string, string)>>, p: Parsers)
    returns (r: Result<nat, Exception>)
    ensures Criteria(Entries(filters), p).Failure? ==> r == Failure(Criteria(Entries(filters), p).error)
    ensures Criteria(Entries(filters), p).Success? ==> r == Success(|Select(sales, Criteria(Entries(filters), p).value)|)
  {
    var query := ApplyFilters(sales, filters, p);
    if query.Failure? {
      return Failure(query.error);
    }
    r := Success(|query.value|);
  }

  /** A page of an ordered list is ordered and holds only sales of the list. */
  lemma PageOfSorted(keys: seq<SaleOrdering.SortKey>, ordered: seq<SaleRecord>, page: int, size: int)
    requires SaleOrdering.Sorted(keys, ordered)
    ensures SaleOrdering.Sorted(keys, Page(ordered, page, size))
    ensures forall x | x in Page(ordered, page, size) :: x in ordered
  {
    var r := Page(ordered, page, size);
    var lo := PageStart(ordered, page, size);
    forall i | 0 <= i < |r| - 1
      ensures SaleOrdering.CompareBy(keys, r[i], r[i + 1]) <= 0
    {
      assert r[i] == ordered[lo + i] && r[i + 1] == ordered[lo + i + 1];
    }
  }

  /** What a successful listing holds: at most `size` sales (none for a
      non-positive size), each one of the sales and meeting every filter,
      in the requested order, and never more than the count reports. */
  lemma ListingMeaning(sales: seq<SaleRecord>, page: int, size: int, orderBy: string,
                       entries: seq<(string, string)>, p: Parsers,
                       r: Result<seq<SaleRecord>, Exception>)
    requires IsListing(sales, page, size, orderBy, entries, p, r) && r.Success?
    ensures Criteria(entries, p).Success?
    ensures |r.value| <= Max(size, 0)
    ensures |r.value| <= |Select(sales, Criteria(entries, p).value)|
    ensures SaleOrdering.Sorted(SaleOrdering.OrderingKeys(orderBy), r.value)
    ensures forall x | x in r.value ::
      x in sales && forall c | Produces(entries, p, c) :: Holds(c, x)
  {
    var cs := Criteria(entries, p).value;
    var selected := Select(sales, cs);
    var keys := SaleOrdering.OrderingKeys(orderBy);
    var ordered :| SaleOrdering.IsOrdering(keys, selected, ordered)
                   && r.value == Page(ordered, page, size);
    assert |ordered| == |selected| by {
      assert |multiset(ordered)| == |multiset(selected)|;
    }
    PageOfSorted(keys, ordered, page, size);
    forall x | x in r.value
      ensures x in sales && forall c | Produces(entries, p, c) :: Holds(c, x)
    {
      assert x in multiset(ordered);
      FilteredMeaning(sales, entries, p, x);
    }
  }

  /** With no filter map and an empty order string, a page of all the
      sales, latest sale date first, is a possible listing, and every
      listing is of that form. */
  lemma DefaultListing(sales: seq<SaleRecord>, page: int, size: int, p: Parsers,
                       r: Result<seq<SaleRecord>, Exception>)
    ensures IsListing(sales, page, size, "", Entries(None), p, r) <==>
      && r.Success?
      && exists ordered | SaleOrdering.IsOrdering(SaleOrdering.DefaultOrder, sales, ordered)
           :: r.value == Page(ordered, page, size)
  {
    SelectNone(sales);
    assert SaleOrdering.OrderingKeys("") == SaleOrdering.DefaultOrder;
  }
}
