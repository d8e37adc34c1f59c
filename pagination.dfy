/**
 * Page arithmetic (PaginationParams, PaginatedResponse.create) and the filter
 * records the list endpoints accept, with the ISO-date validator of TaskFilters.
 */
module Pagination {
  import opened Common
  import Text
  import Query

  datatype PaginationParams = PaginationParams(page: int, pageSize: int)

  /** Rows skipped before the requested page. */
  function Offset(p: PaginationParams): (r: int)
    ensures p.page >= 1 && p.pageSize >= 1 ==> r >= 0
  {
    (p.page - 1) * p.pageSize
  }

  /** Rows on one page: a page ends where the next one starts, so pages neither overlap nor leave gaps. */
  function Limit(p: PaginationParams): (r: int)
    ensures Offset(p) + r == Offset(NextPage(p))
    ensures p.pageSize >= 1 ==> r >= 1
  {
    p.pageSize
  }

  function NextPage(p: PaginationParams): PaginationParams
  {
    PaginationParams(p.page + 1, p.pageSize)
  }

  datatype Page<T> = Page(
    items: seq<T>,
    total: int,
    page: int,
    pageSize: int,
    totalPages: int,
    hasNext: bool,
    hasPrev: bool)

  /** Python's (total + page_size - 1) // page_size; // is floor division, which for a positive divisor is Dafny's /. */
  function TotalPages(total: int, pageSize: int): int
    requires pageSize >= 1
  {
    (total + pageSize - 1) / pageSize
  }

  /** PaginatedResponse.create. */
  function Create<T>(items: seq<T>, total: int, page: int, pageSize: int): (r: Page<T>)
    requires pageSize >= 1
    ensures r.items == items && r.total == total && r.page == page && r.pageSize == pageSize
    ensures total >= 1 ==> (r.totalPages - 1) * pageSize < total <= r.totalPages * pageSize
    ensures total == 0 ==> r.totalPages == 0
    ensures r.hasNext <==> page < r.totalPages
    ensures r.hasPrev <==> page > 1
  {
    var totalPages := TotalPages(total, pageSize);
    CeilingDivision(total, pageSize);
    Page(items, total, page, pageSize, totalPages, page < totalPages, page > 1)
  }

  /** total_pages is the ceiling of total / page_size. */
  lemma CeilingDivision(total: int, pageSize: int)
    requires pageSize >= 1
    ensures total >= 1 ==> (TotalPages(total, pageSize) - 1) * pageSize < total <= TotalPages(total, pageSize) * pageSize
    ensures total == 0 ==> TotalPages(total, pageSize) == 0
  {
    var n := total + pageSize - 1;
    var q, r := n / pageSize, n % pageSize;
    assert n == q * pageSize + r && 0 <= r < pageSize;
    assert q * pageSize == total + pageSize - 1 - r;
    assert (q - 1) * pageSize == q * pageSize - pageSize;
    if total == 0 {
      assert 0 <= n < pageSize;
      SmallQuotient(n, pageSize);
    }
  }

  lemma SmallQuotient(n: int, d: int)
    requires 0 <= n < d
    ensures n / d == 0
  {
  }

  lemma MulMonotone(a: int, b: int, c: int)
    requires a <= b && c >= 0
    ensures a * c <= b * c
  {
    assert b * c - a * c == (b - a) * c;
  }

  /** Two consecutive pages together are the double-sized window from the first one's offset. */
  lemma {:induction false} ConsecutivePages<X>(s: seq<X>, p: PaginationParams)
    requires p.page >= 1 && p.pageSize >= 1
    ensures Query.Window(s, Offset(p), Limit(p)) + Query.Window(s, Offset(NextPage(p)), Limit(p))
         == Query.Window(s, Offset(p), 2 * Limit(p))
  {
    var o, l := Offset(p), Limit(p);
    var a, b, w := Query.Window(s, o, l), Query.Window(s, o + l, l), Query.Window(s, o, 2 * l);
    assert |a + b| == |w|;
    forall i | 0 <= i < |w| ensures (a + b)[i] == w[i] {
      if i >= |a| {
        assert |a| == l;
        assert (a + b)[i] == b[i - l] == s[o + l + (i - l)];
      }
    }
  }

  /**
   * has_next is exactly "the next page of the same listing is not empty", when
   * total is the listing's length.
   */
  lemma HasNextIffMoreRows<X, Y>(s: seq<X>, items: seq<Y>, p: PaginationParams)
    requires p.page >= 1 && p.pageSize >= 1
    ensures Create(items, |s|, p.page, p.pageSize).hasNext <==> Query.Window(s, Offset(NextPage(p)), Limit(p)) != []
  {
    var tp := TotalPages(|s|, p.pageSize);
    CeilingDivision(|s|, p.pageSize);
    var next := Offset(NextPage(p));
    assert next == p.page * p.pageSize;
    MulMonotone(0, p.page, p.pageSize);
    if |s| >= 1 {
      if p.page < tp {
        MulMonotone(p.page, tp - 1, p.pageSize);
      } else {
        MulMonotone(tp, p.page, p.pageSize);
      }
    }
  }

  // ----- Filters -----

  datatype TaskFilters = TaskFilters(
    status: Option<string>,
    ownerId: Option<int>,
    titleContains: Option<string>,
    createdAfter: Option<string>,
    createdBefore: Option<string>)

  datatype CommentFilters = CommentFilters(
    taskId: Option<int>,
    userId: Option<int>,
    contentContains: Option<string>)

  /**
   * datetime.fromisoformat(value.replace("Z", "+00:00")): the parser is given
   * and yields the timestamp, or None where Python raises ValueError.
   */
  function ParseIsoDate(fromIsoFormat: string -> Option<int>, value: string): Option<int>
  {
    fromIsoFormat(Text.ReplaceChar(value, 'Z', "+00:00"))
  }

  /** TaskFilters.validate_date: a ValueError for a non-empty value that does not parse. */
  function ValidateDate(fromIsoFormat: string -> Option<int>, value: Option<string>): (r: Result<Option<string>, string>)
    ensures r.Ok? <==> !Truthy(value) || ParseIsoDate(fromIsoFormat, value.value).Some?
    ensures r.Ok? ==> r.value == value
    ensures r.Err? ==> r.error == "Invalid ISO date format"
  {
    if Truthy(value) && ParseIsoDate(fromIsoFormat, value.value).None? then Err("Invalid ISO date format")
    else Ok(value)
  }

  /** Constructing TaskFilters runs the validator on both dates; either failure fails the construction. */
  function MakeTaskFilters(fromIsoFormat: string -> Option<int>, status: Option<string>, ownerId: Option<int>,
                           titleContains: Option<string>, createdAfter: Option<string>,
                           createdBefore: Option<string>): (r: Result<TaskFilters, string>)
    ensures r.Ok? <==> ValidateDate(fromIsoFormat, createdAfter).Ok? && ValidateDate(fromIsoFormat, createdBefore).Ok?
    ensures r.Ok? ==> r.value == TaskFilters(status, ownerId, titleContains, createdAfter, createdBefore)
  {
    match (ValidateDate(fromIsoFormat, createdAfter), ValidateDate(fromIsoFormat, createdBefore))
    case (Ok(after), Ok(before)) => Ok(TaskFilters(status, ownerId, titleContains, after, before))
    case (Err(e), _) => Err(e)
    case (_, Err(e)) => Err(e)
  }
}
