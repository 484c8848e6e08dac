/**
 * PagedResponse<T>, the JSON envelope the REST layer returns: the page arguments, the total count,
 * and totalPages/hasNext/hasPrevious derived once by the constructor. The Builder collects the four
 * constructor arguments; the setters assign one field each and recompute nothing.
 */
module RestDto {
  import opened Wrappers
  import opened JavaInts
  import opened Pagination

  /** The envelope; data is None when the list reference is null. */
  datatype PagedResponse<T> = PagedResponse(
    data: Option<seq<T>>,
    page: Int32,
    size: Int32,
    totalElements: Int64,
    totalPages: Int32,
    hasNext: bool,
    hasPrevious: bool)

  /**
   * calculateTotalPages: 0 for size 0, otherwise the (int) cast of ceil(totalElements / size)
   * (a negative size divides too, and the cast saturates).
   */
  function CalculateTotalPages(totalElements: Int64, size: Int32): (n: Int32)
    ensures size == 0 ==> n == 0
    ensures size > 0 && 0 <= totalElements <= INT_MAX ==>
      0 <= n <= totalElements && size * (n - 1) < totalElements <= size * n
  {
    if size == 0 then 0
    else if size > 0 then SaturateInt(CeilDiv(totalElements, size))
    else SaturateInt(CeilDiv(-(totalElements as int), -(size as int)))
  }

  /** The 4-argument constructor: stores its arguments and derives the page metadata from them. */
  function NewPagedResponse<T>(data: Option<seq<T>>, page: Int32, size: Int32, totalElements: Int64): (r: PagedResponse<T>)
    ensures r.data == data && r.page == page && r.size == size && r.totalElements == totalElements
    ensures r.totalPages == CalculateTotalPages(totalElements, size)
    ensures r.totalPages > INT_MIN ==> (r.hasNext <==> page < r.totalPages - 1)
    ensures r.hasPrevious <==> page > 0
  {
    var totalPages := CalculateTotalPages(totalElements, size);
    PagedResponse(data, page, size, totalElements, totalPages, page < Wrap32(totalPages - 1), page > 0)
  }

  /** A response whose derived fields are the ones its own page, size and totalElements give. */
  predicate DerivedFieldsAgree<T>(r: PagedResponse<T>)
  {
    && r.totalPages == CalculateTotalPages(r.totalElements, r.size)
    && r.hasNext == (r.page < Wrap32(r.totalPages - 1))
    && r.hasPrevious == (r.page > 0)
  }

  /** PagedResponse.Builder: the four collected arguments; unset ones stay null or 0. */
  datatype Builder<T> = Builder(data: Option<seq<T>>, page: Int32, size: Int32, totalElements: Int64)

  /** PagedResponse.builder(). */
  function NewBuilder<T>(): (b: Builder<T>)
    ensures b.data.None? && b.page == 0 && b.size == 0 && b.totalElements == 0
  {
    Builder(None, 0, 0, 0)
  }

  /** Builder.build(): the 4-argument constructor applied to the collected fields. */
  function Build<T>(b: Builder<T>): (r: PagedResponse<T>)
    ensures DerivedFieldsAgree(r)
    ensures r.data == b.data && r.page == b.page && r.size == b.size && r.totalElements == b.totalElements
  {
    NewPagedResponse(b.data, b.page, b.size, b.totalElements)
  }

  /** Building with nothing set gives a null list, zero counts and no neighbouring pages. */
  lemma EmptyBuild<T>()
    ensures var r := Build(NewBuilder<T>());
      r.data.None? && r.totalPages == 0 && !r.hasNext && !r.hasPrevious
  {
  }

  /**
   * For a paginated result with a count in int range, the envelope repeats the domain object's
   * arithmetic: the same totalPages, hasNext and hasPrevious.
   */
  lemma ResponseAgreesWithResult<T, U>(result: PagedResult<T>, items: seq<U>)
    requires result == NewPagedResult(result.data, result.totalElements, result.page, result.size)
    requires result.size > 0 && 0 <= result.totalElements <= INT_MAX
    ensures var r := NewPagedResponse(Some(items), result.page, result.size, result.totalElements);
      r.totalPages == result.totalPages && r.hasNext == HasNext(result) && r.hasPrevious == HasPrevious(result)
  {
    var n := result.totalPages;
    assert n == CeilDiv(result.totalElements, result.size);
    assert Wrap64(n - 1) == n - 1 && Wrap32(n - 1) == n - 1;
  }

  /**
   * The unpaged domain result always reports one page, but the envelope built from its fields
   * reports none when the data is empty (its size is then 0).
   */
  lemma UnpagedResponsePageCount<T>(data: seq<T>)
    requires |data| <= INT_MAX
    ensures var result := NewUnpagedResult(data);
      var r := NewPagedResponse(Some(data), result.page, result.size, result.totalElements);
      result.totalPages == 1 && r.totalPages == (if |data| == 0 then 0 else 1) && !r.hasNext
  {
    var result := NewUnpagedResult(data);
    if |data| > 0 {
      assert CeilDiv(|data|, |data|) == 1;
    }
  }

  /**
   * The setters recompute nothing: setSize on a consistent response leaves totalPages describing
   * the old size.
   */
  lemma SetSizeLeavesTotalPagesStale()
    ensures var r := NewPagedResponse<int>(Some([]), 0, 20, 21);
      DerivedFieldsAgree(r) && r.totalPages == 2 &&
      var s := r.(size := 10);
      s.totalPages == 2 && CalculateTotalPages(s.totalElements, s.size) == 3 && !DerivedFieldsAgree(s)
  {
    var r := NewPagedResponse<int>(Some([]), 0, 20, 21);
    assert CeilDiv(21, 20) == 2;
    assert CeilDiv(21, 10) == 3;
  }
}
