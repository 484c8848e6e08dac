/**
 * The two immutable pagination values of the domain model: Pageable, the request for one page, and
 * PagedResult<T>, one page of data with the metadata derived from the total element count.
 */
module Pagination {
  import opened Wrappers
  import opened JavaInts
  import opened Errors

  // ---------------------------------------------------------------------------------------------
  // Pageable (domain/model/Pageable.java)
  // ---------------------------------------------------------------------------------------------

  /** A page index and a page size, both Java ints. */
  datatype Pageable = Pageable(page: Int32, size: Int32)

  /** What Pageable.of accepts: a non-negative page and a positive size. */
  predicate Accepted(p: Pageable)
  {
    p.page >= 0 && p.size > 0
  }

  /** Pageable.of: the page is checked first, then the size; each rejection is an IllegalArgumentException. */
  function Of(page: Int32, size: Int32): (r: Result<Pageable, Error>)
    ensures r.Success? <==> page >= 0 && size > 0
    ensures r.Success? ==> r.value.page == page && r.value.size == size && Accepted(r.value)
    ensures page < 0 ==> r == Failure(IllegalArgument("Page number cannot be negative"))
    ensures page >= 0 && size <= 0 ==> r == Failure(IllegalArgument("Page size must be greater than 0"))
  {
    if page < 0 then Failure(IllegalArgument("Page number cannot be negative"))
    else if size <= 0 then Failure(IllegalArgument("Page size must be greater than 0"))
    else Success(Pageable(page, size))
  }

  /** Every accepted pageable is what Pageable.of returns for its own page and size. */
  lemma OfRecoversAccepted(p: Pageable)
    requires Accepted(p)
    ensures Of(p.page, p.size) == Success(p)
  {
  }

  /** Pageable.unpaged(): page 0 and the sentinel size Integer.MAX_VALUE. */
  function Unpaged(): (p: Pageable)
    ensures !IsPaged(p) && Offset(p) == 0 && Accepted(p)
  {
    Pageable(0, INT_MAX)
  }

  /** Pageable.isPaged: the size is not the sentinel. */
  predicate IsPaged(p: Pageable)
  {
    p.size != INT_MAX
  }

  /** Pageable.getOffset: page * size in int arithmetic, so it wraps around on overflow. */
  function Offset(p: Pageable): (r: Int32)
    ensures INT_MIN <= p.page * p.size <= INT_MAX ==> r == p.page * p.size
  {
    Wrap32(p.page * p.size)
  }

  /** isPaged looks only at the size: Pageable.of(p, Integer.MAX_VALUE) also reports unpaged. */
  lemma OfMaxSizeIsUnpaged(page: Int32)
    requires page >= 0
    ensures Of(page, INT_MAX).Success? && !IsPaged(Of(page, INT_MAX).value)
  {
  }

  /** An accepted pageable whose offset wraps to a negative int. */
  lemma OffsetCanWrap()
    ensures Of(2, 0x4000_0000).Success? && Offset(Of(2, 0x4000_0000).value) == INT_MIN
  {
  }

  // ---------------------------------------------------------------------------------------------
  // PagedResult<T> (domain/model/PagedResult.java)
  // ---------------------------------------------------------------------------------------------

  /** One page of data; totalPages is derived by the constructors and never changes afterwards. */
  datatype PagedResult<T> = PagedResult(data: seq<T>, totalElements: Int64, page: Int32, size: Int32, totalPages: Int64)

  /**
   * ceil(t / s) for a positive s: the least number of s-sized pages that hold t elements.
   * (The source divides doubles and rounds up; that is exact for totals below 2^53.)
   */
  function CeilDiv(t: int, s: int): (q: int)
    requires s > 0
    ensures s * (q - 1) < t <= s * q
    ensures t >= 0 ==> 0 <= q <= t
    ensures t < 0 ==> t <= q <= 0
  {
    CeilDivBounds(t, s);
    (t + s - 1) / s
  }

  /** Rounding t + s - 1 down to a multiple of s rounds t up. */
  lemma CeilDivBounds(t: int, s: int)
    requires s > 0
    ensures var q := (t + s - 1) / s;
      && s * (q - 1) < t <= s * q
      && (t >= 0 ==> 0 <= q <= t)
      && (t < 0 ==> t <= q <= 0)
  {
    QuotientBounds(t, s, (t + s - 1) / s, (t + s - 1) % s);
  }

  /** The same bounds, for any quotient q and remainder m of t + s - 1 by s. */
  lemma QuotientBounds(t: int, s: int, q: int, m: int)
    requires s > 0 && t + s - 1 == s * q + m && 0 <= m < s
    ensures s * (q - 1) < t <= s * q
    ensures t >= 0 ==> 0 <= q <= t
    ensures t < 0 ==> t <= q <= 0
  {
    var sq := s * q;
    assert s * (q - 1) == sq - s;
    var a := (s - 1) * (q - 1);
    var b := (s - 1) * q;
    MulSign(s - 1, q - 1);
    MulSign(s - 1, q);
    assert a == sq - s - q + 1;
    assert b == sq - q;
  }

  /** The sign of a product whose first factor is non-negative. */
  lemma MulSign(a: int, b: int)
    requires a >= 0
    ensures b >= 0 ==> a * b >= 0
    ensures b <= 0 ==> a * b <= 0
  {
  }

  /**
   * The 4-argument constructor (also the JSON creator): stores its arguments and derives
   * totalPages = ceil(totalElements / size) when size > 0, else 0.
   */
  function NewPagedResult<T>(data: seq<T>, totalElements: Int64, page: Int32, size: Int32): (r: PagedResult<T>)
    ensures r.data == data && r.totalElements == totalElements && r.page == page && r.size == size
    ensures size > 0 ==> size * (r.totalPages - 1) < totalElements <= size * r.totalPages
    ensures size <= 0 ==> r.totalPages == 0
  {
    PagedResult(data, totalElements, page, size, if size > 0 then CeilDiv(totalElements, size) else 0)
  }

  /**
   * The constructor for unpaginated results: every element on page 0, size = |data|, and
   * totalPages = 1 even when data is empty. (A Java list holds at most Integer.MAX_VALUE elements.)
   */
  function NewUnpagedResult<T>(data: seq<T>): (r: PagedResult<T>)
    requires |data| <= INT_MAX
    ensures r.data == data && r.totalElements == |data| && r.page == 0 && r.size == |data|
    ensures r.totalPages == 1 && !HasNext(r) && !HasPrevious(r)
  {
    PagedResult(data, |data|, 0, |data|, 1)
  }

  /** hasNext: page < totalPages - 1, the subtraction in long arithmetic. */
  predicate HasNext<T>(r: PagedResult<T>)
  {
    r.page < Wrap64(r.totalPages - 1)
  }

  /** hasPrevious: page > 0. */
  predicate HasPrevious<T>(r: PagedResult<T>)
  {
    r.page > 0
  }

  /**
   * For a paginated result over a real count, there is a next page exactly when some element
   * lies beyond the current page.
   */
  lemma HasNextIffElementsRemain<T>(data: seq<T>, totalElements: Int64, page: Int32, size: Int32)
    requires size > 0 && totalElements >= 0 && page >= 0
    ensures HasNext(NewPagedResult(data, totalElements, page, size)) <==> (page + 1) * size < totalElements
  {
    var r := NewPagedResult(data, totalElements, page, size);
    var n := r.totalPages;
    assert 0 <= n <= totalElements;
    assert Wrap64(n - 1) == n - 1;
    if page + 1 < n {
      assert (page + 1) * size <= (n - 1) * size;
    } else {
      assert n * size <= (page + 1) * size;
    }
  }

  /** The worked examples: 20 of 20 is one page; 21 elements in pages of 20 is two pages. */
  lemma PageCountExamples(data: seq<int>)
    ensures var r := NewPagedResult(data, 20, 0, 20); r.totalPages == 1 && !HasNext(r) && !HasPrevious(r)
    ensures var r := NewPagedResult(data, 21, 0, 20); r.totalPages == 2 && HasNext(r) && !HasPrevious(r)
    ensures var r := NewPagedResult(data, 21, 1, 20); r.totalPages == 2 && !HasNext(r) && HasPrevious(r)
  {
  }
}
