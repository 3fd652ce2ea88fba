/** internal/adapter/repository/helper.go: the page count, and what paging
    through a list with it gives. */
module Paging {
  import opened Decimal
  import opened Wrappers
  import opened Query

  const TWO_TO_THE_64: int := 0x1_0000_0000_0000_0000

  /** Sums wrap around in 64 bits. */
  function Wrap(n: int): int {
    (n + MAX_INT64 + 1) % TWO_TO_THE_64 - MAX_INT64 - 1
  }

  /** Division that truncates toward zero. */
  function Quotient(a: int, b: int): int
    requires b > 0
  {
    if a >= 0 then a / b else -((-a) / b)
  }

  /** calcTotalPages */
  function TotalPages(total: int, limit: int): int {
    if total <= 0 || limit <= 0 then 1 else Quotient(Wrap(total + limit - 1), limit)
  }

  /** The rows that LIMIT and OFFSET leave. */
  function Slice<T>(rows: seq<T>, limit: nat, offset: nat): seq<T> {
    if offset >= |rows| then [] else if offset + limit >= |rows| then rows[offset..] else rows[offset..offset + limit]
  }

  function Page<T>(rows: seq<T>, page: nat, limit: nat): seq<T>
    requires page >= 1
  {
    var p := Some(Pagination(Some(page), Some(limit), None));
    assert Offset(p) == (page - 1) * limit;
    Slice(rows, Limit(p), Offset(p))
  }

  function FirstPages<T>(rows: seq<T>, n: nat, limit: nat): seq<T> {
    if n == 0 then [] else FirstPages(rows, n - 1, limit) + Page(rows, n, limit)
  }

  lemma QuotientBounds(a: nat, b: nat)
    requires b > 0
    ensures a / b * b <= a < (a / b + 1) * b
  {
    assert a == a / b * b + a % b;
    assert (a / b + 1) * b == a / b * b + b;
  }

  /** Exactly when the sum does not overflow, the result is the least number
      of pages of limit rows that hold the total. */
  lemma TotalPagesIsCeilingIff(total: int, limit: int)
    requires 1 <= total <= MAX_INT64 && 1 <= limit <= MAX_INT64
    ensures var pages := TotalPages(total, limit);
      (pages >= 1 && (pages - 1) * limit < total <= pages * limit) <==> total <= MAX_INT64 - limit + 1
  {
    var sum := total + limit - 1;
    if total <= MAX_INT64 - limit + 1 {
      assert Wrap(sum) == sum;
      QuotientBounds(sum, limit);
      var pages := sum / limit;
      assert (pages - 1) * limit == pages * limit - limit;
      assert (pages + 1) * limit == pages * limit + limit;
      assert 1 * limit < (pages + 1) * limit;
    } else {
      assert Wrap(sum) == sum - TWO_TO_THE_64 < 0;
      assert (-Wrap(sum)) / limit >= 0;
    }
  }

  /** Nothing to show, or a limit that makes no pages, is one page. */
  lemma NoRowsOnePage(total: int, limit: int)
    requires total <= 0 || limit <= 0
    ensures TotalPages(total, limit) == 1
  {
  }

  function Upto<T>(rows: seq<T>, n: nat): seq<T> {
    if n <= |rows| then rows[..n] else rows
  }

  lemma SliceNext<T>(rows: seq<T>, limit: nat, offset: nat)
    ensures Upto(rows, offset) + Slice(rows, limit, offset) == Upto(rows, offset + limit)
  {
  }

  lemma PageIsSlice<T>(rows: seq<T>, n: nat, limit: nat)
    requires n >= 1
    ensures 0 <= (n - 1) * limit && Page(rows, n, limit) == Slice(rows, limit, (n - 1) * limit)
    ensures (n - 1) * limit + limit == n * limit
  {
  }

  lemma {:induction false} FirstPagesAreAPrefix<T>(rows: seq<T>, n: nat, limit: nat)
    ensures 0 <= n * limit && FirstPages(rows, n, limit) == Upto(rows, n * limit)
  {
    if n == 0 {
    } else {
      FirstPagesAreAPrefix(rows, n - 1, limit);
      PageIsSlice(rows, n, limit);
      SliceNext(rows, limit, (n - 1) * limit);
    }
  }

  lemma UptoIsAll<T>(rows: seq<T>, n: nat)
    ensures Upto(rows, n) == rows <==> n >= |rows|
  {
    assert n < |rows| ==> |Upto(rows, n)| == n;
  }

  lemma MulMonotone(a: int, b: int, c: nat)
    requires a <= b
    ensures a * c <= b * c
  {
  }

  /** n pages hold the total from the page count on. */
  lemma EnoughPages(total: int, n: nat, limit: nat)
    requires limit >= 1 && n >= 1 && 0 <= total <= MAX_INT64 - limit + 1
    ensures n * limit >= total <==> n >= TotalPages(total, limit)
    ensures n <= TotalPages(total, limit) ==> 0 <= (n - 1) * limit <= MAX_INT64
  {
    var pages := TotalPages(total, limit);
    if total == 0 {
      MulMonotone(0, n, limit);
    } else {
      TotalPagesIsCeilingIff(total, limit);
      MulMonotone(0, n - 1, limit);
      if n >= pages {
        MulMonotone(pages, n, limit);
      } else {
        MulMonotone(n, pages - 1, limit);
      }
      if n <= pages {
        MulMonotone(n - 1, pages - 1, limit);
      }
    }
  }

  /** Pages 1 to n give the list once and in order exactly from
      n == TotalPages on; no page up to there overflows its offset. */
  lemma PagesPartition<T>(rows: seq<T>, n: nat, limit: nat)
    requires limit >= 1 && n >= 1 && |rows| <= MAX_INT64 - limit + 1
    ensures FirstPages(rows, n, limit) == rows <==> n >= TotalPages(|rows|, limit)
    ensures n <= TotalPages(|rows|, limit) ==> 0 <= (n - 1) * limit <= MAX_INT64
  {
    FirstPagesAreAPrefix(rows, n, limit);
    UptoIsAll(rows, n * limit);
    EnoughPages(|rows|, n, limit);
  }
}
