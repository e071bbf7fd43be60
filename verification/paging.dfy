/**
 * Page arithmetic shared by the list endpoints (loads/loads.service.ts
 * findShipperLoads, trucks/trucks.service.ts findTrucksByCarrier,
 * shipments/shipments.service.ts findAllPaginated): page and limit default to 1
 * and 10, a page skips `(page - 1) * limit` rows and takes at most `limit`, and
 * the page count is `ceil(total / limit)`. The repository reads `take: 0` as no
 * limit at all, so a limit of 0 shows every row.
 */
module Paging {
  import opened Wrappers

  /** The query's page and limit; `None` is a parameter the request leaves out. */
  datatype PageQuery = PageQuery(page: Option<int>, limit: Option<int>)

  /**
   * A page of rows together with the counters the endpoints return. `totalPages`
   * is `None` where `ceil(total / 0)` is not a finite number, which the JSON
   * response carries as `null`.
   */
  datatype Page<T> = Page(items: seq<T>, total: nat, page: int, limit: int, totalPages: Option<nat>)

  /** Number of rows before the given page. */
  function Skip(page: nat, limit: nat): nat
    requires page >= 1
  {
    (page - 1) * limit
  }

  /** `ceil(total / limit)`: the fewest pages of `limit` rows that hold `total` rows. */
  function TotalPages(total: nat, limit: nat): (n: nat)
    requires limit >= 1
    ensures n * limit >= total
    ensures n == 0 || (n - 1) * limit < total
  {
    var n := (total + limit - 1) / limit;
    assert n * limit + (total + limit - 1) % limit == total + limit - 1;
    n
  }

  /** The rows a page shows: skip, then take at most `limit`, where a limit of 0 takes everything. */
  function Window<T>(rows: seq<T>, page: nat, limit: nat): (w: seq<T>)
    requires page >= 1
    ensures limit > 0 ==> |w| <= limit
    ensures limit == 0 ==> w == rows
    ensures forall i :: 0 <= i < |w| ==> Skip(page, limit) + i < |rows| && w[i] == rows[Skip(page, limit) + i]
  {
    var skip := Skip(page, limit);
    if skip >= |rows| then []
    else if limit == 0 || |rows| < skip + limit then rows[skip..]
    else rows[skip..skip + limit]
  }

  /** The list endpoints' page: defaults applied, then the window and the counters. */
  function Paginate<T>(rows: seq<T>, q: PageQuery): Page<T>
    requires q.page.GetOr(1) >= 1 && q.limit.GetOr(10) >= 0
  {
    PageOf(rows, q.page.GetOr(1), q.limit.GetOr(10))
  }

  /** The page `page` of `rows` with its counters. */
  function PageOf<T>(rows: seq<T>, page: nat, limit: nat): (pg: Page<T>)
    requires page >= 1
    ensures pg.items == Window(rows, page, limit) && pg.total == |rows| && pg.page == page && pg.limit == limit
    ensures limit == 0 ==> pg.totalPages.None?
    ensures limit >= 1 ==> pg.totalPages == Some(TotalPages(|rows|, limit))
  {
    Page(Window(rows, page, limit), |rows|, page, limit, if limit == 0 then None else Some(TotalPages(|rows|, limit)))
  }

  /**
   * A limit of 0 shows every row on whatever page is asked for, and the page
   * count is not a number; any positive limit shows at most that many rows.
   */
  lemma LimitZeroShowsAll<T>(rows: seq<T>, page: nat, limit: nat)
    requires page >= 1
    ensures var pg := Paginate(rows, PageQuery(Some(page), Some(0)));
      pg.items == rows && pg.totalPages.None? && pg.total == |rows|
    ensures limit > 0 ==>
      var pg := Paginate(rows, PageQuery(Some(page), Some(limit)));
      |pg.items| <= limit && pg.totalPages == Some(TotalPages(|rows|, limit))
  {
  }

  /**
   * Every row appears on a page: row `i` is item `i % limit` of page
   * `i / limit + 1`, and that page is within the page count.
   */
  lemma EveryRowOnAPage<T>(rows: seq<T>, limit: nat, i: nat)
    requires limit >= 1 && i < |rows|
    ensures var p := i / limit + 1;
      && p <= TotalPages(|rows|, limit)
      && i % limit < |Window(rows, p, limit)|
      && Window(rows, p, limit)[i % limit] == rows[i]
  {
    var p := i / limit + 1;
    assert i == (i / limit) * limit + i % limit;
    assert Skip(p, limit) == (i / limit) * limit;
    var n := TotalPages(|rows|, limit);
    if p > n {
      MulMono(n, i / limit, limit);
    }
  }

  /** No row appears on two pages, nor twice on one page. */
  lemma PagesDisjoint<T>(rows: seq<T>, limit: nat, p: nat, j: nat, q: nat, k: nat)
    requires limit >= 1 && p >= 1 && q >= 1
    requires j < |Window(rows, p, limit)| && k < |Window(rows, q, limit)|
    requires Skip(p, limit) + j == Skip(q, limit) + k
    ensures p == q && j == k
  {
    assert Skip(p, limit) + limit == p * limit;
    assert Skip(q, limit) + limit == q * limit;
    if p < q {
      MulMono(p, q - 1, limit);
    } else if q < p {
      MulMono(q, p - 1, limit);
    }
  }

  lemma MulMono(a: nat, b: nat, k: nat)
    requires a <= b
    ensures a * k <= b * k
  {
  }

  /** With the defaults, an empty query shows the first ten rows. */
  lemma DefaultPage<T>(rows: seq<T>)
    ensures var pg := Paginate(rows, PageQuery(None, None));
      && pg.page == 1 && pg.limit == 10
      && pg.items == (if |rows| <= 10 then rows else rows[..10])
      && pg.total == |rows|
  {
  }
}
