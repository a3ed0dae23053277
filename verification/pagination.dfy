/** The page clamp, skip/limit and sort rules shared by the listing queries
    (models/shopping/shopping_repository.go, models/jobs/job_repository.go,
    models/jobs/job_repo.go). Page numbers are Go 64-bit integers. */
module Pagination {
  import opened Numbers
  import opened Query

  /** The clamp as the code writes it: `if (page - 1) < 0 { page = 1 }`, where
      `page - 1` is 64-bit arithmetic and wraps at the smallest integer. */
  function ClampPageAsWritten(page: int64): int64 {
    if Wrap64(page - 1) < 0 then 1 else page
  }

  /** The wrap-around lets the smallest page through unclamped. */
  lemma ClampPageAsWrittenMissesMinInt64()
    ensures ClampPageAsWritten(MinInt64) == MinInt64
    ensures ClampPageAsWritten(MinInt64) < 1
  {
    assert Wrap64(MinInt64 - 1) == MaxInt64;
  }

  /** The evidently intended clamp: every page below 1 becomes 1. */
  function ClampPage(page: int64): (r: int64)
    ensures r >= 1
    ensures r == page || r == 1
    ensures page >= 1 ==> r == page
  {
    if page < 1 then 1 else page
  }

  /** The two clamps differ only at the smallest 64-bit integer. */
  lemma ClampPageAgrees(page: int64)
    ensures ClampPageAsWritten(page) == ClampPage(page) <==> page != MinInt64
  {
    if page == MinInt64 {
      ClampPageAsWrittenMissesMinInt64();
    }
  }

  /** `skip := (page - 1) * perPage` in 64-bit arithmetic. */
  function Skip(page: int64, pageSize: int64): (r: int64)
    ensures MinInt64 <= (page - 1) * pageSize <= MaxInt64 ==> r == (page - 1) * pageSize
  {
    Wrap64(Wrap64(page - 1) * pageSize)
  }

  /** Consecutive pages tile the result list: page 1 starts at 0 and each
      next page starts where the previous one's `pageSize` documents end. */
  lemma SkipTiles(page: int64, pageSize: int64)
    requires 1 <= page < MaxInt64 && 0 <= pageSize
    requires page * pageSize <= MaxInt64
    ensures Skip(1, pageSize) == 0
    ensures Skip(page + 1, pageSize) == Skip(page, pageSize) + pageSize
  {
    assert 0 <= (page - 1) * pageSize <= page * pageSize;
  }

  /** An empty sort field means `created_at`. */
  function SortField(sort: string): (r: string)
    ensures r != ""
    ensures sort == "" ==> r == "created_at"
    ensures sort != "" ==> r == sort
  {
    if sort == "" then "created_at" else sort
  }

  /** -1 (newest first) unless ascending order is asked for. */
  function Direction(isAscending: bool): (r: int)
    ensures r == 1 || r == -1
    ensures r == 1 <==> isAscending
  {
    if isAscending then 1 else -1
  }

  /** The find options of a listing: sort, skip of the clamped page, limit. */
  function Options(sort: Sort, page: int64, pageSize: int64): FindOptions {
    FindOptions(sort, Skip(ClampPageAsWritten(page), pageSize), pageSize)
  }

  /** The same with the corrected clamp: a page below 1 reads the first page. */
  function OptionsCorrected(sort: Sort, page: int64, pageSize: int64): (r: FindOptions)
    ensures r.sort == sort && r.limit == pageSize
    ensures page < 1 ==> r.skip == 0
    ensures page >= 1 && (page - 1) * pageSize <= MaxInt64 && pageSize >= 0 ==> r.skip == (page - 1) * pageSize
  {
    assert page >= 1 && pageSize >= 0 ==> (page - 1) * pageSize >= 0;
    FindOptions(sort, Skip(ClampPage(page), pageSize), pageSize)
  }
}
