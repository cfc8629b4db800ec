/** `normalizePagination`: a limit in [1, 100] and an offset of at least 0. */
module Pagination {
  import opened Wrappers

  const DefaultLimit := 20
  const MaxLimit := 100

  datatype Page = Page(limit: int, offset: int)

  /** A `Partial<Pagination>`: an absent field takes its default. */
  datatype PartialPage = PartialPage(limit: Option<int>, offset: Option<int>)

  function Normalize(p: PartialPage): (r: Page)
    ensures 1 <= r.limit <= MaxLimit && r.offset >= 0
    ensures p.limit.None? ==> r.limit == DefaultLimit
    ensures p.offset.None? ==> r.offset == 0
    ensures p.limit.Some? && p.limit.value > 0 ==> r.limit == if p.limit.value < MaxLimit then p.limit.value else MaxLimit
    ensures p.limit.Some? && p.limit.value <= 0 ==> r.limit == DefaultLimit
    ensures p.offset.Some? ==> r.offset == if p.offset.value >= 0 then p.offset.value else 0
  {
    var limit := if p.limit.Some? then p.limit.value else DefaultLimit;
    var offset := if p.offset.Some? then p.offset.value else 0;
    Page(if limit > 0 then (if limit < MaxLimit then limit else MaxLimit) else DefaultLimit,
         if offset >= 0 then offset else 0)
  }

  /** A normalised page is normalised already: normalising twice changes nothing. */
  lemma NormalizeIdempotent(p: PartialPage)
    ensures var r := Normalize(p);
      Normalize(PartialPage(Some(r.limit), Some(r.offset))) == r
  {
  }

  /** A page that already satisfies the bounds is kept as it is. */
  lemma NormalizeKeepsValid(limit: int, offset: int)
    requires 1 <= limit <= MaxLimit && offset >= 0
    ensures Normalize(PartialPage(Some(limit), Some(offset))) == Page(limit, offset)
  {
  }
}
