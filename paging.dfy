/** Cutting the full result list into pages of `imagesPerPage` slots
    (CommandFiles/commands/pin.ts, `entry` and the "next" branch of `reply`). */
module Paging {
  import opened Common

  /** The page size the command always uses. */
  const ImagesPerPage: nat := 21

  function Min(a: int, b: int): int {
    if a <= b then a else b
  }

  /** `Math.ceil(n / perPage)`: the fewest pages of `perPage` slots that hold
      `n` results. */
  function TotalPages(n: nat, perPage: nat): (pages: nat)
    requires perPage > 0
    ensures pages * perPage >= n
    ensures pages == 0 || (pages - 1) * perPage < n
    ensures pages == 0 <==> n == 0
  {
    var q := (n + perPage - 1) / perPage;
    var r := (n + perPage - 1) % perPage;
    assert q * perPage + r == n + perPage - 1;
    assert q * perPage == (q - 1) * perPage + perPage;
    q
  }

  /** Index of the first result on page `page` (pages count from 1). */
  function PageStart(page: nat, perPage: nat): nat
    requires page >= 1
  {
    (page - 1) * perPage
  }

  /** `s.slice(start, end)`: both bounds clamped to the length, and empty when
      they cross. */
  function JsSlice<T>(s: seq<T>, start: nat, end: nat): (r: seq<T>)
    ensures |r| == if Min(start, |s|) < Min(end, |s|) then Min(end, |s|) - Min(start, |s|) else 0
    ensures forall i :: 0 <= i < |r| ==> r[i] == s[start + i]
  {
    var b := Min(start, |s|);
    var e := Min(end, |s|);
    if b < e then s[b..e] else []
  }

  /** The candidates of page `page`: the slice `[start, min(start + perPage, n))`
      of the results, each tagged with its index in the full list. */
  function PageItems(urls: seq<Url>, page: nat, perPage: nat): (items: seq<ImageObject>)
    requires page >= 1
    ensures var start := PageStart(page, perPage);
      |items| == if start < |urls| then Min(start + perPage, |urls|) - start else 0
    ensures forall i :: 0 <= i < |items| ==>
      && items[i].originalIndex == PageStart(page, perPage) + i
      && items[i].originalIndex < |urls|
      && items[i].url == urls[items[i].originalIndex]
  {
    var start := PageStart(page, perPage);
    var slice := JsSlice(urls, start, Min(start + perPage, |urls|));
    seq(|slice|, i requires 0 <= i < |slice| => ImageObject(slice[i], start + i))
  }

  /** Every page from 1 to the last holds at least one result. */
  lemma PageNonEmpty(urls: seq<Url>, page: nat, perPage: nat)
    requires perPage > 0 && 1 <= page <= TotalPages(|urls|, perPage)
    ensures |PageItems(urls, page, perPage)| > 0
  {
    assert (page - 1) * perPage <= (TotalPages(|urls|, perPage) - 1) * perPage;
  }

  lemma MulMonotone(a: nat, b: nat, c: nat)
    requires a <= b
    ensures a * c <= b * c
  {
    assert b * c == a * c + (b - a) * c;
  }

  /** Each result index `k` appears on page `k / 21 + 1`, at position
      `k % 21`, and that page exists. */
  lemma EveryIndexOnAPage(urls: seq<Url>, k: nat)
    requires k < |urls|
    ensures var page := k / ImagesPerPage + 1;
      && 1 <= page <= TotalPages(|urls|, ImagesPerPage)
      && k % ImagesPerPage < |PageItems(urls, page, ImagesPerPage)|
      && PageItems(urls, page, ImagesPerPage)[k % ImagesPerPage].originalIndex == k
  {
    var q, r := k / ImagesPerPage, k % ImagesPerPage;
    assert q * ImagesPerPage + r == k && r < ImagesPerPage;
    PageOfIndexExists(|urls|, ImagesPerPage, q, k);
  }

  /** The page holding index `k` (whose start `q * perPage` is at most `k`)
      is no later than the last page. */
  lemma PageOfIndexExists(n: nat, perPage: nat, q: nat, k: nat)
    requires perPage > 0 && k < n && q * perPage <= k
    ensures q + 1 <= TotalPages(n, perPage)
  {
    var total := TotalPages(n, perPage);
    if total <= q {
      MulMonotone(total, q, perPage);
    }
  }

  /** No result index is on two different pages. */
  lemma PagesDisjoint(urls: seq<Url>, perPage: nat, p: nat, q: nat, i: nat, j: nat)
    requires perPage > 0 && 1 <= p && 1 <= q
    requires i < |PageItems(urls, p, perPage)| && j < |PageItems(urls, q, perPage)|
    requires PageItems(urls, p, perPage)[i].originalIndex == PageItems(urls, q, perPage)[j].originalIndex
    ensures p == q && i == j
  {
    var sp, sq := PageStart(p, perPage), PageStart(q, perPage);
    assert sp + i == sq + j;
    assert i < perPage && j < perPage;
    assert sp + perPage == p * perPage && sq + perPage == q * perPage;
    if p < q {
      MulMonotone(p, q - 1, perPage);
    } else if q < p {
      MulMonotone(q, p - 1, perPage);
    }
  }

  /** Scenario: 45 results make three pages of 21, 21 and 3. */
  lemma FortyFiveResults(urls: seq<Url>)
    requires |urls| == 45
    ensures TotalPages(|urls|, ImagesPerPage) == 3
    ensures |PageItems(urls, 1, ImagesPerPage)| == 21
    ensures |PageItems(urls, 2, ImagesPerPage)| == 21
    ensures |PageItems(urls, 3, ImagesPerPage)| == 3
  {
  }
}
