/** The session record attached to each paginated message, and the host's
    reply correlator that binds message ids to records
    (`input.setReply` / `input.delReply`). */
module Session {
  import opened Common
  import opened Paging
  import opened Masonry

  /** The record `setReply` stores (its routing key "pinterest" aside). */
  datatype SessionRecord = SessionRecord(
    id: UserId,
    allImageUrls: seq<Url>,
    query: string,
    imagesPerPage: nat,
    currentPage: nat,
    totalPages: nat,
    displayedMap: seq<nat>)

  /** What every record the command stores satisfies: the fixed page size,
      a non-empty result list, the page count computed from it, a current
      page that exists, and a `displayedMap` that lists, in increasing order,
      result indices on the current page. */
  predicate WellFormed(s: SessionRecord) {
    && s.imagesPerPage == ImagesPerPage
    && |s.allImageUrls| > 0
    && s.totalPages == TotalPages(|s.allImageUrls|, s.imagesPerPage)
    && 1 <= s.currentPage <= s.totalPages
    && StrictlyIncreasing(s.displayedMap)
    && forall k :: 0 <= k < |s.displayedMap| ==>
         && PageStart(s.currentPage, s.imagesPerPage) <= s.displayedMap[k]
         && s.displayedMap[k] < PageStart(s.currentPage, s.imagesPerPage) + s.imagesPerPage
         && s.displayedMap[k] < |s.allImageUrls|
  }

  /** The `displayedMap` of a rendered page lists, in increasing order, only
      indices of that page's results. */
  lemma PageMapInRange(urls: seq<Url>, page: nat, perPage: nat, load: nat -> Option<nat>)
    requires page >= 1 && perPage > 0
    ensures var dm := DisplayedMap(PageItems(urls, page, perPage), load);
      && StrictlyIncreasing(dm)
      && forall k :: 0 <= k < |dm| ==>
           PageStart(page, perPage) <= dm[k] < PageStart(page, perPage) + perPage && dm[k] < |urls|
  {
    var items := PageItems(urls, page, perPage);
    var dm := DisplayedMap(items, load);
    DisplayedMapIncreasing(items, load);
    forall k | 0 <= k < |dm|
      ensures PageStart(page, perPage) <= dm[k] < PageStart(page, perPage) + perPage && dm[k] < |urls|
    {
      assert dm[k] in dm;
      DisplayedMapMembers(items, load, dm[k]);
    }
  }

  /** The record stored for page `page` of a search, as `entry` builds it for
      page 1 and the "next" branch of `reply` for the following pages. */
  function PageSession(id: UserId, urls: seq<Url>, query: string, page: nat, load: nat -> Option<nat>): (s: SessionRecord)
    requires page >= 1
    ensures urls != [] && page <= TotalPages(|urls|, ImagesPerPage) ==> WellFormed(s)
  {
    PageMapInRange(urls, page, ImagesPerPage, load);
    SessionRecord(id, urls, query, ImagesPerPage, page, TotalPages(|urls|, ImagesPerPage),
                  DisplayedMap(PageItems(urls, page, ImagesPerPage), load))
  }

  /** In an increasing sequence of naturals only the head can be zero. */
  lemma OnlyHeadCanBeZero(xs: seq<nat>)
    requires StrictlyIncreasing(xs)
    ensures forall i :: 0 < i < |xs| ==> xs[i] > 0
  {
    forall i | 0 < i < |xs|
      ensures xs[i] > 0
    {
      assert xs[0] < xs[i];
    }
  }

  /** A zero in `displayedMap` (which the selection guard rejects) can only be
      the first entry of page 1: it stands for result index 0. */
  lemma ZeroEntryOnlyFirstOfPageOne(s: SessionRecord, k: nat)
    requires WellFormed(s) && k < |s.displayedMap| && s.displayedMap[k] == 0
    ensures s.currentPage == 1
    ensures k == 0
  {
    var start := PageStart(s.currentPage, s.imagesPerPage);
    assert start <= 0;
    OnlyHeadCanBeZero(s.displayedMap);
  }

  /** The host's reply correlator, reduced to the bindings this command makes. */
  class ReplyCorrelator {
    var bindings: map<MessageId, SessionRecord>

    /** Every bound record is one the command could have stored. */
    ghost predicate Valid()
      reads this
    {
      forall m :: m in bindings ==> WellFormed(bindings[m])
    }

    constructor ()
      ensures bindings == map[] && Valid()
    {
      bindings := map[];
    }

    /** `input.setReply(messageID, record)`. */
    method SetReply(messageID: MessageId, record: SessionRecord)
      modifies this
      ensures bindings == old(bindings)[messageID := record]
    {
      bindings := bindings[messageID := record];
    }

    /** `input.delReply(messageID)`. */
    method DelReply(messageID: MessageId)
      modifies this
      ensures bindings == old(bindings) - {messageID}
    {
      bindings := bindings - {messageID};
    }
  }
}
