/** The command's entry point (`entry` in CommandFiles/commands/pin.ts):
    parse the arguments, search, then either send the first images directly
    or render page 1 of the canvas and bind a session to that message. */
module Entry {
  import opened Common
  import opened Text
  import opened CommandArgs
  import opened Paging
  import opened Masonry
  import opened Session
  import opened DirectSend

  /** What the search request gave back. `NoResultList` is a response whose
      `results` field is missing or null; `RequestFailed` is a request that
      threw. */
  datatype SearchResponse = Results(urls: seq<Url>) | NoResultList | RequestFailed

  /** `data?.results || []`. */
  function ResultUrls(response: SearchResponse): (urls: seq<Url>)
    requires !response.RequestFailed?
    ensures response.NoResultList? ==> urls == []
    ensures response.Results? ==> urls == response.urls
  {
    match response
    case Results(urls) => urls
    case NoResultList => []
  }

  /** The three ways a successful search is answered. */
  datatype Mode = NothingFound | DirectSend(urls: seq<Url>) | CanvasPages

  /** No results: say so. A non-zero count: send the first `count` results
      (all of them if there are fewer). No count, or a count of zero (which
      JavaScript reads as false): paginate on a canvas. */
  function ChooseMode(count: Option<nat>, results: seq<Url>): (m: Mode)
    ensures m.NothingFound? <==> results == []
    ensures m.DirectSend? <==> results != [] && count.Some? && count.value > 0
    ensures m.DirectSend? ==>
      |m.urls| == Min(count.value, |results|) && m.urls == results[..|m.urls|]
  {
    if results == [] then NothingFound
    else if count.Some? && count.value != 0 then DirectSend(results[..Min(count.value, |results|)])
    else CanvasPages
  }

  /** A count flag written `-0`, `-00`, ... counts as no count: the results
      are paginated, and the flag is still kept out of the query. */
  lemma ZeroFlagPaginates(args: seq<string>, k: nat, zeros: nat, results: seq<Url>)
    requires k < |args| && args[k] == "-" + seq(zeros, _ => '0') + "0"
    requires forall j :: 0 <= j < k ==> !IsCountFlag(args[j])
    requires results != []
    ensures ChooseMode(ParseInvocation(args).count, results) == CanvasPages
    ensures args[k] !in QueryWords(args)
  {
    assert ShowNat(0) == "0";
    FlagGivesCount(args, k, zeros, 0);
    var words := QueryWords(args);
    assert forall w :: w in words <==> w in args && w != args[k];
  }

  /** Scenario: a search that finds nothing gets the "no images" notice and
      binds no session. */
  lemma NoResultsNoSession(senderID: UserId, inv: Invocation, fetched: nat -> bool, load: nat -> Option<nat>)
    requires inv.query != []
    ensures Replies(inv, Results([]), fetched, load) == [Searching, NoImages(inv.query)]
    ensures Replies(inv, NoResultList, fetched, load) == [Searching, NoImages(inv.query)]
    ensures Binding(senderID, inv, Results([]), load) == None
    ensures Binding(senderID, inv, NoResultList, load) == None
  {
  }

  /** Scenario: `dogs -5` sends, in one message, the first `min(5, R)` of
      the `R` results that could be downloaded (all of them when every
      download succeeds), and binds no session. */
  lemma DogsFiveDirect(senderID: UserId, results: seq<Url>, fetched: nat -> bool, load: nat -> Option<nat>)
    requires results != []
    ensures var inv := ParseInvocation(["dogs", "-5"]);
      var urls := results[..Min(5, |results|)];
      && Replies(inv, Results(results), fetched, load) == [Searching, DirectImages("dogs", Retrieved(urls, fetched, 0))]
      && Binding(senderID, inv, Results(results), load) == None
    ensures (forall j :: 0 <= j < Min(5, |results|) ==> fetched(j)) ==>
      Replies(ParseInvocation(["dogs", "-5"]), Results(results), fetched, load)
        == [Searching, DirectImages("dogs", results[..Min(5, |results|)])]
  {
    DogsFive();
    var urls := results[..Min(5, |results|)];
    if forall j :: 0 <= j < Min(5, |results|) ==> fetched(j) {
      RetrievedAll(urls, fetched, 0);
    }
  }

  /** Canvas mode: renders page 1 of the results, sends it, and binds the
      first-page session to the sent message. */
  method OpenCanvas(c: ReplyCorrelator, senderID: UserId, results: seq<Url>, query: string,
                    load: nat -> Option<nat>, replyID: MessageId)
    returns (page: Message)
    modifies c
    ensures page == CanvasPage(query, 1, TotalPages(|results|, ImagesPerPage),
                               Placements(PageItems(results, 1, ImagesPerPage), load))
    ensures c.bindings == old(c.bindings)[replyID := PageSession(senderID, results, query, 1, load)]
  {
    var totalPages := TotalPages(|results|, ImagesPerPage);
    var displayedMap, placements, _ := GeneratePinterestCanvas(PageItems(results, 1, ImagesPerPage), load);
    page := CanvasPage(query, 1, totalPages, placements);
    var session := SessionRecord(senderID, results, query, ImagesPerPage, 1, totalPages, displayedMap);
    assert session == PageSession(senderID, results, query, 1, load);
    c.SetReply(replyID, session);
  }

  /** The messages `entry` sends, in order, for invocation `inv`: a request
      for a query when it is empty; otherwise the "searching" notice followed
      by the search failure, the no-images notice, the directly sent images
      (those whose download succeeded) or page 1 of the canvas. */
  function Replies(inv: Invocation, response: SearchResponse, fetched: nat -> bool, load: nat -> Option<nat>)
    : (sent: seq<Message>)
    ensures inv.query == [] ==> sent == [AskForQuery]
    ensures inv.query != [] ==> |sent| == 2 && sent[0] == Searching
    ensures inv.query != [] && response.RequestFailed? ==> sent[1] == SearchFailed
  {
    if inv.query == [] then [AskForQuery]
    else if response.RequestFailed? then [Searching, SearchFailed]
    else
      var results := ResultUrls(response);
      match ChooseMode(inv.count, results)
      case NothingFound => [Searching, NoImages(inv.query)]
      case DirectSend(urls) => [Searching, DirectImages(inv.query, Retrieved(urls, fetched, 0))]
      case CanvasPages =>
        [Searching, CanvasPage(inv.query, 1, TotalPages(|results|, ImagesPerPage),
                               Placements(PageItems(results, 1, ImagesPerPage), load))]
  }

  /** The session `entry` binds to its canvas message, if it sends one: the
      sender's page 1 of the results. */
  function Binding(senderID: UserId, inv: Invocation, response: SearchResponse, load: nat -> Option<nat>)
    : (b: Option<SessionRecord>)
    ensures b.Some? <==>
      inv.query != [] && !response.RequestFailed? && ChooseMode(inv.count, ResultUrls(response)) == CanvasPages
    ensures b.Some? ==> WellFormed(b.value) && b.value.currentPage == 1
    ensures b.Some? ==>
      b.value.id == senderID && b.value.query == inv.query && b.value.allImageUrls == ResultUrls(response)
  {
    if inv.query != [] && !response.RequestFailed? && ChooseMode(inv.count, ResultUrls(response)) == CanvasPages
    then
      var results := ResultUrls(response);
      assert TotalPages(|results|, ImagesPerPage) >= 1;
      Some(PageSession(senderID, results, inv.query, 1, load))
    else None
  }

  /** The bindings after `entry`: the old ones, plus the canvas session if
      there is one. */
  function Bound(bindings: map<MessageId, SessionRecord>, replyID: MessageId, b: Option<SessionRecord>)
    : map<MessageId, SessionRecord>
  {
    match b
    case None => bindings
    case Some(s) => bindings[replyID := s]
  }

  /** Answers invocation `inv`. */
  method Answer(c: ReplyCorrelator, senderID: UserId, inv: Invocation, response: SearchResponse,
                fetched: nat -> bool, load: nat -> Option<nat>, replyID: MessageId)
    returns (sent: seq<Message>)
    modifies c
    ensures sent == Replies(inv, response, fetched, load)
    ensures c.bindings == Bound(old(c.bindings), replyID, Binding(senderID, inv, response, load))
  {
    if inv.query == [] {
      return [AskForQuery];
    }
    sent := [Searching];
    if response.RequestFailed? {
      return sent + [SearchFailed];
    }
    var results := ResultUrls(response);
    match ChooseMode(inv.count, results)
    case NothingFound =>
      sent := sent + [NoImages(inv.query)];
    case DirectSend(urls) =>
      sent := sent + [DirectImages(inv.query, Retrieved(urls, fetched, 0))];
    case CanvasPages =>
      var page := OpenCanvas(c, senderID, results, inv.query, load, replyID);
      sent := sent + [page];
  }

  /** `entry`. The replies are returned in the order they are sent; `fetched`
      gives the download outcome of each direct-mode URL, `load` the decode
      outcome of each canvas image, `replyID` the id of the canvas message. */
  method Entry(c: ReplyCorrelator, senderID: UserId, args: seq<string>, response: SearchResponse,
               fetched: nat -> bool, load: nat -> Option<nat>, replyID: MessageId)
    returns (sent: seq<Message>)
    requires c.Valid()
    modifies c
    ensures c.Valid()
    ensures sent == Replies(ParseInvocation(args), response, fetched, load)
    ensures c.bindings == Bound(old(c.bindings), replyID, Binding(senderID, ParseInvocation(args), response, load))
  {
    var inv := ParseInvocation(args);
    sent := Answer(c, senderID, inv, response, fetched, load, replyID);
  }
}
