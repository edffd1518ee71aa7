/** The reply handler (`reply` in CommandFiles/commands/pin.ts): the owner of
    a canvas page answers it with "next" or with a badge number. */
module ReplyHandler {
  import opened Common
  import opened Text
  import opened Paging
  import opened Masonry
  import opened Session

  /** `input.body.trim().toLowerCase()`. */
  function Normalize(body: string): (text: string)
    ensures text == [] <==> AllWhitespace(body)
    ensures text == [] || (!IsWhitespace(text[0]) && !IsWhitespace(text[|text| - 1]))
    ensures forall i :: 0 <= i < |text| ==> !('A' <= text[i] <= 'Z')
  {
    ToLowerAscii(Trim(body))
  }

  /** A numeral is its own normal form. */
  lemma NormalizeNumeral(n: nat)
    ensures Normalize(ShowNat(n)) == ShowNat(n)
  {
    var s := ShowNat(n);
    TrimKeepsTrimmed(s);
    assert ToLowerAscii(s) == s;
  }

  /** "next" in any mix of ASCII letter cases, with any whitespace around it,
      is read as "next": "NEXT" and " Next " turn the page too. */
  lemma NextAnyCase(s: SessionRecord, pre: string, w: string, post: string)
    requires AllWhitespace(pre) && AllWhitespace(post)
    requires ToLowerAscii(w) == "next"
    ensures Normalize(pre + w + post) == "next"
    ensures Classify(s, s.id, pre + w + post) == Classify(s, s.id, "next")
  {
    assert |w| == 4 && LowerAscii(w[0]) == 'n' && LowerAscii(w[3]) == 't';
    assert w[0] == 'n' || w[0] == 'N';
    assert w[3] == 't' || w[3] == 'T';
    assert !IsWhitespace(w[0]) && !IsWhitespace(w[|w| - 1]);
    TrimPadding(pre, w, post);
    assert Normalize(pre + w + post) == "next";
    NextIsNormal();
  }

  lemma NextIsNormal()
    ensures Normalize("next") == "next"
  {
    assert !IsWhitespace('n') && !IsWhitespace('t');
    TrimKeepsTrimmed("next");
    assert ToLowerAscii("next") == "next";
  }

  /** What the handler decides to do with one reply. */
  datatype Action =
    | Ignore                             // someone else replied
    | AlreadyLastPage                    // "next" on the last page
    | Advance                            // "next" with a page left
    | Select(ordinal: nat, index: nat)   // badge `ordinal`, result `index`
    | RejectNumber                       // a positive number that names no usable badge
    | Usage                              // anything else

  /** The decision `reply` takes for the owner's reply once its text is
      normalised, as written: "next", then `parseInt`; a number is accepted
      only if `displayedMap[number - 1]` is truthy, so an entry 0 is refused
      like a missing one. */
  function Decide(s: SessionRecord, text: string): (a: Action)
    ensures !a.Ignore?
    ensures a.AlreadyLastPage? <==> text == "next" && s.currentPage >= s.totalPages
    ensures a.Advance? <==> text == "next" && s.currentPage < s.totalPages
    ensures a.Select? ==>
      && 1 <= a.ordinal <= |s.displayedMap|
      && a.index == s.displayedMap[a.ordinal - 1] && a.index != 0
      && ParseInt(text) == Num(a.ordinal)
    ensures a.RejectNumber? <==>
      (text != "next" && ParseInt(text).Num? && ParseInt(text).value > 0
       && (ParseInt(text).value > |s.displayedMap| || s.displayedMap[ParseInt(text).value - 1] == 0))
    ensures a.Usage? <==> text != "next" && (ParseInt(text).NaN? || ParseInt(text).value <= 0)
  {
    if text == "next" then
      if s.currentPage >= s.totalPages then AlreadyLastPage else Advance
    else
      match ParseInt(text)
      case NaN => Usage
      case Num(n) =>
        if n <= 0 then Usage
        else if n - 1 < |s.displayedMap| && s.displayedMap[n - 1] != 0 then Select(n, s.displayedMap[n - 1])
        else RejectNumber
  }

  /** `reply`'s decision: replies from anyone but the page's owner are
      ignored; the owner's are decided on their normalised text. */
  function Classify(s: SessionRecord, senderID: UserId, body: string): (a: Action)
    ensures a.Ignore? <==> senderID != s.id
  {
    if senderID != s.id then Ignore else Decide(s, Normalize(body))
  }

  /** A plus sign before a number changes nothing, and a minus sign makes it
      non-positive, which gets the usage hint. */
  lemma SignedReplies(s: SessionRecord, n: nat)
    ensures Classify(s, s.id, "+" + ShowNat(n)) == Classify(s, s.id, ShowNat(n))
    ensures Classify(s, s.id, "-" + ShowNat(n)) == Usage
  {
    var t := ShowNat(n);
    NumeralReply(n);
    PlusReply(n);
    MinusReply(n);
    assert "+" + t == ['+'] + t;
    assert "-" + t == ['-'] + t;
  }

  lemma PlusReply(n: nat)
    ensures Normalize(['+'] + ShowNat(n)) == ['+'] + ShowNat(n) != "next"
    ensures ParseInt(['+'] + ShowNat(n)) == Num(n)
  {
    SignedNormal('+', n);
    ParseIntSigned('+', n, []);
    assert ['+'] + ShowNat(n) + [] == ['+'] + ShowNat(n);
  }

  lemma MinusReply(n: nat)
    ensures Normalize(['-'] + ShowNat(n)) == ['-'] + ShowNat(n) != "next"
    ensures ParseInt(['-'] + ShowNat(n)) == Num(-(n as int))
  {
    SignedNormal('-', n);
    ParseIntSigned('-', n, []);
    assert ['-'] + ShowNat(n) + [] == ['-'] + ShowNat(n);
  }

  lemma SignedNormal(sign: char, n: nat)
    requires sign == '+' || sign == '-'
    ensures Normalize([sign] + ShowNat(n)) == [sign] + ShowNat(n)
    ensures [sign] + ShowNat(n) != "next"
  {
    var ds := ShowNat(n);
    var t := [sign] + ds;
    assert t[0] == sign && t[|t| - 1] == ds[|ds| - 1];
    DigitIsPlain(ds[|ds| - 1]);
    TrimKeepsTrimmed(t);
    forall i | 0 <= i < |t| ensures LowerAscii(t[i]) == t[i] {
      if i > 0 {
        assert t[i] == ds[i - 1];
        DigitIsPlain(ds[i - 1]);
      }
    }
    assert ToLowerAscii(t) == t;
  }

  /** A digit is neither whitespace nor changed by lower-casing. */
  lemma DigitIsPlain(c: char)
    requires IsDigit(c)
    ensures !IsWhitespace(c) && LowerAscii(c) == c
  {
  }


  /** A numeral reply is its own normal form, is not "next", and parses to
      its number. */
  lemma NumeralReply(n: nat)
    ensures Normalize(ShowNat(n)) == ShowNat(n) != "next"
    ensures ParseInt(ShowNat(n)) == Num(n)
  {
    NormalizeNumeral(n);
    ParseIntNumeral(n, []);
    assert ShowNat(n) + [] == ShowNat(n);
    assert ShowNat(n) != "next" by { assert IsDigit(ShowNat(n)[0]); }
  }

  /** The owner replying with badge number `n` of a badge whose result index
      is not 0 gets that result. */
  lemma SelectByBadge(s: SessionRecord, n: nat)
    requires WellFormed(s)
    requires 1 <= n <= |s.displayedMap| && s.displayedMap[n - 1] != 0
    ensures Classify(s, s.id, ShowNat(n)) == Select(n, s.displayedMap[n - 1])
    ensures s.displayedMap[n - 1] < |s.allImageUrls|
  {
    NumeralReply(n);
    assert Classify(s, s.id, ShowNat(n)) == Decide(s, ShowNat(n));
  }

  /** A number past the last badge is refused. */
  lemma NumberPastBadgesRejected(s: SessionRecord, n: nat)
    requires n > |s.displayedMap| && n >= 1
    ensures Classify(s, s.id, ShowNat(n)) == RejectNumber
  {
    NumeralReply(n);
    assert Classify(s, s.id, ShowNat(n)) == Decide(s, ShowNat(n));
  }

  /** "0" is not a number the handler accepts: it answers with the usage hint. */
  lemma ZeroGetsUsage(s: SessionRecord)
    ensures Classify(s, s.id, "0") == Usage
  {
    NormalizeNumeral(0);
    ParseIntNumeral(0, []);
    assert ShowNat(0) == "0";
    assert "0" + [] == "0";
  }

  /** Whitespace around "next" does not matter. */
  lemma PaddedNextTurnsPage(s: SessionRecord, pre: string, post: string)
    requires AllWhitespace(pre) && AllWhitespace(post)
    ensures Classify(s, s.id, pre + "next" + post) == Classify(s, s.id, "next")
  {
    assert !IsWhitespace('n') && !IsWhitespace('t');
    TrimPadding(pre, "next", post);
    TrimKeepsTrimmed("next");
  }

  /** As written, badge 1 of page 1 can never be selected when the first
      result decoded: its `displayedMap` entry is 0, which the guard reads
      as missing. */
  lemma FirstResultUnselectable(owner: UserId, urls: seq<Url>, query: string, load: nat -> Option<nat>)
    requires urls != [] && load(0).Some?
    ensures var s := PageSession(owner, urls, query, 1, load);
      && |s.displayedMap| > 0 && s.displayedMap[0] == 0
      && Classify(s, owner, "1") == RejectNumber
  {
    var items := PageItems(urls, 1, ImagesPerPage);
    assert items[0].originalIndex == 0;
    var s := PageSession(owner, urls, query, 1, load);
    assert s.displayedMap[0] == 0;
    NormalizeNumeral(1);
    ParseIntNumeral(1, []);
    assert ShowNat(1) == "1" && "1" + [] == "1";
  }

  /** The decision with the guard the code evidently intends: a number is
      accepted whenever `number - 1` indexes `displayedMap`. */
  function DecideIntended(s: SessionRecord, text: string): (a: Action)
    ensures a.Select? ==>
      && 1 <= a.ordinal <= |s.displayedMap|
      && a.index == s.displayedMap[a.ordinal - 1]
      && ParseInt(text) == Num(a.ordinal)
  {
    var a := Decide(s, text);
    if a.RejectNumber? && ParseInt(text).value <= |s.displayedMap| then
      Select(ParseInt(text).value, s.displayedMap[ParseInt(text).value - 1])
    else a
  }

  /** With the intended guard every badge on the canvas can be selected, and
      it selects the result drawn under it. */
  lemma IntendedSelectsEveryBadge(s: SessionRecord, n: nat)
    requires WellFormed(s) && 1 <= n <= |s.displayedMap|
    ensures DecideIntended(s, Normalize(ShowNat(n))) == Select(n, s.displayedMap[n - 1])
    ensures s.displayedMap[n - 1] < |s.allImageUrls|
  {
    NumeralReply(n);
    assert Classify(s, s.id, ShowNat(n)) == Decide(s, ShowNat(n));
  }

  /** The written guard and the intended one disagree only on badge 1 of
      page 1. */
  lemma GuardDiffersOnlyOnFirstBadge(s: SessionRecord, text: string)
    requires WellFormed(s)
    requires Decide(s, text) != DecideIntended(s, text)
    ensures ParseInt(text) == Num(1) && s.currentPage == 1
  {
    var n := ParseInt(text).value;
    ZeroEntryOnlyFirstOfPageOne(s, n - 1);
  }

  /** The session bound to the next page: same owner, results, query, page
      size and page count; one page further on; the map of the new page. */
  function NextSession(s: SessionRecord, load: nat -> Option<nat>): (r: SessionRecord)
    ensures r.id == s.id && r.allImageUrls == s.allImageUrls && r.query == s.query
    ensures r.imagesPerPage == s.imagesPerPage && r.totalPages == s.totalPages
    ensures r.currentPage == s.currentPage + 1
  {
    var page := s.currentPage + 1;
    s.(currentPage := page,
       displayedMap := DisplayedMap(PageItems(s.allImageUrls, page, s.imagesPerPage), load))
  }

  /** Turning the page of a well-formed session gives exactly the session
      `entry` would have bound for that page; in particular it is well formed
      whenever there was a page left. */
  lemma NextIsPageSession(s: SessionRecord, load: nat -> Option<nat>)
    requires WellFormed(s)
    ensures NextSession(s, load) == PageSession(s.id, s.allImageUrls, s.query, s.currentPage + 1, load)
    ensures s.currentPage < s.totalPages ==> WellFormed(NextSession(s, load))
  {
    var page := s.currentPage + 1;
    assert s.imagesPerPage == ImagesPerPage;
    assert NextSession(s, load).displayedMap == DisplayedMap(PageItems(s.allImageUrls, page, ImagesPerPage), load);
  }

  /** The message `reply` sends for decision `a` on the page bound to `s`
      (none when it ignores the reply). */
  function Response(s: SessionRecord, a: Action, load: nat -> Option<nat>, fetchOk: bool): (sent: Option<Message>)
    requires a.Select? ==> a.index < |s.allImageUrls|
    ensures sent.None? <==> a.Ignore?
    ensures a.Advance? ==>
      && sent.value.CanvasPage? && sent.value.query == s.query
      && sent.value.page == s.currentPage + 1 && sent.value.totalPages == s.totalPages
    ensures a.Select? ==> (sent == Some(SelectedImage(a.ordinal, s.query, s.allImageUrls[a.index])) <==> fetchOk)
    ensures sent.Some? && sent.value.SelectedImage? ==> a.Select? && fetchOk
    ensures sent == Some(FetchFailed) <==> a.Select? && !fetchOk
    ensures sent == Some(LastPageNotice) <==> a.AlreadyLastPage?
    ensures sent == Some(InvalidNumber) <==> a.RejectNumber?
    ensures sent == Some(UsageHint) <==> a.Usage?
  {
    match a
    case Ignore => None
    case AlreadyLastPage => Some(LastPageNotice)
    case Advance =>
      Some(CanvasPage(s.query, s.currentPage + 1, s.totalPages,
                      Placements(PageItems(s.allImageUrls, s.currentPage + 1, s.imagesPerPage), load)))
    case Select(n, i) =>
      if fetchOk then Some(SelectedImage(n, s.query, s.allImageUrls[i])) else Some(FetchFailed)
    case RejectNumber => Some(InvalidNumber)
    case Usage => Some(UsageHint)
  }

  /** The correlator's bindings after `reply`: a page turn moves the session,
      advanced by a page, from the old message to the new one; a selected
      image that could be downloaded ends the session; nothing else changes
      them. */
  function Rebind(bindings: map<MessageId, SessionRecord>, detectID: MessageId, replyID: MessageId,
                  s: SessionRecord, a: Action, load: nat -> Option<nat>, fetchOk: bool)
    : (b: map<MessageId, SessionRecord>)
    ensures forall m :: m != detectID && m != replyID ==>
      (m in b <==> m in bindings) && (m in b ==> b[m] == bindings[m])
    ensures a.Advance? ==> replyID in b && b[replyID] == NextSession(s, load)
    ensures a.Advance? && detectID != replyID ==> detectID !in b
    ensures a.Select? && fetchOk ==> b == bindings - {detectID}
    ensures !a.Advance? && !(a.Select? && fetchOk) ==> b == bindings
  {
    match a
    case Advance => (bindings - {detectID})[replyID := NextSession(s, load)]
    case Select(_, _) => if fetchOk then bindings - {detectID} else bindings
    case _ => bindings
  }

  /** The owner's reply is answered; a stranger's is not. The selected image
      is always one of the search results. */
  lemma ResponseCases(s: SessionRecord, senderID: UserId, body: string, load: nat -> Option<nat>, fetchOk: bool)
    requires WellFormed(s)
    ensures var a := Classify(s, senderID, body);
      && (a.Select? ==> a.index < |s.allImageUrls|)
      && (Response(s, a, load, fetchOk).None? <==> senderID != s.id)
  {
  }

  /** A reply leaves every bound session well formed; a page turn binds the
      next page to the new message, and a delivered image unbinds the
      session. */
  lemma RebindKeepsSessions(bindings: map<MessageId, SessionRecord>, detectID: MessageId, replyID: MessageId,
                            a: Action, load: nat -> Option<nat>, fetchOk: bool)
    requires detectID in bindings
    requires forall m :: m in bindings ==> WellFormed(bindings[m])
    requires a.Advance? ==> bindings[detectID].currentPage < bindings[detectID].totalPages
    ensures var b := Rebind(bindings, detectID, replyID, bindings[detectID], a, load, fetchOk);
      && (forall m :: m in b ==> WellFormed(b[m]))
      && (a.Select? && fetchOk ==> detectID !in b)
      && (a.Advance? ==> replyID in b && b[replyID].currentPage == bindings[detectID].currentPage + 1)
  {
    var s := bindings[detectID];
    var b := Rebind(bindings, detectID, replyID, s, a, load, fetchOk);
    if a.Advance? {
      NextIsPageSession(s, load);
      assert b == (bindings - {detectID})[replyID := NextSession(s, load)];
    } else if a.Select? && fetchOk {
      assert b == bindings - {detectID};
    } else {
      assert b == bindings;
    }
  }

  /** A reply from anyone but the owner sends nothing and leaves every
      binding as it was, whatever its text. */
  lemma StrangerChangesNothing(bindings: map<MessageId, SessionRecord>, detectID: MessageId, replyID: MessageId,
                               senderID: UserId, body: string, load: nat -> Option<nat>, fetchOk: bool)
    requires detectID in bindings && senderID != bindings[detectID].id
    ensures var s := bindings[detectID];
      var a := Classify(s, senderID, body);
      && Response(s, a, load, fetchOk) == None
      && Rebind(bindings, detectID, replyID, s, a, load, fetchOk) == bindings
  {
  }

  /** "next" on the last page only sends the notice: no binding is removed or
      added, and the page stays the same. */
  lemma NextOnLastPageChangesNothing(bindings: map<MessageId, SessionRecord>, detectID: MessageId, replyID: MessageId,
                                     body: string, load: nat -> Option<nat>, fetchOk: bool)
    requires detectID in bindings
    requires Normalize(body) == "next" && bindings[detectID].currentPage >= bindings[detectID].totalPages
    ensures var s := bindings[detectID];
      var a := Classify(s, s.id, body);
      && Response(s, a, load, fetchOk) == Some(LastPageNotice)
      && Rebind(bindings, detectID, replyID, s, a, load, fetchOk) == bindings
  {
  }

  /** A selection whose download fails is answered with the failure notice
      and keeps the session bound, so the owner can try again; only a
      delivered image ends it. */
  lemma FailedFetchKeepsSession(bindings: map<MessageId, SessionRecord>, detectID: MessageId, replyID: MessageId,
                                n: nat, load: nat -> Option<nat>)
    requires detectID in bindings && WellFormed(bindings[detectID])
    requires 1 <= n <= |bindings[detectID].displayedMap| && bindings[detectID].displayedMap[n - 1] != 0
    ensures var s := bindings[detectID];
      var a := Classify(s, s.id, ShowNat(n));
      && Response(s, a, load, false) == Some(FetchFailed)
      && Rebind(bindings, detectID, replyID, s, a, load, false) == bindings
      && Response(s, a, load, true) == Some(SelectedImage(n, s.query, s.allImageUrls[s.displayedMap[n - 1]]))
      && Rebind(bindings, detectID, replyID, s, a, load, true) == bindings - {detectID}
  {
    SelectByBadge(bindings[detectID], n);
  }

  /** The "next" branch: renders the following page, sends it, and moves the
      session, advanced by a page, from the old message to the new one. */
  method TurnPage(c: ReplyCorrelator, detectID: MessageId, replyID: MessageId, load: nat -> Option<nat>)
    returns (sent: Message)
    requires detectID in c.bindings
    modifies c
    ensures var s := old(c.bindings[detectID]);
      && sent == CanvasPage(s.query, s.currentPage + 1, s.totalPages,
                            Placements(PageItems(s.allImageUrls, s.currentPage + 1, s.imagesPerPage), load))
      && c.bindings == (old(c.bindings) - {detectID})[replyID := NextSession(s, load)]
  {
    var s := c.bindings[detectID];
    var nextPage := s.currentPage + 1;
    var displayedMap, placements, _ :=
      GeneratePinterestCanvas(PageItems(s.allImageUrls, nextPage, s.imagesPerPage), load);
    sent := CanvasPage(s.query, nextPage, s.totalPages, placements);
    var next := s.(currentPage := nextPage, displayedMap := displayedMap);
    assert next == NextSession(s, load);
    c.DelReply(detectID);
    c.SetReply(replyID, next);
  }

  /** Carries out decision `a` on the session bound to `detectID`. */
  method Apply(c: ReplyCorrelator, detectID: MessageId, replyID: MessageId, a: Action,
               load: nat -> Option<nat>, fetchOk: bool)
    returns (sent: Option<Message>)
    requires detectID in c.bindings
    requires a.Select? ==> a.index < |c.bindings[detectID].allImageUrls|
    modifies c
    ensures sent == Response(old(c.bindings[detectID]), a, load, fetchOk)
    ensures c.bindings == Rebind(old(c.bindings), detectID, replyID, old(c.bindings[detectID]), a, load, fetchOk)
  {
    if a.Advance? {
      var page := TurnPage(c, detectID, replyID, load);
      sent := Some(page);
    } else {
      sent := Response(c.bindings[detectID], a, load, fetchOk);
      if a.Select? && fetchOk {
        c.DelReply(detectID);
      }
    }
  }

  /** `reply`. `detectID` is the message replied to, `load` the decode
      outcome of each canvas image, `fetchOk` the outcome of downloading the
      selected image, `replyID` the id of a new canvas message. */
  method HandleReply(c: ReplyCorrelator, detectID: MessageId, senderID: UserId, body: string,
                     load: nat -> Option<nat>, fetchOk: bool, replyID: MessageId)
    returns (sent: Option<Message>)
    requires c.Valid() && detectID in c.bindings
    modifies c
    ensures c.Valid()
    ensures var s := old(c.bindings[detectID]);
      var a := Classify(s, senderID, body);
      && (a.Select? ==> a.index < |s.allImageUrls|)
      && sent == Response(s, a, load, fetchOk)
      && c.bindings == Rebind(old(c.bindings), detectID, replyID, s, a, load, fetchOk)
  {
    var s := c.bindings[detectID];
    var a := Classify(s, senderID, body);
    ResponseCases(s, senderID, body, load, fetchOk);
    RebindKeepsSessions(c.bindings, detectID, replyID, a, load, fetchOk);
    sent := Apply(c, detectID, replyID, a, load, fetchOk);
  }

  /** Scenario: 45 results. Page 1 is bound first; "next" turns to page 2,
      "next" again to page 3, and a third "next" is told it is on the last
      page. */
  lemma FortyFiveResultsPaging(owner: UserId, urls: seq<Url>, query: string,
                               load1: nat -> Option<nat>, load2: nat -> Option<nat>, load3: nat -> Option<nat>)
    requires |urls| == 45
    ensures var s1 := PageSession(owner, urls, query, 1, load1);
      var s2 := NextSession(s1, load2);
      var s3 := NextSession(s2, load3);
      && s1.totalPages == 3
      && Classify(s1, owner, "next") == Advance
      && Classify(s2, owner, "next") == Advance
      && Classify(s3, owner, "next") == AlreadyLastPage
      && s3.currentPage == 3 && |s3.displayedMap| <= 3
  {
    FortyFiveResults(urls);
    NextIsNormal();
    var s1 := PageSession(owner, urls, query, 1, load1);
    var s2 := NextSession(s1, load2);
    var s3 := NextSession(s2, load3);
    assert s1.id == owner && s1.currentPage == 1 && s1.totalPages == 3;
    assert s2.id == owner && s2.currentPage == 2 && s2.totalPages == 3;
    assert s3.id == owner && s3.currentPage == 3 && s3.totalPages == 3;
    assert Decide(s1, "next") == Advance;
    assert Decide(s2, "next") == Advance;
    assert Decide(s3, "next") == AlreadyLastPage;
    assert s3.displayedMap == DisplayedMap(PageItems(urls, 3, ImagesPerPage), load3);
    DisplayedMapCount(PageItems(urls, 3, ImagesPerPage), load3);
  }
}
