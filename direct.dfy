/** Direct-send mode of `entry` (CommandFiles/commands/pin.ts): the first
    `count` results are downloaded one by one and those that arrive are sent
    together, in result order. */
module DirectSend {
  import opened Common

  /** The attachments left after `streams.filter(Boolean)`: the URLs, in
      order, whose download succeeded. `fetched(from + i)` is the outcome
      for `urls[i]`. */
  function Retrieved(urls: seq<Url>, fetched: nat -> bool, from: nat): (r: seq<Url>)
    ensures |r| <= |urls|
    decreases |urls|
  {
    if urls == [] then []
    else (if fetched(from) then [urls[0]] else []) + Retrieved(urls[1..], fetched, from + 1)
  }

  /** The positions in `[lo, hi)` whose download succeeded, in increasing
      order. */
  function FetchedPositions(lo: nat, hi: nat, fetched: nat -> bool): (ps: seq<nat>)
    ensures |ps| <= if lo <= hi then hi - lo else 0
    decreases hi - lo
  {
    if hi <= lo then []
    else
      var rest := FetchedPositions(lo + 1, hi, fetched);
      if fetched(lo) then [lo] + rest else rest
  }

  /** Every listed position is in range and was fetched. */
  lemma {:induction false} FetchedPositionsSound(lo: nat, hi: nat, fetched: nat -> bool, k: nat)
    requires k < |FetchedPositions(lo, hi, fetched)|
    ensures var p := FetchedPositions(lo, hi, fetched)[k]; lo <= p < hi && fetched(p)
    decreases hi - lo
  {
    if hi > lo {
      if fetched(lo) {
        if k > 0 { FetchedPositionsSound(lo + 1, hi, fetched, k - 1); }
      } else {
        FetchedPositionsSound(lo + 1, hi, fetched, k);
      }
    }
  }

  /** The positions are listed in increasing order. */
  lemma {:induction false} FetchedPositionsIncreasing(lo: nat, hi: nat, fetched: nat -> bool, i: nat, j: nat)
    requires i < j < |FetchedPositions(lo, hi, fetched)|
    ensures FetchedPositions(lo, hi, fetched)[i] < FetchedPositions(lo, hi, fetched)[j]
    decreases hi - lo
  {
    var rest := FetchedPositions(lo + 1, hi, fetched);
    if fetched(lo) {
      if i == 0 {
        FetchedPositionsSound(lo + 1, hi, fetched, j - 1);
      } else {
        FetchedPositionsIncreasing(lo + 1, hi, fetched, i - 1, j - 1);
      }
    } else {
      FetchedPositionsIncreasing(lo + 1, hi, fetched, i, j);
    }
  }

  /** No successful download is missed. */
  lemma {:induction false} FetchedPositionsComplete(lo: nat, hi: nat, fetched: nat -> bool, p: nat)
    requires lo <= p < hi && fetched(p)
    ensures p in FetchedPositions(lo, hi, fetched)
    decreases hi - lo
  {
    if p > lo {
      FetchedPositionsComplete(lo + 1, hi, fetched, p);
    }
  }

  /** As many URLs are attached as downloads succeeded. */
  lemma {:induction false} RetrievedCount(urls: seq<Url>, fetched: nat -> bool, from: nat)
    ensures |Retrieved(urls, fetched, from)| == |FetchedPositions(from, from + |urls|, fetched)|
    decreases |urls|
  {
    if urls != [] {
      RetrievedCount(urls[1..], fetched, from + 1);
    }
  }

  /** The `k`-th attachment is the URL at the `k`-th fetched position: failed
      downloads are skipped and nothing is reordered. */
  lemma {:induction false} RetrievedInOrder(urls: seq<Url>, fetched: nat -> bool, from: nat, k: nat)
    requires k < |Retrieved(urls, fetched, from)|
    ensures k < |FetchedPositions(from, from + |urls|, fetched)|
    ensures from <= FetchedPositions(from, from + |urls|, fetched)[k] < from + |urls|
    ensures Retrieved(urls, fetched, from)[k] == urls[FetchedPositions(from, from + |urls|, fetched)[k] - from]
    decreases |urls|
  {
    RetrievedCount(urls, fetched, from);
    FetchedPositionsSound(from, from + |urls|, fetched, k);
    var hi := from + |urls|;
    var tail := urls[1..];
    var rt, pt := Retrieved(tail, fetched, from + 1), FetchedPositions(from + 1, hi, fetched);
    assert Retrieved(urls, fetched, from) == (if fetched(from) then [urls[0]] else []) + rt;
    assert FetchedPositions(from, hi, fetched) == if fetched(from) then [from] + pt else pt;
    if fetched(from) {
      if k > 0 {
        RetrievedInOrder(tail, fetched, from + 1, k - 1);
        FetchedPositionsSound(from + 1, hi, fetched, k - 1);
        assert rt[k - 1] == tail[pt[k - 1] - (from + 1)];
      }
    } else {
      RetrievedInOrder(tail, fetched, from + 1, k);
      FetchedPositionsSound(from + 1, hi, fetched, k);
      assert rt[k] == tail[pt[k] - (from + 1)];
    }
  }

  /** A URL is attached exactly when one of its positions was fetched. */
  lemma RetrievedMembers(urls: seq<Url>, fetched: nat -> bool, from: nat, u: Url)
    ensures u in Retrieved(urls, fetched, from) <==>
      exists i :: 0 <= i < |urls| && fetched(from + i) && urls[i] == u
  {
    var r, ps := Retrieved(urls, fetched, from), FetchedPositions(from, from + |urls|, fetched);
    RetrievedCount(urls, fetched, from);
    if u in r {
      var k :| 0 <= k < |r| && r[k] == u;
      RetrievedInOrder(urls, fetched, from, k);
      FetchedPositionsSound(from, from + |urls|, fetched, k);
      var i := ps[k] - from;
      assert fetched(from + i) && urls[i] == u;
    }
    if exists i :: 0 <= i < |urls| && fetched(from + i) && urls[i] == u {
      var i :| 0 <= i < |urls| && fetched(from + i) && urls[i] == u;
      FetchedPositionsComplete(from, from + |urls|, fetched, from + i);
      var k :| 0 <= k < |ps| && ps[k] == from + i;
      RetrievedInOrder(urls, fetched, from, k);
      assert r[k] == u;
    }
  }

  /** When every download succeeds, every URL is attached, in order. */
  lemma {:induction false} RetrievedAll(urls: seq<Url>, fetched: nat -> bool, from: nat)
    requires forall j :: from <= j < from + |urls| ==> fetched(j)
    ensures Retrieved(urls, fetched, from) == urls
    decreases |urls|
  {
    if urls != [] {
      RetrievedAll(urls[1..], fetched, from + 1);
      assert urls == [urls[0]] + urls[1..];
    }
  }
}
