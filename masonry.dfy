/** The grid compositor (CommandFiles/commands/pin.ts, `generatePinterestCanvas`):
    which candidates decode, the column each decoded tile goes into, the badge
    it carries, and the `displayedMap` from badge to result index. */
module Masonry {
  import opened Common

  const NumColumns: nat := 3
  const Padding: nat := 15
  /** Height at which every column starts, below the header text. */
  const HeaderBottom: int := 100

  /** A candidate that decoded: the result index it stands for and the height
      of its tile once scaled to the column width. */
  datatype Tile = Tile(sourceIndex: nat, height: nat)

  /** The loaded candidates, in candidate order: `load(i)` is the scaled tile
      height of the candidate with result index `i`, or None when loading it
      failed (the `Promise.all` followed by `filter(Boolean)`). */
  function DecodedTiles(items: seq<ImageObject>, load: nat -> Option<nat>): (tiles: seq<Tile>)
    ensures |tiles| <= |items|
  {
    if items == [] then []
    else
      var rest := DecodedTiles(items[1..], load);
      match load(items[0].originalIndex)
      case None => rest
      case Some(h) => [Tile(items[0].originalIndex, h)] + rest
  }

  /** The `k`-th decoded tile stands for a candidate whose image loaded, and
      carries the height its loading gave. */
  lemma {:induction false} DecodedTileFromLoad(items: seq<ImageObject>, load: nat -> Option<nat>, k: nat)
    requires k < |DecodedTiles(items, load)|
    ensures var t := DecodedTiles(items, load)[k];
      && load(t.sourceIndex) == Some(t.height)
      && exists i :: 0 <= i < |items| && items[i].originalIndex == t.sourceIndex
  {
    var rest := DecodedTiles(items[1..], load);
    var t := DecodedTiles(items, load)[k];
    match load(items[0].originalIndex)
    case None =>
      DecodedTileFromLoad(items[1..], load, k);
      var i :| 0 <= i < |items[1..]| && items[1..][i].originalIndex == t.sourceIndex;
      assert items[i + 1].originalIndex == t.sourceIndex;
    case Some(h) =>
      if k > 0 {
        DecodedTileFromLoad(items[1..], load, k - 1);
        var i :| 0 <= i < |items[1..]| && items[1..][i].originalIndex == t.sourceIndex;
        assert items[i + 1].originalIndex == t.sourceIndex;
      } else {
        assert items[0].originalIndex == t.sourceIndex;
      }
  }

  /** `displayedMap`: entry `k` is the result index of the tile with badge
      `k + 1`, that is, of the `k`-th candidate that decoded. */
  function DisplayedMap(items: seq<ImageObject>, load: nat -> Option<nat>): (dm: seq<nat>)
    ensures |dm| == |DecodedTiles(items, load)|
    ensures forall k :: 0 <= k < |dm| ==> dm[k] == DecodedTiles(items, load)[k].sourceIndex
  {
    if items == [] then []
    else
      var rest := DisplayedMap(items[1..], load);
      if load(items[0].originalIndex).Some? then [items[0].originalIndex] + rest else rest
  }

  function TileHeights(tiles: seq<Tile>): (hs: seq<nat>)
    ensures |hs| == |tiles| && forall k :: 0 <= k < |tiles| ==> hs[k] == tiles[k].height
  {
    if tiles == [] then [] else [tiles[0].height] + TileHeights(tiles[1..])
  }

  /** How many candidates decoded. */
  function DecodedCount(items: seq<ImageObject>, load: nat -> Option<nat>): nat {
    if items == [] then 0
    else (if load(items[0].originalIndex).Some? then 1 else 0) + DecodedCount(items[1..], load)
  }

  /** `displayedMap` has one entry per candidate that decoded; failed ones
      leave no gap. */
  lemma {:induction false} DisplayedMapCount(items: seq<ImageObject>, load: nat -> Option<nat>)
    ensures |DisplayedMap(items, load)| == DecodedCount(items, load) <= |items|
  {
    if items != [] {
      DisplayedMapCount(items[1..], load);
    }
  }

  /** A result index is in `displayedMap` exactly when it is one of the
      candidates and its image decoded. */
  lemma {:induction false} DisplayedMapMembers(items: seq<ImageObject>, load: nat -> Option<nat>, x: nat)
    ensures x in DisplayedMap(items, load) <==>
      (exists i :: 0 <= i < |items| && items[i].originalIndex == x) && load(x).Some?
  {
    if items != [] {
      DisplayedMapMembers(items[1..], load, x);
      if exists i :: 0 <= i < |items| && items[i].originalIndex == x {
        var i :| 0 <= i < |items| && items[i].originalIndex == x;
        if i > 0 { assert items[1..][i - 1].originalIndex == x; }
      }
      if exists i :: 0 <= i < |items[1..]| && items[1..][i].originalIndex == x {
        var i :| 0 <= i < |items[1..]| && items[1..][i].originalIndex == x;
        assert items[i + 1].originalIndex == x;
      }
    }
  }

  predicate StrictlyIncreasing(xs: seq<nat>) {
    forall i, j :: 0 <= i < j < |xs| ==> xs[i] < xs[j]
  }

  /** Candidates tagged in increasing order give a `displayedMap` in
      increasing order: badges follow the result order. */
  lemma {:induction false} DisplayedMapIncreasing(items: seq<ImageObject>, load: nat -> Option<nat>)
    requires forall i, j :: 0 <= i < j < |items| ==> items[i].originalIndex < items[j].originalIndex
    ensures StrictlyIncreasing(DisplayedMap(items, load))
  {
    if items != [] {
      DisplayedMapIncreasing(items[1..], load);
      var dm, rest := DisplayedMap(items, load), DisplayedMap(items[1..], load);
      if load(items[0].originalIndex).Some? {
        forall k | 0 <= k < |rest| ensures items[0].originalIndex < rest[k] {
          DisplayedMapMembers(items[1..], load, rest[k]);
          assert rest[k] in rest;
          var i :| 0 <= i < |items[1..]| && items[1..][i].originalIndex == rest[k];
          assert items[i + 1].originalIndex == rest[k];
        }
      }
    }
  }

  /** `columnHeights.indexOf(Math.min(...columnHeights))`: the lowest-indexed
      column among those of minimal height. */
  function FirstMinIndex(h: seq<int>): (c: nat)
    requires |h| > 0
    ensures c < |h|
    ensures forall j :: 0 <= j < |h| ==> h[c] <= h[j]
    ensures forall j :: 0 <= j < c ==> h[j] > h[c]
  {
    if |h| == 1 then 0
    else
      var c := FirstMinIndex(h[1..]);
      if h[0] <= h[1 + c] then 0 else 1 + c
  }

  /** One placement: the tile goes into the first lowest column, which grows
      by the tile height plus the padding. */
  function Place(h: seq<int>, height: nat): (h': seq<int>)
    requires |h| > 0
    ensures |h'| == |h|
    ensures h'[FirstMinIndex(h)] == h[FirstMinIndex(h)] + height + Padding
    ensures forall j :: 0 <= j < |h| && j != FirstMinIndex(h) ==> h'[j] == h[j]
    ensures forall j :: 0 <= j < |h| ==> h'[j] >= h[j]
  {
    h[FirstMinIndex(h) := h[FirstMinIndex(h)] + height + Padding]
  }

  /** The columns chosen for a run of tiles and the heights reached. */
  datatype Packing = Packing(columns: seq<nat>, heights: seq<int>)

  function Pack(h: seq<int>, tiles: seq<nat>): (p: Packing)
    requires |h| > 0
    ensures |p.columns| == |tiles| && |p.heights| == |h|
    ensures forall k :: 0 <= k < |tiles| ==> p.columns[k] < |h|
    decreases tiles
  {
    if tiles == [] then Packing([], h)
    else
      var rest := Pack(Place(h, tiles[0]), tiles[1..]);
      Packing([FirstMinIndex(h)] + rest.columns, rest.heights)
  }

  /** The heights the columns start from. */
  function InitialHeights(): (h: seq<int>)
    ensures |h| == NumColumns && forall j :: 0 <= j < NumColumns ==> h[j] == HeaderBottom
  {
    [HeaderBottom, HeaderBottom, HeaderBottom]
  }

  /** The layout the compositor draws for a page. */
  function Layout(items: seq<ImageObject>, load: nat -> Option<nat>): Packing {
    Pack(InitialHeights(), TileHeights(DecodedTiles(items, load)))
  }

  /** The tiles as drawn: badge `k + 1` on the `k`-th decoded tile, which
      stands for `displayedMap[k]` and sits in the column the layout chose. */
  function Placements(items: seq<ImageObject>, load: nat -> Option<nat>): (ps: seq<Placement>)
    ensures |ps| == |DisplayedMap(items, load)|
    ensures forall k :: 0 <= k < |ps| ==>
      && ps[k].badge == k + 1
      && ps[k].sourceIndex == DisplayedMap(items, load)[k]
      && ps[k].column == Layout(items, load).columns[k] < NumColumns
  {
    var dm := DisplayedMap(items, load);
    var cols := Layout(items, load).columns;
    seq(|dm|, k requires 0 <= k < |dm| => Placement(cols[k], k + 1, dm[k]))
  }

  /** At every step the tile goes into the first column whose accumulated
      height, replayed from the start, is minimal. */
  lemma {:induction false} PackChoosesLowestColumn(h: seq<int>, tiles: seq<nat>, k: nat)
    requires |h| > 0 && k < |tiles|
    ensures Pack(h, tiles).columns[k] == FirstMinIndex(Pack(h, tiles[..k]).heights)
    decreases k
  {
    if k > 0 {
      var h' := Place(h, tiles[0]);
      PackChoosesLowestColumn(h', tiles[1..], k - 1);
      assert Pack(h, tiles).columns[k] == Pack(h', tiles[1..]).columns[k - 1];
      assert tiles[..k][0] == tiles[0] && tiles[..k][1..] == tiles[1..][..k - 1];
      assert Pack(h, tiles[..k]).heights == Pack(h', tiles[1..][..k - 1]).heights;
    } else {
      assert tiles[..0] == [];
    }
  }

  /** Total growth of column `j`: the heights plus padding of the tiles that
      were placed in it. */
  function ColumnGrowth(columns: seq<nat>, tiles: seq<nat>, j: nat): nat
    requires |columns| == |tiles|
  {
    if tiles == [] then 0
    else (if columns[0] == j then tiles[0] + Padding else 0) + ColumnGrowth(columns[1..], tiles[1..], j)
  }

  /** Each column ends at its start height plus the tiles placed in it: only
      the chosen column changes at a step, and no column ever gets lower. */
  lemma {:induction false} PackHeights(h: seq<int>, tiles: seq<nat>, j: nat)
    requires |h| > 0 && j < |h|
    ensures Pack(h, tiles).heights[j] == h[j] + ColumnGrowth(Pack(h, tiles).columns, tiles, j)
    ensures Pack(h, tiles).heights[j] >= h[j]
    decreases tiles
  {
    if tiles != [] {
      var h' := Place(h, tiles[0]);
      PackHeights(h', tiles[1..], j);
      var p := Pack(h, tiles);
      assert p.columns[1..] == Pack(h', tiles[1..]).columns;
    }
  }

  /** On a rendered page each column ends at 100 plus the padded heights of
      the decoded tiles placed in it, heights as loading gave them. */
  lemma LayoutHeights(items: seq<ImageObject>, load: nat -> Option<nat>, j: nat)
    requires j < NumColumns
    ensures var p := Layout(items, load);
      p.heights[j] == HeaderBottom + ColumnGrowth(p.columns, TileHeights(DecodedTiles(items, load)), j)
  {
    PackHeights(InitialHeights(), TileHeights(DecodedTiles(items, load)), j);
  }

  /** The heights never drift further apart than `bound`, if they start that
      close and no tile (with padding) is taller than `bound`. */
  predicate Balanced(h: seq<int>, bound: int) {
    forall i, j :: 0 <= i < |h| && 0 <= j < |h| ==> h[i] - h[j] <= bound
  }

  lemma {:induction false} PackStaysBalanced(h: seq<int>, tiles: seq<nat>, bound: int)
    requires |h| > 0 && Balanced(h, bound)
    requires forall k :: 0 <= k < |tiles| ==> tiles[k] + Padding <= bound
    ensures Balanced(Pack(h, tiles).heights, bound)
    decreases tiles
  {
    if tiles != [] {
      var h' := Place(h, tiles[0]);
      var c := FirstMinIndex(h);
      forall i, j | 0 <= i < |h'| && 0 <= j < |h'| ensures h'[i] - h'[j] <= bound {
        assert h[c] <= h[i] && h[c] <= h[j];
      }
      PackStaysBalanced(h', tiles[1..], bound);
    }
  }

  /** Packing one more tile places it after the others: into the first lowest
      column of the heights reached so far. */
  lemma {:induction false} PackSnoc(h: seq<int>, tiles: seq<nat>, x: nat)
    requires |h| > 0
    ensures Pack(h, tiles + [x]) ==
      Packing(Pack(h, tiles).columns + [FirstMinIndex(Pack(h, tiles).heights)],
              Place(Pack(h, tiles).heights, x))
    decreases tiles
  {
    if tiles == [] {
      assert tiles + [x] == [x];
    } else {
      assert (tiles + [x])[1..] == tiles[1..] + [x];
      PackSnoc(Place(h, tiles[0]), tiles[1..], x);
    }
  }

  /** The loop of `GeneratePinterestCanvas` after `i` decoded tiles: the first
      `i` badges and map entries are out, and the heights are those the
      packing reaches after `i` tiles. */
  ghost predicate CanvasAfter(valid: seq<Tile>, i: nat, dm: seq<nat>, ps: seq<Placement>, done: seq<nat>, h: seq<int>)
  {
    && i <= |valid| && |dm| == i && |ps| == i && |done| == i
    && (forall k :: 0 <= k < i ==> dm[k] == valid[k].sourceIndex)
    && (forall k :: 0 <= k < i ==> ps[k] == Placement(done[k], k + 1, valid[k].sourceIndex))
    && Pack(InitialHeights(), TileHeights(valid)[..i]) == Packing(done, h)
  }

  /** Helpers for one turn of the loop in `GeneratePinterestCanvas`. */
  lemma StepPack(valid: seq<Tile>, i: nat, done: seq<nat>, h: seq<int>)
    requires i < |valid|
    requires Pack(InitialHeights(), TileHeights(valid)[..i]) == Packing(done, h)
    ensures |h| == NumColumns
    ensures Pack(InitialHeights(), TileHeights(valid)[..i + 1]) == Packing(done + [FirstMinIndex(h)], Place(h, valid[i].height))
  {
    PackPrefixStep(TileHeights(valid), i, done, h);
  }

  lemma PackPrefixStep(hs: seq<nat>, i: nat, done: seq<nat>, h: seq<int>)
    requires i < |hs|
    requires Pack(InitialHeights(), hs[..i]) == Packing(done, h)
    ensures Pack(InitialHeights(), hs[..i + 1]) == Packing(done + [FirstMinIndex(h)], Place(h, hs[i]))
  {
    assert hs[..i + 1] == hs[..i] + [hs[i]];
    PackSnoc(InitialHeights(), hs[..i], hs[i]);
  }

  lemma StepSeqs(valid: seq<Tile>, i: nat, dm: seq<nat>, ps: seq<Placement>, done: seq<nat>, c: nat)
    requires i < |valid| && |dm| == i && |ps| == i && |done| == i
    requires forall k :: 0 <= k < i ==> dm[k] == valid[k].sourceIndex
    requires forall k :: 0 <= k < i ==> ps[k] == Placement(done[k], k + 1, valid[k].sourceIndex)
    ensures forall k :: 0 <= k < i + 1 ==> (dm + [valid[i].sourceIndex])[k] == valid[k].sourceIndex
    ensures forall k :: 0 <= k < i + 1 ==>
      (ps + [Placement(c, i + 1, valid[i].sourceIndex)])[k] == Placement((done + [c])[k], k + 1, valid[k].sourceIndex)
  {
  }

  /** What the loop builds is the specified `displayedMap`, placements and
      final heights. */
  lemma CanvasOutputs(imageObjects: seq<ImageObject>, load: nat -> Option<nat>,
                      dm: seq<nat>, ps: seq<Placement>, done: seq<nat>, h: seq<int>)
    requires CanvasAfter(DecodedTiles(imageObjects, load), |DecodedTiles(imageObjects, load)|, dm, ps, done, h)
    ensures dm == DisplayedMap(imageObjects, load)
    ensures ps == Placements(imageObjects, load)
    ensures h == Layout(imageObjects, load).heights
  {
    var valid := DecodedTiles(imageObjects, load);
    assert TileHeights(valid)[..|valid|] == TileHeights(valid);
  }

  /** CommandFiles/commands/pin.ts lines 86-91 and 109: pick the first lowest column and grow it by the
      tile height plus the padding. */
  method PlaceTile(columnHeights: array<int>, height: nat) returns (colIndex: nat)
    requires columnHeights.Length > 0
    modifies columnHeights
    ensures colIndex == FirstMinIndex(old(columnHeights[..]))
    ensures columnHeights[..] == Place(old(columnHeights[..]), height)
  {
    colIndex := FirstMinIndex(columnHeights[..]);
    columnHeights[colIndex] := columnHeights[colIndex] + height + Padding;
  }

  /** `generatePinterestCanvas` without the drawing: returns `displayedMap`,
      where each tile was drawn, and the final column heights. */
  method GeneratePinterestCanvas(imageObjects: seq<ImageObject>, load: nat -> Option<nat>)
    returns (displayedMap: seq<nat>, placements: seq<Placement>, columnHeights: seq<int>)
    ensures displayedMap == DisplayedMap(imageObjects, load)
    ensures placements == Placements(imageObjects, load)
    ensures columnHeights == Layout(imageObjects, load).heights
  {
    var heights := new int[NumColumns](_ => HeaderBottom);
    var valid := DecodedTiles(imageObjects, load);
    ghost var done: seq<nat> := [];
    assert heights[..] == InitialHeights();
    assert TileHeights(valid)[..0] == [];
    displayedMap := [];
    placements := [];
    var displayNumber := 0;
    for i := 0 to |valid|
      invariant heights.Length == NumColumns && displayNumber == i
      invariant CanvasAfter(valid, i, displayedMap, placements, done, heights[..])
    {
      StepPack(valid, i, done, heights[..]);
      StepSeqs(valid, i, displayedMap, placements, done, FirstMinIndex(heights[..]));
      var col := PlaceTile(heights, valid[i].height);
      done := done + [col];
      displayNumber := displayNumber + 1;
      displayedMap := displayedMap + [valid[i].sourceIndex];
      placements := placements + [Placement(col, displayNumber, valid[i].sourceIndex)];
    }
    columnHeights := heights[..];
    CanvasOutputs(imageObjects, load, displayedMap, placements, done, columnHeights);
  }
}
