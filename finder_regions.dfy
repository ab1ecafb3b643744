/** The finders table builder of the current pipeline: a full-frame pixel
    (`ephem_x`, `ephem_y`) of a moon is assigned to one of twelve overlapping
    450-pixel tiles laid out on a 425-pixel grid, four columns in x by three
    rows in y, and duplicated into the neighbouring tiles when it lies in the
    25-pixel overlap. Tile `k` covers x from 425 * ((k - 1) / 3) and y from
    425 * (2 - (k - 1) % 3), each 450 pixels wide. Python's `//` and `%` by a
    positive divisor round towards minus infinity, as Dafny's do. */
module FinderRegions {
  import opened Wrappers

  const Grid: int := 425
  const TileSize: int := 450
  const Overlap: int := 25

  function Min(a: int, b: int): int { if a < b then a else b }

  /** Column and row of the grid cell holding a pixel, clamped to the last
      column (3) and the last row (2). */
  function Column(x: int): int { Min(x / Grid, 3) }

  function Row(y: int): int { Min(y / Grid, 2) }

  /** The unchecked region formula, before the source's range assertion. */
  function RegionFormula(x: int, y: int): int
  {
    (Column(x) + 1) * 3 - Row(y)
  }

  /** `get_ephem_region`: the tile number, which the source asserts lies in
      1..12. Every pixel with non-negative coordinates passes. */
  function EphemRegion(x: int, y: int): (r: Result<int>)
    ensures r.Ok? ==> 1 <= r.value <= 12
    ensures r.Err? ==> r.error.AssertionError?
    ensures x >= 0 && y >= 0 ==> r.Ok?
  {
    var region := RegionFormula(x, y);
    if 1 <= region <= 12 then Ok(region)
    else Err(AssertionError("Region is not in [1,12]"))
  }

  /** x origin and y origin of tile `k`. */
  function TileX(k: int): int { Grid * ((k - 1) / 3) }

  function TileY(k: int): int { Grid * (2 - (k - 1) % 3) }

  /** The region of a pixel names the grid cell it lies in: decoding the region
      gives back its clamped column and row, so distinct cells get distinct
      regions, and the pixel lies inside that region's tile. */
  lemma RegionNamesCell(x: int, y: int)
    requires 0 <= x <= 1725 && 0 <= y <= 1300
    ensures var k := EphemRegion(x, y).value;
      && (k - 1) / 3 == Column(x) && 2 - (k - 1) % 3 == Row(y)
      && TileX(k) <= x <= TileX(k) + TileSize
      && TileY(k) <= y <= TileY(k) + TileSize
  {
    var k := EphemRegion(x, y).value;
    assert k - 1 == 3 * Column(x) + (2 - Row(y));
  }

  /** Two pixels get the same region exactly when they lie in the same
      clamped grid cell. */
  lemma RegionInjective(x1: int, y1: int, x2: int, y2: int)
    requires 0 <= x1 <= 1725 && 0 <= y1 <= 1300 && 0 <= x2 <= 1725 && 0 <= y2 <= 1300
    ensures EphemRegion(x1, y1) == EphemRegion(x2, y2)
        <==> Column(x1) == Column(x2) && Row(y1) == Row(y2)
  {
    RegionNamesCell(x1, y1);
    RegionNamesCell(x2, y2);
  }

  /** Overlap tests of `get_region_list`. */
  predicate XOverlap(x: int) { x % Grid <= Overlap && Grid <= x <= 1300 }

  predicate YOverlap(y: int) { y % Grid <= Overlap && Grid <= y <= 875 }

  /** The list `get_region_list` builds: the primary region, then the one to
      the left on an x overlap, the one below on a y overlap, and the diagonal
      one on both; then its checks on the length and on every entry. */
  function RegionList(x: int, y: int): Result<seq<int>>
  {
    var p :- EphemRegion(x, y);
    var l := Appended(p, XOverlap(x), YOverlap(y));
    if |l| != 1 && |l| != 2 && |l| != 4 then Err(AssertionError("Unexpected number of regions in list"))
    else if exists i :: 0 <= i < |l| && !(1 <= l[i] <= 12) then Err(AssertionError("Region is not in [1,12]"))
    else Ok(l)
  }

  /** The primary region followed by the neighbours the overlaps add. */
  function Appended(p: int, xOverlap: bool, yOverlap: bool): seq<int>
  {
    [p] + (if xOverlap then [p - 3] else [])
        + (if yOverlap then [p + 1] else [])
        + (if xOverlap && yOverlap then [p - 2] else [])
  }

  /** `get_region_list`, appending to the list and then checking each entry in
      a loop, as the source does. */
  method GetRegionList(x: int, y: int) returns (r: Result<seq<int>>)
    ensures r == RegionList(x, y)
  {
    var primary := EphemRegion(x, y);
    if primary.Err? {
      return Err(primary.error);
    }
    var p := primary.value;
    var list := [p];
    if XOverlap(x) {
      list := list + [p - 3];
    }
    if YOverlap(y) {
      list := list + [p + 1];
    }
    if XOverlap(x) && YOverlap(y) {
      list := list + [p - 2];
    }
    if |list| != 1 && |list| != 2 && |list| != 4 {
      return Err(AssertionError("Unexpected number of regions in list"));
    }
    var i := 0;
    while i < |list|
      invariant 0 <= i <= |list|
      invariant forall j :: 0 <= j < i ==> 1 <= list[j] <= 12
    {
      if !(1 <= list[i] <= 12) {
        return Err(AssertionError("Region is not in [1,12]"));
      }
      i := i + 1;
    }
    assert list == Appended(p, XOverlap(x), YOverlap(y));
    return Ok(list);
  }

  /** What the list holds for any pixel with non-negative coordinates: the
      checks never fail; it starts with the primary region; it has 1, 2 or 4
      entries, never 3; the region to the left is there exactly on an x
      overlap, the one below exactly on a y overlap and the diagonal one
      exactly on both, last; every entry is in 1..12 and none repeats. */
  lemma {:induction false} RegionListShape(x: int, y: int)
    requires x >= 0 && y >= 0
    ensures var r := RegionList(x, y);
      var p := EphemRegion(x, y).value;
      && r.Ok?
      && r.value[0] == p
      && (|r.value| == 1 || |r.value| == 2 || |r.value| == 4)
      && ((p - 3) in r.value <==> XOverlap(x))
      && ((p + 1) in r.value <==> YOverlap(y))
      && ((p - 2) in r.value <==> XOverlap(x) && YOverlap(y))
      && (!XOverlap(x) && !YOverlap(y) ==> r.value == [p])
      && (XOverlap(x) && !YOverlap(y) ==> r.value == [p, p - 3])
      && (!XOverlap(x) && YOverlap(y) ==> r.value == [p, p + 1])
      && (XOverlap(x) && YOverlap(y) ==> r.value == [p, p - 3, p + 1, p - 2])
      && (forall i :: 0 <= i < |r.value| ==> 1 <= r.value[i] <= 12)
      && (forall i, j :: 0 <= i < j < |r.value| ==> r.value[i] != r.value[j])
  {
    var p := EphemRegion(x, y).value;
    assert p == 3 * Column(x) + 3 - Row(y);
    var ox, oy := XOverlap(x), YOverlap(y);
    var l := Appended(p, ox, oy);
    if ox && oy {
      assert 1 <= x / Grid <= 3 && 1 <= y / Grid <= 2;
      assert l == [p, p - 3, p + 1, p - 2];
    } else if ox {
      assert 1 <= x / Grid <= 3;
      assert l == [p, p - 3];
    } else if oy {
      assert 1 <= y / Grid <= 2;
      assert l == [p, p + 1];
    } else {
      assert l == [p];
    }
    assert RegionList(x, y) == Ok(l);
  }

  /** Pixels of the unit tests of `get_ephem_region`. */
  lemma EphemRegionExamples()
    ensures EphemRegion(425, 0) == Ok(6) && EphemRegion(0, 1300) == Ok(1)
    ensures EphemRegion(1725, 1300) == Ok(10) && EphemRegion(424, 0) == Ok(3)
    ensures EphemRegion(1725, 0) == Ok(12) && EphemRegion(1274, 849) == Ok(8)
  {
  }

  /** The pixels of the unit tests of `get_region_list` near both overlaps. */
  lemma RegionListDiagonalExamples()
    ensures RegionList(425, 425) == Ok([5, 2, 6, 3])
    ensures RegionList(1275, 850) == Ok([10, 7, 11, 8])
  {
    RegionListShape(425, 425);
    RegionListShape(1275, 850);
  }

  /** The pixels of the unit tests of `get_region_list` near one overlap. */
  lemma RegionListEdgeExamples()
    ensures RegionList(450, 0) == Ok([6, 3]) && RegionList(0, 425) == Ok([2, 3])
    ensures RegionList(1725, 425) == Ok([11, 12])
  {
    RegionListShape(450, 0);
    RegionListShape(0, 425);
    RegionListShape(1725, 425);
  }

  /** The pixels of the unit tests of `get_region_list` away from overlaps. */
  lemma RegionListSingleExamples()
    ensures RegionList(451, 451) == Ok([5]) && RegionList(25, 301) == Ok([3])
    ensures RegionList(1725, 1300) == Ok([10])
  {
    RegionListShape(451, 451);
    RegionListShape(25, 301);
    RegionListShape(1725, 1300);
  }

  // ---------------------------------------------------------------------------
  // Local coordinates of a finder inside its sub-image
  // ---------------------------------------------------------------------------

  /** `add_new_record` as written: `ephem - (ephem // 425) * 425`, the
      position inside the unclamped 425-pixel grid cell, whichever region the
      record is for. */
  function LocalCoord(e: int): (c: int)
    ensures c == e % Grid
    ensures 0 <= c < Grid
  {
    e - (e / Grid) * Grid
  }

  /** The position of a pixel inside the tile of region `k`: moving it back
      by the tile's origin gives the pixel. */
  function TileLocal(k: int, x: int, y: int): (r: (int, int))
    ensures (TileX(k) + r.0, TileY(k) + r.1) == (x, y)
  {
    (x - TileX(k), y - TileY(k))
  }

  /** For a region of 1..12 the local position is measured from a corner of
      the 425-pixel grid, in one of its four columns and three rows. */
  lemma TileOriginOnGrid(k: int, x: int, y: int)
    requires 1 <= k <= 12
    ensures var r := TileLocal(k, x, y);
      && (x - r.0) % Grid == 0 && 0 <= x - r.0 <= 3 * Grid
      && (y - r.1) % Grid == 0 && 0 <= y - r.1 <= 2 * Grid
  {
  }

  /** The tile of the region in column `c` and row `r` starts at
      (425 c, 425 r). */
  lemma TileOfCell(c: int, r: int)
    requires 0 <= c <= 3 && 0 <= r <= 2
    ensures TileX((c + 1) * 3 - r) == Grid * c && TileY((c + 1) * 3 - r) == Grid * r
  {
    var k := (c + 1) * 3 - r;
    assert k - 1 == 3 * c + (2 - r);
    assert (k - 1) / 3 == c && (k - 1) % 3 == 2 - r;
  }

  predicate InTile(k: int, x: int, y: int)
  {
    0 <= TileLocal(k, x, y).0 <= TileSize && 0 <= TileLocal(k, x, y).1 <= TileSize
  }

  /** One coordinate against the tile origins of its cell and of the cell
      before it. */
  lemma ColumnHoldsPixel(x: int)
    requires 0 <= x <= 1725
    ensures 0 <= Column(x) <= 3 && 0 <= x - Grid * Column(x) <= TileSize
    ensures XOverlap(x) ==> 1 <= Column(x) && 0 <= x - Grid * (Column(x) - 1) <= TileSize
    ensures x < 1700 ==> x - Grid * Column(x) == x % Grid
  {
    assert Grid * (x / Grid) + x % Grid == x;
  }

  lemma RowHoldsPixel(y: int)
    requires 0 <= y <= 1300
    ensures 0 <= Row(y) <= 2 && 0 <= y - Grid * Row(y) <= TileSize
    ensures YOverlap(y) ==> 1 <= Row(y) && 0 <= y - Grid * (Row(y) - 1) <= TileSize
    ensures y < 1275 ==> y - Grid * Row(y) == y % Grid
  {
    assert Grid * (y / Grid) + y % Grid == y;
  }

  /** The pixel lies in the tile of its primary region, and in those of the
      neighbours the overlap tests add. */
  lemma NeighboursHoldPixel(x: int, y: int)
    requires 0 <= x <= 1725 && 0 <= y <= 1300
    ensures var p := RegionFormula(x, y);
      && InTile(p, x, y)
      && (XOverlap(x) ==> InTile(p - 3, x, y))
      && (YOverlap(y) ==> InTile(p + 1, x, y))
      && (XOverlap(x) && YOverlap(y) ==> InTile(p - 2, x, y))
  {
    var c := Column(x);
    var r := Row(y);
    ColumnHoldsPixel(x);
    RowHoldsPixel(y);
    TileOfCell(c, r);
    if XOverlap(x) {
      TileOfCell(c - 1, r);
    }
    if YOverlap(y) {
      TileOfCell(c, r - 1);
    }
    if XOverlap(x) && YOverlap(y) {
      TileOfCell(c - 1, r - 1);
    }
  }

  /** For every region the list names, the pixel lies inside that region's
      tile: both tile-relative coordinates are in [0, 450]. On the primary
      region of a pixel away from the clamped last column and row they agree
      with the source's `LocalCoord`. */
  lemma TileLocalWithinTile(x: int, y: int)
    requires 0 <= x <= 1725 && 0 <= y <= 1300
    ensures RegionList(x, y).Ok?
    ensures forall k :: k in RegionList(x, y).value ==> InTile(k, x, y)
    ensures x < 1700 && y < 1275 ==>
      TileLocal(EphemRegion(x, y).value, x, y) == (LocalCoord(x), LocalCoord(y))
  {
    RegionListShape(x, y);
    NeighboursHoldPixel(x, y);
    ColumnHoldsPixel(x);
    RowHoldsPixel(y);
    TileOfCell(Column(x), Row(y));
  }

  /** A pixel in the x overlap, (430, 0), goes to regions 6 and 3. The source
      stores x = 5 for both records, but in tile 3, which starts at x = 0, the
      pixel is at x = 430. */
  lemma LocalCoordMisplacesNeighbour()
    ensures RegionList(430, 0) == Ok([6, 3])
    ensures LocalCoord(430) == 5
    ensures TileLocal(3, 430, 0).0 == 430
  {
    RegionListShape(430, 0);
  }

  /** A pixel clamped into the last row, (0, 1300), is in region 1, whose tile
      starts at y = 850; the source stores y = 25 instead of 450. */
  lemma LocalCoordMisplacesClamped()
    ensures RegionList(0, 1300) == Ok([1])
    ensures LocalCoord(1300) == 25
    ensures TileLocal(1, 0, 1300).1 == 450
  {
    RegionListShape(0, 1300);
  }

  // ---------------------------------------------------------------------------
  // The table builder
  // ---------------------------------------------------------------------------

  /** A `master_finders` row joined to its `master_images` row's `drz_mode`.
      `ephem_x` and `ephem_y` are SQL integers that may be NULL. */
  datatype MasterFinder = MasterFinder(
    id: int, objectName: string, masterImagesId: int,
    ephemX: Option<int>, ephemY: Option<int>, drzMode: string)

  /** A `finders` row as the builder fills it. */
  datatype Finder = Finder(
    subImagesId: int, masterFindersId: int, objectName: string, x: int, y: int)

  /** The query of `build_finders_table_main`: both coordinates present, in
      [0, 1725] x [0, 1300], in a 'wide' drizzle image. */
  predicate Selected(m: MasterFinder)
  {
    && m.ephemX.Some? && m.ephemY.Some?
    && 0 <= m.ephemX.value <= 1725 && 0 <= m.ephemY.value <= 1300
    && m.drzMode == "wide"
  }

  predicate AllSelected(ms: seq<MasterFinder>)
  {
    forall i :: 0 <= i < |ms| ==> Selected(ms[i])
  }

  /** The query keeps exactly the selected records, in order. */
  lemma {:induction false} FilterKeepsSelected(ms: seq<MasterFinder>)
    ensures forall m :: m in Filter(ms) <==> m in ms && Selected(m)
    decreases |ms|
  {
    if ms != [] {
      FilterKeepsSelected(ms[1..]);
      assert ms == [ms[0]] + ms[1..];
    }
  }

  function Filter(ms: seq<MasterFinder>): (r: seq<MasterFinder>)
    ensures AllSelected(r)
  {
    if ms == [] then []
    else (if Selected(ms[0]) then [ms[0]] else []) + Filter(ms[1..])
  }

  /** The sub-image ids stored under (master image id, region); `.one()` on
      them must find exactly one. */
  function Lookup(subImages: map<(int, int), seq<int>>, key: (int, int)): seq<int>
  {
    if key in subImages then subImages[key] else []
  }

  /** `add_new_record` for one region, with the tile-relative position. */
  function NewFinder(m: MasterFinder, region: int, subImages: map<(int, int), seq<int>>): Result<Finder>
    requires Selected(m)
  {
    var id :- One(Lookup(subImages, (m.masterImagesId, region)));
    var local := TileLocal(region, m.ephemX.value, m.ephemY.value);
    Ok(Finder(id, m.id, m.objectName, local.0, local.1))
  }

  /** The rows one selected record contributes, one per listed region. */
  function FindersFor(m: MasterFinder, regions: seq<int>, subImages: map<(int, int), seq<int>>)
    : (r: Result<seq<Finder>>)
    requires Selected(m)
    ensures r.Ok? ==> |r.value| == |regions|
    ensures r.Ok? ==> forall i :: 0 <= i < |r.value| ==>
      r.value[i].masterFindersId == m.id && r.value[i].objectName == m.objectName
  {
    if regions == [] then Ok([])
    else
      var f :- NewFinder(m, regions[0], subImages);
      var rest :- FindersFor(m, regions[1..], subImages);
      Ok([f] + rest)
  }

  /** The rows of all selected records, in query order. */
  function AllFinders(ms: seq<MasterFinder>, subImages: map<(int, int), seq<int>>): Result<seq<Finder>>
    requires AllSelected(ms)
  {
    if ms == [] then Ok([])
    else
      assert Selected(ms[0]) && AllSelected(ms[1..]);
      var regions :- RegionList(ms[0].ephemX.value, ms[0].ephemY.value);
      var fs :- FindersFor(ms[0], regions, subImages);
      var rest :- AllFinders(ms[1..], subImages);
      Ok(fs + rest)
  }

  /** Every finder row built for a record lies in its tile, and there is one
      row per listed region, with that record's id and name. */
  lemma {:induction false} FindersForShape(m: MasterFinder, regions: seq<int>, subImages: map<(int, int), seq<int>>)
    requires Selected(m)
    requires forall k :: k in regions ==> InTile(k, m.ephemX.value, m.ephemY.value)
    ensures var r := FindersFor(m, regions, subImages);
      r.Ok? ==>
        && |r.value| == |regions|
        && forall i :: 0 <= i < |r.value| ==>
             && r.value[i].masterFindersId == m.id && r.value[i].objectName == m.objectName
             && 0 <= r.value[i].x <= TileSize && 0 <= r.value[i].y <= TileSize
             && |Lookup(subImages, (m.masterImagesId, regions[i]))| == 1
             && r.value[i].subImagesId == Lookup(subImages, (m.masterImagesId, regions[i]))[0]
    ensures FindersFor(m, regions, subImages).Ok? <==>
      forall i :: 0 <= i < |regions| ==> |Lookup(subImages, (m.masterImagesId, regions[i]))| == 1
    decreases |regions|
  {
    if regions != [] {
      FindersForShape(m, regions[1..], subImages);
      var r := FindersFor(m, regions, subImages);
      if r.Ok? {
        var rest := FindersFor(m, regions[1..], subImages);
        assert r.value == [NewFinder(m, regions[0], subImages).value] + rest.value;
        forall i | 0 <= i < |r.value|
          ensures r.value[i].masterFindersId == m.id && r.value[i].objectName == m.objectName
          ensures 0 <= r.value[i].x <= TileSize && 0 <= r.value[i].y <= TileSize
          ensures |Lookup(subImages, (m.masterImagesId, regions[i]))| == 1
          ensures r.value[i].subImagesId == Lookup(subImages, (m.masterImagesId, regions[i]))[0]
        {
          if i > 0 {
            assert r.value[i] == rest.value[i - 1] && regions[i] == regions[1..][i - 1];
          } else {
            assert regions[0] in regions;
          }
        }
      }
      if forall i :: 0 <= i < |regions| ==> |Lookup(subImages, (m.masterImagesId, regions[i]))| == 1 {
        assert forall i :: 0 <= i < |regions| - 1 ==> regions[1..][i] == regions[i + 1];
      }
    }
  }

  /** Every row the builder writes lies in its sub-image's tile. */
  lemma {:induction false} AllFindersInTiles(ms: seq<MasterFinder>, subImages: map<(int, int), seq<int>>)
    requires AllSelected(ms)
    ensures var r := AllFinders(ms, subImages);
      r.Ok? ==> forall i :: 0 <= i < |r.value| ==>
        0 <= r.value[i].x <= TileSize && 0 <= r.value[i].y <= TileSize
    decreases |ms|
  {
    if ms != [] {
      var m := ms[0];
      TileLocalWithinTile(m.ephemX.value, m.ephemY.value);
      var regions := RegionList(m.ephemX.value, m.ephemY.value).value;
      FindersForShape(m, regions, subImages);
      AllFindersInTiles(ms[1..], subImages);
    }
  }

  /** The rows of a run over `a + b` are those of `a` followed by those of
      `b`, and the run fails exactly when either part does. */
  lemma {:induction false} AllFindersConcat(a: seq<MasterFinder>, b: seq<MasterFinder>, subImages: map<(int, int), seq<int>>)
    requires AllSelected(a) && AllSelected(b)
    ensures AllSelected(a + b)
    ensures AllFinders(a + b, subImages).Ok? <==> AllFinders(a, subImages).Ok? && AllFinders(b, subImages).Ok?
    ensures AllFinders(a + b, subImages).Ok? ==>
      AllFinders(a + b, subImages).value == AllFinders(a, subImages).value + AllFinders(b, subImages).value
    decreases |a|
  {
    assert AllSelected(a + b) by {
      forall i | 0 <= i < |a + b| ensures Selected((a + b)[i]) {
        if i >= |a| { assert (a + b)[i] == b[i - |a|]; }
      }
    }
    if a == [] {
      assert a + b == b;
    } else {
      assert (a + b)[0] == a[0] && (a + b)[1..] == a[1..] + b;
      AllFindersConcat(a[1..], b, subImages);
    }
  }

  /** Likewise for the rows of one record over `a + b` regions. */
  lemma {:induction false} FindersForConcat(m: MasterFinder, a: seq<int>, b: seq<int>, subImages: map<(int, int), seq<int>>)
    requires Selected(m)
    ensures FindersFor(m, a + b, subImages).Ok? <==> FindersFor(m, a, subImages).Ok? && FindersFor(m, b, subImages).Ok?
    ensures FindersFor(m, a + b, subImages).Ok? ==>
      FindersFor(m, a + b, subImages).value == FindersFor(m, a, subImages).value + FindersFor(m, b, subImages).value
    decreases |a|
  {
    if a == [] {
      assert a + b == b;
    } else {
      assert (a + b)[0] == a[0] && (a + b)[1..] == a[1..] + b;
      FindersForConcat(m, a[1..], b, subImages);
    }
  }

  lemma FindersForSingle(m: MasterFinder, region: int, subImages: map<(int, int), seq<int>>)
    requires Selected(m)
    ensures FindersFor(m, [region], subImages).Ok? <==> NewFinder(m, region, subImages).Ok?
    ensures FindersFor(m, [region], subImages).Ok? ==>
      FindersFor(m, [region], subImages).value == [NewFinder(m, region, subImages).value]
  {
    assert [region][0] == region && [region][1..] == [];
  }

  lemma AllFindersSingle(m: MasterFinder, subImages: map<(int, int), seq<int>>)
    requires Selected(m)
    ensures var regions := RegionList(m.ephemX.value, m.ephemY.value);
      && (AllFinders([m], subImages).Ok? <==>
            regions.Ok? && FindersFor(m, regions.value, subImages).Ok?)
      && (AllFinders([m], subImages).Ok? ==>
            AllFinders([m], subImages).value == FindersFor(m, regions.value, subImages).value)
  {
    assert [m][0] == m && [m][1..] == [];
    var regions := RegionList(m.ephemX.value, m.ephemY.value);
    if regions.Ok? && FindersFor(m, regions.value, subImages).Ok? {
      assert FindersFor(m, regions.value, subImages).value + [] == FindersFor(m, regions.value, subImages).value;
    }
  }

  /** `add_new_record` for each listed region in turn, collecting the rows. */
  method AddNewRecords(m: MasterFinder, regions: seq<int>, subImages: map<(int, int), seq<int>>)
    returns (r: Result<seq<Finder>>)
    requires Selected(m)
    ensures r.Ok? <==> FindersFor(m, regions, subImages).Ok?
    ensures r.Ok? ==> r.value == FindersFor(m, regions, subImages).value
  {
    var j := 0;
    var added: seq<Finder> := [];
    while j < |regions|
      invariant 0 <= j <= |regions|
      invariant FindersFor(m, regions[..j], subImages) == Ok(added)
    {
      var region := regions[j];
      assert regions[..j + 1] == regions[..j] + [region];
      assert regions == regions[..j + 1] + regions[j + 1..];
      FindersForConcat(m, regions[..j], [region], subImages);
      FindersForConcat(m, regions[..j + 1], regions[j + 1..], subImages);
      var f := NewFinder(m, region, subImages);
      FindersForSingle(m, region, subImages);
      if f.Err? {
        return Err(f.error);
      }
      added := added + [f.value];
      j := j + 1;
    }
    assert regions[..j] == regions;
    return Ok(added);
  }

  /** The finders table. Rows added by the builder become visible only when
      it commits at the end, so a run that raises leaves the table as it was. */
  class FindersTable {
    var rows: seq<Finder>

    constructor(initial: seq<Finder>)
      ensures rows == initial
    {
      rows := initial;
    }

    /** `build_finders_table_main`: select the records, append one row per
        listed region of each, and commit. No row is looked up first, so a
        second run adds every row again; `reproc` is unused. */
    method BuildFindersTableMain(masterFinders: seq<MasterFinder>, subImages: map<(int, int), seq<int>>)
      returns (r: Result<()>)
      modifies this
      ensures var all := AllFinders(Filter(masterFinders), subImages);
        && (r.Ok? <==> all.Ok?)
        && (r.Ok? ==> rows == old(rows) + all.value)
        && (r.Err? ==> rows == old(rows))
    {
      var query := Filter(masterFinders);
      var pending: seq<Finder> := [];
      var i := 0;
      while i < |query|
        invariant 0 <= i <= |query|
        invariant AllFinders(query[..i], subImages) == Ok(pending)
        invariant rows == old(rows)
      {
        var m := query[i];
        assert AllSelected(query[..i]) && AllSelected([m]) && AllSelected(query[i + 1..]);
        assert query[..i + 1] == query[..i] + [m];
        assert query == query[..i + 1] + query[i + 1..];
        AllFindersConcat(query[..i], [m], subImages);
        AllFindersConcat(query[..i + 1], query[i + 1..], subImages);
        var regions := GetRegionList(m.ephemX.value, m.ephemY.value);
        AllFindersSingle(m, subImages);
        if regions.Err? {
          return Err(regions.error);
        }
        var added := AddNewRecords(m, regions.value, subImages);
        if added.Err? {
          return Err(added.error);
        }
        pending := pending + added.value;
        i := i + 1;
      }
      assert query[..i] == query;
      rows := rows + pending;
      return Ok(());
    }
  }
}
