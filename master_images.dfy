/** The `master_images` table builder of the ephemeris scripts
    (ephem/build_master_images_table.py): the FITS file behind each PNG, the
    record read from that file's header, the set numbering that groups the
    images of one proposal, visit and orbit, and the loop that inserts or
    updates one row per PNG. */
module MasterImages {
  import opened Wrappers
  import opened PyStr
  import PosixPath

  // ---------------------------------------------------------------------------
  // get_fits_file
  // ---------------------------------------------------------------------------

  /** The text `get_fits_file` builds: every "png/" removed, then every
      ".png" turned into ".fits". */
  function FitsText(pngFile: string): string
  {
    Replace(Replace(pngFile, "png/", ""), ".png", ".fits")
  }

  /** `get_fits_file`: a PNG is required, and the name built from it must
      carry the FITS extension. */
  function GetFitsFile(pngFile: string): (r: Result<string>)
    ensures r.Ok? <==>
      PosixPath.Splitext(pngFile).1 == ".png" && PosixPath.Splitext(FitsText(pngFile)).1 == ".fits"
    ensures PosixPath.Splitext(pngFile).1 != ".png" ==> r == Err(AssertionError("png file required"))
    ensures r.Ok? ==> PosixPath.Splitext(r.value).1 == ".fits"
    ensures r.Err? ==> (r.error.AssertionError? &&
      (r.error.message == "png file required" || StartsWith(r.error.message, "expected .fits got ")))
  {
    if PosixPath.Splitext(pngFile).1 != ".png" then Err(AssertionError("png file required"))
    else
      var fitsFile := FitsText(pngFile);
      var ext := PosixPath.Splitext(fitsFile).1;
      if ext != ".fits" then Err(AssertionError("expected .fits got " + ext))
      else Ok(fitsFile)
  }

  /** When a character `c` sits at the seam of `a + b` and cannot occur
      inside the pattern where the seam would fall, no match of the pattern
      straddles the seam, so the replacement works on each side alone. */
  lemma ReplaceAtSeam(a: string, b: string, pat: string, repl: string, c: char)
    requires |pat| > 0
    requires (a != [] && a[|a| - 1] == c && c !in pat[..|pat| - 1]) || (b != [] && b[0] == c && c !in pat[1..])
    ensures Replace(a + b, pat, repl) == Replace(a, pat, repl) + Replace(b, pat, repl)
  {
    forall i | 0 <= i < |a| && i + |pat| > |a|
      ensures !StartsWith(a[i..] + b, pat)
    {
      var s := a[i..] + b;
      if a != [] && a[|a| - 1] == c && c !in pat[..|pat| - 1] {
        var k := |a| - 1 - i;
        assert s[k] == c;
        assert pat[..|pat| - 1][k] != c;
        assert pat[k] != s[k];
      } else {
        var k := |a| - i;
        assert s[k] == c;
        assert pat[1..][k - 1] != c;
        assert pat[k] != s[k];
      }
    }
    ReplaceAppendNoOverlap(a, b, pat, repl);
  }

  /** Text without `c` does not contain a pattern that holds `c`. */
  lemma NotContainedWithout(s: string, pat: string, c: char)
    requires c in pat && c !in s
    ensures !Contains(s, pat)
  {
    ContainsIsSubstring(s, pat);
    var k :| 0 <= k < |pat| && pat[k] == c;
    forall i | 0 <= i <= |s| - |pat|
      ensures !OccursAt(s, pat, i)
    {
      assert s[i..i + |pat|][k] == s[i + k];
    }
  }

  /** A PNG in the `png` directory beside its FITS file maps back to that
      FITS file: "dir/png/stem.png" becomes "dir/stem.fits". */
  lemma PngDirectoryFits(dir: string, stem: string)
    requires !Contains(dir + "/", "png/") && !Contains(dir + "/", ".png")
    requires stem != [] && '/' !in stem && !Contains(stem, ".png") && stem[|stem| - 1] != '.'
    ensures GetFitsFile(dir + "/png/" + stem + ".png") == Ok(dir + "/" + stem + ".fits")
  {
    FitsOfPngDirectory(dir, stem);
    PngAndFitsExtensions(dir, stem);
    GetFitsFileOk(dir + "/png/" + stem + ".png", dir + "/" + stem + ".fits");
  }

  lemma FitsOfPngDirectory(dir: string, stem: string)
    requires !Contains(dir + "/", "png/") && !Contains(dir + "/", ".png")
    requires stem != [] && '/' !in stem && !Contains(stem, ".png")
    ensures FitsText(dir + "/png/" + stem + ".png") == dir + "/" + stem + ".fits"
  {
    PngPathParts(dir, stem);
    DropPngDirectory(dir + "/", stem + ".png");
    PngToFits(dir + "/", stem);
  }

  lemma DropPngDirectory(a: string, c: string)
    requires a != [] && a[|a| - 1] == '/' && !Contains(a, "png/") && '/' !in c
    ensures Replace(a + ("png/" + c), "png/", "") == a + c
  {
    assert "png/"[..3] == "png";
    DropDirectory(a, "png/", c);
  }

  lemma PngToFits(a: string, stem: string)
    requires a != [] && a[|a| - 1] == '/' && !Contains(a, ".png") && stem != [] && !Contains(stem, ".png")
    ensures Replace(a + (stem + ".png"), ".png", ".fits") == a + stem + ".fits"
  {
    assert ".png"[1..] == "png";
    SwapExtension(a, stem, ".png", ".fits");
  }

  lemma PngAndFitsExtensions(dir: string, stem: string)
    requires stem != [] && '/' !in stem && stem[|stem| - 1] != '.'
    ensures PosixPath.Splitext(dir + "/png/" + stem + ".png").1 == ".png"
    ensures PosixPath.Splitext(dir + "/" + stem + ".fits").1 == ".fits"
  {
    ExtensionAfterStem(dir + "/png/", stem, ".png");
    assert ".fits"[1..] == "fits";
    ExtensionAfterStem(dir + "/", stem, ".fits");
  }

  lemma ExtensionAfterStem(d: string, stem: string, ext: string)
    requires |ext| >= 2 && ext[0] == '.' && '.' !in ext[1..] && '/' !in ext
    requires stem != [] && '/' !in stem && stem[|stem| - 1] != '.'
    ensures PosixPath.Splitext(d + stem + ext).1 == ext
  {
    var q := d + stem;
    assert q[|q| - 1] == stem[|stem| - 1];
    PosixPath.SplitextSuffix(q, ext);
  }

  lemma GetFitsFileOk(png: string, fits: string)
    requires PosixPath.Splitext(png).1 == ".png" && FitsText(png) == fits
    requires PosixPath.Splitext(fits).1 == ".fits"
    ensures GetFitsFile(png) == Ok(fits)
  {
  }

  lemma PngPathParts(dir: string, stem: string)
    ensures dir + "/png/" + stem + ".png" == (dir + "/") + ("png/" + (stem + ".png"))
  {
    assert "/png/" == "/" + "png/";
  }

  /** Removing a directory name `dirName` (ending in its one slash) from a
      directory ending in a slash, that name after it and a file name
      without slashes leaves the directory and the file name. */
  lemma DropDirectory(a: string, dirName: string, c: string)
    requires |dirName| >= 1 && dirName[|dirName| - 1] == '/' && '/' !in dirName[..|dirName| - 1]
    requires a != [] && a[|a| - 1] == '/' && !Contains(a, dirName) && '/' !in c
    ensures Replace(a + (dirName + c), dirName, "") == a + c
  {
    ReplaceAtSeam(a, dirName + c, dirName, "", '/');
    ReplaceAbsent(a, dirName, "");
    assert (dirName + c)[..|dirName|] == dirName && (dirName + c)[|dirName|..] == c;
    NotContainedWithout(c, dirName, '/');
    ReplaceAbsent(c, dirName, "");
  }

  /** Replacing an extension `ext` (a dot and no further dot or slash) in a
      directory ending in a slash followed by "stem" and `ext` changes only
      the extension. */
  lemma SwapExtension(a: string, stem: string, ext: string, repl: string)
    requires |ext| >= 1 && ext[0] == '.' && '.' !in ext[1..] && '/' !in ext
    requires a != [] && a[|a| - 1] == '/' && !Contains(a, ext) && stem != [] && !Contains(stem, ext)
    ensures Replace(a + (stem + ext), ext, repl) == a + stem + repl
  {
    ReplaceAtSeam(a, stem + ext, ext, repl, '/');
    ReplaceAbsent(a, ext, repl);
    ReplaceAtSeam(stem, ext, ext, repl, '.');
    ReplaceAbsent(stem, ext, repl);
    assert ext[..|ext|] == ext && ext[|ext|..] == "";
    assert Replace("", ext, repl) == "";
  }

  // ---------------------------------------------------------------------------
  // The record of one PNG
  // ---------------------------------------------------------------------------

  /** The FITS header keywords the record is read from. */
  datatype Header = Header(
    proposid: int, targname: string, naxis1: int, naxis2: int,
    raTarg: real, decTarg: real, filtnam1: string, linenum: string)

  /** A `master_images` row: the columns the builder writes; NULL-able
      columns are options. */
  datatype MasterImage = MasterImage(
    name: string, fitsFile: string, projectId: int, objectName: string,
    width: int, height: int,
    minimumRa: real, minimumDec: real, maximumRa: real, maximumDec: real,
    pixelResolution: real, description: string,
    visit: Option<string>, orbit: Option<string>, drzMode: string,
    setId: Option<int>, setIndex: Option<int>)

  /** Visit and orbit: the first two '.'-separated fields of LINENUM. */
  function VisitOrbit(linenum: string): (r: Result<(string, string)>)
    ensures r.Ok? <==> '.' in linenum
    ensures r.Err? ==> r.error == IndexError
    ensures r.Ok? ==> '.' !in r.value.0 && '.' !in r.value.1
  {
    var fields := Split(linenum, '.');
    SplitCount(linenum, '.');
    SplitJoin(linenum, '.');
    if |fields| < 2 then Err(IndexError) else Ok((fields[0], fields[1]))
  }

  /** Text splits into two fields or more exactly when it holds the
      separator. */
  lemma SplitCount(s: string, c: char)
    ensures |Split(s, c)| >= 2 <==> c in s
  {
    SplitJoin(s, c);
    if c !in s {
      SplitWithoutSeparator(s, c);
    }
  }

  /** A LINENUM "visit.orbit" gives that visit and that orbit back. */
  lemma VisitOrbitOfLinenum(visit: string, orbit: string)
    requires '.' !in visit && '.' !in orbit
    ensures VisitOrbit(visit + "." + orbit) == Ok((visit, orbit))
  {
    assert Join([visit, orbit], ".") == visit + "." + orbit;
    SplitOfJoin([visit, orbit], '.');
  }

  /** The pointing offsets of the image corners, in degrees. */
  const RefPixelX: real := 420.0
  const RefPixelY: real := 424.5
  const PixelsPerDegree: real := 72000.0

  /** `make_record_dict` up to the set information: the header of a FITS
      file that does not exist cannot be read. */
  function RecordOf(pngFile: string, fitsFile: string, headers: map<string, Header>): (r: Result<MasterImage>)
    ensures r.Ok? <==> (fitsFile in headers && '.' in headers[fitsFile].linenum
      && |Split(PosixPath.Basename(fitsFile), '_')| >= 3)
    ensures fitsFile !in headers ==> r == Err(IOError(fitsFile))
    ensures r.Err? ==> r.error == IOError(fitsFile) || r.error == IndexError
    ensures r.Ok? ==>
      var h := headers[fitsFile];
      && r.value.name == PosixPath.Basename(pngFile)
      && r.value.fitsFile == PosixPath.Basename(fitsFile)
      && r.value.projectId == h.proposid && r.value.objectName == h.targname
      && r.value.width == h.naxis1 && r.value.height == h.naxis2
      && r.value.pixelResolution == 0.05 && r.value.description == h.filtnam1
      && Index(Split(PosixPath.Basename(fitsFile), '_'), -3) == Ok(r.value.drzMode)
      && r.value.visit.Some? && r.value.orbit.Some?
      && VisitOrbit(h.linenum) == Ok((r.value.visit.value, r.value.orbit.value))
      && (r.value.minimumRa - h.raTarg) * PixelsPerDegree == -RefPixelX
      && (r.value.maximumRa - h.raTarg) * PixelsPerDegree == h.naxis1 as real - RefPixelX
      && (r.value.minimumDec - h.decTarg) * PixelsPerDegree == -RefPixelY
      && (r.value.maximumDec - h.decTarg) * PixelsPerDegree == h.naxis2 as real - RefPixelY
      && r.value.setId.None? && r.value.setIndex.None?
  {
    if fitsFile !in headers then Err(IOError(fitsFile))
    else
      var h := headers[fitsFile];
      var fitsName := PosixPath.Basename(fitsFile);
      var (visit, orbit) :- VisitOrbit(h.linenum);
      var drzMode :- Index(Split(fitsName, '_'), -3);
      Ok(MasterImage(
        PosixPath.Basename(pngFile), fitsName, h.proposid, h.targname, h.naxis1, h.naxis2,
        h.raTarg - RefPixelX / PixelsPerDegree, h.decTarg - RefPixelY / PixelsPerDegree,
        h.raTarg + (h.naxis1 as real - RefPixelX) / PixelsPerDegree,
        h.decTarg + (h.naxis2 as real - RefPixelY) / PixelsPerDegree,
        0.05, h.filtnam1, Some(visit), Some(orbit), drzMode, None, None))
  }

  // ---------------------------------------------------------------------------
  // Queries
  // ---------------------------------------------------------------------------

  /** The rows a query's filter keeps, in table order. */
  function Filter(rows: seq<MasterImage>, keep: MasterImage -> bool): (r: seq<MasterImage>)
    ensures |r| <= |rows|
    ensures forall x :: x in r <==> x in rows && keep(x)
    decreases |rows|
  {
    if rows == [] then []
    else
      var last := rows[|rows| - 1];
      Filter(rows[..|rows| - 1], keep) + (if keep(last) then [last] else [])
  }

  /** A filter no row passes gives nothing. */
  lemma {:induction false} FilterNone(rows: seq<MasterImage>, keep: MasterImage -> bool)
    requires forall x :: x in rows ==> !keep(x)
    ensures Filter(rows, keep) == []
    decreases |rows|
  {
    if rows != [] {
      var init := rows[..|rows| - 1];
      assert forall x :: x in init ==> x in rows;
      FilterNone(init, keep);
      assert rows[|rows| - 1] in rows;
    }
  }

  function HasName(name: string): MasterImage -> bool
  {
    (x: MasterImage) => x.name == name
  }

  function NamedWithSet(name: string): MasterImage -> bool
  {
    (x: MasterImage) => x.name == name && x.setIndex.Some?
  }

  function HasSetId(): MasterImage -> bool
  {
    (x: MasterImage) => x.setId.Some?
  }

  /** The proposal, visit and orbit a set groups. */
  function Group(x: MasterImage): (int, Option<string>, Option<string>)
  {
    (x.projectId, x.visit, x.orbit)
  }

  /** The set-matching filter: same proposal, visit and orbit, neither NULL. */
  function SameGroup(rec: MasterImage): MasterImage -> bool
  {
    (x: MasterImage) => x.visit.Some? && x.orbit.Some? && Group(x) == Group(rec)
  }

  /** The largest of some numbers, or NULL for none, as SQL `max` gives. */
  function MaxOf(xs: seq<int>): (m: Option<int>)
    ensures m.None? <==> xs == []
    ensures m.Some? ==> m.value in xs && forall x :: x in xs ==> x <= m.value
    decreases |xs|
  {
    if xs == [] then None
    else
      assert forall x :: x in xs ==> x == xs[0] || x in xs[1..];
      match MaxOf(xs[1..])
      case None => Some(xs[0])
      case Some(m) => Some(if xs[0] < m then m else xs[0])
  }

  /** The non-NULL set ids of some rows. */
  function SetIds(rows: seq<MasterImage>): (ids: seq<int>)
    ensures forall v :: v in ids <==> Some(v) in SetIdColumn(rows)
    decreases |rows|
  {
    if rows == [] then []
    else
      (if rows[0].setId.Some? then [rows[0].setId.value] else []) + SetIds(rows[1..])
  }

  /** The non-NULL set indexes of some rows. */
  function SetIndexes(rows: seq<MasterImage>): (ixs: seq<int>)
    ensures forall v :: v in ixs <==> Some(v) in SetIndexColumn(rows)
    decreases |rows|
  {
    if rows == [] then []
    else
      (if rows[0].setIndex.Some? then [rows[0].setIndex.value] else []) + SetIndexes(rows[1..])
  }

  function SetIdColumn(rows: seq<MasterImage>): (col: seq<Option<int>>)
    ensures |col| == |rows| && forall i :: 0 <= i < |rows| ==> col[i] == rows[i].setId
  {
    seq(|rows|, i requires 0 <= i < |rows| => rows[i].setId)
  }

  function SetIndexColumn(rows: seq<MasterImage>): (col: seq<Option<int>>)
    ensures |col| == |rows| && forall i :: 0 <= i < |rows| ==> col[i] == rows[i].setIndex
  {
    seq(|rows|, i requires 0 <= i < |rows| => rows[i].setIndex)
  }

  lemma SetIdsHold(rows: seq<MasterImage>)
    ensures forall x :: x in rows && x.setId.Some? ==> x.setId.value in SetIds(rows)
  {
    forall x | x in rows && x.setId.Some? ensures x.setId.value in SetIds(rows) {
      var i :| 0 <= i < |rows| && rows[i] == x;
      assert SetIdColumn(rows)[i] == x.setId;
    }
  }

  /** Rows without set ids contribute none. */
  lemma {:induction false} NoSetIds(rows: seq<MasterImage>)
    requires forall x :: x in rows ==> x.setId.None?
    ensures SetIds(rows) == []
    decreases |rows|
  {
    if rows != [] {
      assert rows[0] in rows;
      assert forall x :: x in rows[1..] ==> x in rows;
      NoSetIds(rows[1..]);
    }
  }

  lemma SetIndexesHold(rows: seq<MasterImage>)
    ensures forall x :: x in rows && x.setIndex.Some? ==> x.setIndex.value in SetIndexes(rows)
  {
    forall x | x in rows && x.setIndex.Some? ensures x.setIndex.value in SetIndexes(rows) {
      var i :| 0 <= i < |rows| && rows[i] == x;
      assert SetIndexColumn(rows)[i] == x.setIndex;
    }
  }

  /** The failures of `make_set_info`. */
  predicate SetInfoError(e: Error)
  {
    e == AssertionError("Got too many results.") || e == MultipleResultsFound || e == AttributeError("set_index")
  }

  /** `group_by(set_id).one()` succeeds: the rows share one set id. */
  predicate OneSetId(rows: seq<MasterImage>)
    requires rows != []
  {
    forall x :: x in rows ==> x.setId == rows[0].setId
  }

  // ---------------------------------------------------------------------------
  // make_set_info
  // ---------------------------------------------------------------------------

  /** `make_set_info`: keep the set of a row of the same name that has one;
      otherwise join the set of the images of the same proposal, visit and
      orbit, one index above its highest; otherwise open a new set, numbered
      one above the highest set id in the table. */
  function MakeSetInfo(rows: seq<MasterImage>, rec: MasterImage): (r: Result<MasterImage>)
    ensures r.Ok? ==> r.value == rec.(setId := r.value.setId, setIndex := r.value.setIndex)
    ensures r.Err? ==> SetInfoError(r.error)
  {
    var own := Filter(rows, NamedWithSet(rec.name));
    if |own| > 1 then Err(AssertionError("Got too many results."))
    else if |own| == 1 then Ok(rec.(setId := own[0].setId, setIndex := own[0].setIndex))
    else
      var matches := Filter(rows, SameGroup(rec));
      var withIds := Filter(matches, HasSetId());
      if withIds == [] then Ok(NewSet(MaxOf(SetIds(rows)), rec))
      else JoinSet(withIds, MaxOf(SetIndexes(matches)), rec)
  }

  /** A new set: one above the highest set id `top` in the table, or 1. */
  function NewSet(top: Option<int>, rec: MasterImage): MasterImage
  {
    match top
    case None => rec.(setId := Some(1), setIndex := Some(1))
    case Some(m) => rec.(setId := Some(m + 1), setIndex := Some(1))
  }

  /** Joining the set of a group whose numbered rows are `withIds` and whose
      highest set index is `top`. */
  function JoinSet(withIds: seq<MasterImage>, top: Option<int>, rec: MasterImage): Result<MasterImage>
    requires withIds != []
  {
    if !OneSetId(withIds) then Err(MultipleResultsFound)
    else
      match top
      case None => Err(AttributeError("set_index"))
      case Some(k) => Ok(rec.(setId := withIds[0].setId, setIndex := Some(k + 1)))
  }

  /** A row of the same name that already has a set index keeps its set;
      two such rows fail the assertion. */
  lemma SetInfoKeepsExistingSet(rows: seq<MasterImage>, rec: MasterImage)
    ensures |Filter(rows, NamedWithSet(rec.name))| > 1 ==>
      MakeSetInfo(rows, rec) == Err(AssertionError("Got too many results."))
    ensures |Filter(rows, NamedWithSet(rec.name))| == 1 ==>
      var own := Filter(rows, NamedWithSet(rec.name))[0];
      MakeSetInfo(rows, rec) == Ok(rec.(setId := own.setId, setIndex := own.setIndex))
      && own.name == rec.name && own.setIndex.Some?
  {
    var own := Filter(rows, NamedWithSet(rec.name));
    if |own| == 1 {
      assert own[0] in own;
    }
  }

  /** Every listed set id is some row's. */
  lemma SetIdsFrom(rows: seq<MasterImage>, v: int) returns (x: MasterImage)
    requires v in SetIds(rows)
    ensures x in rows && x.setId == Some(v)
  {
    var i :| 0 <= i < |rows| && SetIdColumn(rows)[i] == Some(v);
    x := rows[i];
  }

  /** Every listed set index is some row's. */
  lemma SetIndexesFrom(rows: seq<MasterImage>, v: int) returns (x: MasterImage)
    requires v in SetIndexes(rows)
    ensures x in rows && x.setIndex == Some(v)
  {
    var i :| 0 <= i < |rows| && SetIndexColumn(rows)[i] == Some(v);
    x := rows[i];
  }

  /** With no set of its own and no numbered image of its group, an image
      opens a new set: index 1, and an id above every id in the table (1 in
      a table without sets). */
  lemma SetInfoOpensNewSet(rows: seq<MasterImage>, rec: MasterImage)
    requires Filter(rows, NamedWithSet(rec.name)) == []
    requires Filter(Filter(rows, SameGroup(rec)), HasSetId()) == []
    ensures MakeSetInfo(rows, rec).Ok?
    ensures MakeSetInfo(rows, rec).value.setIndex == Some(1)
    ensures MakeSetInfo(rows, rec).value.setId.Some?
    ensures forall x :: x in rows && x.setId.Some? ==> x.setId.value < MakeSetInfo(rows, rec).value.setId.value
    ensures (forall x :: x in rows ==> x.setId.None?) ==> MakeSetInfo(rows, rec).value.setId == Some(1)
  {
    SetIdsHold(rows);
    if forall x :: x in rows ==> x.setId.None? {
      NoSetIds(rows);
    }
  }

  /** In a table that has set ids, the new set's id is one more than some
      row's id and above every id: the highest id plus 1. */
  lemma SetInfoNewSetId(rows: seq<MasterImage>, rec: MasterImage)
    requires Filter(rows, NamedWithSet(rec.name)) == []
    requires Filter(Filter(rows, SameGroup(rec)), HasSetId()) == []
    requires exists x :: x in rows && x.setId.Some?
    ensures MakeSetInfo(rows, rec).Ok?
    ensures exists x :: x in rows && x.setId.Some? && MakeSetInfo(rows, rec).value.setId == Some(x.setId.value + 1)
    ensures forall x :: x in rows && x.setId.Some? ==> x.setId.value < MakeSetInfo(rows, rec).value.setId.value
  {
    SetInfoOpensNewSet(rows, rec);
    var y :| y in rows && y.setId.Some?;
    var ids := SetIds(rows);
    assert ids != [] by {
      SetIdsHold(rows);
      assert y.setId.value in ids;
    }
    var m := MaxOf(ids).value;
    var x := SetIdsFrom(rows, m);
    NewSetBranch(rows, rec);
    NewSetIdIs(rows, rec, x, m);
  }

  lemma NewSetBranch(rows: seq<MasterImage>, rec: MasterImage)
    requires Filter(rows, NamedWithSet(rec.name)) == []
    requires Filter(Filter(rows, SameGroup(rec)), HasSetId()) == []
    ensures MakeSetInfo(rows, rec) == Ok(NewSet(MaxOf(SetIds(rows)), rec))
  {
  }

  lemma NewSetIdIs(rows: seq<MasterImage>, rec: MasterImage, x: MasterImage, m: int)
    requires MakeSetInfo(rows, rec) == Ok(NewSet(Some(m), rec))
    requires x.setId == Some(m)
    ensures MakeSetInfo(rows, rec).Ok? && MakeSetInfo(rows, rec).value.setId == Some(x.setId.value + 1)
  {
  }

  /** With no set of its own and a numbered image of its group, an image
      joins that group's set, one index above every index the group holds;
      it fails when the group holds two set ids or no set index. */
  lemma SetInfoJoinsSet(rows: seq<MasterImage>, rec: MasterImage)
    requires Filter(rows, NamedWithSet(rec.name)) == []
    requires Filter(Filter(rows, SameGroup(rec)), HasSetId()) != []
    ensures var withIds := Filter(Filter(rows, SameGroup(rec)), HasSetId());
      !OneSetId(withIds) ==> MakeSetInfo(rows, rec) == Err(MultipleResultsFound)
    ensures MakeSetInfo(rows, rec).Ok? ==>
      && MakeSetInfo(rows, rec).value.setId.Some? && MakeSetInfo(rows, rec).value.setIndex.Some?
      && (exists x :: x in rows && SameGroup(rec)(x) && x.setId.Some? && x.setId == MakeSetInfo(rows, rec).value.setId)
      && forall x :: x in rows && SameGroup(rec)(x) && x.setIndex.Some? ==>
           x.setIndex.value < MakeSetInfo(rows, rec).value.setIndex.value
  {
    var matches := Filter(rows, SameGroup(rec));
    var withIds := Filter(matches, HasSetId());
    SetIndexesHold(matches);
    assert withIds[0] in withIds;
  }

  /** When the group's set ids agree and some image of the group has a set
      index, the image joins: the group's set id, and an index one more than
      some image's index of the group and above every one of them: the
      highest plus 1. */
  lemma SetInfoJoinedIndex(rows: seq<MasterImage>, rec: MasterImage)
    requires Filter(rows, NamedWithSet(rec.name)) == []
    requires Filter(Filter(rows, SameGroup(rec)), HasSetId()) != []
    requires OneSetId(Filter(Filter(rows, SameGroup(rec)), HasSetId()))
    requires exists x :: x in rows && SameGroup(rec)(x) && x.setIndex.Some?
    ensures MakeSetInfo(rows, rec).Ok?
    ensures MakeSetInfo(rows, rec).value.setId == Filter(Filter(rows, SameGroup(rec)), HasSetId())[0].setId
    ensures exists x :: (x in rows && SameGroup(rec)(x) && x.setIndex.Some?
      && MakeSetInfo(rows, rec).value.setIndex == Some(x.setIndex.value + 1))
    ensures forall x :: x in rows && SameGroup(rec)(x) && x.setIndex.Some? ==>
      x.setIndex.value < MakeSetInfo(rows, rec).value.setIndex.value
  {
    SetInfoJoinsSet(rows, rec);
    var matches := Filter(rows, SameGroup(rec));
    var withIds := Filter(matches, HasSetId());
    var y :| y in rows && SameGroup(rec)(y) && y.setIndex.Some?;
    var ixs := SetIndexes(matches);
    assert ixs != [] by {
      assert y in matches;
      SetIndexesHold(matches);
      assert y.setIndex.value in ixs;
    }
    var k := MaxOf(ixs).value;
    var x := SetIndexesFrom(matches, k);
    JoinSetBranch(rows, rec);
    JoinedIndexIs(rows, rec, withIds, x, k);
  }

  lemma JoinSetBranch(rows: seq<MasterImage>, rec: MasterImage)
    requires Filter(rows, NamedWithSet(rec.name)) == []
    requires Filter(Filter(rows, SameGroup(rec)), HasSetId()) != []
    ensures var matches := Filter(rows, SameGroup(rec));
      MakeSetInfo(rows, rec) == JoinSet(Filter(matches, HasSetId()), MaxOf(SetIndexes(matches)), rec)
  {
  }

  lemma JoinedIndexIs(rows: seq<MasterImage>, rec: MasterImage, withIds: seq<MasterImage>, x: MasterImage, k: int)
    requires withIds != [] && OneSetId(withIds)
    requires MakeSetInfo(rows, rec) == JoinSet(withIds, Some(k), rec)
    requires x.setIndex == Some(k)
    ensures MakeSetInfo(rows, rec).Ok?
    ensures MakeSetInfo(rows, rec).value.setId == withIds[0].setId
    ensures MakeSetInfo(rows, rec).value.setIndex == Some(x.setIndex.value + 1)
  {
  }

  /** When the group's set ids agree but no image of the group has a set
      index, reading `.set_index` of the missing row is an AttributeError. */
  lemma SetInfoWithoutIndexFails(rows: seq<MasterImage>, rec: MasterImage)
    requires Filter(rows, NamedWithSet(rec.name)) == []
    requires Filter(Filter(rows, SameGroup(rec)), HasSetId()) != []
    requires OneSetId(Filter(Filter(rows, SameGroup(rec)), HasSetId()))
    requires forall x :: x in rows && SameGroup(rec)(x) ==> x.setIndex.None?
    ensures MakeSetInfo(rows, rec) == Err(AttributeError("set_index"))
  {
    NoSetIndexes(Filter(rows, SameGroup(rec)));
  }

  /** Rows without set indexes contribute none. */
  lemma {:induction false} NoSetIndexes(rows: seq<MasterImage>)
    requires forall x :: x in rows ==> x.setIndex.None?
    ensures SetIndexes(rows) == []
    decreases |rows|
  {
    if rows != [] {
      assert rows[0] in rows;
      assert forall x :: x in rows[1..] ==> x in rows;
      NoSetIndexes(rows[1..]);
    }
  }

  /** `make_record_dict`: the header fields, then the set information. The
      record is the header's, with only its set id and set index filled in;
      a header failure is passed on, and a later failure is one of the set
      lookup's. */
  function MakeRecordDict(rows: seq<MasterImage>, pngFile: string, fitsFile: string, headers: map<string, Header>): (r: Result<MasterImage>)
    ensures var rec := RecordOf(pngFile, fitsFile, headers);
      && (rec.Err? ==> r == Err(rec.error))
      && (rec.Ok? && r.Ok? ==> r.value == rec.value.(setId := r.value.setId, setIndex := r.value.setIndex))
      && (rec.Ok? && r.Err? ==> SetInfoError(r.error))
  {
    var rec :- RecordOf(pngFile, fitsFile, headers);
    MakeSetInfo(rows, rec)
  }

  // ---------------------------------------------------------------------------
  // The table invariants
  // ---------------------------------------------------------------------------

  /** No two rows share a name, the state the "Multiple matches" assertion
      expects. */
  predicate UniqueNames(rows: seq<MasterImage>)
  {
    forall i, j :: 0 <= i < |rows| && 0 <= j < |rows| && rows[i].name == rows[j].name ==> i == j
  }

  function Names(rows: seq<MasterImage>): set<string>
  {
    set x | x in rows :: x.name
  }

  /** A set id and a set index come together, and only on rows with a visit
      and an orbit. */
  predicate SetsWellFormed(rows: seq<MasterImage>)
  {
    forall x :: x in rows ==>
      (x.setId.Some? <==> x.setIndex.Some?) && (x.setId.Some? ==> x.visit.Some? && x.orbit.Some?)
  }

  /** Two numbered rows share a set exactly when they share proposal, visit
      and orbit. */
  predicate SetsGrouped(rows: seq<MasterImage>)
  {
    forall x, y :: x in rows && y in rows && x.setId.Some? && y.setId.Some? ==>
      (x.setId == y.setId <==> Group(x) == Group(y))
  }

  /** No two rows hold the same place in the same set. */
  predicate PairsUnique(rows: seq<MasterImage>)
  {
    forall i, j :: 0 <= i < j < |rows| && rows[i].setId.Some? ==>
      (rows[i].setId, rows[i].setIndex) != (rows[j].setId, rows[j].setIndex)
  }

  predicate SetsConsistent(rows: seq<MasterImage>)
  {
    SetsWellFormed(rows) && SetsGrouped(rows) && PairsUnique(rows)
  }

  /** With unique names, a name query finds at most one row. */
  lemma {:induction false} NamedAtMostOnce(rows: seq<MasterImage>, name: string)
    requires UniqueNames(rows)
    ensures |Filter(rows, HasName(name))| <= 1
    decreases |rows|
  {
    if rows != [] {
      var init := rows[..|rows| - 1];
      var last := rows[|rows| - 1];
      assert UniqueNames(init);
      NamedAtMostOnce(init, name);
      if last.name == name {
        forall x | x in init ensures x.name != name {
          var i :| 0 <= i < |init| && init[i] == x;
          assert rows[i] == x;
        }
        FilterNone(init, HasName(name));
      }
    }
  }

  /** Inserting a new image into a consistent table keeps it consistent, and
      its set information cannot fail: a new set takes an id no row has, and
      a joined set takes an index none of its rows has. */
  lemma InsertKeepsSets(rows: seq<MasterImage>, rec: MasterImage)
    requires SetsConsistent(rows)
    requires rec.visit.Some? && rec.orbit.Some? && Filter(rows, NamedWithSet(rec.name)) == []
    ensures MakeSetInfo(rows, rec).Ok?
    ensures SetsConsistent(rows + [MakeSetInfo(rows, rec).value])
  {
    var withIds := Filter(Filter(rows, SameGroup(rec)), HasSetId());
    if withIds == [] {
      NewSetFits(rows, rec);
    } else {
      JoinedSetFits(rows, rec);
    }
    AppendKeepsSets(rows, MakeSetInfo(rows, rec).value);
  }

  /** A new set is numbered apart from every set in the table. */
  lemma NewSetFits(rows: seq<MasterImage>, rec: MasterImage)
    requires SetsConsistent(rows)
    requires rec.visit.Some? && rec.orbit.Some? && Filter(rows, NamedWithSet(rec.name)) == []
    requires Filter(Filter(rows, SameGroup(rec)), HasSetId()) == []
    ensures MakeSetInfo(rows, rec).Ok?
    ensures Fits(rows, MakeSetInfo(rows, rec).value)
  {
    SetInfoOpensNewSet(rows, rec);
    var r := MakeSetInfo(rows, rec).value;
    assert Group(r) == Group(rec);
  }

  /** A joined set is the one set of the image's group, and the new index
      is above every index that set holds. */
  lemma JoinedSetFits(rows: seq<MasterImage>, rec: MasterImage)
    requires SetsConsistent(rows)
    requires rec.visit.Some? && rec.orbit.Some? && Filter(rows, NamedWithSet(rec.name)) == []
    requires Filter(Filter(rows, SameGroup(rec)), HasSetId()) != []
    ensures MakeSetInfo(rows, rec).Ok?
    ensures Fits(rows, MakeSetInfo(rows, rec).value)
  {
    var matches := Filter(rows, SameGroup(rec));
    var withIds := Filter(matches, HasSetId());
    assert withIds[0] in withIds;
    forall x | x in withIds ensures x.setId == withIds[0].setId {
      assert Group(x) == Group(rec) == Group(withIds[0]);
    }
    assert OneSetId(withIds);
    SetIndexesHold(matches);
    assert withIds[0].setIndex.value in SetIndexes(matches);
    SetInfoJoinsSet(rows, rec);
    var r := MakeSetInfo(rows, rec).value;
    assert Group(r) == Group(rec);
    var y :| y in rows && SameGroup(rec)(y) && y.setId.Some? && y.setId == r.setId;
    forall x | x in rows && x.setId.Some? && x.setId == r.setId
      ensures Group(x) == Group(r) && x.setIndex.value < r.setIndex.value
    {
      assert x.setId == y.setId;
      assert x in matches;
    }
  }

  /** A row that may join a consistent table: well formed, sharing a set id
      exactly with the rows of its group, and at a place no row holds. */
  predicate Fits(rows: seq<MasterImage>, r: MasterImage)
  {
    && r.setId.Some? && r.setIndex.Some? && r.visit.Some? && r.orbit.Some?
    && (forall x :: x in rows && x.setId.Some? ==> (x.setId == r.setId <==> Group(x) == Group(r)))
    && (forall x :: x in rows && x.setId == r.setId ==> x.setIndex != r.setIndex)
  }

  lemma AppendKeepsSets(rows: seq<MasterImage>, r: MasterImage)
    requires SetsConsistent(rows) && Fits(rows, r)
    ensures SetsConsistent(rows + [r])
  {
    var all := rows + [r];
    assert forall x :: x in all <==> x in rows || x == r;
    forall i, j | 0 <= i < j < |all| && all[i].setId.Some?
      ensures (all[i].setId, all[i].setIndex) != (all[j].setId, all[j].setIndex)
    {
      if j == |rows| {
        assert all[i] in rows;
      }
    }
  }

  // ---------------------------------------------------------------------------
  // build_master_images_table_main
  // ---------------------------------------------------------------------------

  /** The state of the table after a run, with how the run ended. */
  datatype Outcome = Outcome(result: Result<()>, rows: seq<MasterImage>)

  /** `query.update(record_dict)` on the rows of one name. */
  function UpdateNamed(rows: seq<MasterImage>, name: string, rec: MasterImage): (r: seq<MasterImage>)
    ensures |r| == |rows|
    ensures forall i :: 0 <= i < |rows| ==> r[i] == if rows[i].name == name then rec else rows[i]
  {
    seq(|rows|, i requires 0 <= i < |rows| => if rows[i].name == name then rec else rows[i])
  }

  /** The `reproc_sets` statement: every row with a set index loses its set
      id and set index. */
  function ClearSets(rows: seq<MasterImage>): (r: seq<MasterImage>)
    ensures |r| == |rows|
    ensures forall i :: 0 <= i < |rows| ==> (r[i].setIndex.None?
      && r[i] == rows[i].(setId := r[i].setId, setIndex := None)
      && r[i].setId == (if rows[i].setIndex.Some? then None else rows[i].setId))
  {
    seq(|rows|, i requires 0 <= i < |rows| =>
      if rows[i].setIndex.Some? then rows[i].(setId := None, setIndex := None) else rows[i])
  }

  /** One PNG of the loop: insert it when no row has its name, update that
      row when reprocessing, and fail when several rows have it. */
  function Step(rows: seq<MasterImage>, pngFile: string, reproc: bool, headers: map<string, Header>): (o: Outcome)
    ensures o.result.Err? ==> o.rows == rows
    ensures |rows| <= |o.rows| <= |rows| + 1
  {
    match GetFitsFile(pngFile)
    case Err(e) => Outcome(Err(e), rows)
    case Ok(fitsFile) =>
      Apply(rows, PosixPath.Basename(pngFile), MakeRecordDict(rows, pngFile, fitsFile, headers), reproc)
  }

  /** The write for a PNG of a given name once its FITS file is known, with
      the record `make_record_dict` builds for it (used only when written). */
  function Apply(rows: seq<MasterImage>, name: string, rec: Result<MasterImage>, reproc: bool): (o: Outcome)
    ensures o.result.Err? ==> o.rows == rows
    ensures |rows| <= |o.rows| <= |rows| + 1
  {
    var same := Filter(rows, HasName(name));
    if |same| > 1 then Outcome(Err(AssertionError("Multiple matches for " + name)), rows)
    else if |same| == 0 then
      match rec
      case Err(e) => Outcome(Err(e), rows)
      case Ok(r) => Outcome(Ok(()), rows + [r])
    else if reproc then
      match rec
      case Err(e) => Outcome(Err(e), rows)
      case Ok(r) => Outcome(Ok(()), UpdateNamed(rows, name, r))
    else Outcome(Ok(()), rows)
  }

  lemma StepCases(rows: seq<MasterImage>, pngFile: string, reproc: bool, headers: map<string, Header>)
    ensures GetFitsFile(pngFile).Err? ==>
      Step(rows, pngFile, reproc, headers) == Outcome(Err(GetFitsFile(pngFile).error), rows)
    ensures GetFitsFile(pngFile).Ok? ==>
      Step(rows, pngFile, reproc, headers) ==
        Apply(rows, PosixPath.Basename(pngFile), MakeRecordDict(rows, pngFile, GetFitsFile(pngFile).value, headers), reproc)
  {
  }

  /** The loop over the PNG list; each write is committed at once, so rows
      written before a failure stay. */
  function Run(rows: seq<MasterImage>, pngFiles: seq<string>, reproc: bool, headers: map<string, Header>): (o: Outcome)
    ensures |rows| <= |o.rows| <= |rows| + |pngFiles|
    decreases |pngFiles|
  {
    if pngFiles == [] then Outcome(Ok(()), rows)
    else
      var o := Step(rows, pngFiles[0], reproc, headers);
      if o.result.Err? then o else Run(o.rows, pngFiles[1..], reproc, headers)
  }

  lemma RunFirst(rows: seq<MasterImage>, pngFiles: seq<string>, reproc: bool, headers: map<string, Header>)
    requires pngFiles != []
    ensures Step(rows, pngFiles[0], reproc, headers).result.Err? ==>
      Run(rows, pngFiles, reproc, headers) == Step(rows, pngFiles[0], reproc, headers)
    ensures Step(rows, pngFiles[0], reproc, headers).result.Ok? ==>
      Run(rows, pngFiles, reproc, headers) == Run(Step(rows, pngFiles[0], reproc, headers).rows, pngFiles[1..], reproc, headers)
  {
  }

  /** `build_master_images_table_main`: `reproc_sets` clears the sets first
      and implies `reproc`. */
  function Main(rows: seq<MasterImage>, pngFiles: seq<string>, reproc: bool, reprocSets: bool,
                headers: map<string, Header>): (o: Outcome)
    ensures |rows| <= |o.rows| <= |rows| + |pngFiles|
  {
    if reprocSets then Run(ClearSets(rows), pngFiles, true, headers)
    else Run(rows, pngFiles, reproc, headers)
  }

  // ---------------------------------------------------------------------------
  // What the loop keeps
  // ---------------------------------------------------------------------------

  /** The failure of the duplicate-name assertion of the loop. */
  predicate MultipleMatches(e: Error)
  {
    e.AssertionError? && StartsWith(e.message, "Multiple matches for ")
  }

  /** The failures of `get_fits_file` and of reading the header are neither
      the duplicate-name failure nor a failure of `make_set_info`. */
  lemma FileErrorsAreOwn(pngFile: string, fitsFile: string, headers: map<string, Header>)
    ensures GetFitsFile(pngFile).Err? ==>
      !MultipleMatches(GetFitsFile(pngFile).error) && !SetInfoError(GetFitsFile(pngFile).error)
    ensures RecordOf(pngFile, fitsFile, headers).Err? ==>
      !MultipleMatches(RecordOf(pngFile, fitsFile, headers).error)
      && !SetInfoError(RecordOf(pngFile, fitsFile, headers).error)
  {
    var g := GetFitsFile(pngFile);
    if g.Err? {
      var m := g.error.message;
      assert m[0] == 'p' || m[0] == 'e';
      assert "Multiple matches for "[0] == 'M' && "Got too many results."[0] == 'G';
    }
  }

  /** The failures of `make_set_info` are not the duplicate-name failure. */
  lemma SetInfoErrorsAreOwn(e: Error)
    requires SetInfoError(e)
    ensures !MultipleMatches(e)
  {
    if e.AssertionError? {
      assert e.message[0] == 'G';
    }
  }

  /** A name that no row has is not found by the name query. */
  lemma NameAbsent(rows: seq<MasterImage>, name: string)
    requires Filter(rows, HasName(name)) == []
    ensures name !in Names(rows)
    ensures Filter(rows, NamedWithSet(name)) == []
  {
    FilterNone(rows, NamedWithSet(name));
  }

  /** A record built for a PNG carries the PNG's file name. */
  lemma RecordNamed(rows: seq<MasterImage>, pngFile: string, fitsFile: string, headers: map<string, Header>)
    ensures MakeRecordDict(rows, pngFile, fitsFile, headers).Ok? ==>
      MakeRecordDict(rows, pngFile, fitsFile, headers).value.name == PosixPath.Basename(pngFile)
    ensures MakeRecordDict(rows, pngFile, fitsFile, headers).Err? ==>
      !MultipleMatches(MakeRecordDict(rows, pngFile, fitsFile, headers).error)
  {
    FileErrorsAreOwn(pngFile, fitsFile, headers);
    var rec := RecordOf(pngFile, fitsFile, headers);
    if rec.Ok? && MakeSetInfo(rows, rec.value).Err? {
      SetInfoErrorsAreOwn(MakeSetInfo(rows, rec.value).error);
    }
  }

  /** One step keeps names unique, drops no name, records the PNG when it
      succeeds, and never fails the duplicate-name assertion. */
  lemma StepKeepsNames(rows: seq<MasterImage>, pngFile: string, reproc: bool, headers: map<string, Header>)
    requires UniqueNames(rows)
    ensures UniqueNames(Step(rows, pngFile, reproc, headers).rows)
    ensures Names(rows) <= Names(Step(rows, pngFile, reproc, headers).rows)
    ensures Step(rows, pngFile, reproc, headers).result.Ok? ==>
      PosixPath.Basename(pngFile) in Names(Step(rows, pngFile, reproc, headers).rows)
    ensures Step(rows, pngFile, reproc, headers).result.Err? ==>
      !MultipleMatches(Step(rows, pngFile, reproc, headers).result.error)
  {
    var g := GetFitsFile(pngFile);
    FileErrorsAreOwn(pngFile, "", headers);
    if g.Ok? {
      RecordNamed(rows, pngFile, g.value, headers);
      ApplyKeepsNames(rows, PosixPath.Basename(pngFile), MakeRecordDict(rows, pngFile, g.value, headers), reproc);
    }
  }

  lemma ApplyKeepsNames(rows: seq<MasterImage>, name: string, rec: Result<MasterImage>, reproc: bool)
    requires UniqueNames(rows)
    requires rec.Ok? ==> rec.value.name == name
    requires rec.Err? ==> !MultipleMatches(rec.error)
    ensures UniqueNames(Apply(rows, name, rec, reproc).rows)
    ensures Names(rows) <= Names(Apply(rows, name, rec, reproc).rows)
    ensures Apply(rows, name, rec, reproc).result.Ok? ==> name in Names(Apply(rows, name, rec, reproc).rows)
    ensures Apply(rows, name, rec, reproc).result.Err? ==> !MultipleMatches(Apply(rows, name, rec, reproc).result.error)
  {
    NamedAtMostOnce(rows, name);
    var same := Filter(rows, HasName(name));
    if |same| == 0 && rec.Ok? {
      NameAbsent(rows, name);
      AppendNewName(rows, rec.value);
    } else if |same| == 1 {
      assert same[0] in same;
      if reproc && rec.Ok? {
        UpdateKeepsNames(rows, name, rec.value);
      }
    }
  }

  lemma AppendNewName(rows: seq<MasterImage>, r: MasterImage)
    requires UniqueNames(rows) && r.name !in Names(rows)
    ensures UniqueNames(rows + [r])
    ensures Names(rows + [r]) == Names(rows) + {r.name}
  {
    var after := rows + [r];
    assert forall x :: x in after <==> x in rows || x == r;
    forall i, j | 0 <= i < |after| && 0 <= j < |after| && after[i].name == after[j].name
      ensures i == j
    {
      if i < |rows| { assert after[i] in rows; }
      if j < |rows| { assert after[j] in rows; }
    }
  }

  lemma UpdateKeepsNames(rows: seq<MasterImage>, name: string, r: MasterImage)
    requires UniqueNames(rows) && r.name == name
    ensures UniqueNames(UpdateNamed(rows, name, r))
    ensures Names(UpdateNamed(rows, name, r)) == Names(rows)
  {
    var after := UpdateNamed(rows, name, r);
    assert forall i :: 0 <= i < |rows| ==> after[i].name == rows[i].name;
    forall n | n in Names(rows) ensures n in Names(after) {
      var i :| 0 <= i < |rows| && rows[i].name == n;
      assert after[i] in after;
    }
    forall n | n in Names(after) ensures n in Names(rows) {
      var i :| 0 <= i < |after| && after[i].name == n;
      assert rows[i] in rows;
    }
  }

  /** Over a whole run: names stay unique and none is dropped, every PNG of
      a successful run has its row, and the duplicate-name assertion never
      fails when the table starts with unique names. */
  lemma {:induction false} RunKeepsNames(rows: seq<MasterImage>, pngFiles: seq<string>, reproc: bool, headers: map<string, Header>)
    requires UniqueNames(rows)
    ensures UniqueNames(Run(rows, pngFiles, reproc, headers).rows)
    ensures Names(rows) <= Names(Run(rows, pngFiles, reproc, headers).rows)
    ensures Run(rows, pngFiles, reproc, headers).result.Ok? ==>
      forall k :: 0 <= k < |pngFiles| ==>
        PosixPath.Basename(pngFiles[k]) in Names(Run(rows, pngFiles, reproc, headers).rows)
    ensures Run(rows, pngFiles, reproc, headers).result.Err? ==>
      !MultipleMatches(Run(rows, pngFiles, reproc, headers).result.error)
    decreases |pngFiles|
  {
    if pngFiles != [] {
      var o := Step(rows, pngFiles[0], reproc, headers);
      StepKeepsNames(rows, pngFiles[0], reproc, headers);
      RunFirst(rows, pngFiles, reproc, headers);
      if o.result.Ok? {
        var tail := pngFiles[1..];
        RunKeepsNames(o.rows, tail, reproc, headers);
        var out := Run(o.rows, tail, reproc, headers);
        assert Run(rows, pngFiles, reproc, headers) == out;
        if out.result.Ok? {
          forall k | 0 <= k < |pngFiles| ensures PosixPath.Basename(pngFiles[k]) in Names(out.rows) {
            if k > 0 {
              assert pngFiles[k] == tail[k - 1];
            }
          }
        }
      }
    }
  }

  /** A run is its first `j` PNGs followed, when they succeed, by the rest. */
  lemma {:induction false} RunSplit(rows: seq<MasterImage>, pngFiles: seq<string>, j: nat, reproc: bool, headers: map<string, Header>)
    requires j <= |pngFiles|
    ensures var p := Run(rows, pngFiles[..j], reproc, headers);
      Run(rows, pngFiles, reproc, headers) == if p.result.Err? then p else Run(p.rows, pngFiles[j..], reproc, headers)
    decreases j
  {
    if j == 0 {
      assert pngFiles[..0] == [];
      assert pngFiles[0..] == pngFiles;
    } else {
      var head := pngFiles[..j];
      var o := Step(rows, pngFiles[0], reproc, headers);
      assert head[0] == pngFiles[0];
      RunFirst(rows, pngFiles, reproc, headers);
      RunFirst(rows, head, reproc, headers);
      if o.result.Ok? {
        var tail := pngFiles[1..];
        assert tail[..j - 1] == head[1..];
        assert tail[j - 1..] == pngFiles[j..];
        RunSplit(o.rows, tail, j - 1, reproc, headers);
        assert Run(rows, head, reproc, headers) == Run(o.rows, tail[..j - 1], reproc, headers);
      } else {
        assert Run(rows, head, reproc, headers) == o;
      }
    }
  }

  /** Whatever happens later in a run, the PNGs of a prefix that succeeded
      keep their rows: when a run fails at PNG `j`, the PNGs before it are
      in the table. */
  lemma RunKeepsPrefixNames(rows: seq<MasterImage>, pngFiles: seq<string>, j: nat, reproc: bool, headers: map<string, Header>)
    requires UniqueNames(rows)
    requires j <= |pngFiles|
    requires Run(rows, pngFiles[..j], reproc, headers).result.Ok?
    ensures forall k :: 0 <= k < j ==>
      PosixPath.Basename(pngFiles[k]) in Names(Run(rows, pngFiles, reproc, headers).rows)
  {
    var p := Run(rows, pngFiles[..j], reproc, headers);
    RunSplit(rows, pngFiles, j, reproc, headers);
    RunKeepsNames(rows, pngFiles[..j], reproc, headers);
    RunKeepsNames(p.rows, pngFiles[j..], reproc, headers);
    forall k | 0 <= k < j
      ensures PosixPath.Basename(pngFiles[k]) in Names(Run(rows, pngFiles, reproc, headers).rows)
    {
      assert pngFiles[..j][k] == pngFiles[k];
    }
  }

  /** Without reprocessing, a run only appends: the rows already in the
      table are left as they were. */
  lemma {:induction false} RunWithoutReprocAppends(rows: seq<MasterImage>, pngFiles: seq<string>, headers: map<string, Header>)
    ensures |rows| <= |Run(rows, pngFiles, false, headers).rows|
    ensures Run(rows, pngFiles, false, headers).rows[..|rows|] == rows
    decreases |pngFiles|
  {
    if pngFiles != [] {
      var o := Step(rows, pngFiles[0], false, headers);
      StepWithoutReprocAppends(rows, pngFiles[0], headers);
      if o.result.Ok? {
        RunWithoutReprocAppends(o.rows, pngFiles[1..], headers);
        var r := Run(o.rows, pngFiles[1..], false, headers).rows;
        assert Run(rows, pngFiles, false, headers).rows == r;
        PrefixOfPrefix(rows, o.rows, r);
      }
    }
  }

  lemma PrefixOfPrefix(a: seq<MasterImage>, b: seq<MasterImage>, c: seq<MasterImage>)
    requires |a| <= |b| <= |c| && b[..|a|] == a && c[..|b|] == b
    ensures c[..|a|] == a
  {
    assert c[..|a|] == c[..|b|][..|a|];
  }

  lemma StepWithoutReprocAppends(rows: seq<MasterImage>, pngFile: string, headers: map<string, Header>)
    ensures |rows| <= |Step(rows, pngFile, false, headers).rows|
    ensures Step(rows, pngFile, false, headers).rows[..|rows|] == rows
  {
    var g := GetFitsFile(pngFile);
    if g.Ok? {
      ApplyWithoutReprocAppends(rows, PosixPath.Basename(pngFile), MakeRecordDict(rows, pngFile, g.value, headers));
    }
  }

  lemma ApplyWithoutReprocAppends(rows: seq<MasterImage>, name: string, rec: Result<MasterImage>)
    ensures |rows| <= |Apply(rows, name, rec, false).rows|
    ensures Apply(rows, name, rec, false).rows[..|rows|] == rows
  {
  }

  /** Without reprocessing, a consistent table stays consistent, and the set
      information of every new image succeeds: a run can only fail on a PNG
      name, a missing header, a LINENUM or a FITS name. */
  lemma {:induction false} RunWithoutReprocKeepsSets(rows: seq<MasterImage>, pngFiles: seq<string>, headers: map<string, Header>)
    requires SetsConsistent(rows)
    ensures SetsConsistent(Run(rows, pngFiles, false, headers).rows)
    ensures Run(rows, pngFiles, false, headers).result.Err? ==>
      !SetInfoError(Run(rows, pngFiles, false, headers).result.error)
    decreases |pngFiles|
  {
    if pngFiles != [] {
      StepWithoutReprocKeepsSets(rows, pngFiles[0], headers);
      var o := Step(rows, pngFiles[0], false, headers);
      if o.result.Ok? {
        RunWithoutReprocKeepsSets(o.rows, pngFiles[1..], headers);
      }
    }
  }

  lemma StepWithoutReprocKeepsSets(rows: seq<MasterImage>, pngFile: string, headers: map<string, Header>)
    requires SetsConsistent(rows)
    ensures SetsConsistent(Step(rows, pngFile, false, headers).rows)
    ensures Step(rows, pngFile, false, headers).result.Err? ==>
      !SetInfoError(Step(rows, pngFile, false, headers).result.error)
  {
    var g := GetFitsFile(pngFile);
    FileErrorsAreOwn(pngFile, "", headers);
    if g.Ok? {
      var name := PosixPath.Basename(pngFile);
      var rec := MakeRecordDict(rows, pngFile, g.value, headers);
      if Filter(rows, HasName(name)) == [] {
        NameAbsent(rows, name);
        RecordInsertKeepsSets(rows, pngFile, g.value, headers);
      }
      ApplyWithoutReprocKeepsSets(rows, name, rec);
    }
  }

  lemma RecordInsertKeepsSets(rows: seq<MasterImage>, pngFile: string, fitsFile: string, headers: map<string, Header>)
    requires SetsConsistent(rows)
    requires Filter(rows, NamedWithSet(PosixPath.Basename(pngFile))) == []
    ensures MakeRecordDict(rows, pngFile, fitsFile, headers).Ok? ==>
      SetsConsistent(rows + [MakeRecordDict(rows, pngFile, fitsFile, headers).value])
    ensures MakeRecordDict(rows, pngFile, fitsFile, headers).Err? ==>
      !SetInfoError(MakeRecordDict(rows, pngFile, fitsFile, headers).error)
  {
    FileErrorsAreOwn(pngFile, fitsFile, headers);
    var rec := RecordOf(pngFile, fitsFile, headers);
    if rec.Ok? {
      InsertKeepsSets(rows, rec.value);
    }
  }

  lemma ApplyWithoutReprocKeepsSets(rows: seq<MasterImage>, name: string, rec: Result<MasterImage>)
    requires SetsConsistent(rows)
    requires Filter(rows, HasName(name)) == [] && rec.Ok? ==> SetsConsistent(rows + [rec.value])
    requires Filter(rows, HasName(name)) == [] && rec.Err? ==> !SetInfoError(rec.error)
    ensures SetsConsistent(Apply(rows, name, rec, false).rows)
    ensures Apply(rows, name, rec, false).result.Err? ==> !SetInfoError(Apply(rows, name, rec, false).result.error)
  {
    assert ("Multiple matches for " + name)[0] == 'M' && "Got too many results."[0] == 'G';
  }

  /** After `reproc_sets` clears them, no row of a well-formed table has a
      set, so the table is consistent and every image is numbered afresh. */
  lemma ClearSetsLeavesNoSets(rows: seq<MasterImage>)
    requires SetsWellFormed(rows)
    ensures forall x :: x in ClearSets(rows) ==> x.setId.None? && x.setIndex.None?
    ensures SetsConsistent(ClearSets(rows))
    ensures Names(ClearSets(rows)) == Names(rows)
  {
    var c := ClearSets(rows);
    forall x | x in c ensures x.setId.None? {
      var i :| 0 <= i < |c| && c[i] == x;
      assert rows[i] in rows;
    }
    forall n | n in Names(rows) ensures n in Names(c) {
      var i :| 0 <= i < |rows| && rows[i].name == n;
      assert c[i] in c;
    }
    forall n | n in Names(c) ensures n in Names(rows) {
      var i :| 0 <= i < |c| && c[i].name == n;
      assert rows[i] in rows;
    }
  }

  // ---------------------------------------------------------------------------
  // The table
  // ---------------------------------------------------------------------------

  class MasterImagesTable {
    var rows: seq<MasterImage>

    constructor(initial: seq<MasterImage>)
      ensures rows == initial
    {
      rows := initial;
    }

    /** `build_master_images_table_main` over a list of PNG files, with the
        FITS headers the files would be read for. */
    method BuildMasterImagesTableMain(pngFiles: seq<string>, reproc: bool, reprocSets: bool,
                                      headers: map<string, Header>) returns (r: Result<()>)
      modifies this
      ensures Outcome(r, rows) == Main(old(rows), pngFiles, reproc, reprocSets, headers)
    {
      if reprocSets {
        rows := ClearSets(rows);
        r := AddPngs(pngFiles, true, headers);
      } else {
        r := AddPngs(pngFiles, reproc, headers);
      }
    }

    /** The loop of `build_master_images_table_main`, which stops at the
        first failure. */
    method AddPngs(pngFiles: seq<string>, reprocess: bool, headers: map<string, Header>) returns (r: Result<()>)
      modifies this
      ensures Outcome(r, rows) == Run(old(rows), pngFiles, reprocess, headers)
    {
      ghost var goal := Run(rows, pngFiles, reprocess, headers);
      var rest := pngFiles;
      while rest != []
        invariant goal == Run(rows, rest, reprocess, headers)
        decreases |rest|
      {
        RunFirst(rows, rest, reprocess, headers);
        r := AddPng(rest[0], reprocess, headers);
        if r.Err? {
          return;
        }
        rest := rest[1..];
      }
      return Ok(());
    }

    /** The body of the loop for one PNG file. */
    method AddPng(pngFile: string, reprocess: bool, headers: map<string, Header>) returns (r: Result<()>)
      modifies this
      ensures Outcome(r, rows) == Step(old(rows), pngFile, reprocess, headers)
    {
      var fitsFile := GetFitsFile(pngFile);
      StepCases(rows, pngFile, reprocess, headers);
      if fitsFile.Err? {
        return Err(fitsFile.error);
      }
      var name := PosixPath.Basename(pngFile);
      var same := Filter(rows, HasName(name));
      if |same| > 1 {
        return Err(AssertionError("Multiple matches for " + name));
      }
      if |same| == 0 || reprocess {
        var rec := MakeRecordDict(rows, pngFile, fitsFile.value, headers);
        if rec.Err? {
          return Err(rec.error);
        }
        if |same| == 0 {
          rows := rows + [rec.value];
        } else {
          rows := UpdateNamed(rows, name, rec.value);
        }
      }
      return Ok(());
    }
  }
}
