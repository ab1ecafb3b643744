/** The master finders builder: each moon's JPL right ascension and
    declination is turned into a full-frame pixel position using the
    reference pixel and reference sky position of its image's FITS header,
    and the truncated position is written to the moon's row. Header values
    are exact reals here; the header itself is a map from path to values. */
module MasterFinders {
  import opened Wrappers
  import opened PyStr
  import PosixPath
  import opened Coords

  /** 3600 arcseconds a degree over 0.05 arcseconds a pixel. */
  const PixelsPerDegree: real := 3600.0 / 0.05

  /** Python's `int()` of a float: truncation toward zero. */
  function Trunc(r: real): (n: int)
    ensures AbsInt(n) as real <= Abs(r) < AbsInt(n) as real + 1.0
    ensures n == 0 || (n > 0 <==> r > 0.0)
  {
    if r >= 0.0 then r.Floor else -((-r).Floor)
  }

  /** The header keywords `get_header_info` reads. */
  datatype Header = Header(
    targname: string, raTarg: real, decTarg: real,
    crval1: real, crval2: real, crpix1: real, crpix2: real)

  datatype MasterFinder = MasterFinder(
    id: int, objectName: string, masterImagesId: int,
    jplRa: Option<string>, jplDec: Option<string>,
    ephemX: Option<int>, ephemY: Option<int>)

  datatype MasterImage = MasterImage(id: int, fileLocation: string, fitsFile: string)

  // ---------------------------------------------------------------------------
  // The planet list and the header check
  // ---------------------------------------------------------------------------

  const BuiltinTargets: seq<string> := ["jup-", "gany-", "sat-", "copernicus", "gan-", "io-"]

  /** The entries `get_planets_moons` adds for the lines of the planets and
      moons file: the second space-separated field of every line with more
      than three fields. */
  function ListedNames(lines: seq<string>): (names: seq<string>)
    ensures |names| <= |lines|
  {
    if lines == [] then []
    else
      ListedNames(lines[..|lines| - 1])
      + (var obj := Split(lines[|lines| - 1], ' '); if |obj| > 3 then [obj[1]] else [])
  }

  /** `get_planets_moons` over the lines of the file. */
  method GetPlanetsMoons(lines: seq<string>) returns (planets: seq<string>)
    ensures planets == BuiltinTargets + ListedNames(lines)
  {
    planets := BuiltinTargets;
    var i := 0;
    while i < |lines|
      invariant 0 <= i <= |lines|
      invariant planets == BuiltinTargets + ListedNames(lines[..i])
    {
      assert lines[..i + 1][..i] == lines[..i];
      var obj := Split(lines[i], ' ');
      if |obj| > 3 {
        planets := planets + [obj[1]];
      }
      i := i + 1;
    }
    assert lines[..i] == lines;
  }

  /** Whether some planet-list entry occurs in the target name. */
  predicate KnownTarget(targname: string, planets: seq<string>)
  {
    exists i :: 0 <= i < |planets| && Contains(targname, planets[i])
  }

  /** The loop of `get_header_info` that sets `status`. */
  method TargetStatus(targname: string, planets: seq<string>) returns (status: bool)
    ensures status <==> KnownTarget(targname, planets)
  {
    status := false;
    var i := 0;
    while i < |planets|
      invariant 0 <= i <= |planets|
      invariant status <==> exists j :: 0 <= j < i && Contains(targname, planets[j])
    {
      if Contains(targname, planets[i]) {
        status := true;
      }
      i := i + 1;
    }
  }

  /** `header['targname'].lower().split('-')[0]`. */
  function TargetName(raw: string): (t: string)
    ensures '-' !in t
    ensures StartsWith(Lower(raw), t)
  {
    var parts := Split(Lower(raw), '-');
    SplitJoin(Lower(raw), '-');
    assert Join(parts, "-") == Lower(raw);
    JoinStartsWithFirst(parts, "-");
    parts[0]
  }

  lemma {:induction false} JoinStartsWithFirst(parts: seq<string>, sep: string)
    requires |parts| >= 1
    ensures StartsWith(Join(parts, sep), parts[0])
    decreases |parts|
  {
    if |parts| > 1 {
      JoinStartsWithFirst(parts[1..], sep);
    }
  }

  /** The target name has no '-' after the split, so a list entry holding a
      '-' (such as the built-in "jup-" or "io-") never matches any header. */
  lemma DashedEntriesNeverMatch(raw: string, entry: string)
    requires '-' in entry
    ensures !Contains(TargetName(raw), entry)
  {
    var t := TargetName(raw);
    var k :| 0 <= k < |entry| && entry[k] == '-';
    forall i
      ensures !OccursAt(t, entry, i)
    {
      if 0 <= i <= |t| - |entry| {
        assert t[i..i + |entry|][k] == t[i + k];
      }
    }
    ContainsIsSubstring(t, entry);
  }

  /** `get_header_info`: the file must have the `.fits` extension and
      exist, and the header's target name must contain a planet-list entry.
      The result keeps every header value and the reduced target name. */
  function GetHeaderInfo(filename: string, headers: map<string, Header>, planets: seq<string>): (r: Result<Header>)
    ensures r.Ok? <==>
      PosixPath.Splitext(filename).1 == ".fits" && filename in headers
      && KnownTarget(TargetName(headers[filename].targname), planets)
    ensures PosixPath.Splitext(filename).1 != ".fits" ==> r.Err? && r.error.AssertionError?
    ensures r.Ok? ==> r.value == headers[filename].(targname := TargetName(headers[filename].targname))
  {
    if PosixPath.Splitext(filename).1 != ".fits" then Err(AssertionError("Expected .fits got " + filename))
    else if filename !in headers then Err(IOError(filename))
    else
      var h := headers[filename];
      var output := h.(targname := TargetName(h.targname));
      if !KnownTarget(output.targname, planets) then Err(AssertionError("Header TARGNAME not in planet_list"))
      else Ok(output)
  }

  // ---------------------------------------------------------------------------
  // Sky to pixel
  // ---------------------------------------------------------------------------

  /** `calc_delta`: the JPL position "ra dec" read as an `Hmsdms`, the
      reference position checked as `Degrees`, and their difference in
      pixels, with the sign of the right ascension switched because it grows
      to the left. A missing coordinate fails the string concatenation. */
  function CalcDelta(fileDict: Header, record: MasterFinder): (r: Result<(real, real)>)
    ensures r.Ok? <==>
      record.jplRa.Some? && record.jplDec.Some?
      && ParseHmsdms(record.jplRa.value + " " + record.jplDec.value).Ok?
      && LongitudeInRange(fileDict.crval1) && LatitudeInRange(fileDict.crval2)
    ensures record.jplRa.None? || record.jplDec.None? ==> r.Err? && r.error.TypeError?
  {
    if record.jplRa.None? || record.jplDec.None? then
      Err(TypeError("cannot concatenate 'str' and 'NoneType' objects"))
    else
      var jplPos :- ParseHmsdms(record.jplRa.value + " " + record.jplDec.value);
      var jpl := CalcInternal(jplPos);
      var refpic :- MakeDegrees(fileDict.crval1, fileDict.crval2);
      var ref := DegreesInternal(refpic);
      Ok((-1.0 * (jpl.0 - ref.0) * PixelsPerDegree, (jpl.1 - ref.1) * PixelsPerDegree))
  }

  /** `calc_pixel_position`: the reference pixel moved by the delta. */
  function CalcPixelPosition(fileDict: Header, delta: (real, real)): (p: (real, real))
    ensures p.0 - fileDict.crpix1 == delta.0 && p.1 - fileDict.crpix2 == delta.1
  {
    (fileDict.crpix1 + delta.0, fileDict.crpix2 + delta.1)
  }

  /** The JPL position in decimal degrees, when it parses. */
  function JplDegrees(record: MasterFinder): Option<(real, real)>
  {
    if record.jplRa.None? || record.jplDec.None? then None
    else match ParseHmsdms(record.jplRa.value + " " + record.jplDec.value)
      case Err(_) => None
      case Ok(c) => Some(CalcInternal(c))
  }

  /** The pixel position inverts to the sky: the JPL position is the
      reference position moved by the pixel offset at 72000 pixels a degree,
      the right ascension the opposite way to x. Positions equal to the
      reference land on the reference pixel, and one degree east of it is
      72000 pixels to the left. */
  lemma PixelPositionInverts(fileDict: Header, record: MasterFinder)
    requires CalcDelta(fileDict, record).Ok?
    ensures JplDegrees(record).Some?
    ensures var p := CalcPixelPosition(fileDict, CalcDelta(fileDict, record).value);
      var sky := JplDegrees(record).value;
      && sky.0 == fileDict.crval1 - (p.0 - fileDict.crpix1) / PixelsPerDegree
      && sky.1 == fileDict.crval2 + (p.1 - fileDict.crpix2) / PixelsPerDegree
      && (sky == (fileDict.crval1, fileDict.crval2) <==> p == (fileDict.crpix1, fileDict.crpix2))
  {
  }

  /** Pixel positions are truncated toward zero when stored. */
  function StoredPosition(p: (real, real)): (s: (int, int))
    ensures AbsInt(s.0) as real <= Abs(p.0) < AbsInt(s.0) as real + 1.0
    ensures AbsInt(s.1) as real <= Abs(p.1) < AbsInt(s.1) as real + 1.0
  {
    (Trunc(p.0), Trunc(p.1))
  }

  lemma TruncExamples()
    ensures Trunc(2.7) == 2 && Trunc(-2.7) == -2 && Trunc(-0.5) == 0 && Trunc(3.0) == 3
  {
  }

  /** `file_location[0:-4]` joined with the FITS file name. */
  function FitsPath(image: MasterImage): string
  {
    PosixPath.Join(Slice(image.fileLocation, 0, -4), image.fitsFile)
  }

  /** The header is read from the image's own FITS file: the base name of
      the path is the image's `fits_file`. */
  lemma FitsPathBasename(image: MasterImage)
    requires '/' !in image.fitsFile
    ensures PosixPath.Basename(FitsPath(image)) == image.fitsFile
  {
    PosixPath.JoinBasename(Slice(image.fileLocation, 0, -4), image.fitsFile);
  }

  /** The body of the loop of `run_ephem_main` up to the update: the stored
      pixel position of one moon. A header failure is passed on unchanged;
      `ProcessRecordOutcome` says when it succeeds and what it stores. */
  function ProcessRecord(record: MasterFinder, image: MasterImage, headers: map<string, Header>, planets: seq<string>): (r: Result<(int, int)>)
    ensures var g := GetHeaderInfo(FitsPath(image), headers, planets);
      g.Err? ==> r == Err(g.error)
  {
    var fileDict :- GetHeaderInfo(FitsPath(image), headers, planets);
    var delta :- CalcDelta(fileDict, record);
    Ok(StoredPosition(CalcPixelPosition(fileDict, delta)))
  }

  /** One moon's record succeeds exactly when the header check passes, both
      JPL fields are present and parse, and the reference sky position is a
      valid `Degrees`. The stored position is then the reference pixel moved
      by the sky offset at 72000 pixels a degree, right ascension to the
      left, truncated toward zero. After a passed header check, a missing JPL
      field is a TypeError and every other failure a ValueError. */
  lemma ProcessRecordOutcome(record: MasterFinder, image: MasterImage, headers: map<string, Header>, planets: seq<string>)
    ensures var path := FitsPath(image);
      ProcessRecord(record, image, headers, planets).Ok? <==>
        && PosixPath.Splitext(path).1 == ".fits" && path in headers
        && KnownTarget(TargetName(headers[path].targname), planets)
        && JplDegrees(record).Some?
        && LongitudeInRange(headers[path].crval1) && LatitudeInRange(headers[path].crval2)
    ensures var r := ProcessRecord(record, image, headers, planets);
      GetHeaderInfo(FitsPath(image), headers, planets).Ok? && r.Err? ==>
        && (r.error.TypeError? <==> record.jplRa.None? || record.jplDec.None?)
        && (r.error.TypeError? || r.error.ValueError?)
    ensures var r := ProcessRecord(record, image, headers, planets);
      r.Ok? ==>
        var h := headers[FitsPath(image)];
        var sky := JplDegrees(record).value;
        r.value == (Trunc(h.crpix1 - (sky.0 - h.crval1) * PixelsPerDegree),
                    Trunc(h.crpix2 + (sky.1 - h.crval2) * PixelsPerDegree))
  {
    var g := GetHeaderInfo(FitsPath(image), headers, planets);
    if g.Ok? {
      var d := CalcDelta(g.value, record);
      if d.Ok? {
        PixelPositionInverts(g.value, record);
      }
    }
  }


  // ---------------------------------------------------------------------------
  // The query and the updates
  // ---------------------------------------------------------------------------

  /** Without `reproc` only moons with a JPL right ascension or declination
      are processed; with it, all of them. */
  predicate Selected(record: MasterFinder, reproc: bool)
  {
    reproc || record.jplRa.Some? || record.jplDec.Some?
  }

  /** The images a moon row joins with. */
  function ImagesOf(record: MasterFinder, images: seq<MasterImage>): (r: seq<MasterImage>)
    ensures forall img :: img in r <==> img in images && img.id == record.masterImagesId
  {
    if images == [] then []
    else (if images[0].id == record.masterImagesId then [images[0]] else []) + ImagesOf(record, images[1..])
  }

  function Pair(record: MasterFinder, images: seq<MasterImage>): (r: seq<(MasterFinder, MasterImage)>)
    ensures |r| == |images|
    ensures forall i :: 0 <= i < |r| ==> r[i] == (record, images[i])
  {
    if images == [] then [] else [(record, images[0])] + Pair(record, images[1..])
  }

  /** The joined query of `run_ephem_main`. */
  function Query(rows: seq<MasterFinder>, images: seq<MasterImage>, reproc: bool): (q: seq<(MasterFinder, MasterImage)>)
  {
    if rows == [] then []
    else
      (if Selected(rows[0], reproc) then Pair(rows[0], ImagesOf(rows[0], images)) else [])
      + Query(rows[1..], images, reproc)
  }

  /** A pair is queried exactly when its moon row is selected and its image
      is the row's master image. */
  lemma {:induction false} QueryMembers(rows: seq<MasterFinder>, images: seq<MasterImage>, reproc: bool, f: MasterFinder, img: MasterImage)
    ensures (f, img) in Query(rows, images, reproc) <==>
      f in rows && Selected(f, reproc) && img in images && img.id == f.masterImagesId
    decreases |rows|
  {
    if rows != [] {
      QueryMembers(rows[1..], images, reproc, f, img);
      var head := if Selected(rows[0], reproc) then Pair(rows[0], ImagesOf(rows[0], images)) else [];
      assert (f, img) in head <==> f == rows[0] && Selected(f, reproc) && img in images && img.id == f.masterImagesId by {
        if (f, img) in head {
          var i :| 0 <= i < |head| && head[i] == (f, img);
        }
        if f == rows[0] && Selected(f, reproc) && img in images && img.id == f.masterImagesId {
          var ims := ImagesOf(rows[0], images);
          var i :| 0 <= i < |ims| && ims[i] == img;
          assert head[i] == (f, img);
        }
      }
      assert rows == [rows[0]] + rows[1..];
    }
  }

  /** `query(MasterFinders).filter(id == id).update(...)`: the rows with that
      id get the new position; nothing else changes. */
  function SetEphem(rows: seq<MasterFinder>, id: int, pos: (int, int)): (r: seq<MasterFinder>)
    ensures |r| == |rows|
    ensures forall i :: 0 <= i < |rows| && rows[i].id != id ==> r[i] == rows[i]
    ensures forall i :: 0 <= i < |rows| && rows[i].id == id ==>
      r[i] == rows[i].(ephemX := Some(pos.0), ephemY := Some(pos.1))
  {
    seq(|rows|, i requires 0 <= i < |rows| =>
      if rows[i].id == id then rows[i].(ephemX := Some(pos.0), ephemY := Some(pos.1)) else rows[i])
  }

  /** How the loop ends: its result, the session's view of the table, and
      how many records were processed before it stopped. */
  datatype Outcome = Outcome(result: Result<()>, rows: seq<MasterFinder>, done: nat)

  /** The loop over the first records of the query, from the last record
      back: a failure stops it and keeps the view reached so far. */
  function Run(rows: seq<MasterFinder>, q: seq<(MasterFinder, MasterImage)>, headers: map<string, Header>, planets: seq<string>): (o: Outcome)
    ensures o.done <= |q|
    ensures o.result.Ok? ==> o.done == |q|
    ensures |o.rows| == |rows|
    decreases |q|
  {
    if q == [] then Outcome(Ok(()), rows, 0)
    else Step(Run(rows, q[..|q| - 1], headers, planets), q[|q| - 1], headers, planets)
  }

  /** One more record after `prev`: nothing if the loop has already failed. */
  function Step(prev: Outcome, record: (MasterFinder, MasterImage), headers: map<string, Header>, planets: seq<string>): (o: Outcome)
    ensures prev.result.Err? ==> o == prev
    ensures o.done <= prev.done + 1
    ensures |o.rows| == |prev.rows|
    ensures o.result.Ok? ==> prev.result.Ok? && o.done == prev.done + 1
  {
    if prev.result.Err? then prev
    else
      match ProcessRecord(record.0, record.1, headers, planets)
      case Err(e) => Outcome(Err(e), prev.rows, prev.done)
      case Ok(pos) => Outcome(Ok(()), SetEphem(prev.rows, record.0.id, pos), prev.done + 1)
  }

  /** Once the loop has failed, later records change nothing. */
  lemma {:induction false} RunStaysFailed(rows: seq<MasterFinder>, q: seq<(MasterFinder, MasterImage)>, m: nat, headers: map<string, Header>, planets: seq<string>)
    requires m <= |q|
    requires Run(rows, q[..m], headers, planets).result.Err?
    ensures Run(rows, q, headers, planets) == Run(rows, q[..m], headers, planets)
    decreases |q| - m
  {
    if m < |q| {
      var init := q[..|q| - 1];
      assert init[..m] == q[..m];
      RunStaysFailed(rows, init, m, headers, planets);
      assert Run(rows, q, headers, planets) == Step(Run(rows, init, headers, planets), q[|q| - 1], headers, planets);
    } else {
      assert q[..m] == q;
    }
  }

  /** The update loop only ever writes the position columns: ids, names,
      images and JPL coordinates of every row are those it started with. */
  lemma {:induction false} RunTouchesOnlyPositions(rows: seq<MasterFinder>, q: seq<(MasterFinder, MasterImage)>, headers: map<string, Header>, planets: seq<string>)
    ensures var r := Run(rows, q, headers, planets).rows;
      |r| == |rows| && forall i :: 0 <= i < |rows| ==>
        r[i].(ephemX := rows[i].ephemX, ephemY := rows[i].ephemY) == rows[i]
    decreases |q|
  {
    if q != [] {
      RunTouchesOnlyPositions(rows, q[..|q| - 1], headers, planets);
    }
  }

  /** A row whose id no processed record carries keeps its position. */
  lemma {:induction false} RunLeavesOthers(rows: seq<MasterFinder>, q: seq<(MasterFinder, MasterImage)>, headers: map<string, Header>, planets: seq<string>, i: int)
    requires 0 <= i < |rows|
    requires forall k :: 0 <= k < |q| ==> q[k].0.id != rows[i].id
    ensures |Run(rows, q, headers, planets).rows| == |rows|
    ensures Run(rows, q, headers, planets).rows[i] == rows[i]
    decreases |q|
  {
    if q != [] {
      RunLeavesOthers(rows, q[..|q| - 1], headers, planets, i);
    }
  }

  /** The loop's step for record `i` after `i` successful records. */
  lemma RunExtend(rows: seq<MasterFinder>, q: seq<(MasterFinder, MasterImage)>, i: nat, view: seq<MasterFinder>, headers: map<string, Header>, planets: seq<string>)
    requires i < |q|
    requires Run(rows, q[..i], headers, planets) == Outcome(Ok(()), view, i)
    ensures var p := ProcessRecord(q[i].0, q[i].1, headers, planets);
      Run(rows, q[..i + 1], headers, planets) ==
        if p.Err? then Outcome(Err(p.error), view, i)
        else Outcome(Ok(()), SetEphem(view, q[i].0.id, p.value), i + 1)
  {
    assert q[..i + 1][..i] == q[..i];
  }

  /** A failure at record `i` after `i` successful records ends the loop
      with the view those records left. */
  lemma RunFailsAt(rows: seq<MasterFinder>, q: seq<(MasterFinder, MasterImage)>, i: nat, view: seq<MasterFinder>, headers: map<string, Header>, planets: seq<string>)
    requires i < |q|
    requires Run(rows, q[..i], headers, planets) == Outcome(Ok(()), view, i)
    requires ProcessRecord(q[i].0, q[i].1, headers, planets).Err?
    ensures Run(rows, q, headers, planets) == Outcome(Err(ProcessRecord(q[i].0, q[i].1, headers, planets).error), view, i)
  {
    RunExtend(rows, q, i, view, headers, planets);
    RunStaysFailed(rows, q, i + 1, headers, planets);
  }

  /** Records handed to the database by the time `n` records were processed
      when the session commits after records 0, 100, 200, ... */
  function CommitCount(n: nat): (c: nat)
    ensures c <= n
    ensures n > 0 ==> c > 0 && (c - 1) % 100 == 0 && n - c < 100
  {
    if n == 0 then 0 else ((n - 1) / 100) * 100 + 1
  }

  /** The commit after record `i` (when `i % 100 == 0`) covers all `i + 1`
      records; otherwise the committed count stays. */
  lemma CommitCountStep(i: nat)
    ensures CommitCount(i + 1) == if i % 100 == 0 then i + 1 else CommitCount(i)
  {
  }

  /** One pass of the loop of `run_ephem_main` from a view reached by `i`
      successful records: a failing record ends the run there, and a
      succeeding one extends the view, which the session commits when `i`
      is a multiple of 100. */
  lemma ProcessStep(start: seq<MasterFinder>, query: seq<(MasterFinder, MasterImage)>, i: nat, view: seq<MasterFinder>, committed: seq<MasterFinder>, headers: map<string, Header>, planets: seq<string>)
    requires i < |query|
    requires Run(start, query[..i], headers, planets) == Outcome(Ok(()), view, i)
    requires committed == Run(start, query[..CommitCount(i)], headers, planets).rows
    ensures var pos := ProcessRecord(query[i].0, query[i].1, headers, planets);
      pos.Err? ==> Run(start, query, headers, planets) == Outcome(Err(pos.error), view, i)
    ensures var pos := ProcessRecord(query[i].0, query[i].1, headers, planets);
      pos.Ok? ==>
        var next := SetEphem(view, query[i].0.id, pos.value);
        && Run(start, query[..i + 1], headers, planets) == Outcome(Ok(()), next, i + 1)
        && (i % 100 == 0 ==> next == Run(start, query[..CommitCount(i + 1)], headers, planets).rows)
        && (i % 100 != 0 ==> committed == Run(start, query[..CommitCount(i + 1)], headers, planets).rows)
  {
    var pos := ProcessRecord(query[i].0, query[i].1, headers, planets);
    CommitCountStep(i);
    if pos.Err? {
      RunFailsAt(start, query, i, view, headers, planets);
    } else {
      RunExtend(start, query, i, view, headers, planets);
    }
  }

  /** The in-memory session over the `master_finders` table: `rows` is its
      view of the table, `committed` what the database holds. */
  class MasterFindersTable {
    var rows: seq<MasterFinder>
    var committed: seq<MasterFinder>

    constructor(initial: seq<MasterFinder>)
      ensures rows == initial && committed == initial
    {
      rows := initial;
      committed := initial;
    }

    method Update(id: int, pos: (int, int))
      modifies this
      ensures rows == SetEphem(old(rows), id, pos) && committed == old(committed)
    {
      rows := SetEphem(rows, id, pos);
    }

    method Commit()
      modifies this
      ensures committed == rows && rows == old(rows)
    {
      committed := rows;
    }

    /** `session.close()`: what was not committed is rolled back. */
    method Close()
      modifies this
      ensures rows == committed && committed == old(committed)
    {
      rows := committed;
    }

    /** The loop of `run_ephem_main`: each record's position is written to
        the session's view, and the session commits after records 0, 100,
        200, ...  A failing record ends the loop, keeping the view it reached. */
    method ProcessQuery(query: seq<(MasterFinder, MasterImage)>, headers: map<string, Header>, planets: seq<string>)
      returns (r: Result<()>)
      requires rows == committed
      modifies this
      ensures var o := Run(old(rows), query, headers, planets);
        && r == o.result && rows == o.rows
        && committed == Run(old(rows), query[..CommitCount(o.done)], headers, planets).rows
    {
      ghost var start := rows;
      var i := 0;
      assert query[..0] == [];
      while i < |query|
        invariant 0 <= i <= |query|
        invariant Run(start, query[..i], headers, planets) == Outcome(Ok(()), rows, i)
        invariant committed == Run(start, query[..CommitCount(i)], headers, planets).rows
      {
        ProcessStep(start, query, i, rows, committed, headers, planets);
        var pos := ProcessRecord(query[i].0, query[i].1, headers, planets);
        if pos.Err? {
          return Err(pos.error);
        }
        Update(query[i].0.id, pos.value);
        if i % 100 == 0 {
          Commit();
        }
        i := i + 1;
      }
      assert query[..i] == query;
      return Ok(());
    }

    /** `run_ephem_main` as written: the loop, then `close()` without a final
        commit, so the updates after the last commit point are rolled back. */
    method RunEphemMainAsWritten(images: seq<MasterImage>, headers: map<string, Header>, planets: seq<string>, reproc: bool)
      returns (r: Result<()>)
      requires rows == committed
      modifies this
      ensures var q := Query(old(rows), images, reproc);
        var o := Run(old(rows), q, headers, planets);
        r == o.result
        && committed == Run(old(rows), q[..CommitCount(o.done)], headers, planets).rows
        && (r.Ok? ==> rows == committed)
    {
      var query := Query(rows, images, reproc);
      r := ProcessQuery(query, headers, planets);
      if r.Ok? {
        Close();
      }
    }

    /** `run_ephem_main` with a commit before the session is closed: a run
        that completes leaves every update in the database. */
    method RunEphemMain(images: seq<MasterImage>, headers: map<string, Header>, planets: seq<string>, reproc: bool)
      returns (r: Result<()>)
      requires rows == committed
      modifies this
      ensures var q := Query(old(rows), images, reproc);
        var o := Run(old(rows), q, headers, planets);
        r == o.result
        && (r.Ok? ==> committed == o.rows && rows == committed)
        && (r.Err? ==> committed == Run(old(rows), q[..CommitCount(o.done)], headers, planets).rows)
    {
      var query := Query(rows, images, reproc);
      r := ProcessQuery(query, headers, planets);
      if r.Ok? {
        Commit();
        Close();
      }
    }
  }

  /** Two moons of one image, both at the reference position: the run
      completes and positions both, but the session commits only after the
      first record, so the second moon's position never reaches the
      database when the session is closed without a final commit. */
  lemma AsWrittenLosesLastBatch()
    ensures var rows := [ExampleFinder(1), ExampleFinder(2)];
      var q := Query(rows, [ExampleImage], false);
      var o := Run(rows, q, ExampleHeaders, ["io"]);
      && o.result.Ok? && o.done == 2
      && o.rows[1].ephemX == Some(10) && o.rows[1].ephemY == Some(20)
      && CommitCount(o.done) == 1
      && Run(rows, q[..1], ExampleHeaders, ["io"]).rows[1].ephemX.None?
  {
    var rows := [ExampleFinder(1), ExampleFinder(2)];
    ExampleQuery();
    ExampleRunSteps();
    var view := SetEphem(rows, 1, (10, 20));
    var last := SetEphem(view, 2, (10, 20));
    assert view[1] == rows[1];
    assert last[1] == view[1].(ephemX := Some(10), ephemY := Some(20));
    CommitCountTwo();
  }

  /** The two steps of the example run. */
  lemma ExampleRunSteps()
    ensures var rows := [ExampleFinder(1), ExampleFinder(2)];
      var q := [(ExampleFinder(1), ExampleImage), (ExampleFinder(2), ExampleImage)];
      var view := SetEphem(rows, 1, (10, 20));
      && Run(rows, q[..1], ExampleHeaders, ["io"]) == Outcome(Ok(()), view, 1)
      && Run(rows, q, ExampleHeaders, ["io"]) == Outcome(Ok(()), SetEphem(view, 2, (10, 20)), 2)
  {
    var q := [(ExampleFinder(1), ExampleImage), (ExampleFinder(2), ExampleImage)];
    ExampleRecordPositions(1);
    ExampleRecordPositions(2);
    RunTwo([ExampleFinder(1), ExampleFinder(2)], q, ExampleHeaders, ["io"]);
  }

  /** Two records that both succeed are both stored, the first one first. */
  lemma RunTwo(rows: seq<MasterFinder>, q: seq<(MasterFinder, MasterImage)>, headers: map<string, Header>, planets: seq<string>)
    requires |q| == 2
    requires ProcessRecord(q[0].0, q[0].1, headers, planets).Ok?
    requires ProcessRecord(q[1].0, q[1].1, headers, planets).Ok?
    ensures var view := SetEphem(rows, q[0].0.id, ProcessRecord(q[0].0, q[0].1, headers, planets).value);
      && Run(rows, q[..1], headers, planets) == Outcome(Ok(()), view, 1)
      && Run(rows, q, headers, planets)
         == Outcome(Ok(()), SetEphem(view, q[1].0.id, ProcessRecord(q[1].0, q[1].1, headers, planets).value), 2)
  {
    assert q[..0] == [];
    RunExtend(rows, q, 0, rows, headers, planets);
    var view := SetEphem(rows, q[0].0.id, ProcessRecord(q[0].0, q[0].1, headers, planets).value);
    RunExtend(rows, q, 1, view, headers, planets);
    assert q[..2] == q;
  }

  lemma CommitCountTwo()
    ensures CommitCount(2) == 1
  {
    assert (2 - 1) / 100 == 0;
  }

  lemma ExampleQuery()
    ensures Query([ExampleFinder(1), ExampleFinder(2)], [ExampleImage], false)
      == [(ExampleFinder(1), ExampleImage), (ExampleFinder(2), ExampleImage)]
  {
    var rows := [ExampleFinder(1), ExampleFinder(2)];
    assert ImagesOf(ExampleFinder(1), [ExampleImage]) == [ExampleImage];
    assert ImagesOf(ExampleFinder(2), [ExampleImage]) == [ExampleImage];
    assert rows[1..][1..] == [];
    assert Query(rows[1..], [ExampleImage], false) == [(ExampleFinder(2), ExampleImage)];
  }

  function ExampleFinder(id: int): MasterFinder
  {
    MasterFinder(id, "io", 7, Some("12:30:0"), Some("-0:30:0"), None, None)
  }

  const ExampleImage: MasterImage := MasterImage(7, "abcd", "f.fits")

  const ExampleHeaders: map<string, Header> := map["f.fits" := Header("io", 0.0, 0.0, 187.5, -0.5, 10.0, 20.0)]

  lemma ExamplePath()
    ensures FitsPath(ExampleImage) == "f.fits"
    ensures PosixPath.Splitext("f.fits").1 == ".fits"
  {
    assert Slice(ExampleImage.fileLocation, 0, -4) == [];
    PosixPath.SplitextSuffix("f", ".fits");
    assert "f" + ".fits" == "f.fits";
  }

  lemma ExampleTarget()
    ensures TargetName("io") == "io" && KnownTarget("io", ["io"])
  {
    assert Lower("io") == "io";
    SplitWithoutSeparator("io", '-');
    assert Contains("io", "io");
    assert ["io"][0] == "io";
  }

  lemma ExampleHeaderInfo()
    ensures GetHeaderInfo(FitsPath(ExampleImage), ExampleHeaders, ["io"]) == Ok(ExampleHeaders["f.fits"])
  {
    ExamplePath();
    ExampleTarget();
  }

  lemma ExampleDelta(id: int)
    ensures CalcDelta(ExampleHeaders["f.fits"], ExampleFinder(id)) == Ok((0.0, 0.0))
  {
    var rec := ExampleFinder(id);
    var text := rec.jplRa.value + " " + rec.jplDec.value;
    assert text == "12:30:0 -0:30:0";
    NegativeZeroDeclination();
    DeltaAtReference(ExampleHeaders["f.fits"], rec);
  }

  /** JPL coordinates equal to the reference position give no offset. */
  lemma DeltaAtReference(fileDict: Header, record: MasterFinder)
    requires JplDegrees(record) == Some((fileDict.crval1, fileDict.crval2))
    requires LongitudeInRange(fileDict.crval1) && LatitudeInRange(fileDict.crval2)
    ensures CalcDelta(fileDict, record) == Ok((0.0, 0.0))
  {
  }

  /** Each example moon lands on the reference pixel (10, 20). */
  lemma ExampleRecordPositions(id: int)
    ensures ProcessRecord(ExampleFinder(id), ExampleImage, ExampleHeaders, ["io"]) == Ok((10, 20))
  {
    ExampleHeaderInfo();
    ExampleDelta(id);
    assert CalcPixelPosition(ExampleHeaders["f.fits"], (0.0, 0.0)) == (10.0, 20.0);
  }
}
