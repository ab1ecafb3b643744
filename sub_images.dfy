/** `ephem/build_sub_images_table.py`: every sub-image PNG (a tile cut from a
    master image, named after it with a `_<n>` suffix) gets a `sub_images` row
    pointing at the master image it was cut from. The master's name is
    recovered from the sub-image's file name by the drizzle type and the
    name's length. */
module SubImages {
  import opened Wrappers
  import opened PyStr
  import PosixPath

  /** The two columns of a `master_images` row that the lookup reads. */
  datatype MasterRow = MasterRow(id: int, name: string)

  /** A `sub_images` row. */
  datatype SubImage = SubImage(masterImageId: int, masterImageName: string, name: string, fileLocation: string)

  // ---------------------------------------------------------------------------
  // The master file name
  // ---------------------------------------------------------------------------

  /** The drizzle type field of a split file name: the fourth field after a
      `cr` second field, the third otherwise; a short name is an IndexError. */
  function DrizzleType(parts: seq<string>): (r: Result<string>)
    ensures r.Ok? <==> |parts| >= 2 && (if parts[1] == "cr" then |parts| >= 4 else |parts| >= 3)
    ensures r.Ok? ==> r.value in parts[2..]
    ensures r.Err? ==> r.error == IndexError
  {
    if |parts| < 2 then Err(IndexError)
    else if parts[1] == "cr" then Index(parts, 3)
    else Index(parts, 2)
  }

  /** Fields added after the drizzle field do not change it. */
  lemma DrizzleTypeExtends(parts: seq<string>, more: seq<string>)
    requires DrizzleType(parts).Ok?
    ensures DrizzleType(parts + more) == DrizzleType(parts)
  {
    assert (parts + more)[1] == parts[1];
    if parts[1] == "cr" {
      assert (parts + more)[3] == parts[3];
    } else {
      assert (parts + more)[2] == parts[2];
    }
  }

  /** How many characters of the sub-image name follow the master's stem
      (`_<n>.png`): 6 for a one-digit tile number, 7 for a two-digit one,
      told apart by the name's length, which depends on the drizzle type;
      0 when the length is none of those the drizzle type expects. */
  function SuffixLength(drizzle: string, n: nat): (k: nat)
    ensures k == 0 || ((k == 6 || k == 7) && k < n)
  {
    if drizzle == "wide" then
      if n == 42 || n == 45 then 6
      else if n == 43 || n == 46 then 7
      else 0
    else if n == 44 || n == 47 then 6
    else if n == 45 || n == 48 then 7
    else 0
  }

  /** Lines 30-55: the name of the master PNG a sub-image PNG was cut from.
      A file that is not a PNG fails the first assertion; the rest depends
      on the basename only. */
  function MasterFilename(filename: string): (r: Result<string>)
    ensures PosixPath.Splitext(filename).1 != ".png" ==> r == Err(AssertionError("Expected .png got " + filename))
    ensures r.Ok? ==> PosixPath.Splitext(filename).1 == ".png" && EndsWith(r.value, ".png")
  {
    if PosixPath.Splitext(filename).1 != ".png" then Err(AssertionError("Expected .png got " + filename))
    else MasterOfBasename(PosixPath.Basename(filename), filename)
  }

  /** Lines 33-55 for a basename (`filename` only appears in a message). */
  function MasterOfBasename(basename: string, filename: string): (r: Result<string>)
    ensures r.Ok? ==> EndsWith(r.value, ".png")
  {
    MasterOfFields(basename, Split(basename, '_'), filename)
  }

  /** Lines 33-55 once the basename is split at underscores: a name with too
      few fields indexes out of range, an unknown drizzle type fails an
      assertion, and a name of unexpected length leaves `master_filename`
      unbound. */
  function MasterOfFields(basename: string, parts: seq<string>, filename: string): (r: Result<string>)
    ensures r.Ok? ==> EndsWith(r.value, ".png")
  {
    match DrizzleType(parts)
    case Err(e) => Err(e)
    case Ok(drizzle) =>
      if drizzle != "wide" && drizzle != "center" then
        Err(AssertionError("Unexpected image type " + drizzle + " for " + filename))
      else
        var k := SuffixLength(drizzle, |basename|);
        if k == 0 then Err(UnboundName("master_filename"))
        else Ok(basename[..|basename| - k] + ".png")
  }

  /** A master name is the sub-image's name with its last six or seven
      characters replaced by `.png`, as its drizzle type and length say;
      when there is one, it does not depend on the directory. */
  lemma MasterOfBasenameShape(basename: string, filename: string, other: string)
    requires MasterOfBasename(basename, filename).Ok?
    ensures DrizzleType(Split(basename, '_')).Ok?
    ensures
      var d := DrizzleType(Split(basename, '_')).value;
      && (d == "wide" || d == "center") && SuffixLength(d, |basename|) != 0
      && MasterOfBasename(basename, filename).value ==
           basename[..|basename| - SuffixLength(d, |basename|)] + ".png"
    ensures MasterOfBasename(basename, other) == MasterOfBasename(basename, filename)
  {
  }

  /** The failures of `MasterOfBasename`, by cause. */
  lemma MasterOfBasenameErrors(basename: string, filename: string)
    ensures
      var d := DrizzleType(Split(basename, '_'));
      && (d.Err? ==> MasterOfBasename(basename, filename) == Err(IndexError))
      && (d.Ok? && d.value != "wide" && d.value != "center" ==>
            MasterOfBasename(basename, filename) ==
              Err(AssertionError("Unexpected image type " + d.value + " for " + filename)))
      && (d.Ok? && (d.value == "wide" || d.value == "center") && SuffixLength(d.value, |basename|) == 0 ==>
            MasterOfBasename(basename, filename) == Err(UnboundName("master_filename")))
  {
  }

  /** The text of a tile number from 1 to 99 is one digit below 10 and two
      from 10 on, and holds neither an underscore nor a dot. */
  lemma TileNumberText(k: nat)
    requires 1 <= k <= 99
    ensures |NatToString(k)| == if k < 10 then 1 else 2
    ensures '_' !in NatToString(k) && '.' !in NatToString(k) && '/' !in NatToString(k)
  {
    var t := NatToString(k);
    assert forall i :: 0 <= i < |t| ==> IsDigit(t[i]);
  }

  /** The master name of a sub-image is that of the master it was cut from:
      the master's stem `m`, of a length the drizzle type allows, followed by
      `_<n>.png` for tile `n` from 1 to 99, in any directory, gives `m.png`
      back. */
  lemma MasterOfSubImage(dir: string, m: string, drizzle: string, k: nat)
    requires '/' !in m
    requires DrizzleType(Split(m, '_')) == Ok(drizzle)
    requires (drizzle == "wide" && (|m| == 36 || |m| == 39))
          || (drizzle == "center" && (|m| == 38 || |m| == 41))
    requires 1 <= k <= 99
    ensures MasterFilename(PosixPath.Join(dir, m + "_" + NatToString(k) + ".png")) == Ok(m + ".png")
  {
    var t := NatToString(k);
    TileNumberText(k);
    var tail := "_" + t + ".png";
    var b := m + tail;
    assert b == m + "_" + t + ".png";
    var filename := PosixPath.Join(dir, b);
    assert '/' !in b;
    PosixPath.JoinBasename(dir, b);
    ExtensionOfSubImage(filename, m + "_" + t);
    MasterFilenameOfPng(filename, b);
    DrizzleOfSubImage(m, t, drizzle);
    MasterOfSubImageName(m, tail, drizzle, filename);
  }

  /** The master name of a PNG is that of its basename. */
  lemma MasterFilenameOfPng(filename: string, b: string)
    requires PosixPath.Basename(filename) == b
    requires PosixPath.Splitext(filename).1 == ".png"
    ensures MasterFilename(filename) == MasterOfBasename(b, filename)
  {
  }

  /** `MasterOfSubImage` for the basename alone: the master stem followed
      by a six- or seven-character tail. */
  lemma MasterOfSubImageName(m: string, tail: string, drizzle: string, filename: string)
    requires |tail| == 6 || |tail| == 7
    requires DrizzleType(Split(m + tail, '_')) == Ok(drizzle)
    requires (drizzle == "wide" && (|m| == 36 || |m| == 39))
          || (drizzle == "center" && (|m| == 38 || |m| == 41))
    ensures MasterOfBasename(m + tail, filename) == Ok(m + ".png")
  {
    SuffixOfStem(drizzle, |m|, |tail|);
    MasterOfNamed(m + tail, m, drizzle, |tail|, filename);
  }

  /** `MasterOfStem` for the fields of the basename itself. */
  lemma MasterOfNamed(b: string, m: string, drizzle: string, k: nat, filename: string)
    requires DrizzleType(Split(b, '_')) == Ok(drizzle)
    requires drizzle == "wide" || drizzle == "center"
    requires |b| == |m| + k && b[..|m|] == m
    requires SuffixLength(drizzle, |m| + k) == k != 0
    ensures MasterOfBasename(b, filename) == Ok(m + ".png")
  {
    MasterOfStem(b, Split(b, '_'), m, drizzle, k, filename);
  }

  /** A basename whose drizzle type and length say to cut `k` characters
      from its end has the master name of its first `|b| - k` characters. */
  lemma MasterOfStem(b: string, parts: seq<string>, m: string, drizzle: string, k: nat, filename: string)
    requires DrizzleType(parts) == Ok(drizzle)
    requires drizzle == "wide" || drizzle == "center"
    requires |b| == |m| + k && b[..|m|] == m
    requires SuffixLength(drizzle, |m| + k) == k != 0
    ensures MasterOfFields(b, parts, filename) == Ok(m + ".png")
  {
  }

  /** A sub-image name has its master's drizzle type. */
  lemma DrizzleOfSubImage(m: string, t: string, drizzle: string)
    requires '_' !in t && '.' !in t
    requires DrizzleType(Split(m, '_')) == Ok(drizzle)
    ensures DrizzleType(Split(m + ("_" + t + ".png"), '_')) == Ok(drizzle)
  {
    assert m + ("_" + t + ".png") == m + "_" + t + ".png";
    SubImageFields(m, t);
    DrizzleTypeExtends(Split(m, '_'), [t + ".png"]);
  }

  /** The fields of a sub-image name are the master stem's and the tile's. */
  lemma SubImageFields(m: string, t: string)
    requires '_' !in t && '.' !in t
    ensures Split(m + "_" + t + ".png", '_') == Split(m, '_') + [t + ".png"]
  {
    assert m + "_" + t + ".png" == m + ['_'] + (t + ".png");
    SplitAppend(m, '_', t + ".png");
    assert '_' !in t + ".png";
    SplitWithoutSeparator(t + ".png", '_');
  }

  /** The lengths `SuffixLength` accepts are those of a master stem of the
      drizzle type's two lengths with a one- or two-digit tile number. */
  lemma SuffixOfStem(drizzle: string, m: nat, k: nat)
    requires (drizzle == "wide" && (m == 36 || m == 39)) || (drizzle == "center" && (m == 38 || m == 41))
    requires k == 6 || k == 7
    ensures SuffixLength(drizzle, m + k) == k
  {
  }

  /** A path whose basename ends in `.png` after a digit has the extension
      `.png`. */
  lemma ExtensionOfSubImage(filename: string, stem: string)
    requires EndsWith(filename, stem + ".png")
    requires stem != [] && IsDigit(stem[|stem| - 1])
    ensures PosixPath.Splitext(filename).1 == ".png"
  {
    var q := filename[..|filename| - 4];
    assert filename == q + ".png";
    assert q[|q| - 1] == stem[|stem| - 1];
    PosixPath.SplitextSuffix(q, ".png");
  }

  // ---------------------------------------------------------------------------
  // The row written
  // ---------------------------------------------------------------------------

  /** The masters of a given name. */
  function MastersNamed(masters: seq<MasterRow>, name: string): (r: seq<MasterRow>)
    ensures forall x :: x in r <==> x in masters && x.name == name
    ensures |r| <= |masters|
  {
    if masters == [] then []
    else
      var rest := MastersNamed(masters[..|masters| - 1], name);
      var last := masters[|masters| - 1];
      assert masters == masters[..|masters| - 1] + [last];
      if last.name == name then rest + [last] else rest
  }

  /** Lines 57-77: the row for a sub-image, built from the one master of its
      master name (`one()` fails when there is none or several). */
  function SubImageRecord(masters: seq<MasterRow>, filename: string): (r: Result<SubImage>)
    ensures r.Ok? <==> MasterFilename(filename).Ok? && |MastersNamed(masters, MasterFilename(filename).value)| == 1
    ensures r.Ok? ==> r.value.name == PosixPath.Basename(filename)
    ensures r.Ok? ==> r.value.fileLocation == PosixPath.Split(filename).0
    ensures r.Ok? ==> r.value.masterImageName == MasterFilename(filename).value
    ensures r.Ok? ==> MasterRow(r.value.masterImageId, r.value.masterImageName) in masters
    ensures MasterFilename(filename).Ok? && MastersNamed(masters, MasterFilename(filename).value) == [] ==>
      r == Err(NoResultFound)
    ensures MasterFilename(filename).Ok? && |MastersNamed(masters, MasterFilename(filename).value)| > 1 ==>
      r == Err(MultipleResultsFound)
  {
    var master :- MasterFilename(filename);
    var named := MastersNamed(masters, master);
    var row :- One(named);
    assert row in named;
    Ok(SubImage(row.id, row.name, PosixPath.Basename(filename), PosixPath.Split(filename).0))
  }

  /** The number of rows of a given name, `query(...).count()`. */
  function Count(rows: seq<SubImage>, name: string): (n: nat)
    ensures n <= |rows|
  {
    if rows == [] then 0
    else Count(rows[..|rows| - 1], name) + (if rows[|rows| - 1].name == name then 1 else 0)
  }

  /** No row has the name exactly when none is counted. */
  lemma {:induction false} CountZero(rows: seq<SubImage>, name: string)
    ensures Count(rows, name) == 0 <==> forall i :: 0 <= i < |rows| ==> rows[i].name != name
  {
    if rows != [] {
      var init := rows[..|rows| - 1];
      CountZero(init, name);
      assert forall i :: 0 <= i < |init| ==> init[i] == rows[i];
    }
  }

  /** A row of the name is counted once; two of them twice. */
  lemma {:induction false} CountAtLeast(rows: seq<SubImage>, name: string, i: int, j: int)
    requires 0 <= i < |rows| && 0 <= j < |rows| && rows[i].name == name && rows[j].name == name
    ensures Count(rows, name) >= (if i == j then 1 else 2)
  {
    var init := rows[..|rows| - 1];
    var last := |rows| - 1;
    if i == last && j == last {
      CountZero(init, name);
    } else if i == last || j == last {
      var k := if i == last then j else i;
      assert init[k] == rows[k];
      CountAtLeast(init, name, k, k);
    } else {
      assert init[i] == rows[i] && init[j] == rows[j];
      CountAtLeast(init, name, i, j);
    }
  }

  /** The `update(update_dict)` of lines 73-79: every row of the record's
      name takes the record's four values. */
  function Update(rows: seq<SubImage>, rec: SubImage): (r: seq<SubImage>)
    ensures |r| == |rows|
    ensures forall i :: 0 <= i < |rows| ==> r[i] == if rows[i].name == rec.name then rec else rows[i]
  {
    seq(|rows|, i requires 0 <= i < |rows| => if rows[i].name == rec.name then rec else rows[i])
  }

  /** Lines 63-82: insert the row when none has its name, update it when one
      has, and leave the table alone when several have. */
  function Write(rows: seq<SubImage>, rec: SubImage): (r: seq<SubImage>)
    ensures |rows| <= |r| <= |rows| + 1
    ensures forall i :: 0 <= i < |rows| && rows[i].name != rec.name ==> r[i] == rows[i]
  {
    var n := Count(rows, rec.name);
    if n == 0 then rows + [rec]
    else if n == 1 then Update(rows, rec)
    else rows
  }

  /** One `build_sub_images_table_main(filename, reproc)` call; `reproc` is
      accepted but never read. */
  function Main(rows: seq<SubImage>, masters: seq<MasterRow>, filename: string): (r: Result<seq<SubImage>>)
    ensures r.Ok? <==> SubImageRecord(masters, filename).Ok?
    ensures r.Err? ==> r.error == SubImageRecord(masters, filename).error
    ensures r.Ok? ==>
      && |rows| <= |r.value| <= |rows| + 1
      && forall i :: 0 <= i < |rows| && rows[i].name != SubImageRecord(masters, filename).value.name ==> r.value[i] == rows[i]
  {
    var rec :- SubImageRecord(masters, filename);
    Ok(Write(rows, rec))
  }

  // ---------------------------------------------------------------------------
  // What a write keeps
  // ---------------------------------------------------------------------------

  /** No two rows share a name. */
  predicate UniqueNames(rows: seq<SubImage>)
  {
    forall i, j :: 0 <= i < |rows| && 0 <= j < |rows| && rows[i].name == rows[j].name ==> i == j
  }

  /** In a table without duplicate names, a write leaves exactly one row of
      the record's name, equal to the record, and every row of another name
      as it was. */
  lemma WriteKeepsUnique(rows: seq<SubImage>, rec: SubImage)
    requires UniqueNames(rows)
    ensures UniqueNames(Write(rows, rec))
    ensures rec in Write(rows, rec)
    ensures forall x :: x in Write(rows, rec) && x.name == rec.name ==> x == rec
    ensures forall x: SubImage :: x.name != rec.name ==> (x in Write(rows, rec) <==> x in rows)
  {
    var w := Write(rows, rec);
    CountZero(rows, rec.name);
    if Count(rows, rec.name) == 0 {
      assert w == rows + [rec];
      assert w[|rows|] == rec;
    } else {
      var i :| 0 <= i < |rows| && rows[i].name == rec.name;
      CountBoundUnique(rows, rec.name, i);
      assert w == Update(rows, rec);
      assert w[i] == rec;
      forall x: SubImage | x.name != rec.name && x in rows ensures x in w {
        var j :| 0 <= j < |rows| && rows[j] == x;
        assert w[j] == x;
      }
    }
  }

  /** With unique names, a name is counted at most once. */
  lemma {:induction false} CountBoundUnique(rows: seq<SubImage>, name: string, i: int)
    requires UniqueNames(rows)
    requires 0 <= i < |rows| && rows[i].name == name
    ensures Count(rows, name) == 1
    decreases |rows|
  {
    var init := rows[..|rows| - 1];
    var last := |rows| - 1;
    assert forall k :: 0 <= k < |init| ==> init[k] == rows[k];
    if i == last {
      CountZero(init, name);
    } else {
      assert UniqueNames(init);
      CountBoundUnique(init, name, i);
    }
  }

  /** Writing the same record twice leaves the table as one write does: a
      file processed again changes nothing. */
  lemma WriteIdempotent(rows: seq<SubImage>, rec: SubImage)
    ensures Write(Write(rows, rec), rec) == Write(rows, rec)
  {
    var w := Write(rows, rec);
    var n := Count(rows, rec.name);
    if n == 0 {
      CountZero(rows, rec.name);
      CountAtLeast(w, rec.name, |rows|, |rows|);
      CountAppendFresh(rows, rec);
      assert Update(w, rec) == w;
    } else if n == 1 {
      CountUpdate(rows, rec);
      assert Update(w, rec) == w;
    }
  }

  /** Appending a row of a name no row has counts it once. */
  lemma CountAppendFresh(rows: seq<SubImage>, rec: SubImage)
    requires Count(rows, rec.name) == 0
    ensures Count(rows + [rec], rec.name) == 1
  {
    assert (rows + [rec])[..|rows|] == rows;
  }

  /** An update keeps every row's name, so it keeps every count. */
  lemma {:induction false} CountUpdate(rows: seq<SubImage>, rec: SubImage)
    ensures Count(Update(rows, rec), rec.name) == Count(rows, rec.name)
    decreases |rows|
  {
    if rows != [] {
      var init := rows[..|rows| - 1];
      CountUpdate(init, rec);
      assert Update(rows, rec)[..|rows| - 1] == Update(init, rec);
    }
  }

  /** Processing a file twice in a row gives the table one call gives: the
      record does not depend on the table. */
  lemma MainIdempotent(rows: seq<SubImage>, masters: seq<MasterRow>, filename: string)
    requires Main(rows, masters, filename).Ok?
    ensures Main(Main(rows, masters, filename).value, masters, filename) == Main(rows, masters, filename)
  {
    WriteIdempotent(rows, SubImageRecord(masters, filename).value);
  }

  // ---------------------------------------------------------------------------
  // The script
  // ---------------------------------------------------------------------------

  datatype Outcome = Outcome(result: Result<()>, rows: seq<SubImage>)

  /** Lines 117-118: the files in turn; an exception ends the script, and
      the files before it keep their rows. */
  function Run(rows: seq<SubImage>, masters: seq<MasterRow>, files: seq<string>): (o: Outcome)
    ensures |rows| <= |o.rows| <= |rows| + |files|
    ensures o.result.Err? ==> exists f :: f in files && SubImageRecord(masters, f) == Err(o.result.error)
    decreases |files|
  {
    if files == [] then Outcome(Ok(()), rows)
    else
      match Main(rows, masters, files[0])
      case Err(e) => Outcome(Err(e), rows)
      case Ok(next) => Run(next, masters, files[1..])
  }

  /** The table has a row for the record, from any directory: a row that
      differs from it at most in its file location. */
  predicate RowFor(rows: seq<SubImage>, rec: SubImage)
  {
    exists x :: x in rows && x.(fileLocation := rec.fileLocation) == rec
  }

  /** A run keeps the names unique, and when it succeeds every file has a
      row of its name pointing at its master. The location is that of the
      last file of the name, since a later file of the same name in another
      directory overwrites it. */
  lemma {:induction false} RunKeepsUnique(rows: seq<SubImage>, masters: seq<MasterRow>, files: seq<string>)
    requires UniqueNames(rows)
    ensures UniqueNames(Run(rows, masters, files).rows)
    ensures Run(rows, masters, files).result.Ok? ==>
      forall f :: f in files ==>
        SubImageRecord(masters, f).Ok? && RowFor(Run(rows, masters, files).rows, SubImageRecord(masters, f).value)
    decreases |files|
  {
    if files != [] {
      var m := Main(rows, masters, files[0]);
      if m.Ok? {
        var rec := SubImageRecord(masters, files[0]).value;
        WriteKeepsUnique(rows, rec);
        assert RowFor(m.value, rec) by {
          assert rec.(fileLocation := rec.fileLocation) == rec;
        }
        RunKeepsUnique(m.value, masters, files[1..]);
        RunKeepsRow(m.value, masters, files[1..], files[0]);
        assert forall f :: f in files ==> f == files[0] || f in files[1..];
      }
    }
  }

  /** The row for an earlier file survives later writes: a later write of
      the same name points at the same master, one of another name leaves
      the row alone. */
  lemma {:induction false} RunKeepsRow(rows: seq<SubImage>, masters: seq<MasterRow>, files: seq<string>, f: string)
    requires UniqueNames(rows)
    requires SubImageRecord(masters, f).Ok? && RowFor(rows, SubImageRecord(masters, f).value)
    ensures RowFor(Run(rows, masters, files).rows, SubImageRecord(masters, f).value)
    decreases |files|
  {
    if files != [] {
      var rec := SubImageRecord(masters, f).value;
      var m := Main(rows, masters, files[0]);
      if m.Ok? {
        var r := SubImageRecord(masters, files[0]).value;
        WriteKeepsUnique(rows, r);
        if r.name == rec.name {
          SameNameSameMaster(masters, files[0], f);
          assert r in m.value;
        } else {
          var x :| x in rows && x.(fileLocation := rec.fileLocation) == rec;
          assert x in m.value;
        }
        RunKeepsRow(m.value, masters, files[1..], f);
      }
    }
  }

  /** Two files of the same name point at the same master: the name alone
      fixes the master name, and the master name its row. */
  lemma SameNameSameMaster(masters: seq<MasterRow>, f: string, g: string)
    requires SubImageRecord(masters, f).Ok? && SubImageRecord(masters, g).Ok?
    requires PosixPath.Basename(f) == PosixPath.Basename(g)
    ensures SubImageRecord(masters, f).value.(fileLocation := SubImageRecord(masters, g).value.fileLocation) ==
      SubImageRecord(masters, g).value
  {
    MasterOfBasenameShape(PosixPath.Basename(f), f, g);
  }

  // ---------------------------------------------------------------------------
  // The table
  // ---------------------------------------------------------------------------

  class SubImagesTable {
    var rows: seq<SubImage>

    constructor(initial: seq<SubImage>)
      ensures rows == initial
    {
      rows := initial;
    }

    /** `build_sub_images_table_main(filename, reproc)` against a table of
        masters. */
    method BuildSubImagesTableMain(filename: string, reproc: bool, masters: seq<MasterRow>) returns (r: Result<()>)
      modifies this
      ensures Main(old(rows), masters, filename).Ok? ==> r == Ok(()) && rows == Main(old(rows), masters, filename).value
      ensures Main(old(rows), masters, filename).Err? ==>
        r == Err(Main(old(rows), masters, filename).error) && rows == old(rows)
    {
      var master := MasterFilename(filename);
      if master.Err? {
        return Err(master.error);
      }
      var row := One(MastersNamed(masters, master.value));
      if row.Err? {
        return Err(row.error);
      }
      var basename := PosixPath.Basename(filename);
      var path := PosixPath.Split(filename).0;
      var record := SubImage(row.value.id, row.value.name, basename, path);
      var count := Count(rows, basename);
      if count == 0 {
        rows := rows + [record];
      } else if count == 1 {
        rows := Update(rows, record);
      }
      return Ok(());
    }

    /** The script's loop over the files the glob matched. */
    method BuildSubImagesTable(files: seq<string>, reproc: bool, masters: seq<MasterRow>) returns (r: Result<()>)
      modifies this
      ensures Outcome(r, rows) == Run(old(rows), masters, files)
    {
      ghost var goal := Run(rows, masters, files);
      var rest := files;
      while rest != []
        invariant goal == Run(rows, masters, rest)
        decreases |rest|
      {
        r := BuildSubImagesTableMain(rest[0], reproc, masters);
        if r.Err? {
          return;
        }
        rest := rest[1..];
      }
      return Ok(());
    }
  }
}
