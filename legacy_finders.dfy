/** The older finders table builder, on a plain 450-pixel grid: the region of
    a pixel is a decimal string, a sub-image is matched to it by the last
    character of the sub-image's file stem, and finders are upserted by
    (object name, sub-image id). Every insert and update commits at once. */
module LegacyFinders {
  import opened Wrappers
  import opened PyStr
  import opened PosixPath

  const Cell: int := 450

  /** `get_ephem_region`: `str((x // 450) * 3 + (y // 450) + 1)`. On the grid
      [0, 1350) x [0, 1350) the region number is 1..9 and names the cell:
      column x // 450 and row y // 450 come back from it. */
  function RegionNumber(x: int, y: int): (r: int)
    ensures 0 <= x < 1350 && 0 <= y < 1350 ==>
      1 <= r <= 9 && (r - 1) / 3 == x / Cell && (r - 1) % 3 == y / Cell
  {
    (x / Cell) * 3 + (y / Cell) + 1
  }

  function LegacyRegion(x: int, y: int): (s: string)
    ensures ParseInt(s) == Some(RegionNumber(x, y))
  {
    IntRoundTrip(RegionNumber(x, y));
    IntToString(RegionNumber(x, y))
  }

  /** `make_record_dict`'s `int(e - (e // 450) * 450)`: the position inside
      the 450-pixel cell. */
  function LegacyLocal(e: int): (c: int)
    ensures c == e % Cell
    ensures 0 <= c < Cell
  {
    e - (e / Cell) * Cell
  }

  /** On the image, the cell of the pixel's region and the local position
      put together give the pixel back. */
  lemma LegacyLocalInRegion(x: int, y: int)
    requires 0 <= x < 1350 && 0 <= y < 1350
    ensures var r := RegionNumber(x, y);
      && ((r - 1) / 3) * Cell + LegacyLocal(x) == x
      && ((r - 1) % 3) * Cell + LegacyLocal(y) == y
  {
    var r := RegionNumber(x, y);
    assert (r - 1) / 3 == x / Cell && (r - 1) % 3 == y / Cell;
  }

  /** `os.path.splitext(name)[0][-1]`: the last character of the stem, or
      `IndexError` for an empty stem. */
  function StemSuffix(name: string): (r: Result<char>)
    ensures r.Ok? <==> Splitext(name).0 != []
    ensures r.Ok? ==> r.value == Splitext(name).0[|Splitext(name).0| - 1]
  {
    Index(Splitext(name).0, -1)
  }

  /** The keep rule of `build_finders_table_main` as written: a digit suffix
      must equal the whole region string; any other suffix keeps the record
      only when x <= 450 and y <= 450. */
  function KeepAsWritten(name: string, x: int, y: int): (r: Result<bool>)
    ensures r.Ok? <==> Splitext(name).0 != []
    ensures r.Ok? && IsDigit(StemSuffix(name).value) ==>
      (r.value <==> [StemSuffix(name).value] == LegacyRegion(x, y))
    ensures r.Ok? && !IsDigit(StemSuffix(name).value) ==> (r.value <==> x <= Cell && y <= Cell)
  {
    var c :- StemSuffix(name);
    if IsDigit(c) then Ok([c] == LegacyRegion(x, y)) else Ok(x <= Cell && y <= Cell)
  }

  lemma {:induction false} NatToStringLength(n: nat)
    requires n >= 10
    ensures |NatToString(n)| >= 2
  {
  }

  /** A region number of two or more digits never equals a one-character
      suffix, so those regions are never kept by the rule as written. */
  lemma TwoDigitRegionsNeverMatch(name: string, x: int, y: int)
    requires RegionNumber(x, y) >= 10
    requires KeepAsWritten(name, x, y).Ok? && IsDigit(StemSuffix(name).value)
    ensures !KeepAsWritten(name, x, y).value
  {
    NatToStringLength(RegionNumber(x, y));
  }

  /** Start of the run of digits that ends `s`. */
  function DigitsStart(s: string): (k: nat)
    ensures k <= |s| && AllDigits(s[k..])
    ensures k == 0 || !IsDigit(s[k - 1])
    decreases |s|
  {
    if s != [] && IsDigit(s[|s| - 1]) then
      var k := DigitsStart(s[..|s| - 1]);
      assert s[k..] == s[..|s| - 1][k..] + [s[|s| - 1]];
      k
    else |s|
  }

  /** The tile number at the end of a sub-image stem: its trailing digits. */
  function TileSuffix(name: string): string
  {
    var stem := Splitext(name).0;
    stem[DigitsStart(stem)..]
  }

  /** The keep rule comparing the whole trailing tile number with the region
      string, with the rest of the rule unchanged. */
  function Keep(name: string, x: int, y: int): (r: Result<bool>)
    ensures r.Ok? <==> KeepAsWritten(name, x, y).Ok?
    ensures r.Ok? && !IsDigit(StemSuffix(name).value) ==> r.value == KeepAsWritten(name, x, y).value
  {
    var c :- StemSuffix(name);
    if IsDigit(c) then Ok(TileSuffix(name) == LegacyRegion(x, y)) else Ok(x <= Cell && y <= Cell)
  }

  /** The name of sub-image tile `t` as the tiling writes it. */
  function TileName(base: string, t: nat): string
  {
    base + "_" + NatToString(t) + ".png"
  }

  lemma TileNameStem(base: string, t: nat)
    ensures Splitext(TileName(base, t)) == (base + "_" + NatToString(t), ".png")
    ensures TileSuffix(TileName(base, t)) == NatToString(t)
  {
    var stem := base + "_" + NatToString(t);
    var digits := NatToString(t);
    assert stem[|stem| - 1] == digits[|digits| - 1];
    assert TileName(base, t) == stem + ".png";
    SplitextSuffix(stem, ".png");
    DigitsOfStem(base + "_", digits);
  }

  lemma {:induction false} DigitsOfStem(prefix: string, digits: string)
    requires prefix != [] && !IsDigit(prefix[|prefix| - 1])
    requires digits != [] && AllDigits(digits)
    ensures DigitsStart(prefix + digits) == |prefix|
    decreases |digits|
  {
    var s := prefix + digits;
    assert s[..|s| - 1] == prefix + digits[..|digits| - 1];
    if |digits| == 1 {
      assert s[..|s| - 1] == prefix;
      assert prefix[..|prefix| - 1] + [prefix[|prefix| - 1]] == prefix;
    } else {
      DigitsOfStem(prefix, digits[..|digits| - 1]);
    }
  }

  /** With the whole tile number compared, the sub-image of tile `t` is kept
      for a pixel exactly when `t` is the pixel's region. */
  lemma KeepMatchesTile(base: string, t: nat, x: int, y: int)
    ensures Keep(TileName(base, t), x, y).Ok?
    ensures Keep(TileName(base, t), x, y).value <==> t == RegionNumber(x, y)
  {
    TileNameStem(base, t);
    var stem := base + "_" + NatToString(t);
    var digits := NatToString(t);
    assert stem[|stem| - 1] == digits[|digits| - 1];
    DigitsRoundTrip(t);
    NatTextParses(t);
  }

  /** The rule as written keeps sub-image tile 11 for the pixel (0, 0), whose
      region is 1: only the last character of "…_11" is compared. */
  lemma KeepAsWrittenMatchesWrongTile()
    ensures RegionNumber(0, 0) == 1
    ensures KeepAsWritten(TileName("x", 11), 0, 0) == Ok(true)
    ensures Keep(TileName("x", 11), 0, 0) == Ok(false)
  {
    TileNameStem("x", 11);
    KeepMatchesTile("x", 11, 0, 0);
    assert NatToString(11) == "11";
    assert LegacyRegion(0, 0) == "1";
  }

  // ---------------------------------------------------------------------------
  // The upsert store
  // ---------------------------------------------------------------------------

  /** One row of the joined query: a sub-image and a moon ephemeris of the same
      master image. */
  datatype Record = Record(
    subImageId: int, subImageName: string, objectName: string,
    ephemX: Option<int>, ephemY: Option<int>)

  /** A `finders` row: the columns the builder writes and one it never does. */
  datatype Finder = Finder(subImageId: int, objectName: string, x: int, y: int, description: Option<string>)

  /** The table as rows grouped by (object name, sub-image id), the key of the
      duplicate query. */
  type Store = map<(string, int), seq<Finder>>

  function Rows(s: Store, key: (string, int)): seq<Finder>
  {
    if key in s then s[key] else []
  }

  /** At most one row per key: the state the duplicate assertion expects. */
  predicate AtMostOne(s: Store)
  {
    forall key :: key in s ==> |s[key]| <= 1
  }

  /** Every row is filed under its own (object name, sub-image id). */
  predicate Keyed(s: Store)
  {
    forall key, i :: key in s && 0 <= i < |s[key]| ==>
      (s[key][i].objectName, s[key][i].subImageId) == key
  }

  predicate Located(rec: Record) { rec.ephemX.Some? && rec.ephemY.Some? }

  datatype Outcome = Outcome(result: Result<()>, store: Store)

  /** One record of the loop: skip it, insert a row, update the one row, or
      fail the duplicate assertion. A failure changes nothing, only the
      record's own key can change, and no key loses rows. */
  function Step(s: Store, rec: Record): (o: Outcome)
    requires Located(rec)
    ensures o.result.Err? ==> o.store == s
    ensures forall key :: key != (rec.objectName, rec.subImageId) ==> Rows(o.store, key) == Rows(s, key)
    ensures forall key :: |Rows(s, key)| <= |Rows(o.store, key)|
  {
    var x := rec.ephemX.value;
    var y := rec.ephemY.value;
    match Keep(rec.subImageName, x, y)
    case Err(e) => Outcome(Err(e), s)
    case Ok(keep) =>
      if !keep then Outcome(Ok(()), s)
      else
        var key := (rec.objectName, rec.subImageId);
        var existing := Rows(s, key);
        if |existing| == 0 then
          Outcome(Ok(()), s[key := [Finder(rec.subImageId, rec.objectName, LegacyLocal(x), LegacyLocal(y), None)]])
        else if |existing| == 1 then
          Outcome(Ok(()), s[key := [existing[0].(x := LegacyLocal(x), y := LegacyLocal(y))]])
        else Outcome(Err(AssertionError("Found duplicate records.")), s)
  }

  /** After one step every other key is untouched; a kept record leaves
      exactly one row under its key, holding its local position and, on an
      update, the old row's other columns. */
  lemma StepUpserts(s: Store, rec: Record, other: (string, int))
    requires Located(rec) && Keyed(s)
    requires other != (rec.objectName, rec.subImageId)
    ensures Rows(Step(s, rec).store, other) == Rows(s, other)
    ensures var key := (rec.objectName, rec.subImageId);
      var o := Step(s, rec);
      o.result.Ok? && Keep(rec.subImageName, rec.ephemX.value, rec.ephemY.value).value ==>
        && |Rows(o.store, key)| == 1
        && Rows(o.store, key)[0].x == rec.ephemX.value % Cell
        && Rows(o.store, key)[0].y == rec.ephemY.value % Cell
        && Rows(o.store, key)[0].subImageId == rec.subImageId
        && Rows(o.store, key)[0].objectName == rec.objectName
        && (|Rows(s, key)| == 1 ==> Rows(o.store, key)[0].description == Rows(s, key)[0].description)
  {
  }

  /** The loop over the query; rows committed before a failure stay. No
      key loses rows, and a key no record names is untouched. */
  function Run(s: Store, recs: seq<Record>): (o: Outcome)
    requires forall i :: 0 <= i < |recs| ==> Located(recs[i])
    ensures forall key :: |Rows(s, key)| <= |Rows(o.store, key)|
    ensures forall key :: (forall i :: 0 <= i < |recs| ==> (recs[i].objectName, recs[i].subImageId) != key) ==>
      Rows(o.store, key) == Rows(s, key)
    decreases |recs|
  {
    if recs == [] then Outcome(Ok(()), s)
    else
      var o := Step(s, recs[0]);
      if o.result.Err? then o else Run(o.store, recs[1..])
  }

  /** One step keeps rows keyed and at most one per key, and fails only on
      an empty sub-image stem. */
  lemma StepKeepsAtMostOne(s: Store, rec: Record)
    requires Located(rec) && AtMostOne(s) && Keyed(s)
    ensures AtMostOne(Step(s, rec).store) && Keyed(Step(s, rec).store)
    ensures Step(s, rec).result.Err? ==> Step(s, rec).result.error == IndexError
  {
    var o := Step(s, rec);
    var k := Keep(rec.subImageName, rec.ephemX.value, rec.ephemY.value);
    if k.Ok? && k.value {
      var key := (rec.objectName, rec.subImageId);
      assert |Rows(s, key)| <= 1;
      forall other | other in o.store && other != key
        ensures o.store[other] == s[other]
      {
      }
    }
  }

  /** Starting from at most one row per key, the run keeps it that way, so
      the duplicate assertion never fires: the only failure left is an empty
      sub-image stem. */
  lemma {:induction false} RunKeepsAtMostOne(s: Store, recs: seq<Record>)
    requires forall i :: 0 <= i < |recs| ==> Located(recs[i])
    requires AtMostOne(s) && Keyed(s)
    ensures AtMostOne(Run(s, recs).store) && Keyed(Run(s, recs).store)
    ensures Run(s, recs).result.Err? ==> Run(s, recs).result.error == IndexError
    decreases |recs|
  {
    if recs != [] {
      var o := Step(s, recs[0]);
      StepKeepsAtMostOne(s, recs[0]);
      assert forall i :: 0 <= i < |recs[1..]| ==> Located(recs[1..][i]);
      RunKeepsAtMostOne(o.store, recs[1..]);
    }
  }

  /** The query of `build_finders_table_main`: records whose ephemeris has
      both coordinates. */
  function Query(recs: seq<Record>): (r: seq<Record>)
    ensures forall i :: 0 <= i < |r| ==> Located(r[i])
    ensures |r| <= |recs|
  {
    if recs == [] then []
    else (if Located(recs[0]) then [recs[0]] else []) + Query(recs[1..])
  }

  class FindersTable {
    var rows: Store

    constructor(initial: Store)
      ensures rows == initial
    {
      rows := initial;
    }

    /** `build_finders_table_main`: for each located record, keep or skip
        it, then insert or update its finder, committing each write. */
    method BuildFindersTableMain(recs: seq<Record>) returns (r: Result<()>)
      modifies this
      ensures Outcome(r, rows) == Run(old(rows), Query(recs))
    {
      var query := Query(recs);
      var i := 0;
      while i < |query|
        invariant 0 <= i <= |query|
        invariant Run(old(rows), query) == Run(rows, query[i..])
      {
        var rec := query[i];
        assert query[i..][0] == rec && query[i..][1..] == query[i + 1..];
        var x := rec.ephemX.value;
        var y := rec.ephemY.value;
        var keep := Keep(rec.subImageName, x, y);
        if keep.Err? {
          return Err(keep.error);
        }
        if keep.value {
          var key := (rec.objectName, rec.subImageId);
          var existing := Rows(rows, key);
          if |existing| > 1 {
            return Err(AssertionError("Found duplicate records."));
          }
          if |existing| == 0 {
            rows := rows[key := [Finder(rec.subImageId, rec.objectName, LegacyLocal(x), LegacyLocal(y), None)]];
          } else {
            rows := rows[key := [existing[0].(x := LegacyLocal(x), y := LegacyLocal(y))]];
          }
        }
        i := i + 1;
      }
      return Ok(());
    }
  }
}
