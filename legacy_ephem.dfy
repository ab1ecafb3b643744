/** The legacy ephemeris script (`ephem/ephem.py`): the telnet answer of
    JPL HORIZONS trimmed to the target name and the first ephemeris row,
    the header check against the six planets, and the arithmetic that turns
    the HST pointing, the reference pixel and the JPL position of a moon
    into a detector position. Coordinates are exact reals. */
module LegacyEphem {
  import opened Wrappers
  import opened PyStr
  import PosixPath
  import opened Coords
  import MasterFinders

  // ---------------------------------------------------------------------------
  // trim_data
  // ---------------------------------------------------------------------------

  /** The fields kept from the ephemeris row. */
  datatype EphemRow = EphemRow(
    date: string, jplRa: string, jplDec: string,
    jplRaApparent: string, jplDecApparent: string,
    jplRaDelta: string, jplDecDelta: string)

  /** The dictionary `trim_data` returns: the target, when a "Target" line
      was seen, and the row. */
  datatype Trimmed = Trimmed(target: Option<string>, row: EphemRow)

  /** The row read from the tokens of a data line: date and time joined by a
      blank, each sexagesimal triple joined by ':'; fewer than 16 tokens is
      an IndexError. */
  function RowOf(t: seq<string>): (r: Result<EphemRow>)
    ensures r.Ok? <==> |t| >= 16
  {
    if |t| < 16 then Err(IndexError)
    else Ok(EphemRow(
      t[0] + " " + t[1],
      Join(t[2..5], ":"), Join(t[5..8], ":"),
      Join(t[8..11], ":"), Join(t[11..14], ":"),
      t[14], t[15]))
  }

  /** The row gives its tokens back: the date splits into its two tokens and
      each coordinate splits at ':' into its three. */
  lemma RowFieldsSplit(t: seq<string>)
    requires |t| >= 16
    requires forall k :: 0 <= k < |t| ==> t[k] != [] && NoSpace(t[k])
    requires forall k :: 0 <= k < 14 ==> ':' !in t[k]
    ensures var row := RowOf(t).value;
      && Tokens(row.date) == t[..2]
      && Split(row.jplRa, ':') == t[2..5] && Split(row.jplDec, ':') == t[5..8]
      && Split(row.jplRaApparent, ':') == t[8..11] && Split(row.jplDecApparent, ':') == t[11..14]
  {
    TokensOfPair(t[0], t[1]);
    assert [t[0], t[1]] == t[..2];
    SplitOfJoin(t[2..5], ':');
    SplitOfJoin(t[5..8], ':');
    SplitOfJoin(t[8..11], ':');
    SplitOfJoin(t[11..14], ':');
  }

  /** A line of the answer that opens a new section. */
  predicate IsStar(line: string)
  {
    var s := Strip(line);
    s != [] && s[0] == '*'
  }

  /** A non-blank line that is no section marker. */
  predicate IsText(line: string)
  {
    var s := Strip(line);
    s != [] && s[0] != '*'
  }

  lemma TextHasTokens(line: string)
    requires IsText(line)
    ensures Tokens(Strip(line)) != []
  {
  }

  /** A line whose first token is "Target". */
  predicate IsTargetLine(line: string)
  {
    IsText(line) && (TextHasTokens(line); Tokens(Strip(line))[0] == "Target")
  }

  /** A line of section 5 that is read as the ephemeris row. */
  predicate IsDataLine(line: string)
  {
    IsText(line) && Strip(line)[0] != '$'
  }

  /** What one line does to the scan: go on in a section with a target, or
      stop with the result of `trim_data`. */
  datatype Scan = Next(section: nat, target: Option<string>) | Stop(result: Result<Option<Trimmed>>)

  /** One line of `trim_data`: blank lines are skipped, a marker moves the
      section on, a "Target" line of section 1 sets the target (failing with
      fewer than four tokens), and the first line of section 5 not starting
      with '$' is read as the row. */
  function ScanLine(line: string, section: nat, target: Option<string>): Scan
  {
    var s := Strip(line);
    if s == [] then Next(section, target)
    else if s[0] == '*' then Next(section + 1, target)
    else if section == 1 then
      TextHasTokens(line);
      var toks := Tokens(s);
      if toks[0] != "Target" then Next(section, target)
      else if |toks| < 4 then Stop(Err(IndexError))
      else Next(section, Some(toks[3]))
    else if section == 5 && s[0] != '$' then
      match RowOf(Tokens(s))
      case Err(e) => Stop(Err(e))
      case Ok(row) => Stop(Ok(Some(Trimmed(target, row))))
    else Next(section, target)
  }

  /** The scan of `trim_data` from `lines[0]` on, in section `section` with
      the target seen so far. */
  function TrimScan(lines: seq<string>, section: nat, target: Option<string>): (r: Result<Option<Trimmed>>)
    ensures r.Err? ==> r.error == IndexError
    ensures r.Ok? && r.value.Some? ==>
      exists i :: 0 <= i < |lines| && IsDataLine(lines[i]) && RowOf(Tokens(Strip(lines[i]))) == Ok(r.value.value.row)
    decreases |lines|
  {
    if lines == [] then Ok(None)
    else
      match ScanLine(lines[0], section, target)
      case Stop(r) => r
      case Next(s, t) => TrimScan(lines[1..], s, t)
  }

  /** `trim_data(data)`; `Ok(None)` is the `None` returned when the text has
      no row. */
  method TrimData(data: string) returns (r: Result<Option<Trimmed>>)
    ensures r == TrimScan(Split(data, '\n'), 0, None)
  {
    var lines := Split(data, '\n');
    var section: nat := 0;
    var target: Option<string> := None;
    var i := 0;
    while i < |lines|
      invariant 0 <= i <= |lines|
      invariant TrimScan(lines, 0, None) == TrimScan(lines[i..], section, target)
    {
      assert lines[i..][0] == lines[i] && lines[i..][1..] == lines[i + 1..];
      var line := Strip(lines[i]);
      if line != [] {
        if line[0] == '*' {
          section := section + 1;
        } else if section == 1 {
          TextHasTokens(lines[i]);
          var toks := Tokens(line);
          if toks[0] == "Target" {
            if |toks| < 4 {
              return Err(IndexError);
            }
            target := Some(toks[3]);
          }
        } else if section == 5 {
          if line[0] != '$' {
            var row := RowOf(Tokens(line));
            if row.Err? {
              return Err(row.error);
            }
            return Ok(Some(Trimmed(target, row.value)));
          }
        }
      }
      i := i + 1;
    }
    return Ok(None);
  }

  /** The number of section markers among `lines`. */
  function Stars(lines: seq<string>): (n: nat)
    ensures n <= |lines|
  {
    if lines == [] then 0
    else Stars(lines[..|lines| - 1]) + (if IsStar(lines[|lines| - 1]) then 1 else 0)
  }

  /** A line in section `section` that neither ends the scan nor fails it. */
  predicate Passes(line: string, section: nat)
  {
    !(section == 5 && IsDataLine(line))
    && !(section == 1 && IsTargetLine(line) && |Tokens(Strip(line))| < 4)
  }

  /** Every line of `lines` passes, in the section the markers before it
      lead to when the scan starts in `section`. */
  predicate AllPass(lines: seq<string>, section: nat)
  {
    lines == [] ||
    (var k := |lines| - 1;
     AllPass(lines[..k], section) && Passes(lines[k], section + Stars(lines[..k])))
  }

  /** The target after one line of section `section`: the 4th token of a
      "Target" line of section 1, otherwise `target`. */
  function NextTarget(line: string, section: nat, target: Option<string>): Option<string>
  {
    if section == 1 && IsTargetLine(line) && |Tokens(Strip(line))| >= 4 then Some(Tokens(Strip(line))[3])
    else target
  }

  /** The target named by the last "Target" line of section 1 among `lines`;
      `target` when there is none. */
  function LastTarget(lines: seq<string>, section: nat, target: Option<string>): Option<string>
  {
    if lines == [] then target
    else
      var k := |lines| - 1;
      NextTarget(lines[k], section + Stars(lines[..k]), LastTarget(lines[..k], section, target))
  }

  /** A line that passes goes on, with the section a marker moves on and
      the target `NextTarget` gives. */
  lemma LinePasses(x: string, section: nat, target: Option<string>)
    requires Passes(x, section)
    ensures ScanLine(x, section, target) == Next(section + (if IsStar(x) then 1 else 0), NextTarget(x, section, target))
  {
  }

  /** The state of the scan after all of `lines`, taken from the end. */
  function ScanAll(lines: seq<string>, section: nat, target: Option<string>): Scan
  {
    if lines == [] then Next(section, target)
    else
      var k := |lines| - 1;
      match ScanAll(lines[..k], section, target)
      case Stop(r) => Stop(r)
      case Next(s, t) => ScanLine(lines[k], s, t)
  }

  /** The scan of `rest` from the state `sc`. */
  function Resume(sc: Scan, rest: seq<string>): Result<Option<Trimmed>>
  {
    match sc
    case Stop(r) => r
    case Next(s, t) => TrimScan(rest, s, t)
  }

  /** The scan of all lines is the scan of the first `n` lines resumed on
      the others. */
  lemma {:induction false} ScanSplit(lines: seq<string>, n: nat, section: nat, target: Option<string>)
    requires n <= |lines|
    ensures TrimScan(lines, section, target) == Resume(ScanAll(lines[..n], section, target), lines[n..])
    decreases n
  {
    if n == 0 {
      assert lines[..0] == [] && lines[0..] == lines;
    } else {
      var m := n - 1;
      assert lines[..n][..m] == lines[..m];
      ScanSplit(lines, m, section, target);
      assert lines[m..][0] == lines[m] && lines[m..][1..] == lines[n..];
    }
  }

  /** Lines that pass move the section counter on by the number of markers
      among them and leave the target of their last "Target" line of
      section 1. */
  lemma {:induction false} SkipLines(pre: seq<string>, section: nat, target: Option<string>)
    requires AllPass(pre, section)
    ensures ScanAll(pre, section, target) == Next(section + Stars(pre), LastTarget(pre, section, target))
    decreases |pre|
  {
    if pre != [] {
      var k := |pre| - 1;
      SnocParts(pre, section, target);
      SkipLines(pre[..k], section, target);
      LinePasses(pre[k], section + Stars(pre[..k]), LastTarget(pre[..k], section, target));
    }
  }

  /** The marker count, the pass test and the last target of some lines in
      terms of those of all lines but the last. */
  lemma SnocParts(pre: seq<string>, section: nat, target: Option<string>)
    requires pre != []
    ensures var k := |pre| - 1;
      && Stars(pre) == Stars(pre[..k]) + (if IsStar(pre[k]) then 1 else 0)
      && (AllPass(pre, section) ==> AllPass(pre[..k], section) && Passes(pre[k], section + Stars(pre[..k])))
      && LastTarget(pre, section, target) ==
           NextTarget(pre[k], section + Stars(pre[..k]), LastTarget(pre[..k], section, target))
  {
  }

  /** The row comes from the first data line of section 5, after five
      section markers; the target is that of the last "Target" line of
      section 1 before it, and nothing after the row is read. */
  lemma TrimFindsRow(pre: seq<string>, line: string, post: seq<string>)
    requires AllPass(pre, 0)
    requires Stars(pre) == 5 && IsDataLine(line)
    ensures TrimScan(pre + [line] + post, 0, None) ==
      match RowOf(Tokens(Strip(line)))
      case Err(e) => Err(e)
      case Ok(row) => Ok(Some(Trimmed(LastTarget(pre, 0, None), row)))
  {
    var lines := pre + [line] + post;
    assert lines[..|pre|] == pre && lines[|pre|..] == [line] + post;
    ScanSplit(lines, |pre|, 0, None);
    SkipLines(pre, 0, None);
    assert ([line] + post)[0] == line;
  }

  /** Text whose lines all pass has no row: the result is `None`. */
  lemma TrimWithoutRow(lines: seq<string>)
    requires AllPass(lines, 0)
    ensures TrimScan(lines, 0, None) == Ok(None)
  {
    assert lines[..|lines|] == lines && lines[|lines|..] == [];
    ScanSplit(lines, |lines|, 0, None);
    SkipLines(lines, 0, None);
  }

  // ---------------------------------------------------------------------------
  // get_header_info
  // ---------------------------------------------------------------------------

  /** The header keywords `get_header_info` reads. */
  datatype LegacyHeader = LegacyHeader(
    targname: string, dateObs: string, timeObs: string,
    raTarg: real, decTarg: real, crval1: real, crval2: real, crpix1: real, crpix2: real)

  /** A JPL coordinate as the dictionary holds it: first the text of the
      ephemeris row, then the decimal degrees `calc_delta` writes over it. */
  datatype JplCoord = Text(text: string) | Decimal(value: real)

  /** The dictionary the legacy script threads through its steps; a `None`
      coordinate is a key not yet present. */
  datatype FileDict = FileDict(
    targname: string, raTarg: real, decTarg: real,
    crval1: real, crval2: real, crpix1: real, crpix2: real,
    jplRa: Option<JplCoord>, jplDec: Option<JplCoord>)

  const PlanetList: seq<string> := ["mars", "jupiter", "saturn", "uranus", "neptune", "pluto"]

  /** The header target name, lower-cased and cut at the first '-'. */
  function PlanetName(raw: string): (name: string)
    ensures '-' !in name
    ensures StartsWith(Lower(raw), name)
  {
    var parts := Split(Lower(raw), '-');
    SplitJoin(Lower(raw), '-');
    MasterFinders.JoinStartsWithFirst(parts, "-");
    parts[0]
  }

  /** `get_header_info`: a `.fits` file whose target is one of the six
      planets; the header is read from `headers`, a missing file being an
      IOError. */
  function GetHeaderInfo(filename: string, headers: map<string, LegacyHeader>): (r: Result<FileDict>)
    ensures r.Ok? <==>
      PosixPath.Splitext(filename).1 == ".fits" && filename in headers
      && PlanetName(headers[filename].targname) in PlanetList
    ensures PosixPath.Splitext(filename).1 != ".fits" ==> r.Err? && r.error.AssertionError?
    ensures r.Ok? ==> var h := headers[filename];
      && r.value.targname in PlanetList
      && r.value == FileDict(PlanetName(h.targname), h.raTarg, h.decTarg, h.crval1, h.crval2, h.crpix1, h.crpix2, None, None)
  {
    if PosixPath.Splitext(filename).1 != ".fits" then Err(AssertionError("Expected .fits got " + filename))
    else if filename !in headers then Err(IOError(filename))
    else
      var h := headers[filename];
      var targname := PlanetName(h.targname);
      if targname !in PlanetList then Err(AssertionError("Header TARGNAME not in planet_list"))
      else Ok(FileDict(targname, h.raTarg, h.decTarg, h.crval1, h.crval2, h.crpix1, h.crpix2, None, None))
  }

  /** "JUPITER-N" is Jupiter. */
  lemma JupiterWithSuffix()
    ensures PlanetName("JUPITER-N") == "jupiter" && "jupiter" in PlanetList
  {
    assert Lower("JUPITER-N") == "jupiter-n";
    assert Join(["jupiter", "n"], "-") == "jupiter-n";
    SplitOfJoin(["jupiter", "n"], '-');
  }

  /** A moon such as "IO" is refused. */
  lemma MoonRefused()
    ensures PlanetName("IO") == "io" && "io" !in PlanetList
  {
    assert Lower("IO") == "io";
    SplitWithoutSeparator("io", '-');
  }

  // ---------------------------------------------------------------------------
  // calc_delta, calc_targ, calc_ephem
  // ---------------------------------------------------------------------------

  /** `calc_delta`: the JPL text is read as an `Hmsdms`, the pointing checked
      as `Degrees`, both written back to the dictionary in degrees, and the
      offset from the JPL position to the pointing returned in pixels. */
  function CalcDelta(d: FileDict): (r: Result<(FileDict, (real, real))>)
    ensures r.Ok? <==>
      d.jplRa.Some? && d.jplDec.Some? && d.jplRa.value.Text? && d.jplDec.value.Text?
      && ParseHmsdms(d.jplRa.value.text + " " + d.jplDec.value.text).Ok?
      && LongitudeInRange(d.raTarg) && LatitudeInRange(d.decTarg)
    ensures d.jplRa.None? ==> r == Err(KeyError("jpl_ra"))
    ensures r.Ok? ==>
      var jpl := CalcInternal(ParseHmsdms(d.jplRa.value.text + " " + d.jplDec.value.text).value);
      var delta := r.value.1;
      && r.value.0 == d.(jplRa := Some(Decimal(jpl.0)), jplDec := Some(Decimal(jpl.1)))
      && delta.0 / MasterFinders.PixelsPerDegree == d.raTarg - jpl.0
      && delta.1 / MasterFinders.PixelsPerDegree == d.decTarg - jpl.1
  {
    if d.jplRa.None? then Err(KeyError("jpl_ra"))
    else if d.jplDec.None? then Err(KeyError("jpl_dec"))
    else if !d.jplRa.value.Text? || !d.jplDec.value.Text? then
      Err(TypeError("unsupported operand type(s) for +: 'float' and 'str'"))
    else
      var jplPos :- ParseHmsdms(d.jplRa.value.text + " " + d.jplDec.value.text);
      var jpl := CalcInternal(jplPos);
      var hst :- MakeDegrees(d.raTarg, d.decTarg);
      var updated := d.(jplRa := Some(Decimal(jpl.0)), jplDec := Some(Decimal(jpl.1)), raTarg := hst.a1, decTarg := hst.a2);
      Ok((updated, ((updated.raTarg - jpl.0) * MasterFinders.PixelsPerDegree,
                    (updated.decTarg - jpl.1) * MasterFinders.PixelsPerDegree)))
  }

  /** `calc_targ`: the reference position checked as `Degrees` and written
      back, and the pointing in pixels from the reference pixel. */
  function CalcTarg(d: FileDict): (r: Result<(FileDict, (real, real))>)
    ensures r.Ok? <==> LongitudeInRange(d.crval1) && LatitudeInRange(d.crval2)
    ensures r.Err? ==> r.error.ValueError?
    ensures r.Ok? ==> (r.value.0 == d
      && (r.value.1.0 - d.crpix1) / MasterFinders.PixelsPerDegree == d.raTarg - d.crval1
      && (r.value.1.1 - d.crpix2) / MasterFinders.PixelsPerDegree == d.decTarg - d.crval2)
  {
    var refpic :- MakeDegrees(d.crval1, d.crval2);
    var updated := d.(crval1 := refpic.a1, crval2 := refpic.a2);
    var deltaX := (updated.raTarg - updated.crval1) * MasterFinders.PixelsPerDegree;
    var deltaY := (updated.decTarg - updated.crval2) * MasterFinders.PixelsPerDegree;
    Ok((updated, (updated.crpix1 + deltaX, updated.crpix2 + deltaY)))
  }

  /** `calc_ephem`: the target position moved by the delta. */
  function CalcEphem(targ: (real, real), delta: (real, real)): (e: (real, real))
    ensures e.0 - targ.0 == delta.0 && e.1 - targ.1 == delta.1
  {
    (targ.0 + delta.0, targ.1 + delta.1)
  }

  /** The numbers stored for one moon. */
  datatype MoonPosition = MoonPosition(delta: (real, real), targ: (real, real), ephem: (real, real))

  /** The JPL coordinates of a row written into the dictionary, as
      `file_dict.update` does. */
  function WithRow(d: FileDict, row: EphemRow): FileDict
  {
    d.(jplRa := Some(Text(row.jplRa)), jplDec := Some(Text(row.jplDec)))
  }

  /** One pass of the loop of `ephem_main` as written: delta, target and
      ephemeris position of one moon. */
  function MoonAsWritten(d: FileDict, row: EphemRow): (r: Result<(FileDict, MoonPosition)>)
    ensures r.Ok? ==> r.value.1.ephem == CalcEphem(r.value.1.targ, r.value.1.delta)
  {
    var (d1, delta) :- CalcDelta(WithRow(d, row));
    var (d2, targ) :- CalcTarg(d1);
    Ok((d2, MoonPosition(delta, targ, CalcEphem(targ, delta))))
  }

  /** "0:40:0 0:0:0" is right ascension 10 degrees, declination 0. */
  lemma ReferenceText()
    ensures var r := ParseHmsdms("0:40:0 0:0:0");
      r.Ok? && CalcInternal(r.value) == (10.0, 0.0)
  {
    assert NatToString(0) == "0";
    assert NatToString(4) == "4" && NatToString(40) == NatToString(4) + "0";
    assert FormatHmsdms(0, 40, 0, false, 0, 0, 0) == "0:40:0 0:0:0";
    TenDegrees(40);
  }

  lemma TenDegrees(m: nat)
    requires m == 40
    ensures var r := ParseHmsdms(FormatHmsdms(0, m, 0, false, 0, 0, 0));
      r.Ok? && CalcInternal(r.value) == (10.0, 0.0)
  {
    FormatParseRoundTrip(0, m, 0, false, 0, 0, 0);
  }

  /** As written, a body exactly at the reference sky position does not land
      on the reference pixel when the pointing is off the reference: with
      the reference at RA 10 degrees, the pointing at 10.001 and the body at
      "0:40:0 0:0:0" (RA 10, Dec 0), x comes out 144 pixels from CRPIX1. */
  lemma ReferenceBodyMissesReferencePixel(d: FileDict, row: EphemRow)
    requires d == FileDict("jupiter", 10.001, 0.0, 10.0, 0.0, 0.0, 0.0, None, None)
    requires row == EphemRow("", "0:40:0", "0:0:0", "", "", "", "")
    ensures ParseHmsdms(row.jplRa + " " + row.jplDec).Ok?
    ensures CalcInternal(ParseHmsdms(row.jplRa + " " + row.jplDec).value) == (d.crval1, d.crval2)
    ensures MoonAsWritten(d, row).Ok?
    ensures MoonAsWritten(d, row).value.1.ephem == (144.0, 0.0) != (d.crpix1, d.crpix2)
  {
    ExampleDelta(d, row);
    var w := WithRow(d, row);
    var d1 := CalcDelta(w).value.0;
    var delta := CalcDelta(w).value.1;
    ExampleTarg(d1);
    var targ := CalcTarg(d1).value.1;
    var e := CalcEphem(targ, delta);
    assert e.0 == 144.0 && e.1 == 0.0;
    assert MoonAsWritten(d, row) == Ok((CalcTarg(d1).value.0, MoonPosition(delta, targ, e)));
  }

  lemma ExampleDelta(d: FileDict, row: EphemRow)
    requires d == FileDict("jupiter", 10.001, 0.0, 10.0, 0.0, 0.0, 0.0, None, None)
    requires row == EphemRow("", "0:40:0", "0:0:0", "", "", "", "")
    ensures ParseHmsdms(row.jplRa + " " + row.jplDec).Ok?
    ensures CalcInternal(ParseHmsdms(row.jplRa + " " + row.jplDec).value) == (10.0, 0.0)
    ensures CalcDelta(WithRow(d, row)).Ok?
    ensures CalcDelta(WithRow(d, row)).value.1 == (72.0, 0.0)
    ensures var d1 := CalcDelta(WithRow(d, row)).value.0;
      d1.raTarg == 10.001 && d1.decTarg == 0.0 && d1.crval1 == 10.0 && d1.crval2 == 0.0
      && d1.crpix1 == 0.0 && d1.crpix2 == 0.0
  {
    assert row.jplRa + " " + row.jplDec == "0:40:0 0:0:0";
    ReferenceText();
    DeltaFromSky(WithRow(d, row));
  }

  lemma DeltaFromSky(w: FileDict)
    requires w.jplRa.Some? && w.jplDec.Some? && w.jplRa.value.Text? && w.jplDec.value.Text?
    requires ParseHmsdms(w.jplRa.value.text + " " + w.jplDec.value.text).Ok?
    requires CalcInternal(ParseHmsdms(w.jplRa.value.text + " " + w.jplDec.value.text).value) == (10.0, 0.0)
    requires w.raTarg == 10.001 && w.decTarg == 0.0 && w.crval1 == 10.0 && w.crval2 == 0.0
    requires w.crpix1 == 0.0 && w.crpix2 == 0.0
    ensures CalcDelta(w).Ok?
    ensures CalcDelta(w).value.1 == (72.0, 0.0)
    ensures var d1 := CalcDelta(w).value.0;
      d1.raTarg == 10.001 && d1.decTarg == 0.0 && d1.crval1 == 10.0 && d1.crval2 == 0.0
      && d1.crpix1 == 0.0 && d1.crpix2 == 0.0
  {
    assert MasterFinders.PixelsPerDegree == 72000.0;
    assert CalcDelta(w).Ok?;
    var delta := CalcDelta(w).value.1;
    assert delta.0 / 72000.0 == 10.001 - 10.0;
    assert delta.0 == 72.0;
    assert delta.1 / 72000.0 == 0.0;
    assert delta.1 == 0.0;
  }

  lemma ExampleTarg(d1: FileDict)
    requires d1.raTarg == 10.001 && d1.decTarg == 0.0 && d1.crval1 == 10.0 && d1.crval2 == 0.0
    requires d1.crpix1 == 0.0 && d1.crpix2 == 0.0
    ensures CalcTarg(d1).Ok? && CalcTarg(d1).value.1 == (72.0, 0.0)
  {
    assert MasterFinders.PixelsPerDegree == 72000.0;
    var targ := CalcTarg(d1).value.1;
    assert targ.0 / 72000.0 == 10.001 - 10.0;
    assert targ.0 == 72.0;
    assert targ.1 / 72000.0 == 0.0;
    assert targ.1 == 0.0;
  }

  // ---------------------------------------------------------------------------
  // The positions with consistent signs
  // ---------------------------------------------------------------------------

  /** `calc_delta` with the declination offset taken from the pointing to
      the body, the direction `calc_targ` uses. */
  function CalcDeltaCorrected(d: FileDict): (r: Result<(FileDict, (real, real))>)
    ensures r.Ok? <==> CalcDelta(d).Ok?
    ensures r.Ok? ==> r.value.0 == CalcDelta(d).value.0
  {
    var (d1, delta) :- CalcDelta(d);
    Ok((d1, (delta.0, -delta.1)))
  }

  /** `calc_targ` with the right ascension growing to the left, the
      direction `calc_delta` uses. */
  function CalcTargCorrected(d: FileDict): (r: Result<(FileDict, (real, real))>)
    ensures r.Ok? <==> CalcTarg(d).Ok?
    ensures r.Ok? ==> r.value.0 == d
  {
    var refpic :- MakeDegrees(d.crval1, d.crval2);
    Ok((d, (d.crpix1 - (d.raTarg - refpic.a1) * MasterFinders.PixelsPerDegree,
            d.crpix2 + (d.decTarg - refpic.a2) * MasterFinders.PixelsPerDegree)))
  }

  /** One pass of the loop of `ephem_main`, with consistent signs. */
  function MoonPositionOf(d: FileDict, row: EphemRow): (r: Result<(FileDict, MoonPosition)>)
    ensures r.Ok? <==> MoonAsWritten(d, row).Ok?
  {
    var (d1, delta) :- CalcDeltaCorrected(WithRow(d, row));
    var (d2, targ) :- CalcTargCorrected(d1);
    Ok((d2, MoonPosition(delta, targ, CalcEphem(targ, delta))))
  }

  /** With consistent signs the moon lands where its sky position says:
      CRPIX minus the right ascension offset and plus the declination offset
      from the reference, at 72000 pixels a degree, so a body at the
      reference lands on the reference pixel. The position is the one the
      later master finders builder computes. */
  lemma MoonPositionFromSky(d: FileDict, row: EphemRow)
    requires MoonPositionOf(d, row).Ok?
    ensures var jpl := CalcInternal(ParseHmsdms(row.jplRa + " " + row.jplDec).value);
      var e := MoonPositionOf(d, row).value.1.ephem;
      && e.0 == d.crpix1 - (jpl.0 - d.crval1) * MasterFinders.PixelsPerDegree
      && e.1 == d.crpix2 + (jpl.1 - d.crval2) * MasterFinders.PixelsPerDegree
      && (jpl == (d.crval1, d.crval2) ==> e == (d.crpix1, d.crpix2))
    ensures var h := MasterFinders.Header(d.targname, d.raTarg, d.decTarg, d.crval1, d.crval2, d.crpix1, d.crpix2);
      var record := MasterFinders.MasterFinder(0, "", 0, Some(row.jplRa), Some(row.jplDec), None, None);
      && MasterFinders.CalcDelta(h, record).Ok?
      && MoonPositionOf(d, row).value.1.ephem == MasterFinders.CalcPixelPosition(h, MasterFinders.CalcDelta(h, record).value)
  {
  }

  // ---------------------------------------------------------------------------
  // ephem_main
  // ---------------------------------------------------------------------------

  /** One moon from its HORIZONS answer: trimmed, then positioned by the
      sign-consistent `MoonPositionOf`. A failed trim is passed on, and an
      answer without a row fails `file_dict.update(None)`. */
  function MoonFromAnswer(d: FileDict, answer: string): (r: Result<MoonPosition>)
  {
    var trimmed :- TrimScan(Split(answer, '\n'), 0, None);
    if trimmed.None? then Err(TypeError("'NoneType' object is not iterable"))
    else
      var (_, p) :- MoonPositionOf(d, trimmed.value.row);
      Ok(p)
  }

  /** The three ways a HORIZONS answer ends: a failed trim is passed on, an
      answer without a row is a TypeError, and otherwise the moon is
      positioned by the sign-consistent `MoonPositionOf`. */
  lemma MoonFromAnswerCases(d: FileDict, answer: string)
    ensures var t := TrimScan(Split(answer, '\n'), 0, None);
      var r := MoonFromAnswer(d, answer);
      && (t.Err? ==> r == Err(IndexError))
      && (t == Ok(None) ==> r == Err(TypeError("'NoneType' object is not iterable")))
      && (t.Ok? && t.value.Some? ==>
            (r.Ok? <==> MoonPositionOf(d, t.value.value.row).Ok?)
            && (r.Ok? ==> r.value == MoonPositionOf(d, t.value.value.row).value.1))
  {
  }

  /** The dictionary built from per-moon results, in order: the first
      failure ends the run. */
  function Collect(names: seq<string>, results: seq<Result<MoonPosition>>): (r: Result<map<string, MoonPosition>>)
    requires |names| == |results|
    ensures r.Ok? ==> forall k :: 0 <= k < |results| ==> results[k].Ok?
    ensures r.Err? ==> exists k :: 0 <= k < |results| && results[k] == Err(r.error)
  {
    if names == [] then Ok(map[])
    else
      var n := |names| - 1;
      assert forall k :: 0 <= k < n ==> results[..n][k] == results[k];
      var prev :- Collect(names[..n], results[..n]);
      var p :- results[n];
      Ok(prev[names[n] := p])
  }

  /** The names of the moons. */
  function Names(moons: seq<(string, string)>): (names: seq<string>)
    ensures |names| == |moons| && forall k :: 0 <= k < |moons| ==> names[k] == moons[k].0
  {
    seq(|moons|, k requires 0 <= k < |moons| => moons[k].0)
  }

  /** Each moon positioned from its own answer. */
  function Results(d: FileDict, moons: seq<(string, string)>, answers: map<string, string>): (rs: seq<Result<MoonPosition>>)
    requires forall k :: 0 <= k < |moons| ==> moons[k].1 in answers
    ensures |rs| == |moons|
  {
    seq(|moons|, k requires 0 <= k < |moons| => MoonFromAnswer(d, answers[moons[k].1]))
  }

  /** The moons of `moons` (name and HORIZONS id, in the dictionary's order)
      positioned one after the other. */
  function Moons(d: FileDict, moons: seq<(string, string)>, answers: map<string, string>): (r: Result<map<string, MoonPosition>>)
    requires forall k :: 0 <= k < |moons| ==> moons[k].1 in answers
    ensures var rs := Results(d, moons, answers);
      r.Ok? ==> forall k :: 0 <= k < |moons| ==> rs[k].Ok?
    ensures var rs := Results(d, moons, answers);
      r.Err? ==> exists k :: 0 <= k < |moons| && rs[k] == Err(r.error)
  {
    Collect(Names(moons), Results(d, moons, answers))
  }

  /** A successful run holds exactly the listed names. */
  lemma {:induction false} CollectKeys(names: seq<string>, results: seq<Result<MoonPosition>>)
    requires |names| == |results| && Collect(names, results).Ok?
    ensures forall name :: name in Collect(names, results).value <==> name in names
  {
    if names != [] {
      var n := |names| - 1;
      CollectKeys(names[..n], results[..n]);
      assert names == names[..n] + [names[n]];
    }
  }

  /** A successful run succeeded on every moon, and with names listed once
      each, every name holds its own moon's result. */
  lemma {:induction false} CollectEntries(names: seq<string>, results: seq<Result<MoonPosition>>)
    requires |names| == |results| && Collect(names, results).Ok?
    requires forall i, j :: 0 <= i < j < |names| ==> names[i] != names[j]
    ensures forall k :: 0 <= k < |names| ==>
      results[k].Ok? && names[k] in Collect(names, results).value
      && Collect(names, results).value[names[k]] == results[k].value
  {
    if names != [] {
      var n := |names| - 1;
      CollectEntries(names[..n], results[..n]);
      assert forall k :: 0 <= k < n ==> names[..n][k] == names[k] && results[..n][k] == results[k];
    }
  }

  /** A run fails exactly when some moon fails, with the first failure. */
  lemma {:induction false} CollectFails(names: seq<string>, results: seq<Result<MoonPosition>>)
    requires |names| == |results|
    ensures Collect(names, results).Err? <==> exists k :: 0 <= k < |results| && results[k].Err?
    ensures Collect(names, results).Err? ==>
      exists k :: (0 <= k < |results| && results[k].Err?
        && Collect(names, results).error == results[k].error
        && forall j :: 0 <= j < k ==> results[j].Ok?)
  {
    if names != [] {
      var n := |names| - 1;
      CollectFails(names[..n], results[..n]);
      assert forall k :: 0 <= k < n ==> results[..n][k] == results[k];
    }
  }

  /** After a successful run exactly the listed moons are present. */
  lemma MoonsKeys(d: FileDict, moons: seq<(string, string)>, answers: map<string, string>)
    requires forall k :: 0 <= k < |moons| ==> moons[k].1 in answers
    requires Moons(d, moons, answers).Ok?
    ensures forall name :: name in Moons(d, moons, answers).value <==> exists k :: 0 <= k < |moons| && moons[k].0 == name
  {
    var names := Names(moons);
    CollectKeys(names, Results(d, moons, answers));
    forall name ensures name in names <==> exists k :: 0 <= k < |moons| && moons[k].0 == name {
      if name in names {
        var k :| 0 <= k < |names| && names[k] == name;
        assert moons[k].0 == name;
      }
    }
  }

  /** Every moon's position depends on its own answer only: after a
      successful run of moons listed once each, each holds the position its
      answer gives. */
  lemma MoonsAreIndependent(d: FileDict, moons: seq<(string, string)>, answers: map<string, string>)
    requires forall k :: 0 <= k < |moons| ==> moons[k].1 in answers
    requires DistinctNames(moons)
    requires Moons(d, moons, answers).Ok?
    ensures forall k :: 0 <= k < |moons| ==>
      moons[k].0 in Moons(d, moons, answers).value && MoonFromAnswer(d, answers[moons[k].1]).Ok?
      && Moons(d, moons, answers).value[moons[k].0] == MoonFromAnswer(d, answers[moons[k].1]).value
  {
    var names := Names(moons);
    var results := Results(d, moons, answers);
    assert forall i, j :: 0 <= i < j < |names| ==> names[i] != names[j];
    CollectEntries(names, results);
    var m := Collect(names, results).value;
    assert Moons(d, moons, answers).value == m;
    forall k | 0 <= k < |moons|
      ensures moons[k].0 in m && MoonFromAnswer(d, answers[moons[k].1]).Ok?
      ensures m[moons[k].0] == MoonFromAnswer(d, answers[moons[k].1]).value
    {
      assert results[k] == MoonFromAnswer(d, answers[moons[k].1]) && names[k] == moons[k].0;
    }
  }

  /** Names listed once each. */
  predicate DistinctNames(moons: seq<(string, string)>)
  {
    forall i, j :: 0 <= i < j < |moons| ==> moons[i].0 != moons[j].0
  }

  /** The `file_dict` of `ephem_main` differs from the header dictionary
      only in its JPL coordinates, which every pass overwrites first. */
  lemma NextPassSeesHeader(d: FileDict, fileDict: FileDict, row: EphemRow)
    requires fileDict.(jplRa := d.jplRa, jplDec := d.jplDec) == d
    ensures MoonPositionOf(fileDict, row) == MoonPositionOf(d, row)
  {
    assert WithRow(fileDict, row) == WithRow(d, row);
  }

  /** One pass of the loop of `ephem_main`: trim the answer, update the
      dictionary, position the moon. */
  method OneMoon(d: FileDict, fileDict: FileDict, answer: string) returns (r: Result<(FileDict, MoonPosition)>)
    requires fileDict.(jplRa := d.jplRa, jplDec := d.jplDec) == d
    ensures r.Ok? <==> MoonFromAnswer(d, answer).Ok?
    ensures r.Err? ==> MoonFromAnswer(d, answer) == Err(r.error)
    ensures r.Ok? ==> r.value.1 == MoonFromAnswer(d, answer).value
    ensures r.Ok? ==> r.value.0.(jplRa := d.jplRa, jplDec := d.jplDec) == d
  {
    var trimmed := TrimData(answer);
    if trimmed.Err? {
      return Err(trimmed.error);
    }
    if trimmed.value.None? {
      return Err(TypeError("'NoneType' object is not iterable"));
    }
    NextPassSeesHeader(d, fileDict, trimmed.value.value.row);
    var moon := MoonPositionOf(fileDict, trimmed.value.value.row);
    if moon.Err? {
      return Err(moon.error);
    }
    r := Ok(moon.value);
  }

  /** The loop of `ephem_main` over the moon dictionary, with the answers
      telnet gave (its retry loop only ends with an answer). */
  method EphemMain(d: FileDict, moons: seq<(string, string)>, answers: map<string, string>)
    returns (r: Result<map<string, MoonPosition>>)
    requires forall k :: 0 <= k < |moons| ==> moons[k].1 in answers
    ensures r == Moons(d, moons, answers)
  {
    ghost var names := Names(moons);
    ghost var results := Results(d, moons, answers);
    var fileDict := d;
    var moonDict: map<string, MoonPosition> := map[];
    var i := 0;
    while i < |moons|
      invariant 0 <= i <= |moons|
      invariant Collect(names[..i], results[..i]) == Ok(moonDict)
      invariant fileDict.(jplRa := d.jplRa, jplDec := d.jplDec) == d
    {
      CollectStep(names, results, i, moonDict);
      var (name, id) := moons[i];
      var moon := OneMoon(d, fileDict, answers[id]);
      assert results[i] == MoonFromAnswer(d, answers[id]);
      if moon.Err? {
        CollectPrefixFails(names, results, i + 1);
        return Err(moon.error);
      }
      fileDict := moon.value.0;
      moonDict := moonDict[name := moon.value.1];
      i := i + 1;
    }
    assert names[..|moons|] == names && results[..|moons|] == results;
    r := Ok(moonDict);
  }

  /** One more moon after a prefix that succeeded. */
  lemma CollectStep(names: seq<string>, results: seq<Result<MoonPosition>>, i: nat, m: map<string, MoonPosition>)
    requires |names| == |results| && i < |names|
    requires Collect(names[..i], results[..i]) == Ok(m)
    ensures Collect(names[..i + 1], results[..i + 1])
      == if results[i].Err? then Err(results[i].error) else Ok(m[names[i] := results[i].value])
  {
    assert names[..i + 1][..i] == names[..i] && results[..i + 1][..i] == results[..i];
  }

  /** A failure on a prefix is the failure of the whole run. */
  lemma {:induction false} CollectPrefixFails(names: seq<string>, results: seq<Result<MoonPosition>>, i: nat)
    requires |names| == |results| && i <= |names|
    requires Collect(names[..i], results[..i]).Err?
    ensures Collect(names, results) == Collect(names[..i], results[..i])
    decreases |names| - i
  {
    if i < |names| {
      var j := |names| - 1;
      assert names[..j][..i] == names[..i] && results[..j][..i] == results[..i];
      CollectPrefixFails(names[..j], results[..j], i);
    } else {
      assert names[..i] == names && results[..i] == results;
    }
  }
}
