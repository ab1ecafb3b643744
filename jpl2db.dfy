/** The JPL HORIZONS step: for every moon of an image's planet, ask HORIZONS
    for the moon's position at the time of the exposure and write it to the
    moon's `master_finders` row, inserting the row when the image has none
    for that moon. The HORIZONS answers are given as text, one per moon id;
    the connection itself is not modelled. Every insert and update commits at
    once, so the table is durable after each moon. */
module Jpl2Db {
  import opened Wrappers
  import opened PyStr
  import PosixPath
  import MasterFinders

  // ---------------------------------------------------------------------------
  // CGI escaping
  // ---------------------------------------------------------------------------

  /** The escaping `cgi_session` applies to each command: spaces to "%20",
      then colons to "%3A". */
  function CgiEscape(item: string): (r: string)
    ensures ' ' !in r && ':' !in r
  {
    ReplaceCharIsSubst(item, ' ', "%20");
    ReplaceCharIsSubst(SubstChar(item, ' ', "%20"), ':', "%3A");
    SubstTwice(item);
    QuotedFree(item);
    Replace(Replace(item, " ", "%20"), ":", "%3A")
  }

  /** The escaping character by character. */
  function EscapeChar(c: char): string
  {
    if c == ' ' then "%20" else if c == ':' then "%3A" else [c]
  }

  function Quoted(s: string): string
    decreases |s|
  {
    if s == [] then [] else EscapeChar(s[0]) + Quoted(s[1..])
  }

  /** URL decoding of the two escapes. */
  function Unquote(s: string): string
    decreases |s|
  {
    if s == [] then []
    else if StartsWith(s, "%20") then " " + Unquote(s[3..])
    else if StartsWith(s, "%3A") then ":" + Unquote(s[3..])
    else [s[0]] + Unquote(s[1..])
  }

  /** The two passes of `replace` escape every character on its own: a "%20"
      written by the first pass holds no colon for the second. */
  lemma {:induction false} CgiEscapeIsPerChar(s: string)
    ensures CgiEscape(s) == Quoted(s)
  {
    ReplaceCharIsSubst(s, ' ', "%20");
    ReplaceCharIsSubst(SubstChar(s, ' ', "%20"), ':', "%3A");
    SubstTwice(s);
  }

  lemma {:induction false} SubstTwice(s: string)
    ensures SubstChar(SubstChar(s, ' ', "%20"), ':', "%3A") == Quoted(s)
    decreases |s|
  {
    if s != [] {
      var head := if s[0] == ' ' then "%20" else [s[0]];
      assert SubstChar(s, ' ', "%20") == head + SubstChar(s[1..], ' ', "%20");
      SubstCharAppend(head, SubstChar(s[1..], ' ', "%20"), ':', "%3A");
      SubstTwice(s[1..]);
      if s[0] == ' ' {
        assert SubstChar("%20", ':', "%3A") == "%20" by {
          assert "%20"[1..] == "20" && "20"[1..] == "0" && "0"[1..] == [];
        }
      } else {
        assert SubstChar([s[0]], ':', "%3A") == EscapeChar(s[0]) by {
          assert [s[0]][1..] == [];
        }
      }
    }
  }

  /** Escaped commands hold neither spaces nor colons, and for commands
      without a '%' decoding gives the command back. */
  lemma CgiEscapeRoundTrip(s: string)
    ensures ' ' !in CgiEscape(s) && ':' !in CgiEscape(s)
    ensures '%' !in s ==> Unquote(CgiEscape(s)) == s
  {
    CgiEscapeIsPerChar(s);
    QuotedFree(s);
    if '%' !in s {
      UnquoteQuoted(s);
    }
  }

  lemma {:induction false} QuotedFree(s: string)
    ensures ' ' !in Quoted(s) && ':' !in Quoted(s)
    decreases |s|
  {
    if s != [] {
      QuotedFree(s[1..]);
    }
  }

  lemma {:induction false} UnquoteQuoted(s: string)
    requires '%' !in s
    ensures Unquote(Quoted(s)) == s
    decreases |s|
  {
    if s != [] {
      var q := Quoted(s);
      UnquoteQuoted(s[1..]);
      assert q == EscapeChar(s[0]) + Quoted(s[1..]);
      if s[0] == ' ' || s[0] == ':' {
        assert q[3..] == Quoted(s[1..]);
      } else {
        assert q[0] == s[0] && q[1..] == Quoted(s[1..]);
        assert !StartsWith(q, "%20") && !StartsWith(q, "%3A");
      }
    }
  }

  // ---------------------------------------------------------------------------
  // The HORIZONS answer
  // ---------------------------------------------------------------------------

  /** The fields `parse_jpl_cgi` keeps from the ephemeris line. */
  datatype JplDict = JplDict(
    date: string, jplRa: string, jplDec: string,
    jplRaApparent: string, jplDecApparent: string,
    jplRaDelta: string, jplDecDelta: string,
    apMag: string, angDiam: string)

  /** HORIZONS writes "n.a." for an unknown magnitude or diameter. */
  function Known(field: string): (r: string)
    ensures r != "n.a."
    ensures field == "n.a." ==> r == "-999"
    ensures field != "n.a." ==> r == field
  {
    if field == "n.a." then "-999" else field
  }

  /** One comma-separated ephemeris line: fields stripped, the sexagesimal
      ones with their spaces turned into colons; fewer than 14 fields raise
      `IndexError`. */
  function ParseEphemLine(line: string): (r: Result<JplDict>)
    ensures r.Ok? <==> |Split(line, ',')| >= 14
    ensures r.Ok? ==>
      var f := Split(line, ',');
      && r.value.date == Strip(f[0])
      && r.value.jplRa == Replace(Strip(f[3]), " ", ":") && ' ' !in r.value.jplRa
      && r.value.jplDec == Replace(Strip(f[4]), " ", ":") && ' ' !in r.value.jplDec
      && r.value.jplRaDelta == Strip(f[7]) && r.value.jplDecDelta == Strip(f[8])
      && r.value.apMag == Known(Strip(f[11])) && r.value.angDiam == Known(Strip(f[13]))
  {
    var f := Split(line, ',');
    if |f| < 14 then Err(IndexError)
    else
      NoSpaceAfterReplace(Strip(f[3]));
      NoSpaceAfterReplace(Strip(f[4]));
      Ok(JplDict(
        Strip(f[0]),
        Replace(Strip(f[3]), " ", ":"), Replace(Strip(f[4]), " ", ":"),
        Replace(Strip(f[5]), " ", ":"), Replace(Strip(f[6]), " ", ":"),
        Strip(f[7]), Strip(f[8]),
        Known(Strip(f[11])), Known(Strip(f[13]))))
  }

  lemma NoSpaceAfterReplace(s: string)
    ensures ' ' !in Replace(s, " ", ":")
  {
    ReplaceCharPointwise(s, ' ', ':');
    var r := Replace(s, " ", ":");
    assert forall k :: 0 <= k < |r| ==> r[k] != ' ';
  }

  /** The scan of `parse_jpl_cgi` from line `lines[0]` on, with `soe` telling
      whether "$$SOE" has been seen: "$$EOE" ends it with nothing, and the
      first line after "$$SOE" is parsed. `None` is Python's `None`, returned
      when the text runs out first. */
  function ScanCgi(lines: seq<string>, soe: bool): (r: Option<Result<JplDict>>)
    ensures r.Some? ==> soe || "$$SOE" in lines
    ensures r.Some? ==> exists i :: 0 <= i < |lines| && lines[i] != "$$EOE" && r.value == ParseEphemLine(lines[i])
    decreases |lines|
  {
    if lines == [] then None
    else if lines[0] == "$$EOE" then None
    else if soe then Some(ParseEphemLine(lines[0]))
    else ScanCgi(lines[1..], lines[0] == "$$SOE")
  }

  /** `parse_jpl_cgi(data)`. */
  method ParseJplCgi(data: string) returns (r: Option<Result<JplDict>>)
    ensures r == ScanCgi(Split(data, '\n'), false)
  {
    var lines := Split(data, '\n');
    var soe := false;
    var i := 0;
    while i < |lines|
      invariant 0 <= i <= |lines|
      invariant ScanCgi(lines, false) == ScanCgi(lines[i..], soe)
    {
      var line := lines[i];
      assert lines[i..][0] == line && lines[i..][1..] == lines[i + 1..];
      if line == "$$EOE" {
        return None;
      }
      if soe {
        return Some(ParseEphemLine(line));
      }
      if line == "$$SOE" {
        soe := true;
      }
      i := i + 1;
    }
    return None;
  }

  /** Only the line right after the first "$$SOE" is read, and only when no
      "$$EOE" comes before it. */
  lemma {:induction false} ScanReadsLineAfterSoe(pre: seq<string>, line: string, post: seq<string>)
    requires "$$SOE" !in pre && "$$EOE" !in pre
    requires line != "$$EOE"
    ensures ScanCgi(pre + ["$$SOE", line] + post, false) == Some(ParseEphemLine(line))
    decreases |pre|
  {
    var lines := pre + ["$$SOE", line] + post;
    if pre == [] {
      assert lines[1..] == [line] + post;
    } else {
      assert lines[1..] == pre[1..] + ["$$SOE", line] + post;
      ScanReadsLineAfterSoe(pre[1..], line, post);
    }
  }

  /** Text without a "$$SOE" line gives `None`, and so does text whose
      "$$EOE" comes first. */
  lemma {:induction false} ScanWithoutSoe(lines: seq<string>)
    requires "$$SOE" !in lines
    ensures ScanCgi(lines, false) == None
    decreases |lines|
  {
    if lines != [] {
      ScanWithoutSoe(lines[1..]);
    }
  }

  lemma {:induction false} ScanStopsAtEoe(pre: seq<string>, post: seq<string>)
    requires "$$SOE" !in pre
    ensures ScanCgi(pre + ["$$EOE"] + post, false) == None
    decreases |pre|
  {
    var lines := pre + ["$$EOE"] + post;
    if pre != [] {
      assert lines[1..] == pre[1..] + ["$$EOE"] + post;
      ScanStopsAtEoe(pre[1..], post);
    }
  }

  // ---------------------------------------------------------------------------
  // The moon list
  // ---------------------------------------------------------------------------

  /** One entry of `all_moon_dict`: HORIZONS id and moon name. */
  datatype MoonEntry = MoonEntry(id: string, objectName: string)

  /** The dictionary, with its keys in the order they were first added. */
  datatype MoonDict = MoonDict(keys: seq<string>, entries: map<string, MoonEntry>)

  ghost predicate WellFormed(d: MoonDict)
  {
    && (forall k :: k in d.keys <==> k in d.entries)
    && (forall i, j :: 0 <= i < j < |d.keys| ==> d.keys[i] != d.keys[j])
    && (forall k :: k in d.entries ==> d.entries[k].objectName == k)
  }

  /** `all_moon_dict[line[1]] = {'id': line[0], 'object': line[1]}`. */
  function AddMoon(d: MoonDict, toks: seq<string>): (r: MoonDict)
    requires |toks| >= 2
    ensures WellFormed(d) ==> WellFormed(r)
    ensures r.entries == d.entries[toks[1] := MoonEntry(toks[0], toks[1])]
  {
    var keys := if toks[1] in d.entries then d.keys else d.keys + [toks[1]];
    MoonDict(keys, d.entries[toks[1] := MoonEntry(toks[0], toks[1])])
  }

  /** Whether a line of the file starts the planet's block: its last
      whitespace-separated field is the target name. */
  predicate Starts(toks: seq<string>, targname: string)
  {
    toks != [] && toks[|toks| - 1] == targname
  }

  function LineTokens(line: string): seq<string>
  {
    Tokens(Strip(line))
  }

  /** The scan of `make_all_moon_dict` over `lines`, `on` being the
      `moon_switch` flag and `d` the dictionary so far: the block starts at
      the target's line and ends at the first blank line; a one-field line
      inside it raises `IndexError`. */
  function MoonScan(lines: seq<string>, targname: string, on: bool, d: MoonDict): (r: Result<MoonDict>)
    ensures WellFormed(d) && r.Ok? ==> WellFormed(r.value)
    decreases |lines|
  {
    if lines == [] then Ok(d)
    else
      var toks := LineTokens(lines[0]);
      var on' := on || Starts(toks, targname);
      if !on' then MoonScan(lines[1..], targname, false, d)
      else if toks == [] then Ok(d)
      else if |toks| < 2 then Err(IndexError)
      else MoonScan(lines[1..], targname, true, AddMoon(d, toks))
  }

  const EmptyMoons: MoonDict := MoonDict([], map[])

  /** `make_all_moon_dict` over the lines of the planets and moons file. */
  method MakeAllMoonDict(lines: seq<string>, targname: string) returns (r: Result<MoonDict>)
    ensures r == MoonScan(lines, targname, false, EmptyMoons)
    ensures r.Ok? ==> WellFormed(r.value)
  {
    var d := EmptyMoons;
    var on := false;
    var i := 0;
    while i < |lines|
      invariant 0 <= i <= |lines|
      invariant MoonScan(lines, targname, false, EmptyMoons) == MoonScan(lines[i..], targname, on, d)
    {
      assert lines[i..][0] == lines[i] && lines[i..][1..] == lines[i + 1..];
      var toks := LineTokens(lines[i]);
      if Starts(toks, targname) {
        on := true;
      }
      if on {
        if toks != [] {
          if |toks| < 2 {
            return Err(IndexError);
          }
          d := AddMoon(d, toks);
        } else {
          return Ok(d);
        }
      }
      i := i + 1;
    }
    return Ok(d);
  }

  /** Lines before the target's line are skipped. */
  lemma {:induction false} MoonScanSkips(pre: seq<string>, rest: seq<string>, targname: string, d: MoonDict)
    requires forall k :: 0 <= k < |pre| ==> !Starts(LineTokens(pre[k]), targname)
    ensures MoonScan(pre + rest, targname, false, d) == MoonScan(rest, targname, false, d)
    decreases |pre|
  {
    if pre != [] {
      assert (pre + rest)[0] == pre[0] && (pre + rest)[1..] == pre[1..] + rest;
      assert !Starts(LineTokens(pre[0]), targname);
      assert forall k :: 0 <= k < |pre[1..]| ==> pre[1..][k] == pre[k + 1];
      MoonScanSkips(pre[1..], rest, targname, d);
    } else {
      assert pre + rest == rest;
    }
  }

  /** The block from the target's line to the first blank line, as the
      dictionary it builds. */
  function Block(block: seq<string>, d: MoonDict): MoonDict
    requires forall k :: 0 <= k < |block| ==> |LineTokens(block[k])| >= 2
    decreases |block|
  {
    if block == [] then d else Block(block[1..], AddMoon(d, LineTokens(block[0])))
  }

  lemma {:induction false} MoonScanBlock(block: seq<string>, blank: string, post: seq<string>, targname: string, d: MoonDict)
    requires forall k :: 0 <= k < |block| ==> |LineTokens(block[k])| >= 2
    requires LineTokens(blank) == []
    ensures MoonScan(block + [blank] + post, targname, true, d) == Ok(Block(block, d))
    decreases |block|
  {
    var lines := block + [blank] + post;
    if block == [] {
      assert lines[0] == blank;
    } else {
      assert lines[0] == block[0] && lines[1..] == block[1..] + [blank] + post;
      assert forall k :: 0 <= k < |block[1..]| ==> block[1..][k] == block[k + 1];
      MoonScanBlock(block[1..], blank, post, targname, AddMoon(d, LineTokens(block[0])));
    }
  }

  /** At the target's line the switch is turned on either way. */
  lemma MoonScanOn(lines: seq<string>, targname: string, d: MoonDict)
    requires lines != [] && Starts(LineTokens(lines[0]), targname)
    ensures MoonScan(lines, targname, false, d) == MoonScan(lines, targname, true, d)
  {
  }

  /** The dictionary holds exactly the lines from the first line whose last
      field is the target name up to the first blank line after it. */
  lemma MoonDictIsBlock(pre: seq<string>, block: seq<string>, blank: string, post: seq<string>, targname: string)
    requires forall k :: 0 <= k < |pre| ==> !Starts(LineTokens(pre[k]), targname)
    requires block != [] && Starts(LineTokens(block[0]), targname)
    requires forall k :: 0 <= k < |block| ==> |LineTokens(block[k])| >= 2
    requires LineTokens(blank) == []
    ensures MoonScan(pre + block + [blank] + post, targname, false, EmptyMoons) == Ok(Block(block, EmptyMoons))
  {
    var lines := block + [blank] + post;
    assert pre + block + [blank] + post == pre + lines;
    MoonScanSkips(pre, lines, targname, EmptyMoons);
    MoonScanBlock(block, blank, post, targname, EmptyMoons);
    MoonScanOn(lines, targname, EmptyMoons);
  }

  /** A block line "id name ..." is stored under its second field. */
  lemma BlockEntry(block: seq<string>, d: MoonDict, i: int)
    requires forall k :: 0 <= k < |block| ==> |LineTokens(block[k])| >= 2
    requires 0 <= i < |block|
    requires forall k :: i < k < |block| ==> LineTokens(block[k])[1] != LineTokens(block[i])[1]
    ensures var t := LineTokens(block[i]);
      t[1] in Block(block, d).entries && Block(block, d).entries[t[1]] == MoonEntry(t[0], t[1])
  {
    BlockEntryAux(block, d, i);
  }

  lemma {:induction false} BlockEntryAux(block: seq<string>, d: MoonDict, i: int)
    requires forall k :: 0 <= k < |block| ==> |LineTokens(block[k])| >= 2
    requires 0 <= i < |block|
    requires forall k :: i < k < |block| ==> LineTokens(block[k])[1] != LineTokens(block[i])[1]
    ensures var t := LineTokens(block[i]);
      t[1] in Block(block, d).entries && Block(block, d).entries[t[1]] == MoonEntry(t[0], t[1])
    decreases |block|
  {
    var t := LineTokens(block[i]);
    if i == 0 {
      BlockKeeps(block[1..], AddMoon(d, t), t[1]);
    } else {
      BlockEntryAux(block[1..], AddMoon(d, LineTokens(block[0])), i - 1);
    }
  }

  lemma {:induction false} BlockKeeps(block: seq<string>, d: MoonDict, key: string)
    requires forall k :: 0 <= k < |block| ==> |LineTokens(block[k])| >= 2
    requires forall k :: 0 <= k < |block| ==> LineTokens(block[k])[1] != key
    requires key in d.entries
    ensures key in Block(block, d).entries && Block(block, d).entries[key] == d.entries[key]
    decreases |block|
  {
    if block != [] {
      BlockKeeps(block[1..], AddMoon(d, LineTokens(block[0])), key);
    }
  }

  // ---------------------------------------------------------------------------
  // The master_finders rows
  // ---------------------------------------------------------------------------

  /** The columns of a `master_finders` row this step writes. */
  datatype FinderRow = FinderRow(
    objectName: string, masterImagesId: int,
    jplRa: Option<string>, jplDec: Option<string>,
    magnitude: Option<real>, diameter: Option<real>, version: string)

  /** `insert_record`: a `float()` that fails leaves the column unset. */
  function NewRow(moon: MoonEntry, jpl: JplDict, imageId: int, version: string): (row: FinderRow)
    ensures row.objectName == moon.objectName && row.masterImagesId == imageId
    ensures row.jplRa == Some(jpl.jplRa) && row.jplDec == Some(jpl.jplDec)
    ensures row.magnitude == ParseFloat(jpl.apMag) && row.diameter == ParseFloat(jpl.angDiam)
  {
    FinderRow(moon.objectName, imageId, Some(jpl.jplRa), Some(jpl.jplDec),
      ParseFloat(jpl.apMag), ParseFloat(jpl.angDiam), version)
  }

  /** `update_record` on one matching row: a `float()` that fails leaves
      that column out of the update. */
  function UpdatedRow(row: FinderRow, moon: MoonEntry, jpl: JplDict, imageId: int, version: string): FinderRow
  {
    FinderRow(moon.objectName, imageId, Some(jpl.jplRa), Some(jpl.jplDec),
      if ParseFloat(jpl.apMag).Some? then ParseFloat(jpl.apMag) else row.magnitude,
      if ParseFloat(jpl.angDiam).Some? then ParseFloat(jpl.angDiam) else row.diameter,
      version)
  }

  predicate Matches(row: FinderRow, imageId: int, moon: string)
  {
    row.masterImagesId == imageId && row.objectName == moon
  }

  /** Rows of the image and moon, and those among them without a JPL right
      ascension. */
  function CountMatches(rows: seq<FinderRow>, imageId: int, moon: string, nullOnly: bool): (n: nat)
    ensures n <= |rows|
    ensures n == 0 <==> forall i :: 0 <= i < |rows| ==> !(Matches(rows[i], imageId, moon) && (!nullOnly || rows[i].jplRa.None?))
    decreases |rows|
  {
    if rows == [] then 0
    else
      (if Matches(rows[0], imageId, moon) && (!nullOnly || rows[0].jplRa.None?) then 1 else 0)
      + CountMatches(rows[1..], imageId, moon, nullOnly)
  }

  function UpdateRows(rows: seq<FinderRow>, moon: MoonEntry, jpl: JplDict, imageId: int, version: string): (r: seq<FinderRow>)
    ensures |r| == |rows|
    ensures forall i :: 0 <= i < |rows| ==>
      r[i] == if Matches(rows[i], imageId, moon.objectName) then UpdatedRow(rows[i], moon, jpl, imageId, version) else rows[i]
  {
    seq(|rows|, i requires 0 <= i < |rows| =>
      if Matches(rows[i], imageId, moon.objectName) then UpdatedRow(rows[i], moon, jpl, imageId, version) else rows[i])
  }

  /** The HORIZONS answer for a moon id, parsed: no answer is an I/O error,
      and a `None` from the parser fails `dict.update`. */
  function Fetch(id: string, responses: map<string, string>): (r: Result<JplDict>)
    ensures id !in responses ==> r == Err(IOError(id))
    ensures r.Ok? ==>
      && id in responses
      && exists i :: 0 <= i < |Split(responses[id], '\n')| && r == ParseEphemLine(Split(responses[id], '\n')[i])
    ensures id in responses && r.Err? ==>
      r.error == TypeError("'NoneType' object is not iterable") || r.error == IndexError
  {
    if id !in responses then Err(IOError(id))
    else match ScanCgi(Split(responses[id], '\n'), false)
      case None => Err(TypeError("'NoneType' object is not iterable"))
      case Some(r) => r
  }

  /** What one moon does to the table: insert when the image has no row for
      it; otherwise update every such row, but only when exactly one of them
      lacks a JPL right ascension or `reproc` is set. */
  function MoonStep(rows: seq<FinderRow>, moon: MoonEntry, imageId: int, responses: map<string, string>, reproc: bool, version: string): (r: Result<seq<FinderRow>>)
    ensures r.Err? ==>
      CountMatches(rows, imageId, moon.objectName, false) == 0
      || CountMatches(rows, imageId, moon.objectName, true) == 1 || reproc
    ensures r.Err? && moon.id !in responses ==> r.error == IOError(moon.id)
    ensures r.Ok? ==> |rows| <= |r.value| <= |rows| + 1
  {
    if CountMatches(rows, imageId, moon.objectName, false) == 0 then
      var jpl :- Fetch(moon.id, responses);
      Ok(rows + [NewRow(moon, jpl, imageId, version)])
    else if CountMatches(rows, imageId, moon.objectName, true) == 1 || reproc then
      var jpl :- Fetch(moon.id, responses);
      Ok(UpdateRows(rows, moon, jpl, imageId, version))
    else Ok(rows)
  }

  /** Inserting happens exactly when no row exists and appends one row;
      an existing row set is left alone unless one of its rows lacks the JPL
      right ascension or `reproc` is set; rows of other images or moons are
      never changed. */
  lemma MoonStepDecision(rows: seq<FinderRow>, moon: MoonEntry, imageId: int, responses: map<string, string>, reproc: bool, version: string)
    requires MoonStep(rows, moon, imageId, responses, reproc, version).Ok?
    ensures var r := MoonStep(rows, moon, imageId, responses, reproc, version).value;
      var n := CountMatches(rows, imageId, moon.objectName, false);
      var nulls := CountMatches(rows, imageId, moon.objectName, true);
      && (n == 0 ==>
            (|r| == |rows| + 1 && r[..|rows|] == rows
             && Matches(r[|rows|], imageId, moon.objectName) && r[|rows|].jplRa.Some?))
      && (n > 0 ==> |r| == |rows|)
      && ((n > 0 && nulls != 1 && !reproc) ==> r == rows)
      && (forall i :: 0 <= i < |rows| && !Matches(rows[i], imageId, moon.objectName) ==> r[i] == rows[i])
      && ((n > 0 && (nulls == 1 || reproc)) ==>
            (forall i :: 0 <= i < |rows| && Matches(rows[i], imageId, moon.objectName) ==>
               r[i].jplRa.Some? && Matches(r[i], imageId, moon.objectName)))
  {
  }

  /** What one moon's turn keeps: rows of other images are untouched, a row
      of the image keeps its moon, and afterwards the moon has a row. */
  lemma MoonStepKeeps(rows: seq<FinderRow>, moon: MoonEntry, imageId: int, responses: map<string, string>, reproc: bool, version: string)
    requires MoonStep(rows, moon, imageId, responses, reproc, version).Ok?
    ensures var r := MoonStep(rows, moon, imageId, responses, reproc, version).value;
      && (forall i :: 0 <= i < |rows| && rows[i].masterImagesId != imageId ==> r[i] == rows[i])
      && (forall i, name :: 0 <= i < |rows| && Matches(rows[i], imageId, name) ==> Matches(r[i], imageId, name))
      && (exists i :: 0 <= i < |r| && Matches(r[i], imageId, moon.objectName))
  {
    var r := MoonStep(rows, moon, imageId, responses, reproc, version).value;
    MoonStepDecision(rows, moon, imageId, responses, reproc, version);
    if CountMatches(rows, imageId, moon.objectName, false) == 0 {
      assert Matches(r[|rows|], imageId, moon.objectName);
    } else {
      var i :| 0 <= i < |rows| && Matches(rows[i], imageId, moon.objectName);
      assert Matches(r[i], imageId, moon.objectName);
    }
  }

  /** The loop over the moons, the table being durable after each one. Each
      moon adds at most one row. */
  function MoonsRun(rows: seq<FinderRow>, moons: MoonDict, keys: seq<string>, imageId: int, responses: map<string, string>, reproc: bool, version: string): (o: (Result<()>, seq<FinderRow>))
    requires forall k :: k in keys ==> k in moons.entries
    ensures |rows| <= |o.1| <= |rows| + |keys|
    decreases |keys|
  {
    if keys == [] then (Ok(()), rows)
    else
      match MoonStep(rows, moons.entries[keys[0]], imageId, responses, reproc, version)
      case Err(e) => (Err(e), rows)
      case Ok(next) => MoonsRun(next, moons, keys[1..], imageId, responses, reproc, version)
  }

  /** Over the whole loop: rows of other images are untouched, a row of the
      image keeps its moon, and when the loop completes every listed moon
      has a row for the image. */
  lemma {:induction false} MoonsRunCovers(rows: seq<FinderRow>, moons: MoonDict, keys: seq<string>, imageId: int, responses: map<string, string>, reproc: bool, version: string)
    requires forall k :: k in keys ==> k in moons.entries
    ensures var o := MoonsRun(rows, moons, keys, imageId, responses, reproc, version);
      && (forall i :: 0 <= i < |rows| && rows[i].masterImagesId != imageId ==> o.1[i] == rows[i])
      && (forall i, name :: 0 <= i < |rows| && Matches(rows[i], imageId, name) ==> Matches(o.1[i], imageId, name))
      && (o.0.Ok? ==> forall k :: k in keys ==>
            exists i :: 0 <= i < |o.1| && Matches(o.1[i], imageId, moons.entries[k].objectName))
    decreases |keys|
  {
    if keys != [] {
      var moon := moons.entries[keys[0]];
      var step := MoonStep(rows, moon, imageId, responses, reproc, version);
      if step.Ok? {
        var next := step.value;
        var o := MoonsRun(next, moons, keys[1..], imageId, responses, reproc, version);
        assert MoonsRun(rows, moons, keys, imageId, responses, reproc, version) == o;
        MoonStepKeeps(rows, moon, imageId, responses, reproc, version);
        MoonsRunCovers(next, moons, keys[1..], imageId, responses, reproc, version);
        if o.0.Ok? {
          forall k | k in keys
            ensures exists i :: 0 <= i < |o.1| && Matches(o.1[i], imageId, moons.entries[k].objectName)
          {
            if k == keys[0] {
              var j :| 0 <= j < |next| && Matches(next[j], imageId, moon.objectName);
              assert Matches(o.1[j], imageId, moon.objectName);
            } else {
              assert k in keys[1..];
            }
          }
        }
      }
    }
  }

  /** One turn of the loop over the moons, from the `i`-th key on. */
  lemma MoonsRunAt(rows: seq<FinderRow>, moons: MoonDict, keys: seq<string>, i: int, imageId: int, responses: map<string, string>, reproc: bool, version: string)
    requires 0 <= i < |keys|
    requires forall k :: k in keys ==> k in moons.entries
    ensures MoonsRun(rows, moons, keys[i..], imageId, responses, reproc, version)
      == match MoonStep(rows, moons.entries[keys[i]], imageId, responses, reproc, version)
         case Err(e) => (Err(e), rows)
         case Ok(next) => MoonsRun(next, moons, keys[i + 1..], imageId, responses, reproc, version)
  {
    assert keys[i..][0] == keys[i] && keys[i..][1..] == keys[i + 1..];
  }

  /** What `jpl2db_main` needs from a FITS file's header. */
  datatype JplHeader = JplHeader(targname: string, dateObs: string, timeObs: string)

  /** The target name `get_header_info` accepts. */
  function HeaderTarget(filename: string, headers: map<string, JplHeader>, planets: seq<string>): (r: Result<string>)
    ensures r.Ok? <==>
      && PosixPath.Splitext(filename).1 == ".fits" && filename in headers
      && MasterFinders.KnownTarget(MasterFinders.TargetName(headers[filename].targname), planets)
    ensures PosixPath.Splitext(filename).1 != ".fits" ==> r.Err? && r.error.AssertionError?
    ensures PosixPath.Splitext(filename).1 == ".fits" && filename !in headers ==> r == Err(IOError(filename))
    ensures filename in headers && r.Err? ==> r.error.AssertionError?
    ensures r.Ok? ==> r.value == MasterFinders.TargetName(headers[filename].targname)
  {
    if PosixPath.Splitext(filename).1 != ".fits" then Err(AssertionError("Expected .fits got " + filename))
    else if filename !in headers then Err(IOError(filename))
    else
      var t := MasterFinders.TargetName(headers[filename].targname);
      if MasterFinders.KnownTarget(t, planets) then Ok(t)
      else Err(AssertionError("Header TARGNAME not in planet_list"))
  }

  /** The `master_images` ids whose FITS file is the given base name. */
  function ImagesNamed(images: seq<MasterFinders.MasterImage>, fits: string): (ids: seq<int>)
    ensures forall id :: id in ids <==> exists i :: 0 <= i < |images| && images[i].fitsFile == fits && images[i].id == id
  {
    if images == [] then []
    else
      var rest := ImagesNamed(images[1..], fits);
      assert forall i :: 1 <= i < |images| ==> images[1..][i - 1] == images[i];
      (if images[0].fitsFile == fits then [images[0].id] else []) + rest
  }

  /** Everything `jpl2db_main` checks before the loop: the name ends in
      ".fits", exactly one image has it as its FITS file, the header's target
      is known, and the moon list parses. */
  function Prepare(filename: string, images: seq<MasterFinders.MasterImage>, headers: map<string, JplHeader>, planets: seq<string>, moonLines: seq<string>): (r: Result<(int, MoonDict)>)
    ensures r.Ok? <==>
      && Slice(filename, -5, |filename|) == ".fits"
      && |ImagesNamed(images, PosixPath.Basename(filename))| == 1
      && HeaderTarget(filename, headers, planets).Ok?
      && MoonScan(moonLines, HeaderTarget(filename, headers, planets).value, false, EmptyMoons).Ok?
    ensures r.Ok? ==> ImagesNamed(images, PosixPath.Basename(filename)) == [r.value.0]
    ensures r.Ok? ==> WellFormed(r.value.1)
    ensures Slice(filename, -5, |filename|) == ".fits" && |ImagesNamed(images, PosixPath.Basename(filename))| == 0
      ==> r == Err(NoResultFound)
    ensures Slice(filename, -5, |filename|) == ".fits" && |ImagesNamed(images, PosixPath.Basename(filename))| > 1
      ==> r == Err(MultipleResultsFound)
    ensures Slice(filename, -5, |filename|) != ".fits" ==> r.Err? && r.error.AssertionError?
  {
    if Slice(filename, -5, |filename|) != ".fits" then Err(AssertionError("Expected .fits got " + filename))
    else
      var imageId :- One(ImagesNamed(images, PosixPath.Basename(filename)));
      var targname :- HeaderTarget(filename, headers, planets);
      var moons :- MoonScan(moonLines, targname, false, EmptyMoons);
      Ok((imageId, moons))
  }

  /** The `master_finders` table; every write is committed at once. */
  class FindersTable {
    var rows: seq<FinderRow>

    constructor(initial: seq<FinderRow>)
      ensures rows == initial
    {
      rows := initial;
    }

    /** `jpl2db_main(filename, reproc)`; the moons are visited in the order
        the file lists them. */
    method Jpl2DbMain(filename: string, images: seq<MasterFinders.MasterImage>, headers: map<string, JplHeader>,
                      planets: seq<string>, moonLines: seq<string>, responses: map<string, string>,
                      reproc: bool, version: string)
      returns (r: Result<()>)
      modifies this
      ensures var p := Prepare(filename, images, headers, planets, moonLines);
        && (p.Err? ==> r == Err(p.error) && rows == old(rows))
        && (p.Ok? ==> (r, rows) == MoonsRun(old(rows), p.value.1, p.value.1.keys, p.value.0, responses, reproc, version))
    {
      var p := Prepare(filename, images, headers, planets, moonLines);
      if p.Err? {
        return Err(p.error);
      }
      r := VisitMoons(p.value.1, p.value.0, responses, reproc, version);
    }

    /** The loop over the moons of `jpl2db_main`, in list order; a failing
        moon ends it with the writes of the moons before it kept. */
    method VisitMoons(moons: MoonDict, imageId: int, responses: map<string, string>, reproc: bool, version: string)
      returns (r: Result<()>)
      requires forall k :: k in moons.keys ==> k in moons.entries
      modifies this
      ensures (r, rows) == MoonsRun(old(rows), moons, moons.keys, imageId, responses, reproc, version)
    {
      var keys := moons.keys;
      ghost var outcome := MoonsRun(rows, moons, keys, imageId, responses, reproc, version);
      var i := 0;
      while i < |keys|
        invariant 0 <= i <= |keys|
        invariant outcome == MoonsRun(rows, moons, keys[i..], imageId, responses, reproc, version)
      {
        MoonsRunAt(rows, moons, keys, i, imageId, responses, reproc, version);
        var moon := moons.entries[keys[i]];
        var next := MoonStep(rows, moon, imageId, responses, reproc, version);
        if next.Err? {
          return Err(next.error);
        }
        rows := next.value;
        i := i + 1;
      }
      return Ok(());
    }
  }
}
