/** The controller of the imaging pipeline
    (`mtpipeline/imaging/imaging_pipeline.py`): the names of each step's
    outputs, the detector, gain and read noise taken from the FITS header,
    and the rule that skips a step whose outputs already exist. The steps
    themselves (cosmic-ray rejection, AstroDrizzle, the PNG trim) are
    external programs; a run is modelled by the calls it makes. */
module ImagingPipeline {
  import opened Wrappers
  import opened PyStr
  import PosixPath
  import FileHandling

  // ---------------------------------------------------------------------------
  // make_output_file_dict
  // ---------------------------------------------------------------------------

  /** The two variants every step writes: plain and cosmic-ray rejected. */
  const CrTags: seq<string> := ["_", "_cr_"]

  /** The drizzled-file infix: AstroDrizzle drops `_flt` but keeps `_c0m`. */
  function DrizzleInfix(fitsType: string): (infix: string)
    ensures fitsType == "flt" ==> infix == ""
    ensures fitsType != "flt" ==> infix == "c0m_"
  {
    if fitsType == "flt" then "" else "c0m_"
  }

  /** `dir` joined with `base + tag + tail`, once per tag. */
  function Named(dir: string, base: string, tags: seq<string>, tail: string): (names: seq<string>)
    ensures |names| == |tags|
  {
    seq(|tags|, k requires 0 <= k < |tags| => PosixPath.Join(dir, base + tags[k] + tail))
  }

  lemma NamedExtend(dir: string, base: string, tags: seq<string>, i: nat, tail: string)
    requires i < |tags|
    ensures Named(dir, base, tags[..i + 1], tail) == Named(dir, base, tags[..i], tail) + [PosixPath.Join(dir, base + tags[i] + tail)]
  {
  }

  /** Every name of `Named` is in `dir`, under the name its tag gives. */
  lemma NamedInDir(dir: string, base: string, tags: seq<string>, tail: string)
    requires PosixPath.NormalHead(dir) && '/' !in base && '/' !in tail
    requires forall k :: 0 <= k < |tags| ==> '/' !in tags[k]
    ensures forall k :: 0 <= k < |tags| ==> PosixPath.Split(Named(dir, base, tags, tail)[k]) == (dir, base + tags[k] + tail)
  {
    forall k | 0 <= k < |tags|
      ensures PosixPath.Split(Named(dir, base, tags, tail)[k]) == (dir, base + tags[k] + tail)
    {
      PosixPath.SplitJoin(dir, base + tags[k] + tail);
    }
  }

  /** The observation identifier: the file name up to its first '_'. */
  function BaseName(filename: string): string
  {
    Split(PosixPath.Basename(filename), '_')[0]
  }

  /** The dictionary for an accepted input name. */
  function OutputNames(filename: string): FileHandling.OutputFiles
  {
    var path := PosixPath.Split(filename).0;
    var base := BaseName(filename);
    var fitsType := Slice(filename, -8, -5);
    var infix := DrizzleInfix(fitsType);
    FileHandling.OutputFiles(
      filename,
      Named(path, base, CrTags, fitsType + ".fits"),
      Named(path, base, CrTags, infix + "wide_single_sci.fits"),
      Named(path, base, CrTags, infix + "wide_single_wht.fits"),
      Named(PosixPath.Join(path, "png"), base, CrTags, infix + "wide_single_sci_linear.png"))
  }

  function OutputFileDict(filename: string): Result<FileHandling.OutputFiles>
  {
    if !FileHandling.AcceptedInput(filename) then
      Err(AssertionError(filename + " does not end in \"c0m.fits\" or \"flt.fits\"."))
    else Ok(OutputNames(filename))
  }

  /** `make_output_file_dict`, appending in the three loops over the tags. */
  method MakeOutputFileDict(filename: string) returns (r: Result<FileHandling.OutputFiles>)
    ensures r == OutputFileDict(filename)
  {
    if !FileHandling.AcceptedInput(filename) {
      return Err(AssertionError(filename + " does not end in \"c0m.fits\" or \"flt.fits\"."));
    }
    var fitsType := Slice(filename, -8, -5);
    var (path, basename) := PosixPath.Split(filename);
    var base := Split(basename, '_')[0];

    var crTail := fitsType + ".fits";
    var cr := [];
    var i := 0;
    while i < |CrTags|
      invariant 0 <= i <= |CrTags|
      invariant cr == Named(path, base, CrTags[..i], crTail)
    {
      NamedExtend(path, base, CrTags, i, crTail);
      cr := cr + [PosixPath.Join(path, base + CrTags[i] + crTail)];
      i := i + 1;
    }

    var infix := if fitsType == "flt" then "" else "c0m_";
    var sciTail := infix + "wide_single_sci.fits";
    var whtTail := infix + "wide_single_wht.fits";
    var drizzle := [];
    var weight := [];
    i := 0;
    while i < |CrTags|
      invariant 0 <= i <= |CrTags|
      invariant drizzle == Named(path, base, CrTags[..i], sciTail)
      invariant weight == Named(path, base, CrTags[..i], whtTail)
    {
      NamedExtend(path, base, CrTags, i, sciTail);
      NamedExtend(path, base, CrTags, i, whtTail);
      drizzle := drizzle + [PosixPath.Join(path, base + CrTags[i] + sciTail)];
      weight := weight + [PosixPath.Join(path, base + CrTags[i] + whtTail)];
      i := i + 1;
    }

    var pngDir := PosixPath.Join(path, "png");
    var pngTail := infix + "wide_single_sci_linear.png";
    var png := [];
    i := 0;
    while i < |CrTags|
      invariant 0 <= i <= |CrTags|
      invariant png == Named(pngDir, base, CrTags[..i], pngTail)
    {
      NamedExtend(pngDir, base, CrTags, i, pngTail);
      png := png + [PosixPath.Join(pngDir, base + CrTags[i] + pngTail)];
      i := i + 1;
    }
    assert CrTags[..i] == CrTags;
    r := Ok(FileHandling.OutputFiles(filename, cr, drizzle, weight, png));
  }

  /** Only `c0m.fits` and `flt.fits` names are accepted; an accepted name
      gives two names per step, the CR-rejection ones naming the input type. */
  lemma OutputShape(filename: string)
    ensures OutputFileDict(filename).Ok? <==> FileHandling.AcceptedInput(filename)
    ensures OutputFileDict(filename).Err? ==> OutputFileDict(filename).error.AssertionError?
    ensures var r := OutputFileDict(filename);
      r.Ok? ==> (r.value.inputFile == filename && |r.value.crRejectOutput| == 2 && |r.value.drizzleOutput| == 2
                 && |r.value.drizzleWeight| == 2 && |r.value.pngOutput| == 2)
  {
  }

  /** The identifier is the basename's text before its first '_': a prefix
      of the basename holding no '_'. */
  lemma BaseNameIsPrefix(filename: string)
    ensures StartsWith(PosixPath.Basename(filename), BaseName(filename))
    ensures '_' !in BaseName(filename)
  {
    var b := PosixPath.Basename(filename);
    SplitJoin(b, '_');
    JoinPrefix(Split(b, '_'), "_");
  }

  lemma {:induction false} JoinPrefix(parts: seq<string>, sep: string)
    requires |parts| >= 1
    ensures StartsWith(Join(parts, sep), parts[0])
  {
    if |parts| > 1 {
      assert Join(parts, sep) == parts[0] + (sep + Join(parts[1..], sep));
    }
  }

  /** The drizzled names carry `c0m_` after the tag for a `c0m` input and
      nothing for an `flt` input. */
  lemma DrizzleInfixOfInput(filename: string)
    requires FileHandling.AcceptedInput(filename)
    ensures EndsWith(filename, "flt.fits") ==> DrizzleInfix(Slice(filename, -8, -5)) == ""
    ensures EndsWith(filename, "c0m.fits") ==> DrizzleInfix(Slice(filename, -8, -5)) == "c0m_"
  {
    FileHandling.FitsTypeOfAccepted(filename);
    if EndsWith(filename, "c0m.fits") {
      assert !EndsWith(filename, "flt.fits") by {
        assert filename[|filename| - 8..][0] == 'c';
      }
    }
  }

  /** The identifier holds no '/', being part of a basename. */
  lemma BaseNameHasNoSlash(filename: string)
    ensures '/' !in BaseName(filename)
  {
    var base := BaseName(filename);
    BaseNameIsPrefix(filename);
    assert PosixPath.Basename(filename)[..|base|] == base;
  }

  /** `png` joined onto a directory is a directory in `split` form whose
      basename is `png`. */
  lemma PngDirNormal(dir: string)
    ensures PosixPath.NormalHead(PosixPath.Join(dir, "png"))
    ensures PosixPath.Basename(PosixPath.Join(dir, "png")) == "png"
  {
    var pngDir := PosixPath.Join(dir, "png");
    PosixPath.JoinBasename(dir, "png");
    assert pngDir[|pngDir| - 1] == 'g';
  }

  lemma CrTagsHaveNoSlash()
    ensures forall k :: 0 <= k < |CrTags| ==> '/' !in CrTags[k]
  {
  }

  /** The PNG names lie in the `png` sub-directory of the input's
      directory. */
  lemma PngDirectory(filename: string)
    requires FileHandling.AcceptedInput(filename)
    ensures var dir := PosixPath.Split(filename).0;
      var png := OutputNames(filename).pngOutput;
      PosixPath.Split(png[0]).0 == PosixPath.Join(dir, "png")
      && PosixPath.Split(png[1]).0 == PosixPath.Join(dir, "png")
      && PosixPath.Basename(PosixPath.Join(dir, "png")) == "png"
  {
    var dir := PosixPath.Split(filename).0;
    var pngDir := PosixPath.Join(dir, "png");
    var base := BaseName(filename);
    var fitsType := Slice(filename, -8, -5);
    var tail := DrizzleInfix(fitsType) + "wide_single_sci_linear.png";
    PngDirNormal(dir);
    BaseNameHasNoSlash(filename);
    InfixTailHasNoSlash(fitsType, "wide_single_sci_linear.png");
    CrNamesInDir(pngDir, base, tail);
  }

  /** Both CR-rejection names built in `dir` have `dir` as their head. */
  lemma CrNamesInDir(dir: string, base: string, tail: string)
    requires PosixPath.NormalHead(dir) && '/' !in base && '/' !in tail
    ensures var names := Named(dir, base, CrTags, tail);
      PosixPath.Split(names[0]).0 == dir && PosixPath.Split(names[1]).0 == dir
  {
    CrTagsHaveNoSlash();
    NamedInDir(dir, base, CrTags, tail);
  }

  lemma InfixTailHasNoSlash(fitsType: string, rest: string)
    requires '/' !in rest
    ensures '/' !in DrizzleInfix(fitsType) + rest
  {
    var infix := DrizzleInfix(fitsType);
    assert '/' !in infix;
    forall c | c in infix + rest ensures c != '/' {
      assert c in multiset(infix + rest);
    }
  }

  lemma FitsTypeHasNoSlash(filename: string)
    requires FileHandling.AcceptedInput(filename)
    ensures '/' !in Slice(filename, -8, -5) + ".fits"
  {
    FileHandling.FitsTypeOfAccepted(filename);
  }

  /** The CR-rejection names lie in the input's own directory. */
  lemma CrRejectDirectory(filename: string)
    requires FileHandling.AcceptedInput(filename)
    ensures var dir := PosixPath.Split(filename).0;
      var cr := OutputNames(filename).crRejectOutput;
      PosixPath.Split(cr[0]).0 == dir && PosixPath.Split(cr[1]).0 == dir
  {
    var dir := PosixPath.Split(filename).0;
    PosixPath.SplitHeadNormal(filename);
    BaseNameHasNoSlash(filename);
    CrTagsHaveNoSlash();
    FitsTypeHasNoSlash(filename);
    NamedInDir(dir, BaseName(filename), CrTags, Slice(filename, -8, -5) + ".fits");
  }

  // ---------------------------------------------------------------------------
  // get_metadata
  // ---------------------------------------------------------------------------

  /** The keywords of the primary header: text values and numeric values. */
  datatype FitsHeader = FitsHeader(text: map<string, string>, numbers: map<string, real>)

  datatype Metadata = Metadata(detector: string, readnoise: Option<real>, gain: Option<real>)

  const NoiseKeys: seq<string> := ["readnsea", "readnseb", "readnsec", "readnsed"]

  /** Whether the header carries gain and read noise for the detector: not
      for ACS/SBC and not for WFPC2. */
  predicate HasNoiseKeywords(instrument: string, detector: string)
  {
    detector != "SBC" && instrument != "WFPC2"
  }

  function Max(a: real, b: real): real { if a >= b then a else b }

  /** `get_metadata`: the detector (the instrument when the header has no
      DETECTOR keyword), and the gain and the largest of the four read
      noises where the header carries them. A missing keyword is a
      KeyError. */
  function HeaderMetadata(header: FitsHeader): (r: Result<Metadata>)
    ensures r.Err? <==> ("instrume" !in header.text
                         || (var instrument := header.text["instrume"];
                             var detector := if "detector" in header.text then header.text["detector"] else instrument;
                             HasNoiseKeywords(instrument, detector)
                             && ("ccdgain" !in header.numbers || exists k :: 0 <= k < 4 && NoiseKeys[k] !in header.numbers)))
    ensures r.Err? ==> r.error.KeyError?
    ensures r.Ok? ==>
      var instrument := header.text["instrume"];
      r.value.detector == (if "detector" in header.text then header.text["detector"] else instrument)
      && (r.value.gain.Some? <==> HasNoiseKeywords(instrument, r.value.detector))
      && (r.value.readnoise.Some? <==> HasNoiseKeywords(instrument, r.value.detector))
      && (r.value.gain.Some? ==> r.value.gain.value == header.numbers["ccdgain"])
      && (r.value.readnoise.Some? ==>
            (forall k :: 0 <= k < 4 ==> header.numbers[NoiseKeys[k]] <= r.value.readnoise.value)
            && exists k :: 0 <= k < 4 && header.numbers[NoiseKeys[k]] == r.value.readnoise.value)
  {
    if "instrume" !in header.text then Err(KeyError("instrume"))
    else
      var instrument := header.text["instrume"];
      var detector := if "detector" in header.text then header.text["detector"] else instrument;
      if !HasNoiseKeywords(instrument, detector) then Ok(Metadata(detector, None, None))
      else if "ccdgain" !in header.numbers then Err(KeyError("ccdgain"))
      else if NoiseKeys[0] !in header.numbers then Err(KeyError(NoiseKeys[0]))
      else if NoiseKeys[1] !in header.numbers then Err(KeyError(NoiseKeys[1]))
      else if NoiseKeys[2] !in header.numbers then Err(KeyError(NoiseKeys[2]))
      else if NoiseKeys[3] !in header.numbers then Err(KeyError(NoiseKeys[3]))
      else
        var a := header.numbers[NoiseKeys[0]];
        var b := header.numbers[NoiseKeys[1]];
        var c := header.numbers[NoiseKeys[2]];
        var d := header.numbers[NoiseKeys[3]];
        Ok(Metadata(detector, Some(Max(Max(a, b), Max(c, d))), Some(header.numbers["ccdgain"])))
  }

  method GetMetadata(header: FitsHeader) returns (r: Result<Metadata>)
    ensures r == HeaderMetadata(header)
  {
    if "instrume" !in header.text {
      return Err(KeyError("instrume"));
    }
    var instrument := header.text["instrume"];
    var detector;
    if "detector" in header.text {
      detector := header.text["detector"];
    } else {
      detector := instrument;
    }
    var gain: Option<real> := None;
    var readnoise: Option<real> := None;
    if detector != "SBC" && instrument != "WFPC2" {
      if "ccdgain" !in header.numbers {
        return Err(KeyError("ccdgain"));
      }
      gain := Some(header.numbers["ccdgain"]);
      var k := 0;
      while k < 4
        invariant 0 <= k <= 4
        invariant forall j :: 0 <= j < k ==> NoiseKeys[j] in header.numbers
      {
        if NoiseKeys[k] !in header.numbers {
          return Err(KeyError(NoiseKeys[k]));
        }
        k := k + 1;
      }
      var a := header.numbers[NoiseKeys[0]];
      var b := header.numbers[NoiseKeys[1]];
      var c := header.numbers[NoiseKeys[2]];
      var d := header.numbers[NoiseKeys[3]];
      readnoise := Some(Max(Max(a, b), Max(c, d)));
    }
    r := Ok(Metadata(detector, readnoise, gain));
  }

  // ---------------------------------------------------------------------------
  // The step-skip rule and the run
  // ---------------------------------------------------------------------------

  /** Whether every output is present among the existing files. */
  predicate AllPresent(outputs: seq<string>, existing: set<string>)
  {
    forall k :: 0 <= k < |outputs| ==> outputs[k] in existing
  }

  /** `check_for_outputs`: true exactly when every output exists. */
  method CheckForOutputs(outputs: seq<string>, existing: set<string>) returns (present: bool)
    ensures present <==> AllPresent(outputs, existing)
  {
    var i := 0;
    while i < |outputs|
      invariant 0 <= i <= |outputs|
      invariant forall k :: 0 <= k < i ==> outputs[k] in existing
    {
      if outputs[i] !in existing {
        return false;
      }
      i := i + 1;
    }
    return true;
  }

  /** A switched-on step runs unless reprocessing is off and its outputs
      are all present. */
  predicate StepRuns(switch: bool, reproc: bool, present: bool)
  {
    switch && !(!reproc && present)
  }

  /** The external programs a run calls, in order. */
  datatype Call =
    | CosmicRayReject(input: string, output: string, detector: string)
    | UpdateWcs(file: string)
    | Astrodrizzle(file: string, detector: string)
    | Trim(file: string, weight: string)

  datatype Switches = Switches(crReject: bool, astrodrizzle: bool, png: bool, reproc: bool)

  /** The step a call belongs to: cosmic-ray rejection, drizzling, or PNG
      making. */
  function StepRank(c: Call): nat
  {
    match c
    case CosmicRayReject(_, _, _) => 0
    case UpdateWcs(_) => 1
    case Astrodrizzle(_, _) => 1
    case Trim(_, _) => 2
  }

  function DrizzleCalls(files: seq<string>, detector: string): (calls: seq<Call>)
    ensures |calls| == 2 * |files|
    ensures forall k :: 0 <= k < |calls| ==> StepRank(calls[k]) == 1
  {
    if files == [] then []
    else
      var file := files[|files| - 1];
      DrizzleCalls(files[..|files| - 1], detector) + [UpdateWcs(file), Astrodrizzle(file, detector)]
  }

  function TrimCalls(files: seq<string>, weights: seq<string>): (calls: seq<Call>)
    requires |files| == |weights|
    ensures |calls| == |files|
    ensures forall k :: 0 <= k < |calls| ==> StepRank(calls[k]) == 2
  {
    if files == [] then []
    else TrimCalls(files[..|files| - 1], weights[..|weights| - 1]) + [Trim(files[|files| - 1], weights[|weights| - 1])]
  }

  /** The calls of the cosmic-ray step. */
  function CrCalls(root: string, o: FileHandling.OutputFiles, detector: string, s: Switches, existing: set<string>): seq<Call>
    requires |o.crRejectOutput| == 2
  {
    if StepRuns(s.crReject, s.reproc, o.crRejectOutput[1] in existing)
    then [CosmicRayReject(root, o.crRejectOutput[1], detector)] else []
  }

  /** The calls of the AstroDrizzle step: one WCS update and one drizzle per
      CR-rejection output. */
  function DrizzleStepCalls(o: FileHandling.OutputFiles, detector: string, s: Switches, existing: set<string>): seq<Call>
  {
    if StepRuns(s.astrodrizzle, s.reproc, AllPresent(o.drizzleOutput, existing))
    then DrizzleCalls(o.crRejectOutput, detector) else []
  }

  /** The calls of the PNG step: one trim per drizzled file and its weight. */
  function TrimStepCalls(o: FileHandling.OutputFiles, s: Switches, existing: set<string>): seq<Call>
    requires |o.drizzleOutput| == |o.drizzleWeight|
  {
    if StepRuns(s.png, s.reproc, AllPresent(o.pngOutput, existing))
    then TrimCalls(o.drizzleOutput, o.drizzleWeight) else []
  }

  /** The calls of the three steps for a given output dictionary: the steps
      run in order, so no call of a later step comes before one of an
      earlier step. */
  function Calls(root: string, o: FileHandling.OutputFiles, detector: string, s: Switches, existing: set<string>): (calls: seq<Call>)
    requires |o.crRejectOutput| == 2 && |o.drizzleOutput| == |o.drizzleWeight|
    ensures forall i, j :: 0 <= i < j < |calls| ==> StepRank(calls[i]) <= StepRank(calls[j])
  {
    CrCalls(root, o, detector, s, existing) + DrizzleStepCalls(o, detector, s, existing) + TrimStepCalls(o, s, existing)
  }

  lemma DrizzleCallsExtend(files: seq<string>, i: nat, detector: string)
    requires i < |files|
    ensures DrizzleCalls(files[..i + 1], detector)
      == DrizzleCalls(files[..i], detector) + [UpdateWcs(files[i]), Astrodrizzle(files[i], detector)]
  {
    assert files[..i + 1][..i] == files[..i];
  }

  lemma TrimCallsExtend(files: seq<string>, weights: seq<string>, i: nat)
    requires i < |files| == |weights|
    ensures TrimCalls(files[..i + 1], weights[..i + 1]) == TrimCalls(files[..i], weights[..i]) + [Trim(files[i], weights[i])]
  {
    assert files[..i + 1][..i] == files[..i];
    assert weights[..i + 1][..i] == weights[..i];
  }

  /** The cosmic-ray step: reject unless reprocessing is off and the
      rejected file exists. */
  method CrStep(root: string, o: FileHandling.OutputFiles, detector: string, s: Switches, existing: set<string>)
    returns (calls: seq<Call>)
    requires |o.crRejectOutput| == 2
    ensures calls == CrCalls(root, o, detector, s, existing)
  {
    calls := [];
    if s.crReject {
      var present := CheckForOutputs([o.crRejectOutput[1]], existing);
      assert present <==> o.crRejectOutput[1] in existing by {
        assert [o.crRejectOutput[1]][0] == o.crRejectOutput[1];
      }
      if !(!s.reproc && present) {
        calls := [CosmicRayReject(root, o.crRejectOutput[1], detector)];
      }
    }
  }

  /** The AstroDrizzle step: update the WCS of and drizzle each
      CR-rejection output, unless reprocessing is off and the drizzled files
      exist. */
  method DrizzleStep(o: FileHandling.OutputFiles, detector: string, s: Switches, existing: set<string>)
    returns (calls: seq<Call>)
    ensures calls == DrizzleStepCalls(o, detector, s, existing)
  {
    calls := [];
    if s.astrodrizzle {
      var present := CheckForOutputs(o.drizzleOutput, existing);
      if !(!s.reproc && present) {
        var i := 0;
        while i < |o.crRejectOutput|
          invariant 0 <= i <= |o.crRejectOutput|
          invariant calls == DrizzleCalls(o.crRejectOutput[..i], detector)
        {
          DrizzleCallsExtend(o.crRejectOutput, i, detector);
          calls := calls + [UpdateWcs(o.crRejectOutput[i]), Astrodrizzle(o.crRejectOutput[i], detector)];
          i := i + 1;
        }
        assert o.crRejectOutput[..i] == o.crRejectOutput;
      }
    }
  }

  /** The PNG step: trim each drizzled file with its weight, unless
      reprocessing is off and the PNGs exist. */
  method TrimStep(o: FileHandling.OutputFiles, s: Switches, existing: set<string>)
    returns (calls: seq<Call>)
    requires |o.drizzleOutput| == |o.drizzleWeight|
    ensures calls == TrimStepCalls(o, s, existing)
  {
    calls := [];
    if s.png {
      var present := CheckForOutputs(o.pngOutput, existing);
      if !(!s.reproc && present) {
        var i := 0;
        while i < |o.drizzleOutput|
          invariant 0 <= i <= |o.drizzleOutput|
          invariant calls == TrimCalls(o.drizzleOutput[..i], o.drizzleWeight[..i])
        {
          TrimCallsExtend(o.drizzleOutput, o.drizzleWeight, i);
          calls := calls + [Trim(o.drizzleOutput[i], o.drizzleWeight[i])];
          i := i + 1;
        }
        assert o.drizzleOutput[..i] == o.drizzleOutput;
        assert o.drizzleWeight[..i] == o.drizzleWeight;
      }
    }
  }

  /** `imaging_pipeline`: name the outputs, read the header, then run each
      switched-on step whose outputs are missing or that is reprocessed.
      `existing` is the set of files present when the run starts (each step
      writes only its own outputs). */
  method RunImagingPipeline(root: string, header: FitsHeader, s: Switches, existing: set<string>)
    returns (r: Result<seq<Call>>)
    ensures OutputFileDict(root).Err? ==> r == Err(OutputFileDict(root).error)
    ensures OutputFileDict(root).Ok? && HeaderMetadata(header).Err? ==> r == Err(HeaderMetadata(header).error)
    ensures r.Ok? <==> OutputFileDict(root).Ok? && HeaderMetadata(header).Ok?
    ensures r.Ok? ==> r.value == Calls(root, OutputNames(root), HeaderMetadata(header).value.detector, s, existing)
  {
    var dict := MakeOutputFileDict(root);
    if dict.Err? {
      return Err(dict.error);
    }
    var metadata := GetMetadata(header);
    if metadata.Err? {
      return Err(metadata.error);
    }
    var detector := metadata.value.detector;
    var cr := CrStep(root, dict.value, detector, s, existing);
    var drizzle := DrizzleStep(dict.value, detector, s, existing);
    var trim := TrimStep(dict.value, s, existing);
    r := Ok(cr + drizzle + trim);
  }

  /** A step runs exactly when it is switched on and either reprocessing is
      on or one of its outputs is missing. */
  lemma StepSkipRule(switch: bool, reproc: bool, outputs: seq<string>, existing: set<string>)
    ensures StepRuns(switch, reproc, AllPresent(outputs, existing))
      <==> switch && (reproc || exists k :: 0 <= k < |outputs| && outputs[k] !in existing)
  {
  }

  /** The cosmic-ray step makes its one call exactly when it runs; the
      drizzle step makes two calls per CR-rejection output, and the PNG step
      one per drizzled file, when they run, and none otherwise. */
  lemma StepCalls(root: string, o: FileHandling.OutputFiles, detector: string, s: Switches, existing: set<string>)
    requires |o.crRejectOutput| == 2 && |o.drizzleOutput| == |o.drizzleWeight| == 2
    ensures |CrCalls(root, o, detector, s, existing)| == if StepRuns(s.crReject, s.reproc, o.crRejectOutput[1] in existing) then 1 else 0
    ensures |DrizzleStepCalls(o, detector, s, existing)| == if StepRuns(s.astrodrizzle, s.reproc, AllPresent(o.drizzleOutput, existing)) then 4 else 0
    ensures |TrimStepCalls(o, s, existing)| == if StepRuns(s.png, s.reproc, AllPresent(o.pngOutput, existing)) then 2 else 0
  {
  }
}
