/** Target-name extraction and output-file naming of the pipeline's file
    tools (`mtpipeline/tools/file_handling.py`): `get_mtargs` turns the
    TARGNAME header keyword into the planets and moons it names, and
    `make_output_file_dict` derives every file name a run will write from the
    input name and its header. */
module FileHandling {
  import opened Wrappers
  import opened PyStr
  import PosixPath
  import MasterFinders

  // ---------------------------------------------------------------------------
  // The list of HORIZONS bodies
  // ---------------------------------------------------------------------------

  const ListBuiltins: seq<string> := ["jup-", "gany-", "sat-", "gan-", "io-"]

  /** `get_planets_and_moons_list` over the lines of `planets_and_moons.txt`:
      the built-in entries, then the second space-separated field of every
      line with more than three fields. */
  method GetPlanetsAndMoonsList(lines: seq<string>) returns (list: seq<string>)
    ensures list == ListBuiltins + MasterFinders.ListedNames(lines)
  {
    list := ListBuiltins;
    var i := 0;
    while i < |lines|
      invariant 0 <= i <= |lines|
      invariant list == ListBuiltins + MasterFinders.ListedNames(lines[..i])
    {
      assert lines[..i + 1][..i] == lines[..i];
      var fields := Split(lines[i], ' ');
      if |fields| > 3 {
        list := list + [fields[1]];
      }
      i := i + 1;
    }
    assert lines[..i] == lines;
  }

  // ---------------------------------------------------------------------------
  // get_mtargs, stage by stage
  // ---------------------------------------------------------------------------

  /** The bodies of `list` that occur in the (lower-cased) target name `t`, in
      list order. */
  function Matched(list: seq<string>, t: string): (m: seq<string>)
    ensures |m| <= |list|
  {
    if list == [] then []
    else
      var body := list[|list| - 1];
      Matched(list[..|list| - 1], t) + (if Contains(t, body) then [body] else [])
  }

  /** A body is matched exactly when it is in the list and occurs in the name. */
  lemma {:induction false} MatchedMembers(list: seq<string>, t: string)
    ensures forall x :: x in Matched(list, t) <==> x in list && Contains(t, x)
  {
    if list != [] {
      var init := list[..|list| - 1];
      MatchedMembers(init, t);
      assert list == init + [list[|list| - 1]];
    }
  }

  /** Matching keeps list order: the matches of a concatenation are the
      matches of its first part followed by those of its second. */
  lemma {:induction false} MatchedAppend(a: seq<string>, b: seq<string>, t: string)
    ensures Matched(a + b, t) == Matched(a, t) + Matched(b, t)
    decreases |b|
  {
    if b == [] {
      assert a + b == a;
    } else {
      var init := b[..|b| - 1];
      MatchedAppend(a, init, t);
      assert (a + b)[..|a + b| - 1] == a + init;
    }
  }

  /** The abbreviations, in the order Python 2 iterates the `abbrevs` dict. */
  const Abbrevs: seq<(string, string)> := [("gan", "ganymede"), ("jup", "jupiter"), ("sat", "saturn")]

  /** Whether some abbreviation naming `x` occurs in `t`. */
  predicate AbbrevFor(t: string, abbrevs: seq<(string, string)>, x: string)
  {
    exists i :: 0 <= i < |abbrevs| && abbrevs[i].1 == x && Contains(t, abbrevs[i].0)
  }

  /** `r` extends `m`, and each added entry was absent when it was added. */
  predicate AddsFresh(m: seq<string>, r: seq<string>)
  {
    |m| <= |r| && r[..|m|] == m && forall k :: |m| <= k < |r| ==> r[k] !in r[..k]
  }

  /** The abbreviation stage: the body of every abbreviation occurring in `t`
      is appended unless it is already present. */
  function AddAbbrevs(m: seq<string>, t: string, abbrevs: seq<(string, string)>): (r: seq<string>)
    ensures |r| <= |m| + |abbrevs|
    ensures AddsFresh(m, r)
  {
    if abbrevs == [] then m
    else
      var prev := AddAbbrevs(m, t, abbrevs[..|abbrevs| - 1]);
      var (abbrev, body) := abbrevs[|abbrevs| - 1];
      if Contains(t, abbrev) && body !in prev then
        assert (prev + [body])[..|prev|] == prev;
        prev + [body]
      else prev
  }

  /** After the abbreviation stage an entry is present exactly when it was
      matched before or an abbreviation for it occurs in the name. */
  lemma {:induction false} AddAbbrevsMembers(m: seq<string>, t: string, abbrevs: seq<(string, string)>)
    ensures forall x :: x in AddAbbrevs(m, t, abbrevs) <==> x in m || AbbrevFor(t, abbrevs, x)
  {
    if abbrevs != [] {
      var init := abbrevs[..|abbrevs| - 1];
      AddAbbrevsMembers(m, t, init);
      forall x ensures AbbrevFor(t, abbrevs, x) <==> AbbrevFor(t, init, x) || (abbrevs[|abbrevs| - 1].1 == x && Contains(t, abbrevs[|abbrevs| - 1].0)) {
        if AbbrevFor(t, init, x) {
          var i :| 0 <= i < |init| && init[i].1 == x && Contains(t, init[i].0);
          assert abbrevs[i] == init[i];
        }
        if AbbrevFor(t, abbrevs, x) {
          var i :| 0 <= i < |abbrevs| && abbrevs[i].1 == x && Contains(t, abbrevs[i].0);
          if i < |init| { assert init[i] == abbrevs[i]; }
        }
      }
    }
  }

  /** `list.remove(x)` when `x` is present: the first occurrence goes. */
  function RemoveFirst(xs: seq<string>, x: string): (r: seq<string>)
    ensures x in xs ==> multiset(r) == multiset(xs) - multiset{x}
    ensures x !in xs ==> r == xs
    ensures forall y :: y in r ==> y in xs
  {
    if xs == [] then []
    else if xs[0] == x then
      assert xs == [xs[0]] + xs[1..];
      xs[1..]
    else
      assert xs == [xs[0]] + xs[1..];
      [xs[0]] + RemoveFirst(xs[1..], x)
  }

  const IoSupernames: seq<string> := ["albioriz", "bebhionn", "iocaste", "dione"]

  /** The subnames and the longer names containing them, as `name_problems`
      lists them. */
  const NameProblems: seq<(string, seq<string>)> := [
    ("pan", ["pandora"]),
    ("anthe", ["euanthe"]),
    ("io", IoSupernames),
    ("titan", ["titania"])
  ]

  predicate SupernameIn(supers: seq<string>, m: seq<string>)
  {
    exists k :: 0 <= k < |supers| && supers[k] in m
  }

  /** A name problem applies when its subname and one of its supernames are
      both present. */
  predicate Triggered(m: seq<string>, problem: (string, seq<string>))
  {
    problem.0 in m && SupernameIn(problem.1, m)
  }

  /** The name-problem stage, removing the subname once when one of its
      supernames is present. */
  function Resolve(m: seq<string>, problems: seq<(string, seq<string>)>): (r: seq<string>)
    ensures forall y :: y in r ==> y in m
  {
    if problems == [] then m
    else
      var prev := Resolve(m, problems[..|problems| - 1]);
      var problem := problems[|problems| - 1];
      if Triggered(prev, problem) then RemoveFirst(prev, problem.0) else prev
  }

  /** Subnames differ from each other and from every supername, so the
      problems do not interact. */
  predicate Independent(problems: seq<(string, seq<string>)>)
  {
    (forall i, j :: 0 <= i < j < |problems| ==> problems[i].0 != problems[j].0)
    && (forall i, j, k :: 0 <= i < |problems| && 0 <= j < |problems| && 0 <= k < |problems[j].1| ==>
          problems[i].0 != problems[j].1[k])
  }

  lemma NameProblemsIndependent()
    ensures Independent(NameProblems)
  {
    var subnames: seq<string> := ["pan", "anthe", "io", "titan"];
    assert forall i :: 0 <= i < |NameProblems| ==> NameProblems[i].0 == subnames[i];
    forall j, k | 0 <= j < |NameProblems| && 0 <= k < |NameProblems[j].1|
      ensures NameProblems[j].1[k] !in subnames
    {
      var x := NameProblems[j].1[k];
      assert |x| > 5 || x == "dione";
    }
  }

  /** The subnames whose problem applies to `m`. */
  function Removed(m: seq<string>, problems: seq<(string, seq<string>)>): (r: multiset<string>)
    ensures forall x :: x in r ==> exists i :: 0 <= i < |problems| && problems[i].0 == x
  {
    if problems == [] then multiset{}
    else
      var problem := problems[|problems| - 1];
      Removed(m, problems[..|problems| - 1]) + (if Triggered(m, problem) then multiset{problem.0} else multiset{})
  }

  /** The names of the last of independent problems are not among those the
      earlier problems remove. */
  lemma LastNotRemoved(m: seq<string>, problems: seq<(string, seq<string>)>)
    requires problems != [] && Independent(problems)
    ensures var last := problems[|problems| - 1];
      var gone := Removed(m, problems[..|problems| - 1]);
      last.0 !in gone && forall k :: 0 <= k < |last.1| ==> last.1[k] !in gone
  {
    var init := problems[..|problems| - 1];
    assert forall i :: 0 <= i < |init| ==> init[i] == problems[i];
  }

  /** Removing names other than a problem's leaves its trigger as it was. */
  lemma TriggeredAlike(prev: seq<string>, m: seq<string>, gone: multiset<string>, problem: (string, seq<string>))
    requires multiset(prev) == multiset(m) - gone
    requires problem.0 !in gone
    requires forall k :: 0 <= k < |problem.1| ==> problem.1[k] !in gone
    ensures Triggered(prev, problem) <==> Triggered(m, problem)
  {
    assert multiset(prev)[problem.0] == multiset(m)[problem.0];
    forall k | 0 <= k < |problem.1|
      ensures problem.1[k] in prev <==> problem.1[k] in m
    {
      assert multiset(prev)[problem.1[k]] == multiset(m)[problem.1[k]];
    }
  }

  /** For independent problems, the name-problem stage removes one copy of
      each subname found together with one of its supernames, and nothing
      else. */
  lemma {:induction false} ResolveRemoves(m: seq<string>, problems: seq<(string, seq<string>)>)
    requires Independent(problems)
    ensures multiset(Resolve(m, problems)) == multiset(m) - Removed(m, problems)
  {
    if problems != [] {
      var init := problems[..|problems| - 1];
      var problem := problems[|problems| - 1];
      assert Independent(init) by {
        assert forall i :: 0 <= i < |init| ==> init[i] == problems[i];
      }
      ResolveRemoves(m, init);
      LastNotRemoved(m, problems);
      var prev := Resolve(m, init);
      var gone := Removed(m, init);
      TriggeredAlike(prev, m, gone, problem);
      if Triggered(m, problem) {
        assert Resolve(m, problems) == RemoveFirst(prev, problem.0);
        assert Removed(m, problems) == gone + multiset{problem.0};
        SubtractTwice(multiset(m), gone, multiset{problem.0});
      } else {
        assert Resolve(m, problems) == prev;
        assert Removed(m, problems) == gone + multiset{};
      }
    }
  }

  lemma SubtractTwice(a: multiset<string>, b: multiset<string>, c: multiset<string>)
    ensures a - b - c == a - (b + c)
  {
  }

  /** The whole of `get_mtargs`, given the HORIZONS body list. */
  function Mtargs(targname: string, jplList: seq<string>): seq<string>
  {
    var t := Lower(targname);
    Resolve(AddAbbrevs(Matched(jplList, t), t, Abbrevs), NameProblems)
  }

  /** The first loop of `get_mtargs`: the list bodies occurring in `t`. */
  method MatchBodies(jplList: seq<string>, t: string) returns (mtargs: seq<string>)
    ensures mtargs == Matched(jplList, t)
  {
    mtargs := [];
    var i := 0;
    while i < |jplList|
      invariant 0 <= i <= |jplList|
      invariant mtargs == Matched(jplList[..i], t)
    {
      assert jplList[..i + 1][..i] == jplList[..i];
      if Contains(t, jplList[i]) {
        mtargs := mtargs + [jplList[i]];
      }
      i := i + 1;
    }
    assert jplList[..i] == jplList;
  }

  /** The loop over `abbrevs`: a body whose abbreviation occurs in `t` is
      appended unless present. */
  method AddAbbrevBodies(found: seq<string>, t: string) returns (mtargs: seq<string>)
    ensures mtargs == AddAbbrevs(found, t, Abbrevs)
  {
    mtargs := found;
    var i := 0;
    while i < |Abbrevs|
      invariant 0 <= i <= |Abbrevs|
      invariant mtargs == AddAbbrevs(found, t, Abbrevs[..i])
    {
      assert Abbrevs[..i + 1][..i] == Abbrevs[..i];
      var (abbrev, body) := Abbrevs[i];
      if Contains(t, abbrev) && body !in mtargs {
        mtargs := mtargs + [body];
      }
      i := i + 1;
    }
    assert Abbrevs[..i] == Abbrevs;
  }

  /** One turn of the loop over `name_problems`, corrected: the subname is
      removed once, at the first supername found, and the inner loop stops. */
  method ResolveOne(named: seq<string>, problem: (string, seq<string>)) returns (mtargs: seq<string>)
    ensures mtargs == if Triggered(named, problem) then RemoveFirst(named, problem.0) else named
  {
    var (subname, supernames) := problem;
    mtargs := named;
    if subname in mtargs {
      var j := 0;
      while j < |supernames|
        invariant 0 <= j <= |supernames|
        invariant mtargs == named
        invariant forall k :: 0 <= k < j ==> supernames[k] !in named
      {
        if supernames[j] in mtargs {
          mtargs := RemoveFirst(mtargs, subname);
          return;
        }
        j := j + 1;
      }
    }
  }

  /** `get_mtargs`: the list bodies and abbreviated bodies found in the
      lower-cased target name, with a subname dropped once when one of its
      supernames was also found. */
  method GetMtargs(targname: string, jplList: seq<string>) returns (mtargs: seq<string>)
    ensures mtargs == Mtargs(targname, jplList)
  {
    var t := Lower(targname);
    var found := MatchBodies(jplList, t);
    var named := AddAbbrevBodies(found, t);
    mtargs := named;
    var i := 0;
    while i < |NameProblems|
      invariant 0 <= i <= |NameProblems|
      invariant mtargs == Resolve(named, NameProblems[..i])
    {
      assert NameProblems[..i + 1][..i] == NameProblems[..i];
      mtargs := ResolveOne(mtargs, NameProblems[i]);
      i := i + 1;
    }
    assert NameProblems[..i] == NameProblems;
  }

  /** Every name `get_mtargs` returns is a list body or an abbreviated body
      occurring in the lower-cased target name. */
  lemma MtargsFound(targname: string, jplList: seq<string>)
    ensures forall x :: x in Mtargs(targname, jplList) ==>
      (x in jplList && Contains(Lower(targname), x)) || AbbrevFor(Lower(targname), Abbrevs, x)
  {
    var t := Lower(targname);
    MatchedMembers(jplList, t);
    AddAbbrevsMembers(Matched(jplList, t), t, Abbrevs);
  }

  /** Nothing found is lost except one copy of each subname whose supername
      was also found. */
  lemma MtargsKeepsAllButSubnames(targname: string, jplList: seq<string>)
    ensures var named := AddAbbrevs(Matched(jplList, Lower(targname)), Lower(targname), Abbrevs);
      multiset(Mtargs(targname, jplList)) == multiset(named) - Removed(named, NameProblems)
  {
    NameProblemsIndependent();
    var t := Lower(targname);
    ResolveRemoves(AddAbbrevs(Matched(jplList, t), t, Abbrevs), NameProblems);
  }

  // ---------------------------------------------------------------------------
  // The name-problem loop as written (Findings)
  // ---------------------------------------------------------------------------

  /** `list.remove(x)`: a ValueError when `x` is absent. */
  function Remove(xs: seq<string>, x: string): (r: Result<seq<string>>)
    ensures r.Ok? <==> x in xs
  {
    if x in xs then Ok(RemoveFirst(xs, x)) else Err(ValueError("list.remove(x): x not in list"))
  }

  /** The inner loop as written: one `remove(subname)` for every supername
      present. */
  function RemoveForSupers(m: seq<string>, subname: string, supers: seq<string>): (r: Result<seq<string>>)
    ensures r.Err? ==> r.error == ValueError("list.remove(x): x not in list")
    ensures r.Ok? ==> multiset(r.value) <= multiset(m)
    ensures r.Ok? ==> forall y :: y != subname ==> multiset(r.value)[y] == multiset(m)[y]
    decreases |supers|
  {
    if supers == [] then Ok(m)
    else
      var prev := RemoveForSupers(m, subname, supers[..|supers| - 1]);
      if prev.Err? then prev
      else if supers[|supers| - 1] in prev.value then Remove(prev.value, subname)
      else prev
  }

  /** The name-problem loop as written: the inner loop for each problem
      whose subname is present. It fails only with `list.remove`'s
      ValueError, and otherwise only drops copies of subnames. */
  function ResolveAsWritten(m: seq<string>, problems: seq<(string, seq<string>)>): (r: Result<seq<string>>)
    ensures r.Err? ==> r.error == ValueError("list.remove(x): x not in list")
    ensures r.Ok? ==> multiset(r.value) <= multiset(m)
    ensures r.Ok? ==> forall y :: (forall k :: 0 <= k < |problems| ==> problems[k].0 != y) ==>
      multiset(r.value)[y] == multiset(m)[y]
    decreases |problems|
  {
    if problems == [] then Ok(m)
    else
      var prev := ResolveAsWritten(m, problems[..|problems| - 1]);
      var problem := problems[|problems| - 1];
      if prev.Err? then prev
      else if problem.0 in prev.value then RemoveForSupers(prev.value, problem.0, problem.1)
      else prev
  }

  /** The inner loop removes nothing when no supername is present. */
  lemma {:induction false} RemoveForSupersAbsent(m: seq<string>, subname: string, supers: seq<string>)
    requires forall k :: 0 <= k < |supers| ==> supers[k] !in m
    ensures RemoveForSupers(m, subname, supers) == Ok(m)
  {
    if supers != [] {
      RemoveForSupersAbsent(m, subname, supers[..|supers| - 1]);
    }
  }

  /** "albioriz" and "bebhionn" are absent, so the inner loop for "io"
      removes nothing for them. */
  lemma IoUntilIocaste(m: seq<string>)
    requires m == ["io", "iocaste", "dione"]
    ensures RemoveForSupers(m, "io", IoSupernames[..2]) == Ok(m)
  {
    var s2 := IoSupernames[..2];
    assert |s2[0]| == 8 && |s2[1]| == 8;
    assert forall x :: x in m ==> |x| < 8;
    RemoveForSupersAbsent(m, "io", s2);
  }

  /** The inner loop for "io" over a list holding "io", "iocaste" and
      "dione": the first removal succeeds, the second raises. */
  lemma IoRemovedTwice()
    ensures RemoveForSupers(["io", "iocaste", "dione"], "io", NameProblems[2].1).Err?
  {
    var m: seq<string> := ["io", "iocaste", "dione"];
    var r: seq<string> := ["iocaste", "dione"];
    assert RemoveForSupers(m, "io", IoSupernames[..3]) == Ok(r) by {
      assert IoSupernames[..3][..2] == IoSupernames[..2];
      IoUntilIocaste(m);
      assert IoSupernames[2] == m[1];
      assert RemoveFirst(m, "io") == r;
    }
    assert IoSupernames[..|IoSupernames| - 1] == IoSupernames[..3];
    assert IoSupernames[3] == r[1];
    assert "io" !in r by {
      assert |r[0]| == 7 && |r[1]| == 5;
    }
    RemoveStepFails(m, "io", IoSupernames, r);
  }

  /** A present supername after the subname is already gone raises. */
  lemma RemoveStepFails(m: seq<string>, subname: string, supers: seq<string>, r: seq<string>)
    requires supers != [] && RemoveForSupers(m, subname, supers[..|supers| - 1]) == Ok(r)
    requires supers[|supers| - 1] in r && subname !in r
    ensures RemoveForSupers(m, subname, supers).Err?
  {
  }

  /** A target naming Iocaste and Dione matches "io" as well; the loop as
      written removes "io" once for each of the two supernames and the second
      removal raises. */
  lemma IocasteDioneRaises()
    ensures ResolveAsWritten(["io", "iocaste", "dione"], NameProblems).Err?
  {
    var m: seq<string> := ["io", "iocaste", "dione"];
    var p1 := NameProblems[..1];
    var p2 := NameProblems[..2];
    var p3 := NameProblems[..3];
    assert p1[..0] == [] && p2[..1] == p1 && p3[..2] == p2 && NameProblems[..4][..3] == p3;
    assert NameProblems[..4] == NameProblems;
    assert "pan" !in m && "anthe" !in m;
    AsWrittenSkips(m, p1, m);
    AsWrittenSkips(m, p2, m);
    IoRemovedTwice();
    AsWrittenFails(m, p3, m);
  }

  /** A problem whose subname is absent changes nothing. */
  lemma AsWrittenSkips(m: seq<string>, problems: seq<(string, seq<string>)>, x: seq<string>)
    requires problems != [] && ResolveAsWritten(m, problems[..|problems| - 1]) == Ok(x)
    requires problems[|problems| - 1].0 !in x
    ensures ResolveAsWritten(m, problems) == Ok(x)
  {
  }

  /** A problem whose inner loop raises makes the stage raise. */
  lemma AsWrittenFails(m: seq<string>, problems: seq<(string, seq<string>)>, x: seq<string>)
    requires problems != [] && ResolveAsWritten(m, problems[..|problems| - 1]) == Ok(x)
    requires problems[|problems| - 1].0 in x
    requires RemoveForSupers(x, problems[|problems| - 1].0, problems[|problems| - 1].1).Err?
    ensures ResolveAsWritten(m, problems).Err?
  {
  }

  /** The name-problem stage changes nothing when no subname is present. */
  lemma {:induction false} ResolveAbsent(m: seq<string>, problems: seq<(string, seq<string>)>)
    requires forall i :: 0 <= i < |problems| ==> problems[i].0 !in m
    ensures Resolve(m, problems) == m
  {
    if problems != [] {
      ResolveAbsent(m, problems[..|problems| - 1]);
    }
  }

  /** "pan" and "anthe" are absent, so the first two problems change
      nothing. */
  lemma IocasteDioneUntilIo()
    ensures Resolve(["io", "iocaste", "dione"], NameProblems[..2]) == ["io", "iocaste", "dione"]
  {
    var m: seq<string> := ["io", "iocaste", "dione"];
    var p2 := NameProblems[..2];
    assert p2[0].0 == "pan" && p2[1].0 == "anthe";
    assert "pan" !in m && "anthe" !in m;
    ResolveAbsent(m, p2);
  }

  /** The "io" problem applies once and drops "io". */
  lemma IocasteDioneAtIo()
    ensures Resolve(["io", "iocaste", "dione"], NameProblems[..3]) == ["iocaste", "dione"]
  {
    var m: seq<string> := ["io", "iocaste", "dione"];
    var p3 := NameProblems[..3];
    assert p3[..2] == NameProblems[..2];
    IocasteDioneUntilIo();
    assert Triggered(m, p3[2]) by {
      assert p3[2] == NameProblems[2];
      assert NameProblems[2].1[2] in m;
    }
    assert RemoveFirst(m, "io") == ["iocaste", "dione"];
  }

  /** The intended stage drops "io" once and keeps both supernames. */
  lemma IocasteDioneResolved()
    ensures Resolve(["io", "iocaste", "dione"], NameProblems) == ["iocaste", "dione"]
  {
    var r: seq<string> := ["iocaste", "dione"];
    IocasteDioneAtIo();
    assert NameProblems[..4][..3] == NameProblems[..3];
    assert NameProblems[..4] == NameProblems;
    assert !Triggered(r, NameProblems[3]) by {
      assert NameProblems[3].0 == "titan";
      assert "titan" !in r;
    }
  }

  // ---------------------------------------------------------------------------
  // make_output_file_dict
  // ---------------------------------------------------------------------------

  /** The header keywords the names are built from. */
  datatype HeaderData = HeaderData(instrument: string, detector: string, targname: string, filtername: string)

  datatype OutputFiles = OutputFiles(
    inputFile: string,
    crRejectOutput: seq<string>,
    drizzleOutput: seq<string>,
    drizzleWeight: seq<string>,
    pngOutput: seq<string>)

  /** The assertion at the top: the name ends in `c0m.fits` or `flt.fits`. */
  predicate AcceptedInput(filename: string)
  {
    var tail := Slice(filename, -8, |filename|);
    tail == "c0m.fits" || tail == "flt.fits"
  }

  /** The file type, `filename[-8:-5]`, of an accepted input is `c0m` or
      `flt`. */
  lemma FitsTypeOfAccepted(filename: string)
    requires AcceptedInput(filename)
    ensures var ft := Slice(filename, -8, -5);
      (ft == "c0m" && EndsWith(filename, "c0m.fits")) || (ft == "flt" && EndsWith(filename, "flt.fits"))
  {
    SliceTail(filename, 8);
    assert |filename| >= 8;
    var n := |filename|;
    assert SliceBound(-8, n) == n - 8 && SliceBound(-5, n) == n - 5;
    assert filename[n - 8..n - 5] == filename[n - 8..][..3];
  }

  /** The instrument part of the name: lower-case, `wfpc2` alone for WFPC2,
      otherwise instrument and detector joined by a dash. */
  function Hardware(instrument: string, detector: string): (h: string)
    ensures forall k :: 0 <= k < |h| ==> !IsUpper(h[k])
    ensures instrument != "WFPC2" ==> |h| == |instrument| + 1 + |detector|
    ensures instrument == "WFPC2" ==> h == "wfpc2"
  {
    if instrument == "WFPC2" then
      assert Lower(instrument) == "wfpc2";
      Lower(instrument)
    else
      var h := Lower(instrument) + "-" + Lower(detector);
      assert forall k :: |instrument| < k < |h| ==> h[k] == Lower(detector)[k - |instrument| - 1];
      h
  }

  /** Hardware of an instrument and detector without dashes splits back into
      the two, lower-cased. */
  lemma HardwareFields(instrument: string, detector: string)
    requires instrument != "WFPC2" && '-' !in instrument && '-' !in detector
    ensures Split(Hardware(instrument, detector), '-') == [Lower(instrument), Lower(detector)]
  {
    LowerKeeps(instrument, '-');
    LowerKeeps(detector, '-');
    SplitOfJoin([Lower(instrument), Lower(detector)], '-');
  }

  /** Lower-casing neither adds nor removes a character that is not a
      letter. */
  lemma LowerKeeps(s: string, c: char)
    requires !IsUpper(c) && !('a' <= c <= 'z')
    ensures c in Lower(s) <==> c in s
  {
    if c in Lower(s) {
      var k :| 0 <= k < |s| && Lower(s)[k] == c;
      assert s[k] == c;
    }
  }

  /** The target part: the matched names joined by dashes, or the first
      twenty characters of TARGNAME when nothing matched. */
  function TargetText(targname: string, mtargs: seq<string>): (r: string)
    ensures mtargs == [] ==> |r| <= 20 && StartsWith(targname, r)
  {
    if mtargs == [] then Slice(targname, 0, 20) else Join(mtargs, "-")
  }

  /** The version tag: `v` and the version with its dots turned into
      dashes. */
  function VersionTag(version: string): (v: string)
    ensures |v| == |version| + 1 && v[0] == 'v' && '.' !in v
    ensures forall k :: 0 <= k < |version| ==> v[k + 1] == (if version[k] == '.' then '-' else version[k])
  {
    ReplaceCharPointwise("v" + version, '.', '-');
    Replace("v" + version, ".", "-")
  }

  /** The common front of every output name. */
  function Front(filename: string, header: HeaderData, version: string, mtargs: seq<string>): string
  {
    var ipsud := Split(PosixPath.Basename(filename), '_')[0];
    Join(["hlsp_mt_hst", Hardware(header.instrument, header.detector),
          ipsud + "-" + TargetText(header.targname, mtargs),
          Lower(header.filtername), VersionTag(version)], "_")
  }

  /** With underscore-free parts the front splits at '_' into the project
      prefix, hardware, observation and targets, filter and version. */
  lemma FrontFields(hardware: string, ipsudTargets: string, filtername: string, version: string)
    requires '_' !in hardware && '_' !in ipsudTargets && '_' !in filtername && '_' !in version
    ensures Split(Join(["hlsp_mt_hst", hardware, ipsudTargets, filtername, version], "_"), '_')
      == ["hlsp", "mt", "hst", hardware, ipsudTargets, filtername, version]
  {
    var parts := ["hlsp", "mt", "hst", hardware, ipsudTargets, filtername, version];
    var rest := Join([hardware, ipsudTargets, filtername, version], "_");
    assert parts[3..] == [hardware, ipsudTargets, filtername, version];
    assert Join(parts[2..], "_") == "hst" + "_" + rest;
    assert Join(parts[1..], "_") == "mt" + "_" + ("hst" + "_" + rest);
    assert Join(parts, "_") == "hlsp" + "_" + ("mt" + "_" + ("hst" + "_" + rest));
    assert Join(["hlsp_mt_hst", hardware, ipsudTargets, filtername, version], "_") == "hlsp_mt_hst" + "_" + rest;
    assert "hlsp" + "_" + ("mt" + "_" + ("hst" + "_" + rest)) == "hlsp_mt_hst" + "_" + rest;
    SplitOfJoin(parts, '_');
  }

  /** The observation identifier in front of the first '_' holds no '_'. */
  lemma IpsudHasNoUnderscore(filename: string)
    ensures '_' !in Split(PosixPath.Basename(filename), '_')[0]
  {
    SplitJoin(PosixPath.Basename(filename), '_');
  }

  /** The dictionary built from the directory, the front and the file type. */
  function OutputNames(filename: string, front: string, fitsType: string): OutputFiles
  {
    var path := PosixPath.Split(filename).0;
    OutputFiles(
      filename,
      [filename, PosixPath.Join(path, front + "_" + fitsType + ".fits")],
      [PosixPath.Join(path, front + "_img.fits"), PosixPath.Join(path, front + "_sci.fits")],
      [PosixPath.Join(path, front + "_wht.fits")],
      [PosixPath.Join(path, front + "_sci-linscale.png"), PosixPath.Join(path, front + "_img-linscale.png"),
       PosixPath.Join(path, front + "_sci-logscale.png"), PosixPath.Join(path, front + "_img-logscale.png")])
  }

  /** `make_output_file_dict` as a function of its inputs. */
  function OutputFileDict(filename: string, header: HeaderData, version: string, jplList: seq<string>): Result<OutputFiles>
  {
    if !AcceptedInput(filename) then
      Err(AssertionError(filename + " does not end in \"c0m.fits\" or \"flt.fits\"."))
    else
      var front := Front(filename, header, version, Mtargs(header.targname, jplList));
      Ok(OutputNames(filename, front, Slice(filename, -8, -5)))
  }

  method MakeOutputFileDict(filename: string, header: HeaderData, version: string, jplList: seq<string>)
    returns (r: Result<OutputFiles>)
    ensures r == OutputFileDict(filename, header, version, jplList)
  {
    if !AcceptedInput(filename) {
      return Err(AssertionError(filename + " does not end in \"c0m.fits\" or \"flt.fits\"."));
    }
    var fitsType := Slice(filename, -8, -5);
    var hardware := Hardware(header.instrument, header.detector);
    var (path, basename) := PosixPath.Split(filename);
    var ipsud := Split(basename, '_')[0];
    var mtargs := GetMtargs(header.targname, jplList);
    var targets := TargetText(header.targname, mtargs);
    var filtername := Lower(header.filtername);
    var tag := VersionTag(version);
    var front := Join(["hlsp_mt_hst", hardware, ipsud + "-" + targets, filtername, tag], "_");

    var cr := [filename];
    cr := cr + [PosixPath.Join(path, front + "_" + fitsType + ".fits")];
    var drizzle := [PosixPath.Join(path, front + "_img.fits")];
    drizzle := drizzle + [PosixPath.Join(path, front + "_sci.fits")];
    var weight := [PosixPath.Join(path, front + "_wht.fits")];
    var png := [PosixPath.Join(path, front + "_sci-linscale.png")];
    png := png + [PosixPath.Join(path, front + "_img-linscale.png")];
    png := png + [PosixPath.Join(path, front + "_sci-logscale.png")];
    png := png + [PosixPath.Join(path, front + "_img-logscale.png")];
    assert front == Front(filename, header, version, mtargs);
    r := Ok(OutputFiles(filename, cr, drizzle, weight, png));
    assert r.value == OutputNames(filename, front, fitsType);
  }

  /** An accepted name yields two CR-rejection names (the input first), two
      drizzle names, one weight name and four PNG names; any other name
      fails the assertion. */
  lemma OutputShape(filename: string, header: HeaderData, version: string, jplList: seq<string>)
    ensures OutputFileDict(filename, header, version, jplList).Ok? <==> AcceptedInput(filename)
    ensures OutputFileDict(filename, header, version, jplList).Err? ==>
      OutputFileDict(filename, header, version, jplList).error.AssertionError?
    ensures var r := OutputFileDict(filename, header, version, jplList);
      r.Ok? ==> (r.value.inputFile == filename && |r.value.crRejectOutput| == 2 && r.value.crRejectOutput[0] == filename
                 && |r.value.drizzleOutput| == 2 && |r.value.drizzleWeight| == 1 && |r.value.pngOutput| == 4)
  {
  }

  /** The FITS names a run writes lie in the input's own directory and are
      the front followed by their suffix. */
  lemma FitsBesideInput(filename: string, front: string, fitsType: string)
    requires '/' !in front && '/' !in fitsType
    ensures var o := OutputNames(filename, front, fitsType);
      var dir := PosixPath.Split(filename).0;
      PosixPath.Split(o.crRejectOutput[1]) == (dir, front + "_" + fitsType + ".fits")
      && PosixPath.Split(o.drizzleOutput[0]) == (dir, front + "_img.fits")
      && PosixPath.Split(o.drizzleOutput[1]) == (dir, front + "_sci.fits")
      && PosixPath.Split(o.drizzleWeight[0]) == (dir, front + "_wht.fits")
  {
    var o := OutputNames(filename, front, fitsType);
    var dir := PosixPath.Split(filename).0;
    assert o.crRejectOutput[1] == PosixPath.Join(dir, front + "_" + fitsType + ".fits");
    TypedNameBeside(filename, front, fitsType);
    assert o.drizzleOutput[0] == PosixPath.Join(dir, front + "_img.fits");
    NameBeside(filename, front, "_img.fits");
    assert o.drizzleOutput[1] == PosixPath.Join(dir, front + "_sci.fits");
    NameBeside(filename, front, "_sci.fits");
    assert o.drizzleWeight[0] == PosixPath.Join(dir, front + "_wht.fits");
    NameBeside(filename, front, "_wht.fits");
  }

  /** The linear-scale PNG names lie in the input's own directory too:
      there is no `png/` sub-directory. */
  lemma PngBesideInput(filename: string, front: string, fitsType: string)
    requires '/' !in front
    ensures var o := OutputNames(filename, front, fitsType);
      var dir := PosixPath.Split(filename).0;
      PosixPath.Split(o.pngOutput[0]) == (dir, front + "_sci-linscale.png")
      && PosixPath.Split(o.pngOutput[1]) == (dir, front + "_img-linscale.png")
  {
    PngPairBeside(filename, front, "_sci-linscale.png", "_img-linscale.png");
  }

  /** So do the log-scale PNG names. */
  lemma LogPngBesideInput(filename: string, front: string, fitsType: string)
    requires '/' !in front
    ensures var o := OutputNames(filename, front, fitsType);
      var dir := PosixPath.Split(filename).0;
      PosixPath.Split(o.pngOutput[2]) == (dir, front + "_sci-logscale.png")
      && PosixPath.Split(o.pngOutput[3]) == (dir, front + "_img-logscale.png")
  {
    PngPairBeside(filename, front, "_sci-logscale.png", "_img-logscale.png");
  }

  lemma PngPairBeside(filename: string, front: string, a: string, b: string)
    requires '/' !in front && '/' !in a && '/' !in b
    ensures var dir := PosixPath.Split(filename).0;
      PosixPath.Split(PosixPath.Join(dir, front + a)) == (dir, front + a)
      && PosixPath.Split(PosixPath.Join(dir, front + b)) == (dir, front + b)
  {
    NameBeside(filename, front, a);
    NameBeside(filename, front, b);
  }

  /** The CR-rejected name, whose middle is the file type, splits back the
      same way. */
  lemma TypedNameBeside(filename: string, front: string, fitsType: string)
    requires '/' !in front && '/' !in fitsType
    ensures var dir := PosixPath.Split(filename).0;
      PosixPath.Split(PosixPath.Join(dir, front + "_" + fitsType + ".fits")) == (dir, front + "_" + fitsType + ".fits")
  {
    var typed := "_" + fitsType + ".fits";
    assert front + "_" + fitsType + ".fits" == front + typed;
    NameBeside(filename, front, typed);
  }

  /** A name joined to the directory of `filename` splits back into that
      directory and the name. */
  lemma NameBeside(filename: string, front: string, suffix: string)
    requires '/' !in front && '/' !in suffix
    ensures var dir := PosixPath.Split(filename).0;
      PosixPath.Split(PosixPath.Join(dir, front + suffix)) == (dir, front + suffix)
  {
    PosixPath.SplitHeadNormal(filename);
    NameInDir(PosixPath.Split(filename).0, front, suffix);
  }

  lemma NameInDir(dir: string, front: string, suffix: string)
    requires PosixPath.NormalHead(dir) && '/' !in front && '/' !in suffix
    ensures PosixPath.Split(PosixPath.Join(dir, front + suffix)) == (dir, front + suffix)
  {
    assert forall k :: 0 <= k < |front + suffix| ==> (front + suffix)[k] == (if k < |front| then front[k] else suffix[k - |front|]);
    PosixPath.SplitJoin(dir, front + suffix);
  }
}
