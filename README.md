# MTPipeline bookkeeping core, in Dafny

This project models the integer, rational and string logic of the Moving Target
pipeline. The pipeline turns Hubble WFPC2/WFC3/ACS images of planets into
drizzled FITS files and PNG previews. It cuts each PNG into twelve overlapping
sub-images and records, in a MySQL database, where each moon falls on each
image and on each sub-image.

The model covers six parts:

- **Sky coordinates** (`Coords`). The sexagesimal `Hmsdms` parser with its range checks, `_calcinternal`, and the `Degrees` range check.
- **Ephemeris text scanners and the JPL step** (`Jpl2Db`, `LegacyEphem`):
  - the CGI answer parser (`parse_jpl_cgi`) and the older telnet-answer parser (`trim_data`);
  - the planet and moon list parser (`make_all_moon_dict`) and the CGI escaping;
  - the insert/update rule of `jpl2db_main`.
- **Sky to pixel** (`MasterFinders`, `LegacyEphem`). The pixel delta and position formulas, the truncation to integers, and the update loop of `run_ephem_main` with its commits.
- **Tiles** (`FinderRegions`, `LegacyFinders`, `RunTrim`):
  - the 12-tile region of a moon position and the neighbouring regions of its overlaps;
  - the finder rows written per region, including the older 450-pixel grid variant;
  - the sub-image cutting loop.
- **Database bookkeeping** (`MasterImages`, `SubImages`, `LegacyFinders`, `Jpl2Db`). Each insert/update rule is keyed by name, by (object, sub-image) or by (image, moon), together with the set numbering of `make_set_info`.
- **File naming** (`FileHandling`, `ImagingPipeline`, `RunTrim`, `SubImages`):
  - target-name extraction (`get_mtargs`);
  - the two `make_output_file_dict` variants and the step-skip rule of `imaging_pipeline`;
  - the PNG names, and the master-image name recovered from a sub-image name.

Each core source file has one module. Three helper modules are shared:

- `Wrappers` holds `Option`, `Result` and the Python exception kinds as `Error`.
- `PyStr` gives Python `str` semantics: `lower`, `find`/`in`, `split`, `split()`, `strip`, `replace`, slicing with negative indices, `int()` and `float()` parsing, and `str()` of naturals.
- `PosixPath` gives `os.path` on POSIX: `split`, `join`, `basename`, `splitext`.

Database tables are sequences or maps of rows held by a class, and each builder is a method on that class. Where the source counts rows per key, the model keeps every row, so the 0/1/more checks mean what they mean in the source. FITS headers, HORIZONS answers and the files on disk are parameters.

Positions are Dafny `real`, since the conversions are exact unit conversions. Python's `int()` of a float is modelled as truncation toward zero (`MasterFinders.Trunc`). Python `//` and `%` are applied only to non-negative operands or positive divisors, where they agree with Dafny's `/` and `%`.

## Model

| member | source | states |
|---|---|---|
| Coords.MakeDegrees | ephem/coords.py:36-52 | A pair is accepted exactly when the longitude is in [-180, 360] and the latitude in [-90, 90]. Each violation is a ValueError, and an accepted pair is stored as given. |
| Coords.DegreesInternal | ephem/coords.py:63-64 | `_calcinternal` of a `Degrees` returns its two fields. |
| Coords.DegreesRoundTrip | ephem/coords.py:44-64 | An in-range pair converted to `Degrees` and back is unchanged. |
| Coords.ParseSexagesimal | ephem/coords.py:141-159 | One "w:mm:ss" field is accepted exactly when it splits into three numbers with the whole part in range and minutes and seconds in [0, 60]. Any failure is a ValueError. |
| Coords.Negate | ephem/coords.py:164 | Negating the declination triple keeps the magnitude of every entry. |
| Coords.CalcInternal | ephem/coords.py:178-192 | The declination carries the stored sign: it is at most 0 when the sign is '-' and at least 0 otherwise, whatever the signs of the stored triple. |
| Coords.ParseHmsdms | ephem/coords.py:130-166 | Input is accepted exactly when it has two blank-separated fields: hours in [0, 24] and degrees in [-90, 90]. The sign is '-' exactly when the declination text starts with '-', and the triple is negated then. Every failure is a ValueError. |
| Coords.CalcInternalOfParsed | ephem/coords.py:178-192 | A parsed coordinate converts to exactly 15·(h + m/60 + s/3600) degrees of right ascension, for the h, m, s of its first field, and this lies in [0, 375.25]. The declination is ±(\|d\| + m/60 + s/3600), with the sign taken from the text. |
| Coords.FormatParseRoundTrip | ephem/coords.py:130-192 | Whole-number fields in range, written as "h:m:s [-]d:m:s", parse back to those fields and convert to the decimal degrees they denote. |
| Coords.ParseOfFormat | ephem/coords.py:130-166 | Parsing the written fields gives back the hours triple, the sign, and the degrees triple (negated when negative). |
| Coords.CalcOfFields | ephem/coords.py:178-192 | The conversion of those fields is the decimal right ascension and the signed decimal declination. |
| Coords.FieldRoundTrip | ephem/coords.py:141-149 | One field written from its numbers parses back to them. |
| Coords.FieldsOfTriple | ephem/coords.py:139-141 | Three digit runs joined by colons form a blank-free field that splits back into the three runs. |
| Coords.NegativeZeroDeclination | ephem/coords.py:159-166 | "-0:30:0" converts to -0.5 degrees: the sign comes from the text, not from the zero degrees. |
| FinderRegions.EphemRegion | mtpipeline/ephem/build_finders_table.py:29-37 | The region is in 1..12 whenever it is returned; outside it is an AssertionError. Every pixel with non-negative coordinates gets a region. |
| FinderRegions.RegionNamesCell | mtpipeline/ephem/build_finders_table.py:33-34 | On the image, the region decodes back to the clamped 425-pixel column and row, and the pixel lies inside that region's 450-pixel tile. |
| FinderRegions.RegionInjective | mtpipeline/ephem/build_finders_table.py:33-34 | Two pixels get the same region exactly when they lie in the same clamped grid cell. |
| FinderRegions.GetRegionList | mtpipeline/ephem/build_finders_table.py:40-67 | The appending method returns exactly the list `RegionList` describes, including its two assertion failures. |
| FinderRegions.RegionListShape | mtpipeline/ephem/build_finders_table.py:44-67 | For non-negative pixels:<br>• the list never fails and starts with the primary region;<br>• it has length 1, 2 or 4;<br>• primary−3 is listed iff the x overlap holds, primary+1 iff the y overlap holds, and primary−2 iff both hold, last;<br>• the four possible lists are given exactly;<br>• every entry is in 1..12 and none repeats. |
| FinderRegions.EphemRegionExamples | tests/unit_tests/test_build_finders_table.py:9-59 | The region values the unit tests pin: (424,0)→3, (425,0)→6, (0,1300)→1, (1725,0)→12, (1725,1300)→10, (1274,849)→8. |
| FinderRegions.RegionListDiagonalExamples | tests/unit_tests/test_build_finders_table.py:114-123 | (425,425)→[5,2,6,3] and (1275,850)→[10,7,11,8]. |
| FinderRegions.RegionListEdgeExamples | tests/unit_tests/test_build_finders_table.py:79-104 | (450,0)→[6,3], (0,425)→[2,3] and (1725,425)→[11,12]. |
| FinderRegions.RegionListSingleExamples | tests/unit_tests/test_build_finders_table.py:109-127 | (451,451)→[5], (25,301)→[3] and (1725,1300)→[10]. |
| FinderRegions.LocalCoord | mtpipeline/ephem/build_finders_table.py:81-82 | The stored local coordinate as written is the position modulo 425, so it lies in [0, 425). |
| FinderRegions.TileOfCell | mtpipeline/ephem/build_finders_table.py:33-34 | The tile of the region in column c and row r starts at (425c, 425r). |
| FinderRegions.NeighboursHoldPixel | mtpipeline/ephem/build_finders_table.py:44-58 | The pixel lies inside the tile of its primary region and inside the tiles of every neighbour the overlap tests add. |
| FinderRegions.TileLocalWithinTile | mtpipeline/ephem/build_finders_table.py:47-82 | For every listed region, the tile-relative position is in [0, 450] on both axes. Away from the clamped last column and row, it equals the source's modulo on the primary region. |
| FinderRegions.TileLocal | mtpipeline/ephem/build_finders_table.py:81-82 | The corrected local position: moving it back by the origin of region k's tile gives the pixel (Findings row 2). |
| FinderRegions.TileOriginOnGrid | mtpipeline/ephem/build_finders_table.py:81-82 | For a region of 1..12, that origin is a corner of the 425-pixel grid, in columns 0..3 and rows 0..2. |
| FinderRegions.LocalCoordMisplacesNeighbour | mtpipeline/ephem/build_finders_table.py:81-82 | (430, 0) is listed in regions 6 and 3. The source stores x = 5, but the pixel is at x = 430 in tile 3. |
| FinderRegions.LocalCoordMisplacesClamped | mtpipeline/ephem/build_finders_table.py:81-82 | (0, 1300) is in region 1, whose tile starts at y = 850. The source stores y = 25 instead of 450. |
| FinderRegions.FilterKeepsSelected | mtpipeline/ephem/build_finders_table.py:97-104 | The query keeps exactly the records with both coordinates present, in [0,1725]×[0,1300], in a 'wide' image. |
| FinderRegions.Filter | mtpipeline/ephem/build_finders_table.py:97-104 | Every record the query returns is selected. |
| FinderRegions.FindersForShape | mtpipeline/ephem/build_finders_table.py:70-83 | A record's rows succeed exactly when each listed region has exactly one sub-image (the `.one()` lookup). There is then one row per region, with that sub-image id, the record's id and object name, and a position inside the tile. |
| FinderRegions.AllFindersInTiles | mtpipeline/ephem/build_finders_table.py:70-112 | Every row the builder writes lies inside its sub-image's tile. |
| FinderRegions.AllFindersConcat | mtpipeline/ephem/build_finders_table.py:108-112 | The rows for a + b are those for a followed by those for b, and succeed exactly when both do. |
| FinderRegions.FindersForConcat | mtpipeline/ephem/build_finders_table.py:111-112 | The same for the regions of one record. |
| FinderRegions.FindersForSingle | mtpipeline/ephem/build_finders_table.py:70-83 | One region yields exactly the row of `add_new_record`. |
| FinderRegions.AllFindersSingle | mtpipeline/ephem/build_finders_table.py:108-112 | One record yields the rows of its region list. |
| FinderRegions.AddNewRecords | mtpipeline/ephem/build_finders_table.py:111-112 | The loop over the regions returns exactly the rows `FindersFor` specifies, or its first error. |
| FinderRegions.FindersFor | mtpipeline/ephem/build_finders_table.py:70-83 | A record's rows, when they succeed, are one per listed region, each carrying the record's id and object name. `FindersForShape` adds the sub-image ids and the in-tile positions. |
| FinderRegions.FindersTable.BuildFindersTableMain | mtpipeline/ephem/build_finders_table.py:91-114 | A run succeeds exactly when every selected record's rows do. It then appends all of them, in query order, at the single commit. A failing run leaves the table unchanged. The positions are those of the corrected `TileLocal` (Findings row 2), not the source's `ephem % 425`. |
| LegacyFinders.LegacyRegion | ephem/build_finders_table.py:29-35 | The region string parses back to (x // 450)·3 + (y // 450) + 1. |
| LegacyFinders.RegionNumber | ephem/build_finders_table.py:33-34 | On [0,1350)², the region is in 1..9 and decodes to the 450-pixel column and row. |
| LegacyFinders.LegacyLocal | ephem/build_finders_table.py:44-47 | The local position is the coordinate modulo 450, so it is in [0, 450). |
| LegacyFinders.LegacyLocalInRegion | ephem/build_finders_table.py:29-47 | On the image, the 450-pixel cell of the pixel's region plus the local position gives back the pixel on both axes. |
| LegacyFinders.StemSuffix | ephem/build_finders_table.py:78 | The suffix is the last character of the stem of `splitext`, or an IndexError for an empty stem. |
| LegacyFinders.KeepAsWritten | ephem/build_finders_table.py:78-89 | As written, a digit suffix keeps the record iff it equals the region string. A non-digit suffix keeps it iff x ≤ 450 and y ≤ 450. |
| LegacyFinders.TwoDigitRegionsNeverMatch | ephem/build_finders_table.py:78-81 | A region of two or more digits never equals a one-character suffix. |
| LegacyFinders.DigitsStart | ephem/build_finders_table.py:78 | Marks the start of the run of digits that ends a string. |
| LegacyFinders.Keep | ephem/build_finders_table.py:78-89 | The corrected rule compares the whole trailing tile number. It fails exactly when the rule as written does, and agrees on non-digit suffixes. |
| LegacyFinders.TileNameStem | mtpipeline/imaging/run_trim.py:94-101 | The stem of a tile name is base_t, and its trailing digits are the tile number. |
| LegacyFinders.KeepMatchesTile | ephem/build_finders_table.py:78-84 | With the whole tile number compared, tile t's sub-image is kept exactly when t is the pixel's region. |
| LegacyFinders.KeepAsWrittenMatchesWrongTile | ephem/build_finders_table.py:78-81 | As written, pixel (0,0), region 1, keeps sub-image tile 11; the corrected rule does not. |
| LegacyFinders.StepUpserts | ephem/build_finders_table.py:90-98 | One record leaves every other (object, sub-image) key untouched. A kept record leaves exactly one row under its key, holding its local position; on an update the old row's other columns are kept. |
| LegacyFinders.StepKeepsAtMostOne | ephem/build_finders_table.py:90-98 | One step keeps at most one row per key, filed under its own key. It fails only with IndexError. |
| LegacyFinders.RunKeepsAtMostOne | ephem/build_finders_table.py:77-99 | Starting from at most one row per key, a run keeps that. The duplicate assertion never fires; the only failure is an empty stem. |
| LegacyFinders.Step | ephem/build_finders_table.py:77-98 | A failed record changes nothing. Only the record's own (object, sub-image) key can change, and no key loses rows. |
| LegacyFinders.Run | ephem/build_finders_table.py:77-99 | No key loses rows over the loop, and a key that no record names keeps its rows. |
| LegacyFinders.Query | ephem/build_finders_table.py:71-75 | The query returns only records with both coordinates. |
| LegacyFinders.FindersTable.BuildFindersTableMain | ephem/build_finders_table.py:66-99 | The loop's result and table are those of `Run` over the query. Rows written before a failure stay committed. Records are kept by the corrected `Keep`, which compares the whole tile number (Findings row 3), not the stem's last character. |
| MasterFinders.Trunc | mtpipeline/ephem/build_master_finders_table.py:171-172 | `int()` of a float truncates toward zero: \|n\| ≤ \|r\| < \|n\| + 1, with n having the sign of r. |
| MasterFinders.ListedNames | mtpipeline/ephem/build_master_finders_table.py:100-103 | At most one name is added per line of the list file. |
| MasterFinders.GetPlanetsMoons | mtpipeline/ephem/build_master_finders_table.py:97-104 | The loop returns the six built-in entries followed by the second field of each line with more than three fields. |
| MasterFinders.TargetStatus | mtpipeline/ephem/build_master_finders_table.py:124-129 | The status is true exactly when some entry occurs in the target name. |
| MasterFinders.TargetName | mtpipeline/ephem/build_master_finders_table.py:117 | The target name has no '-' and is a prefix of the lower-cased header value. |
| MasterFinders.DashedEntriesNeverMatch | mtpipeline/ephem/build_master_finders_table.py:98-127 | An entry containing '-' (the built-ins "jup-", "io-", ...) never occurs in a target name. |
| MasterFinders.GetHeaderInfo | mtpipeline/ephem/build_master_finders_table.py:108-130 | Succeeds exactly when the file is `.fits`, its header exists and its target is known. A wrong extension is an AssertionError. The result is the header with the target cut at '-' and lower-cased. |
| MasterFinders.CalcDelta | mtpipeline/ephem/build_master_finders_table.py:34-59 | Succeeds exactly when both JPL fields are present and parse and the reference is a valid `Degrees`. A missing field is a TypeError. |
| MasterFinders.CalcPixelPosition | mtpipeline/ephem/build_master_finders_table.py:63-80 | The pixel minus CRPIX is the delta, on each axis. |
| MasterFinders.PixelPositionInverts | mtpipeline/ephem/build_master_finders_table.py:53-75 | RA = CRVAL1 − (x − CRPIX1)/72000 and Dec = CRVAL2 + (y − CRPIX2)/72000. A JPL position equal to the reference lands exactly on CRPIX, and conversely. |
| MasterFinders.StoredPosition | mtpipeline/ephem/build_master_finders_table.py:171-172 | Stored coordinates truncate the pixel position toward zero. |
| MasterFinders.TruncExamples | mtpipeline/ephem/build_master_finders_table.py:171-172 | 2.7→2, −2.7→−2, −0.5→0, 3.0→3. |
| MasterFinders.ProcessRecord | mtpipeline/ephem/build_master_finders_table.py:164-172 | A header failure (wrong extension, missing header, unknown target) is passed on unchanged; `ProcessRecordOutcome` gives the rest. |
| MasterFinders.ProcessRecordOutcome | mtpipeline/ephem/build_master_finders_table.py:164-172 | A record succeeds exactly when the path ends in ".fits", its header exists, its target is known, both JPL fields are present and parse, and the reference is a valid `Degrees`. After a passed header check, a missing JPL field is a TypeError and every other failure a ValueError. The stored position is x = int(CRPIX1 − (RA − CRVAL1)·72000), y = int(CRPIX2 + (Dec − CRVAL2)·72000), truncated toward zero. |
| MasterFinders.FitsPathBasename | mtpipeline/ephem/build_master_finders_table.py:164-167 | The header is read from the image's own file: the base name of the path is the image's `fits_file`. |
| MasterFinders.ImagesOf | mtpipeline/ephem/build_master_finders_table.py:143-145 | The join pairs a moon with exactly the images of its master image id. |
| MasterFinders.QueryMembers | mtpipeline/ephem/build_master_finders_table.py:143-157 | A (moon, image) pair is queried exactly when the image is the moon's and either `reproc` is set or the moon has a JPL RA or Dec. |
| MasterFinders.SetEphem | mtpipeline/ephem/build_master_finders_table.py:173-175 | The update changes only the rows with that id, and only their two position columns. |
| MasterFinders.Run | mtpipeline/ephem/build_master_finders_table.py:161-175 | The loop reports how many records it processed, all of them when it succeeds, and keeps the row count. |
| MasterFinders.Step | mtpipeline/ephem/build_master_finders_table.py:161-175 | After a failure nothing changes. A success processes one more record. |
| MasterFinders.RunStaysFailed | mtpipeline/ephem/build_master_finders_table.py:161-175 | Once the loop has failed, later records change nothing. |
| MasterFinders.RunTouchesOnlyPositions | mtpipeline/ephem/build_master_finders_table.py:170-175 | The loop writes only the position columns: ids, names, JPL fields and image ids are unchanged. |
| MasterFinders.RunLeavesOthers | mtpipeline/ephem/build_master_finders_table.py:173-175 | A row whose id no processed record carries keeps its position. |
| MasterFinders.CommitCount | mtpipeline/ephem/build_master_finders_table.py:176-177 | After n records the committed prefix is c ≤ n: 1 + a multiple of 100, with fewer than 100 records uncommitted. |
| MasterFinders.CommitCountStep | mtpipeline/ephem/build_master_finders_table.py:176-177 | Record i commits everything so far exactly when i % 100 == 0. |
| MasterFinders.ProcessStep | mtpipeline/ephem/build_master_finders_table.py:161-177 | From a view reached by i successful records, a failing record i ends the run with that view. A succeeding one extends the view by its position, and the committed rows follow the commit after records 0, 100, 200, ... |
| MasterFinders.RunTwo | mtpipeline/ephem/build_master_finders_table.py:161-175 | Two records that both succeed are both stored, the first one first. |
| MasterFinders.MasterFindersTable.ProcessQuery | mtpipeline/ephem/build_master_finders_table.py:161-177 | The loop's result and session view are those of `Run`. What is committed is the run up to the last commit point. |
| MasterFinders.MasterFindersTable.RunEphemMainAsWritten | mtpipeline/ephem/build_master_finders_table.py:136-178 | The result is the loop's. What stays in the database is the run over the records up to the last commit point, since `close()` rolls back the rest. |
| MasterFinders.MasterFindersTable.RunEphemMain | mtpipeline/ephem/build_master_finders_table.py:136-178 | With a final commit, a run that succeeds leaves every update in the database. |
| MasterFinders.MasterFindersTable.Update | mtpipeline/ephem/build_master_finders_table.py:170-175 | The open session holds the finder of that id with the new pixel position; what is committed does not change. |
| MasterFinders.MasterFindersTable.Commit | mtpipeline/ephem/build_master_finders_table.py:176-177 | What is committed becomes what the session holds. |
| MasterFinders.MasterFindersTable.Close | mtpipeline/ephem/build_master_finders_table.py:178 | The session is rolled back to what was committed. |
| MasterFinders.AsWrittenLosesLastBatch | mtpipeline/ephem/build_master_finders_table.py:176-178 | Two moons of one image: as written, the second moon's position is lost, while the corrected run keeps it. |
| MasterFinders.ExampleRecordPositions | mtpipeline/ephem/build_master_finders_table.py:164-172 | A moon at the reference sky position is stored at the reference pixel (10, 20). |
| Jpl2Db.CgiEscapeIsPerChar | mtpipeline/ephem/jpl2db.py:62 | The two `replace` passes escape each character on its own: a "%20" made by the first pass is not touched by the second. |
| Jpl2Db.CgiEscapeRoundTrip | mtpipeline/ephem/jpl2db.py:62 | Escaped commands hold no space and no colon. A command without '%' decodes back to itself. |
| Jpl2Db.CgiEscape | mtpipeline/ephem/jpl2db.py:62 | An escaped command holds no space and no colon. |
| Jpl2Db.Known | mtpipeline/ephem/jpl2db.py:233-235 | "n.a." becomes "-999"; any other field is kept. |
| Jpl2Db.ParseEphemLine | mtpipeline/ephem/jpl2db.py:222-236 | A line parses exactly when it has at least 14 comma fields. The fields are stripped, RA and Dec have spaces turned into ':', and magnitude and diameter go through `Known`. |
| Jpl2Db.ParseJplCgi | mtpipeline/ephem/jpl2db.py:210-238 | The scanning loop returns what `ScanCgi` specifies over the lines of the answer. |
| Jpl2Db.ScanCgi | mtpipeline/ephem/jpl2db.py:216-238 | A parse is returned only after "$$SOE", and it is the parse of some line other than "$$EOE". |
| Jpl2Db.ScanReadsLineAfterSoe | mtpipeline/ephem/jpl2db.py:216-238 | Only the line right after the first "$$SOE" is parsed, when no "$$EOE" precedes it. |
| Jpl2Db.ScanWithoutSoe | mtpipeline/ephem/jpl2db.py:216-238 | Text without a "$$SOE" line gives `None`. |
| Jpl2Db.ScanStopsAtEoe | mtpipeline/ephem/jpl2db.py:219-220 | An "$$EOE" before any "$$SOE" gives `None`. |
| Jpl2Db.AddMoon | mtpipeline/ephem/jpl2db.py:157 | token1 maps to {id: token0, object: token1}, and the dictionary stays well formed. |
| Jpl2Db.MoonScan | mtpipeline/ephem/jpl2db.py:150-159 | The scan keeps the dictionary well formed. |
| Jpl2Db.MakeAllMoonDict | mtpipeline/ephem/jpl2db.py:139-160 | The loop with its switch returns what `MoonScan` specifies. |
| Jpl2Db.MoonScanSkips | mtpipeline/ephem/jpl2db.py:151-154 | Lines before the target's line are skipped. |
| Jpl2Db.MoonScanBlock | mtpipeline/ephem/jpl2db.py:155-159 | Once switched on, the scan stores the block up to the first blank line and stops. |
| Jpl2Db.MoonDictIsBlock | mtpipeline/ephem/jpl2db.py:150-159 | The dictionary holds exactly the lines from the first line whose last token is the target up to the first blank line. |
| Jpl2Db.BlockEntry | mtpipeline/ephem/jpl2db.py:157 | A block line "id name …" not overwritten later is stored under its name, with its id. |
| Jpl2Db.BlockKeeps | mtpipeline/ephem/jpl2db.py:157 | Entries under other names are kept. |
| Jpl2Db.NewRow | mtpipeline/ephem/jpl2db.py:164-185 | The inserted row has the moon's name, the image id and the JPL RA and Dec. Magnitude and diameter are set only when `float()` succeeds. |
| Jpl2Db.CountMatches | mtpipeline/ephem/jpl2db.py:328-343 | The count is zero exactly when no row of the image and moon (lacking a JPL RA, for the second query) exists. |
| Jpl2Db.UpdateRows | mtpipeline/ephem/jpl2db.py:279-302 | The update rewrites exactly the rows of the image and moon. |
| Jpl2Db.MoonStep | mtpipeline/ephem/jpl2db.py:327-346 | A moon fails only on a path that asks HORIZONS: no row yet, exactly one row without a JPL RA, or `reproc`. With no answer for the moon's id the failure is an IOError naming that id. A success adds at most one row and removes none. |
| Jpl2Db.MoonStepDecision | mtpipeline/ephem/jpl2db.py:327-346 | No row for (image, moon): one row with a JPL RA is appended. Rows exist: they are updated only when exactly one of them lacks a JPL RA or `reproc` is set; otherwise the table is unchanged. Rows of other images or moons never change. |
| Jpl2Db.Fetch | mtpipeline/ephem/jpl2db.py:116-135 | A moon with no answer is an IOError naming it. A success parses one line of its answer. Any other failure is the TypeError of a `None` parse or an IndexError of a short line. |
| Jpl2Db.MoonStepKeeps | mtpipeline/ephem/jpl2db.py:322-346 | After one moon, rows of other images are unchanged, a row of the image keeps its moon, and the moon has a row for the image. |
| Jpl2Db.MoonsRun | mtpipeline/ephem/jpl2db.py:322-346 | The loop removes no row and adds at most one per moon. |
| Jpl2Db.MoonsRunCovers | mtpipeline/ephem/jpl2db.py:322-346 | Over the loop, rows of other images are unchanged and rows of the image keep their moon. When the loop completes, every listed moon has a row for the image. |
| Jpl2Db.HeaderTarget | mtpipeline/ephem/jpl2db.py:95-112 | Succeeds exactly for a `.fits` file with a header whose cut, lower-cased target is a known planet or moon, and returns that target. A wrong extension is an AssertionError, a missing header an IOError naming the file, and an unknown target an AssertionError. |
| Jpl2Db.ImagesNamed | mtpipeline/ephem/jpl2db.py:315-316 | The ids are exactly those of the images whose FITS file has that base name. |
| Jpl2Db.Prepare | mtpipeline/ephem/jpl2db.py:313-321 | Succeeds exactly when the name ends in ".fits", exactly one image has that FITS base name, its header target is known and the moon file scans. The image is then that one, and the moon dictionary is well formed. No match is NoResultFound, several are MultipleResultsFound, and a wrong extension is an AssertionError. |
| Jpl2Db.FindersTable.Jpl2DbMain | mtpipeline/ephem/jpl2db.py:308-349 | A failed preparation changes nothing. Otherwise the result and table are those of `MoonsRun` over the moons in list order, each write durable. |
| Jpl2Db.FindersTable.VisitMoons | mtpipeline/ephem/jpl2db.py:322-346 | The loop's result and table are exactly `MoonsRun` over the moons in list order. |
| FileHandling.GetPlanetsAndMoonsList | mtpipeline/tools/file_handling.py:85-118 | The loop returns the five built-ins followed by the second field of each line with more than three fields. |
| FileHandling.Matched | mtpipeline/tools/file_handling.py:57-61 | At most one match per list entry. |
| FileHandling.MatchedMembers | mtpipeline/tools/file_handling.py:57-61 | A body is matched exactly when it is in the list and occurs in the lower-cased target. |
| FileHandling.MatchedAppend | mtpipeline/tools/file_handling.py:57-61 | Matching keeps list order: the matches of a + b are those of a followed by those of b. |
| FileHandling.AddAbbrevs | mtpipeline/tools/file_handling.py:64-69 | The stage only appends, and each appended body was absent when it was added. |
| FileHandling.AddAbbrevsMembers | mtpipeline/tools/file_handling.py:64-69 | After the stage, a body is present exactly when it was matched or an abbreviation for it ("jup", "gan", "sat") occurs in the target. |
| FileHandling.RemoveFirst | mtpipeline/tools/file_handling.py:79 | `list.remove` takes out one copy of a present element and changes nothing otherwise. |
| FileHandling.Resolve | mtpipeline/tools/file_handling.py:75-79 | The corrected name-problem stage only removes names. |
| FileHandling.NameProblemsIndependent | mtpipeline/tools/file_handling.py:45-49 | No subname is another problem's subname or supername, so the order of the problems does not matter. |
| FileHandling.Removed | mtpipeline/tools/file_handling.py:75-79 | Only subnames are ever removed. |
| FileHandling.ResolveRemoves | mtpipeline/tools/file_handling.py:75-79 | For independent problems, the stage removes exactly one copy of each subname whose supername is also present. |
| FileHandling.GetMtargs | mtpipeline/tools/file_handling.py:25-81 | The loops return exactly `Mtargs`: matched bodies, then added abbreviations, then the corrected name-problem stage `Resolve` (Findings row 1). Where the source's stage raises ValueError, as on "IOCASTE-DIONE", this returns the corrected list. |
| FileHandling.MtargsFound | mtpipeline/tools/file_handling.py:53-69 | Every returned name is a list body or an abbreviated body occurring in the lower-cased target. |
| FileHandling.MtargsKeepsAllButSubnames | mtpipeline/tools/file_handling.py:53-79 | Nothing found is lost except one copy of each subname whose supername was also found. |
| FileHandling.MatchBodies | mtpipeline/tools/file_handling.py:56-61 | The loop returns exactly `Matched`, the list bodies found in the target, in list order (`MatchedMembers`). |
| FileHandling.AddAbbrevBodies | mtpipeline/tools/file_handling.py:64-69 | The loop returns exactly `AddAbbrevs`, which appends each abbreviated body not yet present (`AddAbbrevsMembers`). |
| FileHandling.ResolveOne | mtpipeline/tools/file_handling.py:75-79 | One name problem, corrected: the subname is removed once when a supername is present, and the list is unchanged otherwise (Findings row 1). |
| FileHandling.Remove | mtpipeline/tools/file_handling.py:79 | `list.remove` succeeds exactly when the element is present; otherwise it is a ValueError. |
| FileHandling.IoRemovedTwice | mtpipeline/tools/file_handling.py:77-79 | The inner loop as written fails on ["io", "iocaste", "dione"], which has two supernames of "io". |
| FileHandling.ResolveAsWritten | mtpipeline/tools/file_handling.py:75-79 | The name-problem loop as written fails only with `list.remove`'s ValueError. On success it only drops copies of subnames: every other name keeps its count. |
| FileHandling.IocasteDioneRaises | mtpipeline/tools/file_handling.py:75-79 | The name-problem loop as written raises on a target naming Iocaste and Dione. |
| FileHandling.IocasteDioneResolved | mtpipeline/tools/file_handling.py:75-79 | The corrected stage gives ["iocaste", "dione"]. |
| FileHandling.FitsTypeOfAccepted | mtpipeline/tools/file_handling.py:144-147 | The file type of an accepted name is "c0m" or "flt". |
| FileHandling.Hardware | mtpipeline/tools/file_handling.py:151-156 | The hardware text has no upper-case letter. It is "wfpc2" for WFPC2 and instrument-detector otherwise. |
| FileHandling.HardwareFields | mtpipeline/tools/file_handling.py:151-156 | Without dashes in the inputs, the hardware splits back into the lower-cased instrument and detector. |
| FileHandling.TargetText | mtpipeline/tools/file_handling.py:166-171 | With no match, the target text is a prefix of at most 20 characters of the header target. |
| FileHandling.VersionTag | mtpipeline/tools/file_handling.py:177-178 | The tag is 'v' followed by the version with each '.' turned into '-'. |
| FileHandling.FrontFields | mtpipeline/tools/file_handling.py:180 | With underscore-free parts, the front splits at '_' into project, hardware, identifier-targets, filter and version. |
| FileHandling.IpsudHasNoUnderscore | mtpipeline/tools/file_handling.py:161 | The observation identifier has no '_'. |
| FileHandling.MakeOutputFileDict | mtpipeline/tools/file_handling.py:123-227 | The appending method returns exactly `OutputFileDict`, whose target text uses the corrected `Mtargs` (Findings row 1). Where the source's `get_mtargs` raises ValueError, this returns names. |
| FileHandling.OutputShape | mtpipeline/tools/file_handling.py:144-225 | Only c0m.fits/flt.fits names are accepted (AssertionError otherwise). The result has 2 CR names with the input first, 2 drizzle names, 1 weight name and 4 PNG names. |
| FileHandling.FitsBesideInput | mtpipeline/tools/file_handling.py:193-211 | The FITS outputs lie in the input's directory and are the front plus their suffix. |
| FileHandling.PngBesideInput | mtpipeline/tools/file_handling.py:213-219 | The two linear-scale PNG outputs lie in the input's own directory, with no `png/` sub-directory, and are the front plus their suffix. |
| FileHandling.LogPngBesideInput | mtpipeline/tools/file_handling.py:220-225 | The two log-scale PNG outputs lie there too, and are the front plus their suffix. |
| ImagingPipeline.DrizzleInfix | mtpipeline/imaging/imaging_pipeline.py:144-147 | The infix is "" for flt and "c0m_" otherwise. |
| ImagingPipeline.Named | mtpipeline/imaging/imaging_pipeline.py:137-162 | One name per tag. |
| ImagingPipeline.NamedInDir | mtpipeline/imaging/imaging_pipeline.py:137-162 | Each name lies in the given directory under base + tag + tail. |
| ImagingPipeline.MakeOutputFileDict | mtpipeline/imaging/imaging_pipeline.py:103-164 | The three appending loops return exactly `OutputFileDict`. |
| ImagingPipeline.OutputShape | mtpipeline/imaging/imaging_pipeline.py:121-164 | Only c0m.fits/flt.fits names are accepted (AssertionError otherwise). The result has two CR, two drizzle, two weight and two PNG names. |
| ImagingPipeline.BaseNameIsPrefix | mtpipeline/imaging/imaging_pipeline.py:133-134 | The identifier is a prefix of the basename and holds no '_'. |
| ImagingPipeline.DrizzleInfixOfInput | mtpipeline/imaging/imaging_pipeline.py:124-147 | An flt input gets no infix and a c0m input gets "c0m_". |
| ImagingPipeline.PngDirectory | mtpipeline/imaging/imaging_pipeline.py:159-162 | Both PNG names lie in the `png` sub-directory of the input's directory. |
| ImagingPipeline.CrRejectDirectory | mtpipeline/imaging/imaging_pipeline.py:137-139 | Both CR-rejection names lie in the input's directory. |
| ImagingPipeline.HeaderMetadata | mtpipeline/imaging/imaging_pipeline.py:46-99 | The detector falls back to the instrument. Gain and read noise are present exactly when the detector is not SBC and the instrument not WFPC2. The read noise is the largest of the four. A missing keyword is a KeyError, exactly in the cases where it is read. |
| ImagingPipeline.GetMetadata | mtpipeline/imaging/imaging_pipeline.py:46-99 | The method returns exactly `HeaderMetadata`. |
| ImagingPipeline.CheckForOutputs | mtpipeline/imaging/imaging_pipeline.py:31-42 | True exactly when every output exists. |
| ImagingPipeline.DrizzleCalls | mtpipeline/imaging/imaging_pipeline.py:213-215 | Two calls (WCS update, drizzle) per file, all of the drizzle step's rank. |
| ImagingPipeline.TrimCalls | mtpipeline/imaging/imaging_pipeline.py:231-233 | One trim per file, all of the PNG step's rank. |
| ImagingPipeline.CrStep | mtpipeline/imaging/imaging_pipeline.py:184-202 | The method makes exactly the calls `CrCalls` specifies. |
| ImagingPipeline.DrizzleStep | mtpipeline/imaging/imaging_pipeline.py:205-220 | The method makes exactly the calls `DrizzleStepCalls` specifies. |
| ImagingPipeline.TrimStep | mtpipeline/imaging/imaging_pipeline.py:223-238 | The method makes exactly the calls `TrimStepCalls` specifies. |
| ImagingPipeline.RunImagingPipeline | mtpipeline/imaging/imaging_pipeline.py:170-238 | A bad name or a missing header keyword is that error. Otherwise the run makes the calls of the three steps in order. |
| ImagingPipeline.StepSkipRule | mtpipeline/imaging/imaging_pipeline.py:186-225 | A switched-on step is skipped exactly when reprocessing is off and all its outputs exist. |
| ImagingPipeline.StepCalls | mtpipeline/imaging/imaging_pipeline.py:184-238 | The CR step makes 1 call, the drizzle step 4 and the PNG step 2, exactly when the step runs, and none otherwise. |
| ImagingPipeline.Calls | mtpipeline/imaging/imaging_pipeline.py:184-238 | The steps run in order: no call of a later step comes before a call of an earlier one. |
| RunTrim.SubarrayOkIff | mtpipeline/imaging/run_trim.py:114-121 | The assertions hold exactly when the bounds are ordered and the clamped window is non-negative on both axes. |
| RunTrim.Subarray | mtpipeline/imaging/run_trim.py:105-122 | Succeeds exactly when the assertions hold (AssertionError otherwise). The result is a new array of size min(max, n) − max(min, 0) per axis, holding the window's pixels. |
| RunTrim.Clipped | mtpipeline/imaging/run_trim.py:44-49 | A top clip gives min(v, c) and a bottom clip gives max(v, c). |
| RunTrim.Copy | mtpipeline/imaging/run_trim.py:48 | A fresh array with the same shape and pixels. |
| RunTrim.ClipInPlace | mtpipeline/imaging/run_trim.py:44-49 | Every pixel becomes its clipped value. |
| RunTrim.Clip | mtpipeline/imaging/run_trim.py:30-57 | Succeeds exactly for "top"/"bottom". The result is a new clipped copy and the input is unchanged. |
| RunTrim.ThresholdBounds | mtpipeline/imaging/run_trim.py:267-269 | A thresholded value lies in [minimum, maximum], and values already inside are unchanged. |
| RunTrim.InsertPermutes | mtpipeline/imaging/run_trim.py:82-84 | Insertion adds exactly the inserted value. |
| RunTrim.InsertSorted | mtpipeline/imaging/run_trim.py:82-84 | Insertion keeps a sorted sequence sorted. |
| RunTrim.SortIsSortedPermutation | mtpipeline/imaging/run_trim.py:82-84 | `sort` returns an ascending permutation of its input. |
| RunTrim.Ravel | mtpipeline/imaging/run_trim.py:83 | `ravel` has one entry per pixel. |
| RunTrim.GetValueByPixelCount | mtpipeline/imaging/run_trim.py:72-90 | Returns sorted[n] for "top" and sorted[n−1] for "bottom", with Python indexing and its IndexError. Any other direction is an AssertionError. |
| RunTrim.PixelCountValue | mtpipeline/imaging/run_trim.py:82-88 | The value found is a pixel of the image, no smaller than the sorted values before its position and no larger than those after. |
| RunTrim.PositionsInside | mtpipeline/imaging/run_trim.py:134-135 | In a non-empty image, the 1% position is no later than the 99% position, and both are inside. |
| RunTrim.TopBottomOrdered | mtpipeline/imaging/run_trim.py:134-135 | So the bottom value never exceeds the top one. |
| RunTrim.TopBottomClip | mtpipeline/imaging/run_trim.py:126-140 | An empty image is an IndexError and is left unchanged. Otherwise every pixel is thresholded, in place, between the 1% and 99% sorted values. |
| RunTrim.StemHasNoSlash | mtpipeline/imaging/run_trim.py:98-99 | The stem of a basename has no '/'. |
| RunTrim.PngNameParts | mtpipeline/imaging/run_trim.py:94-101 | The PNG name splits into the output directory and stem_label.png, with extension `.png`. |
| RunTrim.MakePngName | mtpipeline/imaging/run_trim.py:94-101 | For a label without '/', the file name of the result is the input's stem, '_', the label and ".png", whatever the output directory. |
| RunTrim.PngCreator.BottomClip | mtpipeline/imaging/run_trim.py:164-169 | Succeeds exactly when the image has at least ten pixels. Pixels below the tenth-lowest value are raised to it, in a new array. |
| RunTrim.PngCreator.ThresholdClip | mtpipeline/imaging/run_trim.py:262-279 | Each pixel of the new array is the value thresholded to [minimum, maximum]. |
| RunTrim.PngCreator.Trim | mtpipeline/imaging/run_trim.py:281-285 | `data` becomes exactly the `subarray` of the old data, or is unchanged on failure. |
| RunTrim.PngCreator.constructor | mtpipeline/imaging/run_trim.py:157-162 | The creator holds a fresh copy of the source. |
| RunTrim.TileCorner | mtpipeline/imaging/run_trim.py:302-303 | Tile corners lie at multiples of 425. |
| RunTrim.CutTile | mtpipeline/imaging/run_trim.py:305-306 | A trimmed copy is the 450-pixel window at the corner, cut short at the image edge. It fails exactly when the corner is outside the image. |
| RunTrim.MakeSubimagePngs | mtpipeline/imaging/run_trim.py:291-307 | On an image of at least 850×1275 pixels, twelve tiles numbered 1..12 at the twelve corners, each named by `make_png_name` with suffix + number and holding its window. A smaller image fails the shape assertion, and the tiles written before it are returned: fewer than twelve, the first of the others having its corner outside the image. |
| LegacyEphem.RowOf | ephem/ephem.py:172-181 | A data line gives a row exactly when it has at least 16 tokens. |
| LegacyEphem.RowFieldsSplit | ephem/ephem.py:175-181 | The row gives its tokens back: the date splits into its two tokens and RA and Dec into their three. |
| LegacyEphem.TrimData | ephem/ephem.py:151-182 | The scanning loop returns what `TrimScan` specifies over the lines of the answer. |
| LegacyEphem.TextHasTokens | ephem/ephem.py:160-161 | A non-blank stripped line has a first token. |
| LegacyEphem.LinePasses | ephem/ephem.py:159-171 | A '*' line moves the section on, and a "Target" line of section 1 records its 4th token. |
| LegacyEphem.ScanSplit | ephem/ephem.py:155-182 | The scan of all lines is the scan of a prefix resumed on the rest: the loop carries only the section and the target. |
| LegacyEphem.SkipLines | ephem/ephem.py:159-171 | Lines that pass move the section counter on by their number of markers and leave the last target. |
| LegacyEphem.TrimFindsRow | ephem/ephem.py:155-182 | The row comes from the first non-'$' line of section 5, with the target named in section 1. |
| LegacyEphem.TrimWithoutRow | ephem/ephem.py:151-182 | Text without such a line gives `None`. |
| LegacyEphem.TrimScan | ephem/ephem.py:155-182 | A failure is an IndexError. A row found is that of a data line of the text. |
| LegacyEphem.PlanetName | ephem/ephem.py:89 | The planet name has no '-' and is a prefix of the lower-cased target. |
| LegacyEphem.GetHeaderInfo | ephem/ephem.py:82-101 | Succeeds exactly for a `.fits` file with a header whose target is one of the six planets. |
| LegacyEphem.JupiterWithSuffix | ephem/ephem.py:89-100 | "JUPITER-N" is accepted as jupiter. |
| LegacyEphem.MoonRefused | ephem/ephem.py:98-100 | "IO" is refused. |
| LegacyEphem.CalcDelta | ephem/ephem.py:11-34 | Succeeds exactly when both JPL texts parse and the pointing is a valid `Degrees`. The dictionary gets the decimal JPL position, and delta = (pointing − JPL)·72000 on both axes, with no sign switch. |
| LegacyEphem.CalcTarg | ephem/ephem.py:50-63 | Succeeds exactly for a valid reference. The target pixel is CRPIX + (pointing − CRVAL)·72000 on both axes. |
| LegacyEphem.CalcEphem | ephem/ephem.py:38-46 | The ephemeris pixel is the target pixel plus the delta. |
| LegacyEphem.MoonAsWritten | ephem/ephem.py:204-208 | One moon as written: its position is the target pixel plus its delta. |
| LegacyEphem.ReferenceText | ephem/coords.py:130-192 | "0:40:0 0:0:0" is RA 10 degrees, Dec 0. |
| LegacyEphem.ReferenceBodyMissesReferencePixel | ephem/ephem.py:30-62 | As written, a body exactly at the reference sky position lands 144 pixels from CRPIX1 when the pointing is 0.001 degrees off. |
| LegacyEphem.CalcDeltaCorrected | ephem/ephem.py:30-31 | The corrected delta fails exactly when the original does, and writes the same dictionary. |
| LegacyEphem.CalcTargCorrected | ephem/ephem.py:59-62 | The corrected target fails exactly when the original does. |
| LegacyEphem.MoonPositionOf | ephem/ephem.py:204-208 | The corrected pass fails exactly when the original does. |
| LegacyEphem.MoonPositionFromSky | ephem/ephem.py:30-62 | With consistent signs, x = CRPIX1 − (RA − CRVAL1)·72000 and y = CRPIX2 + (Dec − CRVAL2)·72000. A body at the reference lands on the reference pixel. This is the position the master finders builder computes. |
| LegacyEphem.Names | ephem/ephem.py:195 | The names of the moons, in order. |
| LegacyEphem.Results | ephem/ephem.py:195-208 | One result per moon. |
| LegacyEphem.MoonFromAnswerCases | ephem/ephem.py:196-208 | A failed trim is passed on, an answer without a row is a TypeError, and otherwise the moon is the corrected `MoonPositionOf` of the row (Findings row 5). |
| LegacyEphem.Collect | ephem/ephem.py:195-209 | A success means every moon succeeded; a failure is one moon's failure. |
| LegacyEphem.Moons | ephem/ephem.py:195-209 | The same for the moons positioned from their own answers. |
| LegacyEphem.CollectStep | ephem/ephem.py:195-209 | After a successful prefix, one more moon adds its position under its name or ends the run with its error. |
| LegacyEphem.CollectKeys | ephem/ephem.py:195-209 | A successful run holds exactly the listed names. |
| LegacyEphem.CollectEntries | ephem/ephem.py:195-209 | In a successful run every moon succeeded, and with names listed once each, each entry is its own result. |
| LegacyEphem.CollectFails | ephem/ephem.py:195-209 | A run fails exactly when some moon fails, with the first failure. |
| LegacyEphem.MoonsKeys | ephem/ephem.py:195-209 | After a successful run exactly the listed moons are present. |
| LegacyEphem.MoonsAreIndependent | ephem/ephem.py:195-209 | Each moon's position depends on its own answer only, even though the loop shares `file_dict`. |
| LegacyEphem.NextPassSeesHeader | ephem/ephem.py:205-207 | What the previous pass wrote into `file_dict` does not change the next moon's position. |
| LegacyEphem.OneMoon | ephem/ephem.py:196-208 | One pass yields `MoonFromAnswer`, which positions the moon by the corrected `MoonPositionOf` (Findings row 5), and restores the dictionary up to its JPL fields. |
| LegacyEphem.EphemMain | ephem/ephem.py:188-209 | The loop returns exactly `Moons`, each moon positioned by the corrected `MoonPositionOf` (Findings row 5). |
| LegacyEphem.CollectPrefixFails | ephem/ephem.py:195-209 | A failure on a prefix is the failure of the whole run. |
| MasterImages.GetFitsFile | ephem/build_master_images_table.py:35-56 | A non-PNG is AssertionError("png file required"). The result always has the `.fits` extension, and every error is one of the two assertions. |
| MasterImages.PngDirectoryFits | ephem/build_master_images_table.py:53 | dir/png/stem.png maps to dir/stem.fits. |
| MasterImages.VisitOrbit | ephem/build_master_images_table.py:92-94 | Succeeds exactly when LINENUM holds a '.'; otherwise IndexError. Visit and orbit hold no '.'. |
| MasterImages.VisitOrbitOfLinenum | ephem/build_master_images_table.py:92-94 | "visit.orbit" gives that visit and orbit back. |
| MasterImages.RecordOf | ephem/build_master_images_table.py:59-95 | Succeeds exactly when the header exists, LINENUM has a '.' and the FITS name has three '_' fields. The row takes the names, project and target from the header, the width and height from NAXIS1 and NAXIS2, the description from FILTNAM1, a pixel resolution of 0.05 arcsec/pixel, and the drizzle mode from the third-last '_' field of the FITS name. Its RA/Dec bounds are the pointing offset by the reference pixel (420, 424.5) and the image size at 72000 pixels a degree. Its set fields are empty. |
| MasterImages.Filter | ephem/build_master_images_table.py:110-149 | A query returns exactly the rows it selects, in order. |
| MasterImages.FilterNone | ephem/build_master_images_table.py:110-149 | A query that selects nothing is empty. |
| MasterImages.MaxOf | ephem/build_master_images_table.py:132 | `func.max` is `None` on no values and otherwise the largest value. |
| MasterImages.MakeSetInfo | ephem/build_master_images_table.py:100-150 | Only the set fields of the record change, and every failure is one of the source's assertion or lookup errors. |
| MasterImages.SetInfoKeepsExistingSet | ephem/build_master_images_table.py:110-118 | More than one same-named row with a set index is an AssertionError. Exactly one gives its set id and index. |
| MasterImages.SetInfoOpensNewSet | ephem/build_master_images_table.py:131-138 | With no numbered image in its group, the record succeeds with set index 1 and a set id above every id in the table, or 1 in a table without set ids. |
| MasterImages.SetInfoNewSetId | ephem/build_master_images_table.py:131-138 | In a table with set ids, the new set id is one more than some row's id and above every id, so it is exactly the highest id plus 1. |
| MasterImages.SetInfoJoinsSet | ephem/build_master_images_table.py:141-149 | Otherwise two set ids in the group are MultipleResultsFound. A successful join takes a set id of the group and an index above every index of the group. |
| MasterImages.SetInfoJoinedIndex | ephem/build_master_images_table.py:141-149 | When the group's set ids agree and some image of the group has a set index, the record succeeds with the group's set id. Its index is one more than some index of the group and above every one, so it is exactly the highest plus 1. |
| MasterImages.SetInfoWithoutIndexFails | ephem/build_master_images_table.py:141-149 | When the group's set ids agree but no image of the group has a set index, `.first()` gives None and reading `.set_index` is an AttributeError. |
| MasterImages.MakeRecordDict | ephem/build_master_images_table.py:59-150 | A header failure is passed on. Otherwise the record is the header's with only the set id and index filled in, or fails with a set-lookup error. |
| MasterImages.NamedAtMostOnce | ephem/build_master_images_table.py:177-180 | With unique names, the name query finds at most one row. |
| MasterImages.InsertKeepsSets | ephem/build_master_images_table.py:100-183 | Inserting a new row into a consistent table (each set one group, indices distinct) keeps it consistent. |
| MasterImages.Apply | ephem/build_master_images_table.py:179-186 | A failed write changes nothing. A write adds at most one row and removes none. |
| MasterImages.Step | ephem/build_master_images_table.py:175-186 | A failed PNG changes nothing. One PNG adds at most one row and removes none. |
| MasterImages.Run | ephem/build_master_images_table.py:174-187 | A run removes no row and adds at most one per PNG. |
| MasterImages.UpdateNamed | ephem/build_master_images_table.py:184-186 | Every row of that name takes the new record, and the others are unchanged. |
| MasterImages.ClearSets | ephem/build_master_images_table.py:162-167 | Every row with a set index loses its set id and set index; nothing else changes. |
| MasterImages.Main | ephem/build_master_images_table.py:156-187 | The same bound holds when `reproc_sets` first clears the sets, since clearing keeps every row. |
| MasterImages.RunKeepsNames | ephem/build_master_images_table.py:174-187 | A run keeps names unique and drops none. On success every PNG's name is present. A failure is never the "Multiple matches" assertion. |
| MasterImages.RunSplit | ephem/build_master_images_table.py:174-187 | A run over the files is the run over a prefix followed, when that succeeded, by the run over the rest. |
| MasterImages.RunKeepsPrefixNames | ephem/build_master_images_table.py:174-187 | The PNGs before a failure (a prefix that succeeded) all have their names in the final table. |
| MasterImages.RunWithoutReprocAppends | ephem/build_master_images_table.py:179-186 | Without `reproc` a run only appends: existing rows are unchanged. |
| MasterImages.RunWithoutReprocKeepsSets | ephem/build_master_images_table.py:179-186 | Without `reproc`, set consistency is preserved, on success and on failure. |
| MasterImages.ClearSetsLeavesNoSets | ephem/build_master_images_table.py:162-167 | After `reproc_sets` no row has a set and names are unchanged. |
| MasterImages.MasterImagesTable.BuildMasterImagesTableMain | ephem/build_master_images_table.py:156-188 | The result and table are those of `Main`: with `reproc_sets`, the sets are cleared and every file is reprocessed. |
| MasterImages.MasterImagesTable.AddPngs | ephem/build_master_images_table.py:174-187 | The loop yields exactly `Run` over the files. |
| MasterImages.MasterImagesTable.AddPng | ephem/build_master_images_table.py:175-186 | One file yields exactly `Step`: insert when the name is absent, update only with `reproc`, and AssertionError on several matches. |
| SubImages.DrizzleType | ephem/build_sub_images_table.py:34-37 | Field 3 when field 1 is "cr", else field 2. Succeeds exactly when that field exists; otherwise IndexError. |
| SubImages.DrizzleTypeExtends | ephem/build_sub_images_table.py:34-37 | Extra fields do not change the type. |
| SubImages.SuffixLength | ephem/build_sub_images_table.py:40-53 | The dropped suffix is 6 or 7 characters and shorter than the name, or 0 when no length rule applies. |
| SubImages.MasterFilename | ephem/build_sub_images_table.py:30-55 | A non-PNG is AssertionError("Expected .png got …"). A derived master name ends in `.png`. |
| SubImages.MasterOfBasename | ephem/build_sub_images_table.py:33-55 | A derived master name ends in `.png`. |
| SubImages.MasterOfBasenameShape | ephem/build_sub_images_table.py:40-53 | A success has type wide or center and a length rule that applies, gives basename[:-k] + ".png", and does not depend on the directory. |
| SubImages.MasterOfBasenameErrors | ephem/build_sub_images_table.py:34-58 | Every failure is a missing field, an unexpected type, or a length no rule covers (the unbound `master_filename`). |
| SubImages.TileNumberText | mtpipeline/imaging/run_trim.py:304-307 | Tile numbers 1..99 are written with 1 or 2 characters, without '_', '.' or '/'. |
| SubImages.MasterOfSubImage | ephem/build_sub_images_table.py:30-53 | The name of tile k of a master PNG of the covered lengths, written as m_k.png in any directory, gives back the master name m.png. |
| SubImages.MastersNamed | ephem/build_sub_images_table.py:57-58 | The masters of a name are exactly those with that name. |
| SubImages.SubImageRecord | ephem/build_sub_images_table.py:57-77 | Succeeds exactly when the master name derives and exactly one master has it. Otherwise NoResultFound or MultipleResultsFound. The row holds the basename, the directory and that master's id and name. |
| SubImages.Count | ephem/build_sub_images_table.py:60-61 | The count is at most the number of rows. |
| SubImages.CountZero | ephem/build_sub_images_table.py:60-63 | The count is zero exactly when no row has the name. |
| SubImages.Write | ephem/build_sub_images_table.py:63-82 | A write adds at most one row and removes none. Every row of another name keeps its place and value. |
| SubImages.WriteKeepsUnique | ephem/build_sub_images_table.py:63-82 | In a table of unique names, a write keeps names unique and leaves exactly the record under its name. Rows of other names are kept, and none added. |
| SubImages.CountBoundUnique | ephem/build_sub_images_table.py:63-82 | With unique names, a present name counts once. |
| SubImages.WriteIdempotent | ephem/build_sub_images_table.py:63-82 | Writing a record twice leaves the table as one write does. |
| SubImages.CountAppendFresh | ephem/build_sub_images_table.py:63-70 | Inserting a new name counts it once. |
| SubImages.CountUpdate | ephem/build_sub_images_table.py:72-80 | An update keeps every count. |
| SubImages.Update | ephem/build_sub_images_table.py:72-80 | Every row of the record's name takes the record; the others are unchanged. |
| SubImages.Main | ephem/build_sub_images_table.py:26-84 | Succeeds exactly when the sub-image record does, passing on its error. A success adds at most one row and leaves the rows of other names unchanged. |
| SubImages.Run | ephem/build_sub_images_table.py:114-118 | A run adds at most one row per file and removes none. A failure is the error of one of the files. |
| SubImages.MainIdempotent | ephem/build_sub_images_table.py:26-84 | Processing a file twice gives the table one call gives. |
| SubImages.RunKeepsUnique | ephem/build_sub_images_table.py:117-118 | A run keeps names unique. On success every file has its row, up to its directory. |
| SubImages.RunKeepsRow | ephem/build_sub_images_table.py:117-118 | The row for an earlier file survives later writes, up to its directory. |
| SubImages.SameNameSameMaster | ephem/build_sub_images_table.py:33-58 | Two files of the same name get the same record except for the directory. |
| SubImages.SubImagesTable.BuildSubImagesTableMain | ephem/build_sub_images_table.py:26-84 | On success the table is `Main`'s. On failure the error is returned and the table is unchanged. |
| SubImages.SubImagesTable.BuildSubImagesTable | ephem/build_sub_images_table.py:114-118 | The loop yields exactly `Run` over the files. |

## Left out

- I/O is not modelled. HORIZONS answers are a map from moon id to text. FITS headers are maps from file name to header. The files on disk are a set of names. The planets-and-moons file is its list of lines. The database is the rows a class holds.
- Network sessions are left out: `telnet_session`, the `urlopen` call of `cgi_session`, and the retry-forever loops of `get_jpl_data` and `ephem_main`. The telnet parser `parse_jpl_telnet` of `mtpipeline/ephem/jpl2db.py` repeats `trim_data`, which is modelled.
- `convert_datetime` and `make_moon_dict` are left out: they depend on calendar formatting and a file read. The moons of a legacy run are given as a list.
- SQL sessions, joins and transactions are modelled only as far as the source's results depend on them:
  - the `finders` builder of `mtpipeline/` commits once at the end;
  - `insert_record`/`update_record` commit at once;
  - `run_ephem_main` commits every 100 records and rolls back the rest at `close()`.
- Floating point is not modelled. `run_trim.py` pixel values are `int`. `compress`, `log`, `positive`, `saturated_clip`, `save_png` and `get_fits_data` are floating-point image transforms or file I/O.
- The `run_trim` driver, `imaging_pipeline`'s external programs and argument parsing are left out. The external programs (`run_cosmicx`, `updatewcs`, `run_astrodrizzle`, `run_trim`) are modelled only as the list of calls a run makes.
- Printing, logging, `counter` and `os.path.abspath` are left out. `abspath` depends on the working directory, so names are used as given.
- Jpl2Db.FindersTable.Jpl2DbMain: visits the moons in the order the file lists them, not in Python 2 dictionary order, which depends on string hashes.
- LegacyEphem.EphemMain: same simplification; the moons are visited in the order given.
- FileHandling.AddAbbrevs: the `abbrevs` dictionary is visited in the order gan, jup, sat, the order CPython 2.7 (64-bit) iterates it.
- MasterImages.RunWithoutReprocKeepsSets: set consistency is proved for runs without `reproc` only. A reprocessed row keeps its set only while it still has a set index.
- MasterImages.RecordOf: assumes the FITS header carries every keyword it reads; the KeyError of a missing keyword is not modelled.
- LegacyEphem.GetHeaderInfo, MasterFinders.GetHeaderInfo, Jpl2Db.HeaderTarget: likewise assume the header has the keywords they read (ephem/ephem.py:89-97, build_master_finders_table.py:117-123, jpl2db.py:103-105); a missing keyword, a KeyError in the source, is not modelled.
- The master image record that `make_record_dict` builds (`MasterImages.MasterImage`) leaves out `file_location` (build_master_images_table.py:90). It is the absolute directory of the PNG, which depends on the working directory through `abspath`. The master-finders model takes `file_location` as a given column of its own image record (`MasterFinders.MasterImage`).
- The trim call (`ImagingPipeline.Trim`) records the file and its weight only; the `output_path` and `log_switch=True` arguments of `run_trim` (imaging_pipeline.py:233) are not recorded.
- SubImages.SubImagesTable.BuildSubImagesTableMain: `reproc` is accepted and, as in the source, never read.
- SubImages.MasterRow: the master images table is reduced to id and name, the two columns the sub-images builder reads.
- The unit test `tests/unit_tests/test_imaging_pipeline.py` expects PNG names under `png/` and `hlsp_…` names from `mtpipeline/imaging/imaging_pipeline.py`. That function builds basename-based names, with the PNGs under `png/`. The `hlsp_…` names come from `mtpipeline/tools/file_handling.py`, which puts its PNGs beside the input (lines 214-215). Both functions are modelled as written (`ImagingPipeline.PngDirectory`, `FileHandling.PngBesideInput`, `FileHandling.LogPngBesideInput`).
- `get_header_info` in `mtpipeline/ephem/build_master_finders_table.py` and in `mtpipeline/ephem/jpl2db.py` reads a module global `planet_list`. It is set (build_master_finders_table.py:206, jpl2db.py:387) only under `if __name__ == '__main__':`, so it exists only when the file runs as a script. The model passes the list, built by `get_planets_moons`, as a parameter.
- PyStr.ParseFloat: accepts only plain decimal text with an optional sign. Exponent forms such as "1e1" and the words "inf" and "nan", which Python's `float()` accepts, are rejected. Coords.ParseSexagesimal and Jpl2Db.NewRow rely on it, so a field written that way fails to parse in the model.

## Findings

| source | as written | input that shows it | evidently intended | confidence | as-written member | corrected member |
|---|---|---|---|---|---|---|
| mtpipeline/tools/file_handling.py:75-79 | `mtargs.remove(subname)` runs once per present supername | target "IOCASTE-DIONE" with "io", "iocaste", "dione" in the list: the second `remove("io")` raises ValueError | remove the subname once when any supername is present | high, not executed | FileHandling.ResolveAsWritten (FileHandling.IocasteDioneRaises) | FileHandling.Resolve (FileHandling.ResolveRemoves, FileHandling.IocasteDioneResolved, FileHandling.ResolveOne, FileHandling.GetMtargs, FileHandling.MakeOutputFileDict) |
| mtpipeline/ephem/build_finders_table.py:81-82 | the local position is `ephem % 425` for every listed region | pixel (430, 0) in region 3 is stored at x = 5 instead of 430; (0, 1300) in region 1 at y = 25 instead of 450 | the position relative to each listed region's tile | high, not executed | FinderRegions.LocalCoord (FinderRegions.LocalCoordMisplacesNeighbour, FinderRegions.LocalCoordMisplacesClamped) | FinderRegions.TileLocal (FinderRegions.TileLocalWithinTile, FinderRegions.FindersTable.BuildFindersTableMain) |
| ephem/build_finders_table.py:78-81 | only the last character of the sub-image stem is compared with the region | pixel (0, 0), region 1, keeps sub-image tile 11 | compare the whole trailing tile number | medium, not executed | LegacyFinders.KeepAsWritten (LegacyFinders.KeepAsWrittenMatchesWrongTile) | LegacyFinders.Keep (LegacyFinders.KeepMatchesTile, LegacyFinders.FindersTable.BuildFindersTableMain) |
| mtpipeline/ephem/build_master_finders_table.py:176-178 | commits only when `counter % 100 == 0`, then `close()` | two moons: record 1 is updated after the last commit and rolled back at `close()` | commit before closing | high, not executed | MasterFinders.MasterFindersTable.RunEphemMainAsWritten (MasterFinders.AsWrittenLosesLastBatch) | MasterFinders.MasterFindersTable.RunEphemMain |
| ephem/ephem.py:30-62 | `calc_delta` adds (pointing − JPL)·72000 to the target pixel, so x falls as the body's RA grows (RA to the left) and y falls as its Dec grows. `calc_targ` adds (pointing − CRVAL)·72000 to CRPIX, so x grows with RA (RA to the right) and y grows with Dec. The two disagree on both axes | reference RA 10°, pointing 10.001°, body "0:40:0 0:0:0": x = 144, not CRPIX1 = 0 | one direction per axis, as the later builder computes: RA to the left, by flipping the x term of `calc_targ`, and Dec upward, by flipping the y term of `calc_delta`. Then x = CRPIX1 − (RA − CRVAL1)·72000 and y = CRPIX2 + (Dec − CRVAL2)·72000 | medium, not executed | LegacyEphem.MoonAsWritten (LegacyEphem.ReferenceBodyMissesReferencePixel) | LegacyEphem.MoonPositionOf (LegacyEphem.CalcTargCorrected, LegacyEphem.CalcDeltaCorrected, LegacyEphem.MoonPositionFromSky, LegacyEphem.MoonFromAnswerCases, LegacyEphem.OneMoon, LegacyEphem.EphemMain) |
