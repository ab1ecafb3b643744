/** The integer side of the PNG maker (`mtpipeline/imaging/run_trim.py`):
    windows cut out of an image, clipping at a value, the value of the n-th
    pixel in sorted order, the thresholds applied before scaling, the PNG
    file names and the twelve overlapping tiles cut from a drizzled image.
    Pixels are integers here; the floating-point scalings are not part of
    this model. */
module RunTrim {
  import opened Wrappers
  import opened PyStr
  import PosixPath

  function Min(a: int, b: int): int { if a <= b then a else b }

  function Max(a: int, b: int): int { if a >= b then a else b }

  // ---------------------------------------------------------------------------
  // subarray
  // ---------------------------------------------------------------------------

  /** The length numpy gives the slice `lo:hi` of an axis of length `n`
      (negative bounds count from the end, both are clamped). */
  function SliceLength(lo: int, hi: int, n: nat): nat
  {
    var a := SliceBound(lo, n);
    var b := SliceBound(hi, n);
    if a <= b then b - a else 0
  }

  /** The assertions of `subarray`: the bounds are ordered, and the slice
      along each axis has the length `min(max, shape) - max(min, 0)`. */
  predicate SubarrayOk(n0: nat, n1: nat, xmin: int, xmax: int, ymin: int, ymax: int)
  {
    xmin < xmax && ymin < ymax
    && SliceLength(Max(xmin, 0), Min(xmax, n0), n0) == Min(xmax, n0) - Max(xmin, 0)
    && SliceLength(Max(ymin, 0), Min(ymax, n1), n1) == Min(ymax, n1) - Max(ymin, 0)
  }

  /** The shape assertions hold exactly when, on each axis, the clamped start
      does not pass the clamped end: a window starting beyond the image or
      ending before it is rejected. */
  lemma SubarrayOkIff(n0: nat, n1: nat, xmin: int, xmax: int, ymin: int, ymax: int)
    ensures SubarrayOk(n0, n1, xmin, xmax, ymin, ymax) <==>
      xmin < xmax && ymin < ymax && Max(xmin, 0) <= Min(xmax, n0) && Max(ymin, 0) <= Min(ymax, n1)
  {
  }

  /** `subarray`: the window `[xmin, xmax) x [ymin, ymax)` clamped to the
      image, a fresh array. */
  method Subarray(a: array2<int>, xmin: int, xmax: int, ymin: int, ymax: int) returns (r: Result<array2<int>>)
    ensures r.Ok? <==> SubarrayOk(a.Length0, a.Length1, xmin, xmax, ymin, ymax)
    ensures r.Err? ==> r.error.AssertionError?
    ensures r.Ok? ==> fresh(r.value)
    ensures r.Ok? ==> r.value.Length0 == Min(xmax, a.Length0) - Max(xmin, 0)
    ensures r.Ok? ==> r.value.Length1 == Min(ymax, a.Length1) - Max(ymin, 0)
    ensures r.Ok? ==> forall i, j :: 0 <= i < r.value.Length0 && 0 <= j < r.value.Length1 ==>
      r.value[i, j] == a[Max(xmin, 0) + i, Max(ymin, 0) + j]
  {
    if !(xmin < xmax) {
      return Err(AssertionError("xmin must be stictly less than xmax."));
    }
    if !(ymin < ymax) {
      return Err(AssertionError("ymin must be stictly less than ymax."));
    }
    var x0 := Max(xmin, 0);
    var x1 := Min(xmax, a.Length0);
    var y0 := Max(ymin, 0);
    var y1 := Min(ymax, a.Length1);
    var rows := SliceLength(x0, x1, a.Length0);
    var cols := SliceLength(y0, y1, a.Length1);
    if rows != x1 - x0 {
      return Err(AssertionError("Output shape is unexpected: " + IntToString(x1 - x0)));
    }
    if cols != y1 - y0 {
      return Err(AssertionError("Output shape is unexpected: " + IntToString(y1 - y0)));
    }
    var out := new int[rows, cols];
    var i := 0;
    while i < rows
      invariant 0 <= i <= rows
      invariant forall p, q :: 0 <= p < i && 0 <= q < cols ==> out[p, q] == a[x0 + p, y0 + q]
    {
      var j := 0;
      while j < cols
        invariant 0 <= j <= cols
        invariant forall p, q :: 0 <= p < i && 0 <= q < cols ==> out[p, q] == a[x0 + p, y0 + q]
        invariant forall q :: 0 <= q < j ==> out[i, q] == a[x0 + i, y0 + q]
      {
        out[i, j] := a[x0 + i, y0 + j];
        j := j + 1;
      }
      i := i + 1;
    }
    r := Ok(out);
  }

  // ---------------------------------------------------------------------------
  // clip and threshold_clip
  // ---------------------------------------------------------------------------

  /** One pixel after a clip at `c`: a top clip lowers values above `c` to
      it, a bottom clip raises values below `c` to it. */
  function Clipped(v: int, c: int, top: bool): (r: int)
    ensures top ==> r == Min(v, c)
    ensures !top ==> r == Max(v, c)
  {
    if top then (if v > c then c else v) else (if v < c then c else v)
  }

  /** `deepcopy` of an image. */
  method Copy(a: array2<int>) returns (b: array2<int>)
    ensures fresh(b) && b.Length0 == a.Length0 && b.Length1 == a.Length1
    ensures forall i, j :: 0 <= i < a.Length0 && 0 <= j < a.Length1 ==> b[i, j] == a[i, j]
  {
    b := new int[a.Length0, a.Length1];
    var i := 0;
    while i < a.Length0
      invariant 0 <= i <= a.Length0
      invariant forall p, q :: 0 <= p < i && 0 <= q < a.Length1 ==> b[p, q] == a[p, q]
    {
      var j := 0;
      while j < a.Length1
        invariant 0 <= j <= a.Length1
        invariant forall p, q :: 0 <= p < i && 0 <= q < a.Length1 ==> b[p, q] == a[p, q]
        invariant forall q :: 0 <= q < j ==> b[i, q] == a[i, q]
      {
        b[i, j] := a[i, j];
        j := j + 1;
      }
      i := i + 1;
    }
  }

  /** The masked assignment `b[b > c] = c` (top) or `b[b < c] = c`
      (bottom), in place. */
  method ClipInPlace(b: array2<int>, c: int, top: bool)
    modifies b
    ensures forall i, j :: 0 <= i < b.Length0 && 0 <= j < b.Length1 ==> b[i, j] == Clipped(old(b[i, j]), c, top)
  {
    var i := 0;
    while i < b.Length0
      invariant 0 <= i <= b.Length0
      invariant forall p, q :: 0 <= p < i && 0 <= q < b.Length1 ==> b[p, q] == Clipped(old(b[p, q]), c, top)
      invariant forall p, q :: i <= p < b.Length0 && 0 <= q < b.Length1 ==> b[p, q] == old(b[p, q])
    {
      var j := 0;
      while j < b.Length1
        invariant 0 <= j <= b.Length1
        invariant forall p, q :: 0 <= p < i && 0 <= q < b.Length1 ==> b[p, q] == Clipped(old(b[p, q]), c, top)
        invariant forall q :: 0 <= q < j ==> b[i, q] == Clipped(old(b[i, q]), c, top)
        invariant forall p, q :: i <= p < b.Length0 && 0 <= q < b.Length1 && (p > i || q >= j) ==> b[p, q] == old(b[p, q])
      {
        b[i, j] := Clipped(b[i, j], c, top);
        j := j + 1;
      }
      i := i + 1;
    }
  }

  /** `clip`: a clipped copy; the input is left as it was. */
  method Clip(input: array2<int>, clipVal: int, topOrBottom: string) returns (r: Result<array2<int>>)
    ensures r.Ok? <==> topOrBottom == "top" || topOrBottom == "bottom"
    ensures r.Err? ==> r.error.AssertionError?
    ensures r.Ok? ==> fresh(r.value) && r.value.Length0 == input.Length0 && r.value.Length1 == input.Length1
    ensures r.Ok? ==> forall i, j :: 0 <= i < input.Length0 && 0 <= j < input.Length1 ==>
      r.value[i, j] == Clipped(input[i, j], clipVal, topOrBottom == "top")
  {
    if topOrBottom != "top" && topOrBottom != "bottom" {
      return Err(AssertionError("top_or_bottom for clip must be \"top\" or \"bottom\"."));
    }
    var output := Copy(input);
    ClipInPlace(output, clipVal, topOrBottom == "top");
    r := Ok(output);
  }

  /** One pixel after `threshold_clip`: values above `maximum` become it,
      then values below `minimum` become it. */
  function Thresholded(v: int, minimum: int, maximum: int): int
  {
    Clipped(Clipped(v, maximum, true), minimum, false)
  }

  /** With `minimum <= maximum`, a thresholded value lies in
      `[minimum, maximum]`, and a value already there is unchanged. */
  lemma ThresholdBounds(v: int, minimum: int, maximum: int)
    requires minimum <= maximum
    ensures minimum <= Thresholded(v, minimum, maximum) <= maximum
    ensures minimum <= v <= maximum ==> Thresholded(v, minimum, maximum) == v
  {
  }

  // ---------------------------------------------------------------------------
  // get_value_by_pixel_count
  // ---------------------------------------------------------------------------

  predicate Sorted(s: seq<int>)
  {
    forall i, j :: 0 <= i < j < |s| ==> s[i] <= s[j]
  }

  function Insert(x: int, s: seq<int>): seq<int>
  {
    if s == [] then [x]
    else if x <= s[0] then [x] + s
    else [s[0]] + Insert(x, s[1..])
  }

  /** Inserting a value no smaller than `b` into values no smaller than `b`
      keeps every value no smaller than `b`. */
  lemma {:induction false} InsertAbove(x: int, s: seq<int>, b: int)
    requires b <= x && forall k :: 0 <= k < |s| ==> b <= s[k]
    ensures forall k :: 0 <= k < |Insert(x, s)| ==> b <= Insert(x, s)[k]
  {
    if s != [] && x > s[0] {
      InsertAbove(x, s[1..], b);
    }
  }

  lemma {:induction false} InsertPermutes(x: int, s: seq<int>)
    ensures multiset(Insert(x, s)) == multiset(s) + multiset{x}
  {
    if s != [] && x > s[0] {
      InsertPermutes(x, s[1..]);
      assert s == [s[0]] + s[1..];
    }
  }

  lemma {:induction false} InsertSorted(x: int, s: seq<int>)
    requires Sorted(s)
    ensures Sorted(Insert(x, s))
  {
    if s != [] && x > s[0] {
      var rest := Insert(x, s[1..]);
      InsertSorted(x, s[1..]);
      InsertAbove(x, s[1..], s[0]);
      var r := [s[0]] + rest;
      forall i, j | 0 <= i < j < |r| ensures r[i] <= r[j] {
        assert r[j] == rest[j - 1];
        if i > 0 {
          assert r[i] == rest[i - 1];
        }
      }
    }
  }

  /** The flattened image sorted ascending: numpy's `sort`. */
  function Sort(s: seq<int>): seq<int>
  {
    if s == [] then [] else Insert(s[|s| - 1], Sort(s[..|s| - 1]))
  }

  /** `Sort` returns an ascending permutation of its input. */
  lemma {:induction false} SortIsSortedPermutation(s: seq<int>)
    ensures Sorted(Sort(s)) && multiset(Sort(s)) == multiset(s)
  {
    if s != [] {
      SortIsSortedPermutation(s[..|s| - 1]);
      InsertSorted(s[|s| - 1], Sort(s[..|s| - 1]));
      InsertPermutes(s[|s| - 1], Sort(s[..|s| - 1]));
      assert s == s[..|s| - 1] + [s[|s| - 1]];
    }
  }

  /** The pixels of an image in row-major order: numpy's `ravel`. */
  function Ravel(a: array2<int>): (flat: seq<int>)
    reads a
    ensures |flat| == a.Length0 * a.Length1
  {
    RavelRows(a, a.Length0)
  }

  function RavelRows(a: array2<int>, rows: nat): (flat: seq<int>)
    requires rows <= a.Length0
    reads a
    ensures |flat| == rows * a.Length1
  {
    if rows == 0 then []
    else RavelRows(a, rows - 1) + seq(a.Length1, j requires 0 <= j < a.Length1 reads a => a[rows - 1, j])
  }

  /** `get_value_by_pixel_count`: the value at position `n` (top) or `n - 1`
      (bottom, so 0 reads the largest value) of the sorted pixels; a
      position outside the image is an IndexError. */
  method GetValueByPixelCount(a: array2<int>, n: int, topOrBottom: string) returns (r: Result<int>)
    ensures topOrBottom != "top" && topOrBottom != "bottom" ==> r.Err? && r.error.AssertionError?
    ensures topOrBottom == "top" ==> r == Index(Sort(Ravel(a)), n)
    ensures topOrBottom == "bottom" ==> r == Index(Sort(Ravel(a)), n - 1)
  {
    if topOrBottom != "top" && topOrBottom != "bottom" {
      return Err(AssertionError("top_or_bottom for get_value_by_pixel_count must be \"top\" or \"bottom\"."));
    }
    var flat: seq<int> := [];
    var i := 0;
    while i < a.Length0
      invariant 0 <= i <= a.Length0
      invariant flat == RavelRows(a, i)
    {
      var row: seq<int> := [];
      var j := 0;
      while j < a.Length1
        invariant 0 <= j <= a.Length1
        invariant row == seq(j, q requires 0 <= q < j reads a => a[i, q])
      {
        row := row + [a[i, j]];
        j := j + 1;
      }
      flat := flat + row;
      i := i + 1;
    }
    var sorted := Sort(flat);
    if topOrBottom == "top" {
      r := Index(sorted, n);
    } else {
      r := Index(sorted, n - 1);
    }
  }

  /** A value found by pixel count is a pixel of the image, and as many
      pixels lie at or below it as its position says. */
  lemma PixelCountValue(a: array2<int>, pos: int)
    requires Index(Sort(Ravel(a)), pos).Ok?
    ensures var s := Sort(Ravel(a));
      var k := if pos >= 0 then pos else |s| + pos;
      var v := Index(s, pos).value;
      v in multiset(Ravel(a))
      && (forall m :: 0 <= m <= k ==> s[m] <= v)
      && (forall m :: k <= m < |s| ==> v <= s[m])
  {
    SortedValueAt(Ravel(a), pos);
  }

  /** The value at a position of the sorted sequence comes from the input,
      with no larger value before it and no smaller one after it. */
  lemma SortedValueAt(t: seq<int>, pos: int)
    requires Index(Sort(t), pos).Ok?
    ensures var s := Sort(t);
      var k := if pos >= 0 then pos else |s| + pos;
      var v := Index(s, pos).value;
      v in multiset(t)
      && (forall m :: 0 <= m <= k ==> s[m] <= v)
      && (forall m :: k <= m < |s| ==> v <= s[m])
  {
    var s := Sort(t);
    SortIsSortedPermutation(t);
    var k := if pos >= 0 then pos else |s| + pos;
    assert Index(s, pos).value == s[k];
    SortedAround(s, k);
    assert s[k] in multiset(s);
  }

  lemma SortedAround(s: seq<int>, k: int)
    requires Sorted(s) && 0 <= k < |s|
    ensures forall m :: 0 <= m <= k ==> s[m] <= s[k]
    ensures forall m :: k <= m < |s| ==> s[k] <= s[m]
  {
  }

  /** The positions `top_bottom_clip` reads in the sorted pixels of an
      `n`-pixel image: 99% and 1% of the way up. */
  function TopPosition(n: nat): nat { n * 99 / 100 }

  function BottomPosition(n: nat): nat { n / 100 }

  /** Both positions lie inside a non-empty image, the bottom one first. */
  lemma PositionsInside(n: nat)
    requires n > 0
    ensures BottomPosition(n) <= TopPosition(n) < n
  {
    assert n * 99 < n * 100;
  }

  /** So the bottom value never exceeds the top one. */
  lemma TopBottomOrdered(s: seq<int>)
    requires Sorted(s) && |s| > 0
    ensures s[BottomPosition(|s|)] <= s[TopPosition(|s|)]
  {
    PositionsInside(|s|);
  }

  /** `top_bottom_clip`, in place: pixels above the 99% value become it,
      then pixels below the 1% value become it. An empty image is an
      IndexError and is left as it was. */
  method TopBottomClip(a: array2<int>) returns (r: Result<()>)
    modifies a
    ensures r.Ok? <==> a.Length0 * a.Length1 > 0
    ensures r.Err? ==> r.error == IndexError && unchanged(a)
    ensures r.Ok? ==> var s := Sort(old(Ravel(a)));
      forall i, j :: 0 <= i < a.Length0 && 0 <= j < a.Length1 ==>
        a[i, j] == Thresholded(old(a[i, j]), s[BottomPosition(|s|)], s[TopPosition(|s|)])
  {
    ghost var s := Sort(Ravel(a));
    var n := a.Length0 * a.Length1;
    SortIsSortedPermutation(Ravel(a));
    assert |s| == n by {
      assert |multiset(s)| == |multiset(Ravel(a))|;
    }
    if n > 0 {
      PositionsInside(n);
    }
    var top := GetValueByPixelCount(a, TopPosition(n), "top");
    if top.Err? {
      return Err(top.error);
    }
    var bottom := GetValueByPixelCount(a, BottomPosition(n), "top");
    ClipInPlace(a, top.value, true);
    ClipInPlace(a, bottom.value, false);
    r := Ok(());
  }

  // ---------------------------------------------------------------------------
  // make_png_name
  // ---------------------------------------------------------------------------

  /** `make_png_name`: the input's file name without extension, '_', the
      label and `.png`, in the output directory. */
  function MakePngName(path: string, filename: string, ext: string): (r: string)
    ensures '/' !in ext ==>
      PosixPath.Basename(r) == PosixPath.Splitext(PosixPath.Basename(filename)).0 + "_" + ext + ".png"
  {
    var file := PosixPath.Splitext(PosixPath.Basename(filename)).0 + "_" + ext + ".png";
    PngFileIsBasename(path, filename, ext);
    PosixPath.Join(path, file)
  }

  /** A PNG file name made with a slash-free label is the last component of
      the joined path. */
  lemma PngFileIsBasename(path: string, filename: string, ext: string)
    ensures var file := PosixPath.Splitext(PosixPath.Basename(filename)).0 + "_" + ext + ".png";
      '/' !in ext ==> PosixPath.Basename(PosixPath.Join(path, file)) == file
  {
    if '/' !in ext {
      StemHasNoSlash(filename);
      PosixPath.JoinBasename(path, PosixPath.Splitext(PosixPath.Basename(filename)).0 + "_" + ext + ".png");
    }
  }

  /** The stem of a file name has no slash. */
  lemma StemHasNoSlash(filename: string)
    ensures '/' !in PosixPath.Splitext(PosixPath.Basename(filename)).0
  {
    var base := PosixPath.Basename(filename);
    var parts := PosixPath.Splitext(base);
    forall k | 0 <= k < |parts.0| ensures parts.0[k] != '/' {
      assert parts.0[k] == (parts.0 + parts.1)[k];
    }
  }

  /** The label added to the stem ends in neither a dot nor a slash. */
  lemma LabelledStem(stem: string, ext: string)
    requires '/' !in stem && '/' !in ext
    requires ext == [] || ext[|ext| - 1] != '.'
    ensures var q := stem + "_" + ext;
      '/' !in q && q != [] && q[|q| - 1] != '.' && q[|q| - 1] != '/'
  {
    var q := stem + "_" + ext;
    if ext != [] {
      assert q[|q| - 1] == ext[|ext| - 1];
    }
  }

  /** The PNG name is a plain file name in the output directory: splitting
      it gives the directory and the input's stem with the label, and its
      extension is `.png`. */
  lemma PngNameParts(path: string, filename: string, ext: string)
    requires PosixPath.NormalHead(path) && '/' !in ext
    requires ext == [] || ext[|ext| - 1] != '.'
    ensures var stem := PosixPath.Splitext(PosixPath.Basename(filename)).0;
      var name := MakePngName(path, filename, ext);
      PosixPath.Split(name) == (path, stem + "_" + ext + ".png")
      && PosixPath.Splitext(PosixPath.Split(name).1) == (stem + "_" + ext, ".png")
  {
    var stem := PosixPath.Splitext(PosixPath.Basename(filename)).0;
    var file := stem + "_" + ext + ".png";
    assert MakePngName(path, filename, ext) == PosixPath.Join(path, file);
    LabelledFile(stem, ext);
    StemHasNoSlash(filename);
    PosixPath.SplitJoin(path, file);
  }

  /** The labelled stem with `.png` is a plain file name whose extension is
      `.png`. */
  lemma LabelledFile(stem: string, ext: string)
    requires '/' !in ext
    requires ext == [] || ext[|ext| - 1] != '.'
    ensures '/' !in stem ==> '/' !in stem + "_" + ext + ".png"
    ensures '/' !in stem ==> PosixPath.Splitext(stem + "_" + ext + ".png") == (stem + "_" + ext, ".png")
  {
    if '/' !in stem {
      var q := stem + "_" + ext;
      LabelledStem(stem, ext);
      PosixPath.SplitextSuffix(q, ".png");
      assert forall k :: |q| <= k < |q + ".png"| ==> (q + ".png")[k] == ".png"[k - |q|];
    }
  }

  // ---------------------------------------------------------------------------
  // PNGCreator and make_subimage_pngs
  // ---------------------------------------------------------------------------

  /** An image being prepared for writing as a PNG; every operation replaces
      `data` with a new array. */
  class PngCreator {
    var data: array2<int>

    /** A creator over a copy of `source`. */
    constructor(source: array2<int>)
      ensures fresh(data) && data.Length0 == source.Length0 && data.Length1 == source.Length1
      ensures forall i, j :: 0 <= i < source.Length0 && 0 <= j < source.Length1 ==> data[i, j] == source[i, j]
    {
      var copy := Copy(source);
      data := copy;
    }

    /** `bottom_clip`: raise every pixel below the tenth-lowest value to
        it. */
    method BottomClip() returns (r: Result<()>)
      modifies this
      ensures r.Ok? <==> Index(Sort(Ravel(old(data))), 9).Ok?
      ensures r.Err? ==> data == old(data)
      ensures r.Ok? ==> fresh(data) && data.Length0 == old(data.Length0) && data.Length1 == old(data.Length1)
      ensures r.Ok? ==> forall i, j :: 0 <= i < data.Length0 && 0 <= j < data.Length1 ==>
        data[i, j] == Max(old(data[i, j]), Index(Sort(Ravel(old(data))), 9).value)
    {
      var bottom := GetValueByPixelCount(data, 10, "bottom");
      if bottom.Err? {
        return Err(bottom.error);
      }
      var clipped := Clip(data, bottom.value, "bottom");
      data := clipped.value;
      r := Ok(());
    }

    /** `threshold_clip`: pixels above `maximum` become `maximum`, then
        pixels below `minimum` become `minimum`. */
    method ThresholdClip(minimum: int, maximum: int)
      modifies this
      ensures fresh(data) && data.Length0 == old(data.Length0) && data.Length1 == old(data.Length1)
      ensures forall i, j :: 0 <= i < data.Length0 && 0 <= j < data.Length1 ==>
        data[i, j] == Thresholded(old(data[i, j]), minimum, maximum)
    {
      var output := Copy(data);
      ClipInPlace(output, maximum, true);
      ClipInPlace(output, minimum, false);
      data := output;
    }

    /** `trim`: keep the window `[xmin, xmax) x [ymin, ymax)`. */
    method Trim(xmin: int, xmax: int, ymin: int, ymax: int) returns (r: Result<()>)
      modifies this
      ensures r.Ok? <==> SubarrayOk(old(data.Length0), old(data.Length1), xmin, xmax, ymin, ymax)
      ensures r.Err? ==> data == old(data)
      ensures r.Ok? ==> fresh(data)
      ensures r.Ok? ==> data.Length0 == Min(xmax, old(data.Length0)) - Max(xmin, 0)
      ensures r.Ok? ==> data.Length1 == Min(ymax, old(data.Length1)) - Max(ymin, 0)
      ensures r.Ok? ==> forall i, j :: 0 <= i < data.Length0 && 0 <= j < data.Length1 ==>
        data[i, j] == old(data[Max(xmin, 0) + i, Max(ymin, 0) + j])
    {
      var sub := Subarray(data, xmin, xmax, ymin, ymax);
      if sub.Err? {
        return Err(sub.error);
      }
      data := sub.value;
      r := Ok(());
    }
  }

  /** Tile side and tile spacing of the sub-image PNGs. */
  const TileSize: int := 450
  const TileStep: int := 425

  /** A written sub-image: its PNG name, its corner and its pixels. */
  datatype Tile = Tile(name: string, xmin: int, ymin: int, pixels: array2<int>)

  /** The corner of the `k`-th tile (counting from 0): rows advance fastest,
      three per band of columns. */
  function TileCorner(k: nat): (corner: (int, int))
    ensures corner.0 % TileStep == 0 && corner.1 % TileStep == 0
  {
    (TileStep * (k % 3), TileStep * (k / 3))
  }

  /** `pixels` is the 450-pixel window of `src` at `(xmin, ymin)`, cut
      short where the image ends. */
  predicate Window(pixels: array2<int>, src: array2<int>, xmin: nat, ymin: nat)
    reads pixels, src
  {
    pixels.Length0 == Min(xmin + TileSize, src.Length0) - xmin
    && pixels.Length1 == Min(ymin + TileSize, src.Length1) - ymin
    && forall i, j :: 0 <= i < pixels.Length0 && 0 <= j < pixels.Length1 ==>
         pixels[i, j] == src[xmin + i, ymin + j]
  }

  /** Tile `k` is named with `suffix` and the tile number `k + 1`, sits at
      the `k`-th corner and holds the window there. */
  predicate TileFrom(t: Tile, k: nat, src: array2<int>, outputPath: string, filename: string, suffix: string)
    reads t.pixels, src
  {
    t.name == MakePngName(outputPath, filename, suffix + NatToString(k + 1))
    && (t.xmin, t.ymin) == TileCorner(k)
    && t.xmin >= 0 && t.ymin >= 0
    && Window(t.pixels, src, t.xmin, t.ymin)
  }

  predicate TilesFrom(tiles: seq<Tile>, src: array2<int>, outputPath: string, filename: string, suffix: string)
    reads src, set k | 0 <= k < |tiles| :: tiles[k].pixels
  {
    forall k :: 0 <= k < |tiles| ==> TileFrom(tiles[k], k, src, outputPath, filename, suffix)
  }

  /** The loop visits the corners in the order `TileCorner` numbers them. */
  lemma CornerOf(xi: nat, yi: nat)
    requires xi < 3
    ensures TileCorner(3 * yi + xi) == (TileStep * xi, TileStep * yi)
  {
    var k := 3 * yi + xi;
    assert k % 3 == xi && k / 3 == yi;
  }

  lemma TilesFromAppend(tiles: seq<Tile>, t: Tile, src: array2<int>, outputPath: string, filename: string, suffix: string)
    requires TilesFrom(tiles, src, outputPath, filename, suffix)
    requires TileFrom(t, |tiles|, src, outputPath, filename, suffix)
    ensures TilesFrom(tiles + [t], src, outputPath, filename, suffix)
  {
    var all := tiles + [t];
    forall k | 0 <= k < |all|
      ensures TileFrom(all[k], k, src, outputPath, filename, suffix)
    {
      if k < |tiles| {
        assert all[k] == tiles[k];
        assert TileFrom(tiles[k], k, src, outputPath, filename, suffix);
      } else {
        assert all[k] == t;
      }
    }
  }

  /** One pass of the loop of `make_subimage_pngs`: a new creator over the
      image, trimmed to the tile at `(xmin, ymin)`. */
  method CutTile(source: PngCreator, xmin: nat, ymin: nat) returns (r: Result<array2<int>>)
    ensures r.Ok? <==> xmin <= source.data.Length0 && ymin <= source.data.Length1
    ensures r.Ok? ==> fresh(r.value) && Window(r.value, source.data, xmin, ymin)
  {
    var trimmed := new PngCreator(source.data);
    var ok := trimmed.Trim(xmin, xmin + TileSize, ymin, ymin + TileSize);
    SubarrayOkIff(source.data.Length0, source.data.Length1, xmin, xmin + TileSize, ymin, ymin + TileSize);
    if ok.Err? {
      return Err(ok.error);
    }
    r := Ok(trimmed.data);
  }

  /** `make_subimage_pngs`: twelve trimmed copies of the image, at corners
      0, 425 and 850 down the rows and 0, 425, 850 and 1275 across the
      columns, each 450 pixels wide where the image allows. It fails (in
      `subarray`) exactly when the image is too small to reach the last
      corners; the tiles saved before the failing corner are returned with
      the error, since their PNGs are already written. */
  method MakeSubimagePngs(source: PngCreator, outputPath: string, filename: string, suffix: string)
    returns (r: Result<()>, tiles: seq<Tile>)
    ensures r.Ok? <==> 850 <= source.data.Length0 && 1275 <= source.data.Length1
    ensures TilesFrom(tiles, source.data, outputPath, filename, suffix)
    ensures r.Ok? ==> |tiles| == 12
    ensures r.Err? ==>
      && |tiles| < 12
      && (TileCorner(|tiles|).0 > source.data.Length0 || TileCorner(|tiles|).1 > source.data.Length1)
  {
    tiles := [];
    var counter := 0;
    var yi := 0;
    while yi < 4
      invariant 0 <= yi <= 4
      invariant counter == 3 * yi && |tiles| == counter
      invariant TilesFrom(tiles, source.data, outputPath, filename, suffix)
      invariant yi > 0 ==> 850 <= source.data.Length0 && TileStep * (yi - 1) <= source.data.Length1
    {
      var ymin := TileStep * yi;
      var xi := 0;
      while xi < 3
        invariant 0 <= xi <= 3
        invariant counter == 3 * yi + xi && |tiles| == counter
        invariant TilesFrom(tiles, source.data, outputPath, filename, suffix)
        invariant xi > 0 ==> TileStep * (xi - 1) <= source.data.Length0 && ymin <= source.data.Length1
        invariant yi > 0 ==> 850 <= source.data.Length0
      {
        var xmin := TileStep * xi;
        counter := counter + 1;
        var pixels := CutTile(source, xmin, ymin);
        CornerOf(xi, yi);
        if pixels.Err? {
          return Err(pixels.error), tiles;
        }
        var tile := Tile(MakePngName(outputPath, filename, suffix + NatToString(counter)), xmin, ymin, pixels.value);
        assert TileFrom(tile, |tiles|, source.data, outputPath, filename, suffix);
        TilesFromAppend(tiles, tile, source.data, outputPath, filename, suffix);
        tiles := tiles + [tile];
        xi := xi + 1;
      }
      yi := yi + 1;
    }
    r := Ok(());
  }
}
