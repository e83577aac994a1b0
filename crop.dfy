/** The wavelength window each exposure is cut to, the column indices closest
    to its two bounds, and the identical slicing of every per-fiber array. */
module Crop {
  import opened Common

  const DefaultMin: real := 3500.0
  const DefaultMax: real := 10000.0
  /** Upper bound for a blue-camera frame read without coaddition. */
  const BlueMax: real := 6000.0
  /** Lower bound for a red-camera frame read without coaddition. */
  const RedMin: real := 5500.0

  datatype Window = Window(lmin: real, lmax: real)

  /** The window for one exposure file: frame data read without
      `coadd_frames` is cut at 6000 when the file's CAMERAS card starts with
      'b', and at 5500 from below otherwise. */
  function CropWindow(name: string, frameMode: bool, coaddFrames: bool, h: Header): (r: Result<Window>)
    ensures (!frameMode || coaddFrames) ==> r == Ok(Window(DefaultMin, DefaultMax))
    ensures frameMode && !coaddFrames ==>
      (r.Ok? <==> "CAMERAS" in h && h["CAMERAS"].HStr? && |h["CAMERAS"].s| > 0)
    ensures frameMode && !coaddFrames && r.Ok? ==>
      r.value == if h["CAMERAS"].s[0] == 'b' then Window(DefaultMin, BlueMax) else Window(RedMin, DefaultMax)
  {
    if !frameMode || coaddFrames then Ok(Window(DefaultMin, DefaultMax))
    else
      var cameras :- StrCard(h, "CAMERAS");
      if |cameras| == 0 then Err(EmptyCameras(name))
      else if cameras[0] == 'b' then Ok(Window(DefaultMin, BlueMax))
      else Ok(Window(RedMin, DefaultMax))
  }

  function Abs(x: real): real
  {
    if x < 0.0 then -x else x
  }

  /** `abs(la - bound).min(axis=0)[j]` over the first `n` rows. */
  function ColumnMin(la: seq<seq<real>>, j: nat, bound: real, n: nat): (v: real)
    requires 1 <= n <= |la| && forall r :: 0 <= r < n ==> j < |la[r]|
    ensures forall r :: 0 <= r < n ==> v <= Abs(la[r][j] - bound)
    ensures exists r :: 0 <= r < n && v == Abs(la[r][j] - bound)
  {
    if n == 1 then Abs(la[0][j] - bound)
    else
      var before := ColumnMin(la, j, bound, n - 1);
      var here := Abs(la[n - 1][j] - bound);
      if here < before then here else before
  }

  /** numpy `argmin` over the first `n` values: the first index of the least. */
  function FirstMin(vals: seq<real>, n: nat): (k: nat)
    requires 1 <= n <= |vals|
    ensures k < n
    ensures forall j :: 0 <= j < n ==> vals[k] <= vals[j]
    ensures forall j :: 0 <= j < k ==> vals[k] < vals[j]
  {
    if n == 1 then 0
    else
      var k := FirstMin(vals, n - 1);
      if vals[n - 1] < vals[k] then n - 1 else k
  }

  /** `abs(la - bound).min(axis=0).argmin()`: the first column holding, over
      all fibers, the wavelength closest to `bound`. An array with no row or
      no column makes numpy raise. */
  function ClosestColumn(name: string, la: seq<seq<real>>, cols: nat, bound: real): (r: Result<nat>)
    requires Rectangular(la, cols)
    ensures r.Ok? <==> |la| > 0 && cols > 0
    ensures r.Ok? ==> r.value < cols
    ensures r.Ok? ==> forall j :: 0 <= j < cols ==>
      ColumnMin(la, r.value, bound, |la|) <= ColumnMin(la, j, bound, |la|)
    ensures r.Ok? ==> forall j :: 0 <= j < r.value ==>
      ColumnMin(la, r.value, bound, |la|) < ColumnMin(la, j, bound, |la|)
  {
    if |la| == 0 || cols == 0 then Err(EmptyReduction(name))
    else
      var mins := seq(cols, j requires 0 <= j < cols => ColumnMin(la, j, bound, |la|));
      assert forall j :: 0 <= j < cols ==> mins[j] == ColumnMin(la, j, bound, |la|);
      Ok(FirstMin(mins, cols))
  }

  /** `m[:, lo:hi]`: the same column slice taken from every row. */
  function CropRows<T>(m: seq<seq<T>>, lo: nat, hi: nat): (r: seq<seq<T>>)
    ensures |r| == |m|
  {
    seq(|m|, i requires 0 <= i < |m| => Slice(m[i], lo, hi))
  }

  /** Slicing `la`, `fl`, `iv` and `wd` with the same `[imin:imax]` keeps them
      aligned: same shape, `max(0, imax - imin)` columns, and column k of the
      result is column `imin + k` of the input. */
  lemma CropAligned<T>(m: seq<seq<T>>, cols: nat, lo: nat, hi: nat)
    requires Rectangular(m, cols) && lo < cols && hi < cols
    ensures Rectangular(CropRows(m, lo, hi), if lo < hi then hi - lo else 0)
    ensures forall i, k :: 0 <= i < |m| && 0 <= k < |CropRows(m, lo, hi)[i]| ==>
      CropRows(m, lo, hi)[i][k] == m[i][lo + k]
  {
  }

  /** The window and the slice that `read_spectra` applies to one exposure,
      with `la` of `cols` columns. */
  function CropIndices(name: string, la: seq<seq<real>>, cols: nat, w: Window): (r: Result<(nat, nat)>)
    requires Rectangular(la, cols)
    ensures r.Ok? <==> |la| > 0 && cols > 0
    ensures r.Ok? ==> r.value.0 < cols && r.value.1 < cols
    ensures r.Ok? ==> r.value == (ClosestColumn(name, la, cols, w.lmin).value, ClosestColumn(name, la, cols, w.lmax).value)
  {
    if |la| == 0 || cols == 0 then Err(EmptyReduction(name))
    else Ok((ClosestColumn(name, la, cols, w.lmin).value, ClosestColumn(name, la, cols, w.lmax).value))
  }

  function CropWave(name: string, la: seq<seq<real>>, cols: nat, w: Window): Result<seq<seq<real>>>
    requires Rectangular(la, cols)
  {
    var (imin, imax) :- CropIndices(name, la, cols, w);
    Ok(CropRows(la, imin, imax))
  }

  /** Because the slice stops before the column closest to the upper bound,
      cropping an already cropped grid again can shorten it further. */
  lemma RecropShrinks()
    ensures var w := Window(DefaultMin, DefaultMax);
      && CropWave("", [[3000.0, 3500.0, 5000.0, 10000.0, 11000.0]], 5, w) == Ok([[3500.0, 5000.0]])
      && CropWave("", [[3500.0, 5000.0]], 2, w) == Ok([[3500.0]])
  {
    FirstCrop();
    SecondCrop();
  }

  /** The first crop of the example grid keeps columns 1 and 2. */
  lemma FirstCrop()
    ensures CropWave("", [[3000.0, 3500.0, 5000.0, 10000.0, 11000.0]], 5, Window(DefaultMin, DefaultMax)) == Ok([[3500.0, 5000.0]])
  {
    var la := [[3000.0, 3500.0, 5000.0, 10000.0, 11000.0]];
    assert ColumnMin(la, 1, DefaultMin, 1) == 0.0;
    assert ClosestColumn("", la, 5, DefaultMin) == Ok(1);
    assert ColumnMin(la, 3, DefaultMax, 1) == 0.0;
    assert ClosestColumn("", la, 5, DefaultMax) == Ok(3);
    assert Slice(la[0], 1, 3) == [3500.0, 5000.0];
    assert CropRows(la, 1, 3) == [[3500.0, 5000.0]];
  }

  /** Cropping the result again keeps column 0 only. */
  lemma SecondCrop()
    ensures CropWave("", [[3500.0, 5000.0]], 2, Window(DefaultMin, DefaultMax)) == Ok([[3500.0]])
  {
    var la := [[3500.0, 5000.0]];
    assert ColumnMin(la, 0, DefaultMin, 1) == 0.0;
    assert ClosestColumn("", la, 2, DefaultMin) == Ok(0);
    assert ColumnMin(la, 1, DefaultMax, 1) < ColumnMin(la, 0, DefaultMax, 1);
    assert ClosestColumn("", la, 2, DefaultMax) == Ok(1);
    assert Slice(la[0], 0, 1) == [3500.0];
    assert CropRows(la, 0, 1) == [[3500.0]];
  }
}
