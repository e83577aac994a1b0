/** The second half of `read_spectra`: every selected exposure file is cut to
    its wavelength window, every fiber that passes the filters becomes a
    spectrum filed under its target id, and the targets and the metadata
    table are built from the ids in sorted order. Floating-point values stay
    symbolic: a spectrum carries its cropped rows and the band layout of its
    resolution matrix, not the normalised matrix itself. */
module Assembler {
  import opened Common
  import TargetId
  import Ordering
  import Crop
  import Bands

  // ---------------------------------------------------------------------
  // One exposure file

  /** The contents of one selected file: primary header, the FIBERID column,
      and the flux, inverse-variance, and-mask, wavelength and dispersion
      arrays with `cols` pixels per fiber (the wavelengths already in
      Angstrom and, with `coadd_frames`, already on the plate grid). */
  datatype Exposure = Exposure(header: Header, fibers: seq<int>, cols: nat,
                               flux: seq<seq<real>>, ivar: seq<seq<real>>, andMask: seq<seq<int>>,
                               wave: seq<seq<real>>, wdisp: seq<seq<real>>)

  /** All arrays of one file have the same number of fibers and pixels. */
  predicate WellShaped(e: Exposure)
  {
    && Rectangular(e.flux, e.cols) && Rectangular(e.ivar, e.cols) && Rectangular(e.andMask, e.cols)
    && Rectangular(e.wave, e.cols) && Rectangular(e.wdisp, e.cols)
    && |e.ivar| == |e.flux| && |e.andMask| == |e.flux| && |e.wave| == |e.flux| && |e.wdisp| == |e.flux|
  }

  /** `iv *= 1.*(andmask == 0)` */
  function MaskIvar(iv: seq<seq<real>>, mask: seq<seq<int>>): (r: seq<seq<real>>)
    requires |mask| == |iv| && forall i :: 0 <= i < |iv| ==> |mask[i]| == |iv[i]|
    ensures |r| == |iv| && forall i :: 0 <= i < |iv| ==> |r[i]| == |iv[i]|
  {
    seq(|iv|, i requires 0 <= i < |iv| =>
      seq(|iv[i]|, j requires 0 <= j < |iv[i]| => if mask[i][j] == 0 then iv[i][j] else 0.0))
  }

  /** A pixel with any and-mask bit set gets zero inverse variance; every
      other pixel keeps its value. */
  lemma MaskIvarMeaning(iv: seq<seq<real>>, mask: seq<seq<int>>, cols: nat, i: nat, j: nat)
    requires Rectangular(iv, cols) && Rectangular(mask, cols) && |mask| == |iv|
    requires i < |iv| && j < cols
    ensures mask[i][j] != 0 ==> MaskIvar(iv, mask)[i][j] == 0.0
    ensures mask[i][j] == 0 ==> MaskIvar(iv, mask)[i][j] == iv[i][j]
  {
  }

  /** The switches and the state of `read_spectra` that the loop over files
      reads: whether frames are read, `coadd_frames`, `use_andmask`,
      `useThingid`, the collapsed plate and MJD, the `fiberid` filter, the
      `targetids` allow-list, `fiberid2thingid` and `coadd`. */
  datatype Context = Context(frameMode: bool, coaddFrames: bool, useAndmask: bool, useThing: bool,
                             plate: int, mjd: int, fiberid: Option<seq<int>>, allow: Option<seq<int>>,
                             things: map<string, seq<int>>, coadd: bool)

  /** The cropped arrays of one file and the number of diagonals of its
      resolution matrices. */
  datatype Layout = Layout(ndiag: nat, wave: seq<seq<real>>, flux: seq<seq<real>>,
                           ivar: seq<seq<real>>, wdisp: seq<seq<real>>)

  predicate Aligned(lay: Layout)
  {
    |lay.flux| == |lay.wave| && |lay.ivar| == |lay.wave| && |lay.wdisp| == |lay.wave|
  }

  /** The window and crop indices of a well-shaped file, when they exist. */
  function Indices(name: string, e: Exposure, ctx: Context): (r: Result<(nat, nat)>)
    requires WellShaped(e)
    ensures r.Ok? ==> |e.flux| > 0 && r.value.0 < e.cols && r.value.1 < e.cols
  {
    var w :- Crop.CropWindow(name, ctx.frameMode, ctx.coaddFrames, e.header);
    Crop.CropIndices(name, e.wave, e.cols, w)
  }

  /** The PLATEID check, made only when THING_IDs are not used. */
  predicate PlateAgrees(e: Exposure, ctx: Context)
  {
    ctx.useThing || ("PLATEID" in e.header && e.header["PLATEID"] == HInt(ctx.plate))
  }

  /** Everything `read_spectra` computes once per file before its fibers:
      the PLATEID check, the window and the crop indices, then the cropped
      arrays. The model takes every HDU array to share one rectangle and
      rejects a file whose arrays do not (`BadShape`); the source never
      compares their shapes. A file fails exactly when its arrays disagree
      in shape, its PLATEID is not the collapsed plate, its CAMERAS card
      cannot be read in frame mode, or nothing is left of it after cropping
      (`wd.max()` of an empty array raises). */
  function FileLayout(name: string, e: Exposure, ctx: Context): (r: Result<Layout>)
    ensures r.Ok? <==> WellShaped(e) && PlateAgrees(e, ctx) && Indices(name, e, ctx).Ok?
                       && Indices(name, e, ctx).value.0 < Indices(name, e, ctx).value.1
    ensures r.Ok? ==> Aligned(r.value) && |r.value.wave| == |e.flux| > 0
  {
    if !WellShaped(e) then Err(BadShape(name))
    else if !ctx.useThing && "PLATEID" !in e.header then Err(MissingKey("PLATEID"))
    else if !ctx.useThing && e.header["PLATEID"] != HInt(ctx.plate) then Err(PlateMismatch(name))
    else
      var (lo, hi) :- Indices(name, e, ctx);
      if hi <= lo then Err(EmptyReduction(name))
      else Ok(Cropped(e, ctx.useAndmask, lo, hi))
  }

  /** The arrays of a file cut to columns `[lo:hi]`, the inverse variance
      masked when `use_andmask` is set, degenerate widths replaced, and
      `ndiag` from the largest width: an odd band count of at least 5, with
      no width below 1e-5 left. */
  function Cropped(e: Exposure, useAndmask: bool, lo: nat, hi: nat): (lay: Layout)
    requires WellShaped(e) && |e.flux| > 0 && lo < hi < e.cols
    ensures Aligned(lay) && |lay.wave| == |e.flux|
    ensures lay.wave == Crop.CropRows(e.wave, lo, hi) && lay.flux == Crop.CropRows(e.flux, lo, hi)
    ensures lay.ivar == Crop.CropRows(if useAndmask then MaskIvar(e.ivar, e.andMask) else e.ivar, lo, hi)
    ensures lay.wdisp == Bands.Substitute(Crop.CropRows(e.wdisp, lo, hi))
    ensures Rectangular(lay.wdisp, hi - lo)
    ensures Bands.MaxWidth("", lay.wdisp, hi - lo).Ok? && lay.ndiag == Bands.NDiag(Bands.MaxWidth("", lay.wdisp, hi - lo).value)
    ensures lay.ndiag >= 5 && lay.ndiag % 2 == 1
    ensures forall i, j :: 0 <= i < |lay.wdisp| && 0 <= j < |lay.wdisp[i]| ==> lay.wdisp[i][j] >= Bands.Degenerate
  {
    var ivar := if useAndmask then MaskIvar(e.ivar, e.andMask) else e.ivar;
    Crop.CropAligned(e.wdisp, e.cols, lo, hi);
    var raw := Crop.CropRows(e.wdisp, lo, hi);
    Bands.SubstitutedMax("", raw, hi - lo);
    var wd := Bands.Substitute(raw);
    var m := Bands.MaxWidth("", wd, hi - lo).value;
    Bands.NDiagShape(m);
    assert forall i, j :: 0 <= i < |wd| && 0 <= j < |wd[i]| ==> wd[i][j] >= Bands.Degenerate by {
      forall i, j | 0 <= i < |wd| && 0 <= j < |wd[i]| ensures wd[i][j] >= Bands.Degenerate {
        Bands.SubstituteMeaning(raw, i, j);
      }
    }
    Layout(Bands.NDiag(m), Crop.CropRows(e.wave, lo, hi), Crop.CropRows(e.flux, lo, hi),
           Crop.CropRows(ivar, lo, hi), wd)
  }

  // ---------------------------------------------------------------------
  // One fiber

  /** What a fiber contributes: the cropped rows of its file and the band
      layout of its resolution matrix. */
  datatype Spectrum = Spectrum(wave: seq<real>, flux: seq<real>, ivar: seq<real>, wdisp: seq<real>,
                               bands: seq<seq<Bands.Kernel>>)

  /** The cells of `reso` for one fiber, row by row. */
  function BandMatrix(wd: seq<real>, ndiag: nat): (r: seq<seq<Bands.Kernel>>)
    ensures |r| == ndiag && forall a :: 0 <= a < ndiag ==> |r[a]| == |wd|
  {
    seq(ndiag, a requires 0 <= a < ndiag =>
      seq(|wd|, j requires 0 <= j < |wd| => Bands.BandEntry(wd, ndiag, a, j)))
  }

  /** `np.in1d(fs, fiberid)`: the fibers in the list, in file order. */
  function Filtered(fs: seq<int>, fiberid: Option<seq<int>>): (r: seq<int>)
    ensures fiberid.None? ==> r == fs
    ensures forall f :: f in r <==> f in fs && (fiberid.None? || f in fiberid.value)
    ensures forall f :: multiset(r)[f] == if fiberid.None? || f in fiberid.value then multiset(fs)[f] else 0
  {
    if fiberid.None? then fs
    else
      KeepMeaning(fs, fiberid.value);
      Keep(fs, fiberid.value)
  }

  /** `fs[np.in1d(fs, l)]`, element by element from the front. */
  function Keep(fs: seq<int>, l: seq<int>): seq<int>
  {
    if fs == [] then [] else (if fs[0] in l then [fs[0]] else []) + Keep(fs[1..], l)
  }

  /** The mask keeps each fiber in the list as often as it occurs, and
      drops every other. */
  lemma {:induction false} KeepMeaning(fs: seq<int>, l: seq<int>)
    ensures forall f :: multiset(Keep(fs, l))[f] == if f in l then multiset(fs)[f] else 0
    ensures forall f :: f in Keep(fs, l) <==> f in fs && f in l
  {
    if fs != [] {
      KeepMeaning(fs[1..], l);
      assert fs == [fs[0]] + fs[1..];
      assert multiset(fs) == multiset{fs[0]} + multiset(fs[1..]);
      forall f ensures f in Keep(fs, l) <==> f in fs && f in l {
        assert f in Keep(fs, l) <==> multiset(Keep(fs, l))[f] > 0;
        assert f in fs <==> multiset(fs)[f] > 0;
      }
    }
  }

  /** The mask keeps file order: filtering a concatenation filters each
      part and concatenates the results. */
  lemma FilteredAppend(a: seq<int>, b: seq<int>, fiberid: Option<seq<int>>)
    ensures Filtered(a + b, fiberid) == Filtered(a, fiberid) + Filtered(b, fiberid)
  {
    if fiberid.Some? {
      KeepAppend(a, b, fiberid.value);
    }
  }

  lemma {:induction false} KeepAppend(a: seq<int>, b: seq<int>, l: seq<int>)
    ensures Keep(a + b, l) == Keep(a, l) + Keep(b, l)
  {
    if a == [] {
      assert a + b == b;
    } else {
      var head := if a[0] in l then [a[0]] else [];
      calc {
        Keep(a + b, l);
      == { assert (a + b)[0] == a[0] && (a + b)[1..] == a[1..] + b; }
        head + Keep(a[1..] + b, l);
      == { KeepAppend(a[1..], b, l); }
        head + (Keep(a[1..], l) + Keep(b, l));
      == { assert head + (Keep(a[1..], l) + Keep(b, l)) == (head + Keep(a[1..], l)) + Keep(b, l); }
        Keep(a, l) + Keep(b, l);
      }
    }
  }

  /** `i = f-1`, taken modulo 500 when frames are read (Python's `%`, which
      agrees with Dafny's for a positive divisor). */
  function RowIndex(f: int, frameMode: bool): (i: int)
    ensures frameMode ==> 0 <= i < 500 && (f - 1 - i) % 500 == 0
    ensures !frameMode ==> i == f - 1
  {
    if frameMode then (f - 1) % 500 else f - 1
  }

  /** The target id of fiber `f`: entry `f-1` of the file's THING_ID column
      (negative positions counting from the end, as numpy does), or the
      encoded plate, MJD and fiber. */
  function TargetOf(name: string, f: int, ctx: Context): (r: Result<int>)
    ensures !ctx.useThing ==> r == Ok(TargetId.Encode(ctx.plate, ctx.mjd, f))
    ensures ctx.useThing ==> (r.Ok? <==> name in ctx.things && -|ctx.things[name]| <= f - 1 < |ctx.things[name]|)
    ensures ctx.useThing && r.Ok? ==>
      var ids := ctx.things[name];
      && PyIndex(|ids|, f - 1).Some?
      && r.value == ids[PyIndex(|ids|, f - 1).value]
      && r.value == (if f - 1 >= 0 then ids[f - 1] else ids[|ids| + f - 1])
  {
    if !ctx.useThing then Ok(TargetId.Encode(ctx.plate, ctx.mjd, f))
    else if name !in ctx.things then Err(MissingThingIds(name))
    else
      var ids := ctx.things[name];
      match PyIndex(|ids|, f - 1)
      case None => Err(ThingIdOutOfRange(name, f))
      case Some(k) => Ok(ids[k])
  }

  /** `targetids is None or t in targetids` */
  predicate Allowed(t: int, allow: Option<seq<int>>)
  {
    allow.None? || t in allow.value
  }

  /** The spectrum read from row `i` of a file's cropped arrays. */
  function SpectrumAt(lay: Layout, i: nat): Spectrum
    requires Aligned(lay) && i < |lay.wave|
  {
    Spectrum(lay.wave[i], lay.flux[i], lay.ivar[i], lay.wdisp[i], BandMatrix(lay.wdisp[i], lay.ndiag))
  }

  /** The body of `for f in fs`: nothing for a fiber whose target is not on
      the allow-list, otherwise its target id and spectrum. The row is only
      looked up once the filter has let the fiber through. */
  function Contribution(name: string, lay: Layout, f: int, ctx: Context): (r: Result<Option<(int, Spectrum)>>)
    requires Aligned(lay)
    ensures r.Ok? && r.value.Some? ==> Allowed(r.value.value.0, ctx.allow)
    ensures r.Ok? && r.value.None? ==> TargetOf(name, f, ctx).Ok? && !Allowed(TargetOf(name, f, ctx).value, ctx.allow)
    ensures r.Ok? && r.value.Some? ==>
      && TargetOf(name, f, ctx).Ok?
      && PyIndex(|lay.wave|, RowIndex(f, ctx.frameMode)).Some?
      && r.value.value == (TargetOf(name, f, ctx).value, SpectrumAt(lay, PyIndex(|lay.wave|, RowIndex(f, ctx.frameMode)).value))
    ensures r.Err? <==>
      || TargetOf(name, f, ctx).Err?
      || (Allowed(TargetOf(name, f, ctx).value, ctx.allow) && PyIndex(|lay.wave|, RowIndex(f, ctx.frameMode)).None?)
  {
    var t :- TargetOf(name, f, ctx);
    if !Allowed(t, ctx.allow) then Ok(None)
    else
      match PyIndex(|lay.wave|, RowIndex(f, ctx.frameMode))
      case None => Err(RowOutOfRange(name, f))
      case Some(i) => Ok(Some((t, SpectrumAt(lay, i))))
  }

  /** The contributions of the first `j` fibers of one file. */
  function FileContribs(name: string, lay: Layout, fs: seq<int>, ctx: Context, j: nat): Result<seq<(int, Spectrum)>>
    requires Aligned(lay) && j <= |fs|
  {
    if j == 0 then Ok([])
    else
      var before :- FileContribs(name, lay, fs, ctx, j - 1);
      var c :- Contribution(name, lay, fs[j - 1], ctx);
      Ok(before + if c.Some? then [c.value] else [])
  }

  /** What one file of `infiles` contributes; a file that cannot be opened
      is an error. */
  function FileStep(name: string, files: map<string, Exposure>, ctx: Context): Result<seq<(int, Spectrum)>>
  {
    if name !in files then Err(MissingFile(name))
    else
      var lay :- FileLayout(name, files[name], ctx);
      var fs := Filtered(files[name].fibers, ctx.fiberid);
      FileContribs(name, lay, fs, ctx, |fs|)
  }

  /** The outcome of every file, in the order of `infiles`. */
  function Steps(infiles: seq<string>, files: map<string, Exposure>, ctx: Context): (r: seq<Result<seq<(int, Spectrum)>>>)
    ensures |r| == |infiles| && forall i :: 0 <= i < |infiles| ==> r[i] == FileStep(infiles[i], files, ctx)
  {
    seq(|infiles|, i requires 0 <= i < |infiles| => FileStep(infiles[i], files, ctx))
  }

  /** The contributions of the first `k` file outcomes, in reading order;
      the first failing file ends the run. */
  function Concat(steps: seq<Result<seq<(int, Spectrum)>>>, k: nat): Result<seq<(int, Spectrum)>>
    requires k <= |steps|
  {
    if k == 0 then Ok([])
    else
      var before :- Concat(steps, k - 1);
      var cs :- steps[k - 1];
      Ok(before + cs)
  }

  /** Every contribution of the files in `infiles`. */
  function AllContribs(infiles: seq<string>, files: map<string, Exposure>, ctx: Context): Result<seq<(int, Spectrum)>>
  {
    Concat(Steps(infiles, files, ctx), |infiles|)
  }

  lemma {:induction false} FileContribsErr(name: string, lay: Layout, fs: seq<int>, ctx: Context, j: nat, k: nat)
    requires Aligned(lay) && j <= k <= |fs| && FileContribs(name, lay, fs, ctx, j).Err?
    ensures FileContribs(name, lay, fs, ctx, k).Err?
    decreases k - j
  {
    if j < k {
      FileContribsErr(name, lay, fs, ctx, j, k - 1);
    }
  }

  lemma {:induction false} ConcatErr(steps: seq<Result<seq<(int, Spectrum)>>>, j: nat, k: nat)
    requires j <= k <= |steps| && Concat(steps, j).Err?
    ensures Concat(steps, k).Err?
    decreases k - j
  {
    if j < k {
      ConcatErr(steps, j, k - 1);
    }
  }

  /** Allowed targets only, in every successful file outcome. */
  predicate OnlyAllowed(cs: seq<(int, Spectrum)>, allow: Option<seq<int>>)
  {
    forall c :: c in cs ==> Allowed(c.0, allow)
  }

  /** A contribution of the whole run comes from one successful file. */
  lemma {:induction false} ConcatMembers(steps: seq<Result<seq<(int, Spectrum)>>>, k: nat)
    requires k <= |steps| && Concat(steps, k).Ok?
    ensures forall c :: c in Concat(steps, k).value ==> exists i :: 0 <= i < k && steps[i].Ok? && c in steps[i].value
  {
    if k > 0 {
      ConcatMembers(steps, k - 1);
      var before := Concat(steps, k - 1).value;
      forall c | c in Concat(steps, k).value
        ensures exists i :: 0 <= i < k && steps[i].Ok? && c in steps[i].value
      {
        if c !in before {
          assert c in steps[k - 1].value;
        }
      }
    }
  }

  lemma {:induction false} FileContribsAllowed(name: string, lay: Layout, fs: seq<int>, ctx: Context, j: nat)
    requires Aligned(lay) && j <= |fs| && FileContribs(name, lay, fs, ctx, j).Ok?
    ensures OnlyAllowed(FileContribs(name, lay, fs, ctx, j).value, ctx.allow)
  {
    if j > 0 {
      FileContribsAllowed(name, lay, fs, ctx, j - 1);
    }
  }

  lemma FileStepAllowed(name: string, files: map<string, Exposure>, ctx: Context)
    requires FileStep(name, files, ctx).Ok?
    ensures OnlyAllowed(FileStep(name, files, ctx).value, ctx.allow)
  {
    var lay := FileLayout(name, files[name], ctx).value;
    var fs := Filtered(files[name].fibers, ctx.fiberid);
    FileContribsAllowed(name, lay, fs, ctx, |fs|);
  }

  /** With an allow-list, every spectrum read belongs to a listed target. */
  lemma ContribsAllowed(infiles: seq<string>, files: map<string, Exposure>, ctx: Context)
    requires AllContribs(infiles, files, ctx).Ok?
    ensures OnlyAllowed(AllContribs(infiles, files, ctx).value, ctx.allow)
  {
    var steps := Steps(infiles, files, ctx);
    ConcatMembers(steps, |infiles|);
    forall c | c in AllContribs(infiles, files, ctx).value ensures Allowed(c.0, ctx.allow) {
      var i :| 0 <= i < |infiles| && steps[i].Ok? && c in steps[i].value;
      FileStepAllowed(infiles[i], files, ctx);
    }
  }

  /** Every fiber number of every file lies in `[0, 10000)`. */
  predicate FibersInRange(files: map<string, Exposure>)
  {
    forall name, f :: name in files && f in files[name].fibers ==> 0 <= f < TargetId.FiberBase
  }

  /** Without THING_IDs, every target id is the plate, MJD and fiber packed
      by `platemjdfiber2targetid`, for a fiber of the file. */
  predicate EncodedIds(cs: seq<(int, Spectrum)>, plate: int, mjd: int)
  {
    forall c :: c in cs ==> exists f :: 0 <= f < TargetId.FiberBase && c.0 == TargetId.Encode(plate, mjd, f)
  }

  lemma {:induction false} FileContribsEncoded(name: string, lay: Layout, fs: seq<int>, ctx: Context, j: nat)
    requires Aligned(lay) && j <= |fs| && FileContribs(name, lay, fs, ctx, j).Ok?
    requires !ctx.useThing && forall f :: f in fs ==> 0 <= f < TargetId.FiberBase
    ensures EncodedIds(FileContribs(name, lay, fs, ctx, j).value, ctx.plate, ctx.mjd)
  {
    if j > 0 {
      FileContribsEncoded(name, lay, fs, ctx, j - 1);
      assert fs[j - 1] in fs;
    }
  }

  /** Read from one plate without THING_IDs, every target id decodes to the
      collapsed plate and MJD and a fiber number in range. */
  lemma ContribsEncoded(infiles: seq<string>, files: map<string, Exposure>, ctx: Context)
    requires AllContribs(infiles, files, ctx).Ok? && !ctx.useThing && FibersInRange(files)
    requires 0 <= ctx.mjd < TargetId.MjdBase
    ensures EncodedIds(AllContribs(infiles, files, ctx).value, ctx.plate, ctx.mjd)
    ensures forall c :: c in AllContribs(infiles, files, ctx).value ==>
      TargetId.Decode(c.0).0 == ctx.plate && TargetId.Decode(c.0).1 == ctx.mjd
  {
    var steps := Steps(infiles, files, ctx);
    ConcatMembers(steps, |infiles|);
    forall c | c in AllContribs(infiles, files, ctx).value
      ensures exists f :: 0 <= f < TargetId.FiberBase && c.0 == TargetId.Encode(ctx.plate, ctx.mjd, f)
      ensures TargetId.Decode(c.0).0 == ctx.plate && TargetId.Decode(c.0).1 == ctx.mjd
    {
      var i :| 0 <= i < |infiles| && steps[i].Ok? && c in steps[i].value;
      var name := infiles[i];
      var lay := FileLayout(name, files[name], ctx).value;
      var fs := Filtered(files[name].fibers, ctx.fiberid);
      FileContribsEncoded(name, lay, fs, ctx, |fs|);
      var f :| 0 <= f < TargetId.FiberBase && c.0 == TargetId.Encode(ctx.plate, ctx.mjd, f);
      TargetId.DecodeEncode(ctx.plate, ctx.mjd, f);
    }
  }

  // ---------------------------------------------------------------------
  // `dic_spectra` as a function of the contributions

  /** `dic_spectra[t].append(spectrum)`, creating the empty list first. */
  function Add(dic: map<int, seq<Spectrum>>, c: (int, Spectrum)): map<int, seq<Spectrum>>
  {
    dic[c.0 := (if c.0 in dic then dic[c.0] else []) + [c.1]]
  }

  function Group(cs: seq<(int, Spectrum)>): map<int, seq<Spectrum>>
  {
    if cs == [] then map[] else Add(Group(cs[..|cs| - 1]), cs[|cs| - 1])
  }

  /** The ids in the order `dic_spectra` first saw them. */
  function Firsts(cs: seq<(int, Spectrum)>): seq<int>
  {
    if cs == [] then []
    else
      var init := Firsts(cs[..|cs| - 1]);
      if cs[|cs| - 1].0 in init then init else init + [cs[|cs| - 1].0]
  }

  /** The spectra contributed to target `t`, in reading order. */
  function Of(cs: seq<(int, Spectrum)>, t: int): seq<Spectrum>
  {
    if cs == [] then []
    else Of(cs[..|cs| - 1], t) + if cs[|cs| - 1].0 == t then [cs[|cs| - 1].1] else []
  }

  /** The ids that occur in the contributions. */
  function Ids(cs: seq<(int, Spectrum)>): set<int>
  {
    set c | c in cs :: c.0
  }

  /** `dic_spectra` files every spectrum under its target, keeps each list in
      reading order, and has a key exactly for the targets that contributed;
      the first-seen order lists those targets once each. */
  lemma GroupMeaning(cs: seq<(int, Spectrum)>)
    ensures Group(cs).Keys == Ids(cs)
    ensures forall t :: t in Group(cs) ==> Group(cs)[t] == Of(cs, t) && |Group(cs)[t]| > 0
    ensures Ordering.Distinct(Firsts(cs))
    ensures forall t :: t in Firsts(cs) <==> t in Ids(cs)
  {
    GroupOf(cs);
    FirstsOf(cs);
  }

  lemma {:induction false} GroupOf(cs: seq<(int, Spectrum)>)
    ensures Group(cs).Keys == Ids(cs)
    ensures forall t :: t in Group(cs) ==> Group(cs)[t] == Of(cs, t) && |Group(cs)[t]| > 0
  {
    if cs != [] {
      var init := cs[..|cs| - 1];
      var c := cs[|cs| - 1];
      GroupOf(init);
      assert cs == init + [c];
      IdsSnoc(init, c);
      forall t | t in Group(cs) ensures Group(cs)[t] == Of(cs, t) {
        if t != c.0 {
          assert Of(cs, t) == Of(init, t);
        } else if t !in Group(init) {
          OfAbsent(init, t);
        }
      }
    }
  }

  lemma {:induction false} FirstsOf(cs: seq<(int, Spectrum)>)
    ensures Ordering.Distinct(Firsts(cs))
    ensures forall t :: t in Firsts(cs) <==> t in Ids(cs)
  {
    if cs != [] {
      var init := cs[..|cs| - 1];
      var c := cs[|cs| - 1];
      FirstsOf(init);
      assert cs == init + [c];
      IdsSnoc(init, c);
      if c.0 !in Firsts(init) {
        Ordering.DistinctSnoc(Firsts(init), c.0);
      }
    }
  }

  lemma IdsSnoc(init: seq<(int, Spectrum)>, c: (int, Spectrum))
    ensures Ids(init + [c]) == Ids(init) + {c.0}
  {
    var cs := init + [c];
    forall t ensures t in Ids(cs) <==> t in Ids(init) + {c.0} {
      if t in Ids(cs) {
        var d :| d in cs && d.0 == t;
        if d != c { assert d in init; }
      }
      if t in Ids(init) {
        var d :| d in init && d.0 == t;
        assert d in cs;
      }
    }
  }

  lemma {:induction false} OfAbsent(cs: seq<(int, Spectrum)>, t: int)
    requires t !in Ids(cs)
    ensures Of(cs, t) == []
  {
    if cs != [] {
      var init := cs[..|cs| - 1];
      assert Ids(init) <= Ids(cs) by {
        forall u | u in Ids(init) ensures u in Ids(cs) {
          var d :| d in init && d.0 == u;
          assert d in cs;
        }
      }
      assert cs[|cs| - 1] in cs;
      OfAbsent(init, t);
    }
  }

  /** The brickname every new target gets: `'{}-{}'.format(plate, mjd)`. */
  function Brick(plate: int, mjd: int): string
  {
    IntStr(plate) + "-" + IntStr(mjd)
  }

  /** For a non-negative plate and MJD the brickname is two digit strings
      around one '-', and each part reads back as the number it came from. */
  lemma BrickParts(plate: nat, mjd: nat)
    ensures var b := Brick(plate, mjd); var k := |IntStr(plate)|;
      && k < |b| && b[k] == '-'
      && (forall i :: 0 <= i < |b| && i != k ==> IsDigit(b[i]))
      && AllDigits(b[..k]) && ParseNat(b[..k]) == plate
      && AllDigits(b[k + 1..]) && ParseNat(b[k + 1..]) == mjd
  {
    var b := Brick(plate, mjd);
    var k := |IntStr(plate)|;
    assert b[..k] == NatStr(plate);
    assert b[k + 1..] == NatStr(mjd);
    ParseNatStr(plate);
    ParseNatStr(mjd);
  }

  /** Different (plate, MJD) pairs give different bricknames. */
  lemma BrickInjective(p1: nat, m1: nat, p2: nat, m2: nat)
    requires Brick(p1, m1) == Brick(p2, m2)
    ensures p1 == p2 && m1 == m2
  {
    BrickParts(p1, m1);
    BrickParts(p2, m2);
    var b := Brick(p1, m1);
    var k1, k2 := |IntStr(p1)|, |IntStr(p2)|;
    if k1 != k2 {
      assert false;
    }
  }

  function BrickMap(keys: set<int>, brick: string): (r: map<int, string>)
    ensures r.Keys == keys && forall t :: t in keys ==> r[t] == brick
  {
    map t | t in keys :: brick
  }

  /** What the loop over files leaves behind: `dic_spectra`, the order in
      which it gained its keys, and `bricknames`. */
  datatype Accumulated = Accumulated(spectra: map<int, seq<Spectrum>>, order: seq<int>, bricks: map<int, string>)

  /** The loop state after the contributions `cs`. */
  function AccOf(cs: seq<(int, Spectrum)>, brick: string): Accumulated
  {
    Accumulated(Group(cs), Firsts(cs), BrickMap(Group(cs).Keys, brick))
  }

  lemma AccOfSnoc(cs: seq<(int, Spectrum)>, c: (int, Spectrum), brick: string)
    ensures var acc := AccOf(cs, brick);
      AccOf(cs + [c], brick) ==
        Accumulated(Add(acc.spectra, c),
                    if c.0 in acc.spectra then acc.order else acc.order + [c.0],
                    if c.0 in acc.spectra then acc.bricks else acc.bricks[c.0 := brick])
  {
    var xs := cs + [c];
    assert xs[..|xs| - 1] == cs;
    GroupMeaning(cs);
    var acc := AccOf(cs, brick);
    assert acc.spectra == Group(cs) && acc.order == Firsts(cs);
    var t := c.0;
    assert t in Ids(cs) <==> t in Group(cs);
    assert t in Firsts(cs) <==> t in Ids(cs);
    assert Group(xs) == Add(acc.spectra, c);
    if c.0 in acc.spectra {
      assert Group(xs).Keys == Group(cs).Keys;
    } else {
      assert Group(xs).Keys == Group(cs).Keys + {c.0};
      assert BrickMap(Group(xs).Keys, brick) == acc.bricks[c.0 := brick];
    }
  }

  /** The row `reso` cells of a freshly built band array, as a value. */
  method BandsOf(wd: seq<real>, ndiag: nat) returns (bands: seq<seq<Bands.Kernel>>)
    ensures bands == BandMatrix(wd, ndiag)
  {
    var reso := Bands.BuildBands(wd, ndiag);
    bands := seq(ndiag, a requires 0 <= a < ndiag reads reso =>
      seq(|wd|, j requires 0 <= j < |wd| reads reso => reso[a, j]));
    assert forall a :: 0 <= a < ndiag ==> bands[a] == BandMatrix(wd, ndiag)[a];
  }

  /** One more fiber whose contribution is known extends the file's list. */
  lemma FileContribsStep(name: string, lay: Layout, fs: seq<int>, ctx: Context, j: nat,
                         before: seq<(int, Spectrum)>, c: Option<(int, Spectrum)>)
    requires Aligned(lay) && j < |fs| && FileContribs(name, lay, fs, ctx, j) == Ok(before)
    requires Contribution(name, lay, fs[j], ctx) == Ok(c)
    ensures FileContribs(name, lay, fs, ctx, j + 1) == Ok(before + if c.Some? then [c.value] else [])
  {
  }

  /** The state updates for one allowed fiber (create the list and the
      brickname of a new target, then append) give the state of the
      contributions with that fiber's added. */
  lemma AccOfStep(cs: seq<(int, Spectrum)>, c: (int, Spectrum), brick: string,
                  dic: map<int, seq<Spectrum>>, order: seq<int>, bricks: map<int, string>)
    requires Accumulated(dic, order, bricks) == AccOf(cs, brick)
    ensures var isNew := c.0 !in dic;
      var dic' := if isNew then dic[c.0 := []] else dic;
      Accumulated(dic'[c.0 := dic'[c.0] + [c.1]],
                  if isNew then order + [c.0] else order,
                  if isNew then bricks[c.0 := brick] else bricks) == AccOf(cs + [c], brick)
  {
    AccOfSnoc(cs, c, brick);
    var dic' := if c.0 !in dic then dic[c.0 := []] else dic;
    assert dic'[c.0 := dic'[c.0] + [c.1]] == Add(dic, c);
  }

  /** The loop over the fibers of one file. */
  method AddFibers(name: string, lay: Layout, fs: seq<int>, ctx: Context, brick: string,
                   acc: Accumulated, ghost cs: seq<(int, Spectrum)>) returns (r: Result<Accumulated>)
    requires Aligned(lay) && acc == AccOf(cs, brick)
    ensures r.Ok? == FileContribs(name, lay, fs, ctx, |fs|).Ok?
    ensures r.Ok? ==> r.value == AccOf(cs + FileContribs(name, lay, fs, ctx, |fs|).value, brick)
  {
    var cur := acc;
    ghost var fileCs: seq<(int, Spectrum)> := [];
    ghost var all := cs;
    for j := 0 to |fs|
      invariant FileContribs(name, lay, fs, ctx, j) == Ok(fileCs)
      invariant all == cs + fileCs
      invariant cur == AccOf(all, brick)
    {
      var next := AddFiber(name, lay, fs[j], ctx, brick, cur, all);
      if next.Err? {
        FileContribsErr(name, lay, fs, ctx, j + 1, |fs|);
        return Err(next.error);
      }
      ghost var c := Contribution(name, lay, fs[j], ctx).value;
      ghost var added := if c.Some? then [c.value] else [];
      FileContribsStep(name, lay, fs, ctx, j, fileCs, c);
      cur := next.value;
      fileCs := fileCs + added;
      all := all + added;
    }
    return Ok(cur);
  }

  /** The body of `for f in fs`: a fiber whose target is not on the
      allow-list is skipped, a new target gets an empty list and its
      brickname, and the fiber's spectrum is appended to its target's list. */
  method AddFiber(name: string, lay: Layout, f: int, ctx: Context, brick: string,
                  acc: Accumulated, ghost cs: seq<(int, Spectrum)>) returns (r: Result<Accumulated>)
    requires Aligned(lay) && acc == AccOf(cs, brick)
    ensures r.Ok? == Contribution(name, lay, f, ctx).Ok?
    ensures r.Ok? ==> var c := Contribution(name, lay, f, ctx).value;
      r.value == AccOf(cs + if c.Some? then [c.value] else [], brick)
  {
    var dic, order, bricks := acc.spectra, acc.order, acc.bricks;
    var t := TargetOf(name, f, ctx);
    if t.Err? {
      return Err(t.error);
    }
    var id := t.value;
    if !Allowed(id, ctx.allow) {
      assert cs + [] == cs;
      return Ok(acc);
    }
    if id !in dic {
      dic := dic[id := []];
      bricks := bricks[id := brick];
      order := order + [id];
    }
    var row := PyIndex(|lay.wave|, RowIndex(f, ctx.frameMode));
    if row.None? {
      return Err(RowOutOfRange(name, f));
    }
    var i := row.value;
    var bands := BandsOf(lay.wdisp[i], lay.ndiag);
    var spectrum := Spectrum(lay.wave[i], lay.flux[i], lay.ivar[i], lay.wdisp[i], bands);
    assert Contribution(name, lay, f, ctx) == Ok(Some((id, spectrum)));
    dic := dic[id := dic[id] + [spectrum]];
    AccOfStep(cs, (id, spectrum), brick, acc.spectra, acc.order, acc.bricks);
    return Ok(Accumulated(dic, order, bricks));
  }

  /** The loop over `infiles`: each file is opened and cropped once, then
      its fibers are read. */
  method Accumulate(infiles: seq<string>, files: map<string, Exposure>, ctx: Context) returns (r: Result<Accumulated>)
    ensures r.Ok? == AllContribs(infiles, files, ctx).Ok?
    ensures r.Ok? ==> r.value == AccOf(AllContribs(infiles, files, ctx).value, Brick(ctx.plate, ctx.mjd))
  {
    ghost var steps := Steps(infiles, files, ctx);
    var brick := Brick(ctx.plate, ctx.mjd);
    var acc := Accumulated(map[], [], map[]);
    ghost var cs: seq<(int, Spectrum)> := [];
    assert AccOf([], brick) == acc;
    for k := 0 to |infiles|
      invariant Concat(steps, k) == Ok(cs)
      invariant acc == AccOf(cs, brick)
    {
      var name := infiles[k];
      if name !in files {
        assert steps[k].Err?;
        ConcatErr(steps, k + 1, |infiles|);
        return Err(MissingFile(name));
      }
      var layout := FileLayout(name, files[name], ctx);
      if layout.Err? {
        assert steps[k].Err?;
        ConcatErr(steps, k + 1, |infiles|);
        return Err(layout.error);
      }
      var fs := Filtered(files[name].fibers, ctx.fiberid);
      var next := AddFibers(name, layout.value, fs, ctx, brick, acc, cs);
      if next.Err? {
        assert steps[k].Err?;
        ConcatErr(steps, k + 1, |infiles|);
        return Err(next.error);
      }
      ghost var fileCs := FileContribs(name, layout.value, fs, ctx, |fs|).value;
      assert steps[k] == Ok(fileCs);
      cs := cs + fileCs;
      acc := next.value;
    }
    return Ok(acc);
  }

  // ---------------------------------------------------------------------
  // Targets and the metadata table

  /** A target: its id, its spectra, the `coadd` switch and its metadata
      (the BRICKNAME, declared as an eight-character string). */
  datatype Target = Target(id: int, spectra: seq<Spectrum>, coadd: bool, brick: string)

  /** The result of `read_spectra`: the targets, and the two columns of the
      metadata table, TARGETID and BRICKNAME. */
  datatype Output = Output(targets: seq<Target>, ids: seq<int>, bricks: seq<string>)

  /** The `S8` column type: a brickname is cut to its first eight characters. */
  const BrickWidth: nat := 8

  /** `sorted(list(dic_spectra.keys()))`, or `sorted(targetids)` when an
      allow-list was given. */
  function FinalIds(acc: Accumulated, allow: Option<seq<int>>): (ids: seq<int>)
    ensures Ordering.Sorted(ids)
  {
    Ordering.SortInts(if allow.None? then acc.order else allow.value)
  }

  /** The targets for the first `n` ids. An id without a list or a
      brickname raises KeyError; an id with an empty list reaches the error
      message at line 423, which names the undefined `brickfiles` and so
      raises NameError. */
  function TargetsUpTo(acc: Accumulated, ids: seq<int>, coadd: bool, n: nat): Result<seq<Target>>
    requires n <= |ids|
  {
    if n == 0 then Ok([])
    else
      var before :- TargetsUpTo(acc, ids, coadd, n - 1);
      var t := ids[n - 1];
      if t !in acc.spectra || t !in acc.bricks then Err(UnknownTarget(t))
      else if |acc.spectra[t]| == 0 then Err(NoGoodSpectra(t))
      else Ok(before + [Target(t, acc.spectra[t], coadd, acc.bricks[t])])
  }

  /** `bricknames` after deleting every key that is not a final id. */
  function Pruned(bricks: map<int, string>, ids: seq<int>): (r: map<int, string>)
    ensures r.Keys == bricks.Keys * Ordering.IntElems(ids)
    ensures forall k :: k in r ==> r[k] == bricks[k]
  {
    map k | k in bricks && k in ids :: bricks[k]
  }

  /** The BRICKNAME column for the first `n` ids. */
  function MetaUpTo(bricks: map<int, string>, ids: seq<int>, n: nat): Result<seq<string>>
    requires n <= |ids|
  {
    if n == 0 then Ok([])
    else
      var before :- MetaUpTo(bricks, ids, n - 1);
      var t := ids[n - 1];
      if t !in bricks then Err(UnknownTarget(t))
      else Ok(before + [Slice(bricks[t], 0, BrickWidth)])
  }

  /** Everything after the loop over files. */
  function FinalizeRef(acc: Accumulated, allow: Option<seq<int>>, coadd: bool): Result<Output>
  {
    Finish(acc, FinalIds(acc, allow), coadd)
  }

  /** The targets, the check on the pruned bricknames and the metadata
      table, for the final ids `ids`. */
  function Finish(acc: Accumulated, ids: seq<int>, coadd: bool): Result<Output>
  {
    var targets :- TargetsUpTo(acc, ids, coadd, |ids|);
    var pruned := Pruned(acc.bricks, ids);
    if |pruned.Keys| != |targets| then Err(CountMismatch)
    else
      var column :- MetaUpTo(pruned, ids, |ids|);
      Ok(Output(targets, ids, column))
  }

  lemma {:induction false} TargetsErr(acc: Accumulated, ids: seq<int>, coadd: bool, j: nat, k: nat)
    requires j <= k <= |ids| && TargetsUpTo(acc, ids, coadd, j).Err?
    ensures TargetsUpTo(acc, ids, coadd, k).Err?
    decreases k - j
  {
    if j < k {
      TargetsErr(acc, ids, coadd, j, k - 1);
    }
  }

  lemma {:induction false} MetaErr(bricks: map<int, string>, ids: seq<int>, j: nat, k: nat)
    requires j <= k <= |ids| && MetaUpTo(bricks, ids, j).Err?
    ensures MetaUpTo(bricks, ids, k).Err?
    decreases k - j
  {
    if j < k {
      MetaErr(bricks, ids, j, k - 1);
    }
  }

  /** `for targetid in targetids`: one target per final id, with the list
      of spectra filed under it. */
  method BuildTargets(acc: Accumulated, ids: seq<int>, coadd: bool) returns (r: Result<seq<Target>>)
    ensures r.Ok? == TargetsUpTo(acc, ids, coadd, |ids|).Ok?
    ensures r.Ok? ==> r.value == TargetsUpTo(acc, ids, coadd, |ids|).value
  {
    var targets: seq<Target> := [];
    for n := 0 to |ids|
      invariant TargetsUpTo(acc, ids, coadd, n) == Ok(targets)
    {
      var t := ids[n];
      if t !in acc.spectra || t !in acc.bricks {
        TargetsErr(acc, ids, coadd, n + 1, |ids|);
        return Err(UnknownTarget(t));
      }
      var spectra := acc.spectra[t];
      if |spectra| == 0 {
        TargetsErr(acc, ids, coadd, n + 1, |ids|);
        return Err(NoGoodSpectra(t));
      }
      targets := targets + [Target(t, spectra, coadd, acc.bricks[t])];
    }
    return Ok(targets);
  }

  /** `for k in keys: if k not in targetids: del bricknames[k]`, where
      `keys` lists the keys of `bricknames`. */
  method PruneBricks(bricks: map<int, string>, keys: seq<int>, ids: seq<int>) returns (pruned: map<int, string>)
    requires bricks.Keys == Ordering.IntElems(keys)
    ensures pruned == Pruned(bricks, ids)
  {
    pruned := bricks;
    for n := 0 to |keys|
      invariant forall k :: k in pruned <==> k in bricks && (k in keys[..n] ==> k in ids)
      invariant forall k :: k in pruned ==> pruned[k] == bricks[k]
    {
      assert keys[..n + 1] == keys[..n] + [keys[n]];
      if keys[n] !in ids {
        pruned := pruned - {keys[n]};
      }
    }
    assert keys[..|keys|] == keys;
    assert forall k :: k in bricks ==> k in keys by {
      forall k | k in bricks ensures k in keys {
        assert k in Ordering.IntElems(keys);
      }
    }
    var want := Pruned(bricks, ids);
    forall k ensures k in pruned <==> k in want {
      assert k in Ordering.IntElems(ids) <==> k in ids;
    }
    assert pruned.Keys == want.Keys;
    assert forall k :: k in pruned ==> pruned[k] == want[k];
  }

  /** `np.array([bricknames[t] for t in targetids], dtype='S8')` */
  method MetaColumn(bricks: map<int, string>, ids: seq<int>) returns (r: Result<seq<string>>)
    ensures r.Ok? == MetaUpTo(bricks, ids, |ids|).Ok?
    ensures r.Ok? ==> r.value == MetaUpTo(bricks, ids, |ids|).value
  {
    var column: seq<string> := [];
    for n := 0 to |ids|
      invariant MetaUpTo(bricks, ids, n) == Ok(column)
    {
      var t := ids[n];
      if t !in bricks {
        MetaErr(bricks, ids, n + 1, |ids|);
        return Err(UnknownTarget(t));
      }
      column := column + [Slice(bricks[t], 0, BrickWidth)];
    }
    return Ok(column);
  }

  /** The last part of `read_spectra`: the targets, `bricknames` pruned to
      the final ids and checked against the number of targets, and the
      metadata table. */
  method Finalize(acc: Accumulated, allow: Option<seq<int>>, coadd: bool) returns (r: Result<Output>)
    requires acc.bricks.Keys == Ordering.IntElems(acc.order)
    ensures r.Ok? == FinalizeRef(acc, allow, coadd).Ok?
    ensures r.Ok? ==> r.value == FinalizeRef(acc, allow, coadd).value
  {
    var ids := FinalIds(acc, allow);
    var targets := BuildTargets(acc, ids, coadd);
    if targets.Err? {
      return Err(targets.error);
    }
    var keys := Ordering.SortInts(acc.order);
    Ordering.SortIntsKeeps(acc.order);
    var bricks := PruneBricks(acc.bricks, keys, ids);
    if |bricks.Keys| != |targets.value| {
      return Err(CountMismatch);
    }
    var column := MetaColumn(bricks, ids);
    if column.Err? {
      return Err(column.error);
    }
    return Ok(Output(targets.value, ids, column.value));
  }

  /** With every list non-empty and a brickname for every key, the targets
      exist exactly when every id has a list, and the k-th target is the
      k-th id with its list and brickname. */
  lemma {:induction false} TargetsAt(acc: Accumulated, ids: seq<int>, coadd: bool, n: nat)
    requires n <= |ids| && acc.bricks.Keys == acc.spectra.Keys
    requires forall t :: t in acc.spectra ==> |acc.spectra[t]| > 0
    ensures TargetsUpTo(acc, ids, coadd, n).Ok? <==> forall j :: 0 <= j < n ==> ids[j] in acc.spectra
    ensures TargetsUpTo(acc, ids, coadd, n).Ok? ==>
      var ts := TargetsUpTo(acc, ids, coadd, n).value;
      && |ts| == n
      && forall j :: 0 <= j < n ==> ts[j] == Target(ids[j], acc.spectra[ids[j]], coadd, acc.bricks[ids[j]])
  {
    if n > 0 {
      TargetsAt(acc, ids, coadd, n - 1);
    }
  }

  /** The BRICKNAME column exists exactly when every id has a brickname, and
      holds each one cut to eight characters. */
  lemma {:induction false} MetaAt(bricks: map<int, string>, ids: seq<int>, n: nat)
    requires n <= |ids|
    ensures MetaUpTo(bricks, ids, n).Ok? <==> forall j :: 0 <= j < n ==> ids[j] in bricks
    ensures MetaUpTo(bricks, ids, n).Ok? ==>
      var col := MetaUpTo(bricks, ids, n).value;
      && |col| == n
      && forall j :: 0 <= j < n ==> col[j] == Slice(bricks[ids[j]], 0, BrickWidth)
  {
    if n > 0 {
      MetaAt(bricks, ids, n - 1);
    }
  }

  /** What the loop over files guarantees about its state: a brickname
      (always the same one) for every list, no empty list, and the key order
      listing every key once. */
  predicate WellFormed(acc: Accumulated, brick: string)
  {
    && acc.bricks.Keys == acc.spectra.Keys
    && (forall t :: t in acc.spectra ==> |acc.spectra[t]| > 0 && acc.bricks[t] == brick)
    && Ordering.IntElems(acc.order) == acc.spectra.Keys
    && Ordering.Distinct(acc.order)
  }

  lemma AccOfWellFormed(cs: seq<(int, Spectrum)>, brick: string)
    ensures WellFormed(AccOf(cs, brick), brick)
  {
    GroupMeaning(cs);
    var acc := AccOf(cs, brick);
    assert Ordering.IntElems(acc.order) == acc.spectra.Keys by {
      forall t ensures t in Ordering.IntElems(acc.order) <==> t in acc.spectra {
        assert t in Ordering.IntElems(acc.order) <==> t in acc.order;
      }
    }
  }

  /** For a well-formed state, the targets and the table exist exactly when
      every id has a list and no id repeats. */
  lemma FinishOk(acc: Accumulated, brick: string, ids: seq<int>, coadd: bool)
    requires WellFormed(acc, brick)
    ensures Finish(acc, ids, coadd).Ok? <==> (forall t :: t in ids ==> t in acc.spectra) && Ordering.Distinct(ids)
  {
    TargetsAt(acc, ids, coadd, |ids|);
    if forall t :: t in ids ==> t in acc.spectra {
      var pruned := Pruned(acc.bricks, ids);
      assert pruned.Keys == Ordering.IntElems(ids);
      Ordering.DistinctCard(ids);
      MetaAt(pruned, ids, |ids|);
    } else {
      var t :| t in ids && t !in acc.spectra;
      var j :| 0 <= j < |ids| && ids[j] == t;
    }
  }

  /** When they exist, the k-th target and row belong to the k-th id. */
  lemma FinishValues(acc: Accumulated, brick: string, ids: seq<int>, coadd: bool)
    requires WellFormed(acc, brick) && Finish(acc, ids, coadd).Ok?
    ensures var out := Finish(acc, ids, coadd).value;
      && out.ids == ids
      && |out.targets| == |ids| && |out.bricks| == |ids|
      && forall j :: 0 <= j < |ids| ==>
           && ids[j] in acc.spectra
           && out.targets[j] == Target(ids[j], acc.spectra[ids[j]], coadd, brick)
           && out.bricks[j] == Slice(brick, 0, BrickWidth)
  {
    TargetsAt(acc, ids, coadd, |ids|);
    var pruned := Pruned(acc.bricks, ids);
    MetaAt(pruned, ids, |ids|);
  }

  /** For a well-formed state and the final ids, the targets and the table
      exist exactly when every final id has a list and no id repeats; then
      the k-th target and row belong to the k-th id. */
  lemma FinalizeShape(acc: Accumulated, brick: string, allow: Option<seq<int>>, coadd: bool)
    requires WellFormed(acc, brick)
    ensures var ids := FinalIds(acc, allow);
      FinalizeRef(acc, allow, coadd).Ok? <==> (forall t :: t in ids ==> t in acc.spectra) && Ordering.Distinct(ids)
    ensures var ids := FinalIds(acc, allow);
      var out := FinalizeRef(acc, allow, coadd);
      out.Ok? ==>
        && out.value.ids == ids
        && |out.value.targets| == |ids| && |out.value.bricks| == |ids|
        && forall j :: 0 <= j < |ids| ==>
             && out.value.targets[j] == Target(ids[j], acc.spectra[ids[j]], coadd, brick)
             && out.value.bricks[j] == Slice(brick, 0, BrickWidth)
  {
    FinishOk(acc, brick, FinalIds(acc, allow), coadd);
    if FinalizeRef(acc, allow, coadd).Ok? {
      FinishValues(acc, brick, FinalIds(acc, allow), coadd);
    }
  }

  /** What `read_spectra` returns for the spectra `cs` read from the files.
      Without an allow-list every target that contributed appears once, in
      increasing id order. With one, the call succeeds exactly when every
      listed id contributed a spectrum and no id is listed twice (a missing
      id raises KeyError, a repeated one fails the `len(bricknames) ==
      len(targets)` assertion); the targets then follow the sorted list. In
      both cases the k-th target and the k-th metadata row belong to the
      k-th id, the target holds every spectrum read for it in reading order,
      and its brickname is the plate's name cut to eight characters. */
  lemma FinalizeOutcome(cs: seq<(int, Spectrum)>, brick: string, allow: Option<seq<int>>, coadd: bool)
    ensures var out := FinalizeRef(AccOf(cs, brick), allow, coadd);
      out.Ok? <==> allow.None? || ((forall t :: t in allow.value ==> t in Ids(cs)) && Ordering.Distinct(allow.value))
    ensures var out := FinalizeRef(AccOf(cs, brick), allow, coadd);
      out.Ok? ==>
        && Ordering.Sorted(out.value.ids)
        && (allow.None? ==> Ordering.IntElems(out.value.ids) == Ids(cs) && Ordering.Distinct(out.value.ids))
        && (allow.Some? ==> multiset(out.value.ids) == multiset(allow.value))
        && |out.value.targets| == |out.value.ids| && |out.value.bricks| == |out.value.ids|
        && forall j :: 0 <= j < |out.value.ids| ==>
             && out.value.targets[j] == Target(out.value.ids[j], Of(cs, out.value.ids[j]), coadd, brick)
             && out.value.bricks[j] == Slice(brick, 0, BrickWidth)
  {
    var acc := AccOf(cs, brick);
    GroupMeaning(cs);
    AccOfWellFormed(cs, brick);
    FinalizeShape(acc, brick, allow, coadd);
    FinalIdsOf(cs, brick, allow);
  }

  /** The final ids hold the same values as the allow-list, or as the ids
      that contributed when there is none. */
  lemma FinalIdsOf(cs: seq<(int, Spectrum)>, brick: string, allow: Option<seq<int>>)
    ensures var ids := FinalIds(AccOf(cs, brick), allow);
      && (allow.None? ==> Ordering.IntElems(ids) == Ids(cs) && Ordering.Distinct(ids))
      && (allow.Some? ==> multiset(ids) == multiset(allow.value))
      && (allow.Some? ==> (Ordering.Distinct(ids) <==> Ordering.Distinct(allow.value)))
      && (allow.None? ==> forall t :: t in ids <==> t in Ids(cs))
      && (allow.Some? ==> forall t :: t in ids <==> t in allow.value)
  {
    var acc := AccOf(cs, brick);
    var src := if allow.None? then acc.order else allow.value;
    var ids := FinalIds(acc, allow);
    assert ids == Ordering.SortInts(src);
    Ordering.SortIntsKeeps(src);
    SameMembers(ids, src);
    if allow.None? {
      GroupMeaning(cs);
      assert Ordering.IntElems(ids) == Ids(cs);
    }
  }

  /** Two lists with the same elements have the same members. */
  lemma SameMembers(a: seq<int>, b: seq<int>)
    requires Ordering.IntElems(a) == Ordering.IntElems(b)
    ensures forall t :: t in a <==> t in b
  {
    forall t ensures t in a <==> t in b {
      assert t in Ordering.IntElems(a) <==> t in a;
      assert t in Ordering.IntElems(b) <==> t in b;
    }
  }

  /** A successful finish returns strictly increasing ids, each of which
      contributed a spectrum, and the k-th target carries the k-th id. */
  lemma FinalIdsContributed(cs: seq<(int, Spectrum)>, brick: string, allow: Option<seq<int>>, coadd: bool)
    requires FinalizeRef(AccOf(cs, brick), allow, coadd).Ok?
    ensures var out := FinalizeRef(AccOf(cs, brick), allow, coadd).value;
      && |out.targets| == |out.ids|
      && (forall j :: 0 <= j < |out.ids| ==> out.targets[j].id == out.ids[j])
      && (forall i, j :: 0 <= i < j < |out.ids| ==> out.ids[i] < out.ids[j])
      && forall t :: t in out.ids ==> t in Ids(cs)
  {
    var acc := AccOf(cs, brick);
    var out := FinalizeRef(acc, allow, coadd).value;
    var ids := FinalIds(acc, allow);
    GroupMeaning(cs);
    AccOfWellFormed(cs, brick);
    FinalizeShape(acc, brick, allow, coadd);
    assert out.ids == ids;
    assert Ordering.Sorted(ids);
    assert Ordering.Distinct(ids);
    forall i, j | 0 <= i < j < |ids| ensures ids[i] < ids[j] {
      assert ids[i] <= ids[j] && ids[i] != ids[j];
    }
    forall t | t in ids ensures t in Ids(cs) {
      assert t in acc.spectra;
    }
  }
}
