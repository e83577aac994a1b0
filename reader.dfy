/** `read_spectra` end to end: the plate loop picks the files to read, the
    PLATEID and MJD lists are collapsed, the files are read fiber by fiber,
    and the targets and the metadata table are built. */
module Reader {
  import opened Common
  import ExposureSelector
  import PlateCollapse
  import Assembler
  import TargetId
  import Ordering

  /** The keyword arguments of `read_spectra` that the model keeps. */
  datatype Options = Options(targetids: Option<seq<int>>, useFrames: bool, fiberid: Option<seq<int>>,
                             coadd: bool, useAndmask: bool, useBestExp: bool, useRandomExp: bool,
                             randomSeed: int, coaddFrames: bool)

  function ModeOf(opts: Options): ExposureSelector.Mode
  {
    ExposureSelector.ModeOf(opts.useFrames, opts.useBestExp, opts.useRandomExp)
  }

  /** The state the file loop starts from: frames are read in every mode but
      the coadded one, THING_IDs are used as soon as more than one plate file
      is given, and the plate and MJD are the collapsed lists. */
  function ContextOf(opts: Options, nPlates: nat, sel: ExposureSelector.Selection): (ctx: Assembler.Context)
    ensures ctx.frameMode <==> opts.useFrames || opts.useBestExp || opts.useRandomExp
    ensures ctx.useThing <==> nPlates > 1
  {
    Assembler.Context(ModeOf(opts) != ExposureSelector.Coadded, opts.coaddFrames, opts.useAndmask, nPlates > 1,
                      PlateCollapse.Collapse(sel.plates), PlateCollapse.Collapse(sel.mjds),
                      opts.fiberid, opts.targetids, sel.thingIds, opts.coadd)
  }

  /** `read_spectra` as a function of its inputs. The random generator, the
      file-existence test and the file contents are parameters. */
  function ReadRef(plates: seq<ExposureSelector.PlateFile>, opts: Options,
                   shuffle: (int, int, int, seq<string>) -> seq<string>, isFile: string -> bool,
                   files: map<string, Assembler.Exposure>): Result<Assembler.Output>
  {
    var sel :- ExposureSelector.SelectRef(plates, ModeOf(opts), opts.randomSeed, shuffle, isFile);
    var ctx := ContextOf(opts, |plates|, sel);
    var cs :- Assembler.AllContribs(sel.infiles, files, ctx);
    Assembler.FinalizeRef(Assembler.AccOf(cs, Assembler.Brick(ctx.plate, ctx.mjd)), opts.targetids, opts.coadd)
  }

  method ReadSpectra(plates: seq<ExposureSelector.PlateFile>, opts: Options,
                     shuffle: (int, int, int, seq<string>) -> seq<string>, isFile: string -> bool,
                     files: map<string, Assembler.Exposure>) returns (r: Result<Assembler.Output>)
    ensures r.Ok? == ReadRef(plates, opts, shuffle, isFile, files).Ok?
    ensures r.Ok? ==> r.value == ReadRef(plates, opts, shuffle, isFile, files).value
  {
    var sel := ExposureSelector.SelectInfiles(plates, ModeOf(opts), opts.randomSeed, shuffle, isFile);
    if sel.Err? {
      return Err(sel.error);
    }
    var ctx := ContextOf(opts, |plates|, sel.value);
    var acc := Assembler.Accumulate(sel.value.infiles, files, ctx);
    if acc.Err? {
      return Err(acc.error);
    }
    ghost var cs := Assembler.AllContribs(sel.value.infiles, files, ctx).value;
    Assembler.AccOfWellFormed(cs, Assembler.Brick(ctx.plate, ctx.mjd));
    r := Assembler.Finalize(acc.value, opts.targetids, opts.coadd);
  }

  /** Read from a single plate file (so without THING_IDs), every target id
      returned, and every row of the metadata table, encodes that plate's
      PLATEID and MJD with one of its fiber numbers, and the ids come out
      in increasing order without repeats. */
  lemma SinglePlateIds(p: ExposureSelector.PlateFile, opts: Options,
                       shuffle: (int, int, int, seq<string>) -> seq<string>, isFile: string -> bool,
                       files: map<string, Assembler.Exposure>)
    requires Assembler.FibersInRange(files)
    requires "MJD" in p.header && p.header["MJD"].HInt? && 0 <= p.header["MJD"].i < 100000
    requires ReadRef([p], opts, shuffle, isFile, files).Ok?
    ensures var out := ReadRef([p], opts, shuffle, isFile, files).value;
      && "PLATEID" in p.header
      && |out.targets| == |out.ids|
      && (forall j :: 0 <= j < |out.ids| ==> out.targets[j].id == out.ids[j])
      && (forall i, j :: 0 <= i < j < |out.ids| ==> out.ids[i] < out.ids[j])
      && forall t :: t in out.ids ==>
           exists f :: 0 <= f < 10000 && t == TargetId.Encode(p.header["PLATEID"].i, p.header["MJD"].i, f)
  {
    var plates := [p];
    var sel := ExposureSelector.SelectRef(plates, ModeOf(opts), opts.randomSeed, shuffle, isFile).value;
    ExposureSelector.SelectionRecordsPlates(plates, ModeOf(opts), opts.randomSeed, shuffle, isFile);
    assert sel.plates == [p.header["PLATEID"].i] && sel.mjds == [p.header["MJD"].i];
    PlateCollapse.CollapseSingle(p.header["PLATEID"].i);
    PlateCollapse.CollapseSingle(p.header["MJD"].i);
    var ctx := ContextOf(opts, 1, sel);
    var cs := Assembler.AllContribs(sel.infiles, files, ctx).value;
    Assembler.ContribsEncoded(sel.infiles, files, ctx);
    var brick := Assembler.Brick(ctx.plate, ctx.mjd);
    Assembler.FinalIdsContributed(cs, brick, opts.targetids, opts.coadd);
    var out := ReadRef(plates, opts, shuffle, isFile, files).value;
    forall t | t in out.ids
      ensures exists f :: 0 <= f < 10000 && t == TargetId.Encode(p.header["PLATEID"].i, p.header["MJD"].i, f)
    {
      var c :| c in cs && c.0 == t;
    }
  }
}
