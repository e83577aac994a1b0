# BOSS spectra reader: discrete core

This project is a Dafny model of the exact, discrete logic in redrock's BOSS
reader, `py/redrock/external/boss.py`. It covers:

- the target-id codec `platemjdfiber2targetid` / `targetid2platemjdfiber`;
- everything in `read_spectra` that does not depend on floating-point
  numerics:
  - the per-plate choice of exposure files (coadded plate, all frames, best
    exposure, random exposure);
  - the collapse of the PLATEID and MJD lists;
  - the camera-dependent crop window, the closest-column crop indices and
    the identical slicing of every per-fiber array;
  - the index structure of the banded resolution array;
  - the grouping of spectra into targets, with the sorted target list and
    the TARGETID / BRICKNAME metadata table.

Modules, leaves first:

- `Common` (common.dfy): the `Result` type and the errors `read_spectra` can
  raise, FITS header values, and the Python string helpers used to build
  file names (`str(n)`, `zfill`, clamped slicing, negative indexing).
- `TargetId` (targetid.dfy): the codec, with its round-trip lemmas.
- `Ordering` (ordering.dfy): Python's ordering on `str`, `sorted(set(...))`
  on exposure ids, and `sorted(...)` on integer ids.
- `ExposureSelector` (selector.dfy): the plate loop. A plate header is a map
  from keyword to value. The directory of the plate file is an input. The
  seeded shuffle is a function of (PLATEID, MJD, seed, candidates), and
  `os.path.isfile` is a predicate on names.
- `PlateCollapse` (collapse.dfy): the `len(set(plate)) == 1` collapse.
- `Crop` (crop.dfy): the window and the closest-pixel indices.
- `Bands` (bands.dfy): the degenerate-width fallback, `ndiag`, the offsets
  and diagonals, and the method that fills the `reso` array band by band.
  Each filled cell records the squared pixel separation and the width the
  Gaussian is evaluated with, not the Gaussian's value.
- `Assembler` (assembler.dfy): the loop over files and fibers, which builds
  `dic_spectra` and `bricknames`, and then the sorted targets, the pruning
  of `bricknames` and the metadata table.
- `Reader` (reader.dfy): `read_spectra` end to end, as a method and as the
  function it is proved equal to.

Each loop in the source is a Dafny method. Its `ensures` ties its result to a
recursive reference function, and the properties of that function are proved
as lemmas.

Behaviour of the code that the model keeps as written:

- Cropping is not idempotent. The slice `[imin:imax]` at boss.py:336-339
  leaves out the column closest to the upper bound, so cropping an already
  cropped grid can drop another column. `Crop.RecropShrinks` gives an
  example.
- In random-exposure mode a plate with candidates but no complete exposure
  is skipped (boss.py:173-198). With `NEXP = 0` the loop at boss.py:173-194
  never runs, so the flag `files_exist` read at boss.py:197 is not assigned
  for that plate. The model does not require `NEXP >= 1`. The flag's value
  from an earlier plate is reused (nothing is appended). With no earlier
  plate the read is a NameError (`Error.UnboundFlag`).
- An allow-listed id with no spectra raises KeyError at boss.py:403
  (`Error.UnknownTarget`). An id listed twice in the allow-list fails the
  `len(bricknames) == len(targets)` assertion at boss.py:433
  (`Error.CountMismatch`).
- The metadata column BRICKNAME has dtype `S8` (boss.py:437), so bricknames
  are cut to eight characters.

A missing header keyword is an error for every keyword the model reads,
except the `NEXP_<C>` lookup of the all-frames branch. There, the model assumes the header lookup raises
the `ValueError` the code catches, so the camera is skipped.

## Model

| member | source | states |
|---|---|---|
| TargetId.Decode | py/redrock/external/boss.py:48-52 | the decoded MJD lies in [0, 100000) and the decoded fiber in [0, 10000) |
| TargetId.DecodeEncode | py/redrock/external/boss.py:44-52 | decoding `Encode(plate, mjd, fiber)` gives (plate, MJD, fiber) back whenever 0 <= MJD < 100000 and 0 <= fiber < 10000, for any plate |
| TargetId.EncodeDecode | py/redrock/external/boss.py:44-52 | every integer is the encoding of its decoded triple |
| TargetId.EncodeInjective | py/redrock/external/boss.py:44-45 | within those digit ranges, `Encode` gives two observations the same id only if they are the same observation |
| ExposureSelector.ExpKeyInjective | py/redrock/external/boss.py:139-140 | distinct exposure numbers are looked up under distinct `EXPIDnn` keywords |
| ExposureSelector.FrameFile | py/redrock/external/boss.py:139-140 | the k-th frame file exists exactly when `EXPID<k>` is a string card, and is named `spCFrame-<first 11 characters>.fits` in the plate's directory |
| ExposureSelector.AllFramesFiles | py/redrock/external/boss.py:127-143 | the camera loop with its running `nexp_tot` counter returns exactly the reference list of frame files, or fails exactly when it does |
| ExposureSelector.AllFramesShape | py/redrock/external/boss.py:130-143 | all-frames mode appends one file per counted exposure, and entry k is the file named by `EXPID<k+1>`, numbered consecutively over cameras b1, r1, b2, r2 |
| ExposureSelector.MissingCameraCountsZero | py/redrock/external/boss.py:131-136 | a camera whose `NEXP_<C>` card is missing adds no file and does not advance the counter, just like a count of zero |
| ExposureSelector.CameraFiles | py/redrock/external/boss.py:149-151 | the four names `spCFrame-<c>-<expid>.fits`, in camera order b1, r1, b2, r2 |
| ExposureSelector.BestExpId | py/redrock/external/boss.py:147-148 | the padded best exposure id exists exactly when the header has `BESTEXP` |
| ExposureSelector.BestExpIdPadded | py/redrock/external/boss.py:147-148 | a BESTEXP in [0, 10^8) is written as exactly eight digits that read back as that number |
| ExposureSelector.BestExposureFiles | py/redrock/external/boss.py:144-151 | best-exposure mode appends the four camera files of `zfill8(BESTEXP)` in camera order, and fails exactly when BESTEXP is missing |
| ExposureSelector.RawExpIds | py/redrock/external/boss.py:164-165 | one sliced id per exposure `EXPID01 .. EXPID<NEXP>` |
| ExposureSelector.RawExpIdsAt | py/redrock/external/boss.py:165 | entry k of the raw list is characters 3 to 10 of the card `EXPID<k+1>` |
| ExposureSelector.CandidatesAre | py/redrock/external/boss.py:157-166 | the candidates that `Candidates` reads from the header are the distinct sliced `EXPIDnn` values, each once (no two positions hold the same id), in increasing order |
| ExposureSelector.FirstComplete | py/redrock/external/boss.py:171-195 | the first position whose four camera files all exist, with every earlier position incomplete, or none when no position is complete |
| ExposureSelector.ChooseExposure | py/redrock/external/boss.py:171-195 | the `while` loop with its `ind` / `exit` / `files_exist` flags appends the four files of the first complete candidate, and nothing otherwise |
| ExposureSelector.Shuffled | py/redrock/external/boss.py:163-168 | the seeded shuffle succeeds exactly when the candidates, PLATEID and MJD can be read and PLATEID, MJD and the user's `--random-seed` all lie in [0, 2**32); a seed outside that range is `Error.BadSeed`, as numpy's `RandomState` raises ValueError |
| ExposureSelector.RandomExposureFiles | py/redrock/external/boss.py:157-199 | the random branch for one plate equals its reference, including the unbound-flag error when there are no candidates and no earlier plate and the seed error of `Shuffled` |
| ExposureSelector.RandomChoice | py/redrock/external/boss.py:157-199 | given any permutation, files are appended exactly when some candidate is complete; the chosen expid is a candidate, is complete, and every candidate shuffled before it is incomplete |
| ExposureSelector.OnlyCompleteCandidateIsChosen | py/redrock/external/boss.py:167-195 | when exactly one candidate is complete, it is chosen whatever the shuffle order |
| ExposureSelector.ModeOf | py/redrock/external/boss.py:127-202 | `use_frames` takes precedence over `use_best_exp`, which takes precedence over `use_random_exp`; coadded mode otherwise |
| ExposureSelector.WithThingIds | py/redrock/external/boss.py:142-143 | every file a plate contributes maps to that plate's THING_ID column; other entries are unchanged |
| ExposureSelector.PlateFiles | py/redrock/external/boss.py:127-206 | the mode dispatch returns the files the chosen branch appends for one plate and `files_exist` after it, or fails exactly when that branch does |
| ExposureSelector.SelectInfiles | py/redrock/external/boss.py:117-209 | the plate loop returns the reference selection (infiles, PLATEIDs, MJDs, THING_ID map) obtained by applying `PlateStep` (one pass of the loop body, boss.py:118-199) to each plate in turn, or fails exactly when that does |
| ExposureSelector.RecordsFrom | py/redrock/external/boss.py:117-121 | whatever files each plate contributes, applying `PlateStep` from plate k on appends every remaining plate's PLATEID and MJD, in input order, and each of those plates has both cards as integers |
| ExposureSelector.PlatesRecorded | py/redrock/external/boss.py:117-121 | whatever files each plate contributes, entry j of the PLATEID and MJD lists is the card of plate file j |
| ExposureSelector.SelectionRecordsPlates | py/redrock/external/boss.py:117-121 | one PLATEID and one MJD are recorded per plate file, in input order |
| ExposureSelector.NamesFrom | py/redrock/external/boss.py:202-203 | when every plate contributes just its own file, the loop appends the plate file names in input order |
| ExposureSelector.CoaddedReadsPlateFiles | py/redrock/external/boss.py:202-203 | in coadded mode `infiles` is exactly the list of plate files |
| Ordering.SortedDistinct | py/redrock/external/boss.py:165-166 | `sorted(set(xs))` is strictly increasing under Python's string order and has the same elements as xs |
| Ordering.SortInts | py/redrock/external/boss.py:396-399 | `sorted(xs)` is sorted and a permutation of xs |
| Ordering.SortIntsKeeps | py/redrock/external/boss.py:396-399 | sorting keeps the length, the elements and the absence of repeats |
| PlateCollapse.CollapseMeaning | py/redrock/external/boss.py:211-218 | `Collapse` returns the shared value of a non-empty list whose entries all agree, and 0 otherwise |
| PlateCollapse.CollapseSingle | py/redrock/external/boss.py:211-212 | a single plate file's value is kept |
| Crop.CropWindow | py/redrock/external/boss.py:244-320 | the window is [3500, 10000) except for frame data without `coadd_frames`, where a camera starting with 'b' gets upper bound 6000 and any other camera gets lower bound 5500; an empty CAMERAS card fails |
| Crop.ColumnMin | py/redrock/external/boss.py:333-334 | the per-column minimum over fibers of the distance to the bound |
| Crop.FirstMin | py/redrock/external/boss.py:333-334 | `argmin` is the first index holding the least value |
| Crop.ClosestColumn | py/redrock/external/boss.py:333-334 | the crop index is the first column minimising, over fibers, the distance to the bound, and fails exactly on an empty array |
| Crop.CropRows | py/redrock/external/boss.py:336-339 | the column slice keeps the number of rows |
| Crop.CropAligned | py/redrock/external/boss.py:336-339 | slicing `la`, `fl`, `iv`, `wd` with the same `[imin:imax]` keeps them aligned: column k is input column imin + k |
| Crop.CropIndices | py/redrock/external/boss.py:333-334 | the indices are the closest columns to lmin and to lmax (`imin`, `imax`); both lie inside the array and exist exactly when it has a fiber and a column |
| Crop.RecropShrinks | py/redrock/external/boss.py:333-339 | cropping an already cropped grid again can shorten it |
| Bands.Substitute | py/redrock/external/boss.py:341-342 | the substitution keeps the shape of the width array |
| Bands.SubstituteMeaning | py/redrock/external/boss.py:341-342 | after the substitution every width is at least 1e-5: measured widths are kept, each degenerate one becomes 2 |
| Bands.MaxWidth | py/redrock/external/boss.py:346 | `wd.max()` bounds every width and is attained, and fails on an empty array |
| Bands.SubstitutedMax | py/redrock/external/boss.py:341-346 | after the substitution the largest width is at least 1e-5 |
| Bands.Ceil | py/redrock/external/boss.py:346 | `ceil(x)` is the least integer not below x |
| Bands.NDiagShape | py/redrock/external/boss.py:346 | `ndiag = 4*ceil(max wd)+1` is odd and at least 5, and each side of the diagonal spans at least twice the largest width |
| Bands.OffsetsSymmetric | py/redrock/external/boss.py:368-381 | the offsets run from ndiag//2 down to -(ndiag//2), symmetric about the main diagonal |
| Bands.DiagonalEntries | py/redrock/external/boss.py:343-370 | the diagonal of `di2` at `offset` has nbins - abs(offset) entries, each equal to offset squared |
| Bands.BuildBands | py/redrock/external/boss.py:367-374 | cell (idiag, j) of `reso` is filled exactly when row j - offset lies in the matrix, with that row's squared separation and the width of column j; every other cell stays unset |
| Bands.BandSlot | py/redrock/external/boss.py:368-374 | writing diagonal idiag at `[:len(d)]` for a negative offset and at `[nbins-len(d):nbins]` otherwise puts in each column exactly the entry diagonal storage means |
| Bands.FillBand | py/redrock/external/boss.py:368-374 | one pass of the band loop fills row idiag with its band entries and leaves every other row unchanged |
| Assembler.MaskIvarMeaning | py/redrock/external/boss.py:239-240 | with the and-mask, a masked pixel gets zero inverse variance and every other pixel keeps its value |
| Assembler.FileLayout | py/redrock/external/boss.py:228-346 | per-file preparation fails exactly on a shape mismatch between the five arrays, a PLATEID mismatch without THING_IDs, an unreadable CAMERAS card or an empty crop; otherwise all cropped arrays keep one row per fiber |
| Assembler.Cropped | py/redrock/external/boss.py:333-346 | wave and flux are the rows sliced to `[imin:imax]`; ivar is the same slice of the ivar, masked by `and_mask` when asked; wdisp is the slice with every width below 1e-5 replaced; all arrays stay aligned; ndiag comes from the largest remaining width and is odd and at least 5 |
| Assembler.BandMatrix | py/redrock/external/boss.py:367-374 | the band array of one fiber has ndiag rows of nbins cells |
| Assembler.Filtered | py/redrock/external/boss.py:232-235 | the `fiberid` filter keeps exactly the fibers in the list, each as many times as it occurs in the file, and all of them when there is no list |
| Assembler.FilteredAppend | py/redrock/external/boss.py:232-235 | the filter keeps file order: filtering a concatenation gives the concatenation of the filtered parts |
| Assembler.RowIndex | py/redrock/external/boss.py:349-352 | fiber f uses row f-1, taken mod 500 (into [0, 500)) in frame modes |
| Assembler.TargetOf | py/redrock/external/boss.py:354-357 | the id is `platemjdfiber2targetid(plate, mjd, f)` without THING_IDs; with them it is the entry at Python index f-1 of the file's THING_ID column (counted from the end when f-1 is negative), and the call fails exactly when that entry is missing |
| Assembler.Contribution | py/redrock/external/boss.py:349-390 | a fiber whose id passes the allow-list contributes (its id and the spectrum in row `f-1`, taken modulo 500 when exposure frames are read, with Python's negative indexing), a fiber whose id does not pass is skipped, and the call fails exactly when the id cannot be read or an allowed fiber's row index is out of range |
| Assembler.ContribsAllowed | py/redrock/external/boss.py:358-359 | every spectrum read belongs to an allow-listed target |
| Assembler.ContribsEncoded | py/redrock/external/boss.py:356-357 | without THING_IDs, every target id decodes to the collapsed plate and MJD |
| Assembler.GroupMeaning | py/redrock/external/boss.py:361-390 | `dic_spectra` has a key exactly for each contributing id; each list holds that id's spectra in reading order and is non-empty; the first-seen order lists each id once |
| Assembler.GroupOf | py/redrock/external/boss.py:361-390 | `dic_spectra` has a key exactly for each contributing id, and each list holds that id's spectra in reading order and is non-empty |
| Assembler.FirstsOf | py/redrock/external/boss.py:361-364 | the order in which `dic_spectra` first sees the ids lists each contributing id exactly once |
| Assembler.AccOfSnoc | py/redrock/external/boss.py:361-364 | a new id gets its brickname once, the first time it is seen; a known id keeps its brickname and its place in the key order |
| Assembler.BrickParts | py/redrock/external/boss.py:363 | the brickname `Brick(plate, mjd)` of non-negative numbers is the two decimal strings around a single '-', and each part reads back as its number |
| Assembler.BrickInjective | py/redrock/external/boss.py:363 | different (plate, MJD) pairs of non-negative numbers get different bricknames |
| Assembler.BandsOf | py/redrock/external/boss.py:367-374 | the filled band array read back as a value is the reference band matrix |
| Assembler.AddFibers | py/redrock/external/boss.py:349-390 | the fiber loop of one file extends the state exactly as its contributions do, or fails exactly when they do |
| Assembler.AddFiber | py/redrock/external/boss.py:354-390 | one fiber leaves the state of the contributions read so far extended by that fiber's contribution (nothing for a filtered fiber), or fails exactly when its contribution does |
| Assembler.Accumulate | py/redrock/external/boss.py:228-390 | the file loop leaves `dic_spectra` and `bricknames` as the grouping of all contributions in infile order, then fiber order |
| Assembler.FinalIds | py/redrock/external/boss.py:396-399 | the final ids are sorted |
| Assembler.Pruned | py/redrock/external/boss.py:430-432 | after the deletions, `bricknames` keeps exactly the keys that are final ids, with their values |
| Assembler.BuildTargets | py/redrock/external/boss.py:401-423 | the target loop returns the reference targets, failing on an id without spectra |
| Assembler.PruneBricks | py/redrock/external/boss.py:430-432 | the `del` loop over the sorted keys leaves exactly the pruned map |
| Assembler.MetaColumn | py/redrock/external/boss.py:435-438 | the BRICKNAME column is the reference column |
| Assembler.Finalize | py/redrock/external/boss.py:396-438 | the post-loop part returns the reference output, or fails exactly when it does |
| Assembler.TargetsAt | py/redrock/external/boss.py:401-410 | the targets exist exactly when every id has spectra, and the k-th target is the k-th id with its spectra and brickname |
| Assembler.MetaAt | py/redrock/external/boss.py:435-438 | the BRICKNAME column exists exactly when every id has a brickname, and holds each one cut to eight characters |
| Assembler.FinishOk | py/redrock/external/boss.py:401-438 | for a well-formed state, targets and table exist exactly when every final id has spectra and no id repeats |
| Assembler.FinishValues | py/redrock/external/boss.py:401-438 | on success the TARGETID column is the final ids, and the k-th target and BRICKNAME row belong to the k-th id |
| Assembler.AccOfWellFormed | py/redrock/external/boss.py:361-390 | after the file loop every list is non-empty, has the plate's brickname, and the key order lists every key once |
| Assembler.FinalizeShape | py/redrock/external/boss.py:396-438 | for a well-formed state, the output exists exactly when every final id has spectra and no id repeats; the k-th target and row then belong to the k-th id |
| Assembler.FinalizeOutcome | py/redrock/external/boss.py:396-438 | targets and TARGETID follow sorted id order; without an allow-list they are the contributing ids once each; with one the call fails exactly when a listed id has no spectra or is listed twice; each target holds its spectra in reading order; bricknames are trimmed to the targets |
| Assembler.FinalIdsOf | py/redrock/external/boss.py:396-399 | without an allow-list the final ids are the contributing ids, once each; with one they are the listed ids with the same multiplicities |
| Assembler.FinalIdsContributed | py/redrock/external/boss.py:396-410 | on success the ids strictly increase, each contributed a spectrum, and the k-th target carries the k-th id |
| Reader.ContextOf | py/redrock/external/boss.py:109-112 | frames are read (boss.py:246 and 351-352) in every mode but the coadded one, and THING_IDs are used exactly when more than one plate file is given |
| Reader.ReadSpectra | py/redrock/external/boss.py:81-444 | `read_spectra` returns the reference output for its inputs, or fails exactly when the reference does |
| Reader.SinglePlateIds | py/redrock/external/boss.py:109-444 | read from one plate file, the ids strictly increase, the k-th target carries the k-th id, and every id encodes the plate's PLATEID and MJD with a fiber number |

## Left out

- FITS reading and writing (`fitsio`, `astropy`, `write_zbest`, lines 55-78). Each header is a map and each file's arrays are a value given to the model.
- Python's `glob` expansion of a pattern argument (lines 104-106). The model takes the list of plate files directly.
- `os.path.isfile` and the `np.random.RandomState` shuffle. Both are function parameters; `ExposureSelector.IsShuffle` states that a shuffle only reorders.
- `os.path.dirname`. The directory of each plate file is an input field (`PlateFile.dir`).
- The wavelength grids `10**(...)` (lines 248, 261, 325) and the whole `coadd_frames` resampling (lines 251-314: `trapz_rebin`, `interp1d`, `centers2edges`). The model takes each file's wavelength array as given, already on the plate grid when `coadd_frames` is set. The `'spline'` branch is buggy (it reuses a stale `w` and zeroes whole rows) and is not modelled even in structure.
- Bands.BuildBands: records which cells are filled and with which separation and width. It does not model the Gaussian values `exp(-d/2/wd**2)` (lines 372-374) or the column renormalisation at line 380, because they are floating-point. So the "each column sums to 1" property is not modelled.
- Assembler.Spectrum: the `sparse.dia_matrix` and the optional cached CSR form (lines 383-388) are library calls, so `cache_Rcsr` is not modelled.
- `Target` construction and its `coadd` processing happen in code that is not part of this model. A target is the id, its list of spectra, the `coadd` switch and the brickname.
- Assembler.FileLayout: the model assumes that the flux, ivar, and_mask, wdisp and wavelength arrays of a file share one rectangle (one row per fiber, one column per pixel), and rejects a file without it (`Error.BadShape`). boss.py:237-248 and 325 never compare their shapes, so Python may slice such a file without error (for instance an ivar of another width when `use_andmask` is off), or fail later with a numpy error. That behaviour is not modelled.
- PLATEID and MJD cards that hold strings: boss.py:120-121 appends the cards without a type check, and in coadded, all-frames and best-exposure mode with several plate files the values only reach the collapse (211-218) and the brickname format (363), so Python succeeds, as it does with one plate file when the `fiberid` filter leaves no fiber to encode. The model reads both cards as integers (`IntCard`), so `ExposureSelector.PlateStep` rejects every such plate with `Error.WrongType`.
- The COEFF0 and COEFF1 cards (boss.py:258-259 and 323-324) are never read, since the wavelength grid is an input. A plate file without them, which Python rejects with a missing-key error in coadded mode (and in frame modes with `coadd_frames`), is read without error by the model.
- Assembler.FileLayout: when a file has several faults, the error it reports may not be the one Python raises first. Only whether the read fails is modelled for such files.
- The `print` / `sys.stdout.flush` diagnostics.
- `rrboss` (lines 447-733): argument parsing, MPI and multiprocessing orchestration, template loading and the redshift fit.
