/** Which exposure files `read_spectra` reads for each plate file: the plate
    file itself (coadded), every frame listed in the plate header, the four
    camera frames of the best exposure, or the four camera frames of one
    exposure chosen at random among those whose four frames all exist.

    The plate header is a map from keyword to value; the directory of the
    plate file (`os.path.dirname`) is given with it; the seeded shuffle and
    `os.path.isfile` are parameters. */
module ExposureSelector {
  import opened Common
  import Ordering

  /** The four spectrograph arms, in the order every branch walks them. */
  const Cameras: seq<string> := ["b1", "r1", "b2", "r2"]

  function Upper(c: char): char
  {
    if 'a' <= c <= 'z' then (c as int - 32) as char else c
  }

  /** The header keyword holding how many exposures a camera contributed,
      `"NEXP_{}".format(c.upper())`. */
  function NexpKey(camera: string): string
  {
    "NEXP_" + seq(|camera|, k requires 0 <= k < |camera| => Upper(camera[k]))
  }

  /** The header keyword of the k-th exposure, `"EXPID" + str(k).zfill(2)`. */
  function ExpKey(k: nat): string
  {
    "EXPID" + ZFill(NatStr(k), 2)
  }

  /** Distinct exposure numbers are looked up under distinct keywords. */
  lemma ExpKeyInjective(k1: nat, k2: nat)
    requires k1 != k2
    ensures ExpKey(k1) != ExpKey(k2)
  {
    if ExpKey(k1) == ExpKey(k2) {
      assert ZFill(NatStr(k1), 2) == ExpKey(k1)[5..];
      ZFillNatInjective(k1, k2, 2);
    }
  }

  // ---------------------------------------------------------------------
  // All frames

  /** How many exposures camera `c` adds: an absent `NEXP_<C>` keyword
      (the `except ValueError: continue`) and a non-positive count add none. */
  function CameraCount(h: Header, c: string): Result<nat>
  {
    var key := NexpKey(c);
    if key !in h then Ok(0)
    else match h[key]
      case HStr(_) => Err(WrongType(key))
      case HInt(n) => Ok(if n > 0 then n else 0)
  }

  /** The exposures of the first `k` cameras together. */
  function CountUpTo(h: Header, k: nat): Result<nat>
    requires k <= |Cameras|
  {
    if k == 0 then Ok(0)
    else
      var before :- CountUpTo(h, k - 1);
      var here :- CameraCount(h, Cameras[k - 1]);
      Ok(before + here)
  }

  function TotalExposures(h: Header): Result<nat>
  {
    CountUpTo(h, |Cameras|)
  }

  /** The frame file of the k-th exposure: the first eleven characters of its
      `EXPIDnn` card name the file. */
  function FrameFile(dir: string, h: Header, k: nat): (r: Result<string>)
    ensures r.Ok? <==> ExpKey(k) in h && h[ExpKey(k)].HStr?
    ensures r.Ok? ==> r.value == FrameName(dir, h[ExpKey(k)].s)
  {
    var id :- StrCard(h, ExpKey(k));
    Ok(FrameName(dir, id))
  }

  function FrameName(dir: string, expid: string): string
  {
    dir + "/spCFrame-" + Slice(expid, 0, 11) + ".fits"
  }

  /** The frame files of exposures 1 to n, in that order. */
  function FrameFiles(dir: string, h: Header, n: nat): Result<seq<string>>
  {
    if n == 0 then Ok([])
    else
      var before :- FrameFiles(dir, h, n - 1);
      var last :- FrameFile(dir, h, n);
      Ok(before + [last])
  }

  /** What the all-frames branch appends for one plate: one file for each
      exposure counted over all cameras, numbered 1, 2, ... */
  function AllFramesRef(dir: string, h: Header): Result<seq<string>>
  {
    var n :- TotalExposures(h);
    FrameFiles(dir, h, n)
  }

  lemma {:induction false} CountUpToMonotone(h: Header, j: nat, k: nat)
    requires j <= k <= |Cameras|
    ensures CountUpTo(h, j).Err? ==> CountUpTo(h, k).Err?
    ensures CountUpTo(h, k).Ok? ==> CountUpTo(h, j).Ok? && CountUpTo(h, j).value <= CountUpTo(h, k).value
    decreases k - j
  {
    if j < k {
      CountUpToMonotone(h, j, k - 1);
    }
  }

  lemma {:induction false} FrameFilesErr(dir: string, h: Header, n: nat, k: nat)
    requires 1 <= k <= n && FrameFile(dir, h, k).Err?
    ensures FrameFiles(dir, h, n).Err?
  {
    if k < n {
      FrameFilesErr(dir, h, n - 1, k);
    }
  }

  /** Entry k of `files` is the frame named by the card `EXPID<k+1>`. */
  predicate NamedByCard(dir: string, h: Header, files: seq<string>, k: nat)
  {
    && k < |files|
    && ExpKey(k + 1) in h && h[ExpKey(k + 1)].HStr?
    && files[k] == FrameName(dir, h[ExpKey(k + 1)].s)
  }

  /** The all-frames list has one entry per exposure, and entry k is the file
      named by the card `EXPID<k+1>`. */
  lemma {:induction false} FrameFilesAt(dir: string, h: Header, n: nat)
    requires FrameFiles(dir, h, n).Ok?
    ensures |FrameFiles(dir, h, n).value| == n
    ensures forall k :: 0 <= k < n ==> NamedByCard(dir, h, FrameFiles(dir, h, n).value, k)
  {
    if n > 0 {
      FrameFilesAt(dir, h, n - 1);
      var before := FrameFiles(dir, h, n - 1).value;
      var all := FrameFiles(dir, h, n).value;
      assert FrameFile(dir, h, n).Ok?;
      assert all == before + [FrameFile(dir, h, n).value];
      forall k | 0 <= k < n
        ensures NamedByCard(dir, h, all, k)
      {
        if k < n - 1 {
          assert NamedByCard(dir, h, before, k);
          assert all[k] == before[k];
        } else {
          assert k + 1 == n;
          assert all[k] == FrameFile(dir, h, n).value;
        }
      }
    }
  }

  /** All-frames mode appends exactly one `spCFrame-<EXPIDnn[:11]>.fits` per
      counted exposure, keyed `EXPID01`, `EXPID02`, ... in order. */
  lemma AllFramesShape(dir: string, h: Header)
    requires AllFramesRef(dir, h).Ok?
    ensures TotalExposures(h).Ok?
    ensures |AllFramesRef(dir, h).value| == TotalExposures(h).value
    ensures forall k :: 0 <= k < TotalExposures(h).value ==> NamedByCard(dir, h, AllFramesRef(dir, h).value, k)
  {
    FrameFilesAt(dir, h, TotalExposures(h).value);
  }

  /** A camera whose `NEXP_<C>` card is missing behaves exactly like one that
      recorded zero exposures: it adds no file and does not move the counter. */
  lemma MissingCameraCountsZero(dir: string, h: Header, ci: nat)
    requires ci < |Cameras| && NexpKey(Cameras[ci]) !in h
    ensures AllFramesRef(dir, h) == AllFramesRef(dir, h[NexpKey(Cameras[ci]) := HInt(0)])
  {
    var h' := h[NexpKey(Cameras[ci]) := HInt(0)];
    assert forall j :: 0 <= j < |Cameras| ==> CameraCount(h, Cameras[j]) == CameraCount(h', Cameras[j]) by {
      assert NexpKey("b1") == "NEXP_B1" && NexpKey("r1") == "NEXP_R1";
      assert NexpKey("b2") == "NEXP_B2" && NexpKey("r2") == "NEXP_R2";
    }
    SameCounts(h, h', |Cameras|);
    assert forall k :: FrameFile(dir, h, k) == FrameFile(dir, h', k) by {
      forall k ensures FrameFile(dir, h, k) == FrameFile(dir, h', k) {
        assert ExpKey(k)[1] == 'X' && NexpKey(Cameras[ci])[1] == 'E';
      }
    }
    if TotalExposures(h).Ok? {
      SameFrameFiles(dir, h, h', TotalExposures(h).value);
    }
  }

  lemma {:induction false} SameCounts(h: Header, h': Header, k: nat)
    requires k <= |Cameras|
    requires forall j :: 0 <= j < |Cameras| ==> CameraCount(h, Cameras[j]) == CameraCount(h', Cameras[j])
    ensures CountUpTo(h, k) == CountUpTo(h', k)
  {
    if k > 0 { SameCounts(h, h', k - 1); }
  }

  lemma {:induction false} SameFrameFiles(dir: string, h: Header, h': Header, n: nat)
    requires forall k :: FrameFile(dir, h, k) == FrameFile(dir, h', k)
    ensures FrameFiles(dir, h, n) == FrameFiles(dir, h', n)
  {
    if n > 0 { SameFrameFiles(dir, h, h', n - 1); }
  }

  /** A camera whose count cannot be read makes the whole branch fail. */
  lemma CountErrFails(dir: string, h: Header, ci: nat)
    requires ci < |Cameras| && CountUpTo(h, ci).Ok? && CameraCount(h, Cameras[ci]).Err?
    ensures AllFramesRef(dir, h).Err?
  {
    CountUpToMonotone(h, ci + 1, |Cameras|);
  }

  /** A missing frame card among the exposures counted so far makes the whole
      branch fail. */
  lemma FrameErrFails(dir: string, h: Header, ci: nat, n: nat)
    requires ci < |Cameras| && CountUpTo(h, ci + 1).Ok?
    requires 1 <= n <= CountUpTo(h, ci + 1).value && FrameFile(dir, h, n).Err?
    ensures AllFramesRef(dir, h).Err?
  {
    if TotalExposures(h).Ok? {
      CountUpToMonotone(h, ci + 1, |Cameras|);
      FrameFilesErr(dir, h, TotalExposures(h).value, n);
    }
  }

  /** One more camera adds its count to the running total. */
  lemma CountStep(h: Header, ci: nat, total: nat, here: nat)
    requires ci < |Cameras| && CountUpTo(h, ci) == Ok(total) && CameraCount(h, Cameras[ci]) == Ok(here)
    ensures CountUpTo(h, ci + 1) == Ok(total + here)
  {
  }

  /** One more readable frame card extends the list by its file. */
  lemma FrameFilesStep(dir: string, h: Header, n: nat, files: seq<string>, file: string)
    requires FrameFiles(dir, h, n) == Ok(files) && FrameFile(dir, h, n + 1) == Ok(file)
    ensures FrameFiles(dir, h, n + 1) == Ok(files + [file])
  {
  }

  /** The all-frames branch (the `use_frames` loop): walks the cameras in
      order with a running exposure counter and collects the frame files. */
  method AllFramesFiles(dir: string, h: Header) returns (r: Result<seq<string>>)
    ensures r.Ok? == AllFramesRef(dir, h).Ok?
    ensures r.Ok? ==> r.value == AllFramesRef(dir, h).value
  {
    var files: seq<string> := [];
    var total: nat := 0;
    for ci := 0 to |Cameras|
      invariant CountUpTo(h, ci) == Ok(total)
      invariant FrameFiles(dir, h, total) == Ok(files)
    {
      var key := NexpKey(Cameras[ci]);
      if key !in h {
        CountStep(h, ci, total, 0);
        continue;
      }
      if h[key].HStr? {
        CountErrFails(dir, h, ci);
        return Err(WrongType(key));
      }
      var nexp := h[key].i;
      ghost var here := if nexp > 0 then nexp else 0;
      CountStep(h, ci, total, here);
      var i := 1;
      while i <= nexp
        invariant 1 <= i <= here + 1
        invariant total == CountUpTo(h, ci).value + (i - 1)
        invariant FrameFiles(dir, h, total) == Ok(files)
      {
        total := total + 1;
        var file := FrameFile(dir, h, total);
        if file.Err? {
          FrameErrFails(dir, h, ci, total);
          return Err(file.error);
        }
        FrameFilesStep(dir, h, total - 1, files, file.value);
        files := files + [file.value];
        i := i + 1;
      }
      assert total == CountUpTo(h, ci + 1).value;
    }
    r := Ok(files);
  }

  // ---------------------------------------------------------------------
  // Best exposure and random exposure: four camera files of one exposure id

  /** `path + "/spCFrame-" + c + '-' + expid + ".fits"` */
  function CameraFile(dir: string, camera: string, expid: string): string
  {
    dir + "/spCFrame-" + camera + "-" + expid + ".fits"
  }

  /** The four camera files of one exposure, in camera order. */
  function CameraFiles(dir: string, expid: string): (r: seq<string>)
    ensures |r| == |Cameras|
    ensures forall k :: 0 <= k < |Cameras| ==> r[k] == CameraFile(dir, Cameras[k], expid)
  {
    seq(|Cameras|, k requires 0 <= k < |Cameras| => CameraFile(dir, Cameras[k], expid))
  }

  /** `str(BESTEXP).zfill(8)` */
  function BestExpId(h: Header): (r: Result<string>)
    ensures r.Ok? <==> "BESTEXP" in h
  {
    if "BESTEXP" !in h then Err(MissingKey("BESTEXP"))
    else match h["BESTEXP"]
      case HInt(n) => Ok(ZFill(IntStr(n), 8))
      case HStr(s) => Ok(ZFill(s, 8))
  }

  /** A best exposure between 0 and 99999999 is written as exactly eight
      digits that read back as that exposure number. */
  lemma BestExpIdPadded(h: Header, n: nat)
    requires "BESTEXP" in h && h["BESTEXP"] == HInt(n) && n < 100000000
    ensures var id := BestExpId(h).value; |id| == 8 && AllDigits(id) && ParseNat(id) == n
  {
    assert Pow10(8) == 100000000;
    NatStrLength(n, 8);
    ZFillNat(n, 8);
  }

  /** The best-exposure branch: the four camera frames of `BESTEXP`. */
  method BestExposureFiles(dir: string, h: Header) returns (r: Result<seq<string>>)
    ensures r.Ok? <==> "BESTEXP" in h
    ensures r.Ok? ==> r.value == CameraFiles(dir, BestExpId(h).value)
  {
    var id := BestExpId(h);
    if id.Err? {
      return Err(id.error);
    }
    var expid := id.value;
    var files: seq<string> := [];
    for ci := 0 to |Cameras|
      invariant files == CameraFiles(dir, expid)[..ci]
    {
      files := files + [CameraFile(dir, Cameras[ci], expid)];
    }
    r := Ok(files);
  }

  /** The candidate ids before deduplication: characters 3 to 10 of the cards
      `EXPID01` .. `EXPID<n>`. */
  function RawExpIds(h: Header, n: nat): (r: Result<seq<string>>)
    ensures r.Ok? ==> |r.value| == n
  {
    if n == 0 then Ok([])
    else
      var before :- RawExpIds(h, n - 1);
      var card :- StrCard(h, ExpKey(n));
      Ok(before + [Slice(card, 3, 11)])
  }

  /** Entry k of `ids` is characters 3 to 10 of the card `EXPID<k+1>`. */
  predicate SlicedFromCard(h: Header, ids: seq<string>, k: nat)
  {
    && k < |ids|
    && ExpKey(k + 1) in h && h[ExpKey(k + 1)].HStr?
    && ids[k] == Slice(h[ExpKey(k + 1)].s, 3, 11)
  }

  lemma {:induction false} RawExpIdsAt(h: Header, n: nat)
    requires RawExpIds(h, n).Ok?
    ensures forall k :: 0 <= k < n ==> SlicedFromCard(h, RawExpIds(h, n).value, k)
  {
    if n > 0 {
      RawExpIdsAt(h, n - 1);
      var before := RawExpIds(h, n - 1).value;
      var all := RawExpIds(h, n).value;
      assert StrCard(h, ExpKey(n)).Ok?;
      assert all == before + [Slice(StrCard(h, ExpKey(n)).value, 3, 11)];
      forall k | 0 <= k < n
        ensures SlicedFromCard(h, all, k)
      {
        if k < n - 1 {
          assert SlicedFromCard(h, before, k);
          assert all[k] == before[k];
        } else {
          assert k + 1 == n;
        }
      }
    }
  }

  /** `sorted(set(EXPIDnn[3:11] for nn in 1..NEXP))`, before the shuffle. */
  function Candidates(h: Header): (r: Result<seq<string>>)
  {
    var nexp :- IntCard(h, "NEXP");
    var raw :- RawExpIds(h, if nexp > 0 then nexp else 0);
    Ok(Ordering.SortedDistinct(raw))
  }

  /** All four camera frames of the exposure exist on disk. */
  predicate Complete(dir: string, expid: string, isFile: string -> bool)
  {
    forall k :: 0 <= k < |Cameras| ==> isFile(CameraFile(dir, Cameras[k], expid))
  }

  /** The first position at or after `i` whose exposure is complete. */
  function FirstComplete(dir: string, order: seq<string>, isFile: string -> bool, i: nat): (r: Option<nat>)
    requires i <= |order|
    ensures r.Some? ==> i <= r.value < |order| && Complete(dir, order[r.value], isFile)
    ensures r.Some? ==> forall j :: i <= j < r.value ==> !Complete(dir, order[j], isFile)
    ensures r.None? ==> forall j :: i <= j < |order| ==> !Complete(dir, order[j], isFile)
    decreases |order| - i
  {
    if i == |order| then None
    else if Complete(dir, order[i], isFile) then Some(i)
    else FirstComplete(dir, order, isFile, i + 1)
  }

  /** What the `while` loop of the random branch leaves behind: the files it
      appended, and the value of `files_exist` afterwards (`None` while it has
      never been assigned). An empty candidate list leaves `files_exist` as it
      was after the previous plate. */
  function ChooseRef(dir: string, order: seq<string>, isFile: string -> bool, flag: Option<bool>): (seq<string>, Option<bool>)
  {
    match FirstComplete(dir, order, isFile, 0)
    case Some(k) => (CameraFiles(dir, order[k]), Some(true))
    case None => ([], if order == [] then flag else Some(false))
  }

  /** The `while (ind<len(expids)) and (not exit)` loop. */
  method ChooseExposure(dir: string, order: seq<string>, isFile: string -> bool, flag: Option<bool>)
    returns (added: seq<string>, filesExist: Option<bool>)
    ensures (added, filesExist) == ChooseRef(dir, order, isFile, flag)
  {
    added := [];
    filesExist := flag;
    var ind := 0;
    var exit := false;
    while ind < |order| && !exit
      invariant 0 <= ind <= |order|
      invariant !exit ==> added == [] && forall j :: 0 <= j < ind ==> !Complete(dir, order[j], isFile)
      invariant exit ==> 1 <= ind && Complete(dir, order[ind - 1], isFile)
      invariant exit ==> (forall j :: 0 <= j < ind - 1 ==> !Complete(dir, order[j], isFile))
      invariant exit ==> added == CameraFiles(dir, order[ind - 1])
      invariant ind == 0 ==> filesExist == flag
      invariant ind > 0 ==> filesExist == Some(exit)
      decreases |order| - ind
    {
      var expid := order[ind];
      ind := ind + 1;
      var ok := true;
      for ci := 0 to |Cameras|
        invariant ok == forall k :: 0 <= k < ci ==> isFile(CameraFile(dir, Cameras[k], expid))
      {
        ok := ok && isFile(CameraFile(dir, Cameras[ci], expid));
      }
      filesExist := Some(ok);
      if ok {
        for ci := 0 to |Cameras|
          invariant added == CameraFiles(dir, expid)[..ci]
        {
          added := added + [CameraFile(dir, Cameras[ci], expid)];
        }
        exit := true;
      }
    }
    FirstCompleteIs(dir, order, isFile, if exit then ind - 1 else |order|);
  }

  /** Pins down `FirstComplete` from what the loop above establishes. */
  lemma {:induction false} FirstCompleteIs(dir: string, order: seq<string>, isFile: string -> bool, k: nat)
    requires k <= |order|
    requires forall j :: 0 <= j < k ==> !Complete(dir, order[j], isFile)
    requires k < |order| ==> Complete(dir, order[k], isFile)
    ensures FirstComplete(dir, order, isFile, 0) == if k < |order| then Some(k) else None
  {
    var r := FirstComplete(dir, order, isFile, 0);
    if r.Some? {
      assert r.value >= k;
      if k < |order| { assert r.value <= k; }
    }
  }

  /** The candidate list holds each distinct sliced `EXPIDnn` card once, in
      increasing order. */
  lemma CandidatesAre(h: Header)
    requires Candidates(h).Ok?
    ensures var nexp := IntCard(h, "NEXP").value;
      var raw := RawExpIds(h, if nexp > 0 then nexp else 0).value;
      && Ordering.StrictlySorted(Candidates(h).value)
      && Ordering.Elems(Candidates(h).value) == Ordering.Elems(raw)
      && forall k :: 0 <= k < |raw| ==> SlicedFromCard(h, raw, k)
    ensures var c := Candidates(h).value;
      forall i, j :: 0 <= i < |c| && 0 <= j < |c| && i != j ==> c[i] != c[j]
  {
    var nexp := IntCard(h, "NEXP").value;
    RawExpIdsAt(h, if nexp > 0 then nexp else 0);
    var c := Candidates(h).value;
    forall i, j | 0 <= i < |c| && 0 <= j < |c| && i != j
      ensures c[i] != c[j]
    {
      Ordering.StrictlySortedDistinct(c, i, j);
    }
  }

  /** numpy accepts a seed array only when every element is an unsigned
      32-bit integer; anything else raises ValueError. */
  predicate SeedWord(x: int) { 0 <= x < 0x1_0000_0000 }

  /** `gen = np.random.RandomState(seed=[PLATEID, MJD, random_seed])` followed
      by `gen.shuffle(expids)`. */
  function Shuffled(h: Header, seed: int, shuffle: (int, int, int, seq<string>) -> seq<string>): (r: Result<seq<string>>)
    ensures r.Ok? <==>
      && Candidates(h).Ok? && IntCard(h, "PLATEID").Ok? && IntCard(h, "MJD").Ok?
      && SeedWord(IntCard(h, "PLATEID").value) && SeedWord(IntCard(h, "MJD").value) && SeedWord(seed)
    ensures Candidates(h).Ok? && IntCard(h, "PLATEID").Ok? && IntCard(h, "MJD").Ok? && !SeedWord(seed) ==>
      r == Err(BadSeed)
  {
    var cands :- Candidates(h);
    var plate :- IntCard(h, "PLATEID");
    var mjd :- IntCard(h, "MJD");
    if !(SeedWord(plate) && SeedWord(mjd) && SeedWord(seed)) then Err(BadSeed)
    else Ok(shuffle(plate, mjd, seed, cands))
  }

  /** A shuffle only reorders its list. */
  ghost predicate IsShuffle(shuffle: (int, int, int, seq<string>) -> seq<string>)
  {
    forall p, m, s, xs :: multiset(shuffle(p, m, s, xs)) == multiset(xs)
  }

  /** What the random branch leaves behind for one plate; reading the
      never-assigned `files_exist` is a NameError. */
  function RandomRef(dir: string, h: Header, seed: int, shuffle: (int, int, int, seq<string>) -> seq<string>,
                     isFile: string -> bool, flag: Option<bool>): Result<(seq<string>, Option<bool>)>
  {
    var order :- Shuffled(h, seed, shuffle);
    var chosen := ChooseRef(dir, order, isFile, flag);
    if chosen.1.None? then Err(UnboundFlag) else Ok(chosen)
  }

  /** The random-exposure branch for one plate. */
  method RandomExposureFiles(dir: string, h: Header, seed: int, shuffle: (int, int, int, seq<string>) -> seq<string>,
                             isFile: string -> bool, flag: Option<bool>)
    returns (r: Result<(seq<string>, Option<bool>)>)
    ensures r == RandomRef(dir, h, seed, shuffle, isFile, flag)
  {
    var cands := Candidates(h);
    if cands.Err? {
      return Err(cands.error);
    }
    var plate := IntCard(h, "PLATEID");
    if plate.Err? {
      return Err(plate.error);
    }
    var mjd := IntCard(h, "MJD");
    if mjd.Err? {
      return Err(mjd.error);
    }
    if !(SeedWord(plate.value) && SeedWord(mjd.value) && SeedWord(seed)) {
      return Err(BadSeed);
    }
    var order := shuffle(plate.value, mjd.value, seed, cands.value);
    var added, filesExist := ChooseExposure(dir, order, isFile, flag);
    if filesExist.None? {
      return Err(UnboundFlag);
    }
    r := Ok((added, filesExist));
  }

  /** The random branch appends the four camera files of the first complete
      exposure in shuffled order, and only when one exists: that exposure is
      one of the candidates, all four of its frames exist, and every exposure
      shuffled before it lacks a frame. With no complete candidate it appends
      nothing. */
  lemma RandomChoice(dir: string, h: Header, seed: int, shuffle: (int, int, int, seq<string>) -> seq<string>,
                     isFile: string -> bool, flag: Option<bool>)
    requires IsShuffle(shuffle)
    requires RandomRef(dir, h, seed, shuffle, isFile, flag).Ok?
    ensures var added := RandomRef(dir, h, seed, shuffle, isFile, flag).value.0;
      var order := Shuffled(h, seed, shuffle).value;
      && multiset(order) == multiset(Candidates(h).value)
      && (added != [] <==> exists e :: e in Candidates(h).value && Complete(dir, e, isFile))
      && (added != [] ==>
            exists k :: (0 <= k < |order| && added == CameraFiles(dir, order[k]) &&
                         Complete(dir, order[k], isFile) && order[k] in Candidates(h).value &&
                         forall j :: 0 <= j < k ==> !Complete(dir, order[j], isFile)))
  {
    var order := Shuffled(h, seed, shuffle).value;
    var cands := Candidates(h).value;
    assert multiset(order) == multiset(cands);
    var first := FirstComplete(dir, order, isFile, 0);
    if first.Some? {
      assert order[first.value] in multiset(cands);
    } else {
      forall e | e in cands ensures !Complete(dir, e, isFile) {
        assert e in multiset(order);
        var j :| 0 <= j < |order| && order[j] == e;
      }
    }
  }

  /** When exactly one candidate has all four frames on disk, it is the one
      chosen, whatever order the seeded shuffle puts the candidates in. */
  lemma OnlyCompleteCandidateIsChosen(dir: string, h: Header, seed: int,
                                      shuffle: (int, int, int, seq<string>) -> seq<string>,
                                      isFile: string -> bool, flag: Option<bool>, e: string)
    requires IsShuffle(shuffle)
    requires Shuffled(h, seed, shuffle).Ok?
    requires e in Candidates(h).value && Complete(dir, e, isFile)
    requires forall x :: x in Candidates(h).value && Complete(dir, x, isFile) ==> x == e
    ensures RandomRef(dir, h, seed, shuffle, isFile, flag) == Ok((CameraFiles(dir, e), Some(true)))
  {
    var order := Shuffled(h, seed, shuffle).value;
    var cands := Candidates(h).value;
    assert multiset(order) == multiset(cands);
    assert e in multiset(order);
    var i :| 0 <= i < |order| && order[i] == e;
    var first := FirstComplete(dir, order, isFile, 0);
    assert Complete(dir, order[i], isFile);
    assert order[first.value] in multiset(cands);
  }

  // ---------------------------------------------------------------------
  // The loop over plate files

  /** One input plate file: its name, its directory, its primary header, and
      the THING_ID column of its photoPosPlate companion when that file exists. */
  datatype PlateFile = PlateFile(name: string, dir: string, header: Header, thingIds: Option<seq<int>>)

  datatype Mode = Coadded | AllFrames | BestExposure | RandomExposure

  /** `use_frames` wins over `use_best_exp`, which wins over `use_random_exp`. */
  function ModeOf(useFrames: bool, useBestExp: bool, useRandomExp: bool): (m: Mode)
    ensures m.AllFrames? <==> useFrames
    ensures m.BestExposure? <==> !useFrames && useBestExp
    ensures m.RandomExposure? <==> !useFrames && !useBestExp && useRandomExp
  {
    if useFrames then AllFrames
    else if useBestExp then BestExposure
    else if useRandomExp then RandomExposure
    else Coadded
  }

  /** What the plate loop has built: `infiles`, the `plate` and `mjd` lists,
      and `fiberid2thingid`. */
  datatype Selection = Selection(infiles: seq<string>, plates: seq<int>, mjds: seq<int>,
                                 thingIds: map<string, seq<int>>)

  /** The files one plate contributes, and `files_exist` afterwards. */
  function PlateFilesRef(p: PlateFile, mode: Mode, seed: int, shuffle: (int, int, int, seq<string>) -> seq<string>,
                         isFile: string -> bool, flag: Option<bool>): Result<(seq<string>, Option<bool>)>
  {
    match mode
    case Coadded => Ok(([p.name], flag))
    case AllFrames =>
      var files :- AllFramesRef(p.dir, p.header);
      Ok((files, flag))
    case BestExposure =>
      var id :- BestExpId(p.header);
      Ok((CameraFiles(p.dir, id), flag))
    case RandomExposure => RandomRef(p.dir, p.header, seed, shuffle, isFile, flag)
  }

  /** How a plate's files are chosen: from the plate and the current
      `files_exist`, the files it contributes and the flag afterwards. */
  type Picker = (PlateFile, Option<bool>) -> Result<(seq<string>, Option<bool>)>

  /** The picker of a selection mode. */
  function PickerOf(mode: Mode, seed: int, shuffle: (int, int, int, seq<string>) -> seq<string>,
                    isFile: string -> bool): Picker
  {
    (p: PlateFile, flag: Option<bool>) => PlateFilesRef(p, mode, seed, shuffle, isFile, flag)
  }

  /** Every file a plate contributes maps to that plate's THING_ID column. */
  function WithThingIds(m: map<string, seq<int>>, files: seq<string>, ids: seq<int>): (r: map<string, seq<int>>)
    ensures r.Keys == m.Keys + (set f | f in files)
    ensures forall f :: f in files ==> r[f] == ids
    ensures forall f :: f in m && f !in files ==> r[f] == m[f]
  {
    map f | f in m.Keys + (set g | g in files) :: if f in files then ids else m[f]
  }

  /** One iteration of the plate loop: PLATEID and MJD are read, the
      photoPosPlate companion must exist when THING_IDs are used, and the
      chosen files are appended. */
  function PlateStep(sel: Selection, flag: Option<bool>, p: PlateFile, useThing: bool, pick: Picker): Result<(Selection, Option<bool>)>
  {
    var plate :- IntCard(p.header, "PLATEID");
    var mjd :- IntCard(p.header, "MJD");
    if useThing && p.thingIds.None? then Err(MissingThingIds(p.name))
    else
      var chosen := pick(p, flag);
      if chosen.Err? then Err(chosen.error)
      else
        var files := chosen.value.0;
        var things := if useThing then WithThingIds(sel.thingIds, files, p.thingIds.value) else sel.thingIds;
        Ok((Selection(sel.infiles + files, sel.plates + [plate], sel.mjds + [mjd], things), chosen.value.1))
  }

  /** The outcome of the plate loop from plate `k` on, starting from the
      state `sel` and the flag `flag`; the first failing plate ends it. */
  function SelectFrom(plates: seq<PlateFile>, k: nat, sel: Selection, flag: Option<bool>, pick: Picker): Result<(Selection, Option<bool>)>
    requires k <= |plates|
    decreases |plates| - k
  {
    if k == |plates| then Ok((sel, flag))
    else
      var next := PlateStep(sel, flag, plates[k], |plates| > 1, pick);
      if next.Err? then next
      else SelectFrom(plates, k + 1, next.value.0, next.value.1, pick)
  }

  /** The empty state the plate loop starts from. */
  const NoSelection: Selection := Selection([], [], [], map[])

  function SelectRef(plates: seq<PlateFile>, mode: Mode, seed: int,
                     shuffle: (int, int, int, seq<string>) -> seq<string>,
                     isFile: string -> bool): Result<Selection>
  {
    var r := SelectFrom(plates, 0, NoSelection, None, PickerOf(mode, seed, shuffle, isFile));
    if r.Err? then Err(r.error) else Ok(r.value.0)
  }

  /** The branch of the plate loop that the selection mode picks: the files
      one plate contributes, and `files_exist` afterwards. */
  method PlateFiles(p: PlateFile, mode: Mode, seed: int, shuffle: (int, int, int, seq<string>) -> seq<string>,
                    isFile: string -> bool, flag: Option<bool>) returns (r: Result<(seq<string>, Option<bool>)>)
    ensures r.Ok? == PlateFilesRef(p, mode, seed, shuffle, isFile, flag).Ok?
    ensures r.Ok? ==> r.value == PlateFilesRef(p, mode, seed, shuffle, isFile, flag).value
  {
    match mode {
      case Coadded =>
        r := Ok(([p.name], flag));
      case AllFrames =>
        var got := AllFramesFiles(p.dir, p.header);
        r := if got.Err? then Err(got.error) else Ok((got.value, flag));
      case BestExposure =>
        var got := BestExposureFiles(p.dir, p.header);
        r := if got.Err? then Err(got.error) else Ok((got.value, flag));
      case RandomExposure =>
        r := RandomExposureFiles(p.dir, p.header, seed, shuffle, isFile, flag);
    }
  }

  /** The plate loop of `read_spectra`: reads PLATEID and MJD of every plate
      and appends the files the selection mode picks. THING_IDs are used as
      soon as more than one plate file is given. */
  method SelectInfiles(plates: seq<PlateFile>, mode: Mode, seed: int,
                       shuffle: (int, int, int, seq<string>) -> seq<string>,
                       isFile: string -> bool) returns (r: Result<Selection>)
    ensures r.Ok? == SelectRef(plates, mode, seed, shuffle, isFile).Ok?
    ensures r.Ok? ==> r.value == SelectRef(plates, mode, seed, shuffle, isFile).value
  {
    var useThing := |plates| > 1;
    var infiles: seq<string> := [];
    var plateIds: seq<int> := [];
    var mjds: seq<int> := [];
    var things: map<string, seq<int>> := map[];
    var flag: Option<bool> := None;
    ghost var pick := PickerOf(mode, seed, shuffle, isFile);
    ghost var final := SelectFrom(plates, 0, NoSelection, None, pick);
    for k := 0 to |plates|
      invariant SelectFrom(plates, k, Selection(infiles, plateIds, mjds, things), flag, pick) == final
    {
      var p := plates[k];
      var plate := IntCard(p.header, "PLATEID");
      var mjd := IntCard(p.header, "MJD");
      if plate.Err? || mjd.Err? || (useThing && p.thingIds.None?) {
        return Err(if plate.Err? then plate.error else if mjd.Err? then mjd.error else MissingThingIds(p.name));
      }
      var got := PlateFiles(p, mode, seed, shuffle, isFile, flag);
      assert pick(p, flag) == PlateFilesRef(p, mode, seed, shuffle, isFile, flag);
      if got.Err? {
        return Err(got.error);
      }
      var files := got.value.0;
      flag := got.value.1;
      plateIds := plateIds + [plate.value];
      mjds := mjds + [mjd.value];
      infiles := infiles + files;
      if useThing {
        things := WithThingIds(things, files, p.thingIds.value);
      }
    }
    r := Ok(Selection(infiles, plateIds, mjds, things));
  }

  /** One plate step appends that plate's PLATEID and MJD. */
  lemma PlateStepRecords(sel: Selection, flag: Option<bool>, p: PlateFile, useThing: bool, pick: Picker)
    requires PlateStep(sel, flag, p, useThing, pick).Ok?
    ensures var sel' := PlateStep(sel, flag, p, useThing, pick).value.0;
      && IntCard(p.header, "PLATEID").Ok? && IntCard(p.header, "MJD").Ok?
      && sel'.plates == sel.plates + [IntOr0(p.header, "PLATEID")]
      && sel'.mjds == sel.mjds + [IntOr0(p.header, "MJD")]
  {
  }

  /** The integer value of a header card, or 0 when there is none. */
  function IntOr0(h: Header, key: string): int
  {
    if key in h && h[key].HInt? then h[key].i else 0
  }

  /** The integer card `key` of every plate file, in order. */
  function Cards(ps: seq<PlateFile>, key: string): (r: seq<int>)
    ensures |r| == |ps|
  {
    if ps == [] then [] else [IntOr0(ps[0].header, key)] + Cards(ps[1..], key)
  }

  lemma {:induction false} CardsAt(ps: seq<PlateFile>, key: string, j: nat)
    requires j < |ps|
    ensures Cards(ps, key)[j] == IntOr0(ps[j].header, key)
  {
    if j > 0 {
      CardsAt(ps[1..], key, j - 1);
    }
  }

  /** From plate `k` on, one PLATEID and one MJD are appended per plate file,
      in input order, whatever files are picked. */
  lemma {:induction false} RecordsFrom(plates: seq<PlateFile>, k: nat, sel: Selection, flag: Option<bool>, pick: Picker)
    requires k <= |plates| && SelectFrom(plates, k, sel, flag, pick).Ok?
    ensures forall j :: k <= j < |plates| ==>
      IntCard(plates[j].header, "PLATEID").Ok? && IntCard(plates[j].header, "MJD").Ok?
    ensures var out := SelectFrom(plates, k, sel, flag, pick).value.0;
      && out.plates == sel.plates + Cards(plates[k..], "PLATEID")
      && out.mjds == sel.mjds + Cards(plates[k..], "MJD")
    decreases |plates| - k
  {
    if k < |plates| {
      var next := PlateStep(sel, flag, plates[k], |plates| > 1, pick).value;
      PlateStepRecords(sel, flag, plates[k], |plates| > 1, pick);
      RecordsFrom(plates, k + 1, next.0, next.1, pick);
      assert SelectFrom(plates, k, sel, flag, pick) == SelectFrom(plates, k + 1, next.0, next.1, pick);
      var h := plates[k].header;
      assert plates[k..] == [plates[k]] + plates[k + 1..];
      assert Cards(plates[k..], "PLATEID") == [IntOr0(h, "PLATEID")] + Cards(plates[k + 1..], "PLATEID");
      assert Cards(plates[k..], "MJD") == [IntOr0(h, "MJD")] + Cards(plates[k + 1..], "MJD");
    }
  }

  /** Whatever files are picked, the plate loop records one PLATEID and one
      MJD per plate file, in input order. */
  lemma PlatesRecorded(plates: seq<PlateFile>, pick: Picker)
    requires SelectFrom(plates, 0, NoSelection, None, pick).Ok?
    ensures var sel := SelectFrom(plates, 0, NoSelection, None, pick).value.0;
      && |sel.plates| == |plates| && |sel.mjds| == |plates|
      && forall j :: 0 <= j < |plates| ==>
           && "PLATEID" in plates[j].header && plates[j].header["PLATEID"] == HInt(sel.plates[j])
           && "MJD" in plates[j].header && plates[j].header["MJD"] == HInt(sel.mjds[j])
  {
    RecordsFrom(plates, 0, NoSelection, None, pick);
    var sel := SelectFrom(plates, 0, NoSelection, None, pick).value.0;
    forall j | 0 <= j < |plates|
      ensures "PLATEID" in plates[j].header && plates[j].header["PLATEID"] == HInt(sel.plates[j])
      ensures "MJD" in plates[j].header && plates[j].header["MJD"] == HInt(sel.mjds[j])
    {
      var h := plates[j].header;
      CardsAt(plates, "PLATEID", j);
      CardsAt(plates, "MJD", j);
      assert plates[0..] == plates;
      assert IntCard(h, "PLATEID").Ok? && IntCard(h, "MJD").Ok?;
      assert sel.plates[j] == IntOr0(h, "PLATEID") && sel.mjds[j] == IntOr0(h, "MJD");
    }
  }

  /** One PLATEID and one MJD are recorded per plate file, in input order. */
  lemma SelectionRecordsPlates(plates: seq<PlateFile>, mode: Mode, seed: int,
                               shuffle: (int, int, int, seq<string>) -> seq<string>,
                               isFile: string -> bool)
    requires SelectRef(plates, mode, seed, shuffle, isFile).Ok?
    ensures var sel := SelectRef(plates, mode, seed, shuffle, isFile).value;
      && |sel.plates| == |plates| && |sel.mjds| == |plates|
      && forall j :: 0 <= j < |plates| ==>
           && "PLATEID" in plates[j].header && plates[j].header["PLATEID"] == HInt(sel.plates[j])
           && "MJD" in plates[j].header && plates[j].header["MJD"] == HInt(sel.mjds[j])
  {
    PlatesRecorded(plates, PickerOf(mode, seed, shuffle, isFile));
  }

  /** With a picker that chooses each plate file itself, each plate from `k`
      on appends its own name. */
  lemma {:induction false} NamesFrom(plates: seq<PlateFile>, k: nat, sel: Selection, flag: Option<bool>, pick: Picker)
    requires k <= |plates| && SelectFrom(plates, k, sel, flag, pick).Ok?
    requires forall p, f :: pick(p, f).Ok? ==> pick(p, f).value.0 == [p.name]
    ensures SelectFrom(plates, k, sel, flag, pick).value.0.infiles ==
            sel.infiles + seq(|plates| - k, j requires 0 <= j < |plates| - k => plates[k + j].name)
    decreases |plates| - k
  {
    if k < |plates| {
      var next := PlateStep(sel, flag, plates[k], |plates| > 1, pick).value;
      assert next.0.infiles == sel.infiles + [plates[k].name];
      NamesFrom(plates, k + 1, next.0, next.1, pick);
      var rest := seq(|plates| - (k + 1), j requires 0 <= j < |plates| - (k + 1) => plates[k + 1 + j].name);
      var all := seq(|plates| - k, j requires 0 <= j < |plates| - k => plates[k + j].name);
      assert all == [plates[k].name] + rest;
    }
  }

  /** In coadded mode `infiles` is exactly the list of plate files. */
  lemma CoaddedReadsPlateFiles(plates: seq<PlateFile>, seed: int,
                               shuffle: (int, int, int, seq<string>) -> seq<string>,
                               isFile: string -> bool)
    requires SelectRef(plates, Coadded, seed, shuffle, isFile).Ok?
    ensures SelectRef(plates, Coadded, seed, shuffle, isFile).value.infiles ==
            seq(|plates|, j requires 0 <= j < |plates| => plates[j].name)
  {
    NamesFrom(plates, 0, NoSelection, None, PickerOf(Coadded, seed, shuffle, isFile));
    assert NoSelection.infiles == [];
  }
}
