/** The `merge_videos` handler of main2.py: no stripping, every window is
    recorded as checked and sorted into loaded, skipped (exists but raised
    when loaded) or invalid (no such file); anything short of a complete
    load is answered with a diagnostic record instead of a video. */
module DiagnosticMerge {
  import opened Text
  import opened Media
  import opened Resolve
  import opened Http

  const EmptyDetail: string := "Input string cannot be empty."
  const NotFoundDetail: string := "No valid video files found for the given input."
  const ReportDetail: string := "Some video files were skipped or not found"
  const FailurePrefix: string := "Error during video processing: "

  /** The response main2.py gives for `inputStr`, clip store `disk` and
      assembly step `assemble` (which receives the loaded clips' paths in
      order). It is one of the three HTTP errors, the diagnostic record of
      all the input's windows, or the stream of the fixed output file. */
  function Answer(inputStr: string, disk: Disk, assemble: seq<string> -> Outcome): (r: Response)
    ensures r.Failure? ==> r.status in {400, 404, 500}
    ensures r.Report? ==> r.detail == ReportDetail && r.checkedFiles == Pairs(inputStr)
    ensures r.Stream? ==> r == Stream(OutputPath, MediaType, Disposition)
  {
    if inputStr == [] then Failure(400, EmptyDetail)
    else
      var checked := Pairs(inputStr);
      var loaded := Having(disk, checked, Loaded);
      var skipped := Having(disk, checked, Unloadable);
      var invalid := Having(disk, checked, Missing);
      if loaded == [] then Failure(404, NotFoundDetail)
      else if skipped != [] || invalid != [] then Report(ReportDetail, skipped, invalid, checked)
      else
        match assemble(ClipPaths(loaded))
        case Written => Stream(OutputPath, MediaType, Disposition)
        case Failed(message) => Failure(500, FailurePrefix + message)
  }

  /** The window loop: each window is appended to `checked` and then to
      exactly one of `clips` (opened), `skipped` (loading raised) or
      `invalid` (no file), so each list keeps window order. */
  method ClassifyWindows(inputStr: string, disk: Disk)
    returns (checked: seq<string>, skipped: seq<string>, invalid: seq<string>, clips: seq<VideoClip>)
    ensures checked == Pairs(inputStr)
    ensures skipped == Having(disk, checked, Unloadable)
    ensures invalid == Having(disk, checked, Missing)
    ensures PathsOf(clips) == ClipPaths(Having(disk, checked, Loaded))
    ensures forall c :: c in clips ==> fresh(c) && c.isOpen
  {
    checked, skipped, invalid, clips := [], [], [], [];
    var i := 0;
    while i < |inputStr| - 1
      invariant 0 <= i <= |Pairs(inputStr)|
      invariant checked == Pairs(inputStr)[..i]
      invariant skipped == Having(disk, checked, Unloadable)
      invariant invalid == Having(disk, checked, Missing)
      invariant PathsOf(clips) == ClipPaths(Having(disk, checked, Loaded))
      invariant forall c :: c in clips ==> fresh(c) && c.isOpen
    {
      var pair := inputStr[i..i + 2];
      // the source skips windows shorter than two characters; there are none
      assert |pair| == 2;
      PairsAt(inputStr, i);
      assert Pairs(inputStr)[..i + 1] == checked + [pair];
      HavingSnoc(disk, checked, pair, Loaded);
      HavingSnoc(disk, checked, pair, Unloadable);
      HavingSnoc(disk, checked, pair, Missing);
      ClipPathsSnoc(Having(disk, checked, Loaded), pair);
      checked := checked + [pair];
      if disk.fileExists(pair) {
        if disk.loads(pair) {
          var clip := new VideoClip.Load(ClipPath(pair));
          PathsOfSnoc(clips, clip);
          clips := clips + [clip];
        } else {
          skipped := skipped + [pair];
        }
      } else {
        invalid := invalid + [pair];
      }
      i := i + 1;
    }
    assert checked == Pairs(inputStr);
  }

  /** The handler itself. `checked`, `skipped` and `invalid` are its three
      diagnostic lists, `clips` the handles opened and `merged` the
      concatenated clip when one was built. */
  method MergeVideos(inputStr: string, disk: Disk, assemble: seq<string> -> Outcome)
    returns (resp: Response, checked: seq<string>, skipped: seq<string>, invalid: seq<string>,
             clips: seq<VideoClip>, merged: MergedClip?)
    ensures resp == Answer(inputStr, disk, assemble)
    ensures checked == Pairs(inputStr)
    ensures skipped == Having(disk, checked, Unloadable) && invalid == Having(disk, checked, Missing)
    ensures PathsOf(clips) == ClipPaths(Having(disk, checked, Loaded))
    ensures forall c :: c in clips ==> fresh(c)
    ensures resp.Stream? ==> merged != null && fresh(merged) && merged.parts == PathsOf(clips)
    ensures resp.Stream? ==> !merged.isOpen && forall c :: c in clips ==> !c.isOpen
    ensures !resp.Stream? ==> merged == null && forall c :: c in clips ==> c.isOpen
  {
    merged := null;
    if inputStr == [] {
      resp, checked, skipped, invalid, clips := Failure(400, EmptyDetail), [], [], [], [];
      return;
    }

    checked, skipped, invalid, clips := ClassifyWindows(inputStr, disk);
    if clips == [] {
      resp := Failure(404, NotFoundDetail);
      return;
    }
    if skipped != [] || invalid != [] {
      resp := Report(ReportDetail, skipped, invalid, checked);
      return;
    }

    var outcome := assemble(PathsOf(clips));
    if outcome.Failed? {
      resp := Failure(500, FailurePrefix + outcome.message);
      return;
    }
    merged := new MergedClip.Concatenate(PathsOf(clips));
    merged.Close();
    CloseAll(clips);
    resp := Stream(OutputPath, MediaType, Disposition);
  }

  /** Only the literally empty string is answered with 400: an input of
      spaces is not stripped and goes on to the lookups. */
  lemma OnlyEmptyIsBadRequest(inputStr: string, disk: Disk, assemble: seq<string> -> Outcome)
    ensures StatusCode(Answer(inputStr, disk, assemble)) == 400 <==> inputStr == []
  {
  }

  /** 404 is answered exactly when the input is non-empty and no window
      loads, whatever was skipped or missing: it is decided before, and
      overrides, the diagnostic record. */
  lemma NothingLoadedIsNotFound(inputStr: string, disk: Disk, assemble: seq<string> -> Outcome)
    ensures StatusCode(Answer(inputStr, disk, assemble)) == 404
            <==> inputStr != [] && forall w :: w in Pairs(inputStr) ==> Classify(disk, w) != Loaded
  {
    HavingEmpty(disk, Pairs(inputStr), Loaded);
  }

  /** The diagnostic record is answered exactly when some window loaded and
      some other did not; it carries the skipped and invalid windows and all
      checked windows, each list in window order, and no assembly happens. */
  lemma PartialLoadIsReported(inputStr: string, disk: Disk, assemble: seq<string> -> Outcome)
    ensures var ws := Pairs(inputStr);
            Answer(inputStr, disk, assemble).Report?
            <==> (exists w :: w in ws && Classify(disk, w) == Loaded)
                 && (exists w :: w in ws && Classify(disk, w) != Loaded)
    ensures var ws := Pairs(inputStr);
            Answer(inputStr, disk, assemble).Report? ==>
              Answer(inputStr, disk, assemble)
                == Report(ReportDetail, Having(disk, ws, Unloadable), Having(disk, ws, Missing), ws)
  {
    var ws := Pairs(inputStr);
    HavingEmpty(disk, ws, Loaded);
    HavingEmpty(disk, ws, Unloadable);
    HavingEmpty(disk, ws, Missing);
  }

  /** Assembly is reached only when every window loaded: the clips handed
      to it are then all |inputStr| - 1 windows in offset order, and a
      streamed answer always names the fixed output file. */
  lemma AssemblyNeedsEveryWindow(inputStr: string, disk: Disk, assemble: seq<string> -> Outcome)
    requires Answer(inputStr, disk, assemble).Stream? || StatusCode(Answer(inputStr, disk, assemble)) == 500
    ensures Having(disk, Pairs(inputStr), Loaded) == Pairs(inputStr)
    ensures |Having(disk, Pairs(inputStr), Loaded)| == |inputStr| - 1
    ensures Answer(inputStr, disk, assemble).Stream? ==> Answer(inputStr, disk, assemble).path == OutputPath
    ensures Answer(inputStr, disk, assemble).Stream?
            <==> assemble(ClipPaths(Pairs(inputStr))) == Written
  {
    AllLoaded(disk, Pairs(inputStr));
  }

  /** Conversely, a non-empty input whose every window loads goes to
      assembly with all its windows' clips, in offset order. */
  lemma CompleteLoadIsAssembled(inputStr: string, disk: Disk, assemble: seq<string> -> Outcome)
    requires |inputStr| >= 2
    requires forall w :: w in Pairs(inputStr) ==> Classify(disk, w) == Loaded
    ensures Answer(inputStr, disk, assemble) ==
              match assemble(ClipPaths(Pairs(inputStr)))
              case Written => Stream(OutputPath, MediaType, Disposition)
              case Failed(message) => Failure(500, FailurePrefix + message)
  {
    var ws := Pairs(inputStr);
    HavingEmpty(disk, ws, Unloadable);
    HavingEmpty(disk, ws, Missing);
    AllLoaded(disk, ws);
  }
}
