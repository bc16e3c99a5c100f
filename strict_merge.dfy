/** The `merge_videos` handler of main.py: strip the input, look up every
    two-character window, keep the clips that load, and assemble whatever
    loaded; a missing or unreadable window is silently skipped. */
module StrictMerge {
  import opened Text
  import opened Media
  import opened Resolve
  import opened Http

  const EmptyDetail: string := "Input string cannot be empty."
  const NotFoundDetail: string := "No valid video files found."
  const FailurePrefix: string := "Video processing failed: "

  /** The response main.py gives for `inputStr`, clip store `disk` and
      assembly step `assemble` (which receives the loaded clips' paths in
      order). It is one of the three HTTP errors or the stream of the fixed
      output file, never a diagnostic record. */
  function Answer(inputStr: string, disk: Disk, assemble: seq<string> -> Outcome): (r: Response)
    ensures r.Failure? ==> r.status in {400, 404, 500}
    ensures r.Stream? ==> r == Stream(OutputPath, MediaType, Disposition)
    ensures !r.Report?
  {
    var s := Strip(inputStr);
    if s == [] then Failure(400, EmptyDetail)
    else
      var loaded := Having(disk, Pairs(s), Loaded);
      if loaded == [] then Failure(404, NotFoundDetail)
      else
        match assemble(ClipPaths(loaded))
        case Written => Stream(OutputPath, MediaType, Disposition)
        case Failed(message) => Failure(500, FailurePrefix + message)
  }

  /** The window loop: every window of `s` is looked up in offset order
      (`lookups`), and a clip is opened for each window whose file exists and
      loads; any other window is logged and skipped. */
  method LoadClips(s: string, disk: Disk) returns (ghost lookups: seq<string>, clips: seq<VideoClip>)
    ensures lookups == Pairs(s)
    ensures PathsOf(clips) == ClipPaths(Having(disk, Pairs(s), Loaded))
    ensures forall c :: c in clips ==> fresh(c) && c.isOpen
  {
    lookups, clips := [], [];
    var i := 0;
    while i < |s| - 1
      invariant 0 <= i <= |Pairs(s)|
      invariant lookups == Pairs(s)[..i]
      invariant PathsOf(clips) == ClipPaths(Having(disk, lookups, Loaded))
      invariant forall c :: c in clips ==> fresh(c) && c.isOpen
    {
      var pair := s[i..i + 2];
      PairsAt(s, i);
      assert Pairs(s)[..i + 1] == lookups + [pair];
      HavingSnoc(disk, lookups, pair, Loaded);
      ClipPathsSnoc(Having(disk, lookups, Loaded), pair);
      lookups := lookups + [pair];
      if disk.fileExists(pair) {
        if disk.loads(pair) {
          var clip := new VideoClip.Load(ClipPath(pair));
          PathsOfSnoc(clips, clip);
          clips := clips + [clip];
        }
        // otherwise the load error is logged and the window is skipped
      }
      // otherwise the missing file is logged and the window is skipped
      i := i + 1;
    }
    assert lookups == Pairs(s);
  }

  /** The handler itself. `lookups` records, in order, every window whose
      clip file was checked for existence; `clips` are the handles opened;
      `merged` is the concatenated clip when one was built. */
  method MergeVideos(inputStr: string, disk: Disk, assemble: seq<string> -> Outcome)
    returns (resp: Response, ghost lookups: seq<string>, clips: seq<VideoClip>, merged: MergedClip?)
    ensures resp == Answer(inputStr, disk, assemble)
    ensures lookups == Pairs(Strip(inputStr))
    ensures PathsOf(clips) == ClipPaths(Having(disk, lookups, Loaded))
    ensures forall c :: c in clips ==> fresh(c)
    ensures resp.Stream? ==> merged != null && fresh(merged) && merged.parts == PathsOf(clips)
    ensures resp.Stream? ==> !merged.isOpen && forall c :: c in clips ==> !c.isOpen
    ensures !resp.Stream? ==> merged == null && forall c :: c in clips ==> c.isOpen
  {
    var s := Strip(inputStr);
    merged := null;
    if s == [] {
      resp, lookups, clips := Failure(400, EmptyDetail), [], [];
      return;
    }

    lookups, clips := LoadClips(s, disk);
    if clips == [] {
      resp := Failure(404, NotFoundDetail);
      return;
    }

    var outcome := assemble(PathsOf(clips));
    if outcome.Failed? {
      resp := Failure(500, FailurePrefix + outcome.message);
      return;
    }
    merged := new MergedClip.Concatenate(PathsOf(clips));
    merged.Close();
    CloseAll(clips);
    resp := Stream(OutputPath, MediaType, Disposition);
  }

  /** An empty or all-whitespace input, and only such an input, is answered
      with 400; it has no windows, so no clip file is looked up. */
  lemma BlankIsBadRequest(inputStr: string, disk: Disk, assemble: seq<string> -> Outcome)
    ensures StatusCode(Answer(inputStr, disk, assemble)) == 400 <==> AllSpace(inputStr)
    ensures AllSpace(inputStr) ==> Answer(inputStr, disk, assemble) == Failure(400, EmptyDetail)
    ensures AllSpace(inputStr) ==> Pairs(Strip(inputStr)) == []
  {
    StripEmpty(inputStr);
  }

  /** After stripping, the answer is 404 exactly when no window's clip both
      exists and loads; in particular a one-character input is always 404. */
  lemma NothingLoadedIsNotFound(inputStr: string, disk: Disk, assemble: seq<string> -> Outcome)
    requires !AllSpace(inputStr)
    ensures StatusCode(Answer(inputStr, disk, assemble)) == 404
            <==> forall w :: w in Pairs(Strip(inputStr)) ==> Classify(disk, w) != Loaded
    ensures |Strip(inputStr)| == 1 ==> Answer(inputStr, disk, assemble) == Failure(404, NotFoundDetail)
  {
    StripEmpty(inputStr);
    HavingEmpty(disk, Pairs(Strip(inputStr)), Loaded);
  }

  /** Once one window loads, the loaded clips go to assembly whatever else
      was missing: the answer is the stream of the fixed output file when
      assembly writes it and 500 carrying the engine's message when it
      fails. There is never a diagnostic record. */
  lemma AnyLoadedIsAssembled(inputStr: string, disk: Disk, assemble: seq<string> -> Outcome)
    requires !AllSpace(inputStr)
    requires exists w :: w in Pairs(Strip(inputStr)) && Classify(disk, w) == Loaded
    ensures var paths := ClipPaths(Having(disk, Pairs(Strip(inputStr)), Loaded));
            Answer(inputStr, disk, assemble) ==
              match assemble(paths)
              case Written => Stream(OutputPath, MediaType, Disposition)
              case Failed(message) => Failure(500, FailurePrefix + message)
    ensures !Answer(inputStr, disk, assemble).Report?
  {
    HavingEmpty(disk, Pairs(Strip(inputStr)), Loaded);
  }

  /** When every window of the stripped input loads, all of them go to
      assembly, in offset order: the same clips, and the same answers up to
      the wording of a 500, as main2.py on that stripped input. */
  lemma CompleteLoadIsAssembled(inputStr: string, disk: Disk, assemble: seq<string> -> Outcome)
    requires |Strip(inputStr)| >= 2
    requires forall w :: w in Pairs(Strip(inputStr)) ==> Classify(disk, w) == Loaded
    ensures Answer(inputStr, disk, assemble) ==
              match assemble(ClipPaths(Pairs(Strip(inputStr))))
              case Written => Stream(OutputPath, MediaType, Disposition)
              case Failed(message) => Failure(500, FailurePrefix + message)
  {
    var ws := Pairs(Strip(inputStr));
    HavingEmpty(disk, ws, Unloadable);
    HavingEmpty(disk, ws, Missing);
    AllLoaded(disk, ws);
  }

  /** The clips handed to assembly count each loading window as often as it
      occurs, repeats included, and a window that does not load not at all;
      there are never more than |s| - 1 of them for the stripped input s. */
  lemma LoadedClipsCounted(inputStr: string, disk: Disk, w: string)
    ensures var s := Strip(inputStr);
            var loaded := Having(disk, Pairs(s), Loaded);
            && |loaded| <= (if |s| < 2 then 0 else |s| - 1)
            && multiset(loaded)[w] == (if Classify(disk, w) == Loaded then multiset(Pairs(s))[w] else 0)
  {
    HavingCount(disk, Pairs(Strip(inputStr)), Loaded, w);
  }
}
