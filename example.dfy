/** The worked example of an input "abc" whose second window has no clip. */
module Example {
  import opened Text
  import opened Media
  import opened Resolve
  import opened Http
  import StrictMerge
  import DiagnosticMerge

  /** "abc" has exactly the windows "ab" and "bc", in that order, and
      nothing to strip. */
  lemma AbcWindows()
    ensures Pairs("abc") == ["ab", "bc"]
    ensures Strip("abc") == "abc"
  {
    PairsAt("abc", 0);
    PairsAt("abc", 1);
    assert "abc"[0..2] == "ab" && "abc"[1..3] == "bc";
    assert !IsSpace('a') && !IsSpace('c');
    assert LeadingSpaces("abc") == 0;
  }

  /** With a clip store where "ab" exists and loads and "bc" does not
      exist, main2.py reports "bc" as invalid and nothing as skipped, after
      checking both windows. */
  lemma AbcDiagnostic(disk: Disk, assemble: seq<string> -> Outcome)
    requires Classify(disk, "ab") == Loaded && Classify(disk, "bc") == Missing
    ensures DiagnosticMerge.Answer("abc", disk, assemble)
            == Report(DiagnosticMerge.ReportDetail, [], ["bc"], ["ab", "bc"])
  {
    AbcWindows();
    var ws := ["ab", "bc"];
    assert Having(disk, ws, Loaded) == ["ab"];
    assert Having(disk, ws, Missing) == ["bc"];
    assert Having(disk, ws, Unloadable) == [];
  }

  /** With the same clip store, main.py assembles the single clip "ab". */
  lemma AbcStrict(disk: Disk, assemble: seq<string> -> Outcome)
    requires Classify(disk, "ab") == Loaded && Classify(disk, "bc") == Missing
    ensures StrictMerge.Answer("abc", disk, assemble)
            == match assemble([ClipPath("ab")])
               case Written => Stream(OutputPath, MediaType, Disposition)
               case Failed(message) => Failure(500, StrictMerge.FailurePrefix + message)
  {
    AbcWindows();
    assert Having(disk, ["ab", "bc"], Loaded) == ["ab"];
    assert ClipPaths(["ab"]) == [ClipPath("ab")];
  }
}
