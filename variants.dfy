/** Where the two handlers agree and where they part ways. */
module Variants {
  import opened Text
  import opened Media
  import opened Resolve
  import opened Http
  import StrictMerge
  import DiagnosticMerge

  /** An input made only of spaces is a 400 for main.py, which strips it,
      and goes on to the lookups in main2.py, which does not. */
  lemma WhitespaceSplitsVariants(inputStr: string, disk: Disk, assemble: seq<string> -> Outcome)
    requires inputStr != [] && AllSpace(inputStr)
    ensures StrictMerge.Answer(inputStr, disk, assemble) == Failure(400, StrictMerge.EmptyDetail)
    ensures StatusCode(DiagnosticMerge.Answer(inputStr, disk, assemble)) != 400
  {
    StripEmpty(inputStr);
  }

  /** On an input with nothing to strip, when some but not all windows load,
      main.py assembles the clips that did load while main2.py answers with
      its diagnostic record and assembles nothing. */
  lemma PartialLoadSplitsVariants(inputStr: string, disk: Disk, assemble: seq<string> -> Outcome)
    requires Strip(inputStr) == inputStr
    requires exists w :: w in Pairs(inputStr) && Classify(disk, w) == Loaded
    requires exists w :: w in Pairs(inputStr) && Classify(disk, w) != Loaded
    ensures StrictMerge.Answer(inputStr, disk, assemble).Stream?
            <==> assemble(ClipPaths(Having(disk, Pairs(inputStr), Loaded))) == Written
    ensures StatusCode(StrictMerge.Answer(inputStr, disk, assemble)) in {200, 500}
    ensures DiagnosticMerge.Answer(inputStr, disk, assemble).Report?
  {
    var w :| w in Pairs(inputStr) && Classify(disk, w) == Loaded;
    assert inputStr != [];
    assert !AllSpace(inputStr);
    StrictMerge.AnyLoadedIsAssembled(inputStr, disk, assemble);
    DiagnosticMerge.PartialLoadIsReported(inputStr, disk, assemble);
  }

  /** When every window of the stripped input loads, main.py on the raw
      input and main2.py on the stripped input hand the same clips to
      assembly: when it succeeds both stream the same file, and when it
      fails both answer 500. */
  lemma CompleteLoadVariantsAgree(inputStr: string, disk: Disk, assemble: seq<string> -> Outcome)
    requires |Strip(inputStr)| >= 2
    requires forall w :: w in Pairs(Strip(inputStr)) ==> Classify(disk, w) == Loaded
    ensures var strict := StrictMerge.Answer(inputStr, disk, assemble);
            var diagnostic := DiagnosticMerge.Answer(Strip(inputStr), disk, assemble);
            && StatusCode(strict) == StatusCode(diagnostic)
            && (strict.Stream? ==> strict == diagnostic)
  {
    StrictMerge.CompleteLoadIsAssembled(inputStr, disk, assemble);
    DiagnosticMerge.CompleteLoadIsAssembled(Strip(inputStr), disk, assemble);
  }
}
