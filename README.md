# Video pair merger: the `merge_videos` handler

The service takes a string, cuts it into its overlapping two-character windows
("abc" gives "ab" and "bc"), and looks up a clip `videos/<window>.mp4` for
each window (`<window>.mp4` at the filesystem root when the window starts
with '/', as `os.path.join` does). It concatenates the clips that load into
`output/merged_video.mp4` and streams that file back. The repository holds two
variants of the handler, and the model keeps them apart:

- `main.py` strips the input. It skips every window whose clip is missing or
  fails to load, and assembles whatever did load.
- `main2.py` does not strip. It records every window as checked, and as
  skipped (the file exists but raised when loaded) or invalid (no such file).
  When at least one clip loaded and anything was skipped or invalid, it
  answers with that diagnostic record instead of a video; when nothing loaded
  it answers 404 first.

How the project is laid out:

- `text.dfy` (`Text`): Python's `str.strip()` and the window function `Pairs`.
- `media.dfy` (`Media`): the clip store as one request sees it.
  - `Disk` holds two predicates on windows: "the clip file exists" and
    "opening it as a video succeeds".
  - The concatenate-and-encode step is an abstract function from the ordered
    clip paths to `Written` or `Failed(message)`.
  - Open clip handles are the classes `VideoClip` and `MergedClip`, each with
    an `isOpen` flag.
- `resolve.dfy` (`Resolve`): classification of one window, and the
  order-preserving partition `Having` of a window sequence by classification.
- `http.dfy` (`Http`): the responses.
  - An HTTP error with status and detail.
  - The diagnostic record, which FastAPI sends as a 200 JSON body.
  - The streamed file.
- `strict_merge.dfy` (`StrictMerge`) and `diagnostic_merge.dfy`
  (`DiagnosticMerge`): the two handlers. In each:
  - a pure `Answer` function says which response an input gets;
  - the imperative window loop and handler are methods, proved against
    `Answer` and `Having`;
  - lemmas state the decision table.
- `variants.dfy` (`Variants`): where the two handlers agree and where they part
  ways.
- `example.dfy` (`Example`): the input "abc" worked through both handlers.

Where the two handlers differ, the model follows the code:

- only `main.py` strips its input;
- neither handler closes its clips on the 500 path, and `main2.py` does not
  close them when it returns the diagnostic record either.

## Model

| member | source | states |
|---|---|---|
| Text.IsSpace | main.py:34 | Python's whitespace test: the ASCII blank, tab, newline and carriage return are whitespace, and no ASCII letter or digit is |
| Text.LeadingSpaces | main.py:34 | the leading run `strip()` removes never exceeds the string and is maximal: the character after it, if any, is not whitespace |
| Text.TrailingSpaces | main.py:34 | the trailing run `strip()` removes never exceeds the string and is maximal: the character before it, if any, is not whitespace |
| Text.LeadingRun | main.py:34 | every character of the leading run is whitespace |
| Text.TrailingRun | main.py:34 | every character of the trailing run is whitespace |
| Text.Strip | main.py:34 | `strip()` never makes a string longer; what it keeps is stated by `StripShape` and `StripEmpty` |
| Text.TrailingTail | main.py:34 | past the leading run, everything `strip()` drops at the back is whitespace |
| Text.StripShape | main.py:34 | the stripped string is a contiguous infix with only whitespace removed on either side, and it begins and ends with non-whitespace when not empty |
| Text.StripEmpty | main.py:34-36 | stripping leaves the empty string exactly when the input is all whitespace, including the empty input |
| Text.Pairs | main.py:40-41 | a string of length n has n - 1 windows when n >= 2 and none otherwise |
| Text.PairsAt | main.py:40-41 | window i is the slice at offsets i to i + 2, and it has length exactly 2 |
| Media.ClipPath | main.py:42 | the clip path of a window is at least four characters longer than the window |
| Media.ClipPathSuffix | main.py:42 | every clip path ends in the window followed by `.mp4` |
| Media.ClipPathInjective | main.py:42 | a window not starting with '/' names a file under `videos/`; one starting with '/' names itself plus `.mp4`, since `os.path.join` drops the directory before an absolute part; distinct windows always name distinct clip files |
| Media.ClipPathsSnoc | main.py:42-45 | the clip paths of the windows appended so far grow by the new window's path, in order |
| Media.PathsOfSnoc | main.py:45 | appending a loaded clip appends its file to the list of loaded files |
| Media.VideoClip.Load | main.py:45 | a loaded clip is an open handle on the given file |
| Media.VideoClip.Close | main.py:61 | closing a clip leaves it closed |
| Media.MergedClip.Concatenate | main.py:55 | the concatenated clip is an open handle whose parts are the given files, in order |
| Media.MergedClip.Close | main.py:58 | closing the merged clip leaves it closed |
| Media.CloseAll | main.py:60-61 | after the close loop, every loaded clip is closed |
| Resolve.Classify | main.py:43-49 | a window is missing exactly when its file does not exist, and loaded exactly when its file exists and loading it does not raise; otherwise it is unloadable |
| Resolve.Having | main.py:43-49 | the windows selected by classification are never more than the windows looked up |
| Resolve.HavingAppend | main.py:39-49 | selecting from a concatenation selects from the prefix and then from the rest, so a left-to-right loop that appends builds the selection |
| Resolve.HavingSnoc | main2.py:63-73 | one more window extends a list exactly when that window has the list's classification |
| Resolve.HavingCount | main.py:40-45 | no deduplication and no loss: a window occurs in the selection as often as among the windows when it has the status, and never otherwise |
| Resolve.HavingEmpty | main.py:51-52 | a selection is empty exactly when no window has that classification |
| Resolve.PartitionSizes | main2.py:63-73 | every window lands in exactly one of loaded, skipped and invalid, so their sizes add up to the number of windows checked |
| Resolve.AllLoaded | main2.py:83-93 | nothing skipped and nothing invalid holds exactly when the loaded windows are all the windows, in order |
| StrictMerge.Answer | main.py:33-69 | the response is one of 400, 404 and 500, or the stream of `output/merged_video.mp4`; it is never a diagnostic record |
| StrictMerge.LoadClips | main.py:39-49 | the lookups are exactly the windows of the stripped string in offset order, and the opened clips are those windows whose file exists and loads, in order and freshly opened |
| StrictMerge.MergeVideos | main.py:33-69 | the handler's response is `Answer`. On a stream, the merged clip is built from exactly the loaded clips' files and it and every loaded clip are closed. Otherwise no merged clip exists and every loaded clip stays open |
| StrictMerge.BlankIsBadRequest | main.py:34-37 | 400 is answered exactly for an empty or all-whitespace input, with the fixed detail, and such an input has no windows to look up |
| StrictMerge.NothingLoadedIsNotFound | main.py:51-52 | past the 400 check, 404 is answered exactly when no window loads; a stripped input of length 1 is always 404 |
| StrictMerge.AnyLoadedIsAssembled | main.py:51-69 | once one window loads, the loaded clips go to assembly whatever else was missing. The answer is the stream of the fixed output file or a 500 carrying the engine's message, and never a diagnostic record |
| StrictMerge.CompleteLoadIsAssembled | main.py:54-69 | when every window loads, all windows' clips go to assembly in offset order |
| StrictMerge.LoadedClipsCounted | main.py:40-45 | at most len(s) - 1 clips are loaded for stripped input s; each loading window appears as often as it occurs, and a window that does not load never appears |
| DiagnosticMerge.Answer | main2.py:39-104 | the response is one of 400, 404 and 500, the diagnostic record with its fixed detail and all the input's windows as checked, or the stream of `output/merged_video.mp4` |
| DiagnosticMerge.ClassifyWindows | main2.py:52-73 | `checked_files` is exactly the windows in order. `clips`, `skipped_files` and `invalid_files` are the windows that load, that exist but raise, and that are missing, each in window order |
| DiagnosticMerge.MergeVideos | main2.py:39-104 | the handler's response is `Answer`, with the three diagnostic lists as above. On a stream, the merged clip is built from the loaded clips and everything is closed. Otherwise nothing is built and nothing is closed |
| DiagnosticMerge.OnlyEmptyIsBadRequest | main2.py:40-43 | 400 is answered exactly for the empty string; whitespace goes on to the lookups |
| DiagnosticMerge.NothingLoadedIsNotFound | main2.py:75-76 | 404 is answered exactly when the input is non-empty and no window loads, whatever was skipped or missing |
| DiagnosticMerge.PartialLoadIsReported | main2.py:83-89 | the diagnostic record is answered exactly when some window loaded and some other did not. It carries the skipped, invalid and checked windows in order |
| DiagnosticMerge.AssemblyNeedsEveryWindow | main2.py:83-101 | reaching assembly (stream or 500) means every window loaded, so len(input) - 1 clips in window order; a stream always names `output/merged_video.mp4` |
| DiagnosticMerge.CompleteLoadIsAssembled | main2.py:91-104 | when the input has a window and every window loads, all windows' clips go to assembly in offset order |
| Variants.WhitespaceSplitsVariants | main.py:34-37 | a non-empty all-whitespace input is 400 for main.py and not 400 for main2.py |
| Variants.PartialLoadSplitsVariants | main2.py:83-89 | on an input with nothing to strip where some but not all windows load, main.py assembles (stream or 500) while main2.py answers with its diagnostic record |
| Variants.CompleteLoadVariantsAgree | main2.py:92-104 | when every window of the stripped input loads, main.py and main2.py on that stripped input give the same status, and the same stream on success |
| Example.AbcWindows | main.py:40-41 | "abc" has exactly the windows "ab" and "bc", in that order, and nothing to strip |
| Example.AbcDiagnostic | main2.py:83-89 | with "ab" loading and "bc" missing, main2.py reports "bc" invalid, nothing skipped, and both windows checked |
| Example.AbcStrict | main.py:51-69 | with the same clip store, main.py assembles the single clip "ab" |

## Left out

- FastAPI setup is not modelled: the app, the CORS middleware, the request model and the startup `makedirs` calls. They are framework plumbing.
- moviepy's internals are not modelled. Loading a clip is the `loads` predicate. Concatenating and encoding is one abstract step that either writes the output file or fails with a message; codecs, durations and containers are not modelled.
- Media.VideoClip.Close and Media.MergedClip.Close cannot fail here. Both handlers close inside their `try` (main.py:58-61, main2.py:97-99), so in either a raising `close()` after a successful write would still turn into a 500.
- The assembly step is abstracted as a whole. A failure inside `write_videofile` after concatenation, which leaves the merged clip open, is not told apart from a failure in concatenation.
- The streaming response is left out, and so is `open(output_path, "rb")`, which is I/O. In `main.py` a failing `open` would become a 500. In `main2.py` it is outside the `try`.
- The `print` logging is left out.
- The handlers are `async` and every request writes the same output file. Concurrent requests, and the race on that file, are not modelled.
- `exists` and `loads` are fixed for the duration of one request. Files appearing, disappearing or changing between the check and the load are not modelled.
- Python's `str.strip()` whitespace is written out as the code points for which `str.isspace()` holds. Unicode normalisation does not enter.
- `main2.py`'s `len(pair) < 2` guard never fires, since every window has length 2. It is therefore an assertion in the loop rather than a branch.
