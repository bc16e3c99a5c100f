/** The clip store and the media engine as the handlers see them: which clip
    files exist, which of them decode, the open handles the engine hands out,
    and the single concatenate-and-encode step. */
module Media {

  const VideosDir: string := "videos"
  const OutputDir: string := "output"
  const OutputFilename: string := "merged_video.mp4"
  /** Where every request writes its merged video: the same file each time. */
  const OutputPath: string := OutputDir + "/" + OutputFilename

  /** The clip directory as observed by one request, keyed by window:
      `fileExists(pair)` is whether `ClipPath(pair)` exists, and
      `loads(pair)` is whether opening that file as a video succeeds rather
      than raising. */
  datatype Disk = Disk(fileExists: string -> bool, loads: string -> bool)

  /** The result of concatenating the loaded clips and encoding them to
      `OutputPath`: either the file was written or the engine raised with
      a message. */
  datatype Outcome = Written | Failed(message: string)

  /** `os.path.join(VIDEOS_DIR, f"{pair}.mp4")`. POSIX `os.path.join` drops
      the directory when the second part is absolute, so a window that
      starts with '/' names a file outside the clip directory: "/a" gives
      "/a.mp4". A clip path is the window plus ".mp4", with a directory
      prefix or not, so it is at least four characters longer. */
  function ClipPath(pair: string): (path: string)
    ensures |path| >= |pair| + 4
  {
    if |pair| > 0 && pair[0] == '/' then pair + ".mp4"
    else VideosDir + "/" + pair + ".mp4"
  }

  /** Every clip path ends in the window followed by ".mp4". */
  lemma ClipPathSuffix(pair: string)
    ensures var path := ClipPath(pair);
            path[|path| - 4..] == ".mp4" && path[|path| - 4 - |pair|..|path| - 4] == pair
  {
    var path := ClipPath(pair);
    if !(|pair| > 0 && pair[0] == '/') {
      assert path == (VideosDir + "/") + (pair + ".mp4");
    }
  }

  /** A window that does not start with '/' names a file in the clip
      directory, one that does names itself plus ".mp4", and distinct windows
      always name distinct clip files. */
  lemma {:induction false} ClipPathInjective(p: string, q: string)
    ensures p == [] || p[0] != '/' ==> ClipPath(p)[..|VideosDir| + 1] == VideosDir + "/"
    ensures p != [] && p[0] == '/' ==> ClipPath(p) == p + ".mp4"
    ensures ClipPath(p) == ClipPath(q) <==> p == q
  {
    ClipPathSuffix(p);
    ClipPathSuffix(q);
  }

  /** The clip paths of a sequence of windows, in the same order. */
  function ClipPaths(pairs: seq<string>): seq<string> {
    seq(|pairs|, k requires 0 <= k < |pairs| => ClipPath(pairs[k]))
  }

  /** Appending a window appends its clip path. */
  lemma ClipPathsSnoc(pairs: seq<string>, pair: string)
    ensures ClipPaths(pairs + [pair]) == ClipPaths(pairs) + [ClipPath(pair)]
  {
  }

  /** An open decode handle on one clip file (a loaded video clip). */
  class VideoClip {
    const path: string
    var isOpen: bool

    constructor Load(path: string)
      ensures this.path == path && isOpen
    {
      this.path := path;
      isOpen := true;
    }

    method Close()
      modifies this
      ensures !isOpen
    {
      isOpen := false;
    }
  }

  /** The handle on the concatenated timeline, built from the clip files
      `parts` in order. */
  class MergedClip {
    const parts: seq<string>
    var isOpen: bool

    constructor Concatenate(parts: seq<string>)
      ensures this.parts == parts && isOpen
    {
      this.parts := parts;
      isOpen := true;
    }

    method Close()
      modifies this
      ensures !isOpen
    {
      isOpen := false;
    }
  }

  /** The files behind a list of loaded clips, in list order. */
  function PathsOf(clips: seq<VideoClip>): seq<string> {
    seq(|clips|, k requires 0 <= k < |clips| => clips[k].path)
  }

  /** Appending a clip appends its file. */
  lemma PathsOfSnoc(clips: seq<VideoClip>, clip: VideoClip)
    ensures PathsOf(clips + [clip]) == PathsOf(clips) + [clip.path]
  {
  }

  /** Closes every loaded clip, in list order. */
  method CloseAll(clips: seq<VideoClip>)
    modifies set c | c in clips
    ensures forall c :: c in clips ==> !c.isOpen
  {
    for k := 0 to |clips|
      invariant forall j :: 0 <= j < k ==> !clips[j].isOpen
    {
      clips[k].Close();
    }
  }
}
