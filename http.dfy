/** The terminal outcomes of a merge request, as the web layer renders them. */
module Http {

  /** `Failure` is a raised HTTPException (status and detail); `Report` is the
      JSON diagnostic record returned with status 200; `Stream` is the video
      file streamed back as an attachment. */
  datatype Response =
    | Failure(status: nat, detail: string)
    | Report(detail: string, skippedFiles: seq<string>, invalidFiles: seq<string>, checkedFiles: seq<string>)
    | Stream(path: string, mediaType: string, disposition: string)

  const MediaType: string := "video/mp4"
  const Disposition: string := "attachment; filename=merged_video.mp4"

  /** The HTTP status code the client sees. */
  function StatusCode(r: Response): nat {
    if r.Failure? then r.status else 200
  }
}
