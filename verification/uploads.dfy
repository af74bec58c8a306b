/** The upload rules of the movie module's Multer configuration: which
    files the `fileFilter` admits and which sub-folder `destination` picks.
    Writing the file and naming it are not part of this model. */
module Uploads {
  import opened Seqs

  /** The filter's callback: `cb(null, true)` or `cb(new Error(message), false)`. */
  datatype Decision = Accept | Reject(message: string)

  /** `fileFilter`: a `poster` must be an image, a `trailer` a video; a file
      under any other field name is let through. */
  function FileFilter(fieldname: string, mimetype: string): (d: Decision)
    ensures d.Accept? <==>
              (fieldname == "poster" ==> StartsWith(mimetype, "image/")) &&
              (fieldname == "trailer" ==> StartsWith(mimetype, "video/"))
    ensures d.Reject? ==> fieldname == "poster" || fieldname == "trailer"
    ensures d.Reject? ==> d.message != ""
  {
    if fieldname == "poster" then
      if StartsWith(mimetype, "image/") then Accept
      else Reject("Only image files are allowed for poster")
    else if fieldname == "trailer" then
      if StartsWith(mimetype, "video/") then Accept
      else Reject("Only video files are allowed for trailer")
    else Accept
  }

  /** `destination`: the sub-folder of `uploads` a file is written to. */
  function Destination(fieldname: string): (dir: string)
    ensures dir == "posters" || dir == "trailers"
    ensures dir == "posters" <==> fieldname == "poster"
  {
    if fieldname == "poster" then "posters" else "trailers"
  }

  /** A stored poster is an image in `posters`; a stored trailer is a video
      in `trailers`. */
  lemma AcceptedFilesLandInTheirFolder(fieldname: string, mimetype: string)
    requires FileFilter(fieldname, mimetype).Accept?
    ensures fieldname == "poster" ==> StartsWith(mimetype, "image/") && Destination(fieldname) == "posters"
    ensures fieldname == "trailer" ==> StartsWith(mimetype, "video/") && Destination(fieldname) == "trailers"
  {
  }

  /** `image/png` is a valid poster and not a valid trailer; `video/mp4` is
      the reverse. */
  lemma MimetypeExamples()
    ensures FileFilter("poster", "image/png") == Accept
    ensures FileFilter("trailer", "image/png").Reject?
    ensures FileFilter("trailer", "video/mp4") == Accept
    ensures FileFilter("poster", "video/mp4").Reject?
  {
    assert "image/png"[..6] == "image/";
    assert "video/mp4"[..6] == "video/";
    assert "image/png"[..6] != "video/";
    assert "video/mp4"[..6] != "image/";
  }
}
