/** The accepted types of internal/httpapi/files_handlers.go, and the extensions of their blobs. */
module Mime {
  import opened Wrappers
  import opened Protocol

  /** allowedMIME: the kind of a type that is accepted. */
  function KindOf(mime: string): Option<string> {
    match mime
    case "image/png" => Some("image")
    case "image/jpeg" => Some("image")
    case "image/gif" => Some("image")
    case "image/webp" => Some("image")
    case "image/avif" => Some("image")
    case "application/pdf" => Some("pdf")
    case "text/plain" => Some("markdown")
    case _ => None
  }

  /** `mimeExt`. */
  function MimeExt(mime: string): string {
    match mime
    case "image/png" => "png"
    case "image/jpeg" => "jpg"
    case "image/gif" => "gif"
    case "image/webp" => "webp"
    case "image/avif" => "avif"
    case "application/pdf" => "pdf"
    case "text/plain" => "md"
    case _ => "bin"
  }

  /** Accepted types have extensions of their own, so that a replacement keeps its blob's name if
      and only if it keeps the type; none has the one for unknown types. */
  lemma ExtTellsType(a: string, b: string)
    requires KindOf(a).Some? && KindOf(b).Some?
    ensures MimeExt(a) == MimeExt(b) <==> a == b
    ensures MimeExt(a) != "bin"
  {
  }

  /** The names that a blob can be given by an upload, and by a replacement, are those of the
      accepted types, and of the image types. */
  lemma ExtsOfTypes(was: string, ext: string)
    ensures UploadExt("files", ext) <==> exists mime :: KindOf(mime).Some? && MimeExt(mime) == ext
    ensures ReplaceExt("files", was, ext) <==> exists mime :: KindOf(mime) == Some("image") && MimeExt(mime) == ext
    ensures UploadExt("notes", ext) <==> ext == "md"
    ensures ReplaceExt("notes", was, ext) <==> ext == was
  {
    assert KindOf("image/png") == Some("image") && MimeExt("image/png") == "png";
    assert KindOf("image/jpeg") == Some("image") && MimeExt("image/jpeg") == "jpg";
    assert KindOf("image/gif") == Some("image") && MimeExt("image/gif") == "gif";
    assert KindOf("image/webp") == Some("image") && MimeExt("image/webp") == "webp";
    assert KindOf("image/avif") == Some("image") && MimeExt("image/avif") == "avif";
    assert KindOf("application/pdf") == Some("pdf") && MimeExt("application/pdf") == "pdf";
    assert KindOf("text/plain") == Some("markdown") && MimeExt("text/plain") == "md";
  }
}
