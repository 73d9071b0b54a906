/** Content-type inference from a filename extension. */
module ContentType {
  import opened Wrappers
  import opened Text

  /** The generic binary type used for every unknown extension. */
  const OctetStream: string := "application/octet-stream"

  /** The fixed extension-to-MIME table; `None` for an extension it lacks. */
  function MimeFor(ext: string): (r: Option<string>)
    ensures r != Some(OctetStream)
  {
    match ext
    case "jpg" => Some("image/jpeg")
    case "jpeg" => Some("image/jpeg")
    case "png" => Some("image/png")
    case "gif" => Some("image/gif")
    case "webp" => Some("image/webp")
    case "svg" => Some("image/svg+xml")
    case "mp4" => Some("video/mp4")
    case "webm" => Some("video/webm")
    case "mov" => Some("video/quicktime")
    case "mp3" => Some("audio/mpeg")
    case "wav" => Some("audio/wav")
    case "pdf" => Some("application/pdf")
    case "doc" => Some("application/msword")
    case "docx" => Some("application/vnd.openxmlformats-officedocument.wordprocessingml.document")
    case "txt" => Some("text/plain")
    case "md" => Some("text/markdown")
    case _ => None
  }

  /** The lower-cased text after the last dot; a name without a dot is its
      own extension. */
  function FoldedExtension(filename: string): string {
    LowerAscii(LastSegment(filename))
  }

  /** The MIME type of a filename: the table entry for its extension, or
      the generic binary type when the table has none. */
  function InferContentType(filename: string): (r: string)
    ensures r == OctetStream <==> MimeFor(FoldedExtension(filename)).None?
    ensures r != OctetStream ==> MimeFor(FoldedExtension(filename)) == Some(r)
  {
    MimeFor(FoldedExtension(filename)).GetOr(OctetStream)
  }

  /** Names that differ only in the case of their letters get the same type. */
  lemma InferContentTypeCaseInsensitive(f: string, g: string)
    requires LowerAscii(f) == LowerAscii(g)
    ensures InferContentType(f) == InferContentType(g)
  {
    LastSegmentLower(f);
    LastSegmentLower(g);
    LowerAsciiIdempotent(LastSegment(f));
    LowerAsciiIdempotent(LastSegment(g));
  }

  /** A name without a dot is its own extension, and the empty name falls
      back. */
  lemma InferContentTypeBareName()
    ensures InferContentType("png") == "image/png"
    ensures InferContentType("") == OctetStream
  {
    assert LastSegment("png") == "png";
    assert LowerAscii("png") == "png";
    assert LowerAscii("") == "";
    assert MimeFor("") == None;
  }

  /** Only the text after the last dot counts; a trailing dot leaves an
      empty extension, which falls back. */
  lemma InferContentTypeLastDotOnly()
    ensures InferContentType("archive.tar.gz") == OctetStream
    ensures InferContentType("notes.") == OctetStream
  {
    assert LastSegment("archive.tar.gz") == "gz";
    assert LastSegment("notes.") == "";
  }

  /** Capitals in the extension are folded before the lookup. */
  lemma InferContentTypeFoldsCapitals()
    ensures InferContentType("photo.PNG") == "image/png"
    ensures InferContentType("clip.final.MOV") == "video/quicktime"
  {
    assert LastSegment("photo.PNG") == "PNG";
    assert LowerAscii("PNG") == "png";
    assert LastSegment("clip.final.MOV") == "MOV";
    assert LowerAscii("MOV") == "mov";
  }

  // The lookup as written indexes a plain object literal, so a key it does
  // not define itself can still resolve to a member every object inherits.
  // Lower-casing leaves only two inherited member names reachable.

  /** The inherited members whose names are entirely lower case. */
  const InheritedNames: set<string> := {"constructor", "__proto__"}

  /** What the object-literal lookup yields: a MIME string, or an inherited
      member (a function or the prototype object), which is truthy and so
      is returned in place of the fallback. */
  datatype LookupValue = Mime(mime: string) | InheritedMember(name: string)

  /** Neither inherited name is a key of the table. */
  lemma InheritedNamesOutsideTable(ext: string)
    requires ext in InheritedNames
    ensures MimeFor(ext).None?
  {
    assert ext == "constructor" || ext == "__proto__";
  }

  /** The lookup as the source writes it: the table's own entries first,
      then the inherited members, then the fallback. */
  function InferContentTypeAsWritten(filename: string): (r: LookupValue)
    ensures r.InheritedMember? <==> FoldedExtension(filename) in InheritedNames
  {
    var ext := FoldedExtension(filename);
    assert ext in InheritedNames ==> MimeFor(ext).None? by {
      if ext in InheritedNames { InheritedNamesOutsideTable(ext); }
    }
    if MimeFor(ext).Some? then Mime(MimeFor(ext).value)
    else if ext in InheritedNames then InheritedMember(ext)
    else Mime(OctetStream)
  }

  /** Away from the two inherited names the written lookup and the
      corrected one agree. */
  lemma AsWrittenAgreesOffInheritedNames(filename: string)
    requires FoldedExtension(filename) !in InheritedNames
    ensures InferContentTypeAsWritten(filename) == Mime(InferContentType(filename))
  {
  }

  /** A file named `notes.constructor` gets no MIME string from the written
      lookup, although its extension is not in the table. */
  lemma AsWrittenInheritedCounterexample()
    ensures InferContentTypeAsWritten("notes.constructor").InheritedMember?
    ensures InferContentType("notes.constructor") == OctetStream
  {
    FoldedConstructor();
    InheritedNamesOutsideTable("constructor");
  }

  /** The folded extension of `notes.constructor`. */
  lemma FoldedConstructor()
    ensures FoldedExtension("notes.constructor") == "constructor"
  {
    assert LastSegment("notes.constructor") == "constructor";
    assert LowerAscii("constructor") == "constructor";
  }
}
