/** The item normaliser: raw image and document records, and search hits,
    become uniform `MediaItem`s. */
module Normalize {
  import opened Wrappers
  import opened MediaTypes
  import opened ContentType

  /** JavaScript's `s || undefined` on an optional string: the empty string
      becomes absent. */
  function NonEmpty(s: Option<string>): (r: Option<string>)
    ensures r.Some? <==> Truthy(s)
    ensures r.Some? ==> r == s
  {
    if Truthy(s) then s else None
  }

  /** An image record as a picture. The thumbnail doubles as the display
      URL, so a picture with a thumbnail needs no further resolution. */
  function ImageToMediaItem(img: RagImage): (m: MediaItem)
    ensures m.category == Pictures
    ensures m.id == img.imageId && m.filename == img.filename && m.title == img.filename
    ensures m.uploadDate == img.createdAt
    ensures m.signedUrl == m.thumbnailUrl
    ensures m.thumbnailUrl.Some? <==> Truthy(img.thumbnailUrl)
    ensures Truthy(img.thumbnailUrl) ==> m.thumbnailUrl == img.thumbnailUrl
    ensures m.description.Some? <==> Truthy(img.caption)
    ensures Truthy(img.caption) ==> m.description == img.caption
    ensures img.fileSize.None? ==> m.fileSize == 0
    ensures img.fileSize.Some? ==> m.fileSize == img.fileSize.value
    ensures Truthy(img.contentType) ==> m.contentType == img.contentType.value
    ensures !Truthy(img.contentType) ==> m.contentType == InferContentType(img.filename)
  {
    MediaItem(
      id := img.imageId,
      filename := img.filename,
      title := img.filename,
      description := NonEmpty(img.caption),
      uploadDate := img.createdAt,
      fileSize := img.fileSize.GetOr(0),
      contentType := if Truthy(img.contentType) then img.contentType.value else InferContentType(img.filename),
      thumbnailUrl := NonEmpty(img.thumbnailUrl),
      signedUrl := NonEmpty(img.thumbnailUrl),
      category := Pictures)
  }

  /** A document record as an item of the requested view. Its display URL
      is the empty string: it must always be resolved on demand. */
  function DocumentToMediaItem(doc: RagDocument, category: Category): (m: MediaItem)
    ensures m.category == category
    ensures m.id == doc.documentId && m.filename == doc.filename && m.title == doc.filename
    ensures m.uploadDate == doc.createdAt
    ensures m.fileSize == 0 && m.signedUrl == Some("") && !Truthy(m.signedUrl)
    ensures m.description.None? && m.thumbnailUrl.None?
    ensures m.contentType == InferContentType(doc.filename)
  {
    MediaItem(
      id := doc.documentId,
      filename := doc.filename,
      title := doc.filename,
      description := None,
      uploadDate := doc.createdAt,
      fileSize := 0,
      contentType := InferContentType(doc.filename),
      thumbnailUrl := None,
      signedUrl := Some(""),
      category := category)
  }

  /** An item built from a search hit, stamped with the current time `now`.
      The storage key is accepted but not used, and no display URL is set. */
  function CreateMediaItemFromSearch(id: string, filename: string, s3Key: string,
                                     category: Category, description: Option<string>,
                                     now: int): (m: MediaItem)
    ensures m.id == id && m.filename == filename && m.title == filename
    ensures m.description == description && m.category == category
    ensures m.uploadDate == now && m.fileSize == 0
    ensures m.signedUrl.None? && m.thumbnailUrl.None?
    ensures m.contentType == InferContentType(filename)
  {
    MediaItem(
      id := id,
      filename := filename,
      title := filename,
      description := description,
      uploadDate := now,
      fileSize := 0,
      contentType := InferContentType(filename),
      thumbnailUrl := None,
      signedUrl := None,
      category := category)
  }

  /** A search hit for `photo.png` is a PNG picture of unknown size with no
      display URL. */
  lemma SearchItemExample(now: int)
    ensures var m := CreateMediaItemFromSearch("id1", "photo.png", "key/path", Pictures, None, now);
      && m.contentType == "image/png" && m.category == Pictures
      && m.fileSize == 0 && m.signedUrl.None?
  {
    assert Text.LastSegment("photo.png") == "png";
    assert Text.LowerAscii("png") == "png";
  }

  /** An image record with no stored type and an empty caption and
      thumbnail: the type is inferred and the empty strings become absent. */
  lemma ImageDefaultsExample()
    ensures var m := ImageToMediaItem(RagImage("i1", "scan.JPG", "s3://b/scan.JPG", Some(""), Some(""), None, None, 5));
      && m.contentType == "image/jpeg" && m.fileSize == 0
      && m.description.None? && m.thumbnailUrl.None? && m.signedUrl.None?
  {
    assert Text.LastSegment("scan.JPG") == "JPG";
    assert Text.LowerAscii("JPG") == "jpg";
  }
}
