/** The records of the media catalog: the uniform display item, the page
    handed to the UI, and the two raw record shapes returned by the
    content-indexing API. Timestamps are integers (milliseconds since the
    epoch) instead of ISO-8601 strings. */
module MediaTypes {
  import opened Wrappers

  /** The three catalog categories; fixed when an item is created. */
  datatype Category = Pictures | Videos | Documents

  /** The uniform display record. */
  datatype MediaItem = MediaItem(
    id: string,
    filename: string,
    title: string,
    description: Option<string>,
    uploadDate: int,
    fileSize: int,
    contentType: string,
    thumbnailUrl: Option<string>,
    signedUrl: Option<string>,
    category: Category)

  /** A result envelope: the items and whether more pages exist. */
  datatype MediaPage = MediaPage(items: seq<MediaItem>, hasMore: bool)

  /** An image record of the indexing API; optional fields are `Option`s. */
  datatype RagImage = RagImage(
    imageId: string,
    filename: string,
    s3Uri: string,
    thumbnailUrl: Option<string>,
    caption: Option<string>,
    contentType: Option<string>,
    fileSize: Option<int>,
    createdAt: int)

  /** A document record of the indexing API. */
  datatype RagDocument = RagDocument(
    documentId: string,
    filename: string,
    docType: string,
    mediaType: Option<string>,
    inputS3Uri: string,
    previewUrl: Option<string>,
    status: string,
    createdAt: int)

  /** One page of the paginated image listing and its continuation cursor. */
  datatype ImagePage = ImagePage(items: seq<RagImage>, nextToken: Option<string>)

  /** JavaScript truthiness of an optional string: present and non-empty. */
  predicate Truthy(s: Option<string>) {
    s.Some? && s.value != ""
  }
}
