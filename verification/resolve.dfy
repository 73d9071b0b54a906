/** The presigned-URL resolver's decisions. Signing itself goes through an
    authenticated backend proxy and is left to the caller: the model stops
    at the storage key to be signed. */
module Resolve {
  import opened Wrappers
  import opened MediaTypes
  import opened Normalize
  import opened S3Uri
  import opened Classify
  import opened MediaCache

  /** How a display URL is obtained: it is already at hand, or the given
      storage key must be signed by the backend proxy. */
  datatype UrlSource = Ready(url: string) | NeedsSignature(key: string)

  /** The decision and the listing request it waited for, if any. The cache
      is never written: the resolver has no cache in its result. */
  datatype Resolution = Resolution(source: Result<UrlSource>, request: Option<Request>)

  /** The index of the first document of `docs` with id `id`. */
  function FindDocument(docs: seq<RagDocument>, id: string): (r: Option<nat>)
    ensures r.None? <==> forall d :: d in docs ==> d.documentId != id
    ensures r.Some? ==>
      && r.value < |docs| && docs[r.value].documentId == id
      && forall j :: 0 <= j < r.value ==> docs[j].documentId != id
  {
    if |docs| == 0 then None
    else if docs[0].documentId == id then Some(0)
    else
      assert forall d :: d in docs ==> d == docs[0] || d in docs[1..];
      match FindDocument(docs[1..], id)
      case None => None
      case Some(i) => Some(i + 1)
  }

  /** The document list the resolver consults: the cached one (an empty
      cached list still counts as cached), else a fresh filtered listing. */
  function ConsultedDocuments(c: Cache, fetched: Result<seq<RagDocument>>): (r: Result<seq<RagDocument>>)
    ensures c.documents.Some? ==> r == Ok(c.documents.value)
    ensures c.documents.None? && fetched.Err? ==> r == Err(fetched.error)
    ensures c.documents.None? && fetched.Ok? ==> r == Ok(FilterListable(fetched.value))
  {
    if c.documents.Some? then Ok(c.documents.value)
    else match fetched
      case Err(e) => Err(e)
      case Ok(raw) => Ok(FilterListable(raw))
  }

  /** `resolveSignedUrl`: a truthy signed URL is returned as it is, with no
      request; otherwise the item's record is looked up by id and its
      storage key handed on for signing, failing when no record has the id. */
  function ResolveSignedUrl(c: Cache, item: MediaItem, fetched: Result<seq<RagDocument>>): (r: Resolution)
    ensures Truthy(item.signedUrl) ==> r == Resolution(Ok(Ready(item.signedUrl.value)), None)
    ensures !Truthy(item.signedUrl) ==> (r.request.None? <==> c.documents.Some?)
    ensures !Truthy(item.signedUrl) && r.request.Some? ==> r.request.value == ListDocuments
    ensures r.source.Ok? && r.source.value.Ready? ==> Truthy(item.signedUrl)
    ensures !Truthy(item.signedUrl) ==>
      var docs := ConsultedDocuments(c, fetched);
      && (docs.Err? ==> r.source == Err(docs.error))
      && (docs.Ok? ==>
            && (r.source == Err(DocumentNotFound(item.id)) <==>
                  forall d :: d in docs.value ==> d.documentId != item.id)
            && (r.source.Ok? || r.source == Err(DocumentNotFound(item.id)))
            && (r.source.Ok? ==>
                  exists i :: 0 <= i < |docs.value| && docs.value[i].documentId == item.id
                    && (forall j :: 0 <= j < i ==> docs.value[j].documentId != item.id)
                    && r.source.value == NeedsSignature(S3UriToKey(docs.value[i].inputS3Uri))))
  {
    if Truthy(item.signedUrl) then Resolution(Ok(Ready(item.signedUrl.value)), None)
    else
      var request := if c.documents.Some? then None else Some(ListDocuments);
      match ConsultedDocuments(c, fetched)
      case Err(e) => Resolution(Err(e), request)
      case Ok(docs) =>
        match FindDocument(docs, item.id)
        case None => Resolution(Err(DocumentNotFound(item.id)), request)
        case Some(i) => Resolution(Ok(NeedsSignature(S3UriToKey(docs[i].inputS3Uri))), request)
  }

  /** A picture with a thumbnail resolves at once, to its thumbnail. */
  lemma PictureWithThumbnailIsReady(c: Cache, img: RagImage, fetched: Result<seq<RagDocument>>)
    requires Truthy(img.thumbnailUrl)
    ensures ResolveSignedUrl(c, ImageToMediaItem(img), fetched)
         == Resolution(Ok(Ready(img.thumbnailUrl.value)), None)
  {
  }

  /** An already-signed item is returned as it is, without any request. */
  lemma SignedItemExample(c: Cache, item: MediaItem, fetched: Result<seq<RagDocument>>)
    requires item.signedUrl == Some("https://x")
    ensures ResolveSignedUrl(c, item, fetched) == Resolution(Ok(Ready("https://x")), None)
  {
  }

  /** In a list with distinct ids, the lookup finds a member's own index. */
  lemma FindDocumentDistinct(docs: seq<RagDocument>, k: nat)
    requires k < |docs| && DistinctDocumentIds(docs)
    ensures FindDocument(docs, docs[k].documentId) == Some(k)
  {
    var i := FindDocument(docs, docs[k].documentId);
    assert docs[k] in docs;
    assert i.Some?;
  }

  /** An unsigned item whose id is first found at index `k` of the cached
      list resolves, without a request, to that record's storage key. */
  lemma ResolveFromCache(c: Cache, m: MediaItem, fetched: Result<seq<RagDocument>>, k: nat)
    requires c.documents.Some? && !Truthy(m.signedUrl)
    requires FindDocument(c.documents.value, m.id) == Some(k)
    ensures ResolveSignedUrl(c, m, fetched)
         == Resolution(Ok(NeedsSignature(S3UriToKey(c.documents.value[k].inputS3Uri))), None)
  {
  }

  /** An item of a view is the image of the record at some index. */
  lemma ViewPageIndex(view: Category, docs: seq<RagDocument>, m: MediaItem)
    requires view != Pictures && m in ViewPage(view, docs).items
    ensures exists k :: 0 <= k < |docs| && m == DocumentToMediaItem(docs[k], view)
  {
    ViewPageMember(view, docs, m);
    var d :| d in docs && m == DocumentToMediaItem(d, view);
    var k :| 0 <= k < |docs| && docs[k] == d;
  }

  /** The item of the cached record at index `k` resolves, without a
      request, to that record's storage key when the cached ids are
      distinct. */
  lemma DocumentItemResolves(c: Cache, view: Category, k: nat, fetched: Result<seq<RagDocument>>)
    requires c.documents.Some? && k < |c.documents.value|
    requires DistinctDocumentIds(c.documents.value)
    ensures ResolveSignedUrl(c, DocumentToMediaItem(c.documents.value[k], view), fetched)
         == Resolution(Ok(NeedsSignature(S3UriToKey(c.documents.value[k].inputS3Uri))), None)
  {
    var docs := c.documents.value;
    var m := DocumentToMediaItem(docs[k], view);
    assert m.id == docs[k].documentId;
    assert !Truthy(m.signedUrl);
    FindDocumentDistinct(docs, k);
    ResolveFromCache(c, m, fetched, k);
  }

  /** Every item of a view served from a cache whose document ids are
      distinct resolves without a request, to the storage key of its own
      record: the empty signed URL sends it down the lookup path, and the
      lookup cannot miss. */
  lemma ViewItemsResolveToTheirKey(c: Cache, view: Category, m: MediaItem, fetched: Result<seq<RagDocument>>)
    requires view != Pictures && c.documents.Some?
    requires DistinctDocumentIds(c.documents.value)
    requires m in ViewPage(view, c.documents.value).items
    ensures exists d ::
      && d in c.documents.value && m == DocumentToMediaItem(d, view)
      && ResolveSignedUrl(c, m, fetched) == Resolution(Ok(NeedsSignature(S3UriToKey(d.inputS3Uri))), None)
  {
    var docs := c.documents.value;
    ViewPageIndex(view, docs, m);
    var k :| 0 <= k < |docs| && m == DocumentToMediaItem(docs[k], view);
    DocumentItemResolves(c, view, k, fetched);
    assert docs[k] in docs;
  }
}
