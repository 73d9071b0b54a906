/** The cache store and the stale-while-revalidate orchestrator, as a
    sequential transition system. Every network answer is a parameter: the
    step reports which request it would issue and consumes the answer to
    it. A served-from-cache step instead reports the background refresh it
    spawns; that refresh completes later as a step of its own, against
    whatever the cache holds by then. */
module MediaCache {
  import opened Wrappers
  import opened MediaTypes
  import opened Normalize
  import opened DateOrder
  import opened Diff
  import opened Classify

  /** The page size asked of the paginated image listing. */
  const PageSize: nat := 50

  /** The pictures slot: every item loaded so far and the cursor of the
      next page (`None`: the listing is exhausted). */
  datatype PictureSlot = PictureSlot(items: seq<MediaItem>, nextToken: Option<string>)

  /** Two independent slots; `None` is cold. The documents slot holds the
      filtered document list that both the videos and documents views read. */
  datatype Cache = Cache(pictures: Option<PictureSlot>, documents: Option<seq<RagDocument>>)

  /** The state at start-up. */
  const ColdCache: Cache := Cache(None, None)

  /** The state at start-up satisfies the cache invariant `Valid`. */
  lemma ColdCacheValid()
    ensures Valid(ColdCache)
  {
  }

  /** A request the step waits for. */
  datatype Request = ListImages(limit: nat, cursor: Option<string>) | ListDocuments

  /** A background refresh spawned by a served-from-cache step. */
  datatype Refresh = RefreshPictures | RefreshView(view: Category)

  /** The outcome of one call: the new cache, the page handed back (or the
      failure it rejects with), the request awaited, the refresh spawned. */
  datatype Step = Step(cache: Cache, page: Result<MediaPage>, request: Option<Request>, refresh: Option<Refresh>)

  /** The outcome of a background refresh: the new cache and the page
      pushed to the caller's callback, if it fired. */
  datatype Refreshed = Refreshed(cache: Cache, pushed: Option<MediaPage>)

  /** More pages exist exactly when the cursor is truthy: an empty cursor
      counts as exhausted. */
  function HasMore(cursor: Option<string>): (r: bool)
    ensures r <==> cursor.Some? && |cursor.value| > 0
  {
    Truthy(cursor)
  }

  /** The image records of a page as pictures, in order. */
  function ImageItems(images: seq<RagImage>): (r: seq<MediaItem>)
    ensures |r| == |images|
    ensures forall i :: 0 <= i < |images| ==> r[i] == ImageToMediaItem(images[i])
    ensures forall m :: m in r ==> m.category == Pictures
  {
    seq(|images|, i requires 0 <= i < |images| => ImageToMediaItem(images[i]))
  }

  /** The cached pictures, or none when the slot is cold. */
  function CachedPictures(c: Cache): seq<MediaItem> {
    if c.pictures.Some? then c.pictures.value.items else []
  }

  /** One of the two views over a document list. */
  function ViewPage(view: Category, docs: seq<RagDocument>): MediaPage {
    if view == Videos then BuildVideosPage(docs) else BuildDocumentsPage(docs)
  }

  /** An item of a view is the image of one of the listed documents. */
  lemma ViewPageMember(view: Category, docs: seq<RagDocument>, m: MediaItem)
    requires m in ViewPage(view, docs).items
    ensures view != Pictures ==> exists d :: d in docs && m == DocumentToMediaItem(d, view)
  {
  }

  /** What every reachable cache satisfies: the pictures are stored sorted
      (the source sorts the stored array in place before returning it) and
      are all pictures; every cached document passed the listing filter. */
  predicate Valid(c: Cache) {
    && (c.pictures.Some? ==>
          && SortedByDate(c.pictures.value.items)
          && forall m :: m in c.pictures.value.items ==> m.category == Pictures)
    && (c.documents.Some? ==> forall d :: d in c.documents.value ==> Listable(d))
  }

  // ---------------------------------------------------------------------
  // Pictures

  /** A pictures request. With `loadMore` and a warm slot it fetches the next
      page and appends it; with a warm slot and a callback it serves the
      cache and spawns a refresh; otherwise it fetches the first page and
      replaces the slot. */
  function GetPictures(c: Cache, loadMore: bool, hasCallback: bool, fetched: Result<ImagePage>): (s: Step)
    ensures s.cache.documents == c.documents
    ensures s.request.None? <==> c.pictures.Some? && !loadMore && hasCallback
    ensures s.refresh.Some? <==> s.request.None?
    ensures s.refresh.Some? ==> s.refresh.value == RefreshPictures
    ensures s.page.Ok? ==> SortedByDate(s.page.value.items)
    ensures s.page.Ok? ==> s.cache.pictures.Some? && s.page.value.items == s.cache.pictures.value.items
    // a failed fetch rejects and leaves the cache alone
    ensures s.request.Some? && fetched.Err? ==> s.cache == c && s.page == Err(fetched.error)
    // load more: old items then the new page, the new cursor
    ensures loadMore && c.pictures.Some? ==> s.request == Some(ListImages(PageSize, c.pictures.value.nextToken))
    ensures loadMore && c.pictures.Some? && fetched.Ok? ==>
      && s.cache.pictures.Some?
      && multiset(s.cache.pictures.value.items)
         == multiset(c.pictures.value.items + ImageItems(fetched.value.items))
      && (forall t :: DatedAt(s.cache.pictures.value.items, t)
                      == DatedAt(c.pictures.value.items + ImageItems(fetched.value.items), t))
      && s.cache.pictures.value.nextToken == fetched.value.nextToken
      && s.page.Ok? && s.page.value.hasMore == HasMore(fetched.value.nextToken)
    // serve the cache: its items, its cursor
    ensures s.request.None? ==>
      && s.page.Ok?
      && multiset(s.page.value.items) == multiset(c.pictures.value.items)
      && (forall t :: DatedAt(s.page.value.items, t) == DatedAt(c.pictures.value.items, t))
      && s.page.value.hasMore == HasMore(c.pictures.value.nextToken)
      && s.cache.pictures.value.nextToken == c.pictures.value.nextToken
    // first page: replaces whatever was cached
    ensures (c.pictures.None? || (!loadMore && !hasCallback)) ==> s.request == Some(ListImages(PageSize, None))
    ensures (c.pictures.None? || (!loadMore && !hasCallback)) && fetched.Ok? ==>
      && s.cache.pictures.Some?
      && multiset(s.cache.pictures.value.items) == multiset(ImageItems(fetched.value.items))
      && (forall t :: DatedAt(s.cache.pictures.value.items, t) == DatedAt(ImageItems(fetched.value.items), t))
      && s.cache.pictures.value.nextToken == fetched.value.nextToken
      && s.page.Ok? && s.page.value.hasMore == HasMore(fetched.value.nextToken)
  {
    if loadMore && c.pictures.Some? then
      var slot := c.pictures.value;
      var request := Some(ListImages(PageSize, slot.nextToken));
      match fetched
      case Err(e) => Step(c, Err(e), request, None)
      case Ok(page) =>
        var items := SortByDate(slot.items + ImageItems(page.items));
        SortByDateStableAll(slot.items + ImageItems(page.items));
        Step(c.(pictures := Some(PictureSlot(items, page.nextToken))),
             Ok(MediaPage(items, HasMore(page.nextToken))), request, None)
    else if c.pictures.Some? && hasCallback then
      var slot := c.pictures.value;
      var items := SortByDate(slot.items);
      SortByDateStableAll(slot.items);
      Step(c.(pictures := Some(slot.(items := items))),
           Ok(MediaPage(items, HasMore(slot.nextToken))), None, Some(RefreshPictures))
    else
      var request := Some(ListImages(PageSize, None));
      match fetched
      case Err(e) => Step(c, Err(e), request, None)
      case Ok(page) =>
        var items := SortByDate(ImageItems(page.items));
        SortByDateStableAll(ImageItems(page.items));
        Step(c.(pictures := Some(PictureSlot(items, page.nextToken))),
             Ok(MediaPage(items, HasMore(page.nextToken))), request, None)
  }

  /** The background refresh of pictures completing with `fetched`: the
      first page replaces the slot and reaches the callback exactly when it
      has news against what the slot holds now (nothing, if it was
      invalidated meanwhile); otherwise nothing changes. */
  function CompletePictureRefresh(c: Cache, fetched: Result<ImagePage>): (r: Refreshed)
    ensures r.cache.documents == c.documents
    ensures r.pushed.Some? <==>
      fetched.Ok? && HasNewItems(CachedPictures(c), ImageItems(fetched.value.items))
    ensures r.pushed.None? ==> r.cache == c
    ensures r.pushed.Some? ==>
      && r.cache.pictures == Some(PictureSlot(r.pushed.value.items, fetched.value.nextToken))
      && multiset(r.pushed.value.items) == multiset(ImageItems(fetched.value.items))
      && (forall t :: DatedAt(r.pushed.value.items, t) == DatedAt(ImageItems(fetched.value.items), t))
      && SortedByDate(r.pushed.value.items)
      && r.pushed.value.hasMore == HasMore(fetched.value.nextToken)
  {
    match fetched
    case Err(_) => Refreshed(c, None)
    case Ok(page) =>
      var latest := ImageItems(page.items);
      if HasNewItems(CachedPictures(c), latest) then
        var items := SortByDate(latest);
        SortByDateStableAll(latest);
        Refreshed(c.(pictures := Some(PictureSlot(items, page.nextToken))),
                  Some(MediaPage(items, HasMore(page.nextToken))))
      else Refreshed(c, None)
  }

  // ---------------------------------------------------------------------
  // Videos and documents

  /** A videos or documents request. With a warm slot and a callback it
      serves the view of the cached list and spawns a refresh; otherwise it
      fetches the listing, filters it, and replaces the slot. */
  function GetView(c: Cache, view: Category, hasCallback: bool, fetched: Result<seq<RagDocument>>): (s: Step)
    requires view != Pictures
    ensures s.cache.pictures == c.pictures
    ensures s.request.None? <==> c.documents.Some? && hasCallback
    ensures s.refresh.Some? <==> s.request.None?
    ensures s.refresh.Some? ==> s.refresh.value == RefreshView(view)
    ensures s.request.Some? ==> s.request.value == ListDocuments
    ensures s.request.None? ==> s.cache == c && s.page == Ok(ViewPage(view, c.documents.value))
    ensures s.request.Some? && fetched.Err? ==> s.cache == c && s.page == Err(fetched.error)
    ensures s.request.Some? && fetched.Ok? ==>
      && s.cache.documents == Some(FilterListable(fetched.value))
      && s.page == Ok(ViewPage(view, s.cache.documents.value))
    ensures s.page.Ok? ==> !s.page.value.hasMore && SortedByDate(s.page.value.items)
    ensures s.page.Ok? ==> forall m :: m in s.page.value.items ==> m.category == view
  {
    if c.documents.Some? && hasCallback then
      Step(c, Ok(ViewPage(view, c.documents.value)), None, Some(RefreshView(view)))
    else
      match fetched
      case Err(e) => Step(c, Err(e), Some(ListDocuments), None)
      case Ok(raw) =>
        var docs := FilterListable(raw);
        Step(c.(documents := Some(docs)), Ok(ViewPage(view, docs)), Some(ListDocuments), None)
  }

  /** The background refresh of a view completing with `fetched`: the
      fresh view is compared with the view of what the slot holds now, and
      on news the whole slot is replaced and the fresh view pushed. */
  function CompleteViewRefresh(c: Cache, view: Category, fetched: Result<seq<RagDocument>>): (r: Refreshed)
    requires view != Pictures
    ensures r.cache.pictures == c.pictures
    ensures r.pushed.Some? <==>
      && fetched.Ok?
      && HasNewItems(ViewPage(view, c.documents.GetOr([])).items,
                     ViewPage(view, FilterListable(fetched.value)).items)
    ensures r.pushed.None? ==> r.cache == c
    ensures r.pushed.Some? ==>
      && r.cache.documents == Some(FilterListable(fetched.value))
      && r.pushed == Some(ViewPage(view, r.cache.documents.value))
  {
    match fetched
    case Err(_) => Refreshed(c, None)
    case Ok(raw) =>
      var docs := FilterListable(raw);
      var latest := ViewPage(view, docs);
      var current := ViewPage(view, c.documents.GetOr([]));
      if HasNewItems(current.items, latest.items) then
        Refreshed(c.(documents := Some(docs)), Some(latest))
      else Refreshed(c, None)
  }

  // ---------------------------------------------------------------------
  // The public entry point and the clearing operations

  /** `getMediaItems`: pictures go to the paginated slot, videos and
      documents to the shared document slot (where `loadMore` means nothing). */
  function GetMediaItems(c: Cache, category: Category, loadMore: bool, hasCallback: bool,
                         images: Result<ImagePage>, documents: Result<seq<RagDocument>>): (s: Step)
    ensures category == Pictures ==> s.cache.documents == c.documents
    ensures category != Pictures ==> s.cache.pictures == c.pictures
    ensures s.page.Ok? ==> SortedByDate(s.page.value.items)
  {
    if category == Pictures then GetPictures(c, loadMore, hasCallback, images)
    else GetView(c, category, hasCallback, documents)
  }

  /** `invalidateMediaCache`: both slots cold. */
  function InvalidateMediaCache(c: Cache): (r: Cache)
    ensures r.pictures.None? && r.documents.None?
  {
    ColdCache
  }

  /** `resetPagination`: the pictures slot cold, the documents slot kept. */
  function ResetPagination(c: Cache): (r: Cache)
    ensures r.pictures.None?
    ensures r.documents == c.documents
  {
    if c.pictures.Some? then c.(pictures := None) else c
  }

  // ---------------------------------------------------------------------
  // Properties of the transition system

  /** Every item of a pictures page is in the old slot or the fetched page. */
  lemma PicturesPageOrigin(c: Cache, loadMore: bool, hasCallback: bool, fetched: Result<ImagePage>, m: MediaItem)
    requires GetPictures(c, loadMore, hasCallback, fetched).page.Ok?
    requires m in GetPictures(c, loadMore, hasCallback, fetched).page.value.items
    ensures (c.pictures.Some? && m in c.pictures.value.items)
         || (fetched.Ok? && m in ImageItems(fetched.value.items))
  {
    var s := GetPictures(c, loadMore, hasCallback, fetched);
    assert m in multiset(s.page.value.items);
  }

  /** Every call keeps the cache valid. */
  lemma GetMediaItemsPreservesValid(c: Cache, category: Category, loadMore: bool, hasCallback: bool,
                                    images: Result<ImagePage>, documents: Result<seq<RagDocument>>)
    requires Valid(c)
    ensures Valid(GetMediaItems(c, category, loadMore, hasCallback, images, documents).cache)
  {
    var s := GetMediaItems(c, category, loadMore, hasCallback, images, documents);
    if category == Pictures && s.cache.pictures != c.pictures {
      forall m | m in s.cache.pictures.value.items ensures m.category == Pictures {
        PicturesPageOrigin(c, loadMore, hasCallback, images, m);
      }
    }
  }

  /** Every call hands back items of the requested category only. */
  lemma ServedItemsCarryCategory(c: Cache, category: Category, loadMore: bool, hasCallback: bool,
                                 images: Result<ImagePage>, documents: Result<seq<RagDocument>>)
    requires Valid(c)
    ensures var s := GetMediaItems(c, category, loadMore, hasCallback, images, documents);
      s.page.Ok? ==> forall m :: m in s.page.value.items ==> m.category == category
  {
    var s := GetMediaItems(c, category, loadMore, hasCallback, images, documents);
    if category == Pictures && s.page.Ok? {
      forall m | m in s.page.value.items ensures m.category == Pictures {
        PicturesPageOrigin(c, loadMore, hasCallback, images, m);
      }
    }
  }

  /** The background refresh of the pictures keeps the cache valid: a
      replaced slot holds the fresh page sorted, all pictures. */
  lemma PictureRefreshPreservesValid(c: Cache, images: Result<ImagePage>)
    requires Valid(c)
    ensures Valid(CompletePictureRefresh(c, images).cache)
  {
    var r := CompletePictureRefresh(c, images);
    if r.pushed.Some? {
      var latest := ImageItems(images.value.items);
      forall m | m in r.cache.pictures.value.items ensures m.category == Pictures {
        assert m in multiset(latest);
      }
    }
  }

  /** The background refresh of a view keeps the cache valid: the pictures
      slot is untouched and a replaced documents slot is a filtered listing. */
  lemma ViewRefreshPreservesValid(c: Cache, view: Category, documents: Result<seq<RagDocument>>)
    requires Valid(c) && view != Pictures
    ensures Valid(CompleteViewRefresh(c, view, documents).cache)
  {
  }

  /** The clearing operations keep the cache valid. */
  lemma ClearingPreservesValid(c: Cache)
    requires Valid(c)
    ensures Valid(InvalidateMediaCache(c)) && Valid(ResetPagination(c))
  {
  }

  /** On a valid cache, serving pictures from the cache changes nothing:
      the stored items are already in order, and sorting them again leaves
      them as they are. */
  lemma ServingCachedPicturesKeepsCache(c: Cache, fetched: Result<ImagePage>)
    requires Valid(c) && c.pictures.Some?
    ensures GetPictures(c, false, true, fetched).cache == c
  {
    SortByDateOfSorted(c.pictures.value.items);
  }

  /** Loading more on a cold slot is an ordinary first-page fetch. */
  lemma LoadMoreWhenColdIsFirstFetch(c: Cache, hasCallback: bool, fetched: Result<ImagePage>)
    requires c.pictures.None?
    ensures GetPictures(c, true, hasCallback, fetched) == GetPictures(c, false, false, fetched)
  {
  }

  /** On an exhausted slot, loading more asks for the first page again (the
      cursor passed on is the empty one) and appends whatever comes back. */
  lemma LoadMoreWhenExhaustedRestarts(c: Cache, hasCallback: bool, fetched: Result<ImagePage>)
    requires c.pictures.Some? && c.pictures.value.nextToken.None?
    ensures GetPictures(c, true, hasCallback, fetched).request == Some(ListImages(PageSize, None))
  {
  }

  /** After invalidation a call depends on nothing cached before it. */
  lemma InvalidationForgetsHistory(c1: Cache, c2: Cache, category: Category, loadMore: bool, hasCallback: bool,
                                   images: Result<ImagePage>, documents: Result<seq<RagDocument>>)
    ensures GetMediaItems(InvalidateMediaCache(c1), category, loadMore, hasCallback, images, documents)
         == GetMediaItems(InvalidateMediaCache(c2), category, loadMore, hasCallback, images, documents)
  {
  }

  /** After a reset, loading more starts over from the first page. */
  lemma ResetRestartsPagination(c: Cache, hasCallback: bool, fetched: Result<ImagePage>)
    ensures GetPictures(ResetPagination(c), true, hasCallback, fetched).request == Some(ListImages(PageSize, None))
  {
  }

  /** A documents view served from a valid cache or a fresh listing shows
      only indexed documents that are not dated letters, each from the slot
      as it stands after the call. */
  lemma ServedViewsAreListable(c: Cache, view: Category, hasCallback: bool, fetched: Result<seq<RagDocument>>)
    requires Valid(c) && view != Pictures
    ensures var s := GetView(c, view, hasCallback, fetched);
      s.page.Ok? ==>
        && s.cache.documents.Some?
        && forall m :: m in s.page.value.items ==>
             exists d :: d in s.cache.documents.value && Listable(d) && m == DocumentToMediaItem(d, view)
  {
    var s := GetView(c, view, hasCallback, fetched);
    if s.page.Ok? {
      var docs := s.cache.documents.value;
      forall m | m in s.page.value.items
        ensures exists d :: d in docs && Listable(d) && m == DocumentToMediaItem(d, view)
      {
        var d :| d in docs && m == DocumentToMediaItem(d, view);
        if s.request.Some? {
          assert multiset(docs)[d] > 0;
        }
      }
    }
  }

  /** The known race: a refresh that completes after an invalidation
      repopulates the slot whenever the fresh first page is not empty. */
  lemma RefreshAfterInvalidationRepopulates(c: Cache, page: ImagePage)
    requires |page.items| > 0
    ensures CompletePictureRefresh(InvalidateMediaCache(c), Ok(page)).cache.pictures.Some?
  {
  }

  /** A refresh that brings back the cached pictures in any order is a
      no-op: the callback does not fire and the cache stays as it is. */
  lemma RefreshWithSamePicturesIsQuiet(c: Cache, page: ImagePage)
    requires c.pictures.Some?
    requires multiset(ImageItems(page.items)) == multiset(c.pictures.value.items)
    ensures CompletePictureRefresh(c, Ok(page)) == Refreshed(c, None)
  {
    HasNewItemsIrreflexive(c.pictures.value.items);
    HasNewItemsPermutation(c.pictures.value.items, c.pictures.value.items,
                           c.pictures.value.items, ImageItems(page.items));
  }
}
