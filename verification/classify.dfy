/** The category classifier: which listed documents the catalog shows at
    all, and how it splits them into the videos and documents views. */
module Classify {
  import opened Wrappers
  import opened Text
  import opened MediaTypes
  import opened Normalize
  import opened DateOrder

  /** The elements of `s` that satisfy `p`, in their order in `s`. */
  function Filter<T(!new)>(p: T -> bool, s: seq<T>): (r: seq<T>)
    ensures |r| <= |s|
    ensures forall x :: x in r <==> x in s && p(x)
    ensures forall x :: multiset(r)[x] == (if p(x) then multiset(s)[x] else 0)
  {
    if |s| == 0 then []
    else
      assert s == [s[0]] + s[1..];
      (if p(s[0]) then [s[0]] else []) + Filter(p, s[1..])
  }

  // ---------------------------------------------------------------------
  // Dated letters: names like 2024-01-15_notes.md are generated artifacts.

  /** `YYYY-MM-DD` at the start of `f`. */
  predicate DatePrefix(f: string) {
    && |f| >= 10
    && IsDigit(f[0]) && IsDigit(f[1]) && IsDigit(f[2]) && IsDigit(f[3])
    && f[4] == '-'
    && IsDigit(f[5]) && IsDigit(f[6])
    && f[7] == '-'
    && IsDigit(f[8]) && IsDigit(f[9])
  }

  predicate IsSeparator(c: char) {
    c == '_' || c == '-' || c == '.'
  }

  /** The two letter extensions; the comparison is case-sensitive. */
  predicate IsLetterExtension(t: string) {
    t == ".md" || t == ".pdf"
  }

  /** Reference reading of the optional free-text part of the pattern: a
      separator at index 10, then one or more characters up to index `k`
      (none a line terminator), then a letter extension from `k` on. */
  predicate FreeTextEndsAt(f: string, k: int) {
    && 11 < k <= |f|
    && IsSeparator(f[10])
    && NoLineTerminator(f[11..k])
    && IsLetterExtension(f[k..])
  }

  /** The dated-letter pattern as the regular expression states it, with
      the free text's end as an existential split point. */
  ghost predicate DatedLetterPattern(f: string) {
    && DatePrefix(f)
    && (IsLetterExtension(f[10..]) || exists k :: FreeTextEndsAt(f, k))
  }

  /** The free text and extension after the separator: at least one
      character before a letter extension, no line terminator anywhere. */
  predicate FreeTextThenExtension(t: string) {
    && NoLineTerminator(t)
    && ((|t| > 3 && EndsWith(t, ".md")) || (|t| > 4 && EndsWith(t, ".pdf")))
  }

  /** The hand-written matcher: date, then either the extension at once or
      a separator followed by free text and the extension. */
  predicate IsDatedLetterName(f: string) {
    && DatePrefix(f)
    && var rest := f[10..];
       IsLetterExtension(rest)
       || (|rest| > 0 && IsSeparator(rest[0]) && FreeTextThenExtension(rest[1..]))
  }

  /** With a separator at index 10, the matcher's free-text test and the
      pattern's split point agree. */
  lemma FreeTextSplit(f: string)
    requires |f| > 10 && IsSeparator(f[10])
    ensures FreeTextThenExtension(f[11..]) <==> exists k :: FreeTextEndsAt(f, k)
  {
    if FreeTextThenExtension(f[11..]) {
      FreeTextSplitPoint(f);
    }
    if k :| FreeTextEndsAt(f, k) {
      FreeTextFromSplit(f, k);
    }
  }

  /** A free text accepted by the matcher ends where its extension begins. */
  lemma FreeTextSplitPoint(f: string)
    requires |f| > 10 && IsSeparator(f[10]) && FreeTextThenExtension(f[11..])
    ensures exists k :: FreeTextEndsAt(f, k)
  {
    var t := f[11..];
    var k := if |t| > 3 && EndsWith(t, ".md") then |f| - 3 else |f| - 4;
    assert f[11..k] == t[..k - 11];
    assert f[k..] == t[k - 11..];
    assert FreeTextEndsAt(f, k);
  }

  /** A split point of the pattern makes the matcher's free-text test hold. */
  lemma FreeTextFromSplit(f: string, k: int)
    requires FreeTextEndsAt(f, k)
    ensures FreeTextThenExtension(f[11..])
  {
    var t := f[11..];
    assert t == f[11..k] + f[k..];
    assert NoLineTerminator(t) by {
      forall i | 0 <= i < |t| ensures !IsLineTerminator(t[i]) {
        if i < k - 11 {
          assert t[i] == f[11..k][i];
        } else {
          assert t[i] == f[k..][i - (k - 11)];
        }
      }
    }
    assert EndsWith(t, f[k..]);
  }

  /** The matcher accepts exactly the names the pattern describes. */
  lemma DatedLetterMatcherCorrect(f: string)
    ensures IsDatedLetterName(f) <==> DatedLetterPattern(f)
  {
    if DatePrefix(f) && |f| > 10 && IsSeparator(f[10]) {
      FreeTextSplit(f);
      assert f[10..][1..] == f[11..];
    }
  }

  /** A separator and free text before the extension. */
  lemma DatedLetterWithText()
    ensures IsDatedLetterName("2024-01-15_notes.md")
  {
    assert "2024-01-15_notes.md"[10..][1..] == "notes.md";
    assert EndsWith("notes.md", ".md");
  }

  /** Free text may itself contain dashes. */
  lemma DatedLetterWithDashedText()
    ensures IsDatedLetterName("2024-01-15-report-final.pdf")
  {
    assert "2024-01-15-report-final.pdf"[10..][1..] == "report-final.pdf";
    DashedFreeText();
  }

  /** The free text of the dashed example is accepted. */
  lemma DashedFreeText()
    ensures FreeTextThenExtension("report-final.pdf")
  {
    assert EndsWith("report-final.pdf", ".pdf");
  }

  /** The free text is optional as a whole. */
  lemma DatedLetterBare()
    ensures IsDatedLetterName("2024-01-15.md")
  {
    assert "2024-01-15.md"[10..] == ".md";
  }

  /** The date must open the name. */
  lemma DatedLetterDateFirst()
    ensures !IsDatedLetterName("report-2024-01-15.pdf")
  {
    assert !IsDigit('r');
  }

  /** The extension is case-sensitive. */
  lemma DatedLetterCaseSensitive()
    ensures !IsDatedLetterName("2024-01-15.MD")
  {
    assert "2024-01-15.MD"[10..] == ".MD";
  }

  /** Once a separator is written, at least one character of free text
      must follow it. */
  lemma DatedLetterNeedsText()
    ensures !IsDatedLetterName("2024-01-15_.md")
  {
    assert "2024-01-15_.md"[10..] == "_.md";
    assert "2024-01-15_.md"[10..][1..] == ".md";
  }

  // ---------------------------------------------------------------------
  // The listing filter applied to every fetched document list.

  /** Whether a listed document is shown at all: indexed, and not a dated
      letter. */
  predicate Listable(d: RagDocument) {
    d.status == "INDEXED" && !IsDatedLetterName(d.filename)
  }

  /** The documents of a listing that the catalog keeps. */
  function FilterListable(docs: seq<RagDocument>): (r: seq<RagDocument>)
    ensures forall d :: d in r <==> d in docs && d.status == "INDEXED" && !DatedLetterPattern(d.filename)
    ensures forall d :: multiset(r)[d] == (if Listable(d) then multiset(docs)[d] else 0)
  {
    assert forall d: RagDocument :: IsDatedLetterName(d.filename) <==> DatedLetterPattern(d.filename) by {
      forall d: RagDocument ensures IsDatedLetterName(d.filename) <==> DatedLetterPattern(d.filename) {
        DatedLetterMatcherCorrect(d.filename);
      }
    }
    Filter(Listable, docs)
  }

  /** A date later in the name does not make it a dated letter. */
  lemma ListableExample()
    ensures Listable(RagDocument("d1", "report-2024-01-15.pdf", "document", None, "s3://b/r.pdf", None, "INDEXED", 0))
    ensures !Listable(RagDocument("d2", "2024-01-15_notes.md", "document", None, "s3://b/n.md", None, "INDEXED", 0))
    ensures !Listable(RagDocument("d3", "report.pdf", "document", None, "s3://b/r.pdf", None, "PROCESSING", 0))
  {
    DatedLetterDateFirst();
    DatedLetterWithText();
  }

  // ---------------------------------------------------------------------
  // Videos and documents views.

  /** A video file name, whatever the case of its extension. */
  predicate HasVideoExtension(f: string) {
    var g := LowerAscii(f);
    EndsWith(g, ".mp4") || EndsWith(g, ".webm") || EndsWith(g, ".mov")
    || EndsWith(g, ".avi") || EndsWith(g, ".mkv")
  }

  /** Tagged as video media, or named like a video. */
  predicate IsVideo(d: RagDocument) {
    (d.docType == "media" && d.mediaType == Some("video")) || HasVideoExtension(d.filename)
  }

  /** A document with no media tag that is not named like a video. */
  predicate IsDocument(d: RagDocument) {
    d.docType == "document" && !Truthy(d.mediaType) && !HasVideoExtension(d.filename)
  }

  /** The two views exclude each other record by record. */
  lemma VideoDocumentExclusive(d: RagDocument)
    ensures !(IsVideo(d) && IsDocument(d))
  {
  }

  /** The video-extension test ignores the case of the name. */
  lemma HasVideoExtensionCaseInsensitive(f: string, g: string)
    requires LowerAscii(f) == LowerAscii(g)
    ensures HasVideoExtension(f) == HasVideoExtension(g)
  {
  }

  /** The documents of `docs` as items of `category`, in order. */
  function ToItems(docs: seq<RagDocument>, category: Category): (r: seq<MediaItem>)
    ensures |r| == |docs|
    ensures forall i :: 0 <= i < |docs| ==> r[i] == DocumentToMediaItem(docs[i], category)
  {
    seq(|docs|, i requires 0 <= i < |docs| => DocumentToMediaItem(docs[i], category))
  }

  /** One view: the kept documents as items of `category`, newest first,
      never paginated. */
  function ViewOf(docs: seq<RagDocument>, keep: RagDocument -> bool, category: Category): (p: MediaPage)
    ensures !p.hasMore
    ensures SortedByDate(p.items)
    ensures |p.items| == |Filter(keep, docs)|
    ensures multiset(p.items) == multiset(ToItems(Filter(keep, docs), category))
    ensures forall t :: DatedAt(p.items, t) == DatedAt(ToItems(Filter(keep, docs), category), t)
    ensures forall m :: m in p.items <==>
      exists d :: d in docs && keep(d) && m == DocumentToMediaItem(d, category)
    ensures forall m :: m in p.items ==>
      m.category == category && m.fileSize == 0 && m.signedUrl == Some("")
  {
    ViewMembers(docs, keep, category);
    ViewItemsShape(docs, keep, category);
    SortByDateStableAll(ToItems(Filter(keep, docs), category));
    MediaPage(SortByDate(ToItems(Filter(keep, docs), category)), false)
  }

  /** Membership in a view, for every item at once. */
  lemma ViewMembers(docs: seq<RagDocument>, keep: RagDocument -> bool, category: Category)
    ensures forall m :: m in SortByDate(ToItems(Filter(keep, docs), category)) <==>
      exists d :: d in docs && keep(d) && m == DocumentToMediaItem(d, category)
  {
    forall m ensures m in SortByDate(ToItems(Filter(keep, docs), category)) <==>
        exists d :: d in docs && keep(d) && m == DocumentToMediaItem(d, category) {
      ViewMember(docs, keep, category, m);
    }
  }

  /** Every item of a view has the view's category, size 0 and the empty
      signed URL. */
  lemma ViewItemsShape(docs: seq<RagDocument>, keep: RagDocument -> bool, category: Category)
    ensures forall m :: m in SortByDate(ToItems(Filter(keep, docs), category)) ==>
      m.category == category && m.fileSize == 0 && m.signedUrl == Some("")
  {
    forall m | m in SortByDate(ToItems(Filter(keep, docs), category))
      ensures m.category == category && m.fileSize == 0 && m.signedUrl == Some("") {
      ViewMember(docs, keep, category, m);
    }
  }

  /** The items made from `docs` are the images of its documents. */
  lemma ToItemsMember(docs: seq<RagDocument>, category: Category, m: MediaItem)
    ensures m in ToItems(docs, category) <==> exists d :: d in docs && m == DocumentToMediaItem(d, category)
  {
    var items := ToItems(docs, category);
    if m in items {
      var i :| 0 <= i < |items| && items[i] == m;
      assert docs[i] in docs;
    }
    if d :| d in docs && m == DocumentToMediaItem(d, category) {
      var i :| 0 <= i < |docs| && docs[i] == d;
      assert items[i] == m;
    }
  }

  /** An item of a view is the image of a kept document, and back. */
  lemma ViewMember(docs: seq<RagDocument>, keep: RagDocument -> bool, category: Category, m: MediaItem)
    ensures m in SortByDate(ToItems(Filter(keep, docs), category)) <==>
      exists d :: d in docs && keep(d) && m == DocumentToMediaItem(d, category)
  {
    var kept := Filter(keep, docs);
    SortByDateMembers(ToItems(kept, category), m);
    ToItemsMember(kept, category, m);
  }

  /** The videos view of a document list. */
  function BuildVideosPage(docs: seq<RagDocument>): (p: MediaPage)
    ensures !p.hasMore && SortedByDate(p.items)
    ensures |p.items| == |Filter(IsVideo, docs)|
    ensures multiset(p.items) == multiset(ToItems(Filter(IsVideo, docs), Videos))
    ensures forall t :: DatedAt(p.items, t) == DatedAt(ToItems(Filter(IsVideo, docs), Videos), t)
    ensures forall m :: m in p.items <==>
      exists d :: d in docs && IsVideo(d) && m == DocumentToMediaItem(d, Videos)
    ensures forall m :: m in p.items ==>
      m.category == Videos && m.fileSize == 0 && m.signedUrl == Some("")
  {
    ViewOf(docs, IsVideo, Videos)
  }

  /** The documents view of a document list. */
  function BuildDocumentsPage(docs: seq<RagDocument>): (p: MediaPage)
    ensures !p.hasMore && SortedByDate(p.items)
    ensures |p.items| == |Filter(IsDocument, docs)|
    ensures multiset(p.items) == multiset(ToItems(Filter(IsDocument, docs), Documents))
    ensures forall t :: DatedAt(p.items, t) == DatedAt(ToItems(Filter(IsDocument, docs), Documents), t)
    ensures forall m :: m in p.items <==>
      exists d :: d in docs && IsDocument(d) && m == DocumentToMediaItem(d, Documents)
    ensures forall m :: m in p.items ==>
      m.category == Documents && m.fileSize == 0 && m.signedUrl == Some("")
  {
    ViewOf(docs, IsDocument, Documents)
  }

  /** No two documents of a list share an id. */
  predicate DistinctDocumentIds(docs: seq<RagDocument>) {
    forall i, j :: 0 <= i < j < |docs| ==> docs[i].documentId != docs[j].documentId
  }

  /** With distinct document ids, no record shows up in both views. */
  lemma ViewsDisjoint(docs: seq<RagDocument>)
    requires DistinctDocumentIds(docs)
    ensures forall v, w ::
      v in BuildVideosPage(docs).items && w in BuildDocumentsPage(docs).items ==> v.id != w.id
  {
    forall v, w | v in BuildVideosPage(docs).items && w in BuildDocumentsPage(docs).items
      ensures v.id != w.id
    {
      var dv :| dv in docs && IsVideo(dv) && v == DocumentToMediaItem(dv, Videos);
      var dw :| dw in docs && IsDocument(dw) && w == DocumentToMediaItem(dw, Documents);
    }
  }

  /** A `.mp4` upload without a media tag lands in videos only. */
  lemma UntaggedMp4IsVideo()
    ensures var d := RagDocument("v1", "holiday.MP4", "document", None, "s3://b/holiday.MP4", None, "INDEXED", 0);
      IsVideo(d) && !IsDocument(d)
  {
    assert LowerAscii("holiday.MP4") == "holiday.mp4";
  }
}
