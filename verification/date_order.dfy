/** Newest-first ordering of items. The source hands a descending
    comparator to the built-in array sort, which is stable, so the model is
    a stable insertion sort on `uploadDate`. */
module DateOrder {
  import opened MediaTypes

  /** Non-increasing in `uploadDate`. */
  predicate SortedByDate(s: seq<MediaItem>) {
    forall i, j :: 0 <= i < j < |s| ==> s[i].uploadDate >= s[j].uploadDate
  }

  /** The items of `s` dated `d`, in their order in `s`. */
  function DatedAt(s: seq<MediaItem>, d: int): (r: seq<MediaItem>)
    ensures |r| <= |s|
  {
    if |s| == 0 then []
    else if s[0].uploadDate == d then [s[0]] + DatedAt(s[1..], d)
    else DatedAt(s[1..], d)
  }

  /** Places `x` before the first item of `t` that is not newer than it. */
  function Insert(x: MediaItem, t: seq<MediaItem>): (r: seq<MediaItem>)
    ensures multiset(r) == multiset(t) + multiset{x}
    ensures |r| == |t| + 1
  {
    if |t| == 0 || x.uploadDate >= t[0].uploadDate then [x] + t
    else
      assert t == [t[0]] + t[1..];
      [t[0]] + Insert(x, t[1..])
  }

  /** The tail of a sorted list is sorted. */
  lemma SortedTail(s: seq<MediaItem>)
    requires |s| > 0 && SortedByDate(s)
    ensures SortedByDate(s[1..])
  {
    forall i, j | 0 <= i < j < |s[1..]|
      ensures s[1..][i].uploadDate >= s[1..][j].uploadDate
    {
      assert s[1..][i] == s[i + 1] && s[1..][j] == s[j + 1];
    }
  }

  /** An item no older than every item of a sorted list can head it. */
  lemma ConsSorted(h: MediaItem, rest: seq<MediaItem>)
    requires SortedByDate(rest)
    requires forall y :: y in rest ==> h.uploadDate >= y.uploadDate
    ensures SortedByDate([h] + rest)
  {
    var r := [h] + rest;
    forall i, j | 0 <= i < j < |r| ensures r[i].uploadDate >= r[j].uploadDate {
      assert r[j] == rest[j - 1];
      if i == 0 {
        assert r[j] in rest;
      } else {
        assert r[i] == rest[i - 1];
      }
    }
  }

  /** A date no older than `x` and every item of `t` bounds the insertion. */
  lemma InsertBounded(x: MediaItem, t: seq<MediaItem>, b: int)
    requires b >= x.uploadDate
    requires forall k :: 0 <= k < |t| ==> b >= t[k].uploadDate
    ensures forall y :: y in Insert(x, t) ==> b >= y.uploadDate
  {
    forall y | y in Insert(x, t) ensures b >= y.uploadDate {
      assert y in multiset(Insert(x, t));
      if y != x {
        assert y in multiset(t);
        var k :| 0 <= k < |t| && t[k] == y;
      }
    }
  }

  /** Inserting into a sorted list keeps it sorted. */
  lemma {:induction false} InsertSorted(x: MediaItem, t: seq<MediaItem>)
    requires SortedByDate(t)
    ensures SortedByDate(Insert(x, t))
  {
    if |t| == 0 || x.uploadDate >= t[0].uploadDate {
    } else {
      SortedTail(t);
      InsertSorted(x, t[1..]);
      assert forall k :: 0 <= k < |t[1..]| ==> t[0].uploadDate >= t[1..][k].uploadDate by {
        forall k | 0 <= k < |t[1..]| ensures t[0].uploadDate >= t[1..][k].uploadDate {
          assert t[1..][k] == t[k + 1];
        }
      }
      InsertBounded(x, t[1..], t[0].uploadDate);
      ConsSorted(t[0], Insert(x, t[1..]));
    }
  }

  /** The items newest first; items with equal dates keep their order. */
  function SortByDate(s: seq<MediaItem>): (r: seq<MediaItem>)
    ensures multiset(r) == multiset(s)
    ensures |r| == |s|
    ensures SortedByDate(r)
  {
    if |s| == 0 then []
    else
      assert s == [s[0]] + s[1..];
      var tail := SortByDate(s[1..]);
      InsertSorted(s[0], tail);
      Insert(s[0], tail)
  }

  /** Inserting into a list that `x` already heads leaves it alone. */
  lemma InsertAtHead(x: MediaItem, t: seq<MediaItem>)
    requires SortedByDate([x] + t)
    ensures Insert(x, t) == [x] + t
  {
    if |t| > 0 {
      assert ([x] + t)[0] == x && ([x] + t)[1] == t[0];
      assert x.uploadDate >= t[0].uploadDate;
    }
  }

  /** A sorted list is its own sort. */
  lemma {:induction false} SortByDateOfSorted(s: seq<MediaItem>)
    requires SortedByDate(s)
    ensures SortByDate(s) == s
  {
    if |s| > 0 {
      SortedTail(s);
      SortByDateOfSorted(s[1..]);
      assert s == [s[0]] + s[1..];
      InsertAtHead(s[0], s[1..]);
    }
  }

  /** Sorting twice is sorting once. */
  lemma SortByDateIdempotent(s: seq<MediaItem>)
    ensures SortByDate(SortByDate(s)) == SortByDate(s)
  {
    SortByDateOfSorted(SortByDate(s));
  }

  /** Inserting `x` adds it in front of the items of its own date and
      changes no other date's items. */
  lemma {:induction false} InsertDatedAt(x: MediaItem, t: seq<MediaItem>, d: int)
    ensures DatedAt(Insert(x, t), d) == (if x.uploadDate == d then [x] else []) + DatedAt(t, d)
  {
    if |t| == 0 || x.uploadDate >= t[0].uploadDate {
      assert ([x] + t)[1..] == t;
    } else {
      var rest := Insert(x, t[1..]);
      assert ([t[0]] + rest)[1..] == rest;
      InsertDatedAt(x, t[1..], d);
    }
  }

  /** Stability: for every date, the items carrying it keep their relative
      order through the sort. */
  lemma {:induction false} SortByDateStable(s: seq<MediaItem>, d: int)
    ensures DatedAt(SortByDate(s), d) == DatedAt(s, d)
  {
    if |s| > 0 {
      SortByDateStable(s[1..], d);
      InsertDatedAt(s[0], SortByDate(s[1..]), d);
    }
  }

  /** Stability for every date at once. */
  lemma SortByDateStableAll(s: seq<MediaItem>)
    ensures forall d :: DatedAt(SortByDate(s), d) == DatedAt(s, d)
  {
    forall d ensures DatedAt(SortByDate(s), d) == DatedAt(s, d) {
      SortByDateStable(s, d);
    }
  }

  /** Sorting does not change which items are present. */
  lemma SortByDateMembers(s: seq<MediaItem>, x: MediaItem)
    ensures x in SortByDate(s) <==> x in s
  {
    assert x in SortByDate(s) <==> x in multiset(SortByDate(s));
  }
}
