/** The diff detector: does a fresh item list differ from the cached one
    enough to push it to the UI? */
module Diff {
  import opened MediaTypes

  /** The ids of the items of `s`. */
  function Ids(s: seq<MediaItem>): (r: set<string>)
    ensures forall x :: x in s ==> x.id in r
    ensures forall id :: id in r ==> exists x :: x in s && x.id == id
  {
    set x | x in s :: x.id
  }

  /** Whether some item of `items` has an id outside `seen`. */
  function AnyUnseen(items: seq<MediaItem>, seen: set<string>): (r: bool)
    ensures r <==> exists i :: 0 <= i < |items| && items[i].id !in seen
  {
    if |items| == 0 then false
    else
      assert forall i :: 0 < i < |items| ==> items[i] == items[1..][i - 1];
      items[0].id !in seen || AnyUnseen(items[1..], seen)
  }

  /** Any change of length counts as new; otherwise the fresh list has
      news exactly when it holds an id the cached list lacks. */
  function HasNewItems(cached: seq<MediaItem>, latest: seq<MediaItem>): (r: bool)
    ensures |latest| != |cached| ==> r
    ensures |latest| == |cached| ==> (r <==> exists x :: x in latest && x.id !in Ids(cached))
  {
    if |latest| != |cached| then true
    else AnyUnseen(latest, Ids(cached))
  }

  /** A list has no news against itself. */
  lemma HasNewItemsIrreflexive(s: seq<MediaItem>)
    ensures !HasNewItems(s, s)
  {
  }

  /** Appending an item with an unseen id is news. */
  lemma HasNewItemsAppend(s: seq<MediaItem>, x: MediaItem)
    requires x.id !in Ids(s)
    ensures HasNewItems(s, s + [x])
  {
  }

  /** The check looks only at which items are present and how many, not at
      their order, so sorting either side does not change it. */
  lemma HasNewItemsPermutation(a: seq<MediaItem>, a': seq<MediaItem>,
                               b: seq<MediaItem>, b': seq<MediaItem>)
    requires multiset(a) == multiset(a') && multiset(b) == multiset(b')
    ensures HasNewItems(a, b) == HasNewItems(a', b')
  {
    assert |a| == |multiset(a)| == |a'|;
    assert |b| == |multiset(b)| == |b'|;
    forall x ensures x in a <==> x in a' {
      assert x in a <==> x in multiset(a);
      assert x in a' <==> x in multiset(a');
    }
    forall x ensures x in b <==> x in b' {
      assert x in b <==> x in multiset(b);
      assert x in b' <==> x in multiset(b');
    }
    assert Ids(a) == Ids(a');
  }

  /** No two items of `s` share an id. */
  predicate DistinctIds(s: seq<MediaItem>) {
    forall i, j :: 0 <= i < j < |s| ==> s[i].id != s[j].id
  }

  /** The ids of a list are its head's id and the ids of its tail. */
  lemma IdsCons(s: seq<MediaItem>)
    requires |s| > 0
    ensures Ids(s) == Ids(s[1..]) + {s[0].id}
  {
    assert s == [s[0]] + s[1..];
    forall id | id in Ids(s) ensures id in Ids(s[1..]) + {s[0].id} {
      var x :| x in s && x.id == id;
      if x != s[0] {
        assert x in s[1..];
      }
    }
  }

  /** With distinct ids, there are as many ids as items. */
  lemma {:induction false} DistinctIdsCount(s: seq<MediaItem>)
    requires DistinctIds(s)
    ensures |Ids(s)| == |s|
  {
    if |s| > 0 {
      var t := s[1..];
      assert DistinctIds(t) by {
        forall i, j | 0 <= i < j < |t| ensures t[i].id != t[j].id {
          assert t[i] == s[i + 1] && t[j] == s[j + 1];
        }
      }
      DistinctIdsCount(t);
      IdsCons(s);
    }
  }

  /** For lists of one length with distinct ids, "no news" means both
      carry exactly the same ids. */
  lemma NoNewItemsSameIds(cached: seq<MediaItem>, latest: seq<MediaItem>)
    requires DistinctIds(cached) && DistinctIds(latest)
    requires |cached| == |latest|
    ensures !HasNewItems(cached, latest) <==> Ids(latest) == Ids(cached)
  {
    DistinctIdsCount(cached);
    DistinctIdsCount(latest);
    if !HasNewItems(cached, latest) {
      assert Ids(latest) <= Ids(cached);
      assert |Ids(cached) - Ids(latest)| == |Ids(cached)| - |Ids(latest)|;
      assert Ids(cached) - Ids(latest) == {};
    }
  }
}
