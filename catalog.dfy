/**
 * The channel-video catalog of the in-memory backend: the message ids of the
 * source channel's videos, newest first, each listed once.
 */
module Catalog {

  /** No message id is listed twice. */
  predicate NoDuplicates(s: seq<int>) {
    forall i, j :: 0 <= i < j < |s| ==> s[i] != s[j]
  }

  /**
   * The catalog after `addChannelVideo(id)`: left as it was when `id` is
   * already listed, otherwise `id` is put in front of the older entries.
   */
  function WithVideo(videos: seq<int>, id: int): (r: seq<int>)
    ensures id in r
    ensures forall x :: x in r <==> x == id || x in videos
    ensures |r| == if id in videos then |videos| else |videos| + 1
    ensures NoDuplicates(videos) ==> NoDuplicates(r)
  {
    if id in videos then videos else [id] + videos
  }

  /** The catalog after adding `ids` one after the other, the last one added most recently. */
  function AddAll(videos: seq<int>, ids: seq<int>): seq<int>
  {
    if ids == [] then videos else WithVideo(AddAll(videos, ids[..|ids| - 1]), ids[|ids| - 1])
  }

  /**
   * Any sequence of adds keeps the catalog free of duplicates and lists
   * exactly the old entries and the added ids.
   */
  lemma {:induction false} AddAllKeepsCatalog(videos: seq<int>, ids: seq<int>)
    requires NoDuplicates(videos)
    ensures NoDuplicates(AddAll(videos, ids))
    ensures forall x :: x in AddAll(videos, ids) <==> x in videos || x in ids
  {
    if ids != [] {
      var earlier := ids[..|ids| - 1];
      var last := ids[|ids| - 1];
      AddAllKeepsCatalog(videos, earlier);
      assert ids == earlier + [last];
      forall x ensures x in AddAll(videos, ids) <==> x in videos || x in ids {
        assert x in ids <==> x in earlier || x == last;
      }
    }
  }

  /** Adds never move or drop an older entry: the old catalog stays, in its order, at the back. */
  lemma {:induction false} AddAllKeepsSuffix(videos: seq<int>, ids: seq<int>)
    ensures |videos| <= |AddAll(videos, ids)|
    ensures AddAll(videos, ids)[|AddAll(videos, ids)| - |videos|..] == videos
  {
    if ids != [] {
      var earlier := ids[..|ids| - 1];
      var last := ids[|ids| - 1];
      AddAllKeepsSuffix(videos, earlier);
      var before := AddAll(videos, earlier);
      if last !in before {
        var after := [last] + before;
        assert AddAll(videos, ids) == after;
        assert after[|after| - |videos|..] == before[|before| - |videos|..];
      }
    }
  }

  /** In a catalog without duplicates every id occurs at most once. */
  lemma {:induction false} DistinctOccursOnce(s: seq<int>, x: int)
    requires NoDuplicates(s)
    ensures multiset(s)[x] == if x in s then 1 else 0
  {
    if s != [] {
      assert s == [s[0]] + s[1..];
      assert NoDuplicates(s[1..]) by {
        forall i, j | 0 <= i < j < |s[1..]| ensures s[1..][i] != s[1..][j] {
          assert s[1..][i] == s[i + 1] && s[1..][j] == s[j + 1];
        }
      }
      DistinctOccursOnce(s[1..], x);
      if x == s[0] {
        assert x !in s[1..] by {
          forall k | 0 <= k < |s[1..]| ensures s[1..][k] != x {
            assert s[1..][k] == s[k + 1];
          }
        }
      }
    }
  }

  /**
   * Starting from a duplicate-free catalog, whatever ids are added (repeats
   * included), each distinct id ends up listed exactly once.
   */
  lemma EachIdOnce(videos: seq<int>, ids: seq<int>, x: int)
    requires NoDuplicates(videos)
    ensures multiset(AddAll(videos, ids))[x] == if x in videos || x in ids then 1 else 0
  {
    AddAllKeepsCatalog(videos, ids);
    DistinctOccursOnce(AddAll(videos, ids), x);
  }
}
