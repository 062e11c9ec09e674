/** Next-video selection: the first catalog entry, in catalog order, the user has not watched. */
module Selection {
  import opened Wrappers

  /** The id `getNextUnwatchedVideo` returns, or `None` for its `null`. */
  function FirstUnwatched(videos: seq<int>, watched: set<int>): (r: Option<int>)
    ensures r.Some? ==> r.value in videos && r.value !in watched
    ensures r.None? ==> forall j :: 0 <= j < |videos| ==> videos[j] in watched
  {
    if videos == [] then None
    else if videos[0] !in watched then Some(videos[0])
    else FirstUnwatched(videos[1..], watched)
  }

  /**
   * Reference characterisation: if the first `k` entries are watched and
   * entry `k` is not, the answer is entry `k`; if every entry is watched
   * (`k == |videos|`), the answer is `None`.
   */
  lemma {:induction false} FirstUnwatchedAt(videos: seq<int>, watched: set<int>, k: nat)
    requires k <= |videos|
    requires forall j :: 0 <= j < k ==> videos[j] in watched
    requires k < |videos| ==> videos[k] !in watched
    ensures FirstUnwatched(videos, watched) == if k < |videos| then Some(videos[k]) else None
  {
    if k > 0 {
      assert videos[0] in watched;
      forall j | 0 <= j < k - 1 ensures videos[1..][j] in watched {
        assert videos[1..][j] == videos[j + 1];
      }
      FirstUnwatchedAt(videos[1..], watched, k - 1);
    }
  }

  /**
   * What the selection promises: an answer is an unwatched catalog entry
   * every earlier entry of which is watched, and there is no answer exactly
   * when every entry is watched.
   */
  lemma {:induction false} FirstUnwatchedSound(videos: seq<int>, watched: set<int>)
    ensures FirstUnwatched(videos, watched).Some? ==>
      exists k :: 0 <= k < |videos| && videos[k] == FirstUnwatched(videos, watched).value &&
        videos[k] !in watched && forall j :: 0 <= j < k ==> videos[j] in watched
    ensures FirstUnwatched(videos, watched).None? <==> forall j :: 0 <= j < |videos| ==> videos[j] in watched
  {
    if videos != [] && videos[0] in watched {
      var rest := videos[1..];
      FirstUnwatchedSound(rest, watched);
      forall j | 0 <= j < |rest| ensures rest[j] == videos[j + 1] { }
      if FirstUnwatched(rest, watched).Some? {
        var k :| 0 <= k < |rest| && rest[k] == FirstUnwatched(rest, watched).value &&
          rest[k] !in watched && forall j :: 0 <= j < k ==> rest[j] in watched;
        assert videos[k + 1] == rest[k];
        assert forall j :: 0 <= j < k + 1 ==> videos[j] in watched by {
          forall j | 0 <= j < k + 1 ensures videos[j] in watched {
            if j > 0 { assert videos[j] == rest[j - 1]; }
          }
        }
      } else {
        assert forall j :: 0 <= j < |videos| ==> videos[j] in watched by {
          forall j | 0 <= j < |videos| ensures videos[j] in watched {
            if j > 0 { assert videos[j] == rest[j - 1]; }
          }
        }
      }
    }
  }
}
