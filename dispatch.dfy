/**
 * The bot's in-memory state as a value, the effect of each handler on it,
 * and what any run of handlers promises: a user is never sent the same
 * video twice.
 */
module Dispatch {
  import opened Wrappers
  import Catalog
  import History
  import Selection
  import Membership
  import ChannelPost

  /** `channelVideos` and `inMemoryHistory` together. */
  datatype Store = Store(videos: seq<int>, history: map<int, set<int>>)

  /** How `forwardNextVideo` ends: "no more videos", the copy sent, or the copy failed. */
  datatype Outcome = NoneLeft | Sent(messageId: int) | CopyFailed(messageId: int)

  /** What `getNextUnwatchedVideo(userId)` returns on this store. */
  function NextFor(s: Store, userId: int): Option<int>
  {
    Selection.FirstUnwatched(s.videos, History.Watched(s.history, userId))
  }

  /** `!nextVideoId` holds for `null` and also for the message id 0. */
  predicate Falsy(next: Option<int>)
  {
    next.None? || next.value == 0
  }

  /** The outcome of `forwardNextVideo`, given whether `copyMessage` succeeds. */
  function ForwardOutcome(s: Store, userId: int, copySucceeded: bool): (r: Outcome)
    ensures r.Sent? ==> copySucceeded
    ensures r.CopyFailed? ==> !copySucceeded
    ensures !r.NoneLeft? ==>
      r.messageId != 0 && r.messageId in s.videos && r.messageId !in History.Watched(s.history, userId)
    ensures r.NoneLeft? && (forall i :: 0 <= i < |s.videos| ==> s.videos[i] != 0) ==>
      forall i :: 0 <= i < |s.videos| ==> s.videos[i] in History.Watched(s.history, userId)
  {
    var next := NextFor(s, userId);
    if Falsy(next) then NoneLeft
    else if copySucceeded then Sent(next.value)
    else CopyFailed(next.value)
  }

  /** The store after `forwardNextVideo`: the sent id is saved to the user's history, and only then. */
  function AfterForward(s: Store, userId: int, copySucceeded: bool): (r: Store)
    ensures r.videos == s.videos
    ensures !ForwardOutcome(s, userId, copySucceeded).Sent? ==> r == s
    ensures ForwardOutcome(s, userId, copySucceeded).Sent? ==>
      History.Watched(r.history, userId) == History.Watched(s.history, userId) + {ForwardOutcome(s, userId, copySucceeded).messageId}
    ensures forall v :: v != userId ==> History.Watched(r.history, v) == History.Watched(s.history, v)
  {
    match ForwardOutcome(s, userId, copySucceeded)
    case Sent(m) => s.(history := History.Recorded(s.history, userId, m))
    case _ => s
  }

  /**
   * One dispatch step: the catalog never changes; the history changes only
   * when a video was selected and the copy succeeded, and then only the
   * requesting user's set, by exactly the sent id, which was an unwatched
   * catalog entry and will not be selected for that user again.
   */
  lemma ForwardStep(s: Store, userId: int, copySucceeded: bool)
    ensures AfterForward(s, userId, copySucceeded).videos == s.videos
    ensures ForwardOutcome(s, userId, copySucceeded).Sent? <==>
      copySucceeded && NextFor(s, userId).Some? && NextFor(s, userId).value != 0
    ensures !ForwardOutcome(s, userId, copySucceeded).Sent? ==> AfterForward(s, userId, copySucceeded) == s
    ensures ForwardOutcome(s, userId, copySucceeded).Sent? ==>
      var m := ForwardOutcome(s, userId, copySucceeded).messageId;
      var after := AfterForward(s, userId, copySucceeded);
      && m in s.videos
      && m !in History.Watched(s.history, userId)
      && History.Watched(after.history, userId) == History.Watched(s.history, userId) + {m}
      && NextFor(after, userId) != Some(m)
    ensures forall v :: v != userId ==>
      History.Watched(AfterForward(s, userId, copySucceeded).history, v) == History.Watched(s.history, v)
  {
  }

  /**
   * When every catalog id is a positive Telegram message id, the bot answers
   * "no more videos" exactly when the user has watched every catalog entry.
   */
  lemma NoneLeftMeansAllWatched(s: Store, userId: int, copySucceeded: bool)
    requires forall i :: 0 <= i < |s.videos| ==> s.videos[i] > 0
    ensures ForwardOutcome(s, userId, copySucceeded).NoneLeft? <==>
      forall i :: 0 <= i < |s.videos| ==> s.videos[i] in History.Watched(s.history, userId)
  {
  }

  /** The `channel_post` handler: a matching video post is added to the catalog; any other post changes nothing. */
  function OnPost(s: Store, sourceChannelId: string, post: ChannelPost.Post): (r: Store)
    ensures r.history == s.history
    ensures !ChannelPost.IsSourceVideo(post, sourceChannelId) ==> r == s
    ensures ChannelPost.IsSourceVideo(post, sourceChannelId) ==> post.messageId in r.videos
  {
    if ChannelPost.IsSourceVideo(post, sourceChannelId)
    then s.(videos := Catalog.WithVideo(s.videos, post.messageId))
    else s
  }

  /** The `newvideo` command and the `next_video` action: the membership gate, then `forwardNextVideo`. */
  function OnRequest(s: Store, userId: int, lookup: Membership.Lookup, copySucceeded: bool): (r: Store)
    ensures !Membership.IsMember(lookup) ==> r == s
    ensures r.videos == s.videos
  {
    if Membership.IsMember(lookup) then AfterForward(s, userId, copySucceeded) else s
  }

  /** An incoming update: a channel post, or a user's request for the next video. */
  datatype Event =
    | ChannelPostEvent(post: ChannelPost.Post)
    | NextVideoRequest(userId: int, lookup: Membership.Lookup, copySucceeded: bool)

  /**
   * A successful copy made at `userId`'s request. The copy goes to the chat
   * the request came from, which is that user only in a private chat.
   */
  datatype Delivery = Delivery(userId: int, messageId: int)

  /** The deliveries one event makes on store `s`. */
  function Deliveries(s: Store, e: Event): seq<Delivery>
  {
    match e
    case ChannelPostEvent(_) => []
    case NextVideoRequest(u, lookup, ok) =>
      if Membership.IsMember(lookup) && ForwardOutcome(s, u, ok).Sent?
      then [Delivery(u, ForwardOutcome(s, u, ok).messageId)]
      else []
  }

  function Apply(s: Store, sourceChannelId: string, e: Event): Store
  {
    match e
    case ChannelPostEvent(post) => OnPost(s, sourceChannelId, post)
    case NextVideoRequest(u, lookup, ok) => OnRequest(s, u, lookup, ok)
  }

  /** The store after handling `events` one at a time (each handler runs to completion before the next). */
  function Final(s: Store, sourceChannelId: string, events: seq<Event>): Store
  {
    if events == [] then s
    else Apply(Final(s, sourceChannelId, events[..|events| - 1]), sourceChannelId, events[|events| - 1])
  }

  /** Every delivery made while handling `events`, in order. */
  function Sends(s: Store, sourceChannelId: string, events: seq<Event>): seq<Delivery>
  {
    if events == [] then []
    else
      var prefix := events[..|events| - 1];
      Sends(s, sourceChannelId, prefix) + Deliveries(Final(s, sourceChannelId, prefix), events[|events| - 1])
  }

  /** No user receives the same message id twice. */
  predicate NoRepeats(ds: seq<Delivery>)
  {
    forall i, j :: 0 <= i < j < |ds| && ds[i].userId == ds[j].userId ==> ds[i].messageId != ds[j].messageId
  }

  /** Every delivery's id is in its recipient's history `h`. */
  predicate AllRecorded(ds: seq<Delivery>, h: map<int, set<int>>)
  {
    forall i :: 0 <= i < |ds| ==> ds[i].messageId in History.Watched(h, ds[i].userId)
  }

  /** No delivery's id is in its recipient's history `h`. */
  predicate NoneRecorded(ds: seq<Delivery>, h: map<int, set<int>>)
  {
    forall i :: 0 <= i < |ds| ==> ds[i].messageId !in History.Watched(h, ds[i].userId)
  }

  /**
   * "You never see the same video twice", as far as the bot can tell: over
   * any run of channel posts and requests, no id is successfully copied
   * twice at the same user's request, nothing already in a user's
   * history is sent to them, every sent id ends up in the history, histories
   * only grow, and the catalog stays free of duplicates.
   */
  lemma {:induction false} NeverSentTwice(s: Store, sourceChannelId: string, events: seq<Event>)
    ensures NoRepeats(Sends(s, sourceChannelId, events))
    ensures NoneRecorded(Sends(s, sourceChannelId, events), s.history)
    ensures AllRecorded(Sends(s, sourceChannelId, events), Final(s, sourceChannelId, events).history)
    ensures forall u :: History.Watched(s.history, u) <= History.Watched(Final(s, sourceChannelId, events).history, u)
    ensures Catalog.NoDuplicates(s.videos) ==> Catalog.NoDuplicates(Final(s, sourceChannelId, events).videos)
  {
    if events != [] {
      var prefix := events[..|events| - 1];
      var e := events[|events| - 1];
      NeverSentTwice(s, sourceChannelId, prefix);
      var t := Final(s, sourceChannelId, prefix);
      var ds := Sends(s, sourceChannelId, prefix);
      var t' := Apply(t, sourceChannelId, e);
      var newSends := Deliveries(t, e);
      assert Final(s, sourceChannelId, events) == t';
      assert Sends(s, sourceChannelId, events) == ds + newSends;
      match e
      case ChannelPostEvent(post) =>
        assert newSends == [] && ds + newSends == ds;
        assert t'.history == t.history;
      case NextVideoRequest(u, lookup, ok) =>
        ForwardStep(t, u, ok);
        assert forall v :: History.Watched(t.history, v) <= History.Watched(t'.history, v);
        if newSends == [] {
          assert ds + newSends == ds;
          assert AllRecorded(ds, t'.history) by {
            forall i | 0 <= i < |ds| ensures ds[i].messageId in History.Watched(t'.history, ds[i].userId) {
              assert ds[i].messageId in History.Watched(t.history, ds[i].userId);
            }
          }
        } else {
          var all := ds + newSends;
          var m := newSends[0].messageId;
          assert |newSends| == 1 && newSends[0].userId == u;
          assert m !in History.Watched(t.history, u);
          assert m in History.Watched(t'.history, u);
          forall i | 0 <= i < |all|
            ensures all[i].messageId !in History.Watched(s.history, all[i].userId)
            ensures all[i].messageId in History.Watched(t'.history, all[i].userId)
          {
            if i < |ds| {
              assert all[i] == ds[i];
              assert ds[i].messageId in History.Watched(t.history, ds[i].userId);
            } else {
              assert all[i] == newSends[0];
            }
          }
          forall i, j | 0 <= i < j < |all| && all[i].userId == all[j].userId
            ensures all[i].messageId != all[j].messageId
          {
            if j < |ds| {
              assert all[i] == ds[i] && all[j] == ds[j];
            } else {
              assert all[j] == newSends[0] && all[i] == ds[i];
              assert ds[i].messageId in History.Watched(t.history, ds[i].userId);
            }
          }
        }
    }
  }
}
