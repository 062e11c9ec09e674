/**
 * The bot's module-level in-memory state (`channelVideos`, `inMemoryHistory`)
 * and the functions and handlers of the in-memory backend that read and
 * update it. Each handler runs to completion before the next one starts.
 */
module Bot {
  import opened Wrappers
  import Catalog
  import History
  import Selection
  import Membership
  import ChannelPost
  import Dispatch

  /** What a `newvideo` command or `next_video` action ends with. */
  datatype Reply = JoinPrompt | Forwarded(outcome: Dispatch.Outcome)

  class VideoBot {
    /** `SOURCE_CHANNEL_ID`, as configured. */
    const sourceChannelId: string
    /** Catalog of video message ids, newest first. */
    var channelVideos: seq<int>
    /** User id to the set of message ids sent to that user. */
    var inMemoryHistory: map<int, set<int>>

    ghost predicate Valid()
      reads this
    {
      Catalog.NoDuplicates(channelVideos)
    }

    /** The state as a value, for the handler specifications in `Dispatch`. */
    function Snapshot(): Dispatch.Store
      reads this
    {
      Dispatch.Store(channelVideos, inMemoryHistory)
    }

    /** Start-up: an empty catalog and an empty history map. */
    constructor (sourceChannelId: string)
      ensures Valid()
      ensures this.sourceChannelId == sourceChannelId
      ensures channelVideos == [] && inMemoryHistory == map[]
    {
      this.sourceChannelId := sourceChannelId;
      channelVideos := [];
      inMemoryHistory := map[];
    }

    /** `saveWatchHistory`: create the user's set on first use, then add the id to it. */
    method SaveWatchHistory(userId: int, messageId: int)
      modifies this
      ensures inMemoryHistory == History.Recorded(old(inMemoryHistory), userId, messageId)
      ensures userId in inMemoryHistory && messageId in inMemoryHistory[userId]
      ensures userId in old(inMemoryHistory) ==> old(inMemoryHistory)[userId] <= inMemoryHistory[userId]
      ensures forall v :: v in old(inMemoryHistory) && v != userId ==> v in inMemoryHistory && inMemoryHistory[v] == old(inMemoryHistory)[v]
      ensures channelVideos == old(channelVideos)
    {
      if userId !in inMemoryHistory {
        inMemoryHistory := inMemoryHistory[userId := {}];
      }
      inMemoryHistory := inMemoryHistory[userId := inMemoryHistory[userId] + {messageId}];
    }

    /** `getWatchHistory`: the user's set, or an empty set for a user with no entry (no entry is created). */
    method GetWatchHistory(userId: int) returns (watched: set<int>)
      ensures watched == History.Watched(inMemoryHistory, userId)
      ensures userId !in inMemoryHistory ==> watched == {}
    {
      if userId in inMemoryHistory {
        watched := inMemoryHistory[userId];
      } else {
        watched := {};
      }
    }

    /** `addChannelVideo`: an id already listed changes nothing; a new id goes in front. */
    method AddChannelVideo(messageId: int)
      requires Valid()
      modifies this
      ensures Valid()
      ensures channelVideos == Catalog.WithVideo(old(channelVideos), messageId)
      ensures messageId in old(channelVideos) ==> channelVideos == old(channelVideos)
      ensures messageId !in old(channelVideos) ==>
        |channelVideos| == |old(channelVideos)| + 1 && channelVideos[0] == messageId && channelVideos[1..] == old(channelVideos)
      ensures inMemoryHistory == old(inMemoryHistory)
    {
      if messageId !in channelVideos {
        channelVideos := [messageId] + channelVideos;
      }
    }

    /**
     * `getNextUnwatchedVideo`: scans the catalog in order and returns the
     * first id not in the user's history, or `None` when there is none.
     */
    method GetNextUnwatchedVideo(userId: int) returns (next: Option<int>)
      ensures next == Dispatch.NextFor(Snapshot(), userId)
      ensures next.Some? ==>
        exists k :: 0 <= k < |channelVideos| && channelVideos[k] == next.value &&
          next.value !in History.Watched(inMemoryHistory, userId) &&
          forall j :: 0 <= j < k ==> channelVideos[j] in History.Watched(inMemoryHistory, userId)
      ensures next.None? <==>
        forall j :: 0 <= j < |channelVideos| ==> channelVideos[j] in History.Watched(inMemoryHistory, userId)
    {
      var watchedVideos := GetWatchHistory(userId);
      var i := 0;
      while i < |channelVideos|
        invariant 0 <= i <= |channelVideos|
        invariant forall j :: 0 <= j < i ==> channelVideos[j] in watchedVideos
      {
        if channelVideos[i] !in watchedVideos {
          Selection.FirstUnwatchedAt(channelVideos, watchedVideos, i);
          return Some(channelVideos[i]);
        }
        i := i + 1;
      }
      Selection.FirstUnwatchedAt(channelVideos, watchedVideos, |channelVideos|);
      return None;
    }

    /**
     * `forwardNextVideo`: selects the next video and tries to copy it; the id
     * is saved to the user's history only after the copy succeeds.
     * `copySucceeded` stands for whether `copyMessage` resolves.
     */
    method ForwardNextVideo(userId: int, copySucceeded: bool) returns (outcome: Dispatch.Outcome)
      requires Valid()
      modifies this
      ensures Valid()
      ensures outcome == Dispatch.ForwardOutcome(old(Snapshot()), userId, copySucceeded)
      ensures Snapshot() == Dispatch.AfterForward(old(Snapshot()), userId, copySucceeded)
      ensures channelVideos == old(channelVideos)
      ensures !outcome.Sent? ==> inMemoryHistory == old(inMemoryHistory)
      ensures outcome.Sent? ==> inMemoryHistory == History.Recorded(old(inMemoryHistory), userId, outcome.messageId)
    {
      var nextVideoId := GetNextUnwatchedVideo(userId);
      if nextVideoId.None? || nextVideoId.value == 0 {
        return Dispatch.NoneLeft;
      }
      if copySucceeded {
        SaveWatchHistory(userId, nextVideoId.value);
        outcome := Dispatch.Sent(nextVideoId.value);
      } else {
        outcome := Dispatch.CopyFailed(nextVideoId.value);
      }
    }

    /**
     * The `newvideo` command and the `next_video` action: a user the gate
     * refuses gets the join prompt and the state is untouched; a member gets
     * `forwardNextVideo`. `lookup` stands for the `getChatMember` call.
     */
    method HandleNextVideo(userId: int, lookup: Membership.Lookup, copySucceeded: bool) returns (reply: Reply)
      requires Valid()
      modifies this
      ensures Valid()
      ensures Snapshot() == Dispatch.OnRequest(old(Snapshot()), userId, lookup, copySucceeded)
      ensures reply.JoinPrompt? <==> !Membership.IsMember(lookup)
      ensures reply.JoinPrompt? ==> channelVideos == old(channelVideos) && inMemoryHistory == old(inMemoryHistory)
      ensures reply.Forwarded? ==> reply.outcome == Dispatch.ForwardOutcome(old(Snapshot()), userId, copySucceeded)
    {
      var isMember := Membership.IsMember(lookup);
      if !isMember {
        return JoinPrompt;
      }
      var outcome := ForwardNextVideo(userId, copySucceeded);
      reply := Forwarded(outcome);
    }

    /** The `channel_post` handler: only a video post from the source channel reaches `addChannelVideo`. */
    method OnChannelPost(post: ChannelPost.Post)
      requires Valid()
      modifies this
      ensures Valid()
      ensures Snapshot() == Dispatch.OnPost(old(Snapshot()), sourceChannelId, post)
      ensures !ChannelPost.IsSourceVideo(post, sourceChannelId) ==> channelVideos == old(channelVideos)
      ensures inMemoryHistory == old(inMemoryHistory)
    {
      if ChannelPost.DecimalString(post.chatId) == sourceChannelId {
        if post.hasVideo {
          AddChannelVideo(post.messageId);
        }
      }
    }
  }
}
