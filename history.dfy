/**
 * Per-user watch history of the in-memory backend: a map from user id to the
 * set of message ids that user has been sent.
 */
module History {

  /** What `getWatchHistory` reads for `userId`: the stored set, or an empty set for a user with no entry. */
  function Watched(history: map<int, set<int>>, userId: int): set<int>
  {
    if userId in history then history[userId] else {}
  }

  /**
   * The history after `saveWatchHistory(userId, messageId)`: the user's entry
   * exists and holds everything it held plus `messageId`; no other user's
   * entry appears, disappears or changes.
   */
  function Recorded(history: map<int, set<int>>, userId: int, messageId: int): (r: map<int, set<int>>)
    ensures r.Keys == history.Keys + {userId}
    ensures messageId in Watched(r, userId)
    ensures Watched(r, userId) == Watched(history, userId) + {messageId}
    ensures forall v :: v in history && v != userId ==> r[v] == history[v]
    ensures forall v :: v != userId ==> Watched(r, v) == Watched(history, v)
  {
    history[userId := Watched(history, userId) + {messageId}]
  }
}
