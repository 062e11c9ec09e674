# Video relay bot: in-memory core

A Telegram bot relays the videos posted to a private source channel to
individual users, one at a time, and records what each user has been sent so that it does not
send the same video again at that user's request.
Users must belong to a force-join channel. This project models the bot's
in-memory storage path and the logic around it:

- the **video catalog** `channelVideos`: message ids, newest first, each listed once;
- the **per-user watch history** `inMemoryHistory`: a map from user id to the set of ids sent to that user;
- **next-video selection**: the first catalog id, in catalog order, that the user has not watched;
- the **dispatch step** `forwardNextVideo`: an id is recorded as watched only after the copy succeeds;
- the **membership gate** `checkUserMembership`: fail-closed on the member status;
- the **channel-post filter**: only video posts whose chat id, rendered as a string, equals `SOURCE_CHANNEL_ID` reach the catalog.

Layout, one module per component:

- `wrappers.dfy`: `Option`, standing for JavaScript's `null`-or-value.
- `catalog.dfy`: `addChannelVideo` as a function, plus lemmas about any sequence of adds.
- `history.dfy`: `getWatchHistory` and `saveWatchHistory` as functions on the map.
- `selection.dfy`: `getNextUnwatchedVideo` as a function, plus its characterisation.
- `membership.dfy`: `checkUserMembership`.
- `channel_post.dfy`: the `channel_post` guard, with `toString()` of a chat id modelled as a decimal rendering whose inverse is proved.
- `dispatch.dfy`: the whole state as a value, each handler's effect on it, and a lemma over arbitrary runs of handlers.
- `bot.dfy`: class `VideoBot`, whose fields are the module-level state of the source. Its methods update those fields in place, as the source does. Each method is proved against the functions above.

External calls become inputs. `copyMessage` is a boolean `copySucceeded`. `getChatMember` is a `Lookup` that is either a status string or a failure.

The code has no cyclic per-user cursor, no catalog sorted by id, no indexer that probes the channel for old videos, and no admin commands. It keeps a per-user set of watched ids and puts new ids at the front of the catalog. The model contains exactly that.

## Model

| member | source | states |
|---|---|---|
| Bot.VideoBot.constructor | bot.py:22-23 | Start-up state: empty catalog (duplicate-free), empty history map |
| Bot.VideoBot.SaveWatchHistory | bot.py:63-68 | The user's entry exists afterwards and contains the id and everything it held before; every other user's entry is unchanged; the catalog is unchanged |
| Bot.VideoBot.GetWatchHistory | bot.py:80-82 | Returns the user's history as `History.Watched` reads it, and the empty set for a user with no entry; it changes no state, so no entry is created |
| Bot.VideoBot.AddChannelVideo | bot.py:99-103 | A listed id leaves the catalog unchanged. An absent id becomes element 0, the old catalog follows unchanged, and the length grows by one. The no-duplicates invariant is kept and the history is untouched |
| Bot.VideoBot.GetNextUnwatchedVideo | bot.py:128-138 | The loop returns an unwatched catalog id, and every earlier entry is watched; it returns `None` exactly when every entry is watched; the result equals `Selection.FirstUnwatched` |
| Bot.VideoBot.ForwardNextVideo | bot.py:140-167 | The outcome and the new state equal `Dispatch.ForwardOutcome`/`AfterForward`. History changes only on `Sent`, by recording the sent id. The catalog never changes |
| Bot.VideoBot.HandleNextVideo | bot.py:185-209 | The join prompt is given exactly when the gate refuses, and the state is then untouched; otherwise the result is `forwardNextVideo`'s outcome |
| Bot.VideoBot.OnChannelPost | bot.py:227-240 | New state equals `Dispatch.OnPost`: a post failing the filter leaves the catalog unchanged; history is never touched; no-duplicates kept |
| Catalog.WithVideo | bot.py:99-103 | The result lists exactly the old ids plus the new one. Its length grows by one only if the id was absent. Duplicate-freedom is preserved |
| Catalog.AddAllKeepsCatalog | bot.py:100-101 | Any sequence of adds keeps the catalog duplicate-free, and the result lists exactly the old ids and the added ids |
| Catalog.AddAllKeepsSuffix | bot.py:100-101 | Adds never move or drop an older entry: the old catalog survives unchanged, in its order, at the back, so the newest additions come first |
| Catalog.DistinctOccursOnce | bot.py:100-101 | In a duplicate-free catalog each id occurs once if listed and zero times otherwise |
| Catalog.EachIdOnce | bot.py:100-101 | After any sequence of adds, repeats included, every distinct id is listed exactly once |
| History.Recorded | bot.py:64-67 | After saving, the user's set is its old set plus the id. The key set gains only that user. Every other user's set is unchanged |
| Selection.FirstUnwatched | bot.py:128-138 | The selected id is a catalog entry the user has not watched; no selection means every catalog entry is watched. `FirstUnwatchedAt` and `FirstUnwatchedSound` characterise it fully |
| Selection.FirstUnwatchedAt | bot.py:131-137 | If entries before k are watched and entry k is not, the selection is entry k; if all entries are watched it is `None` |
| Selection.FirstUnwatchedSound | bot.py:131-137 | A selected id is an unwatched catalog entry and every earlier entry is watched. The result is `None` iff every entry is watched |
| Membership.IsMember | bot.py:106-114 | True iff the lookup succeeded with status creator, administrator or member; a failed lookup gives false |
| ChannelPost.DecimalString | bot.py:229 | `toString()` of a chat id in canonical form: non-empty, starts with '-' exactly for a negative id, otherwise all decimal digits, with no leading zero ("0" only for 0, and never "-0…"); `DecimalRoundTrip` gives its inverse |
| ChannelPost.IsSourceVideo | bot.py:229-230 | A post that passes the guard has a video and comes from the chat whose id the configured string reads as |
| ChannelPost.DecimalRoundTrip | bot.py:229 | Parsing the decimal rendering of a chat id gives the chat id back |
| ChannelPost.DecimalStringInjective | bot.py:229 | Two chat ids render to the same string iff they are equal |
| ChannelPost.SourceVideoByNumber | bot.py:229-230 | When the source id is configured as a chat id's rendering, the filter admits a post iff it is from that chat and has a video |
| ChannelPost.NonCanonicalSourceAdmitsNothing | bot.py:229 | A configured id that is not the canonical rendering of its own numeric value (such as "+5" or "007") admits no post |
| Dispatch.ForwardOutcome | bot.py:140-167 | The `!nextVideoId` test (bot.py:143) is passed only by a non-zero selected id. Sent only when the copy succeeded and CopyFailed only when it failed. Either way the id is non-zero, in the catalog, and not yet watched by the user. With no zero ids, "no more videos" means every entry is watched |
| Dispatch.AfterForward | bot.py:140-167 | The catalog never changes. Only a successful send changes the state: the user's set gains exactly the sent id, and other users' sets are unchanged |
| Dispatch.ForwardStep | bot.py:140-167 | The catalog never changes. A video is sent iff one was selected, its id is not 0, and the copy succeeded. Otherwise the state is unchanged. A sent id was an unwatched catalog entry, is added to the user's history, and is not selected for that user again. Other users' histories are unchanged |
| Dispatch.NoneLeftMeansAllWatched | bot.py:141-146 | With positive message ids, "no more videos" is answered iff the user has watched every catalog entry |
| Dispatch.OnPost | bot.py:229-234 | A post failing the filter leaves the state unchanged; a passing one puts its id in the catalog; history is never touched |
| Dispatch.OnRequest | bot.py:185-209 | A user the gate refuses leaves the state unchanged; the catalog is never changed by a request |
| Dispatch.NeverSentTwice | bot.py:140-167 | Over any run of posts and requests, no id is successfully copied twice at the same user's request (the welcome text at bot.py:181 promises that no video is seen twice). Nothing already in a user's history is sent at their request. Every sent id ends up in the history. Histories only grow. The catalog stays duplicate-free |

## Left out

- MongoDB backend (bot.py:25-50, 53-62, 72-79, 86-98): database queries, with ordering and upserts done by the driver. Only the in-memory branches are modelled.
- Telegraf plumbing is not modelled: reply texts, keyboards, `answerCbQuery`, `editMessageText`, `showJoinPrompt`, the `start` welcome and the `retry_join` action (bot.py:116-126, 169-183, 211-225). They only produce messages and change no state.
- `copyMessage` and `getChatMember` are external calls. Each is an input: success or failure of the copy, and a status or a failed lookup. Which status Telegram returns for a given user is not modelled.
- Dispatch.NeverSentTwice: a copy counts as delivered only when `copyMessage` resolves. If Telegram delivers the video but the call still rejects (a time-out, say), the model treats it as `CopyFailed`. The id stays unrecorded and the same video can be sent again. The promise is therefore "never successfully copied twice", not "never seen twice".
- Dispatch.NeverSentTwice: the destination chat is not modelled. `copyMessage` sends to `ctx.chat.id` (bot.py:150), while the history is keyed on `ctx.from.id` (bot.py:186, 198). The two agree only in a private chat. In a group, one member's request records the id for that member only, so another member's request can copy the same video into the same group again.
- Bot.VideoBot.HandleNextVideo: in the `next_video` action the source awaits `ctx.answerCbQuery()` (bot.py:207) before forwarding. If that call rejects, the handler ends and nothing is forwarded. The model has no such path: an authorised request always reaches `forwardNextVideo`. The effect on state is the same as a failed copy (nothing changes), so no proved property depends on it.
- The express health endpoints, webhook and polling start-up, signal handling and environment checks (bot.py:5-15, 242-296) are process control and I/O.
- Overlapping async handlers are not modelled. Each handler runs to completion before the next starts. Races between concurrent `addChannelVideo` or `forwardNextVideo` calls are therefore not covered.
- The `date` argument of `addChannelVideo` and the post's `date` are only used by the database branch, so the model drops them.
- `saveWatchHistory` is called inside the same `try` as `copyMessage`. In the in-memory branch it cannot throw, so the model has no failure path for it.
- `Number.prototype.toString` is modelled as a plain decimal rendering. That matches JavaScript for integer chat ids below 10^21, which covers every Telegram id. Exponent notation for larger numbers is not modelled.
- `getWatchHistory` in the source returns the live `Set` object that `saveWatchHistory` later mutates. The model returns a value, so that aliasing is not captured. It makes no difference to `getNextUnwatchedVideo`, which only reads the set.
- Dispatch.NoneLeftMeansAllWatched: proved only for positive message ids. `!nextVideoId` also treats id 0 as "none". With a 0 in the catalog, a user would be told "no more videos" while later entries are still unwatched. `Dispatch.ForwardOutcome` models that falsy check as written. Telegram message ids are positive, so this never happens in practice.
