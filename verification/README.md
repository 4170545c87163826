# Video backend core, modelled in Dafny

This project models the request handlers of a video-sharing backend and the
documents they work on. The backend is an Express application over MongoDB
through Mongoose. The handlers modelled are:

- liking and unliking a video;
- subscribing to and unsubscribing from a channel;
- publishing a video;
- fetching one video with its like count and the caller's like and
  subscription flags, which also records the video in the caller's watch
  history;
- recording how far a user has watched a video, and reading all of a user's
  progress back as a map;
- updating a video's fields and media;
- deleting a video;
- recommending videos related to the one being watched;
- the caller's watch history, liked videos, and the feed of subscribed
  channels.

The database is one object, `Store.Store`. Its fields are the five
collections: videos, likes, subscriptions, video views and users. The
handlers that change it are methods with `modifies db`. Each one states its
whole new state and keeps the unique indexes the schemas declare:

- one like per (video, user);
- one subscription per (subscriber, channel);
- one view record per (user, video);
- each watch history free of duplicates.

Most handlers that only read are functions, each paired with a lemma that
states its result. The two whose source computes with a loop,
`Recommendation.Recommend` and `WatchProgress.AllProgress`, are methods that
change nothing and state their result in their own `ensures`.

Modules:

- `Common`: Option, Result and the HTTP error statuses.
- `ObjectIds`: identifier validity and casting, the way Mongoose accepts a
  string as an ObjectId.
- `Text`: lower-casing, trimming and decimal printing and parsing.
- `VideoModel`: the Video document, its defaults and required paths, and the
  casting of request values to its paths.
- `LikeModel`, `SubscriptionModel`, `VideoViewModel`: the other documents and
  their unique indexes.
- `WatchHistory`: `$pull` followed by a `$push` at position 0.
- `Store`: the database object.
- `LikeController`, `SubscriptionController`: the toggle handlers.
- `VideoDetail`, `WatchProgress`, `VideoLifecycle`, `Recommendation`,
  `VideoFeeds`: the handlers in the video controller.

The model takes several inputs that the real system computes elsewhere:

- The caller's identifier comes from authentication, so it is an input and
  assumed valid.
- Clock readings are inputs.
- Identifiers the database assigns are inputs.
- Results of the media store (upload and destroy) are inputs.
- The orders produced by database `$sort` stages are inputs. Each one is
  constrained to be a permutation of the documents the stage sorts, in the
  order of the key the stage names: the video collection for the
  recommendation rankings and the subscribed feed, and the caller's video
  likes, each once, for the liked videos.
- The order in which the unsorted tag-matched query of the recommendation
  meets the videos is an input (`tagScan`). The server does not fix that
  order, so `tagScan` is constrained only to be a reordering of the video
  collection.

## Model

| member | source | states |
|---|---|---|
| ObjectIds.Cast | src/controllers/video.controller.ts:64-66 | A request string is accepted as an identifier exactly when it is 24 hexadecimal digits (`ObjectId.isValid`). The identifier it yields is the lower-case spelling of those digits. |
| ObjectIds.CastPrinted | src/controllers/video.controller.ts:471 | Casting the printed form of a stored identifier gives that identifier back. |
| ObjectIds.CastIgnoresCase | src/controllers/video.controller.ts:64-66 | Two valid strings that differ only in the case of their hex digits name the same document. |
| Text.Lower | src/models/video.model.ts:62-67 | Lower-casing keeps the length and lower-cases every character. |
| Text.LowerIsLowered | src/models/video.model.ts:62-67 | The `lowercase` setter leaves no upper-case letter, and applying it twice is the same as applying it once. |
| Text.UpperIsNotSpace | src/models/video.model.ts:62-67 | No upper-case letter is white space, so trimming and lower-casing do not interfere with each other. |
| Text.Trim | src/models/video.model.ts:62-67 | The `trim` setter returns a contiguous slice of the input. The slice neither begins nor ends with white space, and everything cut off on either side is white space. |
| Text.TrimIdempotent | src/models/video.model.ts:62-67 | Trimming twice is the same as trimming once. |
| Text.TrimPadded | src/models/video.model.ts:62-67 | White space added on both sides of a word is removed again by trimming, and the word comes back unchanged. |
| Text.Normalise | src/models/video.model.ts:62-67 | The category setters produce a lower-case value with no white space at either end, no longer than the input. |
| Text.NormaliseIdempotent | src/models/video.model.ts:62-67 | The stored category is a fixed point of the setters: saving it again changes nothing. |
| Text.Digits | src/controllers/video.controller.ts:44 | Printing a natural number gives decimal digits with no leading zero unless the number is zero. |
| Text.DecimalString | src/controllers/video.controller.ts:296 | Printing an integer gives digits, with a leading minus sign exactly for negative numbers. |
| Text.ParseDecimal | src/controllers/video.controller.ts:326 | A string parses as an integer exactly when it is digits, optionally after a minus sign. |
| Text.DigitsRoundTrip | src/controllers/video.controller.ts:44 | Reading back the printed digits of a natural number gives the number. |
| Text.DecimalRoundTrip | src/controllers/video.controller.ts:296 | Parsing the printed form of an integer gives the integer back. |
| Text.DecimalStringTrimmed | src/controllers/video.controller.ts:296 | The printed form of an integer has no white space at either end. |
| VideoModel.Create | src/models/video.model.ts:33-67 | `Video.create` succeeds exactly when every required string path is non-empty, with the category judged after trimming. On success the document has every required path, a normalised category, is visible, and carries the given id, owner and creation time. |
| VideoModel.CreateDefaults | src/models/video.model.ts:72-122 | A created video is published, not deleted and not private. Its views, downloads and average watch time are the number 0, not null, its tags are empty, its report reason and language are empty, and it keeps the given title and duration. |
| VideoModel.ConsUnique | src/models/video.model.ts:33 | A video whose id is absent from a list with distinct ids can be put in front and the ids stay distinct (`_id` is unique). |
| VideoModel.PathOf | src/controllers/video.controller.ts:325 | A body key found among the schema paths names that path. A key not found names no path. |
| VideoModel.PathOfName | src/controllers/video.controller.ts:325 | Every schema path is found by its own name. |
| VideoModel.Get | src/models/video.model.ts:33-122 | Reading a path gives a value of that path's schema type. |
| VideoModel.Put | src/controllers/video.controller.ts:326 | Assigning a path changes that path to the value and no other path. The id and creation time are kept. |
| VideoModel.CastTo | src/controllers/video.controller.ts:326 | Assigning a request value casts it to the path's type. String paths take the printed value, and trimmed lower-case paths come out normalised. Numbers go to number paths unchanged; on a number path the empty string becomes null, text of only white space becomes 0, and booleans become 1 and 0. Booleans go to flags, and a reference accepts exactly a valid identifier string. |
| VideoModel.NumberCastRoundTrip | src/controllers/video.controller.ts:326 | A number path accepts the decimal text of an integer as that integer. |
| VideoModel.PaddedNumberCast | src/controllers/video.controller.ts:326 | A number path ignores white space around the decimal text of an integer. |
| LikeModel.NewVideoLike | src/controllers/Like.controller.ts:23 | `Like.create` with a video and a user makes a like of that pair with no comment and no tweet. |
| LikeModel.LikesOf | src/controllers/video.controller.ts:95-105 | The likes whose video is v, and only those. |
| LikeModel.LikeCount | src/controllers/video.controller.ts:146-148 | The `$count` lookup counts at most all likes. It is 0 exactly when no like refers to the video, which is the `$ifNull` default. |
| LikeModel.LikeIsUnique | src/models/like.model.ts:32-38 | Under the partial unique index, a user has at most one like of a video. |
| LikeModel.CommentLikesUnconstrained | src/models/like.model.ts:32-38 | The index's partial filter covers only video likes, so two likes of the same comment by the same user can coexist. |
| SubscriptionModel.NewSubscription | src/models/subscription.model.ts:10-25 | `Subscription.create` makes the edge from the subscriber to the channel, stamped with the current time. |
| SubscriptionModel.ChannelsOf | src/controllers/video.controller.ts:673-675 | A channel is among the caller's channels exactly when the caller subscribes to it. |
| SubscriptionModel.SelfSubscriptionAllowed | src/models/subscription.model.ts:27 | Nothing forbids a user from subscribing to themselves. The edge satisfies the unique index. |
| VideoViewModel.NewVideoView | src/models/videoView.model.ts:12-39 | A new view record belongs to the given user and video, is stamped now, and has time watched, duration and percentage 0. |
| VideoViewModel.Divisor | src/controllers/video.controller.ts:186 | `videoDuration \|\| 1` is never 0, and is the duration whenever the duration is non-zero. |
| VideoViewModel.Percentage | src/controllers/video.controller.ts:187 | The stored percentage is at most 100. It is the lesser of 100 and time watched over the divisor times 100. |
| VideoViewModel.PercentageBounds | src/controllers/video.controller.ts:187 | For a positive duration, a non-negative time gives a non-negative percentage. The percentage reaches 90 exactly when at least 90% of the duration was watched. |
| VideoViewModel.DefaultedRecordPercentage | src/controllers/video.controller.ts:186-187 | A record still holding the default duration 0 divides by 1, so its percentage is the time watched times 100, capped at 100. |
| VideoViewModel.WithProgress | src/controllers/video.controller.ts:189-190 | The update keeps the record's user, video, duration and view time. It sets the time watched and a percentage of at most 100. |
| VideoViewModel.ReplaceKeepsUnique | src/models/videoView.model.ts:41 | Replacing a record by one for the same (user, video) keeps the unique index. |
| VideoViewModel.WatchedThrough | src/controllers/video.controller.ts:391-396 | A video counts as watched exactly when the user has a view of it with a percentage of at least 90. |
| WatchHistory.Without | src/controllers/video.controller.ts:68-70 | `$pull` never lengthens the history. |
| WatchHistory.WithoutMembers | src/controllers/video.controller.ts:68-70 | After `$pull` the video is gone, and every other video is present exactly when it was before. |
| WatchHistory.MoveInHistory | src/controllers/video.controller.ts:68-73 | Only the caller's history changes: it becomes the moved history. Other users and the set of users are unchanged, and an unknown caller changes nothing (`findByIdAndUpdate` on a missing id). |
| WatchHistory.MovedToFrontShape | src/controllers/video.controller.ts:68-73 | After the pull and the push at position 0, the video is first and occurs nowhere else. Every other video is present exactly when it was before, and a history without duplicates stays without duplicates. |
| WatchHistory.WithoutKeepsNoDups | src/controllers/video.controller.ts:68-70 | `$pull` keeps a history free of duplicates. |
| WatchHistory.WithoutKeepsOrder | src/controllers/video.controller.ts:68-70 | `$pull` keeps the relative order of every other pair of videos. |
| WatchHistory.MovedToFrontKeepsOrder | src/controllers/video.controller.ts:68-73 | Watching a video keeps the relative order of all other videos in the history. |
| WatchHistory.WithoutAppend | src/controllers/video.controller.ts:68-70 | `$pull` works element by element: pulling from a concatenation is concatenating the pulls. |
| WatchHistory.WithoutAbsent | src/controllers/video.controller.ts:68-70 | Pulling a video that is not in the history leaves the history as it was. |
| WatchHistory.MoveIdempotent | src/controllers/video.controller.ts:68-73 | Watching the same video twice in a row leaves the history as after the first time. |
| WatchHistory.WatchSequence | src/controllers/video.controller.ts:68-73 | After watching v1, then v2, then v1 again, the history starts with v1 followed by v2. |
| WatchHistory.MoveKeepsDistinct | src/models/user.model.ts:56-61 | Moving a video to the front keeps every user's history free of duplicates. |
| Store.FindIndex | src/controllers/video.controller.ts:273-276 | `findById` finds the first video with the id, or reports that no video has it. |
| Store.FindIndexUnique | src/controllers/video.controller.ts:273-276 | With unique ids, the video found is the one holding the id. |
| Store.PullAll | src/controllers/video.controller.ts:68-70 | The loop that removes every occurrence of the video computes exactly the `$pull` of the history. |
| Store.Store.constructor | src/models/user.model.ts:56-61 | A fresh database holds the registered users and empty collections, and satisfies every index. |
| Store.Store.MoveToHistoryFront | src/controllers/video.controller.ts:68-73 | The two updates leave the users exactly as `MoveInHistory` describes, touch no other collection, and keep the invariants. |
| LikeController.ToggleFlipsLiked | src/controllers/Like.controller.ts:16-25 | A toggle turns "liked" into "not liked" and back. |
| LikeController.ToggleTouchesOnlyPair | src/controllers/Like.controller.ts:16-25 | A toggle adds or removes only likes of the (video, user) pair. |
| LikeController.ToggleKeepsUnique | src/models/like.model.ts:32-38 | A toggle keeps at most one like per (video, user). |
| LikeController.ToggleTwiceFromAbsent | src/controllers/Like.controller.ts:16-25 | Liking then unliking restores the likes exactly. |
| LikeController.ToggleTwiceFromPresent | src/controllers/Like.controller.ts:16-25 | Unliking then liking again restores the like with the new time and changes nothing else. |
| LikeController.ToggleLikeVideo | src/controllers/Like.controller.ts:8-26 | An empty id gives 400, and any other malformed id gives 500 from the cast. The request succeeds exactly for a valid id. The likes become the toggled set, the answer is "unliked" exactly when a like existed, and the other collections are unchanged. |
| SubscriptionController.EdgeIsUnique | src/models/subscription.model.ts:27 | Under the unique index, a subscriber has at most one edge to a channel. |
| SubscriptionController.ToggleFlipsSubscribed | src/controllers/subscription.controller.ts:20-29 | A toggle turns "subscribed" into "not subscribed" and back, and changes no other edge. |
| SubscriptionController.ToggleKeepsUnique | src/models/subscription.model.ts:27 | A toggle keeps at most one edge per (subscriber, channel). |
| SubscriptionController.ToggleTwiceFromAbsent | src/controllers/subscription.controller.ts:20-29 | Subscribing then unsubscribing restores the subscriptions exactly. |
| SubscriptionController.ToggleTwiceFromPresent | src/controllers/subscription.controller.ts:20-29 | Unsubscribing then subscribing again restores the edge with the new time and changes nothing else. |
| SubscriptionController.ToggleSubscribeChannel | src/controllers/subscription.controller.ts:9-30 | An empty id gives 400, and any other malformed id gives 500 from the cast. The request succeeds exactly for a valid id. The subscriptions become the toggled set, the answer is "unsubscribed" exactly when the edge existed, and the other collections are unchanged. |
| VideoDetail.MatchVisible | src/controllers/video.controller.ts:76-82 | The `$match` yields a video with the id that is published and not deleted, or reports that no such video exists. |
| VideoDetail.ProfileOf | src/controllers/video.controller.ts:83-94 | The owner lookup succeeds exactly when the owner's user record exists, and then carries the owner's id. |
| VideoDetail.ComposeDetail | src/controllers/video.controller.ts:75-162 | The pipeline yields a document exactly when a visible video with the id exists and its owner exists. The like count is the number of likes of the video, `isLiked` holds exactly when the viewer liked it, and `isSubscribed` exactly when the viewer subscribes to the owner. |
| VideoDetail.LikedArrayNonEmpty | src/controllers/video.controller.ts:149 | `$size` of the liked lookup is positive exactly when the viewer liked the video. |
| VideoDetail.SubscribedArrayNonEmpty | src/controllers/video.controller.ts:150 | `$size` of the subscription lookup is positive exactly when the viewer subscribes to the owner. |
| VideoDetail.DetailFound | src/controllers/video.controller.ts:164-166 | With unique ids, a visible video whose owner exists is always found, so no 404 is raised for it. |
| VideoDetail.DetailIgnoresHistories | src/controllers/video.controller.ts:68-94 | Updating the history before the pipeline does not change what the pipeline returns. |
| VideoDetail.LikeCountAfterToggle | src/controllers/Like.controller.ts:16-25 | After a toggle, the like count of the toggled video goes down by one if it was liked and up by one otherwise. Counts of other videos stay the same. |
| VideoDetail.OtherVideoLikesKept | src/controllers/Like.controller.ts:16-25 | A toggle on one video leaves the likes of every other video alone. |
| VideoDetail.LikeRemoved | src/controllers/Like.controller.ts:18-20 | Unliking lowers that video's count by exactly one. |
| VideoDetail.LikeAdded | src/controllers/Like.controller.ts:23 | Liking raises that video's count by exactly one. |
| VideoDetail.LikedAfterToggle | src/controllers/Like.controller.ts:16-25 | After a toggle, `isLiked` flips for the toggling (video, user) pair and is unchanged for every other pair. |
| VideoDetail.LikeToggleEffect | src/controllers/video.controller.ts:146-151 | After a like toggle the detail view is still found. Its like count moves by one in the toggled direction and its `isLiked` flag flips. |
| VideoDetail.SubscriptionToggleEffect | src/controllers/video.controller.ts:146-151 | After a subscription toggle on the owner, the detail's `isSubscribed` flag flips and the rest of the detail is unchanged. |
| VideoDetail.GetVideoById | src/controllers/video.controller.ts:60-171 | A malformed id gives 400 and touches nothing. Otherwise the viewer's history is moved first, and the answer is the composed detail of the state before the move, or 404 when there is none. Nothing else changes. |
| WatchProgress.ProgressUpdateShape | src/controllers/video.controller.ts:181-191 | The update keeps the unique index and touches only the pair's record. A record for the pair exists afterwards exactly when one existed before, and it then holds the new time and a percentage of at most 100. |
| WatchProgress.ProgressUpdateOfRecord | src/controllers/video.controller.ts:189-191 | Under the index, the update replaces the pair's one record by its updated form. |
| WatchProgress.UpdateWatchProgress | src/controllers/video.controller.ts:174-203 | A malformed id gives 500. A missing record gives 404, and then nothing changes. The update succeeds whenever the record exists. Otherwise the record is updated as `ProgressUpdated` says and returned, and the history is moved. The other collections are unchanged. |
| WatchProgress.ProgressMap | src/controllers/video.controller.ts:653-660 | The map's keys are exactly the videos of the records. |
| WatchProgress.ProgressMapLastWins | src/controllers/video.controller.ts:653-660 | When a video occurs more than once, the entry is the progress of its last record. |
| WatchProgress.ProgressMapOf | src/controllers/video.controller.ts:653-660 | When the records of a video agree, each record's entry is its own progress. |
| WatchProgress.AllProgress | src/controllers/video.controller.ts:644-666 | The map has a key for exactly the videos the user has a record of, and maps each to that record's progress. |
| Recommendation.FirstMatching | src/controllers/video.controller.ts:403-411 | A source takes at most five videos, each from the ranking and each admitted by its filter. |
| Recommendation.FirstMatchingKeepsOrder | src/controllers/video.controller.ts:403-411 | A source lists its videos in the order of the ranking it reads. |
| Recommendation.FirstMatchingComplete | src/controllers/video.controller.ts:403-411 | A source that took fewer than its limit took every admitted video. |
| Recommendation.FirstMatchingTop | src/controllers/video.controller.ts:432-433 | Over a sorted ranking, a source outranks every admitted video it left out. |
| Recommendation.FirstMatchingSorted | src/controllers/video.controller.ts:432-433 | Over a sorted ranking, a source comes out sorted by the same key. |
| Recommendation.DedupFrom | src/controllers/video.controller.ts:468-475 | The merge keeps each id once, drops the ids already seen, and keeps every other id that occurs. |
| Recommendation.DedupSnoc | src/controllers/video.controller.ts:470-474 | A `Map` insertion adds a video at the end exactly when its id is new. |
| Recommendation.DedupIsFirstOccurrences | src/controllers/video.controller.ts:468-475 | The merge is the list of first occurrences of each id, in the order of the concatenated sources. |
| Recommendation.MergeFirstSeen | src/controllers/video.controller.ts:468-475 | The `forEach` loop over the concatenated sources yields exactly the first-occurrence merge. |
| Recommendation.WithoutId | src/controllers/video.controller.ts:477-478 | The filter removes only the current video: every other video of the list stays, and the list is kept as it was when the current video is absent. |
| Recommendation.Take | src/controllers/video.controller.ts:479 | `slice(0, 15)` is the prefix whose length is the smaller of 15 and the list's length. |
| Recommendation.Excluded | src/controllers/video.controller.ts:396-401 | The excluded ids are the current video plus exactly the videos the viewer watched through. |
| Recommendation.SourcesBound | src/controllers/video.controller.ts:470 | The concatenated sources hold at most 20 videos, all visible and none excluded. |
| Recommendation.SourcesFromCollection | src/controllers/video.controller.ts:403-466 | Every source video comes from the video collection, whatever order the unsorted tag query reads it in. |
| Recommendation.TakeKeepsUnique | src/controllers/video.controller.ts:479 | Taking a prefix keeps ids distinct. |
| Recommendation.CurrentAlreadyExcluded | src/controllers/video.controller.ts:477-478 | The final filter never removes anything, because the current video is already excluded from every source. |
| Recommendation.RecommendedShape | src/controllers/video.controller.ts:376-484 | The answer is the prefix of the merged sources, with distinct ids, whose length is the smaller of 15 and the merge's length. It never holds the current video, a hidden video, or a video the viewer watched through. |
| Recommendation.Recommend | src/controllers/video.controller.ts:376-484 | A malformed id gives 400 and an unknown video 404. Otherwise the answer is the recommendation for that video, given the order the server picked for the unsorted tag query. For every such order it is distinct, at most 15 long, and free of the current and watched-through videos. |
| VideoLifecycle.DurationText | src/controllers/video.controller.ts:44 | The stored duration is never empty, and parses back to the floor of the uploaded duration. |
| VideoLifecycle.PublishShape | src/controllers/video.controller.ts:19-58 | 400 exactly when a field or file is missing. Success exactly when both uploads answered with a URL and a public id and the trimmed category is non-empty. The new video carries the caller, the uploads' URLs and ids, a normalised category, the floor of the duration, and is published with no views. |
| VideoLifecycle.PublishVideo | src/controllers/video.controller.ts:19-58 | The handler answers with the outcome `PublishShape` describes and appends the video only on success. The other collections are unchanged. |
| VideoLifecycle.PatchedValue | src/controllers/video.controller.ts:323-329 | The value a path holds after the patch always fits the path's type. |
| VideoLifecycle.ApplyUpdates | src/controllers/video.controller.ts:323-329 | The loop over the body keys leaves every path with its patched value and keeps the id and creation time. It reports a cast failure exactly when some key names a path and its value does not cast. |
| VideoLifecycle.HasRequiredByPaths | src/models/video.model.ts:34-67 | A video has its required fields exactly when no required path holds the empty string. |
| VideoLifecycle.WithVideoFile | src/controllers/video.controller.ts:294-296 | A new video file replaces the URL, public id and duration and nothing else. |
| VideoLifecycle.WithThumbnail | src/controllers/video.controller.ts:315-316 | A new thumbnail replaces its URL and public id and nothing else. |
| VideoLifecycle.MediaStepsShape | src/controllers/video.controller.ts:282-321 | When both media steps succeed, only the media paths change. The destroyed assets are the old video asset, then the old thumbnail, each only when replaced and present. |
| VideoLifecycle.ReplaceVideoFile | src/controllers/video.controller.ts:282-301 | The step fails exactly when the upload lacks a URL, public id or non-zero duration, or the old asset's destroy throws. It reports the assets destroyed, and on success gives the video with the new file. |
| VideoLifecycle.ReplaceThumbnail | src/controllers/video.controller.ts:303-321 | The step fails exactly when the upload lacks a URL or public id, or the old image's destroy throws. It reports the assets destroyed, and on success gives the video with the new thumbnail. |
| VideoLifecycle.ReplaceMedia | src/controllers/video.controller.ts:282-321 | Both steps in order: failure exactly when either fails, success gives the combined media update, and it reports every asset destroyed. |
| VideoLifecycle.SameIdKeepsUnique | src/controllers/video.controller.ts:331 | Saving a document under its own id keeps ids distinct. |
| VideoLifecycle.UpdateVideo | src/controllers/video.controller.ts:263-337 | A malformed id gives 500, an unknown video 404, and a caller who is not the owner 401. A failed media step gives 500. Otherwise the save succeeds exactly when every value casts and no required path becomes empty; it then stores the patched video in place under the same id and creation time, and every path holds its patched value. Any failure leaves the videos unchanged, and the other collections are never touched. |
| VideoLifecycle.RemoveAtShape | src/controllers/video.controller.ts:368 | Removing the video keeps ids distinct and keeps every other video. |
| VideoLifecycle.DeleteVideo | src/controllers/video.controller.ts:339-374 | A malformed id gives 500, an unknown video 404, and a non-owner 401, each leaving the videos unchanged. Otherwise the video is removed and the rest are kept in order. The assets destroyed are those present whose destroy did not throw, and a failed destroy does not stop the delete. The other collections are unchanged. |
| VideoFeeds.FeedOf | src/controllers/video.controller.ts:683-691 | The `$match` keeps, in order, exactly the visible, public videos of followed channels. |
| VideoFeeds.NewestFirstIsRanking | src/controllers/video.controller.ts:692-694 | Newest-first order is the order sorted by creation time. |
| VideoFeeds.FeedKeepsOrder | src/controllers/video.controller.ts:683-694 | Filtering a newest-first list keeps it newest first. |
| VideoFeeds.EmptyFeed | src/controllers/video.controller.ts:677-681 | With no followed channel, the filter finds nothing. |
| VideoFeeds.SubscribedFeedShape | src/controllers/video.controller.ts:668-709 | The early "No subscribed channels" answer is given exactly when the caller follows nobody, and then the filter would find nothing anyway. Otherwise the page holds exactly the visible, public videos of followed channels, newest first. |
| VideoFeeds.RowOf | src/controllers/video.controller.ts:522-543 | A like yields a row exactly when it names a video that exists and whose owner exists. The row carries the like's time and that video. |
| VideoFeeds.LikedRows | src/controllers/video.controller.ts:515-563 | The pipeline yields at most one row per like. |
| VideoFeeds.LikedRowsSound | src/controllers/video.controller.ts:515-563 | Every row comes from one of the likes. |
| VideoFeeds.LikedRowsComplete | src/controllers/video.controller.ts:515-563 | Every like whose video and owner exist yields its row. |
| VideoFeeds.LikedRowsBounded | src/controllers/video.controller.ts:547 | No row is later than the latest like. |
| VideoFeeds.LikedRowsCount | src/controllers/video.controller.ts:515-563 | When no like repeats in the order, the number of rows equals the number of likes that have a row. |
| VideoFeeds.LikedRowsKeepOrder | src/controllers/video.controller.ts:560-562 | Likes taken newest first give rows newest first. |
| VideoFeeds.LikedVideosShape | src/controllers/video.controller.ts:508-569 | A malformed caller id gives 400. Otherwise there is one row for each of the caller's video likes whose video and owner exist. The total is the number of those likes, which is also the number of rows. The rows are exactly the rows of those likes, newest first. |
| VideoFeeds.Populate | src/controllers/video.controller.ts:489-497 | Populating keeps only existing videos of the history and drops none that exist. |
| VideoFeeds.PopulateKeepsOrder | src/controllers/video.controller.ts:489-497 | Populated videos come in the order of the history, most recently watched first. |
| VideoFeeds.PopulateUnique | src/controllers/video.controller.ts:489-497 | A history without duplicates populates to videos with distinct ids. |
| VideoFeeds.WatchHistoryShape | src/controllers/video.controller.ts:486-506 | 404 exactly when the caller's user record is missing. Otherwise the answer holds each still-existing video of the history once, and nothing else, in the order of the history. |

## Left out

- Media storage (Cloudinary upload and destroy) and temporary files are not modelled as I/O. Their outcomes are inputs: the upload's answer, and whether a destroy threw.
- Assets destroyed before a later failure in `updateVideo` stay destroyed. The model reports them in `destroyed` and does not restore them.
- Authentication, routing, the multer upload middleware and the response envelope (`ApiResponse`) are not modelled. The caller's identifier is an input.
- `getAllVideos` and `getUsersVideos` are outside the modelled core.
- Paging by `aggregatePaginate` (page and limit) in the subscribed feed is left out. The model returns the whole filtered list in order.
- `getUserVideoWatchProgress` is imported by the video routes but the controller does not export it, so there is nothing to model.
- ObjectIds: `ObjectId.isValid` also accepts any 12-character string. Only the 24-hex-digit form is modelled.
- Text.Lower: only ASCII letters are lower-cased. Unicode case folding is not modelled.
- VideoModel.CastTo: JavaScript number spellings (exponents, fractions, hex, `Infinity`, a leading `+`), non-integer body numbers, and array or object body values are not modelled. Numbers are integers; a string cast to a number accepts a decimal integer with white space around it, white space alone (as 0) and the empty string (as null).
- VideoLifecycle.ApplyUpdates: document keys that are not schema paths are not modelled. These include `_id`, `__v`, `allowedUsers`, `reportedBy`, the timestamps and the document's methods; `key in video` is true for them and assigning them has Mongoose-specific effects.
- `updatedAt` timestamps are not modelled.
- Floating-point arithmetic is modelled with exact reals.
- Concurrent requests and the races between the two history updates are not modelled.
- Projections and populate selections only choose which fields are shown, so they are not modelled.
- The liked-videos projection reads `owner.name`, but the user schema has `fullname` and no `name`, so that field of the row is always absent. The model's row carries the owner's id, username and avatar.
- The nested owner populate in the watch history is not modelled.
- Recommendation: the per-video comment counts are an input (`comments`), because the comment collection is outside the core.
- Recommendation: the order among videos tied under a database `$sort` is unspecified. The rankings are inputs constrained only to be sorted permutations of the collection.
- Recommendation: the tag-matched query (`Video.find(...).limit(5)`) has no sort, so which five videos it returns is not fixed. The model takes the order it reads as an input, `tagScan`. `Recommend`'s exact answer is the one the server gives for that order, and its safety properties hold for every order.
- The 401 and 400 branches on the caller's identifier in `getAllVideoProgressForUser` and `likedVideosController` cannot be reached when the caller is authenticated. The model keeps the 400 check and leaves out the 401.
- `deleteVideo` leaves likes, view records and watch-history entries that point at the deleted video. The model keeps them unchanged too, as the code does.

In these places the model follows the code where a reader might expect otherwise:

- A malformed id in `getVideoById` gives 400.
- The watch history is updated before the 404 check.
- The watch percentage has no lower clamp.
- Delete is a hard delete.
- A failed `updateVideo` saves nothing.
- A malformed id in the toggles, `updateWatchProgress`, `updateVideo` and `deleteVideo` gives 500 from the Mongoose cast.
