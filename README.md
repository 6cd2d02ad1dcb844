# Twitter feed and skip iterator, in Dafny

This project models the two small stateful data structures of the repository and proves what they promise.

- **`Twitter`** (`Twitter.java`) is an in-memory feed. It has three parts:
  - a subscription graph, `followeesMap`: follower → set of followees;
  - per-user append-only tweet logs, `tweetsMap`;
  - one shared counter, `timeStamp`, that stamps every tweet.

  `getNewsFeed` is a bounded top-10 merge. It offers the newest 10 tweets of each followee to a min-heap on the stamp. Whenever the heap holds more than 10 it polls the oldest. It then drains the heap, prepending each tweet, so the result is newest first.
- **`SkipIterator`** (`SkipIterator.java`) wraps an iterator of integers. It looks one element ahead (`nextEl`) and keeps a counted table of pending skips (`skipMap`).

The model has three files:
- `tweets.dfy` (module `Tweets`): the `Tweet` value and what it means for a heap or a list to hold the `k` newest tweets of a pool.
- `twitter.dfy` (module `Feed`): the class `Twitter`, the loops of `getNewsFeed` as methods, and the lemmas about posting, following and the feed.
- `skip_iterator.dfy` (module `Skipping`): the class `SkipIterator` and the example run of `Main`.

Two modelling choices carry most of the proof.

**Twitter.** The heap is a set of tweets. The class invariant `Valid()` guarantees that no two tweets share a stamp, so the heap never holds a tie and a set loses nothing.

`GetNewsFeed` ensures `IsNewsFeed`: strictly descending, `min(10, |pool|)` long, and every tweet of the followees' logs that is left out is older than every tweet that is kept. `NewsFeedUnique` shows that this fixes the list. So the feed does not depend on the order in which the followee set is walked, which the model leaves arbitrary.

**SkipIterator.** The Java state is tied to `Scan`, the effect of `advance`. Above it sits an abstract view, `Future()`: the values the iterator will hand out if no further skip is recorded. In that view:
- `next` pops the head of the future;
- `skip(v)` removes the first `v` still to come (`YieldSkipOne`);
- the constructor's future is the whole input.

The example of `Main` follows from these contracts.

## Model

| member | source | states |
|---|---|---|
| Tweets.MinExists | Twitter.java:126-127 | a non-empty heap always has a tweet with the smallest stamp to poll |
| Tweets.AddKeepsTop | Twitter.java:125-126 | adding a tweet to a heap that stays within 10 keeps it the top 10 of everything offered |
| Tweets.AddEvictKeepsTop | Twitter.java:125-128 | adding a tweet to a full heap and polling the oldest keeps it the top 10 of everything offered, stamps being unique |
| Tweets.NewsFeedUnique | Twitter.java:113-137 | two lists that are each the 10 newest of the same pool, newest first, are equal: the feed is fixed by the pool alone |
| Tweets.TailIsNewsFeed | Twitter.java:134-137 | a feed without its head is the feed of the rest of the pool, one shorter |
| Tweets.NewestLeadsFeed | Twitter.java:134-137 | the newest tweet of the pool heads any non-empty feed of it |
| Tweets.Ids | Twitter.java:136 | the result lists the tweet ids position by position |
| Feed.PostKeepsIncreasing | Twitter.java:80 | after a post each log is still strictly increasing in stamp |
| Feed.PostKeepsStampsBelow | Twitter.java:80 | after a post every stored stamp is below the advanced counter |
| Feed.PostKeepsSingleAuthor | Twitter.java:77-80 | after a post no tweet is in two users' logs |
| Feed.PostKeepsUniqueStamps | Twitter.java:80 | after a post no two tweets share a stamp |
| Feed.PostKeepsValid | Twitter.java:53-80 | posting preserves the class invariant: logs increasing, stamps below the counter, one author per tweet, unique stamps |
| Feed.PostedAllTweets | Twitter.java:80 | a post adds exactly `Tweet(tweetId, old timeStamp)` to the tweets ever posted |
| Feed.PostHeadsOwnFeed | Twitter.java:76-80 | after `u` posts, `u` follows themself and the new tweet is the first of `u`'s feed |
| Feed.FollowIdempotent | Twitter.java:149-152 | following twice is following once |
| Feed.FollowEffect | Twitter.java:149-152 | `follow(a, b)` makes `a`'s set the old set plus `b` (just `{b}` for a new entry) and changes no other user's set |
| Feed.UnfollowEffect | Twitter.java:160-162 | `unfollow(a, b)` makes `a`'s set the old set minus `b`, changes no other user's set, and is a no-op when `b` is not followed or `a` has no entry |
| Feed.UnfollowHides | Twitter.java:160-162 | after `unfollow(a, b)` no tweet of `b` is in `a`'s feed, including for `a == b` |
| Feed.FollowSilentUser | Twitter.java:116-117 | a followee without a log contributes nothing to the pool of a feed |
| Feed.FeedDetermined | Twitter.java:113 | two feeds of the same followee set, whatever the walk order, have the same ids |
| Feed.OutsideWindow | Twitter.java:122 | a tweet older than its log's last 10 is older than every tweet of a top-10 heap of the windows |
| Feed.WindowSuffices | Twitter.java:120-122 | the top 10 of the last-10 windows is the top 10 of the whole logs |
| Feed.PollMin | Twitter.java:127 | polling returns a tweet with the smallest stamp in the heap |
| Feed.Pick | Twitter.java:113 | the walk over the followee set takes some member not yet visited |
| Feed.OfferRecent | Twitter.java:122-129 | offering a log's newest 10 tweets, newest first with eviction, keeps the heap the top 10 of all tweets offered |
| Feed.OfferOne | Twitter.java:124-128 | adding one tweet and polling the oldest when the heap exceeds 10 keeps the heap the top 10 of all tweets offered |
| Feed.OfferedStep | Twitter.java:122-124 | each step offers the tweet one position further back in the log |
| Feed.MergeOne | Twitter.java:116-130 | one followee's newest 10 tweets (none without a log) are merged: the heap becomes the top 10 of the windows walked so far |
| Feed.MergeRecent | Twitter.java:110-132 | after the walk over all followees the heap is the top 10 of all their tweets |
| Feed.DrainStep | Twitter.java:135-136 | prepending the polled oldest tweet keeps the drained list newest first and older than everything left in the heap |
| Feed.DrainedIsFeed | Twitter.java:134-137 | a newest-first list of the whole top-10 heap is the news feed of the pool |
| Feed.DrainNewestFirst | Twitter.java:134-139 | draining the heap and prepending yields the feed: descending, the 10 newest, ids in order |
| Feed.Twitter.constructor | Twitter.java:65-68 | empty graph, empty logs, counter at its default 0; the invariant holds |
| Feed.Twitter.PostTweet | Twitter.java:70-81 | self-follow, then the logs become `Posted(old logs, old timeStamp, userId, tweetId)`: exactly one `Tweet(tweetId, old timeStamp)` appended to the poster's log, other logs unchanged; counter up by one; invariant kept |
| Feed.Twitter.GetNewsFeed | Twitter.java:83-140 | the ids of the 10 newest tweets of all followees' logs, newest first; at most 10; empty when the user has no entry; no field changes |
| Feed.Twitter.Follow | Twitter.java:142-153 | the graph becomes `Followed(old graph, follower, followee)`; logs and counter unchanged; invariant kept |
| Feed.Twitter.Unfollow | Twitter.java:155-163 | the graph becomes `Unfollowed(old graph, follower, followee)`; logs and counter unchanged; invariant kept |
| Skipping.AddPending | SkipIterator.java:83 | the count of the skipped value goes up by one from 0 when absent; other counts unchanged; positivity kept |
| Skipping.UsePending | SkipIterator.java:43-44 | the count goes down by one, the entry goes when it reaches 0, other counts unchanged, positivity kept |
| Skipping.Scan | SkipIterator.java:38-50 | `advance` ends with nothing buffered only when the iterator is exhausted, else buffers the element just read, which has no pending skip; positive counts stay positive |
| Skipping.ScanYield | SkipIterator.java:38-50 | what `advance` drops and buffers does not change the values still to come |
| Skipping.ScanCounts | SkipIterator.java:42-44 | each element `advance` drops takes exactly one off its own count; no other count changes |
| Skipping.YieldNoSkips | SkipIterator.java:24-29 | with no pending skip every element is handed out |
| Skipping.YieldSkipOne | SkipIterator.java:79-84 | recording one more pending skip of `v` removes exactly the first `v` still to come |
| Skipping.RemoveFirstCount | SkipIterator.java:79-84 | removing the first `v` takes out one `v` when there is one, else changes nothing |
| Skipping.SkipIterator.constructor | SkipIterator.java:24-29 | empty table, first `advance` done, invariant holds, the values to come are the whole input |
| Skipping.SkipIterator.Advance | SkipIterator.java:31-51 | the new position, table and buffer are those of `Scan` from the old position and table |
| Skipping.SkipIterator.HasNext | SkipIterator.java:53-56 | true iff an element is buffered, iff some value is still to come; no state change |
| Skipping.SkipIterator.Next | SkipIterator.java:58-67 | returns the old buffer (nothing when none) and re-advances: the first value to come is handed out and removed |
| Skipping.SkipIterator.Skip | SkipIterator.java:69-85 | buffered `val`: re-advance; other `val`: one more pending skip, buffer and position unchanged; nothing buffered: null-pointer outcome, state unchanged; in all non-failing cases the first `val` to come is removed |
| Skipping.ExampleRun | SkipIterator.java:87-104 | on 5,6,7,5,6,8,9,5,5,6,8 the calls of `Main` print true, 6, 7, 6, 5, 5, 6, true, 8, false |

## Left out

- 32-bit `int` overflow is not modelled. This covers:
  - `timeStamp`, a `nat` here, which wraps after 2^31 posts in Java;
  - the heap comparator `a.createdAt - b.createdAt`, which can overflow for stamps far apart;
  - the counts of `skipMap`, which are unbounded `int`s.
- `java.util.PriorityQueue`, `HashMap` and `HashSet` internals: the heap is a `set<Tweet>` that polls a tweet with the smallest stamp, and the maps and sets are Dafny `map` and `set`.
  - Because stamps are unique, the set view loses nothing.
  - Tweets are values rather than objects. No two distinct tweets share a stamp, so identity adds nothing.
- The iteration order of a `HashSet`: `Pick` takes an arbitrary member. `FeedDetermined` shows the feed does not depend on it.
- Feed.Twitter.GetNewsFeed: the Java method is one body. Here it is split along its loops and loop bodies: `MergeRecent` (the walk over the followees) with `MergeOne` (one followee), `OfferRecent` (the inner loop over one log) with `OfferOne` (one add and poll), and `DrainNewestFirst` (the drain). The tweets of the feed are returned as a ghost out-parameter beside the ids.
- Posting establishes a self-follow, but it is not an invariant: `unfollow(u, u)` removes it and hides `u`'s own tweets from `u`'s feed. `UnfollowHides` states this for `a == b`. The model follows the code, which has no guard.
- The `java.util.Iterator` interface and boxing are not modelled. The wrapped iterator `nit` is the sequence of its elements plus the number it has handed out. `nextEl` is an `Option<int>`, and `null` elements inside the wrapped iterator are out of scope.
- Skipping.SkipIterator.Skip: the `NullPointerException` thrown when nothing is buffered becomes the outcome `NullPointer`, with the state unchanged.
- `System.out.println` in `Main`: `ExampleRun` returns the printed values as a sequence instead. It is split into five stages only to keep each proof small.
- The complexity comments and the commented-out own-tweets code of `Twitter.java` are not behaviour.
