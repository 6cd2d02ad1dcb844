/** The in-memory feed of Twitter.java: a subscription graph (`followeesMap`),
    per-user append-only tweet logs (`tweetsMap`) and one shared counter
    (`timeStamp`) that stamps every tweet, with a bounded top-10 merge for
    the news feed. */
module Feed {
  import opened Tweets

  /** How many tweets a news feed holds, and how many of each followee's
      newest tweets the merge looks at. */
  const FeedSize: nat := 10

  /** The followees of `u`; a user without an entry follows nobody. */
  function FolloweesOf(g: map<int, set<int>>, u: int): set<int> {
    if u in g then g[u] else {}
  }

  /** The log of `u`; a user without an entry has posted nothing. */
  function TweetsOf(logs: map<int, seq<Tweet>>, u: int): seq<Tweet> {
    if u in logs then logs[u] else []
  }

  /** The graph after `follower` follows `followee`, the entry being created
      on first use. */
  function Followed(g: map<int, set<int>>, follower: int, followee: int): map<int, set<int>> {
    g[follower := FolloweesOf(g, follower) + {followee}]
  }

  /** The graph after `follower` unfollows `followee`: only an existing entry
      is touched. */
  function Unfollowed(g: map<int, set<int>>, follower: int, followee: int): map<int, set<int>> {
    if follower in g then g[follower := g[follower] - {followee}] else g
  }

  /** The logs after `u` posts `tweetId` while the counter reads `stamp`. */
  function Posted(logs: map<int, seq<Tweet>>, stamp: nat, u: int, tweetId: int): map<int, seq<Tweet>> {
    logs[u := TweetsOf(logs, u) + [Tweet(tweetId, stamp)]]
  }

  /** The first position of a log that the merge looks at: only the newest
      `FeedSize` tweets are taken from each followee. */
  function WindowStart(l: seq<Tweet>): nat {
    |l| - Min(FeedSize, |l|)
  }

  /** Every tweet in the logs of `users`. */
  ghost function Pool(users: set<int>, logs: map<int, seq<Tweet>>): set<Tweet> {
    set u, j | u in users && u in logs && 0 <= j < |logs[u]| :: logs[u][j]
  }

  /** The newest `FeedSize` tweets of each log of `users`. */
  ghost function WindowPool(users: set<int>, logs: map<int, seq<Tweet>>): set<Tweet> {
    set u, j | u in users && u in logs && WindowStart(logs[u]) <= j < |logs[u]| :: logs[u][j]
  }

  /** Every tweet ever posted. */
  ghost function AllTweets(logs: map<int, seq<Tweet>>): set<Tweet> {
    Pool(logs.Keys, logs)
  }

  /** Each log is strictly increasing in time. */
  ghost predicate LogsIncreasing(logs: map<int, seq<Tweet>>) {
    forall u :: u in logs ==> Increasing(logs[u])
  }

  /** Every stored stamp is below the counter. */
  ghost predicate StampsBelow(logs: map<int, seq<Tweet>>, stamp: nat) {
    forall u, j :: u in logs && 0 <= j < |logs[u]| ==> logs[u][j].createdAt < stamp
  }

  /** No tweet is in two users' logs. */
  ghost predicate SingleAuthor(logs: map<int, seq<Tweet>>) {
    forall u, v, i, j ::
      u in logs && v in logs && 0 <= i < |logs[u]| && 0 <= j < |logs[v]| && logs[u][i] == logs[v][j] ==> u == v
  }

  /** The invariant of the logs: each log is strictly increasing in time,
      every stamp is below the counter, no tweet is in two users' logs and
      no two tweets share a stamp. */
  ghost predicate LogsValid(logs: map<int, seq<Tweet>>, stamp: nat) {
    && LogsIncreasing(logs)
    && StampsBelow(logs, stamp)
    && SingleAuthor(logs)
    && UniqueStamps(AllTweets(logs))
  }

  /** A slot of the logs after posting is the new tweet, at the end of the
      poster's log, or the same slot as before. */
  lemma PostedAt(logs: map<int, seq<Tweet>>, stamp: nat, u: int, tweetId: int, v: int, j: int)
    requires v in Posted(logs, stamp, u, tweetId) && 0 <= j < |Posted(logs, stamp, u, tweetId)[v]|
    ensures || (v == u && j == |TweetsOf(logs, u)| && Posted(logs, stamp, u, tweetId)[v][j] == Tweet(tweetId, stamp))
            || (v in logs && j < |logs[v]| && Posted(logs, stamp, u, tweetId)[v][j] == logs[v][j])
  {
  }

  /** Posting adds exactly the new tweet to the tweets ever posted. */
  lemma PostedAllTweets(logs: map<int, seq<Tweet>>, stamp: nat, u: int, tweetId: int)
    ensures AllTweets(Posted(logs, stamp, u, tweetId)) == AllTweets(logs) + {Tweet(tweetId, stamp)}
  {
    var x := Tweet(tweetId, stamp);
    var logs': map<int, seq<Tweet>> := Posted(logs, stamp, u, tweetId);
    forall t | t in AllTweets(logs')
      ensures t in AllTweets(logs) + {x}
    {
      var v, j :| v in logs' && 0 <= j < |logs'[v]| && logs'[v][j] == t;
      PostedAt(logs, stamp, u, tweetId, v, j);
    }
    forall t | t in AllTweets(logs) + {x}
      ensures t in AllTweets(logs')
    {
      if t == x {
        assert logs'[u][|TweetsOf(logs, u)|] == x;
      } else {
        var v, j :| v in logs && 0 <= j < |logs[v]| && logs[v][j] == t;
        assert logs'[v][j] == t;
      }
    }
  }

  /** Posting appends a tweet newer than every tweet of the poster's log. */
  lemma PostKeepsIncreasing(logs: map<int, seq<Tweet>>, stamp: nat, u: int, tweetId: int)
    requires LogsIncreasing(logs) && StampsBelow(logs, stamp)
    ensures LogsIncreasing(Posted(logs, stamp, u, tweetId))
  {
    var l := TweetsOf(logs, u);
    assert Posted(logs, stamp, u, tweetId)[u] == l + [Tweet(tweetId, stamp)];
    assert forall j :: 0 <= j < |l| ==> l[j].createdAt < stamp;
  }

  /** After posting, every stamp is below the advanced counter. */
  lemma PostKeepsStampsBelow(logs: map<int, seq<Tweet>>, stamp: nat, u: int, tweetId: int)
    requires StampsBelow(logs, stamp)
    ensures StampsBelow(Posted(logs, stamp, u, tweetId), stamp + 1)
  {
    var logs': map<int, seq<Tweet>> := Posted(logs, stamp, u, tweetId);
    forall v: int, j: int | v in logs' && 0 <= j < |logs'[v]|
      ensures logs'[v][j].createdAt < stamp + 1
    {
      PostedAt(logs, stamp, u, tweetId, v, j);
    }
  }

  /** The new tweet is only in the poster's log: its stamp is new. */
  lemma PostKeepsSingleAuthor(logs: map<int, seq<Tweet>>, stamp: nat, u: int, tweetId: int)
    requires SingleAuthor(logs) && StampsBelow(logs, stamp)
    ensures SingleAuthor(Posted(logs, stamp, u, tweetId))
  {
    var logs': map<int, seq<Tweet>> := Posted(logs, stamp, u, tweetId);
    forall v: int, w: int, i: int, j: int | v in logs' && w in logs' && 0 <= i < |logs'[v]| && 0 <= j < |logs'[w]| && logs'[v][i] == logs'[w][j]
      ensures v == w
    {
      PostedAt(logs, stamp, u, tweetId, v, i);
      PostedAt(logs, stamp, u, tweetId, w, j);
    }
  }

  /** The new tweet's stamp is taken by no earlier tweet. */
  lemma PostKeepsUniqueStamps(logs: map<int, seq<Tweet>>, stamp: nat, u: int, tweetId: int)
    requires UniqueStamps(AllTweets(logs)) && StampsBelow(logs, stamp)
    ensures UniqueStamps(AllTweets(Posted(logs, stamp, u, tweetId)))
  {
    forall t | t in AllTweets(logs)
      ensures t.createdAt < stamp
    {
      var v, j :| v in logs && 0 <= j < |logs[v]| && logs[v][j] == t;
    }
    PostedAllTweets(logs, stamp, u, tweetId);
  }

  /** Posting keeps the logs valid once the counter has moved on: the new
      tweet carries the old counter, which is above every stored stamp, so
      it is newer than every tweet and its stamp is taken by no other. */
  lemma PostKeepsValid(logs: map<int, seq<Tweet>>, stamp: nat, u: int, tweetId: int)
    requires LogsValid(logs, stamp)
    ensures LogsValid(Posted(logs, stamp, u, tweetId), stamp + 1)
  {
    PostKeepsIncreasing(logs, stamp, u, tweetId);
    PostKeepsStampsBelow(logs, stamp, u, tweetId);
    PostKeepsSingleAuthor(logs, stamp, u, tweetId);
    PostKeepsUniqueStamps(logs, stamp, u, tweetId);
  }

  /** Following is idempotent. */
  lemma FollowIdempotent(g: map<int, set<int>>, follower: int, followee: int)
    ensures Followed(Followed(g, follower, followee), follower, followee) == Followed(g, follower, followee)
  {
    var once := Followed(g, follower, followee);
    assert FolloweesOf(once, follower) + {followee} == FolloweesOf(once, follower);
  }

  /** Following adds exactly the one edge and leaves every other user's
      followees as they were. */
  lemma FollowEffect(g: map<int, set<int>>, follower: int, followee: int, u: int)
    ensures FolloweesOf(Followed(g, follower, followee), follower) == FolloweesOf(g, follower) + {followee}
    ensures u != follower ==> FolloweesOf(Followed(g, follower, followee), u) == FolloweesOf(g, u)
  {
  }

  /** Unfollowing removes exactly the one edge, leaves every other user's
      followees as they were, and is a no-op when the edge is absent. */
  lemma UnfollowEffect(g: map<int, set<int>>, follower: int, followee: int, u: int)
    ensures FolloweesOf(Unfollowed(g, follower, followee), follower) == FolloweesOf(g, follower) - {followee}
    ensures u != follower ==> FolloweesOf(Unfollowed(g, follower, followee), u) == FolloweesOf(g, u)
    ensures followee !in FolloweesOf(g, follower) ==> Unfollowed(g, follower, followee) == g
  {
    if follower in g && followee !in g[follower] {
      assert g[follower] - {followee} == g[follower];
    }
  }

  /** Whatever order the followee set is walked in, the feed is the same:
      the pool alone fixes it, its stamps being unique. */
  lemma FeedDetermined(users: set<int>, logs: map<int, seq<Tweet>>, f1: seq<Tweet>, f2: seq<Tweet>)
    requires UniqueStamps(AllTweets(logs))
    requires IsNewsFeed(f1, Pool(users, logs), FeedSize) && IsNewsFeed(f2, Pool(users, logs), FeedSize)
    ensures Ids(f1) == Ids(f2)
  {
    PoolUnique(users, logs);
    NewsFeedUnique(f1, f2, Pool(users, logs), FeedSize);
  }

  /** After `u` posts, `u` follows themself and the new tweet is the newest
      of all: it heads `u`'s news feed. */
  lemma PostHeadsOwnFeed(g: map<int, set<int>>, logs: map<int, seq<Tweet>>, stamp: nat, u: int, tweetId: int, f: seq<Tweet>)
    requires StampsBelow(logs, stamp)
    requires IsNewsFeed(f, Pool(FolloweesOf(Followed(g, u, u), u), Posted(logs, stamp, u, tweetId)), FeedSize)
    ensures |f| > 0 && f[0] == Tweet(tweetId, stamp)
  {
    var x := Tweet(tweetId, stamp);
    var logs' := Posted(logs, stamp, u, tweetId);
    var pool := Pool(FolloweesOf(Followed(g, u, u), u), logs');
    assert logs'[u][|TweetsOf(logs, u)|] == x;
    forall t | t in pool && t != x
      ensures t.createdAt < x.createdAt
    {
      var v, j :| v in FolloweesOf(Followed(g, u, u), u) && v in logs' && 0 <= j < |logs'[v]| && logs'[v][j] == t;
      PostedAt(logs, stamp, u, tweetId, v, j);
    }
    NewestLeadsFeed(f, pool, FeedSize, x);
  }

  /** After `a` unfollows `b`, no tweet of `b` is in `a`'s news feed; this
      holds for `a == b` too, as unfollowing oneself is not prevented. */
  lemma UnfollowHides(g: map<int, set<int>>, logs: map<int, seq<Tweet>>, a: int, b: int, f: seq<Tweet>)
    requires SingleAuthor(logs)
    requires IsNewsFeed(f, Pool(FolloweesOf(Unfollowed(g, a, b), a), logs), FeedSize)
    ensures forall i, j :: b in logs && 0 <= i < |f| && 0 <= j < |logs[b]| ==> f[i] != logs[b][j]
  {
    UnfollowEffect(g, a, b, a);
    var users := FolloweesOf(Unfollowed(g, a, b), a);
    forall i, j | b in logs && 0 <= i < |f| && 0 <= j < |logs[b]|
      ensures f[i] != logs[b][j]
    {
      var v, k :| v in users && v in logs && 0 <= k < |logs[v]| && logs[v][k] == f[i];
      assert v != b;
    }
  }

  /** Following a user who has posted nothing leaves the pool of a feed as
      it was: followees without a log contribute nothing. */
  lemma FollowSilentUser(g: map<int, set<int>>, logs: map<int, seq<Tweet>>, a: int, b: int)
    requires b !in logs
    ensures Pool(FolloweesOf(Followed(g, a, b), a), logs) == Pool(FolloweesOf(g, a), logs)
  {
    FollowEffect(g, a, b, a);
  }

  /** The window of one more user joins the windows already merged. */
  lemma WindowPoolAdd(done: set<int>, u: int, logs: map<int, seq<Tweet>>)
    ensures WindowPool(done + {u}, logs)
         == WindowPool(done, logs) + (if u in logs then From(logs[u], WindowStart(logs[u])) else {})
  {
    var lhs := WindowPool(done + {u}, logs);
    var rhs := WindowPool(done, logs) + (if u in logs then From(logs[u], WindowStart(logs[u])) else {});
    forall t | t in lhs ensures t in rhs {
      var v, j :| v in done + {u} && v in logs && WindowStart(logs[v]) <= j < |logs[v]| && logs[v][j] == t;
      if v != u {
        assert t in WindowPool(done, logs);
      }
    }
    forall t | t in rhs ensures t in lhs {
      if t in WindowPool(done, logs) {
        var v, j :| v in done && v in logs && WindowStart(logs[v]) <= j < |logs[v]| && logs[v][j] == t;
      } else {
        var j :| WindowStart(logs[u]) <= j < |logs[u]| && logs[u][j] == t;
      }
    }
  }

  /** The window of each merged user lies in the merged windows. */
  lemma WindowInWindowPool(users: set<int>, u: int, logs: map<int, seq<Tweet>>)
    requires u in users && u in logs
    ensures From(logs[u], WindowStart(logs[u])) <= WindowPool(users, logs)
  {
    forall t | t in From(logs[u], WindowStart(logs[u])) ensures t in WindowPool(users, logs) {
      var j :| WindowStart(logs[u]) <= j < |logs[u]| && logs[u][j] == t;
    }
  }

  /** A tweet outside its log's window is older than every tweet of a
      top-`FeedSize` heap of the windows, and that heap is full: the window
      alone supplies `FeedSize` newer tweets. */
  lemma OutsideWindow(h: set<Tweet>, w: set<Tweet>, l: seq<Tweet>, j: nat)
    requires Increasing(l) && From(l, WindowStart(l)) <= w && IsTop(h, w, FeedSize)
    requires j < |l| && l[j] !in w
    ensures |w| >= FeedSize
    ensures forall x :: x in h ==> l[j].createdAt < x.createdAt
  {
    var start := WindowStart(l);
    var e := From(l, start);
    forall k | start <= k < |l| ensures l[k] in e {}
    FromCard(l, start);
    SubsetCard(e, w);
    forall y | y in e
      ensures l[j].createdAt < y.createdAt
    {
      var k :| start <= k < |l| && l[k] == y;
    }
    if e <= h {
      SubsetCard(e, h);
    } else {
      var y :| y in e && y !in h;
    }
  }

  /** Taking only the newest `FeedSize` tweets of each log loses nothing:
      the top `FeedSize` of the windows is the top `FeedSize` of the logs. */
  lemma WindowSuffices(h: set<Tweet>, users: set<int>, logs: map<int, seq<Tweet>>)
    requires LogsIncreasing(logs)
    requires IsTop(h, WindowPool(users, logs), FeedSize)
    ensures IsTop(h, Pool(users, logs), FeedSize)
  {
    var w := WindowPool(users, logs);
    var p := Pool(users, logs);
    forall t | t in w ensures t in p {
      var u, j :| u in users && u in logs && WindowStart(logs[u]) <= j < |logs[u]| && logs[u][j] == t;
    }
    forall t, x | t in p && t !in w && x in h
      ensures t.createdAt < x.createdAt
    {
      var u, j :| u in users && u in logs && 0 <= j < |logs[u]| && logs[u][j] == t;
      WindowInWindowPool(users, u, logs);
      OutsideWindow(h, w, logs[u], j);
    }
    SubsetCard(w, p);
    if p - w == {} {
      forall t | t in p ensures t in w {
        assert t !in p - w;
      }
      assert p == w;
    } else {
      var t :| t in p - w;
      var u, j :| u in users && u in logs && 0 <= j < |logs[u]| && logs[u][j] == t;
      WindowInWindowPool(users, u, logs);
      OutsideWindow(h, w, logs[u], j);
    }
  }

  /** The tweets of some users' logs are tweets of the logs, so their
      stamps are unique too. */
  lemma PoolUnique(users: set<int>, logs: map<int, seq<Tweet>>)
    requires UniqueStamps(AllTweets(logs))
    ensures Pool(users, logs) <= AllTweets(logs) && UniqueStamps(Pool(users, logs))
  {
    forall t | t in Pool(users, logs) ensures t in AllTweets(logs) {
      var u, j :| u in users && u in logs && 0 <= j < |logs[u]| && logs[u][j] == t;
    }
  }

  /** The tweets already offered to the heap and those of one more log are
      all tweets of the logs, so their stamps are unique. */
  lemma OfferedUnique(done: set<int>, u: int, logs: map<int, seq<Tweet>>)
    requires u in logs && UniqueStamps(AllTweets(logs))
    ensures UniqueStamps(WindowPool(done, logs) + Elems(logs[u]))
  {
    forall t | t in WindowPool(done, logs) + Elems(logs[u])
      ensures t in AllTweets(logs)
    {
      if t in Elems(logs[u]) {
        var j :| 0 <= j < |logs[u]| && logs[u][j] == t;
      } else {
        var v, j :| v in done && v in logs && WindowStart(logs[v]) <= j < |logs[v]| && logs[v][j] == t;
      }
    }
  }

  /** The next followee of the walk over the followee set: an arbitrary
      member, as a hash set's iteration order is unspecified. */
  method Pick<A>(s: set<A>) returns (x: A)
    requires s != {}
    ensures x in s
  {
    x :| x in s;
  }

  /** Polls the heap: returns one of its oldest tweets. */
  method PollMin(pq: set<Tweet>) returns (oldest: Tweet)
    requires pq != {}
    ensures IsMinOf(oldest, pq)
  {
    MinExists(pq);
    oldest :| oldest in pq && IsMinOf(oldest, pq);
  }

  /** Offers one tweet to the heap, polling the oldest when the heap then
      holds more than `FeedSize`: the heap stays the top `FeedSize` of all
      tweets offered. */
  method OfferOne(pq: set<Tweet>, ghost seen: set<Tweet>, tw: Tweet) returns (pq': set<Tweet>)
    requires IsTop(pq, seen, FeedSize) && UniqueStamps(seen + {tw})
    ensures IsTop(pq', seen + {tw}, FeedSize)
  {
    pq' := pq + {tw};
    if |pq'| > FeedSize {
      var oldest := PollMin(pq');
      pq' := pq' - {oldest};
      AddEvictKeepsTop(pq, seen, FeedSize, tw, oldest);
    } else {
      AddKeepsTop(pq, seen, FeedSize, tw);
    }
  }

  /** Offers the newest `FeedSize` tweets of one followee's log to the heap,
      newest first, polling the oldest whenever it holds more than
      `FeedSize`: the heap stays the top `FeedSize` of all offered tweets. */
  method OfferRecent(pq: set<Tweet>, ghost offered: set<Tweet>, tweets: seq<Tweet>) returns (pq': set<Tweet>)
    requires IsTop(pq, offered, FeedSize)
    requires UniqueStamps(offered + Elems(tweets))
    ensures IsTop(pq', offered + From(tweets, WindowStart(tweets)), FeedSize)
  {
    pq' := pq;
    var i := |tweets| - 1;
    assert From(tweets, i + 1) == {};
    assert offered + From(tweets, i + 1) == offered;
    while i >= 0 && i >= |tweets| - FeedSize
      invariant -1 <= i < |tweets| && i >= |tweets| - FeedSize - 1
      invariant IsTop(pq', offered + From(tweets, i + 1), FeedSize)
    {
      OfferedStep(offered, tweets, i);
      pq' := OfferOne(pq', offered + From(tweets, i + 1), tweets[i]);
      i := i - 1;
    }
    assert i + 1 == WindowStart(tweets);
  }

  /** Offering the tweet at `i` extends the offered tweets by one position
      of the log, and their stamps stay unique. */
  lemma OfferedStep(offered: set<Tweet>, tweets: seq<Tweet>, i: nat)
    requires i < |tweets| && UniqueStamps(offered + Elems(tweets))
    ensures offered + From(tweets, i + 1) + {tweets[i]} == offered + From(tweets, i)
    ensures UniqueStamps(offered + From(tweets, i + 1) + {tweets[i]})
  {
    FromStep(tweets, i);
    FromShrinks(tweets, 0, i);
    UniqueSubset(offered + From(tweets, i), offered + Elems(tweets));
  }

  /** Offers the newest `FeedSize` tweets of one followee, when they have a
      log: the heap becomes the top `FeedSize` of the windows of the
      followees walked so far and this one. */
  method MergeOne(pq: set<Tweet>, ghost done: set<int>, followee: int, logs: map<int, seq<Tweet>>) returns (pq': set<Tweet>)
    requires UniqueStamps(AllTweets(logs)) && IsTop(pq, WindowPool(done, logs), FeedSize)
    ensures IsTop(pq', WindowPool(done + {followee}, logs), FeedSize)
  {
    WindowPoolAdd(done, followee, logs);
    pq' := pq;
    if followee in logs {
      OfferedUnique(done, followee, logs);
      pq' := OfferRecent(pq, WindowPool(done, logs), logs[followee]);
    }
  }

  /** Merges the newest `FeedSize` tweets of each followee into a heap
      bounded by `FeedSize`. The followee set is walked in an arbitrary
      order; whatever the order, the heap ends up holding the `FeedSize`
      newest tweets of all the followees' logs. */
  method MergeRecent(followees: set<int>, logs: map<int, seq<Tweet>>) returns (pq: set<Tweet>)
    requires LogsIncreasing(logs) && UniqueStamps(AllTweets(logs))
    ensures IsTop(pq, Pool(followees, logs), FeedSize)
  {
    pq := {};
    ghost var done: set<int> := {};
    assert WindowPool(done, logs) == {};
    var remaining := followees;
    while remaining != {}
      invariant done == followees - remaining && remaining <= followees
      invariant IsTop(pq, WindowPool(done, logs), FeedSize)
      decreases remaining
    {
      var followee := Pick(remaining);
      remaining := remaining - {followee};
      pq := MergeOne(pq, done, followee, logs);
      done := done + {followee};
    }
    assert done == followees;
    WindowSuffices(pq, followees, logs);
  }

  /** A descending list of all the tweets of a top-`FeedSize` heap is the
      news feed of the pool the heap was taken from. */
  lemma DrainedIsFeed(feed: seq<Tweet>, pq: set<Tweet>, pool: set<Tweet>)
    requires IsTop(pq, pool, FeedSize)
    requires Descending(feed) && |feed| == |pq|
    requires forall i :: 0 <= i < |feed| ==> feed[i] in pq
    ensures IsNewsFeed(feed, pool, FeedSize)
  {
    FromCard(feed, 0);
    assert Elems(feed) <= pq by {
      forall t | t in Elems(feed) ensures t in pq {
        var j :| 0 <= j < |feed| && feed[j] == t;
      }
    }
    SubsetCard(Elems(feed), pq);
    forall t, i | t in pool && t !in feed && 0 <= i < |feed|
      ensures t.createdAt < feed[i].createdAt
    {
      assert t !in Elems(feed);
    }
  }

  /** Putting the oldest tweet left in the heap in front of those already
      drained keeps the drained list newest first, with every tweet still in
      the heap newer than all of it. */
  lemma DrainStep(feed: seq<Tweet>, heap: set<Tweet>, pq: set<Tweet>, oldest: Tweet)
    requires heap <= pq && IsMinOf(oldest, heap) && UniqueStamps(pq)
    requires forall i :: 0 <= i < |feed| ==> feed[i] in pq
    requires Descending(feed)
    requires forall t, i :: t in heap && 0 <= i < |feed| ==> feed[i].createdAt < t.createdAt
    ensures forall i :: 0 <= i < |[oldest] + feed| ==> ([oldest] + feed)[i] in pq
    ensures Descending([oldest] + feed)
    ensures forall t, i :: t in heap - {oldest} && 0 <= i < |[oldest] + feed| ==> ([oldest] + feed)[i].createdAt < t.createdAt
    ensures Ids([oldest] + feed) == [oldest.tweetId] + Ids(feed)
  {
    var f := [oldest] + feed;
    assert f[1..] == feed;
    forall t, i | t in heap - {oldest} && 0 <= i < |f|
      ensures f[i].createdAt < t.createdAt
    {
      if i > 0 {
        assert f[i] == feed[i - 1];
      }
    }
  }

  /** Drains the heap oldest first, putting each tweet in front of those
      already drained, so the result lists the heap newest first. */
  method DrainNewestFirst(pq: set<Tweet>, ghost pool: set<Tweet>) returns (result: seq<int>, ghost feed: seq<Tweet>)
    requires IsTop(pq, pool, FeedSize) && UniqueStamps(pool)
    ensures IsNewsFeed(feed, pool, FeedSize)
    ensures result == Ids(feed)
  {
    UniqueSubset(pq, pool);
    var heap := pq;
    result, feed := [], [];
    while heap != {}
      invariant heap <= pq
      invariant forall i :: 0 <= i < |feed| ==> feed[i] in pq
      invariant Descending(feed)
      invariant forall t, i :: t in heap && 0 <= i < |feed| ==> feed[i].createdAt < t.createdAt
      invariant |feed| + |heap| == |pq|
      invariant result == Ids(feed)
      decreases |heap|
    {
      var oldest := PollMin(heap);
      DrainStep(feed, heap, pq, oldest);
      heap := heap - {oldest};
      result := [oldest.tweetId] + result;
      feed := [oldest] + feed;
    }
    DrainedIsFeed(feed, pq, pool);
  }

  class Twitter {
    /** follower -> the users they follow */
    var followeesMap: map<int, set<int>>
    /** user -> their tweets, in posting order */
    var tweetsMap: map<int, seq<Tweet>>
    /** the next stamp to hand out */
    var timeStamp: nat

    ghost predicate Valid()
      reads this
    {
      LogsValid(tweetsMap, timeStamp)
    }

    constructor ()
      ensures Valid()
      ensures followeesMap == map[] && tweetsMap == map[] && timeStamp == 0
    {
      followeesMap := map[];
      tweetsMap := map[];
      timeStamp := 0;
    }

    /** `userId` follows themself, then posts `tweetId` stamped with the
        counter, which moves on by one. */
    method PostTweet(userId: int, tweetId: int)
      requires Valid()
      modifies this
      ensures Valid()
      ensures followeesMap == Followed(old(followeesMap), userId, userId)
      ensures tweetsMap == Posted(old(tweetsMap), old(timeStamp), userId, tweetId)
      ensures timeStamp == old(timeStamp) + 1
    {
      Follow(userId, userId);
      if userId !in tweetsMap {
        tweetsMap := tweetsMap[userId := []];
      }
      PostKeepsValid(tweetsMap, timeStamp, userId, tweetId);
      tweetsMap := tweetsMap[userId := tweetsMap[userId] + [Tweet(tweetId, timeStamp)]];
      timeStamp := timeStamp + 1;
    }

    /** The ids of the `FeedSize` newest tweets of the users `userId`
        follows, newest first; `feed` is the tweets themselves. */
    method GetNewsFeed(userId: int) returns (result: seq<int>, ghost feed: seq<Tweet>)
      requires Valid()
      ensures IsNewsFeed(feed, Pool(FolloweesOf(followeesMap, userId), tweetsMap), FeedSize)
      ensures result == Ids(feed)
      ensures |result| <= FeedSize
      ensures userId !in followeesMap ==> result == []
    {
      var pq: set<Tweet> := {};
      if userId in followeesMap {
        pq := MergeRecent(followeesMap[userId], tweetsMap);
      } else {
        assert Pool({}, tweetsMap) == {};
      }
      PoolUnique(FolloweesOf(followeesMap, userId), tweetsMap);
      result, feed := DrainNewestFirst(pq, Pool(FolloweesOf(followeesMap, userId), tweetsMap));
    }

    method Follow(followerId: int, followeeId: int)
      requires Valid()
      modifies this
      ensures Valid()
      ensures followeesMap == Followed(old(followeesMap), followerId, followeeId)
      ensures tweetsMap == old(tweetsMap) && timeStamp == old(timeStamp)
    {
      if followerId !in followeesMap {
        followeesMap := followeesMap[followerId := {}];
      }
      followeesMap := followeesMap[followerId := followeesMap[followerId] + {followeeId}];
    }

    method Unfollow(followerId: int, followeeId: int)
      requires Valid()
      modifies this
      ensures Valid()
      ensures followeesMap == Unfollowed(old(followeesMap), followerId, followeeId)
      ensures tweetsMap == old(tweetsMap) && timeStamp == old(timeStamp)
    {
      if followerId in followeesMap {
        followeesMap := followeesMap[followerId := followeesMap[followerId] - {followeeId}];
      }
    }
  }
}
