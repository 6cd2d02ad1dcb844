/** Tweets, and what it means for a bounded set or list of them to hold the
    newest `k` of a larger pool. The news feed of class `Twitter` is built on
    these definitions; its min-heap is modelled as a set of tweets. */
module Tweets {

  /** A posted tweet: the caller's id and the value of the shared counter
      at the moment it was posted. */
  datatype Tweet = Tweet(tweetId: int, createdAt: nat)

  function Min(a: nat, b: nat): nat { if a <= b then a else b }

  /** No two distinct tweets of `s` carry the same timestamp. */
  ghost predicate UniqueStamps(s: set<Tweet>) {
    forall a, b :: a in s && b in s && a.createdAt == b.createdAt ==> a == b
  }

  /** The timestamps of `l` strictly increase from front to back. */
  ghost predicate Increasing(l: seq<Tweet>) {
    forall i, j :: 0 <= i < j < |l| ==> l[i].createdAt < l[j].createdAt
  }

  /** The timestamps of `f` strictly decrease from front to back. */
  ghost predicate Descending(f: seq<Tweet>) {
    forall i, j :: 0 <= i < j < |f| ==> f[i].createdAt > f[j].createdAt
  }

  /** The tweets of `l` at positions `k` and after, as a set. */
  ghost function From(l: seq<Tweet>, k: nat): set<Tweet> {
    set j | k <= j < |l| :: l[j]
  }

  /** The tweets of `l`, as a set. */
  ghost function Elems(l: seq<Tweet>): set<Tweet> {
    From(l, 0)
  }

  /** `m` is a tweet of `h` with the smallest timestamp: what a min-heap
      ordered by `createdAt` polls. */
  predicate IsMinOf(m: Tweet, h: set<Tweet>) {
    m in h && forall t :: t in h ==> m.createdAt <= t.createdAt
  }

  /** `h` holds the `k` newest tweets of `s`, or all of `s` when it has
      fewer than `k`. */
  ghost predicate IsTop(h: set<Tweet>, s: set<Tweet>, k: nat) {
    && h <= s
    && |h| == Min(k, |s|)
    && forall x, y :: x in h && y in s && y !in h ==> y.createdAt < x.createdAt
  }

  /** `feed` lists the `k` newest tweets of `pool`, newest first. */
  ghost predicate IsNewsFeed(feed: seq<Tweet>, pool: set<Tweet>, k: nat) {
    && Descending(feed)
    && |feed| == Min(k, |pool|)
    && (forall i :: 0 <= i < |feed| ==> feed[i] in pool)
    && (forall t, i :: t in pool && t !in feed && 0 <= i < |feed| ==> t.createdAt < feed[i].createdAt)
  }

  /** The ids of the tweets of `f`, in the same order. */
  function Ids(f: seq<Tweet>): (r: seq<int>)
    ensures |r| == |f|
    ensures forall i :: 0 <= i < |f| ==> r[i] == f[i].tweetId
  {
    if f == [] then [] else [f[0].tweetId] + Ids(f[1..])
  }

  /** A subset of tweets with unique stamps has unique stamps. */
  lemma UniqueSubset(a: set<Tweet>, b: set<Tweet>)
    requires a <= b && UniqueStamps(b)
    ensures UniqueStamps(a)
  {
  }

  /** A subset is no larger than its superset, and equal to it when it is
      as large. */
  lemma {:induction false} SubsetCard(a: set<Tweet>, b: set<Tweet>)
    requires a <= b
    ensures |a| <= |b|
    ensures |a| == |b| ==> a == b
  {
    if a != {} {
      var x :| x in a;
      SubsetCard(a - {x}, b - {x});
      if |a| == |b| {
        assert a == (a - {x}) + {x};
        assert b == (b - {x}) + {x};
      }
    }
  }

  /** Adding a tweet to a set grows it by one exactly when it is new. */
  lemma AddCard(h: set<Tweet>, x: Tweet)
    ensures |h + {x}| == if x in h then |h| else |h| + 1
  {
    if x in h {
      assert h + {x} == h;
    } else {
      assert h * {x} == {};
    }
  }

  /** The tweets from position `k` on are the one at `k` and those after. */
  lemma FromStep(l: seq<Tweet>, k: nat)
    requires k < |l|
    ensures From(l, k) == {l[k]} + From(l, k + 1)
  {
    forall t | t in From(l, k) ensures t in {l[k]} + From(l, k + 1) {
      var j :| k <= j < |l| && l[j] == t;
      if j > k {
        assert t in From(l, k + 1);
      }
    }
    forall t | t in From(l, k + 1) ensures t in From(l, k) {
      var j :| k + 1 <= j < |l| && l[j] == t;
    }
  }

  /** The tweets from a later position on are among those from an earlier one. */
  lemma FromShrinks(l: seq<Tweet>, a: nat, b: nat)
    requires a <= b
    ensures From(l, b) <= From(l, a)
  {
    forall t | t in From(l, b) ensures t in From(l, a) {
      var j :| b <= j < |l| && l[j] == t;
    }
  }

  /** In a list whose tweets are pairwise distinct, the positions from `k`
      on hold `|l| - k` different tweets. */
  lemma {:induction false} FromCard(l: seq<Tweet>, k: nat)
    requires k <= |l|
    requires forall i, j :: 0 <= i < j < |l| ==> l[i] != l[j]
    ensures |From(l, k)| == |l| - k
    decreases |l| - k
  {
    if k < |l| {
      FromStep(l, k);
      FromCard(l, k + 1);
      forall j | k + 1 <= j < |l| ensures l[j] != l[k] {}
      assert l[k] !in From(l, k + 1);
    } else {
      assert From(l, k) == {};
    }
  }

  /** Every non-empty set of tweets has a tweet with the smallest timestamp,
      so polling a non-empty heap always succeeds. */
  lemma {:induction false} MinExists(h: set<Tweet>)
    requires h != {}
    ensures exists m :: IsMinOf(m, h)
  {
    var x :| x in h;
    if h != {x} {
      MinExists(h - {x});
      var m :| IsMinOf(m, h - {x});
      if x.createdAt < m.createdAt {
        assert IsMinOf(x, h);
      } else {
        assert IsMinOf(m, h);
      }
    } else {
      assert IsMinOf(x, h);
    }
  }

  /** Adding a tweet to a heap that is below capacity keeps it the top `k`
      of everything offered so far. */
  lemma AddKeepsTop(h: set<Tweet>, s: set<Tweet>, k: nat, x: Tweet)
    requires IsTop(h, s, k) && UniqueStamps(s + {x})
    requires |h + {x}| <= k
    ensures IsTop(h + {x}, s + {x}, k)
  {
    SubsetCard(h, s);
    AddCard(h, x);
    AddCard(s, x);
    if x !in s {
      assert h == s;
    }
  }

  /** Adding a tweet to a full heap and then polling its oldest tweet keeps
      it the top `k` of everything offered so far. */
  lemma AddEvictKeepsTop(h: set<Tweet>, s: set<Tweet>, k: nat, x: Tweet, m: Tweet)
    requires IsTop(h, s, k) && UniqueStamps(s + {x})
    requires |h + {x}| > k && IsMinOf(m, h + {x})
    ensures IsTop(h + {x} - {m}, s + {x}, k)
  {
    var h' := h + {x} - {m};
    if x in s {
      // x was offered before and lost: it is the oldest and is evicted again.
      SubsetCard(h, s);
      assert |h| == k;
      assert s + {x} == s;
      assert m == x;
      assert h' == h;
    } else {
      SubsetCard(h, s);
      assert |h| == k;
      assert |s + {x}| == |s| + 1;
      forall a, b | a in h' && b in s + {x} && b !in h'
        ensures b.createdAt < a.createdAt
      {
        if b == m {
          assert a != m;
        } else if m != x {
          assert b in s && b !in h;
          assert m in h;
        }
      }
    }
  }

  /** Two feeds of the same pool start with the same tweet: the newest one. */
  lemma SameHead(f1: seq<Tweet>, f2: seq<Tweet>, pool: set<Tweet>, k: nat)
    requires UniqueStamps(pool)
    requires IsNewsFeed(f1, pool, k) && IsNewsFeed(f2, pool, k) && |f1| > 0
    ensures |f2| > 0 && f1[0] == f2[0]
  {
    var a, b := f1[0], f2[0];
    assert b.createdAt <= a.createdAt by {
      if b in f1 {
        var j :| 0 <= j < |f1| && f1[j] == b;
        assert j == 0 || f1[0].createdAt > f1[j].createdAt;
      }
    }
    assert a.createdAt <= b.createdAt by {
      if a in f2 {
        var j :| 0 <= j < |f2| && f2[j] == a;
        assert j == 0 || f2[0].createdAt > f2[j].createdAt;
      }
    }
  }

  /** Two lists that are each the `k` newest tweets of the same pool, newest
      first, are the same list: the feed is determined by the pool alone. */
  lemma {:induction false} NewsFeedUnique(f1: seq<Tweet>, f2: seq<Tweet>, pool: set<Tweet>, k: nat)
    requires UniqueStamps(pool)
    requires IsNewsFeed(f1, pool, k) && IsNewsFeed(f2, pool, k)
    ensures f1 == f2
  {
    if |f1| > 0 {
      SameHead(f1, f2, pool, k);
      assert f1[1..] == f2[1..] by {
        var rest := pool - {f1[0]};
        UniqueSubset(rest, pool);
        TailIsNewsFeed(f1, pool, k);
        TailIsNewsFeed(f2, pool, k);
        NewsFeedUnique(f1[1..], f2[1..], rest, k - 1);
      }
      assert f1 == [f1[0]] + f1[1..];
      assert f2 == [f2[0]] + f2[1..];
    }
  }

  /** Dropping the newest tweet of a feed leaves the `k - 1` newest of the
      rest of the pool. */
  lemma TailIsNewsFeed(f: seq<Tweet>, pool: set<Tweet>, k: nat)
    requires IsNewsFeed(f, pool, k) && |f| > 0
    ensures k > 0 && IsNewsFeed(f[1..], pool - {f[0]}, k - 1)
  {
    var rest := pool - {f[0]};
    assert |rest| == |pool| - 1;
    forall t, i | t in rest && t !in f[1..] && 0 <= i < |f[1..]|
      ensures t.createdAt < f[1..][i].createdAt
    {
      assert f[1..][i] == f[i + 1];
      assert t !in f;
    }
  }

  /** The newest tweet of a pool leads any non-empty feed of it. */
  lemma NewestLeadsFeed(f: seq<Tweet>, pool: set<Tweet>, k: nat, x: Tweet)
    requires IsNewsFeed(f, pool, k) && k > 0
    requires x in pool && forall t :: t in pool && t != x ==> t.createdAt < x.createdAt
    ensures |f| > 0 && f[0] == x
  {
    assert |pool| > 0;
    assert x.createdAt <= f[0].createdAt by {
      if x in f {
        var j :| 0 <= j < |f| && f[j] == x;
        assert j == 0 || f[0].createdAt > f[j].createdAt;
      }
    }
  }
}
