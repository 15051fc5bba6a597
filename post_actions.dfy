/**
 * The post server actions: the feed a user browses, creating a post against the posting
 * fee, and deleting a post, which first pays every submitter still waiting for a review.
 */
module PostActions {
  import opened Store
  import opened Text
  import opened Ledger

  const PostingCost: int := 25
  const StandardReward: int := 5
  /** Posts a non-admin may create between the start and the end of one day. */
  const DailyPostLimit: int := 5

  // ---------------------------------------------------------------------------------
  // The feed

  /** `userId || ""`: the author whose posts the feed hides. */
  function ExcludedAuthor(session: Option<Session>): (a: UserId)
    ensures LoggedIn(session) ==> a == session.value.userId
    ensures !LoggedIn(session) ==> a == ""
  {
    if LoggedIn(session) then session.value.userId else ""
  }

  /** `userId || "anonymous"`: the submitter whose submissions hide a post. */
  function SubmitterKey(session: Option<Session>): (k: UserId)
    ensures LoggedIn(session) ==> k == session.value.userId
    ensures !LoggedIn(session) ==> k == "anonymous"
  {
    if LoggedIn(session) then session.value.userId else "anonymous"
  }

  /** The `where` clause of the feed query: not the viewer's own post, and not one the viewer has submitted to. */
  predicate InFeed(posts: map<PostId, Post>, subs: map<SubmissionId, Submission>, session: Option<Session>, p: PostId)
  {
    p in posts && posts[p].authorId != ExcludedAuthor(session) && !HasSubmitted(subs, SubmitterKey(session), p)
  }

  predicate NoDuplicates<T(==)>(xs: seq<T>)
  {
    forall i, j :: 0 <= i < j < |xs| ==> xs[i] != xs[j]
  }

  /** Every entry is a post and the entries run from the newest to the oldest. */
  predicate NewestFirst(posts: map<PostId, Post>, xs: seq<PostId>)
  {
    && (forall i :: 0 <= i < |xs| ==> xs[i] in posts)
    && (forall i, j :: 0 <= i < j < |xs| ==> posts[xs[i]].createdAt >= posts[xs[j]].createdAt)
  }

  /**
   * What `orderBy: { createdAt: 'desc' }` hands back before filtering: every post exactly
   * once, newest first. The order among posts created at the same instant is the database's.
   */
  predicate Listing(posts: map<PostId, Post>, order: seq<PostId>)
  {
    NoDuplicates(order) && NewestFirst(posts, order) && (forall p :: p in posts ==> p in order)
  }

  /** The listing restricted to the posts the `where` clause admits, in listing order. */
  function FeedOrder(posts: map<PostId, Post>, subs: map<SubmissionId, Submission>, session: Option<Session>,
                     order: seq<PostId>): (r: seq<PostId>)
    ensures |r| <= |order|
    ensures forall p :: p in r <==> p in order && InFeed(posts, subs, session, p)
  {
    if order == [] then []
    else
      var rest := FeedOrder(posts, subs, session, order[1..]);
      assert forall p :: p in order <==> p == order[0] || p in order[1..];
      if InFeed(posts, subs, session, order[0]) then [order[0]] + rest else rest
  }

  /** Filtering keeps the listing's order and its lack of repeats. */
  lemma {:induction false} FeedOrderKeepsListing(posts: map<PostId, Post>, subs: map<SubmissionId, Submission>,
                                                 session: Option<Session>, order: seq<PostId>)
    requires NoDuplicates(order) && NewestFirst(posts, order)
    ensures var r := FeedOrder(posts, subs, session, order);
            NoDuplicates(r) && NewestFirst(posts, r)
  {
    if order != [] {
      var tail := order[1..];
      assert NoDuplicates(tail) && NewestFirst(posts, tail);
      FeedOrderKeepsListing(posts, subs, session, tail);
      var rest := FeedOrder(posts, subs, session, tail);
      if InFeed(posts, subs, session, order[0]) {
        assert order[0] !in tail;
        forall k | 0 <= k < |rest|
          ensures rest[k] != order[0] && posts[order[0]].createdAt >= posts[rest[k]].createdAt
        {
          assert rest[k] in tail;
          var m :| 0 <= m < |tail| && tail[m] == rest[k];
          assert order[m + 1] == rest[k];
        }
        ConsKeepsListing(posts, order[0], rest);
      }
    }
  }

  /** A post at least as new as every entry of a listing, and not in it, can go in front of it. */
  lemma ConsKeepsListing(posts: map<PostId, Post>, x: PostId, rest: seq<PostId>)
    requires x in posts && NoDuplicates(rest) && NewestFirst(posts, rest)
    requires forall k :: 0 <= k < |rest| ==> rest[k] != x && posts[x].createdAt >= posts[rest[k]].createdAt
    ensures NoDuplicates([x] + rest) && NewestFirst(posts, [x] + rest)
  {
    var r := [x] + rest;
    forall i, j | 0 <= i < j < |r|
      ensures r[i] != r[j] && posts[r[i]].createdAt >= posts[r[j]].createdAt
    {
      assert r[j] == rest[j - 1];
      if i > 0 {
        assert r[i] == rest[i - 1];
      }
    }
  }

  /**
   * The feed never offers a logged-in viewer their own post, and a successful submission
   * takes its post out of the submitter's feed.
   */
  lemma FeedHidesOwnAndSubmitted(posts: map<PostId, Post>, subs: map<SubmissionId, Submission>, session: Option<Session>,
                                 id: SubmissionId, row: Submission, p: PostId)
    requires LoggedIn(session)
    ensures p in posts && posts[p].authorId == session.value.userId ==> !InFeed(posts, subs, session, p)
    ensures row.userId == session.value.userId ==> !InFeed(posts, subs[id := row], session, row.postId)
  {
    if row.userId == session.value.userId {
      var after := subs[id := row];
      assert id in after && after[id].userId == SubmitterKey(session) && after[id].postId == row.postId;
    }
  }

  function Min(a: int, b: int): int
  {
    if a <= b then a else b
  }

  /** Prisma's `skip`/`take`: up to `take` entries starting at position `skip`. */
  function Page<T>(xs: seq<T>, skip: nat, take: nat): (r: seq<T>)
    ensures |r| == if skip >= |xs| then 0 else Min(take, |xs| - skip)
    ensures forall i :: 0 <= i < |r| ==> r[i] == xs[skip + i]
  {
    if skip >= |xs| then [] else xs[skip..skip + Min(take, |xs| - skip)]
  }

  /** Two consecutive pages make up the page that spans both: paging skips and repeats nothing. */
  lemma PagesAdjoin<T>(xs: seq<T>, skip: nat, take1: nat, take2: nat)
    ensures Page(xs, skip, take1) + Page(xs, skip + take1, take2) == Page(xs, skip, take1 + take2)
  {
    var a, b, c := Page(xs, skip, take1), Page(xs, skip + take1, take2), Page(xs, skip, take1 + take2);
    if skip + take1 < |xs| {
      assert |a| == take1;
      assert forall i :: 0 <= i < |c| ==> (a + b)[i] == c[i];
    }
  }

  /** The draws a shuffle of `n` entries needs: one per index, each at most its index. */
  predicate ValidPicks(picks: seq<nat>, n: nat)
  {
    |picks| >= n && forall i :: 0 <= i < |picks| ==> picks[i] <= i
  }

  /**
   * The Fisher–Yates pass as a reference: swap index `i` with `picks[i]`, then continue with
   * `i - 1`, down to index 1.
   */
  function FisherYates<T>(s: seq<T>, picks: seq<nat>, i: int): (r: seq<T>)
    requires -1 <= i < |s| && ValidPicks(picks, |s|)
    ensures |r| == |s|
    decreases i + 1
  {
    if i <= 0 then s else FisherYates(Swapped(s, i, picks[i]), picks, i - 1)
  }

  /** The pass only exchanges entries: the result is a permutation of the input. */
  lemma {:induction false} FisherYatesPermutes<T>(s: seq<T>, picks: seq<nat>, i: int)
    requires -1 <= i < |s| && ValidPicks(picks, |s|)
    ensures multiset(FisherYates(s, picks, i)) == multiset(s)
    decreases i + 1
  {
    if i > 0 {
      SwapKeepsMultiset(s, i, picks[i]);
      FisherYatesPermutes(Swapped(s, i, picks[i]), picks, i - 1);
    }
  }

  /** Draws that pick each index itself leave the entries where they are. */
  lemma {:induction false} FisherYatesIdentity<T>(s: seq<T>, picks: seq<nat>, i: int)
    requires -1 <= i < |s| && ValidPicks(picks, |s|)
    requires forall k :: 0 <= k < |s| ==> picks[k] == k
    ensures FisherYates(s, picks, i) == s
    decreases i + 1
  {
    if i > 0 {
      assert Swapped(s, i, picks[i]) == s;
      FisherYatesIdentity(s, picks, i - 1);
    }
  }

  /** Entries above index `i` are settled: the rest of the pass never moves them. */
  lemma {:induction false} FisherYatesSettled<T>(s: seq<T>, picks: seq<nat>, i: int, k: int)
    requires -1 <= i < k < |s| && ValidPicks(picks, |s|)
    ensures FisherYates(s, picks, i)[k] == s[k]
    decreases i + 1
  {
    if i > 0 {
      FisherYatesSettled(Swapped(s, i, picks[i]), picks, i - 1, k);
    }
  }

  /** The last entry of the shuffled page is the one the first draw picked. */
  lemma FisherYatesLast<T>(s: seq<T>, picks: seq<nat>)
    requires |s| > 1 && ValidPicks(picks, |s|)
    ensures FisherYates(s, picks, |s| - 1)[|s| - 1] == s[picks[|s| - 1]]
  {
    var n := |s|;
    var t := Swapped(s, n - 1, picks[n - 1]);
    assert FisherYates(s, picks, n - 1) == FisherYates(t, picks, n - 2);
    FisherYatesSettled(t, picks, n - 2, n - 1);
    assert t[n - 1] == s[picks[n - 1]];
  }

  /**
   * The Fisher–Yates shuffle of the fetched page, on a copy of it. `picks[i]` stands for
   * `Math.floor(Math.random() * (i + 1))`, the draw made when the loop is at index `i`.
   */
  method Shuffle<T>(xs: seq<T>, picks: seq<nat>) returns (ys: seq<T>)
    requires ValidPicks(picks, |xs|)
    ensures ys == FisherYates(xs, picks, |xs| - 1)
    ensures |ys| == |xs| && multiset(ys) == multiset(xs)
    ensures (forall i :: 0 <= i < |xs| ==> picks[i] == i) ==> ys == xs
    ensures |xs| > 1 ==> ys[|xs| - 1] == xs[picks[|xs| - 1]]
  {
    var a := new T[|xs|](k requires 0 <= k < |xs| => xs[k]);
    var i := |xs| - 1;
    assert a[..] == xs;
    while i > 0
      invariant -1 <= i < |xs|
      invariant a.Length == |xs|
      invariant FisherYates(a[..], picks, i) == FisherYates(xs, picks, |xs| - 1)
    {
      var j := picks[i];
      ghost var before := a[..];
      a[i], a[j] := a[j], a[i];
      assert a[..] == Swapped(before, i, j);
      i := i - 1;
    }
    ys := a[..];
    FisherYatesPermutes(xs, picks, |xs| - 1);
    if forall k :: 0 <= k < |xs| ==> picks[k] == k {
      FisherYatesIdentity(xs, picks, |xs| - 1);
    }
    if |xs| > 1 {
      FisherYatesLast(xs, picks);
    }
  }

  /** `s` with the entries at `i` and `j` exchanged. */
  function Swapped<T>(s: seq<T>, i: nat, j: nat): (r: seq<T>)
    requires i < |s| && j < |s|
    ensures |r| == |s|
  {
    s[i := s[j]][j := s[i]]
  }

  lemma SwapKeepsMultiset<T>(s: seq<T>, i: nat, j: nat)
    requires i < |s| && j < |s|
    ensures multiset(Swapped(s, i, j)) == multiset(s)
  {
  }

  /** A feed entry: the post and the tweet id the page embeds (the tweet itself is fetched elsewhere). */
  datatype FeedItem = FeedItem(id: PostId, post: Post, tweetId: string)

  function IdsOf(items: seq<FeedItem>): (ids: seq<PostId>)
    ensures |ids| == |items| && forall i :: 0 <= i < |items| ==> ids[i] == items[i].id
  {
    seq(|items|, i requires 0 <= i < |items| => items[i].id)
  }

  /**
   * `fetchFeedPosts(skip, take)`: the requested page of the filtered listing, shuffled,
   * each post with its tweet id. `order` is the listing the database returns.
   */
  method FetchFeedPosts(db: Db, session: Option<Session>, order: seq<PostId>, skip: nat, take: nat, picks: seq<nat>)
    returns (items: seq<FeedItem>)
    requires Listing(db.posts, order)
    requires ValidPicks(picks, take)
    ensures var page := Page(FeedOrder(db.posts, db.submissions, session, order), skip, take);
            IdsOf(items) == FisherYates(page, picks, |page| - 1)
    ensures var page := Page(FeedOrder(db.posts, db.submissions, session, order), skip, take);
            multiset(IdsOf(items)) == multiset(page)
            && ((forall i :: 0 <= i < |page| ==> picks[i] == i) ==> IdsOf(items) == page)
    ensures |items| <= take
    ensures forall i :: 0 <= i < |items| ==>
              && InFeed(db.posts, db.submissions, session, items[i].id)
              && items[i].post == db.posts[items[i].id]
              && items[i].tweetId == TweetId(items[i].post.url)
    ensures NoDuplicates(IdsOf(items))
  {
    var feed := FeedOrder(db.posts, db.submissions, session, order);
    var page := Page(feed, skip, take);
    PageOfFeed(db.posts, db.submissions, session, order, skip, take);
    assert |page| <= take;
    assert ValidPicks(picks, |page|);
    var shuffled := Shuffle(page, picks);
    PermutationKeepsDistinct(page, shuffled);
    PermutationKeepsMembers(page, shuffled);
    items := Entries(db.posts, shuffled);
    assert IdsOf(items) == shuffled == FisherYates(page, picks, |page| - 1);
    forall i | 0 <= i < |items|
      ensures InFeed(db.posts, db.submissions, session, items[i].id)
    {
      assert items[i].id == shuffled[i];
    }
  }

  /** One feed entry per post id, in the same order. */
  function Entries(posts: map<PostId, Post>, ids: seq<PostId>): (items: seq<FeedItem>)
    requires forall k :: 0 <= k < |ids| ==> ids[k] in posts
    ensures IdsOf(items) == ids
    ensures forall i :: 0 <= i < |items| ==> items[i].post == posts[items[i].id] && items[i].tweetId == TweetId(items[i].post.url)
  {
    var items := seq(|ids|, i requires 0 <= i < |ids| => FeedItem(ids[i], posts[ids[i]], TweetId(posts[ids[i]].url)));
    assert IdsOf(items) == ids;
    items
  }

  lemma PermutationKeepsMembers<T>(xs: seq<T>, ys: seq<T>)
    requires multiset(xs) == multiset(ys)
    ensures forall k :: 0 <= k < |ys| ==> ys[k] in xs
  {
    forall k | 0 <= k < |ys|
      ensures ys[k] in xs
    {
      assert ys[k] in multiset(ys);
    }
  }

  /** A page of the filtered listing holds distinct posts the feed admits. */
  lemma PageOfFeed(posts: map<PostId, Post>, subs: map<SubmissionId, Submission>, session: Option<Session>,
                   order: seq<PostId>, skip: nat, take: nat)
    requires Listing(posts, order)
    ensures var page := Page(FeedOrder(posts, subs, session, order), skip, take);
            NoDuplicates(page) && forall p :: p in page ==> InFeed(posts, subs, session, p)
  {
    var feed := FeedOrder(posts, subs, session, order);
    FeedOrderKeepsListing(posts, subs, session, order);
    var page := Page(feed, skip, take);
    forall p | p in page
      ensures InFeed(posts, subs, session, p)
    {
      var k :| 0 <= k < |page| && page[k] == p;
      assert feed[skip + k] == p;
    }
    forall i, j | 0 <= i < j < |page|
      ensures page[i] != page[j]
    {
      assert page[i] == feed[skip + i] && page[j] == feed[skip + j];
    }
  }

  lemma PermutationKeepsDistinct<T>(xs: seq<T>, ys: seq<T>)
    requires NoDuplicates(xs) && multiset(xs) == multiset(ys)
    ensures NoDuplicates(ys)
  {
    forall i, j | 0 <= i < j < |ys|
      ensures ys[i] != ys[j]
    {
      if ys[i] == ys[j] {
        assert multiset(ys)[ys[i]] >= 2 by {
          assert ys == ys[..i] + [ys[i]] + ys[i+1..j] + [ys[j]] + ys[j+1..];
        }
        DistinctCount(xs, ys[i]);
      }
    }
  }

  lemma DistinctCount<T>(xs: seq<T>, x: T)
    requires NoDuplicates(xs)
    ensures multiset(xs)[x] <= 1
  {
    if xs != [] {
      assert xs == [xs[0]] + xs[1..];
      DistinctCount(xs[1..], x);
      if x == xs[0] {
        assert x !in xs[1..];
      }
    }
  }

  // ---------------------------------------------------------------------------------
  // Creating a post

  /**
   * `isAdmin ? parseInt(reward) || 5 : 5`. `parsed` is what `parseInt` gives for the form
   * field, `None` for `NaN`; both `NaN` and 0 fall back to the standard reward.
   */
  function RewardFor(isAdmin: bool, parsed: Option<int>): (reward: int)
    ensures !isAdmin ==> reward == StandardReward
    ensures isAdmin && parsed.Some? && parsed.value != 0 ==> reward == parsed.value
    ensures isAdmin && (parsed.None? || parsed.value == 0) ==> reward == StandardReward
  {
    if isAdmin && parsed.Some? && parsed.value != 0 then parsed.value else StandardReward
  }

  /** The posts `uid` created between `dayStart` and `dayEnd`, both included. */
  function PostsInWindow(posts: map<PostId, Post>, uid: UserId, dayStart: int, dayEnd: int): (r: set<PostId>)
    ensures forall p :: p in r <==> p in posts && posts[p].authorId == uid && dayStart <= posts[p].createdAt <= dayEnd
  {
    set p | p in posts && posts[p].authorId == uid && dayStart <= posts[p].createdAt <= dayEnd
  }

  /** A new post counts towards its author's day exactly when it is created within that day. */
  lemma PostsInWindowAdd(posts: map<PostId, Post>, id: PostId, row: Post, uid: UserId, dayStart: int, dayEnd: int)
    requires id !in posts
    ensures |PostsInWindow(posts[id := row], uid, dayStart, dayEnd)|
         == |PostsInWindow(posts, uid, dayStart, dayEnd)|
            + (if row.authorId == uid && dayStart <= row.createdAt <= dayEnd then 1 else 0)
  {
    var before := PostsInWindow(posts, uid, dayStart, dayEnd);
    var after := PostsInWindow(posts[id := row], uid, dayStart, dayEnd);
    if row.authorId == uid && dayStart <= row.createdAt <= dayEnd {
      assert after == before + {id};
    } else {
      assert after == before;
    }
  }

  /** The row `createPublicLynk` inserts; `maxSubmissions` is left null. */
  function NewPost(uid: UserId, url: string, reward: int, now: int): Post
  {
    Post(uid, url, reward, now, None)
  }

  /** Charging the author and inserting a post by that author keeps the invariant. */
  lemma NewPostKeepsStore(users: map<UserId, User>, posts: map<PostId, Post>, subs: map<SubmissionId, Submission>,
                          uid: UserId, amount: int, id: PostId, row: Post)
    requires Consistent(users, posts, subs)
    requires uid in users && id !in posts && row.authorId == uid
    ensures Consistent(Credit(users, uid, amount), posts[id := row], subs)
  {
    RewriteUserKeepsLinks(users, posts, subs, uid, users[uid].(credits := users[uid].credits + amount));
  }

  /**
   * `createPublicLynk`. The checks run in the source's order: a session, a user row with a
   * display name, the daily limit (skipped for admins), then the posting fee. On success
   * the fee is charged and the post inserted in one transaction. `parsedReward` is the parsed
   * form field, `newId` the generated id, `now` the insertion time and `dayStart`/`dayEnd`
   * the first and last millisecond of the current local day.
   */
  method CreatePublicLynk(db: Db, session: Option<Session>, url: string, parsedReward: Option<int>,
                          newId: PostId, now: int, dayStart: int, dayEnd: int)
    returns (r: Outcome)
    requires db.Valid()
    requires newId !in db.posts
    modifies db
    ensures db.Valid()
    ensures db.submissions == old(db.submissions)
    ensures db.tokens == old(db.tokens) && db.notifications == old(db.notifications)
    ensures !LoggedIn(session) ==> r == Failed(NotLoggedIn)
    ensures LoggedIn(session)
            && (session.value.userId !in old(db.users) || old(db.users)[session.value.userId].name == "")
            ==> r == Failed(NoUsername)
    ensures LoggedIn(session) && !IsAdmin(session)
            && session.value.userId in old(db.users) && old(db.users)[session.value.userId].name != ""
            && |PostsInWindow(old(db.posts), session.value.userId, dayStart, dayEnd)| >= DailyPostLimit
            ==> r == Failed(DailyLimit)
    ensures LoggedIn(session)
            && session.value.userId in old(db.users) && old(db.users)[session.value.userId].name != ""
            && (IsAdmin(session) || |PostsInWindow(old(db.posts), session.value.userId, dayStart, dayEnd)| < DailyPostLimit)
            && old(db.users)[session.value.userId].credits < PostingCost
            ==> r == Failed(InsufficientCredits)
    ensures r == Ok <==>
            && LoggedIn(session)
            && session.value.userId in old(db.users) && old(db.users)[session.value.userId].name != ""
            && (IsAdmin(session) || |PostsInWindow(old(db.posts), session.value.userId, dayStart, dayEnd)| < DailyPostLimit)
            && old(db.users)[session.value.userId].credits >= PostingCost
    ensures r == Ok ==>
            && db.users == Credit(old(db.users), session.value.userId, -PostingCost)
            && db.posts == old(db.posts)[newId := NewPost(session.value.userId, url, RewardFor(IsAdmin(session), parsedReward), now)]
    ensures r != Ok ==> db.users == old(db.users) && db.posts == old(db.posts)
  {
    if !LoggedIn(session) {
      return Failed(NotLoggedIn);
    }
    var uid := session.value.userId;
    var isAdmin := IsAdmin(session);
    var reward := RewardFor(isAdmin, parsedReward);
    if uid !in db.users || db.users[uid].name == "" {
      return Failed(NoUsername);
    }
    var user := db.users[uid];
    if !isAdmin && |PostsInWindow(db.posts, uid, dayStart, dayEnd)| >= DailyPostLimit {
      return Failed(DailyLimit);
    }
    if user.credits < PostingCost {
      return Failed(InsufficientCredits);
    }
    var row := NewPost(uid, url, reward, now);
    NewPostKeepsStore(db.users, db.posts, db.submissions, uid, -PostingCost, newId, row);
    db.users, db.posts := Credit(db.users, uid, -PostingCost), db.posts[newId := row];
    r := Ok;
  }

  /**
   * The limit holds over any run of creations within one day: starting under the limit,
   * a non-admin's successful post leaves at most `DailyPostLimit` posts in the day.
   */
  lemma CreateWithinLimit(posts: map<PostId, Post>, uid: UserId, id: PostId, url: string, reward: int,
                          now: int, dayStart: int, dayEnd: int)
    requires id !in posts
    requires |PostsInWindow(posts, uid, dayStart, dayEnd)| < DailyPostLimit
    ensures |PostsInWindow(posts[id := NewPost(uid, url, reward, now)], uid, dayStart, dayEnd)| <= DailyPostLimit
    ensures dayStart <= now <= dayEnd ==>
            |PostsInWindow(posts[id := NewPost(uid, url, reward, now)], uid, dayStart, dayEnd)|
            == |PostsInWindow(posts, uid, dayStart, dayEnd)| + 1
  {
    PostsInWindowAdd(posts, id, NewPost(uid, url, reward, now), uid, dayStart, dayEnd);
  }

  // ---------------------------------------------------------------------------------
  // Deleting a post

  /** The users who own a submission among `ids`. */
  function SubmittersAmong(subs: map<SubmissionId, Submission>, ids: set<SubmissionId>): (r: set<UserId>)
  {
    set id | id in ids && id in subs :: subs[id].userId
  }

  /** `subs` with every row of `ids` set to APPROVED and nothing else touched. */
  function ApproveAll(subs: map<SubmissionId, Submission>, ids: set<SubmissionId>): (r: map<SubmissionId, Submission>)
    ensures r.Keys == subs.Keys
  {
    map id | id in subs :: if id in ids then subs[id].(status := Approved) else subs[id]
  }

  /** `subs` without the rows of post `pid`: what the cascade of the post's deletion leaves. */
  function WithoutPost(subs: map<SubmissionId, Submission>, pid: PostId): (r: map<SubmissionId, Submission>)
    ensures forall id :: id in r <==> id in subs && subs[id].postId != pid
    ensures forall id :: id in r ==> r[id] == subs[id]
  {
    map id | id in subs && subs[id].postId != pid :: subs[id]
  }

  /** After the cascade the deleted post has no submissions, and every other post keeps exactly its own. */
  lemma CascadeLeavesOthers(subs: map<SubmissionId, Submission>, pid: PostId, q: PostId)
    ensures SubmissionsOf(WithoutPost(subs, pid), pid) == {}
    ensures q != pid ==> SubmissionsOf(WithoutPost(subs, pid), q) == SubmissionsOf(subs, q)
    ensures q != pid ==> PendingOf(WithoutPost(subs, pid), q) == PendingOf(subs, q)
  {
  }

  /** Distinct submissions of one post belong to distinct users: each submitter is paid once. */
  lemma {:induction false} SubmittersCount(subs: map<SubmissionId, Submission>, pid: PostId, ids: set<SubmissionId>)
    requires OnePerPair(subs)
    requires forall id :: id in ids ==> id in subs && subs[id].postId == pid
    ensures |SubmittersAmong(subs, ids)| == |ids|
    decreases |ids|
  {
    if ids != {} {
      var id :| id in ids;
      var rest := ids - {id};
      SubmittersCount(subs, pid, rest);
      assert subs[id].userId !in SubmittersAmong(subs, rest);
      assert SubmittersAmong(subs, ids) == SubmittersAmong(subs, rest) + {subs[id].userId};
    }
  }

  /** Before the payout loop nobody is paid and nothing is approved. */
  lemma PayoutStart(users: map<UserId, User>, subs: map<SubmissionId, Submission>, pending: set<SubmissionId>, amount: int)
    ensures users == PayEach(users, SubmittersAmong(subs, pending - pending), amount)
    ensures subs == ApproveAll(subs, pending - pending)
  {
    assert pending - pending == {};
    assert SubmittersAmong(subs, {}) == {};
  }

  /** One turn of the payout loop, on the tables as they were before the loop. */
  lemma PayoutStep(users: map<UserId, User>, subs: map<SubmissionId, Submission>, pid: PostId,
                   done: set<SubmissionId>, id: SubmissionId, amount: int)
    requires OnePerPair(subs)
    requires forall d :: d in done ==> d in subs && subs[d].postId == pid
    requires id in subs && subs[id].postId == pid && id !in done && subs[id].userId in users
    ensures Credit(PayEach(users, SubmittersAmong(subs, done), amount), subs[id].userId, amount)
         == PayEach(users, SubmittersAmong(subs, done + {id}), amount)
    ensures ApproveAll(subs, done)[id := subs[id].(status := Approved)] == ApproveAll(subs, done + {id})
  {
    var u := subs[id].userId;
    assert u !in SubmittersAmong(subs, done);
    assert SubmittersAmong(subs, done + {id}) == SubmittersAmong(subs, done) + {u};
    PayEachStep(users, SubmittersAmong(subs, done), u, amount);
  }

  /** Paying users and approving submissions moves no row to another user, post or e-mail. */
  lemma PayoutKeepsStore(users: map<UserId, User>, posts: map<PostId, Post>, subs: map<SubmissionId, Submission>,
                         payees: set<UserId>, ids: set<SubmissionId>, amount: int)
    requires Consistent(users, posts, subs)
    ensures Consistent(PayEach(users, payees, amount), posts, ApproveAll(subs, ids))
  {
    var u2, s2 := PayEach(users, payees, amount), ApproveAll(subs, ids);
    assert forall v :: v in u2 ==> u2[v].email == users[v].email;
    assert forall id :: id in s2 ==> s2[id].userId == subs[id].userId && s2[id].postId == subs[id].postId;
  }

  /**
   * The payout loop of `deletePostAction`: for every PENDING submission of the post, the
   * submitter is credited with the reward and the submission becomes APPROVED. It runs on
   * the tables as the transaction read them.
   */
  method PayoutLoop(users0: map<UserId, User>, subs0: map<SubmissionId, Submission>, postId: PostId,
                    pending: set<SubmissionId>, reward: int)
    returns (users: map<UserId, User>, subs: map<SubmissionId, Submission>)
    requires OnePerPair(subs0)
    requires forall id :: id in subs0 ==> subs0[id].userId in users0
    requires forall id :: id in pending ==> id in subs0 && subs0[id].postId == postId
    ensures users == PayEach(users0, SubmittersAmong(subs0, pending), reward)
    ensures subs == ApproveAll(subs0, pending)
  {
    users, subs := users0, subs0;
    var todo := pending;
    PayoutStart(users0, subs0, pending, reward);
    while todo != {}
      invariant todo <= pending
      invariant users == PayEach(users0, SubmittersAmong(subs0, pending - todo), reward)
      invariant subs == ApproveAll(subs0, pending - todo)
      decreases |todo|
    {
      var id :| id in todo;
      PayoutStep(users0, subs0, postId, pending - todo, id, reward);
      users := Credit(users, subs0[id].userId, reward);
      subs := subs[id := subs0[id].(status := Approved)];
      NextDone(pending, todo, id);
      todo := todo - {id};
    }
  }

  lemma NextDone(pending: set<SubmissionId>, todo: set<SubmissionId>, id: SubmissionId)
    requires id in todo && todo <= pending
    ensures pending - (todo - {id}) == (pending - todo) + {id}
  {
  }

  /** The payout inside `deletePostAction`'s transaction, committed to the tables at the end. */
  method PayPending(db: Db, postId: PostId)
    requires db.Valid() && postId in db.posts
    modifies db
    ensures db.Valid()
    ensures db.posts == old(db.posts)
    ensures db.tokens == old(db.tokens) && db.notifications == old(db.notifications)
    ensures var pending := PendingOf(old(db.submissions), postId);
            && db.users == PayEach(old(db.users), SubmittersAmong(old(db.submissions), pending), old(db.posts)[postId].reward)
            && db.submissions == ApproveAll(old(db.submissions), pending)
  {
    var reward := db.posts[postId].reward;
    var users, subs := PayoutLoop(db.users, db.submissions, postId, PendingOf(db.submissions, postId), reward);
    PayoutKeepsStore(db.users, db.posts, db.submissions, SubmittersAmong(db.submissions, PendingOf(db.submissions, postId)),
                     PendingOf(db.submissions, postId), reward);
    db.users, db.submissions := users, subs;
  }

  /** The rows the payout loop approved all go with the post: the cascade leaves the same rows either way. */
  lemma CascadeDropsApprovals(subs: map<SubmissionId, Submission>, pid: PostId, ids: set<SubmissionId>)
    requires forall id :: id in ids && id in subs ==> subs[id].postId == pid
    ensures WithoutPost(ApproveAll(subs, ids), pid) == WithoutPost(subs, pid)
  {
    var a, b := WithoutPost(ApproveAll(subs, ids), pid), WithoutPost(subs, pid);
    assert a.Keys == b.Keys;
  }

  /** Deleting post `pid` and the rows that cascade with it keeps the invariant. */
  lemma DeleteKeepsStore(users: map<UserId, User>, posts: map<PostId, Post>, subs: map<SubmissionId, Submission>, pid: PostId)
    requires Consistent(users, posts, subs)
    ensures Consistent(users, posts - {pid}, WithoutPost(subs, pid))
  {
  }

  /**
   * `deletePostAction`. Only the author may delete; the pending submitters are paid and
   * approved, then the post is deleted together with its submission rows.
   */
  method DeletePost(db: Db, session: Option<Session>, postId: PostId) returns (r: Outcome)
    requires db.Valid()
    modifies db
    ensures db.Valid()
    ensures db.tokens == old(db.tokens) && db.notifications == old(db.notifications)
    ensures !LoggedIn(session) ==> r == Failed(NotLoggedIn)
    ensures LoggedIn(session) && postId !in old(db.posts) ==> r == Failed(NotFound)
    ensures LoggedIn(session) && postId in old(db.posts) && old(db.posts)[postId].authorId != session.value.userId
            ==> r == Failed(Unauthorized)
    ensures r == Ok <==> LoggedIn(session) && postId in old(db.posts) && old(db.posts)[postId].authorId == session.value.userId
    ensures r == Ok ==>
            && db.users == PayEach(old(db.users), SubmittersAmong(old(db.submissions), PendingOf(old(db.submissions), postId)),
                                   old(db.posts)[postId].reward)
            && db.posts == old(db.posts) - {postId}
            && db.submissions == WithoutPost(old(db.submissions), postId)
    ensures r != Ok ==> db.users == old(db.users) && db.posts == old(db.posts) && db.submissions == old(db.submissions)
  {
    if !LoggedIn(session) {
      return Failed(NotLoggedIn);
    }
    if postId !in db.posts {
      return Failed(NotFound);
    }
    if db.posts[postId].authorId != session.value.userId {
      return Failed(Unauthorized);
    }
    ghost var subs0 := db.submissions;
    PayPending(db, postId);
    CascadeDropsApprovals(subs0, postId, PendingOf(subs0, postId));
    DeleteKeepsStore(db.users, db.posts, db.submissions, postId);
    db.posts, db.submissions := db.posts - {postId}, WithoutPost(db.submissions, postId);
    r := Ok;
  }

  /**
   * What deletion does to the ledger: the total rises by the reward once per PENDING
   * submission, and each of their submitters gains exactly the reward.
   */
  lemma DeletePayout(users: map<UserId, User>, posts: map<PostId, Post>, subs: map<SubmissionId, Submission>, pid: PostId)
    requires Consistent(users, posts, subs) && pid in posts
    ensures var after := PayEach(users, SubmittersAmong(subs, PendingOf(subs, pid)), posts[pid].reward);
            && TotalCredits(after) == TotalCredits(users) + posts[pid].reward * |PendingOf(subs, pid)|
            && forall id :: id in PendingOf(subs, pid) ==>
                 after[subs[id].userId].credits == users[subs[id].userId].credits + posts[pid].reward
  {
    var pending := PendingOf(subs, pid);
    SubmittersCount(subs, pid, pending);
    PayEachTotal(users, SubmittersAmong(subs, pending), posts[pid].reward);
  }
}
