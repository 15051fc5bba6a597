/**
 * The scheduled sweep: a cron request carrying the shared secret approves, in one bulk
 * update, every submission that has been PENDING for at least twelve hours.
 */
module AutoApprove {
  import opened Store

  /** Twelve hours in milliseconds. */
  const ReviewWindow: int := 12 * 60 * 60 * 1000

  /** The header value the route accepts: `Bearer ${CRON_SECRET}`, which reads "Bearer undefined" when the variable is unset. */
  function ExpectedHeader(secret: Option<string>): (h: string)
    ensures secret.Some? ==> h == "Bearer " + secret.value
    ensures secret.None? ==> h == "Bearer undefined"
  {
    "Bearer " + (if secret.Some? then secret.value else "undefined")
  }

  /**
   * The header pins the secret down: two different secrets never accept the same header,
   * while an unset secret accepts exactly what the literal secret "undefined" accepts.
   */
  lemma HeaderDeterminesSecret(a: Option<string>, b: Option<string>)
    ensures ExpectedHeader(a) == ExpectedHeader(b) <==> a == b || {a, b} == {None, Some("undefined")}
  {
    var ha, hb := ExpectedHeader(a), ExpectedHeader(b);
    var sa := if a.Some? then a.value else "undefined";
    var sb := if b.Some? then b.value else "undefined";
    assert ha[7..] == sa && hb[7..] == sb;
  }

  /** Matches the `where` clause: PENDING and created at or before the threshold. */
  predicate Due(s: Submission, threshold: int)
  {
    s.status == Pending && s.createdAt <= threshold
  }

  function DueIds(subs: map<SubmissionId, Submission>, threshold: int): (r: set<SubmissionId>)
    ensures forall id :: id in r <==> id in subs && Due(subs[id], threshold)
  {
    set id | id in subs && Due(subs[id], threshold)
  }

  /** `updateMany`: the due rows become APPROVED; every other column and row stays. */
  function Sweep(subs: map<SubmissionId, Submission>, threshold: int): (r: map<SubmissionId, Submission>)
    ensures r.Keys == subs.Keys
  {
    map id | id in subs :: if Due(subs[id], threshold) then subs[id].(status := Approved) else subs[id]
  }

  datatype CronResponse = Unauthorized401 | Swept(count: nat)

  /**
   * `GET /api/cron/auto-approve`. `authHeader` is the request's `authorization` header
   * (absent is `None`), `secret` the `CRON_SECRET` variable and `now` the clock. The sweep
   * only changes statuses: no submitter is credited.
   */
  method AutoApproveRoute(db: Db, authHeader: Option<string>, secret: Option<string>, now: int)
    returns (resp: CronResponse)
    requires db.Valid()
    modifies db
    ensures db.Valid()
    ensures db.users == old(db.users) && db.posts == old(db.posts)
    ensures db.tokens == old(db.tokens) && db.notifications == old(db.notifications)
    ensures resp.Unauthorized401? <==> authHeader != Some(ExpectedHeader(secret))
    ensures resp.Unauthorized401? ==> db.submissions == old(db.submissions)
    ensures resp.Swept? ==>
            && db.submissions == Sweep(old(db.submissions), now - ReviewWindow)
            && resp.count == |DueIds(old(db.submissions), now - ReviewWindow)|
  {
    if authHeader != Some(ExpectedHeader(secret)) {
      return Unauthorized401;
    }
    var threshold := now - ReviewWindow;
    var due := DueIds(db.submissions, threshold);
    SweepKeepsStore(db.users, db.posts, db.submissions, threshold);
    db.submissions := Sweep(db.submissions, threshold);
    resp := Swept(|due|);
  }

  lemma SweepKeepsStore(users: map<UserId, User>, posts: map<PostId, Post>, subs: map<SubmissionId, Submission>, threshold: int)
    requires Consistent(users, posts, subs)
    ensures Consistent(users, posts, Sweep(subs, threshold))
  {
    var r := Sweep(subs, threshold);
    assert forall id :: id in r ==> r[id].userId == subs[id].userId && r[id].postId == subs[id].postId;
    assert (set id | id in r :: r[id].postId) == (set id | id in subs :: subs[id].postId);
    assert (set id | id in r :: r[id].userId) == (set id | id in subs :: subs[id].userId);
  }

  /** Exactly the due rows change, and each of them only in its status. */
  lemma SweepChanges(subs: map<SubmissionId, Submission>, threshold: int, id: SubmissionId)
    requires id in subs
    ensures var r := Sweep(subs, threshold);
            (r[id] != subs[id] <==> id in DueIds(subs, threshold))
            && r[id] == subs[id].(status := r[id].status)
  {
  }

  /** After a sweep nothing is due at the same threshold or any earlier one: a second run at once approves nothing. */
  lemma SweepLeavesNothingDue(subs: map<SubmissionId, Submission>, threshold: int, later: int)
    requires later <= threshold
    ensures DueIds(Sweep(subs, threshold), later) == {}
  {
    var r := Sweep(subs, threshold);
    forall id | id in r
      ensures !Due(r[id], later)
    {
    }
  }
}
