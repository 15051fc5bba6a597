/**
 * The submission server actions: a user submits proof against a post, the post's author
 * approves or rejects it, and the submitter may dispute a rejection.
 */
module SubmissionActions {
  import opened Store
  import opened Text
  import opened Ledger

  /** Used when a post's `maxSubmissions` is null or 0. */
  const DefaultCap: int := 50

  /** What `proofUrl` is overwritten with once the proof image has been deleted. */
  const ClearedProof: string := "CLEARED_ON_APPROVAL"

  const NoReasonGiven: string := "No reason provided."

  /** `post.maxSubmissions || 50`: null and 0 are both falsy, anything else is the cap. */
  function MaxAllowed(maxSubmissions: Option<int>): (cap: int)
    ensures maxSubmissions.Some? && maxSubmissions.value != 0 ==> cap == maxSubmissions.value
    ensures maxSubmissions.None? || maxSubmissions.value == 0 ==> cap == DefaultCap
  {
    if maxSubmissions.Some? && maxSubmissions.value != 0 then maxSubmissions.value else DefaultCap
  }

  /** `reason || "No reason provided."`: an absent or empty reason gets the default text. */
  function RejectionText(reason: Option<string>): (text: string)
    ensures text != ""
    ensures reason.Some? && reason.value != "" ==> text == reason.value
    ensures reason.None? || reason.value == "" ==> text == NoReasonGiven
  {
    if reason.Some? && reason.value != "" then reason.value else NoReasonGiven
  }

  /** The submission row `submitProofAction` creates. */
  function NewSubmission(postId: PostId, userId: UserId, proofUrl: string, now: int): Submission
  {
    Submission(postId, userId, proofUrl, Pending, None, false, now)
  }

  /**
   * `submitProofAction`. The cap counts every submission of the post whatever its
   * status, the duplicate test ignores the first submission's status, and nothing stops
   * the author from submitting to their own post. A caller with a session but no user
   * row makes the insert violate its foreign key, which the action reports as a failure.
   * `newId` is the id the database generates, `now` the insertion time.
   */
  method SubmitProof(db: Db, session: Option<Session>, postId: PostId, proofUrl: string, newId: SubmissionId, now: int)
    returns (r: Outcome)
    requires db.Valid()
    requires newId !in db.submissions
    modifies db
    ensures db.Valid()
    ensures db.users == old(db.users) && db.posts == old(db.posts)
    ensures db.tokens == old(db.tokens) && db.notifications == old(db.notifications)
    ensures !LoggedIn(session) ==> r == Failed(NotLoggedIn)
    ensures LoggedIn(session) && postId !in old(db.posts) ==> r == Failed(NotFound)
    ensures LoggedIn(session) && postId in old(db.posts)
            && |SubmissionsOf(old(db.submissions), postId)| >= MaxAllowed(old(db.posts)[postId].maxSubmissions)
            ==> r == Failed(TaskFull)
    ensures LoggedIn(session) && postId in old(db.posts)
            && |SubmissionsOf(old(db.submissions), postId)| < MaxAllowed(old(db.posts)[postId].maxSubmissions)
            && HasSubmitted(old(db.submissions), session.value.userId, postId)
            ==> r == Failed(AlreadySubmitted)
    ensures r == Ok <==>
            && LoggedIn(session)
            && postId in old(db.posts)
            && |SubmissionsOf(old(db.submissions), postId)| < MaxAllowed(old(db.posts)[postId].maxSubmissions)
            && !HasSubmitted(old(db.submissions), session.value.userId, postId)
            && session.value.userId in old(db.users)
    ensures r == Ok ==>
            db.submissions == old(db.submissions)[newId := NewSubmission(postId, session.value.userId, proofUrl, now)]
    ensures r == Ok ==>
            var author := old(db.posts)[postId].authorId;
            |PendingReceived(db.posts, db.submissions, author)| == |PendingReceived(old(db.posts), old(db.submissions), author)| + 1
    ensures r != Ok ==> db.submissions == old(db.submissions)
  {
    if !LoggedIn(session) {
      return Failed(NotLoggedIn);
    }
    var uid := session.value.userId;
    if postId !in db.posts {
      return Failed(NotFound);
    }
    var post := db.posts[postId];
    if |SubmissionsOf(db.submissions, postId)| >= MaxAllowed(post.maxSubmissions) {
      return Failed(TaskFull);
    }
    if HasSubmitted(db.submissions, uid, postId) {
      return Failed(AlreadySubmitted);
    }
    if uid !in db.users {
      return Failed(StoreFailure);
    }
    var row := NewSubmission(postId, uid, proofUrl, now);
    PendingReceivedUpdate(db.posts, db.submissions, newId, row, post.authorId);
    db.submissions := db.submissions[newId := row];
    r := Ok;
  }

  /**
   * Submitting keeps a post within its cap: a submission accepted below the cap adds exactly
   * one row to the post's count, which then still does not exceed the cap.
   */
  lemma SubmitWithinCap(subs: map<SubmissionId, Submission>, post: Post, postId: PostId, newId: SubmissionId, row: Submission)
    requires newId !in subs && row.postId == postId
    requires |SubmissionsOf(subs, postId)| < MaxAllowed(post.maxSubmissions)
    ensures |SubmissionsOf(subs[newId := row], postId)| == |SubmissionsOf(subs, postId)| + 1
    ensures |SubmissionsOf(subs[newId := row], postId)| <= MaxAllowed(post.maxSubmissions)
  {
    assert SubmissionsOf(subs[newId := row], postId) == SubmissionsOf(subs, postId) + {newId};
  }

  datatype Decision = Approve | Reject

  /**
   * `updateSubmissionStatusAction`. Only the post's author may review; a submission that
   * is no longer PENDING is left alone without an error. Approval pays the submitter the
   * post's reward together with the status change, then tries to delete the proof image:
   * when its key (the last `/` segment of `proofUrl`) is non-empty and `purgeSucceeded`
   * (the upload service's delete and the follow-up write both went through) the URL becomes
   * the cleared sentinel; otherwise the approval stands with the URL kept.
   */
  method UpdateSubmissionStatus(db: Db, session: Option<Session>, submissionId: SubmissionId,
                                decision: Decision, reason: Option<string>, purgeSucceeded: bool)
    returns (r: Outcome)
    requires db.Valid()
    modifies db
    ensures db.Valid()
    ensures db.posts == old(db.posts)
    ensures db.tokens == old(db.tokens) && db.notifications == old(db.notifications)
    ensures !LoggedIn(session) ==> r == Failed(NotLoggedIn)
    ensures LoggedIn(session)
            && (submissionId !in old(db.submissions)
                || old(db.posts)[old(db.submissions)[submissionId].postId].authorId != session.value.userId)
            ==> r == Failed(Unauthorized)
    ensures r.Ok? || r.Ignored? ==>
            && LoggedIn(session)
            && submissionId in old(db.submissions)
            && old(db.posts)[old(db.submissions)[submissionId].postId].authorId == session.value.userId
    ensures r.Ok? || r.Ignored? ==> (r.Ignored? <==> old(db.submissions)[submissionId].status != Pending)
    ensures LoggedIn(session) && submissionId in old(db.submissions)
            && old(db.posts)[old(db.submissions)[submissionId].postId].authorId == session.value.userId
            ==> r == (if old(db.submissions)[submissionId].status == Pending then Ok else Ignored)
    ensures !r.Ok? ==> db.users == old(db.users) && db.submissions == old(db.submissions)
    ensures r.Ok? && decision == Approve ==>
            var s := old(db.submissions)[submissionId];
            && db.users == Credit(old(db.users), s.userId, old(db.posts)[s.postId].reward)
            && db.submissions == old(db.submissions)[submissionId := ApprovedRow(s, purgeSucceeded)]
    ensures r.Ok? && decision == Reject ==>
            var s := old(db.submissions)[submissionId];
            && db.users == old(db.users)
            && db.submissions == old(db.submissions)[submissionId := s.(
                 status := Rejected, rejectionReason := Some(RejectionText(reason)))]
    ensures r.Ok? ==>
            |PendingReceived(db.posts, db.submissions, session.value.userId)|
            == |PendingReceived(old(db.posts), old(db.submissions), session.value.userId)| - 1
  {
    if !LoggedIn(session) {
      return Failed(NotLoggedIn);
    }
    var uid := session.value.userId;
    if submissionId !in db.submissions || db.posts[db.submissions[submissionId].postId].authorId != uid {
      return Failed(Unauthorized);
    }
    var s := db.submissions[submissionId];
    if s.status != Pending {
      return Ignored;
    }
    if decision == Approve {
      ApproveSubmission(db, submissionId, purgeSucceeded);
    } else {
      RejectSubmission(db, submissionId, reason);
    }
    r := Ok;
  }

  /**
   * The approved row: APPROVED with the rejection reason cleared, and the proof URL replaced
   * by the sentinel when the image behind its upload key (the last `/` segment, non-empty
   * exactly when `HasLastSegment`) has been deleted.
   */
  function ApprovedRow(s: Submission, purgeSucceeded: bool): (a: Submission)
    ensures a.status == Approved && a.rejectionReason == None
    ensures a == s.(status := Approved, rejectionReason := None, proofUrl := a.proofUrl)
    ensures a.proofUrl == ClearedProof <==> (HasLastSegment(s.proofUrl) && purgeSucceeded) || s.proofUrl == ClearedProof
    ensures a.proofUrl != ClearedProof ==> a.proofUrl == s.proofUrl
  {
    s.(status := Approved, rejectionReason := None,
       proofUrl := if HasLastSegment(s.proofUrl) && purgeSucceeded then ClearedProof else s.proofUrl)
  }

  /** The approve branch: status, cleared reason and payout in one unit, then the best-effort purge. */
  method ApproveSubmission(db: Db, submissionId: SubmissionId, purgeSucceeded: bool)
    requires db.Valid()
    requires submissionId in db.submissions && db.submissions[submissionId].status == Pending
    modifies db
    ensures db.Valid()
    ensures db.posts == old(db.posts)
    ensures db.tokens == old(db.tokens) && db.notifications == old(db.notifications)
    ensures var s := old(db.submissions)[submissionId];
            db.submissions == old(db.submissions)[submissionId := ApprovedRow(s, purgeSucceeded)]
    ensures var s := old(db.submissions)[submissionId];
            db.users == Credit(old(db.users), s.userId, old(db.posts)[s.postId].reward)
    ensures var s := old(db.submissions)[submissionId];
            var author := old(db.posts)[s.postId].authorId;
            |PendingReceived(db.posts, db.submissions, author)|
            == |PendingReceived(old(db.posts), old(db.submissions), author)| - 1
  {
    var s := db.submissions[submissionId];
    var reward := db.posts[s.postId].reward;
    // one transaction: the status change and the payout; then, outside it, the purge
    var final := ApprovedRow(s, purgeSucceeded);
    PayoutKeepsStore(db.users, db.posts, db.submissions, submissionId, final, reward);
    db.submissions, db.users := db.submissions[submissionId := final], Credit(db.users, s.userId, reward);
  }

  /**
   * Rewriting a PENDING submission to a non-PENDING row and crediting its submitter keeps
   * the invariant and drops the post author's pending count by one.
   */
  lemma PayoutKeepsStore(users: map<UserId, User>, posts: map<PostId, Post>, subs: map<SubmissionId, Submission>,
                         id: SubmissionId, row: Submission, amount: int)
    requires Consistent(users, posts, subs)
    requires id in subs && subs[id].status == Pending && row.status != Pending
    requires row.userId == subs[id].userId && row.postId == subs[id].postId
    ensures Consistent(Credit(users, subs[id].userId, amount), posts, subs[id := row])
    ensures var author := posts[subs[id].postId].authorId;
            |PendingReceived(posts, subs[id := row], author)| == |PendingReceived(posts, subs, author)| - 1
  {
    var u := subs[id].userId;
    RewriteKeepsLinks(users, posts, subs, id, row, u, users[u].(credits := users[u].credits + amount));
    PendingReceivedUpdate(posts, subs, id, row, posts[subs[id].postId].authorId);
  }

  /** The reject branch: the status and the reason, no credit moves. */
  method RejectSubmission(db: Db, submissionId: SubmissionId, reason: Option<string>)
    requires db.Valid()
    requires submissionId in db.submissions && db.submissions[submissionId].status == Pending
    modifies db
    ensures db.Valid()
    ensures db.posts == old(db.posts) && db.users == old(db.users)
    ensures db.tokens == old(db.tokens) && db.notifications == old(db.notifications)
    ensures var s := old(db.submissions)[submissionId];
            db.submissions == old(db.submissions)[submissionId := s.(
              status := Rejected, rejectionReason := Some(RejectionText(reason)))]
    ensures var s := old(db.submissions)[submissionId];
            var author := old(db.posts)[s.postId].authorId;
            |PendingReceived(db.posts, db.submissions, author)|
            == |PendingReceived(old(db.posts), old(db.submissions), author)| - 1
  {
    var s := db.submissions[submissionId];
    var rejected := s.(status := Rejected, rejectionReason := Some(RejectionText(reason)));
    PendingReceivedUpdate(db.posts, db.submissions, submissionId, rejected, db.posts[s.postId].authorId);
    RewriteRowKeepsLinks(db.users, db.posts, db.submissions, submissionId, rejected);
    db.submissions := db.submissions[submissionId := rejected];
  }

  /**
   * `disputeSubmissionAction`: the submitter, and only from REJECTED, moves the submission
   * to DISPUTED and raises its dispute flag. The rejection reason is kept as it was.
   */
  method DisputeSubmission(db: Db, session: Option<Session>, submissionId: SubmissionId) returns (r: Outcome)
    requires db.Valid()
    modifies db
    ensures db.Valid()
    ensures db.users == old(db.users) && db.posts == old(db.posts)
    ensures db.tokens == old(db.tokens) && db.notifications == old(db.notifications)
    ensures !LoggedIn(session) ==> r == Failed(NotLoggedIn)
    ensures LoggedIn(session)
            && (submissionId !in old(db.submissions) || old(db.submissions)[submissionId].userId != session.value.userId)
            ==> r == Failed(NotOwnSubmission)
    ensures LoggedIn(session)
            && submissionId in old(db.submissions) && old(db.submissions)[submissionId].userId == session.value.userId
            && old(db.submissions)[submissionId].status != Rejected
            ==> r == Failed(NotRejected)
    ensures r == Ok <==>
            && LoggedIn(session)
            && submissionId in old(db.submissions)
            && old(db.submissions)[submissionId].userId == session.value.userId
            && old(db.submissions)[submissionId].status == Rejected
    ensures r == Ok ==>
            var s := old(db.submissions)[submissionId];
            db.submissions == old(db.submissions)[submissionId := s.(status := Disputed, isDisputed := true)]
    ensures r != Ok ==> db.submissions == old(db.submissions)
  {
    if !LoggedIn(session) {
      return Failed(NotLoggedIn);
    }
    var uid := session.value.userId;
    if submissionId !in db.submissions || db.submissions[submissionId].userId != uid {
      return Failed(NotOwnSubmission);
    }
    var s := db.submissions[submissionId];
    if s.status != Rejected {
      return Failed(NotRejected);
    }
    RewriteRowKeepsLinks(db.users, db.posts, db.submissions, submissionId, s.(status := Disputed, isDisputed := true));
    db.submissions := db.submissions[submissionId := s.(status := Disputed, isDisputed := true)];
    r := Ok;
  }
}
