/**
 * The admin side of a dispute: an administrator either approves the submitter's proof, which
 * pays the reward and marks the submission VERIFIED, or keeps it REJECTED. Either way the
 * dispute flag is cleared.
 */
module DisputeActions {
  import opened Store
  import opened Ledger

  /** The `decision` argument: "APPROVED" approves the proof, anything else keeps the rejection. */
  datatype Ruling = ApproveProof | KeepRejected

  /** The row after the ruling: status and dispute flag change, the reason and the proof URL do not. */
  function RuledRow(s: Submission, ruling: Ruling): (r: Submission)
    ensures r.isDisputed == false
    ensures r.status == (if ruling == ApproveProof then Verified else Rejected)
    ensures r == s.(status := r.status, isDisputed := false)
  {
    s.(status := if ruling == ApproveProof then Verified else Rejected, isDisputed := false)
  }

  /**
   * `resolveDisputeAction`. Only the role is checked: the submission's current status is
   * not, so any submission can be ruled on, and approving one pays its submitter again each
   * time. Approving credits the submitter with the post's reward and then writes the row.
   */
  method ResolveDispute(db: Db, session: Option<Session>, submissionId: SubmissionId, ruling: Ruling)
    returns (r: Outcome)
    requires db.Valid()
    modifies db
    ensures db.Valid()
    ensures db.posts == old(db.posts)
    ensures db.tokens == old(db.tokens) && db.notifications == old(db.notifications)
    ensures !IsAdmin(session) ==> r == Failed(Unauthorized)
    ensures IsAdmin(session) && submissionId !in old(db.submissions) ==> r == Failed(NotFound)
    ensures r == Ok <==> IsAdmin(session) && submissionId in old(db.submissions)
    ensures r == Ok ==>
            var s := old(db.submissions)[submissionId];
            && db.submissions == old(db.submissions)[submissionId := RuledRow(s, ruling)]
            && db.users == (if ruling == ApproveProof then Credit(old(db.users), s.userId, old(db.posts)[s.postId].reward)
                            else old(db.users))
    ensures r != Ok ==> db.users == old(db.users) && db.submissions == old(db.submissions)
  {
    if !IsAdmin(session) {
      return Failed(Unauthorized);
    }
    if submissionId !in db.submissions {
      return Failed(NotFound);
    }
    var s := db.submissions[submissionId];
    LinkedAt(db.users, db.posts, db.submissions, submissionId);
    var row := RuledRow(s, ruling);
    if ruling == ApproveProof {
      RewriteKeepsLinks(db.users, db.posts, db.submissions, submissionId, row,
                        s.userId, db.users[s.userId].(credits := db.users[s.userId].credits + db.posts[s.postId].reward));
      db.users := Credit(db.users, s.userId, db.posts[s.postId].reward);
    } else {
      RewriteRowKeepsLinks(db.users, db.posts, db.submissions, submissionId, row);
    }
    db.submissions := db.submissions[submissionId := row];
    r := Ok;
  }

  /**
   * The ledger effect of one ruling: approving adds the post's reward to the total, keeping
   * the rejection adds nothing.
   */
  lemma RulingTotal(users: map<UserId, User>, posts: map<PostId, Post>, subs: map<SubmissionId, Submission>,
                    id: SubmissionId, ruling: Ruling)
    requires Consistent(users, posts, subs) && id in subs
    ensures subs[id].userId in users && subs[id].postId in posts
    ensures var after := if ruling == ApproveProof then Credit(users, subs[id].userId, posts[subs[id].postId].reward) else users;
            TotalCredits(after) == TotalCredits(users) + (if ruling == ApproveProof then posts[subs[id].postId].reward else 0)
  {
    LinkedAt(users, posts, subs, id);
    if ruling == ApproveProof {
      CreditTotal(users, subs[id].userId, posts[subs[id].postId].reward);
    }
  }

  /**
   * Approving the same submission twice pays twice: the second ruling, on a submission that
   * is already VERIFIED, is accepted and credits the submitter again.
   */
  method ApproveTwicePaysTwice(db: Db, session: Option<Session>, submissionId: SubmissionId)
    returns (first: Outcome, second: Outcome)
    requires db.Valid() && IsAdmin(session) && submissionId in db.submissions
    modifies db
    ensures first == Ok && second == Ok
    ensures var s := old(db.submissions)[submissionId];
            && s.userId in old(db.users) && s.postId in old(db.posts)
            && s.userId in db.users && submissionId in db.submissions
            && db.submissions[submissionId].status == Verified
            && db.users[s.userId].credits == old(db.users)[s.userId].credits + 2 * old(db.posts)[s.postId].reward
            && TotalCredits(db.users) == TotalCredits(old(db.users)) + 2 * old(db.posts)[s.postId].reward
  {
    var s := db.submissions[submissionId];
    LinkedAt(db.users, db.posts, db.submissions, submissionId);
    var reward := db.posts[s.postId].reward;
    ghost var users0 := db.users;
    first := ResolveDispute(db, session, submissionId, ApproveProof);
    CreditTotal(users0, s.userId, reward);
    ghost var users1 := db.users;
    second := ResolveDispute(db, session, submissionId, ApproveProof);
    CreditTotal(users1, s.userId, reward);
  }
}
