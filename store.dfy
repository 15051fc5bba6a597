/**
 * The persistent store behind the server actions: the Prisma tables for users, posts,
 * submissions, e-mail verification tokens and notifications, with the record types and
 * the relational invariant every action keeps.
 */
module Store {

  datatype Option<T> = None | Some(value: T)

  type UserId = string
  type PostId = string
  type SubmissionId = string

  /** Status values a submission row can hold. */
  datatype Status = Pending | Approved | Rejected | Disputed | Verified

  datatype User = User(email: string, name: string, role: string, passwordHash: string, credits: int)

  /** `maxSubmissions` is nullable in the table; `None` stands for null. */
  datatype Post = Post(authorId: UserId, url: string, reward: int, createdAt: int, maxSubmissions: Option<int>)

  datatype Submission = Submission(
    postId: PostId,
    userId: UserId,
    proofUrl: string,
    status: Status,
    rejectionReason: Option<string>,
    isDisputed: bool,
    createdAt: int)

  datatype VerificationToken = VerificationToken(identifier: string, token: string, expires: int)

  datatype Notification = Notification(userId: UserId, read: bool, kind: string)

  /** The caller as the session layer reports it; the actions receive `Option<Session>`. */
  datatype Session = Session(userId: UserId, role: string)

  /** `session?.user?.id` is truthy: there is a session and its id is not the empty string. */
  predicate LoggedIn(session: Option<Session>)
  {
    session.Some? && session.value.userId != ""
  }

  /** `session.user.role === "ADMIN"`, the only role test the actions make. */
  predicate IsAdmin(session: Option<Session>)
  {
    session.Some? && session.value.role == "ADMIN"
  }

  /** Rows of the submission table that belong to post `pid`. */
  function SubmissionsOf(subs: map<SubmissionId, Submission>, pid: PostId): (r: set<SubmissionId>)
    ensures forall id :: id in r <==> id in subs && subs[id].postId == pid
  {
    set id | id in subs && subs[id].postId == pid
  }

  /** Rows of post `pid` that are still PENDING. */
  function PendingOf(subs: map<SubmissionId, Submission>, pid: PostId): (r: set<SubmissionId>)
    ensures r <= SubmissionsOf(subs, pid)
    ensures forall id :: id in r <==> id in subs && subs[id].postId == pid && subs[id].status == Pending
  {
    set id | id in subs && subs[id].postId == pid && subs[id].status == Pending
  }

  /** Some row pairs user `uid` with post `pid`, whatever its status. */
  predicate HasSubmitted(subs: map<SubmissionId, Submission>, uid: UserId, pid: PostId)
  {
    exists id :: id in subs && subs[id].userId == uid && subs[id].postId == pid
  }

  /**
   * Every submission points at an existing post and user, every post at an existing author:
   * the foreign keys of the submission and post tables.
   */
  predicate Linked(users: map<UserId, User>, posts: map<PostId, Post>, subs: map<SubmissionId, Submission>)
  {
    && (set id | id in subs :: subs[id].postId) <= posts.Keys
    && (set id | id in subs :: subs[id].userId) <= users.Keys
    && (set p | p in posts :: posts[p].authorId) <= users.Keys
  }

  /** The foreign keys one submission row needs. */
  lemma LinkedAt(users: map<UserId, User>, posts: map<PostId, Post>, subs: map<SubmissionId, Submission>, id: SubmissionId)
    requires Linked(users, posts, subs) && id in subs
    ensures subs[id].postId in posts && subs[id].userId in users
    ensures posts[subs[id].postId].authorId in users
  {
    assert subs[id].postId in (set i | i in subs :: subs[i].postId);
    assert subs[id].userId in (set i | i in subs :: subs[i].userId);
    var p := subs[id].postId;
    assert posts[p].authorId in (set q | q in posts :: posts[q].authorId);
  }

  /** At most one submission per (user, post) pair. */
  predicate OnePerPair(subs: map<SubmissionId, Submission>)
  {
    forall a, b :: a in subs && b in subs && subs[a].userId == subs[b].userId && subs[a].postId == subs[b].postId ==> a == b
  }

  /** The relational invariant of the whole store. */
  predicate Consistent(users: map<UserId, User>, posts: map<PostId, Post>, subs: map<SubmissionId, Submission>)
  {
    Linked(users, posts, subs) && OnePerPair(subs) && EmailsUnique(users)
  }

  /** The e-mail column is unique (the actions look users up by it with `findUnique`). */
  predicate EmailsUnique(users: map<UserId, User>)
  {
    forall a, b :: a in users && b in users && users[a].email == users[b].email ==> a == b
  }

  predicate EmailTaken(users: map<UserId, User>, email: string)
  {
    exists u :: u in users && users[u].email == email
  }

  /** What an action reports back: success, a silent no-op, or a refusal with its reason. */
  datatype Outcome = Ok | Ignored | Failed(failure: Failure)

  /** The refusals the actions return or throw, one per message in the source. */
  datatype Failure =
    | NotLoggedIn         // no session, or a session without a user id
    | Unauthorized        // the caller lacks the relationship or role the action needs
    | NotFound            // the post or submission does not exist
    | TaskFull            // the post has reached its submission cap
    | AlreadySubmitted    // the caller already has a submission on the post
    | NotOwnSubmission    // a dispute on somebody else's submission
    | NotRejected         // a dispute on a submission that is not REJECTED
    | NoUsername          // posting before a display name is set
    | DailyLimit          // a sixth post within one day
    | InsufficientCredits // fewer credits than the posting fee
    | AlreadyRegistered   // an OTP requested for an e-mail that has an account
    | InvalidCode         // no OTP on record for the e-mail, or a different one
    | CodeExpired         // the OTP on record has expired
    | EmailInUse          // the unique e-mail column refused the new user
    | MailFailed          // the OTP e-mail could not be sent
    | StoreFailure        // the database refused a write (a missing referenced row)

  /** A submission counts towards `uid`'s unread badge: it is PENDING on one of `uid`'s posts. */
  predicate CountsAsUnread(posts: map<PostId, Post>, s: Submission, uid: UserId)
  {
    s.status == Pending && s.postId in posts && posts[s.postId].authorId == uid
  }

  /** The PENDING submissions on the posts authored by `uid`. */
  function PendingReceived(posts: map<PostId, Post>, subs: map<SubmissionId, Submission>, uid: UserId): set<SubmissionId>
  {
    set id | id in subs && CountsAsUnread(posts, subs[id], uid)
  }

  /** Writing one submission row moves `uid`'s pending count by what that row contributes before and after. */
  lemma PendingReceivedUpdate(posts: map<PostId, Post>, subs: map<SubmissionId, Submission>, id: SubmissionId, row: Submission, uid: UserId)
    ensures |PendingReceived(posts, subs[id := row], uid)|
         == |PendingReceived(posts, subs, uid)|
            - (if id in subs && CountsAsUnread(posts, subs[id], uid) then 1 else 0)
            + (if CountsAsUnread(posts, row, uid) then 1 else 0)
  {
    PendingSize(posts, subs, id, uid);
    PendingSize(posts, subs[id := row], id, uid);
    assert PendingReceived(posts, subs[id := row], uid) - {id} == PendingReceived(posts, subs, uid) - {id};
  }

  lemma PendingSize(posts: map<PostId, Post>, subs: map<SubmissionId, Submission>, id: SubmissionId, uid: UserId)
    ensures |PendingReceived(posts, subs, uid)|
         == |PendingReceived(posts, subs, uid) - {id}| + (if id in subs && CountsAsUnread(posts, subs[id], uid) then 1 else 0)
  {
    var all := PendingReceived(posts, subs, uid);
    if id in subs && CountsAsUnread(posts, subs[id], uid) {
      assert all == (all - {id}) + {id};
    } else {
      assert all - {id} == all;
    }
  }

  /**
   * Rewriting one submission row without moving it to another user or post, and one user
   * row without changing its e-mail, keeps the invariant.
   */
  lemma RewriteKeepsLinks(users: map<UserId, User>, posts: map<PostId, Post>, subs: map<SubmissionId, Submission>,
                          id: SubmissionId, row: Submission, u: UserId, urow: User)
    requires Consistent(users, posts, subs)
    requires id in subs && row.userId == subs[id].userId && row.postId == subs[id].postId
    requires u in users && urow.email == users[u].email
    ensures Consistent(users[u := urow], posts, subs[id := row])
  {
  }

  /** Rewriting one submission row without moving it to another user or post keeps the invariant. */
  lemma RewriteRowKeepsLinks(users: map<UserId, User>, posts: map<PostId, Post>, subs: map<SubmissionId, Submission>,
                             id: SubmissionId, row: Submission)
    requires Consistent(users, posts, subs)
    requires id in subs && row.userId == subs[id].userId && row.postId == subs[id].postId
    ensures Consistent(users, posts, subs[id := row])
  {
  }

  /** Rewriting one user row without changing its e-mail keeps the invariant. */
  lemma RewriteUserKeepsLinks(users: map<UserId, User>, posts: map<PostId, Post>, subs: map<SubmissionId, Submission>,
                              u: UserId, urow: User)
    requires Consistent(users, posts, subs)
    requires u in users && urow.email == users[u].email
    ensures Consistent(users[u := urow], posts, subs)
  {
  }

  /** The Prisma client: one object whose tables the server actions read and write. */
  class Db {
    var users: map<UserId, User>
    var posts: map<PostId, Post>
    var submissions: map<SubmissionId, Submission>
    var tokens: seq<VerificationToken>
    var notifications: seq<Notification>

    ghost predicate Valid()
      reads this
    {
      Consistent(users, posts, submissions)
    }

    constructor ()
      ensures Valid()
      ensures users == map[] && posts == map[] && submissions == map[]
      ensures tokens == [] && notifications == []
    {
      users, posts, submissions := map[], map[], map[];
      tokens, notifications := [], [];
    }
  }
}
