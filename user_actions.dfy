/**
 * The profile actions: saving the caller's display name, and the two lookups the navigation
 * bar polls, the caller's balance and the number of submissions waiting for the caller's review.
 */
module UserActions {
  import opened Store
  import opened Text
  import opened Ledger

  /**
   * `updateUsername`. The name is stored trimmed; an update of a missing user row throws,
   * which the action reports as a failure ("might already be taken").
   */
  method UpdateUsername(db: Db, session: Option<Session>, newName: string) returns (r: Outcome)
    requires db.Valid()
    modifies db
    ensures db.Valid()
    ensures db.posts == old(db.posts) && db.submissions == old(db.submissions)
    ensures db.tokens == old(db.tokens) && db.notifications == old(db.notifications)
    ensures !LoggedIn(session) ==> r == Failed(NotLoggedIn)
    ensures LoggedIn(session) && session.value.userId !in old(db.users) ==> r == Failed(StoreFailure)
    ensures r == Ok <==> LoggedIn(session) && session.value.userId in old(db.users)
    ensures r == Ok ==>
            var uid := session.value.userId;
            db.users == old(db.users)[uid := old(db.users)[uid].(name := Trim(newName))]
    ensures r != Ok ==> db.users == old(db.users)
  {
    if !LoggedIn(session) {
      return Failed(NotLoggedIn);
    }
    var uid := session.value.userId;
    if uid !in db.users {
      return Failed(StoreFailure);
    }
    var row := db.users[uid].(name := Trim(newName));
    RewriteUserKeepsLinks(db.users, db.posts, db.submissions, uid, row);
    db.users := db.users[uid := row];
    r := Ok;
  }

  /**
   * Saving a name stores it without surrounding white space, and saving the stored name
   * again changes nothing.
   */
  lemma SavedNameIsTrimmed(newName: string)
    ensures var n := Trim(newName);
            (n != [] ==> !IsJsSpace(n[0]) && !IsJsSpace(n[|n| - 1])) && Trim(n) == n
  {
    TrimmedEnds(newName);
    TrimIdempotent(newName);
  }

  /** `getUserCredits`: 0 without a session, else the stored balance, or 0 when there is no row. */
  function GetUserCredits(users: map<UserId, User>, session: Option<Session>): (credits: int)
    ensures !LoggedIn(session) || session.value.userId !in users ==> credits == 0
    ensures LoggedIn(session) && session.value.userId in users ==> credits == users[session.value.userId].credits
  {
    if LoggedIn(session) && session.value.userId in users then users[session.value.userId].credits else 0
  }

  /**
   * The balance the navigation bar shows follows every credit an action makes: after
   * `Credit(users, u, amount)` (an approval's reward, a ruling's payout, the posting fee as
   * a negative amount) the caller sees `amount` more exactly when the caller is `u`.
   */
  lemma CreditedBalance(users: map<UserId, User>, session: Option<Session>, u: UserId, amount: int)
    requires u in users
    ensures GetUserCredits(Credit(users, u, amount), session)
         == GetUserCredits(users, session) + (if LoggedIn(session) && session.value.userId == u then amount else 0)
  {
    if LoggedIn(session) && session.value.userId in users {
      CreditAt(users, u, amount, session.value.userId);
    }
  }

  /** Saving a name moves no credit: the balance and the credit total stay as they were. */
  lemma RenameKeepsCredits(users: map<UserId, User>, session: Option<Session>, uid: UserId, name: string)
    requires uid in users
    ensures GetUserCredits(users[uid := users[uid].(name := name)], session) == GetUserCredits(users, session)
    ensures TotalCredits(users[uid := users[uid].(name := name)]) == TotalCredits(users)
  {
    SameCredits(users, uid, users[uid].(name := name));
  }

  /** `getUnreadCount`: 0 without a session, else the PENDING submissions on the caller's posts. */
  function GetUnreadCount(posts: map<PostId, Post>, subs: map<SubmissionId, Submission>, session: Option<Session>): (n: nat)
    ensures !LoggedIn(session) ==> n == 0
    ensures LoggedIn(session) ==> n == |PendingReceived(posts, subs, session.value.userId)|
  {
    if LoggedIn(session) then |PendingReceived(posts, subs, session.value.userId)| else 0
  }

  /** The count is zero exactly when no submission waits on any of the caller's posts. */
  lemma UnreadZero(posts: map<PostId, Post>, subs: map<SubmissionId, Submission>, session: Option<Session>)
    requires LoggedIn(session)
    ensures GetUnreadCount(posts, subs, session) == 0
            <==> forall id :: id in subs ==> !CountsAsUnread(posts, subs[id], session.value.userId)
  {
    var s := PendingReceived(posts, subs, session.value.userId);
    assert forall id :: id in subs && CountsAsUnread(posts, subs[id], session.value.userId) ==> id in s;
    if s != {} {
      var id :| id in s;
      assert id in subs && CountsAsUnread(posts, subs[id], session.value.userId);
    }
  }
}
