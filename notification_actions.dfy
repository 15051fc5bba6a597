/**
 * The activity badges. `getUnreadCount` repeats the profile lookup of the same name;
 * `getActivityCounts` counts the caller's unread notifications of each kind.
 */
module NotificationActions {
  import opened Store
  import UserActions

  const NewSubmissionKind: string := "NEW_SUBMISSION"
  const StatusUpdateKind: string := "STATUS_UPDATE"

  /** `getUnreadCount` of the notification actions: the same count as the profile lookup. */
  function GetUnreadCount(posts: map<PostId, Post>, subs: map<SubmissionId, Submission>, session: Option<Session>): (n: nat)
    ensures !LoggedIn(session) ==> n == 0
    ensures LoggedIn(session) ==> n == |PendingReceived(posts, subs, session.value.userId)|
    ensures n == UserActions.GetUnreadCount(posts, subs, session)
  {
    if LoggedIn(session) then |PendingReceived(posts, subs, session.value.userId)| else 0
  }

  /**
   * How one submission write moves the caller's badge: a review that settles a PENDING
   * submission on the caller's post lowers it by one, a new submission on it raises it by one.
   */
  lemma UnreadAfterWrite(posts: map<PostId, Post>, subs: map<SubmissionId, Submission>, session: Option<Session>,
                         id: SubmissionId, row: Submission)
    requires LoggedIn(session)
    ensures var uid := session.value.userId;
            GetUnreadCount(posts, subs[id := row], session)
            == GetUnreadCount(posts, subs, session)
               - (if id in subs && CountsAsUnread(posts, subs[id], uid) then 1 else 0)
               + (if CountsAsUnread(posts, row, uid) then 1 else 0)
  {
    PendingReceivedUpdate(posts, subs, id, row, session.value.userId);
  }

  /**
   * The `userId` filter of the notification count. This action only tests for a session,
   * so a session without a user id passes `undefined`, which Prisma treats as no filter.
   */
  function UserFilter(session: Session): (f: Option<UserId>)
    ensures f.None? <==> session.userId == ""
    ensures f.Some? ==> f.value == session.userId
  {
    if session.userId == "" then None else Some(session.userId)
  }

  predicate Matches(n: Notification, filter: Option<UserId>, kind: string)
  {
    !n.read && n.kind == kind && (filter.None? || n.userId == filter.value)
  }

  /** `notification.count` over the table with the given filter. */
  function CountMatching(ns: seq<Notification>, filter: Option<UserId>, kind: string): (c: nat)
    ensures c <= |ns|
    ensures c == 0 <==> forall i :: 0 <= i < |ns| ==> !Matches(ns[i], filter, kind)
    ensures c == |ns| <==> forall i :: 0 <= i < |ns| ==> Matches(ns[i], filter, kind)
  {
    if ns == [] then 0
    else
      var rest := CountMatching(ns[1..], filter, kind);
      assert forall i :: 1 <= i < |ns| ==> ns[i] == ns[1..][i - 1];
      (if Matches(ns[0], filter, kind) then 1 else 0) + rest
  }

  /** The count over a table is the sum of the counts over its parts. */
  lemma {:induction false} CountSplits(a: seq<Notification>, b: seq<Notification>, filter: Option<UserId>, kind: string)
    ensures CountMatching(a + b, filter, kind) == CountMatching(a, filter, kind) + CountMatching(b, filter, kind)
  {
    if a != [] {
      assert (a + b)[1..] == a[1..] + b;
      CountSplits(a[1..], b, filter, kind);
    } else {
      assert a + b == b;
    }
  }

  /** Dropping the user filter never lowers a count: no filter counts every user's rows. */
  lemma {:induction false} NoFilterCountsMost(ns: seq<Notification>, u: UserId, kind: string)
    ensures CountMatching(ns, Some(u), kind) <= CountMatching(ns, None, kind)
  {
    if ns != [] {
      NoFilterCountsMost(ns[1..], u, kind);
    }
  }

  /** No notification has both kinds, so the two counts together never exceed the table. */
  lemma {:induction false} KindsShareNothing(ns: seq<Notification>, filter: Option<UserId>)
    ensures CountMatching(ns, filter, NewSubmissionKind) + CountMatching(ns, filter, StatusUpdateKind) <= |ns|
  {
    if ns != [] {
      KindsShareNothing(ns[1..], filter);
    }
  }

  datatype ActivityCounts = ActivityCounts(received: nat, sent: nat)

  /** `getActivityCounts`: both zero without a session, else the unread counts of the two kinds. */
  function GetActivityCounts(ns: seq<Notification>, session: Option<Session>): (r: ActivityCounts)
    ensures session.None? ==> r == ActivityCounts(0, 0)
    ensures session.Some? ==>
            && r.received == CountMatching(ns, UserFilter(session.value), NewSubmissionKind)
            && r.sent == CountMatching(ns, UserFilter(session.value), StatusUpdateKind)
  {
    if session.None? then ActivityCounts(0, 0)
    else ActivityCounts(CountMatching(ns, UserFilter(session.value), NewSubmissionKind),
                        CountMatching(ns, UserFilter(session.value), StatusUpdateKind))
  }

  /**
   * The badges never count more notifications than the table holds, and a session without
   * a user id sees at least the counts of any single user.
   */
  lemma ActivityCountsBounds(ns: seq<Notification>, session: Session, u: UserId)
    ensures var r := GetActivityCounts(ns, Some(session));
            r.received + r.sent <= |ns|
    ensures session.userId == "" ==>
            var r := GetActivityCounts(ns, Some(session));
            && r.received >= GetActivityCounts(ns, Some(Session(u, session.role))).received
            && r.sent >= GetActivityCounts(ns, Some(Session(u, session.role))).sent
  {
    KindsShareNothing(ns, UserFilter(session));
    if u != "" {
      NoFilterCountsMost(ns, u, NewSubmissionKind);
      NoFilterCountsMost(ns, u, StatusUpdateKind);
    }
  }

  /** A notification the caller has read, or one of another user, never adds to the caller's badges. */
  lemma ReadOrForeignIgnored(ns: seq<Notification>, n: Notification, session: Session)
    requires session.userId != "" && (n.read || n.userId != session.userId)
    ensures GetActivityCounts(ns + [n], Some(session)) == GetActivityCounts(ns, Some(session))
  {
    CountSplits(ns, [n], Some(session.userId), NewSubmissionKind);
    CountSplits(ns, [n], Some(session.userId), StatusUpdateKind);
  }
}
