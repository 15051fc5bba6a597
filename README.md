# Lynks settlement core in Dafny

Lynks is a marketplace for social-media engagement. A user spends credits to publish a
post (a link to a tweet) carrying a reward. Other users find the post in a shuffled feed
and submit proof that they engaged with it. The post's author approves the proof, which
pays the submitter the reward, or rejects it. A rejected submitter may open a dispute that
an administrator rules on. A scheduled job approves submissions left PENDING for twelve
hours. Deleting a post first approves and pays every submission still PENDING on it.
Registration works by a one-time code sent by e-mail, and new accounts start with 10 credits.

This project models the server actions that move credits and submission statuses, over a
model of the database tables, and proves what each action does to them.

- `store.dfy` (module `Store`): the tables as fields of one `Db` object. Users, posts and
  submissions are maps keyed by id; verification tokens and notifications are sequences in
  table order. It also holds the record types, the session, the outcome of an action, and
  the invariant every action keeps: foreign keys resolve, one submission per (user, post)
  pair, unique e-mails.
- `ledger.dfy` (module `Ledger`): the sum of all balances, and how crediting one user or a
  set of users moves it.
- `text.dfy` (module `Text`): the string work the actions do. This covers the upload key of
  a proof URL, the tweet id of a post URL, JavaScript's `trim`, and the six-digit
  registration code.
- `submission_actions.dfy`, `post_actions.dfy`, `dispute_actions.dfy`, `auto_approve.dfy`,
  `register_actions.dfy`, `user_actions.dfy`, `notification_actions.dfy`: one module per
  source file, one method or function per exported action.

Each state-changing action is a module-level method that takes the `Db` object and has
`modifies db`. Its `ensures` gives
every outcome's condition, as an if-and-only-if for success, and the new value of every
table. Each table change is written through a specification function (`Credit`, `PayEach`,
`ApprovedRow`, `Sweep`, `RemoveTokensFor`, ...). Lemmas state what those functions do to
balances, counts and tokens.

Behaviour the code shows, modelled as written:
- The cron sweep approves without paying anyone (`AutoApprove.AutoApproveRoute` leaves
  `users` unchanged).
- Deleting a post pays each PENDING submitter (`PostActions.DeletePost`, `PostActions.DeletePayout`).
- The dispute ruling does not check that the submission is DISPUTED, so approving twice
  pays twice (`DisputeActions.ApproveTwicePaysTwice`).
- Authors may submit proof to their own posts.
- The submission cap counts submissions of every status.

## Model

| member | source | states |
|---|---|---|
| Store.PendingReceivedUpdate | src/app/actions/user.ts:61-66 | writing one submission row moves an author's unread count by the row's contribution before and after the write |
| Text.LastSegment | src/app/actions/submission.ts:98 | the upload key is the longest `/`-free suffix of the proof URL, preceded by a `/` when shorter than the URL |
| Text.LastSegmentNonEmpty | src/app/actions/submission.ts:98-99 | the key is non-empty exactly when the URL is non-empty and does not end in `/` |
| Text.BeforeFirst | src/app/actions/post.ts:44 | the part before the first `?` is a `?`-free prefix, followed by `?` when shorter than the input |
| Text.TweetId | src/app/actions/post.ts:44 | the tweet id is a `/`- and `?`-free prefix of the last path segment, cut at its first `?`; a plain id is its own tweet id |
| Text.TrimStartSpec | src/app/actions/user.ts:20 | removing leading white space keeps a suffix that does not start with white space, and removes only white space |
| Text.TrimEndSpec | src/app/actions/user.ts:20 | removing trailing white space keeps a prefix that does not end in white space, and removes only white space |
| Text.TrimSpec | src/app/actions/user.ts:20 | a trimmed string is the contiguous piece of the input after its leading white space, followed only by white space |
| Text.LeadingSpaces | src/app/actions/user.ts:20 | counts exactly the white-space characters before the first other character |
| Text.TrimmedEnds | src/app/actions/user.ts:20 | a non-empty trimmed string neither starts nor ends with white space |
| Text.TrimIdempotent | src/app/actions/user.ts:20 | trimming a trimmed string returns it unchanged |
| Text.DecimalString | src/app/actions/register-action.ts:35 | `toString` of a natural number is a non-empty digit string, with a leading zero only for 0 |
| Text.DecimalRoundTrip | src/app/actions/register-action.ts:35 | reading the decimal rendering back yields the number |
| Text.DecimalLength | src/app/actions/register-action.ts:35 | a number in [10^(k-1), 10^k) renders with exactly k digits |
| Text.OtpCode | src/app/actions/register-action.ts:35 | the code is six decimal digits whose value is 100000 plus the random draw, so it lies in [100000, 999999] |
| Ledger.TotalWithout | src/app/actions/submission.ts:90-93 | the credit total splits at any user into that user's balance plus the rest |
| Ledger.SetCredits | src/app/actions/submission.ts:90-93 | changing one balance moves the total by exactly the change |
| Ledger.Credit | src/app/actions/submission.ts:90-93 | an increment changes only the target's balance, by the amount, and keeps every user |
| Ledger.CreditAt | src/app/actions/submission.ts:90-93 | crediting a user changes that user's row by exactly the amount and leaves every other row as it was |
| Ledger.CreditTotal | src/app/actions/submission.ts:90-93 | an increment raises the credit total by exactly the amount |
| Ledger.SameCredits | src/app/actions/user.ts:18-21 | rewriting a user row without touching its balance keeps the total |
| Ledger.AddUser | src/app/actions/register-action.ts:101-108 | inserting a user adds exactly the new balance to the total |
| Ledger.PayEach | src/app/actions/post.ts:153-157 | paying a set of users keeps the user table's keys |
| Ledger.PayEachAt | src/app/actions/post.ts:153-157 | each payee gains exactly the amount, and every other row stays as it was |
| Ledger.PayEachStep | src/app/actions/post.ts:153-157 | paying one more user equals crediting that user on top of the earlier payments |
| Ledger.PayEachTotal | src/app/actions/post.ts:153-157 | paying each of n users the amount raises the total by amount × n |
| SubmissionActions.SubmitProof | src/app/actions/submission.ts:11-60 | errors in the source's order: not logged in, post missing, cap reached (counting every status), already submitted; success exactly when all checks pass and the submitter's row exists; success inserts one PENDING row and raises the author's unread count by one; nothing else changes |
| SubmissionActions.SubmitWithinCap | src/app/actions/submission.ts:30-51 | a submission accepted below the cap (`maxSubmissions`, or 50 when that is null or 0) adds exactly one row to the post's count, which then still does not exceed the cap |
| SubmissionActions.UpdateSubmissionStatus | src/app/actions/submission.ts:63-131 | only the post's author may review; the author's review succeeds exactly when the submission is PENDING and is otherwise ignored with no change; approval credits the submitter with the reward and writes the approved row; rejection stores the reason or the default text and moves no credit; both lower the author's unread count by one |
| SubmissionActions.RejectionText | src/app/actions/submission.ts:117 | the stored reason is the given one when non-empty, else "No reason provided.", and is never empty |
| SubmissionActions.ApprovedRow | src/app/actions/submission.ts:86-106 | the approved row is APPROVED with no reason; its proof URL becomes the cleared sentinel exactly when the upload key is non-empty and the purge succeeded (or it already was the sentinel), and is otherwise kept |
| SubmissionActions.ApproveSubmission | src/app/actions/submission.ts:83-110 | the approve branch writes the approved row and credits the submitter with the post's reward, keeps the invariant, and lowers the author's unread count by one |
| SubmissionActions.PayoutKeepsStore | src/app/actions/submission.ts:85-94 | settling a PENDING row while crediting its submitter keeps the invariant and lowers the author's unread count by one |
| SubmissionActions.RejectSubmission | src/app/actions/submission.ts:111-120 | the reject branch sets REJECTED and the reason, leaves balances alone, and lowers the author's unread count by one |
| SubmissionActions.DisputeSubmission | src/app/actions/submission.ts:134-159 | only the submitter may dispute, and only from REJECTED; success sets DISPUTED and raises the dispute flag; every failure changes nothing |
| PostActions.FeedHidesOwnAndSubmitted | src/app/actions/post.ts:22-27 | a logged-in viewer never sees their own post in the feed, and a successful submission takes its post out of the submitter's feed |
| PostActions.FeedOrder | src/app/actions/post.ts:19-33 | the filtered listing holds exactly the listed posts the `where` clause admits, and is no longer than the listing |
| PostActions.FeedOrderKeepsListing | src/app/actions/post.ts:32 | filtering keeps newest-first order and the absence of repeats |
| PostActions.ConsKeepsListing | src/app/actions/post.ts:32 | a post at least as new as every entry of a listing, and not in it, may be put in front of it |
| PostActions.Page | src/app/actions/post.ts:20-21 | `skip`/`take` returns up to `take` consecutive entries starting at `skip` |
| PostActions.PagesAdjoin | src/app/actions/post.ts:20-21 | two consecutive pages concatenate to the page spanning both, so paging skips and repeats nothing |
| PostActions.Shuffle | src/app/actions/post.ts:35-40 | the in-place pass over the array copy computes exactly `FisherYates` of the page for the given draws; hence a permutation of the page, the page itself for identity draws, and the last entry is the one the first draw picked |
| PostActions.SwapKeepsMultiset | src/app/actions/post.ts:39 | swapping two entries keeps the multiset of the entries |
| PostActions.FisherYatesPermutes | src/app/actions/post.ts:37-40 | the reference pass only exchanges entries, so its result is a permutation of its input |
| PostActions.FisherYatesIdentity | src/app/actions/post.ts:37-40 | draws that pick each index itself leave the page unchanged |
| PostActions.FisherYatesSettled | src/app/actions/post.ts:37-40 | entries above the current index are never moved again by the rest of the pass |
| PostActions.FisherYatesLast | src/app/actions/post.ts:37-39 | the last entry of the shuffled page is the entry the first draw picked |
| PostActions.PageOfFeed | src/app/actions/post.ts:19-33 | a page of the filtered listing has no repeats and holds only posts the feed admits |
| PostActions.FetchFeedPosts | src/app/actions/post.ts:13-54 | the result is the Fisher–Yates shuffle, under the given draws, of the requested page of the filtered listing; so it is a permutation of that page, with at most `take` entries, no repeats, and only feed-admitted posts, each with its stored row and tweet id |
| PostActions.PostsInWindowAdd | src/app/actions/post.ts:86-91 | inserting a post adds one to the day's count exactly when the post is the user's and falls within the day |
| PostActions.NewPostKeepsStore | src/app/actions/post.ts:103-115 | charging the author and inserting a post by that author keeps the invariant |
| PostActions.CreatePublicLynk | src/app/actions/post.ts:56-129 | errors in order: not logged in, no user row or empty name, five posts already today (non-admins only), fewer than 25 credits; success exactly when all pass; success charges 25 and inserts the post with a null cap and its reward (5 for non-admins; for admins the parsed number, or 5 when it is NaN or 0) in one step; otherwise nothing changes |
| PostActions.CreateWithinLimit | src/app/actions/post.ts:80-96 | starting under the daily limit, one more post leaves the day at most at five, and the insertion inside the day adds exactly one |
| PostActions.CascadeLeavesOthers | src/app/actions/post.ts:165-167 | after the cascade the deleted post has no submissions, and every other post keeps exactly its submissions and its PENDING ones |
| PostActions.SubmittersCount | src/app/actions/post.ts:153-157 | distinct submissions of one post have distinct submitters, so no submitter is paid twice |
| PostActions.PayoutStep | src/app/actions/post.ts:153-163 | one loop turn turns the payout and approval of the done rows into those of the done rows plus one |
| PostActions.PayoutKeepsStore | src/app/actions/post.ts:150-163 | paying users and approving submissions keeps the invariant |
| PostActions.PayoutLoop | src/app/actions/post.ts:153-163 | the loop credits every PENDING submitter once with the reward and sets exactly those submissions to APPROVED |
| PostActions.PayPending | src/app/actions/post.ts:150-164 | the transaction's payout commits the loop's tables and keeps the invariant |
| PostActions.CascadeDropsApprovals | src/app/actions/post.ts:159-167 | approvals written to the deleted post's rows disappear with the cascade |
| PostActions.DeleteKeepsStore | src/app/actions/post.ts:165-167 | deleting a post together with its submissions keeps the invariant |
| PostActions.DeletePost | src/app/actions/post.ts:131-177 | errors in order: not logged in, post missing, not the author; success exactly when the caller is the author; success pays each PENDING submitter the reward and removes the post and all its submissions; otherwise nothing changes |
| PostActions.DeletePayout | src/app/actions/post.ts:150-168 | deletion raises the credit total by reward × the number of PENDING submissions, and each of their submitters gains exactly the reward |
| DisputeActions.ResolveDispute | src/app/actions/dispute.ts:7-42 | only an admin may rule, and the submission must exist; success writes the ruled row whatever the previous status, and an approval credits the submitter with the post's reward; failures change nothing |
| DisputeActions.RulingTotal | src/app/actions/dispute.ts:21-26 | an approving ruling raises the credit total by the reward; keeping the rejection adds nothing |
| DisputeActions.ApproveTwicePaysTwice | src/app/actions/dispute.ts:12-32 | two approving `ResolveDispute` calls on one submission both succeed, the second on a now-VERIFIED row; the submitter gains twice the reward and the credit total rises by twice the reward |
| AutoApprove.Sweep | src/app/api/cron/auto-approve/route.ts:15-25 | the bulk update keeps every submission row |
| AutoApprove.AutoApproveRoute | src/app/api/cron/auto-approve/route.ts:4-36 | 401 exactly when the header differs from "Bearer " plus the secret ("Bearer undefined" when unset), with no change; otherwise the due rows (PENDING, created at or before twelve hours ago) become APPROVED, the count is the number of due rows, and no balance changes |
| AutoApprove.HeaderDeterminesSecret | src/app/api/cron/auto-approve/route.ts:7 | two secrets accept the same header exactly when they are equal, or one is unset and the other is the literal "undefined" |
| AutoApprove.SweepKeepsStore | src/app/api/cron/auto-approve/route.ts:15-25 | the sweep keeps the invariant |
| AutoApprove.SweepChanges | src/app/api/cron/auto-approve/route.ts:15-25 | a row changes exactly when it is due, and then only in its status |
| AutoApprove.SweepLeavesNothingDue | src/app/api/cron/auto-approve/route.ts:12-25 | after a sweep nothing is due at the same or an earlier threshold, so an immediate second sweep approves nothing |
| RegisterActions.TokensFor | src/app/actions/register-action.ts:84-87 | exactly the token rows of the address |
| RegisterActions.RemoveTokensFor | src/app/actions/register-action.ts:38 | `deleteMany` keeps exactly the rows of other addresses |
| RegisterActions.RemoveKeepsOthers | src/app/actions/register-action.ts:38 | deleting one address's rows leaves every other address's rows, in order |
| RegisterActions.RemoveDropsAll | src/app/actions/register-action.ts:111-113 | after the delete no row of the address remains |
| RegisterActions.TokensForAppend | src/app/actions/register-action.ts:39-41 | appending a row adds it to its own address's rows only |
| RegisterActions.LatestToken | src/app/actions/register-action.ts:84-87 | `findFirst` by latest expiry: none exactly when the address has no row; else a row of the address with the maximum expiry |
| RegisterActions.LatestAfterReplace | src/app/actions/register-action.ts:38-41 | after the delete and insert, the new row is the one `findFirst` returns |
| RegisterActions.SendOtp | src/app/actions/register-action.ts:19-71 | a registered address is refused with tokens unchanged; otherwise the address's rows are replaced by one new code expiring in five minutes, and the result is success or a mail failure depending on the send; no other table changes |
| RegisterActions.SentCodeOnRecord | src/app/actions/register-action.ts:35-41 | after a send the address has exactly one row, holding a six-digit code, which `findFirst` returns; other addresses keep their rows |
| RegisterActions.NewUserKeepsStore | src/app/actions/register-action.ts:101-108 | inserting a user under a fresh id and an unused e-mail keeps the invariant |
| RegisterActions.RegisterUser | src/app/actions/register-action.ts:76-123 | errors in order: no matching latest code, code expired (strictly after its expiry), e-mail in use; success exactly when none applies; success inserts the user with 10 credits, an empty name and the default role, and deletes the address's codes; failures change nothing |
| RegisterActions.RegistrationEffect | src/app/actions/register-action.ts:101-113 | a registration adds exactly the sign-up credits to the total and leaves no code for the address |
| RegisterActions.SendThenRegister | src/app/actions/register-action.ts:84-95 | the code a send writes is found by a registration before its expiry and passes both checks |
| UserActions.UpdateUsername | src/app/actions/user.ts:10-32 | not logged in, or a missing user row (the update throws), is a failure with no change; success stores the trimmed name and changes nothing else |
| UserActions.SavedNameIsTrimmed | src/app/actions/user.ts:20 | a saved name has no white space at either end, and saving it again stores the same name |
| UserActions.CreditedBalance | src/app/actions/user.ts:37-51 | after any credit of `amount` to user `u`, the balance the caller reads rises by `amount` exactly when the caller is `u`, and is otherwise unchanged |
| UserActions.RenameKeepsCredits | src/app/actions/user.ts:18-21 | saving a name leaves the caller's balance and the credit total unchanged |
| UserActions.UnreadZero | src/app/actions/user.ts:56-72 | the unread count is 0 exactly when no PENDING submission sits on any of the caller's posts |
| NotificationActions.UnreadAfterWrite | src/app/actions/notification.ts:23-37 | one submission write moves the caller's badge by the row's contribution before and after: settling a PENDING row lowers it by one, a new PENDING row raises it by one |
| NotificationActions.CountMatching | src/app/actions/notification.ts:44-49 | the count is bounded by the table size; it is 0 exactly when no row matches and the table size exactly when every row does |
| NotificationActions.CountSplits | src/app/actions/notification.ts:44-49 | the count over two parts of a table is the sum of the parts' counts |
| NotificationActions.NoFilterCountsMost | src/app/actions/notification.ts:44-49 | counting without a user filter never gives less than counting one user's rows |
| NotificationActions.KindsShareNothing | src/app/actions/notification.ts:44-49 | the two kinds' counts together never exceed the table size |
| NotificationActions.ActivityCountsBounds | src/app/actions/notification.ts:39-53 | the two badges together never exceed the table; a session without a user id counts every user's rows, so it sees at least any single user's counts |
| NotificationActions.ReadOrForeignIgnored | src/app/actions/notification.ts:44-49 | adding a notification that is read, or belongs to another user, leaves the caller's counts unchanged |

## Left out

- The pages, components and forms that call these actions are not part of this model, and neither are `revalidatePath`, `redirect` and `noStore`.
- Calls into services the model cannot see become parameters:
  - the session lookup is the `session` argument;
  - the upload service's delete, plus the follow-up write, is `purgeSucceeded`;
  - the mail transport is `mailSent`;
  - the bcrypt hash is `passwordHash`;
  - `parseInt` of the reward field is `parsedReward`.
- Fetching the tweet behind each feed entry is left out. The entry carries only the tweet id, and a failed fetch has no effect on the rest.
- The clock and the random source are parameters:
  - `now`;
  - the local day's bounds;
  - the Fisher–Yates draws (`picks`);
  - the OTP draw (`seed`).
- Ids the database generates are fresh parameters (`newId`).
- The ordered listing that `orderBy: { createdAt: 'desc' }` returns is the parameter `order`. Its order among posts created at the same instant is not modelled.
- The database schema is not part of this model. Its consequences:
  - deleting a post is modelled as cascading to its submissions;
  - a new user's role is the constant "USER";
  - `maxSubmissions` of a new post is null;
  - a unique constraint on usernames is not modelled. A missing user row is the only write failure `UpdateUsername` has.
- Concurrency is not modelled: each action is taken as isolated from the others. The PENDING checks in the approve and delete paths read outside their transactions, and a race between two such calls is not captured.
- DisputeActions.ResolveDispute: the source makes the credit and the status write as two separate writes outside a transaction. The model makes them one step, so a failure between them is not captured.
- SubmissionActions.ApproveSubmission: the source writes the cleared proof URL after the payout transaction. The model commits the final row at once; a crash between the two writes is not captured.
- Failures of the database itself are not modelled:
  - the catch blocks that turn such errors into a failure result or a thrown error;
  - the cron route's 500 response;
  - `sendOtpAction`'s catch-all.
- A mail failure is modelled in one respect only: the new code stays on record.
- PostActions.DeletePost: the source rethrows its not-found and not-the-author errors as one generic message. The model keeps the two reasons apart.
- Session ids: a session whose user id is absent is modelled as one whose `userId` is the empty string. So `NotificationActions.UserFilter` treats the id "" as `undefined` (no filter). A real user id "" would be a Prisma filter, and the model does not capture that case.
- PostActions.FetchFeedPosts: the defaults `skip = 0` and `take = 6` are left to the caller; the model takes `skip` and `take` as arguments.
- PostActions.FetchFeedPosts: the `author` and `_count` fields included in each row are not modelled, and a negative `skip` or `take` is excluded by `nat`.
- The commented-out `markNotificationsAsReadAction` is not modelled, since it is not code.
- Ledger.Credit, Ledger.PayEach: balances are unbounded integers. The column's 32-bit range and overflow are not modelled.
- SubmissionActions.SubmitProof, SubmissionActions.UpdateSubmissionStatus, PostActions.CreatePublicLynk, PostActions.DeletePost, DisputeActions.ResolveDispute, RegisterActions.RegisterUser: their `ensures` state the new user table through `Credit`/`PayEach` rather than as a change of the credit total. The totals are stated by `Ledger.CreditTotal`, `Ledger.PayEachTotal`, `PostActions.DeletePayout`, `DisputeActions.RulingTotal` and `RegisterActions.RegistrationEffect`.
- Text.Trim: its own contract only bounds the length. What trimming keeps is stated by `Text.TrimSpec`, `Text.TrimmedEnds` and `Text.TrimIdempotent`.
- RegisterActions.LatestToken: when several rows for one address share the latest expiry, the model takes the one inserted last. The database's choice among them is unspecified.
