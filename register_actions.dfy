/**
 * Registration in two steps: a one-time code is e-mailed for an address that has no account,
 * then an account is created when the code on record for the address matches and has not
 * expired. The verification-token table is a sequence of rows in insertion order.
 */
module RegisterActions {
  import opened Store
  import opened Text
  import opened Ledger

  /** How long a code stays valid: five minutes in milliseconds. */
  const CodeLifetime: int := 5 * 60 * 1000
  /** The balance a new account starts with. */
  const SignupCredits: int := 10
  /** The role a new account gets from the column default. */
  const DefaultRole: string := "USER"

  /** The token rows for `email`, in table order. */
  function TokensFor(ts: seq<VerificationToken>, email: string): (r: seq<VerificationToken>)
    ensures |r| <= |ts|
    ensures forall t :: t in r <==> t in ts && t.identifier == email
  {
    if ts == [] then []
    else
      var rest := TokensFor(ts[1..], email);
      assert forall t :: t in ts <==> t == ts[0] || t in ts[1..];
      if ts[0].identifier == email then [ts[0]] + rest else rest
  }

  /** `deleteMany({ where: { identifier: email } })`: the other rows, in table order. */
  function RemoveTokensFor(ts: seq<VerificationToken>, email: string): (r: seq<VerificationToken>)
    ensures |r| <= |ts|
    ensures forall t :: t in r <==> t in ts && t.identifier != email
  {
    if ts == [] then []
    else
      var rest := RemoveTokensFor(ts[1..], email);
      assert forall t :: t in ts <==> t == ts[0] || t in ts[1..];
      if ts[0].identifier != email then [ts[0]] + rest else rest
  }

  /** Removing the rows of one address leaves the rows of every other address as they were. */
  lemma {:induction false} RemoveKeepsOthers(ts: seq<VerificationToken>, email: string, other: string)
    requires other != email
    ensures TokensFor(RemoveTokensFor(ts, email), other) == TokensFor(ts, other)
  {
    if ts != [] {
      RemoveKeepsOthers(ts[1..], email, other);
      var rest := RemoveTokensFor(ts[1..], email);
      if ts[0].identifier != email {
        assert ([ts[0]] + rest)[1..] == rest;
      }
    }
  }

  /** After the delete no row for the address remains. */
  lemma RemoveDropsAll(ts: seq<VerificationToken>, email: string)
    ensures TokensFor(RemoveTokensFor(ts, email), email) == []
  {
    var left := TokensFor(RemoveTokensFor(ts, email), email);
    assert forall t :: t !in left;
  }

  lemma {:induction false} TokensForAppend(ts: seq<VerificationToken>, t: VerificationToken, email: string)
    ensures TokensFor(ts + [t], email) == TokensFor(ts, email) + (if t.identifier == email then [t] else [])
  {
    if ts != [] {
      assert (ts + [t])[1..] == ts[1..] + [t];
      TokensForAppend(ts[1..], t, email);
    } else {
      assert [t][1..] == [];
    }
  }

  /**
   * `findFirst({ where: { identifier: email }, orderBy: { expires: 'desc' } })`: a row for
   * `email` with the latest expiry. Among rows that expire at the same instant the model
   * takes the one inserted last.
   */
  function LatestToken(ts: seq<VerificationToken>, email: string): (r: Option<VerificationToken>)
    ensures r.None? <==> forall i :: 0 <= i < |ts| ==> ts[i].identifier != email
    ensures r.Some? ==> r.value in ts && r.value.identifier == email
    ensures r.Some? ==> forall i :: 0 <= i < |ts| && ts[i].identifier == email ==> ts[i].expires <= r.value.expires
  {
    if ts == [] then None
    else
      var init := ts[..|ts| - 1];
      var last := ts[|ts| - 1];
      var best := LatestToken(init, email);
      assert forall i :: 0 <= i < |init| ==> ts[i] == init[i];
      if last.identifier != email then best
      else if best.None? || best.value.expires <= last.expires then Some(last)
      else best
  }

  /** A freshly appended row for `email` that outlives every other row for it is the one `findFirst` returns. */
  lemma LatestAfterReplace(ts: seq<VerificationToken>, t: VerificationToken)
    ensures LatestToken(RemoveTokensFor(ts, t.identifier) + [t], t.identifier) == Some(t)
  {
    var rest := RemoveTokensFor(ts, t.identifier);
    assert (rest + [t])[..|rest + [t]| - 1] == rest;
    assert forall i :: 0 <= i < |rest| ==> rest[i] in rest;
  }

  /**
   * `sendOtpAction`. An address that already has an account is refused before anything is
   * written. Otherwise the code `OtpCode(seed)` (`seed` stands for the random draw) replaces
   * every earlier code for the address, and then the mail is sent; when `mailSent` is false
   * the action reports the failure but the new code stays on record.
   */
  method SendOtp(db: Db, email: string, seed: nat, now: int, mailSent: bool) returns (r: Outcome)
    requires seed < 900000
    modifies db
    ensures db.users == old(db.users) && db.posts == old(db.posts) && db.submissions == old(db.submissions)
    ensures db.notifications == old(db.notifications)
    ensures EmailTaken(old(db.users), email) ==> r == Failed(AlreadyRegistered) && db.tokens == old(db.tokens)
    ensures !EmailTaken(old(db.users), email) ==>
            && db.tokens == RemoveTokensFor(old(db.tokens), email) + [VerificationToken(email, OtpCode(seed), now + CodeLifetime)]
            && r == (if mailSent then Ok else Failed(MailFailed))
  {
    if EmailTaken(db.users, email) {
      return Failed(AlreadyRegistered);
    }
    var otp := OtpCode(seed);
    var expires := now + CodeLifetime;
    db.tokens := RemoveTokensFor(db.tokens, email);
    db.tokens := db.tokens + [VerificationToken(email, otp, expires)];
    if !mailSent {
      return Failed(MailFailed);
    }
    r := Ok;
  }

  /**
   * What a send leaves on record for the address: exactly one row, holding a six-digit code
   * that expires five minutes after the send, and it is the row registration will check.
   * The rows of every other address are untouched.
   */
  lemma SentCodeOnRecord(ts: seq<VerificationToken>, email: string, seed: nat, now: int, other: string)
    requires seed < 900000 && other != email
    ensures var after := RemoveTokensFor(ts, email) + [VerificationToken(email, OtpCode(seed), now + CodeLifetime)];
            && TokensFor(after, email) == [VerificationToken(email, OtpCode(seed), now + CodeLifetime)]
            && LatestToken(after, email) == Some(VerificationToken(email, OtpCode(seed), now + CodeLifetime))
            && TokensFor(after, other) == TokensFor(ts, other)
            && 100000 <= DigitsValue(OtpCode(seed)) <= 999999
  {
    var t := VerificationToken(email, OtpCode(seed), now + CodeLifetime);
    RemoveKeepsOthers(ts, email, other);
    RemoveDropsAll(ts, email);
    TokensForAppend(RemoveTokensFor(ts, email), t, email);
    TokensForAppend(RemoveTokensFor(ts, email), t, other);
    LatestAfterReplace(ts, t);
  }

  /** Adding a user under a fresh id and an unused e-mail keeps the invariant. */
  lemma NewUserKeepsStore(users: map<UserId, User>, posts: map<PostId, Post>, subs: map<SubmissionId, Submission>,
                          id: UserId, row: User)
    requires Consistent(users, posts, subs)
    requires id !in users && !EmailTaken(users, row.email)
    ensures Consistent(users[id := row], posts, subs)
  {
    var after := users[id := row];
    assert (set i | i in subs :: subs[i].userId) <= after.Keys;
    assert (set p | p in posts :: posts[p].authorId) <= after.Keys;
    forall a, b | a in after && b in after && after[a].email == after[b].email
      ensures a == b
    {
      if a != id && b != id {
        assert users[a].email == users[b].email;
      }
    }
  }

  /**
   * `registerUser`. The code on record for the address must equal `otp` (else invalid) and
   * must not have expired, where a check at exactly the expiry instant still passes. The
   * insert fails on the unique e-mail column when the address already has an account; on
   * success the account gets 10 credits and an empty name, and every code for the address
   * is deleted. `passwordHash` is the bcrypt hash of the password and `newId` the id the
   * database generates.
   */
  method RegisterUser(db: Db, email: string, passwordHash: string, otp: string, now: int, newId: UserId)
    returns (r: Outcome)
    requires db.Valid()
    requires newId !in db.users
    modifies db
    ensures db.Valid()
    ensures db.posts == old(db.posts) && db.submissions == old(db.submissions)
    ensures db.notifications == old(db.notifications)
    ensures LatestToken(old(db.tokens), email).None? || LatestToken(old(db.tokens), email).value.token != otp
            ==> r == Failed(InvalidCode)
    ensures LatestToken(old(db.tokens), email).Some? && LatestToken(old(db.tokens), email).value.token == otp
            ==> (r == Failed(CodeExpired) <==> now > LatestToken(old(db.tokens), email).value.expires)
    ensures LatestToken(old(db.tokens), email).Some? && LatestToken(old(db.tokens), email).value.token == otp
            && now <= LatestToken(old(db.tokens), email).value.expires
            ==> (r == Failed(EmailInUse) <==> EmailTaken(old(db.users), email))
    ensures r == Ok <==>
            && LatestToken(old(db.tokens), email).Some?
            && LatestToken(old(db.tokens), email).value.token == otp
            && now <= LatestToken(old(db.tokens), email).value.expires
            && !EmailTaken(old(db.users), email)
    ensures r == Ok ==>
            && db.users == old(db.users)[newId := User(email, "", DefaultRole, passwordHash, SignupCredits)]
            && db.tokens == RemoveTokensFor(old(db.tokens), email)
    ensures r != Ok ==> db.users == old(db.users) && db.tokens == old(db.tokens)
  {
    var verification := LatestToken(db.tokens, email);
    if verification.None? || verification.value.token != otp {
      return Failed(InvalidCode);
    }
    if now > verification.value.expires {
      return Failed(CodeExpired);
    }
    if EmailTaken(db.users, email) {
      return Failed(EmailInUse);
    }
    var row := User(email, "", DefaultRole, passwordHash, SignupCredits);
    NewUserKeepsStore(db.users, db.posts, db.submissions, newId, row);
    db.users := db.users[newId := row];
    db.tokens := RemoveTokensFor(db.tokens, email);
    r := Ok;
  }

  /** A registration adds the sign-up credits to the total and leaves no code for the address. */
  lemma RegistrationEffect(users: map<UserId, User>, ts: seq<VerificationToken>, newId: UserId, email: string, passwordHash: string)
    requires newId !in users
    ensures TotalCredits(users[newId := User(email, "", DefaultRole, passwordHash, SignupCredits)]) == TotalCredits(users) + SignupCredits
    ensures TokensFor(RemoveTokensFor(ts, email), email) == []
  {
    AddUser(users, newId, User(email, "", DefaultRole, passwordHash, SignupCredits));
    RemoveDropsAll(ts, email);
  }

  /**
   * Sending a code and then registering with it before it expires succeeds: the code the
   * send writes is the one the registration finds.
   */
  lemma SendThenRegister(ts: seq<VerificationToken>, email: string, seed: nat, sentAt: int, checkedAt: int)
    requires seed < 900000
    requires checkedAt <= sentAt + CodeLifetime
    ensures var t := LatestToken(RemoveTokensFor(ts, email) + [VerificationToken(email, OtpCode(seed), sentAt + CodeLifetime)], email);
            t.Some? && t.value.token == OtpCode(seed) && !(checkedAt > t.value.expires)
  {
    LatestAfterReplace(ts, VerificationToken(email, OtpCode(seed), sentAt + CodeLifetime));
  }
}
