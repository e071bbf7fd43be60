/**
 * Password reset (auth/password-reset.service.ts): a request by email issues a
 * one-hour token and retires the user's earlier unused ones; redeeming a live,
 * unused token sets the new password and retires the token. The token text comes
 * from a random generator and is a parameter here; the reset e-mail is a call
 * whose only effect in the model is that it may throw.
 */
module PasswordReset {
  import opened Wrappers
  import opened Errors
  import opened Domain

  /** A token lives for one hour, in milliseconds. */
  const TokenLifetime: int := 3600000

  /** The bulk update `{ user, used: false } -> { used: true }`. */
  function RetireUnused(tokens: seq<ResetToken>, u: UserId): (r: seq<ResetToken>)
    ensures |r| == |tokens|
    ensures forall i :: 0 <= i < |r| ==>
      r[i] == (if tokens[i].userId == u then tokens[i].(used := true) else tokens[i])
  {
    if |tokens| == 0 then [] else
      [if tokens[0].userId == u then tokens[0].(used := true) else tokens[0]] + RetireUnused(tokens[1..], u)
  }

  /**
   * `createResetToken`: an unknown email returns quietly with nothing written;
   * otherwise the user's unused tokens are retired, the new token is stored with
   * an expiry one hour from `now`, and the mail is sent. A failing mail call
   * surfaces as an error after the writes.
   */
  ghost function CreateResetToken(db: Db, email: string, token: string, now: Time, mailFails: bool): (out: (Db, Outcome<Error>))
    ensures UserWithEmail(db.users, email).None? ==> out == (db, Pass)
    ensures out.1.Pass? <==> UserWithEmail(db.users, email).None? || !mailFails
    ensures UserWithEmail(db.users, email).Some? ==>
      var u := UserWithEmail(db.users, email).value;
      && out.0 == db.(resetTokens := RetireUnused(db.resetTokens, u) + [ResetToken(token, u, now + TokenLifetime, false)])
  {
    match UserWithEmail(db.users, email)
    case None => (db, Pass)
    case Some(u) =>
      var issued := ResetToken(token, u, now + TokenLifetime, false);
      var db2 := db.(resetTokens := RetireUnused(db.resetTokens, u) + [issued]);
      (db2, if mailFails then Fail(Internal("mail delivery failed")) else Pass)
  }

  /** Every user has at most one unused token. */
  ghost predicate OneLiveTokenPerUser(tokens: seq<ResetToken>) {
    forall i, j :: 0 <= i < j < |tokens| && !tokens[i].used && !tokens[j].used ==> tokens[i].userId != tokens[j].userId
  }

  /** After a request, the new token is the only unused one of its user, and other users' tokens are untouched. */
  lemma CreateLeavesOneLiveToken(db: Db, email: string, token: string, now: Time, mailFails: bool)
    requires OneLiveTokenPerUser(db.resetTokens)
    ensures OneLiveTokenPerUser(CreateResetToken(db, email, token, now, mailFails).0.resetTokens)
    ensures UserWithEmail(db.users, email).Some? ==>
      var ts := CreateResetToken(db, email, token, now, mailFails).0.resetTokens;
      var u := UserWithEmail(db.users, email).value;
      && (forall i :: 0 <= i < |ts| - 1 && ts[i].userId == u ==> ts[i].used)
      && (forall i :: 0 <= i < |ts| - 1 && ts[i].userId != u ==> ts[i] == db.resetTokens[i])
  {
  }

  /** `findOne({ where: { token } })`: the first stored row with this token text. */
  function FindToken(tokens: seq<ResetToken>, token: string): (r: Option<nat>)
    ensures r.Some? ==> r.value < |tokens| && tokens[r.value].token == token
    ensures r.Some? ==> forall k :: 0 <= k < r.value ==> tokens[k].token != token
    ensures r.None? <==> forall k :: 0 <= k < |tokens| ==> tokens[k].token != token
  {
    if |tokens| == 0 then None
    else if tokens[0].token == token then Some(0)
    else match FindToken(tokens[1..], token)
      case None => None
      case Some(i) => Some(i + 1)
  }

  /** A token is redeemable when it exists, is unused and its expiry is not before `now`. */
  predicate Redeemable(tokens: seq<ResetToken>, token: string, now: Time) {
    var i := FindToken(tokens, token);
    i.Some? && !tokens[i.value].used && tokens[i.value].expiresAt >= now
  }

  /**
   * `resetPassword`: a missing, used or expired token is refused with a plain
   * error (so a 500, not a 400); a token whose user row is gone fails with a
   * 500 when the service reads the user's id, before any write; otherwise the
   * token's user gets the hashed new password and the token is marked used.
   */
  function ResetPassword(db: Db, token: string, newPassword: string, now: Time): (r: Result<Db, Error>)
    ensures r.Success? <==> Redeemable(db.resetTokens, token, now)
                            && db.resetTokens[FindToken(db.resetTokens, token).value].userId in db.users
    ensures !Redeemable(db.resetTokens, token, now) ==> r == Failure(Internal("Invalid or expired token"))
    ensures r.Failure? ==> r.error.Internal?
    ensures r.Success? ==>
      var i := FindToken(db.resetTokens, token).value;
      var u := db.resetTokens[i].userId;
      && r.value == db.(users := r.value.users, resetTokens := r.value.resetTokens)
      && r.value.resetTokens == db.resetTokens[i := db.resetTokens[i].(used := true)]
      && r.value.users == db.users[u := db.users[u].(password := Hashed(newPassword))]
  {
    match FindToken(db.resetTokens, token)
    case None => Failure(Internal("Invalid or expired token"))
    case Some(i) =>
      var row := db.resetTokens[i];
      if row.used || row.expiresAt < now then Failure(Internal("Invalid or expired token"))
      else if row.userId !in db.users then Failure(Internal("Cannot read properties of null (reading 'id')"))
      else
        var users := db.users[row.userId := db.users[row.userId].(password := Hashed(newPassword))];
        Success(db.(users := users, resetTokens := db.resetTokens[i := row.(used := true)]))
  }

  /** A token is good for one reset: redeeming it again fails. */
  lemma ResetTwiceFails(db: Db, token: string, p1: string, p2: string, now1: Time, now2: Time)
    requires ResetPassword(db, token, p1, now1).Success?
    ensures ResetPassword(ResetPassword(db, token, p1, now1).value, token, p2, now2).Failure?
  {
    var db2 := ResetPassword(db, token, p1, now1).value;
    var i := FindToken(db.resetTokens, token).value;
    FindTokenAfterUpdate(db.resetTokens, token, i, db.resetTokens[i].(used := true));
  }

  /** Overwriting a row with one of the same token text does not move the first match. */
  lemma {:induction false} FindTokenAfterUpdate(tokens: seq<ResetToken>, token: string, i: nat, row: ResetToken)
    requires i < |tokens| && row.token == tokens[i].token
    ensures FindToken(tokens[i := row], token) == FindToken(tokens, token)
  {
    if |tokens| > 0 && tokens[0].token != token && i > 0 {
      assert tokens[i := row][1..] == tokens[1..][i - 1 := row];
      FindTokenAfterUpdate(tokens[1..], token, i - 1, row);
    }
  }

  /**
   * A freshly issued token (one whose text no stored row has) can be redeemed up
   * to and including the instant one hour later, and not after it.
   */
  lemma IssuedTokenWindow(db: Db, email: string, token: string, now: Time, mailFails: bool, later: Time, newPassword: string)
    requires UserWithEmail(db.users, email).Some?
    requires forall k :: 0 <= k < |db.resetTokens| ==> db.resetTokens[k].token != token
    ensures var db2 := CreateResetToken(db, email, token, now, mailFails).0;
      ResetPassword(db2, token, newPassword, later).Success? <==> later <= now + TokenLifetime
  {
    var db2 := CreateResetToken(db, email, token, now, mailFails).0;
    IssuedTokenIsFound(db, email, token, now, mailFails);
    assert Redeemable(db2.resetTokens, token, later) <==> later <= now + TokenLifetime;
  }

  /** The issued token is the one a lookup by its text finds, and its user exists. */
  lemma IssuedTokenIsFound(db: Db, email: string, token: string, now: Time, mailFails: bool)
    requires UserWithEmail(db.users, email).Some?
    requires forall k :: 0 <= k < |db.resetTokens| ==> db.resetTokens[k].token != token
    ensures var ts := CreateResetToken(db, email, token, now, mailFails).0.resetTokens;
      && |ts| > 0 && FindToken(ts, token) == Some(|ts| - 1)
      && ts[|ts| - 1] == ResetToken(token, UserWithEmail(db.users, email).value, now + TokenLifetime, false)
      && CreateResetToken(db, email, token, now, mailFails).0.users == db.users
      && UserWithEmail(db.users, email).value in db.users
  {
    var u := UserWithEmail(db.users, email).value;
    var ts := RetireUnused(db.resetTokens, u) + [ResetToken(token, u, now + TokenLifetime, false)];
    assert forall k :: 0 <= k < |ts| - 1 ==> ts[k].token == db.resetTokens[k].token;
    assert ts[|ts| - 1].token == token;
    assert FindToken(ts, token) == Some(|ts| - 1);
  }

  /** A successful reset changes only the password of the token's user. */
  lemma ResetChangesOnlyThatPassword(db: Db, token: string, newPassword: string, now: Time, v: UserId)
    requires ResetPassword(db, token, newPassword, now).Success?
    requires v in db.users && v != db.resetTokens[FindToken(db.resetTokens, token).value].userId
    ensures ResetPassword(db, token, newPassword, now).value.users[v] == db.users[v]
  {
  }

  /** A request for an unknown email writes nothing, exactly like a request for a known one that fails before writing would. */
  lemma UnknownEmailIsSilent(db: Db, email: string, token: string, now: Time, mailFails: bool)
    requires forall u :: u in db.users ==> db.users[u].email != email
    ensures CreateResetToken(db, email, token, now, mailFails) == (db, Pass)
  {
  }
}
