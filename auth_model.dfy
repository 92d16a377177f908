/**
 * The per-account session record: the row of the `auth` table (`AuthRow`,
 * a value, with the record's transitions as functions) and the entity object
 * the use cases mutate in place (`AuthEntity`).
 */
module AuthModel {
  import opened Common
  import opened Jwt

  /**
   * Session record of one account.  `issuedTm`, `expiredTm` and `jwtId`
   * describe the last issued token; `missmatch` counts failed password checks
   * since the last successful sign-in; `loginAt` and `prevLoginAt` are the two
   * most recent successful sign-ins.
   */
  datatype AuthRow = AuthRow(
    account: string,
    issuedTm: Option<int>,
    expiredTm: Option<int>,
    jwtId: Option<string>,
    missmatch: int,
    loginAt: Option<Timestamp>,
    prevLoginAt: Option<Timestamp>)
  {
    /**
     * A failed password check: the token id is cleared and the counter goes
     * up by one; the issue and expiry times and the login history stay.
     */
    function Missmatched(): (r: AuthRow)
      ensures r.missmatch == missmatch + 1
      ensures r.jwtId == None
      ensures r.account == account
      ensures r.issuedTm == issuedTm && r.expiredTm == expiredTm
      ensures r.loginAt == loginAt && r.prevLoginAt == prevLoginAt
    {
      this.(jwtId := None, missmatch := missmatch + 1)
    }

    /**
     * A successful sign-in at `now` with freshly issued claims: all three token
     * fields come from the claims, the counter is reset, the previous login
     * moves to `prevLoginAt`.  The account is kept, whatever `c.sub` says.
     */
    function Signin(c: Claims, now: Timestamp): (r: AuthRow)
      ensures r.account == account
      ensures r.issuedTm == Some(c.iat) && r.expiredTm == Some(c.exp) && r.jwtId == Some(c.jti)
      ensures r.missmatch == 0
      ensures r.prevLoginAt == loginAt && r.loginAt == Some(now)
    {
      this.(jwtId := Some(c.jti), issuedTm := Some(c.iat), expiredTm := Some(c.exp),
            missmatch := 0, prevLoginAt := loginAt, loginAt := Some(now))
    }

    /** Sign-out clears the three token fields and nothing else. */
    function Signout(): (r: AuthRow)
      ensures r.jwtId == None && r.issuedTm == None && r.expiredTm == None
      ensures r.account == account && r.missmatch == missmatch
      ensures r.loginAt == loginAt && r.prevLoginAt == prevLoginAt
    {
      this.(jwtId := None, issuedTm := None, expiredTm := None)
    }

    /** Timed out when there is no expiry, or `now` (seconds) is strictly past it. */
    predicate IsTimeout(now: int)
    {
      match expiredTm
      case Some(exp) => now > exp
      case None => true
    }
  }

  /** The record created by the first failed attempt of an account without one. */
  function NewMissmatched(account: string): (r: AuthRow)
    ensures r.account == account && r.missmatch == 1
    ensures r.issuedTm == None && r.expiredTm == None && r.jwtId == None
    ensures r.loginAt == None && r.prevLoginAt == None
  {
    AuthRow(account, None, None, None, 1, None, None)
  }

  /** The record created by the first successful sign-in of an account without one. */
  function NewSignin(c: Claims, now: Timestamp): (r: AuthRow)
    ensures r.account == c.sub
    ensures r.issuedTm == Some(c.iat) && r.expiredTm == Some(c.exp) && r.jwtId == Some(c.jti)
    ensures r.missmatch == 0
    ensures r.loginAt == Some(now) && r.prevLoginAt == None
  {
    AuthRow(c.sub, Some(c.iat), Some(c.exp), Some(c.jti), 0, Some(now), None)
  }

  /** Signing out a second time changes nothing. */
  lemma SignoutIdempotent(r: AuthRow)
    ensures r.Signout().Signout() == r.Signout()
  {
  }

  /** A signed-out record is timed out at every instant. */
  lemma SignoutTimesOut(r: AuthRow, now: int)
    ensures r.Signout().IsTimeout(now)
  {
  }

  /**
   * The expiry instant itself is not timed out; one second later is.  With an
   * expiry present, being timed out is exactly being strictly past it.
   */
  lemma TimeoutIsStrict(r: AuthRow, now: int)
    requires r.expiredTm.Some?
    ensures r.IsTimeout(now) <==> now > r.expiredTm.value
    ensures !r.IsTimeout(r.expiredTm.value) && r.IsTimeout(r.expiredTm.value + 1)
  {
  }

  /** After a sign-in, the record times out exactly when the new claims expire. */
  lemma SigninLiveUntilExpiry(r: AuthRow, c: Claims, t: Timestamp, now: int)
    ensures r.Signin(c, t).IsTimeout(now) <==> now > c.exp
    ensures NewSignin(c, t).IsTimeout(now) <==> now > c.exp
  {
  }

  /**
   * A failed attempt keeps the expiry time, so it does not by itself make the
   * record time out: only the token id is withdrawn.
   */
  lemma MissmatchedKeepsExpiry(r: AuthRow, now: int)
    ensures r.Missmatched().IsTimeout(now) == r.IsTimeout(now)
  {
  }

  /**
   * The entity as the use cases hold it: the fetched row, mutated in place by
   * the `&mut` methods, then written back.
   */
  class AuthEntity {
    var account: string
    var issuedTm: Option<int>
    var expiredTm: Option<int>
    var jwtId: Option<string>
    var missmatch: int
    var loginAt: Option<Timestamp>
    var prevLoginAt: Option<Timestamp>

    /** The entity's current field values. */
    function Row(): AuthRow
      reads this
    {
      AuthRow(account, issuedTm, expiredTm, jwtId, missmatch, loginAt, prevLoginAt)
    }

    /** Materialises the entity from a fetched row. */
    constructor FromRow(r: AuthRow)
      ensures Row() == r
    {
      account, issuedTm, expiredTm, jwtId := r.account, r.issuedTm, r.expiredTm, r.jwtId;
      missmatch, loginAt, prevLoginAt := r.missmatch, r.loginAt, r.prevLoginAt;
    }

    method Missmatched()
      modifies this
      ensures Row() == old(Row()).Missmatched()
    {
      jwtId := None;
      missmatch := missmatch + 1;
    }

    method Signin(c: Claims, now: Timestamp)
      modifies this
      ensures Row() == old(Row()).Signin(c, now)
    {
      jwtId := Some(c.jti);
      issuedTm := Some(c.iat);
      expiredTm := Some(c.exp);
      missmatch := 0;
      prevLoginAt := loginAt;
      loginAt := Some(now);
    }

    method Signout()
      modifies this
      ensures Row() == old(Row()).Signout()
    {
      jwtId := None;
      issuedTm := None;
      expiredTm := None;
    }
  }
}
