/**
 * Authentication use cases: sign-up, sign-in with lockout, token
 * authentication and sign-out, over the member and auth tables.
 */
module AuthService {
  import opened Common
  import opened Jwt
  import opened AuthModel
  import opened AuthDtos
  import opened MemberDtos
  import opened AuthStore
  import opened MemberStore

  /** The exact match `authenticate` demands between a session record and a token's claims. */
  predicate TokenMatches(auth: AuthRow, c: Claims)
  {
    auth.jwtId == Some(c.jti) && auth.issuedTm == Some(c.iat) && auth.expiredTm == Some(c.exp)
  }

  /** Sign-in refuses an account whose record has reached the mismatch threshold. */
  predicate IsLocked(auths: map<string, AuthRow>, account: string, maxMissmatch: int)
  {
    account in auths && auths[account].missmatch >= maxMissmatch
  }

  /**
   * The record a wrong password leaves behind: the existing record after a
   * failed attempt, or a fresh one.  Its counter is the previous count plus
   * one (zero for an account without a record), and no token is valid in it.
   */
  function MissRecord(auths: map<string, AuthRow>, account: string): (r: AuthRow)
    ensures r.missmatch == (if account in auths then auths[account].missmatch else 0) + 1
    ensures forall c :: !TokenMatches(r, c)
  {
    if account in auths then auths[account].Missmatched() else NewMissmatched(account)
  }

  /**
   * The record a correct password leaves behind: the claims' token is the one
   * it accepts, the counter is zero, the login history moves on by one.
   */
  function SigninRecord(auths: map<string, AuthRow>, account: string, c: Claims, now: Timestamp): (r: AuthRow)
    requires c.sub == account
    ensures TokenMatches(r, c)
    ensures forall c' :: TokenMatches(r, c') ==> c'.jti == c.jti && c'.iat == c.iat && c'.exp == c.exp
    ensures r.missmatch == 0
    ensures r.loginAt == Some(now)
    ensures r.prevLoginAt == if account in auths then auths[account].loginAt else None
  {
    if account in auths then auths[account].Signin(c, now) else NewSignin(c, now)
  }

  /** After a sign-out the record accepts no token at all. */
  lemma SignoutRejectsEveryToken(r: AuthRow, c: Claims)
    ensures !TokenMatches(r.Signout(), c)
  {
  }

  /**
   * A later successful sign-in supersedes the earlier token: it is rejected
   * as soon as the new claims differ from it in id, issue or expiry time.
   */
  lemma SigninSupersedesToken(auths: map<string, AuthRow>, account: string, earlier: Claims, c: Claims, now: Timestamp)
    requires c.sub == account
    requires earlier.jti != c.jti || earlier.iat != c.iat || earlier.exp != c.exp
    ensures !TokenMatches(SigninRecord(auths, account, c, now), earlier)
  {
  }

  /**
   * A locked account stays locked under everything sign-in and sign-out can
   * do to it without a successful sign-in: a failed attempt or a sign-out.
   */
  lemma LockIsSticky(auths: map<string, AuthRow>, account: string, maxMissmatch: int)
    requires IsLocked(auths, account, maxMissmatch)
    ensures IsLocked(auths[account := MissRecord(auths, account)], account, maxMissmatch)
    ensures IsLocked(auths[account := auths[account].Signout()], account, maxMissmatch)
  {
  }

  /**
   * The auth table after `k` failed-attempt writes for `account`: the
   * wrong-password branch of sign-in, which it takes only while the account
   * is not locked (a wrong password on a locked account writes nothing).
   */
  function AfterMisses(auths: map<string, AuthRow>, account: string, k: nat): map<string, AuthRow>
  {
    if k == 0 then auths
    else
      var before := AfterMisses(auths, account, k - 1);
      before[account := MissRecord(before, account)]
  }

  /**
   * `k` failed-attempt writes raise the counter by exactly `k`, starting
   * from zero for an account without a record.  `ThresholdMissesLock` shows
   * that the first `m` wrong passwords from an unlocked start all take that
   * branch.
   */
  lemma {:induction false} MissesCount(auths: map<string, AuthRow>, account: string, k: nat)
    requires k >= 1
    ensures account in AfterMisses(auths, account, k)
    ensures AfterMisses(auths, account, k)[account].missmatch ==
      (if account in auths then auths[account].missmatch else 0) + k
  {
    if k > 1 {
      MissesCount(auths, account, k - 1);
    }
  }

  /**
   * For a positive threshold `m`, an account without a record, or whose
   * counter is zero (as after any successful sign-in), is not locked before
   * its `m`-th consecutive wrong password and is locked after it.
   */
  lemma ThresholdMissesLock(auths: map<string, AuthRow>, account: string, m: int)
    requires m >= 1
    requires account !in auths || auths[account].missmatch == 0
    ensures forall k: nat :: 1 <= k < m ==> !IsLocked(AfterMisses(auths, account, k), account, m)
    ensures IsLocked(AfterMisses(auths, account, m), account, m)
  {
    forall k: nat | 1 <= k < m
      ensures !IsLocked(AfterMisses(auths, account, k), account, m)
    {
      MissesCount(auths, account, k);
    }
    MissesCount(auths, account, m);
  }

  class AuthUseCases {
    const members: MemberRepository
    const auths: AuthRepository
    /** The lockout threshold (3 unless configured otherwise). */
    const maxMissmatch: int
    /** Token lifetime in seconds (3600 unless configured otherwise). */
    const jwtTtl: int

    ghost predicate Valid()
      reads this, members, auths
    {
      members.Valid() && auths.Valid()
    }

    constructor (members: MemberRepository, auths: AuthRepository, maxMissmatch: int, jwtTtl: int)
      requires members.Valid() && auths.Valid()
      ensures Valid()
      ensures this.members == members && this.auths == auths
      ensures this.maxMissmatch == maxMissmatch && this.jwtTtl == jwtTtl
    {
      this.members, this.auths := members, auths;
      this.maxMissmatch, this.jwtTtl := maxMissmatch, jwtTtl;
    }

    /**
     * Registers the account with the hash of its password.  A confirmation
     * that differs from the password, or an account that already exists, is
     * an error and nothing is written.  The auth table is never touched.
     */
    method Signup(dto: SignupDto, hash: string -> string, now: Timestamp) returns (r: Result<()>)
      requires Valid()
      modifies members
      ensures Valid()
      ensures dto.password != dto.confirmPassword ==>
        r == Err(PasswordMismatch) && members.rows == old(members.rows)
      ensures dto.password == dto.confirmPassword && dto.account in old(members.rows) ==>
        r == Err(UniqueViolation) && members.rows == old(members.rows)
      ensures dto.password == dto.confirmPassword && dto.account !in old(members.rows) ==>
        && r == Ok(())
        && dto.account in members.rows
        && members.rows == old(members.rows)[dto.account := members.rows[dto.account]]
      ensures r.Ok? ==> dto.account in members.rows
      ensures r.Ok? ==>
        var m := members.rows[dto.account];
        && m.password == hash(dto.password)
        && m.name == dto.name && m.email == dto.email
        && m.createdAt == Some(now) && m.updatedAt == Some(now)
    {
      if dto.password != dto.confirmPassword {
        return Err(PasswordMismatch);
      }
      var password := hash(dto.password);
      var entity := dto.ToEntity();
      entity := entity.(password := password);
      var created := members.Create(entity, now);
      if created.Err? {
        return Err(created.error);
      }
      r := Ok(());
    }

    /**
     * Signs `dto.account` in.  In order: an unknown account is an error; a
     * locked account is an error before the password is looked at; a wrong
     * password records a failed attempt and is an error; a correct password
     * records the new session and returns its token.  The member table never
     * changes and no other account's record changes.
     */
    method Signin(dto: SigninDto, verify: (string, string) -> bool, now: Timestamp, jti: string)
      returns (r: Result<Token>)
      requires Valid()
      modifies auths
      ensures Valid()
      ensures forall a :: a != dto.account ==> auths.Find(a) == old(auths.Find(a))
      ensures dto.account !in members.rows ==>
        r == Err(RowNotFound) && auths.rows == old(auths.rows)
      ensures dto.account in members.rows && IsLocked(old(auths.rows), dto.account, maxMissmatch) ==>
        r == Err(AccountLocked) && auths.rows == old(auths.rows)
      ensures dto.account in members.rows && !IsLocked(old(auths.rows), dto.account, maxMissmatch)
              && !verify(dto.password, members.rows[dto.account].password) ==>
        && r == Err(PasswordMismatch)
        && auths.rows == old(auths.rows)[dto.account := MissRecord(old(auths.rows), dto.account)]
      ensures dto.account in members.rows && !IsLocked(old(auths.rows), dto.account, maxMissmatch)
              && verify(dto.password, members.rows[dto.account].password) ==>
        var c := NewClaims(dto.account, now, jwtTtl, jti);
        && r == Ok(Encode(c))
        && auths.rows == old(auths.rows)[dto.account := SigninRecord(old(auths.rows), dto.account, c, now)]
    {
      var member := members.Find(dto.account);
      if member.None? {
        return Err(RowNotFound);
      }
      var auth := auths.Find(dto.account);
      if auth.Some? && auth.value.missmatch >= maxMissmatch {
        return Err(AccountLocked);
      }
      if !verify(dto.password, member.value.password) {
        if auth.Some? {
          var entity := new AuthEntity.FromRow(auth.value);
          entity.Missmatched();
          var _ := auths.Update(entity.Row());
        } else {
          var _ := auths.Create(NewMissmatched(dto.account));
        }
        return Err(PasswordMismatch);
      }
      var claims := NewClaims(dto.account, now, jwtTtl, jti);
      var token := Encode(claims);
      if auth.Some? {
        var entity := new AuthEntity.FromRow(auth.value);
        entity.Signin(claims, now);
        var _ := auths.Update(entity.Row());
      } else {
        var _ := auths.Create(NewSignin(claims, now));
      }
      r := Ok(token);
    }

    /**
     * Accepts a token only when its subject has a session record whose token
     * id, issue and expiry times all equal the token's, and a member record;
     * the result is that member's identity view.  The expiry is not compared
     * with the clock.
     */
    method Authenticate(token: Token) returns (r: Result<AuthMemberDto>)
      requires Valid()
      ensures Decode(token).Err? ==> r == Err(MalformedToken)
      ensures Decode(token).Ok? ==>
        var c := Decode(token).value;
        && (c.sub !in auths.rows ==> r == Err(RowNotFound))
        && (c.sub in auths.rows && !TokenMatches(auths.rows[c.sub], c) ==> r == Err(InvalidToken))
        && (c.sub in auths.rows && TokenMatches(auths.rows[c.sub], c) && c.sub !in members.rows ==>
              r == Err(RowNotFound))
      ensures r.Ok? <==>
        && Decode(token).Ok?
        && var c := Decode(token).value;
        && c.sub in auths.rows && TokenMatches(auths.rows[c.sub], c) && c.sub in members.rows
      ensures r.Ok? ==>
        var account := Decode(token).value.sub;
        && r.value.account == account
        && r.value == AuthMemberDto.FromEntity(members.rows[account], auths.rows[account])
    {
      var decoded := Decode(token);
      if decoded.Err? {
        return Err(decoded.error);
      }
      var claims := decoded.value;
      var auth := auths.Find(claims.sub);
      if auth.None? {
        return Err(RowNotFound);
      }
      if auth.value.jwtId != Some(claims.jti)
         || auth.value.issuedTm != Some(claims.iat)
         || auth.value.expiredTm != Some(claims.exp)
      {
        return Err(InvalidToken);
      }
      var member := members.Find(claims.sub);
      if member.None? {
        return Err(RowNotFound);
      }
      r := Ok(AuthMemberDto.FromEntity(member.value, auth.value));
    }

    /**
     * Ends the account's session: always succeeds; without a record nothing
     * changes, otherwise the three token fields are cleared and every token
     * of the account is rejected from then on.
     */
    method Signout(account: string) returns (r: Result<()>)
      requires Valid()
      modifies auths
      ensures Valid()
      ensures r == Ok(())
      ensures account !in old(auths.rows) ==> auths.rows == old(auths.rows)
      ensures account in old(auths.rows) ==>
        auths.rows == old(auths.rows)[account := old(auths.rows)[account].Signout()]
      ensures account in auths.rows ==> forall c :: !TokenMatches(auths.rows[account], c)
    {
      var found := auths.Find(account);
      if found.None? {
        return Ok(());
      }
      var entity := new AuthEntity.FromRow(found.value);
      entity.Signout();
      var _ := auths.Update(entity.Row());
      r := Ok(());
    }
  }

  /**
   * Sign up and sign in with the right password: the token authenticates as
   * the account.  A second sign-in with a fresh token id makes the first token
   * fail, and signing out makes the second fail too.
   */
  method SessionScenario(hash: string -> string, verify: (string, string) -> bool, now: Timestamp)
    returns (first: Result<AuthMemberDto>, stale: Result<AuthMemberDto>, afterSignout: Result<AuthMemberDto>)
    requires forall p :: verify(p, hash(p))
    ensures first.Ok? && first.value.account == "account"
    ensures stale == Err(InvalidToken)
    ensures afterSignout == Err(InvalidToken)
  {
    var members := new MemberRepository();
    var auths := new AuthRepository();
    var useCases := new AuthUseCases(members, auths, 3, 3600);
    var _ := useCases.Signup(SignupDto("account", "password", "password", None, None), hash, now);
    var token := useCases.Signin(SigninDto("account", "password"), verify, now, "jti-1");
    first := useCases.Authenticate(token.value);
    var newer := useCases.Signin(SigninDto("account", "password"), verify, now + 1, "jti-2");
    stale := useCases.Authenticate(token.value);
    var _ := useCases.Signout("account");
    afterSignout := useCases.Authenticate(newer.value);
  }

  /**
   * Sign up, then three wrong passwords with the default threshold of 3: each
   * is refused as a mismatch, and afterwards even the right password is
   * refused because the account is locked.
   */
  method LockoutScenario(hash: string -> string, verify: (string, string) -> bool, now: Timestamp)
    returns (misses: seq<Result<Token>>, last: Result<Token>)
    requires forall p :: verify(p, hash(p))
    requires !verify("missmatch", hash("password"))
    ensures misses == [Err(PasswordMismatch), Err(PasswordMismatch), Err(PasswordMismatch)]
    ensures last == Err(AccountLocked)
  {
    var members := new MemberRepository();
    var auths := new AuthRepository();
    var useCases := new AuthUseCases(members, auths, 3, 3600);
    var _ := useCases.Signup(SignupDto("account", "password", "password", None, None), hash, now);
    var wrong := SigninDto("account", "missmatch");
    var r1 := useCases.Signin(wrong, verify, now, "jti-1");
    var r2 := useCases.Signin(wrong, verify, now, "jti-2");
    var r3 := useCases.Signin(wrong, verify, now, "jti-3");
    misses := [r1, r2, r3];
    last := useCases.Signin(SigninDto("account", "password"), verify, now, "jti-4");
  }
}
