/** The answer and the effect of each call of the service, in terms of the rows before and after: when
    it succeeds, what it then writes and answers, and which failure it answers otherwise. */
module Outcomes {
  import opened Base
  import opened Domain
  import opened Passwords
  import opened SessionTable
  import opened AuthService
  import opened Users
  import Inter = Interleaving
  import Sig = Signer
  import SR = SessionsRepo

  predicate CanSign(sg: Sig.SignerState) {
    sg.kid in sg.keys && Sig.IsRsaAlg(sg.alg)
  }

  /** The address column: empty text is no address. */
  predicate AddressIs(cfg: Config, text: string, ip: Option<Ip>) {
    if text == "" then ip == None else ip.Some? && ip == cfg.netParseIp(text)
  }

  predicate ValidEmail(cfg: Config, raw: string) {
    Trim(raw) != "" && cfg.validAddress(Trim(raw))
  }

  lemma ParsesValid(cfg: Config, raw: string)
    ensures ParseEmail(cfg.validAddress, raw) == if ValidEmail(cfg, raw) then Ok(Trim(raw)) else Err(InvalidEmail)
  {
    hide Trim;
  }

  // ---------- Register ----------

  /** The id or, up to case, the email is another user's. */
  ghost predicate Taken(cfg: Config, users: seq<User>, id: UserId, email: string) {
    HasId(users, id) || KnownEmail(cfg.fold, users, email)
  }

  lemma InsertableIffFree(cfg: Config, users: seq<User>, u: User)
    ensures Insertable(cfg.fold, users, u) <==> !Taken(cfg, users, u.id, u.email)
  {
  }

  /** What is stored of a registration: the email as trimmed, a hash at the configured cost, or 12,
      that accepts exactly the password, and the flag as asked for. */
  ghost predicate RegistrationOf(cfg: Config, u: User, raw: string, password: string, verifyNow: bool, env: RegisterEnv) {
    && u.id == env.newId && u.email == Trim(raw) && u.emailVerified == verifyNow
    && u.createdAt == u.updatedAt == env.now
    && u.passwordHash.Bcrypt? && u.passwordHash.salt == env.salt
    && u.passwordHash.cost == (if cfg.pwOptions.bcryptCost > 0 then cfg.pwOptions.bcryptCost else 12)
    && forall pw :: CheckPassword(u.passwordHash, pw, cfg.pwOptions).Ok? <==> pw == password
  }

  /** Register succeeds exactly for a valid email and a strong password when nothing fails and neither
      id nor email is taken; it then adds the one user and names it. Otherwise it adds none and answers
      the first thing wrong: email, password clause, hashing, store, taken. */
  lemma RegisterOutcome(cfg: Config, users: seq<User>, raw: string, password: string, verifyNow: bool, env: RegisterEnv)
    ensures var (users', res) := ServeRegister(cfg, users, raw, password, verifyNow, env);
            var good := ValidEmail(cfg, raw) && Strong(cfg.cat, password);
            var taken := Taken(cfg, users, env.newId, Trim(raw));
            && (res.Ok? <==> good && !env.bcryptFails && !env.insertFails && !taken)
            && (res == Err(InvalidEmail) <==> !ValidEmail(cfg, raw))
            && (forall e :: res == Err(WeakPassword(e)) <==>
                  ValidEmail(cfg, raw) && IsVerdict(cfg.cat, DEFAULT_POLICY, password, Some(e)))
            && (res == Err(HashFailed) <==> good && env.bcryptFails)
            && (res == Err(StoreFailed) <==> good && !env.bcryptFails && env.insertFails)
            && (res == Err(EmailAlreadyTaken) <==> good && !env.bcryptFails && !env.insertFails && taken)
            && (res.Err? ==> users' == users)
            && (res.Ok? ==>
                  && res.value == Registered(env.newId, Trim(raw))
                  && |users'| == |users| + 1 && users'[..|users|] == users
                  && RegistrationOf(cfg, users'[|users|], raw, password, verifyNow, env))
  {
    hide Trim, Verdict, IsVerdict, Insertable, Taken, HashPassword, CheckPassword, Strong;
    ParsesValid(cfg, raw);
    DefaultPolicyIsStrong(cfg.cat, password);
    var v := Verdict(cfg.cat, DEFAULT_POLICY, password);
    forall e ensures IsVerdict(cfg.cat, DEFAULT_POLICY, password, Some(e)) <==> v == Some(e) {
      if IsVerdict(cfg.cat, DEFAULT_POLICY, password, Some(e)) {
        VerdictUnique(cfg.cat, DEFAULT_POLICY, password, v, Some(e));
      }
    }
    StrongIsNotBlank(cfg.cat, password);
    HashOutcome(password, cfg.pwOptions, env.salt, env.bcryptFails);
    var hash := HashPassword(password, cfg.pwOptions, env.salt, env.bcryptFails);
    if v.None? && hash.Ok? {
      InsertableIffFree(cfg, users, User(env.newId, Trim(raw), hash.value, verifyNow, env.now, env.now));
      HashIsOfPassword(cfg, password, env);
    }
  }

  lemma StrongIsNotBlank(cat: Classifier, password: string)
    ensures Strong(cat, password) ==> password != ""
  {
  }

  lemma HashIsOfPassword(cfg: Config, password: string, env: RegisterEnv)
    requires HashPassword(password, cfg.pwOptions, env.salt, env.bcryptFails).Ok?
    ensures var hash := HashPassword(password, cfg.pwOptions, env.salt, env.bcryptFails).value;
            forall pw :: CheckPassword(hash, pw, cfg.pwOptions).Ok? <==> pw == password
  {
    var hash := HashPassword(password, cfg.pwOptions, env.salt, env.bcryptFails).value;
    forall pw ensures CheckPassword(hash, pw, cfg.pwOptions).Ok? <==> pw == password {
      HashCheckRoundTrip(password, pw, cfg.pwOptions, cfg.pwOptions, env.salt);
    }
  }

  // ---------- Login ----------

  /** A stored user with this email, up to case, whose hash accepts the password. */
  ghost predicate Matches(cfg: Config, users: seq<User>, raw: string, password: string, u: User) {
    && u in users && cfg.fold(u.email) == cfg.fold(Trim(raw))
    && CheckPassword(u.passwordHash, password, cfg.pwOptions).Ok?
  }

  /** The user that the lookup finds for an email is the stored one, when there is one. */
  lemma LookupFinds(cfg: Config, users: seq<User>, email: string)
    requires UsersInv(cfg.fold, cfg.validAddress, users)
    ensures var res := LookupEmail(cfg.fold, cfg.validAddress, users, email);
            && (res.Ok? <==> KnownEmail(cfg.fold, users, email))
            && (res.Ok? ==> res.value in users && cfg.fold(res.value.email) == cfg.fold(email))
            && (res.Err? ==> res.error == NoRows)
            && forall u :: u in users && cfg.fold(u.email) == cfg.fold(email) ==> res == Ok(u)
  {
    hide ParseEmail, Trim;
    var k := FindEmail(cfg.fold, users, email);
    if k.Some? {
      assert users[k.value].(email := users[k.value].email) == users[k.value];
      assert users[k.value] in users;
    }
  }

  /** Who is authenticated, of all emails and passwords: exactly a stored, verified user under its own
      email, up to case, with a password its hash accepts. An email that no user has and a wrong
      password are answered alike. */
  lemma AuthenticateOutcome(cfg: Config, users: seq<User>, raw: string, password: string, findFails: bool)
    requires UsersInv(cfg.fold, cfg.validAddress, users)
    ensures var res := Authenticate(cfg, users, raw, password, findFails);
            var found := ValidEmail(cfg, raw) && !findFails;
            && (forall u :: res == Ok(u) <==> found && Matches(cfg, users, raw, password, u) && u.emailVerified)
            && (res == Err(EmailNotVerified) <==>
                  found && exists u :: Matches(cfg, users, raw, password, u) && !u.emailVerified)
            && (res == Err(StoreFailed) <==> ValidEmail(cfg, raw) && findFails)
            && (res == Err(InvalidCredentials) <==>
                  !ValidEmail(cfg, raw) || (!findFails && forall u :: !Matches(cfg, users, raw, password, u)))
            && (res.Err? ==> res.error in {EmailNotVerified, StoreFailed, InvalidCredentials})
  {
    hide Trim, LookupEmail, CheckPassword, UsersInv;
    ParsesValid(cfg, raw);
    LookupFinds(cfg, users, Trim(raw));
  }

  /** An unknown email is refused, whatever the password. */
  lemma UnknownEmailIsRefused(cfg: Config, users: seq<User>, raw: string, password: string)
    requires UsersInv(cfg.fold, cfg.validAddress, users) && !KnownEmail(cfg.fold, users, Trim(raw))
    ensures Authenticate(cfg, users, raw, password, false) == Err(InvalidCredentials)
  {
    hide Trim;
    AuthenticateOutcome(cfg, users, raw, password, false);
    forall u ensures !Matches(cfg, users, raw, password, u) {
    }
  }

  ghost predicate KeyFree(t: Table, user: UserId, device: string, jti: string) {
    forall r :: r in t.rows ==> !(r.userId == user && r.deviceId == device && r.jti == jti)
  }

  lemma KeyFreeIffNotTaken(t: Table, r: Row)
    ensures KeyTaken(t.rows, r) <==> !KeyFree(t, r.userId, r.deviceId, r.jti)
  {
  }

  /** The tokens of a grant: the access token signed in this state for these claims from signedAt for
      the access TTL, and the refresh token as minted, ending with its row. */
  ghost predicate GrantIs(cfg: Config, sg: Sig.SignerState, g: Grant, id: UserId, email: Option<string>, signedAt: int,
                          token: string, row: Row)
  {
    && g.access.Jws? && g.access.header == Sig.Kid(sg.kid) && g.access.alg == sg.alg
    && sg.kid in sg.keys && g.access.signedBy == sg.keys[sg.kid]
    && g.access.body == Sig.Jwt(sg.issuer, [sg.audience], signedAt, signedAt, signedAt + cfg.accessTTL,
                                Some(Sig.Text(Uuid(id))), Some(Uuid(id)), email)
    && g.accessExp == signedAt + cfg.accessTTL
    && g.refreshToken == token && row.refreshHash == Sha256Hex(token)
    && g.refreshExp == row.expiresAt == row.createdAt + cfg.refreshTTL
  }

  /** Login succeeds exactly when it authenticates, can sign and mint, is given a device and a valid or
      no address, and the store takes the row. It then adds that one row and answers its tokens;
      otherwise it adds none and answers the first thing wrong. */
  lemma LoginOutcome(cfg: Config, sg: Sig.SignerState, users: seq<User>, t: Table, raw: string, password: string,
                     device: string, ip: string, ua: string, env: LoginEnv)
    requires UsersInv(cfg.fold, cfg.validAddress, users)
    ensures var (t', res) := ServeLogin(cfg, sg, users, t, raw, password, device, ip, ua, env);
            var auth := Authenticate(cfg, users, raw, password, env.findFails);
            var minted := auth.Ok? && CanSign(sg) && env.newToken.Some? && env.newJti.Some?;
            var made := minted && NonEmpty(device) && NonEmpty(env.newJti.value) && ValidIp(cfg.netParseIp, ip);
            && (res.Ok? <==> made && !env.createFails && KeyFree(t, auth.value.id, device, env.newJti.value))
            && (auth.Err? ==> res == Err(auth.error))
            && (auth.Ok? && !CanSign(sg) ==> res == Err(SigningFailed))
            && (auth.Ok? && CanSign(sg) && !minted ==> res == Err(RandomFailed))
            && (minted && !NonEmpty(device) ==> res == Err(InvalidDeviceId))
            && (minted && NonEmpty(device) && !NonEmpty(env.newJti.value) ==> res == Err(InvalidJti))
            && (minted && NonEmpty(device) && NonEmpty(env.newJti.value) && !made ==> res == Err(InvalidIp))
            && (made && env.createFails ==> res == Err(StoreFailed))
            && (made && !env.createFails && res.Err? ==> res == Err(UniqueViolation))
            && (res.Err? ==> t' == t)
            && (res.Ok? ==>
                  && |t'.rows| == |t.rows| + 1 && t'.rows[..|t.rows|] == t.rows && t'.parents == t.parents + [None]
                  && var u, r := auth.value, t'.rows[|t.rows|];
                     && r == Row(u.id, device, env.newJti.value, r.refreshHash, r.ip, ua, env.now, r.expiresAt, None, None)
                     && AddressIs(cfg, ip, r.ip)
                     && GrantIs(cfg, sg, res.value, u.id, if u.email == "" then None else Some(u.email), env.signedAt,
                                env.newToken.value, r))
  {
    hide Authenticate, NonEmpty, Sig.Sign, NewSession, KeyTaken, UsersInv, KeyFree, Sig.IsRsaAlg;
    var auth := Authenticate(cfg, users, raw, password, env.findFails);
    if auth.Ok? {
      AuthenticatedHasId(cfg, users, raw, password, env.findFails);
      Sig.SignOutcome(sg, Sig.Claims(Uuid(auth.value.id), auth.value.email), cfg.accessTTL, env.signedAt);
      if env.newToken.Some? && env.newJti.Some? {
        var hash := Sha256Hex(env.newToken.value);
        NewSessionOutcome(cfg.netParseIp, auth.value.id, device, env.newJti.value, hash, ip, ua, cfg.refreshTTL, env.now);
        var s := NewSession(cfg.netParseIp, auth.value.id, device, env.newJti.value, hash, ip, ua, cfg.refreshTTL, env.now);
        if s.Ok? {
          KeyFreeIffNotTaken(t, s.value);
        }
      }
    }
  }

  lemma AuthenticatedHasId(cfg: Config, users: seq<User>, raw: string, password: string, findFails: bool)
    requires UsersInv(cfg.fold, cfg.validAddress, users)
    requires Authenticate(cfg, users, raw, password, findFails).Ok?
    ensures Authenticate(cfg, users, raw, password, findFails).value.id != 0
  {
    hide Authenticate, Trim, CheckPassword;
    AuthenticateOutcome(cfg, users, raw, password, findFails);
    var u := Authenticate(cfg, users, raw, password, findFails).value;
    assert Matches(cfg, users, raw, password, u);
  }

  // ---------- Refresh ----------

  /** A refresh that finds no row: blank token, store failure, unknown token. */
  lemma RefreshFindsNothing(cfg: Config, sg: Sig.SignerState, t: Table, raw: string, device: string, ip: string,
                            ua: string, env: RefreshEnv)
    ensures var (t', res) := ServeRefresh(cfg, sg, t, raw, device, ip, ua, env);
            var known := exists r :: r in t.rows && r.refreshHash == Sha256Hex(raw);
            && (res == Err(MissingRefresh) <==> !NonEmpty(raw))
            && (NonEmpty(raw) && env.findFails ==> res == Err(StoreFailed))
            && (res == Err(InvalidRefresh) <==> NonEmpty(raw) && !env.findFails && !known)
            && (!NonEmpty(raw) || env.findFails || !known ==> t' == t)
  {
    hide NonEmpty, RevokeDevice, SessionTable.Rotate, KeyTaken;
    var k := FindHash(t.rows, Sha256Hex(raw));
    if k.Some? {
      assert t.rows[k.value] in t.rows;
    }
  }

  /** A used token: exactly the unrevoked rows of its row's user and device become revoked, now; or
      none does, when the store fails. */
  lemma RefreshMeetsReuse(cfg: Config, sg: Sig.SignerState, t: Table, k: nat, raw: string, device: string, ip: string,
                          ua: string, env: RefreshEnv)
    requires Inv(cfg.refreshTTL, t) && k < |t.rows| && t.rows[k].refreshHash == Sha256Hex(raw)
    requires NonEmpty(raw) && !env.findFails
    requires t.rows[k].revokedAt.None? && env.now <= t.rows[k].expiresAt && t.rows[k].replacedBy.Some?
    ensures var (t', res) := ServeRefresh(cfg, sg, t, raw, device, ip, ua, env);
            && res == Err(ReusedRefresh)
            && t'.parents == t.parents && |t'.rows| == |t.rows|
            && forall i :: 0 <= i < |t.rows| ==>
                 var r := t.rows[i];
                 var hit := !env.bulkFails && r.userId == t.rows[k].userId && r.deviceId == t.rows[k].deviceId && r.revokedAt.None?;
                 t'.rows[i] == if hit then r.(revokedAt := Some(env.now)) else r
  {
    assert FindHash(t.rows, Sha256Hex(raw)) == Some(k);
    hide Inv, NonEmpty, FindHash;
  }

  /** A revoked or expired token is refused with its own error, and nothing changes; revocation counts
      first. */
  lemma RefreshMeetsDead(cfg: Config, sg: Sig.SignerState, t: Table, k: nat, raw: string, device: string, ip: string,
                         ua: string, env: RefreshEnv)
    requires Inv(cfg.refreshTTL, t) && k < |t.rows| && t.rows[k].refreshHash == Sha256Hex(raw)
    requires NonEmpty(raw) && !env.findFails
    requires t.rows[k].revokedAt.Some? || env.now > t.rows[k].expiresAt
    ensures ServeRefresh(cfg, sg, t, raw, device, ip, ua, env)
         == (t, Err(if t.rows[k].revokedAt.Some? then RevokedRefresh else ExpiredRefresh))
  {
    assert FindHash(t.rows, Sha256Hex(raw)) == Some(k);
    hide Inv, NonEmpty, FindHash;
  }

  /** The outcome of a refresh of live row k. It succeeds exactly when it can sign and mint, has a valid
      or no address, and the transaction goes through. It then links the row, adds its successor on the
      request's device, and answers the successor's tokens; otherwise it changes nothing and answers the
      first thing wrong. */
  ghost predicate LiveOutcome(cfg: Config, sg: Sig.SignerState, t: Table, k: nat, device: string, ip: string, ua: string,
                              env: RefreshEnv, t': Table, res: Result<Grant, Error>)
    requires k < |t.rows|
  {
    var made := CanSign(sg) && env.newToken.Some? && ValidIp(cfg.netParseIp, ip);
    && (res.Ok? <==> made && env.fault == SR.NoFault)
    && (!CanSign(sg) ==> res == Err(SigningFailed))
    && (CanSign(sg) && env.newToken.None? ==> res == Err(RandomFailed))
    && (CanSign(sg) && env.newToken.Some? && !made ==> res == Err(InvalidIp))
    && (made && env.fault != SR.NoFault ==> res == Err(StoreFailed))
    && (res.Err? ==> t' == t)
    && (res.Ok? ==>
          && |t'.rows| == |t.rows| + 1 && t'.parents == t.parents + [Some(k)]
          && (forall i :: 0 <= i < |t.rows| ==>
                t'.rows[i] == if i == k then t.rows[k].(replacedBy := Some(env.newJti)) else t.rows[i])
          && var r := t'.rows[|t.rows|];
             && r == Row(t.rows[k].userId, device, env.newJti, r.refreshHash, r.ip, ua, env.now, r.expiresAt, None, None)
             && AddressIs(cfg, ip, r.ip)
             && GrantIs(cfg, sg, res.value, t.rows[k].userId, None, env.signedAt, env.newToken.value, r))
  }

  /** A live token: Refresh has that outcome. */
  lemma RefreshMeetsLive(cfg: Config, sg: Sig.SignerState, t: Table, k: nat, raw: string, device: string, ip: string,
                         ua: string, env: RefreshEnv)
    requires Inv(cfg.refreshTTL, t) && k < |t.rows| && t.rows[k].refreshHash == Sha256Hex(raw)
    requires NonEmpty(raw) && !env.findFails
    requires t.rows[k].revokedAt.None? && env.now <= t.rows[k].expiresAt && t.rows[k].replacedBy.None?
    requires forall i :: 0 <= i < |t.rows| ==> t.rows[i].jti != env.newJti
    ensures var (t', res) := ServeRefresh(cfg, sg, t, raw, device, ip, ua, env);
            LiveOutcome(cfg, sg, t, k, device, ip, ua, env, t', res)
  {
    assert FindHash(t.rows, Sha256Hex(raw)) == Some(k);
    RotatesRow(cfg, sg, t, k, raw, device, ip, ua, env);
    hide *;
    LiveRow(cfg, sg, t, k, device, ip, ua, env);
  }

  lemma RotatesRow(cfg: Config, sg: Sig.SignerState, t: Table, k: nat, raw: string, device: string, ip: string,
                   ua: string, env: RefreshEnv)
    requires k < |t.rows| && FindHash(t.rows, Sha256Hex(raw)) == Some(k) && NonEmpty(raw) && !env.findFails
    requires t.rows[k].revokedAt.None? && env.now <= t.rows[k].expiresAt && t.rows[k].replacedBy.None?
    ensures ServeRefresh(cfg, sg, t, raw, device, ip, ua, env) == RotateRow(cfg, sg, t, k, device, ip, ua, env)
  {
    hide FindHash, NonEmpty, RotateRow;
  }

  /** The tail of Refresh has it. */
  lemma LiveRow(cfg: Config, sg: Sig.SignerState, t: Table, k: nat, device: string, ip: string, ua: string, env: RefreshEnv)
    requires Inv(cfg.refreshTTL, t) && k < |t.rows|
    requires forall i :: 0 <= i < |t.rows| ==> t.rows[i].jti != env.newJti
    ensures var (t', res) := RotateRow(cfg, sg, t, k, device, ip, ua, env);
            LiveOutcome(cfg, sg, t, k, device, ip, ua, env, t', res)
  {
    Sig.SignOutcome(sg, Sig.Claims(Uuid(t.rows[k].userId), ""), cfg.accessTTL, env.signedAt);
    FreshKey(t, env.newJti);
    LinksOneRow(t, k, env.newJti);
    assert Distinct(t.rows);
    hide Inv, Sig.Sign, Sig.IsRsaAlg, KeyTaken, FindJti, Linked;
  }

  lemma FreshKey(t: Table, jti: string)
    requires forall i :: 0 <= i < |t.rows| ==> t.rows[i].jti != jti
    ensures forall r: Row :: r.jti == jti ==> !KeyTaken(t.rows, r)
  {
  }

  lemma LinksOneRow(t: Table, k: nat, jti: string)
    requires Distinct(t.rows) && k < |t.rows| && forall i :: 0 <= i < |t.rows| ==> t.rows[i].jti != jti
    ensures FindJti(t.rows, t.rows[k].jti) == Some(k)
    ensures forall r: Row :: r.jti == jti ==>
              Linked(t.rows + [r], t.rows[k].jti, jti) == t.rows[k := t.rows[k].(replacedBy := Some(jti))] + [r]
  {
  }

  // ---------- Logout and Me ----------

  /** Logout revokes, at its own time, exactly the unrevoked row of its token; blank tokens and store
      failures change nothing. */
  lemma LogoutOutcome(t: Table, raw: string, at: int, fails: bool)
    ensures var t' := ServeLogout(t, raw, at, fails);
            && t'.parents == t.parents && |t'.rows| == |t.rows|
            && forall i :: 0 <= i < |t.rows| ==>
                 var r := t.rows[i];
                 var hit := NonEmpty(raw) && !fails && r.refreshHash == Sha256Hex(raw) && r.revokedAt.None?;
                 t'.rows[i] == if hit then r.(revokedAt := Some(at)) else r
  {
    hide NonEmpty;
  }

  /** Me shows exactly the stored user of that id, or says that there is none. */
  lemma MeOutcome(cfg: Config, users: seq<User>, id: UserId, fails: bool)
    requires UsersInv(cfg.fold, cfg.validAddress, users)
    ensures var res := ServeMe(cfg, users, id, fails);
            && (res.Ok? <==> !fails && HasId(users, id))
            && (res == Err(StoreFailed) <==> fails)
            && (res == Err(NoRows) <==> !fails && !HasId(users, id))
            && forall u :: u in users && u.id == id && !fails ==> res == Ok(MeResult(id, u.email, u.emailVerified))
  {
    hide ParseEmail, Trim;
    var k := FindId(users, id);
    if k.Some? {
      assert users[k.value] in users && HasId(users, id);
    }
  }

  // ---------- the bearer ----------

  /** The middleware takes a token to speak for a user exactly when the token is signed with the key
      held for its kid, current, and names that user's id. */
  lemma BearerExactly(w: Sig.Window, sg: Sig.SignerState, tok: Sig.Token, now: int, id: UserId)
    ensures BearerUser(w, sg, tok, now) == Some(id) <==>
              Sig.Authentic(sg, tok) && Sig.Current(w, sg, tok.body, now) && tok.body.sub == Some(Sig.Text(Uuid(id)))
  {
    hide Sig.Verify, Sig.Authentic, Sig.Current;
    Sig.VerifyExactly(w, sg, tok, now);
  }
}
