/** AuthService (internal/service): Register, Login, Refresh, Logout and Me over the two
    repositories and the signer. Each method is proved against a function of the state; clocks,
    random values and outside failures are parameters of a call. */
module AuthService {
  import opened Base
  import opened Domain
  import opened Passwords
  import opened SessionTable
  import opened Interleaving
  import Sig = Signer
  import Users
  import SR = SessionsRepo

  datatype Config = Config(
    accessTTL: int,
    refreshTTL: int,
    netParseIp: string -> Option<Ip>,
    validAddress: string -> bool,
    fold: Users.Folding,
    cat: Classifier,
    pwOptions: Options)

  /** What Login and Refresh hand out. */
  datatype Grant = Grant(access: Sig.Token, accessExp: int, refreshToken: string, refreshExp: int)

  datatype RegisterEnv = RegisterEnv(salt: nat, bcryptFails: bool, now: int, newId: UserId, insertFails: bool)

  datatype LoginEnv = LoginEnv(
    findFails: bool, signedAt: int, newToken: Option<string>, newJti: Option<string>, now: int, createFails: bool)

  datatype RefreshEnv = RefreshEnv(
    findFails: bool, now: int, bulkFails: bool, signedAt: int, newToken: Option<string>, newJti: string, fault: SR.TxFault)

  datatype Registered = Registered(id: UserId, email: string)

  datatype MeResult = MeResult(id: UserId, email: string, emailVerified: bool)

  // ---------- the specification functions ----------

  function ServeRegister(cfg: Config, users: seq<Users.User>, emailRaw: string, password: string, verifyNow: bool,
                         env: RegisterEnv): (seq<Users.User>, Result<Registered, Error>)
  {
    match ParseEmail(cfg.validAddress, emailRaw)
    case Err(_) => (users, Err(InvalidEmail))
    case Ok(email) =>
      match Verdict(cfg.cat, DEFAULT_POLICY, password)
      case Some(e) => (users, Err(WeakPassword(e)))
      case None =>
        match HashPassword(password, cfg.pwOptions, env.salt, env.bcryptFails)
        case Err(e) => (users, Err(e))
        case Ok(hash) =>
          match Users.NewUser(email, hash, env.now)
          case Err(e) => (users, Err(e))
          case Ok(u) =>
            var stored := u.(emailVerified := verifyNow, id := env.newId);
            if env.insertFails then (users, Err(StoreFailed))
            else if !Users.Insertable(cfg.fold, users, stored) then (users, Err(EmailAlreadyTaken))
            else (users + [stored], Ok(Registered(env.newId, email)))
  }

  /** The checks of Login before anything is issued. */
  function Authenticate(cfg: Config, users: seq<Users.User>, emailRaw: string, password: string, findFails: bool)
    : Result<Users.User, Error>
  {
    match ParseEmail(cfg.validAddress, emailRaw)
    case Err(_) => Err(InvalidCredentials)
    case Ok(email) =>
      if findFails then Err(StoreFailed)
      else match Users.LookupEmail(cfg.fold, cfg.validAddress, users, email)
        case Err(e) => Err(if e == NoRows then InvalidCredentials else e)
        case Ok(u) =>
          if CheckPassword(u.passwordHash, password, cfg.pwOptions).Err? then Err(InvalidCredentials)
          else if !u.emailVerified then Err(EmailNotVerified)
          else Ok(u)
  }

  function ServeLogin(cfg: Config, sg: Sig.SignerState, users: seq<Users.User>, t: Table, emailRaw: string,
                      password: string, deviceId: string, ip: string, userAgent: string, env: LoginEnv)
    : (Table, Result<Grant, Error>)
  {
    match Authenticate(cfg, users, emailRaw, password, env.findFails)
    case Err(e) => (t, Err(e))
    case Ok(u) =>
      match Sig.Sign(sg, Sig.Claims(Uuid(u.id), u.email), cfg.accessTTL, env.signedAt)
      case Err(e) => (t, Err(e))
      case Ok((access, exp)) =>
        if env.newToken.None? || env.newJti.None? then (t, Err(RandomFailed))
        else match NewSession(cfg.netParseIp, u.id, deviceId, env.newJti.value, Sha256Hex(env.newToken.value), ip,
                              userAgent, cfg.refreshTTL, env.now)
          case Err(e) => (t, Err(e))
          case Ok(s) =>
            if env.createFails then (t, Err(StoreFailed))
            else if KeyTaken(t.rows, s) then (t, Err(UniqueViolation))
            else (Create(t, s), Ok(Grant(access, exp, env.newToken.value, s.expiresAt)))
  }

  /** The row a successful refresh of sess inserts. */
  function NewRow(cfg: Config, sess: Row, token: string, jti: string, deviceId: string, ip: Option<Ip>,
                  userAgent: string, now: int): Row
  {
    Row(sess.userId, deviceId, jti, Sha256Hex(token), ip, userAgent, now, now + cfg.refreshTTL, None, None)
  }

  function ServeRefresh(cfg: Config, sg: Sig.SignerState, t: Table, raw: string, deviceId: string, ip: string,
                        userAgent: string, env: RefreshEnv): (Table, Result<Grant, Error>)
  {
    if !NonEmpty(raw) then (t, Err(MissingRefresh))
    else if env.findFails then (t, Err(StoreFailed))
    else match FindHash(t.rows, Sha256Hex(raw))
      case None => (t, Err(InvalidRefresh))
      case Some(k) =>
        match Decide(t.rows[k], env.now)
        case Revoked => (t, Err(RevokedRefresh))
        case Expired => (t, Err(ExpiredRefresh))
        case Reused =>
          (if env.bulkFails then t else RevokeDevice(t, t.rows[k].userId, t.rows[k].deviceId, env.now), Err(ReusedRefresh))
        case Proceed => RotateRow(cfg, sg, t, k, deviceId, ip, userAgent, env)
  }

  /** The tail of Refresh, once row k has passed every check. */
  function RotateRow(cfg: Config, sg: Sig.SignerState, t: Table, k: nat, deviceId: string, ip: string,
                     userAgent: string, env: RefreshEnv): (Table, Result<Grant, Error>)
    requires k < |t.rows|
  {
    match Sig.Sign(sg, Sig.Claims(Uuid(t.rows[k].userId), ""), cfg.accessTTL, env.signedAt)
    case Err(e) => (t, Err(e))
    case Ok((access, exp)) =>
      if env.newToken.None? then (t, Err(RandomFailed))
      else match ParseIp(cfg.netParseIp, ip)
        case Err(e) => (t, Err(e))
        case Ok(addr) =>
          var r := NewRow(cfg, t.rows[k], env.newToken.value, env.newJti, deviceId, addr, userAgent, env.now);
          if env.fault in {SR.AtBegin, SR.AtInsert} then (t, Err(StoreFailed))
          else if KeyTaken(t.rows, r) then (t, Err(UniqueViolation))
          else if env.fault != SR.NoFault then (t, Err(StoreFailed))
          else (SessionTable.Rotate(t, t.rows[k].jti, r), Ok(Grant(access, exp, env.newToken.value, r.expiresAt)))
  }

  function ServeLogout(t: Table, raw: string, at: int, fails: bool): Table {
    if !NonEmpty(raw) || fails then t else RevokeHash(t, Sha256Hex(raw), at)
  }

  function ServeMe(cfg: Config, users: seq<Users.User>, id: UserId, fails: bool): Result<MeResult, Error> {
    if fails then Err(StoreFailed)
    else match Users.LookupId(cfg.validAddress, users, id)
      case Err(e) => Err(e)
      case Ok(u) => Ok(MeResult(u.id, u.email, u.emailVerified))
  }

  /** AuthMiddleware: the user a bearer token speaks for. */
  function BearerUser(w: Sig.Window, sg: Sig.SignerState, tok: Sig.Token, now: int): Option<UserId> {
    match Sig.Verify(w, sg, tok, now)
    case Err(_) => None
    case Ok(claims) => ParseId(claims.userId)
  }

  // ---------- the service ----------

  class AuthService {
    const cfg: Config
    const users: Users.UsersRepo
    const sessions: SR.SessionsRepo
    const signer: Sig.Signer

    ghost predicate Valid() {
      users.fold == cfg.fold && users.validAddress == cfg.validAddress
    }

    constructor (cfg: Config, users: Users.UsersRepo, sessions: SR.SessionsRepo, signer: Sig.Signer)
      requires users.fold == cfg.fold && users.validAddress == cfg.validAddress
      ensures Valid()
      ensures this.cfg == cfg && this.users == users && this.sessions == sessions && this.signer == signer
    {
      this.cfg, this.users, this.sessions, this.signer := cfg, users, sessions, signer;
    }

    method Register(emailRaw: string, password: string, verifyNow: bool, env: RegisterEnv)
      returns (res: Result<Registered, Error>)
      requires Valid()
      modifies users
      ensures (users.users, res) == ServeRegister(cfg, old(users.users), emailRaw, password, verifyNow, env)
    {
      var email := ParseEmail(cfg.validAddress, emailRaw);
      if email.Err? {
        return Err(InvalidEmail);
      }
      var weak := ValidatePassword(cfg.cat, DEFAULT_POLICY, password);
      VerdictUnique(cfg.cat, DEFAULT_POLICY, password, weak, Verdict(cfg.cat, DEFAULT_POLICY, password));
      if weak.Some? {
        return Err(WeakPassword(weak.value));
      }
      var hash := HashPassword(password, cfg.pwOptions, env.salt, env.bcryptFails);
      if hash.Err? {
        return Err(hash.error);
      }
      var u := Users.NewUser(email.value, hash.value, env.now);
      if u.Err? {
        return Err(u.error);
      }
      var verified := u.value.(emailVerified := verifyNow);
      var id := users.Insert(verified, env.newId, env.insertFails);
      if id.Err? {
        return Err(id.error);
      }
      return Ok(Registered(id.value, verified.email));
    }

    method Login(emailRaw: string, password: string, deviceId: string, ip: string, userAgent: string, env: LoginEnv)
      returns (res: Result<Grant, Error>)
      requires Valid()
      modifies sessions
      ensures (sessions.T(), res) == ServeLogin(cfg, signer.State(), users.users, old(sessions.T()), emailRaw, password,
                                                deviceId, ip, userAgent, env)
    {
      hide NonEmpty, KeyTaken, Sig.Sign, NewSession, ParseEmail, CheckPassword, Users.LookupEmail, Users.KnownEmail, Trim;
      var email := ParseEmail(cfg.validAddress, emailRaw);
      if email.Err? {
        return Err(InvalidCredentials);
      }
      var u := users.FindByEmail(email.value, env.findFails);
      if u.Err? {
        return Err(if u.error == NoRows then InvalidCredentials else u.error);
      }
      var checked := CheckPassword(u.value.passwordHash, password, cfg.pwOptions);
      if checked.Err? {
        return Err(InvalidCredentials);
      }
      if !u.value.emailVerified {
        return Err(EmailNotVerified);
      }
      var signed := signer.SignAccess(Sig.Claims(Uuid(u.value.id), u.value.email), cfg.accessTTL, env.signedAt);
      if signed.Err? {
        return Err(signed.error);
      }
      if env.newToken.None? {
        return Err(RandomFailed);
      }
      var refreshHash := Sha256Hex(env.newToken.value);
      if env.newJti.None? {
        return Err(RandomFailed);
      }
      var sess := NewSession(cfg.netParseIp, u.value.id, deviceId, env.newJti.value, refreshHash, ip, userAgent,
                             cfg.refreshTTL, env.now);
      if sess.Err? {
        return Err(sess.error);
      }
      NewSessionOutcome(cfg.netParseIp, u.value.id, deviceId, env.newJti.value, refreshHash, ip, userAgent,
                        cfg.refreshTTL, env.now);
      var created := sessions.Create(sess.value, env.createFails);
      if created.Err? {
        return Err(created.error);
      }
      return Ok(Grant(signed.value.0, signed.value.1, env.newToken.value, sess.value.expiresAt));
    }

    method Refresh(raw: string, deviceId: string, ip: string, userAgent: string, env: RefreshEnv)
      returns (res: Result<Grant, Error>)
      requires Valid()
      modifies sessions
      ensures (sessions.T(), res) == ServeRefresh(cfg, signer.State(), old(sessions.T()), raw, deviceId, ip, userAgent, env)
      ensures res.Err? && res.error != ReusedRefresh ==> sessions.T() == old(sessions.T())
    {
      hide NonEmpty, KeyTaken, Linked, DeviceRevoked, FindJti, Sig.Sign;
      if !NonEmpty(raw) {
        return Err(MissingRefresh);
      }
      var hash := Sha256Hex(raw);
      var found := sessions.FindByHash(hash, env.findFails);
      if found.Err? {
        return Err(if found.error == NotFound then InvalidRefresh else found.error);
      }
      var sess := found.value;
      if sess.revokedAt.Some? {
        return Err(RevokedRefresh);
      }
      if env.now > sess.expiresAt {
        return Err(ExpiredRefresh);
      }
      if sess.replacedBy.Some? {
        var _ := sessions.RevokeAllByUserAndDevice(sess.userId, sess.deviceId, env.now, env.bulkFails);
        return Err(ReusedRefresh);
      }
      var signed := signer.SignAccess(Sig.Claims(Uuid(sess.userId), ""), cfg.accessTTL, env.signedAt);
      if signed.Err? {
        return Err(signed.error);
      }
      if env.newToken.None? {
        return Err(RandomFailed);
      }
      var newHash := Sha256Hex(env.newToken.value);
      var parsedIp := ParseIp(cfg.netParseIp, ip);
      if parsedIp.Err? {
        return Err(parsedIp.error);
      }
      var newSess := Row(sess.userId, deviceId, env.newJti, newHash, parsedIp.value, userAgent, env.now,
                         env.now + cfg.refreshTTL, None, None);
      var rotated := sessions.Rotate(sess.jti, newSess, env.fault);
      if rotated.Err? {
        return Err(rotated.error);
      }
      return Ok(Grant(signed.value.0, signed.value.1, env.newToken.value, newSess.expiresAt));
    }

    method Logout(raw: string, at: int, fails: bool)
      modifies sessions
      ensures sessions.T() == ServeLogout(old(sessions.T()), raw, at, fails)
    {
      if !NonEmpty(raw) {
        return;
      }
      var hash := Sha256Hex(raw);
      var _ := sessions.RevokeByHash(hash, at, fails);
    }

    method Me(id: UserId, fails: bool) returns (res: Result<MeResult, Error>)
      requires Valid()
      ensures res == ServeMe(cfg, users.users, id, fails)
    {
      var u := users.FindById(id, fails);
      if u.Err? {
        return Err(u.error);
      }
      return Ok(MeResult(u.value.id, u.value.email, u.value.emailVerified));
    }
  }

  // ---------- failure atomicity ----------

  /** Whatever fails, and wherever it fails, the table is as before unless reuse was detected. */
  lemma RefreshFailureIsAtomic(cfg: Config, sg: Sig.SignerState, t: Table, raw: string, deviceId: string, ip: string,
                               userAgent: string, env: RefreshEnv)
    ensures var (t', res) := ServeRefresh(cfg, sg, t, raw, deviceId, ip, userAgent, env);
            && (res.Err? && res.error != ReusedRefresh ==> t' == t)
            && (env.findFails || (env.bulkFails && res.Err?) ==> t' == t)
  {
  }

  /** A success rotates exactly one row: the row of the token, found live, gets a link to the one
      new row, and every other row is untouched. The invariant's table-wide unique JTIs are needed:
      see JtiClashLinksTwoUsers. */
  lemma RefreshSuccessRotatesOneRow(cfg: Config, sg: Sig.SignerState, t: Table, raw: string, deviceId: string,
                                    ip: string, userAgent: string, env: RefreshEnv)
    requires Inv(cfg.refreshTTL, t)
    requires ServeRefresh(cfg, sg, t, raw, deviceId, ip, userAgent, env).1.Ok?
    requires forall i :: 0 <= i < |t.rows| ==> t.rows[i].jti != env.newJti && t.rows[i].refreshHash != Sha256Hex(env.newToken.value)
    ensures var (t', res) := ServeRefresh(cfg, sg, t, raw, deviceId, ip, userAgent, env);
            exists k :: 0 <= k < |t.rows| && t.rows[k].refreshHash == Sha256Hex(raw)
              && t.rows[k].revokedAt.None? && t.rows[k].replacedBy.None? && env.now <= t.rows[k].expiresAt
              && |t'.rows| == |t.rows| + 1
              && t'.rows[k] == t.rows[k].(replacedBy := Some(env.newJti))
              && (forall i :: 0 <= i < |t.rows| && i != k ==> t'.rows[i] == t.rows[i])
              && t'.rows[|t.rows|].userId == t.rows[k].userId && t'.rows[|t.rows|].deviceId == deviceId
              && t'.rows[|t.rows|].refreshHash == Sha256Hex(res.value.refreshToken)
              && t'.rows[|t.rows|].expiresAt == res.value.refreshExp == env.now + cfg.refreshTTL
  {
    var k := FindHash(t.rows, Sha256Hex(raw)).value;
    var addr := ParseIp(cfg.netParseIp, ip).value;
    RotateTouchesOneRow(cfg.refreshTTL, t, k,
      NewRow(cfg, t.rows[k], env.newToken.value, env.newJti, deviceId, addr, userAgent, env.now));
  }
}
