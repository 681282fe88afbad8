/** The access tokens that serial runs hand out: what they say, how long they are accepted, and who
    gets one. */
module AccessTokens {
  import opened Base
  import opened Domain
  import opened Passwords
  import opened SessionTable
  import opened AuthService
  import opened SerialRuns
  import opened History
  import opened Users
  import opened Subjects
  import opened Outcomes
  import Sig = Signer

  /** The clock reading with which call i signed. */
  function SignedAt(tr: Trace, i: nat): int
    requires i < |tr.events|
  {
    match tr.events[i].call
    case LoginCall(_, _, _, _, _, env) => env.signedAt
    case RefreshCall(_, _, _, _, env) => env.signedAt
    case _ => 0
  }

  /** What a grant of call i hands out as access token, in full but for the email claim. */
  ghost predicate AccessIs(cfg: Config, tr: Trace, i: nat, email: Option<string>)
    requires Granted(tr, i)
  {
    var sg, at, g := tr.events[i].sg, SignedAt(tr, i), tr.answers[i].grant.value;
    && CanSign(sg)
    && g.access.Jws? && g.access.header == Sig.Kid(sg.kid) && g.access.alg == sg.alg && g.access.signedBy == sg.keys[sg.kid]
    && g.access.body.issuer == sg.issuer && g.access.body.audience == [sg.audience]
    && g.access.body.issuedAt == g.access.body.notBefore == at
    && g.access.body.expiry == g.accessExp == at + cfg.accessTTL
    && g.access.body.sub.Some? && g.access.body.sub.value.Text? && g.access.body.sub.value.id.Uuid?
    && g.access.body.uid == Some(g.access.body.sub.value.id)
    && g.access.body.email == email
  }

  lemma LoginAccess(cfg: Config, tr: Trace, i: nat)
    requires i < |tr.events| && Valid(cfg, tr) && Granted(tr, i) && tr.events[i].call.LoginCall?
    ensures var c := tr.events[i].call;
            var u := Authenticate(cfg, tr.states[i].users, c.email, c.pw, c.onLogin.findFails);
            u.Ok? && AccessIs(cfg, tr, i, if u.value.email == "" then None else Some(u.value.email))
  {
    UsersInvAt(cfg, tr, i);
    assert Runs(cfg, tr, i);
    var s, e := tr.states[i], tr.events[i];
    hide ServeLogin, Authenticate, UsersInv, MintsFresh, Valid, KeyFree, NonEmpty, Sig.IsRsaAlg, ValidIp, AddressIs;
    LoginOutcome(cfg, e.sg, s.users, s.table, e.call.email, e.call.pw, e.call.device, e.call.ip, e.call.ua, e.call.onLogin);
  }

  /** A granted refresh presented the token of a live row, and minted a new JTI. */
  lemma RefreshFindsLive(cfg: Config, tr: Trace, i: nat) returns (k: nat)
    requires i < |tr.events| && Valid(cfg, tr) && Granted(tr, i) && tr.events[i].call.RefreshCall?
    ensures var t, c := tr.states[i].table, tr.events[i].call;
            && Inv(cfg.refreshTTL, t) && k < |t.rows| && t.rows[k].refreshHash == Sha256Hex(c.raw)
            && NonEmpty(c.raw) && !c.onRefresh.findFails
            && t.rows[k].revokedAt.None? && c.onRefresh.now <= t.rows[k].expiresAt && t.rows[k].replacedBy.None?
            && forall m :: 0 <= m < |t.rows| ==> t.rows[m].jti != c.onRefresh.newJti
  {
    hide Valid, Inv, SysInv, Perform, WriteOf, NonEmpty, GrantMatches, Fresh;
    StepFacts(cfg, tr, i);
    GrantMeansPresented(cfg, tr, i);
    k := WriteOf(cfg, tr.states[i], tr.events[i]).k;
    RunsAt(cfg, tr, i);
    FreshJti(cfg, tr, i);
  }

  lemma RefreshAccess(cfg: Config, tr: Trace, i: nat)
    requires i < |tr.events| && Valid(cfg, tr) && Granted(tr, i) && tr.events[i].call.RefreshCall?
    ensures AccessIs(cfg, tr, i, None)
  {
    hide *;
    var k := RefreshFindsLive(cfg, tr, i);
    RunsAt(cfg, tr, i);
    var t, e := tr.states[i].table, tr.events[i];
    RefreshMeetsLive(cfg, e.sg, t, k, e.call.raw, e.call.device, e.call.ip, e.call.ua, e.call.onRefresh);
    RefreshIsServed(cfg, tr, i);
    LiveGrant(cfg, tr, i, k);
    RefreshGrantIs(cfg, tr, i, t.rows[k].userId,
      ServeRefresh(cfg, e.sg, t, e.call.raw, e.call.device, e.call.ip, e.call.ua, e.call.onRefresh).0.rows[|t.rows|]);
  }

  lemma RefreshIsServed(cfg: Config, tr: Trace, i: nat)
    requires Runs(cfg, tr, i) && Granted(tr, i) && tr.events[i].call.RefreshCall?
    ensures var c := tr.events[i].call;
            var r := ServeRefresh(cfg, tr.events[i].sg, tr.states[i].table, c.raw, c.device, c.ip, c.ua, c.onRefresh).1;
            r.Ok? && r == tr.answers[i].grant
  {
    hide ServeRefresh, MintsFresh;
  }

  lemma LiveGrant(cfg: Config, tr: Trace, i: nat, k: nat)
    requires i < |tr.events| && tr.events[i].call.RefreshCall? && k < |tr.states[i].table.rows|
    requires var t, c := tr.states[i].table, tr.events[i].call;
             var (t', res) := ServeRefresh(cfg, tr.events[i].sg, t, c.raw, c.device, c.ip, c.ua, c.onRefresh);
             res.Ok? && LiveOutcome(cfg, tr.events[i].sg, t, k, c.device, c.ip, c.ua, c.onRefresh, t', res)
    ensures var sg, t, c := tr.events[i].sg, tr.states[i].table, tr.events[i].call;
            var (t', res) := ServeRefresh(cfg, sg, t, c.raw, c.device, c.ip, c.ua, c.onRefresh);
            && CanSign(sg) && c.onRefresh.newToken.Some? && |t'.rows| == |t.rows| + 1
            && GrantIs(cfg, sg, res.value, t.rows[k].userId, None, c.onRefresh.signedAt, c.onRefresh.newToken.value,
                       t'.rows[|t.rows|])
  {
    hide ServeRefresh, GrantIs, AddressIs, ValidIp, CanSign;
  }

  lemma RefreshGrantIs(cfg: Config, tr: Trace, i: nat, id: UserId, r: Row)
    requires Granted(tr, i) && tr.events[i].call.RefreshCall? && tr.events[i].call.onRefresh.newToken.Some?
    requires CanSign(tr.events[i].sg)
    requires GrantIs(cfg, tr.events[i].sg, tr.answers[i].grant.value, id, None, tr.events[i].call.onRefresh.signedAt,
                     tr.events[i].call.onRefresh.newToken.value, r)
    ensures AccessIs(cfg, tr, i, None)
  {
    hide Sig.IsRsaAlg;
  }

  lemma FreshJti(cfg: Config, tr: Trace, i: nat)
    requires Runs(cfg, tr, i) && tr.events[i].call.RefreshCall?
    ensures forall k :: 0 <= k < |tr.states[i].table.rows| ==> tr.states[i].table.rows[k].jti != tr.events[i].call.onRefresh.newJti
  {
    hide Serve;
  }

  /** Every grant of a serial run hands out an access token signed with the key then active, for the
      signer's issuer and audience, from the moment of signing for the access TTL, which is also what
      the grant states; a login's names its user's email, a refresh's names none. */
  lemma GrantedAccess(cfg: Config, tr: Trace, i: nat)
    requires i < |tr.events| && Valid(cfg, tr) && Granted(tr, i)
    ensures tr.events[i].call.LoginCall? || tr.events[i].call.RefreshCall?
    ensures tr.answers[i].grant.value.access.Jws?
    ensures AccessIs(cfg, tr, i, tr.answers[i].grant.value.access.body.email)
    ensures tr.events[i].call.RefreshCall? ==> AccessIs(cfg, tr, i, None)
  {
    assert Runs(cfg, tr, i);
    AnswerKinds(cfg, tr, i);
    hide Runs, Valid, Serve, Authenticate;
    if tr.events[i].call.LoginCall? {
      LoginAccess(cfg, tr, i);
    } else {
      RefreshAccess(cfg, tr, i);
    }
  }

  /** How long a granted access token is accepted: any later signer state accepts it exactly if it has
      the same key under the kid, the same issuer and audience, signing was RS256, and the time is the
      token's. So it is accepted from signing until the access TTL has passed, by every state that keeps
      key and settings, and by none once the skew has passed too. */
  lemma GrantedAccessLifetime(cfg: Config, tr: Trace, i: nat, w: Sig.Window, sg': Sig.SignerState, now: int)
    requires i < |tr.events| && Valid(cfg, tr) && Granted(tr, i)
    ensures var sg, tok, at := tr.events[i].sg, tr.answers[i].grant.value.access, SignedAt(tr, i);
            var kept := && sg.alg == "RS256" && sg.kid in sg.keys && sg.kid in sg'.keys && sg'.keys[sg.kid] == sg.keys[sg.kid]
                        && sg'.issuer == sg.issuer && sg'.audience == sg.audience;
            && (Sig.Verify(w, sg', tok, now).Ok? <==> kept && w(at, at + cfg.accessTTL, now))
            && (kept && at <= now < at + cfg.accessTTL ==> Sig.Verify(w, sg', tok, now).Ok?)
            && (at + cfg.accessTTL + 5 <= now ==> Sig.Verify(w, sg', tok, now).Err?)
  {
    GrantedAccess(cfg, tr, i);
    hide Valid, Granted, Sig.Verify, Sig.IsRsaAlg;
    var tok := tr.answers[i].grant.value.access;
    Sig.VerifyExactly(w, sg', tok, now);
    assert sg'.audience in tok.body.audience <==> sg'.audience == tr.events[i].sg.audience;
  }

  // ---------- who can log in, told from the registrations ----------

  /** Every stored user was stored by a registration of the run, and is as it was stored. */
  lemma {:induction false} UserHasRegistration(cfg: Config, tr: Trace, n: nat, k: nat) returns (j: nat)
    requires n <= |tr.events| && Valid(cfg, tr) && k < |tr.states[n].users|
    ensures j < n && Registers(tr, j) && |tr.states[j].users| == k < |tr.states[j + 1].users|
    ensures tr.states[n].users[k] == tr.states[j + 1].users[k]
    decreases n
  {
    NoUsersAtStart(cfg, tr);
    UsersOfCall(cfg, tr, n - 1);
    if k < |tr.states[n - 1].users| {
      j := UserHasRegistration(cfg, tr, n - 1, k);
    } else {
      j := n - 1;
    }
  }

  lemma NoUsersAtStart(cfg: Config, tr: Trace)
    requires Valid(cfg, tr)
    ensures tr.states[0].users == []
  {
  }

  /** A call keeps the users and, exactly when it is a registration that succeeds, adds one. */
  lemma UsersOfCall(cfg: Config, tr: Trace, i: nat)
    requires i < |tr.events| && Valid(cfg, tr)
    ensures tr.states[i].users <= tr.states[i + 1].users
    ensures |tr.states[i + 1].users| == |tr.states[i].users| + (if Registers(tr, i) then 1 else 0)
  {
    assert Runs(cfg, tr, i);
    var s, c := tr.states[i], tr.events[i].call;
    if c.RegisterCall? {
      hide ServeRegister, MintsFresh, Valid, RegistrationOf, Taken;
      RegisterOutcome(cfg, s.users, c.emailRaw, c.password, c.verifyNow, c.onRegister);
    } else {
      hide ServeLogin, ServeRefresh, ServeLogout, MintsFresh, Valid;
    }
  }

  /** A registration of the run that stored this email, up to case, with this password, verified. */
  ghost predicate Opens(cfg: Config, tr: Trace, j: nat, raw: string, password: string) {
    && Registers(tr, j)
    && cfg.fold(tr.answers[j].registered.value.email) == cfg.fold(Trim(raw))
    && tr.events[j].call.password == password && tr.events[j].call.verifyNow
  }

  /** What a registration stored. */
  lemma RegistrationStores(cfg: Config, tr: Trace, j: nat)
    requires j < |tr.events| && Valid(cfg, tr) && Registers(tr, j)
    ensures var c := tr.events[j].call;
            && |tr.states[j + 1].users| == |tr.states[j].users| + 1
            && RegistrationOf(cfg, tr.states[j + 1].users[|tr.states[j].users|], c.emailRaw, c.password, c.verifyNow, c.onRegister)
            && tr.answers[j].registered.value.email == Trim(c.emailRaw)
            && ValidEmail(cfg, c.emailRaw) && Strong(cfg.cat, c.password)
  {
    assert Runs(cfg, tr, j);
    var s, c := tr.states[j], tr.events[j].call;
    hide ServeRegister, MintsFresh, Valid, RegistrationOf, Taken, Trim, Strong;
    RegisterOutcome(cfg, s.users, c.emailRaw, c.password, c.verifyNow, c.onRegister);
  }

  /** Login refinement. In a serial run, a login with no failure of its own is granted if and only if
      its email is valid and some earlier registration stored that email, up to case, with the password
      presented, verified at once. No other email, and no other password, gets in. */
  lemma LoginRefinement(cfg: Config, tr: Trace, n: nat)
    requires n < |tr.events| && Valid(cfg, tr) && LoginUnfailing(cfg, tr.events[n])
    ensures Granted(tr, n) <==>
              && ValidEmail(cfg, tr.events[n].call.email)
              && exists j: nat :: j < n && Opens(cfg, tr, j, tr.events[n].call.email, tr.events[n].call.pw)
  {
    hide *;
    var c, users := tr.events[n].call, tr.states[n].users;
    LoginFindFlag(cfg, tr.events[n]);
    RunsAt(cfg, tr, n);
    RunsServes(cfg, tr, n);
    UsersInvAt(cfg, tr, n);
    LoginGrantedIffAuthenticated(cfg, tr.states[n], tr.events[n]);
    if Granted(tr, n) {
      var j := OpenedBy(cfg, tr, n, c.email, c.pw);
    }
    if exists j: nat :: j < n && Opens(cfg, tr, j, c.email, c.pw) {
      var j: nat :| j < n && Opens(cfg, tr, j, c.email, c.pw);
      if ValidEmail(cfg, c.email) {
        OpensAuthenticates(cfg, tr, j, n, c.email, c.pw);
      }
    }
  }

  lemma OpenedBy(cfg: Config, tr: Trace, n: nat, raw: string, password: string) returns (j: nat)
    requires n <= |tr.events| && Valid(cfg, tr)
    requires Authenticate(cfg, tr.states[n].users, raw, password, false).Ok?
    ensures ValidEmail(cfg, raw) && j < n && Opens(cfg, tr, j, raw, password)
  {
    var users := tr.states[n].users;
    var u := Authenticate(cfg, users, raw, password, false).value;
    UsersInvAt(cfg, tr, n);
    hide Valid, Authenticate, UsersInv, Trim, CheckPassword, Strong, ValidEmail;
    AuthenticateOutcome(cfg, users, raw, password, false);
    assert Matches(cfg, users, raw, password, u);
    var k :| 0 <= k < |users| && users[k] == u;
    j := UserHasRegistration(cfg, tr, n, k);
    RegistrationStores(cfg, tr, j);
  }

  lemma OpensAuthenticates(cfg: Config, tr: Trace, j: nat, n: nat, raw: string, password: string)
    requires j < n <= |tr.events| && Valid(cfg, tr) && Opens(cfg, tr, j, raw, password) && ValidEmail(cfg, raw)
    ensures Authenticate(cfg, tr.states[n].users, raw, password, false).Ok?
  {
    hide *;
    UsersInvAt(cfg, tr, n);
    OpensRegisters(cfg, tr, j, raw, password);
    SerialGrows(cfg, tr, j + 1, n);
    RegistrationStores(cfg, tr, j);
    AuthenticateOutcome(cfg, tr.states[n].users, raw, password, false);
    var u := tr.states[j + 1].users[|tr.states[j].users|];
    StoredMatches(cfg, tr, j, tr.states[j + 1].users, tr.states[n].users, u, raw, password);
  }

  lemma OpensRegisters(cfg: Config, tr: Trace, j: nat, raw: string, password: string)
    requires Opens(cfg, tr, j, raw, password)
    ensures Registers(tr, j) && j < |tr.events| && tr.events[j].call.RegisterCall?
    ensures tr.answers[j].RegisterAnswer? && tr.answers[j].registered.Ok?
  {
  }

  lemma StoredMatches(cfg: Config, tr: Trace, j: nat, users: seq<User>, users': seq<User>, u: User, raw: string,
                      password: string)
    requires Opens(cfg, tr, j, raw, password) && users <= users' && u in users
    requires var c := tr.events[j].call;
             && RegistrationOf(cfg, u, c.emailRaw, c.password, c.verifyNow, c.onRegister)
             && tr.answers[j].registered.value.email == Trim(c.emailRaw)
    ensures Matches(cfg, users', raw, password, u) && u.emailVerified
  {
    hide Trim, CheckPassword;
    var k :| 0 <= k < |users| && users[k] == u;
    assert users'[k] == u;
  }

  /** Whoever is registered has a strong password: at least eight runes, a lower-case letter, a digit and
      no white space. */
  lemma RegisteredIsStrong(cfg: Config, tr: Trace, j: nat)
    requires Valid(cfg, tr) && Registers(tr, j)
    ensures Strong(cfg.cat, tr.events[j].call.password)
  {
    RegistrationStores(cfg, tr, j);
  }
}
