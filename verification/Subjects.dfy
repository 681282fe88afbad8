/** Whom the tokens speak for: from registration through login and any chain of refreshes to the
    user that the bearer of an access token is shown to be. */
module Subjects {
  import opened Base
  import opened Domain
  import opened Passwords
  import opened SessionTable
  import opened AuthService
  import opened SerialRuns
  import opened History
  import opened Users
  import Inter = Interleaving
  import Sig = Signer

  // ---------- every interleaving ----------

  /** In every interleaving, an access token handed out before step n names the user who owns the
      login at the root of its chain, and at every later moment that user is found under that id. */
  lemma IssuedTokensNameTheirUser(c: Inter.Setup, tr: Inter.Trace, n: nat, m: nat, i: nat)
    requires n <= m <= |tr.steps| && Inter.Valid(c, tr)
    requires i < |tr.worlds[n].issued|
    ensures var w, w', x := tr.worlds[n], tr.worlds[m], tr.worlds[n].issued[i];
            && Root(w.table, x.row) < |w.table.rows|
            && var id := w.table.rows[Root(w.table, x.row)].userId;
               && x.sub == Uuid(id)
               && LookupId(c.validAddress, w'.users, id).Ok? && LookupId(c.validAddress, w'.users, id).value.id == id
  {
    Inter.InterleavingInv(c, tr, n);
    Inter.InterleavingInv(c, tr, m);
    Inter.TableOnlyGrows(c, tr, n, m);
    var w, w', x := tr.worlds[n], tr.worlds[m], tr.worlds[n].issued[i];
    assert Inter.IssuedOk(w, x);
    RootIsLogin(c.ttl, w.table, x.row);
    var id := w.table.rows[Root(w.table, x.row)].userId;
    assert HasId(w.users, id);
    Inter.HasIdGrows(w.users, w'.users, id);
    hide Inv;
    assert FindId(w'.users, id).Some?;
  }

  // ---------- serial runs ----------

  /** An authenticated user is a row of the table, and Me shows that row under its id. */
  lemma AuthenticatedIsStored(cfg: Config, users: seq<User>, email: string, pw: string, findFails: bool)
    requires UsersInv(cfg.fold, cfg.validAddress, users)
    requires Authenticate(cfg, users, email, pw, findFails).Ok?
    ensures Authenticate(cfg, users, email, pw, findFails).value in users
  {
    var k := FindEmail(cfg.fold, users, ParseEmail(cfg.validAddress, email).value).value;
    assert users[k].(email := users[k].email) == users[k];
  }

  lemma MeShowsStored(cfg: Config, users: seq<User>, u: User)
    requires UsersInv(cfg.fold, cfg.validAddress, users) && u in users
    ensures ServeMe(cfg, users, u.id, false) == Ok(MeResult(u.id, u.email, u.emailVerified))
  {
    var k :| 0 <= k < |users| && users[k] == u;
    StoredUserIsFound(cfg.fold, cfg.validAddress, users, k, u.email);
  }

  lemma UsersInvAt(cfg: Config, tr: Trace, n: nat)
    requires n <= |tr.events| && Valid(cfg, tr)
    ensures UsersInv(cfg.fold, cfg.validAddress, tr.states[n].users)
  {
    SerialInv(cfg, tr, n);
  }

  /** A granted refresh records the row it rotated as the new row's parent. */
  lemma RefreshedRowHasParent(cfg: Config, tr: Trace, i: nat)
    requires i < |tr.events| && Valid(cfg, tr) && Granted(tr, i) && tr.events[i].call.RefreshCall?
    ensures |Rows(tr, i)| < |tr.states[i + 1].table.parents|
    ensures tr.states[i + 1].table.parents[|Rows(tr, i)|].Some?
  {
    StepFacts(cfg, tr, i);
    var s := tr.states[i];
    var w := WriteOf(cfg, s, tr.events[i]);
    RotateTouchesOneRow(cfg.refreshTTL, s.table, w.k, w.row);
  }

  /** A row without a parent was inserted by a login. */
  lemma RootRowIsFromLogin(cfg: Config, tr: Trace, i: nat, n: nat)
    requires i < n <= |tr.events| && Valid(cfg, tr) && Granted(tr, i)
    requires |Rows(tr, i)| < |tr.states[n].table.parents|
    requires tr.states[n].table.parents[|Rows(tr, i)|].None?
    ensures tr.events[i].call.LoginCall?
  {
    assert Runs(cfg, tr, i);
    AnswerKinds(cfg, tr, i);
    hide Serve, MintsFresh, Root;
    if tr.events[i].call.RefreshCall? {
      RefreshedRowHasParent(cfg, tr, i);
      SerialGrows(cfg, tr, i + 1, n);
      ParentKept(tr.states[i + 1].table, tr.states[n].table, |Rows(tr, i)|);
    }
  }

  lemma ParentKept(t: Table, t': Table, k: nat)
    requires Grows(t, t') && k < |t.parents|
    ensures k < |t'.parents| && t'.parents[k] == t.parents[k]
  {
  }

  /** The call at the root of the chain that led to grant i. */
  lemma RootGrant(cfg: Config, tr: Trace, i: nat) returns (i0: nat)
    requires i < |tr.events| && Valid(cfg, tr) && Granted(tr, i)
    ensures i0 <= i && Granted(tr, i0) && tr.events[i0].call.LoginCall?
    ensures OwnerOf(tr, i0) == OwnerOf(tr, i)
    ensures |Rows(tr, i0)| == Root(tr.states[i + 1].table, |Rows(tr, i)|)
  {
    var k, t := |Rows(tr, i)|, tr.states[i + 1].table;
    hide Valid, Granted, OwnerOf, Root, SysInv;
    RowOfGrant(cfg, tr, i, i + 1);
    SerialInv(cfg, tr, i + 1);
    InvOf(cfg, tr.states[i + 1]);
    RootIsLogin(cfg.refreshTTL, t, k);
    i0 := RowHasGrant(cfg, tr, i + 1, Root(t, k));
    hide Inv;
    RootRowIsFromLogin(cfg, tr, i0, i + 1);
  }

  /** What a granted login did: it authenticated a stored user, whom its access token names. */
  lemma LoginNamesUser(cfg: Config, tr: Trace, i: nat)
    requires i < |tr.events| && Valid(cfg, tr) && Granted(tr, i) && tr.events[i].call.LoginCall?
    ensures var c, users := tr.events[i].call, tr.states[i].users;
            var u := Authenticate(cfg, users, c.email, c.pw, c.onLogin.findFails);
            u.Ok? && u.value in users && OwnerOf(tr, i) == Some(Sig.Text(Uuid(u.value.id)))
  {
    var s, c := tr.states[i], tr.events[i].call;
    UsersInvAt(cfg, tr, i);
    assert Runs(cfg, tr, i);
    hide Serve, Authenticate, UsersInv, MintsFresh;
    LoginShape(cfg, s, tr.events[i]);
    AuthenticatedIsStored(cfg, s.users, c.email, c.pw, c.onLogin.findFails);
  }

  /** Subject integrity. An access token of any grant, a login or the end of any chain of refreshes,
      names the user whose login started the chain; and at any later time, under any signer state
      that accepts it, the middleware followed by Me answers with that user's row, whatever else has
      run in between. */
  lemma SubjectIntegrity(cfg: Config, tr: Trace, i: nat, n: nat, w: Sig.Window, sg: Sig.SignerState, now: int)
    returns (i0: nat, u: User)
    requires i < n <= |tr.events| && Valid(cfg, tr) && Granted(tr, i)
    ensures i0 <= i && tr.events[i0].call.LoginCall? && Granted(tr, i0)
    ensures |Rows(tr, i0)| == Root(tr.states[i + 1].table, |Rows(tr, i)|)
    ensures var c := tr.events[i0].call;
            Authenticate(cfg, tr.states[i0].users, c.email, c.pw, c.onLogin.findFails) == Ok(u)
    ensures OwnerOf(tr, i) == Some(Sig.Text(Uuid(u.id)))
    ensures u in tr.states[n].users
    ensures ServeMe(cfg, tr.states[n].users, u.id, false) == Ok(MeResult(u.id, u.email, u.emailVerified))
    ensures var tok := tr.answers[i].grant.value.access;
            Sig.Verify(w, sg, tok, now).Ok? ==> BearerUser(w, sg, tok, now) == Some(u.id)
  {
    i0 := RootGrant(cfg, tr, i);
    LoginNamesUser(cfg, tr, i0);
    var c := tr.events[i0].call;
    u := Authenticate(cfg, tr.states[i0].users, c.email, c.pw, c.onLogin.findFails).value;
    SerialGrows(cfg, tr, i0, n);
    UsersInvAt(cfg, tr, n);
    MeShowsStored(cfg, tr.states[n].users, u);
    BearerIsOwner(tr, i, w, sg, now);
  }

  lemma BearerIsOwner(tr: Trace, i: nat, w: Sig.Window, sg: Sig.SignerState, now: int)
    requires Granted(tr, i)
    ensures var tok := tr.answers[i].grant.value.access;
            forall id: UserId :: OwnerOf(tr, i) == Some(Sig.Text(Uuid(id))) && Sig.Verify(w, sg, tok, now).Ok? ==>
              BearerUser(w, sg, tok, now) == Some(id)
  {
  }

  // ---------- register, then log in ----------

  predicate Registers(tr: Trace, i: nat) {
    i < |tr.events| && tr.events[i].call.RegisterCall? && tr.answers[i].RegisterAnswer? && tr.answers[i].registered.Ok?
  }

  /** The user row that a registration stored. */
  lemma RegisteredRow(cfg: Config, tr: Trace, i: nat) returns (u: User)
    requires Runs(cfg, tr, i) && Registers(tr, i)
    ensures u in tr.states[i + 1].users
    ensures u.id == tr.answers[i].registered.value.id && u.email == tr.answers[i].registered.value.email
    ensures u.emailVerified == tr.events[i].call.verifyNow
    ensures forall pw :: CheckPassword(u.passwordHash, pw, cfg.pwOptions).Ok? <==> pw == tr.events[i].call.password
  {
    var s, c := tr.states[i], tr.events[i].call;
    u := tr.states[i + 1].users[|s.users|];
    var env := c.onRegister;
    forall pw ensures CheckPassword(u.passwordHash, pw, cfg.pwOptions).Ok? <==> pw == c.password {
      HashCheckRoundTrip(c.password, pw, cfg.pwOptions, cfg.pwOptions, env.salt);
    }
  }

  /** The login call meets no failure of its own, and its device ID and address are acceptable. */
  predicate LoginUnfailing(cfg: Config, e: Event) {
    && e.call.LoginCall? && !e.call.onLogin.findFails && !e.call.onLogin.createFails
    && e.call.onLogin.newToken.Some? && e.call.onLogin.newJti.Some? && NonEmpty(e.call.onLogin.newJti.value)
    && NonEmpty(e.call.device) && ParseIp(cfg.netParseIp, e.call.ip).Ok?
    && e.sg.kid in e.sg.keys && Sig.IsRsaAlg(e.sg.alg)
  }

  /** With no failure of its own, a login is granted exactly when it authenticates. */
  lemma LoginGrantedIffAuthenticated(cfg: Config, s: Sys, e: Event)
    requires LoginUnfailing(cfg, e) && MintsFresh(s, e.call) && UsersInv(cfg.fold, cfg.validAddress, s.users)
    ensures Serve(cfg, s, e).1.GrantAnswer?
    ensures Serve(cfg, s, e).1.grant.Ok? <==> Authenticate(cfg, s.users, e.call.email, e.call.pw, false).Ok?
  {
    var u := Authenticate(cfg, s.users, e.call.email, e.call.pw, false);
    if u.Ok? {
      AuthenticatedIsStored(cfg, s.users, e.call.email, e.call.pw, false);
      assert u.value.id != 0;
    }
  }

  lemma AuthenticateStored(cfg: Config, users: seq<User>, u: User, email: string, pw: string)
    requires UsersInv(cfg.fold, cfg.validAddress, users) && u in users
    requires ParseEmail(cfg.validAddress, email).Ok?
    requires cfg.fold(ParseEmail(cfg.validAddress, email).value) == cfg.fold(u.email)
    ensures Authenticate(cfg, users, email, pw, false)
         == if CheckPassword(u.passwordHash, pw, cfg.pwOptions).Err? then Err(InvalidCredentials)
            else if !u.emailVerified then Err(EmailNotVerified)
            else Ok(u)
  {
    var k :| 0 <= k < |users| && users[k] == u;
    StoredUserIsFound(cfg.fold, cfg.validAddress, users, k, ParseEmail(cfg.validAddress, email).value);
    assert u.(email := u.email) == u;
  }

  /** Register, then log in. After a successful registration, at any later point of any serial run, a
      login with any acceptable spelling of the email that is equal up to case, a non-blank device ID,
      an empty or valid address and the active key loaded is granted if and only if the password is the
      registered one and the account was verified at once; and it is granted to the registered user. */
  lemma RegisterThenLogin(cfg: Config, tr: Trace, i: nat, n: nat)
    requires i < n < |tr.events| && Valid(cfg, tr) && Registers(tr, i)
    requires LoginUnfailing(cfg, tr.events[n]) && ParseEmail(cfg.validAddress, tr.events[n].call.email).Ok?
    requires cfg.fold(ParseEmail(cfg.validAddress, tr.events[n].call.email).value)
          == cfg.fold(tr.answers[i].registered.value.email)
    ensures Granted(tr, n) <==> tr.events[n].call.pw == tr.events[i].call.password && tr.events[i].call.verifyNow
    ensures Granted(tr, n) ==> OwnerOf(tr, n) == Some(Sig.Text(Uuid(tr.answers[i].registered.value.id)))
  {
    hide *;
    var s := tr.states[n];
    RunsAt(cfg, tr, n);
    RunsAt(cfg, tr, i);
    RunsServes(cfg, tr, n);
    LoginFindFlag(cfg, tr.events[n]);
    var u := RegisteredRow(cfg, tr, i);
    SerialGrows(cfg, tr, i + 1, n);
    UsersInvAt(cfg, tr, n);
    LoginOfStored(cfg, s, tr.events[n], u);
    if Granted(tr, n) {
      LoginNamesUser(cfg, tr, n);
    }
  }

  lemma RunsServes(cfg: Config, tr: Trace, n: nat)
    requires Runs(cfg, tr, n)
    ensures MintsFresh(tr.states[n], tr.events[n].call)
    ensures var a := Serve(cfg, tr.states[n], tr.events[n]).1; Granted(tr, n) <==> a.GrantAnswer? && a.grant.Ok?
  {
    hide Serve, MintsFresh;
  }

  lemma LoginFindFlag(cfg: Config, e: Event)
    requires LoginUnfailing(cfg, e)
    ensures e.call.LoginCall? && !e.call.onLogin.findFails
  {
  }

  lemma LoginOfStored(cfg: Config, s: Sys, e: Event, u: User)
    requires LoginUnfailing(cfg, e) && MintsFresh(s, e.call) && UsersInv(cfg.fold, cfg.validAddress, s.users)
    requires u in s.users && ParseEmail(cfg.validAddress, e.call.email).Ok?
    requires cfg.fold(ParseEmail(cfg.validAddress, e.call.email).value) == cfg.fold(u.email)
    ensures Serve(cfg, s, e).1.GrantAnswer?
    ensures Serve(cfg, s, e).1.grant.Ok? <==> CheckPassword(u.passwordHash, e.call.pw, cfg.pwOptions).Ok? && u.emailVerified
    ensures Serve(cfg, s, e).1.grant.Ok? ==> Authenticate(cfg, s.users, e.call.email, e.call.pw, false) == Ok(u)
  {
    AuthenticateStored(cfg, s.users, u, e.call.email, e.call.pw);
    LoginGrantedIffAuthenticated(cfg, s, e);
  }
}
