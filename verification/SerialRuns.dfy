/** Serial runs: whole calls of Register, Login, Refresh and Logout one after the other, with any
    failures at any step and any signer state at each call. */
module SerialRuns {
  import opened Base
  import opened Domain
  import opened SessionTable
  import opened AuthService
  import Inter = Interleaving
  import Sig = Signer
  import Users

  datatype Sys = Sys(users: seq<Users.User>, table: Table)

  datatype Call =
    | RegisterCall(emailRaw: string, password: string, verifyNow: bool, onRegister: RegisterEnv)
    | LoginCall(email: string, pw: string, device: string, ip: string, ua: string, onLogin: LoginEnv)
    | RefreshCall(raw: string, device: string, ip: string, ua: string, onRefresh: RefreshEnv)
    | LogoutCall(raw: string, at: int, fails: bool)

  /** A call, and the signer it finds. */
  datatype Event = Event(sg: Sig.SignerState, call: Call)

  datatype Answer =
    | RegisterAnswer(registered: Result<Registered, Error>)
    | GrantAnswer(grant: Result<Grant, Error>)
    | LogoutAnswer

  function Serve(cfg: Config, s: Sys, e: Event): (Sys, Answer) {
    match e.call
    case RegisterCall(emailRaw, password, verifyNow, env) =>
      var (users, r) := ServeRegister(cfg, s.users, emailRaw, password, verifyNow, env);
      (s.(users := users), RegisterAnswer(r))
    case LoginCall(email, pw, device, ip, ua, env) =>
      var (t, r) := ServeLogin(cfg, e.sg, s.users, s.table, email, pw, device, ip, ua, env);
      (s.(table := t), GrantAnswer(r))
    case RefreshCall(raw, device, ip, ua, env) =>
      var (t, r) := ServeRefresh(cfg, e.sg, s.table, raw, device, ip, ua, env);
      (s.(table := t), GrantAnswer(r))
    case LogoutCall(raw, at, fails) => (s.(table := ServeLogout(s.table, raw, at, fails)), LogoutAnswer)
  }

  // ---------- freshness ----------

  ghost predicate UnknownToken(t: Table, token: string) {
    NonEmpty(token) && forall i :: 0 <= i < |t.rows| ==> t.rows[i].refreshHash != Sha256Hex(token)
  }

  ghost predicate UnknownJti(t: Table, jti: string) {
    forall i :: 0 <= i < |t.rows| ==> t.rows[i].jti != jti
  }

  /** What the random sources promise: new tokens, new JTIs, and ids that are not nil. */
  ghost predicate MintsFresh(s: Sys, c: Call) {
    match c
    case RegisterCall(_, _, _, env) => env.newId != 0
    case LoginCall(_, _, _, _, _, env) =>
      && (env.newToken.Some? ==> UnknownToken(s.table, env.newToken.value))
      && (env.newJti.Some? ==> UnknownJti(s.table, env.newJti.value))
    case RefreshCall(_, _, _, _, env) =>
      && (env.newToken.Some? ==> UnknownToken(s.table, env.newToken.value))
      && UnknownJti(s.table, env.newJti)
    case LogoutCall(_, _, _) => true
  }

  // ---------- runs ----------

  /** A run: the calls, the states before, between and after them, and the answers. */
  datatype RawTrace = RawTrace(events: seq<Event>, states: seq<Sys>, answers: seq<Answer>)

  type Trace = tr: RawTrace | |tr.states| == |tr.events| + 1 && |tr.answers| == |tr.events|
    witness RawTrace([], [Sys([], EMPTY)], [])

  ghost predicate Runs(cfg: Config, tr: Trace, i: nat) {
    && i < |tr.events|
    && MintsFresh(tr.states[i], tr.events[i].call)
    && Serve(cfg, tr.states[i], tr.events[i]) == (tr.states[i + 1], tr.answers[i])
  }

  lemma RunsAt(cfg: Config, tr: Trace, i: nat)
    requires Valid(cfg, tr) && i < |tr.events|
    ensures Runs(cfg, tr, i)
  {
  }

  /** Answers come in the kind of their calls. */
  lemma AnswerKinds(cfg: Config, tr: Trace, i: nat)
    requires Runs(cfg, tr, i)
    ensures tr.events[i].call.RegisterCall? <==> tr.answers[i].RegisterAnswer?
    ensures tr.events[i].call.LogoutCall? <==> tr.answers[i].LogoutAnswer?
  {
  }

  /** The run starts from empty tables and every call mints fresh values and is served. */
  ghost predicate Valid(cfg: Config, tr: Trace) {
    && tr.states[0] == Sys([], EMPTY)
    && forall i: nat :: i < |tr.events| ==> Runs(cfg, tr, i)
  }

  function Last(tr: Trace): Sys {
    tr.states[|tr.events|]
  }

  /** The run that goes on with call e. */
  function Extend(cfg: Config, tr: Trace, e: Event): Trace {
    var (s, a) := Serve(cfg, Last(tr), e);
    RawTrace(tr.events + [e], tr.states + [s], tr.answers + [a])
  }

  predicate Continues(tr: Trace, tr': Trace) {
    tr.events <= tr'.events && tr.states <= tr'.states && tr.answers <= tr'.answers
  }

  lemma ExtendIsValid(cfg: Config, tr: Trace, e: Event)
    requires Valid(cfg, tr) && MintsFresh(Last(tr), e.call)
    ensures Valid(cfg, Extend(cfg, tr, e)) && Continues(tr, Extend(cfg, tr, e))
    ensures Runs(cfg, Extend(cfg, tr, e), |tr.events|)
  {
    hide Serve, MintsFresh;
    var tr' := Extend(cfg, tr, e);
    forall i: nat | i < |tr'.events| ensures Runs(cfg, tr', i) {
      if i < |tr.events| {
        assert Runs(cfg, tr, i);
      }
    }
  }

  // ---------- what a call writes ----------

  datatype Write =
    | NoWrite
    | Insert(row: Row)
    | Rotation(k: nat, row: Row)
    | DeviceRevoke(k: nat, at: int)
    | TokenRevoke(h: Digest, at: int)

  function Perform(t: Table, w: Write): Table
    requires w.Rotation? || w.DeviceRevoke? ==> w.k < |t.rows|
  {
    match w
    case NoWrite => t
    case Insert(r) => Create(t, r)
    case Rotation(k, r) => SessionTable.Rotate(t, t.rows[k].jti, r)
    case DeviceRevoke(k, at) => RevokeDevice(t, t.rows[k].userId, t.rows[k].deviceId, at)
    case TokenRevoke(h, at) => RevokeHash(t, h, at)
  }

  function AddressOf(cfg: Config, ip: string): Option<Ip> {
    var parsed := ParseIp(cfg.netParseIp, ip);
    if parsed.Ok? then parsed.value else None
  }

  function LoginWrite(cfg: Config, s: Sys, c: Call): Write
    requires c.LoginCall?
  {
    var env := c.onLogin;
    var u := Authenticate(cfg, s.users, c.email, c.pw, env.findFails);
    if u.Err? || env.newToken.None? || env.newJti.None? then NoWrite
    else Insert(Row(u.value.id, c.device, env.newJti.value, Sha256Hex(env.newToken.value), AddressOf(cfg, c.ip), c.ua,
                    env.now, env.now + cfg.refreshTTL, None, None))
  }

  function RefreshWrite(cfg: Config, t: Table, c: Call): Write
    requires c.RefreshCall?
  {
    var env := c.onRefresh;
    var k := FindHash(t.rows, Sha256Hex(c.raw));
    if k.None? || env.newToken.None? then NoWrite
    else Rotation(k.value, NewRow(cfg, t.rows[k.value], env.newToken.value, env.newJti, c.device, AddressOf(cfg, c.ip),
                                  c.ua, env.now))
  }

  /** The one write, if any, that a call makes to the sessions table. */
  function WriteOf(cfg: Config, s: Sys, e: Event): Write {
    var a := Serve(cfg, s, e).1;
    match e.call
    case RegisterCall(_, _, _, _) => NoWrite
    case LoginCall(_, _, _, _, _, _) => if a.grant.Ok? then LoginWrite(cfg, s, e.call) else NoWrite
    case RefreshCall(raw, _, _, _, env) =>
      if a.grant.Ok? then RefreshWrite(cfg, s.table, e.call)
      else
        var k := FindHash(s.table.rows, Sha256Hex(raw));
        if a.grant.error == ReusedRefresh && !env.bulkFails && k.Some? then DeviceRevoke(k.value, env.now) else NoWrite
    case LogoutCall(raw, at, fails) => if NonEmpty(raw) && !fails then TokenRevoke(Sha256Hex(raw), at) else NoWrite
  }

  /** A grant names its token, which is not blank, the new row's owner, and when the refresh token expires. */
  ghost predicate GrantMatches(cfg: Config, g: Grant, r: Row, device: string, now: int) {
    && r.refreshHash == Sha256Hex(g.refreshToken) && NonEmpty(g.refreshToken)
    && r.deviceId == device && r.createdAt == now && r.expiresAt == now + cfg.refreshTTL == g.refreshExp
    && g.access.Jws? && g.access.body.sub == Some(Sig.Text(Uuid(r.userId)))
    && r == r.Stored()
  }

  ghost predicate WriteOk(cfg: Config, s: Sys, e: Event, w: Write, a: Answer) {
    match w
    case NoWrite => !(a.GrantAnswer? && a.grant.Ok?)
    case Insert(r) =>
      && e.call.LoginCall? && a.GrantAnswer? && a.grant.Ok? && Fresh(s.table.rows, r)
      && GrantMatches(cfg, a.grant.value, r, e.call.device, e.call.onLogin.now)
      && Users.HasId(s.users, r.userId)
    case Rotation(k, r) =>
      && e.call.RefreshCall? && a.GrantAnswer? && a.grant.Ok? && Fresh(s.table.rows, r)
      && GrantMatches(cfg, a.grant.value, r, e.call.device, e.call.onRefresh.now)
      && k < |s.table.rows| && s.table.rows[k].refreshHash == Sha256Hex(e.call.raw)
      && Inter.Decide(s.table.rows[k], e.call.onRefresh.now) == Inter.Proceed
      && r.userId == s.table.rows[k].userId
    case DeviceRevoke(k, at) =>
      && e.call.RefreshCall? && a == GrantAnswer(Err(ReusedRefresh)) && !e.call.onRefresh.bulkFails
      && k < |s.table.rows| && s.table.rows[k].refreshHash == Sha256Hex(e.call.raw)
      && Inter.Decide(s.table.rows[k], at) == Inter.Reused && at == e.call.onRefresh.now
    case TokenRevoke(h, at) => e.call.LogoutCall? && a == LogoutAnswer && h == Sha256Hex(e.call.raw)
  }

  /** What a login that is granted has done. */
  lemma LoginShape(cfg: Config, s: Sys, e: Event)
    requires e.call.LoginCall? && Serve(cfg, s, e).1.grant.Ok?
    ensures var env, u := e.call.onLogin, Authenticate(cfg, s.users, e.call.email, e.call.pw, e.call.onLogin.findFails);
            && u.Ok? && env.newToken.Some? && env.newJti.Some?
            && Serve(cfg, s, e).0.table == Create(s.table, LoginWrite(cfg, s, e.call).row)
            && var g := Serve(cfg, s, e).1.grant.value;
               && g.refreshToken == env.newToken.value && g.refreshExp == env.now + cfg.refreshTTL
               && g.access.Jws? && g.access.body.sub == Some(Sig.Text(Uuid(u.value.id)))
  {
    hide Authenticate, KeyTaken, NonEmpty, Sig.IsRsaAlg;
  }

  lemma LoginRefused(cfg: Config, s: Sys, e: Event)
    requires e.call.LoginCall? && Serve(cfg, s, e).1.grant.Err?
    ensures Serve(cfg, s, e).0.table == s.table && WriteOf(cfg, s, e) == NoWrite
  {
    hide Authenticate, NonEmpty, KeyTaken, LoginWrite;
  }

  lemma LoginWrites(cfg: Config, s: Sys, e: Event)
    requires e.call.LoginCall? && MintsFresh(s, e.call)
    ensures var w := WriteOf(cfg, s, e);
            WriteOk(cfg, s, e, w, Serve(cfg, s, e).1) && Serve(cfg, s, e).0.table == Perform(s.table, w)
  {
    assert Serve(cfg, s, e).1.GrantAnswer?;
    hide *;
    if Serve(cfg, s, e).1.grant.Ok? {
      GrantedLoginWrites(cfg, s, e);
    } else {
      LoginRefused(cfg, s, e);
      NothingWritten(cfg, s, e, Serve(cfg, s, e).1);
    }
  }

  lemma NothingWritten(cfg: Config, s: Sys, e: Event, a: Answer)
    requires !(a.GrantAnswer? && a.grant.Ok?)
    ensures WriteOk(cfg, s, e, NoWrite, a) && Perform(s.table, NoWrite) == s.table
  {
  }

  lemma GrantedLoginWrites(cfg: Config, s: Sys, e: Event)
    requires e.call.LoginCall? && MintsFresh(s, e.call)
    requires Serve(cfg, s, e).1.GrantAnswer? && Serve(cfg, s, e).1.grant.Ok?
    ensures var w := WriteOf(cfg, s, e);
            WriteOk(cfg, s, e, w, Serve(cfg, s, e).1) && Serve(cfg, s, e).0.table == Perform(s.table, w)
  {
    var c := e.call;
    hide Serve, ServeLogin, Authenticate, FindHash, NonEmpty;
    LoginShape(cfg, s, e);
    AuthenticatedExists(cfg, s.users, c.email, c.pw, c.onLogin.findFails);
  }

  lemma AuthenticatedExists(cfg: Config, users: seq<Users.User>, email: string, pw: string, findFails: bool)
    requires Authenticate(cfg, users, email, pw, findFails).Ok?
    ensures Users.HasId(users, Authenticate(cfg, users, email, pw, findFails).value.id)
  {
    var k := Users.FindEmail(cfg.fold, users, ParseEmail(cfg.validAddress, email).value).value;
    assert users[k].id == Authenticate(cfg, users, email, pw, findFails).value.id;
  }

  lemma RefreshWrites(cfg: Config, s: Sys, e: Event)
    requires e.call.RefreshCall? && MintsFresh(s, e.call)
    ensures var w := WriteOf(cfg, s, e);
            WriteOk(cfg, s, e, w, Serve(cfg, s, e).1) && Serve(cfg, s, e).0.table == Perform(s.table, w)
  {
    hide Linked, DeviceRevoked, KeyTaken, FirstBy, NonEmpty;
    if Serve(cfg, s, e).1.grant.Ok? {
      var k := FindHash(s.table.rows, Sha256Hex(e.call.raw)).value;
      assert Serve(cfg, s, e).1.grant == RotateRow(cfg, e.sg, s.table, k, e.call.device, e.call.ip, e.call.ua, e.call.onRefresh).1;
    }
  }

  /** Every call makes at most one write, on the terms of WriteOk. */
  lemma ServeWrites(cfg: Config, s: Sys, e: Event)
    requires MintsFresh(s, e.call)
    ensures var w := WriteOf(cfg, s, e);
            WriteOk(cfg, s, e, w, Serve(cfg, s, e).1) && Serve(cfg, s, e).0.table == Perform(s.table, w)
    ensures s.users <= Serve(cfg, s, e).0.users
  {
    match e.call
    case LoginCall(_, _, _, _, _, _) => LoginWrites(cfg, s, e);
    case RefreshCall(_, _, _, _, _) => RefreshWrites(cfg, s, e);
    case _ =>
  }

  // ---------- serial calls as blocks of atomic steps ----------

  function SetupOf(cfg: Config): Inter.Setup {
    Inter.Setup(cfg.refreshTTL, cfg.fold, cfg.validAddress)
  }

  /** The state between two calls of a serial run, as a state of the interleaved model. */
  function WorldOf(s: Sys): Inter.World {
    Inter.World(s.users, s.table, map[], [], [])
  }

  /** The atomic steps of one call, run without interruption. */
  function Block(cfg: Config, s: Sys, e: Event): seq<Inter.Step> {
    match WriteOf(cfg, s, e)
    case NoWrite =>
      var users := Serve(cfg, s, e).0.users;
      if e.call.RegisterCall? && |users| > |s.users| then [Inter.Register(users[|s.users|], e.call.emailRaw)] else []
    case Insert(r) => [Inter.Login(r)]
    case Rotation(k, r) =>
      if k < |s.table.rows| then [Inter.Read(0, s.table.rows[k].refreshHash, r.createdAt), Inter.Rotate(0, r)] else []
    case DeviceRevoke(k, at) =>
      if k < |s.table.rows| then [Inter.Read(0, s.table.rows[k].refreshHash, at), Inter.RevokeReused(0)] else []
    case TokenRevoke(h, at) => [Inter.Logout(h, at)]
  }

  function Exec(w: Inter.World, b: seq<Inter.Step>): Inter.World
    decreases |b|
  {
    if b == [] then w else Exec(Inter.Apply(w, b[0], 0), b[1..])
  }

  ghost predicate AllEnabled(c: Inter.Setup, w: Inter.World, b: seq<Inter.Step>)
    decreases |b|
  {
    b == [] || (Inter.Enabled(c, w, b[0]) && AllEnabled(c, Inter.Apply(w, b[0], 0), b[1..]))
  }

  lemma OneStep(c: Inter.Setup, w: Inter.World, x: Inter.Step)
    requires Inter.Enabled(c, w, x)
    ensures AllEnabled(c, w, [x]) && Exec(w, [x]) == Inter.Apply(w, x, 0)
  {
    assert [x][1..] == [];
    assert Exec(Inter.Apply(w, x, 0), []) == Inter.Apply(w, x, 0);
    assert AllEnabled(c, Inter.Apply(w, x, 0), []);
  }

  lemma TwoSteps(c: Inter.Setup, w: Inter.World, x: Inter.Step, y: Inter.Step)
    requires Inter.Enabled(c, w, x) && Inter.Enabled(c, Inter.Apply(w, x, 0), y)
    ensures AllEnabled(c, w, [x, y]) && Exec(w, [x, y]) == Inter.Apply(Inter.Apply(w, x, 0), y, 0)
  {
    OneStep(c, Inter.Apply(w, x, 0), y);
    assert [x, y][1..] == [y];
  }

  lemma RegisterIsAStep(cfg: Config, s: Sys, e: Event)
    requires e.call.RegisterCall? && MintsFresh(s, e.call) && Serve(cfg, s, e).1.registered.Ok?
    ensures var s' := Serve(cfg, s, e).0;
            && |s'.users| == |s.users| + 1
            && var x := Inter.Register(s'.users[|s.users|], e.call.emailRaw);
               Inter.Enabled(SetupOf(cfg), WorldOf(s), x) && Inter.Apply(WorldOf(s), x, 0) == WorldOf(s')
  {
  }

  /** The read that begins a serial Refresh finds the row and leaves it pending. */
  lemma ReadIsAStep(cfg: Config, s: Sys, k: nat, now: int)
    requires Inv(cfg.refreshTTL, s.table) && k < |s.table.rows|
    requires Inter.Decide(s.table.rows[k], now) in {Inter.Proceed, Inter.Reused}
    ensures var w, x := WorldOf(s), Inter.Read(0, s.table.rows[k].refreshHash, now);
            && Inter.Enabled(SetupOf(cfg), w, x)
            && Inter.Apply(w, x, 0) == w.(pending := map[0 := Inter.Pending(k, s.table.rows[k], now, 0)])
  {
    assert FindHash(s.table.rows, s.table.rows[k].refreshHash) == Some(k);
  }

  /** What a block must achieve for a write w of the sessions table. */
  ghost predicate Realises(c: Inter.Setup, s: Sys, b: seq<Inter.Step>, w: Write)
    requires w.Rotation? || w.DeviceRevoke? ==> w.k < |s.table.rows|
  {
    && AllEnabled(c, WorldOf(s), b)
    && Exec(WorldOf(s), b).table == Perform(s.table, w)
    && Exec(WorldOf(s), b).users == s.users && Exec(WorldOf(s), b).pending == map[]
  }

  lemma RotationIsReadThenRotate(cfg: Config, s: Sys, k: nat, r: Row)
    requires Inv(cfg.refreshTTL, s.table) && k < |s.table.rows|
    requires Inter.Decide(s.table.rows[k], r.createdAt) == Inter.Proceed
    requires Fresh(s.table.rows, r) && r == r.Stored() && r.userId == s.table.rows[k].userId
    requires r.expiresAt == r.createdAt + cfg.refreshTTL
    ensures Realises(SetupOf(cfg), s, [Inter.Read(0, s.table.rows[k].refreshHash, r.createdAt), Inter.Rotate(0, r)],
                     Rotation(k, r))
  {
    ReadIsAStep(cfg, s, k, r.createdAt);
    var x, y := Inter.Read(0, s.table.rows[k].refreshHash, r.createdAt), Inter.Rotate(0, r);
    var w1 := Inter.Apply(WorldOf(s), x, 0);
    assert Inter.Enabled(SetupOf(cfg), w1, y);
    TwoSteps(SetupOf(cfg), WorldOf(s), x, y);
    assert w1.pending - {0} == map[];
  }

  lemma ReuseIsReadThenRevoke(cfg: Config, s: Sys, k: nat, at: int)
    requires Inv(cfg.refreshTTL, s.table) && k < |s.table.rows|
    requires Inter.Decide(s.table.rows[k], at) == Inter.Reused
    ensures Realises(SetupOf(cfg), s, [Inter.Read(0, s.table.rows[k].refreshHash, at), Inter.RevokeReused(0)],
                     DeviceRevoke(k, at))
  {
    ReadIsAStep(cfg, s, k, at);
    var x, y := Inter.Read(0, s.table.rows[k].refreshHash, at), Inter.RevokeReused(0);
    var w1 := Inter.Apply(WorldOf(s), x, 0);
    assert Inter.Enabled(SetupOf(cfg), w1, y);
    TwoSteps(SetupOf(cfg), WorldOf(s), x, y);
    assert w1.pending - {0} == map[];
  }

  /** Every call of a serial run is a block of enabled atomic steps of the interleaved model, which
      ends in the state the call ends in with nothing pending: serial runs are interleavings. A
      Refresh that writes is its read followed at once by its write. */
  lemma CallIsAtomicSteps(cfg: Config, s: Sys, e: Event)
    requires Inter.WorldInv(SetupOf(cfg), WorldOf(s)) && MintsFresh(s, e.call)
    ensures var b := Block(cfg, s, e);
            var w := Exec(WorldOf(s), b);
            && AllEnabled(SetupOf(cfg), WorldOf(s), b)
            && w.table == Serve(cfg, s, e).0.table && w.users == Serve(cfg, s, e).0.users && w.pending == map[]
  {
    if e.call.RegisterCall? {
      if Serve(cfg, s, e).1.registered.Ok? {
        RegisterIsAStep(cfg, s, e);
        OneStep(SetupOf(cfg), WorldOf(s), Inter.Register(Serve(cfg, s, e).0.users[|s.users|], e.call.emailRaw));
      }
    } else {
      assert Serve(cfg, s, e).0.users == s.users;
      ServeWrites(cfg, s, e);
      WriteIsAtomicSteps(cfg, s, e, WriteOf(cfg, s, e), Serve(cfg, s, e).1);
    }
  }

  lemma WriteIsAtomicSteps(cfg: Config, s: Sys, e: Event, w: Write, a: Answer)
    requires Inter.WorldInv(SetupOf(cfg), WorldOf(s)) && !e.call.RegisterCall?
    requires w == WriteOf(cfg, s, e) && a == Serve(cfg, s, e).1 && WriteOk(cfg, s, e, w, a)
    ensures Realises(SetupOf(cfg), s, Block(cfg, s, e), w)
  {
    assert Inv(cfg.refreshTTL, s.table);
    var c := SetupOf(cfg);
    match w
    case NoWrite => NothingIsNoSteps(c, s);
    case Insert(r) => InsertIsLogin(cfg, s, r);
    case Rotation(k, r) => RotationIsReadThenRotate(cfg, s, k, r);
    case DeviceRevoke(k, at) => ReuseIsReadThenRevoke(cfg, s, k, at);
    case TokenRevoke(h, at) => RevokeIsLogout(cfg, s, h, at);
  }

  lemma NothingIsNoSteps(c: Inter.Setup, s: Sys)
    ensures Realises(c, s, [], NoWrite)
  {
  }

  lemma InsertIsLogin(cfg: Config, s: Sys, r: Row)
    requires Fresh(s.table.rows, r) && r == r.Stored() && Users.HasId(s.users, r.userId)
    requires r.expiresAt == r.createdAt + cfg.refreshTTL
    ensures Realises(SetupOf(cfg), s, [Inter.Login(r)], Insert(r))
  {
    OneStep(SetupOf(cfg), WorldOf(s), Inter.Login(r));
  }

  lemma RevokeIsLogout(cfg: Config, s: Sys, h: Digest, at: int)
    ensures Realises(SetupOf(cfg), s, [Inter.Logout(h, at)], TokenRevoke(h, at))
  {
    OneStep(SetupOf(cfg), WorldOf(s), Inter.Logout(h, at));
  }

  lemma {:induction false} ExecKeepsWorldInv(c: Inter.Setup, w: Inter.World, b: seq<Inter.Step>)
    requires Inter.WorldInv(c, w) && AllEnabled(c, w, b)
    ensures Inter.WorldInv(c, Exec(w, b))
    decreases |b|
  {
    if b != [] {
      Inter.StepKeepsWorldInv(c, w, b[0], 0);
      ExecKeepsWorldInv(c, Inter.Apply(w, b[0], 0), b[1..]);
    }
  }

  // ---------- invariants of serial runs ----------

  /** Serially, links and provenance coincide: a parent's link still is the one to its child. */
  ghost predicate LinksAreParents(t: Table) {
    forall i: nat, j: nat :: ParentOf(t, i, j) ==> Links(t, i, j)
  }

  ghost predicate SysInv(cfg: Config, s: Sys) {
    Inter.WorldInv(SetupOf(cfg), WorldOf(s)) && LinksAreParents(s.table)
  }

  lemma WriteKeepsLinksAreParents(ttl: int, t: Table, w: Write)
    requires Inv(ttl, t) && LinksAreParents(t)
    requires w.Rotation? || w.DeviceRevoke? ==> w.k < |t.rows|
    requires w.Rotation? ==> t.rows[w.k].replacedBy.None?
    requires w.Rotation? ==> Fresh(t.rows, w.row)
    ensures LinksAreParents(Perform(t, w))
  {
    var t' := Perform(t, w);
    if w.Rotation? {
      RotateTouchesOneRow(ttl, t, w.k, w.row);
    }
    forall i: nat, j: nat | ParentOf(t', i, j) ensures Links(t', i, j) {
      if j < |t.rows| {
        assert ParentOf(t, i, j) && Links(t, i, j);
      }
    }
  }

  lemma ServeKeepsLinksAreParents(cfg: Config, s: Sys, e: Event)
    requires SysInv(cfg, s) && MintsFresh(s, e.call)
    ensures LinksAreParents(Serve(cfg, s, e).0.table)
  {
    hide *;
    ServeWrites(cfg, s, e);
    SysInvTable(cfg, s);
    WriteFits(cfg, s, e, WriteOf(cfg, s, e), Serve(cfg, s, e).1);
    WriteKeepsLinksAreParents(cfg.refreshTTL, s.table, WriteOf(cfg, s, e));
  }

  lemma SysInvTable(cfg: Config, s: Sys)
    requires SysInv(cfg, s)
    ensures Inv(cfg.refreshTTL, s.table) && LinksAreParents(s.table)
  {
  }

  /** The row that a call's write rotates exists and is unreplaced, and its successor is fresh. */
  lemma WriteFits(cfg: Config, s: Sys, e: Event, w: Write, a: Answer)
    requires WriteOk(cfg, s, e, w, a)
    ensures w.Rotation? || w.DeviceRevoke? ==> w.k < |s.table.rows|
    ensures w.Rotation? ==> s.table.rows[w.k].replacedBy.None? && Fresh(s.table.rows, w.row)
  {
    hide Fresh, GrantMatches;
  }

  lemma ServeKeepsWorldInv(cfg: Config, s: Sys, e: Event)
    requires Inter.WorldInv(SetupOf(cfg), WorldOf(s)) && MintsFresh(s, e.call)
    ensures Inter.WorldInv(SetupOf(cfg), WorldOf(Serve(cfg, s, e).0))
  {
    hide *;
    CallIsAtomicSteps(cfg, s, e);
    ExecKeepsWorldInv(SetupOf(cfg), WorldOf(s), Block(cfg, s, e));
    ForgetRecords(SetupOf(cfg), Exec(WorldOf(s), Block(cfg, s, e)), Serve(cfg, s, e).0);
  }

  lemma ServeKeepsInv(cfg: Config, s: Sys, e: Event)
    requires SysInv(cfg, s) && MintsFresh(s, e.call)
    ensures SysInv(cfg, Serve(cfg, s, e).0)
  {
    hide Serve, MintsFresh, LinksAreParents, Inter.WorldInv;
    ServeKeepsLinksAreParents(cfg, s, e);
    ServeKeepsWorldInv(cfg, s, e);
  }

  lemma ForgetRecords(c: Inter.Setup, w: Inter.World, s: Sys)
    requires Inter.WorldInv(c, w) && w.table == s.table && w.users == s.users
    ensures Inter.WorldInv(c, WorldOf(s))
  {
  }

  lemma StartInv(cfg: Config)
    ensures SysInv(cfg, Sys([], EMPTY))
  {
  }

  /** Every reachable state of every serial run satisfies the invariant. */
  lemma {:induction false} SerialInv(cfg: Config, tr: Trace, n: nat)
    requires n <= |tr.events| && Valid(cfg, tr)
    ensures SysInv(cfg, tr.states[n])
  {
    if n == 0 {
      StartInv(cfg);
    } else {
      SerialInv(cfg, tr, n - 1);
      assert Runs(cfg, tr, n - 1);
      ServeKeepsInv(cfg, tr.states[n - 1], tr.events[n - 1]);
    }
  }

  lemma WritesGrow(t: Table, w: Write)
    requires w.Rotation? || w.DeviceRevoke? ==> w.k < |t.rows|
    ensures Grows(t, Perform(t, w))
  {
    match w
    case NoWrite =>
    case Insert(r) => StatementsGrow(t, r, "", 0, "", r.refreshHash, 0);
    case Rotation(k, r) => StatementsGrow(t, r, t.rows[k].jti, 0, "", r.refreshHash, 0);
    case DeviceRevoke(k, at) => StatementsGrow(t, t.rows[k], "", t.rows[k].userId, t.rows[k].deviceId, t.rows[k].refreshHash, at);
    case TokenRevoke(h, at) => TokenRevokeGrows(t, h, at);
  }

  lemma TokenRevokeGrows(t: Table, h: Digest, at: int)
    ensures Grows(t, RevokeHash(t, h, at))
  {
  }

  lemma CallGrows(cfg: Config, s: Sys, e: Event)
    requires MintsFresh(s, e.call)
    ensures Grows(s.table, Serve(cfg, s, e).0.table) && s.users <= Serve(cfg, s, e).0.users
  {
    ServeWrites(cfg, s, e);
    WritesGrow(s.table, WriteOf(cfg, s, e));
  }

  lemma {:induction false} SerialGrows(cfg: Config, tr: Trace, m: nat, n: nat)
    requires m <= n <= |tr.events| && Valid(cfg, tr)
    ensures Grows(tr.states[m].table, tr.states[n].table)
    ensures tr.states[m].users <= tr.states[n].users
    decreases n
  {
    if m == n {
      GrowsReflexive(tr.states[m].table);
    } else {
      SerialGrows(cfg, tr, m, n - 1);
      assert Runs(cfg, tr, n - 1);
      CallGrows(cfg, tr.states[n - 1], tr.events[n - 1]);
      GrowsTransitive(tr.states[m].table, tr.states[n - 1].table, tr.states[n].table);
    }
  }
}
