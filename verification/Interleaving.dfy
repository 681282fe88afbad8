/** The session protocol under concurrency. Every SQL statement or transaction is one atomic step;
    a Refresh is a read followed, any number of steps later, by its Rotate transaction or, when it
    met a used token, by its bulk revoke. Other calls run in between. */
module Interleaving {
  import opened Base
  import opened Domain
  import opened SessionTable
  import opened Users

  /** Refresh's verdict on the row it read. The order of the tests is part of the protocol. */
  datatype Decision = Revoked | Expired | Reused | Proceed

  function Decide(r: Row, now: int): Decision {
    if r.revokedAt.Some? then Revoked
    else if now > r.expiresAt then Expired
    else if r.replacedBy.Some? then Reused
    else Proceed
  }

  /** Refresh accepts exactly the unreplaced rows that are active or sit at their expiry instant,
      which Session.IsExpired already counts as expired. */
  lemma DecideAgainstIsActive(r: Row, now: int)
    ensures Decide(r, now) == Proceed
       <==> r.replacedBy.None? && (r.IsActive(now) || (now == r.expiresAt && !r.IsRevoked()))
    ensures r.IsActive(now) <==> r.revokedAt.None? && now < r.expiresAt
    ensures r.IsExpired(now) <==> r.expiresAt <= now
  {
  }

  /** A Refresh between its read and its write: the row it read, its copy, its clock reading, and
      the number of steps that had run. */
  datatype Pending = Pending(row: nat, copy: Row, now: int, readAt: nat)

  /** A completed rotation: of which row, read and committed at which steps. */
  datatype Commit = Commit(row: nat, now: int, readAt: nat, commitAt: nat)

  /** An access token handed out: for whom, on account of which row. */
  datatype Issued = Issued(sub: IdText, row: nat)

  datatype World = World(
    users: seq<User>,
    table: Table,
    pending: map<nat, Pending>,
    commits: seq<Commit>,
    issued: seq<Issued>)

  datatype Step =
    | Register(user: User, rawEmail: string)
    | Login(row: Row)
    | Read(call: nat, h: Digest, now: int)
    | Rotate(call: nat, row: Row)
    | RevokeReused(call: nat)
    | Abandon(call: nat)
    | Logout(h: Digest, at: int)

  datatype Setup = Setup(ttl: int, fold: Folding, validAddress: string -> bool)

  const START := World([], EMPTY, map[], [], [])

  /** The row a Rotate inserts for a pending refresh: owner and times come from the read, the
      token and JTI are newly minted, the device is the request's. */
  ghost predicate Successor(c: Setup, p: Pending, r: Row) {
    && r.userId == p.copy.userId && r.createdAt == p.now && r.expiresAt == p.now + c.ttl
    && r == r.Stored()
  }

  /** Minted tokens and JTIs are new; a login is by an existing user. Times are arbitrary. */
  ghost predicate Enabled(c: Setup, w: World, s: Step) {
    match s
    case Register(u, rawEmail) =>
      Insertable(c.fold, w.users, u) && u.id != 0 && ParseEmail(c.validAddress, rawEmail) == Ok(u.email)
    case Login(r) =>
      && HasId(w.users, r.userId)
      && Fresh(w.table.rows, r) && r == r.Stored() && r.expiresAt == r.createdAt + c.ttl
    case Read(call, _, _) => call !in w.pending
    case Rotate(call, r) =>
      && call in w.pending && Decide(w.pending[call].copy, w.pending[call].now) == Proceed
      && Successor(c, w.pending[call], r) && Fresh(w.table.rows, r)
    case RevokeReused(call) =>
      call in w.pending && Decide(w.pending[call].copy, w.pending[call].now) == Reused
    case Abandon(call) => call in w.pending
    case Logout(_, _) => true
  }

  /** What step number n does. A read that finds nothing to do answers at once; a write on behalf
      of no pending call does nothing. */
  function Apply(w: World, s: Step, n: nat): World {
    match s
    case Register(u, _) => w.(users := w.users + [u])
    case Login(r) =>
      w.(table := Create(w.table, r), issued := w.issued + [Issued(Uuid(r.userId), |w.table.rows|)])
    case Read(call, h, now) =>
      (match FindHash(w.table.rows, h)
       case None => w
       case Some(k) =>
         if Decide(w.table.rows[k], now) in {Reused, Proceed}
         then w.(pending := w.pending[call := Pending(k, w.table.rows[k], now, n)])
         else w)
    case Rotate(call, r) =>
      if call !in w.pending then w else
      var p := w.pending[call];
      w.(table := SessionTable.Rotate(w.table, p.copy.jti, r),
         pending := w.pending - {call},
         commits := w.commits + [Commit(p.row, p.now, p.readAt, n)],
         issued := w.issued + [Issued(Uuid(p.copy.userId), p.row)])
    case RevokeReused(call) =>
      if call !in w.pending then w else
      var p := w.pending[call];
      w.(table := RevokeDevice(w.table, p.copy.userId, p.copy.deviceId, p.now), pending := w.pending - {call})
    case Abandon(call) => w.(pending := w.pending - {call})
    case Logout(h, at) => w.(table := RevokeHash(w.table, h, at))
  }

  /** A run: its steps, and the states before, between and after them. */
  datatype RawTrace = RawTrace(steps: seq<Step>, worlds: seq<World>)

  type Trace = tr: RawTrace | |tr.worlds| == |tr.steps| + 1 witness RawTrace([], [START])

  ghost predicate Runs(c: Setup, tr: Trace, i: nat) {
    && i < |tr.steps|
    && Enabled(c, tr.worlds[i], tr.steps[i])
    && tr.worlds[i + 1] == Apply(tr.worlds[i], tr.steps[i], i)
  }

  ghost predicate Valid(c: Setup, tr: Trace) {
    tr.worlds[0] == START && forall i: nat :: i < |tr.steps| ==> Runs(c, tr, i)
  }

  function Last(tr: Trace): World {
    tr.worlds[|tr.steps|]
  }

  /** The run that goes on with step s. */
  function Extend(tr: Trace, s: Step): Trace {
    RawTrace(tr.steps + [s], tr.worlds + [Apply(Last(tr), s, |tr.steps|)])
  }

  predicate Continues(tr: Trace, tr': Trace) {
    tr.steps <= tr'.steps && tr.worlds <= tr'.worlds
  }

  lemma ExtendIsValid(c: Setup, tr: Trace, s: Step)
    requires Valid(c, tr) && Enabled(c, Last(tr), s)
    ensures Valid(c, Extend(tr, s)) && Continues(tr, Extend(tr, s))
    ensures Last(Extend(tr, s)) == Apply(Last(tr), s, |tr.steps|)
  {
    hide Apply, Enabled;
    var tr' := Extend(tr, s);
    forall i: nat | i < |tr'.steps| ensures Runs(c, tr', i) {
      if i < |tr.steps| {
        assert Runs(c, tr, i);
      }
    }
  }

  // ---------- what each step does ----------

  /** A read changes nothing but its own call, which becomes pending exactly when it found an unrevoked
      row within its time, used or not; it then keeps the row as it found it. */
  lemma ReadOutcome(w: World, call: nat, h: Digest, now: int, n: nat)
    requires Distinct(w.table.rows) && call !in w.pending
    ensures var w' := Apply(w, Read(call, h, now), n);
            && w'.users == w.users && w'.table == w.table && w'.commits == w.commits && w'.issued == w.issued
            && w'.pending - {call} == w.pending
            && (forall k: nat :: k < |w.table.rows| && w.table.rows[k].refreshHash == h ==>
                  var r := w.table.rows[k];
                  && (call in w'.pending <==> r.revokedAt.None? && now <= r.expiresAt)
                  && (call in w'.pending ==> w'.pending[call] == Pending(k, r, now, n)))
            && ((forall r :: r in w.table.rows ==> r.refreshHash != h) ==> call !in w'.pending)
  {
    var found := FindHash(w.table.rows, h);
    if found.Some? {
      assert w.table.rows[found.value] in w.table.rows;
    }
  }

  /** The write of a refresh links its row and adds the successor; that of a reuse detection revokes the
      unrevoked rows of the user and device it read. Both end their call. */
  lemma WriteOutcome(w: World, call: nat, r: Row, n: nat)
    requires Distinct(w.table.rows) && Fresh(w.table.rows, r) && call in w.pending && w.pending[call].row < |w.table.rows|
    requires w.pending[call].copy.jti == w.table.rows[w.pending[call].row].jti
    ensures var p, rows := w.pending[call], w.table.rows;
            && Apply(w, Rotate(call, r), n)
            == World(w.users,
                     Table(rows[p.row := rows[p.row].(replacedBy := Some(r.jti))] + [r], w.table.parents + [Some(p.row)]),
                     w.pending - {call},
                     w.commits + [Commit(p.row, p.now, p.readAt, n)],
                     w.issued + [Issued(Uuid(p.copy.userId), p.row)])
            && var w' := Apply(w, RevokeReused(call), n);
               && w' == w.(table := w'.table, pending := w.pending - {call})
               && w'.table.parents == w.table.parents && |w'.table.rows| == |rows|
               && forall i :: 0 <= i < |rows| ==>
                    var hit := rows[i].userId == p.copy.userId && rows[i].deviceId == p.copy.deviceId && rows[i].revokedAt.None?;
                    w'.table.rows[i] == if hit then rows[i].(revokedAt := Some(p.now)) else rows[i]
  {
    var p := w.pending[call];
    assert FindJti(w.table.rows, p.copy.jti) == Some(p.row);
    assert Linked(w.table.rows + [r], p.copy.jti, r.jti)
        == w.table.rows[p.row := w.table.rows[p.row].(replacedBy := Some(r.jti))] + [r];
    hide FindJti;
  }

  // ---------- monotonicity ----------

  lemma ApplyGrows(w: World, s: Step, n: nat)
    ensures Grows(w.table, Apply(w, s, n).table)
    ensures w.users <= Apply(w, s, n).users && w.issued <= Apply(w, s, n).issued
  {
    match s
    case Login(r) => StatementsGrow(w.table, r, "", 0, "", r.refreshHash, 0);
    case Rotate(call, r) =>
      if call in w.pending {
        StatementsGrow(w.table, r, w.pending[call].copy.jti, 0, "", r.refreshHash, 0);
      }
    case RevokeReused(call) =>
      if call in w.pending {
        var p := w.pending[call];
        StatementsGrow(w.table, p.copy, "", p.copy.userId, p.copy.deviceId, p.copy.refreshHash, p.now);
      }
    case Logout(h, at) =>
    case _ =>
  }

  /** In every interleaving a later table extends an earlier one: rows stay, columns are immutable,
      a link never returns to null, and revoked_at never changes once set. */
  lemma {:induction false} TableOnlyGrows(c: Setup, tr: Trace, m: nat, n: nat)
    requires m <= n <= |tr.steps| && Valid(c, tr)
    ensures Grows(tr.worlds[m].table, tr.worlds[n].table)
    ensures tr.worlds[m].users <= tr.worlds[n].users
    decreases n
  {
    hide Apply, Enabled, Grows;
    if m == n {
      GrowsReflexive(tr.worlds[m].table);
    } else {
      TableOnlyGrows(c, tr, m, n - 1);
      assert Runs(c, tr, n - 1);
      ApplyGrows(tr.worlds[n - 1], tr.steps[n - 1], n - 1);
      GrowsTransitive(tr.worlds[m].table, tr.worlds[n - 1].table, tr.worlds[n].table);
    }
  }

  // ---------- the state invariant ----------

  ghost predicate PendingOk(w: World, p: Pending) {
    p.row < |w.table.rows| && RowGrows(p.copy, w.table.rows[p.row])
  }

  ghost predicate RowsOwned(w: World) {
    forall k :: 0 <= k < |w.table.rows| ==> HasId(w.users, w.table.rows[k].userId)
  }

  ghost predicate IssuedOk(w: World, x: Issued) {
    x.row < |w.table.rows| && x.sub == Uuid(w.table.rows[x.row].userId)
  }

  ghost predicate WorldInv(c: Setup, w: World) {
    && Inv(c.ttl, w.table)
    && UsersInv(c.fold, c.validAddress, w.users)
    && RowsOwned(w)
    && (forall call :: call in w.pending ==> PendingOk(w, w.pending[call]))
    && (forall i :: 0 <= i < |w.issued| ==> IssuedOk(w, w.issued[i]))
  }

  lemma TableStepKeepsInv(c: Setup, w: World, s: Step, n: nat)
    requires WorldInv(c, w) && Enabled(c, w, s)
    ensures Inv(c.ttl, Apply(w, s, n).table)
  {
    hide Inv, UsersInv, RowsOwned;
    match s
    case Login(r) => CreateKeepsInv(c.ttl, w.table, r);
    case Rotate(call, r) =>
      var p := w.pending[call];
      assert PendingOk(w, p);
      RotateKeepsInv(c.ttl, w.table, p.row, r);
    case RevokeReused(call) =>
      var p := w.pending[call];
      RevokeKeepsInv(c.ttl, w.table, DeviceRevoked(w.table.rows, p.copy.userId, p.copy.deviceId, p.now));
    case Logout(h, at) => RevokeKeepsInv(c.ttl, w.table, HashRevoked(w.table.rows, h, at));
    case _ =>
  }

  lemma StepKeepsRowsOwned(c: Setup, w: World, s: Step, n: nat)
    requires WorldInv(c, w) && Enabled(c, w, s)
    ensures RowsOwned(Apply(w, s, n))
  {
    var w' := Apply(w, s, n);
    ApplyGrows(w, s, n);
    hide Inv, UsersInv, HasId;
    forall k | 0 <= k < |w'.table.rows| ensures HasId(w'.users, w'.table.rows[k].userId) {
      if k < |w.table.rows| {
        assert RowGrows(w.table.rows[k], w'.table.rows[k]);
        HasIdGrows(w.users, w'.users, w.table.rows[k].userId);
      } else if s.Rotate? {
        var p := w.pending[s.call];
        assert PendingOk(w, p);
        HasIdGrows(w.users, w'.users, w.table.rows[p.row].userId);
      }
    }
  }

  lemma HasIdGrows(users: seq<User>, users': seq<User>, id: UserId)
    requires HasId(users, id) && users <= users'
    ensures HasId(users', id)
  {
    var k :| 0 <= k < |users| && users[k].id == id;
    assert users'[k].id == id;
  }

  lemma PendingSurvives(w: World, w': World, p: Pending)
    requires Grows(w.table, w'.table) && PendingOk(w, p)
    ensures PendingOk(w', p)
  {
    assert RowGrows(w.table.rows[p.row], w'.table.rows[p.row]);
  }

  lemma IssuedSurvives(w: World, w': World, x: Issued)
    requires Grows(w.table, w'.table) && IssuedOk(w, x)
    ensures IssuedOk(w', x)
  {
    assert RowGrows(w.table.rows[x.row], w'.table.rows[x.row]);
  }

  lemma StepKeepsPending(c: Setup, w: World, s: Step, n: nat)
    requires WorldInv(c, w)
    ensures var w' := Apply(w, s, n); forall call :: call in w'.pending ==> PendingOk(w', w'.pending[call])
  {
    var w' := Apply(w, s, n);
    ApplyGrows(w, s, n);
    hide Inv, UsersInv, RowsOwned, Grows, SessionTable.Rotate, RevokeDevice, RevokeHash, Create;
    forall call | call in w'.pending ensures PendingOk(w', w'.pending[call]) {
      if call in w.pending && w'.pending[call] == w.pending[call] {
        PendingSurvives(w, w', w.pending[call]);
      }
    }
  }

  lemma StepKeepsIssued(c: Setup, w: World, s: Step, n: nat)
    requires WorldInv(c, w)
    ensures var w' := Apply(w, s, n); forall i :: 0 <= i < |w'.issued| ==> IssuedOk(w', w'.issued[i])
  {
    var w' := Apply(w, s, n);
    ApplyGrows(w, s, n);
    forall i | 0 <= i < |w'.issued| ensures IssuedOk(w', w'.issued[i]) {
      if i < |w.issued| {
        assert IssuedOk(w, w.issued[i]);
        IssuedSurvives(w, w', w.issued[i]);
      } else if s.Rotate? {
        var p := w.pending[s.call];
        assert PendingOk(w, p);
        PendingSurvives(w, w', p);
      }
    }
  }

  /** Every reachable state of every interleaving satisfies the invariant; with it, what
      SessionTable proves of links, chains and expiry holds there. */
  lemma StepKeepsWorldInv(c: Setup, w: World, s: Step, n: nat)
    requires WorldInv(c, w) && Enabled(c, w, s)
    ensures WorldInv(c, Apply(w, s, n))
  {
    TableStepKeepsInv(c, w, s, n);
    StepKeepsRowsOwned(c, w, s, n);
    StepKeepsPending(c, w, s, n);
    StepKeepsIssued(c, w, s, n);
    StepKeepsUsers(c, w, s, n);
  }

  lemma StepKeepsUsers(c: Setup, w: World, s: Step, n: nat)
    requires WorldInv(c, w) && Enabled(c, w, s)
    ensures UsersInv(c.fold, c.validAddress, Apply(w, s, n).users)
  {
    if s.Register? {
      InsertKeepsInv(c.fold, c.validAddress, w.users, s.user, s.rawEmail);
    }
  }

  lemma {:induction false} InterleavingInv(c: Setup, tr: Trace, n: nat)
    requires n <= |tr.steps| && Valid(c, tr)
    ensures WorldInv(c, tr.worlds[n])
  {
    hide *;
    if n == 0 {
      StartKeepsInv(c, tr);
    } else {
      InterleavingInv(c, tr, n - 1);
      RunsStep(c, tr, n - 1);
      StepKeepsWorldInv(c, tr.worlds[n - 1], tr.steps[n - 1], n - 1);
    }
  }

  lemma StartKeepsInv(c: Setup, tr: Trace)
    requires Valid(c, tr)
    ensures WorldInv(c, tr.worlds[0])
  {
    assert tr.worlds[0] == START;
    hide Valid;
  }

  lemma RunsStep(c: Setup, tr: Trace, i: nat)
    requires i < |tr.steps| && Valid(c, tr)
    ensures Enabled(c, tr.worlds[i], tr.steps[i]) && tr.worlds[i + 1] == Apply(tr.worlds[i], tr.steps[i], i)
  {
    assert Runs(c, tr, i);
    hide Apply, Enabled;
  }

  // ---------- when a rotation may commit ----------

  /** When row k was read, after the first m steps, it was live: unrevoked, unreplaced, unexpired. */
  ghost predicate LiveAt(tr: Trace, m: nat, k: nat, now: int) {
    && m <= |tr.steps|
    && k < |tr.worlds[m].table.rows|
    && Decide(tr.worlds[m].table.rows[k], now) == Proceed
  }

  ghost predicate ReplacedAt(tr: Trace, m: nat, k: nat) {
    && m <= |tr.steps|
    && k < |tr.worlds[m].table.rows|
    && tr.worlds[m].table.rows[k].replacedBy.Some?
  }

  ghost predicate RevokedAt(tr: Trace, m: nat, k: nat) {
    && m <= |tr.steps|
    && k < |tr.worlds[m].table.rows|
    && tr.worlds[m].table.rows[k].revokedAt.Some?
  }

  /** Call holds row k: it has read it live and has not yet written. */
  predicate Holds(w: World, call: nat, k: nat) {
    call in w.pending && w.pending[call].row == k && Decide(w.pending[call].copy, w.pending[call].now) == Proceed
  }

  /** Step m is the call's read of row k's token, at clock reading now. */
  predicate ReadBy(tr: Trace, m: nat, call: nat, k: nat, now: int) {
    && m < |tr.steps| && k < |tr.worlds[m].table.rows|
    && tr.steps[m] == Read(call, tr.worlds[m].table.rows[k].refreshHash, now)
  }

  /** A commit is the write of the call that read the row's token, found the row live, and held it
      until then; from the commit on the row is replaced. */
  ghost predicate CommitSound(tr: Trace, n: nat, x: Commit) {
    && x.readAt < x.commitAt < n
    && x.commitAt < |tr.steps| && tr.steps[x.commitAt].Rotate?
    && ReadBy(tr, x.readAt, tr.steps[x.commitAt].call, x.row, x.now)
    && LiveAt(tr, x.readAt, x.row, x.now)
    && Holds(tr.worlds[x.commitAt], tr.steps[x.commitAt].call, x.row)
    && tr.worlds[x.commitAt].pending[tr.steps[x.commitAt].call].readAt == x.readAt
    && (forall m: nat :: x.commitAt < m <= n ==> ReplacedAt(tr, m, x.row))
  }

  ghost predicate PendingSound(tr: Trace, n: nat, call: nat, p: Pending) {
    && p.readAt < n <= |tr.steps|
    && ReadBy(tr, p.readAt, call, p.row, p.now)
    && p.copy == tr.worlds[p.readAt].table.rows[p.row]
  }

  ghost predicate CommitsOk(tr: Trace, n: nat)
    requires n <= |tr.steps|
  {
    && (forall i :: 0 <= i < |tr.worlds[n].commits| ==> CommitSound(tr, n, tr.worlds[n].commits[i]))
    && (forall call :: call in tr.worlds[n].pending ==> PendingSound(tr, n, call, tr.worlds[n].pending[call]))
    && (forall i, j :: 0 <= i < j < |tr.worlds[n].commits| ==>
          tr.worlds[n].commits[i].commitAt < tr.worlds[n].commits[j].commitAt)
  }

  /** A rotation replaces the row that its call had read. */
  lemma RotationReplaces(c: Setup, tr: Trace, n: nat)
    requires n < |tr.steps| && Valid(c, tr) && tr.steps[n].Rotate? && tr.steps[n].call in tr.worlds[n].pending
    ensures ReplacedAt(tr, n + 1, tr.worlds[n].pending[tr.steps[n].call].row)
  {
    InterleavingInv(c, tr, n);
    var w, s := tr.worlds[n], tr.steps[n];
    assert Runs(c, tr, n);
    var p := w.pending[s.call];
    assert PendingOk(w, p);
    RotateTouchesOneRow(c.ttl, w.table, p.row, s.row);
  }

  lemma ReplacedStays(c: Setup, tr: Trace, n: nat, k: nat)
    requires n < |tr.steps| && Valid(c, tr) && ReplacedAt(tr, n, k)
    ensures ReplacedAt(tr, n + 1, k)
  {
    hide Apply, Enabled, Valid;
    TableOnlyGrows(c, tr, n, n + 1);
    assert RowGrows(tr.worlds[n].table.rows[k], tr.worlds[n + 1].table.rows[k]);
  }

  /** What a step adds to the records is a pending call it has just read, or the commit of one. */
  lemma StepRecords(c: Setup, tr: Trace, n: nat)
    requires n < |tr.steps| && Valid(c, tr)
    ensures var w, w' := tr.worlds[n], tr.worlds[n + 1];
            && (w'.commits == w.commits
                || (tr.steps[n].Rotate? && tr.steps[n].call in w.pending
                    && var p := w.pending[tr.steps[n].call];
                       Decide(p.copy, p.now) == Proceed && w'.commits == w.commits + [Commit(p.row, p.now, p.readAt, n)]))
            && (forall call :: call in w'.pending ==>
                  var p := w'.pending[call];
                  || (call in w.pending && p == w.pending[call])
                  || (ReadBy(tr, n, call, p.row, p.now) && p.readAt == n && p.copy == w.table.rows[p.row]))
  {
    assert Runs(c, tr, n);
  }

  lemma StepKeepsCommitSound(c: Setup, tr: Trace, n: nat, x: Commit)
    requires n < |tr.steps| && Valid(c, tr) && CommitSound(tr, n, x)
    ensures CommitSound(tr, n + 1, x)
  {
    hide Valid, LiveAt, ReadBy, Holds;
    ReplacedStays(c, tr, n, x.row);
  }

  lemma NewCommitSound(c: Setup, tr: Trace, n: nat)
    requires n < |tr.steps| && Valid(c, tr)
    requires tr.steps[n].Rotate? && tr.steps[n].call in tr.worlds[n].pending
    requires PendingSound(tr, n, tr.steps[n].call, tr.worlds[n].pending[tr.steps[n].call])
    requires var p := tr.worlds[n].pending[tr.steps[n].call]; Decide(p.copy, p.now) == Proceed
    ensures var p := tr.worlds[n].pending[tr.steps[n].call]; CommitSound(tr, n + 1, Commit(p.row, p.now, p.readAt, n))
  {
    hide Valid;
    RotationReplaces(c, tr, n);
  }

  lemma StepKeepsCommitsSound(c: Setup, tr: Trace, n: nat)
    requires n < |tr.steps| && Valid(c, tr) && CommitsOk(tr, n)
    ensures var w' := tr.worlds[n + 1];
            && (forall i :: 0 <= i < |w'.commits| ==> CommitSound(tr, n + 1, w'.commits[i]))
            && (forall i, j :: 0 <= i < j < |w'.commits| ==> w'.commits[i].commitAt < w'.commits[j].commitAt)
  {
    hide Valid, PendingSound, Decide;
    StepRecords(c, tr, n);
    var w, w' := tr.worlds[n], tr.worlds[n + 1];
    forall i | 0 <= i < |w'.commits| ensures CommitSound(tr, n + 1, w'.commits[i]) {
      if i < |w.commits| {
        StepKeepsCommitSound(c, tr, n, w.commits[i]);
      } else {
        NewCommitSound(c, tr, n);
      }
    }
    forall i, j | 0 <= i < j < |w'.commits| ensures w'.commits[i].commitAt < w'.commits[j].commitAt {
      if j == |w.commits| {
        assert CommitSound(tr, n, w.commits[i]);
      }
    }
  }

  lemma StepKeepsPendingSound(c: Setup, tr: Trace, n: nat)
    requires n < |tr.steps| && Valid(c, tr) && CommitsOk(tr, n)
    ensures var w' := tr.worlds[n + 1];
            forall call :: call in w'.pending ==> PendingSound(tr, n + 1, call, w'.pending[call])
  {
    hide Valid, CommitSound, ReadBy;
    StepRecords(c, tr, n);
    var w, w' := tr.worlds[n], tr.worlds[n + 1];
    forall call | call in w'.pending ensures PendingSound(tr, n + 1, call, w'.pending[call]) {
      if call in w.pending && w'.pending[call] == w.pending[call] {
        assert PendingSound(tr, n, call, w.pending[call]);
      }
    }
  }

  lemma StepKeepsCommitsOk(c: Setup, tr: Trace, n: nat)
    requires n < |tr.steps| && Valid(c, tr) && CommitsOk(tr, n)
    ensures CommitsOk(tr, n + 1)
  {
    StepKeepsCommitsSound(c, tr, n);
    StepKeepsPendingSound(c, tr, n);
    hide PendingSound, CommitSound, Valid;
  }

  /** Every commit of a run rotated the row of the token that the same call had presented, read it
      live, and left it replaced ever after; and the records are in the order of the commits. */
  lemma {:induction false} CommitsAreSound(c: Setup, tr: Trace, n: nat)
    requires n <= |tr.steps| && Valid(c, tr)
    ensures CommitsOk(tr, n)
  {
    if n > 0 {
      hide *;
      CommitsAreSound(c, tr, n - 1);
      StepKeepsCommitsOk(c, tr, n - 1);
    } else {
      StartHasNoRecords(c, tr);
    }
  }

  lemma StartHasNoRecords(c: Setup, tr: Trace)
    requires Valid(c, tr)
    ensures CommitsOk(tr, 0)
  {
    assert tr.worlds[0] == START;
    hide Valid;
  }

  /** Every bulk revoke of a run is on behalf of a call whose read found the presented token's row used,
      unrevoked and within its time. */
  lemma BulkRevokesAreSound(c: Setup, tr: Trace, n: nat)
    requires n < |tr.steps| && Valid(c, tr) && tr.steps[n].RevokeReused?
    ensures tr.steps[n].call in tr.worlds[n].pending
    ensures var p := tr.worlds[n].pending[tr.steps[n].call];
            && p.readAt < n && ReadBy(tr, p.readAt, tr.steps[n].call, p.row, p.now)
            && p.copy == tr.worlds[p.readAt].table.rows[p.row]
            && p.copy.replacedBy.Some? && p.copy.revokedAt.None? && p.now <= p.copy.expiresAt
  {
    RunsStep(c, tr, n);
    hide Valid, ReadBy, CommitSound;
    CommitsAreSound(c, tr, n);
    assert PendingSound(tr, n, tr.steps[n].call, tr.worlds[n].pending[tr.steps[n].call]);
  }

  /** A row replaced after m steps is not found live at any later read. */
  lemma ReplacedIsNotLive(c: Setup, tr: Trace, m: nat, m': nat, k: nat, now: int)
    requires m <= m' <= |tr.steps| && Valid(c, tr) && ReplacedAt(tr, m, k)
    ensures !LiveAt(tr, m', k, now)
  {
    TableOnlyGrows(c, tr, m, m');
    assert RowGrows(tr.worlds[m].table.rows[k], tr.worlds[m'].table.rows[k]);
  }

  /** Nor is a revoked one. */
  lemma RevokedIsNotLive(c: Setup, tr: Trace, m: nat, m': nat, k: nat, now: int)
    requires m <= m' <= |tr.steps| && Valid(c, tr) && RevokedAt(tr, m, k)
    ensures !LiveAt(tr, m', k, now)
  {
    TableOnlyGrows(c, tr, m, m');
    assert RowGrows(tr.worlds[m].table.rows[k], tr.worlds[m'].table.rows[k]);
  }

  /** The token that the call of commit x presented. */
  function TokenOf(tr: Trace, x: Commit): Option<Digest> {
    if x.readAt < |tr.steps| && tr.steps[x.readAt].Read? then Some(tr.steps[x.readAt].h) else None
  }

  /** A commit's row, at any later state, is the one row of the token its call presented. */
  lemma CommittedToken(c: Setup, tr: Trace, n: nat, i: nat)
    requires n <= |tr.steps| && Valid(c, tr) && i < |tr.worlds[n].commits|
    ensures var x := tr.worlds[n].commits[i];
            && x.row < |tr.worlds[n].table.rows|
            && TokenOf(tr, x) == Some(tr.worlds[n].table.rows[x.row].refreshHash)
  {
    hide Valid, Apply, Enabled;
    CommitsAreSound(c, tr, n);
    var x := tr.worlds[n].commits[i];
    assert CommitSound(tr, n, x);
    TableOnlyGrows(c, tr, x.readAt, n);
    assert RowGrows(tr.worlds[x.readAt].table.rows[x.row], tr.worlds[n].table.rows[x.row]);
  }

  /** Commits of one token are commits of one row. */
  lemma SameTokenSameRow(c: Setup, tr: Trace, n: nat, i: nat, j: nat)
    requires n <= |tr.steps| && Valid(c, tr)
    requires i < |tr.worlds[n].commits| && j < |tr.worlds[n].commits|
    ensures var a, b := tr.worlds[n].commits[i], tr.worlds[n].commits[j];
            TokenOf(tr, a) == TokenOf(tr, b) <==> a.row == b.row
  {
    hide Valid;
    CommittedToken(c, tr, n, i);
    CommittedToken(c, tr, n, j);
    InterleavingInv(c, tr, n);
    assert Distinct(tr.worlds[n].table.rows);
  }

  /** A call that is pending after n steps has been pending, unchanged, ever since its read. */
  lemma {:induction false} PendingSince(c: Setup, tr: Trace, m: nat, n: nat, call: nat)
    requires m <= n <= |tr.steps| && Valid(c, tr)
    requires call in tr.worlds[n].pending && tr.worlds[n].pending[call].readAt < m
    ensures call in tr.worlds[m].pending && tr.worlds[m].pending[call] == tr.worlds[n].pending[call]
    decreases n
  {
    if m < n {
      hide *;
      StepRecords(c, tr, n - 1);
      PendingSince(c, tr, m, n - 1, call);
    }
  }

  /** A call that commits holds its row at every moment between its read and its commit. */
  lemma HoldsUntilCommit(c: Setup, tr: Trace, n: nat, i: nat, m: nat)
    requires n <= |tr.steps| && Valid(c, tr) && i < |tr.worlds[n].commits|
    requires tr.worlds[n].commits[i].readAt < m <= tr.worlds[n].commits[i].commitAt
    ensures var x := tr.worlds[n].commits[i];
            && x.commitAt < |tr.steps| && tr.steps[x.commitAt].Rotate?
            && Holds(tr.worlds[m], tr.steps[x.commitAt].call, x.row)
            && tr.worlds[m].pending[tr.steps[x.commitAt].call].readAt == x.readAt
  {
    hide Valid, Decide;
    CommitsAreSound(c, tr, n);
    var x := tr.worlds[n].commits[i];
    assert CommitSound(tr, n, x);
    PendingSince(c, tr, m, x.commitAt, tr.steps[x.commitAt].call);
  }

  /** After a step that commits, its call is no longer pending. */
  lemma CommitEndsCall(c: Setup, tr: Trace, n: nat)
    requires n < |tr.steps| && Valid(c, tr) && tr.steps[n].Rotate?
    ensures tr.steps[n].call !in tr.worlds[n + 1].pending
  {
    assert Runs(c, tr, n);
  }

  /** All successful refreshes of one token read its row before the first of them committed; so two
      of them are two calls that, at some moment, held the row together. */
  lemma SuccessesOverlap(c: Setup, tr: Trace, n: nat, i: nat, j: nat) returns (m: nat)
    requires n <= |tr.steps| && Valid(c, tr)
    requires i < j < |tr.worlds[n].commits|
    requires TokenOf(tr, tr.worlds[n].commits[i]) == TokenOf(tr, tr.worlds[n].commits[j])
    ensures var a, b := tr.worlds[n].commits[i], tr.worlds[n].commits[j];
            && a.row == b.row && b.readAt < a.commitAt < b.commitAt < |tr.steps|
            && tr.steps[a.commitAt].Rotate? && tr.steps[b.commitAt].Rotate?
            && tr.steps[a.commitAt].call != tr.steps[b.commitAt].call
            && m <= a.commitAt
            && Holds(tr.worlds[m], tr.steps[a.commitAt].call, a.row)
            && Holds(tr.worlds[m], tr.steps[b.commitAt].call, a.row)
  {
    hide Valid, Holds, TokenOf;
    SameTokenSameRow(c, tr, n, i, j);
    CommitsAreSound(c, tr, n);
    var a, b := tr.worlds[n].commits[i], tr.worlds[n].commits[j];
    assert CommitSound(tr, n, a) && CommitSound(tr, n, b);
    hide CommitsOk;
    if a.commitAt < b.readAt {
      assert ReplacedAt(tr, a.commitAt + 1, a.row);
      ReplacedIsNotLive(c, tr, a.commitAt + 1, b.readAt, a.row, b.now);
    }
    assert b.readAt != a.commitAt;
    m := a.commitAt;
    HoldsUntilCommit(c, tr, n, i, m);
    HoldsUntilCommit(c, tr, n, j, m);
    CommitEndsCall(c, tr, m);
    HoldsUntilCommit(c, tr, n, j, m + 1);
    HolderIsPending(tr.worlds[m + 1], tr.steps[b.commitAt].call, b.row);
  }

  lemma HolderIsPending(w: World, call: nat, k: nat)
    requires Holds(w, call, k)
    ensures call in w.pending
  {
  }

  /** Calls on one token that do not overlap succeed at most once between them. */
  lemma NonOverlappingSucceedOnce(c: Setup, tr: Trace, n: nat, i: nat, j: nat)
    requires n <= |tr.steps| && Valid(c, tr)
    requires i < |tr.worlds[n].commits| && j < |tr.worlds[n].commits|
    requires var a, b := tr.worlds[n].commits[i], tr.worlds[n].commits[j];
             TokenOf(tr, a) == TokenOf(tr, b) && (a.commitAt <= b.readAt || b.commitAt <= a.readAt)
    ensures i == j
  {
    hide *;
    CommitTimes(c, tr, n, i);
    CommitTimes(c, tr, n, j);
    if i < j {
      var _ := SuccessesOverlap(c, tr, n, i, j);
    } else if j < i {
      var _ := SuccessesOverlap(c, tr, n, j, i);
    }
  }

  lemma CommitTimes(c: Setup, tr: Trace, n: nat, i: nat)
    requires n <= |tr.steps| && Valid(c, tr) && i < |tr.worlds[n].commits|
    ensures tr.worlds[n].commits[i].readAt < tr.worlds[n].commits[i].commitAt < n
  {
    hide Valid;
    CommitsAreSound(c, tr, n);
    assert CommitSound(tr, n, tr.worlds[n].commits[i]);
  }

  /** Revocation is a barrier: once a row is revoked, no refresh that reads it afterwards commits. */
  lemma RevocationIsABarrier(c: Setup, tr: Trace, m: nat, n: nat, i: nat)
    requires m <= n <= |tr.steps| && Valid(c, tr)
    requires i < |tr.worlds[n].commits| && RevokedAt(tr, m, tr.worlds[n].commits[i].row)
    ensures tr.worlds[n].commits[i].readAt < m
  {
    CommitsAreSound(c, tr, n);
    var x := tr.worlds[n].commits[i];
    assert CommitSound(tr, n, x);
    if m <= x.readAt {
      RevokedIsNotLive(c, tr, m, x.readAt, x.row, x.now);
    }
  }

  /** The steps that raise the barrier: a logout for the row of its token, a reuse detection for
      every row of the user and device. No other step revokes anything. */
  lemma WhoRevokes(c: Setup, tr: Trace, n: nat, k: nat)
    requires n < |tr.steps| && Valid(c, tr)
    requires k < |tr.worlds[n].table.rows|
    ensures var w := tr.worlds[n];
            var r := w.table.rows[k];
            RevokedAt(tr, n + 1, k) <==>
              || r.revokedAt.Some?
              || (tr.steps[n].Logout? && r.refreshHash == tr.steps[n].h)
              || (tr.steps[n].RevokeReused? && tr.steps[n].call in w.pending
                  && r.userId == w.pending[tr.steps[n].call].copy.userId && r.deviceId == w.pending[tr.steps[n].call].copy.deviceId)
  {
    assert Runs(c, tr, n);
    hide Apply, Enabled;
    RevokedByStep(tr.worlds[n], tr.steps[n], n, k);
  }

  lemma RevokedByStep(w: World, s: Step, n: nat, k: nat)
    requires k < |w.table.rows|
    ensures var t' := Apply(w, s, n).table;
            && k < |t'.rows|
            && (t'.rows[k].revokedAt.Some? <==>
                  || w.table.rows[k].revokedAt.Some?
                  || (s.Logout? && w.table.rows[k].refreshHash == s.h)
                  || (s.RevokeReused? && s.call in w.pending
                      && w.table.rows[k].userId == w.pending[s.call].copy.userId
                      && w.table.rows[k].deviceId == w.pending[s.call].copy.deviceId))
  {
  }

  /** The link graph of every reachable state: links go forward, to rows of the same user, no two
      to the same row, and every path of them ascends. */
  lemma LinkGraphAlwaysForest(c: Setup, tr: Trace, n: nat)
    requires n <= |tr.steps| && Valid(c, tr)
    ensures var t := tr.worlds[n].table;
            && (forall i: nat, j: nat :: Links(t, i, j) ==> i < j && t.rows[i].userId == t.rows[j].userId)
            && (forall i: nat, i': nat, j: nat :: Links(t, i, j) && Links(t, i', j) ==> i == i')
            && (forall p :: LinkPath(t, p) && |p| > 1 ==> p[0] < p[|p| - 1])
            && (forall i: nat :: i < |t.rows| && t.rows[i].replacedBy.Some? ==> HasSuccessor(t, i))
  {
    InterleavingInv(c, tr, n);
    var t := tr.worlds[n].table;
    forall i: nat, j: nat | Links(t, i, j) ensures i < j && t.rows[i].userId == t.rows[j].userId {
      LinkIsForward(c.ttl, t, i, j);
    }
    forall i: nat, i': nat, j: nat | Links(t, i, j) && Links(t, i', j) ensures i == i' {
      NoSharedSuccessor(c.ttl, t, i, i', j);
    }
    forall p | LinkPath(t, p) && |p| > 1 ensures p[0] < p[|p| - 1] {
      LinksAcyclic(c.ttl, t, p);
    }
  }

  /** Sliding expiry holds in every interleaving, overwritten links notwithstanding. */
  lemma SlidingExpiryAlways(c: Setup, tr: Trace, n: nat, j: nat)
    requires n <= |tr.steps| && Valid(c, tr) && j < |tr.worlds[n].table.rows|
    ensures ExpiryBounded(c.ttl, tr.worlds[n].table, j)
  {
    InterleavingInv(c, tr, n);
    SlidingExpiry(c.ttl, tr.worlds[n].table, j);
  }

  ghost predicate OverlapData(c: Setup, u: User, r0: Row, r1: Row, r2: Row) {
    && c.ttl >= 0 && u.id != 0 && ParseEmail(c.validAddress, u.email) == Ok(u.email)
    && r0 == r0.Stored() && r0.userId == u.id && r0.expiresAt == r0.createdAt + c.ttl
    && r1 == r0.(jti := r1.jti, refreshHash := r1.refreshHash)
    && r2 == r0.(jti := r2.jti, refreshHash := r2.refreshHash)
    && Distinct([r0, r1, r2])
  }

  /** The schedule login, read, read, rotate, rotate: two overlapping refreshes of one token. */
  function OverlapTrace(u: User, r0: Row, r1: Row, r2: Row): Trace {
    var x, x' := Pending(0, r0, r0.createdAt, 2), Pending(0, r0, r0.createdAt, 3);
    var y, y' := Commit(0, r0.createdAt, 2, 4), Commit(0, r0.createdAt, 3, 5);
    var t1, t2 := Table([r0], [None]), Table([r0.MarkRotated(r1.jti), r1], [None, Some(0)]);
    var t3 := Table([r0.MarkRotated(r2.jti), r1, r2], [None, Some(0), Some(0)]);
    var z := Issued(Uuid(u.id), 0);
    RawTrace(
      [Register(u, u.email), Login(r0), Read(1, r0.refreshHash, r0.createdAt), Read(2, r0.refreshHash, r0.createdAt),
       Rotate(1, r1), Rotate(2, r2)],
      [START,
       World([u], EMPTY, map[], [], []),
       World([u], t1, map[], [], [z]),
       World([u], t1, map[1 := x], [], [z]),
       World([u], t1, map[1 := x, 2 := x'], [], [z]),
       World([u], t2, map[2 := x'], [y], [z, Issued(Uuid(r0.userId), 0)]),
       World([u], t3, map[], [y, y'], [z, Issued(Uuid(r0.userId), 0), Issued(Uuid(r0.userId), 0)])])
  }

  lemma OverlapLogsIn(c: Setup, u: User, r0: Row, r1: Row, r2: Row)
    requires OverlapData(c, u, r0, r1, r2)
    ensures var tr := OverlapTrace(u, r0, r1, r2); Runs(c, tr, 0) && Runs(c, tr, 1)
  {
    assert HasId([u], r0.userId) by { assert [u][0].id == r0.userId; }
  }

  lemma OverlapReads(c: Setup, u: User, r0: Row, r1: Row, r2: Row)
    requires OverlapData(c, u, r0, r1, r2)
    ensures var tr := OverlapTrace(u, r0, r1, r2); Runs(c, tr, 2) && Runs(c, tr, 3)
  {
    var rows := [r0];
    assert rows[0].refreshHash == r0.refreshHash && FindHash(rows, r0.refreshHash) == Some(0);
  }

  lemma OverlapRotates(c: Setup, u: User, r0: Row, r1: Row, r2: Row)
    requires OverlapData(c, u, r0, r1, r2)
    ensures var tr := OverlapTrace(u, r0, r1, r2); Runs(c, tr, 4) && Runs(c, tr, 5)
  {
    FirstRotation(r0, r1, r2);
    var tr := OverlapTrace(u, r0, r1, r2);
    assert tr.worlds[4].pending - {1} == tr.worlds[5].pending;
    assert tr.worlds[5].pending - {2} == tr.worlds[6].pending;
  }

  /** Two overlapping refreshes of one token can both succeed. The second overwrites the first
      one's link, so the first successor is left with no predecessor, while its recorded parent
      still is the common row. */
  lemma OverlapCanSucceedTwice(c: Setup, u: User, r0: Row, r1: Row, r2: Row)
    requires OverlapData(c, u, r0, r1, r2)
    ensures var tr := OverlapTrace(u, r0, r1, r2);
            && Valid(c, tr)
            && |tr.worlds[6].commits| == 2 && tr.worlds[6].commits[0].row == tr.worlds[6].commits[1].row
            && !Links(tr.worlds[6].table, 0, 1) && ParentOf(tr.worlds[6].table, 0, 1)
  {
    hide *;
    OverlapLogsIn(c, u, r0, r1, r2);
    OverlapReads(c, u, r0, r1, r2);
    OverlapRotates(c, u, r0, r1, r2);
    OverlapEnds(c, u, r0, r1, r2);
    SixSteps(c, OverlapTrace(u, r0, r1, r2));
  }

  lemma SixSteps(c: Setup, tr: Trace)
    requires tr.worlds[0] == START && |tr.steps| == 6
    requires Runs(c, tr, 0) && Runs(c, tr, 1) && Runs(c, tr, 2) && Runs(c, tr, 3) && Runs(c, tr, 4) && Runs(c, tr, 5)
    ensures Valid(c, tr)
  {
    hide Runs;
  }

  lemma OverlapEnds(c: Setup, u: User, r0: Row, r1: Row, r2: Row)
    requires OverlapData(c, u, r0, r1, r2)
    ensures var tr := OverlapTrace(u, r0, r1, r2);
            && tr.worlds[0] == START && |tr.steps| == 6
            && |tr.worlds[6].commits| == 2 && tr.worlds[6].commits[0].row == tr.worlds[6].commits[1].row
            && !Links(tr.worlds[6].table, 0, 1) && ParentOf(tr.worlds[6].table, 0, 1)
  {
    assert [r0, r1, r2][1] == r1 && [r0, r1, r2][2] == r2;
  }

  lemma FirstRotation(r0: Row, r1: Row, r2: Row)
    requires Distinct([r0, r1, r2])
    ensures var t1 := SessionTable.Rotate(Table([r0], [None]), r0.jti, r1);
            var t2 := SessionTable.Rotate(t1, r0.jti, r2);
            && t1 == Table([r0.MarkRotated(r1.jti), r1], [None, Some(0)])
            && t2 == Table([r0.MarkRotated(r2.jti), r1, r2], [None, Some(0), Some(0)])
            && Fresh([r0], r1) && Fresh(t1.rows, r2)
  {
    var rs := [r0, r1, r2];
    assert rs[0] == r0 && rs[1] == r1 && rs[2] == r2;
    assert FindJti([r0], r0.jti) == Some(0) by { assert [r0][0].jti == r0.jti; }
    var t1 := SessionTable.Rotate(Table([r0], [None]), r0.jti, r1);
    assert t1.rows == [r0.MarkRotated(r1.jti), r1];
    assert FindJti(t1.rows, r0.jti) == Some(0) by { assert t1.rows[0].jti == r0.jti; }
    var t2 := SessionTable.Rotate(t1, r0.jti, r2);
    assert t2.rows == [r0.MarkRotated(r2.jti), r1, r2];
  }
}
