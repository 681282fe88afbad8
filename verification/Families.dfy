/** Session families: a login and the rotations that descend from it. In serial runs a family is
    one path with one live end; reuse detection is meant to kill it. */
module Families {
  import opened Base
  import opened Domain
  import opened SessionTable
  import opened AuthService
  import opened SerialRuns
  import opened History

  predicate Unreplaced(t: Table, m: nat)
    requires m < |t.rows|
  {
    t.rows[m].replacedBy.None?
  }

  /** Follows links n times, stopping early where there is none. */
  function Walk(ttl: int, t: Table, i: nat, n: nat): (e: nat)
    requires Inv(ttl, t) && i < |t.rows|
    ensures e < |t.rows|
  {
    if n == 0 then i
    else
      var e := Walk(ttl, t, i, n - 1);
      if t.rows[e].replacedBy.Some? then Next(ttl, t, e) else e
  }

  /** Every member of a family is reached from its login by as many links as it is rotations away. */
  lemma {:induction false} FamilyIsAPath(ttl: int, t: Table, j: nat)
    requires Inv(ttl, t) && LinksAreParents(t) && j < |t.rows|
    ensures Walk(ttl, t, Root(t, j), Depth(t, j)) == j
    decreases j
  {
    if t.parents[j].Some? {
      var i := t.parents[j].value;
      assert ParentOf(t, i, j) && Links(t, i, j);
      FamilyIsAPath(ttl, t, i);
      assert Next(ttl, t, i) == j;
    }
  }

  lemma {:induction false} WalkStopsAtEnd(ttl: int, t: Table, i: nat, n: nat, n': nat)
    requires Inv(ttl, t) && i < |t.rows| && n <= n' && Unreplaced(t, Walk(ttl, t, i, n))
    ensures Walk(ttl, t, i, n') == Walk(ttl, t, i, n)
    decreases n'
  {
    hide Inv, Next;
    if n < n' {
      WalkStopsAtEnd(ttl, t, i, n, n' - 1);
    }
  }

  lemma LinkKeepsRoot(ttl: int, t: Table, i: nat, j: nat)
    requires Inv(ttl, t) && Links(t, i, j)
    ensures Root(t, j) == Root(t, i)
  {
    LinkIsForward(ttl, t, i, j);
  }

  lemma {:induction false} FollowKeepsRoot(ttl: int, t: Table, i: nat)
    requires Inv(ttl, t) && i < |t.rows|
    ensures Root(t, Follow(ttl, t, i)) == Root(t, i)
    decreases |t.rows| - i
  {
    if t.rows[i].replacedBy.Some? {
      LinkKeepsRoot(ttl, t, i, Next(ttl, t, i));
      FollowKeepsRoot(ttl, t, Next(ttl, t, i));
    }
  }

  /** A family has exactly one unreplaced row: the end of the path from its login. */
  lemma OneLiveEnd(ttl: int, t: Table, r: nat)
    requires Inv(ttl, t) && LinksAreParents(t) && r < |t.rows| && t.parents[r].None?
    ensures InFamily(t, Follow(ttl, t, r), r) && Unreplaced(t, Follow(ttl, t, r))
    ensures forall m: nat :: InFamily(t, m, r) && Unreplaced(t, m) ==> m == Follow(ttl, t, r)
  {
    FollowKeepsRoot(ttl, t, r);
    var e := Follow(ttl, t, r);
    forall m: nat | InFamily(t, m, r) && Unreplaced(t, m) ensures m == e {
      FamilyIsAPath(ttl, t, m);
      FamilyIsAPath(ttl, t, e);
      var d, d' := Depth(t, m), Depth(t, e);
      if d <= d' {
        WalkStopsAtEnd(ttl, t, r, d, d');
      } else {
        WalkStopsAtEnd(ttl, t, r, d', d);
      }
    }
  }

  /** In every serial run each login's family is a single path with one unreplaced row. */
  lemma SerialFamilies(cfg: Config, tr: Trace, n: nat, r: nat)
    requires n <= |tr.events| && Valid(cfg, tr)
    requires r < |Rows(tr, n)| && r < |tr.states[n].table.parents| && tr.states[n].table.parents[r].None?
    ensures var t := tr.states[n].table;
            && Inv(cfg.refreshTTL, t)
            && (exists e: nat :: InFamily(t, e, r) && Unreplaced(t, e))
            && (forall e: nat, e': nat ::
                  (InFamily(t, e, r) && Unreplaced(t, e) &&
                   InFamily(t, e', r) && Unreplaced(t, e')) ==> e == e')
            && (forall j: nat :: InFamily(t, j, r) ==>
                  Walk(cfg.refreshTTL, t, r, Depth(t, j)) == j)
  {
    SerialInv(cfg, tr, n);
    var ttl, t := cfg.refreshTTL, tr.states[n].table;
    InvOf(cfg, tr.states[n]);
    assert LinksAreParents(t);
    OneLiveEnd(ttl, t, r);
    forall j: nat | InFamily(t, j, r) ensures Walk(ttl, t, r, Depth(t, j)) == j {
      FamilyIsAPath(ttl, t, j);
    }
  }

  // ---------- counting ----------

  function CountUnreplaced(rows: seq<Row>): nat {
    if rows == [] then 0
    else CountUnreplaced(rows[..|rows| - 1]) + (if rows[|rows| - 1].replacedBy.None? then 1 else 0)
  }

  /** Replacing row k, and nothing else, uses up one unreplaced row. */
  lemma {:induction false} CountAfterReplace(rows: seq<Row>, rows': seq<Row>, k: int)
    requires |rows| == |rows'|
    requires 0 <= k < |rows| ==> rows[k].replacedBy.None? && rows'[k].replacedBy.Some?
    requires forall i :: 0 <= i < |rows| && i != k ==> rows'[i].replacedBy.None? == rows[i].replacedBy.None?
    ensures CountUnreplaced(rows') == CountUnreplaced(rows) - (if 0 <= k < |rows| then 1 else 0)
  {
    if rows != [] {
      var n := |rows| - 1;
      CountAfterReplace(rows[..n], rows'[..n], k);
    }
  }

  lemma CountAfterInsert(rows: seq<Row>, r: Row)
    requires r.replacedBy.None?
    ensures CountUnreplaced(rows + [r]) == CountUnreplaced(rows) + 1
  {
    assert (rows + [r])[..|rows|] == rows;
  }

  function Logins(tr: Trace, n: nat): nat
    requires n <= |tr.events|
  {
    if n == 0 then 0
    else Logins(tr, n - 1) + (if Granted(tr, n - 1) && tr.events[n - 1].call.LoginCall? then 1 else 0)
  }

  function Refreshes(tr: Trace, n: nat): nat
    requires n <= |tr.events|
  {
    if n == 0 then 0
    else Refreshes(tr, n - 1) + (if Granted(tr, n - 1) && tr.events[n - 1].call.RefreshCall? then 1 else 0)
  }

  lemma WriteCounts(ttl: int, t: Table, w: Write)
    requires Inv(ttl, t) && (w.Rotation? || w.DeviceRevoke? ==> w.k < |t.rows|)
    requires w.Rotation? ==> t.rows[w.k].replacedBy.None?
    requires w.Insert? || w.Rotation? ==> w.row.replacedBy.None? && Fresh(t.rows, w.row)
    ensures var t' := Perform(t, w);
            && |t'.rows| == |t.rows| + (if w.Insert? || w.Rotation? then 1 else 0)
            && CountUnreplaced(t'.rows) == CountUnreplaced(t.rows) + (if w.Insert? then 1 else 0)
  {
    match w
    case NoWrite =>
    case Insert(r) => CountAfterInsert(t.rows, r);
    case Rotation(k, r) =>
      RotateTouchesOneRow(ttl, t, k, r);
      CountAfterReplace(t.rows, t.rows[k := t.rows[k].MarkRotated(r.jti)], k);
      CountAfterInsert(t.rows[k := t.rows[k].MarkRotated(r.jti)], r);
    case DeviceRevoke(k, at) => CountAfterReplace(t.rows, Perform(t, w).rows, -1);
    case TokenRevoke(h, at) => CountAfterReplace(t.rows, Perform(t, w).rows, -1);
  }

  lemma StepCounts(cfg: Config, tr: Trace, i: nat)
    requires i < |tr.events| && Valid(cfg, tr)
    ensures |Rows(tr, i + 1)| == |Rows(tr, i)| + (if Granted(tr, i) then 1 else 0)
    ensures CountUnreplaced(Rows(tr, i + 1))
         == CountUnreplaced(Rows(tr, i)) + (if Granted(tr, i) && tr.events[i].call.LoginCall? then 1 else 0)
    ensures Granted(tr, i) ==> tr.events[i].call.LoginCall? || tr.events[i].call.RefreshCall?
  {
    hide *;
    StepFacts(cfg, tr, i);
    RowsOfState(tr, i);
    RowsOfState(tr, i + 1);
    CallCounts(cfg, tr, i, tr.states[i], tr.events[i], WriteOf(cfg, tr.states[i], tr.events[i]));
  }

  lemma CallCounts(cfg: Config, tr: Trace, i: nat, s: Sys, e: Event, w: Write)
    requires i < |tr.events| && e == tr.events[i]
    requires Inv(cfg.refreshTTL, s.table) && WriteOk(cfg, s, e, w, tr.answers[i])
    ensures var t' := Perform(s.table, w);
            && |t'.rows| == |s.table.rows| + (if Granted(tr, i) then 1 else 0)
            && CountUnreplaced(t'.rows)
            == CountUnreplaced(s.table.rows) + (if Granted(tr, i) && e.call.LoginCall? then 1 else 0)
    ensures Granted(tr, i) ==> e.call.LoginCall? || e.call.RefreshCall?
  {
    hide Perform, CountUnreplaced, Inv, Fresh;
    WriteCounts(cfg.refreshTTL, s.table, w);
  }

  /** Conservation: every row was inserted by a login or a refresh that succeeded, and the
      unreplaced rows are as many as the logins. */
  lemma {:induction false} RowsAreCounted(cfg: Config, tr: Trace, n: nat)
    requires n <= |tr.events| && Valid(cfg, tr)
    ensures |Rows(tr, n)| == Logins(tr, n) + Refreshes(tr, n)
    ensures CountUnreplaced(Rows(tr, n)) == Logins(tr, n)
  {
    if n == 0 {
      NothingToCount(cfg, tr);
    } else {
      RowsAreCounted(cfg, tr, n - 1);
      StepCounts(cfg, tr, n - 1);
    }
  }

  lemma NothingToCount(cfg: Config, tr: Trace)
    requires Valid(cfg, tr)
    ensures Rows(tr, 0) == [] && CountUnreplaced(Rows(tr, 0)) == 0
  {
  }

  // ---------- reuse detection and the family ----------

  lemma RevokeKeepsFamilies(ttl: int, t: Table, k: nat, at: int)
    requires Inv(ttl, t) && k < |t.rows|
    ensures var t' := RevokeDevice(t, t.rows[k].userId, t.rows[k].deviceId, at);
            && Inv(ttl, t') && Grows(t, t')
            && forall m: nat :: m < |t.rows| ==> Root(t', m) == Root(t, m)
  {
    RevokeKeepsInv(ttl, t, DeviceRevoked(t.rows, t.rows[k].userId, t.rows[k].deviceId, at));
    var t' := RevokeDevice(t, t.rows[k].userId, t.rows[k].deviceId, at);
    WritesGrow(t, DeviceRevoke(k, at));
    forall m: nat | m < |t.rows| ensures Root(t', m) == Root(t, m) {
      RootStable(ttl, t, t', m);
    }
  }

  /** The live end of row k's family is on row k's device, or was revoked already. */
  predicate LiveEndHit(ttl: int, t: Table, k: nat)
    requires Inv(ttl, t) && k < |t.rows|
  {
    var e := Follow(ttl, t, Root(t, k));
    t.rows[e].deviceId == t.rows[k].deviceId || t.rows[e].revokedAt.Some?
  }

  /** What reuse detection on row k does to the family, exactly: it kills it if and only if the
      family's live end is on the reused token's device, or was revoked already. Rows of another
      user or device are untouched. */
  lemma ReuseKillsFamilyExactly(ttl: int, t: Table, k: nat, at: int)
    requires Inv(ttl, t) && LinksAreParents(t) && k < |t.rows|
    ensures var t', r := RevokeDevice(t, t.rows[k].userId, t.rows[k].deviceId, at), Root(t, k);
            && Inv(ttl, t')
            && (FamilyDead(t', r) <==> LiveEndHit(ttl, t, k))
            && (forall m :: 0 <= m < |t.rows| ==>
                  (t.rows[m].userId != t.rows[k].userId || t.rows[m].deviceId != t.rows[k].deviceId) ==> t'.rows[m] == t.rows[m])
  {
    var t', r := RevokeDevice(t, t.rows[k].userId, t.rows[k].deviceId, at), Root(t, k);
    RevokeKeepsFamilies(ttl, t, k, at);
    RootIsLogin(ttl, t, k);
    OneLiveEnd(ttl, t, r);
    var e := Follow(ttl, t, r);
    assert t.rows[e].userId == t.rows[k].userId;
    assert InFamily(t', e, r) && Unreplaced(t', e);
    assert Usable(t', e) <==> t.rows[e].deviceId != t.rows[k].deviceId && t.rows[e].revokedAt.None?;
    forall m: nat | InFamily(t', m, r) && Usable(t', m) ensures m == e {
      assert InFamily(t, m, r) && Unreplaced(t, m);
    }
  }

  lemma DeadFamilyStepRows(ttl: int, t: Table, w: Write, r: nat)
    requires Inv(ttl, t) && r < |t.rows| && FamilyDead(t, r)
    requires w.Rotation? || w.DeviceRevoke? ==> w.k < |t.rows|
    requires w.Rotation? ==> Usable(t, w.k) && Fresh(t.rows, w.row)
    requires Inv(ttl, Perform(t, w))
    ensures FamilyDead(Perform(t, w), r)
  {
    var t' := Perform(t, w);
    WritesGrow(t, w);
    forall m: nat | InFamily(t', m, r) ensures !Usable(t', m) {
      if m < |t.rows| {
        RootStable(ttl, t, t', m);
        assert InFamily(t, m, r);
        assert RowGrows(t.rows[m], t'.rows[m]);
      } else if w.Rotation? {
        SuccessorRoot(ttl, t, w.k, w.row);
        RootStable(ttl, t, t', w.k);
      }
    }
  }

  lemma DeadFamilyStep(cfg: Config, tr: Trace, i: nat, r: nat)
    requires i < |tr.events| && Valid(cfg, tr)
    requires r < |Rows(tr, i)|
    requires FamilyDead(tr.states[i].table, r)
    ensures r < |Rows(tr, i + 1)| && FamilyDead(tr.states[i + 1].table, r)
  {
    hide *;
    RowsOfState(tr, i);
    RowsOfState(tr, i + 1);
    StepFacts(cfg, tr, i);
    TableInv(cfg, tr, i + 1);
    DeadFamilyCall(cfg, tr.states[i], tr.events[i], WriteOf(cfg, tr.states[i], tr.events[i]), tr.answers[i], r);
  }

  lemma RowsOfState(tr: Trace, i: nat)
    requires i <= |tr.events|
    ensures Rows(tr, i) == tr.states[i].table.rows
  {
  }

  lemma DeadFamilyCall(cfg: Config, s: Sys, e: Event, w: Write, a: Answer, r: nat)
    requires Inv(cfg.refreshTTL, s.table) && WriteOk(cfg, s, e, w, a)
    requires r < |s.table.rows| && FamilyDead(s.table, r) && Inv(cfg.refreshTTL, Perform(s.table, w))
    ensures r < |Perform(s.table, w).rows| && FamilyDead(Perform(s.table, w), r)
  {
    hide FamilyDead, Inv, GrantMatches;
    DeadFamilyStepRows(cfg.refreshTTL, s.table, w, r);
    WritesGrow(s.table, w);
  }

  lemma TableInv(cfg: Config, tr: Trace, n: nat)
    requires n <= |tr.events| && Valid(cfg, tr)
    ensures Inv(cfg.refreshTTL, tr.states[n].table) && LinksAreParents(tr.states[n].table)
  {
    SerialInv(cfg, tr, n);
    InvOf(cfg, tr.states[n]);
  }

  /** A dead family never comes back. */
  lemma {:induction false} DeadFamilyStaysDead(cfg: Config, tr: Trace, m: nat, n: nat, r: nat)
    requires m <= n <= |tr.events| && Valid(cfg, tr)
    requires r < |Rows(tr, m)|
    requires FamilyDead(tr.states[m].table, r)
    ensures r < |Rows(tr, n)|
    ensures FamilyDead(tr.states[n].table, r)
    decreases n
  {
    if m < n {
      DeadFamilyStaysDead(cfg, tr, m, n - 1, r);
      DeadFamilyStep(cfg, tr, n - 1, r);
    }
  }

  /** A granted refresh found a usable row. */
  lemma GrantFindsUsable(cfg: Config, tr: Trace, n: nat) returns (k: nat)
    requires Valid(cfg, tr) && Granted(tr, n) && tr.events[n].call.RefreshCall?
    ensures k < |Rows(tr, n)| && Rows(tr, n)[k].refreshHash == Sha256Hex(tr.events[n].call.raw)
    ensures Usable(tr.states[n].table, k)
  {
    StepFacts(cfg, tr, n);
    k := WriteOf(cfg, tr.states[n], tr.events[n]).k;
  }

  /** No token of a dead family is accepted. */
  lemma DeadFamilyRefused(cfg: Config, tr: Trace, n: nat, r: nat, x: nat)
    requires n < |tr.events| && Valid(cfg, tr) && tr.events[n].call.RefreshCall?
    requires FamilyDead(tr.states[n].table, r)
    requires InFamily(tr.states[n].table, x, r)
    requires Rows(tr, n)[x].refreshHash == Sha256Hex(tr.events[n].call.raw)
    ensures !Granted(tr, n)
  {
    if Granted(tr, n) {
      var k := GrantFindsUsable(cfg, tr, n);
      FoundAgain(cfg, tr, n, n, x, tr.events[n].call.raw);
      FoundAgain(cfg, tr, n, n, k, tr.events[n].call.raw);
    }
  }

  /** Every refresh of the family has passed the device of its login. */
  ghost predicate OneDevice(t: Table, r: nat) {
    r < |t.rows| && forall m: nat :: InFamily(t, m, r) ==> t.rows[m].deviceId == t.rows[r].deviceId
  }

  /** Then reuse of any of its tokens hits the live end. */
  lemma OneDeviceIsHit(ttl: int, t: Table, k: nat)
    requires Inv(ttl, t) && k < |t.rows| && OneDevice(t, Root(t, k))
    ensures LiveEndHit(ttl, t, k)
  {
    var r := Root(t, k);
    FollowKeepsRoot(ttl, t, r);
    RootIsLogin(ttl, t, k);
    assert InFamily(t, k, r) && InFamily(t, Follow(ttl, t, r), r);
  }

  /** Once a reuse of row k's token is detected, with the bulk revoke succeeding, and the family's live
      end was on its device or revoked already, no later call of the run succeeds with a token of the
      family. */
  lemma ReuseKillsFamilyForGood(cfg: Config, tr: Trace, j: nat, k: nat, n: nat, x: nat)
    requires j < n < |tr.events| && Valid(cfg, tr) && DetectsReuse(tr, j)
    requires k < |Rows(tr, j)| && Rows(tr, j)[k].refreshHash == Sha256Hex(tr.events[j].call.raw)
    requires Inv(cfg.refreshTTL, tr.states[j].table) && LiveEndHit(cfg.refreshTTL, tr.states[j].table, k)
    requires InFamily(tr.states[n].table, x, Root(tr.states[j].table, k))
    requires tr.events[n].call.RefreshCall? && Rows(tr, n)[x].refreshHash == Sha256Hex(tr.events[n].call.raw)
    ensures !Granted(tr, n)
  {
    var r := Root(tr.states[j].table, k);
    ReuseLeavesDeadFamily(cfg, tr, j, k);
    DeadFamilyStaysDead(cfg, tr, j + 1, n, r);
    DeadFamilyRefused(cfg, tr, n, r, x);
  }

  lemma ReuseLeavesDeadFamily(cfg: Config, tr: Trace, j: nat, k: nat)
    requires j < |tr.events| && Valid(cfg, tr) && DetectsReuse(tr, j)
    requires k < |Rows(tr, j)| && Rows(tr, j)[k].refreshHash == Sha256Hex(tr.events[j].call.raw)
    requires Inv(cfg.refreshTTL, tr.states[j].table) && LiveEndHit(cfg.refreshTTL, tr.states[j].table, k)
    ensures Root(tr.states[j].table, k) < |Rows(tr, j + 1)|
    ensures FamilyDead(tr.states[j + 1].table, Root(tr.states[j].table, k))
  {
    var t := tr.states[j].table;
    ReuseWritesRow(cfg, tr, j, k);
    TableInv(cfg, tr, j);
    ReuseKillsFamilyExactly(cfg.refreshTTL, t, k, tr.events[j].call.onRefresh.now);
  }

  /** The table after a detected reuse of row k. */
  lemma ReuseWritesRow(cfg: Config, tr: Trace, j: nat, k: nat)
    requires Valid(cfg, tr) && DetectsReuse(tr, j)
    requires k < |Rows(tr, j)| && Rows(tr, j)[k].refreshHash == Sha256Hex(tr.events[j].call.raw)
    ensures var t := tr.states[j].table;
            tr.states[j + 1].table == RevokeDevice(t, t.rows[k].userId, t.rows[k].deviceId, tr.events[j].call.onRefresh.now)
  {
    StepFacts(cfg, tr, j);
    assert Runs(cfg, tr, j);
    ReuseWrites(cfg, tr, j);
    FoundAgain(cfg, tr, j, j, k, tr.events[j].call.raw);
  }
}
