/** What can still happen: which tokens some continuation of an interleaved run accepts. A token, or
    a family of tokens, can succeed again exactly when a row of it is usable or a refresh that has
    already read such a row live is still in flight. */
module Continuations {
  import opened Base
  import opened Domain
  import opened SessionTable
  import opened Interleaving
  import opened Mint

  // ---------- one step more ----------

  lemma RowOfHolder(c: Setup, tr: Trace, call: nat, k: nat)
    requires Valid(c, tr) && Holds(Last(tr), call, k)
    ensures var w := Last(tr);
            && Inv(c.ttl, w.table) && k < |w.table.rows|
            && w.pending[call].copy.jti == w.table.rows[k].jti && w.pending[call].copy.userId == w.table.rows[k].userId
  {
    InterleavingInv(c, tr, |tr.steps|);
    assert PendingOk(Last(tr), Last(tr).pending[call]);
  }

  /** A call that holds a row can always go on to commit, whatever has become of the row: the commit
      links the row to a new one, which is usable and whose recorded parent is the row. */
  lemma HolderCanCommit(c: Setup, tr: Trace, call: nat, k: nat, r: Row)
    requires Valid(c, tr) && Holds(Last(tr), call, k)
    requires Successor(c, Last(tr).pending[call], r) && Fresh(Last(tr).table.rows, r)
    ensures var w, p, tr' := Last(tr), Last(tr).pending[call], Extend(tr, Rotate(call, r));
            && Valid(c, tr') && Continues(tr, tr')
            && k < |w.table.rows|
            && Last(tr').commits == w.commits + [Commit(k, p.now, p.readAt, |tr.steps|)]
            && Last(tr').table.rows == w.table.rows[k := w.table.rows[k].MarkRotated(r.jti)] + [r]
            && Last(tr').table.parents == w.table.parents + [Some(k)]
            && Last(tr').pending == w.pending - {call}
            && Usable(Last(tr').table, |w.table.rows|)
  {
    hide Valid, Inv, Fresh, Decide;
    RowOfHolder(c, tr, call, k);
    ExtendIsValid(c, tr, Rotate(call, r));
    RotateTouchesOneRow(c.ttl, Last(tr).table, k, r);
  }

  /** A usable row can be read live, at its expiry instant, by a call that is not in flight. */
  lemma UsableCanBeRead(c: Setup, tr: Trace, call: nat, k: nat)
    requires Valid(c, tr) && call !in Last(tr).pending && k < |Last(tr).table.rows| && Usable(Last(tr).table, k)
    ensures var row := Last(tr).table.rows[k];
            var tr' := Extend(tr, Read(call, row.refreshHash, row.expiresAt));
            && Valid(c, tr') && Continues(tr, tr')
            && Holds(Last(tr'), call, k) && Last(tr').table == Last(tr).table
  {
    var w := Last(tr);
    var s := Read(call, w.table.rows[k].refreshHash, w.table.rows[k].expiresAt);
    InterleavingInv(c, tr, |tr.steps|);
    assert Distinct(w.table.rows);
    hide Valid, Inv, WorldInv;
    assert FindHash(w.table.rows, w.table.rows[k].refreshHash) == Some(k);
    ExtendIsValid(c, tr, s);
  }

  lemma {:induction false} UnusedCall(calls: set<nat>) returns (call: nat)
    ensures forall x :: x in calls ==> x < call
    decreases calls
  {
    if calls == {} {
      call := 0;
    } else {
      var x :| x in calls;
      var rest := UnusedCall(calls - {x});
      call := if rest <= x then x + 1 else rest;
      assert forall y :: y in calls && y != x ==> y in calls - {x};
    }
  }

  // ---------- one token ----------

  /** After n steps, and before the end of the run, the token of row k was refreshed. */
  ghost predicate SucceedsSince(tr: Trace, n: nat, k: nat) {
    exists i :: 0 <= i < |Last(tr).commits| && Last(tr).commits[i].row == k && Last(tr).commits[i].commitAt >= n
  }

  ghost predicate CanSucceed(c: Setup, tr: Trace, k: nat) {
    exists tr': Trace :: Valid(c, tr') && Continues(tr, tr') && SucceedsSince(tr', |tr.steps|, k)
  }

  lemma HolderSucceeds(c: Setup, tr: Trace, tr0: Trace, call: nat, k: nat)
    requires Valid(c, tr) && Holds(Last(tr), call, k) && Continues(tr0, tr)
    ensures CanSucceed(c, tr0, k)
  {
    hide Valid, Decide;
    var w := Last(tr);
    RowOfHolder(c, tr, call, k);
    var p := w.pending[call];
    var text := FreshText(w.table.rows);
    var r := Row(p.copy.userId, "", text, Sha256Hex(text), None, "", p.now, p.now + c.ttl, None, None);
    HolderCanCommit(c, tr, call, k, r);
    var tr' := Extend(tr, Rotate(call, r));
    var i := |w.commits|;
    assert Last(tr').commits[i].row == k && Last(tr').commits[i].commitAt >= |tr0.steps|;
    assert SucceedsSince(tr', |tr0.steps|, k);
  }

  lemma UsableSucceeds(c: Setup, tr: Trace, k: nat)
    requires Valid(c, tr) && k < |Last(tr).table.rows| && Usable(Last(tr).table, k)
    ensures CanSucceed(c, tr, k)
  {
    var call := UnusedCall(Last(tr).pending.Keys);
    hide Valid, Holds;
    var row := Last(tr).table.rows[k];
    UsableCanBeRead(c, tr, call, k);
    HolderSucceeds(c, Extend(tr, Read(call, row.refreshHash, row.expiresAt)), tr, call, k);
  }

  lemma SuccessNeedsUsableOrHeld(c: Setup, tr: Trace, tr': Trace, k: nat)
    requires Valid(c, tr) && Valid(c, tr') && Continues(tr, tr') && SucceedsSince(tr', |tr.steps|, k)
    requires k < |Last(tr).table.rows|
    ensures Usable(Last(tr).table, k) || exists call :: Holds(Last(tr), call, k)
  {
    hide Valid, Holds;
    var n, n' := |tr.steps|, |tr'.steps|;
    var i :| 0 <= i < |Last(tr').commits| && Last(tr').commits[i].row == k && Last(tr').commits[i].commitAt >= n;
    var x := Last(tr').commits[i];
    CommitTimes(c, tr', n', i);
    assert tr'.worlds[n] == Last(tr);
    if x.readAt < n {
      HoldsUntilCommit(c, tr', n', i, n);
    } else {
      CommitsAreSound(c, tr', n');
      assert CommitSound(tr', n', x);
      TableOnlyGrows(c, tr', n, x.readAt);
      assert RowGrows(tr'.worlds[n].table.rows[k], tr'.worlds[x.readAt].table.rows[k]);
    }
  }

  /** When a token can succeed again, exactly: some continuation of a run refreshes the token of row k
      if and only if the row is usable or some call still holds it. */
  lemma TokenCanSucceedIff(c: Setup, tr: Trace, k: nat)
    requires Valid(c, tr) && k < |Last(tr).table.rows|
    ensures CanSucceed(c, tr, k) <==> Usable(Last(tr).table, k) || exists call :: Holds(Last(tr), call, k)
  {
    hide Valid, Holds, SucceedsSince;
    if CanSucceed(c, tr, k) {
      var tr': Trace :| Valid(c, tr') && Continues(tr, tr') && SucceedsSince(tr', |tr.steps|, k);
      SuccessNeedsUsableOrHeld(c, tr, tr', k);
    }
    if Usable(Last(tr).table, k) {
      UsableSucceeds(c, tr, k);
    } else if exists call :: Holds(Last(tr), call, k) {
      var call :| Holds(Last(tr), call, k);
      HolderSucceeds(c, tr, tr, call, k);
    }
  }

  /** Double success, exactly: just after one refresh of a token has committed, another can still
      commit if and only if a second call holds the row at that moment. */
  lemma SecondSuccessExactly(c: Setup, tr: Trace, a: nat, k: nat, r: Row)
    requires Valid(c, tr) && Holds(Last(tr), a, k)
    requires Successor(c, Last(tr).pending[a], r) && Fresh(Last(tr).table.rows, r)
    ensures CanSucceed(c, Extend(tr, Rotate(a, r)), k) <==> exists b :: b != a && Holds(Last(tr), b, k)
  {
    HolderCanCommit(c, tr, a, k, r);
    var tr' := Extend(tr, Rotate(a, r));
    hide Valid, Successor, Fresh, CanSucceed, Decide, Extend;
    TokenCanSucceedIff(c, tr', k);
    assert forall b :: Holds(Last(tr'), b, k) <==> b != a && Holds(Last(tr), b, k);
  }

  /** Logout's reach, exactly: after the logout of a token, the token can still be refreshed if and
      only if a refresh of it was in flight, past its checks, at that moment. */
  lemma LogoutExactly(c: Setup, tr: Trace, k: nat, at: int)
    requires Valid(c, tr) && k < |Last(tr).table.rows|
    ensures CanSucceed(c, Extend(tr, Logout(Last(tr).table.rows[k].refreshHash, at)), k)
       <==> exists call :: Holds(Last(tr), call, k)
  {
    var s := Logout(Last(tr).table.rows[k].refreshHash, at);
    ExtendIsValid(c, tr, s);
    var tr' := Extend(tr, s);
    hide Valid, CanSucceed, Extend, Decide;
    TokenCanSucceedIff(c, tr', k);
    assert forall b :: Holds(Last(tr'), b, k) <==> Holds(Last(tr), b, k);
  }

  /** Revocation can be escaped. From any reachable state in which a call holds a row, the row's token
      can be logged out and the call still commit: its new row is of the revoked row's family, and until
      it expires every refresh that reads it is let through. */
  lemma RevocationCanBeEscaped(c: Setup, tr: Trace, call: nat, k: nat, at: int, r: Row)
    requires Valid(c, tr) && Holds(Last(tr), call, k) && k < |Last(tr).table.rows|
    requires Successor(c, Last(tr).pending[call], r) && Fresh(Last(tr).table.rows, r)
    ensures var w := Last(tr);
            var tr' := Extend(Extend(tr, Logout(w.table.rows[k].refreshHash, at)), Rotate(call, r));
            var t', n := Last(tr').table, |w.table.rows|;
            && Valid(c, tr') && Continues(tr, tr')
            && |t'.rows| == n + 1
            && t'.rows[k].revokedAt.Some? && InFamily(t', n, Root(t', k))
            && forall now :: now <= r.expiresAt ==> Decide(t'.rows[n], now) == Proceed
  {
    var w, s := Last(tr), Logout(Last(tr).table.rows[k].refreshHash, at);
    ExtendIsValid(c, tr, s);
    var tr1 := Extend(tr, s);
    var w1 := Last(tr1);
    assert w1.table.rows == HashRevoked(w.table.rows, w.table.rows[k].refreshHash, at);
    assert w1.pending == w.pending;
    assert Fresh(w1.table.rows, r);
    assert w1.table.rows[k].revokedAt.Some?;
    hide Valid, Extend, Fresh, HashRevoked, Root, Inv;
    HolderCanCommit(c, tr1, call, k, r);
    RowOfHolder(c, tr1, call, k);
    RotationFindsHolder(c, tr1, call, k, r);
    SuccessorRoot(c.ttl, w1.table, k, r);
  }

  lemma RotationFindsHolder(c: Setup, tr: Trace, call: nat, k: nat, r: Row)
    requires Valid(c, tr) && Holds(Last(tr), call, k) && k < |Last(tr).table.rows|
    ensures Last(Extend(tr, Rotate(call, r))).table == SessionTable.Rotate(Last(tr).table, Last(tr).table.rows[k].jti, r)
  {
    RowOfHolder(c, tr, call, k);
    hide Valid, Inv, SessionTable.Rotate, Decide;
  }

  /** Every overlap can succeed twice. From any reachable state in which two calls hold one row, both
      can commit. The second commit overwrites the link of the first, which keeps only its recorded
      parent. */
  lemma EveryOverlapCanSucceedTwice(c: Setup, tr: Trace, a: nat, b: nat, k: nat, r1: Row, r2: Row)
    requires Valid(c, tr) && a != b && Holds(Last(tr), a, k) && Holds(Last(tr), b, k)
    requires Successor(c, Last(tr).pending[a], r1) && Fresh(Last(tr).table.rows, r1)
    requires Successor(c, Last(tr).pending[b], r2) && Fresh(Last(tr).table.rows + [r1], r2)
    ensures var w, tr' := Last(tr), Extend(Extend(tr, Rotate(a, r1)), Rotate(b, r2));
            var n, p, q := |w.table.rows|, w.pending[a], w.pending[b];
            && Valid(c, tr')
            && Last(tr').commits
            == w.commits + [Commit(k, p.now, p.readAt, |tr.steps|), Commit(k, q.now, q.readAt, |tr.steps| + 1)]
            && ParentOf(Last(tr').table, k, n) && ParentOf(Last(tr').table, k, n + 1)
            && Links(Last(tr').table, k, n + 1) && !Links(Last(tr').table, k, n)
            && Usable(Last(tr').table, n) && Usable(Last(tr').table, n + 1)
  {
    HolderCanCommit(c, tr, a, k, r1);
    var tr1 := Extend(tr, Rotate(a, r1));
    RowOfHolder(c, tr, a, k);
    assert |Last(tr).table.parents| == |Last(tr).table.rows|;
    assert Fresh(Last(tr1).table.rows, r2) by { FreshAfter(Last(tr).table.rows, k, r1, r2); }
    hide Valid, Inv, Fresh, Decide, Extend;
    HolderCanCommit(c, tr1, b, k, r2);
  }

  lemma FreshAfter(rows: seq<Row>, k: nat, r1: Row, r2: Row)
    requires k < |rows| && Fresh(rows + [r1], r2)
    ensures Fresh(rows[k := rows[k].MarkRotated(r1.jti)] + [r1], r2)
    ensures r2.jti != r1.jti
  {
    var rows' := rows[k := rows[k].MarkRotated(r1.jti)] + [r1];
    forall i | 0 <= i < |rows'| ensures rows'[i].refreshHash != r2.refreshHash && rows'[i].jti != r2.jti {
      assert (rows + [r1])[i].jti == rows'[i].jti && (rows + [r1])[i].refreshHash == rows'[i].refreshHash;
    }
    assert (rows + [r1])[|rows|] == r1;
  }

  // ---------- a family of tokens ----------

  ghost predicate HeldIn(w: World, r: nat, call: nat) {
    exists m: nat :: InFamily(w.table, m, r) && Holds(w, call, m)
  }

  /** No row of the family is usable, and no call holds one. */
  ghost predicate Quiet(w: World, r: nat) {
    FamilyDead(w.table, r) && forall call: nat :: !HeldIn(w, r, call)
  }

  /** No refresh of the family has committed from step n on. */
  ghost predicate NoneSince(w: World, n: nat, r: nat) {
    forall i :: 0 <= i < |w.commits| && w.commits[i].commitAt >= n ==> !InFamily(w.table, w.commits[i].row, r)
  }

  ghost predicate FamilyCanSucceed(c: Setup, tr: Trace, r: nat) {
    exists tr': Trace :: Valid(c, tr') && Continues(tr, tr') && !NoneSince(Last(tr'), |tr.steps|, r)
  }

  /** An old row's family does not change as the table grows. */
  lemma FamilyKept(ttl: int, t: Table, t': Table, m: nat, r: nat)
    requires Inv(ttl, t) && Inv(ttl, t') && Grows(t, t') && m < |t.rows|
    ensures InFamily(t', m, r) <==> InFamily(t, m, r)
  {
    RootStable(ttl, t, t', m);
  }

  lemma StepTables(c: Setup, w: World, s: Step, n: nat)
    requires WorldInv(c, w) && Enabled(c, w, s)
    ensures var t, t' := w.table, Apply(w, s, n).table;
            Inv(c.ttl, t) && Inv(c.ttl, t') && Grows(t, t') && |t.rows| <= |t'.rows|
  {
    TableStepKeepsInv(c, w, s, n);
    ApplyGrows(w, s, n);
    hide Apply, Enabled, Inv;
  }

  lemma HeldRowExists(c: Setup, w: World, call: nat, m: nat)
    requires WorldInv(c, w) && Holds(w, call, m)
    ensures m < |w.table.rows|
  {
    assert PendingOk(w, w.pending[call]);
  }

  /** Rows that are usable or held are not of a quiet family. */
  lemma QuietMeans(w: World, r: nat, call: nat, m: nat)
    requires Quiet(w, r) && m < |w.table.rows|
    requires Holds(w, call, m) || Usable(w.table, m)
    ensures !InFamily(w.table, m, r)
  {
    hide Holds;
    assert !HeldIn(w, r, call);
  }

  lemma HeldRowOf(w: World, r: nat, call: nat) returns (m: nat)
    requires HeldIn(w, r, call)
    ensures InFamily(w.table, m, r) && Holds(w, call, m)
  {
    m :| InFamily(w.table, m, r) && Holds(w, call, m);
  }

  /** Steps other than a rotation add, at most, the root of a new family. */
  lemma OnlyRotationsExtend(w: World, s: Step, n: nat, m: nat, r: nat)
    requires |w.table.parents| == |w.table.rows| && !s.Rotate? && r < |w.table.rows| <= m
    ensures !InFamily(Apply(w, s, n).table, m, r)
  {
    hide FindHash, RevokeDevice, RevokeHash, Decide;
    if s.RevokeReused? || s.Logout? {
      assert |Apply(w, s, n).table.rows| == |w.table.rows| by { RevokesAddNoRow(w, s, n); }
    }
  }

  lemma RevokesAddNoRow(w: World, s: Step, n: nat)
    requires s.RevokeReused? || s.Logout?
    ensures |Apply(w, s, n).table.rows| == |w.table.rows|
  {
  }

  /** What a rotation finds: its call holds the row. */
  lemma RotationFinds(c: Setup, w: World, s: Step, n: nat)
    requires WorldInv(c, w) && Enabled(c, w, s) && s.Rotate?
    ensures s.call in w.pending && Fresh(w.table.rows, s.row)
    ensures var k := w.pending[s.call].row;
            && k < |w.table.rows| && Holds(w, s.call, k)
            && Apply(w, s, n).table == SessionTable.Rotate(w.table, w.table.rows[k].jti, s.row)
  {
    assert PendingOk(w, w.pending[s.call]);
    hide Inv, RowsOwned, Fresh, SessionTable.Rotate;
  }

  /** A row that a step adds to a family is the successor of a row that the step's call held. */
  lemma NewMemberIsHeld(c: Setup, w: World, s: Step, n: nat, m: nat, r: nat)
    requires WorldInv(c, w) && Enabled(c, w, s) && r < |w.table.rows| <= m
    requires InFamily(Apply(w, s, n).table, m, r)
    ensures s.Rotate? && s.call in w.pending
    ensures var k := w.pending[s.call].row; k < |w.table.rows| && InFamily(w.table, k, r) && Holds(w, s.call, k)
  {
    hide *;
    StepTables(c, w, s, n);
    SameLengths(c.ttl, w.table);
    if s.Rotate? {
      RotationFinds(c, w, s, n);
      var k := w.pending[s.call].row;
      SuccessorRoot(c.ttl, w.table, k, s.row);
      FamilyOf(Apply(w, s, n).table, m, r);
      MemberByRoot(Apply(w, s, n).table, k, r);
      FamilyKept(c.ttl, w.table, Apply(w, s, n).table, k, r);
    } else {
      OnlyRotationsExtend(w, s, n, m, r);
    }
  }

  lemma SameLengths(ttl: int, t: Table)
    requires Inv(ttl, t)
    ensures |t.parents| == |t.rows|
  {
  }

  lemma FamilyOf(t: Table, m: nat, r: nat)
    requires InFamily(t, m, r)
    ensures m < |t.rows| && Root(t, m) == r
  {
  }

  lemma MemberByRoot(t: Table, m: nat, r: nat)
    requires m < |t.rows| && Root(t, m) == r
    ensures InFamily(t, m, r)
  {
  }

  lemma QuietTable(c: Setup, w: World, s: Step, n: nat, r: nat)
    requires WorldInv(c, w) && Enabled(c, w, s) && r < |w.table.rows| && Quiet(w, r)
    ensures FamilyDead(Apply(w, s, n).table, r)
  {
    var t, t' := w.table, Apply(w, s, n).table;
    hide Apply, Enabled, Inv, Holds, WorldInv, Quiet;
    StepTables(c, w, s, n);
    forall m: nat | InFamily(t', m, r) ensures !Usable(t', m) {
      if m < |t.rows| {
        FamilyKept(c.ttl, t, t', m, r);
        assert RowGrows(t.rows[m], t'.rows[m]);
        if Usable(t, m) {
          QuietMeans(w, r, 0, m);
        }
      } else {
        NewMemberIsHeld(c, w, s, n, m, r);
        QuietMeans(w, r, s.call, w.pending[s.call].row);
      }
    }
  }

  /** A call that holds a row after a step held it before, or has just read it usable. */
  lemma HolderFromStep(c: Setup, w: World, s: Step, n: nat, call: nat, m: nat)
    requires WorldInv(c, w) && Holds(Apply(w, s, n), call, m)
    ensures m < |w.table.rows| && (Holds(w, call, m) || Usable(w.table, m))
  {
    hide SessionTable.Rotate, RevokeDevice, RevokeHash, Create, WorldInv;
    if Holds(w, call, m) {
      HeldRowExists(c, w, call, m);
    }
  }

  lemma QuietHolders(c: Setup, w: World, s: Step, n: nat, r: nat, call: nat)
    requires WorldInv(c, w) && Enabled(c, w, s) && r < |w.table.rows| && Quiet(w, r)
    ensures !HeldIn(Apply(w, s, n), r, call)
  {
    hide *;
    StepTables(c, w, s, n);
    if HeldIn(Apply(w, s, n), r, call) {
      var m := HeldRowOf(Apply(w, s, n), r, call);
      HolderFromStep(c, w, s, n, call, m);
      QuietMeans(w, r, call, m);
      FamilyKept(c.ttl, w.table, Apply(w, s, n).table, m, r);
    }
  }

  /** A commit that a step adds is of a row that the step's call held. */
  lemma NewCommitIsHeld(c: Setup, w: World, s: Step, n: nat, i: nat)
    requires Enabled(c, w, s) && |w.commits| <= i < |Apply(w, s, n).commits|
    ensures s.Rotate? && Holds(w, s.call, Apply(w, s, n).commits[i].row)
  {
  }

  lemma CommitsKept(w: World, s: Step, n: nat)
    ensures w.commits <= Apply(w, s, n).commits
  {
  }

  lemma QuietCommits(c: Setup, w: World, s: Step, n: nat, r: nat, from: nat)
    requires WorldInv(c, w) && Enabled(c, w, s) && r < |w.table.rows| && Quiet(w, r) && NoneSince(w, from, r)
    requires forall i :: 0 <= i < |w.commits| ==> w.commits[i].row < |w.table.rows|
    ensures NoneSince(Apply(w, s, n), from, r)
  {
    var w' := Apply(w, s, n);
    hide Apply, Enabled, WorldInv, Inv, Grows, InFamily, Quiet, Holds;
    StepTables(c, w, s, n);
    CommitsKept(w, s, n);
    forall i: nat | i < |w'.commits| && w'.commits[i].commitAt >= from
      ensures !InFamily(w'.table, w'.commits[i].row, r)
    {
      var k := w'.commits[i].row;
      if i >= |w.commits| {
        NewCommitIsHeld(c, w, s, n, i);
        HeldRowExists(c, w, s.call, k);
        QuietMeans(w, r, s.call, k);
      }
      FamilyKept(c.ttl, w.table, w'.table, k, r);
    }
  }

  lemma CommittedRowsExist(c: Setup, tr: Trace, n: nat)
    requires n <= |tr.steps| && Valid(c, tr)
    ensures forall i :: 0 <= i < |tr.worlds[n].commits| ==>
              tr.worlds[n].commits[i].row < |tr.worlds[n].table.rows| && tr.worlds[n].commits[i].commitAt < n
  {
    hide Valid;
    forall i | 0 <= i < |tr.worlds[n].commits|
      ensures tr.worlds[n].commits[i].row < |tr.worlds[n].table.rows| && tr.worlds[n].commits[i].commitAt < n
    {
      CommittedToken(c, tr, n, i);
      CommitTimes(c, tr, n, i);
    }
  }

  lemma QuietStep(c: Setup, tr: Trace, n: nat, r: nat, from: nat)
    requires n < |tr.steps| && Valid(c, tr) && r < |tr.worlds[n].table.rows|
    requires Quiet(tr.worlds[n], r) && NoneSince(tr.worlds[n], from, r)
    ensures r < |tr.worlds[n + 1].table.rows|
    ensures Quiet(tr.worlds[n + 1], r) && NoneSince(tr.worlds[n + 1], from, r)
  {
    var w, s := tr.worlds[n], tr.steps[n];
    RunsStep(c, tr, n);
    InterleavingInv(c, tr, n);
    CommittedRowsExist(c, tr, n);
    hide Valid, Apply, Enabled, WorldInv, NoneSince;
    ApplyGrows(w, s, n);
    QuietTable(c, w, s, n, r);
    forall call: nat ensures !HeldIn(Apply(w, s, n), r, call) {
      QuietHolders(c, w, s, n, r, call);
    }
    QuietCommits(c, w, s, n, r, from);
  }

  lemma {:induction false} QuietStays(c: Setup, tr: Trace, m: nat, n: nat, r: nat)
    requires m <= n <= |tr.steps| && Valid(c, tr) && r < |tr.worlds[m].table.rows| && Quiet(tr.worlds[m], r)
    ensures r < |tr.worlds[n].table.rows|
    ensures Quiet(tr.worlds[n], r) && NoneSince(tr.worlds[n], m, r)
    decreases n
  {
    if m == n {
      CommittedRowsExist(c, tr, n);
      hide Valid, Quiet;
    } else {
      hide *;
      QuietStays(c, tr, m, n - 1, r);
      QuietStep(c, tr, n - 1, r, m);
    }
  }

  lemma MemberSucceeds(c: Setup, tr: Trace, m: nat, r: nat)
    requires Valid(c, tr) && InFamily(Last(tr).table, m, r) && CanSucceed(c, tr, m)
    ensures FamilyCanSucceed(c, tr, r)
  {
    hide Valid;
    var tr': Trace :| Valid(c, tr') && Continues(tr, tr') && SucceedsSince(tr', |tr.steps|, m);
    var n, n' := |tr.steps|, |tr'.steps|;
    assert tr'.worlds[n] == Last(tr);
    InterleavingInv(c, tr', n);
    InterleavingInv(c, tr', n');
    TableOnlyGrows(c, tr', n, n');
    FamilyKept(c.ttl, tr'.worlds[n].table, tr'.worlds[n'].table, m, r);
    var i :| 0 <= i < |Last(tr').commits| && Last(tr').commits[i].row == m && Last(tr').commits[i].commitAt >= n;
    assert !NoneSince(Last(tr'), n, r);
  }

  /** When a login's tokens can succeed again, exactly: some continuation of a run refreshes some
      token of the family, of its present rows or of their successors, if and only if a present row is
      usable or a call holds one. */
  lemma FamilyCanSucceedIff(c: Setup, tr: Trace, r: nat)
    requires Valid(c, tr) && r < |Last(tr).table.rows|
    ensures FamilyCanSucceed(c, tr, r) <==> !Quiet(Last(tr), r)
  {
    hide Valid, Holds, CanSucceed, Usable, NoneSince;
    if FamilyCanSucceed(c, tr, r) && Quiet(Last(tr), r) {
      var tr': Trace :| Valid(c, tr') && Continues(tr, tr') && !NoneSince(Last(tr'), |tr.steps|, r);
      assert tr'.worlds[|tr.steps|] == Last(tr);
      QuietStays(c, tr', |tr.steps|, |tr'.steps|, r);
      assert false;
    }
    if !FamilyDead(Last(tr).table, r) {
      var m: nat :| InFamily(Last(tr).table, m, r) && Usable(Last(tr).table, m);
      TokenCanSucceedIff(c, tr, m);
      MemberSucceeds(c, tr, m, r);
    } else if !Quiet(Last(tr), r) {
      var call: nat :| HeldIn(Last(tr), r, call);
      var m: nat :| InFamily(Last(tr).table, m, r) && Holds(Last(tr), call, m);
      TokenCanSucceedIff(c, tr, m);
      MemberSucceeds(c, tr, m, r);
    }
  }

  /** A usable row of the family on some other device. */
  ghost predicate UsableElsewhere(t: Table, r: nat, device: string) {
    exists m: nat :: InFamily(t, m, r) && Usable(t, m) && t.rows[m].deviceId != device
  }

  /** What a bulk revoke on the user and device of row k leaves usable of the row's family. */
  lemma RevokeLeaves(ttl: int, t: Table, k: nat, device: string, at: int)
    requires Inv(ttl, t) && k < |t.rows|
    ensures var t', r := RevokeDevice(t, t.rows[k].userId, device, at), Root(t, k);
            && r < |t'.rows|
            && (forall m: nat :: InFamily(t', m, r) <==> InFamily(t, m, r))
            && (FamilyDead(t', r) <==> !UsableElsewhere(t, r, device))
  {
    var t', r := RevokeDevice(t, t.rows[k].userId, device, at), Root(t, k);
    RevokeKeepsInv(ttl, t, t'.rows);
    StatementsGrow(t, t.rows[k], "", t.rows[k].userId, device, t.rows[k].refreshHash, at);
    RootIsLogin(ttl, t, k);
    forall m: nat ensures InFamily(t', m, r) <==> InFamily(t, m, r) {
      if m < |t.rows| {
        FamilyKept(ttl, t, t', m, r);
      }
    }
    forall m: nat | InFamily(t, m, r) ensures Usable(t', m) <==> Usable(t, m) && t.rows[m].deviceId != device {
      RootIsLogin(ttl, t, m);
    }
  }

  /** What the bulk revoke of a detected reuse does to a state. */
  lemma ReuseStep(c: Setup, w: World, call: nat, n: nat)
    requires WorldInv(c, w) && Enabled(c, w, RevokeReused(call))
    ensures var w', p := Apply(w, RevokeReused(call), n), w.pending[call];
            && Inv(c.ttl, w.table) && p.row < |w.table.rows|
            && w'.table == RevokeDevice(w.table, w.table.rows[p.row].userId, p.copy.deviceId, p.now)
  {
    assert PendingOk(w, w.pending[call]);
    hide Inv, RowsOwned, RevokeDevice;
  }

  lemma ReuseKeepsHolders(c: Setup, w: World, call: nat, n: nat)
    requires Enabled(c, w, RevokeReused(call))
    ensures forall call': nat, m: nat :: Holds(Apply(w, RevokeReused(call), n), call', m) <==> Holds(w, call', m)
  {
    hide RevokeDevice;
  }

  lemma SameHolders(w: World, w': World, r: nat)
    requires forall m: nat :: InFamily(w'.table, m, r) <==> InFamily(w.table, m, r)
    requires forall call': nat, m: nat :: Holds(w', call', m) <==> Holds(w, call', m)
    ensures forall call': nat :: HeldIn(w', r, call') <==> HeldIn(w, r, call')
  {
    hide InFamily, Holds;
  }

  lemma ReuseLeaves(c: Setup, w: World, call: nat, n: nat)
    requires WorldInv(c, w) && Enabled(c, w, RevokeReused(call))
    ensures var w', p := Apply(w, RevokeReused(call), n), w.pending[call];
            var r := Root(w.table, p.row);
            && r < |w'.table.rows|
            && (FamilyDead(w'.table, r) <==> !UsableElsewhere(w.table, r, p.copy.deviceId))
            && forall call': nat :: HeldIn(w', r, call') <==> HeldIn(w, r, call')
  {
    var w', p := Apply(w, RevokeReused(call), n), w.pending[call];
    hide *;
    ReuseStep(c, w, call, n);
    ReuseKeepsHolders(c, w, call, n);
    RevokeLeaves(c.ttl, w.table, p.row, p.copy.deviceId, p.now);
    SameHolders(w, w', Root(w.table, p.row));
  }

  /** Reuse detection's reach, exactly. After a detected reuse has revoked its user's rows on its
      device, a token of the reused token's family can still be refreshed if and only if some usable
      row of the family was on another device, or a refresh of the family was in flight, past its
      checks, at that moment. */
  lemma ReuseExactly(c: Setup, tr: Trace, call: nat)
    requires Valid(c, tr) && Enabled(c, Last(tr), RevokeReused(call))
    ensures var w, p := Last(tr), Last(tr).pending[call];
            var r := Root(w.table, p.row);
            (FamilyCanSucceed(c, Extend(tr, RevokeReused(call)), r) <==>
              || UsableElsewhere(w.table, r, p.copy.deviceId)
              || exists call': nat :: HeldIn(w, r, call'))
  {
    var w, s := Last(tr), RevokeReused(call);
    var p := w.pending[call];
    var r := Root(w.table, p.row);
    ExtendIsValid(c, tr, s);
    var tr' := Extend(tr, s);
    InterleavingInv(c, tr, |tr.steps|);
    assert PendingOk(w, p);
    ReuseLeaves(c, w, call, |tr.steps|);
    hide Valid, Extend, WorldInv, FamilyCanSucceed, Enabled, HeldIn, FamilyDead, UsableElsewhere;
    FamilyCanSucceedIff(c, tr', r);
  }
}
