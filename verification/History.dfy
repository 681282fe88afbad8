/** Which tokens a serial run accepts, told from the calls and answers alone, without the table. */
module History {
  import opened Base
  import opened Domain
  import opened SessionTable
  import opened AuthService
  import opened SerialRuns
  import Inter = Interleaving
  import Sig = Signer
  import SR = SessionsRepo

  // ---------- the vocabulary of a history ----------

  predicate Granted(tr: Trace, i: nat) {
    i < |tr.events| && tr.answers[i].GrantAnswer? && tr.answers[i].grant.Ok?
  }

  /** Call i, a login or a refresh, handed out refresh token raw. */
  predicate Issues(tr: Trace, i: nat, raw: string) {
    Granted(tr, i) && tr.answers[i].grant.value.refreshToken == raw
  }

  /** The subject of the access token that call i handed out with it. */
  function OwnerOf(tr: Trace, i: nat): Option<Sig.SubValue>
    requires Granted(tr, i)
  {
    var access := tr.answers[i].grant.value.access;
    if access.Jws? then access.body.sub else None
  }

  function DeviceOf(tr: Trace, i: nat): string
    requires i < |tr.events|
  {
    match tr.events[i].call
    case LoginCall(_, _, device, _, _, _) => device
    case RefreshCall(_, device, _, _, _) => device
    case _ => ""
  }

  function TimeOf(tr: Trace, i: nat): int
    requires i < |tr.events|
  {
    match tr.events[i].call
    case LoginCall(_, _, _, _, _, env) => env.now
    case RefreshCall(_, _, _, _, env) => env.now
    case _ => 0
  }

  predicate Spends(tr: Trace, j: nat, raw: string) {
    Granted(tr, j) && tr.events[j].call.RefreshCall? && tr.events[j].call.raw == raw
  }

  predicate LogsOut(tr: Trace, j: nat, raw: string) {
    j < |tr.events| && tr.events[j].call.LogoutCall? && tr.events[j].call.raw == raw && NonEmpty(raw) && !tr.events[j].call.fails
  }

  /** Call j presented a used token and its bulk revoke succeeded. */
  predicate DetectsReuse(tr: Trace, j: nat) {
    && j < |tr.events| && tr.events[j].call.RefreshCall? && !tr.events[j].call.onRefresh.bulkFails
    && tr.answers[j] == GrantAnswer(Err(ReusedRefresh))
  }

  /** Call j detected reuse of a token that an earlier call had issued to this owner and device. */
  ghost predicate ReuseOn(tr: Trace, j: nat, owner: Option<Sig.SubValue>, device: string) {
    && DetectsReuse(tr, j)
    && exists i: nat :: i < j && Issues(tr, i, tr.events[j].call.raw) && OwnerOf(tr, i) == owner && DeviceOf(tr, i) == device
  }

  /** raw was issued by call i, and before call n was not refreshed, not logged out, and not hit by
      reuse detection on its owner and device; and it is within its time at now. */
  ghost predicate StillGood(cfg: Config, tr: Trace, i: nat, n: nat, raw: string, now: int) {
    && i < n && Issues(tr, i, raw)
    && now <= TimeOf(tr, i) + cfg.refreshTTL
    && (forall j: nat :: i < j < n ==> !Spends(tr, j, raw))
    && (forall j: nat :: i < j < n ==> !LogsOut(tr, j, raw))
    && (forall j: nat :: i < j < n ==> !ReuseOn(tr, j, OwnerOf(tr, i), DeviceOf(tr, i)))
  }

  // ---------- rows and the calls that made them ----------

  function Rows(tr: Trace, n: nat): seq<Row>
    requires n <= |tr.events|
  {
    tr.states[n].table.rows
  }

  ghost predicate RowOfCall(cfg: Config, tr: Trace, i: nat, r: Row)
    requires Granted(tr, i)
  {
    && r.refreshHash == Sha256Hex(tr.answers[i].grant.value.refreshToken)
    && OwnerOf(tr, i) == Some(Sig.Text(Uuid(r.userId)))
    && r.deviceId == DeviceOf(tr, i) && r.expiresAt == TimeOf(tr, i) + cfg.refreshTTL
  }

  lemma StepFacts(cfg: Config, tr: Trace, i: nat)
    requires i < |tr.events| && Valid(cfg, tr)
    ensures SysInv(cfg, tr.states[i]) && Inv(cfg.refreshTTL, tr.states[i].table)
    ensures var s, w := tr.states[i], WriteOf(cfg, tr.states[i], tr.events[i]);
            && WriteOk(cfg, s, tr.events[i], w, tr.answers[i])
            && tr.states[i + 1].table == Perform(s.table, w)
  {
    SerialInv(cfg, tr, i);
    assert Runs(cfg, tr, i);
    InvOf(cfg, tr.states[i]);
    hide SysInv, WriteOk, WriteOf, Perform, Serve, MintsFresh;
    ServeWrites(cfg, tr.states[i], tr.events[i]);
  }

  /** A grant inserts its row, live, at the end of the table; no other call inserts one. */
  lemma GrantInsertsRow(cfg: Config, tr: Trace, i: nat)
    requires i < |tr.events| && Valid(cfg, tr)
    ensures |Rows(tr, i + 1)| == |Rows(tr, i)| + (if Granted(tr, i) then 1 else 0)
    ensures Granted(tr, i) ==>
              var r := Rows(tr, i + 1)[|Rows(tr, i)|];
              RowOfCall(cfg, tr, i, r) && r.revokedAt.None? && r.replacedBy.None?
  {
    StepFacts(cfg, tr, i);
    var s := tr.states[i];
    var w := WriteOf(cfg, s, tr.events[i]);
    match w
    case Rotation(k, r) => RotateTouchesOneRow(cfg.refreshTTL, s.table, k, r);
    case _ =>
  }

  /** The row of call i, as it is after n calls. */
  lemma RowOfGrant(cfg: Config, tr: Trace, i: nat, n: nat)
    requires i < n <= |tr.events| && Valid(cfg, tr) && Granted(tr, i)
    ensures |Rows(tr, i)| < |Rows(tr, n)|
    ensures RowOfCall(cfg, tr, i, Rows(tr, n)[|Rows(tr, i)|])
  {
    GrantInsertsRow(cfg, tr, i);
    SerialGrows(cfg, tr, i + 1, n);
    RowSurvives(cfg, tr, i, n);
  }

  lemma RowSurvives(cfg: Config, tr: Trace, i: nat, n: nat)
    requires i < n <= |tr.events| && Granted(tr, i)
    requires Grows(tr.states[i + 1].table, tr.states[n].table)
    requires |Rows(tr, i)| < |Rows(tr, i + 1)|
    requires RowOfCall(cfg, tr, i, Rows(tr, i + 1)[|Rows(tr, i)|])
    ensures |Rows(tr, i)| < |Rows(tr, n)|
    ensures RowOfCall(cfg, tr, i, Rows(tr, n)[|Rows(tr, i)|])
  {
    var k := |Rows(tr, i)|;
    assert RowGrows(Rows(tr, i + 1)[k], Rows(tr, n)[k]);
  }

  lemma StartsEmpty(cfg: Config, tr: Trace)
    requires Valid(cfg, tr)
    ensures Rows(tr, 0) == []
  {
  }

  lemma {:induction false} RowHasGrant(cfg: Config, tr: Trace, n: nat, k: nat) returns (i: nat)
    requires n <= |tr.events| && Valid(cfg, tr) && k < |Rows(tr, n)|
    ensures i < n && Granted(tr, i) && |Rows(tr, i)| == k
    ensures RowOfCall(cfg, tr, i, Rows(tr, n)[k])
  {
    StartsEmpty(cfg, tr);
    GrantInsertsRow(cfg, tr, n - 1);
    if k < |Rows(tr, n - 1)| {
      i := RowHasGrant(cfg, tr, n - 1, k);
    } else {
      i := n - 1;
    }
    RowOfGrant(cfg, tr, i, n);
  }

  // ---------- what one call does to one row ----------

  predicate WriteRevokes(t: Table, w: Write, k: nat)
    requires k < |t.rows| && (w.Rotation? || w.DeviceRevoke? ==> w.k < |t.rows|)
  {
    || (w.TokenRevoke? && t.rows[k].refreshHash == w.h)
    || (w.DeviceRevoke? && t.rows[k].userId == t.rows[w.k].userId && t.rows[k].deviceId == t.rows[w.k].deviceId)
  }

  lemma WriteOnRow(ttl: int, t: Table, w: Write, k: nat)
    requires Inv(ttl, t) && k < |t.rows|
    requires w.Rotation? || w.DeviceRevoke? ==> w.k < |t.rows|
    requires w.Rotation? ==> Fresh(t.rows, w.row)
    ensures k < |Perform(t, w).rows|
    ensures Perform(t, w).rows[k].revokedAt.Some? <==> t.rows[k].revokedAt.Some? || WriteRevokes(t, w, k)
    ensures Perform(t, w).rows[k].replacedBy.Some? <==> t.rows[k].replacedBy.Some? || (w.Rotation? && w.k == k)
  {
    if w.Rotation? {
      RotateTouchesOneRow(ttl, t, w.k, w.row);
    }
  }

  /** Row k, of token raw, is replaced by a call exactly when the call spends raw. */
  lemma ReplacedByCall(cfg: Config, tr: Trace, j: nat, k: nat, raw: string)
    requires j < |tr.events| && Valid(cfg, tr) && k < |Rows(tr, j)| && Rows(tr, j)[k].refreshHash == Sha256Hex(raw)
    ensures k < |Rows(tr, j + 1)|
    ensures Rows(tr, j + 1)[k].replacedBy.Some? <==>
              Rows(tr, j)[k].replacedBy.Some? || Spends(tr, j, raw)
  {
    StepFacts(cfg, tr, j);
    var s := tr.states[j];
    var w := WriteOf(cfg, s, tr.events[j]);
    WriteOnRow(cfg.refreshTTL, s.table, w, k);
  }

  /** Row k, born of call i, is revoked by a call exactly when the call logs its token out or
      detects reuse on its owner and device. */
  lemma RevokedByCall(cfg: Config, tr: Trace, i: nat, j: nat, raw: string)
    requires i < j < |tr.events| && Valid(cfg, tr) && Issues(tr, i, raw)
    ensures var k := |Rows(tr, i)|;
            && k < |Rows(tr, j)| && k < |Rows(tr, j + 1)|
            && (Rows(tr, j + 1)[k].revokedAt.Some? <==>
                  || Rows(tr, j)[k].revokedAt.Some?
                  || LogsOut(tr, j, raw)
                  || ReuseOn(tr, j, OwnerOf(tr, i), DeviceOf(tr, i)))
  {
    var k := |Rows(tr, i)|;
    StepFacts(cfg, tr, j);
    RowOfGrant(cfg, tr, i, j);
    TokenRevokeIsLogout(cfg, tr, j);
    DeviceRevokeIsReuse(cfg, tr, i, j);
    var s := tr.states[j];
    var w := WriteOf(cfg, s, tr.events[j]);
    WriteOnRow(cfg.refreshTTL, s.table, w, k);
  }

  lemma TokenRevokeIsLogout(cfg: Config, tr: Trace, j: nat)
    requires j < |tr.events|
    ensures var w := WriteOf(cfg, tr.states[j], tr.events[j]);
            forall raw :: (w.TokenRevoke? && w.h == Sha256Hex(raw)) <==> LogsOut(tr, j, raw)
  {
  }

  lemma DeviceRevokeIsReuse(cfg: Config, tr: Trace, i: nat, j: nat)
    requires i < j < |tr.events| && Valid(cfg, tr) && Granted(tr, i)
    ensures var k, t, w := |Rows(tr, i)|, tr.states[j].table, WriteOf(cfg, tr.states[j], tr.events[j]);
            && k < |t.rows| && (w.DeviceRevoke? ==> w.k < |t.rows|)
            && ((w.DeviceRevoke? && t.rows[k].userId == t.rows[w.k].userId && t.rows[k].deviceId == t.rows[w.k].deviceId)
                <==> ReuseOn(tr, j, OwnerOf(tr, i), DeviceOf(tr, i)))
  {
    var k, t, w := |Rows(tr, i)|, tr.states[j].table, WriteOf(cfg, tr.states[j], tr.events[j]);
    StepFacts(cfg, tr, j);
    RowOfGrant(cfg, tr, i, j);
    assert Runs(cfg, tr, j);
    ReuseWrites(cfg, tr, j);
    if w.DeviceRevoke? {
      var i' := RowHasGrant(cfg, tr, j, w.k);
      assert Issues(tr, i', tr.events[j].call.raw);
      if ReuseOn(tr, j, OwnerOf(tr, i), DeviceOf(tr, i)) {
        var i'': nat :| i'' < j && Issues(tr, i'', tr.events[j].call.raw)
                        && OwnerOf(tr, i'') == OwnerOf(tr, i) && DeviceOf(tr, i'') == DeviceOf(tr, i);
        RowOfGrant(cfg, tr, i'', j);
        assert |Rows(tr, i'')| == w.k;
      }
    }
  }

  /** The device revoke happens exactly when reuse is detected. */
  lemma ReuseWrites(cfg: Config, tr: Trace, j: nat)
    requires Runs(cfg, tr, j)
    ensures WriteOf(cfg, tr.states[j], tr.events[j]).DeviceRevoke? <==> DetectsReuse(tr, j)
  {
    var s := tr.states[j];
    if tr.events[j].call.RefreshCall? && tr.answers[j] == GrantAnswer(Err(ReusedRefresh)) {
      assert FindHash(s.table.rows, Sha256Hex(tr.events[j].call.raw)).Some?;
    }
  }

  // ---------- a bit of a row that is set was set by some call ----------

  lemma {:induction false} RevokedSince(cfg: Config, tr: Trace, i: nat, n: nat, raw: string)
    requires i < n <= |tr.events| && Valid(cfg, tr) && Issues(tr, i, raw)
    ensures |Rows(tr, i)| < |Rows(tr, n)|
    ensures Rows(tr, n)[|Rows(tr, i)|].revokedAt.Some? <==>
              exists j: nat :: i < j < n && (LogsOut(tr, j, raw) || ReuseOn(tr, j, OwnerOf(tr, i), DeviceOf(tr, i)))
  {
    if n == i + 1 {
      GrantInsertsRow(cfg, tr, i);
    } else {
      RevokedSince(cfg, tr, i, n - 1, raw);
      RevokedByCall(cfg, tr, i, n - 1, raw);
    }
  }

  lemma {:induction false} ReplacedSince(cfg: Config, tr: Trace, i: nat, n: nat, raw: string)
    requires i < n <= |tr.events| && Valid(cfg, tr) && Issues(tr, i, raw)
    ensures |Rows(tr, i)| < |Rows(tr, n)|
    ensures Rows(tr, n)[|Rows(tr, i)|].replacedBy.Some? <==>
              exists j: nat :: i < j < n && Spends(tr, j, raw)
  {
    if n == i + 1 {
      GrantInsertsRow(cfg, tr, i);
    } else {
      ReplacedSince(cfg, tr, i, n - 1, raw);
      RowOfGrant(cfg, tr, i, n - 1);
      ReplacedByCall(cfg, tr, n - 1, |Rows(tr, i)|, raw);
    }
  }

  // ---------- history refinement ----------

  /** No failure of store, signer, random source or address parsing. */
  predicate Unfailing(cfg: Config, e: Event) {
    && e.call.RefreshCall?
    && !e.call.onRefresh.findFails && e.call.onRefresh.fault == SR.NoFault && e.call.onRefresh.newToken.Some?
    && e.sg.kid in e.sg.keys && Sig.IsRsaAlg(e.sg.alg)
    && ParseIp(cfg.netParseIp, e.call.ip).Ok?
  }

  /** The table's account of acceptance: the token has a row, and the row is live. */
  lemma AcceptedIffLive(cfg: Config, s: Sys, e: Event)
    requires SysInv(cfg, s) && MintsFresh(s, e.call) && Unfailing(cfg, e)
    ensures Serve(cfg, s, e).1.GrantAnswer?
    ensures Serve(cfg, s, e).1.grant.Ok? <==>
              && NonEmpty(e.call.raw)
              && exists k :: 0 <= k < |s.table.rows| && s.table.rows[k].refreshHash == Sha256Hex(e.call.raw)
                   && Inter.Decide(s.table.rows[k], e.call.onRefresh.now) == Inter.Proceed
  {
    assert Inv(cfg.refreshTTL, s.table) by { InvOf(cfg, s); }
    var k := FindHash(s.table.rows, Sha256Hex(e.call.raw));
    if k.Some? {
      assert forall k' :: 0 <= k' < |s.table.rows| && s.table.rows[k'].refreshHash == Sha256Hex(e.call.raw) ==> k' == k.value;
    }
  }

  lemma InvOf(cfg: Config, s: Sys)
    requires SysInv(cfg, s)
    ensures Inv(cfg.refreshTTL, s.table)
  {
  }

  /** Issued tokens are not blank. */
  lemma IssuedNonEmpty(cfg: Config, tr: Trace, i: nat)
    requires i < |tr.events| && Valid(cfg, tr) && Granted(tr, i)
    ensures NonEmpty(tr.answers[i].grant.value.refreshToken)
  {
    StepFacts(cfg, tr, i);
    hide WriteOf, Inv, SysInv, Perform, NonEmpty;
  }

  /** History refinement. In a serial run, whatever failed in other calls, a Refresh that meets no
      failure of its own accepts its token exactly when the history says so: some earlier call issued
      it, no later call refreshed it, logged it out or detected reuse on its user and device, and it
      has not outlived its time. */
  lemma HistoryRefinement(cfg: Config, tr: Trace, n: nat)
    requires n < |tr.events| && Valid(cfg, tr) && Unfailing(cfg, tr.events[n])
    ensures Granted(tr, n) <==>
              exists i: nat :: StillGood(cfg, tr, i, n, tr.events[n].call.raw, tr.events[n].call.onRefresh.now)
  {
    var raw, now, s := tr.events[n].call.raw, tr.events[n].call.onRefresh.now, tr.states[n];
    SerialInv(cfg, tr, n);
    assert Runs(cfg, tr, n);
    hide Serve, MintsFresh, SysInv, Unfailing, StillGood;
    AcceptedIffLive(cfg, s, tr.events[n]);
    if Granted(tr, n) {
      var k :| 0 <= k < |s.table.rows| && s.table.rows[k].refreshHash == Sha256Hex(raw)
               && Inter.Decide(s.table.rows[k], now) == Inter.Proceed;
      var i := RowHasGrant(cfg, tr, n, k);
      GoodIffLive(cfg, tr, i, n, raw, now);
    }
    if exists i: nat :: StillGood(cfg, tr, i, n, raw, now) {
      var i: nat :| StillGood(cfg, tr, i, n, raw, now);
      IssuedNonEmpty(cfg, tr, i);
      GoodIffLive(cfg, tr, i, n, raw, now);
      var k := |Rows(tr, i)|;
      assert s.table.rows[k].refreshHash == Sha256Hex(raw) && Inter.Decide(s.table.rows[k], now) == Inter.Proceed;
    }
  }

  /** The history's and the table's accounts of one issued token. */
  lemma GoodIffLive(cfg: Config, tr: Trace, i: nat, n: nat, raw: string, now: int)
    requires i < n <= |tr.events| && Valid(cfg, tr) && Issues(tr, i, raw)
    ensures |Rows(tr, i)| < |Rows(tr, n)|
    ensures RowOfCall(cfg, tr, i, Rows(tr, n)[|Rows(tr, i)|])
    ensures StillGood(cfg, tr, i, n, raw, now) <==>
              Inter.Decide(Rows(tr, n)[|Rows(tr, i)|], now) == Inter.Proceed
  {
    RevokedSince(cfg, tr, i, n, raw);
    ReplacedSince(cfg, tr, i, n, raw);
    RowOfGrant(cfg, tr, i, n);
  }

  // ---------- the outcome automaton of one token ----------

  /** Call i presents raw and its lookup succeeds. */
  predicate Presents(tr: Trace, i: nat, raw: string) {
    i < |tr.events| && tr.events[i].call.RefreshCall? && tr.events[i].call.raw == raw && NonEmpty(raw) && !tr.events[i].call.onRefresh.findFails
  }

  function GrantAt(tr: Trace, i: nat): Result<Grant, Error>
    requires i < |tr.events|
  {
    if tr.answers[i].GrantAnswer? then tr.answers[i].grant else Err(StoreFailed)
  }

  /** The answer to a presented token tells what was found: nothing, or a row and the verdict on it.
      A row that passes every check is never answered with one of the verdicts' errors. */
  lemma AnswerTellsDecision(cfg: Config, s: Sys, e: Event)
    requires e.call.RefreshCall? && NonEmpty(e.call.raw) && !e.call.onRefresh.findFails
    ensures var k, a := FindHash(s.table.rows, Sha256Hex(e.call.raw)), Serve(cfg, s, e).1;
            && a.GrantAnswer?
            && (a.grant == Err(InvalidRefresh) <==> k.None?)
            && (k.Some? ==>
                  var d := Inter.Decide(s.table.rows[k.value], e.call.onRefresh.now);
                  && (a.grant == Err(RevokedRefresh) <==> d == Inter.Revoked)
                  && (a.grant == Err(ExpiredRefresh) <==> d == Inter.Expired)
                  && (a.grant == Err(ReusedRefresh) <==> d == Inter.Reused)
                  && (a.grant.Ok? ==> d == Inter.Proceed))
  {
  }

  /** The row of a token that was found once is found again at every later call. */
  lemma FoundAgain(cfg: Config, tr: Trace, i: nat, j: nat, k: nat, raw: string)
    requires i <= j <= |tr.events| && Valid(cfg, tr)
    requires k < |Rows(tr, i)| && Rows(tr, i)[k].refreshHash == Sha256Hex(raw)
    ensures k < |Rows(tr, j)| && FindHash(Rows(tr, j), Sha256Hex(raw)) == Some(k)
    ensures RowGrows(Rows(tr, i)[k], Rows(tr, j)[k])
  {
    SerialGrows(cfg, tr, i, j);
    SerialInv(cfg, tr, j);
    InvOf(cfg, tr.states[j]);
    assert RowGrows(Rows(tr, i)[k], Rows(tr, j)[k]);
  }

  /** A successful refresh leaves its row replaced; a detected reuse leaves its row revoked. */
  lemma PresentedRowAfter(cfg: Config, tr: Trace, i: nat, k: nat, raw: string)
    requires Valid(cfg, tr) && Presents(tr, i, raw)
    requires k < |Rows(tr, i)| && Rows(tr, i)[k].refreshHash == Sha256Hex(raw)
    ensures k < |Rows(tr, i + 1)|
    ensures Granted(tr, i) ==> Rows(tr, i + 1)[k].replacedBy.Some?
    ensures DetectsReuse(tr, i) ==> Rows(tr, i + 1)[k].revokedAt.Some?
  {
    ReplacedByCall(cfg, tr, i, k, raw);
    assert Runs(cfg, tr, i);
    ReuseWrites(cfg, tr, i);
    StepFacts(cfg, tr, i);
    FoundAgain(cfg, tr, i, i, k, raw);
    var s := tr.states[i];
    var w := WriteOf(cfg, s, tr.events[i]);
    WriteOnRow(cfg.refreshTTL, s.table, w, k);
  }

  /** The answers to one token, at calls i < j of a serial run, whatever runs in between: after a
      success come only reuse, revocation or expiry; after a detected reuse only revocation; a
      revoked token stays revoked; and under a clock that has not run backwards an expired token
      stays expired or becomes revoked. */
  lemma TokenAutomaton(cfg: Config, tr: Trace, i: nat, j: nat, raw: string)
    requires i < j && Valid(cfg, tr) && Presents(tr, i, raw) && Presents(tr, j, raw)
    ensures var a, b := GrantAt(tr, i), GrantAt(tr, j);
            && (a.Ok? ==> b in {Err(ReusedRefresh), Err(RevokedRefresh), Err(ExpiredRefresh)})
            && (DetectsReuse(tr, i) ==> b == Err(RevokedRefresh))
            && (a == Err(ReusedRefresh) ==> b in {Err(ReusedRefresh), Err(RevokedRefresh), Err(ExpiredRefresh)})
            && (a == Err(RevokedRefresh) ==> b == Err(RevokedRefresh))
            && (a == Err(ExpiredRefresh) && tr.events[i].call.onRefresh.now <= tr.events[j].call.onRefresh.now ==>
                  b in {Err(ExpiredRefresh), Err(RevokedRefresh)})
  {
    assert Runs(cfg, tr, i);
    AnswerAtTellsDecision(cfg, tr, i, raw);
    assert Runs(cfg, tr, j);
    AnswerAtTellsDecision(cfg, tr, j, raw);
    var found := FindHash(Rows(tr, i), Sha256Hex(raw));
    if found.Some? {
      var k := found.value;
      PresentedRowAfter(cfg, tr, i, k, raw);
      FoundAgain(cfg, tr, i, i + 1, k, raw);
      FoundAgain(cfg, tr, i + 1, j, k, raw);
      RowsProgress(Rows(tr, i)[k], Rows(tr, i + 1)[k], Rows(tr, j)[k],
                   tr.events[i].call.onRefresh.now, tr.events[j].call.onRefresh.now);
      GrantedOrReused(tr, i);
    } else {
      GrantedOrReused(tr, i);
    }
  }

  lemma GrantedOrReused(tr: Trace, i: nat)
    requires i < |tr.events| && tr.events[i].call.RefreshCall?
    ensures Granted(tr, i) <==> GrantAt(tr, i).Ok?
    ensures DetectsReuse(tr, i) ==> GrantAt(tr, i) == Err(ReusedRefresh)
  {
  }

  lemma AnswerAtTellsDecision(cfg: Config, tr: Trace, i: nat, raw: string)
    requires Runs(cfg, tr, i) && Presents(tr, i, raw)
    ensures var k, a := FindHash(Rows(tr, i), Sha256Hex(raw)), GrantAt(tr, i);
            && (a == Err(InvalidRefresh) <==> k.None?)
            && (k.Some? ==>
                  var d := Inter.Decide(Rows(tr, i)[k.value], tr.events[i].call.onRefresh.now);
                  && (a == Err(RevokedRefresh) <==> d == Inter.Revoked)
                  && (a == Err(ExpiredRefresh) <==> d == Inter.Expired)
                  && (a == Err(ReusedRefresh) <==> d == Inter.Reused)
                  && (a.Ok? ==> d == Inter.Proceed))
  {
    hide Serve, FindHash, Inter.Decide, MintsFresh;
    AnswerTellsDecision(cfg, tr.states[i], tr.events[i]);
  }

  /** How the verdict on a row moves as the row ages from a, at one call, to b just after it, to c. */
  lemma RowsProgress(a: Row, b: Row, c: Row, now: int, now': int)
    requires RowGrows(a, b) && RowGrows(b, c)
    ensures b.replacedBy.Some? ==> Inter.Decide(c, now') in {Inter.Reused, Inter.Revoked, Inter.Expired}
    ensures b.revokedAt.Some? ==> Inter.Decide(c, now') == Inter.Revoked
    ensures Inter.Decide(a, now) == Inter.Revoked ==> Inter.Decide(c, now') == Inter.Revoked
    ensures Inter.Decide(a, now) == Inter.Reused ==> Inter.Decide(c, now') in {Inter.Reused, Inter.Revoked, Inter.Expired}
    ensures Inter.Decide(a, now) == Inter.Expired && now <= now' ==> Inter.Decide(c, now') in {Inter.Expired, Inter.Revoked}
  {
  }

  /** Each token is accepted at most once. */
  lemma AcceptedAtMostOnce(cfg: Config, tr: Trace, i: nat, j: nat, raw: string)
    requires Valid(cfg, tr) && Spends(tr, i, raw) && Spends(tr, j, raw)
    ensures i == j
  {
    GrantMeansPresented(cfg, tr, i);
    GrantMeansPresented(cfg, tr, j);
    if i < j {
      TokenAutomaton(cfg, tr, i, j, raw);
    } else if j < i {
      TokenAutomaton(cfg, tr, j, i, raw);
    }
  }

  lemma GrantMeansPresented(cfg: Config, tr: Trace, i: nat)
    requires Valid(cfg, tr) && Granted(tr, i) && tr.events[i].call.RefreshCall?
    ensures Presents(tr, i, tr.events[i].call.raw)
  {
    assert Runs(cfg, tr, i);
  }

  /** A logout whose store step succeeds sends an issued token to revoked, for ever. */
  lemma LogoutIsFinal(cfg: Config, tr: Trace, i: nat, l: nat, j: nat, raw: string)
    requires i < l < j && Valid(cfg, tr) && Issues(tr, i, raw) && LogsOut(tr, l, raw) && Presents(tr, j, raw)
    ensures GrantAt(tr, j) == Err(RevokedRefresh)
  {
    assert Runs(cfg, tr, j);
    AnswerAtTellsDecision(cfg, tr, j, raw);
    hide Serve, MintsFresh, FindHash;
    RevokedSince(cfg, tr, i, j, raw);
    RowOfGrant(cfg, tr, i, j);
    var k := |Rows(tr, i)|;
    assert Rows(tr, j)[k].refreshHash == Sha256Hex(raw);
    FoundAgain(cfg, tr, j, j, k, raw);
  }

  // ---------- every answer, from the history ----------

  ghost predicate KilledBefore(tr: Trace, i: nat, n: nat, raw: string)
    requires Granted(tr, i)
  {
    exists j: nat :: i < j < n && (LogsOut(tr, j, raw) || ReuseOn(tr, j, OwnerOf(tr, i), DeviceOf(tr, i)))
  }

  ghost predicate SpentBefore(tr: Trace, i: nat, n: nat, raw: string) {
    exists j: nat :: i < j < n && Spends(tr, j, raw)
  }

  /** The verdict on a token that call i issued, presented at call n, told from the history: revoked
      if it was logged out or reuse hit its user and device; else expired if its time is over; else
      reused if it was spent; else neither of these nor unknown. */
  lemma HistoryDecidesVerdict(cfg: Config, tr: Trace, i: nat, n: nat, raw: string)
    requires i < n && Valid(cfg, tr) && Issues(tr, i, raw) && Presents(tr, n, raw)
    ensures var a, late := GrantAt(tr, n), tr.events[n].call.onRefresh.now > TimeOf(tr, i) + cfg.refreshTTL;
            && a != Err(InvalidRefresh)
            && (a == Err(RevokedRefresh) <==> KilledBefore(tr, i, n, raw))
            && (a == Err(ExpiredRefresh) <==> !KilledBefore(tr, i, n, raw) && late)
            && (a == Err(ReusedRefresh) <==> !KilledBefore(tr, i, n, raw) && !late && SpentBefore(tr, i, n, raw))
  {
    assert Runs(cfg, tr, n);
    AnswerAtTellsDecision(cfg, tr, n, raw);
    RevokedSince(cfg, tr, i, n, raw);
    ReplacedSince(cfg, tr, i, n, raw);
    RowOfGrant(cfg, tr, i, n);
    FoundAgain(cfg, tr, n, n, |Rows(tr, i)|, raw);
  }

  /** A presented token is unknown exactly when no earlier call issued it. */
  lemma UnknownIffNeverIssued(cfg: Config, tr: Trace, n: nat, raw: string)
    requires Valid(cfg, tr) && Presents(tr, n, raw)
    ensures GrantAt(tr, n) == Err(InvalidRefresh) <==> forall i: nat :: i < n ==> !Issues(tr, i, raw)
  {
    assert Runs(cfg, tr, n);
    AnswerAtTellsDecision(cfg, tr, n, raw);
    var k := FindHash(Rows(tr, n), Sha256Hex(raw));
    if k.Some? {
      var i := RowHasGrant(cfg, tr, n, k.value);
      IssuesIts(tr, i, raw);
    } else {
      forall i: nat | i < n ensures !Issues(tr, i, raw) {
        if Issues(tr, i, raw) {
          RowOfGrant(cfg, tr, i, n);
        }
      }
    }
  }

  lemma IssuesIts(tr: Trace, i: nat, raw: string)
    requires Granted(tr, i)
    ensures Sha256Hex(tr.answers[i].grant.value.refreshToken) == Sha256Hex(raw) <==> Issues(tr, i, raw)
  {
  }
}
