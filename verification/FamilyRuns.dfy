/** What reuse detection means for the tokens that later calls accept: which families of tokens some
    continuation of a serial run can still refresh. */
module FamilyRuns {
  import opened Base
  import opened Domain
  import opened Passwords
  import opened SessionTable
  import opened AuthService
  import opened SerialRuns
  import opened History
  import opened Families
  import opened Subjects
  import opened Mint
  import Inter = Interleaving
  import Keys
  import Sig = Signer
  import SR = SessionsRepo

  /** Call j is a refresh, granted, of a token of family r. */
  ghost predicate AcceptsFamily(tr: Trace, j: nat, r: nat) {
    && Granted(tr, j) && tr.events[j].call.RefreshCall?
    && exists m: nat :: InFamily(tr.states[j].table, m, r)
         && tr.states[j].table.rows[m].refreshHash == Sha256Hex(tr.events[j].call.raw)
  }

  /** Some continuation of the run accepts a token of family r. */
  ghost predicate CanBeAccepted(cfg: Config, tr: Trace, r: nat) {
    exists tr': Trace, j: nat :: Valid(cfg, tr') && Continues(tr, tr') && |tr.events| <= j && AcceptsFamily(tr', j, r)
  }

  const WORKING_SIGNER := Sig.SignerState("k", "RS256", "", "", map["k" := Keys.PrivateKey(0)], true)

  /** A refresh of raw in which nothing fails, minting text as token and JTI. */
  function PlainRefresh(raw: string, device: string, now: int, text: string): Event {
    Event(WORKING_SIGNER, RefreshCall(raw, device, "", "", RefreshEnv(false, now, false, now, Some(text), text, SR.NoFault)))
  }

  lemma PlainRefreshRuns(cfg: Config, tr: Trace, raw: string, device: string, now: int)
    requires Valid(cfg, tr)
    ensures var e := PlainRefresh(raw, device, now, FreshText(Last(tr).table.rows));
            && Unfailing(cfg, e) && MintsFresh(Last(tr), e.call)
            && Valid(cfg, Extend(cfg, tr, e)) && Continues(tr, Extend(cfg, tr, e))
  {
    var e := PlainRefresh(raw, device, now, FreshText(Last(tr).table.rows));
    assert MintsFresh(Last(tr), e.call) by { hide FreshText; }
    assert Unfailing(cfg, e);
    hide Valid, MintsFresh, Serve, PlainRefresh;
    ExtendIsValid(cfg, tr, e);
  }

  /** The token of a usable row is accepted, by a refresh at the row's expiry instant. */
  lemma UsableIsAccepted(cfg: Config, tr: Trace, m: nat, r: nat)
    requires Valid(cfg, tr) && InFamily(Last(tr).table, m, r) && Usable(Last(tr).table, m)
    ensures CanBeAccepted(cfg, tr, r)
  {
    var n, row := |tr.events|, Last(tr).table.rows[m];
    hide Valid, Root;
    var i := RowHasGrant(cfg, tr, n, m);
    IssuedNonEmpty(cfg, tr, i);
    var raw := tr.answers[i].grant.value.refreshToken;
    var e := PlainRefresh(raw, "", row.expiresAt, FreshText(Last(tr).table.rows));
    PlainRefreshRuns(cfg, tr, raw, "", row.expiresAt);
    SerialInv(cfg, tr, n);
    AcceptedIffLive(cfg, Last(tr), e);
    assert Inter.Decide(row, e.call.onRefresh.now) == Inter.Proceed;
    var tr' := Extend(cfg, tr, e);
    hide Serve, MintsFresh, SysInv, Unfailing;
    assert Granted(tr', n);
    assert AcceptsFamily(tr', n, r);
  }

  /** Which families live on, exactly: some continuation of a serial run accepts a token of the family
      if and only if a row of it is usable now. */
  lemma CanBeAcceptedIff(cfg: Config, tr: Trace, r: nat)
    requires Valid(cfg, tr) && r < |Last(tr).table.rows|
    ensures CanBeAccepted(cfg, tr, r) <==> !FamilyDead(Last(tr).table, r)
  {
    hide Valid, Usable, Root;
    if FamilyDead(Last(tr).table, r) && CanBeAccepted(cfg, tr, r) {
      var tr': Trace, j: nat :| Valid(cfg, tr') && Continues(tr, tr') && |tr.events| <= j && AcceptsFamily(tr', j, r);
      assert tr'.states[|tr.events|] == Last(tr);
      NoneAccepted(cfg, tr', |tr.events|, j, r);
    }
    if !FamilyDead(Last(tr).table, r) {
      var m: nat :| InFamily(Last(tr).table, m, r) && Usable(Last(tr).table, m);
      UsableIsAccepted(cfg, tr, m, r);
    }
  }

  lemma NoneAccepted(cfg: Config, tr: Trace, n: nat, j: nat, r: nat)
    requires Valid(cfg, tr) && n <= j < |tr.events| && r < |tr.states[n].table.rows| && FamilyDead(tr.states[n].table, r)
    ensures !AcceptsFamily(tr, j, r)
  {
    hide Valid, FamilyDead, Root;
    if AcceptsFamily(tr, j, r) {
      DeadFamilyStaysDead(cfg, tr, n, j, r);
      var m: nat :| InFamily(tr.states[j].table, m, r)
                    && tr.states[j].table.rows[m].refreshHash == Sha256Hex(tr.events[j].call.raw);
      DeadFamilyRefused(cfg, tr, j, r, m);
    }
  }

  /** Reuse detection, exactly. Right after a run's last call has detected reuse of row k's token, with
      the bulk revoke succeeding, some continuation accepts a token of the family if and only if the
      family's live end was on another device than row k, and not revoked. */
  lemma ReuseKillsExactly(cfg: Config, tr: Trace, j: nat, k: nat)
    requires Valid(cfg, tr) && |tr.events| == j + 1 && DetectsReuse(tr, j)
    requires k < |Rows(tr, j)| && Rows(tr, j)[k].refreshHash == Sha256Hex(tr.events[j].call.raw)
    ensures var ttl, t := cfg.refreshTTL, tr.states[j].table;
            && Inv(ttl, t)
            && (CanBeAccepted(cfg, tr, Root(t, k)) <==> !LiveEndHit(ttl, t, k))
  {
    hide *;
    var t := tr.states[j].table;
    ReuseIsARefresh(tr, j);
    RowsOfState(tr, j);
    TableInv(cfg, tr, j);
    ReuseWritesRow(cfg, tr, j, k);
    ReuseLeaves(cfg.refreshTTL, t, k, tr.events[j].call.onRefresh.now);
    LastIs(tr, j + 1);
    CanBeAcceptedIff(cfg, tr, Root(t, k));
  }

  lemma ReuseLeaves(ttl: int, t: Table, k: nat, at: int)
    requires Inv(ttl, t) && LinksAreParents(t) && k < |t.rows|
    ensures var t', r := RevokeDevice(t, t.rows[k].userId, t.rows[k].deviceId, at), Root(t, k);
            r < |t'.rows| && (FamilyDead(t', r) <==> LiveEndHit(ttl, t, k))
  {
    ReuseKillsFamilyExactly(ttl, t, k, at);
    hide Inv, LinksAreParents, FamilyDead;
  }

  lemma ReuseIsARefresh(tr: Trace, j: nat)
    requires DetectsReuse(tr, j)
    ensures j < |tr.events| && tr.events[j].call.RefreshCall?
  {
  }

  lemma LastIs(tr: Trace, n: nat)
    requires n == |tr.events|
    ensures Last(tr) == tr.states[n]
  {
  }

  // ---------- the surviving case, as a run of calls ----------

  /** A token is issued once. */
  lemma IssuedOnce(cfg: Config, tr: Trace, i: nat, j: nat, raw: string)
    requires Valid(cfg, tr) && i <= j < |tr.events| && Issues(tr, i, raw) && Issues(tr, j, raw)
    ensures i == j
  {
    hide Valid;
    if i < j {
      RowOfGrant(cfg, tr, i, j);
      RowOfGrant(cfg, tr, i, j + 1);
      RowOfGrant(cfg, tr, j, j + 1);
      SerialInv(cfg, tr, j + 1);
    }
  }

  function Begin(): Trace {
    RawTrace([], [Sys([], EMPTY)], [])
  }

  function RegisterEvent(email: string, password: string): Event {
    Event(WORKING_SIGNER, RegisterCall(email, password, true, RegisterEnv(0, false, 0, 1, false)))
  }

  function LoginEvent(email: string, password: string, device: string, text: string): Event {
    Event(WORKING_SIGNER, LoginCall(email, password, device, "", "", LoginEnv(false, 0, Some(text), Some(text), 0, false)))
  }

  /** Someone registers and is logged in from a phone. */
  lemma LoggedIn(cfg: Config, email: string, password: string) returns (tr: Trace)
    requires ParseEmail(cfg.validAddress, email).Ok? && Verdict(cfg.cat, DEFAULT_POLICY, password).None?
    ensures Valid(cfg, tr) && |tr.events| == 2 && tr.events[0].call.RegisterCall?
    ensures Granted(tr, 1) && tr.events[1].call.LoginCall? && DeviceOf(tr, 1) == "phone" && TimeOf(tr, 1) == 0
  {
    var e0, e1 := RegisterEvent(email, password), LoginEvent(email, password, "phone", "a");
    var tr1 := Extend(cfg, Begin(), e0);
    assert Registers(tr1, 0) by {
      assert Violates(cfg.cat, DEFAULT_POLICY, password, EmptyPassword) <==> password == "";
    }
    assert Valid(cfg, Begin());
    assert Last(Begin()) == Sys([], EMPTY);
    ExtendIsValid(cfg, Begin(), e0);
    assert Last(tr1).table == EMPTY;
    assert NonEmpty("a") by { assert "a"[0] == 'a'; }
    assert NonEmpty("phone") by { assert "phone"[0] == 'p'; }
    assert MintsFresh(Last(tr1), e1.call);
    hide Valid, Serve, Verdict;
    ExtendIsValid(cfg, tr1, e1);
    tr := Extend(cfg, tr1, e1);
    RegisterThenLogin(cfg, tr, 0, 1);
  }

  /** A used token from one device, and a live one from another. */
  ghost predicate Moved(cfg: Config, tr: Trace) {
    && Valid(cfg, tr) && |tr.events| >= 3 && tr.events[0].call.RegisterCall?
    && Granted(tr, 1) && tr.events[1].call.LoginCall? && DeviceOf(tr, 1) == "phone" && TimeOf(tr, 1) == 0
    && Spends(tr, 2, tr.answers[1].grant.value.refreshToken) && DeviceOf(tr, 2) == "laptop" && TimeOf(tr, 2) == 0
  }

  lemma MovesToLaptop(cfg: Config, tr: Trace) returns (tr': Trace)
    requires cfg.refreshTTL >= 0 && Valid(cfg, tr) && |tr.events| == 2 && tr.events[0].call.RegisterCall?
    requires Granted(tr, 1) && tr.events[1].call.LoginCall? && DeviceOf(tr, 1) == "phone" && TimeOf(tr, 1) == 0
    ensures Moved(cfg, tr') && |tr'.events| == 3
  {
    hide Valid, Serve, MintsFresh, Unfailing, FreshText;
    var raw := tr.answers[1].grant.value.refreshToken;
    PlainRefreshRuns(cfg, tr, raw, "laptop", 0);
    tr' := Extend(cfg, tr, PlainRefresh(raw, "laptop", 0, FreshText(Last(tr).table.rows)));
    HistoryRefinement(cfg, tr', 2);
    assert StillGood(cfg, tr', 1, 2, raw, 0);
  }

  lemma PhoneIsCaught(cfg: Config, tr: Trace) returns (tr': Trace)
    requires cfg.refreshTTL >= 0 && Moved(cfg, tr) && |tr.events| == 3
    ensures Moved(cfg, tr') && |tr'.events| == 4 && DetectsReuse(tr', 3)
    ensures tr'.events[3].call.raw == tr'.answers[1].grant.value.refreshToken
  {
    hide Valid, Serve, MintsFresh, Unfailing, FreshText;
    var raw := tr.answers[1].grant.value.refreshToken;
    IssuedNonEmpty(cfg, tr, 1);
    PlainRefreshRuns(cfg, tr, raw, "phone", 0);
    tr' := Extend(cfg, tr, PlainRefresh(raw, "phone", 0, FreshText(Last(tr).table.rows)));
    assert Spends(tr', 2, raw);
    assert !KilledBefore(tr', 1, 3, raw);
    HistoryDecidesVerdict(cfg, tr', 1, 3, raw);
  }

  lemma LaptopGoesOn(cfg: Config, tr: Trace) returns (tr': Trace)
    requires cfg.refreshTTL >= 0 && Moved(cfg, tr) && |tr.events| == 4 && DetectsReuse(tr, 3)
    requires tr.events[3].call.raw == tr.answers[1].grant.value.refreshToken
    ensures Moved(cfg, tr') && |tr'.events| == 5 && DetectsReuse(tr', 3)
    ensures tr'.events[3].call.raw == tr'.answers[1].grant.value.refreshToken
    ensures Spends(tr', 4, tr'.answers[2].grant.value.refreshToken)
  {
    hide Valid, Serve, MintsFresh, Unfailing, FreshText;
    var raw, first := tr.answers[2].grant.value.refreshToken, tr.answers[1].grant.value.refreshToken;
    PlainRefreshRuns(cfg, tr, raw, "laptop", 0);
    tr' := Extend(cfg, tr, PlainRefresh(raw, "laptop", 0, FreshText(Last(tr).table.rows)));
    HistoryRefinement(cfg, tr', 4);
    forall i: nat | i < 3 && Issues(tr', i, first) ensures DeviceOf(tr', i) == "phone" {
      IssuedOnce(cfg, tr', if i < 1 then i else 1, if i < 1 then 1 else i, first);
    }
    assert "phone"[0] != "laptop"[0];
    assert !ReuseOn(tr', 3, OwnerOf(tr', 2), DeviceOf(tr', 2));
    assert StillGood(cfg, tr', 2, 4, raw, 0);
  }

  /** The surviving case, as a run of calls: register, log in from a phone, refresh from a laptop,
      present the phone's used token again. The reuse is detected and revokes the phone's rows; and the
      laptop goes on with its token of the same family. */
  lemma ReuseSparesOtherDevice(cfg: Config, email: string, password: string) returns (tr: Trace)
    requires cfg.refreshTTL >= 0
    requires ParseEmail(cfg.validAddress, email).Ok? && Verdict(cfg.cat, DEFAULT_POLICY, password).None?
    ensures Moved(cfg, tr) && |tr.events| == 5
    ensures DetectsReuse(tr, 3) && tr.events[3].call.raw == tr.answers[1].grant.value.refreshToken
    ensures Spends(tr, 4, tr.answers[2].grant.value.refreshToken)
  {
    hide *;
    tr := LoggedIn(cfg, email, password);
    tr := MovesToLaptop(cfg, tr);
    tr := PhoneIsCaught(cfg, tr);
    tr := LaptopGoesOn(cfg, tr);
  }
}
