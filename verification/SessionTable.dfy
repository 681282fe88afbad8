/** The sessions table as a value: what each SQL statement or transaction turns it into,
    the invariant every statement keeps, and what the invariant says of the rotation links. */
module SessionTable {
  import opened Base
  import opened Domain

  /** rows are in insertion order. parents is a record kept beside the table for the proofs:
      parents[j] is the row whose rotation inserted row j, None for a row inserted by Login. */
  datatype Table = Table(rows: seq<Row>, parents: seq<Option<nat>>)

  const EMPTY := Table([], [])

  function FindHash(rows: seq<Row>, h: Digest): (k: Option<nat>)
    ensures k.Some? ==> k.value < |rows| && rows[k.value].refreshHash == h
    ensures k.None? ==> forall i :: 0 <= i < |rows| ==> rows[i].refreshHash != h
  {
    FirstBy(rows, (r: Row) => r.refreshHash == h)
  }

  function FindJti(rows: seq<Row>, jti: string): (k: Option<nat>)
    ensures k.Some? ==> k.value < |rows| && rows[k.value].jti == jti
    ensures k.None? ==> forall i :: 0 <= i < |rows| ==> rows[i].jti != jti
  {
    FirstBy(rows, (r: Row) => r.jti == jti)
  }

  /** The schema's only uniqueness constraint: (user_id, device_id, jti). */
  predicate KeyTaken(rows: seq<Row>, r: Row) {
    exists i :: 0 <= i < |rows| && rows[i].userId == r.userId && rows[i].deviceId == r.deviceId && rows[i].jti == r.jti
  }

  // ---------- the statements ----------

  /** UPDATE sessions SET replaced_by = newJti WHERE jti = oldJti */
  function Linked(rows: seq<Row>, oldJti: string, newJti: string): seq<Row> {
    seq(|rows|, i requires 0 <= i < |rows| =>
      if rows[i].jti == oldJti then rows[i].MarkRotated(newJti) else rows[i])
  }

  /** UPDATE ... SET revoked_at = at WHERE user_id, device_id match AND revoked_at IS NULL */
  function DeviceRevoked(rows: seq<Row>, userId: UserId, deviceId: string, at: int): seq<Row> {
    seq(|rows|, i requires 0 <= i < |rows| =>
      if rows[i].userId == userId && rows[i].deviceId == deviceId then rows[i].Revoke(at) else rows[i])
  }

  /** UPDATE ... SET revoked_at = at WHERE refresh_hash = h AND revoked_at IS NULL */
  function HashRevoked(rows: seq<Row>, h: Digest, at: int): seq<Row> {
    seq(|rows|, i requires 0 <= i < |rows| =>
      if rows[i].refreshHash == h then rows[i].Revoke(at) else rows[i])
  }

  function Create(t: Table, r: Row): Table {
    Table(t.rows + [r], t.parents + [None])
  }

  /** The Rotate transaction: insert, then link. */
  function Rotate(t: Table, oldJti: string, r: Row): Table {
    Table(Linked(t.rows + [r], oldJti, r.jti), t.parents + [FindJti(t.rows, oldJti)])
  }

  function RevokeDevice(t: Table, userId: UserId, deviceId: string, at: int): Table {
    t.(rows := DeviceRevoked(t.rows, userId, deviceId, at))
  }

  function RevokeHash(t: Table, h: Digest, at: int): Table {
    t.(rows := HashRevoked(t.rows, h, at))
  }

  // ---------- what no statement undoes ----------

  ghost predicate RowGrows(r: Row, r': Row) {
    && r' == r.(replacedBy := r'.replacedBy, revokedAt := r'.revokedAt)
    && (r.replacedBy.Some? ==> r'.replacedBy.Some?)
    && (r.revokedAt.Some? ==> r'.revokedAt == r.revokedAt)
  }

  /** t' is a later state of t: rows and parents are only appended, every column but replaced_by
      and revoked_at is immutable, a link never returns to null, and revoked_at is write-once. */
  ghost predicate Grows(t: Table, t': Table) {
    && |t.rows| <= |t'.rows|
    && t.parents <= t'.parents
    && forall i {:trigger t'.rows[i]} {:trigger t.rows[i]} :: 0 <= i < |t.rows| ==> RowGrows(t.rows[i], t'.rows[i])
  }

  lemma StatementsGrow(t: Table, r: Row, oldJti: string, userId: UserId, deviceId: string, h: Digest, at: int)
    ensures Grows(t, Create(t, r))
    ensures Grows(t, Rotate(t, oldJti, r))
    ensures Grows(t, RevokeDevice(t, userId, deviceId, at))
    ensures Grows(t, RevokeHash(t, h, at))
  {
  }

  lemma GrowsReflexive(t: Table)
    ensures Grows(t, t)
  {
  }

  lemma GrowsTransitive(a: Table, b: Table, c: Table)
    requires Grows(a, b) && Grows(b, c)
    ensures Grows(a, c)
  {
    forall i | 0 <= i < |a.rows| ensures RowGrows(a.rows[i], c.rows[i]) {
      assert RowGrows(a.rows[i], b.rows[i]) && RowGrows(b.rows[i], c.rows[i]);
    }
  }

  /** With a clock that does not run backwards, a row that is not active stays inactive. */
  lemma InactiveStaysInactive(t: Table, t': Table, i: nat, at: int, at': int)
    requires Grows(t, t') && i < |t.rows| && at <= at'
    requires !t.rows[i].IsActive(at)
    ensures !t'.rows[i].IsActive(at')
  {
    assert RowGrows(t.rows[i], t'.rows[i]);
  }

  /** A second bulk revoke, whatever its time, changes nothing. */
  lemma RevokeDeviceIdempotent(t: Table, userId: UserId, deviceId: string, at: int, at': int)
    ensures RevokeDevice(RevokeDevice(t, userId, deviceId, at), userId, deviceId, at')
         == RevokeDevice(t, userId, deviceId, at)
  {
    assert DeviceRevoked(DeviceRevoked(t.rows, userId, deviceId, at), userId, deviceId, at')
        == DeviceRevoked(t.rows, userId, deviceId, at);
  }

  // ---------- the invariant ----------

  /** The minted token and JTI are new to the table. */
  ghost predicate Fresh(rows: seq<Row>, r: Row) {
    forall i :: 0 <= i < |rows| ==> rows[i].refreshHash != r.refreshHash && rows[i].jti != r.jti
  }

  predicate Links(t: Table, i: nat, j: nat) {
    i < |t.rows| && j < |t.rows| && t.rows[i].replacedBy == Some(t.rows[j].jti)
  }

  predicate ParentOf(t: Table, i: nat, j: nat) {
    j < |t.parents| && t.parents[j] == Some(i)
  }

  ghost predicate Distinct(rows: seq<Row>) {
    forall i, j :: 0 <= i < j < |rows| ==> rows[i].refreshHash != rows[j].refreshHash && rows[i].jti != rows[j].jti
  }

  /** What the rotation that inserted row j from row i leaves true for ever. */
  ghost predicate ChildOk(t: Table, i: nat, j: nat)
    requires i < j < |t.rows|
  {
    && t.rows[j].userId == t.rows[i].userId
    && t.rows[i].replacedBy.Some?
    && t.rows[j].createdAt <= t.rows[i].expiresAt
  }

  ghost predicate HasSuccessor(t: Table, i: nat) {
    exists j :: ParentOf(t, i, j) && Links(t, i, j)
  }

  ghost predicate Inv(ttl: int, t: Table) {
    && |t.parents| == |t.rows|
    && Distinct(t.rows)
    && (forall i :: 0 <= i < |t.rows| ==> t.rows[i].expiresAt == t.rows[i].createdAt + ttl)
    && (forall i: nat, j: nat :: ParentOf(t, i, j) ==> i < j && ChildOk(t, i, j))
    && (forall i: nat :: i < |t.rows| && t.rows[i].replacedBy.Some? ==> HasSuccessor(t, i))
  }

  lemma RevokeKeepsInv(ttl: int, t: Table, rows: seq<Row>)
    requires Inv(ttl, t) && |rows| == |t.rows|
    requires forall i :: 0 <= i < |rows| ==> rows[i] == t.rows[i].(revokedAt := rows[i].revokedAt)
    ensures Inv(ttl, t.(rows := rows))
  {
    var t' := t.(rows := rows);
    forall i: nat, j: nat | ParentOf(t', i, j) ensures i < j && ChildOk(t', i, j) {
      assert ParentOf(t, i, j);
    }
    forall i: nat | i < |rows| && rows[i].replacedBy.Some? ensures HasSuccessor(t', i) {
      assert HasSuccessor(t, i);
      var j :| ParentOf(t, i, j) && Links(t, i, j);
      assert ParentOf(t', i, j) && Links(t', i, j);
    }
  }

  lemma CreateKeepsInv(ttl: int, t: Table, r: Row)
    requires Inv(ttl, t) && Fresh(t.rows, r)
    requires r.replacedBy.None? && r.expiresAt == r.createdAt + ttl
    ensures Inv(ttl, Create(t, r))
  {
    var t' := Create(t, r);
    forall i: nat, j: nat | ParentOf(t', i, j) ensures i < j && ChildOk(t', i, j) {
      assert ParentOf(t, i, j);
    }
    forall i: nat | i < |t'.rows| && t'.rows[i].replacedBy.Some? ensures HasSuccessor(t', i) {
      assert HasSuccessor(t, i);
      var j :| ParentOf(t, i, j) && Links(t, i, j);
      assert ParentOf(t', i, j) && Links(t', i, j);
    }
  }

  /** With JTIs unique in the whole table, the UPDATE of a rotation of row k reaches row k only. */
  lemma RotateTouchesOneRow(ttl: int, t: Table, k: nat, r: Row)
    requires Inv(ttl, t) && Fresh(t.rows, r) && k < |t.rows|
    ensures FindJti(t.rows, t.rows[k].jti) == Some(k)
    ensures Rotate(t, t.rows[k].jti, r).rows == t.rows[k := t.rows[k].MarkRotated(r.jti)] + [r]
  {
  }

  lemma RotateKeepsInv(ttl: int, t: Table, k: nat, r: Row)
    requires Inv(ttl, t) && Fresh(t.rows, r) && k < |t.rows|
    requires r.replacedBy.None? && r.expiresAt == r.createdAt + ttl
    requires r.userId == t.rows[k].userId && r.createdAt <= t.rows[k].expiresAt
    ensures Inv(ttl, Rotate(t, t.rows[k].jti, r))
  {
    RotateTouchesOneRow(ttl, t, k, r);
    var t' := Rotate(t, t.rows[k].jti, r);
    var n := |t.rows|;
    forall i: nat, j: nat | ParentOf(t', i, j) ensures i < j && ChildOk(t', i, j) {
      if j < n {
        assert ParentOf(t, i, j);
      }
    }
    forall i: nat | i < |t'.rows| && t'.rows[i].replacedBy.Some? ensures HasSuccessor(t', i) {
      if i == k {
        assert ParentOf(t', k, n) && Links(t', k, n);
      } else {
        assert HasSuccessor(t, i);
        var j :| ParentOf(t, i, j) && Links(t, i, j);
        assert ParentOf(t', i, j) && Links(t', i, j);
      }
    }
  }

  // ---------- the link graph ----------

  /** A link points to the one row with that JTI, inserted later, of the same user. */
  lemma LinkIsForward(ttl: int, t: Table, i: nat, j: nat)
    requires Inv(ttl, t) && Links(t, i, j)
    ensures i < j && ParentOf(t, i, j) && t.rows[i].userId == t.rows[j].userId
  {
    assert HasSuccessor(t, i);
    var j' :| ParentOf(t, i, j') && Links(t, i, j');
    assert j' == j;
  }

  /** No two rows share a successor. */
  lemma NoSharedSuccessor(ttl: int, t: Table, i: nat, i': nat, j: nat)
    requires Inv(ttl, t) && Links(t, i, j) && Links(t, i', j)
    ensures i == i'
  {
    LinkIsForward(ttl, t, i, j);
    LinkIsForward(ttl, t, i', j);
  }

  ghost predicate LinkPath(t: Table, p: seq<nat>) {
    |p| > 0 && forall k :: 0 <= k < |p| - 1 ==> Links(t, p[k], p[k + 1])
  }

  /** Every path of links ascends in insertion order, so none closes a cycle. */
  lemma {:induction false} LinksAcyclic(ttl: int, t: Table, p: seq<nat>)
    requires Inv(ttl, t) && LinkPath(t, p) && |p| > 1
    ensures p[0] < p[|p| - 1]
  {
    var q := p[..|p| - 1];
    assert Links(t, p[|p| - 2], p[|p| - 1]);
    LinkIsForward(ttl, t, p[|p| - 2], p[|p| - 1]);
    if |q| > 1 {
      LinksAcyclic(ttl, t, q);
    }
  }

  /** The row a link resolves to. */
  function Next(ttl: int, t: Table, i: nat): (j: nat)
    requires Inv(ttl, t) && i < |t.rows| && t.rows[i].replacedBy.Some?
    ensures Links(t, i, j) && i < j < |t.rows|
  {
    assert HasSuccessor(t, i);
    var j := FindJti(t.rows, t.rows[i].replacedBy.value).value;
    LinkIsForward(ttl, t, i, j);
    j
  }

  /** Follows links until they stop. That it terminates is the measure; where it stops is a row
      of the same user, not older than the start, with no successor. */
  function Follow(ttl: int, t: Table, i: nat): (e: nat)
    requires Inv(ttl, t) && i < |t.rows|
    ensures i <= e < |t.rows| && t.rows[e].replacedBy.None? && t.rows[e].userId == t.rows[i].userId
    decreases |t.rows| - i
  {
    if t.rows[i].replacedBy.None? then i
    else
      var j := Next(ttl, t, i);
      LinkIsForward(ttl, t, i, j);
      Follow(ttl, t, j)
  }

  // ---------- provenance: the chain of rotations back to a login ----------

  function Root(t: Table, j: nat): (r: nat)
    ensures r <= j
  {
    if j < |t.parents| && t.parents[j].Some? && t.parents[j].value < j then Root(t, t.parents[j].value) else j
  }

  /** How many rotations separate row j from its login. */
  function Depth(t: Table, j: nat): nat {
    if j < |t.parents| && t.parents[j].Some? && t.parents[j].value < j then 1 + Depth(t, t.parents[j].value) else 0
  }

  /** The root of a row is a row that a login inserted, of the same user. */
  lemma {:induction false} RootIsLogin(ttl: int, t: Table, j: nat)
    requires Inv(ttl, t) && j < |t.rows|
    ensures t.parents[Root(t, j)].None? && t.rows[Root(t, j)].userId == t.rows[j].userId
  {
    if t.parents[j].Some? {
      assert ParentOf(t, t.parents[j].value, j);
      RootIsLogin(ttl, t, t.parents[j].value);
    }
  }

  /** Row j is the k-th rotation of a login made at T: it was created by T + k*ttl, and its own ttl
      ends it by T + (k+1)*ttl. */
  ghost predicate ExpiryBounded(ttl: int, t: Table, j: nat)
    requires j < |t.rows|
  {
    var T, k := t.rows[Root(t, j)].createdAt, Depth(t, j);
    && t.rows[j].createdAt <= T + k * ttl
    && t.rows[j].expiresAt == t.rows[j].createdAt + ttl
    && t.rows[j].expiresAt <= T + (k + 1) * ttl
  }

  lemma {:induction false} SlidingExpiry(ttl: int, t: Table, j: nat)
    requires Inv(ttl, t) && j < |t.rows|
    ensures ExpiryBounded(ttl, t, j)
    decreases j
  {
    var d := Depth(t, j);
    assert (d + 1) * ttl == d * ttl + ttl;
    if t.parents[j].Some? {
      var i := t.parents[j].value;
      assert ParentOf(t, i, j);
      SlidingExpiry(ttl, t, i);
    }
  }

  /** Provenance is immutable: a later state gives an old row the same root. */
  lemma {:induction false} RootStable(ttl: int, t: Table, t': Table, j: nat)
    requires Inv(ttl, t) && Inv(ttl, t') && Grows(t, t') && j < |t.rows|
    ensures Root(t', j) == Root(t, j)
    decreases j
  {
    assert t'.parents[j] == t.parents[j];
    if t.parents[j].Some? {
      assert ParentOf(t, t.parents[j].value, j);
      RootStable(ttl, t, t', t.parents[j].value);
    }
  }

  // ---------- families ----------

  /** Row m descends, by rotations, from the login that inserted row r. */
  predicate InFamily(t: Table, m: nat, r: nat) {
    m < |t.rows| && Root(t, m) == r
  }

  /** A rotation's new row belongs to the family of the row rotated. */
  lemma SuccessorRoot(ttl: int, t: Table, k: nat, row: Row)
    requires Inv(ttl, t) && k < |t.rows| && Fresh(t.rows, row)
    ensures var t' := Rotate(t, t.rows[k].jti, row);
            |t'.rows| == |t.rows| + 1 && Root(t', |t.rows|) == Root(t', k)
  {
    RotateTouchesOneRow(ttl, t, k, row);
    assert |t.parents| == |t.rows|;
    hide Inv, Fresh, FindJti, Linked;
  }

  /** A refresh that reads row m within its time will pass the checks. */
  predicate Usable(t: Table, m: nat)
    requires m < |t.rows|
  {
    t.rows[m].revokedAt.None? && t.rows[m].replacedBy.None?
  }

  ghost predicate FamilyDead(t: Table, r: nat) {
    forall m: nat :: InFamily(t, m, r) ==> !Usable(t, m)
  }

  // ---------- the schema alone is not enough ----------

  /** The schema allows one JTI for two users. In such a table one rotation links both users'
      rows, so that the second user's live token would read as reused. */
  lemma JtiClashLinksTwoUsers(a: Row, b: Row, r: Row)
    requires a.userId != b.userId && a.jti == b.jti && r.jti != a.jti
    requires a.replacedBy.None? && b.replacedBy.None?
    ensures !KeyTaken([a], b)
    ensures var t := Rotate(Table([a, b], [None, None]), a.jti, r);
            t.rows[0].replacedBy.Some? && t.rows[1].replacedBy.Some?
  {
  }

  /** A rotation of row k leaves every other row alone exactly when no other row has k's JTI. */
  lemma RotateFrame(t: Table, k: nat, r: Row)
    requires k < |t.rows| && forall i :: 0 <= i < |t.rows| ==> t.rows[i].replacedBy != Some(r.jti)
    ensures (forall i :: 0 <= i < |t.rows| && i != k ==> Rotate(t, t.rows[k].jti, r).rows[i] == t.rows[i])
       <==> (forall i :: 0 <= i < |t.rows| && i != k ==> t.rows[i].jti != t.rows[k].jti)
  {
    var t' := Rotate(t, t.rows[k].jti, r);
    forall i | 0 <= i < |t.rows| && i != k ensures t'.rows[i] == t.rows[i] <==> t.rows[i].jti != t.rows[k].jti {
      assert t.rows[i].jti == t.rows[k].jti ==> t'.rows[i].replacedBy == Some(r.jti);
    }
  }
}
