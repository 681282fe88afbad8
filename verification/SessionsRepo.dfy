/** SessionsRepo over a mutable table. Every UPDATE is a loop over the rows; a transaction works
    on a copy that only a commit installs. A statement may fail for reasons outside the model
    (connection, context); the parameters say whether it does. */
module SessionsRepo {
  import opened Base
  import opened Domain
  import opened SessionTable

  /** Where a Rotate transaction breaks off, if it does. */
  datatype TxFault = NoFault | AtBegin | AtInsert | AtLink | AtCommit

  class SessionsRepo {
    var rows: seq<Row>
    ghost var parents: seq<Option<nat>>

    ghost function T(): Table
      reads this
    {
      Table(rows, parents)
    }

    constructor ()
      ensures T() == EMPTY
    {
      rows, parents := [], [];
    }

    method HasKey(r: Row) returns (taken: bool)
      ensures taken == KeyTaken(rows, r)
    {
      for i := 0 to |rows|
        invariant forall k :: 0 <= k < i ==>
          !(rows[k].userId == r.userId && rows[k].deviceId == r.deviceId && rows[k].jti == r.jti)
      {
        if rows[i].userId == r.userId && rows[i].deviceId == r.deviceId && rows[i].jti == r.jti {
          return true;
        }
      }
      return false;
    }

    method Create(s: Row, fails: bool) returns (res: Result<(), Error>)
      modifies this
      ensures res == if fails then Err(StoreFailed)
                     else if KeyTaken(old(rows), s) then Err(UniqueViolation)
                     else Ok(())
      ensures T() == if res.Ok? then SessionTable.Create(old(T()), s.Stored()) else old(T())
      ensures rows == old(rows) + if res.Ok? then [s.(replacedBy := None, revokedAt := None)] else []
      ensures res.Ok? <==> !fails && forall r :: r in old(rows) ==>
                !(r.userId == s.userId && r.deviceId == s.deviceId && r.jti == s.jti)
    {
      if fails {
        return Err(StoreFailed);
      }
      var taken := HasKey(s);
      if taken {
        return Err(UniqueViolation);
      }
      rows := rows + [s.Stored()];
      parents := parents + [None];
      return Ok(());
    }

    method FindByHash(h: Digest, fails: bool) returns (res: Result<Row, Error>)
      ensures res == if fails then Err(StoreFailed)
                     else match FindHash(rows, h)
                       case None => Err(NotFound)
                       case Some(k) => Ok(rows[k])
      ensures res.Ok? ==> res.value in rows && res.value.refreshHash == h
      ensures !fails ==> (res == Err(NotFound) <==> forall r :: r in rows ==> r.refreshHash != h)
    {
      if fails {
        return Err(StoreFailed);
      }
      for i := 0 to |rows|
        invariant forall k :: 0 <= k < i ==> rows[k].refreshHash != h
      {
        if rows[i].refreshHash == h {
          assert FindHash(rows, h) == Some(i);
          return Ok(rows[i]);
        }
      }
      return Err(NotFound);
    }

    method Rotate(oldJti: string, s: Row, fault: TxFault) returns (res: Result<(), Error>)
      modifies this
      ensures res.Ok? <==> fault == NoFault && !KeyTaken(old(rows), s)
      ensures res == Err(UniqueViolation) <==> fault !in {AtBegin, AtInsert} && KeyTaken(old(rows), s)
      ensures res.Err? ==> res.error in {StoreFailed, UniqueViolation}
      ensures T() == if res.Ok? then SessionTable.Rotate(old(T()), oldJti, s.Stored()) else old(T())
      ensures res.Err? ==> rows == old(rows)
      ensures res.Ok? ==> |rows| == |old(rows)| + 1
      ensures res.Ok? ==> forall i :: 0 <= i < |rows| ==>
                var r := if i < |old(rows)| then old(rows)[i] else s.(replacedBy := None, revokedAt := None);
                rows[i] == if r.jti == oldJti then r.(replacedBy := Some(s.jti)) else r
    {
      if fault == AtBegin {
        return Err(StoreFailed);
      }
      var tx := rows;
      if fault == AtInsert {
        return Err(StoreFailed);
      }
      var taken := HasKey(s);
      if taken {
        return Err(UniqueViolation);
      }
      tx := tx + [s.Stored()];
      if fault == AtLink {
        return Err(StoreFailed);
      }
      ghost var inserted := tx;
      for i := 0 to |tx|
        invariant |tx| == |inserted|
        invariant forall k :: 0 <= k < i ==> tx[k] == Linked(inserted, oldJti, s.jti)[k]
        invariant forall k :: i <= k < |tx| ==> tx[k] == inserted[k]
      {
        if tx[i].jti == oldJti {
          tx := tx[i := tx[i].MarkRotated(s.jti)];
        }
      }
      if fault == AtCommit {
        return Err(StoreFailed);
      }
      parents := parents + [FindJti(rows, oldJti)];
      rows := tx;
      assert rows == Linked(inserted, oldJti, s.jti);
      return Ok(());
    }

    method RevokeAllByUserAndDevice(userId: UserId, deviceId: string, at: int, fails: bool)
      returns (res: Result<(), Error>)
      modifies this
      ensures res == if fails then Err(StoreFailed) else Ok(())
      ensures T() == if fails then old(T()) else RevokeDevice(old(T()), userId, deviceId, at)
      ensures |rows| == |old(rows)|
      ensures forall i :: 0 <= i < |rows| ==>
                var r := old(rows)[i];
                var hit := !fails && r.userId == userId && r.deviceId == deviceId && r.revokedAt.None?;
                rows[i] == if hit then r.(revokedAt := Some(at)) else r
    {
      if fails {
        return Err(StoreFailed);
      }
      for i := 0 to |rows|
        invariant |rows| == |old(rows)| && parents == old(parents)
        invariant forall k :: 0 <= k < i ==> rows[k] == DeviceRevoked(old(rows), userId, deviceId, at)[k]
        invariant forall k :: i <= k < |rows| ==> rows[k] == old(rows[k])
      {
        if rows[i].userId == userId && rows[i].deviceId == deviceId && rows[i].revokedAt == None {
          rows := rows[i := rows[i].(revokedAt := Some(at))];
        }
      }
      assert rows == DeviceRevoked(old(rows), userId, deviceId, at);
      return Ok(());
    }

    method RevokeByHash(h: Digest, at: int, fails: bool) returns (res: Result<(), Error>)
      modifies this
      ensures res == if fails then Err(StoreFailed) else Ok(())
      ensures T() == if fails then old(T()) else RevokeHash(old(T()), h, at)
      ensures |rows| == |old(rows)|
      ensures forall i :: 0 <= i < |rows| ==>
                var r := old(rows)[i];
                var hit := !fails && r.refreshHash == h && r.revokedAt.None?;
                rows[i] == if hit then r.(revokedAt := Some(at)) else r
    {
      if fails {
        return Err(StoreFailed);
      }
      for i := 0 to |rows|
        invariant |rows| == |old(rows)| && parents == old(parents)
        invariant forall k :: 0 <= k < i ==> rows[k] == HashRevoked(old(rows), h, at)[k]
        invariant forall k :: i <= k < |rows| ==> rows[k] == old(rows[k])
      {
        if rows[i].refreshHash == h && rows[i].revokedAt == None {
          rows := rows[i := rows[i].(revokedAt := Some(at))];
        }
      }
      assert rows == HashRevoked(old(rows), h, at);
      return Ok(());
    }
  }
}
