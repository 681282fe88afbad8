/** Domain types shared by the repositories and the service (internal/domain). */
module Domain {
  import opened Base

  /** uuid.Nil is 0. */
  type UserId = nat

  /** Text in the place of a user id: either the rendering of an id, or a string that
      uuid.Parse rejects. */
  datatype IdText = Uuid(id: UserId) | NotUuid(text: string)

  function ParseId(s: IdText): Option<UserId> {
    match s
    case Uuid(id) => Some(id)
    case NotUuid(_) => None
  }

  /** Hex SHA-256, taken as injective: the digest of a string is the constructor applied to it. */
  datatype Digest = Sha256Hex(preimage: string)

  datatype Ip = Ip(text: string)

  datatype PasswordError =
    | EmptyPassword
    | HasSpace
    | TooShort
    | NoLower
    | NoUpper
    | NoDigit
    | NoSymbol

  datatype Error =
    | InvalidEmail
    | EmptyPasswordHash
    | InvalidDeviceId
    | InvalidJti
    | NotFound
    | NoRows
    | InvalidCredentials
    | EmailAlreadyTaken
    | EmailNotVerified
    | MissingRefresh
    | InvalidRefresh
    | ExpiredRefresh
    | RevokedRefresh
    | ReusedRefresh
    | WeakPassword(why: PasswordError)
    | PasswordMismatch
    | HashFailed
    | SigningFailed
    | RandomFailed
    | InvalidIp
    | UniqueViolation
    | StoreFailed

  /** ParseIP: the empty string is "no address"; net.ParseIP is a parameter. */
  function ParseIp(netParseIp: string -> Option<Ip>, text: string): Result<Option<Ip>, Error> {
    if text == "" then Ok(None)
    else if netParseIp(text).None? then Err(InvalidIp)
    else Ok(netParseIp(text))
  }

  /** ParseEmail; mail.ParseAddress is a parameter. */
  function ParseEmail(validAddress: string -> bool, raw: string): Result<string, Error> {
    var s := Trim(raw);
    if s == "" || !validAddress(s) then Err(InvalidEmail) else Ok(s)
  }

  /** One row of the sessions table, which is also the value of a Session object.
      replacedBy holds the successor's JTI: that is what Rotate writes. */
  datatype Row = Row(
    userId: UserId,
    deviceId: string,
    jti: string,
    refreshHash: Digest,
    ip: Option<Ip>,
    userAgent: string,
    createdAt: int,
    expiresAt: int,
    replacedBy: Option<string>,
    revokedAt: Option<int>)
  {
    predicate IsExpired(at: int) { !(at < expiresAt) }

    predicate IsRevoked() { revokedAt.Some? }

    predicate IsActive(at: int) { !IsRevoked() && !IsExpired(at) }

    function Revoke(at: int): Row {
      if revokedAt.None? then this.(revokedAt := Some(at)) else this
    }

    function MarkRotated(newJti: string): Row {
      this.(replacedBy := Some(newJti))
    }

    /** What an INSERT keeps of a session: replaced_by and revoked_at are not among its columns. */
    function Stored(): Row {
      this.(replacedBy := None, revokedAt := None)
    }
  }

  /** NewSession. A digest is never blank, so the check on refreshHash has no failing case here. */
  function NewSession(netParseIp: string -> Option<Ip>, userId: UserId, deviceId: string, jti: string,
                      refreshHash: Digest, ipText: string, userAgent: string, ttl: int, now: int)
    : Result<Row, Error>
  {
    if userId == 0 then Err(InvalidCredentials)
    else if !NonEmpty(deviceId) then Err(InvalidDeviceId)
    else if !NonEmpty(jti) then Err(InvalidJti)
    else match ParseIp(netParseIp, ipText)
      case Err(e) => Err(e)
      case Ok(ip) => Ok(Row(userId, deviceId, jti, refreshHash, ip, userAgent, now, now + ttl, None, None))
  }

  predicate ValidIp(netParseIp: string -> Option<Ip>, text: string) {
    text == "" || netParseIp(text).Some?
  }

  /** When a session can be made, which error is answered first, and what it holds. */
  lemma NewSessionOutcome(netParseIp: string -> Option<Ip>, userId: UserId, deviceId: string, jti: string,
                          refreshHash: Digest, ipText: string, userAgent: string, ttl: int, now: int)
    ensures var res := NewSession(netParseIp, userId, deviceId, jti, refreshHash, ipText, userAgent, ttl, now);
            && (res.Ok? <==> userId != 0 && NonEmpty(deviceId) && NonEmpty(jti) && ValidIp(netParseIp, ipText))
            && (res == Err(InvalidCredentials) <==> userId == 0)
            && (res == Err(InvalidDeviceId) <==> userId != 0 && !NonEmpty(deviceId))
            && (res == Err(InvalidJti) <==> userId != 0 && NonEmpty(deviceId) && !NonEmpty(jti))
            && (res == Err(InvalidIp) <==>
                  userId != 0 && NonEmpty(deviceId) && NonEmpty(jti) && !ValidIp(netParseIp, ipText))
            && (res.Ok? ==>
                  && res.value == Row(userId, deviceId, jti, refreshHash, res.value.ip, userAgent, now, now + ttl, None, None)
                  && (ipText == "" ==> res.value.ip == None)
                  && (ipText != "" ==> res.value.ip == netParseIp(ipText)))
  {
  }

  /** The Session object, updated in place. */
  class Session {
    var userId: UserId
    var deviceId: string
    var jti: string
    var refreshHash: Digest
    var ip: Option<Ip>
    var userAgent: string
    var createdAt: int
    var expiresAt: int
    var replacedBy: Option<string>
    var revokedAt: Option<int>

    /** Scans a row into a fresh object. */
    constructor (r: Row)
      ensures View() == r
    {
      userId, deviceId, jti, refreshHash := r.userId, r.deviceId, r.jti, r.refreshHash;
      ip, userAgent, createdAt, expiresAt := r.ip, r.userAgent, r.createdAt, r.expiresAt;
      replacedBy, revokedAt := r.replacedBy, r.revokedAt;
    }

    function View(): Row
      reads this
    {
      Row(userId, deviceId, jti, refreshHash, ip, userAgent, createdAt, expiresAt, replacedBy, revokedAt)
    }

    method Revoke(at: int)
      modifies this`revokedAt
      ensures View() == old(View()).Revoke(at)
      ensures revokedAt == if old(revokedAt).Some? then old(revokedAt) else Some(at)
      ensures forall t :: !View().IsActive(t)
    {
      if revokedAt == None {
        revokedAt := Some(at);
      }
    }

    method MarkRotated(newJti: string)
      modifies this`replacedBy
      ensures View() == old(View()).MarkRotated(newJti)
      ensures replacedBy == Some(newJti)
      ensures forall t :: View().IsActive(t) == old(View()).IsActive(t)
    {
      replacedBy := Some(newJti);
    }
  }
}
