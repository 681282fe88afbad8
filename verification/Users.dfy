/** The users table and UsersRepo (internal/repo/postgres/users.go). */
module Users {
  import opened Base
  import opened Domain
  import opened Passwords

  datatype User = User(
    id: UserId,
    email: string,
    passwordHash: PasswordHash,
    emailVerified: bool,
    createdAt: int,
    updatedAt: int)

  /** NewUser: the id is assigned by the database. */
  function NewUser(email: string, hash: PasswordHash, now: int): Result<User, Error> {
    if email == "" then Err(InvalidEmail)
    else if hash.Blank? then Err(EmptyPasswordHash)
    else Ok(User(0, email, hash, false, now, now))
  }

  /** A new user is unverified; a blank email or hash is refused. */
  lemma NewUserOutcome(email: string, hash: PasswordHash, now: int)
    ensures var res := NewUser(email, hash, now);
            && (res == Err(InvalidEmail) <==> email == "")
            && (res == Err(EmptyPasswordHash) <==> email != "" && hash.Blank?)
            && (res.Ok? <==> email != "" && !hash.Blank?)
            && (res.Ok? ==> res.value.email == email && res.value.passwordHash == hash && !res.value.emailVerified
                            && res.value.createdAt == res.value.updatedAt == now)
  {
  }

  /** The case folding behind CITEXT equality. */
  type Folding = string -> string

  function FindEmail(fold: Folding, users: seq<User>, email: string): (k: Option<nat>)
    ensures k.Some? ==> k.value < |users| && fold(users[k.value].email) == fold(email)
    ensures k.None? ==> forall i :: 0 <= i < |users| ==> fold(users[i].email) != fold(email)
  {
    FirstBy(users, (u: User) => fold(u.email) == fold(email))
  }

  function FindId(users: seq<User>, id: UserId): (k: Option<nat>)
    ensures k.Some? ==> k.value < |users| && users[k.value].id == id
    ensures k.None? ==> forall i :: 0 <= i < |users| ==> users[i].id != id
  {
    FirstBy(users, (u: User) => u.id == id)
  }

  /** Neither the primary key nor the unique email column refuses the row. */
  predicate Insertable(fold: Folding, users: seq<User>, u: User) {
    FindId(users, u.id).None? && FindEmail(fold, users, u.email).None?
  }

  ghost predicate HasId(users: seq<User>, id: UserId) {
    exists k :: 0 <= k < |users| && users[k].id == id
  }

  /** No two users share an id or, up to case, an email; ids are not nil; stored emails read back. */
  ghost predicate UsersInv(fold: Folding, validAddress: string -> bool, users: seq<User>) {
    && (forall i, j :: 0 <= i < j < |users| ==> users[i].id != users[j].id && fold(users[i].email) != fold(users[j].email))
    && (forall i :: 0 <= i < |users| ==> users[i].id != 0 && ParseEmail(validAddress, users[i].email) == Ok(users[i].email))
  }

  lemma InsertKeepsInv(fold: Folding, validAddress: string -> bool, users: seq<User>, u: User, raw: string)
    requires UsersInv(fold, validAddress, users) && Insertable(fold, users, u)
    requires u.id != 0 && ParseEmail(validAddress, raw) == Ok(u.email)
    ensures UsersInv(fold, validAddress, users + [u])
  {
    hide Trim;
    TrimIdempotent(raw);
  }

  /** In a table with the invariant, a stored user is found under its id and under every email
      equal to its own up to case. */
  lemma StoredUserIsFound(fold: Folding, validAddress: string -> bool, users: seq<User>, k: nat, email: string)
    requires UsersInv(fold, validAddress, users) && k < |users| && fold(email) == fold(users[k].email)
    ensures FindEmail(fold, users, email) == Some(k)
    ensures FindId(users, users[k].id) == Some(k)
  {
  }

  function ReadBack(validAddress: string -> bool, u: User): Result<User, Error> {
    match ParseEmail(validAddress, u.email)
    case Err(e) => Err(e)
    case Ok(email) => Ok(u.(email := email))
  }

  function LookupEmail(fold: Folding, validAddress: string -> bool, users: seq<User>, email: string): Result<User, Error> {
    match FindEmail(fold, users, email)
    case None => Err(NoRows)
    case Some(k) => ReadBack(validAddress, users[k])
  }

  /** FindByID selects id, email and email_verified only. */
  function LookupId(validAddress: string -> bool, users: seq<User>, id: UserId): Result<User, Error> {
    match FindId(users, id)
    case None => Err(NoRows)
    case Some(k) => ReadBack(validAddress, users[k].(passwordHash := Blank, createdAt := 0, updatedAt := 0))
  }

  /** Some stored user has this email, up to case. */
  ghost predicate KnownEmail(fold: Folding, users: seq<User>, email: string) {
    exists u :: u in users && fold(u.email) == fold(email)
  }

  class UsersRepo {
    const fold: Folding
    const validAddress: string -> bool
    var users: seq<User>

    constructor (fold: Folding, validAddress: string -> bool)
      ensures this.fold == fold && this.validAddress == validAddress && users == []
    {
      this.fold, this.validAddress := fold, validAddress;
      users := [];
    }

    method FindByEmail(email: string, fails: bool) returns (res: Result<User, Error>)
      ensures res == if fails then Err(StoreFailed) else LookupEmail(fold, validAddress, users, email)
      ensures res.Ok? ==> exists u :: u in users && fold(u.email) == fold(email) && res.value == u.(email := Trim(u.email))
      ensures !fails ==> (res == Err(NoRows) <==> !KnownEmail(fold, users, email))
      ensures res.Err? ==> res.error in {StoreFailed, NoRows, InvalidEmail}
    {
      if fails {
        return Err(StoreFailed);
      }
      for i := 0 to |users|
        invariant forall k :: 0 <= k < i ==> fold(users[k].email) != fold(email)
      {
        if fold(users[i].email) == fold(email) {
          assert FindEmail(fold, users, email) == Some(i);
          var parsed := ParseEmail(validAddress, users[i].email);
          if parsed.Err? {
            return Err(parsed.error);
          }
          return Ok(users[i].(email := parsed.value));
        }
      }
      return Err(NoRows);
    }

    method FindById(id: UserId, fails: bool) returns (res: Result<User, Error>)
      ensures res == if fails then Err(StoreFailed) else LookupId(validAddress, users, id)
      ensures res.Ok? ==>
                exists u :: u in users && u.id == id && res.value == User(id, Trim(u.email), Blank, u.emailVerified, 0, 0)
      ensures !fails ==> (res == Err(NoRows) <==> !HasId(users, id))
    {
      if fails {
        return Err(StoreFailed);
      }
      for i := 0 to |users|
        invariant forall k :: 0 <= k < i ==> users[k].id != id
      {
        if users[i].id == id {
          assert FindId(users, id) == Some(i);
          var parsed := ParseEmail(validAddress, users[i].email);
          if parsed.Err? {
            return Err(parsed.error);
          }
          return Ok(User(users[i].id, parsed.value, Blank, users[i].emailVerified, 0, 0));
        }
      }
      return Err(NoRows);
    }

    /** newId is what gen_random_uuid() yields. Any unique violation reads as a taken email. */
    method Insert(u: User, newId: UserId, fails: bool) returns (res: Result<UserId, Error>)
      modifies this
      ensures res == if fails then Err(StoreFailed)
                     else if Insertable(fold, old(users), u.(id := newId)) then Ok(newId)
                     else Err(EmailAlreadyTaken)
      ensures users == if res.Ok? then old(users) + [u.(id := newId)] else old(users)
      ensures res.Ok? <==> !fails && !HasId(old(users), newId) && !KnownEmail(fold, old(users), u.email)
    {
      if fails {
        return Err(StoreFailed);
      }
      for i := 0 to |users|
        invariant forall k :: 0 <= k < i ==> users[k].id != newId && fold(users[k].email) != fold(u.email)
      {
        if users[i].id == newId || fold(users[i].email) == fold(u.email) {
          return Err(EmailAlreadyTaken);
        }
      }
      users := users + [u.(id := newId)];
      return Ok(newId);
    }
  }
}
