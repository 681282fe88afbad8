/** internal/auth/signer/signer.go: the key map, the active kid, signing and verifying.
    Times are whole seconds, the precision of a JWT NumericDate. */
module Signer {
  import opened Base
  import opened Domain
  import opened Keys

  datatype Claims = Claims(userId: IdText, email: string)

  /** The value of the sub claim as jwt.Token.Get yields it. */
  datatype SubValue = Text(id: IdText) | NotText

  datatype Jwt = Jwt(
    issuer: string,
    audience: seq<string>,
    issuedAt: int,
    notBefore: int,
    expiry: int,
    sub: Option<SubValue>,
    uid: Option<IdText>,
    email: Option<string>)

  datatype KidHeader = NoKid | NotTextKid | Kid(kid: string)

  /** A presented token. Signatures are ideal: a JWS records the key it was signed with, and
      verifies under the public half of that key and no other. */
  datatype Token =
    | Malformed
    | Unsigned
    | Jws(header: KidHeader, alg: string, signedBy: PrivateKey, body: Jwt)

  datatype VerifyError =
    | ParseFailed | NoSignatures | MissingKid | InvalidKid | UnknownKid | BadSignature | NotValid | MissingSub | InvalidSub

  const SKEW := 5

  /** When a JWT library takes a token to be within its times: always from nbf until before exp,
      never once exp is SKEW past. What it answers in the skew around both ends is left open. */
  ghost predicate SoundWindow(w: (int, int, int) -> bool) {
    forall nbf, exp, now :: (nbf <= now < exp ==> w(nbf, exp, now)) && (exp + SKEW <= now ==> !w(nbf, exp, now))
  }

  type Window = w: (int, int, int) -> bool | SoundWindow(w)
    witness (nbf: int, exp: int, now: int) => nbf <= now < exp

  predicate IsRsaAlg(alg: string) {
    alg in ["RS256", "RS384", "RS512", "PS256", "PS384", "PS512"]
  }

  datatype SignerState = SignerState(
    kid: string,
    alg: string,
    issuer: string,
    audience: string,
    keys: map<string, PrivateKey>,
    ready: bool)

  // ---------- loading ----------

  /** os.ReadDir on the keys directory. */
  function ReadDir(root: Snapshot): Option<seq<Node>> {
    if root.Some? && root.value.Dir? && !root.value.listError then Some(root.value.children) else None
  }

  /** The map that reload builds: one directory level, later files overwrite earlier ones. */
  function LoadKeys(files: seq<Node>): map<string, PrivateKey> {
    if files == [] then map[]
    else
      var m := LoadKeys(files[..|files| - 1]);
      var f := files[|files| - 1];
      if f.File? && IsPem(f.name) && f.key.Some? then m[KidOf(f.name) := f.key.value] else m
  }

  /** f is the file whose key a kid gets: the last one in the directory that provides it. */
  ghost predicate LastProvider(files: seq<Node>, c: nat, kid: string) {
    c < |files| && Provides(files[c], kid) && forall d :: c < d < |files| ==> !Provides(files[d], kid)
  }

  function LastProviderOf(files: seq<Node>, kid: string): (c: Option<nat>)
    ensures c.Some? ==> LastProvider(files, c.value, kid)
    ensures c.None? ==> forall d :: 0 <= d < |files| ==> !Provides(files[d], kid)
  {
    if files == [] then None
    else if Provides(files[|files| - 1], kid) then Some(|files| - 1)
    else
      var c := LastProviderOf(files[..|files| - 1], kid);
      assert forall d :: 0 <= d < |files| - 1 ==> files[d] == files[..|files| - 1][d];
      c
  }

  lemma {:induction false} LoadKeysFollowsLastProvider(files: seq<Node>, kid: string)
    ensures var c := LastProviderOf(files, kid);
            && (kid in LoadKeys(files) <==> c.Some?)
            && (c.Some? ==> LoadKeys(files)[kid] == files[c.value].key.value)
  {
    if files != [] {
      LoadKeysFollowsLastProvider(files[..|files| - 1], kid);
    }
  }

  /** A kid is loaded exactly when some file provides it, and its key is the last provider's. */
  lemma LoadKeysIsLastWins(files: seq<Node>, kid: string)
    ensures kid in LoadKeys(files) <==> exists c :: 0 <= c < |files| && Provides(files[c], kid)
    ensures kid in LoadKeys(files) ==> exists c: nat :: LastProvider(files, c, kid)
    ensures forall c: nat :: LastProvider(files, c, kid) ==> kid in LoadKeys(files) && LoadKeys(files)[kid] == files[c].key.value
  {
    LoadKeysFollowsLastProvider(files, kid);
    var c := LastProviderOf(files, kid);
    if c.Some? {
      assert LastProvider(files, c.value, kid);
      assert forall d: nat :: LastProvider(files, d, kid) ==> d == c.value;
    }
  }

  /** reload: a directory that cannot be listed leaves the signer as it was. */
  function Reloaded(s: SignerState, root: Snapshot): SignerState {
    match ReadDir(root)
    case None => s
    case Some(files) => s.(keys := LoadKeys(files), ready := |LoadKeys(files)| > 0)
  }

  function Switched(s: SignerState, kid: string): SignerState {
    if kid in s.keys then s.(kid := kid) else s
  }

  // ---------- signing and verifying ----------

  function Sign(s: SignerState, c: Claims, ttl: int, now: int): Result<(Token, int), Error> {
    if s.kid !in s.keys || !IsRsaAlg(s.alg) then Err(SigningFailed)
    else
      var exp := now + ttl;
      var email := if c.email != "" then Some(c.email) else None;
      var body := Jwt(s.issuer, [s.audience], now, now, exp, Some(Text(c.userId)), Some(c.userId), email);
      Ok((Jws(Kid(s.kid), s.alg, s.keys[s.kid], body), exp))
  }

  function Verify(w: Window, s: SignerState, tok: Token, now: int): Result<Claims, VerifyError> {
    match tok
    case Malformed => Err(ParseFailed)
    case Unsigned => Err(NoSignatures)
    case Jws(NoKid, _, _, _) => Err(MissingKid)
    case Jws(NotTextKid, _, _, _) => Err(InvalidKid)
    case Jws(Kid(kid), alg, signedBy, body) =>
      if kid !in s.keys then Err(UnknownKid)
      else if alg != "RS256" || PublicOf(signedBy) != PublicOf(s.keys[kid]) then Err(BadSignature)
      else if !w(body.notBefore, body.expiry, now) then Err(NotValid)
      else if body.issuer != s.issuer || s.audience !in body.audience then Err(NotValid)
      else if body.sub.None? then Err(MissingSub)
      else if body.sub.value.NotText? || body.sub.value.id == NotUuid("") then Err(InvalidSub)
      else Ok(Claims(body.sub.value.id, if body.email.Some? then body.email.value else ""))
  }

  /** What signing yields: it fails only for want of the active key or of an RSA algorithm, and the token
      is the active key's, under the active kid, for this issuer and audience, from now until ttl later. */
  lemma SignOutcome(s: SignerState, c: Claims, ttl: int, now: int)
    ensures var res := Sign(s, c, ttl, now);
            && (res.Ok? <==> s.kid in s.keys && IsRsaAlg(s.alg))
            && (res.Err? ==> res.error == SigningFailed)
            && (res.Ok? ==>
                  var (tok, exp) := res.value;
                  && exp == now + ttl
                  && tok.Jws? && tok.header == Kid(s.kid) && tok.alg == s.alg && tok.signedBy == s.keys[s.kid]
                  && tok.body.issuer == s.issuer && tok.body.audience == [s.audience]
                  && tok.body.issuedAt == tok.body.notBefore == now && tok.body.expiry == exp
                  && tok.body.sub == Some(Text(c.userId)) && tok.body.uid == Some(c.userId)
                  && tok.body.email == if c.email == "" then None else Some(c.email))
  {
  }

  /** The signature of the token is RS256 under the key that the state holds for the token's kid. */
  predicate Authentic(s: SignerState, tok: Token) {
    && tok.Jws? && tok.header.Kid? && tok.header.kid in s.keys
    && tok.alg == "RS256" && tok.signedBy == s.keys[tok.header.kid]
  }

  /** The token is within its times, and meant by and for this service. */
  predicate Current(w: Window, s: SignerState, body: Jwt, now: int) {
    w(body.notBefore, body.expiry, now) && body.issuer == s.issuer && s.audience in body.audience
  }

  predicate Named(body: Jwt) {
    body.sub.Some? && body.sub.value.Text? && body.sub.value.id != NotUuid("")
  }

  /** Which tokens are accepted, of all that can be presented: the authentic, current and named ones;
      and what is then read from them. */
  lemma VerifyExactly(w: Window, s: SignerState, tok: Token, now: int)
    ensures Verify(w, s, tok, now).Ok? <==> Authentic(s, tok) && Current(w, s, tok.body, now) && Named(tok.body)
    ensures Verify(w, s, tok, now).Ok? ==>
              var email := if tok.body.email.Some? then tok.body.email.value else "";
              Verify(w, s, tok, now).value == Claims(tok.body.sub.value.id, email)
  {
    if tok.Jws? && tok.header.Kid? {
      assert tok == Jws(Kid(tok.header.kid), tok.alg, tok.signedBy, tok.body);
    }
  }

  /** Why a token is refused: the first of the checks that fails. */
  lemma VerifyRefuses(w: Window, s: SignerState, tok: Token, now: int)
    ensures var res := Verify(w, s, tok, now);
            && (res == Err(ParseFailed) <==> tok.Malformed?)
            && (res == Err(NoSignatures) <==> tok.Unsigned?)
            && (res == Err(MissingKid) <==> tok.Jws? && tok.header.NoKid?)
            && (res == Err(InvalidKid) <==> tok.Jws? && tok.header.NotTextKid?)
            && (res == Err(UnknownKid) <==> tok.Jws? && tok.header.Kid? && tok.header.kid !in s.keys)
            && (res == Err(BadSignature) <==>
                  tok.Jws? && tok.header.Kid? && tok.header.kid in s.keys && !Authentic(s, tok))
            && (res == Err(NotValid) <==> Authentic(s, tok) && !Current(w, s, tok.body, now))
            && (res == Err(MissingSub) <==> Authentic(s, tok) && Current(w, s, tok.body, now) && tok.body.sub.None?)
            && (res == Err(InvalidSub) <==>
                  Authentic(s, tok) && Current(w, s, tok.body, now) && tok.body.sub.Some? && !Named(tok.body))
  {
    if tok.Jws? && tok.header.Kid? {
      assert tok == Jws(Kid(tok.header.kid), tok.alg, tok.signedBy, tok.body);
    }
  }

  /** A token signed in state s is accepted in state s' exactly when the algorithm is the one
      VerifyAccess insists on, the kid still names the same key, issuer and audience agree, the
      time is within the token's, and the subject is not blank; then it yields the signed claims,
      an empty email included. */
  lemma SignVerifyRoundTrip(w: Window, s: SignerState, s': SignerState, c: Claims, ttl: int, at: int, now: int)
    requires Sign(s, c, ttl, at).Ok?
    ensures var tok := Sign(s, c, ttl, at).value.0;
            && (Verify(w, s', tok, now).Ok? <==>
                  && s.alg == "RS256"
                  && s.kid in s'.keys && s'.keys[s.kid] == s.keys[s.kid]
                  && s'.issuer == s.issuer && s'.audience == s.audience
                  && w(at, at + ttl, now)
                  && c.userId != NotUuid(""))
            && (Verify(w, s', tok, now).Ok? ==> Verify(w, s', tok, now) == Ok(c))
  {
    var tok := Sign(s, c, ttl, at).value.0;
    assert s'.audience in tok.body.audience <==> s'.audience == s.audience;
  }

  class Signer {
    const alg: string
    const issuer: string
    const audience: string
    var kid: string
    var keys: map<string, PrivateKey>
    var ready: bool

    function State(): SignerState
      reads this
    {
      SignerState(kid, alg, issuer, audience, keys, ready)
    }

    /** New: starts with no keys and ignores a failed first load. */
    constructor (root: Snapshot, kid: string, alg: string, issuer: string, audience: string)
      ensures State() == Reloaded(SignerState(kid, alg, issuer, audience, map[], false), root)
      ensures this.kid == kid && this.alg == alg && this.issuer == issuer && this.audience == audience
      ensures keys == if ReadDir(root).Some? then LoadKeys(ReadDir(root).value) else map[]
      ensures ready <==> keys != map[]
    {
      this.kid, this.alg, this.issuer, this.audience := kid, alg, issuer, audience;
      keys, ready := map[], false;
      new;
      var _ := Reload(root);
    }

    method SetActiveKid(newKid: string) returns (ok: bool)
      modifies this`kid
      ensures ok == (newKid in keys)
      ensures State() == Switched(old(State()), newKid)
      ensures kid == if newKid in keys then newKid else old(kid)
    {
      if newKid !in keys {
        return false;
      }
      kid := newKid;
      return true;
    }

    method Reload(root: Snapshot) returns (ok: bool)
      modifies this`keys, this`ready
      ensures ok == ReadDir(root).Some?
      ensures State() == Reloaded(old(State()), root)
      ensures ok <==> root.Some? && root.value.Dir? && !root.value.listError
      ensures ok ==> keys == LoadKeys(root.value.children) && (ready <==> keys != map[])
      ensures !ok ==> keys == old(keys) && ready == old(ready)
    {
      if root.None? || root.value.File? || root.value.listError {
        return false;
      }
      var files := root.value.children;
      var tmp: map<string, PrivateKey> := map[];
      for i := 0 to |files|
        invariant tmp == LoadKeys(files[..i])
      {
        assert files[..i + 1][..i] == files[..i];
        var f := files[i];
        if f.Dir? || !IsPem(f.name) || f.key.None? {
          continue;
        }
        tmp := tmp[KidOf(f.name) := f.key.value];
      }
      assert files[..|files|] == files;
      keys := tmp;
      ready := |tmp| > 0;
      return true;
    }

    function SignAccess(c: Claims, ttl: int, now: int): Result<(Token, int), Error>
      reads this
    {
      Sign(State(), c, ttl, now)
    }

    function VerifyAccess(w: Window, tok: Token, now: int): Result<Claims, VerifyError>
      reads this
    {
      Verify(w, State(), tok, now)
    }
  }
}
