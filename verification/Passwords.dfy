/** internal/security/password.go: the policy loop and the two-step password hash. */
module Passwords {
  import opened Base
  import opened Domain

  /** What the unicode package says of a rune. The general categories behind IsLower, IsUpper,
      IsDigit, IsPunct/IsSymbol and the white-space runes are disjoint, so one class suffices. */
  datatype RuneClass = Lower | Upper | Digit | PunctOrSymbol | Space | Other

  type Classifier = char -> RuneClass

  datatype Policy = Policy(
    minLength: int,
    requireLower: bool,
    requireUpper: bool,
    requireDigit: bool,
    requireSymbol: bool,
    disallowSpace: bool)

  const DEFAULT_POLICY := Policy(8, true, false, true, false, true)

  predicate Contains(cat: Classifier, pw: string, c: RuneClass) {
    exists i :: 0 <= i < |pw| && cat(pw[i]) == c
  }

  /** The policy, read declaratively over the whole rune sequence. */
  predicate Meets(cat: Classifier, p: Policy, pw: string) {
    && pw != ""
    && (p.disallowSpace ==> !Contains(cat, pw, Space))
    && |pw| >= p.minLength
    && (p.requireLower ==> Contains(cat, pw, Lower))
    && (p.requireUpper ==> Contains(cat, pw, Upper))
    && (p.requireDigit ==> Contains(cat, pw, Digit))
    && (p.requireSymbol ==> Contains(cat, pw, PunctOrSymbol))
  }

  /** A violated clause of the policy. */
  predicate Violates(cat: Classifier, p: Policy, pw: string, e: PasswordError) {
    match e
    case EmptyPassword => pw == ""
    case HasSpace => p.disallowSpace && Contains(cat, pw, Space)
    case TooShort => |pw| < p.minLength
    case NoLower => p.requireLower && !Contains(cat, pw, Lower)
    case NoUpper => p.requireUpper && !Contains(cat, pw, Upper)
    case NoDigit => p.requireDigit && !Contains(cat, pw, Digit)
    case NoSymbol => p.requireSymbol && !Contains(cat, pw, PunctOrSymbol)
  }

  function Rank(e: PasswordError): nat {
    match e
    case EmptyPassword => 0
    case HasSpace => 1
    case TooShort => 2
    case NoLower => 3
    case NoUpper => 4
    case NoDigit => 5
    case NoSymbol => 6
  }

  /** The verdict: nothing when no clause is violated, else the violated clause of least rank. */
  ghost predicate IsVerdict(cat: Classifier, p: Policy, pw: string, v: Option<PasswordError>) {
    match v
    case None => forall e :: !Violates(cat, p, pw, e)
    case Some(e) => Violates(cat, p, pw, e) && forall e' :: Violates(cat, p, pw, e') ==> Rank(e) <= Rank(e')
  }

  method ValidatePassword(cat: Classifier, p: Policy, pw: string) returns (v: Option<PasswordError>)
    ensures IsVerdict(cat, p, pw, v)
  {
    if pw == "" {
      return Some(EmptyPassword);
    }
    var hasLower, hasUpper, hasDigit, hasSymbol := false, false, false, false;
    var length := 0;
    for i := 0 to |pw|
      invariant length == i
      invariant hasLower == exists k :: 0 <= k < i && cat(pw[k]) == Lower
      invariant hasUpper == exists k :: 0 <= k < i && cat(pw[k]) == Upper
      invariant hasDigit == exists k :: 0 <= k < i && cat(pw[k]) == Digit
      invariant hasSymbol == exists k :: 0 <= k < i && cat(pw[k]) == PunctOrSymbol
      invariant p.disallowSpace ==> forall k :: 0 <= k < i ==> cat(pw[k]) != Space
    {
      length := length + 1;
      match cat(pw[i]) {
        case Lower => hasLower := true;
        case Upper => hasUpper := true;
        case Digit => hasDigit := true;
        case PunctOrSymbol => hasSymbol := true;
        case Space =>
          if p.disallowSpace {
            return Some(HasSpace);
          }
        case Other =>
      }
    }
    assert hasLower == Contains(cat, pw, Lower) && hasUpper == Contains(cat, pw, Upper);
    assert hasDigit == Contains(cat, pw, Digit) && hasSymbol == Contains(cat, pw, PunctOrSymbol);
    if length < p.minLength {
      return Some(TooShort);
    }
    if p.requireLower && !hasLower {
      return Some(NoLower);
    }
    if p.requireUpper && !hasUpper {
      return Some(NoUpper);
    }
    if p.requireDigit && !hasDigit {
      return Some(NoDigit);
    }
    if p.requireSymbol && !hasSymbol {
      return Some(NoSymbol);
    }
    return None;
  }

  /** There is one verdict, and it is acceptance exactly when the policy holds. */
  lemma VerdictUnique(cat: Classifier, p: Policy, pw: string, v: Option<PasswordError>, v': Option<PasswordError>)
    requires IsVerdict(cat, p, pw, v) && IsVerdict(cat, p, pw, v')
    ensures v == v'
    ensures v.None? <==> Meets(cat, p, pw)
  {
    if v.None? {
      assert !Violates(cat, p, pw, EmptyPassword) && !Violates(cat, p, pw, HasSpace) && !Violates(cat, p, pw, TooShort);
      assert !Violates(cat, p, pw, NoLower) && !Violates(cat, p, pw, NoUpper);
      assert !Violates(cat, p, pw, NoDigit) && !Violates(cat, p, pw, NoSymbol);
    }
  }

  /** The verdict as a function; ValidatePassword returns it, by VerdictUnique. */
  function Verdict(cat: Classifier, p: Policy, pw: string): (v: Option<PasswordError>)
    ensures IsVerdict(cat, p, pw, v)
  {
    if Violates(cat, p, pw, EmptyPassword) then Some(EmptyPassword)
    else if Violates(cat, p, pw, HasSpace) then Some(HasSpace)
    else if Violates(cat, p, pw, TooShort) then Some(TooShort)
    else if Violates(cat, p, pw, NoLower) then Some(NoLower)
    else if Violates(cat, p, pw, NoUpper) then Some(NoUpper)
    else if Violates(cat, p, pw, NoDigit) then Some(NoDigit)
    else if Violates(cat, p, pw, NoSymbol) then Some(NoSymbol)
    else None
  }

  /** The verdict in full: each clause is reported when it is violated and none before it is. */
  lemma VerdictSpelled(cat: Classifier, p: Policy, pw: string)
    ensures var v, n := Verdict(cat, p, pw), |pw|;
            var spaced := p.disallowSpace && exists i :: 0 <= i < n && cat(pw[i]) == Space;
            var short := n < p.minLength;
            var noLower := p.requireLower && forall i :: 0 <= i < n ==> cat(pw[i]) != Lower;
            var noUpper := p.requireUpper && forall i :: 0 <= i < n ==> cat(pw[i]) != Upper;
            var noDigit := p.requireDigit && forall i :: 0 <= i < n ==> cat(pw[i]) != Digit;
            var noSymbol := p.requireSymbol && forall i :: 0 <= i < n ==> cat(pw[i]) != PunctOrSymbol;
            && (v == Some(EmptyPassword) <==> pw == "")
            && (v == Some(HasSpace) <==> pw != "" && spaced)
            && (v == Some(TooShort) <==> pw != "" && !spaced && short)
            && (v == Some(NoLower) <==> pw != "" && !spaced && !short && noLower)
            && (v == Some(NoUpper) <==> pw != "" && !spaced && !short && !noLower && noUpper)
            && (v == Some(NoDigit) <==> pw != "" && !spaced && !short && !noLower && !noUpper && noDigit)
            && (v == Some(NoSymbol) <==> pw != "" && !spaced && !short && !noLower && !noUpper && !noDigit && noSymbol)
  {
  }

  /** At least eight runes, a lower-case letter, a digit, and no white space. */
  predicate Strong(cat: Classifier, pw: string) {
    && |pw| >= 8
    && (exists i :: 0 <= i < |pw| && cat(pw[i]) == Lower)
    && (exists i :: 0 <= i < |pw| && cat(pw[i]) == Digit)
    && (forall i :: 0 <= i < |pw| ==> cat(pw[i]) != Space)
  }

  /** That is what the default policy accepts. */
  lemma DefaultPolicyIsStrong(cat: Classifier, pw: string)
    ensures Verdict(cat, DEFAULT_POLICY, pw).None? <==> Strong(cat, pw)
    ensures Meets(cat, DEFAULT_POLICY, pw) <==> Strong(cat, pw)
  {
    var v := Verdict(cat, DEFAULT_POLICY, pw);
    VerdictUnique(cat, DEFAULT_POLICY, pw, v, v);
  }

  ghost predicate WeakerOrEqual(p': Policy, p: Policy) {
    && p'.minLength <= p.minLength
    && (p'.requireLower ==> p.requireLower)
    && (p'.requireUpper ==> p.requireUpper)
    && (p'.requireDigit ==> p.requireDigit)
    && (p'.requireSymbol ==> p.requireSymbol)
    && (p'.disallowSpace ==> p.disallowSpace)
  }

  /** Weakening a policy never rejects a password it accepted; and when both reject, the weaker
      policy never reports an earlier clause. */
  lemma WeakeningIsMonotone(cat: Classifier, p: Policy, p': Policy, pw: string,
                            v: Option<PasswordError>, v': Option<PasswordError>)
    requires WeakerOrEqual(p', p) && IsVerdict(cat, p, pw, v) && IsVerdict(cat, p', pw, v')
    ensures v.None? ==> v'.None?
    ensures v.Some? && v'.Some? ==> Rank(v.value) <= Rank(v'.value)
  {
    if v'.Some? {
      assert Violates(cat, p, pw, v'.value);
    }
  }

  // ---------- hashing ----------

  datatype Options = Options(bcryptCost: int, pepper: string)

  const DEFAULT_BCRYPT_COST := 12

  /** What HMAC-SHA256 makes of its key before mixing it in: a 64-byte block, from the key itself
      filled up with zero bytes, or from the key's digest when it is longer than a block (section 2 of
      RFC 2104). Padded holds the key without the zeros it ends in; Digested is injective, and apart
      from every Padded. */
  datatype KeyBlock = Padded(key: string) | Digested(key: string)

  function TrimZeros(key: string): (t: string)
    ensures t <= key && (t != "" ==> t[|t| - 1] != '\0')
    ensures forall i :: |t| <= i < |key| ==> key[i] == '\0'
  {
    if key != "" && key[|key| - 1] == '\0' then TrimZeros(key[..|key| - 1]) else key
  }

  function BlockOf(key: string): KeyBlock {
    if |key| > 64 then Digested(key) else Padded(TrimZeros(key))
  }

  function ZeroFill(key: string): string
    requires |key| <= 64
  {
    key + seq(64 - |key|, _ => '\0')
  }

  /** Keys of at most a block have one block exactly when they are equal up to the zeros they end in. */
  lemma SameBlock(a: string, b: string)
    requires |a| <= 64 && |b| <= 64
    ensures BlockOf(a) == BlockOf(b) <==> ZeroFill(a) == ZeroFill(b)
  {
    var s, t := TrimZeros(a), TrimZeros(b);
    assert ZeroFill(a) == ZeroFill(s) && ZeroFill(b) == ZeroFill(t);
    if ZeroFill(s) == ZeroFill(t) {
      assert s == ZeroFill(s)[..|s|] && t == ZeroFill(t)[..|t|];
    }
  }

  /** preKDF: both digests are taken as injective, HMAC's in the block of its key. */
  datatype PreKey = Sha256(plain: string) | HmacSha256(block: KeyBlock, plain: string)

  /** A stored hash: blank, or bcrypt over a salt and the 64-character hex of the digest, which
      is below bcrypt's 72-byte limit. */
  datatype PasswordHash = Blank | Bcrypt(cost: int, salt: nat, key: PreKey)

  function PreKdf(plain: string, pepper: string): PreKey {
    if |pepper| > 0 then HmacSha256(BlockOf(pepper), plain) else Sha256(plain)
  }

  /** Peppers that preKDF does not tell apart: both absent, or both present with one key block. */
  predicate SamePepper(a: string, b: string) {
    (a == "" <==> b == "") && BlockOf(a) == BlockOf(b)
  }

  /** bcryptFails: bcrypt refused the cost or had no randomness. */
  function HashPassword(plain: string, opt: Options, salt: nat, bcryptFails: bool): Result<PasswordHash, Error> {
    if plain == "" then Err(WeakPassword(EmptyPassword))
    else
      var cost := if opt.bcryptCost <= 0 then DEFAULT_BCRYPT_COST else opt.bcryptCost;
      if bcryptFails then Err(HashFailed) else Ok(Bcrypt(cost, salt, PreKdf(plain, opt.pepper)))
  }

  function CheckPassword(hash: PasswordHash, plain: string, opt: Options): Result<(), Error> {
    if hash.Blank? then Err(EmptyPasswordHash)
    else if plain == "" then Err(WeakPassword(EmptyPassword))
    else if hash.key == PreKdf(plain, opt.pepper) then Ok(()) else Err(PasswordMismatch)
  }

  /** What hashing yields: a bcrypt hash at the configured cost, or at cost 12 when none is configured. */
  lemma HashOutcome(plain: string, opt: Options, salt: nat, bcryptFails: bool)
    ensures var res := HashPassword(plain, opt, salt, bcryptFails);
            && (res == Err(WeakPassword(EmptyPassword)) <==> plain == "")
            && (res == Err(HashFailed) <==> plain != "" && bcryptFails)
            && (res.Ok? <==> plain != "" && !bcryptFails)
            && (res.Ok? ==> res.value.Bcrypt? && res.value.salt == salt
                            && res.value.cost == if opt.bcryptCost > 0 then opt.bcryptCost else 12)
  {
  }

  /** Why a check fails: no hash, no password, or another password. */
  lemma CheckOutcome(hash: PasswordHash, plain: string, opt: Options)
    ensures var res := CheckPassword(hash, plain, opt);
            && (res == Err(EmptyPasswordHash) <==> hash.Blank?)
            && (res == Err(WeakPassword(EmptyPassword)) <==> hash.Bcrypt? && plain == "")
            && (res.Err? ==> res.error in {EmptyPasswordHash, WeakPassword(EmptyPassword), PasswordMismatch})
  {
  }

  /** A hash accepts exactly the password it was made from, under the same pepper up to the zero bytes
      it ends in, whatever the costs and salts. */
  lemma HashCheckRoundTrip(plain: string, other: string, opt: Options, opt': Options, salt: nat)
    requires HashPassword(plain, opt, salt, false).Ok?
    ensures CheckPassword(HashPassword(plain, opt, salt, false).value, other, opt').Ok?
       <==> other == plain && SamePepper(opt.pepper, opt'.pepper)
  {
    var key := HashPassword(plain, opt, salt, false).value.key;
    hide TrimZeros;
    assert opt.pepper == "" <==> key.Sha256?;
    assert opt'.pepper == "" <==> PreKdf(other, opt'.pepper).Sha256?;
  }
}
