# Verification of shelf-auth

A Dafny model of the shelf-auth authentication service, with proofs about it: the refresh-session
protocol (rotation, reuse detection, logout, expiry) over the `sessions` table, the signing keys and
the published JWKS under key rotation, and the users and passwords that feed them.

`dafny verify dfyconfig.toml` checks everything.

## How it is organised

| file | what it models |
|---|---|
| `Base.dfy` | options, results, `strings.TrimSpace` |
| `Domain.dfy` | ids, errors, `ParseEmail`, `ParseIP`, `NewSession`, a session row, the mutable `Session` object |
| `SessionTable.dfy` | what each SQL statement makes of the table, the table invariant, the link graph, sliding expiry |
| `SessionsRepo.dfy` | the repository as a class; the UPDATEs are loops, `Rotate` is a transaction on a copy |
| `Interleaving.dfy` | the protocol as a step relation: a refresh reads and, any number of steps later, writes |
| `SerialRuns.dfy` | runs of whole calls, each a block of atomic steps of `Interleaving` |
| `History.dfy` | which tokens a serial run accepts, and every answer, told from calls and answers alone |
| `Families.dfy` | a login and the rotations descending from it; what reuse detection does to them |
| `Serialisation.dfy` | a serial run is one run of `Interleaving` |
| `Continuations.dfy`, `FamilyRuns.dfy` | which tokens some continuation of an interleaved, or serial, run accepts |
| `Mint.dfy` | a text that no token or JTI of a table equals, to continue runs with |
| `Keys.dfy`, `Signer.dfy`, `Jwks.dfy` | the key directory, the signer, the provider, their agreement |
| `KeyRuns.dfy` | reloads, refreshes, switches and signings over time: the grace period |
| `Passwords.dfy`, `Users.dfy` | password policy and hashing, the users table |
| `AuthService.dfy` | `Register`, `Login`, `Refresh`, `Logout`, `Me` as methods over the above |
| `Outcomes.dfy` | the answer and effect of each call, in terms of the rows before and after |
| `AccessTokens.dfy` | what granted access tokens say and how long they live; who can log in |
| `Subjects.dfy` | whom an access token speaks for; register, then log in |

A run is a trace: the calls or steps, the states before, between and after them, and the answers;
`Valid` says that every step is enabled and does what the model says. The theorems about runs hold of
every valid trace.

Each mutating method is proved against a function of the old state (`ServeRefresh`, `Rotate`,
`Reloaded`, ...); the theorems are about those functions and about runs of them. `Outcomes`,
`Signer.VerifyExactly` and `Passwords.VerdictSpelled` say what those functions answer without using them.

## Assumptions

- Minted refresh tokens and JTIs are new to the table and tokens are not blank; ids from
  `gen_random_uuid()` are not nil. `MintsFresh`, `Enabled` and `Fresh` say where this is used.
- SHA-256, HMAC, bcrypt, RSA, UUID text and JSON are free constructors: injective, and a signature
  verifies under the public half of the signing key only. HMAC is injective in the 64-byte block it makes
  of its key (section 2 of RFC 2104), not in the key: short keys are filled up with zero bytes.
- A SQL statement and a transaction are atomic. A statement may fail; parameters of a call say which.
- Time is an integer, in whole seconds where JWTs are concerned. No clock is assumed monotone except
  where a lemma says so (`TokenAutomaton` for expired answers, `InactiveStaysInactive`, `KeyRuns`).
- A JWT library accepts a token's times from `nbf` until before `exp` (section 4.1.4 of RFC 7519) and
  rejects them once the 5-second skew after `exp` has passed; in between the answer is left open.
- `mail.ParseAddress`, `net.ParseIP`, the CITEXT folding and the rune classes are arbitrary functions.
- The active kid is not switched while a token is being signed.

## What the code does, where its comments say otherwise

- `replaced_by` holds the successor's JTI, not its row id (internal/domain/session.go:25 says a session).
- The schema makes JTIs unique per user and device only, and the rotation's UPDATE matches the JTI alone:
  `JtiClashLinksTwoUsers` and `RotateFrame` say what would follow; fresh JTIs exclude it.
- The rotation's UPDATE does not test `replaced_by` or `revoked_at`, so a refresh that has passed its checks
  commits whatever has become of its row. One token can therefore succeed twice, and a refresh can outlive
  a logout or a reuse revocation. Exactly when: `SuccessesOverlap` and `EveryOverlapCanSucceedTwice` are the
  two directions of the first; `TokenCanSucceedIff` and `FamilyCanSucceedIff` give the condition for any
  reachable state, and `SecondSuccessExactly`, `LogoutExactly` and `ReuseExactly` for the moment after a
  commit, a logout and a detected reuse. `OverlapCanSucceedTwice` is one such schedule from the start.
- Reuse detection revokes the reused token's user and device, not its chain. A chain whose live end has
  moved to another device survives: `ReuseKillsExactly` is the condition, `ReuseSparesOtherDevice` a run.
- A row at its very expiry instant is still refreshed, though `IsExpired` holds (`DecideAgainstIsActive`).
- The provider's comments promise to keep the last good set on error; a directory that cannot be listed
  publishes what little could be walked instead, while the signer keeps its keys: `UnreadableDirectoryParts`
  and `SignedTokensVerifyAgainstJwks` say when the two still agree.
- Peppers that differ only in trailing zero bytes accept each other's hashes (`HashCheckRoundTrip`).

## Model

| member | source | states |
|---|---|---|
| AuthService.AuthService.Refresh | internal/service/refresh.go:23-97 | for every failure combination the answer and the new table are those of the specification, and any error but a reuse leaves the table as it was |
| Outcomes.RefreshMeetsLive | internal/service/refresh.go:55-96 | on a live row, Refresh succeeds if and only if it can sign and mint, the address is empty or valid and the transaction goes through; every column of the successor row and every claim and time of the tokens is given, the access token's with the access TTL; otherwise nothing changes and the first failure is answered |
| Outcomes.RefreshMeetsDead | internal/service/refresh.go:40-46 | a revoked row is answered as revoked, else one past its expiry as expired, and nothing changes |
| Outcomes.RefreshMeetsReuse | internal/service/refresh.go:48-53 | on a used row, exactly the unrevoked rows of its user and device get revoked_at = now, or none when the store fails, and the answer is reuse |
| Outcomes.RefreshFindsNothing | internal/service/refresh.go:24-36 | missing, store failure and invalid are answered exactly for a blank token, a failed lookup and a token that no row has, and change nothing |
| AuthService.RefreshFailureIsAtomic | internal/service/refresh.go:23-97 | whatever step fails, including inside the transaction, the table is unchanged unless reuse was detected and its revoke succeeded |
| AuthService.AuthService.Login | internal/service/logging.go:45-104 | a login issues tokens and one session row only after email, password, verification, signing, minting and insertion all succeed; otherwise the table is unchanged |
| Outcomes.AuthenticateOutcome | internal/service/logging.go:46-65 | over all emails and passwords, exactly a stored verified user under its own email up to case with a password its hash accepts is authenticated; an unknown email and a wrong password are both invalid credentials |
| Outcomes.LoginOutcome | internal/service/logging.go:67-103 | Login succeeds if and only if it authenticates, signs, mints, is given a non-blank device and an empty or valid address, and the store takes the row; the row and the tokens are given column by column and claim by claim, each failure by its error |
| AccessTokens.LoginRefinement | internal/service/logging.go:45-104 | in a serial run, a login with no failure of its own is granted if and only if some earlier registration stored its email, up to case, with its password, verified at once |
| AuthService.AuthService.Logout | internal/service/logout.go:10-19 | revokes the rows of the presented token unless it is blank or the store fails, and nothing else |
| Outcomes.LogoutOutcome | internal/service/logout.go:10-19 | exactly the unrevoked rows of a non-blank token get revoked_at = the time of the call, unless the store fails |
| AuthService.AuthService.Register | internal/service/register.go:17-50 | adds exactly one user, or reports the first failing check and adds none |
| Outcomes.RegisterOutcome | internal/service/register.go:17-50 | Register succeeds if and only if the email is valid, the password strong, nothing fails and neither id nor email is taken; the stored user is given column by column, and each failure by its error, the password's by its first violated clause |
| AccessTokens.RegisteredIsStrong | internal/security/password.go:26-36 | every registered password has at least eight runes, a lower-case letter, a digit and no white space |
| AuthService.AuthService.Me | internal/service/me.go:20-31 | the stored user's projection, or the lookup's error |
| Outcomes.MeOutcome | internal/service/me.go:20-31 | Me shows exactly the stored user of the id, and says so when there is none |
| Outcomes.BearerExactly | internal/httpserver/middleware/auth.go:23-44 | the middleware takes a token to speak for a user if and only if it is RS256-signed with the key held for its kid, current, and names that user |
| SessionsRepo.SessionsRepo.Create | internal/repo/postgres/sessions.go:20-28 | appends the row unless the key (user, device, jti) is taken or the statement fails |
| SessionsRepo.SessionsRepo.FindByHash | internal/repo/postgres/sessions.go:31-53 | a row with that hash, or not found when there is none |
| SessionsRepo.SessionsRepo.Rotate | internal/repo/postgres/sessions.go:56-81 | all or nothing: on a failure at any of its steps the table is as before, on success the row is in and every row of the old JTI is linked to it |
| SessionsRepo.SessionsRepo.RevokeAllByUserAndDevice | internal/repo/postgres/sessions.go:84-91 | exactly the unrevoked rows of that user and device become revoked at that time |
| SessionsRepo.SessionsRepo.RevokeByHash | internal/repo/postgres/sessions.go:94-101 | exactly the unrevoked rows with that hash become revoked at that time |
| Domain.Session.Revoke | internal/domain/session.go:93-97 | write-once, leaves the session inactive at every time; the table's revokes act on each row as this does |
| Domain.Session.MarkRotated | internal/domain/session.go:101-103 | sets the link only, which does not change when the session counts as active; the table's link acts on the row as this does |
| SessionTable.JtiClashLinksTwoUsers | migrations/001_init.up.sql:33-41 | the schema alone allows one JTI for two users, and then one rotation marks both users' rows as used |
| SessionTable.RotateFrame | internal/repo/postgres/sessions.go:75-76 | a rotation leaves all other rows alone if and only if no other row has the JTI |
| Interleaving.InterleavingInv | internal/service/refresh.go:30-87 | every reachable state of every interleaving keeps the table, users and token invariants |
| Interleaving.TableOnlyGrows | internal/repo/postgres/sessions.go:20-101 | in every interleaving links never return to null and revoked_at is write-once |
| Interleaving.CommitsAreSound | internal/service/refresh.go:30-87 | every committed refresh is the write of the call that read the row's own token, found the row unrevoked, unreplaced and unexpired, and the row is replaced at every later moment |
| Interleaving.SuccessesOverlap | internal/service/refresh.go:30-87 | two successful refreshes of one token are two calls that, at some moment before the first commit, had both read the token's row live and not yet written |
| Interleaving.BulkRevokesAreSound | internal/service/refresh.go:40-53 | every bulk revoke is on behalf of a call that had read the row of its own token used, unrevoked and within its time |
| Interleaving.ReadOutcome | internal/service/refresh.go:28-53 | a read leaves its call something to write exactly when it finds an unrevoked row within its time, and changes nothing else |
| Interleaving.WriteOutcome | internal/repo/postgres/sessions.go:56-91 | the whole state after a rotation and after a bulk revoke |
| Continuations.EveryOverlapCanSucceedTwice | internal/repo/postgres/sessions.go:75-76 | conversely, from every reachable state in which two calls have read one row live, both can commit; the first successor then has no link to it, and both are usable |
| Continuations.SecondSuccessExactly | internal/service/refresh.go:30-87 | right after a refresh of a token has committed, some continuation refreshes it again if and only if another call has read its row live and not yet written |
| Continuations.TokenCanSucceedIff | internal/service/refresh.go:30-87 | in every reachable state, some continuation refreshes a given row's token if and only if the row is unrevoked and unreplaced or some call has read it live and not yet written |
| Continuations.FamilyCanSucceedIff | internal/service/refresh.go:30-87 | the same for all tokens descending from one login, those still to be issued included |
| Continuations.ReuseExactly | internal/service/refresh.go:48-53 | after a detected reuse, a token of the family can still be refreshed if and only if a usable row of it was on another device or a refresh of it was in flight past its checks; in a family of one device only the latter remains |
| Continuations.LogoutExactly | internal/service/logout.go:10-19 | after a logout, the token can still be refreshed if and only if a refresh of it was in flight past its checks |
| Continuations.RevocationCanBeEscaped | internal/repo/postgres/sessions.go:56-81 | from every such state the refresh can commit after the logout, and its new row, of the same family, is let through until it expires |
| Interleaving.RevocationIsABarrier | internal/repo/postgres/sessions.go:83-101 | no refresh whose read follows the revocation of its row succeeds |
| Interleaving.WhoRevokes | internal/service/refresh.go:50-53 | a row becomes revoked exactly by a logout of its token or by a reuse on its user and device |
| Interleaving.LinkGraphAlwaysForest | internal/repo/postgres/sessions.go:55-81 | in every interleaving links are acyclic, unshared, within one user, and resolve |
| Interleaving.SlidingExpiryAlways | internal/service/refresh.go:38-85 | the expiry bounds hold in every interleaving, overwritten links included |
| Serialisation.SerialRunsAreInterleavings | internal/service/refresh.go:23-97 | the calls of a serial run, as blocks of atomic steps in sequence, are one valid run of the interleaved model that ends in the same tables with nothing in flight and one commit for each granted refresh |
| SerialRuns.SerialInv | internal/service/refresh.go:23-97 | every serial run keeps the invariants, and in it a parent's link still is the one to its child |
| History.HistoryRefinement | internal/service/refresh.go:23-97 | a refresh with no failure of its own is accepted exactly when an earlier call issued the token, none refreshed it, logged it out or detected reuse on its user and device since, and its time is not over |
| History.HistoryDecidesVerdict | internal/service/refresh.go:41-53 | for an issued token the revoked, expired and reused answers are each determined by the history, in that order of precedence |
| History.UnknownIffNeverIssued | internal/service/refresh.go:28-36 | a token is answered as invalid exactly when no earlier call issued it |
| History.TokenAutomaton | internal/service/refresh.go:41-53 | the answers to one token move from success to reused to revoked only, and from expired, with a monotone clock, only to expired or revoked |
| History.LogoutIsFinal | internal/service/logout.go:10-19 | after a logout the token is answered as revoked for ever |
| Families.SerialFamilies | internal/service/refresh.go:50-89 | in every serial run each login's family is a single path with exactly one unreplaced row |
| Families.RowsAreCounted | internal/service/refresh.go:50-89 | rows = logins + refreshes that succeeded, and unreplaced rows = logins |
| FamilyRuns.CanBeAcceptedIff | internal/service/refresh.go:38-89 | in every serial run, some continuation accepts a token of a family if and only if a row of it is unrevoked and unreplaced now |
| FamilyRuns.ReuseKillsExactly | internal/service/refresh.go:48-53 | once a call has detected reuse of a token, some continuation accepts a token of its family if and only if the family's live end was on another device and not revoked |
| Families.ReuseKillsFamilyForGood | internal/service/refresh.go:48-53 | otherwise no later call of the run succeeds with a token of the family |
| FamilyRuns.ReuseSparesOtherDevice | internal/service/refresh.go:76-81 | a valid run of calls in which that happens: register, log in on a phone, refresh on a laptop, reuse on the phone detected, and the laptop's next refresh granted |
| Keys.SameKidSameStem | internal/auth/signer/signer.go:80-83 | two key files share a kid exactly when their names differ at most in the case of the extension |
| Signer.LoadKeysIsLastWins | internal/auth/signer/signer.go:75-89 | a kid is loaded exactly when some file of the directory provides it, with the key of the last such file |
| Signer.SignVerifyRoundTrip | internal/auth/signer/signer.go:112-218 | a signed token is accepted, with the same claims, exactly when its kid still maps to the same key, issuer and audience agree, the algorithm is RS256, the time is within its window and the subject is not blank |
| Signer.SignOutcome | internal/auth/signer/signer.go:112-152 | signing fails only without the active key or an RSA algorithm; kid, key, issuer, audience, times, subject and email of the token, and the expiry returned, are given |
| Signer.VerifyExactly | internal/auth/signer/signer.go:154-218 | of all tokens that can be presented, accepted are exactly the RS256 ones signed with the key held for their text kid, within their times, of this issuer and audience, with a non-blank text subject; the claims are its subject and email |
| Signer.VerifyRefuses | internal/auth/signer/signer.go:154-209 | every other token is refused for the first check it fails |
| AccessTokens.GrantedAccess | internal/service/refresh.go:55-62 | every login and refresh granted in a serial run hands out an access token signed with the key then active, valid from signing for the access TTL, and states that expiry |
| AccessTokens.GrantedAccessLifetime | internal/auth/signer/signer.go:192-199 | every signer state that keeps key, issuer and audience accepts it from signing until the access TTL has passed, and none accepts it 5 seconds after that |
| Signer.Signer.Reload | internal/auth/signer/signer.go:70-96 | replaces the key map by the directory's, or changes nothing when the directory cannot be listed |
| Signer.Signer.SetActiveKid | internal/auth/signer/signer.go:54-62 | switches only to a loaded kid |
| Signer.Signer.constructor | internal/auth/signer/signer.go:38-50 | starts from the keys of the first snapshot, or from none |
| Jwks.Provider.Refresh | internal/auth/jwks/provider.go:81-105 | caches the set of the whole tree with its own tag, or keeps the old pair when no directory is configured |
| Jwks.Provider.Current | internal/auth/jwks/provider.go:49-57 | what is served carries the tag of what is served, and a set that was never loaded is served as an empty one |
| Jwks.Provider.WalkDir | internal/auth/jwks/provider.go:113-142 | appends, in walk order, the public half of every loadable key file of the tree |
| Jwks.SetVerifiesIffPem | internal/auth/jwks/provider.go:107-147 | the set published from a snapshot verifies a token if and only if it is a JWS with a text kid and the tree holds, at any depth, a loadable PEM file of that kid with that key |
| Jwks.PublishedEntriesExplained | internal/auth/jwks/provider.go:107-147 | every published entry is the signer's, or from a subdirectory, or from a file shadowed by a later one of the same kid |
| Jwks.SignedTokensVerifyAgainstJwks | internal/auth/jwks/provider.go:81-147 | for every snapshot, what a signer signs after loading it verifies against the set published from it if and only if the directory could be listed or the part that was walked holds the PEM of the active kid with the key the signer kept |
| Jwks.UnreadableDirectoryParts | internal/auth/jwks/provider.go:113-117 | from an unlistable snapshot the signer keeps its keys, the provider publishes what it could walk, and the set verifies the signer's tokens if and only if that contains the kept key |
| KeyRuns.GraceExactly | internal/auth/signer/signer.go:54-218 | over any reloads and kid switches a token verifies at every moment from issue to exp if and only if every reload in that time keeps its kid on its key |
| KeyRuns.SignedUnderLastSwitch | internal/auth/signer/signer.go:54-147 | a token carries the kid of the last switch to a loaded kid, or the configured one before any, and is signed with the key loaded for that kid at that moment |
| KeyRuns.AssignedMeansPemPresent | README.md:265-266 | keeping the kid on its key means keeping the PEM file as the last one with that kid |
| KeyRuns.JwksGraceExactly | internal/auth/jwks/provider.go:64-105 | the published set verifies a token at every moment of its life if and only if the snapshot published at issue and the snapshot of every refresh in that time hold, at any depth, a PEM file of its kid with its key |
| Passwords.ValidatePassword | internal/security/password.go:40-87 | nothing exactly when no clause of the policy is violated, else the violated clause of highest priority |
| Passwords.VerdictUnique | internal/security/password.go:40-87 | that verdict is unique, and is acceptance exactly when the declarative policy holds |
| Passwords.VerdictSpelled | internal/security/password.go:40-87 | which clause is reported for which password, under every policy |
| Passwords.WeakeningIsMonotone | internal/security/password.go:17-24 | weakening any field of a policy never rejects an accepted password |
| Passwords.HashCheckRoundTrip | internal/security/password.go:115-159 | a hash accepts exactly its own password under the same pepper up to trailing zero bytes, whatever the cost and salt |
| Passwords.HashOutcome | internal/security/password.go:115-133 | a hash is made at the configured cost, or at 12; a blank password and a bcrypt failure are its only errors |
| Passwords.SameBlock | internal/security/password.go:148-159 | peppers of at most 64 bytes are the same HMAC key exactly when they are equal once filled up with zero bytes |
| Users.UsersRepo.Insert | internal/repo/postgres/users.go:71-93 | appends the user unless id or email, up to case, is taken |
| Users.UsersRepo.FindByEmail | internal/repo/postgres/users.go:19-38 | the user whose email is equal up to case, or no rows |
| Users.UsersRepo.FindById | internal/repo/postgres/users.go:41-67 | the id, email and verification flag stored under that id, or no rows |
| Users.InsertKeepsInv | migrations/001_init.up.sql:6-13 | no two users ever share an id or, up to case, an email, and stored emails read back as stored |
| Users.StoredUserIsFound | internal/repo/postgres/users.go:19-67 | a stored user is the one found under its id and under every case variant of its email |
| Subjects.IssuedTokensNameTheirUser | internal/service/refresh.go:55-59 | in every interleaving an access token names the user of the login at the root of its chain, who is found at every later time |
| Subjects.SubjectIntegrity | internal/service/me.go:20-31 | middleware and Me on any token of a chain of refreshes answer with the user whose login started the chain, whatever ran in between |
| Subjects.RegisterThenLogin | internal/service/logging.go:45-104 | after a registration, an unfailing login with any case variant of the email is granted, to that user, if and only if the password is the registered one and the account was verified at once |

## Left out

- HTTP handlers, router, CORS, cookies, headers, configuration, logging, start-up: plumbing; the middleware is only the composition of VerifyAccess and ParseID.
- The If-None-Match handling of the JWKS handler and the handler's default device "unknown": a device ID is any string here.
- The grammars of mail.ParseAddress, net.ParseIP, PEM, PKCS, JWT and JWK, and the arithmetic of SHA-256, HMAC, bcrypt and RSA: library code, taken as functions with the laws above.
- Row ids of the sessions table, the foreign key to users and the UUID type of replaced_by: no branch of the code reads the id; every row is proved to belong to an existing user, and users are never deleted.
- The microsecond rounding of TIMESTAMPTZ columns.
- Isolation levels, pooling and cancellation in the database: a statement or transaction takes effect at once or not at all.
- FindByHash without an ORDER BY may return any row with the hash; the model returns the first, and hashes are proved unique.
- In the interleaved model a login's lookup of the user and its insert are one step, as are a refresh's read and its clock reading: user rows never change, and times are arbitrary.
- Tickers and locks: a reload may happen at any moment and is one step.
- A symbolic link as the keys directory, which listing follows and walking does not.
- Which of several published keys with one kid a consumer tries first: consumers are not part of this repository.
- CreatedAt of MeResult: the code never fills it, and neither does the model.
- The roles tables and the empty Service struct: no behaviour.
- Domain.Session.MarkRotated: the source method takes the successor's session ID; the model's takes its JTI, which is what `Rotate` writes to the column, and nothing but a unit test calls the method.
- The provider's empty keys directory within `KeyRuns`: there `Refresh` always walks; `Jwks.Provider` models the other case.
