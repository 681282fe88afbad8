/** Runs of the two key loaders over a changing directory: when does a signed token stay
    verifiable until it expires? */
module KeyRuns {
  import opened Base
  import opened Domain
  import opened Keys
  import opened Signer
  import opened Jwks

  /** The signer and the published set; a reload or refresh brings its own directory snapshot. */
  datatype KeyWorld = KeyWorld(signer: SignerState, published: seq<Jwk>)

  datatype Event =
    | Reload(at: int, root: Snapshot)
    | Refresh(at: int, root: Snapshot)
    | SwitchKid(at: int, kid: string)
    | SignToken(at: int, claims: Claims, ttl: int)

  function Apply(w: KeyWorld, e: Event): KeyWorld {
    match e
    case Reload(_, root) => w.(signer := Reloaded(w.signer, root))
    case Refresh(_, root) => w.(published := Published(w.signer.alg, root))
    case SwitchKid(_, kid) => w.(signer := Switched(w.signer, kid))
    case SignToken(_, _, _) => w
  }

  /** The state after the first n events. */
  function After(w: KeyWorld, run: seq<Event>, n: nat): KeyWorld
    requires n <= |run|
  {
    if n == 0 then w else Apply(After(w, run, n - 1), run[n - 1])
  }

  ghost predicate Monotone(run: seq<Event>) {
    forall i, j :: 0 <= i <= j < |run| ==> run[i].at <= run[j].at
  }

  /** Event i signed a token: what came out, under which kid and key. */
  predicate Signs(w: KeyWorld, run: seq<Event>, i: nat) {
    i < |run| && run[i].SignToken? && Sign(After(w, run, i).signer, run[i].claims, run[i].ttl, run[i].at).Ok?
  }

  function TokenOf(w: KeyWorld, run: seq<Event>, i: nat): Token
    requires Signs(w, run, i)
  {
    Sign(After(w, run, i).signer, run[i].claims, run[i].ttl, run[i].at).value.0
  }

  function KeyOf(w: KeyWorld, run: seq<Event>, i: nat): PrivateKey
    requires Signs(w, run, i)
  {
    var s := After(w, run, i).signer;
    s.keys[s.kid]
  }

  /** The state reached after n events is in force at time now, within the token's lifetime. */
  predicate InForce(run: seq<Event>, i: nat, n: nat, now: int) {
    i < n <= |run| && run[i].SignToken? && run[n - 1].at <= now < run[i].at + run[i].ttl
  }

  /** Event r is a reload, before the token's exp, from a directory that could be listed. */
  predicate ReloadsWithin(run: seq<Event>, i: nat, r: nat) {
    i < r < |run| && run[i].SignToken? && run[r].Reload? && ReadDir(run[r].root).Some? && run[r].at < run[i].at + run[i].ttl
  }

  /** The operator's side of the bargain: until the token's exp, every such reload still assigns
      the key it was signed with to its kid. */
  ghost predicate KeyKept(w: KeyWorld, run: seq<Event>, i: nat)
    requires Signs(w, run, i)
  {
    forall r: nat :: ReloadsWithin(run, i, r) ==>
      Assigns(LoadKeys(ReadDir(run[r].root).value), After(w, run, i).signer.kid, KeyOf(w, run, i))
  }

  predicate Assigns(keys: map<string, PrivateKey>, kid: string, key: PrivateKey) {
    kid in keys && keys[kid] == key
  }

  /** The bargain in terms of files: the last key file of the directory with that kid holds the key. */
  lemma AssignedMeansPemPresent(files: seq<Node>, kid: string, key: PrivateKey)
    ensures Assigns(LoadKeys(files), kid, key)
       <==> exists c: nat :: LastProvider(files, c, kid) && files[c].key == Some(key)
  {
    LoadKeysIsLastWins(files, kid);
  }

  /** The service's side: at every moment of its lifetime the token verifies, to its own claims. */
  ghost predicate VerifiesThroughout(win: Window, w: KeyWorld, run: seq<Event>, i: nat)
    requires Signs(w, run, i)
  {
    forall n: nat, now: int :: InForce(run, i, n, now) ==>
      Verify(win, After(w, run, n).signer, TokenOf(w, run, i), now) == Ok(run[i].claims)
  }

  lemma {:induction false} SettingsNeverChange(w: KeyWorld, run: seq<Event>, n: nat)
    requires n <= |run|
    ensures var s := After(w, run, n).signer;
            s.alg == w.signer.alg && s.issuer == w.signer.issuer && s.audience == w.signer.audience
  {
    if n > 0 {
      SettingsNeverChange(w, run, n - 1);
    }
  }

  lemma {:induction false} KeptKeyStays(w: KeyWorld, run: seq<Event>, i: nat, n: nat)
    requires Signs(w, run, i) && Monotone(run) && KeyKept(w, run, i)
    requires i < n <= |run| && run[n - 1].at < run[i].at + run[i].ttl
    ensures Assigns(After(w, run, n).signer.keys, After(w, run, i).signer.kid, KeyOf(w, run, i))
  {
    if n - 1 > i {
      KeptKeyStays(w, run, i, n - 1);
      if run[n - 1].Reload? && ReadDir(run[n - 1].root).Some? {
        assert ReloadsWithin(run, i, n - 1);
      }
    }
  }

  /** Key-rotation grace, exactly. A signed token verifies at every moment from its issue until
      its exp, across any reloads and switches of the active kid, if and only if every reload
      within its lifetime keeps its kid on its key. */
  lemma GraceExactly(win: Window, w: KeyWorld, run: seq<Event>, i: nat)
    requires Signs(w, run, i) && Monotone(run)
    requires w.signer.alg == "RS256" && run[i].claims.userId != NotUuid("")
    ensures VerifiesThroughout(win, w, run, i) <==> KeyKept(w, run, i)
  {
    var s := After(w, run, i).signer;
    SettingsNeverChange(w, run, i);
    if KeyKept(w, run, i) {
      forall n: nat, now: int | InForce(run, i, n, now)
        ensures Verify(win, After(w, run, n).signer, TokenOf(w, run, i), now) == Ok(run[i].claims)
      {
        KeptKeyStays(w, run, i, n);
        SettingsNeverChange(w, run, n);
        SignVerifyRoundTrip(win, s, After(w, run, n).signer, run[i].claims, run[i].ttl, run[i].at, now);
      }
    }
    if VerifiesThroughout(win, w, run, i) {
      forall r: nat | ReloadsWithin(run, i, r)
        ensures Assigns(LoadKeys(ReadDir(run[r].root).value), s.kid, KeyOf(w, run, i))
      {
        assert InForce(run, i, r + 1, run[r].at);
        SignVerifyRoundTrip(win, s, After(w, run, r + 1).signer, run[i].claims, run[i].ttl, run[i].at, run[r].at);
        assert After(w, run, r + 1).signer.keys == LoadKeys(ReadDir(run[r].root).value);
      }
    }
  }

  // ---------- which kid signs ----------

  /** Event j switches the active kid to one that is loaded. */
  predicate Switches(w: KeyWorld, run: seq<Event>, j: nat) {
    j < |run| && run[j].SwitchKid? && run[j].kid in After(w, run, j).signer.keys
  }

  /** The last effective switch before event n, if any. */
  ghost predicate LastSwitch(w: KeyWorld, run: seq<Event>, j: nat, n: nat) {
    j < n && Switches(w, run, j) && forall j' :: j < j' < n ==> !Switches(w, run, j')
  }

  lemma KidStep(w: KeyWorld, run: seq<Event>, n: nat)
    requires n < |run|
    ensures After(w, run, n + 1).signer.kid == if Switches(w, run, n) then run[n].kid else After(w, run, n).signer.kid
  {
    hide LoadKeys, Published;
  }

  /** After an effective switch its kid stays the active one until the next. */
  lemma {:induction false} KidAfterSwitch(w: KeyWorld, run: seq<Event>, j: nat, n: nat)
    requires n <= |run| && LastSwitch(w, run, j, n)
    ensures After(w, run, n).signer.kid == run[j].kid
    decreases n
  {
    hide After, Switches;
    KidStep(w, run, n - 1);
    if j < n - 1 {
      KidAfterSwitch(w, run, j, n - 1);
    }
  }

  /** Before any effective switch the active kid is the one the signer started with. */
  lemma {:induction false} KidUnswitched(w: KeyWorld, run: seq<Event>, n: nat)
    requires n <= |run| && forall j: nat :: j < n ==> !Switches(w, run, j)
    ensures After(w, run, n).signer.kid == w.signer.kid
  {
    if n > 0 {
      hide Switches;
      KidStep(w, run, n - 1);
      KidUnswitched(w, run, n - 1);
    }
  }

  /** A signed token carries the kid of the last effective switch, or the signer's first kid when there
      was none, and is signed with the key loaded for that kid at that moment. */
  lemma SignedUnderLastSwitch(w: KeyWorld, run: seq<Event>, i: nat)
    requires Signs(w, run, i)
    ensures var tok, keys := TokenOf(w, run, i), After(w, run, i).signer.keys;
            && (forall j: nat :: LastSwitch(w, run, j, i) ==> tok.Jws? && tok.header == Kid(run[j].kid))
            && ((forall j: nat :: j < i ==> !Switches(w, run, j)) ==> tok.Jws? && tok.header == Kid(w.signer.kid))
            && tok.Jws? && tok.header.Kid? && tok.header.kid in keys && tok.signedBy == keys[tok.header.kid]
  {
    SignOutcome(After(w, run, i).signer, run[i].claims, run[i].ttl, run[i].at);
    hide After, LastSwitch, Switches, Sign;
    forall j: nat | LastSwitch(w, run, j, i) ensures After(w, run, i).signer.kid == run[j].kid {
      KidAfterSwitch(w, run, j, i);
    }
    if forall j: nat :: j < i ==> !Switches(w, run, j) {
      KidUnswitched(w, run, i);
    }
  }

  /** After the grace period nothing verifies: a token is refused from SKEW past its exp on. */
  lemma NeverAfterExpiry(win: Window, w: KeyWorld, run: seq<Event>, i: nat, n: nat, now: int)
    requires Signs(w, run, i) && n <= |run| && run[i].at + run[i].ttl + SKEW <= now
    ensures Verify(win, After(w, run, n).signer, TokenOf(w, run, i), now).Err?
  {
    SignVerifyRoundTrip(win, After(w, run, i).signer, After(w, run, n).signer, run[i].claims, run[i].ttl, run[i].at, now);
  }

  // ---------- the published set over the same runs ----------

  predicate RefreshesWithin(run: seq<Event>, i: nat, r: nat) {
    i < r < |run| && run[i].SignToken? && run[r].Refresh? && run[r].at < run[i].at + run[i].ttl
  }

  /** The snapshot behind the published set after n events: that of the last refresh, or root0, from
      which the provider started. */
  function SnapshotAt(root0: Snapshot, run: seq<Event>, n: nat): Snapshot
    requires n <= |run|
  {
    if n == 0 then root0
    else if run[n - 1].Refresh? then run[n - 1].root
    else SnapshotAt(root0, run, n - 1)
  }

  lemma {:induction false} PublishedIsOfSnapshot(w: KeyWorld, root0: Snapshot, run: seq<Event>, n: nat)
    requires n <= |run| && w.published == Published(w.signer.alg, root0)
    ensures After(w, run, n).published == Published(w.signer.alg, SnapshotAt(root0, run, n))
  {
    hide Published, Reloaded, Switched;
    if n > 0 {
      PublishedIsOfSnapshot(w, root0, run, n - 1);
      SettingsNeverChange(w, run, n - 1);
    }
  }

  /** Between two moments the snapshot stays, or is that of a refresh between them. */
  lemma {:induction false} SnapshotSince(root0: Snapshot, run: seq<Event>, i: nat, n: nat)
    requires i <= n <= |run|
    ensures SnapshotAt(root0, run, n) == SnapshotAt(root0, run, i)
         || exists r: nat :: i <= r < n && run[r].Refresh? && run[r].root == SnapshotAt(root0, run, n)
  {
    if i < n && !run[n - 1].Refresh? {
      SnapshotSince(root0, run, i, n - 1);
    }
  }

  /** The directory still holds, at any depth, a PEM file of the token's kid with the token's key. */
  predicate PemKept(w: KeyWorld, run: seq<Event>, i: nat, root: Snapshot)
    requires Signs(w, run, i)
  {
    PemInTree(root, After(w, run, i).signer.kid, PublicOf(KeyOf(w, run, i)))
  }

  /** The published set after n events verifies the token of event i exactly when its snapshot holds
      the PEM file. */
  lemma PublishedVerifiesIff(w: KeyWorld, root0: Snapshot, run: seq<Event>, i: nat, n: nat)
    requires Signs(w, run, i) && n <= |run| && w.published == Published(w.signer.alg, root0)
    ensures SetVerifies(After(w, run, n).published, TokenOf(w, run, i)) <==> PemKept(w, run, i, SnapshotAt(root0, run, n))
  {
    SignedHeader(After(w, run, i).signer, run[i].claims, run[i].ttl, run[i].at);
    hide Published, SetVerifies, PemInTree, Sign, After, SnapshotAt;
    PublishedIsOfSnapshot(w, root0, run, n);
    SetVerifiesIffPem(w.signer.alg, SnapshotAt(root0, run, n), TokenOf(w, run, i));
  }

  /** The provider's side of the bargain: the snapshot published when the token is issued and every
      one that a refresh publishes before its exp hold the file. */
  ghost predicate PemsKept(w: KeyWorld, root0: Snapshot, run: seq<Event>, i: nat)
    requires Signs(w, run, i)
  {
    && PemKept(w, run, i, SnapshotAt(root0, run, i))
    && forall r: nat :: RefreshesWithin(run, i, r) ==> PemKept(w, run, i, run[r].root)
  }

  /** At every moment of its lifetime the published set verifies the token. */
  ghost predicate PublishedThroughout(w: KeyWorld, run: seq<Event>, i: nat)
    requires Signs(w, run, i)
  {
    forall n: nat, now: int :: InForce(run, i, n, now) ==> SetVerifies(After(w, run, n).published, TokenOf(w, run, i))
  }

  /** Of a token in force, the snapshot is that of the issue or of a refresh within the lifetime. */
  lemma SnapshotInForce(root0: Snapshot, run: seq<Event>, i: nat, n: nat, now: int)
    requires Monotone(run) && InForce(run, i, n, now)
    ensures SnapshotAt(root0, run, n) == SnapshotAt(root0, run, i)
         || exists r: nat :: RefreshesWithin(run, i, r) && run[r].root == SnapshotAt(root0, run, n)
  {
    SnapshotSince(root0, run, i, n);
    hide SnapshotAt;
    if SnapshotAt(root0, run, n) != SnapshotAt(root0, run, i) {
      var r: nat :| i <= r < n && run[r].Refresh? && run[r].root == SnapshotAt(root0, run, n);
      assert run[r].at <= run[n - 1].at;
      assert RefreshesWithin(run, i, r);
    }
  }

  /** At the moment of a refresh within the lifetime, the token is in force and the snapshot is its. */
  lemma RefreshIsInForce(root0: Snapshot, run: seq<Event>, i: nat, r: nat)
    requires RefreshesWithin(run, i, r)
    ensures InForce(run, i, r + 1, run[r].at) && SnapshotAt(root0, run, r + 1) == run[r].root
  {
  }

  lemma IssueIsInForce(root0: Snapshot, run: seq<Event>, i: nat)
    requires i < |run| && run[i].SignToken? && run[i].ttl > 0
    ensures InForce(run, i, i + 1, run[i].at) && SnapshotAt(root0, run, i + 1) == SnapshotAt(root0, run, i)
  {
  }

  /** Publication grace, exactly. The published set verifies a signed token at every moment from its
      issue until its exp if and only if a PEM file of its kid with its key is in the tree, at any
      depth, of the snapshot published at issue and of every snapshot that a refresh publishes within
      the lifetime. Unlike a reload, a refresh of a directory that cannot be listed counts. */
  lemma JwksGraceExactly(w: KeyWorld, root0: Snapshot, run: seq<Event>, i: nat)
    requires Signs(w, run, i) && Monotone(run) && run[i].ttl > 0
    requires w.published == Published(w.signer.alg, root0)
    ensures PublishedThroughout(w, run, i) <==> PemsKept(w, root0, run, i)
  {
    hide *;
    if PublishedThroughout(w, run, i) {
      ThroughoutKeeps(w, root0, run, i);
    }
    if PemsKept(w, root0, run, i) {
      KeptThroughout(w, root0, run, i);
    }
  }

  lemma ThroughoutKeeps(w: KeyWorld, root0: Snapshot, run: seq<Event>, i: nat)
    requires Signs(w, run, i) && run[i].ttl > 0 && w.published == Published(w.signer.alg, root0)
    requires PublishedThroughout(w, run, i)
    ensures PemsKept(w, root0, run, i)
  {
    IssueIsInForce(root0, run, i);
    hide Published, SetVerifies, PemKept, Sign, After, SnapshotAt, InForce, Signs;
    PublishedVerifiesIff(w, root0, run, i, i + 1);
    forall r: nat | RefreshesWithin(run, i, r) ensures PemKept(w, run, i, run[r].root) {
      RefreshIsInForce(root0, run, i, r);
      PublishedVerifiesIff(w, root0, run, i, r + 1);
    }
  }

  lemma KeptThroughout(w: KeyWorld, root0: Snapshot, run: seq<Event>, i: nat)
    requires Signs(w, run, i) && Monotone(run) && w.published == Published(w.signer.alg, root0)
    requires PemsKept(w, root0, run, i)
    ensures PublishedThroughout(w, run, i)
  {
    hide Published, SetVerifies, PemKept, Sign, After, SnapshotAt, RefreshesWithin, Monotone, Signs;
    forall n: nat, now: int | InForce(run, i, n, now)
      ensures SetVerifies(After(w, run, n).published, TokenOf(w, run, i))
    {
      SnapshotInForce(root0, run, i, n, now);
      PublishedVerifiesIff(w, root0, run, i, n);
    }
  }

  /** The signer's bargain implies the provider's for one directory: where the last file of a kid holds
      the key, the tree holds it. */
  lemma AssignedIsInTree(root: Snapshot, kid: string, key: PrivateKey)
    requires ReadDir(root).Some? && Assigns(LoadKeys(ReadDir(root).value), kid, key)
    ensures PemInTree(root, kid, PublicOf(key))
  {
    SignerKeysArePublished("", root.value, kid);
    hide LoadKeys;
    WalkFindsPems("", root.value, Jwk(kid, PublicOf(key), ""));
  }
}
