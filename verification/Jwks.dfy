/** internal/auth/jwks/provider.go: the published key set, its cached form, and its agreement
    with the signer's key map. */
module Jwks {
  import opened Base
  import opened Keys
  import opened Signer

  datatype Jwk = Jwk(kid: string, key: PublicKey, alg: string)

  /** The serialised set. Serialisation is injective; an empty set is the same JSON text as the
      literal that Current falls back to. */
  datatype Body = Json(keys: seq<Jwk>)

  /** Digests are injective, and differ from the fixed tag of the fallback. */
  datatype ETag = WeakEmpty | Weak(body: Body)

  // ---------- the walk ----------

  /** What walking a node adds, in walk order. Unlisted directories contribute what was listed. */
  function Walk(alg: string, n: Node): seq<Jwk>
    decreases n, 0
  {
    match n
    case File(name, key) =>
      if IsPem(name) && key.Some? then [Jwk(KidOf(name), PublicOf(key.value), alg)] else []
    case Dir(_, _, children) => WalkAll(alg, children)
  }

  function WalkAll(alg: string, ns: seq<Node>): seq<Jwk>
    decreases ns, 1
  {
    if ns == [] then [] else WalkAll(alg, ns[..|ns| - 1]) + Walk(alg, ns[|ns| - 1])
  }

  /** The set published for a snapshot: an unreadable root yields an empty set, not an error. */
  function Published(alg: string, root: Snapshot): seq<Jwk> {
    if root.None? then [] else Walk(alg, root.value)
  }

  lemma {:induction false} InWalkAll(alg: string, ns: seq<Node>, x: Jwk)
    ensures x in WalkAll(alg, ns) <==> exists c :: 0 <= c < |ns| && x in Walk(alg, ns[c])
  {
    hide Walk;
    if ns != [] {
      var n := |ns| - 1;
      InWalkAll(alg, ns[..n], x);
      assert forall c :: 0 <= c < n ==> ns[..n][c] == ns[c];
    }
  }

  /** The walk is in listing order: what one part of a directory adds comes before what the rest adds. */
  lemma {:induction false} WalkInOrder(alg: string, ms: seq<Node>, ns: seq<Node>)
    ensures WalkAll(alg, ms + ns) == WalkAll(alg, ms) + WalkAll(alg, ns)
    decreases |ns|
  {
    hide Walk;
    if ns == [] {
      assert ms + ns == ms;
    } else {
      var n := |ns| - 1;
      WalkInOrder(alg, ms, ns[..n]);
      assert (ms + ns)[..|ms + ns| - 1] == ms + ns[..n];
    }
  }

  /** Some loadable PEM file in the tree of n, at any depth, has this kid and this public key. */
  predicate PemIn(n: Node, kid: string, key: PublicKey) {
    match n
    case File(_, _) => Provides(n, kid) && PublicOf(n.key.value) == key
    case Dir(_, _, children) => exists c :: 0 <= c < |children| && PemIn(children[c], kid, key)
  }

  /** The same of a snapshot. */
  predicate PemInTree(root: Snapshot, kid: string, key: PublicKey) {
    root.Some? && PemIn(root.value, kid, key)
  }

  /** The walk finds exactly the loadable PEM files of the tree, each tagged with the algorithm. */
  lemma {:induction false} WalkFindsPems(alg: string, n: Node, x: Jwk)
    ensures x in Walk(alg, n) <==> x.alg == alg && PemIn(n, x.kid, x.key)
    decreases n
  {
    if n.Dir? {
      InWalkAll(alg, n.children, x);
      forall c | 0 <= c < |n.children|
        ensures x in Walk(alg, n.children[c]) <==> x.alg == alg && PemIn(n.children[c], x.kid, x.key)
      {
        WalkFindsPems(alg, n.children[c], x);
      }
    }
  }

  class Provider {
    const keysDir: string
    const alg: string
    const maxAge: int
    var body: Option<Body>
    var etag: ETag

    /** The cached pair is consistent. */
    ghost predicate Valid()
      reads this
    {
      body.Some? ==> etag == Weak(body.value)
    }

    constructor (keysDir: string, alg: string, maxAge: int, root: Snapshot)
      ensures Valid()
      ensures this.keysDir == Trim(keysDir) && this.alg == alg && this.maxAge == maxAge
      ensures body == if Trim(keysDir) == "" then None else Some(Json(Published(alg, root)))
    {
      this.keysDir, this.alg, this.maxAge := Trim(keysDir), alg, maxAge;
      body, etag := None, WeakEmpty;
      new;
      var _ := Refresh(root);
    }

    /** What is served always carries the tag of what is served. */
    method Current() returns (b: Body, tag: ETag, age: int)
      requires Valid()
      ensures b == (if body.Some? then body.value else Json([]))
      ensures tag == if body.Some? then Weak(b) else WeakEmpty
      ensures age == maxAge
    {
      if body == None {
        return Json([]), WeakEmpty, maxAge;
      }
      return body.value, etag, maxAge;
    }

    method Refresh(root: Snapshot) returns (ok: bool)
      requires Valid()
      modifies this
      ensures Valid()
      ensures ok == (keysDir != "")
      ensures body == if ok then Some(Json(Published(alg, root))) else old(body)
      ensures !ok ==> etag == old(etag)
    {
      if keysDir == "" {
        return false;
      }
      var keys: seq<Jwk> := [];
      if root.Some? {
        keys := WalkDir(root.value, keys);
        assert keys == Walk(alg, root.value);
      }
      body := Some(Json(keys));
      etag := Weak(Json(keys));
      return true;
    }

    method WalkDir(n: Node, found: seq<Jwk>) returns (keys: seq<Jwk>)
      ensures keys == found + Walk(alg, n)
      decreases n
    {
      keys := found;
      match n {
        case File(name, key) =>
          if IsPem(name) && key.Some? {
            keys := keys + [Jwk(KidOf(name), PublicOf(key.value), alg)];
          }
        case Dir(_, _, children) =>
          for i := 0 to |children|
            invariant keys == found + WalkAll(alg, children[..i])
          {
            assert children[..i + 1][..i] == children[..i];
            keys := WalkDir(children[i], keys);
          }
          assert children[..|children|] == children;
      }
    }
  }

  // ---------- agreement with the signer ----------

  /** A consumer accepts the token's signature under some published key of its kid. */
  predicate SetVerifies(keys: seq<Jwk>, tok: Token) {
    tok.Jws? && tok.header.Kid? && exists i :: 0 <= i < |keys| && keys[i].kid == tok.header.kid && keys[i].key == PublicOf(tok.signedBy)
  }

  /** Every pair the signer loads from a snapshot is published from that snapshot. */
  lemma SignerKeysArePublished(alg: string, root: Node, kid: string)
    requires root.Dir? && kid in LoadKeys(root.children)
    ensures Jwk(kid, PublicOf(LoadKeys(root.children)[kid]), alg) in Published(alg, Some(root))
  {
    LoadKeysIsLastWins(root.children, kid);
    var c: nat :| LastProvider(root.children, c, kid);
    var x := Jwk(kid, PublicOf(LoadKeys(root.children)[kid]), alg);
    assert x in Walk(alg, root.children[c]);
    InWalkAll(alg, root.children, x);
  }

  /** Where a published entry comes from: the c-th child of the keys directory. */
  ghost predicate ComesFrom(alg: string, root: Node, x: Jwk, c: nat) {
    root.Dir? && c < |root.children| && x in Walk(alg, root.children[c])
  }

  /** A later file of the directory has taken over the kid. */
  ghost predicate Shadowed(files: seq<Node>, c: nat, kid: string) {
    exists d :: c < d < |files| && Provides(files[d], kid)
  }

  /** Every published entry is the signer's own pair, or comes from a subdirectory, or comes from
      a file shadowed by a later one with the same kid. */
  lemma PublishedEntriesExplained(alg: string, root: Node, x: Jwk)
    requires root.Dir? && x in Published(alg, Some(root))
    ensures exists c: nat :: ComesFrom(alg, root, x, c)
              && (|| root.children[c].Dir?
                  || Shadowed(root.children, c, x.kid)
                  || (x.kid in LoadKeys(root.children) && x.key == PublicOf(LoadKeys(root.children)[x.kid])))
  {
    var files := root.children;
    InWalkAll(alg, files, x);
    var c: nat :| c < |files| && x in Walk(alg, files[c]);
    assert ComesFrom(alg, root, x, c);
    if files[c].File? && !Shadowed(files, c, x.kid) {
      assert Provides(files[c], x.kid);
      assert LastProvider(files, c, x.kid);
      LoadKeysIsLastWins(files, x.kid);
    }
  }

  /** The published set in terms of the directory: it verifies a token exactly when the token is a JWS
      with a text kid and the tree holds, at any depth, a loadable PEM file of that kid with that key. */
  lemma SetVerifiesIffPem(alg: string, root: Snapshot, tok: Token)
    ensures SetVerifies(Published(alg, root), tok) <==>
              tok.Jws? && tok.header.Kid? && PemInTree(root, tok.header.kid, PublicOf(tok.signedBy))
  {
    if tok.Jws? && tok.header.Kid? {
      var keys, kid, key := Published(alg, root), tok.header.kid, PublicOf(tok.signedBy);
      hide PemIn, Walk;
      if root.Some? {
        WalkFindsPems(alg, root.value, Jwk(kid, key, alg));
        if SetVerifies(keys, tok) {
          var i :| 0 <= i < |keys| && keys[i].kid == kid && keys[i].key == key;
          WalkFindsPems(alg, root.value, keys[i]);
        }
      }
    }
  }

  /** What the signer signs carries its active kid and is signed with that kid's key. */
  lemma SignedHeader(s: SignerState, c: Claims, ttl: int, now: int)
    requires Sign(s, c, ttl, now).Ok?
    ensures var tok := Sign(s, c, ttl, now).value.0;
            s.kid in s.keys && tok.Jws? && tok.header == Kid(s.kid) && tok.signedBy == s.keys[s.kid]
  {
  }

  /** Agreement from one snapshot, exactly. Let a signer reload from a snapshot and a provider publish
      the same snapshot, whatever state it is in. What the signer then signs is verified by the
      published set if and only if the directory could be listed, or the tree as far as it was walked
      holds a PEM file of the active kid with the key the signer has kept. */
  lemma SignedTokensVerifyAgainstJwks(alg: string, s: SignerState, root: Snapshot, c: Claims, ttl: int, now: int)
    requires Sign(Reloaded(s, root), c, ttl, now).Ok?
    ensures SetVerifies(Published(alg, root), Sign(Reloaded(s, root), c, ttl, now).value.0) <==>
              ReadDir(root).Some? || (s.kid in s.keys && PemInTree(root, s.kid, PublicOf(s.keys[s.kid])))
  {
    var s' := Reloaded(s, root);
    SignedHeader(s', c, ttl, now);
    var tok := Sign(s', c, ttl, now).value.0;
    hide Sign;
    SetVerifiesIffPem(alg, root, tok);
    if ReadDir(root).Some? {
      SignerKeysArePublished(alg, root.value, s'.kid);
      WalkFindsPems(alg, root.value, Jwk(s'.kid, PublicOf(s'.keys[s'.kid]), alg));
    }
  }

  /** An unlistable snapshot parts the two: the signer keeps its keys and goes on signing, and the
      provider publishes what it could walk, which is nothing when the path cannot be examined or
      nothing of the directory was listed; a set without the kept key verifies none of it. */
  lemma UnreadableDirectoryParts(alg: string, s: SignerState, root: Snapshot, c: Claims, ttl: int, now: int)
    requires ReadDir(root).None?
    ensures Reloaded(s, root) == s
    ensures root.None? || (root.value.Dir? && root.value.children == []) ==> Published(alg, root) == []
    ensures Sign(s, c, ttl, now).Ok? ==>
              (SetVerifies(Published(alg, root), Sign(s, c, ttl, now).value.0) <==>
                PemInTree(root, s.kid, PublicOf(s.keys[s.kid])))
  {
    if root.Some? && root.value.Dir? && root.value.children == [] {
      assert Walk(alg, root.value) == WalkAll(alg, root.value.children);
    }
    if Sign(s, c, ttl, now).Ok? {
      hide Sign, Published, PemInTree;
      SignedTokensVerifyAgainstJwks(alg, s, root, c, ttl, now);
    }
  }
}
