/** The key directory as the two loaders see it: file names, kids, and RSA keys. */
module Keys {
  import opened Base

  /** RSA keys: a public key determines its private key, and no other. */
  datatype PrivateKey = PrivateKey(serial: nat)
  datatype PublicKey = PublicOf(priv: PrivateKey)

  /** An entry of the directory tree. key is None when the file cannot be read or holds no RSA
      private key in PKCS#1 or PKCS#8 form. children is what listing a directory yielded, in
      file-name order; listError says that the listing also failed. */
  datatype Node =
    | File(name: string, key: Option<PrivateKey>)
    | Dir(name: string, listError: bool, children: seq<Node>)

  /** A snapshot of KEYS_DIR; None when the path cannot be examined at all. */
  type Snapshot = Option<Node>

  function LowerChar(c: char): char {
    if 'A' <= c <= 'Z' then (c as int + 32) as char else c
  }

  /** strings.ToLower; no rune outside ASCII has 'p', 'e', 'm' or '.' as its lower case. */
  function Lower(s: string): (t: string)
    ensures |t| == |s|
  {
    seq(|s|, i requires 0 <= i < |s| => LowerChar(s[i]))
  }

  predicate HasSuffix(s: string, suffix: string) {
    |suffix| <= |s| && s[|s| - |suffix|..] == suffix
  }

  predicate IsPem(name: string) {
    HasSuffix(Lower(name), ".pem")
  }

  /** A key file's name ends in .pem, each letter in either case. */
  lemma PemNames(name: string)
    ensures IsPem(name) <==>
              var n := |name|;
              n >= 4 && name[n - 4] == '.' && name[n - 3] in "pP" && name[n - 2] in "eE" && name[n - 1] in "mM"
  {
    var n := |name|;
    if n >= 4 {
      var ext := Lower(name)[n - 4..];
      assert ext == [LowerChar(name[n - 4]), LowerChar(name[n - 3]), LowerChar(name[n - 2]), LowerChar(name[n - 1])];
      assert ext == ".pem" <==> ext[0] == '.' && ext[1] == 'p' && ext[2] == 'e' && ext[3] == 'm';
      assert |"pP"| == |"eE"| == |"mM"| == 2;
      assert "pP"[0] == 'p' && "pP"[1] == 'P' && "eE"[0] == 'e' && "eE"[1] == 'E' && "mM"[0] == 'm' && "mM"[1] == 'M';
    }
  }

  /** filepath.Ext over the first n characters: from the last dot of the last path element. */
  function ExtFrom(name: string, n: nat): string
    requires n <= |name|
  {
    if n == 0 || name[n - 1] == '/' then ""
    else if name[n - 1] == '.' then name[n - 1..]
    else ExtFrom(name, n - 1)
  }

  function TrimSuffix(s: string, suffix: string): string {
    if HasSuffix(s, suffix) then s[..|s| - |suffix|] else s
  }

  /** The kid of a key file: its name without the extension. */
  function KidOf(name: string): string {
    TrimSuffix(name, ExtFrom(name, |name|))
  }

  /** For a name with the suffix .pem in any case, the extension is its last four characters. */
  lemma PemKid(name: string)
    requires IsPem(name)
    ensures KidOf(name) == name[..|name| - 4]
  {
    var n := |name|;
    assert Lower(name)[n - 4..] == ".pem";
    assert Lower(name)[n - 4] == '.' && Lower(name)[n - 3] == 'p' && Lower(name)[n - 2] == 'e' && Lower(name)[n - 1] == 'm';
    assert ExtFrom(name, n) == ExtFrom(name, n - 1) == ExtFrom(name, n - 2) == ExtFrom(name, n - 3);
    assert ExtFrom(name, n - 3) == name[n - 4..];
  }

  /** Two key files of one kid have names that differ in nothing but the case of the extension. */
  lemma SameKidSameStem(a: string, b: string)
    requires IsPem(a) && IsPem(b)
    ensures KidOf(a) == KidOf(b) <==> |a| == |b| && a[..|a| - 4] == b[..|b| - 4]
  {
    PemKid(a);
    PemKid(b);
  }

  /** The node is a key file, directly loadable, under this kid. */
  predicate Provides(n: Node, kid: string) {
    n.File? && IsPem(n.name) && n.key.Some? && KidOf(n.name) == kid
  }
}
