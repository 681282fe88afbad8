/** Small shared vocabulary: optional values, results, and the string helpers of Go's standard
    library that decide a branch somewhere in the service. */
module Base {

  datatype Option<+T> = None | Some(value: T)

  datatype Result<+T, +E> = Ok(value: T) | Err(error: E)

  /** unicode.IsSpace: the White_Space property. */
  predicate IsSpace(c: char) {
    || '\t' <= c <= '\r' || c == ' ' || c == '\U{0085}' || c == '\U{00A0}' || c == '\U{1680}'
    || '\U{2000}' <= c <= '\U{200A}' || c == '\U{2028}' || c == '\U{2029}' || c == '\U{202F}'
    || c == '\U{205F}' || c == '\U{3000}'
  }

  function TrimLeft(s: string): (t: string)
    ensures t != "" ==> !IsSpace(t[0])
    ensures t == "" <==> forall i :: 0 <= i < |s| ==> IsSpace(s[i])
  {
    if s != "" && IsSpace(s[0]) then TrimLeft(s[1..]) else s
  }

  function TrimRight(s: string): (t: string)
    ensures t <= s
    ensures t != "" ==> !IsSpace(t[|t| - 1])
    ensures t == "" <==> forall i :: 0 <= i < |s| ==> IsSpace(s[i])
  {
    if s != "" && IsSpace(s[|s| - 1]) then TrimRight(s[..|s| - 1]) else s
  }

  /** strings.TrimSpace */
  function Trim(s: string): (t: string)
    ensures t != "" ==> !IsSpace(t[0]) && !IsSpace(t[|t| - 1])
    ensures t == "" <==> forall i :: 0 <= i < |s| ==> IsSpace(s[i])
  {
    TrimRight(TrimLeft(s))
  }

  /** Not blank: some rune is not white space. */
  predicate NonEmpty(s: string) {
    exists i :: 0 <= i < |s| && !IsSpace(s[i])
  }

  /** That is the service's nonEmpty, which compares the trimmed string with the empty one. */
  lemma NonEmptyIsTrimmed(s: string)
    ensures NonEmpty(s) <==> Trim(s) != ""
  {
  }

  lemma {:induction false} TrimLeftTakesSpaces(s: string)
    ensures var t := TrimLeft(s);
            |t| <= |s| && t == s[|s| - |t|..] && forall i :: 0 <= i < |s| - |t| ==> IsSpace(s[i])
  {
    if s != "" && IsSpace(s[0]) {
      TrimLeftTakesSpaces(s[1..]);
    }
  }

  lemma {:induction false} TrimRightTakesSpaces(s: string)
    ensures forall i :: |TrimRight(s)| <= i < |s| ==> IsSpace(s[i])
  {
    if s != "" && IsSpace(s[|s| - 1]) {
      TrimRightTakesSpaces(s[..|s| - 1]);
    }
  }

  /** Trimming takes white space off both ends and nothing else: the result is the slice from at. */
  lemma TrimIsTheMiddle(s: string) returns (at: nat)
    ensures at + |Trim(s)| <= |s| && Trim(s) == s[at..at + |Trim(s)|]
    ensures forall i :: 0 <= i < at || at + |Trim(s)| <= i < |s| ==> IsSpace(s[i])
  {
    hide TrimLeft, TrimRight, IsSpace;
    var l := TrimLeft(s);
    TrimLeftTakesSpaces(s);
    TrimRightTakesSpaces(l);
    at := |s| - |l|;
    PrefixOfSuffix(s, l, TrimRight(l));
  }

  lemma PrefixOfSuffix(s: string, l: string, t: string)
    requires |l| <= |s| && l == s[|s| - |l|..] && t <= l
    ensures var at := |s| - |l|; t == s[at..at + |t|] && forall i :: at <= i < |s| ==> s[i] == l[i - at]
  {
  }

  /** A trimmed string is a fixed point of trimming: what ParseEmail stores, it reads back. */
  lemma TrimIdempotent(s: string)
    ensures Trim(Trim(s)) == Trim(s)
  {
    var t := Trim(s);
    assert TrimLeft(t) == t;
    assert TrimRight(t) == t;
  }

  /** The first index whose element satisfies p. */
  function FirstBy<T>(xs: seq<T>, p: T -> bool): (k: Option<nat>)
    ensures k.Some? ==> k.value < |xs| && p(xs[k.value]) && forall i :: 0 <= i < k.value ==> !p(xs[i])
    ensures k.None? ==> forall i :: 0 <= i < |xs| ==> !p(xs[i])
  {
    if xs == [] then None
    else
      var k := FirstBy(xs[..|xs| - 1], p);
      if k.Some? then k else if p(xs[|xs| - 1]) then Some(|xs| - 1) else None
  }
}
