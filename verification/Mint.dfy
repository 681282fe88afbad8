/** Fresh values exist: a text that no token and no JTI of the table equals. */
module Mint {
  import opened Base
  import opened Domain
  import opened SessionTable

  function Max(a: nat, b: nat): nat {
    if a < b then b else a
  }

  function Longest(rows: seq<Row>): (n: nat)
    ensures forall i :: 0 <= i < |rows| ==> |rows[i].jti| <= n && |rows[i].refreshHash.preimage| <= n
  {
    if rows == [] then 0
    else
      var r := rows[|rows| - 1];
      Max(Longest(rows[..|rows| - 1]), Max(|r.jti|, |r.refreshHash.preimage|))
  }

  /** Longer than every JTI and every token of the table, and not blank. */
  function FreshText(rows: seq<Row>): (s: string)
    ensures NonEmpty(s)
    ensures forall i :: 0 <= i < |rows| ==> rows[i].jti != s && rows[i].refreshHash != Sha256Hex(s)
  {
    var s := seq(Longest(rows) + 1, i => 'x');
    assert s[0] == 'x';
    s
  }
}
