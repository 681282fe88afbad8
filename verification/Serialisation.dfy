/** Serial runs are interleavings: the blocks of atomic steps of the calls of a serial run, one after
    the other, are one run of the interleaved model. */
module Serialisation {
  import opened Base
  import opened Domain
  import opened SessionTable
  import opened AuthService
  import opened SerialRuns
  import opened History
  import opened Families
  import Inter = Interleaving

  /** Equal but for the step numbers and the records of past steps. */
  ghost predicate Agree(w: Inter.World, v: Inter.World) {
    && w.users == v.users && w.table == v.table && w.pending.Keys == v.pending.Keys
    && forall call :: call in w.pending ==> w.pending[call] == v.pending[call].(readAt := w.pending[call].readAt)
  }

  lemma StepAgrees(c: Inter.Setup, w: Inter.World, v: Inter.World, s: Inter.Step, n: nat, m: nat)
    requires Agree(w, v) && Inter.Enabled(c, v, s)
    ensures Inter.Enabled(c, w, s) && Agree(Inter.Apply(w, s, n), Inter.Apply(v, s, m))
    ensures |Inter.Apply(w, s, n).commits| == |w.commits| + (if s.Rotate? then 1 else 0)
  {
  }

  function Append(tr: Inter.Trace, b: seq<Inter.Step>): Inter.Trace
    decreases |b|
  {
    if b == [] then tr else Append(Inter.Extend(tr, b[0]), b[1..])
  }

  function Rotations(b: seq<Inter.Step>): nat {
    if b == [] then 0 else (if b[0].Rotate? then 1 else 0) + Rotations(b[1..])
  }

  /** A block that is enabled from a state that agrees with the end of a run continues the run. */
  lemma {:induction false} AppendRuns(c: Inter.Setup, tr: Inter.Trace, w: Inter.World, b: seq<Inter.Step>)
    requires Inter.Valid(c, tr) && Agree(Inter.Last(tr), w) && AllEnabled(c, w, b)
    ensures var tr' := Append(tr, b);
            && Inter.Valid(c, tr') && Agree(Inter.Last(tr'), Exec(w, b))
            && |Inter.Last(tr').commits| == |Inter.Last(tr).commits| + Rotations(b)
    decreases |b|
  {
    hide Inter.Valid, Inter.Apply, Inter.Enabled, Agree, Inter.Extend;
    if b != [] {
      StepAgrees(c, Inter.Last(tr), w, b[0], |tr.steps|, 0);
      Inter.ExtendIsValid(c, tr, b[0]);
      AppendRuns(c, Inter.Extend(tr, b[0]), Inter.Apply(w, b[0], 0), b[1..]);
    }
  }

  /** The interleaved run of the first n calls. */
  function Interleaved(cfg: Config, tr: Trace, n: nat): Inter.Trace
    requires n <= |tr.events|
  {
    if n == 0 then Inter.RawTrace([], [Inter.START])
    else Append(Interleaved(cfg, tr, n - 1), Block(cfg, tr.states[n - 1], tr.events[n - 1]))
  }

  lemma RotationsOfShort(b: seq<Inter.Step>)
    requires |b| <= 2
    ensures Rotations(b) == (if |b| > 0 && b[0].Rotate? then 1 else 0) + (if |b| > 1 && b[1].Rotate? then 1 else 0)
  {
    if |b| > 0 {
      assert Rotations(b[1..]) == (if |b| > 1 && b[1].Rotate? then 1 else 0);
    }
  }

  /** A call's block rotates exactly when the call is a refresh that is granted. */
  lemma BlockRotations(cfg: Config, s: Sys, e: Event, a: Answer)
    requires WriteOk(cfg, s, e, WriteOf(cfg, s, e), a)
    ensures Rotations(Block(cfg, s, e)) == (if a.GrantAnswer? && a.grant.Ok? && e.call.RefreshCall? then 1 else 0)
  {
    hide WriteOf, Serve, GrantMatches, Fresh, Inter.Decide, Rotations;
    RotationsOfShort(Block(cfg, s, e));
  }

  /** Every serial run, from its start, is an interleaving: its calls' blocks in sequence are a valid
      run of the interleaved model that ends in the same users and table with nothing in flight, and
      commits one rotation for each refresh that was granted. */
  lemma {:induction false} SerialRunsAreInterleavings(cfg: Config, tr: Trace, n: nat)
    requires n <= |tr.events| && Valid(cfg, tr)
    ensures var it := Interleaved(cfg, tr, n);
            && Inter.Valid(SetupOf(cfg), it)
            && Inter.Last(it).users == tr.states[n].users && Inter.Last(it).table == tr.states[n].table
            && Inter.Last(it).pending == map[]
            && |Inter.Last(it).commits| == Refreshes(tr, n)
  {
    hide *;
    if n == 0 {
      NothingServed(cfg, tr);
    } else {
      SerialRunsAreInterleavings(cfg, tr, n - 1);
      AppendCall(cfg, tr, n - 1, Interleaved(cfg, tr, n - 1));
      InterleavedStep(cfg, tr, n);
    }
  }

  lemma NothingServed(cfg: Config, tr: Trace)
    requires Valid(cfg, tr)
    ensures var it := Interleaved(cfg, tr, 0);
            && Inter.Valid(SetupOf(cfg), it)
            && Inter.Last(it).users == tr.states[0].users && Inter.Last(it).table == tr.states[0].table
            && Inter.Last(it).pending == map[]
            && |Inter.Last(it).commits| == Refreshes(tr, 0)
  {
    assert tr.states[0] == Sys([], EMPTY);
    hide Valid, Runs;
  }

  lemma InterleavedStep(cfg: Config, tr: Trace, n: nat)
    requires 0 < n <= |tr.events|
    ensures Interleaved(cfg, tr, n) == Append(Interleaved(cfg, tr, n - 1), Block(cfg, tr.states[n - 1], tr.events[n - 1]))
    ensures Refreshes(tr, n)
         == Refreshes(tr, n - 1) + (if Granted(tr, n - 1) && tr.events[n - 1].call.RefreshCall? then 1 else 0)
  {
    hide Block, Append;
  }

  lemma AppendCall(cfg: Config, tr: Trace, i: nat, it: Inter.Trace)
    requires i < |tr.events| && Valid(cfg, tr)
    requires Inter.Valid(SetupOf(cfg), it) && Inter.Last(it).users == tr.states[i].users
    requires Inter.Last(it).table == tr.states[i].table && Inter.Last(it).pending == map[]
    ensures var it' := Append(it, Block(cfg, tr.states[i], tr.events[i]));
            && Inter.Valid(SetupOf(cfg), it')
            && Inter.Last(it').users == tr.states[i + 1].users && Inter.Last(it').table == tr.states[i + 1].table
            && Inter.Last(it').pending == map[]
            && |Inter.Last(it').commits|
            == |Inter.Last(it).commits| + (if Granted(tr, i) && tr.events[i].call.RefreshCall? then 1 else 0)
  {
    hide *;
    var s, e := tr.states[i], tr.events[i];
    CallFacts(cfg, tr, i);
    CallIsAtomicSteps(cfg, s, e);
    AgreesAtRest(Inter.Last(it), s);
    AppendRuns(SetupOf(cfg), it, WorldOf(s), Block(cfg, s, e));
    RestedAgreement(Inter.Last(Append(it, Block(cfg, s, e))), Exec(WorldOf(s), Block(cfg, s, e)));
    BlockRotations(cfg, s, e, tr.answers[i]);
  }

  lemma CallFacts(cfg: Config, tr: Trace, i: nat)
    requires i < |tr.events| && Valid(cfg, tr)
    ensures var s, e := tr.states[i], tr.events[i];
            && Inter.WorldInv(SetupOf(cfg), WorldOf(s)) && MintsFresh(s, e.call)
            && WriteOk(cfg, s, e, WriteOf(cfg, s, e), tr.answers[i])
            && Serve(cfg, s, e).0 == tr.states[i + 1]
            && (Granted(tr, i) <==> tr.answers[i].GrantAnswer? && tr.answers[i].grant.Ok?)
  {
    StepFacts(cfg, tr, i);
    assert Runs(cfg, tr, i);
    hide Serve, MintsFresh, Inter.WorldInv, WriteOk, WriteOf, Perform;
  }

  lemma AgreesAtRest(w: Inter.World, s: Sys)
    requires w.users == s.users && w.table == s.table && w.pending == map[]
    ensures Agree(w, WorldOf(s))
  {
  }

  lemma RestedAgreement(w: Inter.World, v: Inter.World)
    requires Agree(w, v) && v.pending == map[]
    ensures w.users == v.users && w.table == v.table && w.pending == map[]
  {
  }
}
