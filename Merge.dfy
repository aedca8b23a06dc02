/** The driving loop of the merge (the source's `matchAll`) and the session
    state it works on (`allT`): the cursors, the outputs, the pattern list
    and the -nodup option. */
module Merge {
  import opened Lines
  import opened Patterns
  import opened Cursor
  import opened Engine

  /** One output (the source's `outT`): named by its pattern label, active
      when a writer was opened for it, with the lines written so far and
      their count. */
  datatype Output = Output(name: string, count: nat, active: bool, lines: seq<Line>)

  /** Where a run stopped: the cursors, the outputs and the error, if any. */
  datatype Run = Run(ins: seq<Input>, outs: seq<Output>, status: Status)

  /** The work left over all cursors; every step of the loop lowers it. */
  function Total(ins: seq<Input>): nat
  {
    if ins == [] then 0 else Total(ins[..|ins| - 1]) + Measure(ins[|ins| - 1])
  }

  lemma {:induction false} TotalUpdate(ins: seq<Input>, j: nat, c: Input)
    requires j < |ins|
    ensures Total(ins[j := c]) + Measure(ins[j]) == Total(ins) + Measure(c)
  {
    var ins' := ins[j := c];
    if j < |ins| - 1 {
      assert ins'[..|ins'| - 1] == ins[..|ins| - 1][j := c];
      TotalUpdate(ins[..|ins| - 1], j, c);
    } else {
      assert ins'[..|ins'| - 1] == ins[..|ins| - 1];
    }
  }

  predicate AllSettled(ins: seq<Input>)
  {
    forall i :: 0 <= i < |ins| ==> Settled(ins[i])
  }

  /** One output per pattern but the all-absent one, as the session is set
      up for N >= 1 inputs: output o belongs to pattern o + 1 and is named
      by its label. */
  predicate Shaped(ins: seq<Input>, outs: seq<Output>)
  {
    |ins| > 0 ==>
      |outs| == Pow2(|ins|) - 1 &&
      forall o :: 0 <= o < |outs| ==> outs[o].name == Label(o + 1, |ins|)
  }

  /** get on each of the cursors `idx`, in order, stopping at the first
      error. */
  function GetEach(ins: seq<Input>, idx: seq<nat>, nodup: bool): (r: (seq<Input>, Status))
    requires forall k :: 0 <= k < |idx| ==> idx[k] < |ins|
    ensures |r.0| == |ins|
  {
    if idx == [] then (ins, Ok)
    else
      var before := GetEach(ins, idx[..|idx| - 1], nodup);
      if before.1 != Ok then before
      else
        var j := idx[|idx| - 1];
        var got := Cursor.Get(before.0[j], nodup);
        (before.0[j := got.0], got.1)
  }

  /** Cursors that get is not called on stay as they were. */
  lemma {:induction false} GetEachFrame(ins: seq<Input>, idx: seq<nat>, nodup: bool, j: nat)
    requires forall k :: 0 <= k < |idx| ==> idx[k] < |ins|
    requires j < |ins| && j !in idx
    ensures GetEach(ins, idx, nodup).0[j] == ins[j]
  {
    if idx != [] {
      GetEachFrame(ins, idx[..|idx| - 1], nodup, j);
    }
  }

  /** Once get fails, the cursors after it are not touched and the error is
      the result. */
  lemma {:induction false} GetEachStops(ins: seq<Input>, idx: seq<nat>, nodup: bool, k: nat)
    requires forall l :: 0 <= l < |idx| ==> idx[l] < |ins|
    requires k <= |idx| && GetEach(ins, idx[..k], nodup).1 != Ok
    ensures GetEach(ins, idx, nodup) == GetEach(ins, idx[..k], nodup)
  {
    if k < |idx| {
      var init := idx[..|idx| - 1];
      assert init[..k] == idx[..k];
      GetEachStops(ins, init, nodup, k);
    } else {
      assert idx[..k] == idx;
    }
  }

  /** Getting on distinct cursors that are not done lowers the work left
      by at least one per cursor, and keeps every cursor settled. */
  lemma {:induction false} GetEachProgress(ins: seq<Input>, idx: seq<nat>, nodup: bool)
    requires forall k :: 0 <= k < |idx| ==> idx[k] < |ins| && !ins[idx[k]].eod
    requires forall k, l :: 0 <= k < l < |idx| ==> idx[k] < idx[l]
    requires AllSettled(ins)
    ensures AllSettled(GetEach(ins, idx, nodup).0)
    ensures GetEach(ins, idx, nodup).1 == Ok ==> Total(GetEach(ins, idx, nodup).0) + |idx| <= Total(ins)
  {
    if idx != [] {
      var init := idx[..|idx| - 1];
      var j := idx[|idx| - 1];
      GetEachProgress(ins, init, nodup);
      var before := GetEach(ins, init, nodup);
      if before.1 == Ok {
        GetEachFrame(ins, init, nodup, j);
        GetProgress(before.0[j], nodup);
        TotalUpdate(before.0, j, Cursor.Get(before.0[j], nodup).0);
      }
    }
  }

  /** Getting on any cursors keeps every cursor settled. */
  lemma {:induction false} GetEachSettled(ins: seq<Input>, idx: seq<nat>, nodup: bool)
    requires forall k :: 0 <= k < |idx| ==> idx[k] < |ins|
    requires AllSettled(ins)
    ensures AllSettled(GetEach(ins, idx, nodup).0)
  {
    if idx != [] {
      GetEachSettled(ins, idx[..|idx| - 1], nodup);
      var before := GetEach(ins, idx[..|idx| - 1], nodup);
      if before.1 == Ok {
        GetProgress(before.0[idx[|idx| - 1]], nodup);
      }
    }
  }

  /** Writing the matched line: to the output of pattern `pat` (position
      pat - 1, the all-absent pattern having no output), and only when that
      output is active. */
  function Dispatch(outs: seq<Output>, pat: nat, line: Line): (r: seq<Output>)
    requires 1 <= pat <= |outs|
    ensures |r| == |outs|
    ensures forall o :: 0 <= o < |outs| && o != pat - 1 ==> r[o] == outs[o]
    ensures r[pat - 1].name == outs[pat - 1].name && r[pat - 1].active == outs[pat - 1].active
    ensures r[pat - 1].lines == outs[pat - 1].lines + (if outs[pat - 1].active then [line] else [])
    ensures r[pat - 1].count == outs[pat - 1].count + (if outs[pat - 1].active then 1 else 0)
  {
    var o := outs[pat - 1];
    if o.active then outs[pat - 1 := o.(lines := o.lines + [line], count := o.count + 1)]
    else outs
  }

  /** One step of the loop, given a comparison (pat, idx) with pat != 0:
      dispatch the line the first participant holds, then get on every
      participant. */
  function Step(ins: seq<Input>, outs: seq<Output>, nodup: bool, pat: nat, idx: seq<nat>): (r: Run)
    requires 1 <= pat <= |outs| && idx != []
    requires forall k :: 0 <= k < |idx| ==> idx[k] < |ins|
    ensures |r.ins| == |ins| && |r.outs| == |outs|
  {
    var got := GetEach(ins, idx, nodup);
    Run(got.0, Dispatch(outs, pat, ins[idx[0]].rec), got.1)
  }

  /** What one step does: exactly one line, the one the first participant
      holds and every participant shares, goes to the output of the step's
      pattern when that output is active, whose count goes up by one; no
      other output changes; cursors that do not take part stay as they
      were. */
  lemma StepEffect(ins: seq<Input>, outs: seq<Output>, nodup: bool, o: nat, j: nat)
    requires |ins| > 0 && Shaped(ins, outs) && !AllDone(ins)
    requires o < |outs| && j < |ins|
    ensures var (pat, idx) := Comparison(ins);
      var r := Step(ins, outs, nodup, pat, idx);
      (forall k :: 0 <= k < |idx| ==> ins[idx[k]].rec == ins[idx[0]].rec) &&
      (o == pat - 1 && outs[o].active ==>
         r.outs[o] == outs[o].(lines := outs[o].lines + [ins[idx[0]].rec], count := outs[o].count + 1)) &&
      (o != pat - 1 || !outs[o].active ==> r.outs[o] == outs[o]) &&
      (j !in idx ==> r.ins[j] == ins[j])
  {
    var (pat, idx) := Comparison(ins);
    var m := Minimum(LiveRecs(ins));
    forall k | 0 <= k < |idx|
      ensures ins[idx[k]].rec == m
    {
      assert Held(ins, m)[idx[k]];
    }
    if j !in idx {
      GetEachFrame(ins, idx, nodup, j);
    }
  }

  /** The loop of matchAll: compare; stop on pattern 0; otherwise one step,
      stopping at an error, and on again. */
  function Loop(ins: seq<Input>, outs: seq<Output>, nodup: bool): (r: Run)
    requires Shaped(ins, outs) && AllSettled(ins)
    ensures |r.ins| == |ins| && |r.outs| == |outs|
    decreases Total(ins)
  {
    var cmp := Comparison(ins);
    if cmp.0 == 0 then Run(ins, outs, Ok)
    else
      var s := Step(ins, outs, nodup, cmp.0, cmp.1);
      GetEachProgress(ins, cmp.1, nodup);
      StepShaped(ins, outs, nodup, cmp.0, cmp.1);
      if s.status != Ok then s else Loop(s.ins, s.outs, nodup)
  }

  /** A step keeps the outputs one per pattern, each named by its label. */
  lemma StepShaped(ins: seq<Input>, outs: seq<Output>, nodup: bool, pat: nat, idx: seq<nat>)
    requires Shaped(ins, outs)
    requires 1 <= pat <= |outs| && idx != []
    requires forall k :: 0 <= k < |idx| ==> idx[k] < |ins|
    ensures Shaped(Step(ins, outs, nodup, pat, idx).ins, Step(ins, outs, nodup, pat, idx).outs)
  {
    var r := Step(ins, outs, nodup, pat, idx).outs;
    assert forall o :: 0 <= o < |outs| ==> r[o].name == outs[o].name;
  }

  /** One turn of the loop when some cursor is not done. */
  lemma LoopStep(ins: seq<Input>, outs: seq<Output>, nodup: bool, pat: nat, idx: seq<nat>)
    requires Shaped(ins, outs) && AllSettled(ins)
    requires (pat, idx) == Comparison(ins) && pat != 0
    ensures 1 <= pat <= |outs| && idx != []
    ensures var s := Step(ins, outs, nodup, pat, idx);
      Shaped(s.ins, s.outs) && AllSettled(s.ins) &&
      (s.status == Ok ==> Total(s.ins) < Total(ins)) &&
      Loop(ins, outs, nodup) == if s.status != Ok then s else Loop(s.ins, s.outs, nodup)
  {
    GetEachProgress(ins, idx, nodup);
    StepShaped(ins, outs, nodup, pat, idx);
  }

  /** 0, 1, ..., n - 1. */
  function Range(n: nat): (r: seq<nat>)
    ensures |r| == n && forall k :: 0 <= k < n ==> r[k] == k
  {
    seq(n, k requires 0 <= k < n => k)
  }

  /** matchAll: get once on every cursor, stopping at an error; then the
      loop. */
  function MatchAllRun(ins: seq<Input>, outs: seq<Output>, nodup: bool): (r: Run)
    requires Shaped(ins, outs) && AllSettled(ins)
    ensures |r.ins| == |ins| && |r.outs| == |outs|
  {
    var primed := GetEach(ins, Range(|ins|), nodup);
    GetEachSettled(ins, Range(|ins|), nodup);
    if primed.1 != Ok then Run(primed.0, outs, primed.1) else Loop(primed.0, outs, nodup)
  }

  /** The loop stops without error exactly when every cursor is done. */
  lemma {:induction false} LoopEndsDone(ins: seq<Input>, outs: seq<Output>, nodup: bool)
    requires Shaped(ins, outs) && AllSettled(ins)
    ensures Loop(ins, outs, nodup).status == Ok ==> AllDone(Loop(ins, outs, nodup).ins)
    decreases Total(ins)
  {
    var cmp := Comparison(ins);
    if cmp.0 != 0 {
      LoopStep(ins, outs, nodup, cmp.0, cmp.1);
      var s := Step(ins, outs, nodup, cmp.0, cmp.1);
      if s.status == Ok {
        LoopEndsDone(s.ins, s.outs, nodup);
      }
    }
  }

  /** An output's name and activation never change, an inactive output is
      never written to, and an output's count keeps telling how many lines
      it received. */
  predicate Bookkept(before: seq<Output>, after: seq<Output>)
  {
    |after| == |before| &&
    forall o :: 0 <= o < |before| ==>
      after[o].name == before[o].name && after[o].active == before[o].active &&
      (!before[o].active ==> after[o] == before[o]) &&
      after[o].count - |after[o].lines| == before[o].count - |before[o].lines| &&
      |before[o].lines| <= |after[o].lines| && after[o].lines[..|before[o].lines|] == before[o].lines
  }

  lemma BookkeptTransitive(a: seq<Output>, b: seq<Output>, c: seq<Output>)
    requires Bookkept(a, b) && Bookkept(b, c)
    ensures Bookkept(a, c)
  {
    forall o | 0 <= o < |a|
      ensures |a[o].lines| <= |c[o].lines| && c[o].lines[..|a[o].lines|] == a[o].lines
    {
      assert c[o].lines[..|b[o].lines|][..|a[o].lines|] == c[o].lines[..|a[o].lines|];
    }
  }

  /** Over the whole loop, outputs only ever receive lines at their end,
      inactive ones none, and every count goes up with its lines. */
  lemma {:induction false} LoopBookkeeping(ins: seq<Input>, outs: seq<Output>, nodup: bool)
    requires Shaped(ins, outs) && AllSettled(ins)
    ensures Bookkept(outs, Loop(ins, outs, nodup).outs)
    decreases Total(ins)
  {
    var cmp := Comparison(ins);
    if cmp.0 == 0 {
      assert forall o :: 0 <= o < |outs| ==> outs[o].lines[..|outs[o].lines|] == outs[o].lines;
    } else {
      LoopStep(ins, outs, nodup, cmp.0, cmp.1);
      var s := Step(ins, outs, nodup, cmp.0, cmp.1);
      var p := cmp.0 - 1;
      assert forall o :: 0 <= o < |outs| && o != p ==> s.outs[o] == outs[o];
      assert s.outs[p].lines[..|outs[p].lines|] == outs[p].lines;
      assert forall o :: 0 <= o < |outs| ==> outs[o].lines[..|outs[o].lines|] == outs[o].lines;
      assert Bookkept(outs, s.outs);
      if s.status == Ok {
        LoopBookkeeping(s.ins, s.outs, nodup);
        BookkeptTransitive(outs, s.outs, Loop(s.ins, s.outs, nodup).outs);
      }
    }
  }

  /** Getting on any cursors keeps every cursor sound. */
  lemma {:induction false} GetEachKeepsSound(ins: seq<Input>, idx: seq<nat>, nodup: bool)
    requires forall k :: 0 <= k < |idx| ==> idx[k] < |ins|
    requires forall i :: 0 <= i < |ins| ==> Sound(ins[i])
    ensures forall i :: 0 <= i < |ins| ==> Sound(GetEach(ins, idx, nodup).0[i])
  {
    if idx != [] {
      GetEachKeepsSound(ins, idx[..|idx| - 1], nodup);
      var before := GetEach(ins, idx[..|idx| - 1], nodup);
      if before.1 == Ok {
        GetKeepsSound(before.0[idx[|idx| - 1]], nodup);
      }
    }
  }

  /** The loop of matchAll as the source writes it: compare takes the
      sentinels of the cursors that are done into the comparison. Defined
      for sound cursors, which the loop keeps sound. */
  function LoopAsWritten(ins: seq<Input>, outs: seq<Output>, nodup: bool): (r: Run)
    requires Shaped(ins, outs) && AllSettled(ins)
    requires forall i :: 0 <= i < |ins| ==> Sound(ins[i])
    ensures |r.ins| == |ins| && |r.outs| == |outs|
    decreases Total(ins)
  {
    ComparisonAgrees(ins);
    var cmp := ComparisonAsWritten(ins);
    if cmp.0 == 0 then Run(ins, outs, Ok)
    else
      var s := Step(ins, outs, nodup, cmp.0, cmp.1);
      LoopStep(ins, outs, nodup, cmp.0, cmp.1);
      GetEachKeepsSound(ins, cmp.1, nodup);
      if s.status != Ok then s else LoopAsWritten(s.ins, s.outs, nodup)
  }

  /** While every line sorts before the sentinel, the whole loop as written
      and the loop with done cursors left out of the comparison do the same:
      same cursors, same outputs, same status. */
  lemma {:induction false} LoopAgrees(ins: seq<Input>, outs: seq<Output>, nodup: bool)
    requires Shaped(ins, outs) && AllSettled(ins)
    requires forall i :: 0 <= i < |ins| ==> Sound(ins[i])
    ensures LoopAsWritten(ins, outs, nodup) == Loop(ins, outs, nodup)
    decreases Total(ins)
  {
    ComparisonAgrees(ins);
    var cmp := Comparison(ins);
    if cmp.0 != 0 {
      LoopStep(ins, outs, nodup, cmp.0, cmp.1);
      GetEachKeepsSound(ins, cmp.1, nodup);
      var s := Step(ins, outs, nodup, cmp.0, cmp.1);
      if s.status == Ok {
        LoopAgrees(s.ins, s.outs, nodup);
      }
    }
  }

  /** matchAll as the source writes it, on sound cursors. */
  function MatchAllAsWritten(ins: seq<Input>, outs: seq<Output>, nodup: bool): (r: Run)
    requires Shaped(ins, outs) && AllSettled(ins)
    requires forall i :: 0 <= i < |ins| ==> Sound(ins[i])
    ensures |r.ins| == |ins| && |r.outs| == |outs|
  {
    var primed := GetEach(ins, Range(|ins|), nodup);
    GetEachSettled(ins, Range(|ins|), nodup);
    GetEachKeepsSound(ins, Range(|ins|), nodup);
    if primed.1 != Ok then Run(primed.0, outs, primed.1) else LoopAsWritten(primed.0, outs, nodup)
  }

  /** On inputs read from the start whose lines all sort before the
      sentinel, the source's matchAll and the model's give the same run. */
  lemma MatchAllAgrees(names: seq<Line>, data: seq<Line>, outs: seq<Output>, nodup: bool)
    requires |names| == |data| && forall i :: 0 <= i < |data| ==> BelowSentinel(data[i])
    requires Shaped(Inputs(names, data), outs)
    ensures MatchAllAsWritten(Inputs(names, data), outs, nodup) == MatchAllRun(Inputs(names, data), outs, nodup)
  {
    var ins := Inputs(names, data);
    forall i | 0 <= i < |ins|
      ensures Sound(ins[i])
    {
      FreshSound(names[i], data[i]);
    }
    var primed := GetEach(ins, Range(|ins|), nodup);
    GetEachSettled(ins, Range(|ins|), nodup);
    GetEachKeepsSound(ins, Range(|ins|), nodup);
    if primed.1 == Ok {
      LoopAgrees(primed.0, outs, nodup);
    }
  }

  /** The cursors main sets up: one fresh cursor per input file. */
  function Inputs(names: seq<Line>, data: seq<Line>): (ins: seq<Input>)
    requires |names| == |data|
    ensures |ins| == |data| && forall i :: 0 <= i < |ins| ==> ins[i] == Fresh(names[i], data[i])
    ensures AllSettled(ins)
  {
    seq(|data|, i requires 0 <= i < |data| => Fresh(names[i], data[i]))
  }

  /** The pattern list of a session over n >= 1 inputs: the 2^n labels in
      index order, as allPats returns them. */
  predicate Patterned(pats: seq<string>, n: nat)
  {
    n > 0 ==> |pats| == Pow2(n) && forall i :: 0 <= i < |pats| ==> pats[i] == Label(i, n)
  }

  /** The session (`allT`): the pattern labels, the -nodup option, the
      cursors and the outputs. */
  class Session {
    var pats: seq<string>
    var nodup: bool
    var ins: array<Input>
    var outs: array<Output>

    ghost predicate Valid()
      reads this, ins, outs
    {
      Shaped(ins[..], outs[..]) && AllSettled(ins[..]) && Patterned(pats, ins.Length)
    }

    constructor (pats: seq<string>, nodup: bool, inputs: seq<Input>, outputs: seq<Output>)
      requires Shaped(inputs, outputs) && AllSettled(inputs) && Patterned(pats, |inputs|)
      ensures Valid()
      ensures this.pats == pats && this.nodup == nodup
      ensures ins[..] == inputs && outs[..] == outputs
      ensures fresh(ins) && fresh(outs)
    {
      this.pats := pats;
      this.nodup := nodup;
      ins := new Input[|inputs|](i requires 0 <= i < |inputs| => inputs[i]);
      outs := new Output[|outputs|](i requires 0 <= i < |outputs| => outputs[i]);
    }

    /** get(i, all): advance cursor i; no other cursor changes. */
    method Get(i: nat) returns (st: Status)
      requires i < ins.Length
      modifies ins
      ensures ins[i] == Cursor.Get(old(ins[i]), nodup).0 && st == Cursor.Get(old(ins[i]), nodup).1
      ensures forall j :: 0 <= j < ins.Length && j != i ==> ins[j] == old(ins[j])
    {
      if ins[i].eof {
        ins[i] := ins[i].(eod := true, rec := Sentinel);
        return Ok;
      }
      var c;
      c, st := ReadAgainLoop(ins[i], nodup);
      ins[i] := c;
    }

    /** get on each of the cursors `idx` in turn, returning the first error
        (the initial readings of matchAll and its reading after a match). */
    method GetAll(idx: seq<nat>) returns (st: Status)
      requires forall k :: 0 <= k < |idx| ==> idx[k] < ins.Length
      modifies ins
      ensures (ins[..], st) == GetEach(old(ins[..]), idx, nodup)
    {
      var k := 0;
      while k < |idx|
        invariant k <= |idx|
        invariant GetEach(old(ins[..]), idx[..k], nodup) == (ins[..], Ok)
      {
        assert idx[..k + 1][..k] == idx[..k];
        ghost var prev := ins[..];
        st := Get(idx[k]);
        assert ins[..] == prev[idx[k] := ins[idx[k]]] by {
          assert forall j :: 0 <= j < ins.Length && j != idx[k] ==> ins[j] == prev[j];
        }
        if st != Ok {
          GetEachStops(old(ins[..]), idx, nodup, k + 1);
          return;
        }
        k := k + 1;
      }
      assert idx[..|idx|] == idx;
      st := Ok;
    }

    /** Writing the matched line to the output of pattern `pat` when that
        output is active, and counting it. */
    method Write(pat: nat, line: Line)
      requires 1 <= pat <= outs.Length
      modifies outs
      ensures outs[..] == Dispatch(old(outs[..]), pat, line)
    {
      if outs[pat - 1].active {
        outs[pat - 1] := outs[pat - 1].(lines := outs[pat - 1].lines + [line], count := outs[pat - 1].count + 1);
      }
    }

    /** One match: write the line the first participant holds, then get on
        every participant. */
    method Turn(pat: nat, idx: seq<nat>) returns (st: Status)
      requires 1 <= pat <= outs.Length && idx != []
      requires forall k :: 0 <= k < |idx| ==> idx[k] < ins.Length
      modifies ins, outs
      ensures var s := Step(old(ins[..]), old(outs[..]), nodup, pat, idx);
        ins[..] == s.ins && outs[..] == s.outs && st == s.status
    {
      Write(pat, ins[idx[0]].rec);
      st := GetAll(idx);
    }

    /** matchAll: prime every cursor, then repeatedly compare, write the
        least line to the output of its pattern when that output is active,
        and get on the cursors that held it, until every cursor is done or
        get fails. */
    method MatchAll() returns (st: Status)
      requires Valid()
      modifies ins, outs
      ensures var r := MatchAllRun(old(ins[..]), old(outs[..]), nodup);
        ins[..] == r.ins && outs[..] == r.outs && st == r.status
      ensures st == Ok ==> AllDone(ins[..])
      ensures Valid()
    {
      st := GetAll(Range(ins.Length));
      GetEachSettled(old(ins[..]), Range(ins.Length), nodup);
      if st != Ok {
        return;
      }
      ghost var primed := ins[..];
      ghost var run := Loop(primed, old(outs[..]), nodup);
      assert run == MatchAllRun(old(ins[..]), old(outs[..]), nodup);
      var pat, idx := Compare(ins[..]);
      while pat != 0
        invariant Valid()
        invariant Loop(ins[..], outs[..], nodup) == run
        invariant (pat, idx) == Comparison(ins[..])
        decreases Total(ins[..])
      {
        // `for patInx := range all.pats` finds pat, as pat < 2^N == len(pats)
        LoopStep(ins[..], outs[..], nodup, pat, idx);
        st := Turn(pat, idx);
        if st != Ok {
          return;
        }
        pat, idx := Compare(ins[..]);
      }
      LoopEndsDone(primed, old(outs[..]), nodup);
      st := Ok;
    }
  }
}
