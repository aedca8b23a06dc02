/** The comparison step of the merge: the least held line, which inputs hold
    it, and the pattern index that names them (the source's `min`, `allEOD`
    and `compare`). */
module Engine {
  import opened Lines
  import opened Patterns
  import opened Cursor

  /** allEOD as a property: every cursor is done. No cursors at all counts as
      done. */
  predicate AllDone(ins: seq<Input>)
  {
    forall i :: 0 <= i < |ins| ==> ins[i].eod
  }

  /** The least of `ss` as min computes it: the first value, replaced by each
      later value that sorts before it; "" for no values. */
  function Minimum(ss: seq<Line>): (m: Line)
    ensures ss == [] ==> m == []
    ensures ss != [] ==> m in ss
  {
    if |ss| <= 1 then (if ss == [] then [] else ss[0])
    else
      var m := Minimum(ss[..|ss| - 1]);
      if Less(ss[|ss| - 1], m) then ss[|ss| - 1] else m
  }

  /** The minimum is one of the values and nothing sorts before it. */
  lemma {:induction false} MinimumIsLeast(ss: seq<Line>)
    requires ss != []
    ensures Minimum(ss) in ss
    ensures forall k :: 0 <= k < |ss| ==> !Less(ss[k], Minimum(ss))
  {
    if |ss| == 1 {
      LessIrreflexive(ss[0]);
    } else {
      var init := ss[..|ss| - 1];
      var last := ss[|ss| - 1];
      MinimumIsLeast(init);
      var m := Minimum(init);
      assert forall k :: 0 <= k < |init| ==> init[k] == ss[k];
      if Less(last, m) {
        LessIrreflexive(last);
        forall k | 0 <= k < |ss| - 1
          ensures !Less(ss[k], last)
        {
          if Less(ss[k], last) {
            LessTransitive(ss[k], last, m);
          }
        }
      } else {
        LessTotal(last, m);
      }
    }
  }

  /** A value of `ss` that nothing sorts before is the minimum: min's answer
      does not depend on which of several equal values it kept. */
  lemma MinimumUnique(ss: seq<Line>, m: Line)
    requires m in ss
    requires forall k :: 0 <= k < |ss| ==> !Less(ss[k], m)
    ensures Minimum(ss) == m
  {
    MinimumIsLeast(ss);
    var mm := Minimum(ss);
    LessTotal(m, mm);
  }

  /** The lines held by the cursors that are not done, in input order. */
  function LiveRecs(ins: seq<Input>): (rs: seq<Line>)
  {
    if ins == [] then []
    else
      var rest := LiveRecs(ins[..|ins| - 1]);
      var last := ins[|ins| - 1];
      if last.eod then rest else rest + [last.rec]
  }

  /** The lines in LiveRecs are exactly those held by cursors that are not
      done. */
  lemma LiveRecsMembers(ins: seq<Input>)
    ensures forall k :: 0 <= k < |LiveRecs(ins)| ==> HeldByLive(ins, LiveRecs(ins)[k])
    ensures forall i :: 0 <= i < |ins| && !ins[i].eod ==> ins[i].rec in LiveRecs(ins)
  {
    LiveRecsHeld(ins);
    LiveRecsComplete(ins);
  }

  /** Some cursor that is not done holds `r`. */
  predicate HeldByLive(ins: seq<Input>, r: Line)
  {
    exists i :: 0 <= i < |ins| && !ins[i].eod && ins[i].rec == r
  }

  /** Every line in LiveRecs is held by a cursor that is not done. */
  lemma {:induction false} LiveRecsHeld(ins: seq<Input>)
    ensures forall k :: 0 <= k < |LiveRecs(ins)| ==> HeldByLive(ins, LiveRecs(ins)[k])
  {
    if ins != [] {
      var init := ins[..|ins| - 1];
      LiveRecsHeld(init);
      var rs := LiveRecs(ins);
      var last := ins[|ins| - 1];
      assert rs == if last.eod then LiveRecs(init) else LiveRecs(init) + [last.rec];
      forall k | 0 <= k < |rs|
        ensures HeldByLive(ins, rs[k])
      {
        if k < |LiveRecs(init)| {
          assert HeldByLive(init, LiveRecs(init)[k]);
          var i :| 0 <= i < |init| && !init[i].eod && init[i].rec == LiveRecs(init)[k];
          assert ins[i] == init[i] && rs[k] == LiveRecs(init)[k];
          assert 0 <= i < |ins| && !ins[i].eod && ins[i].rec == rs[k];
        } else {
          var i := |ins| - 1;
          assert 0 <= i < |ins| && !ins[i].eod && ins[i].rec == rs[k];
        }
      }
    }
  }

  /** Every cursor that is not done has its line in LiveRecs. */
  lemma {:induction false} LiveRecsComplete(ins: seq<Input>)
    ensures forall i :: 0 <= i < |ins| && !ins[i].eod ==> ins[i].rec in LiveRecs(ins)
  {
    if ins != [] {
      var init := ins[..|ins| - 1];
      LiveRecsComplete(init);
      forall i | 0 <= i < |ins| && !ins[i].eod
        ensures ins[i].rec in LiveRecs(ins)
      {
        if i < |init| {
          assert init[i] == ins[i];
        }
      }
    }
  }

  /** The lines held by all cursors, in input order (the source's `recs`). */
  function Recs(ins: seq<Input>): (rs: seq<Line>)
    ensures |rs| == |ins| && forall i :: 0 <= i < |ins| ==> rs[i] == ins[i].rec
  {
    seq(|ins|, i requires 0 <= i < |ins| => ins[i].rec)
  }

  /** The ascending positions at which `held` is true (the source's
      `inInxs`). */
  function Indices(held: seq<bool>): (idx: seq<nat>)
    ensures forall k :: 0 <= k < |idx| ==> idx[k] < |held| && held[idx[k]]
    ensures forall i :: 0 <= i < |held| && held[i] ==> i in idx
    ensures forall k, l :: 0 <= k < l < |idx| ==> idx[k] < idx[l]
  {
    if held == [] then []
    else
      var rest := Indices(held[..|held| - 1]);
      if held[|held| - 1] then rest + [|held| - 1] else rest
  }

  /** Which cursors take part in a step whose least line is `m`: the
      cursors that are not done and hold `m`. */
  function Held(ins: seq<Input>, m: Line): (held: seq<bool>)
    ensures |held| == |ins|
    ensures forall i :: 0 <= i < |ins| ==> (held[i] <==> !ins[i].eod && ins[i].rec == m)
  {
    seq(|ins|, i requires 0 <= i < |ins| => !ins[i].eod && ins[i].rec == m)
  }

  /** compare, with cursors that are done left out of the comparison: no
      pattern when all cursors are done; otherwise the least line held by a
      cursor that is not done, the mask of the cursors that hold it and
      their ascending indices. */
  function Comparison(ins: seq<Input>): (r: (nat, seq<nat>))
    ensures r.0 == 0 <==> AllDone(ins)
    ensures r.0 == 0 <==> r.1 == []
    ensures r.0 < Pow2(|ins|)
    ensures forall k :: 0 <= k < |r.1| ==> r.1[k] < |ins| && !ins[r.1[k]].eod
    ensures forall k, l :: 0 <= k < l < |r.1| ==> r.1[k] < r.1[l]
  {
    if AllDone(ins) then (0, [])
    else
      var held := Held(ins, Minimum(LiveRecs(ins)));
      MaskLabel(held);
      LiveHolder(ins);
      var i :| 0 <= i < |ins| && held[i];
      MaskPositive(held, i);
      assert i in Indices(held);
      (Mask(held), Indices(held))
  }

  /** When some cursor is not done, some such cursor holds the least line
      held by the cursors that are not done. */
  lemma LiveHolder(ins: seq<Input>)
    requires !AllDone(ins)
    ensures exists i :: 0 <= i < |ins| && Held(ins, Minimum(LiveRecs(ins)))[i]
  {
    var j :| 0 <= j < |ins| && !ins[j].eod;
    LiveRecsMembers(ins);
    assert ins[j].rec in LiveRecs(ins);
    MinimumIsLeast(LiveRecs(ins));
    var m := Minimum(LiveRecs(ins));
    var i :| 0 <= i < |ins| && !ins[i].eod && ins[i].rec == m;
    assert Held(ins, m)[i];
  }

  /** Input i is not done and no cursor that is not done holds a line
      sorting before its line. */
  predicate LeastLive(ins: seq<Input>, i: nat)
    requires i < |ins|
  {
    !ins[i].eod && forall j :: 0 <= j < |ins| && !ins[j].eod ==> !Less(ins[j].rec, ins[i].rec)
  }

  /** A comparison when some cursor is not done: the mask and the indices
      of the cursors holding the least live line. */
  lemma ComparisonUnfold(ins: seq<Input>)
    requires !AllDone(ins)
    ensures Comparison(ins) == (Mask(Held(ins, Minimum(LiveRecs(ins)))), Indices(Held(ins, Minimum(LiveRecs(ins)))))
  {
  }

  /** The comparison is fixed by any live cursor `w` whose line no live line
      sorts before: its pattern and indices are those of the live cursors
      holding that line. */
  lemma ComparisonOfLeast(ins: seq<Input>, w: nat, held: seq<bool>)
    requires w < |ins| && !ins[w].eod
    requires forall k :: 0 <= k < |ins| && !ins[k].eod ==> !Less(ins[k].rec, ins[w].rec)
    requires |held| == |ins| && forall i :: 0 <= i < |ins| ==> (held[i] <==> !ins[i].eod && ins[i].rec == ins[w].rec)
    ensures Comparison(ins) == (Mask(held), Indices(held))
  {
    var m := ins[w].rec;
    var rs := LiveRecs(ins);
    assert m in rs by {
      LiveRecsComplete(ins);
    }
    forall k | 0 <= k < |rs|
      ensures !Less(rs[k], m)
    {
      LiveRecsHeld(ins);
      assert HeldByLive(ins, rs[k]);
      var i :| 0 <= i < |ins| && !ins[i].eod && ins[i].rec == rs[k];
    }
    MinimumUnique(rs, m);
    assert held == Held(ins, m);
    ComparisonUnfold(ins);
  }

  /** What a comparison means: when some cursor is not done, input i takes
      part exactly when it is not done and holds a line that no cursor that
      is not done sorts before; the pattern index is non-zero and its label
      has a 'Y' exactly at the positions of the taking part inputs, counted
      from the right. */
  lemma ComparisonMeaning(ins: seq<Input>, i: nat)
    requires i < |ins| && !AllDone(ins)
    ensures Comparison(ins).0 >= 1
    ensures i in Comparison(ins).1 <==> LeastLive(ins, i)
    ensures i in Comparison(ins).1 <==> Label(Comparison(ins).0, |ins|)[|ins| - 1 - i] == 'Y'
  {
    ComparisonMembers(ins, i);
    ComparisonLabel(ins, i);
  }

  /** Input i takes part in a comparison exactly when its line is the least
      among the cursors that are not done. */
  lemma ComparisonMembers(ins: seq<Input>, i: nat)
    requires i < |ins| && !AllDone(ins)
    ensures i in Comparison(ins).1 <==> LeastLive(ins, i)
  {
    var rs := LiveRecs(ins);
    var m := Minimum(rs);
    ComparisonUnfold(ins);
    LiveRecsMembers(ins);
    var j0 :| 0 <= j0 < |ins| && !ins[j0].eod;
    assert ins[j0].rec in rs;
    MinimumIsLeast(rs);
    if LeastLive(ins, i) {
      assert ins[i].rec in rs;
      forall k | 0 <= k < |rs|
        ensures !Less(rs[k], ins[i].rec)
      {
        assert HeldByLive(ins, rs[k]);
      }
      MinimumUnique(rs, ins[i].rec);
      assert Held(ins, m)[i];
    }
    if Held(ins, m)[i] {
      forall j | 0 <= j < |ins| && !ins[j].eod
        ensures !Less(ins[j].rec, ins[i].rec)
      {
        assert ins[j].rec in rs;
      }
    }
  }

  /** The pattern of a comparison is not 0 when some cursor is not done, and
      its label has a 'Y' exactly at the taking part inputs, counted from the
      right. */
  lemma ComparisonLabel(ins: seq<Input>, i: nat)
    requires i < |ins| && !AllDone(ins)
    ensures Comparison(ins).0 >= 1
    ensures i in Comparison(ins).1 <==> Label(Comparison(ins).0, |ins|)[|ins| - 1 - i] == 'Y'
  {
    var held := Held(ins, Minimum(LiveRecs(ins)));
    ComparisonUnfold(ins);
    MaskLabel(held);
    assert Render(held)[|ins| - 1 - i] == 'Y' <==> held[i];
  }

  /** Why the argument list is flipped before the cursors are made: with the
      cursors in reverse argument order (as Flip leaves them, see ReversedAt), the label of a comparison has a 'Y'
      at position j exactly when the file named by argument j takes part. */
  lemma ArgumentPositions(args: seq<Input>, ins: seq<Input>, j: nat)
    requires |ins| == |args| && forall k :: 0 <= k < |ins| ==> ins[k] == args[|args| - 1 - k]
    requires j < |args| && !AllDone(ins)
    ensures ins[|args| - 1 - j] == args[j]
    ensures Label(Comparison(ins).0, |args|)[j] == 'Y' <==> |args| - 1 - j in Comparison(ins).1
  {
    var i := |args| - 1 - j;
    assert ins[i] == args[j] by {
      assert |args| - 1 - i == j;
    }
    ComparisonLabel(ins, i);
    assert |ins| - 1 - i == j;
  }

  /** Which cursors hold `m`, done or not (the source's test in compare). */
  function HeldAsWritten(ins: seq<Input>, m: Line): (held: seq<bool>)
    ensures |held| == |ins|
    ensures forall i :: 0 <= i < |ins| ==> (held[i] <==> ins[i].rec == m)
  {
    seq(|ins|, i requires 0 <= i < |ins| => ins[i].rec == m)
  }

  /** compare as the source writes it: the sentinel held by a cursor that
      is done takes part in the comparison like any line. */
  function ComparisonAsWritten(ins: seq<Input>): (r: (nat, seq<nat>))
    ensures r.0 == 0 <==> AllDone(ins)
    ensures r.0 == 0 <==> r.1 == []
    ensures r.0 < Pow2(|ins|)
    ensures forall k :: 0 <= k < |r.1| ==> r.1[k] < |ins| && forall j :: 0 <= j < |ins| ==> !Less(ins[j].rec, ins[r.1[k]].rec)
    ensures forall k, l :: 0 <= k < l < |r.1| ==> r.1[k] < r.1[l]
    ensures !AllDone(ins) ==> forall i :: 0 <= i < |ins| ==> (i in r.1 <==> ins[i].rec == Minimum(Recs(ins)))
  {
    if AllDone(ins) then (0, [])
    else
      var rs := Recs(ins);
      var m := Minimum(rs);
      var held := HeldAsWritten(ins, m);
      MinimumIsLeast(rs);
      assert forall j :: 0 <= j < |ins| ==> !Less(ins[j].rec, m) by {
        assert forall j :: 0 <= j < |ins| ==> rs[j] == ins[j].rec;
      }
      var i :| 0 <= i < |rs| && rs[i] == m;
      MaskPositive(held, i);
      assert i in Indices(held);
      (Mask(held), Indices(held))
  }

  /** While every line sorts before the sentinel, leaving the cursors that
      are done out of the comparison changes nothing: both comparisons agree. */
  lemma {:induction false} ComparisonAgrees(ins: seq<Input>)
    requires forall i :: 0 <= i < |ins| ==> Sound(ins[i])
    ensures ComparisonAsWritten(ins) == Comparison(ins)
  {
    if !AllDone(ins) {
      var m := Minimum(LiveRecs(ins));
      SentinelNeverLeast(ins);
      var held := HeldAsWritten(ins, m);
      forall i | 0 <= i < |ins|
        ensures held[i] == Held(ins, m)[i]
      {
        if ins[i].eod {
          LessIrreflexive(m);
        }
      }
      assert held == Held(ins, m);
    }
  }

  /** With sound cursors, the least of all held lines is the least line held
      by a cursor that is not done, and it sorts before the sentinel. */
  lemma SentinelNeverLeast(ins: seq<Input>)
    requires forall i :: 0 <= i < |ins| ==> Sound(ins[i])
    requires !AllDone(ins)
    ensures Minimum(Recs(ins)) == Minimum(LiveRecs(ins))
    ensures Less(Minimum(LiveRecs(ins)), Sentinel)
  {
    var rs := LiveRecs(ins);
    var m := Minimum(rs);
    var all := Recs(ins);
    LiveHolder(ins);
    var j :| 0 <= j < |ins| && Held(ins, m)[j];
    assert Less(m, Sentinel) && all[j] == m;
    forall k | 0 <= k < |all|
      ensures !Less(all[k], m)
    {
      if ins[k].eod {
        LessAsymmetric(m, Sentinel);
      } else {
        LiveRecsComplete(ins);
        MinimumIsLeast(rs);
        assert ins[k].rec in rs;
      }
    }
    MinimumUnique(all, m);
  }


  /** min: the least of the values, "" when there are none. */
  method Min(ss: seq<Line>) returns (s: Line)
    ensures s == Minimum(ss)
    ensures ss == [] ==> s == []
    ensures ss != [] ==> s in ss && forall k :: 0 <= k < |ss| ==> !Less(ss[k], s)
  {
    if |ss| == 0 {
      return [];
    }
    s := ss[0];
    var i := 0;
    while i < |ss|
      invariant i <= |ss|
      invariant s == Minimum(ss[..if i == 0 then 1 else i])
    {
      var val := ss[i];
      assert ss[..i + 1][..i] == ss[..i];
      if Less(val, s) {
        s := val;
      }
      i := i + 1;
    }
    assert ss[..|ss|] == ss;
    MinimumIsLeast(ss);
  }

  /** allEOD: whether every cursor is done. */
  method AllEod(ins: seq<Input>) returns (done: bool)
    ensures done <==> AllDone(ins)
  {
    var i := 0;
    while i < |ins|
      invariant i <= |ins|
      invariant forall k :: 0 <= k < i ==> ins[k].eod
    {
      if !ins[i].eod {
        return false;
      }
      i := i + 1;
    }
    return true;
  }

  /** compare: the pattern index of the least line among the cursors that
      are not done, and the ascending indices of the cursors that hold it;
      0 and none when all are done. */
  method Compare(ins: seq<Input>) returns (pat: nat, idx: seq<nat>)
    ensures (pat, idx) == Comparison(ins)
    ensures pat == 0 <==> AllDone(ins)
  {
    var done := AllEod(ins);
    if done {
      return 0, [];
    }
    var recs := LiveLines(ins);
    var minRec := Min(recs);
    pat, idx := Members(ins, minRec);
    ComparisonUnfold(ins);
  }

  /** The first loop of compare: the lines of the cursors that are not
      done, in cursor order. */
  method LiveLines(ins: seq<Input>) returns (recs: seq<Line>)
    ensures recs == LiveRecs(ins)
  {
    recs := [];
    var i := 0;
    while i < |ins|
      invariant i <= |ins|
      invariant recs == LiveRecs(ins[..i])
    {
      assert ins[..i + 1][..i] == ins[..i];
      if !ins[i].eod {
        recs := recs + [ins[i].rec];
      }
      i := i + 1;
    }
    assert ins[..|ins|] == ins;
  }

  /** The second loop of compare: the mask and the ascending indices of the
      cursors that are not done and hold `m`. */
  method Members(ins: seq<Input>, m: Line) returns (pat: nat, idx: seq<nat>)
    ensures pat == Mask(Held(ins, m)) && idx == Indices(Held(ins, m))
  {
    ghost var held := Held(ins, m);
    pat, idx := 0, [];
    var i := 0;
    while i < |ins|
      invariant i <= |ins|
      invariant pat == Mask(held[..i]) && idx == Indices(held[..i])
    {
      assert held[..i + 1][..i] == held[..i];
      if !ins[i].eod && ins[i].rec == m {
        pat := pat + Pow2(i);
        idx := idx + [i];
      }
      i := i + 1;
    }
    assert held[..|ins|] == held;
  }
}
