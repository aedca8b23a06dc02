/** Whole runs of matchAll on small files: files of '\n'-terminated lines,
    the cursors over them part way through, and the cases of the unit test
    of process. */
module Runs {
  import opened Lines
  import opened Patterns
  import opened Cursor
  import opened Engine
  import opened Merge

  /** The contents of a file holding the lines `ls`, each followed by '\n'. */
  function Text(ls: seq<Line>): (t: Line)
    ensures ls == [] ==> t == []
  {
    if ls == [] then [] else ls[0] + [NL] + Text(ls[1..])
  }

  /** Lines as a sorted input file holds them: no '\n' inside, none
      sorting before the one before it. A line may repeat the one before,
      which get accepts without -nodup. */
  predicate Wellformed(ls: seq<Line>)
  {
    (forall i :: 0 <= i < |ls| ==> NL !in ls[i]) &&
    (forall i :: 0 < i < |ls| ==> !Less(ls[i], ls[i - 1]))
  }

  /** Lines in strictly ascending order, no '\n' inside: the eight distinct
      lines the second case of the unit test of process spreads over its
      three files. */
  predicate Ascending(ls: seq<Line>)
  {
    (forall i :: 0 <= i < |ls| ==> NL !in ls[i]) &&
    (forall i :: 0 < i < |ls| ==> Less(ls[i - 1], ls[i]))
  }

  /** The cursor over the file `ls` after k gets: for k up to the number of
      lines, k lines read and the k-th held; after one get more, done. */
  function Pos(name: Line, ls: seq<Line>, k: nat): (c: Input)
    requires k <= |ls| + 1
    ensures c.eod <==> k > |ls|
    ensures 0 < k <= |ls| ==> c.rec == ls[k - 1]
  {
    if k <= |ls| then Input(name, k, if k == 0 then [] else ls[k - 1], false, false, Text(ls[k..]))
    else Input(name, |ls|, Sentinel, true, true, [])
  }

  /** A line read through its '\n' from a file of terminated lines: the
      read stops at the first '\n', which is the one after `l`. */
  lemma ReadLine(l: Line, rest: Line)
    requires NL !in l
    ensures ReadString(l + [NL] + rest) == (l + [NL], rest, false)
  {
    var r := l + [NL] + rest;
    var res := ReadString(r);
    assert r[|l|] == NL && NL in r;
    var n := |res.0|;
    assert n > 0 && r[n - 1] == res.0[n - 1] == NL;
    assert forall i :: 0 <= i < |l| ==> r[i] == l[i] != NL;
    assert forall i :: 0 <= i < n - 1 ==> r[i] == res.0[..n - 1][i] != NL;
    assert n - 1 == |l|;
    assert res.0 == r[..n];
    assert r[..n] == l + [NL];
    assert res.1 == r[n..] == rest;
  }

  /** Each get on a cursor over a well-formed file takes the next line, and
      the one after the last line makes the cursor done. */
  lemma {:induction false} GetPos(name: Line, ls: seq<Line>, k: nat)
    requires Wellformed(ls) && k <= |ls|
    ensures Cursor.Get(Pos(name, ls, k), false) == (Pos(name, ls, k + 1), Ok)
  {
    var c := Pos(name, ls, k);
    if k < |ls| {
      var l := ls[k];
      assert ls[k..][1..] == ls[k + 1..];
      assert c.unread == l + [NL] + Text(ls[k + 1..]);
      ReadLine(l, Text(ls[k + 1..]));
      assert Chomp(l + [NL]) == l;
      assert !Less(l, c.rec);
      assert ReadAgain(c, false) == (Pos(name, ls, k + 1), Ok);
    } else {
      assert ls[k..] == [];
      GetAtEnd(c, false);
    }
  }

  /** The cursors over several files, cursor i having had ks[i] gets. */
  function Cursors(names: seq<Line>, files: seq<seq<Line>>, ks: seq<nat>): (ins: seq<Input>)
    requires |names| == |files| == |ks|
    requires forall i :: 0 <= i < |ks| ==> ks[i] <= |files[i]| + 1
    ensures |ins| == |ks| && forall i :: 0 <= i < |ks| ==> ins[i] == Pos(names[i], files[i], ks[i])
    ensures AllSettled(ins)
  {
    seq(|ks|, i requires 0 <= i < |ks| => Pos(names[i], files[i], ks[i]))
  }

  /** One more get on each of the cursors `idx`. */
  function Advance(ks: seq<nat>, idx: seq<nat>): (r: seq<nat>)
    ensures |r| == |ks| && forall i :: 0 <= i < |ks| ==> r[i] == if i in idx then ks[i] + 1 else ks[i]
  {
    seq(|ks|, i requires 0 <= i < |ks| => if i in idx then ks[i] + 1 else ks[i])
  }

  /** Getting on ascending cursors over well-formed files, none of them
      done, moves each of them on by one line and fails for none. */
  lemma {:induction false} GetEachCursors(names: seq<Line>, files: seq<seq<Line>>, ks: seq<nat>, idx: seq<nat>)
    requires |names| == |files| == |ks|
    requires forall i :: 0 <= i < |ks| ==> ks[i] <= |files[i]| + 1 && Wellformed(files[i])
    requires forall k :: 0 <= k < |idx| ==> idx[k] < |ks|
    requires forall i :: 0 <= i < |ks| && i in idx ==> ks[i] <= |files[i]|
    requires forall k, l :: 0 <= k < l < |idx| ==> idx[k] < idx[l]
    ensures GetEach(Cursors(names, files, ks), idx, false) == (Cursors(names, files, Advance(ks, idx)), Ok)
  {
    if idx == [] {
      assert Advance(ks, idx) == ks;
    } else {
      var init := idx[..|idx| - 1];
      assert forall i :: i in init ==> i in idx;
      GetEachCursors(names, files, ks, init);
      GetEachLast(names, files, ks, idx);
    }
  }

  /** The last get of GetEachCursors, once those before it moved their
      cursors on. */
  lemma {:induction false} GetEachLast(names: seq<Line>, files: seq<seq<Line>>, ks: seq<nat>, idx: seq<nat>)
    requires |names| == |files| == |ks|
    requires forall i :: 0 <= i < |ks| ==> ks[i] <= |files[i]| + 1 && Wellformed(files[i])
    requires forall k :: 0 <= k < |idx| ==> idx[k] < |ks|
    requires forall i :: 0 <= i < |ks| && i in idx ==> ks[i] <= |files[i]|
    requires forall k, l :: 0 <= k < l < |idx| ==> idx[k] < idx[l]
    requires idx != [] && forall i :: 0 <= i < |ks| ==> Advance(ks, idx[..|idx| - 1])[i] <= |files[i]| + 1
    requires GetEach(Cursors(names, files, ks), idx[..|idx| - 1], false) ==
             (Cursors(names, files, Advance(ks, idx[..|idx| - 1])), Ok)
    ensures GetEach(Cursors(names, files, ks), idx, false) == (Cursors(names, files, Advance(ks, idx)), Ok)
  {
    var init := idx[..|idx| - 1];
    var j := idx[|idx| - 1];
    var mid := Advance(ks, init);
    assert mid[j] == ks[j] by {
      assert j !in init;
    }
    GetOneMore(names, files, mid, j);
    AdvanceSnoc(ks, idx);
    var c := Cursors(names, files, mid);
    var got := Cursor.Get(c[j], false);
    assert GetEach(Cursors(names, files, ks), idx, false) == (c[j := got.0], got.1);
  }


  /** A get on one more cursor of those over well-formed files. */
  lemma {:induction false} GetOneMore(names: seq<Line>, files: seq<seq<Line>>, ks: seq<nat>, j: nat)
    requires |names| == |files| == |ks|
    requires forall i :: 0 <= i < |ks| ==> ks[i] <= |files[i]| + 1
    requires j < |ks| && ks[j] <= |files[j]| && Wellformed(files[j])
    ensures var c := Cursors(names, files, ks);
      var got := Cursor.Get(c[j], false);
      (c[j := got.0], got.1) == (Cursors(names, files, ks[j := ks[j] + 1]), Ok)
  {
    var c := Cursors(names, files, ks);
    assert Cursor.Get(c[j], false) == (Pos(names[j], files[j], ks[j] + 1), Ok) by {
      GetPos(names[j], files[j], ks[j]);
    }
    CursorsUpdate(names, files, ks, j, ks[j] + 1);
  }

  /** Advancing one more cursor, not advanced before. */
  lemma AdvanceSnoc(ks: seq<nat>, idx: seq<nat>)
    requires idx != [] && idx[|idx| - 1] < |ks| && idx[|idx| - 1] !in idx[..|idx| - 1]
    ensures Advance(ks, idx) == Advance(ks, idx[..|idx| - 1])[idx[|idx| - 1] := ks[idx[|idx| - 1]] + 1]
  {
    var init, j := idx[..|idx| - 1], idx[|idx| - 1];
    assert idx == init + [j];
    assert forall i :: i in idx <==> i in init || i == j;
  }

  /** Moving one cursor on changes that cursor only. */
  lemma {:induction false} CursorsUpdate(names: seq<Line>, files: seq<seq<Line>>, ks: seq<nat>, j: nat, v: nat)
    requires |names| == |files| == |ks|
    requires forall i :: 0 <= i < |ks| ==> ks[i] <= |files[i]| + 1
    requires j < |ks| && v <= |files[j]| + 1
    ensures Cursors(names, files, ks[j := v]) == Cursors(names, files, ks)[j := Pos(names[j], files[j], v)]
  {
  }

  /** The outputs of a session over n inputs all of whose outputs are
      active: output o, of pattern o + 1, has received the lines ls[o]. */
  function Outs(n: nat, ls: seq<seq<Line>>): (outs: seq<Output>)
    ensures |outs| == |ls|
    ensures forall o :: 0 <= o < |ls| ==> outs[o] == Output(Label(o + 1, n), |ls[o]|, true, ls[o])
  {
    seq(|ls|, o requires 0 <= o < |ls| => Output(Label(o + 1, n), |ls[o]|, true, ls[o]))
  }

  /** Writing a line to an active output appends it to that output's lines. */
  lemma DispatchOuts(n: nat, ls: seq<seq<Line>>, pat: nat, line: Line)
    requires 1 <= pat <= |ls|
    ensures Dispatch(Outs(n, ls), pat, line) == Outs(n, ls[pat - 1 := ls[pat - 1] + [line]])
  {
  }

  /** One turn of the loop with every output active: given the comparison
      and what the gets on its members give, the line goes to the output of
      the pattern and the loop goes on from the new cursors. */
  lemma {:induction false} TurnAt(ins: seq<Input>, next: seq<Input>, ls: seq<seq<Line>>, pat: nat, idx: seq<nat>, line: Line)
    requires |ins| > 0 && |ls| == Pow2(|ins|) - 1 && AllSettled(ins)
    requires Comparison(ins) == (pat, idx) && pat != 0
    requires GetEach(ins, idx, false) == (next, Ok) && AllSettled(next)
    requires idx != [] && ins[idx[0]].rec == line
    ensures Loop(ins, Outs(|ins|, ls), false) == Loop(next, Outs(|ins|, ls[pat - 1 := ls[pat - 1] + [line]]), false)
  {
    var outs := Outs(|ins|, ls);
    assert Shaped(ins, outs);
    LoopStep(ins, outs, false, pat, idx);
    var s := Step(ins, outs, false, pat, idx);
    assert s.outs == Outs(|ins|, ls[pat - 1 := ls[pat - 1] + [line]]) by {
      DispatchOuts(|ins|, ls, pat, line);
    }
    assert Loop(ins, outs, false) == Loop(s.ins, s.outs, false);
  }

  /** What one turn of the loop needs over cursors on well-formed files:
      the live cursor w holds `line`, which no live cursor's line sorts
      before; `held` marks the live cursors holding it, `pat` and `idx` are
      their pattern and indices, ks' the line counts once they have moved on
      and ls' the lines of the outputs once `line` is written. */
  predicate TurnReady(names: seq<Line>, files: seq<seq<Line>>, ks: seq<nat>, ls: seq<seq<Line>>,
                      w: nat, held: seq<bool>, pat: nat, idx: seq<nat>, line: Line,
                      ks': seq<nat>, ls': seq<seq<Line>>)
  {
    |names| == |files| == |ks| == |held| > 0 && |ls| == Pow2(|ks|) - 1 &&
    (forall i :: 0 <= i < |ks| ==> ks[i] <= |files[i]| + 1 && Wellformed(files[i])) &&
    w < |ks| && ks[w] <= |files[w]| && line == Cursors(names, files, ks)[w].rec &&
    (var ins := Cursors(names, files, ks);
      forall i :: 0 <= i < |ins| && !ins[i].eod ==> !Less(ins[i].rec, line)) &&
    (var ins := Cursors(names, files, ks);
      forall i :: 0 <= i < |ins| ==> (held[i] <==> !ins[i].eod && ins[i].rec == line)) &&
    pat == Mask(held) && idx == Indices(held) && 1 <= pat <= |ls| &&
    ks' == Advance(ks, idx) && ls' == ls[pat - 1 := ls[pat - 1] + [line]]
  }

  /** One turn of the loop over cursors on well-formed files: the least line
      goes to the output of the pattern of its holders, and each holder
      moves on by one line. */
  lemma {:induction false} CursorsTurn(names: seq<Line>, files: seq<seq<Line>>, ks: seq<nat>, ls: seq<seq<Line>>,
                    w: nat, held: seq<bool>, pat: nat, idx: seq<nat>, line: Line,
                    ks': seq<nat>, ls': seq<seq<Line>>)
    requires TurnReady(names, files, ks, ls, w, held, pat, idx, line, ks', ls')
    ensures forall i :: 0 <= i < |ks'| ==> ks'[i] <= |files[i]| + 1
    ensures Loop(Cursors(names, files, ks), Outs(|ks|, ls), false) == Loop(Cursors(names, files, ks'), Outs(|ks|, ls'), false)
  {
    var ins := Cursors(names, files, ks);
    var next := Cursors(names, files, ks');
    assert Comparison(ins) == (pat, idx) by {
      ComparisonOfLeast(ins, w, held);
    }
    assert GetEach(ins, idx, false) == (next, Ok) by {
      GetEachCursors(names, files, ks, idx);
    }
    assert idx != [] && ins[idx[0]].rec == line by {
      assert w in idx;
    }
    TurnAt(ins, next, ls, pat, idx, line);
  }

  /** The loop stops, without error, once every cursor is done. */
  lemma LoopAtEnd(ins: seq<Input>, outs: seq<Output>, nodup: bool)
    requires Shaped(ins, outs) && AllSettled(ins) && AllDone(ins)
    ensures Loop(ins, outs, nodup) == Run(ins, outs, Ok)
  {
  }

  /** Past the last line of its one file, the session stops with status Ok. */
  lemma {:induction false} OneAtEnd(name: Line, ls: seq<Line>)
    requires Wellformed(ls)
    ensures Loop(Cursors([name], [ls], [|ls| + 1]), Outs(1, [ls]), false) ==
            Run(Cursors([name], [ls], [|ls| + 1]), Outs(1, [ls]), Ok)
  {
    LoopAtEnd(Cursors([name], [ls], [|ls| + 1]), Outs(1, [ls]), false);
  }

  /** A turn over one well-formed file: the cursor after k gets holds the
      k-th line alone, which goes to the one output. */
  lemma {:induction false} OneReady(name: Line, ls: seq<Line>, k: nat)
    requires Wellformed(ls) && 1 <= k <= |ls|
    ensures TurnReady([name], [ls], [k], [ls[..k - 1]], 0, [true], 1, [0], ls[k - 1], [k + 1], [ls[..k]])
  {
    assert Mask([true]) == 1 && Indices([true]) == [0];
    assert [ls[..k - 1]][0 := ls[..k - 1] + [ls[k - 1]]] == [ls[..k]] by {
      assert ls[..k - 1] + [ls[k - 1]] == ls[..k];
    }
    var ins := Cursors([name], [ls], [k]);
    assert ins[0] == Pos(name, ls, k);
    assert ls[k - 1] == ins[0].rec;
    LessIrreflexive(ls[k - 1]);
    assert Advance([k], [0]) == [k + 1];
  }

  /** With one input, the loop sends each line of a well-formed file, from
      the k-th on, to the one output, labelled "Y", and stops at the end of
      the file. */
  lemma {:induction false} OneInputFrom(name: Line, ls: seq<Line>, k: nat)
    requires Wellformed(ls) && 1 <= k <= |ls| + 1
    ensures Loop(Cursors([name], [ls], [k]), Outs(1, [ls[..k - 1]]), false) ==
            Run(Cursors([name], [ls], [|ls| + 1]), Outs(1, [ls]), Ok)
    decreases |ls| + 1 - k
  {
    if k <= |ls| {
      OneReady(name, ls, k);
      CursorsTurn([name], [ls], [k], [ls[..k - 1]], 0, [true], 1, [0], ls[k - 1], [k + 1], [ls[..k]]);
      OneInputFrom(name, ls, k + 1);
    } else {
      assert ls[..k - 1] == ls;
      OneAtEnd(name, ls);
    }
  }

  /** process on one input: every line of the file goes to the output "Y",
      in order, and the run ends without error with the input done. */
  lemma ProcessOneInput(name: Line, ls: seq<Line>)
    requires Wellformed(ls)
    ensures MatchAllRun(Inputs([name], [Text(ls)]), Outs(1, [[]]), false) ==
            Run(Cursors([name], [ls], [|ls| + 1]), Outs(1, [ls]), Ok)
  {
    assert Inputs([name], [Text(ls)]) == Cursors([name], [ls], [0]) by {
      assert ls[0..] == ls;
    }
    assert Range(1) == [0];
    GetEachCursors([name], [ls], [0], [0]);
    assert Advance([0], [0]) == [1];
    assert ls[..0] == [];
    OneInputFrom(name, ls, 1);
  }

  /** Lines in ascending order are ordered pair by pair, so distinct, each
      pair in one direction only. */
  lemma {:induction false} AscendingOrder(ls: seq<Line>)
    requires Ascending(ls)
    ensures forall i, j :: 0 <= i < j < |ls| ==> Less(ls[i], ls[j]) && !Less(ls[j], ls[i]) && ls[i] != ls[j]
  {
    if |ls| > 1 {
      var init := ls[..|ls| - 1];
      AscendingOrder(init);
      forall i, j | 0 <= i < j < |ls|
        ensures Less(ls[i], ls[j]) && !Less(ls[j], ls[i]) && ls[i] != ls[j]
      {
        if j < |ls| - 1 {
          assert ls[i] == init[i] && ls[j] == init[j];
        } else if i < j - 1 {
          assert ls[i] == init[i] && ls[j - 1] == init[j - 1];
          LessTransitive(ls[i], ls[j - 1], ls[j]);
        }
        LessAsymmetric(ls[i], ls[j]);
        LessIrreflexive(ls[i]);
      }
    }
  }

  /** The membership mask and the member indices of three inputs. */
  lemma MaskOfThree(x: bool, y: bool, z: bool)
    ensures Mask([x, y, z]) == (if x then 1 else 0) + (if y then 2 else 0) + (if z then 4 else 0)
    ensures Indices([x, y, z]) == (if x then [0] else []) + (if y then [1] else []) + (if z then [2] else [])
  {
    assert [x, y, z][..2] == [x, y];
    assert [x, y][..1] == [x];
    assert [x][..0] == [];
    assert Pow2(1) == 2 && Pow2(2) == 4;
    assert Mask([x]) == (if x then 1 else 0);
    assert Indices([x]) == (if x then [0] else []);
  }

  /** The three input files of the second case of the unit test of
      process, over eight lines s[0] < ... < s[7] (there "a", "ab", "abc",
      "ac", "b", "bc", "c" and "cc"). */
  function ThreeFiles(s: seq<Line>): (fs: seq<seq<Line>>)
    requires |s| == 8
    ensures |fs| == 3
  {
    [[s[0], s[1], s[2], s[3]], [s[1], s[2], s[4], s[5]], [s[2], s[3], s[5], s[6], s[7]]]
  }

  /** The names of the three inputs, "0", "1" and "2". */
  const ThreeNames: seq<Line> := [[48], [49], [50]]

  /** The input files of the second case are well formed. */
  lemma ThreeWellformed(s: seq<Line>)
    requires |s| == 8 && Ascending(s)
    ensures forall i :: 0 <= i < 3 ==> Wellformed(ThreeFiles(s)[i])
  {
    AscendingOrder(s);
  }

  /** A later one of lines in ascending order neither sorts before an
      earlier one nor equals it. */
  lemma Before(s: seq<Line>, i: nat, j: nat)
    requires Ascending(s) && i < j < |s|
    ensures !Less(s[j], s[i]) && s[j] != s[i]
  {
    AscendingOrder(s);
  }

  /** The loop of the second case from the cursors that have had ks gets,
      the outputs having received ls. */
  function ThreeLoop(s: seq<Line>, ks: seq<nat>, ls: seq<seq<Line>>): Run
    requires |s| == 8 && |ks| == 3 && |ls| == 7
    requires ks[0] <= 5 && ks[1] <= 5 && ks[2] <= 6
  {
    assert Pow2(3) - 1 == 7;
    Loop(Cursors(ThreeNames, ThreeFiles(s), ks), Outs(3, ls), false)
  }

  /** The heads of three files at a turn, spelt out file by file rather
      than cursor by cursor: the w-th holds the least line, `held` marks
      the files whose head is that line, and every count stays in range. */
  predicate ThreeHeads(f: seq<seq<Line>>, ks: seq<nat>, w: nat, held: seq<bool>, line: Line, ks': seq<nat>)
  {
    |f| == |ks| == |held| == |ks'| == 3 &&
    (forall i :: 0 <= i < 3 ==> 1 <= ks[i] <= |f[i]| + 1 && ks'[i] <= |f[i]| + 1) &&
    w < 3 && ks[w] <= |f[w]| && line == f[w][ks[w] - 1] &&
    (ks[0] <= |f[0]| ==> !Less(f[0][ks[0] - 1], line)) &&
    (ks[1] <= |f[1]| ==> !Less(f[1][ks[1] - 1], line)) &&
    (ks[2] <= |f[2]| ==> !Less(f[2][ks[2] - 1], line)) &&
    (held[0] <==> ks[0] <= |f[0]| && f[0][ks[0] - 1] == line) &&
    (held[1] <==> ks[1] <= |f[1]| && f[1][ks[1] - 1] == line) &&
    (held[2] <==> ks[2] <= |f[2]| && f[2][ks[2] - 1] == line)
  }

  /** What a turn over three files does with the files holding the least
      line: one more get on each, and the line to the output of their
      pattern. */
  predicate ThreeMoves(ks: seq<nat>, ls: seq<seq<Line>>, held: seq<bool>, pat: nat, idx: seq<nat>, line: Line,
                       ks': seq<nat>, ls': seq<seq<Line>>)
  {
    |held| == 3 && |ls| == |ls'| == 7 &&
    pat == Mask(held) && idx == Indices(held) && 1 <= pat <= 7 &&
    ks' == Advance(ks, idx) && ls' == ls[pat - 1 := ls[pat - 1] + [line]]
  }

  /** The heads of three well-formed files, spelt out file by file, make
      the cursors over them ready for a turn. */
  lemma {:induction false} ReadyOfThree(ns: seq<Line>, f: seq<seq<Line>>, ks: seq<nat>, ls: seq<seq<Line>>, w: nat, held: seq<bool>,
                     pat: nat, idx: seq<nat>, line: Line, ks': seq<nat>, ls': seq<seq<Line>>)
    requires |ns| == 3 && ThreeHeads(f, ks, w, held, line, ks')
    requires ThreeMoves(ks, ls, held, pat, idx, line, ks', ls')
    requires Wellformed(f[0]) && Wellformed(f[1]) && Wellformed(f[2])
    ensures TurnReady(ns, f, ks, ls, w, held, pat, idx, line, ks', ls')
  {
    var ins := Cursors(ns, f, ks);
    forall i | 0 <= i < 3
      ensures !ins[i].eod ==> !Less(ins[i].rec, line)
      ensures held[i] <==> !ins[i].eod && ins[i].rec == line
    {
      if i == 0 {
      } else if i == 1 {
      } else {
      }
    }
    assert Pow2(3) - 1 == 7;
  }

  /** A turn over three well-formed files. */
  lemma {:induction false} TurnOfThree(ns: seq<Line>, f: seq<seq<Line>>, ks: seq<nat>, ls: seq<seq<Line>>, w: nat, held: seq<bool>,
                    pat: nat, idx: seq<nat>, line: Line, ks': seq<nat>, ls': seq<seq<Line>>)
    requires |ns| == 3 && ThreeHeads(f, ks, w, held, line, ks')
    requires ThreeMoves(ks, ls, held, pat, idx, line, ks', ls')
    requires Wellformed(f[0]) && Wellformed(f[1]) && Wellformed(f[2])
    ensures Pow2(3) - 1 == 7
    ensures Loop(Cursors(ns, f, ks), Outs(3, ls), false) == Loop(Cursors(ns, f, ks'), Outs(3, ls'), false)
  {
    ReadyOfThree(ns, f, ks, ls, w, held, pat, idx, line, ks', ls');
    CursorsTurn(ns, f, ks, ls, w, held, pat, idx, line, ks', ls');
  }

  lemma ThreeHeads1(s: seq<Line>)
    requires |s| == 8 && !Less(s[0], s[0]) && !Less(s[1], s[0]) && s[1] != s[0] && !Less(s[2], s[0]) && s[2] != s[0]
    ensures ThreeHeads(ThreeFiles(s), [1, 1, 1], 0, [true, false, false], s[0], [2, 1, 1])
  {
    var f := ThreeFiles(s);
    assert f[0][0] == s[0] && f[1][0] == s[1] && f[2][0] == s[2];
  }

  lemma ThreeMoves1(s: seq<Line>)
    requires |s| == 8
    ensures ThreeMoves([1, 1, 1], [[], [], [], [], [], [], []], [true, false, false], 1, [0], s[0], [2, 1, 1], [[s[0]], [], [], [], [], [], []])
  {
    assert [2, 1, 1] == Advance([1, 1, 1], [0]);
    var got: seq<Line> := [];
    assert got + [s[0]] == [s[0]];
    assert [[s[0]], [], [], [], [], [], []] == [got, [], [], [], [], [], []][0 := got + [s[0]]];
    MaskOfThree(true, false, false);
  }

  lemma ThreeTurn1(s: seq<Line>)
    requires |s| == 8 && Ascending(s)
    ensures ThreeLoop(s, [1, 1, 1], [[], [], [], [], [], [], []]) == ThreeLoop(s, [2, 1, 1], [[s[0]], [], [], [], [], [], []])
  {
    ThreeWellformed(s);
    LessIrreflexive(s[0]);
    Before(s, 0, 1);
    Before(s, 0, 2);
    ThreeHeads1(s);
    ThreeMoves1(s);
    TurnOfThree(ThreeNames, ThreeFiles(s), [1, 1, 1], [[], [], [], [], [], [], []], 0, [true, false, false], 1, [0], s[0], [2, 1, 1], [[s[0]], [], [], [], [], [], []]);
  }

  lemma ThreeHeads2(s: seq<Line>)
    requires |s| == 8 && !Less(s[1], s[1]) && !Less(s[2], s[1]) && s[2] != s[1]
    ensures ThreeHeads(ThreeFiles(s), [2, 1, 1], 0, [true, true, false], s[1], [3, 2, 1])
  {
    var f := ThreeFiles(s);
    assert f[0][1] == s[1] && f[1][0] == s[1] && f[2][0] == s[2];
  }

  lemma ThreeMoves2(s: seq<Line>)
    requires |s| == 8
    ensures ThreeMoves([2, 1, 1], [[s[0]], [], [], [], [], [], []], [true, true, false], 3, [0, 1], s[1], [3, 2, 1], [[s[0]], [], [s[1]], [], [], [], []])
  {
    assert [3, 2, 1] == Advance([2, 1, 1], [0, 1]);
    var got: seq<Line> := [];
    assert got + [s[1]] == [s[1]];
    assert [[s[0]], [], [s[1]], [], [], [], []] == [[s[0]], [], got, [], [], [], []][2 := got + [s[1]]];
    MaskOfThree(true, true, false);
  }

  lemma ThreeTurn2(s: seq<Line>)
    requires |s| == 8 && Ascending(s)
    ensures ThreeLoop(s, [2, 1, 1], [[s[0]], [], [], [], [], [], []]) == ThreeLoop(s, [3, 2, 1], [[s[0]], [], [s[1]], [], [], [], []])
  {
    ThreeWellformed(s);
    LessIrreflexive(s[1]);
    Before(s, 1, 2);
    ThreeHeads2(s);
    ThreeMoves2(s);
    TurnOfThree(ThreeNames, ThreeFiles(s), [2, 1, 1], [[s[0]], [], [], [], [], [], []], 0, [true, true, false], 3, [0, 1], s[1], [3, 2, 1], [[s[0]], [], [s[1]], [], [], [], []]);
  }

  lemma ThreeHeads3(s: seq<Line>)
    requires |s| == 8 && !Less(s[2], s[2])
    ensures ThreeHeads(ThreeFiles(s), [3, 2, 1], 0, [true, true, true], s[2], [4, 3, 2])
  {
    var f := ThreeFiles(s);
    assert f[0][2] == s[2] && f[1][1] == s[2] && f[2][0] == s[2];
  }

  lemma ThreeMoves3(s: seq<Line>)
    requires |s| == 8
    ensures ThreeMoves([3, 2, 1], [[s[0]], [], [s[1]], [], [], [], []], [true, true, true], 7, [0, 1, 2], s[2], [4, 3, 2], [[s[0]], [], [s[1]], [], [], [], [s[2]]])
  {
    assert [4, 3, 2] == Advance([3, 2, 1], [0, 1, 2]);
    var got: seq<Line> := [];
    assert got + [s[2]] == [s[2]];
    assert [[s[0]], [], [s[1]], [], [], [], [s[2]]] == [[s[0]], [], [s[1]], [], [], [], got][6 := got + [s[2]]];
    MaskOfThree(true, true, true);
  }

  lemma ThreeTurn3(s: seq<Line>)
    requires |s| == 8 && Ascending(s)
    ensures ThreeLoop(s, [3, 2, 1], [[s[0]], [], [s[1]], [], [], [], []]) == ThreeLoop(s, [4, 3, 2], [[s[0]], [], [s[1]], [], [], [], [s[2]]])
  {
    ThreeWellformed(s);
    LessIrreflexive(s[2]);
    ThreeHeads3(s);
    ThreeMoves3(s);
    TurnOfThree(ThreeNames, ThreeFiles(s), [3, 2, 1], [[s[0]], [], [s[1]], [], [], [], []], 0, [true, true, true], 7, [0, 1, 2], s[2], [4, 3, 2], [[s[0]], [], [s[1]], [], [], [], [s[2]]]);
  }

  lemma ThreeHeads4(s: seq<Line>)
    requires |s| == 8 && !Less(s[3], s[3]) && !Less(s[4], s[3]) && s[4] != s[3]
    ensures ThreeHeads(ThreeFiles(s), [4, 3, 2], 0, [true, false, true], s[3], [5, 3, 3])
  {
    var f := ThreeFiles(s);
    assert f[0][3] == s[3] && f[1][2] == s[4] && f[2][1] == s[3];
  }

  lemma ThreeMoves4(s: seq<Line>)
    requires |s| == 8
    ensures ThreeMoves([4, 3, 2], [[s[0]], [], [s[1]], [], [], [], [s[2]]], [true, false, true], 5, [0, 2], s[3], [5, 3, 3], [[s[0]], [], [s[1]], [], [s[3]], [], [s[2]]])
  {
    assert [5, 3, 3] == Advance([4, 3, 2], [0, 2]);
    var got: seq<Line> := [];
    assert got + [s[3]] == [s[3]];
    assert [[s[0]], [], [s[1]], [], [s[3]], [], [s[2]]] == [[s[0]], [], [s[1]], [], got, [], [s[2]]][4 := got + [s[3]]];
    MaskOfThree(true, false, true);
  }

  lemma ThreeTurn4(s: seq<Line>)
    requires |s| == 8 && Ascending(s)
    ensures ThreeLoop(s, [4, 3, 2], [[s[0]], [], [s[1]], [], [], [], [s[2]]]) == ThreeLoop(s, [5, 3, 3], [[s[0]], [], [s[1]], [], [s[3]], [], [s[2]]])
  {
    ThreeWellformed(s);
    LessIrreflexive(s[3]);
    Before(s, 3, 4);
    ThreeHeads4(s);
    ThreeMoves4(s);
    TurnOfThree(ThreeNames, ThreeFiles(s), [4, 3, 2], [[s[0]], [], [s[1]], [], [], [], [s[2]]], 0, [true, false, true], 5, [0, 2], s[3], [5, 3, 3], [[s[0]], [], [s[1]], [], [s[3]], [], [s[2]]]);
  }

  lemma ThreeHeads5(s: seq<Line>)
    requires |s| == 8 && !Less(s[4], s[4]) && !Less(s[5], s[4]) && s[5] != s[4]
    ensures ThreeHeads(ThreeFiles(s), [5, 3, 3], 1, [false, true, false], s[4], [5, 4, 3])
  {
    var f := ThreeFiles(s);
    assert |f[0]| == 4 && f[1][2] == s[4] && f[2][2] == s[5];
  }

  lemma ThreeMoves5(s: seq<Line>)
    requires |s| == 8
    ensures ThreeMoves([5, 3, 3], [[s[0]], [], [s[1]], [], [s[3]], [], [s[2]]], [false, true, false], 2, [1], s[4], [5, 4, 3], [[s[0]], [s[4]], [s[1]], [], [s[3]], [], [s[2]]])
  {
    assert [5, 4, 3] == Advance([5, 3, 3], [1]);
    var got: seq<Line> := [];
    assert got + [s[4]] == [s[4]];
    assert [[s[0]], [s[4]], [s[1]], [], [s[3]], [], [s[2]]] == [[s[0]], got, [s[1]], [], [s[3]], [], [s[2]]][1 := got + [s[4]]];
    MaskOfThree(false, true, false);
  }

  lemma ThreeTurn5(s: seq<Line>)
    requires |s| == 8 && Ascending(s)
    ensures ThreeLoop(s, [5, 3, 3], [[s[0]], [], [s[1]], [], [s[3]], [], [s[2]]]) == ThreeLoop(s, [5, 4, 3], [[s[0]], [s[4]], [s[1]], [], [s[3]], [], [s[2]]])
  {
    ThreeWellformed(s);
    LessIrreflexive(s[4]);
    Before(s, 4, 5);
    ThreeHeads5(s);
    ThreeMoves5(s);
    TurnOfThree(ThreeNames, ThreeFiles(s), [5, 3, 3], [[s[0]], [], [s[1]], [], [s[3]], [], [s[2]]], 1, [false, true, false], 2, [1], s[4], [5, 4, 3], [[s[0]], [s[4]], [s[1]], [], [s[3]], [], [s[2]]]);
  }

  lemma ThreeHeads6(s: seq<Line>)
    requires |s| == 8 && !Less(s[5], s[5])
    ensures ThreeHeads(ThreeFiles(s), [5, 4, 3], 1, [false, true, true], s[5], [5, 5, 4])
  {
    var f := ThreeFiles(s);
    assert |f[0]| == 4 && f[1][3] == s[5] && f[2][2] == s[5];
  }

  lemma ThreeMoves6(s: seq<Line>)
    requires |s| == 8
    ensures ThreeMoves([5, 4, 3], [[s[0]], [s[4]], [s[1]], [], [s[3]], [], [s[2]]], [false, true, true], 6, [1, 2], s[5], [5, 5, 4], [[s[0]], [s[4]], [s[1]], [], [s[3]], [s[5]], [s[2]]])
  {
    assert [5, 5, 4] == Advance([5, 4, 3], [1, 2]);
    var got: seq<Line> := [];
    assert got + [s[5]] == [s[5]];
    assert [[s[0]], [s[4]], [s[1]], [], [s[3]], [s[5]], [s[2]]] == [[s[0]], [s[4]], [s[1]], [], [s[3]], got, [s[2]]][5 := got + [s[5]]];
    MaskOfThree(false, true, true);
  }

  lemma ThreeTurn6(s: seq<Line>)
    requires |s| == 8 && Ascending(s)
    ensures ThreeLoop(s, [5, 4, 3], [[s[0]], [s[4]], [s[1]], [], [s[3]], [], [s[2]]]) == ThreeLoop(s, [5, 5, 4], [[s[0]], [s[4]], [s[1]], [], [s[3]], [s[5]], [s[2]]])
  {
    ThreeWellformed(s);
    LessIrreflexive(s[5]);
    ThreeHeads6(s);
    ThreeMoves6(s);
    TurnOfThree(ThreeNames, ThreeFiles(s), [5, 4, 3], [[s[0]], [s[4]], [s[1]], [], [s[3]], [], [s[2]]], 1, [false, true, true], 6, [1, 2], s[5], [5, 5, 4], [[s[0]], [s[4]], [s[1]], [], [s[3]], [s[5]], [s[2]]]);
  }

  lemma ThreeHeads7(s: seq<Line>)
    requires |s| == 8 && !Less(s[6], s[6])
    ensures ThreeHeads(ThreeFiles(s), [5, 5, 4], 2, [false, false, true], s[6], [5, 5, 5])
  {
    var f := ThreeFiles(s);
    assert |f[0]| == 4 && |f[1]| == 4 && f[2][3] == s[6];
  }

  lemma ThreeMoves7(s: seq<Line>)
    requires |s| == 8
    ensures ThreeMoves([5, 5, 4], [[s[0]], [s[4]], [s[1]], [], [s[3]], [s[5]], [s[2]]], [false, false, true], 4, [2], s[6], [5, 5, 5], [[s[0]], [s[4]], [s[1]], [s[6]], [s[3]], [s[5]], [s[2]]])
  {
    assert [5, 5, 5] == Advance([5, 5, 4], [2]);
    var got: seq<Line> := [];
    assert got + [s[6]] == [s[6]];
    assert [[s[0]], [s[4]], [s[1]], [s[6]], [s[3]], [s[5]], [s[2]]] == [[s[0]], [s[4]], [s[1]], got, [s[3]], [s[5]], [s[2]]][3 := got + [s[6]]];
    MaskOfThree(false, false, true);
  }

  lemma ThreeTurn7(s: seq<Line>)
    requires |s| == 8 && Ascending(s)
    ensures ThreeLoop(s, [5, 5, 4], [[s[0]], [s[4]], [s[1]], [], [s[3]], [s[5]], [s[2]]]) == ThreeLoop(s, [5, 5, 5], [[s[0]], [s[4]], [s[1]], [s[6]], [s[3]], [s[5]], [s[2]]])
  {
    ThreeWellformed(s);
    LessIrreflexive(s[6]);
    ThreeHeads7(s);
    ThreeMoves7(s);
    TurnOfThree(ThreeNames, ThreeFiles(s), [5, 5, 4], [[s[0]], [s[4]], [s[1]], [], [s[3]], [s[5]], [s[2]]], 2, [false, false, true], 4, [2], s[6], [5, 5, 5], [[s[0]], [s[4]], [s[1]], [s[6]], [s[3]], [s[5]], [s[2]]]);
  }

  lemma ThreeHeads8(s: seq<Line>)
    requires |s| == 8 && !Less(s[7], s[7])
    ensures ThreeHeads(ThreeFiles(s), [5, 5, 5], 2, [false, false, true], s[7], [5, 5, 6])
  {
    var f := ThreeFiles(s);
    assert |f[0]| == 4 && |f[1]| == 4 && f[2][4] == s[7];
  }

  lemma ThreeMoves8(s: seq<Line>)
    requires |s| == 8
    ensures ThreeMoves([5, 5, 5], [[s[0]], [s[4]], [s[1]], [s[6]], [s[3]], [s[5]], [s[2]]], [false, false, true], 4, [2], s[7], [5, 5, 6], [[s[0]], [s[4]], [s[1]], [s[6], s[7]], [s[3]], [s[5]], [s[2]]])
  {
    assert [5, 5, 6] == Advance([5, 5, 5], [2]);
    var got: seq<Line> := [s[6]];
    assert got + [s[7]] == [s[6], s[7]];
    assert [[s[0]], [s[4]], [s[1]], [s[6], s[7]], [s[3]], [s[5]], [s[2]]] == [[s[0]], [s[4]], [s[1]], got, [s[3]], [s[5]], [s[2]]][3 := got + [s[7]]];
    MaskOfThree(false, false, true);
  }

  lemma ThreeTurn8(s: seq<Line>)
    requires |s| == 8 && Ascending(s)
    ensures ThreeLoop(s, [5, 5, 5], [[s[0]], [s[4]], [s[1]], [s[6]], [s[3]], [s[5]], [s[2]]]) == ThreeLoop(s, [5, 5, 6], [[s[0]], [s[4]], [s[1]], [s[6], s[7]], [s[3]], [s[5]], [s[2]]])
  {
    ThreeWellformed(s);
    LessIrreflexive(s[7]);
    ThreeHeads8(s);
    ThreeMoves8(s);
    TurnOfThree(ThreeNames, ThreeFiles(s), [5, 5, 5], [[s[0]], [s[4]], [s[1]], [s[6]], [s[3]], [s[5]], [s[2]]], 2, [false, false, true], 4, [2], s[7], [5, 5, 6], [[s[0]], [s[4]], [s[1]], [s[6], s[7]], [s[3]], [s[5]], [s[2]]]);
  }

  /** A session over three well-formed files starts by reading the first
      line of each. */
  lemma {:induction false} StartOfThree(ns: seq<Line>, fs: seq<seq<Line>>, ls: seq<seq<Line>>)
    requires |ns| == |fs| == 3 && |ls| == 7
    requires Wellformed(fs[0]) && Wellformed(fs[1]) && Wellformed(fs[2])
    ensures Pow2(3) - 1 == 7
    ensures MatchAllRun(Inputs(ns, [Text(fs[0]), Text(fs[1]), Text(fs[2])]), Outs(3, ls), false) ==
      Loop(Cursors(ns, fs, [1, 1, 1]), Outs(3, ls), false)
  {
    var c0 := Cursors(ns, fs, [0, 0, 0]);
    assert Inputs(ns, [Text(fs[0]), Text(fs[1]), Text(fs[2])]) == c0 by {
      assert fs[0][0..] == fs[0] && fs[1][0..] == fs[1] && fs[2][0..] == fs[2];
    }
    assert GetEach(c0, Range(3), false) == (Cursors(ns, fs, [1, 1, 1]), Ok) by {
      assert Range(3) == [0, 1, 2];
      GetEachCursors(ns, fs, [0, 0, 0], [0, 1, 2]);
      assert Advance([0, 0, 0], [0, 1, 2]) == [1, 1, 1];
    }
    assert Pow2(3) - 1 == 7;
  }

  /** The second case starts by reading the first line of each input. */
  lemma ThreeStart(s: seq<Line>)
    requires |s| == 8 && Ascending(s)
    ensures var fs := ThreeFiles(s);
      MatchAllRun(Inputs(ThreeNames, [Text(fs[0]), Text(fs[1]), Text(fs[2])]), Outs(3, [[], [], [], [], [], [], []]), false) ==
      ThreeLoop(s, [1, 1, 1], [[], [], [], [], [], [], []])
  {
    ThreeWellformed(s);
    StartOfThree(ThreeNames, ThreeFiles(s), [[], [], [], [], [], [], []]);
  }

  /** The second case ends once the last line of the third input is out. */
  lemma ThreeEnd(s: seq<Line>)
    requires |s| == 8
    ensures ThreeLoop(s, [5, 5, 6], [[s[0]], [s[4]], [s[1]], [s[6], s[7]], [s[3]], [s[5]], [s[2]]]) == Run(Cursors(ThreeNames, ThreeFiles(s), [5, 5, 6]), Outs(3, [[s[0]], [s[4]], [s[1]], [s[6], s[7]], [s[3]], [s[5]], [s[2]]]), Ok)
  {
    LoopAtEnd(Cursors(ThreeNames, ThreeFiles(s), [5, 5, 6]), Outs(3, [[s[0]], [s[4]], [s[1]], [s[6], s[7]], [s[3]], [s[5]], [s[2]]]), false);
  }

  /** The second case of the unit test of process, over any eight lines in
      ascending order: each line reaches the output of the inputs holding
      it, "NNY" being the first input alone and "YYY" all three, and the run
      ends without error with every input done. */
  lemma ProcessThreeInputs(s: seq<Line>)
    requires |s| == 8 && Ascending(s)
    ensures var fs := ThreeFiles(s);
      MatchAllRun(Inputs(ThreeNames, [Text(fs[0]), Text(fs[1]), Text(fs[2])]), Outs(3, [[], [], [], [], [], [], []]), false) ==
      Run(Cursors(ThreeNames, fs, [5, 5, 6]), Outs(3, [[s[0]], [s[4]], [s[1]], [s[6], s[7]], [s[3]], [s[5]], [s[2]]]), Ok)
  {
    ThreeStart(s);
    ThreeTurn1(s);
    ThreeTurn2(s);
    ThreeTurn3(s);
    ThreeTurn4(s);
    ThreeTurn5(s);
    ThreeTurn6(s);
    ThreeTurn7(s);
    ThreeTurn8(s);
    ThreeEnd(s);
  }

  /** The first case of the unit test of process: one input, named "0",
      holding "a", "aa" and "aaa"; its one output, "Y", receives all three
      lines and the run ends without error. */
  lemma ProcessOneInputCase()
    ensures var r := MatchAllRun(Inputs([[48]], [Text([[97], [97, 97], [97, 97, 97]])]), Outs(1, [[]]), false);
      r.status == Ok && r.outs == Outs(1, [[[97], [97, 97], [97, 97, 97]]]) && Outs(1, [[]])[0].name == "Y"
  {
    var ls: seq<Line> := [[97], [97, 97], [97, 97, 97]];
    assert !Less(ls[1], ls[0]) && !Less(ls[2], ls[1]);
    ProcessOneInput([48], ls);
    assert Pow2(1) == 2;
  }

  /** The second case of the unit test of process: inputs "0", "1" and "2"
      holding a, ab, abc, ac / ab, abc, b, bc / abc, ac, bc, c, cc; the
      outputs NNY to YYY receive a / b / ab / c, cc / ac / bc / abc and the
      run ends without error. */
  lemma ProcessThreeInputsCase()
    ensures var r := MatchAllRun(Inputs(ThreeNames, [Text([[97], [97, 98], [97, 98, 99], [97, 99]]),
                                                      Text([[97, 98], [97, 98, 99], [98], [98, 99]]),
                                                      Text([[97, 98, 99], [97, 99], [98, 99], [99], [99, 99]])]),
                                 Outs(3, [[], [], [], [], [], [], []]), false);
      r.status == Ok &&
      r.outs == Outs(3, [[[97]], [[98]], [[97, 98]], [[99], [99, 99]], [[97, 99]], [[98, 99]], [[97, 98, 99]]])
  {
    var s: seq<Line> := [[97], [97, 98], [97, 98, 99], [97, 99], [98], [98, 99], [99], [99, 99]];
    assert Less(s[0], s[1]) && Less(s[1], s[2]) && Less(s[2], s[3]) && Less(s[3], s[4]);
    assert Less(s[4], s[5]) && Less(s[5], s[6]) && Less(s[6], s[7]);
    assert Ascending(s);
    ProcessThreeInputs(s);
  }

  /** A file that repeats a line, "a\na\n": without -nodup get accepts the
      repeat, and the one output "Y" receives both lines. */
  lemma ProcessRepeatedLine()
    ensures var r := MatchAllRun(Inputs([[48]], [Text([[97], [97]])]), Outs(1, [[]]), false);
      r.status == Ok && r.outs == Outs(1, [[[97], [97]]])
  {
    var ls: seq<Line> := [[97], [97]];
    LessIrreflexive(ls[0]);
    ProcessOneInput([48], ls);
  }
}
