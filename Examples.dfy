/** The cases of the unit tests, stated about the model, and the input that
    shows the sentinel of an exhausted input outranking a real line. */
module Examples {
  import opened Lines
  import opened Patterns
  import opened Cursor
  import opened Engine
  import opened Merge
  import opened Runs

  /** allPats(1), allPats(2) and allPats(3) list the labels in this order. */
  lemma AllPatsCases()
    ensures seq(2, i requires 0 <= i < 2 => Label(i, 1)) == ["N", "Y"]
    ensures seq(4, i requires 0 <= i < 4 => Label(i, 2)) == ["NN", "NY", "YN", "YY"]
    ensures seq(8, i requires 0 <= i < 8 => Label(i, 3)) ==
      ["NNN", "NNY", "NYN", "NYY", "YNN", "YNY", "YYN", "YYY"]
  {
    assert Pow2(2) == 4 && Pow2(1) == 2 && Pow2(0) == 1;
    assert Label(0, 1) == "N" && Label(1, 1) == "Y";
    assert Label(0, 2) == "NN" && Label(1, 2) == "NY" && Label(2, 2) == "YN" && Label(3, 2) == "YY";
    assert Label(0, 3) == "NNN" && Label(1, 3) == "NNY" && Label(2, 3) == "NYN" && Label(3, 3) == "NYY";
    assert Label(4, 3) == "YNN" && Label(5, 3) == "YNY" && Label(6, 3) == "YYN" && Label(7, 3) == "YYY";
  }

  /** The minimum of the test cases of min: "" for none, "" beside "A", and
      "A" beside "B" in either order. */
  lemma MinimumCases()
    ensures Minimum([]) == []
    ensures Minimum([[]]) == []
    ensures Minimum([[65], []]) == []
    ensures Minimum([[66], [65]]) == [65]
    ensures Minimum([[65], [66]]) == [65]
  {
    assert Less([], [65]);
    assert Less([65], [66]);
    LessAsymmetric([65], [66]);
  }

  /** A cursor in the state the tests of allEOD and compare set up: holding
      `rec`, done or not, with nothing left to read. */
  function Holding(rec: Line, eod: bool): Input
  {
    Input([], 0, rec, false, eod, [])
  }

  /** allEOD on the test cases: true for no cursors and for done cursors only. */
  lemma AllDoneCases()
    ensures AllDone([])
    ensures !AllDone([Holding([], false)])
    ensures AllDone([Holding([], true)])
    ensures AllDone([Holding([], true), Holding([], true)])
    ensures !AllDone([Holding([], true), Holding([], false)])
    ensures !AllDone([Holding([], false), Holding([], true)])
  {
    var live, done := Holding([], false), Holding([], true);
    assert [live][0] == live;
    assert [done, live][1] == live;
    assert [live, done][0] == live;
  }

  /** compare on the test cases with no cursor or only a done one:
      pattern 0 and no indices. */
  lemma ComparisonCasesDone(A: Line)
    ensures Comparison([]) == (0, [])
    ensures ComparisonAsWritten([]) == (0, [])
    ensures Comparison([Holding(A, true)]) == (0, [])
    ensures ComparisonAsWritten([Holding(A, true)]) == (0, [])
  {
  }

  /** compare on the test case of one cursor holding "A": pattern 1 (Y). */
  lemma ComparisonCaseOne(A: Line)
    ensures Comparison([Holding(A, false)]) == (1, [0])
    ensures ComparisonAsWritten([Holding(A, false)]) == (1, [0])
  {
    var a := Holding(A, false);
    var ins := [a];
    LessIrreflexive(A);
    assert Recs(ins)[0] == A;
    ComparisonOf(ins, A, [true], 1, [0]);
  }

  /** compare on the test case "A", "B": pattern 1 (NY), for any lines
      "A" that sorts before "B". */
  lemma ComparisonCaseAB(A: Line, B: Line)
    requires Less(A, B)
    ensures Comparison([Holding(A, false), Holding(B, false)]) == (1, [0])
    ensures ComparisonAsWritten([Holding(A, false), Holding(B, false)]) == (1, [0])
  {
    var a, b := Holding(A, false), Holding(B, false);
    var ins := [a, b];
    LessAsymmetric(A, B);
    LessIrreflexive(A);
    assert Recs(ins)[0] == A;
    ComparisonOf(ins, A, [true, false], 1, [0]);
  }

  /** compare on the test case "B", "A": pattern 2 (YN), for any lines
      "A" that sorts before "B". */
  lemma ComparisonCaseBA(A: Line, B: Line)
    requires Less(A, B)
    ensures Comparison([Holding(B, false), Holding(A, false)]) == (2, [1])
    ensures ComparisonAsWritten([Holding(B, false), Holding(A, false)]) == (2, [1])
  {
    var a, b := Holding(A, false), Holding(B, false);
    var ins := [b, a];
    LessAsymmetric(A, B);
    LessIrreflexive(A);
    assert Recs(ins)[1] == A;
    ComparisonOf(ins, A, [false, true], 2, [1]);
  }

  /** compare on the test case "A", "A": pattern 3 (YY). */
  lemma ComparisonCaseAA(A: Line)
    ensures Comparison([Holding(A, false), Holding(A, false)]) == (3, [0, 1])
    ensures ComparisonAsWritten([Holding(A, false), Holding(A, false)]) == (3, [0, 1])
  {
    var a := Holding(A, false);
    var ins := [a, a];
    LessIrreflexive(A);
    assert Recs(ins)[0] == A;
    ComparisonOf(ins, A, [true, true], 3, [0, 1]);
  }

  /** compare on the test case "A", "A", "B": pattern 3 (NYY), for any lines
      "A" that sorts before "B". */
  lemma ComparisonCaseAAB(A: Line, B: Line)
    requires Less(A, B)
    ensures Comparison([Holding(A, false), Holding(A, false), Holding(B, false)]) == (3, [0, 1])
    ensures ComparisonAsWritten([Holding(A, false), Holding(A, false), Holding(B, false)]) == (3, [0, 1])
  {
    var a, b := Holding(A, false), Holding(B, false);
    var ins := [a, a, b];
    LessAsymmetric(A, B);
    LessIrreflexive(A);
    assert Recs(ins)[0] == A;
    MembershipYYN();
    ComparisonOf(ins, A, [true, true, false], 3, [0, 1]);
  }

  /** compare on the test case "B", "A", "A": pattern 6 (YYN), for any lines
      "A" that sorts before "B". */
  lemma ComparisonCaseBAA(A: Line, B: Line)
    requires Less(A, B)
    ensures Comparison([Holding(B, false), Holding(A, false), Holding(A, false)]) == (6, [1, 2])
    ensures ComparisonAsWritten([Holding(B, false), Holding(A, false), Holding(A, false)]) == (6, [1, 2])
  {
    var a, b := Holding(A, false), Holding(B, false);
    var ins := [b, a, a];
    LessAsymmetric(A, B);
    LessIrreflexive(A);
    assert Recs(ins)[1] == A;
    MembershipNYY();
    ComparisonOf(ins, A, [false, true, true], 6, [1, 2]);
  }

  /** The mask and indices of the first two of three inputs. */
  lemma MembershipYYN()
    ensures Mask([true, true, false]) == 3 && Indices([true, true, false]) == [0, 1]
  {
    assert [true, true] + [false] == [true, true, false];
    MaskSnoc([true, true], false);
    IndicesSnoc([true, true], false);
  }

  /** The mask and indices of the last two of three inputs. */
  lemma MembershipNYY()
    ensures Mask([false, true, true]) == 6 && Indices([false, true, true]) == [1, 2]
  {
    assert [false, true] + [true] == [false, true, true] && Pow2(2) == 4;
    MaskSnoc([false, true], true);
    IndicesSnoc([false, true], true);
  }

  /** The comparison of cursors none of which is done, given a least line
      `m` among their lines, the membership it leads to, and that
      membership's pattern index and indices. */
  lemma ComparisonOf(ins: seq<Input>, m: Line, held: seq<bool>, pat: nat, idx: seq<nat>)
    requires ins != [] && forall i :: 0 <= i < |ins| ==> !ins[i].eod
    requires m in Recs(ins) && forall k :: 0 <= k < |ins| ==> !Less(ins[k].rec, m)
    requires |held| == |ins| && forall i :: 0 <= i < |ins| ==> (held[i] <==> ins[i].rec == m)
    requires Mask(held) == pat && Indices(held) == idx
    ensures Comparison(ins) == (pat, idx)
    ensures ComparisonAsWritten(ins) == (pat, idx)
  {
    assert !ins[0].eod;
    AllLive(ins);
    MinimumUnique(Recs(ins), m);
    assert held == Held(ins, m);
    assert held == HeldAsWritten(ins, m);
  }

  lemma MaskSnoc(held: seq<bool>, b: bool)
    ensures Mask(held + [b]) == Mask(held) + (if b then Pow2(|held|) else 0)
  {
    assert (held + [b])[..|held|] == held;
  }

  lemma IndicesSnoc(held: seq<bool>, b: bool)
    ensures Indices(held + [b]) == Indices(held) + (if b then [|held|] else [])
  {
    assert (held + [b])[..|held|] == held;
  }

  /** When no cursor is done, the live lines are all the lines. */
  lemma {:induction false} AllLive(ins: seq<Input>)
    requires forall i :: 0 <= i < |ins| ==> !ins[i].eod
    ensures LiveRecs(ins) == Recs(ins)
  {
    if ins != [] {
      AllLive(ins[..|ins| - 1]);
      assert Recs(ins) == Recs(ins[..|ins| - 1]) + [ins[|ins| - 1].rec];
    }
  }

  /** flip on the test cases: no strings, one, two and three strings come
      back in reverse order. */
  lemma ReversedCases(x: string, y: string, z: string)
    ensures Reversed<string>([]) == []
    ensures Reversed([x]) == [x]
    ensures Reversed([x, y]) == [y, x]
    ensures Reversed([x, y, z]) == [z, y, x]
  {
    assert [x, y][..1] == [x];
    assert [x, y, z][..2] == [x, y];
    assert [x][..0] == [];
  }

  /** A cursor that holds `x`, is not done and has `unread` left to read,
      beside a cursor that is done: the sentinel the done cursor holds is
      the least line when `x` sorts after it. compare as written then picks
      pattern 2 with the done cursor alone, and get on that cursor changes
      nothing, so every later turn of the loop makes the same comparison
      and writes the sentinel again; leaving done cursors out, as the model
      does, picks the live cursor instead. */
  lemma SentinelOutranked(x: Line, unread: Line, nodup: bool)
    requires Less(Sentinel, x)
    ensures var ins := [Input([48], 1, x, false, false, unread), Input([49], 1, Sentinel, true, true, [])];
      ComparisonAsWritten(ins) == (2, [1]) &&
      GetEach(ins, [1], nodup) == (ins, Ok) &&
      Comparison(ins) == (1, [0])
  {
    var ins := [Input([48], 1, x, false, false, unread), Input([49], 1, Sentinel, true, true, [])];
    AsWrittenPicksSentinel(ins, x);
    DoneCursorStays(ins, nodup);
    CorrectedPicksLive(ins, x);
  }

  /** A live line equal to the sentinel (the bytes C3 BF, "ÿ") beside a
      cursor that is done: compare as written counts the done cursor as
      holding that line too, so the line goes to the output of pattern 3,
      both inputs, instead of pattern 1, the live input alone. */
  lemma SentinelJoins(unread: Line)
    ensures var ins := [Input([48], 1, Sentinel, false, false, unread), Input([49], 1, Sentinel, true, true, [])];
      ComparisonAsWritten(ins) == (3, [0, 1]) && Comparison(ins) == (1, [0])
  {
    var ins := [Input([48], 1, Sentinel, false, false, unread), Input([49], 1, Sentinel, true, true, [])];
    AsWrittenJoinsSentinel(ins);
    CorrectedPicksLive(ins, Sentinel);
  }

  lemma AsWrittenJoinsSentinel(ins: seq<Input>)
    requires |ins| == 2 && ins[0].rec == Sentinel && ins[1].rec == Sentinel && !ins[0].eod
    ensures ComparisonAsWritten(ins) == (3, [0, 1])
  {
    LessIrreflexive(Sentinel);
    assert !AllDone(ins) by {
      assert !ins[0].eod;
    }
    assert Minimum(Recs(ins)) == Sentinel by {
      assert Recs(ins) == [Sentinel, Sentinel];
      assert Recs(ins)[..1] == [Sentinel];
    }
    assert HeldAsWritten(ins, Sentinel) == [true, true];
    assert Mask([true, true]) == 3 && Indices([true, true]) == [0, 1] by {
      assert [true] + [true] == [true, true];
      MaskSnoc([true], true);
      IndicesSnoc([true], true);
    }
    assert ComparisonAsWritten(ins) == (Mask([true, true]), Indices([true, true]));
  }

  lemma AsWrittenPicksSentinel(ins: seq<Input>, x: Line)
    requires Less(Sentinel, x) && |ins| == 2 && ins[0].rec == x && ins[1].rec == Sentinel && !ins[0].eod
    ensures ComparisonAsWritten(ins) == (2, [1])
  {
    LessAsymmetric(Sentinel, x);
    LessIrreflexive(Sentinel);
    assert Recs(ins) == [x, Sentinel];
    assert Minimum(Recs(ins)) == Sentinel by {
      assert Recs(ins)[..1] == [x];
    }
    assert HeldAsWritten(ins, Sentinel) == [false, true];
    MembershipNY();
    assert !AllDone(ins) by {
      assert !ins[0].eod;
    }
    assert ComparisonAsWritten(ins) == (Mask([false, true]), Indices([false, true]));
  }

  lemma DoneCursorStays(ins: seq<Input>, nodup: bool)
    requires |ins| == 2 && ins[1].eof && ins[1].eod && ins[1].rec == Sentinel
    ensures GetEach(ins, [1], nodup) == (ins, Ok)
  {
    assert [1][..0] == [];
    assert ins[1 := ins[1]] == ins;
  }

  lemma CorrectedPicksLive(ins: seq<Input>, x: Line)
    requires |ins| == 2 && ins[0].rec == x && !ins[0].eod && ins[1].eod
    ensures Comparison(ins) == (1, [0])
  {
    assert !AllDone(ins) by {
      assert !ins[0].eod;
    }
    assert Minimum(LiveRecs(ins)) == x by {
      assert ins[..1] == [ins[0]];
      assert LiveRecs(ins[..1]) == [x];
      assert LiveRecs(ins) == [x];
    }
    assert Held(ins, x) == [true, false] by {
      LessIrreflexive(x);
    }
    MembershipYN();
    ComparisonUnfold(ins);
  }

  /** The mask and indices of the second of two inputs. */
  lemma MembershipNY()
    ensures Mask([false, true]) == 2 && Indices([false, true]) == [1]
  {
    MaskSnoc([], false);
    IndicesSnoc([], false);
    MaskSnoc([false], true);
    IndicesSnoc([false], true);
    assert [] + [false] == [false] && [false] + [true] == [false, true] && Pow2(1) == 2;
  }

  /** The mask and indices of the first of two inputs. */
  lemma MembershipYN()
    ensures Mask([true, false]) == 1 && Indices([true, false]) == [0]
  {
    MaskSnoc([], true);
    IndicesSnoc([], true);
    MaskSnoc([true], false);
    IndicesSnoc([true], false);
    assert [] + [true] == [true] && [true] + [false] == [true, false];
  }

  /** The input that shows it: one file holding the single line "Ж" (the
      bytes D0 96, which sort after the sentinel's C3 BF) and one holding
      "a". After the initial readings both cursors are live, "a" is the
      least line and goes out, and the get that follows leaves the first
      cursor holding "Ж" and the second done: the state SentinelOutranked
      starts from. */
  lemma SentinelOutrankedByFiles()
    ensures Less(Sentinel, [0xD0, 0x96])
    ensures GetEach([Fresh([48], [0xD0, 0x96, NL]), Fresh([49], [97, NL])], [0, 1], false) == ([Input([48], 1, [0xD0, 0x96], false, false, []), Input([49], 1, [97], false, false, [])], Ok)
    ensures Comparison([Input([48], 1, [0xD0, 0x96], false, false, []), Input([49], 1, [97], false, false, [])]) == (2, [1])
    ensures GetEach([Input([48], 1, [0xD0, 0x96], false, false, []), Input([49], 1, [97], false, false, [])], [1], false) == ([Input([48], 1, [0xD0, 0x96], false, false, []), Input([49], 1, Sentinel, true, true, [])], Ok)
  {
    FirstGetsOfTwo();
    assert !Less([0xD0, 0x96], [97]) && !Less([97], [97]);
    ComparisonOfLeast([Input([48], 1, [0xD0, 0x96], false, false, []), Input([49], 1, [97], false, false, [])], 1, [false, true]);
    MembershipNY();
    SecondGetOfTwo();
  }

  /** The initial readings of "Ж\n" and "a\n". */
  lemma FirstGetsOfTwo()
    ensures GetEach([Fresh([48], [0xD0, 0x96, NL]), Fresh([49], [97, NL])], [0, 1], false) == ([Input([48], 1, [0xD0, 0x96], false, false, []), Input([49], 1, [97], false, false, [])], Ok)
  {
    var a0, b0 := Fresh([48], [0xD0, 0x96, NL]), Fresh([49], [97, NL]);
    assert Cursor.Get(a0, false) == (Input([48], 1, [0xD0, 0x96], false, false, []), Ok) by {
      assert [0xD0, 0x96] + [NL] == [0xD0, 0x96, NL];
      GetOfOneLine([48], [0xD0, 0x96]);
    }
    assert Cursor.Get(b0, false) == (Input([49], 1, [97], false, false, []), Ok) by {
      assert [97] + [NL] == [97, NL];
      GetOfOneLine([49], [97]);
    }
    assert [0, 1][..1] == [0] && [0][..0] == [];
    assert GetEach([a0, b0], [0], false) == ([Input([48], 1, [0xD0, 0x96], false, false, []), b0], Ok) by {
      assert GetEach([a0, b0], [], false) == ([a0, b0], Ok);
      assert [a0, b0][0 := Input([48], 1, [0xD0, 0x96], false, false, [])] == [Input([48], 1, [0xD0, 0x96], false, false, []), b0];
    }
    assert [Input([48], 1, [0xD0, 0x96], false, false, []), b0][1 := Input([49], 1, [97], false, false, [])] == [Input([48], 1, [0xD0, 0x96], false, false, []), Input([49], 1, [97], false, false, [])];
  }

  /** The get on the cursor over "a\n" once it holds "a". */
  lemma SecondGetOfTwo()
    ensures GetEach([Input([48], 1, [0xD0, 0x96], false, false, []), Input([49], 1, [97], false, false, [])], [1], false) == ([Input([48], 1, [0xD0, 0x96], false, false, []), Input([49], 1, Sentinel, true, true, [])], Ok)
  {
    assert Cursor.Get(Input([49], 1, [97], false, false, []), false) == (Input([49], 1, Sentinel, true, true, []), Ok) by {
      GetOfOneLine([49], [97]);
    }
    assert [1][..0] == [];
    assert GetEach([Input([48], 1, [0xD0, 0x96], false, false, []), Input([49], 1, [97], false, false, [])], [], false) == ([Input([48], 1, [0xD0, 0x96], false, false, []), Input([49], 1, [97], false, false, [])], Ok);
    assert [Input([48], 1, [0xD0, 0x96], false, false, []), Input([49], 1, [97], false, false, [])][1 := Input([49], 1, Sentinel, true, true, [])] == [Input([48], 1, [0xD0, 0x96], false, false, []), Input([49], 1, Sentinel, true, true, [])];
  }

  /** A file holding one line: the first get holds that line, the second
      finds the file done. */
  lemma GetOfOneLine(name: Line, x: Line)
    requires NL !in x
    ensures Cursor.Get(Fresh(name, x + [NL]), false) == (Input(name, 1, x, false, false, []), Ok)
    ensures Cursor.Get(Input(name, 1, x, false, false, []), false) == (Input(name, 1, Sentinel, true, true, []), Ok)
  {
    assert Wellformed([x]);
    GetPos(name, [x], 0);
    GetPos(name, [x], 1);
    assert Text([x]) == x + [NL] by {
      assert [x][1..] == [];
    }
    assert Pos(name, [x], 0) == Fresh(name, x + [NL]) by {
      assert [x][0..] == [x];
    }
    assert Pos(name, [x], 1) == Input(name, 1, x, false, false, []) by {
      assert [x][1..] == [];
    }
  }
}
