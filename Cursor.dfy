/** The read-ahead cursor over one sorted input (the source's `inT`) and what
    one `get` does to it. */
module Cursor {
  import opened Lines

  /** One input. `unread` stands for the bufio.Reader: the bytes not yet
      read. `rec` is the line held for comparison, `count` the physical lines
      read, `eof` says the reader reported io.EOF, `eod` that the cursor
      holds the sentinel and has nothing more to offer. */
  datatype Input = Input(name: Line, count: nat, rec: Line, eof: bool, eod: bool, unread: Line)

  /** The error value `get` returns. */
  datatype Status = Ok | WrongSequence(name: Line, near: Line)

  /** An input before its first `get`: Go's zero values and the whole file
      unread. */
  function Fresh(name: Line, data: Line): (c: Input)
    ensures c.unread == data && c.rec == [] && c.count == 0 && !c.eof && !c.eod
  {
    Input(name, 0, [], false, false, data)
  }

  /** get: advance the cursor. A cursor whose reader already reported EOF
      turns into the sentinel; otherwise lines are read from the `readagain`
      label on. */
  function Get(c: Input, nodup: bool): (r: (Input, Status))
    ensures r.0.name == c.name
    ensures r.1.WrongSequence? ==> r.1 == WrongSequence(c.name, c.rec)
  {
    if c.eof then (c.(eod := true, rec := Sentinel), Ok)
    else ReadAgain(c, nodup)
  }

  /** The `readagain` loop of get: read one line, strip its '\n', count it,
      read again when -nodup is set and it repeats the held line, fail when
      it sorts before the held line, and hold it otherwise. */
  function ReadAgain(c: Input, nodup: bool): (r: (Input, Status))
    ensures r.0.name == c.name
    ensures r.1.WrongSequence? ==> r.1 == WrongSequence(c.name, c.rec)
    decreases |c.unread|
  {
    var read := ReadString(c.unread);
    if read.2 && read.0 == [] then
      (c.(unread := read.1, eof := true, eod := true, rec := Sentinel), Ok)
    else if nodup && Chomp(read.0) == c.rec then ReadAgain(Taken(c, read), nodup)
    else if Less(Chomp(read.0), c.rec) then (Taken(c, read), WrongSequence(c.name, c.rec))
    else (Taken(c, read).(rec := Chomp(read.0)), Ok)
  }

  /** The cursor once a physical line has been read: the reader moved past
      it, `eof` set when it was the unterminated last line, one more line
      counted. */
  function Taken(c: Input, read: (Line, Line, bool)): (d: Input)
    ensures d.count == c.count + 1 && d.unread == read.1 && d.rec == c.rec && d.eod == c.eod
  {
    c.(unread := read.1, eof := if read.2 then true else c.eof, count := c.count + 1)
  }

  /** At end of input with nothing read, the cursor is done: both flags set,
      the sentinel held, the line count unchanged. */
  lemma GetAtEnd(c: Input, nodup: bool)
    requires !c.eof && c.unread == []
    ensures Get(c, nodup) == (c.(eof := true, eod := true, rec := Sentinel), Ok)
  {
  }

  /** A cursor whose reader has reported EOF only turns into the sentinel;
      from then on get changes nothing at all. */
  lemma {:induction false} GetAfterEof(c: Input, nodup: bool)
    requires c.eof
    ensures Get(c, nodup).1 == Ok
    ensures Get(c, nodup).0 == c.(eod := true, rec := Sentinel)
    ensures Get(Get(c, nodup).0, nodup) == Get(c, nodup)
  {
  }

  /** One physical line read and not skipped: counted once, exactly one '\n'
      stripped, held unless it sorts before the held line, in which case the
      held line stays and the error names it. */
  lemma GetOneLine(c: Input, nodup: bool, raw: Line, rest: Line, atEof: bool)
    requires !c.eof && !c.eod && ReadString(c.unread) == (raw, rest, atEof) && raw != []
    requires !(nodup && Chomp(raw) == c.rec)
    ensures Get(c, nodup).0.count == c.count + 1
    ensures Get(c, nodup).0.unread == rest && c.unread == raw + rest
    ensures Get(c, nodup).0.eof == atEof && !Get(c, nodup).0.eod
    ensures Get(c, nodup).1 == Ok <==> !Less(Chomp(raw), c.rec)
    ensures Get(c, nodup).1 == Ok ==> Get(c, nodup).0.rec == Chomp(raw)
    ensures Get(c, nodup).1 != Ok ==> Get(c, nodup).0.rec == c.rec
    ensures atEof && Get(c, nodup).1 == Ok ==> Get(c, nodup).0.rec == raw
    ensures !atEof ==> raw == Chomp(raw) + [NL] && NL !in Chomp(raw)
  {
    var read := ReadString(c.unread);
    assert Get(c, nodup) == ReadAgain(c, nodup);
    if Less(Chomp(raw), c.rec) {
      assert Get(c, nodup) == (Taken(c, read), WrongSequence(c.name, c.rec));
    } else {
      assert Get(c, nodup) == (Taken(c, read).(rec := Chomp(raw)), Ok);
    }
    if atEof {
      assert Chomp(raw) == raw;
    } else {
      assert Chomp(raw) == raw[..|raw| - 1];
    }
  }

  /** Whatever get does, the held line never goes down: a new line is held
      only when it does not sort before the old one (the sentinel aside),
      and on the error path the old line stays. */
  lemma {:induction false} GetNonDecreasing(c: Input, nodup: bool)
    ensures var (d, st) := Get(c, nodup);
      (st == Ok && !d.eod ==> !Less(d.rec, c.rec)) && (st != Ok ==> d.rec == c.rec)
  {
    if !c.eof {
      ReadAgainNonDecreasing(c, nodup);
    }
  }

  lemma {:induction false} ReadAgainNonDecreasing(c: Input, nodup: bool)
    ensures var (d, st) := ReadAgain(c, nodup);
      (st == Ok && !d.eod ==> !Less(d.rec, c.rec)) && (st != Ok ==> d.rec == c.rec)
    decreases |c.unread|
  {
    var read := ReadString(c.unread);
    if !(read.2 && read.0 == []) && nodup && Chomp(read.0) == c.rec {
      ReadAgainNonDecreasing(Taken(c, read), nodup);
    }
  }

  /** With -nodup, a line that is held anew never repeats the line held
      before. */
  lemma {:induction false} GetSkipsRepeats(c: Input)
    ensures var (d, st) := Get(c, true);
      st == Ok && !d.eod ==> d.rec != c.rec
  {
    if !c.eof {
      ReadAgainSkipsRepeats(c);
    }
  }

  lemma {:induction false} ReadAgainSkipsRepeats(c: Input)
    ensures var (d, st) := ReadAgain(c, true);
      st == Ok && !d.eod ==> d.rec != c.rec
    decreases |c.unread|
  {
    var read := ReadString(c.unread);
    if !(read.2 && read.0 == []) && Chomp(read.0) == c.rec {
      ReadAgainSkipsRepeats(Taken(c, read));
    }
  }

  /** `d` is `c` after reading on: what `d` has yet to read is what `c`
      had yet to read less a prefix, and `d` counted exactly the physical
      lines of that prefix. */
  predicate CountedLines(c: Input, d: Input)
  {
    |d.unread| <= |c.unread| && c.unread == c.unread[..|c.unread| - |d.unread|] + d.unread &&
    d.count == c.count + LineCount(c.unread[..|c.unread| - |d.unread|])
  }

  /** The count goes up by exactly the number of physical lines taken off
      the reader, repeats skipped under -nodup included. */
  lemma {:induction false} GetCountsLines(c: Input, nodup: bool)
    ensures CountedLines(c, Get(c, nodup).0)
  {
    if !c.eof {
      ReadAgainCountsLines(c, nodup);
    } else {
      assert c.unread[..|c.unread| - |c.unread|] == [];
    }
  }

  lemma {:induction false} ReadAgainCountsLines(c: Input, nodup: bool)
    ensures CountedLines(c, ReadAgain(c, nodup).0)
    decreases |c.unread|
  {
    var read := ReadString(c.unread);
    if read.2 && read.0 == [] {
      assert c.unread[..0] == [];
    } else if nodup && Chomp(read.0) == c.rec {
      var c1 := Taken(c, read);
      assert ReadAgain(c, nodup) == ReadAgain(c1, nodup);
      ReadAgainCountsLines(c1, nodup);
      RepeatCounted(c, read, ReadAgain(c1, nodup).0);
    } else if Less(Chomp(read.0), c.rec) {
      assert ReadAgain(c, nodup).0 == Taken(c, read);
      FirstLineCounted(c, read);
    } else {
      assert ReadAgain(c, nodup).0 == Taken(c, read).(rec := Chomp(read.0));
      FirstLineCounted(c, read);
    }
  }

  /** The count step of ReadAgainCountsLines for a line that is kept or
      fails the order check. */
  lemma FirstLineCounted(c: Input, read: (Line, Line, bool))
    requires read == ReadString(c.unread) && read.0 != []
    ensures CountedLines(c, Taken(c, read))
    ensures CountedLines(c, Taken(c, read).(rec := Chomp(read.0)))
  {
    assert c.unread[..|c.unread| - |read.1|] == read.0;
    OneMoreLine(read.0, []);
    assert read.0 + [] == read.0;
  }

  /** The count step of ReadAgainCountsLines for a line skipped as a repeat. */
  lemma RepeatCounted(c: Input, read: (Line, Line, bool), d: Input)
    requires read == ReadString(c.unread) && read.0 != []
    requires CountedLines(Taken(c, read), d)
    ensures CountedLines(c, d)
  {
    var raw, rest := read.0, read.1;
    var mid := rest[..|rest| - |d.unread|];
    assert rest == mid + d.unread;
    assert c.unread == (raw + mid) + d.unread;
    assert c.unread[..|c.unread| - |d.unread|] == raw + mid;
    OneMoreLine(raw, mid);
  }

  /** A line as ReadString returns it, followed by more input, adds one to
      the line count. */
  lemma OneMoreLine(raw: Line, more: Line)
    requires raw != []
    requires NL in raw ==> raw[|raw| - 1] == NL && NL !in raw[..|raw| - 1]
    requires NL !in raw ==> more == []
    ensures LineCount(raw + more) == 1 + LineCount(more)
  {
    if NL in raw {
      LineCountOfTerminated(raw, more);
    } else {
      assert raw + more == raw;
      LineCountOfUnterminated(raw);
    }
  }

  /** What is left to do for a cursor: bytes still unread count twice, and a
      cursor not yet done has one or two more status changes ahead. */
  function Measure(c: Input): nat
  {
    2 * |c.unread| + (if c.eod then 0 else if c.eof then 1 else 2)
  }

  /** Consistency of a cursor's flags: once the reader reported EOF nothing
      is left unread. */
  predicate Settled(c: Input)
  {
    c.eof ==> c.unread == []
  }

  /** get keeps the flags consistent, and on a cursor that is not done it
      always makes progress, so a loop that only advances cursors that are
      not done ends. */
  lemma {:induction false} GetProgress(c: Input, nodup: bool)
    requires Settled(c)
    ensures Settled(Get(c, nodup).0)
    ensures !c.eod ==> Measure(Get(c, nodup).0) < Measure(c)
  {
    if !c.eof {
      ReadAgainProgress(c, nodup);
    }
  }

  lemma {:induction false} ReadAgainProgress(c: Input, nodup: bool)
    requires Settled(c)
    ensures Settled(ReadAgain(c, nodup).0)
    ensures !c.eod ==> Measure(ReadAgain(c, nodup).0) < Measure(c)
    decreases |c.unread|
  {
    var read := ReadString(c.unread);
    if !(read.2 && read.0 == []) && nodup && Chomp(read.0) == c.rec {
      ReadAgainProgress(Taken(c, read), nodup);
    }
  }

  /** Every line still to be read sorts before the sentinel. */
  predicate BelowSentinel(u: Line)
    decreases |u|
  {
    var read := ReadString(u);
    read.0 == [] || (Less(Chomp(read.0), Sentinel) && BelowSentinel(read.1))
  }

  /** The state the source's use of an in-band sentinel relies on: a cursor
      that is done holds the sentinel, one that is not holds a line below it,
      and so do all the lines it has yet to read. */
  predicate Sound(c: Input)
  {
    Settled(c) && BelowSentinel(c.unread) &&
    (c.eod ==> c.eof && c.rec == Sentinel) &&
    (!c.eod ==> Less(c.rec, Sentinel))
  }

  /** A fresh input is sound exactly when all of its lines sort before the
      sentinel. */
  lemma FreshSound(name: Line, data: Line)
    ensures Sound(Fresh(name, data)) <==> BelowSentinel(data)
  {
  }

  /** get keeps a cursor sound. */
  lemma {:induction false} GetKeepsSound(c: Input, nodup: bool)
    requires Sound(c)
    ensures Sound(Get(c, nodup).0)
  {
    if !c.eof {
      ReadAgainKeepsSound(c, nodup);
    }
  }

  lemma {:induction false} ReadAgainKeepsSound(c: Input, nodup: bool)
    requires Sound(c) && !c.eof
    ensures Sound(ReadAgain(c, nodup).0)
    decreases |c.unread|
  {
    var read := ReadString(c.unread);
    if !(read.2 && read.0 == []) {
      var c1 := Taken(c, read);
      if nodup && Chomp(read.0) == c.rec {
        if !c1.eof {
          ReadAgainKeepsSound(c1, nodup);
        } else {
          assert c1.unread == [];
          assert ReadAgain(c1, nodup).0 == c1.(eod := true, rec := Sentinel, unread := []);
        }
      }
    }
  }

  /** The `readagain` loop of get on the cursor's fields: read one line, and
      again for as long as -nodup skips it. */
  method ReadAgainLoop(c: Input, nodup: bool) returns (d: Input, st: Status)
    ensures (d, st) == ReadAgain(c, nodup)
  {
    d := c;
    while true
      invariant ReadAgain(d, nodup) == ReadAgain(c, nodup)
      decreases |d.unread|
    {
      ghost var d0 := d;
      var read := ReadString(d.unread);
      var rec := read.0;
      if read.2 && |rec| == 0 {
        d := d.(unread := read.1, eof := true, eod := true, rec := Sentinel);
        assert ReadAgain(d0, nodup) == (d, Ok);
        return d, Ok;
      }
      if read.2 {
        d := d.(eof := true);
      }
      d := d.(unread := read.1);
      if rec[|rec| - 1] == NL {
        rec := rec[..|rec| - 1];
      }
      d := d.(count := d.count + 1);
      assert d == Taken(d0, read) && rec == Chomp(read.0);
      if nodup && rec == d.rec {
        assert ReadAgain(d0, nodup) == ReadAgain(d, nodup);
        continue;
      }
      if Less(rec, d.rec) {
        assert ReadAgain(d0, nodup) == (d, WrongSequence(d.name, d.rec));
        return d, WrongSequence(d.name, d.rec);
      }
      d := d.(rec := rec);
      assert ReadAgain(d0, nodup) == (d, Ok);
      return d, Ok;
    }
  }
}
