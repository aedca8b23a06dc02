/** Byte strings as the merge engine sees them: Go strings compared byte by
    byte, the line reader of package bufio, and the exhaustion sentinel. */
module Lines {

  /** One byte of a Go string. */
  type Byte = x: int | 0 <= x < 256

  /** A Go string: an immutable sequence of bytes. */
  type Line = seq<Byte>

  /** The line terminator '\n'. */
  const NL: Byte := 10

  /** The value an exhausted cursor holds. In the source it is
      `string(byte(0xFF))`; Go converts an integer to a string as the UTF-8
      encoding of that code point, so the value is U+00FF, the two bytes
      0xC3 0xBF. */
  const Sentinel: Line := [0xC3, 0xBF]

  /** Go's `a < b` on strings: lexicographic order on the bytes, a proper
      prefix coming first. */
  predicate Less(a: Line, b: Line)
  {
    if a == [] then b != []
    else if b == [] then false
    else a[0] < b[0] || (a[0] == b[0] && Less(a[1..], b[1..]))
  }

  lemma {:induction false} LessIrreflexive(a: Line)
    ensures !Less(a, a)
  {
    if a != [] {
      LessIrreflexive(a[1..]);
    }
  }

  lemma {:induction false} LessTransitive(a: Line, b: Line, c: Line)
    requires Less(a, b) && Less(b, c)
    ensures Less(a, c)
  {
    if a != [] && b != [] && c != [] && a[0] == b[0] == c[0] {
      LessTransitive(a[1..], b[1..], c[1..]);
    }
  }

  /** Two distinct strings are always ordered one way or the other. */
  lemma {:induction false} LessTotal(a: Line, b: Line)
    ensures a == b || Less(a, b) || Less(b, a)
  {
    if a != [] && b != [] && a[0] == b[0] {
      LessTotal(a[1..], b[1..]);
      if a[1..] == b[1..] {
        assert a == [a[0]] + a[1..] && b == [b[0]] + b[1..];
      }
    }
  }

  lemma {:induction false} LessAsymmetric(a: Line, b: Line)
    requires Less(a, b)
    ensures !Less(b, a)
  {
    if a != [] && b != [] && a[0] == b[0] {
      LessAsymmetric(a[1..], b[1..]);
    }
  }

  /** The order of Go strings as the language defines it: `a` is a proper
      prefix of `b`, or at the first position where they differ `a` has the
      smaller byte. */
  predicate ByteOrder(a: Line, b: Line)
  {
    (|a| < |b| && a == b[..|a|]) ||
    exists k :: 0 <= k < |a| && k < |b| && a[..k] == b[..k] && a[k] < b[k]
  }

  /** The recursive comparison is exactly that order, in both directions. */
  lemma {:induction false} LessMeaning(a: Line, b: Line)
    ensures Less(a, b) <==> ByteOrder(a, b)
  {
    if a == [] {
      assert b != [] ==> a == b[..0];
    } else if b != [] {
      LessMeaning(a[1..], b[1..]);
      if a[0] < b[0] {
        assert a[..0] == b[..0];
      } else if a[0] == b[0] {
        TailOrder(a, b);
      }
    }
  }

  /** Strings with the same first byte are ordered as their tails. */
  lemma {:induction false} TailOrder(a: Line, b: Line)
    requires a != [] && b != [] && a[0] == b[0]
    ensures ByteOrder(a, b) <==> ByteOrder(a[1..], b[1..])
  {
    var a', b' := a[1..], b[1..];
    assert a == [a[0]] + a' && b == [b[0]] + b';
    if |a| < |b| && a == b[..|a|] {
      assert a' == b'[..|a'|];
    }
    if k :| 0 <= k < |a| && k < |b| && a[..k] == b[..k] && a[k] < b[k] {
      assert k > 0;
      assert a'[..k - 1] == a[1..k] == b[1..k] == b'[..k - 1];
      assert a'[k - 1] < b'[k - 1];
    }
    if k :| 0 <= k < |a'| && k < |b'| && a'[..k] == b'[..k] && a'[k] < b'[k] {
      assert a[..k + 1] == [a[0]] + a'[..k] && b[..k + 1] == [b[0]] + b'[..k];
      assert a[k + 1] < b[k + 1];
    }
  }

  /** `ReadString('\n')` of a bufio.Reader over the unread bytes `r`: the
      bytes up to and including the first '\n', or, when there is none, all
      that is left together with io.EOF (`atEof`). */
  function ReadString(r: Line): (res: (Line, Line, bool))
    ensures res.0 + res.1 == r
    ensures res.2 <==> NL !in res.0
    ensures res.2 ==> res.1 == []
    ensures !res.2 ==> |res.0| > 0 && res.0[|res.0| - 1] == NL && NL !in res.0[..|res.0| - 1]
  {
    if r == [] then ([], [], true)
    else if r[0] == NL then ([NL], r[1..], false)
    else
      var (line, rest, atEof) := ReadString(r[1..]);
      assert line != [] ==> ([r[0]] + line)[..|line|] == [r[0]] + line[..|line| - 1];
      ([r[0]] + line, rest, atEof)
  }

  /** A read line without its terminator: exactly one trailing '\n' goes. */
  function Chomp(raw: Line): (line: Line)
    ensures raw == line || raw == line + [NL]
    ensures |raw| > 0 && raw[|raw| - 1] == NL ==> |line| == |raw| - 1
  {
    if |raw| > 0 && raw[|raw| - 1] == NL then raw[..|raw| - 1] else raw
  }

  /** How many '\n' bytes `s` holds. */
  function Terminators(s: Line): nat
  {
    if s == [] then 0 else (if s[0] == NL then 1 else 0) + Terminators(s[1..])
  }

  /** The number of physical lines in `s`: one per terminator, plus one for a
      final line that has none. */
  function LineCount(s: Line): nat
  {
    Terminators(s) + (if s != [] && s[|s| - 1] != NL then 1 else 0)
  }

  lemma {:induction false} TerminatorsAppend(a: Line, b: Line)
    ensures Terminators(a + b) == Terminators(a) + Terminators(b)
  {
    if a == [] {
      assert a + b == b;
    } else {
      assert (a + b)[1..] == a[1..] + b;
      TerminatorsAppend(a[1..], b);
    }
  }

  /** Reading one terminated line off the front of `s` leaves one line fewer. */
  lemma LineCountOfTerminated(raw: Line, rest: Line)
    requires |raw| > 0 && raw[|raw| - 1] == NL && NL !in raw[..|raw| - 1]
    ensures LineCount(raw + rest) == 1 + LineCount(rest)
  {
    TerminatorsAppend(raw[..|raw| - 1], [NL]);
    assert raw[..|raw| - 1] + [NL] == raw;
    assert Terminators([NL]) == 1;
    TerminatorsZero(raw[..|raw| - 1]);
    TerminatorsAppend(raw, rest);
    if rest != [] {
      assert (raw + rest)[|raw + rest| - 1] == rest[|rest| - 1];
    }
  }

  /** A non-empty remainder without a terminator is one line. */
  lemma {:induction false} LineCountOfUnterminated(raw: Line)
    requires raw != [] && NL !in raw
    ensures LineCount(raw) == 1
  {
    TerminatorsZero(raw);
  }

  lemma {:induction false} TerminatorsZero(s: Line)
    requires NL !in s
    ensures Terminators(s) == 0
  {
    if s != [] {
      assert s[0] != NL;
      assert forall k :: 0 <= k < |s| - 1 ==> s[1..][k] == s[k + 1];
      TerminatorsZero(s[1..]);
    }
  }
}
