/** The pattern space: one Y/N label per subset of the N inputs, and the
    reversal of the argument list that lines argument positions up with label
    positions. */
module Patterns {

  function Pow2(n: nat): (p: nat)
    ensures p >= 1
  {
    if n == 0 then 1 else 2 * Pow2(n - 1)
  }

  /** The characters a label is made of. */
  predicate IsLabelChar(c: char)
  {
    c == 'N' || c == 'Y'
  }

  /** The label of pattern `v` over `n` inputs, built as the inner loop of
      allPats builds it: from the most significant of the n bits down, a 'Y'
      when the remaining value reaches that bit's weight (which is then
      taken off), an 'N' otherwise. */
  function Label(v: nat, n: nat): (s: string)
    ensures |s| == n
    ensures forall j :: 0 <= j < |s| ==> IsLabelChar(s[j])
  {
    if n == 0 then ""
    else if v >= Pow2(n - 1) then "Y" + Label(v - Pow2(n - 1), n - 1)
    else "N" + Label(v, n - 1)
  }

  /** A label read as a binary number, most significant digit first, with
      Y as 1 and N as 0. */
  function Value(s: string): nat
  {
    if s == "" then 0 else (if s[0] == 'Y' then Pow2(|s| - 1) else 0) + Value(s[1..])
  }

  /** Reading a label back gives its index. */
  lemma {:induction false} ValueOfLabel(v: nat, n: nat)
    requires v < Pow2(n)
    ensures Value(Label(v, n)) == v
  {
    if n > 0 {
      if v >= Pow2(n - 1) {
        ValueOfLabel(v - Pow2(n - 1), n - 1);
        assert Label(v, n)[1..] == Label(v - Pow2(n - 1), n - 1);
      } else {
        ValueOfLabel(v, n - 1);
        assert Label(v, n)[1..] == Label(v, n - 1);
      }
    }
  }

  /** Every Y/N string of length n is the label of exactly its own value,
      and that value is one of the 2^n pattern indices. */
  lemma {:induction false} LabelOfValue(s: string)
    requires forall j :: 0 <= j < |s| ==> IsLabelChar(s[j])
    ensures Value(s) < Pow2(|s|)
    ensures Label(Value(s), |s|) == s
  {
    if s != "" {
      LabelOfValue(s[1..]);
      assert s == [s[0]] + s[1..];
    }
  }

  /** Distinct indices below 2^n have distinct labels. */
  lemma LabelsDistinct(v: nat, w: nat, n: nat)
    requires v < Pow2(n) && w < Pow2(n) && v != w
    ensures Label(v, n) != Label(w, n)
  {
    ValueOfLabel(v, n);
    ValueOfLabel(w, n);
  }

  /** The label of a membership pattern given as one flag per input: input i
      is present when `held[i]`; the last input gives the first character. */
  function Render(held: seq<bool>): (s: string)
    ensures |s| == |held|
    ensures forall j :: 0 <= j < |s| ==> (s[j] == 'Y' <==> held[|held| - 1 - j])
    ensures forall j :: 0 <= j < |s| ==> IsLabelChar(s[j])
  {
    if held == [] then ""
    else [if held[|held| - 1] then 'Y' else 'N'] + Render(held[..|held| - 1])
  }

  /** The pattern index of a membership: bit i set when input i is present
      (the source's `curPatInx |= 1 << i`, bits being set once each). */
  function Mask(held: seq<bool>): (m: nat)
    ensures m < Pow2(|held|)
  {
    if held == [] then 0
    else Mask(held[..|held| - 1]) + (if held[|held| - 1] then Pow2(|held| - 1) else 0)
  }

  /** The label of a membership mask has a 'Y' exactly at the present inputs,
      counted from the right; the mask is a valid pattern index. */
  lemma {:induction false} MaskLabel(held: seq<bool>)
    ensures Value(Render(held)) == Mask(held)
    ensures Mask(held) < Pow2(|held|)
    ensures Label(Mask(held), |held|) == Render(held)
  {
    if held != [] {
      MaskLabel(held[..|held| - 1]);
      assert Render(held)[1..] == Render(held[..|held| - 1]);
    }
    LabelOfValue(Render(held));
  }

  /** A membership with at least one present input never gives the
      all-absent pattern 0. */
  lemma {:induction false} MaskPositive(held: seq<bool>, i: nat)
    requires i < |held| && held[i]
    ensures Mask(held) >= 1
  {
    if i < |held| - 1 {
      MaskPositive(held[..|held| - 1], i);
    }
  }

  /** allPats: all 2^n labels in index order; none at all for n = 0. */
  method AllPats(n: nat) returns (pats: seq<string>)
    ensures n == 0 ==> pats == []
    ensures n > 0 ==> |pats| == Pow2(n)
    ensures forall i :: 0 <= i < |pats| ==> pats[i] == Label(i, n)
    ensures forall i :: 0 <= i < |pats| ==> |pats[i]| == n && Value(pats[i]) == i
  {
    if n == 0 {
      return [];
    }
    pats := [];
    var i := 0;
    while i < Pow2(n)
      invariant i <= Pow2(n) && |pats| == i
      invariant forall k :: 0 <= k < i ==> pats[k] == Label(k, n)
    {
      var pat := LabelOf(i, n);
      pats := pats + [pat];
      i := i + 1;
    }
    forall k | 0 <= k < |pats|
      ensures |pats[k]| == n && Value(pats[k]) == k
    {
      ValueOfLabel(k, n);
    }
  }

  /** The inner loop of allPats: the label of `i`, built letter by letter
      from the most significant of the n bits down. */
  method LabelOf(i: nat, n: nat) returns (pat: string)
    ensures pat == Label(i, n)
  {
    var val: nat, pos: nat := i, n;
    pat := "";
    while pos > 0
      invariant pos <= n
      invariant pat + Label(val, pos) == Label(i, n)
    {
      ghost var rest := Label(val, pos);
      if val >= Pow2(pos - 1) {
        assert rest == "Y" + Label(val - Pow2(pos - 1), pos - 1);
        assert pat + rest == (pat + "Y") + Label(val - Pow2(pos - 1), pos - 1);
        pat := pat + "Y";
        val := val - Pow2(pos - 1);
      } else {
        assert rest == "N" + Label(val, pos - 1);
        assert pat + rest == (pat + "N") + Label(val, pos - 1);
        pat := pat + "N";
      }
      pos := pos - 1;
    }
    assert pat + Label(val, 0) == pat;
  }

  /** The reversal of a sequence. */
  function Reversed<T>(s: seq<T>): (r: seq<T>)
    ensures |r| == |s|
  {
    if s == [] then [] else [s[|s| - 1]] + Reversed(s[..|s| - 1])
  }

  lemma {:induction false} ReversedAt<T>(s: seq<T>, k: nat)
    requires k < |s|
    ensures |Reversed(s)| == |s|
    ensures Reversed(s)[k] == s[|s| - 1 - k]
  {
    if k > 0 {
      ReversedAt(s[..|s| - 1], k - 1);
    } else if |s| > 1 {
      ReversedAt(s[..|s| - 1], 0);
    } else {
      assert Reversed(s[..0]) == [];
    }
  }

  /** Reversing twice gives the original back. */
  lemma ReversedTwice<T>(s: seq<T>)
    ensures Reversed(Reversed(s)) == s
  {
    if s != [] {
      ReversedAt(s, 0);
      var r := Reversed(s);
      ReversedAt(r, 0);
      forall k | 0 <= k < |s|
        ensures Reversed(r)[k] == s[k]
      {
        ReversedAt(r, k);
        ReversedAt(s, |s| - 1 - k);
      }
    } else {
      assert Reversed(s) == [];
    }
  }

  /** A sequence whose element k is element len-1-k of another is that
      other's reversal. */
  lemma ReversedOf<T>(s: seq<T>, r: seq<T>)
    requires |r| == |s| && forall k :: 0 <= k < |s| ==> r[k] == s[|s| - 1 - k]
    ensures r == Reversed(s)
  {
    forall k | 0 <= k < |s|
      ensures r[k] == Reversed(s)[k]
    {
      ReversedAt(s, k);
    }
  }

  /** flip: reverses the argument list in place, swapping from both ends
      until the middle is reached. */
  method Flip(ss: array<string>)
    modifies ss
    ensures ss[..] == Reversed(old(ss[..]))
  {
    var n := ss.Length;
    var i := 0;
    while i < n
      invariant i <= n / 2
      invariant forall k :: 0 <= k < i ==> ss[k] == old(ss[n - 1 - k]) && ss[n - 1 - k] == old(ss[k])
      invariant forall k :: i <= k < n - i ==> ss[k] == old(ss[k])
    {
      var s := ss[i];
      if i + 1 > n / 2 {
        break;
      }
      ss[i] := ss[n - 1 - i];
      ss[n - 1 - i] := s;
      i := i + 1;
    }
    ghost var was := old(ss[..]);
    forall k | 0 <= k < n
      ensures ss[..][k] == was[n - 1 - k]
    {
      if n - 1 - k < i {
        assert ss[n - 1 - (n - 1 - k)] == was[n - 1 - k];
      }
    }
    ReversedOf(was, ss[..]);
  }
}
