/** Text helpers shared by the model: decimal rendering of integers (Python's
    `str(int)`, JavaScript template interpolation of an integer), parsing of
    decimal digit strings, single-character `split`, and substring search. */
module Strings {

  predicate IsDigit(c: char) {
    '0' <= c <= '9'
  }

  predicate AllDigits(s: string) {
    forall i :: 0 <= i < |s| ==> IsDigit(s[i])
  }

  function DigitChar(d: nat): (c: char)
    requires d < 10
    ensures IsDigit(c)
    ensures c as int - '0' as int == d
  {
    ('0' as int + d) as char
  }

  function DigitValue(c: char): (d: nat)
    requires IsDigit(c)
    ensures d < 10
    ensures DigitChar(d) == c
  {
    c as int - '0' as int
  }

  /** Decimal text of a natural number, without leading zeros. */
  function NatToString(n: nat): (s: string)
    ensures 1 <= |s|
    ensures AllDigits(s)
    ensures n < 10 <==> |s| == 1
    ensures 1 < |s| ==> s[0] != '0'
    decreases n
  {
    if n < 10 then [DigitChar(n)] else NatToString(n / 10) + [DigitChar(n % 10)]
  }

  /** Decimal text of an integer, with a leading '-' when negative. */
  function IntToString(i: int): (s: string)
    ensures 1 <= |s|
    ensures i >= 0 ==> s == NatToString(i)
    ensures i < 0 ==> s == "-" + NatToString(-i)
  {
    if i < 0 then "-" + NatToString(-i) else NatToString(i)
  }

  /** Decimal text holds nothing but digits and a leading minus sign. */
  lemma IntToStringFree(i: int, c: char)
    requires !IsDigit(c) && c != '-'
    ensures c !in IntToString(i)
  {
    var d := if i < 0 then NatToString(-i) else NatToString(i);
    assert forall k :: 0 <= k < |d| ==> IsDigit(d[k]);
  }

  /** Value of a (possibly empty) string of decimal digits, most significant first. */
  function DigitsValue(s: string): nat
    requires AllDigits(s)
    decreases |s|
  {
    if |s| == 0 then 0 else DigitsValue(s[..|s| - 1]) * 10 + DigitValue(s[|s| - 1])
  }

  /** Reading back the decimal text of `n` yields `n`. */
  lemma {:induction false} DigitsValueOfNatToString(n: nat)
    ensures DigitsValue(NatToString(n)) == n
    decreases n
  {
    var s := NatToString(n);
    if n >= 10 {
      var p := NatToString(n / 10);
      assert s[..|s| - 1] == p;
      DigitsValueOfNatToString(n / 10);
    }
  }

  /** Distinct numbers render as distinct texts. */
  lemma NatToStringInjective(a: nat, b: nat)
    requires NatToString(a) == NatToString(b)
    ensures a == b
  {
    DigitsValueOfNatToString(a);
    DigitsValueOfNatToString(b);
  }

  // ---------------------------------------------------------------- search

  predicate IsPrefix(p: string, s: string) {
    |p| <= |s| && s[..|p|] == p
  }

  predicate IsSuffix(p: string, s: string) {
    |p| <= |s| && s[|s| - |p|..] == p
  }

  /** `t in s` for strings: `t` occurs somewhere in `s` as a contiguous block. */
  predicate Contains(s: string, t: string)
    decreases |s|
  {
    IsPrefix(t, s) || (|s| > 0 && Contains(s[1..], t))
  }

  lemma {:induction false} ContainsAt(s: string, t: string, i: nat)
    requires i + |t| <= |s| && s[i..i + |t|] == t
    ensures Contains(s, t)
    decreases i
  {
    if i > 0 {
      assert s[1..][i - 1..i - 1 + |t|] == t;
      ContainsAt(s[1..], t, i - 1);
    }
  }

  lemma {:induction false} ContainsWitness(s: string, t: string) returns (i: nat)
    requires Contains(s, t)
    ensures i + |t| <= |s| && s[i..i + |t|] == t
    decreases |s|
  {
    if IsPrefix(t, s) {
      i := 0;
    } else {
      var j := ContainsWitness(s[1..], t);
      i := j + 1;
      assert s[i..i + |t|] == s[1..][j..j + |t|];
    }
  }

  /** A single character occurs as a substring exactly when it is an element. */
  lemma ContainsChar(s: string, c: char)
    ensures Contains(s, [c]) <==> c in s
  {
    if c in s {
      var i :| 0 <= i < |s| && s[i] == c;
      assert s[i..i + 1] == [c];
      ContainsAt(s, [c], i);
    }
    if Contains(s, [c]) {
      var i := ContainsWitness(s, [c]);
      assert s[i] == c;
    }
  }

  /** Index of the first occurrence of `c` in `s`, or `|s|` when there is none. */
  function IndexOfChar(s: string, c: char): (i: nat)
    ensures i <= |s|
    ensures i < |s| ==> s[i] == c
    ensures forall j :: 0 <= j < i ==> s[j] != c
    ensures i == |s| <==> c !in s
    decreases |s|
  {
    if |s| == 0 then 0 else if s[0] == c then 0 else 1 + IndexOfChar(s[1..], c)
  }

  // ----------------------------------------------------------------- split

  /** `s.split(c)` for a one-character separator (Python and JavaScript agree
      here): always at least one field; empty fields are kept. */
  function Split(s: string, c: char): (parts: seq<string>)
    ensures 1 <= |parts|
    decreases |s|
  {
    var i := IndexOfChar(s, c);
    if i == |s| then [s] else [s[..i]] + Split(s[i + 1..], c)
  }

  /** The inverse of `Split`: fields glued back with the separator. */
  function Join(parts: seq<string>, c: char): string
    decreases |parts|
  {
    if |parts| == 0 then ""
    else if |parts| == 1 then parts[0]
    else parts[0] + [c] + Join(parts[1..], c)
  }

  lemma {:induction false} JoinSplit(s: string, c: char)
    ensures Join(Split(s, c), c) == s
    decreases |s|
  {
    var i := IndexOfChar(s, c);
    if i < |s| {
      var rest := Split(s[i + 1..], c);
      var parts := [s[..i]] + rest;
      assert Split(s, c) == parts;
      assert parts[1..] == rest;
      JoinSplit(s[i + 1..], c);
      assert Join(parts, c) == s[..i] + [c] + Join(rest, c);
      assert s == s[..i] + [c] + s[i + 1..];
    }
  }

  /** No field holds the separator. */
  lemma {:induction false} SplitFieldsFree(s: string, c: char)
    ensures forall k :: 0 <= k < |Split(s, c)| ==> c !in Split(s, c)[k]
    decreases |s|
  {
    var i := IndexOfChar(s, c);
    if i < |s| {
      var tail := s[i + 1..];
      SplitFieldsFree(tail, c);
      var rest := Split(tail, c);
      var parts := [s[..i]] + rest;
      assert Split(s, c) == parts;
      forall k | 0 <= k < |parts| ensures c !in parts[k] {
        if k > 0 {
          assert parts[k] == rest[k - 1];
        }
      }
    }
  }

  /** Splitting text that does not contain the separator gives it back whole. */
  lemma SplitNoSeparator(s: string, c: char)
    requires c !in s
    ensures Split(s, c) == [s]
  {
  }

  /** Splitting `a + c + b`, where `a` holds no separator, peels `a` off. */
  lemma SplitCons(a: string, c: char, b: string)
    requires c !in a
    ensures Split(a + [c] + b, c) == [a] + Split(b, c)
  {
    var s := a + [c] + b;
    assert IndexOfChar(s, c) == |a| by {
      assert s[|a|] == c;
      assert forall j :: 0 <= j < |a| ==> s[j] == a[j];
    }
    assert s[..|a|] == a;
    assert s[|a| + 1..] == b;
  }

  lemma SplitTwo(f0: string, f1: string, c: char)
    requires c !in f0 && c !in f1
    ensures Split(f0 + [c] + f1, c) == [f0, f1]
  {
    SplitCons(f0, c, f1);
  }

  lemma SplitThree(f0: string, f1: string, f2: string, c: char)
    requires c !in f0 && c !in f1 && c !in f2
    ensures Split(f0 + [c] + f1 + [c] + f2, c) == [f0, f1, f2]
  {
    var g := f1 + [c] + f2;
    var s := f0 + [c] + f1 + [c] + f2;
    assert s == f0 + [c] + g;
    SplitTwo(f1, f2, c);
    SplitCons(f0, c, g);
  }

  /** Four separator-free fields glued with the separator split back apart. */
  lemma SplitFour(f0: string, f1: string, f2: string, f3: string, c: char)
    requires c !in f0 && c !in f1 && c !in f2 && c !in f3
    ensures Split(f0 + [c] + f1 + [c] + f2 + [c] + f3, c) == [f0, f1, f2, f3]
  {
    var g := f1 + [c] + f2 + [c] + f3;
    var s := f0 + [c] + f1 + [c] + f2 + [c] + f3;
    assert s[..|f0|] == f0;
    assert s[|f0| + 1..] == g;
    SplitAt(s, |f0|, c);
    SplitThree(f1, f2, f3, c);
  }

  /** Splitting at the first separator, stated for a whole text and an index. */
  lemma SplitAt(s: string, i: nat, c: char)
    requires i < |s| && s[i] == c && c !in s[..i]
    ensures Split(s, c) == [s[..i]] + Split(s[i + 1..], c)
  {
    assert forall j :: 0 <= j < i ==> s[j] == s[..i][j];
    assert IndexOfChar(s, c) == i;
  }

  /** Text before the first `c` (the whole text when there is none): `s.split(c)[0]`. */
  function FirstField(s: string, c: char): (f: string)
    ensures c !in f
    ensures IsPrefix(f, s)
    ensures f == s[..IndexOfChar(s, c)]
  {
    var parts := Split(s, c);
    var i := IndexOfChar(s, c);
    assert parts[0] == s[..i];
    parts[0]
  }

  /** Text after the last `c` (the whole text when there is none). */
  function LastField(s: string, c: char): (f: string)
    ensures c !in f
    ensures IsSuffix(f, s)
    decreases |s|
  {
    var i := IndexOfChar(s, c);
    if i == |s| then s else LastField(s[i + 1..], c)
  }

  /** It is the last of the fields: `s.split(c)[-1]`. */
  lemma {:induction false} LastFieldIsLastPart(s: string, c: char)
    ensures var parts := Split(s, c);
      LastField(s, c) == parts[|parts| - 1]
    decreases |s|
  {
    var i := IndexOfChar(s, c);
    if i < |s| {
      LastFieldIsLastPart(s[i + 1..], c);
      var rest := Split(s[i + 1..], c);
      var parts := [s[..i]] + rest;
      assert Split(s, c) == parts;
      assert parts[|parts| - 1] == rest[|rest| - 1];
    }
  }

  /** The last field of `a + c + b` is the last field of `b`. */
  lemma {:induction false} LastFieldAppend(a: string, c: char, b: string)
    ensures LastField(a + [c] + b, c) == LastField(b, c)
    decreases |a|
  {
    var s := a + [c] + b;
    var i := IndexOfChar(s, c);
    assert s[|a|] == c;
    if i < |a| {
      assert s[i + 1..] == a[i + 1..] + [c] + b;
      LastFieldAppend(a[i + 1..], c, b);
    } else {
      assert s[i + 1..] == b;
    }
  }

  /** So a separator-free tail after the last separator is exactly the last field. */
  lemma LastFieldOfSuffix(a: string, c: char, b: string)
    requires c !in b
    ensures LastField(a + [c] + b, c) == b
  {
    LastFieldAppend(a, c, b);
  }
}
