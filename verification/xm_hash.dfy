/** The XMEye password text: the 16-byte MD5 digest of the password folded
    into eight characters of `[0-9A-Za-z]`. The digest is an input. */
module XmHash {

  type Byte = x: int | 0 <= x < 256

  /** Sum of the two bytes of pair `i`, modulo 62 (`0x3e`). */
  function PairValue(d: seq<Byte>, i: nat): (b: nat)
    requires |d| == 16 && i < 8
    ensures b < 62
  {
    (d[2 * i] as int + d[2 * i + 1] as int) % 62
  }

  /** A value below 62 as a digit, an upper-case letter or a lower-case letter. */
  function XmChar(b: nat): (c: char)
    requires b < 62
    ensures '0' <= c <= '9' || 'A' <= c <= 'Z' || 'a' <= c <= 'z'
  {
    if b < 10 then (0x30 + b) as char
    else if b < 36 then (0x41 + b - 10) as char
    else (0x61 + b - 36) as char
  }

  predicate IsAlphanumeric(c: char) {
    '0' <= c <= '9' || 'A' <= c <= 'Z' || 'a' <= c <= 'z'
  }

  /** The value a character of the alphabet stands for. */
  function XmValue(c: char): (b: nat)
    requires IsAlphanumeric(c)
    ensures b < 62
  {
    if c <= '9' then c as int - 0x30
    else if c <= 'Z' then c as int - 0x41 + 10
    else c as int - 0x61 + 36
  }

  /** Character and value translate into each other, so the mapping from
      values to characters is one-to-one. */
  lemma XmCharRoundTrip(b: nat, c: char)
    requires b < 62
    requires IsAlphanumeric(c)
    ensures XmValue(XmChar(b)) == b
    ensures XmChar(XmValue(c)) == c
  {
  }

  lemma XmCharInjective(b1: nat, b2: nat)
    requires b1 < 62 && b2 < 62
    requires XmChar(b1) == XmChar(b2)
    ensures b1 == b2
  {
    XmCharRoundTrip(b1, '0');
    XmCharRoundTrip(b2, '0');
  }

  /** `xm_hash` after the digest: one character per byte pair, in order. */
  method XmText(d: seq<Byte>) returns (text: string)
    requires |d| == 16
    ensures |text| == 8
    ensures forall i :: 0 <= i < 8 ==> text[i] == XmChar(PairValue(d, i))
    ensures forall i :: 0 <= i < 8 ==> IsAlphanumeric(text[i])
  {
    text := "";
    var i := 0;
    while i < 16
      invariant 0 <= i <= 16 && i % 2 == 0
      invariant |text| == i / 2
      invariant forall k :: 0 <= k < i / 2 ==> text[k] == XmChar(PairValue(d, k))
    {
      var b: int := (d[i] as int + d[i + 1] as int) % 0x3e;
      var c: char;
      if b < 10 {
        c := (0x30 + b) as char;
      } else if b < 36 {
        c := (0x41 + b - 10) as char;
      } else {
        c := (0x61 + b - 36) as char;
      }
      assert c == XmChar(PairValue(d, i / 2));
      text := text + [c];
      i := i + 2;
    }
  }

  /** Two digests whose byte pairs sum to the same values modulo 62 give the
      same text, and the text determines those values. */
  lemma XmTextDeterminesPairs(d1: seq<Byte>, d2: seq<Byte>, t1: string, t2: string)
    requires |d1| == 16 && |d2| == 16 && |t1| == 8 && |t2| == 8
    requires forall i :: 0 <= i < 8 ==> t1[i] == XmChar(PairValue(d1, i))
    requires forall i :: 0 <= i < 8 ==> t2[i] == XmChar(PairValue(d2, i))
    ensures t1 == t2 <==> forall i :: 0 <= i < 8 ==> PairValue(d1, i) == PairValue(d2, i)
  {
    if t1 == t2 {
      forall i | 0 <= i < 8 ensures PairValue(d1, i) == PairValue(d2, i) {
        XmCharInjective(PairValue(d1, i), PairValue(d2, i));
      }
    }
  }
}
