/** Cutting a message to a byte budget without splitting a character, against the
  * encoding of section 3 and the byte grammar of section 4 of RFC 3629. */
module Utf8Truncate {
  type Byte = b: int | 0 <= b < 256

  // ----- section 3: the encoding of a character number -----

  predicate Scalar(c: int) {
    0 <= c <= 0x10FFFF && !(0xD800 <= c <= 0xDFFF)
  }

  function Encode(c: int): (w: seq<Byte>)
    requires Scalar(c)
    ensures 1 <= |w| <= 4
  {
    if c <= 0x7F then [c]
    else if c <= 0x7FF then [0xC0 + c / 64, 0x80 + c % 64]
    else if c <= 0xFFFF then [0xE0 + c / 64 / 64, 0x80 + c / 64 % 64, 0x80 + c % 64]
    else [0xF0 + c / 64 / 64 / 64, 0x80 + c / 64 / 64 % 64, 0x80 + c / 64 % 64, 0x80 + c % 64]
  }

  ghost predicate AllScalar(cs: seq<int>) {
    forall i | 0 <= i < |cs| :: Scalar(cs[i])
  }

  ghost function EncodeAll(cs: seq<int>): seq<Byte>
    requires AllScalar(cs)
  {
    if cs == [] then [] else Encode(cs[0]) + EncodeAll(cs[1..])
  }

  // ----- section 4: the byte grammar -----

  predicate Tail(b: Byte) { 0x80 <= b <= 0xBF }

  predicate Utf8Char(w: seq<Byte>) {
    match |w|
    case 1 => w[0] <= 0x7F
    case 2 => 0xC2 <= w[0] <= 0xDF && Tail(w[1])
    case 3 =>
      && Tail(w[1]) && Tail(w[2]) && 0xE0 <= w[0] <= 0xEF
      && (w[0] == 0xE0 ==> w[1] >= 0xA0) && (w[0] == 0xED ==> w[1] <= 0x9F)
    case 4 =>
      && Tail(w[1]) && Tail(w[2]) && Tail(w[3]) && 0xF0 <= w[0] <= 0xF4
      && (w[0] == 0xF0 ==> w[1] >= 0x90) && (w[0] == 0xF4 ==> w[1] <= 0x8F)
    case _ => false
  }

  /** The length of the character that a first byte announces. */
  function Announced(b: Byte): nat {
    if b <= 0x7F then 1 else if b <= 0xDF then 2 else if b <= 0xEF then 3 else 4
  }

  predicate WellFormed(s: seq<Byte>) {
    s == [] ||
    var n := Announced(s[0]);
    n <= |s| && Utf8Char(s[..n]) && WellFormed(s[n..])
  }

  // ----- the two sections agree -----

  /** Six more bits at the low end. */
  function Push(high: int, tail: Byte): int {
    high * 64 + (tail - 0x80)
  }

  /** The character number of a grammatical sequence. */
  function Number(w: seq<Byte>): int
    requires Utf8Char(w)
  {
    match |w|
    case 1 => w[0]
    case 2 => Push(w[0] - 0xC0, w[1])
    case 3 => Push(Push(w[0] - 0xE0, w[1]), w[2])
    case _ => Push(Push(Push(w[0] - 0xF0, w[1]), w[2]), w[3])
  }

  lemma Pushed(high: int, tail: Byte)
    requires Tail(tail)
    ensures Push(high, tail) / 64 == high && Push(high, tail) % 64 == tail - 0x80
  {}

  lemma EncodeIsGrammatical(c: int)
    requires Scalar(c)
    ensures Utf8Char(Encode(c)) && Announced(Encode(c)[0]) == |Encode(c)| && Number(Encode(c)) == c
  {
    var a, b := c / 64, c / 64 / 64;
    assert c == a * 64 + c % 64 && a == b * 64 + a % 64;
    if c <= 0x7FF {
    } else if c <= 0xFFFF {
      assert b == 0 ==> a % 64 >= 32;
      assert b == 13 ==> a % 64 <= 31;
    } else {
      assert b == b / 64 * 64 + b % 64;
      assert b / 64 == 0 ==> b % 64 >= 16;
      assert b / 64 == 4 ==> b % 64 <= 15;
    }
  }

  lemma GrammarIsEncoded(w: seq<Byte>)
    requires Utf8Char(w)
    ensures Scalar(Number(w)) && Encode(Number(w)) == w && Announced(w[0]) == |w|
  {
    if |w| == 2 {
      Pushed(w[0] - 0xC0, w[1]);
    } else if |w| == 3 {
      var a := Push(w[0] - 0xE0, w[1]);
      Pushed(w[0] - 0xE0, w[1]);
      Pushed(a, w[2]);
      assert 0x20 <= a < 0x400 && !(0x360 <= a <= 0x37F);
    } else if |w| == 4 {
      var a := Push(w[0] - 0xF0, w[1]);
      Pushed(w[0] - 0xF0, w[1]);
      Pushed(a, w[2]);
      Pushed(Push(a, w[2]), w[3]);
      assert 0x10 <= a < 0x110;
      assert 0x400 <= Push(a, w[2]) < 0x4400;
    }
  }

  lemma {:induction false} EncodedIsWellFormed(cs: seq<int>)
    requires AllScalar(cs)
    ensures WellFormed(EncodeAll(cs))
  {
    if cs != [] {
      EncodeIsGrammatical(cs[0]);
      EncodedIsWellFormed(cs[1..]);
      var s, n := EncodeAll(cs), |Encode(cs[0])|;
      assert s[0] == Encode(cs[0])[0];
      assert s[..n] == Encode(cs[0]) && s[n..] == EncodeAll(cs[1..]);
    }
  }

  /** The numbers of the characters of a well-formed text. */
  function Numbers(s: seq<Byte>): (cs: seq<int>)
    requires WellFormed(s)
  {
    if s == [] then []
    else [Number(s[..Announced(s[0])])] + Numbers(s[Announced(s[0])..])
  }

  lemma EncodeCons(c: int, rest: seq<int>)
    requires Scalar(c) && AllScalar(rest)
    ensures AllScalar([c] + rest) && EncodeAll([c] + rest) == Encode(c) + EncodeAll(rest)
  {
    assert ([c] + rest)[1..] == rest;
  }

  lemma {:induction false} WellFormedIsEncoded(s: seq<Byte>)
    requires WellFormed(s)
    ensures AllScalar(Numbers(s)) && EncodeAll(Numbers(s)) == s
  {
    if s != [] {
      var n := Announced(s[0]);
      var w, rest := s[..n], s[n..];
      GrammarIsEncoded(w);
      WellFormedIsEncoded(rest);
      EncodeCons(Number(w), Numbers(rest));
      assert s == w + rest;
    }
  }

  // ----- boundaries -----

  /** utf8.RuneStart: the top two bits are not 10. */
  predicate RuneStart(b: Byte) {
    b / 64 != 2
  }

  lemma TailsAreNoStarts(w: seq<Byte>)
    requires Utf8Char(w)
    ensures RuneStart(w[0]) && Announced(w[0]) == |w| && forall i | 1 <= i < |w| :: !RuneStart(w[i])
  {}

  /** Cutting well-formed text leaves well-formed text exactly at a character start. */
  lemma {:induction false} CutIsWellFormed(s: seq<Byte>, k: nat)
    requires WellFormed(s) && k <= |s|
    ensures WellFormed(s[..k]) <==> k == |s| || RuneStart(s[k])
  {
    if s != [] {
      var n := Announced(s[0]);
      TailsAreNoStarts(s[..n]);
      if k == 0 {
        assert s[0] == s[..n][0];
      } else if k < n {
        assert s[k] == s[..n][k];
        assert s[..k][0] == s[0];
      } else {
        CutIsWellFormed(s[n..], k - n);
        assert s[..k][..n] == s[..n] && s[..k][n..] == s[n..][..k - n];
        assert s[..k][0] == s[0];
        if k < |s| { assert s[n..][k - n] == s[k]; }
      }
    }
  }

  /** A character start is never more than three bytes back. */
  lemma {:induction false} StartIsNear(s: seq<Byte>, k: nat) returns (e: nat)
    requires WellFormed(s) && k < |s|
    ensures e <= k <= e + 3 && RuneStart(s[e])
  {
    var n := Announced(s[0]);
    TailsAreNoStarts(s[..n]);
    if k < n {
      e := 0;
      assert s[0] == s[..n][0];
    } else {
      var e' := StartIsNear(s[n..], k - n);
      e := n + e';
    }
  }

  // ----- the code -----

  /** Where the cut goes: the last character start at or before `limit`, or the front. */
  function CutPoint(s: seq<Byte>, limit: nat): (e: nat)
    requires limit < |s|
    ensures e <= limit && (e == 0 || RuneStart(s[e]))
    ensures forall i | e < i <= limit :: !RuneStart(s[i])
  {
    if limit == 0 || RuneStart(s[limit]) then limit else CutPoint(s, limit - 1)
  }

  function Truncated(s: seq<Byte>, limit: nat): seq<Byte> {
    if |s| <= limit then s else s[..CutPoint(s, limit)]
  }

  method Truncate(content: seq<Byte>, limit: nat) returns (r: seq<Byte>)
    ensures r == Truncated(content, limit)
  {
    if |content| <= limit { return content; }
    var end := limit;
    while end > 0 && !RuneStart(content[end])
      invariant 0 <= end <= limit
      invariant CutPoint(content, end) == CutPoint(content, limit)
    {
      end := end - 1;
    }
    return content[..end];
  }

  /** For well-formed input the result is the longest well-formed prefix within the
    * budget, and a cut wastes at most three bytes of it. */
  lemma LongestWellFormedPrefix(s: seq<Byte>, limit: nat)
    requires WellFormed(s)
    ensures var r := Truncated(s, limit);
            && r <= s && |r| <= limit && WellFormed(r)
            && (forall k | 0 <= k <= limit && k <= |s| && WellFormed(s[..k]) :: k <= |r|)
            && (r != s ==> limit <= |r| + 3)
  {
    if |s| > limit {
      var e := CutPoint(s, limit);
      var near := StartIsNear(s, limit);
      CutIsWellFormed(s, e);
      forall k | 0 <= k <= limit && WellFormed(s[..k]) ensures k <= e {
        CutIsWellFormed(s, k);
      }
    }
  }

  lemma {:induction false} EncodePrefix(cs: seq<int>, k: nat)
    requires AllScalar(cs) && k <= |cs|
    ensures EncodeAll(cs[..k]) <= EncodeAll(cs)
  {
    if k > 0 {
      EncodePrefix(cs[1..], k - 1);
      assert cs[..k][1..] == cs[1..][..k - 1];
      assert EncodeAll(cs)[|Encode(cs[0])|..] == EncodeAll(cs[1..]);
    }
  }

  lemma {:induction false} EncodeGrows(cs: seq<int>, k: nat)
    requires AllScalar(cs) && k < |cs|
    ensures |EncodeAll(cs[..k])| < |EncodeAll(cs[..k + 1])|
  {
    if k > 0 {
      EncodeGrows(cs[1..], k - 1);
      assert cs[..k][1..] == cs[1..][..k - 1] && cs[..k + 1][1..] == cs[1..][..k];
    }
  }

  /** A well-formed prefix of an encoding is the encoding of leading characters. */
  lemma {:induction false} Characters(cs: seq<int>, n: nat) returns (k: nat)
    requires AllScalar(cs) && n <= |EncodeAll(cs)| && WellFormed(EncodeAll(cs)[..n])
    ensures k <= |cs| && EncodeAll(cs)[..n] == EncodeAll(cs[..k])
  {
    if n == 0 {
      k := 0;
    } else {
      var s, w := EncodeAll(cs), Encode(cs[0]);
      var rest := EncodeAll(cs[1..]);
      EncodeIsGrammatical(cs[0]);
      assert s == w + rest && s[..n][0] == w[0];
      assert s[..n] == w + rest[..n - |w|];
      assert s[..n][|w|..] == rest[..n - |w|];
      var j := Characters(cs[1..], n - |w|);
      k := j + 1;
      assert cs[..k][1..] == cs[1..][..j];
    }
  }

  /** In characters: the result is the encoding of the longest run of leading characters
    * whose encoding fits. */
  lemma KeepsWholeCharacters(cs: seq<int>, limit: nat) returns (k: nat)
    requires AllScalar(cs)
    ensures k <= |cs| && Truncated(EncodeAll(cs), limit) == EncodeAll(cs[..k])
    ensures k < |cs| ==> |EncodeAll(cs[..k + 1])| > limit
  {
    var s := EncodeAll(cs);
    EncodedIsWellFormed(cs);
    LongestWellFormedPrefix(s, limit);
    var n := |Truncated(s, limit)|;
    assert Truncated(s, limit) == s[..n];
    k := Characters(cs, n);
    if k < |cs| { NextDoesNotFit(cs, limit, k); }
  }

  lemma NextDoesNotFit(cs: seq<int>, limit: nat, k: nat)
    requires AllScalar(cs) && k < |cs| && |Truncated(EncodeAll(cs), limit)| == |EncodeAll(cs[..k])|
    ensures |EncodeAll(cs[..k + 1])| > limit
  {
    var s, next := EncodeAll(cs), EncodeAll(cs[..k + 1]);
    EncodePrefix(cs, k + 1);
    EncodedIsWellFormed(cs[..k + 1]);
    EncodeGrows(cs, k);
    assert s[..|next|] == next;
    EncodedIsWellFormed(cs);
    LongestWellFormedPrefix(s, limit);
  }
}
