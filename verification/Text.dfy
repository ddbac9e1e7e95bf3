/** The string operations of Go that the text pipeline uses, on sequences of runes. */
module Text {
  import opened Wrappers

  /** unicode.IsSpace */
  predicate IsSpace(c: char) {
    || '\t' <= c <= '\r' || c == ' ' || c == '\U{0085}' || c == '\U{00A0}' || c == '\U{1680}'
    || '\U{2000}' <= c <= '\U{200A}' || c == '\U{2028}' || c == '\U{2029}' || c == '\U{202F}'
    || c == '\U{205F}' || c == '\U{3000}'
  }

  predicate AllSpace(s: string) {
    forall i | 0 <= i < |s| :: IsSpace(s[i])
  }

  function TrimLeft(s: string): (r: string)
    ensures |r| <= |s| && r == s[|s| - |r|..]
    ensures AllSpace(s[..|s| - |r|])
    ensures r != [] ==> !IsSpace(r[0])
  {
    if s != [] && IsSpace(s[0]) then
      var r := TrimLeft(s[1..]);
      assert forall i | 0 < i < |s| - |r| :: s[i] == s[1..][..|s| - 1 - |r|][i - 1];
      r
    else s
  }

  function TrimRight(s: string): (r: string)
    ensures |r| <= |s| && r == s[..|r|]
    ensures AllSpace(s[|r|..])
    ensures r != [] ==> !IsSpace(r[|r| - 1])
  {
    if s != [] && IsSpace(s[|s| - 1]) then
      var t := s[..|s| - 1];
      var r := TrimRight(t);
      assert forall i | |r| <= i < |s| - 1 :: s[i] == t[|r|..][i - |r|];
      r
    else s
  }

  /** strings.TrimSpace */
  function TrimSpace(s: string): string {
    TrimRight(TrimLeft(s))
  }

  lemma TrimToNothing(s: string)
    ensures TrimSpace(s) == "" <==> AllSpace(s)
  {
    var l := TrimLeft(s);
    var r := TrimRight(l);
    assert l != "" ==> l[0] == s[|s| - |l|];
    assert r == "" ==> l[|r|..] == l;
    assert l == "" ==> s[..|s| - |l|] == s;
  }

  /** `w` stands in `s` at position `i`. */
  predicate At(s: string, i: nat, w: string) {
    i + |w| <= |s| && s[i..i + |w|] == w
  }

  lemma AtInPrefix(s: string, n: nat, i: nat, w: string)
    requires n <= |s|
    ensures At(s[..n], i, w) <==> At(s, i, w) && i + |w| <= n
  {
    if i + |w| <= n { assert s[..n][i..i + |w|] == s[i..i + |w|]; }
  }

  lemma NotAtOther(s: string, i: nat, w: string)
    requires w != "" && i < |s| && s[i] != w[0]
    ensures !At(s, i, w)
  {
    assert i + |w| <= |s| ==> s[i..i + |w|][0] == s[i];
  }

  lemma Regrouped(a: string, b: string, c: string)
    ensures a + b + c == a + (b + c)
  {}

  predicate Contains(s: string, w: string) {
    exists i: nat | i <= |s| :: At(s, i, w)
  }

  lemma HeadBack(u: string, y: string)
    requires u != ""
    ensures (u + y)[0] == u[0] && (u + y)[1..] == u[1..] + y && [u[0]] + (u[1..] + y) == u + y
  {}

  // ----- counting a rune -----

  function Occurrences(s: string, c: char): nat {
    if s == "" then 0 else (if s[0] == c then 1 else 0) + Occurrences(s[1..], c)
  }

  lemma OccurrencesCons(a: char, s: string, c: char)
    ensures Occurrences([a] + s, c) == (if a == c then 1 else 0) + Occurrences(s, c)
  {
    assert ([a] + s)[1..] == s;
  }

  lemma {:induction false} OccurrencesAppend(s: string, t: string, c: char)
    ensures Occurrences(s + t, c) == Occurrences(s, c) + Occurrences(t, c)
  {
    if s == "" {
      assert s + t == t;
    } else {
      assert (s + t)[1..] == s[1..] + t;
      OccurrencesAppend(s[1..], t, c);
    }
  }

  // ----- replacing -----

  /** strings.ReplaceAll with a non-empty `old`: leftmost, non-overlapping. */
  function ReplaceAll(s: string, old': string, new': string): string
    requires old' != ""
  {
    if s == "" then ""
    else if old' <= s then new' + ReplaceAll(s[|old'|..], old', new')
    else [s[0]] + ReplaceAll(s[1..], old', new')
  }

  /** Nothing to replace where the first rune of `old` does not occur. */
  lemma {:induction false} ReplaceNothing(s: string, old': string, new': string)
    requires old' != "" && old'[0] !in s
    ensures ReplaceAll(s, old', new') == s
  {
    if s != "" {
      assert s[0] in s;
      ReplaceNothing(s[1..], old', new');
    }
  }

  /** ReplaceAll brings no rune that neither the text nor the replacement has. */
  lemma {:induction false} ReplaceAllRunes(s: string, old': string, new': string, c: char)
    requires old' != "" && c !in s && c !in new'
    ensures c !in ReplaceAll(s, old', new')
  {
    if s != "" {
      if old' <= s {
        ReplaceAllRunes(s[|old'|..], old', new', c);
      } else {
        ReplaceAllRunes(s[1..], old', new', c);
      }
    }
  }

  /** Where the shortest run from `k` that has no line break meets `close`. */
  function LazyTo(s: string, k: nat, close: string): (r: Option<nat>)
    requires close != ""
    ensures r.Some? ==> k <= r.value && At(s, r.value, close)
    decreases |s| - k
  {
    if k + |close| > |s| then None
    else if At(s, k, close) then Some(k)
    else if s[k] == '\n' then None
    else LazyTo(s, k + 1, close)
  }

  lemma {:induction false} LazyIsFirst(s: string, k: nat, close: string, e: nat)
    requires close != "" && k <= e && At(s, e, close) && '\n' !in s[k..e]
    ensures LazyTo(s, k, close).Some? && LazyTo(s, k, close).value <= e
    decreases e - k
  {
    if k < e && !At(s, k, close) {
      assert s[k] == s[k..e][0] && s[k..e][1..] == s[k + 1..e];
      LazyIsFirst(s, k + 1, close, e);
    }
  }

  lemma {:induction false} LazyHasNoBreak(s: string, k: nat, close: string)
    requires close != "" && LazyTo(s, k, close).Some?
    ensures '\n' !in s[k..LazyTo(s, k, close).value]
    ensures forall e | k <= e < LazyTo(s, k, close).value :: !At(s, e, close)
    decreases |s| - k
  {
    if !At(s, k, close) {
      LazyHasNoBreak(s, k + 1, close);
      var j := LazyTo(s, k, close).value;
      assert s[k..j] == [s[k]] + s[k + 1..j];
    }
  }

  lemma {:induction false} LazyInPrefix(s: string, n: nat, k: nat, close: string)
    requires close != "" && n <= |s|
    ensures LazyTo(s[..n], k, close) ==
            var c := LazyTo(s, k, close);
            if c.Some? && c.value + |close| <= n then c else None
    decreases |s| - k
  {
    if k + |close| <= n {
      AtInPrefix(s, n, k, close);
      if !At(s, k, close) && s[k] != '\n' { LazyInPrefix(s, n, k + 1, close); }
    }
  }

  lemma AtInMiddle(s: string, x: string, t: string, post: string, i: nat, w: string)
    requires s == x + t + post && i + |w| <= |t|
    ensures At(s, |x| + i, w) <==> At(t, i, w)
  {
    assert s[|x| + i..|x| + i + |w|] == t[i..i + |w|];
  }

  lemma {:induction false} LazyIs(s: string, k: nat, close: string, e: nat)
    requires close != "" && k <= e && At(s, e, close) && '\n' !in s[k..e]
    requires forall i | k <= i < e :: !At(s, i, close)
    ensures LazyTo(s, k, close) == Some(e)
    decreases e - k
  {
    if k < e {
      assert s[k] == s[k..e][0] && s[k..e][1..] == s[k + 1..e];
      LazyIs(s, k + 1, close, e);
    }
  }

  /** What the lazy run has run over. */
  lemma LazyText(s: string, k: nat, close: string)
    requires close != "" && LazyTo(s, k, close).Some?
    ensures var e := LazyTo(s, k, close).value;
            var text := s[k..e];
            '\n' !in text && forall i: nat | i < |text| :: !At(text + close, i, close)
  {
    var e := LazyTo(s, k, close).value;
    var text := s[k..e];
    LazyHasNoBreak(s, k, close);
    var post := s[e + |close|..];
    assert s == s[..k] + (text + close) + post;
    forall i: nat | i < |text| ensures !At(text + close, i, close) {
      if At(text + close, i, close) { AtInMiddle(s, s[..k], text + close, post, i, close); }
    }
  }

  lemma Middle(s: string, x: string, t: string, post: string)
    requires s == x + (t + post)
    ensures s[|x|..|x| + |t|] == t
  {}

  /** The lazy run over `text` stops at the `close` right behind it, if there is none before. */
  lemma LazyStopsAt(s: string, x: string, text: string, close: string, post: string)
    requires close != "" && s == x + (text + close) + post && '\n' !in text
    requires forall i: nat | i < |text| :: !At(text + close, i, close)
    ensures LazyTo(s, |x|, close) == Some(|x| + |text|)
  {
    var t := text + close;
    var e := |x| + |text|;
    Regrouped(x, t, post);
    Regrouped(text, close, post);
    Middle(s, x, text, close + post);
    AtInMiddle(s, x, t, post, |text|, close);
    forall i | |x| <= i < e ensures !At(s, i, close) { AtInMiddle(s, x, t, post, i - |x|, close); }
    LazyIs(s, |x|, close, e);
  }
}
