/** Cutting HTML after its first paragraphs. The paragraph pattern is an opening tag,
  * the shortest run without a line break, and a closing tag; matches are leftmost
  * and do not overlap. */
module Paragraphs {
  import opened Wrappers
  import opened Text

  const OPEN := "<p>"
  const CLOSE := "</p>"

  datatype Match = Match(start: nat, end: nat)

  // ----- the scanner -----

  /** Where a paragraph whose text starts at `k` meets its closing tag. */
  function CloseFrom(s: string, k: nat): (r: Option<nat>)
    ensures r.Some? ==> k <= r.value && At(s, r.value, CLOSE)
  {
    LazyTo(s, k, CLOSE)
  }

  /** All matches that start at `from` or later. */
  function Matches(s: string, from: nat): seq<Match>
    decreases |s| - from
  {
    if from + |OPEN| > |s| then []
    else if At(s, from, OPEN) && CloseFrom(s, from + |OPEN|).Some? then
      var end := CloseFrom(s, from + |OPEN|).value + |CLOSE|;
      [Match(from, end)] + Matches(s, end)
    else Matches(s, from + 1)
  }

  // ----- what the pattern means -----

  /** The text from `start` to `end` has the shape of a paragraph. */
  ghost predicate Span(s: string, start: nat, end: nat) {
    && start + |OPEN| + |CLOSE| <= end <= |s|
    && At(s, start, OPEN) && At(s, end - |CLOSE|, CLOSE)
    && '\n' !in s[start + |OPEN|..end - |CLOSE|]
  }

  ghost predicate ShortestSpan(s: string, m: Match) {
    && Span(s, m.start, m.end)
    && forall e | m.start <= e < m.end :: !Span(s, m.start, e)
  }

  /** Matches start at `from` or later, follow each other, and lie inside the text. */
  ghost predicate Ordered(ms: seq<Match>, from: nat, limit: nat) {
    ms == [] || (from <= ms[0].start < ms[0].end <= limit && Ordered(ms[1..], ms[0].end, limit))
  }

  lemma OrderedCons(m: Match, rest: seq<Match>, from: nat, limit: nat)
    requires from <= m.start < m.end <= limit && Ordered(rest, m.end, limit)
    ensures Ordered([m] + rest, from, limit)
  {
    assert ([m] + rest)[1..] == rest;
  }

  lemma {:induction false} MatchesOrdered(s: string, from: nat)
    ensures Ordered(Matches(s, from), from, |s|)
    decreases |s| - from
  {
    if from + |OPEN| <= |s| {
      var close := CloseFrom(s, from + |OPEN|);
      if At(s, from, OPEN) && close.Some? {
        var end := close.value + |CLOSE|;
        MatchesOrdered(s, end);
        MatchesHit(s, from);
        OrderedCons(Match(from, end), Matches(s, end), from, |s|);
      } else {
        MatchesOrdered(s, from + 1);
        MatchesMiss(s, from);
        Widen(Matches(s, from + 1), from, |s|);
      }
    }
  }

  lemma LazyIsShortest(s: string, from: nat)
    requires At(s, from, OPEN) && CloseFrom(s, from + |OPEN|).Some?
    ensures ShortestSpan(s, Match(from, CloseFrom(s, from + |OPEN|).value + |CLOSE|))
  {
    var end := CloseFrom(s, from + |OPEN|).value + |CLOSE|;
    LazyHasNoBreak(s, from + |OPEN|, CLOSE);
    assert Span(s, from, end);
    forall e | from <= e < end ensures !Span(s, from, e) {
      assert from + |OPEN| <= e - |CLOSE| ==> !At(s, e - |CLOSE|, CLOSE);
    }
  }

  /** Soundness: the scanner only reports shortest spans. */
  lemma {:induction false} MatchesSound(s: string, from: nat, i: nat)
    requires i < |Matches(s, from)|
    ensures ShortestSpan(s, Matches(s, from)[i])
    decreases |s| - from
  {
    var close := CloseFrom(s, from + |OPEN|);
    if At(s, from, OPEN) && close.Some? {
      if i == 0 {
        LazyIsShortest(s, from);
      } else {
        MatchesSound(s, close.value + |CLOSE|, i - 1);
      }
    } else {
      MatchesSound(s, from + 1, i);
    }
  }

  lemma Widen(ms: seq<Match>, from: nat, limit: nat)
    requires Ordered(ms, from + 1, limit)
    ensures Ordered(ms, from, limit)
  {}

  /** Completeness: every span in reach starts inside a reported match. */
  lemma {:induction false} MatchesComplete(s: string, from: nat, start: nat, end: nat) returns (m: Match)
    requires from <= start && Span(s, start, end)
    ensures m in Matches(s, from) && m.start <= start < m.end
    decreases |s| - from
  {
    var close := CloseFrom(s, from + |OPEN|);
    if from == start { LazyIsFirst(s, from + |OPEN|, CLOSE, end - |CLOSE|); }
    if At(s, from, OPEN) && close.Some? {
      var first := Match(from, close.value + |CLOSE|);
      MatchesHit(s, from);
      if start < first.end {
        m := first;
      } else {
        m := MatchesComplete(s, first.end, start, end);
      }
    } else {
      m := MatchesComplete(s, from + 1, start, end);
      MatchesMiss(s, from);
    }
  }

  // ----- prefix stability -----

  /** The leading matches that end by `n`. */
  function Upto(ms: seq<Match>, n: nat): seq<Match> {
    if ms == [] || ms[0].end > n then [] else [ms[0]] + Upto(ms[1..], n)
  }

  lemma {:induction false} NoCloseNoMatch(s: string, from: nat)
    requires forall e: nat | from + |OPEN| <= e <= |s| :: !At(s, e, CLOSE)
    ensures Matches(s, from) == []
    decreases |s| - from
  {
    if from + |OPEN| <= |s| {
      var close := CloseFrom(s, from + |OPEN|);
      assert close.Some? ==> At(s, close.value, CLOSE);
      NoCloseNoMatch(s, from + 1);
    }
  }

  /** A paragraph that is cut leaves no match at or after its opening tag. */
  lemma CutParagraph(s: string, n: nat, from: nat)
    requires n <= |s| && CloseFrom(s, from + |OPEN|).Some?
    requires n < CloseFrom(s, from + |OPEN|).value + |CLOSE|
    ensures Matches(s[..n], from) == []
  {
    LazyHasNoBreak(s, from + |OPEN|, CLOSE);
    forall e: nat | from + |OPEN| <= e <= n
      ensures !At(s[..n], e, CLOSE)
    {
      AtInPrefix(s, n, e, CLOSE);
    }
    NoCloseNoMatch(s[..n], from);
  }

  lemma MatchesHit(s: string, from: nat)
    requires At(s, from, OPEN) && CloseFrom(s, from + |OPEN|).Some?
    ensures var end := CloseFrom(s, from + |OPEN|).value + |CLOSE|;
            Matches(s, from) == [Match(from, end)] + Matches(s, end)
  {}

  lemma MatchesMiss(s: string, from: nat)
    requires !At(s, from, OPEN) || CloseFrom(s, from + |OPEN|).None?
    ensures Matches(s, from) == Matches(s, from + 1)
  {}

  lemma UptoCons(m: Match, rest: seq<Match>, n: nat)
    ensures Upto([m] + rest, n) == if m.end > n then [] else [m] + Upto(rest, n)
  {
    assert ([m] + rest)[1..] == rest;
  }

  /** A paragraph inside the prefix is a match there. */
  lemma MatchOfPrefix(s: string, n: nat, from: nat, end: nat)
    requires end <= n <= |s| && At(s, from, OPEN) && CloseFrom(s, from + |OPEN|).Some?
    requires end == CloseFrom(s, from + |OPEN|).value + |CLOSE|
    ensures Matches(s[..n], from) == [Match(from, end)] + Matches(s[..n], end)
  {
    LazyInPrefix(s, n, from + |OPEN|, CLOSE);
    AtInPrefix(s, n, from, OPEN);
    MatchesHit(s[..n], from);
  }

  lemma PrefixAtMatch(s: string, n: nat, from: nat, end: nat)
    requires n <= |s| && At(s, from, OPEN) && CloseFrom(s, from + |OPEN|).Some?
    requires end == CloseFrom(s, from + |OPEN|).value + |CLOSE|
    requires end <= n ==> Matches(s[..n], end) == Upto(Matches(s, end), n)
    ensures Matches(s[..n], from) == Upto(Matches(s, from), n)
  {
    MatchesHit(s, from);
    UptoCons(Match(from, end), Matches(s, end), n);
    if end <= n { MatchOfPrefix(s, n, from, end); } else { CutParagraph(s, n, from); }
  }

  lemma PrefixAtOther(s: string, n: nat, from: nat)
    requires n <= |s| && (!At(s, from, OPEN) || CloseFrom(s, from + |OPEN|).None?)
    requires Matches(s[..n], from + 1) == Upto(Matches(s, from + 1), n)
    ensures Matches(s[..n], from) == Upto(Matches(s, from), n)
  {
    LazyInPrefix(s, n, from + |OPEN|, CLOSE);
    AtInPrefix(s, n, from, OPEN);
    MatchesMiss(s, from);
    MatchesMiss(s[..n], from);
  }

  /** The matches of a prefix are exactly the matches of the text that end inside it. */
  lemma {:induction false} PrefixStable(s: string, n: nat, from: nat)
    requires n <= |s|
    ensures Matches(s[..n], from) == Upto(Matches(s, from), n)
    decreases |s| - from
  {
    if from + |OPEN| <= |s| {
      if At(s, from, OPEN) && CloseFrom(s, from + |OPEN|).Some? {
        var end := CloseFrom(s, from + |OPEN|).value + |CLOSE|;
        if end <= n { PrefixStable(s, n, end); }
        PrefixAtMatch(s, n, from, end);
      } else {
        PrefixStable(s, n, from + 1);
        PrefixAtOther(s, n, from);
      }
    }
  }

  // ----- counting and cutting -----

  /** The text between the tags. */
  function Inner(s: string, m: Match): string
    requires m.start + |OPEN| + |CLOSE| <= m.end <= |s|
  {
    s[m.start + |OPEN|..m.end - |CLOSE|]
  }

  predicate InText(ms: seq<Match>, n: nat) {
    forall i | 0 <= i < |ms| :: ms[i].start + |OPEN| + |CLOSE| <= ms[i].end <= n
  }

  /** How many matches enclose something other than white space. */
  function NonBlank(s: string, ms: seq<Match>): nat
    requires InText(ms, |s|)
  {
    if ms == [] then 0
    else (if AllSpace(Inner(s, ms[0])) then 0 else 1) + NonBlank(s, ms[1..])
  }

  /** The end of the n-th match that is not blank. */
  function CutAt(s: string, ms: seq<Match>, n: nat): Option<nat>
    requires InText(ms, |s|) && n >= 1
  {
    if ms == [] then None
    else if AllSpace(Inner(s, ms[0])) then CutAt(s, ms[1..], n)
    else if n == 1 then Some(ms[0].end)
    else CutAt(s, ms[1..], n - 1)
  }

  lemma MatchesInText(s: string, from: nat)
    ensures InText(Matches(s, from), |s|)
  {
    forall i | 0 <= i < |Matches(s, from)|
      ensures var m := Matches(s, from)[i]; m.start + |OPEN| + |CLOSE| <= m.end <= |s|
    {
      MatchesSound(s, from, i);
    }
  }

  function Paragraphs(s: string): (ms: seq<Match>)
    ensures InText(ms, |s|)
  {
    MatchesInText(s, 0);
    Matches(s, 0)
  }

  /** The number of paragraphs that are not blank. */
  function Count(s: string): nat {
    NonBlank(s, Paragraphs(s))
  }

  /** The text up to the end of its n-th paragraph that is not blank. */
  function Cut(s: string, n: int): string {
    if n <= 0 then ""
    else
      var end := CutAt(s, Paragraphs(s), n);
      CutInText(s, Paragraphs(s), n);
      if end.None? then s else s[..end.value]
  }

  lemma {:induction false} CutInText(s: string, ms: seq<Match>, n: nat)
    requires InText(ms, |s|) && n >= 1
    ensures CutAt(s, ms, n).None? <==> NonBlank(s, ms) < n
    ensures CutAt(s, ms, n).Some? ==> CutAt(s, ms, n).value <= |s|
  {
    if ms != [] {
      if AllSpace(Inner(s, ms[0])) { CutInText(s, ms[1..], n); }
      else if n > 1 { CutInText(s, ms[1..], n - 1); }
    }
  }

  lemma SliceOfSlice(s: string, a: nat, b: nat, i: nat, j: nat)
    requires a <= b <= |s| && i <= j <= b - a
    ensures s[a..b][i..j] == s[a + i..a + j]
  {
    var u, v := s[a..b][i..j], s[a + i..a + j];
    assert |u| == |v| && forall k | 0 <= k < |u| :: u[k] == v[k];
  }

  /** A prefix has the same text inside the matches that end in it. */
  lemma {:induction false} CountInPrefix(s: string, ms: seq<Match>, k: nat)
    requires InText(ms, k) && k <= |s|
    ensures NonBlank(s[..k], ms) == NonBlank(s, ms)
  {
    if ms != [] {
      assert Inner(s[..k], ms[0]) == Inner(s, ms[0]);
      CountInPrefix(s, ms[1..], k);
    }
  }

  lemma {:induction false} CutInPrefix(s: string, ms: seq<Match>, k: nat, n: nat)
    requires InText(ms, k) && k <= |s| && n >= 1
    ensures CutAt(s[..k], ms, n) == CutAt(s, ms, n)
    decreases |ms|
  {
    if ms != [] {
      assert Inner(s[..k], ms[0]) == Inner(s, ms[0]);
      CutInPrefix(s, ms[1..], k, n);
      if n > 1 { CutInPrefix(s, ms[1..], k, n - 1); }
    }
  }

  /** The cut end is where the count first reaches n. */
  lemma {:induction false} CutIsShortest(s: string, ms: seq<Match>, from: nat, n: nat, k: nat)
    requires InText(ms, |s|) && Ordered(ms, from, |s|) && n >= 1 && CutAt(s, ms, n).Some?
    ensures InText(Upto(ms, k), |s|)
    ensures NonBlank(s, Upto(ms, k)) < n <==> k < CutAt(s, ms, n).value
    ensures k == CutAt(s, ms, n).value ==> NonBlank(s, Upto(ms, k)) == n
    ensures from < CutAt(s, ms, n).value
    decreases |ms|
  {
    if AllSpace(Inner(s, ms[0])) {
      CutIsShortest(s, ms[1..], ms[0].end, n, k);
    } else if n > 1 {
      CutIsShortest(s, ms[1..], ms[0].end, n - 1, k);
    } else {
      if k <= ms[0].end { NothingBefore(ms[1..], ms[0].end, |s|, k); }
      UptoInText(ms, k, |s|);
    }
  }

  lemma {:induction false} NothingBefore(ms: seq<Match>, from: nat, limit: nat, k: nat)
    requires Ordered(ms, from, limit) && k <= from
    ensures Upto(ms, k) == []
  {}

  lemma {:induction false} UptoInText(ms: seq<Match>, k: nat, limit: nat)
    requires InText(ms, limit)
    ensures InText(Upto(ms, k), limit) && InText(Upto(ms, k), k)
  {
    if ms != [] && ms[0].end <= k {
      UptoInText(ms[1..], k, limit);
    }
  }

  /** Cutting a text that was already cut after m paragraphs. */
  lemma {:induction false} CutOfUpto(s: string, ms: seq<Match>, from: nat, m: nat, n: nat)
    requires InText(ms, |s|) && Ordered(ms, from, |s|) && m >= 1 && n >= 1 && CutAt(s, ms, m).Some?
    ensures var kept := Upto(ms, CutAt(s, ms, m).value);
            InText(kept, |s|) && CutAt(s, kept, n) == if n <= m then CutAt(s, ms, n) else None
    decreases |ms|
  {
    var end := CutAt(s, ms, m).value;
    UptoInText(ms, end, |s|);
    if AllSpace(Inner(s, ms[0])) {
      CutIsShortest(s, ms[1..], ms[0].end, m, end);
      CutOfUpto(s, ms[1..], ms[0].end, m, n);
    } else if m == 1 {
      NothingBefore(ms[1..], ms[0].end, |s|, end);
    } else {
      CutIsShortest(s, ms[1..], ms[0].end, m - 1, end);
      if n > 1 { CutOfUpto(s, ms[1..], ms[0].end, m - 1, n - 1); }
    }
  }

  lemma CountOfPrefix(s: string, k: nat)
    requires k <= |s|
    ensures InText(Upto(Paragraphs(s), k), |s|)
    ensures Count(s[..k]) == NonBlank(s, Upto(Paragraphs(s), k))
  {
    UptoInText(Paragraphs(s), k, |s|);
    PrefixStable(s, k, 0);
    CountInPrefix(s, Upto(Paragraphs(s), k), k);
  }

  // ----- the main results -----

  /** With at least n >= 1 paragraphs, the cut text is the shortest prefix that has n;
    * with fewer, nothing is cut. */
  lemma CutIsShortestPrefix(s: string, n: int)
    requires n >= 1
    ensures Count(s) < n ==> Cut(s, n) == s
    ensures Count(s) >= n ==> Cut(s, n) <= s && Count(Cut(s, n)) == n
    ensures Count(s) >= n ==> forall k | 0 <= k < |Cut(s, n)| :: Count(s[..k]) < n
  {
    var ms := Paragraphs(s);
    MatchesOrdered(s, 0);
    CutInText(s, ms, n);
    if Count(s) >= n {
      var end := CutAt(s, ms, n).value;
      CutIsShortest(s, ms, 0, n, end);
      CountOfPrefix(s, end);
      forall k | 0 <= k < end
        ensures Count(s[..k]) < n
      {
        CutIsShortest(s, ms, 0, n, k);
        CountOfPrefix(s, k);
      }
    }
  }

  /** Two cuts are one cut, whatever the two numbers are. */
  lemma CutTwice(s: string, m: int, n: int)
    ensures Cut(Cut(s, m), n) == Cut(s, Min(m, n))
  {
    if m >= 1 && n >= 1 {
      var ms := Paragraphs(s);
      MatchesOrdered(s, 0);
      CutInText(s, ms, m);
      CutInText(s, ms, n);
      if CutAt(s, ms, m).Some? {
        var end := CutAt(s, ms, m).value;
        PrefixStable(s, end, 0);
        UptoInText(ms, end, |s|);
        CutInPrefix(s, Upto(ms, end), end, n);
        CutOfUpto(s, ms, 0, m, n);
        if n <= m && CutAt(s, ms, n).Some? { CutIsShortest(s, ms, 0, n, end); CutIsMonotone(s, ms, 0, n, m); }
      }
    } else {
      assert Paragraphs("") == [];
    }
  }

  lemma {:induction false} CutIsMonotone(s: string, ms: seq<Match>, from: nat, n: nat, m: nat)
    requires InText(ms, |s|) && Ordered(ms, from, |s|) && 1 <= n <= m && CutAt(s, ms, m).Some?
    ensures CutAt(s, ms, n).Some? && CutAt(s, ms, n).value <= CutAt(s, ms, m).value
  {
    CutInText(s, ms, n);
    CutInText(s, ms, m);
    CutIsShortest(s, ms, from, n, CutAt(s, ms, m).value);
    CutIsShortest(s, ms, from, m, CutAt(s, ms, m).value);
  }

  /** How many paragraphs an abstract keeps. */
  function Kept(count: nat): nat {
    if count <= 3 then 1 else if count == 4 then 2 else 3
  }

  /** An abstract has one paragraph of up to three, two of four and three of more; it is the
    * shortest prefix that has them, and has strictly fewer than the text when that has two. */
  lemma AbstractIsShort(s: string)
    ensures var r, n := Cut(s, Kept(Count(s))), Count(s);
            && r <= s
            && Count(r) == (if n == 0 then 0 else if n <= 3 then 1 else if n == 4 then 2 else 3)
            && (n >= 1 ==> forall k | 0 <= k < |r| :: Count(s[..k]) < Count(r))
            && (n == 0 ==> r == s)
            && (n >= 2 ==> Count(r) < n)
  {
    CutIsShortestPrefix(s, Kept(Count(s)));
  }

  // ----- documents of paragraphs -----

  function Document(xs: seq<string>): string {
    if xs == [] then "" else OPEN + xs[0] + CLOSE + Document(xs[1..])
  }

  /** Texts without a tag or a line break. */
  predicate Lines(xs: seq<string>) {
    forall i | 0 <= i < |xs| :: '<' !in xs[i] && '\n' !in xs[i]
  }

  function NotBlank(xs: seq<string>): nat {
    if xs == [] then 0 else (if AllSpace(xs[0]) then 0 else 1) + NotBlank(xs[1..])
  }

  /** A paragraph whose text is `x` starts at this place. */
  predicate ParagraphAt(s: string, from: nat, x: string) {
    var k := from + |OPEN|;
    At(s, from, OPEN) && At(s, k, x) && At(s, k + |x|, CLOSE)
  }

  lemma ParagraphIsThere(s: string, pre: string, x: string, rest: string)
    requires s == pre + (OPEN + x + CLOSE + rest)
    ensures ParagraphAt(s, |pre|, x)
  {}

  lemma CloseOfParagraph(s: string, k: nat, x: string)
    requires '<' !in x && '\n' !in x && At(s, k, x) && At(s, k + |x|, CLOSE)
    ensures CloseFrom(s, k) == Some(k + |x|)
  {
    forall i | k <= i < k + |x| ensures !At(s, i, CLOSE) {
      assert s[i] == s[k..k + |x|][i - k];
      NotAtOther(s, i, CLOSE);
    }
    LazyIs(s, k, CLOSE, k + |x|);
  }

  /** It is the next match. */
  lemma MatchAtParagraph(s: string, from: nat, x: string)
    requires '<' !in x && '\n' !in x && ParagraphAt(s, from, x)
    ensures var end := from + |OPEN| + |x| + |CLOSE|;
            && end <= |s| && Matches(s, from) == [Match(from, end)] + Matches(s, end)
            && Inner(s, Match(from, end)) == x
  {
    CloseOfParagraph(s, from + |OPEN|, x);
    MatchesHit(s, from);
  }

  /** How many matches from this place on are not blank. */
  function CountFrom(s: string, from: nat): nat {
    MatchesInText(s, from);
    NonBlank(s, Matches(s, from))
  }

  lemma CountAtParagraph(s: string, from: nat, x: string)
    requires '<' !in x && '\n' !in x && ParagraphAt(s, from, x)
    ensures CountFrom(s, from) == (if AllSpace(x) then 0 else 1) + CountFrom(s, from + |OPEN| + |x| + |CLOSE|)
  {
    var end := from + |OPEN| + |x| + |CLOSE|;
    MatchAtParagraph(s, from, x);
    MatchesInText(s, from);
    MatchesInText(s, end);
    CountCons(s, Match(from, end), Matches(s, end));
  }

  lemma NothingBehind(s: string)
    ensures CountFrom(s, |s|) == 0
  {}

  lemma NextParagraph(s: string, pre: string, x: string, rest: string, next: string)
    requires '<' !in x && '\n' !in x && s == pre + (OPEN + x + CLOSE + rest) && next == pre + (OPEN + x + CLOSE)
    ensures s == next + rest && CountFrom(s, |pre|) == (if AllSpace(x) then 0 else 1) + CountFrom(s, |next|)
  {
    ParagraphIsThere(s, pre, x, rest);
    CountAtParagraph(s, |pre|, x);
    Regrouped(pre, OPEN + x + CLOSE, rest);
  }

  lemma {:induction false} CountOfRest(s: string, pre: string, xs: seq<string>)
    requires Lines(xs) && s == pre + Document(xs)
    ensures CountFrom(s, |pre|) == NotBlank(xs)
    decreases |xs|
  {
    if xs == [] {
      assert s == pre;
      NothingBehind(s);
    } else {
      var next := pre + (OPEN + xs[0] + CLOSE);
      NextParagraph(s, pre, xs[0], Document(xs[1..]), next);
      CountOfRest(s, next, xs[1..]);
    }
  }

  lemma CountCons(s: string, m: Match, rest: seq<Match>)
    requires InText([m] + rest, |s|) && InText(rest, |s|)
    ensures m.start + |OPEN| + |CLOSE| <= m.end <= |s|
    ensures NonBlank(s, [m] + rest) == (if AllSpace(Inner(s, m)) then 0 else 1) + NonBlank(s, rest)
  {
    assert ([m] + rest)[0] == m && ([m] + rest)[1..] == rest;
  }

  /** In a document of paragraphs exactly those count that are not white space. */
  lemma CountOfDocument(xs: seq<string>)
    requires Lines(xs)
    ensures Count(Document(xs)) == NotBlank(xs)
  {
    assert "" + Document(xs) == Document(xs);
    CountOfRest(Document(xs), "", xs);
  }

  // ----- the code -----

  /** The first submatch of the paragraph pattern in `p`. */
  function FirstInner(p: string): Option<string> {
    var ms := Paragraphs(p);
    if ms == [] then None else Some(Inner(p, ms[0]))
  }

  lemma NoEarlierClose(s: string, m: Match, c: nat)
    requires ShortestSpan(s, m) && |OPEN| <= c < m.end - m.start - |CLOSE|
    ensures var p := s[m.start..m.end]; !(At(p, c, CLOSE) && '\n' !in p[|OPEN|..c])
  {
    SliceOfSlice(s, m.start, m.end, c, c + |CLOSE|);
    SliceOfSlice(s, m.start, m.end, |OPEN|, c);
    assert !Span(s, m.start, m.start + c + |CLOSE|);
  }

  /** Inside a match, the closing tag is the first one. */
  lemma CloseInMatch(s: string, m: Match)
    requires ShortestSpan(s, m)
    ensures var p := s[m.start..m.end];
            At(p, 0, OPEN) && CloseFrom(p, |OPEN|) == Some(|p| - |CLOSE|)
  {
    var p := s[m.start..m.end];
    var e := |p| - |CLOSE|;
    SliceOfSlice(s, m.start, m.end, 0, |OPEN|);
    SliceOfSlice(s, m.start, m.end, e, |p|);
    SliceOfSlice(s, m.start, m.end, |OPEN|, e);
    LazyIsFirst(p, |OPEN|, CLOSE, e);
    LazyHasNoBreak(p, |OPEN|, CLOSE);
    if CloseFrom(p, |OPEN|).value < e { NoEarlierClose(s, m, CloseFrom(p, |OPEN|).value); }
  }

  /** Matching the pattern again inside a match finds the match itself. */
  lemma MatchAgain(s: string, m: Match)
    requires ShortestSpan(s, m)
    ensures FirstInner(s[m.start..m.end]) == Some(Inner(s, m))
  {
    var p := s[m.start..m.end];
    CloseInMatch(s, m);
    assert Paragraphs(p)[0] == Match(0, |p|);
    SliceOfSlice(s, m.start, m.end, |OPEN|, |p| - |CLOSE|);
  }

  predicate BlankAt(content: string, i: nat)
    requires i < |Paragraphs(content)|
  {
    AllSpace(Inner(content, Paragraphs(content)[i]))
  }

  /** The test both loops make on a match. */
  method HasText(content: string, i: nat) returns (b: bool)
    requires i < |Paragraphs(content)|
    ensures b <==> !BlankAt(content, i)
  {
    var m := Paragraphs(content)[i];
    var pContent := content[m.start..m.end];
    MatchIsSpan(content, i);
    MatchAgain(content, m);
    var textMatch := FirstInner(pContent);
    TrimToNothing(Inner(content, m));
    b := textMatch.Some? && TrimSpace(textMatch.value) != "";
  }

  method ParagraphCount(content: string) returns (pCount: nat)
    ensures pCount == Count(content)
  {
    var matches := Paragraphs(content);
    pCount := 0;
    for i := 0 to |matches|
      invariant pCount + NonBlank(content, matches[i..]) == Count(content)
    {
      assert matches[i..][1..] == matches[i + 1..];
      var counts := HasText(content, i);
      if counts {
        pCount := pCount + 1;
      }
    }
  }

  /** Where the text is cut if `n` paragraphs are still missing before the i-th match. */
  function CutFrom(s: string, i: nat, n: nat): Option<nat>
    requires i <= |Paragraphs(s)| && n >= 1
  {
    CutAt(s, Paragraphs(s)[i..], n)
  }

  lemma CutNext(s: string, i: nat, n: nat)
    requires i < |Paragraphs(s)| && n >= 1
    ensures CutFrom(s, i, n) ==
            if BlankAt(s, i) then CutFrom(s, i + 1, n)
            else if n == 1 then Some(Paragraphs(s)[i].end) else CutFrom(s, i + 1, n - 1)
  {
    assert Paragraphs(s)[i..][1..] == Paragraphs(s)[i + 1..];
  }

  lemma CutIs(s: string, n: nat)
    requires n >= 1
    ensures CutFrom(s, |Paragraphs(s)|, n).None?
    ensures var end := CutFrom(s, 0, n);
            if end.None? then Cut(s, n) == s else end.value <= |s| && Cut(s, n) == s[..end.value]
  {
    CutInText(s, Paragraphs(s), n);
    assert Paragraphs(s)[0..] == Paragraphs(s);
  }

  lemma MatchIsSpan(s: string, i: nat)
    requires i < |Paragraphs(s)|
    ensures ShortestSpan(s, Paragraphs(s)[i])
  {
    MatchesSound(s, 0, i);
  }

  method TruncateByParagraphs(content: string, number: int) returns (r: string)
    ensures r == Cut(content, number)
    ensures number <= 0 ==> r == ""
  {
    if number <= 0 { return ""; }
    var matches := Paragraphs(content);
    if |matches| == 0 { return content; }
    ghost var end := CutFrom(content, 0, number);
    CutIs(content, number);
    var pCount, lastIndex := 0, 0;
    for i := 0 to |matches|
      invariant 0 <= pCount < number && CutFrom(content, i, number - pCount) == end
    {
      CutNext(content, i, number - pCount);
      var counts := HasText(content, i);
      if counts {
        pCount := pCount + 1;
        lastIndex := matches[i].end;
        if pCount == number { return content[..lastIndex]; }
      }
    }
    CutIs(content, number - pCount);
    return content;
  }

  method Truncate(content: string) returns (r: string)
    ensures r == Cut(content, Kept(Count(content)))
    ensures Count(content) == 0 ==> r == content
    ensures 1 <= Count(content) <= 3 ==> Count(r) == 1
    ensures Count(content) == 4 ==> Count(r) == 2
    ensures Count(content) >= 5 ==> Count(r) == 3
    ensures Count(content) >= 1 ==> r <= content && forall k | 0 <= k < |r| :: Count(content[..k]) < Count(r)
  {
    AbstractIsShort(content);
    var parahCount := ParagraphCount(content);
    if parahCount <= 3 {
      r := TruncateByParagraphs(content, 1);
    } else if parahCount == 4 {
      r := TruncateByParagraphs(content, 2);
    } else {
      r := TruncateByParagraphs(content, 3);
    }
  }
}
