/** Turning HTML into plain text: links, structure, remaining tags, entities, white space. */
module StripHtml {
  import opened Wrappers
  import opened Text
  import opened Entities
  import opened Structure

  // ----- links and tags -----

  /** RE2's \s */
  predicate ReSpace(c: char) {
    c == '\t' || c == '\n' || c == '\U{000C}' || c == '\r' || c == ' '
  }

  /** The first '>' at `k` or later. */
  function TagEnd(s: string, k: nat): (r: Option<nat>)
    ensures r.Some? ==> k <= r.value < |s| && s[r.value] == '>' && '>' !in s[k..r.value]
    ensures r.None? ==> k > |s| || '>' !in s[k..]
    decreases |s| - k
  {
    if k >= |s| then None
    else if s[k] == '>' then Some(k)
    else
      var r := TagEnd(s, k + 1);
      assert r.Some? ==> s[k..r.value] == [s[k]] + s[k + 1..r.value];
      assert s[k..] == [s[k]] + s[k + 1..];
      r
  }

  /** The end of the link that `s` starts with: an opening tag with attributes, a text
    * without a line break, and the first closing tag. */
  function LinkEnd(s: string): (r: Option<nat>)
    ensures r.Some? ==> 0 < r.value <= |s|
  {
    if !At(s, 0, "<a") || |s| < 3 || !ReSpace(s[2]) then None
    else
      var open := TagEnd(s, 3);
      if open.None? then None
      else
        var close := LazyTo(s, open.value + 1, "</a>");
        if close.None? then None else Some(close.value + 4)
  }

  function RemoveLinks(s: string): string {
    if s == "" then ""
    else if LinkEnd(s).Some? then RemoveLinks(s[LinkEnd(s).value..])
    else [s[0]] + RemoveLinks(s[1..])
  }

  function RemoveTags(s: string): string {
    if s == "" then ""
    else if s[0] == '<' && TagEnd(s, 1).Some? then RemoveTags(s[TagEnd(s, 1).value + 1..])
    else [s[0]] + RemoveTags(s[1..])
  }

  /** A link: an opening tag with attributes, a text, and the closing tag. */
  function Link(space: char, attrs: string, text: string): string {
    "<a" + [space] + attrs + ">" + text + "</a>"
  }

  predicate IsLink(space: char, attrs: string, text: string) {
    && ReSpace(space) && '>' !in attrs && '\n' !in text
    && forall i: nat | i < |text| :: !At(text + "</a>", i, "</a>")
  }

  ghost predicate StartsLink(s: string, space: char, attrs: string, text: string) {
    IsLink(space, attrs, text) && Link(space, attrs, text) <= s
  }

  lemma {:induction false} TagEndIs(s: string, k: nat, e: nat)
    requires k <= e < |s| && s[e] == '>' && '>' !in s[k..e]
    ensures TagEnd(s, k) == Some(e)
    decreases e - k
  {
    if k < e {
      assert s[k] == s[k..e][0] && s[k..e][1..] == s[k + 1..e];
      TagEndIs(s, k + 1, e);
    }
  }

  lemma LinkEndIs(s: string, open: nat, close: nat)
    requires |s| >= 3 && s[..2] == "<a" && ReSpace(s[2])
    requires TagEnd(s, 3) == Some(open) && LazyTo(s, open + 1, "</a>") == Some(close)
    ensures LinkEnd(s) == Some(close + 4)
  {
    assert At(s, 0, "<a");
  }

  lemma OpenTag(s: string, space: char, attrs: string, rest: string)
    requires s == "<a" + [space] + attrs + ">" + rest && '>' !in attrs
    ensures |s| >= 3 && s[..2] == "<a" && s[2] == space && TagEnd(s, 3) == Some(3 + |attrs|)
  {
    assert s[3..3 + |attrs|] == attrs;
    TagEndIs(s, 3, 3 + |attrs|);
  }

  /** The link pass takes a link away with its text and goes on behind it. */
  lemma LinkIsRemoved(space: char, attrs: string, text: string, post: string)
    requires IsLink(space, attrs, text)
    ensures RemoveLinks(Link(space, attrs, text) + post) == RemoveLinks(post)
  {
    var x, t := "<a" + [space] + attrs + ">", text + "</a>";
    var s := x + t + post;
    assert s == Link(space, attrs, text) + post;
    assert s == "<a" + [space] + attrs + ">" + (t + post);
    OpenTag(s, space, attrs, t + post);
    LazyStopsAt(s, x, text, "</a>", post);
    LinkEndIs(s, 3 + |attrs|, |x| + |text|);
    SkipFront(s, x + t, post);
  }

  lemma Pieces(s: string, open: nat, close: nat)
    requires 3 <= open < close + 1 && close + 4 <= |s|
    requires s[..2] == "<a" && s[open] == '>' && s[close..close + 4] == "</a>"
    ensures s[..close + 4] == Link(s[2], s[3..open], s[open + 1..close])
  {
    assert s[..3] == "<a" + [s[2]];
    assert s[..open + 1] == s[..3] + s[3..open] + ">";
    assert s[..close + 4] == s[..open + 1] + s[open + 1..close] + "</a>";
  }

  /** Only links are taken away, ... */
  lemma LinkWasThere(s: string) returns (space: char, attrs: string, text: string)
    requires LinkEnd(s).Some?
    ensures IsLink(space, attrs, text) && s[..LinkEnd(s).value] == Link(space, attrs, text)
  {
    var open := TagEnd(s, 3).value;
    var close := LazyTo(s, open + 1, "</a>").value;
    space, attrs, text := s[2], s[3..open], s[open + 1..close];
    LazyText(s, open + 1, "</a>");
    Pieces(s, open, close);
  }

  /** ... and a rune at which no link starts is kept. */
  lemma OtherRunesStay(s: string)
    requires s != "" && !exists space, attrs, text :: StartsLink(s, space, attrs, text)
    ensures RemoveLinks(s) == [s[0]] + RemoveLinks(s[1..])
  {
    if LinkEnd(s).Some? {
      var space, attrs, text := LinkWasThere(s);
      assert StartsLink(s, space, attrs, text);
    }
  }

  lemma SkipFront(s: string, front: string, post: string)
    requires s == front + post && front != "" && LinkEnd(s) == Some(|front|)
    ensures RemoveLinks(s) == RemoveLinks(post)
  {
    assert s[|front|..] == post;
  }

  // ----- white space -----

  predicate Blank(c: char) { c == ' ' || c == '\t' }
  predicate NewLine(c: char) { c == '\n' }

  /** The length of the run of runes of class `cls` at the front. */
  function Run(s: string, cls: char -> bool): (n: nat)
    ensures n <= |s| && forall i | 0 <= i < n :: cls(s[i])
    ensures n < |s| ==> !cls(s[n])
  {
    if s != "" && cls(s[0]) then 1 + Run(s[1..], cls) else 0
  }

  /** Every maximal run of at least `min` runes of class `cls` becomes `rep`. */
  function Squeeze(s: string, cls: char -> bool, min: nat, rep: string): string
    requires min >= 1
    decreases |s|
  {
    if s == "" then ""
    else if Run(s, cls) >= min then rep + Squeeze(s[Run(s, cls)..], cls, min, rep)
    else [s[0]] + Squeeze(s[1..], cls, min, rep)
  }

  const BULLET := "\U{2022} "

  /** Blanks and line breaks are squeezed; what has no list item becomes one line. */
  function Tightened(s: string): string {
    Squeeze(Squeeze(s, Blank, 1, " "), NewLine, 3, "\n\n")
  }

  function Lined(b: string): string {
    if Contains(b, BULLET) then b else Squeeze(b, ReSpace, 1, " ")
  }

  function Whitespace(s: string): string {
    TrimSpace(Lined(Tightened(s)))
  }

  // ----- what the white space pass guarantees -----

  /** No tab and no two adjacent spaces. */
  predicate SingleSpaced(s: string) {
    && '\t' !in s
    && forall i | 0 <= i < |s| - 1 :: !(s[i] == ' ' && s[i + 1] == ' ')
  }

  /** No three adjacent line breaks. */
  predicate AtMostOneEmptyLine(s: string) {
    forall i | 0 <= i < |s| - 2 :: !(s[i] == '\n' && s[i + 1] == '\n' && s[i + 2] == '\n')
  }

  predicate NoOuterSpace(s: string) {
    s == "" || (!IsSpace(s[0]) && !IsSpace(s[|s| - 1]))
  }

  lemma SqueezeUnfold(s: string, cls: char -> bool, min: nat, rep: string) returns (head: string, k: nat)
    requires min >= 1 && s != ""
    ensures 0 < k <= |s| && Squeeze(s, cls, min, rep) == head + Squeeze(s[k..], cls, min, rep)
    ensures (Run(s, cls) >= min && head == rep && k == Run(s, cls)) || (Run(s, cls) < min && head == [s[0]] && k == 1)
  {
    if Run(s, cls) >= min { head, k := rep, Run(s, cls); } else { head, k := [s[0]], 1; }
  }

  /** A rune outside the class starts the result when it starts the text. */
  lemma SqueezeHead(s: string, cls: char -> bool, min: nat, rep: string)
    requires min >= 1 && (s != "" ==> !cls(s[0]))
    ensures var r := Squeeze(s, cls, min, rep); (r == "" <==> s == "") && (s != "" ==> r[0] == s[0])
  {}

  lemma PrependSpace(rest: string)
    requires SingleSpaced(rest) && (rest != "" ==> rest[0] != ' ')
    ensures SingleSpaced(" " + rest)
  {
    var s := " " + rest;
    forall i | 0 <= i < |s| - 1 ensures !(s[i] == ' ' && s[i + 1] == ' ') {
      if i > 0 { assert s[i] == rest[i - 1] && s[i + 1] == rest[i]; }
    }
  }

  lemma PrependOther(c: char, rest: string)
    requires SingleSpaced(rest) && c != '\t' && (c != ' ' || rest == "" || rest[0] != ' ')
    ensures SingleSpaced([c] + rest)
  {
    var s := [c] + rest;
    forall i | 0 <= i < |s| - 1 ensures !(s[i] == ' ' && s[i + 1] == ' ') {
      if i > 0 { assert s[i] == rest[i - 1] && s[i + 1] == rest[i]; }
    }
  }

  /** Squeezing a class that has the space and the tab leaves single spaces. */
  lemma {:induction false} SqueezeBlanks(s: string, cls: char -> bool)
    requires cls(' ') && cls('\t')
    ensures SingleSpaced(Squeeze(s, cls, 1, " "))
    ensures forall c | c in Squeeze(s, cls, 1, " ") :: !cls(c) || c == ' '
    decreases |s|
  {
    if s != "" {
      var head, k := SqueezeUnfold(s, cls, 1, " ");
      var rest := Squeeze(s[k..], cls, 1, " ");
      SqueezeBlanks(s[k..], cls);
      if Run(s, cls) >= 1 {
        if k < |s| { assert s[k..][0] == s[k]; }
        SqueezeHead(s[k..], cls, 1, " ");
        PrependSpace(rest);
      } else {
        PrependOther(s[0], rest);
      }
    }
  }

  function Breaks(s: string): nat {
    Run(s, NewLine)
  }

  lemma {:induction false} BreaksOfSqueezed(s: string)
    ensures Breaks(Squeeze(s, NewLine, 3, "\n\n")) == if Breaks(s) < 3 then Breaks(s) else 2
    decreases |s|
  {
    if s != "" {
      var head, k := SqueezeUnfold(s, NewLine, 3, "\n\n");
      var rest := Squeeze(s[k..], NewLine, 3, "\n\n");
      var r := head + rest;
      if Breaks(s) >= 3 {
        if k < |s| { assert s[k..][0] == s[k]; }
        SqueezeHead(s[k..], NewLine, 3, "\n\n");
        assert Breaks(rest) == 0;
        assert r[1..] == "\n" + rest && r[1..][1..] == rest;
      } else {
        BreaksOfSqueezed(s[k..]);
        assert r[1..] == rest;
      }
    }
  }

  lemma PrependBreaks(head: string, rest: string)
    requires AtMostOneEmptyLine(rest)
    requires (head == "\n\n" && Breaks(rest) == 0) || (|head| == 1 && (head[0] == '\n' ==> Breaks(rest) < 2))
    ensures AtMostOneEmptyLine(head + rest)
  {
    var s, h := head + rest, |head|;
    forall i | 0 <= i < |s| - 2
      ensures !(s[i] == '\n' && s[i + 1] == '\n' && s[i + 2] == '\n')
    {
      if i >= h {
        assert s[i] == rest[i - h] && s[i + 1] == rest[i + 1 - h] && s[i + 2] == rest[i + 2 - h];
      } else if h == 1 {
        assert s[1] == rest[0] && s[2] == rest[1] == rest[1..][0];
      } else {
        assert s[2] == rest[0];
      }
    }
  }

  /** Squeezing line breaks leaves at most one empty line, and keeps single spaces. */
  lemma {:induction false} SqueezeBreaks(s: string)
    ensures AtMostOneEmptyLine(Squeeze(s, NewLine, 3, "\n\n"))
    ensures SingleSpaced(s) ==> SingleSpaced(Squeeze(s, NewLine, 3, "\n\n"))
    decreases |s|
  {
    if s != "" {
      var head, k := SqueezeUnfold(s, NewLine, 3, "\n\n");
      var rest := Squeeze(s[k..], NewLine, 3, "\n\n");
      SqueezeBreaks(s[k..]);
      BreaksOfSqueezed(s[k..]);
      if k < |s| { assert s[k..][0] == s[k]; }
      PrependBreaks(head, rest);
      if SingleSpaced(s) {
        SingleSpacedSlice(s, k, |s|);
        SqueezedStartsAlike(s[k..]);
        if k == 1 && head == [s[0]] {
          PrependOther(s[0], rest);
        } else {
          PrependOther('\n', rest);
          PrependOther('\n', "\n" + rest);
          assert "\n" + ("\n" + rest) == head + rest;
        }
      }
    }
  }

  lemma SqueezedStartsAlike(s: string)
    ensures var r := Squeeze(s, NewLine, 3, "\n\n"); (r == "" <==> s == "") && (s != "" ==> r[0] == s[0])
  {}

  lemma SingleSpacedSlice(s: string, a: nat, b: nat)
    requires SingleSpaced(s) && a <= b <= |s|
    ensures SingleSpaced(s[a..b])
  {
    var t := s[a..b];
    forall i | 0 <= i < |t| - 1 ensures !(t[i] == ' ' && t[i + 1] == ' ') {
      assert t[i] == s[a + i] && t[i + 1] == s[a + i + 1];
    }
  }

  lemma EmptyLineSlice(s: string, a: nat, b: nat)
    requires AtMostOneEmptyLine(s) && a <= b <= |s|
    ensures AtMostOneEmptyLine(s[a..b])
  {
    var t := s[a..b];
    forall i | 0 <= i < |t| - 2 ensures !(t[i] == '\n' && t[i + 1] == '\n' && t[i + 2] == '\n') {
      assert t[i] == s[a + i] && t[i + 1] == s[a + i + 1] && t[i + 2] == s[a + i + 2];
    }
  }

  lemma TrimIsSlice(s: string)
    ensures exists a: nat, b: nat :: a <= b <= |s| && TrimSpace(s) == s[a..b]
    ensures NoOuterSpace(TrimSpace(s))
  {
    var l := TrimLeft(s);
    var r := TrimRight(l);
    var a := |s| - |l|;
    assert r == s[a..a + |r|];
    if r != "" { assert r[0] == l[0]; }
  }

  predicate Tidy(s: string) {
    SingleSpaced(s) && AtMostOneEmptyLine(s)
  }

  lemma TightenedIsTidy(s: string)
    ensures Tidy(Tightened(s))
  {
    SqueezeBlanks(s, Blank);
    SqueezeBreaks(Squeeze(s, Blank, 1, " "));
  }

  lemma LinedIsTidy(b: string)
    requires Tidy(b)
    ensures Tidy(Lined(b))
  {
    if !Contains(b, BULLET) {
      var c := Squeeze(b, ReSpace, 1, " ");
      SqueezeBlanks(b, ReSpace);
      forall i | 0 <= i < |c| ensures c[i] != '\n' { assert c[i] in c; }
    }
  }

  lemma TrimIsTidy(c: string)
    requires Tidy(c)
    ensures Tidy(TrimSpace(c)) && NoOuterSpace(TrimSpace(c))
  {
    TrimIsSlice(c);
    var x: nat, y: nat :| x <= y <= |c| && TrimSpace(c) == c[x..y];
    SingleSpacedSlice(c, x, y);
    EmptyLineSlice(c, x, y);
  }

  /** Whatever the text, the white space pass leaves no tab, no two adjacent spaces, no
    * three adjacent line breaks and no outer white space. */
  lemma WhitespaceIsTidy(s: string)
    ensures Tidy(Whitespace(s)) && NoOuterSpace(Whitespace(s))
  {
    TightenedIsTidy(s);
    LinedIsTidy(Tightened(s));
    TrimIsTidy(Lined(Tightened(s)));
  }

  /** No tab, line feed, form feed or carriage return. */
  predicate IsOneLine(s: string) {
    forall c | c in s :: c != '\t' && c != '\n' && c != '\U{000C}' && c != '\r'
  }

  lemma TrimmedRunes(s: string, c: char)
    requires c in TrimSpace(s)
    ensures c in s
  {
    var l := TrimLeft(s);
    assert c in l && l == s[|s| - |l|..];
  }

  /** Without a list item the result is one line: of RE2's white space only spaces are left. */
  lemma NoItemsOneLine(s: string)
    requires !Contains(Tightened(s), BULLET)
    ensures IsOneLine(Whitespace(s))
  {
    OneLine(Tightened(s));
  }

  lemma OneLine(b: string)
    ensures IsOneLine(TrimSpace(Squeeze(b, ReSpace, 1, " ")))
  {
    SqueezeBlanks(b, ReSpace);
    forall c | c in TrimSpace(Squeeze(b, ReSpace, 1, " ")) ensures ReSpace(c) ==> c == ' ' {
      TrimmedRunes(Squeeze(b, ReSpace, 1, " "), c);
    }
  }

  // ----- what is left of the markup -----

  /** A '<' with a '>' somewhere after it. */
  predicate Markup(s: string) {
    s != "" && ((s[0] == '<' && '>' in s) || Markup(s[1..]))
  }

  lemma {:induction false} MarkupMeans(s: string)
    ensures Markup(s) <==> exists i, j | 0 <= i < j < |s| :: s[i] == '<' && s[j] == '>'
  {
    if s != "" {
      MarkupMeans(s[1..]);
      if i, j :| 0 <= i < j < |s| && s[i] == '<' && s[j] == '>' {
        if i > 0 { assert s[1..][i - 1] == '<' && s[1..][j - 1] == '>'; }
      }
      if i, j :| 0 <= i < j < |s[1..]| && s[1..][i] == '<' && s[1..][j] == '>' {
        assert s[i + 1] == '<' && s[j + 1] == '>';
      }
      if s[0] == '<' && '>' in s {
        var j :| 0 <= j < |s| && s[j] == '>';
        assert s[0] == '<' && 0 < j;
      }
    }
  }

  /** Runes that are no angle brackets do not matter at the front... */
  lemma {:induction false} MarkupSkipsFront(x: string, s: string)
    requires '<' !in x && '>' !in x
    ensures Markup(x + s) == Markup(s) && ('>' in x + s <==> '>' in s)
  {
    if x == "" {
      assert x + s == s;
    } else {
      assert x[0] in x;
      assert (x + s)[1..] == x[1..] + s;
      MarkupSkipsFront(x[1..], s);
    }
  }

  /** ... nor at the back. */
  lemma {:induction false} MarkupSkipsBack(s: string, y: string)
    requires '<' !in y && '>' !in y
    ensures Markup(s + y) == Markup(s)
  {
    if s == "" {
      MarkupSkipsFront(y, "");
      assert s + y == y == y + "";
    } else {
      assert (s + y)[1..] == s[1..] + y;
      assert s + y == [s[0]] + (s[1..] + y);
      MarkupSkipsBack(s[1..], y);
      assert '>' in s + y <==> '>' in s;
    }
  }

  lemma {:induction false} RemoveTagsRunes(s: string, c: char)
    requires c !in s
    ensures c !in RemoveTags(s)
  {
    if s != "" {
      if s[0] == '<' && TagEnd(s, 1).Some? {
        RemoveTagsRunes(s[TagEnd(s, 1).value + 1..], c);
      } else {
        RemoveTagsRunes(s[1..], c);
      }
    }
  }

  /** After tag removal no '<' is followed by a '>'. */
  lemma {:induction false} RemoveTagsClean(s: string)
    ensures !Markup(RemoveTags(s))
  {
    if s != "" {
      var end := TagEnd(s, 1);
      if s[0] == '<' && end.Some? {
        RemoveTagsClean(s[end.value + 1..]);
      } else {
        RemoveTagsClean(s[1..]);
        if s[0] == '<' { RemoveTagsRunes(s[1..], '>'); }
      }
    }
  }

  /** A tag goes, and the pass goes on behind it. */
  lemma TagIsRemoved(inner: string, post: string)
    requires '>' !in inner
    ensures RemoveTags("<" + inner + ">" + post) == RemoveTags(post)
  {
    var s := "<" + inner + ">" + post;
    assert s[1..1 + |inner|] == inner;
    TagEndIs(s, 1, 1 + |inner|);
    assert s[|inner| + 2..] == post;
  }

  lemma {:induction false} NothingToRemove(s: string)
    requires !Markup(s)
    ensures RemoveTags(s) == s
  {
    if s != "" { NothingToRemove(s[1..]); }
  }

  /** A text is left as it is exactly when it has no markup. */
  lemma PlainTextStays(s: string)
    ensures RemoveTags(s) == s <==> !Markup(s)
  {
    RemoveTagsClean(s);
    if !Markup(s) { NothingToRemove(s); }
  }

  lemma {:induction false} RemoveLinksRunes(s: string, c: char)
    requires c !in s
    ensures c !in RemoveLinks(s)
  {
    if s != "" {
      if LinkEnd(s).Some? { RemoveLinksRunes(s[LinkEnd(s).value..], c); } else { RemoveLinksRunes(s[1..], c); }
    }
  }

  /** Squeezing runs of other runes neither makes nor breaks markup. */
  lemma {:induction false} SqueezeKeepsMarkup(s: string, cls: char -> bool, min: nat, rep: string)
    requires min >= 1 && !cls('<') && !cls('>') && '<' !in rep && '>' !in rep
    ensures Markup(Squeeze(s, cls, min, rep)) == Markup(s)
    ensures '>' in Squeeze(s, cls, min, rep) <==> '>' in s
    decreases |s|
  {
    if s != "" {
      var head, k := SqueezeUnfold(s, cls, min, rep);
      SqueezeKeepsMarkup(s[k..], cls, min, rep);
      var rest := Squeeze(s[k..], cls, min, rep);
      assert s == s[..k] + s[k..];
      if Run(s, cls) >= min {
        MarkupSkipsFront(rep, rest);
        MarkupSkipsFront(s[..k], s[k..]);
      } else {
        assert s[..1] == [s[0]] && ([s[0]] + rest)[1..] == rest;
      }
    }
  }

  lemma SpaceIsNoBracket(x: string)
    requires AllSpace(x)
    ensures '<' !in x && '>' !in x
  {
    forall i | 0 <= i < |x| ensures x[i] != '<' && x[i] != '>' { assert IsSpace(x[i]); }
  }

  lemma TrimKeepsMarkup(s: string)
    ensures Markup(TrimSpace(s)) == Markup(s)
  {
    TrimLeftKeepsMarkup(s);
    TrimRightKeepsMarkup(TrimLeft(s));
  }

  lemma TrimRightKeepsMarkup(s: string)
    ensures Markup(TrimRight(s)) == Markup(s)
  {
    var r := TrimRight(s);
    var y := s[|r|..];
    SpaceIsNoBracket(y);
    MarkupSkipsBack(r, y);
    assert s == r + y;
  }

  lemma TrimLeftKeepsMarkup(s: string)
    ensures Markup(TrimLeft(s)) == Markup(s)
  {
    var l := TrimLeft(s);
    var x := s[..|s| - |l|];
    SpaceIsNoBracket(x);
    MarkupSkipsFront(x, l);
    assert s == x + l;
  }

  lemma TightenedKeepsMarkup(s: string)
    ensures Markup(Tightened(s)) == Markup(s)
  {
    SqueezeKeepsMarkup(s, Blank, 1, " ");
    SqueezeKeepsMarkup(Squeeze(s, Blank, 1, " "), NewLine, 3, "\n\n");
  }

  lemma WhitespaceKeepsMarkup(s: string)
    ensures Markup(Whitespace(s)) == Markup(s)
  {
    TightenedKeepsMarkup(s);
    SqueezeKeepsMarkup(Tightened(s), ReSpace, 1, " ");
    TrimKeepsMarkup(Lined(Tightened(s)));
  }

  // ----- the white space pass loses nothing but white space -----

  predicate Solid(c: char) { !IsSpace(c) }

  /** strings.Fields */
  function Words(s: string): seq<string>
    decreases |s|
  {
    if s == "" then []
    else
      var n := Run(s, Solid);
      if n == 0 then Words(s[1..]) else [s[..n]] + Words(s[n..])
  }

  predicate AtGap(s: string) { s == "" || IsSpace(s[0]) }

  lemma WordsOfWord(w: string, y: string)
    requires w != "" && (forall i | 0 <= i < |w| :: Solid(w[i])) && AtGap(y)
    ensures Words(w + y) == [w] + Words(y)
  {
    var s := w + y;
    assert Run(s, Solid) == |w| by { assert |w| < |s| ==> s[|w|] == y[0]; }
    assert s[|w|..] == y;
  }

  lemma {:induction false} WordsOfSpace(a: string, y: string)
    requires AllSpace(a)
    ensures Words(a + y) == Words(y)
  {
    if a == "" {
      assert a + y == y;
    } else {
      assert (a + y)[1..] == a[1..] + y;
      WordsOfSpace(a[1..], y);
    }
  }

  lemma {:induction false} WordsThenSpace(x: string, b: string)
    requires AllSpace(b)
    ensures Words(x + b) == Words(x)
    decreases |x|
  {
    if x == "" {
      WordsOfSpace(b, "");
      assert x + b == b + "";
    } else {
      var n := Run(x, Solid);
      if n == 0 {
        assert (x + b)[1..] == x[1..] + b;
        WordsThenSpace(x[1..], b);
      } else {
        assert x + b == x[..n] + (x[n..] + b);
        WordsThenSpace(x[n..], b);
        WordsOfWord(x[..n], x[n..] + b);
      }
    }
  }

  lemma OneAndMore(s: string, n: nat, y: string)
    requires 1 <= n <= |s|
    ensures [s[0]] + (s[1..][..n - 1] + y) == s[..n] + y && s[1..][n - 1..] == s[n..]
  {}

  lemma {:induction false} WordPasses(s: string, n: nat, cls: char -> bool, min: nat, rep: string)
    requires min >= 1 && n <= Run(s, Solid) && forall c :: cls(c) ==> IsSpace(c)
    ensures Squeeze(s, cls, min, rep) == s[..n] + Squeeze(s[n..], cls, min, rep)
    decreases n
  {
    if n > 0 {
      assert Solid(s[0]) && Run(s, cls) == 0;
      WordPasses(s[1..], n - 1, cls, min, rep);
      OneAndMore(s, n, Squeeze(s[n..], cls, min, rep));
    }
  }

  lemma SqueezedGap(s: string, cls: char -> bool, min: nat, rep: string)
    requires min >= 1 && AtGap(s) && rep != "" && AtGap(rep)
    ensures AtGap(Squeeze(s, cls, min, rep))
  {}

  /** Squeezing white space keeps the words. */
  lemma {:induction false} SqueezeKeepsWords(s: string, cls: char -> bool, min: nat, rep: string)
    requires min >= 1 && rep != "" && AllSpace(rep) && forall c :: cls(c) ==> IsSpace(c)
    ensures Words(Squeeze(s, cls, min, rep)) == Words(s)
    decreases |s|
  {
    if s != "" {
      var n := Run(s, Solid);
      if n > 0 {
        SqueezeKeepsWords(s[n..], cls, min, rep);
        WordPasses(s, n, cls, min, rep);
        SqueezedGap(s[n..], cls, min, rep);
        WordsOfWord(s[..n], Squeeze(s[n..], cls, min, rep));
      } else {
        var head, k := SqueezeUnfold(s, cls, min, rep);
        SqueezeKeepsWords(s[k..], cls, min, rep);
        GapChanges(s, k, head, Squeeze(s[k..], cls, min, rep));
      }
    }
  }

  lemma GapChanges(s: string, k: nat, head: string, y: string)
    requires k <= |s| && AllSpace(s[..k]) && AllSpace(head) && Words(y) == Words(s[k..])
    ensures Words(head + y) == Words(s)
  {
    WordsOfSpace(head, y);
    WordsOfSpace(s[..k], s[k..]);
    assert s == s[..k] + s[k..];
  }

  lemma TrimLeftKeepsWords(s: string)
    ensures Words(TrimLeft(s)) == Words(s)
  {
    var l := TrimLeft(s);
    GapChanges(s, |s| - |l|, "", l);
    assert "" + l == l;
  }

  lemma TrimRightKeepsWords(s: string)
    ensures Words(TrimRight(s)) == Words(s)
  {
    var r := TrimRight(s);
    WordsThenSpace(r, s[|r|..]);
    assert s == r + s[|r|..];
  }

  lemma TightenedKeepsWords(s: string)
    ensures Words(Tightened(s)) == Words(s)
  {
    SqueezeKeepsWords(s, Blank, 1, " ");
    SqueezeKeepsWords(Squeeze(s, Blank, 1, " "), NewLine, 3, "\n\n");
  }

  /** No word is lost, split or merged. */
  lemma WhitespaceKeepsWords(s: string)
    ensures Words(Whitespace(s)) == Words(s)
  {
    TightenedKeepsWords(s);
    SqueezeKeepsWords(Tightened(s), ReSpace, 1, " ");
    TrimLeftKeepsWords(Lined(Tightened(s)));
    TrimRightKeepsWords(TrimLeft(Lined(Tightened(s))));
  }

  // ----- the pipeline -----

  /** The text after links, structure and tags are gone. */
  function Tagless(content: string): string {
    RemoveTags(ReplaceEach(RemoveLinks(content), Rules()))
  }

  function Strip(content: string, order: seq<Entity>): string {
    Whitespace(InOrder(Tagless(content), order))
  }

  /** Whatever the content, the result is tidy and has the words of the decoded text. */
  lemma StripIsTidy(content: string, order: seq<Entity>)
    ensures var r := Strip(content, order);
            && Tidy(r) && NoOuterSpace(r)
            && Words(r) == Words(InOrder(Tagless(content), order))
  {
    WhitespaceIsTidy(InOrder(Tagless(content), order));
    WhitespaceKeepsWords(InOrder(Tagless(content), order));
  }

  /** Any markup in the result was spelled with entities. */
  lemma StripMarkup(content: string, order: seq<Entity>)
    ensures Markup(Strip(content, order)) <==> Markup(InOrder(Tagless(content), order))
    ensures !Markup(Tagless(content))
  {
    WhitespaceKeepsMarkup(InOrder(Tagless(content), order));
    RemoveTagsClean(ReplaceEach(RemoveLinks(content), Rules()));
  }

  lemma {:induction false} NoEntities(s: string, order: seq<Entity>)
    requires '&' !in s
    ensures InOrder(s, order) == s
  {
    if order != [] {
      var k := |order| - 1;
      NoEntities(s, order[..k]);
      ReplaceNothing(s, Name(order[k]), [order[k].rune]);
    }
  }

  /** Content without an ampersand leaves no '<' that is followed by a '>'. */
  lemma StripLeavesNoMarkup(content: string, order: seq<Entity>)
    requires '&' !in content
    ensures !Markup(Strip(content, order))
  {
    RemoveLinksRunes(content, '&');
    forall r | r in Rules() ensures '&' !in r.1 { NoRuleMakesAmpersand(r); }
    ReplaceEachRunes(RemoveLinks(content), Rules(), '&');
    RemoveTagsRunes(ReplaceEach(RemoveLinks(content), Rules()), '&');
    NoEntities(Tagless(content), order);
    StripMarkup(content, order);
  }

  function OccurrencesInAll(words: seq<string>, c: char): nat {
    if words == [] then 0 else Occurrences(words[0], c) + OccurrencesInAll(words[1..], c)
  }

  /** A rune that is no white space occurs in the words as often as in the text. */
  lemma {:induction false} OccurrencesInWords(s: string, c: char)
    requires Solid(c)
    ensures Occurrences(s, c) == OccurrencesInAll(Words(s), c)
    decreases |s|
  {
    if s != "" {
      var n := Run(s, Solid);
      if n == 0 {
        OccurrencesInWords(s[1..], c);
      } else {
        OccurrencesInWords(s[n..], c);
        OccurrencesAppend(s[..n], s[n..], c);
        assert s == s[..n] + s[n..];
        assert Words(s)[1..] == Words(s[n..]);
      }
    }
  }

  lemma SameWords(x: string, y: string, c: char)
    requires Words(x) == Words(y) && Solid(c)
    ensures Occurrences(x, c) == Occurrences(y, c)
  {
    OccurrencesInWords(x, c);
    OccurrencesInWords(y, c);
  }

  lemma WhitespaceKeepsOccurrences(s: string, c: char)
    requires Solid(c)
    ensures Occurrences(Whitespace(s), c) == Occurrences(s, c)
  {
    WhitespaceKeepsWords(s);
    SameWords(Whitespace(s), s, c);
  }

  /** What is left of a text after its entities are replaced and its white space is squeezed is the
    * same for every visiting order. */
  ghost predicate TidiedAlike(tb: set<Entity>, t: string) {
    forall p, q | Visits(tb, p) && Visits(tb, q) :: Whitespace(InOrder(t, p)) == Whitespace(InOrder(t, q))
  }

  lemma WhitespaceDiffers(x: string, y: string)
    requires Occurrences(x, '&') < Occurrences(y, '&')
    ensures Whitespace(x) != Whitespace(y)
  {
    WhitespaceKeepsOccurrences(x, '&');
    WhitespaceKeepsOccurrences(y, '&');
  }

  lemma NotAlike(tb: set<Entity>, t: string, p: seq<Entity>, q: seq<Entity>)
    requires Visits(tb, p) && Visits(tb, q)
    ensures Whitespace(InOrder(t, p)) != Whitespace(InOrder(t, q)) ==> !TidiedAlike(tb, t)
  {}

  lemma AllAlike(tb: set<Entity>, t: string)
    requires OrderFree(tb, t)
    ensures TidiedAlike(tb, t)
  {
    forall p, q | Visits(tb, p) && Visits(tb, q) ensures Whitespace(InOrder(t, p)) == Whitespace(InOrder(t, q)) {
      assert InOrder(t, p) == InOrder(t, q);
    }
  }

  lemma TidiedAlikeIff(tb: set<Entity>, amp: Entity, t: string, others: seq<Entity>)
    requires AmpTable(tb, amp) && Visits(tb - {amp}, others)
    ensures TidiedAlike(tb, t) <==> !DoublyEncoded(tb, amp, t)
  {
    OrderFreeIff(tb, amp, t, others);
    if DoublyEncoded(tb, amp, t) {
      var p, q := [amp] + others, others + [amp];
      OrdersDisagree(tb, amp, t, others);
      WhitespaceDiffers(InOrder(t, p), InOrder(t, q));
      NotAlike(tb, t, p, q);
    } else {
      AllAlike(tb, t);
    }
  }

  /** The visiting order of the entity table shows in the stripped text exactly when the tagless
    * text is doubly encoded. */
  lemma StripOrder(content: string)
    ensures (forall p, q | Visits(HTML, p) && Visits(HTML, q) :: Strip(content, p) == Strip(content, q)) <==>
            !DoublyEncoded(HTML, AMP, Tagless(content))
  {
    HtmlIsGood();
    var t := Tagless(content);
    TidiedAlikeIff(HTML, AMP, t, OTHERS);
    assert forall p :: Strip(content, p) == Whitespace(InOrder(t, p));
  }

  // ----- the code -----

  method ProcessWhitespace(content: string) returns (r: string)
    ensures r == Whitespace(content)
    ensures Tidy(r) && NoOuterSpace(r)
    ensures Words(r) == Words(content) && Markup(r) == Markup(content)
    ensures !Contains(Tightened(content), BULLET) ==> IsOneLine(r)
  {
    WhitespaceIsTidy(content);
    WhitespaceKeepsWords(content);
    WhitespaceKeepsMarkup(content);
    if !Contains(Tightened(content), BULLET) { NoItemsOneLine(content); }
    r := Squeeze(content, Blank, 1, " ");
    r := Squeeze(r, NewLine, 3, "\n\n");
    if !Contains(r, BULLET) {
      r := Squeeze(r, ReSpace, 1, " ");
    }
    r := TrimSpace(r);
  }

  method StripHTML(content: string, order: seq<Entity>) returns (r: string)
    requires Visits(HTML, order)
    ensures r == Strip(content, order)
    ensures Tidy(r) && NoOuterSpace(r)
    ensures '&' !in content ==> !Markup(r)
  {
    r := RemoveLinks(content);
    r := ProcessHTMLStructure(r);
    r := RemoveTags(r);
    r := ProcessHTMLEntities(r, order);
    r := ProcessWhitespace(r);
    StripIsTidy(content, order);
    if '&' !in content { StripLeavesNoMarkup(content, order); }
  }
}
