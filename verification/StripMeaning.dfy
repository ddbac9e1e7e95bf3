/** What the pipeline makes of whole documents: the words of paragraphs and list items, and the
  * texts that it leaves as they are. */
module StripMeaning {
  import opened Wrappers
  import opened Text
  import opened Entities
  import opened Structure
  import opened StripHtml
  import Paragraphs

  // ----- texts whose tags all have a rule -----

  /** Clean text in which every tag has a rule and no entity is spelled. */
  predicate Ruled(ts: seq<Token>) {
    Clean(ts) && forall i | 0 <= i < |ts| :: if ts[i].Tag? then RuleFor(ts[i].name, Rules()).Some? else ts[i].c != '&'
  }

  lemma NoRuleForLinks(name: string)
    requires RuleFor(name, Rules()).Some?
    ensures name != "" && name[0] != 'a' && '&' !in name
    ensures '<' !in RuleFor(name, Rules()).value && '&' !in RuleFor(name, Rules()).value
  {
    TheTable(name);
  }

  lemma NoLinkHere(s: string)
    requires s != "" && s[0] != '<'
    ensures RemoveLinks(s) == [s[0]] + RemoveLinks(s[1..])
  {
    assert !At(s, 0, "<a") by { assert |s| >= 2 ==> s[0..2][0] == s[0]; }
  }

  lemma {:induction false} LinksSkip(u: string, s: string)
    requires '<' !in u
    ensures RemoveLinks(u + s) == u + RemoveLinks(s)
  {
    if u == "" {
      assert u + s == s;
    } else {
      HeadBack(u, s);
      HeadBack(u, RemoveLinks(s));
      NoLinkHere(u + s);
      LinksSkip(u[1..], s);
    }
  }

  /** A link in a text without other tags goes with its own text, whatever that is. */
  lemma StripLink(x: string, space: char, attrs: string, text: string, y: string, order: seq<Entity>)
    requires '<' !in x && '<' !in y && IsLink(space, attrs, text)
    ensures Strip(x + (Link(space, attrs, text) + y), order) == Strip(x + y, order)
  {
    LinksSkip(x, Link(space, attrs, text) + y);
    LinkIsRemoved(space, attrs, text, y);
    LinksSkip(x, y);
    SameTagless(x + (Link(space, attrs, text) + y), x + y);
  }

  lemma SameTagless(s: string, t: string)
    requires RemoveLinks(s) == RemoveLinks(t)
    ensures forall order :: Strip(s, order) == Strip(t, order)
  {
    assert Tagless(s) == Tagless(t);
  }

  lemma NoLinkAtTag(name: string, s: string)
    requires NoBrackets(name) && name != "" && name[0] != 'a'
    ensures RemoveLinks(Tagged(name) + s) == Tagged(name) + RemoveLinks(s)
  {
    var t := Tagged(name) + s;
    assert t[1] == name[0];
    assert t[0] == '<' && t[1..] == (name + ">") + s;
    assert LinkEnd(t).None? by { assert t[0..2] == [t[0], t[1]]; }
    LinksSkip(name + ">", s);
    assert ['<'] + ((name + ">") + RemoveLinks(s)) == Tagged(name) + RemoveLinks(s);
  }

  lemma {:induction false} NoLinks(ts: seq<Token>)
    requires Ruled(ts)
    ensures RemoveLinks(Spelled(ts)) == Spelled(ts)
  {
    if ts != [] {
      NoLinks(ts[1..]);
      if ts[0].Tag? {
        NoRuleForLinks(ts[0].name);
        NoLinkAtTag(ts[0].name, Spelled(ts[1..]));
      } else {
        LinksSkip([ts[0].c], Spelled(ts[1..]));
      }
    }
  }

  lemma {:induction false} NoTagLeft(ts: seq<Token>)
    requires Ruled(ts)
    ensures '<' !in Spelled(Images(ts, Rules())) && '&' !in Spelled(Images(ts, Rules()))
  {
    if ts != [] {
      NoTagLeft(ts[1..]);
      var image := Image(ts[0], Rules());
      SpelledAppend(image, Images(ts[1..], Rules()));
      if ts[0].Tag? {
        NoRuleForLinks(ts[0].name);
        SpelledRunes(RuleFor(ts[0].name, Rules()).value);
      } else {
        assert Spelled(image) == [ts[0].c] by { assert image[1..] == []; }
      }
    }
  }

  /** For every visiting order, what is left are the words of the text with each tag replaced. */
  lemma StripOfRuled(ts: seq<Token>, order: seq<Entity>)
    requires Ruled(ts)
    ensures Words(Strip(Spelled(ts), order)) == Words(Spelled(Images(ts, Rules())))
  {
    var s, t := Spelled(ts), Spelled(Images(ts, Rules()));
    NoLinks(ts);
    WhatRulesDo(s);
    assert ReplaceEach(s, Rules()) == t;
    NoTagLeft(ts);
    MarkupMeans(t);
    NothingToRemove(t);
    NoEntities(t, order);
    StripIsTidy(s, order);
  }

  // ----- words across a gap -----

  lemma {:induction false} WordsAcross(x: string, y: string)
    requires AtGap(y)
    ensures Words(x + y) == Words(x) + Words(y)
    decreases |x|
  {
    if x == "" {
      assert x + y == y;
    } else {
      var n := Run(x, Solid);
      if n == 0 {
        assert (x + y)[1..] == x[1..] + y;
        WordsAcross(x[1..], y);
      } else {
        assert x + y == x[..n] + (x[n..] + y);
        WordsAcross(x[n..], y);
        WordsOfWord(x[..n], x[n..] + y);
      }
    }
  }

  lemma WordsOfLine(x: string, gap: string, y: string)
    requires gap != "" && AllSpace(gap)
    ensures Words(x + (gap + y)) == Words(x) + Words(y)
  {
    WordsAcross(x, gap + y);
    WordsOfSpace(gap, y);
  }

  // ----- paragraphs -----

  predicate PlainText(x: string) {
    '<' !in x && '>' !in x && '&' !in x
  }

  predicate AllPlainText(xs: seq<string>) {
    forall i | 0 <= i < |xs| :: PlainText(xs[i])
  }

  function AllWords(xs: seq<string>): seq<string> {
    if xs == [] then [] else Words(xs[0]) + AllWords(xs[1..])
  }

  function ParaTokens(xs: seq<string>): seq<Token> {
    if xs == [] then [] else [Tag("p")] + (Runes(xs[0]) + ([Tag("/p")] + ParaTokens(xs[1..])))
  }

  lemma SpelledCons(t: Token, ts: seq<Token>)
    ensures Spelled([t] + ts) == Shown(t) + Spelled(ts)
    ensures Images([t] + ts, Rules()) == Image(t, Rules()) + Images(ts, Rules())
  {
    assert ([t] + ts)[1..] == ts;
  }

  lemma {:induction false} ImagesAppend(p: seq<Token>, q: seq<Token>, rules: seq<Rule>)
    ensures Images(p + q, rules) == Images(p, rules) + Images(q, rules)
  {
    if p == [] {
      assert p + q == q;
    } else {
      assert (p + q)[1..] == p[1..] + q;
      ImagesAppend(p[1..], q, rules);
    }
  }

  lemma {:induction false} ImagesOfRunes(x: string, rules: seq<Rule>)
    ensures Images(Runes(x), rules) == Runes(x)
  {
    if x != "" {
      assert Runes(x)[1..] == Runes(x[1..]);
      ImagesOfRunes(x[1..], rules);
      assert Runes(x) == [Rune(x[0])] + Runes(x[1..]);
    }
  }

  lemma RunesFirst(x: string, ts: seq<Token>)
    ensures Spelled(Runes(x) + ts) == x + Spelled(ts)
    ensures Images(Runes(x) + ts, Rules()) == Runes(x) + Images(ts, Rules())
  {
    SpelledAppend(Runes(x), ts);
    SpelledRunes(x);
    ImagesAppend(Runes(x), ts, Rules());
    ImagesOfRunes(x, Rules());
  }

  lemma ReplacedTag(name: string, text: string, ts: seq<Token>)
    requires RuleFor(name, Rules()) == Some(text)
    ensures Spelled(Images([Tag(name)] + ts, Rules())) == text + Spelled(Images(ts, Rules()))
  {
    SpelledCons(Tag(name), ts);
    SpelledAppend(Runes(text), Images(ts, Rules()));
    SpelledRunes(text);
  }

  lemma ReplacedRunes(x: string, ts: seq<Token>)
    ensures Spelled(Images(Runes(x) + ts, Rules())) == x + Spelled(Images(ts, Rules()))
  {
    RunesFirst(x, ts);
    SpelledAppend(Runes(x), Images(ts, Rules()));
    SpelledRunes(x);
  }

  lemma RuledAppend(p: seq<Token>, q: seq<Token>)
    requires Ruled(p) && Ruled(q)
    ensures Ruled(p + q)
  {}

  lemma RuledTag(name: string)
    requires RuleFor(name, Rules()).Some? && NoBrackets(name)
    ensures Ruled([Tag(name)])
  {}

  /** A text between two tags, and what becomes of it. */
  lemma Wrapped(open: string, x: string, close: string, before: string, after: string, rest: seq<Token>)
    requires RuleFor(open, Rules()) == Some(before) && RuleFor(close, Rules()) == Some(after)
    requires NoBrackets(open) && NoBrackets(close) && PlainText(x) && Ruled(rest)
    ensures var ts := [Tag(open)] + (Runes(x) + ([Tag(close)] + rest));
            && Ruled(ts) && Spelled(ts) == Tagged(open) + (x + (Tagged(close) + Spelled(rest)))
            && Spelled(Images(ts, Rules())) == before + (x + (after + Spelled(Images(rest, Rules()))))
  {
    var closed := [Tag(close)] + rest;
    RuledTag(open);
    RuledTag(close);
    RuledAppend([Tag(close)], rest);
    RuledAppend(Runes(x), closed);
    RuledAppend([Tag(open)], Runes(x) + closed);
    SpelledCons(Tag(close), rest);
    RunesFirst(x, closed);
    SpelledCons(Tag(open), Runes(x) + closed);
    ReplacedTag(close, after, rest);
    ReplacedRunes(x, closed);
    ReplacedTag(open, before, Runes(x) + closed);
  }

  lemma ParaRules()
    ensures RuleFor("p", Rules()) == Some("") && RuleFor("/p", Rules()) == Some("\n")
    ensures NoBrackets("p") && NoBrackets("/p")
  {
    TheTable("p");
    TheTable("/p");
  }

  lemma ParaWords(image: string, x: string, rest: string)
    requires image == "" + (x + ("\n" + rest))
    ensures Words(image) == Words(x) + Words(rest)
  {
    WordsOfLine(x, "\n", rest);
    assert image == x + ("\n" + rest);
  }

  lemma {:induction false} ParaText(xs: seq<string>)
    requires AllPlainText(xs)
    ensures Spelled(ParaTokens(xs)) == Paragraphs.Document(xs) && Ruled(ParaTokens(xs))
    ensures Words(Spelled(Images(ParaTokens(xs), Rules()))) == AllWords(xs)
  {
    if xs != [] {
      var x, rest := xs[0], ParaTokens(xs[1..]);
      ParaText(xs[1..]);
      ParaRules();
      Wrapped("p", x, "/p", "", "\n", rest);
      ParaWords(Spelled(Images(ParaTokens(xs), Rules())), x, Spelled(Images(rest, Rules())));
      ParaSpelled(x, Paragraphs.Document(xs[1..]));
    }
  }

  lemma ParaSpelled(x: string, rest: string)
    ensures Tagged("p") + (x + (Tagged("/p") + rest)) == "<p>" + x + "</p>" + rest
  {
    assert Tagged("p") == "<p>" && Tagged("/p") == "</p>";
  }

  /** The words of a stripped document of paragraphs are the words of its paragraphs, one after the
    * other: paragraphs never run together. */
  lemma StripParagraphs(xs: seq<string>, order: seq<Entity>)
    requires AllPlainText(xs)
    ensures Words(Strip(Paragraphs.Document(xs), order)) == AllWords(xs)
  {
    ParaText(xs);
    StripOfRuled(ParaTokens(xs), order);
  }

  // ----- list items -----

  function Items(xs: seq<string>): string {
    if xs == [] then "" else "<li>" + xs[0] + "</li>" + Items(xs[1..])
  }

  function ItemTokens(xs: seq<string>): seq<Token> {
    if xs == [] then [] else [Tag("li")] + (Runes(xs[0]) + ([Tag("/li")] + ItemTokens(xs[1..])))
  }

  /** Every item starts with a bullet. */
  function BulletWords(xs: seq<string>): seq<string> {
    if xs == [] then [] else ["\U{2022}"] + Words(xs[0]) + BulletWords(xs[1..])
  }

  lemma ItemRules()
    ensures RuleFor("li", Rules()) == Some("\n\U{2022} ") && RuleFor("/li", Rules()) == Some("")
    ensures NoBrackets("li") && NoBrackets("/li")
  {
    TheTable("li");
    TheTable("/li");
  }

  lemma GapWordGap(gap: string, w: string, space: string, x: string, rest: string)
    requires AllSpace(gap) && AllSpace(space) && space != "" && AtGap(rest)
    requires w != "" && forall i | 0 <= i < |w| :: Solid(w[i])
    ensures Words(gap + (w + (space + (x + rest)))) == [w] + Words(x) + Words(rest)
  {
    WordsOfSpace(gap, w + (space + (x + rest)));
    WordsOfWord(w, space + (x + rest));
    WordsOfSpace(space, x + rest);
    WordsAcross(x, rest);
  }

  lemma BulletLine(t: string)
    ensures "\n\U{2022} " + t == "\n" + ("\U{2022}" + (" " + t))
  {
    assert "\n\U{2022} " == "\n" + ("\U{2022}" + " ");
  }

  lemma NoBulletGap()
    ensures forall i | 0 <= i < |"\U{2022}"| :: Solid("\U{2022}"[i])
  {}

  lemma ItemWords(image: string, x: string, rest: string)
    requires AtGap(rest) && image == "\n\U{2022} " + (x + ("" + rest))
    ensures AtGap(image) && Words(image) == ["\U{2022}"] + Words(x) + Words(rest)
  {
    assert "" + rest == rest;
    NoBulletGap();
    BulletLine(x + rest);
    GapWordGap("\n", "\U{2022}", " ", x, rest);
  }

  lemma {:induction false} ItemText(xs: seq<string>)
    requires AllPlainText(xs)
    ensures Spelled(ItemTokens(xs)) == Items(xs) && Ruled(ItemTokens(xs))
    ensures AtGap(Spelled(Images(ItemTokens(xs), Rules())))
    ensures Words(Spelled(Images(ItemTokens(xs), Rules()))) == BulletWords(xs)
  {
    if xs != [] {
      var x, rest := xs[0], ItemTokens(xs[1..]);
      ItemText(xs[1..]);
      ItemRules();
      Wrapped("li", x, "/li", "\n\U{2022} ", "", rest);
      ItemWords(Spelled(Images(ItemTokens(xs), Rules())), x, Spelled(Images(rest, Rules())));
      ItemSpelled(x, Items(xs[1..]));
    }
  }

  lemma ItemSpelled(x: string, rest: string)
    ensures Tagged("li") + (x + (Tagged("/li") + rest)) == "<li>" + x + "</li>" + rest
  {
    assert Tagged("li") == "<li>" && Tagged("/li") == "</li>";
  }

  /** The words of stripped list items are those of the items, each after its bullet. */
  lemma StripItems(xs: seq<string>, order: seq<Entity>)
    requires AllPlainText(xs)
    ensures Words(Strip(Items(xs), order)) == BulletWords(xs)
  {
    ItemText(xs);
    StripOfRuled(ItemTokens(xs), order);
  }

  // ----- the texts that the white space pass leaves as they are -----

  lemma {:induction false} SinglesStay(s: string, cls: char -> bool)
    requires forall i | 0 <= i < |s| :: cls(s[i]) ==> s[i] == ' ' && (i + 1 < |s| ==> !cls(s[i + 1]))
    ensures Squeeze(s, cls, 1, " ") == s
  {
    if s != "" {
      SinglesStay(s[1..], cls);
      if cls(s[0]) { assert Run(s[1..], cls) == 0; }
      assert s == [s[0]] + s[1..];
    }
  }

  lemma ShortRun(s: string)
    requires AtMostOneEmptyLine(s)
    ensures Run(s, NewLine) < 3
  {
    assert |s| >= 3 ==> !(s[0] == '\n' && s[1] == '\n' && s[2] == '\n');
  }

  lemma {:induction false} FewBreaksStay(s: string)
    requires AtMostOneEmptyLine(s)
    ensures Squeeze(s, NewLine, 3, "\n\n") == s
  {
    if s != "" {
      ShortRun(s);
      FewBreaksStay(s[1..]);
      HeadBack(s, "");
    }
  }

  lemma TidyStays(s: string)
    requires Tidy(s)
    ensures Tightened(s) == s
  {
    SinglesStay(s, Blank);
    FewBreaksStay(s);
  }

  lemma TrimmedStays(s: string)
    requires NoOuterSpace(s)
    ensures TrimSpace(s) == s
  {
    assert TrimLeft(s) == s;
    assert TrimRight(s) == s;
  }

  lemma LinedStays(s: string)
    requires Tidy(s) && (Contains(s, "\U{2022} ") || IsOneLine(s))
    ensures Lined(s) == s
  {
    if !Contains(s, "\U{2022} ") {
      assert forall i | 0 <= i < |s| :: s[i] in s;
      SinglesStay(s, ReSpace);
    }
  }

  lemma Stays(s: string)
    requires Tidy(s) && NoOuterSpace(s) && Lined(s) == s
    ensures Whitespace(s) == s
  {
    TidyStays(s);
    TrimmedStays(s);
  }

  lemma StaysOnlyIf(s: string)
    requires Whitespace(s) == s
    ensures Tidy(s) && NoOuterSpace(s) && (Contains(s, "\U{2022} ") || IsOneLine(s))
  {
    WhitespaceIsTidy(s);
    TidyStays(s);
    if !Contains(s, "\U{2022} ") { NoItemsOneLine(s); }
  }

  /** The white space pass leaves exactly these texts as they are: tidy ones without outer white
    * space that have a list item or are one line. */
  lemma UnchangedWhitespace(s: string)
    ensures Whitespace(s) == s <==>
            Tidy(s) && NoOuterSpace(s) && (Contains(s, "\U{2022} ") || IsOneLine(s))
  {
    if Tidy(s) && NoOuterSpace(s) && (Contains(s, "\U{2022} ") || IsOneLine(s)) {
      LinedStays(s);
      Stays(s);
    } else if Whitespace(s) == s {
      StaysOnlyIf(s);
    }
  }

  lemma Regroup(a: string, x: string, b: string, y: string)
    ensures a + x + b + (a + y + b + "") == a + x + (b + a) + y + b
  {}

  /** The document of two paragraphs, spelled out. */
  lemma TwoParas(x: string, y: string)
    ensures Paragraphs.Document([x, y]) == "<p>" + x + "</p><p>" + y + "</p>"
  {
    assert [x, y][1..] == [y] && [y][1..] == [];
    assert Paragraphs.Document([y]) == "<p>" + y + "</p>" + "";
    Regroup("<p>", x, "</p>", y);
    assert "</p>" + "<p>" == "</p><p>";
  }
}
