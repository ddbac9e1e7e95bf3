/** The structure pass: one replacement after the other. On a text whose tags are closed before
  * the next one opens, that is one replacement per tag, each at its place. */
module Structure {
  import opened Wrappers
  import opened Text

  /** The name of a tag, and what it is replaced by. */
  type Rule = (string, string)

  /** What the structure pass replaces, in order. */
  const LISTS: seq<Rule> :=
    [("li", "\n\U{2022} "), ("/li", ""), ("ul", ""), ("/ul", ""), ("ol", ""), ("/ol", ""), ("p", ""), ("/p", "\n")]
  const QUOTES: seq<Rule> :=
    [("blockquote", ""), ("/blockquote", ""), ("pre", ""), ("/pre", ""), ("pre data-language=\"plain\"", "")]

  /** The two rules for headings of level i. */
  function Heading(i: nat): seq<Rule>
    requires 1 <= i <= 6
  {
    var digit := ['0' + i as char];
    [("h" + digit, ""), ("/h" + digit, " ")]
  }

  function Headings(n: nat): seq<Rule>
    requires n <= 6
  {
    if n == 0 then [] else Headings(n - 1) + Heading(n)
  }

  function Rules(): seq<Rule> {
    LISTS + Headings(6) + QUOTES
  }

  function ReplaceEach(s: string, rules: seq<Rule>): string {
    if rules == [] then s
    else
      var k := |rules| - 1;
      ReplaceAll(ReplaceEach(s, rules[..k]), Tagged(rules[k].0), rules[k].1)
  }

  lemma {:induction false} ReplaceEachConcat(s: string, p: seq<Rule>, q: seq<Rule>)
    ensures ReplaceEach(s, p + q) == ReplaceEach(ReplaceEach(s, p), q)
  {
    if q == [] {
      assert p + q == p;
    } else {
      var k := |q| - 1;
      assert (p + q)[..|p + q| - 1] == p + q[..k];
      ReplaceEachConcat(s, p, q[..k]);
    }
  }

  // ----- tags and other runes -----

  datatype Token = Tag(name: string) | Rune(c: char)

  predicate NoBrackets(s: string) {
    '<' !in s && '>' !in s
  }

  function Tagged(name: string): string {
    "<" + name + ">"
  }

  /** Every '<' opens a tag that is closed before the next '<'. */
  predicate Clean(ts: seq<Token>) {
    forall i | 0 <= i < |ts| :: if ts[i].Tag? then NoBrackets(ts[i].name) else ts[i].c != '<'
  }

  function Shown(t: Token): string {
    if t.Tag? then Tagged(t.name) else [t.c]
  }

  function Spelled(ts: seq<Token>): string {
    if ts == [] then "" else Shown(ts[0]) + Spelled(ts[1..])
  }

  function Runes(s: string): seq<Token> {
    seq(|s|, i requires 0 <= i < |s| => Rune(s[i]))
  }

  /** The name is that of a tag, and the replacement opens none. */
  predicate TagRule(r: Rule) {
    NoBrackets(r.0) && '<' !in r.1
  }

  predicate TagRules(rules: seq<Rule>) {
    forall i | 0 <= i < |rules| :: TagRule(rules[i])
  }

  /** The replacement by the first rule for a tag. */
  function RuleFor(name: string, rules: seq<Rule>): Option<string> {
    if rules == [] then None
    else
      var k := |rules| - 1;
      var earlier := RuleFor(name, rules[..k]);
      if earlier.Some? then earlier else if rules[k].0 == name then Some(rules[k].1) else None
  }

  function Image(t: Token, rules: seq<Rule>): seq<Token> {
    if t.Tag? && RuleFor(t.name, rules).Some? then Runes(RuleFor(t.name, rules).value) else [t]
  }

  /** Every tag that has a rule is replaced at its place; everything else is kept. */
  function Images(ts: seq<Token>, rules: seq<Rule>): seq<Token> {
    if ts == [] then [] else Image(ts[0], rules) + Images(ts[1..], rules)
  }

  lemma {:induction false} SpelledAppend(p: seq<Token>, q: seq<Token>)
    ensures Spelled(p + q) == Spelled(p) + Spelled(q)
  {
    if p == [] {
      assert p + q == q;
    } else {
      assert (p + q)[1..] == p[1..] + q;
      SpelledAppend(p[1..], q);
    }
  }

  lemma {:induction false} SpelledRunes(s: string)
    ensures Spelled(Runes(s)) == s
  {
    if s != "" {
      assert Runes(s)[1..] == Runes(s[1..]);
      SpelledRunes(s[1..]);
    }
  }

  // ----- one rule -----

  /** What one replacement does to the tokens. */
  function Substitute(ts: seq<Token>, name: string, new': string): seq<Token> {
    if ts == [] then [] else (if ts[0] == Tag(name) then Runes(new') else [ts[0]]) + Substitute(ts[1..], name, new')
  }

  lemma {:induction false} ReplaceSkips(u: string, s: string, old': string, new': string)
    requires old' != "" && old'[0] !in u
    ensures ReplaceAll(u + s, old', new') == u + ReplaceAll(s, old', new')
  {
    if u == "" {
      assert u + s == s;
    } else {
      assert (u + s)[0] == u[0] && (u + s)[1..] == u[1..] + s;
      ReplaceSkips(u[1..], s, old', new');
    }
  }

  /** A tag starts the text only if it is the tag there. */
  lemma OnlyThisTag(name: string, other: string, rest: string)
    requires NoBrackets(name) && NoBrackets(other) && Tagged(name) <= Tagged(other) + rest
    ensures name == other
  {
    var s := Tagged(other) + rest;
    var n, m := |name|, |other|;
    assert Tagged(name)[n + 1] == '>' && s[m + 1] == '>';
    assert s[n + 1] == Tagged(name)[n + 1];
    forall i | 0 <= i < n && n == m ensures name[i] == other[i] {
      assert Tagged(name)[i + 1] == s[i + 1];
    }
  }

  lemma ReplaceAtTag(name: string, other: string, rest: string, new': string)
    requires NoBrackets(name) && NoBrackets(other)
    ensures ReplaceAll(Tagged(other) + rest, Tagged(name), new') ==
            (if name == other then new' else Tagged(other)) + ReplaceAll(rest, Tagged(name), new')
  {
    var s := Tagged(other) + rest;
    if name == other {
      assert s[|Tagged(name)|..] == rest;
    } else {
      if Tagged(name) <= s { OnlyThisTag(name, other, rest); }
      var u := other + ">";
      assert s[0] == '<' && s[1..] == u + rest;
      ReplaceSkips(u, rest, Tagged(name), new');
      assert ['<'] + (u + ReplaceAll(rest, Tagged(name), new')) == Tagged(other) + ReplaceAll(rest, Tagged(name), new');
    }
  }

  /** ReplaceAll of a tag acts on whole tags, as long as the text is clean. */
  lemma {:induction false} ReplaceIsSubstitute(ts: seq<Token>, name: string, new': string)
    requires Clean(ts) && NoBrackets(name)
    ensures ReplaceAll(Spelled(ts), Tagged(name), new') == Spelled(Substitute(ts, name, new'))
  {
    if ts != [] {
      var t, rest := ts[0], ts[1..];
      ReplaceIsSubstitute(rest, name, new');
      var head := if t == Tag(name) then Runes(new') else [t];
      SpelledAppend(head, Substitute(rest, name, new'));
      SpelledRunes(new');
      assert Spelled([t]) == Shown(t) by { assert [t][1..] == []; }
      if t.Tag? {
        ReplaceAtTag(name, t.name, Spelled(rest), new');
      } else {
        ReplaceSkips([t.c], Spelled(rest), Tagged(name), new');
      }
    }
  }

  // ----- all rules -----

  lemma {:induction false} SubstituteAppend(p: seq<Token>, q: seq<Token>, name: string, new': string)
    ensures Substitute(p + q, name, new') == Substitute(p, name, new') + Substitute(q, name, new')
  {
    if p == [] {
      assert p + q == q;
    } else {
      assert (p + q)[1..] == p[1..] + q;
      SubstituteAppend(p[1..], q, name, new');
    }
  }

  lemma {:induction false} SubstituteRunes(s: string, name: string, new': string)
    ensures Substitute(Runes(s), name, new') == Runes(s)
  {
    if s != "" {
      assert Runes(s)[1..] == Runes(s[1..]);
      SubstituteRunes(s[1..], name, new');
      assert Runes(s) == [Rune(s[0])] + Runes(s[1..]);
    }
  }

  lemma {:induction false} CleanImages(ts: seq<Token>, rules: seq<Rule>)
    requires Clean(ts) && TagRules(rules)
    ensures Clean(Images(ts, rules))
  {
    if ts != [] {
      CleanImages(ts[1..], rules);
      if ts[0].Tag? && RuleFor(ts[0].name, rules).Some? { RuleForIsRule(ts[0].name, rules); }
    }
  }

  lemma {:induction false} RuleForIsRule(name: string, rules: seq<Rule>)
    requires TagRules(rules) && RuleFor(name, rules).Some?
    ensures '<' !in RuleFor(name, rules).value
  {
    var k := |rules| - 1;
    if RuleFor(name, rules[..k]).Some? { RuleForIsRule(name, rules[..k]); } else { assert TagRule(rules[k]); }
  }

  /** The last rule finds only the tags that no rule before it has replaced. */
  lemma {:induction false} OneMoreRule(ts: seq<Token>, rules: seq<Rule>)
    requires rules != []
    ensures var last := rules[|rules| - 1];
            Substitute(Images(ts, rules[..|rules| - 1]), last.0, last.1) == Images(ts, rules)
  {
    if ts != [] {
      var before, name, new' := rules[..|rules| - 1], rules[|rules| - 1].0, rules[|rules| - 1].1;
      var t, image := ts[0], Image(ts[0], before);
      OneMoreRule(ts[1..], rules);
      SubstituteAppend(image, Images(ts[1..], before), name, new');
      if t.Tag? && RuleFor(t.name, before).Some? { SubstituteRunes(RuleFor(t.name, before).value, name, new'); }
      assert image == [t] ==> Substitute(image, name, new') == (if t == Tag(name) then Runes(new') else [t]);
    }
  }

  /** The replacements, one after the other, are the simultaneous replacement of all tags: none
    * brings about or destroys a tag for another. */
  lemma {:induction false} EachAtItsPlace(ts: seq<Token>, rules: seq<Rule>)
    requires Clean(ts) && TagRules(rules)
    ensures ReplaceEach(Spelled(ts), rules) == Spelled(Images(ts, rules))
  {
    if rules == [] {
      NoRules(ts);
    } else {
      var k := |rules| - 1;
      assert TagRule(rules[k]);
      EachAtItsPlace(ts, rules[..k]);
      CleanImages(ts, rules[..k]);
      ReplaceIsSubstitute(Images(ts, rules[..k]), rules[k].0, rules[k].1);
      OneMoreRule(ts, rules);
    }
  }

  lemma {:induction false} NoRules(ts: seq<Token>)
    ensures Images(ts, []) == ts
  {
    if ts != [] { NoRules(ts[1..]); }
  }

  // ----- the rules of the code -----

  lemma {:induction false} ReplaceEachRunes(s: string, rules: seq<Rule>, c: char)
    requires c !in s && forall r | r in rules :: c !in r.1
    ensures c !in ReplaceEach(s, rules)
  {
    if rules != [] {
      var k := |rules| - 1;
      ReplaceEachRunes(s, rules[..k], c);
      assert rules[k] in rules;
      ReplaceAllRunes(ReplaceEach(s, rules[..k]), Tagged(rules[k].0), rules[k].1, c);
    }
  }

  lemma HeadingRules(i: nat, r: Rule)
    requires i <= 6 && r in Headings(i)
    ensures '&' !in r.1
  {}

  lemma ListRules(r: Rule)
    requires r in LISTS || r in QUOTES
    ensures '&' !in r.1
  {}

  lemma NoRuleMakesAmpersand(r: Rule)
    requires r in Rules()
    ensures '&' !in r.1
  {
    if r in Headings(6) { HeadingRules(6, r); } else { ListRules(r); }
  }

  lemma ListsAreTags()
    ensures TagRules(LISTS)
  {}

  lemma QuotesAreTags()
    ensures TagRules(QUOTES)
  {}

  lemma {:induction false} HeadingsAreTags(n: nat)
    requires n <= 6
    ensures TagRules(Headings(n))
  {
    if n > 0 { HeadingsAreTags(n - 1); }
  }

  lemma RulesAreTags()
    ensures TagRules(Rules())
  {
    ListsAreTags();
    HeadingsAreTags(6);
    QuotesAreTags();
  }

  lemma {:induction false} RuleForConcat(name: string, p: seq<Rule>, q: seq<Rule>)
    ensures RuleFor(name, p + q) == if RuleFor(name, p).Some? then RuleFor(name, p) else RuleFor(name, q)
  {
    if q == [] {
      assert p + q == p;
    } else {
      assert (p + q)[..|p + q| - 1] == p + q[..|q| - 1];
      RuleForConcat(name, p, q[..|q| - 1]);
    }
  }

  lemma RuleForCons(name: string, r: Rule, rest: seq<Rule>)
    ensures RuleFor(name, [r] + rest) == if r.0 == name then Some(r.1) else RuleFor(name, rest)
  {
    RuleForConcat(name, [r], rest);
    assert [r][..0] == [];
  }

  lemma {:induction false} RuleForHeading(name: string, n: nat)
    requires n <= 6
    ensures RuleFor(name, Headings(n)) ==
            if |name| == 2 && name[0] == 'h' && '1' <= name[1] <= '0' + n as char then Some("")
            else if |name| == 3 && name[..2] == "/h" && '1' <= name[2] <= '0' + n as char then Some(" ")
            else None
  {
    if n > 0 {
      var digit := ['0' + n as char];
      RuleForHeading(name, n - 1);
      RuleForConcat(name, Headings(n - 1), Heading(n));
      RuleForCons(name, Heading(n)[0], [Heading(n)[1]]);
      RuleForCons(name, Heading(n)[1], []);
      assert Heading(n) == [Heading(n)[0]] + [Heading(n)[1]] && [Heading(n)[1]] + [] == [Heading(n)[1]];
    }
  }

  lemma {:induction false} RuleForNone(name: string, rules: seq<Rule>)
    requires forall i | 0 <= i < |rules| :: rules[i].0 != name
    ensures RuleFor(name, rules).None?
  {
    if rules != [] { RuleForNone(name, rules[..|rules| - 1]); }
  }

  lemma {:induction false} RuleForAt(name: string, rules: seq<Rule>, i: nat)
    requires i < |rules| && rules[i].0 == name && forall j | 0 <= j < i :: rules[j].0 != name
    ensures RuleFor(name, rules) == Some(rules[i].1)
  {
    var k := |rules| - 1;
    if i < k { RuleForAt(name, rules[..k], i); } else { RuleForNone(name, rules[..k]); }
  }

  /** Tells the listed names apart. */
  function Key(s: string): (nat, char, char)
    requires s != ""
  {
    (|s|, s[0], s[if |s| > 1 then 1 else 0])
  }

  lemma ListKeys()
    ensures Key("li") == (2, 'l', 'i') && Key("/li") == (3, '/', 'l') && Key("ul") == (2, 'u', 'l')
    ensures Key("/ul") == (3, '/', 'u') && Key("ol") == (2, 'o', 'l') && Key("/ol") == (3, '/', 'o')
    ensures Key("p") == (1, 'p', 'p') && Key("/p") == (2, '/', 'p')
  {}

  lemma QuoteKeys()
    ensures Key("blockquote") == (10, 'b', 'l') && Key("/blockquote") == (11, '/', 'b') && Key("pre") == (3, 'p', 'r')
    ensures Key("/pre") == (4, '/', 'p') && Key("pre data-language=\"plain\"") == (25, 'p', 'r')
  {}

  lemma RuleInList(name: string)
    ensures RuleFor(name, LISTS) ==
            if name == "li" then Some("\n\U{2022} ")
            else if name == "/p" then Some("\n")
            else if name in ["/li", "ul", "/ul", "ol", "/ol", "p"] then Some("")
            else None
  {
    ListKeys();
    if i :| 0 <= i < 8 && LISTS[i].0 == name {
      RuleForAt(name, LISTS, i);
    } else {
      RuleForNone(name, LISTS);
      assert LISTS[0].0 != name && LISTS[1].0 != name && LISTS[2].0 != name && LISTS[3].0 != name;
      assert LISTS[4].0 != name && LISTS[5].0 != name && LISTS[6].0 != name && LISTS[7].0 != name;
    }
  }

  lemma RuleInQuotes(name: string)
    ensures RuleFor(name, QUOTES) ==
            if name in ["blockquote", "/blockquote", "pre", "/pre", "pre data-language=\"plain\""] then Some("")
            else None
  {
    QuoteKeys();
    if i :| 0 <= i < 5 && QUOTES[i].0 == name {
      RuleForAt(name, QUOTES, i);
    } else {
      RuleForNone(name, QUOTES);
      assert QUOTES[0].0 != name && QUOTES[1].0 != name && QUOTES[2].0 != name;
      assert QUOTES[3].0 != name && QUOTES[4].0 != name;
    }
  }

  lemma HeadingNames(name: string)
    ensures name in ["h1", "h2", "h3", "h4", "h5", "h6"] <==>
            |name| == 2 && name[0] == 'h' && '1' <= name[1] <= '6'
    ensures name in ["/h1", "/h2", "/h3", "/h4", "/h5", "/h6"] <==>
            |name| == 3 && name[..2] == "/h" && '1' <= name[2] <= '6'
  {
    if |name| == 2 { assert name == [name[0], name[1]]; }
    if |name| == 3 && name[..2] == "/h" {
      assert name == ['/', 'h', name[2]] by { assert name == name[..2] + [name[2]]; }
    }
  }

  /** What becomes of every tag: a list item starts a line with a bullet, a paragraph ends its
    * line, a heading leaves a space; the other listed tags leave nothing; no other tag has a rule. */
  lemma TheTable(name: string)
    ensures RuleFor(name, Rules()) ==
            if name == "li" then Some("\n\U{2022} ")
            else if name == "/p" then Some("\n")
            else if name in ["/li", "ul", "/ul", "ol", "/ol", "p"] then Some("")
            else if name in ["h1", "h2", "h3", "h4", "h5", "h6"] then Some("")
            else if name in ["/h1", "/h2", "/h3", "/h4", "/h5", "/h6"] then Some(" ")
            else if name in ["blockquote", "/blockquote", "pre", "/pre", "pre data-language=\"plain\""] then Some("")
            else None
  {
    RuleForConcat(name, LISTS + Headings(6), QUOTES);
    RuleForConcat(name, LISTS, Headings(6));
    RuleInList(name);
    RuleForHeading(name, 6);
    HeadingNames(name);
    RuleInQuotes(name);
  }

  // ----- the code -----

  method ReplaceRules(content: string, rules: seq<Rule>) returns (r: string)
    ensures r == ReplaceEach(content, rules)
  {
    r := content;
    for i := 0 to |rules|
      invariant r == ReplaceEach(content, rules[..i])
    {
      assert rules[..i + 1][..i] == rules[..i];
      r := ReplaceAll(r, Tagged(rules[i].0), rules[i].1);
    }
    assert rules[..|rules|] == rules;
  }

  method ProcessHTMLStructure(content: string) returns (r: string)
    ensures r == ReplaceEach(content, Rules())
    ensures forall ts | Clean(ts) && Spelled(ts) == content :: r == Spelled(Images(ts, Rules()))
  {
    r := ReplaceRules(content, LISTS);
    assert LISTS + Headings(0) == LISTS;
    for i := 1 to 7
      invariant r == ReplaceEach(content, LISTS + Headings(i - 1))
    {
      var digit := ['0' + i as char];
      ghost var before := r;
      r := ReplaceAll(r, "<h" + digit + ">", "");
      r := ReplaceAll(r, "</h" + digit + ">", " ");
      assert "<h" + digit + ">" == Tagged("h" + digit) && "</h" + digit + ">" == Tagged("/h" + digit);
      HeadingNext(content, before, i);
    }
    r := ReplaceRules(r, QUOTES);
    ReplaceEachConcat(content, LISTS + Headings(6), QUOTES);
    WhatRulesDo(content);
  }

  lemma WhatRulesDo(content: string)
    ensures forall ts | Clean(ts) && Spelled(ts) == content ::
              ReplaceEach(content, Rules()) == Spelled(Images(ts, Rules()))
  {
    RulesAreTags();
    forall ts | Clean(ts) && Spelled(ts) == content
      ensures ReplaceEach(content, Rules()) == Spelled(Images(ts, Rules()))
    {
      EachAtItsPlace(ts, Rules());
    }
  }

  lemma HeadingNext(content: string, before: string, i: nat)
    requires 1 <= i <= 6 && before == ReplaceEach(content, LISTS + Headings(i - 1))
    ensures ReplaceAll(ReplaceAll(before, Tagged(Heading(i)[0].0), ""), Tagged(Heading(i)[1].0), " ") ==
            ReplaceEach(content, LISTS + Headings(i))
  {
    TwoRules(before, Heading(i)[0], Heading(i)[1]);
    assert Heading(i) == [Heading(i)[0], Heading(i)[1]];
    ReplaceEachConcat(content, LISTS + Headings(i - 1), Heading(i));
    assert LISTS + Headings(i - 1) + Heading(i) == LISTS + Headings(i);
  }

  lemma TwoRules(s: string, p: Rule, q: Rule)
    ensures ReplaceEach(s, [p, q]) == ReplaceAll(ReplaceAll(s, Tagged(p.0), p.1), Tagged(q.0), q.1)
  {
    assert [p, q][..1] == [p] && [p][..0] == [];
    assert ReplaceEach(s, [p]) == ReplaceAll(s, Tagged(p.0), p.1);
  }
}
