/** Replacing HTML entities one after the other, in an order that is not fixed: when
  * does the order matter? The theory is for any good table; the table of the code
  * follows it. */
module Entities {
  import opened Text

  /** An ampersand followed by `tail` stands for `rune`. */
  datatype Entity = Entity(tail: string, rune: char)

  function Name(e: Entity): string {
    "&" + e.tail
  }

  /** A rune that no replacement of the table produces, and no name starts with. */
  ghost predicate Plain(tb: set<Entity>, c: char) {
    c != '&' && forall e | e in tb :: e.rune != c
  }

  ghost predicate AllPlain(tb: set<Entity>, w: string) {
    forall i | 0 <= i < |w| :: Plain(tb, w[i])
  }

  /** Tails are plain, and none is a prefix of another. */
  ghost predicate GoodTable(tb: set<Entity>) {
    && (forall e | e in tb :: e.tail != "" && AllPlain(tb, e.tail))
    && (forall e, f | e in tb && f in tb && e != f :: !(e.tail <= f.tail))
  }

  /** Only `amp` stands for the ampersand itself. */
  ghost predicate AmpTable(tb: set<Entity>, amp: Entity) {
    GoodTable(tb) && amp in tb && forall e | e in tb :: e.rune == '&' <==> e == amp
  }

  predicate Starts(s: string, e: Entity) {
    s != "" && s[0] == '&' && e.tail <= s[1..]
  }

  ghost predicate Hit(s: string, es: set<Entity>) {
    exists e :: e in es && Starts(s, e)
  }

  // ----- the two readings -----

  /** One pass from left to right that replaces the entities of `es` at once. */
  ghost function Decode(s: string, es: set<Entity>): string
    decreases |s|
  {
    if s == "" then ""
    else if Hit(s, es) then
      var e :| e in es && Starts(s, e);
      [e.rune] + Decode(s[1 + |e.tail|..], es)
    else [s[0]] + Decode(s[1..], es)
  }

  /** One ReplaceAll per entity, in the given order. */
  function InOrder(s: string, order: seq<Entity>): string {
    if order == [] then s
    else
      var k := |order| - 1;
      ReplaceAll(InOrder(s, order[..k]), Name(order[k]), [order[k].rune])
  }

  function Elements(order: seq<Entity>): set<Entity> {
    set e | e in order
  }

  ghost predicate Distinct(order: seq<Entity>) {
    forall i, j | 0 <= i < j < |order| :: order[i] != order[j]
  }

  /** A visiting order of the whole table: every entity exactly once. */
  ghost predicate Visits(tb: set<Entity>, order: seq<Entity>) {
    Elements(order) == tb && Distinct(order)
  }

  /** An escaped ampersand directly followed by the tail of another entity. */
  ghost predicate DoublyEncoded(tb: set<Entity>, amp: Entity, s: string) {
    exists e, i: nat :: e in tb && e != amp && DoubledAt(amp, s, i, e)
  }

  predicate DoubledAt(amp: Entity, s: string, i: nat, e: Entity) {
    i <= |s| && Starts(s[i..], amp) && e.tail <= s[i..][1 + |amp.tail|..]
  }

  // ----- one token at a time -----

  lemma StartsIsUnique(tb: set<Entity>, s: string, e: Entity, f: Entity)
    requires GoodTable(tb) && e in tb && f in tb && Starts(s, e) && Starts(s, f)
    ensures e == f
  {
    var u := s[1..];
    assert |e.tail| <= |f.tail| ==> u[..|f.tail|][..|e.tail|] == u[..|e.tail|];
    assert |f.tail| <= |e.tail| ==> u[..|e.tail|][..|f.tail|] == u[..|f.tail|];
  }

  lemma DecodeHit(tb: set<Entity>, s: string, es: set<Entity>, e: Entity)
    requires GoodTable(tb) && es <= tb && e in es && Starts(s, e)
    ensures Decode(s, es) == [e.rune] + Decode(s[1 + |e.tail|..], es)
  {
    assert Hit(s, es);
    forall f | f in es && Starts(s, f) ensures f == e { StartsIsUnique(tb, s, e, f); }
  }

  lemma NameIsPrefix(s: string, e: Entity)
    ensures Name(e) <= s <==> Starts(s, e)
  {
    if Name(e) <= s {
      assert s[0] == Name(e)[0];
      assert s[1..][..|e.tail|] == s[..|Name(e)|][1..] == e.tail;
    }
    if Starts(s, e) {
      assert s[..|Name(e)|] == [s[0]] + s[1..][..|e.tail|];
    }
  }

  lemma DoubledIsAt(amp: Entity, s: string, i: nat, e: Entity)
    requires i <= |s|
    ensures DoubledAt(amp, s, i, e) <==> At(s, i, Name(amp) + e.tail)
  {
    var n, u := |Name(amp)|, s[i..];
    NameIsPrefix(u, amp);
    if n + |e.tail| <= |u| {
      assert s[i..i + (n + |e.tail|)] == u[..n] + u[n..][..|e.tail|];
    }
  }

  lemma DoubledSomewhere(amp: Entity, s: string, e: Entity, w: string)
    requires w == Name(amp) + e.tail
    ensures (exists i: nat :: DoubledAt(amp, s, i, e)) <==> Contains(s, w)
  {
    forall i: nat | i <= |s| ensures DoubledAt(amp, s, i, e) <==> At(s, i, w) { DoubledIsAt(amp, s, i, e); }
  }

  /** A plain word passes through decoding unchanged. */
  lemma {:induction false} PlainStays(tb: set<Entity>, s: string, es: set<Entity>, w: string)
    requires AllPlain(tb, w) && w <= s
    ensures Decode(s, es) == w + Decode(s[|w|..], es)
  {
    if w == "" {
      assert s[0..] == s;
    } else {
      var v, t := w[1..], s[1..];
      assert s[0] == w[0] && Plain(tb, w[0]);
      assert v <= t by { assert t[..|v|] == s[..|w|][1..]; }
      PlainStays(tb, t, es, v);
      assert !Hit(s, es);
      assert t[|v|..] == s[|w|..];
      assert [w[0]] + (v + Decode(s[|w|..], es)) == w + Decode(s[|w|..], es);
    }
  }

  /** A plain word at the front of the decoded text was there before. */
  lemma {:induction false} PlainWasThere(tb: set<Entity>, s: string, es: set<Entity>, w: string)
    requires AllPlain(tb, w) && es <= tb && w <= Decode(s, es)
    ensures w <= s
  {
    if w != "" {
      var t, v := Decode(s, es), w[1..];
      assert t[0] == w[0] && Plain(tb, w[0]);
      assert !Hit(s, es);
      assert t[1..] == Decode(s[1..], es);
      assert v <= t[1..] by { assert t[1..][..|v|] == t[..|w|][1..]; }
      PlainWasThere(tb, s[1..], es, v);
      assert s[..|w|] == [s[0]] + s[1..][..|v|];
      assert w == [w[0]] + v;
    }
  }

  /** Decoding neither makes nor breaks a tail at the front of the text. */
  lemma TailStays(tb: set<Entity>, s: string, es: set<Entity>, e: Entity)
    requires GoodTable(tb) && es <= tb && e in tb
    ensures e.tail <= Decode(s, es) <==> e.tail <= s
    ensures e.tail <= s ==> Decode(s, es) == e.tail + Decode(s[|e.tail|..], es)
  {
    if e.tail <= s { PlainStays(tb, s, es, e.tail); }
    if e.tail <= Decode(s, es) { PlainWasThere(tb, s, es, e.tail); }
  }

  /** An entity outside `es` at the front of the text is still there after decoding. */
  lemma NameStays(tb: set<Entity>, s: string, es: set<Entity>, e: Entity)
    requires GoodTable(tb) && es <= tb && e in tb && e !in es && Starts(s, e)
    ensures Decode(s, es) == Name(e) + Decode(s[1 + |e.tail|..], es)
  {
    forall f | f in es && Starts(s, f) ensures false { StartsIsUnique(tb, s, e, f); }
    assert !Hit(s, es);
    TailStays(tb, s[1..], es, e);
    assert s[1..][|e.tail|..] == s[1 + |e.tail|..];
  }

  // ----- when the order does not matter -----

  lemma DoubledInSuffix(amp: Entity, s: string, k: nat, i: nat, e: Entity)
    requires k <= |s| && DoubledAt(amp, s[k..], i, e)
    ensures DoubledAt(amp, s, k + i, e)
  {
    assert s[k..][i..] == s[k + i..];
  }

  ghost predicate NeverDoubled(amp: Entity, s: string, e: Entity) {
    forall i: nat :: !DoubledAt(amp, s, i, e)
  }

  lemma NeverDoubledSuffix(amp: Entity, s: string, k: nat, e: Entity)
    requires k <= |s| && NeverDoubled(amp, s, e)
    ensures NeverDoubled(amp, s[k..], e)
  {
    forall i: nat ensures !DoubledAt(amp, s[k..], i, e) {
      if DoubledAt(amp, s[k..], i, e) { DoubledInSuffix(amp, s, k, i, e); }
    }
  }

  /** After a replaced entity, no name starts at its rune unless something is doubled. */
  lemma NoNameAtRune(tb: set<Entity>, amp: Entity, s: string, es: set<Entity>, f: Entity, e: Entity)
    requires AmpTable(tb, amp) && es <= tb && f in es && e in tb && e !in es && Starts(s, f)
    requires amp in es ==> NeverDoubled(amp, s, e)
    ensures !Starts(Decode(s, es), e)
  {
    var rest := s[1 + |f.tail|..];
    DecodeHit(tb, s, es, f);
    assert Decode(s, es)[1..] == Decode(rest, es);
    TailStays(tb, rest, es, e);
    if f == amp {
      assert s[0..] == s;
      assert !DoubledAt(amp, s, 0, e);
    }
  }

  lemma ReplaceHit(t: string, e: Entity, rest: string)
    requires t == Name(e) + rest
    ensures ReplaceAll(t, Name(e), [e.rune]) == [e.rune] + ReplaceAll(rest, Name(e), [e.rune])
  {
    assert t[|Name(e)|..] == rest;
  }

  lemma ReplaceMiss(t: string, e: Entity, c: char, rest: string)
    requires t == [c] + rest && !Starts(t, e)
    ensures ReplaceAll(t, Name(e), [e.rune]) == [c] + ReplaceAll(rest, Name(e), [e.rune])
  {
    NameIsPrefix(t, e);
    assert t[1..] == rest;
  }

  ghost predicate OneMore(s: string, es: set<Entity>, e: Entity) {
    ReplaceAll(Decode(s, es), Name(e), [e.rune]) == Decode(s, es + {e})
  }

  /** One more ReplaceAll adds one more entity to the simultaneous pass. */
  lemma {:induction false} OneMoreEntity(tb: set<Entity>, amp: Entity, s: string, es: set<Entity>, e: Entity)
    requires AmpTable(tb, amp) && es <= tb && e in tb && e !in es
    requires amp in es ==> NeverDoubled(amp, s, e)
    ensures OneMore(s, es, e)
    decreases |s|
  {
    if s != "" {
      var k := OneMoreToken(tb, amp, s, es, e);
      NextPlace(amp, s, es, e, k);
      OneMoreEntity(tb, amp, s[k..], es, e);
    }
  }

  /** The first token is a name, or a single rune. */
  lemma OneMoreToken(tb: set<Entity>, amp: Entity, s: string, es: set<Entity>, e: Entity) returns (k: nat)
    requires AmpTable(tb, amp) && es <= tb && e in tb && e !in es && s != ""
    requires amp in es ==> NeverDoubled(amp, s, e)
    ensures 1 <= k <= |s| && (OneMore(s[k..], es, e) ==> OneMore(s, es, e))
  {
    if Starts(s, e) {
      k := 1 + |e.tail|;
      if OneMore(s[k..], es, e) { AtTheEntity(tb, s, es, e); }
    } else if Hit(s, es) {
      var f :| f in es && Starts(s, f);
      k := 1 + |f.tail|;
      if OneMore(s[k..], es, e) { AtAnother(tb, amp, s, es, f, e); }
    } else {
      k := 1;
      if OneMore(s[k..], es, e) { AtALiteral(tb, s, es, e); }
    }
  }

  lemma NextPlace(amp: Entity, s: string, es: set<Entity>, e: Entity, k: nat)
    requires k <= |s| && (amp in es ==> NeverDoubled(amp, s, e))
    ensures amp in es ==> NeverDoubled(amp, s[k..], e)
  {
    if amp in es { NeverDoubledSuffix(amp, s, k, e); }
  }

  lemma AtTheEntity(tb: set<Entity>, s: string, es: set<Entity>, e: Entity)
    requires GoodTable(tb) && es <= tb && e in tb && e !in es && Starts(s, e)
    requires OneMore(s[1 + |e.tail|..], es, e)
    ensures OneMore(s, es, e)
  {
    DecodeHit(tb, s, es + {e}, e);
    NameStays(tb, s, es, e);
    ReplaceHit(Decode(s, es), e, Decode(s[1 + |e.tail|..], es));
  }

  lemma AtAnother(tb: set<Entity>, amp: Entity, s: string, es: set<Entity>, f: Entity, e: Entity)
    requires AmpTable(tb, amp) && es <= tb && f in es && e in tb && e !in es && Starts(s, f)
    requires amp in es ==> NeverDoubled(amp, s, e)
    requires OneMore(s[1 + |f.tail|..], es, e)
    ensures OneMore(s, es, e)
  {
    DecodeHit(tb, s, es + {e}, f);
    DecodeHit(tb, s, es, f);
    NoNameAtRune(tb, amp, s, es, f, e);
    ReplaceMiss(Decode(s, es), e, f.rune, Decode(s[1 + |f.tail|..], es));
  }

  lemma AtALiteral(tb: set<Entity>, s: string, es: set<Entity>, e: Entity)
    requires GoodTable(tb) && es <= tb && e in tb && s != "" && !Hit(s, es) && !Starts(s, e)
    requires OneMore(s[1..], es, e)
    ensures OneMore(s, es, e)
  {
    NoNameAtLiteral(tb, s, es, e);
    ReplaceMiss(Decode(s, es), e, s[0], Decode(s[1..], es));
    assert !Hit(s, es + {e});
  }

  lemma NoNameAtLiteral(tb: set<Entity>, s: string, es: set<Entity>, e: Entity)
    requires GoodTable(tb) && es <= tb && e in tb && s != "" && !Hit(s, es) && !Starts(s, e)
    ensures Decode(s, es) == [s[0]] + Decode(s[1..], es)
    ensures !Starts(Decode(s, es), e)
  {
    TailStays(tb, s[1..], es, e);
    assert Decode(s, es)[1..] == Decode(s[1..], es);
  }

  lemma {:induction false} DecodeNothing(s: string)
    ensures Decode(s, {}) == s
  {
    if s != "" { DecodeNothing(s[1..]); }
  }

  /** Any order reads as one simultaneous pass, if nothing is doubly encoded or the
    * ampersand comes last. */
  lemma {:induction false} InOrderIsDecode(tb: set<Entity>, amp: Entity, s: string, order: seq<Entity>)
    requires AmpTable(tb, amp) && Distinct(order) && Elements(order) <= tb
    requires DoublyEncoded(tb, amp, s) ==> amp !in order[..if order == [] then 0 else |order| - 1]
    ensures InOrder(s, order) == Decode(s, Elements(order))
  {
    if order == [] {
      DecodeNothing(s);
      assert Elements(order) == {};
    } else {
      var k := |order| - 1;
      var init, e := order[..k], order[k];
      assert Elements(order) == Elements(init) + {e};
      assert e !in Elements(init) && e in order;
      InOrderIsDecode(tb, amp, s, init);
      if amp in Elements(init) {
        assert !DoublyEncoded(tb, amp, s);
        forall i: nat ensures !DoubledAt(amp, s, i, e) {}
      }
      OneMoreEntity(tb, amp, s, Elements(init), e);
    }
  }

  // ----- when it does -----

  /** The first token of `s` that is not a doubly encoded place can be skipped. */
  lemma DoubledLater(tb: set<Entity>, amp: Entity, s: string, k: nat)
    requires 1 <= k <= |s| && (forall i | 1 <= i < k :: s[i] != '&')
    requires forall e | e in tb && e != amp :: !DoubledAt(amp, s, 0, e)
    ensures DoublyEncoded(tb, amp, s) ==> DoublyEncoded(tb, amp, s[k..])
  {
    if DoublyEncoded(tb, amp, s) {
      var e, i: nat :| e in tb && e != amp && DoubledAt(amp, s, i, e);
      assert s[i] == s[i..][0] == '&';
      assert i >= k;
      assert s[k..][i - k..] == s[i..];
      assert DoubledAt(amp, s[k..], i - k, e);
    }
  }

  ghost function AmpFirst(tb: set<Entity>, amp: Entity, s: string): string {
    Decode(Decode(s, {amp}), tb - {amp})
  }

  /** How the two readings compare in ampersands. */
  ghost predicate Fewer(tb: set<Entity>, amp: Entity, s: string) {
    var first, once := Occurrences(AmpFirst(tb, amp, s), '&'), Occurrences(Decode(s, tb), '&');
    first <= once && (DoublyEncoded(tb, amp, s) ==> first < once)
  }

  lemma FewerStep(tb: set<Entity>, amp: Entity, s: string, rest: string, c: char)
    requires AmpFirst(tb, amp, s) == [c] + AmpFirst(tb, amp, rest) && Decode(s, tb) == [c] + Decode(rest, tb)
    requires DoublyEncoded(tb, amp, s) ==> DoublyEncoded(tb, amp, rest)
    requires Fewer(tb, amp, rest)
    ensures Fewer(tb, amp, s)
  {
    OccurrencesCons(c, AmpFirst(tb, amp, rest), '&');
    OccurrencesCons(c, Decode(rest, tb), '&');
  }

  lemma FewerAtDoubled(tb: set<Entity>, amp: Entity, s: string, e: Entity)
    requires AmpTable(tb, amp) && Starts(s, amp) && e in tb && e != amp && DoubledAt(amp, s, 0, e)
    requires |e.tail| <= |s| - 1 - |amp.tail| && Fewer(tb, amp, s[1 + |amp.tail|..][|e.tail|..])
    ensures Fewer(tb, amp, s)
  {
    var rest := s[1 + |amp.tail|..][|e.tail|..];
    SkipDoubled(tb, amp, s, e);
    OccurrencesCons(e.rune, AmpFirst(tb, amp, rest), '&');
    OccurrencesCons(amp.rune, e.tail + Decode(rest, tb), '&');
    OccurrencesAppend(e.tail, Decode(rest, tb), '&');
  }

  lemma FewerAtAmp(tb: set<Entity>, amp: Entity, s: string)
    requires AmpTable(tb, amp) && Starts(s, amp) && forall e | e in tb && e != amp :: !DoubledAt(amp, s, 0, e)
    requires Fewer(tb, amp, s[1 + |amp.tail|..])
    ensures Fewer(tb, amp, s)
  {
    SkipAmp(tb, amp, s);
    NotInside(tb, s, amp);
    DoubledLater(tb, amp, s, 1 + |amp.tail|);
    FewerStep(tb, amp, s, s[1 + |amp.tail|..], amp.rune);
  }

  lemma NotDoubledHere(tb: set<Entity>, amp: Entity, s: string)
    requires !Starts(s, amp)
    ensures forall e | e in tb && e != amp :: !DoubledAt(amp, s, 0, e)
  {
    assert s[0..] == s;
  }

  lemma FewerAtEntity(tb: set<Entity>, amp: Entity, s: string, e: Entity)
    requires AmpTable(tb, amp) && e in tb && e != amp && Starts(s, e) && !Starts(s, amp)
    requires Fewer(tb, amp, s[1 + |e.tail|..])
    ensures Fewer(tb, amp, s)
  {
    SkipEntity(tb, amp, s, e);
    NotInside(tb, s, e);
    NotDoubledHere(tb, amp, s);
    DoubledLater(tb, amp, s, 1 + |e.tail|);
    FewerStep(tb, amp, s, s[1 + |e.tail|..], e.rune);
  }

  lemma FewerAtLiteral(tb: set<Entity>, amp: Entity, s: string)
    requires AmpTable(tb, amp) && s != "" && !Hit(s, tb) && Fewer(tb, amp, s[1..])
    ensures Fewer(tb, amp, s)
  {
    SkipLiteral(tb, amp, s);
    NotDoubledHere(tb, amp, s);
    DoubledLater(tb, amp, s, 1);
    FewerStep(tb, amp, s, s[1..], s[0]);
  }

  /** Replacing the ampersand first never leaves more ampersands than decoding at once, and
    * leaves fewer as soon as something is doubly encoded. */
  lemma {:induction false} AmpFirstLeavesFewer(tb: set<Entity>, amp: Entity, s: string)
    requires AmpTable(tb, amp)
    ensures Fewer(tb, amp, s)
    decreases |s|
  {
    if s == "" {
    } else if Starts(s, amp) {
      var rest := s[1 + |amp.tail|..];
      if e :| e in tb && e != amp && DoubledAt(amp, s, 0, e) {
        assert s[0..] == s;
        AmpFirstLeavesFewer(tb, amp, rest[|e.tail|..]);
        FewerAtDoubled(tb, amp, s, e);
      } else {
        AmpFirstLeavesFewer(tb, amp, rest);
        FewerAtAmp(tb, amp, s);
      }
    } else if Hit(s, tb) {
      var e :| e in tb && Starts(s, e);
      AmpFirstLeavesFewer(tb, amp, s[1 + |e.tail|..]);
      FewerAtEntity(tb, amp, s, e);
    } else {
      AmpFirstLeavesFewer(tb, amp, s[1..]);
      FewerAtLiteral(tb, amp, s);
    }
  }

  lemma NotInside(tb: set<Entity>, s: string, e: Entity)
    requires GoodTable(tb) && e in tb && Starts(s, e)
    ensures forall i | 1 <= i < 1 + |e.tail| :: s[i] != '&'
  {
    forall i | 1 <= i < 1 + |e.tail| ensures s[i] != '&' {
      assert s[i] == s[1..][..|e.tail|][i - 1] == e.tail[i - 1];
      assert Plain(tb, e.tail[i - 1]);
    }
  }

  lemma SkipEntity(tb: set<Entity>, amp: Entity, s: string, e: Entity)
    requires AmpTable(tb, amp) && e in tb && e != amp && Starts(s, e)
    ensures AmpFirst(tb, amp, s) == [e.rune] + AmpFirst(tb, amp, s[1 + |e.tail|..])
    ensures Decode(s, tb) == [e.rune] + Decode(s[1 + |e.tail|..], tb)
  {
    var k := 1 + |e.tail|;
    DecodeHit(tb, s, tb, e);
    NameStays(tb, s, {amp}, e);
    var t := Decode(s, {amp});
    NameIsPrefix(t, e);
    assert t[k..] == Decode(s[k..], {amp});
    DecodeHit(tb, t, tb - {amp}, e);
  }

  lemma SkipLiteral(tb: set<Entity>, amp: Entity, s: string)
    requires AmpTable(tb, amp) && s != "" && !Hit(s, tb)
    ensures AmpFirst(tb, amp, s) == [s[0]] + AmpFirst(tb, amp, s[1..])
    ensures Decode(s, tb) == [s[0]] + Decode(s[1..], tb)
  {
    var t := Decode(s, {amp});
    forall e | e in tb ensures !Starts(t, e) {
      assert !Hit(s, {amp}) && !Starts(s, e);
      NoNameAtLiteral(tb, s, {amp}, e);
    }
    NoNameAtLiteral(tb, s, {amp}, amp);
    assert !Hit(t, tb - {amp});
    assert t[1..] == Decode(s[1..], {amp});
  }

  /** Behind an escaped ampersand comes the tail of `e`: two tokens at once... */
  lemma DoubledAtOnce(tb: set<Entity>, es: set<Entity>, amp: Entity, s: string, e: Entity)
    requires GoodTable(tb) && es <= tb && amp in es && e in tb && Starts(s, amp) && e.tail <= s[1 + |amp.tail|..]
    ensures Decode(s, es) == [amp.rune] + (e.tail + Decode(s[1 + |amp.tail|..][|e.tail|..], es))
  {
    DecodeHit(tb, s, es, amp);
    TailStays(tb, s[1 + |amp.tail|..], es, e);
  }

  /** ... but one entity when the ampersand goes first. */
  lemma SkipDoubled(tb: set<Entity>, amp: Entity, s: string, e: Entity)
    requires AmpTable(tb, amp) && Starts(s, amp) && e in tb && e != amp && DoubledAt(amp, s, 0, e)
    ensures var rest := s[1 + |amp.tail|..][|e.tail|..];
            && AmpFirst(tb, amp, s) == [e.rune] + AmpFirst(tb, amp, rest)
            && Decode(s, tb) == [amp.rune] + (e.tail + Decode(rest, tb))
  {
    assert s[0..] == s;
    DoubledAtOnce(tb, tb, amp, s, e);
    DoubledAtOnce(tb, {amp}, amp, s, e);
    EntityMade(tb, amp, Decode(s, {amp}), e, Decode(s[1 + |amp.tail|..][|e.tail|..], {amp}));
  }

  lemma EntityMade(tb: set<Entity>, amp: Entity, t: string, e: Entity, rest: string)
    requires AmpTable(tb, amp) && e in tb && e != amp && t == [amp.rune] + (e.tail + rest)
    ensures Decode(t, tb - {amp}) == [e.rune] + Decode(rest, tb - {amp})
  {
    assert t[1..] == e.tail + rest;
    assert t[1 + |e.tail|..] == rest;
    DecodeHit(tb, t, tb - {amp}, e);
  }

  /** Nothing doubled at the front: the ampersand stays one rune in both readings. */
  lemma SkipAmp(tb: set<Entity>, amp: Entity, s: string)
    requires AmpTable(tb, amp) && Starts(s, amp) && forall e | e in tb && e != amp :: !DoubledAt(amp, s, 0, e)
    ensures AmpFirst(tb, amp, s) == [amp.rune] + AmpFirst(tb, amp, s[1 + |amp.tail|..])
    ensures Decode(s, tb) == [amp.rune] + Decode(s[1 + |amp.tail|..], tb)
  {
    var rest := s[1 + |amp.tail|..];
    var t := Decode(s, {amp});
    assert s[0..] == s;
    DecodeHit(tb, s, {amp}, amp);
    DecodeHit(tb, s, tb, amp);
    assert t[1..] == Decode(rest, {amp});
    forall e | e in tb - {amp} ensures !Starts(t, e) {
      assert !DoubledAt(amp, s, 0, e);
      TailStays(tb, rest, {amp}, e);
    }
    assert !Hit(t, tb - {amp});
  }

  lemma {:induction false} InOrderSplits(s: string, p: seq<Entity>, q: seq<Entity>)
    ensures InOrder(s, p + q) == InOrder(InOrder(s, p), q)
  {
    if q == [] {
      assert p + q == p;
    } else {
      var k := |q| - 1;
      assert (p + q)[..|p + q| - 1] == p + q[..k];
      InOrderSplits(s, p, q[..k]);
    }
  }

  lemma AmpLastReads(tb: set<Entity>, amp: Entity, s: string, others: seq<Entity>)
    requires AmpTable(tb, amp) && Visits(tb - {amp}, others)
    ensures Visits(tb, others + [amp]) && InOrder(s, others + [amp]) == Decode(s, tb)
  {
    var order := others + [amp];
    assert Elements(order) == Elements(others) + {amp} == tb;
    assert order[..|order| - 1] == others;
    assert amp !in Elements(others) && amp !in others;
    InOrderIsDecode(tb, amp, s, order);
  }

  lemma AmpFirstReads(tb: set<Entity>, amp: Entity, s: string, others: seq<Entity>)
    requires AmpTable(tb, amp) && Visits(tb - {amp}, others)
    ensures Visits(tb, [amp] + others) && InOrder(s, [amp] + others) == AmpFirst(tb, amp, s)
  {
    assert Elements([amp]) == {amp} && [amp][..0] == [];
    assert amp !in Elements(others) && amp !in others;
    InOrderSplits(s, [amp], others);
    InOrderIsDecode(tb, amp, s, [amp]);
    assert DoublyEncoded(tb, amp, Decode(s, {amp})) ==>
        amp !in others[..if others == [] then 0 else |others| - 1];
    InOrderIsDecode(tb, amp, Decode(s, {amp}), others);
    assert Elements([amp] + others) == {amp} + Elements(others) == tb;
  }

  /** All visiting orders give the same text. */
  ghost predicate OrderFree(tb: set<Entity>, s: string) {
    forall p, q | Visits(tb, p) && Visits(tb, q) :: InOrder(s, p) == InOrder(s, q)
  }

  /** The passes give the same text in every order exactly when no escaped ampersand is
    * followed by the tail of another entity; that text is then the simultaneous reading. */
  lemma OrderFreeIff(tb: set<Entity>, amp: Entity, s: string, others: seq<Entity>)
    requires AmpTable(tb, amp) && Visits(tb - {amp}, others)
    ensures OrderFree(tb, s) <==> !DoublyEncoded(tb, amp, s)
    ensures !DoublyEncoded(tb, amp, s) ==> forall p | Visits(tb, p) :: InOrder(s, p) == Decode(s, tb)
  {
    if !DoublyEncoded(tb, amp, s) {
      forall p | Visits(tb, p) ensures InOrder(s, p) == Decode(s, tb) {
        InOrderIsDecode(tb, amp, s, p);
      }
    } else {
      OrdersDisagree(tb, amp, s, others);
    }
  }

  /** Replacing the ampersand first leaves fewer of them than replacing it last. */
  lemma OrdersDisagree(tb: set<Entity>, amp: Entity, s: string, others: seq<Entity>)
    requires AmpTable(tb, amp) && Visits(tb - {amp}, others) && DoublyEncoded(tb, amp, s)
    ensures Visits(tb, others + [amp]) && Visits(tb, [amp] + others)
    ensures Occurrences(InOrder(s, [amp] + others), '&') < Occurrences(InOrder(s, others + [amp]), '&')
  {
    AmpLastReads(tb, amp, s, others);
    AmpFirstReads(tb, amp, s, others);
    AmpFirstLeavesFewer(tb, amp, s);
  }

  // ----- the table of the code -----

  const AMP := Entity("amp;", '&')
  const LT := Entity("lt;", '<')
  const GT := Entity("gt;", '>')
  const QUOT := Entity("quot;", '\"')
  const APOS := Entity("#39;", '\'')
  const NBSP := Entity("nbsp;", ' ')

  const OTHERS := [LT, GT, QUOT, APOS, NBSP]
  const HTML := {AMP} + Elements(OTHERS)

  predicate NameRune(c: char) {
    'a' <= c <= 'z' || '0' <= c <= '9' || c == '#' || c == ';'
  }

  lemma OthersAreFive(e: Entity)
    requires e in HTML
    ensures e == AMP || e == LT || e == GT || e == QUOT || e == APOS || e == NBSP
  {
    if e != AMP {
      var i :| 0 <= i < |OTHERS| && OTHERS[i] == e;
    }
  }

  lemma TailRunes(e: Entity)
    requires e in HTML
    ensures e.tail != "" && forall i | 0 <= i < |e.tail| :: NameRune(e.tail[i])
    ensures !NameRune(e.rune)
  {
    OthersAreFive(e);
  }

  /** Every entity of the table is known by the first rune of its tail. */
  lemma TailsDiffer(e: Entity, f: Entity)
    requires e in HTML && f in HTML && e != f
    ensures !(e.tail <= f.tail) && (e.rune == '&' ==> e == AMP)
  {
    OthersAreFive(e);
    OthersAreFive(f);
    TailRunes(e);
    assert e.tail[0] != f.tail[0];
  }

  lemma HtmlIsGood()
    ensures AmpTable(HTML, AMP) && Visits(HTML - {AMP}, OTHERS)
  {
    forall e | e in HTML ensures e.tail != "" && AllPlain(HTML, e.tail) {
      TailRunes(e);
      forall i | 0 <= i < |e.tail| ensures Plain(HTML, e.tail[i]) {
        forall f | f in HTML ensures f.rune != e.tail[i] { TailRunes(f); }
      }
    }
    forall e, f | e in HTML && f in HTML && e != f ensures !(e.tail <= f.tail) { TailsDiffer(e, f); }
    forall e | e in HTML ensures e.rune == '&' <==> e == AMP {
      if e != AMP { TailsDiffer(e, AMP); }
    }
    OthersVisited();
  }

  lemma OthersVisited()
    ensures Visits(HTML - {AMP}, OTHERS)
  {
    forall i | 0 <= i < |OTHERS| ensures OTHERS[i] != AMP { assert OTHERS[i].rune != '&'; }
    forall i, j | 0 <= i < j < |OTHERS| ensures OTHERS[i] != OTHERS[j] {
      assert OTHERS[i].rune != OTHERS[j].rune;
    }
    assert AMP !in Elements(OTHERS);
  }

  lemma DoubledIsContained(s: string, e: Entity)
    ensures (exists i: nat :: DoubledAt(AMP, s, i, e)) <==> Contains(s, "&amp;" + e.tail)
  {
    assert "&amp;" == Name(AMP);
    DoubledSomewhere(AMP, s, e, Name(AMP) + e.tail);
  }

  lemma OthersMembers(e: Entity)
    ensures e in OTHERS <==> e in HTML && e != AMP
  {
    OthersVisited();
    assert e in OTHERS <==> e in Elements(OTHERS);
  }

  ghost predicate SpelledDoubly(s: string, e: Entity) {
    Contains(s, "&amp;" + e.tail)
  }

  /** Doubly encoded, spelled out: the text contains "&amp;lt;", "&amp;gt;", "&amp;quot;",
    * "&amp;#39;" or "&amp;nbsp;". */
  lemma DoublyEncodedMeans(s: string)
    ensures DoublyEncoded(HTML, AMP, s) <==> exists e :: e in OTHERS && SpelledDoubly(s, e)
  {
    if DoublyEncoded(HTML, AMP, s) {
      var e, i: nat :| e in HTML && e != AMP && DoubledAt(AMP, s, i, e);
      DoubledIsContained(s, e);
      OthersMembers(e);
      assert e in OTHERS && SpelledDoubly(s, e);
    }
    if exists e :: e in OTHERS && SpelledDoubly(s, e) {
      var e :| e in OTHERS && SpelledDoubly(s, e);
      DoubledIsContained(s, e);
      var i: nat :| DoubledAt(AMP, s, i, e);
      OthersMembers(e);
    }
  }

  /** The entity pass of the code gives the same text for every order in which the map
    * may be visited exactly when nothing in the text is doubly encoded. */
  lemma OrderIndependence(s: string)
    ensures OrderFree(HTML, s) <==> !DoublyEncoded(HTML, AMP, s)
    ensures !DoublyEncoded(HTML, AMP, s) ==> forall p | Visits(HTML, p) :: InOrder(s, p) == Decode(s, HTML)
  {
    HtmlIsGood();
    OrderFreeIff(HTML, AMP, s, OTHERS);
  }

  /** A text without "&amp;" is never doubly encoded. */
  lemma NoAmpersandNoDouble(s: string)
    requires !Contains(s, "&amp;")
    ensures !DoublyEncoded(HTML, AMP, s)
  {
    forall i: nat, e | e in HTML && e != AMP && DoubledAt(AMP, s, i, e) ensures false {
      NameIsPrefix(s[i..], AMP);
      assert s[i..i + 5] == s[i..][..5] == "&amp;";
      assert At(s, i, "&amp;");
    }
  }

  /** The shortest text on which two orders disagree. */
  lemma DoublyEncodedText()
    ensures DoublyEncoded(HTML, AMP, "&amp;lt;")
  {
    assert "&amp;lt;"[0..] == "&amp;lt;";
    assert "&amp;lt;"[1..][..4] == "amp;";
    assert "&amp;lt;"[5..] == "lt;";
    assert DoubledAt(AMP, "&amp;lt;", 0, LT);
  }

  // ----- what each entity becomes -----

  lemma {:induction false} DecodeSkips(tb: set<Entity>, x: string, s: string)
    requires '&' !in x
    ensures Decode(x + s, tb) == x + Decode(s, tb)
  {
    if x == "" {
      assert x + s == s;
    } else {
      HeadBack(x, s);
      HeadBack(x, Decode(s, tb));
      assert !Hit(x + s, tb);
      DecodeSkips(tb, x[1..], s);
    }
  }

  lemma {:induction false} DecodePlain(tb: set<Entity>, y: string)
    requires '&' !in y
    ensures Decode(y, tb) == y
  {
    DecodeSkips(tb, y, "");
    assert y + "" == y;
  }

  lemma NotTheAmpersand(tb: set<Entity>, amp: Entity, e: Entity, y: string)
    requires AmpTable(tb, amp) && e in tb && e != amp
    ensures !Starts(Name(e) + y, amp)
  {
    NameIsPrefix(Name(e) + y, e);
    if Starts(Name(e) + y, amp) { StartsIsUnique(tb, Name(e) + y, e, amp); }
  }

  lemma NotDoubledInText(amp: Entity, x: string, t: string, i: nat, f: Entity)
    requires '&' !in x && t != "" && '&' !in t[1..] && !Starts(t, amp)
    ensures !DoubledAt(amp, x + t, i, f)
  {
    var s := x + t;
    if i == |x| {
      assert s[i..] == t;
    } else if i < |s| {
      assert i > |x| ==> s[i] == t[1..][i - |x| - 1];
      assert s[i..][0] == s[i] && s[i] != '&';
    }
  }

  /** The only ampersand of this text is that of `e`. */
  lemma OneAmpersand(tb: set<Entity>, amp: Entity, x: string, e: Entity, y: string)
    requires AmpTable(tb, amp) && e in tb && e != amp && '&' !in x && '&' !in y && '&' !in e.tail
    ensures !DoublyEncoded(tb, amp, x + Name(e) + y)
  {
    var t := Name(e) + y;
    NotTheAmpersand(tb, amp, e, y);
    assert t[1..] == e.tail + y;
    forall i: nat, f ensures !DoubledAt(amp, x + t, i, f) { NotDoubledInText(amp, x, t, i, f); }
    Regrouped(x, Name(e), y);
  }

  /** An entity in plain text becomes its rune, in every order. */
  lemma EntityInText(tb: set<Entity>, amp: Entity, x: string, e: Entity, y: string)
    requires AmpTable(tb, amp) && e in tb && '&' !in x && '&' !in y
    ensures Decode(x + Name(e) + y, tb) == x + [e.rune] + y
  {
    var t := Name(e) + y;
    assert x + Name(e) + y == x + t;
    NameIsPrefix(t, e);
    DecodeSkips(tb, x, t);
    DecodeHit(tb, t, tb, e);
    assert t[1 + |e.tail|..] == y;
    DecodePlain(tb, y);
  }

  lemma EntityBecomes(x: string, e: Entity, y: string, order: seq<Entity>)
    requires '&' !in x && '&' !in y
    ensures e in HTML && Visits(HTML, order) && (e != AMP || !DoublyEncoded(HTML, AMP, x + Name(e) + y)) ==>
              InOrder(x + Name(e) + y, order) == x + [e.rune] + y
  {
    if e in HTML && Visits(HTML, order) {
      HtmlIsGood();
      TailRunes(e);
      if e != AMP { OneAmpersand(HTML, AMP, x, e, y); }
      OrderIndependence(x + Name(e) + y);
      EntityInText(HTML, AMP, x, e, y);
    }
  }

  /** The six entities, spelled out, in plain text and in every visiting order. */
  lemma TheEntities(x: string, y: string, order: seq<Entity>)
    requires '&' !in x && '&' !in y
    ensures Visits(HTML, order) ==>
              && InOrder(x + "&lt;" + y, order) == x + "<" + y
              && InOrder(x + "&gt;" + y, order) == x + ">" + y
              && InOrder(x + "&quot;" + y, order) == x + "\"" + y
              && InOrder(x + "&#39;" + y, order) == x + "\'" + y
              && InOrder(x + "&nbsp;" + y, order) == x + " " + y
    ensures Visits(HTML, order) && !DoublyEncoded(HTML, AMP, x + "&amp;" + y) ==>
              InOrder(x + "&amp;" + y, order) == x + "&" + y
  {
    Spellings();
    EntityBecomes(x, LT, y, order);
    EntityBecomes(x, GT, y, order);
    EntityBecomes(x, QUOT, y, order);
    EntityBecomes(x, APOS, y, order);
    EntityBecomes(x, NBSP, y, order);
    EntityBecomes(x, AMP, y, order);
  }

  /** There are no others. */
  lemma TheHtmlTable(e: Entity)
    ensures e in HTML <==>
            || e == Entity("amp;", '&') || e == Entity("lt;", '<') || e == Entity("gt;", '>')
            || e == Entity("quot;", '\"') || e == Entity("#39;", '\'') || e == Entity("nbsp;", ' ')
  {
    Spellings();
    if e in HTML { OthersAreFive(e); }
  }

  lemma Spellings()
    ensures Name(LT) == "&lt;" && Name(GT) == "&gt;" && Name(QUOT) == "&quot;"
    ensures Name(APOS) == "&#39;" && Name(NBSP) == "&nbsp;" && Name(AMP) == "&amp;"
    ensures LT in HTML && GT in HTML && QUOT in HTML && APOS in HTML && NBSP in HTML && AMP in HTML
  {
    assert OTHERS[0] == LT && OTHERS[1] == GT && OTHERS[2] == QUOT && OTHERS[3] == APOS && OTHERS[4] == NBSP;
  }

  /** The loop over the table; `order` is the order in which the map is visited. */
  method ProcessHTMLEntities(content: string, order: seq<Entity>) returns (r: string)
    requires Visits(HTML, order)
    ensures r == InOrder(content, order)
    ensures !DoublyEncoded(HTML, AMP, content) ==> r == Decode(content, HTML)
  {
    r := content;
    for i := 0 to |order|
      invariant r == InOrder(content, order[..i])
    {
      assert order[..i + 1][..i] == order[..i];
      r := ReplaceAll(r, Name(order[i]), [order[i].rune]);
    }
    assert order[..|order|] == order;
    OrderIndependence(content);
  }
}
