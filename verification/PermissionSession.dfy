/** The permission middleware: a comma-joined list of granted ids per business, kept in the
  * session, in front of the permission service. */
module PermissionSession {
  import opened Wrappers
  import opened Decimals

  // ----- strings.Split and strings.Join with a comma -----

  function Join(rs: seq<string>): string {
    if rs == [] then ""
    else if |rs| == 1 then rs[0]
    else rs[0] + "," + Join(rs[1..])
  }

  /** How far it is to the first comma, or to the end. */
  function Piece(s: string): (n: nat)
    ensures n <= |s| && ',' !in s[..n] && (n < |s| ==> s[n] == ',')
  {
    if s == "" || s[0] == ',' then 0
    else
      var n := Piece(s[1..]) + 1;
      assert s[..n] == [s[0]] + s[1..][..n - 1];
      n
  }

  function Split(s: string): (rs: seq<string>)
    ensures rs != []
  {
    var n := Piece(s);
    if n == |s| then [s] else [s[..n]] + Split(s[n + 1..])
  }

  ghost predicate NoCommas(rs: seq<string>) {
    forall r | r in rs :: ',' !in r
  }

  lemma {:induction false} PieceStops(r: string, rest: string)
    requires ',' !in r && (rest == "" || rest[0] == ',')
    ensures Piece(r + rest) == |r|
  {
    if r == "" {
      assert r + rest == rest;
    } else {
      assert (r + rest)[1..] == r[1..] + rest;
      PieceStops(r[1..], rest);
    }
  }

  lemma SplitFirst(r: string, rest: string)
    requires ',' !in r
    ensures Split(r) == [r] && Split(r + "," + rest) == [r] + Split(rest)
  {
    PieceStops(r, "");
    assert r + "" == r;
    PieceStops(r, "," + rest);
    var s := r + "," + rest;
    assert s == r + ("," + rest);
    assert s[..|r|] == r && s[|r| + 1..] == rest;
  }

  /** Splitting gives back what was joined, if there was something and it had no commas. */
  lemma {:induction false} SplitJoin(rs: seq<string>)
    requires rs != [] && NoCommas(rs)
    ensures Split(Join(rs)) == rs
  {
    assert rs[0] in rs;
    if |rs| == 1 {
      SplitFirst(rs[0], "");
    } else {
      SplitFirst(rs[0], Join(rs[1..]));
      SplitJoin(rs[1..]);
    }
  }

  lemma {:induction false} SplitHasNoCommas(s: string)
    ensures NoCommas(Split(s))
  {
    var n := Piece(s);
    if n == |s| {
      assert s[..n] == s;
    } else {
      var rest := Split(s[n + 1..]);
      SplitHasNoCommas(s[n + 1..]);
      forall r | r in Split(s) ensures ',' !in r { assert r == s[..n] || r in rest; }
    }
  }

  lemma ParsedHasNoComma(s: string)
    requires ParseInt(s).Some?
    ensures ',' !in s
  {
    forall i | 0 <= i < |s| ensures s[i] != ',' {
      if s[0] == '-' || s[0] == '+' {
        if i > 0 { assert s[i] == s[1..][i - 1] && Digit(s[1..][i - 1]); }
      } else {
        assert Digit(s[i]);
      }
    }
  }

  // ----- the step -----

  /** What the user may see, and the lists in the session. */
  datatype World = World(granted: set<(string, int)>, lists: map<string, string>)

  /** How the outside behaves in one request. */
  datatype Outside = Outside(loggedIn: bool, readable: bool, answers: bool, writable: bool)

  const HEALTHY := Outside(true, true, true, true)

  datatype Event =
    | Request(biz: string, id: string, outside: Outside)
    | Grant(biz: string, resource: int)
    | Revoke(biz: string, resource: int)

  /** The entries of a business in the session. */
  function Entries(lists: map<string, string>, biz: string): seq<string> {
    if biz in lists && lists[biz] != "" then Split(lists[biz]) else []
  }

  /** The new session lists, whether the service was asked, and the decision. */
  datatype Decision = Decision(lists: map<string, string>, asked: bool, allowed: bool)

  function Decide(w: World, biz: string, id: string, outside: Outside): Decision {
    if !outside.loggedIn || biz == "" || !outside.readable || ParseInt(id).None? then Decision(w.lists, false, false)
    else if id in Entries(w.lists, biz) then Decision(w.lists, false, true)
    else if !outside.answers || (biz, ParseInt(id).value) !in w.granted then Decision(w.lists, true, false)
    else if !outside.writable then Decision(w.lists, true, false)
    else Decision(w.lists[biz := Join(Entries(w.lists, biz) + [id])], true, true)
  }

  /** What asking the permission service each time would decide. */
  predicate Permitted(w: World, biz: string, id: string) {
    biz != "" && ParseInt(id).Some? && (biz, ParseInt(id).value) in w.granted
  }

  function Next(w: World, e: Event): World {
    match e
    case Request(biz, id, outside) => w.(lists := Decide(w, biz, id, outside).lists)
    case Grant(biz, resource) => w.(granted := w.granted + {(biz, resource)})
    case Revoke(biz, resource) => w.(granted := w.granted - {(biz, resource)})
  }

  function Run(w: World, events: seq<Event>): World {
    if events == [] then w else Next(Run(w, events[..|events| - 1]), events[|events| - 1])
  }

  /** Every entry that is an id at all was granted. */
  ghost predicate Sound(w: World) {
    forall biz, r | biz in w.lists && r in Entries(w.lists, biz) && ParseInt(r).Some? ::
      (biz, ParseInt(r).value) in w.granted
  }

  predicate NeverRevoked(events: seq<Event>) {
    forall e | e in events :: !e.Revoke?
  }

  // ----- while permissions only grow -----

  /** A grant on the slow path appends exactly its entry. */
  lemma GrantAppends(w: World, biz: string, id: string, outside: Outside)
    requires Decide(w, biz, id, outside).asked && Decide(w, biz, id, outside).allowed
    ensures Entries(Decide(w, biz, id, outside).lists, biz) == Entries(w.lists, biz) + [id]
  {
    var rs := Entries(w.lists, biz) + [id];
    if biz in w.lists { SplitHasNoCommas(w.lists[biz]); }
    ParsedHasNoComma(id);
    SplitJoin(rs);
    JoinedIsNotEmpty(rs, id);
  }

  lemma {:induction false} JoinedIsNotEmpty(rs: seq<string>, r: string)
    requires rs != [] && rs[|rs| - 1] == r && r != ""
    ensures Join(rs) != ""
  {
    if |rs| == 1 { assert rs == [r]; }
  }

  lemma NextStaysSound(w: World, e: Event)
    requires Sound(w) && !e.Revoke?
    ensures Sound(Next(w, e))
  {
    if e.Request? {
      var d := Decide(w, e.biz, e.id, e.outside);
      if d.asked && d.allowed {
        GrantAppends(w, e.biz, e.id, e.outside);
        var after := Next(w, e);
        forall biz, r | biz in after.lists && r in Entries(after.lists, biz) && ParseInt(r).Some?
          ensures (biz, ParseInt(r).value) in after.granted
        {
          if biz != e.biz { assert Entries(after.lists, biz) == Entries(w.lists, biz); }
          else { assert r in Entries(w.lists, biz) || r == e.id; }
        }
      }
    }
  }

  lemma {:induction false} RunStaysSound(w: World, events: seq<Event>)
    requires Sound(w) && NeverRevoked(events)
    ensures Sound(Run(w, events))
  {
    if events != [] {
      var k := |events| - 1;
      assert events[k] in events;
      RunStaysSound(w, events[..k]);
      NextStaysSound(Run(w, events[..k]), events[k]);
    }
  }

  /** After any run without revocations, a request is only let through if asking would let it through, and when
    * the outside is healthy exactly then, whichever path it takes. */
  lemma DecidesAsIfAsked(w: World, events: seq<Event>, biz: string, id: string, outside: Outside)
    requires Sound(w) && NeverRevoked(events)
    ensures var now := Run(w, events);
            && (Decide(now, biz, id, outside).allowed ==> Permitted(now, biz, id))
            && (Decide(now, biz, id, HEALTHY).allowed <==> Permitted(now, biz, id))
  {
    RunStaysSound(w, events);
  }

  /** A request that was let through is let through from the session ever after, without
    * asking, while the session can be read. */
  lemma {:induction false} AskedOnce(w: World, biz: string, id: string, outside: Outside, events: seq<Event>,
                                     later: Outside)
    requires Decide(w, biz, id, outside).allowed && later.loggedIn && later.readable
    ensures var now := Run(Next(w, Request(biz, id, outside)), events);
            Decide(now, biz, id, later) == Decision(now.lists, false, true)
  {
    var first := Next(w, Request(biz, id, outside));
    if Decide(w, biz, id, outside).asked { GrantAppends(w, biz, id, outside); }
    EntriesOnlyGrow(first, events, biz, id);
  }

  lemma {:induction false} EntriesOnlyGrow(w: World, events: seq<Event>, biz: string, id: string)
    requires id in Entries(w.lists, biz)
    ensures id in Entries(Run(w, events).lists, biz)
  {
    if events != [] {
      var k := |events| - 1;
      EntriesOnlyGrow(w, events[..k], biz, id);
      var now, e := Run(w, events[..k]), events[k];
      if e.Request? && Decide(now, e.biz, e.id, e.outside).asked && Decide(now, e.biz, e.id, e.outside).allowed {
        GrantAppends(now, e.biz, e.id, e.outside);
      }
    }
  }

  // ----- with revocations -----

  /** At some point of the run a request for just this id was let through. */
  ghost predicate LetThrough(w: World, events: seq<Event>, biz: string, id: string) {
    events != [] &&
    var k := |events| - 1;
    var e := events[k];
    || LetThrough(w, events[..k], biz, id)
    || (e.Request? && e.biz == biz && e.id == id && Decide(Run(w, events[..k]), biz, id, e.outside).allowed)
  }

  /** Over every run: what is in the session was there at the start, or was let through. */
  lemma {:induction false} EntriesAre(w: World, events: seq<Event>, biz: string, id: string)
    ensures id in Entries(Run(w, events).lists, biz) <==>
            id in Entries(w.lists, biz) || LetThrough(w, events, biz, id)
  {
    if events != [] {
      var k := |events| - 1;
      EntriesAre(w, events[..k], biz, id);
      var now, e := Run(w, events[..k]), events[k];
      if e.Request? && Decide(now, e.biz, e.id, e.outside).asked && Decide(now, e.biz, e.id, e.outside).allowed {
        GrantAppends(now, e.biz, e.id, e.outside);
      }
    }
  }

  lemma {:induction false} LetThroughIsValid(w: World, events: seq<Event>, biz: string, id: string)
    requires LetThrough(w, events, biz, id)
    ensures biz != "" && ParseInt(id).Some?
  {
    var k := |events| - 1;
    if LetThrough(w, events[..k], biz, id) { LetThroughIsValid(w, events[..k], biz, id); }
  }

  /** The request is a valid one that the session remembers, from its start or from an earlier
    * request, but the permission is gone. */
  ghost predicate Outlived(w: World, events: seq<Event>, biz: string, id: string) {
    && biz != "" && ParseInt(id).Some?
    && (id in Entries(w.lists, biz) || LetThrough(w, events, biz, id))
    && (biz, ParseInt(id).value) !in Run(w, events).granted
  }

  /** After every run, with revocations and from any session, the session and the permission
    * service decide alike exactly when no entry has outlived its permission; otherwise the
    * session lets through what the service would not. */
  lemma AgreeExactlyWhen(w: World, events: seq<Event>, biz: string, id: string)
    ensures var now := Run(w, events);
            && ((Decide(now, biz, id, HEALTHY).allowed <==> Permitted(now, biz, id)) <==> !Outlived(w, events, biz, id))
            && (Permitted(now, biz, id) ==> Decide(now, biz, id, HEALTHY).allowed)
  {
    EntriesAre(w, events, biz, id);
  }

  /** The failing family: whatever was once let through stays so when its permission is revoked. */
  lemma RevokedIsStillAllowed(w: World, events: seq<Event>, biz: string, id: string)
    requires LetThrough(w, events, biz, id)
    ensures ParseInt(id).Some?
    ensures var now := Run(w, events + [Revoke(biz, ParseInt(id).value)]);
            Decide(now, biz, id, HEALTHY).allowed && !Permitted(now, biz, id)
  {
    LetThroughIsValid(w, events, biz, id);
    EntriesAre(w, events, biz, id);
    var revoke := Revoke(biz, ParseInt(id).value);
    assert (events + [revoke])[..|events|] == events;
    assert Run(w, events + [revoke]) == Next(Run(w, events), revoke);
  }

  // ----- the code -----

  class CheckPermission {
    var session: map<string, string>
    var granted: set<(string, int)>   // the permission service's answer for this user

    constructor (granted: set<(string, int)>, session: map<string, string>)
      ensures this.granted == granted && this.session == session
    {
      this.granted, this.session := granted, session;
    }

    function State(): World
      reads this
    {
      World(granted, session)
    }

    method Handle(resourceName: string, resourceIdStr: string, outside: Outside) returns (allowed: bool)
      modifies this`session
      ensures State() == Next(old(State()), Request(resourceName, resourceIdStr, outside))
      ensures allowed == Decide(old(State()), resourceName, resourceIdStr, outside).allowed
      ensures allowed <==>
                && outside.loggedIn && resourceName != "" && outside.readable && ParseInt(resourceIdStr).Some?
                && ((resourceName in old(session) && old(session)[resourceName] != "" &&
                     resourceIdStr in Split(old(session)[resourceName])) ||
                    (outside.answers && (resourceName, ParseInt(resourceIdStr).value) in granted && outside.writable))
      ensures !allowed ==> session == old(session)
      ensures Sound(old(State())) ==> Sound(State()) && (allowed ==> Permitted(State(), resourceName, resourceIdStr))
    {
      if Sound(State()) { NextStaysSound(State(), Request(resourceName, resourceIdStr, outside)); }
      if !outside.loggedIn { return false; }
      if |resourceName| == 0 { return false; }
      if !outside.readable { return false; }
      var permissionLists := session;
      var resources := [];
      if resourceName in permissionLists && |permissionLists[resourceName]| > 0 {
        resources := Split(permissionLists[resourceName]);
      }
      var resourceId := ParseInt(resourceIdStr);
      if |resourceIdStr| == 0 || resourceId.None? { return false; }
      if resourceIdStr in resources { return true; }
      if !outside.answers || (resourceName, resourceId.value) !in granted { return false; }
      resources := resources + [resourceIdStr];
      permissionLists := permissionLists[resourceName := Join(resources)];
      if !outside.writable { return false; }
      session := permissionLists;
      return true;
    }
  }
}
