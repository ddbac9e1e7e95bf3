/** The case repository: two tables, a cached list of the newest cases per business and a
  * cached copy per case. */
module CaseRepository {
  import opened Wrappers
  import opened CaseTable

  const DEFAULT_BIZ := "baguwen"
  const CACHE_MAX := 50

  /** The tables and the caches. */
  datatype Repo = Repo(drafts: Table, published: Table, lists: map<string, seq<Case>>, cases: Table)

  // ----- the tables -----

  /** The columns an upsert overwrites when the row exists; uid and ctime keep their values. */
  function Overwrite(row: Case, c: Case): Case {
    c.(uid := row.uid, ctime := row.ctime)
  }

  function Upsert(t: Table, c: Case): Table {
    t[c.id := if c.id in t then Overwrite(t[c.id], c) else c]
  }

  /** The row that is sent to the database: stamped, with an id, and with the default business
    * where the request names none. */
  function Stamped(c: Case, now: int, newId: int): Case {
    c.(ctime := now, utime := now, id := if c.id == 0 then newId else c.id,
      biz := if c.biz == "" then DEFAULT_BIZ else c.biz)
  }

  // ----- what the operations do -----

  datatype Event =
    | Sync(c: Case, now: int, newId: int)
    | SyncUnlisted(c: Case, now: int, newId: int)   // a sync whose list query fails afterwards
    | Save(c: Case, now: int, newId: int)
    | CacheList(biz: string)        // a list query that missed the cache
    | CacheCase(id: int)            // a case query that missed the cache
    | ExpireList(biz: string)
    | ExpireCase(id: int)

  function WithList(r: Repo, biz: string): Repo {
    r.(lists := r.lists[biz := Top(r.published, CACHE_MAX)])
  }

  /** Both tables and the cached copy, before the list is refreshed. */
  function Synced(r: Repo, row: Case): Repo {
    Repo(Upsert(r.drafts, row), Upsert(r.published, row), r.lists, r.cases[row.id := row])
  }

  function Next(r: Repo, e: Event): Repo {
    match e
    case Sync(c, now, newId) => WithList(Synced(r, Stamped(c, now, newId)), Stamped(c, now, newId).biz)
    case SyncUnlisted(c, now, newId) => Synced(r, Stamped(c, now, newId))
    case Save(c, now, newId) => r.(drafts := Upsert(r.drafts, Stamped(c, now, newId)))
    case CacheList(biz) => WithList(r, biz)
    case CacheCase(id) => if id in r.published then r.(cases := r.cases[id := r.published[id]]) else r
    case ExpireList(biz) => r.(lists := r.lists - {biz})
    case ExpireCase(id) => r.(cases := r.cases - {id})
  }

  function Run(r: Repo, events: seq<Event>): Repo {
    if events == [] then r else Next(Run(r, events[..|events| - 1]), events[|events| - 1])
  }

  // ----- coherence -----

  predicate Keyed(t: Table) {
    forall k | k in t :: t[k].id == k
  }

  /** A cached default list is the first 50 published cases. */
  predicate ListFresh(r: Repo) {
    DEFAULT_BIZ in r.lists ==> r.lists[DEFAULT_BIZ] == Top(r.published, CACHE_MAX)
  }

  /** A cached case is its published row, up to the two columns an upsert leaves alone. */
  predicate CasesFresh(r: Repo) {
    forall id | id in r.cases :: id in r.published && Overwrite(r.published[id], r.cases[id]) == r.published[id]
  }

  predicate Coherent(r: Repo) {
    Keyed(r.published) && ListFresh(r) && CasesFresh(r)
  }

  // ----- what is written -----

  /** Row `after` is what a request writes over `before`: everything from the request, but owner and
    * creation time of an existing row stay. */
  predicate Written(before: Option<Case>, after: Case, c: Case, id: int, now: int) {
    && after.id == id && after.title == c.title && after.introduction == c.introduction
    && after.labels == c.labels && after.details == c.details && after.status == c.status && after.utime == now
    && after.biz == (if c.biz == "" then "baguwen" else c.biz)
    && after.uid == (if before.Some? then before.value.uid else c.uid)
    && after.ctime == (if before.Some? then before.value.ctime else now)
  }

  function RowAt(t: Table, id: int): Option<Case> {
    if id in t then Some(t[id]) else None
  }

  /** A sync writes the draft and the published row of its case and no other; a save only the
    * draft. */
  lemma WhatIsWritten(r: Repo, c: Case, now: int, newId: int)
    ensures var id := if c.id == 0 then newId else c.id;
            var synced, saved := Next(r, Sync(c, now, newId)), Next(r, Save(c, now, newId));
            && synced.drafts.Keys == r.drafts.Keys + {id} && synced.published.Keys == r.published.Keys + {id}
            && Written(RowAt(r.drafts, id), synced.drafts[id], c, id, now)
            && Written(RowAt(r.published, id), synced.published[id], c, id, now)
            && (forall k | k in r.drafts && k != id :: synced.drafts[k] == r.drafts[k])
            && (forall k | k in r.published && k != id :: synced.published[k] == r.published[k])
            && saved.drafts == synced.drafts && saved.(drafts := r.drafts) == r
  {}

  // ----- when the caches stay coherent -----

  /** The default list does not show that this row is written: none is cached, or the case is not
    * among the first 50, or it looks there as before. */
  predicate Unseen(r: Repo, row: Case) {
    || DEFAULT_BIZ !in r.lists || Rank(r.published, row.id) >= CACHE_MAX
    || (row.id in r.published && Listed(r.published[row.id]) == Listed(row))
  }

  predicate KeepsList(r: Repo, e: Event) {
    match e
    case Sync(c, now, newId) => Stamped(c, now, newId).biz == DEFAULT_BIZ || Unseen(r, Stamped(c, now, newId))
    case SyncUnlisted(c, now, newId) => Unseen(r, Stamped(c, now, newId))
    case _ => true
  }

  lemma SyncedCaches(r: Repo, row: Case)
    requires Coherent(r)
    ensures Keyed(Synced(r, row).published) && CasesFresh(Synced(r, row))
    ensures ListFresh(Synced(r, row)) <==> Unseen(r, row)
  {
    var written := if row.id in r.published then Overwrite(r.published[row.id], row) else row;
    TopChanges(r.published, written, CACHE_MAX);
    assert Listed(written) == Listed(row);
  }

  /** Every event keeps the cached cases fresh. The default list stays fresh except exactly when a
    * sync that the list would show refreshes the list of another business, or none. */
  lemma NextAndTheList(r: Repo, e: Event)
    requires Coherent(r)
    ensures Keyed(Next(r, e).published) && CasesFresh(Next(r, e))
    ensures ListFresh(Next(r, e)) <==> KeepsList(r, e)
  {
    if e.Sync? || e.SyncUnlisted? { SyncedCaches(r, Stamped(e.c, e.now, e.newId)); }
  }

  /** After the run and after every part of it. */
  predicate CoherentThroughout(r: Repo, events: seq<Event>) {
    Coherent(Run(r, events)) && (events != [] ==> CoherentThroughout(r, events[..|events| - 1]))
  }

  predicate KeepsListThroughout(r: Repo, events: seq<Event>) {
    events == [] ||
    var k := |events| - 1;
    KeepsListThroughout(r, events[..k]) && KeepsList(Run(r, events[..k]), events[k])
  }

  /** Over every run of syncs, saves, queries and expiries, the caches are coherent all the time
    * exactly when no event breaks the default list. */
  lemma {:induction false} RunsStayCoherent(r: Repo, events: seq<Event>)
    requires Coherent(r)
    ensures CoherentThroughout(r, events) <==> KeepsListThroughout(r, events)
  {
    if events != [] {
      var k := |events| - 1;
      RunsStayCoherent(r, events[..k]);
      if CoherentThroughout(r, events[..k]) { NextAndTheList(Run(r, events[..k]), events[k]); }
    }
  }

  /** The runs in which every published case belongs to the default business, by name or because
    * the request names none, and its list is refreshed. */
  predicate DefaultOnly(events: seq<Event>) {
    forall e | e in events ::
      !e.SyncUnlisted? && (e.Sync? ==> e.c.biz == DEFAULT_BIZ || e.c.biz == "")
  }

  lemma {:induction false} DefaultRunsStayCoherent(r: Repo, events: seq<Event>)
    requires Coherent(r) && DefaultOnly(events)
    ensures CoherentThroughout(r, events)
  {
    if events != [] {
      var k := |events| - 1;
      assert events[k] in events;
      DefaultRunsStayCoherent(r, events[..k]);
      NextAndTheList(Run(r, events[..k]), events[k]);
    }
  }

  /** Publishing a new case of another business leaves the cached default list behind, and so does
    * publishing any new case if the list cannot be read afterwards. */
  lemma NewCaseGoesStale(r: Repo, c: Case, now: int, newId: int)
    requires Coherent(r) && DEFAULT_BIZ in r.lists
    requires c.id == 0 && forall id | id in r.published :: id < newId
    ensures Stamped(c, now, newId).biz != DEFAULT_BIZ ==> !ListFresh(Next(r, Sync(c, now, newId)))
    ensures !ListFresh(Next(r, SyncUnlisted(c, now, newId)))
  {
    NextAndTheList(r, Sync(c, now, newId));
    NextAndTheList(r, SyncUnlisted(c, now, newId));
    assert Rank(r.published, newId) == 0;
  }

  /** The cached copy that a sync leaves is the published row exactly when the case was not
    * published before, or the request names its owner and the clock shows its creation time:
    * the row keeps both, the copy has both from the request. */
  lemma SyncAndTheCase(r: Repo, c: Case, now: int, newId: int)
    ensures var after, id := Next(r, Sync(c, now, newId)), Stamped(c, now, newId).id;
            && id in after.cases && id in after.published
            && (after.cases[id] == after.published[id] <==>
                  id !in r.published || (r.published[id].uid == c.uid && r.published[id].ctime == now))
  {}

  /** An editor who publishes someone else's case: the copy shows the editor as the owner. */
  lemma SyncedCopyDiffers(r: Repo, c: Case, editor: int, now: int)
    requires c.id != 0 && c.id in r.published && r.published[c.id] == c && editor != c.uid
    ensures var after := Next(r, Sync(c.(uid := editor), now, 0));
            after.cases[c.id].uid == editor && after.published[c.id].uid == c.uid
  {}

  /** A fresh cached list answers every page that lies in it. */
  lemma PageFromList(r: Repo, list: seq<Case>, offset: nat, limit: nat)
    requires list == Top(r.published, CACHE_MAX) && offset + limit <= CACHE_MAX
    ensures Page(list, offset, limit) == Page(Published(r.published), offset, limit)
  {
    PageOfTop(Published(r.published), CACHE_MAX, offset, limit);
  }

  lemma CachingKeepsCoherent(r: Repo, biz: string)
    ensures Coherent(r) ==> Coherent(Next(r, CacheList(biz)))
  {}

  // ----- the code -----

  class CaseRepo {
    var drafts: Table
    var published: Table
    var lists: map<string, seq<Case>>
    var cases: Table

    constructor (r: Repo)
      ensures State() == r
    {
      drafts, published, lists, cases := r.drafts, r.published, r.lists, r.cases;
    }

    function State(): Repo
      reads this
    {
      Repo(drafts, published, lists, cases)
    }

    /** The last index stays below 2^63, so that the sum does not wrap. */
    predicate CheckTop50(offset: nat, limit: nat) {
      var last := offset + limit;
      last <= CACHE_MAX
    }

    /** The loop that copies a page out of the cached cases. */
    static method GetCasesFromCache(cases: seq<Case>, offset: nat, limit: nat) returns (res: seq<Case>)
      ensures res == Page(cases, offset, limit) && Selects(res, cases, offset, limit)
    {
      PageSelects(cases, offset, limit);
      if offset >= |cases| { return []; }
      var remain := |cases| - offset;
      if remain > limit { remain := limit; }
      res := [];
      for i := offset to offset + remain
        invariant res == cases[offset..i]
      {
        res := res + [cases[i]];
      }
    }

    method PublishCaseList(offset: nat, limit: nat) returns (r: Option<seq<Case>>)
      ensures r.Some? ==> r.value == Page(Published(published), offset, limit)
    {
      var ok: bool := *;
      r := if ok then Some(Page(Published(published), offset, limit)) else None;
    }

    method CacheListOf(biz: string) returns (r: Option<seq<Case>>)
      modifies this`lists
      ensures r.Some? ==> r.value == Top(published, CACHE_MAX) && State() == Next(old(State()), CacheList(biz))
      ensures r.Some? ==> Selects(r.value, Published(published), 0, 50)
      ensures r.None? ==> State() == old(State())
    {
      PageSelects(Published(published), 0, CACHE_MAX);
      r := PublishCaseList(0, CACHE_MAX);
      if r.None? { return None; }
      lists := lists[biz := r.value];
    }

    /** `None` is a database error. On every path, hit, miss or beyond the cached range, the
      * answer is the page of the published cases. */
    method PubList(offset: nat, limit: nat) returns (r: Option<seq<Case>>)
      requires offset + limit < 0x8000_0000_0000_0000
      modifies this`lists
      ensures r.Some? && ListFresh(old(State())) ==>
                r.value == Page(Published(published), offset, limit) &&
                Selects(r.value, Published(published), offset, limit)
      ensures State() == old(State()) || State() == Next(old(State()), CacheList(DEFAULT_BIZ))
      ensures Coherent(old(State())) ==> Coherent(State())
    {
      PageSelects(Published(published), offset, limit);
      if CheckTop50(offset, limit) {
        ghost var before := State();
        CachingKeepsCoherent(before, DEFAULT_BIZ);
        var readable: bool := *;
        if readable && DEFAULT_BIZ in lists {
          if ListFresh(before) { PageFromList(before, lists[DEFAULT_BIZ], offset, limit); }
          var page := GetCasesFromCache(lists[DEFAULT_BIZ], offset, limit);
          return Some(page);
        }
        var all := CacheListOf(DEFAULT_BIZ);
        if all.None? { return None; }
        PageFromList(before, all.value, offset, limit);
        var page := GetCasesFromCache(all.value, offset, limit);
        return Some(page);
      }
      r := PublishCaseList(offset, limit);
    }

    /** `None` is a database error or a case that is not published. */
    method GetPubByID(id: int) returns (r: Option<Case>)
      modifies this`cases
      ensures r.Some? && CasesFresh(old(State())) ==>
                id in published && Overwrite(published[id], r.value) == published[id]
      ensures r.Some? && id !in old(cases) ==> id in published && r.value == published[id]
      ensures State() == old(State()) || State() == Next(old(State()), CacheCase(id))
      ensures Coherent(old(State())) ==> Coherent(State())
    {
      var readable: bool := *;
      if readable && id in cases { return Some(cases[id]); }
      var ok: bool := *;
      if !ok || id !in published { return None; }
      cases := cases[id := published[id]];
      return Some(published[id]);
    }

    /** `None` is a database error, which leaves everything as it was; the list may still fail
      * to be refreshed, which only costs the refresh of that list. */
    method SyncCase(c: Case, now: int, newId: int) returns (id: Option<int>, refreshed: bool)
      modifies this
      ensures id.None? ==> State() == old(State())
      ensures id.Some? ==> id.value == (if c.id == 0 then newId else c.id)
      ensures id.Some? && refreshed ==> State() == Next(old(State()), Sync(c, now, newId))
      ensures id.Some? && !refreshed ==> State() == Next(old(State()), SyncUnlisted(c, now, newId))
      ensures id.Some? && Coherent(old(State())) ==>
                (Coherent(State()) <==>
                   KeepsList(old(State()), if refreshed then Sync(c, now, newId) else SyncUnlisted(c, now, newId)))
    {
      var ok: bool := *;
      if !ok { return None, false; }
      ghost var before := State();
      var row := Stamped(c, now, newId);
      drafts := Upsert(drafts, row);
      published := Upsert(published, row);
      cases := cases[row.id := row];
      var listed := CacheListOf(row.biz);
      if Coherent(before) {
        NextAndTheList(before, if listed.Some? then Sync(c, now, newId) else SyncUnlisted(c, now, newId));
      }
      return Some(row.id), listed.Some?;
    }

    method SaveCase(c: Case, now: int, newId: int) returns (id: Option<int>)
      modifies this`drafts
      ensures State() == if id.None? then old(State()) else Next(old(State()), Save(c, now, newId))
      ensures id.Some? ==> id.value == (if c.id == 0 then newId else c.id)
    {
      var ok: bool := *;
      if !ok { return None; }
      var row := Stamped(c, now, newId);
      drafts := Upsert(drafts, row);
      return Some(row.id);
    }
  }
}
