/** The job that gives back credits whose lock has expired, among other transactions. */
module CreditSweep {
  import opened CreditLedger
  import opened CreditRuns
  import opened Pages

  /** The locked logs that are not newer than the cutoff. */
  function Expired(db: Db, cutoff: int): set<int> {
    set id | id in db.logs && db.logs[id].status == Locked && db.logs[id].ctime <= cutoff
  }

  /** What other transactions may do meanwhile: they keep the books, and whatever they book
    * is newer than the cutoff, which lies in the past. */
  predicate Others(a: Db, b: Db, cutoff: int) {
    Books(b) && Later(a, b) && forall id | id in b.logs && id !in a.logs :: b.logs[id].ctime > cutoff
  }

  /** Every transaction of the ledger behaves like that. */
  lemma TransactionsAreOthers(op: Op, snap: Db, db: Db, stamp: Stamp, cutoff: int)
    requires Books(db) && Later(snap, db) && stamp.id >= db.next && stamp.now > cutoff
    ensures Others(db, Commit(op, snap, db, stamp).0, cutoff)
  {
    CommitIsSerial(op, snap, db, stamp);
    AloneKeepsBooks(op, db, stamp);
    AloneIsLater(op, db, stamp);
  }

  /** Expired locks only go away. */
  lemma ExpiredShrinks(a: Db, b: Db, cutoff: int)
    requires Others(a, b, cutoff)
    ensures Expired(b, cutoff) <= Expired(a, cutoff)
  {
    forall id | id in Expired(b, cutoff) ensures id in Expired(a, cutoff) {
      assert id in a.logs && LogDevelops(a.logs[id], b.logs[id]);
    }
  }

  lemma OthersTransitive(a: Db, b: Db, c: Db, cutoff: int)
    requires Others(a, b, cutoff) && Others(b, c, cutoff)
    ensures Others(a, c, cutoff)
  {
    LaterTransitive(a, b, c);
    forall id | id in c.logs && id !in a.logs ensures c.logs[id].ctime > cutoff {
      if id in b.logs { assert LogDevelops(b.logs[id], c.logs[id]); }
    }
  }

  lemma OthersReflexive(db: Db, cutoff: int)
    requires Books(db)
    ensures Others(db, db, cutoff)
  {}

  predicate GivenBack(db: Db, ids: set<int>) {
    forall id | id in ids :: id in db.logs && db.logs[id].status == Inactive
  }

  lemma GivenBackStays(a: Db, b: Db, ids: set<int>)
    requires Later(a, b) && GivenBack(a, ids)
    ensures GivenBack(b, ids)
  {
    forall id | id in ids ensures id in b.logs && b.logs[id].status == Inactive {
      assert LogDevelops(a.logs[id], b.logs[id]);
    }
  }

  /** Cancelling a log on sound books settles it, or reports that it was confirmed. The books
    * matter: without the account the cancellation would answer well and leave the lock. */
  lemma CancelSettles(db: Db, tid: int, cutoff: int)
    requires Books(db) && tid in db.logs
    ensures var (after, answer) := Alone(Cancel(db.logs[tid].uid, tid), db, Stamp(db.next, 0));
            && Others(db, after, cutoff) && tid !in Expired(after, cutoff)
            && (answer == Done(tid) ==> GivenBack(after, {tid}))
            && answer == (if db.logs[tid].status == Active then BadStatus(Active) else Done(tid))
  {
    AloneKeepsBooks(Cancel(db.logs[tid].uid, tid), db, Stamp(db.next, 0));
    AloneIsLater(Cancel(db.logs[tid].uid, tid), db, Stamp(db.next, 0));
  }

  class CreditStore {
    var db: Db
    ghost var calls: seq<int>   // the logs the job asked to cancel

    constructor (db: Db)
      ensures this.db == db && calls == []
    {
      this.db, calls := db, [];
    }

    /** Other transactions get in between. */
    method LetOthersIn(cutoff: int)
      requires Books(db)
      modifies this`db
      ensures Others(old(db), db, cutoff)
    {
      var before := db;
      OthersReflexive(db, cutoff);
      db := *;
      if !Others(before, db, cutoff) { db := before; }
    }

    /** The first page of expired locks and their number. */
    method FindExpired(limit: nat, cutoff: int) returns (ok: bool, page: seq<int>, total: nat)
      requires Books(db)
      modifies this`db
      ensures Others(old(db), db, cutoff)
      ensures ok ==> IsPage(page, Expired(db, cutoff), limit) && total == |Expired(db, cutoff)|
    {
      LetOthersIn(cutoff);
      ok := *;
      page := FirstPage(Expired(db, cutoff), limit);
      total := |Expired(db, cutoff)|;
    }

    /** Conflicts are retried inside; what remains is the operation alone, or a failure. */
    method CancelDeduct(tid: int, cutoff: int) returns (ok: bool)
      requires Books(db) && tid in db.logs
      modifies this
      ensures Others(old(db), db, cutoff) && calls == old(calls) + [tid]
      ensures ok ==> GivenBack(db, Members([tid]))
    {
      var uid := db.logs[tid].uid;
      calls := calls + [tid];
      assert Members([tid]) == {tid};
      LetOthersIn(cutoff);
      ghost var mid := db;
      assert LogDevelops(old(db).logs[tid], db.logs[tid]);
      ok := *;
      if ok {
        CancelSettles(db, tid, cutoff);
        var (after, answer) := Alone(Cancel(uid, tid), db, Stamp(db.next, 0));
        db := after;
        ok := answer == Done(tid);
        OthersTransitive(old(db), mid, db, cutoff);
      }
    }
  }

  class CloseTimeoutLockedCreditsJob {
    const store: CreditStore
    const limit: nat

    constructor (store: CreditStore, limit: nat)
      ensures this.store == store && this.limit == limit
    {
      this.store, this.limit := store, limit;
    }

    /** Cancels the locks of one page, until one cannot be cancelled. */
    method CancelPage(page: seq<int>, cutoff: int) returns (ok: bool, ghost done: nat)
      requires Books(store.db) && Members(page) <= Expired(store.db, cutoff)
      modifies store
      ensures Others(old(store.db), store.db, cutoff)
      ensures done <= |page| && store.calls == old(store.calls) + page[..done]
      ensures ok ==> done == |page| && GivenBack(store.db, Members(page))
    {
      ghost var start := store.db;
      OthersReflexive(start, cutoff);
      for i := 0 to |page|
        invariant Others(start, store.db, cutoff)
        invariant GivenBack(store.db, Members(page[..i]))
        invariant store.calls == old(store.calls) + page[..i]
      {
        StillBooked(start, store.db, page, i, cutoff);
        ghost var before := store.db;
        ok := store.CancelDeduct(page[i], cutoff);
        OneMoreCancelled(start, before, store.db, page[..i], page[i], cutoff);
        JoinOne(old(store.calls), page, i);
        if !ok { return false, i + 1; }
      }
      assert page[..|page|] == page;
      return true, |page|;
    }

    /** `ok` is the nil return; `read` are the logs of all pages read, in order, of which the
      * first `done` were asked to be cancelled. */
    method Run(cutoff: int) returns (ok: bool, ghost read: seq<int>, ghost done: nat)
      requires limit >= 1 && Books(store.db)
      modifies store
      ensures Others(old(store.db), store.db, cutoff)
      ensures ok ==> Expired(store.db, cutoff) == {}
      ensures ok ==> NoOldLock(store.db, cutoff)
      ensures Distinct(read) && Members(read) <= old(Expired(store.db, cutoff))
      ensures done <= |read| && store.calls == old(store.calls) + read[..done]
      ensures ok ==> done == |read| && GivenBack(store.db, Members(read))
    {
      ghost var start := store.db;
      OthersReflexive(start, cutoff);
      read, done := [], 0;
      while true
        invariant Sweeping(start, store.db, read, cutoff)
        invariant done == |read| && store.calls == old(store.calls) + read
        decreases |Expired(store.db, cutoff)|
      {
        ghost var before, earlier := store.db, read;
        var found, page, total := store.FindExpired(limit, cutoff);
        AfterFind(start, before, store.db, read, cutoff);
        assert read[..done] == read;
        if !found { return false, read, done; }
        ghost var atRead, n := store.db, 0;
        PageIsNew(start, atRead, earlier, page, limit, cutoff);
        var cancelled;
        cancelled, n := CancelPage(page, cutoff);
        read, done := earlier + page, |earlier| + n;
        JoinTake(old(store.calls), earlier, page, n);
        OthersTransitive(start, atRead, store.db, cutoff);
        if !cancelled { return false, read, done; }
        AfterPage(start, atRead, store.db, earlier, page, limit, cutoff);
        if |page| < limit || limit >= total {
          LastPageIsAll(page, Expired(atRead, cutoff), limit);
          NothingExpired(store.db, cutoff);
          return true, read, done;
        }
        FullPageShrinks(page, Expired(before, cutoff), Expired(atRead, cutoff), Expired(store.db, cutoff));
      }
    }
  }

  /** Every log that is still locked is newer than the cutoff. */
  predicate NoOldLock(db: Db, cutoff: int) {
    forall id | id in db.logs && db.logs[id].status == Locked :: db.logs[id].ctime > cutoff
  }

  lemma NothingExpired(db: Db, cutoff: int)
    requires Expired(db, cutoff) == {}
    ensures NoOldLock(db, cutoff)
  {
    forall id | id in db.logs && db.logs[id].status == Locked ensures db.logs[id].ctime > cutoff {
      assert id !in Expired(db, cutoff);
    }
  }

  /** Logs are never deleted. */
  lemma StillBooked(start: Db, now: Db, page: seq<int>, i: nat, cutoff: int)
    requires i < |page| && Members(page) <= Expired(start, cutoff) && Others(start, now, cutoff)
    ensures page[i] in now.logs
  {
    var id := page[i];
    assert id in Members(page);
    assert id in Expired(start, cutoff);
    assert id in start.logs;
  }

  lemma JoinOne(calls: seq<int>, page: seq<int>, i: nat)
    requires i < |page|
    ensures page[..i + 1] == page[..i] + [page[i]]
    ensures calls + page[..i] + [page[i]] == calls + page[..i + 1]
  {}

  lemma GivenBackAppend(db: Db, p: seq<int>, q: seq<int>)
    requires GivenBack(db, Members(p)) && GivenBack(db, Members(q))
    ensures GivenBack(db, Members(p + q))
  {
    MembersAppend(p, q);
  }

  lemma OneMoreCancelled(start: Db, before: Db, now: Db, done: seq<int>, tid: int, cutoff: int)
    requires Others(start, before, cutoff) && Others(before, now, cutoff) && GivenBack(before, Members(done))
    ensures Others(start, now, cutoff)
    ensures GivenBack(now, Members([tid])) ==> GivenBack(now, Members(done + [tid]))
  {
    OthersTransitive(start, before, now, cutoff);
    GivenBackStays(before, now, Members(done));
    MembersAppend(done, [tid]);
  }

  lemma GivenBackNotExpired(db: Db, ids: set<int>, cutoff: int)
    requires GivenBack(db, ids)
    ensures ids !! Expired(db, cutoff)
  {
    forall id | id in ids ensures id !in Expired(db, cutoff) {}
  }

  /** Between two pages: what was read so far was expired at the start, each log once, and
    * has been given back. */
  ghost predicate Sweeping(start: Db, now: Db, read: seq<int>, cutoff: int) {
    && Others(start, now, cutoff)
    && Distinct(read) && Members(read) <= Expired(start, cutoff)
    && GivenBack(now, Members(read))
  }

  lemma AfterFind(start: Db, before: Db, now: Db, read: seq<int>, cutoff: int)
    requires Sweeping(start, before, read, cutoff) && Others(before, now, cutoff)
    ensures Sweeping(start, now, read, cutoff) && Expired(now, cutoff) <= Expired(before, cutoff)
  {
    OthersTransitive(start, before, now, cutoff);
    GivenBackStays(before, now, Members(read));
    ExpiredShrinks(before, now, cutoff);
  }

  lemma PageIsNew(start: Db, now: Db, read: seq<int>, page: seq<int>, limit: nat, cutoff: int)
    requires Sweeping(start, now, read, cutoff) && IsPage(page, Expired(now, cutoff), limit)
    ensures Distinct(read + page) && Members(read + page) <= Expired(start, cutoff)
  {
    GivenBackNotExpired(now, Members(read), cutoff);
    DistinctAppend(read, page);
    MembersAppend(read, page);
    ExpiredShrinks(start, now, cutoff);
  }

  lemma AfterPage(start: Db, atRead: Db, now: Db, read: seq<int>, page: seq<int>, limit: nat, cutoff: int)
    requires Sweeping(start, atRead, read, cutoff) && IsPage(page, Expired(atRead, cutoff), limit)
    requires Others(atRead, now, cutoff) && GivenBack(now, Members(page))
    ensures Sweeping(start, now, read + page, cutoff)
    ensures Members(page) !! Expired(now, cutoff) && Expired(now, cutoff) <= Expired(atRead, cutoff)
  {
    AfterFind(start, atRead, now, read, cutoff);
    PageIsNew(start, atRead, read, page, limit, cutoff);
    GivenBackAppend(now, read, page);
    GivenBackNotExpired(now, Members(page), cutoff);
  }

  lemma FullPageShrinks(page: seq<int>, a: set<int>, b: set<int>, c: set<int>)
    requires page != [] && Members(page) <= b <= a && c <= b && Members(page) !! c
    ensures |c| < |a|
  {
    assert page[0] in Members(page);
    SizeOfSubset(c, a - {page[0]});
  }
}
