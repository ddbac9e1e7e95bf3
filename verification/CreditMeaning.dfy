/** What each credit operation does with nobody else around, in whole numbers: who gets what, which
  * log says so, and what the caller is told. */
module CreditMeaning {
  import opened MachineIntegers
  import opened CreditLedger
  import opened CreditConservation

  /** Only the account of `uid` and the log `id` differ, and the index may have grown. */
  predicate OnlyTouches(a: Db, b: Db, uid: int, id: int) {
    && (forall u | u in a.accounts && u != uid :: u in b.accounts && b.accounts[u] == a.accounts[u])
    && (forall u | u in b.accounts && u != uid :: u in a.accounts)
    && (forall l | l in a.logs && l != id :: l in b.logs && b.logs[l] == a.logs[l])
    && (forall l | l in b.logs && l != id :: l in a.logs)
  }

  /** Adding credits: what is available grows by the amount, and an active log says so. */
  lemma WhatAddDoes(key: string, uid: int, change: Int64, db: Db, stamp: Stamp)
    requires Books(db) && InRange(db) && stamp.id >= db.next && Sane(Add(key, uid, change), db)
    ensures var (after, answer) := Alone(Add(key, uid, change), db, stamp);
            if key in db.keys then after == db && answer == Duplicated
            else
              && answer == Done(stamp.id) && OnlyTouches(db, after, uid, stamp.id)
              && Available(after, uid) == Available(db, uid) + change && Held(after, uid) == Held(db, uid)
              && stamp.id in after.logs
              && after.logs[stamp.id] == Log(key, uid, change, Available(after, uid), Active, stamp.now)
  {
    if uid in db.accounts { AccountsAreExact(db, uid); assert Small(db, uid); LockedIsNatural(db, uid, db.next); }
    Int64Same(change);
    if key !in db.keys { AddedTotal(Available(db, uid), change); }
  }

  lemma AddedTotal(t: int, change: Int64)
    requires 0 <= t + change < WORD
    ensures U64(t + U64(change)) == t + change && S64(U64(change)) == change
  {
    Int64Same(change);
    if change < 0 { U64Shift(t + change, 1); }
  }

  /** Locking credits: the amount goes from what is available to what is held, and a locked log
    * says so; without the account or the credits nothing happens. */
  lemma WhatLockDoes(key: string, uid: int, change: Int64, db: Db, stamp: Stamp)
    requires Books(db) && InRange(db) && stamp.id >= db.next && change >= 0
    ensures var (after, answer) := Alone(Lock(key, uid, change), db, stamp);
            if uid !in db.accounts then after == db && answer == NotFound
            else if key in db.keys then after == db && answer == Done(db.keys[key])
            else if db.accounts[uid].total < change then after == db && answer == NotEnough
            else
              && answer == Done(stamp.id) && OnlyTouches(db, after, uid, stamp.id)
              && Available(after, uid) == Available(db, uid) - change && Held(after, uid) == Held(db, uid) + change
              && stamp.id in after.logs
              && after.logs[stamp.id] == Log(key, uid, -change, Available(after, uid), Locked, stamp.now)
  {
    Int64Same(change);
    RecordedLock(change);
    if uid in db.accounts {
      AccountsAreExact(db, uid);
      assert Small(db, uid);
      LockedIsNatural(db, uid, db.next);
    }
  }

  /** Settling a lock: confirming makes it an active log, cancelling an inactive one; what is not a
    * lock of this user is left alone. */
  lemma WhatSettleDoes(op: Op, db: Db, stamp: Stamp)
    requires (op.Confirm? || op.Cancel?) && Books(db)
    ensures var (after, answer) := Alone(op, db, stamp);
            var goal := if op.Confirm? then Active else Inactive;
            if op.uid !in db.accounts || op.tid !in db.logs || db.logs[op.tid].uid != op.uid then
              after == db && answer == if op.Cancel? then Done(op.tid) else NotFound
            else if db.logs[op.tid].status == Locked then
              && answer == Done(op.tid) && OnlyTouches(db, after, op.uid, op.tid)
              && op.tid in after.logs && after.logs[op.tid] == db.logs[op.tid].(status := goal)
            else
              var status := db.logs[op.tid].status;
              after == db && answer == if status == goal then Done(op.tid) else BadStatus(status)
  {}
}
