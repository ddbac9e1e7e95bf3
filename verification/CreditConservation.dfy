/** Credits as whole numbers: while nobody's credits outgrow 64 bits, an account shows
  * exactly what its logs add up to, and credits are only made by adding and only spent by
  * confirming. */
module CreditConservation {
  import opened MachineIntegers
  import opened CreditLedger
  import opened CreditRuns

  /** The sum over the active logs of `uid`: what was added less what was spent. */
  function SumActive(logs: map<int, Log>, uid: int, n: nat): int {
    if n == 0 then 0
    else SumActive(logs, uid, n - 1) +
         (if n - 1 in logs && logs[n - 1].uid == uid && logs[n - 1].status == Active then logs[n - 1].change else 0)
  }

  lemma {:induction false} SumsSplit(logs: map<int, Log>, uid: int, n: nat)
    ensures SumTotal(logs, uid, n) + SumLocked(logs, uid, n) == SumActive(logs, uid, n)
  {
    if n > 0 { SumsSplit(logs, uid, n - 1); }
  }

  /** Locked logs take away. */
  ghost predicate LocksTake(db: Db) {
    forall id | id in db.logs && db.logs[id].status == Locked :: db.logs[id].change <= 0
  }

  lemma {:induction false} LockedIsNatural(db: Db, uid: int, n: nat)
    requires LocksTake(db)
    ensures SumLocked(db.logs, uid, n) >= 0
  {
    if n > 0 { LockedIsNatural(db, uid, n - 1); }
  }

  ghost predicate Small(db: Db, uid: int) {
    0 <= SumTotal(db.logs, uid, db.next) && SumActive(db.logs, uid, db.next) < WORD
  }

  ghost predicate InRange(db: Db) {
    LocksTake(db) && forall uid | uid in db.accounts :: Small(db, uid)
  }

  /** What an account shows; a user without one has nothing. */
  function Available(db: Db, uid: int): int { if uid in db.accounts then db.accounts[uid].total else 0 }
  function Held(db: Db, uid: int): int { if uid in db.accounts then db.accounts[uid].locked else 0 }

  const LEAST: Int64 := -0x8000_0000_0000_0000

  /** What an operation may be asked for without leaving the range. An addition must neither
    * overdraw the account nor outgrow 64 bits, unless its key is booked already. A lock must not
    * be for a negative amount, unless it is refused anyway, or the amount is the one that is its
    * own negation. */
  predicate Sane(op: Op, db: Db) {
    match op
    case Add(key, uid, change) =>
      || key in db.keys
      || (0 <= Available(db, uid) + change && Available(db, uid) + Held(db, uid) + change < WORD)
    case Lock(key, uid, change) =>
      || key in db.keys || uid !in db.accounts || db.accounts[uid].total < U64(change)
      || change >= 0 || change == LEAST
    case _ => true
  }

  /** In range, accounts are exact: available plus locked is what the active logs say. */
  lemma AccountsAreExact(db: Db, uid: int)
    requires Books(db) && InRange(db) && uid in db.accounts
    ensures db.accounts[uid].total == SumTotal(db.logs, uid, db.next)
    ensures db.accounts[uid].locked == SumLocked(db.logs, uid, db.next)
    ensures db.accounts[uid].total + db.accounts[uid].locked == SumActive(db.logs, uid, db.next)
  {
    assert Balanced(db, uid) && Small(db, uid);
    SumsSplit(db.logs, uid, db.next);
    LockedIsNatural(db, uid, db.next);
  }

  lemma NoAccountNoSums(db: Db, uid: int)
    requires Books(db) && InRange(db)
    ensures Available(db, uid) == SumTotal(db.logs, uid, db.next)
    ensures Available(db, uid) + Held(db, uid) == SumActive(db.logs, uid, db.next)
  {
    SumsSplit(db.logs, uid, db.next);
    if uid in db.accounts { AccountsAreExact(db, uid); } else { NoLogsNoSums(db.logs, uid, db.next); }
  }

  /** An active log more moves the sums of its owner. */
  lemma ActiveInsert(db: Db, log: Log, id: nat, uid: int)
    requires Books(db) && InRange(db) && id >= db.next && log.status == Active
    ensures var d := if log.uid == uid then log.change else 0;
            && SumTotal(db.logs[id := log], uid, id + 1) == Available(db, uid) + d
            && SumActive(db.logs[id := log], uid, id + 1) == Available(db, uid) + Held(db, uid) + d
  {
    NoAccountNoSums(db, uid);
    InsertMoves(db, log, id, uid);
    SumsSplit(db.logs, uid, db.next);
    SumsSplit(db.logs[id := log], uid, id + 1);
  }

  lemma AddedLog(op: Op, db: Db, stamp: Stamp)
    requires op.Add? && stamp.id >= db.next && Alone(op, db, stamp).0 != db
    ensures op.key !in db.keys
    ensures var after := Alone(op, db, stamp).0;
            && stamp.id in after.logs && after.next == stamp.id + 1
            && after.logs == db.logs[stamp.id := after.logs[stamp.id]]
            && after.accounts.Keys == db.accounts.Keys + {op.uid}
            && after.logs[stamp.id].uid == op.uid && after.logs[stamp.id].status == Active
            && after.logs[stamp.id].change == op.change
  {
    AddEffect(op, db, stamp);
  }

  lemma AddInRange(op: Op, db: Db, stamp: Stamp)
    requires op.Add? && Books(db) && InRange(db) && stamp.id >= db.next
    ensures InRange(Alone(op, db, stamp).0) <==> Sane(op, db)
  {
    var after := Alone(op, db, stamp).0;
    if after != db {
      AddedLog(op, db, stamp);
      forall uid | uid in after.accounts
        ensures Small(after, uid) <==> if uid == op.uid then Sane(op, db) else true
      {
        ActiveInsert(db, after.logs[stamp.id], stamp.id, uid);
        NoAccountNoSums(db, uid);
        if uid in db.accounts { assert Small(db, uid); }
      }
    } else {
      BookedAlready(op, db, stamp);
    }
  }

  lemma BookedAlready(op: Op, db: Db, stamp: Stamp)
    requires op.Add? && Alone(op, db, stamp).0 == db && stamp.id >= db.next
    ensures op.key in db.keys
  {}

  lemma LockStaysSmall(db: Db, log: Log, id: nat, uid: int)
    requires Books(db) && InRange(db) && id >= db.next && uid in db.accounts
    requires log.status == Locked && log.change <= 0 && (log.uid == uid ==> -log.change <= db.accounts[uid].total)
    ensures var logs := db.logs[id := log];
            0 <= SumTotal(logs, uid, id + 1) && SumActive(logs, uid, id + 1) < WORD
  {
    InsertMoves(db, log, id, uid);
    SumsSplit(db.logs, uid, db.next);
    SumsSplit(db.logs[id := log], uid, id + 1);
    AccountsAreExact(db, uid);
    assert Small(db, uid);
  }

  /** What a lock records: the amount that was taken, exactly when it is sane. */
  lemma RecordedLock(x: Int64)
    ensures S64(0 - S64(U64(x))) <= 0 <==> x >= 0 || x == LEAST
    ensures x >= 0 || x == LEAST ==> S64(0 - S64(U64(x))) == -U64(x)
  {
    assert U64(U64(x)) == U64(x);
    Int64Same(x);
    if x != LEAST { Int64Same(0 - x); }
  }

  lemma Int64Same(x: int)
    requires -0x8000_0000_0000_0000 <= x < 0x8000_0000_0000_0000
    ensures S64(x) == x && U64(x) == if x < 0 then x + 0x1_0000_0000_0000_0000 else x
  {
    if x < 0 { U64Shift(x, 1); }
  }

  lemma LockedLog(op: Op, db: Db, stamp: Stamp)
    requires op.Lock? && stamp.id >= db.next && Alone(op, db, stamp).0 != db
    ensures var after := Alone(op, db, stamp).0;
            && stamp.id in after.logs && after.next == stamp.id + 1
            && after.logs == db.logs[stamp.id := after.logs[stamp.id]] && after.accounts.Keys == db.accounts.Keys
            && after.logs[stamp.id].uid == op.uid && after.logs[stamp.id].status == Locked
            && after.logs[stamp.id].change == S64(0 - S64(U64(op.change)))
    ensures op.key !in db.keys && op.uid in db.accounts && U64(op.change) <= db.accounts[op.uid].total
  {}

  lemma NotLocked(op: Op, db: Db, stamp: Stamp)
    requires op.Lock? && stamp.id >= db.next && Alone(op, db, stamp).0 == db
    ensures op.key in db.keys || op.uid !in db.accounts || db.accounts[op.uid].total < U64(op.change)
  {}

  lemma LockInRange(op: Op, db: Db, stamp: Stamp)
    requires op.Lock? && Books(db) && InRange(db) && stamp.id >= db.next
    ensures InRange(Alone(op, db, stamp).0) <==> Sane(op, db)
  {
    var after := Alone(op, db, stamp).0;
    if after != db {
      LockedLog(op, db, stamp);
      RecordedLock(op.change);
      if Sane(op, db) {
        forall uid | uid in after.accounts ensures Small(after, uid) {
          LockStaysSmall(db, after.logs[stamp.id], stamp.id, uid);
        }
      }
    } else {
      NotLocked(op, db, stamp);
    }
  }

  lemma SettleInRange(op: Op, db: Db, stamp: Stamp)
    requires (op.Confirm? || op.Cancel?) && Books(db) && InRange(db)
    ensures InRange(Alone(op, db, stamp).0)
  {
    var after := Alone(op, db, stamp).0;
    if after != db {
      var log := after.logs[op.tid];
      assert db.logs[op.tid].change <= 0;
      forall uid | uid in after.accounts ensures Small(after, uid) {
        ReplaceMoves(db.logs, log, op.tid, uid, db.next);
        SumsSplit(db.logs, uid, db.next);
        SumsSplit(after.logs, uid, after.next);
        assert Small(db, uid);
      }
    }
  }

  /** Of every operation that takes place alone: it keeps the accounts in range exactly when it
    * is sane. */
  lemma StaysInRange(op: Op, db: Db, stamp: Stamp)
    requires Books(db) && InRange(db) && stamp.id >= db.next
    ensures InRange(Alone(op, db, stamp).0) <==> Sane(op, db)
  {
    match op
    case Add(_, _, _) => AddInRange(op, db, stamp);
    case Lock(_, _, _) => LockInRange(op, db, stamp);
    case _ => SettleInRange(op, db, stamp);
  }

  ghost predicate FreshIds(db: Db, ops: seq<(Op, Stamp)>)
    decreases |ops|
  {
    ops == [] || (ops[0].1.id >= db.next && FreshIds(Alone(ops[0].0, db, ops[0].1).0, ops[1..]))
  }

  /** Each operation is sane where it takes effect. */
  ghost predicate SaneSerially(db: Db, ops: seq<(Op, Stamp)>)
    decreases |ops|
  {
    ops == [] || (Sane(ops[0].0, db) && SaneSerially(Alone(ops[0].0, db, ops[0].1).0, ops[1..]))
  }

  ghost predicate InRangeThroughout(db: Db, ops: seq<(Op, Stamp)>)
    decreases |ops|
  {
    InRange(db) && (ops != [] ==> InRangeThroughout(Alone(ops[0].0, db, ops[0].1).0, ops[1..]))
  }

  lemma {:induction false} SeriesStaysInRange(db: Db, ops: seq<(Op, Stamp)>)
    requires Books(db) && InRange(db) && FreshIds(db, ops)
    ensures InRangeThroughout(db, ops) <==> SaneSerially(db, ops)
    ensures SaneSerially(db, ops) ==> Books(Serially(db, ops)) && InRange(Serially(db, ops))
    decreases |ops|
  {
    if ops != [] {
      var after := Alone(ops[0].0, db, ops[0].1).0;
      StaysInRange(ops[0].0, db, ops[0].1);
      AloneKeepsBooks(ops[0].0, db, ops[0].1);
      if InRange(after) { SeriesStaysInRange(after, ops[1..]); }
    }
  }

  lemma {:induction false} CommittedAreFresh(sys: Sys, events: seq<Event>)
    requires Sound(sys) && IsRun(sys, events)
    ensures FreshIds(sys.db, Committed(sys, events))
    decreases |events|
  {
    if events != [] {
      var e, after := events[0], Step(sys, events[0]);
      StepKeepsSound(sys, e);
      CommittedAreFresh(after, events[1..]);
      if e.Finish? { CommitIsSerial(sys.open[e.t].op, sys.open[e.t].snap, sys.db, e.stamp); }
      var ops := Committed(after, events[1..]);
      if after.db != sys.db {
        var first := (sys.open[e.t].op, e.stamp);
        assert ([first] + ops)[0] == first && ([first] + ops)[1..] == ops;
      } else {
        assert [] + ops == ops;
      }
    }
  }

  /** Over every run of overlapping transactions the accounts are in range all the time exactly
    * when each committed operation was sane where it took effect. */
  lemma RunsStayInRange(sys: Sys, events: seq<Event>)
    requires Sound(sys) && InRange(sys.db) && IsRun(sys, events)
    ensures InRangeThroughout(sys.db, Committed(sys, events)) <==> SaneSerially(sys.db, Committed(sys, events))
  {
    CommittedAreFresh(sys, events);
    SeriesStaysInRange(sys.db, Committed(sys, events));
  }

  /** The failing family: taking more than there is by a negative addition wraps. */
  lemma Overdrawn(db: Db, key: string, uid: int, change: Int64, stamp: Stamp)
    requires Books(db) && InRange(db) && key !in db.keys && uid in db.accounts && stamp.id >= db.next
    requires db.accounts[uid].total + change < 0
    ensures var after := Alone(Add(key, uid, change), db, stamp).0;
            && uid in after.accounts && after.accounts[uid].total == db.accounts[uid].total + change + WORD
            && !InRange(after)
  {
    StaysInRange(Add(key, uid, change), db, stamp);
    AddEffect(Add(key, uid, change), db, stamp);
    AccountsAreExact(db, uid);
    assert Small(db, uid);
    U64Adds(db.accounts[uid].total, change);
    U64Shift(db.accounts[uid].total + change, 1);
  }

  /** One of them: three credits less five. */
  lemma ThreeLessFive(stamp: Stamp)
    requires stamp.id >= 1
    ensures var log := Log("a", 7, 3, 3, Active, 0);
            var db := Db(map[7 := Account(3, 0, 1)], map[0 := log], map["a" := 0], 1);
            var after := Alone(Add("b", 7, -5), db, stamp).0;
            Books(db) && InRange(db) && after.accounts.Keys == {7} && after.accounts[7].total == WORD - 2
  {
    var log := Log("a", 7, 3, 3, Active, 0);
    var db := Db(map[7 := Account(3, 0, 1)], map[0 := log], map["a" := 0], 1);
    assert SumTotal(db.logs, 7, 1) == SumTotal(db.logs, 7, 0) + 3;
    assert SumLocked(db.logs, 7, 1) == SumLocked(db.logs, 7, 0);
    assert SumActive(db.logs, 7, 1) == SumActive(db.logs, 7, 0) + 3;
    assert Balanced(db, 7) && Small(db, 7);
    Overdrawn(db, "b", 7, -5, stamp);
  }

  /** After every run of overlapping transactions whose committed operations were sane, every
    * account is exact and not overdrawn. */
  lemma EveryRunConserves(sys: Sys, events: seq<Event>, uid: int)
    requires Sound(sys) && InRange(sys.db) && IsRun(sys, events)
    requires SaneSerially(sys.db, Committed(sys, events))
    requires uid in Run(sys, events).db.accounts
    ensures var db := Run(sys, events).db;
            && db.accounts[uid].total + db.accounts[uid].locked == SumActive(db.logs, uid, db.next)
            && db.accounts[uid].locked == SumLocked(db.logs, uid, db.next)
            && 0 <= db.accounts[uid].total && 0 <= db.accounts[uid].locked
  {
    RunsAreSerial(sys, events);
    CommittedAreFresh(sys, events);
    SeriesStaysInRange(sys.db, Committed(sys, events));
    var db := Run(sys, events).db;
    AccountsAreExact(db, uid);
    LockedIsNatural(db, uid, db.next);
    assert Small(db, uid);
  }

  /** The amount a lock records is the amount that was asked for. */
  lemma RecordedAmount(x: int)
    ensures U64(0 - S64(0 - S64(U64(x)))) == U64(x)
  {
    var k := LockedChange(x);
    U64Shift(x, -k);
  }

  lemma Undone(t: int, a: int)
    requires 0 <= t < WORD
    ensures U64(U64(t - a) + a) == t && U64(U64(t + a) - a) == t
  {
    U64Adds(t - a, a);
    U64Adds(t + a, -a);
  }

  /** What one call undoes: cancelling a lock restores the account, for every amount. */
  lemma CancelUndoesLock(op: Op, db: Db, stamp: Stamp, again: Stamp)
    requires op.Lock? && Books(db) && stamp.id >= db.next && Alone(op, db, stamp).0 != db
    ensures var after := Alone(Cancel(op.uid, stamp.id), Alone(op, db, stamp).0, again).0;
            && op.uid in db.accounts && op.uid in after.accounts && stamp.id in after.logs
            && after.accounts[op.uid].total == db.accounts[op.uid].total
            && after.accounts[op.uid].locked == db.accounts[op.uid].locked
            && after.logs[stamp.id].status == Inactive
  {
    LockEffect(op, db, stamp);
    assert Balanced(db, op.uid);
    RecordedAmount(op.change);
    CancelRestores(op.uid, Alone(op, db, stamp).0, stamp.id, db.accounts[op.uid], U64(op.change), again);
  }

  lemma CancelRestores(uid: int, mid: Db, tid: int, c: Account, a: int, stamp: Stamp)
    requires uid in mid.accounts && tid in mid.logs && 0 <= c.total < WORD && 0 <= c.locked < WORD
    requires mid.accounts[uid].total == U64(c.total - a) && mid.accounts[uid].locked == U64(c.locked + a)
    requires mid.logs[tid].uid == uid && mid.logs[tid].status == Locked && U64(0 - mid.logs[tid].change) == a
    ensures var after := Alone(Cancel(uid, tid), mid, stamp).0;
            && uid in after.accounts && after.accounts[uid].total == c.total && after.accounts[uid].locked == c.locked
            && tid in after.logs && after.logs[tid].status == Inactive
  {
    Undone(c.total, a);
    Undone(c.locked, a);
    CancelLocked(uid, mid, tid, stamp);
  }

  lemma LockEffect(op: Op, db: Db, stamp: Stamp)
    requires op.Lock? && Alone(op, db, stamp).0 != db
    ensures op.uid in db.accounts
    ensures var after, a, c := Alone(op, db, stamp).0, U64(op.change), db.accounts[op.uid];
            && op.uid in after.accounts && stamp.id in after.logs
            && after.accounts[op.uid] == Account(U64(c.total - a), U64(c.locked + a), c.version + 1)
            && after.logs[stamp.id].change == S64(0 - S64(a))
            && after.logs[stamp.id].uid == op.uid && after.logs[stamp.id].status == Locked
  {}

  lemma CancelLocked(uid: int, db: Db, tid: int, stamp: Stamp)
    requires uid in db.accounts && tid in db.logs && db.logs[tid].uid == uid && db.logs[tid].status == Locked
    ensures var after, c, a := Alone(Cancel(uid, tid), db, stamp).0, db.accounts[uid], U64(0 - db.logs[tid].change);
            && uid in after.accounts && tid in after.logs && after.logs[tid].status == Inactive
            && after.accounts[uid].total == U64(c.total + a) && after.accounts[uid].locked == U64(c.locked - a)
  {}

  /** Cancelling moves an amount from locked to available; confirming takes it out for good. */
  lemma SettlingMoves(op: Op, db: Db, stamp: Stamp)
    requires (op.Confirm? || op.Cancel?) && Books(db) && InRange(db) && Alone(op, db, stamp).0 != db
    ensures var after := Alone(op, db, stamp).0;
            var amount := -db.logs[op.tid].change;
            && op.uid in db.accounts && op.uid in after.accounts
            && after.accounts[op.uid].locked == db.accounts[op.uid].locked - amount
            && after.accounts[op.uid].total == db.accounts[op.uid].total + if op.Cancel? then amount else 0
  {
    var after := Alone(op, db, stamp).0;
    SettleInRange(op, db, stamp);
    AloneKeepsBooks(op, db, Stamp(db.next, 0));
    ReplaceMoves(db.logs, after.logs[op.tid], op.tid, op.uid, db.next);
    AccountsAreExact(db, op.uid);
    AccountsAreExact(after, op.uid);
  }
}
