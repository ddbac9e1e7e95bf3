/** The credit accounts: optimistic transactions over an account row with a version and a
  * table of credit logs, in 64-bit arithmetic. */
module CreditLedger {
  import opened MachineIntegers

  // ----- the tables -----

  datatype Status = Active | Locked | Inactive

  datatype Account = Account(total: int, locked: int, version: int)

  datatype Log = Log(key: string, uid: int, change: int, balance: int, status: Status, ctime: int)

  /** `keys` is the unique index on the log key; `next` is the next auto-increment id. */
  datatype Db = Db(accounts: map<int, Account>, logs: map<int, Log>, keys: map<string, int>, next: nat)

  datatype Op =
    | Add(key: string, uid: int, change: Int64)
    | Lock(key: string, uid: int, change: Int64)
    | Confirm(uid: int, tid: int)
    | Cancel(uid: int, tid: int)

  datatype Answer = Done(id: int) | Conflict | Duplicated | NotEnough | NotFound | BadStatus(status: Status)

  /** What the database supplies to a transaction: a fresh id and the time. */
  datatype Stamp = Stamp(id: nat, now: int)

  // ----- one transaction: reads from `snap`, writes to `db` -----

  function Insert(db: Db, account: Account, log: Log, id: nat): Db {
    Db(db.accounts[log.uid := account], db.logs[id := log], db.keys[log.key := id],
       if id >= db.next then id + 1 else db.next)
  }

  /** The conditional update of an account: it hits when the version is still the one read. */
  predicate SameVersion(snap: Db, db: Db, uid: int) {
    uid in snap.accounts && uid in db.accounts && db.accounts[uid].version == snap.accounts[uid].version
  }

  function CommitAdd(op: Op, snap: Db, db: Db, stamp: Stamp): (Db, Answer)
    requires op.Add?
  {
    var amount := U64(op.change);
    if if op.uid in snap.accounts then !SameVersion(snap, db, op.uid) else op.uid in db.accounts then (db, Conflict)
    else if op.key in db.keys then (db, Duplicated)
    else
      var account :=
        if op.uid in snap.accounts then
          var c := snap.accounts[op.uid];
          Account(U64(c.total + amount), db.accounts[op.uid].locked, c.version + 1)
        else Account(amount, 0, 1);
      var log := Log(op.key, op.uid, S64(amount), account.total, Active, stamp.now);
      (Insert(db, account, log, stamp.id), Done(stamp.id))
  }

  function CommitLock(op: Op, snap: Db, db: Db, stamp: Stamp): (Db, Answer)
    requires op.Lock?
  {
    var amount := U64(op.change);
    if op.uid !in snap.accounts then (db, NotFound)
    else
      var c := snap.accounts[op.uid];
      if c.total < amount then
        (db, if op.key in snap.keys then Done(snap.keys[op.key]) else NotEnough)
      else if !SameVersion(snap, db, op.uid) then (db, Conflict)
      else if op.key in db.keys then (db, Done(db.keys[op.key]))
      else
        var account := Account(U64(c.total - amount), U64(c.locked + amount), c.version + 1);
        var log := Log(op.key, op.uid, S64(0 - S64(amount)), account.total, Locked, stamp.now);
        (Insert(db, account, log, stamp.id), Done(stamp.id))
  }

  function Released(op: Op, log: Log): int
    requires op.Confirm? || op.Cancel?
  {
    if op.Cancel? then U64(0 - log.change) else 0
  }

  function CommitSettle(op: Op, snap: Db, db: Db): (Db, Answer)
    requires op.Confirm? || op.Cancel?
  {
    var target := if op.Cancel? then Inactive else Active;
    if op.uid !in snap.accounts || op.tid !in snap.logs || snap.logs[op.tid].uid != op.uid then
      (db, if op.Cancel? then Done(op.tid) else NotFound)
    else
      var c, log := snap.accounts[op.uid], snap.logs[op.tid];
      if log.status == target then (db, Done(op.tid))
      else if log.status != Locked then (db, BadStatus(log.status))
      else if op.tid !in db.logs || db.logs[op.tid].uid != op.uid || db.logs[op.tid].status != Locked then
        (db, Conflict)
      else if !SameVersion(snap, db, op.uid) then (db, Conflict)
      else
        var account := Account(U64(c.total + Released(op, log)), U64(c.locked - U64(0 - log.change)), c.version + 1);
        (db.(accounts := db.accounts[op.uid := account], logs := db.logs[op.tid := log.(status := target)]),
         Done(op.tid))
  }

  function Commit(op: Op, snap: Db, db: Db, stamp: Stamp): (Db, Answer) {
    match op
    case Add(_, _, _) => CommitAdd(op, snap, db, stamp)
    case Lock(_, _, _) => CommitLock(op, snap, db, stamp)
    case _ => CommitSettle(op, snap, db)
  }

  /** The operation with nobody else around. */
  function Alone(op: Op, db: Db, stamp: Stamp): (Db, Answer) {
    Commit(op, db, db, stamp)
  }

  // ----- the books -----

  /** What a log contributes to the available total, and to the locked total. */
  function ToTotal(log: Log): int { if log.status == Inactive then 0 else log.change }
  function ToLocked(log: Log): int { if log.status == Locked then -log.change else 0 }

  /** The sums over the logs of `uid` with ids below n. */
  function SumTotal(logs: map<int, Log>, uid: int, n: nat): int {
    if n == 0 then 0
    else SumTotal(logs, uid, n - 1) + (if n - 1 in logs && logs[n - 1].uid == uid then ToTotal(logs[n - 1]) else 0)
  }

  function SumLocked(logs: map<int, Log>, uid: int, n: nat): int {
    if n == 0 then 0
    else SumLocked(logs, uid, n - 1) + (if n - 1 in logs && logs[n - 1].uid == uid then ToLocked(logs[n - 1]) else 0)
  }

  /** Ids are below `next`, the index is the index, and every log has its account. */
  predicate WellFormed(db: Db) {
    && (forall id | id in db.logs :: 0 <= id < db.next && db.logs[id].uid in db.accounts)
    && (forall id | id in db.logs :: db.logs[id].key in db.keys && db.keys[db.logs[id].key] == id)
    && (forall k | k in db.keys :: db.keys[k] in db.logs && db.logs[db.keys[k]].key == k)
  }

  /** The account of `uid` shows what its logs add up to, as 64-bit numbers. */
  predicate Balanced(db: Db, uid: int) {
    uid in db.accounts ==>
      && db.accounts[uid].total == U64(SumTotal(db.logs, uid, db.next))
      && db.accounts[uid].locked == U64(SumLocked(db.logs, uid, db.next))
  }

  predicate Books(db: Db) {
    && WellFormed(db)
    && (forall uid | uid in db.accounts :: Balanced(db, uid))
  }

  // ----- how sums move -----

  lemma {:induction false} SumsAgree(a: map<int, Log>, b: map<int, Log>, uid: int, n: nat)
    requires forall id | 0 <= id < n :: (id in a && a[id].uid == uid) <==> (id in b && b[id].uid == uid)
    requires forall id | 0 <= id < n && id in a && id in b && a[id].uid == uid ::
               ToTotal(a[id]) == ToTotal(b[id]) && ToLocked(a[id]) == ToLocked(b[id])
    ensures SumTotal(a, uid, n) == SumTotal(b, uid, n) && SumLocked(a, uid, n) == SumLocked(b, uid, n)
  {
    if n > 0 { SumsAgree(a, b, uid, n - 1); }
  }

  lemma {:induction false} SumsPastEnd(logs: map<int, Log>, uid: int, n: nat, m: nat)
    requires n <= m && forall id | id in logs :: id < n
    ensures SumTotal(logs, uid, m) == SumTotal(logs, uid, n) && SumLocked(logs, uid, m) == SumLocked(logs, uid, n)
  {
    if n < m { SumsPastEnd(logs, uid, n, m - 1); }
  }

  /** Inserting a log past the end adds its contributions to its owner's sums. */
  lemma InsertMoves(db: Db, log: Log, id: nat, uid: int)
    requires WellFormed(db) && id >= db.next
    ensures var logs := db.logs[id := log];
            && SumTotal(logs, uid, id + 1) ==
               SumTotal(db.logs, uid, db.next) + (if log.uid == uid then ToTotal(log) else 0)
            && SumLocked(logs, uid, id + 1) ==
               SumLocked(db.logs, uid, db.next) + (if log.uid == uid then ToLocked(log) else 0)
  {
    SumsPastEnd(db.logs, uid, db.next, id);
    SumsAgree(db.logs, db.logs[id := log], uid, id);
  }

  /** Replacing a log by one of the same owner moves the sums by the difference. */
  lemma {:induction false} ReplaceMoves(logs: map<int, Log>, log: Log, id: nat, uid: int, n: nat)
    requires id in logs && log.uid == logs[id].uid && id < n
    ensures var new' := logs[id := log];
            && SumTotal(new', uid, n) ==
               SumTotal(logs, uid, n) + (if log.uid == uid then ToTotal(log) - ToTotal(logs[id]) else 0)
            && SumLocked(new', uid, n) ==
               SumLocked(logs, uid, n) + (if log.uid == uid then ToLocked(log) - ToLocked(logs[id]) else 0)
  {
    if id == n - 1 {
      SumsAgree(logs, logs[id := log], uid, n - 1);
    } else {
      ReplaceMoves(logs, log, id, uid, n - 1);
    }
  }

  lemma {:induction false} NoLogsNoSums(logs: map<int, Log>, uid: int, n: nat)
    requires forall id | id in logs :: logs[id].uid != uid
    ensures SumTotal(logs, uid, n) == 0 && SumLocked(logs, uid, n) == 0
  {
    if n > 0 { NoLogsNoSums(logs, uid, n - 1); }
  }

  // ----- every operation keeps the books -----

  lemma InsertKeepsBooks(db: Db, account: Account, log: Log, id: nat)
    requires Books(db) && id >= db.next && log.key !in db.keys
    requires account.total == U64(SumTotal(db.logs, log.uid, db.next) + ToTotal(log))
    requires account.locked == U64(SumLocked(db.logs, log.uid, db.next) + ToLocked(log))
    ensures Books(Insert(db, account, log, id))
  {
    var after := Insert(db, account, log, id);
    forall uid | uid in after.accounts ensures Balanced(after, uid) {
      InsertMoves(db, log, id, uid);
      if uid != log.uid { assert Balanced(db, uid); }
    }
  }

  lemma SettleKeepsBooks(db: Db, account: Account, log: Log, id: nat)
    requires Books(db) && id in db.logs && log == db.logs[id].(status := log.status)
    requires account.total == U64(SumTotal(db.logs, log.uid, db.next) + ToTotal(log) - ToTotal(db.logs[id]))
    requires account.locked == U64(SumLocked(db.logs, log.uid, db.next) + ToLocked(log) - ToLocked(db.logs[id]))
    ensures Books(db.(accounts := db.accounts[log.uid := account], logs := db.logs[id := log]))
  {
    var after := db.(accounts := db.accounts[log.uid := account], logs := db.logs[id := log]);
    forall uid | uid in after.accounts ensures Balanced(after, uid) {
      ReplaceMoves(db.logs, log, id, uid, db.next);
      if uid != log.uid { assert Balanced(db, uid); }
    }
  }

  lemma AddEffect(op: Op, db: Db, stamp: Stamp)
    requires op.Add? && Alone(op, db, stamp).0 != db
    ensures op.key !in db.keys
    ensures var amount := U64(op.change);
            var account :=
              if op.uid in db.accounts then
                var c := db.accounts[op.uid];
                Account(U64(c.total + amount), c.locked, c.version + 1)
              else Account(amount, 0, 1);
            Alone(op, db, stamp).0 ==
              Insert(db, account, Log(op.key, op.uid, S64(amount), account.total, Active, stamp.now), stamp.id)
  {}

  lemma AddMoves(total: int, locked: int, x: int)
    ensures U64(U64(total) + U64(x)) == U64(total + S64(U64(x))) && U64(U64(locked)) == U64(locked)
  {
    U64Adds(total, x);
    U64Adds(total, S64(U64(x)));
    U64Adds(x, 0);
    U64Adds(locked, 0);
  }

  lemma AddKeepsBooks(op: Op, db: Db, stamp: Stamp)
    requires op.Add? && Books(db) && stamp.id >= db.next
    ensures Books(Alone(op, db, stamp).0)
  {
    var after := Alone(op, db, stamp).0;
    if after != db {
      AddEffect(op, db, stamp);
      if op.uid in db.accounts { assert Balanced(db, op.uid); } else { NoLogsNoSums(db.logs, op.uid, db.next); }
      AddMoves(SumTotal(db.logs, op.uid, db.next), SumLocked(db.logs, op.uid, db.next), op.change);
      InsertKeepsBooks(db, after.accounts[op.uid], after.logs[stamp.id], stamp.id);
    }
  }

  /** The change a lock records is the negated amount, on 64 bits. */
  lemma LockedChange(x: int) returns (k: int)
    ensures S64(0 - S64(U64(x))) == -x + k * WORD
  {
    var a := U64(x);
    var b := S64(a);
    var c := S64(0 - b);
    U64Equal(a, x);
    U64Equal(b, a);
    U64Equal(c, 0 - b);
    k := (c + x) / WORD;
  }

  lemma LockMoves(total: int, locked: int, x: int)
    ensures var change := S64(0 - S64(U64(x)));
            && U64(U64(total) - U64(x)) == U64(total + change)
            && U64(U64(locked) + U64(x)) == U64(locked - change)
  {
    var k := LockedChange(x);
    U64Adds(total, x);
    U64Adds(locked, x);
    U64Shift(total - x, k);
    U64Shift(locked + x, -k);
  }

  lemma LockKeepsBooks(op: Op, db: Db, stamp: Stamp)
    requires op.Lock? && Books(db) && stamp.id >= db.next
    ensures Books(Alone(op, db, stamp).0)
  {
    var (after, answer) := Alone(op, db, stamp);
    if after != db {
      assert Balanced(db, op.uid);
      LockMoves(SumTotal(db.logs, op.uid, db.next), SumLocked(db.logs, op.uid, db.next), op.change);
      InsertKeepsBooks(db, after.accounts[op.uid], after.logs[stamp.id], stamp.id);
    }
  }

  /** A settlement that changes anything settles a locked log of the account. */
  lemma SettleEffect(op: Op, db: Db, stamp: Stamp)
    requires (op.Confirm? || op.Cancel?) && Alone(op, db, stamp).0 != db
    ensures op.uid in db.accounts && op.tid in db.logs
    ensures var c, log := db.accounts[op.uid], db.logs[op.tid];
            var account :=
              Account(U64(c.total + Released(op, log)), U64(c.locked - U64(0 - log.change)), c.version + 1);
            && log.uid == op.uid && log.status == Locked
            && Alone(op, db, stamp).0 == db.(accounts := db.accounts[op.uid := account],
                 logs := db.logs[op.tid := log.(status := if op.Cancel? then Inactive else Active)])
  {}

  lemma SettleMoves(total: int, locked: int, change: int)
    ensures U64(U64(total) + U64(0 - change)) == U64(total - change)
    ensures U64(U64(locked) - U64(0 - change)) == U64(locked + change)
    ensures U64(U64(total)) == U64(total)
  {
    U64Adds(total, 0 - change);
    U64Adds(locked, 0 - change);
    U64Adds(total, 0);
  }

  lemma SettleKeepsAllBooks(op: Op, db: Db, stamp: Stamp)
    requires (op.Confirm? || op.Cancel?) && Books(db)
    ensures Books(Alone(op, db, stamp).0)
  {
    var after := Alone(op, db, stamp).0;
    if after != db {
      SettleEffect(op, db, stamp);
      assert Balanced(db, op.uid);
      SettleMoves(SumTotal(db.logs, op.uid, db.next), SumLocked(db.logs, op.uid, db.next), db.logs[op.tid].change);
      SettleKeepsBooks(db, after.accounts[op.uid], after.logs[op.tid], op.tid);
    }
  }

  /** Every operation keeps the books, for every amount, however it wraps. */
  lemma AloneKeepsBooks(op: Op, db: Db, stamp: Stamp)
    requires Books(db) && stamp.id >= db.next
    ensures Books(Alone(op, db, stamp).0)
  {
    match op
    case Add(_, _, _) => AddKeepsBooks(op, db, stamp);
    case Lock(_, _, _) => LockKeepsBooks(op, db, stamp);
    case _ => SettleKeepsAllBooks(op, db, stamp);
  }
}
