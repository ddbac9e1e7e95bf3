/** Credit transactions that overlap: every run, whatever the interleaving, has the effect
  * of its committed operations one after the other, and keeps the books. */
module CreditRuns {
  import opened CreditLedger

  // ----- how the tables develop -----

  /** Account rows stay, their versions only grow, and a version names one state of the row. */
  predicate AccountsGrow(s: Db, db: Db) {
    forall u | u in s.accounts ::
      && u in db.accounts
      && s.accounts[u].version <= db.accounts[u].version
      && (s.accounts[u].version == db.accounts[u].version ==> s.accounts[u] == db.accounts[u])
  }

  /** A log stays, and only its status changes, once, away from Locked. */
  predicate LogDevelops(a: Log, b: Log) {
    a.(status := b.status) == b && (a.status != Locked ==> b == a)
  }

  predicate LogsGrow(s: Db, db: Db) {
    && s.next <= db.next
    && (forall id | id in s.logs :: id in db.logs && LogDevelops(s.logs[id], db.logs[id]))
    && (forall id | id in db.logs && id !in s.logs :: id >= s.next)
    && (forall k | k in s.keys :: k in db.keys && db.keys[k] == s.keys[k])
  }

  /** `db` is a later state of the tables than `s`. */
  predicate Later(s: Db, db: Db) {
    AccountsGrow(s, db) && LogsGrow(s, db)
  }

  lemma LaterTransitive(a: Db, b: Db, c: Db)
    requires Later(a, b) && Later(b, c)
    ensures Later(a, c)
  {}

  lemma AloneIsLater(op: Op, db: Db, stamp: Stamp)
    requires WellFormed(db) && stamp.id >= db.next
    ensures Later(db, Alone(op, db, stamp).0)
  {
    match op
    case Add(_, _, _) => AddIsLater(op, db, stamp);
    case Lock(_, _, _) => LockIsLater(op, db, stamp);
    case _ => SettleIsLater(op, db, stamp);
  }

  lemma AddIsLater(op: Op, db: Db, stamp: Stamp)
    requires op.Add? && WellFormed(db) && stamp.id >= db.next
    ensures Later(db, Alone(op, db, stamp).0)
  {}

  lemma LockIsLater(op: Op, db: Db, stamp: Stamp)
    requires op.Lock? && WellFormed(db) && stamp.id >= db.next
    ensures Later(db, Alone(op, db, stamp).0)
  {}

  lemma SettleIsLater(op: Op, db: Db, stamp: Stamp)
    requires op.Confirm? || op.Cancel?
    ensures Later(db, Alone(op, db, stamp).0)
  {
    if Alone(op, db, stamp).0 != db { SettleEffect(op, db, stamp); }
  }

  // ----- one transaction against a later state -----

  /** Optimism is sound: a transaction that changes anything does exactly what its operation
    * does alone on the current tables, and any other answer than a conflict is the answer
    * of the operation alone, on the current tables or on those it read. */
  lemma CommitIsSerial(op: Op, snap: Db, db: Db, stamp: Stamp)
    requires Later(snap, db)
    ensures var (after, answer) := Commit(op, snap, db, stamp);
            && (after != db ==> (after, answer) == Alone(op, db, stamp))
            && (after == db && answer != Conflict ==>
                  answer == Alone(op, db, stamp).1 || answer == Alone(op, snap, stamp).1)
  {
    match op
    case Add(_, _, _) => AddIsSerial(op, snap, db, stamp);
    case Lock(_, _, _) => LockIsSerial(op, snap, db, stamp);
    case _ => SettleIsSerial(op, snap, db, stamp);
  }

  lemma AddIsSerial(op: Op, snap: Db, db: Db, stamp: Stamp)
    requires op.Add? && Later(snap, db)
    ensures Commit(op, snap, db, stamp) == (db, Conflict) || Commit(op, snap, db, stamp) == Alone(op, db, stamp)
  {}

  lemma LockIsSerial(op: Op, snap: Db, db: Db, stamp: Stamp)
    requires op.Lock? && Later(snap, db)
    ensures var c := Commit(op, snap, db, stamp);
            || c == (db, Conflict) || c == Alone(op, db, stamp)
            || (c.0 == db && c.1 == Alone(op, snap, stamp).1)
  {}

  lemma SettleIsSerial(op: Op, snap: Db, db: Db, stamp: Stamp)
    requires (op.Confirm? || op.Cancel?) && Later(snap, db)
    ensures var c := Commit(op, snap, db, stamp);
            || c == (db, Conflict) || c == Alone(op, db, stamp)
            || (c.0 == db && c.1 == Alone(op, snap, stamp).1)
  {
    if op.tid in snap.logs { assert LogDevelops(snap.logs[op.tid], db.logs[op.tid]); }
  }

  /** Nobody in between, no conflict: a retry that is left alone gets through. */
  lemma NoConflictAlone(op: Op, db: Db, stamp: Stamp)
    ensures Alone(op, db, stamp).1 != Conflict
  {}

  // ----- runs -----

  datatype Tx = Tx(op: Op, snap: Db)

  /** The tables and the open transactions. */
  datatype Sys = Sys(db: Db, open: map<nat, Tx>)

  datatype Event = Begin(t: nat, op: Op) | Finish(t: nat, stamp: Stamp)

  /** Auto-increment never hands out an id twice. */
  predicate Possible(sys: Sys, e: Event) {
    e.Finish? ==> e.t in sys.open && e.stamp.id >= sys.db.next
  }

  function Step(sys: Sys, e: Event): Sys
    requires Possible(sys, e)
  {
    match e
    case Begin(t, op) => Sys(sys.db, sys.open[t := Tx(op, sys.db)])
    case Finish(t, stamp) =>
      var tx := sys.open[t];
      Sys(Commit(tx.op, tx.snap, sys.db, stamp).0, sys.open - {t})
  }

  ghost predicate IsRun(sys: Sys, events: seq<Event>)
    decreases |events|
  {
    events == [] || (Possible(sys, events[0]) && IsRun(Step(sys, events[0]), events[1..]))
  }

  ghost function Run(sys: Sys, events: seq<Event>): Sys
    requires IsRun(sys, events)
    decreases |events|
  {
    if events == [] then sys else Run(Step(sys, events[0]), events[1..])
  }

  /** Every open transaction read an earlier state of the tables. */
  ghost predicate Sound(sys: Sys) {
    Books(sys.db) && forall t | t in sys.open :: Later(sys.open[t].snap, sys.db)
  }

  lemma StepKeepsSound(sys: Sys, e: Event)
    requires Sound(sys) && Possible(sys, e)
    ensures Sound(Step(sys, e)) && Later(sys.db, Step(sys, e).db)
  {
    if e.Finish? {
      var tx := sys.open[e.t];
      CommitIsSerial(tx.op, tx.snap, sys.db, e.stamp);
      AloneKeepsBooks(tx.op, sys.db, e.stamp);
      AloneIsLater(tx.op, sys.db, e.stamp);
      var after := Step(sys, e);
      forall t | t in after.open ensures Later(after.open[t].snap, after.db) {
        LaterTransitive(sys.open[t].snap, sys.db, after.db);
      }
    }
  }

  /** The operations that changed the tables, in the order in which they committed. */
  ghost function Committed(sys: Sys, events: seq<Event>): seq<(Op, Stamp)>
    requires IsRun(sys, events)
    decreases |events|
  {
    if events == [] then []
    else
      var after := Step(sys, events[0]);
      var e := events[0];
      var first := if after.db != sys.db && e.Finish? then [(sys.open[e.t].op, e.stamp)] else [];
      first + Committed(after, events[1..])
  }

  ghost function Serially(db: Db, ops: seq<(Op, Stamp)>): Db
    decreases |ops|
  {
    if ops == [] then db else Serially(Alone(ops[0].0, db, ops[0].1).0, ops[1..])
  }

  /** The main result on overlapping transactions. */
  lemma {:induction false} RunsAreSerial(sys: Sys, events: seq<Event>)
    requires Sound(sys) && IsRun(sys, events)
    ensures Run(sys, events).db == Serially(sys.db, Committed(sys, events))
    ensures Sound(Run(sys, events)) && Later(sys.db, Run(sys, events).db)
    decreases |events|
  {
    if events != [] {
      var e := events[0];
      var after := Step(sys, e);
      StepKeepsSound(sys, e);
      RunsAreSerial(after, events[1..]);
      LaterTransitive(sys.db, after.db, Run(sys, events).db);
      if e.Finish? { CommitIsSerial(sys.open[e.t].op, sys.open[e.t].snap, sys.db, e.stamp); }
      var ops := Committed(after, events[1..]);
      if after.db != sys.db {
        var first := (sys.open[e.t].op, e.stamp);
        assert ([first] + ops)[0] == first && ([first] + ops)[1..] == ops;
      } else {
        assert [] + ops == ops;
      }
    }
  }

  /** Retrying is lock-free: a transaction that meets a conflict has been overtaken by another one
    * that changed the tables since it began. */
  lemma ConflictsAreCaused(sys: Sys, t: nat, op: Op, events: seq<Event>, stamp: Stamp)
    requires Sound(sys) && IsRun(Step(sys, Begin(t, op)), events)
    requires Commit(op, sys.db, Run(Step(sys, Begin(t, op)), events).db, stamp).1 == Conflict
    ensures Committed(Step(sys, Begin(t, op)), events) != []
  {
    var begun := Step(sys, Begin(t, op));
    StepKeepsSound(sys, Begin(t, op));
    RunsAreSerial(begun, events);
    if Committed(begun, events) == [] { NoConflictAlone(op, sys.db, stamp); }
  }

  /** A key is booked once: asking again changes nothing, at any later time. */
  lemma BookedOnce(op: Op, snap: Db, db: Db, stamp: Stamp)
    requires (op.Add? || op.Lock?) && op.key in db.keys
    ensures Commit(op, snap, db, stamp).0 == db
  {}

  /** A repeated lock answers with the id of the first one. */
  lemma RepeatedLock(op: Op, first: Db, stamp: Stamp, later: Db, again: Stamp)
    requires op.Lock? && WellFormed(first) && Alone(op, first, stamp).1 == Done(stamp.id) && op.key !in first.keys
    requires Later(Alone(op, first, stamp).0, later) && stamp.id >= first.next
    ensures Alone(op, later, again) == (later, Done(stamp.id))
  {
    var after := Alone(op, first, stamp).0;
    assert op.key in after.keys && after.keys[op.key] == stamp.id && op.uid in after.accounts;
  }

  /** A settled lock stays settled as it is: the opposite settlement is refused. */
  lemma SettledOnce(op: Op, db: Db, stamp: Stamp, later: Db, other: Op, again: Stamp)
    requires (op.Cancel? && other == Confirm(op.uid, op.tid)) || (op.Confirm? && other == Cancel(op.uid, op.tid))
    requires WellFormed(db) && op.tid in db.logs && db.logs[op.tid].uid == op.uid && db.logs[op.tid].status == Locked
    requires Later(Alone(op, db, stamp).0, later)
    ensures Alone(other, later, again) == (later, BadStatus(if op.Cancel? then Inactive else Active))
    ensures Alone(op, later, again) == (later, Done(op.tid))
  {
    var after := Alone(op, db, stamp).0;
    assert op.tid in after.logs && LogDevelops(after.logs[op.tid], later.logs[op.tid]);
    assert op.uid in after.accounts;
  }
}
