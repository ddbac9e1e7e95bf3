/** The job that closes orders nobody paid in time, among the other order operations. */
module OrderSweep {
  import opened Pages

  datatype Status = Init | Processing | Success | Failed | Canceled | TimeoutClosed

  /** status <= StatusProcessing */
  predicate Pending(s: Status) {
    s.Init? || s.Processing?
  }

  datatype Order = Order(sn: string, buyer: int, status: Status, ctime: int)

  type Table = map<int, Order>

  /** Everything the order tables are asked to do. */
  datatype OrderOp =
    | Create(id: int, sn: string, buyer: int, now: int)
    | PaymentInfo(uid: int, oid: int)
    | CancelOrder(uid: int, oid: int)
    | SetStatus(uid: int, sn: string, paid: bool)
    | Close(ids: set<int>, cutoff: int)

  /** The status an operation gives to an order, if the operation's condition holds of it. */
  function NewStatus(op: OrderOp, id: int, o: Order): Status {
    match op
    case Create(_, _, _, _) => o.status
    case PaymentInfo(uid, oid) => if o.buyer == uid && id == oid && o.status == Init then Processing else o.status
    case CancelOrder(uid, oid) => if o.buyer == uid && id == oid && o.status == Processing then Canceled else o.status
    case SetStatus(uid, sn, paid) =>
      if o.buyer == uid && o.sn == sn then (if paid then Success else Failed) else o.status
    case Close(ids, cutoff) =>
      if Pending(o.status) && o.ctime <= cutoff && id in ids then TimeoutClosed else o.status
  }

  function Apply(t: Table, op: OrderOp): Table {
    var updated := map id | id in t :: t[id].(status := NewStatus(op, id, t[id]));
    if op.Create? && op.id !in t then updated[op.id := Order(op.sn, op.buyer, Init, op.now)] else updated
  }

  function ApplyAll(t: Table, ops: seq<OrderOp>): Table {
    if ops == [] then t else Apply(ApplyAll(t, ops[..|ops| - 1]), ops[|ops| - 1])
  }

  /** Orders created from now on are newer than the cutoff, which lies in the past. */
  predicate After(ops: seq<OrderOp>, cutoff: int) {
    forall op | op in ops :: op.Create? ==> op.now > cutoff
  }

  function Overdue(t: Table, cutoff: int): set<int> {
    set id | id in t && Pending(t[id].status) && t[id].ctime <= cutoff
  }

  /** No operation makes a settled order pending again. */
  lemma SettledStays(t: Table, op: OrderOp, id: int)
    requires id in t && !Pending(t[id].status)
    ensures id in Apply(t, op) && !Pending(Apply(t, op)[id].status)
  {}

  /** Under every sequence of operations overdue orders only go away. */
  lemma {:induction false} OverdueShrinks(t: Table, ops: seq<OrderOp>, cutoff: int)
    requires After(ops, cutoff)
    ensures Overdue(ApplyAll(t, ops), cutoff) <= Overdue(t, cutoff)
  {
    if ops != [] {
      var k := |ops| - 1;
      OverdueShrinks(t, ops[..k], cutoff);
      var before, after := ApplyAll(t, ops[..k]), ApplyAll(t, ops);
      assert ops[k] in ops;
      forall id | id in Overdue(after, cutoff) ensures id in Overdue(before, cutoff) {}
    }
  }

  /** What a sweep amounts to when nobody else is around. */
  function CloseOverdue(t: Table, cutoff: int): Table {
    map id | id in t :: if id in Overdue(t, cutoff) then t[id].(status := TimeoutClosed) else t[id]
  }

  /** No order that is new or being paid is as old as the cutoff. */
  predicate NoneOpen(t: Table, cutoff: int) {
    forall id | id in t && (t[id].status == Init || t[id].status == Processing) :: t[id].ctime > cutoff
  }

  lemma NothingOverdue(t: Table, cutoff: int)
    ensures Overdue(t, cutoff) == {} <==> NoneOpen(t, cutoff)
  {
    if Overdue(t, cutoff) == {} {
      forall id | id in t && (t[id].status == Init || t[id].status == Processing) ensures t[id].ctime > cutoff {
        assert id !in Overdue(t, cutoff);
      }
    } else {
      assert (forall id :: id !in Overdue(t, cutoff)) ==> Overdue(t, cutoff) == {};
    }
  }

  /** The old new and unpaid orders are timed out; every other order is as it was. */
  predicate TimedOut(before: Table, after: Table, cutoff: int) {
    && after.Keys == before.Keys
    && forall id | id in before ::
      var o := before[id];
      after[id] ==
      if (o.status == Init || o.status == Processing) && o.ctime <= cutoff then o.(status := TimeoutClosed) else o
  }

  lemma TimeoutMeans(t: Table, cutoff: int)
    ensures TimedOut(t, CloseOverdue(t, cutoff), cutoff)
  {}

  /** How the status of an order may change, and by what. */
  predicate Changes(op: OrderOp, id: int, o: Order, to: Status) {
    || (op == PaymentInfo(o.buyer, id) && o.status == Init && to == Processing)
    || (op == CancelOrder(o.buyer, id) && o.status == Processing && to == Canceled)
    || (op == SetStatus(o.buyer, o.sn, true) && to == Success)
    || (op == SetStatus(o.buyer, o.sn, false) && to == Failed)
    || (op.Close? && id in op.ids && o.ctime <= op.cutoff && (o.status == Init || o.status == Processing)
        && to == TimeoutClosed)
  }

  /** An operation gives an order this status exactly if it may; nothing else of an order changes,
    * and no order goes away. */
  lemma WhatOperationsDo(t: Table, op: OrderOp, id: int)
    requires id in t
    ensures id in Apply(t, op) && Apply(t, op)[id].(status := t[id].status) == t[id]
    ensures forall to | to != t[id].status :: Apply(t, op)[id].status == to <==> Changes(op, id, t[id], to)
  {}

  /** Creating an order adds it, new and unpaid, under its id; nothing else adds or drops one. */
  lemma WhatIsCreated(t: Table, op: OrderOp)
    ensures Apply(t, op).Keys == t.Keys + if op.Create? then {op.id} else {}
    ensures op.Create? && op.id !in t ==> Apply(t, op)[op.id] == Order(op.sn, op.buyer, Init, op.now)
  {}

  class OrderStore {
    var table: Table
    const quiet: bool   // nobody else works on the table

    constructor (table: Table, quiet: bool)
      ensures this.table == table && this.quiet == quiet
    {
      this.table, this.quiet := table, quiet;
    }

    method LetOthersIn(cutoff: int)
      modifies this
      ensures Overdue(table, cutoff) <= old(Overdue(table, cutoff))
      ensures quiet ==> table == old(table)
    {
      var ops: seq<OrderOp> := *;
      if !quiet && After(ops, cutoff) {
        OverdueShrinks(table, ops, cutoff);
        table := ApplyAll(table, ops);
      }
    }

    method FindTimeoutOrders(limit: nat, cutoff: int) returns (ok: bool, page: seq<int>, total: nat)
      modifies this
      ensures Overdue(table, cutoff) <= old(Overdue(table, cutoff))
      ensures quiet ==> table == old(table)
      ensures ok ==> IsPage(page, Overdue(table, cutoff), limit) && total == |Overdue(table, cutoff)|
    {
      LetOthersIn(cutoff);
      ok := *;
      page := FirstPage(Overdue(table, cutoff), limit);
      total := |Overdue(table, cutoff)|;
    }

    method CloseTimeoutOrders(ids: set<int>, cutoff: int) returns (ok: bool)
      modifies this
      ensures Overdue(table, cutoff) <= old(Overdue(table, cutoff))
      ensures ok ==> Overdue(table, cutoff) !! ids
      ensures quiet ==> table == if ok then Apply(old(table), Close(ids, cutoff)) else old(table)
    {
      LetOthersIn(cutoff);
      ok := *;
      if ok {
        assert ApplyAll(table, [Close(ids, cutoff)]) == Apply(table, Close(ids, cutoff));
        OverdueShrinks(table, [Close(ids, cutoff)], cutoff);
        table := Apply(table, Close(ids, cutoff));
      }
    }
  }

  class CloseTimeoutOrdersJob {
    const store: OrderStore
    const limit: nat

    constructor (store: OrderStore, limit: nat)
      ensures this.store == store && this.limit == limit
    {
      this.store, this.limit := store, limit;
    }

    /** `ok` is the nil return; `closed` are the orders of all pages that were closed, in order. */
    method Run(cutoff: int) returns (ok: bool, ghost closed: seq<int>)
      requires limit >= 1
      modifies store
      ensures ok ==> Overdue(store.table, cutoff) == {} && NoneOpen(store.table, cutoff)
      ensures Distinct(closed) && Members(closed) <= old(Overdue(store.table, cutoff))
      ensures store.quiet ==> store.table == Apply(old(store.table), Close(Members(closed), cutoff))
      ensures store.quiet && ok ==> store.table == CloseOverdue(old(store.table), cutoff)
      ensures store.quiet && ok ==> TimedOut(old(store.table), store.table, cutoff)
    {
      ghost var start := store.table;
      closed := [];
      CloseNothing(start, cutoff);
      while true
        invariant Sweeping(start, store.table, closed, store.quiet, cutoff)
        decreases |Overdue(store.table, cutoff)|
      {
        ghost var before := store.table;
        var found, page, total := store.FindTimeoutOrders(limit, cutoff);
        if !found { return false, closed; }
        ghost var atRead := store.table;
        var done := store.CloseTimeoutOrders(Members(page), cutoff);
        if !done { return false, closed; }
        AfterPage(start, atRead, store.table, closed, page, store.quiet, limit, cutoff);
        closed := closed + page;
        if |page| < limit || limit >= total {
          LastPageIsAll(page, Overdue(atRead, cutoff), limit);
          ClosedAll(start, store.table, closed, store.quiet, cutoff);
          NothingOverdue(store.table, cutoff);
          TimeoutMeans(start, cutoff);
          return true, closed;
        }
        assert page[0] in Members(page);
        SizeOfSubset(Overdue(store.table, cutoff), Overdue(before, cutoff) - {page[0]});
      }
    }
  }

  /** Between two pages: every order closed so far was overdue at the start and is not any
    * more, and was closed once. */
  ghost predicate Sweeping(start: Table, now: Table, closed: seq<int>, quiet: bool, cutoff: int) {
    && Distinct(closed) && Members(closed) <= Overdue(start, cutoff)
    && Overdue(now, cutoff) <= Overdue(start, cutoff) - Members(closed)
    && (quiet ==> now == Apply(start, Close(Members(closed), cutoff)))
  }

  lemma CloseNothing(t: Table, cutoff: int)
    ensures Apply(t, Close(Members([]), cutoff)) == t
  {}

  lemma CloseTwice(t: Table, a: set<int>, b: set<int>, cutoff: int)
    ensures Apply(Apply(t, Close(a, cutoff)), Close(b, cutoff)) == Apply(t, Close(a + b, cutoff))
  {}

  lemma AfterPage(start: Table, atRead: Table, now: Table, closed: seq<int>, page: seq<int>, quiet: bool, limit: nat,
                  cutoff: int)
    requires Sweeping(start, atRead, closed, quiet, cutoff) && IsPage(page, Overdue(atRead, cutoff), limit)
    requires Overdue(now, cutoff) <= Overdue(atRead, cutoff) - Members(page)
    requires quiet ==> now == Apply(atRead, Close(Members(page), cutoff))
    ensures Sweeping(start, now, closed + page, quiet, cutoff)
  {
    DistinctAppend(closed, page);
    MembersAppend(closed, page);
    CloseTwice(start, Members(closed), Members(page), cutoff);
  }

  lemma ClosedAll(start: Table, now: Table, closed: seq<int>, quiet: bool, cutoff: int)
    requires Sweeping(start, now, closed, quiet, cutoff) && Overdue(now, cutoff) == {}
    ensures quiet ==> now == CloseOverdue(start, cutoff)
  {
    if quiet {
      forall id | id in start ensures now[id] == CloseOverdue(start, cutoff)[id] {
        assert id in Overdue(start, cutoff) && id !in Members(closed) ==> id in Overdue(now, cutoff);
      }
    }
  }
}
