/** The job that reconciles payments that timed out. Failures of single payments are logged
  * and skipped, so nothing but the payments themselves ends it. */
module PaymentSweep {
  import opened Pages

  datatype Channel = Credit | Wechat | WechatJS

  /** The channels of each payment. */
  type Payments = map<int, seq<Channel>>

  datatype Call = CloseTimeoutPayment(id: int) | SyncWechatInfo(id: int)

  predicate ByWechat(c: Channel) {
    c.Wechat? || c.WechatJS?
  }

  /** One of the payment's records is paid by WeChat, in the app or in the browser. */
  predicate HasWechat(payments: Payments, id: int) {
    id in payments && (Wechat in payments[id] || WechatJS in payments[id])
  }

  lemma DispatchMeans(payments: Payments, id: int)
    ensures Dispatch(payments, id) == if HasWechat(payments, id) then SyncWechatInfo(id) else CloseTimeoutPayment(id)
  {
    if HasWechat(payments, id) { assert ByWechat(Wechat) && ByWechat(WechatJS); }
  }

  /** A payment with a WeChat record is synchronised, any other is closed. */
  function Dispatch(payments: Payments, id: int): Call {
    if id in payments && exists c :: c in payments[id] && ByWechat(c) then SyncWechatInfo(id)
    else CloseTimeoutPayment(id)
  }

  function DispatchAll(payments: Payments, page: seq<int>): seq<Call> {
    seq(|page|, i requires 0 <= i < |page| => Dispatch(payments, page[i]))
  }

  // ----- when the job ends -----

  /** One iteration: the payments that are open when the page is read, and the page. */
  datatype Round = Round(open: set<int>, page: seq<int>)

  /** The job goes on after this page. */
  predicate GoesOn(r: Round, limit: nat) {
    IsPage(r.page, r.open, limit) && |r.page| >= limit && limit < |r.open|
  }

  /** What may be open in the next iteration: stuck payments never leave; the others of the page
    * have left; any others may have been settled by somebody else. */
  predicate Follows(r: Round, next: Round, stuck: set<int>) {
    next.open <= r.open - (Members(r.page) - stuck)
  }

  /** Iterations of the job, none of which is its last. */
  ghost predicate Unfinished(rounds: seq<Round>, stuck: set<int>, limit: nat) {
    && (forall i | 0 <= i < |rounds| :: GoesOn(rounds[i], limit) && stuck <= rounds[i].open)
    && (forall i | 0 < i < |rounds| :: Follows(rounds[i - 1], rounds[i], stuck))
  }

  /** The same, from at most these open payments. */
  ghost predicate UnfinishedFrom(open: set<int>, rounds: seq<Round>, stuck: set<int>, limit: nat) {
    Unfinished(rounds, stuck, limit) && (rounds != [] ==> rounds[0].open <= open)
  }

  /** A full page that is not all stuck loses a payment. */
  lemma PageLoses(r: Round, next: Round, stuck: set<int>, limit: nat)
    requires GoesOn(r, limit) && Follows(r, next, stuck) && |stuck| < limit
    ensures |next.open| < |r.open|
  {
    DistinctMembers(r.page);
    if Members(r.page) <= stuck { SizeOfSubset(Members(r.page), stuck); }
    var x :| x in Members(r.page) && x !in stuck;
    assert x in r.open && x !in next.open;
    ProperSubsetIsSmaller(next.open, r.open);
  }

  lemma {:induction false} FewStuckEnds(rounds: seq<Round>, stuck: set<int>, limit: nat)
    requires Unfinished(rounds, stuck, limit) && |stuck| < limit && rounds != []
    ensures |rounds| + |rounds[|rounds| - 1].open| <= |rounds[0].open| + 1
  {
    var k := |rounds| - 1;
    if k > 0 {
      FewStuckEnds(rounds[..k], stuck, limit);
      PageLoses(rounds[k - 1], rounds[k], stuck, limit);
    }
  }

  lemma EndsInTime(rounds: seq<Round>, open: set<int>, stuck: set<int>, limit: nat)
    requires UnfinishedFrom(open, rounds, stuck, limit)
    ensures |stuck| < limit || |open| <= limit ==> |rounds| <= |open|
  {
    if rounds != [] {
      SizeOfSubset(rounds[0].open, open);
      if |stuck| < limit { FewStuckEnds(rounds, stuck, limit); }
    }
  }

  /** The pages that keep the job going: always the same stuck payments. */
  lemma StuckForever(open: set<int>, stuck: set<int>, limit: nat, n: nat) returns (rounds: seq<Round>)
    requires stuck <= open && limit <= |stuck| && limit < |open|
    ensures |rounds| == n && UnfinishedFrom(open, rounds, stuck, limit)
  {
    var page := APage(stuck, limit);
    SizeOfSubset(stuck, open);
    var r := Round(open, page);
    rounds := seq(n, _ => r);
    assert GoesOn(r, limit) && Follows(r, r, stuck);
  }

  /** If all payments but the stuck ones leave when they are handled, the job ends for every
    * choice of pages, within as many iterations as payments are open and one, exactly when
    * fewer than a page of them are stuck or one page holds all that are open. */
  lemma EndsExactlyWhen(open: set<int>, stuck: set<int>, limit: nat)
    requires limit >= 1 && stuck <= open
    ensures (forall rounds | UnfinishedFrom(open, rounds, stuck, limit) :: |rounds| <= |open|) <==>
            |stuck| < limit || |open| <= limit
  {
    if |stuck| < limit || |open| <= limit {
      forall rounds | UnfinishedFrom(open, rounds, stuck, limit) ensures |rounds| <= |open| {
        EndsInTime(rounds, open, stuck, limit);
      }
    } else {
      var rounds := StuckForever(open, stuck, limit, |open| + 1);
      assert UnfinishedFrom(open, rounds, stuck, limit) && |rounds| > |open|;
    }
  }

  /** While the job goes on and only stuck payments survive their calls. */
  ghost predicate Goes(rounds: seq<Round>, open: set<int>, stuck: set<int>, survived: set<int>, limit: nat) {
    survived <= stuck ==>
      && Unfinished(rounds, stuck, limit)
      && (rounds != [] ==> Follows(rounds[|rounds| - 1], Round(open, []), stuck))
  }

  lemma OneMoreRound(rounds: seq<Round>, r: Round, now: set<int>, stuck: set<int>, before: set<int>, after: set<int>,
                     limit: nat)
    requires Goes(rounds, r.open, stuck, before, limit) && GoesOn(r, limit) && stuck <= r.open
    requires now <= r.open && before <= after && Members(r.page) * now <= after
    ensures Goes(rounds + [r], now, stuck, after, limit)
  {
    assert (rounds + [r])[..|rounds|] == rounds;
  }

  lemma DispatchJoin(payments: Payments, p: seq<int>, q: seq<int>)
    ensures DispatchAll(payments, p + q) == DispatchAll(payments, p) + DispatchAll(payments, q)
  {}

  lemma DispatchNext(payments: Payments, page: seq<int>, i: nat)
    requires i < |page|
    ensures page[..i + 1] == page[..i] + [page[i]]
    ensures DispatchAll(payments, page[..i + 1]) == DispatchAll(payments, page[..i]) + [Dispatch(payments, page[i])]
  {}

  // ----- the code -----

  class PaymentStore {
    const payments: Payments
    const stuck: set<int>         // the payments that never leave, whatever is tried
    var open: set<int>            // the timed-out payments that are not settled
    ghost var calls: seq<Call>
    ghost var survived: set<int>  // the payments that a call has left open

    constructor (payments: Payments, stuck: set<int>, open: set<int>)
      ensures this.payments == payments && this.stuck == stuck && this.open == open
      ensures calls == [] && survived == {}
    {
      this.payments, this.stuck, this.open, this.calls, this.survived := payments, stuck, open, [], {};
    }

    /** Any payments but the stuck ones may be settled at any time. */
    method LetOthersIn()
      requires stuck <= open
      modifies this`open
      ensures stuck <= open <= old(open)
    {
      var left: set<int> := *;
      open := open * (left + stuck);
    }

    method FindTimeoutPayments(limit: nat) returns (ok: bool, page: seq<int>, total: nat)
      requires stuck <= open
      modifies this`open
      ensures stuck <= open <= old(open)
      ensures ok ==> IsPage(page, open, limit) && total == |open|
    {
      LetOthersIn();
      ok := *;
      page := FirstPage(open, limit);
      total := |open|;
    }

    /** One call: whatever it answers is only logged. */
    method Handle(call: Call)
      requires stuck <= open
      modifies this
      ensures stuck <= open <= old(open) && calls == old(calls) + [call]
      ensures survived == old(survived) + ({call.id} * open)
    {
      calls := calls + [call];
      LetOthersIn();
      survived := survived + ({call.id} * open);
    }
  }

  class SyncWechatOrderJob {
    const store: PaymentStore
    const limit: nat

    constructor (store: PaymentStore, limit: nat)
      ensures this.store == store && this.limit == limit
    {
      this.store, this.limit := store, limit;
    }

    method HandlePage(page: seq<int>)
      requires store.stuck <= store.open
      modifies store
      ensures store.stuck <= store.open <= old(store.open)
      ensures store.calls == old(store.calls) + DispatchAll(store.payments, page)
      ensures forall i | 0 <= i < |page| ::
                store.calls[|old(store.calls)| + i] ==
                if HasWechat(store.payments, page[i]) then SyncWechatInfo(page[i]) else CloseTimeoutPayment(page[i])
      ensures old(store.survived) <= store.survived && Members(page) * store.open <= store.survived
    {
      for i := 0 to |page|
        invariant store.stuck <= store.open <= old(store.open)
        invariant store.calls == old(store.calls) + DispatchAll(store.payments, page[..i])
        invariant old(store.survived) <= store.survived && Members(page[..i]) * store.open <= store.survived
      {
        store.Handle(Dispatch(store.payments, page[i]));
        DispatchNext(store.payments, page, i);
      }
      assert page[..|page|] == page;
      forall i | 0 <= i < |page|
        ensures DispatchAll(store.payments, page)[i] ==
                if HasWechat(store.payments, page[i]) then SyncWechatInfo(page[i]) else CloseTimeoutPayment(page[i])
      {
        DispatchMeans(store.payments, page[i]);
      }
    }

    /** Watches the job for `n` iterations: what was handled in all and by the last page, and the
      * iterations after which it went on. */
    method Run(n: nat)
      returns (finished: bool, failed: bool, ghost handled: seq<int>, ghost last: seq<int>, ghost rounds: seq<Round>)
      requires limit >= 1 && store.stuck <= store.open
      modifies store
      ensures store.stuck <= store.open <= old(store.open) && !(finished && failed)
      ensures store.calls == old(store.calls) + DispatchAll(store.payments, handled)
      ensures finished ==> store.open <= Members(last) && exists earlier :: handled == earlier + last
      ensures |store.stuck| > limit ==> !finished
      ensures !finished && !failed ==> |rounds| == n
      ensures store.survived <= store.stuck ==> UnfinishedFrom(old(store.open), rounds, store.stuck, limit)
      ensures store.survived <= store.stuck && (|store.stuck| < limit || old(|store.open|) <= limit) ==>
                finished || failed || n <= old(|store.open|)
    {
      finished, failed, handled, last, rounds := false, false, [], [], [];
      for k := 0 to n
        invariant |rounds| == k && !finished && !failed
        invariant store.stuck <= store.open <= old(store.open)
        invariant store.calls == old(store.calls) + DispatchAll(store.payments, handled)
        invariant Goes(rounds, store.open, store.stuck, store.survived, limit)
        invariant rounds != [] ==> rounds[0].open <= old(store.open)
      {
        var ok, page, total := store.FindTimeoutPayments(limit);
        if !ok { failed := true; return; }
        ghost var atRead, before := store.open, store.survived;
        HandlePage(page);
        DispatchJoin(store.payments, handled, page);
        handled, last := handled + page, page;
        if |page| < limit || limit >= total {
          LastPageIsAll(page, atRead, limit);
          SizeOfSubset(store.stuck, atRead);
          finished := true;
          return;
        }
        OneMoreRound(rounds, Round(atRead, page), store.open, store.stuck, before, store.survived, limit);
        rounds := rounds + [Round(atRead, page)];
      }
      if store.survived <= store.stuck { EndsInTime(rounds, old(store.open), store.stuck, limit); }
    }
  }
}
