/** The bulk client of the knowledge base: batching, bounded retry and the
  * classification of every answer, run against a remote store that may land any
  * part of a batch before an attempt fails. */
module BulkSync {
  import opened Wrappers
  import opened KnowledgeStore

  datatype Kind = Upsert | Delete

  datatype ItemResult = ItemResult(result: string, status: int, reason: Option<string>)

  datatype BulkResponse = BulkResponse(errors: bool, items: seq<map<string, ItemResult>>)

  /** What one HTTP exchange yields: no answer, or a status with a body that may not parse. */
  datatype Reply = NoAnswer | Answer(status: int, body: Option<BulkResponse>)

  datatype Error =
    | ClientError
    | ServerError
    | ItemsFailed(failed: nat, total: nat, first: string)   // also a server error
    | NetworkError
    | Cancelled
    | NoStrategy
    | Exhausted(last: Error)
    | BatchFailed(lo: nat, hi: nat, cause: Error)

  /** The errors after which the client asks the retry strategy for another go. */
  predicate Retryable(e: Error) {
    e.ServerError? || e.ItemsFailed? || e.NetworkError?
  }

  function Key(kind: Kind): string {
    if kind.Upsert? then "index" else "delete"
  }

  /** An outcome that is a failure. Deleting what is not there is none. */
  predicate FailedOutcome(kind: Kind, item: map<string, ItemResult>) {
    if kind.Upsert? then "index" in item && !(200 <= item["index"].status <= 299)
    else "delete" in item && item["delete"].result != "not_found" && !(200 <= item["delete"].status <= 299)
  }

  // ----- the three kinds of replies -----

  /** Everything was done. */
  predicate Clean(kind: Kind, r: Reply) {
    && r.Answer? && r.status == 200 && r.body.Some?
    && forall k | 0 <= k < |r.body.value.items| :: !FailedOutcome(kind, r.body.value.items[k])
  }

  /** The request itself is refused. */
  predicate Outright(r: Reply) {
    r.Answer? && 400 <= r.status <= 499
  }

  /** Something went wrong that may go right another time. */
  predicate Setback(kind: Kind, r: Reply) {
    || r.NoAnswer?
    || (r.status != 200 && !(400 <= r.status <= 499))
    || (r.status == 200 && r.body.None?)
    || (r.status == 200 && exists k :: 0 <= k < |r.body.value.items| && FailedOutcome(kind, r.body.value.items[k]))
  }

  lemma EveryReplyIsOneOfThree(kind: Kind, r: Reply)
    ensures Clean(kind, r) || Outright(r) || Setback(kind, r)
    ensures !(Clean(kind, r) && Outright(r)) && !(Clean(kind, r) && Setback(kind, r))
    ensures !(Outright(r) && Setback(kind, r))
  {}

  // ----- counting failures -----

  /** How many reported outcomes are failures. */
  function FailureCount(kind: Kind, items: seq<map<string, ItemResult>>): (n: nat)
  {
    if items == [] then 0
    else FailureCount(kind, items[..|items| - 1]) + (if FailedOutcome(kind, items[|items| - 1]) then 1 else 0)
  }

  /** The first reason, in report order, that a failed outcome gives. */
  function FirstReason(kind: Kind, items: seq<map<string, ItemResult>>): string {
    if items == [] then ""
    else
      var n := |items| - 1;
      var earlier := FirstReason(kind, items[..n]);
      if earlier == "" && FailedOutcome(kind, items[n]) && items[n][Key(kind)].reason.Some?
      then items[n][Key(kind)].reason.value else earlier
  }

  lemma {:induction false} NoFailures(kind: Kind, items: seq<map<string, ItemResult>>)
    ensures FailureCount(kind, items) == 0 <==> forall k: nat | k < |items| :: !FailedOutcome(kind, items[k])
  {
    if items != [] {
      var n := |items| - 1;
      NoFailures(kind, items[..n]);
      assert forall k: nat | k < n :: items[..n][k] == items[k];
    }
  }

  lemma {:induction false} FailuresCounted(kind: Kind, items: seq<map<string, ItemResult>>)
    ensures FailureCount(kind, items) == |set k: nat | k < |items| && FailedOutcome(kind, items[k])|
  {
    if items != [] {
      var n := |items| - 1;
      FailuresCounted(kind, items[..n]);
      var before := set k: nat | k < n && FailedOutcome(kind, items[..n][k]);
      var now := set k: nat | k < |items| && FailedOutcome(kind, items[k]);
      assert n !in before && now == before + if FailedOutcome(kind, items[n]) then {n} else {};
    }
  }

  predicate GivesReason(kind: Kind, item: map<string, ItemResult>, reason: string) {
    FailedOutcome(kind, item) && Key(kind) in item && item[Key(kind)].reason == Some(reason)
  }

  /** The reason that is reported is the first that is not empty. */
  lemma {:induction false} FirstReasonMeans(kind: Kind, items: seq<map<string, ItemResult>>)
    ensures var reason := FirstReason(kind, items);
            if reason == "" then forall k, r: string | 0 <= k < |items| && GivesReason(kind, items[k], r) :: r == ""
            else exists k | 0 <= k < |items| ::
              GivesReason(kind, items[k], reason) &&
              forall j, r: string | 0 <= j < k && GivesReason(kind, items[j], r) :: r == ""
  {
    if items != [] {
      var n := |items| - 1;
      FirstReasonMeans(kind, items[..n]);
      assert forall k | 0 <= k < n :: items[..n][k] == items[k];
    }
  }

  /** Item k has its effect: landing it again would change nothing. */
  predicate Settled(s: Store, batch: seq<Item>, keep: seq<bool>, k: nat)
    requires |keep| == |batch| && k < |batch|
  {
    ApplySome(s, batch[..k + 1], keep[..k + 1]) == Apply(ApplySome(s, batch[..k], keep[..k]), batch[k])
  }

  lemma {:induction false} AllSettled(s: Store, batch: seq<Item>, keep: seq<bool>)
    requires |keep| == |batch|
    requires forall k: nat | k < |batch| :: Settled(s, batch, keep, k)
    ensures ApplySome(s, batch, keep) == ApplyAll(s, batch)
  {
    if batch != [] {
      var n := |batch| - 1;
      assert batch[..n + 1] == batch && keep[..n + 1] == keep && Settled(s, batch, keep, n);
      forall k: nat | k < n
        ensures Settled(s, batch[..n], keep[..n], k)
      {
        assert Settled(s, batch, keep, k);
        assert batch[..n][..k + 1] == batch[..k + 1] && keep[..n][..k + 1] == keep[..k + 1];
        assert batch[..n][..k] == batch[..k] && keep[..n][..k] == keep[..k];
      }
      AllSettled(s, batch[..n], keep[..n]);
    }
  }

  /** The server's side of the contract for a parsed 200 answer: one outcome per item,
    * under the key of the operation; an outcome that is no failure tells the truth
    * about its item; and `errors` is set whenever some outcome is a failure. */
  predicate Honest(kind: Kind, s: Store, batch: seq<Item>, keep: seq<bool>, r: BulkResponse)
    requires |keep| == |batch|
  {
    && |r.items| == |batch|
    && (forall k: nat | k < |batch| :: Key(kind) in r.items[k])
    && (forall k: nat | k < |batch| :: !FailedOutcome(kind, r.items[k]) ==> Settled(s, batch, keep, k))
    && ((exists k: nat | k < |batch| :: FailedOutcome(kind, r.items[k])) ==> r.errors)
  }

  predicate HonestReply(kind: Kind, s: Store, batch: seq<Item>, keep: seq<bool>, reply: Reply)
    requires |keep| == |batch|
  {
    reply.Answer? && reply.status == 200 && reply.body.Some? ==> Honest(kind, s, batch, keep, reply.body.value)
  }

  /** The remote side. It is adversarial: which items land and what is answered is
    * any choice that keeps to `HonestReply`. */
  class Remote {
    var store: Store
    var requests: nat
    ghost var answers: seq<Reply>   // all replies, in order

    constructor (s: Store)
      ensures store == s && requests == 0 && answers == []
    {
      store, requests, answers := s, 0, [];
    }

    method Bulk(kind: Kind, batch: seq<Item>) returns (reply: Reply, ghost keep: seq<bool>)
      modifies this
      ensures requests == old(requests) + 1
      ensures |keep| == |batch| && store == ApplySome(old(store), batch, keep)
      ensures HonestReply(kind, old(store), batch, keep, reply) && answers == old(answers) + [reply]
    {
      var landed: seq<bool> := *;
      if |landed| != |batch| { landed := seq(|batch|, _ => false); }
      keep := landed;
      var before := store;
      store, requests := ApplySome(store, batch, landed), requests + 1;
      reply := *;
      if !HonestReply(kind, before, batch, landed, reply) { reply := NoAnswer; }
      answers := answers + [reply];
    }
  }

  /** One attempt: the reply, if a request was sent at all, and what the client makes of it. */
  datatype Attempt = Attempt(reply: Option<Reply>, verdict: Option<Error>)

  /** The verdict on a reply: none on a clean one, a client error on an outright refusal or if
    * nothing could be sent, an error to be retried on a setback. */
  predicate Judged(kind: Kind, a: Attempt) {
    match a.reply
    case None => a.verdict == Some(ClientError)
    case Some(r) =>
      && (a.verdict == None <==> Clean(kind, r))
      && (a.verdict == Some(ClientError) <==> Outright(r))
      && (a.verdict.Some? && Retryable(a.verdict.value) <==> Setback(kind, r))
  }

  predicate MetSetback(kind: Kind, a: Attempt) {
    a.reply.Some? && Setback(kind, a.reply.value)
  }

  /** All that was tried for one batch, in order. */
  datatype BatchRun = BatchRun(batch: seq<Item>, attempts: seq<Attempt>)

  /** At most `1 + maxRetries` attempts, all judged, and all but the last met a setback. */
  ghost predicate GoodRun(kind: Kind, run: BatchRun, maxRetries: nat) {
    && |run.attempts| <= 1 + maxRetries
    && (forall k | 0 <= k < |run.attempts| :: Judged(kind, run.attempts[k]))
    && (forall k | 0 <= k < |run.attempts| - 1 :: MetSetback(kind, run.attempts[k]))
  }

  /** A run that ended with a clean reply. */
  ghost predicate Succeeded(kind: Kind, run: BatchRun) {
    && run.attempts != []
    && var last := run.attempts[|run.attempts| - 1]; last.reply.Some? && Clean(kind, last.reply.value)
  }

  /** Why a batch was given up: before or between attempts, because the request could not be sent
    * or was refused outright, or with the whole budget spent on setbacks. */
  ghost predicate GaveUp(kind: Kind, e: Error, run: BatchRun, maxRetries: nat) {
    var n := |run.attempts|;
    match e
    case NoStrategy => n == 0
    case Cancelled => forall k | 0 <= k < n :: MetSetback(kind, run.attempts[k])
    case ClientError => n > 0 && (run.attempts[n - 1].reply.None? || Outright(run.attempts[n - 1].reply.value))
    case Exhausted(last) =>
      n == 1 + maxRetries && MetSetback(kind, run.attempts[n - 1]) && run.attempts[n - 1].verdict == Some(last)
    case _ => false
  }

  // ----- when a batch gets through -----

  /** The requests of the run met the first of these replies. */
  ghost predicate Met(run: BatchRun, script: seq<Reply>) {
    |run.attempts| <= |script| && forall k | 0 <= k < |run.attempts| :: run.attempts[k].reply == Some(script[k])
  }

  /** Among the replies that the budget allows for, a clean one comes before any refusal. */
  ghost predicate Promising(kind: Kind, script: seq<Reply>, maxRetries: nat) {
    exists k :: 0 <= k < |script| && k <= maxRetries && Clean(kind, script[k]) &&
                forall j | 0 <= j < k :: !Outright(script[j])
  }

  /** Whatever replies would have come: given up without being cancelled, there was no promise. */
  ghost predicate Hopeless(kind: Kind, e: Error, run: BatchRun, maxRetries: nat) {
    e == Cancelled || e == NoStrategy || forall script | Met(run, script) :: !Promising(kind, script, maxRetries)
  }

  lemma GaveUpIsHopeless(kind: Kind, e: Error, run: BatchRun, maxRetries: nat)
    requires GoodRun(kind, run, maxRetries) && GaveUp(kind, e, run, maxRetries)
    ensures Hopeless(kind, e, run, maxRetries)
  {
    if e != Cancelled && e != NoStrategy {
      forall script | Met(run, script) ensures !Promising(kind, script, maxRetries) {
        forall k | 0 <= k < |script| && k <= maxRetries && Clean(kind, script[k])
          ensures exists j :: 0 <= j < k && Outright(script[j])
        {
          var n := |run.attempts|;
          assert run.attempts[n - 1].reply == Some(script[n - 1]);
          assert MetSetback(kind, Attempt(Some(script[k]), None)) ==> false;
        }
      }
    }
  }

  ghost function Batches(runs: seq<BatchRun>): seq<Item> {
    if runs == [] then [] else Batches(runs[..|runs| - 1]) + runs[|runs| - 1].batch
  }

  ghost predicate AllSucceeded(kind: Kind, runs: seq<BatchRun>) {
    forall k | 0 <= k < |runs| :: Succeeded(kind, runs[k])
  }

  /** Every batch kept to its budget, and every batch but possibly the last succeeded. */
  ghost predicate GoodHistory(kind: Kind, runs: seq<BatchRun>, maxRetries: nat) {
    && (forall k | 0 <= k < |runs| :: GoodRun(kind, runs[k], maxRetries))
    && (runs != [] ==> AllSucceeded(kind, runs[..|runs| - 1]))
  }

  /** The replies that the attempts met. */
  ghost function Replies(attempts: seq<Attempt>): seq<Reply> {
    if attempts == [] then []
    else
      var k := |attempts| - 1;
      Replies(attempts[..k]) + if attempts[k].reply.Some? then [attempts[k].reply.value] else []
  }

  ghost function AllReplies(runs: seq<BatchRun>): seq<Reply> {
    if runs == [] then [] else AllReplies(runs[..|runs| - 1]) + Replies(runs[|runs| - 1].attempts)
  }

  lemma RepliesNext(attempts: seq<Attempt>, a: Attempt)
    ensures Replies(attempts + [a]) == Replies(attempts) + Replies([a])
  {
    assert (attempts + [a])[..|attempts|] == attempts && [a][..0] == [];
  }

  ghost function Attempts(runs: seq<BatchRun>): nat {
    if runs == [] then 0 else Attempts(runs[..|runs| - 1]) + |runs[|runs| - 1].attempts|
  }

  lemma AppendRun(kind: Kind, runs: seq<BatchRun>, run: BatchRun, maxRetries: nat)
    requires GoodHistory(kind, runs, maxRetries) && AllSucceeded(kind, runs) && GoodRun(kind, run, maxRetries)
    ensures GoodHistory(kind, runs + [run], maxRetries)
    ensures Succeeded(kind, run) ==> AllSucceeded(kind, runs + [run])
    ensures Batches(runs + [run]) == Batches(runs) + run.batch
    ensures Attempts(runs + [run]) == Attempts(runs) + |run.attempts|
    ensures AllReplies(runs + [run]) == AllReplies(runs) + Replies(run.attempts)
  {
    assert (runs + [run])[..|runs + [run]| - 1] == runs;
  }

  /** After some batches, all of which succeeded. */
  ghost predicate Landed(kind: Kind, s0: Store, s: Store, runs: seq<BatchRun>, items: seq<Item>, done: nat,
                         maxRetries: nat)
  {
    && done <= |items| && s == ApplyAll(s0, items[..done])
    && Batches(runs) == items[..done] && GoodHistory(kind, runs, maxRetries) && AllSucceeded(kind, runs)
  }

  lemma NextBatch(kind: Kind, s0: Store, s: Store, runs: seq<BatchRun>, run: BatchRun, items: seq<Item>, lo: nat,
                  hi: nat, maxRetries: nat)
    requires Landed(kind, s0, s, runs, items, lo, maxRetries) && lo <= hi <= |items|
    requires run.batch == items[lo..hi] && GoodRun(kind, run, maxRetries)
    ensures GoodHistory(kind, runs + [run], maxRetries) && Batches(runs + [run]) == items[..hi]
    ensures Attempts(runs + [run]) == Attempts(runs) + |run.attempts|
    ensures AllReplies(runs + [run]) == AllReplies(runs) + Replies(run.attempts)
    ensures Succeeded(kind, run) ==> Landed(kind, s0, ApplyAll(s, run.batch), runs + [run], items, hi, maxRetries)
  {
    AppendRun(kind, runs, run, maxRetries);
    assert items[..lo] + items[lo..hi] == items[..hi];
    ApplyAllConcat(s0, items[..lo], items[lo..hi]);
  }

  function CeilDiv(n: nat, d: nat): nat
    requires d >= 1
  {
    (n + d - 1) / d
  }

  lemma OneMore(n: nat, d: nat)
    ensures (n + 1) * d == n * d + d
  {}

  lemma MulMonotone(a: nat, b: nat, c: nat)
    requires a <= b
    ensures a * c <= b * c
  {
    assert b * c == a * c + (b - a) * c;
  }

  lemma CeilDivBounds(full: nat, n: nat, d: nat)
    requires d >= 1 && full * d < n + d
    ensures full <= CeilDiv(n, d)
  {
    var q := CeilDiv(n, d);
    assert (q + 1) * d == q * d + d && n + d <= q * d + d;
    if full >= q + 1 { MulMonotone(q + 1, full, d); }
  }

  lemma {:induction false} AttemptsBound(kind: Kind, runs: seq<BatchRun>, maxRetries: nat)
    requires forall k | 0 <= k < |runs| :: GoodRun(kind, runs[k], maxRetries)
    ensures Attempts(runs) <= |runs| * (1 + maxRetries)
  {
    if runs != [] {
      AttemptsBound(kind, runs[..|runs| - 1], maxRetries);
      assert |runs| * (1 + maxRetries) == (|runs| - 1) * (1 + maxRetries) + (1 + maxRetries);
    }
  }

  class Service {
    const remote: Remote
    const batchSize: int
    const maxRetries: int

    constructor (remote: Remote, batchSize: int, maxRetries: int)
      ensures this.remote == remote && this.batchSize == batchSize && this.maxRetries == maxRetries
    {
      this.remote, this.batchSize, this.maxRetries := remote, batchSize, maxRetries;
    }

    /** The loop over the reported outcomes. */
    static method CountFailures(kind: Kind, items: seq<map<string, ItemResult>>)
      returns (failedCount: nat, firstError: string)
      ensures failedCount == FailureCount(kind, items)
      ensures firstError == FirstReason(kind, items)
    {
      failedCount, firstError := 0, "";
      for i := 0 to |items|
        invariant failedCount == FailureCount(kind, items[..i])
        invariant firstError == FirstReason(kind, items[..i])
      {
        assert items[..i + 1][..i] == items[..i];
        if Key(kind) in items[i] {
          var outcome := items[i][Key(kind)];
          if !(kind.Delete? && outcome.result == "not_found") {
            if outcome.status < 200 || outcome.status >= 300 {
              failedCount := failedCount + 1;
              if firstError == "" && outcome.reason.Some? {
                firstError := outcome.reason.value;
              }
            }
          }
        }
      }
      assert items[..|items|] == items;
    }

    /** One attempt. `None` is only ever the verdict when every item of the batch has its
      * effect, and failed outcomes are counted in it. */
    method Once(kind: Kind, batch: seq<Item>) returns (err: Option<Error>, ghost a: Attempt, ghost keep: seq<bool>)
      modifies remote
      ensures remote.requests <= old(remote.requests) + 1
      ensures remote.answers == old(remote.answers) + Replies([a])
      ensures |keep| == |batch| && remote.store == ApplySome(old(remote.store), batch, keep)
      ensures err.None? ==> remote.store == ApplyAll(old(remote.store), batch)
      ensures a.verdict == err && Judged(kind, a)
      ensures err.Some? && err.value.ItemsFailed? ==>
                && a.reply.Some? && a.reply.value.Answer? && a.reply.value.body.Some?
                && var items := a.reply.value.body.value.items;
                   err.value == ItemsFailed(FailureCount(kind, items), |batch|, FirstReason(kind, items))
    {
      // Encoding the body or building the request may fail; nothing is sent then.
      var encodable: bool := *;
      if !encodable {
        keep := seq(|batch|, _ => false);
        NothingKept(remote.store, batch);
        return Some(ClientError), Attempt(None, Some(ClientError)), keep;
      }
      var reply;
      reply, keep := remote.Bulk(kind, batch);
      EveryReplyIsOneOfThree(kind, reply);
      err := Verdict(kind, reply, |batch|);
      a := Attempt(Some(reply), err);
      assert Replies([a]) == [reply] by { assert [a][..0] == []; }
      if err.None? { AllSettled(old(remote.store), batch, keep); }
    }

    /** What the client makes of a reply that keeps to the contract. */
    static method Verdict(kind: Kind, reply: Reply, total: nat) returns (err: Option<Error>)
      requires reply.Answer? && reply.status == 200 && reply.body.Some? ==>
                 var r := reply.body.value;
                 (exists k :: 0 <= k < |r.items| && FailedOutcome(kind, r.items[k])) ==> r.errors
      ensures Judged(kind, Attempt(Some(reply), err))
      ensures err.Some? && err.value.ItemsFailed? ==>
                && reply.Answer? && reply.body.Some?
                && var items := reply.body.value.items;
                   err.value == ItemsFailed(FailureCount(kind, items), total, FirstReason(kind, items))
    {
      if reply.NoAnswer? { return Some(NetworkError); }
      if reply.status != 200 {
        if reply.status >= 400 && reply.status < 500 { return Some(ClientError); }
        return Some(ServerError);
      }
      if reply.body.None? { return Some(ServerError); }
      var response := reply.body.value;
      NoFailures(kind, response.items);
      if response.errors {
        var failedCount, firstError := CountFailures(kind, response.items);
        if failedCount > 0 { return Some(ItemsFailed(failedCount, total, firstError)); }
      }
      return None;
    }

    method DoWithRetry(kind: Kind, batch: seq<Item>) returns (err: Option<Error>, ghost run: BatchRun)
      requires maxRetries >= 1
      modifies remote
      ensures run.batch == batch && GoodRun(kind, run, maxRetries)
      ensures err.None? <==> Succeeded(kind, run)
      ensures err.Some? ==> GaveUp(kind, err.value, run, maxRetries)
      ensures remote.requests <= old(remote.requests) + |run.attempts|
      ensures remote.answers == old(remote.answers) + Replies(run.attempts)
      ensures Mixed(old(remote.store), remote.store, batch)
      ensures err.None? ==> remote.store == ApplyAll(old(remote.store), batch)
    {
      ghost var s0 := remote.store;
      MixedStart(s0, batch);
      run := BatchRun(batch, []);
      var strategyOk: bool := *;
      if !strategyOk { return Some(NoStrategy), run; }
      var retries := 0;
      while true
        invariant 0 <= retries <= maxRetries && |run.attempts| == retries
        invariant run.batch == batch
        invariant forall k | 0 <= k < retries :: MetSetback(kind, run.attempts[k]) && Judged(kind, run.attempts[k])
        invariant remote.requests <= old(remote.requests) + |run.attempts|
        invariant remote.answers == old(remote.answers) + Replies(run.attempts)
        invariant Mixed(s0, remote.store, batch)
        decreases maxRetries - retries
      {
        var cancelled: bool := *;
        if cancelled { return Some(Cancelled), run; }
        ghost var s, a, keep;
        s := remote.store;
        err, a, keep := Once(kind, batch);
        RepliesNext(run.attempts, a);
        run := BatchRun(batch, run.attempts + [a]);
        PartialKeepsMixed(s0, s, batch, batch, keep);
        if err.None? {
          FullPassForgets(s0, s, batch);
          return None, run;
        }
        if err.value.ClientError? { return err, run; }
        // The strategy says yes maxRetries times, then no.
        if retries == maxRetries { return Some(Exhausted(err.value)), run; }
        retries := retries + 1;
        cancelled := *;
        if cancelled { return Some(Cancelled), run; }
      }
    }

    /** The batch loop. `done` items are fully landed; a failing batch [lo:hi] starts there. */
    method ProcessBatches(kind: Kind, items: seq<Item>)
      returns (err: Option<Error>, ghost done: nat, ghost runs: seq<BatchRun>)
      requires batchSize >= 1 && maxRetries >= 1
      modifies remote
      ensures err.None? ==> done == |items| && remote.store == ApplyAll(old(remote.store), items)
      ensures err.Some? ==> err.value.Cancelled? || err.value.BatchFailed?
      ensures err.Some? && err.value.Cancelled? ==>
                done < |items| && remote.store == ApplyAll(old(remote.store), items[..done])
      ensures err.Some? && err.value.BatchFailed? ==>
                var lo, hi := err.value.lo, err.value.hi;
                && done == lo < hi <= |items| && hi - lo <= batchSize
                && Mixed(ApplyAll(old(remote.store), items[..lo]), remote.store, items[lo..hi])
      ensures err.None? ==> AllSucceeded(kind, runs)
      ensures err.Some? && err.value.BatchFailed? ==>
                runs != [] && GaveUp(kind, err.value.cause, runs[|runs| - 1], maxRetries)
      ensures GoodHistory(kind, runs, maxRetries)
      ensures Batches(runs) == items[..if err.Some? && err.value.BatchFailed? then err.value.hi else done]
      ensures remote.requests <= old(remote.requests) + Attempts(runs)
      ensures remote.answers == old(remote.answers) + AllReplies(runs)
      ensures |runs| * batchSize < |items| + batchSize
    {
      runs, done := [], 0;
      var i := 0;
      while i < |items|
        invariant 0 <= i < |items| + batchSize && i == |runs| * batchSize
        invariant done == if i <= |items| then i else |items|
        invariant Landed(kind, old(remote.store), remote.store, runs, items, done, maxRetries)
        invariant remote.requests <= old(remote.requests) + Attempts(runs)
        invariant remote.answers == old(remote.answers) + AllReplies(runs)
        decreases |items| - i
      {
        var cancelled: bool := *;
        if cancelled { return Some(Cancelled), done, runs; }
        var end := i + batchSize;
        if end > |items| { end := |items|; }
        var batch := items[i..end];
        ghost var run, before;
        before := remote.store;
        err, run := DoWithRetry(kind, batch);
        NextBatch(kind, old(remote.store), before, runs, run, items, i, end, maxRetries);
        OneMore(|runs|, batchSize);
        runs := runs + [run];
        if err.Some? {
          return Some(BatchFailed(i, end, err.value)), done, runs;
        }
        i, done := i + batchSize, end;
      }
      assert items[..done] == items;
      return None, done, runs;
    }

    lemma OthersAreKept(s0: Store, items: seq<Item>, err: Option<Error>, done: nat)
      requires done <= |items| && (err.None? ==> done == |items|)
      requires err.Some? && err.value.BatchFailed? ==>
                 var lo, hi := err.value.lo, err.value.hi;
                 lo <= hi <= |items| && Mixed(ApplyAll(s0, items[..lo]), remote.store, items[lo..hi])
      requires err.None? || !err.value.BatchFailed? ==> remote.store == ApplyAll(s0, items[..done])
      ensures KeepsOthers(s0, remote.store, items)
    {
      if err.Some? && err.value.BatchFailed? {
        OthersKept(s0, remote.store, items, err.value.lo, err.value.hi);
      } else {
        MixedStart(remote.store, items[done..done]);
        OthersKept(s0, remote.store, items, done, done);
      }
    }

    /** Upserts every document, or says how far it came. */
    method BulkUpsert(docs: seq<Document>) returns (err: Option<Error>, ghost runs: seq<BatchRun>)
      requires batchSize >= 1 && maxRetries >= 1
      modifies remote
      ensures err.Some? ==> err.value.Cancelled? || err.value.BatchFailed?
      ensures KeepsOthers(old(remote.store), remote.store, Puts(docs))
      ensures err.None? ==> forall id: string ::
                Lookup(remote.store, id) ==
                if LastBody(docs, id).Some? then LastBody(docs, id) else Lookup(old(remote.store), id)
      ensures err.Some? && err.value.BatchFailed? ==>
                var lo, hi := err.value.lo, err.value.hi;
                && lo < hi <= |docs|
                && Mixed(ApplyAll(old(remote.store), Puts(docs[..lo])), remote.store, Puts(docs[lo..hi]))
      ensures err.Some? && err.value.Cancelled? ==> exists done: nat | done < |docs| ::
                remote.store == ApplyAll(old(remote.store), Puts(docs[..done]))
      ensures err.Some? && err.value.BatchFailed? ==>
                runs != [] && GaveUp(Upsert, err.value.cause, runs[|runs| - 1], maxRetries) &&
                Hopeless(Upsert, err.value.cause, runs[|runs| - 1], maxRetries)
      ensures err.None? ==> AllSucceeded(Upsert, runs) && Batches(runs) == Puts(docs)
      ensures GoodHistory(Upsert, runs, maxRetries) && Batches(runs) <= Puts(docs)
      ensures remote.answers == old(remote.answers) + AllReplies(runs)
      ensures remote.requests - old(remote.requests) <= CeilDiv(|docs|, batchSize) * (1 + maxRetries)
    {
      ghost var done;
      err, done, runs := ProcessBatches(Upsert, Puts(docs));
      assert Puts(docs)[..|docs|] == Puts(docs);
      OthersAreKept(old(remote.store), Puts(docs), err, done);
      if err.Some? && err.value.BatchFailed? {
        GaveUpIsHopeless(Upsert, err.value.cause, runs[|runs| - 1], maxRetries);
      }
      CountingBatches(Upsert, runs, |docs|, batchSize, maxRetries);
      assert Puts(docs)[..done] == Puts(docs[..done]);
      if err.None? {
        forall id: string
          ensures Lookup(remote.store, id) ==
                  if LastBody(docs, id).Some? then LastBody(docs, id) else Lookup(old(remote.store), id)
        {
          UpsertMeaning(old(remote.store), docs, id);
        }
      } else if err.value.BatchFailed? {
        assert Puts(docs)[err.value.lo..err.value.hi] == Puts(docs[err.value.lo..err.value.hi]);
      }
    }

    /** Deletes every id, or says how far it came. */
    method BulkDelete(ids: seq<string>) returns (err: Option<Error>, ghost runs: seq<BatchRun>)
      requires batchSize >= 1 && maxRetries >= 1
      modifies remote
      ensures err.Some? ==> err.value.Cancelled? || err.value.BatchFailed?
      ensures KeepsOthers(old(remote.store), remote.store, Removes(ids))
      ensures err.None? ==> remote.store == old(remote.store) - set id | id in ids
      ensures err.Some? && err.value.BatchFailed? ==>
                var lo, hi := err.value.lo, err.value.hi;
                && lo < hi <= |ids|
                && Mixed(old(remote.store) - (set id | id in ids[..lo]), remote.store, Removes(ids[lo..hi]))
      ensures err.Some? && err.value.Cancelled? ==> exists done: nat | done < |ids| ::
                remote.store == old(remote.store) - set id | id in ids[..done]
      ensures err.Some? && err.value.BatchFailed? ==>
                runs != [] && GaveUp(Delete, err.value.cause, runs[|runs| - 1], maxRetries) &&
                Hopeless(Delete, err.value.cause, runs[|runs| - 1], maxRetries)
      ensures err.None? ==> AllSucceeded(Delete, runs) && Batches(runs) == Removes(ids)
      ensures GoodHistory(Delete, runs, maxRetries) && Batches(runs) <= Removes(ids)
      ensures remote.answers == old(remote.answers) + AllReplies(runs)
      ensures remote.requests - old(remote.requests) <= CeilDiv(|ids|, batchSize) * (1 + maxRetries)
    {
      ghost var done;
      err, done, runs := ProcessBatches(Delete, Removes(ids));
      assert Removes(ids)[..|ids|] == Removes(ids);
      OthersAreKept(old(remote.store), Removes(ids), err, done);
      if err.Some? && err.value.BatchFailed? {
        GaveUpIsHopeless(Delete, err.value.cause, runs[|runs| - 1], maxRetries);
      }
      CountingBatches(Delete, runs, |ids|, batchSize, maxRetries);
      if err.None? {
        DeleteMeaning(old(remote.store), ids);
      } else {
        RemovesSlice(ids, 0, done);
        DeleteMeaning(old(remote.store), ids[..done]);
        if err.value.BatchFailed? { RemovesSlice(ids, err.value.lo, err.value.hi); }
      }
    }
  }

  lemma RemovesSlice(ids: seq<string>, lo: nat, hi: nat)
    requires lo <= hi <= |ids|
    ensures Removes(ids)[lo..hi] == Removes(ids[lo..hi])
    ensures lo == 0 ==> Removes(ids)[..hi] == Removes(ids[..hi])
  {}

  lemma {:induction false} NothingKept(s: Store, batch: seq<Item>)
    ensures ApplySome(s, batch, seq(|batch|, _ => false)) == s
  {
    if batch != [] {
      var n := |batch| - 1;
      NothingKept(s, batch[..n]);
      assert seq(|batch|, _ => false)[..n] == seq(n, _ => false);
    }
  }

  lemma CountingBatches(kind: Kind, runs: seq<BatchRun>, n: nat, d: nat, maxRetries: nat)
    requires d >= 1 && |runs| * d < n + d
    requires GoodHistory(kind, runs, maxRetries)
    ensures Attempts(runs) <= CeilDiv(n, d) * (1 + maxRetries)
  {
    AttemptsBound(kind, runs, maxRetries);
    CeilDivBounds(|runs|, n, d);
    MulMonotone(|runs|, CeilDiv(n, d), 1 + maxRetries);
  }
}
