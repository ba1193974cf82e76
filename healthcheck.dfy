/** The health-check hook: two sliding windows of event timestamps (successes
    and failures), a one-way "force fail" latch, and the liveness query that
    evicts stale timestamps and compares the success rate with a threshold.
    Timestamps, the window length and the threshold are exact reals; the clock
    is the `now` parameter of the operations that read it. */
module Healthcheck {
  import opened Bisect
  import opened Collections
  import opened Messages

  // ---------------------------------------------------------------------
  // Eviction of old timestamps
  // ---------------------------------------------------------------------

  /** What `_remove_old` leaves in a window: the tail from the point where
      `bisect_left` would insert `oldTimestamp`. It is always a suffix of the
      window; on a sorted window it is exactly the entries not older than
      `oldTimestamp` (an entry equal to it stays), still sorted. */
  function Evict(instants: seq<real>, oldTimestamp: real): (rest: seq<real>)
    ensures |rest| <= |instants| && rest == instants[|instants| - |rest|..]
    ensures Sorted(instants) ==> Sorted(rest)
    ensures Sorted(instants) ==> forall i :: 0 <= i < |rest| ==> oldTimestamp <= rest[i]
    ensures Sorted(instants) ==>
              forall i :: 0 <= i < |instants| - |rest| ==> instants[i] < oldTimestamp
  {
    instants[BisectLeft(instants, oldTimestamp, 0, |instants|)..]
  }

  /** The number of entries of a window that are not older than `since`,
      wherever they stand: the independent reference for the count. */
  function CountSince(instants: seq<real>, since: real): (n: nat)
  {
    if instants == [] then 0
    else (if since <= instants[0] then 1 else 0) + CountSince(instants[1..], since)
  }

  /** If the first `k` entries are older than `since` and the rest are not,
      exactly `|instants| - k` entries count. */
  lemma {:induction false} CountSinceOfSplit(instants: seq<real>, since: real, k: nat)
    requires k <= |instants|
    requires forall i :: 0 <= i < k ==> instants[i] < since
    requires forall i :: k <= i < |instants| ==> since <= instants[i]
    ensures CountSince(instants, since) == |instants| - k
  {
    if instants != [] {
      CountSinceOfSplit(instants[1..], since, if k == 0 then 0 else k - 1);
    }
  }

  /** On a sorted window, eviction keeps exactly the entries not older than
      the cut-off, so the count it returns is `CountSince`. */
  lemma EvictCount(instants: seq<real>, oldTimestamp: real)
    requires Sorted(instants)
    ensures |Evict(instants, oldTimestamp)| == CountSince(instants, oldTimestamp)
  {
    var rest := Evict(instants, oldTimestamp);
    CountSinceOfSplit(instants, oldTimestamp, |instants| - |rest|);
  }

  /** On a sorted window, a second eviction with the same cut-off removes
      nothing. */
  lemma EvictIdempotent(instants: seq<real>, oldTimestamp: real)
    requires Sorted(instants)
    ensures Evict(Evict(instants, oldTimestamp), oldTimestamp) == Evict(instants, oldTimestamp)
  {
    var rest := Evict(instants, oldTimestamp);
    var pos := BisectLeft(rest, oldTimestamp, 0, |rest|);
    if rest != [] {
      assert oldTimestamp <= rest[0];
    }
    assert pos == 0;
  }

  /** `_remove_old(instants, old_timestamp)`: find the cut point with
      `bisect_left`, pop that many entries off the front of the deque, return
      how many are left. */
  method RemoveOld(instants: Deque<real>, oldTimestamp: real) returns (remaining: nat)
    modifies instants
    ensures instants.items == Evict(old(instants.items), oldTimestamp)
    ensures remaining == |instants.items|
    ensures Sorted(old(instants.items)) ==>
              remaining == CountSince(old(instants.items), oldTimestamp)
    ensures Sorted(old(instants.items)) ==>
              Evict(instants.items, oldTimestamp) == instants.items
  {
    ghost var before := instants.items;
    var pos := BisectLeft(instants.items, oldTimestamp, 0, |instants.items|);
    for i := 0 to pos
      invariant instants.items == before[i..]
    {
      var _ := instants.PopLeft();
    }
    remaining := |instants.items|;
    if Sorted(before) {
      EvictCount(before, oldTimestamp);
      EvictIdempotent(before, oldTimestamp);
    }
  }

  // ---------------------------------------------------------------------
  // The liveness response
  // ---------------------------------------------------------------------

  const ForceFailMessage: string := "Healthcheck fail called manually"

  /** The `message` field of the response body. The two formatted messages
      carry the numbers they print. */
  datatype Detail =
    | Text(text: string)                          // a fixed message
    | NoMessages(window: real)                    // "No messages in last {window}s"
    | SuccessRate(rate: real, expected: real)     // "Success rate: {rate} (expected: {expected})"

  /** The `success` and `fail` fields of the response body. */
  datatype Counts = Counts(success: nat, fail: nat)

  /** The JSON body: `status`, `message`, and optionally the counts. */
  datatype Body = Body(status: string, detail: Detail, counts: Option<Counts>)

  datatype Option<T> = None | Some(value: T)

  /** An HTTP response: status code and body. */
  datatype Response = Response(code: int, body: Body)

  /** `response(status, body)`: the body gets `status` "ok" for a 200 and
      "fail" for anything else. */
  function Respond(code: int, detail: Detail, counts: Option<Counts>): (r: Response)
    ensures r.code == code && r.body.detail == detail && r.body.counts == counts
    ensures r.body.status == "ok" <==> code == 200
    ensures r.body.status == "ok" || r.body.status == "fail"
  {
    Response(code, Body(if code == 200 then "ok" else "fail", detail, counts))
  }

  /** The success rate `success / (success + fail)`: a fraction between 0
      and 1 that, scaled by the number of events, gives back the successes. */
  function Rate(success: nat, fail: nat): (rate: real)
    requires success + fail > 0
    ensures 0.0 <= rate <= 1.0
    ensures rate * (success + fail) as real == success as real
  {
    success as real / (success + fail) as real
  }

  /** The decision table of the liveness query, given the latch and the
      post-eviction counts of the two windows. */
  function Verdict(forced: bool, success: nat, fail: nat, successRate: real, healthWindow: real): (r: Response)
    ensures r.code == 200 || r.code == 500
    ensures forced ==> r.code == 500
    ensures r.body.counts.Some? <==> !forced && success + fail > 0
  {
    if forced then
      Respond(500, Text(ForceFailMessage), None)
    else if success == 0 && fail == 0 then
      Respond(200, NoMessages(healthWindow), None)
    else
      var rate := Rate(success, fail);
      Respond(if rate >= successRate then 200 else 500, SuccessRate(rate, successRate),
              Some(Counts(success, fail)))
  }

  /** With the latch set, the query fails with the fixed message and no
      counts, whatever the windows hold. */
  lemma VerdictForced(success: nat, fail: nat, successRate: real, healthWindow: real)
    ensures Verdict(true, success, fail, successRate, healthWindow)
            == Response(500, Body("fail", Text(ForceFailMessage), None))
  {
  }

  /** With the latch clear and both windows empty, the query succeeds with the
      "no messages" body and no counts, whatever the threshold. */
  lemma VerdictNoMessages(successRate: real, healthWindow: real)
    ensures Verdict(false, 0, 0, successRate, healthWindow)
            == Response(200, Body("ok", NoMessages(healthWindow), None))
  {
  }

  /** With the latch clear and some events in the window, the code is 200
      exactly when `success >= successRate * (success + fail)` (the rate
      comparison with the boundary included, stated without division), and
      the body carries the rate, the threshold and both counts. */
  lemma VerdictByRate(success: nat, fail: nat, successRate: real, healthWindow: real)
    requires success + fail > 0
    ensures var r := Verdict(false, success, fail, successRate, healthWindow);
            && (r.code == 200 <==> success as real >= successRate * (success + fail) as real)
            && (r.code == 200 || r.code == 500)
            && r.body.detail == SuccessRate(Rate(success, fail), successRate)
            && r.body.counts == Some(Counts(success, fail))
  {
    var total := (success + fail) as real;
    var rate := Rate(success, fail);
    assert rate * total == success as real;
    if rate >= successRate {
      assert rate * total >= successRate * total;
    } else {
      assert rate * total < successRate * total;
    }
  }

  /** Every verdict is a 200 or a 500, the body's status is "ok" exactly for
      a 200, and a 200 means: latch clear, and either no events or a rate at
      or above the threshold. */
  lemma VerdictHealthy(forced: bool, success: nat, fail: nat, successRate: real, healthWindow: real)
    ensures var r := Verdict(forced, success, fail, successRate, healthWindow);
            && (r.code == 200 || r.code == 500)
            && (r.body.status == "ok" <==> r.code == 200)
            && (r.code == 200 <==>
                  !forced && (success + fail == 0 || Rate(success, fail) >= successRate))
  {
  }

  /** The defaults of the `success_rate` and `health_window` arguments. */
  const DefaultSuccessRate: real := 0.95
  const DefaultHealthWindow: real := 60.0

  /** The rate examples, at the default threshold and window: 7 of 10 fails,
      19 of 20 passes (the boundary is inclusive), 95 of 100 passes with both
      counts in the body, and a forced failure fails even with 100 successes
      and no failures. */
  lemma VerdictExamples()
    ensures Verdict(false, 7, 3, DefaultSuccessRate, DefaultHealthWindow).code == 500
    ensures Verdict(false, 19, 1, DefaultSuccessRate, DefaultHealthWindow).code == 200
    ensures Verdict(false, 95, 5, DefaultSuccessRate, DefaultHealthWindow).body.counts
            == Some(Counts(95, 5))
    ensures Verdict(false, 95, 5, DefaultSuccessRate, DefaultHealthWindow).code == 200
    ensures Verdict(true, 100, 0, DefaultSuccessRate, DefaultHealthWindow).code == 500
  {
  }

  // ---------------------------------------------------------------------
  // The hook object
  // ---------------------------------------------------------------------

  /** No entry of the window is later than `now`, so appending `now` keeps a
      sorted window sorted. */
  predicate NotAfter(instants: seq<real>, now: real)
  {
    forall i :: 0 <= i < |instants| ==> instants[i] <= now
  }

  class Healthcheck {
    const successRate: real
    const healthWindow: real
    /** Timestamps of successfully consumed messages, oldest first. */
    const success: Deque<real>
    /** Timestamps of messages whose handler failed, oldest first. */
    const fail: Deque<real>
    /** The force-fail latch. */
    var forceFailed: bool

    /** The two windows are distinct deques. */
    ghost predicate Valid()
      reads this
    {
      success != fail
    }

    /** `Healthcheck(barterdude, path, success_rate, health_window)`: both
        windows empty, latch clear. */
    constructor (successRate: real, healthWindow: real)
      ensures Valid() && fresh(success) && fresh(fail)
      ensures this.successRate == successRate && this.healthWindow == healthWindow
      ensures success.items == [] && fail.items == [] && !forceFailed
    {
      this.successRate := successRate;
      this.healthWindow := healthWindow;
      success := new Deque();
      fail := new Deque();
      forceFailed := false;
    }

    /** `force_fail()`: set the latch; the windows are untouched. */
    method ForceFail()
      modifies this
      ensures forceFailed
    {
      forceFailed := true;
    }

    /** `before_consume(message)`: does nothing. */
    method BeforeConsume(message: RabbitMQMessage)
      ensures unchanged(this, success, fail)
    {
    }

    /** `on_success(message)`: record `now` in the success window; the fail
        window and the latch are unchanged. A window stays sorted when `now`
        is not earlier than anything in it. */
    method OnSuccess(message: RabbitMQMessage, now: real)
      requires Valid()
      modifies success
      ensures success.items == old(success.items) + [now]
      ensures unchanged(this, fail)
      ensures Sorted(old(success.items)) && NotAfter(old(success.items), now) ==>
                Sorted(success.items)
    {
      success.Append(now);
    }

    /** `on_fail(message, error)`: record `now` in the fail window; the
        success window and the latch are unchanged. */
    method OnFail(message: RabbitMQMessage, error: Error, now: real)
      requires Valid()
      modifies fail
      ensures fail.items == old(fail.items) + [now]
      ensures unchanged(this, success)
      ensures Sorted(old(fail.items)) && NotAfter(old(fail.items), now) ==>
                Sorted(fail.items)
    {
      fail.Append(now);
    }

    /** `__call__(req)`: the liveness query at time `now`. With the latch set
        it answers the forced failure and evicts nothing; otherwise it evicts
        everything older than `now - healthWindow` from both windows and
        answers the verdict on what is left. */
    method Call(now: real) returns (resp: Response)
      requires Valid()
      modifies success, fail
      ensures forceFailed ==> unchanged(success, fail)
      ensures !forceFailed ==>
                && success.items == Evict(old(success.items), now - healthWindow)
                && fail.items == Evict(old(fail.items), now - healthWindow)
      ensures resp == Verdict(forceFailed, |success.items|, |fail.items|, successRate, healthWindow)
    {
      if forceFailed {
        resp := Respond(500, Text(ForceFailMessage), None);
        return;
      }
      var oldTimestamp := now - healthWindow;
      var successCount := RemoveOld(success, oldTimestamp);
      var failCount := RemoveOld(fail, oldTimestamp);
      if successCount == 0 && failCount == 0 {
        resp := Respond(200, NoMessages(healthWindow), None);
        return;
      }
      var rate := successCount as real / (successCount + failCount) as real;
      resp := Respond(if rate >= successRate then 200 else 500, SuccessRate(rate, successRate),
                      Some(Counts(successCount, failCount)));
    }
  }
}
