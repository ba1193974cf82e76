# BarterDude: health-check windows and per-message hook dispatch

BarterDude is a thin layer over an AMQP consumer runtime. Callers register
hooks that observe each consumed message: before it is handled, after it
succeeds, after it fails. This project models two parts of it in Dafny and
proves properties of both.

- **The health-check hook** (`Healthcheck`). It keeps two deques of event
  timestamps, one for successes and one for failures, plus a one-way
  force-fail latch. Its liveness query evicts timestamps older than
  `now - health_window` from both windows. The eviction uses a `bisect_left`
  cut and pops entries off the front. The query then answers 500 when the
  latch is set, 200 "no messages" when both windows are empty, and otherwise
  200 exactly when `success / (success + fail) >= success_rate`.
  The model is imperative: `Healthcheck` is a class, its windows are
  `Deque` objects whose contents the methods change in place, and
  `RemoveOld` pops entries in a loop. The pure function `Evict` specifies
  what eviction leaves. The pure function `Verdict` specifies the query's
  decision table. Lemmas prove the properties of both.
- **Per-message dispatch** (`process_message` inside `consume_amqp`). It
  dispatches `before_consume` to the monitor, runs the user handler, then
  either dispatches `on_fail` and re-raises, or dispatches `on_success`.
  The code is straight-line, so the model is a pure function.
  `ProcessMessage` takes the way each phase ends (completes or raises).
  It returns the calls made, in order, and how the whole call ends.

Modules: `Bisect` (Python's `bisect_left` and sortedness), `Collections`
(the `deque` operations used), `Messages` (messages and raised errors),
`Healthcheck` (barterdude/hooks/healthcheck.py) and `BarterDude` (the
`process_message` closure of barterdude/__init__.py).

Modelling choices:
- The clock `time()` is a `now` parameter of `OnSuccess`, `OnFail` and `Call`.
- Timestamps, the window length and the threshold are exact `real`s, so there
  is no floating-point rounding. `VerdictByRate` also states the rate test
  without division: `success >= success_rate * (success + fail)`.
- The text of the two formatted messages (`f"No messages in last {w}s"`,
  `f"Success rate: {rate} (expected: {t})"`) is modelled as the `Detail`
  constructors `NoMessages(w)` and `SuccessRate(rate, t)`, which carry the
  numbers that would be printed. The fixed force-fail text is the literal
  string.
- `_remove_old` has no sortedness precondition, because the source does not
  guard against out-of-order timestamps. What holds for any input is stated
  unconditionally: a prefix is removed, the rest is the original tail, and
  the result is the new length. What needs sorted input is stated as
  `Sorted(old) ==> …`: every kept entry is `>= cutoff`, every removed entry
  is `< cutoff`, the count of entries `>= cutoff`, and idempotence.
- `bisect_left` is modelled as the binary search CPython runs, not as a
  count. On unsorted input it therefore gives exactly the cut point the
  source would get.
- `process_message` catches only `Exception`. An error outside that class
  (`asyncio.CancelledError`, `KeyboardInterrupt`) raised by the handler
  propagates with neither `on_fail` nor `on_success` dispatched. One might
  expect exactly one of `on_fail` / `on_success` per message; the code gives
  that only for a handler that returns or raises an `Exception`.
  `ExactlyOneCompletion` states that case, and `HandlerRaisesUncaught`
  covers the other.

## Model

| member | source | states |
|---|---|---|
| `Bisect.BisectLeft` | barterdude/hooks/healthcheck.py:13 | the cut point lies in `[lo, hi]`; on sorted input every entry before it is `< x` and every entry from it on is `>= x` (leftmost insertion point) |
| `Healthcheck.Evict` | barterdude/hooks/healthcheck.py:12-16 | what eviction leaves is a suffix of the window (the original tail, in the same order); for a sorted window it stays sorted, every kept entry is `>= cutoff` (an equal entry is kept) and every removed entry is `< cutoff` |
| `Healthcheck.CountSinceOfSplit` | barterdude/hooks/healthcheck.py:13-16 | when the first `k` entries are older than the cutoff and the rest are not, the number of entries `>= cutoff` is `length - k` |
| `Healthcheck.EvictCount` | barterdude/hooks/healthcheck.py:13-16 | for a sorted window, the remaining length equals the number of original entries `>= cutoff` |
| `Healthcheck.EvictIdempotent` | barterdude/hooks/healthcheck.py:12-16 | for a sorted window, evicting again with the same cutoff removes nothing |
| `Healthcheck.RemoveOld` | barterdude/hooks/healthcheck.py:12-16 | the deque afterwards holds exactly `Evict(old contents, cutoff)`; the result is its new length; for sorted input that is the count of entries `>= cutoff`, and a second call would remove nothing |
| `Collections.Deque.constructor` | barterdude/hooks/healthcheck.py:29-30 | a new deque is empty |
| `Collections.Deque.Append` | barterdude/hooks/healthcheck.py:41 | `append` adds exactly one entry at the right end |
| `Collections.Deque.PopLeft` | barterdude/hooks/healthcheck.py:15 | `popleft` returns the first entry and leaves the rest in order |
| `Healthcheck.Healthcheck.constructor` | barterdude/hooks/healthcheck.py:20-31 | threshold and window are stored; both windows are new, distinct and empty; the latch starts clear |
| `Healthcheck.Healthcheck.ForceFail` | barterdude/hooks/healthcheck.py:34-35 | sets the latch and changes neither window |
| `Healthcheck.Healthcheck.BeforeConsume` | barterdude/hooks/healthcheck.py:37-38 | changes nothing |
| `Healthcheck.Healthcheck.OnSuccess` | barterdude/hooks/healthcheck.py:40-41 | appends exactly `now` to the success window; the fail window, the latch and the settings are unchanged; a sorted window stays sorted when `now` is not earlier than its entries |
| `Healthcheck.Healthcheck.OnFail` | barterdude/hooks/healthcheck.py:43-44 | appends exactly `now` to the fail window; the success window, the latch and the settings are unchanged; a sorted window stays sorted when `now` is not earlier than its entries |
| `Healthcheck.Healthcheck.Call` | barterdude/hooks/healthcheck.py:50-70 | with the latch set neither window is touched; otherwise both windows become `Evict(old, now - health_window)`; the response is the `Verdict` on the latch and the post-eviction counts |
| `Healthcheck.Respond` | barterdude/hooks/healthcheck.py:46-48 | `response` keeps the code, the message and the counts, and sets `status` to "ok" exactly for a 200 and "fail" otherwise |
| `Healthcheck.Rate` | barterdude/hooks/healthcheck.py:64 | the rate is a fraction between 0 and 1 and, multiplied by `success + fail`, gives back `success` |
| `Healthcheck.Verdict` | barterdude/hooks/healthcheck.py:51-70 | the query's decision on the latch and the post-eviction counts: always a 200 or a 500, a 500 when the latch is set, and the counts are in the body exactly when the latch is clear and some event is in the window; its full decision table is stated by the `Verdict*` lemmas |
| `Healthcheck.VerdictForced` | barterdude/hooks/healthcheck.py:51-54 | with the latch set the answer is 500, status "fail", the fixed message, and no counts, whatever the counts are |
| `Healthcheck.VerdictNoMessages` | barterdude/hooks/healthcheck.py:59-62 | with the latch clear and both counts zero the answer is 200, status "ok", the "no messages" message for the window, and no success/fail fields, whatever the threshold |
| `Healthcheck.VerdictByRate` | barterdude/hooks/healthcheck.py:64-70 | with events present the code is 200 iff `success >= success_rate * (success + fail)` (boundary inclusive) and 500 otherwise; the body carries the rate, the threshold and the post-eviction `success` and `fail` counts |
| `Healthcheck.VerdictHealthy` | barterdude/hooks/healthcheck.py:46-70 | every answer is 200 or 500; `status` is "ok" iff the code is 200; the code is 200 iff the latch is clear and either no events are in the window or the rate is at least the threshold |
| `Healthcheck.VerdictExamples` | barterdude/hooks/healthcheck.py:24-25 | at the default threshold 0.95 and window 60: 7 successes and 3 failures fail; 19 and 1 pass it (inclusive boundary); 95 and 5 pass with those counts in the body; a forced failure fails at 100 and 0 |
| `BarterDude.ProcessMessage` | barterdude/__init__.py:47-55 | the first call is always the before-consume dispatch; the message completes iff the before-consume dispatch, the handler and the on-success dispatch all complete |
| `BarterDude.HandlerAfterBeforeConsume` | barterdude/__init__.py:48-50 | the handler is called only after the before-consume dispatch has completed, as the second call |
| `BarterDude.BeforeConsumeRaises` | barterdude/__init__.py:48 | if the before-consume dispatch raises, it is the only call and its error propagates |
| `BarterDude.HandlerRaises` | barterdude/__init__.py:51-53 | a handler `Exception` `e` gives exactly the calls before-consume, handler, on-fail with the same message and `e`; on-success is not called; `e` itself is re-raised when on-fail completes, and on-fail's own error propagates otherwise |
| `BarterDude.HandlerCompletes` | barterdude/__init__.py:54-55 | when the handler returns, the calls are exactly before-consume, handler, on-success with the message; on-fail is never called (even if on-success raises), and the result is on-success's outcome |
| `BarterDude.HandlerRaisesUncaught` | barterdude/__init__.py:49-51 | a handler error outside `Exception` propagates unchanged with neither completion dispatch made |
| `BarterDude.ExactlyOneCompletion` | barterdude/__init__.py:49-55 | once the handler has run and returned or raised an `Exception`, exactly one of on-fail / on-success is dispatched; otherwise none is |

## Left out

- Collections.Deque.PopLeft: requires a non-empty deque instead of modelling the `IndexError` Python raises, because its only caller pops at most as many entries as the deque holds.
- HTTP framing: `web.Response`, `json.dumps` and the endpoint registration done by `HttpHook.__init__` (barterdude/hooks/__init__.py:21-27) are not modelled; a response is a status code plus a body record.
- The string rendering of the rate, the threshold and the window in the two formatted messages (Python's float `repr`): the numbers are carried in the `Detail` value instead.
- Floating-point arithmetic: rates and timestamps are exact reals, so a rate that rounds across the threshold in IEEE doubles is not modelled.
- Wall-clock `time()`: it is the `now` parameter.
- Out-of-order timestamps: not guarded in the source; the properties that need order are stated for sorted windows only.
- Concurrency: the `gather` fan-out over a batch in `wrapper` (barterdude/__init__.py:69-70) and interleaving between messages; each operation is modelled as atomic, as it is under the cooperative scheduler.
- The `Monitor` class is not part of this model; its dispatch calls are opaque calls that complete or raise, and its per-hook order is not modelled.
- The `BaseHook` and `HttpHook` interfaces (barterdude/hooks/__init__.py): abstract declarations and `NotImplementedError` stubs with no behaviour; `Healthcheck` is a plain class here.
- The `BarterDude` constructor, `add_endpoint`, `publish_amqp`, `startup`, `shutdown`, `run` and the routing in `consume_amqp` (barterdude/__init__.py:10-45, 57-99): thin wrappers over the runtime.
- The logging hook: its implementation is not part of this model.
- The `barterdude` and `path` constructor arguments of `Healthcheck` only serve the endpoint registration; the defaults 0.95 and 60.0 are the constants `DefaultSuccessRate` and `DefaultHealthWindow`, which `VerdictExamples` uses; the constructor itself takes both values explicitly, since Dafny has no default arguments.
