# TickerMap expiry scheduler

A Dafny model of the expiry scheduler of `TickerMap`, a `Map` whose keys can carry
an expiry timer. Each timer has an absolute timestamp and a callback to run once the
timestamp has passed. The scheduler has two parts:

- **The timer index.** This is the class's two fields. `timeouts` maps each key to
  its record `{ttl, timestamp, callback}`. `minQ` is a min-priority queue of
  `{item, priority}` entries.
  - `setTimer` writes the record. It enqueues a new key, leaves the queue alone
    when the new timestamp is the same or later, and removes the key's entries when
    it is earlier.
  - `delete` drops only the record.
- **The tick.** The interval callback drains the queue in priority order. An entry
  whose key has no record is discarded. The first key whose record is not yet due
  (`now <= timestamp`) goes back into the queue at the record's timestamp, and the
  tick stops there. Any other entry runs its record's callback. A callback that
  throws is logged and the loop goes on.

Files:

- `timer_index.dfy`, module `TimerIndex`: the records and queue entries as values.
  - `SetTimer` and `Delete` are the value-level meaning of the two operations.
  - `RemoveKey` is the queue's `remove` by key.
  - `Scheduled` is the invariant under which every recorded key can still fire.
- `expiry_driver.dfy`, module `ExpiryDriver`: what a tick may do, over a bag of
  entries.
  - `MinOrder` says a sequence is one that successive `dequeue`s could return, with
    ties broken in any way.
  - `TickRun` relates the queue before a tick, the entries it dequeued and the
    queue after it.
  - `Fires` lists the callbacks a tick runs.
- `ticker_map.dfy`, module `TickerMapModel`: the class `TickerMap`. Its fields
  `entries`, `timeouts` and `minQ` are updated in place. Each method is proved
  against the functions above. `Tick` is the interval callback's loop.
- `ticker_scenarios.dfy`, module `TickerScenarios`: concrete timelines. These
  include a timeline of two keys (a at 500, b at 1500, ticks at 1000 and 2000), rescheduling to a later time, and the inputs on
  which the code as written loses or repeats a timer.

The queue is modelled as a bag (`multiset`). The sequence `minQ` stands for the
heap's array, and no property depends on its order. `dequeue` returns some entry
of least priority. On a tie it may be any of them, so every tick property holds for
every tie-break.

Two behaviours of the code that a reader might not expect, and that the model
follows:

- `delete` returns the result of the `Map`'s own `delete`, that is whether the key
  had a map entry, not whether it had a timer (src/timed-map/ticker-map.ts:69-71).
- A fired record is kept: nothing after the callback removes the key from
  `timeouts` (src/timed-map/ticker-map.ts:29-33).

The consequences of the second point are listed under Findings. Beside the code as
written, the model has the evidently intended `setTimer` and tick
(`SetTimerCorrected`, `TickCorrected`, and `RunOnce` with `TickRunOnce`), specified
the same way as the originals.

## Model

| member | source | states |
|---|---|---|
| TimerIndex.RemoveKey | src/timed-map/ticker-map.ts:61 | the queue's remove-by-key keeps every entry for another key with its multiplicity, and leaves no entry for the key |
| TimerIndex.SetTimer | src/timed-map/ticker-map.ts:55-67 | the value-level setTimer that TickerMap.SetTimer is proved against: the record becomes (t - now, t, cb) in every case; the queue loses k's entries when t is earlier than the record, gains (k, t) when k has no record, and is otherwise kept |
| TimerIndex.Delete | src/timed-map/ticker-map.ts:69-72 | the value-level delete: the record goes and the queue stays |
| TimerIndex.SetTimerCorrected | src/timed-map/ticker-map.ts:55-67 | setTimer with the earlier-timestamp branch corrected: remove k's entries, then enqueue (k, t) |
| TimerIndex.Scheduled | src/timed-map/ticker-map.ts:15-26 | the invariant under which every recorded key will be looked at: each has a queue entry no later than its timestamp |
| TimerIndex.OthersScheduled | src/timed-map/ticker-map.ts:20-22 | dropping a key with no record (or removing a fired key's record) keeps every other key scheduled |
| TimerIndex.PutBackScheduled | src/timed-map/ticker-map.ts:23-26 | putting the key back at its record's timestamp schedules it and keeps every other key scheduled |
| TimerIndex.SetTimerEffect | src/timed-map/ticker-map.ts:55-66 | after setTimer(k, t, cb) at `now`, k's record is exactly (t - now, t, cb) and every other record is unchanged; a new key adds exactly one entry (k, t) to the bag; a same-or-later t leaves the queue unchanged; an earlier t leaves no entry for k, keeps all other entries, and enqueues nothing |
| TimerIndex.DeleteEffect | src/timed-map/ticker-map.ts:69-72 | delete removes k's record, keeps every other record, and leaves the queue untouched |
| TimerIndex.DeleteKeepsScheduled | src/timed-map/ticker-map.ts:69-72 | delete preserves the invariant that every recorded key has a queue entry no later than its timestamp |
| TimerIndex.EarlierRescheduleUnschedules | src/timed-map/ticker-map.ts:60-61 | an earlier reschedule leaves the key recorded with no queue entry, which breaks the scheduling invariant |
| TimerIndex.UnqueuedKeyStaysUnqueued | src/timed-map/ticker-map.ts:59-66 | once a recorded key has no entry, no setTimer (on it or another key) and no delete of another key gives it one |
| TimerIndex.RemoveKeyKeepsOthersScheduled | src/timed-map/ticker-map.ts:60-64 | dropping one key's entries and appending an entry keeps every other recorded key scheduled |
| TimerIndex.SetTimerCorrectedKeepsScheduled | src/timed-map/ticker-map.ts:60-64 | with the corrected earlier-reschedule branch, setTimer preserves the scheduling invariant |
| ExpiryDriver.MinExists | src/timed-map/ticker-map.ts:16 | a non-empty queue has an index of least priority, so dequeue always has an entry to return |
| ExpiryDriver.TakeAt | src/timed-map/ticker-map.ts:16 | removing the entry at a least index removes one copy of a least entry of the bag |
| ExpiryDriver.MinOrderStep | src/timed-map/ticker-map.ts:15-16 | dequeuing one more least entry extends a min-extraction order and removes that entry from what is left |
| ExpiryDriver.MinOrderHead | src/timed-map/ticker-map.ts:16 | the first entry a tick dequeues has the least priority in the queue |
| ExpiryDriver.MinOrderFromQueue | src/timed-map/ticker-map.ts:15-16 | the dequeued entries form a sub-bag of the queue |
| ExpiryDriver.MinOrderLeavesLater | src/timed-map/ticker-map.ts:24-26 | every entry left in the queue has a priority no smaller than every dequeued entry, which is the premise of the early break |
| ExpiryDriver.MinOrderLastAbove | src/timed-map/ticker-map.ts:15-16 | the last dequeued entry is no smaller than any entry dequeued before it |
| ExpiryDriver.SortedExtend | src/timed-map/ticker-map.ts:15-16 | a sorted order stays sorted when an entry no smaller than all of it is added |
| ExpiryDriver.MinOrderSorted | src/timed-map/ticker-map.ts:15-16 | entries come out of the queue in non-decreasing priority |
| ExpiryDriver.MinOrderFacts | src/timed-map/ticker-map.ts:15-26 | the three facts above about a min-extraction order, together |
| ExpiryDriver.MinOrder | src/timed-map/ticker-map.ts:15-16 | a sequence of entries that successive dequeues can return: each is of least priority among those still left |
| ExpiryDriver.Due | src/timed-map/ticker-map.ts:20-23 | an entry fires only when its key has a record and now > the record's timestamp (the put-back test is now <= timestamp) |
| ExpiryDriver.Passed | src/timed-map/ticker-map.ts:20-22 | the loop goes on past an entry that is stale (no record) or due |
| ExpiryDriver.Fires | src/timed-map/ticker-map.ts:16-33 | the callbacks a tick runs are at most one per dequeued entry; each is for a dequeued entry whose key has a record with timestamp < now, and each is that record's callback; none runs iff no dequeued entry is due; all run when all are due |
| ExpiryDriver.FiresStep | src/timed-map/ticker-map.ts:29-33 | dequeuing one more entry appends its record's callback exactly when it is due |
| ExpiryDriver.FiresBelow | src/timed-map/ticker-map.ts:29-33 | no callback run is for an entry of higher priority than a bound on all the dequeued entries |
| ExpiryDriver.FiresInOrder | src/timed-map/ticker-map.ts:15-33 | when entries are dequeued in priority order, callbacks run in non-decreasing priority of the dequeued entry, which need not be the order of the records' timestamps |
| ExpiryDriver.DrainPassed | src/timed-map/ticker-map.ts:18-22 | a stale entry (no record) or a due entry is passed over and the tick goes on with one entry fewer |
| ExpiryDriver.DrainStopped | src/timed-map/ticker-map.ts:23-26 | an entry whose record has now <= timestamp ends the tick, and its key is put back with the record's timestamp, not the dequeued priority |
| ExpiryDriver.DrainExhausted | src/timed-map/ticker-map.ts:15 | a tick that empties the queue has dequeued all of it, each entry stale or due |
| ExpiryDriver.Exhausted | src/timed-map/ticker-map.ts:15 | a tick that ended on an empty queue: all of the queue was dequeued and each entry was stale or due |
| ExpiryDriver.Stopped | src/timed-map/ticker-map.ts:23-26 | a tick that ended at its last dequeued entry, whose record is not yet due, with that key put back at the record's timestamp |
| ExpiryDriver.TickRun | src/timed-map/ticker-map.ts:15-34 | a whole tick: min-extraction order, every entry but the last stale or due, and an Exhausted or Stopped ending |
| ExpiryDriver.TickShrinksQueue | src/timed-map/ticker-map.ts:15-26 | a tick never makes the queue longer, and it puts back at most the one entry it stopped at |
| ExpiryDriver.DeletedKeyNeverFires | src/timed-map/ticker-map.ts:69-72 | after delete(k), no tick runs k's callback, whatever entries for k are still queued |
| ExpiryDriver.UnqueuedKeyNeverFires | src/timed-map/ticker-map.ts:15-26 | a key with no queue entry is never fired by a tick and has no entry after it |
| ExpiryDriver.RunOnce | src/timed-map/ticker-map.ts:16-33 | the intended tick over a dequeue order: an entry runs the callback of its key's remaining record if that is due, and the record is then removed |
| ExpiryDriver.Remaining | src/timed-map/ticker-map.ts:16-33 | the records left by the intended tick |
| ExpiryDriver.FiresOnce | src/timed-map/ticker-map.ts:16-33 | the callbacks run by the intended tick |
| ExpiryDriver.FiresOnceStep | src/timed-map/ticker-map.ts:29-33 | in the intended tick, one more dequeued entry runs its callback and loses its record exactly when its remaining record is due |
| ExpiryDriver.FiresOnceFacts | src/timed-map/ticker-map.ts:16-33 | the intended tick runs callbacks only for dequeued entries due in the original records, each with that record's callback, never the same key twice, and exactly the fired keys lose their records |
| ExpiryDriver.DueEntriesFire | src/timed-map/ticker-map.ts:23-33 | in the intended tick, every dequeued entry whose record was due has fired: its key has no record left |
| ExpiryDriver.FiresOnceWithoutRepeats | src/timed-map/ticker-map.ts:16-33 | when no key is dequeued twice, the intended tick runs exactly the callbacks the tick as written runs |
| ExpiryDriver.ExhaustedOnce | src/timed-map/ticker-map.ts:15 | an intended tick that emptied the queue, each entry stale or due when dequeued |
| ExpiryDriver.StoppedOnce | src/timed-map/ticker-map.ts:23-26 | an intended tick that stopped at a key whose remaining record is not yet due, putting it back at that record's timestamp |
| ExpiryDriver.TickRunOnce | src/timed-map/ticker-map.ts:15-34 | a whole intended tick: min-extraction order, every entry but the last stale or due when dequeued, and an exhausted or stopped ending |
| ExpiryDriver.DrainOncePassed | src/timed-map/ticker-map.ts:18-22 | in the intended tick, a stale or due entry is passed over and the tick goes on with one entry fewer |
| ExpiryDriver.DrainOnceStopped | src/timed-map/ticker-map.ts:23-26 | in the intended tick, an entry whose remaining record is not yet due ends the tick and is put back at that record's timestamp |
| ExpiryDriver.DrainOnceExhausted | src/timed-map/ticker-map.ts:15 | an intended tick that empties the queue has dequeued all of it |
| TickerMapModel.TickerMap.constructor | src/timed-map/ticker-map.ts:5-12 | a new TickerMap has no entries, no records and an empty queue |
| TickerMapModel.TickerMap.GetTimeout | src/timed-map/ticker-map.ts:74-76 | returns the key's record when it has one and nothing otherwise |
| TickerMapModel.TickerMap.GetTimeouts | src/timed-map/ticker-map.ts:78-80 | returns a map with the same keys and the same record for each key |
| TickerMapModel.TickerMap.SetTimer | src/timed-map/ticker-map.ts:55-67 | the new records and queue are exactly TimerIndex.SetTimer of the old ones; the entries are untouched |
| TickerMapModel.TickerMap.Delete | src/timed-map/ticker-map.ts:69-72 | the new records and queue are TimerIndex.Delete of the old ones; the key leaves the map; the result is whether the map had the key |
| TickerMapModel.TickerMap.Dequeue | src/timed-map/ticker-map.ts:16 | returns an entry of least priority and removes exactly one copy of it from the queue |
| TickerMapModel.TickerMap.Tick | src/timed-map/ticker-map.ts:15-34 | the loop ends, leaves every record as it was, dequeues in min-extraction order, passes every entry but the last, and ends exhausted or stopped at the first not-yet-due key; the callbacks run are exactly Fires of the dequeued entries, in non-decreasing priority of the dequeued entry; a callback that throws does not change which callbacks run |
| TickerMapModel.TickerMap.SetTimerCorrected | src/timed-map/ticker-map.ts:55-67 | the corrected setTimer, proved to keep every recorded key scheduled |
| TickerMapModel.TickerMap.TickCorrected | src/timed-map/ticker-map.ts:15-34 | the corrected tick: it dequeues in min-extraction order and ends as TickRunOnce says, exhausted or stopped at the first key whose remaining record is not yet due; the callbacks run are exactly FiresOnce of the dequeued entries and the records left are Remaining of them; so only due callbacks run, no key twice, exactly the fired keys lose their records, and every recorded key stays scheduled if it was; no precondition, so it runs on any index, including one the as-written setTimer or tick left with a recorded key that has no entry |
| TickerMapModel.TickerMap.DrainCorrected | src/timed-map/ticker-map.ts:15-34 | the loop of the corrected tick, which TickCorrected calls: it ends as TickRunOnce says, with the records Remaining and the callbacks FiresOnce of the dequeued entries; when the ghost flag sch is true the index is Scheduled on entry and stays Scheduled |
| TickerScenarios.TwoEntryOrders | src/timed-map/ticker-map.ts:16 | a queue of two entries with distinct priorities is dequeued smaller first |
| TickerScenarios.FirstTickOfTwo | src/timed-map/ticker-map.ts:15-34 | with a at 500 and b at 1500, a tick at 1000 dequeues a then b, runs only a's callback, and leaves b queued |
| TickerScenarios.FirstTickFires | src/timed-map/ticker-map.ts:23-33 | of a at 500 and b at 1500, only a's callback runs at 1000 |
| TickerScenarios.SingleDueEntryFires | src/timed-map/ticker-map.ts:15-34 | a tick on one due entry runs its record's callback once and empties the queue |
| TickerScenarios.SingleNotDueEntryWaits | src/timed-map/ticker-map.ts:23-26 | a tick on one entry that is not yet due runs nothing and re-queues the key at its record's timestamp |
| TickerScenarios.SecondTickOfTwo | src/timed-map/ticker-map.ts:15-34 | the tick at 2000 runs b's callback and empties the queue |
| TickerScenarios.TwoKeysState | src/timed-map/ticker-map.ts:55-67 | the index after a is set to 500 and b to 1500 at time 0 |
| TickerScenarios.TwoKeysFireInTimestampOrder | src/timed-map/ticker-map.ts:15-67 | a set to 500 and b set to 1500 at time 0: the tick at 1000 runs only a's callback, and the tick at 2000 runs b's |
| TickerScenarios.LaterRescheduleOfOneState | src/timed-map/ticker-map.ts:59-66 | setting a key to 10 and then 20 keeps one entry at 10 and records 20 |
| TickerScenarios.LaterRescheduleHonoured | src/timed-map/ticker-map.ts:23-26 | a key moved from 10 to 20 does not fire at 15; it is re-queued at 20 and fires once, with the new callback, at 25 |
| TickerScenarios.EarlierRescheduleIsLost | src/timed-map/ticker-map.ts:60-61 | a key set to 10 and then to 5 has a record but an empty queue, so no tick ever runs its callback |
| TickerScenarios.FiredKeyRescheduleIsLost | src/timed-map/ticker-map.ts:29-33 | with a key set to 5 at time 0 and a tick at 6 that fires it, the key keeps its record, so setting it again to 20 at 6 leaves it recorded with no queue entry |
| TickerScenarios.DeleteThenSetFiresTwice | src/timed-map/ticker-map.ts:69-72 | a key set to 5, deleted and set to 6 (all at time 0) has entries at 5 and 6, and a tick at 10 runs its callback twice |
| TickerScenarios.NotDueHeadStops | src/timed-map/ticker-map.ts:23-26 | when the least of two entries is not yet due, the tick stops at it and runs nothing, even if the other entry is due |
| TickerScenarios.StaleHeadState | src/timed-map/ticker-map.ts:59-66 | the index after a is set to 10 and moved to 100, and b is set to 20 |
| TickerScenarios.DueKeyBehindRescheduledKeyWaits | src/timed-map/ticker-map.ts:23-26 | a's stale entry at 10 stops the tick at 50, so b, which is due at 20, waits for the next tick |
| TickerScenarios.BothDueFire | src/timed-map/ticker-map.ts:15-33 | a tick on two due entries of distinct priorities runs both callbacks, the smaller entry's first, and empties the queue |
| TickerScenarios.StaleEarlierHeadState | src/timed-map/ticker-map.ts:59-66 | the index after a is set to 10 and moved to 30, and b is set to 20 |
| TickerScenarios.FiresByEntryNotByTimestamp | src/timed-map/ticker-map.ts:15-33 | with a set to 10 and moved to 30 and b set to 20, a tick at 50 runs a's callback before b's although a's record is the later one: callbacks follow the dequeued entries' priorities, not the records' timestamps |
| TickerScenarios.EarlierRescheduleKeptCorrected | src/timed-map/ticker-map.ts:60-61 | with the corrected setTimer, a key set to 10 and then to 5 is queued at 5 and every key stays scheduled |
| TickerScenarios.SingleDueEntryFiresOnce | src/timed-map/ticker-map.ts:15-34 | an intended tick on one due entry runs its callback, removes its record and empties the queue |
| TickerScenarios.OneKeyState | src/timed-map/ticker-map.ts:59-66 | setting one key to 5 at time 0 records it and queues (k, 5) |
| TickerScenarios.NewKeyEnqueued | src/timed-map/ticker-map.ts:62-63 | on the empty index, setting a key to 20 at time 6 enqueues it at 20 |
| TickerScenarios.FiredKeyRescheduleKeptCorrected | src/timed-map/ticker-map.ts:29-33 | with the corrected tick, a key that fired at 6 has no record left, so setting it again to 20 enqueues it |
| TickerScenarios.DeleteThenSetState | src/timed-map/ticker-map.ts:55-72 | set to 5, delete and set to 6 leaves one record at 6 and two entries, at 5 and 6 |
| TickerScenarios.OneKeyFiresOnce | src/timed-map/ticker-map.ts:16-33 | when every dequeued entry is for one key and the first is due, the intended tick runs the callback exactly once |
| TickerScenarios.DeleteThenSetFiresOnceCorrected | src/timed-map/ticker-map.ts:16-33 | with the corrected tick, set, delete and set again runs the callback once at 10 |

## Left out

- The `setInterval` that runs the tick once a second, `clearInterval`, and `dispose` (src/timed-map/ticker-map.ts:14, 35, 41-43). These are host timer plumbing. `Tick` models one run of the callback.
- `await` on a callback, and registrations or a second tick that interleave while a tick is suspended (src/timed-map/ticker-map.ts:30); the interval at src/timed-map/ticker-map.ts:14-35 starts a new tick every 1000 ms whether or not the previous one has finished. Each callback invocation is one atomic step.
- `console.error` (src/timed-map/ticker-map.ts:32). A callback's failure is a nondeterministic boolean, returned in `failed` and otherwise ignored.
- `Date.now()` is a parameter `now`. The source reads the clock again on each iteration of the loop (src/timed-map/ticker-map.ts:23). The model uses one `now` for the whole tick, so a clock that advances during a tick is not modelled.
- GetTimeout: returns the record as a value. The source returns the live record object (src/timed-map/ticker-map.ts:75), so a caller can change its timestamp or callback without the queue seeing the change. That aliasing is not modelled.
- `lodash.clonedeep` (src/timed-map/ticker-map.ts:79). The records are values, so `GetTimeouts` returns the map itself, which shares nothing with the field.
- The heap inside `MinPriorityQueue` (src/timed-map/ticker-map.ts:1, 8), which is not part of this model. The queue is a bag with least-priority extraction and any tie-break. Its array order and its complexity bounds are not modelled.
- The inherited `Map` get/set/has/iteration operations. They hold no scheduling logic. Only `delete`, which `TickerMap` overrides, touches `entries`.
- JavaScript numbers are modelled as unbounded integers. Fractional and non-finite timestamps are not modelled.
- Callbacks are opaque values of type `C`. The work a callback does is not modelled; in particular a callback that calls `delete` on its own key is not, and both rows under "## Findings" about ticker-map.ts:29-33 and :16-33 assume a callback that does not delete its key.
- The key comparison `element.item == key` (src/timed-map/ticker-map.ts:61) is modelled as equality on `K`. JavaScript's loose-equality coercions are not modelled.

## Findings

| source | as written | input that shows it | evidently intended | confidence | as-written member | corrected member |
|---|---|---|---|---|---|---|
| src/timed-map/ticker-map.ts:60-61 | an earlier timestamp removes the key's queue entries and enqueues nothing, while the record is kept | setTimer(k, 10), then setTimer(k, 5) at time 0: the queue is empty, k is recorded, and no tick ever runs its callback | remove the old entries and enqueue (k, 5) | high (not executed) | TickerScenarios.EarlierRescheduleIsLost | TimerIndex.SetTimerCorrectedKeepsScheduled |
| src/timed-map/ticker-map.ts:29-33 | a fired key keeps its record, so a later setTimer on it takes the "same or later" branch and enqueues nothing | setTimer(k, 5) at 0, a tick at 6 fires k, then setTimer(k, 20) at 6, with a callback that does not delete k: k is recorded at 20 with no queue entry and never fires again | clear the record once its callback has run | high (not executed) | TickerScenarios.FiredKeyRescheduleIsLost | TickerMapModel.TickerMap.TickCorrected |
| src/timed-map/ticker-map.ts:16-33 | every queue entry of a key whose record is due runs the callback, including a stale duplicate left behind by delete | setTimer(k, 5), delete(k), setTimer(k, 6) at 0, then a tick at 10, with a callback that does not delete k: the callback runs twice | each key fires at most once per registration | high (not executed) | TickerScenarios.DeleteThenSetFiresTwice | TickerMapModel.TickerMap.TickCorrected |
