/**
 The TickerMap class: a map whose keys can carry an expiry timer. Its fields are
 the entries of the map it extends, the timeout records and the min-priority queue;
 `setTimer`, `delete` and the interval callback's tick update them in place.

 The clock is the parameter `now`; the interval that calls `Tick` once a second and
 `dispose` are not part of this model.
 */
module TickerMapModel {
  import opened TimerIndex
  import opened ExpiryDriver

  class TickerMap<K(==, !new), V, C> {
    /** The contents of the Map the class extends. */
    var entries: map<K, V>
    /** `timeouts`: the current record for each key with a timer. */
    var timeouts: map<K, TimeoutInfo<C>>
    /** `minQ`: the entries of the min-priority queue, a bag of entries; the order of
        the sequence means nothing. */
    var minQ: seq<QueueInfo<K>>

    /** The timer index as a value. */
    ghost function Snapshot(): State<K, C>
      reads this
    {
      State(timeouts, minQ)
    }

    constructor ()
      ensures entries == map[] && timeouts == map[] && minQ == []
    {
      entries := map[];
      timeouts := map[];
      minQ := [];
    }

    /** `getTimeout(key)`: the key's record, or nothing. */
    function GetTimeout(key: K): (r: Option<TimeoutInfo<C>>)
      reads this
      ensures r.Some? <==> key in timeouts
      ensures r.Some? ==> r.value == timeouts[key]
    {
      if key in timeouts then Some(timeouts[key]) else None
    }

    /** `getTimeouts()`: a copy of every record. Maps are values, so the copy shares
        nothing with the field. */
    function GetTimeouts(): (r: map<K, TimeoutInfo<C>>)
      reads this
      ensures r.Keys == timeouts.Keys
      ensures forall k :: k in r ==> r[k] == timeouts[k]
    {
      timeouts
    }

    /** `setTimer(key, timestamp, callback)` at time `now`. */
    method SetTimer(key: K, timestamp: int, callback: C, now: int)
      modifies this`timeouts, this`minQ
      ensures Snapshot() == TimerIndex.SetTimer(old(Snapshot()), key, timestamp, callback, now)
    {
      var ttl := timestamp - now;
      var prev := GetTimeout(key);
      if prev.Some? && timestamp < prev.value.timestamp {
        minQ := RemoveKey(minQ, key);
      } else if prev.None? {
        minQ := minQ + [QueueInfo(key, timestamp)];
      }
      timeouts := timeouts[key := TimeoutInfo(ttl, timestamp, callback)];
    }

    /** `delete(key)`: drops the key's record, leaves its queue entries to be discarded
        when dequeued, and returns what the Map's own delete returns: whether the key
        had an entry, not whether it had a timer. */
    method Delete(key: K) returns (deleted: bool)
      modifies this`entries, this`timeouts
      ensures Snapshot() == TimerIndex.Delete(old(Snapshot()), key)
      ensures entries == old(entries) - {key}
      ensures deleted == (key in old(entries))
    {
      timeouts := timeouts - {key};
      deleted := key in entries;
      entries := entries - {key};
    }

    /** `minQ.dequeue()`: takes out an entry of least priority (any one, on a tie). */
    method Dequeue() returns (earliest: QueueInfo<K>)
      requires minQ != []
      modifies this`minQ
      ensures IsMin(earliest, multiset(old(minQ)))
      ensures multiset(minQ) == multiset(old(minQ)) - multiset{earliest}
      ensures |minQ| == |old(minQ)| - 1
    {
      var q := minQ;
      MinExists(q);
      var i :| 0 <= i < |q| && LeastAt(q, i);
      earliest := q[i];
      TakeAt(q, i);
      minQ := q[..i] + q[i + 1..];
    }

    /** One run of the interval callback at time `now`. It returns the callbacks it
        ran and, for each, whether it threw; a throw is logged and the loop goes on. */
    method Tick(now: int) returns (fired: seq<Firing<K, C>>, failed: seq<bool>, ghost order: seq<QueueInfo<K>>)
      modifies this`minQ
      ensures timeouts == old(timeouts)
      ensures TickRun(multiset(old(minQ)), timeouts, now, order, multiset(minQ))
      ensures fired == Fires(order, timeouts, now)
      ensures FiredInOrder(fired)
      ensures |failed| == |fired|
    {
      fired, failed, order := [], [], [];
      ghost var q0 := multiset(minQ);
      ghost var stopped := false;
      while minQ != []
        invariant timeouts == old(timeouts)
        invariant Draining(q0, timeouts, now, order, multiset(minQ))
        invariant fired == Fires(order, timeouts, now)
        invariant |failed| == |fired|
        invariant !stopped
        decreases |minQ|
      {
        ghost var rest := multiset(minQ);
        var earliest := Dequeue();
        FiresStep(order, earliest, timeouts, now);
        var key := earliest.item;
        var timeout := GetTimeout(key);
        if timeout.None? {
          DrainPassed(q0, timeouts, now, order, rest, earliest);
          order := order + [earliest];
          continue;
        } else if now <= timeout.value.timestamp {
          minQ := minQ + [QueueInfo(key, timeout.value.timestamp)];
          DrainStopped(q0, timeouts, now, order, rest, earliest);
          order := order + [earliest];
          stopped := true;
          break;
        }
        DrainPassed(q0, timeouts, now, order, rest, earliest);
        order := order + [earliest];
        var threw: bool := *;
        fired := fired + [Firing(earliest, timeout.value.callback)];
        failed := failed + [threw];
      }
      if !stopped {
        DrainExhausted(q0, timeouts, now, order);
      }
      MinOrderSorted(q0, order);
      FiresInOrder(order, timeouts, now);
    }

    /** `setTimer` as evidently intended: an earlier timestamp re-enqueues the key at
        that timestamp after removing its old entries. */
    method SetTimerCorrected(key: K, timestamp: int, callback: C, now: int)
      modifies this`timeouts, this`minQ
      ensures Snapshot() == TimerIndex.SetTimerCorrected(old(Snapshot()), key, timestamp, callback, now)
      ensures Scheduled(old(Snapshot())) ==> Scheduled(Snapshot())
    {
      ghost var s := Snapshot();
      var ttl := timestamp - now;
      var prev := GetTimeout(key);
      if prev.Some? && timestamp < prev.value.timestamp {
        minQ := RemoveKey(minQ, key) + [QueueInfo(key, timestamp)];
      } else if prev.None? {
        minQ := minQ + [QueueInfo(key, timestamp)];
      }
      timeouts := timeouts[key := TimeoutInfo(ttl, timestamp, callback)];
      if Scheduled(s) {
        SetTimerCorrectedKeepsScheduled(s, key, timestamp, callback, now);
      }
    }

    /** The tick as evidently intended: a fired key's record is removed, so each key
        fires at most once per registration and a later `setTimer` enqueues it again. */
    method TickCorrected(now: int) returns (fired: seq<Firing<K, C>>, failed: seq<bool>, ghost order: seq<QueueInfo<K>>)
      modifies this`timeouts, this`minQ
      ensures TickRunOnce(multiset(old(minQ)), old(timeouts), now, order, multiset(minQ))
      ensures timeouts == Remaining(order, old(timeouts), now)
      ensures fired == FiresOnce(order, old(timeouts), now)
      ensures Scheduled(old(Snapshot())) ==> Scheduled(Snapshot())
      ensures timeouts == old(timeouts) - FiredKeys(fired)
      ensures forall j :: 0 <= j < |fired| ==>
        Due(fired[j].entry, old(timeouts), now) && fired[j].callback == old(timeouts)[fired[j].entry.item].callback
      ensures forall i, j :: 0 <= i < j < |fired| ==> fired[i].entry.item != fired[j].entry.item
      ensures |failed| == |fired|
    {
      fired, failed, order := DrainCorrected(now, Scheduled(Snapshot()));
      FiresOnceFacts(order, old(timeouts), now);
    }

    /** The loop of `TickCorrected`. The ghost flag `sch` says whether the index is
        scheduled on entry; when it is, the loop keeps it so. */
    method DrainCorrected(now: int, ghost sch: bool) returns (fired: seq<Firing<K, C>>, failed: seq<bool>, ghost order: seq<QueueInfo<K>>)
      requires sch ==> Scheduled(Snapshot())
      modifies this`timeouts, this`minQ
      ensures TickRunOnce(multiset(old(minQ)), old(timeouts), now, order, multiset(minQ))
      ensures timeouts == Remaining(order, old(timeouts), now)
      ensures fired == FiresOnce(order, old(timeouts), now)
      ensures sch ==> Scheduled(Snapshot())
      ensures |failed| == |fired|
    {
      fired, failed, order := [], [], [];
      ghost var q0 := multiset(minQ);
      ghost var t0 := timeouts;
      ghost var stopped := false;
      while minQ != []
        invariant sch ==> Scheduled(Snapshot())
        invariant timeouts == Remaining(order, t0, now)
        invariant DrainingOnce(q0, t0, now, order, multiset(minQ))
        invariant fired == FiresOnce(order, t0, now)
        invariant |failed| == |fired|
        invariant !stopped
        decreases |minQ|
      {
        ghost var s := Snapshot();
        ghost var rest := multiset(minQ);
        var earliest := Dequeue();
        if sch {
          TakeKeepsOthersScheduled(s, minQ, earliest);
        }
        FiresOnceStep(order, earliest, t0, now);
        var key := earliest.item;
        var timeout := GetTimeout(key);
        if timeout.None? {
          if sch {
            OthersScheduled(timeouts, minQ, key);
          }
          DrainOncePassed(q0, t0, now, order, rest, earliest);
          order := order + [earliest];
          continue;
        } else if now <= timeout.value.timestamp {
          if sch {
            PutBackScheduled(timeouts, minQ, key);
          }
          minQ := minQ + [QueueInfo(key, timeout.value.timestamp)];
          DrainOnceStopped(q0, t0, now, order, rest, earliest);
          order := order + [earliest];
          stopped := true;
          break;
        }
        DrainOncePassed(q0, t0, now, order, rest, earliest);
        order := order + [earliest];
        var threw: bool := *;
        fired := fired + [Firing(earliest, timeout.value.callback)];
        failed := failed + [threw];
        if sch {
          OthersScheduled(timeouts - {key}, minQ, key);
        }
        timeouts := timeouts - {key};
      }
      if !stopped {
        DrainOnceExhausted(q0, t0, now, order);
      }
    }
  }
}
