/**
 The timer index of a TickerMap, as values: the per-key timeout records and the
 entries of the min-priority queue, and what `setTimer` and `delete` do to them.

 Times are integers (milliseconds since the epoch); the clock is a parameter `now`.
 Callbacks are opaque values of type C.
 */
module TimerIndex {

  datatype Option<T> = None | Some(value: T)

  /** The record kept for a key: the ttl computed when it was set, the absolute
      expiry timestamp, and the callback to run when it expires. */
  datatype TimeoutInfo<C> = TimeoutInfo(ttl: int, timestamp: int, callback: C)

  /** An entry of the priority queue: a key and the priority it was enqueued with. */
  datatype QueueInfo<K> = QueueInfo(item: K, priority: int)

  /** The two fields of the timer index. The queue is a bag of entries; the order of
      the sequence means nothing. */
  datatype State<K, C> = State(timeouts: map<K, TimeoutInfo<C>>, minQ: seq<QueueInfo<K>>)

  /** Some entry of the queue is for key `k`. */
  predicate HasEntry<K(==, !new)>(q: seq<QueueInfo<K>>, k: K)
  {
    exists i :: 0 <= i < |q| && q[i].item == k
  }

  /** The queue holds an entry for `k` with priority no later than `timestamp`. */
  ghost predicate KeyScheduled<K(!new)>(q: seq<QueueInfo<K>>, k: K, timestamp: int)
  {
    exists i :: 0 <= i < |q| && q[i].item == k && q[i].priority <= timestamp
  }

  /** Every key with a record has a queue entry no later than its timestamp, so a
      tick will dequeue it no later than it is due and look at its record. */
  ghost predicate Scheduled<K(!new), C>(s: State<K, C>)
  {
    forall k :: k in s.timeouts ==> KeyScheduled(s.minQ, k, s.timeouts[k].timestamp)
  }

  /** A queue that keeps every entry for `k` keeps `k` scheduled. */
  lemma KeyScheduledKept<K(!new)>(q: seq<QueueInfo<K>>, q': seq<QueueInfo<K>>, k: K, timestamp: int)
    requires KeyScheduled(q, k, timestamp)
    requires forall e: QueueInfo<K> :: e.item == k ==> multiset(q)[e] <= multiset(q')[e]
    ensures KeyScheduled(q', k, timestamp)
  {
    var i :| 0 <= i < |q| && q[i].item == k && q[i].priority <= timestamp;
    var e := q[i];
    assert e in multiset(q);
    assert e in multiset(q');
    var j :| 0 <= j < |q'| && q'[j] == e;
  }

  /** Taking one entry `d` out of the queue keeps every other key scheduled. */
  lemma TakeKeepsOthersScheduled<K(!new), C>(s: State<K, C>, q': seq<QueueInfo<K>>, d: QueueInfo<K>)
    requires Scheduled(s)
    requires multiset(q') == multiset(s.minQ) - multiset{d}
    ensures forall k :: k in s.timeouts && k != d.item ==> KeyScheduled(q', k, s.timeouts[k].timestamp)
  {
    forall k | k in s.timeouts && k != d.item
      ensures KeyScheduled(q', k, s.timeouts[k].timestamp)
    {
      KeyScheduledKept(s.minQ, q', k, s.timeouts[k].timestamp);
    }
  }

  /** Adding an entry keeps every key scheduled that was. */
  lemma AppendKeepsScheduled<K(!new)>(q: seq<QueueInfo<K>>, x: QueueInfo<K>, k: K, timestamp: int)
    requires KeyScheduled(q, k, timestamp)
    ensures KeyScheduled(q + [x], k, timestamp)
  {
    var i :| 0 <= i < |q| && q[i].item == k && q[i].priority <= timestamp;
    assert (q + [x])[i] == q[i];
  }

  /** A queue that schedules every key but `key`, which has no record, schedules all. */
  lemma OthersScheduled<K(!new), C>(t: map<K, TimeoutInfo<C>>, q: seq<QueueInfo<K>>, key: K)
    requires key !in t
    requires forall k :: k in t && k != key ==> KeyScheduled(q, k, t[k].timestamp)
    ensures Scheduled(State(t, q))
  {
  }

  /** Putting `key` back at its record's timestamp schedules it, and keeps every other
      key scheduled that was. */
  lemma PutBackScheduled<K(!new), C>(t: map<K, TimeoutInfo<C>>, q: seq<QueueInfo<K>>, key: K)
    requires key in t
    requires forall k :: k in t && k != key ==> KeyScheduled(q, k, t[k].timestamp)
    ensures Scheduled(State(t, q + [QueueInfo(key, t[key].timestamp)]))
  {
    var back := QueueInfo(key, t[key].timestamp);
    var q' := q + [back];
    forall k | k in t
      ensures KeyScheduled(q', k, t[k].timestamp)
    {
      if k == key {
        assert q'[|q|] == back;
      } else {
        AppendKeepsScheduled(q, back, k, t[k].timestamp);
      }
    }
  }

  /** The queue's `remove(element => element.item == key)`: drops every entry for `k`
      and keeps every other entry with its multiplicity. */
  function RemoveKey<K(==, !new)>(q: seq<QueueInfo<K>>, k: K): (r: seq<QueueInfo<K>>)
    ensures forall e :: multiset(r)[e] == if e.item == k then 0 else multiset(q)[e]
    ensures !HasEntry(r, k)
  {
    if q == [] then []
    else
      var rest := RemoveKey(q[1..], k);
      assert q == [q[0]] + q[1..];
      var r := (if q[0].item == k then [] else [q[0]]) + rest;
      assert forall i :: 0 <= i < |r| ==> r[i] in multiset(r);
      r
  }

  /** `setTimer(key, timestamp, callback)` called at time `now`, as written: an earlier
      timestamp than the existing record's removes the key's queue entries and enqueues
      nothing; a new key is enqueued; otherwise the queue is left as it is. The record
      is overwritten in every case. */
  function SetTimer<K(==, !new), C>(s: State<K, C>, key: K, timestamp: int, callback: C, now: int): State<K, C>
  {
    var ttl := timestamp - now;
    var q :=
      if key in s.timeouts && timestamp < s.timeouts[key].timestamp then RemoveKey(s.minQ, key)
      else if key !in s.timeouts then s.minQ + [QueueInfo(key, timestamp)]
      else s.minQ;
    State(s.timeouts[key := TimeoutInfo(ttl, timestamp, callback)], q)
  }

  /** `delete(key)`: the record goes, the queue is left alone. */
  function Delete<K(==, !new), C>(s: State<K, C>, key: K): State<K, C>
  {
    State(s.timeouts - {key}, s.minQ)
  }

  /** `setTimer` as evidently intended: an earlier timestamp removes the key's
      entries and then enqueues the key at the new timestamp. */
  function SetTimerCorrected<K(==, !new), C>(s: State<K, C>, key: K, timestamp: int, callback: C, now: int): State<K, C>
  {
    var ttl := timestamp - now;
    var q :=
      if key in s.timeouts && timestamp < s.timeouts[key].timestamp then RemoveKey(s.minQ, key) + [QueueInfo(key, timestamp)]
      else if key !in s.timeouts then s.minQ + [QueueInfo(key, timestamp)]
      else s.minQ;
    State(s.timeouts[key := TimeoutInfo(ttl, timestamp, callback)], q)
  }

  /** What `setTimer` does, case by case. */
  lemma SetTimerEffect<K(!new), C>(s: State<K, C>, key: K, timestamp: int, callback: C, now: int)
    ensures var r := SetTimer(s, key, timestamp, callback, now);
      && key in r.timeouts && r.timeouts[key] == TimeoutInfo(timestamp - now, timestamp, callback)
      && (forall k :: k != key ==> (k in r.timeouts <==> k in s.timeouts))
      && (forall k :: k != key && k in s.timeouts ==> r.timeouts[k] == s.timeouts[k])
      && (key !in s.timeouts ==> multiset(r.minQ) == multiset(s.minQ) + multiset{QueueInfo(key, timestamp)})
      && (key in s.timeouts && s.timeouts[key].timestamp <= timestamp ==> r.minQ == s.minQ)
      && (key in s.timeouts && timestamp < s.timeouts[key].timestamp ==>
            !HasEntry(r.minQ, key)
            && forall e: QueueInfo<K> :: e.item != key ==> multiset(r.minQ)[e] == multiset(s.minQ)[e])
  {
  }

  /** `delete` removes the key's record, touches no other record and leaves the queue. */
  lemma DeleteEffect<K(!new), C>(s: State<K, C>, key: K)
    ensures var r := Delete(s, key);
      && key !in r.timeouts
      && (forall k :: k != key ==> (k in r.timeouts <==> k in s.timeouts))
      && (forall k :: k != key && k in s.timeouts ==> r.timeouts[k] == s.timeouts[k])
      && r.minQ == s.minQ
  {
  }

  /** Deleting keeps every remaining key scheduled. */
  lemma DeleteKeepsScheduled<K(!new), C>(s: State<K, C>, key: K)
    requires Scheduled(s)
    ensures Scheduled(Delete(s, key))
  {
  }

  /** Dropping `key`'s entries (when it has a record) and appending an entry keeps
      every other key scheduled. */
  lemma RemoveKeyKeepsOthersScheduled<K(!new), C>(s: State<K, C>, key: K, added: QueueInfo<K>, k: K)
    requires Scheduled(s)
    requires k in s.timeouts && k != key
    ensures var q := if key in s.timeouts then RemoveKey(s.minQ, key) else s.minQ;
      KeyScheduled(q + [added], k, s.timeouts[k].timestamp)
  {
    var q := if key in s.timeouts then RemoveKey(s.minQ, key) else s.minQ;
    assert multiset(q + [added]) == multiset(q) + multiset{added};
    assert forall e: QueueInfo<K> :: e.item == k ==> multiset(s.minQ)[e] <= multiset(q + [added])[e];
    KeyScheduledKept(s.minQ, q + [added], k, s.timeouts[k].timestamp);
  }

  /** With the intended `setTimer`, every key with a record keeps a queue entry no
      later than its timestamp, and the key just set has one. */
  lemma SetTimerCorrectedKeepsScheduled<K(!new), C>(s: State<K, C>, key: K, timestamp: int, callback: C, now: int)
    requires Scheduled(s)
    ensures Scheduled(SetTimerCorrected(s, key, timestamp, callback, now))
  {
    var r := SetTimerCorrected(s, key, timestamp, callback, now);
    var added := QueueInfo(key, timestamp);
    if key in s.timeouts && s.timeouts[key].timestamp <= timestamp {
      assert r.minQ == s.minQ;
    } else {
      var q := if key in s.timeouts then RemoveKey(s.minQ, key) else s.minQ;
      assert r.minQ == q + [added];
      assert multiset(r.minQ) == multiset(q) + multiset{added};
      forall k | k in r.timeouts
        ensures KeyScheduled(r.minQ, k, r.timeouts[k].timestamp)
      {
        if k == key {
          assert r.minQ[|r.minQ| - 1] == added;
        } else {
          RemoveKeyKeepsOthersScheduled(s, key, added, k);
        }
      }
    }
  }

  /** The as-written `setTimer` with an earlier timestamp leaves a recorded key with
      no queue entry at all: no tick can ever dequeue it. */
  lemma EarlierRescheduleUnschedules<K(!new), C>(s: State<K, C>, key: K, timestamp: int, callback: C, now: int)
    requires key in s.timeouts && timestamp < s.timeouts[key].timestamp
    ensures var r := SetTimer(s, key, timestamp, callback, now);
      key in r.timeouts && !HasEntry(r.minQ, key) && !Scheduled(r)
  {
    var r := SetTimer(s, key, timestamp, callback, now);
    assert key in r.timeouts;
  }

  /** Once a recorded key has no queue entry, `setTimer` on it (at any timestamp) or on
      another key, and `delete` of another key, never give it one back: only deleting
      the key itself and setting it anew does. */
  lemma UnqueuedKeyStaysUnqueued<K(!new), C>(s: State<K, C>, k: K, key: K, timestamp: int, callback: C, now: int)
    requires k in s.timeouts && !HasEntry(s.minQ, k)
    ensures var r := SetTimer(s, key, timestamp, callback, now);
      k in r.timeouts && !HasEntry(r.minQ, k)
    ensures key != k ==> var r := Delete(s, key); k in r.timeouts && !HasEntry(r.minQ, k)
  {
  }
}
