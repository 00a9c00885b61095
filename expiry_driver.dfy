/**
 What one tick of the TickerMap's interval callback may do, stated over values.

 The queue hands out entries in priority order (ties in any order): `MinOrder` says
 that a sequence of entries is one the min-queue could have dequeued. `TickRun` says
 how a tick that dequeued those entries ends, and `Fires` which callbacks it ran.
 */
module ExpiryDriver {
  import opened TimerIndex

  /** `e` is an entry of least priority in the bag `q`. */
  ghost predicate IsMin<K(!new)>(e: QueueInfo<K>, q: multiset<QueueInfo<K>>)
  {
    e in q && forall f :: f in q ==> e.priority <= f.priority
  }

  /** The entry at index `i` of the queue's array has the least priority in it. */
  predicate LeastAt<K>(q: seq<QueueInfo<K>>, i: int)
  {
    0 <= i < |q| && forall j :: 0 <= j < |q| ==> q[i].priority <= q[j].priority
  }

  /** A non-empty queue has an entry of least priority, so `dequeue` can always
      return one. */
  lemma {:induction false} MinExists<K>(q: seq<QueueInfo<K>>)
    requires q != []
    ensures exists i :: LeastAt(q, i)
    decreases |q|
  {
    if |q| == 1 {
      assert LeastAt(q, 0);
    } else {
      var tail := q[1..];
      MinExists(tail);
      var i :| LeastAt(tail, i);
      var m := if q[0].priority <= tail[i].priority then 0 else i + 1;
      forall j | 0 <= j < |q|
        ensures q[m].priority <= q[j].priority
      {
        if j > 0 { assert q[j] == tail[j - 1]; }
      }
      assert LeastAt(q, m);
    }
  }

  /** Taking out the entry at a least-priority index takes out a least entry of the
      bag, and exactly one copy of it. */
  lemma TakeAt<K(!new)>(q: seq<QueueInfo<K>>, i: nat)
    requires LeastAt(q, i)
    ensures IsMin(q[i], multiset(q))
    ensures multiset(q[..i] + q[i + 1..]) == multiset(q) - multiset{q[i]}
  {
    assert q == q[..i] + [q[i]] + q[i + 1..];
    forall f | f in multiset(q)
      ensures q[i].priority <= f.priority
    {
      var j :| 0 <= j < |q| && q[j] == f;
    }
  }

  /** `order` is a sequence of entries that successive dequeues could return from `q`:
      each one is of least priority among the entries still left. */
  ghost predicate MinOrder<K(!new)>(q: multiset<QueueInfo<K>>, order: seq<QueueInfo<K>>)
    decreases |order|
  {
    if order == [] then true
    else
      var n := |order| - 1;
      MinOrder(q, order[..n]) && IsMin(order[n], q - multiset(order[..n]))
  }

  /** Dequeuing one more least entry extends a min-extraction order. */
  lemma MinOrderStep<K(!new)>(q: multiset<QueueInfo<K>>, order: seq<QueueInfo<K>>, e: QueueInfo<K>)
    requires MinOrder(q, order) && multiset(order) <= q
    requires IsMin(e, q - multiset(order))
    ensures MinOrder(q, order + [e])
    ensures multiset(order + [e]) <= q
    ensures q - multiset(order + [e]) == q - multiset(order) - multiset{e}
  {
    assert (order + [e])[..|order|] == order;
    assert multiset(order + [e]) == multiset(order) + multiset{e};
  }

  /** The first entry dequeued is a least entry of the whole queue. */
  lemma {:induction false} MinOrderHead<K(!new)>(q: multiset<QueueInfo<K>>, order: seq<QueueInfo<K>>)
    requires MinOrder(q, order) && order != []
    ensures IsMin(order[0], q)
    decreases |order|
  {
    var n := |order| - 1;
    if n > 0 {
      MinOrderHead(q, order[..n]);
    }
  }

  ghost predicate Sorted<K>(order: seq<QueueInfo<K>>)
  {
    forall i, j :: 0 <= i < j < |order| ==> order[i].priority <= order[j].priority
  }

  /** Entries dequeued by min-extraction come from the queue. */
  lemma {:induction false} MinOrderFromQueue<K(!new)>(q: multiset<QueueInfo<K>>, order: seq<QueueInfo<K>>)
    requires MinOrder(q, order)
    ensures multiset(order) <= q
    decreases |order|
  {
    if order != [] {
      var n := |order| - 1;
      var pre := order[..n];
      MinOrderFromQueue(q, pre);
      assert order == pre + [order[n]];
      assert order[n] in q - multiset(pre);
    }
  }

  /** Nothing left behind by min-extraction has a smaller priority than any dequeued
      entry. */
  lemma {:induction false} MinOrderLeavesLater<K(!new)>(q: multiset<QueueInfo<K>>, order: seq<QueueInfo<K>>)
    requires MinOrder(q, order)
    ensures forall i, f :: 0 <= i < |order| && f in q - multiset(order) ==> order[i].priority <= f.priority
    decreases |order|
  {
    if order != [] {
      var n := |order| - 1;
      var pre := order[..n];
      var last := order[n];
      MinOrderLeavesLater(q, pre);
      assert order == pre + [last];
      forall i, f | 0 <= i < |order| && f in q - multiset(order)
        ensures order[i].priority <= f.priority
      {
        assert f in q - multiset(pre);
        if i < n {
          assert order[i] == pre[i];
        }
      }
    }
  }

  /** The last entry dequeued has no smaller priority than any entry dequeued before it. */
  lemma MinOrderLastAbove<K(!new)>(q: multiset<QueueInfo<K>>, order: seq<QueueInfo<K>>)
    requires MinOrder(q, order) && order != []
    ensures forall i :: 0 <= i < |order| - 1 ==> order[i].priority <= order[|order| - 1].priority
  {
    var n := |order| - 1;
    var pre := order[..n];
    var last := order[n];
    MinOrderLeavesLater(q, pre);
    assert last in q - multiset(pre);
    forall i | 0 <= i < n
      ensures order[i].priority <= last.priority
    {
      assert order[i] == pre[i];
    }
  }

  /** A sorted sequence stays sorted when an entry no smaller than all of it is added. */
  lemma SortedExtend<K>(order: seq<QueueInfo<K>>)
    requires order != []
    requires Sorted(order[..|order| - 1])
    requires forall i :: 0 <= i < |order| - 1 ==> order[i].priority <= order[|order| - 1].priority
    ensures Sorted(order)
  {
    var n := |order| - 1;
    var pre := order[..n];
    forall i, j | 0 <= i < j < |order|
      ensures order[i].priority <= order[j].priority
    {
      if j < n {
        assert order[i] == pre[i] && order[j] == pre[j];
      }
    }
  }

  /** Min-extraction hands out entries in non-decreasing priority. */
  lemma {:induction false} MinOrderSorted<K(!new)>(q: multiset<QueueInfo<K>>, order: seq<QueueInfo<K>>)
    requires MinOrder(q, order)
    ensures Sorted(order)
    decreases |order|
  {
    if order != [] {
      MinOrderSorted(q, order[..|order| - 1]);
      MinOrderLastAbove(q, order);
      SortedExtend(order);
    }
  }

  /** The facts about min-extraction a tick relies on, together. */
  lemma MinOrderFacts<K(!new)>(q: multiset<QueueInfo<K>>, order: seq<QueueInfo<K>>)
    requires MinOrder(q, order)
    ensures multiset(order) <= q
    ensures Sorted(order)
    ensures forall i, f :: 0 <= i < |order| && f in q - multiset(order) ==> order[i].priority <= f.priority
  {
    MinOrderFromQueue(q, order);
    MinOrderLeavesLater(q, order);
    MinOrderSorted(q, order);
  }

  /** The record for the entry's key exists and its timestamp has passed: the source
      fires only when `now > timestamp`. */
  predicate Due<K(==), C>(e: QueueInfo<K>, timeouts: map<K, TimeoutInfo<C>>, now: int)
  {
    e.item in timeouts && timeouts[e.item].timestamp < now
  }

  /** The tick goes on past this entry: it is stale (no record) or due. */
  predicate Passed<K(==), C>(e: QueueInfo<K>, timeouts: map<K, TimeoutInfo<C>>, now: int)
  {
    e.item !in timeouts || Due(e, timeouts, now)
  }

  /** One callback invocation: the dequeued entry and the record's callback. */
  datatype Firing<K, C> = Firing(entry: QueueInfo<K>, callback: C)

  /** The invocations a tick makes while dequeuing `order`: stale entries and the
      not-yet-due entry are skipped, every due entry runs its record's callback. */
  function Fires<K(==), C>(order: seq<QueueInfo<K>>, timeouts: map<K, TimeoutInfo<C>>, now: int): (r: seq<Firing<K, C>>)
    ensures |r| <= |order|
    ensures forall j :: 0 <= j < |r| ==>
      && r[j].entry in order
      && Due(r[j].entry, timeouts, now)
      && r[j].callback == timeouts[r[j].entry.item].callback
    ensures r == [] <==> forall i :: 0 <= i < |order| ==> !Due(order[i], timeouts, now)
    ensures (forall i :: 0 <= i < |order| ==> Due(order[i], timeouts, now)) ==> |r| == |order|
    decreases |order|
  {
    if order == [] then []
    else
      var n := |order| - 1;
      var e := order[n];
      var pre := Fires(order[..n], timeouts, now);
      assert forall j :: 0 <= j < |pre| ==> pre[j].entry in order by {
        assert forall x :: x in order[..n] ==> x in order;
      }
      assert (forall i :: 0 <= i < |order| ==> !Due(order[i], timeouts, now)) <==>
             (forall i :: 0 <= i < n ==> !Due(order[..n][i], timeouts, now)) && !Due(e, timeouts, now);
      pre + (if Due(e, timeouts, now) then [Firing(e, timeouts[e.item].callback)] else [])
  }

  /** Dequeuing one more entry adds its invocation, if it is due, at the end. */
  lemma FiresStep<K, C>(order: seq<QueueInfo<K>>, e: QueueInfo<K>, timeouts: map<K, TimeoutInfo<C>>, now: int)
    ensures Fires(order + [e], timeouts, now) ==
      Fires(order, timeouts, now) + (if Due(e, timeouts, now) then [Firing(e, timeouts[e.item].callback)] else [])
  {
    assert (order + [e])[..|order|] == order;
  }

  ghost predicate FiredInOrder<K, C>(fired: seq<Firing<K, C>>)
  {
    forall i, j :: 0 <= i < j < |fired| ==> fired[i].entry.priority <= fired[j].entry.priority
  }

  /** No invocation is for an entry of higher priority than every dequeued entry. */
  lemma {:induction false} FiresBelow<K, C>(order: seq<QueueInfo<K>>, timeouts: map<K, TimeoutInfo<C>>, now: int, p: int)
    requires forall i :: 0 <= i < |order| ==> order[i].priority <= p
    ensures forall j :: 0 <= j < |Fires(order, timeouts, now)| ==> Fires(order, timeouts, now)[j].entry.priority <= p
    decreases |order|
  {
    if order != [] {
      var n := |order| - 1;
      assert forall i :: 0 <= i < n ==> order[..n][i] == order[i];
      FiresBelow(order[..n], timeouts, now, p);
    }
  }

  /** Callbacks run in the order their entries were dequeued, so in non-decreasing
      priority of the dequeued entry when the entries were dequeued in that order;
      a stale entry's priority may lie below its record's timestamp. */
  lemma {:induction false} FiresInOrder<K, C>(order: seq<QueueInfo<K>>, timeouts: map<K, TimeoutInfo<C>>, now: int)
    requires Sorted(order)
    ensures FiredInOrder(Fires(order, timeouts, now))
    decreases |order|
  {
    if order != [] {
      var n := |order| - 1;
      var pre := order[..n];
      assert forall i :: 0 <= i < n ==> pre[i] == order[i];
      FiresInOrder(pre, timeouts, now);
      FiresBelow(pre, timeouts, now, order[n].priority);
    }
  }

  /** The tick emptied the queue: every dequeued entry was stale or due. */
  ghost predicate Exhausted<K(!new), C>(q0: multiset<QueueInfo<K>>, timeouts: map<K, TimeoutInfo<C>>, now: int,
                                        order: seq<QueueInfo<K>>, q1: multiset<QueueInfo<K>>)
  {
    && q1 == multiset{}
    && multiset(order) == q0
    && forall i :: 0 <= i < |order| ==> Passed(order[i], timeouts, now)
  }

  /** The tick stopped at its last dequeued entry, whose record is not yet due, and
      put that key back with the record's timestamp (not the dequeued priority). */
  ghost predicate Stopped<K(!new), C>(q0: multiset<QueueInfo<K>>, timeouts: map<K, TimeoutInfo<C>>, now: int,
                                      order: seq<QueueInfo<K>>, q1: multiset<QueueInfo<K>>)
  {
    && order != []
    && var last := order[|order| - 1];
    && last.item in timeouts
    && now <= timeouts[last.item].timestamp
    && q1 == q0 - multiset(order) + multiset{QueueInfo(last.item, timeouts[last.item].timestamp)}
  }

  /** A whole tick at time `now` on queue `q0` and records `timeouts`: it dequeues
      `order` in priority order, goes past every entry but the last one, and ends with
      the queue `q1` either exhausted or stopped at the first not-yet-due entry. */
  ghost predicate TickRun<K(!new), C>(q0: multiset<QueueInfo<K>>, timeouts: map<K, TimeoutInfo<C>>, now: int,
                                      order: seq<QueueInfo<K>>, q1: multiset<QueueInfo<K>>)
  {
    && MinOrder(q0, order)
    && (forall i :: 0 <= i < |order| - 1 ==> Passed(order[i], timeouts, now))
    && (Exhausted(q0, timeouts, now, order, q1) || Stopped(q0, timeouts, now, order, q1))
  }

  /** Part way through a tick: `order` has been dequeued from `q0` in priority order,
      every entry of it was stale or due, and `rest` is what is left in the queue. */
  ghost predicate Draining<K(!new), C>(q0: multiset<QueueInfo<K>>, timeouts: map<K, TimeoutInfo<C>>, now: int,
                                       order: seq<QueueInfo<K>>, rest: multiset<QueueInfo<K>>)
  {
    && MinOrder(q0, order)
    && multiset(order) <= q0
    && rest == q0 - multiset(order)
    && forall i :: 0 <= i < |order| ==> Passed(order[i], timeouts, now)
  }

  /** A tick that dequeues a stale or due entry goes on draining. */
  lemma DrainPassed<K(!new), C>(q0: multiset<QueueInfo<K>>, timeouts: map<K, TimeoutInfo<C>>, now: int,
                                order: seq<QueueInfo<K>>, rest: multiset<QueueInfo<K>>, e: QueueInfo<K>)
    requires Draining(q0, timeouts, now, order, rest)
    requires IsMin(e, rest) && Passed(e, timeouts, now)
    ensures Draining(q0, timeouts, now, order + [e], rest - multiset{e})
  {
    MinOrderStep(q0, order, e);
  }

  /** A tick that dequeues an entry whose record is not yet due puts the key back at
      the record's timestamp and ends. */
  lemma DrainStopped<K(!new), C>(q0: multiset<QueueInfo<K>>, timeouts: map<K, TimeoutInfo<C>>, now: int,
                                 order: seq<QueueInfo<K>>, rest: multiset<QueueInfo<K>>, e: QueueInfo<K>)
    requires Draining(q0, timeouts, now, order, rest)
    requires IsMin(e, rest) && e.item in timeouts && now <= timeouts[e.item].timestamp
    ensures TickRun(q0, timeouts, now, order + [e],
                    rest - multiset{e} + multiset{QueueInfo(e.item, timeouts[e.item].timestamp)})
  {
    MinOrderStep(q0, order, e);
    var order' := order + [e];
    assert forall i :: 0 <= i < |order'| - 1 ==> order'[i] == order[i];
    assert order'[|order'| - 1] == e;
    assert Stopped(q0, timeouts, now, order', rest - multiset{e} + multiset{QueueInfo(e.item, timeouts[e.item].timestamp)});
  }

  /** A tick that empties the queue has dequeued all of it. */
  lemma DrainExhausted<K(!new), C>(q0: multiset<QueueInfo<K>>, timeouts: map<K, TimeoutInfo<C>>, now: int,
                                   order: seq<QueueInfo<K>>)
    requires Draining(q0, timeouts, now, order, multiset{})
    ensures TickRun(q0, timeouts, now, order, multiset{})
  {
    assert multiset(order) == q0 by {
      assert forall e :: q0[e] <= multiset(order)[e] by {
        forall e ensures q0[e] <= multiset(order)[e] {
          assert (q0 - multiset(order))[e] == 0;
        }
      }
    }
  }

  /** A tick never makes the queue longer: it puts back at most the one entry it
      stopped at, after dequeuing it. */
  lemma TickShrinksQueue<K(!new), C>(q0: multiset<QueueInfo<K>>, timeouts: map<K, TimeoutInfo<C>>, now: int,
                                     order: seq<QueueInfo<K>>, q1: multiset<QueueInfo<K>>)
    requires TickRun(q0, timeouts, now, order, q1)
    ensures |q1| <= |q0|
    ensures |q1| + |order| <= |q0| + 1
  {
    MinOrderFromQueue(q0, order);
    var m := multiset(order);
    assert q0 == (q0 - m) + m;
    assert |q0| == |q0 - m| + |order|;
  }

  /** After `delete(key)`, no tick runs the key's callback, whatever entries for it
      are still queued. */
  lemma DeletedKeyNeverFires<K(!new), C>(s: State<K, C>, key: K, now: int,
                                         order: seq<QueueInfo<K>>, q1: multiset<QueueInfo<K>>)
    requires var d := Delete(s, key); TickRun(multiset(d.minQ), d.timeouts, now, order, q1)
    ensures forall f :: f in Fires(order, Delete(s, key).timeouts, now) ==> f.entry.item != key
  {
  }

  /** A key with no queue entry is never fired by a tick and still has none after it. */
  lemma UnqueuedKeyNeverFires<K(!new), C>(q0: seq<QueueInfo<K>>, timeouts: map<K, TimeoutInfo<C>>, now: int,
                                          order: seq<QueueInfo<K>>, q1: multiset<QueueInfo<K>>, k: K)
    requires TickRun(multiset(q0), timeouts, now, order, q1)
    requires !HasEntry(q0, k)
    ensures forall f :: f in Fires(order, timeouts, now) ==> f.entry.item != k
    ensures forall e :: e in q1 ==> e.item != k
  {
    MinOrderFacts(multiset(q0), order);
    assert forall e :: e in order ==> e in multiset(q0);
    assert forall e :: e in multiset(q0) ==> e.item != k by {
      forall e | e in multiset(q0) ensures e.item != k {
        assert e in q0;
      }
    }
    forall e | e in q1 ensures e.item != k {
      if Stopped(multiset(q0), timeouts, now, order, q1) {
        var last := order[|order| - 1];
        assert last in order;
        assert e in multiset(q0) - multiset(order) || e.item == last.item;
      }
    }
  }

  /** The keys fired in a tick. */
  function FiredKeys<K, C>(fired: seq<Firing<K, C>>): set<K>
  {
    set j | 0 <= j < |fired| :: fired[j].entry.item
  }

  lemma FiredKeysSnoc<K, C>(fired: seq<Firing<K, C>>, f: Firing<K, C>)
    ensures FiredKeys(fired + [f]) == FiredKeys(fired) + {f.entry.item}
  {
    var r := fired + [f];
    assert forall j :: 0 <= j < |fired| ==> r[j] == fired[j];
    assert r[|fired|] == f;
  }

  // The tick as evidently intended: once a key's callback has run, its record is
  // removed, so the key fires at most once per registration.

  /** What the intended tick has done after dequeuing `order`: the invocations made
      and the records left. */
  datatype Outcome<K, C> = Outcome(fired: seq<Firing<K, C>>, remaining: map<K, TimeoutInfo<C>>)

  /** The intended tick dequeuing `order` from records `t`: an entry whose key's
      remaining record is due runs that record's callback, and the record goes. */
  function RunOnce<K(==), C>(order: seq<QueueInfo<K>>, t: map<K, TimeoutInfo<C>>, now: int): Outcome<K, C>
    decreases |order|
  {
    if order == [] then Outcome([], t)
    else
      var n := |order| - 1;
      var e := order[n];
      var o := RunOnce(order[..n], t, now);
      if Due(e, o.remaining, now) then
        Outcome(o.fired + [Firing(e, o.remaining[e.item].callback)], o.remaining - {e.item})
      else o
  }

  /** The records left after the intended tick has dequeued `order`. */
  function Remaining<K(==), C>(order: seq<QueueInfo<K>>, t: map<K, TimeoutInfo<C>>, now: int): map<K, TimeoutInfo<C>>
  {
    RunOnce(order, t, now).remaining
  }

  /** The invocations the intended tick makes while dequeuing `order`. */
  function FiresOnce<K(==), C>(order: seq<QueueInfo<K>>, t: map<K, TimeoutInfo<C>>, now: int): seq<Firing<K, C>>
  {
    RunOnce(order, t, now).fired
  }

  /** Dequeuing one more entry in the intended tick: if its key's remaining record is
      due, the callback runs and the record goes. */
  lemma FiresOnceStep<K, C>(order: seq<QueueInfo<K>>, e: QueueInfo<K>, t: map<K, TimeoutInfo<C>>, now: int)
    ensures var rest := Remaining(order, t, now);
      && Remaining(order + [e], t, now) == (if Due(e, rest, now) then rest - {e.item} else rest)
      && FiresOnce(order + [e], t, now) ==
           FiresOnce(order, t, now) + (if Due(e, rest, now) then [Firing(e, rest[e.item].callback)] else [])
  {
    assert (order + [e])[..|order|] == order;
  }

  /** What the intended tick fires: dequeued entries that were due, with their
      records' callbacks, no key twice; exactly the fired keys lose their records. */
  lemma {:induction false} FiresOnceFacts<K, C>(order: seq<QueueInfo<K>>, t: map<K, TimeoutInfo<C>>, now: int)
    ensures var r := FiresOnce(order, t, now);
      && Remaining(order, t, now) == t - FiredKeys(r)
      && (forall j :: 0 <= j < |r| ==>
            r[j].entry in order && Due(r[j].entry, t, now) && r[j].callback == t[r[j].entry.item].callback)
      && (forall i, j :: 0 <= i < j < |r| ==> r[i].entry.item != r[j].entry.item)
    decreases |order|
  {
    if order == [] {
      assert FiredKeys(FiresOnce(order, t, now)) == {};
    } else {
      var n := |order| - 1;
      var pre, e := order[..n], order[n];
      assert order == pre + [e];
      FiresOnceFacts(pre, t, now);
      FiresOnceStep(pre, e, t, now);
      var rp := FiresOnce(pre, t, now);
      var rest := Remaining(pre, t, now);
      assert forall j :: 0 <= j < |rp| ==> rp[j].entry in order by {
        assert forall x :: x in pre ==> x in order;
      }
      if Due(e, rest, now) {
        var f := Firing(e, rest[e.item].callback);
        FiredKeysSnoc(rp, f);
        assert e.item !in FiredKeys(rp);
        assert rest - {e.item} == t - (FiredKeys(rp) + {e.item}) by {
          assert (rest - {e.item}).Keys == (t - (FiredKeys(rp) + {e.item})).Keys;
        }
        assert forall i :: 0 <= i < |rp| ==> rp[i].entry.item in FiredKeys(rp);
        var r := rp + [f];
        assert FiresOnce(order, t, now) == r;
        assert Remaining(order, t, now) == t - FiredKeys(r);
        assert forall j :: 0 <= j < |r| ==> r[j].entry in order && Due(r[j].entry, t, now) && r[j].callback == t[r[j].entry.item].callback;
        assert forall i, j :: 0 <= i < j < |r| ==> r[i].entry.item != r[j].entry.item;
      } else {
        assert rp + [] == rp;
      }
    }
  }

  /** Without a repeated key among the dequeued entries, the intended tick fires
      exactly what the tick as written fires. */
  lemma {:induction false} FiresOnceWithoutRepeats<K, C>(order: seq<QueueInfo<K>>, t: map<K, TimeoutInfo<C>>, now: int)
    requires forall i, j :: 0 <= i < j < |order| ==> order[i].item != order[j].item
    ensures FiresOnce(order, t, now) == Fires(order, t, now)
    decreases |order|
  {
    if order != [] {
      var n := |order| - 1;
      var pre, e := order[..n], order[n];
      assert order == pre + [e];
      assert forall i, j :: 0 <= i < j < |pre| ==> pre[i].item != pre[j].item by {
        assert forall i :: 0 <= i < n ==> pre[i] == order[i];
      }
      FiresOnceWithoutRepeats(pre, t, now);
      FiresOnceFacts(pre, t, now);
      FiresOnceStep(pre, e, t, now);
      FiresStep(pre, e, t, now);
      var rp := FiresOnce(pre, t, now);
      assert e.item !in FiredKeys(rp) by {
        forall j | 0 <= j < |rp|
          ensures rp[j].entry.item != e.item
        {
          var i :| 0 <= i < |pre| && pre[i] == rp[j].entry;
          assert order[i] == pre[i];
        }
      }
    }
  }

  /** Every dequeued entry whose key's record was due has fired by the end of the
      intended tick: its key has no record left. */
  lemma {:induction false} DueEntriesFire<K, C>(order: seq<QueueInfo<K>>, t: map<K, TimeoutInfo<C>>, now: int)
    ensures forall i :: 0 <= i < |order| && Due(order[i], t, now) ==> order[i].item !in Remaining(order, t, now)
    decreases |order|
  {
    if order != [] {
      var n := |order| - 1;
      var pre, e := order[..n], order[n];
      assert order == pre + [e];
      DueEntriesFire(pre, t, now);
      FiresOnceFacts(pre, t, now);
      FiresOnceStep(pre, e, t, now);
      var rest := Remaining(pre, t, now);
      forall i | 0 <= i < |order| && Due(order[i], t, now)
        ensures order[i].item !in Remaining(order, t, now)
      {
        if i < n {
          assert order[i] == pre[i];
        }
      }
    }
  }

  /** The intended tick emptied the queue: every entry was stale or due when dequeued. */
  ghost predicate ExhaustedOnce<K(!new), C>(q0: multiset<QueueInfo<K>>, t: map<K, TimeoutInfo<C>>, now: int,
                                            order: seq<QueueInfo<K>>, q1: multiset<QueueInfo<K>>)
  {
    && q1 == multiset{}
    && multiset(order) == q0
    && forall i :: 0 <= i < |order| ==> Passed(order[i], Remaining(order[..i], t, now), now)
  }

  /** The intended tick stopped at its last entry, whose key's remaining record is not
      yet due, and put that key back at the record's timestamp. */
  ghost predicate StoppedOnce<K(!new), C>(q0: multiset<QueueInfo<K>>, t: map<K, TimeoutInfo<C>>, now: int,
                                          order: seq<QueueInfo<K>>, q1: multiset<QueueInfo<K>>)
  {
    && order != []
    && var n := |order| - 1;
    && var rest := Remaining(order[..n], t, now);
    && order[n].item in rest
    && now <= rest[order[n].item].timestamp
    && q1 == q0 - multiset(order) + multiset{QueueInfo(order[n].item, rest[order[n].item].timestamp)}
  }

  /** A whole intended tick: dequeues `order` in priority order, goes past every entry
      but the last one (stale or due when dequeued), and ends exhausted or stopped. */
  ghost predicate TickRunOnce<K(!new), C>(q0: multiset<QueueInfo<K>>, t: map<K, TimeoutInfo<C>>, now: int,
                                          order: seq<QueueInfo<K>>, q1: multiset<QueueInfo<K>>)
  {
    && MinOrder(q0, order)
    && (forall i :: 0 <= i < |order| - 1 ==> Passed(order[i], Remaining(order[..i], t, now), now))
    && (ExhaustedOnce(q0, t, now, order, q1) || StoppedOnce(q0, t, now, order, q1))
  }

  /** Part way through an intended tick. */
  ghost predicate DrainingOnce<K(!new), C>(q0: multiset<QueueInfo<K>>, t: map<K, TimeoutInfo<C>>, now: int,
                                           order: seq<QueueInfo<K>>, rest: multiset<QueueInfo<K>>)
  {
    && MinOrder(q0, order)
    && multiset(order) <= q0
    && rest == q0 - multiset(order)
    && forall i :: 0 <= i < |order| ==> Passed(order[i], Remaining(order[..i], t, now), now)
  }

  /** Earlier prefixes are unchanged when an entry is added at the end. */
  lemma PrefixesKept<K>(order: seq<QueueInfo<K>>, e: QueueInfo<K>)
    ensures forall i :: 0 <= i <= |order| ==> (order + [e])[..i] == order[..i]
    ensures forall i :: 0 <= i < |order| ==> (order + [e])[i] == order[i]
  {
    forall i | 0 <= i <= |order|
      ensures (order + [e])[..i] == order[..i]
    {
    }
  }

  /** An intended tick that dequeues a stale or due entry goes on draining. */
  lemma DrainOncePassed<K(!new), C>(q0: multiset<QueueInfo<K>>, t: map<K, TimeoutInfo<C>>, now: int,
                                    order: seq<QueueInfo<K>>, rest: multiset<QueueInfo<K>>, e: QueueInfo<K>)
    requires DrainingOnce(q0, t, now, order, rest)
    requires IsMin(e, rest) && Passed(e, Remaining(order, t, now), now)
    ensures DrainingOnce(q0, t, now, order + [e], rest - multiset{e})
  {
    MinOrderStep(q0, order, e);
    PrefixesKept(order, e);
  }

  /** An intended tick that dequeues an entry whose remaining record is not yet due
      puts the key back at the record's timestamp and ends. */
  lemma DrainOnceStopped<K(!new), C>(q0: multiset<QueueInfo<K>>, t: map<K, TimeoutInfo<C>>, now: int,
                                     order: seq<QueueInfo<K>>, rest: multiset<QueueInfo<K>>, e: QueueInfo<K>)
    requires DrainingOnce(q0, t, now, order, rest)
    requires var r := Remaining(order, t, now); IsMin(e, rest) && e.item in r && now <= r[e.item].timestamp
    ensures var r := Remaining(order, t, now);
      TickRunOnce(q0, t, now, order + [e], rest - multiset{e} + multiset{QueueInfo(e.item, r[e.item].timestamp)})
  {
    MinOrderStep(q0, order, e);
    PrefixesKept(order, e);
    var order' := order + [e];
    assert order'[|order'| - 1] == e;
    var r := Remaining(order, t, now);
    assert StoppedOnce(q0, t, now, order', rest - multiset{e} + multiset{QueueInfo(e.item, r[e.item].timestamp)});
  }

  /** An intended tick that empties the queue has dequeued all of it. */
  lemma DrainOnceExhausted<K(!new), C>(q0: multiset<QueueInfo<K>>, t: map<K, TimeoutInfo<C>>, now: int,
                                       order: seq<QueueInfo<K>>)
    requires DrainingOnce(q0, t, now, order, multiset{})
    ensures TickRunOnce(q0, t, now, order, multiset{})
  {
    assert multiset(order) == q0 by {
      forall e ensures q0[e] <= multiset(order)[e] {
        assert (q0 - multiset(order))[e] == 0;
      }
    }
  }
}
