/**
 Concrete runs of the timer index and the tick: a timeline of two keys (a at 500, b at 1500,
 ticks at 1000 and 2000),
 and the inputs on which the code as written loses or repeats a timer.
 Every lemma holds for every way the queue may break ties and for every outcome
 of the callbacks.
 */
module TickerScenarios {
  import opened TimerIndex
  import opened ExpiryDriver

  function Empty<K, C>(): State<K, C>
  {
    State(map[], [])
  }

  /** The orders in which a queue of two entries of distinct priorities can be
      dequeued. */
  lemma TwoEntryOrders<K(!new)>(ea: QueueInfo<K>, eb: QueueInfo<K>, order: seq<QueueInfo<K>>)
    requires ea.priority < eb.priority
    requires MinOrder(multiset{ea, eb}, order)
    ensures order == [] || order == [ea] || order == [ea, eb]
  {
    var q0 := multiset{ea, eb};
    if order != [] {
      MinOrderHead(q0, order);
      assert order[0] == ea;
      MinOrderFromQueue(q0, order);
      assert |order| <= 2 by {
        assert |multiset(order)| <= |q0|;
      }
      if |order| == 2 {
        assert order[..1] == [ea];
        assert q0 - multiset(order[..1]) == multiset{eb};
        assert order[1] == eb;
      }
    }
  }

  /** The first tick of the two-key timeline, at 1000. */
  lemma FirstTickOfTwo<K(!new), C>(t: map<K, TimeoutInfo<C>>, a: K, b: K, cbA: C, cbB: C,
                                   order: seq<QueueInfo<K>>, q1: multiset<QueueInfo<K>>)
    requires a != b
    requires t == map[a := TimeoutInfo(500, 500, cbA), b := TimeoutInfo(1500, 1500, cbB)]
    requires TickRun(multiset{QueueInfo(a, 500), QueueInfo(b, 1500)}, t, 1000, order, q1)
    ensures order == [QueueInfo(a, 500), QueueInfo(b, 1500)]
    ensures q1 == multiset{QueueInfo(b, 1500)}
    ensures Fires(order, t, 1000) == [Firing(QueueInfo(a, 500), cbA)]
  {
    var ea, eb := QueueInfo(a, 500), QueueInfo(b, 1500);
    var q0 := multiset{ea, eb};
    TwoEntryOrders(ea, eb, order);
    assert order != [] && order != [ea] by {
      assert !Exhausted(q0, t, 1000, [], q1);
      assert !Stopped(q0, t, 1000, [ea], q1);
      assert !Exhausted(q0, t, 1000, [ea], q1) by {
        assert multiset([ea]) != q0;
      }
    }
    assert !Exhausted(q0, t, 1000, order, q1);
    FirstTickFires(t, a, b, cbA, cbB);
  }

  lemma FirstTickFires<K, C>(t: map<K, TimeoutInfo<C>>, a: K, b: K, cbA: C, cbB: C)
    requires a != b
    requires t == map[a := TimeoutInfo(500, 500, cbA), b := TimeoutInfo(1500, 1500, cbB)]
    ensures Fires([QueueInfo(a, 500), QueueInfo(b, 1500)], t, 1000) == [Firing(QueueInfo(a, 500), cbA)]
  {
    var ea, eb := QueueInfo(a, 500), QueueInfo(b, 1500);
    FiresStep([ea], eb, t, 1000);
    FiresStep([], ea, t, 1000);
    assert [ea] + [eb] == [ea, eb];
  }

  /** A tick on a queue holding one due entry runs that entry's callback and empties
      the queue. */
  lemma SingleDueEntryFires<K(!new), C>(e: QueueInfo<K>, t: map<K, TimeoutInfo<C>>, now: int,
                                        order: seq<QueueInfo<K>>, q1: multiset<QueueInfo<K>>)
    requires Due(e, t, now)
    requires TickRun(multiset{e}, t, now, order, q1)
    ensures order == [e]
    ensures q1 == multiset{}
    ensures Fires(order, t, now) == [Firing(e, t[e.item].callback)]
  {
    var q0 := multiset{e};
    MinOrderFromQueue(q0, order);
    assert order != [];
    assert |order| == 1 by {
      assert |multiset(order)| <= |q0|;
    }
    assert order[0] in q0;
    assert order == [e];
    assert !Stopped(q0, t, now, order, q1);
    FiresStep([], e, t, now);
    assert [] + [e] == order;
  }

  /** A tick on a queue holding one entry for a key not yet due runs nothing and
      leaves the key queued at its record's timestamp. */
  lemma SingleNotDueEntryWaits<K(!new), C>(e: QueueInfo<K>, t: map<K, TimeoutInfo<C>>, now: int,
                                           order: seq<QueueInfo<K>>, q1: multiset<QueueInfo<K>>)
    requires e.item in t && now <= t[e.item].timestamp
    requires TickRun(multiset{e}, t, now, order, q1)
    ensures order == [e]
    ensures q1 == multiset{QueueInfo(e.item, t[e.item].timestamp)}
    ensures Fires(order, t, now) == []
  {
    var q0 := multiset{e};
    MinOrderFromQueue(q0, order);
    assert order != [] by {
      assert !Exhausted(q0, t, now, [], q1);
    }
    assert |order| == 1 by {
      assert |multiset(order)| <= |q0|;
    }
    assert order[0] in q0;
    assert order == [e];
    assert !Exhausted(q0, t, now, order, q1) by {
      assert !Passed(order[0], t, now);
    }
    assert q0 - multiset(order) == multiset{};
  }

  /** The second tick of the two-key timeline, at 2000. */
  lemma SecondTickOfTwo<K(!new), C>(t: map<K, TimeoutInfo<C>>, a: K, b: K, cbA: C, cbB: C,
                                    order: seq<QueueInfo<K>>, q2: multiset<QueueInfo<K>>)
    requires a != b
    requires t == map[a := TimeoutInfo(500, 500, cbA), b := TimeoutInfo(1500, 1500, cbB)]
    requires TickRun(multiset{QueueInfo(b, 1500)}, t, 2000, order, q2)
    ensures Fires(order, t, 2000) == [Firing(QueueInfo(b, 1500), cbB)]
    ensures q2 == multiset{}
  {
    SingleDueEntryFires(QueueInfo(b, 1500), t, 2000, order, q2);
  }

  /** The index after setting `a` to 500 and `b` to 1500, both at time 0. */
  lemma TwoKeysState<K(!new), C>(a: K, b: K, cbA: C, cbB: C)
    requires a != b
    ensures var s := SetTimer(SetTimer(Empty(), a, 500, cbA, 0), b, 1500, cbB, 0);
      && s.minQ == [QueueInfo(a, 500), QueueInfo(b, 1500)]
      && s.timeouts == map[a := TimeoutInfo(500, 500, cbA), b := TimeoutInfo(1500, 1500, cbB)]
  {
    var s1 := SetTimer(Empty(), a, 500, cbA, 0);
    assert s1 == State(map[a := TimeoutInfo(500, 500, cbA)], [QueueInfo(a, 500)]);
  }

  /** Key `a` set to expire at 500 and key `b` at 1500, both at time 0: a tick at 1000
      runs only `a`'s callback and puts `b` back; a tick at 2000 then runs `b`'s. */
  lemma TwoKeysFireInTimestampOrder<K(!new), C>(a: K, b: K, cbA: C, cbB: C,
                                                 order1: seq<QueueInfo<K>>, q1: multiset<QueueInfo<K>>,
                                                 order2: seq<QueueInfo<K>>, q2: multiset<QueueInfo<K>>)
    requires a != b
    requires var s := SetTimer(SetTimer(Empty(), a, 500, cbA, 0), b, 1500, cbB, 0);
      && TickRun(multiset(s.minQ), s.timeouts, 1000, order1, q1)
      && TickRun(q1, s.timeouts, 2000, order2, q2)
    ensures var s := SetTimer(SetTimer(Empty(), a, 500, cbA, 0), b, 1500, cbB, 0);
      && Fires(order1, s.timeouts, 1000) == [Firing(QueueInfo(a, 500), cbA)]
      && q1 == multiset{QueueInfo(b, 1500)}
      && Fires(order2, s.timeouts, 2000) == [Firing(QueueInfo(b, 1500), cbB)]
      && q2 == multiset{}
  {
    TwoKeysState(a, b, cbA, cbB);
    var s := SetTimer(SetTimer(Empty(), a, 500, cbA, 0), b, 1500, cbB, 0);
    var ea, eb := QueueInfo(a, 500), QueueInfo(b, 1500);
    assert multiset(s.minQ) == multiset{ea, eb};
    FirstTickOfTwo(s.timeouts, a, b, cbA, cbB, order1, q1);
    SecondTickOfTwo(s.timeouts, a, b, cbA, cbB, order2, q2);
  }

  /** A key set to 10 and moved to the later 20 (both at time 0) keeps its one entry at
      10: a tick at 15 runs nothing and puts it back at 20, and a tick at 25 then runs
      the second callback once. */
  lemma LaterRescheduleHonoured<K(!new), C>(k: K, cb1: C, cb2: C,
                                            order1: seq<QueueInfo<K>>, q1: multiset<QueueInfo<K>>,
                                            order2: seq<QueueInfo<K>>, q2: multiset<QueueInfo<K>>)
    requires var s := SetTimer(SetTimer(Empty(), k, 10, cb1, 0), k, 20, cb2, 0);
      && TickRun(multiset(s.minQ), s.timeouts, 15, order1, q1)
      && TickRun(q1, s.timeouts, 25, order2, q2)
    ensures var s := SetTimer(SetTimer(Empty(), k, 10, cb1, 0), k, 20, cb2, 0);
      && Fires(order1, s.timeouts, 15) == []
      && q1 == multiset{QueueInfo(k, 20)}
      && Fires(order2, s.timeouts, 25) == [Firing(QueueInfo(k, 20), cb2)]
      && q2 == multiset{}
  {
    LaterRescheduleOfOneState(k, cb1, cb2);
    var s := SetTimer(SetTimer(Empty(), k, 10, cb1, 0), k, 20, cb2, 0);
    assert multiset(s.minQ) == multiset{QueueInfo(k, 10)};
    SingleNotDueEntryWaits(QueueInfo(k, 10), s.timeouts, 15, order1, q1);
    SingleDueEntryFires(QueueInfo(k, 20), s.timeouts, 25, order2, q2);
  }

  /** The index after setting a key to 10 and moving it to 20. */
  lemma LaterRescheduleOfOneState<K(!new), C>(k: K, cb1: C, cb2: C)
    ensures SetTimer(SetTimer(Empty(), k, 10, cb1, 0), k, 20, cb2, 0)
         == State(map[k := TimeoutInfo(20, 20, cb2)], [QueueInfo(k, 10)])
  {
    var s1 := SetTimer(Empty(), k, 10, cb1, 0);
    assert s1 == State(map[k := TimeoutInfo(10, 10, cb1)], [QueueInfo(k, 10)]);
  }

  /** Setting a key to 10 and then to the earlier 5 leaves it with a record and no
      queue entry: a tick at any time fires nothing and leaves the queue empty. */
  lemma EarlierRescheduleIsLost<K(!new), C>(k: K, cb: C, now: int,
                                            order: seq<QueueInfo<K>>, q1: multiset<QueueInfo<K>>)
    requires var s := SetTimer(SetTimer(Empty(), k, 10, cb, 0), k, 5, cb, 0);
      TickRun(multiset(s.minQ), s.timeouts, now, order, q1)
    ensures var s := SetTimer(SetTimer(Empty(), k, 10, cb, 0), k, 5, cb, 0);
      && s.timeouts[k] == TimeoutInfo(5, 5, cb)
      && s.minQ == []
      && Fires(order, s.timeouts, now) == []
      && q1 == multiset{}
  {
    var s := SetTimer(SetTimer(Empty(), k, 10, cb, 0), k, 5, cb, 0);
    EarlierRescheduleUnschedules(SetTimer(Empty(), k, 10, cb, 0), k, 5, cb, 0);
    assert s.minQ == [];
    MinOrderFromQueue(multiset(s.minQ), order);
    assert order == [];
  }

  /** A key set to 5 at time 0 fires in a tick at 6 and keeps its record; setting it
      again to 20 then enqueues nothing, so it is never dequeued again. */
  lemma FiredKeyRescheduleIsLost<K(!new), C>(k: K, cb: C, order: seq<QueueInfo<K>>, q1: seq<QueueInfo<K>>)
    requires var s := SetTimer(Empty(), k, 5, cb, 0);
      TickRun(multiset(s.minQ), s.timeouts, 6, order, multiset(q1))
    ensures var s := SetTimer(Empty(), k, 5, cb, 0);
      && Fires(order, s.timeouts, 6) == [Firing(QueueInfo(k, 5), cb)]
      && q1 == []
      && var s2 := SetTimer(State(s.timeouts, q1), k, 20, cb, 6);
         k in s2.timeouts && s2.timeouts[k].timestamp == 20 && !HasEntry(s2.minQ, k)
  {
    var s := SetTimer(Empty(), k, 5, cb, 0);
    var e := QueueInfo(k, 5);
    assert s.timeouts == map[k := TimeoutInfo(5, 5, cb)];
    assert s.minQ == [e];
    assert multiset(s.minQ) == multiset{e};
    SingleDueEntryFires(e, s.timeouts, 6, order, multiset(q1));
    assert q1 == [] by {
      assert |multiset(q1)| == 0;
    }
  }

  /** A key set to 5, deleted, and set again to 6 (all at time 0) has two queue
      entries and one record; a tick at 10 runs its callback twice. */
  lemma DeleteThenSetFiresTwice<K(!new), C>(k: K, cb: C, order: seq<QueueInfo<K>>, q1: multiset<QueueInfo<K>>)
    requires var s := SetTimer(Delete(SetTimer(Empty(), k, 5, cb, 0), k), k, 6, cb, 0);
      TickRun(multiset(s.minQ), s.timeouts, 10, order, q1)
    ensures var s := SetTimer(Delete(SetTimer(Empty(), k, 5, cb, 0), k), k, 6, cb, 0);
      var r := Fires(order, s.timeouts, 10);
      |r| == 2 && r[0].entry.item == k && r[1].entry.item == k
  {
    DeleteThenSetState(k, cb);
    var t := map[k := TimeoutInfo(6, 6, cb)];
    var e5, e6 := QueueInfo(k, 5), QueueInfo(k, 6);
    var q0 := multiset{e5, e6};
    assert multiset([e5, e6]) == q0;
    MinOrderFromQueue(q0, order);
    assert !Stopped(q0, t, 10, order, q1);
    assert |order| == 2 by {
      assert |multiset(order)| == |q0|;
    }
    forall i | 0 <= i < |order|
      ensures Due(order[i], t, 10)
    {
      assert order[i] in q0;
    }
  }

  /** A tick on a queue of two entries whose smaller one is for a key not yet due
      stops at it: it runs nothing and puts that key back at its record's timestamp. */
  lemma NotDueHeadStops<K(!new), C>(ea: QueueInfo<K>, eb: QueueInfo<K>, t: map<K, TimeoutInfo<C>>, now: int,
                                    order: seq<QueueInfo<K>>, q1: multiset<QueueInfo<K>>)
    requires ea.priority < eb.priority
    requires ea.item in t && now <= t[ea.item].timestamp
    requires TickRun(multiset{ea, eb}, t, now, order, q1)
    ensures order == [ea]
    ensures q1 == multiset{eb, QueueInfo(ea.item, t[ea.item].timestamp)}
    ensures Fires(order, t, now) == []
  {
    var q0 := multiset{ea, eb};
    TwoEntryOrders(ea, eb, order);
    assert order == [ea] by {
      assert !Exhausted(q0, t, now, [], q1);
      assert !Passed([ea, eb][0], t, now);
    }
    assert Stopped(q0, t, now, order, q1) by {
      assert !Passed(order[0], t, now);
    }
    assert q0 - multiset(order) == multiset{eb};
  }

  /** The index after setting `a` to 10, moving it to 100 and setting `b` to 20. */
  lemma StaleHeadState<K(!new), C>(a: K, b: K, cbA: C, cbB: C)
    requires a != b
    ensures var s := SetTimer(SetTimer(SetTimer(Empty(), a, 10, cbA, 0), a, 100, cbA, 0), b, 20, cbB, 0);
      && s.minQ == [QueueInfo(a, 10), QueueInfo(b, 20)]
      && s.timeouts == map[a := TimeoutInfo(100, 100, cbA), b := TimeoutInfo(20, 20, cbB)]
  {
    var s1 := SetTimer(Empty(), a, 10, cbA, 0);
    assert s1 == State(map[a := TimeoutInfo(10, 10, cbA)], [QueueInfo(a, 10)]);
    var s2 := SetTimer(s1, a, 100, cbA, 0);
    assert s2 == State(map[a := TimeoutInfo(100, 100, cbA)], [QueueInfo(a, 10)]);
  }

  /** `a` set to 10 and moved to 100, `b` set to 20 (all at time 0): `a`'s stale
      entry comes first, so a tick at 50 stops at it and `b`, though due, waits for
      the next tick. */
  lemma DueKeyBehindRescheduledKeyWaits<K(!new), C>(a: K, b: K, cbA: C, cbB: C,
                                                    order: seq<QueueInfo<K>>, q1: multiset<QueueInfo<K>>)
    requires a != b
    requires var s := SetTimer(SetTimer(SetTimer(Empty(), a, 10, cbA, 0), a, 100, cbA, 0), b, 20, cbB, 0);
      TickRun(multiset(s.minQ), s.timeouts, 50, order, q1)
    ensures var s := SetTimer(SetTimer(SetTimer(Empty(), a, 10, cbA, 0), a, 100, cbA, 0), b, 20, cbB, 0);
      && Fires(order, s.timeouts, 50) == []
      && q1 == multiset{QueueInfo(b, 20), QueueInfo(a, 100)}
      && s.timeouts[b].timestamp < 50
  {
    var ea, eb := QueueInfo(a, 10), QueueInfo(b, 20);
    StaleHeadState(a, b, cbA, cbB);
    var s := SetTimer(SetTimer(SetTimer(Empty(), a, 10, cbA, 0), a, 100, cbA, 0), b, 20, cbB, 0);
    assert multiset(s.minQ) == multiset{ea, eb};
    NotDueHeadStops(ea, eb, s.timeouts, 50, order, q1);
  }

  /** A tick on a queue of two due entries of distinct priorities runs both
      callbacks, the smaller entry's first, and empties the queue. */
  lemma BothDueFire<K(!new), C>(ea: QueueInfo<K>, eb: QueueInfo<K>, t: map<K, TimeoutInfo<C>>, now: int,
                                order: seq<QueueInfo<K>>, q1: multiset<QueueInfo<K>>)
    requires ea.priority < eb.priority
    requires Due(ea, t, now) && Due(eb, t, now)
    requires TickRun(multiset{ea, eb}, t, now, order, q1)
    ensures order == [ea, eb]
    ensures q1 == multiset{}
    ensures Fires(order, t, now) == [Firing(ea, t[ea.item].callback), Firing(eb, t[eb.item].callback)]
  {
    var q0 := multiset{ea, eb};
    TwoEntryOrders(ea, eb, order);
    assert order == [ea, eb] by {
      assert !Exhausted(q0, t, now, [], q1);
      assert !Stopped(q0, t, now, [ea], q1);
      assert !Exhausted(q0, t, now, [ea], q1) by {
        assert multiset([ea]) != q0;
      }
    }
    assert !Stopped(q0, t, now, order, q1);
    assert q0 - multiset(order) == multiset{};
    FiresStep([ea], eb, t, now);
    FiresStep([], ea, t, now);
    assert [ea] + [eb] == [ea, eb];
  }

  /** The index after setting `a` to 10, moving it to 30 and setting `b` to 20. */
  lemma StaleEarlierHeadState<K(!new), C>(a: K, b: K, cbA: C, cbB: C)
    requires a != b
    ensures var s := SetTimer(SetTimer(SetTimer(Empty(), a, 10, cbA, 0), a, 30, cbA, 0), b, 20, cbB, 0);
      && s.minQ == [QueueInfo(a, 10), QueueInfo(b, 20)]
      && s.timeouts == map[a := TimeoutInfo(30, 30, cbA), b := TimeoutInfo(20, 20, cbB)]
  {
    var s1 := SetTimer(Empty(), a, 10, cbA, 0);
    assert s1 == State(map[a := TimeoutInfo(10, 10, cbA)], [QueueInfo(a, 10)]);
    var s2 := SetTimer(s1, a, 30, cbA, 0);
    assert s2 == State(map[a := TimeoutInfo(30, 30, cbA)], [QueueInfo(a, 10)]);
  }

  /** `a` set to 10 and moved to 30, `b` set to 20 (all at time 0): a tick at 50
      runs `a`'s callback before `b`'s, although `a`'s timestamp is the later one,
      because callbacks follow the priority of the dequeued entry. */
  lemma FiresByEntryNotByTimestamp<K(!new), C>(a: K, b: K, cbA: C, cbB: C,
                                               order: seq<QueueInfo<K>>, q1: multiset<QueueInfo<K>>)
    requires a != b
    requires var s := SetTimer(SetTimer(SetTimer(Empty(), a, 10, cbA, 0), a, 30, cbA, 0), b, 20, cbB, 0);
      TickRun(multiset(s.minQ), s.timeouts, 50, order, q1)
    ensures var s := SetTimer(SetTimer(SetTimer(Empty(), a, 10, cbA, 0), a, 30, cbA, 0), b, 20, cbB, 0);
      && Fires(order, s.timeouts, 50) == [Firing(QueueInfo(a, 10), cbA), Firing(QueueInfo(b, 20), cbB)]
      && s.timeouts[a].timestamp > s.timeouts[b].timestamp
      && q1 == multiset{}
  {
    var ea, eb := QueueInfo(a, 10), QueueInfo(b, 20);
    StaleEarlierHeadState(a, b, cbA, cbB);
    var s := SetTimer(SetTimer(SetTimer(Empty(), a, 10, cbA, 0), a, 30, cbA, 0), b, 20, cbB, 0);
    assert multiset(s.minQ) == multiset{ea, eb};
    BothDueFire(ea, eb, s.timeouts, 50, order, q1);
  }

  // The same inputs under the corrected `setTimer` and the corrected tick.

  /** With the corrected `setTimer`, a key set to 10 and then to 5 is queued at 5. */
  lemma EarlierRescheduleKeptCorrected<K(!new), C>(k: K, cb: C)
    ensures var s := SetTimerCorrected(SetTimer(Empty(), k, 10, cb, 0), k, 5, cb, 0);
      && s.timeouts == map[k := TimeoutInfo(5, 5, cb)]
      && s.minQ == [QueueInfo(k, 5)]
      && Scheduled(s)
  {
    var s1 := SetTimer(Empty(), k, 10, cb, 0);
    assert s1 == State(map[k := TimeoutInfo(10, 10, cb)], [QueueInfo(k, 10)]);
    assert RemoveKey(s1.minQ, k) == [] by {
      assert !HasEntry(RemoveKey(s1.minQ, k), k);
      assert |multiset(RemoveKey(s1.minQ, k))| == 0 by {
        assert multiset(RemoveKey(s1.minQ, k)) == multiset{};
      }
    }
    var s := SetTimerCorrected(s1, k, 5, cb, 0);
    assert s.minQ[0] == QueueInfo(k, 5);
  }

  /** An intended tick on a queue holding one due entry runs that entry's callback,
      removes its record and empties the queue. */
  lemma SingleDueEntryFiresOnce<K(!new), C>(e: QueueInfo<K>, t: map<K, TimeoutInfo<C>>, now: int,
                                            order: seq<QueueInfo<K>>, q1: multiset<QueueInfo<K>>)
    requires Due(e, t, now)
    requires TickRunOnce(multiset{e}, t, now, order, q1)
    ensures order == [e]
    ensures q1 == multiset{}
    ensures FiresOnce(order, t, now) == [Firing(e, t[e.item].callback)]
    ensures Remaining(order, t, now) == t - {e.item}
  {
    var q0 := multiset{e};
    MinOrderFromQueue(q0, order);
    assert order != [] by {
      assert !ExhaustedOnce(q0, t, now, [], q1);
    }
    assert |order| == 1 by {
      assert |multiset(order)| <= |q0|;
    }
    assert order[0] in q0;
    assert order == [e];
    FiresOnceStep([], e, t, now);
    assert [] + [e] == order;
    assert !StoppedOnce(q0, t, now, order, q1);
  }

  /** With the corrected tick, a key set to 5 that fires at 6 loses its record, so
      setting it again to 20 enqueues it. */
  lemma FiredKeyRescheduleKeptCorrected<K(!new), C>(k: K, cb: C, order: seq<QueueInfo<K>>, q1: seq<QueueInfo<K>>)
    requires var s := SetTimer(Empty(), k, 5, cb, 0);
      TickRunOnce(multiset(s.minQ), s.timeouts, 6, order, multiset(q1))
    ensures var s := SetTimer(Empty(), k, 5, cb, 0);
      && FiresOnce(order, s.timeouts, 6) == [Firing(QueueInfo(k, 5), cb)]
      && Remaining(order, s.timeouts, 6) == map[]
      && q1 == []
      && SetTimer(State(Remaining(order, s.timeouts, 6), q1), k, 20, cb, 6).minQ == [QueueInfo(k, 20)]
  {
    var e := QueueInfo(k, 5);
    var t := map[k := TimeoutInfo(5, 5, cb)];
    OneKeyState(k, cb);
    assert multiset([e]) == multiset{e};
    SingleDueEntryFiresOnce(e, t, 6, order, multiset(q1));
    assert t - {k} == map[];
    assert q1 == [] by {
      assert |multiset(q1)| == 0;
    }
    NewKeyEnqueued(k, cb);
  }

  /** The index after setting one key to 5 at time 0. */
  lemma OneKeyState<K(!new), C>(k: K, cb: C)
    ensures SetTimer(Empty(), k, 5, cb, 0) == State(map[k := TimeoutInfo(5, 5, cb)], [QueueInfo(k, 5)])
  {
  }

  /** Setting a key with no record at 20 enqueues it at 20. */
  lemma NewKeyEnqueued<K(!new), C>(k: K, cb: C)
    ensures SetTimer(State(map[], []), k, 20, cb, 6).minQ == [QueueInfo(k, 20)]
  {
  }

  /** The index after setting a key to 5, deleting it and setting it to 6. */
  lemma DeleteThenSetState<K(!new), C>(k: K, cb: C)
    ensures SetTimer(Delete(SetTimer(Empty(), k, 5, cb, 0), k), k, 6, cb, 0)
         == State(map[k := TimeoutInfo(6, 6, cb)], [QueueInfo(k, 5), QueueInfo(k, 6)])
  {
    var s1 := SetTimer(Empty(), k, 5, cb, 0);
    assert s1 == State(map[k := TimeoutInfo(5, 5, cb)], [QueueInfo(k, 5)]);
    assert Delete(s1, k) == State(map[], [QueueInfo(k, 5)]);
  }

  /** When every dequeued entry is for one key and the first is due, the intended tick
      runs that key's callback exactly once. */
  lemma OneKeyFiresOnce<K, C>(order: seq<QueueInfo<K>>, t: map<K, TimeoutInfo<C>>, now: int, k: K)
    requires order != [] && Due(order[0], t, now)
    requires forall i :: 0 <= i < |order| ==> order[i].item == k
    ensures |FiresOnce(order, t, now)| == 1
    ensures FiresOnce(order, t, now)[0].entry.item == k
  {
    DueEntriesFire(order, t, now);
    FiresOnceFacts(order, t, now);
    var r := FiresOnce(order, t, now);
    assert k in FiredKeys(r);
    assert forall j :: 0 <= j < |r| ==> r[j].entry.item == k;
    assert r[0].entry.item == r[|r| - 1].entry.item;
  }

  /** With the corrected tick, a key set to 5, deleted, and set again to 6 still has
      two queue entries, but a tick at 10 runs its callback once. */
  lemma DeleteThenSetFiresOnceCorrected<K(!new), C>(k: K, cb: C, order: seq<QueueInfo<K>>, q1: multiset<QueueInfo<K>>)
    requires var s := SetTimer(Delete(SetTimer(Empty(), k, 5, cb, 0), k), k, 6, cb, 0);
      TickRunOnce(multiset(s.minQ), s.timeouts, 10, order, q1)
    ensures var s := SetTimer(Delete(SetTimer(Empty(), k, 5, cb, 0), k), k, 6, cb, 0);
      var r := FiresOnce(order, s.timeouts, 10);
      |r| == 1 && r[0].entry.item == k
  {
    DeleteThenSetState(k, cb);
    var t := map[k := TimeoutInfo(6, 6, cb)];
    var q0 := multiset{QueueInfo(k, 5), QueueInfo(k, 6)};
    assert multiset([QueueInfo(k, 5), QueueInfo(k, 6)]) == q0;
    assert order != [] by {
      assert !ExhaustedOnce(q0, t, 10, [], q1);
    }
    MinOrderFromQueue(q0, order);
    forall i | 0 <= i < |order|
      ensures order[i].item == k
    {
      assert order[i] in q0;
    }
    OneKeyFiresOnce(order, t, 10, k);
  }
}
