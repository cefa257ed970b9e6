/**
  * How the queues are divided over several processes that share the ports:
  * process `p` of `N` starts at queue `p * nb_q / N` and takes `nb_q / N` queues.
  */
module FwdProcesses {
  import opened Arith
  import opened Distinctness
  import opened FwdPlan

  /** Settings that every process of the group can hold, whatever its `proc_id`. */
  ghost predicate GroupValid(st: Settings) {
    && st.Valid()
    && st.UsesRss()
    && Distinct(st.fwdPorts)
    && st.fwdPorts != []
    && st.numProcs * st.NbQ() <= TWO_31
    && st.NbQ() * |st.fwdPorts| < TWO_16
  }

  function Process(st: Settings, p: nat): Settings { st.(procId := p) }

  lemma ProcessValid(st: Settings, p: nat)
    requires GroupValid(st) && p < st.numProcs
    ensures Process(st, p).Valid()
  {
    MulMonotone(p + 1, st.numProcs, st.NbQ());
    assert (p + 1) * st.NbQ() == p * st.NbQ() + st.NbQ();
  }

  ghost predicate ProcessPolls(st: Settings, p: nat, port: nat, queue: nat)
    requires GroupValid(st)
  {
    && p < st.numProcs
    && (ProcessValid(st, p); PairPolled(Process(st, p).Streams(), port, queue))
  }

  // ----- the arithmetic of the ranges

  lemma RangeInside(p: nat, n: nat, nbQ: nat)
    requires p < n
    ensures p * nbQ / n + nbQ / n <= nbQ
  {
    RangesApart(p, n, n, nbQ);
    DivModUnique(n * nbQ, n, nbQ, 0);
  }

  /** The range of a process ends before the range of any later one starts. */
  lemma RangesApart(p: nat, p': nat, n: nat, nbQ: nat)
    requires p < p' && 0 < n
    ensures p * nbQ / n + nbQ / n <= p' * nbQ / n
  {
    var a, b, c := p * nbQ / n, nbQ / n, p' * nbQ / n;
    assert n * a <= p * nbQ && n * b <= nbQ;
    MulMonotone(p + 1, p', nbQ);
    assert (p + 1) * nbQ == p * nbQ + nbQ;
    assert n * (a + b) == n * a + n * b;
    assert p' * nbQ < n * c + n;
    assert (c + 1) * n == n * c + n;
    if c < a + b {
      MulMonotone(c + 1, a + b, n);
      assert false;
    }
  }

  lemma RangesTileWhenDivisible(n: nat, nbQ: nat, q: nat) returns (p: nat)
    requires 0 < n <= nbQ && nbQ % n == 0 && q < nbQ
    ensures p < n && p * nbQ / n <= q < p * nbQ / n + nbQ / n
  {
    var span := nbQ / n;
    assert nbQ == span * n;
    assert span > 0;
    p := q / span;
    assert span * n == n * span;
    DivBelow(q, span, n);
    assert p * nbQ == (p * span) * n;
    DivModUnique(p * nbQ, n, p * span, 0);
    DivUpper(q, span);
  }

  /** The range of a process starts below the queue count, even when it is empty. */
  lemma StartBelow(p: nat, n: nat, nbQ: nat)
    requires p < n && 0 < nbQ
    ensures p * nbQ / n < nbQ
  {
    MulMonotone(p + 1, n, nbQ);
    assert (p + 1) * nbQ == p * nbQ + nbQ;
    assert n * nbQ == nbQ * n;
    DivBelow(p * nbQ, n, nbQ);
  }

  /** With more processes than queues, every queue is the start of some range. */
  lemma EveryQueueStarts(n: nat, nbQ: nat, q: nat) returns (p: nat)
    requires q < nbQ <= n
    ensures p < n && p * nbQ / n == q
  {
    p := (q * n + nbQ - 1) / nbQ;
    var r := (q * n + nbQ - 1) % nbQ;
    assert p * nbQ == q * n + nbQ - 1 - r;
    DivModUnique(p * nbQ, n, q, nbQ - 1 - r);
    MulMonotone(q + 1, nbQ, n);
    assert (q + 1) * n == q * n + n;
    assert n * nbQ == nbQ * n;
    DivBelow(q * n + nbQ - 1, nbQ, n);
  }

  lemma LastRangeFallsShort(n: nat, nbQ: nat)
    requires 0 < n && nbQ % n != 0
    ensures (n - 1) * nbQ / n + nbQ / n < nbQ
  {
    var b, r := nbQ / n, nbQ % n;
    assert nbQ == b * n + r;
    assert (n - 1) * nbQ == n * nbQ - nbQ;
    assert n * nbQ - nbQ == (nbQ - b - 1) * n + (n - r);
    DivModUnique((n - 1) * nbQ, n, nbQ - b - 1, n - r);
  }

  lemma RangeFallsShort(p: nat, n: nat, nbQ: nat)
    requires p < n && nbQ % n != 0
    ensures p * nbQ / n + nbQ / n < nbQ
  {
    LastRangeFallsShort(n, nbQ);
    if p < n - 1 {
      RangesApart(p, n - 1, n, nbQ);
    }
  }

  // ----- the ranges are what the streams poll

  /** A process polls exactly the queues of its own range, on every forwarding port. */
  lemma ProcessPollsItsCycle(st: Settings, i: nat, q: nat)
    requires GroupValid(st) && i < |st.fwdPorts|
    ensures PairPolled(st.Streams(), st.fwdPorts[i], q) <==> st.QueueStart() <= q < st.QueueStart() + st.QueueCycle()
  {
    var n, start, cycle := |st.fwdPorts|, st.QueueStart(), st.QueueCycle();
    CountWithoutWrap(st);
    if PairPolled(st.Streams(), st.fwdPorts[i], q) {
      var s: nat :| Polls(st.Streams(), s, st.fwdPorts[i], q);
      assert st.StreamAt(s).rxQueue == start + (s / n) % cycle;
    }
    if start <= q < start + cycle {
      var row := q - start;
      CycleFits(st);
      StreamIndex(n, i, row, st.NbQ());
      DivModUnique(row, cycle, 0, row);
      assert Polls(st.Streams(), row * n + i, st.fwdPorts[i], q);
    }
  }

  lemma CycleFits(st: Settings)
    requires GroupValid(st)
    ensures st.QueueCycle() <= st.NbQ()
  {
    assert st.QueueSpan() <= st.NbQ() by {
      RangeInside(0, st.numProcs, st.NbQ());
      assert 0 * st.NbQ() == 0;
    }
  }

  ghost predicate ProcessesExclusive(st: Settings)
    requires GroupValid(st)
  {
    forall p, p', port, queue :: ProcessPolls(st, p, port, queue) && ProcessPolls(st, p', port, queue) ==> p == p'
  }

  lemma ProcessPollsRange(st: Settings, p: nat, i: nat, q: nat)
    requires GroupValid(st) && p < st.numProcs && i < |st.fwdPorts|
    ensures ProcessPolls(st, p, st.fwdPorts[i], q) <==>
      Process(st, p).QueueStart() <= q < Process(st, p).QueueStart() + st.QueueCycle()
  {
    ProcessValid(st, p);
    ProcessPollsItsCycle(Process(st, p), i, q);
  }

  lemma PolledPortIsForwarding(st: Settings, p: nat, port: nat, q: nat) returns (i: nat)
    requires GroupValid(st) && ProcessPolls(st, p, port, q)
    ensures i < |st.fwdPorts| && st.fwdPorts[i] == port
  {
    ProcessValid(st, p);
    var s: nat :| Polls(Process(st, p).Streams(), s, port, q);
    i := s % |st.fwdPorts|;
  }

  /** Two processes never poll the same queue exactly when there are at least as many queues as processes. */
  lemma ProcessesExclusiveIff(st: Settings)
    requires GroupValid(st)
    ensures ProcessesExclusive(st) <==> st.numProcs <= st.NbQ()
  {
    var n, nbQ := st.numProcs, st.NbQ();
    if n <= nbQ {
      DivBelow(nbQ, n, 1);
      forall p: nat, p': nat, port: nat, q: nat | p < p' && ProcessPolls(st, p, port, q)
        ensures !ProcessPolls(st, p', port, q)
      {
        var i := PolledPortIsForwarding(st, p, port, q);
        ProcessPollsRange(st, p, i, q);
        if p' < n {
          ProcessPollsRange(st, p', i, q);
          RangesApart(p, p', n, nbQ);
        }
      }
    } else {
      DivModUnique(nbQ, n, 0, nbQ);
      ProcessPollsRange(st, 0, 0, 0);
      ProcessPollsRange(st, 1, 0, 0);
      assert 0 * nbQ == 0 && 1 * nbQ == nbQ;
      assert ProcessPolls(st, 0, st.fwdPorts[0], 0) && ProcessPolls(st, 1, st.fwdPorts[0], 0);
    }
  }

  ghost predicate SomeProcessPolls(st: Settings, port: nat, queue: nat)
    requires GroupValid(st)
  {
    exists p: nat :: ProcessPolls(st, p, port, queue)
  }

  /** Whether the processes leave no queue unpolled. */
  ghost predicate ProcessesCover(st: Settings)
    requires GroupValid(st)
  {
    forall i: nat, q: nat :: i < |st.fwdPorts| && q < st.NbQ() ==> SomeProcessPolls(st, st.fwdPorts[i], q)
  }

  /**
    * The processes never poll a queue beyond `nb_q`. They leave none below it out exactly when
    * their number divides the number of queues or exceeds it.
    */
  lemma ProcessesCoverIff(st: Settings)
    requires GroupValid(st)
    ensures ProcessesCover(st) <==> st.NbQ() % st.numProcs == 0 || st.NbQ() < st.numProcs
    ensures forall p, port, q: nat :: ProcessPolls(st, p, port, q) ==> q < st.NbQ()
  {
    forall p: nat, port: nat, q: nat | ProcessPolls(st, p, port, q) ensures q < st.NbQ() {
      PolledBelow(st, p, port, q);
    }
    if st.NbQ() % st.numProcs == 0 || st.NbQ() < st.numProcs {
      forall i: nat, q: nat | i < |st.fwdPorts| && q < st.NbQ()
        ensures SomeProcessPolls(st, st.fwdPorts[i], q)
      {
        Covered(st, i, q);
      }
    } else {
      LastQueueUnpolled(st, 0);
    }
  }

  lemma PolledBelow(st: Settings, p: nat, port: nat, q: nat)
    requires GroupValid(st) && ProcessPolls(st, p, port, q)
    ensures q < st.NbQ()
  {
    var i := PolledPortIsForwarding(st, p, port, q);
    ProcessPollsRange(st, p, i, q);
    RangeInside(p, st.numProcs, st.NbQ());
    StartBelow(p, st.numProcs, st.NbQ());
  }

  lemma Covered(st: Settings, i: nat, q: nat)
    requires GroupValid(st) && (st.NbQ() % st.numProcs == 0 || st.NbQ() < st.numProcs)
    requires i < |st.fwdPorts| && q < st.NbQ()
    ensures SomeProcessPolls(st, st.fwdPorts[i], q)
  {
    var p: nat;
    DivBelow(st.NbQ(), st.numProcs, 1);
    if st.NbQ() < st.numProcs {
      p := EveryQueueStarts(st.numProcs, st.NbQ(), q);
    } else {
      p := RangesTileWhenDivisible(st.numProcs, st.NbQ(), q);
    }
    ProcessPollsRange(st, p, i, q);
    assert ProcessPolls(st, p, st.fwdPorts[i], q);
  }

  lemma LastQueueSkipped(st: Settings, i: nat, p: nat)
    requires GroupValid(st) && st.numProcs <= st.NbQ() && st.NbQ() % st.numProcs != 0
    requires i < |st.fwdPorts|
    ensures !ProcessPolls(st, p, st.fwdPorts[i], st.NbQ() - 1)
  {
    var n, nbQ := st.numProcs, st.NbQ();
    if p < n {
      DivBelow(nbQ, n, 1);
      ProcessPollsRange(st, p, i, nbQ - 1);
      RangeFallsShort(p, n, nbQ);
    }
  }

  /** When there are enough queues and the division leaves a remainder, nobody polls the last queue of any port. */
  lemma LastQueueUnpolled(st: Settings, i: nat)
    requires GroupValid(st) && st.numProcs <= st.NbQ() && st.NbQ() % st.numProcs != 0
    requires i < |st.fwdPorts|
    ensures !SomeProcessPolls(st, st.fwdPorts[i], st.NbQ() - 1)
  {
    if SomeProcessPolls(st, st.fwdPorts[i], st.NbQ() - 1) {
      var p: nat :| ProcessPolls(st, p, st.fwdPorts[i], st.NbQ() - 1);
      LastQueueSkipped(st, i, p);
      assert false;
    }
  }

  // ----- inside one process

  /** No (port, queue) pair is polled by two streams of this process. */
  ghost predicate PolledOnce(st: Settings)
    requires st.Valid()
  {
    forall s, s', port, queue ::
      Polls(st.Streams(), s, port, queue) && Polls(st.Streams(), s', port, queue) ==> s == s'
  }

  /**
    * The number of streams does not shrink with the range of the process, so a process of a larger
    * group goes through its queues again and polls them with several streams.
    */
  lemma PolledOnceIff(st: Settings)
    requires GroupValid(st)
    ensures PolledOnce(st) <==> st.numProcs == 1
  {
    if st.numProcs == 1 {
      ExactCover(st);
    } else {
      PolledTwice(st);
    }
  }

  /** The streams of the first port in rounds 0 and `QueueCycle()` poll the same queue. */
  lemma PolledTwice(st: Settings)
    requires GroupValid(st) && st.numProcs != 1
    ensures !PolledOnce(st)
  {
    var n, cycle := |st.fwdPorts|, st.QueueCycle();
    CountWithoutWrap(st);
    CycleShorter(st);
    StreamIndex(n, 0, 0, st.NbQ());
    StreamIndex(n, 0, cycle, st.NbQ());
    DivModUnique(cycle, cycle, 1, 0);
    DivModUnique(0, cycle, 0, 0);
    MulMonotone(1, cycle, n);
    assert 0 * n == 0;
    assert Polls(st.Streams(), 0, st.fwdPorts[0], st.QueueStart());
    assert Polls(st.Streams(), cycle * n, st.fwdPorts[0], st.QueueStart());
  }

  lemma CycleShorter(st: Settings)
    requires GroupValid(st) && st.numProcs != 1
    ensures st.QueueCycle() < st.NbQ()
  {
    var n, nbQ := st.numProcs, st.NbQ();
    if st.QueueSpan() >= 2 {
      DivUpper(nbQ, n);
      MulMonotone(2, n, nbQ / n);
      assert n * (nbQ / n) <= nbQ;
    }
  }
}
