/**
  * What `fwd_config_setup` is meant to compute, as functions of the settings:
  * which (port, queue) pair each stream polls and which streams each lcore runs.
  */
module FwdPlan {
  import opened Arith
  import opened Distinctness

  datatype Topology = Paired | Chained | Loop

  datatype Stream = Stream(rxPort: nat, rxQueue: nat, txPort: nat, txQueue: nat, peerAddr: nat)

  datatype Lcore = Lcore(streamIdx: nat, streamNb: nat) {
    predicate Runs(s: nat) { streamIdx <= s < streamIdx + streamNb }
  }

  datatype Settings = Settings(
    nbRxq: nat, nbTxq: nat, nbFwdLcores: nat, fwdPorts: seq<nat>,
    procId: nat, numProcs: nat, topology: Topology)
  {
    /** What the machine types and the callers of `fwd_config_setup` guarantee. */
    predicate Valid() {
      && 1 <= nbRxq < TWO_16
      && 1 <= nbTxq < TWO_16
      && 1 <= nbFwdLcores < 0x100
      && |fwdPorts| < TWO_16
      && procId < numProcs < TWO_32
      && procId * NbQ() < TWO_31  // `proc_id * nb_q` is computed as an int
    }

    function NbQ(): nat { Min(nbRxq, nbTxq) }

    predicate UsesRss() { nbRxq > 1 && nbTxq > 1 }

    /** The queues of this process are `[QueueStart(), QueueStart() + QueueSpan())`. */
    function QueueStart(): nat requires numProcs > 0 { procId * NbQ() / numProcs }

    function QueueSpan(): nat requires numProcs > 0 { NbQ() / numProcs }

    /** Number of queues the round-robin goes through before it starts over. */
    function QueueCycle(): (c: nat) requires numProcs > 0 ensures c > 0 {
      if QueueSpan() == 0 then 1 else QueueSpan()
    }

    /** The 16-bit number of streams. */
    function StreamCount(): nat {
      if UsesRss() then NbQ() * |fwdPorts| % TWO_16 else |fwdPorts| % TWO_16
    }

    function LcoreCount(): nat { Min(nbFwdLcores, StreamCount()) }

    /** The queue polled in round number `row` over the ports. */
    function QueueAt(row: nat): nat requires numProcs > 0 { QueueStart() + row % QueueCycle() }

    function StreamAt(s: nat): Stream
      requires numProcs > 0 && |fwdPorts| > 0
    {
      var rxp := s % |fwdPorts|;
      var queue := if UsesRss() then QueueAt(s / |fwdPorts|) else 0;
      var txPort := fwdPorts[TxIndex(topology, |fwdPorts|, rxp)];
      Stream(fwdPorts[rxp], queue, txPort, queue, txPort)
    }

    ghost function Streams(): (ss: seq<Stream>)
      requires Valid()
      ensures |ss| == StreamCount()
    {
      if fwdPorts == [] then
        assert NbQ() * |fwdPorts| == 0;
        []
      else seq(StreamCount(), s requires s >= 0 => StreamAt(s))
    }

    ghost function Lcores(): (ls: seq<Lcore>)
      requires Valid()
      ensures |ls| == LcoreCount()
    {
      LcoreSplit(StreamCount(), LcoreCount())
    }
  }

  // ----- port topology

  /** Index of the port that receives what arrives on forwarding port number `rxp`. */
  function TxIndex(topology: Topology, n: nat, rxp: nat): (txp: nat)
    requires rxp < n
    ensures txp < n
  {
    match topology
    case Paired => if rxp % 2 == 0 then (if rxp + 1 < n then rxp + 1 else rxp) else rxp - 1
    case Chained => (rxp + 1) % n
    case Loop => rxp
  }

  ghost predicate Receives(topology: Topology, n: nat, y: nat) {
    exists x: nat :: x < n && TxIndex(topology, n, x) == y
  }

  /** Each topology is a permutation of the forwarding ports: injective and onto. */
  lemma TopologyIsPermutation(topology: Topology, n: nat)
    ensures forall i, j :: 0 <= i < j < n ==> TxIndex(topology, n, i) != TxIndex(topology, n, j)
    ensures forall y: nat :: y < n ==> Receives(topology, n, y)
  {
    forall i: nat, j: nat | i < j < n
      ensures TxIndex(topology, n, i) != TxIndex(topology, n, j)
    {
      TxApart(topology, n, i, j);
    }
    forall y: nat | y < n ensures Receives(topology, n, y) {
      TxOnto(topology, n, y);
    }
  }

  lemma TxApart(topology: Topology, n: nat, i: nat, j: nat)
    requires i < j < n
    ensures TxIndex(topology, n, i) != TxIndex(topology, n, j)
  {
    ChainedIs(n, i);
    ChainedIs(n, j);
  }

  lemma TxOnto(topology: Topology, n: nat, y: nat)
    requires y < n
    ensures Receives(topology, n, y)
  {
    match topology
    case Chained =>
      var x := if y == 0 then n - 1 else y - 1;
      ChainedIs(n, x);
      assert TxIndex(topology, n, x) == y;
    case Paired =>
      PairedIsInvolution(n, y);
    case Loop =>
      assert TxIndex(topology, n, y) == y;
  }

  lemma PairedIsInvolution(n: nat, rxp: nat)
    requires rxp < n
    ensures TxIndex(Paired, n, TxIndex(Paired, n, rxp)) == rxp
  {
  }

  lemma ChainedIs(n: nat, rxp: nat)
    requires rxp < n
    ensures TxIndex(Chained, n, rxp) == if rxp + 1 < n then rxp + 1 else 0
  {
    if rxp + 1 < n {
      DivModUnique(rxp + 1, n, 0, rxp + 1);
    } else {
      DivModUnique(rxp + 1, n, 1, 0);
    }
  }

  /**
    * A stream sends on the queue that it polls, to the right forwarding port: in the loop topology to
    * its own one; in the chained one to the next one, the last to the first; in the paired one to the
    * other of the ports number 2k and 2k+1, and the last of an odd number to itself.
    */
  ghost predicate SendsRight(st: Settings, s: Stream) {
    var ports, n := st.fwdPorts, |st.fwdPorts|;
    && s.txQueue == s.rxQueue && s.peerAddr == s.txPort && s.txPort in ports
    && (st.topology == Loop ==> s.txPort == s.rxPort)
    && forall i, j :: 0 <= i < n && 0 <= j < n && ports[i] == s.rxPort && ports[j] == s.txPort ==>
      && (st.topology == Chained ==> j == i + 1 || (i == n - 1 && j == 0))
      && (st.topology == Paired ==> i / 2 == j / 2 && (i == j <==> 2 * (i / 2) + 1 >= n))
  }

  lemma StreamsSendRight(st: Settings)
    requires st.Valid() && Distinct(st.fwdPorts)
    ensures forall s :: 0 <= s < |st.Streams()| ==> SendsRight(st, st.Streams()[s])
  {
    forall s | 0 <= s < |st.Streams()| ensures SendsRight(st, st.Streams()[s]) {
      StreamSendsRight(st, s);
    }
  }

  lemma StreamSendsRight(st: Settings, s: nat)
    requires st.Valid() && Distinct(st.fwdPorts) && st.fwdPorts != []
    ensures SendsRight(st, st.StreamAt(s))
  {
    var n, rxp := |st.fwdPorts|, s % |st.fwdPorts|;
    TxIs(st.topology, n, rxp);
    forall i, j | 0 <= i < n && 0 <= j < n
      && st.fwdPorts[i] == st.StreamAt(s).rxPort && st.fwdPorts[j] == st.StreamAt(s).txPort
      ensures i == rxp && j == TxIndex(st.topology, n, rxp)
    {
    }
  }

  lemma TxIs(topology: Topology, n: nat, i: nat)
    requires i < n
    ensures var j := TxIndex(topology, n, i);
            && (topology == Loop ==> j == i)
            && (topology == Chained ==> j == i + 1 || (i == n - 1 && j == 0))
            && (topology == Paired ==> i / 2 == j / 2 && (i == j <==> 2 * (i / 2) + 1 >= n))
  {
    ChainedIs(n, i);
  }

  /** Port reached from `rxp` by following the topology `k` times. */
  ghost function Follow(topology: Topology, n: nat, rxp: nat, k: nat): (p: nat)
    requires rxp < n
    ensures p < n
  {
    if k == 0 then rxp else TxIndex(topology, n, Follow(topology, n, rxp, k - 1))
  }

  lemma {:induction false} ChainedSteps(n: nat, rxp: nat, k: nat)
    requires rxp < n && k <= n
    ensures Follow(Chained, n, rxp, k) == if rxp + k < n then rxp + k else rxp + k - n
  {
    if k > 0 {
      ChainedSteps(n, rxp, k - 1);
      ChainedIs(n, Follow(Chained, n, rxp, k - 1));
    }
  }

  ghost predicate Reached(topology: Topology, n: nat, rxp: nat, y: nat)
    requires rxp < n
  {
    exists k: nat :: k < n && Follow(topology, n, rxp, k) == y
  }

  /** The chained topology is one cycle through all the ports, of length exactly `n`. */
  lemma ChainedIsOneCycle(n: nat, rxp: nat)
    requires rxp < n
    ensures Follow(Chained, n, rxp, n) == rxp
    ensures forall k :: 0 < k < n ==> Follow(Chained, n, rxp, k) != rxp
    ensures forall y: nat :: y < n ==> Reached(Chained, n, rxp, y)
  {
    ChainedSteps(n, rxp, n);
    forall k | 0 < k < n ensures Follow(Chained, n, rxp, k) != rxp {
      ChainedSteps(n, rxp, k);
    }
    forall y: nat | y < n ensures Reached(Chained, n, rxp, y) {
      var k := if rxp <= y then y - rxp else y + n - rxp;
      ChainedSteps(n, rxp, k);
      assert Follow(Chained, n, rxp, k) == y;
    }
  }

  // ----- distribution of streams over lcores

  function BaseLoad(nbFs: nat, nbFc: nat): nat
    requires nbFc > 0
  {
    if nbFs <= nbFc then 1 else nbFs / nbFc
  }

  function ExtraStreams(nbFs: nat, nbFc: nat): nat
    requires nbFc > 0
  {
    if nbFs <= nbFc then 0 else nbFs % nbFc
  }

  /** Streams of lcore number `k`: the last `ExtraStreams` lcores get one more than the others. */
  function LcoreAt(nbFs: nat, nbFc: nat, k: nat): Lcore
    requires k < nbFc
  {
    var base := BaseLoad(nbFs, nbFc);
    var plain := nbFc - ExtraStreams(nbFs, nbFc);
    if k < plain then Lcore(k * base, base)
    else Lcore(plain * base + (k - plain) * (base + 1), base + 1)
  }

  /** Consecutive intervals that start at 0 and end at `n`. */
  ghost predicate Tiling(ls: seq<Lcore>, n: nat) {
    && (ls != [] ==> ls[0].streamIdx == 0)
    && (forall k :: 0 < k < |ls| ==> ls[k].streamIdx == ls[k-1].streamIdx + ls[k-1].streamNb)
    && n == (if ls == [] then 0 else ls[|ls|-1].streamIdx + ls[|ls|-1].streamNb)
  }

  ghost predicate Balanced(ls: seq<Lcore>) {
    && (forall k :: 0 <= k < |ls| ==> ls[k].streamNb >= 1)
    && (forall j, k :: 0 <= j < |ls| && 0 <= k < |ls| ==> ls[j].streamNb <= ls[k].streamNb + 1)
  }

  ghost function LcoreSplit(nbFs: nat, nbFc: nat): (ls: seq<Lcore>)
    ensures |ls| == nbFc
    ensures forall k :: 0 <= k < nbFc ==> ls[k] == LcoreAt(nbFs, nbFc, k)
  {
    seq(nbFc, k requires 0 <= k < nbFc => LcoreAt(nbFs, nbFc, k))
  }

  lemma LcoreFollows(nbFs: nat, nbFc: nat, k: nat)
    requires 0 < k < nbFc
    ensures LcoreAt(nbFs, nbFc, k).streamIdx ==
      LcoreAt(nbFs, nbFc, k - 1).streamIdx + LcoreAt(nbFs, nbFc, k - 1).streamNb
  {
    var base := BaseLoad(nbFs, nbFc);
    var plain := nbFc - ExtraStreams(nbFs, nbFc);
    if k <= plain {
      assert (k - 1) * base + base == k * base;
    } else {
      var over := k - 1 - plain;
      assert over * (base + 1) + (base + 1) == (over + 1) * (base + 1);
    }
  }

  lemma LcoreLast(nbFs: nat, nbFc: nat)
    requires 0 < nbFc <= nbFs
    ensures LcoreAt(nbFs, nbFc, nbFc - 1).streamIdx + LcoreAt(nbFs, nbFc, nbFc - 1).streamNb == nbFs
    ensures BaseLoad(nbFs, nbFc) >= 1
  {
    var base, extra := BaseLoad(nbFs, nbFc), ExtraStreams(nbFs, nbFc);
    var plain := nbFc - extra;
    assert nbFs == base * nbFc + extra && base >= 1 by {
      if nbFs > nbFc {
        DivBelow(nbFs, nbFc, 1);
      }
    }
    if extra == 0 {
      assert (nbFc - 1) * base + base == nbFc * base;
    } else {
      assert (extra - 1) * (base + 1) + (base + 1) == extra * (base + 1);
      Spread(nbFc, base, extra);
    }
  }

  lemma Spread(nbFc: nat, base: nat, extra: nat)
    requires extra <= nbFc
    ensures (nbFc - extra) * base + extra * (base + 1) == nbFc * base + extra
  {
    assert extra * (base + 1) == extra * base + extra;
    assert (nbFc - extra) * base + extra * base == nbFc * base;
  }

  /** The lcores split the streams into consecutive intervals whose sizes differ by at most one. */
  lemma LcoresTile(nbFs: nat, nbFc: nat)
    requires nbFc <= nbFs && (nbFc == 0 ==> nbFs == 0)
    ensures Tiling(LcoreSplit(nbFs, nbFc), nbFs)
    ensures Balanced(LcoreSplit(nbFs, nbFc))
    ensures forall j, k :: 0 <= j < k < nbFc ==>
      LcoreSplit(nbFs, nbFc)[j].streamNb <= LcoreSplit(nbFs, nbFc)[k].streamNb
  {
    if nbFc > 0 {
      LcoreLast(nbFs, nbFc);
      forall k | 0 < k < nbFc
        ensures LcoreAt(nbFs, nbFc, k).streamIdx ==
          LcoreAt(nbFs, nbFc, k - 1).streamIdx + LcoreAt(nbFs, nbFc, k - 1).streamNb
      {
        LcoreFollows(nbFs, nbFc, k);
      }
    }
  }

  /** No more lcores are used than are configured or than there are streams, and as many as these allow. */
  lemma LcoresUsed(st: Settings)
    requires st.Valid()
    ensures |st.Lcores()| <= st.nbFwdLcores && |st.Lcores()| <= |st.Streams()|
    ensures |st.Lcores()| == st.nbFwdLcores || forall k :: 0 <= k < |st.Lcores()| ==> st.Lcores()[k] == Lcore(k, 1)
  {
  }

  lemma {:induction false} TilingOrdered(ls: seq<Lcore>, n: nat, j: nat, k: nat)
    requires Tiling(ls, n) && j < k < |ls|
    ensures ls[j].streamIdx + ls[j].streamNb <= ls[k].streamIdx
    decreases k
  {
    if j + 1 < k {
      TilingOrdered(ls, n, j, k - 1);
    }
  }

  /** In a tiling every index below the end is run by exactly one lcore. */
  lemma {:induction false} TilingOwner(ls: seq<Lcore>, n: nat, s: nat) returns (k: nat)
    requires Tiling(ls, n) && s < n
    ensures k < |ls| && ls[k].Runs(s)
    ensures forall j :: 0 <= j < |ls| && ls[j].Runs(s) ==> j == k
  {
    k := |ls| - 1;
    while s < ls[k].streamIdx
      invariant k < |ls|
      invariant s < ls[k].streamIdx + ls[k].streamNb
      decreases k
    {
      assert ls[0].streamIdx == 0;
      k := k - 1;
    }
    forall j | 0 <= j < |ls| && ls[j].Runs(s) ensures j == k {
      if j < k {
        TilingOrdered(ls, n, j, k);
      } else if k < j {
        TilingOrdered(ls, n, k, j);
      }
    }
  }

  // ----- which stream polls which queue

  ghost predicate Polls(ss: seq<Stream>, s: nat, port: nat, queue: nat) {
    s < |ss| && ss[s].rxPort == port && ss[s].rxQueue == queue
  }

  ghost predicate PairPolled(ss: seq<Stream>, port: nat, queue: nat) {
    exists s: nat :: Polls(ss, s, port, queue)
  }

  /** In a single process stream `s` polls queue `s / ports` of port `s % ports`. */
  lemma StreamShape(st: Settings, s: nat)
    requires st.Valid() && st.numProcs == 1 && s < st.StreamCount() && st.fwdPorts != []
    ensures s / |st.fwdPorts| < st.NbQ()
    ensures st.StreamAt(s).rxQueue == s / |st.fwdPorts|
    ensures st.StreamAt(s).txQueue == s / |st.fwdPorts|
  {
    var n := |st.fwdPorts|;
    SingleProcess(st);
    if st.UsesRss() {
      ModAtMost(st.NbQ() * n, TWO_16);
      DivBelow(s, n, st.NbQ());
      DivModUnique(s / n, st.NbQ(), 0, s / n);
    } else {
      ModAtMost(n, TWO_16);
      DivModUnique(s, n, 0, s);
    }
  }

  lemma SingleProcess(st: Settings)
    requires st.Valid() && st.numProcs == 1
    ensures st.procId == 0 && st.QueueStart() == 0 && st.QueueCycle() == st.NbQ() > 0
  {
    assert 0 * st.NbQ() == 0;
    DivModUnique(0, 1, 0, 0);
    DivModUnique(st.NbQ(), 1, st.NbQ(), 0);
  }

  lemma ModAtMost(x: nat, m: nat)
    requires m > 0
    ensures x % m <= x
  {
    if x < m {
      DivModUnique(x, m, 0, x);
    }
  }

  /** The next round polls the next queue of this process, or its first one again. */
  lemma QueueAfter(st: Settings, row: nat)
    requires st.numProcs > 0
    ensures st.QueueAt(row + 1) ==
      if st.QueueAt(row) + 1 >= st.QueueStart() + st.QueueSpan() then st.QueueStart() else st.QueueAt(row) + 1
  {
    DivModNext(row, st.QueueCycle());
  }

  /** The index of the stream meant for queue `q` of forwarding port number `i`. */
  lemma StreamIndex(n: nat, i: nat, q: nat, nbQ: nat)
    requires i < n && q < nbQ
    ensures (q * n + i) % n == i && (q * n + i) / n == q
    ensures q * n + i < nbQ * n
  {
    DivModUnique(q * n + i, n, q, i);
    DivBelow(q * n + i, n, nbQ);
  }

  lemma SameRow(s: nat, s': nat, n: nat)
    requires 0 < n && s != s' && s / n == s' / n
    ensures s % n != s' % n
  {
    assert s == (s / n) * n + s % n && s' == (s' / n) * n + s' % n;
  }

  /** No two streams poll the same pair, and every stream polls a forwarding port. */
  lemma StreamsPollApart(st: Settings, s: nat, s': nat)
    requires st.Valid() && st.numProcs == 1 && Distinct(st.fwdPorts)
    requires s < s' < st.StreamCount() && st.fwdPorts != []
    ensures st.StreamAt(s).rxPort != st.StreamAt(s').rxPort || st.StreamAt(s).rxQueue != st.StreamAt(s').rxQueue
    ensures st.StreamAt(s).txPort != st.StreamAt(s').txPort || st.StreamAt(s).txQueue != st.StreamAt(s').txQueue
  {
    StreamShape(st, s);
    StreamShape(st, s');
    var n := |st.fwdPorts|;
    if s / n == s' / n {
      SameRow(s, s', n);
      TopologyIsPermutation(st.topology, n);
      var a, b := TxIndex(st.topology, n, s % n), TxIndex(st.topology, n, s' % n);
      assert a != b;
    }
  }

  ghost predicate AllPairsPolled(st: Settings)
    requires st.Valid()
  {
    forall i: nat, q: nat :: i < |st.fwdPorts| && q < st.NbQ() ==> PairPolled(st.Streams(), st.fwdPorts[i], q)
  }

  /**
    * Exact cover. In a single process over different ports, no (port, queue) pair is polled twice,
    * only pairs below the common queue count are polled, and all of them are polled exactly when
    * their number fits the 16-bit stream count.
    */
  lemma ExactCover(st: Settings)
    requires st.Valid() && st.numProcs == 1 && Distinct(st.fwdPorts)
    ensures forall s, s', port, queue ::
      Polls(st.Streams(), s, port, queue) && Polls(st.Streams(), s', port, queue) ==> s == s'
    ensures forall s: nat :: s < |st.Streams()| ==>
      st.Streams()[s].rxPort in st.fwdPorts && st.Streams()[s].rxQueue < st.NbQ()
    ensures AllPairsPolled(st) <==> st.NbQ() * |st.fwdPorts| < TWO_16
  {
    var ss, n, nbQ := st.Streams(), |st.fwdPorts|, st.NbQ();
    if n == 0 {
      assert nbQ * n == 0;
    } else {
      forall s: nat, s': nat | s < s' < |ss|
        ensures ss[s].rxPort != ss[s'].rxPort || ss[s].rxQueue != ss[s'].rxQueue
      {
        StreamsPollApart(st, s, s');
      }
      forall s: nat | s < |ss| ensures ss[s].rxPort in st.fwdPorts && ss[s].rxQueue < nbQ {
        StreamShape(st, s);
      }
      if nbQ * n < TWO_16 {
        forall i: nat, q: nat | i < n && q < nbQ
          ensures PairPolled(ss, st.fwdPorts[i], q)
        {
          EveryPairPolled(st, i, q);
        }
      } else {
        LastPairLost(st);
      }
    }
  }

  lemma CountWithoutWrap(st: Settings)
    requires st.Valid() && st.NbQ() * |st.fwdPorts| < TWO_16
    ensures st.StreamCount() == st.NbQ() * |st.fwdPorts|
  {
    var n := |st.fwdPorts|;
    if st.UsesRss() {
      DivModUnique(st.NbQ() * n, TWO_16, 0, st.NbQ() * n);
    } else {
      assert st.NbQ() == 1;
      DivModUnique(n, TWO_16, 0, n);
    }
  }

  lemma EveryPairPolled(st: Settings, i: nat, q: nat)
    requires st.Valid() && st.numProcs == 1
    requires i < |st.fwdPorts| && q < st.NbQ() && st.NbQ() * |st.fwdPorts| < TWO_16
    ensures PairPolled(st.Streams(), st.fwdPorts[i], q)
  {
    var n := |st.fwdPorts|;
    CountWithoutWrap(st);
    StreamIndex(n, i, q, st.NbQ());
    StreamShape(st, q * n + i);
    assert Polls(st.Streams(), q * n + i, st.fwdPorts[i], q);
  }

  /** When the stream count wraps, the last queue of the last port is polled by nobody. */
  lemma LastPairLost(st: Settings)
    requires st.Valid() && st.numProcs == 1 && Distinct(st.fwdPorts)
    requires TWO_16 <= st.NbQ() * |st.fwdPorts|
    ensures st.fwdPorts != [] && !PairPolled(st.Streams(), st.fwdPorts[|st.fwdPorts|-1], st.NbQ() - 1)
  {
    var n, nbQ := |st.fwdPorts|, st.NbQ();
    assert st.UsesRss();
    assert n > 0 by { assert nbQ * 0 == 0; }
    if PairPolled(st.Streams(), st.fwdPorts[n-1], nbQ - 1) {
      var s: nat :| Polls(st.Streams(), s, st.fwdPorts[n-1], nbQ - 1);
      LastPairIndex(st, s);
      assert false;
    }
  }

  lemma LastIndex(s: nat, n: nat, nbQ: nat)
    requires 0 < n && s % n == n - 1 && s / n == nbQ - 1
    ensures s == nbQ * n - 1
  {
    assert s == (nbQ - 1) * n + (n - 1);
    assert (nbQ - 1) * n + n == nbQ * n;
  }

  lemma LastPairIndex(st: Settings, s: nat)
    requires st.Valid() && st.numProcs == 1 && Distinct(st.fwdPorts) && st.fwdPorts != []
    requires Polls(st.Streams(), s, st.fwdPorts[|st.fwdPorts|-1], st.NbQ() - 1)
    ensures s == st.NbQ() * |st.fwdPorts| - 1
  {
    var n, nbQ := |st.fwdPorts|, st.NbQ();
    StreamShape(st, s);
    assert s % n == n - 1;
    LastIndex(s, n, nbQ);
  }

  /** In a single process no two streams send on the same queue of the same port. */
  lemma NoSharedTxQueue(st: Settings)
    requires st.Valid() && st.numProcs == 1 && Distinct(st.fwdPorts)
    ensures forall s, s' :: 0 <= s < s' < |st.Streams()| ==>
      st.Streams()[s].txPort != st.Streams()[s'].txPort || st.Streams()[s].txQueue != st.Streams()[s'].txQueue
  {
    forall s: nat, s': nat | s < s' < |st.Streams()|
      ensures st.Streams()[s].txPort != st.Streams()[s'].txPort || st.Streams()[s].txQueue != st.Streams()[s'].txQueue
    {
      StreamsPollApart(st, s, s');
    }
  }

  /** Lcore number `k` runs a stream that polls the pair. */
  ghost predicate LcorePolls(ls: seq<Lcore>, ss: seq<Stream>, k: nat, port: nat, queue: nat) {
    k < |ls| && exists s: nat :: ls[k].Runs(s) && Polls(ss, s, port, queue)
  }

  /** One lcore polls the pair, and no other one does. */
  ghost predicate OneLcorePolls(ls: seq<Lcore>, ss: seq<Stream>, port: nat, queue: nat) {
    exists k: nat ::
      LcorePolls(ls, ss, k, port, queue) && forall j: nat :: LcorePolls(ls, ss, j, port, queue) ==> j == k
  }

  /** Every pair is polled by exactly one lcore when the streams fit. */
  lemma ExclusivePolling(st: Settings, i: nat, q: nat) returns (k: nat)
    requires st.Valid() && st.numProcs == 1 && Distinct(st.fwdPorts)
    requires st.NbQ() * |st.fwdPorts| < TWO_16
    requires i < |st.fwdPorts| && q < st.NbQ()
    ensures LcorePolls(st.Lcores(), st.Streams(), k, st.fwdPorts[i], q)
    ensures forall j: nat :: LcorePolls(st.Lcores(), st.Streams(), j, st.fwdPorts[i], q) ==> j == k
    ensures OneLcorePolls(st.Lcores(), st.Streams(), st.fwdPorts[i], q)
  {
    var ls, ss, port := st.Lcores(), st.Streams(), st.fwdPorts[i];
    EveryPairPolled(st, i, q);
    var s: nat :| Polls(ss, s, port, q);
    LcoresTile(st.StreamCount(), st.LcoreCount());
    k := TilingOwner(ls, st.StreamCount(), s);
    assert LcorePolls(ls, ss, k, port, q);
    forall j: nat | LcorePolls(ls, ss, j, port, q) ensures j == k {
      var s': nat :| ls[j].Runs(s') && Polls(ss, s', port, q);
      SameStream(st, s, s', port, q);
    }
  }

  lemma SameStream(st: Settings, s: nat, s': nat, port: nat, q: nat)
    requires st.Valid() && st.numProcs == 1 && Distinct(st.fwdPorts)
    requires Polls(st.Streams(), s, port, q) && Polls(st.Streams(), s', port, q)
    ensures s == s'
  {
    ExactCover(st);
  }
}
