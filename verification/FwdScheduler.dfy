/**
  * The forwarding configuration as the program builds it: arrays of lcores and streams
  * that are filled in place, and the check that no shared receive queue is spread over lcores.
  */
module FwdScheduler {
  import opened Arith
  import opened Distinctness
  import opened FwdPlan
  import opened FwdProcesses

  /** The sharing of one receive queue. */
  datatype RxqConf = RxqConf(shareGroup: nat, shareQid: nat)

  /** What is known of a port id: whether it has a device, what the device offers, and its receive queues. */
  datatype PortInfo = PortInfo(
    present: bool, maxRxq: nat, maxTxq: nat, shareCapable: bool, domainId: nat,
    defaultConf: RxqConf, rxq: seq<RxqConf>)

  ghost predicate InfoCovers(infos: seq<PortInfo>, s: Stream) {
    s.rxPort < |infos| && infos[s.rxPort].present && s.rxQueue < |infos[s.rxPort].rxq|
  }

  /** Every device has the queues that are asked for. */
  ghost predicate QueuesOffered(infos: seq<PortInfo>, st: Settings) {
    forall p :: 0 <= p < |infos| && infos[p].present ==> st.nbRxq <= infos[p].maxRxq && st.nbTxq <= infos[p].maxTxq
  }

  /** The forwarding ports have devices, and every device has records for its receive queues. */
  ghost predicate PortsKnown(infos: seq<PortInfo>, st: Settings) {
    && (forall p :: p in st.fwdPorts ==> p < |infos| && infos[p].present)
    && (forall p: nat :: p < |infos| && infos[p].present ==> |infos[p].rxq| >= st.nbRxq)
  }

  /** The queue of a stream takes part in sharing. */
  predicate Shared(infos: seq<PortInfo>, s: Stream)
    requires InfoCovers(infos, s)
  {
    infos[s.rxPort].shareCapable && infos[s.rxPort].rxq[s.rxQueue].shareGroup != 0
  }

  /** Two streams read the same shared queue: same switch domain, group and queue id. */
  predicate SameSharedQueue(infos: seq<PortInfo>, s: Stream, t: Stream)
    requires InfoCovers(infos, s) && InfoCovers(infos, t)
  {
    && Shared(infos, s)
    && Shared(infos, t)
    && infos[s.rxPort].domainId == infos[t.rxPort].domainId
    && infos[s.rxPort].rxq[s.rxQueue] == infos[t.rxPort].rxq[t.rxQueue]
  }

  ghost predicate RunsOn(ls: seq<Lcore>, k: int, s: int) {
    0 <= k < |ls| && 0 <= s && ls[k].Runs(s)
  }

  ghost predicate Readable(infos: seq<PortInfo>, ls: seq<Lcore>, ss: seq<Stream>) {
    forall k, s :: RunsOn(ls, k, s) ==> s < |ss| && InfoCovers(infos, ss[s])
  }

  /** The symmetric statement of the rule: a shared queue is never read by two lcores. */
  ghost predicate NoSplitQueue(infos: seq<PortInfo>, ls: seq<Lcore>, ss: seq<Stream>)
    requires Readable(infos, ls, ss)
  {
    forall j, k, s, t :: RunsOn(ls, j, s) && RunsOn(ls, k, t) && j != k ==> !SameSharedQueue(infos, ss[s], ss[t])
  }

  class Scheduler {
    var st: Settings
    var nbPorts: nat              // ports probed
    var rxqShare: nat
    var infos: seq<PortInfo>

    var curStreams: nat           // cur_fwd_config
    var curLcores: nat
    var fwdLcores: array<Lcore>
    var fwdStreams: array<Stream>
    var streamLcore: array<int>   // the `lcore` field of each stream

    constructor (st: Settings, nbPorts: nat, rxqShare: nat, infos: seq<PortInfo>, nbLcores: nat)
      ensures this.st == st && this.nbPorts == nbPorts && this.rxqShare == rxqShare && this.infos == infos
      ensures fwdLcores.Length == nbLcores && fwdStreams.Length == streamLcore.Length == 0
    {
      this.st, this.nbPorts, this.rxqShare, this.infos := st, nbPorts, rxqShare, infos;
      curStreams, curLcores := 0, 0;
      fwdLcores := new Lcore[nbLcores](_ => Lcore(0, 0));
      fwdStreams := new Stream[0];
      streamLcore := new int[0];
    }

    /** How many streams there are after `init_fwd_streams`, which may refuse and keep the old ones. */
    ghost function Room(): nat
      reads this
    {
      if QueuesOffered(infos, st) then Allocated(nbPorts, st) else fwdStreams.Length
    }

    /** The sizes fit: there are lcore slots, and room for the streams in use. */
    ghost predicate Valid()
      reads this
    {
      && st.Valid()
      && st.nbFwdLcores <= fwdLcores.Length
      && streamLcore.Length == fwdStreams.Length
      && st.StreamCount() <= Room()
    }

    /** `setup_fwd_config_of_each_lcore`: fill the lcores one after the other. */
    method SetupLcores()
      requires curLcores <= fwdLcores.Length
      requires curLcores == 0 ==> curStreams == 0
      modifies fwdLcores
      ensures fwdLcores[..curLcores] == LcoreSplit(curStreams, curLcores)
      ensures forall k :: curLcores <= k < fwdLcores.Length ==> fwdLcores[k] == old(fwdLcores[k])
    {
      var nbFs, nbFc := curStreams, curLcores;
      var perLcore, nbExtra := 1, 0;
      if nbFs > nbFc {
        perLcore, nbExtra := nbFs / nbFc, nbFs % nbFc;
      }
      var plain := nbFc - nbExtra;
      if nbFc > 0 {
        var smId := FillLcores(0, plain, perLcore, 0);
        smId := FillLcores(plain, nbFc, perLcore + 1, smId);
      }
    }

    /** A loop of `setup_fwd_config_of_each_lcore`: consecutive lcores with the same number of streams. */
    method FillLcores(from: nat, to: nat, perLcore: nat, first: nat) returns (smId: nat)
      requires 0 < curLcores <= fwdLcores.Length && from <= to <= curLcores
      requires from < curLcores ==> first == LcoreAt(curStreams, curLcores, from).streamIdx
      requires forall k :: from <= k < to ==> LcoreAt(curStreams, curLcores, k).streamNb == perLcore
      modifies fwdLcores
      ensures to < curLcores ==> smId == LcoreAt(curStreams, curLcores, to).streamIdx
      ensures forall k :: from <= k < to ==> fwdLcores[k] == LcoreAt(curStreams, curLcores, k)
      ensures forall k :: 0 <= k < fwdLcores.Length && !(from <= k < to) ==> fwdLcores[k] == old(fwdLcores[k])
    {
      smId := first;
      for k := from to to
        invariant k < curLcores ==> smId == LcoreAt(curStreams, curLcores, k).streamIdx
        invariant forall j :: from <= j < k ==> fwdLcores[j] == LcoreAt(curStreams, curLcores, j)
        invariant forall j :: 0 <= j < fwdLcores.Length && !(from <= j < k) ==> fwdLcores[j] == old(fwdLcores[j])
      {
        fwdLcores[k] := Lcore(smId, perLcore);
        smId := smId + perLcore;
        if k + 1 < curLcores {
          LcoreFollows(curStreams, curLcores, k + 1);
        }
      }
    }

    /**
      * `init_fwd_streams`: as many streams as ports times the larger queue count, in 16 bits. When a
      * device has too few queues nothing changes, and no caller looks at the result.
      */
    method InitStreams() returns (ok: bool)
      requires st.Valid() && streamLcore.Length == fwdStreams.Length
      modifies this`fwdStreams, this`streamLcore
      ensures ok <==> QueuesOffered(infos, st)
      ensures streamLcore.Length == fwdStreams.Length == old(Room())
      ensures fwdStreams == old(fwdStreams) || fresh(fwdStreams)
      ensures streamLcore == old(streamLcore) || fresh(streamLcore)
      ensures fwdStreams.Length == old(fwdStreams.Length) ==>
        fwdStreams == old(fwdStreams) && streamLcore == old(streamLcore)
    {
      for pid := 0 to |infos|
        invariant forall p :: 0 <= p < pid && infos[p].present ==>
          st.nbRxq <= infos[p].maxRxq && st.nbTxq <= infos[p].maxTxq
      {
        if infos[pid].present && (st.nbRxq > infos[pid].maxRxq || st.nbTxq > infos[pid].maxTxq) {
          return false;
        }
      }
      var count := nbPorts * Max(st.nbRxq, st.nbTxq) % TWO_16;
      if count != fwdStreams.Length {
        fwdStreams := new Stream[count](_ => Stream(0, 0, 0, 0, 0));
        streamLcore := new int[count](_ => -1);
      }
      return true;
    }

    /** `rss_fwd_config_setup`: hand out the queues of this process port by port. */
    method RssSetup()
      requires Valid() && st.UsesRss()
      modifies this`curStreams, this`curLcores, this`fwdStreams, this`streamLcore, fwdLcores, fwdStreams
      ensures Planned()
      ensures fwdStreams == old(fwdStreams) || fresh(fwdStreams)
      ensures streamLcore == old(streamLcore) || fresh(streamLcore)
    {
      var nbQ := st.NbQ();
      curStreams := nbQ * |st.fwdPorts| % TWO_16;
      curLcores := if curStreams < st.nbFwdLcores then curStreams else st.nbFwdLcores;
      var _ := InitStreams();
      SetupLcores();
      if curStreams > 0 {
        assert st.fwdPorts != [] by { assert nbQ * 0 == 0; }
        RoundRobin(st, fwdStreams, curStreams);
      }
    }

    /** The loop of `rss_fwd_config_setup`: all ports on one queue, then all ports on the next. */
    static method RoundRobin(st: Settings, streams: array<Stream>, count: nat)
      requires st.numProcs > 0 && st.UsesRss() && st.fwdPorts != [] && count <= streams.Length
      modifies streams
      ensures forall j :: 0 <= j < count ==> streams[j] == st.StreamAt(j)
    {
      var nbQ, ports := st.NbQ(), |st.fwdPorts|;
      var start := st.procId * nbQ / st.numProcs;
      var end := start + nbQ / st.numProcs;
      var rxp, rxq := 0, start;
      for smId := 0 to count
        invariant rxp == smId % ports && rxq == st.QueueAt(smId / ports)
        invariant forall j :: 0 <= j < smId ==> streams[j] == st.StreamAt(j)
      {
        var txp := TxIndex(st.topology, ports, rxp);
        streams[smId] := Stream(st.fwdPorts[rxp], rxq, st.fwdPorts[txp], rxq, st.fwdPorts[txp]);
        DivModNext(smId, ports);
        rxp := rxp + 1;
        if rxp >= ports {
          rxp := 0;
          QueueAfter(st, smId / ports);
          rxq := rxq + 1;
          if rxq >= end {
            rxq := start;
          }
        }
      }
    }

    /** `simple_fwd_config_setup`: one stream per port, always on queue 0. */
    method SimpleSetup()
      requires Valid() && !st.UsesRss()
      modifies this`curStreams, this`curLcores, this`fwdStreams, this`streamLcore, fwdLcores, fwdStreams
      ensures Planned()
      ensures fwdStreams == old(fwdStreams) || fresh(fwdStreams)
      ensures streamLcore == old(streamLcore) || fresh(streamLcore)
    {
      CountOfPorts(st);
      curStreams := |st.fwdPorts|;
      var _ := InitStreams();
      curLcores := if st.nbFwdLcores > |st.fwdPorts| then |st.fwdPorts| else st.nbFwdLcores;
      SetupLcores();
      OnePerPort(st, fwdStreams);
    }

    /** The loop of `simple_fwd_config_setup`. */
    static method OnePerPort(st: Settings, streams: array<Stream>)
      requires st.numProcs > 0 && !st.UsesRss() && |st.fwdPorts| <= streams.Length
      modifies streams
      ensures forall j :: 0 <= j < |st.fwdPorts| ==> streams[j] == st.StreamAt(j)
    {
      for i := 0 to |st.fwdPorts|
        invariant forall j :: 0 <= j < i ==> streams[j] == st.StreamAt(j)
      {
        var txPort := st.fwdPorts[TxIndex(st.topology, |st.fwdPorts|, i)];
        DivModUnique(i, |st.fwdPorts|, 0, i);
        streams[i] := Stream(st.fwdPorts[i], 0, txPort, 0, txPort);
      }
    }

    /** The arrays hold exactly the planned streams and lcores, within what was allocated. */
    ghost predicate Planned()
      reads this, fwdLcores, fwdStreams
    {
      && st.Valid()
      && curStreams == st.StreamCount() <= fwdStreams.Length == streamLcore.Length
      && curLcores == st.LcoreCount() <= fwdLcores.Length
      && fwdStreams[..curStreams] == st.Streams()
      && fwdLcores[..curLcores] == st.Lcores()
    }

    /** `fwd_config_setup`. */
    method ConfigSetup()
      requires Valid()
      modifies this`curStreams, this`curLcores, this`fwdStreams, this`streamLcore, fwdLcores, fwdStreams
      ensures Planned()
      ensures Distinct(st.fwdPorts) ==>
        forall s :: 0 <= s < curStreams ==> SendsRight(st, fwdStreams[s]) && fwdStreams[s].rxPort in st.fwdPorts
      ensures fwdStreams == old(fwdStreams) || fresh(fwdStreams)
      ensures streamLcore == old(streamLcore) || fresh(streamLcore)
    {
      if st.nbRxq > 1 && st.nbTxq > 1 {
        RssSetup();
      } else {
        SimpleSetup();
      }
      if Distinct(st.fwdPorts) {
        StreamsSendRight(st);
        assert forall s :: 0 <= s < curStreams ==> fwdStreams[s] == fwdStreams[..curStreams][s];
        forall s: nat | s < curStreams ensures fwdStreams[s].rxPort in st.fwdPorts {
          QueueInRange(st, s);
        }
      }
    }

    ghost predicate Checkable()
      reads this, fwdLcores, fwdStreams
    {
      && curLcores <= fwdLcores.Length
      && curStreams <= fwdStreams.Length == streamLcore.Length
      && Readable(infos, fwdLcores[..curLcores], fwdStreams[..curStreams])
    }

    /** `fwd_stream_on_other_lcores`: does an lcore after `srcLc` read the same shared queue as `src`? */
    method OnOtherLcores(srcLc: nat, src: Stream) returns (found: bool)
      requires Checkable() && srcLc < curLcores
      requires InfoCovers(infos, src) && Shared(infos, src)
      ensures found <==>
        exists k, t :: srcLc < k && RunsOn(fwdLcores[..curLcores], k, t) && SameSharedQueue(infos, src, fwdStreams[t])
    {
      ghost var ls := fwdLcores[..curLcores];
      for lc := srcLc + 1 to curLcores
        invariant forall k, t :: srcLc < k < lc && RunsOn(ls, k, t) ==> !SameSharedQueue(infos, src, fwdStreams[t])
      {
        var smId := fwdLcores[lc].streamIdx;
        while smId < fwdLcores[lc].streamIdx + fwdLcores[lc].streamNb
          invariant fwdLcores[lc].streamIdx <= smId <= fwdLcores[lc].streamIdx + fwdLcores[lc].streamNb
          invariant forall t :: RunsOn(ls, lc, t) && t < smId ==> !SameSharedQueue(infos, src, fwdStreams[t])
        {
          assert RunsOn(ls, lc, smId);
          var fs := fwdStreams[smId];
          var port := infos[fs.rxPort];
          var conf := port.rxq[fs.rxQueue];
          if port.shareCapable && conf.shareGroup != 0
             && infos[src.rxPort].domainId == port.domainId
             && conf.shareGroup == infos[src.rxPort].rxq[src.rxQueue].shareGroup
             && conf.shareQid == infos[src.rxPort].rxq[src.rxQueue].shareQid
          {
            return true;
          }
          smId := smId + 1;
        }
      }
      return false;
    }

    /**
      * `pkt_fwd_shared_rxq_check`: the scan looks only at later lcores, yet it decides the
      * symmetric rule; on success each scanned stream knows the lcore it runs on.
      */
    method SharedRxqCheck() returns (ok: bool)
      requires Checkable()
      modifies streamLcore
      ensures rxqShare > 0 ==> (ok <==> NoSplitQueue(infos, fwdLcores[..curLcores], fwdStreams[..curStreams]))
      ensures rxqShare == 0 ==> ok && streamLcore[..] == old(streamLcore[..])
      ensures rxqShare > 0 && ok ==>
        forall k, s {:trigger RunsOn(fwdLcores[..curLcores], k, s)} :: RunsOn(fwdLcores[..curLcores], k, s) ==>
          RunsOn(fwdLcores[..curLcores], streamLcore[s], s)
    {
      if rxqShare == 0 {
        return true;
      }
      ghost var ls, ss := fwdLcores[..curLcores], fwdStreams[..curStreams];
      for lc := 0 to curLcores
        invariant forall j, k, s, t :: j < lc && RunsOn(ls, j, s) && j < k && RunsOn(ls, k, t) ==>
          !SameSharedQueue(infos, ss[s], ss[t])
        invariant forall k, s {:trigger RunsOn(ls, k, s)} ::
          k < lc && RunsOn(ls, k, s) ==> RunsOn(ls, streamLcore[s], s)
      {
        ok := CheckLcore(lc);
        assert fwdLcores[..curLcores] == ls && fwdStreams[..curStreams] == ss;
        if !ok {
          return;
        }
      }
      return true;
    }

    /** The check of the streams of one lcore against the later lcores. */
    method CheckLcore(lc: nat) returns (ok: bool)
      requires Checkable() && lc < curLcores
      modifies streamLcore
      ensures ok ==> forall k, s, t ::
        RunsOn(fwdLcores[..curLcores], lc, s) && lc < k && RunsOn(fwdLcores[..curLcores], k, t) ==>
        !SameSharedQueue(infos, fwdStreams[s], fwdStreams[t])
      ensures !ok ==> !NoSplitQueue(infos, fwdLcores[..curLcores], fwdStreams[..curStreams])
      ensures ok ==> forall s :: RunsOn(fwdLcores[..curLcores], lc, s) ==> streamLcore[s] == lc
      ensures forall s :: 0 <= s < streamLcore.Length ==>
        streamLcore[s] == old(streamLcore[s]) || (streamLcore[s] == lc && RunsOn(fwdLcores[..curLcores], lc, s))
    {
      ghost var ls, ss := fwdLcores[..curLcores], fwdStreams[..curStreams];
      var smId := fwdLcores[lc].streamIdx;
      while smId < fwdLcores[lc].streamIdx + fwdLcores[lc].streamNb
        invariant fwdLcores[lc].streamIdx <= smId <= fwdLcores[lc].streamIdx + fwdLcores[lc].streamNb
        invariant forall k, s, t :: RunsOn(ls, lc, s) && s < smId && lc < k && RunsOn(ls, k, t) ==>
          !SameSharedQueue(infos, ss[s], ss[t])
        invariant forall s :: RunsOn(ls, lc, s) && s < smId ==> streamLcore[s] == lc
        invariant forall s :: 0 <= s < streamLcore.Length ==>
          streamLcore[s] == old(streamLcore[s]) || (streamLcore[s] == lc && RunsOn(ls, lc, s))
      {
        assert RunsOn(ls, lc, smId);
        var fs := fwdStreams[smId];
        streamLcore[smId] := lc;
        if infos[fs.rxPort].shareCapable && infos[fs.rxPort].rxq[fs.rxQueue].shareGroup != 0 {
          var other := OnOtherLcores(lc, fs);
          if other {
            return false;
          }
        }
        smId := smId + 1;
      }
      return true;
    }

    /**
      * The part of `start_packet_forwarding` that decides whether forwarding may run: with the
      * lcore count that the error message advises, the check passes.
      */
    method Prepare() returns (ok: bool)
      requires Valid()
      requires PortsKnown(infos, st)
      modifies this`curStreams, this`curLcores, this`fwdStreams, this`streamLcore, fwdLcores, fwdStreams, streamLcore
      ensures Planned()
      ensures ok <==>
        rxqShare == 0 || (Readable(infos, st.Lcores(), st.Streams()) && NoSplitQueue(infos, st.Lcores(), st.Streams()))
      ensures rxqShare > 0 && SharesAsConfigured(infos, rxqShare, st) ==>
        (ok <==> !exists i, i', q, k, k' :: SplitAt(infos, rxqShare, st, i, i', q, k, k'))
      ensures rxqShare > 0 && AsAdvised(infos, rxqShare, st) ==> ok
    {
      ConfigSetup();
      PlanReadable(infos, st);
      if rxqShare > 0 && SharesAsConfigured(infos, rxqShare, st) {
        SplitIff(infos, rxqShare, st);
      }
      if rxqShare > 0 && AsAdvised(infos, rxqShare, st) {
        AdvisedLcoresSuffice(infos, rxqShare, st);
      }
      ok := SharedRxqCheck();
    }

    /**
      * `init_port_config`: each device in turn gets its sharing, until the driver fails to describe
      * one. With all of them done the ports are as the advice of the error message takes them to be.
      */
    method ConfigurePorts() returns (done: nat)
      requires forall p :: 0 <= p < |infos| && infos[p].present ==> st.nbRxq <= |infos[p].rxq|
      modifies this`infos
      ensures done <= |infos| == |old(infos)|
      ensures forall p :: 0 <= p < |infos| ==>
        infos[p] ==
          if p < done && old(infos[p].present) then WithShares(p, st.nbRxq, rxqShare, old(infos[p]))
          else old(infos[p])
      ensures done == |infos| && rxqShare > 0 ==> Configured(infos, st.nbRxq, rxqShare)
    {
      ghost var before := infos;
      done := 0;
      while done < |infos|
        invariant done <= |infos| == |before|
        invariant forall p :: 0 <= p < |infos| ==>
          infos[p] == if p < done && before[p].present then WithShares(p, st.nbRxq, rxqShare, before[p]) else before[p]
      {
        if infos[done].present {
          if * {
            break;
          }
          var info := infos[done];
          var rxq := new RxqConf[|info.rxq|](i requires 0 <= i < |info.rxq| => info.rxq[i]);
          assert rxq[..] == info.rxq;
          ConfigureShares(done, st.nbRxq, rxqShare, info.shareCapable, info.defaultConf, rxq);
          assert info.(rxq := rxq[..]) == WithShares(done, st.nbRxq, rxqShare, info);
          infos := infos[done := info.(rxq := rxq[..])];
        }
        done := done + 1;
      }
    }
  }

  /** The number of streams that `init_fwd_streams` allocates. */
  function Allocated(nbPorts: nat, st: Settings): nat { nbPorts * Max(st.nbRxq, st.nbTxq) % TWO_16 }

  /**
    * The exact condition for staying inside the allocated streams: every stream that some lcore is
    * given exists if and only if the count in use is at most the count allocated.
    */
  lemma AllocationCoversIff(nbPorts: nat, st: Settings)
    requires st.Valid()
    ensures (forall k, s :: RunsOn(st.Lcores(), k, s) ==> s < Allocated(nbPorts, st))
      <==> st.StreamCount() <= Allocated(nbPorts, st)
  {
    var ls, count := st.Lcores(), st.StreamCount();
    LcoresTile(count, st.LcoreCount());
    forall k, s | RunsOn(ls, k, s) ensures s < count {
      TilingBelowEnd(ls, count, k);
    }
    if count > 0 {
      var k := TilingOwner(ls, count, count - 1);
      assert RunsOn(ls, k, count - 1);
    }
  }

  /** It is enough that the allocated count does not wrap and the forwarding ports are among the known ones. */
  lemma AllocationCovers(nbPorts: nat, st: Settings)
    requires st.Valid() && |st.fwdPorts| <= nbPorts && nbPorts * Max(st.nbRxq, st.nbTxq) < TWO_16
    ensures st.StreamCount() <= Allocated(nbPorts, st)
    ensures nbPorts * st.nbRxq <= Allocated(nbPorts, st) && nbPorts * st.nbTxq <= Allocated(nbPorts, st)
    ensures Allocated(nbPorts, st) in {nbPorts * st.nbRxq, nbPorts * st.nbTxq}
  {
    var n, q, big := |st.fwdPorts|, st.NbQ(), Max(st.nbRxq, st.nbTxq);
    MulMonotone(q, big, n);
    MulMonotone(n, nbPorts, big);
    MulMonotone(1, q, n);
    assert big * n == n * big;
    CountWithoutWrap(st);
    DivModUnique(nbPorts * big, TWO_16, 0, nbPorts * big);
    MulMonotone(st.nbRxq, big, nbPorts);
    MulMonotone(st.nbTxq, big, nbPorts);
    assert st.nbRxq * nbPorts == nbPorts * st.nbRxq && st.nbTxq * nbPorts == nbPorts * st.nbTxq;
  }

  lemma CountOfPorts(st: Settings)
    requires st.Valid() && !st.UsesRss()
    ensures st.StreamCount() == |st.fwdPorts|
  {
    DivModUnique(|st.fwdPorts|, TWO_16, 0, |st.fwdPorts|);
  }

  /**
    * That the streams in use fit 16 bits is not enough: 256 known ports with 256 queues wrap the
    * allocated count to 0, and even one forwarding port is then out of bounds.
    */
  lemma AllocationCanWrap() returns (nbPorts: nat, st: Settings)
    ensures st.Valid() && |st.fwdPorts| <= nbPorts && st.NbQ() * |st.fwdPorts| < TWO_16
    ensures Allocated(nbPorts, st) < st.StreamCount()
  {
    nbPorts, st := 256, Settings(256, 256, 1, [0], 0, 1, Loop);
    assert Max(256, 256) == 256 && st.NbQ() == 256;
  }

  // ----- the advised number of lcores

  /**
    * When ports share as configured, a queue is split over lcores if and only if two different ports
    * of one switch domain and one block of `rxqShare` ports have it polled by different lcores.
    */
  lemma SplitIff(infos: seq<PortInfo>, rxqShare: nat, st: Settings)
    requires st.Valid() && rxqShare > 0 && SharesAsConfigured(infos, rxqShare, st) && PortsKnown(infos, st)
    ensures Readable(infos, st.Lcores(), st.Streams())
    ensures !NoSplitQueue(infos, st.Lcores(), st.Streams()) <==>
      exists i, i', q, k, k' :: SplitAt(infos, rxqShare, st, i, i', q, k, k')
  {
    var ls, ss := st.Lcores(), st.Streams();
    PlanReadable(infos, st);
    if !NoSplitQueue(infos, ls, ss) {
      var k, k', s, s' :| RunsOn(ls, k, s) && RunsOn(ls, k', s') && k != k' && SameSharedQueue(infos, ss[s], ss[s']);
      SplitFromStreams(infos, rxqShare, st, k, k', s, s');
    }
    forall i, i', q, k, k' | SplitAt(infos, rxqShare, st, i, i', q, k, k') ensures !NoSplitQueue(infos, ls, ss) {
      StreamsFromSplit(infos, rxqShare, st, i, i', q, k, k');
    }
  }

  /** Configured ports, one process over different ports, and streams that fit. */
  ghost predicate SharesAsConfigured(infos: seq<PortInfo>, rxqShare: nat, st: Settings)
    requires rxqShare > 0
  {
    && Configured(infos, st.nbRxq, rxqShare)
    && st.numProcs == 1
    && Distinct(st.fwdPorts)
    && st.NbQ() * |st.fwdPorts| < TWO_16
  }

  ghost predicate SplitAt(
      infos: seq<PortInfo>, rxqShare: nat, st: Settings, i: nat, i': nat, q: nat, k: nat, k': nat)
    requires st.Valid() && rxqShare > 0
  {
    && i < |st.fwdPorts| && i' < |st.fwdPorts| && i != i' && q < st.NbQ() && k != k'
    && var p, p' := st.fwdPorts[i], st.fwdPorts[i'];
    && p < |infos| && p' < |infos|
    && infos[p].shareCapable && infos[p'].shareCapable && infos[p].domainId == infos[p'].domainId
    && p / rxqShare == p' / rxqShare
    && LcorePolls(st.Lcores(), st.Streams(), k, p, q) && LcorePolls(st.Lcores(), st.Streams(), k', p', q)
  }

  lemma SplitFromStreams(
      infos: seq<PortInfo>, rxqShare: nat, st: Settings, k: nat, k': nat, s: nat, s': nat)
    requires st.Valid() && rxqShare > 0 && SharesAsConfigured(infos, rxqShare, st) && PortsKnown(infos, st)
    requires Readable(infos, st.Lcores(), st.Streams())
    requires RunsOn(st.Lcores(), k, s) && RunsOn(st.Lcores(), k', s') && k != k'
    requires SameSharedQueue(infos, st.Streams()[s], st.Streams()[s'])
    ensures exists i, i', q :: SplitAt(infos, rxqShare, st, i, i', q, k, k')
  {
    var ls, ss, n := st.Lcores(), st.Streams(), |st.fwdPorts|;
    QueueInRange(st, s);
    QueueInRange(st, s');
    var i, i', q := s % n, s' % n, ss[s].rxQueue;
    assert Polls(ss, s, st.fwdPorts[i], q) && Polls(ss, s', st.fwdPorts[i'], q);
    assert LcorePolls(ls, ss, k, st.fwdPorts[i], q) && LcorePolls(ls, ss, k', st.fwdPorts[i'], q);
    if i == i' {
      SameStream(st, s, s', st.fwdPorts[i], q);
      LcoresTile(st.StreamCount(), st.LcoreCount());
      var owner := TilingOwner(ls, st.StreamCount(), s);
    }
    assert SplitAt(infos, rxqShare, st, i, i', q, k, k');
  }

  lemma StreamsFromSplit(
      infos: seq<PortInfo>, rxqShare: nat, st: Settings, i: nat, i': nat, q: nat, k: nat, k': nat)
    requires st.Valid() && rxqShare > 0 && Configured(infos, st.nbRxq, rxqShare) && PortsKnown(infos, st)
    requires Readable(infos, st.Lcores(), st.Streams())
    requires SplitAt(infos, rxqShare, st, i, i', q, k, k')
    ensures !NoSplitQueue(infos, st.Lcores(), st.Streams())
  {
    var ls, ss := st.Lcores(), st.Streams();
    var s: nat :| ls[k].Runs(s) && Polls(ss, s, st.fwdPorts[i], q);
    var s': nat :| ls[k'].Runs(s') && Polls(ss, s', st.fwdPorts[i'], q);
    assert RunsOn(ls, k, s) && RunsOn(ls, k', s');
    assert SameSharedQueue(infos, ss[s], ss[s']);
  }

  /** Ports share a group exactly when they lie in one block of `rxqShare` consecutive ids; no group is 0. */
  lemma GroupsAreBlocks(p: nat, p': nat, rxqShare: nat, default: RxqConf, q: nat)
    requires rxqShare > 0
    ensures ShareConf(p, rxqShare, true, default, q).shareGroup != 0
    ensures ShareConf(p, rxqShare, true, default, q).shareGroup == ShareConf(p', rxqShare, true, default, q).shareGroup
      <==> exists b: nat :: b * rxqShare <= p < (b + 1) * rxqShare && b * rxqShare <= p' < (b + 1) * rxqShare
  {
    var b, b' := p / rxqShare, p' / rxqShare;
    BlockOf(p, rxqShare, b);
    forall c: nat | c * rxqShare <= p < (c + 1) * rxqShare && c * rxqShare <= p' < (c + 1) * rxqShare
      ensures c == b && c == b'
    {
      BlockOf(p, rxqShare, c);
      BlockOf(p', rxqShare, c);
    }
    if b == b' {
      BlockOf(p', rxqShare, b);
      assert b * rxqShare <= p < (b + 1) * rxqShare && b * rxqShare <= p' < (b + 1) * rxqShare;
    }
  }

  lemma BlockOf(p: nat, m: nat, b: nat)
    requires m > 0
    ensures b * m <= p < (b + 1) * m <==> p / m == b
  {
    assert (b + 1) * m == b * m + m;
    if b * m <= p < (b + 1) * m {
      DivModUnique(p, m, b, p - b * m);
    }
    DivUpper(p, m);
    assert m * (p / m) == (p / m) * m;
  }

  /** The sharing of queue `q` of port `pid`: groups of `rxqShare` ports, and equal queue numbers. */
  function ShareConf(pid: nat, rxqShare: nat, capable: bool, default: RxqConf, q: nat): RxqConf {
    if rxqShare > 0 && capable then RxqConf(pid / rxqShare + 1, q) else default
  }

  ghost function WithShares(pid: nat, nbRxq: nat, rxqShare: nat, info: PortInfo): PortInfo {
    info.(rxq := seq(|info.rxq|, q requires 0 <= q < |info.rxq| =>
      if q < nbRxq then ShareConf(pid, rxqShare, info.shareCapable, info.defaultConf, q) else info.rxq[q]))
  }

  /** `rxtx_port_config`: the sharing of a port's receive queues. */
  method ConfigureShares(pid: nat, nbRxq: nat, rxqShare: nat, capable: bool, default: RxqConf, rxq: array<RxqConf>)
    requires nbRxq <= rxq.Length
    modifies rxq
    ensures forall q :: 0 <= q < nbRxq ==> rxq[q] == ShareConf(pid, rxqShare, capable, default, q)
    ensures forall q :: nbRxq <= q < rxq.Length ==> rxq[q] == old(rxq[q])
  {
    for q := 0 to nbRxq
      invariant forall r :: 0 <= r < q ==> rxq[r] == ShareConf(pid, rxqShare, capable, default, r)
      invariant forall r :: nbRxq <= r < rxq.Length ==> rxq[r] == old(rxq[r])
    {
      rxq[q] := default;
      if rxqShare > 0 && capable {
        rxq[q] := RxqConf(pid / rxqShare + 1, q);
      }
    }
  }

  /** Every port that can share has the sharing that `rxtx_port_config` gives it. */
  ghost predicate Configured(infos: seq<PortInfo>, nbRxq: nat, rxqShare: nat)
    requires rxqShare > 0
  {
    forall p: nat, q: nat ::
      p < |infos| && infos[p].present && infos[p].shareCapable && q < nbRxq && q < |infos[p].rxq| ==>
        infos[p].rxq[q] == RxqConf(p / rxqShare + 1, q)
  }

  lemma QueueInRange(st: Settings, s: nat)
    requires st.Valid() && s < |st.Streams()|
    ensures st.Streams()[s].rxQueue < st.NbQ()
    ensures st.Streams()[s].rxPort in st.fwdPorts
  {
    assert st.fwdPorts != [];
    assert st.Streams()[s] == st.StreamAt(s);
    StreamBelow(st, s);
  }

  lemma StreamBelow(st: Settings, s: nat)
    requires st.Valid() && st.fwdPorts != []
    ensures st.StreamAt(s).rxQueue < st.NbQ() && st.StreamAt(s).rxPort in st.fwdPorts
  {
    QueueAtBelow(st, s / |st.fwdPorts|);
  }

  lemma QueueAtBelow(st: Settings, row: nat)
    requires st.Valid()
    ensures st.QueueAt(row) < st.NbQ()
  {
    StartBelow(st.procId, st.numProcs, st.NbQ());
    RangeInside(st.procId, st.numProcs, st.NbQ());
    ModBelow(row, st.QueueCycle());
  }

  lemma ModBelow(x: nat, m: nat)
    requires m > 0
    ensures x % m < m
  {
  }

  lemma PlanReadable(infos: seq<PortInfo>, st: Settings)
    requires st.Valid() && PortsKnown(infos, st)
    ensures Readable(infos, st.Lcores(), st.Streams())
  {
    var ls, ss := st.Lcores(), st.Streams();
    LcoresTile(st.StreamCount(), st.LcoreCount());
    forall k, s | RunsOn(ls, k, s) ensures s < |ss| && InfoCovers(infos, ss[s]) {
      TilingBelowEnd(ls, |ss|, k);
      QueueInRange(st, s);
    }
  }

  lemma TilingBelowEnd(ls: seq<Lcore>, n: nat, k: nat)
    requires Tiling(ls, n) && k < |ls|
    ensures ls[k].streamIdx + ls[k].streamNb <= n
  {
    if k < |ls| - 1 {
      TilingOrdered(ls, n, k, |ls| - 1);
    }
  }

  /** With as many lcores as receive queues, lcore `k` polls queue `k` of every port and nothing else. */
  lemma OneQueuePerLcore(st: Settings, k: nat)
    requires st.Valid() && st.numProcs == 1 && st.nbFwdLcores == st.nbRxq <= st.nbTxq
    requires st.NbQ() * |st.fwdPorts| < TWO_16
    requires k < |st.Lcores()|
    ensures forall s :: RunsOn(st.Lcores(), k, s) ==> s < |st.Streams()| && st.Streams()[s].rxQueue == k
    ensures forall i: nat :: i < |st.fwdPorts| ==> LcorePolls(st.Lcores(), st.Streams(), k, st.fwdPorts[i], k)
  {
    forall s | RunsOn(st.Lcores(), k, s) ensures s < |st.Streams()| && st.Streams()[s].rxQueue == k {
      QueueOfLcore(st, k, s);
    }
    forall i: nat | i < |st.fwdPorts| ensures LcorePolls(st.Lcores(), st.Streams(), k, st.fwdPorts[i], k) {
      LcoreOfQueue(st, k, i);
    }
  }

  lemma LcoreOfQueue(st: Settings, k: nat, i: nat)
    requires st.Valid() && st.numProcs == 1 && st.nbFwdLcores == st.nbRxq <= st.nbTxq
    requires st.NbQ() * |st.fwdPorts| < TWO_16
    requires k < |st.Lcores()| && i < |st.fwdPorts|
    ensures LcorePolls(st.Lcores(), st.Streams(), k, st.fwdPorts[i], k)
  {
    var n := |st.fwdPorts|;
    AdvisedLcore(st, k);
    CountWithoutWrap(st);
    StreamIndex(n, i, k, st.NbQ());
    StreamShape(st, k * n + i);
    assert st.Lcores()[k].Runs(k * n + i) && Polls(st.Streams(), k * n + i, st.fwdPorts[i], k);
  }

  lemma QueueOfLcore(st: Settings, k: nat, s: nat)
    requires st.Valid() && st.numProcs == 1 && st.nbFwdLcores == st.nbRxq <= st.nbTxq
    requires st.NbQ() * |st.fwdPorts| < TWO_16
    requires RunsOn(st.Lcores(), k, s)
    ensures s < |st.Streams()| && st.Streams()[s].rxQueue == k
  {
    var n := |st.fwdPorts|;
    AdvisedLcore(st, k);
    LcoresTile(st.StreamCount(), st.LcoreCount());
    TilingBelowEnd(st.Lcores(), st.StreamCount(), k);
    StreamShape(st, s);
    DivModUnique(s, n, k, s - k * n);
  }

  lemma AdvisedLcore(st: Settings, k: nat)
    requires st.Valid() && st.nbFwdLcores == st.nbRxq <= st.nbTxq
    requires st.NbQ() * |st.fwdPorts| < TWO_16
    requires k < st.LcoreCount()
    ensures st.fwdPorts != [] && st.Lcores()[k] == Lcore(k * |st.fwdPorts|, |st.fwdPorts|)
  {
    var n, nbQ := |st.fwdPorts|, st.NbQ();
    CountWithoutWrap(st);
    assert n > 0 by { assert nbQ * 0 == 0; }
    MulMonotone(1, n, nbQ);
    assert nbQ * n == n * nbQ;
    LcoreLoadIs(nbQ, n, k);
  }

  lemma LcoreLoadIs(nbQ: nat, n: nat, k: nat)
    requires k < nbQ && n > 0
    ensures LcoreAt(nbQ * n, nbQ, k) == Lcore(k * n, n)
  {
    if n == 1 {
      assert nbQ * n == nbQ;
    } else {
      MulMonotone(2, n, nbQ);
      assert nbQ * n == n * nbQ;
      DivModUnique(n * nbQ, nbQ, n, 0);
    }
  }

  /** Configured ports, one process, streams that fit, and as many lcores as receive queues. */
  ghost predicate AsAdvised(infos: seq<PortInfo>, rxqShare: nat, st: Settings)
    requires rxqShare > 0
  {
    && Configured(infos, st.nbRxq, rxqShare)
    && st.numProcs == 1
    && st.nbFwdLcores == st.nbRxq <= st.nbTxq
    && st.NbQ() * |st.fwdPorts| < TWO_16
  }

  /** The advice of the error message holds when there are at least as many send queues as receive queues. */
  lemma AdvisedLcoresSuffice(infos: seq<PortInfo>, rxqShare: nat, st: Settings)
    requires st.Valid() && rxqShare > 0 && AsAdvised(infos, rxqShare, st)
    requires Readable(infos, st.Lcores(), st.Streams())
    ensures NoSplitQueue(infos, st.Lcores(), st.Streams())
  {
    var ls, ss := st.Lcores(), st.Streams();
    forall j, k, s, t | RunsOn(ls, j, s) && RunsOn(ls, k, t) && j != k
      ensures !SameSharedQueue(infos, ss[s], ss[t])
    {
      QueueOfLcore(st, j, s);
      QueueOfLcore(st, k, t);
    }
  }

  /** A single-process deployment that follows the advice: as many lcores as receive queues. */
  ghost predicate FollowsAdvice(st: Settings, nbRxq: nat, nbTxq: nat, infos: seq<PortInfo>, rxqShare: nat) {
    && st.Valid()
    && st.numProcs == 1
    && st.nbFwdLcores == st.nbRxq == nbRxq
    && st.nbTxq == nbTxq
    && Distinct(st.fwdPorts)
    && st.NbQ() * |st.fwdPorts| < TWO_16
    && rxqShare > 0
    && Configured(infos, nbRxq, rxqShare)
    && Readable(infos, st.Lcores(), st.Streams())
  }

  ghost predicate AdviceWorks(nbRxq: nat, nbTxq: nat) {
    forall st, infos, rxqShare :: FollowsAdvice(st, nbRxq, nbTxq, infos, rxqShare) ==>
      NoSplitQueue(infos, st.Lcores(), st.Streams())
  }

  /**
    * The advised lcore count cures every split, whatever the ports and their grouping, exactly
    * when there are at least as many send queues as receive queues.
    */
  lemma AdviceWorksIff(nbRxq: nat, nbTxq: nat)
    requires 1 <= nbRxq < 0x100 && 1 <= nbTxq < TWO_16
    ensures AdviceWorks(nbRxq, nbTxq) <==> nbRxq <= nbTxq
  {
    if nbRxq <= nbTxq {
      forall st, infos, rxqShare | FollowsAdvice(st, nbRxq, nbTxq, infos, rxqShare)
        ensures NoSplitQueue(infos, st.Lcores(), st.Streams())
      {
        AdvisedLcoresSuffice(infos, rxqShare, st);
      }
    } else {
      AdviceFails(nbRxq, nbTxq);
    }
  }

  /** Two ports of one share group: with fewer send queues, queue 0 ends up on lcores 0 and 1. */
  lemma AdviceFails(nbRxq: nat, nbTxq: nat)
    requires 1 <= nbTxq < nbRxq < 0x100
    ensures !AdviceWorks(nbRxq, nbTxq)
  {
    var st := Settings(nbRxq, nbTxq, nbRxq, [0, 1], 0, 1, Loop);
    var info := PortInfo(true, nbRxq, nbTxq, true, 0, RxqConf(0, 0), seq(nbRxq, q requires q >= 0 => RxqConf(1, q)));
    var infos := [info, info];
    PlanReadable(infos, st);
    assert FollowsAdvice(st, nbRxq, nbTxq, infos, 2);
    TwoPortPlan(st);
    assert RunsOn(st.Lcores(), 0, 0) && RunsOn(st.Lcores(), 1, 1);
    assert SameSharedQueue(infos, st.Streams()[0], st.Streams()[1]);
  }

  /** With two ports and too few send queues, lcores 0 and 1 poll queue 0 of ports 0 and 1. */
  lemma TwoPortPlan(st: Settings)
    requires st.Valid() && st.numProcs == 1 && st.fwdPorts == [0, 1] && st.nbTxq < st.nbRxq == st.nbFwdLcores
    ensures |st.Lcores()| >= 2 && st.Lcores()[0] == Lcore(0, 1) && st.Lcores()[1] == Lcore(1, 1)
    ensures |st.Streams()| >= 2
    ensures st.Streams()[0].rxPort == 0 && st.Streams()[1].rxPort == 1
    ensures st.Streams()[0].rxQueue == 0 && st.Streams()[1].rxQueue == 0
  {
    assert st.NbQ() == st.nbTxq;
    CountWithoutWrap(st);
    var nbFs, nbFc := st.StreamCount(), st.LcoreCount();
    assert BaseLoad(nbFs, nbFc) == 1 && ExtraStreams(nbFs, nbFc) < nbFc by {
      if nbFs > nbFc {
        DivModUnique(nbFs, nbFc, 1, nbFs - nbFc);
      }
    }
    LcoresTile(nbFs, nbFc);
    StreamShape(st, 0);
    StreamShape(st, 1);
  }
}
