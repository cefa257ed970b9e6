/**
  * The life cycle of ports: start, stop, reset, attach, close and device events, against a driver
  * that may fail at any call. The destroy event comes on the interrupt thread, so any port can be
  * lost during any driver call and between a test of its status and the write that follows.
  */
module PortLifecycle {
  import opened Common

  datatype Status = Stopped | Started | Closed | Handling

  /** What the program knows about a port. */
  datatype Port = Port(
    status: Status, needReconfig: bool, needReconfigQueues: bool, needSetup: bool, memberFlag: bool)
  {
    /** The record after the destroy event, if there was one. */
    function Aged(lost: bool): Port { if lost then this.(status := Closed) else this }
  }

  /** What is true of the device, since it was last attached or reset. */
  datatype Device = Device(configured: bool, txUp: set<nat>, rxUp: set<nat>, running: bool) {
    ghost predicate QueuesUp(nbTxq: nat, nbRxq: nat) {
      (forall q: nat :: q < nbTxq ==> q in txUp) && (forall q: nat :: q < nbRxq ==> q in rxUp)
    }
  }

  const BLANK := Device(false, {}, {}, false)

  /** Configured, all queues set up and started: what a port marked as started must be. */
  ghost predicate Ready(d: Device, nbTxq: nat, nbRxq: nat) {
    d.configured && d.QueuesUp(nbTxq, nbRxq) && d.running
  }

  ghost predicate PortOk(pt: Port, d: Device, nbTxq: nat, nbRxq: nat) {
    && (pt.needReconfig ==> pt.needReconfigQueues)
    && (pt.status == Stopped || pt.status == Started ==>
          && (!pt.needReconfig ==> d.configured)
          && (!pt.needReconfigQueues ==> d.QueuesUp(nbTxq, nbRxq)))
    && (pt.status == Started ==> !pt.needReconfig && !pt.needReconfigQueues && Ready(d, nbTxq, nbRxq))
  }

  /** `port_is_stopped`: a bonding member counts as stopped whatever its status. */
  predicate CountsAsStopped(pt: Port) { pt.status == Stopped || pt.memberFlag }

  function AfterSetup(pt: Port): Port {
    pt.(needReconfig := true, needReconfigQueues := true, needSetup := false, status := Stopped)
  }

  /** What the driver answers to each call of one command, by port and by queue. */
  datatype Driver = Driver(
    isolates: nat -> bool,          // flow isolation is applied
    canHairpin: nat -> bool,
    configure: nat -> int,
    describes: nat -> bool,         // the configuration can be read back
    txQueue: (nat, nat) -> int,
    hasPool: (nat, nat) -> bool,    // there is a memory pool for the receive queue
    rxQueue: (nat, nat) -> int,
    hairpin: (nat, nat) -> int,
    start: nat -> int,
    bind: int,                      // of the hairpin queues, at the end of a start
    unbinds: nat -> bool,
    stop: nat -> int,
    reset: nat -> int)

  /** What a start can do to one port that keeps its device, whatever the driver answers. */
  ghost predicate StartOutcome(o: Port, n: Port) {
    if o.status != Stopped then n == o
    else
      && n.status in {Started, Stopped, Handling}
      && n.needSetup == o.needSetup && n.memberFlag == o.memberFlag
      && (n.status == Started ==> !n.needReconfig && !n.needReconfigQueues)
      && (n.needReconfig ==> o.needReconfig && n.status == Stopped)
      && (n.needReconfigQueues ==> o.needReconfigQueues)
  }

  datatype Op =
    | Start(pid: nat, drv: Driver)
    | Stop(pid: nat, driver: Driver)
    | Reset(pid: nat, resetDriver: Driver)
    | Close(pid: nat)
    | Attach(probed: set<nat>, probeOk: bool, onEvent: bool, matching: set<nat>)
    | DestroyEvent(pid: nat)
    | SetForwarding(now: set<nat>)

  class PortManager {
    const maxPorts: nat
    const nbTxq: nat
    const nbRxq: nat
    const nbHairpinq: nat
    const flowIsolateAll: bool
    const hairpinMode: bool
    var ports: array<Port>
    var devs: set<nat>             // the ports that RTE_ETH_FOREACH_DEV goes through
    var forwarding: set<nat>       // the ports for which `port_is_forwarding` holds
    ghost var dev: seq<Device>
    ghost var raised: set<nat>     // ports that a destroy event took away, since they were last attached
    ghost var overwritten: set<nat> // those of them that were marked as started after the event

    ghost predicate Shape()
      reads this
    {
      ports.Length == |dev| == maxPorts && forall p :: p in devs ==> p < maxPorts
    }

    ghost predicate OkAt(p: nat)
      requires Shape() && p < maxPorts
      reads this, ports
    {
      PortOk(ports[p], dev[p], nbTxq, nbRxq)
    }

    /**
      * The invariant of every run. No code of the program sets the bonding member flag. A port is
      * marked as started without a device exactly when the record of its loss was overwritten.
      */
    ghost predicate Inv()
      reads this, ports
    {
      && Shape()
      && raised !! devs
      && (forall p :: p in devs ==> OkAt(p))
      && (forall p :: 0 <= p < maxPorts ==>
            && !ports[p].memberFlag
            && (ports[p].needReconfig ==> ports[p].needReconfigQueues)
            && (ports[p].needSetup ==> ports[p].status == (if p in devs then Handling else Closed))
            && (p !in devs ==> (ports[p].status == Started <==> p in overwritten)))
      && overwritten !! devs
    }

    /** Start-up: every probed port still has to be configured. */
    constructor (
        maxPorts: nat, nbTxq: nat, nbRxq: nat, nbHairpinq: nat, flowIsolateAll: bool, hairpinMode: bool,
        probed: set<nat>)
      requires forall p :: p in probed ==> p < maxPorts
      ensures Inv() && devs == probed && raised == overwritten == {} && fresh(ports)
    {
      this.maxPorts, this.nbTxq, this.nbRxq, this.nbHairpinq := maxPorts, nbTxq, nbRxq, nbHairpinq;
      this.flowIsolateAll, this.hairpinMode := flowIsolateAll, hairpinMode;
      ports := new Port[maxPorts](p => Port(Stopped, p in probed, p in probed, false, false));
      devs, forwarding := probed, {};
      dev := seq(maxPorts, _ => BLANK);
      raised, overwritten := {}, {};
    }

    // ----- events and the driver

    /** Only events happen, except to port `p`: a lost port is closed, and no record of another changes. */
    twostate predicate Only(p: nat)
      requires old(Shape()) && Shape()
      reads this, ports
    {
      && ports == old(ports) && old(raised) <= raised && devs == old(devs) - raised
      && forall q :: 0 <= q < maxPorts && q != p ==>
        ports[q] == old(ports[q]).Aged(q in old(devs) && q !in devs) && dev[q] == old(dev[q])
    }

    /** Destroy events for any ports. */
    method Events()
      requires Inv()
      modifies ports, this`devs, this`raised
      ensures Inv() && Only(maxPorts)
    {
      var gone: set<nat> := *;
      gone := gone * devs;
      for p := 0 to maxPorts
        invariant ports == old(ports) && devs == old(devs) && raised == old(raised) && dev == old(dev)
        invariant forall q :: 0 <= q < maxPorts ==> ports[q] == old(ports[q]).Aged(q in gone && q < p)
      {
        if p in gone {
          ports[p] := ports[p].(status := Closed);
        }
      }
      devs := devs - gone;
      raised := raised + gone;
      assert forall q :: q in devs ==> old(OkAt(q)) && ports[q] == old(ports[q]);
    }

    /** The program is busy with port `p`, which is in handling unless it was lost. */
    ghost predicate Busy(p: nat)
      requires Shape()
      reads this, ports
    {
      && p < maxPorts && !ports[p].needSetup
      && (ports[p].status == Handling || (ports[p].status == Closed && p !in devs))
    }

    /** Marks a port as in handling, after a test of its status: it can be lost in between. */
    method Take(p: nat)
      requires Inv() && p in devs && ports[p].status != Handling && ports[p].status != Closed
      modifies ports, this`devs, this`raised
      ensures Inv() && Busy(p) && Only(p) && SameFlags(p) && dev == old(dev)
    {
      Events();
      label before:
      ports[p] := ports[p].(status := Handling);
      assert forall q :: q in devs && q != p ==> old@before(OkAt(q));
    }

    /** The flags of port `p` are as before. */
    twostate predicate SameFlags(p: nat)
      requires p < old(ports).Length == ports.Length
      reads this, ports
    {
      ports[p] == old(ports[p]).(status := ports[p].status)
    }

    /** Configuring releases the queues; a refused call leaves the configuration unknown. */
    method DevConfigure(p: nat, drv: Driver) returns (diag: int)
      requires Inv() && Busy(p)
      modifies ports, this`dev, this`devs, this`raised
      ensures Inv() && Busy(p) && Only(p) && SameFlags(p) && diag == drv.configure(p)
      ensures diag == 0 ==> dev[p] == old(dev[p]).(configured := true, txUp := {}, rxUp := {})
    {
      diag := drv.configure(p);
      ghost var d: Device := *;
      dev := dev[p := if diag == 0 then dev[p].(configured := true, txUp := {}, rxUp := {}) else d];
      assert forall q :: q in devs && q != p ==> old(OkAt(q));
      Events();
    }

    method DevTxQueue(p: nat, q: nat, drv: Driver) returns (diag: int)
      requires Inv() && Busy(p)
      modifies ports, this`dev, this`devs, this`raised
      ensures Inv() && Busy(p) && Only(p) && SameFlags(p) && diag == drv.txQueue(p, q)
      ensures dev[p] == if diag == 0 then old(dev[p]).(txUp := old(dev[p]).txUp + {q}) else old(dev[p])
    {
      diag := drv.txQueue(p, q);
      if diag == 0 {
        dev := dev[p := dev[p].(txUp := dev[p].txUp + {q})];
        assert forall r :: r in devs && r != p ==> old(OkAt(r));
      }
      Events();
    }

    method DevRxQueue(p: nat, q: nat, drv: Driver) returns (diag: int)
      requires Inv() && Busy(p)
      modifies ports, this`dev, this`devs, this`raised
      ensures Inv() && Busy(p) && Only(p) && SameFlags(p) && diag == drv.rxQueue(p, q)
      ensures dev[p] == if diag == 0 then old(dev[p]).(rxUp := old(dev[p]).rxUp + {q}) else old(dev[p])
    {
      diag := drv.rxQueue(p, q);
      if diag == 0 {
        dev := dev[p := dev[p].(rxUp := dev[p].rxUp + {q})];
        assert forall r :: r in devs && r != p ==> old(OkAt(r));
      }
      Events();
    }

    /** A start is refused with a negative code, a stop with any code but 0; a refusal changes nothing. */
    method DevStart(p: nat, drv: Driver) returns (diag: int)
      requires Inv() && Busy(p)
      modifies ports, this`dev, this`devs, this`raised
      ensures Inv() && Busy(p) && Only(p) && SameFlags(p) && diag == drv.start(p)
      ensures dev[p] == if diag >= 0 then old(dev[p]).(running := true) else old(dev[p])
    {
      diag := drv.start(p);
      if diag >= 0 {
        dev := dev[p := dev[p].(running := true)];
        assert forall r :: r in devs && r != p ==> old(OkAt(r));
      }
      Events();
    }

    method DevStop(p: nat, drv: Driver) returns (diag: int)
      requires Inv() && Busy(p)
      modifies ports, this`dev, this`devs, this`raised
      ensures Inv() && Busy(p) && Only(p) && SameFlags(p) && diag == drv.stop(p)
      ensures dev[p] == if diag == 0 then old(dev[p]).(running := false) else old(dev[p])
    {
      diag := drv.stop(p);
      if diag == 0 {
        dev := dev[p := dev[p].(running := false)];
        assert forall r :: r in devs && r != p ==> old(OkAt(r));
      }
      Events();
    }

    // ----- what a start and a stop come to

    predicate ConfigReached(p: nat, drv: Driver) {
      (flowIsolateAll ==> drv.isolates(p)) && (nbHairpinq > 0 ==> drv.canHairpin(p))
    }

    predicate ConfigOk(p: nat, drv: Driver) {
      ConfigReached(p, drv) && drv.configure(p) == 0 && drv.describes(p)
    }

    predicate TxOk(p: nat, drv: Driver) { forall q :: 0 <= q < nbTxq ==> drv.txQueue(p, q) == 0 }

    /** The first `n` receive queues can be set up. */
    predicate RxOk(p: nat, drv: Driver, n: nat) {
      forall q :: 0 <= q < n ==> drv.hasPool(p, q) && drv.rxQueue(p, q) == 0
    }

    predicate HairpinOk(p: nat, drv: Driver) { forall q :: 0 <= q < 2 * nbHairpinq ==> drv.hairpin(p, q) == 0 }

    predicate QueuesOk(p: nat, drv: Driver) { TxOk(p, drv) && RxOk(p, drv, nbRxq) && HairpinOk(p, drv) }

    /** The first queue that fails is a receive queue without a memory pool. */
    predicate PoolMissing(p: nat, drv: Driver) {
      TxOk(p, drv) && exists q :: 0 <= q < nbRxq && RxOk(p, drv, q) && !drv.hasPool(p, q)
    }

    /** Everything that is due for the port can be done. */
    predicate SetupOk(o: Port, p: nat, drv: Driver) {
      (o.needReconfig ==> ConfigOk(p, drv)) && (o.needReconfigQueues ==> QueuesOk(p, drv))
    }

    /** The record of a stopped port after a start. */
    function AfterStart(o: Port, p: nat, drv: Driver): Port {
      if o.needReconfig && !ConfigOk(p, drv) then AfterConfigFailure(o, p, drv)
      else if o.needReconfigQueues && !QueuesOk(p, drv) then AfterQueueFailure(o, p, drv)
      else o.(status := if drv.start(p) >= 0 then Started
        else Stopped, needReconfig := false, needReconfigQueues := false)
    }

    /** A refused configuration is tried again next time; after other failures the port stays in handling. */
    function AfterConfigFailure(o: Port, p: nat, drv: Driver): Port {
      if ConfigReached(p, drv) && drv.configure(p) != 0 then o.(status := Stopped)
      else o.(status := Handling, needReconfig := false)
    }

    /** So are refused queues; without a memory pool the port stays in handling. */
    function AfterQueueFailure(o: Port, p: nat, drv: Driver): Port {
      if PoolMissing(p, drv) then o.(status := Handling, needReconfig := false, needReconfigQueues := false)
      else o.(status := Stopped, needReconfig := false)
    }

    /** Whatever the driver answers, a start gives an allowed outcome. */
    lemma AfterStartIsOutcome(o: Port, p: nat, drv: Driver)
      requires o.status == Stopped && (o.needReconfig ==> o.needReconfigQueues)
      ensures StartOutcome(o, AfterStart(o, p, drv))
      ensures AfterStart(o, p, drv).status == Started <==>
        && drv.start(p) >= 0
        && (o.needReconfig ==>
              && (flowIsolateAll ==> drv.isolates(p)) && (nbHairpinq > 0 ==> drv.canHairpin(p))
              && drv.configure(p) == 0 && drv.describes(p))
        && (o.needReconfigQueues ==>
              && (forall q :: 0 <= q < nbTxq ==> drv.txQueue(p, q) == 0)
              && (forall q :: 0 <= q < nbRxq ==> drv.hasPool(p, q) && drv.rxQueue(p, q) == 0)
              && (forall q :: 0 <= q < 2 * nbHairpinq ==> drv.hairpin(p, q) == 0))
    {
    }

    /**
      * A start that gives up at a port leaves something marked exactly when the driver refused it
      * something; otherwise (no isolation, no hairpin queues, no description, no memory pool) the port
      * stays in handling without that mark.
      */
    lemma AfterFailure(o: Port, p: nat, drv: Driver)
      requires o.status == Stopped && (o.needReconfig ==> o.needReconfigQueues) && !SetupOk(o, p, drv)
      ensures var n, config := AfterStart(o, p, drv), o.needReconfig && !ConfigOk(p, drv);
              var refused := if config then ConfigReached(p, drv) && drv.configure(p) != 0 else !PoolMissing(p, drv);
              && n.status == (if refused then Stopped else Handling)
              && n.needReconfig == (config && refused)
              && n.needReconfigQueues == (config || refused)
    {
    }

    /** The stop of a started port gets as far as the device. */
    predicate Unbound(p: nat, drv: Driver) { hairpinMode ==> drv.unbinds(p) }

    // ----- start
    // ----- start

    /**
      * After a failure: back to stopped, unless an event changed the status, and mark what has to be
      * done again. The port can be lost between the test and the write.
      */
    method BackToStopped(p: nat, configure: bool, queues: bool)
      requires Inv() && Busy(p)
      requires configure ==> queues || ports[p].needReconfigQueues
      requires configure || ports[p].needReconfig || dev[p].configured
      requires queues || ports[p].needReconfigQueues || dev[p].QueuesUp(nbTxq, nbRxq)
      modifies ports, this`devs, this`raised
      ensures Inv() && Only(p) && dev == old(dev)
      ensures ports[p] == old(ports[p]).(status := ports[p].status,
                needReconfig := old(ports[p]).needReconfig || configure,
                needReconfigQueues := old(ports[p]).needReconfigQueues || queues)
      ensures ports[p].status == Stopped || (p !in devs && ports[p].status == Closed)
    {
      if ports[p].status == Handling {
        Events();
        ports[p] := ports[p].(status := Stopped);
      }
      ports[p] := ports[p].(
        needReconfig := ports[p].needReconfig || configure,
        needReconfigQueues := ports[p].needReconfigQueues || queues);
      assert forall q :: q in devs && q != p ==> q in old(devs) && ports[q] == old(ports[q]) && old(OkAt(q));
    }

    /** The first half of a start: configure the device when that is due. */
    method Configure(p: nat, drv: Driver) returns (ok: bool)
      requires Inv() && Busy(p)
      requires !ports[p].needReconfig ==> dev[p].configured
      requires !ports[p].needReconfigQueues ==> dev[p].QueuesUp(nbTxq, nbRxq)
      modifies ports, this`dev, this`devs, this`raised
      ensures Inv() && Only(p)
      ensures ok <==> !old(ports[p]).needReconfig || ConfigOk(p, drv)
      ensures ok ==> Busy(p) && dev[p].configured && dev[p].running == old(dev[p]).running
      ensures ok ==> ports[p] == old(ports[p]).(needReconfig := false, status := ports[p].status)
      ensures ok && !ports[p].needReconfigQueues ==> dev[p].QueuesUp(nbTxq, nbRxq)
      ensures !old(ports[p]).needReconfig ==> dev == old(dev)
      ensures !ok ==> ports[p].status != Started && (p in devs ==>
        ports[p] == AfterConfigFailure(old(ports[p]), p, drv))
    {
      if !ports[p].needReconfig {
        return true;
      }
      ports[p] := ports[p].(needReconfig := false);
      assert forall q :: q in devs && q != p ==> old(OkAt(q));
      Events();
      if flowIsolateAll && !drv.isolates(p) {
        return false;
      }
      if nbHairpinq > 0 && !drv.canHairpin(p) {
        return false;
      }
      ok := ConfigureDevice(p, drv);
    }

    /** The call that configures the device, and the query that follows it. */
    method ConfigureDevice(p: nat, drv: Driver) returns (ok: bool)
      requires Inv() && Busy(p) && !ports[p].needReconfig && ports[p].needReconfigQueues
      modifies ports, this`dev, this`devs, this`raised
      ensures Inv() && Only(p)
      ensures ok <==> drv.configure(p) == 0 && drv.describes(p)
      ensures ok ==> Busy(p) && SameFlags(p) && dev[p].configured && dev[p].running == old(dev[p]).running
      ensures !ok ==> ports[p].status != Started
      ensures !ok && p in devs ==>
        ports[p] == if drv.configure(p) != 0 then old(ports[p]).(status := Stopped, needReconfig := true)
                    else old(ports[p])
    {
      var diag := DevConfigure(p, drv);
      if diag != 0 {
        BackToStopped(p, true, false);
        return false;
      }
      ok := drv.describes(p);
    }

    /** The second half: set up the queues when that is due, send queues first. */
    method SetupQueues(p: nat, drv: Driver) returns (ok: bool)
      requires Inv() && Busy(p) && !ports[p].needReconfig && dev[p].configured
      requires !ports[p].needReconfigQueues ==> dev[p].QueuesUp(nbTxq, nbRxq)
      modifies ports, this`dev, this`devs, this`raised
      ensures Inv() && Only(p)
      ensures ok <==> !old(ports[p]).needReconfigQueues || QueuesOk(p, drv)
      ensures ok ==> Busy(p) && dev[p].configured && dev[p].QueuesUp(nbTxq, nbRxq)
      ensures ok ==> dev[p].running == old(dev[p]).running
      ensures ok ==> ports[p] == old(ports[p]).(needReconfigQueues := false, status := ports[p].status)
      ensures !old(ports[p]).needReconfigQueues ==> dev == old(dev)
      ensures !ok ==> ports[p].status != Started && (p in devs ==> ports[p] == AfterQueueFailure(old(ports[p]), p, drv))
    {
      if !ports[p].needReconfigQueues {
        return true;
      }
      ports[p] := ports[p].(needReconfigQueues := false);
      assert forall q :: q in devs && q != p ==> old(OkAt(q));
      ok := SetupTx(p, drv);
      if !ok {
        return;
      }
      ok := SetupRx(p, drv);
      if !ok {
        return;
      }
      ok := SetupHairpin(p, drv);
    }

    /** The queues of port `p` are marked for another try, and it is stopped or lost. */
    twostate predicate QueuesGivenUp(p: nat)
      requires old(Shape()) && Shape() && p < maxPorts
      reads this, ports
    {
      && ports[p] == old(ports[p]).(status := ports[p].status, needReconfigQueues := true)
      && (ports[p].status == Stopped || (p !in devs && ports[p].status == Closed))
    }

    method SetupTx(p: nat, drv: Driver) returns (ok: bool)
      requires Inv() && Busy(p) && !ports[p].needReconfig && dev[p].configured
      modifies ports, this`dev, this`devs, this`raised
      ensures Inv() && Only(p)
      ensures ok <==> TxOk(p, drv)
      ensures dev[p] == old(dev[p]).(txUp := dev[p].txUp)
      ensures ok ==> Busy(p) && SameFlags(p) && forall q: nat :: q < nbTxq ==> q in dev[p].txUp
      ensures !ok ==> QueuesGivenUp(p)
    {
      for q := 0 to nbTxq
        invariant Inv() && Busy(p) && Only(p) && SameFlags(p)
        invariant dev[p] == old(dev[p]).(txUp := dev[p].txUp)
        invariant forall r: nat :: r < q ==> r in dev[p].txUp && drv.txQueue(p, r) == 0
      {
        var diag := DevTxQueue(p, q, drv);
        if diag != 0 {
          BackToStopped(p, false, true);
          return false;
        }
      }
      return true;
    }

    method SetupRx(p: nat, drv: Driver) returns (ok: bool)
      requires Inv() && Busy(p) && !ports[p].needReconfig && dev[p].configured
      modifies ports, this`dev, this`devs, this`raised
      ensures Inv() && Only(p)
      ensures ok <==> RxOk(p, drv, nbRxq)
      ensures dev[p] == old(dev[p]).(rxUp := dev[p].rxUp)
      ensures ok ==> Busy(p) && SameFlags(p) && forall q: nat :: q < nbRxq ==> q in dev[p].rxUp
      ensures !ok && TxOk(p, drv) ==> if PoolMissing(p, drv) then Busy(p) && SameFlags(p) else QueuesGivenUp(p)
      ensures !ok ==> ports[p].status != Started
    {
      for q := 0 to nbRxq
        invariant Inv() && Busy(p) && Only(p) && SameFlags(p)
        invariant dev[p] == old(dev[p]).(rxUp := dev[p].rxUp)
        invariant forall r: nat :: r < q ==> r in dev[p].rxUp
        invariant RxOk(p, drv, q)
      {
        if !drv.hasPool(p, q) {
          return false;   // no memory pool: the port stays in handling
        }
        var diag := DevRxQueue(p, q, drv);
        if diag != 0 {
          BackToStopped(p, false, true);
          return false;
        }
      }
      return true;
    }

    /** `setup_hairpin_queues`: send queues, then receive queues, beyond the ordinary ones. */
    method SetupHairpin(p: nat, drv: Driver) returns (ok: bool)
      requires Inv() && Busy(p) && !ports[p].needReconfig && dev[p].configured
      modifies ports, this`devs, this`raised
      ensures Inv() && Only(p) && dev == old(dev)
      ensures ok <==> HairpinOk(p, drv)
      ensures ok ==> Busy(p) && SameFlags(p)
      ensures !ok ==> QueuesGivenUp(p)
    {
      for q := 0 to 2 * nbHairpinq
        invariant Inv() && Busy(p) && Only(p) && SameFlags(p)
        invariant forall r :: 0 <= r < q ==> drv.hairpin(p, r) == 0
      {
        Events();
        if drv.hairpin(p, q) != 0 {
          BackToStopped(p, false, true);
          return false;
        }
      }
      return true;
    }

    /**
      * One round of `start_port`; `abort` is an early return that leaves the later ports alone. A lost
      * port can only be overwritten when the driver starts it.
      */
    method StartOne(p: nat, drv: Driver) returns (abort: bool)
      requires Inv() && p in devs
      modifies ports, this`dev, this`devs, this`raised, this`overwritten
      ensures Inv() && Only(p) && old(overwritten) <= overwritten <= old(overwritten) + {p}
      ensures abort <==> old(ports[p]).status == Stopped && !SetupOk(old(ports[p]), p, drv)
      ensures old(ports[p]).status != Stopped ==>
        ports[p] == old(ports[p]) && dev == old(dev) && devs == old(devs) && overwritten == old(overwritten)
      ensures old(ports[p]).status == Stopped && p in devs ==> ports[p] == AfterStart(old(ports[p]), p, drv)
      ensures p in overwritten ==> Launched(old(ports[p]), p, drv)
      ensures old(ports[p]).status == Stopped && !abort ==>
        (dev[p].running <==> drv.start(p) >= 0 || old(dev[p]).running)
      ensures !old(ports[p]).needReconfig && !old(ports[p]).needReconfigQueues ==>
        dev[p] == old(dev[p]).(running := dev[p].running)
    {
      assert OkAt(p);
      if ports[p].status != Stopped {
        return false;
      }
      Take(p);
      var ok := Configure(p, drv);
      if !ok {
        return true;
      }
      ok := SetupQueues(p, drv);
      if !ok {
        return true;
      }
      Launch(p, drv);
      return false;
    }

    /** The driver starts the device of a port that was stopped. */
    predicate Launched(o: Port, p: nat, drv: Driver) {
      o.status == Stopped && SetupOk(o, p, drv) && drv.start(p) >= 0
    }

    /** The end of a round: start the device. The port can be lost between the test and the write. */
    method Launch(p: nat, drv: Driver)
      requires Inv() && Busy(p) && !ports[p].needReconfig && !ports[p].needReconfigQueues
      requires dev[p].configured && dev[p].QueuesUp(nbTxq, nbRxq)
      modifies ports, this`dev, this`devs, this`raised, this`overwritten
      ensures Inv() && Only(p) && SameFlags(p) && old(overwritten) <= overwritten <= old(overwritten) + {p}
      ensures dev[p] == if drv.start(p) >= 0 then old(dev[p]).(running := true) else old(dev[p])
      ensures p in devs ==> ports[p].status == if drv.start(p) >= 0 then Started else Stopped
      ensures p in overwritten ==> drv.start(p) >= 0
    {
      var diag := DevStart(p, drv);
      if diag < 0 {
        BackToStopped(p, false, false);
      } else if ports[p].status == Handling {
        MarkStarted(p);
      }
    }

    /** The write that marks a port as started, whatever happened since the test of its status. */
    method MarkStarted(p: nat)
      requires Inv() && Busy(p) && !ports[p].needReconfig && !ports[p].needReconfigQueues
      requires p in devs ==> Ready(dev[p], nbTxq, nbRxq)
      modifies ports, this`devs, this`raised, this`overwritten
      ensures Inv() && Only(p) && dev == old(dev) && ports[p] == old(ports[p]).(status := Started)
      ensures overwritten == old(overwritten) + if p in devs then {} else {p}
    {
      Events();
      label before:
      ports[p] := ports[p].(status := Started);
      if p !in devs {
        overwritten := overwritten + {p};
      }
      assert forall q :: q in devs && q != p ==> old@before(OkAt(q));
    }

    predicate Selected(pid: nat, p: nat)
    {
      pid == RTE_PORT_ALL || pid == p
    }

    /** A command for all ports selects every port, another one only its own, and forwarding ports may be skipped. */
    lemma Selection(pid: nat, p: nat)
      ensures Selected(RTE_PORT_ALL, p)
      ensures pid != RTE_PORT_ALL ==> (Selected(pid, p) <==> pid == p)
      ensures Subject(pid, p) <==> Selected(pid, p) && p !in forwarding
    {
    }

    /** Binding the hairpin queues of the started ports, if there are any. */
    method BindHairpins(started: bool, drv: Driver) returns (ret: int)
      requires Inv()
      modifies ports, this`devs, this`raised
      ensures Inv() && Only(maxPorts)
      ensures ret == if hairpinMode && started then drv.bind else 0
    {
      ret := 0;
      if hairpinMode && started {
        Events();
        ret := drv.bind;
      }
    }

    /** Port `p` is out of the reach of a command: only a destroy event can have happened to it. */
    twostate predicate Spared(p: nat)
      requires old(Shape()) && Shape() && p < maxPorts
      reads this, ports
    {
      ports[p] == old(ports[p]).Aged(p in old(devs) && p !in devs) && dev[p] == old(dev[p])
    }

    /** The ports lost in a command are those with a destroy event. */
    twostate predicate OnlyEvents()
      reads this
    {
      ports == old(ports) && old(raised) <= raised && devs == old(devs) - raised
    }

    /**
      * The start of the ports below `n` went to its end: what was due could be done for each selected
      * port that was stopped, and those that keep their device are started if the driver started them.
      */
    twostate predicate Served(pid: nat, drv: Driver, n: nat)
      requires old(Shape()) && Shape()
      reads this, ports
    {
      forall p :: p in devs && p in old(devs) && p < n && Selected(pid, p) && old(ports[p]).status == Stopped ==>
        SetupOk(old(ports[p]), p, drv) && ports[p] == AfterStart(old(ports[p]), p, drv)
    }

    /** Where a start gave up: at a port for which something due could not be done. Later ports are spared. */
    twostate predicate AbortedAt(pid: nat, drv: Driver, p: nat)
      requires old(Shape()) && Shape()
      reads this, ports
    {
      && p in old(devs) && p < maxPorts && Selected(pid, p)
      && old(ports[p]).status == Stopped && !SetupOk(old(ports[p]), p, drv)
      && (p in devs ==> ports[p] == AfterStart(old(ports[p]), p, drv))
      && Served(pid, drv, p)
      && forall q :: p < q < maxPorts ==> Spared(q)
    }

    /**
      * `start_port`. It goes through the ports until something due cannot be done; with a zero result
      * it went through all of them. A failing end comes from the binding of hairpin queues. Lost ports
      * are overwritten only when the driver started them.
      */
    method StartPort(pid: nat, drv: Driver) returns (ret: int)
      requires Inv()
      modifies ports, this`dev, this`devs, this`raised, this`overwritten
      ensures Inv() && OnlyEvents() && old(overwritten) <= overwritten
      ensures forall p :: p in overwritten && p !in old(overwritten) ==>
        p in old(devs) && p < maxPorts && Selected(pid, p) && Launched(old(ports[p]), p, drv)
      ensures forall p ::
        0 <= p < maxPorts && !(p in old(devs) && Selected(pid, p) && old(ports[p]).status == Stopped) ==>
        Spared(p)
      ensures ret == 0 ==> Served(pid, drv, maxPorts)
      ensures ret != 0 ==>
        || (hairpinMode && ret == drv.bind && Served(pid, drv, maxPorts))
        || exists p :: AbortedAt(pid, drv, p)
    {
      var abort, at, started := StartEach(pid, drv);
      if abort {
        return -1;
      }
      ret := BindHairpins(started, drv);
    }

    /** A round of the loop of `start_port`, which skips ports without a device or not selected. */
    method Round(pid: nat, p: nat, drv: Driver) returns (abort: bool, launched: bool)
      requires Inv() && p < maxPorts
      modifies ports, this`dev, this`devs, this`raised, this`overwritten
      ensures Inv() && Only(p) && old(overwritten) <= overwritten <= old(overwritten) + {p}
      ensures !(p in old(devs) && Selected(pid, p) && old(ports[p]).status == Stopped) ==>
        Spared(p) && !abort && overwritten == old(overwritten)
      ensures p in old(devs) && Selected(pid, p) && old(ports[p]).status == Stopped ==>
        && (abort <==> !SetupOk(old(ports[p]), p, drv))
        && (p in devs ==> ports[p] == AfterStart(old(ports[p]), p, drv))
        && (p in overwritten ==> Launched(old(ports[p]), p, drv))
      ensures launched <==> p in old(devs) && Selected(pid, p) && Launched(old(ports[p]), p, drv)
    {
      abort, launched := false, false;
      if p in devs && Selected(pid, p) {
        launched := Launched(ports[p], p, drv);
        abort := StartOne(p, drv);
      }
    }

    /** The loop of `start_port`. */
    method StartEach(pid: nat, drv: Driver) returns (abort: bool, at: nat, started: bool)
      requires Inv()
      modifies ports, this`dev, this`devs, this`raised, this`overwritten
      ensures Inv() && OnlyEvents() && old(overwritten) <= overwritten
      ensures forall p :: p in overwritten && p !in old(overwritten) ==>
        p in old(devs) && p < maxPorts && Selected(pid, p) && Launched(old(ports[p]), p, drv)
      ensures forall p ::
        0 <= p < maxPorts && !(p in old(devs) && Selected(pid, p) && old(ports[p]).status == Stopped) ==>
        Spared(p)
      ensures !abort ==> Served(pid, drv, maxPorts)
      ensures abort ==> AbortedAt(pid, drv, at)
    {
      abort, at, started := false, 0, false;
      while at < maxPorts
        invariant Inv() && OnlyEvents() && old(overwritten) <= overwritten && at <= maxPorts
        invariant forall p :: p in overwritten && p !in old(overwritten) ==>
          p in old(devs) && p < maxPorts && Selected(pid, p) && Launched(old(ports[p]), p, drv)
        invariant forall q :: 0 <= q < maxPorts ==>
          (q < at && q in old(devs) && Selected(pid, q) && old(ports[q]).status == Stopped) || Spared(q)
        invariant Served(pid, drv, at)
      {
        var launched;
        abort, launched := Round(pid, at, drv);
        started := started || launched;
        if abort {
          return;
        }
        at := at + 1;
      }
      abort := false;
    }

    // ----- stop, reset, close

    /** A command that skips forwarding ports works on port `p`. */
    predicate Subject(pid: nat, p: nat)
      reads this`forwarding
    {
      Selected(pid, p) && p !in forwarding
    }

    /**
      * `stop_port`. A started port that keeps its device ends as stopped exactly when the driver stops
      * it. A lost port is overwritten exactly when it was lost before its own stop was refused.
      */
    method StopPort(pid: nat, drv: Driver)
      requires Inv()
      modifies ports, this`dev, this`devs, this`raised, this`overwritten
      ensures Inv() && OnlyEvents() && old(overwritten) <= overwritten
      ensures forall p :: p in overwritten && p !in old(overwritten) ==>
        && p in old(devs) && p < maxPorts && Subject(pid, p)
        && old(ports[p]).status == Started && Unbound(p, drv) && drv.stop(p) != 0
      ensures forall p :: p in devs && p in old(devs) && Subject(pid, p) && old(ports[p]).status == Started ==>
        StopOutcome(p, drv)
      ensures forall p ::
        0 <= p < maxPorts && !(p in old(devs) && Subject(pid, p) && old(ports[p]).status == Started) ==>
        Spared(p)
    {
      for p := 0 to maxPorts
        invariant Inv() && OnlyEvents() && old(overwritten) <= overwritten
        invariant forall q :: q in overwritten && q !in old(overwritten) ==>
          && q in old(devs) && q < maxPorts && Subject(pid, q)
          && old(ports[q]).status == Started && Unbound(q, drv) && drv.stop(q) != 0
        invariant forall q ::
          q in devs && q in old(devs) && q < p && Subject(pid, q) && old(ports[q]).status == Started ==>
          StopOutcome(q, drv)
        invariant forall q :: 0 <= q < maxPorts ==>
          (q < p && q in old(devs) && Subject(pid, q) && old(ports[q]).status == Started) || Spared(q)
      {
        if p in devs && Subject(pid, p) {
          var _ := StopOne(p, drv);
        }
      }
    }

    /** What a stop does to a started port that keeps its device. */
    twostate predicate StopOutcome(p: nat, drv: Driver)
      requires old(Shape()) && Shape() && p < maxPorts
      reads this, ports
    {
      && SameFlags(p)
      && (ports[p].status == Stopped <==> Unbound(p, drv) && drv.stop(p) == 0)
      && (ports[p].status == Started <==> Unbound(p, drv) && drv.stop(p) != 0)
      && (ports[p].status in {Stopped, Started, Handling})
      && dev[p] == if ports[p].status == Stopped then old(dev[p]).(running := false) else old(dev[p])
    }

    /**
      * One round of `stop_port`. A refused stop marks the port as started again without looking at
      * its status, which overwrites the record of a loss exactly when the port was lost meanwhile.
      */
    method StopOne(p: nat, drv: Driver) returns (refused: bool)
      requires Inv() && p in devs
      modifies ports, this`dev, this`devs, this`raised, this`overwritten
      ensures Inv() && Only(p)
      ensures overwritten == old(overwritten) + if refused && p !in devs then {p} else {}
      ensures refused <==> old(ports[p]).status == Started && Unbound(p, drv) && drv.stop(p) != 0
      ensures old(ports[p]).status != Started ==> ports[p] == old(ports[p]) && dev == old(dev) && devs == old(devs)
      ensures old(ports[p]).status == Started && p in devs ==> StopOutcome(p, drv)
      ensures p !in devs ==> (ports[p].status == Started <==> refused)
    {
      assert OkAt(p);
      if ports[p].status != Started {
        return false;
      }
      Take(p);
      Events();
      if hairpinMode && !drv.unbinds(p) {
        return false;
      }
      refused := Halt(p, drv);
    }

    /**
      * The call that stops the device, and what it does to the status: a refusal marks the port as
      * started without a test.
      */
    method Halt(p: nat, drv: Driver) returns (refused: bool)
      requires Inv() && Busy(p)
      requires p in devs ==> Ready(dev[p], nbTxq, nbRxq) && !ports[p].needReconfig && !ports[p].needReconfigQueues
      modifies ports, this`dev, this`devs, this`raised, this`overwritten
      ensures Inv() && Only(p) && SameFlags(p)
      ensures refused <==> drv.stop(p) != 0
      ensures overwritten == old(overwritten) + if refused && p !in devs then {p} else {}
      ensures dev[p] == if refused then old(dev[p]) else old(dev[p]).(running := false)
      ensures refused ==> ports[p].status == Started
      ensures !refused ==> ports[p].status == Stopped || (p !in devs && ports[p].status == Closed)
    {
      var ret := DevStop(p, drv);
      refused := ret != 0;
      label answered:
      if refused {
        ports[p] := ports[p].(status := Started);
        if p !in devs {
          overwritten := overwritten + {p};
        }
        assert forall q :: q in devs && q != p ==> old@answered(OkAt(q));
      } else {
        MarkStopped(p);
      }
    }

    /** Marks a port as stopped unless an event changed its status; it can be lost after the test. */
    method MarkStopped(p: nat)
      requires Inv() && Busy(p)
      requires p in devs ==> dev[p].configured && dev[p].QueuesUp(nbTxq, nbRxq)
      modifies ports, this`devs, this`raised
      ensures Inv() && Only(p) && SameFlags(p) && dev == old(dev)
      ensures ports[p].status == Stopped || (p !in devs && ports[p].status == Closed)
    {
      if ports[p].status == Handling {
        Events();
        label before:
        ports[p] := ports[p].(status := Stopped);
        assert forall q :: q in devs && q != p ==> old@before(OkAt(q));
      }
    }

    /**
      * `reset_port`: refused unless the port, or every port, is stopped. Then exactly the ports that do
      * not forward and that the driver resets are blank and marked for configuration.
      */
    method ResetPort(pid: nat, drv: Driver)
      requires Inv()
      modifies ports, this`dev, this`devs, this`raised
      ensures Inv() && OnlyEvents()
      ensures forall p :: p in devs && p in old(devs) ==>
        if Resettable(pid, p) && drv.reset(p) == 0 then WasReset(p) else Spared(p)
      ensures forall p :: p in old(devs) && p !in devs ==> ports[p].status == Closed
      ensures forall p :: 0 <= p < maxPorts && p !in old(devs) ==> Spared(p)
    {
      if pid != RTE_PORT_ALL && pid !in devs {
        return;
      }
      var stopped := AllStopped(pid);
      if !stopped {
        return;
      }
      for p := 0 to maxPorts
        invariant Inv() && OnlyEvents()
        invariant forall q :: q in devs && q in old(devs) ==>
          if q < p && Resettable(pid, q) && drv.reset(q) == 0 then WasReset(q) else Spared(q)
        invariant forall q :: q in old(devs) && q !in devs ==> ports[q].status == Closed
        invariant forall q :: 0 <= q < maxPorts && q !in old(devs) ==> Spared(q)
      {
        if p in devs && Subject(pid, p) {
          ResetOne(p, drv);
        }
      }
    }

    /** The reset is not refused, and does not skip the port. */
    twostate predicate Resettable(pid: nat, p: nat)
      requires old(Shape()) && p < old(ports).Length
      reads this, ports
    {
      && p in old(devs) && Selected(pid, p) && p !in old(forwarding)
      && forall q :: q in old(devs) && Selected(pid, q) ==> old(ports[q]).status == Stopped
    }

    /** The guard of `reset_port`. */
    method AllStopped(pid: nat) returns (ok: bool)
      requires Inv()
      ensures ok <==> forall p :: p in devs && Selected(pid, p) ==> ports[p].status == Stopped
    {
      for p := 0 to maxPorts
        invariant forall q :: q in devs && q < p && Selected(pid, q) ==> ports[q].status == Stopped
      {
        if p in devs && Selected(pid, p) && !CountsAsStopped(ports[p]) {
          return false;
        }
      }
      return true;
    }

    /** The port was stopped, its device is blank, and the port is marked for configuration. */
    twostate predicate WasReset(p: nat)
      requires old(Shape()) && Shape() && p < maxPorts
      reads this, ports
    {
      && old(ports[p]).status == Stopped && dev[p] == BLANK
      && ports[p] == old(ports[p]).(needReconfig := true, needReconfigQueues := true)
    }

    /** An event between the reset of the device and the flags has the same effect as one before both. */
    method ResetOne(p: nat, drv: Driver)
      requires Inv() && p in devs && ports[p].status == Stopped
      modifies ports, this`dev, this`devs, this`raised
      ensures Inv() && Only(p)
      ensures p in devs ==>
        if drv.reset(p) == 0 then WasReset(p) else ports[p] == old(ports[p]) && dev[p] == old(dev[p])
      ensures p !in devs ==> ports[p].status == Closed
    {
      Events();
      label before:
      if drv.reset(p) == 0 {
        dev := dev[p := BLANK];
        ports[p] := ports[p].(needReconfig := true, needReconfigQueues := true);
        assert forall q :: q in devs && q != p ==> old@before(OkAt(q));
      }
    }

    /** Port `p` is closed and its device is gone. */
    method Drop(p: nat)
      requires Inv() && p in devs
      modifies ports, this`devs
      ensures Inv() && ports == old(ports)
      ensures devs == old(devs) - {p} && ports[p] == old(ports[p]).(status := Closed)
      ensures forall q :: 0 <= q < maxPorts && q != p ==> ports[q] == old(ports[q])
    {
      ports[p] := ports[p].(status := Closed);
      devs := devs - {p};
      assert forall q :: q in devs ==> q in old(devs) && old(OkAt(q));
    }

    /** The destroy event: the device is gone. */
    method OnDestroy(p: nat)
      requires Inv() && p in devs
      modifies ports, this`devs, this`raised
      ensures Inv() && Only(p) && raised == old(raised) + {p}
      ensures ports[p] == old(ports[p]).(status := Closed) && dev == old(dev)
    {
      Drop(p);
      raised := raised + {p};
    }

    /** `close_port`: closing a device raises its destroy event. */
    method ClosePort(pid: nat)
      requires Inv()
      modifies ports, this`devs, this`raised
      ensures Inv() && ports == old(ports) && old(raised) <= raised
      ensures devs == set p | p in old(devs) && p !in raised && !ToClose(pid, p, old(ports[p]))
      ensures forall p :: p in devs ==> ports[p] == old(ports[p])
      ensures forall p :: p in old(devs) && p !in devs ==> ports[p].status == Closed
    {
      ghost var was := devs;
      for p := 0 to maxPorts
        invariant Inv() && ports == old(ports) && old(raised) <= raised
        invariant devs == set q | q in was && q !in raised && !(q < p && ToClose(pid, q, old(ports[q])))
        invariant forall q :: q in devs ==> ports[q] == old(ports[q])
        invariant forall q :: q in was && q !in devs ==> ports[q].status == Closed
      {
        Events();
        if p in devs && ToClose(pid, p, ports[p]) {
          Drop(p);
        }
      }
    }

    /** What `close_port` does not skip. */
    predicate ToClose(pid: nat, p: nat, pt: Port)
      reads this`forwarding
    {
      Subject(pid, p) && pt.status != Closed
    }

    // ----- attach

    /** The new-device event. */
    method OnNew(p: nat)
      requires Inv() && p < maxPorts
      modifies ports, this`dev, this`devs, this`raised, this`overwritten
      ensures Inv() && ports == old(ports) && devs == old(devs) + {p}
      ensures raised == old(raised) - {p} && overwritten == old(overwritten) - {p}
      ensures ports[p] == old(ports[p]).(needSetup := true, status := Handling)
      ensures forall q :: 0 <= q < maxPorts && q != p ==> ports[q] == old(ports[q]) && dev[q] == old(dev[q])
    {
      ports[p] := ports[p].(needSetup := true, status := Handling);
      devs := devs + {p};
      dev := dev[p := BLANK];
      raised, overwritten := raised - {p}, overwritten - {p};
      assert forall q :: q in devs && q != p ==> old(OkAt(q));
    }

    /** The status part of `setup_attached_port`, with the flags that `reconfig` sets. */
    method SetupAttached(p: nat)
      requires Inv() && p in devs
      modifies ports, this`forwarding, this`devs, this`raised
      ensures Inv() && Only(p) && forwarding == old(forwarding) + {p}
      ensures ports[p] == AfterSetup(old(ports[p])) && dev == old(dev)
    {
      Events();
      label before:
      ports[p] := ports[p].(needReconfig := true, needReconfigQueues := true);
      forwarding := forwarding + {p};
      ports[p] := ports[p].(needSetup := false, status := Stopped);
      assert forall q :: q in devs && q != p ==> old@before(OkAt(q));
    }

    /** Probing raises an event per new device. */
    method Probe(probed: set<nat>)
      requires Inv() && forall p :: p in probed ==> p < maxPorts
      modifies ports, this`dev, this`devs, this`raised, this`overwritten
      ensures Inv() && ports == old(ports) && devs == old(devs) + probed
      ensures raised == old(raised) - probed && overwritten == old(overwritten) - probed
      ensures forall p :: p in probed ==> ports[p] == old(ports[p]).(needSetup := true, status := Handling)
      ensures forall p :: 0 <= p < maxPorts && p !in probed ==> ports[p] == old(ports[p]) && dev[p] == old(dev[p])
    {
      for p := 0 to maxPorts
        invariant Inv() && ports == old(ports)
        invariant devs == old(devs) + set q | q in probed && q < p
        invariant raised == old(raised) - set q | q in probed && q < p
        invariant overwritten == old(overwritten) - set q | q in probed && q < p
        invariant forall q :: 0 <= q < maxPorts && q in probed && q < p ==>
          ports[q] == old(ports[q]).(needSetup := true, status := Handling)
        invariant forall q :: 0 <= q < maxPorts && !(q in probed && q < p) ==>
          ports[q] == old(ports[q]) && dev[q] == old(dev[q])
      {
        if p in probed {
          OnNew(p);
        }
      }
    }

    /** The ports that an attach sets up: those that wait for it, or the matching ones that do not forward. */
    predicate Waits(onEvent: bool, matching: set<nat>, p: nat, pt: Port)
      reads this`forwarding
    {
      if onEvent then pt.status == Handling && pt.needSetup else p in matching && p !in forwarding
    }

    /**
      * `attach_port`: probing, then the set-up of the ports that wait for it. Those are stopped and
      * marked for configuration; every other port is as it was, unless it was lost.
      */
    method AttachPort(probed: set<nat>, probeOk: bool, onEvent: bool, matching: set<nat>)
      requires Inv() && forall p :: p in probed ==> p < maxPorts
      modifies ports, this`dev, this`devs, this`raised, this`overwritten, this`forwarding
      ensures Inv() && ports == old(ports) && devs == old(devs) + probed - raised
      ensures forall p :: p in devs ==>
        ports[p] == if probeOk && old(Waits(onEvent, matching, p, Arrived(ports[p], p in probed)))
                    then AfterSetup(old(ports[p])) else Arrived(old(ports[p]), p in probed)
      ensures probeOk ==>
        forall p :: p in devs && (if onEvent then p in probed else p in matching - old(forwarding)) ==>
        ports[p].status == Stopped && ports[p].needReconfig && ports[p].needReconfigQueues && !ports[p].needSetup
      ensures !probeOk ==> forwarding == old(forwarding) && raised == old(raised) - probed
      ensures forall p :: p in forwarding - old(forwarding) ==> probeOk && p in old(devs) + probed
    {
      Probe(probed);
      if probeOk {
        SetupWaiting(onEvent, matching);
      }
    }

    /** The record after the new-device event, if there was one. */
    static function Arrived(pt: Port, isNew: bool): Port {
      if isNew then pt.(needSetup := true, status := Handling) else pt
    }

    method SetupWaiting(onEvent: bool, matching: set<nat>)
      requires Inv()
      modifies ports, this`devs, this`raised, this`forwarding
      ensures Inv() && OnlyEvents()
      ensures forall p :: p in devs ==>
        ports[p] == if old(Waits(onEvent, matching, p, ports[p])) then AfterSetup(old(ports[p])) else old(ports[p])
      ensures forwarding - old(forwarding) <= old(devs)
    {
      for p := 0 to maxPorts
        invariant Inv() && OnlyEvents() && dev == old(dev)
        invariant forall q :: q in devs ==>
          ports[q] ==
            if q < p && old(Waits(onEvent, matching, q, ports[q])) then AfterSetup(old(ports[q])) else old(ports[q])
        invariant forall q :: q in devs && q >= p ==> (q in forwarding <==> q in old(forwarding))
        invariant forwarding - old(forwarding) <= old(devs)
      {
        if (onEvent || p in devs) && Waits(onEvent, matching, p, ports[p]) {
          SetupAttached(p);
        }
      }
    }

    // ----- runs

    /** Every port marked as started is configured, has all its queues and was started. */
    ghost predicate StartedIsReady()
      requires Shape()
      reads this, ports
    {
      forall p :: p in devs && ports[p].status == Started ==> Ready(dev[p], nbTxq, nbRxq)
    }

    /** The ports marked as started that have no device are those whose loss was overwritten. */
    ghost predicate StartedWithoutDevice()
      requires Shape()
      reads this, ports
    {
      forall p :: 0 <= p < maxPorts && p !in devs ==> (ports[p].status == Started <==> p in overwritten)
    }

    /** Whatever the commands, the events and the answers of the driver. */
    method Run(ops: seq<Op>)
      requires Inv()
      modifies ports, this`dev, this`devs, this`raised, this`overwritten, this`forwarding
      ensures Inv() && StartedIsReady() && StartedWithoutDevice()
    {
      for i := 0 to |ops|
        invariant Inv() && ports == old(ports)
      {
        match ops[i]
        case Start(pid, drv) => var _ := StartPort(pid, drv);
        case Stop(pid, drv) => StopPort(pid, drv);
        case Reset(pid, drv) => ResetPort(pid, drv);
        case Close(pid) => ClosePort(pid);
        case Attach(probed, probeOk, onEvent, matching) =>
          if forall p :: p in probed ==> p < maxPorts {
            AttachPort(probed, probeOk, onEvent, matching);
          }
        case DestroyEvent(pid) =>
          if pid in devs {
            OnDestroy(pid);
          }
        case SetForwarding(now) => forwarding := now;
      }
      forall p | p in devs && ports[p].status == Started ensures Ready(dev[p], nbTxq, nbRxq) {
        assert OkAt(p);
      }
    }
  }
}
