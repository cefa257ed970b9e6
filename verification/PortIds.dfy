/**
  * The arrays of port ids under hot-plug: which ports are known, which are configured for
  * forwarding and which of those forward now.
  */
module PortIds {
  import opened Common
  import opened Arith
  import opened Distinctness
  import FwdPlan

  /** The ids that `port_id_is_invalid` lets through. */
  function ValidIds(devs: seq<nat>): set<nat> { Elems(devs) + {RTE_PORT_ALL} }

  /** Steps of a run: what the program does to the arrays, and devices coming and going. */
  datatype Step =
    | DevicesChange(devs: seq<nat>)
    | DefaultSetup
    | SetList(ids: seq<nat>)
    | SetNumber(n: nat)
    | Attach(pi: nat)
    | RemoveInvalid

  // ----- what the steps do, as functions of the contents

  /** The ids as `set_fwd_ports_list` stores them: cut to 16 bits. */
  function Cut(ids: seq<nat>): (r: seq<nat>)
    ensures |r| == |ids|
  {
    seq(|ids|, i requires 0 <= i < |ids| => ids[i] % TWO_16)
  }

  /** The contents of the arrays: `configured` holds the ids in use and those put aside by a smaller number. */
  datatype Table = Table(maxPorts: nat, devs: seq<nat>, known: seq<nat>, configured: seq<nat>, nbFwd: nat) {

    /** The invariant that the scheduler relies on. */
    ghost predicate Ok() {
      && maxPorts < RTE_PORT_ALL
      && nbFwd <= |configured| <= |known| <= maxPorts
      && Distinct(known)
      && (forall x :: x in known ==> x < maxPorts)
      && Distinct(configured)
      && (forall x :: x in configured ==> x in known)
    }

    /** `set_fwd_ports_list` finds an id that is not valid. */
    predicate Rejects(ids: seq<nat>) {
      exists x :: x in Cut(ids) && x !in ValidIds(devs)
    }

    /** The step stays inside the arrays; the default set-up is made while the devices are the known ports. */
    predicate Fits(step: Step) {
      match step
      case DefaultSetup => Distinct(devs) && Elems(devs) == Elems(known)
      case SetList(ids) => |ids| <= maxPorts
      case Attach(pi) => pi < maxPorts && |known| < maxPorts && nbFwd < maxPorts
      case _ => true
    }

    ghost function After(step: Step): Table {
      var forwarding := configured[..Min(nbFwd, |configured|)];
      match step
      case DevicesChange(now) => this.(devs := now)
      case DefaultSetup => this.(configured := devs, nbFwd := |devs|)
      case SetList(ids) => if Rejects(ids) then this else this.(configured := Cut(ids), nbFwd := |ids|)
      case SetNumber(n) => if n <= |configured| then this.(nbFwd := n) else this
      case Attach(pi) => this.(known := known + [pi], configured := forwarding + [pi], nbFwd := |forwarding| + 1)
      case RemoveInvalid =>
        var left := Keep(forwarding, ValidIds(devs));
        this.(known := Keep(known, ValidIds(devs)), configured := left, nbFwd := |left|)
    }

    /**
      * What the caller has to see to: a list that is not refused names different known ports, and
      * an attached port is not known already.
      */
    predicate Sound(step: Step) {
      match step
      case SetList(ids) => Rejects(ids) || (Distinct(Cut(ids)) && forall x :: x in Cut(ids) ==> x in known)
      case Attach(pi) => pi !in known
      case _ => true
    }
  }

  /** The ports that forward now. */
  ghost function Forwarding(t: Table): seq<nat>
    requires t.nbFwd <= |t.configured|
  {
    t.configured[..t.nbFwd]
  }

  /**
    * Which ports forward after a step. An accepted list forwards as it is given; a number that is not
    * too large takes that many from the front of the configured ports, and another list of them is not
    * touched; an attached port comes last; ports whose device is gone leave the others in order.
    */
  lemma ForwardingAfter(t: Table, step: Step)
    requires t.Ok() && t.Fits(step)
    ensures t.After(step).nbFwd <= |t.After(step).configured|
    ensures var now, was := Forwarding(t.After(step)), Forwarding(t);
            match step
            case DevicesChange(devs) => now == was && t.After(step).devs == devs
            case DefaultSetup => now == t.devs && Elems(now) == Elems(t.known)
            case SetList(ids) =>
              if t.Rejects(ids) then now == was
              else |now| == |ids| && forall i :: 0 <= i < |ids| && ids[i] < TWO_16 ==> now[i] == ids[i]
            case SetNumber(n) =>
              t.After(step).configured == t.configured &&
              if n <= |t.configured| then |now| == n && now <= t.configured else now == was
            case Attach(pi) => |now| == |was| + 1 && was <= now && now[|was|] == pi
            case RemoveInvalid => forall x :: x in now <==> x in was && x in t.devs
    ensures var now, was := t.After(step).known, t.known;
            match step
            case Attach(pi) => |now| == |was| + 1 && was <= now && now[|was|] == pi
            case RemoveInvalid => forall x :: x in now <==> x in was && x in t.devs
            case _ => now == was
  {
    match step
    case DefaultSetup =>
      assert t.devs[..|t.devs|] == t.devs;
    case Attach(pi) =>
      var now := t.After(step).configured;
      assert now[..|now|] == now;
    case RemoveInvalid =>
      var left := t.After(step).configured;
      assert left[..|left|] == left;
      KeepKeeps(t.known, ValidIds(t.devs));
      KeepKeeps(t.configured[..t.nbFwd], ValidIds(t.devs));
    case _ =>
  }

  /** A step keeps the invariant if and only if it is sound. */
  lemma StepKeepsIff(t: Table, step: Step)
    requires t.Ok() && t.Fits(step)
    ensures t.After(step).Ok() <==> t.Sound(step)
  {
    match step
    case DefaultSetup =>
      DistinctCard(t.devs);
      DistinctCard(t.known);
      assert forall x :: x in t.devs ==> x in Elems(t.devs);
    case SetList(ids) =>
      if !t.Rejects(ids) && t.Sound(step) {
        Pigeonhole(Cut(ids), t.known);
      }
    case Attach(pi) => AttachKeepsIff(t, pi);
    case RemoveInvalid => RemovalKeeps(t.known, t.configured[..t.nbFwd], t.devs, t.maxPorts);
    case _ =>
  }

  lemma AttachKeepsIff(t: Table, pi: nat)
    requires t.Ok() && t.Fits(Attach(pi))
    ensures t.After(Attach(pi)).Ok() <==> pi !in t.known
  {
    var t' := t.After(Attach(pi));
    if pi in t.known {
      var i :| 0 <= i < |t.known| && t.known[i] == pi;
      assert t'.known[i] == t'.known[|t.known|];
    }
  }

  /** For a port that is not known yet there is always room. */
  lemma UnknownFits(t: Table, pi: nat)
    requires t.Ok() && pi < t.maxPorts && pi !in t.known
    ensures t.Fits(Attach(pi))
  {
    DistinctBelow(t.known + [pi], t.maxPorts);
  }

  lemma RemovalKeeps(known: seq<nat>, forwarding: seq<nat>, devs: seq<nat>, maxPorts: nat)
    requires Distinct(known) && Distinct(forwarding) && maxPorts < RTE_PORT_ALL
    requires forall x :: x in known ==> x < maxPorts
    requires forall x :: x in forwarding ==> x in known
    ensures Distinct(Keep(known, ValidIds(devs))) && Distinct(Keep(forwarding, ValidIds(devs)))
    ensures forall x :: x in Keep(known, ValidIds(devs)) ==> x < maxPorts && x in devs
    ensures forall x :: x in Keep(forwarding, ValidIds(devs)) ==> x in Keep(known, ValidIds(devs))
    ensures |Keep(forwarding, ValidIds(devs))| <= |Keep(known, ValidIds(devs))|
  {
    KeepKeeps(known, ValidIds(devs));
    KeepKeeps(forwarding, ValidIds(devs));
    Pigeonhole(Keep(forwarding, ValidIds(devs)), Keep(known, ValidIds(devs)));
  }

  // ----- runs

  /** The contents after the first `n` steps. */
  ghost function AfterAll(t: Table, steps: seq<Step>, n: nat): Table
    requires n <= |steps|
  {
    if n == 0 then t else AfterAll(t, steps, n - 1).After(steps[n-1])
  }

  /** The first `n` steps stay inside the arrays. */
  ghost predicate FitsUpTo(t: Table, steps: seq<Step>, n: nat)
    requires n <= |steps|
  {
    n > 0 ==> FitsUpTo(t, steps, n - 1) && AfterAll(t, steps, n - 1).Fits(steps[n-1])
  }

  /** The invariant holds before, between and after the first `n` steps. */
  ghost predicate KeptUpTo(t: Table, steps: seq<Step>, n: nat)
    requires n <= |steps|
  {
    AfterAll(t, steps, n).Ok() && (n > 0 ==> KeptUpTo(t, steps, n - 1))
  }

  ghost predicate SoundUpTo(t: Table, steps: seq<Step>, n: nat)
    requires n <= |steps|
  {
    n > 0 ==> SoundUpTo(t, steps, n - 1) && AfterAll(t, steps, n - 1).Sound(steps[n-1])
  }

  /** A run keeps the invariant at every point if and only if each of its steps is sound where it is made. */
  lemma {:induction false} RunKeepsIff(t: Table, steps: seq<Step>, n: nat)
    requires t.Ok() && n <= |steps| && FitsUpTo(t, steps, n)
    ensures KeptUpTo(t, steps, n) <==> SoundUpTo(t, steps, n)
  {
    if n > 0 {
      RunKeepsIff(t, steps, n - 1);
      if KeptUpTo(t, steps, n - 1) {
        StepKeepsIff(AfterAll(t, steps, n - 1), steps[n-1]);
      }
    }
  }

  class PortTable {
    const maxPorts: nat                 // RTE_MAX_ETHPORTS
    var devs: seq<nat>                  // what RTE_ETH_FOREACH_DEV goes through
    var portsIds: array<nat>
    var fwdPortsIds: array<nat>
    var nbPorts: nat
    var nbCfgPorts: nat
    var nbFwdPorts: nat

    ghost predicate Shape()
      reads this
    {
      && portsIds.Length == fwdPortsIds.Length == maxPorts < RTE_PORT_ALL
      && portsIds != fwdPortsIds
      && nbPorts <= maxPorts
      && nbCfgPorts <= maxPorts
      && nbFwdPorts <= maxPorts
    }

    function Known(): seq<nat>
      requires Shape()
      reads this, portsIds
    {
      portsIds[..nbPorts]
    }

    function Configured(): seq<nat>
      requires Shape()
      reads this, fwdPortsIds
    {
      fwdPortsIds[..nbCfgPorts]
    }

    /** The contents, as a value. */
    function View(): Table
      requires Shape()
      reads this, portsIds, fwdPortsIds
    {
      Table(maxPorts, devs, Known(), Configured(), nbFwdPorts)
    }

    ghost predicate Inv()
      reads this, portsIds, fwdPortsIds
    {
      Shape() && View().Ok()
    }

    /** Start-up: record every probed device, in ascending order as the EAL lists them. */
    constructor (maxPorts: nat, probed: seq<nat>)
      requires maxPorts < RTE_PORT_ALL
      requires forall i, j :: 0 <= i < j < |probed| ==> probed[i] < probed[j]
      requires forall x :: x in probed ==> x < maxPorts
      ensures Inv() && fresh(portsIds) && fresh(fwdPortsIds)
      ensures Known() == probed && Configured() == [] && this.maxPorts == maxPorts
      ensures devs == probed
    {
      DistinctBelow(probed, maxPorts);
      this.maxPorts := maxPorts;
      devs := probed;
      portsIds := new nat[maxPorts](_ => 0);
      fwdPortsIds := new nat[maxPorts](_ => 0);
      nbPorts, nbCfgPorts, nbFwdPorts := |probed|, 0, 0;
      new;
      for i := 0 to |probed|
        invariant fresh(portsIds) && fresh(fwdPortsIds) && Shape()
        invariant portsIds[..i] == probed[..i]
        invariant nbPorts == |probed| && nbCfgPorts == nbFwdPorts == 0
        invariant devs == probed
      {
        portsIds[i] := probed[i];
      }
      assert portsIds[..nbPorts] == probed;
    }

    /** `set_default_fwd_ports_config`, called when the devices are the known ports: all of them forward. */
    method SetDefault()
      requires Inv() && View().Fits(DefaultSetup)
      modifies this`nbCfgPorts, this`nbFwdPorts, fwdPortsIds
      ensures Inv() && View() == old(View()).After(DefaultSetup)
      ensures nbFwdPorts == nbCfgPorts == nbPorts
    {
      StepKeepsIff(View(), DefaultSetup);
      DistinctCard(devs);
      DistinctCard(Known());
      for i := 0 to |devs|
        invariant fwdPortsIds[..i] == devs[..i]
        modifies fwdPortsIds
      {
        fwdPortsIds[i] := devs[i];
      }
      nbCfgPorts := nbPorts;
      nbFwdPorts := nbPorts;
      assert Configured() == devs;
    }

    /**
      * `set_fwd_ports_list`: a first pass checks every id, a second one records them. The call
      * keeps the invariant exactly when it is refused or the ids are different known ports.
      */
    method SetList(ids: seq<nat>)
      requires Inv() && View().Fits(Step.SetList(ids))
      modifies this`nbCfgPorts, this`nbFwdPorts, fwdPortsIds
      ensures Shape() && View() == old(View()).After(Step.SetList(ids))
      ensures old(View()).Rejects(ids) ==> fwdPortsIds[..] == old(fwdPortsIds[..])
      ensures Inv() <==>
        old(View()).Rejects(ids) || (Distinct(Cut(ids)) && forall x :: x in Cut(ids) ==> x in Known())
    {
      StepKeepsIff(View(), Step.SetList(ids));
      var cut := Cut(ids);
      for i := 0 to |ids|
        invariant forall j :: 0 <= j < i ==> cut[j] in ValidIds(devs)
      {
        if cut[i] !in ValidIds(devs) {
          return;
        }
      }
      for i := 0 to |ids|
        invariant fwdPortsIds[..i] == cut[..i]
        modifies fwdPortsIds
      {
        fwdPortsIds[i] := cut[i];
      }
      nbCfgPorts := |ids|;
      nbFwdPorts := |ids|;
      assert Configured() == cut;
    }

    /** `set_fwd_ports_number`: a number above the configured ports is ignored. */
    method SetNumber(n: nat)
      requires Inv()
      modifies this`nbFwdPorts
      ensures Inv() && View() == old(View()).After(Step.SetNumber(n))
      ensures nbFwdPorts == if n <= nbCfgPorts then n else old(nbFwdPorts)
    {
      if n > nbCfgPorts {
        return;
      }
      nbFwdPorts := n;
    }

    /**
      * The array part of `setup_attached_port`: the port is recorded and forwards. It is not looked
      * up first, so the invariant is kept exactly when it was not known.
      */
    method Attach(pi: nat)
      requires Inv() && View().Fits(Step.Attach(pi))
      modifies this`nbPorts, this`nbCfgPorts, this`nbFwdPorts, portsIds, fwdPortsIds
      ensures Shape() && View() == old(View()).After(Step.Attach(pi))
      ensures nbFwdPorts == nbCfgPorts == old(nbFwdPorts) + 1
      ensures Inv() <==> pi !in old(Known())
    {
      StepKeepsIff(View(), Step.Attach(pi));
      portsIds[nbPorts] := pi;
      nbPorts := nbPorts + 1;
      fwdPortsIds[nbFwdPorts] := pi;
      nbFwdPorts := nbFwdPorts + 1;
      nbCfgPorts := nbFwdPorts;
      assert Known() == old(Known()) + [pi];
      assert Configured() == old(Configured()[..nbFwdPorts]) + [pi];
    }

    /** `remove_invalid_ports`: forget the ports whose device is gone. */
    method RemoveInvalid()
      requires Inv()
      modifies this`nbPorts, this`nbCfgPorts, this`nbFwdPorts, portsIds, fwdPortsIds
      ensures Inv() && View() == old(View()).After(Step.RemoveInvalid)
      ensures forall x :: x in Known() ==> x in devs
    {
      StepKeepsIff(View(), Step.RemoveInvalid);
      RemovalKeeps(Known(), Configured()[..nbFwdPorts], devs, maxPorts);
      CompactBoth();
    }

    method CompactBoth()
      requires Inv()
      modifies this`nbPorts, this`nbCfgPorts, this`nbFwdPorts, portsIds, fwdPortsIds
      ensures Shape() && Known() == Keep(old(Known()), ValidIds(devs))
      ensures Configured() == Keep(old(Configured()[..nbFwdPorts]), ValidIds(devs)) && nbFwdPorts == nbCfgPorts
    {
      ghost var forwarding := Configured()[..nbFwdPorts];
      nbPorts := Compact(portsIds, nbPorts, ValidIds(devs));
      assert fwdPortsIds[..nbFwdPorts] == forwarding;
      nbFwdPorts := Compact(fwdPortsIds, nbFwdPorts, ValidIds(devs));
      nbCfgPorts := nbFwdPorts;
    }

    /** One step on the arrays, if it fits. */
    method Try(step: Step) returns (fits: bool, kept: bool)
      requires Inv()
      modifies this`devs, this`nbPorts, this`nbCfgPorts, this`nbFwdPorts, portsIds, fwdPortsIds
      ensures Shape() && View() == if fits then old(View()).After(step) else old(View())
      ensures fits <==> old(View()).Fits(step)
      ensures kept <==> Inv()
      ensures fits ==> (kept <==> old(View()).Sound(step))
    {
      fits, kept := View().Fits(step), true;
      if fits {
        kept := Do(step);
      }
    }

    method Do(step: Step) returns (kept: bool)
      requires Inv() && View().Fits(step)
      modifies this`devs, this`nbPorts, this`nbCfgPorts, this`nbFwdPorts, portsIds, fwdPortsIds
      ensures Shape() && View() == old(View()).After(step)
      ensures kept <==> Inv()
      ensures kept <==> old(View()).Sound(step)
    {
      kept := View().Sound(step);
      StepKeepsIff(View(), step);
      match step
      case DevicesChange(now) => devs := now;
      case DefaultSetup => SetDefault();
      case SetList(ids) => SetList(ids);
      case SetNumber(n) => SetNumber(n);
      case Attach(pi) => Attach(pi);
      case RemoveInvalid => RemoveInvalid();
    }

    /**
      * The arrays follow the specification for as long as the steps fit them and leave the
      * invariant. The run ends early only before a step that does not fit or with one that is not sound.
      */
    method Run(steps: seq<Step>) returns (done: nat)
      requires Inv()
      modifies this`devs, this`nbPorts, this`nbCfgPorts, this`nbFwdPorts, portsIds, fwdPortsIds
      ensures Shape() && done <= |steps| && View() == AfterAll(old(View()), steps, done)
      ensures Inv() ==> done == |steps| || !View().Fits(steps[done])
      ensures !Inv() ==> done > 0 && !AfterAll(old(View()), steps, done - 1).Sound(steps[done-1])
    {
      ghost var t := View();
      done := 0;
      while done < |steps|
        invariant Inv() && done <= |steps| && View() == AfterAll(t, steps, done)
      {
        var fits, kept := Try(steps[done]);
        if !fits {
          return;
        }
        done := done + 1;
        if !kept {
          return;
        }
      }
    }

    /** The scheduler on these arrays: every configured pair is polled once, and by exactly one lcore. */
    lemma ForwardingIsExact(st: FwdPlan.Settings)
      requires Inv() && st.Valid() && st.numProcs == 1
      requires st.fwdPorts == fwdPortsIds[..nbFwdPorts]
      requires st.NbQ() * nbFwdPorts < TWO_16
      ensures forall i: nat, q: nat :: i < nbFwdPorts && q < st.NbQ() ==>
        FwdPlan.OneLcorePolls(st.Lcores(), st.Streams(), fwdPortsIds[i], q)
      ensures forall s, s', port, queue ::
        FwdPlan.Polls(st.Streams(), s, port, queue) && FwdPlan.Polls(st.Streams(), s', port, queue) ==> s == s'
    {
      assert forall i :: 0 <= i < nbFwdPorts ==> st.fwdPorts[i] == Configured()[i];
      FwdPlan.ExactCover(st);
      forall i: nat, q: nat | i < nbFwdPorts && q < st.NbQ()
        ensures FwdPlan.OneLcorePolls(st.Lcores(), st.Streams(), fwdPortsIds[i], q)
      {
        var _ := FwdPlan.ExclusivePolling(st, i, q);
      }
    }
  }
}
