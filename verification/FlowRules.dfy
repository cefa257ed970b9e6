/** Flow rules: creation, update in place, flush and the sorted listing, on the same linked lists. */
module FlowRules {
  import opened Arith
  import opened RegistrySpec
  import opened Registry

  // ----- what the operations mean

  /** The highest id is taken. */
  predicate Full(es: seq<Entry>) { es != [] && es[0].id == UINT32_MAX }

  /** A new rule goes to the front, with the id after the highest one. */
  function Front(es: seq<Entry>, rule: Entry, handle: nat): seq<Entry> {
    [rule.(id := if es == [] then 0 else es[0].id + 1, handle := handle)] + es
  }

  function AfterFlowCreate(es: seq<Entry>, rule: Entry, prepared: bool, handle: nat): seq<Entry> {
    if Full(es) || !prepared || handle == 0 then es else Front(es, rule.(inTable := false), handle)
  }

  /** The names under which a refused queued creation destroys its rule: the id that was not set yet. */
  const UNSET_ID: seq<nat> := [0]

  /**
    * A queued creation takes its attributes from a table and no user id. When the driver refuses it,
    * the rule of the unset id is destroyed.
    */
  ghost function AfterQueueCreate(
      es: seq<Entry>, rule: Entry, prepared: bool, handle: nat, answer: (Entry, nat) -> int): seq<Entry>
  {
    if Full(es) || !prepared then es
    else if handle == 0 then Survivors(es, Batch(UNSET_ID, false, answer))
    else Front(es, rule.(userId := 0, inTable := true), handle)
  }

  function IndexOfId(es: seq<Entry>, id: nat): (k: nat)
    ensures k <= |es| && (k < |es| ==> es[k].id == id) && forall i :: 0 <= i < k ==> es[i].id != id
  {
    if es == [] || es[0].id == id then 0 else 1 + IndexOfId(es[1..], id)
  }

  /** An update replaces the rule by one of its table, with the same id and handle; the user id is lost. */
  function AfterUpdate(es: seq<Entry>, id: nat, ok: bool, group: nat, priority: nat): seq<Entry> {
    var k := IndexOfId(es, id);
    if k == |es| || !ok then es else es[k := Entry(id, 0, es[k].handle, group, priority, true)]
  }

  datatype FlowOp =
    | Create(rule: Entry, tunnel: bool, tunnelOk: bool, built: bool, handle: nat)
    | QueueCreate(tableRule: Entry, prepared: bool, newHandle: nat, answer: (Entry, nat) -> int)
    | Update(id: nat, queueOk: bool, ok: bool, group: nat, priority: nat)
    | Destroy(sweep: Sweep)
    | Flush

  ghost function Apply(es: seq<Entry>, op: FlowOp): seq<Entry> {
    match op
    case Create(rule, tunnel, tunnelOk, built, handle) =>
      AfterFlowCreate(es, rule, (tunnel ==> tunnelOk) && built, handle)
    case QueueCreate(rule, prepared, handle, answer) => AfterQueueCreate(es, rule, prepared, handle, answer)
    case Update(id, queueOk, ok, group, priority) => AfterUpdate(es, id, queueOk && ok, group, priority)
    case Destroy(sweep) => Survivors(es, sweep)
    case Flush => []
  }

  /** An update reads the table of the rule, which only queued creation gives it. Every other call has an effect. */
  predicate Defined(es: seq<Entry>, op: FlowOp) {
    op.Update? && op.queueOk && IndexOfId(es, op.id) < |es| ==> es[IndexOfId(es, op.id)].inTable
  }

  /** The rules after the first `n` operations. */
  ghost function ApplyAll(es: seq<Entry>, ops: seq<FlowOp>, n: nat): seq<Entry>
    requires n <= |ops|
  {
    if n == 0 then es else Apply(ApplyAll(es, ops, n - 1), ops[n-1])
  }

  /** What a creation adds: a rule at the front, with the given contents and handle and the highest id. */
  lemma CreationAdds(es: seq<Entry>, rule: Entry, prepared: bool, handle: nat)
    requires FlowInv(es)
    ensures var now := AfterFlowCreate(es, rule, prepared, handle);
            if prepared && handle != 0 && !Taken(es, UINT32_MAX) then
              && |now| == |es| + 1 && now[1..] == es
              && now[0].group == rule.group && now[0].priority == rule.priority
              && now[0].userId == rule.userId && now[0].handle == handle && !now[0].inTable
              && (forall x :: x in es ==> x.id < now[0].id)
              && (es == [] ==> now[0].id == 0) && (es != [] ==> Taken(es, now[0].id - 1))
            else now == es
  {
    if es != [] {
      assert es[0].id == es[0].id + 1 - 1;
    }
  }

  /** A queued creation that the driver accepts adds a rule in the same way, but from a table and without a user id. */
  lemma QueuedCreationAdds(es: seq<Entry>, rule: Entry, handle: nat, answer: (Entry, nat) -> int)
    requires FlowInv(es) && handle != 0 && !Taken(es, UINT32_MAX)
    ensures var now := AfterQueueCreate(es, rule, true, handle, answer);
            && |now| == |es| + 1 && now[1..] == es
            && now[0].group == rule.group && now[0].priority == rule.priority
            && now[0].userId == 0 && now[0].handle == handle && now[0].inTable
            && (forall x :: x in es ==> x.id < now[0].id)
  {
  }

  /** What an update changes: the attributes and the user id of the rule with that id, and nothing else. */
  lemma UpdateChanges(es: seq<Entry>, id: nat, ok: bool, group: nat, priority: nat, i: nat)
    requires FlowInv(es) && i < |es|
    ensures var now := AfterUpdate(es, id, ok, group, priority);
            && |now| == |es| && now[i].id == es[i].id && now[i].handle == es[i].handle
            && (ok && es[i].id == id ==>
                  now[i].group == group && now[i].priority == priority && now[i].userId == 0 && now[i].inTable)
            && (!ok || es[i].id != id ==> now[i] == es[i])
  {
  }

  /** Different ids in descending order, that fit 32 bits, and every rule has a driver handle. */
  ghost predicate FlowInv(es: seq<Entry>) {
    Descending(es) && forall i :: 0 <= i < |es| ==> es[i].id <= UINT32_MAX && es[i].handle != 0
  }

  lemma ApplyKeeps(es: seq<Entry>, op: FlowOp)
    requires FlowInv(es)
    ensures FlowInv(Apply(es, op))
  {
    match op
    case Create(rule, tunnel, tunnelOk, built, handle) =>
      if !Full(es) && handle != 0 {
        FrontKeeps(es, rule.(inTable := false), handle);
      }
    case QueueCreate(rule, prepared, handle, answer) =>
      SurvivorsKeep(es, Batch(UNSET_ID, false, answer));
      if !Full(es) && handle != 0 {
        FrontKeeps(es, rule.(userId := 0, inTable := true), handle);
      }
    case Destroy(sweep) => SurvivorsKeep(es, sweep);
    case _ =>
  }

  lemma FrontKeeps(es: seq<Entry>, rule: Entry, handle: nat)
    requires FlowInv(es) && !Full(es) && handle != 0
    ensures FlowInv(Front(es, rule, handle))
  {
  }

  lemma SurvivorsKeep(es: seq<Entry>, sw: Sweep)
    requires FlowInv(es)
    ensures FlowInv(Survivors(es, sw))
  {
    var r := Survivors(es, sw);
    SurvivorsAre(es, sw);
    forall i | 0 <= i < |r| ensures r[i].id <= UINT32_MAX && r[i].handle != 0 {
      assert r[i] in es;
    }
  }

  /**
    * A queued creation that the driver refuses leaves the rules as they were if and only if there is
    * no rule with id 0 or the driver refuses to destroy that one too.
    */
  lemma RefusedQueueCreateKeepsIff(es: seq<Entry>, rule: Entry, answer: (Entry, nat) -> int)
    requires FlowInv(es) && !Full(es)
    ensures AfterQueueCreate(es, rule, true, 0, answer) == es <==>
      forall e :: e in es && e.id == 0 ==> answer(e, 0) != 0
  {
    var sw := Batch(UNSET_ID, false, answer);
    SurvivorsAre(es, sw);
    forall e | e in es ensures sw.Keeps(e) <==> (e.id == 0 ==> answer(e, 0) != 0) {
      assert e.handle != 0;
      assert sw.Named(e, 0) <==> e.id == 0;
    }
    if forall e :: e in es && e.id == 0 ==> answer(e, 0) != 0 {
      AllSurvive(es, sw, |es|);
      assert es[..|es|] == es;
    }
  }

  lemma {:induction false} AllSurvive(es: seq<Entry>, sw: Sweep, n: nat)
    requires n <= |es| && forall e :: e in es ==> sw.Keeps(e)
    ensures Left(es, sw, n) == es[..n]
  {
    if n > 0 {
      AllSurvive(es, sw, n - 1);
      assert es[..n] == es[..n-1] + [es[n-1]];
    }
  }

  lemma {:induction false} RunKeeps(es: seq<Entry>, ops: seq<FlowOp>, n: nat)
    requires n <= |ops| && FlowInv(es)
    ensures FlowInv(ApplyAll(es, ops, n))
  {
    if n > 0 {
      RunKeeps(es, ops, n - 1);
      ApplyKeeps(ApplyAll(es, ops, n - 1), ops[n-1]);
    }
  }

  // ----- the operations

  /**
    * `port_flow_create`. With a tunnel, its actions are prepared first and released at the end;
    * `held` counts the preparations that are not released, which happens exactly when the record of
    * the rule cannot be built.
    */
  method CreateFlow(flows: List, rule: Entry, tunnel: bool, tunnelOk: bool, built: bool, handle: nat)
    returns (ok: bool, held: nat)
    requires flows.Valid()
    modifies flows, flows.owned`next
    ensures flows.Valid()
    ensures flows.Entries() ==
      AfterFlowCreate(old(flows.Entries()), rule, (tunnel ==> tunnelOk) && built, handle)
    ensures held == if tunnel && tunnelOk && !built && !Full(old(flows.Entries())) then 1 else 0
    ensures ok <==> |flows.Entries()| > |old(flows.Entries())|
    ensures old(flows.owned) <= flows.owned && fresh(flows.owned - old(flows.owned))
  {
    var room, id := NextId(flows);
    held := 0;
    if !room || (tunnel && !tunnelOk) {
      return false, held;
    }
    held := if tunnel then 1 else 0;
    if !built {
      return false, held;
    }
    if handle == 0 {
      held := if tunnel then held - 1 else held;
      return false, held;
    }
    PutFront(flows, rule.(inTable := false), id, handle);
    held := if tunnel then held - 1 else held;
    return true, held;
  }

  /** The id after that of the first rule. */
  method NextId(flows: List) returns (room: bool, id: nat)
    requires flows.Valid()
    ensures room <==> !Full(flows.Entries())
    ensures room ==> id == if flows.Entries() == [] then 0 else flows.Entries()[0].id + 1
  {
    room, id := true, 0;
    if flows.head != null {
      room := flows.head.e.id != UINT32_MAX;
      id := flows.head.e.id + 1;
    }
  }

  method PutFront(flows: List, rule: Entry, id: nat, handle: nat)
    requires flows.Valid() && id == if flows.Entries() == [] then 0 else flows.Entries()[0].id + 1
    modifies flows, flows.owned`next
    ensures flows.Valid() && flows.Entries() == Front(old(flows.Entries()), rule, handle)
    ensures old(flows.owned) <= flows.owned && fresh(flows.owned - old(flows.owned))
  {
    ghost var es, ns := flows.Entries(), flows.nodes;
    var pf := new Node(rule.(id := id, handle := handle));
    flows.Link(null, pf, 0);
    flows.EntriesInserted(ns, es, pf, 0);
  }

  /**
    * `port_queue_flow_create`: `prepared` says that the queue, the table and the templates are there
    * and the job and the record could be built. A refused rule is destroyed under an id that was not
    * set; `answer` is what the driver says to that.
    */
  method QueueCreateFlow(
      flows: List, rule: Entry, prepared: bool, handle: nat, answer: (Entry, nat) -> int)
    returns (ok: bool)
    requires flows.Valid()
    modifies flows, flows.owned`next
    ensures flows.Valid()
    ensures flows.Entries() == AfterQueueCreate(old(flows.Entries()), rule, prepared, handle, answer)
    ensures ok <==> !Full(old(flows.Entries())) && prepared && handle != 0
    ensures old(flows.owned) <= flows.owned && fresh(flows.owned - old(flows.owned))
  {
    var room, id := NextId(flows);
    if !room || !prepared {
      return false;
    }
    if handle == 0 {
      var _ := flows.Destroy(Batch(UNSET_ID, false, answer));
      return false;
    }
    PutFront(flows, rule.(userId := 0, inTable := true), id, handle);
    return true;
  }

  /**
    * `port_queue_flow_update`: the new node takes the place of the old one. The table of the rule is
    * read without a test, which fails (`nullTable`) for a rule that was not made from one.
    */
  method UpdateFlow(flows: List, id: nat, queueOk: bool, ok: bool, group: nat, priority: nat)
    returns (done: bool, nullTable: bool)
    requires flows.Valid()
    modifies flows, flows.owned`next
    ensures flows.Valid()
    ensures nullTable <==> !Defined(old(flows.Entries()), Update(id, queueOk, ok, group, priority))
    ensures nullTable ==> flows.Entries() == old(flows.Entries())
    ensures !nullTable ==> flows.Entries() == AfterUpdate(old(flows.Entries()), id, queueOk && ok, group, priority)
    ensures done <==> !nullTable && queueOk && ok && IndexOfId(old(flows.Entries()), id) < |old(flows.Entries())|
    ensures old(flows.owned) <= flows.owned && fresh(flows.owned - old(flows.owned))
  {
    if !queueOk {
      return false, false;
    }
    var prev, cur, k := FindFlow(flows, id);
    if cur == null {
      return false, false;
    }
    if !cur.e.inTable {
      return false, true;
    }
    if !ok {
      return false, false;
    }
    var uf := new Node(Entry(cur.e.id, 0, cur.e.handle, group, priority, true));
    flows.Replace(prev, cur, uf, k);
    return true, false;
  }

  method FindFlow(flows: List, id: nat) returns (prev: Node?, cur: Node?, ghost k: nat)
    requires flows.Valid()
    ensures k == IndexOfId(flows.Entries(), id) <= |flows.nodes|
    ensures cur == List.At(flows.nodes, k) && prev == if k == 0 then null else flows.nodes[k-1]
  {
    prev, cur, k := null, flows.head, 0;
    ghost var es := flows.Entries();
    while cur != null && cur.e.id != id
      invariant k <= |es| && cur == List.At(flows.nodes, k)
      invariant prev == if k == 0 then null else flows.nodes[k-1]
      invariant forall i :: 0 <= i < k ==> es[i].id != id
      decreases |es| - k
    {
      prev, cur, k := cur, cur.next, k + 1;
    }
    IndexIs(es, id, k);
  }

  lemma {:induction false} IndexIs(es: seq<Entry>, id: nat, k: nat)
    requires k <= |es| && (k < |es| ==> es[k].id == id)
    requires forall i :: 0 <= i < k ==> es[i].id != id
    ensures IndexOfId(es, id) == k
  {
  }

  /** `port_flow_flush`: the list is emptied whatever the driver says. */
  method FlushFlows(flows: List)
    requires flows.Valid()
    modifies flows, flows.owned`next
    ensures flows.Valid() && flows.Entries() == [] && flows.owned == old(flows.owned)
  {
    while flows.head != null
      invariant flows.Valid() && flows.owned == old(flows.owned)
      decreases |flows.nodes|
    {
      flows.Unlink(null, flows.head, 0);
    }
  }

  /** One operation on the linked list of rules. */
  method Do(flows: List, op: FlowOp) returns (defined: bool)
    requires flows.Valid() && (op.Destroy? ==> op.sweep.Batch?)
    modifies flows, flows.owned`next
    ensures defined <==> Defined(old(flows.Entries()), op)
    ensures flows.Valid()
    ensures flows.Entries() == if defined then Apply(old(flows.Entries()), op) else old(flows.Entries())
    ensures old(flows.owned) <= flows.owned && fresh(flows.owned - old(flows.owned))
  {
    defined := true;
    match op
    case Create(rule, tunnel, tunnelOk, built, handle) =>
      var _, _ := CreateFlow(flows, rule, tunnel, tunnelOk, built, handle);
    case QueueCreate(rule, prepared, handle, answer) =>
      var _ := QueueCreateFlow(flows, rule, prepared, handle, answer);
    case Update(id, queueOk, ok, group, priority) =>
      var done, nullTable := UpdateFlow(flows, id, queueOk, ok, group, priority);
      defined := !nullTable;
    case Destroy(sweep) => var _ := flows.Destroy(sweep);
    case Flush => FlushFlows(flows);
  }

  /**
    * Every run leaves a well-formed list with the specified rules, under their invariant, up to its
    * end or to the first call without a defined effect.
    */
  method Run(flows: List, ops: seq<FlowOp>) returns (done: nat)
    requires flows.Valid() && FlowInv(flows.Entries())
    requires forall i :: 0 <= i < |ops| && ops[i].Destroy? ==> ops[i].sweep.Batch?
    modifies flows, flows.owned`next
    ensures done <= |ops| && flows.Valid() && flows.Entries() == ApplyAll(old(flows.Entries()), ops, done)
    ensures done < |ops| ==> !Defined(flows.Entries(), ops[done])
    ensures FlowInv(flows.Entries())
  {
    ghost var es := flows.Entries();
    done := 0;
    while done < |ops|
      invariant done <= |ops| && flows.Valid() && flows.Entries() == ApplyAll(es, ops, done)
      invariant old(flows.owned) <= flows.owned && fresh(flows.owned - old(flows.owned))
    {
      var defined := Do(flows, ops[done]);
      if !defined {
        break;
      }
      done := done + 1;
    }
    RunKeeps(es, ops, done);
  }

  // ----- the listing

  /** Order of the listing: by group, then priority, then id. */
  predicate Greater(a: Entry, b: Entry) {
    || a.group > b.group
    || (a.group == b.group && a.priority > b.priority)
    || (a.group == b.group && a.priority == b.priority && a.id > b.id)
  }

  /** A rule as a number: group, then priority, then id, all of 32 bits. */
  ghost function Rank(e: Entry): nat { (e.group * TWO_32 + e.priority) * TWO_32 + e.id }

  ghost predicate FitsRank(e: Entry) { e.priority < TWO_32 && e.id < TWO_32 }

  /** The comparison of the listing is that of these numbers. */
  lemma GreaterIsRank(a: Entry, b: Entry)
    requires FitsRank(a) && FitsRank(b)
    ensures Greater(a, b) <==> Rank(a) > Rank(b)
  {
  }

  lemma SortedByRank(keys: seq<Entry>)
    requires Sorted(keys) && forall i :: 0 <= i < |keys| ==> FitsRank(keys[i])
    ensures forall i, j :: 0 <= i < j < |keys| ==> Rank(keys[i]) <= Rank(keys[j])
  {
    forall i, j | 0 <= i < j < |keys| ensures Rank(keys[i]) <= Rank(keys[j]) {
      GreaterIsRank(keys[i], keys[j]);
    }
  }

  predicate InGroups(e: Entry, groups: seq<nat>) {
    groups == [] || e.group in groups
  }

  /** The nodes are chained through `tmp`. */
  ghost predicate Chained(list: Node?, chain: seq<Node>)
    reads chain`tmp
  {
    && list == List.At(chain, 0)
    && (forall i {:trigger chain[i].tmp} :: 0 <= i < |chain| ==> chain[i].tmp == List.At(chain, i + 1))
    && List.NoDup(chain)
  }

  ghost predicate Sorted(keys: seq<Entry>) {
    forall i, j :: 0 <= i < j < |keys| ==> !Greater(keys[i], keys[j])
  }

  /** The entries of the nodes of a chain. */
  ghost predicate Holds(chain: seq<Node>, keys: seq<Entry>)
    reads chain`e
  {
    |chain| == |keys| && forall i :: 0 <= i < |chain| ==> chain[i].e == keys[i]
  }

  /** Of the first `n` nodes, those whose entry is in one of the groups; all when no group is given. */
  ghost function Wanted(ns: seq<Node>, es: seq<Entry>, groups: seq<nat>, n: nat): seq<Node>
    requires n <= |ns| == |es|
  {
    if n == 0 then [] else Wanted(ns, es, groups, n - 1) + if InGroups(es[n-1], groups) then [ns[n-1]] else []
  }

  /** The inner loop: where a node belongs in the sorted chain. */
  method FindSpot(list: Node?, pf: Node, ghost chain: seq<Node>, ghost keys: seq<Entry>)
    returns (prev: Node?, cur: Node?, ghost p: nat)
    requires Chained(list, chain) && Holds(chain, keys) && Sorted(keys)
    ensures p <= |chain| && cur == List.At(chain, p) && prev == if p == 0 then null else chain[p-1]
    ensures Sorted(InsertAt(keys, pf.e, p))
  {
    prev, cur, p := null, list, 0;
    while cur != null && Greater(pf.e, cur.e)
      invariant p <= |chain| && cur == List.At(chain, p)
      invariant prev == if p == 0 then null else chain[p-1]
      invariant forall i :: 0 <= i < p ==> Greater(pf.e, keys[i])
      decreases |chain| - p
    {
      prev, cur, p := cur, cur.tmp, p + 1;
    }
    SortedAround(keys, pf.e, p);
  }

  /** Link a node into the chain. */
  method LinkTmp(list: Node?, pf: Node, prev: Node?, cur: Node?, ghost chain: seq<Node>, ghost p: nat,
      ghost scope: set<Node>)
    returns (list': Node?)
    requires Chained(list, chain) && pf !in chain
    requires pf in scope && forall i :: 0 <= i < |chain| ==> chain[i] in scope
    requires p <= |chain| && cur == List.At(chain, p) && prev == if p == 0 then null else chain[p-1]
    modifies scope`tmp
    ensures Chained(list', List.InsertNode(chain, pf, p))
  {
    ghost var now := List.InsertNode(chain, pf, p);
    List.Inserted(chain, pf, p);
    pf.tmp := cur;
    list' := list;
    if prev == null {
      list' := pf;
    } else {
      prev.tmp := pf;
    }
    forall i {:trigger now[i].tmp} | 0 <= i < |now| ensures now[i].tmp == List.At(now, i + 1) {
      if i > p {
        assert now[i] == chain[i-1];
      }
    }
  }

  lemma SortedAround(keys: seq<Entry>, e: Entry, p: nat)
    requires Sorted(keys) && p <= |keys|
    requires forall i :: 0 <= i < p ==> Greater(e, keys[i])
    requires p < |keys| ==> !Greater(e, keys[p])
    ensures Sorted(InsertAt(keys, e, p))
  {
    var now := InsertAt(keys, e, p);
    forall i, j | 0 <= i < j < |now| ensures !Greater(now[i], now[j]) {
      assert now[i] == if i < p then keys[i] else if i == p then e else keys[i-1];
      assert now[j] == if j < p then keys[j] else if j == p then e else keys[j-1];
    }
  }

  lemma HoldsInserted(chain: seq<Node>, keys: seq<Entry>, pf: Node, p: nat)
    requires Holds(chain, keys) && p <= |chain|
    ensures Holds(List.InsertNode(chain, pf, p), InsertAt(keys, pf.e, p))
  {
    var now, ks := List.InsertNode(chain, pf, p), InsertAt(keys, pf.e, p);
    forall i | 0 <= i < |now| ensures now[i].e == ks[i] {
      if i != p {
        assert now[i] == chain[if i < p then i else i - 1];
      }
    }
  }

  /** Progress of the listing: the first `k` nodes are decided, and the wanted ones are in the chain. */
  ghost predicate Listing(ns: seq<Node>, es: seq<Entry>, groups: seq<nat>, k: nat, list: Node?, chain: seq<Node>,
      keys: seq<Entry>)
    reads chain
  {
    && |ns| == |es| && k <= |ns|
    && Chained(list, chain) && Holds(chain, keys) && Sorted(keys)
    && SameNodes(chain, Wanted(ns, es, groups, k))
  }

  /** The same nodes, each as often. */
  ghost predicate SameNodes(a: seq<Node>, b: seq<Node>) {
    multiset(a) == multiset(b)
  }

  lemma SameNodesInserted(chain: seq<Node>, wanted: seq<Node>, pf: Node, p: nat)
    requires SameNodes(chain, wanted) && p <= |chain|
    ensures SameNodes(List.InsertNode(chain, pf, p), wanted + [pf])
  {
    InsertedMembers(chain, pf, p);
  }

  lemma {:induction false} WantedAre(ns: seq<Node>, es: seq<Entry>, groups: seq<nat>, n: nat, x: Node)
    requires n <= |ns| == |es|
    ensures x in Wanted(ns, es, groups, n) ==> x in ns[..n]
  {
    if n > 0 {
      WantedAre(ns, es, groups, n - 1, x);
      assert ns[..n] == ns[..n-1] + [ns[n-1]];
    }
  }

  /** The wanted nodes are those of the given groups, or all of them when no group is given. */
  lemma {:induction false} WantedIff(ns: seq<Node>, es: seq<Entry>, groups: seq<nat>, n: nat, x: Node)
    requires n <= |ns| == |es|
    ensures x in Wanted(ns, es, groups, n) <==>
      exists i :: 0 <= i < n && ns[i] == x && (groups == [] || es[i].group in groups)
  {
    if n > 0 {
      WantedIff(ns, es, groups, n - 1, x);
    }
  }

  /** What is in the chain comes from the nodes already passed. */
  lemma ChainFrom(ns: seq<Node>, es: seq<Entry>, groups: seq<nat>, k: nat, list: Node?, chain: seq<Node>,
      keys: seq<Entry>)
    requires Listing(ns, es, groups, k, list, chain, keys)
    ensures forall i :: 0 <= i < |chain| ==> chain[i] in ns[..k]
  {
    forall i | 0 <= i < |chain| ensures chain[i] in ns[..k] {
      assert chain[i] in multiset(chain);
      WantedAre(ns, es, groups, k, chain[i]);
    }
  }

  /** One round of the outer loop for a wanted node. */
  method AddToListing(list: Node?, pf: Node, ghost ns: seq<Node>, ghost es: seq<Entry>, ghost groups: seq<nat>,
      ghost k: nat, ghost chain: seq<Node>, ghost keys: seq<Entry>, ghost scope: set<Node>)
    returns (list': Node?, ghost chain': seq<Node>, ghost keys': seq<Entry>)
    requires Listing(ns, es, groups, k, list, chain, keys) && k < |ns| && ns[k] == pf && InGroups(es[k], groups)
    requires List.NoDup(ns)
    requires forall i :: 0 <= i < |ns| ==> ns[i] in scope
    modifies scope`tmp
    ensures Listing(ns, es, groups, k + 1, list', chain', keys')
  {
    ChainFrom(ns, es, groups, k, list, chain, keys);
    List.NoDupMeans(ns);
    var prev, cur, p := FindSpot(list, pf, chain, keys);
    chain', keys' := List.InsertNode(chain, pf, p), InsertAt(keys, pf.e, p);
    HoldsInserted(chain, keys, pf, p);
    SameNodesInserted(chain, Wanted(ns, es, groups, k), pf, p);
    assert SameNodes(chain', Wanted(ns, es, groups, k + 1));
    list' := LinkTmp(list, pf, prev, cur, chain, p, scope);
  }

  /** The outer loop, over the nodes linked from `first` on. */
  method ListNodes(first: Node?, groups: seq<nat>, ghost ns: seq<Node>, ghost es: seq<Entry>, ghost scope: set<Node>)
    returns (list: Node?, ghost chain: seq<Node>, ghost keys: seq<Entry>)
    requires first == List.At(ns, 0) && Holds(ns, es)
    requires List.NoDup(ns)
    requires forall i :: 0 <= i < |ns| ==> ns[i] in scope
    requires forall i {:trigger ns[i].next} :: 0 <= i < |ns| ==> ns[i].next == List.At(ns, i + 1)
    modifies scope`tmp
    ensures Listing(ns, es, groups, |ns|, list, chain, keys)
  {
    list, chain, keys := null, [], [];
    ghost var k := 0;
    var pf := first;
    while pf != null
      invariant k <= |ns| && pf == List.At(ns, k)
      invariant Listing(ns, es, groups, k, list, chain, keys)
      decreases |ns| - k
    {
      var next := pf.next;
      assert next == List.At(ns, k + 1);
      if groups == [] || pf.e.group in groups {
        list, chain, keys := AddToListing(list, pf, ns, es, groups, k, chain, keys, scope);
      }
      pf, k := next, k + 1;
      assert pf == List.At(ns, k);
    }
  }

  /**
    * `port_flow_list`: the chain that is printed holds exactly the rules of the wanted groups, once
    * each and in order; the registry itself is untouched.
    */
  method ListFlows(flows: List, groups: seq<nat>) returns (list: Node?, ghost chain: seq<Node>, ghost keys: seq<Entry>)
    requires flows.Valid()
    modifies flows.owned`tmp
    ensures Chained(list, chain) && Holds(chain, keys) && Sorted(keys)
    ensures SameNodes(chain, Wanted(flows.nodes, flows.Entries(), groups, |flows.nodes|))
    ensures forall x :: x in chain <==> x in flows.nodes && (groups == [] || x.e.group in groups)
    ensures (forall i :: 0 <= i < |keys| ==> FitsRank(keys[i])) ==>
      forall i, j :: 0 <= i < j < |keys| ==> Rank(keys[i]) <= Rank(keys[j])
    ensures flows.Valid() && flows.Entries() == old(flows.Entries())
  {
    ghost var ns, es := flows.nodes, flows.Entries();
    list, chain, keys := ListNodes(flows.head, groups, ns, es, flows.owned);
    forall x ensures x in chain <==> x in ns && (groups == [] || x.e.group in groups) {
      WantedIff(ns, es, groups, |ns|, x);
      assert x in chain <==> x in multiset(chain);
    }
    if forall i :: 0 <= i < |keys| ==> FitsRank(keys[i]) {
      SortedByRank(keys);
    }
    assert flows.Entries() == es;
  }

  lemma InsertedMembers(chain: seq<Node>, pf: Node, p: nat)
    requires p <= |chain|
    ensures multiset(List.InsertNode(chain, pf, p)) == multiset(chain) + multiset{pf}
  {
    assert chain == chain[..p] + chain[p..];
  }
}
