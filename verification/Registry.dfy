/** The registries as linked lists. */
module Registry {
  import opened Common
  import opened RegistrySpec

  class Node {
    var e: Entry
    var next: Node?
    var tmp: Node?   // temporary linking, used for listing

    constructor (e: Entry)
      ensures this.e == e && next == null && tmp == null
    {
      this.e, next, tmp := e, null, null;
    }
  }

  class List {
    var head: Node?
    ghost var nodes: seq<Node>
    ghost var owned: set<Node>   // the nodes that this list may relink

    /** The nodes are linked in order and there are no others. */
    ghost predicate Valid()
      reads this, nodes
    {
      && head == At(nodes, 0)
      && (forall i :: 0 <= i < |nodes| ==> nodes[i] in owned)
      && (forall i {:trigger nodes[i].next} :: 0 <= i < |nodes| ==> nodes[i].next == At(nodes, i + 1))
      && NoDup(nodes)
    }

    /** No node twice; defined by recursion, so that proofs unfold it only on demand. */
    static ghost predicate NoDup(ns: seq<Node>) {
      ns == [] || (NoDup(ns[..|ns|-1]) && ns[|ns|-1] !in ns[..|ns|-1])
    }

    static lemma {:induction false} NoDupMeans(ns: seq<Node>)
      ensures NoDup(ns) <==> forall i, j :: 0 <= i < j < |ns| ==> ns[i] != ns[j]
    {
      if ns != [] {
        var n := |ns| - 1;
        NoDupMeans(ns[..n]);
        assert forall i :: 0 <= i < n ==> ns[..n][i] == ns[i];
      }
    }

    /** The node at a position, null past the end. */
    static ghost function At(ns: seq<Node>, i: nat): Node? {
      if i < |ns| then ns[i] else null
    }

    ghost function Entries(): (es: seq<Entry>)
      reads this, nodes
      ensures |es| == |nodes|
      ensures forall i :: 0 <= i < |nodes| ==> es[i] == nodes[i].e
    {
      seq(|nodes|, i requires 0 <= i < |nodes| reads this, nodes => nodes[i].e)
    }

    constructor ()
      ensures Valid() && nodes == [] && owned == {}
    {
      head, nodes, owned := null, [], {};
    }

    /** `*p = n->next`, where `p` is the link of `prev`, or the head. */
    method Unlink(prev: Node?, cur: Node, ghost k: nat)
      requires Valid() && k < |nodes| && nodes[k] == cur
      requires prev == if k == 0 then null else nodes[k-1]
      modifies this, owned`next
      ensures Valid() && nodes == ButOne(old(nodes), k) && owned == old(owned)
    {
      ghost var was, now := nodes, ButOne(nodes, k);
      Removed(was, k);
      var next := cur.next;
      if prev == null {
        head := next;
      } else {
        prev.next := next;
      }
      nodes := now;
      forall i {:trigger now[i].next} | 0 <= i < |now| ensures now[i].next == At(now, i + 1) {
        if i >= k {
          assert now[i] == was[i+1];
        }
      }
    }

    static lemma Removed(ns: seq<Node>, k: nat)
      requires k < |ns| && NoDup(ns)
      ensures var now := ButOne(ns, k);
              && |now| == |ns| - 1
              && (forall i :: 0 <= i < k ==> now[i] == ns[i])
              && (forall i :: k <= i < |now| ==> now[i] == ns[i+1] && now[i] != ns[k])
              && (k > 0 ==> forall i :: 0 <= i < |now| && i != k - 1 ==> now[i] != ns[k-1])
              && NoDup(now)
    {
      var now := ButOne(ns, k);
      NoDupMeans(ns);
      NoDupMeans(now);
    }

    /** `n->next = *p; *p = n`. */
    method Link(prev: Node?, n: Node, ghost k: nat)
      requires Valid() && k <= |nodes| && n !in nodes
      requires prev == if k == 0 then null else nodes[k-1]
      modifies this, owned`next, n`next
      ensures Valid() && nodes == InsertNode(old(nodes), n, k) && owned == old(owned) + {n}
    {
      ghost var was, now := nodes, InsertNode(nodes, n, k);
      Inserted(was, n, k);
      if prev == null {
        n.next := head;
        head := n;
      } else {
        n.next := prev.next;
        prev.next := n;
      }
      nodes := now;
      owned := owned + {n};
      forall i {:trigger now[i].next} | 0 <= i < |now| ensures now[i].next == At(now, i + 1) {
        if i > k {
          assert now[i] == was[i-1];
        }
      }
    }

    /** A node takes the place of another. */
    method Replace(prev: Node?, cur: Node, n: Node, ghost k: nat)
      requires Valid() && k < |nodes| && nodes[k] == cur && n !in nodes
      requires prev == if k == 0 then null else nodes[k-1]
      modifies this, owned`next, n`next
      ensures Valid() && nodes == old(nodes)[k := n] && owned == old(owned) + {n}
    {
      NoDupMeans(nodes);
      NoDupMeans(nodes[k := n]);
      n.next := cur.next;
      if prev == null {
        head := n;
      } else {
        prev.next := n;
      }
      nodes := nodes[k := n];
      owned := owned + {n};
    }

    static lemma Inserted(ns: seq<Node>, n: Node, k: nat)
      requires k <= |ns| && n !in ns && NoDup(ns)
      ensures var now := InsertNode(ns, n, k);
              && |now| == |ns| + 1
              && (forall i :: 0 <= i < k ==> now[i] == ns[i])
              && now[k] == n
              && (forall i :: k < i < |now| ==> now[i] == ns[i-1])
              && (forall i :: 0 <= i < |now| && i != k ==> now[i] != n)
              && (k > 0 ==> forall i :: 0 <= i < |now| && i != k - 1 ==> now[i] != ns[k-1])
              && NoDup(now)
    {
      var now := InsertNode(ns, n, k);
      NoDupMeans(ns);
      NoDupMeans(now);
    }

    // ----- allocation and creation

    /** The id to use: the caller's, or one above the highest. */
    method ChooseId(id: nat) returns (chosen: Option<nat>)
      requires Valid() && id <= UINT32_MAX
      ensures chosen == ChosenId(Entries(), id)
    {
      if id != UINT32_MAX {
        return Some(id);
      }
      if head == null {
        return Some(0);
      }
      if head.e.id == UINT32_MAX - 1 {
        return None;
      }
      return Some(head.e.id + 1);
    }

    /** Follow the links past the entries with higher ids. */
    method FindPlace(id: nat) returns (prev: Node?, cur: Node?, ghost k: nat)
      requires Valid() && Descending(Entries())
      ensures k == Position(Entries(), id) <= |nodes|
      ensures cur == At(nodes, k) && prev == if k == 0 then null else nodes[k-1]
      ensures Taken(Entries(), id) <==> cur != null && cur.e.id == id
    {
      prev, cur, k := null, head, 0;
      ghost var es := Entries();
      while cur != null && cur.e.id > id
        invariant k <= |nodes| && cur == At(nodes, k)
        invariant prev == if k == 0 then null else nodes[k-1]
        invariant forall i :: 0 <= i < k ==> es[i].id > id
        decreases |nodes| - k
      {
        prev, cur, k := cur, cur.next, k + 1;
      }
      PositionIs(es, id, k);
    }

    /**
      * `template_alloc`, `table_alloc` and `action_alloc`: a free id is linked in at its place with a null
      * handle; anything else leaves the list alone.
      */
    method Alloc(id: nat, memOk: bool) returns (status: Status, n: Node?, ghost k: nat)
      requires Valid() && Descending(Entries()) && id <= UINT32_MAX
      modifies this, owned`next
      ensures Valid()
      ensures status == AllocStatus(old(Entries()), id, memOk)
      ensures status != Ok ==> nodes == old(nodes) && owned == old(owned) && n == null
      ensures status == Ok ==> n != null && fresh(n) && n.e == NewEntry(ChosenId(old(Entries()), id).value)
      ensures status == Ok ==>
        k == Position(old(Entries()), n.e.id) && nodes == InsertNode(old(nodes), n, k) && owned == old(owned) + {n}
    {
      k := 0;
      ghost var es := Entries();
      var chosen := ChooseId(id);
      if chosen.None? || !memOk {
        return NoMemory, null, k;
      }
      n, k := Place(chosen.value);
      status := if n == null then Exists else Ok;
      assert status == AllocStatus(es, id, memOk);
    }

    /** Link a new entry in at its place, unless its id is there already. */
    method Place(id: nat) returns (n: Node?, ghost k: nat)
      requires Valid() && Descending(Entries())
      modifies this, owned`next
      ensures Valid()
      ensures n == null <==> Taken(old(Entries()), id)
      ensures n == null ==> nodes == old(nodes) && owned == old(owned)
      ensures n != null ==> fresh(n) && n.e == NewEntry(id) && k == Position(old(Entries()), id)
      ensures n != null ==> nodes == InsertNode(old(nodes), n, k) && owned == old(owned) + {n}
    {
      var prev, cur;
      prev, cur, k := FindPlace(id);
      if cur != null && cur.e.id == id {
        return null, k;
      }
      n := new Node(NewEntry(id));
      Link(prev, n, k);
    }

    static ghost function InsertNode(ns: seq<Node>, n: Node, k: nat): seq<Node>
      requires k <= |ns|
    {
      ns[..k] + [n] + ns[k..]
    }

    lemma PositionIs(es: seq<Entry>, id: nat, k: nat)
      requires Descending(es) && k <= |es|
      requires forall i :: 0 <= i < k ==> es[i].id > id
      requires k < |es| ==> es[k].id <= id
      ensures Position(es, id) == k
      ensures Taken(es, id) <==> k < |es| && es[k].id == id
    {
    }

    /**
      * `port_flow_pattern_template_create` and its siblings: when the driver refuses, the new entry is
      * destroyed again and exactly the nodes that were there before remain.
      */
    method Create(id: nat, memOk: bool, created: Entry -> nat) returns (ok: bool)
      requires Valid() && Descending(Entries()) && IdsBelow(Entries(), UINT32_MAX) && id <= UINT32_MAX
      modifies this, owned`next
      ensures Valid()
      ensures Entries() == AfterCreate(old(Entries()), id, memOk, created)
      ensures !ok ==> nodes == old(nodes)
      ensures ok <==>
        AllocStatus(old(Entries()), id, memOk) == Ok && created(NewEntry(ChosenId(old(Entries()), id).value)) != 0
      ensures old(owned) <= owned && fresh(owned - old(owned))
    {
      ghost var es, ns := Entries(), nodes;
      var status, n, p := Alloc(id, memOk);
      if status != Ok {
        return false;
      }
      ok := Settle(n, created(n.e), p, ns, es);
    }

    /** Keep an allocated entry with the handle that the driver gave it, or roll it back. */
    method Settle(n: Node, handle: nat, ghost p: nat, ghost ns: seq<Node>, ghost es: seq<Entry>) returns (ok: bool)
      requires Valid() && n.e.handle == 0 && n in owned
      requires |ns| == |es| && p <= |ns| && nodes == InsertNode(ns, n, p) && !Taken(es, n.e.id)
      requires forall i :: 0 <= i < |ns| ==> ns[i].e == es[i] && ns[i] != n
      modifies this, owned`next, n`e
      ensures Valid() && owned == old(owned)
      ensures ok <==> handle != 0
      ensures !ok ==> nodes == ns && Entries() == es
      ensures ok ==> Entries() == InsertAt(es, old(n.e).(handle := handle), p)
    {
      if handle == 0 {
        OthersDiffer(ns, es, n, p);
        RollBack(n, p);
        ButInserted(ns, n, p);
        return false;
      }
      n.e := n.e.(handle := handle);
      EntriesInserted(ns, es, n, p);
      return true;
    }

    lemma OthersDiffer(ns: seq<Node>, es: seq<Entry>, n: Node, p: nat)
      requires |ns| == |es| && p <= |ns| && nodes == InsertNode(ns, n, p) && !Taken(es, n.e.id)
      requires forall i :: 0 <= i < |ns| ==> ns[i].e == es[i]
      ensures forall i :: 0 <= i < |nodes| && i != p ==> nodes[i].e.id != n.e.id
    {
      forall i | 0 <= i < |nodes| && i != p ensures nodes[i].e.id != n.e.id {
        var j := if i < p then i else i - 1;
        assert nodes[i] == ns[j] && es[j].id != n.e.id;
      }
    }

    lemma EntriesInserted(ns: seq<Node>, es: seq<Entry>, n: Node, p: nat)
      requires |ns| == |es| && p <= |ns| && nodes == InsertNode(ns, n, p)
      requires forall i :: 0 <= i < |ns| ==> ns[i].e == es[i]
      ensures Entries() == InsertAt(es, n.e, p)
    {
      forall i | 0 <= i < |nodes| ensures nodes[i].e == InsertAt(es, n.e, p)[i] {
        if i != p {
          assert nodes[i] == ns[if i < p then i else i - 1];
        }
      }
    }

    static lemma ButInserted(ns: seq<Node>, n: Node, p: nat)
      requires p <= |ns|
      ensures ButOne(InsertNode(ns, n, p), p) == ns
    {
    }

    static ghost function ButOne(ns: seq<Node>, p: nat): seq<Node>
      requires p < |ns|
    {
      ns[..p] + ns[p+1..]
    }

    /** Destroying the one id of an entry that the driver never created unlinks just that entry. */
    method RollBack(n: Node, ghost p: nat)
      requires Valid() && p < |nodes| && nodes[p] == n && n.e.handle == 0
      requires forall i :: 0 <= i < |nodes| && i != p ==> nodes[i].e.id != n.e.id
      modifies this, owned`next
      ensures Valid() && nodes == ButOne(old(nodes), p) && owned == old(owned)
    {
      var sw := Batch([n.e.id], false, (x, i) => 0);
      KeepsOthers(Entries(), sw, p);
      KeptNodesButOne(nodes, Entries(), sw, p, |nodes|);
      assert nodes[p+1..|nodes|] == nodes[p+1..];
      var _ := Destroy(sw);
    }

    static lemma KeepsOthers(es: seq<Entry>, sw: Sweep, p: nat)
      requires p < |es| && es[p].handle == 0 && sw.Batch? && sw.names == [es[p].id] && !sw.byUser
      requires forall i :: 0 <= i < |es| && i != p ==> es[i].id != es[p].id
      ensures forall i :: 0 <= i < |es| ==> (sw.Keeps(es[i]) <==> i != p)
    {
      forall i | 0 <= i < |es| ensures sw.Keeps(es[i]) <==> i != p {
        assert sw.Named(es[i], 0) <==> i == p;
      }
    }

    // ----- destruction

    /** The nodes that a sweep keeps of the first `n`. */
    static ghost function KeptNodes(ns: seq<Node>, es: seq<Entry>, sw: Sweep, n: nat): seq<Node>
      requires n <= |ns| == |es|
    {
      if n == 0 then [] else KeptNodes(ns, es, sw, n - 1) + if sw.Keeps(es[n-1]) then [ns[n-1]] else []
    }

    static lemma {:induction false} KeptNodesButOne(ns: seq<Node>, es: seq<Entry>, sw: Sweep, p: nat, n: nat)
      requires n <= |ns| == |es|
      requires forall i :: 0 <= i < |es| ==> (sw.Keeps(es[i]) <==> i != p)
      ensures KeptNodes(ns, es, sw, n) == if p < n then ns[..p] + ns[p+1..n] else ns[..n]
    {
      if n > 0 {
        KeptNodesButOne(ns, es, sw, p, n - 1);
        if p < n - 1 {
          assert ns[p+1..n] == ns[p+1..n-1] + [ns[n-1]];
        } else if p >= n {
          assert ns[..n] == ns[..n-1] + [ns[n-1]];
        } else {
          assert ns[p+1..n] == [];
        }
      }
    }

    /**
      * `port_flow_*_destroy`: go through the list and try each entry for each name that fits, until one
      * attempt succeeds. A zero result means that no attempt was refused.
      */
    method Destroy(sw: Sweep) returns (ret: int)
      requires Valid() && sw.Batch?
      modifies this, owned`next
      ensures Valid()
      ensures nodes == KeptNodes(old(nodes), old(Entries()), sw, |old(nodes)|) && owned == old(owned)
      ensures Entries() == Survivors(old(Entries()), sw)
      ensures ret == 0 <==> Quiet(old(Entries()), sw, |old(Entries())|)
    {
      ret := 0;
      ghost var ns, es := nodes, Entries();
      var prev: Node?, cur := null, head;
      ghost var k, done: nat := 0, 0;
      while cur != null
        invariant Walking(ns, es, sw, done, k, prev, cur) && owned == old(owned)
        invariant ret == 0 <==> Quiet(es, sw, done)
        decreases |ns| - done
      {
        var code;
        prev, cur, code, k := DestroyOne(ns, es, sw, done, k, prev, cur);
        if code != 0 {
          ret := code;
        }
        done := done + 1;
      }
      WalkEnd(ns, es, sw, done, k, prev);
    }

    /** One round of a batch: try the entry and go on to the next one. */
    method DestroyOne(ghost ns: seq<Node>, ghost es: seq<Entry>, sw: Sweep, ghost done: nat, ghost k: nat,
        prev: Node?, cur: Node)
      returns (prev': Node?, cur': Node?, code: int, ghost k': nat)
      requires Walking(ns, es, sw, done, k, prev, cur) && sw.Batch?
      modifies this, owned`next
      ensures done < |ns| && Walking(ns, es, sw, done + 1, k', prev', cur') && owned == old(owned)
      ensures code != 0 <==> sw.Complains(es[done])
    {
      WalkHere(ns, es, sw, done, k, prev, cur);
      var gone;
      gone, code := TryEntry(sw, cur.e);
      if gone {
        cur' := DropEntry(ns, es, sw, done, k, prev, cur);
        prev', k' := prev, k;
      } else {
        KeepEntry(ns, es, sw, done, k, prev, cur);
        prev', cur', k' := cur, cur.next, k + 1;
      }
    }

    /** The state of a sweep: `done` entries are decided, the kept ones are in front, the rest is untouched. */
    ghost predicate Walking(ns: seq<Node>, es: seq<Entry>, sw: Sweep, done: nat, k: nat, prev: Node?, cur: Node?)
      reads this, nodes, ns
    {
      && Valid()
      && |ns| == |es| && done <= |ns| && k <= |nodes|
      && (forall i :: 0 <= i < |ns| ==> ns[i].e == es[i])
      && nodes[..k] == KeptNodes(ns, es, sw, done)
      && nodes[k..] == ns[done..]
      && prev == (if k == 0 then null else nodes[k-1])
      && cur == At(nodes, k)
    }

    lemma KeepEntry(ns: seq<Node>, es: seq<Entry>, sw: Sweep, done: nat, k: nat, prev: Node?, cur: Node)
      requires Walking(ns, es, sw, done, k, prev, cur) && sw.Keeps(cur.e)
      ensures done < |ns| && cur.e == es[done]
      ensures Walking(ns, es, sw, done + 1, k + 1, cur, cur.next)
    {
      WalkHere(ns, es, sw, done, k, prev, cur);
      assert nodes[..k+1] == nodes[..k] + [nodes[k]];
      assert nodes[k+1..] == nodes[k..][1..] == ns[done..][1..] == ns[done+1..];
    }

    lemma WalkEnd(ns: seq<Node>, es: seq<Entry>, sw: Sweep, done: nat, k: nat, prev: Node?)
      requires Walking(ns, es, sw, done, k, prev, null)
      ensures done == |ns| && k == |nodes|
      ensures nodes == KeptNodes(ns, es, sw, |ns|) && Entries() == Survivors(es, sw)
    {
      assert |nodes[k..]| == |ns[done..]|;
      assert nodes[..k] == nodes;
      KeptAre(ns, es, sw, |ns|);
    }

    lemma WalkHere(ns: seq<Node>, es: seq<Entry>, sw: Sweep, done: nat, k: nat, prev: Node?, cur: Node)
      requires Walking(ns, es, sw, done, k, prev, cur)
      ensures done < |ns| && k < |nodes| && nodes[k] == ns[done] == cur && cur.e == es[done]
    {
      assert |nodes[k..]| == |ns[done..]|;
      assert nodes[k] == nodes[k..][0] && ns[done] == ns[done..][0];
    }

    /** Unlink the entry where the sweep stands. */
    method DropEntry(ghost ns: seq<Node>, ghost es: seq<Entry>, ghost sw: Sweep, ghost done: nat, ghost k: nat,
        prev: Node?, cur: Node)
      returns (next: Node?)
      requires Walking(ns, es, sw, done, k, prev, cur) && !sw.Keeps(cur.e)
      modifies this, owned`next
      ensures done < |ns| && cur.e == es[done]
      ensures Walking(ns, es, sw, done + 1, k, prev, next)
      ensures owned == old(owned)
    {
      WalkHere(ns, es, sw, done, k, prev, cur);
      ghost var was := nodes;
      next := cur.next;
      Unlink(prev, cur, k);
      assert nodes[..k] == was[..k];
      assert nodes[k..] == was[k..][1..] == ns[done..][1..] == ns[done+1..];
      assert forall i :: 0 <= i < |nodes| ==> nodes[i] == if i < k then was[i] else was[i+1];
    }

    static lemma {:induction false} KeptAre(ns: seq<Node>, es: seq<Entry>, sw: Sweep, n: nat)
      requires n <= |ns| == |es| && forall i :: 0 <= i < |ns| ==> ns[i].e == es[i]
      ensures |KeptNodes(ns, es, sw, n)| == |Left(es, sw, n)|
      ensures forall i :: 0 <= i < |Left(es, sw, n)| ==> KeptNodes(ns, es, sw, n)[i].e == Left(es, sw, n)[i]
    {
      if n > 0 {
        KeptAre(ns, es, sw, n - 1);
      }
    }

    /** The inner loop over the names: the last complaint, if any, and whether an attempt succeeded. */
    static method TryEntry(sw: Sweep, e: Entry) returns (gone: bool, code: int)
      requires sw.Batch?
      ensures gone <==> !sw.Keeps(e)
      ensures code != 0 <==> sw.Complains(e)
    {
      gone, code := false, 0;
      for i := 0 to |sw.names|
        invariant forall j :: 0 <= j < i && sw.Named(e, j) ==> sw.Refused(e, j)
        invariant code != 0 <==> exists j: nat :: j < i && sw.Tried(e, j) && sw.Refused(e, j)
      {
        if sw.names[i] == (if sw.byUser then e.userId else e.id) {
          assert sw.Tried(e, i);
          if e.handle != 0 && sw.answer(e, i) != 0 {
            code := sw.answer(e, i);
            continue;
          }
          gone := true;
          forall j: nat | j < |sw.names| && sw.Tried(e, j) && sw.Refused(e, j) ensures j < i {
            assert sw.Named(e, i) && !sw.Refused(e, i);
          }
          return;
        }
      }
    }

    /** `port_flow_*_flush`: one attempt on every entry. */
    method Flush(sw: Sweep) returns (ret: int)
      requires Valid() && sw.Whole?
      modifies this, owned`next
      ensures Valid()
      ensures nodes == KeptNodes(old(nodes), old(Entries()), sw, |old(nodes)|) && owned == old(owned)
      ensures Entries() == Survivors(old(Entries()), sw)
      ensures ret == 0 <==> Entries() == []
    {
      ret := 0;
      ghost var ns, es := nodes, Entries();
      var prev: Node?, cur := null, head;
      ghost var k, done: nat := 0, 0;
      while cur != null
        invariant Walking(ns, es, sw, done, k, prev, cur) && owned == old(owned)
        invariant ret == 0 <==> k == 0
        decreases |ns| - done
      {
        var code;
        prev, cur, code, k := FlushOne(ns, es, sw, done, k, prev, cur);
        if code != 0 {
          ret := code;
        }
        done := done + 1;
      }
      WalkEnd(ns, es, sw, done, k, prev);
    }

    /** One round of a flush. */
    method FlushOne(ghost ns: seq<Node>, ghost es: seq<Entry>, sw: Sweep, ghost done: nat, ghost k: nat, prev: Node?,
        cur: Node)
      returns (prev': Node?, cur': Node?, code: int, ghost k': nat)
      requires Walking(ns, es, sw, done, k, prev, cur) && sw.Whole?
      modifies this, owned`next
      ensures done < |ns| && Walking(ns, es, sw, done + 1, k', prev', cur') && owned == old(owned)
      ensures k' == if code != 0 then k + 1 else k
    {
      WalkHere(ns, es, sw, done, k, prev, cur);
      if cur.e.handle != 0 && sw.answerOnce(cur.e) != 0 {
        code := sw.answerOnce(cur.e);
        KeepEntry(ns, es, sw, done, k, prev, cur);
        prev', cur', k' := cur, cur.next, k + 1;
      } else {
        code := 0;
        cur' := DropEntry(ns, es, sw, done, k, prev, cur);
        prev', k' := prev, k;
      }
    }

    // ----- runs

    /** One operation on the linked list. */
    method Do(op: Op)
      requires Valid() && Descending(Entries()) && IdsBelow(Entries(), UINT32_MAX) && OpFits(op)
      modifies this, owned`next
      ensures Valid() && Entries() == Apply(old(Entries()), op)
      ensures Descending(Entries()) && IdsBelow(Entries(), UINT32_MAX)
      ensures old(owned) <= owned && fresh(owned - old(owned))
    {
      ApplyKeeps(Entries(), op);
      match op
      case Create(id, memOk, created) => var _ := Create(id, memOk, created);
      case Destroy(sweep) =>
        if sweep.Batch? {
          var _ := Destroy(sweep);
        } else {
          var _ := Flush(sweep);
        }
    }

    /** Every run leaves a well-formed list with the specified entries, in strictly descending order of id. */
    method Run(ops: seq<Op>)
      requires Valid() && Descending(Entries()) && IdsBelow(Entries(), UINT32_MAX)
      requires forall i :: 0 <= i < |ops| ==> OpFits(ops[i])
      modifies this, owned`next
      ensures Valid() && Entries() == ApplyAll(old(Entries()), ops, |ops|)
      ensures Descending(Entries()) && IdsBelow(Entries(), UINT32_MAX)
    {
      ghost var es := Entries();
      for i := 0 to |ops|
        invariant Valid() && Entries() == ApplyAll(es, ops, i)
        invariant Descending(Entries()) && IdsBelow(Entries(), UINT32_MAX)
        invariant old(owned) <= owned && fresh(owned - old(owned))
      {
        Do(ops[i]);
      }
    }
  }
}
