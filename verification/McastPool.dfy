/** The pool of multicast addresses of a port, and its agreement with the driver. */
module McastPool {
  import opened Distinctness

  const MCAST_POOL_INC := 32

  type Mac = nat

  // ----- what the operations mean

  /** The recorded addresses, and the list that the driver accepted last. */
  datatype Pool = Pool(addrs: seq<Mac>, accepted: seq<Mac>) {
    /** Different addresses, and the driver has all of them. */
    ghost predicate Ok() {
      Distinct(addrs) && Elems(addrs) <= Elems(accepted)
    }

    /** Different addresses, and they are those of the driver. */
    ghost predicate Agrees() {
      Distinct(addrs) && Elems(addrs) == Elems(accepted)
    }
  }

  /** A call, the driver's answer to it, where a negative one is a refusal, and what `realloc` answers. */
  datatype Op =
    | Add(mac: Mac, diag: int, allocOk: bool)
    | Remove(mac: Mac, diag: int, allocOk: bool)
    | Flush(ret: int)

  /** The array has to grow before it can take one more than `n` addresses, and cannot. */
  predicate NoRoom(n: int, allocOk: bool) { !allocOk && n % MCAST_POOL_INC == 0 }

  /** Memory is needed exactly at the multiples of the increment, and in between there is always room. */
  lemma NoRoomIff(n: nat, allocOk: bool)
    ensures NoRoom(n, allocOk) <==> !allocOk && exists k: nat :: n == MCAST_POOL_INC * k
  {
    if n % MCAST_POOL_INC == 0 {
      assert n == MCAST_POOL_INC * (n / MCAST_POOL_INC);
    }
  }

  function Without(s: seq<Mac>, i: nat): (r: seq<Mac>)
    requires i < |s|
    ensures |r| == |s| - 1
  {
    s[..i] + s[i+1..]
  }

  function IndexOf(s: seq<Mac>, mac: Mac): (i: nat)
    ensures i <= |s| && mac !in s[..i] && (i < |s| ==> s[i] == mac)
  {
    if s == [] || s[0] == mac then 0 else 1 + IndexOf(s[1..], mac)
  }

  /**
    * An address that was not recorded for lack of memory and is then refused by the driver is taken
    * back all the same, which moves memory out of bounds. Every other call has an effect.
    */
  predicate Defined(p: Pool, op: Op) {
    op.Add? && op.mac !in p.addrs && NoRoom(|p.addrs|, op.allocOk) ==> op.diag >= 0
  }

  function Appended(s: seq<Mac>, mac: Mac, allocOk: bool): seq<Mac> {
    if NoRoom(|s|, allocOk) then s else s + [mac]
  }

  function Apply(p: Pool, op: Op): Pool {
    match op
    case Add(mac, diag, allocOk) =>
      if mac in p.addrs || diag < 0 then p
      else Pool(Appended(p.addrs, mac, allocOk), Appended(p.addrs, mac, allocOk))
    case Remove(mac, diag, allocOk) =>
      var i := IndexOf(p.addrs, mac);
      if i == |p.addrs| then p
      else if diag < 0 then Pool(Appended(Without(p.addrs, i), mac, allocOk), p.accepted)
      else Pool(Without(p.addrs, i), Without(p.addrs, i))
    case Flush(ret) => if ret != 0 then p else Pool([], [])
  }

  /** The pool after the first `n` calls. */
  function ApplyAll(p: Pool, ops: seq<Op>, n: nat): Pool
    requires n <= |ops|
  {
    if n == 0 then p else Apply(ApplyAll(p, ops, n - 1), ops[n-1])
  }

  lemma WithoutKeeps(s: seq<Mac>, i: nat)
    requires i < |s| && Distinct(s)
    ensures Distinct(Without(s, i)) && s[i] !in Without(s, i)
    ensures Elems(Without(s, i)) == Elems(s) - {s[i]}
    ensures Distinct(Without(s, i) + [s[i]]) && Elems(Without(s, i) + [s[i]]) == Elems(s)
  {
    var r := Without(s, i);
    assert forall k :: 0 <= k < |r| ==> r[k] == s[if k < i then k else k + 1];
    forall x | x in s && x != s[i] ensures x in r {
      var k :| 0 <= k < |s| && s[k] == x;
      assert r[if k < i then k else k - 1] == x;
    }
    assert s[i] !in r;
    assert Elems(r) == Elems(s) - {s[i]};
    assert Elems(r + [s[i]]) == Elems(r) + {s[i]};
  }

  lemma ApplyKeeps(p: Pool, op: Op)
    requires p.Ok()
    ensures Apply(p, op).Ok()
  {
    if op.Remove? {
      var i := IndexOf(p.addrs, op.mac);
      if i < |p.addrs| {
        WithoutKeeps(p.addrs, i);
      }
    }
  }

  /**
    * The addresses after each call. A new address that is accepted and has room comes in, a known one
    * whose removal is accepted goes out, an accepted flush takes all. Every other call leaves the set
    * alone, except that a refused removal is lost when there is no room to put the address back.
    */
  lemma ContentsAfter(p: Pool, op: Op)
    requires p.Ok()
    ensures var now := Elems(Apply(p, op).addrs);
            match op
            case Add(mac, diag, allocOk) =>
              now == Elems(p.addrs) + if diag >= 0 && !NoRoom(|p.addrs|, allocOk) then {mac} else {}
            case Remove(mac, diag, allocOk) =>
              now == Elems(p.addrs) - if diag >= 0 || NoRoom(|p.addrs| - 1, allocOk) then {mac} else {}
            case Flush(ret) => now == if ret == 0 then {} else Elems(p.addrs)
    ensures op.Remove? && op.mac !in p.addrs ==> Apply(p, op) == p
    ensures (if op.Flush? then op.ret != 0 else op.diag < 0) ==> Apply(p, op).accepted == p.accepted
  {
    if op.Remove? {
      var i := IndexOf(p.addrs, op.mac);
      if i < |p.addrs| {
        WithoutKeeps(p.addrs, i);
      } else {
        assert p.addrs[..i] == p.addrs;
      }
    } else if op.Add? && op.mac !in p.addrs {
      assert Elems(p.addrs + [op.mac]) == Elems(p.addrs) + {op.mac};
    }
  }

  /** Whether an address is held after a call,
    when it was `held` before; a call without an effect on it changes nothing. */
  predicate HeldAfter(size: nat, op: Op, mac: Mac, held: bool) {
    match op
    case Add(m, diag, allocOk) => (m == mac && diag >= 0 && !NoRoom(size, allocOk)) || held
    case Remove(m, diag, allocOk) => held && !(m == mac && (diag >= 0 || NoRoom(size - 1, allocOk)))
    case Flush(ret) => held && ret != 0
  }

  lemma HeldAfterIs(p: Pool, op: Op, mac: Mac)
    requires p.Ok()
    ensures mac in Apply(p, op).addrs <==> HeldAfter(|p.addrs|, op, mac, mac in p.addrs)
  {
    ContentsAfter(p, op);
    assert mac in p.addrs <==> mac in Elems(p.addrs);
    assert mac in Apply(p, op).addrs <==> mac in Elems(Apply(p, op).addrs);
  }

  /** The last of the first `n` calls with an effect on the address added it. */
  ghost predicate LastAdded(p: Pool, ops: seq<Op>, n: nat, mac: Mac)
    requires n <= |ops|
  {
    if n == 0 then mac in p.addrs
    else HeldAfter(|ApplyAll(p, ops, n - 1).addrs|, ops[n-1], mac, LastAdded(p, ops, n - 1, mac))
  }

  /** Over every run an address is in the pool exactly when the last call with an effect on it added it. */
  lemma {:induction false} RunHolds(p: Pool, ops: seq<Op>, n: nat, mac: Mac)
    requires n <= |ops| && p.Ok()
    ensures mac in ApplyAll(p, ops, n).addrs <==> LastAdded(p, ops, n, mac)
  {
    if n > 0 {
      RunHolds(p, ops, n - 1, mac);
      RunKeeps(p, ops, n - 1);
      HeldAfterIs(ApplyAll(p, ops, n - 1), ops[n-1], mac);
    }
  }

  /** Over every run, whatever fails, the addresses are different and the driver has all of them. */
  lemma {:induction false} RunKeeps(p: Pool, ops: seq<Op>, n: nat)
    requires n <= |ops| && p.Ok()
    ensures ApplyAll(p, ops, n).Ok()
  {
    if n > 0 {
      RunKeeps(p, ops, n - 1);
      ApplyKeeps(ApplyAll(p, ops, n - 1), ops[n-1]);
    }
  }

  /** A removal that the driver refuses and that cannot be undone for lack of memory. */
  predicate Loses(p: Pool, op: Op) {
    op.Remove? && op.mac in p.addrs && op.diag < 0 && NoRoom(|p.addrs| - 1, op.allocOk)
  }

  lemma ApplyAgreesIff(p: Pool, op: Op)
    requires p.Agrees()
    ensures Apply(p, op).Agrees() <==> !Loses(p, op)
  {
    if op.Remove? {
      var i := IndexOf(p.addrs, op.mac);
      if i < |p.addrs| {
        WithoutKeeps(p.addrs, i);
        assert op.mac in Elems(p.addrs);
      } else {
        assert p.addrs[..i] == p.addrs;
      }
    }
  }

  ghost predicate AgreesUpTo(p: Pool, ops: seq<Op>, n: nat)
    requires n <= |ops|
  {
    ApplyAll(p, ops, n).Agrees() && (n > 0 ==> AgreesUpTo(p, ops, n - 1))
  }

  predicate NothingLostUpTo(p: Pool, ops: seq<Op>, n: nat)
    requires n <= |ops|
  {
    n > 0 ==> NothingLostUpTo(p, ops, n - 1) && !Loses(ApplyAll(p, ops, n - 1), ops[n-1])
  }

  /**
    * Over a run, with the driver free to refuse and memory free to run out, the addresses are at
    * every point those that the driver accepted last, if and only if no refused removal is lost.
    */
  lemma {:induction false} RunAgreesIff(p: Pool, ops: seq<Op>, n: nat)
    requires n <= |ops| && p.Agrees()
    ensures AgreesUpTo(p, ops, n) <==> NothingLostUpTo(p, ops, n)
  {
    if n > 0 {
      RunAgreesIff(p, ops, n - 1);
      if AgreesUpTo(p, ops, n - 1) {
        ApplyAgreesIff(ApplyAll(p, ops, n - 1), ops[n-1]);
      }
    }
  }

  // ----- the array

  class McastPort {
    var pool: array?<Mac>
    var nb: nat
    ghost var accepted: seq<Mac>

    /** The array has room for the addresses, in steps of the increment, and is freed with the last one. */
    ghost predicate Valid()
      reads this
    {
      if pool == null then nb == 0
      else nb > 0 && (nb + MCAST_POOL_INC - 1) / MCAST_POOL_INC * MCAST_POOL_INC <= pool.Length
    }

    ghost function Addrs(): (s: seq<Mac>)
      requires Valid()
      reads this, pool
    {
      if pool == null then [] else pool[..nb]
    }

    ghost function View(): Pool
      requires Valid()
      reads this, pool
    {
      Pool(Addrs(), accepted)
    }

    constructor ()
      ensures Valid() && View() == Pool([], [])
    {
      pool, nb, accepted := null, 0, [];
    }

    /** `mcast_addr_pool_extend` and `mcast_addr_pool_append`; `allocOk` is what `realloc` answers. */
    method Append(mac: Mac, allocOk: bool)
      requires Valid()
      modifies this`pool, this`nb, pool
      ensures Valid()
      ensures pool == old(pool) || (pool != null && fresh(pool))
      ensures Addrs() == Appended(old(Addrs()), mac, allocOk)
    {
      if nb % MCAST_POOL_INC != 0 {
        nb := nb + 1;
      } else {
        if !allocOk {
          return;
        }
        var bigger := new Mac[nb + MCAST_POOL_INC](_ => 0);
        for i := 0 to nb
          invariant forall k :: 0 <= k < i ==> bigger[k] == pool[k]
          modifies bigger
        {
          bigger[i] := pool[i];
        }
        pool := bigger;
        nb := nb + 1;
      }
      pool[nb - 1] := mac;
    }

    /** `mcast_addr_pool_remove`: close the gap. */
    method RemoveAt(idx: nat)
      requires Valid() && idx < nb
      modifies this`pool, this`nb, pool
      ensures Valid()
      ensures pool == old(pool) || pool == null
      ensures nb == old(nb) - 1
      ensures Addrs() == Without(old(Addrs()), idx)
    {
      nb := nb - 1;
      if idx == nb {
        if nb == 0 {
          pool := null;
        }
        return;
      }
      for i := idx to nb
        invariant forall k :: 0 <= k < idx ==> pool[k] == old(pool[k])
        invariant forall k :: idx <= k < i ==> pool[k] == old(pool[k+1])
        invariant forall k :: i <= k < pool.Length ==> pool[k] == old(pool[k])
        modifies pool
      {
        pool[i] := pool[i + 1];
      }
    }

    /** `eth_port_multicast_addr_list_set`: offer the list to the driver. */
    method Offer(diag: int)
      requires Valid()
      modifies this`accepted
      ensures accepted == if diag < 0 then old(accepted) else Addrs()
    {
      if diag >= 0 {
        accepted := Addrs();
      }
    }

    /** The search loops: the position of an address, or the number of addresses. */
    method Find(mac: Mac) returns (i: nat)
      requires Valid()
      ensures i == IndexOf(Addrs(), mac) <= nb
    {
      i := 0;
      while i < nb
        invariant i <= nb
        invariant IndexOf(Addrs(), mac) == i + IndexOf(Addrs()[i..], mac)
      {
        if pool[i] == mac {
          return;
        }
        assert Addrs()[i..][1..] == Addrs()[i+1..];
        i := i + 1;
      }
    }

    /**
      * `mcast_addr_add`: a refused address is taken back. When it was not even recorded, for lack of
      * memory, taking it back runs out of the array (`overrun`) and nothing is promised.
      */
    method Add(mac: Mac, diag: int, allocOk: bool) returns (overrun: bool)
      requires Valid()
      modifies this`pool, this`nb, this`accepted, pool
      ensures overrun <==> !old(Defined(View(), Op.Add(mac, diag, allocOk)))
      ensures !overrun ==> Valid() && View() == old(Apply(View(), Op.Add(mac, diag, allocOk)))
      ensures pool == null || pool == old(pool) || fresh(pool)
    {
      ghost var before := Addrs();
      var i := Find(mac);
      if i < nb {
        return false;
      }
      assert before[..i] == before;
      Append(mac, allocOk);
      Offer(diag);
      if diag < 0 {
        if i == nb {
          return true;
        }
        RemoveAt(i);
        assert Addrs() == before;
      }
      return false;
    }

    /** `mcast_addr_remove`: an address whose removal is refused comes back, at the end of the pool. */
    method Remove(mac: Mac, diag: int, allocOk: bool)
      requires Valid()
      modifies this`pool, this`nb, this`accepted, pool
      ensures Valid()
      ensures View() == old(Apply(View(), Op.Remove(mac, diag, allocOk)))
      ensures pool == null || pool == old(pool) || fresh(pool)
    {
      ghost var before := Addrs();
      var i := Find(mac);
      if i == nb {
        return;
      }
      RemoveAt(i);
      Offer(diag);
      if diag < 0 {
        Append(mac, allocOk);
      }
    }

    /** `mcast_addr_flush`. */
    method Flush(ret: int)
      requires Valid()
      modifies this`pool, this`nb, this`accepted
      ensures Valid()
      ensures View() == old(Apply(View(), Op.Flush(ret)))
      ensures pool == null || pool == old(pool)
    {
      if ret != 0 {
        return;
      }
      accepted := [];
      if nb != 0 {
        pool := null;
        nb := 0;
      }
    }
  }

  /** One call on a port. */
  method Do(port: McastPort, op: Op) returns (overrun: bool)
    requires port.Valid()
    modifies port, port.pool
    ensures overrun <==> !old(Defined(port.View(), op))
    ensures !overrun ==> port.Valid() && port.View() == old(Apply(port.View(), op))
    ensures port.pool == null || port.pool == old(port.pool) || fresh(port.pool)
  {
    overrun := false;
    match op
    case Add(mac, diag, allocOk) => overrun := port.Add(mac, diag, allocOk);
    case Remove(mac, diag, allocOk) => port.Remove(mac, diag, allocOk);
    case Flush(ret) => port.Flush(ret);
  }

  /**
    * A run on a fresh port does what the specification says, up to its end or to the first call that
    * has no defined effect. At every point the addresses are different and the driver has all of
    * them; it has no others if and only if no refused removal was lost.
    */
  method Run(ops: seq<Op>) returns (port: McastPort, done: nat)
    ensures done <= |ops|
    ensures done == |ops| ==> port.Valid() && port.View() == ApplyAll(Pool([], []), ops, done)
    ensures done < |ops| ==> !Defined(ApplyAll(Pool([], []), ops, done), ops[done])
    ensures ApplyAll(Pool([], []), ops, done).Ok()
    ensures AgreesUpTo(Pool([], []), ops, done) <==> NothingLostUpTo(Pool([], []), ops, done)
    ensures done == |ops| ==> forall mac :: mac in port.Addrs() <==> LastAdded(Pool([], []), ops, done, mac)
  {
    port := new McastPort();
    done := 0;
    while done < |ops|
      invariant port.Valid() && fresh(port) && (port.pool == null || fresh(port.pool))
      invariant done <= |ops| && port.View() == ApplyAll(Pool([], []), ops, done)
    {
      var overrun := Do(port, ops[done]);
      if overrun {
        break;
      }
      done := done + 1;
    }
    RunKeeps(Pool([], []), ops, done);
    RunAgreesIff(Pool([], []), ops, done);
    if done == |ops| {
      forall mac ensures mac in port.Addrs() <==> LastAdded(Pool([], []), ops, done, mac) {
        RunHolds(Pool([], []), ops, done, mac);
      }
    }
  }
}
