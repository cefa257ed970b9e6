/** One pass of the CNDP receive-process-send loop (`run_to_completion`). */
module RunToCompletion {
  import opened Common
  import opened Distinctness

  type Mbuf = nat

  const KERNEL := 1000
  const DROP := 3000

  /** What the handlers say about one packet; a verdict other than the two above names an lport. */
  datatype Facts = Facts(isArp: bool, arpVerdict: int, filtered: bool, verdict: int)

  /** Where a packet goes. Packets for the kernel are written to the tap device and then freed. */
  datatype Dest = Tap | Dropped | ToLport(lpid: nat)

  /** `lports[v]` is the lpid of list entry `v`. */
  ghost predicate VerdictFits(f: Facts, lports: seq<nat>) {
    f.verdict == KERNEL || f.verdict == DROP || 0 <= f.verdict < |lports|
  }

  function DestOf(f: Facts, own: nat, filterOn: bool, lports: seq<nat>): Dest
    requires VerdictFits(f, lports)
  {
    if f.isArp then
      if f.arpVerdict == KERNEL then Tap else if f.arpVerdict == DROP then Dropped else ToLport(own)
    else if filterOn && f.filtered then Tap
    else if f.verdict == KERNEL then Tap
    else if f.verdict == DROP then Dropped
    else ToLport(lports[f.verdict])
  }

  /**
    * ARP packets follow the ARP handler, and go back out of the receiving lport unless they are for
    * the kernel or dropped. Other packets that the filter catches are for the kernel; the rest follow
    * the packet handler, whose verdict is otherwise the place of an lport in the list.
    */
  lemma VerdictTable(f: Facts, own: nat, filterOn: bool, lports: seq<nat>)
    requires VerdictFits(f, lports)
    ensures var d := DestOf(f, own, filterOn, lports);
            var caught := !f.isArp && filterOn && f.filtered;
            && (d == Tap <==> caught || (if f.isArp then f.arpVerdict else f.verdict) == 1000)
            && (d == Dropped <==> !caught && (if f.isArp then f.arpVerdict else f.verdict) == 3000)
            && (d.ToLport? && f.isArp ==> d.lpid == own)
            && (d.ToLport? && !f.isArp ==> 0 <= f.verdict < |lports| && d.lpid == lports[f.verdict])
  {
  }

  /** Of the first `n` packets, those that go to `d`, in order of arrival. */
  ghost function Going(burst: seq<Mbuf>, dests: seq<Dest>, d: Dest, n: nat): seq<Mbuf>
    requires n <= |burst| == |dests|
  {
    if n == 0 then [] else Going(burst, dests, d, n - 1) + if dests[n-1] == d then [burst[n-1]] else []
  }

  /** Of the first `n` packets, those that are freed, in order of arrival. */
  ghost function Freed(burst: seq<Mbuf>, dests: seq<Dest>, n: nat): seq<Mbuf>
    requires n <= |burst| == |dests|
  {
    if n == 0 then [] else Freed(burst, dests, n - 1) + if dests[n-1].ToLport? then [] else [burst[n-1]]
  }

  lemma GoingStep(burst: seq<Mbuf>, dests: seq<Dest>, i: nat)
    requires i < |burst| == |dests|
    ensures forall d ::
      Going(burst, dests, d, i + 1) == Going(burst, dests, d, i) + if dests[i] == d then [burst[i]] else []
    ensures Freed(burst, dests, i + 1) == Freed(burst, dests, i) + if dests[i].ToLport? then [] else [burst[i]]
  {
  }

  lemma {:induction false} GoingAre(burst: seq<Mbuf>, dests: seq<Dest>, d: Dest, n: nat)
    requires n <= |burst| == |dests| && Distinct(burst)
    ensures Distinct(Going(burst, dests, d, n))
    ensures forall i :: 0 <= i < |burst| ==> (burst[i] in Going(burst, dests, d, n) <==> i < n && dests[i] == d)
  {
    if n > 0 {
      GoingAre(burst, dests, d, n - 1);
    }
  }

  lemma {:induction false} FreedAre(burst: seq<Mbuf>, dests: seq<Dest>, n: nat)
    requires n <= |burst| == |dests| && Distinct(burst)
    ensures Distinct(Freed(burst, dests, n))
    ensures forall i :: 0 <= i < |burst| ==> (burst[i] in Freed(burst, dests, n) <==> i < n && !dests[i].ToLport?)
  {
    if n > 0 {
      FreedAre(burst, dests, n - 1);
    }
  }

  /** Packets for the same place stay in order of arrival. */
  lemma {:induction false} GoingInOrder(burst: seq<Mbuf>, dests: seq<Dest>, d: Dest, i: nat, j: nat, n: nat)
    requires i < j < n <= |burst| == |dests| && dests[i] == dests[j] == d
    ensures var g := Going(burst, dests, d, n);
            exists a, b :: 0 <= a < b < |g| && g[a] == burst[i] && g[b] == burst[j]
  {
    var g := Going(burst, dests, d, n);
    GoingAt(burst, dests, d, i, n);
    GoingAt(burst, dests, d, j, n);
    GoingAt(burst, dests, d, i, j);
    var a, b := |Going(burst, dests, d, i)|, |Going(burst, dests, d, j)|;
    assert 0 <= a < b < |g| && g[a] == burst[i] && g[b] == burst[j];
  }

  /** A packet for `d` comes after the earlier ones for `d`, however many packets follow. */
  lemma {:induction false} GoingAt(burst: seq<Mbuf>, dests: seq<Dest>, d: Dest, i: nat, n: nat)
    requires i < n <= |burst| == |dests| && dests[i] == d
    ensures |Going(burst, dests, d, i)| < |Going(burst, dests, d, n)|
    ensures Going(burst, dests, d, n)[|Going(burst, dests, d, i)|] == burst[i]
  {
    if i < n - 1 {
      GoingAt(burst, dests, d, i, n - 1);
    }
  }

  /** Every packet of a burst is disposed of exactly once: freed, or handed to one tx buffer, and once there. */
  lemma DisposedOnce(burst: seq<Mbuf>, dests: seq<Dest>, i: nat)
    requires i < |burst| == |dests| && Distinct(burst)
    ensures Distinct(Freed(burst, dests, |burst|)) && forall d :: Distinct(Going(burst, dests, d, |burst|))
    ensures dests[i].ToLport? ==> burst[i] !in Freed(burst, dests, |burst|)
    ensures !dests[i].ToLport? ==> burst[i] in Freed(burst, dests, |burst|)
    ensures forall d :: burst[i] in Going(burst, dests, d, |burst|) <==> d == dests[i]
  {
    FreedAre(burst, dests, |burst|);
    forall d
      ensures Distinct(Going(burst, dests, d, |burst|))
      ensures burst[i] in Going(burst, dests, d, |burst|) <==> d == dests[i]
    {
      GoingAre(burst, dests, d, |burst|);
    }
  }

  class Worker {
    const own: nat                  // lpid of the receiving lport
    const filterOn: bool
    const lports: seq<nat>          // lpids of the configured lports, as verdicts index them
    const listed: seq<Option<nat>>  // lpids found when going through the lports by index
    const burstSize: nat
    var freed: seq<Mbuf>
    var tap: seq<Mbuf>
    var pending: array<seq<Mbuf>>   // the tx buffer of each lpid
    var sent: array<seq<Mbuf>>      // what left through each lpid

    ghost predicate Valid()
      reads this
    {
      && pending.Length == sent.Length
      && pending != sent
      && own < pending.Length
      && (forall i :: 0 <= i < |lports| ==> lports[i] < pending.Length)
      && (forall i :: 0 <= i < |listed| && listed[i].Some? ==> listed[i].value < pending.Length)
    }

    constructor (own: nat, filterOn: bool, lports: seq<nat>, listed: seq<Option<nat>>, burstSize: nat, count: nat)
      requires own < count
      requires forall i :: 0 <= i < |lports| ==> lports[i] < count
      requires forall i :: 0 <= i < |listed| && listed[i].Some? ==> listed[i].value < count
      ensures Valid() && fresh(pending) && fresh(sent) && pending.Length == count
      ensures freed == tap == [] && forall l :: 0 <= l < count ==> Handed(l) == []
    {
      this.own, this.filterOn, this.lports, this.listed, this.burstSize := own, filterOn, lports, listed, burstSize;
      freed, tap := [], [];
      pending := new seq<Mbuf>[count](_ => []);
      sent := new seq<Mbuf>[count](_ => []);
    }

    /** Everything handed to a tx buffer so far, in the order it leaves. */
    ghost function Handed(l: nat): seq<Mbuf>
      requires Valid() && l < pending.Length
      reads this, pending, sent
    {
      sent[l] + pending[l]
    }

    ghost function AllHanded(): (h: seq<seq<Mbuf>>)
      requires Valid()
      reads this, pending, sent
      ensures |h| == pending.Length && forall l :: 0 <= l < pending.Length ==> h[l] == Handed(l)
    {
      seq(pending.Length, l requires 0 <= l < pending.Length && l < sent.Length reads this, pending, sent =>
        sent[l] + pending[l])
    }

    /** `txbuff_flush`: some of the waiting packets leave, at least one if there is any. */
    method Flush(l: nat)
      requires Valid() && l < pending.Length
      modifies pending, sent
      ensures Handed(l) == old(Handed(l))
      ensures pending[l] == [] || |pending[l]| < |old(pending[l])|
      ensures forall k :: 0 <= k < pending.Length && k != l ==> pending[k] == old(pending[k]) && sent[k] == old(sent[k])
    {
      var n: nat :| n <= |pending[l]| && (pending[l] != [] ==> n > 0);
      sent[l] := sent[l] + pending[l][..n];
      pending[l] := pending[l][n..];
    }

    /** `txbuff_add`: a full buffer is flushed. */
    method Add(l: nat, m: Mbuf)
      requires Valid() && l < pending.Length
      modifies pending, sent
      ensures Handed(l) == old(Handed(l)) + [m]
      ensures forall k :: 0 <= k < pending.Length && k != l ==> Handed(k) == old(Handed(k))
    {
      pending[l] := pending[l] + [m];
      assert Handed(l) == old(Handed(l)) + [m];
      if |pending[l]| >= burstSize {
        Flush(l);
      }
    }

    ghost function Dests(facts: seq<Facts>): (ds: seq<Dest>)
      requires forall i :: 0 <= i < |facts| ==> VerdictFits(facts[i], lports)
      ensures |ds| == |facts|
      ensures forall i :: 0 <= i < |facts| ==> ds[i] == DestOf(facts[i], own, filterOn, lports)
    {
      seq(|facts|, i requires 0 <= i < |facts| => DestOf(facts[i], own, filterOn, lports))
    }

    /** The handling of one packet of the burst. */
    method Dispose(m: Mbuf, f: Facts)
      requires Valid() && VerdictFits(f, lports)
      modifies this`freed, this`tap, pending, sent
      ensures var d := DestOf(f, own, filterOn, lports);
              && freed == old(freed) + (if d.ToLport? then [] else [m])
              && tap == old(tap) + (if d.Tap? then [m] else [])
              && forall l :: 0 <= l < pending.Length ==>
                Handed(l) == old(Handed(l)) + if d == ToLport(l) then [m] else []
    {
      if f.isArp {
        if f.arpVerdict == KERNEL {
          tap := tap + [m];
          freed := freed + [m];
        } else if f.arpVerdict == DROP {
          freed := freed + [m];
        } else {
          Add(own, m);
        }
        return;
      }
      if filterOn {
        if f.filtered {
          tap := tap + [m];
          freed := freed + [m];
          return;
        }
      }
      if f.verdict == KERNEL {
        tap := tap + [m];
        freed := freed + [m];
      } else if f.verdict == DROP {
        freed := freed + [m];
      } else {
        Add(lports[f.verdict], m);
      }
    }

    /**
      * `run_to_completion` for a burst (None when the device is down): packets go where the
      * verdicts send them, in order of arrival, and no listed tx buffer keeps anything back.
      */
    method Step(rx: Option<seq<Mbuf>>, facts: seq<Facts>) returns (count: int)
      requires Valid()
      requires rx.Some? ==> |rx.value| == |facts|
      requires forall i :: 0 <= i < |facts| ==> VerdictFits(facts[i], lports)
      modifies this`freed, this`tap, pending, sent
      ensures rx.None? ==>
        && count == -1 && freed == old(freed) && tap == old(tap)
        && forall l :: 0 <= l < pending.Length ==> Handed(l) == old(Handed(l))
      ensures rx.Some? ==>
        && count == |rx.value|
        && freed == old(freed) + Freed(rx.value, Dests(facts), |facts|)
        && tap == old(tap) + Going(rx.value, Dests(facts), Tap, |facts|)
        && (forall l :: 0 <= l < pending.Length ==>
          Handed(l) == old(Handed(l)) + Going(rx.value, Dests(facts), ToLport(l), |facts|))
        && (forall i :: 0 <= i < |listed| && listed[i].Some? ==> pending[listed[i].value] == [])
    {
      if rx.None? {
        return -1;
      }
      DisposeAll(rx.value, facts);
      FlushAll();
      count := |rx.value|;
    }

    /** What was freed, written to the tap device and handed on before, with the first `n` packets of the burst. */
    ghost predicate Distributed(
        burst: seq<Mbuf>, dests: seq<Dest>, n: nat, freed0: seq<Mbuf>, tap0: seq<Mbuf>, handed0: seq<seq<Mbuf>>)
      requires Valid() && n <= |burst| == |dests|
      reads this, pending, sent
    {
      && freed == freed0 + Freed(burst, dests, n)
      && tap == tap0 + Going(burst, dests, Tap, n)
      && |handed0| == pending.Length
      && forall l :: 0 <= l < pending.Length ==> Handed(l) == handed0[l] + Going(burst, dests, ToLport(l), n)
    }

    method DisposeNext(
        burst: seq<Mbuf>, facts: seq<Facts>, i: nat,
        ghost freed0: seq<Mbuf>, ghost tap0: seq<Mbuf>, ghost handed0: seq<seq<Mbuf>>)
      requires Valid() && i < |burst| == |facts|
      requires forall k :: 0 <= k < |facts| ==> VerdictFits(facts[k], lports)
      requires Distributed(burst, Dests(facts), i, freed0, tap0, handed0)
      modifies this`freed, this`tap, pending, sent
      ensures Distributed(burst, Dests(facts), i + 1, freed0, tap0, handed0)
    {
      ghost var dests := Dests(facts);
      Dispose(burst[i], facts[i]);
      GoingStep(burst, dests, i);
    }

    /** The loop over the burst. */
    method DisposeAll(burst: seq<Mbuf>, facts: seq<Facts>)
      requires Valid() && |burst| == |facts|
      requires forall i :: 0 <= i < |facts| ==> VerdictFits(facts[i], lports)
      modifies this`freed, this`tap, pending, sent
      ensures freed == old(freed) + Freed(burst, Dests(facts), |facts|)
      ensures tap == old(tap) + Going(burst, Dests(facts), Tap, |facts|)
      ensures forall l :: 0 <= l < pending.Length ==>
        Handed(l) == old(Handed(l)) + Going(burst, Dests(facts), ToLport(l), |facts|)
    {
      ghost var freed0, tap0 := freed, tap;
      ghost var handed0 := AllHanded();
      for i := 0 to |burst|
        invariant Distributed(burst, Dests(facts), i, freed0, tap0, handed0)
      {
        DisposeNext(burst, facts, i, freed0, tap0, handed0);
      }
    }

    /** The flush loops at the end of the pass. */
    method FlushAll()
      requires Valid()
      modifies pending, sent
      ensures forall l :: 0 <= l < pending.Length ==> Handed(l) == old(Handed(l))
      ensures forall i :: 0 <= i < |listed| && listed[i].Some? ==> pending[listed[i].value] == []
    {
      for i := 0 to |listed|
        invariant forall l :: 0 <= l < pending.Length ==> Handed(l) == old(Handed(l))
        invariant forall k :: 0 <= k < i && listed[k].Some? ==> pending[listed[k].value] == []
      {
        if listed[i].Some? {
          var l := listed[i].value;
          while |pending[l]| > 0
            invariant forall k :: 0 <= k < pending.Length ==> Handed(k) == old(Handed(k))
            invariant forall k :: 0 <= k < i && listed[k].Some? ==> pending[listed[k].value] == []
            decreases |pending[l]|
          {
            Flush(l);
          }
        }
      }
    }
  }
}
