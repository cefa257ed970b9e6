/** Sending a burst on a stream's queue, with retries (`common_fwd_stream_transmit`). */
module Transmit {
  import opened Arith

  type Mbuf = nat

  /** A device queue that takes the front of what it is offered: `room` says how much at each call. */
  class TxQueue {
    const room: nat -> nat
    var sent: seq<Mbuf>
    ghost var offers: seq<seq<Mbuf>>   // what each call was offered
    var calls: nat

    ghost predicate Valid()
      reads this
    {
      |offers| == calls
    }

    constructor (room: nat -> nat)
      ensures Valid() && this.room == room && sent == [] && calls == 0
    {
      this.room := room;
      sent, offers, calls := [], [], 0;
    }

    method TxBurst(offered: seq<Mbuf>) returns (n: nat)
      requires Valid()
      modifies this
      ensures Valid() && n == Min(room(old(calls)), |offered|)
      ensures sent == old(sent) + offered[..n]
      ensures offers == old(offers) + [offered]
      ensures calls == old(calls) + 1
    {
      n := Min(room(calls), |offered|);
      sent := sent + offered[..n];
      offers := offers + [offered];
      calls := calls + 1;
    }
  }

  /** The room of `k` calls together, the first of them call number `first` of the queue. */
  ghost function RoomOf(room: nat -> nat, first: nat, k: nat): nat {
    if k == 0 then 0 else RoomOf(room, first, k - 1) + room(first + k - 1)
  }

  /** How many of `total` packets `k` calls send: as many as they have room for together. */
  ghost function SentBy(total: nat, room: nat -> nat, first: nat, k: nat): (n: nat)
    ensures n <= total
  {
    Min(total, RoomOf(room, first, k))
  }

  /** A call sends all that was left exactly when it has room for that. */
  lemma AllSentIff(total: nat, room: nat -> nat, first: nat, k: nat)
    ensures SentBy(total, room, first, k + 1) == total <==>
      room(first + k) >= total - SentBy(total, room, first, k)
  {
  }

  /** Since call number `first`, each call was offered all that was left, and no later one nothing. */
  ghost predicate Offered(room: nat -> nat, offers: seq<seq<Mbuf>>, before: seq<seq<Mbuf>>, burst: seq<Mbuf>) {
    && |before| <= |offers| && offers[..|before|] == before
    && forall k: nat :: |before| <= k < |offers| ==>
      && offers[k] == burst[SentBy(|burst|, room, |before|, k - |before|)..]
      && (k > |before| ==> offers[k] != [])
  }

  lemma FirstOffer(room: nat -> nat, before: seq<seq<Mbuf>>, burst: seq<Mbuf>)
    ensures Offered(room, before + [burst], before, burst)
    ensures SentBy(|burst|, room, |before|, 1) == Min(room(|before|), |burst|)
  {
    assert RoomOf(room, |before|, 1) == RoomOf(room, |before|, 0) + room(|before|);
    assert burst[0..] == burst;
  }

  lemma OfferedOn(
      room: nat -> nat, offers: seq<seq<Mbuf>>, before: seq<seq<Mbuf>>, burst: seq<Mbuf>, offer: seq<Mbuf>)
    requires Offered(room, offers, before, burst)
    requires offer == burst[SentBy(|burst|, room, |before|, |offers| - |before|)..]
    requires |offers| > |before| ==> offer != []
    ensures Offered(room, offers + [offer], before, burst)
  {
    var now := offers + [offer];
    assert now[..|before|] == offers[..|before|];
  }

  class FwdStream {
    var retryEnabled: bool
    var txPackets: nat
    var fwdDropped: nat
    var freed: seq<Mbuf>   // what `rte_pktmbuf_free_bulk` took back

    /**
      * Nothing is lost, repeated or reordered: a prefix of the burst is sent, the rest is freed, and
      * the counters account for both. The first call is offered the whole burst and every further one
      * all that is left; as much is sent as these calls have room for. The driver is called again
      * exactly while something is left, the stream retries and retries remain.
      */
    method TransmitBurst(queue: TxQueue, burst: seq<Mbuf>, retryNum: nat) returns (nbTx: nat)
      requires queue.Valid() && |burst| < TWO_16
      modifies this`txPackets, this`fwdDropped, this`freed, queue
      ensures queue.Valid() && nbTx <= |burst|
      ensures queue.sent == old(queue.sent) + burst[..nbTx]
      ensures freed == old(freed) + burst[nbTx..]
      ensures txPackets == old(txPackets) + nbTx
      ensures txPackets + fwdDropped == old(txPackets) + old(fwdDropped) + |burst|
      ensures 1 <= queue.calls - old(queue.calls) <= 1 + (if retryEnabled then retryNum else 0)
      ensures nbTx < |burst| && retryEnabled ==> queue.calls - old(queue.calls) == 1 + retryNum
      ensures Offered(queue.room, queue.offers, old(queue.offers), burst)
      ensures nbTx == SentBy(|burst|, queue.room, old(queue.calls), queue.calls - old(queue.calls))
    {
      nbTx := Send(queue, burst, if retryEnabled then retryNum else 0);
      txPackets := txPackets + nbTx;
      if nbTx < |burst| {
        fwdDropped := fwdDropped + (|burst| - nbTx);
        freed := freed + burst[nbTx..];
      }
    }

    /** The first call and the retries. */
    static method Send(queue: TxQueue, burst: seq<Mbuf>, retryNum: nat) returns (nbTx: nat)
      requires queue.Valid()
      modifies queue
      ensures queue.Valid() && nbTx <= |burst|
      ensures queue.sent == old(queue.sent) + burst[..nbTx]
      ensures 1 <= queue.calls - old(queue.calls) <= 1 + retryNum
      ensures nbTx < |burst| ==> queue.calls - old(queue.calls) == 1 + retryNum
      ensures nbTx == SentBy(|burst|, queue.room, old(queue.calls), queue.calls - old(queue.calls))
      ensures Offered(queue.room, queue.offers, old(queue.offers), burst)
    {
      ghost var before := queue.offers;
      FirstOffer(queue.room, before, burst);
      nbTx := queue.TxBurst(burst);
      if nbTx < |burst| {
        ghost var first := nbTx;
        nbTx := Retry(queue, burst, nbTx, retryNum, before);
        assert burst[..first] + burst[first..nbTx] == burst[..nbTx];
      }
    }

    /** The retries of a burst of which `sent` packets went with the first call. */
    static method Retry(queue: TxQueue, burst: seq<Mbuf>, sent: nat, retryNum: nat, ghost before: seq<seq<Mbuf>>)
      returns (nbTx: nat)
      requires queue.Valid() && queue.calls == |before| + 1
      requires sent < |burst| && sent == SentBy(|burst|, queue.room, |before|, 1)
      requires Offered(queue.room, queue.offers, before, burst)
      modifies queue
      ensures queue.Valid() && sent <= nbTx <= |burst|
      ensures queue.sent == old(queue.sent) + burst[sent..nbTx]
      ensures 1 <= queue.calls - |before| <= 1 + retryNum
      ensures nbTx < |burst| ==> queue.calls - |before| == 1 + retryNum
      ensures nbTx == SentBy(|burst|, queue.room, |before|, queue.calls - |before|)
      ensures Offered(queue.room, queue.offers, before, burst)
    {
      nbTx := sent;
      var retry := 0;
      while nbTx < |burst| && retry < retryNum
        invariant queue.Valid() && sent <= nbTx <= |burst| && retry <= retryNum
        invariant queue.sent == old(queue.sent) + burst[sent..nbTx]
        invariant queue.calls == |before| + 1 + retry
        invariant nbTx == SentBy(|burst|, queue.room, |before|, 1 + retry)
        invariant Offered(queue.room, queue.offers, before, burst)
        decreases retryNum - retry
      {
        retry := retry + 1;
        OfferedOn(queue.room, queue.offers, before, burst, burst[nbTx..]);
        var more := queue.TxBurst(burst[nbTx..]);
        assert burst[sent..nbTx] + burst[nbTx..][..more] == burst[sent..nbTx + more];
        nbTx := nbTx + more;
      }
    }
  }
}
