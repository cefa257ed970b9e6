/**
  * Registries of flow templates, tables and rules: linked lists that are kept in descending order
  * of id, with entries that the driver may refuse to create or to destroy.
  */
module RegistrySpec {
  import opened Common

  const UINT32_MAX: nat := 0xFFFF_FFFF

  /**
    * One entry. Handle 0 stands for the null handle of an entry that the driver did not create;
    * `inTable` says of a flow rule that it was made from a template table.
    */
  datatype Entry = Entry(id: nat, userId: nat, handle: nat, group: nat, priority: nat, inTable: bool)

  ghost predicate Descending(es: seq<Entry>) {
    forall i, j :: 0 <= i < j < |es| ==> es[i].id > es[j].id
  }

  ghost predicate IdsBelow(es: seq<Entry>, bound: nat) {
    forall i :: 0 <= i < |es| ==> es[i].id < bound
  }

  // ----- allocation

  /** The id taken when the caller leaves the choice: one above the highest. */
  function AutoId(es: seq<Entry>): Option<nat> {
    if es == [] then Some(0)
    else if es[0].id == UINT32_MAX - 1 then None
    else Some(es[0].id + 1)
  }

  function ChosenId(es: seq<Entry>, id: nat): Option<nat> {
    if id == UINT32_MAX then AutoId(es) else Some(id)
  }

  function NewEntry(id: nat): Entry { Entry(id, 0, 0, 0, 0, false) }

  predicate Taken(es: seq<Entry>, id: nat) {
    exists i :: 0 <= i < |es| && es[i].id == id
  }

  /** Number of leading entries with a higher id. */
  function Position(es: seq<Entry>, id: nat): (p: nat)
    ensures p <= |es|
    ensures forall i :: 0 <= i < p ==> es[i].id > id
    ensures p < |es| ==> es[p].id <= id
  {
    if es == [] || es[0].id <= id then 0 else 1 + Position(es[1..], id)
  }

  function InsertAt(es: seq<Entry>, e: Entry, p: nat): seq<Entry>
    requires p <= |es|
  {
    es[..p] + [e] + es[p..]
  }

  function Insert(es: seq<Entry>, e: Entry): seq<Entry> {
    InsertAt(es, e, Position(es, e.id))
  }

  datatype Status = Ok | NoMemory | Exists

  /** Whether an id can be allocated. */
  function AllocStatus(es: seq<Entry>, id: nat, memOk: bool): Status {
    match ChosenId(es, id)
    case None => NoMemory
    case Some(chosen) => if !memOk then NoMemory else if Taken(es, chosen) then Exists else Ok
  }

  /** A missing id or memory comes first; with both, a given id is refused exactly when it is taken. */
  lemma AllocStatusIs(es: seq<Entry>, id: nat, memOk: bool)
    requires Descending(es) && IdsBelow(es, UINT32_MAX) && id <= UINT32_MAX
    ensures AllocStatus(es, id, memOk) == NoMemory <==> !memOk || (id == UINT32_MAX && Taken(es, UINT32_MAX - 1))
    ensures AllocStatus(es, id, memOk) == Exists <==> memOk && id < UINT32_MAX && Taken(es, id)
  {
    if es != [] && id == UINT32_MAX && AutoId(es).Some? {
      AutoIdIsFree(es);
    }
  }

  lemma InsertKeeps(es: seq<Entry>, e: Entry)
    requires Descending(es) && !Taken(es, e.id)
    ensures Descending(Insert(es, e))
    ensures forall x :: x in Insert(es, e) ==> x in es || x == e
  {
    var p := Position(es, e.id);
    forall i | p <= i < |es| ensures es[i].id < e.id {
      assert es[i].id != e.id && es[p].id != e.id;
    }
    InsertAtKeeps(es, e, p);
  }

  lemma InsertAtKeeps(es: seq<Entry>, e: Entry, p: nat)
    requires Descending(es) && p <= |es|
    requires forall i :: 0 <= i < p ==> es[i].id > e.id
    requires forall i :: p <= i < |es| ==> es[i].id < e.id
    ensures Descending(InsertAt(es, e, p))
    ensures forall x :: x in InsertAt(es, e, p) ==> x in es || x == e
  {
    var r := InsertAt(es, e, p);
    forall i | 0 <= i < |r| ensures r[i] == if i < p then es[i] else if i == p then e else es[i-1] {
    }
  }

  /** An id chosen by the registry is always free. */
  lemma AutoIdIsFree(es: seq<Entry>)
    requires Descending(es) && IdsBelow(es, UINT32_MAX) && AutoId(es).Some?
    ensures !Taken(es, AutoId(es).value) && AutoId(es).value < UINT32_MAX
  {
    forall i | 0 <= i < |es| ensures es[i].id < AutoId(es).value {
    }
  }

  // ----- destruction

  /**
    * A sweep over the list and the driver's answers: 0 when it destroys an entry, else the complaint.
    * A batch names entries by id or by user id, and tries again when an entry is named again.
    */
  datatype Sweep =
    | Batch(names: seq<nat>, byUser: bool, answer: (Entry, nat) -> int)
    | Whole(answerOnce: Entry -> int)
  {
    predicate Named(e: Entry, i: nat)
      requires Batch? && i < |names|
    {
      names[i] == if byUser then e.userId else e.id
    }

    predicate Refused(e: Entry, i: nat)
      requires Batch?
    {
      e.handle != 0 && answer(e, i) != 0
    }

    /** An entry stays when it is not named or is refused at every attempt. */
    predicate Keeps(e: Entry) {
      if Batch? then forall i :: 0 <= i < |names| && Named(e, i) ==> Refused(e, i)
      else e.handle != 0 && answerOnce(e) != 0
    }

    /** An entry is tried for name number `i` when it was refused for all the earlier ones. */
    ghost predicate Tried(e: Entry, i: nat)
      requires Batch? && i < |names|
    {
      Named(e, i) && forall j :: 0 <= j < i && Named(e, j) ==> Refused(e, j)
    }

    /** Some attempt on the entry is refused. */
    ghost predicate Complains(e: Entry) {
      if Batch? then exists i: nat :: i < |names| && Tried(e, i) && Refused(e, i)
      else Keeps(e)
    }
  }

  /** No attempt of the sweep on the first `n` entries is refused. */
  ghost predicate Quiet(es: seq<Entry>, sw: Sweep, n: nat)
    requires n <= |es|
  {
    n == 0 || (Quiet(es, sw, n - 1) && !sw.Complains(es[n-1]))
  }

  lemma {:induction false} QuietMeans(es: seq<Entry>, sw: Sweep, n: nat)
    requires n <= |es|
    ensures Quiet(es, sw, n) <==> forall i :: 0 <= i < n ==> !sw.Complains(es[i])
  {
    if n > 0 {
      QuietMeans(es, sw, n - 1);
    }
  }

  /** What a sweep leaves of the first `n` entries, in the old order. */
  ghost function Left(es: seq<Entry>, sw: Sweep, n: nat): seq<Entry>
    requires n <= |es|
  {
    if n == 0 then [] else Left(es, sw, n - 1) + if sw.Keeps(es[n-1]) then [es[n-1]] else []
  }

  ghost function Survivors(es: seq<Entry>, sw: Sweep): seq<Entry> {
    Left(es, sw, |es|)
  }

  lemma {:induction false} LeftAre(es: seq<Entry>, sw: Sweep, n: nat)
    requires n <= |es|
    ensures forall x :: x in Left(es, sw, n) <==> x in es[..n] && sw.Keeps(x)
    ensures Descending(es) ==> Descending(Left(es, sw, n))
  {
    if n > 0 {
      LeftAre(es, sw, n - 1);
      assert es[..n] == es[..n-1] + [es[n-1]];
      var r := Left(es, sw, n - 1);
      if Descending(es) {
        forall i | 0 <= i < |r| ensures r[i].id > es[n-1].id {
          assert r[i] in es[..n-1];
        }
      }
    }
  }

  lemma SurvivorsAre(es: seq<Entry>, sw: Sweep)
    ensures forall x :: x in Survivors(es, sw) <==> x in es && sw.Keeps(x)
    ensures Descending(es) ==> Descending(Survivors(es, sw))
  {
    LeftAre(es, sw, |es|);
    assert es[..|es|] == es;
  }

  /** When the driver accepts everything, a batch takes exactly the entries whose id, or user id, is among the names. */
  lemma AcceptedBatchTakes(es: seq<Entry>, names: seq<nat>, byUser: bool)
    ensures forall x :: x in Survivors(es, Batch(names, byUser, (e, i) => 0)) <==>
      x in es && (if byUser then x.userId else x.id) !in names
  {
    var sw := Batch(names, byUser, (e, i) => 0);
    SurvivorsAre(es, sw);
    forall x ensures sw.Keeps(x) <==> (if byUser then x.userId else x.id) !in names {
      if (if byUser then x.userId else x.id) in names {
        var i :| 0 <= i < |names| && names[i] == if byUser then x.userId else x.id;
        assert sw.Named(x, i);
      }
    }
  }

  /** An entry without a handle is not offered to the driver, and goes when it is named or all are flushed. */
  lemma NullHandlesGo(es: seq<Entry>, sw: Sweep, x: Entry)
    requires x in Survivors(es, sw) && x.handle == 0
    ensures sw.Batch? && forall i :: 0 <= i < |sw.names| ==> !sw.Named(x, i)
  {
    SurvivorsAre(es, sw);
  }

  /** Without a complaint no named entry survives. */
  lemma NoComplaintNoSurvivor(sw: Sweep, e: Entry, i: nat)
    requires sw.Batch? && i < |sw.names| && sw.Named(e, i) && !sw.Complains(e)
    ensures !sw.Keeps(e)
  {
    var f := FirstNamed(sw, e, i);
    assert sw.Tried(e, f);
  }

  /** None of the entries that a batch names is left. */
  ghost predicate NamedAreGone(es: seq<Entry>, sw: Sweep)
    requires sw.Batch?
  {
    forall e, i: nat :: e in Survivors(es, sw) && i < |sw.names| ==> !sw.Named(e, i)
  }

  /** A batch that returns zero leaves none of the entries that it names. */
  lemma ZeroMeansGone(es: seq<Entry>, sw: Sweep)
    requires sw.Batch? && Quiet(es, sw, |es|)
    ensures NamedAreGone(es, sw)
  {
    QuietMeans(es, sw, |es|);
    SurvivorsAre(es, sw);
    forall e, i: nat | e in Survivors(es, sw) && i < |sw.names| ensures !sw.Named(e, i) {
      if sw.Named(e, i) {
        NoComplaintNoSurvivor(sw, e, i);
      }
    }
  }

  lemma {:induction false} FirstNamed(sw: Sweep, e: Entry, i: nat) returns (f: nat)
    requires sw.Batch? && i < |sw.names| && sw.Named(e, i)
    ensures f <= i && sw.Named(e, f) && forall j :: 0 <= j < f ==> !sw.Named(e, j)
  {
    f := 0;
    while !sw.Named(e, f)
      invariant f <= i && forall j :: 0 <= j < f ==> !sw.Named(e, j)
      decreases i - f
    {
      f := f + 1;
    }
  }

  /** Two of the names fit the entry. */
  ghost predicate NamedTwice(names: seq<nat>, byUser: bool, e: Entry) {
    exists i, j :: 0 <= i < j < |names| && names[i] == names[j] == if byUser then e.userId else e.id
  }

  /** The result of a batch tells whether a named entry is left, whatever the driver answers. */
  ghost predicate ResultTells(es: seq<Entry>, names: seq<nat>, byUser: bool) {
    forall answer :: Quiet(es, Batch(names, byUser, answer), |es|) <==> NamedAreGone(es, Batch(names, byUser, answer))
  }

  /**
    * A zero result always means that no named entry is left. That a non-zero result means that one is
    * left holds, whatever the driver answers, exactly when no entry with a handle is named twice.
    */
  lemma ResultTellsIff(es: seq<Entry>, names: seq<nat>, byUser: bool)
    ensures ResultTells(es, names, byUser)
      <==> forall e :: e in es && e.handle != 0 ==> !NamedTwice(names, byUser, e)
  {
    if forall e :: e in es && e.handle != 0 ==> !NamedTwice(names, byUser, e) {
      forall answer
        ensures Quiet(es, Batch(names, byUser, answer), |es|) <==> NamedAreGone(es, Batch(names, byUser, answer))
      {
        GoneMeansZero(es, Batch(names, byUser, answer));
      }
    } else {
      var e :| e in es && e.handle != 0 && NamedTwice(names, byUser, e);
      var answer := ComplaintWithoutSurvivor(es, names, byUser, e);
    }
  }

  /** An entry named once that is refused stays, so without survivors there was no refusal. */
  lemma GoneMeansZero(es: seq<Entry>, sw: Sweep)
    requires sw.Batch?
    requires forall e :: e in es && e.handle != 0 ==> !NamedTwice(sw.names, sw.byUser, e)
    ensures Quiet(es, sw, |es|) <==> NamedAreGone(es, sw)
  {
    if Quiet(es, sw, |es|) {
      ZeroMeansGone(es, sw);
    } else {
      QuietMeans(es, sw, |es|);
      SurvivorsAre(es, sw);
      var k :| 0 <= k < |es| && sw.Complains(es[k]);
      var e := es[k];
      var i: nat :| i < |sw.names| && sw.Tried(e, i) && sw.Refused(e, i);
      forall j | 0 <= j < |sw.names| && sw.Named(e, j) ensures sw.Refused(e, j) {
        OnlyName(sw, e, i, j);
      }
      assert e in Survivors(es, sw);
    }
  }

  lemma OnlyName(sw: Sweep, e: Entry, i: nat, j: nat)
    requires sw.Batch? && !NamedTwice(sw.names, sw.byUser, e)
    requires i < |sw.names| && j < |sw.names| && sw.Named(e, i) && sw.Named(e, j)
    ensures i == j
  {
  }

  /** An entry named twice can be refused first and destroyed then, while all the others go at once. */
  lemma ComplaintWithoutSurvivor(es: seq<Entry>, names: seq<nat>, byUser: bool, e: Entry)
    returns (answer: (Entry, nat) -> int)
    requires e in es && e.handle != 0 && NamedTwice(names, byUser, e)
    ensures !Quiet(es, Batch(names, byUser, answer), |es|) && NamedAreGone(es, Batch(names, byUser, answer))
  {
    var i, j :| 0 <= i < j < |names| && names[i] == names[j] == if byUser then e.userId else e.id;
    var first := FirstNamed(Batch(names, byUser, (x, k) => 0), e, i);
    answer := (x: Entry, k: nat) => if x == e && k == first then -1 else 0;
    var sw := Batch(names, byUser, answer);
    assert forall k :: 0 <= k < |names| ==> (sw.Named(e, k) <==> Batch(names, byUser, (x, m) => 0).Named(e, k));
    QuietMeans(es, sw, |es|);
    SurvivorsAre(es, sw);
    assert sw.Tried(e, first) && sw.Refused(e, first);
    forall x, k: nat | x in Survivors(es, sw) && k < |names| ensures !sw.Named(x, k) {
      assert sw.Named(e, j) && !sw.Refused(e, j);
    }
  }

  // ----- runs of a template or table registry

  datatype Op =
    | Create(id: nat, memOk: bool, created: Entry -> nat)  // the handle the driver returns, 0 when it refuses
    | Destroy(sweep: Sweep)

  /** The list after a create: unchanged when the id, the memory or the driver fails. */
  function AfterCreate(es: seq<Entry>, id: nat, memOk: bool, created: Entry -> nat): seq<Entry> {
    if AllocStatus(es, id, memOk) != Ok then es
    else
      var e := NewEntry(ChosenId(es, id).value);
      if created(e) == 0 then es else Insert(es, e.(handle := created(e)))
  }

  ghost function Apply(es: seq<Entry>, op: Op): seq<Entry> {
    match op
    case Create(id, memOk, created) => AfterCreate(es, id, memOk, created)
    case Destroy(sweep) => Survivors(es, sweep)
  }

  /** The list after the first `n` operations. */
  ghost function ApplyAll(es: seq<Entry>, ops: seq<Op>, n: nat): seq<Entry>
    requires n <= |ops|
  {
    if n == 0 then es else Apply(ApplyAll(es, ops, n - 1), ops[n-1])
  }

  ghost predicate OpFits(op: Op) {
    op.Create? ==> op.id <= UINT32_MAX
  }

  lemma ApplyKeeps(es: seq<Entry>, op: Op)
    requires Descending(es) && IdsBelow(es, UINT32_MAX) && OpFits(op)
    ensures Descending(Apply(es, op)) && IdsBelow(Apply(es, op), UINT32_MAX)
  {
    match op
    case Create(id, memOk, created) =>
      var chosen := ChosenId(es, id);
      if chosen.Some? && !Taken(es, chosen.value) {
        if id == UINT32_MAX {
          AutoIdIsFree(es);
        }
        var e := NewEntry(chosen.value);
        InsertKeeps(es, e.(handle := created(e)));
        BelowByMembers(es, Insert(es, e.(handle := created(e))), e.(handle := created(e)));
      }
    case Destroy(sweep) =>
      SurvivorsAre(es, sweep);
      forall i | 0 <= i < |Survivors(es, sweep)| ensures Survivors(es, sweep)[i].id < UINT32_MAX {
        assert Survivors(es, sweep)[i] in es;
      }
  }

  /**
    * What a create adds: nothing when the id is taken, the memory is missing or the driver refuses,
    * else the one entry with the id that the caller asked for, or one above the highest, and the handle.
    */
  lemma CreateAdds(es: seq<Entry>, id: nat, memOk: bool, created: Entry -> nat)
    requires Descending(es) && IdsBelow(es, UINT32_MAX) && id <= UINT32_MAX
    ensures var now := AfterCreate(es, id, memOk, created);
            var given := if id < UINT32_MAX then id else if es == [] then 0 else es[0].id + 1;
            var blank := Entry(given, 0, 0, 0, 0, false);
            if given < UINT32_MAX && memOk && !Taken(es, given) && created(blank) != 0 then
              |now| == |es| + 1 && forall x :: x in now <==> x in es || x == blank.(handle := created(blank))
            else now == es
  {
    var given := if id < UINT32_MAX then id else if es == [] then 0 else es[0].id + 1;
    var e := NewEntry(given).(handle := created(NewEntry(given)));
    assert Insert(es, e) == es[..Position(es, given)] + [e] + es[Position(es, given)..];
    assert es == es[..Position(es, given)] + es[Position(es, given)..];
  }

  lemma BelowByMembers(es: seq<Entry>, r: seq<Entry>, e: Entry)
    requires IdsBelow(es, UINT32_MAX) && e.id < UINT32_MAX
    requires forall x :: x in r ==> x in es || x == e
    ensures IdsBelow(r, UINT32_MAX)
  {
    forall i | 0 <= i < |r| ensures r[i].id < UINT32_MAX {
      assert r[i] in r;
    }
  }

  /** Every run keeps the registry strictly descending, so ids are unique, and below the reserved id. */
  lemma {:induction false} RunKeeps(es: seq<Entry>, ops: seq<Op>, n: nat)
    requires n <= |ops| && forall i :: 0 <= i < |ops| ==> OpFits(ops[i])
    requires Descending(es) && IdsBelow(es, UINT32_MAX)
    ensures Descending(ApplyAll(es, ops, n)) && IdsBelow(ApplyAll(es, ops, n), UINT32_MAX)
  {
    if n > 0 {
      RunKeeps(es, ops, n - 1);
      ApplyKeeps(ApplyAll(es, ops, n - 1), ops[n-1]);
    }
  }
}
