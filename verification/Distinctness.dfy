/** Sequences without repetition, used for port ids, queue values and multicast addresses. */
module Distinctness {

  predicate Distinct<T(==)>(s: seq<T>) {
    forall i, j :: 0 <= i < j < |s| ==> s[i] != s[j]
  }

  function Elems<T(==)>(s: seq<T>): set<T> {
    set x | x in s
  }

  /** A repetition-free sequence is as long as its set of elements. */
  lemma {:induction false} DistinctCard<T>(s: seq<T>)
    requires Distinct(s)
    ensures |Elems(s)| == |s|
  {
    if s != [] {
      var n := |s| - 1;
      DistinctCard(s[..n]);
      assert Elems(s) == Elems(s[..n]) + {s[n]};
      assert s[n] !in Elems(s[..n]);
    }
  }

  /** Pigeonhole: no more different values than there are places for them. */
  lemma {:induction false} Pigeonhole<T>(s: seq<T>, t: seq<T>)
    requires Distinct(s)
    requires forall x :: x in s ==> x in t
    ensures |s| <= |t|
  {
    DistinctCard(s);
    CardAtMostLength(t);
    CardMonotone(Elems(s), Elems(t));
  }

  lemma {:induction false} CardMonotone<T>(a: set<T>, b: set<T>)
    requires a <= b
    ensures |a| <= |b|
  {
    assert b == a + (b - a);
  }

  lemma {:induction false} CardAtMostLength<T>(t: seq<T>)
    ensures |Elems(t)| <= |t|
  {
    if t == [] {
      assert Elems(t) == {};
    } else {
      CardAtMostLength(t[1..]);
      assert Elems(t) == {t[0]} + Elems(t[1..]);
    }
  }

  /** Different naturals below a bound are at most that many. */
  lemma {:induction false} DistinctBelow(s: seq<nat>, bound: nat)
    requires Distinct(s)
    requires forall x :: x in s ==> x < bound
    ensures |s| <= bound
  {
    var all := seq(bound, i => i);
    forall x | x in s ensures x in all {
      assert all[x] == x;
    }
    Pigeonhole<int>(s, all);
  }

  /** The elements that belong to `wanted`, in order. */
  function Keep(s: seq<nat>, wanted: set<nat>): (r: seq<nat>)
    ensures |r| <= |s|
  {
    if s == [] then []
    else
      var r := Keep(s[..|s|-1], wanted);
      if s[|s|-1] in wanted then r + [s[|s|-1]] else r
  }

  lemma {:induction false} KeepKeeps(s: seq<nat>, wanted: set<nat>)
    ensures forall x :: x in Keep(s, wanted) <==> x in s && x in wanted
    ensures Distinct(s) ==> Distinct(Keep(s, wanted))
  {
    if s != [] {
      var n := |s| - 1;
      KeepKeeps(s[..n], wanted);
      assert s == s[..n] + [s[n]];
    }
  }

  /** What is kept stays in order. */
  lemma {:induction false} KeepInOrder(s: seq<nat>, wanted: set<nat>, i: nat, j: nat)
    requires i < j < |s| && s[i] in wanted && s[j] in wanted
    ensures exists a, b :: 0 <= a < b < |Keep(s, wanted)| && Keep(s, wanted)[a] == s[i] && Keep(s, wanted)[b] == s[j]
  {
    KeepAt(s, wanted, i);
    KeepAt(s, wanted, j);
    KeepAt(s[..j], wanted, i);
    assert s[..j][..i] == s[..i] && s[..j][i] == s[i];
    var a, b := |Keep(s[..i], wanted)|, |Keep(s[..j], wanted)|;
    assert 0 <= a < b < |Keep(s, wanted)| && Keep(s, wanted)[a] == s[i] && Keep(s, wanted)[b] == s[j];
  }

  lemma {:induction false} KeepAt(s: seq<nat>, wanted: set<nat>, i: nat)
    requires i < |s| && s[i] in wanted
    ensures |Keep(s[..i], wanted)| < |Keep(s, wanted)|
    ensures Keep(s, wanted)[|Keep(s[..i], wanted)|] == s[i]
  {
    var n := |s| - 1;
    if i < n {
      KeepAt(s[..n], wanted, i);
      assert s[..n][..i] == s[..i];
    }
  }

  /** Moves the wanted elements of an array to its front, in place. */
  method Compact(a: array<nat>, total: nat, wanted: set<nat>) returns (kept: nat)
    requires total <= a.Length
    modifies a
    ensures kept <= total && a[..kept] == Keep(old(a[..total]), wanted)
    ensures forall i :: total <= i < a.Length ==> a[i] == old(a[i])
  {
    kept := 0;
    ghost var was := a[..total];
    for i := 0 to total
      invariant kept <= i
      invariant a[..kept] == Keep(was[..i], wanted)
      invariant forall j :: i <= j < a.Length ==> a[j] == old(a[j])
    {
      assert was[..i+1][..i] == was[..i];
      if a[i] in wanted {
        a[kept] := a[i];
        kept := kept + 1;
      }
    }
    assert was[..total] == was;
  }
}
