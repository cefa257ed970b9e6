/** Parsing of comma-separated lists of 32-bit numbers (`parse_item_list`). */
module ItemList {
  import opened Arith
  import opened Distinctness
  import opened DecimalText

  const MAX_TEXT := 128

  /** What has been read: the closed items and the one being read. */
  datatype State = Bad | State(items: seq<nat>, value: nat, valueOk: bool)

  /** The value of an unsigned 32-bit variable. */
  function Wrap(x: nat): nat { x % TWO_32 }

  function Feed(st: State, c: char): State {
    if st.Bad? then Bad
    else if IsDigit(c) then State(st.items, Wrap(st.value * 10 + DigitOf(c)), true)
    else if c != ',' || !st.valueOk then Bad
    else State(st.items + [st.value], 0, false)
  }

  function Read(t: string): State {
    if t == "" then State([], 0, false) else Feed(Read(t[..|t|-1]), t[|t|-1])
  }

  /** The accepted values, none when the text is refused. */
  function Result(str: string, maxItems: nat, unique: bool): seq<nat> {
    var st := Read(str[..Min(|str|, MAX_TEXT)]);
    if st.Bad? then [] else Accepted(st.items + [st.value], maxItems, unique)
  }

  /** The values, unless there are too many or some repeat that must not. */
  function Accepted(values: seq<nat>, maxItems: nat, unique: bool): seq<nat> {
    if |values| > maxItems || (unique && !Distinct(values)) then [] else values
  }

  lemma {:induction false} ReadGrows(t: string, i: nat)
    requires i <= |t|
    ensures Read(t[..i]).Bad? ==> Read(t).Bad?
    ensures Read(t).State? ==> |Read(t[..i]).items| <= |Read(t).items|
  {
    if i == |t| {
      assert t[..i] == t;
    } else {
      ReadGrows(t[..|t|-1], i);
      assert t[..|t|-1][..i] == t[..i];
    }
  }

  /** The first part of `parse_item_list`: store the items as the commas close them. */
  method ReadItems(t: string, maxItems: nat, parsed: array<nat>) returns (ok: bool, nbItem: nat, value: nat)
    requires parsed.Length >= maxItems
    modifies parsed
    ensures ok <==> Read(t).State? && |Read(t).items| < maxItems
    ensures ok ==> nbItem == |Read(t).items| && parsed[..nbItem] == Read(t).items && value == Read(t).value
  {
    var valueOk := false;
    ok, nbItem, value := false, 0, 0;
    for i := 0 to |t|
      invariant nbItem <= maxItems ==> Read(t[..i]) == State(parsed[..nbItem], value, valueOk)
      invariant nbItem > maxItems ==> Read(t[..i]).Bad? || |Read(t[..i]).items| > maxItems
    {
      var c := t[i];
      ReadNext(t, i);
      if IsDigit(c) {
        value := Wrap(value * 10 + DigitOf(c));
        valueOk := true;
        continue;
      }
      if c != ',' || !valueOk {
        return;
      }
      if nbItem < maxItems {
        ghost var was := parsed[..nbItem];
        parsed[nbItem] := value;
        assert parsed[..nbItem+1] == was + [value];
        valueOk := false;
        value := 0;
      }
      nbItem := nbItem + 1;
    }
    assert t[..|t|] == t;
    ok := nbItem < maxItems;
  }

  lemma ReadNext(t: string, i: nat)
    requires i < |t|
    ensures Read(t[..i+1]) == Feed(Read(t[..i]), t[i])
    ensures Read(t[..i+1]).Bad? ==> Read(t).Bad?
    ensures Read(t).State? && Read(t[..i]).State? ==> |Read(t[..i]).items| <= |Read(t).items|
  {
    ReadGrows(t, i);
    ReadGrows(t, i + 1);
    assert t[..i+1][..i] == t[..i];
  }

  method AllDifferent(a: array<nat>, n: nat) returns (different: bool)
    requires n <= a.Length
    ensures different <==> Distinct(a[..n])
  {
    for i := 0 to n
      invariant forall k, l :: 0 <= k < i && k < l < n ==> a[k] != a[l]
    {
      for j := i + 1 to n
        invariant forall l :: i < l < j ==> a[i] != a[l]
      {
        if a[j] == a[i] {
          assert a[..n][i] == a[..n][j];
          return false;
        }
      }
    }
    return true;
  }

  /** `parse_item_list`: the number of values stored, 0 when the text is refused. */
  method ParseItemList(str: string, maxItems: nat, parsed: array<nat>, unique: bool) returns (nbItem: nat)
    requires parsed.Length >= maxItems
    modifies parsed
    ensures nbItem == |Result(str, maxItems, unique)| <= maxItems
    ensures parsed[..nbItem] == Result(str, maxItems, unique)
  {
    var ok, n, value := ReadItems(str[..Min(|str|, MAX_TEXT)], maxItems, parsed);
    if !ok {
      return 0;
    }
    ghost var was := parsed[..n];
    parsed[n] := value;
    nbItem := n + 1;
    assert parsed[..nbItem] == was + [value];
    if unique {
      var different := AllDifferent(parsed, nbItem);
      if !different {
        return 0;
      }
    }
  }

  // ----- which texts are accepted

  predicate CharFits(t: string, i: nat)
    requires i < |t|
  {
    IsDigit(t[i]) || (t[i] == ',' && i > 0 && IsDigit(t[i-1]))
  }

  /** Only digits and commas, and a digit before every comma. */
  predicate WellFormed(t: string) {
    forall i :: 0 <= i < |t| ==> CharFits(t, i)
  }

  function Commas(t: string): nat {
    if t == "" then 0 else Commas(t[..|t|-1]) + if t[|t|-1] == ',' then 1 else 0
  }

  lemma {:induction false} ReadAccepts(t: string)
    ensures Read(t).State? <==> WellFormed(t)
    ensures Read(t).State? ==> |Read(t).items| == Commas(t) && (Read(t).valueOk <==> t != "" && IsDigit(t[|t|-1]))
  {
    if t != "" {
      var n := |t| - 1;
      ReadAccepts(t[..n]);
      WellFormedStep(t);
    }
  }

  lemma WellFormedStep(t: string)
    requires t != ""
    ensures WellFormed(t) <==> WellFormed(t[..|t|-1]) && CharFits(t, |t| - 1)
  {
    var n := |t| - 1;
    forall i | 0 <= i < n ensures CharFits(t, i) <==> CharFits(t[..n], i) {
    }
  }

  // ----- the round trip

  /** The values as text, separated by commas. */
  function ListText(values: seq<nat>): string
    requires values != []
  {
    var n := |values| - 1;
    if n == 0 then Print(values[0]) else ListText(values[..n]) + "," + Print(values[n])
  }

  lemma {:induction false} ReadDigits(t: string, d: string)
    requires Read(t).State? && Read(t).value == 0 && AllDigits(d)
    ensures Read(t + d) == State(Read(t).items, Wrap(Value(d)), if d == "" then Read(t).valueOk else true)
  {
    if d == "" {
      assert t + d == t;
    } else {
      var n := |d| - 1;
      ReadDigits(t, d[..n]);
      assert (t + d)[..|t + d| - 1] == t + d[..n];
      var v, x := Value(d[..n]), DigitOf(d[n]);
      ModStep(v, x);
    }
  }

  lemma ModStep(v: nat, x: nat)
    ensures Wrap(Wrap(v) * 10 + x) == Wrap(10 * v + x)
  {
    var q := v / TWO_32;
    assert 10 * v + x == (v % TWO_32 * 10 + x) + (10 * q) * TWO_32;
    var y := v % TWO_32 * 10 + x;
    DivModUnique(10 * v + x, TWO_32, y / TWO_32 + 10 * q, y % TWO_32);
  }

  lemma ReadValue(t: string, d: string, v: nat)
    requires Read(t).State? && Read(t).value == 0
    requires AllDigits(d) && d != "" && Value(d) == v < TWO_32
    ensures Read(t + d) == State(Read(t).items, v, true)
  {
    ReadDigits(t, d);
    assert Wrap(v) == v;
  }

  lemma ReadNumber(t: string, v: nat)
    requires Read(t).State? && Read(t).value == 0 && v < TWO_32
    ensures Read(t + Print(v)) == State(Read(t).items, v, true)
  {
    ValueOfPrint(v);
    ReadValue(t, Print(v), v);
  }

  /** Too small a value is never taken for the right one, except for 0. */
  lemma ReadLess(t: string, d: string, v: nat)
    requires Read(t).State? && Read(t).value == 0
    requires AllDigits(d) && Value(d) <= v / 10 && v < TWO_32
    ensures Read(t + d).State? && Read(t + d).items == Read(t).items
    ensures Read(t + d).value == v <==> v == 0
  {
    ReadDigits(t, d);
    TenthBelow(Value(d), v);
    assert Wrap(Value(d)) == Value(d);
  }

  lemma TenthBelow(x: nat, v: nat)
    requires x <= v / 10 && v < TWO_32
    ensures x < TWO_32 && (x == v <==> v == 0)
  {
  }

  /** Of a number cut to `j` digits something else is read, unless a 0 was cut off altogether. */
  lemma ReadCut(t: string, v: nat, j: nat)
    requires Read(t).State? && Read(t).value == 0 && v < TWO_32 && j < |Print(v)|
    ensures Read(t + Print(v)[..j]).State? && Read(t + Print(v)[..j]).items == Read(t).items
    ensures Read(t + Print(v)[..j]).value == v <==> v == 0
  {
    CutPrint(v, j);
    ReadLess(t, Print(v)[..j], v);
  }

  lemma {:induction false} ReadList(values: seq<nat>)
    requires values != [] && forall i :: 0 <= i < |values| ==> values[i] < TWO_32
    ensures Read(ListText(values)) == State(values[..|values|-1], values[|values|-1], true)
    decreases |values|, 1
  {
    var n := |values| - 1;
    if n == 0 {
      ReadNumber("", values[0]);
      assert "" + Print(values[0]) == ListText(values);
    } else {
      ReadHead(values);
      ReadNumber(ListText(values[..n]) + ",", values[n]);
    }
  }

  lemma {:induction false} ReadHead(values: seq<nat>)
    requires |values| > 1 && forall i :: 0 <= i < |values| ==> values[i] < TWO_32
    ensures Read(ListText(values[..|values|-1]) + ",") == State(values[..|values|-1], 0, false)
    decreases |values|, 0
  {
    var init := values[..|values|-1];
    ReadList(init);
    var head := ListText(init) + ",";
    assert head[..|head|-1] == ListText(init);
    assert init[..|init|-1] + [init[|init|-1]] == init;
  }

  function Joined(fields: seq<string>): string
    requires fields != []
  {
    var n := |fields| - 1;
    if n == 0 then fields[0] else Joined(fields[..n]) + "," + fields[n]
  }

  /**
    * What an accepted text says: each field between commas is its decimal value modulo 2 to the power
    * of 32. Only the last field may be empty, and counts as 0.
    */
  lemma {:induction false} ReadFields(fields: seq<string>)
    requires fields != [] && forall i :: 0 <= i < |fields| ==> AllDigits(fields[i])
    requires forall i :: 0 <= i < |fields| - 1 ==> fields[i] != ""
    ensures var st, n := Read(Joined(fields)), |fields| - 1;
            && st.State? && |st.items| == n && (st.valueOk <==> fields[n] != "")
            && st.value == Value(fields[n]) % TWO_32
            && forall i :: 0 <= i < n ==> st.items[i] == Value(fields[i]) % TWO_32
  {
    var n := |fields| - 1;
    if n == 0 {
      ReadDigits("", fields[0]);
      assert "" + fields[0] == fields[0];
    } else {
      ReadFields(fields[..n]);
      var head := Joined(fields[..n]) + ",";
      assert head[..|head|-1] == Joined(fields[..n]);
      ReadDigits(head, fields[n]);
    }
  }

  /** Values that fit are read back, as long as there is room for them and they differ where they must. */
  lemma RoundTrip(values: seq<nat>, maxItems: nat, unique: bool)
    requires values != [] && forall i :: 0 <= i < |values| ==> values[i] < TWO_32
    requires |ListText(values)| <= MAX_TEXT
    ensures Result(ListText(values), maxItems, unique) ==
      if |values| <= maxItems && (unique ==> Distinct(values)) then values else []
  {
    ReadList(values);
    ResultOf(ListText(values), values, maxItems, unique);
  }

  lemma ResultOf(t: string, values: seq<nat>, maxItems: nat, unique: bool)
    requires values != [] && |t| <= MAX_TEXT
    requires Read(t) == State(values[..|values|-1], values[|values|-1], true)
    ensures Result(t, maxItems, unique) == Accepted(values, maxItems, unique)
  {
    assert t[..Min(|t|, MAX_TEXT)] == t;
    assert values[..|values|-1] + [values[|values|-1]] == values;
  }

  /** The text fits, or only the digit of a final 0 is cut off. */
  ghost predicate CutIsHarmless(values: seq<nat>)
    requires values != []
  {
    || |ListText(values)| <= MAX_TEXT
    || (|values| > 1 && |ListText(values)| == MAX_TEXT + 1 && values[|values|-1] == 0)
  }

  /**
    * Beyond 128 characters the text is cut without notice. A list is read back exactly when there is
    * room for it, its values differ where they must, and the cut is harmless.
    */
  lemma RoundTripIff(values: seq<nat>, maxItems: nat, unique: bool)
    requires values != [] && forall i :: 0 <= i < |values| ==> values[i] < TWO_32
    ensures Result(ListText(values), maxItems, unique) == values <==>
      |values| <= maxItems && (unique ==> Distinct(values)) && CutIsHarmless(values)
  {
    CutReadsIff(values);
  }

  lemma CutReadsIff(values: seq<nat>)
    requires values != [] && forall i :: 0 <= i < |values| ==> values[i] < TWO_32
    ensures var st := Read(ListText(values)[..Min(|ListText(values)|, MAX_TEXT)]);
            st.State? && st.items + [st.value] == values <==> CutIsHarmless(values)
  {
    var t, n := ListText(values), |values| - 1;
    if |t| <= MAX_TEXT {
      assert t[..|t|] == t;
      ReadList(values);
      assert values[..n] + [values[n]] == values;
    } else if n == 0 {
      PrintIsShort(values[0]);
    } else if MAX_TEXT <= |ListText(values[..n])| {
      ShortCut(values, MAX_TEXT);
    } else {
      PrintZero();
      CutLast(values, MAX_TEXT - |ListText(values[..n])| - 1);
    }
  }

  /** A cut that leaves `j` digits of the last item. */
  lemma CutLast(values: seq<nat>, j: nat)
    requires |values| > 1 && forall i :: 0 <= i < |values| ==> values[i] < TWO_32
    requires j < |Print(values[|values|-1])|
    ensures var cut := ListText(values)[..|ListText(values[..|values|-1])| + 1 + j];
            && Read(cut).State?
            && Read(cut).items == values[..|values|-1]
            && (Read(cut).items + [Read(cut).value] == values <==> values[|values|-1] == 0)
  {
    var n := |values| - 1;
    var head, last := ListText(values[..n]) + ",", Print(values[n]);
    var cut := head + last[..j];
    CutText(head, last, j);
    ReadHead(values);
    ReadCut(head, values[n], j);
    ReadBack(values, cut, Read(cut).value);
  }

  lemma CutText(head: string, last: string, j: nat)
    requires j <= |last|
    ensures (head + last)[..|head| + j] == head + last[..j]
  {
  }

  lemma PrintZero()
    ensures |Print(0)| == 1
  {
  }

  lemma ReadBack(values: seq<nat>, cut: string, v: nat)
    requires values != [] && Read(cut).State? && Read(cut).items == values[..|values|-1] && Read(cut).value == v
    ensures Read(cut).items + [Read(cut).value] == values <==> v == values[|values|-1]
  {
    assert values[..|values|-1] + [values[|values|-1]] == values;
  }

  /** A cut inside the earlier items loses at least one item. */
  lemma ShortCut(values: seq<nat>, m: nat)
    requires |values| > 1 && forall i :: 0 <= i < |values| ==> values[i] < TWO_32
    requires m <= |ListText(values[..|values|-1])|
    ensures Read(ListText(values)[..m]).State? ==> |Read(ListText(values)[..m]).items| + 1 < |values|
  {
    var init := ListText(values[..|values|-1]);
    ReadList(values[..|values|-1]);
    assert ListText(values)[..m] == init[..m];
    ReadGrows(init, m);
  }
}
