/** Parsing of forwarding port lists such as `1-3,5`. */
module PortList {
  import opened Common
  import opened Arith
  import opened Distinctness
  import opened PortIds
  import opened DecimalText

  const INT_MAX := 0x7FFF_FFFF
  const LONG_MAX := 0x7FFF_FFFF_FFFF_FFFF

  // ----- the C library calls

  predicate IsBlank(c: char) { c == ' ' || c == '\t' }

  predicate IsSpace(c: char) { c == ' ' || '\t' <= c <= '\r' }

  /** The text after its leading blanks. */
  function DropBlanks(t: string): (r: string)
    ensures |r| <= |t|
    ensures r != "" ==> !IsBlank(r[0])
  {
    if t == "" || !IsBlank(t[0]) then t else DropBlanks(t[1..])
  }

  function Spaces(t: string): (n: nat)
    ensures n <= |t|
  {
    if t == "" || !IsSpace(t[0]) then 0 else 1 + Spaces(t[1..])
  }

  function Digits(t: string): (n: nat)
    ensures n <= |t|
  {
    if t == "" || !IsDigit(t[0]) then 0 else 1 + Digits(t[1..])
  }

  datatype Tol = Tol(value: int, used: nat, outOfRange: bool)

  predicate HasSign(t: string) { t != "" && (t[0] == '-' || t[0] == '+') }

  /** The digits after a sign, if there is one: value and length, which is 0 without digits. */
  function SignedDigits(t: string): (r: (int, nat))
    ensures r.1 <= |t|
  {
    if !HasSign(t) then (Value(t[..Digits(t)]) as int, Digits(t))
    else
      var n := Digits(t[1..]);
      var v := Value(t[1..][..n]);
      if n == 0 then (0, 0) else (if t[0] == '-' then 0 - v else v, n + 1)
  }

  /** `strtol` in base 10: no digits means value 0 and nothing used. */
  function StrTol(t: string): (r: Tol)
    ensures r.used <= |t|
  {
    var sp := Spaces(t);
    var (x, n) := SignedDigits(t[sp..]);
    if n == 0 then Tol(0, 0, false) else Tol(x, sp + n, x > LONG_MAX || x < -LONG_MAX - 1)
  }

  /** A `long` assigned to an `int`. */
  function ToInt(x: int): int {
    (x + TWO_31) % TWO_32 - TWO_31
  }

  /** The value is kept when it fits, and otherwise cut modulo 2 to the power of 32. */
  lemma ToIntIs(x: int)
    ensures -TWO_31 <= ToInt(x) < TWO_31 && (x - ToInt(x)) % TWO_32 == 0
    ensures -TWO_31 <= x < TWO_31 ==> ToInt(x) == x
  {
  }

  // ----- what the parser computes

  /** Adds `lo`, ..., `hi` in order, skipping what is there already. */
  function AddRange(acc: seq<nat>, lo: nat, hi: nat): seq<nat>
    decreases hi + 1 - lo
  {
    if lo > hi then acc
    else AddRange(if lo in acc then acc else acc + [lo], lo + 1, hi)
  }

  /** One number and the blanks around it: its value and the text that follows. */
  datatype Token = End | Bad | Number(value: nat, rest: string)

  function NextNumber(t: string, maxsize: nat): (tok: Token)
    ensures tok.Number? ==> tok.value < maxsize && |tok.rest| <= |t|
  {
    NumberAt(DropBlanks(t), maxsize)
  }

  function NumberAt(t: string, maxsize: nat): (tok: Token)
    ensures tok.Number? ==> tok.value < maxsize && |tok.rest| <= |t|
  {
    if t == "" then End
    else
      var tol := StrTol(t);
      var v := ToInt(tol.value);
      if tol.outOfRange || v < 0 || v >= maxsize then Bad
      else Number(v, DropBlanks(t[tol.used..]))
  }

  /** The ids read from the rest of the text; `min` is the pending start of a range, if any. */
  function Scan(t: string, min: Option<nat>, acc: seq<nat>, maxsize: nat): Option<seq<nat>>
    decreases |t|
  {
    match NextNumber(t, maxsize)
    case End => Some(acc)
    case Bad => None
    case Number(v, rest) =>
      if rest != "" && rest[0] == '-' && min.None? then Scan(rest[1..], Some(v), acc, maxsize)
      else if rest == "" || rest[0] == ',' then
        var acc' := AddRange(acc, if min.None? then v else min.value, v);
        if rest == "" then Some(acc') else Scan(rest[1..], None, acc', maxsize)
      else None
  }

  ghost predicate IdsBelow(ids: seq<nat>, maxsize: nat) {
    Distinct(ids) && forall x :: x in ids ==> x < maxsize
  }

  lemma {:induction false} AddRangeKeeps(acc: seq<nat>, lo: nat, hi: nat, maxsize: nat)
    requires IdsBelow(acc, maxsize) && hi < maxsize
    ensures IdsBelow(AddRange(acc, lo, hi), maxsize)
    decreases hi + 1 - lo
  {
    if lo <= hi {
      AddRangeKeeps(if lo in acc then acc else acc + [lo], lo + 1, hi, maxsize);
    }
  }

  /** Whatever the text, the ids are different and below the limit. */
  lemma {:induction false} ScanKeeps(t: string, min: Option<nat>, acc: seq<nat>, maxsize: nat)
    requires IdsBelow(acc, maxsize)
    ensures Scan(t, min, acc, maxsize).Some? ==> IdsBelow(Scan(t, min, acc, maxsize).value, maxsize)
    decreases |t|
  {
    match NextNumber(t, maxsize)
    case End =>
    case Bad =>
    case Number(v, rest) =>
      if rest != "" && rest[0] == '-' && min.None? {
        ScanKeeps(rest[1..], Some(v), acc, maxsize);
      } else if rest == "" || rest[0] == ',' {
        var lo := if min.None? then v else min.value;
        AddRangeKeeps(acc, lo, v, maxsize);
        if rest != "" {
          ScanKeeps(rest[1..], None, AddRange(acc, lo, v), maxsize);
        }
      }
  }

  // ----- the parser

  /** Marks and stores a range; the capacity test never discards an id that was not there yet. */
  method StoreRange(values: array<nat>, marked: array<bool>, count0: nat, min: nat, max: nat, maxsize: nat)
    returns (count: nat)
    requires values.Length >= maxsize && marked.Length == maxsize
    requires count0 <= maxsize && max < maxsize
    requires IdsBelow(values[..count0], maxsize)
    requires forall x :: 0 <= x < maxsize ==> (marked[x] <==> x in values[..count0])
    modifies values, marked
    ensures count <= maxsize && values[..count] == AddRange(old(values[..count0]), min, max)
    ensures IdsBelow(values[..count], maxsize)
    ensures forall x :: 0 <= x < maxsize ==> (marked[x] <==> x in values[..count])
  {
    count := count0;
    var i := min;
    while i <= max
      invariant count <= maxsize
      invariant IdsBelow(values[..count], maxsize)
      invariant forall x :: 0 <= x < maxsize ==> (marked[x] <==> x in values[..count])
      invariant AddRange(values[..count], i, max) == AddRange(old(values[..count0]), min, max)
    {
      if count < maxsize {
        if !marked[i] {
          ghost var was := values[..count];
          values[count] := i;
          marked[i] := true;
          count := count + 1;
          assert values[..count] == was + [i];
        }
      } else {
        FullHasAll(values[..count], maxsize, i);
      }
      i := i + 1;
    }
  }

  lemma FullHasAll(ids: seq<nat>, maxsize: nat, x: nat)
    requires IdsBelow(ids, maxsize) && |ids| >= maxsize && x < maxsize
    ensures x in ids
  {
    if x !in ids {
      DistinctBelow(ids + [x], maxsize);
    }
  }

  /** `parse_port_list`: the number of ids stored, 0 when the text is refused. */
  method ParsePortList(list: string, values: array<nat>, maxsize: nat) returns (count: nat)
    requires values.Length >= maxsize && maxsize < INT_MAX
    modifies values
    ensures match Scan(list, None, [], maxsize)
            case None => count == 0
            case Some(ids) => count == |ids| && count <= maxsize && values[..count] == ids
    ensures count <= maxsize && IdsBelow(values[..count], maxsize)
  {
    count := 0;
    var marked := new bool[maxsize](_ => false);
    var rest := list;
    var min := INT_MAX;
    ghost var result := Scan(list, None, [], maxsize);
    while true
      invariant count <= maxsize
      invariant IdsBelow(values[..count], maxsize)
      invariant forall x :: 0 <= x < maxsize ==> (marked[x] <==> x in values[..count])
      invariant min == INT_MAX || 0 <= min < maxsize
      invariant Scan(rest, if min == INT_MAX then None else Some(min), values[..count], maxsize) == result
      decreases |rest|
    {
      var text := DropBlanks(rest);
      if text == "" {
        return count;
      }
      var tol := StrTol(text);
      var value := ToInt(tol.value);
      if tol.outOfRange || value < 0 || value >= maxsize {
        return 0;
      }
      var end := DropBlanks(text[tol.used..]);
      if end != "" && end[0] == '-' && min == INT_MAX {
        min := value;
      } else if end == "" || end[0] == ',' {
        if min == INT_MAX {
          min := value;
        }
        count := StoreRange(values, marked, count, min, value, maxsize);
        min := INT_MAX;
        if end == "" {
          return count;
        }
      } else {
        return 0;
      }
      rest := end[1..];
    }
  }

  // ----- the accepted texts

  predicate AllBlank(t: string) { forall i :: 0 <= i < |t| ==> IsBlank(t[i]) }

  predicate AllSpace(t: string) { forall i :: 0 <= i < |t| ==> IsSpace(t[i]) }

  /** A number as `strtol` takes it, with blanks after it, or the blanks in the place of a missing one. */
  datatype Num = Num(before: string, sign: string, digits: string, after: string) {
    function Text(): string { before + (sign + (digits + after)) }

    predicate Missing() { digits == "" }

    function Signed(): int { WithSign(sign, digits) }

    /** The port id, cut from a `long` to an `int`; a missing number counts as 0. */
    function Id(): int { ToInt(Signed()) }

    predicate Accepted(maxsize: nat) {
      && AllDigits(digits) && AllBlank(after)
      && (if Missing() then AllBlank(before) && sign == "" && after == "" else AllSpace(before))
      && IsSign(sign)
      && -LONG_MAX - 1 <= Signed() <= LONG_MAX
      && 0 <= Id() < maxsize
    }

    /** Digits below the limit with blanks around them, as the documentation has it. */
    predicate Plain(maxsize: nat) {
      && AllBlank(before) && AllBlank(after) && sign == ""
      && !Missing() && AllDigits(digits)
      && Value(digits) < maxsize
    }
  }

  /** One id or a range of ids. */
  datatype Item = One(n: Num) | Range(lo: Num, hi: Num) {
    function Text(): string { if One? then n.Text() else lo.Text() + "-" + hi.Text() }

    function FirstNum(): Num { if One? then n else lo }

    function LastNum(): Num { if One? then n else hi }

    /** A missing start must not turn the dash into a sign. */
    predicate Accepted(maxsize: nat) {
      && FirstNum().Accepted(maxsize) && LastNum().Accepted(maxsize)
      && (Range? && lo.Missing() ==> NoDigitFirst(hi.Text()))
    }

    predicate Plain(maxsize: nat) { FirstNum().Plain(maxsize) && LastNum().Plain(maxsize) }

    /** The ids are the numbers that the digits write. */
    predicate Reads() { First() == Value(FirstNum().digits) && Last() == Value(LastNum().digits) }

    function First(): nat { if FirstNum().Id() < 0 then 0 else FirstNum().Id() }

    function Last(): nat { if LastNum().Id() < 0 then 0 else LastNum().Id() }
  }

  predicate NoDigitFirst(t: string) { t == "" || !IsDigit(t[0]) }

  /** The end of a list: an item, nothing, or a range without an end, which is dropped. */
  datatype Ending = Whole(item: Item) | Nothing(blanks: string) | Open(lo: Num, blanks: string) {
    function Text(): string {
      match this
      case Whole(item) => item.Text()
      case Nothing(blanks) => blanks
      case Open(lo, blanks) => lo.Text() + "-" + blanks
    }

    predicate Accepted(maxsize: nat) {
      match this
      case Whole(item) => item.Accepted(maxsize) && !item.LastNum().Missing()
      case Nothing(blanks) => AllBlank(blanks)
      case Open(lo, blanks) => lo.Accepted(maxsize) && AllBlank(blanks)
    }

    function Items(): seq<Item> { if Whole? then [item] else [] }
  }

  /** Items followed by commas, and the end. */
  function ListText(items: seq<Item>, ending: Ending): string {
    if items == [] then ending.Text() else items[0].Text() + ("," + ListText(items[1..], ending))
  }

  ghost function Between(lo: nat, hi: nat): seq<nat>
    decreases hi + 1 - lo
  {
    if lo > hi then [] else [lo] + Between(lo + 1, hi)
  }

  /** Everything the list names, in order, with repetitions. */
  ghost function Expand(items: seq<Item>): seq<nat> {
    if items == [] then [] else Between(items[0].First(), items[0].Last()) + Expand(items[1..])
  }

  /** Keeps the first appearance of each value. */
  ghost function FirstAppearances(xs: seq<nat>): seq<nat> {
    if xs == [] then []
    else
      var init, last := xs[..|xs|-1], xs[|xs|-1];
      if last in init then FirstAppearances(init) else FirstAppearances(init) + [last]
  }

  lemma {:induction false} FirstAppearancesElems(xs: seq<nat>)
    ensures forall x :: x in FirstAppearances(xs) <==> x in xs
  {
    if xs != [] {
      var n := |xs| - 1;
      FirstAppearancesElems(xs[..n]);
      assert xs == xs[..n] + [xs[n]];
    }
  }

  lemma {:induction false} AddRangeIsFirstAppearances(xs: seq<nat>, lo: nat, hi: nat)
    ensures AddRange(FirstAppearances(xs), lo, hi) == FirstAppearances(xs + Between(lo, hi))
    decreases hi + 1 - lo
  {
    if lo > hi {
      assert xs + [] == xs;
    } else {
      FirstAppearancesElems(xs);
      OneMoreAppearance(xs, lo);
      AddRangeIsFirstAppearances(xs + [lo], lo + 1, hi);
      BetweenAfter(xs, lo, hi);
    }
  }

  lemma OneMoreAppearance(xs: seq<nat>, x: nat)
    ensures FirstAppearances(xs + [x]) == if x in xs then FirstAppearances(xs) else FirstAppearances(xs) + [x]
  {
    assert (xs + [x])[..|xs|] == xs;
  }

  lemma BetweenAfter(xs: seq<nat>, lo: nat, hi: nat)
    requires lo <= hi
    ensures (xs + [lo]) + Between(lo + 1, hi) == xs + Between(lo, hi)
  {
  }

  // ----- reading a number

  lemma {:induction false} AfterBlanks(b: string, rest: string)
    requires AllBlank(b) && (rest == "" || !IsBlank(rest[0]))
    ensures DropBlanks(b + rest) == rest
  {
    if b == "" {
      assert b + rest == rest;
    } else {
      assert (b + rest)[1..] == b[1..] + rest;
      AfterBlanks(b[1..], rest);
    }
  }

  /** Leading blanks go, and what is left of the space is still space. */
  lemma {:induction false} IntoSpace(b: string, rest: string)
    requires AllSpace(b) && rest != "" && !IsBlank(rest[0])
    ensures DropBlanks(b + rest) == DropBlanks(b) + rest
    ensures AllSpace(DropBlanks(b))
  {
    if b == "" {
      assert b + rest == rest;
      assert DropBlanks(b) + rest == rest;
    } else if IsBlank(b[0]) {
      assert (b + rest)[1..] == b[1..] + rest;
      IntoSpace(b[1..], rest);
    }
  }

  lemma {:induction false} SpacesOf(b: string, rest: string)
    requires AllSpace(b) && (rest == "" || !IsSpace(rest[0]))
    ensures Spaces(b + rest) == |b|
  {
    if b == "" {
      assert b + rest == rest;
    } else {
      assert (b + rest)[1..] == b[1..] + rest;
      SpacesOf(b[1..], rest);
    }
  }

  lemma {:induction false} DigitsOf(d: string, rest: string)
    requires AllDigits(d) && NoDigitFirst(rest)
    ensures Digits(d + rest) == |d|
  {
    if d == "" {
      assert d + rest == rest;
    } else {
      assert (d + rest)[1..] == d[1..] + rest;
      DigitsOf(d[1..], rest);
    }
  }

  predicate IsSign(sign: string) { sign == "" || sign == "-" || sign == "+" }

  function WithSign(sign: string, d: string): int { if sign == "-" then 0 - Value(d) else Value(d) }

  lemma SignedReads(sign: string, d: string, rest: string)
    requires IsSign(sign) && d != "" && AllDigits(d) && NoDigitFirst(rest)
    ensures SignedDigits(sign + (d + rest)) == (WithSign(sign, d), |sign| + |d|)
  {
    var t := sign + (d + rest);
    DigitsOf(d, rest);
    assert (d + rest)[..|d|] == d;
    if sign == "" {
      assert t == d + rest && t[0] == d[0];
    } else {
      assert t[1..] == d + rest;
    }
  }

  /** `strtol` takes space, a sign and digits. */
  lemma StrTolReads(sp: string, core: string)
    requires AllSpace(sp) && core != "" && !IsSpace(core[0]) && SignedDigits(core).1 > 0
    ensures var x := SignedDigits(core).0;
            StrTol(sp + core) == Tol(x, |sp| + SignedDigits(core).1, x > LONG_MAX || x < -LONG_MAX - 1)
  {
    SpacesOf(sp, core);
    assert (sp + core)[|sp|..] == core;
  }

  /** What may follow a number in an accepted text. */
  predicate Follows(n: Num, rest: string) {
    && (rest == "" || rest[0] == ',' || rest[0] == '-')
    && (n.Missing() ==> rest != "" && (rest[0] == '-' ==> NoDigitFirst(rest[1..])))
  }

  lemma ReadsNumber(n: Num, rest: string, maxsize: nat)
    requires n.Accepted(maxsize) && Follows(n, rest)
    ensures NextNumber(n.Text() + rest, maxsize) == Number(n.Id(), rest)
  {
    if n.Missing() {
      assert n.Text() + rest == n.before + rest;
      AfterBlanks(n.before, rest);
      ReadsNothing(rest, maxsize);
    } else {
      ReadsDigits(n, rest, maxsize);
    }
  }

  /** Without digits `strtol` gives 0 and takes nothing, not even the dash. */
  lemma ReadsNothing(rest: string, maxsize: nat)
    requires rest != "" && maxsize > 0
    requires rest[0] == ',' || (rest[0] == '-' && NoDigitFirst(rest[1..]))
    ensures NumberAt(rest, maxsize) == Number(0, rest)
  {
    assert rest[0..] == rest;
  }

  lemma ReadsDigits(n: Num, rest: string, maxsize: nat)
    requires n.Accepted(maxsize) && Follows(n, rest) && !n.Missing()
    ensures NextNumber(n.Text() + rest, maxsize) == Number(n.Id(), rest)
  {
    TextIs(n, rest);
    CoreStart(n, rest);
    IntoSpace(n.before, n.sign + (n.digits + (n.after + rest)));
    NumberHere(DropBlanks(n.before), n, rest, maxsize);
  }

  lemma NumberHere(sp: string, n: Num, rest: string, maxsize: nat)
    requires n.Accepted(maxsize) && Follows(n, rest) && !n.Missing() && AllSpace(sp)
    ensures NumberAt(sp + (n.sign + (n.digits + (n.after + rest))), maxsize) == Number(n.Id(), rest)
  {
    var t := sp + (n.sign + (n.digits + (n.after + rest)));
    TolHere(sp, n, rest);
    AfterBlanks(n.after, rest);
    assert t != "";
  }

  lemma TolHere(sp: string, n: Num, rest: string)
    requires AllSpace(sp) && IsSign(n.sign) && !n.Missing() && AllDigits(n.digits) && AllBlank(n.after)
    requires rest == "" || rest[0] == ',' || rest[0] == '-'
    ensures var t := sp + (n.sign + (n.digits + (n.after + rest)));
            && StrTol(t).value == n.Signed() && t[StrTol(t).used..] == n.after + rest
            && (StrTol(t).outOfRange <==> n.Signed() > LONG_MAX || n.Signed() < -LONG_MAX - 1)
  {
    CoreStart(n, rest);
    SignedReads(n.sign, n.digits, n.after + rest);
    StrTolReads(sp, n.sign + (n.digits + (n.after + rest)));
    Beyond(sp, n.sign, n.digits, n.after + rest);
  }

  lemma TextIs(n: Num, rest: string)
    ensures n.Text() + rest == n.before + (n.sign + (n.digits + (n.after + rest)))
  {
    assert (n.digits + n.after) + rest == n.digits + (n.after + rest);
    assert (n.sign + (n.digits + n.after)) + rest == n.sign + ((n.digits + n.after) + rest);
    assert n.Text() + rest == n.before + ((n.sign + (n.digits + n.after)) + rest);
  }

  lemma CoreStart(n: Num, rest: string)
    requires IsSign(n.sign) && !n.Missing() && AllDigits(n.digits) && AllBlank(n.after)
    requires rest == "" || rest[0] == ',' || rest[0] == '-'
    ensures var core := n.sign + (n.digits + (n.after + rest)); core != "" && !IsSpace(core[0]) && !IsBlank(core[0])
    ensures NoDigitFirst(n.after + rest)
  {
    var core := n.sign + (n.digits + (n.after + rest));
    assert core[0] == if n.sign == "" then n.digits[0] else n.sign[0];
    if n.after != "" {
      assert (n.after + rest)[0] == n.after[0];
    } else {
      assert n.after + rest == rest;
    }
  }

  lemma Beyond(a: string, b: string, c: string, rest: string)
    ensures (a + (b + (c + rest)))[|a| + |b| + |c|..] == rest
  {
    assert a + (b + (c + rest)) == (a + b + c) + rest;
  }

  // ----- every accepted text is read

  lemma ScanItem(item: Item, rest: string, acc: seq<nat>, maxsize: nat)
    requires item.Accepted(maxsize) && (rest == "" || rest[0] == ',')
    requires rest == "" ==> !item.LastNum().Missing()
    ensures var acc' := AddRange(acc, item.First(), item.Last());
            Scan(item.Text() + rest, None, acc, maxsize) ==
              if rest == "" then Some(acc') else Scan(rest[1..], None, acc', maxsize)
  {
    if item.One? {
      ReadsNumber(item.n, rest, maxsize);
    } else {
      ScanRange(item.lo, item.hi, rest, acc, maxsize);
    }
  }

  lemma ScanRange(lo: Num, hi: Num, rest: string, acc: seq<nat>, maxsize: nat)
    requires Range(lo, hi).Accepted(maxsize) && (rest == "" || rest[0] == ',')
    requires rest == "" ==> !hi.Missing()
    ensures var acc' := AddRange(acc, lo.Id(), hi.Id());
            Scan(Range(lo, hi).Text() + rest, None, acc, maxsize) ==
              if rest == "" then Some(acc') else Scan(rest[1..], None, acc', maxsize)
  {
    var tail := "-" + (hi.Text() + rest);
    assert tail[1..] == hi.Text() + rest;
    RangeIs(lo, hi, tail, rest);
    assert NoDigitFirst(hi.Text()) && !NoDigitFirst(tail[1..]) ==> hi.Text() == "" by {
      if hi.Text() != "" {
        assert (hi.Text() + rest)[0] == hi.Text()[0];
      }
    }
    assert hi.Text() == "" ==> hi.Text() + rest == rest;
    ReadsNumber(lo, tail, maxsize);
    ReadsNumber(hi, rest, maxsize);
  }

  lemma ScanEnding(ending: Ending, acc: seq<nat>, maxsize: nat)
    requires ending.Accepted(maxsize)
    ensures Scan(ending.Text(), None, acc, maxsize) == Some(AddItems(acc, ending.Items()))
  {
    match ending
    case Whole(item) =>
      ScanItem(item, "", acc, maxsize);
      assert item.Text() + "" == item.Text();
      assert AddItems(AddRange(acc, item.First(), item.Last()), [item][1..]) ==
             AddRange(acc, item.First(), item.Last());
    case Nothing(blanks) =>
      AfterBlanks(blanks, "");
      assert blanks + "" == blanks;
    case Open(lo, blanks) =>
      var tail := "-" + blanks;
      assert ending.Text() == lo.Text() + tail;
      assert tail[1..] == blanks;
      ReadsNumber(lo, tail, maxsize);
      AfterBlanks(blanks, "");
      assert blanks + "" == blanks;
  }

  ghost function AddItems(acc: seq<nat>, items: seq<Item>): seq<nat>
    decreases items
  {
    if items == [] then acc else AddItems(AddRange(acc, items[0].First(), items[0].Last()), items[1..])
  }

  predicate AllAccepted(items: seq<Item>, maxsize: nat) {
    forall i :: 0 <= i < |items| ==> items[i].Accepted(maxsize)
  }

  lemma {:induction false} ScanItems(items: seq<Item>, ending: Ending, acc: seq<nat>, maxsize: nat)
    requires AllAccepted(items, maxsize) && ending.Accepted(maxsize)
    ensures Scan(ListText(items, ending), None, acc, maxsize) == Some(AddItems(acc, items + ending.Items()))
    decreases items
  {
    if items == [] {
      assert items + ending.Items() == ending.Items();
      ScanEnding(ending, acc, maxsize);
    } else {
      var tail := "," + ListText(items[1..], ending);
      ScanItem(items[0], tail, acc, maxsize);
      assert tail[1..] == ListText(items[1..], ending);
      ScanItems(items[1..], ending, AddRange(acc, items[0].First(), items[0].Last()), maxsize);
      assert (items + ending.Items())[1..] == items[1..] + ending.Items();
    }
  }

  lemma {:induction false} AddItemsIsFirstAppearances(xs: seq<nat>, items: seq<Item>)
    ensures AddItems(FirstAppearances(xs), items) == FirstAppearances(xs + Expand(items))
    decreases items
  {
    if items == [] {
      assert xs + Expand(items) == xs;
    } else {
      AddRangeIsFirstAppearances(xs, items[0].First(), items[0].Last());
      AddItemsIsFirstAppearances(xs + Between(items[0].First(), items[0].Last()), items[1..]);
      ExpandAfter(xs, items);
    }
  }

  lemma ExpandAfter(xs: seq<nat>, items: seq<Item>)
    requires items != []
    ensures xs + Expand(items) == (xs + Between(items[0].First(), items[0].Last())) + Expand(items[1..])
  {
  }

  // ----- every text that is read is accepted

  /** The blanks at the front of a text. */
  lemma {:induction false} FrontBlanks(t: string) returns (b: string)
    ensures AllBlank(b) && t == b + DropBlanks(t)
  {
    if t == "" || !IsBlank(t[0]) {
      b := "";
    } else {
      var b' := FrontBlanks(t[1..]);
      b := [t[0]] + b';
    }
  }

  lemma {:induction false} FrontSpaces(t: string)
    ensures AllSpace(t[..Spaces(t)])
  {
    if t != "" && IsSpace(t[0]) {
      FrontSpaces(t[1..]);
      assert t[..Spaces(t)] == [t[0]] + t[1..][..Spaces(t[1..])];
    }
  }

  lemma {:induction false} FrontDigits(t: string)
    ensures AllDigits(t[..Digits(t)])
  {
    if t != "" && IsDigit(t[0]) {
      FrontDigits(t[1..]);
      assert t[..Digits(t)] == [t[0]] + t[1..][..Digits(t[1..])];
    }
  }

  lemma Halves(t: string, k: nat)
    requires k <= |t|
    ensures t == t[..k] + t[k..]
  {
  }

  lemma Suffix(t: string, k: nat, n: nat)
    requires k + n <= |t|
    ensures t[k..][n..] == t[k + n..]
  {
  }

  lemma SignedTook(t: string) returns (sign: string, d: string, tail: string)
    requires SignedDigits(t).1 > 0
    ensures IsSign(sign) && d != "" && AllDigits(d) && SignedDigits(t).0 == WithSign(sign, d)
    ensures t == sign + (d + tail) && tail == t[SignedDigits(t).1..]
  {
    tail := t[SignedDigits(t).1..];
    if HasSign(t) {
      var u := t[1..];
      sign, d := [t[0]], u[..Digits(u)];
      FrontDigits(u);
      Halves(u, |d|);
      Suffix(t, 1, |d|);
      assert t == sign + u;
    } else {
      sign, d := "", t[..Digits(t)];
      FrontDigits(t);
      Halves(t, |d|);
      assert sign + (d + tail) == d + tail;
    }
  }

  /** What `strtol` took, when it took something. */
  lemma StrTolTook(t: string) returns (sp: string, sign: string, d: string, tail: string)
    requires StrTol(t).used > 0
    ensures AllSpace(sp) && IsSign(sign) && d != "" && AllDigits(d)
    ensures t == sp + (sign + (d + tail)) && tail == t[StrTol(t).used..]
    ensures StrTol(t).value == WithSign(sign, d)
    ensures !StrTol(t).outOfRange ==> -LONG_MAX - 1 <= WithSign(sign, d) <= LONG_MAX
  {
    var k := Spaces(t);
    FrontSpaces(t);
    sp := t[..k];
    sign, d, tail := SignedTook(t[k..]);
    Suffix(t, k, SignedDigits(t[k..]).1);
    Halves(t, k);
  }

  lemma SplitNumber(t: string, maxsize: nat) returns (n: Num)
    requires NextNumber(t, maxsize).Number?
    requires var rest := NextNumber(t, maxsize).rest; rest == "" || rest[0] == ',' || rest[0] == '-'
    ensures n.Accepted(maxsize) && n.Id() == NextNumber(t, maxsize).value
    ensures t == n.Text() + NextNumber(t, maxsize).rest && Follows(n, NextNumber(t, maxsize).rest)
  {
    var b := FrontBlanks(t);
    n := SplitAt(b, DropBlanks(t), maxsize);
  }

  lemma SplitAt(b: string, u: string, maxsize: nat) returns (n: Num)
    requires AllBlank(b) && NumberAt(u, maxsize).Number? && u != "" && !IsBlank(u[0])
    requires var rest := NumberAt(u, maxsize).rest; rest == "" || rest[0] == ',' || rest[0] == '-'
    ensures n.Accepted(maxsize) && n.Id() == NumberAt(u, maxsize).value
    ensures b + u == n.Text() + NumberAt(u, maxsize).rest && Follows(n, NumberAt(u, maxsize).rest)
  {
    if StrTol(u).used == 0 {
      n := Num(b, "", "", "");
      TookNothing(u);
      assert n.Text() == b;
    } else {
      n := SplitDigits(b, u);
    }
  }

  lemma SplitDigits(b: string, u: string) returns (n: Num)
    requires AllBlank(b) && StrTol(u).used > 0
    ensures !n.Missing() && AllDigits(n.digits) && AllBlank(n.after) && AllSpace(n.before) && IsSign(n.sign)
    ensures n.Signed() == StrTol(u).value
    ensures !StrTol(u).outOfRange ==> -LONG_MAX - 1 <= n.Signed() <= LONG_MAX
    ensures b + u == n.Text() + DropBlanks(u[StrTol(u).used..])
  {
    var sp, sign, d, tail := StrTolTook(u);
    var after := FrontBlanks(tail);
    n := Num(b + sp, sign, d, after);
    TextIs(n, DropBlanks(tail));
    assert b + (sp + (sign + (d + tail))) == (b + sp) + (sign + (d + tail));
  }

  /** When `strtol` takes nothing, the text does not start with a number. */
  lemma TookNothing(u: string)
    requires u != "" && !IsBlank(u[0]) && StrTol(u).used == 0
    ensures StrTol(u).value == 0 && u[0..] == u && DropBlanks(u) == u
    ensures u[0] == '-' ==> NoDigitFirst(u[1..])
  {
  }

  /** The text consists of these accepted items and this end. */
  ghost predicate Denotes(items: seq<Item>, ending: Ending, t: string, maxsize: nat) {
    AllAccepted(items, maxsize) && ending.Accepted(maxsize) && t == ListText(items, ending)
  }

  lemma {:induction false} Decompose(t: string, acc: seq<nat>, maxsize: nat) returns (items: seq<Item>, ending: Ending)
    requires Scan(t, None, acc, maxsize).Some?
    ensures Denotes(items, ending, t, maxsize)
    decreases |t|, 2
  {
    match NextNumber(t, maxsize)
    case End =>
      OnlyBlanks(t);
      items, ending := [], Nothing(t);
    case Number(v, rest) =>
      var n := SplitNumber(t, maxsize);
      if rest != "" && rest[0] == '-' {
        items, ending := DecomposeRange(n, rest, acc, maxsize);
      } else {
        items, ending := DecomposeOn(One(n), rest, AddRange(acc, v, v), maxsize);
      }
  }

  lemma OnlyBlanks(t: string)
    requires DropBlanks(t) == ""
    ensures AllBlank(t)
  {
    var b := FrontBlanks(t);
    assert b + "" == b;
  }

  /** What follows an item is a comma and more of the list, or nothing. */
  lemma {:induction false} DecomposeOn(item: Item, rest: string, acc: seq<nat>, maxsize: nat)
    returns (items: seq<Item>, ending: Ending)
    requires item.Accepted(maxsize) && (rest == "" || rest[0] == ',')
    requires if rest == "" then !item.LastNum().Missing() else Scan(rest[1..], None, acc, maxsize).Some?
    ensures Denotes(items, ending, item.Text() + rest, maxsize)
    decreases |rest|, 0
  {
    if rest == "" {
      items, ending := [], Whole(item);
      assert item.Text() + rest == item.Text();
    } else {
      var items', ending' := Decompose(rest[1..], acc, maxsize);
      items, ending := [item] + items', ending';
      PutFirst(item, items', ending', rest);
    }
  }

  lemma PutFirst(item: Item, items: seq<Item>, ending: Ending, rest: string)
    requires rest != "" && rest[0] == ',' && rest[1..] == ListText(items, ending)
    ensures ListText([item] + items, ending) == item.Text() + rest
  {
    assert ([item] + items)[1..] == items;
    assert "," + rest[1..] == rest;
  }

  lemma RangeIs(lo: Num, hi: Num, rest: string, rest': string)
    requires rest == "-" + (hi.Text() + rest')
    ensures Range(lo, hi).Text() + rest' == lo.Text() + rest
    ensures NoDigitFirst(rest[1..]) ==> NoDigitFirst(hi.Text())
  {
    assert Range(lo, hi).Text() + rest' == lo.Text() + ("-" + (hi.Text() + rest'));
    if hi.Text() != "" {
      assert rest[1..][0] == hi.Text()[0];
    }
  }

  lemma {:induction false} DecomposeRange(lo: Num, rest: string, acc: seq<nat>, maxsize: nat)
    returns (items: seq<Item>, ending: Ending)
    requires lo.Accepted(maxsize) && Follows(lo, rest) && rest != "" && rest[0] == '-'
    requires Scan(rest[1..], Some(lo.Id()), acc, maxsize).Some?
    ensures Denotes(items, ending, lo.Text() + rest, maxsize)
    decreases |rest|, 1
  {
    assert rest == "-" + rest[1..];
    match NextNumber(rest[1..], maxsize)
    case End =>
      OnlyBlanks(rest[1..]);
      items, ending := [], Open(lo, rest[1..]);
      assert lo.Text() + "-" + rest[1..] == lo.Text() + rest;
    case Number(v, rest') =>
      var hi := SplitNumber(rest[1..], maxsize);
      RangeIs(lo, hi, rest, rest');
      items, ending := DecomposeOn(Range(lo, hi), rest', AddRange(acc, lo.Id(), v), maxsize);
  }

  /**
    * The exact language of `parse_port_list`: a text is accepted with these ids if and only if it
    * consists of accepted items and an end, and the ids are those of the items, each at its first
    * appearance. A missing number counts as 0, except at the end of the text.
    */
  lemma ScanIff(t: string, ids: seq<nat>, maxsize: nat)
    ensures Scan(t, None, [], maxsize) == Some(ids) <==>
      exists items, ending :: Denotes(items, ending, t, maxsize) && ids == Named(items + ending.Items())
  {
    if Scan(t, None, [], maxsize) == Some(ids) {
      var items, ending := Decompose(t, [], maxsize);
      ScanDenoted(items, ending, t, maxsize);
      assert Denotes(items, ending, t, maxsize) && ids == Named(items + ending.Items());
    }
    forall items, ending | Denotes(items, ending, t, maxsize)
      ensures Scan(t, None, [], maxsize) == Some(Named(items + ending.Items()))
    {
      ScanDenoted(items, ending, t, maxsize);
    }
  }

  /** The ids of the items, each at its first appearance. */
  ghost function Named(items: seq<Item>): seq<nat> { FirstAppearances(Expand(items)) }

  lemma ScanDenoted(items: seq<Item>, ending: Ending, t: string, maxsize: nat)
    requires Denotes(items, ending, t, maxsize)
    ensures Scan(t, None, [], maxsize) == Some(Named(items + ending.Items()))
  {
    ScanItems(items, ending, [], maxsize);
    NothingBefore(items + ending.Items());
  }

  lemma NothingBefore(items: seq<Item>)
    ensures AddItems([], items) == Named(items)
  {
    AddItemsIsFirstAppearances([], items);
    assert [] + Expand(items) == Expand(items);
  }

  /** Malformed lists are not all refused: an empty item is port 0. */
  lemma EmptyItemIsPortZero(maxsize: nat)
    requires maxsize > 0
    ensures Scan(",", None, [], maxsize) == Some([0])
  {
    var item := One(Num("", "", "", ""));
    assert item.First() == item.Last() == 0;
    assert ListText([item][1..], Nothing("")) == "";
    assert ListText([item], Nothing("")) == ",";
    ScanItems([item], Nothing(""), [], maxsize);
    assert [item] + Nothing("").Items() == [item];
    assert AddRange([0], 1, 0) == [0];
    assert AddRange([], 0, 0) == [0];
    assert AddItems(AddRange([], 0, 0), [item][1..]) == [0];
  }

  /** A range without an end is dropped. */
  lemma OpenRangeIsDropped(maxsize: nat)
    requires maxsize > 3
    ensures Scan("3-", None, [], maxsize) == Some([])
  {
    var three := Num("", "", "3", "");
    assert Value("") == 0;
    assert Value("3") == 3;
    assert ListText([], Open(three, "")) == "3-";
    ScanItems([], Open(three, ""), [], maxsize);
  }

  // ----- the documented lists

  ghost predicate Names(items: seq<Item>, x: nat) {
    exists i :: 0 <= i < |items| && items[i].First() <= x <= items[i].Last()
  }

  lemma {:induction false} BetweenElems(lo: nat, hi: nat, x: nat)
    ensures x in Between(lo, hi) <==> lo <= x <= hi
    decreases hi + 1 - lo
  {
    if lo <= hi {
      BetweenElems(lo + 1, hi, x);
    }
  }

  lemma {:induction false} ExpandElems(items: seq<Item>, x: nat)
    ensures x in Expand(items) <==> Names(items, x)
  {
    if items != [] {
      BetweenElems(items[0].First(), items[0].Last(), x);
      ExpandElems(items[1..], x);
      assert items == [items[0]] + items[1..];
      if Names(items[1..], x) {
        var i :| 0 <= i < |items[1..]| && items[1..][i].First() <= x <= items[1..][i].Last();
        assert items[i + 1].First() <= x <= items[i + 1].Last();
      }
    }
  }

  /** Plain items with commas between them. */
  ghost function PlainText(items: seq<Item>): string
    requires items != []
  {
    ListText(items[..|items|-1], Whole(items[|items|-1]))
  }

  /**
    * Every well-formed list yields exactly the ids that its items and ranges name, in the order of
    * their first appearance.
    */
  lemma WellFormedListsParse(items: seq<Item>, maxsize: nat)
    requires items != [] && maxsize < INT_MAX
    requires forall i :: 0 <= i < |items| ==> items[i].Plain(maxsize)
    ensures Scan(PlainText(items), None, [], maxsize) == Some(FirstAppearances(Expand(items)))
    ensures forall x :: x in FirstAppearances(Expand(items)) <==> Names(items, x)
    ensures forall i :: 0 <= i < |items| ==> items[i].Reads()
  {
    var n := |items| - 1;
    forall i | 0 <= i < |items|
      ensures items[i].Accepted(maxsize) && !items[i].LastNum().Missing() && items[i].Reads()
    {
      PlainItem(items[i], maxsize);
    }
    assert items[..n] + [items[n]] == items;
    ScanDenoted(items[..n], Whole(items[n]), PlainText(items), maxsize);
    NamedElems(items);
  }

  lemma NamedElems(items: seq<Item>)
    ensures forall x :: x in FirstAppearances(Expand(items)) <==> Names(items, x)
  {
    FirstAppearancesElems(Expand(items));
    forall x ensures x in FirstAppearances(Expand(items)) <==> Names(items, x) {
      ExpandElems(items, x);
    }
  }

  lemma PlainItem(item: Item, maxsize: nat)
    requires item.Plain(maxsize) && maxsize < INT_MAX
    ensures item.Accepted(maxsize) && !item.LastNum().Missing() && item.Reads()
  {
    PlainAccepted(item.FirstNum(), maxsize);
    PlainAccepted(item.LastNum(), maxsize);
  }

  lemma PlainAccepted(n: Num, maxsize: nat)
    requires n.Plain(maxsize) && maxsize < INT_MAX
    ensures n.Accepted(maxsize) && n.Id() == Value(n.digits)
  {
  }

  // ----- recording the list

  /** The ids of a list text that `parse_fwd_portlist` hands on; none when the text is refused. */
  ghost function Chosen(text: string, maxsize: nat, attached: set<nat>): seq<nat> {
    match Scan(text, None, [], maxsize)
    case None => []
    case Some(ids) => Keep(ids, attached)
  }

  /** What `set_fwd_ports_list` leaves: the ids when all are usable, else what there was. */
  ghost predicate Recorded(before: Table, after: Table, ids: seq<nat>) {
    after == if forall x :: x in ids ==> x in before.devs then before.(configured := ids, nbFwd := |ids|) else before
  }

  /**
    * `parse_fwd_portlist`: the attached ids of the list become the forwarding ports, all of them or,
    * when one is not usable, none. An empty or refused list ends the program (`exit`). The ids are
    * different whatever the text, so the arrays stay in order exactly when the recorded ids are known.
    */
  method ParseFwdPortlist(table: PortTable, text: string, attached: set<nat>) returns (exit: bool)
    requires table.Inv()
    modifies table`nbCfgPorts, table`nbFwdPorts, table.fwdPortsIds
    ensures table.Shape()
    ensures exit <==> Scan(text, None, [], table.maxPorts).None? || Scan(text, None, [], table.maxPorts).value == []
    ensures exit ==> table.View() == old(table.View())
    ensures !exit ==> Recorded(old(table.View()), table.View(), Chosen(text, table.maxPorts, attached))
    ensures table.Inv() <==> exit || AllKnown(old(table.View()), Chosen(text, table.maxPorts, attached))
  {
    var portindex := new nat[table.maxPorts](_ => 0);
    var portcount := ParsePortList(text, portindex, table.maxPorts);
    if portcount == 0 {
      return true;
    }
    ghost var ids := portindex[..portcount];
    var kept := Compact(portindex, portcount, attached);
    KeepKeeps(ids, attached);
    Record(table, portindex[..kept]);
    return false;
  }

  /** Either some id is not usable, and nothing is recorded, or all of them are known. */
  ghost predicate AllKnown(t: Table, ids: seq<nat>) {
    (forall x :: x in ids ==> x in t.devs) ==> forall x :: x in ids ==> x in t.known
  }

  /** `set_fwd_ports_list` on different ids below the limit. */
  method Record(table: PortTable, ids: seq<nat>)
    requires table.Inv() && Distinct(ids)
    requires forall x :: x in ids ==> x < table.maxPorts
    modifies table`nbCfgPorts, table`nbFwdPorts, table.fwdPortsIds
    ensures table.Shape() && Recorded(old(table.View()), table.View(), ids)
    ensures table.Inv() <==> AllKnown(old(table.View()), ids)
  {
    forall i | 0 <= i < |ids| ensures ids[i] % TWO_16 == ids[i] {
      assert ids[i] in ids;
    }
    assert Cut(ids) == ids;
    DistinctBelow(ids, table.maxPorts);
    table.SetList(ids);
  }
}
