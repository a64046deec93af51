/** ControlledTernaryGate: a base gate applied to the trailing trits only when every control trit
  * lies in its allowed set, and the table of named controlled gates built from a base gate. */
module ControlledTernaryGate {
  import opened Wrappers
  import opened Gates
  import opened SeqFacts

  function Min(a: int, b: int): int { if a <= b then a else b }

  /** The zip over controls and control values stops at the shorter of the two. */
  predicate ControlActive(controls: seq<seq<int>>, trits: seq<int>)
  {
    forall i :: 0 <= i < Min(|controls|, |trits|) ==> trits[i] in controls[i]
  }

  /** applied_to_trits: base sees the trits after the first len(controls) (none when the list is
    * shorter) and its output replaces exactly that suffix. */
  function Applied(controls: seq<seq<int>>, trits: seq<int>, base: seq<int> -> Result<seq<int>>)
    : (r: Result<seq<int>>)
    ensures var m := Min(|controls|, |trits|);
      && (!ControlActive(controls, trits) ==> r == Ok(trits))
      && (ControlActive(controls, trits) ==>
            match base(trits[m..])
            case Ok(changed) => r == Ok(trits[..m] + changed)
            case Err(e) => r == Err(e))
  {
    var m := Min(|controls|, |trits|);
    if !ControlActive(controls, trits) then Ok(trits)
    else
      match base(trits[m..])
      case Ok(changed) => Ok(trits[..m] + changed)
      case Err(e) => Err(e)
  }

  /** The control trits are never changed, so applying the controlled inverse undoes the gate
    * whenever the inverse base undoes the base on the target trits. */
  lemma ControlledInverse(controls: seq<seq<int>>, trits: seq<int>,
                          base: seq<int> -> Result<seq<int>>, inv: seq<int> -> Result<seq<int>>)
    requires |trits| >= |controls|
    requires base(trits[|controls|..]).Ok? ==>
      var out := base(trits[|controls|..]).value;
      |out| == |trits| - |controls| && inv(out) == Ok(trits[|controls|..])
    requires Applied(controls, trits, base).Ok?
    ensures Applied(controls, Applied(controls, trits, base).value, inv) == Ok(trits)
  {
    var m := |controls|;
    var mid := Applied(controls, trits, base).value;
    if ControlActive(controls, trits) {
      var out := base(trits[m..]).value;
      assert mid == trits[..m] + out;
      assert mid[..m] == trits[..m] && mid[m..] == out;
      assert ControlActive(controls, mid) by {
        forall i | 0 <= i < Min(|controls|, |mid|) ensures mid[i] in controls[i] { assert mid[i] == trits[i]; }
      }
      assert trits[..m] + trits[m..] == trits;
    }
  }

  // ---- The table of controlled gates ----

  /** The digits of a number as Python's str() prints them. */
  function NatString(n: nat): string
  {
    if n < 10 then [DigitChar(n)] else NatString(n / 10) + [DigitChar(n % 10)]
  }

  function DigitChar(d: nat): char
    requires d < 10
  {
    ('0' as int + d) as char
  }

  function IntString(i: int): string
  {
    if i < 0 then "-" + NatString(-i) else NatString(i)
  }

  function JoinDigits(control: seq<int>): string
  {
    if control == [] then "" else IntString(control[0]) + JoinDigits(control[1..])
  }

  /** gate_pre: for every control, the letter C followed by its values' digits. */
  function ControlPrefix(controls: seq<seq<int>>): string
  {
    if controls == [] then "" else "C" + JoinDigits(controls[0]) + ControlPrefix(controls[1..])
  }

  /** itertools.product(types, repeat=n), in its order: the first position varies slowest. */
  function Product(types: seq<seq<int>>, n: nat): seq<seq<seq<int>>>
  {
    if n == 0 then [[]] else PrependEach(types, Product(types, n - 1))
  }

  /** A tuple of n controls drawn from types. */
  predicate IsTuple(types: seq<seq<int>>, n: nat, t: seq<seq<int>>)
  {
    |t| == n && forall p :: 0 <= p < n ==> t[p] in types
  }

  function Power(b: nat, n: nat): nat { if n == 0 then 1 else b * Power(b, n - 1) }

  /** [t] + rest for every t in types (outer loop) and rest in rests (inner loop). */
  function PrependEach(types: seq<seq<int>>, rests: seq<seq<seq<int>>>): seq<seq<seq<int>>>
  {
    if types == [] then [] else PrependOne(types[0], rests) + PrependEach(types[1..], rests)
  }

  function PrependOne(t: seq<int>, rests: seq<seq<seq<int>>>): (r: seq<seq<seq<int>>>)
    ensures |r| == |rests|
    ensures forall j :: 0 <= j < |rests| ==> r[j] == [t] + rests[j]
  {
    if rests == [] then [] else [[t] + rests[0]] + PrependOne(t, rests[1..])
  }

  /** Every produced tuple has n controls drawn from types. */
  lemma {:induction false} ProductSound(types: seq<seq<int>>, n: nat, j: nat)
    requires j < |Product(types, n)|
    ensures IsTuple(types, n, Product(types, n)[j])
  {
    if n > 0 {
      var prev := Product(types, n - 1);
      var t := Product(types, n)[j];
      var i, k := PrependEachAt(types, prev, j);
      ProductSound(types, n - 1, k);
      assert t == [types[i]] + prev[k];
      forall p | 0 <= p < n ensures t[p] in types {
        if p > 0 { assert t[p] == prev[k][p - 1]; }
      }
    }
  }

  /** Where an entry of PrependEach comes from. */
  lemma {:induction false} PrependEachAt(types: seq<seq<int>>, rests: seq<seq<seq<int>>>, j: nat) returns (i: nat, k: nat)
    requires j < |PrependEach(types, rests)|
    ensures i < |types| && k < |rests| && PrependEach(types, rests)[j] == [types[i]] + rests[k]
  {
    var head := PrependOne(types[0], rests);
    if j < |head| {
      i, k := 0, j;
    } else {
      var i', k' := PrependEachAt(types[1..], rests, j - |head|);
      i, k := i' + 1, k';
      assert types[1..][i'] == types[i];
    }
  }

  /** Every tuple over the given types of length n is produced. */
  lemma {:induction false} ProductComplete(types: seq<seq<int>>, n: nat, t: seq<seq<int>>) returns (j: nat)
    requires IsTuple(types, n, t)
    ensures j < |Product(types, n)| && Product(types, n)[j] == t
  {
    if n == 0 {
      j := 0;
    } else {
      assert IsTuple(types, n - 1, t[1..]) by {
        forall p | 0 <= p < n - 1 ensures t[1..][p] in types { assert t[1..][p] == t[p + 1]; }
      }
      var k := ProductComplete(types, n - 1, t[1..]);
      var i :| 0 <= i < |types| && types[i] == t[0];
      j := PrependEachIndex(types, Product(types, n - 1), i, k);
      assert [t[0]] + t[1..] == t;
    }
  }

  lemma {:induction false} PrependEachIndex(types: seq<seq<int>>, rests: seq<seq<seq<int>>>, i: nat, k: nat) returns (j: nat)
    requires i < |types| && k < |rests|
    ensures j < |PrependEach(types, rests)| && PrependEach(types, rests)[j] == [types[i]] + rests[k]
  {
    var head := PrependOne(types[0], rests);
    if i == 0 {
      j := k;
    } else {
      var j' := PrependEachIndex(types[1..], rests, i - 1, k);
      j := |head| + j';
      assert types[1..][i - 1] == types[i];
    }
  }

  /** There are |types|^n tuples of n controls. */
  lemma {:induction false} ProductLength(types: seq<seq<int>>, n: nat)
    ensures |Product(types, n)| == Power(|types|, n)
  {
    if n > 0 {
      ProductLength(types, n - 1);
      PrependEachLength(types, Product(types, n - 1));
    }
  }

  lemma {:induction false} PrependEachLength(types: seq<seq<int>>, rests: seq<seq<seq<int>>>)
    ensures |PrependEach(types, rests)| == |types| * |rests|
  {
    if types != [] {
      PrependEachLength(types[1..], rests);
      calc {
        |PrependEach(types, rests)|;
        |rests| + (|types| - 1) * |rests|;
        { MulSucc(|types| - 1, |rests|); }
        |types| * |rests|;
      }
    }
  }

  lemma MulSucc(a: nat, b: nat)
    ensures b + a * b == (a + 1) * b
  {
  }

  /** Every control tuple with 1..maxControls controls, in the order the loops visit them. */
  function AllTuples(types: seq<seq<int>>, maxControls: nat): seq<seq<seq<int>>>
  {
    if maxControls == 0 then [] else AllTuples(types, maxControls - 1) + Product(types, maxControls)
  }

  /** The dictionary after storing every tuple of the list, in order (a later equal name wins). */
  function Fill(base: Gate, baseName: string, tuples: seq<seq<seq<int>>>): map<string, Gate>
  {
    if tuples == [] then map[]
    else
      var last := tuples[|tuples| - 1];
      Fill(base, baseName, tuples[..|tuples| - 1])[ControlPrefix(last) + baseName := Controlled(base, last)]
  }

  lemma FillSnoc(base: Gate, baseName: string, tuples: seq<seq<seq<int>>>, t: seq<seq<int>>)
    ensures Fill(base, baseName, tuples + [t]) == Fill(base, baseName, tuples)[ControlPrefix(t) + baseName := Controlled(base, t)]
  {
    assert (tuples + [t])[..|tuples|] == tuples;
  }

  /** all_controlled_gates: one entry per control tuple of every length from 1 to max_controls. */
  method AllControlledGates(base: Gate, baseName: string, maxControls: nat, types: seq<seq<int>>)
    returns (gates: map<string, Gate>)
    ensures gates == Fill(base, baseName, AllTuples(types, maxControls))
  {
    gates := map[];
    ghost var done: seq<seq<seq<int>>> := [];
    var n := 1;
    while n <= maxControls
      invariant 1 <= n <= maxControls + 1
      invariant done == AllTuples(types, n - 1)
      invariant gates == Fill(base, baseName, done)
    {
      var tuples := Product(types, n);
      gates := StoreAll(gates, base, baseName, done, tuples);
      done := done + tuples;
      n := n + 1;
    }
  }

  /** The inner loop of all_controlled_gates: store every tuple of one length. */
  method StoreAll(gates0: map<string, Gate>, base: Gate, baseName: string, ghost done: seq<seq<seq<int>>>, tuples: seq<seq<seq<int>>>)
    returns (gates: map<string, Gate>)
    requires gates0 == Fill(base, baseName, done)
    ensures gates == Fill(base, baseName, done + tuples)
  {
    gates := gates0;
    var j := 0;
    ghost var stored := done;
    SliceNone(done, tuples);
    while j < |tuples|
      invariant 0 <= j <= |tuples|
      invariant stored == done + tuples[..j]
      invariant gates == Fill(base, baseName, stored)
    {
      var controls := tuples[j];
      FillSnoc(base, baseName, stored, controls);
      SliceSnoc(done, tuples, j);
      gates := gates[ControlPrefix(controls) + baseName := Controlled(base, controls)];
      stored := stored + [controls];
      j := j + 1;
    }
    SliceAll(done, tuples);
  }

  /** The six control types of the package: one value, or two distinct values, ascending. */
  const DefaultControlTypes: seq<seq<int>> := [[0], [1], [2], [0, 1], [0, 2], [1, 2]]

  predicate IsDigitChar(c: char) { '0' <= c <= '9' }

  /** A base name that cannot be mistaken for more controls. */
  predicate PlainName(s: string) { s == [] || (s[0] != 'C' && !IsDigitChar(s[0])) }

  /** Control values that print as one digit each. */
  predicate DigitControls(controls: seq<seq<int>>)
  {
    forall i :: 0 <= i < |controls| ==>
      (|controls[i]| >= 1 && forall j :: 0 <= j < |controls[i]| ==> 0 <= controls[i][j] <= 9)
  }

  /** The leading run of digits of s, read back as values, and what follows it. */
  function ParseDigits(s: string): (r: (seq<int>, string))
    ensures |r.1| <= |s|
  {
    if s != [] && IsDigitChar(s[0]) then
      var (ds, rest) := ParseDigits(s[1..]);
      ([s[0] as int - '0' as int] + ds, rest)
    else ([], s)
  }

  /** Reads control tuples off a gate name: C, then its digits, repeatedly. */
  function ParseControls(s: string): (seq<seq<int>>, string)
    decreases |s|
  {
    if s != [] && s[0] == 'C' then
      var (ds, rest) := ParseDigits(s[1..]);
      var (cs, tail) := ParseControls(rest);
      ([ds] + cs, tail)
    else ([], s)
  }

  lemma {:induction false} ParseJoinDigits(control: seq<int>, after: string)
    requires forall j :: 0 <= j < |control| ==> 0 <= control[j] <= 9
    requires after == [] || !IsDigitChar(after[0])
    ensures ParseDigits(JoinDigits(control) + after) == (control, after)
  {
    if control != [] {
      var rest := control[1..];
      var tail := JoinDigits(rest) + after;
      var d := DigitChar(control[0]);
      assert d as int - '0' as int == control[0];
      assert forall j :: 0 <= j < |rest| ==> 0 <= rest[j] <= 9 by {
        forall j | 0 <= j < |rest| ensures 0 <= rest[j] <= 9 { assert rest[j] == control[j + 1]; }
      }
      JoinDigitsCons(control, after);
      ParseJoinDigits(rest, after);
      ParseDigitsCons(d, tail);
      ConsSplit(control);
    } else {
      assert JoinDigits(control) + after == after;
    }
  }

  lemma JoinDigitsCons(control: seq<int>, after: string)
    requires control != [] && 0 <= control[0] <= 9
    ensures JoinDigits(control) + after == [DigitChar(control[0])] + (JoinDigits(control[1..]) + after)
  {
    var head, tail := [DigitChar(control[0])], JoinDigits(control[1..]);
    assert IntString(control[0]) == head;
    assert JoinDigits(control) == head + tail;
    assert (head + tail) + after == head + (tail + after);
  }

  lemma ParseDigitsCons(c: char, t: string)
    requires IsDigitChar(c)
    ensures ParseDigits([c] + t) == ([c as int - '0' as int] + ParseDigits(t).0, ParseDigits(t).1)
  {
    assert ([c] + t)[1..] == t;
  }

  /** Gate names can be read back: the prefix determines the control tuple. */
  lemma {:induction false} ParseControlPrefix(controls: seq<seq<int>>, baseName: string)
    requires DigitControls(controls) && PlainName(baseName)
    ensures ParseControls(ControlPrefix(controls) + baseName) == (controls, baseName)
  {
    if controls != [] {
      var tail := controls[1..];
      var rest := ControlPrefix(tail) + baseName;
      TailFacts(controls, baseName);
      PrefixStep(controls, baseName);
      ParseControlsStep(controls[0], rest);
      ParseControlPrefix(tail, baseName);
      assert [controls[0]] + tail == controls;
    } else {
      assert ControlPrefix(controls) + baseName == baseName;
    }
  }

  lemma TailFacts(controls: seq<seq<int>>, baseName: string)
    requires controls != [] && DigitControls(controls) && PlainName(baseName)
    ensures DigitControls(controls[1..])
    ensures forall j :: 0 <= j < |controls[0]| ==> 0 <= controls[0][j] <= 9
    ensures var rest := ControlPrefix(controls[1..]) + baseName; rest == [] || !IsDigitChar(rest[0])
  {
    var tail := controls[1..];
    var rest := ControlPrefix(tail) + baseName;
    forall i | 0 <= i < |tail| ensures tail[i] == controls[i + 1] { }
    if tail != [] { assert rest[0] == 'C'; }
  }

  lemma PrefixStep(controls: seq<seq<int>>, baseName: string)
    requires controls != []
    ensures ControlPrefix(controls) + baseName
      == "C" + (JoinDigits(controls[0]) + (ControlPrefix(controls[1..]) + baseName))
  {
    Regroup("C", JoinDigits(controls[0]), ControlPrefix(controls[1..]), baseName);
  }

  /** One C, its digits, then whatever the rest of the name parses to. */
  lemma ParseControlsStep(control: seq<int>, rest: string)
    requires forall j :: 0 <= j < |control| ==> 0 <= control[j] <= 9
    requires rest == [] || !IsDigitChar(rest[0])
    ensures ParseControls("C" + (JoinDigits(control) + rest))
      == ([control] + ParseControls(rest).0, ParseControls(rest).1)
  {
    var w := "C" + (JoinDigits(control) + rest);
    assert w[0] == 'C' && w[1..] == JoinDigits(control) + rest;
    ParseJoinDigits(control, rest);
  }

  /** Distinct control tuples get distinct names, so no entry of the table overwrites another. */
  lemma NamesInjective(c1: seq<seq<int>>, c2: seq<seq<int>>, baseName: string)
    requires DigitControls(c1) && DigitControls(c2) && PlainName(baseName)
    requires ControlPrefix(c1) + baseName == ControlPrefix(c2) + baseName
    ensures c1 == c2
  {
    ParseControlPrefix(c1, baseName);
    ParseControlPrefix(c2, baseName);
  }

  /** Every stored name maps to the controlled gate of the last tuple with that name, and the
    * names stored are exactly those of the tuples. */
  lemma {:induction false} FillLookup(base: Gate, baseName: string, tuples: seq<seq<seq<int>>>, j: nat)
    requires j < |tuples|
    requires forall a :: 0 <= a < |tuples| ==> DigitControls(tuples[a])
    requires PlainName(baseName)
    ensures ControlPrefix(tuples[j]) + baseName in Fill(base, baseName, tuples)
    ensures Fill(base, baseName, tuples)[ControlPrefix(tuples[j]) + baseName] == Controlled(base, tuples[j])
  {
    var n := |tuples|;
    var last := tuples[n - 1];
    if j < n - 1 {
      FillLookup(base, baseName, tuples[..n - 1], j);
      assert tuples[..n - 1][j] == tuples[j];
      if ControlPrefix(last) + baseName == ControlPrefix(tuples[j]) + baseName {
        NamesInjective(last, tuples[j], baseName);
      }
    }
  }

  lemma {:induction false} FillKeys(base: Gate, baseName: string, tuples: seq<seq<seq<int>>>, name: string)
    requires name in Fill(base, baseName, tuples)
    ensures exists j :: 0 <= j < |tuples| && name == ControlPrefix(tuples[j]) + baseName
  {
    var n := |tuples|;
    if name != ControlPrefix(tuples[n - 1]) + baseName {
      FillKeys(base, baseName, tuples[..n - 1], name);
      var j :| 0 <= j < n - 1 && name == ControlPrefix(tuples[..n - 1][j]) + baseName;
      assert tuples[..n - 1][j] == tuples[j];
    }
  }

  lemma DefaultTuplesAreDigits(maxControls: nat, a: nat)
    requires a < |AllTuples(DefaultControlTypes, maxControls)|
    ensures DigitControls(AllTuples(DefaultControlTypes, maxControls)[a])
  {
    var n, p := TupleOrigin(DefaultControlTypes, maxControls, a);
    ProductSound(DefaultControlTypes, n, p);
    var t := AllTuples(DefaultControlTypes, maxControls)[a];
    forall i | 0 <= i < |t| ensures |t[i]| >= 1 && forall b :: 0 <= b < |t[i]| ==> 0 <= t[i][b] <= 9 {
      assert t[i] in DefaultControlTypes;
    }
  }

  /** With the package's six control types, the table holds, under the name CxCy..base, the
    * controlled gate with exactly those control tuples, for every tuple of 1..maxControls
    * controls. */
  lemma DefaultTableEntries(base: Gate, baseName: string, maxControls: nat, n: nat, t: seq<seq<int>>)
    requires PlainName(baseName)
    requires 1 <= n <= maxControls && IsTuple(DefaultControlTypes, n, t)
    ensures var table := Fill(base, baseName, AllTuples(DefaultControlTypes, maxControls));
      ControlPrefix(t) + baseName in table && table[ControlPrefix(t) + baseName] == Controlled(base, t)
  {
    var all := AllTuples(DefaultControlTypes, maxControls);
    forall a | 0 <= a < |all| ensures DigitControls(all[a]) { DefaultTuplesAreDigits(maxControls, a); }
    var j := TupleIndex(DefaultControlTypes, maxControls, n, t);
    FillLookup(base, baseName, all, j);
  }

  /** ... and nothing else: every name in the table is that of such a tuple. */
  lemma DefaultTableNames(base: Gate, baseName: string, maxControls: nat, name: string)
    requires name in Fill(base, baseName, AllTuples(DefaultControlTypes, maxControls))
    ensures exists n, t :: 1 <= n <= maxControls && IsTuple(DefaultControlTypes, n, t) && name == ControlPrefix(t) + baseName
  {
    var all := AllTuples(DefaultControlTypes, maxControls);
    FillKeys(base, baseName, all, name);
    var j :| 0 <= j < |all| && name == ControlPrefix(all[j]) + baseName;
    var n, p := TupleOrigin(DefaultControlTypes, maxControls, j);
    ProductSound(DefaultControlTypes, n, p);
  }

  /** Where a tuple of n controls sits in the enumeration. */
  lemma {:induction false} TupleIndex(types: seq<seq<int>>, maxControls: nat, n: nat, t: seq<seq<int>>) returns (j: nat)
    requires 1 <= n <= maxControls && IsTuple(types, n, t)
    ensures j < |AllTuples(types, maxControls)| && AllTuples(types, maxControls)[j] == t
  {
    var prev := AllTuples(types, maxControls - 1);
    var here := Product(types, maxControls);
    assert AllTuples(types, maxControls) == prev + here;
    if n == maxControls {
      var p := ProductComplete(types, n, t);
      j := |prev| + p;
      AtRight(prev, here, p);
    } else {
      j := TupleIndex(types, maxControls - 1, n, t);
      AtLeft(prev, here, j);
    }
  }

  /** Every enumerated tuple comes from the product for some number of controls in 1..maxControls. */
  lemma {:induction false} TupleOrigin(types: seq<seq<int>>, maxControls: nat, j: nat) returns (n: nat, p: nat)
    requires j < |AllTuples(types, maxControls)|
    ensures 1 <= n <= maxControls && p < |Product(types, n)| && AllTuples(types, maxControls)[j] == Product(types, n)[p]
  {
    var prev := AllTuples(types, maxControls - 1);
    var here := Product(types, maxControls);
    assert AllTuples(types, maxControls) == prev + here;
    if j < |prev| {
      n, p := TupleOrigin(types, maxControls - 1, j);
      AtLeft(prev, here, j);
    } else {
      n, p := maxControls, j - |prev|;
      AtRight(prev, here, p);
    }
  }}
