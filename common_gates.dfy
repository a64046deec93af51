/** CommonGates: the five single-qutrit gates (+1, -1 and the three swaps of two values) and the
  * table of their controlled versions with up to four controls. */
module CommonGates {
  import opened Wrappers
  import opened Gates
  import opened ControlledTernaryGate

  /** The one trit a base gate computes from t. */
  function Step(g: Gate, t: int): int
    requires IsBaseGate(g)
  {
    if g.PlusOne? then (t + 1) % 3
    else if g.MinusOne? then (t - 1) % 3
    else if g.Flip01? then (t * 2 + 1) % 3
    else if g.Flip02? then (t * 2 - 1) % 3
    else (t * 2) % 3
  }

  /** applied_to_trits of a base gate: only trits[0] is read, and a one-trit list comes back. */
  function Applied(g: Gate, trits: seq<int>): (r: Result<seq<int>>)
    requires IsBaseGate(g)
    ensures r.Err? <==> trits == []
    ensures r.Err? ==> r.error == IndexError
    ensures r.Ok? ==> |r.value| == 1 && IsTrit(r.value[0])
  {
    if trits == [] then Err(IndexError) else Ok([Step(g, trits[0])])
  }

  /** validate_trits of a base gate: exactly one trit, in range. */
  predicate Valid(trits: seq<int>)
  {
    ValidTrits(trits) && |trits| == 1
  }

  /** Each gate as the permutation of 0, 1, 2 it names: position t holds the image of t. */
  function Permutation(g: Gate): (p: seq<int>)
    requires IsBaseGate(g)
    ensures |p| == 3
  {
    match g
    case PlusOne => [1, 2, 0]
    case MinusOne => [2, 0, 1]
    case Flip01 => [1, 0, 2]
    case Flip02 => [2, 1, 0]
    case Flip12 => [0, 2, 1]
  }

  /** The modular formulas compute exactly those permutations: +1 and -1 rotate, and the flips
    * swap their two values and fix the third. */
  lemma StepIsPermutation(g: Gate, t: int)
    requires IsBaseGate(g) && IsTrit(t)
    ensures Applied(g, [t]) == Ok([Permutation(g)[t]])
  {
  }

  /** A base gate followed by the gate its inverse() names gives the trit back. */
  lemma InverseUndoes(g: Gate, t: int)
    requires IsBaseGate(g) && IsTrit(t)
    ensures Inverse(g).Some? && IsBaseGate(Inverse(g).value)
    ensures Applied(Inverse(g).value, Applied(g, [t]).value) == Ok([t])
  {
  }

  /** Flips are their own inverses, so applying one twice is the identity. */
  lemma FlipInvolution(g: Gate, t: int)
    requires (g.Flip01? || g.Flip02? || g.Flip12?) && IsTrit(t)
    ensures Inverse(g) == Some(g) && Applied(g, Applied(g, [t]).value) == Ok([t])
  {
    InverseUndoes(g, t);
  }

  /** A base gate is a bijection on trits. */
  lemma StepInjective(g: Gate, s: int, t: int)
    requires IsBaseGate(g) && IsTrit(s) && IsTrit(t) && Step(g, s) == Step(g, t)
    ensures s == t
  {
  }

  // ---- The controlled-gate table ----

  const BaseNames: seq<string> := ["PlusOne", "MinusOne", "F01", "F02", "F12"]
  const BaseGates: seq<Gate> := [PlusOne, MinusOne, Flip01, Flip02, Flip12]

  /** The table after the first k base gates' controlled versions were added (dict.update). */
  function Table(maxControls: nat, k: nat): map<string, Gate>
    requires k <= |BaseGates|
  {
    if k == 0 then map[]
    else Table(maxControls, k - 1) + Fill(BaseGates[k - 1], BaseNames[k - 1], AllTuples(DefaultControlTypes, maxControls))
  }

  /** The module-level loop building controlled_gates; the package runs it with max_controls = 4. */
  method ControlledGates(maxControls: nat) returns (table: map<string, Gate>)
    ensures table == Table(maxControls, |BaseGates|)
  {
    table := map[];
    var i := 0;
    while i < |BaseGates|
      invariant 0 <= i <= |BaseGates|
      invariant table == Table(maxControls, i)
    {
      var part := AllControlledGates(BaseGates[i], BaseNames[i], maxControls, DefaultControlTypes);
      table := table + part;
      i := i + 1;
    }
  }

  /** The five base names are distinct and none starts with C or a digit. */
  lemma BaseNamesPlain(b: nat, c: nat)
    requires b < |BaseNames| && c < |BaseNames|
    ensures PlainName(BaseNames[b]) && (b != c ==> BaseNames[b] != BaseNames[c])
  {
  }

  lemma TupleDigits(n: nat, t: seq<seq<int>>)
    requires IsTuple(DefaultControlTypes, n, t)
    ensures DigitControls(t)
  {
    forall i | 0 <= i < |t| ensures |t[i]| >= 1 && forall b :: 0 <= b < |t[i]| ==> 0 <= t[i][b] <= 9 {
      assert t[i] in DefaultControlTypes;
    }
  }

  /** A name in one base gate's part of the table ends in that base gate's name. */
  lemma NameDeterminesBase(maxControls: nat, t: seq<seq<int>>, baseName: string, g: Gate, other: string)
    requires DigitControls(t) && PlainName(baseName) && PlainName(other)
    ensures ControlPrefix(t) + baseName in Fill(g, other, AllTuples(DefaultControlTypes, maxControls)) ==> baseName == other
  {
    var name := ControlPrefix(t) + baseName;
    if name in Fill(g, other, AllTuples(DefaultControlTypes, maxControls)) {
      DefaultTableNames(g, other, maxControls, name);
      var n2, t2 :| 1 <= n2 <= maxControls && IsTuple(DefaultControlTypes, n2, t2) && name == ControlPrefix(t2) + other;
      TupleDigits(n2, t2);
      ParseControlPrefix(t, baseName);
      ParseControlPrefix(t2, other);
    }
  }

  /** Every controlled version of every base gate is in the table under its own name; no base
    * gate's entries overwrite another's. */
  lemma {:induction false} TableEntry(maxControls: nat, k: nat, b: nat, n: nat, t: seq<seq<int>>)
    requires b < k <= |BaseGates| && 1 <= n <= maxControls && IsTuple(DefaultControlTypes, n, t)
    ensures ControlPrefix(t) + BaseNames[b] in Table(maxControls, k)
    ensures Table(maxControls, k)[ControlPrefix(t) + BaseNames[b]] == Controlled(BaseGates[b], t)
  {
    if b == k - 1 {
      DefaultTableEntries(BaseGates[b], BaseNames[b], maxControls, n, t);
    } else {
      TableEntry(maxControls, k - 1, b, n, t);
      TupleDigits(n, t);
      BaseNamesPlain(b, k - 1);
      BaseNamesPlain(k - 1, b);
      NameDeterminesBase(maxControls, t, BaseNames[b], BaseGates[k - 1], BaseNames[k - 1]);
    }
  }

  /** ... and the table holds nothing else. */
  lemma {:induction false} TableNames(maxControls: nat, k: nat, name: string)
    requires k <= |BaseGates| && name in Table(maxControls, k)
    ensures exists b, n, t ::
      (0 <= b < k && 1 <= n <= maxControls && IsTuple(DefaultControlTypes, n, t) && name == ControlPrefix(t) + BaseNames[b])
  {
    var part := Fill(BaseGates[k - 1], BaseNames[k - 1], AllTuples(DefaultControlTypes, maxControls));
    if name in part {
      DefaultTableNames(BaseGates[k - 1], BaseNames[k - 1], maxControls, name);
      var n, t :| 1 <= n <= maxControls && IsTuple(DefaultControlTypes, n, t) && name == ControlPrefix(t) + BaseNames[k - 1];
      assert k - 1 < k;
    } else {
      TableNames(maxControls, k - 1, name);
    }
  }
}
