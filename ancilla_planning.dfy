/** The planning test of plus_k_gate.py: whether the zero bits and the long groups of one bits of
  * the constant k leave enough qutrits free to generate the ancilla that the logarithmic-depth
  * carry network needs. */
module AncillaPlanning {
  import opened Wrappers

  /** The index that `max((-k_i, i) for i, k_i in enumerate(k))` picks among the first n bits:
    * a later index wins unless it holds a one while the best so far holds a zero. */
  function MaxKeyIndex(k: seq<bool>, n: nat): (r: nat)
    requires 1 <= n <= |k|
    ensures r < n
  {
    if n == 1 then 0
    else
      var m := MaxKeyIndex(k, n - 1);
      if !k[n - 1] || k[m] then n - 1 else m
  }

  /** The pick is the last zero bit, or the last bit when all of them are ones. */
  lemma {:induction false} MaxKeyIndexIsLastZero(k: seq<bool>, n: nat)
    requires 1 <= n <= |k|
    ensures var r := MaxKeyIndex(k, n);
      (!k[r] ==> forall j :: r < j < n ==> k[j]) &&
      (k[r] ==> r == n - 1 && forall j :: 0 <= j < n ==> k[j])
  {
    if n > 1 {
      MaxKeyIndexIsLastZero(k, n - 1);
    }
  }

  /** last_zero_k_i: the index of the last zero bit of k, or -1 when k has none. */
  function LastZero(k: seq<bool>): (r: int)
    requires |k| > 0
    ensures -1 <= r < |k|
    ensures r >= 0 ==> !k[r]
    ensures forall j :: r < j < |k| ==> k[j]
  {
    var m := MaxKeyIndex(k, |k|);
    MaxKeyIndexIsLastZero(k, |k|);
    if k[m] then -1 else m
  }

  /** The number of one bits right before position j. */
  function RunBefore(k: seq<bool>, j: nat): (r: nat)
    requires j <= |k|
    ensures r <= j
  {
    if j == 0 || !k[j - 1] then 0 else RunBefore(k, j - 1) + 1
  }

  /** Position j frees a qutrit: a zero bit, or a one bit with at least five ones of its group
    * before it (the group's beyond-five part). */
  predicate FreeAt(k: seq<bool>, j: nat)
    requires j < |k|
  {
    !k[j] || RunBefore(k, j) >= 5
  }

  /** Position j needs an input slot in layer 3: a zero bit closing a group of one to three ones. */
  predicate InputAt(k: seq<bool>, j: nat)
    requires j < |k|
  {
    !k[j] && 1 <= RunBefore(k, j) <= 3
  }

  function FreeCount(k: seq<bool>, n: nat): nat
    requires n <= |k|
  {
    if n == 0 then 0 else FreeCount(k, n - 1) + (if FreeAt(k, n - 1) then 1 else 0)
  }

  function InputCount(k: seq<bool>, n: nat): nat
    requires n <= |k|
  {
    if n == 0 then 0 else InputCount(k, n - 1) + (if InputAt(k, n - 1) then 1 else 0)
  }

  /** The bits the planner works on: with a carry in, bit 0 is forced on. */
  function Planned(k: seq<bool>, carryIn: bool): seq<bool>
    requires |k| > 0
  {
    if carryIn then k[0 := true] else k
  }

  /** The trailing ones after the last zero bit. */
  function TrailingOnes(k: seq<bool>): nat
    requires |k| > 0
  {
    |k| - (LastZero(k) + 1)
  }

  /** free_count at the end: freed positions up to the last zero, plus all but one trailing one
    * when more than one trails. */
  function Free(k: seq<bool>): nat
    requires |k| > 0
  {
    var t := TrailingOnes(k);
    FreeCount(k, LastZero(k) + 1) + (if t > 1 then t - 1 else 0)
  }

  /** input_count at the end: short groups, plus one for a trailing run of more than one one. */
  function Inputs(k: seq<bool>): nat
    requires |k| > 0
  {
    InputCount(k, LastZero(k) + 1) + (if TrailingOnes(k) > 1 then 1 else 0)
  }

  /** _can_make_enough_ancilla. The carry-in test reads k[0] (an IndexError on an empty k) and the
    * max over an empty k is a ValueError. */
  function EnoughAncilla(k: seq<bool>, carryIn: bool, hasCarryAncilla: bool): Result<bool>
  {
    if carryIn && !hasCarryAncilla then Ok(false)
    else if |k| == 0 then Err(if carryIn then IndexError else ValueError)
    else
      var p := Planned(k, carryIn);
      var anc := Free(p) / 3;
      Ok(if anc == 0 then Inputs(p) == 0 else (Inputs(p) + anc - 1) / anc <= 4)
  }

  /** The final test is ceil(input_count / ancilla_count) <= 4, which says that four controls per
    * ancilla suffice for all the inputs; with no ancilla at all only zero inputs fit. */
  lemma EnoughAncillaMeaning(k: seq<bool>, carryIn: bool, hasCarryAncilla: bool)
    requires |k| > 0 && (carryIn ==> hasCarryAncilla)
    ensures var p := Planned(k, carryIn);
      EnoughAncilla(k, carryIn, hasCarryAncilla) == Ok(Inputs(p) <= 4 * (Free(p) / 3))
  {
    var p := Planned(k, carryIn);
    var anc := Free(p) / 3;
    if anc > 0 {
      CeilAtMost(Inputs(p), anc, 4);
    }
  }

  /** (x + a - 1) // a <= c exactly when x <= c * a. */
  lemma CeilAtMost(x: nat, a: nat, c: nat)
    requires a > 0
    ensures (x + a - 1) / a <= c <==> x <= c * a
  {
    var q := (x + a - 1) / a;
    assert q * a <= x + a - 1 < q * a + a;
    if x <= c * a {
      assert q * a < c * a + a;
      MulLess(q, c + 1, a);
    } else {
      assert (c + 1) * a <= x + a - 1;
      MulLess(c, q, a);
    }
  }

  lemma MulLess(p: nat, q: nat, a: nat)
    requires a > 0 && p * a < q * a
    ensures p < q
  {
  }

  /** A k of two or more ones and no zero is one trailing run: one input and all but one bit
    * free, so the ancilla suffice exactly when k has at least four bits. */
  lemma AllOnes(k: seq<bool>)
    requires |k| >= 2 && forall j :: 0 <= j < |k| ==> k[j]
    ensures Inputs(k) == 1 && Free(k) == |k| - 1
    ensures EnoughAncilla(k, false, false) == Ok(|k| >= 4)
  {
    EnoughAncillaMeaning(k, false, false);
  }

  /** The counter loop of _can_make_enough_ancilla: one_group, free_count and input_count updated
    * bit by bit over k[:last_zero_k_i+1], then the trailing ones and the final division. */
  method CanMakeEnoughAncilla(k: seq<bool>, carryIn: bool, hasCarryAncilla: bool) returns (r: Result<bool>)
    ensures r == EnoughAncilla(k, carryIn, hasCarryAncilla)
  {
    if carryIn && !hasCarryAncilla {
      return Ok(false);
    }
    if |k| == 0 {
      return Err(if carryIn then IndexError else ValueError);
    }
    var bits := k;
    if carryIn && !bits[0] {
      bits := bits[0 := true];
    }
    assert bits == Planned(k, carryIn);
    var oneGroup: nat := 0;
    var freeCount: nat := 0;
    var inputCount: nat := 0;
    var last := LastZero(bits);
    var i := 0;
    while i < last + 1
      invariant 0 <= i <= last + 1
      invariant oneGroup == RunBefore(bits, i)
      invariant freeCount + (if oneGroup > 5 then oneGroup - 5 else 0) == FreeCount(bits, i)
      invariant inputCount == InputCount(bits, i)
    {
      if bits[i] {
        oneGroup := oneGroup + 1;
      } else if oneGroup > 0 {
        if oneGroup > 5 {
          freeCount := freeCount + oneGroup - 5;
        }
        if oneGroup <= 3 {
          inputCount := inputCount + 1;
        }
        oneGroup := 0;
      }
      if !bits[i] {
        freeCount := freeCount + 1;
      }
      i := i + 1;
    }
    var trailing := |bits| - (last + 1);
    if trailing > 1 {
      inputCount := inputCount + 1;
      freeCount := freeCount + trailing - 1;
    }
    var ancillaCount := freeCount / 3;
    if ancillaCount == 0 {
      return Ok(inputCount == 0);
    }
    return Ok((inputCount + ancillaCount - 1) / ancillaCount <= 4);
  }
}
