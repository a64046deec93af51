/** The qubit planning of IncrementLinearWithBorrowedBitGate
  * (cirq/ops/incrementer_borrowedbit_gate.py): how the register is split into a top and a bottom
  * half, how each half is interleaved with qubits borrowed from the rest of the register, and
  * when the recursive split stops. Qubits are identified by number. */
module IncrementerBorrowedBitGate {
  import opened Wrappers
  import opened CnxBorrowedBitGate

  /** Every qubit of xs is one of `qubits`. */
  predicate Within(xs: seq<Qubit>, qubits: seq<Qubit>)
  {
    forall i :: 0 <= i < |xs| ==> xs[i] in qubits
  }

  function Elements(xs: seq<Qubit>): set<Qubit> { set x | x in xs }

  // ---------------------------------------------------------------------------------------------
  // _find_borrowable

  /** The position of the first qubit of `qubits` that `current` does not hold, or |qubits|. */
  function FirstOutside(current: seq<Qubit>, qubits: seq<Qubit>): (i: nat)
    ensures i <= |qubits|
    decreases |qubits|
  {
    if qubits == [] || qubits[0] !in current then 0 else 1 + FirstOutside(current, qubits[1..])
  }

  /** It is the first such position: every qubit listed before it is in `current`. */
  lemma {:induction false} FirstOutsideMeaning(current: seq<Qubit>, qubits: seq<Qubit>)
    ensures FirstOutside(current, qubits) < |qubits| ==>
      qubits[FirstOutside(current, qubits)] !in current
    ensures forall j :: 0 <= j < FirstOutside(current, qubits) ==> qubits[j] in current
    decreases |qubits|
  {
    if qubits != [] && qubits[0] in current {
      var t := qubits[1..];
      FirstOutsideMeaning(current, t);
      forall j | 0 < j < FirstOutside(current, qubits) ensures qubits[j] in current {
        assert qubits[j] == t[j - 1];
      }
    }
  }

  /** The first qubit outside `current` sits at i when every earlier qubit is inside. */
  lemma FirstOutsideAt(current: seq<Qubit>, qubits: seq<Qubit>, i: nat)
    requires i < |qubits| && qubits[i] !in current
    requires forall j :: 0 <= j < i ==> qubits[j] in current
    ensures FirstOutside(current, qubits) == i
  {
    FirstOutsideMeaning(current, qubits);
  }

  /** What _find_borrowable answers: [q] for that first qubit, None when there is none. */
  function Borrowable(current: seq<Qubit>, qubits: seq<Qubit>): Option<Qubit>
  {
    var i := FirstOutside(current, qubits);
    if i < |qubits| then Some(qubits[i]) else None
  }

  /** _find_borrowable: the scan over `qubits` that returns at the first one outside `current`. */
  method FindBorrowable(current: seq<Qubit>, qubits: seq<Qubit>) returns (r: Option<Qubit>)
    ensures r == Borrowable(current, qubits)
  {
    FirstOutsideMeaning(current, qubits);
    var i := 0;
    while i < |qubits|
      invariant 0 <= i <= |qubits|
      invariant forall j :: 0 <= j < i ==> qubits[j] in current
    {
      if qubits[i] !in current {
        return Some(qubits[i]);
      }
      i := i + 1;
    }
    return None;
  }

  /** A qubit is borrowable exactly when some qubit lies outside `current`; it is then outside
    * `current`, and every qubit listed before it is inside. */
  lemma BorrowableMeaning(current: seq<Qubit>, qubits: seq<Qubit>)
    ensures Borrowable(current, qubits).None? <==> Within(qubits, current)
    ensures Borrowable(current, qubits).Some? ==>
      exists i :: 0 <= i < |qubits| && qubits[i] == Borrowable(current, qubits).value &&
        qubits[i] !in current && Within(qubits[..i], current)
  {
    FirstOutsideMeaning(current, qubits);
    var i := FirstOutside(current, qubits);
    if i < |qubits| {
      assert Within(qubits[..i], current) by {
        forall j | 0 <= j < i ensures qubits[..i][j] in current { assert qubits[..i][j] == qubits[j]; }
      }
    }
  }

  /** A borrowed qubit is one of `qubits` and not one of `current`. */
  lemma BorrowedFresh(current: seq<Qubit>, qubits: seq<Qubit>)
    requires Borrowable(current, qubits).Some?
    ensures Borrowable(current, qubits).value in qubits
    ensures Borrowable(current, qubits).value !in current
  {
    FirstOutsideMeaning(current, qubits);
  }

  // ---------------------------------------------------------------------------------------------
  // _prepare_bb_bits

  /** new_list after the first k rounds of _prepare_bb_bits: each round appends the first qubit
    * outside current + new_list, then current's next qubit. Indexing the None that
    * _find_borrowable returns when nothing is left raises TypeError. */
  function PrepareRounds(current: seq<Qubit>, qubits: seq<Qubit>, k: nat): Result<seq<Qubit>>
    requires k <= |current|
  {
    if k == 0 then Ok([])
    else
      match PrepareRounds(current, qubits, k - 1)
      case Err(e) => Err(e)
      case Ok(prefix) =>
        match Borrowable(current + prefix, qubits)
        case None => Err(TypeError)
        case Some(b) => Ok(prefix + [b, current[k - 1]])
  }

  function PreparedBits(current: seq<Qubit>, qubits: seq<Qubit>): Result<seq<Qubit>>
  {
    PrepareRounds(current, qubits, |current|)
  }

  /** _prepare_bb_bits: the loop that builds new_list. */
  method PrepareBbBits(current: seq<Qubit>, qubits: seq<Qubit>) returns (r: Result<seq<Qubit>>)
    ensures r == PreparedBits(current, qubits)
  {
    var newList := [];
    var k := 0;
    while k < |current|
      invariant 0 <= k <= |current|
      invariant PrepareRounds(current, qubits, k) == Ok(newList)
    {
      var found := FindBorrowable(current + newList, qubits);
      if found.None? {
        PrepareStops(current, qubits, k + 1);
        return Err(TypeError);
      }
      newList := newList + [found.value, current[k]];
      k := k + 1;
    }
    return Ok(newList);
  }

  /** Once a round fails, every later round reports the same error. */
  lemma {:induction false} PrepareStops(current: seq<Qubit>, qubits: seq<Qubit>, k: nat)
    requires 0 < k <= |current| && PrepareRounds(current, qubits, k - 1).Ok?
    requires Borrowable(current + PrepareRounds(current, qubits, k - 1).value, qubits).None?
    ensures PreparedBits(current, qubits) == Err(TypeError)
    decreases |current| - k
  {
    if k < |current| {
      PrepareStopsLater(current, qubits, k, |current|);
    }
  }

  lemma {:induction false} PrepareStopsLater(current: seq<Qubit>, qubits: seq<Qubit>, k: nat, m: nat)
    requires 0 < k <= m <= |current| && PrepareRounds(current, qubits, k - 1).Ok?
    requires Borrowable(current + PrepareRounds(current, qubits, k - 1).value, qubits).None?
    ensures PrepareRounds(current, qubits, m) == Err(TypeError)
    decreases m
  {
    if m > k {
      PrepareStopsLater(current, qubits, k, m - 1);
    }
  }

  /** The layout _linear_increment_n_bb expects after k rounds: current's qubits at the odd
    * positions in order, each preceded by a qubit of `qubits` that is neither in `current` nor
    * earlier in the list. */
  predicate Interleaved(current: seq<Qubit>, qubits: seq<Qubit>, l: seq<Qubit>, k: nat)
    requires k <= |current|
  {
    |l| == 2 * k &&
    (forall i :: 0 <= i < k ==> l[2 * i + 1] == current[i]) &&
    (forall i :: 0 <= i < k ==> l[2 * i] in qubits && l[2 * i] !in current) &&
    (forall i, j :: 0 <= i < k && 0 <= j < 2 * i ==> l[2 * i] != l[j])
  }

  lemma {:induction false} RoundsInterleave(current: seq<Qubit>, qubits: seq<Qubit>, k: nat)
    requires k <= |current| && PrepareRounds(current, qubits, k).Ok?
    ensures Interleaved(current, qubits, PrepareRounds(current, qubits, k).value, k)
  {
    if k > 0 {
      RoundsInterleave(current, qubits, k - 1);
      var prefix := PrepareRounds(current, qubits, k - 1).value;
      var b := Borrowable(current + prefix, qubits).value;
      var l := prefix + [b, current[k - 1]];
      BorrowedFresh(current + prefix, qubits);
      assert l[2 * (k - 1)] == b && l[2 * (k - 1) + 1] == current[k - 1];
      forall i | 0 <= i < k - 1 ensures l[2 * i] == prefix[2 * i] && l[2 * i + 1] == prefix[2 * i + 1] { }
      forall i, j | 0 <= i < k && 0 <= j < 2 * i ensures l[2 * i] != l[j] {
        if i < k - 1 {
          assert l[2 * i] == prefix[2 * i] && l[j] == prefix[j];
        } else {
          assert l[j] == prefix[j] && prefix[j] in current + prefix;
        }
      }
    }
  }

  /** A successful _prepare_bb_bits list is twice as long as `current`, holds current's qubits
    * at the odd positions in order, and puts before each one a qubit borrowed from outside
    * `current` and outside the earlier picks. */
  lemma PreparedInterleaved(current: seq<Qubit>, qubits: seq<Qubit>)
    requires PreparedBits(current, qubits).Ok?
    ensures Interleaved(current, qubits, PreparedBits(current, qubits).value, |current|)
  {
    RoundsInterleave(current, qubits, |current|);
  }

  lemma {:induction false} SubsetCard(a: set<Qubit>, b: set<Qubit>)
    requires a <= b
    ensures |a| <= |b|
    decreases |a|
  {
    if a != {} {
      var x :| x in a;
      SubsetCard(a - {x}, b - {x});
    }
  }

  lemma {:induction false} DistinctCard(xs: seq<Qubit>)
    requires Distinct(xs)
    ensures |Elements(xs)| == |xs|
    decreases |xs|
  {
    if xs != [] {
      var t := xs[1..];
      assert Distinct(t) by {
        forall i, j | 0 <= i < j < |t| ensures t[i] != t[j] { assert t[i] == xs[i + 1] && t[j] == xs[j + 1]; }
      }
      DistinctCard(t);
      assert Elements(xs) == Elements(t) + {xs[0]};
      assert xs[0] !in Elements(t) by {
        forall i | 0 <= i < |t| ensures t[i] != xs[0] { assert t[i] == xs[i + 1]; }
      }
    }
  }

  /** Over distinct `qubits`, some qubit is outside a list drawn from them exactly when that list
    * holds fewer different qubits than there are. */
  lemma BorrowableCount(held: seq<Qubit>, qubits: seq<Qubit>)
    requires Distinct(qubits) && Within(held, qubits)
    ensures Borrowable(held, qubits).Some? <==> |Elements(held)| < |qubits|
  {
    BorrowableMeaning(held, qubits);
    DistinctCard(qubits);
    assert Elements(held) <= Elements(qubits);
    if Borrowable(held, qubits).None? {
      assert Elements(qubits) <= Elements(held);
      SubsetCard(Elements(qubits), Elements(held));
    } else {
      var q := Borrowable(held, qubits).value;
      assert q in qubits && q !in held;
      SubsetCard(Elements(held), Elements(qubits) - {q});
    }
  }

  /** After k successful rounds the rounds have drawn only from `qubits`, and current + new_list
    * holds |current| + k different qubits. */
  lemma {:induction false} RoundsCount(current: seq<Qubit>, qubits: seq<Qubit>, k: nat)
    requires k <= |current| && Distinct(current) && Within(current, qubits)
    requires PrepareRounds(current, qubits, k).Ok?
    ensures Within(current + PrepareRounds(current, qubits, k).value, qubits)
    ensures |Elements(current + PrepareRounds(current, qubits, k).value)| == |current| + k
  {
    var l := PrepareRounds(current, qubits, k).value;
    if k == 0 {
      assert current + l == current;
      DistinctCard(current);
    } else {
      RoundsCount(current, qubits, k - 1);
      var prefix := PrepareRounds(current, qubits, k - 1).value;
      var b := Borrowable(current + prefix, qubits).value;
      BorrowedFresh(current + prefix, qubits);
      assert l == prefix + [b, current[k - 1]];
      assert current + l == (current + prefix) + [b, current[k - 1]];
      assert Elements(current + l) == Elements(current + prefix) + {b};
      assert b !in Elements(current + prefix);
      forall i | 0 <= i < |current + l| ensures (current + l)[i] in qubits {
        if i < |current + prefix| {
          assert (current + l)[i] == (current + prefix)[i];
        }
      }
    }
  }

  /** Round k succeeds exactly when the earlier rounds did and a qubit was left to borrow. */
  lemma RoundStep(current: seq<Qubit>, qubits: seq<Qubit>, k: nat)
    requires 0 < k <= |current|
    ensures PrepareRounds(current, qubits, k).Ok? <==>
      PrepareRounds(current, qubits, k - 1).Ok? &&
      Borrowable(current + PrepareRounds(current, qubits, k - 1).value, qubits).Some?
  {
  }

  lemma {:induction false} RoundsOk(current: seq<Qubit>, qubits: seq<Qubit>, k: nat)
    requires k <= |current| && Distinct(qubits) && Distinct(current) && Within(current, qubits)
    ensures PrepareRounds(current, qubits, k).Ok? <==> k == 0 || |current| + k <= |qubits|
  {
    if k > 0 {
      RoundsOk(current, qubits, k - 1);
      RoundStep(current, qubits, k);
      var prev := PrepareRounds(current, qubits, k - 1);
      if prev.Ok? {
        var held := current + prev.value;
        RoundsCount(current, qubits, k - 1);
        assert Within(held, qubits) && |Elements(held)| == |current| + k - 1;
        BorrowableCount(held, qubits);
      }
    }
  }

  /** Over distinct qubits, _prepare_bb_bits of a distinct list drawn from them succeeds exactly
    * when there are at least twice as many qubits as the list holds; otherwise it raises
    * TypeError. */
  lemma PreparedOk(current: seq<Qubit>, qubits: seq<Qubit>)
    requires Distinct(qubits) && Distinct(current) && Within(current, qubits)
    ensures PreparedBits(current, qubits).Ok? <==> 2 * |current| <= |qubits|
    ensures PreparedBits(current, qubits).Err? ==> PreparedBits(current, qubits).error == TypeError
  {
    RoundsOk(current, qubits, |current|);
    RoundsError(current, qubits, |current|);
  }

  lemma {:induction false} RoundsError(current: seq<Qubit>, qubits: seq<Qubit>, k: nat)
    requires k <= |current|
    ensures PrepareRounds(current, qubits, k).Err? ==> PrepareRounds(current, qubits, k).error == TypeError
  {
    if k > 0 {
      RoundsError(current, qubits, k - 1);
    }
  }

  // ---------------------------------------------------------------------------------------------
  // _split_incrementer_borrowed_bit

  /** (len(current) - 1) // 2 + 1; Dafny's division agrees with Python's floor division for a
    * positive divisor, and for the empty list this is 0. */
  function TopLength(n: nat): nat { (n - 1) / 2 + 1 }

  function Top(current: seq<Qubit>): seq<Qubit> { current[..TopLength(|current|)] }

  function Bottom(current: seq<Qubit>): seq<Qubit> { current[TopLength(|current|)..] }

  /** The halves put back together are `current`, and the top half is the longer by at most one. */
  lemma SplitHalves(current: seq<Qubit>)
    ensures Top(current) + Bottom(current) == current
    ensures |Bottom(current)| <= |Top(current)| <= |Bottom(current)| + 1
  {
  }

  /** How one level of the split ends: the top half incremented directly with its prepared
    * borrowed bits, or split again after taking one more qubit. */
  datatype Next = Finish(topPlan: seq<Qubit>) | Descend(current: seq<Qubit>)

  /** The qubit lists one level of the split hands to its sub-gates: the prepared list for the
    * bottom increments (lines 63 and 82), the CnX qubit list (72), and how the level ends. */
  datatype Level = Level(top: seq<Qubit>, bottom: seq<Qubit>, bottomPlan: seq<Qubit>,
                         cnxQubits: seq<Qubit>, next: Next)

  /** [bottom_half[-1]] + bottom_half[:-1]. */
  function Rotated(bottom: seq<Qubit>): seq<Qubit>
    requires bottom != []
  {
    [bottom[|bottom| - 1]] + bottom[..|bottom| - 1]
  }

  /** Lines 98-104: finish when the top half fits twice into the register, else take the first
    * qubit of `current` outside the top half and split again; appending the None that
    * _find_borrowable returns when there is none raises TypeError. */
  function LevelEnd(top: seq<Qubit>, current: seq<Qubit>, qubits: seq<Qubit>): Result<Next>
  {
    if 2 * |top| <= |qubits| then
      match PreparedBits(top, qubits)
      case Err(e) => Err(e)
      case Ok(topPlan) => Ok(Finish(topPlan))
    else
      match Borrowable(top, current)
      case None => Err(TypeError)
      case Some(b) => Ok(Descend(top + [b]))
  }

  /** One call of _split_incrementer_borrowed_bit. An empty bottom half makes bottom_half[-1]
    * raise IndexError; a failed preparation raises TypeError. */
  function SplitLevel(current: seq<Qubit>, qubits: seq<Qubit>): Result<Level>
  {
    var top := Top(current);
    var bottom := Bottom(current);
    if bottom == [] then Err(IndexError)
    else
      match PreparedBits(Rotated(bottom), qubits)
      case Err(e) => Err(e)
      case Ok(bottomPlan) =>
        match LevelEnd(top, current, qubits)
        case Err(e) => Err(e)
        case Ok(next) =>
          Ok(Level(top, bottom, bottomPlan, top + [bottom[|bottom| - 1], bottom[0]], next))
  }

  lemma SliceDistinct(xs: seq<Qubit>, lo: nat, hi: nat)
    requires Distinct(xs) && lo <= hi <= |xs|
    ensures Distinct(xs[lo..hi])
  {
    forall i, j | 0 <= i < j < hi - lo ensures xs[lo..hi][i] != xs[lo..hi][j] {
      assert xs[lo..hi][i] == xs[lo + i] && xs[lo..hi][j] == xs[lo + j];
    }
  }

  lemma SliceWithin(xs: seq<Qubit>, qubits: seq<Qubit>, lo: nat, hi: nat)
    requires Within(xs, qubits) && lo <= hi <= |xs|
    ensures Within(xs[lo..hi], qubits)
  {
    forall i | 0 <= i < hi - lo ensures xs[lo..hi][i] in qubits { assert xs[lo..hi][i] == xs[lo + i]; }
  }

  /** The bottom half of a distinct list drawn from distinct qubits, rotated as line 63 passes
    * it, is prepared whenever it fits twice into the register. */
  lemma BottomPrepared(current: seq<Qubit>, qubits: seq<Qubit>)
    requires Distinct(qubits) && Distinct(current) && Within(current, qubits)
    requires Bottom(current) != [] && 2 * |Bottom(current)| <= |qubits|
    ensures PreparedBits(Rotated(Bottom(current)), qubits).Ok?
  {
    var b := Bottom(current);
    var r := Rotated(b);
    SliceDistinct(current, TopLength(|current|), |current|);
    SliceWithin(current, qubits, TopLength(|current|), |current|);
    forall i | 0 <= i < |r| ensures r[i] == b[if i == 0 then |b| - 1 else i - 1] { }
    assert Distinct(r);
    assert Within(r, qubits);
    PreparedOk(r, qubits);
  }

  /** How a level over a distinct list drawn from distinct qubits ends: it finishes exactly when
    * the top half fits twice into the register, and otherwise descends into the top half plus
    * the first qubit of the bottom half. */
  lemma EndOutcome(current: seq<Qubit>, qubits: seq<Qubit>)
    requires Distinct(qubits) && Distinct(current) && Within(current, qubits)
    requires Bottom(current) != []
    ensures LevelEnd(Top(current), current, qubits).Ok?
    ensures LevelEnd(Top(current), current, qubits).value.Finish? <==>
      2 * |Top(current)| <= |qubits|
    ensures LevelEnd(Top(current), current, qubits).value.Descend? ==>
      LevelEnd(Top(current), current, qubits).value.current == current[..TopLength(|current|) + 1]
  {
    var t := TopLength(|current|);
    var top := Top(current);
    if 2 * t <= |qubits| {
      SliceDistinct(current, 0, t);
      SliceWithin(current, qubits, 0, t);
      PreparedOk(top, qubits);
    } else {
      assert current[t] !in top by {
        forall j | 0 <= j < t ensures top[j] != current[t] { assert top[j] == current[j]; }
      }
      forall j | 0 <= j < t ensures current[j] in top { assert current[j] == top[j]; }
      FirstOutsideAt(top, current, t);
      assert top + [current[t]] == current[..t + 1];
    }
  }

  /** A level over a distinct list drawn from distinct qubits whose bottom half fits twice into
    * the register succeeds: the CnX list is the top half, the bottom's last qubit and the
    * bottom's first, and the level finishes exactly when the top half fits twice too. When it
    * descends, the next list is the top half plus the bottom half's first qubit. */
  lemma LevelOutcome(current: seq<Qubit>, qubits: seq<Qubit>)
    requires Distinct(qubits) && Distinct(current) && Within(current, qubits)
    requires 2 <= |current| && 2 * |Bottom(current)| <= |qubits|
    ensures SplitLevel(current, qubits).Ok?
    ensures SplitLevel(current, qubits).value.cnxQubits ==
      Top(current) + [current[|current| - 1], current[TopLength(|current|)]]
    ensures SplitLevel(current, qubits).value.next.Finish? <==> 2 * |Top(current)| <= |qubits|
    ensures SplitLevel(current, qubits).value.next.Descend? ==>
      SplitLevel(current, qubits).value.next.current == current[..TopLength(|current|) + 1]
  {
    BottomPrepared(current, qubits);
    EndOutcome(current, qubits);
  }

  /** The lengths after one descent on n >= 4 qubits: the new list of TopLength(n) + 1 qubits
    * splits into halves that both fit twice into the register. */
  lemma SecondLevelFits(n: nat)
    requires n >= 4
    ensures var m := TopLength(n) + 1;
      2 <= m <= n && 2 * (m - TopLength(m)) <= n && 2 * TopLength(m) <= n
  {
  }

  /** default_decompose on a register of two or of at least four distinct qubits: the first level
    * succeeds, and it either finishes or descends once into a level that succeeds and finishes,
    * so the recursive split ends within two levels. */
  lemma SplitEnds(qubits: seq<Qubit>)
    requires Distinct(qubits) && (|qubits| == 2 || |qubits| >= 4)
    ensures SplitLevel(qubits, qubits).Ok?
    ensures var next := SplitLevel(qubits, qubits).value.next;
      next.Finish? ||
      (SplitLevel(next.current, qubits).Ok? && SplitLevel(next.current, qubits).value.next.Finish?)
  {
    var n := |qubits|;
    assert Within(qubits, qubits);
    LevelOutcome(qubits, qubits);
    var next := SplitLevel(qubits, qubits).value.next;
    if next.Descend? {
      var t := TopLength(n);
      var c := qubits[..t + 1];
      assert next.current == c;
      SliceDistinct(qubits, 0, t + 1);
      SliceWithin(qubits, qubits, 0, t + 1);
      SecondLevelFits(n);
      LevelOutcome(c, qubits);
    }
  }

  /** On three distinct qubits the top half [q0, q1] does not fit twice, and the qubit it borrows
    * back is q2: the level descends into the very list it started from, so the recursive split
    * never ends. */
  lemma SplitLoopsOnThree(qubits: seq<Qubit>)
    requires Distinct(qubits) && |qubits| == 3
    ensures SplitLevel(qubits, qubits).Ok?
    ensures SplitLevel(qubits, qubits).value.next == Descend(qubits)
  {
    assert Within(qubits, qubits);
    LevelOutcome(qubits, qubits);
    assert qubits[..3] == qubits;
  }

  /** A register of fewer than two qubits has an empty bottom half: bottom_half[-1] raises
    * IndexError. */
  lemma SplitFailsOnOne(qubits: seq<Qubit>)
    requires |qubits| <= 1
    ensures SplitLevel(qubits, qubits) == Err(IndexError)
  {
  }
}
