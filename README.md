# A verified model of the qutrits circuit core

This project models, in Dafny, the classical core of the qutrits fork of Cirq. The model has four parts.

**Circuit scheduling (cirq/circuits/circuit.py).** A circuit is a list of moments that the `Circuit` class edits in place.

- Moments, operations and devices live in `Moments`. moment.py and the device classes are not part of this model, so they are taken at their evident meaning:
  - an operation is a gate on a list of qubits;
  - a moment is a list of operations, no two of which share a qubit;
  - `with_operation`, `operates_on` and `without_operations_touching` do what their names say.
- The device hook `can_add_operation_into_moment` is a predicate parameter `canAdd`. Wherever a theorem needs it, it is assumed to be sound: it never admits an operation that shares a qubit with the moment.
- `Scheduling`, `Frontiers` and `Batches` define what each operation computes, as functions of the moment list:
  - the read-only queries;
  - the four insertion strategies;
  - `insert`, `insert_into_range` and `insert_at_frontier`, the latter through `_pick_inserted_ops_moment_indices`, `_push_frontier` and `_insert_operations`;
  - the all-or-nothing batch edits.
- Their properties are proved next to them.
- The class `Circuits.Circuit` holds the moment list as a field. Its methods carry out the source's loops step by step, and each one is proved to leave the moments, and return the values, that those functions give.
- `Rebatching` models `_extract_unitaries` and `reconstruct_moments`. Matrices are abstract payloads there.

**Ternary logic gates (cirq/qutrit).**

- `Gates` is the closed variant of the package's gates and of the corrected `inverse()` of each: MultiOrAnd's inverse keeps its `last_true_val`, where the source's resets it to 2 (see Findings).
- `CommonGates`, `ControlledTernaryGate`, `AncillaGenerationGate`, `PlusKGate`, `PlusKLogicGates`, `SmallPlusKCarryGate` and `BtbCnuGate` give each class's `applied_to_trits` and `validate_trits`. Each is proved against an independent reading: addition modulo 2^n, a permutation table, the control condition.
- `GateLibrary` dispatches on the gate class. It proves the property that verify_gate_inverse checks at run time: a gate followed by the gate its `inverse()` returns gives every valid input back.
- `RawTypes` models `apply_to_ternary_state` on a state map.
- `Evaluate` models the evaluator and the two verify functions.
- `AncillaPlanning` models `_can_make_enough_ancilla`.
- `Bits` models `bits_to_val` and `val_to_bits`.

**Borrowed-bit binary gates (cirq/ops).**

- `BinaryLogic` gives X, CNOT and CCX their classical meaning on bit lists.
- `CnxBorrowedBitGate`, with the ladder lemmas of `BorrowedLadder`, proves the decomposition correct for every register of three or more qubits. The target bit flips exactly when all controls are set, and every other bit, the borrowed ones included, comes back unchanged.
- `IncrementerBorrowedBitGate` models the incrementer's qubit planning:
  - the split into halves;
  - the interleaving with borrowed qubits;
  - the search for a borrowable qubit;
  - when the recursive split stops.

**Results log reader (results/crunch_numbers.py).** `CrunchNumbers` models `parse_line`, `collect_file` and `collect_files`.

- Parsing the timestamp and the value as floats is a parameter of the model, and so is `version_group`.
- Reading files is left to the caller: the model takes each file's lines.

`Wrappers` holds `Option`, `Result` and the Python exceptions the code raises. Every raising path of the source is an `Err` or `Some(error)` in the model, not a precondition. `SeqFacts` holds generic sequence lemmas.

## Model

| member | source | states |
|---|---|---|
| Bits.BitsToVal | cirq/qutrit/plus_k_gate.py:9-11 | on lists of trits bits_to_val succeeds exactly on lists of 0s and 1s (ValueError for a 2), and then gives the little-endian value, 0 for the empty list, below 2^len |
| Bits.ValToBits | cirq/qutrit/plus_k_gate.py:13-15 | val_to_bits(v, n) as its callers use it: exactly n bits whose little-endian value is v mod 2^n |
| Bits.ValToBitsAgree | cirq/qutrit/plus_k_gate.py:13-15 | the code as written (mask, then a zero-padded binary string, reversed) agrees with ValToBits on every width but 0 |
| Bits.ValToBitsZeroWidth | cirq/qutrit/plus_k_gate.py:9-15 | at width 0 the code as written returns one bit while bits_to_val reads the empty list as 0, so the round trip is broken there |
| Bits.RoundTripValue | cirq/qutrit/plus_k_gate.py:9-15 | bits_to_val(val_to_bits(v, n)) is v mod 2^n (negative v included) |
| Bits.RoundTripBits | cirq/qutrit/plus_k_gate.py:9-15 | val_to_bits(bits_to_val(b), len(b)) == b for every binary b |
| Bits.BitLengthExceeds | cirq/qutrit/plus_k_gate.py:143 | for x >= 0, x.bit_length() > n exactly when x >= 2^n |
| CommonGates.Applied | cirq/qutrit/common_gates.py:19-88 | a base gate's applied_to_trits reads only trits[0] (IndexError on the empty list) and returns one trit in range |
| CommonGates.StepIsPermutation | cirq/qutrit/common_gates.py:19-88 | the modular formulas are the permutations they are named after: +1 and -1 rotate 0, 1, 2; F01, F02, F12 swap their two values and fix the third |
| CommonGates.InverseUndoes | cirq/qutrit/common_gates.py:9-78 | each base gate's inverse() is a base gate and undoes it on every trit (PlusOne and MinusOne name each other, flips name themselves) |
| CommonGates.FlipInvolution | cirq/qutrit/common_gates.py:43-88 | each flip is its own inverse and applying it twice gives the trit back |
| CommonGates.StepInjective | cirq/qutrit/common_gates.py:19-88 | every base gate is injective on trits |
| CommonGates.ControlledGates | cirq/qutrit/common_gates.py:102-109 | the module-level loop builds the table that merges all_controlled_gates of the five base gates in order |
| CommonGates.TableEntry | cirq/qutrit/common_gates.py:104-109 | every controlled version (1 to max_controls controls) of every base gate is in the table under its own name, and no base gate's entries overwrite another's |
| CommonGates.TableNames | cirq/qutrit/common_gates.py:104-109 | every name in the table is the name of some controlled version of some base gate |
| CommonGates.NameDeterminesBase | cirq/qutrit/common_gates.py:92-109 | a name in one base gate's part of the table ends with that base gate's own name, so the five parts are disjoint |
| Gates.Inverse | cirq/qutrit/controlled_ternary_gate.py:34-36 | inverse() is defined exactly for the gates that are not, and do not wrap, a SmallPlusKCarry |
| Gates.InverseInvolution | cirq/qutrit/controlled_ternary_gate.py:34-36 | the inverse of an invertible gate is invertible and inverts back to the gate |
| Gates.InverseOps | cirq/qutrit/ancilla_generation_gate.py:63-64 | ops.inverse of an operation list exists exactly when every gate is invertible, and is the list reversed with each gate inverted on the same qutrits |
| Gates.InverseOpsInvolution | cirq/qutrit/ancilla_generation_gate.py:63-66 | inverting an operation list twice gives the list back |
| RawTypes.Read | cirq/qutrit/raw_types.py:15 | the trits read are state[q] for each qutrit, in order |
| RawTypes.FirstBad | cirq/qutrit/raw_types.py:19-20 | the write-back's assert fires at the first output trit out of range(3), with all before it in range |
| RawTypes.TernaryState.ApplyOp | cirq/qutrit/raw_types.py:12-21 | apply_to_ternary_state on the state object: its exception and new state are those of the value-level Effect on the old state |
| RawTypes.TernaryState.WriteBack | cirq/qutrit/raw_types.py:19-21 | the write-back loop's exception and state are those of Landed on the old state |
| RawTypes.TernaryState.Copy | cirq/qutrit/evaluate.py:13 | state.copy() is a fresh object with the same trits |
| RawTypes.WrittenFrame | cirq/qutrit/raw_types.py:19-21 | the write-back keeps the state's qutrits and changes no qutrit the operation does not name |
| RawTypes.WrittenHolds | cirq/qutrit/raw_types.py:13-21 | with distinct qutrits each named qutrit ends up holding its own output trit |
| RawTypes.WrittenSame | cirq/qutrit/raw_types.py:15-21 | writing back the trits just read leaves the state unchanged |
| RawTypes.LandedWrites | cirq/qutrit/raw_types.py:19-21 | the write-back succeeds exactly when every output trit is in range, and then sets each named qutrit to its output trit and keeps the rest |
| RawTypes.LandedFrame | cirq/qutrit/raw_types.py:19-21 | even when the assert stops it, the write-back changes no qutrit the operation does not name |
| RawTypes.EffectWrites | cirq/qutrit/raw_types.py:12-21 | the operation succeeds exactly when its qutrits are distinct and present, the gate succeeds and returns one in-range trit per qutrit; then only its qutrits change and they hold the output in qutrit order |
| RawTypes.EffectFails | cirq/qutrit/raw_types.py:12-21 | a failed operation changes no qutrit it does not name, and changes nothing unless the failure is the write-back's range assert |
| RawTypes.EffectKeepsTrits | cirq/qutrit/raw_types.py:19-21 | the operation never writes a value outside {0, 1, 2} |
| RawTypes.Zeros | cirq/qutrit/raw_types.py:27 | [0] * n: n zeros |
| RawTypes.ValidateArgsArity | cirq/qutrit/raw_types.py:25-27 | validate_args (validate_trits on all zeros) accepts exactly the qutrit counts each gate class's validate_trits admits |
| ControlledTernaryGate.Applied | cirq/qutrit/controlled_ternary_gate.py:53-64 | with an inactive control the trits come back unchanged; with an active one the control prefix is kept and the base gate's output (or its error) replaces the suffix |
| ControlledTernaryGate.ControlledInverse | cirq/qutrit/controlled_ternary_gate.py:34-36 | the controlled inverse undoes the controlled gate whenever the inverse base undoes the base on the suffix |
| ControlledTernaryGate.ProductSound | cirq/qutrit/controlled_ternary_gate.py:25-26 | every tuple itertools.product yields has n controls drawn from the control types |
| ControlledTernaryGate.ProductComplete | cirq/qutrit/controlled_ternary_gate.py:25-26 | every tuple of n controls over the types is yielded |
| ControlledTernaryGate.ProductLength | cirq/qutrit/controlled_ternary_gate.py:25-26 | there are len(types)^n tuples of length n (6^n with the default types) |
| ControlledTernaryGate.TupleIndex | cirq/qutrit/controlled_ternary_gate.py:24-26 | each tuple of 1..max_controls controls is visited by the two loops |
| ControlledTernaryGate.TupleOrigin | cirq/qutrit/controlled_ternary_gate.py:24-26 | every visited tuple has 1..max_controls controls from the types |
| ControlledTernaryGate.AllControlledGates | cirq/qutrit/controlled_ternary_gate.py:21-32 | the nested loops leave the dictionary that stores, tuple by tuple in loop order, the controlled gate under its name |
| ControlledTernaryGate.StoreAll | cirq/qutrit/controlled_ternary_gate.py:25-31 | the inner loop stores every tuple of one length on top of the dictionary so far |
| ControlledTernaryGate.ParseControlPrefix | cirq/qutrit/controlled_ternary_gate.py:27-29 | the name 'C' + digits per control + base name can be read back into the control tuple and the base name |
| ControlledTernaryGate.NamesInjective | cirq/qutrit/controlled_ternary_gate.py:27-31 | distinct control tuples give distinct names, so no dictionary entry overwrites another |
| ControlledTernaryGate.FillLookup | cirq/qutrit/controlled_ternary_gate.py:29-31 | every stored tuple's name maps to the controlled gate with that tuple |
| ControlledTernaryGate.FillKeys | cirq/qutrit/controlled_ternary_gate.py:29-31 | every name in the dictionary comes from a stored tuple |
| ControlledTernaryGate.DefaultTableEntries | cirq/qutrit/controlled_ternary_gate.py:21-32 | with the six default control types, each tuple of 1..max_controls controls has its controlled gate under its name |
| ControlledTernaryGate.DefaultTableNames | cirq/qutrit/controlled_ternary_gate.py:21-32 | with the default types the dictionary holds nothing but those names |
| AncillaGenerationGate.InvMapIsInverse | cirq/qutrit/ancilla_generation_gate.py:21-22 | _inv_map is _map turned around, and _map is injective (the class-level size check holds) |
| AncillaGenerationGate.AllMapAgrees | cirq/qutrit/ancilla_generation_gate.py:23-26 | _all_map agrees with _map on every key of _map (the class-level assert holds) |
| AncillaGenerationGate.Applied | cirq/qutrit/ancilla_generation_gate.py:44-46 | applied_to_trits keeps the length, and returns anything but a triple unchanged |
| AncillaGenerationGate.OutsideTableUnchanged | cirq/qutrit/ancilla_generation_gate.py:44-46 | an input that is no key of the table comes back unchanged |
| AncillaGenerationGate.Involution | cirq/qutrit/ancilla_generation_gate.py:11-46 | applying the gate twice gives every input back, so the inverted gate can reuse the same table |
| AncillaGenerationGate.AllMapInvolution | cirq/qutrit/ancilla_generation_gate.py:21-26 | _all_map maps the value of each entry back to its key |
| AncillaGenerationGate.BinaryInputFreesAncilla | cirq/qutrit/ancilla_generation_gate.py:12-19 | every binary input leaves the third qutrit at 0 |
| AncillaGenerationGate.TritTriples | cirq/qutrit/ancilla_generation_gate.py:40-46 | a valid trit triple maps to a valid trit triple |
| AncillaGenerationGate.TableInRange | cirq/qutrit/ancilla_generation_gate.py:11-26 | every table value is a triple of trits in range |
| AncillaGenerationGate.Decomposition | cirq/qutrit/ancilla_generation_gate.py:48-66 | the decomposition unpacks exactly three qutrits (ValueError otherwise) and has nine operations |
| AncillaGenerationGate.DecompositionInverted | cirq/qutrit/ancilla_generation_gate.py:48-66 | the inverted gate's decomposition is ops.inverse of the forward one and vice versa |
| Gates.InvertedUndo | cirq/qutrit/ancilla_generation_gate.py:63-64 | the inverted list has the same length, and its gate i is reversible and inverts back to the gate at the mirrored position, on the same qubits |
| GateLibrary.InverseRestores | cirq/qutrit/evaluate.py:53-70 | the property verify_gate_inverse checks, for every round-trip gate class on every valid input it accepts: the output has the input's length and the gate's inverse() gives the input back |
| GateLibrary.BaseRestores | cirq/qutrit/common_gates.py:9-88 | the five base gates on any valid single trit |
| GateLibrary.RegisterRestores | cirq/qutrit/plus_k_gate.py:26-43 | PlusK and the two carry gates on valid inputs |
| GateLibrary.LogicRestores | cirq/qutrit/plus_k_gate.py:380-400 | the ancilla generation gate, the upward AND and upward +1 ladders and MultiOrAnd (n <= 4) on valid inputs |
| GateLibrary.ControlledRestores | cirq/qutrit/controlled_ternary_gate.py:34-64 | a controlled gate around a round-trip base, on valid inputs |
| GateLibrary.BtbRestores | cirq/qutrit/btb_cnx_gate.py:17-24 | BTBCnU around a base gate, on valid inputs |
| GateLibrary.RoundTripReversible | cirq/qutrit/evaluate.py:56 | every round-trip gate has an inverse() |
| GateLibrary.BtbBase | cirq/qutrit/btb_cnx_gate.py:17-21 | BTBCnU reads its u through the same table as the base gates |
| Evaluate.DefaultState | cirq/qutrit/evaluate.py:6-7 | default_ternary_state holds exactly the given qutrits, each at 0 |
| Evaluate.TritListPositions | cirq/qutrit/evaluate.py:26-29 | trit_list_to_state on distinct qutrits holds exactly those qutrits; qutrit i holds value i, or 0 beyond the value list |
| Evaluate.RunSeqAppend | cirq/qutrit/evaluate.py:17-24 | running two operation lists one after the other stops at the first failure or runs the second on what the first left |
| Evaluate.RunOpsFlattens | cirq/qutrit/evaluate.py:17-24 | replacing each non-ternary operation by its decomposition, recursively, is the same as running the flattened list of ternary operations |
| Evaluate.EvaluateOps | cirq/qutrit/evaluate.py:17-24 | _evaluate_ternary_circuit on the state object leaves the exception and state of the value-level RunOps |
| Evaluate.ApplyAll | cirq/qutrit/evaluate.py:42-43 | the loop over a decomposition's operations leaves the exception and state of RunSeq |
| Evaluate.EvaluateTernaryCircuit | cirq/qutrit/evaluate.py:9-15 | evaluate_ternary_circuit, with the unbound local corrected: the caller's state is unchanged, and the result is a fresh state holding what evaluating a copy of the input (or the all-zero state) gives |
| Evaluate.EvaluatedAsWrittenFails | cirq/qutrit/evaluate.py:9-15 | as written the call without an input always raises UnboundLocalError, while the intended one evaluates on the all-zero state; with an input the two agree |
| Evaluate.LineQubits | cirq/qutrit/evaluate.py:32 | LineQubit.range(n): n distinct qutrits 0..n-1 |
| Evaluate.FirstFailureFirst | cirq/qutrit/evaluate.py:35-51 | the test loop raises nothing exactly when every checked input passes, and otherwise raises the exception of the first failing input |
| Evaluate.VerifyGate | cirq/qutrit/evaluate.py:31-51 | the verify_gate loop raises exactly what VerifyGateResult says: validate_args' error, decomposition's error, or the first input whose direct and decomposed results differ (RuntimeError) or fail |
| Evaluate.VerifyGateInverse | cirq/qutrit/evaluate.py:53-70 | the verify_gate_inverse loop raises exactly what VerifyInverseResult says: the first input the gate then its inverse does not restore (RuntimeError) or on which either fails |
| Evaluate.ValidByLength | cirq/qutrit/raw_types.py:25-30 | once all trits are in range, every gate's validate_trits depends only on how many there are |
| Evaluate.StartState | cirq/qutrit/evaluate.py:36-37 | each test state holds the little-endian bits of i on the line qutrits |
| Evaluate.InverseCheckPasses | cirq/qutrit/evaluate.py:57-70 | a round-trip gate that validates and applies cleanly to a test input passes verify_gate_inverse's check on it |
| Evaluate.VerifyInverseSucceeds | cirq/qutrit/evaluate.py:53-70 | verify_gate_inverse raises nothing for a round-trip gate of at least one qutrit that validates and applies cleanly to every checked input |
| Evaluate.VerifyInverseZeroQubits | cirq/qutrit/evaluate.py:57-65 | on zero qutrits the one test input reads as the one-digit '0' while the state reads back empty, so the check raises RuntimeError for every gate, here the upward AND ladder |
| AncillaPlanning.MaxKeyIndex | cirq/qutrit/plus_k_gate.py:240 | the index the max over (-k_i, i) picks lies among the bits considered |
| AncillaPlanning.MaxKeyIndexIsLastZero | cirq/qutrit/plus_k_gate.py:240-241 | the max over (-k_i, i) is the last zero bit, every bit after it being one, or the last bit when every bit is one |
| AncillaPlanning.LastZero | cirq/qutrit/plus_k_gate.py:240-241 | last_zero_k_i is -1 or the position of a zero bit, and every bit after it is one |
| AncillaPlanning.EnoughAncillaMeaning | cirq/qutrit/plus_k_gate.py:258-262 | with the carry ancilla present when needed, the answer is that the inputs fit four to each of free_count // 3 ancillas (none fit when there is no ancilla) |
| AncillaPlanning.CeilAtMost | cirq/qutrit/plus_k_gate.py:262 | the ceiling division (x + a - 1) // a is at most c exactly when x is at most c times a |
| AncillaPlanning.AllOnes | cirq/qutrit/plus_k_gate.py:254-262 | a k of two or more ones and no zero has one input and len(k) - 1 free qutrits, and is planned with ancillas exactly when it has at least four bits |
| AncillaPlanning.CanMakeEnoughAncilla | cirq/qutrit/plus_k_gate.py:230-262 | the counter loop over k[:last_zero_k_i+1], the trailing ones and the final division compute the reference definition of free and input positions, including the False for a carry in without ancilla and the errors of an empty k |
| PlusKGate.PlusKAdds | cirq/qutrit/plus_k_gate.py:39-43 | the gate fails with ValueError exactly when a trit is not a bit; otherwise it returns as many bits, whose value is the register's plus k (minus k when inverted) modulo 2^n |
| PlusKGate.PlusKInverse | cirq/qutrit/plus_k_gate.py:26-27 | inverse() is the gate with _inverted toggled, and it undoes the gate on every binary register |
| PlusKGate.PlusKZeroWidthAsWritten | cirq/qutrit/plus_k_gate.py:13-15 | with k empty the empty register passes validate_trits, yet val_to_bits as written returns one trit where the corrected gate returns none |
| PlusKGate.PlusKAsWrittenAgrees | cirq/qutrit/plus_k_gate.py:39-43 | on every register of at least one trit the gate as written and the corrected gate give the same result |
| PlusKGate.Register | cirq/qutrit/plus_k_gate.py:136-142 | a register read without error is all bits, of len(trits) - 1 bits without a carry in and of 1 + len(trits[1:-1]) bits with one |
| PlusKGate.FlipAllButFirst | cirq/qutrit/plus_k_gate.py:198 | the masked register has the same length, is all bits and keeps its lowest bit |
| PlusKGate.Complement | cirq/qutrit/plus_k_gate.py:198 | every bit of the complement is one minus the original bit |
| PlusKGate.ComplementValue | cirq/qutrit/plus_k_gate.py:198 | the complement of an n-bit register has value 2^n - 1 minus the register's value |
| PlusKGate.FlipValue | cirq/qutrit/plus_k_gate.py:198 | XOR with the mask of bits 1 .. n - 1 keeps the low bit and complements the rest: the value becomes r0 + (2^n - 2) - (reg - r0) |
| PlusKGate.CarryKeepsInit | cirq/qutrit/plus_k_gate.py:130-145 | a successful PlusKCarryGate keeps the register length and every trit but the last, ancilla included |
| PlusKGate.CarryLast | cirq/qutrit/plus_k_gate.py:143-144 | the last trit moves by +1 (+2 when inverted) modulo 3 exactly when k_val + reg_val needs more than len(k) bits, and stays otherwise |
| PlusKGate.ShiftBack | cirq/qutrit/plus_k_gate.py:144 | the +1 and the +2 shifts modulo 3 undo each other on every trit |
| PlusKGate.CarrySameRegister | cirq/qutrit/plus_k_gate.py:130-145 | the carry gate does not change the register it reads, so the inverted gate sees the same overflow |
| PlusKGate.CarryOkOfRegister | cirq/qutrit/plus_k_gate.py:130-145 | a carry gate whose register reads without error succeeds on a non-empty target |
| PlusKGate.CarryNoTrits | cirq/qutrit/plus_k_gate.py:142-145 | without trits k alone never overflows len(k) bits and the gate returns the empty list |
| PlusKGate.CarryInverse | cirq/qutrit/plus_k_gate.py:111-114 | inverse() toggles _inverted and keeps k, carry_in and top_ancilla, and the inverted gate undoes every successful application whose last trit is a trit |
| PlusKGate.RegisterOfSameControls | cirq/qutrit/plus_k_gate.py:136-142 | two targets that agree on every trit but the last read the same register |
| PlusKGate.UncarryShape | cirq/qutrit/plus_k_gate.py:185-201 | PlusKUncarryAddGate fails exactly when the register does not read or the target has fewer than two trits; otherwise only the last trit can change, and it gets F02 exactly when the masked register overflows |
| PlusKGate.UncarryValue | cirq/qutrit/plus_k_gate.py:185-201 | the successful result is the ancilla followed by the target with its last trit replaced by F02 of it when the gate fires |
| PlusKGate.UncarryFiresMeaning | cirq/qutrit/plus_k_gate.py:198-199 | with a register of len(k) bits the gate fires exactly when the register plus 2 is at most k_val plus twice its low bit |
| PlusKGate.SwapZeroTwoInvolution | cirq/qutrit/plus_k_gate.py:200 | (2t - 1) mod 3 maps trits to trits and undoes itself |
| PlusKGate.UncarryInverse | cirq/qutrit/plus_k_gate.py:168-169 | inverse() is the gate itself, and applying it twice restores every successful input whose last trit is a trit |
| PlusKGate.UncarrySameRegister | cirq/qutrit/plus_k_gate.py:185-201 | the uncarry gate leaves the register it reads unchanged, so a second application fires iff the first did |
| PlusKLogicGates.UpwardAndSuffix | cirq/qutrit/plus_k_gate.py:397-400 | on valid trits, a suffix of UpwardMultiAndGate's output holds the inverted gate's wanted value exactly when the same suffix of the input held the forward gate's |
| PlusKLogicGates.UpwardAndInverse | cirq/qutrit/plus_k_gate.py:386-387 | inverse() toggles _inverted; on valid trits the output is valid and the inverted gate restores the input |
| PlusKLogicGates.UpwardControlShape | cirq/qutrit/plus_k_gate.py:443-450 | UpwardMultiControlPlusOneGate fails only on the empty list; otherwise only trit 0 can change, and it changes exactly when the trits after it are triggered |
| PlusKLogicGates.UpwardControlIgnoresTarget | cirq/qutrit/plus_k_gate.py:444-446 | the trigger reads only the trits after trit 0, so changing trit 0 does not change it |
| PlusKLogicGates.UpwardControlInverse | cirq/qutrit/plus_k_gate.py:428-430 | inverse() toggles _inverted and keeps bottom_control_2, and the inverted gate restores every input whose first trit is a trit |
| PlusKLogicGates.UpwardControlAsWrittenAgrees | cirq/qutrit/plus_k_gate.py:443-450 | on any list but a single trit the gate as written and the corrected gate agree |
| PlusKLogicGates.UpwardControlAsWrittenNotInverse | cirq/qutrit/plus_k_gate.py:444-446 | as written the one-trit gate takes [1] to [2] and its inverse leaves [2] alone, while the corrected pair restores [1] |
| PlusKLogicGates.Undo | cirq/qutrit/plus_k_gate.py:505-527 | the undo list has the same steps, last first, each with the opposite shift |
| PlusKLogicGates.OrAndStepsUndo | cirq/qutrit/plus_k_gate.py:512-527 | for two to four trits the inverted code of applied_to_trits is the forward code undone line by line |
| PlusKLogicGates.StepUndo | cirq/qutrit/plus_k_gate.py:513-527 | a controlled shift whose control is not its target is undone by the opposite shift |
| PlusKLogicGates.RunUndo | cirq/qutrit/plus_k_gate.py:505-527 | running a list of controlled shifts and then its undo restores any valid trits |
| PlusKLogicGates.MultiOrAndInverse | cirq/qutrit/plus_k_gate.py:483-484 | the inverse that keeps last_true_val restores, on two to four valid trits, every input the forward gate accepted |
| PlusKLogicGates.MultiOrAndSmall | cirq/qutrit/plus_k_gate.py:537-555 | on two to four trits whose controls are bits the forward assertion holds: trits[-2] ends as 2 exactly when some control is 1 and the last trit is last_true_val, and the last trit is unchanged |
| PlusKLogicGates.OrAndTwo | cirq/qutrit/plus_k_gate.py:553-555 | on two trits the first ends as 2 exactly when it was 1 and the last trit is last_true_val |
| PlusKLogicGates.OrAndThree | cirq/qutrit/plus_k_gate.py:547-552 | on three trits trits[1] ends as 2 exactly when a control is 1 and the last trit is last_true_val |
| PlusKLogicGates.OrAndFour | cirq/qutrit/plus_k_gate.py:537-546 | on four trits trits[2] ends as 2 exactly when a control is 1 and the last trit is last_true_val |
| PlusKLogicGates.OrAndFourRaise | cirq/qutrit/plus_k_gate.py:538-540 | the first three lines of the four-trit code raise every binary control by one exactly when the last trit is last_true_val |
| PlusKLogicGates.OrAndFourTail | cirq/qutrit/plus_k_gate.py:541-545 | the last five lines, on controls in 0..1 or all in 1..2, leave trits[2] as 2 exactly when some control is 2 |
| PlusKLogicGates.MultiOrAndLarge | cirq/qutrit/plus_k_gate.py:530-536 | on five or more trits the assertion holds: trits[-2] holds the result as 0 or 1, and trits[-1] and everything before trits[-5] are unchanged |
| PlusKLogicGates.MultiOrAndAsWrittenFails | cirq/qutrit/plus_k_gate.py:529 | with the default last_true_val 2 the input [1, 2] fails the assertion as written, while the corrected gate takes it to [2, 2] |
| PlusKLogicGates.MultiOrAndAsWrittenLtvOne | cirq/qutrit/plus_k_gate.py:504-556 | with last_true_val 1 the gate as written and the corrected gate agree on every input |
| PlusKLogicGates.MultiOrAndInverseDropsLtv | cirq/qutrit/plus_k_gate.py:483-484 | inverse() as written resets last_true_val to 2: for last_true_val 1 it does not restore [0, 1] from [1, 1], while the inverse that keeps it does |
| PlusKLogicGates.OrAndDecomposeFollowsSteps | cirq/qutrit/plus_k_gate.py:571-606 | decompose_2, decompose_3 and decompose_4 emit, gate for gate and in order, the controlled gates of the lines of applied_to_trits |
| SmallPlusKCarryGate.Applied | cirq/qutrit/small_plus_k_carry.py:31-44 | applied_to_trits raises IndexError on an empty list with a carry in and ValueError for an empty k; on success every trit but the last is kept, and the last is either kept or replaced by u's result on it |
| SmallPlusKCarryGate.AgreesWithCarry | cirq/qutrit/small_plus_k_carry.py:31-44 | with u = +1 or -1 the fallback computes PlusKCarryGate without a top ancilla (inverted for -1) on every valid binary register |
| SmallPlusKCarryGate.SmallOnBase | cirq/qutrit/small_plus_k_carry.py:41-42 | with a base gate u the last trit takes u's image exactly when bin_k + bin_input needs more than len(k) bits |
| SmallPlusKCarryGate.CarryNoAncilla | cirq/qutrit/plus_k_gate.py:136-145 | PlusKCarryGate without a top ancilla reads a valid binary register without error and changes the last trit exactly when it overflows |
| SmallPlusKCarryGate.SameOverflow | cirq/qutrit/small_plus_k_carry.py:32-41 | the fallback's sum exceeds len(k) bits exactly when the carry gate's k_val + reg_val does |
| SmallPlusKCarryGate.SumsOverflowTogether | cirq/qutrit/small_plus_k_carry.py:32-41 | the two sums, differing only by one on an even number, exceed len(k) bits together |
| SmallPlusKCarryGate.KValueParity | cirq/qutrit/small_plus_k_carry.py:33 | bin_k is odd exactly when k's low bit is set |
| SmallPlusKCarryGate.TrimPreservesGate | cirq/qutrit/small_plus_k_carry.py:49-52 | without a carry in, the gate on k with a zero low bit is the gate on k[1:] and trits[1:] with trits[0] kept, which is why the decomposition may trim |
| SmallPlusKCarryGate.TrimSum | cirq/qutrit/small_plus_k_carry.py:49-52 | dropping a zero low bit of k and the register's low bit keeps the sum readable and overflows len(k) bits exactly when the halved sum overflows len(k) - 1 |
| SmallPlusKCarryGate.TrimLow | cirq/qutrit/small_plus_k_carry.py:40 | the register without its low bit is worth half the register once that bit is taken off |
| SmallPlusKCarryGate.TrimK | cirq/qutrit/small_plus_k_carry.py:33 | a zero low bit of k halves bin_k once dropped |
| SmallPlusKCarryGate.TrimLeadingZeros | cirq/qutrit/small_plus_k_carry.py:49-52 | the loop fails with IndexError exactly when k has no one bit; otherwise it returns k and the qubits from k's first one bit on |
| SmallPlusKCarryGate.ForwardReversible | cirq/qutrit/small_plus_k_carry.py:72-107 | every gate of gen_forward_circuit can be inverted |
| SmallPlusKCarryGate.ChainTouches | cirq/qutrit/small_plus_k_carry.py:96-107 | the chain from bit i on only touches qubits i to len(k) - 1, with reversible gates |
| SmallPlusKCarryGate.ForwardAvoidsTarget | cirq/qutrit/small_plus_k_carry.py:72-107 | on distinct qubits the forward circuit never touches the target qubits[len(k)] |
| SmallPlusKCarryGate.Decompose | cirq/qutrit/small_plus_k_carry.py:46-70 | with a carry in the gates after trimming are emitted directly; without one the decomposition fails exactly when k has no one bit and otherwise is the gates for k and the qubits from the first one bit on |
| SmallPlusKCarryGate.DecomposeMirrors | cirq/qutrit/small_plus_k_carry.py:61-70 | with two or more bits the middle gate is u controlled onto the target and the gates after it are the inverse of those before it |
| Moments.MakeMoment | cirq/circuits/circuit.py:795-797 | Moment(operations) succeeds exactly when the operations act on pairwise disjoint sets of distinct qubits, keeps them in order, and raises ValueError otherwise |
| Moments.WithOperationMeaning | cirq/circuits/circuit.py:581 | with_operation accepts exactly an operation on distinct qubits that the moment does not act on yet, and appends it after the moment's operations |
| Moments.Untouched | cirq/circuits/circuit.py:877-878 | without_operations_touching keeps exactly the operations that touch none of the qubits, in order |
| Moments.UntouchedWellFormed | cirq/circuits/circuit.py:877-878 | dropping the touching operations leaves a valid moment |
| Moments.WithoutTouchingMeaning | cirq/circuits/circuit.py:877-878 | the moment that results is valid and no longer acts on the qubits |
| Moments.SpliceEmpties | cirq/circuits/circuit.py:700-701 | splicing empty moments into the moment list adds no operation to the circuit |
| Moments.SpliceEmptiesValid | cirq/circuits/circuit.py:700-701 | splicing empty moments keeps every moment valid |
| Moments.AddToMoment | cirq/circuits/circuit.py:581 | replacing a moment by itself with one more operation adds exactly that operation to the circuit's operations |
| Moments.UpdateValid | cirq/circuits/circuit.py:581 | writing a valid moment over one moment keeps the moment list valid |
| Scheduling.FirstForward | cirq/circuits/circuit.py:290-297 | _first_moment_operating_on over an ascending range: the first index in range whose moment acts on the qubits, or None when no moment in the range does |
| Scheduling.FirstBackward | cirq/circuits/circuit.py:290-297 | the same scan over end-1 down to end-count: the latest matching index, with no match after it, or None when none of those moments matches |
| Scheduling.NextMomentOperatingOn | cirq/circuits/circuit.py:299-328 | ValueError exactly for a negative max_distance; otherwise the earliest moment from start (within max_distance when given) acting on the qubits, or None when no such moment exists |
| Scheduling.NextMoments | cirq/circuits/circuit.py:330-352 | one entry per qubit: the next moment from start acting on it, or the circuit's length when none does, with no moment in between acting on it |
| Scheduling.PrevMomentOperatingOn | cirq/circuits/circuit.py:354-396 | ValueError exactly for a negative max_distance |
| Scheduling.PrevMomentWithin | cirq/circuits/circuit.py:379-396 | with a distance d given, the result is the latest moment among the d before end that acts on the qubits, or None when none of them does |
| Scheduling.PrevMomentUnlimited | cirq/circuits/circuit.py:359-371 | the corrected default: the latest moment before end acting on the qubits, or None when none does |
| Scheduling.PrevMomentDefaultMisses | cirq/circuits/circuit.py:379-390 | the default distance as written misses a match when end lies past the last moment: three moments, only moment 0 on qubit 0, end 5 give None where the documented search finds 0 |
| Scheduling.OperationAt | cirq/circuits/circuit.py:412-431 | no result for an index outside the circuit; otherwise an operation of that moment on the qubit, or None only when the moment has none |
| Scheduling.FindAll | cirq/circuits/circuit.py:433-451 | every pair's moment index lies inside the circuit, and the indices never decrease along the result (moment order) |
| Scheduling.FindAllMembers | cirq/circuits/circuit.py:433-451 | exactly the (index, operation) pairs whose operation is in that moment and satisfies the predicate |
| Scheduling.Positions | cirq/circuits/circuit.py:433-451 | the positions in a moment's operation list whose operation satisfies the predicate, strictly ascending, each exactly once |
| Scheduling.FoundInOrder | cirq/circuits/circuit.py:433-451 | the pairs one moment contributes are its satisfying operations in the order the moment lists them, one pair per occurrence |
| Scheduling.FindAllAppend | cirq/circuits/circuit.py:433-451 | the result for moments a then b is a's result followed by b's with moment indices moved up by the length of a, so pairs are grouped by moment in moment order |
| Scheduling.FindAllOne | cirq/circuits/circuit.py:433-451 | a single moment's result is exactly its own pairs at index 0, so with the two lemmas above the whole result is fixed |
| Scheduling.TerminalMeaning | cirq/circuits/circuit.py:476-479 | are_all_measurements_terminal holds exactly when no moment after a measurement acts on any of its qubits |
| Scheduling.PrevAvailableMeaning | cirq/circuits/circuit.py:398-410 | _prev_moment_available returns end or an accepting moment; every moment from it to end can be commuted past; no earlier accepting moment can be reached that way |
| Scheduling.SpliceShape | cirq/circuits/circuit.py:501 | splicing one empty moment at the splitter shifts the later moments up by one and adds no operation |
| Scheduling.Pick | cirq/circuits/circuit.py:481-520 | the chosen index lies within the (possibly longer) moment list |
| Scheduling.PickRules | cirq/circuits/circuit.py:499-518 | each pick either keeps the list and chooses an accepting moment at or before the splitter, or splices in an empty moment at the splitter and chooses it. NEW and NEW_THEN_INLINE always splice. INLINE takes splitter-1 exactly when it exists and accepts the op. EARLIEST falls back to INLINE unless the splitter accepts the op; in that case it walks back only across moments the op commutes past |
| Scheduling.Place | cirq/circuits/circuit.py:578-581 | one round of insert's loop fails only with with_operation's ValueError and always leaves the chosen index inside the moment list |
| Scheduling.Insert | cirq/circuits/circuit.py:567-568 | IndexError exactly when the index is outside 0..len(moments), and then the moments are unchanged |
| Scheduling.InsertMoment | cirq/circuits/circuit.py:562-565 | a Moment argument is placed at the index (appended when the index is past the end, as list.insert does) and index + 1 is returned |
| Scheduling.PaddedFrame | cirq/circuits/circuit.py:578-583 | after the pick and the appending of empty moments, the moments from the next insertion index on are the old ones moved up by the single moment added, if any |
| Scheduling.PaddedKeeps | cirq/circuits/circuit.py:578-580 | the pick and the padding add no operation and keep the moments valid |
| Scheduling.PaddedTarget | cirq/circuits/circuit.py:578-581 | the target moment is a new empty moment, or an old moment that the device accepts the operation into |
| Scheduling.PaddedCases | cirq/circuits/circuit.py:499-580 | the target is an accepting moment below k, an accepting moment at k, a moment appended at the end, or an empty moment spliced in at k |
| Scheduling.PlaceFrame | cirq/circuits/circuit.py:578-583 | one round moves the moments from the next insertion index on up by exactly the moments it adds |
| Scheduling.PlaceKeeps | cirq/circuits/circuit.py:578-582 | one round keeps the moments valid; when with_operation succeeds the circuit holds exactly one more operation, the inserted one |
| Scheduling.PlaceSucceeds | cirq/circuits/circuit.py:581 | with a device that never admits an operation into a moment acting on its qubits, with_operation never fails in the loop on an operation with distinct qubits |
| Scheduling.InsertLoopFrame | cirq/circuits/circuit.py:576-586 | the returned index is at least index plus the number of moments added, and every moment from it on is an old moment moved up by that number, so nothing inserted lies at or past it |
| Scheduling.InsertLoopStep | cirq/circuits/circuit.py:577-585 | after a successful round the rest of the operations continue from max(k, p + 1), with NEW_THEN_INLINE turned into INLINE |
| Scheduling.InsertLoopContents | cirq/circuits/circuit.py:576-586 | insert keeps every moment valid even when an exception interrupts it; when it finishes, the circuit's operations are the old ones plus the inserted ones as a multiset |
| Scheduling.InsertLoopSucceeds | cirq/circuits/circuit.py:577-585 | with such a device, insert raises nothing for operations that name distinct qubits |
| Scheduling.InsertNewStacks | cirq/circuits/circuit.py:577-586 | NEW gives each operation a new moment of its own at index, index+1, and so on, and returns index + len(operations) |
| Scheduling.Fill | cirq/circuits/circuit.py:617-627 | the scan of insert_into_range keeps the number of moments and places at most all the operations |
| Scheduling.FillPlaces | cirq/circuits/circuit.py:617-627 | the scan places operations in input order at a moment index that never moves back, only inside [start, end), and only by appending to moments; moments outside the range are unchanged |
| Scheduling.FillValid | cirq/circuits/circuit.py:621-626 | the scan keeps the moments valid whether or not with_operation raises |
| Scheduling.FillStep | cirq/circuits/circuit.py:620-627 | a moment that rejects the next operation is passed over; an accepting moment receives it, and the scan stays on that moment for the rest |
| Scheduling.FillOps | cirq/circuits/circuit.py:617-627 | without an exception the circuit gains exactly the operations placed |
| Scheduling.FillStops | cirq/circuits/circuit.py:621-625 | when the scan stops short, the next operation fits in no moment from the last position used to end |
| Scheduling.InsertIntoRange | cirq/circuits/circuit.py:609-611 | IndexError exactly when 0 <= start <= end <= len(moments) fails |
| Scheduling.InsertIntoRangeFits | cirq/circuits/circuit.py:629-630 | when every operation fits inside the range, end is returned and no moment is added |
| Scheduling.InsertIntoRangeFrame | cirq/circuits/circuit.py:629-632 | on success, the returned index is at least end plus the moments added, and everything from it on is an old moment moved up |
| Scheduling.InsertIntoRangeContents | cirq/circuits/circuit.py:609-632 | on success the circuit's operations are the old ones plus all the inserted ones |
| Scheduling.InsertIntoRangeValid | cirq/circuits/circuit.py:609-632 | insert_into_range keeps every moment valid, whether or not it raises |
| Scheduling.UntouchedIdempotent | cirq/circuits/circuit.py:877-878 | removing the operations touching the qubits a second time changes nothing |
| Scheduling.ClearedMeaning | cirq/circuits/circuit.py:864-878 | exactly the listed in-range moments lose their operations touching the qubits; all other moments are unchanged, and the moment count stays the same |
| Scheduling.DefaultIsUnlimited | cirq/circuits/circuit.py:376-395 | with end left to default or inside the circuit, the default max_distance as written searches every moment before end and returns the latest matching moment, or None, as the documentation promises |
| Frontiers.LatestOf | cirq/circuits/circuit.py:657 | max(frontier[q] for q in op.qubits): at least each qubit's current frontier, and equal to one of them |
| Frontiers.At | cirq/circuits/circuit.py:657-658 | the index chosen for an operation is at least start and at least the frontier of each of its qubits, and equals start or one of those frontiers |
| Frontiers.Indices | cirq/circuits/circuit.py:655-658 | the list of chosen indices has one entry per operation, in order |
| Frontiers.PickIndices | cirq/circuits/circuit.py:653-662 | _pick_inserted_ops_moment_indices fails (max over an empty sequence is a ValueError) exactly when some operation has no qubit, and otherwise gives one index per operation |
| Frontiers.AfterGrows | cirq/circuits/circuit.py:659-660 | frontier entries never decrease while operations are assigned |
| Frontiers.PickBounds | cirq/circuits/circuit.py:657 | each assigned index is at least start and at least the given frontier of each of the operation's qubits |
| Frontiers.PlacedBefore | cirq/circuits/circuit.py:659-660 | after an operation is assigned, each of its qubits' frontier stays beyond its index |
| Frontiers.PickOrder | cirq/circuits/circuit.py:656-660 | two operations sharing a qubit get strictly increasing indices, in input order |
| Frontiers.AfterSource | cirq/circuits/circuit.py:659-660 | a final frontier entry is the given one or one past the index of an operation on that qubit |
| Frontiers.PickEarliest | cirq/circuits/circuit.py:657 | an assigned index is start, a given frontier of one of its qubits, or one past an earlier overlapping operation's index; so no smaller index is allowed |
| Frontiers.MaxGap | cirq/circuits/circuit.py:695-697 | max(early.get(q, 0) - late[q]): at least every gap and equal to one of them |
| Frontiers.MinLate | cirq/circuits/circuit.py:699 | min(late_frontier.values()): at most every entry and equal to one |
| Frontiers.PushFrontier | cirq/circuits/circuit.py:693-706 | with no positive gap, nothing changes and (0, 0) is returned. Otherwise exactly the largest gap's count of empty moments is inserted at the smallest late entry. Only entries not in late_frontier that lie beyond that index are raised by the count, because update_qubits defaults to early minus late |
| Frontiers.PushSeparates | cirq/circuits/circuit.py:672-674 | afterwards early[q] <= late[q] + n_new for every q in late_frontier |
| Frontiers.PushKeeps | cirq/circuits/circuit.py:700-701 | the pushed moments hold the same operations and stay valid |
| Frontiers.PushTracks | cirq/circuits/circuit.py:675-678 | an updated early entry still names the same moment as before, now at its new index |
| Frontiers.Group | cirq/circuits/circuit.py:730-732 | moment_to_ops[m]: the operations sent to moment m |
| Frontiers.GroupSource | cirq/circuits/circuit.py:730-732 | each operation in a group was sent to that moment |
| Frontiers.GroupHas | cirq/circuits/circuit.py:730-732 | each operation is in the group of its own index |
| Frontiers.GroupWellFormed | cirq/circuits/circuit.py:730-735 | the operations sent to one moment, none overlapping, form a valid operation list |
| Frontiers.Dedup | cirq/circuits/circuit.py:733 | the keys of moment_to_ops: each index once, the same set |
| Frontiers.MaxIndex | cirq/circuits/circuit.py:728 | max(insertion_indices): a member and an upper bound |
| Frontiers.Grown | cirq/circuits/circuit.py:728-729 | the moment list extended with empty moments to length at least 1 + max(indices), old moments kept |
| Frontiers.GrownStays | cirq/circuits/circuit.py:728-729 | growing keeps validity and every old moment |
| Frontiers.WriteGroups | cirq/circuits/circuit.py:733-735 | rebuilding the target moments keeps the number of moments and fails only with the Moment constructor's ValueError |
| Frontiers.WriteGroupsValid | cirq/circuits/circuit.py:733-735 | rebuilding keeps every moment valid |
| Frontiers.WriteGroupsMeaning | cirq/circuits/circuit.py:733-735 | the rebuild succeeds exactly when each target moment with its new operations is well formed; then each target moment gets its group appended in input order, and the other moments are unchanged |
| Frontiers.InsertOperations | cirq/circuits/circuit.py:725-729 | ValueError and no change on mismatched lengths; an empty index list is max() of nothing, also a ValueError |
| Frontiers.InsertOperationsMeaning | cirq/circuits/circuit.py:725-735 | the list is extended to 1 + max(indices); the call succeeds exactly when every target moment accepts its group; then every moment is its old operations followed by its group, in input order |
| Frontiers.OpQubits | cirq/circuits/circuit.py:756 | the qubits of the operations, every one of them and no other |
| Frontiers.InsertAtFrontier | cirq/circuits/circuit.py:751-770 | no operations returns the frontier unchanged; a touched qubit whose frontier exceeds start is a ValueError with nothing changed; every failure is a ValueError |
| Frontiers.PickFacts | cirq/circuits/circuit.py:656-660 | the assigned indices are at least start, strictly increase along overlapping operations, and lie below the final frontier of each qubit |
| Frontiers.InsertAtFrontierSteps | cirq/circuits/circuit.py:761-770 | insert_at_frontier is next_moments_operating_on, then the index pick, then _push_frontier, then _insert_operations |
| Frontiers.InsertAtFrontierSucceeds | cirq/circuits/circuit.py:738-770 | on a valid circuit, with operations on distinct qubits and every frontier at most start, the call succeeds. The moments stay valid, each operation lands in its assigned moment, and the returned frontier lies beyond each operation on each of its qubits |
| Frontiers.Untouched | cirq/circuits/circuit.py:653-662 | a qubit no placed operation acts on keeps the frontier it was given |
| Frontiers.PickedBefore | cirq/circuits/circuit.py:653-662 | each operation's moment lies before the frontier the pick leaves for each of its qubits |
| Frontiers.WriteSucceeds | cirq/circuits/circuit.py:725-729 | into valid moments clear of every operation's qubits at its index, and with operations that share a qubit at increasing indices, _insert_operations reports no error, keeps the moments valid, and puts each operation into its moment |
| Batches.PyIndex | cirq/circuits/circuit.py:791 | Python list indexing of copy._moments[i]: an index in -n..n-1 is valid and a negative one counts from the end; any other index raises IndexError |
| Batches.Remove | cirq/circuits/circuit.py:795-797 | the operations of the moment that are not removed, in order; every copy equal to a removed operation is dropped |
| Batches.RemoveTwice | cirq/circuits/circuit.py:790-797 | removing one set and then another is removing their union |
| Batches.RemoveWellFormed | cirq/circuits/circuit.py:795-797 | the remaining operations still form a valid moment, so the Moment constructor never raises there |
| Batches.RemoveLoop | cirq/circuits/circuit.py:790-797 | the removal loop keeps the number of moments and fails only with IndexError or ValueError |
| Batches.RemovableStep | cirq/circuits/circuit.py:790-797 | after the first removal succeeds, the rest succeed exactly when they succeed on the moments it leaves |
| Batches.RemoveLoopMeaning | cirq/circuits/circuit.py:789-799 | the removal loop succeeds exactly when every index is valid, and every named operation is present in its moment and not named twice. Then each moment keeps, in order, its operations that no removal names for it |
| Batches.RemoveLoopValid | cirq/circuits/circuit.py:795-799 | successful removals keep every moment valid |
| Batches.InsertIntoLoop | cirq/circuits/circuit.py:820-821 | the insert-into loop keeps the number of moments and fails only with IndexError or with_operation's ValueError |
| Batches.SentTo | cirq/circuits/circuit.py:820-821 | the operations the pairs send to one moment come from the pairs |
| Batches.SentOps | cirq/circuits/circuit.py:820-821 | the operations of the pairs, in order |
| Batches.InsertIntoMeaning | cirq/circuits/circuit.py:819-823 | on valid moments the loop succeeds exactly when every index is valid and each moment, with the operations sent to it, acts on pairwise disjoint, distinct qubits. Then each moment is its old operations followed by the ones sent to it, in order |
| Batches.InsertIntoOps | cirq/circuits/circuit.py:819-823 | on success the circuit gains exactly the sent operations |
| Batches.SortByIndex | cirq/circuits/circuit.py:845 | sorted(insertions, key=lambda e: e[0]) keeps the number of entries |
| Batches.InsertByIndexSorted | cirq/circuits/circuit.py:845 | inserting into a sorted list keeps it sorted |
| Batches.SortByIndexSorted | cirq/circuits/circuit.py:845 | the sort orders by index and is a permutation of its input |
| Batches.SortByIndexStable | cirq/circuits/circuit.py:845 | the sort is stable: entries with the same index keep their input order |
| Batches.SortByIndexOps | cirq/circuits/circuit.py:845-846 | sorting the groups keeps their operations, as a multiset |
| Batches.InsertGroupSucceeds | cirq/circuits/circuit.py:826-849 | with the shift counting new moments, every insertion index stays inside the current circuit; with a sound device no insert raises, and all the group's operations arrive |
| Batches.InsertOne | cirq/circuits/circuit.py:847 | one EARLIEST insert of one operation succeeds, keeps the moments valid, adds the operation and removes no moment |
| Batches.InsertGroupsSucceed | cirq/circuits/circuit.py:845-849 | the outer loop over sorted groups succeeds and adds exactly the groups' operations |
| Batches.BatchInsertSucceeds | cirq/circuits/circuit.py:825-850 | the corrected batch_insert, given indices inside the circuit, a sound device and operations on distinct qubits, raises nothing, keeps the moments valid and adds exactly the given operations |
| Batches.OvershiftFirst | cirq/circuits/circuit.py:512-518 | inserting A on qubit 0 at 0 into [X on qubit 0] with EARLIEST creates a new moment at 0 and returns 1 |
| Batches.OvershiftSecond | cirq/circuits/circuit.py:512-515 | inserting B on qubit 1 at 1 commutes it back into moment 0 and returns 1 without creating a moment |
| Batches.BatchInsertOvershifts | cirq/circuits/circuit.py:847-849 | as written, the shift grows whenever next_index > i, also for an operation placed in an existing moment. On [X] with A at 0, B at 0 and C at 1, C goes to index 3 of a two-moment circuit, an IndexError. The corrected version succeeds |
| Circuits.Circuit.NextMomentOperatingOn | cirq/circuits/circuit.py:299-328 | the method's scan returns exactly the specification result: ValueError on a negative distance, otherwise the earliest matching moment within the distance |
| Circuits.Circuit.NextMomentsOperatingOn | cirq/circuits/circuit.py:330-352 | the loop over the qubits builds the map of next moments, the length standing in for none |
| Circuits.Circuit.PrevMomentOperatingOn | cirq/circuits/circuit.py:354-396 | the method computes prev_moment_operating_on as written, including the default distance and the cut-back past the end |
| Circuits.Circuit.ScanBackward | cirq/circuits/circuit.py:394-396 | the backward scan over end-1, end-2, ... returns the first matching moment among count of them |
| Circuits.Circuit.PrevMomentAvailable | cirq/circuits/circuit.py:398-410 | the while loop returns the earliest accepting moment reachable by commuting back, or end |
| Circuits.Circuit.PickOrCreate | cirq/circuits/circuit.py:481-520 | the strategy dispatch mutates the moment list exactly as the pick specification does and returns its index |
| Circuits.Circuit.PlaceOp | cirq/circuits/circuit.py:578-581 | one round of insert's loop: the new moment list, the index and any with_operation error are as specified |
| Circuits.Circuit.Insert | cirq/circuits/circuit.py:567-586 | the loop mutates the moment list into the specification's result, so the lemmas about Scheduling.Insert apply: IndexError out of range, the index and frame rules, contents and validity |
| Circuits.Circuit.InsertMoment | cirq/circuits/circuit.py:562-565 | inserting a Moment places it where list.insert does and returns index + 1 |
| Circuits.Circuit.Append | cirq/circuits/circuit.py:852-862 | append is insert at the end of the circuit |
| Circuits.Circuit.InsertIntoRange | cirq/circuits/circuit.py:609-632 | the nested scan and the final insert of the remainder give exactly the specified result |
| Circuits.Circuit.LatestFrontier | cirq/circuits/circuit.py:657 | the loop finds the largest frontier entry over the qubits, and it is attained |
| Circuits.Circuit.Advance | cirq/circuits/circuit.py:659-660 | each listed qubit's frontier becomes max(old, v); the other entries stay unchanged |
| Circuits.Circuit.PickInsertedOpsMomentIndices | cirq/circuits/circuit.py:653-662 | the greedy loop fails exactly when the specification does, only with ValueError, and otherwise returns its indices and final frontier |
| Circuits.Circuit.Overrun | cirq/circuits/circuit.py:695-697 | the count of new moments is the largest gap, 0 with no late keys |
| Circuits.Circuit.LeastLate | cirq/circuits/circuit.py:699 | the insertion index is the smallest late entry |
| Circuits.Circuit.ShiftEarly | cirq/circuits/circuit.py:693-704 | exactly the early entries not in the late frontier and past the insertion index are raised by the count |
| Circuits.Circuit.PushFrontier | cirq/circuits/circuit.py:693-706 | the method mutates the moments and the frontier exactly as the _push_frontier specification says |
| Circuits.Circuit.Grow | cirq/circuits/circuit.py:728-729 | empty moments are appended until the largest index exists |
| Circuits.Circuit.GroupByMoment | cirq/circuits/circuit.py:730-732 | moment_to_ops maps each used index to its operations in input order, with its keys in first-appearance order |
| Circuits.Circuit.WriteGroups | cirq/circuits/circuit.py:733-735 | each target moment is rebuilt with its group appended, as specified |
| Circuits.Circuit.InsertOperations | cirq/circuits/circuit.py:725-735 | _insert_operations as specified, including its ValueError |
| Circuits.Circuit.InsertAtFrontier | cirq/circuits/circuit.py:751-770 | the method performs the frontier check, the next-moment search, the pick, the push and the insertion as specified |
| Circuits.Circuit.BatchRemove | cirq/circuits/circuit.py:789-799 | all or nothing: on success the moments are the result of the removal loop; on failure the error is returned and the live moments are unchanged |
| Circuits.Circuit.BatchInsertInto | cirq/circuits/circuit.py:819-823 | all or nothing, in the same way, for the insert-into loop |
| Circuits.Circuit.InsertGroup | cirq/circuits/circuit.py:846-849 | the inner loop of batch_insert computes the specified moments and shift |
| Circuits.Circuit.BatchInsert | cirq/circuits/circuit.py:843-850 | the corrected batch_insert; the live moments change only when every insert succeeds |
| Circuits.Circuit.ClearOperationsTouching | cirq/circuits/circuit.py:864-878 | the listed moments are cleared as specified, so the properties of Scheduling.ClearedMeaning apply |
| Circuits.InsertGroupStep | cirq/circuits/circuit.py:846-849 | one insertion of the inner loop advances the shift by the moments it added and hands on the rest |
| Circuits.PushSplit | cirq/circuits/circuit.py:695-706 | the two outcomes of _push_frontier, given the overrun and the least late index |
| Circuits.GroupStep | cirq/circuits/circuit.py:731-732 | one more index adds its operation to its own moment's group and to no other |
| Rebatching.Round | cirq/circuits/circuit.py:1401-1410 | one pass of the for loop splits the items between the moment and the list for the next round; the first item joins the moment when none of its qubits is blocked |
| Rebatching.RoundSplits | cirq/circuits/circuit.py:1404-1410 | a pass neither loses nor invents an item, counting repeats |
| Rebatching.RoundDisjoint | cirq/circuits/circuit.py:1405-1410 | what a pass admits avoids the qubits blocked before it, and its items are pairwise disjoint |
| Rebatching.RoundShareSame | cirq/circuits/circuit.py:1405-1410 | two items of one moment that share a qubit are the same item |
| Rebatching.RoundStep | cirq/circuits/circuit.py:1404-1410 | one item of the for loop: blocked means put off, else admitted, and its qubits become blocked either way |
| Rebatching.RunRound | cirq/circuits/circuit.py:1401-1411 | the loop body computes exactly one specified pass |
| Rebatching.ReconstructMoments | cirq/circuits/circuit.py:1397-1413 | the while loop returns exactly the specified moments, so the lemmas below describe reconstruct_moments |
| Rebatching.RebatchedDisjoint | cirq/circuits/circuit.py:1397-1413 | every produced moment has pairwise disjoint qubit sets |
| Rebatching.RebatchedProgress | cirq/circuits/circuit.py:1400-1412 | each pass admits the first remaining item, so every moment is non-empty and there are at most as many moments as items, which is why the loop ends |
| Rebatching.RebatchedPermutation | cirq/circuits/circuit.py:1397-1413 | the concatenated moments are a permutation of the input |
| Rebatching.RoundIncreasing | cirq/circuits/circuit.py:1404-1410 | both parts of a pass keep the input order |
| Rebatching.RoundRespects | cirq/circuits/circuit.py:1405-1407 | no admitted item shares a qubit with an earlier item that was put off, because that item's qubits were blocked |
| Rebatching.RebatchedOrder | cirq/circuits/circuit.py:1397-1413 | on items tagged with increasing positions, of two items sharing a qubit the earlier one sits in a strictly earlier moment |
| Rebatching.RebatchedRelabel | cirq/circuits/circuit.py:1404-1410 | the batching looks only at the qubits: relabelling the payloads relabels the moments |
| Rebatching.RebatchedTagged | cirq/circuits/circuit.py:1397-1413 | the moments of any input are those of its position-tagged copy with the matrices put back, so the order property holds for every input |
| Rebatching.ExtractUnitaries | cirq/circuits/circuit.py:1422-1453 | _extract_unitaries fails only with the TypeError of line 1451 or the IndexError of op.qubits[i] |
| Rebatching.ExtractOne | cirq/circuits/circuit.py:1423-1453 | one operation fails only with TypeError or IndexError |
| Rebatching.Flips | cirq/circuits/circuit.py:1442-1444 | the invert-mask loop fails only with IndexError |
| Rebatching.SetBits | cirq/circuits/circuit.py:1442-1443 | exactly the positions of the mask's set bits, ascending |
| Rebatching.FlipsOk | cirq/circuits/circuit.py:1442-1444 | a measurement fails exactly when a set bit of its invert mask has no qubit |
| Rebatching.FlipsValue | cirq/circuits/circuit.py:1442-1444 | a measurement yields an X on op.qubits[i] for each set bit i, in order |
| Rebatching.ExtractAppend | cirq/circuits/circuit.py:1422 | the expansion of two lists is the expansion of the first followed by that of the second, or the first error raised |
| Rebatching.Leaves | cirq/circuits/circuit.py:1430-1436 | the flattened operation tree holds no composite operation |
| Rebatching.ExtractLeaves | cirq/circuits/circuit.py:1430-1437 | the recursion into decompositions equals the expansion of the fully flattened tree |
| Rebatching.ExtractOkIff | cirq/circuits/circuit.py:1422-1453 | a list expands exactly when each of its operations does |
| Rebatching.LeafOk | cirq/circuits/circuit.py:1424-1453 | a non-composite operation expands exactly when it has a matrix or is a measurement whose set mask bits all have qubits |
| Rebatching.ExtractUnitaryOnly | cirq/circuits/circuit.py:1424-1427 | operations with known matrices come back as one (matrix, qubits) pair each, in order |
| Rebatching.AllRebatchedMembers | cirq/circuits/circuit.py:1397-1413 | every operation of every rebuilt moment is an operation of the input |
| BtbCnuGate.AppliedAsWritten | cirq/qutrit/btb_cnx_gate.py:17-21 | applied_to_trits as written: an error exactly when the trit list is empty (IndexError on trits[-1]) or the gate is triggered (u receives a bare trit, a TypeError); otherwise the trits come back unchanged |
| BtbCnuGate.Applied | cirq/qutrit/btb_cnx_gate.py:17-21 | applied_to_trits with u given the one-trit list: IndexError on the empty list; an untriggered gate returns the trits unchanged; a triggered one keeps every control and replaces only the last trit |
| BtbCnuGate.AppliedBase | cirq/qutrit/btb_cnx_gate.py:18-21 | with a single-trit base gate u, the last trit becomes u's image exactly when every control is 1, and stays otherwise |
| BtbCnuGate.InverseUndoes | cirq/qutrit/btb_cnx_gate.py:23-24 | inverse() is the gate around u's inverse, and applying the gate and then its inverse gives back every valid trit list |
| BtbCnuGate.AppliedAsWrittenFails | cirq/qutrit/btb_cnx_gate.py:20 | with the default u = F01 the list [1, 0] is triggered and raises TypeError as written, while the corrected gate maps it to [1, 1] |
| BtbCnuGate.LayerKeeps | cirq/qutrit/btb_cnx_gate.py:45-56 | a layer over m >= 1 qutrits keeps between one and half of them rounded up for the next layer |
| BtbCnuGate.RunLayer | cirq/qutrit/btb_cnx_gate.py:45-56 | the stepping loop (by 4, then the leftover tests) computes the layer's gates and the qutrits it keeps, as the layer function defines them |
| BtbCnuGate.RunLeftover | cirq/qutrit/btb_cnx_gate.py:51-56 | the two leftover tests on the loop variable's final value add the gate and the kept qutrits the layer function defines |
| BtbCnuGate.FirstLayerAsWritten | cirq/qutrit/btb_cnx_gate.py:45-56 | the first layer as written fails exactly when there are at most two controls, since the loop never binds i before line 51 reads it |
| BtbCnuGate.RunMiddleLayers | cirq/qutrit/btb_cnx_gate.py:67-88 | the recursive middle layers append the same gates as the middle-layer function and leave the same last list |
| BtbCnuGate.MiddleEndsSmall | cirq/qutrit/btb_cnx_gate.py:67-88 | from one or more qutrits the middle layers always end with one or two qutrits, so the controlled u of lines 58-64 is always emitted |
| BtbCnuGate.MiddleGates | cirq/qutrit/btb_cnx_gate.py:75-85 | every middle-layer gate is a +1 controlled on 2s |
| BtbCnuGate.Decomposition | cirq/qutrit/btb_cnx_gate.py:31-65 | default_decompose fails exactly on an empty qutrit list; on a lone target it is u on that target, as applied_to_trits with no controls; otherwise it is the compute pass (first layer with +1, middle layers, controlled u, middle layers inverted) followed by the first layer with -1 |
| BtbCnuGate.DecompositionAsWrittenFails | cirq/qutrit/btb_cnx_gate.py:45-56 | on two controls and a target the decomposition as written raises UnboundLocalError, and the corrected one is +1 on the second control controlled by the first, u on the target controlled by the second control being 2, then the matching -1 |
| BtbCnuGate.UncomputeInvertsFirstLayer | cirq/qutrit/btb_cnx_gate.py:33-39 | the uncompute pass is the first layer with every gate inverted, and its gates act on pairwise disjoint qutrits, so it undoes the first layer |
| BtbCnuGate.LayerWithin | cirq/qutrit/btb_cnx_gate.py:45-49 | gate j of a layer that starts at position i touches only qutrits i + 4j to i + 4j + 2 |
| BtbCnuGate.DecompositionHasOneU | cirq/qutrit/btb_cnx_gate.py:31-65 | every decomposition applies u exactly once: u alone on a lone target, and with at least one control exactly one gate of the compute pass that can change the target, the controlled u on the one or two qutrits the middle layers leave |
| BinaryLogic.Apply | cirq/ops/cnx_borrowed_bit_gate.py:22-30 | X, CNOT and CCX on a basis state keep its length and change no qubit but the target |
| BinaryLogic.RunAppend | cirq/ops/cnx_borrowed_bit_gate.py:45-49 | running two gate lists one after the other is running their concatenation |
| BinaryLogic.RunAround | cirq/ops/cnx_borrowed_bit_gate.py:74-79 | running a gate list, one gate and another list is running the three pieces in turn |
| BinaryLogic.ApplyTwice | cirq/ops/cnx_borrowed_bit_gate.py:14-15 | each X, CNOT and CCX undoes itself |
| BinaryLogic.Reversed | cirq/ops/cnx_borrowed_bit_gate.py:14-15 | the reversed list holds the same gates, last first |
| BinaryLogic.RunReversed | cirq/ops/cnx_borrowed_bit_gate.py:11-15 | a list of these reversible gates followed by its reversal is the identity on every basis state |
| BorrowedLadder.DownVMeaning | cirq/ops/cnx_borrowed_bit_gate.py:61-62 | the downward steps each flip a register by the old values of the register below and its control |
| BorrowedLadder.UpVMeaning | cirq/ops/cnx_borrowed_bit_gate.py:64-65 | after the feed, the upward steps leave each inner register flipped by the feed value and its prefix of controls |
| BorrowedLadder.PrefixMeaning | cirq/ops/cnx_borrowed_bit_gate.py:58-86 | the prefix holds exactly when the feed value and the first i controls are all set |
| BorrowedLadder.PassVMeaning | cirq/ops/cnx_borrowed_bit_gate.py:61-65 | after one pass every borrowed register is flipped by its prefix of controls, and the target by its lower neighbour's old value and its control |
| BorrowedLadder.PassTwice | cirq/ops/cnx_borrowed_bit_gate.py:61-71 | two passes restore every borrowed register and flip the target by the feed value and all the controls |
| BorrowedLadder.PassOverlay | cirq/ops/cnx_borrowed_bit_gate.py:61-65 | a pass as gates moves the ladder's registers as the value-level pass does and touches no other qubit |
| BorrowedLadder.LadderTwice | cirq/ops/cnx_borrowed_bit_gate.py:58-86 | two passes of the ladder flip the target exactly when the feed value and every control are set, and leave every other qubit, borrowed bits included, unchanged |
| CnxBorrowedBitGate.DownSplit | cirq/ops/cnx_borrowed_bit_gate.py:61-62 | a downward range of CCX gates ends with the gate on its lowest three positions |
| CnxBorrowedBitGate.DownLadder | cirq/ops/cnx_borrowed_bit_gate.py:61-62 | the downward loop of _decompose_half is the ladder's downward steps on the half's registers and controls |
| CnxBorrowedBitGate.UpLadder | cirq/ops/cnx_borrowed_bit_gate.py:64-65 | the upward loop of _decompose_half is the ladder's upward steps over the inner registers |
| CnxBorrowedBitGate.PassOfOddHalf | cirq/ops/cnx_borrowed_bit_gate.py:59-71 | on an odd list _decompose_half is two passes of the ladder fed by CCX(A, B, x1) |
| CnxBorrowedBitGate.PassOfEvenHalf | cirq/ops/cnx_borrowed_bit_gate.py:72-86 | on an even list _decompose_half is two passes of the ladder fed by CNOT(A, x1) |
| CnxBorrowedBitGate.HalfIsLadder | cirq/ops/cnx_borrowed_bit_gate.py:58-86 | _decompose_half is two passes of its ladder, for both parities |
| CnxBorrowedBitGate.HalfControlsIf | cirq/ops/cnx_borrowed_bit_gate.py:58-86 | when the half's controls are all set, its ladder's feed value and controls are all set |
| CnxBorrowedBitGate.HalfControlsOnlyIf | cirq/ops/cnx_borrowed_bit_gate.py:58-86 | when the ladder's feed value and controls are all set, so are the half's controls |
| CnxBorrowedBitGate.HalfFlips | cirq/ops/cnx_borrowed_bit_gate.py:58-86 | on at least four distinct qubits _decompose_half flips its last qubit exactly when its controls are all set, and leaves every other qubit, its borrowed bits included, unchanged |
| CnxBorrowedBitGate.ShiftStep | cirq/ops/cnx_borrowed_bit_gate.py:38-42 | from the fourth element on, each element of [1, 3, 0, 5, 2, ...] is the one two places before it plus 2 |
| CnxBorrowedBitGate.StopLengthStops | cirq/ops/cnx_borrowed_bit_gate.py:39-41 | the element after the stopping length exceeds len(qubits) - 2 |
| CnxBorrowedBitGate.IndexListShape | cirq/ops/cnx_borrowed_bit_gate.py:38-42 | l starts [1, 3, 0]; every later element is the one two places before it plus 2 and at most len(qubits) - 2; the next one would exceed it |
| CnxBorrowedBitGate.ShiftedIndices | cirq/ops/cnx_borrowed_bit_gate.py:38-42 | the while loop builds exactly the list l of the reference definition |
| CnxBorrowedBitGate.StopLengthEven | cirq/ops/cnx_borrowed_bit_gate.py:38-43 | for an even number n >= 6 of qubits, l has n - 3 elements |
| CnxBorrowedBitGate.ShiftValues | cirq/ops/cnx_borrowed_bit_gate.py:38-43 | for an even n >= 6 the elements of l are distinct and at most n - 3 |
| CnxBorrowedBitGate.ControlsAway | cirq/ops/cnx_borrowed_bit_gate.py:58-86 | changing a qubit that is not a control of a half leaves its controls as they were |
| CnxBorrowedBitGate.PairStep | cirq/ops/cnx_borrowed_bit_gate.py:45-46 | the first half flips the second half's control y by its own controls, then the second half flips the target by its other controls and the new y |
| CnxBorrowedBitGate.FourHalves | cirq/ops/cnx_borrowed_bit_gate.py:45-55 | the four halves flip the target by the first half's controls and the second half's other controls, and leave every other qubit, y included, unchanged |
| CnxBorrowedBitGate.FourStates | cirq/ops/cnx_borrowed_bit_gate.py:45-55 | y is flipped twice by the same value, and the target's two flips differ by the conjunction of the two halves' controls |
| CnxBorrowedBitGate.HalvesOk | cirq/ops/cnx_borrowed_bit_gate.py:45-55 | for n >= 6 the two lists _decompose passes are valid halves that fit together as the four-halves argument needs |
| CnxBorrowedBitGate.HalvesCover | cirq/ops/cnx_borrowed_bit_gate.py:43-55 | for n >= 6 the first list's controls together with the second list's other controls are all set exactly when qubits 0 to n - 3 are |
| CnxBorrowedBitGate.PairIsCnX | cirq/ops/cnx_borrowed_bit_gate.py:34-55 | two fitting lists whose controls cover qubits 0 to n - 3 make the four halves a CnX with the last qubit borrowed |
| CnxBorrowedBitGate.HalvesIsCnX | cirq/ops/cnx_borrowed_bit_gate.py:34-55 | _decompose flips qubit n - 2 exactly when qubits 0 to n - 3 are set, and leaves every other qubit unchanged, for n >= 6 |
| CnxBorrowedBitGate.FiveValue | cirq/ops/cnx_borrowed_bit_gate.py:26-30 | the four CCX gates for five qubits compute CnX on every basis state |
| CnxBorrowedBitGate.FiveIsCnX | cirq/ops/cnx_borrowed_bit_gate.py:26-30 | the five-qubit decomposition run as a gate list is CnX |
| CnxBorrowedBitGate.DecomposeIsCnX | cirq/ops/cnx_borrowed_bit_gate.py:19-32 | for every n >= 3 the decomposition flips the target qubit n - 2 exactly when qubits 0 to n - 3 are all set, and leaves every other qubit, the borrowed last one included, unchanged |
| CnxBorrowedBitGate.SelfInverse | cirq/ops/cnx_borrowed_bit_gate.py:14-15 | inverse() returns the gate itself, and running the decomposition twice restores every basis state |
| CnxBorrowedBitGate.CnXTwice | cirq/ops/cnx_borrowed_bit_gate.py:14-15 | CnX undoes itself |
| IncrementerBorrowedBitGate.FirstOutsideMeaning | cirq/ops/incrementer_borrowedbit_gate.py:148-151 | the scan position is that of a qubit outside current, and every qubit listed before it is in current |
| IncrementerBorrowedBitGate.FirstOutsideAt | cirq/ops/incrementer_borrowedbit_gate.py:148-151 | a qubit outside current whose predecessors are all inside is where the scan stops |
| IncrementerBorrowedBitGate.FindBorrowable | cirq/ops/incrementer_borrowedbit_gate.py:148-151 | the loop over qubits that returns at the first one outside current computes the reference answer, None when every qubit is inside |
| IncrementerBorrowedBitGate.BorrowableMeaning | cirq/ops/incrementer_borrowedbit_gate.py:148-151 | _find_borrowable returns None exactly when every qubit is in current; otherwise it returns a qubit outside current all of whose predecessors are inside |
| IncrementerBorrowedBitGate.BorrowedFresh | cirq/ops/incrementer_borrowedbit_gate.py:148-151 | a borrowed qubit is one of qubits and not one of current |
| IncrementerBorrowedBitGate.PrepareBbBits | cirq/ops/incrementer_borrowedbit_gate.py:141-146 | the loop that builds new_list computes the reference list, including the TypeError of indexing None |
| IncrementerBorrowedBitGate.PrepareStops | cirq/ops/incrementer_borrowedbit_gate.py:143-144 | once a round finds nothing to borrow, _prepare_bb_bits raises TypeError |
| IncrementerBorrowedBitGate.PreparedInterleaved | cirq/ops/incrementer_borrowedbit_gate.py:141-146 | a successful new_list is twice as long as current, holds current's qubits at the odd positions in order, and puts before each a qubit from outside current and outside the earlier picks |
| IncrementerBorrowedBitGate.BorrowableCount | cirq/ops/incrementer_borrowedbit_gate.py:148-151 | over distinct qubits, something is left to borrow exactly when the list drawn from them holds fewer distinct qubits than there are |
| IncrementerBorrowedBitGate.RoundsCount | cirq/ops/incrementer_borrowedbit_gate.py:143-145 | after k successful rounds current + new_list is drawn from qubits and holds len(current) + k distinct qubits |
| IncrementerBorrowedBitGate.RoundStep | cirq/ops/incrementer_borrowedbit_gate.py:143-145 | round k succeeds exactly when the earlier rounds did and a qubit was left to borrow |
| IncrementerBorrowedBitGate.PreparedOk | cirq/ops/incrementer_borrowedbit_gate.py:141-146 | over distinct qubits, _prepare_bb_bits of a distinct list drawn from them succeeds exactly when there are at least twice as many qubits as the list holds, and otherwise raises TypeError |
| IncrementerBorrowedBitGate.SplitHalves | cirq/ops/incrementer_borrowedbit_gate.py:59-60 | top_half and bottom_half put back together are current, and the top half is longer by at most one |
| IncrementerBorrowedBitGate.BottomPrepared | cirq/ops/incrementer_borrowedbit_gate.py:63 | the rotated bottom half is prepared without error whenever it fits twice into the register |
| IncrementerBorrowedBitGate.EndOutcome | cirq/ops/incrementer_borrowedbit_gate.py:98-104 | a level finishes exactly when the top half fits twice into the register, and otherwise descends into the top half plus the first qubit of the bottom half |
| IncrementerBorrowedBitGate.LevelOutcome | cirq/ops/incrementer_borrowedbit_gate.py:51-104 | a level whose bottom half fits twice succeeds; its CnX list is the top half, the bottom's last and the bottom's first qubit, and it finishes exactly when the top half fits twice too |
| IncrementerBorrowedBitGate.SecondLevelFits | cirq/ops/incrementer_borrowedbit_gate.py:59-60 | after one descent on n >= 4 qubits both halves of the new list fit twice into the register |
| IncrementerBorrowedBitGate.SplitEnds | cirq/ops/incrementer_borrowedbit_gate.py:49-104 | on two or at least four distinct qubits the recursive split succeeds and ends within two levels |
| IncrementerBorrowedBitGate.SplitLoopsOnThree | cirq/ops/incrementer_borrowedbit_gate.py:98-104 | on three distinct qubits the level descends into the very list it started from, so the recursion never ends |
| IncrementerBorrowedBitGate.SplitFailsOnOne | cirq/ops/incrementer_borrowedbit_gate.py:59-63 | on fewer than two qubits the bottom half is empty and bottom_half[-1] raises IndexError |
| CrunchNumbers.LeadingSpace | results/crunch_numbers.py:24 | the count of leading characters that are all whitespace, stopping at the first that is not |
| CrunchNumbers.TrailingSpace | results/crunch_numbers.py:24 | the count of trailing characters that are all whitespace, stopping at the last that is not |
| CrunchNumbers.StripMeaning | results/crunch_numbers.py:24-25 | strip() keeps a contiguous middle of the line that neither starts nor ends with whitespace and drops only whitespace around it; the result is empty exactly when the line is all whitespace |
| CrunchNumbers.WordLength | results/crunch_numbers.py:15 | the word at the front of the text holds no whitespace and is followed by whitespace or the end |
| CrunchNumbers.Words | results/crunch_numbers.py:15 | split() yields only non-empty words without whitespace |
| CrunchNumbers.WordsCons | results/crunch_numbers.py:15 | a word followed by whitespace or by nothing splits off as the first word |
| CrunchNumbers.WordsJoin | results/crunch_numbers.py:15 | a word, a space and more text split into the word and then the words of the rest |
| CrunchNumbers.WordsOfFields | results/crunch_numbers.py:15 | three words joined by single spaces split back into exactly those three words |
| CrunchNumbers.LastIndex | results/crunch_numbers.py:13 | the position of the last occurrence of the character, with none after it, and -1 exactly when it does not occur |
| CrunchNumbers.ColonSplitMeaning | results/crunch_numbers.py:13-15 | with no colon params is empty and the first character is dropped; with a colon at the very end the text is the whole line; otherwise params is everything before the last colon and the text everything after it |
| CrunchNumbers.ColonSplitJoin | results/crunch_numbers.py:13-15 | params, a colon and a non-empty colon-free rest split back into params and the rest |
| CrunchNumbers.ParseLineMeaning | results/crunch_numbers.py:12-19 | a line parses exactly when the text after params is three words whose second parses as the timestamp and third as the value; params, the version group, the timestamp and the value then come from those pieces |
| CrunchNumbers.ParseFormatted | results/crunch_numbers.py:12-19 | a line written as params, ':', version, timestamp and value separated by single spaces parses back into those fields, whatever colons params holds |
| CrunchNumbers.MapAppend | results/crunch_numbers.py:23 | treating the lines of two pieces in turn is treating their concatenation |
| CrunchNumbers.ClassifySkips | results/crunch_numbers.py:24-31 | a line is skipped exactly when it is all whitespace or its first character other than whitespace is '='; parse failures are reported, never silently skipped |
| CrunchNumbers.OutcomesAppend | results/crunch_numbers.py:23 | the outcomes of two runs of lines are those of their concatenation |
| CrunchNumbers.TallyValues | results/crunch_numbers.py:32-35 | after recording, each key's list is its old list followed by the values of its entries in order, and the keys are the old ones plus those of entries |
| CrunchNumbers.CollectedValues | results/crunch_numbers.py:21-35 | after collect_file each key's list is its old list followed by the values of that key's lines in file order, and the keys are the old ones plus those of parsed lines |
| CrunchNumbers.TallyAppend | results/crunch_numbers.py:32-35 | recording two runs of outcomes in turn is recording their concatenation |
| CrunchNumbers.CollectedAppend | results/crunch_numbers.py:37-39 | reading two files in turn is reading their lines one after the other, for the dictionary and for the report |
| CrunchNumbers.CollectedIgnores | results/crunch_numbers.py:25-31 | a skipped or malformed line leaves the dictionary as it was |
| CrunchNumbers.CollectedSnoc | results/crunch_numbers.py:32-35 | one more line is recorded after the others, and reported when malformed |
| CrunchNumbers.ResultTable.CollectFile | results/crunch_numbers.py:21-35 | the loop over one file's lines leaves the dictionary as the reference definition says and returns the stripped malformed lines in file order |
| CrunchNumbers.ResultTable.CollectFiles | results/crunch_numbers.py:37-39 | collect_file on each file in turn leaves the dictionary as for all their lines in order and reports their malformed lines in order |

## Left out

- Tensor simulation and everything numeric in circuit.py is not modelled. That covers `_apply_unitary_circuit`, `to_unitary_matrix`, `apply_unitary_effect_to_state` and the fidelity code. They are floating-point tensor contractions through linalg code that is not part of this model.
- The noise channels of circuit.py are not modelled: they draw from `np.random` with float weights.
- Text diagrams, QASM export, repr hooks and parameter resolution are not modelled. They are formatting, or depend on extension classes that are not part of this model.
- moment.py and cirq/devices are taken at their evident meaning (see above), and the device's `canAdd` is a parameter. The theorems that need it assume it is sound; a device that breaks this would make `with_operation` raise inside `insert`.
- `validate_moment`, `validate_operation` and the other device validation hooks are taken to accept everything, as the unconstrained device does.
- Operation trees passed to `insert` and the other entry points are taken as already flattened: `ops.flatten_op_tree` is not part of this model.
- The large gate-network generators of plus_k_gate.py are not modelled as gate lists, because relating them to `applied_to_trits` means simulating generated networks symbolically. They are:
  - `PlusKGate.default_decompose` (45-54) and `_gen_all_carry` (56-98);
  - `PlusKCarryGate.default_decompose` (147-157) and `PlusKUncarryAddGate.default_decompose` (203-213);
  - `_gen_or_and_control_u` (215-227) and `_gen_or_and_forward` (265-376);
  - the decompositions of `UpwardMultiAndGate` (402-417) and `UpwardMultiControlPlusOneGate` (452-463);
  - `MultiOrAndGate.decompose_large` (608-621) and `_gen_log_and_upward` (624 on).
- Of plus_k_gate.py's decompositions, only `MultiOrAndGate.decompose_2/3/4` are modelled, gate by gate.
- PlusKLogicGates.MultiOrAndInverse is proved for two to four trits only. On five or more trits the forward code stores its result over the ancilla's third trit, so the inverted gate does not restore every input. The source never claims that it does.
- The gate lists that `default_decompose` yields are parameters of `Evaluate.VerifyGate`: the model checks a gate against whatever decomposition it is given.
- cirq's `GateOperation.inverse` and `Gate.validate_args`, outside the ternary gates, are not part of this model. `verify_gate_inverse` on a gate without `inverse()` is taken to raise TypeError.
- IncrementerBorrowedBitGate does not model the gate lists of the decomposition, for two reasons:
  - `_linear_increment_n_bb` (106-139) is a CNOT, X and CCX network; proving that it adds one to the register is beyond this model;
  - `_split_incrementer_borrowed_bit` combines those networks with `CnxLinearBorrowedBit` gates (lines 73 and 92), a name the module never imports, so the full decomposition cannot be formed as written.
- The intended increment of the commented check (incrementer_borrowedbit_gate.py:155-201) is therefore not proved.
- IncrementerBorrowedBitGate's `inverse` returns None (18-19) and has no model beyond that.
- IncrementerBorrowedBitGate.SplitLoopsOnThree shows that the recursive split never ends on three qubits. The model records the loop but does not correct it, because no intended split for that size can be read off the code.
- CnxBorrowedBitGate.DecomposeIsCnX covers registers of three or more qubits. With fewer qubits there is no control, and the list `default_decompose` then hands to `_decompose` is not modelled.
- crunch_numbers.py's `find_files`, `main` and the `__main__` block are not modelled: directory walking, file reading and the averaging of float values.
- Bits.BitsToVal raises ValueError for every entry other than 0 and 1. The source's `int(..., 2)` on the joined decimal digits also reads some other lists: a negative last entry is read as a sign (`[1, -1]` gives -3), and entries such as 10 or 11 are read as several binary digits (`[10]` gives 2). The two agree on every list of trits, which is all that the gates pass in, since `validate_trits` admits only 0, 1 and 2.
- SmallPlusKCarryGate.Sum and SmallPlusKCarryGate.Applied take the constant k as a list of booleans. The source parses `int(''.join(map(str, reversed(k))), 2)` (small_plus_k_carry.py:33), so a k holding a 2, or Python's `True`, raises ValueError there; the model has no such k.
- Frontiers.InsertAtFrontier and Circuits.Circuit.InsertAtFrontier take the frontier as a value: a map read with a default of 0, returned updated. The source mutates the caller's dict in place (circuit.py:659-660 and `_push_frontier`). The model therefore does not capture two things:
  - the partial update left behind when `max()` raises ValueError on an operation without qubits;
  - the KeyError a caller's plain dict, rather than a defaultdict, raises on a qubit it does not list (circuit.py:657 and 762).
- CrunchNumbers: float parsing of the timestamp and the value is a parameter of the model, and so is `version_group` from results code that is not part of this model.
- cirq/ops/cnx_linear_gate.py and cirq/ops/incrementer_inplace_gate.py are not part of this model. The first is float phase arithmetic; the second composes names that are never imported.

## Findings

| source | as written | input that shows it | evidently intended | confidence | as-written member | corrected member |
|---|---|---|---|---|---|---|
| cirq/qutrit/plus_k_gate.py:13-15 | `format(v, '00b')` writes at least one digit, so `val_to_bits(v, 0)` returns `(0,)` | `val_to_bits(0, 0)` has length 1, and `bits_to_val([])` is 0 | zero bits for width 0, so the round trip through `bits_to_val` holds | high, not executed | Bits.ValToBitsZeroWidth | Bits.ValToBits |
| cirq/qutrit/plus_k_gate.py:39-43 | the zero-width PlusKGate returns one trit for the empty register | `PlusKGate([])` on `[]` returns `[0]`, which `apply_to_ternary_state` rejects as a length mismatch | the empty register comes back empty; in general the register plus k modulo 2^n | high, not executed | PlusKGate.PlusKZeroWidthAsWritten | PlusKGate.PlusKAdds |
| cirq/qutrit/evaluate.py:9-15 | with no `input_state` the default goes to `input_state` and the local `state` is never bound | `evaluate_ternary_circuit(c)` raises UnboundLocalError for every circuit | evaluate a copy of the all-zero state and return it | high, not executed | Evaluate.EvaluatedAsWrittenFails | Evaluate.EvaluateTernaryCircuit |
| cirq/qutrit/plus_k_gate.py:529 | the forward assertion compares against the default `last_true_val` of 2, while the result tests the last trit for 1 | `MultiOrAndGate()` on `[1, 2]` writes 2 to `trits[-2]` and then fails the assertion | gates built with `last_true_val = 1`, where the assertion holds on every binary input | medium, not executed | PlusKLogicGates.MultiOrAndAsWrittenFails | PlusKLogicGates.MultiOrAndSmall |
| cirq/qutrit/plus_k_gate.py:483-484 | `inverse()` builds a gate with the default `last_true_val` | for `last_true_val = 1`, `[0, 1]` goes to `[1, 1]`, and the inverse leaves `[1, 1]` as it is | the inverse keeps `last_true_val` and restores the input | high, not executed | PlusKLogicGates.MultiOrAndInverseDropsLtv | PlusKLogicGates.MultiOrAndInverse |
| cirq/qutrit/plus_k_gate.py:444-446 | on one trit `trits[-1:]` is the target itself, so the target acts as its own control | `UpwardMultiControlPlusOneGate()` takes `[1]` to `[2]`, and its inverse leaves `[2]` alone | a gate with no controls always fires, so the inverse undoes it | medium, not executed | PlusKLogicGates.UpwardControlAsWrittenNotInverse | PlusKLogicGates.UpwardControlInverse |
| cirq/qutrit/btb_cnx_gate.py:20 | a triggered gate hands `u_gate.applied_to_trits` the bare last trit and stores the returned list back | `BTBCnUGate()` on `[1, 0]` raises TypeError | the last trit becomes u's image of it | high, not executed | BtbCnuGate.AppliedAsWrittenFails | BtbCnuGate.AppliedBase |
| cirq/qutrit/btb_cnx_gate.py:51 | the leftover test reads the loop variable `i`, which is unbound when the loop never runs | decomposing on two controls and a target (or fewer controls) raises UnboundLocalError | the leftover controls are handled as the loop would have left them, and a lone target gets u itself | high, not executed | BtbCnuGate.DecompositionAsWrittenFails | BtbCnuGate.Decomposition |
| cirq/circuits/circuit.py:847-849 | the shift grows whenever `next_index > i`, also for an operation placed into an existing moment | on one moment holding X on qubit 0, inserting A (qubit 0) at 0, B (qubit 1) at 0 and C (qubit 2) at 1 sends C to index 3 of a two-moment circuit, which raises IndexError | the shift counts the moments the earlier insertions added | medium, not executed | Batches.BatchInsertOvershifts | Batches.BatchInsertSucceeds |
| cirq/circuits/circuit.py:379-390 | the default `max_distance` is `len(moments)`, and is then reduced by how far `end` lies past the last moment | three moments, only moment 0 acts on qubit 0, and `end = 5` give None | with no `max_distance` every moment before `end` is searched, so the answer is 0 | medium, not executed | Scheduling.PrevMomentDefaultMisses | Scheduling.PrevMomentUnlimited |
