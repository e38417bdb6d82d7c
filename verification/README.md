# ROBDD engine of CAD PA1, modelled in Dafny

`ROBDD.py` builds a reduced, ordered binary decision diagram (ROBDD) for a
combinational And-Inverter Graph read from an ASCII AIGER file. It has the
following parts:

- two terminal vertices, `1` and `0`, whose variable symbol `~` orders
  after every letter;
- a unique table from `(variable, low child, high child)` to the vertex
  with those fields;
- `restrict`, which takes a cofactor;
- the universal operator `ite(F, G, H) = F·G + F'·H`;
- the complement `ite(v, 0, 1)`;
- `build_from_aig`, which maps AIGER literals to vertices: every input
  literal and its successor, and the output pair of every AND line whose
  operands are already mapped. An input symbol maps its literal to the
  input vertex and the next literal to the complement. An AND line maps
  its output pair to the conjunction of its operands and the complement of
  that.

The model keeps all vertices in one arena, a sequence indexed by handles.
Python's object identity becomes handle equality. One immutable `State`
(arena plus unique table) is threaded through pure functions:

| file | module | contents |
|---|---|---|
| `errors.dfy` | `Errors` | the failures the program can raise, and `Result` |
| `vertices.dfy` | `Vertices` | vertices, arena shape, variable order, reducedness, the Boolean meaning `Eval`, and the reference rendering `Text` of ITE expressions |
| `engine.dfy` | `Engine` | the unique table, the engine invariant `Valid`, vertex creation, `restrict`, `ite`, the complement |
| `meaning.dfy` | `Meaning` | what `restrict`, `ite` and the complement denote, and when they succeed |
| `canonicity.dfy` | `Canonicity` | two vertices that denote the same function are one vertex |
| `aig.dfy` | `Aig` | the literal map built from a tokenised AIGER file |
| `formulas.dfy` | `Formulas` | a reference fold of the file into Boolean formulas over the input names, and the proof that the built map agrees with it |
| `findings.dfy` | `Findings` | the split-variable defect, at the engine and at the file level |

`ite` takes a `SplitRule`:

- `SplitOnFirst` splits on the variable of F, as `ROBDD.py:153` does.
- `SplitOnTop` splits on the least top variable of F, G and H, as the
  classic algorithm does.

Every property that holds for both rules is proved for both. Totality of
`ite`, of an AND line and of a whole build is proved only for `SplitOnTop`,
because `SplitOnFirst` can fail (see "## Findings"). The complement is
total under both rules (`Meaning.NotTotal`).

`ite` takes a `var` argument and computes `next_var` but uses neither; it
splits on the variable of F (lines 153 and 162). An AND line with an
operand not yet mapped is skipped (lines 117-124).

## Model

| member | source | states |
|---|---|---|
| Engine.Init | ROBDD.py:23-35 | the fresh engine satisfies the invariant and is ordered; it holds only the two terminals, which evaluate to true and false and render as "1" and "0"; the table is empty |
| Engine.AddInput | ROBDD.py:126-132 | appends exactly one vertex, registered under (name, 0, 1) and rendered as the bare symbol; it denotes "name is true", keeps the invariant, and only grows arena and table |
| Engine.Mk | ROBDD.py:168-177 | a table hit returns the stored vertex and changes nothing; a miss appends exactly one vertex whose fields equal the key and registers it; either way the invariant (unique keys, labels equal to the ITE rendering) holds after |
| Engine.AppendValid | ROBDD.py:168-174 | appending a fresh, non-redundant, correctly labelled vertex keeps every key naming the vertex with those fields and every vertex under its own key |
| Engine.Restrict | ROBDD.py:179-195 | returns the vertex unchanged when its variable is later; returns the low child for the low branch and the high child for the high branch when the variable is equal; fails exactly when the variable is earlier or the vertex is a terminal at `~`; the cofactor of an ordered vertex tests a later variable |
| Engine.Split | ROBDD.py:153-161 | the split succeeds exactly when no operand tests a variable before the split variable; the split variable is tested by some operand; cofactors never grow and the handle sum strictly shrinks |
| Engine.Reduce | ROBDD.py:165-166 | equal cofactor results are returned with nothing allocated; otherwise the result is the vertex keyed (variable, low, high) |
| Engine.Ite | ROBDD.py:140-177 | on success the invariant is kept, the arena and table only grow, an ordered arena stays ordered, and the result tests no variable before the least top variable of the operands |
| Engine.Not | ROBDD.py:134-138 | the complement keeps the invariant and maps the 1 terminal to 0 and the 0 terminal to 1 with no change |
| Meaning.IteTerminalRules | ROBDD.py:143-151 | the four short-circuits, in source order: F = 1 gives G, F = 0 gives H, (G, H) = (1, 0) gives F, G = H gives G; none changes the state |
| Meaning.RestrictMeaning | ROBDD.py:184-191 | under an assignment that agrees with the branch, the cofactor evaluates like the vertex |
| Meaning.SplitMeaning | ROBDD.py:153-161 | when the split variable is true the high cofactors evaluate like F, G, H; when false the low ones do |
| Meaning.IteMeaning | ROBDD.py:140-177 | a successful `ite` result evaluates to "if F then G else H" under the given assignment, in the state `ite` returns |
| Meaning.IteMeaningAll | ROBDD.py:140-177 | the same under every assignment |
| Meaning.IteStep | ROBDD.py:163-177 | the recursive case succeeds exactly when both recursive calls do; the result is the shared cofactor result when they agree, otherwise the vertex keyed (split variable, low, high) |
| Meaning.NotMeaning | ROBDD.py:134-138 | a successful complement denotes the negation of its operand under every assignment |
| Meaning.NotTotal | ROBDD.py:134-138 | on an ordered engine the complement never fails, under either rule, and keeps the arena ordered |
| Meaning.NotOfInput | ROBDD.py:129-138 | the complement of an input vertex is the vertex (variable, low 1, high 0) |
| Meaning.NotOfInputAboveTerminal | ROBDD.py:184-195 | complementing an input whose symbol is not below `~` fails |
| Meaning.IteTopTotal | ROBDD.py:140-177 | with the least-top-variable rule `ite` never fails on an ordered engine |
| Vertices.EvalPrefix | ROBDD.py:168-177 | growing the arena never changes what an existing vertex denotes |
| Vertices.TextPrefix | ROBDD.py:169-171 | growing the arena never changes how an existing vertex renders |
| Vertices.Independent | ROBDD.py:184-186 | in an ordered arena a vertex does not depend on any variable before its own |
| Vertices.VarBound | ROBDD.py:32-33 | in an ordered arena every decision vertex tests a variable below `~` |
| Canonicity.Canonical | ROBDD.py:165-177 | in a valid, ordered engine two vertices that agree under every assignment are the same vertex |
| Canonicity.SameFunctionSameExpr | ROBDD.py:169-171 | vertices denoting the same function carry the same ITE expression |
| Canonicity.NotInvolution | ROBDD.py:134-138 | complementing twice returns the original vertex itself |
| Canonicity.IteFindsExisting | ROBDD.py:168-177 | `ite` returns the already-present vertex for F·G + F'·H whenever one exists |
| Aig.InputVertex | ROBDD.py:80-84 | the input vertex of a name: the registered one if present (nothing changes), otherwise exactly one new vertex |
| Aig.Register | ROBDD.py:106-116 | an even output literal maps itself to the gate and its successor to the complement; an odd one maps its predecessor to the gate and itself to the complement; no other literal changes |
| Aig.NotComplements | ROBDD.py:134-138 | the complement vertex denotes the negation of its argument under every assignment, in the grown arena |
| Aig.AddInputSymbol | ROBDD.py:80-89 | maps the input literal to the vertex keyed (name, 0, 1) and the next literal to a vertex denoting its negation, adds only those two keys, and keeps every other literal |
| Aig.AddInputSymbolOrdered | ROBDD.py:80-89 | on an ordered engine an input symbol keeps the arena ordered and succeeds whenever its name is below `~` |
| Aig.AddInputSymbolMeaning | ROBDD.py:85-88 | the input literal denotes "name is true" and the next literal "name is false" |
| Aig.AddSymbol | ROBDD.py:73-89 | a position outside the input literals fails; output and latch symbols change nothing; an input symbol is processed as above |
| Aig.AddSymbolOrdered | ROBDD.py:73-89 | an in-range symbol with a name below `~` never fails on an ordered engine |
| Aig.AddSymbols | ROBDD.py:73-89 | the symbol lines in order keep the invariant, only grow the state and the set of mapped literals, keep an ordered arena ordered, map the literal of every input symbol and its successor, and map exactly the literals the key fold `SymbolKeys` gives, one line at a time |
| Aig.AddSymbolsOutOfRange | ROBDD.py:73-76 | one symbol line whose position is outside the input literals makes the symbol section fail |
| Aig.AddSymbolsTotal | ROBDD.py:73-89 | with every position in range and every name below `~`, the symbol section succeeds on an ordered engine |
| Aig.AddGate | ROBDD.py:96-124 | a gate with an unmapped operand changes nothing; otherwise exactly the output's literal pair is added, its two literals denote complementary functions, and every other literal is kept |
| Aig.AddGateMeaning | ROBDD.py:99-116 | the even literal of the output pair denotes the conjunction of the operands, the odd one its negation |
| Aig.AddGateTopTotal | ROBDD.py:99-116 | with the least-top-variable rule an AND line never fails on an ordered engine |
| Aig.AddGates | ROBDD.py:96-124 | the AND lines in order keep the invariant, only grow the state and the set of mapped literals, never fail with the least-top-variable rule on an ordered engine, map the output pair of every line whose operands were mapped before the section, and map exactly the literals the key fold `GateKeys` gives, where a line's pair is added when its operands are mapped at the time it is reached, including outputs of earlier lines |
| Aig.Build | ROBDD.py:57-124 | a nonzero latch count is rejected with that count; a successful build keeps the invariant, maps every literal into the arena, maps the literal of every input symbol and its successor, maps the output pair of every AND line whose operands are such literals, and maps exactly the literals of the symbol fold followed by the AND fold |
| Aig.BuildOutOfRange | ROBDD.py:73-76 | a symbol line with a position outside the input literals makes the build fail |
| Aig.BuildTopTotal | ROBDD.py:57-124 | a latch-free file whose symbols are in range and named below `~` always builds with the least-top-variable rule |
| Aig.AddInputSymbolPaired | ROBDD.py:85-88 | an input symbol keeps every even literal paired with an odd partner denoting its complement |
| Aig.AddGateKeepsPairs | ROBDD.py:106-116 | the two literals an AND line registers denote complementary functions, so the pairing survives the update |
| Aig.AddGatePaired | ROBDD.py:106-116 | an AND line keeps that pairing |
| Aig.AddSymbolsPaired | ROBDD.py:73-89 | the symbol section keeps that pairing |
| Aig.AddGatesPaired | ROBDD.py:96-124 | the AND section keeps that pairing |
| Formulas.RefSymbolsKeys | ROBDD.py:73-89 | the reference formula fold over the symbol lines maps exactly the literals `SymbolKeys` gives |
| Formulas.RefGatesKeys | ROBDD.py:96-124 | the reference formula fold over the AND lines maps exactly the literals `GateKeys` gives |
| Formulas.AgreesExtends | ROBDD.py:168-177 | growing the engine keeps every mapped literal denoting its reference formula |
| Formulas.AgreesUpdate | ROBDD.py:85-88 | setting a literal to a vertex denoting f and its partner to the complement agrees with mapping them to f and not-f |
| Formulas.AddInputSymbolRef | ROBDD.py:80-89 | an input symbol maps its literal to a vertex denoting the input name and the next literal to one denoting its negation, and keeps the agreement |
| Formulas.AddSymbolRef | ROBDD.py:73-89 | one symbol line keeps the agreement with its reference step |
| Formulas.AddSymbolsRef | ROBDD.py:73-89 | after the symbol section the map has exactly the reference fold's literals, each denoting its formula under every assignment |
| Formulas.AddGateDenotes | ROBDD.py:99-110 | the even literal of a registered AND line denotes the conjunction of its operands' reference formulas |
| Formulas.AddGateRef | ROBDD.py:96-124 | one AND line keeps the agreement with its reference step, including a skipped line |
| Formulas.AddGatesRef | ROBDD.py:96-124 | after the AND section the map has exactly the reference fold's literals, each denoting its formula, with later lines built on earlier lines' outputs |
| Formulas.BuildRef | ROBDD.py:57-124 | a successful build has exactly the literals of the reference map of the file, each denoting its reference formula under every assignment |
| Formulas.BuildDenotes | ROBDD.py:57-124 | for each literal and assignment: the literal is mapped exactly when the reference map has it, and its vertex evaluates like the reference formula |
| Aig.BuildPaired | ROBDD.py:85-116 | with even input literals, in the finished map every even literal's partner denotes its complement and every odd literal has its even partner |
| Findings.SplitOnFirstRejectsConjunction | ROBDD.py:153-157 | with inputs `a`, `b` created in that order, ite(b, a, 0) splitting on F's variable fails with "Expected lower restriction variable" |
| Findings.SplitOnTopBuildsConjunction | ROBDD.py:140-177 | the same call under the least-top-variable rule succeeds and denotes a ∧ b |
| Findings.InputSymbolStep | ROBDD.py:80-88 | an input symbol maps its literal to the input vertex of its name and keeps other literals |
| Findings.TwoInputSymbols | ROBDD.py:73-89 | two input symbols on literals 2 and 4 map them to the input vertices of their names |
| Findings.GateAgainstOrderFails | ROBDD.py:103 | splitting on F's variable, an AND line whose first operand tests a later variable than its second always fails |
| Findings.InputConjunction | ROBDD.py:99-110 | with the least-top-variable rule, an AND line over two input vertices maps its output's even literal to their conjunction |
| Findings.OutOfOrderAndRejected | ROBDD.py:96-103 | a latch-free file whose AND line takes the later-named input first fails to build as written, whatever the engine held |
| Findings.OutOfOrderAndAccepted | ROBDD.py:96-110 | the same file builds under the least-top-variable rule, and the AND line's even output literal denotes the conjunction of the two inputs |

## Left out

- File reading, tokenising and every `print` (lines 52-98) are left out. The model takes an already tokenised file: header counts, input and output literals, AND lines, and symbol lines.
- The command line (`main`, `run`, lines 37-42 and 198-212) is left out.
- The three file names that `ROBDD.__init__` stores (lines 20-22) are left out. The rest of the constructor, the empty vertex list, the empty unique table and the two terminals, is `Engine.Init`.
- Literals are natural numbers, not decimal strings. Distinct spellings of one number, such as `02` and `2`, are not distinguished.
- Symbol names are single characters, not strings. In the source a name of any other length makes `ord` raise at line 185, reached from the complement of the input at line 87, so every file with such a name fails there; the model cannot express that failure. A negative symbol position is not representable; Python would index from the end.
- Symbol kinds other than `i`, `o` and `l` are not modelled.
- The symbol section is the given sequence of symbol lines. The source reads exactly in_cnt + out_cnt of them.
- The assertion at line 84 is not modelled, and neither is the stale or unbound `input_vtx` it can read when the input key already exists. The model looks the input vertex up in the unique table, which is what the assertion checks.
- The deferred handling of AND operands not yet mapped (lines 117-124) is only empty stubs in the source. The model registers nothing for such a gate.
- The unused `var` argument of `ite` and `next_var` (lines 140 and 162) are left out.
- The `TypeError` for a `res_value` other than high or low (line 193) cannot occur: the branch is a two-valued datatype.
- Restricting a terminal at `~` returns Python's `None` child (lines 189-191; the complement of an input named `~` gets it from the high branch at line 191), which would fail later. The model reports it at once as `NoChild`.
- The output literal and the translation of the result into other forms are not part of this model.
- The source file has no separate variable order. Symbols compare by their character code, as Dafny's `char` ordering does.

## Findings

| source | as written | input that shows it | evidently intended | confidence | as-written member | corrected member |
|---|---|---|---|---|---|---|
| ROBDD.py:153 | `ite` splits on the variable of F, so restricting G or H at an earlier variable raises "Expected lower restriction variable" | inputs `a` then `b`; ite(b, a, 0) | split on the least top variable of F, G and H | not executed | Findings.SplitOnFirstRejectsConjunction | Findings.SplitOnTopBuildsConjunction |
| ROBDD.py:103 | an AND line calls ite(in1, in2, 0), so a first operand with a later variable than the second fails the whole build | `aag 3 2 0 0 1`, inputs `2` and `4`, AND line `6 4 2`, symbols `i0 a` and `i1 b` | the file builds with literal 6 denoting a ∧ b | not executed | Findings.OutOfOrderAndRejected | Findings.OutOfOrderAndAccepted |

The totality results `Meaning.IteTopTotal`, `Aig.AddGateTopTotal` and
`Aig.BuildTopTotal` hold for the corrected rule. The meaning, ordering,
pairing and canonicity results hold for both rules.
