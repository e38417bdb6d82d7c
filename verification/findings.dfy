/** The split-variable rule of the original `ite`. Splitting on the
    variable of F is only sound when F's variable is the least among the
    three operands; when G or H tests an earlier variable, restricting it
    raises "Expected lower restriction variable". The conjunction
    ite(b, a, 0) of two inputs declared in the order a, b is such a call,
    and it is exactly what an AND line `6 4 2` asks for. */
module Findings {
  import opened Errors
  import opened Vertices
  import opened Engine
  import opened Meaning
  import opened Aig

  /** A fresh engine with the inputs `a` (handle 2) and `b` (handle 3). */
  function TwoInputs(): (r: (State, Handle, Handle))
    ensures Valid(r.0) && Ordered(r.0.arena)
    ensures r.1 == 2 && r.2 == 3 && |r.0.arena| == 4
    ensures r.0.arena[2].Node? && KeyOf(r.0.arena[2]) == InputKey('a')
    ensures r.0.arena[3].Node? && KeyOf(r.0.arena[3]) == InputKey('b')
  {
    var a := AddInput(Init(), 'a');
    var b := AddInput(a.0, 'b');
    (b.0, a.1, b.1)
  }

  /** As written: the conjunction of `b` and `a`, with `b` first, fails. */
  lemma SplitOnFirstRejectsConjunction()
    ensures var (s, a, b) := TwoInputs();
            Ite(SplitOnFirst, s, b, a, Zero) == Err(LowerRestriction)
  {
    var (s, a, b) := TwoInputs();
    assert Restrict(s.arena, a, 'b', High) == Err(LowerRestriction);
    assert Split(SplitOnFirst, s.arena, b, a, Zero) == Err(LowerRestriction);
  }

  /** Corrected: splitting on the least top variable builds the same
      conjunction, and it denotes a ∧ b. */
  lemma SplitOnTopBuildsConjunction()
    ensures var (s, a, b) := TwoInputs();
            && Ite(SplitOnTop, s, b, a, Zero).Ok?
            && forall env :: Eval(Ite(SplitOnTop, s, b, a, Zero).value.0.arena, Ite(SplitOnTop, s, b, a, Zero).value.1, env)
                             == ('a' in env && 'b' in env)
  {
    var (s, a, b) := TwoInputs();
    IteTopTotal(s, b, a, Zero);
    IteMeaningAll(SplitOnTop, s, b, a, Zero);
  }

  /** The same failure at the level of an AIGER file: a latch-free file
      whose two symbol lines name input literals 2 and 4, the first name
      ordered before the second, and whose one AND line takes literal 4
      first, as in `aag 3 2 0 0 1`, inputs `2` and `4`, AND line `6 4 2`,
      symbols `i0 a` and `i1 b`. */
  predicate OutOfOrderAnd(f: AigFile) {
    && f.header.latches == 0
    && |f.symbols| == 2 && |f.gates| == 1
    && var (sa, sb) := (f.symbols[0], f.symbols[1]);
       && sa.kind == InputSymbol && sa.pos < |f.inputs| && f.inputs[sa.pos] == 2
       && sb.kind == InputSymbol && sb.pos < |f.inputs| && f.inputs[sb.pos] == 4
       && sa.name < sb.name < TerminalVar
       && f.gates[0].in1 == 4 && f.gates[0].in2 == 2
  }

  /** A symbol section of two lines is the second line applied after the
      first. */
  lemma TwoSymbolsUnfold(rule: SplitRule, s: State, m: LiteralMap, inputs: seq<nat>, syms: seq<Symbol>)
    requires Valid(s) && MapInArena(s, m) && |syms| == 2 && AddSymbol(rule, s, m, inputs, syms[0]).Ok?
    requires var r1 := AddSymbol(rule, s, m, inputs, syms[0]).value;
             AddSymbol(rule, r1.0, r1.1, inputs, syms[1]).Ok?
    ensures var r1 := AddSymbol(rule, s, m, inputs, syms[0]).value;
            AddSymbols(rule, s, m, inputs, syms) == AddSymbol(rule, r1.0, r1.1, inputs, syms[1])
  {
    var r1 := AddSymbol(rule, s, m, inputs, syms[0]).value;
    var r2 := AddSymbol(rule, r1.0, r1.1, inputs, syms[1]).value;
    var rest := syms[1..];
    assert AddSymbols(rule, r2.0, r2.1, inputs, rest[1..]) == Ok(r2);
    assert AddSymbols(rule, r1.0, r1.1, inputs, rest) == Ok(r2);
  }

  /** An input symbol line maps its literal to an input vertex of its name
      and keeps every literal other than that pair. */
  lemma InputSymbolStep(rule: SplitRule, s: State, m: LiteralMap, inputs: seq<nat>, sym: Symbol)
    requires Valid(s) && Ordered(s.arena) && MapInArena(s, m)
    requires sym.kind == InputSymbol && sym.pos < |inputs| && sym.name < TerminalVar
    ensures AddSymbol(rule, s, m, inputs, sym).Ok?
    ensures var (t, m') := AddSymbol(rule, s, m, inputs, sym).value;
            var lit := inputs[sym.pos];
            && Ordered(t.arena) && Prefix(s.arena, t.arena)
            && lit in m' && t.arena[m'[lit]].Node? && KeyOf(t.arena[m'[lit]]) == InputKey(sym.name)
            && forall l | l in m && l != lit && l != lit + 1 :: l in m' && m'[l] == m[l]
  {
    AddSymbolOrdered(rule, s, m, inputs, sym);
  }

  /** Two input symbol lines, for literals 2 and 4, map those literals to
      input vertices named after the symbols. */
  lemma TwoInputSymbols(rule: SplitRule, s: State, inputs: seq<nat>, syms: seq<Symbol>)
    requires Valid(s) && Ordered(s.arena) && |syms| == 2
    requires var (sa, sb) := (syms[0], syms[1]);
             && sa.kind == InputSymbol && sa.pos < |inputs| && inputs[sa.pos] == 2 && sa.name < TerminalVar
             && sb.kind == InputSymbol && sb.pos < |inputs| && inputs[sb.pos] == 4 && sb.name < TerminalVar
    ensures AddSymbols(rule, s, map[], inputs, syms).Ok?
    ensures var (t, m) := AddSymbols(rule, s, map[], inputs, syms).value;
            && 2 in m && 4 in m && m[2] < |t.arena| && m[4] < |t.arena|
            && t.arena[m[2]].Node? && KeyOf(t.arena[m[2]]) == InputKey(syms[0].name)
            && t.arena[m[4]].Node? && KeyOf(t.arena[m[4]]) == InputKey(syms[1].name)
  {
    InputSymbolStep(rule, s, map[], inputs, syms[0]);
    var r1 := AddSymbol(rule, s, map[], inputs, syms[0]).value;
    InputSymbolStep(rule, r1.0, r1.1, inputs, syms[1]);
    var r2 := AddSymbol(rule, r1.0, r1.1, inputs, syms[1]).value;
    TwoSymbolsUnfold(rule, s, map[], inputs, syms);
    PrefixAt(r1.0.arena, r2.0.arena, r1.1[2]);
  }

  /** As written, an AND line whose first operand tests a later variable
      than its second fails, whatever else the state holds. */
  lemma GateAgainstOrderFails(s: State, m: LiteralMap, gate: AndGate)
    requires Valid(s) && MapInArena(s, m) && gate.in1 in m && gate.in2 in m
    requires s.arena[m[gate.in1]].Node? && s.arena[m[gate.in2]].Node?
    requires s.arena[m[gate.in2]].v < s.arena[m[gate.in1]].v
    ensures AddGate(SplitOnFirst, s, m, gate) == Err(LowerRestriction)
  {
    var f, g := m[gate.in1], m[gate.in2];
    assert Restrict(s.arena, g, s.arena[f].v, High) == Err(LowerRestriction);
    assert Ite(SplitOnFirst, s, f, g, Zero) == Err(LowerRestriction);
  }

  /** A build whose symbol section succeeded is its AND section run on
      the symbol section's result. */
  lemma BuildUnfold(rule: SplitRule, s: State, f: AigFile)
    requires Valid(s) && f.header.latches == 0
    requires AddSymbols(rule, s, map[], f.inputs, f.symbols).Ok?
    ensures var x := AddSymbols(rule, s, map[], f.inputs, f.symbols).value;
            Build(rule, s, f) == AddGates(rule, x.0, x.1, f.gates)
  {
  }

  /** A single AND line is its AND section. */
  lemma OneGateUnfold(rule: SplitRule, s: State, m: LiteralMap, gates: seq<AndGate>)
    requires Valid(s) && MapInArena(s, m) && |gates| == 1
    ensures AddGates(rule, s, m, gates) == AddGate(rule, s, m, gates[0])
  {
    var r := AddGate(rule, s, m, gates[0]);
    if r.Ok? {
      assert AddGates(rule, r.value.0, r.value.1, gates[1..]) == r;
    }
  }

  /** As written, building such a file fails, whatever the engine held. */
  lemma OutOfOrderAndRejected(s: State, f: AigFile)
    requires Valid(s) && Ordered(s.arena) && OutOfOrderAnd(f)
    ensures Build(SplitOnFirst, s, f) == Err(LowerRestriction)
  {
    TwoInputSymbols(SplitOnFirst, s, f.inputs, f.symbols);
    var (t, m) := AddSymbols(SplitOnFirst, s, map[], f.inputs, f.symbols).value;
    GateAgainstOrderFails(t, m, f.gates[0]);
    OneGateUnfold(SplitOnFirst, t, m, f.gates);
    BuildUnfold(SplitOnFirst, s, f);
  }

  /** With the corrected rule an AND line over two input vertices builds
      their conjunction under the even literal of its output pair. */
  lemma InputConjunction(s: State, m: LiteralMap, gate: AndGate, x: char, y: char, env: set<char>)
    requires Valid(s) && Ordered(s.arena) && MapInArena(s, m) && gate.in1 in m && gate.in2 in m
    requires s.arena[m[gate.in1]].Node? && KeyOf(s.arena[m[gate.in1]]) == InputKey(x)
    requires s.arena[m[gate.in2]].Node? && KeyOf(s.arena[m[gate.in2]]) == InputKey(y)
    ensures AddGate(SplitOnTop, s, m, gate).Ok?
    ensures var (t, m') := AddGate(SplitOnTop, s, m, gate).value;
            var e := PairBase(gate.out);
            e in m' && m'[e] < |t.arena| && Eval(t.arena, m'[e], env) == (x in env && y in env)
  {
    AddGateTopTotal(s, m, gate);
    AddGateMeaning(SplitOnTop, s, m, gate, env);
    assert Eval(s.arena, m[gate.in1], env) == (x in env);
    assert Eval(s.arena, m[gate.in2], env) == (y in env);
  }

  /** With the corrected rule such a file builds, and the even literal of
      the AND line's output pair denotes the conjunction of the two inputs. */
  lemma OutOfOrderAndAccepted(s: State, f: AigFile, env: set<char>)
    requires Valid(s) && Ordered(s.arena) && OutOfOrderAnd(f)
    ensures Build(SplitOnTop, s, f).Ok?
    ensures var (t, m) := Build(SplitOnTop, s, f).value;
            var e := PairBase(f.gates[0].out);
            e in m && m[e] < |t.arena|
            && Eval(t.arena, m[e], env) == (f.symbols[1].name in env && f.symbols[0].name in env)
  {
    TwoInputSymbols(SplitOnTop, s, f.inputs, f.symbols);
    var (t, m) := AddSymbols(SplitOnTop, s, map[], f.inputs, f.symbols).value;
    InputConjunction(t, m, f.gates[0], f.symbols[1].name, f.symbols[0].name, env);
    OneGateUnfold(SplitOnTop, t, m, f.gates);
    BuildUnfold(SplitOnTop, s, f);
  }
}
