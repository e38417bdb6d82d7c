/** What the literal map of an AIGER file denotes, stated without the
    engine: a reference fold over the symbol and AND lines that maps each
    literal to a Boolean formula over the input names, and the proof that
    the map the engine builds has the same literals, each denoting its
    formula under every assignment. */
module Formulas {
  import opened Errors
  import opened Vertices
  import opened Engine
  import opened Aig

  /** Boolean formulas over input names. */
  datatype Formula = Input(name: char) | Neg(arg: Formula) | Conj(left: Formula, right: Formula)

  /** The truth value of a formula when exactly the names in `env` are true. */
  function Holds(f: Formula, env: set<char>): bool {
    match f
    case Input(name) => name in env
    case Neg(g) => !Holds(g, env)
    case Conj(g, h) => Holds(g, env) && Holds(h, env)
  }

  type FormulaMap = map<nat, Formula>

  /** Map `lit` to `f` and `lit + 1` to its negation, leaving every other
      literal. */
  function RefPair(fm: FormulaMap, lit: nat, f: Formula): (r: FormulaMap)
    ensures r.Keys == fm.Keys + {lit, lit + 1}
    ensures r[lit] == f && r[lit + 1] == Neg(f)
    ensures forall l | l in fm && l != lit && l != lit + 1 :: r[l] == fm[l]
  {
    fm[lit := f][lit + 1 := Neg(f)]
  }

  /** One symbol line: an input symbol in range maps its literal to its
      name and the next literal to the negation. */
  function RefSymbol(inputs: seq<nat>, sym: Symbol, fm: FormulaMap): FormulaMap {
    if sym.kind == InputSymbol && sym.pos < |inputs| then RefPair(fm, inputs[sym.pos], Input(sym.name)) else fm
  }

  function RefSymbols(inputs: seq<nat>, syms: seq<Symbol>, fm: FormulaMap): FormulaMap
    decreases |syms|
  {
    if |syms| == 0 then fm else RefSymbols(inputs, syms[1..], RefSymbol(inputs, syms[0], fm))
  }

  /** One AND line: when both operands are mapped, the output pair gets the
      conjunction of their formulas and its negation. */
  function RefGate(gate: AndGate, fm: FormulaMap): FormulaMap {
    if gate.in1 in fm && gate.in2 in fm then RefPair(fm, PairBase(gate.out), Conj(fm[gate.in1], fm[gate.in2])) else fm
  }

  function RefGates(gates: seq<AndGate>, fm: FormulaMap): FormulaMap
    decreases |gates|
  {
    if |gates| == 0 then fm else RefGates(gates[1..], RefGate(gates[0], fm))
  }

  /** The reference map of a whole file: the symbol lines from the empty
      map, then the AND lines. */
  function RefBuild(aig: AigFile): FormulaMap {
    RefGates(aig.gates, RefSymbols(aig.inputs, aig.symbols, map[]))
  }

  /** The reference fold maps exactly the literals the symbol section does. */
  lemma {:induction false} RefSymbolsKeys(inputs: seq<nat>, syms: seq<Symbol>, fm: FormulaMap)
    ensures RefSymbols(inputs, syms, fm).Keys == SymbolKeys(inputs, syms, fm.Keys)
    decreases |syms|
  {
    if |syms| > 0 {
      RefSymbolsKeys(inputs, syms[1..], RefSymbol(inputs, syms[0], fm));
    }
  }

  /** The reference fold maps exactly the literals the AND section does. */
  lemma {:induction false} RefGatesKeys(gates: seq<AndGate>, fm: FormulaMap)
    ensures RefGates(gates, fm).Keys == GateKeys(gates, fm.Keys)
    decreases |gates|
  {
    if |gates| > 0 {
      RefGatesKeys(gates[1..], RefGate(gates[0], fm));
    }
  }

  /** Vertex `x` evaluates like formula `f` under every assignment. */
  ghost predicate Denotes(a: Arena, x: Handle, f: Formula)
    requires Closed(a) && x < |a|
  {
    forall env :: Eval(a, x, env) == Holds(f, env)
  }

  /** The literal map and the formula map have the same literals, and each
      literal's vertex denotes its formula. */
  ghost predicate Agrees(t: State, m: LiteralMap, fm: FormulaMap)
    requires Closed(t.arena) && MapInArena(t, m)
  {
    m.Keys == fm.Keys && forall l | l in m :: Denotes(t.arena, m[l], fm[l])
  }

  /** The complement of a vertex denoting `f` denotes its negation. */
  lemma DenotesNeg(a: Arena, x: Handle, nx: Handle, f: Formula)
    requires Closed(a) && x < |a| && nx < |a|
    requires Complements(a, x, nx) && Denotes(a, x, f)
    ensures Denotes(a, nx, Neg(f))
  {
    forall env
      ensures Eval(a, nx, env) == Holds(Neg(f), env)
    {
      assert Eval(a, x, env) == Holds(f, env);
    }
  }

  /** Growing the state keeps the agreement. */
  lemma AgreesExtends(s: State, t: State, m: LiteralMap, fm: FormulaMap)
    requires Valid(s) && Valid(t) && Extends(s, t) && MapInArena(s, m) && Agrees(s, m, fm)
    ensures MapInArena(t, m) && Agrees(t, m, fm)
  {
    forall l | l in m
      ensures Denotes(t.arena, m[l], fm[l])
    {
      assert Denotes(s.arena, m[l], fm[l]);
      forall env
        ensures Eval(t.arena, m[l], env) == Holds(fm[l], env)
      {
        EvalPrefix(s.arena, t.arena, m[l], env);
      }
    }
  }

  /** Setting a literal to a vertex denoting `f` and its partner to the
      complement keeps the agreement with the formula map updated alike. */
  lemma AgreesUpdate(t: State, m: LiteralMap, m': LiteralMap, fm: FormulaMap, lit: nat, f: Formula)
    requires Valid(t) && MapInArena(t, m) && Agrees(t, m, fm) && MapInArena(t, m')
    requires m'.Keys == m.Keys + {lit, lit + 1}
    requires forall l | l in m && l != lit && l != lit + 1 :: m'[l] == m[l]
    requires Denotes(t.arena, m'[lit], f) && Complements(t.arena, m'[lit], m'[lit + 1])
    ensures Agrees(t, m', RefPair(fm, lit, f))
  {
    DenotesNeg(t.arena, m'[lit], m'[lit + 1], f);
    var fm' := RefPair(fm, lit, f);
    forall l | l in m'
      ensures Denotes(t.arena, m'[l], fm'[l])
    {
      if l != lit && l != lit + 1 {
        assert m'[l] == m[l] && fm'[l] == fm[l];
      }
    }
  }

  /** An input symbol agrees with its reference step. */
  lemma AddInputSymbolRef(rule: SplitRule, s: State, m: LiteralMap, lit: nat, name: char, fm: FormulaMap)
    requires Valid(s) && MapInArena(s, m) && Agrees(s, m, fm)
    requires AddInputSymbol(rule, s, m, lit, name).Ok?
    ensures var r := AddInputSymbol(rule, s, m, lit, name).value;
            Agrees(r.0, r.1, RefPair(fm, lit, Input(name)))
  {
    var r := AddInputSymbol(rule, s, m, lit, name).value;
    AgreesExtends(s, r.0, m, fm);
    forall env
      ensures Eval(r.0.arena, r.1[lit], env) == Holds(Input(name), env)
    {
      AddInputSymbolMeaning(rule, s, m, lit, name, env);
    }
    AgreesUpdate(r.0, m, r.1, fm, lit, Input(name));
  }

  lemma AddSymbolRef(rule: SplitRule, s: State, m: LiteralMap, inputs: seq<nat>, sym: Symbol, fm: FormulaMap)
    requires Valid(s) && MapInArena(s, m) && Agrees(s, m, fm)
    requires AddSymbol(rule, s, m, inputs, sym).Ok?
    ensures var r := AddSymbol(rule, s, m, inputs, sym).value;
            Agrees(r.0, r.1, RefSymbol(inputs, sym, fm))
  {
    if sym.kind == InputSymbol {
      AddInputSymbolRef(rule, s, m, inputs[sym.pos], sym.name, fm);
    }
  }

  /** The symbol section agrees with the reference fold over its lines. */
  lemma {:induction false} AddSymbolsRef(rule: SplitRule, s: State, m: LiteralMap, inputs: seq<nat>, syms: seq<Symbol>, fm: FormulaMap)
    requires Valid(s) && MapInArena(s, m) && Agrees(s, m, fm)
    requires AddSymbols(rule, s, m, inputs, syms).Ok?
    ensures var r := AddSymbols(rule, s, m, inputs, syms).value;
            Agrees(r.0, r.1, RefSymbols(inputs, syms, fm))
    decreases |syms|
  {
    if |syms| > 0 {
      var x := AddSymbol(rule, s, m, inputs, syms[0]).value;
      AddSymbolRef(rule, s, m, inputs, syms[0], fm);
      AddSymbolsRef(rule, x.0, x.1, inputs, syms[1..], RefSymbol(inputs, syms[0], fm));
    }
  }

  /** The even literal a registered AND line gets denotes the conjunction of
      its operands' formulas. */
  lemma AddGateDenotes(rule: SplitRule, s: State, m: LiteralMap, gate: AndGate, fm: FormulaMap)
    requires Valid(s) && MapInArena(s, m) && Agrees(s, m, fm)
    requires gate.in1 in m && gate.in2 in m && AddGate(rule, s, m, gate).Ok?
    ensures var r := AddGate(rule, s, m, gate).value;
            Denotes(r.0.arena, r.1[PairBase(gate.out)], Conj(fm[gate.in1], fm[gate.in2]))
  {
    var r := AddGate(rule, s, m, gate).value;
    assert Denotes(s.arena, m[gate.in1], fm[gate.in1]);
    assert Denotes(s.arena, m[gate.in2], fm[gate.in2]);
    forall env
      ensures Eval(r.0.arena, r.1[PairBase(gate.out)], env) == Holds(Conj(fm[gate.in1], fm[gate.in2]), env)
    {
      AddGateMeaning(rule, s, m, gate, env);
    }
  }

  /** An AND line agrees with its reference step. */
  lemma AddGateRef(rule: SplitRule, s: State, m: LiteralMap, gate: AndGate, fm: FormulaMap)
    requires Valid(s) && MapInArena(s, m) && Agrees(s, m, fm)
    requires AddGate(rule, s, m, gate).Ok?
    ensures var r := AddGate(rule, s, m, gate).value;
            Agrees(r.0, r.1, RefGate(gate, fm))
  {
    if gate.in1 in m && gate.in2 in m {
      var r := AddGate(rule, s, m, gate).value;
      AddGateDenotes(rule, s, m, gate, fm);
      AgreesExtends(s, r.0, m, fm);
      AgreesUpdate(r.0, m, r.1, fm, PairBase(gate.out), Conj(fm[gate.in1], fm[gate.in2]));
    }
  }

  /** The AND section agrees with the reference fold over its lines. */
  lemma {:induction false} AddGatesRef(rule: SplitRule, s: State, m: LiteralMap, gates: seq<AndGate>, fm: FormulaMap)
    requires Valid(s) && MapInArena(s, m) && Agrees(s, m, fm)
    requires AddGates(rule, s, m, gates).Ok?
    ensures var r := AddGates(rule, s, m, gates).value;
            Agrees(r.0, r.1, RefGates(gates, fm))
    decreases |gates|
  {
    if |gates| > 0 {
      var x := AddGate(rule, s, m, gates[0]).value;
      AddGateRef(rule, s, m, gates[0], fm);
      AddGatesRef(rule, x.0, x.1, gates[1..], RefGate(gates[0], fm));
    }
  }

  /** A successful build maps exactly the literals of the reference map, and
      every literal's vertex denotes its reference formula. */
  lemma BuildRef(rule: SplitRule, s: State, aig: AigFile)
    requires Valid(s) && Build(rule, s, aig).Ok?
    ensures var r := Build(rule, s, aig).value;
            Agrees(r.0, r.1, RefBuild(aig))
  {
    var empty: LiteralMap := map[];
    var x := AddSymbols(rule, s, empty, aig.inputs, aig.symbols).value;
    AddSymbolsRef(rule, s, empty, aig.inputs, aig.symbols, map[]);
    AddGatesRef(rule, x.0, x.1, aig.gates, RefSymbols(aig.inputs, aig.symbols, map[]));
  }

  /** The same, one literal and one assignment at a time. */
  lemma BuildDenotes(rule: SplitRule, s: State, aig: AigFile, l: nat, env: set<char>)
    requires Valid(s) && Build(rule, s, aig).Ok?
    ensures var r := Build(rule, s, aig).value;
            (l in r.1 <==> l in RefBuild(aig))
            && (l in r.1 ==> Eval(r.0.arena, r.1[l], env) == Holds(RefBuild(aig)[l], env))
  {
    BuildRef(rule, s, aig);
    var r := Build(rule, s, aig).value;
    if l in r.1 {
      assert Denotes(r.0.arena, r.1[l], RefBuild(aig)[l]);
    }
  }
}
