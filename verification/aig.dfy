/** Building the diagram of a combinational And-Inverter Graph given in the
    ASCII AIGER format. The file arrives already tokenised: a header, the
    input literals, the output literals, the AND lines and the symbol
    lines. The result is a literal map from AIGER literals to vertices,
    where an even literal `2k` is variable `k` and `2k + 1` its complement. */
module Aig {
  import opened Errors
  import opened Vertices
  import opened Engine
  import opened Meaning

  /** The counts of the `aag` header line. */
  datatype Header = Header(maxVar: nat, inputs: nat, latches: nat, outputs: nat, ands: nat)

  datatype SymbolKind = InputSymbol | OutputSymbol | LatchSymbol

  /** A symbol-table line such as `i0 a`: kind, position and name. */
  datatype Symbol = Symbol(kind: SymbolKind, pos: nat, name: char)

  /** An AND line `out in1 in2`. */
  datatype AndGate = AndGate(out: nat, in1: nat, in2: nat)

  datatype AigFile = AigFile(header: Header, inputs: seq<nat>, outputs: seq<nat>, gates: seq<AndGate>, symbols: seq<Symbol>)

  type LiteralMap = map<nat, Handle>

  /** Every literal is mapped to a vertex of the arena. */
  predicate MapInArena(s: State, m: LiteralMap) {
    forall l | l in m :: m[l] < |s.arena|
  }

  /** The literal pairs are consistent: every even literal present has its
      odd partner denoting the complement, and every odd literal present
      has its even partner. */
  ghost predicate Paired(s: State, m: LiteralMap)
    requires Closed(s.arena) && MapInArena(s, m)
  {
    && (forall l | l in m && l % 2 == 0 :: l + 1 in m && Complements(s.arena, m[l], m[l + 1]))
    && (forall l | l in m && l % 2 == 1 :: l - 1 in m)
  }

  /** `nx` denotes the negation of `x` under every assignment. */
  ghost predicate Complements(a: Arena, x: Handle, nx: Handle)
    requires Closed(a) && x < |a| && nx < |a|
  {
    forall env :: Eval(a, nx, env) == !Eval(a, x, env)
  }

  /** The complement vertex built by `Not` denotes the negation of its
      argument inside the grown arena. */
  lemma NotComplements(rule: SplitRule, s: State, x: Handle)
    requires Valid(s) && x < |s.arena| && Not(rule, s, x).Ok?
    ensures var t := Not(rule, s, x).value;
            x < |t.0.arena| && Complements(t.0.arena, x, t.1)
  {
    var t := Not(rule, s, x).value;
    forall env
      ensures Eval(t.0.arena, t.1, env) == !Eval(t.0.arena, x, env)
    {
      NotMeaning(rule, s, x);
      EvalPrefix(s.arena, t.0.arena, x, env);
    }
  }

  /** Growing the state keeps the map inside the arena. */
  lemma MapInArenaExtends(s: State, t: State, m: LiteralMap)
    requires Extends(s, t) && MapInArena(s, m)
    ensures MapInArena(t, m)
  {
  }

  /** Growing the state does not change what the mapped vertices denote. */
  lemma PairedExtends(s: State, t: State, m: LiteralMap)
    requires Valid(s) && Valid(t) && Extends(s, t) && MapInArena(s, m) && Paired(s, m)
    ensures MapInArena(t, m) && Paired(t, m)
  {
    forall l | l in m && l % 2 == 0
      ensures l + 1 in m && Complements(t.arena, m[l], m[l + 1])
    {
      assert Complements(s.arena, m[l], m[l + 1]);
      forall env
        ensures Eval(t.arena, m[l + 1], env) == !Eval(t.arena, m[l], env)
      {
        EvalPrefix(s.arena, t.arena, m[l], env);
        EvalPrefix(s.arena, t.arena, m[l + 1], env);
      }
    }
  }

  /** The primary-input vertex for `name`: looked up when it exists,
      created otherwise. */
  function InputVertex(s: State, name: char): (r: (State, Handle))
    requires Valid(s)
    ensures Valid(r.0) && Extends(s, r.0) && r.1 < |r.0.arena|
    ensures r.0.arena[r.1].Node? && KeyOf(r.0.arena[r.1]) == InputKey(name)
    ensures InputKey(name) in s.table ==> r == (s, s.table[InputKey(name)])
    ensures InputKey(name) !in s.table ==> |r.0.arena| == |s.arena| + 1 && r.1 == |s.arena|
    ensures Ordered(s.arena) && name < TerminalVar ==> Ordered(r.0.arena)
  {
    var key := InputKey(name);
    if key in s.table then
      assert KeyNames(s, key);
      (s, s.table[key])
    else
      AddInput(s, name)
  }

  /** Map `lit` to `x` and `lit + 1` to `nx`, leaving every other literal. */
  function SetPair(m: LiteralMap, lit: nat, x: Handle, nx: Handle): (r: LiteralMap)
    ensures r.Keys == m.Keys + {lit, lit + 1}
    ensures r[lit] == x && r[lit + 1] == nx
    ensures forall l | l in m && l != lit && l != lit + 1 :: r[l] == m[l]
  {
    m[lit := x][lit + 1 := nx]
  }

  /** The even literal of the pair `out` belongs to: `out` itself when it
      is even, the literal before it when it is odd. */
  function PairBase(out: nat): (e: nat)
    ensures e % 2 == 0 && (e == out || e + 1 == out)
  {
    if out % 2 == 0 then out else out - 1
  }

  /** Register a gate's vertex and its complement under the even literal of
      `out`'s pair and its odd partner, whichever of the two `out` is. */
  function Register(m: LiteralMap, out: nat, x: Handle, nx: Handle): (r: LiteralMap)
    ensures var e := PairBase(out);
            && r.Keys == m.Keys + {e, e + 1}
            && r[e] == x && r[e + 1] == nx
            && forall l | l in m && l != e && l != e + 1 :: r[l] == m[l]
    ensures out % 2 == 0 ==> r[out] == x && r[out + 1] == nx
    ensures out % 2 == 1 ==> r[out - 1] == x && r[out] == nx
  {
    if out % 2 == 0 then SetPair(m, out, x, nx)
    else SetPair(m, out - 1, x, nx)
  }

  /** An input symbol for `name` at literal `lit`: map `lit` to the input
      vertex, created if absent, and `lit + 1` to its complement. */
  function AddInputSymbol(rule: SplitRule, s: State, m: LiteralMap, lit: nat, name: char): (r: Result<(State, LiteralMap)>)
    requires Valid(s) && MapInArena(s, m)
    ensures r.Ok? ==> Valid(r.value.0) && Extends(s, r.value.0) && MapInArena(r.value.0, r.value.1)
    ensures r.Ok? ==>
              var t, m' := r.value.0, r.value.1;
              && m'.Keys == m.Keys + {lit, lit + 1}
              && (forall l | l in m && l != lit && l != lit + 1 :: m'[l] == m[l])
              && t.arena[m'[lit]].Node? && KeyOf(t.arena[m'[lit]]) == InputKey(name)
              && Complements(t.arena, m'[lit], m'[lit + 1])
  {
    var x := InputVertex(s, name);
    var nx :- Not(rule, x.0, x.1);
    NotComplements(rule, x.0, x.1);
    ExtendsTrans(s, x.0, nx.0);
    PrefixAt(x.0.arena, nx.0.arena, x.1);
    MapInArenaExtends(s, nx.0, m);
    Ok((nx.0, SetPair(m, lit, x.1, nx.1)))
  }

  /** An input symbol keeps an ordered state ordered, and it fails on one
      only when its name is not below the terminals' symbol. */
  lemma AddInputSymbolOrdered(rule: SplitRule, s: State, m: LiteralMap, lit: nat, name: char)
    requires Valid(s) && MapInArena(s, m)
    ensures var r := AddInputSymbol(rule, s, m, lit, name);
            Ordered(s.arena) ==> (r.Ok? ==> Ordered(r.value.0.arena)) && (name < TerminalVar ==> r.Ok?)
  {
    var x := InputVertex(s, name);
    if Ordered(s.arena) {
      if name >= TerminalVar && InputKey(name) !in s.table {
        NotOfInputAboveTerminal(rule, x.0, x.1);
      } else {
        NotTotal(rule, x.0, x.1);
      }
    }
  }

  /** One symbol line. Every kind looks up its position among the input
      literals first; output and latch symbols then change nothing. */
  function AddSymbol(rule: SplitRule, s: State, m: LiteralMap, inputs: seq<nat>, sym: Symbol): (r: Result<(State, LiteralMap)>)
    requires Valid(s) && MapInArena(s, m)
    ensures sym.pos >= |inputs| ==> r == Err(SymbolIndexOutOfRange(sym.pos))
    ensures sym.pos < |inputs| && sym.kind != InputSymbol ==> r == Ok((s, m))
    ensures sym.pos < |inputs| && sym.kind == InputSymbol ==> r == AddInputSymbol(rule, s, m, inputs[sym.pos], sym.name)
    ensures r.Ok? ==> Valid(r.value.0) && Extends(s, r.value.0) && MapInArena(r.value.0, r.value.1)
    ensures r.Ok? && Ordered(s.arena) ==> Ordered(r.value.0.arena)
  {
    if sym.pos >= |inputs| then Err(SymbolIndexOutOfRange(sym.pos))
    else
      var lit := inputs[sym.pos];
      match sym.kind
      case OutputSymbol => Ok((s, m))
      case LatchSymbol => Ok((s, m))
      case InputSymbol =>
        AddInputSymbolOrdered(rule, s, m, lit, sym.name);
        AddInputSymbol(rule, s, m, lit, sym.name)
  }

  /** A symbol line in range whose name is below the terminals' symbol
      never fails on an ordered state. */
  lemma AddSymbolOrdered(rule: SplitRule, s: State, m: LiteralMap, inputs: seq<nat>, sym: Symbol)
    requires Valid(s) && MapInArena(s, m)
    ensures Ordered(s.arena) && sym.pos < |inputs| && sym.name < TerminalVar ==> AddSymbol(rule, s, m, inputs, sym).Ok?
  {
    if sym.pos < |inputs| {
      AddInputSymbolOrdered(rule, s, m, inputs[sym.pos], sym.name);
    }
  }

  /** An input symbol's literal denotes the input variable and the next
      literal its negation. */
  lemma AddInputSymbolMeaning(rule: SplitRule, s: State, m: LiteralMap, lit: nat, name: char, env: set<char>)
    requires Valid(s) && MapInArena(s, m) && AddInputSymbol(rule, s, m, lit, name).Ok?
    ensures var r := AddInputSymbol(rule, s, m, lit, name).value;
            Eval(r.0.arena, r.1[lit], env) == (name in env) && Eval(r.0.arena, r.1[lit + 1], env) == (name !in env)
  {
    var x := InputVertex(s, name);
    NotMeaning(rule, x.0, x.1);
    var nx := Not(rule, x.0, x.1).value;
    EvalPrefix(x.0.arena, nx.0.arena, x.1, env);
  }

  /** One AND line. When both operands are mapped, the conjunction
      ite(in1, in2, 0) and its complement are registered under `out`'s
      pair; otherwise the gate is skipped. */
  function AddGate(rule: SplitRule, s: State, m: LiteralMap, gate: AndGate): (r: Result<(State, LiteralMap)>)
    requires Valid(s) && MapInArena(s, m)
    ensures !(gate.in1 in m && gate.in2 in m) ==> r == Ok((s, m))
    ensures r.Ok? ==> Valid(r.value.0) && Extends(s, r.value.0) && MapInArena(r.value.0, r.value.1)
    ensures r.Ok? && gate.in1 in m && gate.in2 in m ==>
              var e, m' := PairBase(gate.out), r.value.1;
              && m'.Keys == m.Keys + {e, e + 1}
              && (forall l | l in m && l != e && l != e + 1 :: m'[l] == m[l])
              && Complements(r.value.0.arena, m'[e], m'[e + 1])
    ensures r.Ok? && Ordered(s.arena) ==> Ordered(r.value.0.arena)
  {
    if gate.in1 in m && gate.in2 in m then
      var x :- Ite(rule, s, m[gate.in1], m[gate.in2], Zero);
      var nx :- Not(rule, x.0, x.1);
      NotComplements(rule, x.0, x.1);
      ExtendsTrans(s, x.0, nx.0);
      Ok((nx.0, Register(m, gate.out, x.1, nx.1)))
    else
      Ok((s, m))
  }

  /** A registered gate denotes the conjunction of its operands, and its
      partner literal the negation of that. */
  lemma AddGateMeaning(rule: SplitRule, s: State, m: LiteralMap, gate: AndGate, env: set<char>)
    requires Valid(s) && MapInArena(s, m)
    requires gate.in1 in m && gate.in2 in m && AddGate(rule, s, m, gate).Ok?
    ensures var e, t, m' := PairBase(gate.out), AddGate(rule, s, m, gate).value.0, AddGate(rule, s, m, gate).value.1;
            var conj := Eval(s.arena, m[gate.in1], env) && Eval(s.arena, m[gate.in2], env);
            Eval(t.arena, m'[e], env) == conj && Eval(t.arena, m'[e + 1], env) == !conj
  {
    var x := Ite(rule, s, m[gate.in1], m[gate.in2], Zero).value;
    IteMeaning(rule, s, m[gate.in1], m[gate.in2], Zero, env);
    NotMeaning(rule, x.0, x.1);
    var nx := Not(rule, x.0, x.1).value;
    EvalPrefix(x.0.arena, nx.0.arena, x.1, env);
    assert AddGate(rule, s, m, gate).value == (nx.0, Register(m, gate.out, x.1, nx.1));
  }

  /** Under the least-top-variable rule an AND line over mapped operands
      never fails on an ordered state. */
  lemma AddGateTopTotal(s: State, m: LiteralMap, gate: AndGate)
    requires Valid(s) && Ordered(s.arena) && MapInArena(s, m)
    ensures AddGate(SplitOnTop, s, m, gate).Ok?
  {
    if gate.in1 in m && gate.in2 in m {
      IteTopTotal(s, m[gate.in1], m[gate.in2], Zero);
      var x := Ite(SplitOnTop, s, m[gate.in1], m[gate.in2], Zero).value;
      NotTotal(SplitOnTop, x.0, x.1);
    }
  }

  /** The symbol lines in order; the first failure aborts. */
  function AddSymbols(rule: SplitRule, s: State, m: LiteralMap, inputs: seq<nat>, syms: seq<Symbol>): (r: Result<(State, LiteralMap)>)
    requires Valid(s) && MapInArena(s, m)
    ensures r.Ok? ==> Valid(r.value.0) && Extends(s, r.value.0) && MapInArena(r.value.0, r.value.1)
    ensures r.Ok? && Ordered(s.arena) ==> Ordered(r.value.0.arena)
    ensures r.Ok? ==> m.Keys <= r.value.1.Keys
    ensures r.Ok? ==> SymbolsMapped(inputs, syms, r.value.1)
    ensures r.Ok? ==> r.value.1.Keys == SymbolKeys(inputs, syms, m.Keys)
    decreases |syms|
  {
    if |syms| == 0 then Ok((s, m))
    else
      var x :- AddSymbol(rule, s, m, inputs, syms[0]);
      var y :- AddSymbols(rule, x.0, x.1, inputs, syms[1..]);
      ExtendsTrans(s, x.0, y.0);
      SymbolsMappedStep(inputs, syms, x.1, y.1);
      Ok(y)
  }

  /** The literals mapped after one symbol line, given those mapped before:
      an input symbol in range adds its literal and the next one. */
  function SymbolKey(inputs: seq<nat>, sym: Symbol, k: set<nat>): set<nat> {
    if sym.kind == InputSymbol && sym.pos < |inputs| then k + {inputs[sym.pos], inputs[sym.pos] + 1} else k
  }

  /** The literals mapped after the symbol lines, one line at a time. */
  function SymbolKeys(inputs: seq<nat>, syms: seq<Symbol>, k: set<nat>): set<nat>
    decreases |syms|
  {
    if |syms| == 0 then k else SymbolKeys(inputs, syms[1..], SymbolKey(inputs, syms[0], k))
  }

  /** The literals mapped after one AND line: its output pair is added
      exactly when both operands are mapped when the line is reached. */
  function GateKey(gate: AndGate, k: set<nat>): set<nat> {
    if gate.in1 in k && gate.in2 in k then k + {PairBase(gate.out), PairBase(gate.out) + 1} else k
  }

  /** The literals mapped after the AND lines, one line at a time, so a line
      may use the output of an earlier one. */
  function GateKeys(gates: seq<AndGate>, k: set<nat>): set<nat>
    decreases |gates|
  {
    if |gates| == 0 then k else GateKeys(gates[1..], GateKey(gates[0], k))
  }

  /** Every input symbol's position is in range and its literal pair is in
      the map. */
  predicate SymbolsMapped(inputs: seq<nat>, syms: seq<Symbol>, m: LiteralMap) {
    forall i | 0 <= i < |syms| && syms[i].kind == InputSymbol ::
      syms[i].pos < |inputs| && inputs[syms[i].pos] in m && inputs[syms[i].pos] + 1 in m
  }

  lemma SymbolsMappedStep(inputs: seq<nat>, syms: seq<Symbol>, mx: LiteralMap, my: LiteralMap)
    requires |syms| > 0 && mx.Keys <= my.Keys
    requires syms[0].kind == InputSymbol ==>
               syms[0].pos < |inputs| && inputs[syms[0].pos] in mx && inputs[syms[0].pos] + 1 in mx
    requires SymbolsMapped(inputs, syms[1..], my)
    ensures SymbolsMapped(inputs, syms, my)
  {
    forall i | 0 < i < |syms| && syms[i].kind == InputSymbol
      ensures syms[i].pos < |inputs| && inputs[syms[i].pos] in my && inputs[syms[i].pos] + 1 in my
    {
      assert syms[1..][i - 1] == syms[i];
    }
  }

  /** A symbol line naming a missing input position makes the whole
      symbol section fail, whatever precedes it. */
  lemma {:induction false} AddSymbolsOutOfRange(rule: SplitRule, s: State, m: LiteralMap, inputs: seq<nat>, syms: seq<Symbol>, i: nat)
    requires Valid(s) && MapInArena(s, m)
    requires i < |syms| && syms[i].pos >= |inputs|
    ensures AddSymbols(rule, s, m, inputs, syms).Err?
    decreases i
  {
    var r0 := AddSymbol(rule, s, m, inputs, syms[0]);
    if i > 0 && r0.Ok? {
      assert syms[1..][i - 1] == syms[i];
      AddSymbolsOutOfRange(rule, r0.value.0, r0.value.1, inputs, syms[1..], i - 1);
    }
  }

  /** On an ordered state the symbol section succeeds when every position
      is in range and every name is below the terminals' symbol. */
  lemma {:induction false} AddSymbolsTotal(rule: SplitRule, s: State, m: LiteralMap, inputs: seq<nat>, syms: seq<Symbol>)
    requires Valid(s) && Ordered(s.arena) && MapInArena(s, m)
    requires forall i | 0 <= i < |syms| :: syms[i].pos < |inputs| && syms[i].name < TerminalVar
    ensures AddSymbols(rule, s, m, inputs, syms).Ok?
    decreases |syms|
  {
    if |syms| > 0 {
      AddSymbolOrdered(rule, s, m, inputs, syms[0]);
      var x := AddSymbol(rule, s, m, inputs, syms[0]).value;
      assert forall i | 0 <= i < |syms[1..]| :: syms[1..][i] == syms[i + 1];
      AddSymbolsTotal(rule, x.0, x.1, inputs, syms[1..]);
    }
  }

  /** The AND lines in order; the first failure aborts. */
  function AddGates(rule: SplitRule, s: State, m: LiteralMap, gates: seq<AndGate>): (r: Result<(State, LiteralMap)>)
    requires Valid(s) && MapInArena(s, m)
    ensures r.Ok? ==> Valid(r.value.0) && Extends(s, r.value.0) && MapInArena(r.value.0, r.value.1)
    ensures r.Ok? && Ordered(s.arena) ==> Ordered(r.value.0.arena)
    ensures rule == SplitOnTop && Ordered(s.arena) ==> r.Ok?
    ensures r.Ok? ==> m.Keys <= r.value.1.Keys
    ensures r.Ok? ==> GatesMapped(gates, m, r.value.1)
    ensures r.Ok? ==> r.value.1.Keys == GateKeys(gates, m.Keys)
    decreases |gates|
  {
    if |gates| == 0 then Ok((s, m))
    else
      AddGateTopTotalStep(rule, s, m, gates[0]);
      var x :- AddGate(rule, s, m, gates[0]);
      var y :- AddGates(rule, x.0, x.1, gates[1..]);
      ExtendsTrans(s, x.0, y.0);
      GatesMappedStep(gates, m, x.1, y.1);
      Ok(y)
  }

  /** Every AND line whose operands are both in `m` has its output pair in
      `m'`. */
  predicate GatesMapped(gates: seq<AndGate>, m: LiteralMap, m': LiteralMap) {
    forall i | 0 <= i < |gates| && gates[i].in1 in m && gates[i].in2 in m ::
      PairBase(gates[i].out) in m' && PairBase(gates[i].out) + 1 in m'
  }

  lemma GatesMappedStep(gates: seq<AndGate>, m: LiteralMap, mx: LiteralMap, my: LiteralMap)
    requires |gates| > 0 && m.Keys <= mx.Keys <= my.Keys
    requires gates[0].in1 in m && gates[0].in2 in m ==>
               PairBase(gates[0].out) in mx && PairBase(gates[0].out) + 1 in mx
    requires GatesMapped(gates[1..], mx, my)
    ensures GatesMapped(gates, m, my)
  {
    forall i | 0 < i < |gates| && gates[i].in1 in m && gates[i].in2 in m
      ensures PairBase(gates[i].out) in my && PairBase(gates[i].out) + 1 in my
    {
      assert gates[1..][i - 1] == gates[i];
    }
  }

  lemma AddGateTopTotalStep(rule: SplitRule, s: State, m: LiteralMap, gate: AndGate)
    requires Valid(s) && MapInArena(s, m)
    ensures rule == SplitOnTop && Ordered(s.arena) ==> AddGate(rule, s, m, gate).Ok?
  {
    if rule == SplitOnTop && Ordered(s.arena) {
      AddGateTopTotal(s, m, gate);
    }
  }

  /** The literal map of an AIGER file: the header is checked for latches,
      the symbol lines create the inputs, the AND lines build the gates. */
  function Build(rule: SplitRule, s: State, aig: AigFile): (r: Result<(State, LiteralMap)>)
    requires Valid(s)
    ensures aig.header.latches != 0 ==> r == Err(LatchesUnsupported(aig.header.latches))
    ensures r.Ok? ==> Valid(r.value.0) && Extends(s, r.value.0) && MapInArena(r.value.0, r.value.1)
    ensures r.Ok? && Ordered(s.arena) ==> Ordered(r.value.0.arena)
    ensures r.Ok? ==> SymbolsMapped(aig.inputs, aig.symbols, r.value.1)
    ensures r.Ok? ==>
              forall i | 0 <= i < |aig.gates| && Declared(aig, aig.gates[i].in1) && Declared(aig, aig.gates[i].in2) ::
                PairBase(aig.gates[i].out) in r.value.1 && PairBase(aig.gates[i].out) + 1 in r.value.1
    ensures r.Ok? ==> r.value.1.Keys == GateKeys(aig.gates, SymbolKeys(aig.inputs, aig.symbols, {}))
  {
    if aig.header.latches != 0 then Err(LatchesUnsupported(aig.header.latches))
    else
      var empty: LiteralMap := map[];
      assert empty.Keys == {};
      var x :- AddSymbols(rule, s, empty, aig.inputs, aig.symbols);
      var y :- AddGates(rule, x.0, x.1, aig.gates);
      ExtendsTrans(s, x.0, y.0);
      BuildMappedStep(aig, x.1, y.1);
      Ok(y)
  }

  /** `l` is the literal of an input symbol or its complement. */
  predicate Declared(aig: AigFile, l: nat) {
    exists i | 0 <= i < |aig.symbols| ::
      && aig.symbols[i].kind == InputSymbol && aig.symbols[i].pos < |aig.inputs|
      && (l == aig.inputs[aig.symbols[i].pos] || l == aig.inputs[aig.symbols[i].pos] + 1)
  }

  lemma BuildMappedStep(aig: AigFile, mx: LiteralMap, my: LiteralMap)
    requires mx.Keys <= my.Keys && SymbolsMapped(aig.inputs, aig.symbols, mx)
    requires GatesMapped(aig.gates, mx, my)
    ensures SymbolsMapped(aig.inputs, aig.symbols, my)
    ensures forall i | 0 <= i < |aig.gates| && Declared(aig, aig.gates[i].in1) && Declared(aig, aig.gates[i].in2) ::
              PairBase(aig.gates[i].out) in my && PairBase(aig.gates[i].out) + 1 in my
  {
    forall l | Declared(aig, l)
      ensures l in mx
    {
      var i :| 0 <= i < |aig.symbols| && aig.symbols[i].kind == InputSymbol && aig.symbols[i].pos < |aig.inputs|
               && (l == aig.inputs[aig.symbols[i].pos] || l == aig.inputs[aig.symbols[i].pos] + 1);
    }
  }

  /** A symbol line naming a missing input position fails the build. */
  lemma BuildOutOfRange(rule: SplitRule, s: State, aig: AigFile, i: nat)
    requires Valid(s) && i < |aig.symbols| && aig.symbols[i].pos >= |aig.inputs|
    ensures Build(rule, s, aig).Err?
  {
    AddSymbolsOutOfRange(rule, s, map[], aig.inputs, aig.symbols, i);
  }

  /** Under the least-top-variable rule a latch-free file whose symbol lines
      are in range and name variables below the terminals' symbol always
      builds on an ordered state. */
  lemma BuildTopTotal(s: State, aig: AigFile)
    requires Valid(s) && Ordered(s.arena) && aig.header.latches == 0
    requires forall i | 0 <= i < |aig.symbols| :: aig.symbols[i].pos < |aig.inputs| && aig.symbols[i].name < TerminalVar
    ensures Build(SplitOnTop, s, aig).Ok?
  {
    AddSymbolsTotal(SplitOnTop, s, map[], aig.inputs, aig.symbols);
  }

  /** Setting an even literal and its partner to a vertex and its
      complement, leaving every other literal, keeps the pairs consistent. */
  lemma PairedUpdate(t: State, m: LiteralMap, m': LiteralMap, lit: nat)
    requires Valid(t) && MapInArena(t, m) && Paired(t, m) && MapInArena(t, m')
    requires lit % 2 == 0 && m'.Keys == m.Keys + {lit, lit + 1}
    requires forall l | l in m && l != lit && l != lit + 1 :: m'[l] == m[l]
    requires Complements(t.arena, m'[lit], m'[lit + 1])
    ensures Paired(t, m')
  {
    forall l | l in m' && l % 2 == 0
      ensures l + 1 in m' && Complements(t.arena, m'[l], m'[l + 1])
    {
      if l != lit {
        assert l in m && l + 1 in m && l + 1 != lit && l + 1 != lit + 1;
      }
    }
    forall l | l in m' && l % 2 == 1
      ensures l - 1 in m'
    {
    }
  }

  lemma AddInputSymbolPaired(rule: SplitRule, s: State, m: LiteralMap, lit: nat, name: char)
    requires Valid(s) && MapInArena(s, m) && Paired(s, m) && lit % 2 == 0
    requires AddInputSymbol(rule, s, m, lit, name).Ok?
    ensures var r := AddInputSymbol(rule, s, m, lit, name).value;
            Paired(r.0, r.1)
  {
    var r := AddInputSymbol(rule, s, m, lit, name).value;
    PairedExtends(s, r.0, m);
    PairedUpdate(r.0, m, r.1, lit);
  }

  /** A gate keeps the pairing: its two literals denote complementary
      functions and every other literal is as before. */
  lemma AddGateKeepsPairs(rule: SplitRule, s: State, m: LiteralMap, gate: AndGate, t: State, m': LiteralMap)
    requires Valid(s) && MapInArena(s, m) && Valid(t) && MapInArena(t, m) && Paired(t, m)
    requires gate.in1 in m && gate.in2 in m && AddGate(rule, s, m, gate) == Ok((t, m'))
    ensures Paired(t, m')
  {
    PairedUpdate(t, m, m', PairBase(gate.out));
  }

  lemma AddGatePaired(rule: SplitRule, s: State, m: LiteralMap, gate: AndGate)
    requires Valid(s) && MapInArena(s, m) && Paired(s, m)
    requires AddGate(rule, s, m, gate).Ok?
    ensures var r := AddGate(rule, s, m, gate).value;
            Paired(r.0, r.1)
  {
    if gate.in1 in m && gate.in2 in m {
      var r := AddGate(rule, s, m, gate).value;
      PairedExtends(s, r.0, m);
      AddGateKeepsPairs(rule, s, m, gate, r.0, r.1);
    }
  }

  lemma {:induction false} AddSymbolsPaired(rule: SplitRule, s: State, m: LiteralMap, inputs: seq<nat>, syms: seq<Symbol>)
    requires Valid(s) && MapInArena(s, m) && Paired(s, m)
    requires forall i | 0 <= i < |inputs| :: inputs[i] % 2 == 0
    requires AddSymbols(rule, s, m, inputs, syms).Ok?
    ensures var r := AddSymbols(rule, s, m, inputs, syms).value;
            Paired(r.0, r.1)
    decreases |syms|
  {
    if |syms| > 0 {
      var sym := syms[0];
      var x := AddSymbol(rule, s, m, inputs, sym).value;
      if sym.kind == InputSymbol {
        AddInputSymbolPaired(rule, s, m, inputs[sym.pos], sym.name);
      }
      AddSymbolsPaired(rule, x.0, x.1, inputs, syms[1..]);
    }
  }

  lemma {:induction false} AddGatesPaired(rule: SplitRule, s: State, m: LiteralMap, gates: seq<AndGate>)
    requires Valid(s) && MapInArena(s, m) && Paired(s, m)
    requires AddGates(rule, s, m, gates).Ok?
    ensures var r := AddGates(rule, s, m, gates).value;
            Paired(r.0, r.1)
    decreases |gates|
  {
    if |gates| > 0 {
      var x := AddGate(rule, s, m, gates[0]).value;
      AddGatePaired(rule, s, m, gates[0]);
      AddGatesPaired(rule, x.0, x.1, gates[1..]);
    }
  }

  /** When every input literal is even, as the AIGER format demands, each
      even literal in the finished map has its odd partner denoting the
      complement, and each odd literal its even partner. */
  lemma BuildPaired(rule: SplitRule, s: State, aig: AigFile)
    requires Valid(s)
    requires forall i | 0 <= i < |aig.inputs| :: aig.inputs[i] % 2 == 0
    requires Build(rule, s, aig).Ok?
    ensures var r := Build(rule, s, aig).value;
            Paired(r.0, r.1)
  {
    var x := AddSymbols(rule, s, map[], aig.inputs, aig.symbols).value;
    AddSymbolsPaired(rule, s, map[], aig.inputs, aig.symbols);
    AddGatesPaired(rule, x.0, x.1, aig.gates);
  }
}
