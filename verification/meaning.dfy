/** What `restrict`, `ite` and the complement compute: their Boolean
    meaning under every assignment, the variable order they keep, and when
    they are guaranteed to succeed. */
module Meaning {
  import opened Errors
  import opened Vertices
  import opened Engine

  /** The terminal short-circuits of `ite`, in the order they are tried;
      none of them touches the arena or the table. */
  lemma IteTerminalRules(rule: SplitRule, s: State, f: Handle, g: Handle, h: Handle)
    requires Valid(s) && f < |s.arena| && g < |s.arena| && h < |s.arena|
    ensures f == One ==> Ite(rule, s, f, g, h) == Ok((s, g))
    ensures f != One && f == Zero ==> Ite(rule, s, f, g, h) == Ok((s, h))
    ensures f != One && f != Zero && g == One && h == Zero ==> Ite(rule, s, f, g, h) == Ok((s, f))
    ensures f != One && f != Zero && !(g == One && h == Zero) && g == h ==> Ite(rule, s, f, g, h) == Ok((s, g))
  {
  }

  /** A successful restriction to the branch that `env` selects for `c`
      denotes the same function as the vertex restricted. */
  lemma RestrictMeaning(a: Arena, x: Handle, c: char, b: Branch, env: set<char>)
    requires Closed(a) && x < |a| && Restrict(a, x, c, b).Ok?
    requires (c in env) <==> b == High
    ensures Eval(a, Restrict(a, x, c, b).value, env) == Eval(a, x, env)
  {
  }

  /** Under `env`, each operand agrees with the cofactor on the side `env`
      selects for the split variable. */
  lemma SplitMeaning(rule: SplitRule, a: Arena, f: Handle, g: Handle, h: Handle, env: set<char>)
    requires Closed(a) && f < |a| && g < |a| && h < |a| && Split(rule, a, f, g, h).Ok?
    ensures var cf := Split(rule, a, f, g, h).value;
            if cf.c in env then
              Eval(a, cf.fh, env) == Eval(a, f, env) && Eval(a, cf.gh, env) == Eval(a, g, env) && Eval(a, cf.hh, env) == Eval(a, h, env)
            else
              Eval(a, cf.fl, env) == Eval(a, f, env) && Eval(a, cf.gl, env) == Eval(a, g, env) && Eval(a, cf.hl, env) == Eval(a, h, env)
  {
    var c := SplitVar(rule, a, f, g, h);
    var b := if c in env then High else Low;
    RestrictMeaning(a, f, c, b, env);
    RestrictMeaning(a, g, c, b, env);
    RestrictMeaning(a, h, c, b, env);
  }

  /** `ite` computes if-then-else: whenever it succeeds, its result denotes
      F·G + F'·H under every assignment. */
  lemma {:induction false} IteMeaning(rule: SplitRule, s: State, f: Handle, g: Handle, h: Handle, env: set<char>)
    requires Valid(s) && f < |s.arena| && g < |s.arena| && h < |s.arena|
    requires Ite(rule, s, f, g, h).Ok?
    ensures var r := Ite(rule, s, f, g, h).value;
            Eval(r.0.arena, r.1, env) == if Eval(s.arena, f, env) then Eval(s.arena, g, env) else Eval(s.arena, h, env)
    decreases f + g + h
  {
    if f == One || f == Zero || (g == One && h == Zero) || g == h {
    } else {
      var a := s.arena;
      var cf := Split(rule, a, f, g, h).value;
      IteUnfold(rule, s, f, g, h);
      IteStep(rule, s, f, g, h, cf);
      var high := Ite(rule, s, cf.fh, cf.gh, cf.hh).value;
      var low := Ite(rule, high.0, cf.fl, cf.gl, cf.hl).value;
      var r := Ite(rule, s, f, g, h).value;
      IteMeaning(rule, s, cf.fh, cf.gh, cf.hh, env);
      IteMeaning(rule, high.0, cf.fl, cf.gl, cf.hl, env);
      SplitMeaning(rule, a, f, g, h, env);
      EvalPrefix(a, high.0.arena, cf.fl, env);
      EvalPrefix(a, high.0.arena, cf.gl, env);
      EvalPrefix(a, high.0.arena, cf.hl, env);
      EvalPrefix(high.0.arena, low.0.arena, high.1, env);
      EvalPrefix(low.0.arena, r.0.arena, low.1, env);
      EvalPrefix(low.0.arena, r.0.arena, high.1, env);
    }
  }

  lemma IteMeaningAll(rule: SplitRule, s: State, f: Handle, g: Handle, h: Handle)
    requires Valid(s) && f < |s.arena| && g < |s.arena| && h < |s.arena|
    requires Ite(rule, s, f, g, h).Ok?
    ensures var r := Ite(rule, s, f, g, h).value;
            forall env :: Eval(r.0.arena, r.1, env) == if Eval(s.arena, f, env) then Eval(s.arena, g, env) else Eval(s.arena, h, env)
  {
    forall env {
      IteMeaning(rule, s, f, g, h, env);
    }
  }

  /** The complement denotes the negation of its operand. */
  lemma NotMeaning(rule: SplitRule, s: State, x: Handle)
    requires Valid(s) && x < |s.arena| && Not(rule, s, x).Ok?
    ensures var r := Not(rule, s, x).value;
            forall env :: Eval(r.0.arena, r.1, env) == !Eval(s.arena, x, env)
  {
    IteMeaningAll(rule, s, x, Zero, One);
  }

  /** Past the terminal cases, `ite` is its recursive step on the
      cofactors of a successful split. */
  lemma IteUnfold(rule: SplitRule, s: State, f: Handle, g: Handle, h: Handle)
    requires Valid(s) && f < |s.arena| && g < |s.arena| && h < |s.arena|
    requires f != One && f != Zero && !(g == One && h == Zero) && g != h
    requires Split(rule, s.arena, f, g, h).Ok?
    ensures Ite(rule, s, f, g, h) == IteSplit(rule, s, f, g, h, Split(rule, s.arena, f, g, h).value)
  {
  }

  /** The recursive step succeeds exactly when both recursive calls do,
      and then returns the shared child when the two results coincide and
      otherwise the interned vertex over them, in a state that extends the
      one the low side left. */
  lemma IteStep(rule: SplitRule, s: State, f: Handle, g: Handle, h: Handle, cf: Cofactors)
    requires Valid(s) && f < |s.arena| && g < |s.arena| && h < |s.arena|
    requires Split(rule, s.arena, f, g, h) == Ok(cf)
    ensures IteSplit(rule, s, f, g, h, cf).Ok? <==>
              && Ite(rule, s, cf.fh, cf.gh, cf.hh).Ok?
              && Ite(rule, Ite(rule, s, cf.fh, cf.gh, cf.hh).value.0, cf.fl, cf.gl, cf.hl).Ok?
    ensures IteSplit(rule, s, f, g, h, cf).Ok? ==>
              var high := Ite(rule, s, cf.fh, cf.gh, cf.hh).value;
              var low := Ite(rule, high.0, cf.fl, cf.gl, cf.hl).value;
              var r := IteSplit(rule, s, f, g, h, cf).value;
              && Prefix(low.0.arena, r.0.arena)
              && (low.1 == high.1 ==> r == (low.0, high.1))
              && (low.1 != high.1 ==> r.0.arena[r.1].Node? && KeyOf(r.0.arena[r.1]) == (cf.c, low.1, high.1))
  {
    SplitVarInterned(rule, s, f, g, h);
    if Ite(rule, s, cf.fh, cf.gh, cf.hh).Ok? {
      var high := Ite(rule, s, cf.fh, cf.gh, cf.hh).value;
      assert IteSplit(rule, s, f, g, h, cf) == IteLow(rule, s, f + g + h, cf, high);
      if Ite(rule, high.0, cf.fl, cf.gl, cf.hl).Ok? {
        var low := Ite(rule, high.0, cf.fl, cf.gl, cf.hl).value;
        ExtendsTrans(s, high.0, low.0);
        assert IteSplit(rule, s, f, g, h, cf) == Ok(Reduce(low.0, cf.c, low.1, high.1));
      }
    }
  }

  /** In an ordered arena the complement never fails, under either split
      rule, and keeps the arena ordered. */
  lemma {:induction false} NotTotal(rule: SplitRule, s: State, x: Handle)
    requires Valid(s) && Ordered(s.arena) && x < |s.arena|
    ensures Not(rule, s, x).Ok?
    ensures Ordered(Not(rule, s, x).value.0.arena)
    decreases x
  {
    if x >= 2 {
      var a := s.arena;
      VarBound(a, x);
      assert SplitVar(rule, a, x, Zero, One) == a[x].v;
      var cf := Split(rule, a, x, Zero, One).value;
      assert cf.fh == a[x].hi && cf.gh == Zero && cf.hh == One;
      assert cf.fl == a[x].lo && cf.gl == Zero && cf.hl == One;
      NotTotal(rule, s, a[x].hi);
      var high := Ite(rule, s, cf.fh, cf.gh, cf.hh).value;
      NotTotal(rule, high.0, a[x].lo);
      IteStep(rule, s, x, Zero, One, cf);
      IteUnfold(rule, s, x, Zero, One);
    }
  }

  /** The complement of a primary input `x` is the vertex testing `x` with
      low child 1 and high child 0. */
  lemma NotOfInput(rule: SplitRule, s: State, x: Handle)
    requires Valid(s) && 2 <= x < |s.arena|
    requires s.arena[x].lo == Zero && s.arena[x].hi == One && s.arena[x].v < TerminalVar
    ensures Not(rule, s, x).Ok?
    ensures var r := Not(rule, s, x).value;
            r.0.arena[r.1].Node? && KeyOf(r.0.arena[r.1]) == (s.arena[x].v, One, Zero)
  {
    var a := s.arena;
    assert SplitVar(rule, a, x, Zero, One) == a[x].v;
    var cf := Split(rule, a, x, Zero, One).value;
    assert Ite(rule, s, cf.fh, cf.gh, cf.hh) == Ok((s, Zero));
    assert Ite(rule, s, cf.fl, cf.gl, cf.hl) == Ok((s, One));
    IteStep(rule, s, x, Zero, One, cf);
    IteUnfold(rule, s, x, Zero, One);
  }

  /** The complement of an input vertex whose symbol is not below the
      terminals' symbol fails: the split reaches a terminal that would have
      to be restricted. */
  lemma NotOfInputAboveTerminal(rule: SplitRule, s: State, x: Handle)
    requires Valid(s) && 2 <= x < |s.arena|
    requires s.arena[x].lo == Zero && s.arena[x].hi == One && s.arena[x].v >= TerminalVar
    ensures Not(rule, s, x).Err?
  {
    assert Split(rule, s.arena, x, Zero, One).Err?;
  }

  /** Under the least-top-variable rule `ite` never fails on an ordered arena. */
  lemma {:induction false} IteTopTotal(s: State, f: Handle, g: Handle, h: Handle)
    requires Valid(s) && Ordered(s.arena) && f < |s.arena| && g < |s.arena| && h < |s.arena|
    ensures Ite(SplitOnTop, s, f, g, h).Ok?
    decreases f + g + h
  {
    if f == One || f == Zero || (g == One && h == Zero) || g == h {
    } else {
      var a := s.arena;
      VarBound(a, f);
      VarBound(a, g);
      VarBound(a, h);
      assert Split(SplitOnTop, a, f, g, h).Ok?;
      var cf := Split(SplitOnTop, a, f, g, h).value;
      IteTopTotal(s, cf.fh, cf.gh, cf.hh);
      var high := Ite(SplitOnTop, s, cf.fh, cf.gh, cf.hh).value;
      IteTopTotal(high.0, cf.fl, cf.gl, cf.hl);
      IteStep(SplitOnTop, s, f, g, h, cf);
      IteUnfold(SplitOnTop, s, f, g, h);
    }
  }
}
