/** Canonicity of a reduced, ordered diagram: two vertices of a valid,
    ordered engine state that denote the same Boolean function are the same
    vertex. This is what makes the unique table worth having, and it turns
    facts about meaning into facts about handles and ITE expressions. */
module Canonicity {
  import opened Errors
  import opened Vertices
  import opened Engine
  import opened Meaning

  function Max(x: nat, y: nat): (m: nat)
    ensures x <= m && y <= m && (m == x || m == y)
  {
    if x < y then y else x
  }

  /** Vertices that agree under every assignment are one vertex. */
  lemma {:induction false} Canonical(s: State, x: Handle, y: Handle)
    requires Valid(s) && Ordered(s.arena) && x < |s.arena| && y < |s.arena|
    requires forall env :: Eval(s.arena, x, env) == Eval(s.arena, y, env)
    ensures x == y
    decreases Max(x, y), 1
  {
    if Var(s.arena, x) <= Var(s.arena, y) {
      CanonicalOrdered(s, x, y);
    } else {
      CanonicalOrdered(s, y, x);
    }
  }

  /** A decision vertex agrees with its high child when its variable is
      true and with its low child when it is false, whatever else holds. */
  lemma Shannon(s: State, x: Handle, env: set<char>)
    requires Valid(s) && Ordered(s.arena) && 2 <= x < |s.arena|
    ensures Eval(s.arena, s.arena[x].hi, env) == Eval(s.arena, x, env + {s.arena[x].v})
    ensures Eval(s.arena, s.arena[x].lo, env) == Eval(s.arena, x, env - {s.arena[x].v})
  {
    var a, c := s.arena, s.arena[x].v;
    ChildrenLater(a, x);
    Independent(a, a[x].hi, c, env);
    Independent(a, a[x].lo, c, env);
    assert env == env + {c} || env == env - {c};
  }

  lemma {:induction false} CanonicalOrdered(s: State, x: Handle, y: Handle)
    requires Valid(s) && Ordered(s.arena) && x < |s.arena| && y < |s.arena|
    requires Var(s.arena, x) <= Var(s.arena, y)
    requires forall env :: Eval(s.arena, x, env) == Eval(s.arena, y, env)
    ensures x == y
    decreases Max(x, y), 0
  {
    var a := s.arena;
    VarBound(a, x);
    VarBound(a, y);
    if x < 2 {
      assert y < 2;
      assert Eval(a, x, {}) == Eval(a, y, {});
    } else {
      var c := a[x].v;
      ChildrenLater(a, x);
      if Var(a, y) == c {
        assert y >= 2;
        ChildrenLater(a, y);
        forall env
          ensures Eval(a, a[x].hi, env) == Eval(a, a[y].hi, env)
          ensures Eval(a, a[x].lo, env) == Eval(a, a[y].lo, env)
        {
          Shannon(s, x, env);
          Shannon(s, y, env);
        }
        Canonical(s, a[x].hi, a[y].hi);
        Canonical(s, a[x].lo, a[y].lo);
        assert Registered(s, x) && Registered(s, y);
      } else {
        forall env
          ensures Eval(a, a[x].hi, env) == Eval(a, a[x].lo, env)
        {
          Shannon(s, x, env);
          Independent(a, y, c, env);
        }
        Canonical(s, a[x].hi, a[x].lo);
        assert false;
      }
    }
  }

  /** Vertices that denote the same function carry the same ITE expression. */
  lemma SameFunctionSameExpr(s: State, x: Handle, y: Handle)
    requires Valid(s) && Ordered(s.arena) && x < |s.arena| && y < |s.arena|
    requires forall env :: Eval(s.arena, x, env) == Eval(s.arena, y, env)
    ensures s.arena[x].expr == s.arena[y].expr
  {
    Canonical(s, x, y);
  }

  /** Complementing twice gives back the vertex complemented, under either
      split rule. */
  lemma NotInvolution(rule: SplitRule, s: State, x: Handle)
    requires Valid(s) && Ordered(s.arena) && x < |s.arena|
    ensures Not(rule, s, x).Ok?
    ensures var n := Not(rule, s, x).value;
            Not(rule, n.0, n.1).Ok? && Not(rule, n.0, n.1).value.1 == x
  {
    NotTotal(rule, s, x);
    var n := Not(rule, s, x).value;
    NotMeaning(rule, s, x);
    NotTotal(rule, n.0, n.1);
    var nn := Not(rule, n.0, n.1).value;
    NotMeaning(rule, n.0, n.1);
    ExtendsTrans(s, n.0, nn.0);
    forall env
      ensures Eval(nn.0.arena, nn.1, env) == Eval(nn.0.arena, x, env)
    {
      EvalPrefix(s.arena, nn.0.arena, x, env);
    }
    Canonical(nn.0, nn.1, x);
  }

  /** Whatever `ite` returns in an ordered state is the vertex already
      present for F·G + F'·H, if there is one. */
  lemma IteFindsExisting(rule: SplitRule, s: State, f: Handle, g: Handle, h: Handle, y: Handle)
    requires Valid(s) && Ordered(s.arena) && f < |s.arena| && g < |s.arena| && h < |s.arena| && y < |s.arena|
    requires Ite(rule, s, f, g, h).Ok?
    requires forall env :: Eval(s.arena, y, env) == if Eval(s.arena, f, env) then Eval(s.arena, g, env) else Eval(s.arena, h, env)
    ensures Ite(rule, s, f, g, h).value.1 == y
  {
    var r := Ite(rule, s, f, g, h).value;
    IteMeaningAll(rule, s, f, g, h);
    forall env
      ensures Eval(r.0.arena, r.1, env) == Eval(r.0.arena, y, env)
    {
      EvalPrefix(s.arena, r.0.arena, y, env);
    }
    Canonical(r.0, r.1, y);
  }
}
