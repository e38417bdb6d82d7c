/** Vertices of the decision diagram. All vertices live in one arena (a
    sequence) and refer to each other by their index there, so that the
    object identity the original program relies on becomes equality of
    handles. */
module Vertices {

  /** Index of a vertex in the arena. */
  type Handle = nat

  /** Slot of the constant-1 terminal, created first. */
  const One: Handle := 0

  /** Slot of the constant-0 terminal, created second. */
  const Zero: Handle := 1

  /** Variable symbol stored in both terminals; it compares above every
      letter, so no terminal is ever restricted. */
  const TerminalVar: char := '~'

  /** A terminal carries only its ITE expression; a decision vertex tests `v` and
      continues at `hi` when `v` is true and at `lo` when it is false. */
  datatype Vertex =
    | Leaf(expr: string)
    | Node(v: char, expr: string, lo: Handle, hi: Handle)

  type Arena = seq<Vertex>

  /** The shape every arena keeps: the two terminals in their slots, and
      every other vertex a decision vertex whose children were created
      before it. */
  predicate Closed(a: Arena) {
    && |a| >= 2
    && a[One] == Leaf("1")
    && a[Zero] == Leaf("0")
    && forall i | 2 <= i < |a| :: a[i].Node? && a[i].lo < i && a[i].hi < i
  }

  /** The variable a vertex tests; terminals report `TerminalVar`. */
  function Var(a: Arena, x: Handle): char
    requires x < |a|
  {
    if a[x].Leaf? then TerminalVar else a[x].v
  }

  /** Variable order: every child tests a strictly later variable than its parent. */
  predicate Ordered(a: Arena)
    requires Closed(a)
  {
    forall i | 2 <= i < |a| :: OrderedAt(a, i)
  }

  /** Vertex `i` tests an earlier variable than both its children. */
  predicate OrderedAt(a: Arena, i: Handle)
    requires Closed(a) && 2 <= i < |a|
  {
    a[i].v < Var(a, a[i].lo) && a[i].v < Var(a, a[i].hi)
  }

  lemma ChildrenLater(a: Arena, x: Handle)
    requires Closed(a) && x < |a|
    ensures Ordered(a) && x >= 2 ==> a[x].v < Var(a, a[x].lo) && a[x].v < Var(a, a[x].hi)
  {
    if Ordered(a) && x >= 2 {
      assert OrderedAt(a, x);
    }
  }

  /** No decision vertex has the same vertex as both children. */
  predicate Reduced(a: Arena)
    requires Closed(a)
  {
    forall i | 2 <= i < |a| :: a[i].lo != a[i].hi
  }

  /** The Boolean function a vertex denotes, under the assignment that makes
      exactly the variables in `env` true. */
  function Eval(a: Arena, x: Handle, env: set<char>): bool
    requires Closed(a) && x < |a|
    decreases x
  {
    if x == One then true
    else if x == Zero then false
    else if a[x].v in env then Eval(a, a[x].hi, env)
    else Eval(a, a[x].lo, env)
  }

  /** Reference rendering of a vertex as an ITE expression: the terminals
      print as "1" and "0", a primary input (low child 0, high child 1) as
      its symbol, any other vertex as `ITE[var, high, low]`. */
  function Text(a: Arena, x: Handle): string
    requires Closed(a) && x < |a|
    decreases x
  {
    if x == One then "1"
    else if x == Zero then "0"
    else if a[x].lo == Zero && a[x].hi == One then [a[x].v]
    else "ITE[" + [a[x].v] + ", " + Text(a, a[x].hi) + ", " + Text(a, a[x].lo) + "]"
  }

  /** Every stored ITE expression agrees with the reference rendering. */
  predicate Labelled(a: Arena)
    requires Closed(a)
  {
    forall i | 0 <= i < |a| :: LabelledAt(a, i)
  }

  /** Vertex `i` stores its reference rendering. */
  predicate LabelledAt(a: Arena, i: Handle)
    requires Closed(a) && i < |a|
  {
    a[i].expr == Text(a, i)
  }

  /** `b` grew from `a`: every vertex of `a` keeps its index in `b`. */
  predicate Prefix(a: Arena, b: Arena) {
    |a| <= |b| && forall i | 0 <= i < |a| :: SameAt(a, b, i)
  }

  predicate SameAt(a: Arena, b: Arena, i: Handle)
    requires i < |a| && i < |b|
  {
    a[i] == b[i]
  }

  lemma PrefixAt(a: Arena, b: Arena, x: Handle)
    requires Prefix(a, b) && x < |a|
    ensures b[x] == a[x]
  {
    assert SameAt(a, b, x);
  }

  lemma PrefixAppend(a: Arena, n: Vertex)
    ensures Prefix(a, a + [n])
  {
    forall i | 0 <= i < |a|
      ensures SameAt(a, a + [n], i)
    {
    }
  }

  lemma PrefixTrans(a: Arena, b: Arena, c: Arena)
    requires Prefix(a, b) && Prefix(b, c)
    ensures Prefix(a, c)
  {
    forall i | 0 <= i < |a|
      ensures SameAt(a, c, i)
    {
      assert SameAt(a, b, i) && SameAt(b, c, i);
    }
  }

  /** Appending to an arena does not change what its old vertices denote. */
  lemma {:induction false} EvalPrefix(a: Arena, b: Arena, x: Handle, env: set<char>)
    requires Closed(a) && Closed(b) && Prefix(a, b) && x < |a|
    ensures Eval(b, x, env) == Eval(a, x, env)
    decreases x
  {
    if x >= 2 {
      PrefixAt(a, b, x);
      EvalPrefix(a, b, a[x].lo, env);
      EvalPrefix(a, b, a[x].hi, env);
    }
  }

  /** Appending to an arena does not change how its old vertices render. */
  lemma {:induction false} TextPrefix(a: Arena, b: Arena, x: Handle)
    requires Closed(a) && Closed(b) && Prefix(a, b) && x < |a|
    ensures Text(b, x) == Text(a, x)
    decreases x
  {
    if x >= 2 {
      PrefixAt(a, b, x);
      TextPrefix(a, b, a[x].lo);
      TextPrefix(a, b, a[x].hi);
    }
  }

  lemma TextPrefixAll(a: Arena, b: Arena)
    requires Closed(a) && Closed(b) && Prefix(a, b)
    ensures forall x | 0 <= x < |a| :: Text(b, x) == Text(a, x)
  {
    forall x | 0 <= x < |a|
      ensures Text(b, x) == Text(a, x)
    {
      TextPrefix(a, b, x);
    }
  }

  /** In an ordered arena every decision vertex tests a variable below the
      terminals' symbol. */
  lemma {:induction false} VarBound(a: Arena, x: Handle)
    requires Closed(a) && Ordered(a) && x < |a|
    ensures Var(a, x) <= TerminalVar
    ensures x >= 2 ==> a[x].v < TerminalVar
    decreases x
  {
    if x >= 2 {
      assert OrderedAt(a, x);
      VarBound(a, a[x].lo);
    }
  }

  /** In an ordered arena a vertex does not depend on any variable that
      precedes its own. */
  lemma {:induction false} Independent(a: Arena, x: Handle, c: char, env: set<char>)
    requires Closed(a) && Ordered(a) && x < |a| && c < Var(a, x)
    ensures Eval(a, x, env + {c}) == Eval(a, x, env - {c})
    decreases x
  {
    if x >= 2 {
      assert OrderedAt(a, x);
      Independent(a, a[x].lo, c, env);
      Independent(a, a[x].hi, c, env);
    }
  }
}
