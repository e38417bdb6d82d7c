/** The ROBDD engine: the vertex arena with its unique table, `restrict`,
    the recursive `ite` operator and the complement built from it. The
    engine state is an immutable record threaded through every operation. */
module Engine {
  import opened Errors
  import opened Vertices

  /** Unique-table key: (variable, low child, high child). */
  type Key = (char, Handle, Handle)

  function KeyOf(x: Vertex): Key
    requires x.Node?
  {
    (x.v, x.lo, x.hi)
  }

  /** Key under which the primary-input vertex of `v` is stored: its low
      child is the 0 terminal and its high child the 1 terminal. */
  function InputKey(v: char): Key {
    (v, Zero, One)
  }

  datatype State = State(arena: Arena, table: map<Key, Handle>)

  /** The unique table and the arena agree: every key names a decision
      vertex with exactly those fields, and every decision vertex is the one
      its key names, so no two vertices share a key. */
  predicate Interned(s: State)
    requires Closed(s.arena)
  {
    && (forall k | k in s.table :: KeyNames(s, k))
    && (forall i | 2 <= i < |s.arena| :: Registered(s, i))
  }

  /** Key `k` names a decision vertex with exactly those fields. */
  predicate KeyNames(s: State, k: Key)
    requires k in s.table
  {
    2 <= s.table[k] < |s.arena| && s.arena[s.table[k]].Node? && KeyOf(s.arena[s.table[k]]) == k
  }

  /** Decision vertex `i` is the one its key names. */
  predicate Registered(s: State, i: Handle)
    requires Closed(s.arena) && 2 <= i < |s.arena|
  {
    KeyOf(s.arena[i]) in s.table && s.table[KeyOf(s.arena[i])] == i
  }

  /** Every variable tested anywhere has its primary-input vertex. */
  predicate InputsInterned(s: State)
    requires Closed(s.arena)
  {
    forall i | 2 <= i < |s.arena| :: HasInput(s, i)
  }

  /** The variable of decision vertex `i` has its primary-input vertex. */
  predicate HasInput(s: State, i: Handle)
    requires Closed(s.arena) && 2 <= i < |s.arena|
  {
    InputKey(s.arena[i].v) in s.table
  }

  /** The invariant every engine state keeps. */
  predicate Valid(s: State) {
    && Closed(s.arena)
    && Reduced(s.arena)
    && Labelled(s.arena)
    && Interned(s)
    && InputsInterned(s)
  }

  /** `t` is `s` after some growth: the arena only gains vertices at its end
      and the table only gains keys. */
  predicate Extends(s: State, t: State) {
    && Prefix(s.arena, t.arena)
    && forall k | k in s.table :: KeptKey(s, t, k)
  }

  /** Key `k` of `s` is still present in `t`, naming the same vertex. */
  predicate KeptKey(s: State, t: State, k: Key)
    requires k in s.table
  {
    k in t.table && t.table[k] == s.table[k]
  }

  lemma ExtendsKey(s: State, t: State, k: Key)
    requires Extends(s, t) && k in s.table
    ensures k in t.table && t.table[k] == s.table[k]
  {
    assert KeptKey(s, t, k);
  }

  /** A fresh engine: the two terminals and an empty unique table. */
  function Init(): (s: State)
    ensures Valid(s) && Ordered(s.arena)
    ensures |s.arena| == 2 && s.table == map[]
    ensures forall env :: Eval(s.arena, One, env) && !Eval(s.arena, Zero, env)
    ensures Text(s.arena, One) == "1" && Text(s.arena, Zero) == "0"
  {
    State([Leaf("1"), Leaf("0")], map[])
  }

  /** `s` with decision vertex `n` appended and registered under its key. */
  function Append(s: State, n: Vertex): State
    requires n.Node?
  {
    State(s.arena + [n], s.table[KeyOf(n) := |s.arena|])
  }

  /** Appending a decision vertex with older children keeps the arena shape. */
  lemma AppendClosed(s: State, n: Vertex)
    requires Closed(s.arena) && n.Node? && n.lo < |s.arena| && n.hi < |s.arena|
    ensures Closed(Append(s, n).arena)
    ensures Reduced(s.arena) && n.lo != n.hi ==> Reduced(Append(s, n).arena)
    ensures Ordered(s.arena) && n.v < Var(s.arena, n.lo) && n.v < Var(s.arena, n.hi) ==>
              Ordered(Append(s, n).arena)
  {
    var a, b := s.arena, Append(s, n).arena;
    forall i | 2 <= i < |b|
      ensures b[i].Node? && b[i].lo < i && b[i].hi < i
    {
      if i < |a| { assert b[i] == a[i]; }
    }
    if Reduced(a) && n.lo != n.hi {
      forall i | 2 <= i < |b|
        ensures b[i].lo != b[i].hi
      {
        if i < |a| { assert b[i] == a[i]; }
      }
    }
    if Ordered(a) && n.v < Var(a, n.lo) && n.v < Var(a, n.hi) {
      forall i | 2 <= i < |b|
        ensures OrderedAt(b, i)
      {
        if i < |a| { assert b[i] == a[i] && OrderedAt(a, i); }
      }
    }
  }

  lemma AppendLabelled(s: State, n: Vertex)
    requires Closed(s.arena) && Labelled(s.arena) && n.Node? && n.lo < |s.arena| && n.hi < |s.arena|
    requires Closed(s.arena + [n]) && n.expr == Text(s.arena + [n], |s.arena|)
    ensures Labelled(Append(s, n).arena)
  {
    var a, b := s.arena, Append(s, n).arena;
    PrefixAppend(a, n);
    TextPrefixAll(a, b);
    forall i | 0 <= i < |b|
      ensures LabelledAt(b, i)
    {
      if i < |a| { assert b[i] == a[i] && LabelledAt(a, i); }
    }
  }

  lemma AppendInterned(s: State, n: Vertex)
    requires Closed(s.arena) && Interned(s) && InputsInterned(s) && n.Node?
    requires Closed(Append(s, n).arena)
    requires KeyOf(n) !in s.table
    requires InputKey(n.v) in s.table || KeyOf(n) == InputKey(n.v)
    ensures Interned(Append(s, n)) && InputsInterned(Append(s, n))
    ensures Extends(s, Append(s, n))
  {
    PrefixAppend(s.arena, n);
    var a, t := s.arena, Append(s, n);
    var b := t.arena;
    forall k | k in t.table
      ensures KeyNames(t, k)
    {
      if k != KeyOf(n) { assert KeyNames(s, k) && b[s.table[k]] == a[s.table[k]]; }
    }
    forall i | 2 <= i < |b|
      ensures Registered(t, i) && HasInput(t, i)
    {
      if i < |a| { assert b[i] == a[i] && Registered(s, i) && HasInput(s, i); }
    }
  }

  /** Appending a fresh, reduced vertex whose expression is its rendering
      keeps the engine invariant. */
  lemma AppendValid(s: State, n: Vertex)
    requires Valid(s) && n.Node? && n.lo < |s.arena| && n.hi < |s.arena| && n.lo != n.hi
    requires KeyOf(n) !in s.table
    requires InputKey(n.v) in s.table || KeyOf(n) == InputKey(n.v)
    requires Closed(s.arena + [n]) ==> n.expr == Text(s.arena + [n], |s.arena|)
    ensures Valid(Append(s, n)) && Extends(s, Append(s, n))
  {
    AppendClosed(s, n);
    AppendLabelled(s, n);
    AppendInterned(s, n);
  }

  /** Look up `(c, lo, hi)` in the unique table, or append a new vertex for
      it and register it. The caller has already reduced `lo == hi` away. */
  function Mk(s: State, c: char, lo: Handle, hi: Handle): (r: (State, Handle))
    requires Valid(s) && lo < |s.arena| && hi < |s.arena| && lo != hi
    requires InputKey(c) in s.table
    ensures Valid(r.0) && Extends(s, r.0)
    ensures r.1 < |r.0.arena| && r.0.arena[r.1].Node? && KeyOf(r.0.arena[r.1]) == (c, lo, hi)
    ensures (c, lo, hi) in s.table ==> r == (s, s.table[(c, lo, hi)])
    ensures (c, lo, hi) !in s.table ==>
              && |r.0.arena| == |s.arena| + 1
              && r.1 == |s.arena|
              && r.0.table == s.table[(c, lo, hi) := r.1]
    ensures Ordered(s.arena) && c < Var(s.arena, lo) && c < Var(s.arena, hi) ==> Ordered(r.0.arena)
  {
    var key := (c, lo, hi);
    if key in s.table then
      (s, s.table[key])
    else
      assert LabelledAt(s.arena, lo) && LabelledAt(s.arena, hi);
      var n := Node(c, "ITE[" + [c] + ", " + s.arena[hi].expr + ", " + s.arena[lo].expr + "]", lo, hi);
      PrefixAppend(s.arena, n);
      TextPrefixAll(s.arena, s.arena + [n]);
      AppendValid(s, n);
      AppendClosed(s, n);
      (Append(s, n), |s.arena|)
  }

  /** Create the primary-input vertex for symbol `name`; only called when
      its key is absent. */
  function AddInput(s: State, name: char): (r: (State, Handle))
    requires Valid(s) && InputKey(name) !in s.table
    ensures Valid(r.0) && Extends(s, r.0)
    ensures |r.0.arena| == |s.arena| + 1 && r.1 == |s.arena|
    ensures r.0.table == s.table[InputKey(name) := r.1]
    ensures r.0.arena[r.1].Node? && KeyOf(r.0.arena[r.1]) == InputKey(name)
    ensures Text(r.0.arena, r.1) == [name]
    ensures forall env :: Eval(r.0.arena, r.1, env) == (name in env)
    ensures Ordered(s.arena) && name < TerminalVar ==> Ordered(r.0.arena)
  {
    var n := Node(name, [name], Zero, One);
    AppendValid(s, n);
    AppendClosed(s, n);
    (Append(s, n), |s.arena|)
  }

  datatype Branch = Low | High

  /** Cofactor of `x` with respect to variable `c`: a vertex testing a later
      variable does not depend on `c` and is returned unchanged; a vertex
      testing `c` gives its low or high child; a vertex testing an earlier
      variable is a call-discipline violation. */
  function Restrict(a: Arena, x: Handle, c: char, b: Branch): (r: Result<Handle>)
    requires Closed(a) && x < |a|
    ensures r.Ok? <==> c < Var(a, x) || (c == Var(a, x) && a[x].Node?)
    ensures c < Var(a, x) ==> r == Ok(x)
    ensures c == Var(a, x) && a[x].Node? ==> r == Ok(if b == Low then a[x].lo else a[x].hi)
    ensures r.Ok? ==> r.value <= x && (c == Var(a, x) ==> r.value < x)
    ensures r.Ok? && Ordered(a) ==> c < Var(a, r.value)
  {
    var cur := Var(a, x);
    ChildrenLater(a, x);
    if cur > c then Ok(x)
    else if cur == c then
      if a[x].Leaf? then Err(NoChild)
      else if b == Low then Ok(a[x].lo)
      else Ok(a[x].hi)
    else Err(LowerRestriction)
  }

  /** Which variable `ite` splits on: the original program takes the
      variable of its first operand; the classic algorithm takes the least
      top variable of the three operands. */
  datatype SplitRule = SplitOnFirst | SplitOnTop

  function Min3(x: char, y: char, z: char): (m: char)
    ensures m <= x && m <= y && m <= z
    ensures m == x || m == y || m == z
  {
    if x <= y && x <= z then x else if y <= z then y else z
  }

  function SplitVar(rule: SplitRule, a: Arena, f: Handle, g: Handle, h: Handle): char
    requires f < |a| && g < |a| && h < |a|
  {
    match rule
    case SplitOnFirst => Var(a, f)
    case SplitOnTop => Min3(Var(a, f), Var(a, g), Var(a, h))
  }

  /** The split variable and the six cofactors `ite` recurses on. */
  datatype Cofactors = Cofactors(c: char, fh: Handle, gh: Handle, hh: Handle, fl: Handle, gl: Handle, hl: Handle)

  function Split(rule: SplitRule, a: Arena, f: Handle, g: Handle, h: Handle): (r: Result<Cofactors>)
    requires Closed(a) && f < |a| && g < |a| && h < |a|
    ensures r.Ok? <==>
              var c := SplitVar(rule, a, f, g, h);
              && (c < Var(a, f) || (c == Var(a, f) && a[f].Node?))
              && (c < Var(a, g) || (c == Var(a, g) && a[g].Node?))
              && (c < Var(a, h) || (c == Var(a, h) && a[h].Node?))
    ensures r.Ok? ==>
              var cf := r.value;
              && cf.c == SplitVar(rule, a, f, g, h)
              && cf.fh <= f && cf.gh <= g && cf.hh <= h && cf.fl <= f && cf.gl <= g && cf.hl <= h
              && cf.fh + cf.gh + cf.hh < f + g + h
              && cf.fl + cf.gl + cf.hl < f + g + h
              && ((a[f].Node? && a[f].v == cf.c) || (a[g].Node? && a[g].v == cf.c) || (a[h].Node? && a[h].v == cf.c))
    ensures r.Ok? && Ordered(a) ==>
              var cf := r.value;
              && cf.c < Var(a, cf.fh) && cf.c < Var(a, cf.gh) && cf.c < Var(a, cf.hh)
              && cf.c < Var(a, cf.fl) && cf.c < Var(a, cf.gl) && cf.c < Var(a, cf.hl)
  {
    var c := SplitVar(rule, a, f, g, h);
    var fh :- Restrict(a, f, c, High);
    var gh :- Restrict(a, g, c, High);
    var hh :- Restrict(a, h, c, High);
    // A low restriction fails exactly when the high one does.
    var fl := Restrict(a, f, c, Low).value;
    var gl := Restrict(a, g, c, Low).value;
    var hl := Restrict(a, h, c, Low).value;
    Ok(Cofactors(c, fh, gh, hh, fl, gl, hl))
  }

  /** The variable `ite` splits on, once the split succeeded, is tested by
      some operand and so has its primary-input vertex. */
  lemma SplitVarInterned(rule: SplitRule, s: State, f: Handle, g: Handle, h: Handle)
    requires Valid(s) && f < |s.arena| && g < |s.arena| && h < |s.arena|
    requires Split(rule, s.arena, f, g, h).Ok?
    ensures InputKey(Split(rule, s.arena, f, g, h).value.c) in s.table
  {
    var a, c := s.arena, Split(rule, s.arena, f, g, h).value.c;
    if a[f].Node? && a[f].v == c {
      assert HasInput(s, f);
    } else if a[g].Node? && a[g].v == c {
      assert HasInput(s, g);
    } else {
      assert HasInput(s, h);
    }
  }

  lemma VarPrefix(a: Arena, b: Arena, x: Handle)
    requires Prefix(a, b) && x < |a|
    ensures Var(b, x) == Var(a, x)
  {
    PrefixAt(a, b, x);
  }

  lemma ExtendsTrans(s: State, t: State, u: State)
    requires Extends(s, t) && Extends(t, u)
    ensures Extends(s, u)
  {
    PrefixTrans(s.arena, t.arena, u.arena);
    forall k | k in s.table
      ensures KeptKey(s, u, k)
    {
      assert KeptKey(s, t, k) && KeptKey(t, u, k);
    }
  }

  /** Redundant-test elimination followed by the unique-table lookup: when
      both cofactor results are the same vertex that vertex is the result
      and nothing is allocated; otherwise the vertex testing `c` is interned. */
  function Reduce(s: State, c: char, lo: Handle, hi: Handle): (r: (State, Handle))
    requires Valid(s) && lo < |s.arena| && hi < |s.arena|
    requires InputKey(c) in s.table
    ensures Valid(r.0) && Extends(s, r.0) && r.1 < |r.0.arena|
    ensures lo == hi ==> r == (s, hi)
    ensures lo != hi ==> r.0.arena[r.1].Node? && KeyOf(r.0.arena[r.1]) == (c, lo, hi)
    ensures Ordered(s.arena) && c < Var(s.arena, lo) && c < Var(s.arena, hi) ==>
              Ordered(r.0.arena) && c <= Var(r.0.arena, r.1)
  {
    if hi == lo then (s, hi) else Mk(s, c, lo, hi)
  }

  /** If-then-else: the vertex for F·G + F'·H. Terminal cases first, in a
      fixed order; otherwise split and continue in `IteSplit`. */
  function Ite(rule: SplitRule, s: State, f: Handle, g: Handle, h: Handle): (r: Result<(State, Handle)>)
    requires Valid(s) && f < |s.arena| && g < |s.arena| && h < |s.arena|
    ensures r.Ok? ==> Valid(r.value.0) && Extends(s, r.value.0) && r.value.1 < |r.value.0.arena|
    ensures r.Ok? && Ordered(s.arena) ==>
              && Ordered(r.value.0.arena)
              && Min3(Var(s.arena, f), Var(s.arena, g), Var(s.arena, h)) <= Var(r.value.0.arena, r.value.1)
    decreases f + g + h, 2
  {
    if f == One then Ok((s, g))
    else if f == Zero then Ok((s, h))
    else if g == One && h == Zero then Ok((s, f))
    else if g == h then Ok((s, g))
    else
      var cf :- Split(rule, s.arena, f, g, h);
      IteSplit(rule, s, f, g, h, cf)
  }

  /** The recursive step of `ite`, high side first: recurse on the high
      cofactors, then continue in `IteLow`. */
  function IteSplit(rule: SplitRule, s: State, f: Handle, g: Handle, h: Handle, cf: Cofactors): (r: Result<(State, Handle)>)
    requires Valid(s) && f < |s.arena| && g < |s.arena| && h < |s.arena|
    requires Split(rule, s.arena, f, g, h) == Ok(cf)
    ensures r.Ok? ==> Valid(r.value.0) && Extends(s, r.value.0) && r.value.1 < |r.value.0.arena|
    ensures r.Ok? && Ordered(s.arena) ==>
              && Ordered(r.value.0.arena)
              && cf.c <= Var(r.value.0.arena, r.value.1)
    decreases f + g + h, 1
  {
    SplitVarInterned(rule, s, f, g, h);
    var high :- Ite(rule, s, cf.fh, cf.gh, cf.hh);
    IteLow(rule, s, f + g + h, cf, high)
  }

  /** The low side of the recursive step: recurse on the low cofactors in
      the state the high side left, then reduce and intern. */
  function IteLow(rule: SplitRule, s: State, size: nat, cf: Cofactors, high: (State, Handle)): (r: Result<(State, Handle)>)
    requires Valid(s) && cf.fl < |s.arena| && cf.gl < |s.arena| && cf.hl < |s.arena|
    requires cf.fl + cf.gl + cf.hl < size && InputKey(cf.c) in s.table
    requires Ordered(s.arena) ==> cf.c < Var(s.arena, cf.fl) && cf.c < Var(s.arena, cf.gl) && cf.c < Var(s.arena, cf.hl)
    requires Valid(high.0) && Extends(s, high.0) && high.1 < |high.0.arena|
    requires Ordered(s.arena) ==> Ordered(high.0.arena) && cf.c < Var(high.0.arena, high.1)
    ensures r.Ok? ==> Valid(r.value.0) && Extends(s, r.value.0) && r.value.1 < |r.value.0.arena|
    ensures r.Ok? && Ordered(s.arena) ==>
              && Ordered(r.value.0.arena)
              && cf.c <= Var(r.value.0.arena, r.value.1)
    decreases size, 0
  {
    VarPrefix(s.arena, high.0.arena, cf.fl);
    VarPrefix(s.arena, high.0.arena, cf.gl);
    VarPrefix(s.arena, high.0.arena, cf.hl);
    var low :- Ite(rule, high.0, cf.fl, cf.gl, cf.hl);
    ExtendsTrans(s, high.0, low.0);
    ExtendsKey(s, low.0, InputKey(cf.c));
    VarPrefix(high.0.arena, low.0.arena, high.1);
    var r := Reduce(low.0, cf.c, low.1, high.1);
    ExtendsTrans(s, low.0, r.0);
    Ok(r)
  }

  /** Complement: ite(v, 0, 1). */
  function Not(rule: SplitRule, s: State, x: Handle): (r: Result<(State, Handle)>)
    requires Valid(s) && x < |s.arena|
    ensures r.Ok? ==> Valid(r.value.0) && Extends(s, r.value.0) && r.value.1 < |r.value.0.arena|
    ensures x == One ==> r == Ok((s, Zero))
    ensures x == Zero ==> r == Ok((s, One))
  {
    Ite(rule, s, x, Zero, One)
  }
}
