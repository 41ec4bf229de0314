/** From curried functions to functions of several arguments: a definition loses its leading
    abstractions, or gets arguments where it has none, and applications are flattened. */
module Uncurry {

  datatype Option<T> = None | Some(value: T)

  // ---------------------------------------------------------------- Mono, the pure part

  datatype Typ = TBase(name: nat) | TFun(dom: Typ, ran: Typ)

  /** Terms with de Bruijn indices. */
  datatype Exp =
    | Prim(value: int)
    | Rel(index: nat)
    | Named(name: nat)
    | App(f: Exp, a: Exp)
    | Abs(body: Exp)
    | Binop(op: nat, a1: Exp, a2: Exp)
    | If(cond: Exp, yes: Exp, no: Exp)
    | Let(bound: Exp, rest: Exp)

  datatype Def = Def(t: Typ, e: Exp)

  type Program = map<nat, Def>

  /** Values that need no code of their own. */
  predicate Atom(e: Exp) {
    e.Prim? || e.Named?
  }

  predicate Atoms(env: seq<Exp>) {
    forall i :: 0 <= i < |env| ==> Atom(env[i])
  }

  /** Putting closed terms for the variables from `d` on. */
  function Subst(e: Exp, d: nat, env: seq<Exp>): Exp {
    match e
    case Prim(_) => e
    case Named(_) => e
    case Rel(i) => if i < d then e else if i - d < |env| then env[i - d] else Rel(i - |env|)
    case App(f, a) => App(Subst(f, d, env), Subst(a, d, env))
    case Abs(b) => Abs(Subst(b, d + 1, env))
    case Binop(op, a, b) => Binop(op, Subst(a, d, env), Subst(b, d, env))
    case If(c, a, b) => If(Subst(c, d, env), Subst(a, d, env), Subst(b, d, env))
    case Let(a, b) => Let(Subst(a, d, env), Subst(b, d + 1, env))
  }

  /** `liftExpInExp` */
  function Lift(e: Exp, d: nat): Exp {
    match e
    case Prim(_) => e
    case Named(_) => e
    case Rel(i) => if i < d then e else Rel(i + 1)
    case App(f, a) => App(Lift(f, d), Lift(a, d))
    case Abs(b) => Abs(Lift(b, d + 1))
    case Binop(op, a, b) => Binop(op, Lift(a, d), Lift(b, d))
    case If(c, a, b) => If(Lift(c, d), Lift(a, d), Lift(b, d))
    case Let(a, b) => Let(Lift(a, d), Lift(b, d + 1))
  }

  lemma {:induction false} SubstOfLift(e: Exp, d: nat, v: Exp, env: seq<Exp>)
    ensures Subst(Lift(e, d), d, [v] + env) == Subst(e, d, env)
  {
    match e
    case Prim(_) =>
    case Named(_) =>
    case Rel(i) =>
    case App(f, a) => SubstOfLift(f, d, v, env); SubstOfLift(a, d, v, env);
    case Abs(b) => SubstOfLift(b, d + 1, v, env);
    case Binop(_, a, b) => SubstOfLift(a, d, v, env); SubstOfLift(b, d, v, env);
    case If(c, a, b) => SubstOfLift(c, d, v, env); SubstOfLift(a, d, v, env); SubstOfLift(b, d, v, env);
    case Let(a, b) => SubstOfLift(a, d, v, env); SubstOfLift(b, d + 1, v, env);
  }

  lemma {:induction false} SubstNothing(e: Exp, d: nat)
    ensures Subst(e, d, []) == e
  {
    match e
    case Prim(_) =>
    case Named(_) =>
    case Rel(_) =>
    case App(f, a) => SubstNothing(f, d); SubstNothing(a, d);
    case Abs(b) => SubstNothing(b, d + 1);
    case Binop(_, a, b) => SubstNothing(a, d); SubstNothing(b, d);
    case If(c, a, b) => SubstNothing(c, d); SubstNothing(a, d); SubstNothing(b, d);
    case Let(a, b) => SubstNothing(a, d); SubstNothing(b, d + 1);
  }

  lemma {:induction false} SubstTwice(e: Exp, d: nat, v: Exp, env: seq<Exp>)
    requires Atoms(env) && Atom(v)
    ensures Subst(Subst(e, d + 1, env), d, [v]) == Subst(e, d, [v] + env)
  {
    match e
    case Prim(_) =>
    case Named(_) =>
    case Rel(i) =>
    case App(f, a) => SubstTwice(f, d, v, env); SubstTwice(a, d, v, env);
    case Abs(b) => SubstTwice(b, d + 1, v, env);
    case Binop(_, a, b) => SubstTwice(a, d, v, env); SubstTwice(b, d, v, env);
    case If(c, a, b) => SubstTwice(c, d, v, env); SubstTwice(a, d, v, env); SubstTwice(b, d, v, env);
    case Let(a, b) => SubstTwice(a, d, v, env); SubstTwice(b, d + 1, v, env);
  }

  // ---------------------------------------------------------------- its meaning

  /** How a term gets its value, by value and with one argument at a time. */
  datatype Run =
    | Done
    | Global(r: Run)
    | Apply(head: Run, w: Exp, arg: Run, v: Exp, call: Run)
    | Beta(r: Run)
    | Unfold(r: Run)
    | Op(r1: Run, x: int, r2: Run, y: int)
    | Branch(c: Run, x: int, r: Run)
    | Bind(r1: Run, v: Exp, r2: Run)

  function Size(r: Run): (n: nat)
    ensures n > 0
  {
    match r
    case Done => 1
    case Global(s) => 1 + Size(s)
    case Apply(h, _, a, _, c) => 1 + Size(h) + Size(a) + Size(c)
    case Beta(s) => 1 + Size(s)
    case Unfold(s) => 1 + Size(s)
    case Op(r1, _, r2, _) => 1 + Size(r1) + Size(r2)
    case Branch(c, _, s) => 1 + Size(c) + Size(s)
    case Bind(r1, _, r2) => 1 + Size(r1) + Size(r2)
  }

  /** Applying an operator to two numbers. */
  type Ops = (nat, int, int) -> int

  predicate IsValue(p: Program, e: Exp) {
    e.Prim? || e.Abs? || (e.Named? && e.name in p && p[e.name].t.TFun?)
  }

  /** `r` shows that `e` has the value `v`. */
  predicate Evaluates(p: Program, ops: Ops, r: Run, e: Exp, v: Exp)
    decreases r
  {
    match r
    case Done => IsValue(p, e) && v == e
    case Global(s) => e.Named? && e.name in p && !p[e.name].t.TFun? && Evaluates(p, ops, s, p[e.name].e, v)
    case Apply(h, w, a, u, c) =>
      e.App? && Evaluates(p, ops, h, e.f, w) && Evaluates(p, ops, a, e.a, u) && Applies(p, ops, c, w, u, v)
    case Op(r1, x, r2, y) =>
      e.Binop? && Evaluates(p, ops, r1, e.a1, Prim(x)) && Evaluates(p, ops, r2, e.a2, Prim(y))
        && v == Prim(ops(e.op, x, y))
    case Branch(c, x, s) =>
      e.If? && Evaluates(p, ops, c, e.cond, Prim(x)) && Evaluates(p, ops, s, if x != 0 then e.yes else e.no, v)
    case Bind(r1, u, r2) =>
      e.Let? && Evaluates(p, ops, r1, e.bound, u) && Evaluates(p, ops, r2, Subst(e.rest, 0, [u]), v)
    case Beta(_) => false
    case Unfold(_) => false
  }

  /** `r` shows that the function `w` takes the value `u` to `v`. */
  predicate Applies(p: Program, ops: Ops, r: Run, w: Exp, u: Exp, v: Exp)
    decreases r
  {
    match r
    case Beta(s) => w.Abs? && Evaluates(p, ops, s, Subst(w.body, 0, [u]), v)
    case Unfold(s) => w.Named? && w.name in p && Evaluates(p, ops, s, App(p[w.name].e, u), v)
    case _ => false
  }

  lemma {:induction false} ValueOfRun(p: Program, ops: Ops, r: Run, e: Exp, v: Exp)
    requires Evaluates(p, ops, r, e, v)
    ensures IsValue(p, v)
    decreases r
  {
    match r
    case Done =>
    case Global(s) => ValueOfRun(p, ops, s, p[e.name].e, v);
    case Apply(_, w, _, u, c) =>
      if c.Beta? {
        ValueOfRun(p, ops, c.r, Subst(w.body, 0, [u]), v);
      } else {
        ValueOfRun(p, ops, c.r, App(p[w.name].e, u), v);
      }
    case Op(_, _, _, _) =>
    case Branch(_, x, s) => ValueOfRun(p, ops, s, if x != 0 then e.yes else e.no, v);
    case Bind(_, u, s) => ValueOfRun(p, ops, s, Subst(e.rest, 0, [u]), v);
  }

  /** A value evaluates to itself, at once. */
  lemma ValueRun(p: Program, ops: Ops, r: Run, e: Exp, v: Exp)
    requires IsValue(p, e) && Evaluates(p, ops, r, e, v)
    ensures v == e && r == Done
  {
  }

  // ---------------------------------------------------------------- several arguments

  function Apps(f: Exp, args: seq<Exp>): Exp {
    if args == [] then f else App(Apps(f, args[..|args| - 1]), args[|args| - 1])
  }

  lemma AppsOne(f: Exp, args: seq<Exp>)
    requires |args| == 1
    ensures Apps(f, args) == App(f, args[0])
  {
    assert args[..0] == [] && Apps(f, []) == f;
  }

  lemma {:induction false} AppsCons(f: Exp, args: seq<Exp>)
    requires args != []
    ensures Apps(f, args) == Apps(App(f, args[0]), args[1..])
    decreases |args|
  {
    if |args| > 1 {
      AppsCons(f, args[..|args| - 1]);
      assert args[..|args| - 1][1..] == args[1..][..|args| - 2];
    } else {
      assert args[..0] == [] && args[1..] == [];
      assert Apps(f, []) == f;
    }
  }

  /** The function and the arguments of nested applications: `EApp`'s `unravel`. */
  function Spine(e: Exp, args: seq<Exp>): (r: (Exp, seq<Exp>))
    ensures !r.0.App? && |r.1| >= |args|
  {
    if e.App? then Spine(e.f, [e.a] + args) else (e, args)
  }

  lemma {:induction false} SpineApps(e: Exp, args: seq<Exp>)
    ensures var r := Spine(e, args); Apps(r.0, r.1) == Apps(e, args)
  {
    if e.App? {
      SpineApps(e.f, [e.a] + args);
      AppsCons(e.f, [e.a] + args);
      assert ([e.a] + args)[1..] == args;
    }
  }

  function Arity(t: Typ): nat {
    if t.TFun? then 1 + Arity(t.ran) else 0
  }

  /** `DVal`'s `unravel`: the body of the function of all the arguments that the type has. */
  function Unravel(t: Typ, e: Exp): Exp
    decreases t
  {
    match t
    case TBase(_) => e
    case TFun(_, ran) => Unravel(ran, if e.Abs? then e.body else App(Lift(e, 0), Rel(0)))
  }

  function Reverse<T>(s: seq<T>): (r: seq<T>)
    ensures |r| == |s|
  {
    if s == [] then [] else Reverse(s[1..]) + [s[0]]
  }

  lemma {:induction false} ReverseAtoms(s: seq<Exp>)
    requires Atoms(s)
    ensures Atoms(Reverse(s))
  {
    if s != [] {
      ReverseAtoms(s[1..]);
    }
  }

  /** Another head with the same values may stand in its place. */
  lemma {:induction false} SwapHead(p: Program, ops: Ops, h: Exp, h': Exp, args: seq<Exp>, r: Run, v: Exp, b: Exp,
                                    u: Exp)
    returns (r': Run)
    requires Evaluates(p, ops, r, Apps(h, args), v)
    requires h' == App(Abs(b), u) && h == Subst(b, 0, [u]) && IsValue(p, u)
    ensures Evaluates(p, ops, r', Apps(h', args), v)
    decreases |args|
  {
    if args == [] {
      r' := Apply(Done, Abs(b), Done, u, Beta(r));
    } else {
      var head := SwapHead(p, ops, h, h', args[..|args| - 1], r.head, r.w, b, u);
      r' := r.(head := head);
    }
  }

  lemma {:induction false} SwapBack(p: Program, ops: Ops, h: Exp, h': Exp, args: seq<Exp>, r: Run, v: Exp, b: Exp,
                                    u: Exp)
    returns (r': Run)
    requires Evaluates(p, ops, r, Apps(h', args), v)
    requires h' == App(Abs(b), u) && h == Subst(b, 0, [u]) && IsValue(p, u)
    ensures Evaluates(p, ops, r', Apps(h, args), v) && Size(r') < Size(r)
    decreases |args|
  {
    if args == [] {
      ValueRun(p, ops, r.head, Abs(b), r.w);
      ValueRun(p, ops, r.arg, u, r.v);
      r' := r.call.r;
    } else {
      var head := SwapBack(p, ops, h, h', args[..|args| - 1], r.head, r.w, b, u);
      r' := r.(head := head);
    }
  }

  /** The body of the function of several arguments, once they are given, has the value of the curried application. */
  lemma {:induction false} ToCurried(p: Program, ops: Ops, t: Typ, e: Exp, env: seq<Exp>, args: seq<Exp>, r: Run,
                                     v: Exp)
    returns (r': Run)
    requires |args| == Arity(t) && Atoms(env) && Atoms(args) && forall i :: 0 <= i < |args| ==> IsValue(p, args[i])
    requires Evaluates(p, ops, r, Subst(Unravel(t, e), 0, Reverse(args) + env), v)
    ensures Evaluates(p, ops, r', Apps(Subst(e, 0, env), args), v)
    decreases t
  {
    if t.TBase? {
      assert Reverse(args) + env == env;
      r' := r;
    } else {
      var u, rest := args[0], args[1..];
      assert Reverse(args) + env == Reverse(rest) + ([u] + env);
      AppsCons(Subst(e, 0, env), args);
      if e.Abs? {
        var s := ToCurried(p, ops, t.ran, e.body, [u] + env, rest, r, v);
        SubstTwice(e.body, 0, u, env);
        r' := SwapHead(p, ops, Subst(e.body, 0, [u] + env), App(Subst(e, 0, env), u), rest, s, v, Subst(e.body, 1, env),
          u);
      } else {
        SubstOfLift(e, 0, u, env);
        assert Subst(App(Lift(e, 0), Rel(0)), 0, [u] + env) == App(Subst(e, 0, env), u);
        r' := ToCurried(p, ops, t.ran, App(Lift(e, 0), Rel(0)), [u] + env, rest, r, v);
      }
    }
  }

  lemma {:induction false} FromCurried(p: Program, ops: Ops, t: Typ, e: Exp, env: seq<Exp>, args: seq<Exp>, r: Run,
                                       v: Exp)
    returns (r': Run)
    requires |args| == Arity(t) && Atoms(env) && Atoms(args) && forall i :: 0 <= i < |args| ==> IsValue(p, args[i])
    requires Evaluates(p, ops, r, Apps(Subst(e, 0, env), args), v)
    ensures Evaluates(p, ops, r', Subst(Unravel(t, e), 0, Reverse(args) + env), v) && Size(r') <= Size(r)
    decreases t
  {
    if t.TBase? {
      assert Reverse(args) + env == env;
      r' := r;
    } else {
      var u, rest := args[0], args[1..];
      assert Reverse(args) + env == Reverse(rest) + ([u] + env);
      AppsCons(Subst(e, 0, env), args);
      if e.Abs? {
        SubstTwice(e.body, 0, u, env);
        var s := SwapBack(p, ops, Subst(e.body, 0, [u] + env), App(Subst(e, 0, env), u), rest, r, v,
          Subst(e.body, 1, env), u);
        r' := FromCurried(p, ops, t.ran, e.body, [u] + env, rest, s, v);
      } else {
        SubstOfLift(e, 0, u, env);
        r' := FromCurried(p, ops, t.ran, App(Lift(e, 0), Rel(0)), [u] + env, rest, r, v);
      }
    }
  }

  // ---------------------------------------------------------------- spines

  /** How the head and the arguments of nested applications get their values, and what is left to do then. */
  datatype Parts = Parts(head: Run, w: Exp, args: seq<Run>, values: seq<Exp>, rest: Run)

  ghost predicate ArgsEvaluate(p: Program, ops: Ops, runs: seq<Run>, es: seq<Exp>, vs: seq<Exp>) {
    |runs| == |es| == |vs| && forall i {:trigger runs[i]} :: 0 <= i < |es| ==> Evaluates(p, ops, runs[i], es[i], vs[i])
  }

  /** Values of the head and of the arguments, and a run of the application of the one to the others. */
  lemma {:induction false} JoinSpine(p: Program, ops: Ops, f: Exp, es: seq<Exp>, q: Parts, v: Exp) returns (r: Run)
    requires Evaluates(p, ops, q.head, f, q.w) && ArgsEvaluate(p, ops, q.args, es, q.values)
    requires Evaluates(p, ops, q.rest, Apps(q.w, q.values), v)
    ensures Evaluates(p, ops, r, Apps(f, es), v)
    decreases |es|
  {
    ValueOfRun(p, ops, q.head, f, q.w);
    if es == [] {
      ValueRun(p, ops, q.rest, q.w, v);
      r := q.head;
    } else {
      var n := |es| - 1;
      assert Evaluates(p, ops, q.args[n], es[n], q.values[n]);
      ValueOfRun(p, ops, q.args[n], es[n], q.values[n]);
      ValueRun(p, ops, q.rest.arg, q.values[n], q.rest.v);
      var head := JoinSpine(p, ops, f, es[..n], Parts(q.head, q.w, q.args[..n], q.values[..n], q.rest.head), q.rest.w);
      r := Apply(head, q.rest.w, q.args[n], q.values[n], q.rest.call);
    }
  }

  function Sizes(runs: seq<Run>): nat {
    if runs == [] then 0 else Sizes(runs[..|runs| - 1]) + Size(runs[|runs| - 1])
  }

  lemma {:induction false} SizeIn(runs: seq<Run>, i: nat)
    requires i < |runs|
    ensures Size(runs[i]) <= Sizes(runs)
    decreases |runs|
  {
    if i < |runs| - 1 {
      SizeIn(runs[..|runs| - 1], i);
    }
  }

  /** The parts of an application that has a value: each is smaller than the whole. */
  ghost predicate IsSplit(p: Program, ops: Ops, f: Exp, es: seq<Exp>, r: Run, v: Exp, q: Parts) {
    && Evaluates(p, ops, q.head, f, q.w) && ArgsEvaluate(p, ops, q.args, es, q.values)
    && Evaluates(p, ops, q.rest, Apps(q.w, q.values), v)
    && Size(q.rest) <= Size(r) && Size(q.head) + Sizes(q.args) <= Size(r)
    && (es != [] ==> Size(q.head) + Sizes(q.args) < Size(r))
  }

  lemma {:induction false} SplitSpine(p: Program, ops: Ops, f: Exp, es: seq<Exp>, r: Run, v: Exp) returns (q: Parts)
    requires Evaluates(p, ops, r, Apps(f, es), v)
    ensures IsSplit(p, ops, f, es, r, v, q)
    decreases |es|
  {
    if es == [] {
      ValueOfRun(p, ops, r, f, v);
      q := Parts(r, v, [], [], Done);
    } else {
      var s := SplitSpine(p, ops, f, es[..|es| - 1], r.head, r.w);
      q := ExtendSplit(p, ops, f, es, r, v, s);
    }
  }

  lemma ExtendSplit(p: Program, ops: Ops, f: Exp, es: seq<Exp>, r: Run, v: Exp, s: Parts) returns (q: Parts)
    requires es != [] && r.Apply? && IsSplit(p, ops, f, es[..|es| - 1], r.head, r.w, s)
    requires Evaluates(p, ops, r.arg, es[|es| - 1], r.v) && Applies(p, ops, r.call, r.w, r.v, v)
    ensures IsSplit(p, ops, f, es, r, v, q)
  {
    ValueOfRun(p, ops, r.arg, es[|es| - 1], r.v);
    q := Parts(s.head, s.w, s.args + [r.arg], s.values + [r.v], Apply(s.rest, r.w, Done, r.v, r.call));
    OneMore(p, ops, s.args, es, s.values, r.arg, r.v);
    assert q.values[..|es| - 1] == s.values;
    assert Apps(q.w, q.values) == App(Apps(s.w, s.values), r.v);
  }

  lemma OneMore(p: Program, ops: Ops, runs: seq<Run>, es: seq<Exp>, vs: seq<Exp>, r: Run, v: Exp)
    requires es != [] && ArgsEvaluate(p, ops, runs, es[..|es| - 1], vs) && Evaluates(p, ops, r, es[|es| - 1], v)
    ensures ArgsEvaluate(p, ops, runs + [r], es, vs + [v]) && Sizes(runs + [r]) == Sizes(runs) + Size(r)
  {
    var args, values := runs + [r], vs + [v];
    assert args[..|runs|] == runs;
    forall i {:trigger args[i]} | 0 <= i < |es| ensures Evaluates(p, ops, args[i], es[i], values[i]) {
      if i < |es| - 1 {
        assert Evaluates(p, ops, runs[i], es[..|es| - 1][i], vs[i]);
      }
    }
  }

  /** Applying a global function is applying its definition. */
  lemma {:induction false} UnfoldHead(p: Program, ops: Ops, g: nat, vs: seq<Exp>, r: Run, v: Exp) returns (r': Run)
    requires vs != [] && IsValue(p, Named(g)) && IsValue(p, vs[0])
    requires Evaluates(p, ops, r, Apps(p[g].e, vs), v)
    ensures Evaluates(p, ops, r', Apps(Named(g), vs), v)
    decreases |vs|
  {
    if |vs| == 1 {
      AppsOne(p[g].e, vs);
      AppsOne(Named(g), vs);
      r' := Apply(Done, Named(g), Done, vs[0], Unfold(r));
    } else {
      var head := UnfoldHead(p, ops, g, vs[..|vs| - 1], r.head, r.w);
      r' := r.(head := head);
    }
  }

  lemma {:induction false} FoldHead(p: Program, ops: Ops, g: nat, vs: seq<Exp>, r: Run, v: Exp) returns (r': Run)
    requires vs != [] && IsValue(p, Named(g)) && IsValue(p, vs[0])
    requires Evaluates(p, ops, r, Apps(Named(g), vs), v)
    ensures Evaluates(p, ops, r', Apps(p[g].e, vs), v) && Size(r') < Size(r)
    decreases |vs|
  {
    if |vs| == 1 {
      AppsOne(p[g].e, vs);
      AppsOne(Named(g), vs);
      ValueRun(p, ops, r.head, Named(g), r.w);
      ValueRun(p, ops, r.arg, vs[0], r.v);
      r' := r.call.r;
    } else {
      var head := FoldHead(p, ops, g, vs[..|vs| - 1], r.head, r.w);
      r' := r.(head := head);
    }
  }

  /** What calling a function of several arguments means: its body with the arguments in it.
      It has the value that the curried application has. */
  lemma CallIsCurried(p: Program, ops: Ops, g: nat, vs: seq<Exp>, r: Run, v: Exp) returns (r': Run)
    requires IsValue(p, Named(g)) && |vs| == Arity(p[g].t) && Atoms(vs)
    requires forall i :: 0 <= i < |vs| ==> IsValue(p, vs[i])
    requires Evaluates(p, ops, r, Subst(Unravel(p[g].t, p[g].e), 0, Reverse(vs)), v)
    ensures Evaluates(p, ops, r', Apps(Named(g), vs), v)
  {
    assert Reverse(vs) + [] == Reverse(vs);
    SubstNothing(p[g].e, 0);
    var s := ToCurried(p, ops, p[g].t, p[g].e, [], vs, r, v);
    r' := UnfoldHead(p, ops, g, vs, s, v);
  }

  lemma CurriedIsCall(p: Program, ops: Ops, g: nat, vs: seq<Exp>, r: Run, v: Exp) returns (r': Run)
    requires IsValue(p, Named(g)) && |vs| == Arity(p[g].t) && Atoms(vs)
    requires forall i :: 0 <= i < |vs| ==> IsValue(p, vs[i])
    requires Evaluates(p, ops, r, Apps(Named(g), vs), v)
    ensures Evaluates(p, ops, r', Subst(Unravel(p[g].t, p[g].e), 0, Reverse(vs)), v) && Size(r') < Size(r)
  {
    assert Reverse(vs) + [] == Reverse(vs);
    SubstNothing(p[g].e, 0);
    var s := FoldHead(p, ops, g, vs, r, v);
    r' := FromCurried(p, ops, p[g].t, p[g].e, [], vs, s, v);
  }

  // ---------------------------------------------------------------- Cjr, the pure part

  /** Terms with functions of several arguments; an abstraction that remains is an error. */
  datatype TExp =
    | TPrim(value: int)
    | TRel(index: nat)
    | TNamed(name: nat)
    | TApp(f: TExp, args: seq<TExp>)
    | TBinop(op: nat, a1: TExp, a2: TExp)
    | TIf(cond: TExp, yes: TExp, no: TExp)
    | TLet(bound: TExp, rest: TExp)
    | TError

  datatype TDef = DFun(arity: nat, body: TExp) | DVal(body: TExp)

  type TProgram = map<nat, TDef>

  function ExpSize(e: Exp): (n: nat)
    ensures n > 0
  {
    match e
    case App(f, a) => 1 + ExpSize(f) + ExpSize(a)
    case Abs(b) => 1 + ExpSize(b)
    case Binop(_, a, b) => 1 + ExpSize(a) + ExpSize(b)
    case If(c, a, b) => 1 + ExpSize(c) + ExpSize(a) + ExpSize(b)
    case Let(a, b) => 1 + ExpSize(a) + ExpSize(b)
    case _ => 1
  }

  predicate AllSmall(args: seq<Exp>, n: nat) {
    forall i :: 0 <= i < |args| ==> ExpSize(args[i]) < n
  }

  lemma {:induction false} SpineSmall(e: Exp, args: seq<Exp>, n: nat)
    requires ExpSize(e) < n && AllSmall(args, n)
    ensures ExpSize(Spine(e, args).0) < n && AllSmall(Spine(e, args).1, n)
  {
    if e.App? {
      SpineSmall(e.f, [e.a] + args, n);
    }
  }

  /** `cifyExp` */
  function Cify(e: Exp): TExp
    decreases ExpSize(e)
  {
    match e
    case Prim(n) => TPrim(n)
    case Rel(i) => TRel(i)
    case Named(n) => TNamed(n)
    case App(f, a) =>
      SpineSmall(f, [a], ExpSize(e));
      var (head, args) := Spine(f, [a]);
      TApp(Cify(head), seq(|args|, i requires 0 <= i < |args| => Cify(args[i])))
    case Abs(_) => TError
    case Binop(op, a, b) => TBinop(op, Cify(a), Cify(b))
    case If(c, a, b) => TIf(Cify(c), Cify(a), Cify(b))
    case Let(a, b) => TLet(Cify(a), Cify(b))
  }

  /** `cifyDecl`, for a value */
  function CifyDef(d: Def): TDef {
    if d.t.TFun? then DFun(Arity(d.t), Cify(Unravel(d.t, d.e))) else DVal(Cify(d.e))
  }

  function CifyProgram(p: Program): TProgram {
    map g | g in p :: CifyDef(p[g])
  }

  /** Putting values for the variables from `d` on. */
  function TSubst(e: TExp, d: nat, env: seq<Exp>): TExp {
    match e
    case TPrim(_) => e
    case TNamed(_) => e
    case TError => e
    case TRel(i) => if i < d then e else if i - d < |env| then Cify(env[i - d]) else TRel(i - |env|)
    case TApp(f, args) => TApp(TSubst(f, d, env), seq(|args|, i requires 0 <= i < |args| => TSubst(args[i], d, env)))
    case TBinop(op, a, b) => TBinop(op, TSubst(a, d, env), TSubst(b, d, env))
    case TIf(c, a, b) => TIf(TSubst(c, d, env), TSubst(a, d, env), TSubst(b, d, env))
    case TLet(a, b) => TLet(TSubst(a, d, env), TSubst(b, d + 1, env))
  }

  function SubstAll(es: seq<Exp>, d: nat, env: seq<Exp>): (r: seq<Exp>)
    ensures |r| == |es| && forall i :: 0 <= i < |es| ==> r[i] == Subst(es[i], d, env)
  {
    seq(|es|, i requires 0 <= i < |es| => Subst(es[i], d, env))
  }

  lemma {:induction false} SpineSubst(e: Exp, args: seq<Exp>, d: nat, env: seq<Exp>)
    requires Atoms(env)
    ensures Spine(Subst(e, d, env), SubstAll(args, d, env)) ==
      (Subst(Spine(e, args).0, d, env), SubstAll(Spine(e, args).1, d, env))
  {
    if e.App? {
      SpineSubst(e.f, [e.a] + args, d, env);
      assert SubstAll([e.a] + args, d, env) == [Subst(e.a, d, env)] + SubstAll(args, d, env);
    }
  }

  /** Putting values into a term and translating it commute. */
  lemma {:induction false} CifySubst(e: Exp, d: nat, env: seq<Exp>)
    requires Atoms(env)
    ensures Cify(Subst(e, d, env)) == TSubst(Cify(e), d, env)
    decreases ExpSize(e)
  {
    match e
    case Prim(_) =>
    case Named(_) =>
    case Rel(_) =>
    case Abs(_) =>
    case App(f, a) =>
      var (head, args) := Spine(f, [a]);
      SpineSmall(f, [a], ExpSize(e));
      SpineSubst(f, [a], d, env);
      assert SubstAll([a], d, env) == [Subst(a, d, env)];
      CifySubst(head, d, env);
      var left, right := Cify(Subst(e, d, env)), TSubst(Cify(e), d, env);
      forall i | 0 <= i < |args| ensures left.args[i] == right.args[i] {
        CifySubst(args[i], d, env);
      }
      assert left.args == right.args;
    case Binop(_, a, b) => CifySubst(a, d, env); CifySubst(b, d, env);
    case If(c, a, b) => CifySubst(c, d, env); CifySubst(a, d, env); CifySubst(b, d, env);
    case Let(a, b) => CifySubst(a, d, env); CifySubst(b, d + 1, env);
  }

  // ---------------------------------------------------------------- its meaning

  /** A value, or no C program: a call with another number of arguments, of what is no function, and the like. */
  datatype Outcome = Value(v: Exp) | Wrong

  datatype TRun =
    | TDone
    | TGlobal(r: TRun)
    | TApply(head: TRun, oh: Outcome, args: seq<TRun>, os: seq<Outcome>, body: TRun)
    | TOp(r1: TRun, o1: Outcome, r2: TRun, o2: Outcome)
    | TBranch(c: TRun, oc: Outcome, r: TRun)
    | TBind(r1: TRun, o1: Outcome, r2: TRun)

  predicate IsNumber(o: Outcome) {
    o.Value? && o.v.Prim?
  }

  function Contents(os: seq<Outcome>): (vs: seq<Exp>)
    requires forall i :: 0 <= i < |os| ==> os[i].Value?
    ensures |vs| == |os| && forall i :: 0 <= i < |os| ==> vs[i] == os[i].v
  {
    seq(|os|, i requires 0 <= i < |os| => os[i].v)
  }

  predicate Callable(tp: TProgram, o: Outcome, n: nat) {
    o.Value? && o.v.Named? && o.v.name in tp && tp[o.v.name].DFun? && tp[o.v.name].arity == n
  }

  /** `r` shows what comes of `e`: a call evaluates its function, its arguments, then the body with them in it. */
  predicate TEvaluates(tp: TProgram, ops: Ops, r: TRun, e: TExp, o: Outcome)
    decreases r
  {
    match r
    case TDone =>
      (match e
       case TPrim(n) => o == Value(Prim(n))
       case TNamed(g) => g in tp && tp[g].DFun? && o == Value(Named(g))
       case TError => o == Wrong
       case _ => false)
    case TGlobal(s) => e.TNamed? && e.name in tp && tp[e.name].DVal? && TEvaluates(tp, ops, s, tp[e.name].body, o)
    case TApply(h, oh, args, os, body) =>
      && e.TApp? && |args| == |os| == |e.args|
      && TEvaluates(tp, ops, h, e.f, oh)
      && (forall i {:trigger args[i]} :: 0 <= i < |args| ==> TEvaluates(tp, ops, args[i], e.args[i], os[i]))
      && if Callable(tp, oh, |os|) && forall i :: 0 <= i < |os| ==> os[i].Value?
         then TEvaluates(tp, ops, body, TSubst(tp[oh.v.name].body, 0, Reverse(Contents(os))), o)
         else o == Wrong
    case TOp(r1, o1, r2, o2) =>
      && e.TBinop? && TEvaluates(tp, ops, r1, e.a1, o1) && TEvaluates(tp, ops, r2, e.a2, o2)
      && o == if IsNumber(o1) && IsNumber(o2) then Value(Prim(ops(e.op, o1.v.value, o2.v.value))) else Wrong
    case TBranch(c, oc, s) =>
      && e.TIf? && TEvaluates(tp, ops, c, e.cond, oc)
      && if IsNumber(oc) then TEvaluates(tp, ops, s, if oc.v.value != 0 then e.yes else e.no, o) else o == Wrong
    case TBind(r1, o1, s) =>
      && e.TLet? && TEvaluates(tp, ops, r1, e.bound, o1)
      && if o1.Value? then TEvaluates(tp, ops, s, TSubst(e.rest, 0, [o1.v]), o) else o == Wrong
  }

  /** Only atoms come of Cjr terms, and they are values of the source. */
  lemma {:induction false} OutcomeAtom(p: Program, ops: Ops, r: TRun, e: TExp, v: Exp)
    requires TEvaluates(CifyProgram(p), ops, r, e, Value(v))
    ensures Atom(v) && IsValue(p, v)
    decreases r
  {
    var tp := CifyProgram(p);
    match r
    case TDone =>
    case TGlobal(s) => OutcomeAtom(p, ops, s, tp[e.name].body, v);
    case TApply(_, oh, _, os, body) =>
      OutcomeAtom(p, ops, body, TSubst(tp[oh.v.name].body, 0, Reverse(Contents(os))), v);
    case TOp(_, _, _, _) =>
    case TBranch(_, oc, s) => OutcomeAtom(p, ops, s, if oc.v.value != 0 then e.yes else e.no, v);
    case TBind(_, o1, s) => OutcomeAtom(p, ops, s, TSubst(e.rest, 0, [o1.v]), v);
  }

  // ---------------------------------------------------------------- the translation preserves meaning

  /** What the translation computes, the source computes. */
  lemma {:induction false} Sound(p: Program, ops: Ops, tr: TRun, e: Exp, v: Exp) returns (r: Run)
    requires TEvaluates(CifyProgram(p), ops, tr, Cify(e), Value(v))
    ensures Evaluates(p, ops, r, e, v)
    decreases tr, 1, 0
  {
    match e
    case Prim(_) => r := Done;
    case Rel(_) => r := Done;
    case Abs(_) => r := Done;
    case Named(g) =>
      if tr.TDone? {
        r := Done;
      } else {
        var s := Sound(p, ops, tr.r, p[g].e, v);
        r := Global(s);
      }
    case App(f, a) => r := SoundCall(p, ops, tr, e, v);
    case Binop(_, a, b) =>
      var r1 := Sound(p, ops, tr.r1, a, tr.o1.v);
      var r2 := Sound(p, ops, tr.r2, b, tr.o2.v);
      r := Op(r1, tr.o1.v.value, r2, tr.o2.v.value);
    case If(c, a, b) =>
      var rc := Sound(p, ops, tr.c, c, tr.oc.v);
      var s := Sound(p, ops, tr.r, if tr.oc.v.value != 0 then a else b, v);
      r := Branch(rc, tr.oc.v.value, s);
    case Let(a, b) =>
      var r1 := Sound(p, ops, tr.r1, a, tr.o1.v);
      OutcomeAtom(p, ops, tr.r1, Cify(a), tr.o1.v);
      CifySubst(b, 0, [tr.o1.v]);
      var r2 := Sound(p, ops, tr.r2, Subst(b, 0, [tr.o1.v]), v);
      r := Bind(r1, tr.o1.v, r2);
  }

  lemma {:induction false} SoundCall(p: Program, ops: Ops, tr: TRun, e: Exp, v: Exp) returns (r: Run)
    requires e.App? && TEvaluates(CifyProgram(p), ops, tr, Cify(e), Value(v))
    ensures Evaluates(p, ops, r, e, v)
    decreases tr, 0, |if tr.TApply? then tr.args else []| + 1
  {
    var tp := CifyProgram(p);
    var (f, es) := Spine(e.f, [e.a]);
    SpineApps(e.f, [e.a]);
    AppsOne(e.f, [e.a]);
    var g, vs := tr.oh.v.name, Contents(tr.os);
    var head := Sound(p, ops, tr.head, f, tr.oh.v);
    var args := SoundArgs(p, ops, tr, f, es, |es|);
    assert es[..|es|] == es && vs[..|es|] == vs;
    ArgsAtoms(p, ops, tr, f, es);
    ReverseAtoms(vs);
    CifySubst(Unravel(p[g].t, p[g].e), 0, Reverse(vs));
    var body := Sound(p, ops, tr.body, Subst(Unravel(p[g].t, p[g].e), 0, Reverse(vs)), v);
    var rest := CallIsCurried(p, ops, g, vs, body, v);
    r := JoinSpine(p, ops, f, es, Parts(head, Named(g), args, vs, rest), v);
  }

  /** A call that has come out well: its parts. */
  ghost predicate GoodCall(p: Program, ops: Ops, tr: TRun, f: Exp, es: seq<Exp>) {
    && tr.TApply? && |tr.args| == |tr.os| == |es|
    && (forall i {:trigger tr.os[i]} :: 0 <= i < |es| ==> tr.os[i].Value?)
    && forall i {:trigger tr.args[i]} ::
      0 <= i < |es| ==> TEvaluates(CifyProgram(p), ops, tr.args[i], Cify(es[i]), tr.os[i])
  }

  lemma ArgsAtoms(p: Program, ops: Ops, tr: TRun, f: Exp, es: seq<Exp>)
    requires GoodCall(p, ops, tr, f, es)
    ensures Atoms(Contents(tr.os)) && forall i :: 0 <= i < |es| ==> IsValue(p, Contents(tr.os)[i])
  {
    forall i | 0 <= i < |es| ensures Atom(tr.os[i].v) && IsValue(p, tr.os[i].v) {
      OutcomeAtom(p, ops, tr.args[i], Cify(es[i]), tr.os[i].v);
    }
  }

  lemma {:induction false} SoundArgs(p: Program, ops: Ops, tr: TRun, f: Exp, es: seq<Exp>, k: nat)
    returns (runs: seq<Run>)
    requires GoodCall(p, ops, tr, f, es) && k <= |es|
    ensures ArgsEvaluate(p, ops, runs, es[..k], Contents(tr.os)[..k])
    decreases tr, 0, k
  {
    if k == 0 {
      runs := [];
    } else {
      var before := SoundArgs(p, ops, tr, f, es, k - 1);
      var last := Sound(p, ops, tr.args[k - 1], es[k - 1], tr.os[k - 1].v);
      var vs := Contents(tr.os);
      assert es[..k][..k - 1] == es[..k - 1] && vs[..k] == vs[..k - 1] + [vs[k - 1]];
      OneMore(p, ops, before, es[..k], vs[..k - 1], last, vs[k - 1]);
      runs := before + [last];
    }
  }

  /** What the source computes, the translation computes, unless there is a call in it that is no call in C:
      of a function with fewer or more arguments than its type has, or with a function that has no name. */
  lemma {:induction false} Complete(p: Program, ops: Ops, r: Run, e: Exp, v: Exp) returns (tr: TRun, o: Outcome)
    requires Evaluates(p, ops, r, e, v)
    ensures TEvaluates(CifyProgram(p), ops, tr, Cify(e), o)
    ensures o == Wrong || (Atom(v) && o == Value(v))
    decreases Size(r), 1, 0
  {
    match r
    case Done =>
      tr, o := TDone, if e.Abs? then Wrong else Value(v);
    case Global(s) =>
      var ts;
      ts, o := Complete(p, ops, s, p[e.name].e, v);
      tr := TGlobal(ts);
    case Apply(_, _, _, _, _) =>
      tr, o := CompleteCall(p, ops, r, e, v);
    case Op(r1, x, r2, y) =>
      var t1, o1 := Complete(p, ops, r1, e.a1, Prim(x));
      var t2, o2 := Complete(p, ops, r2, e.a2, Prim(y));
      tr := TOp(t1, o1, t2, o2);
      o := if IsNumber(o1) && IsNumber(o2) then Value(v) else Wrong;
    case Branch(c, x, s) =>
      var tc, oc := Complete(p, ops, c, e.cond, Prim(x));
      var ts, os := Complete(p, ops, s, if x != 0 then e.yes else e.no, v);
      tr := TBranch(tc, oc, ts);
      o := if IsNumber(oc) then os else Wrong;
    case Bind(r1, u, s) =>
      var t1, o1 := Complete(p, ops, r1, e.bound, u);
      if o1.Value? {
        CifySubst(e.rest, 0, [u]);
        var ts, os := Complete(p, ops, s, Subst(e.rest, 0, [u]), v);
        tr, o := TBind(t1, o1, ts), os;
      } else {
        tr, o := TBind(t1, o1, TDone), Wrong;
      }
  }

  lemma {:induction false} CompleteCall(p: Program, ops: Ops, r: Run, e: Exp, v: Exp) returns (tr: TRun, o: Outcome)
    requires e.App? && Evaluates(p, ops, r, e, v)
    ensures TEvaluates(CifyProgram(p), ops, tr, Cify(e), o)
    ensures o == Wrong || (Atom(v) && o == Value(v))
    decreases Size(r), 0, |Spine(e.f, [e.a]).1| + 1
  {
    var tp := CifyProgram(p);
    var (f, es) := Spine(e.f, [e.a]);
    SpineApps(e.f, [e.a]);
    AppsOne(e.f, [e.a]);
    var q := SplitSpine(p, ops, f, es, r, v);
    var th, oh := Complete(p, ops, q.head, f, q.w);
    var targs, os := CompleteArgs(p, ops, es, q, |es|, Size(r));
    if Callable(tp, oh, |os|) && forall i :: 0 <= i < |os| ==> os[i].Value? {
      var g, vs := oh.v.name, Contents(os);
      assert vs == q.values;
      forall i | 0 <= i < |es| ensures IsValue(p, vs[i]) {
        ValueOfRun(p, ops, q.args[i], es[i], q.values[i]);
      }
      var rr := CurriedIsCall(p, ops, g, vs, q.rest, v);
      ReverseAtoms(vs);
      CifySubst(Unravel(p[g].t, p[g].e), 0, Reverse(vs));
      var body;
      body, o := Complete(p, ops, rr, Subst(Unravel(p[g].t, p[g].e), 0, Reverse(vs)), v);
      tr := TApply(th, oh, targs, os, body);
    } else {
      tr, o := TApply(th, oh, targs, os, TDone), Wrong;
    }
  }

  lemma {:induction false} CompleteArgs(p: Program, ops: Ops, es: seq<Exp>, q: Parts, k: nat, n: nat)
    returns (trs: seq<TRun>, os: seq<Outcome>)
    requires ArgsEvaluate(p, ops, q.args, es, q.values) && k <= |es| && Sizes(q.args) < n
    ensures |trs| == |os| == k
    ensures forall i {:trigger trs[i]} :: 0 <= i < k ==> TEvaluates(CifyProgram(p), ops, trs[i], Cify(es[i]), os[i])
    ensures forall i {:trigger os[i]} ::
      0 <= i < k ==> os[i] == Wrong || (Atom(q.values[i]) && os[i] == Value(q.values[i]))
    decreases n, 0, k
  {
    if k == 0 {
      trs, os := [], [];
    } else {
      var trs0, os0 := CompleteArgs(p, ops, es, q, k - 1, n);
      SizeIn(q.args, k - 1);
      var tr, o := Complete(p, ops, q.args[k - 1], es[k - 1], q.values[k - 1]);
      trs, os := trs0 + [tr], os0 + [o];
    }
  }

  // ---------------------------------------------------------------- when it comes out well

  /** A type but for the names in it. */
  function Bare(t: Typ): Typ {
    match t
    case TBase(_) => TBase(0)
    case TFun(dom, ran) => TFun(Bare(dom), Bare(ran))
  }

  function Doms(t: Typ): (ts: seq<Typ>)
    ensures |ts| == Arity(t)
  {
    if t.TFun? then [t.dom] + Doms(t.ran) else []
  }

  function Result(t: Typ): Typ {
    if t.TFun? then Result(t.ran) else t
  }

  lemma {:induction false} BareArity(t: Typ)
    ensures Arity(Bare(t)) == Arity(t)
  {
    if t.TFun? {
      BareArity(t.ran);
    }
  }

  /** The type of a term in which every function is given all its arguments at once and no abstraction is left. */
  function TypeOf(p: Program, ctx: seq<Typ>, e: Exp): Option<Typ>
    decreases ExpSize(e)
  {
    match e
    case Prim(_) => Some(TBase(0))
    case Rel(i) => if i < |ctx| then Some(ctx[i]) else None
    case Named(g) => if g in p then Some(Bare(p[g].t)) else None
    case Abs(_) => None
    case App(f, a) =>
      SpineSmall(f, [a], ExpSize(e));
      var (head, args) := Spine(f, [a]);
      (match TypeOf(p, ctx, head)
       case None => None
       case Some(t) =>
         if |args| == Arity(t) && forall i :: 0 <= i < |args| ==> TypeOf(p, ctx, args[i]) == Some(Doms(t)[i])
         then Some(Result(t)) else None)
    case Binop(_, a, b) =>
      if TypeOf(p, ctx, a) == Some(TBase(0)) && TypeOf(p, ctx, b) == Some(TBase(0)) then Some(TBase(0)) else None
    case If(c, a, b) =>
      if TypeOf(p, ctx, c) == Some(TBase(0)) && TypeOf(p, ctx, a) == TypeOf(p, ctx, b) then TypeOf(p, ctx, a) else None
    case Let(a, b) =>
      (match TypeOf(p, ctx, a)
       case None => None
       case Some(t) => TypeOf(p, [t] + ctx, b))
  }

  predicate SaturatedDef(p: Program, d: Def) {
    if d.t.TFun? then TypeOf(p, Reverse(Doms(Bare(d.t))), Unravel(d.t, d.e)) == Some(Result(Bare(d.t)))
    else TypeOf(p, [], d.e) == Some(Bare(d.t))
  }

  /** Every definition, with its arguments, is such a term. */
  predicate SaturatedProgram(p: Program) {
    forall g :: g in p ==> SaturatedDef(p, p[g])
  }

  predicate HaveTypes(p: Program, env: seq<Exp>, ts: seq<Typ>) {
    |env| == |ts| && Atoms(env) && forall i :: 0 <= i < |env| ==> TypeOf(p, [], env[i]) == Some(ts[i])
  }

  /** Values of the right types may be put in. */
  lemma {:induction false} TypeOfSubst(p: Program, ctx: seq<Typ>, ts: seq<Typ>, e: Exp, env: seq<Exp>)
    requires TypeOf(p, ctx + ts, e).Some? && HaveTypes(p, env, ts)
    ensures TypeOf(p, ctx, Subst(e, |ctx|, env)) == TypeOf(p, ctx + ts, e)
    decreases ExpSize(e)
  {
    match e
    case Prim(_) =>
    case Rel(i) =>
      if i >= |ctx| {
        assert TypeOf(p, [], env[i - |ctx|]) == Some(ts[i - |ctx|]);
      }
    case Named(_) =>
    case App(f, a) => TypeOfCallSubst(p, ctx, ts, e, env);
    case Binop(_, a, b) => TypeOfSubst(p, ctx, ts, a, env); TypeOfSubst(p, ctx, ts, b, env);
    case If(c, a, b) =>
      TypeOfSubst(p, ctx, ts, c, env); TypeOfSubst(p, ctx, ts, a, env); TypeOfSubst(p, ctx, ts, b, env);
    case Let(a, b) =>
      TypeOfSubst(p, ctx, ts, a, env);
      var t := TypeOf(p, ctx + ts, a).value;
      assert [t] + (ctx + ts) == ([t] + ctx) + ts;
      TypeOfSubst(p, [t] + ctx, ts, b, env);
  }

  lemma {:induction false} TypeOfCallSubst(p: Program, ctx: seq<Typ>, ts: seq<Typ>, e: Exp, env: seq<Exp>)
    requires e.App? && TypeOf(p, ctx + ts, e).Some? && HaveTypes(p, env, ts)
    ensures TypeOf(p, ctx, Subst(e, |ctx|, env)) == TypeOf(p, ctx + ts, e)
    decreases ExpSize(e), 0
  {
    var d, e' := |ctx|, Subst(e, |ctx|, env);
    var (head, args) := Spine(e.f, [e.a]);
    SpineSmall(e.f, [e.a], ExpSize(e));
    SpineSubst(e.f, [e.a], d, env);
    assert SubstAll([e.a], d, env) == [Subst(e.a, d, env)];
    assert Spine(e'.f, [e'.a]) == (Subst(head, d, env), SubstAll(args, d, env));
    TypeOfSubst(p, ctx, ts, head, env);
    forall i | 0 <= i < |args| ensures TypeOf(p, ctx, SubstAll(args, d, env)[i]) == TypeOf(p, ctx + ts, args[i]) {
      TypeOfSubst(p, ctx, ts, args[i], env);
    }
  }

  lemma {:induction false} ReverseAt<T>(s: seq<T>, i: nat)
    requires i < |s|
    ensures Reverse(s)[i] == s[|s| - 1 - i]
  {
    if i < |s| - 1 {
      ReverseAt(s[1..], i);
    }
  }

  lemma ReverseTypes(p: Program, env: seq<Exp>, ts: seq<Typ>)
    requires HaveTypes(p, env, ts)
    ensures HaveTypes(p, Reverse(env), Reverse(ts))
  {
    ReverseAtoms(env);
    forall i | 0 <= i < |env| ensures TypeOf(p, [], Reverse(env)[i]) == Some(Reverse(ts)[i]) {
      ReverseAt(env, i);
      ReverseAt(ts, i);
    }
  }

  /** Such a term of such a program never comes to a call that is none in C, and its value has its type. */
  lemma {:induction false} NeverWrong(p: Program, ops: Ops, tr: TRun, e: Exp, o: Outcome)
    requires SaturatedProgram(p) && TypeOf(p, [], e).Some? && TEvaluates(CifyProgram(p), ops, tr, Cify(e), o)
    ensures o.Value? && Atom(o.v) && TypeOf(p, [], o.v) == TypeOf(p, [], e)
    decreases tr, 1
  {
    match e
    case Prim(_) =>
    case Named(g) =>
      if tr.TGlobal? {
        assert SaturatedDef(p, p[g]);
        NeverWrong(p, ops, tr.r, p[g].e, o);
      }
    case App(_, _) => NeverWrongCall(p, ops, tr, e, o);
    case Binop(_, a, b) =>
      NeverWrong(p, ops, tr.r1, a, tr.o1);
      NeverWrong(p, ops, tr.r2, b, tr.o2);
      OutcomeAtom(p, ops, tr.r1, Cify(a), tr.o1.v);
      OutcomeAtom(p, ops, tr.r2, Cify(b), tr.o2.v);
    case If(c, a, b) =>
      NeverWrong(p, ops, tr.c, c, tr.oc);
      OutcomeAtom(p, ops, tr.c, Cify(c), tr.oc.v);
      NeverWrong(p, ops, tr.r, if tr.oc.v.value != 0 then a else b, o);
    case Let(a, b) =>
      NeverWrong(p, ops, tr.r1, a, tr.o1);
      var t := TypeOf(p, [], a).value;
      assert [] + [t] == [t] + [];
      TypeOfSubst(p, [], [t], b, [tr.o1.v]);
      CifySubst(b, 0, [tr.o1.v]);
      NeverWrong(p, ops, tr.r2, Subst(b, 0, [tr.o1.v]), o);
  }

  lemma {:induction false} NeverWrongCall(p: Program, ops: Ops, tr: TRun, e: Exp, o: Outcome)
    requires e.App? && SaturatedProgram(p) && TypeOf(p, [], e).Some? && TEvaluates(CifyProgram(p), ops, tr, Cify(e), o)
    ensures o.Value? && Atom(o.v) && TypeOf(p, [], o.v) == TypeOf(p, [], e)
    decreases tr, 0
  {
    var (f, es) := Spine(e.f, [e.a]);
    NeverWrong(p, ops, tr.head, f, tr.oh);
    var t := TypeOf(p, [], f).value;
    forall i {:trigger tr.os[i]} | 0 <= i < |es|
      ensures tr.os[i].Value? && Atom(tr.os[i].v) && TypeOf(p, [], tr.os[i].v) == Some(Doms(t)[i])
    {
      NeverWrong(p, ops, tr.args[i], es[i], tr.os[i]);
    }
    var g, vs := tr.oh.v.name, Contents(tr.os);
    BareArity(p[g].t);
    OutcomeAtom(p, ops, tr.head, Cify(f), tr.oh.v);
    ReverseTypes(p, vs, Doms(t));
    assert SaturatedDef(p, p[g]) && [] + Reverse(Doms(t)) == Reverse(Doms(t));
    TypeOfSubst(p, [], Reverse(Doms(t)), Unravel(p[g].t, p[g].e), Reverse(vs));
    CifySubst(Unravel(p[g].t, p[g].e), 0, Reverse(vs));
    NeverWrong(p, ops, tr.body, Subst(Unravel(p[g].t, p[g].e), 0, Reverse(vs)), o);
  }

  ghost predicate HasValue(p: Program, ops: Ops, e: Exp, v: Exp) {
    exists r :: Evaluates(p, ops, r, e, v)
  }

  ghost predicate ComesOut(p: Program, ops: Ops, e: Exp, o: Outcome) {
    exists tr :: TEvaluates(CifyProgram(p), ops, tr, Cify(e), o)
  }

  /** So there the translation has a value exactly when the source has, and it is the same. */
  lemma SameValue(p: Program, ops: Ops, e: Exp, v: Exp)
    requires SaturatedProgram(p) && TypeOf(p, [], e).Some?
    ensures HasValue(p, ops, e, v) <==> ComesOut(p, ops, e, Value(v))
  {
    if HasValue(p, ops, e, v) {
      var r :| Evaluates(p, ops, r, e, v);
      var tr, o := Complete(p, ops, r, e, v);
      NeverWrong(p, ops, tr, e, o);
    }
    if ComesOut(p, ops, e, Value(v)) {
      var tr :| TEvaluates(CifyProgram(p), ops, tr, Cify(e), Value(v));
      var r := Sound(p, ops, tr, e, v);
    }
  }

  /** A term of C has one outcome: what comes out wrong has no value. */
  lemma {:induction false} OneOutcome(tp: TProgram, ops: Ops, e: TExp, tr: TRun, o: Outcome, tr': TRun, o': Outcome)
    requires TEvaluates(tp, ops, tr, e, o) && TEvaluates(tp, ops, tr', e, o')
    ensures o == o'
    decreases tr
  {
    match e
    case TPrim(_) =>
    case TRel(_) =>
    case TError =>
    case TNamed(g) =>
      if tr.TGlobal? {
        OneOutcome(tp, ops, tp[g].body, tr.r, o, tr'.r, o');
      }
    case TApp(f, args) => OneOutcomeOfCall(tp, ops, e, tr, o, tr', o');
    case TBinop(_, a, b) =>
      OneOutcome(tp, ops, a, tr.r1, tr.o1, tr'.r1, tr'.o1);
      OneOutcome(tp, ops, b, tr.r2, tr.o2, tr'.r2, tr'.o2);
    case TIf(c, a, b) =>
      OneOutcome(tp, ops, c, tr.c, tr.oc, tr'.c, tr'.oc);
      if IsNumber(tr.oc) {
        OneOutcome(tp, ops, if tr.oc.v.value != 0 then a else b, tr.r, o, tr'.r, o');
      }
    case TLet(a, b) =>
      OneOutcome(tp, ops, a, tr.r1, tr.o1, tr'.r1, tr'.o1);
      if tr.o1.Value? {
        OneOutcome(tp, ops, TSubst(b, 0, [tr.o1.v]), tr.r2, o, tr'.r2, o');
      }
  }

  lemma {:induction false} OneOutcomeOfCall(tp: TProgram, ops: Ops, e: TExp, tr: TRun, o: Outcome, tr': TRun,
                                            o': Outcome)
    requires e.TApp? && TEvaluates(tp, ops, tr, e, o) && TEvaluates(tp, ops, tr', e, o')
    ensures o == o'
    decreases tr, 0
  {
    OneOutcome(tp, ops, e.f, tr.head, tr.oh, tr'.head, tr'.oh);
    forall i | 0 <= i < |e.args| ensures tr.os[i] == tr'.os[i] {
      OneOutcome(tp, ops, e.args[i], tr.args[i], tr.os[i], tr'.args[i], tr'.os[i]);
    }
    assert tr.os == tr'.os;
    if Callable(tp, tr.oh, |tr.os|) && forall i :: 0 <= i < |tr.os| ==> tr.os[i].Value? {
      OneOutcome(tp, ops, TSubst(tp[tr.oh.v.name].body, 0, Reverse(Contents(tr.os))), tr.body, o, tr'.body, o');
    }
  }

  /** A call of a function with another number of arguments than its type has comes out wrong. */
  lemma UnsaturatedCall(p: Program, ops: Ops, g: nat, es: seq<Exp>, tr: TRun, o: Outcome)
    requires es != [] && g in p && p[g].t.TFun? && |es| != Arity(p[g].t)
    requires TEvaluates(CifyProgram(p), ops, tr, Cify(Apps(Named(g), es)), o)
    ensures o == Wrong
  {
    SpineOfCall(g, es);
    var tp := CifyProgram(p);
    assert tp[g] == CifyDef(p[g]);
    var te := Cify(Apps(Named(g), es));
    assert te.f == Cify(Named(g)) == TNamed(g) && |te.args| == |es|;
    assert TEvaluates(tp, ops, tr.head, TNamed(g), tr.oh) && tr.oh == Value(Named(g));
  }

  lemma SpineOfCall(g: nat, es: seq<Exp>)
    requires es != []
    ensures var e := Apps(Named(g), es); e.App? && Spine(e.f, [e.a]) == (Named(g), es)
  {
    var e := Apps(Named(g), es);
    SpineOfApps(Named(g), es, []);
    assert es + [] == es && [e.a] + [] == [e.a];
  }

  lemma {:induction false} SpineOfApps(f: Exp, es: seq<Exp>, args: seq<Exp>)
    requires !f.App?
    ensures Spine(Apps(f, es), args) == (f, es + args)
    decreases |es|
  {
    if es != [] {
      var last := [es[|es| - 1]];
      SpineOfApps(f, es[..|es| - 1], last + args);
      assert es[..|es| - 1] + (last + args) == es + args;
    } else {
      assert es + args == args;
    }
  }

  predicate ArgumentTypes(p: Program, t: Typ, es: seq<Exp>) {
    forall i :: 0 <= i < |es| && i < Arity(t) ==> TypeOf(p, [], es[i]) == Some(Doms(t)[i])
  }

  /** The condition is exact: with arguments of the right types a call has the value of the curried application
      if there are as many of them as the type has, and otherwise no value. */
  lemma CallExactly(p: Program, ops: Ops, g: nat, es: seq<Exp>, r: Run, v: Exp)
    requires SaturatedProgram(p) && es != [] && g in p && p[g].t.TFun? && ArgumentTypes(p, Bare(p[g].t), es)
    requires Evaluates(p, ops, r, Apps(Named(g), es), v)
    ensures ComesOut(p, ops, Apps(Named(g), es), Value(v)) <==> |es| == Arity(p[g].t)
  {
    var e, t := Apps(Named(g), es), Bare(p[g].t);
    BareArity(p[g].t);
    SpineOfCall(g, es);
    if |es| == Arity(t) {
      assert TypeOf(p, [], e) == Some(Result(t));
      SameValue(p, ops, e, v);
      assert HasValue(p, ops, e, v);
    } else if ComesOut(p, ops, e, Value(v)) {
      var tr :| TEvaluates(CifyProgram(p), ops, tr, Cify(e), Value(v));
      UnsaturatedCall(p, ops, g, es, tr, Value(v));
    }
  }

  /** The constant functions of two arguments. */
  const CONSTANT := Def(TFun(TBase(0), TFun(TBase(0), TBase(0))), Abs(Abs(Rel(1))))

  /** Such a function given one argument: a value of the source, and nothing but wrong in C. */
  lemma PartialApplication(ops: Ops, n: int)
    ensures SaturatedProgram(map[0 := CONSTANT])
    ensures HasValue(map[0 := CONSTANT], ops, App(Named(0), Prim(n)), Abs(Prim(n)))
    ensures ComesOut(map[0 := CONSTANT], ops, App(Named(0), Prim(n)), Wrong)
    ensures forall v :: !ComesOut(map[0 := CONSTANT], ops, App(Named(0), Prim(n)), Value(v))
  {
    var p, e := map[0 := CONSTANT], App(Named(0), Prim(n));
    assert SaturatedDef(p, CONSTANT) by {
      assert Unravel(CONSTANT.t, CONSTANT.e) == Rel(1);
      assert Doms(CONSTANT.t) == [TBase(0), TBase(0)] && Bare(CONSTANT.t) == CONSTANT.t;
    }
    assert Evaluates(p, ops, Done, Prim(n), Prim(n)) && Evaluates(p, ops, Done, Named(0), Named(0));
    assert Evaluates(p, ops, Done, CONSTANT.e, CONSTANT.e) && Evaluates(p, ops, Done, Abs(Prim(n)), Abs(Prim(n)));
    assert Applies(p, ops, Beta(Done), CONSTANT.e, Prim(n), Abs(Prim(n)));
    var call := Apply(Done, CONSTANT.e, Done, Prim(n), Beta(Done));
    assert Evaluates(p, ops, call, App(CONSTANT.e, Prim(n)), Abs(Prim(n)));
    assert Applies(p, ops, Unfold(call), Named(0), Prim(n), Abs(Prim(n)));
    assert Evaluates(p, ops, Apply(Done, Named(0), Done, Prim(n), Unfold(call)), e, Abs(Prim(n)));
    var tr, o := Complete(p, ops, Apply(Done, Named(0), Done, Prim(n), Unfold(call)), e, Abs(Prim(n)));
    AppsOne(Named(0), [Prim(n)]);
    forall v ensures !ComesOut(p, ops, e, Value(v)) {
      if ComesOut(p, ops, e, Value(v)) {
        var tr :| TEvaluates(CifyProgram(p), ops, tr, Cify(e), Value(v));
        UnsaturatedCall(p, ops, 0, [Prim(n)], tr, Value(v));
      }
    }
  }
}
