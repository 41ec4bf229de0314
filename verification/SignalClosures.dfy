/** Signals are closures of the client-side interpreter; running one gives what the reactive graph
    takes a signal to mean. */
module SignalClosures {
  import opened UrInterp
  import R = Reactive

  // The native functions that signal code calls.
  const SG := 0
  const UNION := 1

  function ReportValue(sources: Value, data: Value): Value {
    Rec(map["sources" := sources, "data" := data])
  }

  function TwoFields(sources: Exp, data: Exp): Exp {
    Record(Cons(FieldExp("sources", sources), Cons(FieldExp("data", data), Nil)))
  }

  /** `sr` */
  function ReturnClosure(v: Value): Value {
    Closure(Nil, Const(ReportValue(Null, v)))
  }

  /** `ss`; `single` is the one-element list of the source. */
  function ReadClosure(s: Value, single: Value): Value {
    Closure(Cons(s, Nil), TwoFields(Const(single), Ffi(SG, Cons(Var(1), Nil))))
  }

  /** The part of `sb` that runs once both signals have reported. */
  function Combine(): Exp {
    TwoFields(Ffi(UNION, Cons(Proj(Var(1), "sources"), Cons(Proj(Var(0), "sources"), Nil))), Proj(Var(0), "data"))
  }

  /** `sb` */
  function BindClosure(x: Value, y: Value): Value {
    Closure(Cons(y, Cons(x, Nil)),
            Let(App(Var(2), Const(Null)),
                Let(App(App(Var(2), Proj(Var(0), "data")), Const(Null)),
                    Combine())))
  }

  lemma ReturnReports(w: World, n: nat, v: Value)
    requires n >= 2
    ensures Apply(w, n, ReturnClosure(v), Null) == Val(ReportValue(Null, v))
  {
  }

  lemma TwoFieldsEval(w: World, n: nat, env: Env, a: Exp, b: Exp, va: Value, vb: Value)
    requires n >= 4 && Eval(w, n - 2, env, a) == Val(va) && Eval(w, n - 3, env, b) == Val(vb)
    ensures Eval(w, n, env, TwoFields(a, b)) == Val(ReportValue(va, vb))
  {
    var fb := Cons(FieldExp("data", b), Nil);
    assert EvalFields(w, n - 3, env, Nil) == Fields(map[]);
    assert EvalFields(w, n - 2, env, fb) == Fields(map["data" := vb] + map[]);
    assert EvalFields(w, n - 1, env, Cons(FieldExp("sources", a), fb)) ==
      Fields(map["sources" := va] + (map["data" := vb] + map[]));
    assert map["sources" := va] + (map["data" := vb] + map[]) == map["sources" := va, "data" := vb];
  }

  /** Reading a source reports that source alone, with the value the native reader gives. */
  lemma ReadReports(w: World, n: nat, s: Value, single: Value)
    requires n >= 8
    ensures Apply(w, n, ReadClosure(s, single), Null) == Val(ReportValue(single, w.call(SG, [s])))
  {
    var env := Cons(Null, Cons(s, Nil));
    var e := Ffi(SG, Cons(Var(1), Nil));
    assert Lookup(env, 1) == Val(s);
    assert EvalArgs(w, n - 6, env, Nil) == Vals([]);
    assert Eval(w, n - 6, env, Var(1)) == Val(s);
    assert EvalArgs(w, n - 5, env, Cons(Var(1), Nil)) == Vals([s] + []);
    assert [s] + [] == [s];
    assert Eval(w, n - 4, env, e) == Val(w.call(SG, [s]));
    TwoFieldsEval(w, n - 1, env, Const(single), e, single, w.call(SG, [s]));
  }

  lemma VarField(w: World, n: nat, env: Env, i: int, v: Value, name: string)
    requires n >= 2 && Lookup(env, i) == Val(v) && v.Rec? && name in v.fields
    ensures Eval(w, n, env, Proj(Var(i), name)) == Val(v.fields[name])
  {
  }

  lemma VarApplied(w: World, n: nat, env: Env, i: int, f: Value, arg: Exp, v: Value)
    requires n >= 2 && Lookup(env, i) == Val(f) && Eval(w, n - 1, env, arg) == Val(v)
    ensures Eval(w, n, env, App(Var(i), arg)) == Apply(w, n - 1, f, v)
  {
  }

  lemma CombineEval(w: World, n: nat, env: Env, s1: Value, d1: Value, s2: Value, d2: Value)
    requires n >= 9
    ensures Eval(w, n, Cons(ReportValue(s2, d2), Cons(ReportValue(s1, d1), env)), Combine())
         == Val(ReportValue(w.call(UNION, [s1, s2]), d2))
  {
    var env' := Cons(ReportValue(s2, d2), Cons(ReportValue(s1, d1), env));
    var p1, p0, d0 := Proj(Var(1), "sources"), Proj(Var(0), "sources"), Proj(Var(0), "data");
    VarField(w, n - 4, env', 1, ReportValue(s1, d1), "sources");
    VarField(w, n - 5, env', 0, ReportValue(s2, d2), "sources");
    VarField(w, n - 3, env', 0, ReportValue(s2, d2), "data");
    assert EvalArgs(w, n - 5, env', Nil) == Vals([]);
    assert EvalArgs(w, n - 4, env', Cons(p0, Nil)) == Vals([s2] + []);
    assert EvalArgs(w, n - 3, env', Cons(p1, Cons(p0, Nil))) == Vals([s1] + ([s2] + []));
    assert [s1] + ([s2] + []) == [s1, s2];
    TwoFieldsEval(w, n, env', Ffi(UNION, Cons(p1, Cons(p0, Nil))), d0, w.call(UNION, [s1, s2]), d2);
  }

  /** A bind runs its first signal, then the signal its continuation makes of the first value, and
      reports the union of both source lists with the second value. */
  lemma BindReports(w: World, n: nat, x: Value, y: Value, sig2: Value, s1: Value, d1: Value, s2: Value, d2: Value)
    requires Apply(w, n, x, Null) == Val(ReportValue(s1, d1))
    requires Apply(w, n, y, d1) == Val(sig2)
    requires Apply(w, n, sig2, Null) == Val(ReportValue(s2, d2))
    ensures Apply(w, n + 12, BindClosure(x, y), Null) == Val(ReportValue(w.call(UNION, [s1, s2]), d2))
  {
    var env0 := Cons(Null, Cons(y, Cons(x, Nil)));
    var env1 := Cons(ReportValue(s1, d1), env0);
    var env2 := Cons(ReportValue(s2, d2), env1);
    ApplyMonotone(w, n, n + 9, x, Null);
    ApplyMonotone(w, n, n + 7, y, d1);
    ApplyMonotone(w, n, n + 8, sig2, Null);
    assert Lookup(env0.tail, 1) == Val(x);
    assert Lookup(env1.tail, 1) == Val(y);
    VarApplied(w, n + 10, env0, 2, x, Const(Null), Null);
    VarField(w, n + 7, env1, 0, ReportValue(s1, d1), "data");
    VarApplied(w, n + 8, env1, 2, y, Proj(Var(0), "data"), d1);
    assert Eval(w, n + 9, env1, App(App(Var(2), Proj(Var(0), "data")), Const(Null))) == Val(ReportValue(s2, d2));
    CombineEval(w, n + 9, env0, s1, d1, s2, d2);
    var inner := Let(App(App(Var(2), Proj(Var(0), "data")), Const(Null)), Combine());
    assert Eval(w, n + 10, env1, inner) == Val(ReportValue(w.call(UNION, [s1, s2]), d2));
    assert Eval(w, n + 11, env0, Let(App(Var(2), Const(Null)), inner)) == Eval(w, n + 10, env1, inner);
  }

  /** A bind throws when its first signal does, when its continuation does, and when the second signal does. */
  lemma BindThrows(w: World, n: nat, x: Value, y: Value)
    requires Apply(w, n, x, Null) == Error
    ensures Apply(w, n + 12, BindClosure(x, y), Null) == Error
  {
    var env0 := Cons(Null, Cons(y, Cons(x, Nil)));
    ApplyMonotone(w, n, n + 9, x, Null);
    assert Lookup(env0.tail, 1) == Val(x);
    VarApplied(w, n + 10, env0, 2, x, Const(Null), Null);
  }

  lemma BindRestThrows(w: World, n: nat, x: Value, y: Value, s1: Value, d1: Value)
    requires Apply(w, n, x, Null) == Val(ReportValue(s1, d1))
    requires
      || Apply(w, n, y, d1) == Error
      || (Apply(w, n, y, d1).Val? && Apply(w, n, Apply(w, n, y, d1).v, Null) == Error)
    ensures Apply(w, n + 12, BindClosure(x, y), Null) == Error
  {
    var env0 := Cons(Null, Cons(y, Cons(x, Nil)));
    var env1 := Cons(ReportValue(s1, d1), env0);
    ApplyMonotone(w, n, n + 9, x, Null);
    ApplyMonotone(w, n, n + 7, y, d1);
    assert Lookup(env0.tail, 1) == Val(x);
    assert Lookup(env1.tail, 1) == Val(y);
    VarApplied(w, n + 10, env0, 2, x, Const(Null), Null);
    VarField(w, n + 7, env1, 0, ReportValue(s1, d1), "data");
    VarApplied(w, n + 8, env1, 2, y, Proj(Var(0), "data"), d1);
    if Apply(w, n, y, d1).Val? {
      ApplyMonotone(w, n, n + 8, Apply(w, n, y, d1).v, Null);
    }
    var second := App(App(Var(2), Proj(Var(0), "data")), Const(Null));
    assert Eval(w, n + 9, env1, second) == Error;
    assert Eval(w, n + 10, env1, Let(second, Combine())) == Error;
  }

  // ---------------------------------------------------------------- every signal

  /** How the data of the page are values of the interpreter. */
  datatype Coding = Coding(val: R.Val -> Value, source: R.Source -> Value, list: seq<Value> -> Value) {
    function Sources(ss: seq<R.Source>): (vs: seq<Value>)
      ensures |vs| == |ss| && forall i :: 0 <= i < |ss| ==> vs[i] == source(ss[i])
    {
      seq(|ss|, i requires 0 <= i < |ss| => source(ss[i]))
    }
  }

  /** A function applied to a value gives a value, or throws. */
  ghost predicate Gives(w: World, f: Value, a: Value, r: Outcome) {
    r != Timeout && exists n: nat :: Apply(w, n, f, a) == r
  }

  predicate IsBind(sv: Value) {
    sv.Closure? && sv.env.Cons? && sv.env.tail.Cons? && sv == BindClosure(sv.env.tail.head, sv.env.head)
  }

  /** What a closure has to be to stand for a signal: as `sr`, `ss` and `sb` make it, with a continuation that gives
      what stands for the next signal, or throws where that does. */
  ghost predicate Represents(w: World, c: Coding, sv: Value, sig: R.Signal)
    decreases sig
  {
    match sig
    case Return(v) => sv == ReturnClosure(c.val(v))
    case Read(s) => sv == ReadClosure(c.source(s), c.list([c.source(s)]))
    case Bind(x, k) =>
      && IsBind(sv) && Represents(w, c, sv.env.tail.head, x)
      && forall d: R.Val {:trigger k[d]} :: d in k ==>
           || (k[d].Throw? && Gives(w, sv.env.head, c.val(d), Error))
           || exists next :: Gives(w, sv.env.head, c.val(d), Val(next)) && Represents(w, c, next, k[d])
    case Throw => Gives(w, sv, Null, Error)
  }

  ghost predicate Unites(w: World, c: Coding) {
    forall a: seq<Value>, b: seq<Value> :: w.call(UNION, [c.list(a), c.list(b)]) == c.list(R.Unioned(a, b, b))
  }

  /** Different sources are different values. */
  ghost predicate Distinct(c: Coding, dom: set<R.Source>) {
    forall s, t :: s in dom && t in dom && c.source(s) == c.source(t) ==> s == t
  }

  lemma {:induction false} UnionedSources(c: Coding, dom: set<R.Source>, a: seq<R.Source>, b: seq<R.Source>,
                                          acc: seq<R.Source>)
    requires Distinct(c, dom) && (forall s :: s in a ==> s in dom) && (forall s :: s in b ==> s in dom)
    ensures c.Sources(R.Unioned(a, b, acc)) == R.Unioned(c.Sources(a), c.Sources(b), c.Sources(acc))
    decreases |a|
  {
    if a != [] {
      assert a[0] in dom && c.Sources(a)[1..] == c.Sources(a[1..]);
      assert c.source(a[0]) in c.Sources(b) <==> a[0] in b by {
        if c.source(a[0]) in c.Sources(b) {
          var i :| 0 <= i < |b| && c.Sources(b)[i] == c.source(a[0]);
          assert b[i] in dom;
        }
        if a[0] in b {
          var i :| 0 <= i < |b| && b[i] == a[0];
          assert c.Sources(b)[i] == c.source(a[0]);
        }
      }
      assert c.Sources([a[0]] + acc) == [c.source(a[0])] + c.Sources(acc);
      UnionedSources(c, dom, a[1..], b, if a[0] in b then acc else [a[0]] + acc);
    }
  }

  /** The native functions read sources and unite lists. */
  ghost predicate Natives(w: World, c: Coding, store: map<R.Source, R.Val>) {
    && c.list([]) == Null
    && (forall s :: s in store ==> w.call(SG, [c.source(s)]) == c.val(store[s])) && Distinct(c, store.Keys)
    && Unites(w, c)
  }

  ghost function Reported(c: Coding, r: R.Option<R.Report>): Outcome {
    match r
    case None => Error
    case Some(report) => Val(ReportValue(c.list(c.Sources(report.sources)), c.val(report.data)))
  }

  /** The closure of a signal, run by the interpreter, gives the report that the signal means. */
  lemma {:induction false} SignalRuns(w: World, c: Coding, store: map<R.Source, R.Val>, sv: Value, sig: R.Signal)
    requires R.Within(sig, store.Keys) && Natives(w, c, store) && Represents(w, c, sv, sig)
    ensures Gives(w, sv, Null, Reported(c, R.Eval(sig, store)))
    decreases sig, 1
  {
    match sig
    case Return(v) =>
      ReturnReports(w, 2, c.val(v));
      assert c.Sources([]) == [];
      assert Apply(w, 2, sv, Null) == Reported(c, R.Eval(sig, store));
    case Read(s) =>
      ReadReports(w, 8, c.source(s), c.list([c.source(s)]));
      assert c.Sources([s]) == [c.source(s)];
      assert Apply(w, 8, sv, Null) == Reported(c, R.Eval(sig, store));
    case Throw =>
    case Bind(x, k) => BindRuns(w, c, store, sv, sig);
  }

  lemma {:induction false} BindRuns(w: World, c: Coding, store: map<R.Source, R.Val>, sv: Value, sig: R.Signal)
    requires sig.Bind? && R.Within(sig, store.Keys) && Natives(w, c, store) && Represents(w, c, sv, sig)
    ensures Gives(w, sv, Null, Reported(c, R.Eval(sig, store)))
    decreases sig, 0
  {
    var xv, yv := sv.env.tail.head, sv.env.head;
    SignalRuns(w, c, store, xv, sig.x);
    var first := R.Eval(sig.x, store);
    var n: nat :| Apply(w, n, xv, Null) == Reported(c, first);
    if first.None? {
      BindThrows(w, n, xv, yv);
    } else {
      var r1 := first.value;
      var rest := sig.k[r1.data];
      if rest.Throw? && Gives(w, yv, c.val(r1.data), Error) {
        var m: nat :| Apply(w, m, yv, c.val(r1.data)) == Error;
        ApplyMonotone(w, n, n + m, xv, Null);
        ApplyMonotone(w, m, n + m, yv, c.val(r1.data));
        BindRestThrows(w, n + m, xv, yv, c.list(c.Sources(r1.sources)), c.val(r1.data));
      } else {
        var next :| Gives(w, yv, c.val(r1.data), Val(next)) && Represents(w, c, next, rest);
        SignalRuns(w, c, store, next, rest);
        R.AllReportedOnce(sig.x, store);
        if R.Eval(rest, store).Some? {
          R.AllReportedOnce(rest, store);
        }
        BindThen(w, c, store.Keys, xv, yv, r1, next, n, R.Eval(rest, store));
      }
    }
  }

  lemma BindThen(w: World, c: Coding, dom: set<R.Source>, xv: Value, yv: Value, r1: R.Report, next: Value, n: nat,
                 second: R.Option<R.Report>)
    requires Apply(w, n, xv, Null) == Reported(c, R.Some(r1)) && Gives(w, yv, c.val(r1.data), Val(next))
    requires Gives(w, next, Null, Reported(c, second))
    requires Unites(w, c) && Distinct(c, dom) && (forall s :: s in r1.sources ==> s in dom)
    requires second.Some? ==> forall s :: s in second.value.sources ==> s in dom
    ensures Gives(w, BindClosure(xv, yv), Null, Reported(c,
      match second
      case None => R.None
      case Some(r2) => R.Some(R.Report(R.Unioned(r1.sources, r2.sources, r2.sources), r2.data))))
  {
    var d1 := c.val(r1.data);
    var m: nat :| Apply(w, m, yv, d1) == Val(next);
    var k: nat :| Apply(w, k, next, Null) == Reported(c, second);
    var all := n + m + k;
    ApplyMonotone(w, n, all, xv, Null);
    ApplyMonotone(w, m, all, yv, d1);
    ApplyMonotone(w, k, all, next, Null);
    if second.None? {
      BindRestThrows(w, all, xv, yv, c.list(c.Sources(r1.sources)), d1);
    } else {
      UnionedSources(c, dom, r1.sources, second.value.sources, second.value.sources);
      BindReports(w, all, xv, yv, next, c.list(c.Sources(r1.sources)), d1, c.list(c.Sources(second.value.sources)),
        c.val(second.value.data));
    }
  }
}
