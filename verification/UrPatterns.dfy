/** What the patterns of the interpreter mean: a pattern is a list of tests, each at a path into
    the value, and a list of paths whose components it binds.  And what the constructors of the
    language mean: taking apart what was put together gives the parts. */
module UrPatterns {
  import opened UrInterp

  // ---------------------------------------------------------------- paths into a value

  /** `v.v` of an option, `v.v` of a tagged value, `v["_" + name]`. */
  datatype Selector = Unwrapped | Argument | Part(name: string)

  type Path = seq<Selector>

  function Select(v: Value, s: Selector): Value {
    match (s, v)
    case (Unwrapped, Opt(x)) => x
    case (Unwrapped, Tagged(_, x)) => x
    case (Argument, Tagged(_, x)) => x
    case (Part(name), Rec(fs)) => if name in fs then fs[name] else Undefined
    case _ => Undefined
  }

  function At(v: Value, path: Path): Value {
    if path == [] then v else Select(At(v, path[..|path| - 1]), path[|path| - 1])
  }

  // ---------------------------------------------------------------- what a pattern asks and binds

  datatype Test =
    | Equals(path: Path, c: Value)
    | Present(path: Path)
    | HasTag(path: Path, tag: string)
    | HasFields(path: Path)

  datatype Verdict = Passes | Fails | Raises

  /** The verdict of one test.  Looking for a tag or a field of a missing value is an exception;
      an option pattern on a missing value only fails. */
  function Judge(w: World, v: Value, t: Test): Verdict {
    var x := At(v, t.path);
    var missing := x == Null || x == Undefined;
    match t
    case Equals(_, c) => if w.looseEq(x, c) then Passes else Fails
    case Present(_) => if missing then Fails else Passes
    case HasTag(_, tag) =>
      if missing then Raises else if x.Tagged? && x.tag == tag then Passes else Fails
    case HasFields(_) => if missing then Raises else Passes
  }

  /** The tests of a pattern, in the order they are made. */
  function Tests(p: Pat, path: Path): seq<Test>
    decreases p
  {
    match p
    case PVar => []
    case PConst(c) => [Equals(path, c)]
    case POpt(deref, q) => [Present(path)] + Tests(q, if deref then path + [Unwrapped] else path)
    case PTag(tag, q) => [HasTag(path, tag)] + Tests(q, path + [Argument])
    case PRec(fields) => FieldTests(fields, path)
  }

  function FieldTests(fields: List<FieldPat>, path: Path): seq<Test>
    decreases fields
  {
    match fields
    case Nil => []
    case Cons(f, rest) => [HasFields(path)] + Tests(f.p, path + [Part(f.name)]) + FieldTests(rest, path)
  }

  /** The paths of the variables of a pattern, from left to right. */
  function Variables(p: Pat, path: Path): seq<Path>
    decreases p
  {
    match p
    case PVar => [path]
    case PConst(_) => []
    case POpt(deref, q) => Variables(q, if deref then path + [Unwrapped] else path)
    case PTag(_, q) => Variables(q, path + [Argument])
    case PRec(fields) => FieldVariables(fields, path)
  }

  function FieldVariables(fields: List<FieldPat>, path: Path): seq<Path>
    decreases fields
  {
    match fields
    case Nil => []
    case Cons(f, rest) => Variables(f.p, path + [Part(f.name)]) + FieldVariables(rest, path)
  }

  // ---------------------------------------------------------------- environments as sequences

  function Elements<T>(l: List<T>): seq<T> {
    match l
    case Nil => []
    case Cons(x, rest) => [x] + Elements(rest)
  }

  lemma {:induction false} LookupIsIndex(env: Env, n: int)
    ensures Lookup(env, n) == if 0 <= n < |Elements(env)| then Val(Elements(env)[n]) else Error
  {
    if env.Cons? {
      LookupIsIndex(env.tail, n - 1);
    }
  }

  /** The components at these paths, the last one in front: a variable bound later has the
      smaller index. */
  function Components(v: Value, paths: seq<Path>): (vs: seq<Value>)
    ensures |vs| == |paths|
    ensures forall j :: 0 <= j < |paths| ==> vs[j] == At(v, paths[|paths| - 1 - j])
  {
    if paths == [] then [] else [At(v, paths[|paths| - 1])] + Components(v, paths[..|paths| - 1])
  }

  lemma ComponentsConcat(v: Value, a: seq<Path>, b: seq<Path>)
    ensures Components(v, a + b) == Components(v, b) + Components(v, a)
  {
  }

  // ---------------------------------------------------------------- the first test not passed

  /** The tests before the k-th are passed. */
  predicate PassesUpTo(w: World, v: Value, ts: seq<Test>, k: nat) {
    forall j :: 0 <= j < k && j < |ts| ==> Judge(w, v, ts[j]) == Passes
  }

  /** The first test that is not passed has this verdict. */
  predicate Stops(w: World, v: Value, ts: seq<Test>, verdict: Verdict) {
    exists k :: 0 <= k < |ts| && Judge(w, v, ts[k]) == verdict && PassesUpTo(w, v, ts, k)
  }

  predicate Judged(w: World, v: Value, ts: seq<Test>, r: PatResult) {
    match r
    case Bound(_) => PassesUpTo(w, v, ts, |ts|)
    case Refused => Stops(w, v, ts, Fails)
    case Threw => Stops(w, v, ts, Raises)
  }

  /** A match comes out as its tests say, and if it succeeds it puts the components of its
      variables before the environment. */
  predicate Matched(w: World, env: Env, v: Value, ts: seq<Test>, vars: seq<Path>, r: PatResult) {
    && Judged(w, v, ts, r)
    && (r.Bound? ==> Elements(r.env) == Components(v, vars) + Elements(env))
  }

  /** One match, and if it succeeds another one. */
  lemma MatchBoth(w: World, env: Env, v: Value, ts: seq<Test>, vars: seq<Path>, r: PatResult,
                  ts': seq<Test>, vars': seq<Path>, r': PatResult)
    requires Matched(w, env, v, ts, vars, r)
    requires if r.Bound? then Matched(w, r.env, v, ts', vars', r') else r' == r
    ensures Matched(w, env, v, ts + ts', vars + vars', r')
  {
    ComponentsConcat(v, vars, vars');
    if !r'.Bound? {
      var verdict := if r'.Refused? then Fails else Raises;
      if !r.Bound? {
        var k :| 0 <= k < |ts| && Judge(w, v, ts[k]) == verdict && PassesUpTo(w, v, ts, k);
        assert (ts + ts')[k] == ts[k] && PassesUpTo(w, v, ts + ts', k);
      } else {
        var k :| 0 <= k < |ts'| && Judge(w, v, ts'[k]) == verdict && PassesUpTo(w, v, ts', k);
        assert (ts + ts')[|ts| + k] == ts'[k] && PassesUpTo(w, v, ts + ts', |ts| + k);
      }
    }
  }

  lemma MatchOne(w: World, env: Env, v: Value, t: Test, r: PatResult)
    requires r == match Judge(w, v, t) case Passes => Bound(env) case Fails => Refused case Raises => Threw
    ensures Matched(w, env, v, [t], [], r)
  {
    assert [t][0] == t && PassesUpTo(w, v, [t], 0);
  }

  // ---------------------------------------------------------------- matching

  lemma Into(v: Value, path: Path, s: Selector)
    ensures At(v, path + [s]) == Select(At(v, path), s)
  {
    assert (path + [s])[..|path|] == path;
  }

  lemma {:induction false} MatchAt(w: World, env: Env, p: Pat, v: Value, path: Path)
    ensures Matched(w, env, v, Tests(p, path), Variables(p, path), ExecP(w, env, p, At(v, path)))
    decreases p, 0
  {
    var x := At(v, path);
    match p {
      case PVar =>
      case PConst(c) => MatchOne(w, env, v, Equals(path, c), ExecP(w, env, p, x));
      case POpt(deref, q) =>
        Into(v, path, Unwrapped);
        MatchUnder(w, env, v, Present(path), q, if deref then path + [Unwrapped] else path, ExecP(w, env, p, x));
      case PTag(tag, q) =>
        Into(v, path, Argument);
        MatchUnder(w, env, v, HasTag(path, tag), q, path + [Argument], ExecP(w, env, p, x));
      case PRec(fields) => MatchFields(w, env, fields, v, path);
    }
  }

  /** A test, and if it is passed a match further in. */
  lemma {:induction false} MatchUnder(w: World, env: Env, v: Value, t: Test, q: Pat, path: Path, r: PatResult)
    requires r == match Judge(w, v, t)
                  case Passes => ExecP(w, env, q, At(v, path))
                  case Fails => Refused
                  case Raises => Threw
    ensures Matched(w, env, v, [t] + Tests(q, path), Variables(q, path), r)
    decreases q, 1
  {
    var first := if Judge(w, v, t) == Passes then Bound(env) else r;
    MatchOne(w, env, v, t, first);
    if first.Bound? {
      MatchAt(w, env, q, v, path);
    }
    MatchBoth(w, env, v, [t], [], first, Tests(q, path), Variables(q, path), r);
    assert [] + Variables(q, path) == Variables(q, path);
  }

  lemma {:induction false} MatchFields(w: World, env: Env, fields: List<FieldPat>, v: Value, path: Path)
    ensures Matched(w, env, v, FieldTests(fields, path), FieldVariables(fields, path),
                    ExecFields(w, env, fields, At(v, path)))
    decreases fields, 2
  {
    if fields.Cons? {
      var f, rest, x := fields.head, fields.tail, At(v, path);
      var inner, t := path + [Part(f.name)], HasFields(path);
      var first := if Judge(w, v, t) == Raises then Threw else ExecP(w, env, f.p, At(v, inner));
      Into(v, path, Part(f.name));
      MatchUnder(w, env, v, t, f.p, inner, first);
      if first.Bound? {
        MatchFields(w, first.env, rest, v, path);
      }
      MatchBoth(w, env, v, [t] + Tests(f.p, inner), Variables(f.p, inner), first,
                FieldTests(rest, path), FieldVariables(rest, path), ExecFields(w, env, fields, x));
    }
  }

  /** What a pattern means.  Matching succeeds exactly when every test of the pattern passes at
      its path in the value; it is refused, or throws, exactly when the first test that is not
      passed fails, or raises.  On success the new indices lead to the components at the paths of
      the variables, the last variable first, and the old indices are moved up by their number. */
  lemma MatchMeans(w: World, env: Env, p: Pat, v: Value)
    ensures ExecP(w, env, p, v).Bound? <==> PassesUpTo(w, v, Tests(p, []), |Tests(p, [])|)
    ensures ExecP(w, env, p, v).Refused? <==> Stops(w, v, Tests(p, []), Fails)
    ensures ExecP(w, env, p, v).Threw? <==> Stops(w, v, Tests(p, []), Raises)
    ensures var vars := Variables(p, []);
            ExecP(w, env, p, v).Bound? ==>
              && (forall j :: 0 <= j < |vars| ==>
                    Lookup(ExecP(w, env, p, v).env, j) == Val(At(v, vars[|vars| - 1 - j])))
              && (forall j :: j >= 0 ==> Lookup(ExecP(w, env, p, v).env, |vars| + j) == Lookup(env, j))
  {
    var r := ExecP(w, env, p, v);
    var ts, vars := Tests(p, []), Variables(p, []);
    MatchAt(w, env, p, v, []);
    StopsOnce(w, v, ts);
    if r.Bound? {
      var found := Components(v, vars);
      forall j | 0 <= j < |vars|
        ensures Lookup(r.env, j) == Val(At(v, vars[|vars| - 1 - j]))
      {
        LookupIsIndex(r.env, j);
        assert Elements(r.env)[j] == found[j];
      }
      forall j | j >= 0
        ensures Lookup(r.env, |vars| + j) == Lookup(env, j)
      {
        LookupIsIndex(r.env, |vars| + j);
        LookupIsIndex(env, j);
      }
    }
  }

  /** There is one first test that is not passed. */
  lemma StopsOnce(w: World, v: Value, ts: seq<Test>)
    ensures !(PassesUpTo(w, v, ts, |ts|) && (Stops(w, v, ts, Fails) || Stops(w, v, ts, Raises)))
    ensures !(Stops(w, v, ts, Fails) && Stops(w, v, ts, Raises))
  {
  }

  /** A match takes the first branch that does not refuse the value; it fails if that branch
      throws or if there is none. */
  lemma {:induction false} ChooseMeans(w: World, env: Env, branches: List<Branch>, v: Value, i: nat)
    requires i <= |Elements(branches)|
    requires forall j :: 0 <= j < i ==> ExecP(w, env, Elements(branches)[j].pat, v).Refused?
    requires i < |Elements(branches)| ==> !ExecP(w, env, Elements(branches)[i].pat, v).Refused?
    ensures Choose(w, env, branches, v) ==
            if i == |Elements(branches)| || ExecP(w, env, Elements(branches)[i].pat, v).Threw? then NoBranch
            else Chosen(ExecP(w, env, Elements(branches)[i].pat, v).env, Elements(branches)[i].body)
  {
    if branches.Cons? {
      assert Elements(branches)[0] == branches.head;
      if i > 0 {
        assert forall j :: 0 <= j < |Elements(branches.tail)| ==>
            Elements(branches)[j + 1] == Elements(branches.tail)[j];
        ChooseMeans(w, env, branches.tail, v, i - 1);
      }
    }
  }

  // ---------------------------------------------------------------- taking apart what was put together

  /** The payload of a tagged value is what was injected, and another tag does not match; the
      payload of an option is what was put into it; a binding binds its value. */
  lemma PayloadComesBack(w: World, n: nat, env: Env, e: Exp, v: Value, tag: string, tag': string)
    requires Eval(w, n, env, e) == Val(v)
    ensures Eval(w, n + 2, env, Match(Inject(tag, e), Cons(Branch(PTag(tag', PVar), Var(0)), Nil)))
         == if tag == tag' then Val(v) else Error
    ensures Eval(w, n + 2, env, Match(MkOpt(e), Cons(Branch(POpt(true, PVar), Var(0)), Nil))) == Val(v)
    ensures Eval(w, n + 2, env, Match(e, Cons(Branch(PVar, Var(0)), Nil))) == Val(v)
    ensures Eval(w, n + 2, env, Let(e, Var(0))) == Val(v)
  {
    EvalMonotone(w, n, n + 1, env, e);
    var t, b, o := Tagged(tag, v), Branch(PTag(tag', PVar), Var(0)), Branch(POpt(true, PVar), Var(0));
    assert Eval(w, n + 1, env, Inject(tag, e)) == Val(t) && Eval(w, n + 1, env, MkOpt(e)) == Val(Opt(v));
    assert Choose(w, env, Nil, t) == NoBranch && ExecP(w, env, PVar, v) == Bound(Cons(v, env));
    assert ExecP(w, env, b.pat, t) == if tag == tag' then Bound(Cons(v, env)) else Refused;
    assert Choose(w, env, Cons(b, Nil), t) == if tag == tag' then Chosen(Cons(v, env), Var(0)) else NoBranch;
    assert Choose(w, env, Cons(o, Nil), Opt(v)) == Chosen(Cons(v, env), Var(0));
    assert Choose(w, env, Cons(Branch(PVar, Var(0)), Nil), v) == Chosen(Cons(v, env), Var(0));
    assert Lookup(Cons(v, env), 0) == Val(v);
    assert Eval(w, n + 1, Cons(v, env), Var(0)) == Val(v);
  }

  /** A binding is the call of a function with the bound expression. */
  lemma LetIsCall(w: World, n: nat, env: Env, e1: Exp, e2: Exp)
    requires Eval(w, n, env, Let(e1, e2)) != Timeout
    ensures Eval(w, n + 1, env, App(Lam(e2), e1)) == Eval(w, n, env, Let(e1, e2))
  {
    EvalMonotone(w, n - 1, n, env, e1);
    assert Eval(w, n, env, Lam(e2)) == Val(Closure(env, e2));
  }

  /** The i-th field is the last one of its name. */
  predicate LastOfName(fields: seq<FieldExp>, i: nat) {
    i < |fields| && forall j :: i < j < |fields| ==> fields[j].name != fields[i].name
  }

  /** A record has each of its names, with the value of the last field of the name. */
  lemma {:induction false} RecordHas(w: World, n: nat, env: Env, fields: List<FieldExp>, i: nat)
    requires EvalFields(w, n, env, fields).Fields? && LastOfName(Elements(fields), i)
    ensures Elements(fields)[i].name in EvalFields(w, n, env, fields).fs
    ensures Eval(w, n, env, Elements(fields)[i].e)
         == Val(EvalFields(w, n, env, fields).fs[Elements(fields)[i].name])
    decreases n
  {
    var all, later, name := Elements(fields), Elements(fields.tail), Elements(fields)[i].name;
    var more := EvalFields(w, n - 1, env, fields.tail).fs;
    assert forall j :: 0 <= j < |later| ==> later[j] == all[j + 1];
    if i > 0 {
      assert all[i] == later[i - 1];
      RecordHas(w, n - 1, env, fields.tail, i - 1);
    } else if name in more {
      var j := RecordNames(w, n - 1, env, fields.tail, name);
      assert false;
    }
    EvalMonotone(w, n - 1, n, env, all[i].e);
  }

  /** A record has no other names. */
  lemma {:induction false} RecordNames(w: World, n: nat, env: Env, fields: List<FieldExp>, name: string)
    returns (i: nat)
    requires EvalFields(w, n, env, fields).Fields? && name in EvalFields(w, n, env, fields).fs
    ensures i < |Elements(fields)| && Elements(fields)[i].name == name
    decreases n
  {
    if name == fields.head.name {
      i := 0;
    } else {
      i := RecordNames(w, n - 1, env, fields.tail, name);
      i := i + 1;
    }
  }

  /** A field of a record that was just built is the last one given under the name. */
  lemma FieldComesBack(w: World, n: nat, env: Env, fields: List<FieldExp>, i: nat)
    requires EvalFields(w, n, env, fields).Fields? && LastOfName(Elements(fields), i)
    ensures Eval(w, n + 2, env, Proj(Record(fields), Elements(fields)[i].name))
         == Eval(w, n, env, Elements(fields)[i].e)
  {
    RecordHas(w, n, env, fields, i);
    RecordValue(w, n, env, fields);
    ProjValue(w, n + 1, env, Record(fields), Elements(fields)[i].name);
  }

  lemma RecordValue(w: World, n: nat, env: Env, fields: List<FieldExp>)
    requires EvalFields(w, n, env, fields).Fields? && fields.Cons?
    ensures Eval(w, n + 1, env, Record(fields)) == Val(Rec(EvalFields(w, n, env, fields).fs))
  {
  }

  lemma ProjValue(w: World, n: nat, env: Env, e: Exp, name: string)
    requires Eval(w, n, env, e).Val? && Eval(w, n, env, e).v.Rec? && name in Eval(w, n, env, e).v.fields
    ensures Eval(w, n + 1, env, Proj(e, name)) == Val(Eval(w, n, env, e).v.fields[name])
  {
  }
}
