/** The client-side interpreter for compiled Ur code: an environment/stack machine, its
    recursive counterpart, and the proof that the two agree. */
module UrInterp {

  datatype List<T> = Nil | Cons(head: T, tail: List<T>)

  type Env = List<Value>

  /** JavaScript values met by the interpreter.  `Native` stands for a JavaScript function. */
  datatype Value =
    | Null
    | Undefined
    | Prim(p: int)
    | Opt(v: Value)
    | Tagged(tag: string, arg: Value)
    | Closure(env: Env, body: Exp)
    | Rec(fields: map<string, Value>)
    | Native(id: int)

  datatype Exp =
    | Const(v: Value)                                  // "c"
    | Var(n: int)                                      // "v"
    | Named(n: int)                                    // "n"
    | MkOpt(e: Exp)                                    // "s"
    | Inject(tag: string, e: Exp)                      // "1"
    | Ffi(f: int, args: List<Exp>)                     // "f"
    | Lam(body: Exp)                                   // "l"
    | App(fn: Exp, x: Exp)                             // "a"
    | Record(fields: List<FieldExp>)                   // "r"
    | Proj(r: Exp, field: string)                      // "."
    | Then(e1: Exp, e2: Exp)                           // ";"
    | Let(e1: Exp, e2: Exp)                            // "="
    | Match(e: Exp, branches: List<Branch>)            // "m"
    | Text(src: string)                                // "t": source text not yet parsed

  datatype FieldExp = FieldExp(name: string, e: Exp)

  datatype Branch = Branch(pat: Pat, body: Exp)

  datatype Pat =
    | PVar                                             // "v"
    | PConst(v: Value)                                 // "c"
    | POpt(deref: bool, p: Pat)                        // "s"
    | PTag(tag: string, p: Pat)                        // "1"
    | PRec(fields: List<FieldPat>)                     // "r"

  datatype FieldPat = FieldPat(name: string, p: Pat)

  datatype Frame =
    | FOpt                                             // "s"
    | FInject(tag: string)                             // "1"
    | FFfi(f: int, args: seq<Value>, todo: List<Exp>)  // "f"
    | FFun(x: Exp)                                     // "a1"
    | FArg(fn: Value)                                  // "a2"
    | FRestore(env: Env)                               // "<"
    | FRecord(name: string, fs: map<string, Value>, more: List<FieldExp>) // "r"
    | FProj(field: string)                             // "."
    | FThen(e2: Exp)                                   // ";"
    | FLet(e2: Exp)                                    // "="
    | FMatch(branches: List<Branch>)                   // "m"

  type Stack = List<Frame>

  /** What the interpreter takes from outside: native code, JavaScript's `==` on values,
      the parser behind `eval`, and the table of named functions. */
  datatype World = World(
    call: (int, seq<Value>) -> Value,
    looseEq: (Value, Value) -> bool,
    parse: string -> Exp,
    funcs: seq<Exp>)

  datatype Outcome = Val(v: Value) | Error | Timeout

  // ---------------------------------------------------------------- shared primitives

  function Lookup(env: Env, n: int): (r: Outcome)
    ensures r != Timeout
  {
    match env
    case Nil => Error
    case Cons(v, rest) => if n == 0 then Val(v) else Lookup(rest, n - 1)
  }

  /** `v.v` */
  function Payload(v: Value): Outcome {
    match v
    case Null => Error
    case Undefined => Error
    case Opt(x) => Val(x)
    case Tagged(_, x) => Val(x)
    case _ => Val(Undefined)
  }

  /** `v["_" + name]` */
  function Field(v: Value, name: string): Outcome {
    match v
    case Null => Error
    case Undefined => Error
    case Rec(fs) => Val(if name in fs then fs[name] else Undefined)
    case _ => Val(Undefined)
  }

  function Resolve(w: World, e: Exp): Exp {
    if e.Text? then w.parse(e.src) else e
  }

  datatype PatResult = Bound(env: Env) | Refused | Threw

  /** `execP`: match a value against a pattern, extending the environment. */
  function ExecP(w: World, env: Env, p: Pat, v: Value): PatResult
    decreases p
  {
    match p
    case PVar => Bound(Cons(v, env))
    case PConst(c) => if w.looseEq(v, c) then Bound(env) else Refused
    case POpt(deref, q) =>
      if v.Null? || v.Undefined? then Refused
      else if deref then ExecP(w, env, q, Payload(v).v) else ExecP(w, env, q, v)
    case PTag(tag, q) =>
      if v.Null? || v.Undefined? then Threw
      else if v.Tagged? && v.tag == tag then ExecP(w, env, q, v.arg) else Refused
    case PRec(fields) => ExecFields(w, env, fields, v)
  }

  function ExecFields(w: World, env: Env, fields: List<FieldPat>, v: Value): PatResult
    decreases fields
  {
    match fields
    case Nil => Bound(env)
    case Cons(f, rest) =>
      match Field(v, f.name)
      case Val(x) =>
        (match ExecP(w, env, f.p, x)
         case Bound(env') => ExecFields(w, env', rest, v)
         case r => r)
      case _ => Threw
  }

  datatype Chosen = Chosen(env: Env, body: Exp) | NoBranch

  /** The loop over a match's branches; running out of branches and a throwing pattern both
      end the run with an exception. */
  function Choose(w: World, env: Env, branches: List<Branch>, v: Value): Chosen {
    match branches
    case Nil => NoBranch
    case Cons(b, rest) =>
      match ExecP(w, env, b.pat, v)
      case Bound(env') => Chosen(env', b.body)
      case Refused => Choose(w, env, rest, v)
      case Threw => NoBranch
  }

  // ---------------------------------------------------------------- the recursive evaluator

  datatype ListOutcome = Vals(vs: seq<Value>) | ListError | ListTimeout

  datatype RecOutcome = Fields(fs: map<string, Value>) | RecError | RecTimeout

  /** Big-step evaluation, cut off after `n` nested calls. */
  function Eval(w: World, n: nat, env: Env, e: Exp): Outcome
    decreases n
  {
    if n == 0 then Timeout else
    match e
    case Const(v) => Val(v)
    case Var(i) => Lookup(env, i)
    case Named(i) => if 0 <= i < |w.funcs| then Eval(w, n - 1, env, Resolve(w, w.funcs[i])) else Error
    case MkOpt(e1) =>
      (match Eval(w, n - 1, env, e1)
       case Val(v) => Val(Opt(v))
       case r => r)
    case Inject(tag, e1) =>
      (match Eval(w, n - 1, env, e1)
       case Val(v) => Val(Tagged(tag, v))
       case r => r)
    case Ffi(f, args) =>
      (match EvalArgs(w, n - 1, env, args)
       case Vals(vs) => Val(w.call(f, vs))
       case ListError => Error
       case ListTimeout => Timeout)
    case Lam(body) => Val(Closure(env, body))
    case App(f, x) =>
      (match Eval(w, n - 1, env, f)
       case Val(vf) =>
         (match Eval(w, n - 1, env, x)
          case Val(vx) => Apply(w, n - 1, vf, vx)
          case r => r)
       case r => r)
    case Record(fields) =>
      if fields.Nil? then Error else
      (match EvalFields(w, n - 1, env, fields)
       case Fields(fs) => Val(Rec(fs))
       case RecError => Error
       case RecTimeout => Timeout)
    case Proj(r, field) =>
      (match Eval(w, n - 1, env, r)
       case Val(v) => Field(v, field)
       case o => o)
    case Then(e1, e2) =>
      (match Eval(w, n - 1, env, e1)
       case Val(_) => Eval(w, n - 1, env, e2)
       case r => r)
    case Let(e1, e2) =>
      (match Eval(w, n - 1, env, e1)
       case Val(v) => Eval(w, n - 1, Cons(v, env), e2)
       case r => r)
    case Match(e1, branches) =>
      (match Eval(w, n - 1, env, e1)
       case Val(v) =>
         (match Choose(w, env, branches, v)
          case Chosen(env', body) => Eval(w, n - 1, env', body)
          case NoBranch => Error)
       case r => r)
    case Text(_) => Error
  }

  function Apply(w: World, n: nat, vf: Value, vx: Value): Outcome
    decreases n
  {
    if n == 0 then Timeout else
    match vf
    case Closure(cenv, body) => Eval(w, n - 1, Cons(vx, cenv), body)
    case Native(id) => Val(w.call(id, [vx]))
    case _ => Error
  }

  function EvalArgs(w: World, n: nat, env: Env, args: List<Exp>): ListOutcome
    decreases n
  {
    if n == 0 then ListTimeout else
    match args
    case Nil => Vals([])
    case Cons(e, rest) =>
      match Eval(w, n - 1, env, e)
      case Error => ListError
      case Timeout => ListTimeout
      case Val(v) =>
        match EvalArgs(w, n - 1, env, rest)
        case Vals(vs) => Vals([v] + vs)
        case r => r
  }

  function EvalFields(w: World, n: nat, env: Env, fields: List<FieldExp>): RecOutcome
    decreases n
  {
    if n == 0 then RecTimeout else
    match fields
    case Nil => Fields(map[])
    case Cons(f, rest) =>
      match Eval(w, n - 1, env, f.e)
      case Error => RecError
      case Timeout => RecTimeout
      case Val(v) =>
        match EvalFields(w, n - 1, env, rest)
        case Fields(fs) => Fields(map[f.name := v] + fs)
        case r => r
  }

  // ---------------------------------------------------------------- the machine

  datatype Config = Config(env: Env, stack: Stack, e: Exp)

  datatype StepResult = Next(c: Config) | Done(v: Value) | Fail

  function ToResult(env: Env, stack: Stack, o: Outcome): StepResult {
    if o.Val? then Next(Config(env, stack, Const(o.v))) else Fail
  }

  /** `saveEnv`: replace the top frame by a restore frame, except in tail position. */
  function SaveEnv(env: Env, stack: Stack): Stack
    requires stack.Cons?
  {
    if stack.tail.Cons? && !stack.tail.head.FRestore?
    then Cons(FRestore(env), stack.tail)
    else stack.tail
  }

  /** A value reaching the frame on top of the stack. */
  function Return(w: World, env: Env, stack: Stack, v: Value): StepResult {
    match stack
    case Nil => Done(v)
    case Cons(fr, rest) =>
      match fr
      case FOpt => Next(Config(env, rest, Const(Opt(v))))
      case FInject(tag) => Next(Config(env, rest, Const(Tagged(tag, v))))
      case FFfi(f, args, todo) =>
        (match todo
         case Nil => Next(Config(env, rest, Const(w.call(f, args + [v]))))
         case Cons(a, more) => Next(Config(env, Cons(FFfi(f, args + [v], more), rest), a)))
      case FFun(x) => Next(Config(env, Cons(FArg(v), rest), x))
      case FArg(vf) =>
        (match vf
         case Closure(cenv, body) => Next(Config(Cons(v, cenv), SaveEnv(env, stack), body))
         case Native(id) => Next(Config(env, rest, Const(w.call(id, [v]))))
         case _ => Fail)
      case FRestore(saved) => Next(Config(saved, rest, Const(v)))
      case FRecord(name, fs, todo) =>
        (match todo
         case Nil => Next(Config(env, rest, Const(Rec(fs[name := v]))))
         case Cons(f, more) => Next(Config(env, Cons(FRecord(f.name, fs[name := v], more), rest), f.e)))
      case FProj(field) => ToResult(env, rest, Field(v, field))
      case FThen(e2) => Next(Config(env, rest, e2))
      case FLet(e2) => Next(Config(Cons(v, env), SaveEnv(env, stack), e2))
      case FMatch(branches) =>
        match Choose(w, env, branches, v)
        case Chosen(env', body) => Next(Config(env', SaveEnv(env, stack), body))
        case NoBranch => Fail
  }

  /** One turn of the interpreter's loop. */
  function Step(w: World, c: Config): StepResult {
    var Config(env, stack, e) := c;
    match e
    case Const(v) => Return(w, env, stack, v)
    case Var(i) => ToResult(env, stack, Lookup(env, i))
    case Named(i) => if 0 <= i < |w.funcs| then Next(Config(env, stack, Resolve(w, w.funcs[i]))) else Fail
    case MkOpt(e1) => Next(Config(env, Cons(FOpt, stack), e1))
    case Inject(tag, e1) => Next(Config(env, Cons(FInject(tag), stack), e1))
    case Ffi(f, args) =>
      (match args
       case Nil => Next(Config(env, stack, Const(w.call(f, []))))
       case Cons(a, more) => Next(Config(env, Cons(FFfi(f, [], more), stack), a)))
    case Lam(body) => Next(Config(env, stack, Const(Closure(env, body))))
    case App(f, x) => Next(Config(env, Cons(FFun(x), stack), f))
    case Record(fields) =>
      (match fields
       case Nil => Fail
       case Cons(f, more) => Next(Config(env, Cons(FRecord(f.name, map[], more), stack), f.e)))
    case Proj(r, field) => Next(Config(env, Cons(FProj(field), stack), r))
    case Then(e1, e2) => Next(Config(env, Cons(FThen(e2), stack), e1))
    case Let(e1, e2) => Next(Config(env, Cons(FLet(e2), stack), e1))
    case Match(e1, branches) => Next(Config(env, Cons(FMatch(branches), stack), e1))
    case Text(_) => Fail
  }

  /** The run cut off after `k` turns. */
  function Run(w: World, k: nat, c: Config): Outcome {
    if k == 0 then Timeout else
    match Step(w, c)
    case Next(c') => Run(w, k - 1, c')
    case Done(v) => Val(v)
    case Fail => Error
  }

  /** `c` becomes `d` after exactly `k` turns. */
  predicate Reaches(w: World, k: nat, c: Config, d: Config) {
    if k == 0 then c == d else Step(w, c).Next? && Reaches(w, k - 1, Step(w, c).c, d)
  }

  /** Whether a computation entered with this stack hands back the environment it was given. */
  predicate KeepsEnv(stack: Stack) {
    stack.Cons? && !stack.head.FRestore?
  }

  predicate Returned(env: Env, env': Env, stack: Stack) {
    KeepsEnv(stack) ==> env' == env
  }

  // ---------------------------------------------------------------- runs compose

  lemma {:induction false} ReachesTrans(w: World, j: nat, k: nat, a: Config, b: Config, c: Config)
    requires Reaches(w, j, a, b) && Reaches(w, k, b, c)
    ensures Reaches(w, j + k, a, c)
    decreases j
  {
    if j > 0 {
      ReachesTrans(w, j - 1, k, Step(w, a).c, b, c);
    }
  }

  lemma {:induction false} RunAfter(w: World, j: nat, k: nat, a: Config, b: Config)
    requires Reaches(w, j, a, b)
    ensures Run(w, j + k, a) == Run(w, k, b)
    decreases j
  {
    if j > 0 {
      RunAfter(w, j - 1, k, Step(w, a).c, b);
    }
  }

  /** A run that halts within `k` turns cannot reach anything at turn `k` or later. */
  lemma {:induction false} HaltsAfter(w: World, j: nat, k: nat, a: Config, b: Config)
    requires Reaches(w, j, a, b) && Run(w, k, a) != Timeout
    ensures j < k && Run(w, k - j, b) == Run(w, k, a)
    decreases j
  {
    if j > 0 {
      HaltsAfter(w, j - 1, k - 1, Step(w, a).c, b);
    }
  }

  lemma {:induction false} RunMonotone(w: World, k: nat, m: nat, c: Config)
    requires k <= m && Run(w, k, c) != Timeout
    ensures Run(w, m, c) == Run(w, k, c)
    decreases k
  {
    if Step(w, c).Next? {
      RunMonotone(w, k - 1, m - 1, Step(w, c).c);
    }
  }

  // ---------------------------------------------------------------- the machine follows the evaluator

  /** Where the machine gets to from `c`, given what the evaluator says. */
  predicate Follows(w: World, c: Config, o: Outcome, j: nat, env': Env) {
    && (o.Val? ==> Reaches(w, j, c, Config(env', c.stack, Const(o.v))) && Returned(c.env, env', c.stack))
    && (o.Error? ==> Run(w, j, c) == Error)
  }

  /** Prefixing `i` turns to a run keeps what it leads to. */
  lemma Prefix(w: World, i: nat, a: Config, b: Config, o: Outcome, j: nat, env': Env)
    requires Reaches(w, i, a, b) && Follows(w, b, o, j, env')
    requires a.stack == b.stack && a.env == b.env
    ensures Follows(w, a, o, i + j, env')
  {
    if o.Val? {
      ReachesTrans(w, i, j, a, b, Config(env', b.stack, Const(o.v)));
    } else {
      RunAfter(w, i, j, a, b);
    }
  }

  /** Evaluating a subexpression under a fresh frame, from the configuration that pushes it. */
  lemma Under(w: World, n: nat, a: Config, fr: Frame, e: Exp) returns (j: nat)
    requires !fr.FRestore?
    requires Step(w, a) == Next(Config(a.env, Cons(fr, a.stack), e))
    requires Eval(w, n, a.env, e) != Timeout
    ensures Eval(w, n, a.env, e).Val? ==>
              Reaches(w, j, a, Config(a.env, Cons(fr, a.stack), Const(Eval(w, n, a.env, e).v)))
    ensures Eval(w, n, a.env, e).Error? ==> Run(w, j, a) == Error
    decreases n, 1
  {
    var env';
    j, env' := Forward(w, n, Config(a.env, Cons(fr, a.stack), e));
    j := j + 1;
  }

  /** A body entered through `saveEnv`. */
  lemma Tail(w: World, n: nat, a: Config, v: Value, env1: Env, body: Exp) returns (j: nat, env': Env)
    requires a.e == Const(v) && a.stack.Cons? && !a.stack.head.FRestore?
    requires Step(w, a) == Next(Config(env1, SaveEnv(a.env, a.stack), body))
    requires Eval(w, n, env1, body) != Timeout
    ensures Eval(w, n, env1, body).Val? ==>
              && Reaches(w, j, a, Config(env', a.stack.tail, Const(Eval(w, n, env1, body).v)))
              && Returned(a.env, env', a.stack.tail)
    ensures Eval(w, n, env1, body).Error? ==> Run(w, j, a) == Error
    decreases n, 1
  {
    var o := Eval(w, n, env1, body);
    var b := Config(env1, SaveEnv(a.env, a.stack), body);
    j, env' := Forward(w, n, b);
    if o.Val? && KeepsEnv(a.stack.tail) {
      var d := Config(env', b.stack, Const(o.v));
      assert Reaches(w, 1, d, Config(a.env, a.stack.tail, Const(o.v))) by {
        assert Step(w, d) == Next(Config(a.env, a.stack.tail, Const(o.v)));
      }
      ReachesTrans(w, j, 1, b, d, Config(a.env, a.stack.tail, Const(o.v)));
      j, env' := j + 1, a.env;
    }
    j := j + 1;
  }

  /** Whatever the evaluator answers, the machine gets there on top of any stack. */
  lemma {:induction false} Forward(w: World, n: nat, c: Config) returns (j: nat, env': Env)
    requires Eval(w, n, c.env, c.e) != Timeout
    ensures Follows(w, c, Eval(w, n, c.env, c.e), j, env')
    decreases n, 0
  {
    var Config(env, stack, e) := c;
    match e {
      case Const(v) => j, env' := 0, env;
      case Var(i) => j, env' := 1, env;
      case Named(i) =>
        env' := env;
        j := 1;
        if 0 <= i < |w.funcs| {
          j, env' := Forward(w, n - 1, Step(w, c).c);
          j := j + 1;
        }
      case MkOpt(e1) => j, env' := ForwardUnary(w, n, c, FOpt, e1);
      case Inject(tag, e1) => j, env' := ForwardUnary(w, n, c, FInject(tag), e1);
      case Proj(r, field) => j, env' := ForwardUnary(w, n, c, FProj(field), r);
      case Lam(body) => j, env' := 1, env;
      case Text(_) => j, env' := 1, env;
      case Ffi(f, args) => j, env' := ForwardFfi(w, n, c);
      case App(f, x) => j, env' := ForwardApp(w, n, c);
      case Record(fields) => j, env' := ForwardRecord(w, n, c);
      case Then(e1, e2) => j, env' := ForwardThen(w, n, c);
      case Let(e1, e2) => j, env' := ForwardLet(w, n, c);
      case Match(e1, branches) => j, env' := ForwardMatch(w, n, c);
    }
  }

  /** Frames whose return step answers at once. */
  lemma ForwardUnary(w: World, n: nat, c: Config, fr: Frame, e1: Exp) returns (j: nat, env': Env)
    requires n > 0 && Eval(w, n, c.env, c.e) != Timeout
    requires || (c.e == MkOpt(e1) && fr == FOpt)
             || (c.e.Inject? && c.e == Inject(c.e.tag, e1) && fr == FInject(c.e.tag))
             || (c.e.Proj? && c.e == Proj(e1, c.e.field) && fr == FProj(c.e.field))
    ensures Follows(w, c, Eval(w, n, c.env, c.e), j, env')
    decreases n - 1, 2
  {
    env' := c.env;
    j := Under(w, n - 1, c, fr, e1);
    var o := Eval(w, n - 1, c.env, e1);
    if o.Val? {
      var d := Config(c.env, Cons(fr, c.stack), Const(o.v));
      var r := Step(w, d);
      RunAfter(w, j, 1, c, d);
      if r.Next? {
        assert Reaches(w, 1, d, r.c);
        ReachesTrans(w, j, 1, c, d, r.c);
      }
      j := j + 1;
    }
  }

  /** Extend a run that has reached `d` by one that starts there. */
  lemma Chain(w: World, i: nat, a: Config, d: Config, o: Outcome, j: nat, t: Config)
    requires Reaches(w, i, a, d)
    requires (o.Val? ==> Reaches(w, j, d, t)) && (o.Error? ==> Run(w, j, d) == Error)
    ensures (o.Val? ==> Reaches(w, i + j, a, t)) && (o.Error? ==> Run(w, i + j, a) == Error)
  {
    if o.Val? {
      ReachesTrans(w, i, j, a, d, t);
    }
    RunAfter(w, i, j, a, d);
  }

  lemma ForwardThen(w: World, n: nat, c: Config) returns (j: nat, env': Env)
    requires n > 0 && c.e.Then? && Eval(w, n, c.env, c.e) != Timeout
    ensures Follows(w, c, Eval(w, n, c.env, c.e), j, env')
    decreases n - 1, 2
  {
    env' := c.env;
    j := Under(w, n - 1, c, FThen(c.e.e2), c.e.e1);
    var o := Eval(w, n - 1, c.env, c.e.e1);
    if o.Val? {
      var d := Config(c.env, Cons(FThen(c.e.e2), c.stack), Const(o.v));
      var b := Config(c.env, c.stack, c.e.e2);
      assert Reaches(w, 1, d, b);
      ReachesTrans(w, j, 1, c, d, b);
      var j2;
      j2, env' := Forward(w, n - 1, b);
      Prefix(w, j + 1, c, b, Eval(w, n - 1, c.env, c.e.e2), j2, env');
      j := j + 1 + j2;
    }
  }

  lemma ForwardLet(w: World, n: nat, c: Config) returns (j: nat, env': Env)
    requires n > 0 && c.e.Let? && Eval(w, n, c.env, c.e) != Timeout
    ensures Follows(w, c, Eval(w, n, c.env, c.e), j, env')
    decreases n - 1, 2
  {
    env' := c.env;
    j := Under(w, n - 1, c, FLet(c.e.e2), c.e.e1);
    var o := Eval(w, n - 1, c.env, c.e.e1);
    if o.Val? {
      var d := Config(c.env, Cons(FLet(c.e.e2), c.stack), Const(o.v));
      var j2;
      j2, env' := Tail(w, n - 1, d, o.v, Cons(o.v, c.env), c.e.e2);
      var o2 := Eval(w, n - 1, Cons(o.v, c.env), c.e.e2);
      Chain(w, j, c, d, o2, j2, Config(env', c.stack, Const(if o2.Val? then o2.v else o.v)));
      j := j + j2;
    }
  }

  lemma ForwardMatch(w: World, n: nat, c: Config) returns (j: nat, env': Env)
    requires n > 0 && c.e.Match? && Eval(w, n, c.env, c.e) != Timeout
    ensures Follows(w, c, Eval(w, n, c.env, c.e), j, env')
    decreases n - 1, 2
  {
    env' := c.env;
    j := Under(w, n - 1, c, FMatch(c.e.branches), c.e.e);
    var o := Eval(w, n - 1, c.env, c.e.e);
    if o.Val? {
      var d := Config(c.env, Cons(FMatch(c.e.branches), c.stack), Const(o.v));
      match Choose(w, c.env, c.e.branches, o.v) {
        case NoBranch =>
          RunAfter(w, j, 1, c, d);
          j := j + 1;
        case Chosen(benv, body) =>
          var j2;
          j2, env' := Tail(w, n - 1, d, o.v, benv, body);
          var o2 := Eval(w, n - 1, benv, body);
          Chain(w, j, c, d, o2, j2, Config(env', c.stack, Const(if o2.Val? then o2.v else o.v)));
          j := j + j2;
      }
    }
  }

  lemma ForwardApp(w: World, n: nat, c: Config) returns (j: nat, env': Env)
    requires n > 0 && c.e.App? && Eval(w, n, c.env, c.e) != Timeout
    ensures Follows(w, c, Eval(w, n, c.env, c.e), j, env')
    decreases n - 1, 2
  {
    env' := c.env;
    j := Under(w, n - 1, c, FFun(c.e.x), c.e.fn);
    var of := Eval(w, n - 1, c.env, c.e.fn);
    if of.Val? {
      var d := Config(c.env, Cons(FFun(c.e.x), c.stack), Const(of.v));
      var b := Config(c.env, Cons(FArg(of.v), c.stack), c.e.x);
      assert Reaches(w, 1, d, b);
      ReachesTrans(w, j, 1, c, d, b);
      var ox := Eval(w, n - 1, c.env, c.e.x);
      var j1, _ := Forward(w, n - 1, b);
      var g := Config(c.env, b.stack, Const(if ox.Val? then ox.v else of.v));
      Chain(w, j + 1, c, b, ox, j1, g);
      j := j + 1 + j1;
      if ox.Val? {
        var j2;
        j2, env' := ForwardApply(w, n - 1, g, of.v, ox.v);
        var o := Apply(w, n - 1, of.v, ox.v);
        Chain(w, j, c, g, o, j2, Config(env', c.stack, Const(if o.Val? then o.v else ox.v)));
        j := j + j2;
      }
    }
  }

  lemma ForwardApply(w: World, n: nat, g: Config, vf: Value, vx: Value) returns (j: nat, env': Env)
    requires g.stack.Cons? && g.stack.head == FArg(vf) && g.e == Const(vx)
    requires Apply(w, n, vf, vx) != Timeout
    ensures var o := Apply(w, n, vf, vx);
            && (o.Val? ==> Reaches(w, j, g, Config(env', g.stack.tail, Const(o.v)))
                           && Returned(g.env, env', g.stack.tail))
            && (o.Error? ==> Run(w, j, g) == Error)
    decreases n, 1
  {
    j, env' := 1, g.env;
    if vf.Closure? {
      j, env' := Tail(w, n - 1, g, vx, Cons(vx, vf.env), vf.body);
    }
  }

  lemma ForwardFfi(w: World, n: nat, c: Config) returns (j: nat, env': Env)
    requires n > 0 && c.e.Ffi? && Eval(w, n, c.env, c.e) != Timeout
    ensures Follows(w, c, Eval(w, n, c.env, c.e), j, env')
    decreases n - 1, 2
  {
    env' := c.env;
    j := 0;
    if c.e.args.Cons? {
      j := ForwardArgs(w, n - 1, Step(w, c).c, c.stack, c.e.f, [], c.e.args);
      var o := EvalArgs(w, n - 1, c.env, c.e.args);
      assert o.Vals? ==> [] + o.vs == o.vs;
    }
    j := j + 1;
  }

  /** The argument loop of a native call, from the point where `done` has been computed. */
  lemma {:induction false} ForwardArgs(w: World, n: nat, b: Config, stack: Stack, f: int,
                                       done: seq<Value>, args: List<Exp>) returns (j: nat)
    requires args.Cons? && EvalArgs(w, n, b.env, args) != ListTimeout
    requires b == Config(b.env, Cons(FFfi(f, done, args.tail), stack), args.head)
    ensures var o := EvalArgs(w, n, b.env, args);
            && (o.Vals? ==> Reaches(w, j, b, Config(b.env, stack, Const(w.call(f, done + o.vs)))))
            && (o.ListError? ==> Run(w, j, b) == Error)
    decreases n, 1
  {
    var j0, _ := Forward(w, n - 1, b);
    j := j0;
    var o := Eval(w, n - 1, b.env, args.head);
    if o.Val? {
      var d := Config(b.env, b.stack, Const(o.v));
      var b' := Step(w, d).c;
      assert Reaches(w, 1, d, b');
      ReachesTrans(w, j, 1, b, d, b');
      j := j + 1;
      var ol := EvalArgs(w, n - 1, b.env, args.tail);
      if args.tail.Cons? {
        var j2 := ForwardArgs(w, n - 1, b', stack, f, done + [o.v], args.tail);
        if ol.Vals? {
          assert done + ([o.v] + ol.vs) == done + [o.v] + ol.vs;
        }
        var t := Config(b.env, stack, Const(if ol.Vals? then w.call(f, done + [o.v] + ol.vs) else o.v));
        Chain(w, j, b, b', if ol.Vals? then o else Error, j2, t);
        j := j + j2;
      } else {
        assert done + ([o.v] + []) == done + [o.v];
      }
    }
  }

  lemma ForwardRecord(w: World, n: nat, c: Config) returns (j: nat, env': Env)
    requires n > 0 && c.e.Record? && Eval(w, n, c.env, c.e) != Timeout
    ensures Follows(w, c, Eval(w, n, c.env, c.e), j, env')
    decreases n - 1, 2
  {
    env' := c.env;
    j := 0;
    if c.e.fields.Cons? {
      j := ForwardFields(w, n - 1, Step(w, c).c, c.stack, map[], c.e.fields);
      var o := EvalFields(w, n - 1, c.env, c.e.fields);
      assert o.Fields? ==> map[] + o.fs == o.fs;
    }
    j := j + 1;
  }

  /** The field loop of a record, from the point where `done` has been computed. */
  lemma {:induction false} ForwardFields(w: World, n: nat, b: Config, stack: Stack,
                                         done: map<string, Value>, fields: List<FieldExp>) returns (j: nat)
    requires fields.Cons? && EvalFields(w, n, b.env, fields) != RecTimeout
    requires b == Config(b.env, Cons(FRecord(fields.head.name, done, fields.tail), stack), fields.head.e)
    ensures var o := EvalFields(w, n, b.env, fields);
            && (o.Fields? ==> Reaches(w, j, b, Config(b.env, stack, Const(Rec(done + o.fs)))))
            && (o.RecError? ==> Run(w, j, b) == Error)
    decreases n, 1
  {
    var j0, _ := Forward(w, n - 1, b);
    j := j0;
    var o := Eval(w, n - 1, b.env, fields.head.e);
    if o.Val? {
      var d := Config(b.env, b.stack, Const(o.v));
      var b' := Step(w, d).c;
      var done' := done[fields.head.name := o.v];
      assert Reaches(w, 1, d, b');
      ReachesTrans(w, j, 1, b, d, b');
      j := j + 1;
      var ol := EvalFields(w, n - 1, b.env, fields.tail);
      if fields.tail.Cons? {
        var j2 := ForwardFields(w, n - 1, b', stack, done', fields.tail);
        if ol.Fields? {
          assert done + (map[fields.head.name := o.v] + ol.fs) == done' + ol.fs;
        }
        var t := Config(b.env, stack, Const(if ol.Fields? then Rec(done' + ol.fs) else o.v));
        Chain(w, j, b, b', if ol.Fields? then o else Error, j2, t);
        j := j + j2;
      } else {
        assert done + (map[fields.head.name := o.v] + map[]) == done';
      }
    }
  }

  // ---------------------------------------------------------------- the evaluator follows the machine

  lemma {:induction false} EvalMonotone(w: World, n: nat, m: nat, env: Env, e: Exp)
    requires n <= m && Eval(w, n, env, e) != Timeout
    ensures Eval(w, m, env, e) == Eval(w, n, env, e)
    decreases n
  {
    match e {
      case Named(i) => if 0 <= i < |w.funcs| { EvalMonotone(w, n - 1, m - 1, env, Resolve(w, w.funcs[i])); }
      case MkOpt(e1) => EvalMonotone(w, n - 1, m - 1, env, e1);
      case Inject(_, e1) => EvalMonotone(w, n - 1, m - 1, env, e1);
      case Ffi(f, args) => ArgsMonotone(w, n - 1, m - 1, env, args);
      case App(f, x) =>
        EvalMonotone(w, n - 1, m - 1, env, f);
        if Eval(w, n - 1, env, f).Val? {
          EvalMonotone(w, n - 1, m - 1, env, x);
          if Eval(w, n - 1, env, x).Val? {
            ApplyMonotone(w, n - 1, m - 1, Eval(w, n - 1, env, f).v, Eval(w, n - 1, env, x).v);
          }
        }
      case Record(fields) => if fields.Cons? { FieldsMonotone(w, n - 1, m - 1, env, fields); }
      case Proj(r, _) => EvalMonotone(w, n - 1, m - 1, env, r);
      case Then(e1, e2) =>
        EvalMonotone(w, n - 1, m - 1, env, e1);
        if Eval(w, n - 1, env, e1).Val? { EvalMonotone(w, n - 1, m - 1, env, e2); }
      case Let(e1, e2) =>
        EvalMonotone(w, n - 1, m - 1, env, e1);
        var o := Eval(w, n - 1, env, e1);
        if o.Val? { EvalMonotone(w, n - 1, m - 1, Cons(o.v, env), e2); }
      case Match(e1, branches) =>
        EvalMonotone(w, n - 1, m - 1, env, e1);
        var o := Eval(w, n - 1, env, e1);
        if o.Val? && Choose(w, env, branches, o.v).Chosen? {
          EvalMonotone(w, n - 1, m - 1, Choose(w, env, branches, o.v).env, Choose(w, env, branches, o.v).body);
        }
      case _ =>
    }
  }

  lemma ApplyMonotone(w: World, n: nat, m: nat, vf: Value, vx: Value)
    requires n <= m && Apply(w, n, vf, vx) != Timeout
    ensures Apply(w, m, vf, vx) == Apply(w, n, vf, vx)
    decreases n
  {
    if vf.Closure? {
      EvalMonotone(w, n - 1, m - 1, Cons(vx, vf.env), vf.body);
    }
  }

  lemma {:induction false} ArgsMonotone(w: World, n: nat, m: nat, env: Env, args: List<Exp>)
    requires n <= m && EvalArgs(w, n, env, args) != ListTimeout
    ensures EvalArgs(w, m, env, args) == EvalArgs(w, n, env, args)
    decreases n
  {
    if args.Cons? {
      EvalMonotone(w, n - 1, m - 1, env, args.head);
      if Eval(w, n - 1, env, args.head).Val? {
        ArgsMonotone(w, n - 1, m - 1, env, args.tail);
      }
    }
  }

  lemma {:induction false} FieldsMonotone(w: World, n: nat, m: nat, env: Env, fields: List<FieldExp>)
    requires n <= m && EvalFields(w, n, env, fields) != RecTimeout
    ensures EvalFields(w, m, env, fields) == EvalFields(w, n, env, fields)
    decreases n
  {
    if fields.Cons? {
      EvalMonotone(w, n - 1, m - 1, env, fields.head.e);
      if Eval(w, n - 1, env, fields.head.e).Val? {
        FieldsMonotone(w, n - 1, m - 1, env, fields.tail);
      }
    }
  }

  /** The subexpression a configuration enters under a fresh frame is evaluated, and the rest of
      the run, from the configuration `d` where its value comes back, is what is left over. */
  lemma Enter(w: World, k: nat, b: Config) returns (o: Outcome, d: Config, k': nat)
    requires KeepsEnv(b.stack) && Run(w, k, b) != Timeout
    ensures o == Eval(w, 2 * k, b.env, b.e) && o != Timeout
    ensures o.Val? ==> d == Config(b.env, b.stack, Const(o.v)) && k' <= k && Run(w, k', d) != Timeout
    decreases k, 1
  {
    Backward(w, k, b);
    o := Eval(w, 2 * k, b.env, b.e);
    d, k' := b, 0;
    if o.Val? {
      d := Config(b.env, b.stack, Const(o.v));
      var j, _ := Forward(w, 2 * k, b);
      HaltsAfter(w, j, k, b, d);
      k' := k - j;
    }
  }

  /** A run that halts within `k` turns is one the evaluator finishes within `2 * k` calls. */
  lemma {:induction false} Backward(w: World, k: nat, c: Config)
    requires Run(w, k, c) != Timeout
    ensures Eval(w, 2 * k, c.env, c.e) != Timeout
    decreases k, 0
  {
    var Config(env, stack, e) := c;
    if Step(w, c).Next? {
      var b := Step(w, c).c;
      match e {
        case Named(i) =>
          Backward(w, k - 1, b);
          EvalMonotone(w, 2 * k - 2, 2 * k - 1, env, b.e);
        case Ffi(f, args) => if args.Cons? { BackwardArgs(w, k - 1, b, args); }
        case App(f, x) => BackwardApp(w, k, c);
        case Record(fields) => BackwardFields(w, k - 1, b, fields);
        case Const(v) =>
        case Var(i) =>
        case Lam(_) =>
        case Text(_) =>
        case MkOpt(_) | Inject(_, _) | Proj(_, _) =>
          Backward(w, k - 1, b);
          EvalMonotone(w, 2 * k - 2, 2 * k - 1, env, b.e);
        case Then(_, _) | Let(_, _) | Match(_, _) => BackwardTwo(w, k, c);
      }
    }
  }

  /** A sequence, a binding or a match: first the one expression, then the other. */
  lemma BackwardTwo(w: World, k: nat, c: Config)
    requires (c.e.Then? || c.e.Let? || c.e.Match?) && k > 0 && Run(w, k, c) != Timeout
    ensures Eval(w, 2 * k, c.env, c.e) != Timeout
    decreases k - 1, 2
  {
    var b := Step(w, c).c;
    var o, d, k' := Enter(w, k - 1, b);
    EvalMonotone(w, 2 * k - 2, 2 * k - 1, c.env, b.e);
    if o.Val? {
      BackwardBody(w, k', d, 2 * k - 1);
    }
    SecondHalf(w, 2 * k, c, o, d);
  }

  lemma SecondHalf(w: World, n: nat, c: Config, o: Outcome, d: Config)
    requires (c.e.Then? || c.e.Let? || c.e.Match?) && n > 0 && o != Timeout
    requires o == Eval(w, n - 1, c.env, Step(w, c).c.e)
    requires o.Val? ==> d == Config(c.env, Step(w, c).c.stack, Const(o.v))
    requires o.Val? && Step(w, d).Next? ==> Eval(w, n - 1, Step(w, d).c.env, Step(w, d).c.e) != Timeout
    ensures Eval(w, n, c.env, c.e) != Timeout
  {
    match c.e
    case Then(_, _) =>
    case Let(_, _) =>
    case Match(_, _) =>
  }

  /** Continuing into the second half of a sequence, binding or match. */
  lemma BackwardBody(w: World, k: nat, d: Config, n: nat)
    requires d.stack.Cons? && (d.stack.head.FThen? || d.stack.head.FLet? || d.stack.head.FMatch?)
    requires d.e.Const? && Run(w, k, d) != Timeout && n >= 2 * k
    ensures Step(w, d).Next? ==> Eval(w, n, Step(w, d).c.env, Step(w, d).c.e) != Timeout
    decreases k, 0
  {
    if Step(w, d).Next? {
      var b := Step(w, d).c;
      Backward(w, k - 1, b);
      EvalMonotone(w, 2 * k - 2, n, b.env, b.e);
    }
  }

  lemma BackwardApp(w: World, k: nat, c: Config)
    requires c.e.App? && Run(w, k, c) != Timeout && k > 0
    ensures Eval(w, 2 * k, c.env, c.e) != Timeout
    decreases k - 1, 2
  {
    var of, d, k1 := Enter(w, k - 1, Step(w, c).c);
    EvalMonotone(w, 2 * k - 2, 2 * k - 1, c.env, c.e.fn);
    if of.Val? {
      var b := Step(w, d).c;
      var ox, g, k2 := Enter(w, k1 - 1, b);
      EvalMonotone(w, 2 * k1 - 2, 2 * k - 1, c.env, c.e.x);
      if ox.Val? && of.v.Closure? {
        var body := Step(w, g).c;
        Backward(w, k2 - 1, body);
        EvalMonotone(w, 2 * k2 - 2, 2 * k - 2, body.env, body.e);
      }
    }
  }

  lemma {:induction false} BackwardArgs(w: World, k: nat, b: Config, args: List<Exp>)
    requires args.Cons? && Run(w, k, b) != Timeout
    requires b.stack.Cons? && b.stack.head.FFfi? && b.stack.head.todo == args.tail && b.e == args.head
    ensures EvalArgs(w, 2 * k + 1, b.env, args) != ListTimeout
    decreases k, 2
  {
    var o, d, k' := Enter(w, k, b);
    if o.Val? && args.tail.Cons? {
      BackwardArgs(w, k' - 1, Step(w, d).c, args.tail);
      ArgsMonotone(w, 2 * k' - 1, 2 * k, b.env, args.tail);
    }
  }

  lemma {:induction false} BackwardFields(w: World, k: nat, b: Config, fields: List<FieldExp>)
    requires fields.Cons? && Run(w, k, b) != Timeout
    requires b.stack.Cons? && b.stack.head.FRecord? && b.stack.head.more == fields.tail && b.e == fields.head.e
    ensures EvalFields(w, 2 * k + 1, b.env, fields) != RecTimeout
    decreases k, 2
  {
    var o, d, k' := Enter(w, k, b);
    if o.Val? && fields.tail.Cons? {
      BackwardFields(w, k' - 1, Step(w, d).c, fields.tail);
      FieldsMonotone(w, 2 * k' - 1, 2 * k, b.env, fields.tail);
    }
  }

  // ---------------------------------------------------------------- agreement

  /** `exec0`: on the empty stack the machine returns a value, or throws, exactly when the
      evaluator does.  So one diverges exactly when the other does. */
  lemma ExecAgrees(w: World, env: Env, e: Exp, o: Outcome)
    requires o != Timeout
    ensures (exists k: nat :: Run(w, k, Config(env, Nil, e)) == o)
       <==> (exists n: nat :: Eval(w, n, env, e) == o)
  {
    var c := Config(env, Nil, e);
    if k: nat :| Run(w, k, c) == o {
      Backward(w, k, c);
      var r := Eval(w, 2 * k, env, e);
      var j, env' := Forward(w, 2 * k, c);
      if r.Val? {
        HaltsAfter(w, j, k, c, Config(env', Nil, Const(r.v)));
      } else {
        RunMonotone(w, j, j + k, c);
        RunMonotone(w, k, j + k, c);
      }
      assert r == o;
    }
    if n: nat :| Eval(w, n, env, e) == o {
      var j, env' := Forward(w, n, c);
      if o.Val? {
        RunAfter(w, j, 1, c, Config(env', Nil, Const(o.v)));
        assert Run(w, j + 1, c) == o;
      }
    }
  }

  /** On any stack: a run from `e` that halts first evaluates `e`, and if that gives a value the
      machine comes back to the very same stack, with the same environment unless the stack is
      empty or topped by a restore frame, and continues from there. */
  lemma ExecOnStack(w: World, c: Config, k: nat) returns (n: nat, j: nat, env': Env)
    requires Run(w, k, c) != Timeout
    ensures Eval(w, n, c.env, c.e) != Timeout
    ensures Follows(w, c, Eval(w, n, c.env, c.e), j, env')
    ensures Eval(w, n, c.env, c.e).Error? ==> Run(w, k, c) == Error
    ensures Eval(w, n, c.env, c.e).Val? ==>
              j < k && Run(w, k - j, Config(env', c.stack, Const(Eval(w, n, c.env, c.e).v))) == Run(w, k, c)
  {
    n := 2 * k;
    Backward(w, k, c);
    j, env' := Forward(w, n, c);
    var o := Eval(w, n, c.env, c.e);
    if o.Val? {
      HaltsAfter(w, j, k, c, Config(env', c.stack, Const(o.v)));
    } else {
      RunMonotone(w, j, j + k, c);
      RunMonotone(w, k, j + k, c);
    }
  }

  // ---------------------------------------------------------------- tail calls

  /** No restore frame sits at the bottom or directly on another one. */
  predicate WellStacked(stack: Stack) {
    match stack
    case Nil => true
    case Cons(fr, rest) => WellStacked(rest) && (fr.FRestore? ==> KeepsEnv(rest))
  }

  function Depth(stack: Stack): nat {
    match stack
    case Nil => 0
    case Cons(_, rest) => 1 + Depth(rest)
  }

  /** The frames that wait for a value, restore frames not counted. */
  function Pending(stack: Stack): nat {
    match stack
    case Nil => 0
    case Cons(fr, rest) => Pending(rest) + if fr.FRestore? then 0 else 1
  }

  lemma {:induction false} RestoreFramesSparse(stack: Stack)
    requires WellStacked(stack)
    ensures Depth(stack) <= 2 * Pending(stack)
    ensures KeepsEnv(stack) ==> Depth(stack) < 2 * Pending(stack)
  {
    if stack.Cons? {
      RestoreFramesSparse(stack.tail);
    }
  }

  lemma StepWellStacked(w: World, c: Config)
    requires WellStacked(c.stack) && Step(w, c).Next?
    ensures WellStacked(Step(w, c).c.stack)
  {
    if c.stack.Cons? {
      assert WellStacked(c.stack.tail);
      assert WellStacked(SaveEnv(c.env, c.stack));
    }
  }

  /** Over every run the stack stays at most twice the number of pending frames, however many
      calls were made in tail position. */
  lemma {:induction false} StackStaysTight(w: World, k: nat, c: Config, d: Config)
    requires WellStacked(c.stack) && Reaches(w, k, c, d)
    ensures WellStacked(d.stack) && Depth(d.stack) <= 2 * Pending(d.stack)
    decreases k
  {
    if k == 0 {
      RestoreFramesSparse(c.stack);
    } else {
      StepWellStacked(w, c);
      StackStaysTight(w, k - 1, Step(w, c).c, d);
    }
  }

  // ---------------------------------------------------------------- the interpreter's loops

  /** `lookup` */
  method LookupLoop(env0: Env, n0: int) returns (r: Outcome)
    ensures r == Lookup(env0, n0)
  {
    var env, n := env0, n0;
    while env != Nil
      invariant Lookup(env, n) == Lookup(env0, n0)
      decreases env
    {
      if n == 0 {
        return Val(env.head);
      }
      n := n - 1;
      env := env.tail;
    }
    return Error;
  }

  /** `execP` */
  method ExecPattern(w: World, env0: Env, p: Pat, v: Value) returns (r: PatResult)
    ensures r == ExecP(w, env0, p, v)
    decreases p
  {
    match p {
      case PVar => r := Bound(Cons(v, env0));
      case PConst(c) => r := if w.looseEq(v, c) then Bound(env0) else Refused;
      case POpt(deref, q) =>
        if v.Null? || v.Undefined? {
          return Refused;
        }
        r := ExecPattern(w, env0, q, if deref then Payload(v).v else v);
      case PTag(tag, q) =>
        if v.Null? || v.Undefined? {
          return Threw;
        }
        if !v.Tagged? || v.tag != tag {
          return Refused;
        }
        r := ExecPattern(w, env0, q, v.arg);
      case PRec(fields) =>
        var env, fs := env0, fields;
        while fs.Cons?
          invariant fs == fields || fs < fields
          invariant ExecFields(w, env, fs, v) == ExecFields(w, env0, fields, v)
          decreases fs
        {
          var x := Field(v, fs.head.name);
          if !x.Val? {
            return Threw;
          }
          var b := ExecPattern(w, env, fs.head.p, x.v);
          if !b.Bound? {
            return b;
          }
          env, fs := b.env, fs.tail;
        }
        r := Bound(env);
    }
  }

  /** The entry a named reference leaves behind: unchanged, or parsed in place. */
  predicate Memoised(w: World, was: Exp, now: Exp) {
    now == was || (was.Text? && now == w.parse(was.src))
  }

  /** `exec1`, cut off after `limit` turns.  Named functions are parsed at their first use and the
      result is stored back into the table. */
  method Exec1(w: World, urfuncs: array<Exp>, env0: Env, stack0: Stack, e0: Exp, limit: nat)
    returns (r: Outcome)
    requires w.funcs == urfuncs[..]
    modifies urfuncs
    ensures r == Run(w, limit, Config(env0, stack0, e0))
    ensures forall i :: 0 <= i < urfuncs.Length ==> Memoised(w, old(urfuncs[i]), urfuncs[i])
    ensures r.Val? ==> forall i :: 0 <= i < urfuncs.Length ==> Resolve(w, urfuncs[i]) == Resolve(w, old(urfuncs[i]))
  {
    var env, stack, e, turns := env0, stack0, e0, limit;
    while turns > 0
      invariant Run(w, turns, Config(env, stack, e)) == Run(w, limit, Config(env0, stack0, e0))
      invariant forall i :: 0 <= i < urfuncs.Length ==> Memoised(w, w.funcs[i], urfuncs[i])
      invariant forall i :: 0 <= i < urfuncs.Length ==>
                  Resolve(w, urfuncs[i]) == Resolve(w, w.funcs[i]) || (urfuncs[i].Text? && e.Text?)
    {
      turns := turns - 1;
      match e {
        case Const(v) =>
          if stack == Nil {
            return Val(v);
          }
          var fr := stack.head;
          match fr {
            case FOpt => stack, e := stack.tail, Const(Opt(v));
            case FInject(tag) => stack, e := stack.tail, Const(Tagged(tag, v));
            case FFfi(f, args, todo) =>
              var args' := args + [v];
              if todo == Nil {
                stack, e := stack.tail, Const(w.call(f, args'));
              } else {
                stack, e := Cons(FFfi(f, args', todo.tail), stack.tail), todo.head;
              }
            case FFun(x) => stack, e := Cons(FArg(v), stack.tail), x;
            case FArg(f) =>
              if f.Closure? {
                stack := SaveEnv(env, stack);
                env, e := Cons(v, f.env), f.body;
              } else if f.Native? {
                stack, e := stack.tail, Const(w.call(f.id, [v]));
              } else {
                return Error;
              }
            case FRestore(saved) => env, stack := saved, stack.tail;
            case FRecord(name, fs, more) =>
              var fs' := fs[name := v];
              if more == Nil {
                stack, e := stack.tail, Const(Rec(fs'));
              } else {
                stack, e := Cons(FRecord(more.head.name, fs', more.tail), stack.tail), more.head.e;
              }
            case FProj(field) =>
              var x := Field(v, field);
              if x.Error? {
                return Error;
              }
              stack, e := stack.tail, Const(x.v);
            case FThen(e2) => stack, e := stack.tail, e2;
            case FLet(e2) =>
              stack := SaveEnv(env, stack);
              env, e := Cons(v, env), e2;
            case FMatch(branches) =>
              var ps, b := branches, Refused;
              while ps.Cons? && b.Refused?
                invariant b.Refused? ==> Choose(w, env, ps, v) == Choose(w, env, branches, v)
                invariant b.Bound? ==> ps.Cons? && Choose(w, env, branches, v) == Chosen(b.env, ps.head.body)
                invariant b.Threw? ==> Choose(w, env, branches, v) == NoBranch
                decreases ps, b.Refused?
                modifies {}
              {
                b := ExecPattern(w, env, ps.head.pat, v);
                if b.Refused? {
                  ps := ps.tail;
                }
              }
              if !b.Bound? {
                return Error;
              }
              stack := SaveEnv(env, stack);
              env, e := b.env, ps.head.body;
          }
        case Var(n) =>
          var x := LookupLoop(env, n);
          if x.Error? {
            return Error;
          }
          e := Const(x.v);
        case Named(idx) =>
          if !(0 <= idx < urfuncs.Length) {
            return Error;
          }
          e := urfuncs[idx];
          assert Memoised(w, w.funcs[idx], e) && Resolve(w, e) == Resolve(w, w.funcs[idx]);
          if e.Text? {
            e := w.parse(e.src);
            urfuncs[idx] := e;
          }
        case MkOpt(e1) => stack, e := Cons(FOpt, stack), e1;
        case Inject(tag, e1) => stack, e := Cons(FInject(tag), stack), e1;
        case Ffi(f, args) =>
          if args == Nil {
            e := Const(w.call(f, []));
          } else {
            stack, e := Cons(FFfi(f, [], args.tail), stack), args.head;
          }
        case Lam(body) => e := Const(Closure(env, body));
        case App(fn, x) => stack, e := Cons(FFun(x), stack), fn;
        case Record(fields) =>
          if fields == Nil {
            return Error;
          }
          stack, e := Cons(FRecord(fields.head.name, map[], fields.tail), stack), fields.head.e;
        case Proj(rec, field) => stack, e := Cons(FProj(field), stack), rec;
        case Then(e1, e2) => stack, e := Cons(FThen(e2), stack), e1;
        case Let(e1, e2) => stack, e := Cons(FLet(e2), stack), e1;
        case Match(e1, branches) => stack, e := Cons(FMatch(branches), stack), e1;
        case Text(_) => return Error;
      }
    }
    return Timeout;
  }
}
