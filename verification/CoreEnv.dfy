/** De Bruijn lifting and substitution on the compiler's core language: constructors inside
    constructors, constructors inside expressions, and expressions inside expressions. */
module CoreEnv {

  datatype Option<T> = None | Some(value: T)

  /** Kinds are carried along untouched by every operation here. */
  datatype Kind = Kind(repr: string)

  datatype Con =
    | TFun(dom: Con, ran: Con)
    | TCFun(x: string, k: Kind, c: Con)
    | TRecord(c: Con)
    | CRel(n: int)
    | CNamed(n: int)
    | CFfi(m: string, s: string)
    | CApp(f: Con, arg: Con)
    | CAbs(x: string, k: Kind, c: Con)
    | CKAbs(x: string, c: Con)
    | CKApp(c: Con, k: Kind)
    | TKFun(x: string, c: Con)
    | CName(s: string)
    | CRecord(k: Kind, xcs: seq<ConField>)
    | CConcat(c1: Con, c2: Con)
    | CMap(k1: Kind, k2: Kind)
    | CUnit
    | CTuple(cs: seq<Con>)
    | CProj(c: Con, i: int)

  datatype ConField = ConField(name: Con, c: Con)

  datatype PatCon =
    | PConVar(n: int)
    | PConFfi(m: string, datatyp: string, params: seq<string>, con: string, arg: Option<Con>)

  datatype Pat =
    | PVar(x: string, t: Con)
    | PPrim(prim: int)
    | PCon(pc: PatCon, args: seq<Con>, po: Option<Pat>)
    | PRecord(xps: seq<FieldPat>)

  datatype FieldPat = FieldPat(x: string, p: Pat, t: Con)

  datatype Exp =
    | EPrim(prim: int)
    | ERel(n: int)
    | ENamed(n: int)
    | ECon(pc: PatCon, args: seq<Con>, eo: Option<Exp>)
    | EFfi(m: string, x: string)
    | EFfiApp(m: string, x: string, ets: seq<Typed>)
    | EApp(e1: Exp, e2: Exp)
    | EAbs(x: string, dom: Con, ran: Con, e: Exp)
    | ECApp(e: Exp, c: Con)
    | ECAbs(x: string, k: Kind, e: Exp)
    | EKAbs(x: string, e: Exp)
    | EKApp(e: Exp, k: Kind)
    | ERecord(xes: seq<FieldExp>)
    | EField(e: Exp, c: Con, field: Con, rest: Con)
    | EConcat(e1: Exp, c1: Con, e2: Exp, c2: Con)
    | ECut(e: Exp, c: Con, field: Con, rest: Con)
    | ECutMulti(e: Exp, c: Con, rest: Con)
    | ECase(e: Exp, pes: seq<Branch>, disc: Con, result: Con)
    | EWrite(e: Exp)
    | EClosure(named: int, es: seq<Exp>)
    | ELet(x: string, t: Con, e1: Exp, e2: Exp)
    | EServerCall(named: int, es: seq<Exp>, t: Con)

  datatype Typed = Typed(e: Exp, t: Con)

  datatype FieldExp = FieldExp(name: Con, e: Exp, t: Con)

  datatype Branch = Branch(p: Pat, e: Exp)

  // ---------------------------------------------------------------- traversal of constructors

  /** What a traversal carries: the arguments `con` and `bind` given to `mapB`, with their context.
      `KeepC` is the traversal that changes nothing. */
  datatype ConOp = LiftC(bound: nat) | SubC(xn: nat, rep: Con) | KeepC

  function ConOpRank(op: ConOp): nat { if op.SubC? then 1 else 0 }

  /** The `con` argument at a variable. */
  function ConAt(op: ConOp, i: int): Con {
    match op
    case LiftC(bound) => if i < bound then CRel(i) else CRel(i + 1)
    case SubC(xn, rep) => if i == xn then rep else if i > xn then CRel(i - 1) else CRel(i)
    case KeepC => CRel(i)
  }

  /** The `bind` argument at a constructor binder. */
  function UnderC(op: ConOp): ConOp
    decreases ConOpRank(op), 0
  {
    match op
    case LiftC(bound) => LiftC(bound + 1)
    case SubC(xn, rep) => SubC(xn + 1, MapCon(LiftC(0), rep))
    case KeepC => KeepC
  }

  /** `mapB` on constructors. */
  function MapCon(op: ConOp, c: Con): Con
    decreases ConOpRank(op), 1, c
  {
    match c
    case TFun(dom, ran) => TFun(MapCon(op, dom), MapCon(op, ran))
    case TCFun(x, k, d) => TCFun(x, k, MapCon(UnderC(op), d))
    case TRecord(d) => TRecord(MapCon(op, d))
    case CRel(i) => ConAt(op, i)
    case CNamed(_) => c
    case CFfi(_, _) => c
    case CApp(f, arg) => CApp(MapCon(op, f), MapCon(op, arg))
    case CAbs(x, k, d) => CAbs(x, k, MapCon(UnderC(op), d))
    case CKAbs(x, d) => CKAbs(x, MapCon(op, d))
    case CKApp(d, k) => CKApp(MapCon(op, d), k)
    case TKFun(x, d) => TKFun(x, MapCon(op, d))
    case CName(_) => c
    case CRecord(k, xcs) => CRecord(k, MapPairs(op, xcs))
    case CConcat(c1, c2) => CConcat(MapCon(op, c1), MapCon(op, c2))
    case CMap(_, _) => c
    case CUnit => c
    case CTuple(cs) => CTuple(MapCons(op, cs))
    case CProj(d, i) => CProj(MapCon(op, d), i)
  }

  function MapCons(op: ConOp, cs: seq<Con>): seq<Con>
    decreases ConOpRank(op), 1, cs
  {
    if cs == [] then [] else [MapCon(op, cs[0])] + MapCons(op, cs[1..])
  }

  function MapPairs(op: ConOp, xcs: seq<ConField>): seq<ConField>
    decreases ConOpRank(op), 1, xcs
  {
    if xcs == [] then []
    else [MapField(op, xcs[0])] + MapPairs(op, xcs[1..])
  }

  function MapField(op: ConOp, f: ConField): ConField
    decreases ConOpRank(op), 1, f
  {
    ConField(MapCon(op, f.name), MapCon(op, f.c))
  }

  function LiftConInCon(bound: nat, c: Con): Con { MapCon(LiftC(bound), c) }

  function SubConInCon(xn: nat, rep: Con, c: Con): Con { MapCon(SubC(xn, rep), c) }

  // ---------------------------------------------------------------- laws of constructors

  /** Each law equates two compositions of traversals; `Lhs` and `Rhs` give them, first one first. */
  datatype ConLaw =
    | CLiftLift(m: nat, n: nat)
    | CSubLift(n: nat, r: Con)
    | CLiftSubBelow(m: nat, n: nat, r: Con)
    | CLiftSubAbove(m: nat, n: nat, r: Con)
    | CSubSub(m: nat, n: nat, r1: Con, r2: Con)
    | CTrivial(op: ConOp)

  predicate ConLawApplies(law: ConLaw) {
    match law
    case CLiftLift(m, n) => n <= m
    case CLiftSubBelow(m, n, _) => n <= m
    case CLiftSubAbove(m, n, _) => m <= n
    case CSubSub(m, n, _, _) => m <= n
    case _ => true
  }

  function CLhs(law: ConLaw): (ConOp, ConOp) {
    match law
    case CLiftLift(m, n) => (LiftC(n), LiftC(m + 1))
    case CSubLift(n, r) => (LiftC(n), SubC(n, r))
    case CLiftSubBelow(m, n, r) => (SubC(m, r), LiftC(n))
    case CLiftSubAbove(m, n, r) => (SubC(m, r), LiftC(n))
    case CSubSub(m, n, r1, r2) => (SubC(m, r1), SubC(n, r2))
    case CTrivial(op) => (op, KeepC)
  }

  function CRhs(law: ConLaw): (ConOp, ConOp) {
    match law
    case CLiftLift(m, n) => (LiftC(m), LiftC(n))
    case CSubLift(n, r) => (KeepC, KeepC)
    case CLiftSubBelow(m, n, r) => (LiftC(n), SubC(m + 1, MapCon(LiftC(n), r)))
    case CLiftSubAbove(m, n, r) => (LiftC(n + 1), SubC(m, MapCon(LiftC(n), r)))
    case CSubSub(m, n, r1, r2) => (SubC(n + 1, MapCon(LiftC(m), r2)), SubC(m, MapCon(SubC(n, r2), r1)))
    case CTrivial(op) => (KeepC, op)
  }

  /** The same law one constructor binder further in. */
  function CUnderLaw(law: ConLaw): ConLaw {
    match law
    case CLiftLift(m, n) => CLiftLift(m + 1, n + 1)
    case CSubLift(n, r) => CSubLift(n + 1, MapCon(LiftC(0), r))
    case CLiftSubBelow(m, n, r) => CLiftSubBelow(m + 1, n + 1, MapCon(LiftC(0), r))
    case CLiftSubAbove(m, n, r) => CLiftSubAbove(m + 1, n + 1, MapCon(LiftC(0), r))
    case CSubSub(m, n, r1, r2) => CSubSub(m + 1, n + 1, MapCon(LiftC(0), r1), MapCon(LiftC(0), r2))
    case CTrivial(op) => CTrivial(UnderC(op))
  }

  function CLawRank(law: ConLaw): nat {
    match law
    case CTrivial(_) => 0
    case CLiftLift(_, _) => 1
    case CSubLift(_, _) => 1
    case CLiftSubBelow(_, _, _) => 2
    case CLiftSubAbove(_, _, _) => 2
    case CSubSub(_, _, _, _) => 3
  }

  lemma {:induction false} KeepCon(c: Con)
    ensures MapCon(KeepC, c) == c
  {
    match c {
      case TFun(dom, ran) => KeepCon(dom); KeepCon(ran);
      case TCFun(_, _, d) => KeepCon(d);
      case TRecord(d) => KeepCon(d);
      case CApp(f, arg) => KeepCon(f); KeepCon(arg);
      case CAbs(_, _, d) => KeepCon(d);
      case CKAbs(_, d) => KeepCon(d);
      case CKApp(d, _) => KeepCon(d);
      case TKFun(_, d) => KeepCon(d);
      case CRecord(_, xcs) => KeepPairs(xcs);
      case CConcat(c1, c2) => KeepCon(c1); KeepCon(c2);
      case CTuple(cs) => KeepCons(cs);
      case CProj(d, _) => KeepCon(d);
      case _ =>
    }
  }

  lemma {:induction false} KeepCons(cs: seq<Con>)
    ensures MapCons(KeepC, cs) == cs
  {
    if cs != [] {
      KeepCon(cs[0]);
      KeepCons(cs[1..]);
    }
  }

  lemma {:induction false} KeepPairs(xcs: seq<ConField>)
    ensures MapPairs(KeepC, xcs) == xcs
  {
    if xcs != [] {
      KeepField(xcs[0]);
      KeepPairs(xcs[1..]);
    }
  }

  lemma {:induction false} KeepField(f: ConField)
    ensures MapField(KeepC, f) == f
  {
    KeepCon(f.name);
    KeepCon(f.c);
  }

  /** Moving a law under a binder moves both of its sides. */
  lemma CUnderOps(law: ConLaw)
    requires ConLawApplies(law)
    ensures ConLawApplies(CUnderLaw(law))
    ensures CLhs(CUnderLaw(law)) == (UnderC(CLhs(law).0), UnderC(CLhs(law).1))
    ensures CRhs(CUnderLaw(law)) == (UnderC(CRhs(law).0), UnderC(CRhs(law).1))
    decreases CLawRank(law), 0
  {
    match law {
      case CLiftSubBelow(m, n, r) => ConLawHolds(CLiftLift(n, 0), r);
      case CLiftSubAbove(m, n, r) => ConLawHolds(CLiftLift(n, 0), r);
      case CSubSub(m, n, r1, r2) =>
        ConLawHolds(CLiftLift(m, 0), r2);
        ConLawHolds(CLiftSubBelow(n, 0, r2), r1);
      case _ =>
    }
  }

  lemma CVarCase(law: ConLaw, i: int)
    requires ConLawApplies(law)
    ensures MapCon(CLhs(law).1, ConAt(CLhs(law).0, i)) == MapCon(CRhs(law).1, ConAt(CRhs(law).0, i))
    decreases CLawRank(law), 0
  {
    match law {
      case CSubSub(m, n, r1, r2) => ConLawHolds(CSubLift(m, MapCon(SubC(n, r2), r1)), r2); KeepCon(r2);
      case CTrivial(op) => KeepCon(ConAt(op, i));
      case _ =>
    }
  }

  /** Both ways round give the same constructor. */
  predicate Agree(l: (ConOp, ConOp), r: (ConOp, ConOp), c: Con) {
    MapCon(l.1, MapCon(l.0, c)) == MapCon(r.1, MapCon(r.0, c))
  }

  predicate ChildrenAgree(l: (ConOp, ConOp), r: (ConOp, ConOp), c: Con) {
    match c
    case TFun(dom, ran) => Agree(l, r, dom) && Agree(l, r, ran)
    case TCFun(_, _, d) => Agree((UnderC(l.0), UnderC(l.1)), (UnderC(r.0), UnderC(r.1)), d)
    case TRecord(d) => Agree(l, r, d)
    case CApp(f, arg) => Agree(l, r, f) && Agree(l, r, arg)
    case CAbs(_, _, d) => Agree((UnderC(l.0), UnderC(l.1)), (UnderC(r.0), UnderC(r.1)), d)
    case CKAbs(_, d) => Agree(l, r, d)
    case CKApp(d, _) => Agree(l, r, d)
    case TKFun(_, d) => Agree(l, r, d)
    case CRecord(_, xcs) => MapPairs(l.1, MapPairs(l.0, xcs)) == MapPairs(r.1, MapPairs(r.0, xcs))
    case CConcat(c1, c2) => Agree(l, r, c1) && Agree(l, r, c2)
    case CTuple(cs) => MapCons(l.1, MapCons(l.0, cs)) == MapCons(r.1, MapCons(r.0, cs))
    case CProj(d, _) => Agree(l, r, d)
    case CRel(_) => Agree(l, r, c)
    case _ => true
  }

  lemma ConCongruence(l: (ConOp, ConOp), r: (ConOp, ConOp), c: Con)
    requires ChildrenAgree(l, r, c)
    ensures Agree(l, r, c)
  {
  }

  lemma {:induction false} ConLawHolds(law: ConLaw, c: Con)
    requires ConLawApplies(law)
    ensures Agree(CLhs(law), CRhs(law), c)
    decreases CLawRank(law), 1, c, 0
  {
    match c {
      case TFun(dom, ran) => ConLawHolds(law, dom); ConLawHolds(law, ran);
      case TCFun(_, _, d) => ConLawUnderBinder(law, d);
      case TRecord(d) => ConLawHolds(law, d);
      case CRel(i) => CVarCase(law, i);
      case CApp(f, arg) => ConLawHolds(law, f); ConLawHolds(law, arg);
      case CAbs(_, _, d) => ConLawUnderBinder(law, d);
      case CKAbs(_, d) => ConLawHolds(law, d);
      case CKApp(d, _) => ConLawHolds(law, d);
      case TKFun(_, d) => ConLawHolds(law, d);
      case CRecord(_, xcs) => ConLawHoldsPairs(law, xcs);
      case CConcat(c1, c2) => ConLawHolds(law, c1); ConLawHolds(law, c2);
      case CTuple(cs) => ConLawHoldsAll(law, cs);
      case CProj(d, _) => ConLawHolds(law, d);
      case _ =>
    }
    ConCongruence(CLhs(law), CRhs(law), c);
  }

  lemma {:induction false} ConLawHoldsAll(law: ConLaw, cs: seq<Con>)
    requires ConLawApplies(law)
    ensures MapCons(CLhs(law).1, MapCons(CLhs(law).0, cs)) == MapCons(CRhs(law).1, MapCons(CRhs(law).0, cs))
    decreases CLawRank(law), 1, cs
  {
    if cs != [] {
      ConLawHolds(law, cs[0]);
      ConLawHoldsAll(law, cs[1..]);
    }
  }

  lemma {:induction false} ConLawHoldsPairs(law: ConLaw, xcs: seq<ConField>)
    requires ConLawApplies(law)
    ensures MapPairs(CLhs(law).1, MapPairs(CLhs(law).0, xcs)) == MapPairs(CRhs(law).1, MapPairs(CRhs(law).0, xcs))
    decreases CLawRank(law), 1, xcs
  {
    if xcs != [] {
      ConLawHoldsField(law, xcs[0]);
      ConLawHoldsPairs(law, xcs[1..]);
    }
  }

  lemma {:induction false} ConLawHoldsField(law: ConLaw, f: ConField)
    requires ConLawApplies(law)
    ensures MapField(CLhs(law).1, MapField(CLhs(law).0, f)) == MapField(CRhs(law).1, MapField(CRhs(law).0, f))
    decreases CLawRank(law), 1, f
  {
    ConLawHolds(law, f.name);
    ConLawHolds(law, f.c);
  }

  lemma {:induction false} ConLawUnderBinder(law: ConLaw, d: Con)
    requires ConLawApplies(law)
    ensures Agree((UnderC(CLhs(law).0), UnderC(CLhs(law).1)), (UnderC(CRhs(law).0), UnderC(CRhs(law).1)), d)
    decreases CLawRank(law), 1, d, 1
  {
    CUnderOps(law);
    ConLawHolds(CUnderLaw(law), d);
  }

  // ---------------------------------------------------------------- traversal of expressions

  datatype ExpOp = InCon(op: ConOp) | LiftE(bound: nat) | SubE(xn: nat, rep: Exp)

  function ExpOpRank(op: ExpOp): nat { if op.SubE? then 1 else 0 }

  /** The `con` argument: expression operations leave constructors alone. */
  function ConPart(op: ExpOp): ConOp { if op.InCon? then op.op else KeepC }

  /** The `exp` argument at a variable. */
  function ExpAt(op: ExpOp, i: int): Exp {
    match op
    case InCon(_) => ERel(i)
    case LiftE(bound) => if i < bound then ERel(i) else ERel(i + 1)
    case SubE(xn, rep) => if i == xn then rep else if i > xn then ERel(i - 1) else ERel(i)
  }

  /** The `bind` argument at a constructor binder. */
  function EUnderC(op: ExpOp): (r: ExpOp)
    ensures ExpOpRank(r) == ExpOpRank(op)
    decreases ExpOpRank(op), 0
  {
    match op
    case InCon(cop) => InCon(UnderC(cop))
    case LiftE(_) => op
    case SubE(xn, rep) => SubE(xn, MapExp(InCon(LiftC(0)), rep))
  }

  /** The `bind` argument at an expression binder. */
  function EUnderE(op: ExpOp): (r: ExpOp)
    ensures ExpOpRank(r) == ExpOpRank(op)
    decreases ExpOpRank(op), 0
  {
    match op
    case InCon(_) => op
    case LiftE(bound) => LiftE(bound + 1)
    case SubE(xn, rep) => SubE(xn + 1, MapExp(LiftE(0), rep))
  }

  /** `pb`: one expression binder for every variable of a pattern, left to right. */
  function EUnderPat(op: ExpOp, p: Pat): (r: ExpOp)
    ensures ExpOpRank(r) == ExpOpRank(op)
    decreases ExpOpRank(op), 1, p
  {
    match p
    case PVar(_, _) => EUnderE(op)
    case PPrim(_) => op
    case PCon(_, _, po) => if po.Some? then EUnderPat(op, po.value) else op
    case PRecord(xps) => EUnderPats(op, xps)
  }

  function EUnderPats(op: ExpOp, xps: seq<FieldPat>): (r: ExpOp)
    ensures ExpOpRank(r) == ExpOpRank(op)
    decreases ExpOpRank(op), 1, xps
  {
    if xps == [] then op else EUnderPats(EUnderFieldPat(op, xps[0]), xps[1..])
  }

  function EUnderFieldPat(op: ExpOp, f: FieldPat): (r: ExpOp)
    ensures ExpOpRank(r) == ExpOpRank(op)
    decreases ExpOpRank(op), 1, f
  {
    EUnderPat(op, f.p)
  }

  /** `foldl` of the constructor binder over the parameters of a foreign datatype. */
  function UnderParams(op: ConOp, params: seq<string>): ConOp
    decreases |params|
  {
    if params == [] then op else UnderParams(UnderC(op), params[1..])
  }

  function MapPatCon(op: ConOp, pc: PatCon): PatCon {
    match pc
    case PConVar(_) => pc
    case PConFfi(m, datatyp, params, con, arg) =>
      PConFfi(m, datatyp, params, con,
              if arg.Some? then Some(MapCon(UnderParams(op, params), arg.value)) else None)
  }

  function MapPat(op: ConOp, p: Pat): Pat {
    match p
    case PVar(x, t) => PVar(x, MapCon(op, t))
    case PPrim(_) => p
    case PCon(pc, args, po) =>
      PCon(MapPatCon(op, pc), MapCons(op, args), if po.Some? then Some(MapPat(op, po.value)) else None)
    case PRecord(xps) => PRecord(MapFieldPats(op, xps))
  }

  function MapFieldPats(op: ConOp, xps: seq<FieldPat>): seq<FieldPat> {
    if xps == [] then [] else [MapFieldPat(op, xps[0])] + MapFieldPats(op, xps[1..])
  }

  function MapFieldPat(op: ConOp, f: FieldPat): FieldPat {
    FieldPat(f.x, MapPat(op, f.p), MapCon(op, f.t))
  }

  /** `mapB` on expressions. */
  function MapExp(op: ExpOp, e: Exp): Exp
    decreases ExpOpRank(op), 2, e
  {
    var cop := ConPart(op);
    match e
    case EPrim(_) => e
    case ERel(i) => ExpAt(op, i)
    case ENamed(_) => e
    case ECon(pc, args, eo) =>
      ECon(MapPatCon(cop, pc), MapCons(cop, args), if eo.Some? then Some(MapExp(op, eo.value)) else None)
    case EFfi(_, _) => e
    case EFfiApp(m, x, ets) => EFfiApp(m, x, MapTypeds(op, ets))
    case EApp(e1, e2) => EApp(MapExp(op, e1), MapExp(op, e2))
    case EAbs(x, dom, ran, d) => EAbs(x, MapCon(cop, dom), MapCon(cop, ran), MapExp(EUnderE(op), d))
    case ECApp(d, c) => ECApp(MapExp(op, d), MapCon(cop, c))
    case ECAbs(x, k, d) => ECAbs(x, k, MapExp(EUnderC(op), d))
    case EKAbs(x, d) => EKAbs(x, MapExp(op, d))
    case EKApp(d, k) => EKApp(MapExp(op, d), k)
    case ERecord(xes) => ERecord(MapFieldExps(op, xes))
    case EField(d, c, field, rest) => EField(MapExp(op, d), MapCon(cop, c), MapCon(cop, field), MapCon(cop, rest))
    case EConcat(e1, c1, e2, c2) => EConcat(MapExp(op, e1), MapCon(cop, c1), MapExp(op, e2), MapCon(cop, c2))
    case ECut(d, c, field, rest) => ECut(MapExp(op, d), MapCon(cop, c), MapCon(cop, field), MapCon(cop, rest))
    case ECutMulti(d, c, rest) => ECutMulti(MapExp(op, d), MapCon(cop, c), MapCon(cop, rest))
    case ECase(d, pes, disc, result) =>
      ECase(MapExp(op, d), MapBranches(op, pes), MapCon(cop, disc), MapCon(cop, result))
    case EWrite(d) => EWrite(MapExp(op, d))
    case EClosure(n, es) => EClosure(n, MapExps(op, es))
    case ELet(x, t, e1, e2) => ELet(x, MapCon(cop, t), MapExp(op, e1), MapExp(EUnderE(op), e2))
    case EServerCall(n, es, t) => EServerCall(n, MapExps(op, es), MapCon(cop, t))
  }

  function MapExps(op: ExpOp, es: seq<Exp>): seq<Exp>
    decreases ExpOpRank(op), 2, es
  {
    if es == [] then [] else [MapExp(op, es[0])] + MapExps(op, es[1..])
  }

  function MapTypeds(op: ExpOp, ets: seq<Typed>): seq<Typed>
    decreases ExpOpRank(op), 2, ets
  {
    if ets == [] then [] else [MapTyped(op, ets[0])] + MapTypeds(op, ets[1..])
  }

  function MapTyped(op: ExpOp, et: Typed): Typed
    decreases ExpOpRank(op), 2, et
  {
    Typed(MapExp(op, et.e), MapCon(ConPart(op), et.t))
  }

  function MapFieldExps(op: ExpOp, xes: seq<FieldExp>): seq<FieldExp>
    decreases ExpOpRank(op), 2, xes
  {
    if xes == [] then [] else [MapFieldExp(op, xes[0])] + MapFieldExps(op, xes[1..])
  }

  function MapFieldExp(op: ExpOp, f: FieldExp): FieldExp
    decreases ExpOpRank(op), 2, f
  {
    FieldExp(MapCon(ConPart(op), f.name), MapExp(op, f.e), MapCon(ConPart(op), f.t))
  }

  function MapBranches(op: ExpOp, pes: seq<Branch>): seq<Branch>
    decreases ExpOpRank(op), 2, pes
  {
    if pes == [] then [] else [MapBranch(op, pes[0])] + MapBranches(op, pes[1..])
  }

  function MapBranch(op: ExpOp, b: Branch): Branch
    decreases ExpOpRank(op), 2, b
  {
    var p' := MapPat(ConPart(op), b.p);
    Branch(p', MapExp(EUnderPat(op, p'), b.e))
  }

  function LiftConInExp(bound: nat, e: Exp): Exp { MapExp(InCon(LiftC(bound)), e) }

  function SubConInExp(xn: nat, rep: Con, e: Exp): Exp { MapExp(InCon(SubC(xn, rep)), e) }

  function LiftExpInExp(bound: nat, e: Exp): Exp { MapExp(LiftE(bound), e) }

  function SubExpInExp(xn: nat, rep: Exp, e: Exp): Exp { MapExp(SubE(xn, rep), e) }

  // ---------------------------------------------------------------- pattern binders

  /** `patBindsN` */
  function PatBindsN(p: Pat): nat {
    match p
    case PVar(_, _) => 1
    case PPrim(_) => 0
    case PCon(_, _, po) => if po.Some? then PatBindsN(po.value) else 0
    case PRecord(xps) => PatsBindN(xps)
  }

  function PatsBindN(xps: seq<FieldPat>): nat {
    if xps == [] then 0 else FieldPatBindsN(xps[0]) + PatsBindN(xps[1..])
  }

  function FieldPatBindsN(f: FieldPat): nat { PatBindsN(f.p) }

  function EUnderN(op: ExpOp, k: nat): ExpOp
    decreases k
  {
    if k == 0 then op else EUnderN(EUnderE(op), k - 1)
  }

  lemma {:induction false} EUnderNAdd(op: ExpOp, j: nat, k: nat)
    ensures EUnderN(EUnderN(op, j), k) == EUnderN(op, j + k)
    decreases j
  {
    if j > 0 {
      EUnderNAdd(EUnderE(op), j - 1, k);
    }
  }

  /** A pattern's scope is exactly `patBindsN` expression binders deep. */
  lemma {:induction false} PatScope(op: ExpOp, p: Pat)
    ensures EUnderPat(op, p) == EUnderN(op, PatBindsN(p))
    decreases p
  {
    match p {
      case PVar(_, _) => assert EUnderN(op, 1) == EUnderN(EUnderE(op), 0);
      case PCon(_, _, po) => if po.Some? { PatScope(op, po.value); }
      case PRecord(xps) => PatsScope(op, xps);
      case _ =>
    }
  }

  lemma {:induction false} PatsScope(op: ExpOp, xps: seq<FieldPat>)
    ensures EUnderPats(op, xps) == EUnderN(op, PatsBindN(xps))
    decreases xps
  {
    if xps != [] {
      FieldPatScope(op, xps[0]);
      PatsScope(EUnderFieldPat(op, xps[0]), xps[1..]);
      EUnderNAdd(op, FieldPatBindsN(xps[0]), PatsBindN(xps[1..]));
    }
  }

  lemma {:induction false} FieldPatScope(op: ExpOp, f: FieldPat)
    ensures EUnderFieldPat(op, f) == EUnderN(op, FieldPatBindsN(f))
    decreases f
  {
    PatScope(op, f.p);
  }

  lemma {:induction false} MapPatBinds(op: ConOp, p: Pat)
    ensures PatBindsN(MapPat(op, p)) == PatBindsN(p)
  {
    match p {
      case PCon(_, _, po) => if po.Some? { MapPatBinds(op, po.value); }
      case PRecord(xps) => MapPatsBind(op, xps);
      case _ =>
    }
  }

  lemma {:induction false} MapPatsBind(op: ConOp, xps: seq<FieldPat>)
    ensures PatsBindN(MapFieldPats(op, xps)) == PatsBindN(xps)
  {
    if xps != [] {
      MapFieldPatBinds(op, xps[0]);
      MapPatsBind(op, xps[1..]);
    }
  }

  lemma {:induction false} MapFieldPatBinds(op: ConOp, f: FieldPat)
    ensures FieldPatBindsN(MapFieldPat(op, f)) == FieldPatBindsN(f)
  {
    MapPatBinds(op, f.p);
  }

  // ---------------------------------------------------------------- laws of expressions

  datatype ExpLaw =
    | Constructors(law: ConLaw)
    | ELiftLift(m: nat, n: nat)
    | ESubLift(n: nat, r: Exp)
    | ELiftSubBelow(m: nat, n: nat, r: Exp)
    | ELiftSubAbove(m: nat, n: nat, r: Exp)
    | ESubSub(m: nat, n: nat, r1: Exp, r2: Exp)
    | EConLift(op: ConOp, n: nat)
    | EConSub(op: ConOp, n: nat, r: Exp)

  predicate ExpLawApplies(law: ExpLaw) {
    match law
    case Constructors(cl) => ConLawApplies(cl)
    case ELiftLift(m, n) => n <= m
    case ELiftSubBelow(m, n, _) => n <= m
    case ELiftSubAbove(m, n, _) => m <= n
    case ESubSub(m, n, _, _) => m <= n
    case _ => true
  }

  function ELhs(law: ExpLaw): (ExpOp, ExpOp) {
    match law
    case Constructors(cl) => (InCon(CLhs(cl).0), InCon(CLhs(cl).1))
    case ELiftLift(m, n) => (LiftE(n), LiftE(m + 1))
    case ESubLift(n, r) => (LiftE(n), SubE(n, r))
    case ELiftSubBelow(m, n, r) => (SubE(m, r), LiftE(n))
    case ELiftSubAbove(m, n, r) => (SubE(m, r), LiftE(n))
    case ESubSub(m, n, r1, r2) => (SubE(m, r1), SubE(n, r2))
    case EConLift(op, n) => (InCon(op), LiftE(n))
    case EConSub(op, n, r) => (InCon(op), SubE(n, MapExp(InCon(op), r)))
  }

  function ERhs(law: ExpLaw): (ExpOp, ExpOp) {
    match law
    case Constructors(cl) => (InCon(CRhs(cl).0), InCon(CRhs(cl).1))
    case ELiftLift(m, n) => (LiftE(m), LiftE(n))
    case ESubLift(n, r) => (InCon(KeepC), InCon(KeepC))
    case ELiftSubBelow(m, n, r) => (LiftE(n), SubE(m + 1, MapExp(LiftE(n), r)))
    case ELiftSubAbove(m, n, r) => (LiftE(n + 1), SubE(m, MapExp(LiftE(n), r)))
    case ESubSub(m, n, r1, r2) => (SubE(n + 1, MapExp(LiftE(m), r2)), SubE(m, MapExp(SubE(n, r2), r1)))
    case EConLift(op, n) => (LiftE(n), InCon(op))
    case EConSub(op, n, r) => (SubE(n, r), InCon(op))
  }

  function EUnderCLaw(law: ExpLaw): ExpLaw {
    match law
    case Constructors(cl) => Constructors(CUnderLaw(cl))
    case ELiftLift(_, _) => law
    case ESubLift(n, r) => ESubLift(n, MapExp(InCon(LiftC(0)), r))
    case ELiftSubBelow(m, n, r) => ELiftSubBelow(m, n, MapExp(InCon(LiftC(0)), r))
    case ELiftSubAbove(m, n, r) => ELiftSubAbove(m, n, MapExp(InCon(LiftC(0)), r))
    case ESubSub(m, n, r1, r2) => ESubSub(m, n, MapExp(InCon(LiftC(0)), r1), MapExp(InCon(LiftC(0)), r2))
    case EConLift(op, n) => EConLift(UnderC(op), n)
    case EConSub(op, n, r) => EConSub(UnderC(op), n, MapExp(InCon(LiftC(0)), r))
  }

  function EUnderELaw(law: ExpLaw): ExpLaw {
    match law
    case Constructors(_) => law
    case ELiftLift(m, n) => ELiftLift(m + 1, n + 1)
    case ESubLift(n, r) => ESubLift(n + 1, MapExp(LiftE(0), r))
    case ELiftSubBelow(m, n, r) => ELiftSubBelow(m + 1, n + 1, MapExp(LiftE(0), r))
    case ELiftSubAbove(m, n, r) => ELiftSubAbove(m + 1, n + 1, MapExp(LiftE(0), r))
    case ESubSub(m, n, r1, r2) => ESubSub(m + 1, n + 1, MapExp(LiftE(0), r1), MapExp(LiftE(0), r2))
    case EConLift(op, n) => EConLift(op, n + 1)
    case EConSub(op, n, r) => EConSub(op, n + 1, MapExp(LiftE(0), r))
  }

  function ELawRank(law: ExpLaw): nat {
    match law
    case Constructors(_) => 0
    case ELiftLift(_, _) => 1
    case ESubLift(_, _) => 1
    case EConLift(_, _) => 1
    case EConSub(_, _, _) => 2
    case ELiftSubBelow(_, _, _) => 2
    case ELiftSubAbove(_, _, _) => 2
    case ESubSub(_, _, _, _) => 3
  }

  /** The law of constructors that an expression law amounts to on the constructors it meets. */
  function ConSide(law: ExpLaw): ConLaw {
    match law
    case Constructors(cl) => cl
    case EConLift(op, _) => CTrivial(op)
    case EConSub(op, _, _) => CTrivial(op)
    case _ => CTrivial(KeepC)
  }

  function ConParts(l: (ExpOp, ExpOp)): (ConOp, ConOp) { (ConPart(l.0), ConPart(l.1)) }

  lemma ConSideOps(law: ExpLaw)
    requires ExpLawApplies(law)
    ensures ConLawApplies(ConSide(law))
    ensures ConParts(ELhs(law)) == CLhs(ConSide(law)) && ConParts(ERhs(law)) == CRhs(ConSide(law))
  {
  }

  // ---- constructors and patterns inside expressions

  function CUnderParamsLaw(law: ConLaw, params: seq<string>): ConLaw
    decreases |params|
  {
    if params == [] then law else CUnderParamsLaw(CUnderLaw(law), params[1..])
  }

  lemma {:induction false} CUnderParamsOps(law: ConLaw, params: seq<string>)
    requires ConLawApplies(law)
    ensures var law' := CUnderParamsLaw(law, params);
            && ConLawApplies(law')
            && CLhs(law') == (UnderParams(CLhs(law).0, params), UnderParams(CLhs(law).1, params))
            && CRhs(law') == (UnderParams(CRhs(law).0, params), UnderParams(CRhs(law).1, params))
    decreases |params|
  {
    if params != [] {
      CUnderOps(law);
      CUnderParamsOps(CUnderLaw(law), params[1..]);
    }
  }

  predicate PatConAgree(l: (ConOp, ConOp), r: (ConOp, ConOp), pc: PatCon) {
    MapPatCon(l.1, MapPatCon(l.0, pc)) == MapPatCon(r.1, MapPatCon(r.0, pc))
  }

  lemma PatConLaw(law: ConLaw, pc: PatCon)
    requires ConLawApplies(law)
    ensures PatConAgree(CLhs(law), CRhs(law), pc)
  {
    if pc.PConFfi? && pc.arg.Some? {
      CUnderParamsOps(law, pc.params);
      ConLawHolds(CUnderParamsLaw(law, pc.params), pc.arg.value);
    }
  }

  predicate PatAgree(l: (ConOp, ConOp), r: (ConOp, ConOp), p: Pat) {
    MapPat(l.1, MapPat(l.0, p)) == MapPat(r.1, MapPat(r.0, p))
  }

  lemma {:induction false} PatLaw(law: ConLaw, p: Pat)
    requires ConLawApplies(law)
    ensures PatAgree(CLhs(law), CRhs(law), p)
  {
    match p {
      case PVar(_, t) => ConLawHolds(law, t);
      case PPrim(_) =>
      case PCon(pc, args, po) =>
        PatConLaw(law, pc);
        ConLawHoldsAll(law, args);
        if po.Some? { PatLaw(law, po.value); }
      case PRecord(xps) => FieldPatsLaw(law, xps);
    }
  }

  lemma {:induction false} FieldPatsLaw(law: ConLaw, xps: seq<FieldPat>)
    requires ConLawApplies(law)
    ensures MapFieldPats(CLhs(law).1, MapFieldPats(CLhs(law).0, xps))
         == MapFieldPats(CRhs(law).1, MapFieldPats(CRhs(law).0, xps))
  {
    if xps != [] {
      FieldPatLaw(law, xps[0]);
      FieldPatsLaw(law, xps[1..]);
    }
  }

  lemma {:induction false} FieldPatLaw(law: ConLaw, f: FieldPat)
    requires ConLawApplies(law)
    ensures MapFieldPat(CLhs(law).1, MapFieldPat(CLhs(law).0, f)) ==
      MapFieldPat(CRhs(law).1, MapFieldPat(CRhs(law).0, f))
  {
    PatLaw(law, f.p);
    ConLawHolds(law, f.t);
  }

  // ---- the congruence of expressions

  predicate EAgree(l: (ExpOp, ExpOp), r: (ExpOp, ExpOp), e: Exp) {
    MapExp(l.1, MapExp(l.0, e)) == MapExp(r.1, MapExp(r.0, e))
  }

  predicate CAgree(l: (ExpOp, ExpOp), r: (ExpOp, ExpOp), c: Con) {
    Agree(ConParts(l), ConParts(r), c)
  }

  predicate CsAgree(l: (ExpOp, ExpOp), r: (ExpOp, ExpOp), cs: seq<Con>) {
    MapCons(ConPart(l.1), MapCons(ConPart(l.0), cs)) == MapCons(ConPart(r.1), MapCons(ConPart(r.0), cs))
  }

  predicate EsAgree(l: (ExpOp, ExpOp), r: (ExpOp, ExpOp), es: seq<Exp>) {
    MapExps(l.1, MapExps(l.0, es)) == MapExps(r.1, MapExps(r.0, es))
  }

  function BothUnderE(l: (ExpOp, ExpOp)): (ExpOp, ExpOp) { (EUnderE(l.0), EUnderE(l.1)) }

  function BothUnderC(l: (ExpOp, ExpOp)): (ExpOp, ExpOp) { (EUnderC(l.0), EUnderC(l.1)) }

  predicate EChildrenAgree(l: (ExpOp, ExpOp), r: (ExpOp, ExpOp), e: Exp) {
    match e
    case ERel(_) => EAgree(l, r, e)
    case ECon(pc, args, eo) =>
      && PatConAgree(ConParts(l), ConParts(r), pc) && CsAgree(l, r, args)
      && (eo.Some? ==> EAgree(l, r, eo.value))
    case EFfiApp(_, _, ets) => MapTypeds(l.1, MapTypeds(l.0, ets)) == MapTypeds(r.1, MapTypeds(r.0, ets))
    case EApp(e1, e2) => EAgree(l, r, e1) && EAgree(l, r, e2)
    case EAbs(_, dom, ran, d) =>
      CAgree(l, r, dom) && CAgree(l, r, ran) && EAgree(BothUnderE(l), BothUnderE(r), d)
    case ECApp(d, c) => EAgree(l, r, d) && CAgree(l, r, c)
    case ECAbs(_, _, d) => EAgree(BothUnderC(l), BothUnderC(r), d)
    case EKAbs(_, d) => EAgree(l, r, d)
    case EKApp(d, _) => EAgree(l, r, d)
    case ERecord(xes) => MapFieldExps(l.1, MapFieldExps(l.0, xes)) == MapFieldExps(r.1, MapFieldExps(r.0, xes))
    case EField(d, c, field, rest) => EAgree(l, r, d) && CAgree(l, r, c) && CAgree(l, r, field) && CAgree(l, r, rest)
    case EConcat(e1, c1, e2, c2) => EAgree(l, r, e1) && CAgree(l, r, c1) && EAgree(l, r, e2) && CAgree(l, r, c2)
    case ECut(d, c, field, rest) => EAgree(l, r, d) && CAgree(l, r, c) && CAgree(l, r, field) && CAgree(l, r, rest)
    case ECutMulti(d, c, rest) => EAgree(l, r, d) && CAgree(l, r, c) && CAgree(l, r, rest)
    case ECase(d, pes, disc, result) =>
      && EAgree(l, r, d) && CAgree(l, r, disc) && CAgree(l, r, result)
      && MapBranches(l.1, MapBranches(l.0, pes)) == MapBranches(r.1, MapBranches(r.0, pes))
    case EWrite(d) => EAgree(l, r, d)
    case EClosure(_, es) => EsAgree(l, r, es)
    case ELet(_, t, e1, e2) => CAgree(l, r, t) && EAgree(l, r, e1) && EAgree(BothUnderE(l), BothUnderE(r), e2)
    case EServerCall(_, es, t) => EsAgree(l, r, es) && CAgree(l, r, t)
    case _ => true
  }

  lemma ExpCongruence(l: (ExpOp, ExpOp), r: (ExpOp, ExpOp), e: Exp)
    requires EChildrenAgree(l, r, e)
    ensures EAgree(l, r, e)
  {
  }

  // ---- the laws

  lemma {:induction false} KeepPatCon(pc: PatCon)
    ensures MapPatCon(KeepC, pc) == pc
  {
    if pc.PConFfi? && pc.arg.Some? {
      UnderParamsKeep(pc.params);
      KeepCon(pc.arg.value);
    }
  }

  lemma {:induction false} UnderParamsKeep(params: seq<string>)
    ensures UnderParams(KeepC, params) == KeepC
  {
    if params != [] {
      UnderParamsKeep(params[1..]);
    }
  }

  lemma {:induction false} KeepPat(p: Pat)
    ensures MapPat(KeepC, p) == p
  {
    match p {
      case PVar(_, t) => KeepCon(t);
      case PPrim(_) =>
      case PCon(pc, args, po) =>
        KeepPatCon(pc);
        KeepCons(args);
        if po.Some? { KeepPat(po.value); }
      case PRecord(xps) => KeepFieldPats(xps);
    }
  }

  lemma {:induction false} KeepFieldPats(xps: seq<FieldPat>)
    ensures MapFieldPats(KeepC, xps) == xps
  {
    if xps != [] {
      KeepFieldPat(xps[0]);
      KeepFieldPats(xps[1..]);
    }
  }

  lemma {:induction false} KeepFieldPat(f: FieldPat)
    ensures MapFieldPat(KeepC, f) == f
  {
    KeepPat(f.p);
    KeepCon(f.t);
  }

  lemma {:induction false} KeepScope(k: nat)
    ensures EUnderN(InCon(KeepC), k) == InCon(KeepC)
  {
    if k > 0 {
      KeepScope(k - 1);
    }
  }

  lemma {:induction false} KeepExp(e: Exp)
    ensures MapExp(InCon(KeepC), e) == e
    decreases e
  {
    match e {
      case ECon(pc, args, eo) =>
        KeepPatCon(pc);
        KeepCons(args);
        if eo.Some? { KeepExp(eo.value); }
      case EFfiApp(_, _, ets) => KeepTypeds(ets);
      case EApp(e1, e2) => KeepExp(e1); KeepExp(e2);
      case EAbs(_, dom, ran, d) => KeepCon(dom); KeepCon(ran); KeepExp(d);
      case ECApp(d, c) => KeepExp(d); KeepCon(c);
      case ECAbs(_, _, d) => KeepExp(d);
      case EKAbs(_, d) => KeepExp(d);
      case EKApp(d, _) => KeepExp(d);
      case ERecord(xes) => KeepFieldExps(xes);
      case EField(d, c, field, rest) => KeepExp(d); KeepCon(c); KeepCon(field); KeepCon(rest);
      case EConcat(e1, c1, e2, c2) => KeepExp(e1); KeepCon(c1); KeepExp(e2); KeepCon(c2);
      case ECut(d, c, field, rest) => KeepExp(d); KeepCon(c); KeepCon(field); KeepCon(rest);
      case ECutMulti(d, c, rest) => KeepExp(d); KeepCon(c); KeepCon(rest);
      case ECase(d, pes, disc, result) => KeepExp(d); KeepBranches(pes); KeepCon(disc); KeepCon(result);
      case EWrite(d) => KeepExp(d);
      case EClosure(_, es) => KeepExps(es);
      case ELet(_, t, e1, e2) => KeepCon(t); KeepExp(e1); KeepExp(e2);
      case EServerCall(_, es, t) => KeepExps(es); KeepCon(t);
      case _ =>
    }
  }

  lemma {:induction false} KeepExps(es: seq<Exp>)
    ensures MapExps(InCon(KeepC), es) == es
    decreases es
  {
    if es != [] {
      KeepExp(es[0]);
      KeepExps(es[1..]);
    }
  }

  lemma {:induction false} KeepTypeds(ets: seq<Typed>)
    ensures MapTypeds(InCon(KeepC), ets) == ets
    decreases ets
  {
    if ets != [] {
      KeepTyped(ets[0]);
      KeepTypeds(ets[1..]);
    }
  }

  lemma {:induction false} KeepTyped(et: Typed)
    ensures MapTyped(InCon(KeepC), et) == et
    decreases et
  {
    KeepExp(et.e);
    KeepCon(et.t);
  }

  lemma {:induction false} KeepFieldExps(xes: seq<FieldExp>)
    ensures MapFieldExps(InCon(KeepC), xes) == xes
    decreases xes
  {
    if xes != [] {
      KeepFieldExp(xes[0]);
      KeepFieldExps(xes[1..]);
    }
  }

  lemma {:induction false} KeepFieldExp(f: FieldExp)
    ensures MapFieldExp(InCon(KeepC), f) == f
    decreases f
  {
    KeepCon(f.name);
    KeepExp(f.e);
    KeepCon(f.t);
  }

  lemma {:induction false} KeepBranches(pes: seq<Branch>)
    ensures MapBranches(InCon(KeepC), pes) == pes
    decreases pes
  {
    if pes != [] {
      KeepBranch(pes[0]);
      KeepBranches(pes[1..]);
    }
  }

  lemma {:induction false} KeepBranch(b: Branch)
    ensures MapBranch(InCon(KeepC), b) == b
    decreases b
  {
    KeepPat(b.p);
    PatScope(InCon(KeepC), b.p);
    KeepScope(PatBindsN(b.p));
    KeepExp(b.e);
  }

  lemma EUnderCOps(law: ExpLaw)
    requires ExpLawApplies(law)
    ensures ExpLawApplies(EUnderCLaw(law)) && ELawRank(EUnderCLaw(law)) == ELawRank(law)
    ensures ELhs(EUnderCLaw(law)) == BothUnderC(ELhs(law)) && ERhs(EUnderCLaw(law)) == BothUnderC(ERhs(law))
    decreases ELawRank(law), 0, 1
  {
    match law {
      case Constructors(cl) => CUnderOps(cl);
      case ELiftSubBelow(m, n, r) => ExpLawHolds(EConLift(LiftC(0), n), r);
      case ELiftSubAbove(m, n, r) => ExpLawHolds(EConLift(LiftC(0), n), r);
      case ESubSub(_, _, _, _) => ESubSubUnderC(law);
      case EConSub(op, n, r) => LiftPastConOp(op, r);
      case _ =>
    }
  }

  lemma ESubSubUnderC(law: ExpLaw)
    requires law.ESubSub? && ExpLawApplies(law)
    ensures ELhs(EUnderCLaw(law)) == BothUnderC(ELhs(law)) && ERhs(EUnderCLaw(law)) == BothUnderC(ERhs(law))
    decreases ELawRank(law), 0, 0
  {
    var ESubSub(m, n, r1, r2) := law;
    ExpLawHolds(EConLift(LiftC(0), m), r2);
    ExpLawHolds(EConSub(LiftC(0), n, r2), r1);
  }

  /** Lifting constructors by one turns an operation into the same operation one binder in. */
  lemma LiftPastConOp(op: ConOp, r: Exp)
    ensures MapExp(InCon(LiftC(0)), MapExp(InCon(op), r)) == MapExp(InCon(UnderC(op)), MapExp(InCon(LiftC(0)), r))
    decreases 0, 2
  {
    match op {
      case LiftC(m) => ExpLawHolds(Constructors(CLiftLift(m, 0)), r);
      case SubC(m, rep) => ExpLawHolds(Constructors(CLiftSubBelow(m, 0, rep)), r);
      case KeepC => ExpLawHolds(Constructors(CTrivial(LiftC(0))), r);
    }
  }

  lemma EUnderEOps(law: ExpLaw)
    requires ExpLawApplies(law)
    ensures ExpLawApplies(EUnderELaw(law)) && ELawRank(EUnderELaw(law)) == ELawRank(law)
    ensures ELhs(EUnderELaw(law)) == BothUnderE(ELhs(law)) && ERhs(EUnderELaw(law)) == BothUnderE(ERhs(law))
    decreases ELawRank(law), 0, 1
  {
    match law {
      case ELiftSubBelow(m, n, r) => ExpLawHolds(ELiftLift(n, 0), r);
      case ELiftSubAbove(m, n, r) => ExpLawHolds(ELiftLift(n, 0), r);
      case ESubSub(_, _, _, _) => ESubSubUnderE(law);
      case EConSub(op, n, r) => ExpLawHolds(EConLift(op, 0), r);
      case _ =>
    }
  }

  lemma ESubSubUnderE(law: ExpLaw)
    requires law.ESubSub? && ExpLawApplies(law)
    ensures ELhs(EUnderELaw(law)) == BothUnderE(ELhs(law)) && ERhs(EUnderELaw(law)) == BothUnderE(ERhs(law))
    decreases ELawRank(law), 0, 0
  {
    var ESubSub(m, n, r1, r2) := law;
    ExpLawHolds(ELiftLift(m, 0), r2);
    ExpLawHolds(ELiftSubBelow(n, 0, r2), r1);
  }

  lemma EVarCase(law: ExpLaw, i: int)
    requires ExpLawApplies(law)
    ensures EAgree(ELhs(law), ERhs(law), ERel(i))
    decreases ELawRank(law), 0
  {
    match law {
      case ESubSub(m, n, r1, r2) =>
        ExpLawHolds(ESubLift(m, MapExp(SubE(n, r2), r1)), r2);
        KeepExp(r2);
      case _ =>
    }
  }

  lemma {:induction false} ExpLawHolds(law: ExpLaw, e: Exp)
    requires ExpLawApplies(law)
    ensures EAgree(ELhs(law), ERhs(law), e)
    decreases ELawRank(law), 1, e, 0
  {
    ChildrenLaw(law, e);
    ExpCongruence(ELhs(law), ERhs(law), e);
  }

  lemma {:induction false} ChildrenLaw(law: ExpLaw, e: Exp)
    requires ExpLawApplies(law)
    ensures EChildrenAgree(ELhs(law), ERhs(law), e)
    decreases ELawRank(law), 1, e, 0, 1
  {
    var cl := ConSide(law);
    ConSideOps(law);
    match e {
      case ERel(i) => EVarCase(law, i);
      case ECon(pc, args, eo) =>
        PatConLaw(cl, pc);
        ConLawHoldsAll(cl, args);
        if eo.Some? { ExpLawHolds(law, eo.value); }
      case EFfiApp(_, _, ets) => TypedsLaw(law, ets);
      case EApp(e1, e2) => ExpLawHolds(law, e1); ExpLawHolds(law, e2);
      case EAbs(_, dom, ran, d) => ConLawHolds(cl, dom); ConLawHolds(cl, ran); ExpLawUnderE(law, d);
      case ECApp(d, c) => ExpLawHolds(law, d); ConLawHolds(cl, c);
      case ECAbs(_, _, d) => ExpLawUnderC(law, d);
      case EKAbs(_, d) => ExpLawHolds(law, d);
      case EKApp(d, _) => ExpLawHolds(law, d);
      case ERecord(_) | EField(_, _, _, _) | EConcat(_, _, _, _) | ECut(_, _, _, _) | ECutMulti(_, _, _) =>
        RecordLaw(law, e);
      case ECase(d, pes, disc, result) =>
        ExpLawHolds(law, d); BranchesLaw(law, pes); ConLawHolds(cl, disc); ConLawHolds(cl, result);
      case EWrite(d) => ExpLawHolds(law, d);
      case EClosure(_, es) => ExpsLaw(law, es);
      case ELet(_, t, e1, e2) => ConLawHolds(cl, t); ExpLawHolds(law, e1); ExpLawUnderE(law, e2);
      case EServerCall(_, es, t) => ExpsLaw(law, es); ConLawHolds(cl, t);
      case _ =>
    }
  }

  lemma {:induction false} RecordLaw(law: ExpLaw, e: Exp)
    requires ExpLawApplies(law) && (e.ERecord? || e.EField? || e.EConcat? || e.ECut? || e.ECutMulti?)
    ensures EChildrenAgree(ELhs(law), ERhs(law), e)
    decreases ELawRank(law), 1, e, 0, 0
  {
    var cl := ConSide(law);
    ConSideOps(law);
    match e {
      case ERecord(xes) => FieldExpsLaw(law, xes);
      case EField(d, c, field, rest) =>
        ExpLawHolds(law, d); ConLawHolds(cl, c); ConLawHolds(cl, field); ConLawHolds(cl, rest);
      case EConcat(e1, c1, e2, c2) =>
        ExpLawHolds(law, e1); ConLawHolds(cl, c1); ExpLawHolds(law, e2); ConLawHolds(cl, c2);
      case ECut(d, c, field, rest) =>
        ExpLawHolds(law, d); ConLawHolds(cl, c); ConLawHolds(cl, field); ConLawHolds(cl, rest);
      case ECutMulti(d, c, rest) => ExpLawHolds(law, d); ConLawHolds(cl, c); ConLawHolds(cl, rest);
    }
  }

  lemma {:induction false} ExpLawUnderE(law: ExpLaw, e: Exp)
    requires ExpLawApplies(law)
    ensures EAgree(BothUnderE(ELhs(law)), BothUnderE(ERhs(law)), e)
    decreases ELawRank(law), 1, e, 1
  {
    EUnderEOps(law);
    ExpLawHolds(EUnderELaw(law), e);
  }

  lemma {:induction false} ExpLawUnderC(law: ExpLaw, e: Exp)
    requires ExpLawApplies(law)
    ensures EAgree(BothUnderC(ELhs(law)), BothUnderC(ERhs(law)), e)
    decreases ELawRank(law), 1, e, 1
  {
    EUnderCOps(law);
    ExpLawHolds(EUnderCLaw(law), e);
  }

  lemma {:induction false} ExpLawUnderN(law: ExpLaw, k: nat, e: Exp)
    requires ExpLawApplies(law)
    ensures EAgree((EUnderN(ELhs(law).0, k), EUnderN(ELhs(law).1, k)),
                   (EUnderN(ERhs(law).0, k), EUnderN(ERhs(law).1, k)), e)
    decreases ELawRank(law), 1, e, 1 + k
  {
    if k == 0 {
      ExpLawHolds(law, e);
    } else {
      EUnderEOps(law);
      ExpLawUnderN(EUnderELaw(law), k - 1, e);
    }
  }

  lemma {:induction false} ExpsLaw(law: ExpLaw, es: seq<Exp>)
    requires ExpLawApplies(law)
    ensures EsAgree(ELhs(law), ERhs(law), es)
    decreases ELawRank(law), 1, es
  {
    if es != [] {
      ExpLawHolds(law, es[0]);
      ExpsLaw(law, es[1..]);
    }
  }

  lemma {:induction false} TypedsLaw(law: ExpLaw, ets: seq<Typed>)
    requires ExpLawApplies(law)
    ensures MapTypeds(ELhs(law).1, MapTypeds(ELhs(law).0, ets)) == MapTypeds(ERhs(law).1, MapTypeds(ERhs(law).0, ets))
    decreases ELawRank(law), 1, ets
  {
    if ets != [] {
      TypedLaw(law, ets[0]);
      TypedsLaw(law, ets[1..]);
    }
  }

  lemma {:induction false} TypedLaw(law: ExpLaw, et: Typed)
    requires ExpLawApplies(law)
    ensures MapTyped(ELhs(law).1, MapTyped(ELhs(law).0, et)) == MapTyped(ERhs(law).1, MapTyped(ERhs(law).0, et))
    decreases ELawRank(law), 1, et
  {
    ConSideOps(law);
    ExpLawHolds(law, et.e);
    ConLawHolds(ConSide(law), et.t);
  }

  lemma {:induction false} FieldExpsLaw(law: ExpLaw, xes: seq<FieldExp>)
    requires ExpLawApplies(law)
    ensures MapFieldExps(ELhs(law).1, MapFieldExps(ELhs(law).0, xes))
         == MapFieldExps(ERhs(law).1, MapFieldExps(ERhs(law).0, xes))
    decreases ELawRank(law), 1, xes
  {
    if xes != [] {
      FieldExpLaw(law, xes[0]);
      FieldExpsLaw(law, xes[1..]);
    }
  }

  lemma {:induction false} FieldExpLaw(law: ExpLaw, f: FieldExp)
    requires ExpLawApplies(law)
    ensures MapFieldExp(ELhs(law).1, MapFieldExp(ELhs(law).0, f)) ==
      MapFieldExp(ERhs(law).1, MapFieldExp(ERhs(law).0, f))
    decreases ELawRank(law), 1, f
  {
    ConSideOps(law);
    ConLawHolds(ConSide(law), f.name);
    ExpLawHolds(law, f.e);
    ConLawHolds(ConSide(law), f.t);
  }

  lemma {:induction false} BranchesLaw(law: ExpLaw, pes: seq<Branch>)
    requires ExpLawApplies(law)
    ensures MapBranches(ELhs(law).1, MapBranches(ELhs(law).0, pes))
         == MapBranches(ERhs(law).1, MapBranches(ERhs(law).0, pes))
    decreases ELawRank(law), 1, pes
  {
    if pes != [] {
      BranchLaw(law, pes[0]);
      BranchesLaw(law, pes[1..]);
    }
  }

  lemma {:induction false} BranchLaw(law: ExpLaw, b: Branch)
    requires ExpLawApplies(law)
    ensures MapBranch(ELhs(law).1, MapBranch(ELhs(law).0, b)) == MapBranch(ERhs(law).1, MapBranch(ERhs(law).0, b))
    decreases ELawRank(law), 1, b
  {
    ConSideOps(law);
    PatLaw(ConSide(law), b.p);
    MapBranchTwice(ELhs(law), b);
    MapBranchTwice(ERhs(law), b);
    ExpLawUnderN(law, PatBindsN(b.p), b.e);
  }

  lemma MapBranchTwice(l: (ExpOp, ExpOp), b: Branch)
    ensures MapBranch(l.1, MapBranch(l.0, b))
         == Branch(MapPat(ConPart(l.1), MapPat(ConPart(l.0), b.p)),
                   MapExp(EUnderN(l.1, PatBindsN(b.p)), MapExp(EUnderN(l.0, PatBindsN(b.p)), b.e)))
  {
    var p1 := MapPat(ConPart(l.0), b.p);
    var p2 := MapPat(ConPart(l.1), p1);
    MapPatBinds(ConPart(l.0), b.p);
    MapPatBinds(ConPart(l.1), p1);
    PatScope(l.0, p1);
    PatScope(l.1, p2);
  }

  // ---------------------------------------------------------------- the named laws

  /** Lifts at two depths commute. */
  lemma LiftsCommute(m: nat, n: nat, c: Con, e: Exp)
    requires n <= m
    ensures LiftConInCon(m + 1, LiftConInCon(n, c)) == LiftConInCon(n, LiftConInCon(m, c))
    ensures LiftConInExp(m + 1, LiftConInExp(n, e)) == LiftConInExp(n, LiftConInExp(m, e))
    ensures LiftExpInExp(m + 1, LiftExpInExp(n, e)) == LiftExpInExp(n, LiftExpInExp(m, e))
  {
    ConLawHolds(CLiftLift(m, n), c);
    ExpLawHolds(Constructors(CLiftLift(m, n)), e);
    ExpLawHolds(ELiftLift(m, n), e);
  }

  /** Substituting for a variable just made room for gives the term back. */
  lemma SubUndoesLift(n: nat, c: Con, e: Exp, rc: Con, re: Exp)
    ensures SubConInCon(n, rc, LiftConInCon(n, c)) == c
    ensures SubConInExp(n, rc, LiftConInExp(n, e)) == e
    ensures SubExpInExp(n, re, LiftExpInExp(n, e)) == e
  {
    ConLawHolds(CSubLift(n, rc), c);
    ExpLawHolds(Constructors(CSubLift(n, rc)), e);
    ExpLawHolds(ESubLift(n, re), e);
    KeepCon(c);
    KeepExp(e);
  }

  /** A lift below the substituted variable moves past the substitution: constructors in constructors. */
  lemma LiftBelowSubCon(m: nat, n: nat, c: Con, rep: Con)
    requires n <= m
    ensures LiftConInCon(n, SubConInCon(m, rep, c)) == SubConInCon(m + 1, LiftConInCon(n, rep), LiftConInCon(n, c))
  {
    ConLawHolds(CLiftSubBelow(m, n, rep), c);
  }

  /** A lift below the substituted variable moves past the substitution: constructors in expressions. */
  lemma LiftBelowSubConInExp(m: nat, n: nat, e: Exp, rep: Con)
    requires n <= m
    ensures LiftConInExp(n, SubConInExp(m, rep, e)) == SubConInExp(m + 1, LiftConInCon(n, rep), LiftConInExp(n, e))
  {
    ExpLawHolds(Constructors(CLiftSubBelow(m, n, rep)), e);
  }

  /** A lift below the substituted variable moves past the substitution: expressions in expressions. */
  lemma LiftBelowSubExp(m: nat, n: nat, e: Exp, rep: Exp)
    requires n <= m
    ensures LiftExpInExp(n, SubExpInExp(m, rep, e)) == SubExpInExp(m + 1, LiftExpInExp(n, rep), LiftExpInExp(n, e))
  {
    ExpLawHolds(ELiftSubBelow(m, n, rep), e);
  }

  /** A lift above the substituted variable moves past the substitution: constructors in constructors. */
  lemma LiftAboveSubCon(m: nat, n: nat, c: Con, rep: Con)
    requires m <= n
    ensures LiftConInCon(n, SubConInCon(m, rep, c)) == SubConInCon(m, LiftConInCon(n, rep), LiftConInCon(n + 1, c))
  {
    ConLawHolds(CLiftSubAbove(m, n, rep), c);
  }

  /** A lift above the substituted variable moves past the substitution: constructors in expressions. */
  lemma LiftAboveSubConInExp(m: nat, n: nat, e: Exp, rep: Con)
    requires m <= n
    ensures LiftConInExp(n, SubConInExp(m, rep, e)) == SubConInExp(m, LiftConInCon(n, rep), LiftConInExp(n + 1, e))
  {
    ExpLawHolds(Constructors(CLiftSubAbove(m, n, rep)), e);
  }

  /** A lift above the substituted variable moves past the substitution: expressions in expressions. */
  lemma LiftAboveSubExp(m: nat, n: nat, e: Exp, rep: Exp)
    requires m <= n
    ensures LiftExpInExp(n, SubExpInExp(m, rep, e)) == SubExpInExp(m, LiftExpInExp(n, rep), LiftExpInExp(n + 1, e))
  {
    ExpLawHolds(ELiftSubAbove(m, n, rep), e);
  }

  /** Two successive substitutions may be exchanged. */
  lemma SubsExchange(m: nat, n: nat, c: Con, e: Exp, c1: Con, c2: Con, e1: Exp, e2: Exp)
    requires m <= n
    ensures SubConInCon(n, c2, SubConInCon(m, c1, c))
         == SubConInCon(m, SubConInCon(n, c2, c1), SubConInCon(n + 1, LiftConInCon(m, c2), c))
    ensures SubConInExp(n, c2, SubConInExp(m, c1, e))
         == SubConInExp(m, SubConInCon(n, c2, c1), SubConInExp(n + 1, LiftConInCon(m, c2), e))
    ensures SubExpInExp(n, e2, SubExpInExp(m, e1, e))
         == SubExpInExp(m, SubExpInExp(n, e2, e1), SubExpInExp(n + 1, LiftExpInExp(m, e2), e))
  {
    ConSubsExchange(m, n, c, e, c1, c2);
    ExpSubsExchange(m, n, e, e1, e2);
  }

  lemma ConSubsExchange(m: nat, n: nat, c: Con, e: Exp, c1: Con, c2: Con)
    requires m <= n
    ensures SubConInCon(n, c2, SubConInCon(m, c1, c))
         == SubConInCon(m, SubConInCon(n, c2, c1), SubConInCon(n + 1, LiftConInCon(m, c2), c))
    ensures SubConInExp(n, c2, SubConInExp(m, c1, e))
         == SubConInExp(m, SubConInCon(n, c2, c1), SubConInExp(n + 1, LiftConInCon(m, c2), e))
  {
    ConLawHolds(CSubSub(m, n, c1, c2), c);
    ExpLawHolds(Constructors(CSubSub(m, n, c1, c2)), e);
  }

  lemma ExpSubsExchange(m: nat, n: nat, e: Exp, e1: Exp, e2: Exp)
    requires m <= n
    ensures SubExpInExp(n, e2, SubExpInExp(m, e1, e))
         == SubExpInExp(m, SubExpInExp(n, e2, e1), SubExpInExp(n + 1, LiftExpInExp(m, e2), e))
  {
    ExpLawHolds(ESubSub(m, n, e1, e2), e);
  }

  /** Constructor operations and expression operations do not interfere: each constructor operation
      passes through an expression lift unchanged, and through an expression substitution by acting
      on the substituted expression too. */
  lemma SortsIndependent(m: nat, n: nat, rc: Con, re: Exp, e: Exp)
    ensures LiftConInExp(m, LiftExpInExp(n, e)) == LiftExpInExp(n, LiftConInExp(m, e))
    ensures SubConInExp(m, rc, LiftExpInExp(n, e)) == LiftExpInExp(n, SubConInExp(m, rc, e))
    ensures LiftConInExp(m, SubExpInExp(n, re, e)) == SubExpInExp(n, LiftConInExp(m, re), LiftConInExp(m, e))
    ensures SubConInExp(m, rc, SubExpInExp(n, re, e))
         == SubExpInExp(n, SubConInExp(m, rc, re), SubConInExp(m, rc, e))
  {
    ExpLawHolds(EConLift(LiftC(m), n), e);
    ExpLawHolds(EConLift(SubC(m, rc), n), e);
    ExpLawHolds(EConSub(LiftC(m), n, re), e);
    ExpLawHolds(EConSub(SubC(m, rc), n, re), e);
  }
}
