/** What lifting and substitution do, said once for all of the syntax: a term is a tree whose
    edges say how many constructor and expression variables they bind, and an operation changes
    the leaves that are indices and nothing else. */
module CoreTree {
  import opened CoreEnv

  // ---------------------------------------------------------------- trees with binders

  datatype Sort = OfCon | OfExp

  datatype Tree = Index(sort: Sort, i: int) | Node(shape: Shape, kids: Kids)

  /** The subterms of a node, from left to right, with the variables bound over each. */
  datatype Kids = End | Kid(cons: nat, exps: nat, t: Tree, more: Kids)

  /** What a node is besides its subterms. */
  datatype Shape =
    | OfTFun
    | OfTCFun(x: string, k: Kind)
    | OfTRecord
    | OfCNamed(n: int)
    | OfCFfi(m: string, s: string)
    | OfCApp
    | OfCAbs(x: string, k: Kind)
    | OfCKAbs(x: string)
    | OfCKApp(k: Kind)
    | OfTKFun(x: string)
    | OfCName(s: string)
    | OfCRecord(k: Kind)
    | OfCConcat
    | OfCMap(k1: Kind, k2: Kind)
    | OfCUnit
    | OfCTuple
    | OfCProj(i: int)
    | OfPConVar(n: int)
    | OfPConFfi(m: string, datatyp: string, params: seq<string>, con: string)
    | OfPVar(x: string)
    | OfPPrim(prim: int)
    | OfPCon
    | OfPRecord
    | OfFieldPat(x: string)
    | OfEPrim(prim: int)
    | OfENamed(n: int)
    | OfECon
    | OfEFfi(m: string, x: string)
    | OfEFfiApp(m: string, x: string)
    | OfEApp
    | OfEAbs(x: string)
    | OfECApp
    | OfECAbs(x: string, k: Kind)
    | OfEKAbs(x: string)
    | OfEKApp(k: Kind)
    | OfERecord
    | OfEField
    | OfEConcat
    | OfECut
    | OfECutMulti
    | OfECase
    | OfEWrite
    | OfEClosure(n: int)
    | OfELet(x: string)
    | OfEServerCall(n: int)
    | OfList

  // ---------------------------------------------------------------- terms as trees

  function Plain(t: Tree, more: Kids): Kids { Kid(0, 0, t, more) }

  function ConTree(c: Con): Tree {
    match c
    case TFun(dom, ran) => Node(OfTFun, Plain(ConTree(dom), Plain(ConTree(ran), End)))
    case TCFun(x, k, d) => Node(OfTCFun(x, k), Kid(1, 0, ConTree(d), End))
    case TRecord(d) => Node(OfTRecord, Plain(ConTree(d), End))
    case CRel(i) => Index(OfCon, i)
    case CNamed(n) => Node(OfCNamed(n), End)
    case CFfi(m, s) => Node(OfCFfi(m, s), End)
    case CApp(f, arg) => Node(OfCApp, Plain(ConTree(f), Plain(ConTree(arg), End)))
    case CAbs(x, k, d) => Node(OfCAbs(x, k), Kid(1, 0, ConTree(d), End))
    case CKAbs(x, d) => Node(OfCKAbs(x), Plain(ConTree(d), End))
    case CKApp(d, k) => Node(OfCKApp(k), Plain(ConTree(d), End))
    case TKFun(x, d) => Node(OfTKFun(x), Plain(ConTree(d), End))
    case CName(s) => Node(OfCName(s), End)
    case CRecord(k, xcs) => Node(OfCRecord(k), PairKids(xcs))
    case CConcat(c1, c2) => Node(OfCConcat, Plain(ConTree(c1), Plain(ConTree(c2), End)))
    case CMap(k1, k2) => Node(OfCMap(k1, k2), End)
    case CUnit => Node(OfCUnit, End)
    case CTuple(cs) => Node(OfCTuple, ConKids(cs))
    case CProj(d, i) => Node(OfCProj(i), Plain(ConTree(d), End))
  }

  function ConKids(cs: seq<Con>): Kids {
    if cs == [] then End else Plain(ConTree(cs[0]), ConKids(cs[1..]))
  }

  function PairKids(xcs: seq<ConField>): Kids {
    if xcs == [] then End else Plain(PairTree(xcs[0]), PairKids(xcs[1..]))
  }

  function PairTree(f: ConField): Tree {
    Node(OfList, Plain(ConTree(f.name), Plain(ConTree(f.c), End)))
  }

  function PatConTree(pc: PatCon): Tree {
    match pc
    case PConVar(n) => Node(OfPConVar(n), End)
    case PConFfi(m, datatyp, params, con, arg) =>
      Node(OfPConFfi(m, datatyp, params, con), if arg.Some? then Kid(|params|, 0, ConTree(arg.value), End) else End)
  }

  function PatTree(p: Pat): Tree {
    match p
    case PVar(x, t) => Node(OfPVar(x), Plain(ConTree(t), End))
    case PPrim(prim) => Node(OfPPrim(prim), End)
    case PCon(pc, args, po) =>
      Node(OfPCon, Plain(PatConTree(pc), Plain(Node(OfList, ConKids(args)),
                                               if po.Some? then Plain(PatTree(po.value), End) else End)))
    case PRecord(xps) => Node(OfPRecord, FieldPatKids(xps))
  }

  function FieldPatKids(xps: seq<FieldPat>): Kids {
    if xps == [] then End else Plain(FieldPatTree(xps[0]), FieldPatKids(xps[1..]))
  }

  function FieldPatTree(f: FieldPat): Tree {
    Node(OfFieldPat(f.x), Plain(PatTree(f.p), Plain(ConTree(f.t), End)))
  }

  function ExpTree(e: Exp): Tree {
    match e
    case EPrim(prim) => Node(OfEPrim(prim), End)
    case ERel(i) => Index(OfExp, i)
    case ENamed(n) => Node(OfENamed(n), End)
    case ECon(pc, args, eo) =>
      Node(OfECon, Plain(PatConTree(pc), Plain(Node(OfList, ConKids(args)),
                                               if eo.Some? then Plain(ExpTree(eo.value), End) else End)))
    case EFfi(m, x) => Node(OfEFfi(m, x), End)
    case EFfiApp(m, x, ets) => Node(OfEFfiApp(m, x), TypedKids(ets))
    case EApp(e1, e2) => Node(OfEApp, Plain(ExpTree(e1), Plain(ExpTree(e2), End)))
    case EAbs(x, dom, ran, d) =>
      Node(OfEAbs(x), Plain(ConTree(dom), Plain(ConTree(ran), Kid(0, 1, ExpTree(d), End))))
    case ECApp(d, c) => Node(OfECApp, Plain(ExpTree(d), Plain(ConTree(c), End)))
    case ECAbs(x, k, d) => Node(OfECAbs(x, k), Kid(1, 0, ExpTree(d), End))
    case EKAbs(x, d) => Node(OfEKAbs(x), Plain(ExpTree(d), End))
    case EKApp(d, k) => Node(OfEKApp(k), Plain(ExpTree(d), End))
    case ERecord(xes) => Node(OfERecord, FieldExpKids(xes))
    case EField(d, c, field, rest) =>
      Node(OfEField, Plain(ExpTree(d), Plain(ConTree(c), Plain(ConTree(field), Plain(ConTree(rest), End)))))
    case EConcat(e1, c1, e2, c2) =>
      Node(OfEConcat, Plain(ExpTree(e1), Plain(ConTree(c1), Plain(ExpTree(e2), Plain(ConTree(c2), End)))))
    case ECut(d, c, field, rest) =>
      Node(OfECut, Plain(ExpTree(d), Plain(ConTree(c), Plain(ConTree(field), Plain(ConTree(rest), End)))))
    case ECutMulti(d, c, rest) => Node(OfECutMulti, Plain(ExpTree(d), Plain(ConTree(c), Plain(ConTree(rest), End))))
    case ECase(d, pes, disc, result) =>
      Node(OfECase, Plain(ExpTree(d), Plain(Node(OfList, BranchKids(pes)),
                                            Plain(ConTree(disc), Plain(ConTree(result), End)))))
    case EWrite(d) => Node(OfEWrite, Plain(ExpTree(d), End))
    case EClosure(n, es) => Node(OfEClosure(n), ExpKids(es))
    case ELet(x, t, e1, e2) =>
      Node(OfELet(x), Plain(ConTree(t), Plain(ExpTree(e1), Kid(0, 1, ExpTree(e2), End))))
    case EServerCall(n, es, t) => Node(OfEServerCall(n), Plain(Node(OfList, ExpKids(es)), Plain(ConTree(t), End)))
  }

  function ExpKids(es: seq<Exp>): Kids {
    if es == [] then End else Plain(ExpTree(es[0]), ExpKids(es[1..]))
  }

  function TypedKids(ets: seq<Typed>): Kids {
    if ets == [] then End else Plain(TypedTree(ets[0]), TypedKids(ets[1..]))
  }

  function TypedTree(et: Typed): Tree {
    Node(OfList, Plain(ExpTree(et.e), Plain(ConTree(et.t), End)))
  }

  function FieldExpKids(xes: seq<FieldExp>): Kids {
    if xes == [] then End else Plain(FieldExpTree(xes[0]), FieldExpKids(xes[1..]))
  }

  function FieldExpTree(f: FieldExp): Tree {
    Node(OfList, Plain(ConTree(f.name), Plain(ExpTree(f.e), Plain(ConTree(f.t), End))))
  }

  function BranchKids(pes: seq<Branch>): Kids {
    if pes == [] then End else Plain(BranchTree(pes[0]), BranchKids(pes[1..]))
  }

  /** The body of a branch is under one expression variable for every variable of the pattern. */
  function BranchTree(b: Branch): Tree {
    Node(OfList, Plain(PatTree(b.p), Kid(0, PatBindsN(b.p), ExpTree(b.e), End)))
  }

  // ---------------------------------------------------------------- nothing is lost

  lemma {:induction false} SameCon(c: Con, d: Con)
    requires ConTree(c) == ConTree(d)
    ensures c == d
    decreases c
  {
    match c {
      case TFun(c1, c2) => SameCon(c1, d.dom); SameCon(c2, d.ran);
      case TCFun(_, _, b) => SameCon(b, d.c);
      case TRecord(b) => SameCon(b, d.c);
      case CApp(c1, c2) => SameCon(c1, d.f); SameCon(c2, d.arg);
      case CAbs(_, _, b) => SameCon(b, d.c);
      case CKAbs(_, b) => SameCon(b, d.c);
      case CKApp(b, _) => SameCon(b, d.c);
      case TKFun(_, b) => SameCon(b, d.c);
      case CRecord(_, xcs) => SamePairs(xcs, d.xcs);
      case CConcat(c1, c2) => SameCon(c1, d.c1); SameCon(c2, d.c2);
      case CTuple(cs) => SameCons(cs, d.cs);
      case CProj(b, _) => SameCon(b, d.c);
      case _ =>
    }
  }

  lemma {:induction false} SameCons(cs: seq<Con>, ds: seq<Con>)
    requires ConKids(cs) == ConKids(ds)
    ensures cs == ds
    decreases cs
  {
    if cs != [] {
      SameCon(cs[0], ds[0]);
      SameCons(cs[1..], ds[1..]);
      assert cs == [cs[0]] + cs[1..] && ds == [ds[0]] + ds[1..];
    }
  }

  lemma {:induction false} SamePairs(cs: seq<ConField>, ds: seq<ConField>)
    requires PairKids(cs) == PairKids(ds)
    ensures cs == ds
    decreases cs
  {
    if cs != [] {
      SamePair(cs[0], ds[0]);
      SamePairs(cs[1..], ds[1..]);
      assert cs == [cs[0]] + cs[1..] && ds == [ds[0]] + ds[1..];
    }
  }

  lemma {:induction false} SamePair(f: ConField, g: ConField)
    requires PairTree(f) == PairTree(g)
    ensures f == g
    decreases f
  {
    SameCon(f.name, g.name);
    SameCon(f.c, g.c);
  }

  lemma SamePatCon(a: PatCon, b: PatCon)
    requires PatConTree(a) == PatConTree(b)
    ensures a == b
  {
    if a.PConFfi? && a.arg.Some? {
      SameCon(a.arg.value, b.arg.value);
    }
  }

  lemma {:induction false} SamePat(p: Pat, q: Pat)
    requires PatTree(p) == PatTree(q)
    ensures p == q
    decreases p
  {
    match p {
      case PVar(_, t) => SameCon(t, q.t);
      case PCon(pc, args, po) =>
        SamePatCon(pc, q.pc);
        SameCons(args, q.args);
        if po.Some? { SamePat(po.value, q.po.value); }
      case PRecord(xps) => SameFieldPats(xps, q.xps);
      case _ =>
    }
  }

  lemma {:induction false} SameFieldPats(a: seq<FieldPat>, b: seq<FieldPat>)
    requires FieldPatKids(a) == FieldPatKids(b)
    ensures a == b
    decreases a
  {
    if a != [] {
      SameFieldPat(a[0], b[0]);
      SameFieldPats(a[1..], b[1..]);
      assert a == [a[0]] + a[1..] && b == [b[0]] + b[1..];
    }
  }

  lemma {:induction false} SameFieldPat(f: FieldPat, g: FieldPat)
    requires FieldPatTree(f) == FieldPatTree(g)
    ensures f == g
    decreases f
  {
    SamePat(f.p, g.p);
    SameCon(f.t, g.t);
  }

  lemma {:induction false} SameExp(e: Exp, d: Exp)
    requires ExpTree(e) == ExpTree(d)
    ensures e == d
    decreases e, 1
  {
    match e {
      case ECon(_, _, _) => SameScoped(e, d);
      case EAbs(_, _, _, _) => SameScoped(e, d);
      case ECAbs(_, _, _) => SameScoped(e, d);
      case ELet(_, _, _, _) => SameScoped(e, d);
      case EServerCall(_, _, _) => SameScoped(e, d);
      case EFfiApp(_, _, ets) => SameTypeds(ets, d.ets);
      case EApp(e1, e2) => SameExp(e1, d.e1); SameExp(e2, d.e2);
      case ECApp(b, c) => SameExp(b, d.e); SameCon(c, d.c);
      case EKAbs(_, b) => SameExp(b, d.e);
      case EKApp(b, _) => SameExp(b, d.e);
      case ERecord(xes) => SameFieldExps(xes, d.xes);
      case EField(_, _, _, _) => SameRecord(e, d);
      case EConcat(_, _, _, _) => SameRecord(e, d);
      case ECut(_, _, _, _) => SameRecord(e, d);
      case ECutMulti(_, _, _) => SameRecord(e, d);
      case ECase(_, _, _, _) => SameRecord(e, d);
      case EWrite(b) => SameExp(b, d.e);
      case EClosure(_, es) => SameExps(es, d.es);
      case _ =>
    }
  }

  lemma {:induction false} SameScoped(e: Exp, d: Exp)
    requires e.ECon? || e.EAbs? || e.ECAbs? || e.ELet? || e.EServerCall?
    requires ExpTree(e) == ExpTree(d)
    ensures e == d
    decreases e, 0
  {
    match e {
      case ECon(pc, args, eo) =>
        SamePatCon(pc, d.pc);
        SameCons(args, d.args);
        if eo.Some? { SameExp(eo.value, d.eo.value); }
      case EAbs(_, dom, ran, b) => SameCon(dom, d.dom); SameCon(ran, d.ran); SameExp(b, d.e);
      case ECAbs(_, _, b) => SameExp(b, d.e);
      case ELet(_, t, e1, e2) => SameCon(t, d.t); SameExp(e1, d.e1); SameExp(e2, d.e2);
      case EServerCall(_, es, t) => SameExps(es, d.es); SameCon(t, d.t);
    }
  }

  lemma {:induction false} SameRecord(e: Exp, d: Exp)
    requires e.EField? || e.EConcat? || e.ECut? || e.ECutMulti? || e.ECase?
    requires ExpTree(e) == ExpTree(d)
    ensures e == d
    decreases e, 0
  {
    match e {
      case EField(b, c, field, rest) =>
        SameExp(b, d.e); SameCon(c, d.c); SameCon(field, d.field); SameCon(rest, d.rest);
      case EConcat(e1, c1, e2, c2) => SameExp(e1, d.e1); SameCon(c1, d.c1); SameExp(e2, d.e2); SameCon(c2, d.c2);
      case ECut(b, c, field, rest) =>
        SameExp(b, d.e); SameCon(c, d.c); SameCon(field, d.field); SameCon(rest, d.rest);
      case ECutMulti(b, c, rest) => SameExp(b, d.e); SameCon(c, d.c); SameCon(rest, d.rest);
      case ECase(b, pes, disc, result) =>
        SameExp(b, d.e); SameBranches(pes, d.pes); SameCon(disc, d.disc); SameCon(result, d.result);
    }
  }

  lemma {:induction false} SameExps(a: seq<Exp>, b: seq<Exp>)
    requires ExpKids(a) == ExpKids(b)
    ensures a == b
    decreases a
  {
    if a != [] {
      SameExp(a[0], b[0]);
      SameExps(a[1..], b[1..]);
      assert a == [a[0]] + a[1..] && b == [b[0]] + b[1..];
    }
  }

  lemma {:induction false} SameTypeds(a: seq<Typed>, b: seq<Typed>)
    requires TypedKids(a) == TypedKids(b)
    ensures a == b
    decreases a
  {
    if a != [] {
      SameTyped(a[0], b[0]);
      SameTypeds(a[1..], b[1..]);
      assert a == [a[0]] + a[1..] && b == [b[0]] + b[1..];
    }
  }

  lemma {:induction false} SameTyped(a: Typed, b: Typed)
    requires TypedTree(a) == TypedTree(b)
    ensures a == b
    decreases a
  {
    SameExp(a.e, b.e);
    SameCon(a.t, b.t);
  }

  lemma {:induction false} SameFieldExps(a: seq<FieldExp>, b: seq<FieldExp>)
    requires FieldExpKids(a) == FieldExpKids(b)
    ensures a == b
    decreases a
  {
    if a != [] {
      SameFieldExp(a[0], b[0]);
      SameFieldExps(a[1..], b[1..]);
      assert a == [a[0]] + a[1..] && b == [b[0]] + b[1..];
    }
  }

  lemma {:induction false} SameFieldExp(a: FieldExp, b: FieldExp)
    requires FieldExpTree(a) == FieldExpTree(b)
    ensures a == b
    decreases a
  {
    SameCon(a.name, b.name);
    SameExp(a.e, b.e);
    SameCon(a.t, b.t);
  }

  lemma {:induction false} SameBranches(a: seq<Branch>, b: seq<Branch>)
    requires BranchKids(a) == BranchKids(b)
    ensures a == b
    decreases a
  {
    if a != [] {
      SameBranch(a[0], b[0]);
      SameBranches(a[1..], b[1..]);
      assert a == [a[0]] + a[1..] && b == [b[0]] + b[1..];
    }
  }

  lemma {:induction false} SameBranch(a: Branch, b: Branch)
    requires BranchTree(a) == BranchTree(b)
    ensures a == b
    decreases a
  {
    SamePat(a.p, b.p);
    SameExp(a.e, b.e);
  }

  // ---------------------------------------------------------------- operations on trees

  /** Lifting or substituting indices of one sort; `Keep` changes nothing. */
  datatype TreeOp =
    | Lift(sort: Sort, bound: nat)
    | Subst(sort: Sort, xn: nat, rep: Tree)
    | Keep

  function OpRank(op: TreeOp): nat { if op.Subst? then 1 else 0 }

  /** Lifting skips the indices below the bound; substitution puts the replacement at one index
      and closes the gap above it. */
  function AtIndex(op: TreeOp, sort: Sort, i: int): Tree {
    match op
    case Lift(s, bound) => if s == sort && i >= bound then Index(sort, i + 1) else Index(sort, i)
    case Subst(s, xn, rep) =>
      if s != sort || i < xn then Index(sort, i) else if i == xn then rep else Index(sort, i - 1)
    case Keep => Index(sort, i)
  }

  /** Under a variable of either sort: its own sort counts one more, and the replacement is lifted
      past the variable. */
  function UnderOne(op: TreeOp, sort: Sort): (r: TreeOp)
    ensures OpRank(r) == OpRank(op)
    decreases OpRank(op), 0
  {
    match op
    case Lift(s, bound) => if s == sort then Lift(s, bound + 1) else op
    case Subst(s, xn, rep) => Subst(s, if s == sort then xn + 1 else xn, Apply(Lift(sort, 0), rep))
    case Keep => Keep
  }

  function Under(op: TreeOp, cons: nat, exps: nat): (r: TreeOp)
    ensures OpRank(r) == OpRank(op)
    decreases OpRank(op), 1, cons + exps
  {
    if cons > 0 then Under(UnderOne(op, OfCon), cons - 1, exps)
    else if exps > 0 then Under(UnderOne(op, OfExp), cons, exps - 1)
    else op
  }

  function Apply(op: TreeOp, t: Tree): Tree
    decreases OpRank(op), 2, t
  {
    match t
    case Index(sort, i) => AtIndex(op, sort, i)
    case Node(shape, kids) => Node(shape, ApplyKids(op, kids))
  }

  function ApplyKids(op: TreeOp, kids: Kids): Kids
    decreases OpRank(op), 2, kids
  {
    match kids
    case End => End
    case Kid(cons, exps, t, more) => Kid(cons, exps, Apply(Under(op, cons, exps), t), ApplyKids(op, more))
  }

  /** The subterms of a node, however many it has. */
  lemma Unfolded(op: TreeOp)
    ensures Under(op, 0, 0) == op
    ensures forall cons: nat, exps: nat, t: Tree, more: Kids {:trigger ApplyKids(op, Kid(cons, exps, t, more))} ::
              ApplyKids(op, Kid(cons, exps, t, more))
              == Kid(cons, exps, Apply(Under(op, cons, exps), t), ApplyKids(op, more))
  {
  }

  // ---------------------------------------------------------------- trees without expression indices

  predicate NoExps(t: Tree) {
    match t
    case Index(sort, _) => sort == OfCon
    case Node(_, kids) => NoExpsKids(kids)
  }

  predicate NoExpsKids(kids: Kids) {
    kids.Kid? ==> NoExps(kids.t) && NoExpsKids(kids.more)
  }

  /** Operations that have nothing to do there. */
  predicate Idle(op: TreeOp) {
    op.Keep? || op.sort == OfExp
  }

  lemma {:induction false} UnderIdle(op: TreeOp, cons: nat, exps: nat)
    requires Idle(op)
    ensures Idle(Under(op, cons, exps))
    decreases cons + exps
  {
    if cons > 0 {
      UnderIdle(UnderOne(op, OfCon), cons - 1, exps);
    } else if exps > 0 {
      UnderIdle(UnderOne(op, OfExp), cons, exps - 1);
    }
  }

  lemma {:induction false} ApplyIdle(op: TreeOp, t: Tree)
    requires Idle(op) && NoExps(t)
    ensures Apply(op, t) == t
    decreases t
  {
    if t.Node? {
      ApplyIdleKids(op, t.kids);
    }
  }

  lemma {:induction false} ApplyIdleKids(op: TreeOp, kids: Kids)
    requires Idle(op) && NoExpsKids(kids)
    ensures ApplyKids(op, kids) == kids
    decreases kids
  {
    if kids.Kid? {
      UnderIdle(op, kids.cons, kids.exps);
      ApplyIdle(Under(op, kids.cons, kids.exps), kids.t);
      ApplyIdleKids(op, kids.more);
    }
  }

  lemma UnfoldedNoExps()
    ensures forall cons: nat, exps: nat, t: Tree, more: Kids {:trigger NoExpsKids(Kid(cons, exps, t, more))} ::
              NoExpsKids(Kid(cons, exps, t, more)) <==> NoExps(t) && NoExpsKids(more)
  {
  }

  lemma {:induction false} ConNoExps(c: Con)
    ensures NoExps(ConTree(c))
  {
    UnfoldedNoExps();
    match c {
      case TFun(c1, c2) => ConNoExps(c1); ConNoExps(c2);
      case TCFun(_, _, d) => ConNoExps(d);
      case TRecord(d) => ConNoExps(d);
      case CApp(c1, c2) => ConNoExps(c1); ConNoExps(c2);
      case CAbs(_, _, d) => ConNoExps(d);
      case CKAbs(_, d) => ConNoExps(d);
      case CKApp(d, _) => ConNoExps(d);
      case TKFun(_, d) => ConNoExps(d);
      case CRecord(_, xcs) => PairsNoExps(xcs);
      case CConcat(c1, c2) => ConNoExps(c1); ConNoExps(c2);
      case CTuple(cs) => ConsNoExps(cs);
      case CProj(d, _) => ConNoExps(d);
      case _ =>
    }
  }

  lemma {:induction false} ConsNoExps(cs: seq<Con>)
    ensures NoExpsKids(ConKids(cs))
  {
    if cs != [] {
      ConNoExps(cs[0]);
      ConsNoExps(cs[1..]);
    }
  }

  lemma {:induction false} PairsNoExps(xcs: seq<ConField>)
    ensures NoExpsKids(PairKids(xcs))
  {
    if xcs != [] {
      PairNoExps(xcs[0]);
      PairsNoExps(xcs[1..]);
    }
  }

  lemma {:induction false} PairNoExps(f: ConField)
    ensures NoExps(PairTree(f))
  {
    UnfoldedNoExps();
    ConNoExps(f.name);
    ConNoExps(f.c);
  }

  // ---------------------------------------------------------------- the operations of the source

  function OfConOp(op: ConOp): TreeOp {
    match op
    case LiftC(bound) => Lift(OfCon, bound)
    case SubC(xn, rep) => Subst(OfCon, xn, ConTree(rep))
    case KeepC => Keep
  }

  function OfExpOp(op: ExpOp): TreeOp {
    match op
    case InCon(cop) => OfConOp(cop)
    case LiftE(bound) => Lift(OfExp, bound)
    case SubE(xn, rep) => Subst(OfExp, xn, ExpTree(rep))
  }

  /** Operations on constructors are operations on their trees. */
  lemma {:induction false} MapConIs(op: ConOp, c: Con)
    ensures ConTree(MapCon(op, c)) == Apply(OfConOp(op), ConTree(c))
    decreases ConOpRank(op), 1, c
  {
    Unfolded(OfConOp(op));
    match c {
      case TFun(c1, c2) => MapConIs(op, c1); MapConIs(op, c2);
      case TCFun(_, _, d) => UnderCIs(op); MapConIs(UnderC(op), d);
      case TRecord(d) => MapConIs(op, d);
      case CApp(c1, c2) => MapConIs(op, c1); MapConIs(op, c2);
      case CAbs(_, _, d) => UnderCIs(op); MapConIs(UnderC(op), d);
      case CKAbs(_, d) => MapConIs(op, d);
      case CKApp(d, _) => MapConIs(op, d);
      case TKFun(_, d) => MapConIs(op, d);
      case CRecord(_, xcs) => MapPairsIs(op, xcs);
      case CConcat(c1, c2) => MapConIs(op, c1); MapConIs(op, c2);
      case CTuple(cs) => MapConsIs(op, cs);
      case CProj(d, _) => MapConIs(op, d);
      case _ =>
    }
  }

  lemma UnderCIs(op: ConOp)
    ensures OfConOp(UnderC(op)) == UnderOne(OfConOp(op), OfCon) == Under(OfConOp(op), 1, 0)
    decreases ConOpRank(op), 0
  {
    if op.SubC? {
      MapConIs(LiftC(0), op.rep);
    }
    assert Under(UnderOne(OfConOp(op), OfCon), 0, 0) == UnderOne(OfConOp(op), OfCon);
  }

  lemma {:induction false} MapConsIs(op: ConOp, cs: seq<Con>)
    ensures ConKids(MapCons(op, cs)) == ApplyKids(OfConOp(op), ConKids(cs))
    decreases ConOpRank(op), 1, cs
  {
    if cs != [] {
      MapConIs(op, cs[0]);
      MapConsIs(op, cs[1..]);
    }
  }

  lemma {:induction false} MapPairsIs(op: ConOp, xcs: seq<ConField>)
    ensures PairKids(MapPairs(op, xcs)) == ApplyKids(OfConOp(op), PairKids(xcs))
    decreases ConOpRank(op), 1, xcs
  {
    if xcs != [] {
      MapFieldIs(op, xcs[0]);
      MapPairsIs(op, xcs[1..]);
    }
  }

  lemma {:induction false} MapFieldIs(op: ConOp, f: ConField)
    ensures PairTree(MapField(op, f)) == Apply(OfConOp(op), PairTree(f))
    decreases ConOpRank(op), 1, f
  {
    Unfolded(OfConOp(op));
    MapConIs(op, f.name);
    MapConIs(op, f.c);
  }

  lemma {:induction false} UnderParamsIs(op: ConOp, params: seq<string>)
    ensures OfConOp(UnderParams(op, params)) == Under(OfConOp(op), |params|, 0)
    decreases |params|
  {
    if params != [] {
      UnderCIs(op);
      UnderParamsIs(UnderC(op), params[1..]);
    }
  }

  lemma MapPatConIs(op: ConOp, pc: PatCon)
    ensures PatConTree(MapPatCon(op, pc)) == Apply(OfConOp(op), PatConTree(pc))
  {
    if pc.PConFfi? && pc.arg.Some? {
      Unfolded(OfConOp(op));
      UnderParamsIs(op, pc.params);
      MapConIs(UnderParams(op, pc.params), pc.arg.value);
    }
  }

  lemma {:induction false} MapPatIs(op: ConOp, p: Pat)
    ensures PatTree(MapPat(op, p)) == Apply(OfConOp(op), PatTree(p))
    decreases p
  {
    Unfolded(OfConOp(op));
    match p {
      case PVar(_, t) => MapConIs(op, t);
      case PCon(pc, args, po) =>
        MapPatConIs(op, pc);
        MapConsIs(op, args);
        if po.Some? { MapPatIs(op, po.value); }
      case PRecord(xps) => MapFieldPatsIs(op, xps);
      case _ =>
    }
  }

  lemma {:induction false} MapFieldPatsIs(op: ConOp, xps: seq<FieldPat>)
    ensures FieldPatKids(MapFieldPats(op, xps)) == ApplyKids(OfConOp(op), FieldPatKids(xps))
    decreases xps
  {
    if xps != [] {
      MapFieldPatIs(op, xps[0]);
      MapFieldPatsIs(op, xps[1..]);
    }
  }

  lemma {:induction false} MapFieldPatIs(op: ConOp, f: FieldPat)
    ensures FieldPatTree(MapFieldPat(op, f)) == Apply(OfConOp(op), FieldPatTree(f))
    decreases f
  {
    Unfolded(OfConOp(op));
    MapPatIs(op, f.p);
    MapConIs(op, f.t);
  }

  // ---------------------------------------------------------------- constructors under expression operations

  lemma ConsIdle(op: TreeOp, cs: seq<Con>)
    requires Idle(op)
    ensures ApplyKids(op, ConKids(cs)) == ConKids(cs)
  {
    ConsNoExps(cs);
    ApplyIdleKids(op, ConKids(cs));
  }

  lemma ConIdle(op: TreeOp, c: Con)
    requires Idle(op)
    ensures Apply(op, ConTree(c)) == ConTree(c)
  {
    ConNoExps(c);
    ApplyIdle(op, ConTree(c));
  }

  lemma PatConNoExps(pc: PatCon)
    ensures NoExps(PatConTree(pc))
  {
    if pc.PConFfi? && pc.arg.Some? {
      ConNoExps(pc.arg.value);
    }
  }

  lemma {:induction false} PatNoExps(p: Pat)
    ensures NoExps(PatTree(p))
    decreases p
  {
    UnfoldedNoExps();
    match p {
      case PVar(_, t) => ConNoExps(t);
      case PCon(pc, args, po) =>
        PatConNoExps(pc);
        ConsNoExps(args);
        if po.Some? { PatNoExps(po.value); }
      case PRecord(xps) => FieldPatsNoExps(xps);
      case _ =>
    }
  }

  lemma {:induction false} FieldPatsNoExps(xps: seq<FieldPat>)
    ensures NoExpsKids(FieldPatKids(xps))
    decreases xps
  {
    if xps != [] {
      FieldPatNoExps(xps[0]);
      FieldPatsNoExps(xps[1..]);
    }
  }

  lemma {:induction false} FieldPatNoExps(f: FieldPat)
    ensures NoExps(FieldPatTree(f))
    decreases f
  {
    UnfoldedNoExps();
    PatNoExps(f.p);
    ConNoExps(f.t);
  }

  lemma ConIs(op: ExpOp, c: Con)
    ensures ConTree(MapCon(ConPart(op), c)) == Apply(OfExpOp(op), ConTree(c))
  {
    if op.InCon? {
      MapConIs(op.op, c);
    } else {
      KeepCon(c);
      ConIdle(OfExpOp(op), c);
    }
  }

  lemma ConsIs(op: ExpOp, cs: seq<Con>)
    ensures ConKids(MapCons(ConPart(op), cs)) == ApplyKids(OfExpOp(op), ConKids(cs))
  {
    if op.InCon? {
      MapConsIs(op.op, cs);
    } else {
      KeepCons(cs);
      ConsIdle(OfExpOp(op), cs);
    }
  }

  lemma PatConIs(op: ExpOp, pc: PatCon)
    ensures PatConTree(MapPatCon(ConPart(op), pc)) == Apply(OfExpOp(op), PatConTree(pc))
  {
    if op.InCon? {
      MapPatConIs(op.op, pc);
    } else {
      KeepPatCon(pc);
      PatConNoExps(pc);
      ApplyIdle(OfExpOp(op), PatConTree(pc));
    }
  }

  lemma PatIs(op: ExpOp, p: Pat)
    ensures PatTree(MapPat(ConPart(op), p)) == Apply(OfExpOp(op), PatTree(p))
  {
    if op.InCon? {
      MapPatIs(op.op, p);
    } else {
      KeepPat(p);
      PatNoExps(p);
      ApplyIdle(OfExpOp(op), PatTree(p));
    }
  }

  // ---------------------------------------------------------------- expressions

  lemma UnderExpIs(op: ExpOp)
    ensures OfExpOp(EUnderE(op)) == UnderOne(OfExpOp(op), OfExp) == Under(OfExpOp(op), 0, 1)
    decreases ExpOpRank(op), 0
  {
    match op {
      case SubE(_, rep) => MapExpIs(LiftE(0), rep);
      case InCon(cop) => if cop.SubC? { ConIdle(Lift(OfExp, 0), cop.rep); }
      case _ =>
    }
    assert Under(UnderOne(OfExpOp(op), OfExp), 0, 0) == UnderOne(OfExpOp(op), OfExp);
  }

  lemma UnderConIs(op: ExpOp)
    ensures OfExpOp(EUnderC(op)) == UnderOne(OfExpOp(op), OfCon) == Under(OfExpOp(op), 1, 0)
    decreases ExpOpRank(op), 0
  {
    match op {
      case SubE(_, rep) => MapExpIs(InCon(LiftC(0)), rep);
      case InCon(cop) => UnderCIs(cop);
      case _ =>
    }
    assert Under(UnderOne(OfExpOp(op), OfCon), 0, 0) == UnderOne(OfExpOp(op), OfCon);
  }

  lemma {:induction false} UnderExpsIs(op: ExpOp, k: nat)
    ensures OfExpOp(EUnderN(op, k)) == Under(OfExpOp(op), 0, k)
    decreases ExpOpRank(op), 1, k
  {
    if k > 0 {
      UnderExpIs(op);
      UnderExpsIs(EUnderE(op), k - 1);
    }
  }

  /** Lifting and substitution in an expression are lifting and substitution in its tree. */
  lemma {:induction false} MapExpIs(op: ExpOp, e: Exp)
    ensures ExpTree(MapExp(op, e)) == Apply(OfExpOp(op), ExpTree(e))
    decreases ExpOpRank(op), 2, e, 1
  {
    Unfolded(OfExpOp(op));
    match e {
      case ECon(_, _, _) => MapScopedIs(op, e);
      case EAbs(_, _, _, _) => MapScopedIs(op, e);
      case ECAbs(_, _, _) => MapScopedIs(op, e);
      case ELet(_, _, _, _) => MapScopedIs(op, e);
      case EFfiApp(_, _, ets) => MapTypedsIs(op, ets);
      case EApp(e1, e2) => MapExpIs(op, e1); MapExpIs(op, e2);
      case ECApp(d, c) => MapExpIs(op, d); ConIs(op, c);
      case EKAbs(_, d) => MapExpIs(op, d);
      case EKApp(d, _) => MapExpIs(op, d);
      case ERecord(xes) => MapFieldExpsIs(op, xes);
      case EField(_, _, _, _) => MapRecordIs(op, e);
      case EConcat(_, _, _, _) => MapRecordIs(op, e);
      case ECut(_, _, _, _) => MapRecordIs(op, e);
      case ECutMulti(_, _, _) => MapRecordIs(op, e);
      case ECase(_, _, _, _) => MapRecordIs(op, e);
      case EWrite(d) => MapExpIs(op, d);
      case EClosure(_, es) => MapExpsIs(op, es);
      case EServerCall(_, es, t) => MapExpsIs(op, es); ConIs(op, t);
      case _ =>
    }
  }

  lemma {:induction false} MapScopedIs(op: ExpOp, e: Exp)
    requires e.ECon? || e.EAbs? || e.ECAbs? || e.ELet?
    ensures ExpTree(MapExp(op, e)) == Apply(OfExpOp(op), ExpTree(e))
    decreases ExpOpRank(op), 2, e, 0
  {
    Unfolded(OfExpOp(op));
    match e {
      case ECon(pc, args, eo) =>
        PatConIs(op, pc);
        ConsIs(op, args);
        if eo.Some? { MapExpIs(op, eo.value); }
      case EAbs(_, dom, ran, d) => ConIs(op, dom); ConIs(op, ran); UnderExpIs(op); MapExpIs(EUnderE(op), d);
      case ECAbs(_, _, d) => UnderConIs(op); MapExpIs(EUnderC(op), d);
      case ELet(_, t, e1, e2) => ConIs(op, t); MapExpIs(op, e1); UnderExpIs(op); MapExpIs(EUnderE(op), e2);
    }
  }

  lemma {:induction false} MapRecordIs(op: ExpOp, e: Exp)
    requires e.EField? || e.EConcat? || e.ECut? || e.ECutMulti? || e.ECase?
    ensures ExpTree(MapExp(op, e)) == Apply(OfExpOp(op), ExpTree(e))
    decreases ExpOpRank(op), 2, e, 0
  {
    Unfolded(OfExpOp(op));
    match e {
      case EField(d, c, field, rest) => MapExpIs(op, d); ConIs(op, c); ConIs(op, field); ConIs(op, rest);
      case EConcat(e1, c1, e2, c2) => MapExpIs(op, e1); ConIs(op, c1); MapExpIs(op, e2); ConIs(op, c2);
      case ECut(d, c, field, rest) => MapExpIs(op, d); ConIs(op, c); ConIs(op, field); ConIs(op, rest);
      case ECutMulti(d, c, rest) => MapExpIs(op, d); ConIs(op, c); ConIs(op, rest);
      case ECase(d, pes, disc, result) =>
        MapExpIs(op, d); MapBranchesIs(op, pes); ConIs(op, disc); ConIs(op, result);
    }
  }

  lemma {:induction false} MapExpsIs(op: ExpOp, es: seq<Exp>)
    ensures ExpKids(MapExps(op, es)) == ApplyKids(OfExpOp(op), ExpKids(es))
    decreases ExpOpRank(op), 2, es
  {
    if es != [] {
      MapExpIs(op, es[0]);
      MapExpsIs(op, es[1..]);
    }
  }

  lemma {:induction false} MapTypedsIs(op: ExpOp, es: seq<Typed>)
    ensures TypedKids(MapTypeds(op, es)) == ApplyKids(OfExpOp(op), TypedKids(es))
    decreases ExpOpRank(op), 2, es
  {
    if es != [] {
      MapTypedIs(op, es[0]);
      MapTypedsIs(op, es[1..]);
    }
  }

  lemma {:induction false} MapTypedIs(op: ExpOp, et: Typed)
    ensures TypedTree(MapTyped(op, et)) == Apply(OfExpOp(op), TypedTree(et))
    decreases ExpOpRank(op), 2, et
  {
    Unfolded(OfExpOp(op));
    MapExpIs(op, et.e);
    ConIs(op, et.t);
  }

  lemma {:induction false} MapFieldExpsIs(op: ExpOp, es: seq<FieldExp>)
    ensures FieldExpKids(MapFieldExps(op, es)) == ApplyKids(OfExpOp(op), FieldExpKids(es))
    decreases ExpOpRank(op), 2, es
  {
    if es != [] {
      MapFieldExpIs(op, es[0]);
      MapFieldExpsIs(op, es[1..]);
    }
  }

  lemma {:induction false} MapFieldExpIs(op: ExpOp, f: FieldExp)
    ensures FieldExpTree(MapFieldExp(op, f)) == Apply(OfExpOp(op), FieldExpTree(f))
    decreases ExpOpRank(op), 2, f
  {
    Unfolded(OfExpOp(op));
    ConIs(op, f.name);
    MapExpIs(op, f.e);
    ConIs(op, f.t);
  }

  lemma {:induction false} MapBranchesIs(op: ExpOp, es: seq<Branch>)
    ensures BranchKids(MapBranches(op, es)) == ApplyKids(OfExpOp(op), BranchKids(es))
    decreases ExpOpRank(op), 2, es
  {
    if es != [] {
      MapBranchIs(op, es[0]);
      MapBranchesIs(op, es[1..]);
    }
  }

  lemma {:induction false} MapBranchIs(op: ExpOp, b: Branch)
    ensures BranchTree(MapBranch(op, b)) == Apply(OfExpOp(op), BranchTree(b))
    decreases ExpOpRank(op), 2, b
  {
    var p', k := MapPat(ConPart(op), b.p), PatBindsN(b.p);
    Unfolded(OfExpOp(op));
    PatIs(op, b.p);
    MapPatBinds(ConPart(op), b.p);
    PatScope(op, p');
    UnderNRank(op, k);
    UnderExpsIs(op, k);
    MapExpIs(EUnderN(op, k), b.e);
  }

  lemma {:induction false} UnderNRank(op: ExpOp, k: nat)
    ensures ExpOpRank(EUnderN(op, k)) == ExpOpRank(op)
    decreases k
  {
    if k > 0 {
      UnderNRank(EUnderE(op), k - 1);
    }
  }

  // ---------------------------------------------------------------- free indices

  function BoundOf(sort: Sort, cons: nat, exps: nat): nat { if sort == OfCon then cons else exps }

  /** Whether the variable `i` places outside the tree is mentioned in it. */
  predicate Free(t: Tree, sort: Sort, i: nat) {
    match t
    case Index(s, j) => s == sort && j == i
    case Node(_, kids) => FreeKids(kids, sort, i)
  }

  predicate FreeKids(kids: Kids, sort: Sort, i: nat) {
    match kids
    case End => false
    case Kid(cons, exps, t, more) => Free(t, sort, i + BoundOf(sort, cons, exps)) || FreeKids(more, sort, i)
  }

  /** The index before a variable was put in at `n`. */
  function Before(n: nat, i: nat): nat
    requires i != n
  {
    if i < n then i else i - 1
  }

  /** The index before the variable at `n` was taken out. */
  function Past(n: nat, i: nat): nat { if i < n then i else i + 1 }

  /** What is free after a lift: what was free, at its new index. */
  predicate Lifted(sort: Sort, n: nat, was: Tree, now: Tree, s: Sort, i: nat) {
    Free(now, s, i) <==> if s == sort then i != n && Free(was, s, Before(n, i)) else Free(was, s, i)
  }

  lemma {:induction false} UnderLift(sort: Sort, n: nat, cons: nat, exps: nat)
    ensures Under(Lift(sort, n), cons, exps) == Lift(sort, n + BoundOf(sort, cons, exps))
    decreases cons + exps
  {
    if cons > 0 {
      UnderLift(sort, if sort == OfCon then n + 1 else n, cons - 1, exps);
    } else if exps > 0 {
      UnderLift(sort, if sort == OfExp then n + 1 else n, cons, exps - 1);
    }
  }

  lemma {:induction false} FreeAfterLift(sort: Sort, n: nat, t: Tree, s: Sort, i: nat)
    ensures Lifted(sort, n, t, Apply(Lift(sort, n), t), s, i)
    decreases t
  {
    if t.Node? {
      FreeKidsAfterLift(sort, n, t.kids, s, i);
    }
  }

  lemma {:induction false} FreeKidsAfterLift(sort: Sort, n: nat, kids: Kids, s: Sort, i: nat)
    ensures FreeKids(ApplyKids(Lift(sort, n), kids), s, i)
       <==> if s == sort then i != n && FreeKids(kids, s, Before(n, i)) else FreeKids(kids, s, i)
    decreases kids
  {
    if kids.Kid? {
      var b := BoundOf(sort, kids.cons, kids.exps);
      UnderLift(sort, n, kids.cons, kids.exps);
      FreeAfterLift(sort, n + b, kids.t, s, i + BoundOf(s, kids.cons, kids.exps));
      FreeKidsAfterLift(sort, n, kids.more, s, i);
    }
  }

  /** What is free after a substitution: what was free but for the variable taken out, with the gap
      closed, and what is free in the replacement if that variable was. */
  predicate Substituted(sort: Sort, n: nat, rep: Tree, was: Tree, now: Tree, s: Sort, i: nat) {
    Free(now, s, i) <==>
    Free(was, s, if s == sort then Past(n, i) else i) || (Free(was, sort, n) && Free(rep, s, i))
  }

  /** Going under variables moves the place of the variable, and the replacement past them. */
  lemma {:induction false} UnderSubst(op: TreeOp, cons: nat, exps: nat, s: Sort, i: nat)
    requires op.Subst?
    ensures var in' := Under(op, cons, exps);
            in'.Subst? && in'.sort == op.sort && in'.xn == op.xn + BoundOf(op.sort, cons, exps) &&
            (Free(in'.rep, s, i + BoundOf(s, cons, exps)) <==> Free(op.rep, s, i))
    decreases cons + exps
  {
    if cons > 0 {
      FreeAfterLift(OfCon, 0, op.rep, s, if s == OfCon then i + 1 else i);
      UnderSubst(UnderOne(op, OfCon), cons - 1, exps, s, if s == OfCon then i + 1 else i);
    } else if exps > 0 {
      FreeAfterLift(OfExp, 0, op.rep, s, if s == OfExp then i + 1 else i);
      UnderSubst(UnderOne(op, OfExp), cons, exps - 1, s, if s == OfExp then i + 1 else i);
    }
  }

  lemma {:induction false} FreeAfterSubst(op: TreeOp, t: Tree, s: Sort, i: nat)
    requires op.Subst?
    ensures Substituted(op.sort, op.xn, op.rep, t, Apply(op, t), s, i)
    decreases t
  {
    if t.Node? {
      FreeKidsAfterSubst(op, t.kids, s, i);
    }
  }

  lemma {:induction false} FreeKidsAfterSubst(op: TreeOp, kids: Kids, s: Sort, i: nat)
    requires op.Subst?
    ensures FreeKids(ApplyKids(op, kids), s, i) <==>
            (FreeKids(kids, s, if s == op.sort then Past(op.xn, i) else i) ||
             (FreeKids(kids, op.sort, op.xn) && Free(op.rep, s, i)))
    decreases kids
  {
    if kids.Kid? {
      UnderSubst(op, kids.cons, kids.exps, s, i);
      FreeAfterSubst(Under(op, kids.cons, kids.exps), kids.t, s, i + BoundOf(s, kids.cons, kids.exps));
      FreeKidsAfterSubst(op, kids.more, s, i);
    }
  }

  // ---------------------------------------------------------------- the operations of the source

  /** What the lifts do.  The variables mentioned afterwards, of either sort, are those mentioned
      before, renumbered from the bound up; the bound itself is not mentioned. */
  lemma LiftRenumbers(n: nat, c: Con, e: Exp, s: Sort, i: nat)
    ensures Lifted(OfCon, n, ConTree(c), ConTree(LiftConInCon(n, c)), s, i)
    ensures Lifted(OfCon, n, ExpTree(e), ExpTree(LiftConInExp(n, e)), s, i)
    ensures Lifted(OfExp, n, ExpTree(e), ExpTree(LiftExpInExp(n, e)), s, i)
  {
    MapConIs(LiftC(n), c);
    FreeAfterLift(OfCon, n, ConTree(c), s, i);
    MapExpIs(InCon(LiftC(n)), e);
    FreeAfterLift(OfCon, n, ExpTree(e), s, i);
    MapExpIs(LiftE(n), e);
    FreeAfterLift(OfExp, n, ExpTree(e), s, i);
  }

  /** What the substitutions do.  The variables mentioned afterwards, of either sort, are those
      mentioned before other than `n`, those above it one lower, and with them the variables of the
      replacement exactly if `n` was mentioned. */
  lemma SubReplaces(n: nat, rc: Con, re: Exp, c: Con, e: Exp, s: Sort, i: nat)
    ensures Substituted(OfCon, n, ConTree(rc), ConTree(c), ConTree(SubConInCon(n, rc, c)), s, i)
    ensures Substituted(OfCon, n, ConTree(rc), ExpTree(e), ExpTree(SubConInExp(n, rc, e)), s, i)
    ensures Substituted(OfExp, n, ExpTree(re), ExpTree(e), ExpTree(SubExpInExp(n, re, e)), s, i)
  {
    MapConIs(SubC(n, rc), c);
    FreeAfterSubst(Subst(OfCon, n, ConTree(rc)), ConTree(c), s, i);
    MapExpIs(InCon(SubC(n, rc)), e);
    FreeAfterSubst(Subst(OfCon, n, ConTree(rc)), ExpTree(e), s, i);
    MapExpIs(SubE(n, re), e);
    FreeAfterSubst(Subst(OfExp, n, ExpTree(re)), ExpTree(e), s, i);
  }

  /** The result of an operation is the one term whose tree is the operation on the tree. */
  lemma MapExpDetermined(op: ExpOp, e: Exp, d: Exp)
    ensures d == MapExp(op, e) <==> ExpTree(d) == Apply(OfExpOp(op), ExpTree(e))
  {
    MapExpIs(op, e);
    TreeDetermines(d, MapExp(op, e));
  }

  lemma MapConDetermined(op: ConOp, c: Con, d: Con)
    ensures d == MapCon(op, c) <==> ConTree(d) == Apply(OfConOp(op), ConTree(c))
  {
    MapConIs(op, c);
    ConTreeDetermines(d, MapCon(op, c));
  }

  /** A term can be read off its tree. */
  lemma TreeDetermines(e: Exp, d: Exp)
    ensures e == d <==> ExpTree(e) == ExpTree(d)
  {
    if ExpTree(e) == ExpTree(d) {
      SameExp(e, d);
    }
  }

  lemma ConTreeDetermines(c: Con, d: Con)
    ensures c == d <==> ConTree(c) == ConTree(d)
  {
    if ConTree(c) == ConTree(d) {
      SameCon(c, d);
    }
  }
}
