/** Which prepared queries may run again inside their own bodies: the call graph of a program, with
    mutually recursive functions merged. */
module CheckNest {

  datatype Option<T> = None | Some(value: T)

  /** A prepared statement: its number, and whether it may be nested in itself. */
  datatype Prepared = Prepared(id: nat, nested: bool)

  /** Terms, with one constructor for all those that only pass on what is in their parts. */
  datatype Exp =
    | Leaf(tag: nat)
    | Named(name: nat)
    | Node(tag: nat, parts: seq<Exp>)
    | Query(query: Exp, body: Exp, initial: Exp, prepared: Option<Prepared>)
    | Dml(dml: Exp, statement: Option<Prepared>)
    | Nextval(sequence: Exp, statement: Option<Prepared>)

  datatype Fn = Fn(name: nat, body: Exp)

  datatype Decl = Single(fn: Fn) | Rec(fns: seq<Fn>) | Other

  type Globals = map<nat, set<nat>>

  function OptionalId(p: Option<Prepared>): set<nat> {
    if p.Some? then {p.value.id} else {}
  }

  /** `expUses` */
  function ExpUses(globals: Globals, e: Exp): set<nat> {
    match e
    case Leaf(_) => {}
    case Named(n) => if n in globals then globals[n] else {}
    case Node(_, parts) => AllUse(globals, parts)
    case Query(query, body, initial, p) =>
      ExpUses(globals, query) + ExpUses(globals, body) + ExpUses(globals, initial) + OptionalId(p)
    case Dml(dml, p) => ExpUses(globals, dml) + OptionalId(p)
    case Nextval(s, p) => ExpUses(globals, s) + OptionalId(p)
  }

  function AllUse(globals: Globals, es: seq<Exp>): set<nat> {
    if es == [] then {} else ExpUses(globals, es[0]) + AllUse(globals, es[1..])
  }

  /** `annotateExp` */
  function AnnotateExp(globals: Globals, e: Exp): Exp {
    match e
    case Leaf(_) => e
    case Named(_) => e
    case Node(tag, parts) => Node(tag, AnnotateAll(globals, parts))
    case Query(query, body, initial, p) =>
      Query(AnnotateExp(globals, query), AnnotateExp(globals, body), AnnotateExp(globals, initial),
            if p.Some? then Some(Prepared(p.value.id, p.value.id in ExpUses(globals, body))) else None)
    case Dml(dml, p) => Dml(AnnotateExp(globals, dml), p)
    case Nextval(s, p) => Nextval(AnnotateExp(globals, s), p)
  }

  function AnnotateAll(globals: Globals, es: seq<Exp>): (r: seq<Exp>)
    ensures |r| == |es|
  {
    if es == [] then [] else [AnnotateExp(globals, es[0])] + AnnotateAll(globals, es[1..])
  }

  function Members(d: Decl): seq<Fn> {
    match d
    case Single(fn) => [fn]
    case Rec(fns) => fns
    case Other => []
  }

  function MembersUse(globals: Globals, fns: seq<Fn>): set<nat> {
    if fns == [] then {} else ExpUses(globals, fns[0].body) + MembersUse(globals, fns[1..])
  }

  /** The first fold of `annotate`: what each function uses, the functions of a group alike. */
  function GlobalsOf(ds: seq<Decl>): Globals {
    if ds == [] then map[]
    else
      var before, d := GlobalsOf(ds[..|ds| - 1]), ds[|ds| - 1];
      before + map n | n in Own(d) :: MembersUse(before, Members(d))
  }

  function Own(d: Decl): set<nat> {
    set f | f in Members(d) :: f.name
  }

  function AnnotateFns(globals: Globals, fns: seq<Fn>): (r: seq<Fn>)
    ensures |r| == |fns| && forall i :: 0 <= i < |fns| ==> r[i] == Fn(fns[i].name, AnnotateExp(globals, fns[i].body))
  {
    seq(|fns|, i requires 0 <= i < |fns| => Fn(fns[i].name, AnnotateExp(globals, fns[i].body)))
  }

  /** `annotate` */
  function Annotate(ds: seq<Decl>): (r: seq<Decl>)
    ensures |r| == |ds|
  {
    var globals := GlobalsOf(ds);
    seq(|ds|, i requires 0 <= i < |ds| =>
      match ds[i]
      case Single(fn) => Single(Fn(fn.name, AnnotateExp(globals, fn.body)))
      case Rec(fns) => Rec(AnnotateFns(globals, fns))
      case Other => Other)
  }

  // ---------------------------------------------------------------- what is in a term

  function Ids(e: Exp): set<nat> {
    match e
    case Leaf(_) => {}
    case Named(_) => {}
    case Node(_, parts) => AllIds(parts)
    case Query(query, body, initial, p) => Ids(query) + Ids(body) + Ids(initial) + OptionalId(p)
    case Dml(dml, p) => Ids(dml) + OptionalId(p)
    case Nextval(s, p) => Ids(s) + OptionalId(p)
  }

  function AllIds(es: seq<Exp>): set<nat> {
    if es == [] then {} else Ids(es[0]) + AllIds(es[1..])
  }

  function Names(e: Exp): set<nat> {
    match e
    case Leaf(_) => {}
    case Named(n) => {n}
    case Node(_, parts) => AllNames(parts)
    case Query(query, body, initial, _) => Names(query) + Names(body) + Names(initial)
    case Dml(dml, _) => Names(dml)
    case Nextval(s, _) => Names(s)
  }

  function AllNames(es: seq<Exp>): set<nat> {
    if es == [] then {} else Names(es[0]) + AllNames(es[1..])
  }

  /** The terms in a term, one step down. */
  function Parts(e: Exp): seq<Exp> {
    match e
    case Leaf(_) => []
    case Named(_) => []
    case Node(_, parts) => parts
    case Query(query, body, initial, _) => [query, body, initial]
    case Dml(dml, _) => [dml]
    case Nextval(s, _) => [s]
  }

  /** The term reached by going down from `e` through these parts. */
  function SubtermAt(e: Exp, path: seq<nat>): Option<Exp>
    decreases path
  {
    if path == [] then Some(e)
    else if path[0] < |Parts(e)| then SubtermAt(Parts(e)[path[0]], path[1..])
    else None
  }

  predicate Prepares(e: Exp, id: nat) {
    match e
    case Query(_, _, _, p) => p.Some? && p.value.id == id
    case Dml(_, p) => p.Some? && p.value.id == id
    case Nextval(_, p) => p.Some? && p.value.id == id
    case _ => false
  }

  /** What is said of a term by itself: that it prepares a statement, or is a name. */
  datatype Fact = Statement(id: nat) | Reference(n: nat)

  predicate Says(e: Exp, f: Fact) {
    match f
    case Statement(id) => Prepares(e, id)
    case Reference(n) => e == Named(n)
  }

  predicate SaysAt(e: Exp, path: seq<nat>, f: Fact) {
    SubtermAt(e, path).Some? && Says(SubtermAt(e, path).value, f)
  }

  /** Some subterm, at whatever depth, is so. */
  ghost predicate Inside(e: Exp, f: Fact) {
    exists path: seq<nat> :: SaysAt(e, path, f)
  }

  predicate Collected(e: Exp, f: Fact) {
    match f case Statement(id) => id in Ids(e) case Reference(n) => n in Names(e)
  }

  predicate CollectedAll(es: seq<Exp>, f: Fact) {
    match f case Statement(id) => id in AllIds(es) case Reference(n) => n in AllNames(es)
  }

  lemma InsidePart(e: Exp, k: nat, f: Fact)
    requires k < |Parts(e)| && Inside(Parts(e)[k], f)
    ensures Inside(e, f)
  {
    var path: seq<nat> :| SaysAt(Parts(e)[k], path, f);
    var longer := [k] + path;
    assert longer[1..] == path && SaysAt(e, longer, f);
  }

  ghost predicate SomeCollects(es: seq<Exp>, f: Fact) {
    exists k :: 0 <= k < |es| && Collected(es[k], f)
  }

  lemma {:induction false} CollectedIn(es: seq<Exp>, f: Fact)
    ensures CollectedAll(es, f) <==> SomeCollects(es, f)
  {
    if es != [] {
      CollectedIn(es[1..], f);
      if CollectedAll(es[1..], f) {
        var k :| 0 <= k < |es[1..]| && Collected(es[1..][k], f);
        assert Collected(es[k + 1], f);
      }
      if k :| 0 <= k < |es| && Collected(es[k], f) {
        assert k > 0 ==> Collected(es[1..][k - 1], f);
      }
    }
  }

  lemma InThree(a: Exp, b: Exp, c: Exp, f: Fact)
    ensures Collected(a, f) || Collected(b, f) || Collected(c, f) <==> SomeCollects([a, b, c], f)
  {
    assert [a, b, c][0] == a && [a, b, c][1] == b && [a, b, c][2] == c;
  }

  lemma CollectedHere(e: Exp, f: Fact)
    ensures Collected(e, f) <==> Says(e, f) || SomeCollects(Parts(e), f)
  {
    match e
    case Node(_, parts) => CollectedIn(parts, f);
    case Query(query, body, initial, _) =>
      InThree(query, body, initial, f);
    case Dml(dml, _) => assert Parts(e)[0] == dml;
    case Nextval(s, _) => assert Parts(e)[0] == s;
    case _ =>
  }

  lemma {:induction false} CollectedIffInside(e: Exp, f: Fact)
    ensures Collected(e, f) <==> Inside(e, f)
    decreases e
  {
    CollectedHere(e, f);
    if Says(e, f) {
      assert SaysAt(e, [], f);
    } else if Collected(e, f) {
      var k :| 0 <= k < |Parts(e)| && Collected(Parts(e)[k], f);
      CollectedIffInside(Parts(e)[k], f);
      InsidePart(e, k, f);
    }
    if Inside(e, f) && !Says(e, f) {
      var path: seq<nat> :| SaysAt(e, path, f);
      assert SaysAt(Parts(e)[path[0]], path[1..], f);
      CollectedIffInside(Parts(e)[path[0]], f);
    }
  }

  /** The statements of a term are those that some subterm prepares, and its names those that some
      subterm is. */
  lemma IdsAndNamesAre(e: Exp, id: nat, n: nat)
    ensures id in Ids(e) <==> exists path: seq<nat> :: SaysAt(e, path, Statement(id))
    ensures n in Names(e) <==> exists path: seq<nat> :: SaysAt(e, path, Reference(n))
  {
    CollectedIffInside(e, Statement(id));
    CollectedIffInside(e, Reference(n));
  }

  ghost predicate Through(globals: Globals, names: set<nat>, id: nat) {
    exists n :: n in names && n in globals && id in globals[n]
  }

  lemma ThroughUnion(globals: Globals, a: set<nat>, b: set<nat>, id: nat)
    ensures Through(globals, a + b, id) <==> Through(globals, a, id) || Through(globals, b, id)
  {
    if Through(globals, a + b, id) {
      var n :| n in a + b && n in globals && id in globals[n];
      assert n in a || n in b;
    }
    if Through(globals, a, id) || Through(globals, b, id) {
      var n :| (n in a || n in b) && n in globals && id in globals[n];
      assert n in a + b;
    }
  }

  /** A term uses the statements in it, and those of the functions it names. */
  lemma {:induction false} UsesAre(globals: Globals, e: Exp, id: nat)
    ensures id in ExpUses(globals, e) <==> id in Ids(e) || Through(globals, Names(e), id)
    decreases e
  {
    match e
    case Leaf(_) =>
    case Named(n) =>
      if id in ExpUses(globals, e) {
        assert n in Names(e) && n in globals && id in globals[n];
      }
    case Node(_, parts) => AllUsesAre(globals, parts, id);
    case Query(query, body, initial, _) =>
      UsesAre(globals, query, id);
      UsesAre(globals, body, id);
      UsesAre(globals, initial, id);
      ThroughUnion(globals, Names(query), Names(body), id);
      ThroughUnion(globals, Names(query) + Names(body), Names(initial), id);
    case Dml(dml, _) => UsesAre(globals, dml, id);
    case Nextval(s, _) => UsesAre(globals, s, id);
  }

  lemma {:induction false} AllUsesAre(globals: Globals, es: seq<Exp>, id: nat)
    ensures id in AllUse(globals, es) <==> id in AllIds(es) || Through(globals, AllNames(es), id)
    decreases es
  {
    if es != [] {
      UsesAre(globals, es[0], id);
      AllUsesAre(globals, es[1..], id);
      ThroughUnion(globals, Names(es[0]), AllNames(es[1..]), id);
    }
  }

  function MemberIds(fns: seq<Fn>): set<nat> {
    if fns == [] then {} else Ids(fns[0].body) + MemberIds(fns[1..])
  }

  function MemberNames(fns: seq<Fn>): set<nat> {
    if fns == [] then {} else Names(fns[0].body) + MemberNames(fns[1..])
  }

  lemma {:induction false} MembersUseAre(globals: Globals, fns: seq<Fn>, id: nat)
    ensures id in MembersUse(globals, fns) <==> id in MemberIds(fns) || Through(globals, MemberNames(fns), id)
  {
    if fns != [] {
      UsesAre(globals, fns[0].body, id);
      MembersUseAre(globals, fns[1..], id);
      ThroughUnion(globals, Names(fns[0].body), MemberNames(fns[1..]), id);
    }
  }

  // ---------------------------------------------------------------- reaching a statement

  function Declared(ds: seq<Decl>): set<nat> {
    if ds == [] then {} else Declared(ds[..|ds| - 1]) + Own(ds[|ds| - 1])
  }

  /** Names are declared once, and refer to earlier declarations or to their own group. */
  ghost predicate WellFormed(ds: seq<Decl>) {
    ds == [] ||
    var before, d := ds[..|ds| - 1], ds[|ds| - 1];
    && WellFormed(before) && Declared(before) !! Own(d)
    && MemberNames(Members(d)) <= Declared(before) + Own(d)
  }

  /** The group of a name. */
  function GroupOf(ds: seq<Decl>, n: nat): seq<Fn> {
    if ds == [] then []
    else if n in Own(ds[|ds| - 1]) then Members(ds[|ds| - 1])
    else GroupOf(ds[..|ds| - 1], n)
  }

  /** A chain of references, group by group. */
  ghost predicate Chain(ds: seq<Decl>, path: seq<nat>) {
    path != [] && forall i: nat {:trigger LinkAt(ds, path, i)} :: LinkAt(ds, path, i)
  }

  ghost predicate LinkAt(ds: seq<Decl>, path: seq<nat>, i: nat) {
    i + 1 < |path| ==> path[i + 1] in MemberNames(GroupOf(ds, path[i]))
  }

  /** From a name to a statement, when the functions of a group count as one. */
  ghost predicate Reaches(ds: seq<Decl>, n: nat, id: nat) {
    exists path :: LeadsTo(ds, path, n, id)
  }

  ghost predicate LeadsTo(ds: seq<Decl>, path: seq<nat>, n: nat, id: nat) {
    Chain(ds, path) && path[0] == n && id in MemberIds(GroupOf(ds, path[|path| - 1]))
  }

  lemma {:induction false} GroupEarlier(ds: seq<Decl>, n: nat)
    requires WellFormed(ds) && n in Declared(ds)
    ensures MemberNames(GroupOf(ds, n)) <= Declared(ds)
  {
    if n !in Own(ds[|ds| - 1]) {
      GroupEarlier(ds[..|ds| - 1], n);
    }
  }

  /** A chain from a declared name stays among the declared ones, and means the same with more declarations. */
  lemma {:induction false} ChainStays(ds: seq<Decl>, path: seq<nat>, n: nat, id: nat)
    requires WellFormed(ds) && ds != [] && n in Declared(ds[..|ds| - 1])
    ensures LeadsTo(ds, path, n, id) <==> LeadsTo(ds[..|ds| - 1], path, n, id)
    decreases |path|
  {
    var before := ds[..|ds| - 1];
    assert n !in Own(ds[|ds| - 1]) && GroupOf(ds, n) == GroupOf(before, n);
    GroupEarlier(before, n);
    if |path| > 1 && path[0] == n && path[1] in MemberNames(GroupOf(before, n)) {
      ChainStays(ds, path[1..], path[1], id);
      ChainCons(ds, path, n, id);
      ChainCons(before, path, n, id);
    } else if |path| > 1 && path[0] == n {
      assert !LinkAt(ds, path, 0) && !LinkAt(before, path, 0);
    }
  }

  lemma ChainCons(ds: seq<Decl>, path: seq<nat>, n: nat, id: nat)
    requires |path| > 1
    ensures LeadsTo(ds, path, n, id) <==>
            path[0] == n && path[1] in MemberNames(GroupOf(ds, n)) && LeadsTo(ds, path[1..], path[1], id)
  {
    var rest := path[1..];
    if path[0] == n && Chain(ds, path) {
      assert LinkAt(ds, path, 0);
      forall i: nat ensures LinkAt(ds, rest, i) {
        assert LinkAt(ds, path, i + 1);
      }
    }
    if path[0] == n && path[1] in MemberNames(GroupOf(ds, n)) && Chain(ds, rest) {
      forall i: nat ensures LinkAt(ds, path, i) {
        if i > 0 {
          assert LinkAt(ds, rest, i - 1);
        }
      }
    }
  }

  lemma ReachesStays(ds: seq<Decl>, n: nat, id: nat)
    requires WellFormed(ds) && ds != [] && n in Declared(ds[..|ds| - 1])
    ensures Reaches(ds, n, id) <==> Reaches(ds[..|ds| - 1], n, id)
  {
    if Reaches(ds, n, id) {
      var path :| LeadsTo(ds, path, n, id);
      ChainStays(ds, path, n, id);
    }
    if Reaches(ds[..|ds| - 1], n, id) {
      var path :| LeadsTo(ds[..|ds| - 1], path, n, id);
      ChainStays(ds, path, n, id);
    }
  }

  /** Some function of the group names an earlier one from where the statement is reached. */
  ghost predicate ReachesBack(before: seq<Decl>, fns: seq<Fn>, id: nat) {
    exists m {:trigger m in MemberNames(fns)} ::
      m in MemberNames(fns) && m in Declared(before) && Reaches(before, m, id)
  }

  /** From the newest group: to a statement of its own, or through a name it refers to. */
  lemma {:induction false} ChainLeaves(ds: seq<Decl>, path: seq<nat>, n: nat, id: nat)
    requires WellFormed(ds) && ds != [] && n in Own(ds[|ds| - 1]) && LeadsTo(ds, path, n, id)
    ensures id in MemberIds(Members(ds[|ds| - 1])) || ReachesBack(ds[..|ds| - 1], Members(ds[|ds| - 1]), id)
    decreases |path|
  {
    if |path| > 1 {
      var m := path[1];
      ChainCons(ds, path, n, id);
      if m in Own(ds[|ds| - 1]) {
        ChainLeaves(ds, path[1..], m, id);
      } else {
        assert LeadsTo(ds, path[1..], m, id) && Reaches(ds, m, id);
        ReachesStays(ds, m, id);
      }
    }
  }

  lemma ReachesThrough(ds: seq<Decl>, n: nat, m: nat, id: nat)
    requires m in MemberNames(GroupOf(ds, n)) && Reaches(ds, m, id)
    ensures Reaches(ds, n, id)
  {
    var path :| LeadsTo(ds, path, m, id);
    assert ([n] + path)[1..] == path;
    ChainCons(ds, [n] + path, n, id);
    assert LeadsTo(ds, [n] + path, n, id);
  }

  lemma {:induction false} GlobalsKeys(ds: seq<Decl>)
    ensures GlobalsOf(ds).Keys == Declared(ds)
  {
    if ds != [] {
      GlobalsKeys(ds[..|ds| - 1]);
    }
  }

  /** The fold finds exactly the statements that a name reaches. */
  lemma {:induction false} GlobalsAre(ds: seq<Decl>, n: nat, id: nat)
    requires WellFormed(ds) && n in Declared(ds)
    ensures n in GlobalsOf(ds) && (id in GlobalsOf(ds)[n] <==> Reaches(ds, n, id))
    decreases |ds|
  {
    var before, d := ds[..|ds| - 1], ds[|ds| - 1];
    GlobalsKeys(ds);
    GlobalsKeys(before);
    if n in Own(d) {
      NewGroup(ds, n, id);
    } else {
      GlobalsAre(before, n, id);
      ReachesStays(ds, n, id);
    }
  }

  lemma {:induction false} NewGroup(ds: seq<Decl>, n: nat, id: nat)
    requires WellFormed(ds) && ds != [] && n in Own(ds[|ds| - 1])
    ensures id in MembersUse(GlobalsOf(ds[..|ds| - 1]), Members(ds[|ds| - 1])) <==> Reaches(ds, n, id)
    decreases |ds|, 0
  {
    var before, d := ds[..|ds| - 1], ds[|ds| - 1];
    var globals, fns := GlobalsOf(before), Members(d);
    GlobalsKeys(before);
    MembersUseAre(globals, fns, id);
    if Reaches(ds, n, id) {
      var path :| LeadsTo(ds, path, n, id);
      ChainLeaves(ds, path, n, id);
      if id !in MemberIds(fns) {
        var m :| m in MemberNames(fns) && m in Declared(before) && Reaches(before, m, id);
        GlobalsAre(before, m, id);
        assert m in globals;
      }
    }
    if id in MemberIds(fns) {
      assert LeadsTo(ds, [n], n, id);
    }
    if Through(globals, MemberNames(fns), id) {
      var m :| m in MemberNames(fns) && m in globals && id in globals[m];
      GlobalsAre(before, m, id);
      ReachesStays(ds, m, id);
      ReachesThrough(ds, n, m, id);
    }
  }

  // ---------------------------------------------------------------- what annotation does

  /** From the inside of a term to a statement. */
  ghost predicate Uses(ds: seq<Decl>, e: Exp, id: nat) {
    id in Ids(e) || exists n {:trigger n in Names(e)} :: n in Names(e) && n in Declared(ds) && Reaches(ds, n, id)
  }

  lemma ExpUsesAre(ds: seq<Decl>, e: Exp, id: nat)
    requires WellFormed(ds)
    ensures id in ExpUses(GlobalsOf(ds), e) <==> Uses(ds, e, id)
  {
    var globals := GlobalsOf(ds);
    UsesAre(globals, e, id);
    GlobalsKeys(ds);
    if Through(globals, Names(e), id) {
      var n :| n in Names(e) && n in globals && id in globals[n];
      GlobalsAre(ds, n, id);
    }
    if Uses(ds, e, id) && id !in Ids(e) {
      var n :| n in Names(e) && n in Declared(ds) && Reaches(ds, n, id);
      GlobalsAre(ds, n, id);
      assert n in globals;
    }
  }

  /** Every prepared query is marked as nested exactly when its body leads back to its statement. */
  ghost predicate Marked(ds: seq<Decl>, e: Exp)
    decreases e
  {
    match e
    case Leaf(_) => true
    case Named(_) => true
    case Node(_, parts) => forall i {:trigger parts[i]} :: 0 <= i < |parts| ==> Marked(ds, parts[i])
    case Query(query, body, initial, p) =>
      && Marked(ds, query) && Marked(ds, body) && Marked(ds, initial)
      && (p.Some? ==> (p.value.nested <==> Uses(ds, body, p.value.id)))
    case Dml(dml, _) => Marked(ds, dml)
    case Nextval(s, _) => Marked(ds, s)
  }

  /** A term with the marks of its queries taken off. */
  function Erase(e: Exp): Exp {
    match e
    case Leaf(_) => e
    case Named(_) => e
    case Node(tag, parts) => Node(tag, EraseAll(parts))
    case Query(query, body, initial, p) =>
      Query(Erase(query), Erase(body), Erase(initial), if p.Some? then Some(Prepared(p.value.id, false)) else None)
    case Dml(dml, p) => Dml(Erase(dml), p)
    case Nextval(s, p) => Nextval(Erase(s), p)
  }

  function EraseAll(es: seq<Exp>): (r: seq<Exp>)
    ensures |r| == |es|
  {
    if es == [] then [] else [Erase(es[0])] + EraseAll(es[1..])
  }

  /** Annotating a term changes nothing but marks. */
  lemma {:induction false} AnnotateKeeps(globals: Globals, e: Exp)
    ensures var a := AnnotateExp(globals, e); Erase(a) == Erase(e) && Ids(a) == Ids(e) && Names(a) == Names(e)
    decreases e
  {
    match e
    case Leaf(_) =>
    case Named(_) =>
    case Node(_, parts) => AnnotateAllKeeps(globals, parts);
    case Query(query, body, initial, p) =>
      AnnotateKeeps(globals, query);
      AnnotateKeeps(globals, body);
      AnnotateKeeps(globals, initial);
    case Dml(dml, _) => AnnotateKeeps(globals, dml);
    case Nextval(s, _) => AnnotateKeeps(globals, s);
  }

  lemma {:induction false} AnnotateAllKeeps(globals: Globals, es: seq<Exp>)
    ensures
      var a := AnnotateAll(globals, es);
      EraseAll(a) == EraseAll(es) && AllIds(a) == AllIds(es) && AllNames(a) == AllNames(es)
    decreases es
  {
    if es != [] {
      AnnotateKeeps(globals, es[0]);
      AnnotateAllKeeps(globals, es[1..]);
      var a := AnnotateAll(globals, es);
      assert a[0] == AnnotateExp(globals, es[0]) && a[1..] == AnnotateAll(globals, es[1..]);
    }
  }

  lemma SameUses(ds: seq<Decl>, e: Exp, e': Exp, id: nat)
    requires Ids(e) == Ids(e') && Names(e) == Names(e')
    ensures Uses(ds, e, id) <==> Uses(ds, e', id)
  {
  }

  /** It marks its queries. */
  lemma {:induction false} AnnotateExpMarks(ds: seq<Decl>, e: Exp)
    requires WellFormed(ds)
    ensures Marked(ds, AnnotateExp(GlobalsOf(ds), e))
    decreases e
  {
    match e
    case Leaf(_) =>
    case Named(_) =>
    case Node(tag, parts) =>
      AnnotateAllMarks(ds, parts);
      assert AnnotateExp(GlobalsOf(ds), e) == Node(tag, AnnotateAll(GlobalsOf(ds), parts));
    case Query(query, body, initial, p) =>
      AnnotateExpMarks(ds, query);
      AnnotateExpMarks(ds, body);
      AnnotateExpMarks(ds, initial);
      if p.Some? {
        ExpUsesAre(ds, body, p.value.id);
        AnnotateKeeps(GlobalsOf(ds), body);
        SameUses(ds, body, AnnotateExp(GlobalsOf(ds), body), p.value.id);
      }
    case Dml(dml, _) => AnnotateExpMarks(ds, dml);
    case Nextval(s, _) => AnnotateExpMarks(ds, s);
  }

  lemma {:induction false} AnnotateAllMarks(ds: seq<Decl>, es: seq<Exp>)
    requires WellFormed(ds)
    ensures var a := AnnotateAll(GlobalsOf(ds), es); forall i {:trigger a[i]} :: 0 <= i < |a| ==> Marked(ds, a[i])
    decreases es
  {
    if es != [] {
      AnnotateExpMarks(ds, es[0]);
      AnnotateAllMarks(ds, es[1..]);
      var a := AnnotateAll(GlobalsOf(ds), es);
      assert a[1..] == AnnotateAll(GlobalsOf(ds), es[1..]);
      forall i {:trigger a[i]} | 0 <= i < |a| ensures Marked(ds, a[i]) {
        assert i > 0 ==> a[i] == a[1..][i - 1];
      }
    }
  }

  /** In the annotated program every body is marked, and is otherwise as it was. */
  lemma AnnotateMarks(ds: seq<Decl>, k: nat, i: nat)
    requires WellFormed(ds) && k < |ds| && i < |Members(ds[k])|
    ensures |Members(Annotate(ds)[k])| == |Members(ds[k])|
    ensures
      var before, after := Members(ds[k])[i], Members(Annotate(ds)[k])[i];
      after.name == before.name && Marked(ds, after.body) && Erase(after.body) == Erase(before.body)
  {
    AnnotateExpMarks(ds, Members(ds[k])[i].body);
    AnnotateKeeps(GlobalsOf(ds), Members(ds[k])[i].body);
  }

  // ---------------------------------------------------------------- functions of a group apart

  /** A chain of references from function to function. */
  ghost predicate Calls(ds: seq<Decl>, path: seq<nat>, n: nat, id: nat) {
    && path != [] && path[0] == n
    && (forall i: nat {:trigger CallAt(ds, path, i)} :: CallAt(ds, path, i))
    && exists f {:trigger f in GroupOf(ds, path[|path| - 1])} ::
         f in GroupOf(ds, path[|path| - 1]) && f.name == path[|path| - 1] && id in Ids(f.body)
  }

  ghost predicate CallAt(ds: seq<Decl>, path: seq<nat>, i: nat) {
    i + 1 < |path| ==>
      exists f {:trigger f in GroupOf(ds, path[i])} ::
        f in GroupOf(ds, path[i]) && f.name == path[i] && path[i + 1] in Names(f.body)
  }

  lemma {:induction false} MemberIn(fns: seq<Fn>, f: Fn)
    requires f in fns
    ensures Names(f.body) <= MemberNames(fns) && Ids(f.body) <= MemberIds(fns)
  {
    if f != fns[0] {
      MemberIn(fns[1..], f);
    }
  }

  /** Whatever a function can really call is reached: no nesting goes unmarked. */
  lemma CallsReach(ds: seq<Decl>, path: seq<nat>, n: nat, id: nat)
    requires Calls(ds, path, n, id)
    ensures Reaches(ds, n, id)
  {
    forall i: nat ensures LinkAt(ds, path, i) {
      if i + 1 < |path| {
        assert CallAt(ds, path, i);
        var f :| f in GroupOf(ds, path[i]) && f.name == path[i] && path[i + 1] in Names(f.body);
        MemberIn(GroupOf(ds, path[i]), f);
      }
    }
    var last := path[|path| - 1];
    var f :| f in GroupOf(ds, last) && f.name == last && id in Ids(f.body);
    MemberIn(GroupOf(ds, last), f);
    assert LeadsTo(ds, path, n, id);
  }

  lemma {:induction false} GroupDeclared(ds: seq<Decl>, n: nat)
    requires GroupOf(ds, n) != []
    ensures n in Declared(ds)
  {
    if n !in Own(ds[|ds| - 1]) {
      GroupDeclared(ds[..|ds| - 1], n);
    }
  }

  /** So a query whose body leads to its own statement by calls is marked. */
  lemma RealNestingIsUse(ds: seq<Decl>, body: Exp, path: seq<nat>, n: nat, id: nat)
    requires n in Names(body) && Calls(ds, path, n, id)
    ensures Uses(ds, body, id)
  {
    CallsReach(ds, path, n, id);
    if |path| > 1 {
      assert CallAt(ds, path, 0);
    }
    GroupDeclared(ds, n);
  }
}
