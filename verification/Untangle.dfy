/** Splitting a `val rec` group into its strongly connected components, in dependency order. */
module Untangle {

  datatype Option<T> = None | Some(value: T)

  /** The expressions that matter here: the three that name a definition, and the rest. */
  datatype Exp =
    | ENamed(n: int)
    | EClosure(n: int, args: seq<Exp>)
    | EServerCall(n: int, args: seq<Exp>)
    | EOther(subs: seq<Exp>)

  datatype Def = Def(name: string, n: int, e: Exp)

  datatype Decl = DVal(vi: Def) | DValRec(vis: seq<Def>) | DOther(kind: string)

  type Graph = map<int, set<int>>

  // ---------------------------------------------------------------- the graph of a group

  /** The members of `thisGroup` that an expression names, anywhere inside it. */
  function ExpUsed(thisGroup: set<int>, e: Exp): (s: set<int>)
    ensures s <= thisGroup
    decreases e, 0
  {
    match e
    case ENamed(n) => if n in thisGroup then {n} else {}
    case EClosure(n, args) => (if n in thisGroup then {n} else {}) + AllUsed(thisGroup, args)
    case EServerCall(n, args) => (if n in thisGroup then {n} else {}) + AllUsed(thisGroup, args)
    case EOther(subs) => AllUsed(thisGroup, subs)
  }

  function AllUsed(thisGroup: set<int>, es: seq<Exp>): (s: set<int>)
    ensures s <= thisGroup
    decreases es
  {
    if es == [] then {} else ExpUsed(thisGroup, es[0]) + AllUsed(thisGroup, es[1..])
  }

  function Parts(e: Exp): seq<Exp> {
    match e
    case ENamed(_) => []
    case EClosure(_, args) => args
    case EServerCall(_, args) => args
    case EOther(subs) => subs
  }

  /** The expression reached by going down from `e` through these children. */
  function SubtermAt(e: Exp, path: seq<nat>): Option<Exp>
    decreases path
  {
    if path == [] then Some(e)
    else if path[0] < |Parts(e)| then SubtermAt(Parts(e)[path[0]], path[1..])
    else None
  }

  /** A variable, a closure and a server call name a definition; nothing else does. */
  predicate Names(e: Exp, n: int) {
    match e
    case ENamed(m) => m == n
    case EClosure(m, _) => m == n
    case EServerCall(m, _) => m == n
    case EOther(_) => false
  }

  predicate NamedAt(e: Exp, path: seq<nat>, n: int) {
    SubtermAt(e, path).Some? && Names(SubtermAt(e, path).value, n)
  }

  /** Some subterm of `e`, at whatever depth, names `n`. */
  ghost predicate Refers(e: Exp, n: int) {
    exists path: seq<nat> :: NamedAt(e, path, n)
  }

  lemma RefersInside(e: Exp, k: nat, n: int)
    requires k < |Parts(e)| && Refers(Parts(e)[k], n)
    ensures Refers(e, n)
  {
    var path: seq<nat> :| NamedAt(Parts(e)[k], path, n);
    var longer := [k] + path;
    assert longer[1..] == path && NamedAt(e, longer, n);
  }

  /** What is collected is what is named by some subterm and in the group. */
  lemma {:induction false} UsedIsReferred(thisGroup: set<int>, e: Exp, n: int)
    ensures n in ExpUsed(thisGroup, e) <==> n in thisGroup && Refers(e, n)
    decreases e, 1
  {
    if n in ExpUsed(thisGroup, e) {
      if Names(e, n) {
        assert NamedAt(e, [], n);
      } else {
        var k := UsedInPart(thisGroup, Parts(e), n);
        UsedIsReferred(thisGroup, Parts(e)[k], n);
        RefersInside(e, k, n);
      }
    }
    if n in thisGroup && Refers(e, n) {
      var path: seq<nat> :| NamedAt(e, path, n);
      if path != [] {
        assert NamedAt(Parts(e)[path[0]], path[1..], n);
        UsedIsReferred(thisGroup, Parts(e)[path[0]], n);
        PartUsed(thisGroup, Parts(e), path[0], n);
      }
    }
  }

  lemma {:induction false} UsedInPart(thisGroup: set<int>, es: seq<Exp>, n: int) returns (k: nat)
    requires n in AllUsed(thisGroup, es)
    ensures k < |es| && n in ExpUsed(thisGroup, es[k])
  {
    if n in ExpUsed(thisGroup, es[0]) {
      k := 0;
    } else {
      k := UsedInPart(thisGroup, es[1..], n);
      k := k + 1;
    }
  }

  lemma {:induction false} PartUsed(thisGroup: set<int>, es: seq<Exp>, k: nat, n: int)
    requires k < |es| && n in ExpUsed(thisGroup, es[k])
    ensures n in AllUsed(thisGroup, es)
  {
    if k > 0 {
      PartUsed(thisGroup, es[1..], k - 1, n);
    }
  }

  function GroupOf(vis: seq<Def>): set<int> {
    set i | 0 <= i < |vis| :: vis[i].n
  }

  /** No two definitions of a group share a name. */
  predicate Distinct(vis: seq<Def>) {
    forall i, j :: 0 <= i < j < |vis| ==> vis[i].n != vis[j].n
  }

  /** `edefs`: each definition's references into its own group, later entries replacing earlier ones. */
  function Edefs(thisGroup: set<int>, vis: seq<Def>): (g: Graph)
    requires forall v :: v in vis ==> v.n in thisGroup
    ensures g.Keys == GroupOf(vis)
    ensures forall n :: n in g ==> g[n] <= thisGroup
  {
    if vis == [] then map[]
    else
      var last := vis[|vis| - 1];
      assert forall v :: v in vis[..|vis| - 1] ==> v in vis;
      var g := Edefs(thisGroup, vis[..|vis| - 1]);
      assert GroupOf(vis) == GroupOf(vis[..|vis| - 1]) + {last.n} by {
        forall i | 0 <= i < |vis| - 1 ensures vis[i].n in GroupOf(vis[..|vis| - 1]) {
          assert vis[..|vis| - 1][i] == vis[i];
        }
      }
      g[last.n := ExpUsed(thisGroup, last.e)]
  }

  /** Every edge of the graph stays inside it. */
  predicate Closed(g: Graph) {
    forall n {:trigger g[n]} :: n in g ==> g[n] <= g.Keys
  }

  /** `b` can be reached from `a` by exactly `k` edges. */
  ghost predicate ReachIn(g: Graph, k: nat, a: int, b: int) {
    k > 0 && a in g && if k == 1 then b in g[a] else exists c :: c in g[a] && ReachIn(g, k - 1, c, b)
  }

  ghost predicate Reach(g: Graph, a: int, b: int) {
    exists k: nat :: ReachIn(g, k, a, b)
  }

  lemma {:induction false} ReachInTrans(g: Graph, j: nat, k: nat, a: int, b: int, c: int)
    requires ReachIn(g, j, a, b) && ReachIn(g, k, b, c)
    ensures ReachIn(g, j + k, a, c)
    decreases j
  {
    if j > 1 {
      var d :| d in g[a] && ReachIn(g, j - 1, d, b);
      ReachInTrans(g, j - 1, k, d, b, c);
    }
  }

  lemma ReachTrans(g: Graph, a: int, b: int, c: int)
    requires Reach(g, a, b) && Reach(g, b, c)
    ensures Reach(g, a, c)
  {
    var j: nat :| ReachIn(g, j, a, b);
    var k: nat :| ReachIn(g, k, b, c);
    ReachInTrans(g, j, k, a, b, c);
  }

  // ---------------------------------------------------------------- integer sets

  lemma {:induction false} MinExists(s: set<int>) returns (m: int)
    requires s != {}
    ensures m in s && forall x :: x in s ==> m <= x
  {
    assert (forall y :: y !in s) ==> s == {};
    var y: int :| y in s;
    if s == {y} {
      m := y;
    } else {
      var m' := MinExists(s - {y});
      m := if m' < y then m' else y;
      assert forall x :: x in s ==> x == y || x in s - {y};
    }
  }

  /** `IS.find (fn _ => true)` on a nonempty set: the first element in order. */
  function First(s: set<int>): (m: int)
    requires s != {}
    ensures m in s && forall x :: x in s ==> m <= x
  {
    assert exists m :: m in s && forall x :: x in s ==> m <= x by {
      var m := MinExists(s);
    }
    var m :| m in s && forall x :: x in s ==> m <= x;
    m
  }

  // ---------------------------------------------------------------- transitive closure

  /** The inner fold of `expand`, over `todo` in increasing order. */
  function ExpandOne(reachable: Graph, todo: set<int>, here: set<int>): (r: (set<int>, bool))
    requires todo <= reachable.Keys
    ensures forall x :: x in r.0 <==> x in here || exists m :: m in todo && x in reachable[m]
    ensures r.1 <==> r.0 != here
    decreases todo
  {
    if todo == {} then (here, false)
    else
      var n' := First(todo);
      var more := reachable[n'];
      var rest := todo - {n'};
      assert todo == rest + {n'};
      if more <= here then ExpandOne(reachable, rest, here)
      else
        var r := ExpandOne(reachable, rest, more + here);
        (r.0, true)
  }

  /** `expand`: one round, every set joined with the sets of its members. */
  function Expand(reachable: Graph): (r: (Graph, bool))
    requires Closed(reachable)
    ensures r.0.Keys == reachable.Keys && Closed(r.0)
    ensures forall n :: n in reachable ==> reachable[n] <= r.0[n]
    ensures r.1 <==> r.0 != reachable
  {
    var next := map n | n in reachable :: ExpandOne(reachable, reachable[n], reachable[n]).0;
    var changed := exists n :: n in reachable && ExpandOne(reachable, reachable[n], reachable[n]).1;
    assert changed ==> next != reachable by {
      if changed {
        var n :| n in reachable && ExpandOne(reachable, reachable[n], reachable[n]).1;
        assert next[n] != reachable[n];
      }
    }
    assert !changed ==> next == reachable by {
      if !changed {
        assert forall n :: n in reachable ==> next[n] == reachable[n];
      }
    }
    (next, changed)
  }

  ghost function Pairs(g: Graph): set<(int, int)>
    requires Closed(g)
  {
    set a, b | a in g.Keys && b in g.Keys && b in g[a] :: (a, b)
  }

  ghost function AllPairs(g: Graph): set<(int, int)> {
    set a, b | a in g.Keys && b in g.Keys :: (a, b)
  }

  lemma ExpandProgress(g: Graph)
    requires Closed(g) && Expand(g).1
    ensures AllPairs(Expand(g).0) - Pairs(Expand(g).0) < AllPairs(g) - Pairs(g)
  {
    var h := Expand(g).0;
    var n :| n in g && h[n] != g[n];
    var b :| b in h[n] && b !in g[n];
    MorePairs(g, h, n, b);
  }

  lemma MorePairs(g: Graph, h: Graph, n: int, b: int)
    requires Closed(g) && Closed(h) && h.Keys == g.Keys && forall m :: m in g ==> g[m] <= h[m]
    requires n in g && b in g.Keys && b in h[n] && b !in g[n]
    ensures AllPairs(h) - Pairs(h) < AllPairs(g) - Pairs(g)
  {
    assert AllPairs(g) == AllPairs(h);
    assert (n, b) in AllPairs(g) && (n, b) !in Pairs(g) && (n, b) in Pairs(h);
    forall p | p in Pairs(g) ensures p in Pairs(h) {
      assert p.1 in g[p.0] && g[p.0] <= h[p.0];
    }
  }

  /** `iterate`: rounds until nothing changes. */
  function Iterate(reachable: Graph): (r: Graph)
    requires Closed(reachable)
    ensures r.Keys == reachable.Keys && Closed(r)
    ensures forall n :: n in reachable ==> reachable[n] <= r[n]
    ensures Expand(r).0 == r
    decreases AllPairs(reachable) - Pairs(reachable)
  {
    var (next, changed) := Expand(reachable);
    if changed then
      ExpandProgress(reachable);
      Iterate(next)
    else next
  }

  /** A member of a member is a member. */
  predicate Transitive(g: Graph) {
    forall a, b {:trigger b in g[a]} :: a in g && b in g[a] && b in g ==> g[b] <= g[a]
  }

  lemma FixpointTransitive(g: Graph)
    requires Closed(g) && Expand(g).0 == g
    ensures Transitive(g)
  {
    forall a, b, c | a in g && b in g[a] && b in g && c in g[b]
      ensures c in g[a]
    {
      assert c in ExpandOne(g, g[a], g[a]).0;
    }
  }

  /** Every pair of `r` is joined by a path of `g`. */
  ghost predicate Sound(g: Graph, r: Graph) {
    forall a, b :: a in r && b in r[a] ==> Reach(g, a, b)
  }

  lemma ExpandSound(g: Graph, r: Graph)
    requires Closed(r) && Sound(g, r)
    ensures Sound(g, Expand(r).0)
  {
    forall a, b | a in r && b in Expand(r).0[a]
      ensures Reach(g, a, b)
    {
      if b !in r[a] {
        var m :| m in r[a] && b in r[m];
        ReachTrans(g, a, m, b);
      }
    }
  }

  lemma {:induction false} IterateSound(g: Graph, r: Graph)
    requires Closed(r) && Sound(g, r)
    ensures Sound(g, Iterate(r))
    decreases AllPairs(r) - Pairs(r)
  {
    ExpandSound(g, r);
    if Expand(r).1 {
      ExpandProgress(r);
      IterateSound(g, Expand(r).0);
    }
  }

  lemma {:induction false} ClosureComplete(g: Graph, r: Graph, k: nat, a: int, b: int)
    requires Closed(g) && g.Keys == r.Keys && Transitive(r)
    requires forall n :: n in g ==> g[n] <= r[n]
    requires ReachIn(g, k, a, b)
    ensures b in r[a]
    decreases k
  {
    if k > 1 {
      var c :| c in g[a] && ReachIn(g, k - 1, c, b);
      ClosureComplete(g, r, k - 1, c, b);
    }
  }

  /** `iterate` stops at the transitive closure: exactly the pairs joined by a path. */
  lemma IterateIsClosure(g: Graph, a: int, b: int)
    requires Closed(g) && a in g
    ensures b in Iterate(g)[a] <==> Reach(g, a, b)
    ensures Transitive(Iterate(g))
  {
    var r := Iterate(g);
    FixpointTransitive(r);
    forall x, y | x in g && y in g[x]
      ensures Reach(g, x, y)
    {
      assert ReachIn(g, 1, x, y);
    }
    IterateSound(g, g);
    if Reach(g, a, b) {
      var k: nat :| ReachIn(g, k, a, b);
      ClosureComplete(g, r, k, a, b);
    }
  }

  // ---------------------------------------------------------------- components

  type Component = s: set<int> | s != {} witness {0}

  /** The strongly connected component of `a`, read off a transitive closure. */
  ghost function SccOf(r: Graph, a: int): set<int>
    requires a in r && Closed(r)
  {
    {a} + set b | b in r[a] && a in r[b]
  }

  lemma SccShared(r: Graph, a: int, b: int)
    requires Closed(r) && Transitive(r) && a in r && b in SccOf(r, a)
    ensures b in r && SccOf(r, b) == SccOf(r, a)
  {
    if b != a {
      forall c
        ensures c in SccOf(r, a) <==> c in SccOf(r, b)
      {
        if c in SccOf(r, a) && c != b {
          assert c in r[b];
          assert b in r[c];
        }
        if c in SccOf(r, b) && c != a {
          assert c in r[a];
          assert a in r[c];
        }
      }
    }
  }

  /** A list of disjoint, whole components. */
  ghost predicate SccList(r: Graph, l: seq<Component>)
    requires Closed(r)
  {
    && (forall i, a :: 0 <= i < |l| && a in l[i] ==> a in r && l[i] == SccOf(r, a))
    && (forall i, j, a :: 0 <= i < |l| && 0 <= j < |l| && a in l[i] && a in l[j] ==> i == j)
  }

  /** `l` together with the nodes still to be grouped covers the graph without overlap. */
  ghost predicate Covers(r: Graph, l: seq<Component>, nodes: set<int>) {
    && nodes <= r.Keys
    && (forall i, a :: 0 <= i < |l| && a in l[i] ==> a !in nodes)
    && (forall a :: a in r ==> a in nodes || exists i :: 0 <= i < |l| && a in l[i])
  }

  /** The fold that moves the nodes reaching back to `rep` into its component.  Every `IS.delete`
      is applied to a set that holds the element. */
  function Gather(r: Graph, rep: int, todo: set<int>, nodes: set<int>, scc: set<int>): (p: (set<int>, set<int>))
    requires rep in r && todo <= r.Keys
    requires forall n :: n in todo && n != rep && rep in r[n] ==> n in nodes
    ensures forall x :: x in p.0 <==> x in nodes && !(x in todo && x != rep && rep in r[x])
    ensures forall x :: x in p.1 <==> x in scc || (x in todo && x != rep && rep in r[x])
    decreases todo
  {
    if todo == {} then (nodes, scc)
    else
      var node := First(todo);
      var rest := todo - {node};
      assert todo == rest + {node};
      if node == rep || rep !in r[node] then Gather(r, rep, rest, nodes, scc)
      else
        assert node in nodes;
        Gather(r, rep, rest, nodes - {node}, scc + {node})
  }

  /** `sccs` */
  function Sccs(r: Graph, nodes: set<int>, acc: seq<Component>): (l: seq<Component>)
    requires Closed(r) && Transitive(r)
    requires SccList(r, acc) && Covers(r, acc, nodes)
    ensures SccList(r, l) && Covers(r, l, {})
    decreases nodes
  {
    if nodes == {} then acc
    else
      var rep := First(nodes);
      GatherReady(r, nodes, acc, rep);
      var (nodes', scc) := Gather(r, rep, r[rep], nodes - {rep}, {rep});
      GatherKeeps(r, nodes, acc, rep);
      assert nodes' <= nodes - {rep};
      Sccs(r, nodes', [scc] + acc)
  }

  lemma GatherReady(r: Graph, nodes: set<int>, acc: seq<Component>, rep: int)
    requires Closed(r) && Transitive(r) && SccList(r, acc) && Covers(r, acc, nodes) && rep in nodes
    ensures forall n :: n in r[rep] && n != rep && rep in r[n] ==> n in nodes - {rep}
  {
    forall n | n in r[rep] && n != rep && rep in r[n]
      ensures n in nodes
    {
      assert rep in SccOf(r, n);
      assert forall i :: 0 <= i < |acc| && n in acc[i] ==> rep in acc[i];
    }
  }

  lemma GatherKeeps(r: Graph, nodes: set<int>, acc: seq<Component>, rep: int)
    requires Closed(r) && Transitive(r) && SccList(r, acc) && Covers(r, acc, nodes) && rep in nodes
    requires forall n :: n in r[rep] && n != rep && rep in r[n] ==> n in nodes - {rep}
    ensures var (nodes', scc) := Gather(r, rep, r[rep], nodes - {rep}, {rep});
            scc == SccOf(r, rep) && SccList(r, [scc] + acc) && Covers(r, [scc] + acc, nodes')
  {
    var (nodes', scc) := Gather(r, rep, r[rep], nodes - {rep}, {rep});
    assert scc == SccOf(r, rep);
    assert scc <= nodes;
    var l := [scc] + acc;
    forall i, a | 0 <= i < |l| && a in l[i]
      ensures a in r && l[i] == SccOf(r, a)
    {
      if i == 0 {
        SccShared(r, rep, a);
      }
    }
    forall a | a in r
      ensures a in nodes' || exists i :: 0 <= i < |l| && a in l[i]
    {
      if a in nodes {
        if a !in nodes' {
          assert a in l[0];
        }
      } else {
        var i :| 0 <= i < |acc| && a in acc[i];
        assert a in l[i + 1];
      }
    }
  }

  // ---------------------------------------------------------------- topological order

  /** `depends`: compares the first member of each component only. */
  predicate Depends(r: Graph, x: Component, y: Component)
    requires First(x) in r
  {
    First(y) in r[First(x)]
  }

  predicate Workable(r: Graph, l: seq<Component>) {
    forall i {:trigger First(l[i])} :: 0 <= i < |l| ==> First(l[i]) in r
  }

  /** `List.exists (depends x) ys` */
  predicate DependsOnAny(r: Graph, x: Component, ys: seq<Component>)
    requires First(x) in r
  {
    exists y :: y in ys && Depends(r, x, y)
  }

  function Reversed(xs: seq<Component>): (l: seq<Component>)
    ensures |l| == |xs|
    ensures forall i :: 0 <= i < |l| ==> l[i] == xs[|xs| - 1 - i]
  {
    if xs == [] then [] else Reversed(xs[1..]) + [xs[0]]
  }

  lemma {:induction false} ReversedSame(xs: seq<Component>)
    ensures multiset(Reversed(xs)) == multiset(xs)
  {
    if xs != [] {
      ReversedSame(xs[1..]);
      assert xs == [xs[0]] + xs[1..];
    }
  }

  /** `List.revAppend` */
  function RevAppend(xs: seq<Component>, ys: seq<Component>): (l: seq<Component>)
    ensures l == Reversed(xs) + ys
  {
    if xs == [] then ys
    else
      assert Reversed(xs[1..]) + ([xs[0]] + ys) == Reversed(xs) + ys;
      RevAppend(xs[1..], [xs[0]] + ys)
  }

  /** `findReady`; `None` stands for its exception. */
  function FindReady(r: Graph, sccs: seq<Component>, passed: seq<Component>): (o: Option<(Component, seq<Component>)>)
    requires Workable(r, sccs)
    ensures o.Some? ==> o.value.0 in sccs && First(o.value.0) in r && !DependsOnAny(r, o.value.0, o.value.1)
    ensures o.Some? ==> multiset([o.value.0] + o.value.1) == multiset(passed) + multiset(sccs)
  {
    if sccs == [] then None
    else
      var nodes, rest := sccs[0], sccs[1..];
      assert sccs == [nodes] + rest;
      if DependsOnAny(r, nodes, passed) || DependsOnAny(r, nodes, rest) then
        FindReady(r, rest, [nodes] + passed)
      else
        ReversedSame(passed);
        NothingDependedOn(r, nodes, passed, rest);
        Some((nodes, RevAppend(passed, rest)))
  }

  lemma NothingDependedOn(r: Graph, x: Component, passed: seq<Component>, rest: seq<Component>)
    requires First(x) in r && !DependsOnAny(r, x, passed) && !DependsOnAny(r, x, rest)
    ensures !DependsOnAny(r, x, Reversed(passed) + rest)
  {
    forall y | y in Reversed(passed) + rest
      ensures !Depends(r, x, y)
    {
      assert y in Reversed(passed) ==> y in passed;
    }
  }

  /** A component that depends on no other one is found, if nothing before it is. */
  lemma {:induction false} ReadyFound(r: Graph, sccs: seq<Component>, passed: seq<Component>, k: nat)
    requires Workable(r, sccs) && k < |sccs|
    requires !DependsOnAny(r, sccs[k], passed)
    requires forall j :: 0 <= j < |sccs| && j != k ==> !Depends(r, sccs[k], sccs[j])
    ensures FindReady(r, sccs, passed).Some?
  {
    if k > 0 {
      assert sccs[1..][k - 1] == sccs[k];
      forall y | y in [sccs[0]] + passed
        ensures !Depends(r, sccs[k], y)
      {
        assert y == sccs[0] || y in passed;
      }
      ReadyFound(r, sccs[1..], [sccs[0]] + passed, k - 1);
    }
  }

  // The members of a component list whose representative `x` reaches, other than `x` itself.
  ghost function Ahead(r: Graph, l: seq<Component>, i: nat): set<nat>
    requires i < |l| && Workable(r, l)
  {
    set j | 0 <= j < |l| && j != i && Depends(r, l[i], l[j])
  }

  /** Some component in a nonempty list depends on none of the others. */
  lemma {:induction false} FindSink(r: Graph, l: seq<Component>, i: nat) returns (k: nat)
    requires Closed(r) && Transitive(r) && SccList(r, l) && Workable(r, l) && i < |l|
    ensures k < |l| && Ahead(r, l, k) == {}
    decreases Ahead(r, l, i)
  {
    if j :| j in Ahead(r, l, i) {
      var x, y := First(l[i]), First(l[j]);
      assert x in r[y] ==> y in SccOf(r, x);
      assert l[i] == SccOf(r, x) && l[i] !! l[j];
      forall k | k in Ahead(r, l, j)
        ensures k in Ahead(r, l, i)
      {
        assert First(l[k]) in r[x];
      }
      assert j !in Ahead(r, l, j) && j in Ahead(r, l, i);
      k := FindSink(r, l, j);
    } else {
      k := i;
    }
  }

  /** `findReady` never raises on the components of a closure. */
  lemma FindReadySucceeds(r: Graph, l: seq<Component>)
    requires Closed(r) && Transitive(r) && SccList(r, l) && Workable(r, l) && l != []
    ensures FindReady(r, l, []).Some?
  {
    var k := FindSink(r, l, 0);
    forall j | 0 <= j < |l| && j != k
      ensures !Depends(r, l[k], l[j])
    {
      assert j !in Ahead(r, l, k);
    }
    ReadyFound(r, l, [], k);
  }

  /** `topo`, with `findReady`'s exception passed on. */
  function Topo(r: Graph, sccs: seq<Component>, acc: seq<Component>): (o: Option<seq<Component>>)
    requires Workable(r, sccs) && Workable(r, acc)
    ensures o.Some? ==> Workable(r, o.value)
    decreases |sccs|
  {
    if sccs == [] then
      WorkableReversed(r, acc);
      Some(Reversed(acc))
    else
      var o := FindReady(r, sccs, []);
      if o.None? then None
      else
        var (x, rest) := o.value;
        ReadyKeeps(r, sccs);
        WorkablePrepend(r, x, acc);
        Topo(r, rest, [x] + acc)
  }

  lemma ReadyKeeps(r: Graph, sccs: seq<Component>)
    requires Workable(r, sccs) && FindReady(r, sccs, []).Some?
    ensures var (x, rest) := FindReady(r, sccs, []).value;
            && |rest| < |sccs| && Workable(r, rest)
            && multiset(sccs) == multiset{x} + multiset(rest)
  {
    var (x, rest) := FindReady(r, sccs, []).value;
    assert multiset([x] + rest) == multiset{x} + multiset(rest);
    assert multiset(sccs) == multiset([x] + rest);
    assert |multiset(sccs)| == 1 + |multiset(rest)|;
    assert forall y :: y in sccs <==> y in multiset(sccs);
    forall i | 0 <= i < |rest|
      ensures First(rest[i]) in r
    {
      assert rest[i] in multiset(rest);
      assert rest[i] in sccs;
    }
  }

  lemma {:induction false} SccListNoRepeats(r: Graph, l: seq<Component>, c: Component)
    requires Closed(r) && SccList(r, l)
    ensures multiset(l)[c] <= 1
  {
    if l != [] {
      var front, last := l[..|l| - 1], l[|l| - 1];
      assert l == front + [last];
      SccListNoRepeats(r, front, c);
      var e := First(last);
      assert forall j :: 0 <= j < |front| ==> e !in front[j];
    }
  }

  /** A rearrangement of disjoint components is still a list of disjoint components. */
  lemma SccListReorder(r: Graph, l: seq<Component>, m: seq<Component>)
    requires Closed(r) && SccList(r, l) && multiset(m) == multiset(l)
    ensures SccList(r, m)
  {
    forall i | 0 <= i < |m|
      ensures m[i] in l
    {
      assert m[i] in multiset(m);
    }
    forall i, j, a | 0 <= i < |m| && 0 <= j < |m| && a in m[i] && a in m[j]
      ensures i == j
    {
      assert m[i] == SccOf(r, a) == m[j];
      SccListNoRepeats(r, l, m[i]);
      if i < j {
        TwiceIn(m, i, j);
      } else if j < i {
        TwiceIn(m, j, i);
      }
    }
  }

  lemma TwiceIn(m: seq<Component>, i: nat, j: nat)
    requires i < j < |m| && m[i] == m[j]
    ensures multiset(m)[m[i]] >= 2
  {
    assert m == m[..i] + [m[i]] + m[i + 1..j] + [m[j]] + m[j + 1..];
    assert multiset(m) == multiset(m[..i]) + multiset{m[i]} + multiset(m[i + 1..j]) + multiset{m[j]} +
      multiset(m[j + 1..]);
  }

  /** No component depends on one that comes later. */
  ghost predicate Ordered(r: Graph, l: seq<Component>)
    requires Workable(r, l)
  {
    forall i, j :: 0 <= i < j < |l| ==> !Depends(r, l[i], l[j])
  }

  /** `topo` succeeds with a rearrangement in which dependencies only point backwards. */
  lemma {:induction false} TopoOrders(r: Graph, sccs: seq<Component>, acc: seq<Component>)
    returns (u: seq<Component>)
    requires Closed(r) && Transitive(r) && SccList(r, sccs) && Workable(r, sccs) && Workable(r, acc)
    ensures Topo(r, sccs, acc) == Some(Reversed(acc) + u)
    ensures multiset(u) == multiset(sccs) && Workable(r, u) && Ordered(r, u)
    decreases |sccs|
  {
    if sccs == [] {
      u := [];
      assert Reversed(acc) + u == Reversed(acc);
    } else {
      var x, rest := TopoStep(r, sccs);
      WorkablePrepend(r, x, acc);
      var u' := TopoOrders(r, rest, [x] + acc);
      u := [x] + u';
      ReversedCons(x, acc, u');
      OrderedPrepend(r, x, rest, u');
    }
  }

  lemma WorkableReversed(r: Graph, l: seq<Component>)
    requires Workable(r, l)
    ensures Workable(r, Reversed(l))
  {
  }

  lemma WorkablePrepend(r: Graph, x: Component, l: seq<Component>)
    requires First(x) in r && Workable(r, l)
    ensures Workable(r, [x] + l)
  {
  }

  lemma TopoStep(r: Graph, sccs: seq<Component>) returns (x: Component, rest: seq<Component>)
    requires Closed(r) && Transitive(r) && SccList(r, sccs) && Workable(r, sccs) && sccs != []
    ensures FindReady(r, sccs, []) == Some((x, rest))
    ensures |rest| < |sccs| && multiset(sccs) == multiset{x} + multiset(rest)
    ensures SccList(r, rest) && Workable(r, rest)
    ensures First(x) in r && !DependsOnAny(r, x, rest)
  {
    FindReadySucceeds(r, sccs);
    ReadyKeeps(r, sccs);
    x, rest := FindReady(r, sccs, []).value.0, FindReady(r, sccs, []).value.1;
    RestComponents(r, sccs, x, rest);
  }

  lemma ReversedCons(x: Component, acc: seq<Component>, u: seq<Component>)
    ensures Reversed([x] + acc) + u == Reversed(acc) + ([x] + u)
  {
    assert ([x] + acc)[1..] == acc;
  }

  lemma RestComponents(r: Graph, sccs: seq<Component>, x: Component, rest: seq<Component>)
    requires Closed(r) && SccList(r, sccs) && multiset(sccs) == multiset{x} + multiset(rest)
    ensures SccList(r, rest)
  {
    assert multiset([x] + rest) == multiset{x} + multiset(rest);
    SccListReorder(r, sccs, [x] + rest);
    assert forall i :: 0 <= i < |rest| ==> rest[i] == ([x] + rest)[i + 1];
  }

  lemma OrderedPrepend(r: Graph, x: Component, rest: seq<Component>, u: seq<Component>)
    requires First(x) in r && !DependsOnAny(r, x, rest)
    requires multiset(u) == multiset(rest) && Workable(r, u) && Ordered(r, u)
    ensures Workable(r, [x] + u) && Ordered(r, [x] + u)
    ensures multiset([x] + u) == multiset{x} + multiset(rest)
  {
    forall j | 0 <= j < |u|
      ensures !Depends(r, x, u[j])
    {
      assert u[j] in multiset(u);
      assert u[j] in rest;
    }
  }

  // ---------------------------------------------------------------- the declarations put out

  /** `isNonrec` */
  function IsNonrec(r: Graph, nodes: Component): Option<int>
    requires First(nodes) in r
  {
    var node := First(nodes);
    if nodes - {node} == {} then
      if node in r[node] then None else Some(node)
    else None
  }

  /** `List.filter` over the group, keeping the members of `nodes`. */
  function Select(vis: seq<Def>, nodes: set<int>): (l: seq<Def>)
    ensures forall v :: v in l <==> v in vis && v.n in nodes
  {
    if vis == [] then []
    else
      assert vis == [vis[0]] + vis[1..];
      if vis[0].n in nodes then [vis[0]] + Select(vis[1..], nodes) else Select(vis[1..], nodes)
  }

  /** `valOf (List.find ...)` */
  function FindDef(vis: seq<Def>, n: int): (v: Def)
    requires n in GroupOf(vis)
    ensures v in vis && v.n == n
  {
    if vis[0].n == n then vis[0]
    else
      assert exists i :: 0 <= i < |vis[1..]| && vis[1..][i].n == n by {
        var i :| 0 <= i < |vis| && vis[i].n == n;
        assert vis[1..][i - 1] == vis[i];
      }
      FindDef(vis[1..], n)
  }

  function Emit(vis: seq<Def>, r: Graph, nodes: Component): (d: Decl)
    requires r.Keys == GroupOf(vis) && First(nodes) in r
  {
    match IsNonrec(r, nodes)
    case Some(node) => DVal(FindDef(vis, node))
    case None => DValRec(Select(vis, nodes))
  }

  function EmitAll(vis: seq<Def>, r: Graph, l: seq<Component>): (ds: seq<Decl>)
    requires r.Keys == GroupOf(vis) && Workable(r, l)
    ensures |ds| == |l| && forall i :: 0 <= i < |l| ==> ds[i] == Emit(vis, r, l[i])
  {
    if l == [] then [] else [Emit(vis, r, l[0])] + EmitAll(vis, r, l[1..])
  }

  /** The `DValRec` case of `untangle`; `None` stands for an exception. */
  function UntangleGroup(vis: seq<Def>): (o: Option<seq<Decl>>) {
    var thisGroup := GroupOf(vis);
    var edefs := Edefs(thisGroup, vis);
    var reachable := Iterate(edefs);
    FixpointTransitive(reachable);
    var sccs := Sccs(reachable, thisGroup, []);
    SccListWorkable(reachable, sccs);
    match Topo(reachable, sccs, [])
    case None => None
    case Some(order) => Some(EmitAll(vis, reachable, order))
  }

  lemma SccListWorkable(r: Graph, l: seq<Component>)
    requires Closed(r) && SccList(r, l)
    ensures Workable(r, l)
  {
  }

  function UntangleDecl(d: Decl): Option<seq<Decl>> {
    match d
    case DValRec(vis) => UntangleGroup(vis)
    case d => Some([d])
  }

  function Joined(a: Option<seq<Decl>>, b: Option<seq<Decl>>): Option<seq<Decl>> {
    if a.Some? && b.Some? then Some(a.value + b.value) else None
  }

  lemma JoinedThrice(a: Option<seq<Decl>>, b: Option<seq<Decl>>, c: Option<seq<Decl>>)
    ensures Joined(Joined(a, b), c) == Joined(a, Joined(b, c))
    ensures Joined(a, Some([])) == a
    ensures Joined(Some([]), a) == a
  {
    if a.Some? && b.Some? && c.Some? {
      assert a.value + b.value + c.value == a.value + (b.value + c.value);
    }
    assert a.Some? ==> a.value + [] == a.value && [] + a.value == a.value;
  }

  /** `untangle` on a whole file. */
  function Untangle(file: seq<Decl>): Option<seq<Decl>> {
    if file == [] then Some([])
    else
      Joined(UntangleDecl(file[0]), Untangle(file[1..]))
  }

  // ---------------------------------------------------------------- correctness

  function DefsOf(d: Decl): seq<Def> {
    match d
    case DVal(vi) => [vi]
    case DValRec(vis) => vis
    case DOther(_) => []
  }

  function AllDefs(ds: seq<Decl>): seq<Def> {
    if ds == [] then [] else DefsOf(ds[0]) + AllDefs(ds[1..])
  }

  lemma {:induction false} EdefsAt(g: set<int>, vis: seq<Def>, i: nat)
    requires Distinct(vis) && (forall v :: v in vis ==> v.n in g) && i < |vis|
    ensures Edefs(g, vis)[vis[i].n] == ExpUsed(g, vis[i].e)
  {
    var front := vis[..|vis| - 1];
    assert forall v :: v in front ==> v in vis;
    if i < |front| {
      EdefsAt(g, front, i);
      assert front[i] == vis[i];
    }
  }

  lemma {:induction false} SelectUnion(vis: seq<Def>, a: set<int>, b: set<int>)
    requires a !! b
    ensures multiset(Select(vis, a + b)) == multiset(Select(vis, a)) + multiset(Select(vis, b))
  {
    if vis != [] {
      SelectUnion(vis[1..], a, b);
    }
  }

  lemma {:induction false} SelectEverything(vis: seq<Def>, a: set<int>)
    requires forall v :: v in vis ==> v.n in a
    ensures Select(vis, a) == vis
  {
    if vis != [] {
      assert vis == [vis[0]] + vis[1..];
      SelectEverything(vis[1..], a);
    }
  }

  lemma {:induction false} SelectNothing(vis: seq<Def>, a: set<int>)
    requires forall v :: v in vis ==> v.n !in a
    ensures Select(vis, a) == []
  {
    if vis != [] {
      assert vis == [vis[0]] + vis[1..];
      SelectNothing(vis[1..], a);
    }
  }

  lemma {:induction false} SelectOne(vis: seq<Def>, n: int)
    requires Distinct(vis) && n in GroupOf(vis)
    ensures Select(vis, {n}) == [FindDef(vis, n)]
  {
    assert vis == [vis[0]] + vis[1..];
    if vis[0].n == n {
      SelectNothing(vis[1..], {n});
    } else {
      var i :| 0 <= i < |vis| && vis[i].n == n;
      assert vis[1..][i - 1] == vis[i];
      SelectOne(vis[1..], n);
    }
  }

  /** What one output declaration holds: the definitions of its component, in source order. */
  lemma EmitSelects(vis: seq<Def>, r: Graph, nodes: Component)
    requires Distinct(vis) && r.Keys == GroupOf(vis) && First(nodes) in r
    ensures DefsOf(Emit(vis, r, nodes)) == Select(vis, nodes)
  {
    if IsNonrec(r, nodes).Some? {
      assert nodes == {First(nodes)};
      SelectOne(vis, First(nodes));
    }
  }

  ghost function UnionOf(l: seq<Component>): set<int> {
    if l == [] then {} else l[0] + UnionOf(l[1..])
  }

  lemma {:induction false} InUnion(l: seq<Component>, a: int)
    ensures a in UnionOf(l) <==> exists i :: 0 <= i < |l| && a in l[i]
  {
    if l != [] {
      InUnion(l[1..], a);
      if i :| 0 <= i < |l| && a in l[i] {
        assert i > 0 ==> l[1..][i - 1] == l[i];
      }
      if i :| 0 <= i < |l[1..]| && a in l[1..][i] {
        assert l[i + 1] == l[1..][i];
      }
    }
  }

  lemma {:induction false} EmitAllSelects(vis: seq<Def>, r: Graph, l: seq<Component>)
    requires Distinct(vis) && r.Keys == GroupOf(vis) && Closed(r) && Workable(r, l) && SccList(r, l)
    ensures multiset(AllDefs(EmitAll(vis, r, l))) == multiset(Select(vis, UnionOf(l)))
  {
    if l == [] {
      SelectNothing(vis, {});
    } else {
      EmitSelects(vis, r, l[0]);
      assert SccList(r, l[1..]);
      EmitAllSelects(vis, r, l[1..]);
      forall a | a in UnionOf(l[1..])
        ensures a !in l[0]
      {
        InUnion(l[1..], a);
      }
      SelectUnion(vis, l[0], UnionOf(l[1..]));
    }
  }

  /** Nothing is lost, repeated or reordered inside a declaration. */
  ghost predicate EachOnce(vis: seq<Def>, ds: seq<Decl>) {
    && multiset(AllDefs(ds)) == multiset(vis)
    && (forall i :: 0 <= i < |ds| ==> DefsOf(ds[i]) != [] && IsSelection(vis, ds[i]))
  }

  /** The definitions of `d` are some of those of the group, in their order. */
  predicate IsSelection(vis: seq<Def>, d: Decl) {
    Subsequence(DefsOf(d), vis)
  }

  /** `a` is left of `b` when some elements are taken out. */
  predicate Subsequence(a: seq<Def>, b: seq<Def>)
    decreases |b|
  {
    a == [] || (b != [] && (Subsequence(a, b[1..]) || (a[0] == b[0] && Subsequence(a[1..], b[1..]))))
  }

  lemma {:induction false} SelectTakes(vis: seq<Def>, a: set<int>)
    ensures Subsequence(Select(vis, a), vis)
  {
    if vis != [] {
      SelectTakes(vis[1..], a);
      assert vis[0].n in a ==> Select(vis, a)[1..] == Select(vis[1..], a);
    }
  }

  ghost predicate Defines(d: Decl, n: int) {
    exists w :: w in DefsOf(d) && w.n == n
  }

  /** References into the group go to this or an earlier declaration. */
  ghost predicate ReferencesPointBack(vis: seq<Def>, ds: seq<Decl>) {
    forall i, v, n :: 0 <= i < |ds| && v in DefsOf(ds[i]) && n in GroupOf(vis) && Refers(v.e, n) ==>
      exists j :: 0 <= j <= i && Defines(ds[j], n)
  }

  /** A chain of definitions from `v` to `w`, each referring to the next one. */
  ghost predicate Chain(vis: seq<Def>, chain: seq<Def>, v: Def, w: Def) {
    && |chain| > 1 && chain[0] == v && chain[|chain| - 1] == w
    && (forall k :: 0 <= k < |chain| ==> chain[k] in vis)
    && (forall k :: 0 < k < |chain| ==> Refers(chain[k - 1].e, chain[k].n))
  }

  /** Following references from `v`, one or more, one comes to `w`. */
  ghost predicate LeadsTo(vis: seq<Def>, v: Def, w: Def) {
    exists chain :: Chain(vis, chain, v, w)
  }

  predicate Edge(g: Graph, a: int, b: int) { a in g && b in g[a] }

  /** The edges of the graph are the references between the definitions. */
  ghost predicate Mirrors(vis: seq<Def>, g: Graph) {
    && (forall v, n {:trigger v in vis, Edge(g, v.n, n)} :: v in vis ==>
          (Edge(g, v.n, n) <==> n in GroupOf(vis) && Refers(v.e, n)))
    && (forall v :: v in vis ==> v.n in GroupOf(vis))
  }

  lemma EdefsMirror(vis: seq<Def>)
    requires Distinct(vis)
    ensures Mirrors(vis, Edefs(GroupOf(vis), vis))
  {
    var g := Edefs(GroupOf(vis), vis);
    forall v, n | v in vis
      ensures Edge(g, v.n, n) <==> n in GroupOf(vis) && Refers(v.e, n)
    {
      var p :| 0 <= p < |vis| && vis[p] == v;
      EdefsAt(GroupOf(vis), vis, p);
      UsedIsReferred(GroupOf(vis), v.e, n);
    }
  }

  lemma ChainTail(vis: seq<Def>, chain: seq<Def>, v: Def, w: Def)
    requires Chain(vis, chain, v, w) && |chain| > 2
    ensures Chain(vis, chain[1..], chain[1], w)
  {
  }

  lemma {:induction false} ChainReaches(vis: seq<Def>, g: Graph, chain: seq<Def>, v: Def, w: Def)
    requires Mirrors(vis, g) && Chain(vis, chain, v, w)
    ensures ReachIn(g, |chain| - 1, v.n, w.n)
    decreases |chain|
  {
    var c := chain[1];
    assert c in vis && Edge(g, v.n, c.n);
    if |chain| > 2 {
      ChainTail(vis, chain, v, w);
      ChainReaches(vis, g, chain[1..], c, w);
    }
  }

  lemma ChainLonger(vis: seq<Def>, chain: seq<Def>, v: Def, c: Def, w: Def)
    requires v in vis && Refers(v.e, c.n) && Chain(vis, chain, c, w)
    ensures Chain(vis, [v] + chain, v, w)
  {
  }

  lemma {:induction false} ReachesChain(vis: seq<Def>, g: Graph, k: nat, v: Def, w: Def)
    requires Mirrors(vis, g) && v in vis && w in vis && Distinct(vis)
    requires ReachIn(g, k, v.n, w.n)
    ensures LeadsTo(vis, v, w)
    decreases k
  {
    if k == 1 {
      assert Edge(g, v.n, w.n);
      assert Chain(vis, [v, w], v, w);
    } else {
      var n :| n in g[v.n] && ReachIn(g, k - 1, n, w.n);
      assert Edge(g, v.n, n);
      var i :| 0 <= i < |vis| && vis[i].n == n;
      ReachesChain(vis, g, k - 1, vis[i], w);
      var chain :| Chain(vis, chain, vis[i], w);
      ChainLonger(vis, chain, v, vis[i], w);
    }
  }

  /** Reachability in the graph of a group is reachability by references. */
  lemma ReachIsLeadsTo(vis: seq<Def>, v: Def, w: Def)
    requires Distinct(vis) && v in vis && w in vis
    ensures Reach(Edefs(GroupOf(vis), vis), v.n, w.n) <==> LeadsTo(vis, v, w)
  {
    EdefsMirror(vis);
    MirroredReach(vis, Edefs(GroupOf(vis), vis), v, w);
  }

  lemma MirroredReach(vis: seq<Def>, g: Graph, v: Def, w: Def)
    requires Mirrors(vis, g) && v in vis && w in vis && Distinct(vis)
    ensures Reach(g, v.n, w.n) <==> LeadsTo(vis, v, w)
  {
    if Reach(g, v.n, w.n) {
      var k: nat :| ReachIn(g, k, v.n, w.n);
      ReachesChain(vis, g, k, v, w);
    }
    if LeadsTo(vis, v, w) {
      var chain :| Chain(vis, chain, v, w);
      ChainReaches(vis, g, chain, v, w);
    }
  }

  /** `DVal` is used exactly for a definition that does not lead back to itself. */
  ghost predicate ValsNonrecursive(vis: seq<Def>, ds: seq<Decl>) {
    forall i, v :: 0 <= i < |ds| && v in DefsOf(ds[i]) ==> (ds[i].DVal? <==> !LeadsTo(vis, v, v))
  }

  /** Two definitions share a declaration exactly when each leads to the other. */
  ghost predicate SharedIffMutual(vis: seq<Def>, ds: seq<Decl>) {
    forall i, v, w :: 0 <= i < |ds| && v in DefsOf(ds[i]) && w in vis ==>
      (w in DefsOf(ds[i]) <==> w == v || (LeadsTo(vis, v, w) && LeadsTo(vis, w, v)))
  }

  /** `order` lists the components of the graph with dependencies pointing backwards. */
  ghost predicate Plan(r: Graph, order: seq<Component>) {
    && Closed(r) && Transitive(r)
    && SccList(r, order) && Workable(r, order) && Ordered(r, order)
    && Covers(r, order, {})
  }

  lemma CoversReorder(r: Graph, l: seq<Component>, m: seq<Component>)
    requires Covers(r, l, {}) && multiset(m) == multiset(l)
    ensures Covers(r, m, {})
  {
    forall a | a in r
      ensures exists i :: 0 <= i < |m| && a in m[i]
    {
      var i :| 0 <= i < |l| && a in l[i];
      assert l[i] in multiset(l);
      assert l[i] in multiset(m);
    }
  }

  lemma GroupOrder(vis: seq<Def>) returns (r: Graph, order: seq<Component>)
    requires Distinct(vis)
    ensures r == Iterate(Edefs(GroupOf(vis), vis)) && Plan(r, order)
    ensures UntangleGroup(vis) == Some(EmitAll(vis, r, order))
  {
    r := Iterate(Edefs(GroupOf(vis), vis));
    FixpointTransitive(r);
    var sccs := Sccs(r, GroupOf(vis), []);
    order := MakePlan(r, sccs);
  }

  lemma MakePlan(r: Graph, sccs: seq<Component>) returns (order: seq<Component>)
    requires Closed(r) && Transitive(r) && SccList(r, sccs) && Covers(r, sccs, {})
    ensures Workable(r, sccs) && Plan(r, order) && Topo(r, sccs, []) == Some(order)
  {
    SccListWorkable(r, sccs);
    order := TopoOrders(r, sccs, []);
    assert Reversed([]) + order == order;
    SccListReorder(r, sccs, order);
    CoversReorder(r, sccs, order);
  }

  /** A component of one definition that does not refer to itself, and only that, becomes `DVal`. */
  lemma NonrecIsVal(vis: seq<Def>, r: Graph, nodes: Component, a: int)
    requires r.Keys == GroupOf(vis) && Closed(r) && Transitive(r) && First(nodes) in r
    requires a in nodes && a in r && nodes == SccOf(r, a)
    ensures Emit(vis, r, nodes).DVal? <==> a !in r[a]
  {
    var f := First(nodes);
    if f != a {
      assert a in nodes - {f};
    } else if b :| b in nodes - {f} {
      assert b in r[a] && a in r[b];
    }
  }

  lemma ReferenceBack(r: Graph, order: seq<Component>, i: nat, a: int, n: int) returns (j: nat)
    requires Plan(r, order) && i < |order| && a in order[i] && n in r[a]
    ensures j <= i && n in order[j]
  {
    j :| 0 <= j < |order| && n in order[j];
    var x, y := First(order[i]), First(order[j]);
    assert order[i] == SccOf(r, x) && order[j] == SccOf(r, n);
    assert x == a || a in r[x];
    assert y == n || y in r[n];
    assert Depends(r, order[i], order[j]);
  }

  lemma DirectReference(vis: seq<Def>, r: Graph, v: Def, n: int)
    requires Distinct(vis) && r == Iterate(Edefs(GroupOf(vis), vis))
    requires v in vis && n in GroupOf(vis) && Refers(v.e, n)
    ensures n in r[v.n]
  {
    EdefsMirror(vis);
    assert Edge(Edefs(GroupOf(vis), vis), v.n, n);
  }

  lemma UnionCovers(vis: seq<Def>, r: Graph, order: seq<Component>)
    requires r.Keys == GroupOf(vis) && Covers(r, order, {})
    ensures forall v :: v in vis ==> v.n in UnionOf(order)
  {
    forall v | v in vis
      ensures v.n in UnionOf(order)
    {
      var p :| 0 <= p < |vis| && vis[p] == v;
      assert v.n in r;
      InUnion(order, v.n);
    }
  }

  lemma EmittedDefs(vis: seq<Def>, r: Graph, order: seq<Component>)
    requires Distinct(vis) && r.Keys == GroupOf(vis) && Workable(r, order)
    ensures forall i :: 0 <= i < |order| ==>
              var d := EmitAll(vis, r, order)[i];
              DefsOf(d) == Select(vis, order[i]) && DefsOf(d) != [] && IsSelection(vis, d)
  {
    forall i | 0 <= i < |order|
      ensures var d := Emit(vis, r, order[i]);
              DefsOf(d) == Select(vis, order[i]) && DefsOf(d) != [] && IsSelection(vis, d)
    {
      EmitSelects(vis, r, order[i]);
      assert FindDef(vis, First(order[i])) in Select(vis, order[i]);
      SelectTakes(vis, order[i]);
    }
  }

  lemma EmitsEveryDef(vis: seq<Def>, r: Graph, order: seq<Component>)
    requires Distinct(vis) && r.Keys == GroupOf(vis) && Plan(r, order)
    ensures multiset(AllDefs(EmitAll(vis, r, order))) == multiset(vis)
  {
    UnionCovers(vis, r, order);
    SelectEverything(vis, UnionOf(order));
    EmitAllSelects(vis, r, order);
  }

  lemma EmitsReferencesBack(vis: seq<Def>, r: Graph, order: seq<Component>, ds: seq<Decl>)
    requires Distinct(vis) && r == Iterate(Edefs(GroupOf(vis), vis)) && Plan(r, order) && |ds| == |order|
    requires forall i :: 0 <= i < |order| ==> DefsOf(ds[i]) == Select(vis, order[i])
    ensures ReferencesPointBack(vis, ds)
  {
    forall i, v, n | 0 <= i < |ds| && v in DefsOf(ds[i]) && n in GroupOf(vis) && Refers(v.e, n)
      ensures exists j :: 0 <= j <= i && Defines(ds[j], n)
    {
      DirectReference(vis, r, v, n);
      var j := ReferenceBack(r, order, i, v.n, n);
      assert FindDef(vis, n) in DefsOf(ds[j]);
      assert Defines(ds[j], n);
    }
  }

  lemma EmitsValsNonrecursive(vis: seq<Def>, r: Graph, order: seq<Component>)
    requires Distinct(vis) && r == Iterate(Edefs(GroupOf(vis), vis)) && Plan(r, order)
    requires forall i :: 0 <= i < |order| ==> DefsOf(EmitAll(vis, r, order)[i]) == Select(vis, order[i])
    ensures ValsNonrecursive(vis, EmitAll(vis, r, order))
  {
    var g, ds := Edefs(GroupOf(vis), vis), EmitAll(vis, r, order);
    forall i, v | 0 <= i < |ds| && v in DefsOf(ds[i])
      ensures ds[i].DVal? <==> !LeadsTo(vis, v, v)
    {
      NonrecIsVal(vis, r, order[i], v.n);
      IterateIsClosure(g, v.n, v.n);
      ReachIsLeadsTo(vis, v, v);
    }
  }

  lemma SameComponent(r: Graph, order: seq<Component>, i: nat, a: int, b: int)
    requires Closed(r) && SccList(r, order) && i < |order| && a in order[i] && b in r
    ensures b in order[i] <==> b == a || (b in r[a] && a in r[b])
  {
    assert order[i] == SccOf(r, a);
  }

  lemma EmitsComponents(vis: seq<Def>, r: Graph, order: seq<Component>, ds: seq<Decl>)
    requires Distinct(vis) && r == Iterate(Edefs(GroupOf(vis), vis)) && Plan(r, order) && |ds| == |order|
    requires forall i :: 0 <= i < |order| ==> DefsOf(ds[i]) == Select(vis, order[i])
    ensures SharedIffMutual(vis, ds)
  {
    var g := Edefs(GroupOf(vis), vis);
    forall i, v, w | 0 <= i < |ds| && v in DefsOf(ds[i]) && w in vis
      ensures w in DefsOf(ds[i]) <==> w == v || (LeadsTo(vis, v, w) && LeadsTo(vis, w, v))
    {
      IterateIsClosure(g, v.n, w.n);
      IterateIsClosure(g, w.n, v.n);
      ReachIsLeadsTo(vis, v, w);
      ReachIsLeadsTo(vis, w, v);
      assert w.n == v.n ==> w == v;
      SameComponent(r, order, i, v.n, w.n);
    }
  }

  /** `untangle` raises no exception on any group of distinctly named definitions, and splits it
      into its components in dependency order. */
  lemma UntangleCorrect(vis: seq<Def>)
    requires Distinct(vis)
    ensures UntangleGroup(vis).Some?
    ensures var ds := UntangleGroup(vis).value;
            && EachOnce(vis, ds)
            && ReferencesPointBack(vis, ds)
            && ValsNonrecursive(vis, ds)
            && SharedIffMutual(vis, ds)
  {
    var r, order := GroupOrder(vis);
    var ds := EmitAll(vis, r, order);
    EmittedDefs(vis, r, order);
    EmitsEveryDef(vis, r, order);
    EmitsReferencesBack(vis, r, order, ds);
    EmitsValsNonrecursive(vis, r, order);
    EmitsComponents(vis, r, order, ds);
  }

  lemma GroupKept(vis: seq<Def>)
    requires Distinct(vis)
    ensures UntangleGroup(vis).Some? && multiset(AllDefs(UntangleGroup(vis).value)) == multiset(vis)
  {
    UntangleCorrect(vis);
  }

  /** The rest of the file passes through, and the whole file is processed without an exception. */
  lemma {:induction false} UntangleFile(file: seq<Decl>)
    requires forall d :: d in file && d.DValRec? ==> Distinct(d.vis)
    ensures Untangle(file).Some?
    ensures multiset(AllDefs(Untangle(file).value)) == multiset(AllDefs(file))
  {
    if file != [] {
      assert file[0] in file;
      UntangleFile(file[1..]);
      if file[0].DValRec? {
        GroupKept(file[0].vis);
        AllDefsConcat(UntangleGroup(file[0].vis).value, Untangle(file[1..]).value);
      } else {
        AllDefsConcat([file[0]], Untangle(file[1..]).value);
        assert AllDefs([file[0]]) == DefsOf(file[0]);
      }
    }
  }

  /** Declarations stay where they are: a file is processed declaration by declaration, a group
      giving way to its declarations and every other one staying as it is. */
  lemma {:induction false} UntangleConcat(a: seq<Decl>, b: seq<Decl>)
    ensures Untangle(a + b) == Joined(Untangle(a), Untangle(b))
  {
    if a == [] {
      assert a + b == b;
      JoinedThrice(Untangle(b), None, None);
    } else {
      assert (a + b)[1..] == a[1..] + b && (a + b)[0] == a[0];
      UntangleConcat(a[1..], b);
      JoinedThrice(UntangleDecl(a[0]), Untangle(a[1..]), Untangle(b));
    }
  }

  lemma UntangleOne(d: Decl)
    ensures Untangle([d]) == if d.DValRec? then UntangleGroup(d.vis) else Some([d])
  {
    assert [d][0] == d && [d][1..] == [] && Untangle([]) == Some([]);
    JoinedThrice(UntangleDecl(d), None, None);
  }

  lemma {:induction false} AllDefsConcat(a: seq<Decl>, b: seq<Decl>)
    ensures AllDefs(a + b) == AllDefs(a) + AllDefs(b)
  {
    if a == [] {
      assert a + b == b;
    } else {
      assert (a + b)[1..] == a[1..] + b;
      AllDefsConcat(a[1..], b);
    }
  }
}
