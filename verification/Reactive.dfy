/** The browser's reactive graph: sources, the nodes that show signals over them, and the
    registration lists that connect the two. */
module Reactive {

  datatype Option<T> = None | Some(value: T)

  /** JavaScript data held by a source. */
  datatype Val = Null | Num(n: int) | Str(s: string) | Obj(fields: map<string, Val>)

  // ---------------------------------------------------------------- cons lists

  /** What `remove` returns: the prefix before the element comes back reversed, and a list that does
      not hold the element comes back empty. */
  function Removed<T(==)>(x: T, ls: seq<T>, passed: seq<T>): seq<T> {
    if ls == [] then []
    else if ls[0] == x then passed + ls[1..]
    else Removed(x, ls[1..], [ls[0]] + passed)
  }

  /** What `union` returns. */
  function Unioned<T(==)>(ls1: seq<T>, ls2: seq<T>, acc: seq<T>): seq<T> {
    if ls1 == [] then acc
    else Unioned(ls1[1..], ls2, if ls1[0] in ls2 then acc else [ls1[0]] + acc)
  }

  method Member<T(==)>(x: T, ls0: seq<T>) returns (b: bool)
    ensures b <==> x in ls0
  {
    var ls := ls0;
    while ls != []
      invariant x in ls0 <==> x in ls
    {
      if ls[0] == x {
        return true;
      }
      ls := ls[1..];
    }
    return false;
  }

  method Concat<T>(ls1: seq<T>, ls2: seq<T>) returns (acc: seq<T>)
    ensures acc == ls1 + ls2
  {
    acc := ls2;
    var n := |ls1|;
    while n > 0
      invariant 0 <= n <= |ls1| && acc == ls1[n..] + ls2
    {
      n := n - 1;
      acc := [ls1[n]] + acc;
    }
  }

  method Remove<T(==)>(x: T, ls0: seq<T>) returns (r: seq<T>)
    ensures r == Removed(x, ls0, [])
  {
    var acc, ls := [], ls0;
    while ls != []
      invariant Removed(x, ls, acc) == Removed(x, ls0, [])
    {
      if ls[0] == x {
        r := Concat(acc, ls[1..]);
        return;
      }
      acc := [ls[0]] + acc;
      ls := ls[1..];
    }
    return ls;
  }

  method Union<T(==)>(ls1: seq<T>, ls2: seq<T>) returns (acc: seq<T>)
    ensures acc == Unioned(ls1, ls2, ls2)
  {
    acc := ls2;
    var ls := ls1;
    while ls != []
      invariant Unioned(ls, ls2, acc) == Unioned(ls1, ls2, ls2)
    {
      var b := Member(ls[0], ls2);
      if !b {
        acc := [ls[0]] + acc;
      }
      ls := ls[1..];
    }
  }

  lemma {:induction false} RemovedCount<T>(x: T, ls: seq<T>, passed: seq<T>)
    ensures multiset(Removed(x, ls, passed))
         == if x in ls then multiset(passed) + multiset(ls) - multiset{x} else multiset{}
  {
    if ls != [] {
      assert ls == [ls[0]] + ls[1..];
      if ls[0] != x {
        RemovedCount(x, ls[1..], [ls[0]] + passed);
      }
    }
  }

  /** `remove` takes one occurrence away exactly when there is one to take; asked to remove an
      element that is absent, it drops the whole list. */
  lemma RemoveTakesOne<T>(x: T, ls: seq<T>)
    ensures multiset(Removed(x, ls, [])) == multiset(ls) - multiset{x} <==> x in ls || ls == []
    ensures x !in ls ==> Removed(x, ls, []) == []
  {
    RemovedCount(x, ls, []);
    if x !in ls && ls != [] {
      assert ls[0] in multiset(ls);
    }
  }

  lemma {:induction false} UnionedCount<T>(ls1: seq<T>, ls2: seq<T>, acc: seq<T>, x: T)
    ensures multiset(Unioned(ls1, ls2, acc))[x] == multiset(acc)[x] + if x in ls2 then 0 else multiset(ls1)[x]
  {
    if ls1 != [] {
      assert ls1 == [ls1[0]] + ls1[1..];
      UnionedCount(ls1[1..], ls2, if ls1[0] in ls2 then acc else [ls1[0]] + acc, x);
    }
  }

  // ---------------------------------------------------------------- signals

  /** `sr`, `ss` and `sb`, and code that throws.  The continuation of a bind is a total function, given as its graph. */
  datatype Signal = Return(v: Val) | Read(s: Source) | Bind(x: Signal, k: imap<Val, Signal>) | Throw

  /** What running a signal reports: the sources it read, and its value. */
  datatype Report = Report(sources: seq<Source>, data: Val)

  ghost predicate Within(sig: Signal, dom: set<Source>) {
    match sig
    case Return(_) => true
    case Read(s) => s in dom
    case Bind(x, k) => Within(x, dom) && forall v :: v in k && Within(k[v], dom)
    case Throw => true
  }

  /** The value of a signal in a store, with the sources that `union` collects on the way; nothing if it throws. */
  ghost function Eval(sig: Signal, store: map<Source, Val>): Option<Report>
    requires Within(sig, store.Keys)
  {
    match sig
    case Return(v) => Some(Report([], v))
    case Read(s) => Some(Report([s], store[s]))
    case Bind(x, k) =>
      (match Eval(x, store)
       case None => None
       case Some(r1) =>
         match Eval(k[r1.data], store)
         case None => None
         case Some(r2) => Some(Report(Unioned(r1.sources, r2.sources, r2.sources), r2.data)))
    case Throw => None
  }

  /** A signal with no code in it that throws. */
  ghost predicate Total(sig: Signal) {
    match sig
    case Return(_) => true
    case Read(_) => true
    case Bind(x, k) => Total(x) && forall v :: v in k && Total(k[v])
    case Throw => false
  }

  lemma {:induction false} TotalReports(sig: Signal, store: map<Source, Val>)
    requires Within(sig, store.Keys) && Total(sig)
    ensures Eval(sig, store).Some?
  {
    match sig {
      case Return(_) =>
      case Read(_) =>
      case Bind(x, k) =>
        TotalReports(x, store);
        TotalReports(k[Eval(x, store).value.data], store);
    }
  }

  /** A signal reports each source once, and only sources of the page. */
  lemma {:induction false} ReportsOnce(sig: Signal, store: map<Source, Val>, s: Source)
    requires Within(sig, store.Keys) && Eval(sig, store).Some?
    ensures var r := Eval(sig, store).value; multiset(r.sources)[s] <= 1 && (s in r.sources ==> s in store)
  {
    match sig {
      case Return(_) =>
      case Read(_) =>
      case Bind(x, k) =>
        var r1 := Eval(x, store).value;
        var r2 := Eval(k[r1.data], store).value;
        ReportsOnce(x, store, s);
        ReportsOnce(k[r1.data], store, s);
        UnionedCount(r1.sources, r2.sources, r2.sources, s);
        var ss: seq<Source> := Eval(sig, store).value.sources;
        assert s in ss <==> multiset(ss)[s] > 0;
    }
  }

  lemma AllReportedOnce(sig: Signal, store: map<Source, Val>)
    requires Within(sig, store.Keys) && Eval(sig, store).Some?
    ensures forall s ::
      s in Eval(sig, store).value.sources ==> s in store && multiset(Eval(sig, store).value.sources)[s] == 1
  {
    var ss: seq<Source> := Eval(sig, store).value.sources;
    forall s | s in ss ensures s in store && multiset(ss)[s] == 1 {
      ReportsOnce(sig, store, s);
      assert s in multiset(ss);
    }
  }

  /** A source outside the reported set cannot affect a signal. */
  lemma {:induction false} UnreportedCannotMatter(sig: Signal, store: map<Source, Val>, s: Source, v: Val)
    requires Within(sig, store.Keys) && s in store && Eval(sig, store).Some? && s !in Eval(sig, store).value.sources
    ensures Within(sig, store[s := v].Keys) && Eval(sig, store[s := v]) == Eval(sig, store)
  {
    var store' := store[s := v];
    assert store'.Keys == store.Keys;
    match sig {
      case Return(_) =>
      case Read(_) =>
      case Bind(x, k) =>
        var r1 := Eval(x, store).value;
        var r2 := Eval(k[r1.data], store).value;
        UnionedCount(r1.sources, r2.sources, r2.sources, s);
        var ss: seq<Source> := Eval(sig, store).value.sources;
        assert s in ss <==> multiset(ss)[s] > 0;
        assert s !in r2.sources && s !in r1.sources;
        UnreportedCannotMatter(x, store, s, v);
        UnreportedCannotMatter(k[r1.data], store, s, v);
    }
  }

  // ---------------------------------------------------------------- the graph

  class Source {
    var data: Val
    var dyns: seq<Node>

    constructor (v: Val)
      ensures data == v && dyns == []
    {
      data, dyns := v, [];
    }
  }

  /** A script element that shows a signal; `shown` is what its `recreate` was last given, and `failed` says
      whether its signal threw when it was last run. */
  class Node {
    const signal: Signal
    var sources: seq<Source>
    var dead: bool
    var shown: Option<Val>
    ghost var failed: bool

    constructor (signal: Signal)
      ensures this.signal == signal && sources == [] && !dead && shown == None && !failed
    {
      this.signal := signal;
      sources, dead, shown, failed := [], false, None, false;
    }
  }

  /** What `populate`'s first loop leaves on the list of source `s`, after handling `seen`. */
  ghost function Without(n: Node, seen: seq<Source>, kept: seq<Source>, s: Source, was: seq<Node>): seq<Node> {
    if s in seen && s !in kept then Removed(n, was, []) else was
  }

  /** What the second loop adds. */
  ghost function With(n: Node, seen: seq<Source>, had: seq<Source>, s: Source, was: seq<Node>): seq<Node> {
    if s in seen && s !in had then [n] + was else was
  }

  /** What both loops make of a source's list. */
  ghost function Relisted(n: Node, had: seq<Source>, has: seq<Source>, s: Source, was: seq<Node>): seq<Node> {
    With(n, has, had, s, Without(n, had, has, s, was))
  }

  /** If the node stood once on exactly the lists of the sources it had, it now stands once on exactly
      the lists of those it has; every other node's registrations are untouched. */
  lemma RelistedCount(n: Node, had: seq<Source>, has: seq<Source>, s: Source, was: seq<Node>, m: Node)
    requires multiset(was)[n] == if s in had then 1 else 0
    ensures multiset(Relisted(n, had, has, s, was))[m]
         == if m == n then if s in has then 1 else 0 else multiset(was)[m]
  {
    RemovedCount(n, was, []);
    var left := Without(n, had, has, s, was);
    assert n in was <==> multiset(was)[n] > 0;
    assert multiset([n] + left) == multiset{n} + multiset(left);
  }

  class Page {
    ghost var sources: set<Source>
    ghost var nodes: set<Node>

    ghost function Store(): (m: map<Source, Val>)
      ensures m.Keys == sources
      reads this`sources, sources`data
    {
      map s | s in sources :: s.data
    }

    /** Each live node stands exactly once on the list of each source it last reported, and nowhere else. */
    ghost predicate Registered()
      reads this, sources`dyns, nodes`dead, nodes`sources
    {
      && (forall s, n :: s in sources && n in nodes ==>
            multiset(s.dyns)[n] == if !n.dead && s in n.sources then 1 else 0)
      && (forall s, n :: s in sources && n in s.dyns ==> n in nodes)
      && (forall s, n :: n in nodes && s in n.sources ==> s in sources && multiset(n.sources)[s] == 1)
    }

    /** The node has reported, and shown, its signal's value in the current store. */
    ghost predicate UpToDate(n: Node)
      requires Within(n.signal, sources)
      reads this`sources, sources`data, n`sources, n`shown
    {
      var r := Eval(n.signal, Store());
      r.Some? && n.sources == r.value.sources && n.shown == Some(r.value.data)
    }

    /** A node whose signal has not thrown is up to date; one that cannot throw has not. */
    ghost predicate Current(n: Node)
      requires Within(n.signal, sources)
      reads this`sources, sources`data, n`sources, n`shown, n`dead, n`failed
    {
      (!n.dead && !n.failed ==> UpToDate(n)) && (n.failed ==> !Total(n.signal))
    }

    /** What running its signal in the current store says of a live node. */
    ghost predicate Judged(n: Node)
      requires Within(n.signal, sources)
      reads this`sources, sources`data, n`sources, n`shown, n`dead, n`failed
    {
      (n.failed <==> Eval(n.signal, Store()).None?) && (!n.failed ==> UpToDate(n))
    }

    ghost predicate Valid()
      reads this, sources, nodes
    {
      && Registered()
      && forall n :: n in nodes ==> Within(n.signal, sources) && Current(n)
    }

    constructor ()
      ensures Valid() && sources == {} && nodes == {}
    {
      sources, nodes := {}, {};
    }

    /** `execF(s, null)` on a signal. */
    method Run(sig: Signal) returns (r: Option<Report>)
      requires Within(sig, sources)
      ensures r == Eval(sig, Store())
      decreases sig
    {
      match sig {
        case Return(v) => r := Some(Report([], v));
        case Read(s) => r := Some(Report([s], s.data));
        case Throw => r := None;
        case Bind(x, k) =>
          var r1 := Run(x);
          if r1.None? {
            return None;
          }
          var r2 := Run(k[r1.value.data]);
          if r2.None? {
            return None;
          }
          var ss := Union(r1.value.sources, r2.value.sources);
          r := Some(Report(ss, r2.value.data));
      }
    }

    /** The first loop of `populate`: leave the lists of sources no longer reported. The node is on all of them. */
    method Leave(n: Node, oldSources: seq<Source>, newSources: seq<Source>)
      requires forall s :: s in oldSources ==> s in sources && multiset(oldSources)[s] == 1 && n in s.dyns
      modifies sources`dyns
      ensures forall s :: s in sources ==> s.dyns == Without(n, oldSources, newSources, s, old(s.dyns))
    {
      var i := 0;
      while i < |oldSources|
        invariant 0 <= i <= |oldSources|
        invariant forall s :: s in sources ==> s.dyns == Without(n, oldSources[..i], newSources, s, old(s.dyns))
      {
        var s := oldSources[i];
        NotYetSeen(oldSources, i);
        var b := Member(s, newSources);
        if !b {
          assert n in s.dyns;
          s.dyns := Remove(n, s.dyns);
        }
        i := i + 1;
      }
      assert oldSources[..i] == oldSources;
    }

    /** The second loop of `populate`: join the lists of newly reported sources. */
    method Join(n: Node, oldSources: seq<Source>, newSources: seq<Source>)
      requires forall s :: s in newSources ==> s in sources && multiset(newSources)[s] == 1
      modifies sources`dyns
      ensures forall s :: s in sources ==> s.dyns == With(n, newSources, oldSources, s, old(s.dyns))
    {
      var i := 0;
      while i < |newSources|
        invariant 0 <= i <= |newSources|
        invariant forall s :: s in sources ==> s.dyns == With(n, newSources[..i], oldSources, s, old(s.dyns))
      {
        var s := newSources[i];
        NotYetSeen(newSources, i);
        var b := Member(s, oldSources);
        if !b {
          s.dyns := [n] + s.dyns;
        }
        i := i + 1;
      }
      assert newSources[..i] == newSources;
    }

    /** Both loops of `populate`. */
    method Relist(n: Node, had: seq<Source>, has: seq<Source>)
      requires forall s :: s in had ==> s in sources && multiset(had)[s] == 1
      requires forall s :: s in has ==> s in sources && multiset(has)[s] == 1
      requires forall s :: s in sources ==> multiset(s.dyns)[n] == if s in had then 1 else 0
      modifies sources`dyns
      ensures forall s, m: Node {:trigger multiset(s.dyns)[m]} :: s in sources ==>
                multiset(s.dyns)[m] == if m == n then if s in has then 1 else 0 else multiset(old(s.dyns))[m]
      ensures forall s, m :: s in sources && m in s.dyns ==> m == n || m in old(s.dyns)
    {
      forall s | s in had ensures n in s.dyns {
        assert multiset(s.dyns)[n] == 1;
      }
      Leave(n, had, has);
      Join(n, had, has);
      assert forall s :: s in sources ==> s.dyns == Relisted(n, had, has, s, old(s.dyns));
      forall s, m: Node | s in sources
        ensures multiset(s.dyns)[m] == if m == n then if s in has then 1 else 0 else multiset(old(s.dyns))[m]
        ensures m in s.dyns ==> m == n || m in old(s.dyns)
      {
        RelistedCount(n, had, has, s, old(s.dyns), m);
        assert m in s.dyns <==> multiset(s.dyns)[m] > 0;
      }
    }

    /** The loops of `populate`, and what they are for. */
    method Register(n: Node, has: seq<Source>)
      requires Registered() && n in nodes && !n.dead
      requires forall s :: s in has ==> s in sources && multiset(has)[s] == 1
      modifies sources`dyns, n`sources
      ensures Registered() && n.sources == has
    {
      Relist(n, n.sources, has);
      n.sources := has;
    }

    /** The body of `populate` for a live node. When its signal throws, nothing has been done yet. */
    method Refresh(n: Node)
      requires Registered() && n in nodes && !n.dead && Within(n.signal, sources)
      modifies sources`dyns, n`sources, n`shown, n`failed
      ensures Registered() && Judged(n) && (n.failed ==> n.sources == old(n.sources) && n.shown == old(n.shown))
    {
      var r := Run(n.signal);
      if r.None? {
        n.failed := true;
      } else {
        Show(n, r.value);
      }
    }

    /** What a live node does with the report of its signal. */
    method Show(n: Node, r: Report)
      requires Registered() && n in nodes && !n.dead && Within(n.signal, sources) && Eval(n.signal, Store()) == Some(r)
      modifies sources`dyns, n`sources, n`shown, n`failed
      ensures Registered() && UpToDate(n) && !n.failed
    {
      AllReportedOnce(n.signal, Store());
      Register(n, r.sources);
      n.shown, n.failed := Some(r.data), false;
    }

    /** `populate` */
    method Populate(n: Node)
      requires Registered() && n in nodes && Within(n.signal, sources)
      modifies sources`dyns, n`sources, n`shown, n`failed
      ensures Registered() && (!n.dead ==> Judged(n)) && (n.dead ==> n.failed == old(n.failed))
      ensures n.dead || n.failed ==> n.sources == old(n.sources) && n.shown == old(n.shown)
    {
      if n.dead {
        return;
      }
      Refresh(n);
    }

    /** `sc` */
    method AddSource(v: Val) returns (s: Source)
      requires Valid()
      modifies this`sources
      ensures Valid() && fresh(s) && sources == old(sources) + {s} && nodes == old(nodes)
      ensures Store() == old(Store())[s := v]
    {
      s := new Source(v);
      ghost var before := Store();
      sources := sources + {s};
      forall n | n in nodes
        ensures Within(n.signal, sources) && Current(n)
      {
        Widen(n.signal, before, Store());
      }
    }

    /** The creation of a node: it is populated at once. */
    method AddNode(signal: Signal) returns (n: Node)
      requires Valid() && Within(signal, sources)
      modifies this`nodes, sources`dyns
      ensures Valid() && fresh(n) && n.signal == signal && !n.dead && (n.failed <==> Eval(signal, Store()).None?)
      ensures nodes == old(nodes) + {n} && sources == old(sources) && Store() == old(Store())
    {
      n := Enter(signal);
      Populate(n);
      NotTotal(signal, Store());
    }

    /** A new node, that is on no list. */
    method Enter(signal: Signal) returns (n: Node)
      requires Registered()
      modifies this`nodes
      ensures Registered() && fresh(n) && n.signal == signal && !n.dead && nodes == old(nodes) + {n}
    {
      n := new Node(signal);
      forall s | s in sources
        ensures multiset(s.dyns)[n] == 0
      {
        assert n !in s.dyns;
      }
      nodes := nodes + {n};
    }

    /** `sv` */
    method Set(s: Source, v: Val, looseEq: (Val, Val) -> bool)
      requires Valid() && s in sources
      modifies s`data, sources`dyns, nodes`sources, nodes`shown, nodes`failed
      ensures Valid() && sources == old(sources) && nodes == old(nodes)
      ensures Store() == if looseEq(old(s.data), v) then old(Store()) else old(Store())[s := v]
      ensures !looseEq(old(s.data), v) ==> forall n {:trigger Judged(n)} ::
        n in nodes && !n.dead && n in old(s.dyns) ==> Judged(n)
      ensures forall n {:trigger n.shown} {:trigger n.sources} ::
        n in nodes && (n.failed || n !in old(s.dyns)) ==> n.shown == old(n.shown) && n.sources == old(n.sources)
    {
      if looseEq(s.data, v) {
        return;
      }
      s.data := v;
      assert Store() == old(Store())[s := v];
      forall n | n in nodes && !n.dead && !n.failed && n !in s.dyns
        ensures UpToDate(n)
      {
        assert multiset(s.dyns)[n] == 0;
        UnreportedCannotMatter(n.signal, old(Store()), s, v);
      }
      PopulateAll(s.dyns);
    }

    /** The loop of `sv`, over the list as it was when the loop started. */
    method PopulateAll(ls: seq<Node>)
      requires Registered() && (forall n :: n in ls ==> n in nodes)
      requires forall n :: n in nodes ==> Within(n.signal, sources)
      requires forall n :: n in nodes && n !in ls ==> Current(n)
      requires forall n :: n in nodes && n.failed ==> !Total(n.signal)
      modifies sources`dyns, nodes`sources, nodes`shown, nodes`failed
      ensures Valid() && Store() == old(Store())
      ensures forall n {:trigger Judged(n)} :: n in nodes && !n.dead && n in ls ==> Judged(n)
      ensures forall n {:trigger n.shown} {:trigger n.sources} ::
        n in nodes && (n.failed || n !in ls) ==> n.shown == old(n.shown) && n.sources == old(n.sources)
    {
      var i := 0;
      while i < |ls|
        invariant 0 <= i <= |ls| && Registered() && Store() == old(Store())
        invariant forall n {:trigger Current(n)} :: n in nodes && n !in ls[i..] ==> Current(n)
        invariant forall n {:trigger n.failed} :: n in nodes && n.failed ==> !Total(n.signal)
        invariant forall n {:trigger Judged(n)} :: n in nodes && !n.dead && n in ls[..i] ==> Judged(n)
        invariant forall n {:trigger n.shown} {:trigger n.sources} ::
          n in nodes && (n.failed || n !in ls[..i]) ==> n.shown == old(n.shown) && n.sources == old(n.sources)
      {
        NotTotal(ls[i].signal, Store());
        ghost var before := ls[..i];
        assert ls[i] in before && !ls[i].dead ==> Judged(ls[i]);
        Populate(ls[i]);
          assert ls[..i + 1] == before + [ls[i]];
        i := i + 1;
      }
      assert ls[..i] == ls;
    }

    /** `killScript`, on a live node. */
    method Kill(n: Node)
      requires Valid() && n in nodes && !n.dead
      modifies sources`dyns, n`dead
      ensures Valid() && n.dead && sources == old(sources) && nodes == old(nodes) && Store() == old(Store())
    {
      Unregister(n);
    }

    method Unregister(n: Node)
      requires Registered() && n in nodes && !n.dead
      modifies sources`dyns, n`dead
      ensures Registered() && n.dead
    {
      n.dead := true;
      Relist(n, n.sources, []);
    }
  }

  /** On a page whose signals cannot throw every live node shows the value of its signal. */
  lemma AllUpToDate(page: Page, n: Node)
    requires page.Valid() && n in page.nodes && !n.dead && Total(n.signal)
    ensures page.UpToDate(n)
  {
    assert page.Current(n);
  }

  /** A signal that reads `a` first, and `b` only when `a` is not zero; it throws when `b` is null. */
  ghost predicate Guarded(sig: Signal, a: Source, b: Source) {
    && sig.Bind? && sig.x == Read(a) && (forall v: Val :: v in sig.k)
    && forall v: Val {:trigger sig.k[v]} :: if v == Num(0) then sig.k[v] == Return(v) else GuardedRest(sig.k[v], b)
  }

  ghost predicate GuardedRest(sig: Signal, b: Source) {
    && sig.Bind? && sig.x == Read(b) && (forall v: Val :: v in sig.k)
    && forall v: Val {:trigger sig.k[v]} :: sig.k[v] == if v == Null then Throw else Return(v)
  }

  lemma GuardedWithin(sig: Signal, a: Source, b: Source, dom: set<Source>)
    requires Guarded(sig, a, b) && a in dom && b in dom
    ensures Within(sig, dom)
  {
    forall v: Val ensures v in sig.k && Within(sig.k[v], dom) {
      if v != Num(0) {
        var rest := sig.k[v];
        assert GuardedRest(rest, b);
        forall u: Val ensures u in rest.k && Within(rest.k[u], dom) {
          assert rest.k[u] == if u == Null then Throw else Return(u);
        }
      }
    }
  }

  lemma GuardedEval(sig: Signal, a: Source, b: Source, store: map<Source, Val>)
    requires Guarded(sig, a, b) && a in store && b in store && a != b && Within(sig, store.Keys)
    ensures Eval(sig, store) == if store[a] == Num(0) then Some(Report([a], Num(0)))
                                else if store[b] == Null then None
                                else Some(Report([a, b], store[b]))
  {
    var rest := sig.k[store[a]];
    assert Eval(sig.x, store) == Some(Report([a], store[a]));
    if store[a] == Num(0) {
      assert Eval(rest, store) == Some(Report([], Num(0)));
      UnionedOne(a, []);
      assert [a] + [] == [a];
    } else {
      assert GuardedRest(rest, b);
      var last := rest.k[store[b]];
      assert last == if store[b] == Null then Throw else Return(store[b]);
      assert Eval(rest.x, store) == Some(Report([b], store[b]));
      if store[b] == Null {
        assert Eval(last, store) == None && Eval(rest, store) == None;
      } else {
        assert Eval(last, store) == Some(Report([], store[b]));
        UnionedOne(b, []);
        assert [b] + [] == [b] && Eval(rest, store) == Some(Report([b], store[b]));
        UnionedOne(a, [b]);
        assert [a] + [b] == [a, b];
      }
    }
  }

  lemma UnionedOne<T>(x: T, ls: seq<T>)
    requires x !in ls
    ensures Unioned([x], ls, ls) == [x] + ls
  {
    assert [x][1..] == [];
  }

  lemma Listed(page: Page, n: Node, s: Source)
    requires page.Registered() && n in page.nodes && s in page.sources
    ensures n in s.dyns <==> !n.dead && s in n.sources
  {
    assert n in s.dyns <==> multiset(s.dyns)[n] > 0;
  }

  /** A node whose signal has thrown is not on the lists of the sources that the run read before it threw: when
      the cause has gone away, it still shows what it did. */
  method StaysBehind(page: Page, a: Source, b: Source, sig: Signal, looseEq: (Val, Val) -> bool) returns (n: Node)
    requires page.Valid() && a in page.sources && b in page.sources && a != b && Guarded(sig, a, b)
    requires a.data == Num(0) && b.data == Null && !looseEq(Num(0), Num(1)) && !looseEq(Null, Num(5))
    modifies page`nodes, page.sources, page.nodes
    ensures page.Valid() && n in page.nodes && !n.dead && n.signal == sig
    ensures n.shown == Some(Num(0)) && Eval(sig, page.Store()) == Some(Report([a, b], Num(5)))
  {
    GuardedWithin(sig, a, b, page.sources);
    GuardedEval(sig, a, b, page.Store());
    n := page.AddNode(sig);
    assert page.Current(n) && n.sources == [a];
    Listed(page, n, a);
    page.Set(a, Num(1), looseEq);
    GuardedEval(sig, a, b, page.Store());
    assert page.Judged(n) && n.sources == [a];
    Listed(page, n, b);
    page.Set(b, Num(5), looseEq);
    GuardedEval(sig, a, b, page.Store());
  }

  lemma NotTotal(sig: Signal, store: map<Source, Val>)
    requires Within(sig, store.Keys)
    ensures Eval(sig, store).None? ==> !Total(sig)
  {
    if Total(sig) {
      TotalReports(sig, store);
    }
  }

  /** A signal does not notice sources added to the page. */
  lemma {:induction false} Widen(sig: Signal, small: map<Source, Val>, large: map<Source, Val>)
    requires Within(sig, small.Keys) && forall s :: s in small ==> s in large && large[s] == small[s]
    ensures Within(sig, large.Keys) && Eval(sig, large) == Eval(sig, small)
  {
    match sig {
      case Return(_) =>
      case Read(_) =>
      case Throw =>
      case Bind(x, k) =>
        Widen(x, small, large);
        forall v: Val
          ensures v in k && Within(k[v], large.Keys) && Eval(k[v], large) == Eval(k[v], small)
        {
          Widen(k[v], small, large);
        }
    }
  }

  lemma NotYetSeen(ls: seq<Source>, i: nat)
    requires i < |ls| && multiset(ls)[ls[i]] == 1
    ensures ls[i] !in ls[..i] && forall s :: s in ls[..i + 1] <==> s == ls[i] || s in ls[..i]
  {
    assert ls == ls[..i] + [ls[i]] + ls[i + 1..];
    assert multiset(ls) == multiset(ls[..i]) + multiset{ls[i]} + multiset(ls[i + 1..]);
    assert ls[..i + 1] == ls[..i] + [ls[i]];
    assert forall x :: x in ls[..i] ==> x in multiset(ls[..i]);
  }
}
