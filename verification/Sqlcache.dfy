/** The SQL result cache: entries for every prefix of a key vector, invalidated by time stamps. */
module Sqlcache {

  type Key = string

  // ---------------------------------------------------------------- key vectors as strings

  const KEY_SEP := '_'

  /** Key components must not contain the separator. */
  predicate Clean(p: seq<Key>) {
    forall i :: 0 <= i < |p| ==> KEY_SEP !in p[i]
  }

  /** `_k1_k2..._kn` */
  function Encode(p: seq<Key>): string {
    if p == [] then "" else [KEY_SEP] + p[0] + Encode(p[1..])
  }

  lemma {:induction false} EncodeSnoc(p: seq<Key>, k: Key)
    ensures Encode(p + [k]) == Encode(p) + [KEY_SEP] + k
  {
    if p == [] {
      assert [k][1..] == [];
    } else {
      assert (p + [k])[1..] == p[1..] + [k];
      EncodeSnoc(p[1..], k);
    }
  }

  lemma SeparatorPlace(k: Key, rest: string, k': Key, rest': string)
    requires KEY_SEP !in k && KEY_SEP !in k'
    requires rest == "" || rest[0] == KEY_SEP
    requires rest' == "" || rest'[0] == KEY_SEP
    requires k + rest == k' + rest'
    ensures k == k' && rest == rest'
  {
    var s := k + rest;
    assert s == k' + rest';
    assert forall i :: 0 <= i < |k| ==> s[i] == k[i];
    assert forall i :: 0 <= i < |k'| ==> s[i] == k'[i];
    assert rest != "" ==> s[|k|] == KEY_SEP;
    assert rest' != "" ==> s[|k'|] == KEY_SEP;
    assert k == s[..|k|] == k';
    assert rest == s[|k|..];
  }

  /** Distinct key vectors, of whatever lengths, have distinct encodings. */
  lemma {:induction false} EncodeInjective(p: seq<Key>, q: seq<Key>)
    requires Clean(p) && Clean(q) && Encode(p) == Encode(q)
    ensures p == q
  {
    if p != [] && q != [] {
      assert Encode(p)[1..] == p[0] + Encode(p[1..]);
      assert Encode(q)[1..] == q[0] + Encode(q[1..]);
      SeparatorPlace(p[0], Encode(p[1..]), q[0], Encode(q[1..]));
      EncodeInjective(p[1..], q[1..]);
      assert p == [p[0]] + p[1..];
      assert q == [q[0]] + q[1..];
    }
  }

  lemma EncodeStep(path: seq<Key>, m: nat)
    requires m < |path|
    ensures Encode(path[..m + 1]) == Encode(path[..m]) + [KEY_SEP] + path[m]
    ensures path[..m + 1][..m] == path[..m]
  {
    assert path[..m + 1] == path[..m] + [path[m]];
    EncodeSnoc(path[..m], path[m]);
  }

  /** Without the premise two key vectors of the same length can share an entry. */
  lemma EncodeCollides()
    ensures Encode(["a_b", "c"]) == Encode(["a", "b_c"])
  {
    assert Encode(["a_b", "c"]) == "_a_b_c" by {
      assert ["a_b", "c"][1..] == ["c"];
      assert ["c"][1..] == [];
    }
    assert Encode(["a", "b_c"]) == "_a_b_c" by {
      assert ["a", "b_c"][1..] == ["b_c"];
      assert ["b_c"][1..] == [];
    }
  }

  // ---------------------------------------------------------------- the history of a cache

  datatype Option<T> = None | Some(value: T)

  /** A cached result; the stamp is rewritten when the value is installed. */
  datatype Value = Value(result: string, timeValid: nat)

  class Entry {
    const key: string
    ghost const path: seq<Key>
    var value: Option<Value>
    var timeInvalid: nat

    constructor (key: string, ghost path: seq<Key>)
      ensures this.key == key && this.path == path && value == None && timeInvalid == 0
    {
      this.key, this.path := key, path;
      value := None;
      timeInvalid := 0;
    }
  }

  /** Key vectors are written in the order the cache walks them, last array element first. */
  datatype Event =
    | Stored(path: seq<Key>, result: string)
    | Rejected(path: seq<Key>)
    | Flushed(prefix: seq<Key>)

  /** How often the clock has ticked: a flush of a cache without keys does not touch it. */
  ghost function Ticks(numKeys: nat, h: seq<Event>): nat {
    if h == [] then 0
    else Ticks(numKeys, h[..|h| - 1]) + if h[|h| - 1].Flushed? && numKeys == 0 then 0 else 1
  }

  datatype Current = Nothing | Installed(value: Value)

  /** The last value stored for a key vector, unless a matching flush came later. */
  ghost function CurrentOf(numKeys: nat, h: seq<Event>, p: seq<Key>): Current {
    if h == [] then Nothing
    else
      var before := h[..|h| - 1];
      match h[|h| - 1]
      case Stored(q, r) => if q == p then Installed(Value(r, Ticks(numKeys, before))) else CurrentOf(numKeys, before, p)
      case Rejected(_) => CurrentOf(numKeys, before, p)
      case Flushed(prefix) => if prefix <= p then Nothing else CurrentOf(numKeys, before, p)
  }

  /** The stamp of the value in the entry of a full key vector: only a later store, or a flush of all its keys,
      takes that value away. */
  ghost function HeldOf(numKeys: nat, h: seq<Event>, p: seq<Key>): Option<nat> {
    if h == [] then None
    else
      var before := h[..|h| - 1];
      match h[|h| - 1]
      case Stored(q, _) => if q == p then Some(Ticks(numKeys, before)) else HeldOf(numKeys, before, p)
      case Rejected(_) => HeldOf(numKeys, before, p)
      case Flushed(prefix) => if prefix == p then None else HeldOf(numKeys, before, p)
  }

  /** The history with one more commit of a store: it takes effect unless it is outdone. */
  ghost function Committed(numKeys: nat, h: seq<Event>, p: seq<Key>, value: Value): seq<Event> {
    h + [if Outdone(numKeys, h, p, value.timeValid) then Rejected(p) else Stored(p, value.result)]
  }

  /** Whether a value with this provisional stamp finds one in its place that is no older. */
  ghost predicate Outdone(numKeys: nat, h: seq<Event>, p: seq<Key>, provisional: nat) {
    var held := HeldOf(numKeys, h, p);
    held.Some? && held.value >= provisional
  }

  function Reversed(ks: seq<Key>): (p: seq<Key>)
    ensures |p| == |ks| && forall i :: 0 <= i < |p| ==> p[i] == ks[|ks| - 1 - i]
  {
    if ks == [] then [] else [ks[|ks| - 1]] + Reversed(ks[..|ks| - 1])
  }

  /** The non-null keys of a flush, up to the first null, in walking order. */
  function PatternPrefix(keys: seq<Option<Key>>): seq<Key> {
    if keys == [] || keys[|keys| - 1] == None then []
    else [keys[|keys| - 1].value] + PatternPrefix(keys[..|keys| - 1])
  }

  lemma PatternStep(keys: seq<Option<Key>>, n: nat, p: seq<Key>)
    requires n < |keys|
    ensures match keys[n]
            case None => p + PatternPrefix(keys[..n + 1]) == p
            case Some(k) => p + PatternPrefix(keys[..n + 1]) == (p + [k]) + PatternPrefix(keys[..n])
  {
    assert keys[..n + 1][..n] == keys[..n];
  }

  lemma PatternEnd(keys: seq<Option<Key>>, p: seq<Key>)
    ensures p + PatternPrefix(keys[..0]) == p
  {
  }

  // ---------------------------------------------------------------- the hash table

  ghost predicate CleanPaths(numKeys: nat, tree: map<seq<Key>, Entry>) {
    forall p {:trigger Clean(p)} :: p in tree ==> Clean(p) && |p| <= numKeys
  }

  /** Every node is found in the table under its encoding. */
  ghost predicate Found(table: map<string, Entry>, tree: map<seq<Key>, Entry>) {
    forall p {:trigger Encode(p)} :: p in tree ==> Encode(p) in table && table[Encode(p)] == tree[p]
  }

  ghost predicate Named(s: string, tree: map<seq<Key>, Entry>) {
    exists p :: p in tree && Encode(p) == s
  }

  /** Every table entry is a node. */
  ghost predicate NothingElse(table: map<string, Entry>, tree: map<seq<Key>, Entry>) {
    forall s :: s in table ==> Named(s, tree)
  }

  /** The hash table holds exactly the nodes. */
  ghost predicate IndexedBy(numKeys: nat, table: map<string, Entry>, only: Entry?, tree: map<seq<Key>, Entry>) {
    && CleanPaths(numKeys, tree)
    && if numKeys > 0 then only == null && [] !in tree && Found(table, tree) && NothingElse(table, tree)
       else table == map[] && (only != null <==> [] in tree) && ([] in tree ==> tree[[]] == only)
  }


  lemma IndexedAdd(numKeys: nat, table: map<string, Entry>, tree: map<seq<Key>, Entry>, p: seq<Key>, e: Entry)
    requires IndexedBy(numKeys, table, null, tree) && numKeys > 0
    requires p !in tree && p != [] && Clean(p) && |p| <= numKeys
    ensures IndexedBy(numKeys, table[Encode(p) := e], null, tree[p := e])
  {
    var table', tree' := table[Encode(p) := e], tree[p := e];
    assert Found(table', tree') by {
      forall q | q in tree'
        ensures Encode(q) in table' && table'[Encode(q)] == tree'[q]
      {
        if q != p {
          assert Clean(q);
          if Encode(q) == Encode(p) {
            EncodeInjective(p, q);
          }
        }
      }
    }
    forall q | q in tree'
      ensures Clean(q) && |q| <= numKeys
    {
      assert q in tree ==> Clean(q);
    }
    forall s | s in table'
      ensures Named(s, tree')
    {
      if s == Encode(p) {
        assert p in tree';
      } else {
        assert Named(s, tree);
        var q :| q in tree && Encode(q) == s;
        assert q in tree';
      }
    }
  }

  lemma IndexedOnly(tree: map<seq<Key>, Entry>, e: Entry)
    requires IndexedBy(0, map[], null, tree)
    ensures IndexedBy(0, map[], e, tree[[] := e])
  {
    forall q | q in tree[[] := e]
      ensures Clean(q) && |q| <= 0
    {
      assert q in tree ==> Clean(q);
    }
  }

  lemma IndexedRemove(numKeys: nat, table: map<string, Entry>, tree: map<seq<Key>, Entry>, p: seq<Key>)
    requires IndexedBy(numKeys, table, null, tree) && numKeys > 0 && p in tree && |p| == numKeys
    ensures IndexedBy(numKeys, table - {Encode(p)}, null, tree - {p})
  {
    var table', tree' := table - {Encode(p)}, tree - {p};
    assert Clean(p);
    assert Found(table', tree') by {
      forall q | q in tree'
        ensures Encode(q) in table' && table'[Encode(q)] == tree'[q]
      {
        assert Clean(q);
        if Encode(q) == Encode(p) {
          EncodeInjective(p, q);
        }
      }
    }
    forall s | s in table'
      ensures Named(s, tree')
    {
      assert Named(s, tree);
      var q :| q in tree && Encode(q) == s;
      assert q in tree';
    }
  }

  // ---------------------------------------------------------------- what a tree answers

  /** The contents of one entry; a blank one has no value and was never invalidated. */
  datatype Node = Node(value: Option<Value>, timeInvalid: nat)

  const BLANK := Node(None, 0)

  type Tree = map<seq<Key>, Node>

  ghost predicate Closed(tree: Tree) {
    forall p {:trigger p[..|p| - 1]} :: p in tree && |p| > 1 ==> p[..|p| - 1] in tree
  }

  /** Every time stamp lies in the past. */
  ghost predicate Past(tree: Tree, timeInvalid: nat, now: nat) {
    && (timeInvalid < now || timeInvalid == 0)
    && (forall p {:trigger tree[p]} :: p in tree ==> tree[p].timeInvalid < now || tree[p].timeInvalid == 0)
    && (forall p {:trigger tree[p]} :: p in tree && tree[p].value.Some? ==> tree[p].value.value.timeValid < now)
  }

  /** The value stored for `p` is newer than every flush of a prefix of `p`. */
  ghost predicate Live(tree: Tree, timeInvalid: nat, p: seq<Key>) {
    && p in tree && tree[p].value.Some? && timeInvalid < tree[p].value.value.timeValid
    && forall i {:trigger p[..i]} ::
      1 <= i <= |p| ==> p[..i] in tree && tree[p[..i]].timeInvalid < tree[p].value.value.timeValid
  }

  /** What the tree answers is what the history says is current, except for a value stored at the
      very first tick of the clock; and it holds the stamps that the history says. */
  ghost predicate Answers(numKeys: nat, tree: Tree, timeInvalid: nat, h: seq<Event>) {
    forall p {:trigger AnswersAt(numKeys, tree, timeInvalid, h, p)} ::
      |p| == numKeys && Clean(p) ==> AnswersAt(numKeys, tree, timeInvalid, h, p)
  }

  ghost predicate AnswersAt(numKeys: nat, tree: Tree, timeInvalid: nat, h: seq<Event>, p: seq<Key>) {
    var c := CurrentOf(numKeys, h, p);
    && (Live(tree, timeInvalid, p) <==> c.Installed? && c.value.timeValid > 0)
    && (Live(tree, timeInvalid, p) ==> c == Installed(tree[p].value.value))
    && StampAt(tree, p) == HeldOf(numKeys, h, p)
  }

  ghost function StampAt(tree: Tree, p: seq<Key>): Option<nat> {
    if p in tree && tree[p].value.Some? then Some(tree[p].value.value.timeValid) else None
  }

  ghost predicate Faithful(numKeys: nat, tree: Tree, timeInvalid: nat, now: nat, h: seq<Event>) {
    && Closed(tree) && Past(tree, timeInvalid, now) && now == Ticks(numKeys, h)
    && Answers(numKeys, tree, timeInvalid, h)
  }

  lemma {:induction false} PrefixesPresent(tree: Tree, p: seq<Key>, i: nat)
    requires Closed(tree) && p in tree && 1 <= i <= |p|
    ensures p[..i] in tree
    decreases |p| - i
  {
    if i == |p| {
      assert p[..i] == p;
    } else {
      PrefixesPresent(tree, p, i + 1);
      var q := p[..i + 1];
      assert q[..|q| - 1] == p[..i];
    }
  }

  /** `b` is `a` with blank nodes added for prefixes of `path`. */
  ghost predicate Grown(a: Tree, b: Tree, path: seq<Key>) {
    && (forall p :: p in a ==> p in b && b[p] == a[p])
    && (forall p :: p in b && p !in a ==> p <= path && b[p] == BLANK)
  }

  lemma GrownTrans(a: Tree, b: Tree, c: Tree, path: seq<Key>)
    requires Grown(a, b, path) && Grown(b, c, path)
    ensures Grown(a, c, path)
  {
    forall p | p in c && p !in a ensures p <= path && c[p] == BLANK {
      assert p in b ==> c[p] == b[p];
    }
  }

  lemma GrowStep(b: Tree, path: seq<Key>, m: nat)
    requires Closed(b) && m < |path| && (m > 0 ==> path[..m] in b)
    ensures var c := if path[..m + 1] in b then b else b[path[..m + 1] := BLANK];
            Grown(b, c, path) && Closed(c)
  {
    assert path[..m + 1][..m] == path[..m];
  }

  lemma GrownAnswers(numKeys: nat, a: Tree, b: Tree, ti: nat, h: seq<Event>, path: seq<Key>)
    requires Closed(a) && Grown(a, b, path) && Answers(numKeys, a, ti, h)
    ensures Answers(numKeys, b, ti, h)
  {
    forall p | |p| == numKeys && Clean(p)
      ensures AnswersAt(numKeys, b, ti, h, p)
    {
      assert AnswersAt(numKeys, a, ti, h, p);
      if p in a {
        forall i | 1 <= i <= |p|
          ensures p[..i] in a
        {
          PrefixesPresent(a, p, i);
        }
      }
    }
  }

  lemma GrownFaithful(numKeys: nat, a: Tree, b: Tree, ti: nat, t: nat, h: seq<Event>, path: seq<Key>)
    requires Faithful(numKeys, a, ti, t, h) && Grown(a, b, path) && Closed(b)
    ensures Faithful(numKeys, b, ti, t, h)
  {
    GrownAnswers(numKeys, a, b, ti, h, path);
  }

  /** Installing a value at a key vector whose path is complete, at the next tick. */
  lemma StoredAnswers(numKeys: nat, a: Tree, ti: nat, h: seq<Event>, path: seq<Key>, r: string)
    requires Faithful(numKeys, a, ti, Ticks(numKeys, h), h) && path in a && |path| == numKeys
    ensures var t := Ticks(numKeys, h);
            Faithful(numKeys, a[path := a[path].(value := Some(Value(r, t)))], ti, t + 1, h + [Stored(path, r)])
  {
    var t := Ticks(numKeys, h);
    var b, h' := a[path := a[path].(value := Some(Value(r, t)))], h + [Stored(path, r)];
    assert h'[..|h'| - 1] == h;
    forall p | |p| == numKeys && Clean(p)
      ensures AnswersAt(numKeys, b, ti, h', p)
    {
      assert AnswersAt(numKeys, a, ti, h, p);
      StoredAt(numKeys, a, ti, h, path, r, p);
    }
  }

  lemma StoredAt(numKeys: nat, a: Tree, ti: nat, h: seq<Event>, path: seq<Key>, r: string, p: seq<Key>)
    requires Closed(a) && Past(a, ti, Ticks(numKeys, h)) && path in a && |path| == numKeys
    requires |p| == numKeys && AnswersAt(numKeys, a, ti, h, p)
    ensures
      var b := a[path := a[path].(value := Some(Value(r, Ticks(numKeys, h))))];
      AnswersAt(numKeys, b, ti, h + [Stored(path, r)], p)
  {
    var b, h' := a[path := a[path].(value := Some(Value(r, Ticks(numKeys, h))))], h + [Stored(path, r)];
    assert h'[..|h'| - 1] == h;
    forall i | 1 <= i <= |p|
      ensures p[..i] in b <==> p[..i] in a
      ensures p[..i] in a ==> b[p[..i]].timeInvalid == a[p[..i]].timeInvalid
      ensures p == path ==> p[..i] in a
    {
      if p == path {
        PrefixesPresent(a, path, i);
      }
    }
  }

  lemma RejectedAnswers(numKeys: nat, a: Tree, ti: nat, h: seq<Event>, path: seq<Key>)
    requires Faithful(numKeys, a, ti, Ticks(numKeys, h), h)
    ensures Faithful(numKeys, a, ti, Ticks(numKeys, h) + 1, h + [Rejected(path)])
  {
    var h' := h + [Rejected(path)];
    assert h'[..|h'| - 1] == h;
    forall p | |p| == numKeys && Clean(p)
      ensures AnswersAt(numKeys, a, ti, h', p)
    {
      assert AnswersAt(numKeys, a, ti, h, p);
    }
  }

  ghost predicate NoNewValues(a: Tree, b: Tree) {
    forall p {:trigger b[p]} :: p in b ==> p in a && (b[p].value == None || b[p].value == a[p].value)
  }

  /** A flush whose first key is null invalidates everything. */
  lemma FlushAllAnswers(numKeys: nat, a: Tree, ti: nat, h: seq<Event>)
    requires Faithful(numKeys, a, ti, Ticks(numKeys, h), h) && numKeys > 0
    ensures Faithful(numKeys, a, Ticks(numKeys, h), Ticks(numKeys, h) + 1, h + [Flushed([])])
  {
    var h' := h + [Flushed([])];
    assert h'[..|h'| - 1] == h;
    forall p | |p| == numKeys && Clean(p)
      ensures AnswersAt(numKeys, a, Ticks(numKeys, h), h', p)
    {
      assert AnswersAt(numKeys, a, ti, h, p);
    }
  }

  /** A flush of a proper prefix stamps that prefix's node, if there is one. */
  lemma FlushPrefixAnswers(numKeys: nat, a: Tree, ti: nat, h: seq<Event>, prefix: seq<Key>)
    requires Faithful(numKeys, a, ti, Ticks(numKeys, h), h) && 0 < |prefix| < numKeys
    ensures var t := Ticks(numKeys, h);
            var b := if prefix in a then a[prefix := a[prefix].(timeInvalid := t)] else a;
            Faithful(numKeys, b, ti, t + 1, h + [Flushed(prefix)])
  {
    var t, h' := Ticks(numKeys, h), h + [Flushed(prefix)];
    var b := if prefix in a then a[prefix := a[prefix].(timeInvalid := t)] else a;
    assert h'[..|h'| - 1] == h;
    forall p | |p| == numKeys && Clean(p)
      ensures AnswersAt(numKeys, b, ti, h', p)
    {
      assert AnswersAt(numKeys, a, ti, h, p);
      FlushPrefixAt(numKeys, a, ti, h, prefix, p);
    }
  }

  lemma FlushPrefixAt(numKeys: nat, a: Tree, ti: nat, h: seq<Event>, prefix: seq<Key>, p: seq<Key>)
    requires Past(a, ti, Ticks(numKeys, h)) && 0 < |prefix| < numKeys == |p| && AnswersAt(numKeys, a, ti, h, p)
    ensures var b := if prefix in a then a[prefix := a[prefix].(timeInvalid := Ticks(numKeys, h))] else a;
            AnswersAt(numKeys, b, ti, h + [Flushed(prefix)], p)
  {
    var h' := h + [Flushed(prefix)];
    assert h'[..|h'| - 1] == h;
    if prefix <= p {
      assert p[..|prefix|] == prefix;
    }
  }

  /** A flush of a full key vector drops its node (or, without keys, the bare entry's value). */
  lemma FlushLeafAnswers(numKeys: nat, a: Tree, b: Tree, ti: nat, h: seq<Event>, path: seq<Key>)
    requires Faithful(numKeys, a, ti, Ticks(numKeys, h), h) && |path| == numKeys
    requires forall p :: p in a ==> |p| <= numKeys
    requires if numKeys > 0 then b == a - {path}
             else b == if path in a then a[path := a[path].(value := None)] else a
    ensures Faithful(numKeys, b, ti, Ticks(numKeys, h + [Flushed(path)]), h + [Flushed(path)])
  {
    var h' := h + [Flushed(path)];
    assert h'[..|h'| - 1] == h;
    forall p | |p| == numKeys && Clean(p)
      ensures AnswersAt(numKeys, b, ti, h', p)
    {
      assert AnswersAt(numKeys, a, ti, h, p);
      FlushLeafAt(numKeys, a, b, ti, h, path, p);
    }
  }

  /** `b` is `a` but for the value at `path`. */
  ghost predicate Without(a: Tree, b: Tree, path: seq<Key>) {
    && StampAt(b, path) == None
    && forall p {:trigger a[p]} {:trigger b[p]} :: p != path ==> (p in a <==> p in b) && (p in a ==> a[p] == b[p])
  }

  lemma FlushLeafAt(numKeys: nat, a: Tree, b: Tree, ti: nat, h: seq<Event>, path: seq<Key>, p: seq<Key>)
    requires |path| == numKeys == |p| && Without(a, b, path) && AnswersAt(numKeys, a, ti, h, p)
    ensures AnswersAt(numKeys, b, ti, h + [Flushed(path)], p)
  {
    var h' := h + [Flushed(path)];
    assert h'[..|h'| - 1] == h;
    if p == path {
      assert path <= p && p[..|p|] == p;
    } else {
      LeafElsewhere(a, b, ti, path, p);
      assert !(path <= p);
    }
  }

  lemma LeafElsewhere(a: Tree, b: Tree, ti: nat, path: seq<Key>, p: seq<Key>)
    requires |p| == |path| && p != path && Without(a, b, path)
    ensures Live(b, ti, p) <==> Live(a, ti, p)
  {
    forall i | 1 <= i <= |p|
      ensures p[..i] != path
    {
      if i == |p| {
        assert p[..i] == p;
      }
    }
  }

  // ---------------------------------------------------------------- the cache

  /** The specification's view of a cache: what each node holds, the entries that hold it, and the
      history so far. */
  datatype View = View(
    tree: Tree,
    nodes: map<seq<Key>, Entry>,
    entries: set<Entry>,
    history: seq<Event>)

  class Cache {
    const numKeys: nat
    var table: map<string, Entry>   // used when numKeys > 0
    var only: Entry?                // the bare table pointer when numKeys == 0
    var timeInvalid: nat
    var timeNow: nat

    ghost var view: View

    /** No two nodes share an entry. */
    ghost predicate Separate()
      reads this`view, view.entries
    {
      forall p {:trigger view.nodes[p]} :: p in view.nodes ==>
        view.nodes[p] in view.entries && view.nodes[p].path == p
    }

    ghost predicate Synced()
      reads this`view, view.entries
    {
      Separate() && view.tree.Keys == view.nodes.Keys && forall p {:trigger view.tree[p]} ::
        p in view.tree ==> view.tree[p] == NodeOf(view.nodes[p])
    }

    ghost function NodeOf(e: Entry): Node
      reads e
    {
      Node(e.value, e.timeInvalid)
    }

    ghost predicate Indexed()
      reads this`table, this`only, this`view
    {
      IndexedBy(numKeys, table, only, view.nodes)
    }

    ghost predicate Valid()
      reads this, view.entries
    {
      Synced() && Indexed() && Faithful(numKeys, view.tree, timeInvalid, timeNow, view.history)
    }

    /** An empty cache, its clock at zero as in the generated declarations. */
    constructor (numKeys: nat)
      ensures Valid() && this.numKeys == numKeys && view.history == [] && view.nodes == map[] && fresh(view.entries)
    {
      this.numKeys := numKeys;
      table, only, timeInvalid, timeNow := map[], null, 0, 0;
      view := View(map[], map[], {}, []);
    }

    /** `uw_Sqlcache_find` */
    method Find(ghost p: seq<Key>, key: string) returns (e: Entry?)
      requires Indexed() && numKeys > 0 && Clean(p) && key == Encode(p)
      ensures e == null <==> p !in view.nodes
      ensures e != null ==> e == view.nodes[p]
    {
      e := null;
      if key in table {
        assert Named(key, view.nodes);
        ghost var q :| q in view.nodes && Encode(q) == key;
        assert Clean(q);
        EncodeInjective(p, q);
        e := table[key];
      }
    }

    /** `uw_Sqlcache_getTimeNow` */
    method GetTimeNow() returns (t: nat)
      modifies this`timeNow
      ensures t == old(timeNow) && timeNow == t + 1
    {
      t := timeNow;
      timeNow := timeNow + 1;
    }

    /** `latest` is the newest invalidation on the way down to depth `m`. */
    ghost predicate NewestAbove(path: seq<Key>, m: nat, latest: nat)
      requires m <= |path|
      reads this`timeInvalid, this`view, view.nodes.Values
    {
      && timeInvalid <= latest
      && (forall i {:trigger path[..i]} ::
        1 <= i <= m ==> path[..i] in view.nodes && view.nodes[path[..i]].timeInvalid <= latest)
      && (latest == timeInvalid
          || exists i {:trigger path[..i]} ::
            1 <= i <= m && path[..i] in view.nodes && view.nodes[path[..i]].timeInvalid == latest)
    }

    /** The loop of `uw_Sqlcache_check`: look up every prefix, keeping the newest invalidation. */
    method Descend(keys: seq<Key>, ghost path: seq<Key>) returns (entry: Entry?, latest: nat)
      requires Indexed() && |keys| == numKeys > 0 && Clean(path) && |path| == |keys|
      requires forall i :: 0 <= i < |path| ==> path[i] == keys[|keys| - 1 - i]
      ensures entry == null ==> exists i {:trigger path[..i]} :: 1 <= i <= |path| && path[..i] !in view.nodes
      ensures entry != null ==> path in view.nodes && entry == view.nodes[path] && NewestAbove(path, |path|, latest)
    {
      var n, key := numKeys, "";
      entry, latest := null, timeInvalid;
      while n > 0
        invariant 0 <= n <= numKeys
        invariant key == Encode(path[..numKeys - n])
        invariant n < numKeys ==> path[..numKeys - n] in view.nodes && entry == view.nodes[path[..numKeys - n]]
        invariant NewestAbove(path, numKeys - n, latest)
      {
        EncodeStep(path, numKeys - n);
        n := n - 1;
        key := key + [KEY_SEP] + keys[n];
        entry := Find(path[..numKeys - n], key);
        if entry == null {
          return;
        }
        latest := if latest > entry.timeInvalid then latest else entry.timeInvalid;
      }
      assert path[..|path|] == path;
    }

    /** `uw_Sqlcache_check` */
    method Check(keys: seq<Key>) returns (r: Option<Value>)
      requires Valid() && |keys| == numKeys && Clean(keys)
      ensures var c := CurrentOf(numKeys, view.history, Reversed(keys));
              && (r.Some? <==> c.Installed? && c.value.timeValid > 0)
              && (r.Some? ==> c == Installed(r.value))
    {
      ghost var path := Reversed(keys);
      assert Clean(path);
      var entry: Entry?, latest := only, timeInvalid;
      if numKeys > 0 {
        entry, latest := Descend(keys, path);
      }
      r := if entry != null && entry.value.Some? && latest < entry.value.value.timeValid then entry.value else None;
      assert AnswersAt(numKeys, view.tree, timeInvalid, view.history, path);
      assert (r.Some? <==> Live(view.tree, timeInvalid, path)) && (r.Some? ==> r == view.tree[path].value);
    }

    /** `calloc` of an entry and `uw_Sqlcache_add` (or the bare pointer when there are no keys). */
    method AddNode(ghost p: seq<Key>, key: string) returns (e: Entry)
      requires Synced() && Indexed() && p !in view.nodes && Clean(p) && |p| <= numKeys && key == Encode(p)
      requires numKeys > 0 ==> p != []
      modifies this`table, this`only, this`view
      ensures Synced() && Indexed() && fresh(view.entries - old(view.entries)) && p in view.nodes && e == view.nodes[p]
      ensures view.tree == old(view.tree)[p := BLANK] && view.history == old(view.history)
    {
      e := new Entry(key, p);
      if numKeys == 0 {
        IndexedOnly(view.nodes, e);
        only := e;
      } else {
        IndexedAdd(numKeys, table, view.nodes, p, e);
        table := table[key := e];
      }
      view := view.(tree := view.tree[p := BLANK], nodes := view.nodes[p := e], entries := view.entries + {e});
    }

    /** One turn of the loop below: extend the key by one component and look it up or add it. */
    method FindOrAdd(ghost path: seq<Key>, ghost m: nat, k: Key, key: string) returns (key': string, e: Entry)
      requires Synced() && Indexed() && m < |path| <= numKeys && Clean(path) && k == path[m] && key == Encode(path[..m])
      modifies this`table, this`only, this`view
      ensures key' == Encode(path[..m + 1])
      ensures Synced() && Indexed() && fresh(view.entries - old(view.entries))
      ensures path[..m + 1] in view.nodes && e == view.nodes[path[..m + 1]]
      ensures view.tree ==
        if path[..m + 1] in old(view.tree) then old(view.tree) else old(view.tree)[path[..m + 1] := BLANK]
      ensures view.history == old(view.history)
    {
      EncodeStep(path, m);
      key' := key + [KEY_SEP] + k;
      var found := Find(path[..m + 1], key');
      if found == null {
        e := AddNode(path[..m + 1], key');
      } else {
        e := found;
      }
    }

    /** The same with what it does to the tree. */
    method Extend(ghost path: seq<Key>, ghost m: nat, k: Key, key: string) returns (key': string, e: Entry)
      requires Synced() && Indexed() && m < |path| <= numKeys && Clean(path) && k == path[m] && key == Encode(path[..m])
      requires Closed(view.tree) && (m > 0 ==> path[..m] in view.nodes)
      modifies this`table, this`only, this`view
      ensures key' == Encode(path[..m + 1])
      ensures Synced() && Indexed() && fresh(view.entries - old(view.entries))
      ensures path[..m + 1] in view.nodes && e == view.nodes[path[..m + 1]]
      ensures Grown(old(view.tree), view.tree, path) && Closed(view.tree) && view.history == old(view.history)
    {
      GrowStep(view.tree, path, m);
      key', e := FindOrAdd(path, m, k, key);
    }

    /** The loop of `uw_Sqlcache_storeCommitOne`: make sure that every prefix has a node. */
    method EnsurePath(keys: seq<Key>, ghost path: seq<Key>) returns (entry: Entry)
      requires Synced() && Indexed() && |keys| == numKeys > 0 && Clean(path) && |path| == |keys|
      requires Closed(view.tree)
      requires forall i :: 0 <= i < |path| ==> path[i] == keys[|keys| - 1 - i]
      modifies this`table, this`only, this`view
      ensures Synced() && Indexed() && fresh(view.entries - old(view.entries)) && path in view.nodes
      ensures entry == view.nodes[path]
      ensures Grown(old(view.tree), view.tree, path) && Closed(view.tree)
      ensures view.history == old(view.history)
    {
      var n, key := numKeys, "";
      var e: Entry? := null;
      ghost var m: nat, was := 0, view;
      while n > 0
        invariant 0 <= n <= numKeys && m == numKeys - n && key == Encode(path[..m])
        invariant m > 0 ==> path[..m] in view.nodes && e == view.nodes[path[..m]]
        invariant Synced() && Indexed() && fresh(view.entries - was.entries)
        invariant Grown(was.tree, view.tree, path) && Closed(view.tree) && view.history == was.history
      {
        n := n - 1;
        ghost var before := view.tree;
        key, e := Extend(path, m, keys[n], key);
        GrownTrans(was.tree, before, view.tree, path);
        m := m + 1;
      }
      entry := e;
      assert path[..numKeys] == path;
    }

    method FindOrAddPath(keys: seq<Key>, ghost path: seq<Key>) returns (entry: Entry)
      requires Synced() && Indexed() && |keys| == numKeys && Clean(path) && |path| == |keys|
      requires Closed(view.tree)
      requires forall i :: 0 <= i < |path| ==> path[i] == keys[|keys| - 1 - i]
      modifies this`table, this`only, this`view
      ensures Synced() && Indexed() && fresh(view.entries - old(view.entries)) && path in view.nodes
      ensures entry == view.nodes[path]
      ensures Grown(old(view.tree), view.tree, path) && Closed(view.tree)
      ensures view.history == old(view.history)
    {
      if numKeys > 0 {
        entry := EnsurePath(keys, path);
      } else if only == null {
        entry := AddNode(path, "");
      } else {
        entry := only;
      }
    }

    /** `uw_Sqlcache_storeCommitOne` */
    method StoreCommitOne(keys: seq<Key>, value: Value)
      requires Valid() && |keys| == numKeys && Clean(keys)
      modifies this, view.entries
      ensures Valid() && fresh(view.entries - old(view.entries))
      ensures var path := Reversed(keys);
              view.history == Committed(numKeys, old(view.history), path, value)
    {
      ghost var path, before := Reversed(keys), view.tree;
      assert Clean(path);
      var t := GetTimeNow();
      var entry := FindOrAddPath(keys, path);
      GrownFaithful(numKeys, before, view.tree, timeInvalid, t, view.history, path);
      Finish(entry, value, t, path);
    }

    /** The end of `uw_Sqlcache_storeCommitOne`: replace an older value, or leave a newer one. */
    method Finish(entry: Entry, value: Value, t: nat, ghost path: seq<Key>)
      requires Synced() && Indexed() && Faithful(numKeys, view.tree, timeInvalid, t, view.history)
      requires path in view.nodes && entry == view.nodes[path] && |path| == numKeys && Clean(path) && timeNow == t + 1
      modifies this`view, entry
      ensures Valid() && view.entries == old(view.entries)
      ensures view.history == Committed(numKeys, old(view.history), path, value)
    {
      assert view.tree[path] == NodeOf(entry);
      assert AnswersAt(numKeys, view.tree, timeInvalid, view.history, path);
      if entry.value == None || entry.value.value.timeValid < value.timeValid {
        Replace(entry, value, t, path);
      } else {
        RejectedAnswers(numKeys, view.tree, timeInvalid, view.history, path);
        view := view.(history := view.history + [Rejected(path)]);
      }
    }

    method Replace(entry: Entry, value: Value, t: nat, ghost path: seq<Key>)
      requires Synced() && Indexed() && Faithful(numKeys, view.tree, timeInvalid, t, view.history)
      requires path in view.nodes && entry == view.nodes[path] && |path| == numKeys && timeNow == t + 1
      modifies this`view, entry
      ensures Valid() && view.entries == old(view.entries)
      ensures view.history == old(view.history) + [Stored(path, value.result)]
    {
      StoredAnswers(numKeys, view.tree, timeInvalid, view.history, path, value.result);
      Install(entry, value, t, path);
      view := view.(history := view.history + [Stored(path, value.result)]);
    }

    method Install(entry: Entry, value: Value, t: nat, ghost path: seq<Key>)
      requires Synced() && path in view.nodes && entry == view.nodes[path]
      modifies this`view, entry
      ensures Synced() && view.history == old(view.history)
      ensures view.nodes == old(view.nodes) && view.entries == old(view.entries)
      ensures view.tree == old(view.tree)[path := old(view.tree)[path].(value := Some(Value(value.result, t)))]
    {
      entry.value := Some(value.(timeValid := t));
      view := view.(tree := view.tree[path := NodeOf(entry)]);
    }

    /** `uw_Sqlcache_flush` */
    method Flush(keys: seq<Option<Key>>)
      requires Valid() && |keys| == numKeys
      requires forall i :: 0 <= i < |keys| && keys[i].Some? ==> KEY_SEP !in keys[i].value
      modifies this, view.entries
      ensures Valid() && view.entries == old(view.entries) && NoNewValues(old(view.tree), view.tree)
      ensures timeNow == old(timeNow) + if numKeys == 0 then 0 else 1
      ensures view.history == old(view.history) + [Flushed(PatternPrefix(keys))]
    {
      if numKeys == 0 {
        FlushOnly();
        return;
      }
      var key, complete := WalkPattern(keys);
      ghost var p := PatternPrefix(keys);
      var t := GetTimeNow();
      if key == "" {
        FlushAll(t);
        return;
      }
      var entry := Find(p, key);
      if complete {
        FlushLeaf(entry, t, key, p);
      } else {
        FlushPrefix(entry, t, p);
      }
    }

    /** The loop of `uw_Sqlcache_flush`: copy keys into the buffer up to the first null. */
    static method WalkPattern(keys: seq<Option<Key>>) returns (key: string, complete: bool)
      requires forall i :: 0 <= i < |keys| && keys[i].Some? ==> KEY_SEP !in keys[i].value
      ensures Clean(PatternPrefix(keys)) && key == Encode(PatternPrefix(keys))
      ensures |PatternPrefix(keys)| <= |keys| && (complete <==> |PatternPrefix(keys)| == |keys|)
    {
      var n := |keys|;
      ghost var p: seq<Key> := [];
      key := "";
      assert keys[..|keys|] == keys;
      while n > 0
        invariant 0 <= n <= |keys| && |p| == |keys| - n && Clean(p) && key == Encode(p)
        invariant PatternPrefix(keys) == p + PatternPrefix(keys[..n])
      {
        n := n - 1;
        var k := keys[n];
        PatternStep(keys, n, p);
        if k == None {
          return key, false;
        }
        EncodeSnoc(p, k.value);
        key := key + [KEY_SEP] + k.value;
        p := p + [k.value];
      }
      PatternEnd(keys, p);
      complete := true;
    }

    /** Without keys the bare entry loses its value; the clock stands still. */
    method FlushOnly()
      requires Valid() && numKeys == 0
      modifies this`view, view.entries
      ensures Valid() && view.entries == old(view.entries) && NoNewValues(old(view.tree), view.tree)
      ensures view.history == old(view.history) + [Flushed([])]
    {
      ghost var h, a := view.history, view.tree;
      if only != null {
        only.value := None;
        view := view.(tree := view.tree[[] := NodeOf(only)]);
      }
      forall q | q in a
        ensures |q| <= numKeys
      {
        assert Clean(q);
      }
      FlushLeafAnswers(numKeys, a, view.tree, timeInvalid, h, []);
      view := view.(history := h + [Flushed([])]);
    }

    /** The first key was null. */
    method FlushAll(t: nat)
      requires Synced() && Indexed() && Faithful(numKeys, view.tree, timeInvalid, t, view.history)
      requires numKeys > 0 && timeNow == t + 1
      modifies this`timeInvalid, this`view
      ensures Valid() && view.entries == old(view.entries) && NoNewValues(old(view.tree), view.tree)
      ensures view.history == old(view.history) + [Flushed([])]
    {
      FlushAllAnswers(numKeys, view.tree, timeInvalid, view.history);
      timeInvalid := t;
      view := view.(history := view.history + [Flushed([])]);
    }

    /** A later key was null. */
    method FlushPrefix(entry: Entry?, t: nat, ghost p: seq<Key>)
      requires Synced() && Indexed() && Faithful(numKeys, view.tree, timeInvalid, t, view.history)
      requires 0 < |p| < numKeys && timeNow == t + 1
      requires if p in view.nodes then entry == view.nodes[p] else entry == null
      modifies this`view, view.entries
      ensures Valid() && view.entries == old(view.entries) && NoNewValues(old(view.tree), view.tree)
      ensures view.history == old(view.history) + [Flushed(p)]
    {
      FlushPrefixAnswers(numKeys, view.tree, timeInvalid, view.history, p);
      if entry != null {
        Invalidate(entry, t, p);
      }
      view := view.(history := view.history + [Flushed(p)]);
    }

    method Invalidate(entry: Entry, t: nat, ghost p: seq<Key>)
      requires Synced() && p in view.nodes && entry == view.nodes[p]
      modifies this`view, entry
      ensures Synced() && view.history == old(view.history)
      ensures view.nodes == old(view.nodes) && view.entries == old(view.entries)
      ensures view.tree == old(view.tree)[p := old(view.tree)[p].(timeInvalid := t)]
    {
      entry.timeInvalid := t;
      view := view.(tree := view.tree[p := NodeOf(entry)]);
    }

    /** No key was null: the entry itself is deleted. */
    method FlushLeaf(entry: Entry?, t: nat, key: string, ghost p: seq<Key>)
      requires Synced() && Indexed() && Faithful(numKeys, view.tree, timeInvalid, t, view.history)
      requires 0 < |p| == numKeys && timeNow == t + 1 && key == Encode(p)
      requires if p in view.nodes then entry == view.nodes[p] else entry == null
      modifies this`table, this`view
      ensures Valid() && view.entries == old(view.entries) && NoNewValues(old(view.tree), view.tree)
      ensures view.history == old(view.history) + [Flushed(p)]
    {
      forall q | q in view.tree
        ensures |q| <= numKeys
      {
        assert Clean(q);
      }
      FlushLeafAnswers(numKeys, view.tree, view.tree - {p}, timeInvalid, view.history, p);
      if entry != null {
        Delete(key, p);
      } else {
        assert view.tree - {p} == view.tree;
      }
      view := view.(history := view.history + [Flushed(p)]);
    }

    /** `uw_Sqlcache_delete` */
    method Delete(key: string, ghost p: seq<Key>)
      requires Synced() && Indexed() && numKeys > 0 && p in view.nodes && |p| == numKeys && key == Encode(p)
      modifies this`table, this`view
      ensures Synced() && Indexed() && view.entries == old(view.entries) && view.history == old(view.history)
      ensures view.tree == old(view.tree) - {p}
    {
      IndexedRemove(numKeys, table, view.nodes, p);
      table := table - {key};
      view := view.(tree := view.tree - {p}, nodes := view.nodes - {p});
    }
  }

  // ---------------------------------------------------------------- one transaction

  /** A value in its entry is older than the clock. */
  lemma HeldPast(cache: Cache, keys: seq<Key>)
    requires cache.Valid() && |keys| == cache.numKeys && Clean(keys)
    ensures cache.timeNow == Ticks(cache.numKeys, cache.view.history)
    ensures !Outdone(cache.numKeys, cache.view.history, Reversed(keys), cache.timeNow)
  {
    var p := Reversed(keys);
    assert Clean(p);
    assert AnswersAt(cache.numKeys, cache.view.tree, cache.timeInvalid, cache.view.history, p);
  }

  /** `uw_Sqlcache_Update`, of a store: it waits for the commit. */
  datatype Update = Update(keys: seq<Key>, value: Value)

  ghost function CommittedAll(numKeys: nat, h: seq<Event>, us: seq<Update>): seq<Event> {
    if us == [] then h
    else
      var u := us[|us| - 1];
      Committed(numKeys, CommittedAll(numKeys, h, us[..|us| - 1]), Reversed(u.keys), u.value)
  }

  /** The first of the stores for a key vector that does not find a value in its place that is no older. */
  ghost function First(numKeys: nat, h: seq<Event>, us: seq<Update>, p: seq<Key>): Option<Value> {
    if us == [] then None
    else
      var u := us[|us| - 1];
      match First(numKeys, h, us[..|us| - 1], p)
      case Some(v) => Some(v)
      case None => if Reversed(u.keys) == p && !Outdone(numKeys, h, p, u.value.timeValid) then Some(u.value) else None
  }

  /** Of the stores of a transaction for one key vector it is the first that takes effect: the others are
      outdone by the stamp that it gets when it is committed. Where there is none nothing changes. */
  lemma {:induction false} FirstWins(numKeys: nat, h: seq<Event>, us: seq<Update>, p: seq<Key>)
    requires forall i :: 0 <= i < |us| ==> us[i].value.timeValid <= Ticks(numKeys, h)
    ensures Ticks(numKeys, CommittedAll(numKeys, h, us)) == Ticks(numKeys, h) + |us|
    ensures
      var h' := CommittedAll(numKeys, h, us);
      match First(numKeys, h, us, p)
      case None =>
        CurrentOf(numKeys, h', p) == CurrentOf(numKeys, h, p) && HeldOf(numKeys, h', p) == HeldOf(numKeys, h, p)
      case Some(v) =>
        var c := CurrentOf(numKeys, h', p);
        && c.Installed? && c.value.result == v.result && c.value.timeValid >= Ticks(numKeys, h)
        && HeldOf(numKeys, h', p) == Some(c.value.timeValid)
  {
    if us != [] {
      var u, before := us[|us| - 1], CommittedAll(numKeys, h, us[..|us| - 1]);
      FirstWins(numKeys, h, us[..|us| - 1], p);
      var h' := Committed(numKeys, before, Reversed(u.keys), u.value);
      assert h'[..|h'| - 1] == before;
    }
  }

  lemma CommittedNext(numKeys: nat, h: seq<Event>, us: seq<Update>, i: nat)
    requires i < |us|
    ensures CommittedAll(numKeys, h, us[..i + 1])
         == Committed(numKeys, CommittedAll(numKeys, h, us[..i]), Reversed(us[i].keys), us[i].value)
  {
    assert us[..i + 1][..i] == us[..i];
  }

  /** What a transaction has asked of one cache. */
  class Transaction {
    const cache: Cache
    var updates: seq<Update>

    constructor (cache: Cache)
      ensures this.cache == cache && updates == []
    {
      this.cache, updates := cache, [];
    }

    ghost predicate Valid()
      reads this
    {
      forall i {:trigger updates[i]} ::
        0 <= i < |updates| ==> |updates[i].keys| == cache.numKeys && Clean(updates[i].keys)
    }

    /** `uw_Sqlcache_store`: the value is stamped for now, and waits for the commit. */
    method Store(keys: seq<Key>, result: string)
      requires Valid() && |keys| == cache.numKeys && Clean(keys)
      modifies this
      ensures Valid() && updates == old(updates) + [Update(keys, Value(result, cache.timeNow))]
    {
      updates := updates + [Update(keys, Value(result, cache.timeNow))];
    }

    /** `uw_Sqlcache_commit` */
    method Commit()
      requires Valid() && cache.Valid()
      modifies cache, cache.view.entries
      ensures cache.Valid() && fresh(cache.view.entries - old(cache.view.entries))
      ensures cache.view.history == CommittedAll(cache.numKeys, old(cache.view.history), updates)
    {
      var i := 0;
      ghost var h := cache.view.history;
      while i < |updates|
        invariant i <= |updates| && cache.Valid()
        invariant fresh(cache.view.entries - old(cache.view.entries))
        invariant cache.view.history == CommittedAll(cache.numKeys, h, updates[..i])
      {
        CommittedNext(cache.numKeys, h, updates, i);
        cache.StoreCommitOne(updates[i].keys, updates[i].value);
        i := i + 1;
      }
      assert updates[..i] == updates;
    }

    /** The commit, and then a key vector is looked up: it has the value of its first store that is not outdone,
        and if there is none what it had before. */
    method CommitAndCheck(keys: seq<Key>) returns (r: Option<Value>)
      requires Valid() && cache.Valid() && |keys| == cache.numKeys && Clean(keys)
      requires forall i :: 0 <= i < |updates| ==> updates[i].value.timeValid <= cache.timeNow
      modifies cache, cache.view.entries
      ensures cache.Valid() && fresh(cache.view.entries - old(cache.view.entries))
      ensures
        var h, p := old(cache.view.history), Reversed(keys);
        match First(cache.numKeys, h, updates, p)
        case Some(v) => old(cache.timeNow) > 0 ==> r.Some? && r.value.result == v.result
        case None =>
          var c := CurrentOf(cache.numKeys, h, p);
          (r.Some? <==> c.Installed? && c.value.timeValid > 0) && (r.Some? ==> c == Installed(r.value))
    {
      FirstWins(cache.numKeys, cache.view.history, updates, Reversed(keys));
      Commit();
      r := cache.Check(keys);
    }
  }

  /** A store that is not outdone, before any other. */
  lemma FirstOf(numKeys: nat, h: seq<Event>, keys: seq<Key>, value: Value, others: seq<Update>)
    requires !Outdone(numKeys, h, Reversed(keys), value.timeValid)
    ensures First(numKeys, h, [Update(keys, value)] + others, Reversed(keys)) == Some(value)
    decreases |others|
  {
    var us := [Update(keys, value)] + others;
    if others == [] {
      assert us[..0] == [];
    } else {
      FirstOf(numKeys, h, keys, value, others[..|others| - 1]);
      assert us[..|us| - 1] == [Update(keys, value)] + others[..|others| - 1];
    }
  }

  /** A flush leaves no value in an entry that was not in it before. */
  lemma FlushedHolds(numKeys: nat, h: seq<Event>, prefix: seq<Key>, p: seq<Key>, provisional: nat)
    requires !Outdone(numKeys, h, p, provisional)
    ensures !Outdone(numKeys, h + [Flushed(prefix)], p, provisional)
  {
    assert (h + [Flushed(prefix)])[..|h|] == h;
  }

  /** A store queued before a flush in the same transaction is stamped again when it commits, so it
      survives the flush: whatever else the cache holds, the stored value is what a later check gets. */
  method StoreFlushCommit(cache: Cache, keys: seq<Key>, flushed: seq<Option<Key>>, result: string)
    returns (r: Option<Value>)
    requires cache.Valid() && |keys| == |flushed| == cache.numKeys && Clean(keys)
    requires cache.numKeys > 0 || cache.timeNow > 0
    requires forall i :: 0 <= i < |flushed| && flushed[i].Some? ==> KEY_SEP !in flushed[i].value
    modifies cache, cache.view.entries
    ensures r.Some? && r.value.result == result
  {
    HeldPast(cache, keys);
    FlushedHolds(cache.numKeys, cache.view.history, PatternPrefix(flushed), Reversed(keys), cache.timeNow);
    FirstOf(cache.numKeys, cache.view.history + [Flushed(PatternPrefix(flushed))], keys, Value(result, cache.timeNow),
      []);
    var t := new Transaction(cache);
    t.Store(keys, result);
    cache.Flush(flushed);
    r := t.CommitAndCheck(keys);
  }

  /** And so does one that is asked for after the flush, or after no flush at all. */
  method FlushStoreCommit(cache: Cache, keys: seq<Key>, flushed: seq<Option<Key>>, result: string)
    returns (r: Option<Value>)
    requires cache.Valid() && |keys| == |flushed| == cache.numKeys && Clean(keys)
    requires cache.numKeys > 0 || cache.timeNow > 0
    requires forall i :: 0 <= i < |flushed| && flushed[i].Some? ==> KEY_SEP !in flushed[i].value
    modifies cache, cache.view.entries
    ensures r.Some? && r.value.result == result
  {
    cache.Flush(flushed);
    r := StoresCommit(cache, keys, result, []);
  }

  /** Of the stores of the same keys in one transaction it is the first that a later check gets. */
  method StoresCommit(cache: Cache, keys: seq<Key>, result: string, later: seq<string>) returns (r: Option<Value>)
    requires cache.Valid() && |keys| == cache.numKeys && Clean(keys) && cache.timeNow > 0
    modifies cache, cache.view.entries
    ensures r.Some? && r.value.result == result
  {
    HeldPast(cache, keys);
    var t := new Transaction(cache);
    t.Store(keys, result);
    var k := 0;
    while k < |later|
      invariant k <= |later| && t.Valid() && |t.updates| == k + 1
      invariant t.updates[0] == Update(keys, Value(result, cache.timeNow))
      invariant forall i :: 0 <= i < |t.updates| ==> t.updates[i].value.timeValid == cache.timeNow
      modifies t
    {
      t.Store(keys, later[k]);
      k := k + 1;
    }
    FirstOf(cache.numKeys, cache.view.history, keys, Value(result, cache.timeNow), t.updates[1..]);
    assert t.updates == [t.updates[0]] + t.updates[1..];
    r := t.CommitAndCheck(keys);
  }

  /** The first value ever stored is stamped zero, and a check never returns it. */
  method FirstStoreMissed(keys: seq<Key>, result: string) returns (r: Option<Value>)
    requires Clean(keys)
    ensures r == None
  {
    FirstStamp(|keys|, Update(keys, Value(result, 0)));
    var cache := new Cache(|keys|);
    var t := new Transaction(cache);
    t.Store(keys, result);
    t.Commit();
    r := cache.Check(keys);
  }

  lemma FirstStamp(numKeys: nat, u: Update)
    ensures CurrentOf(numKeys, CommittedAll(numKeys, [], [u]), Reversed(u.keys)) == Installed(Value(u.value.result, 0))
  {
    var p := Reversed(u.keys);
    assert [u][..0] == [] && CommittedAll(numKeys, [], [u]) == [] + [Stored(p, u.value.result)];
    assert [Stored(p, u.value.result)][..0] == [];
  }
}
