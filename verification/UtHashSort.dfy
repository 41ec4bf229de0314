/** `HASH_SRT`: the mergesort on the application-order links of the items themselves. */
module UtHashSort {
  import opened UtHash
  import LS = ListSort

  /** Writing an item after the last one of the list being built. */
  function Emit(mem: Memory, tail: Ref, e: Item): Memory
    requires e in mem && (tail.To? ==> tail.item in mem)
  {
    var m := if tail.To? then mem[tail.item := mem[tail.item].(next := To(e))] else mem;
    m[e := m[e].(prev := tail)]
  }

  /** The list built so far: all linked both ways, but for the link after the last. */
  ghost predicate Built(d: seq<Item>, slot: map<Item, nat>, mem: Memory) {
    && (forall j {:trigger BuiltAt(d, j, slot, mem)} :: BuiltAt(d, j, slot, mem))
    && forall x {:trigger InSlot(d, x, slot)} :: x in slot ==> InSlot(d, x, slot)
  }

  ghost predicate BuiltAt(d: seq<Item>, j: int, slot: map<Item, nat>, mem: Memory) {
    0 <= j < |d| ==>
      && d[j] in slot && slot[d[j]] == j && d[j] in mem
      && mem[d[j]].prev == Prev(d, j) && (j + 1 < |d| ==> mem[d[j]].next == To(d[j + 1]))
  }

  ghost predicate InSlot(d: seq<Item>, x: Item, slot: map<Item, nat>) {
    x in slot && slot[x] < |d| && d[slot[x]] == x
  }

  /** A part of the old list that has not been touched. */
  ghost predicate Rest(s: seq<Item>, lo: nat, hi: nat, slot: map<Item, nat>, mem: Memory) {
    lo <= hi <= |s| && forall j {:trigger RestAt(s, j, lo, hi, slot, mem)} :: RestAt(s, j, lo, hi, slot, mem)
  }

  ghost predicate RestAt(s: seq<Item>, j: int, lo: nat, hi: nat, slot: map<Item, nat>, mem: Memory) {
    0 <= lo <= j < hi <= |s| ==> s[j] in mem && s[j] !in slot && mem[s[j]].next == Next(s, j)
  }

  ghost predicate Distinct(s: seq<Item>) {
    forall i, j :: 0 <= i < j < |s| ==> s[i] != s[j]
  }

  lemma EmitBuilt(d: seq<Item>, slot: map<Item, nat>, mem: Memory, e: Item)
    requires Built(d, slot, mem) && e in mem && e !in slot
    ensures Top(d).To? ==> Top(d).item in mem && Top(d).item in slot
    ensures Built(d + [e], slot[e := |d|], Emit(mem, Top(d), e)) && SameBuckets(mem, Emit(mem, Top(d), e))
  {
    assert BuiltAt(d, |d| - 1, slot, mem);
    var d', slot', mem' := d + [e], slot[e := |d|], Emit(mem, Top(d), e);
    forall j: int ensures BuiltAt(d', j, slot', mem') {
      assert BuiltAt(d, j, slot, mem);
    }
    forall x | x in slot' ensures InSlot(d', x, slot') {
      assert x != e ==> InSlot(d, x, slot);
    }
  }

  lemma EmitRest(s: seq<Item>, lo: nat, hi: nat, lo': nat, d: seq<Item>, slot: map<Item, nat>, mem: Memory, e: Item)
    requires Rest(s, lo, hi, slot, mem) && lo <= lo' <= hi && Built(d, slot, mem) && e in mem && e !in slot
    requires forall j {:trigger s[j]} :: lo' <= j < hi ==> s[j] != e
    ensures Top(d).To? ==> Top(d).item in mem
    ensures Rest(s, lo', hi, slot[e := |d|], Emit(mem, Top(d), e))
  {
    assert BuiltAt(d, |d| - 1, slot, mem);
    var slot', mem' := slot[e := |d|], Emit(mem, Top(d), e);
    forall j: int ensures RestAt(s, j, lo', hi, slot', mem') {
      assert RestAt(s, j, lo, hi, slot, mem);
    }
  }

  /** What two runs have left, `s[i..mid]` and `s[c..end]`, and the rest of the list after them. */
  ghost predicate Merging(s: seq<Item>, i: nat, mid: nat, c: nat, d: seq<Item>, slot: map<Item, nat>, mem: Memory) {
    i <= mid <= c <= |s| && Rest(s, i, mid, slot, mem) && Rest(s, c, |s|, slot, mem) && Built(d, slot, mem)
  }

  /** All of `s[lo..hi]` has been written. */
  ghost predicate Taken(s: seq<Item>, lo: nat, hi: nat, slot: map<Item, nat>) {
    lo <= hi <= |s| && forall j {:trigger s[j]} :: lo <= j < hi ==> s[j] in slot
  }

  lemma TakeFirst(s: seq<Item>, i: nat, mid: nat, c: nat, d: seq<Item>, slot: map<Item, nat>, mem: Memory)
    requires Merging(s, i, mid, c, d, slot, mem) && Distinct(s) && i < mid
    ensures s[i] in mem && (Top(d).To? ==> Top(d).item in mem)
    ensures Merging(s, i + 1, mid, c, d + [s[i]], slot[s[i] := |d|], Emit(mem, Top(d), s[i]))
    ensures SameBuckets(mem, Emit(mem, Top(d), s[i])) && mem[s[i]].next == Next(s, i)
  {
    assert RestAt(s, i, i, mid, slot, mem);
    EmitBuilt(d, slot, mem, s[i]);
    EmitRest(s, i, mid, i + 1, d, slot, mem, s[i]);
    EmitRest(s, c, |s|, c, d, slot, mem, s[i]);
  }

  lemma TakeSecond(s: seq<Item>, i: nat, mid: nat, c: nat, d: seq<Item>, slot: map<Item, nat>, mem: Memory)
    requires Merging(s, i, mid, c, d, slot, mem) && Distinct(s) && c < |s|
    ensures s[c] in mem && (Top(d).To? ==> Top(d).item in mem)
    ensures Merging(s, i, mid, c + 1, d + [s[c]], slot[s[c] := |d|], Emit(mem, Top(d), s[c]))
    ensures SameBuckets(mem, Emit(mem, Top(d), s[c])) && mem[s[c]].next == Next(s, c)
  {
    assert RestAt(s, c, c, |s|, slot, mem);
    EmitBuilt(d, slot, mem, s[c]);
    EmitRest(s, i, mid, i, d, slot, mem, s[c]);
    EmitRest(s, c, |s|, c + 1, d, slot, mem, s[c]);
  }

  /** The merge of what the runs have left, after what has been built. */
  ghost predicate Aims(d: seq<Item>, p: seq<Item>, q: seq<Item>, goal: seq<Item>, cmp: (Item, Item) -> int) {
    d + LS.Merge(p, q, cmp) == goal
  }

  lemma AimFirst(d: seq<Item>, p: seq<Item>, q: seq<Item>, goal: seq<Item>, cmp: (Item, Item) -> int)
    requires Aims(d, p, q, goal, cmp) && p != [] && (q == [] || cmp(p[0], q[0]) <= 0)
    ensures Aims(d + [p[0]], p[1..], q, goal, cmp)
  {
    if q == [] {
      assert p[1..] == LS.Merge(p[1..], q, cmp);
      assert p == [p[0]] + p[1..];
    }
    assert d + ([p[0]] + LS.Merge(p[1..], q, cmp)) == d + [p[0]] + LS.Merge(p[1..], q, cmp);
  }

  lemma AimSecond(d: seq<Item>, p: seq<Item>, q: seq<Item>, goal: seq<Item>, cmp: (Item, Item) -> int)
    requires Aims(d, p, q, goal, cmp) && q != [] && (p == [] || cmp(p[0], q[0]) > 0)
    ensures Aims(d + [q[0]], p, q[1..], goal, cmp)
  {
    if p == [] {
      assert q == [q[0]] + q[1..];
    }
    assert d + ([q[0]] + LS.Merge(p, q[1..], cmp)) == d + [q[0]] + LS.Merge(p, q[1..], cmp);
  }

  ghost function At(s: seq<Item>, i: nat): Ref {
    if i < |s| then To(s[i]) else Null
  }

  /** Counting off the first run: at most `n` items from position `a`. */
  method CountOff(p: Ref, n: nat, mem: Memory, ghost s: seq<Item>, ghost a: nat, ghost slot: map<Item, nat>)
    returns (q: Ref, psize: nat)
    requires a < |s| && n > 0 && p == To(s[a]) && Rest(s, a, |s|, slot, mem)
    ensures psize == LS.Min(a + n, |s|) - a && q == At(s, a + psize)
  {
    q, psize := p, 0;
    var i := 0;
    while i < n
      invariant i == psize <= n && a + psize < |s| && q == To(s[a + psize])
    {
      assert RestAt(s, a + psize, a, |s|, slot, mem);
      psize := psize + 1;
      q := mem[q.item].next;
      if q.Null? {
        return;
      }
      i := i + 1;
    }
  }

  lemma StillTaken(s: seq<Item>, lo: nat, hi: nat, slot: map<Item, nat>, e: Item, n: nat, hi': nat)
    requires Taken(s, lo, hi, slot) && (hi' == hi || (hi' == hi + 1 <= |s| && e == s[hi]))
    ensures Taken(s, lo, hi', slot[e := n])
  {
  }

  lemma TakenJoin(s: seq<Item>, mid: nat, c: nat, slot: map<Item, nat>)
    requires Taken(s, 0, mid, slot) && Taken(s, mid, c, slot)
    ensures Taken(s, 0, c, slot)
  {
  }

  /** The list being built: its first item, its last, and the items that may still be written. */
  datatype Output = Output(list: Ref, tail: Ref, mem: Memory)

  /** Writing one item: `e` becomes the last of the list. */
  function Written(o: Output, e: Item): Output
    requires e in o.mem && (o.tail.To? ==> o.tail.item in o.mem)
  {
    Output(if o.tail.To? then o.list else To(e), To(e), Emit(o.mem, o.tail, e))
  }

  ghost predicate Holds(o: Output, d: seq<Item>) {
    o.list == At(d, 0) && o.tail == Top(d)
  }

  /** A merge on its way: what the runs have left, and what has been built, so that `goal` comes of it. */
  ghost predicate Midway(s: seq<Item>, i: nat, mid: nat, c: nat, end: nat, d: seq<Item>, slot: map<Item, nat>,
                         mem: Memory,
                         goal: seq<Item>, cmp: (Item, Item) -> int)
  {
    && Merging(s, i, mid, c, d, slot, mem) && c <= end <= |s|
    && Aims(d, s[i..mid], s[c..end], goal, cmp) && Taken(s, 0, i, slot) && Taken(s, mid, c, slot)
  }

  /** One turn of a merge: the next item is written. */
  method MergeTurn(p: Ref, psize: nat, q: Ref, qsize: nat, o: Output, cmp: (Item, Item) -> int, ghost s: seq<Item>,
                   ghost i: nat, ghost mid: nat, ghost c: nat, ghost end: nat, ghost d: seq<Item>,
                   ghost slot: map<Item, nat>,
                   ghost goal: seq<Item>)
    returns (p': Ref, psize': nat, q': Ref, qsize': nat, o': Output, ghost i': nat, ghost c': nat, ghost d': seq<Item>,
             ghost slot': map<Item, nat>)
    requires Midway(s, i, mid, c, end, d, slot, o.mem, goal, cmp) && Distinct(s) && Holds(o, d)
    requires psize == mid - i && (psize > 0 ==> p == To(s[i])) && q == At(s, c)
    requires end == LS.Min(c + qsize, |s|)
    requires psize > 0 || (qsize > 0 && q.To?)
    ensures Midway(s, i', mid, c', end, d', slot', o'.mem, goal, cmp) && Holds(o', d')
    ensures SameBuckets(o.mem, o'.mem) && o'.mem.Keys == o.mem.Keys
    ensures psize' == mid - i' && (psize' > 0 ==> p' == To(s[i'])) && q' == At(s, c')
    ensures end == LS.Min(c' + qsize', |s|) && psize' + qsize' < psize + qsize
  {
    p', psize', q', qsize', i', c' := p, psize, q, qsize, i, c;
    var first := psize > 0 && (qsize == 0 || q.Null? || cmp(p.item, q.item) <= 0);
    var e;
    if first {
      TakeFirst(s, i, mid, c, d, slot, o.mem);
      AimFirst(d, s[i..mid], s[c..end], goal, cmp);
      e := p.item;
      p', psize', i' := o.mem[e].next, psize - 1, i + 1;
    } else {
      TakeSecond(s, i, mid, c, d, slot, o.mem);
      AimSecond(d, s[i..mid], s[c..end], goal, cmp);
      e := q.item;
      q', qsize', c' := o.mem[e].next, qsize - 1, c + 1;
    }
    slot', d' := slot[e := |d|], d + [e];
    StillTaken(s, 0, i, slot, e, |d|, i');
    StillTaken(s, mid, c, slot, e, |d|, c');
    o' := Written(o, e);
  }

  /** The rest of the pass, after what has been built. */
  ghost predicate PassAims(d: seq<Item>, s: seq<Item>, a: nat, n: nat, goal: seq<Item>, cmp: (Item, Item) -> int) {
    n > 0 && a <= |s| && d + LS.Pass(s, a, n, cmp) == goal
  }

  lemma PassStep(d0: seq<Item>, s: seq<Item>, a: nat, n: nat, mid: nat, end: nat, d: seq<Item>, goal: seq<Item>,
                 cmp: (Item, Item) -> int)
    requires PassAims(d0, s, a, n, goal, cmp) && a < |s| && mid == LS.Min(a + n, |s|) && end == LS.Min(mid + n, |s|)
    requires d == d0 + LS.Merge(s[a..mid], s[mid..end], cmp)
    ensures PassAims(d, s, end, n, goal, cmp)
  {
    var m := LS.Merge(s[a..mid], s[mid..end], cmp);
    assert d0 + (m + LS.Pass(s, end, n, cmp)) == d0 + m + LS.Pass(s, end, n, cmp);
  }

  /** Merging the two runs of length `n` that begin at position `a`. */
  method MergeRuns(p: Ref, n: nat, o0: Output, cmp: (Item, Item) -> int, ghost s: seq<Item>, ghost a: nat,
                   ghost d0: seq<Item>, ghost slot0: map<Item, nat>, ghost mem: Memory, ghost goal: seq<Item>)
    returns (q: Ref, o: Output, ghost end: nat, ghost d: seq<Item>, ghost slot: map<Item, nat>)
    requires a < |s| && n > 0 && p == To(s[a]) && Distinct(s)
    requires Holds(o0, d0) && Rest(s, a, |s|, slot0, o0.mem) && Built(d0, slot0, o0.mem) && Taken(s, 0, a, slot0)
    requires SameBuckets(mem, o0.mem) && mem.Keys == o0.mem.Keys && PassAims(d0, s, a, n, goal, cmp)
    ensures end == LS.Min(LS.Min(a + n, |s|) + n, |s|) && q == At(s, end)
    ensures Holds(o, d) && Rest(s, end, |s|, slot, o.mem) && Built(d, slot, o.mem) && Taken(s, 0, end, slot)
    ensures SameBuckets(mem, o.mem) && mem.Keys == o.mem.Keys && PassAims(d, s, end, n, goal, cmp)
  {
    var psize;
    q, psize := CountOff(p, n, o0.mem, s, a, slot0);
    ghost var mid := a + psize;
    end := LS.Min(mid + n, |s|);
    SplitRest(s, a, mid, slot0, o0.mem);
    q, o, d, slot := MergeLoop(p, psize, q, n, o0, cmp, s, a, mid, end, d0, slot0, mem);
    PassStep(d0, s, a, n, mid, end, d, goal, cmp);
  }

  /** The loop of a merge, over the runs `s[a..mid]` and `s[mid..end]`. */
  method MergeLoop(p0: Ref, psize0: nat, q0: Ref, n: nat, o0: Output, cmp: (Item, Item) -> int, ghost s: seq<Item>,
                   ghost a: nat, ghost mid: nat, ghost end: nat, ghost d0: seq<Item>, ghost slot0: map<Item, nat>,
                   ghost mem: Memory)
    returns (q: Ref, o: Output, ghost d: seq<Item>, ghost slot: map<Item, nat>)
    requires Merging(s, a, mid, mid, d0, slot0, o0.mem) && Distinct(s) && end == LS.Min(mid + n, |s|)
    requires psize0 == mid - a > 0 && p0 == To(s[a]) && q0 == At(s, mid)
    requires Holds(o0, d0) && Taken(s, 0, a, slot0) && SameBuckets(mem, o0.mem) && mem.Keys == o0.mem.Keys
    ensures Holds(o, d) && q == At(s, end) && SameBuckets(mem, o.mem) && mem.Keys == o.mem.Keys
    ensures Rest(s, end, |s|, slot, o.mem) && Built(d, slot, o.mem) && Taken(s, 0, end, slot)
    ensures d == d0 + LS.Merge(s[a..mid], s[mid..end], cmp)
  {
    var p, psize, qsize := p0, psize0, n;
    q, o, d, slot := q0, o0, d0, slot0;
    ghost var i: nat, c: nat := a, mid;
    ghost var goal := d0 + LS.Merge(s[a..mid], s[mid..end], cmp);
    while psize > 0 || (qsize > 0 && q.To?)
      invariant Midway(s, i, mid, c, end, d, slot, o.mem, goal, cmp) && Holds(o, d)
      invariant psize == mid - i && (psize > 0 ==> p == To(s[i])) && q == At(s, c) && end == LS.Min(c + qsize, |s|)
      invariant SameBuckets(mem, o.mem) && mem.Keys == o.mem.Keys
      decreases psize + qsize
    {
      ghost var before := o.mem;
      p, psize, q, qsize, o, i, c, d, slot := MergeTurn(p, psize, q, qsize, o, cmp, s, i, mid, c, end, d, slot, goal);
      SameBucketsTrans(mem, before, o.mem);
    }
    assert s[i..mid] == [] && s[c..end] == [];
    TakenJoin(s, mid, c, slot);
  }

  lemma SplitRest(s: seq<Item>, a: nat, mid: nat, slot: map<Item, nat>, mem: Memory)
    requires Rest(s, a, |s|, slot, mem) && a <= mid <= |s|
    ensures Rest(s, a, mid, slot, mem) && Rest(s, mid, |s|, slot, mem)
  {
    forall j: int ensures RestAt(s, j, a, mid, slot, mem) && RestAt(s, j, mid, |s|, slot, mem) {
      assert RestAt(s, j, a, |s|, slot, mem);
    }
  }

  lemma SameBucketsTrans(a: Memory, b: Memory, c: Memory)
    requires SameBuckets(a, b) && SameBuckets(b, c)
    ensures SameBuckets(a, c)
  {
    forall x | x in a
      ensures x in c && c[x].hhPrev == a[x].hhPrev && c[x].hhNext == a[x].hhNext && c[x].hashv == a[x].hashv
    {
      assert b[x].hashv == a[x].hashv;
      assert c[x].hashv == b[x].hashv;
    }
  }

  /** One pass over the list, from its first item. */
  method SortPass(list: Ref, n: nat, mem: Memory, cmp: (Item, Item) -> int, ghost s: seq<Item>)
    returns (o: Output, merges: nat, ghost d: seq<Item>)
    requires s != [] && n > 0 && list == To(s[0]) && Distinct(s) && Listed(s, mem)
    ensures d == LS.Pass(s, 0, n, cmp) && Holds(o, d) && Listed(d, o.mem) && SameBuckets(mem, o.mem)
    ensures (merges <= 1 <==> |s| <= 2 * n) && Distinct(d) && d != [] && mem.Keys == o.mem.Keys
  {
    ListedRest(s, mem);
    ghost var slot;
    o, merges, d, slot := PassLoop(list, n, mem, cmp, s);
    LS.PassLength(s, 0, n, cmp);
    BuiltDistinct(d, slot, o.mem);
    EndListed(s, d, slot, mem, o.mem);
    SameBucketsTrans(mem, o.mem, Ended(o.mem, o.tail));
    o := o.(mem := Ended(o.mem, o.tail));
  }

  /** The loop of a pass: pairs of runs, until the list is used up. */
  method PassLoop(list: Ref, n: nat, mem: Memory, cmp: (Item, Item) -> int, ghost s: seq<Item>)
    returns (o: Output, merges: nat, ghost d: seq<Item>, ghost slot: map<Item, nat>)
    requires s != [] && n > 0 && list == To(s[0]) && Distinct(s) && Rest(s, 0, |s|, map[], mem)
    ensures d == LS.Pass(s, 0, n, cmp) && Holds(o, d) && Built(d, slot, o.mem) && Taken(s, 0, |s|, slot)
    ensures SameBuckets(mem, o.mem) && mem.Keys == o.mem.Keys && (merges <= 1 <==> |s| <= 2 * n)
  {
    var p := list;
    o, merges := Output(Null, Null, mem), 0;
    d := [];
    ghost var a: nat := 0;
    slot := map[];
    while p.To?
      invariant a <= |s| && p == At(s, a) && Holds(o, d) && Rest(s, a, |s|, slot, o.mem) && Built(d, slot, o.mem)
      invariant SameBuckets(mem, o.mem) && mem.Keys == o.mem.Keys && Taken(s, 0, a, slot)
      invariant PassAims(d, s, a, n, LS.Pass(s, 0, n, cmp), cmp)
      invariant if merges == 0 then a == 0 else if merges == 1 then a == LS.Min(2 * n, |s|) else |s| > 2 * n
      decreases |s| - a
    {
      merges := merges + 1;
      p, o, a, d, slot := MergeRuns(p, n, o, cmp, s, a, d, slot, mem, LS.Pass(s, 0, n, cmp));
    }
  }

  /** The last item of a finished list has no next one. */
  function Ended(mem: Memory, tail: Ref): Memory
    requires tail.To? ==> tail.item in mem
  {
    if tail.To? then mem[tail.item := mem[tail.item].(next := Null)] else mem
  }

  lemma BuiltDistinct(d: seq<Item>, slot: map<Item, nat>, mem: Memory)
    requires Built(d, slot, mem)
    ensures Distinct(d)
  {
    forall i, j | 0 <= i < j < |d| ensures d[i] != d[j] {
      assert BuiltAt(d, i, slot, mem) && BuiltAt(d, j, slot, mem);
    }
  }

  lemma EndListed(s: seq<Item>, d: seq<Item>, slot: map<Item, nat>, mem0: Memory, mem: Memory)
    requires Built(d, slot, mem) && Taken(s, 0, |s|, slot) && Listed(s, mem0) && mem0.Keys == mem.Keys
    ensures Top(d).To? ==> Top(d).item in mem
    ensures Listed(d, Ended(mem, Top(d))) && SameBuckets(mem, Ended(mem, Top(d)))
  {
    assert BuiltAt(d, |d| - 1, slot, mem);
    var mem' := Ended(mem, Top(d));
    forall j: int ensures ListedAt(d, j, mem') {
      assert BuiltAt(d, j, slot, mem);
    }
    ListMembers(s, mem0);
    forall x | x in mem' ensures OnList(d, x) {
      var j :| 0 <= j < |s| && s[j] == x;
      assert InSlot(d, x, slot);
    }
  }

  lemma ListedRest(s: seq<Item>, mem: Memory)
    requires Listed(s, mem)
    ensures Rest(s, 0, |s|, map[], mem)
  {
    forall j: int ensures RestAt(s, j, 0, |s|, map[], mem) {
      assert ListedAt(s, j, mem);
    }
  }

  /** The passes, with runs of length 1, 2, 4 and so on. */
  method SortList(list0: Ref, mem0: Memory, cmp: (Item, Item) -> int, ghost s: seq<Item>)
    returns (o: Output, ghost d: seq<Item>)
    requires s != [] && list0 == To(s[0]) && Distinct(s) && Listed(s, mem0)
    ensures d == LS.Passes(s, 1, cmp) && Holds(o, d) && Distinct(d) && d != []
    ensures Listed(d, o.mem) && SameBuckets(mem0, o.mem) && mem0.Keys == o.mem.Keys
  {
    var insize, looping := 1, true;
    o, d := Output(list0, Null, mem0), s;
    while looping
      invariant insize > 0 && d != [] && o.list == To(d[0]) && Distinct(d) && Listed(d, o.mem)
      invariant SameBuckets(mem0, o.mem) && mem0.Keys == o.mem.Keys
      invariant
        if looping then LS.Passes(d, insize, cmp) == LS.Passes(s, 1, cmp)
        else d == LS.Passes(s, 1, cmp) && Holds(o, d)
      invariant looping && insize > 1 ==> |d| > insize
      decreases looping, |d| - insize
    {
      var merges;
      ghost var before, was := o.mem, d;
      o, merges, d := SortPass(o.list, insize, o.mem, cmp, d);
      SameBucketsTrans(mem0, before, o.mem);
      LS.PassLength(was, 0, insize, cmp);
      if merges <= 1 {
        looping := false;
      }
      insize := insize * 2;
    }
  }

  lemma StillDistinctKeys(s: seq<Item>, d: seq<Item>, mem: Memory, mem': Memory)
    requires Listed(s, mem) && Listed(d, mem') && mem.Keys == mem'.Keys && DistinctKeys(s) && Distinct(d)
    ensures DistinctKeys(d)
  {
    ListMembers(s, mem);
    ListMembers(d, mem');
    forall i, j | 0 <= i < j < |d| ensures d[i].key != d[j].key {
      assert d[i] in d && d[j] in d;
      var a :| 0 <= a < |s| && s[a] == d[i];
      var b :| 0 <= b < |s| && s[b] == d[j];
    }
  }

  /** `HASH_SRT` */
  method Sort(t: HashTable, cmp: (Item, Item) -> int)
    requires t.Valid() && LS.TotalPreorder(cmp)
    modifies t`head, t`tail, t`mem, t`view
    ensures t.Valid() && t.mem.Keys == old(t.mem.Keys)
    ensures LS.StableSort(old(t.view.order), t.view.order, cmp)
    ensures multiset(t.view.order) == multiset(old(t.view.order))
  {
    ghost var s := t.view.order;
    LS.SortIsStableSort(s, cmp);
    if t.head.To? {
      var o;
      ghost var d;
      o, d := SortList(t.head, t.mem, cmp, s);
      HungSame(t.view.chains, t.stats.log2, t.view.rank, t.hash, t.mem, o.mem);
      StillDistinctKeys(s, d, t.mem, o.mem);
      LS.PassesLength(s, 1, cmp);
      t.head, t.tail, t.mem, t.view := o.list, o.tail, o.mem, t.view.(order := d);
    }
  }
}
