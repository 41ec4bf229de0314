/** The intrusive hash table: bucket chains, an insertion-order list through the same items, and
    bucket doubling. */
module UtHash {

  // ---------------------------------------------------------------- bucket numbers

  function Pow2(k: nat): (p: nat)
    ensures p > 0
  {
    if k == 0 then 1 else 2 * Pow2(k - 1)
  }

  /** Bitwise "and" of two unsigned integers. */
  function BitAnd(a: nat, b: nat): nat {
    if a == 0 || b == 0 then 0
    else (if a % 2 == 1 && b % 2 == 1 then 1 else 0) + 2 * BitAnd(a / 2, b / 2)
  }

  /** `HASH_TO_BKT` */
  function Slot(hashv: nat, buckets: nat): nat
    requires buckets > 0
  {
    BitAnd(hashv, buckets - 1)
  }

  lemma BitAndOdd(h: nat, m: nat)
    requires h > 0 && m > 0
    ensures BitAnd(h, 2 * m - 1) == h % 2 + 2 * BitAnd(h / 2, m - 1)
  {
    assert (2 * m - 1) / 2 == m - 1 && (2 * m - 1) % 2 == 1;
  }

  lemma AtLeastOnce(n: int, d: int)
    requires n > 0 && d > 0
    ensures n * d >= n
  {
  }

  lemma RemainderUnique(a: nat, n: nat, q: nat, r: nat)
    requires n > 0 && r < n && a == n * q + r
    ensures a % n == r
  {
    var q' := a / n;
    assert a == n * q' + a % n;
    assert n * (q - q') == a % n - r && n * (q' - q) == r - a % n;
    if q > q' {
      AtLeastOnce(n, q - q');
    } else if q < q' {
      AtLeastOnce(n, q' - q);
    }
  }

  lemma HalfRemainder(h: nat, m: nat)
    requires m > 0
    ensures h % (2 * m) == h % 2 + 2 * ((h / 2) % m)
  {
    var q, r := (h / 2) / m, (h / 2) % m;
    assert h / 2 == m * q + r;
    assert 2 * (m * q) == (2 * m) * q;
    RemainderUnique(h, 2 * m, q, 2 * r + h % 2);
  }

  lemma MaskStep(h: nat, m: nat)
    requires m > 0 && BitAnd(h / 2, m - 1) == (h / 2) % m
    ensures BitAnd(h, 2 * m - 1) == h % (2 * m)
  {
    HalfRemainder(h, m);
    var low := (h / 2) % m;
    if h == 0 {
      assert BitAnd(0, 2 * m - 1) == 0;
      assert low == 0;
    } else {
      BitAndOdd(h, m);
    }
  }

  /** With a power of two for the bucket count, masking is the remainder. */
  lemma {:induction false} SlotIsRemainder(h: nat, k: nat)
    ensures Slot(h, Pow2(k)) == h % Pow2(k)
    decreases k
  {
    if k > 0 {
      SlotIsRemainder(h / 2, k - 1);
      MaskStep(h, Pow2(k - 1));
    }
  }

  lemma RemainderOfDouble(h: nat, n: nat)
    requires n > 0
    ensures h % (2 * n) == h % n || h % (2 * n) == h % n + n
  {
    Split(h, n, h / (2 * n), h % (2 * n));
  }

  lemma Split(h: nat, n: nat, q: nat, r: nat)
    requires n > 0 && r < 2 * n && h == (2 * n) * q + r
    ensures h % n == if r < n then r else r - n
  {
    assert (2 * n) * q == n * (2 * q) && n * (2 * q + 1) == n * (2 * q) + n;
    if r < n {
      RemainderUnique(h, n, 2 * q, r);
    } else {
      RemainderUnique(h, n, 2 * q + 1, r - n);
    }
  }

  /** Doubling sends a bucket's items to that bucket or to its counterpart in the new half. */
  lemma SlotAfterDoubling(h: nat, k: nat)
    ensures Slot(h, Pow2(k + 1)) == Slot(h, Pow2(k)) || Slot(h, Pow2(k + 1)) == Slot(h, Pow2(k)) + Pow2(k)
  {
    SlotIsRemainder(h, k);
    SlotIsRemainder(h, k + 1);
    RemainderOfDouble(h, Pow2(k));
  }

  /** The bucket of a hash value when there are `2^k` buckets. */
  function BucketOf(hashv: nat, k: nat): (b: nat)
    ensures b < Pow2(k)
  {
    SlotIsRemainder(hashv, k);
    Slot(hashv, Pow2(k))
  }

  // ---------------------------------------------------------------- items and their links

  /** An element with a hash handle in it: two elements are the same when their addresses are. */
  datatype Item = Item(address: nat, key: string)

  datatype Ref = Null | To(item: Item)

  /** What the handle of an item holds: its neighbours in application order and in its bucket. */
  datatype Handle = Handle(prev: Ref, next: Ref, hhPrev: Ref, hhNext: Ref, hashv: nat)

  type Memory = map<Item, Handle>

  /** A change that leaves the application order alone. */
  ghost predicate SameList(mem: Memory, mem': Memory) {
    && mem.Keys == mem'.Keys
    && forall x {:trigger mem'[x]} :: x in mem ==>
         mem'[x].prev == mem[x].prev && mem'[x].next == mem[x].next && mem'[x].hashv == mem[x].hashv
  }

  /** A change that leaves the buckets alone. */
  ghost predicate SameBuckets(mem: Memory, mem': Memory) {
    && mem.Keys <= mem'.Keys
    && forall x {:trigger mem'[x]} :: x in mem ==>
         mem'[x].hhPrev == mem[x].hhPrev && mem'[x].hhNext == mem[x].hhNext && mem'[x].hashv == mem[x].hashv
  }

  /** Every handle holds the hash value of its item's key. */
  ghost predicate Hashed(mem: Memory, hash: string -> nat) {
    forall x {:trigger mem[x]} :: x in mem ==> mem[x].hashv == hash(x.key)
  }

  lemma StillHashed(mem: Memory, mem': Memory, hash: string -> nat, x: Item)
    requires Hashed(mem, hash) && SameList(mem, mem') && x in mem'
    ensures mem'[x].hashv == hash(x.key)
  {
  }

  lemma StillHashedAll(mem: Memory, mem': Memory, hash: string -> nat)
    requires Hashed(mem, hash) && SameList(mem, mem')
    ensures Hashed(mem', hash)
  {
  }

  // ---------------------------------------------------------------- application order

  ghost function Prev(s: seq<Item>, i: nat): Ref
    requires i < |s|
  {
    if i > 0 then To(s[i - 1]) else Null
  }

  ghost function Next(s: seq<Item>, i: nat): Ref
    requires i < |s|
  {
    if i + 1 < |s| then To(s[i + 1]) else Null
  }

  ghost predicate DistinctKeys(order: seq<Item>) {
    forall i, j :: 0 <= i < j < |order| ==> order[i].key != order[j].key
  }

  /** The application-order list. */
  ghost predicate Listed(order: seq<Item>, mem: Memory) {
    && (forall x {:trigger OnList(order, x)} :: x in mem ==> OnList(order, x))
    && (forall i {:trigger ListedAt(order, i, mem)} :: ListedAt(order, i, mem))
  }

  ghost predicate OnList(order: seq<Item>, x: Item) {
    x in order
  }

  lemma ListMembers(order: seq<Item>, mem: Memory)
    requires Listed(order, mem)
    ensures forall x :: x in mem <==> x in order
  {
    forall x ensures x in mem <==> x in order {
      assert x in mem ==> OnList(order, x);
      if x in order {
        var i :| 0 <= i < |order| && order[i] == x;
        assert ListedAt(order, i, mem);
      }
    }
  }

  ghost predicate ListedAt(order: seq<Item>, i: int, mem: Memory) {
    0 <= i < |order| ==>
      order[i] in mem && mem[order[i]].next == Next(order, i) && mem[order[i]].prev == Prev(order, i)
  }

  // ---------------------------------------------------------------- buckets

  /** The items of a bucket, the one at the head last, so that an item pushed on keeps the ranks. */
  type Chain = seq<Item>

  ghost function Top(c: Chain): Ref {
    if c == [] then Null else To(c[|c| - 1])
  }

  ghost function Total(chains: seq<Chain>): nat {
    if chains == [] then 0 else |chains[0]| + Total(chains[1..])
  }

  lemma {:induction false} TotalSnoc(chains: seq<Chain>, c: Chain)
    ensures Total(chains + [c]) == Total(chains) + |c|
  {
    if chains != [] {
      assert (chains + [c])[1..] == chains[1..] + [c];
      TotalSnoc(chains[1..], c);
    }
  }

  /** Every item of the chains is in the bucket of its hash value, at its rank. */
  ghost predicate Filed(chains: seq<Chain>, k: nat, rank: map<Item, nat>, hash: string -> nat) {
    && |chains| == Pow2(k)
    && forall b, i {:trigger FiledAt(chains, b, i, k, rank, hash)} :: FiledAt(chains, b, i, k, rank, hash)
  }

  ghost predicate FiledAt(chains: seq<Chain>, b: int, i: int, k: nat, rank: map<Item, nat>, hash: string -> nat) {
    0 <= b < |chains| && 0 <= i < |chains[b]| ==>
      var x := chains[b][i];
      x in rank && rank[x] == i && BucketOf(hash(x.key), k) == b
  }

  /** Every ranked item is in its chain. */
  ghost predicate Placed(chains: seq<Chain>, k: nat, rank: map<Item, nat>, hash: string -> nat) {
    && |chains| == Pow2(k)
    && forall x {:trigger PlacedAt(chains, x, k, rank, hash)} :: x in rank ==> PlacedAt(chains, x, k, rank, hash)
  }

  ghost predicate PlacedAt(chains: seq<Chain>, x: Item, k: nat, rank: map<Item, nat>, hash: string -> nat)
    requires |chains| == Pow2(k) && x in rank
  {
    var c := chains[BucketOf(hash(x.key), k)];
    rank[x] < |c| && c[rank[x]] == x
  }

  /** The links of one bucket chain. */
  ghost predicate Strung(c: Chain, mem: Memory) {
    && (forall i {:trigger c[i]} :: 0 <= i < |c| ==> c[i] in mem)
    && (forall i {:trigger StrungAt(c, i, mem)} :: StrungAt(c, i, mem))
  }

  ghost predicate StrungAt(c: Chain, i: int, mem: Memory) {
    0 <= i < |c| ==> c[i] in mem && mem[c[i]].hhNext == Prev(c, i) && mem[c[i]].hhPrev == Next(c, i)
  }

  lemma NextInChain(c: Chain, mem: Memory, i: nat)
    requires Strung(c, mem) && i < |c|
    ensures c[i] in mem && mem[c[i]].hhNext == if i > 0 then To(c[i - 1]) else Null
  {
    assert StrungAt(c, i, mem);
  }

  /** The bucket chains of a table with `2^k` buckets, and the ranks of the items in them. */
  ghost predicate Hung(chains: seq<Chain>, k: nat, rank: map<Item, nat>, hash: string -> nat, mem: Memory) {
    && Filed(chains, k, rank, hash)
    && Placed(chains, k, rank, hash)
    && (forall b {:trigger Strung(chains[b], mem)} :: 0 <= b < |chains| ==> Strung(chains[b], mem))
  }

  lemma HungEmpty(chains: seq<Chain>, k: nat, hash: string -> nat, mem: Memory)
    requires |chains| == Pow2(k) && forall b {:trigger chains[b]} :: 0 <= b < |chains| ==> chains[b] == []
    ensures Hung(chains, k, map[], hash, mem)
  {
  }

  lemma HungSame(chains: seq<Chain>, k: nat, rank: map<Item, nat>, hash: string -> nat, mem: Memory, mem': Memory)
    requires Hung(chains, k, rank, hash, mem)
    requires SameBuckets(mem, mem')
    ensures Hung(chains, k, rank, hash, mem')
  {
    forall b | 0 <= b < |chains| ensures Strung(chains[b], mem') {
      assert Strung(chains[b], mem);
      forall i: int ensures StrungAt(chains[b], i, mem') {
        assert StrungAt(chains[b], i, mem);
      }
    }
  }

  lemma ChainDistinct(chains: seq<Chain>, k: nat, rank: map<Item, nat>, hash: string -> nat, b: nat)
    requires Filed(chains, k, rank, hash) && b < |chains|
    ensures forall i, j :: 0 <= i < j < |chains[b]| ==> chains[b][i] != chains[b][j]
    ensures forall i {:trigger chains[b][i]} :: 0 <= i < |chains[b]| ==> chains[b][i] in rank && rank[chains[b][i]] == i
  {
    forall i {:trigger chains[b][i]} | 0 <= i < |chains[b]| ensures chains[b][i] in rank && rank[chains[b][i]] == i {
      assert FiledAt(chains, b, i, k, rank, hash);
    }
  }

  lemma OneChain(chains: seq<Chain>, k: nat, rank: map<Item, nat>, hash: string -> nat, b: nat, e: nat)
    requires Filed(chains, k, rank, hash) && b < |chains| && e < |chains| && e != b
    ensures forall j {:trigger chains[b][j]} :: 0 <= j < |chains[b]| ==> chains[b][j] !in chains[e]
  {
    forall j, i | 0 <= j < |chains[b]| && 0 <= i < |chains[e]| ensures chains[b][j] != chains[e][i] {
      assert FiledAt(chains, b, j, k, rank, hash) && FiledAt(chains, e, i, k, rank, hash);
    }
  }

  ghost function Items(c: Chain): (s: set<Item>) {
    set x | x in c
  }

  lemma {:induction false} DistinctCount(c: Chain)
    requires forall i, j :: 0 <= i < j < |c| ==> c[i] != c[j]
    ensures |Items(c)| == |c|
  {
    if c != [] {
      var d := c[..|c| - 1];
      DistinctCount(d);
      assert Items(c) == Items(d) + {c[|c| - 1]};
    }
  }

  ghost function FiledBelow(n: nat, k: nat, rank: map<Item, nat>, hash: string -> nat): set<Item> {
    set x | x in rank && BucketOf(hash(x.key), k) < n
  }

  lemma FiledStep(chains: seq<Chain>, n: nat, k: nat, rank: map<Item, nat>, hash: string -> nat)
    requires Filed(chains, k, rank, hash) && Placed(chains, k, rank, hash) && n < |chains|
    ensures FiledBelow(n + 1, k, rank, hash) == FiledBelow(n, k, rank, hash) + Items(chains[n])
    ensures FiledBelow(n, k, rank, hash) !! Items(chains[n])
  {
    forall x | x in rank ensures BucketOf(hash(x.key), k) == n <==> x in Items(chains[n]) {
      assert PlacedAt(chains, x, k, rank, hash);
      if x in Items(chains[n]) {
        var i :| 0 <= i < |chains[n]| && chains[n][i] == x;
        assert FiledAt(chains, n, i, k, rank, hash);
      }
    }
    ChainDistinct(chains, k, rank, hash, n);
  }

  lemma {:induction false} TotalIsCountBelow(chains: seq<Chain>, n: nat, k: nat, rank: map<Item, nat>,
                                             hash: string -> nat)
    requires Filed(chains, k, rank, hash) && Placed(chains, k, rank, hash) && n <= |chains|
    ensures Total(chains[..n]) == |FiledBelow(n, k, rank, hash)|
  {
    if n > 0 {
      TotalIsCountBelow(chains, n - 1, k, rank, hash);
      assert chains[..n] == chains[..n - 1] + [chains[n - 1]];
      TotalSnoc(chains[..n - 1], chains[n - 1]);
      ChainDistinct(chains, k, rank, hash, n - 1);
      DistinctCount(chains[n - 1]);
      FiledStep(chains, n - 1, k, rank, hash);
    }
  }

  /** The lengths of the chains add up to the number of items in them. */
  lemma TotalIsCount(chains: seq<Chain>, k: nat, rank: map<Item, nat>, hash: string -> nat)
    requires Filed(chains, k, rank, hash) && Placed(chains, k, rank, hash)
    ensures Total(chains) == |rank.Keys|
  {
    TotalIsCountBelow(chains, |chains|, k, rank, hash);
    assert chains[..|chains|] == chains;
    forall x | x in rank ensures x in FiledBelow(|chains|, k, rank, hash) {
      assert PlacedAt(chains, x, k, rank, hash);
    }
    assert FiledBelow(|chains|, k, rank, hash) == rank.Keys;
  }

  // ---------------------------------------------------------------- an item on top of a bucket

  function LinkOnTop(mem: Memory, top: Ref, x: Item): (mem': Memory)
    requires x in mem && (top.To? ==> top.item in mem)
  {
    var m := mem[x := mem[x].(hhNext := top, hhPrev := Null)];
    if top.To? then m[top.item := m[top.item].(hhPrev := To(x))] else m
  }

  lemma LinkKeepsList(mem0: Memory, mem: Memory, top: Ref, x: Item)
    requires SameList(mem0, mem) && x in mem && (top.To? ==> top.item in mem)
    ensures SameList(mem0, LinkOnTop(mem, top, x))
  {
  }

  lemma PushFiled(chains: seq<Chain>, k: nat, rank: map<Item, nat>, hash: string -> nat, b: nat, x: Item)
    requires Filed(chains, k, rank, hash) && Placed(chains, k, rank, hash) && x !in rank
    requires b == BucketOf(hash(x.key), k)
    ensures Filed(chains[b := chains[b] + [x]], k, rank[x := |chains[b]|], hash)
    ensures Placed(chains[b := chains[b] + [x]], k, rank[x := |chains[b]|], hash)
  {
    var chains', rank' := chains[b := chains[b] + [x]], rank[x := |chains[b]|];
    forall e: int, i: int ensures FiledAt(chains', e, i, k, rank', hash) {
      assert FiledAt(chains, e, i, k, rank, hash);
    }
    forall y | y in rank' ensures PlacedAt(chains', y, k, rank', hash) {
      if y != x {
        assert PlacedAt(chains, y, k, rank, hash);
      }
    }
  }

  lemma PushStrung(c: Chain, mem: Memory, x: Item)
    requires Strung(c, mem) && x in mem && x !in c
    requires forall i, j :: 0 <= i < j < |c| ==> c[i] != c[j]
    ensures Strung(c + [x], LinkOnTop(mem, Top(c), x))
  {
    var mem' := LinkOnTop(mem, Top(c), x);
    var c' := c + [x];
    forall i: int ensures StrungAt(c', i, mem') {
      assert StrungAt(c, i, mem);
    }
  }

  lemma LinkElsewhere(c: Chain, mem: Memory, top: Ref, x: Item)
    requires Strung(c, mem) && x in mem && x !in c && (top.To? ==> top.item in mem && top.item !in c)
    ensures Strung(c, LinkOnTop(mem, top, x))
  {
    forall i: int ensures StrungAt(c, i, LinkOnTop(mem, top, x)) {
      assert StrungAt(c, i, mem);
    }
  }

  lemma PushHung(chains: seq<Chain>, k: nat, rank: map<Item, nat>, hash: string -> nat, mem: Memory, b: nat, x: Item)
    requires Hung(chains, k, rank, hash, mem) && x in mem && x !in rank && b == BucketOf(hash(x.key), k)
    ensures Top(chains[b]).To? ==> Top(chains[b]).item in rank && Top(chains[b]).item in mem
    ensures Hung(chains[b := chains[b] + [x]], k, rank[x := |chains[b]|], hash, LinkOnTop(mem, Top(chains[b]), x))
  {
    var c := chains[b];
    var top := Top(c);
    var chains' := chains[b := c + [x]];
    assert Strung(c, mem);
    ChainDistinct(chains, k, rank, hash, b);
    var mem' := LinkOnTop(mem, top, x);
    PushFiled(chains, k, rank, hash, b, x);
    forall e | 0 <= e < |chains'| ensures Strung(chains'[e], mem') {
      if e == b {
        PushStrung(c, mem, x);
      } else {
        assert Strung(chains[e], mem);
        ChainDistinct(chains, k, rank, hash, e);
        OneChain(chains, k, rank, hash, e, b);
        LinkElsewhere(chains[e], mem, top, x);
      }
    }
  }

  /** A bucket: its first item, how many there are, and how much longer than ideal it may grow. */
  datatype Bucket = Bucket(head: Ref, count: nat, mult: nat)

  /** The bucket records agree with the chains. */
  ghost predicate Recorded(chains: seq<Chain>, buckets: array<Bucket>)
    reads buckets
  {
    && buckets.Length == |chains|
    && forall b {:trigger buckets[b]} ::
      0 <= b < |chains| ==> buckets[b].head == Top(chains[b]) && buckets[b].count == |chains[b]|
  }

  /** Putting an item in its bucket: `HASH_ADD_TO_BKT`, up to the test for expansion. */
  method PutOnTop(x: Item, b: nat, buckets: array<Bucket>, ghost chains: seq<Chain>, ghost k: nat,
                  ghost rank: map<Item, nat>, ghost hash: string -> nat, mem: Memory)
    returns (mem': Memory)
    requires Hung(chains, k, rank, hash, mem) && Recorded(chains, buckets)
    requires x in mem && x !in rank && b == BucketOf(hash(x.key), k)
    modifies buckets
    ensures Hung(chains[b := chains[b] + [x]], k, rank[x := |chains[b]|], hash, mem')
    ensures Recorded(chains[b := chains[b] + [x]], buckets)
    ensures forall e {:trigger buckets[e]} :: 0 <= e < buckets.Length ==> buckets[e].mult == old(buckets[e].mult)
    ensures Top(chains[b]).To? ==> Top(chains[b]).item in rank && Top(chains[b]).item in mem
    ensures mem' == LinkOnTop(mem, Top(chains[b]), x)
  {
    PushHung(chains, k, rank, hash, mem, b, x);
    buckets[b] := buckets[b].(count := buckets[b].count + 1);
    mem' := LinkOnTop(mem, buckets[b].head, x);
    buckets[b] := buckets[b].(head := To(x));
  }

  /** How far the chains are over the ideal length, in all. */
  ghost function Excess(chains: seq<Chain>, ideal: nat): nat {
    if chains == [] then 0 else Over(|chains[0]|, ideal) + Excess(chains[1..], ideal)
  }

  ghost function Over(count: nat, ideal: nat): nat {
    if count > ideal then count - ideal else 0
  }

  function Mult(count: nat, ideal: nat): nat
    requires ideal > 0
  {
    if count > ideal then count / ideal else 0
  }

  /** The multiplier of a chain that is not over the ideal length is 0, otherwise how often that goes into it. */
  lemma MultMeans(count: nat, ideal: nat)
    requires ideal > 0
    ensures if count <= ideal then Mult(count, ideal) == 0
            else Mult(count, ideal) * ideal <= count < (Mult(count, ideal) + 1) * ideal
  {
  }

  /** The expansion factors of the buckets. */
  ghost predicate Multiplied(buckets: array<Bucket>, chains: seq<Chain>, ideal: nat)
    reads buckets
  {
    && buckets.Length == |chains| && ideal > 0
    && forall b {:trigger MultipliedAt(buckets, chains, ideal, b)} :: MultipliedAt(buckets, chains, ideal, b)
  }

  ghost predicate MultipliedAt(buckets: array<Bucket>, chains: seq<Chain>, ideal: nat, b: int)
    reads buckets
  {
    0 <= b < |chains| && b < buckets.Length && ideal > 0 ==> buckets[b].mult == Mult(|chains[b]|, ideal)
  }

  lemma {:induction false} ExcessUpdate(chains: seq<Chain>, b: nat, c: Chain, ideal: nat)
    requires b < |chains|
    ensures Excess(chains[b := c], ideal) == Excess(chains, ideal) - Over(|chains[b]|, ideal) + Over(|c|, ideal)
  {
    if b == 0 {
      assert chains[0 := c][1..] == chains[1..];
    } else {
      assert chains[b := c][1..] == chains[1..][b - 1 := c];
      ExcessUpdate(chains[1..], b - 1, c, ideal);
    }
  }

  lemma {:induction false} ExcessEmpty(chains: seq<Chain>, ideal: nat)
    requires forall b {:trigger chains[b]} :: 0 <= b < |chains| ==> chains[b] == []
    ensures Excess(chains, ideal) == 0
  {
    if chains != [] {
      ExcessEmpty(chains[1..], ideal);
    }
  }

  /** The rounded-up average chain length: a shift, and one more when a low bit is set. */
  function IdealLength(items: nat, k: nat): nat {
    Shifted(items, k) + if Slot(items, Pow2(k)) != 0 then 1 else 0
  }

  /** A number shifted right by `k` bits. */
  function Shifted(n: nat, k: nat): (q: nat)
    ensures n == Pow2(k) * q + n % Pow2(k)
  {
    DivMod(n, Pow2(k));
    n / Pow2(k)
  }

  lemma IdealLengthIsCeiling(items: nat, k: nat)
    ensures items <= IdealLength(items, k) * Pow2(k) < items + Pow2(k)
  {
    SlotIsRemainder(items, k);
    DivMod(items, Pow2(k));
    CeilingBounds(items, Pow2(k), Shifted(items, k), items % Pow2(k));
  }

  lemma DivMod(a: int, p: int)
    requires p > 0
    ensures a == p * (a / p) + a % p && 0 <= a % p < p
    ensures a >= 0 ==> a / p >= 0
  {
  }

  lemma CeilingBounds(items: int, p: int, q: int, r: int)
    requires items == p * q + r && 0 <= r < p
    ensures var c := q + if r != 0 then 1 else 0; items <= c * p < items + p
  {
  }

  lemma IdealLengthPositive(items: nat, k: nat)
    requires items > 0
    ensures IdealLength(items, k) > 0
  {
    IdealLengthIsCeiling(items, k);
  }

  const INITIAL_LOG2: nat := 5
  const CAPACITY_THRESH := 10

  lemma PowInitial()
    ensures Pow2(INITIAL_LOG2) == 32
  {
    assert Pow2(3) == 8;
    assert Pow2(4) == 16;
  }

  // ---------------------------------------------------------------- the doubled table

  /** A bucket array being filled. */
  ghost predicate Tallied(newc: seq<Chain>, ideal: nat, nonideal: nat, nb: array<Bucket>)
    reads nb
  {
    Recorded(newc, nb) && Multiplied(nb, newc, ideal) && nonideal == Excess(newc, ideal)
  }

  /** A chain whose items below `r` have not been moved yet. */
  ghost predicate Unmoved(c: Chain, r: nat, place: map<Item, nat>, mem: Memory) {
    && r <= |c|
    && (forall i {:trigger c[i]} :: 0 <= i < r ==> c[i] in mem && c[i] !in place)
    && (forall i {:trigger UnmovedAt(c, i, r, mem)} :: UnmovedAt(c, i, r, mem))
  }

  ghost predicate UnmovedAt(c: Chain, i: int, r: nat, mem: Memory) {
    0 <= i < r <= |c| ==> c[i] in mem && mem[c[i]].hhNext == Prev(c, i)
  }

  lemma NextUnmoved(c: Chain, r: nat, place: map<Item, nat>, mem: Memory)
    requires Unmoved(c, r, place, mem) && r > 0
    ensures c[r - 1] in mem && mem[c[r - 1]].hhNext == if r > 1 then To(c[r - 2]) else Null
  {
    assert UnmovedAt(c, r - 1, r, mem);
  }

  ghost predicate Moved(c: Chain, r: nat, place: map<Item, nat>) {
    forall i {:trigger c[i]} :: r <= i < |c| ==> c[i] in place
  }

  /** The doubling has emptied the old buckets below `b`, and bucket `b` down to the rank `r`. */
  ghost predicate Emptied(chains: seq<Chain>, b: nat, r: nat, place: map<Item, nat>, mem: Memory) {
    && b < |chains|
    && (forall e {:trigger Moved(chains[e], 0, place)} :: 0 <= e < b ==> Moved(chains[e], 0, place))
    && Moved(chains[b], r, place) && Unmoved(chains[b], r, place, mem)
    && (forall e {:trigger Unmoved(chains[e], |chains[e]|, place, mem)} :: b < e < |chains| ==>
          Unmoved(chains[e], |chains[e]|, place, mem))
  }

  lemma UnmovedStep(c: Chain, r: nat, s: nat, place: map<Item, nat>, mem: Memory, x: Item, n: nat, top: Ref)
    requires Unmoved(c, r, place, mem) && s <= r && (forall i {:trigger c[i]} :: 0 <= i < s ==> c[i] != x)
    requires x in mem && (top.To? ==> top.item in mem && top.item in place)
    ensures Unmoved(c, s, place[x := n], LinkOnTop(mem, top, x))
  {
    forall i: int ensures UnmovedAt(c, i, s, LinkOnTop(mem, top, x)) {
      assert UnmovedAt(c, i, r, mem);
    }
  }

  lemma EmptiedStep(chains: seq<Chain>, k: nat, rank: map<Item, nat>, hash: string -> nat, b: nat, r: nat,
                    place: map<Item, nat>, mem: Memory, x: Item, n: nat, top: Ref)
    requires Filed(chains, k, rank, hash) && Emptied(chains, b, r, place, mem) && r > 0 && x == chains[b][r - 1]
    requires top.To? ==> top.item in mem && top.item in place
    ensures Emptied(chains, b, r - 1, place[x := n], LinkOnTop(mem, top, x))
  {
    var place', mem' := place[x := n], LinkOnTop(mem, top, x);
    forall e | 0 <= e < b ensures Moved(chains[e], 0, place') {
      assert Moved(chains[e], 0, place);
    }
    ChainDistinct(chains, k, rank, hash, b);
    UnmovedStep(chains[b], r, r - 1, place, mem, x, n, top);
    forall e | b < e < |chains| ensures Unmoved(chains[e], |chains[e]|, place', mem') {
      assert Unmoved(chains[e], |chains[e]|, place, mem);
      OneChain(chains, k, rank, hash, e, b);
      UnmovedStep(chains[e], |chains[e]|, |chains[e]|, place, mem, x, n, top);
    }
  }

  /** The doubling has emptied the old buckets below `b`. */
  ghost predicate EmptiedBelow(chains: seq<Chain>, b: nat, place: map<Item, nat>, mem: Memory) {
    && b <= |chains|
    && (forall e {:trigger Moved(chains[e], 0, place)} :: 0 <= e < b ==> Moved(chains[e], 0, place))
    && (forall e {:trigger Unmoved(chains[e], |chains[e]|, place, mem)} :: b <= e < |chains| ==>
          Unmoved(chains[e], |chains[e]|, place, mem))
  }

  lemma EmptiedFirst(chains: seq<Chain>, k: nat, rank: map<Item, nat>, hash: string -> nat, mem: Memory)
    requires Hung(chains, k, rank, hash, mem)
    ensures EmptiedBelow(chains, 0, map[], mem)
  {
    forall e | 0 <= e < |chains| ensures Unmoved(chains[e], |chains[e]|, map[], mem) {
      assert Strung(chains[e], mem);
      forall i: int ensures UnmovedAt(chains[e], i, |chains[e]|, mem) {
        assert StrungAt(chains[e], i, mem);
      }
    }
  }

  lemma EmptiedEnter(chains: seq<Chain>, b: nat, place: map<Item, nat>, mem: Memory)
    requires EmptiedBelow(chains, b, place, mem) && b < |chains|
    ensures Emptied(chains, b, |chains[b]|, place, mem)
  {
    assert Unmoved(chains[b], |chains[b]|, place, mem);
  }

  lemma EmptiedLeave(chains: seq<Chain>, b: nat, place: map<Item, nat>, mem: Memory)
    requires Emptied(chains, b, 0, place, mem)
    ensures EmptiedBelow(chains, b + 1, place, mem)
  {
  }

  lemma EmptiedLast(chains: seq<Chain>, k: nat, rank: map<Item, nat>, hash: string -> nat, place: map<Item, nat>,
                    mem: Memory)
    requires Placed(chains, k, rank, hash) && EmptiedBelow(chains, |chains|, place, mem)
    ensures rank.Keys <= place.Keys
  {
    forall x | x in rank ensures x in place {
      assert PlacedAt(chains, x, k, rank, hash);
      assert Moved(chains[BucketOf(hash(x.key), k)], 0, place);
    }
  }

  /** The buckets filled so far, and what the doubling has not changed. */
  ghost predicate Refiled(newc: seq<Chain>, k: nat, place: map<Item, nat>, hash: string -> nat, mem: Memory,
                          mem': Memory) {
    Hung(newc, k, place, hash, mem') && place.Keys <= mem.Keys && SameList(mem, mem')
  }

  /** One item of the doubling: it goes on top of its new bucket. */
  method MoveOne(x: Item, b: nat, ideal: nat, nonideal: nat, nb: array<Bucket>,
                 ghost newc: seq<Chain>, ghost k: nat, ghost place: map<Item, nat>, ghost hash: string -> nat,
                 mem: Memory)
    returns (nonideal': nat, mem': Memory)
    requires Hung(newc, k, place, hash, mem) && Tallied(newc, ideal, nonideal, nb)
    requires x in mem && x !in place && b == BucketOf(hash(x.key), k)
    modifies nb
    ensures Top(newc[b]).To? ==> Top(newc[b]).item in place && Top(newc[b]).item in mem
    ensures mem' == LinkOnTop(mem, Top(newc[b]), x)
    ensures Hung(newc[b := newc[b] + [x]], k, place[x := |newc[b]|], hash, mem')
    ensures Tallied(newc[b := newc[b] + [x]], ideal, nonideal', nb)
  {
    ExcessUpdate(newc, b, newc[b] + [x], ideal);
    nonideal' := nonideal;
    mem' := PutOnTop(x, b, nb, newc, k, place, hash, mem);
    assert old(MultipliedAt(nb, newc, ideal, b));
    if nb[b].count > ideal {
      nonideal' := nonideal' + 1;
      nb[b] := nb[b].(mult := nb[b].count / ideal);
    }
    ghost var newc' := newc[b := newc[b] + [x]];
    forall e: int ensures MultipliedAt(nb, newc', ideal, e) {
      assert old(MultipliedAt(nb, newc, ideal, e));
    }
  }

  /** The inner loop of `HASH_EXPAND_BUCKETS`: one old bucket, from its head. */
  method MoveBucket(head: Ref, ideal: nat, nonideal: nat, nb: array<Bucket>,
                    ghost chains: seq<Chain>, ghost b: nat, k: nat, ghost rank: map<Item, nat>,
                    ghost hash: string -> nat,
                    ghost newc: seq<Chain>, ghost place: map<Item, nat>, ghost mem0: Memory, mem: Memory)
    returns (nonideal': nat, ghost newc': seq<Chain>, ghost place': map<Item, nat>, mem': Memory)
    requires Filed(chains, k, rank, hash) && b < |chains| && head == Top(chains[b])
    requires Emptied(chains, b, |chains[b]|, place, mem)
    requires Hashed(mem0, hash)
    requires Refiled(newc, k + 1, place, hash, mem0, mem)
    requires Tallied(newc, ideal, nonideal, nb)
    modifies nb
    ensures Emptied(chains, b, 0, place', mem')
    ensures Refiled(newc', k + 1, place', hash, mem0, mem')
    ensures Tallied(newc', ideal, nonideal', nb)
  {
    nonideal', newc', place', mem' := nonideal, newc, place, mem;
    var x := head;
    ghost var c, r: nat := chains[b], |chains[b]|;
    while x.To?
      invariant r <= |c| && x == if r > 0 then To(c[r - 1]) else Null
      invariant Emptied(chains, b, r, place', mem')
      invariant Refiled(newc', k + 1, place', hash, mem0, mem')
      invariant Tallied(newc', ideal, nonideal', nb)
      decreases r
    {
      x, nonideal', newc', place', mem' :=
        MoveStep(x.item, ideal, nonideal', nb, chains, b, r, k, rank, hash, newc', place', mem0, mem');
      r := r - 1;
    }
  }

  method MoveStep(x: Item, ideal: nat, nonideal: nat, nb: array<Bucket>,
                  ghost chains: seq<Chain>, ghost b: nat, ghost r: nat, k: nat, ghost rank: map<Item, nat>,
                  ghost hash: string -> nat, ghost newc: seq<Chain>, ghost place: map<Item, nat>,
                  ghost mem0: Memory, mem: Memory)
    returns (next: Ref, nonideal': nat, ghost newc': seq<Chain>, ghost place': map<Item, nat>, mem': Memory)
    requires Filed(chains, k, rank, hash) && Emptied(chains, b, r, place, mem) && r > 0 && x == chains[b][r - 1]
    requires Hashed(mem0, hash)
    requires Refiled(newc, k + 1, place, hash, mem0, mem)
    requires Tallied(newc, ideal, nonideal, nb)
    modifies nb
    ensures next == if r > 1 then To(chains[b][r - 2]) else Null
    ensures Emptied(chains, b, r - 1, place', mem')
    ensures Refiled(newc', k + 1, place', hash, mem0, mem')
    ensures Tallied(newc', ideal, nonideal', nb)
  {
    NextUnmoved(chains[b], r, place, mem);
    StillHashed(mem0, mem, hash, x);
    next := mem[x].hhNext;
    var e := BucketOf(mem[x].hashv, k + 1);
    newc', place' := newc[e := newc[e] + [x]], place[x := |newc[e]|];
    nonideal', mem' := MoveOne(x, e, ideal, nonideal, nb, newc, k + 1, place, hash, mem);
    EmptiedStep(chains, k, rank, hash, b, r, place, mem, x, |newc[e]|, Top(newc[e]));
    LinkKeepsList(mem0, mem, Top(newc[e]), x);
  }

  /** The loops of `HASH_EXPAND_BUCKETS`: every item of every old bucket. */
  method MoveAll(buckets: array<Bucket>, ideal: nat, nb: array<Bucket>,
                 ghost chains: seq<Chain>, k: nat, ghost rank: map<Item, nat>,
                 ghost hash: string -> nat, mem: Memory)
    returns (nonideal: nat, ghost newc: seq<Chain>, ghost place: map<Item, nat>, mem': Memory)
    requires Hung(chains, k, rank, hash, mem) && Recorded(chains, buckets)
    requires rank.Keys == mem.Keys && Hashed(mem, hash)
    requires Tallied(seq(Pow2(k + 1), _ => []), ideal, 0, nb)
    requires nb != buckets
    modifies nb
    ensures Hung(newc, k + 1, place, hash, mem') && Tallied(newc, ideal, nonideal, nb)
    ensures place.Keys == mem.Keys && SameList(mem, mem')
  {
    nonideal, newc, place, mem' := 0, seq(Pow2(k + 1), _ => []), map[], mem;
    HungEmpty(newc, k + 1, hash, mem);
    EmptiedFirst(chains, k, rank, hash, mem);
    var b := 0;
    while b < buckets.Length
      invariant b <= buckets.Length && Recorded(chains, buckets)
      invariant EmptiedBelow(chains, b, place, mem')
      invariant Refiled(newc, k + 1, place, hash, mem, mem')
      invariant Tallied(newc, ideal, nonideal, nb)
    {
      EmptiedEnter(chains, b, place, mem');
      nonideal, newc, place, mem' :=
        MoveBucket(buckets[b].head, ideal, nonideal, nb, chains, b, k, rank, hash, newc, place, mem, mem');
      EmptiedLeave(chains, b, place, mem');
      b := b + 1;
    }
    EmptiedLast(chains, k, rank, hash, place, mem');
  }

  /** The counters of a table: `log2` of the bucket count, how many items, and how well doubling has served. */
  datatype Stats = Stats(log2: nat, items: nat, ideal: nat, nonideal: nat, ineffective: nat, noexpand: bool)

  ghost function StatsAfterDoubling(stats: Stats, nonideal: nat): Stats {
    var ineffective := if nonideal > stats.items / 2 then stats.ineffective + 1 else 0;
    Stats(stats.log2 + 1, stats.items, IdealLength(stats.items, stats.log2 + 1), nonideal, ineffective,
          stats.noexpand || ineffective > 1)
  }

  /** A doubling: of how many items, and how many of these were over the ideal length afterwards. */
  datatype Doubling = Doubling(items: nat, nonideal: nat)

  /** It has not served when more than half of the items are over. */
  predicate Ineffective(d: Doubling) {
    2 * d.nonideal > d.items
  }

  ghost function AfterDoublings(stats: Stats, ds: seq<Doubling>): Stats
    decreases |ds|
  {
    if ds == [] then stats
    else
      var last := ds[|ds| - 1];
      StatsAfterDoubling(AfterDoublings(stats, ds[..|ds| - 1]).(items := last.items), last.nonideal)
  }

  /** Over the life of a table: it has doubled as often as its `log2` is over 5, and it stops doubling once two
      doublings in a row have not served, and not before. */
  lemma {:induction false} ExpansionStops(ds: seq<Doubling>)
    ensures
      var stats := AfterDoublings(Stats(5, 0, 0, 0, 0, false), ds);
      && stats.log2 == 5 + |ds|
      && (stats.noexpand <==> exists i :: 0 < i < |ds| && Ineffective(ds[i - 1]) && Ineffective(ds[i]))
      && (stats.ineffective > 0 <==> ds != [] && Ineffective(ds[|ds| - 1]))
    decreases |ds|
  {
    if ds != [] {
      var before := ds[..|ds| - 1];
      ExpansionStops(before);
      assert forall i :: 0 <= i < |before| ==> before[i] == ds[i];
    }
  }

  /** The doubled bucket array, filled, and the counters. */
  method Double(buckets: array<Bucket>, stats: Stats, ghost chains: seq<Chain>, ghost rank: map<Item, nat>,
                ghost hash: string -> nat, mem: Memory)
    returns (doubled: array<Bucket>, stats': Stats, ghost newc: seq<Chain>, ghost place: map<Item, nat>, mem': Memory)
    requires Hung(chains, stats.log2, rank, hash, mem) && Recorded(chains, buckets) && stats.items > 0
    requires rank.Keys == mem.Keys && Hashed(mem, hash)
    ensures fresh(doubled) && Recorded(newc, doubled) && Multiplied(doubled, newc, stats'.ideal)
    ensures stats' == StatsAfterDoubling(stats, Excess(newc, stats'.ideal))
    ensures Hung(newc, stats'.log2, place, hash, mem')
    ensures place.Keys == mem.Keys && SameList(mem, mem') && Hashed(mem', hash)
  {
    var k := stats.log2 + 1;
    IdealLengthPositive(stats.items, k);
    var ideal := IdealLength(stats.items, k);
    doubled := new Bucket[2 * buckets.Length](_ => Bucket(Null, 0, 0));
    ExcessEmpty(seq(Pow2(k), _ => []), ideal);
    var nonideal;
    nonideal, newc, place, mem' := MoveAll(buckets, ideal, doubled, chains, stats.log2, rank, hash, mem);
    var ineffective := if nonideal > stats.items / 2 then stats.ineffective + 1 else 0;
    stats' := Stats(k, stats.items, ideal, nonideal, ineffective, stats.noexpand || ineffective > 1);
    StillHashedAll(mem, mem', hash);
  }

  /** `HASH_FIND_IN_BKT` */
  method FindInBucket(head: Ref, key: string, ghost c: Chain, mem: Memory) returns (out: Ref)
    requires Strung(c, mem) && head == Top(c)
    ensures out.To? ==> out.item in c && out.item.key == key
    ensures out.Null? ==> forall x :: x in c ==> x.key != key
  {
    out := head;
    ghost var r: nat := |c|;
    while out.To?
      invariant r <= |c| && out == if r > 0 then To(c[r - 1]) else Null
      invariant forall i {:trigger c[i]} :: r <= i < |c| ==> c[i].key != key
      decreases r
    {
      if out.item.key == key {
        return;
      }
      NextInChain(c, mem, r - 1);
      out := mem[out.item].hhNext;
      r := r - 1;
    }
  }

  // ---------------------------------------------------------------- linking and unlinking

  /** The new last item of the application order. */
  function Append(mem: Memory, tail: Ref, x: Item, hashv: nat): Memory
    requires tail.To? ==> tail.item in mem
  {
    var m := if tail.To? then mem[tail.item := mem[tail.item].(next := To(x))] else mem;
    m[x := Handle(tail, Null, Null, Null, hashv)]
  }

  lemma AppendListed(order: seq<Item>, mem: Memory, x: Item, hashv: nat)
    requires Listed(order, mem) && DistinctKeys(order) && x !in mem
    ensures Top(order).To? ==> Top(order).item in mem
    ensures Listed(order + [x], Append(mem, Top(order), x, hashv))
    ensures SameBuckets(mem, Append(mem, Top(order), x, hashv))
  {
    ListMembers(order, mem);
    var order', mem' := order + [x], Append(mem, Top(order), x, hashv);
    forall y | y in mem' ensures OnList(order', y) {
      assert y != x ==> OnList(order, y);
    }
    forall i: int ensures ListedAt(order', i, mem') {
      assert ListedAt(order, i, mem);
    }
  }

  /** Taking an item out of the application order. */
  function Unlink(mem: Memory, x: Item): Memory
    requires x in mem && (mem[x].prev.To? ==> mem[x].prev.item in mem) && (mem[x].next.To? ==> mem[x].next.item in mem)
  {
    var h := mem[x];
    var m := if h.prev.To? then mem[h.prev.item := mem[h.prev.item].(next := h.next)] else mem;
    if h.next.To? then m[h.next.item := m[h.next.item].(prev := h.prev)] else m
  }

  /** Taking an item out of its bucket. */
  function UnlinkBucket(mem: Memory, x: Item): Memory
    requires x in mem && (mem[x].hhPrev.To? ==> mem[x].hhPrev.item in mem)
    requires mem[x].hhNext.To? ==> mem[x].hhNext.item in mem
  {
    var h := mem[x];
    var m := if h.hhPrev.To? then mem[h.hhPrev.item := mem[h.hhPrev.item].(hhNext := h.hhNext)] else mem;
    if h.hhNext.To? then m[h.hhNext.item := m[h.hhNext.item].(hhPrev := h.hhPrev)] else m
  }

  ghost function Without(s: seq<Item>, i: nat): seq<Item>
    requires i < |s|
  {
    s[..i] + s[i + 1..]
  }

  lemma WithoutKeeps(s: seq<Item>, i: nat, y: Item)
    requires i < |s| && y in s && y != s[i]
    ensures y in Without(s, i)
  {
    var j :| 0 <= j < |s| && s[j] == y;
    assert Without(s, i)[if j < i then j else j - 1] == y;
  }

  lemma TopWithout(s: seq<Item>, i: nat)
    requires i < |s| && forall j, k :: 0 <= j < k < |s| ==> s[j] != s[k]
    ensures Top(Without(s, i)) == if Top(s) == To(s[i]) then Prev(s, i) else Top(s)
  {
    assert Top(s) == To(s[i]) <==> i == |s| - 1;
  }

  lemma UnlinkListedAt(order: seq<Item>, i: nat, mem: Memory, j: int)
    requires i < |order| && forall j, k :: 0 <= j < k < |order| ==> order[j] != order[k]
    requires ListedAt(order, i, mem) && ListedAt(order, j, mem) && ListedAt(order, j + 1, mem)
    requires forall i {:trigger order[i]} :: 0 <= i < |order| ==> order[i] in mem
    ensures ListedAt(Without(order, i), j, Unlink(mem, order[i]) - {order[i]})
  {
  }

  lemma UnlinkListed(order: seq<Item>, i: nat, mem: Memory)
    requires Listed(order, mem) && i < |order| && forall j, k :: 0 <= j < k < |order| ==> order[j] != order[k]
    ensures order[i] in mem && mem[order[i]].prev == Prev(order, i) && mem[order[i]].next == Next(order, i)
    ensures (i > 0 ==> order[i - 1] in mem) && (i + 1 < |order| ==> order[i + 1] in mem)
    ensures Listed(Without(order, i), Unlink(mem, order[i]) - {order[i]})
  {
    var x := order[i];
    assert ListedAt(order, i, mem);
    ListMembers(order, mem);
    var order', mem' := Without(order, i), Unlink(mem, x) - {x};
    forall j: int ensures ListedAt(order', j, mem') {
      assert ListedAt(order, j, mem) && ListedAt(order, j + 1, mem);
      UnlinkListedAt(order, i, mem, j);
    }
    forall y | y in mem' ensures OnList(order', y) {
      WithoutKeeps(order, i, y);
    }
  }

  lemma UnlinkKeepsBuckets(mem: Memory, x: Item)
    requires x in mem && (mem[x].prev.To? ==> mem[x].prev.item in mem) && (mem[x].next.To? ==> mem[x].next.item in mem)
    ensures SameBuckets(mem, Unlink(mem, x))
  {
  }

  lemma UnlinkBucketKeepsList(mem: Memory, x: Item)
    requires x in mem && (mem[x].hhPrev.To? ==> mem[x].hhPrev.item in mem)
    requires mem[x].hhNext.To? ==> mem[x].hhNext.item in mem
    ensures SameList(mem, UnlinkBucket(mem, x))
  {
  }

  lemma UnlinkStrung(c: Chain, i: nat, mem: Memory)
    requires Strung(c, mem) && i < |c|
    requires forall i, j :: 0 <= i < j < |c| ==> c[i] != c[j]
    ensures c[i] in mem && mem[c[i]].hhPrev == Next(c, i) && mem[c[i]].hhNext == Prev(c, i)
    ensures Strung(Without(c, i), UnlinkBucket(mem, c[i]) - {c[i]})
  {
    assert StrungAt(c, i, mem);
    var c', mem' := Without(c, i), UnlinkBucket(mem, c[i]) - {c[i]};
    forall j: int ensures StrungAt(c', j, mem') {
      assert StrungAt(c, j, mem) && StrungAt(c, j + 1, mem);
    }
  }

  /** The ranks once an item is gone: those above it in its chain go down by one. */
  ghost function RankWithout(rank: map<Item, nat>, x: Item, k: nat, hash: string -> nat): (r: map<Item, nat>)
    requires x in rank
  {
    map y | y in rank && y != x ::
      if BucketOf(hash(y.key), k) == BucketOf(hash(x.key), k) && rank[y] > rank[x] then rank[y] - 1 else rank[y]
  }

  lemma RemoveFiled(chains: seq<Chain>, k: nat, rank: map<Item, nat>, hash: string -> nat, x: Item, b: nat)
    requires Filed(chains, k, rank, hash) && Placed(chains, k, rank, hash) && x in rank && b == BucketOf(hash(x.key), k)
    ensures rank[x] < |chains[b]| && chains[b][rank[x]] == x
    ensures Filed(chains[b := Without(chains[b], rank[x])], k, RankWithout(rank, x, k, hash), hash)
    ensures Placed(chains[b := Without(chains[b], rank[x])], k, RankWithout(rank, x, k, hash), hash)
  {
    assert PlacedAt(chains, x, k, rank, hash);
    var c, n := chains[b], rank[x];
    var chains', rank' := chains[b := Without(c, n)], RankWithout(rank, x, k, hash);
    ChainDistinct(chains, k, rank, hash, b);
    forall e: int, i: int ensures FiledAt(chains', e, i, k, rank', hash) {
      assert FiledAt(chains, e, i, k, rank, hash) && FiledAt(chains, e, i + 1, k, rank, hash);
      if 0 <= e < |chains| && e != b {
        OneChain(chains, k, rank, hash, e, b);
      }
    }
    forall y | y in rank' ensures PlacedAt(chains', y, k, rank', hash) {
      assert PlacedAt(chains, y, k, rank, hash);
    }
  }

  lemma UnlinkElsewhere(c: Chain, mem: Memory, x: Item)
    requires Strung(c, mem) && x in mem && x !in c
    requires mem[x].hhPrev.To? ==> mem[x].hhPrev.item in mem && mem[x].hhPrev.item !in c
    requires mem[x].hhNext.To? ==> mem[x].hhNext.item in mem && mem[x].hhNext.item !in c
    ensures Strung(c, UnlinkBucket(mem, x) - {x})
  {
    forall i: int ensures StrungAt(c, i, UnlinkBucket(mem, x) - {x}) {
      assert StrungAt(c, i, mem);
    }
  }

  lemma RemoveHung(chains: seq<Chain>, k: nat, rank: map<Item, nat>, hash: string -> nat, mem: Memory, x: Item, b: nat)
    requires Hung(chains, k, rank, hash, mem) && x in rank && b == BucketOf(hash(x.key), k)
    ensures rank[x] < |chains[b]| && chains[b][rank[x]] == x && x in mem
    ensures mem[x].hhPrev == Next(chains[b], rank[x]) && mem[x].hhNext == Prev(chains[b], rank[x])
    ensures mem[x].hhPrev.To? ==> mem[x].hhPrev.item in mem
    ensures mem[x].hhNext.To? ==> mem[x].hhNext.item in mem
    ensures
      var chains' := chains[b := Without(chains[b], rank[x])];
      Hung(chains', k, RankWithout(rank, x, k, hash), hash, UnlinkBucket(mem, x) - {x})
  {
    RemoveFiled(chains, k, rank, hash, x, b);
    var c := chains[b];
    assert Strung(c, mem);
    ChainDistinct(chains, k, rank, hash, b);
    UnlinkStrung(c, rank[x], mem);
    var mem' := UnlinkBucket(mem, x) - {x};
    forall e | 0 <= e < |chains| && e != b ensures Strung(chains[e], mem') {
      assert Strung(chains[e], mem);
      OneChain(chains, k, rank, hash, b, e);
      UnlinkElsewhere(chains[e], mem, x);
    }
  }

  // ---------------------------------------------------------------- the table

  /** `HASH_MAKE_TABLE` */
  method MakeTable(ghost hash: string -> nat, ghost mem: Memory)
    returns (buckets: array<Bucket>, stats: Stats, ghost chains: seq<Chain>)
    ensures fresh(buckets) && Recorded(chains, buckets)
    ensures forall b {:trigger buckets[b]} :: 0 <= b < buckets.Length ==> buckets[b] == Bucket(Null, 0, 0)
    ensures stats == Stats(INITIAL_LOG2, 0, 0, 0, 0, false)
    ensures Hung(chains, INITIAL_LOG2, map[], hash, mem)
  {
    PowInitial();
    buckets := new Bucket[32](_ => Bucket(Null, 0, 0));
    stats := Stats(INITIAL_LOG2, 0, 0, 0, 0, false);
    chains := seq(32, _ => []);
    HungEmpty(chains, INITIAL_LOG2, hash, mem);
  }

  lemma LinkedLast(order: seq<Item>, chains: seq<Chain>, k: nat, rank: map<Item, nat>, hash: string -> nat, mem: Memory,
                   x: Item)
    requires Listed(order, mem) && DistinctKeys(order) && Hung(chains, k, rank, hash, mem)
    requires x !in mem && rank.Keys == mem.Keys && Hashed(mem, hash) && forall y :: y in order ==> y.key != x.key
    ensures Top(order).To? ==> Top(order).item in mem
    ensures
      var mem' := Append(mem, Top(order), x, hash(x.key));
      && Listed(order + [x], mem') && DistinctKeys(order + [x]) && Hung(chains, k, rank, hash, mem')
      && rank.Keys == mem'.Keys - {x} && Hashed(mem', hash)
  {
    AppendListed(order, mem, x, hash(x.key));
    var mem' := Append(mem, Top(order), x, hash(x.key));
    HungSame(chains, k, rank, hash, mem, mem');
  }

  lemma UnlinkedItem(order: seq<Item>, chains: seq<Chain>, k: nat, rank: map<Item, nat>, hash: string -> nat,
                     mem: Memory, i: nat)
    requires Listed(order, mem) && DistinctKeys(order) && Hung(chains, k, rank, hash, mem) && Hashed(mem, hash)
    requires |order| > 1 && i < |order|
    ensures var x := order[i];
      && x in mem && mem[x].prev == Prev(order, i) && mem[x].next == Next(order, i)
      && (mem[x].prev.To? ==> mem[x].prev.item in mem) && (mem[x].next.To? ==> mem[x].next.item in mem)
      && Listed(Without(order, i), Unlink(mem, x) - {x}) && Hung(chains, k, rank, hash, Unlink(mem, x))
      && Hashed(Unlink(mem, x), hash) && Unlink(mem, x).Keys == mem.Keys
    ensures Top(Without(order, i)) == if Top(order) == To(order[i]) then Prev(order, i) else Top(order)
    ensures To(Without(order, i)[0]) == if i == 0 then Next(order, i) else To(order[0])
    ensures DistinctKeys(Without(order, i))
  {
    UnlinkListed(order, i, mem);
    TopWithout(order, i);
    ListMembers(order, mem);
    UnlinkKeepsBuckets(mem, order[i]);
    HungSame(chains, k, rank, hash, mem, Unlink(mem, order[i]));
  }

  /** The application order, the bucket chains, and the items' ranks in them. */
  datatype View = View(order: seq<Item>, chains: seq<Chain>, rank: map<Item, nat>)

  class HashTable {
    const hash: string -> nat
    var head: Ref
    var tail: Ref
    var buckets: array<Bucket>
    var stats: Stats
    var mem: Memory
    ghost var view: View

    ghost predicate ListValid()
      reads this`head, this`tail, this`view, this`mem
    {
      && Listed(view.order, mem) && DistinctKeys(view.order)
      && head == (if view.order == [] then Null else To(view.order[0]))
      && (view.order != [] ==> tail == Top(view.order))
    }

    /** The part of the invariant that `HASH_FSCK` checks in the buckets. */
    ghost predicate BucketsValid()
      reads this`buckets, this`stats, this`view, this`mem, buckets
    {
      && Hung(view.chains, stats.log2, view.rank, hash, mem)
      && Recorded(view.chains, buckets)
      && view.rank.Keys == mem.Keys && stats.items == |view.order|
      && Hashed(mem, hash)
    }

    ghost predicate Valid()
      reads this, buckets
    {
      ListValid() && (head.To? ==> BucketsValid())
    }

    constructor (hash: string -> nat)
      ensures Valid() && this.hash == hash && view.order == []
    {
      this.hash := hash;
      head, tail, mem, view := Null, Null, map[], View([], [], map[]);
      buckets := new Bucket[0];
      stats := Stats(0, 0, 0, 0, 0, false);
    }

    /** `HASH_FIND` */
    method Find(key: string) returns (out: Ref)
      requires Valid()
      ensures out == Lookup(view.order, key)
    {
      out := Null;
      if head.To? {
        var b := BucketOf(hash(key), stats.log2);
        assert Strung(view.chains[b], mem);
        ListMembers(view.order, mem);
        out := FindInBucket(buckets[b].head, key, view.chains[b], mem);
        forall x | x in view.order && x.key == key ensures x in view.chains[b] {
          assert x in mem;
          assert PlacedAt(view.chains, x, stats.log2, view.rank, hash);
        }
        LookupUnique(view.order, key, out);
      } else {
        LookupUnique(view.order, key, out);
      }
    }

    /** Doubling the buckets: `HASH_EXPAND_BUCKETS`. */
    method Expand()
      requires Valid() && head.To? && stats.items > 0
      modifies this`buckets, this`stats, this`view, this`mem
      ensures Valid() && view.order == old(view.order)
      ensures fresh(buckets) && Multiplied(buckets, view.chains, stats.ideal)
      ensures stats == StatsAfterDoubling(old(stats), Excess(view.chains, stats.ideal))
    {
      var doubled, stats', mem';
      ghost var newc, place;
      doubled, stats', newc, place, mem' := Double(buckets, stats, view.chains, view.rank, hash, mem);
      ListedSame(view.order, mem, mem');
      mem, view, buckets, stats := mem', view.(chains := newc, rank := place), doubled, stats';
    }

    /** `HASH_ADD_TO_BKT`, up to the test for expansion. */
    method AddToBucket(x: Item, b: nat)
      requires Hung(view.chains, stats.log2, view.rank, hash, mem) && Recorded(view.chains, buckets)
      requires x in mem && view.rank.Keys == mem.Keys - {x} && stats.items == |view.order| && Hashed(mem, hash)
      requires b == BucketOf(hash(x.key), stats.log2)
      modifies this`view, this`mem, buckets
      ensures BucketsValid() && SameList(old(mem), mem) && view.order == old(view.order)
      ensures buckets[b].count == old(buckets[b].count) + 1 && buckets[b].mult == old(buckets[b].mult)
    {
      ghost var chains, rank := view.chains[b := view.chains[b] + [x]], view.rank[x := |view.chains[b]|];
      var mem' := PutOnTop(x, b, buckets, view.chains, stats.log2, view.rank, hash, mem);
      LinkKeepsList(mem, mem, Top(view.chains[b]), x);
      StillHashedAll(mem, mem', hash);
      mem, view := mem', View(view.order, chains, rank);
    }

    /** The first half of `HASH_ADD_KEYPTR`: the end of the application order, and a table for the first item. */
    method LinkLast(x: Item)
      requires Valid() && x !in mem && forall y :: y in view.order ==> y.key != x.key
      modifies this
      ensures ListValid() && head.To? && view.order == old(view.order) + [x]
      ensures Hung(view.chains, stats.log2, view.rank, hash, mem) && Recorded(view.chains, buckets)
      ensures x in mem && view.rank.Keys == mem.Keys - {x} && stats.items == |view.order| && Hashed(mem, hash)
      ensures buckets == old(buckets) || fresh(buckets)
      ensures old(head).To? ==> buckets == old(buckets) && stats == old(stats).(items := old(stats).items + 1)
      ensures old(head).Null? ==> stats == Stats(INITIAL_LOG2, 1, 0, 0, 0, false)
      ensures old(head).Null? ==> forall b {:trigger buckets[b]} ::
        0 <= b < buckets.Length ==> buckets[b] == Bucket(Null, 0, 0)
    {
      var bs, st, last := buckets, stats, if head.To? then tail else Null;
      ghost var chains, rank := view.chains, view.rank;
      if head.Null? {
        bs, st, chains := MakeTable(hash, mem);
        rank := map[];
      }
      ListMembers(view.order, mem);
      LinkedLast(view.order, chains, st.log2, rank, hash, mem, x);
      view := View(view.order + [x], chains, rank);
      head, tail := if head.To? then head else To(x), To(x);
      mem, buckets, stats := Append(mem, last, x, hash(x.key)), bs, st.(items := st.items + 1);
    }

    /** Whether an item more makes its bucket too long. */
    ghost predicate Fills(x: Item)
      requires head.To? ==> BucketsValid()
      reads this, buckets
    {
      && head.To? && !stats.noexpand
      && var bucket := buckets[BucketOf(hash(x.key), stats.log2)];
         bucket.count + 1 >= 10 * (bucket.mult + 1)
    }

    /** `HASH_ADD_KEYPTR`, up to the test for expansion. */
    method Insert(x: Item) returns (bucket: Bucket)
      requires Valid() && x !in mem && forall y :: y in view.order ==> y.key != x.key
      modifies this, buckets
      ensures Valid() && head.To? && view.order == old(view.order) + [x]
      ensures buckets == old(buckets) || fresh(buckets)
      ensures stats ==
        (if old(head).To? then old(stats) else Stats(INITIAL_LOG2, 0, 0, 0, 0, false)).(items := |view.order|)
      ensures old(Fills(x)) == (bucket.count >= (bucket.mult + 1) * CAPACITY_THRESH && !stats.noexpand)
    {
      LinkLast(x);
      ghost var linked := mem;
      var b := BucketOf(mem[x].hashv, stats.log2);
      AddToBucket(x, b);
      ListedSame(view.order, linked, mem);
      bucket := buckets[b];
    }

    /** `HASH_ADD_KEYPTR` */
    method Add(x: Item)
      requires Valid() && x !in mem && forall y :: y in view.order ==> y.key != x.key
      modifies this, buckets
      ensures Valid() && view.order == old(view.order) + [x]
      ensures buckets == old(buckets) || fresh(buckets)
      ensures stats.log2 == (if old(head).To? then old(stats.log2) else INITIAL_LOG2) + (if old(Fills(x)) then 1 else 0)
      ensures old(Fills(x)) ==>
        Multiplied(buckets, view.chains, stats.ideal) && stats.nonideal == Excess(view.chains, stats.ideal)
      ensures
        var before := (if old(head).To? then old(stats) else Stats(5, 0, 0, 0, 0, false)).(items := |view.order|);
        stats == if old(Fills(x)) then StatsAfterDoubling(before, stats.nonideal) else before
    {
      var bucket := Insert(x);
      if bucket.count >= (bucket.mult + 1) * CAPACITY_THRESH && !stats.noexpand {
        Expand();
      }
    }

    /** The half of `HASH_DELETE` that patches the application order. */
    method UnlinkItem(x: Item, ghost i: nat)
      requires Valid() && head.To? && |view.order| > 1 && i < |view.order| && view.order[i] == x
      modifies this`head, this`tail, this`mem
      ensures Listed(Without(view.order, i), mem - {x}) && DistinctKeys(Without(view.order, i))
      ensures x in mem && mem.Keys == old(mem.Keys)
      ensures head == To(Without(view.order, i)[0]) && tail == Top(Without(view.order, i))
      ensures BucketsValid()
    {
      UnlinkedItem(view.order, view.chains, stats.log2, view.rank, hash, mem, i);
      var handle := mem[x];
      if To(x) == tail {
        tail := handle.prev;
      }
      if handle.prev.Null? {
        head := handle.next;
      }
      mem := Unlink(mem, x);
    }

    /** `HASH_DEL_IN_BKT` */
    method UnlinkFromBucket(x: Item, b: nat)
      requires BucketsValid() && x in mem && b == BucketOf(hash(x.key), stats.log2) && stats.items > 0
      modifies this`mem, this`view, this`stats, buckets
      ensures Hung(view.chains, stats.log2, view.rank, hash, mem) && Recorded(view.chains, buckets) && Hashed(mem, hash)
      ensures view.rank.Keys == mem.Keys && SameList(old(mem) - {x}, mem) && view.order == old(view.order)
      ensures stats == old(stats).(items := old(stats.items) - 1)
    {
      RemoveHung(view.chains, stats.log2, view.rank, hash, mem, x, b);
      ChainDistinct(view.chains, stats.log2, view.rank, hash, b);
      TopWithout(view.chains[b], view.rank[x]);
      UnlinkBucketKeepsList(mem, x);
      var bucket := buckets[b];
      ghost var chains := view.chains[b := Without(view.chains[b], view.rank[x])];
      buckets[b] := bucket.(count := bucket.count - 1,
        head := if bucket.head == To(x) then mem[x].hhNext else bucket.head);
      view := View(view.order, chains, RankWithout(view.rank, x, stats.log2, hash));
      mem := UnlinkBucket(mem, x) - {x};
      stats := stats.(items := stats.items - 1);
    }

    method DeleteOneOfMany(x: Item, ghost i: nat)
      requires Valid() && |view.order| > 1 && i < |view.order| && view.order[i] == x
      modifies this, buckets
      ensures Valid() && view.order == Without(old(view.order), i) && mem.Keys == old(mem.Keys) - {x}
      ensures buckets == old(buckets)
    {
      UnlinkItem(x, i);
      ghost var unlinked := mem - {x};
      UnlinkFromBucket(x, BucketOf(mem[x].hashv, stats.log2));
      ListedSame(Without(view.order, i), unlinked, mem);
      view := view.(order := Without(view.order, i));
    }

    /** `HASH_DELETE` */
    method Delete(x: Item, ghost i: nat)
      requires Valid() && i < |view.order| && view.order[i] == x
      modifies this, buckets
      ensures Valid() && view.order == Without(old(view.order), i) && mem.Keys == old(mem.Keys) - {x}
      ensures buckets == old(buckets)
    {
      assert ListedAt(view.order, i, mem);
      ListMembers(view.order, mem);
      if mem[x].prev.Null? && mem[x].next.Null? {
        head, mem, view := Null, map[], view.(order := []);
      } else {
        DeleteOneOfMany(x, i);
      }
    }

    /** `HASH_FSCK`, which must never find anything wrong. */
    method Fsck() returns (ok: bool)
      requires Valid()
      ensures ok
    {
      ok := true;
      if head.To? {
        var total, b := 0, 0;
        while b < buckets.Length
          invariant ok && b <= buckets.Length && total == Total(view.chains[..b])
        {
          ghost var c := view.chains[b];
          assert Strung(c, mem);
          var count, prev, here := 0, Null, buckets[b].head;
          while here.To?
            invariant ok && count <= |c| && prev == (if count > 0 then To(c[|c| - count]) else Null)
            invariant here == if count < |c| then To(c[|c| - count - 1]) else Null
            decreases |c| - count
          {
            assert StrungAt(c, |c| - count - 1, mem);
            ok := ok && prev == mem[here.item].hhPrev;
            count, prev, here := count + 1, here, mem[here.item].hhNext;
          }
          assert view.chains[..b + 1] == view.chains[..b] + [c];
          TotalSnoc(view.chains[..b], c);
          ok, total := ok && buckets[b].count == count, total + count;
          b := b + 1;
        }
        assert view.chains[..b] == view.chains;
        ItemCount(view.order, view.chains, stats.log2, view.rank, hash, mem);
        ok := ok && total == stats.items;
        var count, prev, here := 0, Null, head;
        while here.To?
          invariant ok && count <= |view.order| && prev == (if count > 0 then To(view.order[count - 1]) else Null)
          invariant here == if count < |view.order| then To(view.order[count]) else Null
          decreases |view.order| - count
        {
          assert ListedAt(view.order, count, mem);
          ok := ok && prev == mem[here.item].prev;
          count, prev, here := count + 1, here, mem[here.item].next;
        }
        ok := ok && count == stats.items;
      }
    }
  }

  /** The bucket chains hold as many items as the application order. */
  lemma ItemCount(order: seq<Item>, chains: seq<Chain>, k: nat, rank: map<Item, nat>, hash: string -> nat, mem: Memory)
    requires Listed(order, mem) && DistinctKeys(order) && Hung(chains, k, rank, hash, mem) && rank.Keys == mem.Keys
    ensures Total(chains) == |order|
  {
    TotalIsCount(chains, k, rank, hash);
    DistinctCount(order);
    ListMembers(order, mem);
    assert Items(order) == rank.Keys;
  }

  lemma ListedSame(order: seq<Item>, mem: Memory, mem': Memory)
    requires Listed(order, mem) && SameList(mem, mem')
    ensures Listed(order, mem')
  {
    forall x | x in mem' ensures OnList(order, x) {
      assert x in mem;
    }
    forall i: int ensures ListedAt(order, i, mem') {
      assert ListedAt(order, i, mem);
    }
  }

  /** The item with a key, if there is one. */
  ghost function Lookup(order: seq<Item>, key: string): Ref {
    if order == [] then Null else if order[0].key == key then To(order[0]) else Lookup(order[1..], key)
  }

  lemma {:induction false} LookupAfterAdd(order: seq<Item>, x: Item, key: string)
    requires forall y :: y in order ==> y.key != x.key
    ensures Lookup(order + [x], key) == if key == x.key then To(x) else Lookup(order, key)
  {
    if order != [] {
      assert (order + [x])[1..] == order[1..] + [x];
      LookupAfterAdd(order[1..], x, key);
    }
  }

  lemma {:induction false} LookupAfterDelete(order: seq<Item>, i: nat, key: string)
    requires DistinctKeys(order) && i < |order|
    ensures Lookup(Without(order, i), key) == if key == order[i].key then Null else Lookup(order, key)
  {
    if i == 0 {
      assert Without(order, 0) == order[1..];
      if key == order[0].key {
        LookupUnique(order[1..], key, Null);
      }
    } else {
      assert Without(order, i)[1..] == Without(order[1..], i - 1);
      LookupAfterDelete(order[1..], i - 1, key);
    }
  }

  lemma {:induction false} LookupUnique(order: seq<Item>, key: string, out: Ref)
    requires DistinctKeys(order)
    requires out.To? ==> out.item in order && out.item.key == key
    requires out.Null? ==> forall x :: x in order ==> x.key != key
    ensures out == Lookup(order, key)
  {
    if order != [] && order[0].key != key {
      assert out.To? ==> out.item in order[1..];
      LookupUnique(order[1..], key, out);
    }
  }
}
