/** The table that numbers record types as C structs, and the order in which the structs are declared. */
module StructTable {

  // ---------------------------------------------------------------- types

  datatype Typ =
    | TFun(dom: Typ, ran: Typ)
    | TRecord(fields: seq<Field>)
    | TDatatype(name: nat)
    | TFfi(mod: string, x: string)
    | TOption(elem: Typ)
    | TList(elem: Typ)
    | TSource
    | TSignal(elem: Typ)

  datatype Field = Field(name: string, t: Typ)

  /** The types of the target: a struct by number, and a list with the struct of its cells. */
  datatype CTyp =
    | CFun(dom: CTyp, ran: CTyp)
    | CRecord(index: nat)
    | CDatatype(name: nat)
    | CFfi(mod: string, x: string)
    | COption(elem: CTyp)
    | CList(elem: CTyp, index: nat)

  datatype CField = CField(name: string, t: CTyp)

  // ---------------------------------------------------------------- order of fields

  predicate Less(a: string, b: string) {
    b != "" && (a == "" || a[0] < b[0] || (a[0] == b[0] && Less(a[1..], b[1..])))
  }

  lemma {:induction false} LessAsymmetric(a: string, b: string)
    requires Less(a, b)
    ensures !Less(b, a)
  {
    if a != "" && a[0] == b[0] {
      LessAsymmetric(a[1..], b[1..]);
    }
  }

  /** The order of a dictionary: a proper prefix, or a smaller character at the first difference. */
  lemma {:induction false} LessMeans(a: string, b: string)
    ensures Less(a, b) <==> exists k: nat :: FirstDifference(a, b, k) && (k == |a| || (k < |b| && a[k] < b[k]))
  {
    if a != "" && b != "" && a[0] == b[0] {
      LessMeans(a[1..], b[1..]);
      if Less(a, b) {
        var k: nat :| FirstDifference(a[1..], b[1..], k) && (k == |a[1..]| || (k < |b[1..]| && a[1..][k] < b[1..][k]));
        assert FirstDifference(a, b, k + 1);
      }
      if k: nat :| FirstDifference(a, b, k) && (k == |a| || (k < |b| && a[k] < b[k])) {
        assert FirstDifference(a[1..], b[1..], k - 1);
      }
    } else {
      assert a != b ==> FirstDifference(a, b, 0);
    }
  }

  predicate FirstDifference(a: string, b: string, k: nat) {
    && k <= |a| && k <= |b| && a != b && (forall j :: 0 <= j < k ==> a[j] == b[j])
    && (k < |a| && k < |b| ==> a[k] != b[k])
  }

  function Insert(f: Field, s: seq<Field>): (r: seq<Field>)
    ensures |r| == |s| + 1
  {
    if s == [] || !Less(s[0].name, f.name) then [f] + s else [s[0]] + Insert(f, s[1..])
  }

  /** `sortFields` */
  function Sort(s: seq<Field>): (r: seq<Field>)
    ensures |r| == |s|
  {
    if s == [] then [] else Insert(s[0], Sort(s[1..]))
  }

  ghost predicate Sorted(s: seq<Field>) {
    |s| > 1 ==> !Less(s[1].name, s[0].name) && Sorted(s[1..])
  }

  lemma {:induction false} InsertSorted(f: Field, s: seq<Field>)
    requires Sorted(s)
    ensures Sorted(Insert(f, s))
  {
    if s != [] && Less(s[0].name, f.name) {
      InsertSorted(f, s[1..]);
      LessAsymmetric(s[0].name, f.name);
    } else {
      assert ([f] + s)[1..] == s;
    }
  }

  lemma {:induction false} SortSorted(s: seq<Field>)
    ensures Sorted(Sort(s))
  {
    if s != [] {
      SortSorted(s[1..]);
      InsertSorted(s[0], Sort(s[1..]));
    }
  }

  lemma {:induction false} SortOfSorted(s: seq<Field>)
    requires Sorted(s)
    ensures Sort(s) == s
  {
    if s != [] {
      SortOfSorted(s[1..]);
    }
  }

  // ---------------------------------------------------------------- equal types

  /** A type with the fields of its records in order: two types compare as equal exactly when these are the same
      (`CompareEqual`). */
  function Norm(t: Typ): Typ {
    match t
    case TFun(a, b) => TFun(Norm(a), Norm(b))
    case TRecord(xts) => TRecord(Sort(NormFields(xts)))
    case TOption(a) => TOption(Norm(a))
    case TList(a) => TList(Norm(a))
    case TSignal(a) => TSignal(Norm(a))
    case _ => t
  }

  function NormFields(xts: seq<Field>): (r: seq<Field>)
    ensures |r| == |xts| && forall i :: 0 <= i < |xts| ==> r[i] == Field(xts[i].name, Norm(xts[i].t))
  {
    seq(|xts|, i requires 0 <= i < |xts| => Field(xts[i].name, Norm(xts[i].t)))
  }

  lemma {:induction false} NormInsert(f: Field, s: seq<Field>)
    ensures NormFields(Insert(f, s)) == Insert(Field(f.name, Norm(f.t)), NormFields(s))
  {
    if s != [] && Less(s[0].name, f.name) {
      NormInsert(f, s[1..]);
      assert NormFields(s)[1..] == NormFields(s[1..]);
    }
  }

  lemma {:induction false} NormSort(s: seq<Field>)
    ensures NormFields(Sort(s)) == Sort(NormFields(s))
  {
    if s != [] {
      NormSort(s[1..]);
      NormInsert(s[0], Sort(s[1..]));
      assert NormFields(s)[1..] == NormFields(s[1..]);
    }
  }

  /** Sorting the fields of a record leaves it the same type. */
  lemma NormOfSorted(xts: seq<Field>)
    ensures Norm(TRecord(Sort(xts))) == Norm(TRecord(xts))
  {
    NormSort(xts);
    SortSorted(NormFields(xts));
    SortOfSorted(Sort(NormFields(xts)));
  }

  // ---------------------------------------------------------------- the table

  datatype Decl = Decl(index: nat, fields: seq<CField>)

  /** `Sm.t`: the maps, which the source orders by `Typ.compare`, are by type as `Norm` leaves it (`CompareEqual`).
      The newest declaration comes first. */
  datatype Sm = Sm(count: nat, normal: map<Typ, nat>, lists: map<Typ, nat>, decls: seq<Decl>)

  const EMPTY := Sm(1, map[TRecord([]) := 0], map[], [])

  function CellFields(t: Typ): seq<Field> {
    [Field("1", t), Field("2", TList(t))]
  }

  /** `Sm.find` */
  function Find(v: Sm, xts: seq<Field>, cxts: seq<CField>): (Sm, nat) {
    var key := Norm(TRecord(xts));
    if key in v.normal then (v, v.normal[key])
    else (Sm(v.count + 1, v.normal[key := v.count], v.lists, [Decl(v.count, cxts)] + v.decls), v.count)
  }

  /** `Sm.findList` */
  function FindList(v: Sm, t: Typ, ct: CTyp): (Sm, nat) {
    if Norm(t) in v.lists then (v, v.lists[Norm(t)])
    else
      var cells := [CField("1", ct), CField("2", CList(ct, v.count))];
      (Sm(v.count + 1, v.normal[Norm(TRecord(CellFields(t))) := v.count], v.lists[Norm(t) := v.count],
          [Decl(v.count, cells)] + v.decls),
       v.count)
  }

  /** The type arguments of the constructors of the datatypes. */
  type Env = map<nat, seq<Typ>>

  function TypSize(t: Typ): (n: nat)
    ensures n > 0
  {
    match t
    case TFun(a, b) => 1 + TypSize(a) + TypSize(b)
    case TRecord(xts) => 1 + FieldsSize(xts)
    case TOption(a) => 1 + TypSize(a)
    case TList(a) => 1 + TypSize(a)
    case TSignal(a) => 1 + TypSize(a)
    case _ => 1
  }

  function FieldsSize(xts: seq<Field>): nat {
    if xts == [] then 0 else 1 + TypSize(xts[0].t) + FieldsSize(xts[1..])
  }

  function TypesSize(ts: seq<Typ>): nat {
    if ts == [] then 0 else 1 + TypSize(ts[0]) + TypesSize(ts[1..])
  }

  lemma {:induction false} InsertSize(f: Field, s: seq<Field>)
    ensures FieldsSize(Insert(f, s)) == 1 + TypSize(f.t) + FieldsSize(s)
  {
    if s != [] && Less(s[0].name, f.name) {
      InsertSize(f, s[1..]);
    } else {
      assert ([f] + s)[1..] == s;
    }
  }

  lemma {:induction false} SortSize(s: seq<Field>)
    ensures FieldsSize(Sort(s)) == FieldsSize(s)
  {
    if s != [] {
      SortSize(s[1..]);
      InsertSize(s[0], Sort(s[1..]));
    }
  }

  lemma OpenFewer(keys: set<nat>, open: set<nat>, n: nat)
    requires n in keys && n !in open
    ensures |keys - (open + {n})| < |keys - open|
  {
    assert keys - open == (keys - (open + {n})) + {n};
  }

  /** `cifyTyp`, with the datatypes `open` being under way. */
  function Cify(env: Env, open: set<nat>, t: Typ, v: Sm): (CTyp, Sm)
    decreases |env.Keys - open|, TypSize(t)
  {
    match t
    case TFun(a, b) =>
      var (ca, v1) := Cify(env, open, a, v);
      var (cb, v2) := Cify(env, open, b, v1);
      (CFun(ca, cb), v2)
    case TRecord(xts) =>
      SortSize(xts);
      var (cxts, v1) := CifyFields(env, open, Sort(xts), v);
      var (v2, i) := Find(v1, Sort(xts), cxts);
      (CRecord(i), v2)
    case TDatatype(n) =>
      if n in open || n !in env then (CDatatype(n), v)
      else
        OpenFewer(env.Keys, open, n);
        (CDatatype(n), CifyAll(env, open + {n}, env[n], v))
    case TFfi(m, x) => (CFfi(m, x), v)
    case TOption(a) =>
      var (ca, v1) := Cify(env, open, a, v);
      (COption(ca), v1)
    case TList(a) =>
      var (ca, v1) := Cify(env, open, a, v);
      var (v2, i) := FindList(v1, a, ca);
      (CList(ca, i), v2)
    case TSource => (CFfi("Basis", "source"), v)
    case TSignal(_) => (CFfi("Basis", "bogus"), v)
  }

  function CifyFields(env: Env, open: set<nat>, xts: seq<Field>, v: Sm): (seq<CField>, Sm)
    decreases |env.Keys - open|, FieldsSize(xts)
  {
    if xts == [] then ([], v)
    else
      var (ct, v1) := Cify(env, open, xts[0].t, v);
      var (rest, v2) := CifyFields(env, open, xts[1..], v1);
      ([CField(xts[0].name, ct)] + rest, v2)
  }

  /** The constructors of a datatype, for what they add to the table. */
  function CifyAll(env: Env, open: set<nat>, ts: seq<Typ>, v: Sm): Sm
    decreases |env.Keys - open|, TypesSize(ts)
  {
    if ts == [] then v else CifyAll(env, open, ts[1..], Cify(env, open, ts[0], v).1)
  }

  // ---------------------------------------------------------------- the comparison of types

  datatype Order = LESS | EQUAL | GREATER

  function Flip(o: Order): Order {
    match o
    case LESS => GREATER
    case EQUAL => EQUAL
    case GREATER => LESS
  }

  /** `Order.join` */
  function Join(o: Order, o': Order): Order {
    if o == EQUAL then o' else o
  }

  function CompareInts(m: int, n: int): Order {
    if m < n then LESS else if m == n then EQUAL else GREATER
  }

  /** `String.compare` */
  function CompareText(a: string, b: string): Order {
    if Less(a, b) then LESS else if a == b then EQUAL else GREATER
  }

  /** The order of the cases of the comparison. */
  function Rank(t: Typ): nat {
    match t
    case TFun(_, _) => 0
    case TRecord(_) => 1
    case TDatatype(_) => 2
    case TFfi(_, _) => 3
    case TOption(_) => 4
    case TList(_) => 5
    case TSource => 6
    case TSignal(_) => 7
  }

  /** `MonoUtil.Typ.compare` */
  function Compare(t: Typ, u: Typ): Order
    decreases TypSize(t)
  {
    match (t, u)
    case (TFun(d, r), TFun(d', r')) => Join(Compare(d, d'), Compare(r, r'))
    case (TRecord(xts), TRecord(xts')) => SortSize(xts); CompareFields(Sort(xts), Sort(xts'))
    case (TDatatype(n), TDatatype(n')) => CompareInts(n, n')
    case (TFfi(m, x), TFfi(m', x')) => Join(CompareText(m, m'), CompareText(x, x'))
    case (TOption(a), TOption(a')) => Compare(a, a')
    case (TList(a), TList(a')) => Compare(a, a')
    case (TSource, TSource) => EQUAL
    case (TSignal(a), TSignal(a')) => Compare(a, a')
    case _ => CompareInts(Rank(t), Rank(u))
  }

  /** `joinL compareFields` */
  function CompareFields(xts: seq<Field>, xts': seq<Field>): Order
    decreases FieldsSize(xts)
  {
    if xts == [] then if xts' == [] then EQUAL else LESS
    else if xts' == [] then GREATER
    else Join(Join(CompareText(xts[0].name, xts'[0].name), Compare(xts[0].t, xts'[0].t)),
      CompareFields(xts[1..], xts'[1..]))
  }

  lemma {:induction false} LessTotal(a: string, b: string)
    requires a != b
    ensures Less(a, b) || Less(b, a)
  {
    if a != "" && b != "" && a[0] == b[0] {
      assert a == [a[0]] + a[1..] && b == [b[0]] + b[1..];
      LessTotal(a[1..], b[1..]);
    }
  }

  lemma {:induction false} LessTrans(a: string, b: string, c: string)
    requires Less(a, b) && Less(b, c)
    ensures Less(a, c)
  {
    if a != "" && a[0] == b[0] == c[0] {
      LessTrans(a[1..], b[1..], c[1..]);
    }
  }

  lemma LessIrreflexive(a: string)
    ensures !Less(a, a)
  {
    if Less(a, a) {
      LessAsymmetric(a, a);
    }
  }

  lemma CompareTextFlip(a: string, b: string)
    ensures CompareText(b, a) == Flip(CompareText(a, b)) && (CompareText(a, b) == EQUAL <==> a == b)
  {
    LessIrreflexive(a);
    if a != b {
      LessTotal(a, b);
      if Less(a, b) {
        LessAsymmetric(a, b);
      }
    }
  }

  /** The comparison calls two types equal exactly when they are the same up to the order of fields, at every depth. */
  lemma {:induction false} CompareEqual(t: Typ, u: Typ)
    ensures Compare(t, u) == EQUAL <==> Norm(t) == Norm(u)
    decreases TypSize(t)
  {
    match (t, u)
    case (TFun(d, r), TFun(d', r')) => CompareEqual(d, d'); CompareEqual(r, r');
    case (TRecord(xts), TRecord(xts')) =>
      SortSize(xts);
      CompareFieldsEqual(Sort(xts), Sort(xts'));
      NormSort(xts);
      NormSort(xts');
    case (TFfi(m, x), TFfi(m', x')) => CompareTextFlip(m, m'); CompareTextFlip(x, x');
    case (TOption(a), TOption(a')) => CompareEqual(a, a');
    case (TList(a), TList(a')) => CompareEqual(a, a');
    case (TSignal(a), TSignal(a')) => CompareEqual(a, a');
    case _ =>
  }

  lemma {:induction false} CompareFieldsEqual(xts: seq<Field>, xts': seq<Field>)
    ensures CompareFields(xts, xts') == EQUAL <==> NormFields(xts) == NormFields(xts')
    decreases FieldsSize(xts)
  {
    if xts != [] && xts' != [] {
      CompareTextFlip(xts[0].name, xts'[0].name);
      CompareEqual(xts[0].t, xts'[0].t);
      CompareFieldsEqual(xts[1..], xts'[1..]);
      assert NormFields(xts) == [NormFields(xts)[0]] + NormFields(xts[1..]);
      assert NormFields(xts') == [NormFields(xts')[0]] + NormFields(xts'[1..]);
    }
  }

  /** It is a total order, as a finite map by types asks of it. */
  lemma {:induction false} CompareFlip(t: Typ, u: Typ)
    ensures Compare(u, t) == Flip(Compare(t, u))
    decreases TypSize(t)
  {
    match (t, u)
    case (TFun(d, r), TFun(d', r')) => CompareFlip(d, d'); CompareFlip(r, r');
    case (TRecord(xts), TRecord(xts')) =>
      SortSize(xts);
      CompareFieldsFlip(Sort(xts), Sort(xts'));
    case (TFfi(m, x), TFfi(m', x')) => CompareTextFlip(m, m'); CompareTextFlip(x, x');
    case (TOption(a), TOption(a')) => CompareFlip(a, a');
    case (TList(a), TList(a')) => CompareFlip(a, a');
    case (TSignal(a), TSignal(a')) => CompareFlip(a, a');
    case _ =>
  }

  lemma {:induction false} CompareFieldsFlip(xts: seq<Field>, xts': seq<Field>)
    ensures CompareFields(xts', xts) == Flip(CompareFields(xts, xts'))
    decreases FieldsSize(xts)
  {
    if xts != [] && xts' != [] {
      CompareTextFlip(xts[0].name, xts'[0].name);
      CompareFlip(xts[0].t, xts'[0].t);
      CompareFieldsFlip(xts[1..], xts'[1..]);
    }
  }

  /** What follows from two comparisons, of the first thing with the second and of the second with the third. */
  predicate Chains(o: Order, o': Order, o'': Order) {
    o != GREATER && o' != GREATER ==> o'' == if o == EQUAL then o' else LESS
  }

  lemma CompareTextChains(a: string, b: string, c: string)
    ensures Chains(CompareText(a, b), CompareText(b, c), CompareText(a, c))
  {
    CompareTextFlip(a, b);
    CompareTextFlip(b, c);
    if Less(a, b) && Less(b, c) {
      LessTrans(a, b, c);
    }
  }

  lemma {:induction false} CompareChains(t: Typ, u: Typ, w: Typ)
    ensures Chains(Compare(t, u), Compare(u, w), Compare(t, w))
    decreases TypSize(t)
  {
    if Rank(t) == Rank(u) == Rank(w) {
      match t
      case TFun(d, r) => CompareChains(d, u.dom, w.dom); CompareChains(r, u.ran, w.ran);
      case TRecord(xts) =>
        SortSize(xts);
        CompareFieldsChain(Sort(xts), Sort(u.fields), Sort(w.fields));
      case TFfi(m, x) => CompareTextChains(m, u.mod, w.mod); CompareTextChains(x, u.x, w.x);
      case TOption(a) => CompareChains(a, u.elem, w.elem);
      case TList(a) => CompareChains(a, u.elem, w.elem);
      case TSignal(a) => CompareChains(a, u.elem, w.elem);
      case _ =>
    }
  }

  lemma {:induction false} CompareFieldsChain(xs: seq<Field>, ys: seq<Field>, zs: seq<Field>)
    ensures Chains(CompareFields(xs, ys), CompareFields(ys, zs), CompareFields(xs, zs))
    decreases FieldsSize(xs)
  {
    if xs != [] && ys != [] && zs != [] {
      CompareTextChains(xs[0].name, ys[0].name, zs[0].name);
      CompareChains(xs[0].t, ys[0].t, zs[0].t);
      CompareFieldsChain(xs[1..], ys[1..], zs[1..]);
    }
  }

  // ---------------------------------------------------------------- what the table keeps

  /** Every record and list in a type has its number. */
  ghost predicate Interned(v: Sm, t: Typ) {
    match t
    case TFun(a, b) => Interned(v, a) && Interned(v, b)
    case TRecord(xts) => Norm(t) in v.normal && forall i {:trigger xts[i]} :: 0 <= i < |xts| ==> Interned(v, xts[i].t)
    case TOption(a) => Interned(v, a)
    case TList(a) => Norm(a) in v.lists && Interned(v, a)
    case _ => true
  }

  /** The number of a type that has one, by the table alone. */
  function Canon(v: Sm, t: Typ): CTyp {
    match t
    case TFun(a, b) => CFun(Canon(v, a), Canon(v, b))
    case TRecord(_) => CRecord(if Norm(t) in v.normal then v.normal[Norm(t)] else 0)
    case TDatatype(n) => CDatatype(n)
    case TFfi(m, x) => CFfi(m, x)
    case TOption(a) => COption(Canon(v, a))
    case TList(a) => CList(Canon(v, a), if Norm(a) in v.lists then v.lists[Norm(a)] else 0)
    case TSource => CFfi("Basis", "source")
    case TSignal(_) => CFfi("Basis", "bogus")
  }

  ghost predicate Extends(v: Sm, w: Sm) {
    && v.count <= w.count
    && (forall k {:trigger k in v.normal} {:trigger w.normal[k]} ::
      k in v.normal ==> k in w.normal && w.normal[k] == v.normal[k])
    && (forall k {:trigger k in v.lists} {:trigger w.lists[k]} ::
      k in v.lists ==> k in w.lists && w.lists[k] == v.lists[k])
  }

  /** The largest struct that a type mentions, other than through a datatype. */
  predicate Mentions(ct: CTyp, below: nat) {
    match ct
    case CFun(a, b) => Mentions(a, below) && Mentions(b, below)
    case CRecord(i) => i < below
    case COption(a) => Mentions(a, below)
    case CList(a, i) => i < below && Mentions(a, below)
    case _ => true
  }

  /** A struct mentions earlier structs only; a list cell also itself, in its link. */
  ghost predicate DeclOk(d: Decl) {
    && d.index > 0
    && (|| (forall i {:trigger d.fields[i]} :: 0 <= i < |d.fields| ==> Mentions(d.fields[i].t, d.index))
        || exists ct {:trigger Mentions(ct, d.index)} ::
             Mentions(ct, d.index) && d.fields == [CField("1", ct), CField("2", CList(ct, d.index))])
  }

  ghost predicate Valid(v: Sm) {
    && v.count > 0 && TRecord([]) in v.normal && v.normal[TRecord([])] == 0
    && (forall k {:trigger KeyOk(v, k)} :: k in v.normal ==> KeyOk(v, k))
    && (forall k, l {:trigger Apart(v, k, l)} :: Apart(v, k, l))
    && (forall t {:trigger ListOk(v, t)} :: t in v.lists ==> ListOk(v, t))
    && (forall i: nat {:trigger DeclAt(v, i)} :: DeclAt(v, i))
  }

  ghost predicate KeyOk(v: Sm, k: Typ) {
    k in v.normal && v.normal[k] < v.count && k.TRecord? && Norm(k) == k && FieldsInterned(v, k)
  }

  ghost predicate Apart(v: Sm, k: Typ, l: Typ) {
    k in v.normal && l in v.normal && v.normal[k] == v.normal[l] ==> k == l
  }

  ghost predicate DeclAt(v: Sm, i: nat) {
    i < |v.decls| ==> v.decls[i].index == v.count - 1 - i && DeclOk(v.decls[i])
  }

  ghost predicate FieldsInterned(v: Sm, k: Typ) {
    k.TRecord? && forall i {:trigger k.fields[i]} :: 0 <= i < |k.fields| ==> Interned(v, k.fields[i].t)
  }

  /** A list has the number of its cells' record, and that is not the empty record's. */
  ghost predicate ListOk(v: Sm, t: Typ) {
    && t in v.lists && 0 < v.lists[t] < v.count && Norm(t) == t
    && TRecord(CellFields(t)) in v.normal && v.normal[TRecord(CellFields(t))] == v.lists[t]
  }

  lemma {:induction false} StillInterned(v: Sm, w: Sm, t: Typ)
    requires Extends(v, w) && Interned(v, t)
    ensures Interned(w, t) && Canon(w, t) == Canon(v, t)
  {
    match t
    case TFun(a, b) => StillInterned(v, w, a); StillInterned(v, w, b);
    case TRecord(xts) =>
      assert Norm(t) in v.normal;
      forall i {:trigger xts[i]} | 0 <= i < |xts| ensures Interned(w, xts[i].t) {
        StillInterned(v, w, xts[i].t);
      }
    case TOption(a) => StillInterned(v, w, a);
    case TList(a) =>
      assert Norm(a) in v.lists;
      StillInterned(v, w, a);
    case _ =>
  }

  lemma {:induction false} MentionsMore(ct: CTyp, below: nat, more: nat)
    requires Mentions(ct, below) && below <= more
    ensures Mentions(ct, more)
  {
    match ct
    case CFun(a, b) => MentionsMore(a, below, more); MentionsMore(b, below, more);
    case COption(a) => MentionsMore(a, below, more);
    case CList(a, _) => MentionsMore(a, below, more);
    case _ =>
  }

  lemma ExtendsTrans(u: Sm, v: Sm, w: Sm)
    requires Extends(u, v) && Extends(v, w)
    ensures Extends(u, w)
  {
    forall k | k in u.normal ensures k in w.normal && w.normal[k] == u.normal[k] {
      assert k in v.normal;
    }
    forall k | k in u.lists ensures k in w.lists && w.lists[k] == u.lists[k] {
      assert k in v.lists;
    }
  }

  lemma {:induction false} NormIdempotent(t: Typ)
    ensures Norm(Norm(t)) == Norm(t)
  {
    match t
    case TFun(a, b) => NormIdempotent(a); NormIdempotent(b);
    case TRecord(xts) =>
      var ns := NormFields(xts);
      forall i | 0 <= i < |xts| ensures NormFields(ns)[i] == ns[i] {
        NormIdempotent(xts[i].t);
      }
      assert NormFields(ns) == ns;
      NormSort(ns);
      SortSorted(ns);
      SortOfSorted(Sort(ns));
    case TOption(a) => NormIdempotent(a);
    case TList(a) => NormIdempotent(a);
    case TSignal(a) => NormIdempotent(a);
    case _ =>
  }

  lemma {:induction false} InsertMembers(f: Field, s: seq<Field>, g: Field)
    ensures g in Insert(f, s) <==> g == f || g in s
  {
    if s != [] && Less(s[0].name, f.name) {
      InsertMembers(f, s[1..], g);
      assert g in s <==> g == s[0] || g in s[1..];
    }
  }

  lemma {:induction false} SortMembers(s: seq<Field>, g: Field)
    ensures g in Sort(s) <==> g in s
  {
    if s != [] {
      SortMembers(s[1..], g);
      InsertMembers(s[0], Sort(s[1..]), g);
      assert g in s <==> g == s[0] || g in s[1..];
    }
  }

  lemma {:induction false} InternedNorm(v: Sm, t: Typ)
    requires Interned(v, t)
    ensures Interned(v, Norm(t))
    decreases t
  {
    match t
    case TFun(a, b) => InternedNorm(v, a); InternedNorm(v, b);
    case TRecord(xts) =>
      NormIdempotent(t);
      FieldsNorm(v, xts);
    case TOption(a) => InternedNorm(v, a);
    case TList(a) => NormIdempotent(a); InternedNorm(v, a);
    case _ =>
  }

  lemma {:induction false} FieldsNorm(v: Sm, xts: seq<Field>)
    requires forall i {:trigger xts[i]} :: 0 <= i < |xts| ==> Interned(v, xts[i].t)
    ensures FieldsInterned(v, Norm(TRecord(xts)))
    decreases xts
  {
    var ns := NormFields(xts);
    var ss := Sort(ns);
    forall i {:trigger ss[i]} | 0 <= i < |ss| ensures Interned(v, ss[i].t) {
      SortMembers(ns, ss[i]);
      var j :| 0 <= j < |ns| && ns[j] == ss[i];
      InternedNorm(v, xts[j].t);
    }
  }

  lemma CellNorm(t: Typ)
    ensures Norm(TRecord(CellFields(t))) == TRecord(CellFields(Norm(t)))
  {
    var xts := CellFields(t);
    var ns := NormFields(xts);
    assert ns == CellFields(Norm(t));
    assert Less("1", "2");
    LessAsymmetric("1", "2");
    assert Sorted(ns[1..]);
    assert Sorted(ns);
    SortOfSorted(ns);
  }

  /** What translating does to the table: it grows, and its new declarations come before the others. */
  ghost predicate Grows(v: Sm, w: Sm) {
    && Valid(w) && Extends(v, w)
    && |w.decls| - |v.decls| == w.count - v.count && w.decls[w.count - v.count..] == v.decls
  }

  // ---------------------------------------------------------------- finding a record

  lemma FindKeeps(v: Sm, xts: seq<Field>, cxts: seq<CField>)
    requires Valid(v) && forall i {:trigger xts[i]} :: 0 <= i < |xts| ==> Interned(v, xts[i].t)
    requires forall i {:trigger cxts[i]} :: 0 <= i < |cxts| ==> Mentions(cxts[i].t, v.count)
    ensures
      var (w, i) := Find(v, xts, cxts);
      var key := Norm(TRecord(xts));
      Grows(v, w) && key in w.normal && w.normal[key] == i < w.count
  {
    var (w, i) := Find(v, xts, cxts);
    var key := Norm(TRecord(xts));
    NormIdempotent(TRecord(xts));
    if key in v.normal {
      assert KeyOk(v, key);
    } else {
      FieldsNorm(v, xts);
      StillFields(v, w, key);
      assert DeclOk(w.decls[0]);
      NewKey(v, w, key);
    }
  }

  /** A new number keeps what the table keeps, when its key, its list and its declaration do. */
  lemma NewKey(v: Sm, w: Sm, key: Typ)
    requires Valid(v) && key !in v.normal && w.normal == v.normal[key := v.count] && w.count == v.count + 1
    requires |w.decls| == |v.decls| + 1 && w.decls[1..] == v.decls && w.decls[0].index == v.count && DeclOk(w.decls[0])
    requires Extends(v, w) && KeyOk(w, key)
    requires forall t {:trigger ListOk(w, t)} :: t in w.lists ==> t in v.lists || ListOk(w, t)
    ensures Grows(v, w)
  {
    forall k | k in w.normal ensures KeyOk(w, k) {
      if k != key {
        assert KeyOk(v, k);
        StillFields(v, w, k);
      }
    }
    forall k, l ensures Apart(w, k, l) {
      assert Apart(v, k, l);
      assert k in v.normal ==> KeyOk(v, k);
      assert l in v.normal ==> KeyOk(v, l);
    }
    forall t | t in w.lists ensures ListOk(w, t) {
      assert t in v.lists ==> ListOk(v, t);
    }
    forall i: nat ensures DeclAt(w, i) {
      assert i > 0 ==> DeclAt(v, i - 1);
      assert 0 < i < |w.decls| ==> w.decls[i] == w.decls[1..][i - 1];
    }
  }

  lemma StillFields(v: Sm, w: Sm, k: Typ)
    requires Extends(v, w) && FieldsInterned(v, k)
    ensures FieldsInterned(w, k)
  {
    forall i {:trigger k.fields[i]} | 0 <= i < |k.fields| ensures Interned(w, k.fields[i].t) {
      StillInterned(v, w, k.fields[i].t);
    }
  }

  /** A list that has no number yet: its cells' record has none either, so that none is overwritten. */
  lemma NoOverwrite(v: Sm, t: Typ)
    requires Valid(v) && Norm(t) !in v.lists
    ensures Norm(TRecord(CellFields(t))) !in v.normal
  {
    CellNorm(t);
    NormIdempotent(t);
    var key := TRecord(CellFields(Norm(t)));
    assert key in v.normal ==> KeyOk(v, key);
    assert FieldsInterned(v, key) ==> Interned(v, key.fields[1].t);
  }

  lemma FindListKeeps(v: Sm, t: Typ, ct: CTyp)
    requires Valid(v) && Interned(v, t) && Mentions(ct, v.count)
    ensures
      var (w, i) := FindList(v, t, ct);
      Grows(v, w) && Norm(t) in w.lists && w.lists[Norm(t)] == i < w.count
  {
    var (w, i) := FindList(v, t, ct);
    if Norm(t) in v.lists {
      assert ListOk(v, Norm(t));
    } else {
      var key := TRecord(CellFields(Norm(t)));
      NoOverwrite(v, t);
      CellNorm(t);
      CellNorm(Norm(t));
      NormIdempotent(t);
      assert Extends(v, w);
      CellInterned(v, w, t);
      assert w.decls[0].fields == [CField("1", ct), CField("2", CList(ct, w.decls[0].index))]
        && Mentions(ct, w.decls[0].index);
      NewKey(v, w, key);
    }
  }

  lemma CellInterned(v: Sm, w: Sm, t: Typ)
    requires Interned(v, t) && Extends(v, w) && Norm(t) in w.lists
    ensures FieldsInterned(w, TRecord(CellFields(Norm(t))))
  {
    StillInterned(v, w, t);
    InternedNorm(w, t);
    NormIdempotent(t);
  }

  // ---------------------------------------------------------------- translating types

  lemma GrowsTrans(u: Sm, v: Sm, w: Sm)
    requires Grows(u, v) && Grows(v, w)
    ensures Grows(u, w)
  {
    ExtendsTrans(u, v, w);
    assert w.decls[w.count - u.count..] == w.decls[w.count - v.count..][v.count - u.count..];
  }

  ghost predicate FieldsCanon(v: Sm, xts: seq<Field>, cxts: seq<CField>) {
    |cxts| == |xts| && forall i {:trigger cxts[i]} {:trigger xts[i]} :: 0 <= i < |xts| ==>
      Interned(v, xts[i].t) && cxts[i] == CField(xts[i].name, Canon(v, xts[i].t)) && Mentions(cxts[i].t, v.count)
  }

  /** Translating a type numbers every record and list in it, and what comes of it is what the table says. */
  lemma {:induction false} CifyKeeps(env: Env, open: set<nat>, t: Typ, v: Sm)
    requires Valid(v)
    ensures
      var (ct, w) := Cify(env, open, t, v);
      Grows(v, w) && Interned(w, t) && ct == Canon(w, t) && Mentions(ct, w.count)
    decreases |env.Keys - open|, TypSize(t)
  {
    match t
    case TFun(a, b) =>
      var (ca, v1) := Cify(env, open, a, v);
      var (cb, v2) := Cify(env, open, b, v1);
      CifyKeeps(env, open, a, v);
      CifyKeeps(env, open, b, v1);
      StillInterned(v1, v2, a);
      MentionsMore(ca, v1.count, v2.count);
      GrowsTrans(v, v1, v2);
    case TRecord(xts) => CifyRecordKeeps(env, open, xts, v);
    case TDatatype(n) =>
      if n !in open && n in env {
        OpenFewer(env.Keys, open, n);
        CifyAllKeeps(env, open + {n}, env[n], v);
      }
    case TOption(a) => CifyKeeps(env, open, a, v);
    case TList(a) =>
      var (ca, v1) := Cify(env, open, a, v);
      CifyKeeps(env, open, a, v);
      FindListKeeps(v1, a, ca);
      var (v2, i) := FindList(v1, a, ca);
      StillInterned(v1, v2, a);
      MentionsMore(ca, v1.count, v2.count);
      GrowsTrans(v, v1, v2);
    case _ =>
  }

  lemma {:induction false} CifyRecordKeeps(env: Env, open: set<nat>, xts: seq<Field>, v: Sm)
    requires Valid(v)
    ensures
      var t := TRecord(xts);
      var (ct, w) := Cify(env, open, t, v);
      Grows(v, w) && Interned(w, t) && ct == Canon(w, t) && Mentions(ct, w.count)
    decreases |env.Keys - open|, FieldsSize(xts), 1
  {
    SortSize(xts);
    var ss := Sort(xts);
    var (cxts, v1) := CifyFields(env, open, ss, v);
    CifyFieldsKeep(env, open, ss, v);
    FindKeeps(v1, ss, cxts);
    var (v2, i) := Find(v1, ss, cxts);
    NormOfSorted(xts);
    GrowsTrans(v, v1, v2);
    forall j {:trigger xts[j]} | 0 <= j < |xts| ensures Interned(v2, xts[j].t) {
      SortMembers(xts, xts[j]);
      var k :| 0 <= k < |ss| && ss[k] == xts[j];
      StillInterned(v1, v2, ss[k].t);
    }
  }

  lemma {:induction false} CifyFieldsKeep(env: Env, open: set<nat>, xts: seq<Field>, v: Sm)
    requires Valid(v)
    ensures
      var (cxts, w) := CifyFields(env, open, xts, v);
      Grows(v, w) && FieldsCanon(w, xts, cxts)
    decreases |env.Keys - open|, FieldsSize(xts), 0
  {
    if xts != [] {
      var (ct, v1) := Cify(env, open, xts[0].t, v);
      var (rest, v2) := CifyFields(env, open, xts[1..], v1);
      CifyKeeps(env, open, xts[0].t, v);
      CifyFieldsKeep(env, open, xts[1..], v1);
      GrowsTrans(v, v1, v2);
      StillInterned(v1, v2, xts[0].t);
      MentionsMore(ct, v1.count, v2.count);
      MoreFields(v2, xts, ct, rest);
    }
  }

  /** The fields translated, one more in front. */
  lemma MoreFields(w: Sm, xts: seq<Field>, ct: CTyp, rest: seq<CField>)
    requires xts != [] && Interned(w, xts[0].t) && ct == Canon(w, xts[0].t) && Mentions(ct, w.count)
    requires FieldsCanon(w, xts[1..], rest)
    ensures FieldsCanon(w, xts, [CField(xts[0].name, ct)] + rest)
  {
    var cxts := [CField(xts[0].name, ct)] + rest;
    forall i {:trigger cxts[i]} {:trigger xts[i]} | 0 <= i < |xts|
      ensures Interned(w, xts[i].t) && cxts[i] == CField(xts[i].name, Canon(w, xts[i].t))
      ensures Mentions(cxts[i].t, w.count)
    {
      if i > 0 {
        assert cxts[i] == rest[i - 1] && xts[i] == xts[1..][i - 1];
      }
    }
  }

  lemma {:induction false} CifyAllKeeps(env: Env, open: set<nat>, ts: seq<Typ>, v: Sm)
    requires Valid(v)
    ensures Grows(v, CifyAll(env, open, ts, v))
    decreases |env.Keys - open|, TypesSize(ts)
  {
    if ts != [] {
      var v1 := Cify(env, open, ts[0], v).1;
      CifyKeeps(env, open, ts[0], v);
      CifyAllKeeps(env, open, ts[1..], v1);
      GrowsTrans(v, v1, CifyAll(env, open, ts, v));
    }
  }

  /** Two record types have the same number exactly when they are the same type, up to the order of fields. */
  lemma SameNumber(v: Sm, t: Typ, u: Typ)
    requires Valid(v) && t.TRecord? && u.TRecord? && Interned(v, t) && Interned(v, u)
    ensures Canon(v, t) == Canon(v, u) <==> Compare(t, u) == EQUAL
  {
    CompareEqual(t, u);
    assert Apart(v, Norm(t), Norm(u));
  }

  // ---------------------------------------------------------------- the order of declarations

  /** What a declaration asks of the table: to translate a type, or to number the record of some fields
      after translating them, as a record term and a query do. */
  datatype Request = OfType(t: Typ) | OfRecord(xts: seq<Field>)

  function Serve(env: Env, r: Request, v: Sm): Sm {
    match r
    case OfType(t) => Cify(env, {}, t, v).1
    case OfRecord(xts) =>
      var (cxts, v1) := CifyFields(env, {}, xts, v);
      Find(v1, xts, cxts).0
  }

  function ServeAll(env: Env, rs: seq<Request>, v: Sm): Sm
    decreases |rs|
  {
    if rs == [] then v else ServeAll(env, rs[1..], Serve(env, rs[0], v))
  }

  lemma ServeKeeps(env: Env, r: Request, v: Sm)
    requires Valid(v)
    ensures Grows(v, Serve(env, r, v))
  {
    match r
    case OfType(t) => CifyKeeps(env, {}, t, v);
    case OfRecord(xts) =>
      var (cxts, v1) := CifyFields(env, {}, xts, v);
      CifyFieldsKeep(env, {}, xts, v);
      FindKeeps(v1, xts, cxts);
      GrowsTrans(v, v1, Find(v1, xts, cxts).0);
  }

  lemma {:induction false} ServeAllKeeps(env: Env, rs: seq<Request>, v: Sm)
    requires Valid(v)
    ensures Grows(v, ServeAll(env, rs, v))
    decreases |rs|
  {
    if rs != [] {
      ServeKeeps(env, rs[0], v);
      ServeAllKeeps(env, rs[1..], Serve(env, rs[0], v));
      GrowsTrans(v, Serve(env, rs[0], v), ServeAll(env, rs, v));
    }
  }

  /** A declaration of the source: what it asks for, and what it becomes. */
  datatype Source = Source(requests: seq<Request>, kind: Kind)

  datatype Kind = Nothing | Datatypes(names: seq<nat>) | Plain(id: nat)

  datatype Target = Struct(d: Decl) | Forward(name: nat) | DatatypeDecl(names: seq<nat>) | PlainDecl(id: nat)

  function Structs(decls: seq<Decl>): (r: seq<Target>)
    ensures |r| == |decls|
  {
    seq(|decls|, i requires 0 <= i < |decls| => Struct(decls[i]))
  }

  function Forwards(names: seq<nat>): (r: seq<Target>)
    ensures |r| == |names|
  {
    seq(|names|, i requires 0 <= i < |names| => Forward(names[i]))
  }

  /** One turn of `cjrize`'s fold: first what goes at the front of the program, newest first, then the rest. */
  function Turn(env: Env, s: Source, front: seq<Target>, rest: seq<Target>, v: Sm): (seq<Target>, seq<Target>, Sm) {
    var w := ServeAll(env, s.requests, v);
    var front1 := if s.kind.Datatypes? then Forwards(s.kind.names) + front else front;
    var front2 := Structs(w.decls) + front1;
    match s.kind
    case Nothing => (front2, rest, w.(decls := []))
    case Datatypes(names) => ([DatatypeDecl(names)] + front2, rest, w.(decls := []))
    case Plain(id) => (front2, [PlainDecl(id)] + rest, w.(decls := []))
  }

  function Fold(env: Env, ds: seq<Source>, front: seq<Target>, rest: seq<Target>, v: Sm): (seq<Target>, seq<Target>, Sm)
    decreases |ds|
  {
    if ds == [] then (front, rest, v)
    else
      var (front1, rest1, v1) := Turn(env, ds[0], front, rest, v);
      Fold(env, ds[1..], front1, rest1, v1)
  }

  function Reverse<T>(s: seq<T>): (r: seq<T>)
    ensures |r| == |s| && forall i :: 0 <= i < |s| ==> r[i] == s[|s| - 1 - i]
  {
    seq(|s|, i requires 0 <= i < |s| => s[|s| - 1 - i])
  }

  /** `cjrize`, as far as the order of declarations goes. */
  function Cjrize(env: Env, ds: seq<Source>): seq<Target> {
    var (front, rest, _) := Fold(env, ds, [], [], EMPTY);
    Reverse(front) + Reverse(rest)
  }

  /** The structs among some declarations. */
  ghost function StructsIn(ts: seq<Target>): seq<Decl> {
    if ts == [] then [] else StructIn(ts[0]) + StructsIn(ts[1..])
  }

  ghost function StructIn(t: Target): seq<Decl> {
    if t.Struct? then [t.d] else []
  }

  lemma {:induction false} StructsInConcat(a: seq<Target>, b: seq<Target>)
    ensures StructsIn(a + b) == StructsIn(a) + StructsIn(b)
  {
    if a == [] {
      assert a + b == b;
    } else {
      assert (a + b)[1..] == a[1..] + b;
      StructsInConcat(a[1..], b);
    }
  }

  lemma {:induction false} StructsInStructs(decls: seq<Decl>)
    ensures StructsIn(Structs(decls)) == decls
  {
    if decls != [] {
      assert Structs(decls)[1..] == Structs(decls[1..]);
      StructsInStructs(decls[1..]);
    }
  }

  lemma {:induction false} StructsInNone(ts: seq<Target>)
    requires forall i :: 0 <= i < |ts| ==> !ts[i].Struct?
    ensures StructsIn(ts) == []
  {
    if ts != [] {
      StructsInNone(ts[1..]);
    }
  }

  lemma {:induction false} StructsInReverse(ts: seq<Target>)
    ensures StructsIn(Reverse(ts)) == Reverse(StructsIn(ts))
  {
    if ts != [] {
      assert Reverse(ts) == Reverse(ts[1..]) + [ts[0]];
      StructsInConcat(Reverse(ts[1..]), [ts[0]]);
      StructsInReverse(ts[1..]);
      assert [ts[0]][1..] == [];
    }
  }

  /** So far: every number from 1 up has one struct at the front, the newest first. */
  ghost predicate Numbered(front: seq<Target>, rest: seq<Target>, v: Sm) {
    && Valid(v) && v.decls == [] && StructsIn(rest) == []
    && var ds := StructsIn(front);
       |ds| == v.count - 1 && forall i: nat {:trigger DeclAt(v.(decls := ds), i)} :: DeclAt(v.(decls := ds), i)
  }

  lemma FrontStructs(own: seq<Target>, decls: seq<Decl>, forwards: seq<Target>, front: seq<Target>)
    requires StructsIn(own) == [] && StructsIn(forwards) == []
    ensures StructsIn(own + (Structs(decls) + (forwards + front))) == decls + StructsIn(front)
  {
    StructsInStructs(decls);
    StructsInConcat(forwards, front);
    StructsInConcat(Structs(decls), forwards + front);
    StructsInConcat(own, Structs(decls) + (forwards + front));
  }

  lemma TurnStructs(env: Env, s: Source, front: seq<Target>, rest: seq<Target>, v: Sm)
    ensures
      var (front1, rest1, _) := Turn(env, s, front, rest, v);
      StructsIn(front1) == ServeAll(env, s.requests, v).decls + StructsIn(front) && StructsIn(rest1) == StructsIn(rest)
  {
    var decls := ServeAll(env, s.requests, v).decls;
    match s.kind
    case Nothing =>
      FrontStructs([], decls, [], front);
      Nils(Structs(decls), front);
    case Datatypes(names) =>
      StructsInNone(Forwards(names));
      StructsInNone([DatatypeDecl(names)]);
      FrontStructs([DatatypeDecl(names)], decls, Forwards(names), front);
    case Plain(id) =>
      FrontStructs([], decls, [], front);
      Nils(Structs(decls), front);
      StructsInNone([PlainDecl(id)]);
      StructsInConcat([PlainDecl(id)], rest);
  }

  lemma Nils<T>(a: seq<T>, b: seq<T>)
    ensures [] + (a + ([] + b)) == a + b
  {
    assert [] + b == b;
  }

  lemma TurnKeeps(env: Env, s: Source, front: seq<Target>, rest: seq<Target>, v: Sm)
    requires Numbered(front, rest, v)
    ensures var (front1, rest1, v1) := Turn(env, s, front, rest, v); Numbered(front1, rest1, v1)
  {
    TurnStructs(env, s, front, rest, v);
    ServeAllKeeps(env, s.requests, v);
    var w := ServeAll(env, s.requests, v);
    var (front1, rest1, v1) := Turn(env, s, front, rest, v);
    ClearKeeps(w);
    var before, after := StructsIn(front), StructsIn(front1);
    forall i: nat ensures DeclAt(v1.(decls := after), i) {
      assert DeclAt(w, i);
      assert i >= |w.decls| ==> DeclAt(v.(decls := before), i - |w.decls|);
    }
  }

  lemma ClearKeeps(v: Sm)
    requires Valid(v)
    ensures Valid(v.(decls := []))
  {
    var w := v.(decls := []);
    assert Extends(v, w);
    forall k | k in w.normal ensures KeyOk(w, k) {
      assert KeyOk(v, k);
      StillFields(v, w, k);
    }
    forall k, l ensures Apart(w, k, l) {
      assert Apart(v, k, l);
    }
    forall t | t in w.lists ensures ListOk(w, t) {
      assert ListOk(v, t);
    }
  }

  lemma {:induction false} FoldKeeps(env: Env, ds: seq<Source>, front: seq<Target>, rest: seq<Target>, v: Sm)
    requires Numbered(front, rest, v)
    ensures var (front1, rest1, v1) := Fold(env, ds, front, rest, v); Numbered(front1, rest1, v1)
    decreases |ds|
  {
    if ds != [] {
      TurnKeeps(env, ds[0], front, rest, v);
      var (front1, rest1, v1) := Turn(env, ds[0], front, rest, v);
      FoldKeeps(env, ds[1..], front1, rest1, v1);
    }
  }

  lemma EmptyNumbered()
    ensures Numbered([], [], EMPTY)
  {
    assert NormFields([]) == [];
  }

  /** The table after a whole program. */
  function FinalTable(env: Env, ds: seq<Source>): Sm {
    Fold(env, ds, [], [], EMPTY).2
  }

  /** Each number that the table gives out has its struct. */
  ghost predicate HasStruct(structs: seq<Decl>, n: nat) {
    n == 0 || (n - 1 < |structs| && structs[n - 1].index == n)
  }

  /** The structs of a program are as many as the numbers given out, numbered 1, 2, 3 and so on in the order of
      their declarations; every record and list in the table has its struct, but for the empty record; and a
      struct mentions only those that come before, but for the link of a list cell. */
  lemma StructsInOrder(env: Env, ds: seq<Source>)
    ensures |StructsIn(Cjrize(env, ds))| == FinalTable(env, ds).count - 1
    ensures
      var structs := StructsIn(Cjrize(env, ds));
      forall i {:trigger structs[i]} :: 0 <= i < |structs| ==> structs[i].index == i + 1 && DeclOk(structs[i])
    ensures
      var v := FinalTable(env, ds);
      && (forall k :: k in v.normal ==> HasStruct(StructsIn(Cjrize(env, ds)), v.normal[k]))
      && (forall t :: t in v.lists ==> v.lists[t] > 0 && HasStruct(StructsIn(Cjrize(env, ds)), v.lists[t]))
  {
    EmptyNumbered();
    FoldKeeps(env, ds, [], [], EMPTY);
    var (front, rest, v) := Fold(env, ds, [], [], EMPTY);
    StructsInConcat(Reverse(front), Reverse(rest));
    StructsInReverse(front);
    StructsInReverse(rest);
    var structs, newest := StructsIn(Cjrize(env, ds)), StructsIn(front);
    assert structs == Reverse(newest);
    forall i {:trigger structs[i]} | 0 <= i < |structs| ensures structs[i].index == i + 1 && DeclOk(structs[i]) {
      assert DeclAt(v.(decls := newest), |newest| - 1 - i);
    }
    forall k | k in v.normal ensures HasStruct(structs, v.normal[k]) {
      assert KeyOk(v, k);
    }
    forall t | t in v.lists ensures v.lists[t] > 0 && HasStruct(structs, v.lists[t]) {
      assert ListOk(v, t);
    }
  }
}
