/** What the structs of a program look like inside, and where they and the other declarations stand. */
module StructFields {
  import opened StructTable

  // ---------------------------------------------------------------- right declarations

  /** The struct is that of a record type, with its fields in this order and their types translated. */
  ghost predicate Declares(v: Sm, xts: seq<Field>, d: Decl) {
    && Norm(TRecord(xts)) in v.normal && v.normal[Norm(TRecord(xts))] == d.index
    && FieldsCanon(v, xts, d.fields)
  }

  /** The cells of a list: the element, and the list itself. */
  predicate IsCell(v: Sm, t: Typ, d: Decl) {
    d.fields == [CField("1", Canon(v, t)), CField("2", CList(Canon(v, t), d.index))]
  }

  ghost predicate ListRight(v: Sm, t: Typ, d: Decl) {
    t in v.lists && v.lists[t] == d.index ==> IsCell(v, t, d)
  }

  ghost predicate DeclRight(v: Sm, d: Decl) {
    && (exists xts :: Declares(v, xts, d))
    && (forall t :: ListRight(v, t, d))
  }

  ghost predicate Right(v: Sm, ds: seq<Decl>) {
    forall i :: 0 <= i < |ds| ==> DeclRight(v, ds[i])
  }

  lemma {:induction false} CanonNorm(v: Sm, t: Typ)
    ensures Canon(v, Norm(t)) == Canon(v, t)
  {
    NormIdempotent(t);
    match t
    case TFun(a, b) => CanonNorm(v, a); CanonNorm(v, b);
    case TOption(a) => CanonNorm(v, a);
    case TList(a) => NormIdempotent(a); CanonNorm(v, a);
    case _ =>
  }

  /** A type that can be told apart from others in the target: outside of records, no signal, which is an
      error, and no foreign type of the names that sources and signals have there. */
  predicate Distinguished(t: Typ) {
    match t
    case TFun(a, b) => Distinguished(a) && Distinguished(b)
    case TFfi(m, x) => m != "Basis" || (x != "source" && x != "bogus")
    case TOption(a) => Distinguished(a)
    case TList(a) => Distinguished(a)
    case TSignal(_) => false
    case _ => true
  }

  lemma {:induction false} CanonInjective(v: Sm, t: Typ, u: Typ)
    requires Valid(v) && Interned(v, t) && Interned(v, u) && Distinguished(t) && Distinguished(u)
    requires Canon(v, t) == Canon(v, u)
    ensures Norm(t) == Norm(u)
    decreases t
  {
    match t
    case TFun(a, b) => CanonInjective(v, a, u.dom); CanonInjective(v, b, u.ran);
    case TOption(a) => CanonInjective(v, a, u.elem);
    case TList(a) => CanonInjective(v, a, u.elem);
    case TRecord(_) => assert Apart(v, Norm(t), Norm(u));
    case _ =>
  }

  /** Two types have the same translation exactly when they are the same type, up to the order of fields. */
  lemma SameTranslation(v: Sm, t: Typ, u: Typ)
    requires Valid(v) && Interned(v, t) && Interned(v, u) && Distinguished(t) && Distinguished(u)
    ensures Canon(v, t) == Canon(v, u) <==> Compare(t, u) == EQUAL
  {
    CompareEqual(t, u);
    CanonNorm(v, t);
    CanonNorm(v, u);
    if Canon(v, t) == Canon(v, u) {
      CanonInjective(v, t, u);
    }
  }

  lemma StillCanon(v: Sm, w: Sm, xts: seq<Field>, cxts: seq<CField>)
    requires Extends(v, w) && FieldsCanon(v, xts, cxts)
    ensures FieldsCanon(w, xts, cxts)
  {
    forall i {:trigger cxts[i]} {:trigger xts[i]} | 0 <= i < |xts|
      ensures Interned(w, xts[i].t) && cxts[i] == CField(xts[i].name, Canon(w, xts[i].t))
      ensures Mentions(cxts[i].t, w.count)
    {
      StillInterned(v, w, xts[i].t);
      MentionsMore(cxts[i].t, v.count, w.count);
    }
  }

  /** A right struct stays right as the table grows: a new list has a new number. */
  lemma StillRight(v: Sm, w: Sm, d: Decl)
    requires Valid(v) && Valid(w) && Extends(v, w) && DeclRight(v, d)
    ensures DeclRight(w, d)
  {
    var xts :| Declares(v, xts, d);
    StillCanon(v, w, xts, d.fields);
    assert Declares(w, xts, d);
    forall t ensures ListRight(w, t, d) {
      if t in w.lists && w.lists[t] == d.index {
        SameList(v, w, xts, t);
        assert ListRight(v, t, d) && ListOk(v, t) && Norm(t) == t;
        ListInterned(v, t);
        StillInterned(v, w, t);
      }
    }
  }

  lemma ListInterned(v: Sm, t: Typ)
    requires Valid(v) && t in v.lists
    ensures Interned(v, t)
  {
    assert ListOk(v, t);
    var key := TRecord(CellFields(t));
    assert KeyOk(v, key);
    assert key.fields[0].t == t;
  }

  /** A list with the number of a record that was there before was there before. */
  lemma SameList(v: Sm, w: Sm, xts: seq<Field>, t: Typ)
    requires Valid(v) && Valid(w) && Extends(v, w) && Norm(TRecord(xts)) in v.normal
    requires t in w.lists && w.lists[t] == v.normal[Norm(TRecord(xts))]
    ensures t in v.lists
  {
    var key := TRecord(CellFields(t));
    assert ListOk(w, t) && Apart(w, key, Norm(TRecord(xts)));
    assert KeyOk(v, key);
    assert key.fields[1].t == TList(t);
  }

  lemma AllStillRight(v: Sm, w: Sm, ds: seq<Decl>)
    requires Valid(v) && Valid(w) && Extends(v, w) && Right(v, ds)
    ensures Right(w, ds)
  {
    forall i | 0 <= i < |ds| ensures DeclRight(w, ds[i]) {
      StillRight(v, w, ds[i]);
    }
  }

  lemma OneMore(v: Sm, w: Sm, d: Decl)
    requires Valid(v) && Valid(w) && Extends(v, w) && Right(v, v.decls) && DeclRight(w, d)
    requires w.decls == [d] + v.decls
    ensures Right(w, w.decls)
  {
    AllStillRight(v, w, v.decls);
    forall i | 0 <= i < |w.decls| ensures DeclRight(w, w.decls[i]) {
      assert i > 0 ==> w.decls[i] == v.decls[i - 1];
    }
  }

  lemma FindRight(v: Sm, xts: seq<Field>, cxts: seq<CField>)
    requires Valid(v) && FieldsCanon(v, xts, cxts) && Right(v, v.decls)
    ensures Right(Find(v, xts, cxts).0, Find(v, xts, cxts).0.decls)
  {
    var (w, i) := Find(v, xts, cxts);
    FindKeeps(v, xts, cxts);
    if Norm(TRecord(xts)) !in v.normal {
      var d := Decl(v.count, cxts);
      StillCanon(v, w, xts, cxts);
      assert Declares(w, xts, d);
      forall t ensures ListRight(w, t, d) {
        assert t in v.lists ==> ListOk(v, t);
      }
      OneMore(v, w, d);
    }
  }

  lemma FindListRight(v: Sm, t: Typ)
    requires Valid(v) && Interned(v, t) && Mentions(Canon(v, t), v.count) && Right(v, v.decls)
    ensures Right(FindList(v, t, Canon(v, t)).0, FindList(v, t, Canon(v, t)).0.decls)
  {
    var ct := Canon(v, t);
    var (w, i) := FindList(v, t, ct);
    FindListKeeps(v, t, ct);
    if Norm(t) !in v.lists {
      var d := Decl(v.count, [CField("1", ct), CField("2", CList(ct, v.count))]);
      NewCell(v, w, t, d);
      OneMore(v, w, d);
    }
  }

  lemma NewCell(v: Sm, w: Sm, t: Typ, d: Decl)
    requires Valid(v) && Interned(v, t) && Mentions(Canon(v, t), v.count) && Norm(t) !in v.lists
    requires w == FindList(v, t, Canon(v, t)).0 && Extends(v, w)
    requires d == Decl(v.count, [CField("1", Canon(v, t)), CField("2", CList(Canon(v, t), v.count))])
    ensures DeclRight(w, d)
  {
    StillInterned(v, w, t);
    MentionsMore(Canon(v, t), v.count, w.count);
    CanonNorm(w, t);
    NormIdempotent(t);
    assert FieldsCanon(w, CellFields(t), d.fields);
    assert Declares(w, CellFields(t), d);
    forall u ensures ListRight(w, u, d) {
      assert u in v.lists ==> ListOk(v, u);
    }
  }

  // ---------------------------------------------------------------- translating types

  lemma {:induction false} CifyRight(env: Env, open: set<nat>, t: Typ, v: Sm)
    requires Valid(v) && Right(v, v.decls)
    ensures Right(Cify(env, open, t, v).1, Cify(env, open, t, v).1.decls)
    decreases |env.Keys - open|, TypSize(t)
  {
    match t
    case TFun(a, b) =>
      var (ca, v1) := Cify(env, open, a, v);
      CifyKeeps(env, open, a, v);
      CifyRight(env, open, a, v);
      CifyRight(env, open, b, v1);
    case TRecord(xts) =>
      SortSize(xts);
      var ss := Sort(xts);
      var (cxts, v1) := CifyFields(env, open, ss, v);
      CifyFieldsKeep(env, open, ss, v);
      CifyFieldsRight(env, open, ss, v);
      FindRight(v1, ss, cxts);
    case TDatatype(n) =>
      if n !in open && n in env {
        OpenFewer(env.Keys, open, n);
        CifyAllRight(env, open + {n}, env[n], v);
      }
    case TOption(a) => CifyRight(env, open, a, v);
    case TList(a) =>
      var (ca, v1) := Cify(env, open, a, v);
      CifyKeeps(env, open, a, v);
      CifyRight(env, open, a, v);
      FindListRight(v1, a);
    case _ =>
  }

  lemma {:induction false} CifyFieldsRight(env: Env, open: set<nat>, xts: seq<Field>, v: Sm)
    requires Valid(v) && Right(v, v.decls)
    ensures Right(CifyFields(env, open, xts, v).1, CifyFields(env, open, xts, v).1.decls)
    decreases |env.Keys - open|, FieldsSize(xts)
  {
    if xts != [] {
      var (ct, v1) := Cify(env, open, xts[0].t, v);
      CifyKeeps(env, open, xts[0].t, v);
      CifyRight(env, open, xts[0].t, v);
      CifyFieldsRight(env, open, xts[1..], v1);
    }
  }

  lemma {:induction false} CifyAllRight(env: Env, open: set<nat>, ts: seq<Typ>, v: Sm)
    requires Valid(v) && Right(v, v.decls)
    ensures Right(CifyAll(env, open, ts, v), CifyAll(env, open, ts, v).decls)
    decreases |env.Keys - open|, TypesSize(ts)
  {
    if ts != [] {
      CifyKeeps(env, open, ts[0], v);
      CifyRight(env, open, ts[0], v);
      CifyAllRight(env, open, ts[1..], Cify(env, open, ts[0], v).1);
    }
  }

  lemma ServeRight(env: Env, r: Request, v: Sm)
    requires Valid(v) && Right(v, v.decls)
    ensures Right(Serve(env, r, v), Serve(env, r, v).decls)
  {
    match r
    case OfType(t) => CifyRight(env, {}, t, v);
    case OfRecord(xts) =>
      var (cxts, v1) := CifyFields(env, {}, xts, v);
      CifyFieldsKeep(env, {}, xts, v);
      CifyFieldsRight(env, {}, xts, v);
      FindRight(v1, xts, cxts);
  }

  lemma {:induction false} ServeAllRight(env: Env, rs: seq<Request>, v: Sm)
    requires Valid(v) && Right(v, v.decls)
    ensures Right(ServeAll(env, rs, v), ServeAll(env, rs, v).decls)
    decreases |rs|
  {
    if rs != [] {
      ServeKeeps(env, rs[0], v);
      ServeRight(env, rs[0], v);
      ServeAllRight(env, rs[1..], Serve(env, rs[0], v));
    }
  }

  // ---------------------------------------------------------------- a whole program

  lemma TurnRight(env: Env, s: Source, front: seq<Target>, rest: seq<Target>, v: Sm)
    requires Numbered(front, rest, v) && Right(v, StructsIn(front))
    ensures Right(Turn(env, s, front, rest, v).2, StructsIn(Turn(env, s, front, rest, v).0))
  {
    var w, before := ServeAll(env, s.requests, v), StructsIn(front);
    ServeAllKeeps(env, s.requests, v);
    ServeAllRight(env, s.requests, v);
    AllStillRight(v, w, before);
    TurnStructs(env, s, front, rest, v);
    forall i | 0 <= i < |w.decls + before| ensures DeclRight(w, (w.decls + before)[i]) {
    }
    ClearKeeps(w);
    AllStillRight(w, w.(decls := []), w.decls + before);
  }

  lemma {:induction false} FoldRight(env: Env, ds: seq<Source>, front: seq<Target>, rest: seq<Target>, v: Sm)
    requires Numbered(front, rest, v) && Right(v, StructsIn(front))
    ensures Right(Fold(env, ds, front, rest, v).2, StructsIn(Fold(env, ds, front, rest, v).0))
    decreases |ds|
  {
    if ds != [] {
      TurnKeeps(env, ds[0], front, rest, v);
      TurnRight(env, ds[0], front, rest, v);
      var (front1, rest1, v1) := Turn(env, ds[0], front, rest, v);
      FoldRight(env, ds[1..], front1, rest1, v1);
    }
  }

  lemma StructsRight(env: Env, ds: seq<Source>)
    ensures Valid(FinalTable(env, ds)) && Right(FinalTable(env, ds), StructsIn(Cjrize(env, ds)))
  {
    EmptyNumbered();
    FoldKeeps(env, ds, [], [], EMPTY);
    FoldRight(env, ds, [], [], EMPTY);
    var (front, rest, v) := Fold(env, ds, [], [], EMPTY);
    StructsInConcat(Reverse(front), Reverse(rest));
    StructsInReverse(front);
    StructsInReverse(rest);
    assert StructsIn(Cjrize(env, ds)) == Reverse(StructsIn(front));
  }

  ghost predicate NamesInOrder(fs: seq<CField>) {
    forall i :: 0 < i < |fs| ==> !Less(fs[i].name, fs[i - 1].name)
  }

  lemma {:induction false} SortedNames(xts: seq<Field>)
    ensures Sorted(xts) <==> forall i :: 0 < i < |xts| ==> !Less(xts[i].name, xts[i - 1].name)
  {
    if xts != [] {
      SortedNames(xts[1..]);
      assert |xts| > 1 ==> xts[1..][0] == xts[1];
    }
  }

  ghost predicate Declared(v: Sm, structs: seq<Decl>, k: Typ) {
    && k in v.normal && 0 < v.normal[k] <= |structs| && k.TRecord?
    && var d := structs[v.normal[k] - 1];
       && d.index == v.normal[k]
       && (exists xts :: Norm(TRecord(xts)) == k && FieldsCanon(v, xts, d.fields))
       && (NamesInOrder(d.fields) <==> FieldsCanon(v, k.fields, d.fields))
  }

  /** Every record of the table other than the empty one is declared: the struct with its number has
      its fields with the types translated as the table says, in some order.  The order is that of the
      type exactly when the names of the struct are in order. */
  lemma RecordDeclared(env: Env, ds: seq<Source>, k: Typ)
    requires k in FinalTable(env, ds).normal && k != TRecord([])
    ensures Declared(FinalTable(env, ds), StructsIn(Cjrize(env, ds)), k)
  {
    StructsInOrder(env, ds);
    StructsRight(env, ds);
    DeclaredWhenRight(FinalTable(env, ds), StructsIn(Cjrize(env, ds)), k);
  }

  lemma DeclaredWhenRight(v: Sm, structs: seq<Decl>, k: Typ)
    requires Valid(v) && Right(v, structs) && k in v.normal && k != TRecord([]) && HasStruct(structs, v.normal[k])
    ensures Declared(v, structs, k)
  {
    assert KeyOk(v, k) && Apart(v, k, TRecord([]));
    var d := structs[v.normal[k] - 1];
    assert DeclRight(v, d);
    var xts :| Declares(v, xts, d);
    assert Apart(v, k, Norm(TRecord(xts)));
    InTypeOrder(v, xts, d);
  }

  lemma InTypeOrder(v: Sm, xts: seq<Field>, d: Decl)
    requires Valid(v) && Declares(v, xts, d)
    ensures NamesInOrder(d.fields) <==> FieldsCanon(v, Norm(TRecord(xts)).fields, d.fields)
  {
    var k := Norm(TRecord(xts));
    var ns := NormFields(xts);
    SortSorted(ns);
    SortedNames(k.fields);
    SortedNames(ns);
    if NamesInOrder(d.fields) {
      SortOfSorted(ns);
      assert KeyOk(v, k);
      forall i {:trigger d.fields[i]} {:trigger k.fields[i]} | 0 <= i < |xts|
        ensures Interned(v, k.fields[i].t) && d.fields[i] == CField(k.fields[i].name, Canon(v, k.fields[i].t))
      {
        CanonNorm(v, xts[i].t);
      }
    }
  }

  /** Every list of the table is declared: its struct is a cell of the element and the list itself. */
  lemma ListDeclared(env: Env, ds: seq<Source>, t: Typ)
    requires t in FinalTable(env, ds).lists
    ensures
      var v, structs := FinalTable(env, ds), StructsIn(Cjrize(env, ds));
      0 < v.lists[t] <= |structs| && structs[v.lists[t] - 1].index == v.lists[t]
        && IsCell(v, t, structs[v.lists[t] - 1])
  {
    StructsInOrder(env, ds);
    StructsRight(env, ds);
    var v, structs := FinalTable(env, ds), StructsIn(Cjrize(env, ds));
    assert ListOk(v, t) && HasStruct(structs, v.lists[t]);
    assert DeclRight(v, structs[v.lists[t] - 1]);
    assert ListRight(v, t, structs[v.lists[t] - 1]);
  }

  // ---------------------------------------------------------------- when the fields are in order

  ghost predicate InOrder(ds: seq<Decl>) {
    forall i :: 0 <= i < |ds| ==> NamesInOrder(ds[i].fields)
  }

  lemma InOrderConcat(a: seq<Decl>, b: seq<Decl>)
    ensures InOrder(a + b) <==> InOrder(a) && InOrder(b)
  {
    if InOrder(a + b) {
      forall i | 0 <= i < |a| ensures NamesInOrder(a[i].fields) {
        assert (a + b)[i] == a[i];
      }
      forall i | 0 <= i < |b| ensures NamesInOrder(b[i].fields) {
        assert (a + b)[|a| + i] == b[i];
      }
    }
  }

  lemma InOrderOne(d: Decl, ds: seq<Decl>)
    ensures InOrder([d] + ds) <==> NamesInOrder(d.fields) && InOrder(ds)
  {
    InOrderConcat([d], ds);
    assert [d][0] == d;
  }

  /** A record that is numbered for a term with its fields out of order, and has no number yet, is the
      one way for a struct to be declared out of order. */
  ghost predicate Tidy(env: Env, r: Request, v: Sm) {
    r.OfRecord? ==> Sorted(r.xts) || Norm(TRecord(r.xts)) in CifyFields(env, {}, r.xts, v).1.normal
  }

  ghost predicate AllTidy(env: Env, rs: seq<Request>, v: Sm)
    decreases |rs|
  {
    rs == [] || (Tidy(env, rs[0], v) && AllTidy(env, rs[1..], Serve(env, rs[0], v)))
  }

  ghost predicate TidyProgram(env: Env, ds: seq<Source>, v: Sm)
    decreases |ds|
  {
    ds == [] || (AllTidy(env, ds[0].requests, v)
                 && TidyProgram(env, ds[1..], ServeAll(env, ds[0].requests, v).(decls := [])))
  }

  lemma FindInOrder(v: Sm, xts: seq<Field>, cxts: seq<CField>)
    requires NamesInOrder(cxts)
    ensures InOrder(Find(v, xts, cxts).0.decls) <==> InOrder(v.decls)
  {
    InOrderOne(Decl(v.count, cxts), v.decls);
  }

  lemma SortedInOrder(xts: seq<Field>, cxts: seq<CField>)
    requires |cxts| == |xts| && forall i :: 0 <= i < |xts| ==> cxts[i].name == xts[i].name
    ensures NamesInOrder(cxts) <==> Sorted(xts)
  {
    SortedNames(xts);
  }

  lemma FindListInOrder(v: Sm, t: Typ, ct: CTyp)
    ensures InOrder(FindList(v, t, ct).0.decls) <==> InOrder(v.decls)
  {
    assert Less("1", "2");
    LessAsymmetric("1", "2");
    InOrderOne(Decl(v.count, [CField("1", ct), CField("2", CList(ct, v.count))]), v.decls);
  }

  lemma {:induction false} CifyInOrder(env: Env, open: set<nat>, t: Typ, v: Sm)
    ensures InOrder(Cify(env, open, t, v).1.decls) <==> InOrder(v.decls)
    decreases |env.Keys - open|, TypSize(t)
  {
    match t
    case TFun(a, b) =>
      CifyInOrder(env, open, a, v);
      CifyInOrder(env, open, b, Cify(env, open, a, v).1);
    case TRecord(xts) =>
      SortSize(xts);
      var (cxts, v1) := CifyFields(env, open, Sort(xts), v);
      CifyFieldsInOrder(env, open, Sort(xts), v);
      SortSorted(xts);
      SortedInOrder(Sort(xts), cxts);
      FindInOrder(v1, Sort(xts), cxts);
    case TDatatype(n) =>
      if n !in open && n in env {
        OpenFewer(env.Keys, open, n);
        CifyAllInOrder(env, open + {n}, env[n], v);
      }
    case TOption(a) => CifyInOrder(env, open, a, v);
    case TList(a) =>
      CifyInOrder(env, open, a, v);
      var (ca, v1) := Cify(env, open, a, v);
      FindListInOrder(v1, a, ca);
    case _ =>
  }

  /** The fields keep their names and their order. */
  lemma {:induction false} CifyFieldsInOrder(env: Env, open: set<nat>, xts: seq<Field>, v: Sm)
    ensures
      var (cxts, w) := CifyFields(env, open, xts, v);
      && (InOrder(w.decls) <==> InOrder(v.decls))
      && |cxts| == |xts| && forall i :: 0 <= i < |xts| ==> cxts[i].name == xts[i].name
    decreases |env.Keys - open|, FieldsSize(xts)
  {
    if xts != [] {
      CifyInOrder(env, open, xts[0].t, v);
      CifyFieldsInOrder(env, open, xts[1..], Cify(env, open, xts[0].t, v).1);
    }
  }

  lemma {:induction false} CifyAllInOrder(env: Env, open: set<nat>, ts: seq<Typ>, v: Sm)
    ensures InOrder(CifyAll(env, open, ts, v).decls) <==> InOrder(v.decls)
    decreases |env.Keys - open|, TypesSize(ts)
  {
    if ts != [] {
      CifyInOrder(env, open, ts[0], v);
      CifyAllInOrder(env, open, ts[1..], Cify(env, open, ts[0], v).1);
    }
  }

  lemma ServeInOrder(env: Env, r: Request, v: Sm)
    ensures InOrder(Serve(env, r, v).decls) <==> InOrder(v.decls) && Tidy(env, r, v)
  {
    match r
    case OfType(t) => CifyInOrder(env, {}, t, v);
    case OfRecord(xts) =>
      CifyFieldsInOrder(env, {}, xts, v);
      var (cxts, v1) := CifyFields(env, {}, xts, v);
      SortedInOrder(xts, cxts);
      InOrderOne(Decl(v1.count, cxts), v1.decls);
  }

  lemma {:induction false} ServeAllInOrder(env: Env, rs: seq<Request>, v: Sm)
    ensures InOrder(ServeAll(env, rs, v).decls) <==> InOrder(v.decls) && AllTidy(env, rs, v)
    decreases |rs|
  {
    if rs != [] {
      ServeInOrder(env, rs[0], v);
      ServeAllInOrder(env, rs[1..], Serve(env, rs[0], v));
    }
  }

  lemma {:induction false} FoldInOrder(env: Env, ds: seq<Source>, front: seq<Target>, rest: seq<Target>, v: Sm)
    requires v.decls == []
    ensures InOrder(StructsIn(Fold(env, ds, front, rest, v).0)) <==>
      InOrder(StructsIn(front)) && TidyProgram(env, ds, v)
    decreases |ds|
  {
    if ds != [] {
      var (front1, rest1, v1) := Turn(env, ds[0], front, rest, v);
      ServeAllInOrder(env, ds[0].requests, v);
      TurnStructs(env, ds[0], front, rest, v);
      InOrderConcat(ServeAll(env, ds[0].requests, v).decls, StructsIn(front));
      FoldInOrder(env, ds[1..], front1, rest1, v1);
    }
  }

  lemma InOrderReverse(ds: seq<Decl>)
    ensures InOrder(Reverse(ds)) <==> InOrder(ds)
  {
    forall i | 0 <= i < |ds| && !NamesInOrder(ds[i].fields) ensures !InOrder(Reverse(ds)) {
      assert Reverse(ds)[|ds| - 1 - i] == ds[i];
    }
  }

  /** All structs of a program have their fields in the order of their types exactly when no record
      gets its number from a term with the fields out of order. */
  lemma InOrderIffTidy(env: Env, ds: seq<Source>)
    ensures InOrder(StructsIn(Cjrize(env, ds))) <==> TidyProgram(env, ds, EMPTY)
  {
    EmptyNumbered();
    FoldKeeps(env, ds, [], [], EMPTY);
    FoldInOrder(env, ds, [], [], EMPTY);
    var (front, rest, v) := Fold(env, ds, [], [], EMPTY);
    StructsInConcat(Reverse(front), Reverse(rest));
    StructsInReverse(front);
    StructsInReverse(rest);
    assert StructsIn(Cjrize(env, ds)) == Reverse(StructsIn(front));
    InOrderReverse(StructsIn(front));
  }

  /** A program whose first record is a term `{B = .., A = ..}`. */
  lemma OutOfOrder()
    ensures var xts := [Field("B", TSource), Field("A", TSource)];
            !InOrder(StructsIn(Cjrize(map[], [Source([OfRecord(xts)], Nothing)])))
  {
    var xts := [Field("B", TSource), Field("A", TSource)];
    var r := OfRecord(xts);
    var ds := [Source([r], Nothing)];
    InOrderIffTidy(map[], ds);
    assert Less("A", "B");
    assert !Sorted(xts);
    TableKept(xts);
    assert !Tidy(map[], r, EMPTY);
    assert [r][0] == r && ds[0].requests[0] == r;
    assert !AllTidy(map[], ds[0].requests, EMPTY);
  }

  lemma TableKept(xts: seq<Field>)
    requires xts == [Field("B", TSource), Field("A", TSource)]
    ensures Norm(TRecord(xts)) !in CifyFields(map[], {}, xts, EMPTY).1.normal
  {
    assert xts[1..] == [Field("A", TSource)] && xts[1..][1..] == [];
    assert CifyFields(map[], {}, [], EMPTY).1 == EMPTY;
    assert CifyFields(map[], {}, xts[1..], EMPTY).1 == EMPTY;
    assert CifyFields(map[], {}, xts, EMPTY).1 == EMPTY;
    assert |Sort(NormFields(xts))| == 2;
  }

  // ---------------------------------------------------------------- the other declarations

  /** What one declaration puts among the types: its datatypes announced, last one first, then the
      structs numbered for it, oldest first, then the datatypes themselves. */
  function Block(s: Source, decls: seq<Decl>): seq<Target> {
    match s.kind
    case Datatypes(names) => Reverse(Forwards(names)) + Reverse(Structs(decls)) + [DatatypeDecl(names)]
    case _ => Reverse(Structs(decls))
  }

  function Blocks(env: Env, ds: seq<Source>, v: Sm): seq<Target>
    decreases |ds|
  {
    if ds == [] then []
    else
      var w := ServeAll(env, ds[0].requests, v);
      Block(ds[0], w.decls) + Blocks(env, ds[1..], w.(decls := []))
  }

  /** The declarations that are no types, in the order of the source. */
  function Plains(ds: seq<Source>): seq<Target> {
    if ds == [] then []
    else (if ds[0].kind.Plain? then [PlainDecl(ds[0].kind.id)] else []) + Plains(ds[1..])
  }

  lemma ReverseConcat<T>(a: seq<T>, b: seq<T>)
    ensures Reverse(a + b) == Reverse(b) + Reverse(a)
  {
  }

  lemma TurnBlock(env: Env, s: Source, front: seq<Target>, rest: seq<Target>, v: Sm)
    ensures
      var (front1, rest1, v1) := Turn(env, s, front, rest, v);
      && Reverse(front1) == Reverse(front) + Block(s, ServeAll(env, s.requests, v).decls)
      && Reverse(rest1) == Reverse(rest) + Plains([s])
      && v1 == ServeAll(env, s.requests, v).(decls := [])
  {
    var structs := Structs(ServeAll(env, s.requests, v).decls);
    assert [s][1..] == [] && Plains([]) == [];
    match s.kind
    case Nothing => ReverseConcat(structs, front);
    case Plain(id) =>
      ReverseConcat(structs, front);
      ReverseConcat([PlainDecl(id)], rest);
      assert Reverse([PlainDecl(id)]) == [PlainDecl(id)];
    case Datatypes(names) =>
      ReverseConcat(Forwards(names), front);
      ReverseConcat(structs, Forwards(names) + front);
      ReverseConcat([DatatypeDecl(names)], structs + (Forwards(names) + front));
      assert Reverse([DatatypeDecl(names)]) == [DatatypeDecl(names)];
  }

  lemma {:induction false} FoldBlocks(env: Env, ds: seq<Source>, front: seq<Target>, rest: seq<Target>, v: Sm)
    ensures
      var (front1, rest1, _) := Fold(env, ds, front, rest, v);
      && Reverse(front1) == Reverse(front) + Blocks(env, ds, v)
      && Reverse(rest1) == Reverse(rest) + Plains(ds)
    decreases |ds|
  {
    if ds != [] {
      var (front1, rest1, v1) := Turn(env, ds[0], front, rest, v);
      TurnBlock(env, ds[0], front, rest, v);
      FoldBlocks(env, ds[1..], front1, rest1, v1);
      PlainsSplit(ds);
    }
  }

  lemma PlainsSplit(ds: seq<Source>)
    requires ds != []
    ensures Plains(ds) == Plains([ds[0]]) + Plains(ds[1..])
  {
    assert [ds[0]][1..] == [] && Plains([]) == [];
  }

  /** Where everything stands in the program: first all that declares types, declaration by declaration
      of the source, then all the rest in the order of the source. */
  lemma DeclarationsInOrder(env: Env, ds: seq<Source>)
    ensures Cjrize(env, ds) == Blocks(env, ds, EMPTY) + Plains(ds)
  {
    FoldFromNothing(env, ds, EMPTY);
  }

  lemma FoldFromNothing(env: Env, ds: seq<Source>, v: Sm)
    ensures Reverse(Fold(env, ds, [], [], v).0) == Blocks(env, ds, v)
    ensures Reverse(Fold(env, ds, [], [], v).1) == Plains(ds)
  {
    FoldBlocks(env, ds, [], [], v);
    assert Reverse<Target>([]) == [];
  }
}
