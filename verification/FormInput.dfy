/** The tree of form inputs: it is built in cells that refer to one another by pointer while the
    array that holds them moves, and read back by walking the same cells. */
module FormInput {

  datatype Option<T> = None | Some(value: T)

  // ---------------------------------------------------------------- cells

  /** A pointer to a cell: into the array of top-level inputs, or into the array of sub-inputs. */
  datatype Ptr = Null | Top(i: nat) | Sub(i: nat)

  datatype Cell<P> =
    | Unset
    | Normal(text: string)
    | Subform(fields: P, parent: P)
    | Subforms(entries: P, parent: P)
    | Entry(fields: P, next: P, parent: P)

  /** The cells and the current container, with pointers as indices. */
  datatype View = View(top: seq<Cell<Ptr>>, sub: seq<Cell<Ptr>>, cur: Ptr)

  datatype Outcome<T> = Done(value: T) | Rejected | Fatal

  predicate In(v: View, p: Ptr) {
    match p
    case Null => false
    case Top(i) => i < |v.top|
    case Sub(i) => i < |v.sub|
  }

  function Get(v: View, p: Ptr): Cell<Ptr>
    requires In(v, p)
  {
    if p.Top? then v.top[p.i] else v.sub[p.i]
  }

  function Put(v: View, p: Ptr, c: Cell<Ptr>): View
    requires In(v, p)
  {
    if p.Top? then v.(top := v.top[p.i := c]) else v.(sub := v.sub[p.i := c])
  }

  function Plus(p: Ptr, n: nat): Ptr {
    match p
    case Null => Null
    case Top(i) => Top(i + n)
    case Sub(i) => Sub(i + n)
  }

  /** `INP`: where the fields of the current container are. */
  function Base(v: View): Outcome<Ptr> {
    if v.cur.Null? then Done(Top(0))
    else if !In(v, v.cur) then Fatal
    else
      match Get(v, v.cur)
      case Subform(fields, _) => Done(fields)
      case Entry(fields, _, _) => Done(fields)
      case _ => Fatal
  }

  /** The cell of field `n` of the current container. */
  function Slot(v: View, n: nat): Outcome<Ptr> {
    match Base(v)
    case Done(base) => if In(v, Plus(base, n)) then Done(Plus(base, n)) else Fatal
    case Rejected => Rejected
    case Fatal => Fatal
  }

  function Unsets<P>(n: nat): (s: seq<Cell<P>>)
    ensures |s| == n && forall i :: 0 <= i < n ==> s[i] == Unset
  {
    seq(n, _ => Unset)
  }

  // ---------------------------------------------------------------- one input

  predicate IsControl(name: string, letter: char)
    requires 'a' <= letter <= 'z'
  {
    |name| == 2 && name[0] == '.' && (name[1] == letter || name[1] as int == letter as int - 32)
  }

  function OpenSubform(v: View, n: int): Outcome<View> {
    if n < 0 || n >= |v.top| then Rejected
    else
      var v1 := v.(sub := v.sub + Unsets(|v.top|));
      match Slot(v1, n)
      case Done(slot) => Done(Put(v1, slot, Subform(Sub(|v.sub|), v.cur)).(cur := slot))
      case Rejected => Rejected
      case Fatal => Fatal
  }

  function Close(v: View): Outcome<View> {
    if v.cur.Null? then Rejected
    else if !In(v, v.cur) then Fatal
    else
      var c := Get(v, v.cur);
      match c
      case Subform(fields, parent) => Done(Put(v, v.cur, Subform(fields, Null)).(cur := parent))
      case Subforms(entries, parent) => Done(Put(v, v.cur, Subforms(entries, Null)).(cur := parent))
      case Entry(_, _, parent) => Done(v.(cur := parent))
      case _ => Rejected
  }

  function OpenSubforms(v: View, n: int): Outcome<View> {
    if n < 0 || n >= |v.top| then Rejected
    else
      match Slot(v, n)
      case Done(slot) => Done(Put(v, slot, Subforms(Null, v.cur)).(cur := slot))
      case Rejected => Rejected
      case Fatal => Fatal
  }

  function OpenEntry(v: View): Outcome<View> {
    if v.cur.Null? then Rejected
    else if !In(v, v.cur) then Fatal
    else
      var c := Get(v, v.cur);
      if !c.Subforms? then Rejected
      else
        var e := |v.sub|;
        var v1 := v.(sub := v.sub + [Entry(Sub(e + 1), c.entries, v.cur)] + Unsets(|v.top|));
        Done(Put(v1, v.cur, Subforms(Sub(e), c.parent)).(cur := Sub(e)))
  }

  function SetText(v: View, n: int, text: string): Outcome<View> {
    if n < 0 then Done(v)
    else if n >= |v.top| then Rejected
    else
      match Slot(v, n)
      case Done(slot) => Done(Put(v, slot, Normal(text)))
      case Rejected => Rejected
      case Fatal => Fatal
  }

  /** `uw_set_input`, on cells with indices for pointers. */
  function InputStep(v: View, name: string, value: string, inputNum: string -> int): Outcome<View> {
    if IsControl(name, 'b') then OpenSubform(v, inputNum(value))
    else if IsControl(name, 'e') then Close(v)
    else if IsControl(name, 's') then OpenSubforms(v, inputNum(value))
    else if IsControl(name, 'i') then OpenEntry(v)
    else SetText(v, inputNum(name), value)
  }

  datatype Input = Input(name: string, value: string)

  function Run(v: View, inputs: seq<Input>, inputNum: string -> int): (o: Outcome<View>)
    decreases |inputs|
  {
    if inputs == [] then Done(v)
    else
      match InputStep(v, inputs[0].name, inputs[0].value, inputNum)
      case Done(v1) => Run(v1, inputs[1..], inputNum)
      case Rejected => Rejected
      case Fatal => Fatal
  }

  lemma {:induction false} RunConcat(v: View, s: seq<Input>, t: seq<Input>, inputNum: string -> int)
    ensures Run(v, s + t, inputNum) ==
            match Run(v, s, inputNum)
            case Done(v1) => Run(v1, t, inputNum)
            case Rejected => Rejected
            case Fatal => Fatal
    decreases |s|
  {
    if s == [] {
      assert s + t == t;
    } else {
      assert (s + t)[1..] == s[1..] + t;
      var o := InputStep(v, s[0].name, s[0].value, inputNum);
      if o.Done? {
        RunConcat(o.value, s[1..], t, inputNum);
      }
    }
  }

  // ---------------------------------------------------------------- forms

  /** A form as its author nests it. */
  datatype Field =
    | Text(name: string, value: string)
    | Group(name: string, fields: seq<Field>)
    | Table(name: string, rows: seq<Row>)

  datatype Row = Row(fields: seq<Field>)

  /** What a browser sends for it. */
  function Encode(fields: seq<Field>): seq<Input>
    decreases fields, 0
  {
    if fields == [] then [] else EncodeField(fields[0]) + Encode(fields[1..])
  }

  function EncodeField(f: Field): seq<Input>
    decreases f, 0
  {
    match f
    case Text(name, value) => [Input(name, value)]
    case Group(name, fields) => [Input(".b", name)] + Encode(fields) + [Input(".e", "")]
    case Table(name, rows) => [Input(".s", name)] + EncodeRows(rows) + [Input(".e", "")]
  }

  function EncodeRows(rows: seq<Row>): seq<Input>
    decreases rows, 0
  {
    if rows == [] then []
    else EncodeRow(rows[0].fields) + EncodeRows(rows[1..])
  }

  function EncodeRow(fields: seq<Field>): seq<Input>
    decreases fields, 1
  {
    [Input(".i", "")] + Encode(fields) + [Input(".e", "")]
  }

  predicate NamesOk(fields: seq<Field>) {
    forall i :: 0 <= i < |fields| ==> NameOk(fields[i])
  }

  /** No text field has the name of a control input. */
  predicate NameOk(f: Field) {
    match f
    case Text(name, _) =>
      !IsControl(name, 'b') && !IsControl(name, 'e') && !IsControl(name, 's') && !IsControl(name, 'i')
    case Group(_, fields) => NamesOk(fields)
    case Table(_, rows) => forall i :: 0 <= i < |rows| ==> NamesOk(rows[i].fields)
  }

  // ---------------------------------------------------------------- what a form means

  /** A field by number: never given, a text, a group of fields, or rows of groups. */
  datatype Tree = Missing | Leaf(text: string) | Branch(block: seq<Tree>) | Rows(rows: seq<Block>)

  datatype Block = Block(fields: seq<Tree>)

  function Blank(n: nat): (b: seq<Tree>)
    ensures |b| == n && forall i :: 0 <= i < n ==> b[i] == Missing
  {
    seq(n, _ => Missing)
  }

  /** Filling in the fields of a form one after the other; a later one replaces an earlier one. */
  function Fill(b: seq<Tree>, fields: seq<Field>, inputNum: string -> int): (r: Option<seq<Tree>>)
    ensures r.Some? ==> |r.value| == |b|
    decreases fields
  {
    if fields == [] then Some(b)
    else
      match FillField(b, fields[0], inputNum)
      case Some(b1) => Fill(b1, fields[1..], inputNum)
      case None => None
  }

  function FillField(b: seq<Tree>, f: Field, inputNum: string -> int): (r: Option<seq<Tree>>)
    ensures r.Some? ==> |r.value| == |b|
    decreases f
  {
    var n := inputNum(f.name);
    if f.Text? && n < 0 then Some(b)
    else if n < 0 || n >= |b| then None
    else
      match f
      case Text(_, value) => Some(b[n := Leaf(value)])
      case Group(_, fields) =>
        (match Fill(Blank(|b|), fields, inputNum)
         case Some(inner) => Some(b[n := Branch(inner)])
         case None => None)
      case Table(_, rows) =>
        (match FillRows(|b|, rows, inputNum)
         case Some(blocks) => Some(b[n := Rows(blocks)])
         case None => None)
  }

  function FillRows(len: nat, rows: seq<Row>, inputNum: string -> int): (r: Option<seq<Block>>)
    decreases rows
  {
    if rows == [] then Some([])
    else
      match Fill(Blank(len), rows[0].fields, inputNum)
      case None => None
      case Some(first) =>
        match FillRows(len, rows[1..], inputNum)
        case None => None
        case Some(rest) => Some([Block(first)] + rest)
  }

  // ---------------------------------------------------------------- the cells that hold a tree

  /** Cell `p` holds the tree, with everything below it in `sub[lo..]`. */
  ghost predicate Holds(v: View, p: Ptr, lo: nat, t: Tree)
    decreases t
  {
    In(v, p) &&
    match t
    case Missing => Get(v, p) == Unset
    case Leaf(text) => Get(v, p) == Normal(text)
    case Branch(block) =>
      var c := Get(v, p);
      c.Subform? && c.fields.Sub? && c.fields.i >= lo && |block| == |v.top| && c.fields.i + |block| <= |v.sub|
      && HoldsFields(v, c.fields, c.fields.i + |block|, block)
    case Rows(rows) =>
      var c := Get(v, p);
      c.Subforms? && HoldsRows(v, c.entries, p, lo, rows)
  }

  /** The cells from `p` on hold the trees, with everything below them in `sub[lo..]`. */
  ghost predicate HoldsFields(v: View, p: Ptr, lo: nat, ts: seq<Tree>)
    decreases ts
  {
    forall j {:trigger ts[j]} :: 0 <= j < |ts| ==> Holds(v, Plus(p, j), lo, ts[j])
  }

  /** A chain of entries from the last row to the first. */
  ghost predicate HoldsRows(v: View, p: Ptr, slot: Ptr, lo: nat, rows: seq<Block>)
    decreases rows
  {
    if rows == [] then p == Null
    else
      && p.Sub? && p.i >= lo && In(v, p)
      && var c := Get(v, p);
         && c.Entry? && c.fields == Sub(p.i + 1) && c.parent == slot
         && |rows[|rows| - 1].fields| == |v.top| && p.i + 1 + |v.top| <= |v.sub|
         && HoldsFields(v, Sub(p.i + 1), p.i + 1 + |rows[|rows| - 1].fields|, rows[|rows| - 1].fields)
         && HoldsRows(v, c.next, slot, lo, rows[..|rows| - 1])
  }

  /** From `lo` up to the end of `v`, nothing has changed; and so for cell `p`. */
  ghost predicate SameFrom(v: View, w: View, lo: nat) {
    && |v.top| == |w.top| && |v.sub| <= |w.sub|
    && forall i {:trigger v.sub[i]} {:trigger w.sub[i]} :: lo <= i < |v.sub| ==> w.sub[i] == v.sub[i]
  }

  ghost predicate SameAt(v: View, w: View, p: Ptr) {
    In(v, p) ==> In(w, p) && Get(w, p) == Get(v, p)
  }

  lemma {:induction false} StillHolds(v: View, w: View, p: Ptr, lo: nat, t: Tree)
    requires Holds(v, p, lo, t) && SameFrom(v, w, lo) && SameAt(v, w, p)
    ensures Holds(w, p, lo, t)
    decreases t
  {
    match t
    case Missing =>
    case Leaf(_) =>
    case Branch(block) =>
      var f := Get(v, p).fields;
      StillHoldsFields(v, w, f, f.i + |block|, block, lo);
    case Rows(rows) =>
      StillHoldsRows(v, w, Get(v, p).entries, p, lo, rows);
  }

  lemma {:induction false} StillHoldsFields(v: View, w: View, f: Ptr, lo: nat, ts: seq<Tree>, from: nat)
    requires f.Sub? && HoldsFields(v, f, lo, ts) && SameFrom(v, w, from) && from <= f.i && from <= lo
    ensures HoldsFields(w, f, lo, ts)
    decreases ts
  {
    forall j {:trigger ts[j]} | 0 <= j < |ts| ensures Holds(w, Plus(f, j), lo, ts[j]) {
      assert Holds(v, Plus(f, j), lo, ts[j]);
      StillHolds(v, w, Plus(f, j), lo, ts[j]);
    }
  }

  lemma {:induction false} StillHoldsRows(v: View, w: View, p: Ptr, slot: Ptr, lo: nat, rows: seq<Block>)
    requires HoldsRows(v, p, slot, lo, rows) && SameFrom(v, w, lo)
    ensures HoldsRows(w, p, slot, lo, rows)
    decreases rows
  {
    if rows != [] {
      var last := rows[|rows| - 1];
      StillHoldsFields(v, w, Sub(p.i + 1), p.i + 1 + |last.fields|, last.fields, lo);
      StillHoldsRows(v, w, Get(v, p).next, slot, lo, rows[..|rows| - 1]);
    }
  }

  // ---------------------------------------------------------------- feeding a form

  ghost function After(p: Ptr, n: nat): nat {
    if p.Sub? then p.i + n else 0
  }

  /** The fields of the current container are at `p`, beyond the container itself, and hold `b`. */
  ghost predicate Ready(v: View, p: Ptr, b: seq<Tree>) {
    && Base(v) == Done(p) && |b| == |v.top| && !p.Null?
    && (p.Sub? ==> p.i + |b| <= |v.sub|) && (p.Top? ==> p == Top(0))
    && HoldsFields(v, p, After(p, |b|), b)
    && (v.cur.Null? || (In(v, v.cur) && p.Sub? && (v.cur.Sub? ==> v.cur.i < p.i)))
  }

  /** Nothing but the cells of the current fields has changed. */
  ghost predicate Frame(v: View, w: View, p: Ptr) {
    && w.cur == v.cur && |w.top| == |v.top| && |v.sub| <= |w.sub|
    && (forall i {:trigger v.top[i]} {:trigger w.top[i]} :: 0 <= i < |v.top| && p.Sub? ==> w.top[i] == v.top[i])
    && (forall i {:trigger v.sub[i]} {:trigger w.sub[i]} ::
          0 <= i < |v.sub| && !(p.Sub? && p.i <= i < p.i + |v.top|) ==> w.sub[i] == v.sub[i])
  }

  lemma FrameTrans(u: View, v: View, w: View, p: Ptr)
    requires Frame(u, v, p) && Frame(v, w, p)
    ensures Frame(u, w, p)
  {
  }

  lemma ReplaceField(v: View, w: View, p: Ptr, b: seq<Tree>, n: nat, t: Tree)
    requires !p.Null? && HoldsFields(v, p, After(p, |b|), b) && n < |b| && SameFrom(v, w, After(p, |b|))
    requires forall j {:trigger Plus(p, j)} :: 0 <= j < |b| && j != n ==> SameAt(v, w, Plus(p, j))
    requires Holds(w, Plus(p, n), After(p, |b|), t)
    ensures HoldsFields(w, p, After(p, |b|), b[n := t])
  {
    var b' := b[n := t];
    forall j {:trigger b'[j]} | 0 <= j < |b'| ensures Holds(w, Plus(p, j), After(p, |b|), b'[j]) {
      if j != n {
        assert b'[j] == b[j];
        StillHolds(v, w, Plus(p, j), After(p, |b|), b[j]);
      }
    }
  }

  lemma FeedText(v: View, p: Ptr, b: seq<Tree>, n: nat, text: string)
    requires Ready(v, p, b) && n < |b|
    ensures var o := SetText(v, n, text); o.Done? && Ready(o.value, p, b[n := Leaf(text)]) && Frame(v, o.value, p)
  {
    assert Holds(v, Plus(p, n), After(p, |b|), b[n]);
    var w := Put(v, Plus(p, n), Normal(text));
    ReplaceField(v, w, p, b, n, Leaf(text));
  }

  lemma BlankReady(v: View, e: nat, len: nat)
    requires len == |v.top| && e + len <= |v.sub|
    requires forall i {:trigger v.sub[i]} :: e <= i < e + len ==> v.sub[i] == Unset
    ensures HoldsFields(v, Sub(e), e + len, Blank(len))
  {
  }

  /** Between the opening of a group and its closing, its fields are the current ones. */
  lemma Opened(v: View, p: Ptr, b: seq<Tree>, n: nat)
    requires Ready(v, p, b) && n < |b|
    ensures
      var o := OpenSubform(v, n);
      var slot := Plus(p, n);
      && o.Done? && Ready(o.value, Sub(|v.sub|), Blank(|b|)) && In(v, slot)
      && o.value.cur == slot && In(o.value, slot) && Get(o.value, slot) == Subform(Sub(|v.sub|), v.cur)
      && |o.value.top| == |v.top| && |o.value.sub| >= |v.sub|
      && (forall q :: q != slot ==> SameAt(v, o.value, q))
  {
    assert Holds(v, Plus(p, n), After(p, |b|), b[n]);
    var w := OpenSubform(v, n).value;
    BlankReady(w, |v.sub|, |b|);
  }

  /** The current container is a table whose cell is `slot`; the rows so far are in `sub[lo..]`. */
  ghost predicate InTable(v: View, slot: Ptr, parent: Ptr, lo: nat, rows: seq<Block>) {
    && v.cur == slot && In(v, slot) && (slot.Sub? ==> slot.i < lo) && lo <= |v.sub|
    && var c := Get(v, slot);
       c.Subforms? && c.parent == parent && HoldsRows(v, c.entries, slot, lo, rows)
  }

  /** Nothing but cell `slot` has changed. */
  ghost predicate SameBut(v: View, w: View, slot: Ptr) {
    |w.top| == |v.top| && |v.sub| <= |w.sub| && forall q {:trigger SameAt(v, w, q)} :: q != slot ==> SameAt(v, w, q)
  }

  lemma SameButTrans(u: View, v: View, w: View, slot: Ptr)
    requires SameBut(u, v, slot) && SameBut(v, w, slot)
    ensures SameBut(u, w, slot)
  {
    forall q | q != slot ensures SameAt(u, w, q) {
      assert SameAt(u, v, q) && SameAt(v, w, q);
    }
  }

  /** What is not in the fields that start at the end of `v` is as it was, if it was there. */
  lemma FrameBeyond(v: View, v1: View, w: View, slot: Ptr, f: nat)
    requires SameBut(v, v1, slot) && Frame(v1, w, Sub(f)) && f >= |v.sub|
    ensures SameBut(v, w, slot)
  {
    forall q | q != slot ensures SameAt(v, w, q) {
      assert SameAt(v, v1, q);
      assert In(v, q) ==> SameAt(v1, w, q);
    }
  }

  lemma SameButFrom(v: View, w: View, slot: Ptr, lo: nat)
    requires SameBut(v, w, slot) && (slot.Sub? ==> slot.i < lo)
    ensures SameFrom(v, w, lo)
  {
    forall i | lo <= i < |v.sub| ensures w.sub[i] == v.sub[i] {
      assert SameAt(v, w, Sub(i));
    }
  }

  lemma OpenedRow(v: View, slot: Ptr, parent: Ptr, lo: nat, rows: seq<Block>)
    requires InTable(v, slot, parent, lo, rows)
    ensures
      var o := OpenEntry(v);
      var e := |v.sub|;
      && o.Done? && Ready(o.value, Sub(e + 1), Blank(|v.top|)) && SameBut(v, o.value, slot)
      && In(o.value, Sub(e)) && Get(o.value, Sub(e)) == Entry(Sub(e + 1), Get(v, slot).entries, slot)
      && In(o.value, slot) && Get(o.value, slot) == Subforms(Sub(e), parent) && o.value.cur == Sub(e)
  {
    var w := OpenEntry(v).value;
    BlankReady(w, |v.sub| + 1, |v.top|);
    forall q | q != slot ensures SameAt(v, w, q) {
    }
  }

  lemma ClosedRow(v: View, slot: Ptr, parent: Ptr, lo: nat, rows: seq<Block>, v1: View, v2: View, inner: seq<Tree>)
    requires InTable(v, slot, parent, lo, rows) && OpenEntry(v) == Done(v1)
    requires Ready(v2, Sub(|v.sub| + 1), inner) && Frame(v1, v2, Sub(|v.sub| + 1))
    ensures
      var o := Close(v2);
      o.Done? && InTable(o.value, slot, parent, lo, rows + [Block(inner)]) && SameBut(v, o.value, slot)
  {
    OpenedRow(v, slot, parent, lo, rows);
    var e := |v.sub|;
    assert SameAt(v1, v2, Sub(e)) && SameAt(v1, v2, slot);
    var w := v2.(cur := slot);
    FrameBeyond(v, v1, v2, slot, e + 1);
    Moved(v, v2, slot, slot);
    SameButFrom(v, v2, slot, lo);
    StillHoldsRows(v, w, Get(v, slot).entries, slot, lo, rows);
    StillHoldsFields(v2, w, Sub(e + 1), e + 1 + |inner|, inner, e + 1);
    RowAdded(w, e, Get(v, slot).entries, slot, lo, rows, inner);
  }

  lemma Moved(v: View, w: View, slot: Ptr, p: Ptr)
    requires SameBut(v, w, slot)
    ensures SameBut(v, w.(cur := p), slot)
  {
    forall q | q != slot ensures SameAt(v, w.(cur := p), q) {
      assert SameAt(v, w, q);
    }
  }

  lemma RowAdded(v: View, e: nat, next: Ptr, slot: Ptr, lo: nat, rows: seq<Block>, inner: seq<Tree>)
    requires e >= lo && e + 1 + |inner| <= |v.sub| && |inner| == |v.top|
    requires Get(v, Sub(e)) == Entry(Sub(e + 1), next, slot)
    requires HoldsFields(v, Sub(e + 1), e + 1 + |inner|, inner) && HoldsRows(v, next, slot, lo, rows)
    ensures HoldsRows(v, Sub(e), slot, lo, rows + [Block(inner)])
  {
    assert (rows + [Block(inner)])[..|rows|] == rows;
  }

  lemma OpenedTable(v: View, p: Ptr, b: seq<Tree>, n: nat)
    requires Ready(v, p, b) && n < |b|
    ensures
      var o := OpenSubforms(v, n);
      var slot := Plus(p, n);
      && o.Done? && InTable(o.value, slot, v.cur, After(p, |b|), []) && SameBut(v, o.value, slot)
  {
    assert Holds(v, Plus(p, n), After(p, |b|), b[n]);
    var w := OpenSubforms(v, n).value;
    forall q | q != Plus(p, n) ensures SameAt(v, w, q) {
    }
  }

  lemma ClosedTable(v: View, p: Ptr, b: seq<Tree>, n: nat, v2: View, rows: seq<Block>)
    requires Ready(v, p, b) && n < |b| && SameBut(v, v2, Plus(p, n))
    requires InTable(v2, Plus(p, n), v.cur, After(p, |b|), rows)
    ensures var o := Close(v2); o.Done? && Ready(o.value, p, b[n := Rows(rows)]) && Frame(v, o.value, p)
  {
    var slot, lo := Plus(p, n), After(p, |b|);
    var w := Close(v2).value;
    forall q | q != slot ensures SameAt(v, w, q) {
      assert SameAt(v, v2, q);
    }
    assert SameFrom(v2, w, lo);
    StillHoldsRows(v2, w, Get(v2, slot).entries, slot, lo, rows);
    Replaced(v, w, p, b, n, Rows(rows));
  }

  lemma Closed(v: View, p: Ptr, b: seq<Tree>, n: nat, v1: View, v2: View, inner: seq<Tree>)
    requires Ready(v, p, b) && n < |b| && OpenSubform(v, n) == Done(v1)
    requires Ready(v2, Sub(|v.sub|), inner) && Frame(v1, v2, Sub(|v.sub|))
    ensures var o := Close(v2); o.Done? && Ready(o.value, p, b[n := Branch(inner)]) && Frame(v, o.value, p)
  {
    Opened(v, p, b, n);
    var slot, u := Plus(p, n), |v.sub|;
    assert SameAt(v1, v2, slot);
    FrameBeyond(v, v1, v2, slot, u);
    var w := Close(v2).value;
    forall q | q != slot ensures SameAt(v, w, q) {
      assert SameAt(v, v2, q);
    }
    StillHoldsFields(v2, w, Sub(u), u + |b|, inner, u);
    Replaced(v, w, p, b, n, Branch(inner));
  }

  /** A field of the current ones that now holds a tree, with the others as they were. */
  lemma Replaced(v: View, w: View, p: Ptr, b: seq<Tree>, n: nat, t: Tree)
    requires Ready(v, p, b) && n < |b| && SameBut(v, w, Plus(p, n)) && w.cur == v.cur
    requires Holds(w, Plus(p, n), After(p, |b|), t)
    ensures Ready(w, p, b[n := t]) && Frame(v, w, p)
  {
    SameButFrom(v, w, Plus(p, n), After(p, |b|));
    forall j {:trigger Plus(p, j)} | 0 <= j < |b| && j != n ensures SameAt(v, w, Plus(p, j)) {
      assert Plus(p, j) != Plus(p, n);
    }
    ReplaceField(v, w, p, b, n, t);
    SameCurrent(v, w, p, Plus(p, n));
  }

  /** A change to one of the current fields only. */
  lemma SameCurrent(v: View, w: View, p: Ptr, slot: Ptr)
    requires SameBut(v, w, slot) && w.cur == v.cur && Base(v) == Done(p)
    requires (p.Sub? && slot.Sub? && p.i <= slot.i < p.i + |v.top|) || (p == Top(0) && slot.Top? && slot.i < |v.top|)
    requires v.cur.Null? || (In(v, v.cur) && v.cur != slot)
    ensures Base(w) == Done(p) && Frame(v, w, p)
  {
    assert SameAt(v, w, v.cur);
    forall i {:trigger v.top[i]} {:trigger w.top[i]} | 0 <= i < |v.top| && p.Sub? ensures w.top[i] == v.top[i] {
      assert SameAt(v, w, Top(i));
    }
    forall i {:trigger v.sub[i]} {:trigger w.sub[i]} | 0 <= i < |v.sub| && !(p.Sub? && p.i <= i < p.i + |v.top|)
      ensures w.sub[i] == v.sub[i]
    {
      assert SameAt(v, w, Sub(i));
    }
  }

  /** Feeding the fields of a form one after the other fills in the current fields with them. */
  lemma {:induction false} Feed(v: View, p: Ptr, b: seq<Tree>, fields: seq<Field>, inputNum: string -> int)
    requires Ready(v, p, b) && NamesOk(fields)
    ensures
      var o := Run(v, Encode(fields), inputNum);
      match Fill(b, fields, inputNum)
      case Some(b1) => o.Done? && Ready(o.value, p, b1) && Frame(v, o.value, p)
      case None => o == Rejected
    decreases fields, 0
  {
    if fields != [] {
      FeedField(v, p, b, fields[0], inputNum);
      RunConcat(v, EncodeField(fields[0]), Encode(fields[1..]), inputNum);
      var o := Run(v, EncodeField(fields[0]), inputNum);
      var b1 := FillField(b, fields[0], inputNum);
      if b1.Some? {
        Feed(o.value, p, b1.value, fields[1..], inputNum);
        var o2 := Run(v, Encode(fields), inputNum);
        if o2.Done? {
          FrameTrans(v, o.value, o2.value, p);
        }
      }
    }
  }

  lemma {:induction false} FeedField(v: View, p: Ptr, b: seq<Tree>, f: Field, inputNum: string -> int)
    requires Ready(v, p, b) && NameOk(f)
    ensures
      var o := Run(v, EncodeField(f), inputNum);
      match FillField(b, f, inputNum)
      case Some(b1) => o.Done? && Ready(o.value, p, b1) && Frame(v, o.value, p)
      case None => o == Rejected
    decreases f
  {
    var n := inputNum(f.name);
    match f
    case Text(name, value) =>
      RunOne(v, Input(name, value), inputNum);
      if 0 <= n < |b| {
        FeedText(v, p, b, n, value);
      }
    case Group(name, fields) =>
      RunBracket(v, Input(".b", name), Encode(fields), Input(".e", ""), inputNum);
      if 0 <= n < |b| {
        Opened(v, p, b, n);
        var v1 := OpenSubform(v, n).value;
        Feed(v1, Sub(|v.sub|), Blank(|b|), fields, inputNum);
        var inner := Fill(Blank(|b|), fields, inputNum);
        if inner.Some? {
          Closed(v, p, b, n, v1, Run(v1, Encode(fields), inputNum).value, inner.value);
        }
      }
    case Table(name, rows) =>
      RunBracket(v, Input(".s", name), EncodeRows(rows), Input(".e", ""), inputNum);
      if 0 <= n < |b| {
        OpenedTable(v, p, b, n);
        var v1, slot := OpenSubforms(v, n).value, Plus(p, n);
        FeedRows(v1, slot, v.cur, After(p, |b|), [], rows, inputNum);
        var blocks := FillRows(|b|, rows, inputNum);
        if blocks.Some? {
          var v2 := Run(v1, EncodeRows(rows), inputNum).value;
          SameButTrans(v, v1, v2, slot);
          assert [] + blocks.value == blocks.value;
          ClosedTable(v, p, b, n, v2, blocks.value);
        }
      }
  }

  lemma {:induction false} FeedRows(v: View, slot: Ptr, parent: Ptr, lo: nat, done: seq<Block>, rows: seq<Row>,
                                    inputNum: string -> int)
    requires InTable(v, slot, parent, lo, done) && forall i :: 0 <= i < |rows| ==> NamesOk(rows[i].fields)
    ensures
      var o := Run(v, EncodeRows(rows), inputNum);
      match FillRows(|v.top|, rows, inputNum)
      case Some(blocks) => o.Done? && InTable(o.value, slot, parent, lo, done + blocks) && SameBut(v, o.value, slot)
      case None => o == Rejected
    decreases rows
  {
    if rows == [] {
      assert done + [] == done;
    } else {
      var fields := rows[0].fields;
      FeedRow(v, slot, parent, lo, done, fields, inputNum);
      RunConcat(v, EncodeRow(fields), EncodeRows(rows[1..]), inputNum);
      var inner := Fill(Blank(|v.top|), fields, inputNum);
      if inner.Some? {
        var v3, block := Run(v, EncodeRow(fields), inputNum).value, Block(inner.value);
        FeedRows(v3, slot, parent, lo, done + [block], rows[1..], inputNum);
        var rest := FillRows(|v.top|, rows[1..], inputNum);
        if rest.Some? {
          Associate(done, [block], rest.value);
          SameButTrans(v, v3, Run(v3, EncodeRows(rows[1..]), inputNum).value, slot);
        }
      }
    }
  }

  lemma Associate<T>(a: seq<T>, b: seq<T>, c: seq<T>)
    ensures a + b + c == a + (b + c)
  {
  }

  lemma {:induction false} FeedRow(v: View, slot: Ptr, parent: Ptr, lo: nat, done: seq<Block>, fields: seq<Field>,
                                   inputNum: string -> int)
    requires InTable(v, slot, parent, lo, done) && NamesOk(fields)
    ensures
      var o := Run(v, EncodeRow(fields), inputNum);
      match Fill(Blank(|v.top|), fields, inputNum)
      case Some(inner) =>
        o.Done? && InTable(o.value, slot, parent, lo, done + [Block(inner)]) && SameBut(v, o.value, slot)
      case None => o == Rejected
    decreases fields, 1
  {
    OpenedRow(v, slot, parent, lo, done);
    var v1 := OpenEntry(v).value;
    RunBracket(v, Input(".i", ""), Encode(fields), Input(".e", ""), inputNum);
    Feed(v1, Sub(|v.sub| + 1), Blank(|v.top|), fields, inputNum);
    var inner := Fill(Blank(|v.top|), fields, inputNum);
    if inner.Some? {
      ClosedRow(v, slot, parent, lo, done, v1, Run(v1, Encode(fields), inputNum).value, inner.value);
    }
  }

  lemma RunOne(v: View, i: Input, inputNum: string -> int)
    ensures Run(v, [i], inputNum) == InputStep(v, i.name, i.value, inputNum)
  {
    var o := InputStep(v, i.name, i.value, inputNum);
    if o.Done? {
      assert Run(o.value, [i][1..], inputNum) == o;
    }
  }

  /** Some inputs between an opening one and a closing one. */
  lemma RunBracket(v: View, open: Input, s: seq<Input>, close: Input, inputNum: string -> int)
    requires close.name == ".e"
    ensures Run(v, [open] + s + [close], inputNum) ==
            match InputStep(v, open.name, open.value, inputNum)
            case Rejected => Rejected
            case Fatal => Fatal
            case Done(v1) =>
              match Run(v1, s, inputNum)
              case Rejected => Rejected
              case Fatal => Fatal
              case Done(v2) => Close(v2)
  {
    RunConcat(v, [open] + s, [close], inputNum);
    RunConcat(v, [open], s, inputNum);
    RunOne(v, open, inputNum);
    var o := Run(v, [open] + s, inputNum);
    if o.Done? {
      RunOne(o.value, close, inputNum);
    }
  }

  // ---------------------------------------------------------------- reading a form

  function GetText(v: View, n: int): Outcome<Option<string>> {
    if n < 0 || n >= |v.top| || !Slot(v, n).Done? then Fatal
    else
      match Get(v, Slot(v, n).value)
      case Unset => Done(None)
      case Normal(text) => Done(Some(text))
      case _ => Fatal
  }

  function EnterSubform(v: View, n: int): Outcome<View> {
    if n < 0 || n >= |v.top| || !Slot(v, n).Done? then Fatal
    else
      var slot := Slot(v, n).value;
      match Get(v, slot)
      case Subform(fields, _) => Done(Put(v, slot, Subform(fields, v.cur)).(cur := slot))
      case _ => Fatal
  }

  /** What `uw_leave_subform` does, whatever the current container is: the pointer it takes for the parent is the
      second one of the cell, which for an entry is the next entry. */
  function LeaveSubform(v: View): Outcome<View> {
    if !In(v, v.cur) then Fatal
    else
      match Get(v, v.cur)
      case Subform(fields, parent) => Done(Put(v, v.cur, Subform(fields, Null)).(cur := parent))
      case Subforms(entries, parent) => Done(Put(v, v.cur, Subforms(entries, Null)).(cur := parent))
      case Entry(fields, next, parent) => Done(Put(v, v.cur, Entry(fields, Null, parent)).(cur := next))
      case _ => Fatal
  }

  /** The view in the first entry, and whether there is one. */
  function EnterSubforms(v: View, n: int): Outcome<(View, bool)> {
    if n < 0 || n >= |v.top| || !Slot(v, n).Done? then Fatal
    else
      var slot := Slot(v, n).value;
      match Get(v, slot)
      case Subforms(entries, _) =>
        if entries.Null? then Done((v, false))
        else Done((Put(v, slot, Subforms(entries, v.cur)).(cur := entries), true))
      case _ => Fatal
  }

  function NextEntry(v: View): Outcome<(View, bool)> {
    if !In(v, v.cur) then Fatal
    else
      match Get(v, v.cur)
      case Entry(_, next, parent) =>
        if !next.Null? then Done((v.(cur := next), true))
        else if In(v, parent) && Get(v, parent).Subforms? then Done((v.(cur := Get(v, parent).parent), false))
        else Fatal
      case _ => Fatal
  }

  /** The type of a form, by field number: what the compiled reader of a form is made from. */
  datatype Shape =
    | TextShape(n: int)
    | GroupShape(n: int, fields: seq<Shape>)
    | TableShape(n: int, fields: seq<Shape>)

  datatype Value = TextValue(text: Option<string>) | RecordValue(fields: seq<Value>) | ListValue(rows: seq<Record>)

  datatype Record = Record(fields: seq<Value>)

  /** What the fields of a tree are as values of a type; nothing when the tree is not of the type. */
  function ProjectAll(b: seq<Tree>, shapes: seq<Shape>): Option<seq<Value>>
    decreases shapes, 0
  {
    if shapes == [] then Some([])
    else
      match Project(b, shapes[0])
      case None => None
      case Some(first) =>
        match ProjectAll(b, shapes[1..])
        case None => None
        case Some(rest) => Some([first] + rest)
  }

  function Project(b: seq<Tree>, shape: Shape): Option<Value>
    decreases shape, 0
  {
    if shape.n < 0 || shape.n >= |b| then None
    else
      match (shape, b[shape.n])
      case (TextShape(_), Missing) => Some(TextValue(None))
      case (TextShape(_), Leaf(text)) => Some(TextValue(Some(text)))
      case (GroupShape(_, fields), Branch(block)) =>
        (match ProjectAll(block, fields)
         case Some(values) => Some(RecordValue(values))
         case None => None)
      case (TableShape(_, fields), Rows(rows)) =>
        (match ProjectRows(rows, fields)
         case Some(records) => Some(ListValue(records))
         case None => None)
      case (_, _) => None
  }

  function ProjectRows(rows: seq<Block>, shapes: seq<Shape>): Option<seq<Record>>
    decreases shapes, |rows| + 1
  {
    if rows == [] then Some([])
    else
      match ProjectAll(rows[0].fields, shapes)
      case None => None
      case Some(first) =>
        match ProjectRows(rows[1..], shapes)
        case None => None
        case Some(rest) => Some([Record(first)] + rest)
  }

  /** A form as values of a type. */
  function Meaning(form: seq<Field>, shapes: seq<Shape>, len: nat, inputNum: string -> int): Option<seq<Value>> {
    match Fill(Blank(len), form, inputNum)
    case Some(tree) => ProjectAll(tree, shapes)
    case None => None
  }

  /** The form has one field for each of the type's, of the right kind, and no two have the same number. */
  predicate Fits(fields: seq<Field>, shapes: seq<Shape>, len: nat, inputNum: string -> int)
    decreases fields
  {
    && |fields| == |shapes|
    && (forall i, j :: 0 <= i < j < |shapes| ==> shapes[i].n != shapes[j].n)
    && forall i {:trigger fields[i]} :: 0 <= i < |fields| ==> FitsField(fields[i], shapes[i], len, inputNum)
  }

  predicate FitsField(f: Field, shape: Shape, len: nat, inputNum: string -> int)
    decreases f
  {
    && inputNum(f.name) == shape.n && 0 <= shape.n < len
    && match f
       case Text(_, _) => shape.TextShape?
       case Group(_, fields) => shape.GroupShape? && Fits(fields, shape.fields, len, inputNum)
       case Table(_, rows) =>
         shape.TableShape? && forall i {:trigger rows[i]} ::
           0 <= i < |rows| ==> Fits(rows[i].fields, shape.fields, len, inputNum)
  }

  /** What the author of a form put into its fields. */
  function Values(fields: seq<Field>): seq<Value> {
    if fields == [] then [] else [ValueOf(fields[0])] + Values(fields[1..])
  }

  function ValueOf(f: Field): Value {
    match f
    case Text(_, value) => TextValue(Some(value))
    case Group(_, fields) => RecordValue(Values(fields))
    case Table(_, rows) => ListValue(Records(rows))
  }

  function Records(rows: seq<Row>): seq<Record> {
    if rows == [] then [] else [Record(Values(rows[0].fields))] + Records(rows[1..])
  }

  lemma {:induction false} FillKeeps(b: seq<Tree>, fields: seq<Field>, inputNum: string -> int, n: nat)
    requires n < |b| && Fill(b, fields, inputNum).Some?
    requires forall i :: 0 <= i < |fields| ==> inputNum(fields[i].name) != n
    ensures Fill(b, fields, inputNum).value[n] == b[n]
    decreases fields
  {
    if fields != [] {
      FillKeeps(FillField(b, fields[0], inputNum).value, fields[1..], inputNum, n);
    }
  }

  /** A form that fits a type is read as what its author put in. */
  lemma {:induction false} FormComesBack(b: seq<Tree>, fields: seq<Field>, shapes: seq<Shape>, inputNum: string -> int)
    requires Fits(fields, shapes, |b|, inputNum)
    ensures Fill(b, fields, inputNum).Some?
    ensures ProjectAll(Fill(b, fields, inputNum).value, shapes) == Some(Values(fields))
    decreases fields
  {
    if fields != [] {
      var f, shape := fields[0], shapes[0];
      FieldComesBack(b, f, shape, inputNum);
      var b1 := FillField(b, f, inputNum).value;
      assert forall i :: 0 <= i < |shapes[1..]| ==> shapes[1..][i] == shapes[i + 1];
      assert forall i :: 0 <= i < |fields[1..]| ==> fields[1..][i] == fields[i + 1];
      FormComesBack(b1, fields[1..], shapes[1..], inputNum);
      FillKeeps(b1, fields[1..], inputNum, shape.n);
      assert Project(Fill(b, fields, inputNum).value, shape) == Project(b1, shape);
    }
  }

  lemma {:induction false} FieldComesBack(b: seq<Tree>, f: Field, shape: Shape, inputNum: string -> int)
    requires FitsField(f, shape, |b|, inputNum)
    ensures FillField(b, f, inputNum).Some?
    ensures Project(FillField(b, f, inputNum).value, shape) == Some(ValueOf(f))
    decreases f
  {
    match f
    case Text(_, _) =>
    case Group(_, fields) => FormComesBack(Blank(|b|), fields, shape.fields, inputNum);
    case Table(_, rows) => RowsComeBack(|b|, rows, shape.fields, inputNum);
  }

  lemma {:induction false} RowsComeBack(len: nat, rows: seq<Row>, shapes: seq<Shape>, inputNum: string -> int)
    requires forall i {:trigger rows[i]} :: 0 <= i < |rows| ==> Fits(rows[i].fields, shapes, len, inputNum)
    ensures FillRows(len, rows, inputNum).Some?
    ensures ProjectRows(FillRows(len, rows, inputNum).value, shapes) == Some(Records(rows))
    decreases rows
  {
    if rows != [] {
      FormComesBack(Blank(len), rows[0].fields, shapes, inputNum);
      RowsComeBack(len, rows[1..], shapes, inputNum);
      var first, rest := Fill(Blank(len), rows[0].fields, inputNum).value, FillRows(len, rows[1..], inputNum).value;
      assert ([Block(first)] + rest)[1..] == rest;
    }
  }

  lemma {:induction false} RowsFail(rows: seq<Block>, k: nat, shapes: seq<Shape>)
    requires k <= |rows| && ProjectRows(rows[k..], shapes) == None
    ensures ProjectRows(rows, shapes) == None
    decreases k
  {
    if k == 0 {
      assert rows[0..] == rows;
    } else {
      assert rows[1..][k - 1..] == rows[k..];
      RowsFail(rows[1..], k - 1, shapes);
    }
  }

  /** Reading changes nothing but the links that lead back to the parents. */
  ghost predicate SameButParents(v: View, w: View) {
    && |w.top| == |v.top| && |w.sub| == |v.sub|
    && forall q {:trigger Get(w, q)} {:trigger Get(v, q)} ::
      In(v, q) ==> WithoutParent(Get(w, q)) == WithoutParent(Get(v, q))
  }

  ghost function WithoutParent(c: Cell<Ptr>): Cell<Ptr> {
    match c
    case Subform(fields, _) => Subform(fields, Null)
    case Subforms(entries, _) => Subforms(entries, Null)
    case _ => c
  }

  lemma {:induction false} ReadHolds(v: View, w: View, p: Ptr, lo: nat, t: Tree)
    requires Holds(v, p, lo, t) && SameButParents(v, w)
    ensures Holds(w, p, lo, t)
    decreases t
  {
    assert WithoutParent(Get(w, p)) == WithoutParent(Get(v, p));
    match t
    case Missing =>
    case Leaf(_) =>
    case Branch(block) =>
      ReadHoldsFields(v, w, Get(v, p).fields, Get(v, p).fields.i + |block|, block);
    case Rows(rows) =>
      ReadHoldsRows(v, w, Get(v, p).entries, p, lo, rows);
  }

  lemma {:induction false} ReadHoldsFields(v: View, w: View, p: Ptr, lo: nat, ts: seq<Tree>)
    requires HoldsFields(v, p, lo, ts) && SameButParents(v, w)
    ensures HoldsFields(w, p, lo, ts)
    decreases ts
  {
    forall j {:trigger ts[j]} | 0 <= j < |ts| ensures Holds(w, Plus(p, j), lo, ts[j]) {
      ReadHolds(v, w, Plus(p, j), lo, ts[j]);
    }
  }

  lemma {:induction false} ReadHoldsRows(v: View, w: View, p: Ptr, slot: Ptr, lo: nat, rows: seq<Block>)
    requires HoldsRows(v, p, slot, lo, rows) && SameButParents(v, w)
    ensures HoldsRows(w, p, slot, lo, rows)
    decreases rows
  {
    if rows != [] {
      var last := rows[|rows| - 1];
      assert WithoutParent(Get(w, p)) == WithoutParent(Get(v, p));
      ReadHoldsFields(v, w, Sub(p.i + 1), p.i + 1 + |last.fields|, last.fields);
      ReadHoldsRows(v, w, Get(v, p).next, slot, lo, rows[..|rows| - 1]);
    }
  }

  /** What reading the fields at `p` leaves as it was. */
  ghost predicate ReadFrame(v: View, w: View, p: Ptr) {
    && SameButParents(v, w) && w.cur == v.cur
    && (p.Sub? ==> w.top == v.top)
      && (forall i {:trigger w.sub[i]} :: 0 <= i < |v.sub| && p.Sub? && i < p.i ==> w.sub[i] == v.sub[i])
  }

  lemma ReadReady(v: View, w: View, p: Ptr, b: seq<Tree>)
    requires Ready(v, p, b) && ReadFrame(v, w, p)
    ensures Ready(w, p, b)
  {
    ReadHoldsFields(v, w, p, After(p, |b|), b);
    if !v.cur.Null? {
      assert WithoutParent(Get(w, v.cur)) == WithoutParent(Get(v, v.cur));
    }
  }

  lemma Entered(v: View, p: Ptr, b: seq<Tree>, n: nat, inner: seq<Tree>)
    requires Ready(v, p, b) && n < |b| && b[n] == Branch(inner)
    ensures
      var o := EnterSubform(v, n);
      var slot := Plus(p, n);
      && In(v, slot) && Get(v, slot).Subform?
      && var f := Get(v, slot).fields;
      && o.Done? && Ready(o.value, f, inner) && SameBut(v, o.value, slot) && SameButParents(v, o.value)
      && o.value.cur == slot && In(o.value, slot) && Get(o.value, slot) == Subform(f, v.cur)
      && f.Sub? && (slot.Sub? ==> slot.i < f.i)
  {
    var slot, lo := Plus(p, n), After(p, |b|);
    assert Holds(v, slot, lo, b[n]);
    var w, f := EnterSubform(v, n).value, Get(v, slot).fields;
    forall q | q != slot ensures SameAt(v, w, q) {
    }
    ReadHoldsFields(v, w, f, f.i + |inner|, inner);
  }

  lemma Left(v: View, p: Ptr, b: seq<Tree>, n: nat, inner: seq<Tree>, w: View, x: View)
    requires Ready(v, p, b) && n < |b| && b[n] == Branch(inner) && EnterSubform(v, n) == Done(w)
    requires In(v, Plus(p, n)) && Get(v, Plus(p, n)).Subform? && ReadFrame(w, x, Get(v, Plus(p, n)).fields)
    ensures LeaveSubform(x).Done? && ReadFrame(v, LeaveSubform(x).value, p)
  {
    Entered(v, p, b, n, inner);
    var slot, f := Plus(p, n), Get(v, Plus(p, n)).fields;
    assert Get(x, slot) == Get(w, slot);
    var y := LeaveSubform(x).value;
    forall q | In(v, q) ensures WithoutParent(Get(y, q)) == WithoutParent(Get(v, q)) {
      assert WithoutParent(Get(w, q)) == WithoutParent(Get(v, q));
      assert WithoutParent(Get(x, q)) == WithoutParent(Get(w, q));
    }
    forall i {:trigger y.sub[i]} | 0 <= i < |v.sub| && p.Sub? && i < p.i ensures y.sub[i] == v.sub[i] {
      assert SameAt(v, w, Sub(i));
      assert x.sub[i] == w.sub[i];
    }
    if p.Sub? {
      forall i | 0 <= i < |v.top| ensures y.top[i] == v.top[i] {
        assert SameAt(v, w, Top(i));
      }
    }
  }

  /** In the entry of the row before `rows[k..]`, with `rows[..k]` still to be read. */
  ghost predicate AtRow(v: View, slot: Ptr, parent: Ptr, lo: nat, rows: seq<Block>) {
    && rows != [] && HoldsRows(v, v.cur, slot, lo, rows) && (slot.Sub? ==> slot.i < lo)
    && In(v, slot) && Get(v, slot).Subforms? && Get(v, slot).parent == parent
  }

  /** What reading the rows of a table leaves as it was. */
  ghost predicate RowsFrame(v: View, w: View, lo: nat) {
    && SameButParents(v, w) && w.top == v.top
    && forall i {:trigger w.sub[i]} :: 0 <= i < |v.sub| && i < lo ==> w.sub[i] == v.sub[i]
  }

  lemma EnteredRows(v: View, p: Ptr, b: seq<Tree>, n: nat, rows: seq<Block>)
    requires Ready(v, p, b) && n < |b| && b[n] == Rows(rows)
    ensures
      var o := EnterSubforms(v, n);
      var slot := Plus(p, n);
      && o.Done? && o.value.1 == (rows != []) && (rows == [] ==> o.value.0 == v)
      && (rows != [] ==> AtRow(o.value.0, slot, v.cur, After(p, |b|), rows))
      && SameBut(v, o.value.0, slot) && SameButParents(v, o.value.0)
  {
    var slot, lo := Plus(p, n), After(p, |b|);
    assert Holds(v, slot, lo, b[n]);
    var w := EnterSubforms(v, n).value.0;
    forall q | q != slot ensures SameAt(v, w, q) {
    }
    ReadHoldsRows(v, w, Get(v, slot).entries, slot, lo, rows);
  }

  lemma RowReady(v: View, slot: Ptr, parent: Ptr, lo: nat, rows: seq<Block>)
    requires AtRow(v, slot, parent, lo, rows)
    ensures v.cur.Sub? && v.cur.i >= lo && Ready(v, Sub(v.cur.i + 1), rows[|rows| - 1].fields)
  {
  }

  lemma RowDone(v: View, slot: Ptr, parent: Ptr, lo: nat, rows: seq<Block>, w: View)
    requires AtRow(v, slot, parent, lo, rows) && v.cur.Sub? && ReadFrame(v, w, Sub(v.cur.i + 1))
    ensures
      var o := NextEntry(w);
      && o.Done? && o.value.1 == (|rows| > 1) && RowsFrame(v, o.value.0, lo)
      && (if |rows| > 1 then AtRow(o.value.0, slot, parent, lo, rows[..|rows| - 1]) else o.value.0.cur == parent)
  {
    assert w.sub[v.cur.i] == v.sub[v.cur.i];
    var next := Get(v, v.cur).next;
    var x := NextEntry(w).value.0;
    ReadHoldsRows(v, x, next, slot, lo, rows[..|rows| - 1]);
    assert Get(w, slot) == Get(v, slot);
  }

  lemma RowsFrameTrans(u: View, v: View, w: View, lo: nat)
    requires RowsFrame(u, v, lo) && RowsFrame(v, w, lo)
    ensures RowsFrame(u, w, lo)
  {
    forall q | In(u, q) ensures WithoutParent(Get(w, q)) == WithoutParent(Get(u, q)) {
      assert WithoutParent(Get(v, q)) == WithoutParent(Get(u, q));
      assert WithoutParent(Get(w, q)) == WithoutParent(Get(v, q));
    }
    forall i | 0 <= i < |u.sub| && i < lo ensures w.sub[i] == u.sub[i] {
      assert v.sub[i] == u.sub[i];
    }
  }

  lemma RowsRead(v: View, p: Ptr, b: seq<Tree>, n: nat, w: View, x: View)
    requires Ready(v, p, b) && n < |b| && SameBut(v, w, Plus(p, n)) && SameButParents(v, w)
    requires RowsFrame(w, x, After(p, |b|)) && x.cur == v.cur
    ensures ReadFrame(v, x, p)
  {
    var slot := Plus(p, n);
    forall q | In(v, q) ensures WithoutParent(Get(x, q)) == WithoutParent(Get(v, q)) {
      assert WithoutParent(Get(w, q)) == WithoutParent(Get(v, q));
      assert WithoutParent(Get(x, q)) == WithoutParent(Get(w, q));
    }
    forall i {:trigger x.sub[i]} | 0 <= i < |v.sub| && p.Sub? && i < p.i ensures x.sub[i] == v.sub[i] {
      assert SameAt(v, w, Sub(i));
      assert x.sub[i] == w.sub[i];
    }
    if p.Sub? {
      forall i | 0 <= i < |v.top| ensures x.top[i] == v.top[i] {
        assert SameAt(v, w, Top(i));
      }
    }
  }

  // ---------------------------------------------------------------- addresses

  /** Where the two arrays are: top-level inputs at one address, sub-inputs at another. */
  datatype Layout = Layout(inputsAt: int, subAt: int)

  function Address(l: Layout, p: Ptr): int {
    match p
    case Null => 0
    case Top(i) => l.inputsAt + i
    case Sub(i) => l.subAt + i
  }

  function Placed(l: Layout, c: Cell<Ptr>): Cell<int> {
    match c
    case Unset => Unset
    case Normal(text) => Normal(text)
    case Subform(fields, parent) => Subform(Address(l, fields), Address(l, parent))
    case Subforms(entries, parent) => Subforms(Address(l, entries), Address(l, parent))
    case Entry(fields, next, parent) => Entry(Address(l, fields), Address(l, next), Address(l, parent))
  }

  /** The arrays do not overlap, and neither holds the null address. */
  ghost predicate Apart(l: Layout, inputs: nat, used: nat) {
    l.inputsAt > 0 && l.subAt > 0 && (l.inputsAt + inputs <= l.subAt || l.subAt + used <= l.inputsAt)
  }

  ghost predicate Points(v: View, p: Ptr) {
    p.Null? || In(v, p)
  }

  /** A pointer to a whole set of fields. */
  ghost predicate PointsToFields(v: View, p: Ptr) {
    p.Sub? && v.top != [] && p.i + |v.top| <= |v.sub|
  }

  ghost predicate CellPoints(v: View, c: Cell<Ptr>) {
    match c
    case Unset => true
    case Normal(_) => true
    case Subform(fields, parent) => PointsToFields(v, fields) && Points(v, parent)
    case Subforms(entries, parent) => Points(v, entries) && Points(v, parent)
    case Entry(fields, next, parent) => PointsToFields(v, fields) && Points(v, next) && Points(v, parent)
  }

  /** No pointer dangles. */
  ghost predicate WellFormed(v: View) {
    && Points(v, v.cur) && (v.sub != [] ==> v.top != [])
    && (forall i {:trigger v.top[i]} :: 0 <= i < |v.top| ==> CellPoints(v, v.top[i]))
    && (forall i {:trigger v.sub[i]} :: 0 <= i < |v.sub| ==> CellPoints(v, v.sub[i]))
  }

  /** `adjust_pointer` */
  function AdjustPointer(a: int, oldStart: int, newStart: int, len: nat): int {
    if a != 0 && oldStart <= a < oldStart + len then a + (newStart - oldStart) else a
  }

  /** `adjust_input` */
  function AdjustInput(c: Cell<int>, oldStart: int, newStart: int, len: nat): Cell<int> {
    match c
    case Subform(fields, parent) =>
      Subform(AdjustPointer(fields, oldStart, newStart, len), AdjustPointer(parent, oldStart, newStart, len))
    case Subforms(entries, parent) =>
      Subforms(AdjustPointer(entries, oldStart, newStart, len), AdjustPointer(parent, oldStart, newStart, len))
    case Entry(fields, next, parent) =>
      Entry(AdjustPointer(fields, oldStart, newStart, len), AdjustPointer(next, oldStart, newStart, len),
            AdjustPointer(parent, oldStart, newStart, len))
    case _ => c
  }

  /** Adjusting a pointer after the sub-inputs have moved makes it point at what it pointed at. */
  lemma Relocated(l: Layout, at: int, v: View, p: Ptr)
    requires Apart(l, |v.top|, |v.sub|) && Points(v, p)
    ensures AdjustPointer(Address(l, p), l.subAt, at, |v.sub|) == Address(l.(subAt := at), p)
  {
  }

  lemma RelocatedInput(l: Layout, at: int, v: View, c: Cell<Ptr>)
    requires Apart(l, |v.top|, |v.sub|) && CellPoints(v, c)
    ensures AdjustInput(Placed(l, c), l.subAt, at, |v.sub|) == Placed(l.(subAt := at), c)
  {
  }

  // ---------------------------------------------------------------- the context

  datatype Status = Ok | Bad | Died

  /** The arrays of inputs. `place(i, n)` is where the `i`th `realloc`, for `n` cells, puts the sub-inputs;
      what it adds to them is `garbage`. */
  class Context {
    const inputNum: string -> int
    const place: (nat, nat) -> int
    const garbage: Cell<int>
    const max: nat
    var inputs: seq<Cell<int>>
    var subinputs: seq<Cell<int>>
    var layout: Layout
    var used: nat
    var room: nat
    var reallocs: nat
    var cur: int
    ghost var view: View

    /** The allocator never returns memory that overlaps the top-level inputs. */
    ghost predicate Allocates()
      reads this`inputs, this`layout
    {
      forall i: nat, n: nat {:trigger place(i, n)} :: Apart(layout.(subAt := place(i, n)), |inputs|, n)
    }

    /** The arrays are what the view says, at the addresses the layout says. */
    ghost predicate Valid()
      reads this
    {
      && WellFormed(view) && Apart(layout, |inputs|, |subinputs|)
      && |inputs| == |view.top| && used == |view.sub| && used <= |subinputs| && room <= |subinputs|
      && AllPlaced(layout, inputs, view.top) && AllPlaced(layout, subinputs, view.sub)
      && cur == Address(layout, view.cur)
    }

    /** The view now is what the outcome says; the request may die for want of room. */
    ghost predicate Follows(before: View, o: Outcome<View>, r: Status)
      reads this
    {
      match o
      case Done(after) => (r == Ok && view == after) || (r == Died && |after.sub| > max)
      case Rejected => r == Bad && view == before
      case Fatal => r == Died
    }

    constructor (inputNum: string -> int, place: (nat, nat) -> int, garbage: Cell<int>, max: nat, len: nat,
                 inputsAt: int, subAt: int)
      requires Apart(Layout(inputsAt, subAt), len, 0)
      requires forall i: nat, n: nat {:trigger place(i, n)} :: Apart(Layout(inputsAt, place(i, n)), len, n)
      ensures Valid() && Allocates() && |inputs| == len && view == View(Unsets(len), [], Null)
      ensures this.inputNum == inputNum && this.place == place && this.max == max
    {
      this.inputNum, this.place, this.garbage, this.max := inputNum, place, garbage, max;
      inputs, subinputs, layout := Unsets(len), [], Layout(inputsAt, subAt);
      used, room, reallocs, cur, view := 0, 0, 0, 0, View(Unsets(len), [], Null);
    }

    /** `check_input_space` */
    method CheckInputSpace(len: nat) returns (r: int, ok: bool)
      requires Valid() && Allocates() && inputs != []
      modifies this
      ensures Allocates() && ok == (old(used) + len < old(room) || old(used) + len <= max)
      ensures Valid() && view == if ok then old(view).(sub := old(view.sub) + Unsets(len)) else old(view)
      ensures |inputs| == old(|inputs|) && (ok ==> r == layout.subAt + old(used))
    {
      ok := true;
      var total := used + len;
      if total >= room {
        if total > max {
          r, ok := 0, false;
          return;
        }
        var at := place(reallocs, total);
        Reallocate(at, total);
      }
      r := layout.subAt + used;
      var cells, i := subinputs, 0;
      ghost var before := cells;
      while i < len
        invariant i <= len && |cells| == |before| && cells[..used] == before[..used]
        invariant forall j :: used <= j < used + i ==> cells[j] == Unset
      {
        cells := cells[used + i := Unset];
        i := i + 1;
      }
      SpaceAdded(layout, before, cells, view, len);
      view := view.(sub := view.sub + Unsets(len));
      subinputs, used := cells, total;
    }

    /** Moving the array of sub-inputs, to where `realloc` has put it. */
    method Reallocate(at: int, total: nat)
      requires Valid() && Allocates() && total >= used && total >= room
      requires Apart(layout.(subAt := at), |inputs|, total)
      modifies this`subinputs, this`inputs, this`cur, this`room, this`layout, this`reallocs
      ensures Valid() && Allocates() && |subinputs| == total
    {
      var cells, tops := subinputs[..used] + seq(total - used, _ => garbage), inputs;
      var from := layout.subAt;
      reallocs := reallocs + 1;
      if from != at {
        var i := 0;
        while i < used
          invariant i <= used && |cells| == total
          invariant forall j {:trigger cells[j]} :: 0 <= j < used ==>
            cells[j] == if j < i then AdjustInput(subinputs[j], from, at, used) else subinputs[j]
        {
          cells := cells[i := AdjustInput(cells[i], from, at, used)];
          i := i + 1;
        }
        i := 0;
        while i < |inputs|
          invariant i <= |inputs| == |tops|
          invariant forall j {:trigger tops[j]} :: 0 <= j < |inputs| ==>
            tops[j] == if j < i then AdjustInput(inputs[j], from, at, used) else inputs[j]
        {
          tops := tops[i := AdjustInput(tops[i], from, at, used)];
          i := i + 1;
        }
        AllRelocated(layout, at, view, subinputs, cells, inputs, tops);
        cur := AdjustPointer(cur, from, at, used);
        room, layout, inputs := total, layout.(subAt := at), tops;
      }
      subinputs := cells;
    }

    /** `INP`, and the address of one of its cells: null where the source stops with an error. */
    method FieldAt(n: nat) returns (p: int)
      requires Valid() && n < |inputs|
      ensures match Slot(view, n)
              case Done(slot) => p == Address(layout, slot) && p != 0
              case _ => p == 0
    {
      if cur == 0 {
        return layout.inputsAt + n;
      }
      var c := Load(cur);
      if c.Subform? || c.Entry? {
        p := c.fields + n;
      } else {
        p := 0;
      }
    }

    /** Reading through a pointer. */
    function Load(p: int): (c: Cell<int>)
      requires Valid() && exists q :: In(view, q) && p == Address(layout, q)
      reads this
      ensures forall q :: In(view, q) && p == Address(layout, q) ==> c == Placed(layout, Get(view, q))
    {
      if layout.inputsAt <= p < layout.inputsAt + |inputs| then inputs[p - layout.inputsAt]
      else subinputs[p - layout.subAt]
    }

    /** Writing through a pointer. */
    method Store(p: int, c: Cell<int>, ghost q: Ptr, ghost d: Cell<Ptr>)
      requires Valid() && In(view, q) && p == Address(layout, q) && c == Placed(layout, d) && CellPoints(view, d)
      modifies this`inputs, this`subinputs, this`view
      ensures Valid() && view == Put(old(view), q, d) && |inputs| == old(|inputs|)
    {
      StoreWellFormed(view, q, d);
      if layout.inputsAt <= p < layout.inputsAt + |inputs| {
        inputs := inputs[p - layout.inputsAt := c];
      } else {
        subinputs := subinputs[p - layout.subAt := c];
      }
      view := Put(view, q, d);
    }

    method MoveTo(p: int, ghost q: Ptr)
      requires Valid() && Points(view, q) && p == Address(layout, q)
      modifies this`cur, this`view
      ensures Valid() && view == old(view).(cur := q)
    {
      cur, view := p, view.(cur := q);
    }

    /** The ".b" branch of `uw_set_input`. */
    method OpenGroup(n: int) returns (r: Status)
      requires Valid() && Allocates()
      modifies this
      ensures Valid() && Allocates() && Follows(old(view), OpenSubform(old(view), n), r)
    {
      if n < 0 || n >= |inputs| {
        return Bad;
      }
      ghost var before := view;
      var inps, ok := CheckInputSpace(|inputs|);
      if !ok {
        return Died;
      }
      var p := FieldAt(n);
      if p == 0 {
        return Died;
      }
      ghost var slot := Slot(view, n).value;
      Store(p, Subform(inps, cur), slot, Subform(Sub(|before.sub|), before.cur));
      MoveTo(p, slot);
      r := Ok;
    }

    /** The ".s" branch of `uw_set_input`. */
    method OpenTable(n: int) returns (r: Status)
      requires Valid() && Allocates()
      modifies this
      ensures Valid() && Allocates() && Follows(old(view), OpenSubforms(old(view), n), r)
    {
      if n < 0 || n >= |inputs| {
        return Bad;
      }
      var p := FieldAt(n);
      if p == 0 {
        return Died;
      }
      ghost var slot := Slot(view, n).value;
      Store(p, Subforms(0, cur), slot, Subforms(Null, view.cur));
      MoveTo(p, slot);
      r := Ok;
    }

    /** The ".e" branch of `uw_set_input`. */
    method CloseContainer() returns (r: Status)
      requires Valid() && Allocates()
      modifies this
      ensures Valid() && Allocates() && Follows(old(view), Close(old(view)), r)
    {
      if cur == 0 {
        return Bad;
      }
      var c, p := Load(cur), cur;
      ghost var q := view.cur;
      ghost var d := Get(view, q);
      assert CellPoints(view, d);
      match c
      case Subform(fields, parent) =>
        Store(p, Subform(fields, 0), q, Subform(d.fields, Null));
        MoveTo(parent, d.parent);
        r := Ok;
      case Subforms(entries, parent) =>
        Store(p, Subforms(entries, 0), q, Subforms(d.entries, Null));
        MoveTo(parent, d.parent);
        r := Ok;
      case Entry(_, _, parent) =>
        MoveTo(parent, d.parent);
        r := Ok;
      case Unset => r := Bad;
      case Normal(_) => r := Bad;
    }

    /** The ".i" branch of `uw_set_input`. */
    method OpenRow() returns (r: Status)
      requires Valid() && Allocates()
      modifies this
      ensures Valid() && Allocates() && Follows(old(view), OpenEntry(old(view)), r)
    {
      if cur == 0 || !Load(cur).Subforms? {
        return Bad;
      }
      ghost var before := view;
      var inps, ok := CheckInputSpace(|inputs| + 1);
      if !ok {
        return Died;
      }
      LinkRow(inps, before);
      r := Ok;
    }

    /** The new entry, before the earlier ones of the table. */
    method LinkRow(inps: int, ghost before: View)
      requires Valid() && In(before, before.cur) && Get(before, before.cur).Subforms? && WellFormed(before)
      requires view == before.(sub := before.sub + Unsets(|inputs| + 1)) && |before.top| == |inputs|
      requires inps == Address(layout, Sub(|before.sub|))
      modifies this`inputs, this`subinputs, this`view, this`cur
      ensures Valid() && OpenEntry(before) == Done(view) && |inputs| == old(|inputs|)
    {
      ghost var e, d := Sub(|before.sub|), Get(before, before.cur);
      assert CellPoints(before, d) && Get(view, view.cur) == d;
      RowView(before, d);
      var c := Load(cur);
      Store(inps, Entry(inps + 1, c.entries, cur), e, Entry(Sub(e.i + 1), d.entries, before.cur));
      Store(cur, Subforms(inps, c.parent), before.cur, Subforms(e, d.parent));
      MoveTo(inps, e);
    }

    /** The last branch of `uw_set_input`. */
    method SetNormal(n: int, text: string) returns (r: Status)
      requires Valid() && Allocates()
      modifies this
      ensures Valid() && Allocates() && Follows(old(view), SetText(old(view), n, text), r)
    {
      if n < 0 {
        return Ok;
      }
      if n >= |inputs| {
        return Bad;
      }
      var p := FieldAt(n);
      if p == 0 {
        return Died;
      }
      Store(p, Normal(text), Slot(view, n).value, Normal(text));
      r := Ok;
    }

    /** `uw_set_input` */
    method SetInput(name: string, value: string) returns (r: Status)
      requires Valid() && Allocates()
      modifies this
      ensures Valid() && Allocates() && Follows(old(view), InputStep(old(view), name, value, inputNum), r)
    {
      if IsControl(name, 'b') {
        r := OpenGroup(inputNum(value));
      } else if IsControl(name, 'e') {
        r := CloseContainer();
      } else if IsControl(name, 's') {
        r := OpenTable(inputNum(value));
      } else if IsControl(name, 'i') {
        r := OpenRow();
      } else {
        r := SetNormal(inputNum(name), value);
      }
    }

    // ---------------------------------------------------------------- readers

    /** `uw_get_input` */
    method GetInput(n: int) returns (ok: bool, text: Option<string>)
      requires Valid()
      ensures GetText(view, n) == if ok then Done(text) else Fatal
    {
      ok, text := false, None;
      if 0 <= n < |inputs| {
        var p := FieldAt(n);
        if p != 0 {
          var c := Load(p);
          ok := c.Unset? || c.Normal?;
          text := if c.Normal? then Some(c.text) else None;
        }
      }
    }

    /** `uw_enter_subform` */
    method Enter(n: int) returns (ok: bool)
      requires Valid()
      modifies this`inputs, this`subinputs, this`cur, this`view
      ensures Valid() && EnterSubform(old(view), n) == if ok then Done(view) else Fatal
    {
      ok := false;
      if 0 <= n < |inputs| {
        var p := FieldAt(n);
        if p != 0 && Load(p).Subform? {
          ghost var slot := Slot(view, n).value;
          ghost var d := Get(view, slot);
          assert CellPoints(view, d);
          Store(p, Subform(Load(p).fields, cur), slot, Subform(d.fields, view.cur));
          MoveTo(p, slot);
          ok := true;
        }
      }
    }

    /** `uw_leave_subform`, of a container of any kind; an error when there is none. */
    method Leave() returns (ok: bool)
      requires Valid() && (In(view, view.cur) ==> !Get(view, view.cur).Unset? && !Get(view, view.cur).Normal?)
      modifies this`inputs, this`subinputs, this`cur, this`view
      ensures Valid() && LeaveSubform(old(view)) == if ok then Done(view) else Fatal
    {
      if cur == 0 {
        return false;
      }
      ok := true;
      var c, p := Load(cur), cur;
      ghost var q := view.cur;
      ghost var d := Get(view, q);
      assert CellPoints(view, d);
      match c
      case Subform(fields, parent) =>
        Store(p, Subform(fields, 0), q, Subform(d.fields, Null));
        MoveTo(parent, d.parent);
      case Subforms(entries, parent) =>
        Store(p, Subforms(entries, 0), q, Subforms(d.entries, Null));
        MoveTo(parent, d.parent);
      case Entry(fields, next, parent) =>
        Store(p, Entry(fields, 0, parent), q, Entry(d.fields, Null, d.parent));
        MoveTo(next, d.next);
    }

    method EnterFirst(p: int, entries: int, ghost slot: Ptr)
      requires Valid() && In(view, slot) && p == Address(layout, slot) && Get(view, slot).Subforms?
      requires entries == Address(layout, Get(view, slot).entries)
      modifies this`inputs, this`subinputs, this`cur, this`view
      ensures
        var before, first := old(view), Get(old(view), slot).entries;
        Valid() && view == Put(before, slot, Subforms(first, before.cur)).(cur := first)
    {
      ghost var d := Get(view, slot);
      assert CellPoints(view, d);
      Store(p, Subforms(entries, cur), slot, Subforms(d.entries, view.cur));
      MoveTo(entries, d.entries);
    }

    /** `uw_enter_subforms` */
    method EnterAll(n: int) returns (ok: bool, status: bool)
      requires Valid()
      modifies this`inputs, this`subinputs, this`cur, this`view
      ensures Valid() && EnterSubforms(old(view), n) == if ok then Done((view, status)) else Fatal
    {
      ok, status := false, false;
      if 0 <= n < |inputs| {
        var p := FieldAt(n);
        if p != 0 {
          var c := Load(p);
          ok := c.Subforms?;
          if c.Subforms? && c.entries != 0 {
            EnterFirst(p, c.entries, Slot(view, n).value);
            status := true;
          }
        }
      }
    }

    /** The last entry of a table knows the cell of its table. */
    ghost predicate EntryHasTable()
      reads this`view
    {
      In(view, view.cur) && Get(view, view.cur).Entry? && Get(view, view.cur).next.Null? ==>
        In(view, Get(view, view.cur).parent) && Get(view, Get(view, view.cur).parent).Subforms?
    }

    /** `uw_next_entry`: whether there is one; nothing where it fails, in a container of another kind or in none. */
    method Next() returns (status: Option<bool>)
      requires Valid() && EntryHasTable()
      modifies this`cur, this`view
      ensures Valid() && NextEntry(old(view)) == if status.Some? then Done((view, status.value)) else Fatal
    {
      if cur == 0 {
        return None;
      }
      var c := Load(cur);
      if !c.Entry? {
        return None;
      }
      ghost var d := Get(view, view.cur);
      assert CellPoints(view, d);
      status := Some(c.next != 0);
      if c.next != 0 {
        MoveTo(c.next, d.next);
      } else {
        assert CellPoints(view, Get(view, d.parent));
        MoveTo(Load(c.parent).parent, Get(view, d.parent).parent);
      }
    }

    // ---------------------------------------------------------------- the compiled readers

    /** The code compiled for a record type: each field in turn. */
    method ReadFields(shapes: seq<Shape>, ghost p: Ptr, ghost b: seq<Tree>) returns (r: Option<seq<Value>>)
      requires Valid() && Ready(view, p, b)
      modifies this`inputs, this`subinputs, this`cur, this`view
      ensures r == ProjectAll(b, shapes) && Valid()
      ensures r.Some? ==> ReadFrame(old(view), view, p) && Ready(view, p, b)
      decreases shapes, 0
    {
      if shapes == [] {
        return Some([]);
      }
      ghost var before := view;
      var first := ReadField(shapes[0], p, b);
      if first.None? {
        return None;
      }
      ReadReady(before, view, p, b);
      ghost var between := view;
      var rest := ReadFields(shapes[1..], p, b);
      if rest.None? {
        return None;
      }
      ReadFrameTrans(before, between, view, p);
      r := Some([first.value] + rest.value);
    }

    method ReadField(shape: Shape, ghost p: Ptr, ghost b: seq<Tree>) returns (r: Option<Value>)
      requires Valid() && Ready(view, p, b)
      modifies this`inputs, this`subinputs, this`cur, this`view
      ensures r == Project(b, shape) && Valid()
      ensures r.Some? ==> ReadFrame(old(view), view, p)
      decreases shape, 0
    {
      match shape
      case TextShape(n) =>
        var ok, text := GetInput(n);
        TextRead(view, p, b, n);
        r := if ok then Some(TextValue(text)) else None;
      case GroupShape(n, fields) =>
        r := ReadGroup(n, fields, p, b);
      case TableShape(n, fields) =>
        r := ReadTable(n, fields, p, b);
    }

    /** Around the fields of a group, the calls that enter it and leave it. */
    method ReadGroup(n: int, fields: seq<Shape>, ghost p: Ptr, ghost b: seq<Tree>) returns (r: Option<Value>)
      requires Valid() && Ready(view, p, b)
      modifies this`inputs, this`subinputs, this`cur, this`view
      ensures r == Project(b, GroupShape(n, fields)) && Valid()
      ensures r.Some? ==> ReadFrame(old(view), view, p)
      decreases fields, 1
    {
      ghost var before := view;
      var ok := Enter(n);
      NotGroup(before, p, b, n);
      if !ok {
        return None;
      }
      ghost var inner := b[n].block;
      ghost var entered := view;
      Entered(before, p, b, n, inner);
      var values := ReadFields(fields, Get(before, Plus(p, n)).fields, inner);
      if values.None? {
        return None;
      }
      Left(before, p, b, n, inner, entered, view);
      var left := Leave();
      r := Some(RecordValue(values.value));
    }

    /** The loop over the rows of a table: the list is built from its end. */
    method ReadTable(n: int, fields: seq<Shape>, ghost p: Ptr, ghost b: seq<Tree>) returns (r: Option<Value>)
      requires Valid() && Ready(view, p, b)
      modifies this`inputs, this`subinputs, this`cur, this`view
      ensures r == Project(b, TableShape(n, fields)) && Valid()
      ensures r.Some? ==> ReadFrame(old(view), view, p)
      decreases fields, 3
    {
      ghost var before := view;
      var ok, status := EnterAll(n);
      NotTable(before, p, b, n);
      if !ok {
        return None;
      }
      ghost var rows, slot, lo := b[n].rows, Plus(p, n), After(p, |b|);
      EnteredRows(before, p, b, n, rows);
      ghost var entered := view;
      var list := ReadRows(status, fields, slot, before.cur, lo, rows);
      if list.None? {
        return None;
      }
      RowsRead(before, p, b, n, entered, view);
      r := Some(ListValue(list.value));
    }

    method ReadRows(status0: bool, fields: seq<Shape>, ghost slot: Ptr, ghost parent: Ptr, ghost lo: nat,
                    ghost rows: seq<Block>)
      returns (r: Option<seq<Record>>)
      requires Valid() && status0 == (rows != []) && (status0 ==> AtRow(view, slot, parent, lo, rows))
      requires !status0 ==> view.cur == parent
      modifies this`inputs, this`subinputs, this`cur, this`view
      ensures r == ProjectRows(rows, fields) && Valid()
      ensures r.Some? ==> RowsFrame(old(view), view, lo) && view.cur == parent
      decreases fields, 2
    {
      var status, list := status0, [];
      ghost var k: nat := |rows|;
      ghost var before := view;
      assert rows[..k] == rows && rows[k..] == [];
      while status
        invariant Valid() && k <= |rows| && status == (k > 0) && ProjectRows(rows[k..], fields) == Some(list)
        invariant status ==> AtRow(view, slot, parent, lo, rows[..k])
        invariant !status ==> view.cur == parent
        invariant RowsFrame(before, view, lo)
        decreases k
      {
        ghost var at := view;
        assert rows[k - 1..][1..] == rows[k..] && rows[..k][..k - 1] == rows[..k - 1];
        var row;
        row, status := ReadRow(fields, slot, parent, lo, rows[..k]);
        if row.None? {
          RowsFail(rows, k - 1, fields);
          return None;
        }
        list := [Record(row.value)] + list;
        RowsFrameTrans(before, at, view, lo);
        k := k - 1;
      }
      assert rows[0..] == rows;
      r := Some(list);
    }

    /** One turn of the loop: a row is read, and the next one entered. */
    method ReadRow(fields: seq<Shape>, ghost slot: Ptr, ghost parent: Ptr, ghost lo: nat, ghost rows: seq<Block>)
      returns (r: Option<seq<Value>>, status: bool)
      requires Valid() && AtRow(view, slot, parent, lo, rows)
      modifies this`inputs, this`subinputs, this`cur, this`view
      ensures r == ProjectAll(rows[|rows| - 1].fields, fields) && Valid()
      ensures r.Some? ==> RowsFrame(old(view), view, lo) && status == (|rows| > 1)
      ensures r.Some? && status ==> AtRow(view, slot, parent, lo, rows[..|rows| - 1])
      ensures r.Some? && !status ==> view.cur == parent
      decreases fields, 1
    {
      ghost var at := view;
      RowReady(at, slot, parent, lo, rows);
      r := ReadFields(fields, Sub(view.cur.i + 1), rows[|rows| - 1].fields);
      status := false;
      if r.Some? {
        RowDone(at, slot, parent, lo, rows, view);
        var next := Next();
        status := next == Some(true);
      }
    }

    // ---------------------------------------------------------------- a request

    /** The inputs of a request in turn, up to the first that fails. */
    method SetAll(given: seq<Input>) returns (r: Status)
      requires Valid() && Allocates()
      modifies this
      ensures Valid() && Allocates()
      ensures match Run(old(view), given, inputNum)
              case Done(after) =>
                (r == Ok && view == after) || (r == Died && |old(view.sub)| + Cost(given, |old(view.top)|) > max)
              case Rejected => r == Bad || (r == Died && |old(view.sub)| + Cost(given, |old(view.top)|) > max)
              case Fatal => r == Died
    {
      var i := 0;
      assert given[0..] == given;
      ghost var len := |view.top|;
      while i < |given|
        invariant i <= |given| && Valid() && Allocates() && |view.top| == len
        invariant Run(old(view), given, inputNum) == Run(view, given[i..], inputNum)
        invariant |view.sub| + Cost(given[i..], len) <= |old(view.sub)| + Cost(given, len)
      {
        assert given[i..][1..] == given[i + 1..];
        ghost var before := view;
        r := SetInput(given[i].name, given[i].value);
        StepGrows(before, given[i], inputNum);
        if r != Ok {
          return;
        }
        i := i + 1;
      }
      r := Ok;
    }

    /** A form sent by a browser and read by the code compiled for its type. */
    method Request(form: seq<Field>, shapes: seq<Shape>) returns (status: Status, values: Option<seq<Value>>)
      requires Valid() && Allocates() && NamesOk(form)
      requires view == View(Unsets(|inputs|), [], Null)
      modifies this
      ensures Cost(Encode(form), |old(inputs)|) <= max ==> status != Died
      ensures status != Died ==> values == Meaning(form, shapes, |old(inputs)|, inputNum)
    {
      ghost var b := Blank(|inputs|);
      assert HoldsFields(view, Top(0), 0, b);
      Feed(view, Top(0), b, form, inputNum);
      status := SetAll(Encode(form));
      values := None;
      if status == Ok {
        values := ReadFields(shapes, Top(0), Fill(b, form, inputNum).value);
      }
    }
  }

  /** How many cells an input takes at most. */
  function Cost(given: seq<Input>, len: nat): nat {
    if given == [] then 0
    else
      (if IsControl(given[0].name, 'b') then len else if IsControl(given[0].name, 'i') then len + 1 else 0)
      + Cost(given[1..], len)
  }

  lemma StepGrows(v: View, i: Input, inputNum: string -> int)
    ensures
      var o := InputStep(v, i.name, i.value, inputNum);
      o.Done? ==> |o.value.top| == |v.top| && |o.value.sub| == |v.sub| + Cost([i], |v.top|)
  {
  }

  lemma ReadFrameTrans(u: View, v: View, w: View, p: Ptr)
    requires ReadFrame(u, v, p) && ReadFrame(v, w, p)
    ensures ReadFrame(u, w, p)
  {
    forall q | In(u, q) ensures WithoutParent(Get(w, q)) == WithoutParent(Get(u, q)) {
      assert WithoutParent(Get(v, q)) == WithoutParent(Get(u, q));
      assert WithoutParent(Get(w, q)) == WithoutParent(Get(v, q));
    }
    forall i | 0 <= i < |u.sub| && p.Sub? && i < p.i ensures w.sub[i] == u.sub[i] {
      assert v.sub[i] == u.sub[i];
    }
  }

  /** A text field is read as one exactly when it is one. */
  lemma TextRead(v: View, p: Ptr, b: seq<Tree>, n: int)
    requires Ready(v, p, b)
    ensures GetText(v, n) == match Project(b, TextShape(n)) case Some(value) => Done(value.text) case None => Fatal
  {
    if 0 <= n < |b| {
      assert Holds(v, Plus(p, n), After(p, |b|), b[n]);
    }
  }

  lemma NotGroup(v: View, p: Ptr, b: seq<Tree>, n: int)
    requires Ready(v, p, b)
    ensures EnterSubform(v, n).Done? <==> 0 <= n < |b| && b[n].Branch?
  {
    if 0 <= n < |b| {
      assert Holds(v, Plus(p, n), After(p, |b|), b[n]);
    }
  }

  lemma NotTable(v: View, p: Ptr, b: seq<Tree>, n: int)
    requires Ready(v, p, b)
    ensures EnterSubforms(v, n).Done? <==> 0 <= n < |b| && b[n].Rows?
  {
    if 0 <= n < |b| {
      assert Holds(v, Plus(p, n), After(p, |b|), b[n]);
    }
  }

  lemma RowView(v: View, d: Cell<Ptr>)
    requires In(v, v.cur) && Get(v, v.cur) == d && d.Subforms?
    ensures
      var e := Sub(|v.sub|);
      var v1 := v.(sub := v.sub + Unsets(|v.top| + 1));
      var v2 := Put(v1, e, Entry(Sub(e.i + 1), d.entries, v.cur));
      OpenEntry(v) == Done(Put(v2, v.cur, Subforms(e, d.parent)).(cur := e))
  {
    var e := Sub(|v.sub|);
    var entry := Entry(Sub(e.i + 1), d.entries, v.cur);
    assert (v.sub + Unsets(|v.top| + 1))[e.i := entry] == v.sub + [entry] + Unsets(|v.top|);
  }

  lemma StoreWellFormed(v: View, q: Ptr, d: Cell<Ptr>)
    requires WellFormed(v) && In(v, q) && CellPoints(v, d)
    ensures WellFormed(Put(v, q, d))
  {
    var w := Put(v, q, d);
    forall i {:trigger w.top[i]} | 0 <= i < |w.top| ensures CellPoints(w, w.top[i]) {
      assert CellPoints(v, v.top[i]);
    }
    forall i {:trigger w.sub[i]} | 0 <= i < |w.sub| ensures CellPoints(w, w.sub[i]) {
      assert CellPoints(v, v.sub[i]);
    }
  }

  ghost predicate AllPlaced(l: Layout, cells: seq<Cell<int>>, view: seq<Cell<Ptr>>) {
    |view| <= |cells| && forall i {:trigger cells[i]} :: 0 <= i < |view| ==> cells[i] == Placed(l, view[i])
  }

  lemma AllRelocated(l: Layout, at: int, v: View, sub: seq<Cell<int>>, sub': seq<Cell<int>>, top: seq<Cell<int>>,
                     top': seq<Cell<int>>)
    requires WellFormed(v) && Apart(l, |v.top|, |v.sub|) && AllPlaced(l, sub, v.sub) && AllPlaced(l, top, v.top)
    requires |sub'| >= |v.sub| && |top'| >= |v.top|
    requires forall j {:trigger sub'[j]} :: 0 <= j < |v.sub| ==> sub'[j] == AdjustInput(sub[j], l.subAt, at, |v.sub|)
    requires forall j {:trigger top'[j]} :: 0 <= j < |v.top| ==> top'[j] == AdjustInput(top[j], l.subAt, at, |v.sub|)
    ensures AllPlaced(l.(subAt := at), sub', v.sub) && AllPlaced(l.(subAt := at), top', v.top)
    ensures AdjustPointer(Address(l, v.cur), l.subAt, at, |v.sub|) == Address(l.(subAt := at), v.cur)
  {
    Relocated(l, at, v, v.cur);
    forall i {:trigger sub'[i]} | 0 <= i < |v.sub| ensures sub'[i] == Placed(l.(subAt := at), v.sub[i]) {
      RelocatedInput(l, at, v, v.sub[i]);
    }
    forall i {:trigger top'[i]} | 0 <= i < |v.top| ensures top'[i] == Placed(l.(subAt := at), v.top[i]) {
      RelocatedInput(l, at, v, v.top[i]);
    }
  }

  lemma SpaceAdded(l: Layout, before: seq<Cell<int>>, cells: seq<Cell<int>>, v: View, len: nat)
    requires WellFormed(v) && v.top != [] && AllPlaced(l, before, v.sub) && |before| == |cells| >= |v.sub| + len
    requires cells[..|v.sub|] == before[..|v.sub|] && forall j :: |v.sub| <= j < |v.sub| + len ==> cells[j] == Unset
    ensures AllPlaced(l, cells, v.sub + Unsets(len)) && WellFormed(v.(sub := v.sub + Unsets(len)))
  {
    var w := v.(sub := v.sub + Unsets(len));
    forall i {:trigger cells[i]} | 0 <= i < |w.sub| ensures cells[i] == Placed(l, w.sub[i]) {
      if i < |v.sub| {
        assert cells[i] == cells[..|v.sub|][i] == before[i];
      }
    }
    forall i {:trigger w.sub[i]} | 0 <= i < |w.sub| ensures CellPoints(w, w.sub[i]) {
      if i < |v.sub| {
        assert CellPoints(v, v.sub[i]);
      }
    }
    forall i {:trigger w.top[i]} | 0 <= i < |w.top| ensures CellPoints(w, w.top[i]) {
      assert CellPoints(v, v.top[i]);
    }
  }
}
