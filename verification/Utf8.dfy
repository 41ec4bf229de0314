/** Strings of code points: as UTF-8 bytes on the server, as UTF-16 units in the browser. */
module Utf8 {

  datatype Option<T> = None | Some(value: T)

  /** A code point that a string may hold: a Unicode scalar value other than zero. */
  predicate Scalar(c: int) {
    0 < c <= 0x10FFFF && !(0xD800 <= c <= 0xDFFF)
  }

  ghost predicate Scalars(cs: seq<int>) {
    forall i {:trigger cs[i]} :: 0 <= i < |cs| ==> Scalar(cs[i])
  }

  // ---------------------------------------------------------------- UTF-8 (RFC 3629, section 3)

  function Width(c: int): (w: nat)
    ensures 1 <= w <= 4
  {
    if c < 0x80 then 1 else if c < 0x800 then 2 else if c < 0x10000 then 3 else 4
  }

  /** Byte `j` of a character of `w` bytes: the first has the length in its high bits, each
      holds six bits of the rest. */
  function ByteOf(c: int, w: nat, j: nat): int
    requires j < w <= 4
  {
    var bits := match w - 1 - j case 0 => c case 1 => c / 64 case 2 => c / 4096 case _ => c / 262144;
    if j > 0 then 0x80 + bits % 64
    else bits + match w case 1 => 0 case 2 => 0xC0 case 3 => 0xE0 case _ => 0xF0
  }

  function Encode1(c: int): (b: seq<int>)
    ensures 1 <= |b| == Width(c) <= 4
  {
    var w := Width(c);
    seq(w, j requires 0 <= j < w <= 4 => ByteOf(c, w, j))
  }

  function Encode(cs: seq<int>): (b: seq<int>)
    requires Scalars(cs)
  {
    if cs == [] then [] else Encode1(cs[0]) + Encode(cs[1..])
  }

  /** A byte that begins a character, and one that continues one. */
  predicate Lead(b: int) {
    0 < b < 0x80 || 0xC0 <= b < 0xF8
  }

  predicate Trail(b: int) {
    0x80 <= b < 0xC0
  }

  function LeadLength(b: int): nat {
    if b < 0x80 then 1 else if b < 0xE0 then 2 else if b < 0xF0 then 3 else 4
  }

  /** What `U8_NEXT` makes of the bytes from `i` on, when they begin with a whole character. */
  function Decode1(s: seq<int>, i: nat): int
    requires i < |s| && i + LeadLength(s[i]) <= |s|
  {
    match LeadLength(s[i])
    case 1 => s[i]
    case 2 => (s[i] - 0xC0) * 64 + (s[i + 1] - 0x80)
    case 3 => (s[i] - 0xE0) * 4096 + (s[i + 1] - 0x80) * 64 + (s[i + 2] - 0x80)
    case _ => (s[i] - 0xF0) * 262144 + (s[i + 1] - 0x80) * 4096 + (s[i + 2] - 0x80) * 64 + (s[i + 3] - 0x80)
  }

  lemma EncodeShape(c: int)
    requires Scalar(c)
    ensures var b := Encode1(c); Lead(b[0]) && |b| == LeadLength(b[0]) && forall j {:trigger b[j]} ::
      0 < j < |b| ==> Trail(b[j])
  {
  }

  lemma DecodeBytes(c: int)
    requires Scalar(c)
    ensures var b := Encode1(c); |b| == LeadLength(b[0]) && Decode1(b, 0) == c
  {
    var b := Encode1(c);
    EncodeShape(c);
    Digits(c);
    match Width(c)
    case 1 =>
    case 2 => assert b[0] == 0xC0 + c / 64 && b[1] == 0x80 + c % 64;
    case 3 => assert b[0] == 0xE0 + c / 4096 && b[1] == 0x80 + c / 64 % 64 && b[2] == 0x80 + c % 64;
    case _ =>
      assert b[0] == 0xF0 + c / 262144 && b[1] == 0x80 + c / 4096 % 64 && b[2] == 0x80 + c / 64 % 64
        && b[3] == 0x80 + c % 64;
  }

  lemma Digits(c: int)
    ensures c == 64 * (c / 64) + c % 64
    ensures c / 64 == 64 * (c / 4096) + c / 64 % 64
    ensures c / 4096 == 64 * (c / 262144) + c / 4096 % 64
  {
  }

  lemma DecodeSame(s: seq<int>, i: nat, b: seq<int>)
    requires b != [] && |b| == LeadLength(b[0]) && i + |b| <= |s| && s[i..i + |b|] == b
    ensures s[i] == b[0] && Decode1(s, i) == Decode1(b, 0)
  {
    forall j {:trigger b[j]} | 0 <= j < |b| ensures s[i + j] == b[j] {
      assert s[i..i + |b|][j] == s[i + j];
    }
  }

  lemma DecodeEncoded(s: seq<int>, i: nat, c: int)
    requires Scalar(c) && i + |Encode1(c)| <= |s| && s[i..i + |Encode1(c)|] == Encode1(c)
    ensures i + LeadLength(s[i]) <= |s| && |Encode1(c)| == LeadLength(s[i]) && Decode1(s, i) == c && Lead(s[i])
  {
    EncodeShape(c);
    DecodeBytes(c);
    DecodeSame(s, i, Encode1(c));
  }

  lemma {:induction false} EncodeConcat(a: seq<int>, b: seq<int>)
    requires Scalars(a) && Scalars(b)
    ensures Scalars(a + b) && Encode(a + b) == Encode(a) + Encode(b)
  {
    if a == [] {
      assert a + b == b;
    } else {
      var ab := a + b;
      assert ab[0] == a[0] && ab[1..] == a[1..] + b;
      EncodeConcat(a[1..], b);
      Associate(Encode1(a[0]), Encode(a[1..]), Encode(b));
      assert Encode(ab) == Encode1(ab[0]) + Encode(ab[1..]);
    }
  }

  lemma Associate(a: seq<int>, b: seq<int>, c: seq<int>)
    ensures a + b + c == a + (b + c)
  {
  }

  /** The byte offset of character `i`. */
  function Offset(cs: seq<int>, i: nat): nat
    requires Scalars(cs) && i <= |cs|
  {
    |Encode(cs[..i])|
  }

  /** The bytes around character `i`. */
  lemma At(cs: seq<int>, i: nat)
    requires Scalars(cs) && i < |cs|
    ensures
      var s, o, w := Encode(cs), Offset(cs, i), |Encode1(cs[i])|;
      && o + w <= |s| && Offset(cs, i + 1) == o + w && s[o..o + w] == Encode1(cs[i])
      && s[..o] == Encode(cs[..i]) && s[o..] == Encode(cs[i..])
  {
    Around(cs, i);
    Pieces(Encode(cs[..i]), Encode1(cs[i]), Encode(cs[i + 1..]));
  }

  lemma Around(cs: seq<int>, i: nat)
    requires Scalars(cs) && i < |cs|
    ensures Encode(cs) == Encode(cs[..i]) + (Encode1(cs[i]) + Encode(cs[i + 1..]))
    ensures Encode(cs[i..]) == Encode1(cs[i]) + Encode(cs[i + 1..])
    ensures |Encode(cs[..i + 1])| == |Encode(cs[..i])| + |Encode1(cs[i])|
  {
    Slices(cs, i);
    EncodeAround(cs[..i], cs[i], cs[i + 1..]);
  }

  lemma Slices(cs: seq<int>, i: nat)
    requires i < |cs|
    ensures cs == cs[..i] + ([cs[i]] + cs[i + 1..]) && cs[i..] == [cs[i]] + cs[i + 1..]
    ensures cs[..i + 1] == cs[..i] + [cs[i]]
  {
  }

  lemma EncodeAround(p: seq<int>, c: int, t: seq<int>)
    requires Scalars(p) && Scalar(c) && Scalars(t)
    ensures Scalars([c] + t) && Scalars(p + [c]) && Scalars(p + ([c] + t))
    ensures Encode([c] + t) == Encode1(c) + Encode(t) && Encode(p + [c]) == Encode(p) + Encode1(c)
    ensures Encode(p + ([c] + t)) == Encode(p) + (Encode1(c) + Encode(t))
  {
    EncodeCons(c, t);
    EncodeOne(c);
    EncodeConcat(p, [c] + t);
    EncodeConcat(p, [c]);
  }

  lemma EncodeCons(c: int, cs: seq<int>)
    requires Scalar(c) && Scalars(cs)
    ensures Scalars([c] + cs) && Encode([c] + cs) == Encode1(c) + Encode(cs)
  {
    assert ([c] + cs)[1..] == cs;
  }

  lemma Pieces(a: seq<int>, c: seq<int>, z: seq<int>)
    ensures
      var s := a + (c + z);
      s[|a|..|a| + |c|] == c && s[..|a|] == a && s[|a|..] == c + z
  {
  }

  /** Reading one character at a character's offset. */
  lemma NextAt(cs: seq<int>, i: nat)
    requires Scalars(cs) && i < |cs|
    ensures
      var s, o := Encode(cs), Offset(cs, i);
      && o < |s| && o + LeadLength(s[o]) <= |s| && Lead(s[o])
      && Decode1(s, o) == cs[i] && o + LeadLength(s[o]) == Offset(cs, i + 1)
  {
    At(cs, i);
    DecodeEncoded(Encode(cs), Offset(cs, i), cs[i]);
  }

  lemma Ends(cs: seq<int>)
    requires Scalars(cs)
    ensures Offset(cs, 0) == 0 && Offset(cs, |cs|) == |Encode(cs)|
  {
    assert cs[..|cs|] == cs;
  }

  /** Only the end of a string is at the end of its bytes. */
  lemma {:induction false} OffsetsGrow(cs: seq<int>, i: nat, j: nat)
    requires Scalars(cs) && i <= j <= |cs|
    ensures Offset(cs, i) + (j - i) <= Offset(cs, j)
    decreases j - i
  {
    if i < j {
      At(cs, i);
      OffsetsGrow(cs, i + 1, j);
    }
  }

  // ---------------------------------------------------------------- scanning bytes

  /** The byte at an offset, with the terminating zero. */
  function Byte(s: seq<int>, i: nat): int
    requires i <= |s|
  {
    if i == |s| then 0 else s[i]
  }

  lemma ByteZero(cs: seq<int>, i: nat)
    requires Scalars(cs) && i <= |cs|
    ensures Offset(cs, i) <= |Encode(cs)|
    ensures Byte(Encode(cs), Offset(cs, i)) == 0 <==> i == |cs|
  {
    Ends(cs);
    if i < |cs| {
      NextAt(cs, i);
    }
  }

  /** `uw_Basis_strlen` */
  method Strlen(s: seq<int>, ghost cs: seq<int>) returns (n: nat)
    requires Scalars(cs) && s == Encode(cs)
    ensures n == |cs|
  {
    var offset := 0;
    n := 0;
    Ends(cs);
    ByteZero(cs, 0);
    while Byte(s, offset) != 0
      invariant n <= |cs| && offset == Offset(cs, n) <= |s|
      invariant Byte(s, offset) == 0 <==> n == |cs|
      decreases |cs| - n
    {
      NextAt(cs, n);
      offset := offset + LeadLength(s[offset]);
      n := n + 1;
      ByteZero(cs, n);
    }
  }

  /** `uw_Basis_strlenGe` */
  method StrlenGe(s: seq<int>, n: int, ghost cs: seq<int>) returns (r: bool)
    requires Scalars(cs) && s == Encode(cs)
    ensures r <==> |cs| >= n
  {
    var offset, left := 0, n;
    ghost var k: nat := 0;
    Ends(cs);
    while left > 0
      invariant k <= |cs| && offset == Offset(cs, k) && (left == n - k || (k == 0 && left == n)) && (left >= 0 || n < 0)
      decreases left
    {
      ByteZero(cs, k);
      if Byte(s, offset) == 0 {
        return false;
      }
      NextAt(cs, k);
      offset := offset + LeadLength(s[offset]);
      left := left - 1;
      k := k + 1;
    }
    r := true;
  }

  /** `uw_Basis_strsub`; nothing where the source stops with an error. */
  method Strsub(s: seq<int>, n: int, ghost cs: seq<int>) returns (r: Option<int>)
    requires Scalars(cs) && s == Encode(cs)
    ensures r == if 0 <= n < |cs| then Some(cs[n]) else None
  {
    var offset, left := 0, n;
    ghost var k: nat := 0;
    Ends(cs);
    while left >= 0
      invariant k <= |cs| && offset == Offset(cs, k) && left == n - k && (left >= 0 || n < 0)
      decreases left
    {
      ByteZero(cs, k);
      if Byte(s, offset) == 0 {
        return None;
      }
      NextAt(cs, k);
      var c := Decode1(s, offset);
      offset := offset + LeadLength(s[offset]);
      if left == 0 {
        return Some(c);
      }
      left := left - 1;
      k := k + 1;
    }
    r := None;
  }

  /** `uw_Basis_strsuffix` */
  method Strsuffix(s: seq<int>, n: int, ghost cs: seq<int>) returns (r: Option<seq<int>>)
    requires Scalars(cs) && s == Encode(cs)
    ensures r == if n < 0 then None else Some(Encode(if n <= |cs| then cs[n..] else []))
  {
    var offset, left := 0, n;
    ghost var k: nat := 0;
    Ends(cs);
    while left >= 0
      invariant k <= |cs| && offset == Offset(cs, k) && left == n - k && (left >= 0 || n < 0)
      decreases left
    {
      ByteZero(cs, k);
      if Byte(s, offset) == 0 || left == 0 {
        Suffix(cs, k);
        return Some(s[offset..]);
      }
      NextAt(cs, k);
      offset := offset + LeadLength(s[offset]);
      left := left - 1;
      k := k + 1;
    }
    r := None;
  }

  lemma Suffix(cs: seq<int>, k: nat)
    requires Scalars(cs) && k <= |cs|
    ensures Offset(cs, k) <= |Encode(cs)| && Encode(cs)[Offset(cs, k)..] == Encode(cs[k..])
    ensures Encode(cs)[..Offset(cs, k)] == Encode(cs[..k])
  {
    assert cs[..k] + cs[k..] == cs;
    EncodeConcat(cs[..k], cs[k..]);
  }

  /** The first position of a character, or the length. */
  function IndexOf(cs: seq<int>, c: int): (i: nat)
    ensures i <= |cs|
  {
    if cs == [] || cs[0] == c then 0 else 1 + IndexOf(cs[1..], c)
  }

  lemma {:induction false} IndexOfFirst(cs: seq<int>, c: int, i: nat)
    requires i <= |cs| && (forall j :: 0 <= j < i ==> cs[j] != c) && (i < |cs| ==> cs[i] == c)
    ensures IndexOf(cs, c) == i
  {
    if i > 0 {
      IndexOfFirst(cs[1..], c, i - 1);
    }
  }

  /** `aux_strchr`: the index and the byte offset of the first occurrence, or -1 for both. */
  method AuxStrchr(s: seq<int>, ch: int, ghost cs: seq<int>) returns (idx: int, at: int)
    requires Scalars(cs) && s == Encode(cs)
    ensures
      var i := IndexOf(cs, ch);
      if i < |cs| then idx == i && at == Offset(cs, i) else idx == -1 && at == -1
  {
    var offset, offsetpr, k: nat := 0, 0, 0;
    Ends(cs);
    ByteZero(cs, 0);
    while Byte(s, offset) != 0
      invariant k <= |cs| && offset == offsetpr == Offset(cs, k) <= |s|
      invariant Byte(s, offset) == 0 <==> k == |cs|
      invariant forall j :: 0 <= j < k ==> cs[j] != ch
      decreases |cs| - k
    {
      NextAt(cs, k);
      var c := Decode1(s, offset);
      offset := offset + LeadLength(s[offset]);
      if c == ch {
        IndexOfFirst(cs, ch, k);
        return k, offsetpr;
      }
      offsetpr := offset;
      k := k + 1;
      ByteZero(cs, k);
    }
    IndexOfFirst(cs, ch, k);
    idx, at := -1, -1;
  }

  /** `uw_Basis_strchr`: the rest of the string from the first occurrence. */
  method Strchr(s: seq<int>, ch: int, ghost cs: seq<int>) returns (r: Option<seq<int>>)
    requires Scalars(cs) && s == Encode(cs)
    ensures r == if ch in cs then Some(Encode(cs[IndexOf(cs, ch)..])) else None
  {
    var idx, at := AuxStrchr(s, ch, cs);
    IndexOfIn(cs, ch);
    if idx > -1 {
      Suffix(cs, IndexOf(cs, ch));
      r := Some(s[at..]);
    } else {
      r := None;
    }
  }

  lemma {:induction false} IndexOfIn(cs: seq<int>, c: int)
    ensures c in cs <==> IndexOf(cs, c) < |cs|
  {
    if cs != [] && cs[0] != c {
      IndexOfIn(cs[1..], c);
      assert c in cs <==> c in cs[1..];
    }
  }

  /** `uw_Basis_strindex` */
  method Strindex(s: seq<int>, ch: int, ghost cs: seq<int>) returns (r: Option<int>)
    requires Scalars(cs) && s == Encode(cs)
    ensures r == if ch in cs then Some(IndexOf(cs, ch)) else None
  {
    var idx, at := AuxStrchr(s, ch, cs);
    IndexOfIn(cs, ch);
    r := if idx == -1 then None else Some(idx);
  }

  /** How many characters come before the first that is one of `chs`. */
  function Span(cs: seq<int>, chs: seq<int>): (n: nat)
    ensures n <= |cs|
  {
    if cs == [] || cs[0] in chs then 0 else 1 + Span(cs[1..], chs)
  }

  lemma {:induction false} SpanFirst(cs: seq<int>, chs: seq<int>, i: nat)
    requires i <= |cs| && (forall j :: 0 <= j < i ==> cs[j] !in chs) && (i < |cs| ==> cs[i] in chs)
    ensures Span(cs, chs) == i
  {
    if i > 0 {
      SpanFirst(cs[1..], chs, i - 1);
    }
  }

  /** `uw_Basis_strcspn` */
  method Strcspn(s: seq<int>, chars: seq<int>, ghost cs: seq<int>, ghost chs: seq<int>) returns (n: nat)
    requires Scalars(cs) && s == Encode(cs) && Scalars(chs) && chars == Encode(chs)
    ensures n == Span(cs, chs)
  {
    var offset := 0;
    n := 0;
    Ends(cs);
    ByteZero(cs, 0);
    while Byte(s, offset) != 0
      invariant n <= |cs| && offset == Offset(cs, n) <= |s|
      invariant Byte(s, offset) == 0 <==> n == |cs|
      invariant forall j :: 0 <= j < n ==> cs[j] !in chs
      decreases |cs| - n
    {
      NextAt(cs, n);
      var c := Decode1(s, offset);
      offset := offset + LeadLength(s[offset]);
      var idx, at := AuxStrchr(chars, c, chs);
      IndexOfIn(chs, c);
      if idx > -1 {
        SpanFirst(cs, chs, n);
        return;
      }
      n := n + 1;
      ByteZero(cs, n);
    }
    SpanFirst(cs, chs, n);
  }

  /** `U8_FWD_N`: past at most `n` characters. */
  method Forward(s: seq<int>, start: nat, n: int, ghost cs: seq<int>, ghost i: nat) returns (offset: nat, ghost k: nat)
    requires Scalars(cs) && s == Encode(cs) && i <= |cs| && start == Offset(cs, i)
    ensures k <= |cs| && offset == Offset(cs, k) <= |s|
    ensures k == if n < 0 then i else if i + n <= |cs| then i + n else |cs|
  {
    offset, k := start, i;
    var left := n;
    ByteZero(cs, k);
    while left > 0 && Byte(s, offset) != 0
      invariant i <= k <= |cs| && offset == Offset(cs, k) <= |s|
      invariant left == n - (k - i) && (left >= 0 || k == i)
      invariant Byte(s, offset) == 0 <==> k == |cs|
      decreases |cs| - k
    {
      NextAt(cs, k);
      offset := offset + LeadLength(s[offset]);
      left := left - 1;
      k := k + 1;
      ByteZero(cs, k);
    }
  }

  lemma Middle(cs: seq<int>, i: nat, j: nat)
    requires Scalars(cs) && i <= j <= |cs|
    ensures Offset(cs, i) <= Offset(cs, j) <= |Encode(cs)|
    ensures Encode(cs)[Offset(cs, i)..Offset(cs, j)] == Encode(cs[i..j])
  {
    Suffix(cs, j);
    OffsetsGrow(cs, i, j);
    assert cs[..j][..i] == cs[..i] && cs[..j][i..] == cs[i..j];
    Suffix(cs[..j], i);
    assert Encode(cs)[Offset(cs, i)..Offset(cs, j)] == Encode(cs)[..Offset(cs, j)][Offset(cs, i)..];
  }

  /** `uw_Basis_substring`; nothing where the source stops with an error. */
  method Substring(s: seq<int>, start: int, len: int, ghost cs: seq<int>) returns (r: Option<seq<int>>)
    requires Scalars(cs) && s == Encode(cs)
    ensures r == if 0 <= start && 0 <= len && start + len <= |cs| then Some(Encode(cs[start..start + len])) else None
  {
    var fullLen := Strlen(s, cs);
    if start < 0 || len < 0 || start + len > fullLen {
      return None;
    }
    Ends(cs);
    var offset, end;
    ghost var i, j;
    offset, i := Forward(s, 0, start, cs, 0);
    if start + len == fullLen {
      Suffix(cs, start);
      assert cs[start..] == cs[start..start + len];
      return Some(s[offset..]);
    }
    end, j := Forward(s, offset, len, cs, start);
    Middle(cs, start, start + len);
    r := Some(s[offset..end]);
  }

  /** A string of one character encodes to that character's bytes. */
  lemma EncodeOne(c: int)
    requires Scalar(c)
    ensures Encode([c]) == Encode1(c)
  {
    assert [c][1..] == [];
  }

  /** `U8_APPEND_UNSAFE` */
  method Append(r: array<int>, i0: nat, c: int) returns (i: nat)
    requires 0 <= c && i0 + |Encode1(c)| <= r.Length
    modifies r
    ensures i == i0 + |Encode1(c)| && r[..] == old(r[..i0]) + Encode1(c) + old(r[i..])
  {
    i := i0;
    if c <= 0x7F {
      r[i], i := c, i + 1;
    } else {
      if c <= 0x7FF {
        r[i], i := c / 64 + 0xC0, i + 1;
      } else {
        if c <= 0xFFFF {
          r[i], i := c / 4096 + 0xE0, i + 1;
        } else {
          r[i], i := c / 262144 + 0xF0, i + 1;
          r[i], i := c / 4096 % 64 + 0x80, i + 1;
        }
        r[i], i := c / 64 % 64 + 0x80, i + 1;
      }
      r[i], i := c % 64 + 0x80, i + 1;
    }
  }

  /** `U8_LENGTH` */
  function U8Length(c: int): nat {
    if c <= 0x7F then 1
    else if c <= 0x7FF then 2
    else if c <= 0xD7FF then 3
    else if c <= 0xDFFF || c > 0x10FFFF then 0
    else if c <= 0xFFFF then 3
    else 4
  }

  /** `uw_Basis_str1`: the bytes of the character and a zero fill what it reserves. */
  method Str1(c: int) returns (r: array<int>)
    requires Scalar(c)
    ensures fresh(r) && r[..] == Encode([c]) + [0]
  {
    var req := U8Length(c);
    r := new int[req + 1];
    var offset := Append(r, 0, c);
    r[req] := 0;
    EncodeOne(c);
    assert r[..] == Encode1(c) + [0];
  }

  /** What is appended for a code point is what `U8_LENGTH` says exactly when it is a scalar value, or zero. */
  lemma AppendedLength(c: int)
    requires c >= 0
    ensures |Encode1(c)| == U8Length(c) <==> c == 0 || Scalar(c)
  {
  }

  // ---------------------------------------------------------------- substrings

  /** The first position where `n` occurs in `h`. */
  function Find<T(==)>(h: seq<T>, n: seq<T>): (r: Option<nat>) {
    if |h| < |n| then None
    else if h[..|n|] == n then Some(0)
    else
      match Find(h[1..], n)
      case None => None
      case Some(i) => Some(i + 1)
  }

  predicate OccursAt<T(==)>(h: seq<T>, n: seq<T>, i: nat) {
    i + |n| <= |h| && h[i..i + |n|] == n
  }

  lemma {:induction false} FindFirst<T>(h: seq<T>, n: seq<T>, i: nat)
    requires OccursAt(h, n, i) && forall j: nat {:trigger OccursAt(h, n, j)} :: j < i ==> !OccursAt(h, n, j)
    ensures Find(h, n) == Some(i)
  {
    if i > 0 {
      assert !OccursAt(h, n, 0) && h[0..|n|] == h[..|n|];
      assert h[1..][i - 1..i - 1 + |n|] == h[i..i + |n|];
      forall j: nat | j < i - 1 ensures !OccursAt(h[1..], n, j) {
        assert !OccursAt(h, n, j + 1);
        assert j + |n| <= |h[1..]| ==> h[1..][j..j + |n|] == h[j + 1..j + 1 + |n|];
      }
      FindFirst(h[1..], n, i - 1);
    } else {
      assert h[0..|n|] == h[..|n|];
    }
  }

  lemma {:induction false} FindNone<T>(h: seq<T>, n: seq<T>)
    requires forall j: nat {:trigger OccursAt(h, n, j)} :: !OccursAt(h, n, j)
    ensures Find(h, n) == None
  {
    if |n| <= |h| {
      assert !OccursAt(h, n, 0) && h[0..|n|] == h[..|n|];
      forall j: nat ensures !OccursAt(h[1..], n, j) {
        assert !OccursAt(h, n, j + 1);
        assert j + |n| <= |h[1..]| ==> h[1..][j..j + |n|] == h[j + 1..j + 1 + |n|];
      }
      FindNone(h[1..], n);
    }
  }

  lemma {:induction false} FindSound<T>(h: seq<T>, n: seq<T>)
    ensures Find(h, n).Some? ==> OccursAt(h, n, Find(h, n).value)
    ensures forall j: nat {:trigger OccursAt(h, n, j)} ::
      OccursAt(h, n, j) ==> Find(h, n).Some? && Find(h, n).value <= j
  {
    if |n| <= |h| {
      assert h[0..|n|] == h[..|n|];
      if h[..|n|] != n {
        FindSound(h[1..], n);
        var r := Find(h[1..], n);
        if r.Some? {
          assert h[1..][r.value..r.value + |n|] == h[r.value + 1..r.value + 1 + |n|];
        }
        forall j: nat | OccursAt(h, n, j) ensures r.Some? && r.value + 1 <= j {
          assert h[1..][j - 1..j - 1 + |n|] == h[j..j + |n|];
          assert OccursAt(h[1..], n, j - 1);
        }
      }
    }
  }

  /** A byte that begins a character is at a character's offset. */
  lemma {:induction false} LeadAtBoundary(cs: seq<int>, k: nat) returns (i: nat)
    requires Scalars(cs) && k < |Encode(cs)| && Lead(Encode(cs)[k])
    ensures i < |cs| && k == Offset(cs, i)
  {
    var c := Encode1(cs[0]);
    EncodeShape(cs[0]);
    if k < |c| {
      assert Encode(cs)[k] == c[k];
      i := 0;
      Ends(cs);
    } else {
      assert Encode(cs)[k] == Encode(cs[1..])[k - |c|];
      i := LeadAtBoundary(cs[1..], k - |c|);
      assert cs[..i + 1][1..] == cs[1..][..i];
      i := i + 1;
    }
  }

  lemma SameFirst(h: seq<int>, n: seq<int>)
    requires Scalars(h) && Scalars(n) && |Encode(n)| <= |Encode(h)| && Encode(h)[..|Encode(n)|] == Encode(n) && n != []
    ensures h != [] && h[0] == n[0]
  {
    var s, c, d := Encode(h), Encode1(n[0]), Encode1(h[0]);
    assert s[0..|c|] == Encode(n)[..|c|] == c;
    DecodeEncoded(s, 0, n[0]);
    assert s[0..|d|] == d;
    DecodeEncoded(s, 0, h[0]);
  }

  lemma Tails(s: seq<int>, u: seq<int>, m: nat)
    requires m <= |u| <= |s| && s[..|u|] == u
    ensures |u[m..]| <= |s[m..]| && s[m..][..|u[m..]|] == u[m..]
  {
    assert s[m..][..|u[m..]|] == s[..|u|][m..];
  }

  /** Encoded strings that begin alike are strings that begin alike. */
  lemma {:induction false} PrefixOfEncoded(h: seq<int>, n: seq<int>)
    requires Scalars(h) && Scalars(n) && |Encode(n)| <= |Encode(h)| && Encode(h)[..|Encode(n)|] == Encode(n)
    ensures |n| <= |h| && h[..|n|] == n
  {
    if n != [] {
      var s, c := Encode(h), Encode1(n[0]);
      SameFirst(h, n);
      assert Encode(h[1..]) == s[|c|..] && Encode(n[1..]) == Encode(n)[|c|..];
      Tails(s, Encode(n), |c|);
      PrefixOfEncoded(h[1..], n[1..]);
      assert h[..|n|] == [h[0]] + h[1..][..|n| - 1];
    }
  }

  /** Self-synchronisation: where the bytes of a string occur, the string occurs. */
  lemma BytesOccur(h: seq<int>, n: seq<int>, k: nat) returns (i: nat)
    requires Scalars(h) && Scalars(n) && n != [] && OccursAt(Encode(h), Encode(n), k)
    ensures i <= |h| && k == Offset(h, i) && OccursAt(h, n, i)
  {
    EncodeShape(n[0]);
    assert Encode(n)[0] == Encode1(n[0])[0];
    assert Encode(h)[k] == Encode(h)[k..k + |Encode(n)|][0];
    i := LeadAtBoundary(h, k);
    Suffix(h, i);
    assert Encode(h[i..])[..|Encode(n)|] == Encode(h)[k..k + |Encode(n)|];
    PrefixOfEncoded(h[i..], n);
    assert h[i..][..|n|] == h[i..i + |n|];
  }

  /** And the other way round. */
  lemma StringOccurs(h: seq<int>, n: seq<int>, i: nat)
    requires Scalars(h) && Scalars(n) && OccursAt(h, n, i)
    ensures OccursAt(Encode(h), Encode(n), Offset(h, i))
  {
    Middle(h, i, i + |n|);
    var tail := h[i..i + |n|];
    assert h[..i + |n|] == h[..i] + tail;
    EncodeConcat(h[..i], tail);
    assert Offset(h, i + |n|) == Offset(h, i) + |Encode(n)|;
  }

  /** The first occurrence of the bytes is at the first occurrence of the string. */
  lemma FindBytes(h: seq<int>, n: seq<int>)
    requires Scalars(h) && Scalars(n)
    ensures match Find(h, n)
            case Some(i) => i <= |h| && Find(Encode(h), Encode(n)) == Some(Offset(h, i))
            case None => Find(Encode(h), Encode(n)) == None
  {
    FindSound(h, n);
    assert n == [] ==> OccursAt(h, n, 0);
    var r := Find(h, n);
    if r.Some? {
      var i := r.value;
      StringOccurs(h, n, i);
      Ends(h);
      forall k: nat | k < Offset(h, i) ensures !OccursAt(Encode(h), Encode(n), k) {
        if OccursAt(Encode(h), Encode(n), k) && n != [] {
          var j := BytesOccur(h, n, k);
          OffsetsGrow(h, i, j);
        }
      }
      FindFirst(Encode(h), Encode(n), Offset(h, i));
    } else {
      forall k: nat ensures !OccursAt(Encode(h), Encode(n), k) {
        if OccursAt(Encode(h), Encode(n), k) {
          var j := BytesOccur(h, n, k);
        }
      }
      FindNone(Encode(h), Encode(n));
    }
  }

  /** `uw_Basis_strsindex`, with `strstr` as the first occurrence of bytes. */
  method Strsindex(haystack: seq<int>, needle: seq<int>, ghost hs: seq<int>, ghost ns: seq<int>)
    returns (r: Option<nat>)
    requires Scalars(hs) && haystack == Encode(hs) && Scalars(ns) && needle == Encode(ns)
    ensures r == Find(hs, ns)
  {
    FindBytes(hs, ns);
    var found := Find(haystack, needle);
    if found.None? {
      return None;
    }
    var src, offset, idx: nat := found.value, 0, 0;
    ghost var i := Find(hs, ns).value;
    Ends(hs);
    OffsetsGrow(hs, 0, i);
    while offset < src
      invariant idx <= i && offset == Offset(hs, idx)
      decreases i - idx
    {
      NextAt(hs, idx);
      offset := offset + LeadLength(haystack[offset]);
      idx := idx + 1;
    }
    OffsetsGrow(hs, idx, i);
    r := Some(idx);
  }

  // ---------------------------------------------------------------- UTF-16, in the browser

  function Units1(c: int): (u: seq<int>)
    requires Scalar(c)
    ensures 1 <= |u| <= 2
  {
    if c < 0x10000 then [c] else [0xD800 + (c - 0x10000) / 0x400, 0xDC00 + (c - 0x10000) % 0x400]
  }

  function Units(cs: seq<int>): (u: seq<int>)
    requires Scalars(cs)
  {
    if cs == [] then [] else Units1(cs[0]) + Units(cs[1..])
  }

  /** `codePointAt` */
  function CodePointAt(s: seq<int>, i: nat): int
    requires i < |s|
  {
    if 0xD800 <= s[i] < 0xDC00 && i + 1 < |s| && 0xDC00 <= s[i + 1] < 0xE000
    then 0x10000 + (s[i] - 0xD800) * 0x400 + (s[i + 1] - 0xDC00)
    else s[i]
  }

  lemma CodePointOfUnits(u: seq<int>, c: int, rest: seq<int>)
    requires Scalar(c) && u == Units1(c) + rest
    ensures CodePointAt(u, 0) == c && |Units1(c)| == if c > 0xFFFF then 2 else 1
  {
  }

  /** One character of the units that are left. */
  lemma UnitsAt(s: seq<int>, i: nat, cs: seq<int>, k: nat)
    requires Scalars(cs) && i < |s| && k <= |cs| && s[i..] == Units(cs[k..])
    ensures k < |cs| && CodePointAt(s, i) == cs[k] && cs[..k] + [cs[k]] == cs[..k + 1]
    ensures var next := i + if cs[k] > 0xFFFF then 2 else 1; next <= |s| && s[next..] == Units(cs[k + 1..])
  {
    var left, u := cs[k..], s[i..];
    assert left != [] && left[1..] == cs[k + 1..];
    CodePointOfUnits(u, left[0], Units(left[1..]));
    assert u[0] == s[i] && (i + 1 < |s| ==> u[1] == s[i + 1]);
    var next := i + |Units1(left[0])|;
    assert s[next..] == u[|Units1(left[0])|..] == Units(left[1..]);
  }

  /** `strSplit`: the characters of a string. */
  method StrSplit(s: seq<int>, ghost cs: seq<int>) returns (chars: seq<int>)
    requires Scalars(cs) && s == Units(cs)
    ensures chars == cs
  {
    var strIdx: nat := 0;
    chars := [];
    assert cs[0..] == cs && s[0..] == s;
    while strIdx < |s|
      invariant |chars| <= |cs| && chars == cs[..|chars|]
      invariant strIdx <= |s| && s[strIdx..] == Units(cs[|chars|..])
      decreases |s| - strIdx
    {
      ghost var k := |chars|;
      UnitsAt(s, strIdx, cs, k);
      var cp := CodePointAt(s, strIdx);
      chars := chars + [cp];
      strIdx := strIdx + if cp > 0xFFFF then 2 else 1;
    }
    assert cs[|chars|..] == [];
  }

  /** The inner loop of `ssidx`. */
  method MatchAt(ah: seq<int>, an: seq<int>, i: nat) returns (found: bool)
    requires i + |an| <= |ah|
    ensures found == OccursAt(ah, an, i)
  {
    found := true;
    var y := 0;
    while y < |an|
      invariant y <= |an| && found && forall j :: 0 <= j < y ==> ah[i + j] == an[j]
    {
      if ah[i + y] != an[y] {
        assert ah[i..i + |an|][y] != an[y];
        return false;
      }
      y := y + 1;
    }
    assert ah[i..i + |an|] == an;
  }

  /** `ssidx` */
  method Ssidx(h: seq<int>, n: seq<int>, ghost hs: seq<int>, ghost ns: seq<int>) returns (r: Option<nat>)
    requires Scalars(hs) && h == Units(hs) && Scalars(ns) && n == Units(ns)
    ensures r == Find(hs, ns)
  {
    FindSound(hs, ns);
    if n == [] {
      assert ns == [] && OccursAt(hs, ns, 0);
      return Some(0);
    }
    var ah := StrSplit(h, hs);
    var an := StrSplit(n, ns);
    var top := |ah| - |an| + 1;
    if top < 0 {
      top := 0;
    }
    var i := 0;
    while i < top
      invariant 0 <= i <= top
      invariant forall j: nat {:trigger OccursAt(hs, ns, j)} :: j < i ==> !OccursAt(hs, ns, j)
    {
      var found := MatchAt(ah, an, i);
      if found {
        FindFirst(hs, ns, i);
        return Some(i);
      }
      i := i + 1;
    }
    FindNone(hs, ns);
    r := None;
  }

  /** `sspn` */
  method Sspn(s: seq<int>, chars: seq<int>, ghost cs: seq<int>, ghost chs: seq<int>) returns (n: nat)
    requires Scalars(cs) && s == Units(cs) && Scalars(chs) && chars == Units(chs)
    ensures n == Span(cs, chs)
  {
    var s2 := StrSplit(s, cs);
    var chs2 := StrSplit(chars, chs);
    n := 0;
    while n < |s2|
      invariant n <= |s2| && forall j :: 0 <= j < n ==> s2[j] !in chs2
    {
      if s2[n] in chs2 {
        SpanFirst(cs, chs, n);
        return;
      }
      n := n + 1;
    }
    SpanFirst(cs, chs, n);
  }

  /** Server and browser agree on searching, whatever the characters. */
  method Agree(hs: seq<int>, ns: seq<int>)
    returns (server: Option<nat>, client: Option<nat>, serverSpan: nat, clientSpan: nat)
    requires Scalars(hs) && Scalars(ns)
    ensures server == client && serverSpan == clientSpan
  {
    server := Strsindex(Encode(hs), Encode(ns), hs, ns);
    client := Ssidx(Units(hs), Units(ns), hs, ns);
    serverSpan := Strcspn(Encode(hs), Encode(ns), hs, ns);
    clientSpan := Sspn(Units(hs), Units(ns), hs, ns);
  }
}
