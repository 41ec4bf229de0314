/** Strings in URLs: how server and browser write them, and how the server reads them back. */
module Urlify {
  import opened Utf8

  // ---------------------------------------------------------------- bytes in URLs

  predicate Alphanumeric(c: int) {
    ('0' as int) <= c <= ('9' as int) || ('A' as int) <= c <= ('Z' as int) || ('a' as int) <= c <= ('z' as int)
  }

  function HexDigit(d: int): int
    requires 0 <= d < 16
  {
    if d < 10 then '0' as int + d else 'A' as int + d - 10
  }

  /** The value of a hexadecimal digit, or -1. */
  function HexValue(c: int): int {
    if ('0' as int) <= c <= ('9' as int) then c - '0' as int
    else if ('A' as int) <= c <= ('F' as int) then c - 'A' as int + 10
    else if ('a' as int) <= c <= ('f' as int) then c - 'a' as int + 10
    else -1
  }

  const DOT: int := '.' as int
  const PERCENT: int := '%' as int
  const PLUS: int := '+' as int
  const SPACE: int := ' ' as int
  const UNDERSCORE: int := '_' as int
  const SLASH: int := '/' as int

  /** `sprintf(".%02X")` */
  function Escape(b: int): (r: seq<int>)
    requires 0 <= b < 256
    ensures |r| == 3
  {
    [DOT, HexDigit(b / 16), HexDigit(b % 16)]
  }

  predicate Bytes(s: seq<int>) {
    forall i :: 0 <= i < |s| ==> 0 <= s[i] < 256
  }

  function EscapeAll(s: seq<int>): (r: seq<int>)
    requires Bytes(s)
    ensures |r| == 3 * |s|
  {
    if s == [] then [] else Escape(s[0]) + EscapeAll(s[1..])
  }

  /** `aux_urlifyChar`: the escaped bytes of a character, by its size. */
  function AuxUrlifyChar(c: int): seq<int>
    requires Scalar(c)
  {
    if c <= 0x7F then Escape(c)
    else if c <= 0x7FF then Escape(c / 64 + 0xC0) + Escape(c % 64 + 0x80)
    else if c <= 0xFFFF then Escape(c / 4096 + 0xE0) + Escape(c / 64 % 64 + 0x80) + Escape(c % 64 + 0x80)
    else Escape(c / 262144 + 0xF0) + Escape(c / 4096 % 64 + 0x80) + Escape(c / 64 % 64 + 0x80) + Escape(c % 64 + 0x80)
  }

  lemma EncodedBytes(c: int)
    requires Scalar(c)
    ensures Bytes(Encode1(c))
  {
    EncodeShape(c);
  }

  /** They are the bytes of its encoding. */
  lemma AuxIsEncoding(c: int)
    requires Scalar(c)
    ensures Bytes(Encode1(c)) && AuxUrlifyChar(c) == EscapeAll(Encode1(c))
  {
    var b := Encode1(c);
    EncodedBytes(c);
    match |b|
    case 1 => EscapeFirst(b, [c]);
    case 2 => EscapeFirst(b, [0xC0 + c / 64, 0x80 + c % 64]);
    case 3 => EscapeFirst(b, [0xE0 + c / 4096, 0x80 + c / 64 % 64, 0x80 + c % 64]);
    case _ => EscapeFirst(b, [0xF0 + c / 262144, 0x80 + c / 4096 % 64, 0x80 + c / 64 % 64, 0x80 + c % 64]);
  }

  lemma EscapeFirst(b: seq<int>, d: seq<int>)
    requires Bytes(b) && 1 <= |b| == |d| <= 4 && forall i :: 0 <= i < |b| ==> b[i] == d[i]
    ensures
      var fourth := if |b| > 3 then Escape(d[3]) else [];
      var third := if |b| > 2 then Escape(d[2]) + fourth else [];
      EscapeAll(b) == Escape(d[0]) + if |b| > 1 then Escape(d[1]) + third else []
  {
    EscapeRest(b);
    if |b| > 1 { EscapeRest(b[1..]); }
    if |b| > 2 { EscapeRest(b[2..]); }
    if |b| > 3 { EscapeRest(b[3..]); }
  }

  lemma EscapeRest(b: seq<int>)
    requires Bytes(b) && b != []
    ensures EscapeAll(b) == Escape(b[0]) + EscapeAll(b[1..])
    ensures |b| > 1 ==> b[1..][1..] == b[2..]
    ensures |b| > 2 ==> b[2..][1..] == b[3..]
    ensures |b| == 1 ==> EscapeAll(b) == Escape(b[0])
  {
    assert |b| == 1 ==> b[1..] == [];
  }

  function UrlifyChar(c: int): (r: seq<int>)
    requires Scalar(c)
  {
    if c == SPACE then [PLUS] else if Alphanumeric(c) then [c] else AuxUrlifyChar(c)
  }

  function UrlifyChars(cs: seq<int>): seq<int>
    requires Scalars(cs)
  {
    if cs == [] then [] else UrlifyChar(cs[0]) + UrlifyChars(cs[1..])
  }

  function Prefix(cs: seq<int>): seq<int> {
    if cs != [] && cs[0] == UNDERSCORE then [UNDERSCORE] else []
  }

  function Urlified(cs: seq<int>): seq<int>
    requires Scalars(cs)
  {
    if cs == [] then [UNDERSCORE] else Prefix(cs) + UrlifyChars(cs)
  }

  lemma {:induction false} UrlifySnoc(cs: seq<int>, c: int)
    requires Scalars(cs) && Scalar(c)
    ensures Scalars(cs + [c]) && UrlifyChars(cs + [c]) == UrlifyChars(cs) + UrlifyChar(c)
  {
    if cs != [] {
      assert (cs + [c])[1..] == cs[1..] + [c];
      UrlifySnoc(cs[1..], c);
    } else {
      assert [] + [c] == [c] && [c][1..] == [];
    }
  }

  lemma CharLength(c: int)
    requires Scalar(c)
    ensures |UrlifyChar(c)| <= 3 * |Encode1(c)|
  {
    AuxIsEncoding(c);
  }

  lemma NothingEncoded(cs: seq<int>)
    requires Scalars(cs)
    ensures Encode(cs) == [] <==> cs == []
  {
    if cs != [] {
      FirstByte(cs);
    }
  }

  /** `uw_Basis_urlifyString`, with how much of the heap it reserves and how much it writes. */
  method UrlifyString(s: seq<int>, ghost cs: seq<int>) returns (r: seq<int>, reserved: nat)
    requires Scalars(cs) && s == Encode(cs)
    ensures r == Urlified(cs)
    ensures cs != [] ==> |r| + 1 <= reserved
  {
    NothingEncoded(cs);
    if |s| == 0 {
      return [UNDERSCORE], 0;
    }
    FirstByte(cs);
    reserved := |s| * 12 + 1 + if s[0] == UNDERSCORE then 1 else 0;
    r := if s[0] == UNDERSCORE then [UNDERSCORE] else [];
    var offset, curr := 0, 0;
    ghost var k: nat, body: seq<int> := 0, [];
    Ends(cs);
    ByteZero(cs, 0);
    assert cs[..0] == [];
    while Byte(s, offset) != 0
      invariant k <= |cs| && offset == curr == Offset(cs, k) <= |s|
      invariant Byte(s, offset) == 0 <==> k == |cs|
      invariant r == Prefix(cs) + body && body == UrlifyChars(cs[..k]) && |body| <= 3 * offset
      decreases |cs| - k
    {
      UrlifyStep(cs, k);
      var c := Decode1(s, offset);
      offset := offset + LeadLength(s[offset]);
      var w := CharOf(s[curr], c);
      Associate(Prefix(cs), body, w);
      r, body := r + w, body + w;
      curr := offset;
      k := k + 1;
      ByteZero(cs, k);
    }
    assert cs[..k] == cs;
  }

  /** What the loop writes, by the first byte of a character and the character. */
  function CharOf(byte: int, c: int): seq<int>
    requires Scalar(c)
  {
    if byte < 0x80 && byte == SPACE then [PLUS]
    else if byte < 0x80 && Alphanumeric(byte) then [byte]
    else AuxUrlifyChar(c)
  }

  /** One turn of the loop. */
  lemma UrlifyStep(cs: seq<int>, k: nat)
    requires Scalars(cs) && k < |cs|
    ensures
      var s, o, w := Encode(cs), Offset(cs, k), UrlifyChar(cs[k]);
      && o < |s| && o + LeadLength(s[o]) <= |s| && Decode1(s, o) == cs[k] && o + LeadLength(s[o]) == Offset(cs, k + 1)
      && UrlifyChars(cs[..k + 1]) == UrlifyChars(cs[..k]) + w && |w| <= 3 * (Offset(cs, k + 1) - o)
      && w == CharOf(s[o], cs[k])
  {
    NextAt(cs, k);
    SingleByte(cs, k);
    assert cs[..k + 1] == cs[..k] + [cs[k]];
    UrlifySnoc(cs[..k], cs[k]);
    CharLength(cs[k]);
    At(cs, k);
  }

  lemma SingleByte(cs: seq<int>, k: nat)
    requires Scalars(cs) && k < |cs|
    ensures
      var o, s := Offset(cs, k), Encode(cs);
      o < |s| && (s[o] < 0x80 <==> cs[k] < 0x80) && (cs[k] < 0x80 ==> s[o] == cs[k])
  {
    NextAt(cs, k);
    At(cs, k);
    var o, b := Offset(cs, k), Encode1(cs[k]);
    EncodeShape(cs[k]);
    assert Encode(cs)[o..o + |b|][0] == Encode(cs)[o];
  }

  lemma FirstByte(cs: seq<int>)
    requires Scalars(cs) && cs != []
    ensures Encode(cs) != [] && (Encode(cs)[0] == UNDERSCORE <==> cs[0] == UNDERSCORE)
  {
    Ends(cs);
    SingleByte(cs, 0);
  }

  // ---------------------------------------------------------------- reading

  /** `sscanf("%02X")`: a number from the front of a text, if there is one there. */
  type Scan = seq<int> -> Option<int>

  /** Two hexadecimal digits are read as their value. What else it takes is left to it. */
  ghost predicate ScansDigits(scan: Scan) {
    forall s {:trigger scan(s)} :: |s| >= 2 && HexValue(s[0]) >= 0 && HexValue(s[1]) >= 0 ==>
      scan(s) == Some(16 * HexValue(s[0]) + HexValue(s[1]))
  }

  /** What escapes a byte: a percent sign, and a dot but in what a client has sent in a form. */
  predicate Escapes(fromClient: bool, c: int) {
    c == PERCENT || (c == DOT && !fromClient)
  }

  /** What the loop of `uw_unurlifyString_to` writes; nothing where it stops with an error. */
  function Read(fromClient: bool, scan: Scan, s: seq<int>): (r: Option<seq<int>>)
    decreases |s|
  {
    if s == [] then Some([])
    else if s[0] == PLUS then Cons([SPACE], Read(fromClient, scan, s[1..]))
    else if Escapes(fromClient, s[0]) then
      if |s| < 3 || scan(s[1..]) == None then None
      else Cons([scan(s[1..]).value % 256], Read(fromClient, scan, s[3..]))
    else Cons([s[0]], Read(fromClient, scan, s[1..]))
  }

  function Cons(s: seq<int>, r: Option<seq<int>>): Option<seq<int>> {
    if r.Some? then Some(s + r.value) else None
  }

  lemma ConsNil(r: Option<seq<int>>)
    ensures Cons([], r) == r
  {
    if r.Some? {
      assert [] + r.value == r.value;
    }
  }

  lemma ConsCons(a: seq<int>, b: seq<int>, r: Option<seq<int>>)
    ensures Cons(a, Cons(b, r)) == Cons(a + b, r)
  {
    if r.Some? {
      assert a + (b + r.value) == a + b + r.value;
    }
  }

  /** What comes before the text: an underscore, plain or escaped. */
  function Skip(s: seq<int>): (n: nat)
    ensures n <= |s|
  {
    if s != [] && s[0] == UNDERSCORE then 1
    else if |s| >= 3 && (s[0] == PERCENT || s[0] == DOT) && s[1] == '5' as int
      && (s[2] == 'f' as int || s[2] == 'F' as int) then 3
    else 0
  }

  function Unurlified(fromClient: bool, scan: Scan, s: seq<int>): Option<seq<int>> {
    Read(fromClient, scan, if fromClient then s else s[Skip(s)..])
  }

  /** `uw_unurlifyString_to` */
  method UnurlifyStringTo(fromClient: bool, scan: Scan, s: seq<int>) returns (r: Option<seq<int>>)
    ensures r == Unurlified(fromClient, scan, s)
  {
    var i: nat := 0;
    if !fromClient {
      if s != [] && s[0] == UNDERSCORE {
        i := 1;
      } else if |s| >= 3 && (s[0] == PERCENT || s[0] == DOT) && s[1] == '5' as int
        && (s[2] == 'f' as int || s[2] == 'F' as int) {
        i := 3;
      }
    }
    var out: seq<int> := [];
    ConsNil(Read(fromClient, scan, s[i..]));
    assert s[0..] == s;
    while i < |s|
      invariant i <= |s| && Unurlified(fromClient, scan, s) == Cons(out, Read(fromClient, scan, s[i..]))
    {
      var c := s[i];
      if c == PLUS {
        assert s[i..][1..] == s[i + 1..];
        ConsCons(out, [SPACE], Read(fromClient, scan, s[i + 1..]));
        out := out + [SPACE];
        i := i + 1;
      } else if c == PERCENT || (c == DOT && !fromClient) {
        if i + 2 >= |s| {
          return None;
        }
        var n := scan(s[i + 1..]);
        assert s[i..][1..] == s[i + 1..] && s[i..][3..] == s[i + 3..];
        if n == None {
          return None;
        }
        ConsCons(out, [n.value % 256], Read(fromClient, scan, s[i + 3..]));
        out := out + [n.value % 256];
        i := i + 3;
      } else {
        assert s[i..][1..] == s[i + 1..];
        ConsCons(out, [c], Read(fromClient, scan, s[i + 1..]));
        out := out + [c];
        i := i + 1;
      }
    }
    assert s[i..] == [] && out + [] == out;
    r := Some(out);
  }

  lemma ReadEscape(fromClient: bool, scan: Scan, lead: int, b: int, rest: seq<int>)
    requires ScansDigits(scan) && 0 <= b < 256 && Escapes(fromClient, lead)
    ensures Read(fromClient, scan, [lead, HexDigit(b / 16), HexDigit(b % 16)] + rest)
         == Cons([b], Read(fromClient, scan, rest))
  {
    var s := [lead, HexDigit(b / 16), HexDigit(b % 16)] + rest;
    assert s[3..] == rest;
  }

  function PercentEscapes(s: seq<int>): seq<int>
    requires Bytes(s)
  {
    if s == [] then [] else [PERCENT, HexDigit(s[0] / 16), HexDigit(s[0] % 16)] + PercentEscapes(s[1..])
  }

  /** Bytes that are escaped with dots, or with percent signs. */
  function EscapedBy(lead: int, bs: seq<int>): seq<int>
    requires Bytes(bs)
  {
    if lead == DOT then EscapeAll(bs) else PercentEscapes(bs)
  }

  lemma {:induction false} ReadEscapes(fromClient: bool, scan: Scan, lead: int, bs: seq<int>, rest: seq<int>)
    requires ScansDigits(scan) && Bytes(bs) && Escapes(fromClient, lead)
    ensures Read(fromClient, scan, EscapedBy(lead, bs) + rest) == Cons(bs, Read(fromClient, scan, rest))
  {
    if bs == [] {
      assert [] + rest == rest;
      ConsNil(Read(fromClient, scan, rest));
    } else {
      var one := [lead, HexDigit(bs[0] / 16), HexDigit(bs[0] % 16)];
      ConsCons([bs[0]], bs[1..], Read(fromClient, scan, rest));
      assert EscapedBy(lead, bs) + rest == one + (EscapedBy(lead, bs[1..]) + rest);
      ReadEscape(fromClient, scan, lead, bs[0], EscapedBy(lead, bs[1..]) + rest);
      ReadEscapes(fromClient, scan, lead, bs[1..], rest);
      assert [bs[0]] + bs[1..] == bs;
    }
  }

  lemma ReadPlain(fromClient: bool, scan: Scan, c: int, rest: seq<int>)
    requires c != PLUS && !Escapes(fromClient, c)
    ensures Read(fromClient, scan, [c] + rest) == Cons([c], Read(fromClient, scan, rest))
  {
    assert ([c] + rest)[1..] == rest;
  }

  lemma ReadPlus(fromClient: bool, scan: Scan, rest: seq<int>)
    ensures Read(fromClient, scan, [PLUS] + rest) == Cons([SPACE], Read(fromClient, scan, rest))
  {
    assert ([PLUS] + rest)[1..] == rest;
  }

  /** A character in a URL or a form: itself, a plus for a space, or its escaped bytes.  In a form a dot is
      itself, and so may a slash be. */
  ghost predicate Writes(fromClient: bool, w: seq<int>, c: int) {
    Scalar(c) && Bytes(Encode1(c)) &&
    (|| (w == [c] && c < 0x80 && c != PLUS && c != PERCENT && (fromClient || (c != DOT && c != SLASH)))
     || (w == [PLUS] && c == SPACE)
     || w == PercentEscapes(Encode1(c))
     || (!fromClient && w == EscapeAll(Encode1(c))))
  }

  lemma ReadWritten(fromClient: bool, scan: Scan, w: seq<int>, c: int, rest: seq<int>)
    requires ScansDigits(scan) && Writes(fromClient, w, c)
    ensures Read(fromClient, scan, w + rest) == Cons(Encode1(c), Read(fromClient, scan, rest))
  {
    if w == PercentEscapes(Encode1(c)) {
      ReadEscapes(fromClient, scan, PERCENT, Encode1(c), rest);
    } else if !fromClient && w == EscapeAll(Encode1(c)) {
      ReadEscapes(fromClient, scan, DOT, Encode1(c), rest);
    } else if w == [PLUS] {
      ReadPlus(fromClient, scan, rest);
      assert Encode1(c) == [SPACE];
    } else {
      ReadPlain(fromClient, scan, c, rest);
      assert Encode1(c) == [c];
    }
  }

  lemma UrlifyWrites(c: int)
    requires Scalar(c)
    ensures Writes(false, UrlifyChar(c), c)
  {
    AuxIsEncoding(c);
  }

  function Concat(ws: seq<seq<int>>): seq<int> {
    if ws == [] then [] else ws[0] + Concat(ws[1..])
  }

  ghost predicate WritesAll(fromClient: bool, ws: seq<seq<int>>, cs: seq<int>) {
    |ws| == |cs| && forall i {:trigger ws[i]} :: 0 <= i < |cs| ==> Writes(fromClient, ws[i], cs[i])
  }

  lemma {:induction false} ReadAll(fromClient: bool, scan: Scan, ws: seq<seq<int>>, cs: seq<int>)
    requires ScansDigits(scan) && Scalars(cs) && WritesAll(fromClient, ws, cs)
    ensures Read(fromClient, scan, Concat(ws)) == Some(Encode(cs))
  {
    if cs != [] {
      assert Writes(fromClient, ws[0], cs[0]);
      ReadWritten(fromClient, scan, ws[0], cs[0], Concat(ws[1..]));
      ReadAll(fromClient, scan, ws[1..], cs[1..]);
    }
  }

  /** A text in a form is read back, whichever of its characters the browser has escaped. */
  lemma FormTextRoundTrip(scan: Scan, ws: seq<seq<int>>, cs: seq<int>)
    requires ScansDigits(scan) && Scalars(cs) && WritesAll(true, ws, cs)
    ensures Unurlified(true, scan, Concat(ws)) == Some(Encode(cs))
  {
    ReadAll(true, scan, ws, cs);
  }

  /** Only an underscore is written as what the reader skips. */
  lemma NoSkip(w: seq<int>, c: int, rest: seq<int>)
    requires Writes(false, w, c) && c != UNDERSCORE
    ensures Skip(w + rest) == 0
  {
    var b := Encode1(c);
    EncodeShape(c);
    assert b[0] == 0x5F ==> c == 0x5F;
    if w == EscapeAll(b) {
      assert w == Escape(b[0]) + EscapeAll(b[1..]);
    } else if w == PercentEscapes(b) {
      assert w == [PERCENT, HexDigit(b[0] / 16), HexDigit(b[0] % 16)] + PercentEscapes(b[1..]);
    }
  }

  /** What a writer makes of a whole string: an underscore for the empty one, and one before an underscore. */
  function Whole(ws: seq<seq<int>>, cs: seq<int>): seq<int> {
    if cs == [] then [UNDERSCORE] else Prefix(cs) + Concat(ws)
  }

  /** The server reads back what is written character by character. */
  lemma RoundTrip(scan: Scan, ws: seq<seq<int>>, cs: seq<int>)
    requires ScansDigits(scan) && Scalars(cs) && WritesAll(false, ws, cs)
    ensures Unurlified(false, scan, Whole(ws, cs)) == Some(Encode(cs))
  {
    var u := Whole(ws, cs);
    if cs == [] {
      assert u[1..] == [];
    } else {
      ReadAll(false, scan, ws, cs);
      if cs[0] == UNDERSCORE {
        assert u[1..] == Concat(ws);
      } else {
        assert Writes(false, ws[0], cs[0]);
        NoSkip(ws[0], cs[0], Concat(ws[1..]));
        assert u == Concat(ws) && u[0..] == u;
      }
    }
  }

  // ---------------------------------------------------------------- what the server writes

  function ServerWrites(cs: seq<int>): (ws: seq<seq<int>>)
    requires Scalars(cs)
    ensures |ws| == |cs|
  {
    if cs == [] then [] else [UrlifyChar(cs[0])] + ServerWrites(cs[1..])
  }

  lemma {:induction false} ServerWritesAll(cs: seq<int>)
    requires Scalars(cs)
    ensures WritesAll(false, ServerWrites(cs), cs) && Concat(ServerWrites(cs)) == UrlifyChars(cs)
  {
    if cs != [] {
      UrlifyWrites(cs[0]);
      ServerWritesAll(cs[1..]);
      assert ServerWrites(cs)[1..] == ServerWrites(cs[1..]);
    }
  }

  /** The server reads back what it writes. */
  lemma ServerRoundTrip(scan: Scan, cs: seq<int>)
    requires ScansDigits(scan) && Scalars(cs)
    ensures Unurlified(false, scan, Urlified(cs)) == Some(Encode(cs))
  {
    ServerWritesAll(cs);
    RoundTrip(scan, ServerWrites(cs), cs);
  }

  // ---------------------------------------------------------------- what the browser writes

  /** The characters that `encodeURIComponent` leaves alone. */
  predicate Unreserved(c: int) {
    Alphanumeric(c) || c == DOT || c == '-' as int || c == '_' as int || c == '!' as int || c == '~' as int
    || c == '*' as int || c == '\'' as int || c == '(' as int || c == ')' as int
  }

  /** `encodeURIComponent` */
  function EncodeComponent(cs: seq<int>): seq<int>
    requires Scalars(cs)
  {
    if cs == [] then []
    else
      EncodedBytes(cs[0]);
      (if Unreserved(cs[0]) then [cs[0]] else PercentEscapes(Encode1(cs[0]))) + EncodeComponent(cs[1..])
  }

  /** `replace` of every occurrence of a character. */
  function Replace(s: seq<int>, c: int, w: seq<int>): seq<int> {
    if s == [] then [] else (if s[0] == c then w else [s[0]]) + Replace(s[1..], c, w)
  }

  const ESCAPED_DOT := [DOT, '2' as int, 'E' as int]

  /** `uf`: dots are escaped, then what `encodeURIComponent` escapes, and the percent signs become dots. */
  function Uf(cs: seq<int>): seq<int>
    requires Scalars(cs)
  {
    if cs == [] then [UNDERSCORE]
    else
      ReplaceScalars(cs);
      var s := Replace(cs, DOT, ESCAPED_DOT);
      Prefix(s) + Replace(EncodeComponent(s), PERCENT, [DOT])
  }

  lemma {:induction false} ReplaceScalars(cs: seq<int>)
    requires Scalars(cs)
    ensures Scalars(Replace(cs, DOT, ESCAPED_DOT))
  {
    if cs != [] {
      ReplaceScalars(cs[1..]);
    }
  }

  /** What it makes of one character. */
  function UfChar(c: int): seq<int>
    requires Scalar(c)
  {
    EncodedBytes(c);
    if c == DOT then ESCAPED_DOT else if Unreserved(c) then [c] else EscapeAll(Encode1(c))
  }

  function ClientWrites(cs: seq<int>): (ws: seq<seq<int>>)
    requires Scalars(cs)
    ensures |ws| == |cs|
  {
    if cs == [] then [] else [UfChar(cs[0])] + ClientWrites(cs[1..])
  }

  lemma {:induction false} ReplaceConcat(a: seq<int>, b: seq<int>, c: int, w: seq<int>)
    ensures Replace(a + b, c, w) == Replace(a, c, w) + Replace(b, c, w)
  {
    if a == [] {
      assert a + b == b;
    } else {
      assert (a + b)[1..] == a[1..] + b;
      ReplaceConcat(a[1..], b, c, w);
    }
  }

  lemma {:induction false} EncodeComponentConcat(a: seq<int>, b: seq<int>)
    requires Scalars(a) && Scalars(b)
    ensures Scalars(a + b) && EncodeComponent(a + b) == EncodeComponent(a) + EncodeComponent(b)
  {
    if a == [] {
      assert a + b == b;
    } else {
      assert (a + b)[1..] == a[1..] + b;
      EncodeComponentConcat(a[1..], b);
    }
  }

  lemma {:induction false} PercentsBecomeDots(s: seq<int>)
    requires Bytes(s)
    ensures Replace(PercentEscapes(s), PERCENT, [DOT]) == EscapeAll(s)
  {
    if s != [] {
      var one := [PERCENT, HexDigit(s[0] / 16), HexDigit(s[0] % 16)];
      ReplaceConcat(one, PercentEscapes(s[1..]), PERCENT, [DOT]);
      PercentsBecomeDots(s[1..]);
      ReplaceThree(one);
    }
  }

  lemma ReplaceThree(s: seq<int>)
    requires |s| == 3 && s[1] != PERCENT && s[2] != PERCENT
    ensures Replace(s, PERCENT, [DOT]) == [if s[0] == PERCENT then DOT else s[0], s[1], s[2]]
  {
    var t := s[2..];
    assert t[1..] == [] && s[1..][1..] == t;
    assert Replace(t, PERCENT, [DOT]) == [s[2]] + [] == [s[2]];
    assert Replace(s[1..], PERCENT, [DOT]) == [s[1]] + [s[2]];
  }

  lemma PlainThree(s: seq<int>)
    requires |s| == 3 && Scalars(s) && Unreserved(s[0]) && Unreserved(s[1]) && Unreserved(s[2])
    ensures EncodeComponent(s) == s
  {
    var t := s[2..];
    assert t[1..] == [] && s[1..][1..] == t;
    assert EncodeComponent(t) == [s[2]] + [] == [s[2]];
    assert EncodeComponent(s[1..]) == [s[1]] + [s[2]];
  }

  /** The passes over the whole string do to each character what `UfChar` says. */
  lemma {:induction false} UfByChar(cs: seq<int>)
    requires Scalars(cs)
    ensures
      var s := Replace(cs, DOT, ESCAPED_DOT);
      Scalars(s) && Replace(EncodeComponent(s), PERCENT, [DOT]) == Concat(ClientWrites(cs))
  {
    if cs != [] {
      var c, rest := cs[0], Replace(cs[1..], DOT, ESCAPED_DOT);
      var first := if c == DOT then ESCAPED_DOT else [c];
      UfByChar(cs[1..]);
      UfOne(c, first);
      EncodeComponentConcat(first, rest);
      ReplaceConcat(EncodeComponent(first), EncodeComponent(rest), PERCENT, [DOT]);
      assert ClientWrites(cs)[1..] == ClientWrites(cs[1..]);
    }
  }

  lemma UfOne(c: int, first: seq<int>)
    requires Scalar(c) && first == if c == DOT then ESCAPED_DOT else [c]
    ensures Scalars(first) && Replace(EncodeComponent(first), PERCENT, [DOT]) == UfChar(c)
  {
    EncodedBytes(c);
    if c == DOT {
      PlainThree(first);
      ReplaceThree(first);
    } else {
      assert first[1..] == [];
      var e := if Unreserved(c) then [c] else PercentEscapes(Encode1(c));
      assert EncodeComponent(first) == e + [] == e;
      PercentsBecomeDots(Encode1(c));
      assert [c][1..] == [] && Replace([c], PERCENT, [DOT]) == [if c == PERCENT then DOT else c] + [];
    }
  }

  lemma UfWhole(cs: seq<int>)
    requires Scalars(cs)
    ensures Uf(cs) == Whole(ClientWrites(cs), cs)
  {
    UfByChar(cs);
    if cs != [] {
      var s := Replace(cs, DOT, ESCAPED_DOT);
      assert s[0] == cs[0];
    }
  }

  lemma UfWrites(c: int)
    requires Scalar(c)
    ensures Writes(false, UfChar(c), c)
  {
    EncodedBytes(c);
    if c == DOT {
      assert Encode1(c) == [c];
      assert EscapeAll([c]) == Escape(c) + EscapeAll([c][1..]);
      assert [c][1..] == [];
    }
  }

  lemma {:induction false} ClientWritesAll(cs: seq<int>)
    requires Scalars(cs)
    ensures WritesAll(false, ClientWrites(cs), cs)
  {
    if cs != [] {
      UfWrites(cs[0]);
      ClientWritesAll(cs[1..]);
      assert ClientWrites(cs)[1..] == ClientWrites(cs[1..]);
    }
  }

  /** The server reads back what the browser writes. */
  lemma ClientRoundTrip(scan: Scan, cs: seq<int>)
    requires ScansDigits(scan) && Scalars(cs)
    ensures Unurlified(false, scan, Uf(cs)) == Some(Encode(cs))
  {
    ClientWritesAll(cs);
    UfWhole(cs);
    RoundTrip(scan, ClientWrites(cs), cs);
  }

  /** Which characters are written as themselves: by the server the digits and letters, by the browser also
      some marks.  All the others are written as escapes, three bytes each, but for the server's space. */
  lemma WrittenPlain(c: int)
    requires Scalar(c)
    ensures
      var plain := 0x30 <= c <= 0x39 || 0x41 <= c <= 0x5A || 0x61 <= c <= 0x7A;
      && (if plain then UrlifyChar(c) == [c] else c == 0x20 || |UrlifyChar(c)| == 3 * |Encode1(c)|)
      && (if plain || c in {0x21, 0x27, 0x28, 0x29, 0x2A, 0x2D, 0x5F, 0x7E} then UfChar(c) == [c]
          else |UfChar(c)| == 3 * |Encode1(c)|)
  {
    AuxIsEncoding(c);
  }

  // ---------------------------------------------------------------- lists of strings

  predicate NoSlash(s: seq<int>) {
    SLASH !in s
  }

  lemma {:induction false} EscapesNoSlash(bs: seq<int>)
    requires Bytes(bs)
    ensures NoSlash(EscapeAll(bs)) && NoSlash(PercentEscapes(bs))
  {
    if bs != [] {
      EscapesNoSlash(bs[1..]);
    }
  }

  lemma {:induction false} ConcatNoSlash(ws: seq<seq<int>>, cs: seq<int>)
    requires WritesAll(false, ws, cs)
    ensures NoSlash(Concat(ws))
  {
    if ws != [] {
      assert Writes(false, ws[0], cs[0]);
      EscapesNoSlash(Encode1(cs[0]));
      ConcatNoSlash(ws[1..], cs[1..]);
    }
  }

  function Join(us: seq<seq<int>>): seq<int> {
    if us == [] then [] else if |us| == 1 then us[0] else us[0] + [SLASH] + Join(us[1..])
  }

  function IndexOfSlash(s: seq<int>): (i: nat)
    ensures i <= |s| && (i < |s| ==> s[i] == SLASH) && forall j :: 0 <= j < i ==> s[j] != SLASH
  {
    if s == [] || s[0] == SLASH then 0 else 1 + IndexOfSlash(s[1..])
  }

  /** `uw_unurlify_advance`: up to the next slash, and what comes after it. */
  function Advance(s: seq<int>): (seq<int>, seq<int>) {
    var i := IndexOfSlash(s);
    (s[..i], if i < |s| then s[i + 1..] else [])
  }

  lemma AdvanceJoin(us: seq<seq<int>>)
    requires us != [] && NoSlash(us[0])
    ensures Advance(Join(us)) == (us[0], Join(us[1..]))
  {
    var s := Join(us);
    assert forall j :: 0 <= j < |us[0]| ==> s[j] == us[0][j];
    if |us| == 1 {
      assert us[1..] == [] && s[..|us[0]|] == us[0];
      assert IndexOfSlash(s) == |us[0]|;
    } else {
      assert s[|us[0]|] == SLASH;
      assert IndexOfSlash(s) == |us[0]|;
      assert s[..|us[0]|] == us[0] && s[|us[0]| + 1..] == Join(us[1..]);
    }
  }

  /** Strings in a URL, each as the server or the browser writes it. */
  ghost predicate Listed(us: seq<seq<int>>, css: seq<seq<int>>) {
    |us| == |css| && forall i: nat {:trigger ListedAt(us, css, i)} :: ListedAt(us, css, i)
  }

  ghost predicate ListedAt(us: seq<seq<int>>, css: seq<seq<int>>, i: nat) {
    i < |us| && i < |css| ==> Scalars(css[i]) && (us[i] == Urlified(css[i]) || us[i] == Uf(css[i]))
  }

  /** `uw_Basis_unurlifyString`, again and again: the strings that have been joined with slashes. */
  method UnurlifyStrings(scan: Scan, s: seq<int>, n: nat, ghost us: seq<seq<int>>, ghost css: seq<seq<int>>)
    returns (r: Option<seq<seq<int>>>)
    requires ScansDigits(scan) && Listed(us, css) && s == Join(us) && n == |us|
    ensures r.Some? && |r.value| == n
    ensures forall i: nat {:trigger ReadAt(r.value, css, i)} :: i < n ==> ReadAt(r.value, css, i)
  {
    var rest, out := s, [];
    assert us[0..] == us;
    while |out| < n
      invariant |out| <= n && rest == Join(us[|out|..])
      invariant forall i: nat {:trigger ReadAt(out, css, i)} :: i < |out| ==> ReadAt(out, css, i)
      decreases n - |out|
    {
      NextString(scan, us, css, |out|);
      var (segment, rest1) := Advance(rest);
      var text := UnurlifyStringTo(false, scan, segment);
      ghost var before := out;
      out := out + [text.value];
      rest := rest1;
      forall i: nat | i < |out| ensures ReadAt(out, css, i) {
        assert i < |before| ==> ReadAt(before, css, i);
      }
    }
    r := Some(out);
  }

  ghost predicate ReadAt(out: seq<seq<int>>, css: seq<seq<int>>, i: nat) {
    i < |out| && i < |css| && Scalars(css[i]) && out[i] == Encode(css[i])
  }

  lemma NextString(scan: Scan, us: seq<seq<int>>, css: seq<seq<int>>, k: nat)
    requires ScansDigits(scan) && Listed(us, css) && k < |us|
    ensures Scalars(css[k]) && Unurlified(false, scan, us[k]) == Some(Encode(css[k]))
    ensures Advance(Join(us[k..])) == (us[k], Join(us[k + 1..]))
  {
    assert ListedAt(us, css, k);
    assert us[k..][0] == us[k] && us[k..][1..] == us[k + 1..];
    var cs := css[k];
    ServerRoundTrip(scan, cs);
    ClientRoundTrip(scan, cs);
    ServerWritesAll(cs);
    ClientWritesAll(cs);
    UfWhole(cs);
    ConcatNoSlash(ServerWrites(cs), cs);
    ConcatNoSlash(ClientWrites(cs), cs);
    AdvanceJoin(us[k..]);
  }
}
