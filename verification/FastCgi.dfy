/** FastCGI: records out of a stream that comes in pieces, records into a stream, and name-value pairs. */
module FastCgi {

  datatype Option<T> = None | Some(value: T)

  // ---------------------------------------------------------------- records (FastCGI 1.0, section 3.3)

  const HEADER := 8
  const CONTENT := 65535
  const CAPACITY := HEADER + CONTENT
  const VERSION_1 := 1
  const STDOUT := 6

  ghost predicate Bytes(s: seq<int>) {
    forall i {:trigger s[i]} :: 0 <= i < |s| ==> 0 <= s[i] < 256
  }

  function ContentLength(s: seq<int>): int
    requires |s| >= HEADER
  {
    s[4] * 256 + s[5]
  }

  /** How many bytes the record at the start of `s` takes: header, content and padding. */
  function Needed(s: seq<int>): int
    requires |s| >= HEADER
  {
    HEADER + ContentLength(s) + s[6]
  }

  /** A whole record at the start of `s`, of a size that the buffer can hold. */
  ghost predicate HasRecord(s: seq<int>) {
    |s| >= HEADER && Needed(s) <= |s| && Needed(s) <= CAPACITY
  }

  /** The records of a stream, up to the first that is not whole or is too large. */
  ghost function Parse(s: seq<int>): seq<seq<int>>
    requires Bytes(s)
    decreases |s|
  {
    if !HasRecord(s) then []
    else
      BytesPositive(s);
      [s[..Needed(s)]] + Parse(s[Needed(s)..])
  }

  lemma BytesPositive(s: seq<int>)
    requires Bytes(s) && |s| >= HEADER
    ensures Needed(s) >= HEADER
    ensures Needed(s) <= |s| ==> Bytes(s[Needed(s)..]) && Bytes(s[..Needed(s)])
  {
    assert s[4] >= 0 && s[5] >= 0 && s[6] >= 0;
  }

  // ---------------------------------------------------------------- receiving

  /** A connection, and what `recv` gives of it: the `i`th time, some of what is left, as `pick` says. */
  class Input {
    const stream: seq<int>
    const pick: nat -> nat
    const buffer: array<int>
    var available: nat
    var used: nat
    var taken: nat       // of the stream
    var calls: nat

    ghost predicate Valid()
      reads this, buffer
    {
      && buffer.Length == CAPACITY && used <= available <= CAPACITY && taken <= |stream| && Bytes(stream)
      && Bytes(buffer[..available])
    }

    /** What has come or will come, after the record that was given out last. */
    ghost function Ahead(): seq<int>
      reads this, buffer
      requires Valid()
    {
      buffer[used..available] + stream[taken..]
    }

    constructor (stream: seq<int>, pick: nat -> nat)
      requires Bytes(stream)
      ensures Valid() && fresh(buffer) && this.stream == stream && this.pick == pick && Ahead() == stream
    {
      this.stream, this.pick := stream, pick;
      buffer := new int[CAPACITY];
      available, used, taken, calls := 0, 0, 0, 0;
    }

    /** `recv`, into the buffer after what is there: at least a byte if there is one and room for it. */
    method Receive() returns (n: nat)
      requires Valid() && used == 0
      modifies buffer, this`taken, this`calls, this`available
      ensures Valid() && Ahead() == old(Ahead()) && available == old(available) + n
      ensures n == 0 <==> old(available) == CAPACITY || old(taken) == |stream|
    {
      calls := calls + 1;
      var room, left := CAPACITY - available, |stream| - taken;
      if room == 0 || left == 0 {
        return 0;
      }
      n := AtMost(pick(calls), if room < left then room else left);
      Copy(n);
    }

    method Copy(n: nat)
      requires Valid() && used == 0 && available + n <= CAPACITY && taken + n <= |stream|
      modifies buffer, this`taken, this`available
      ensures Valid() && Ahead() == old(Ahead()) && available == old(available) + n && taken == old(taken) + n
    {
      ghost var before := buffer[..available];
      var i := 0;
      while i < n
        invariant i <= n && buffer[..available + i] == before + stream[taken..taken + i]
        modifies buffer
      {
        buffer[available + i] := stream[taken + i];
        assert buffer[..available + i + 1] == buffer[..available + i] + [stream[taken + i]];
        i := i + 1;
      }
      assert buffer[..available + n][..available] == before
        && buffer[..available + n][available..] == stream[taken..taken + n];
      Moved(before, buffer[..available + n], stream, taken, n);
      available, taken := available + n, taken + n;
    }

    /** The `memmove` at the start of `fastcgi_recv`. */
    method Shift()
      requires Valid()
      modifies buffer, this`available, this`used
      ensures Valid() && used == 0 && Ahead() == old(Ahead())
    {
      if used > 0 {
        ghost var before := buffer[..];
        var i := 0;
        while i < available - used
          invariant i <= available - used && buffer[..i] == before[used..used + i] && buffer[i..] == before[i..]
          modifies buffer
        {
          ghost var tail := buffer[i..];
          assert tail[used] == before[i..][used] && tail[1..] == before[i..][1..] == before[i + 1..];
          buffer[i] := buffer[i + used];
          assert buffer[..i + 1] == buffer[..i] + [before[used + i]] && buffer[i + 1..] == tail[1..];
          i := i + 1;
        }
        ShiftedBytes(old(buffer[..available]), before[used..available], used);
        available, used := available - used, 0;
      }
    }

    /** `fastcgi_recv`: the next record, as the bytes of it in the buffer. */
    method Next() returns (r: Option<seq<int>>)
      requires Valid()
      modifies buffer, this`taken, this`calls, this`available, this`used
      ensures Valid()
      ensures r == if HasRecord(old(Ahead())) then Some(old(Ahead())[..Needed(old(Ahead()))]) else None
      ensures r.Some? ==> Ahead() == old(Ahead())[Needed(old(Ahead()))..]
    {
      Shift();
      while true
        invariant Valid() && used == 0 && Ahead() == old(Ahead())
        decreases |stream| - taken
      {
        if available >= HEADER && available >= HEADER + (buffer[4] * 256 + buffer[5]) + buffer[6] {
          BytesPositive(buffer[..available]);
          used := HEADER + (buffer[4] * 256 + buffer[5]) + buffer[6];
          FrontRecord(buffer[..available], stream[taken..], used);
          assert buffer[..available][..used] == buffer[..used];
          return Some(buffer[..used]);
        }
        ghost var have := buffer[..available];
        var n := Receive();
        if n <= 0 {
          NoRecord(have, stream[taken..]);
          return None;
        }
      }
    }
  }

  lemma ShiftedBytes(have: seq<int>, left: seq<int>, used: nat)
    requires Bytes(have) && used <= |have| && left == have[used..]
    ensures Bytes(left)
  {
  }

  /** At least one and at most `most`. */
  function AtMost(n: nat, most: nat): (m: nat)
    requires most > 0
    ensures 1 <= m <= most
  {
    1 + n % most
  }

  lemma Moved(before: seq<int>, after: seq<int>, stream: seq<int>, taken: nat, n: nat)
    requires taken + n <= |stream| && |after| == |before| + n && Bytes(before) && Bytes(stream)
    requires after[..|before|] == before && after[|before|..] == stream[taken..taken + n]
    ensures before + stream[taken..] == after + stream[taken + n..] && Bytes(after)
  {
    assert after == before + stream[taken..taken + n];
    assert stream[taken..] == stream[taken..taken + n] + stream[taken + n..];
  }

  lemma FrontRecord(have: seq<int>, rest: seq<int>, used: int)
    requires |have| >= HEADER && Bytes(have) && used == Needed(have) <= |have| <= CAPACITY
    ensures HasRecord(have + rest) && Needed(have + rest) == used
    ensures (have + rest)[..used] == have[..used] && (have + rest)[used..] == have[used..] + rest
  {
  }

  lemma NoRecord(have: seq<int>, rest: seq<int>)
    requires |have| < HEADER || |have| < Needed(have)
    requires |have| == CAPACITY || rest == []
    ensures !HasRecord(have + rest)
  {
  }

  /** Every record in turn. */
  method ReadAll(input: Input) returns (records: seq<seq<int>>)
    requires input.Valid()
    modifies input, input.buffer
    ensures input.Valid() && records == Parse(old(input.Ahead()))
  {
    records := [];
    ghost var start := input.Ahead();
    while true
      invariant input.Valid() && records + Parse(input.Ahead()) == Parse(start)
      decreases |input.Ahead()|
    {
      ghost var ahead := input.Ahead();
      var r := input.Next();
      if r.None? {
        return;
      }
      BytesPositive(ahead);
      assert Parse(ahead) == [r.value] + Parse(input.Ahead());
      Associate(records, [r.value], Parse(input.Ahead()));
      records := records + [r.value];
    }
  }

  // ---------------------------------------------------------------- sending

  /** A record with no padding, as `fastcgi_send` writes it. */
  function Record(typ: int, id: int, content: seq<int>): seq<int>
    requires |content| <= CONTENT
  {
    [VERSION_1, typ, id / 256, id % 256, |content| / 256, |content| % 256, 0, 0] + content
  }

  /** The records for a buffer: whole ones while there is enough, then the rest. */
  function Records(id: int, buf: seq<int>): seq<seq<int>>
    decreases |buf|
  {
    if buf == [] then []
    else
      var n := if |buf| > CONTENT then CONTENT else |buf|;
      [Record(STDOUT, id, buf[..n])] + Records(id, buf[n..])
  }

  function Flat(rs: seq<seq<int>>): seq<int> {
    if rs == [] then [] else rs[0] + Flat(rs[1..])
  }

  /** A connection that takes what is sent to it, until it fails. */
  class Output {
    var sent: seq<int>
    var lives: nat
    const id: int

    /** `fastcgi_send` */
    method Send(typ: int, content: seq<int>) returns (failed: bool)
      requires |content| <= CONTENT
      modifies this
      ensures failed <==> old(lives) == 0
      ensures sent == old(sent) + if failed then [] else Record(typ, id, content)
      ensures lives == if failed then 0 else old(lives) - 1
    {
      failed := lives == 0;
      if !failed {
        sent, lives := sent + Record(typ, id, content), lives - 1;
      }
    }

    /** `write_stdout` */
    method WriteStdout(buf: seq<int>) returns (r: int)
      modifies this
      ensures r == 0 || r == -1
      ensures r == 0 <==> |Records(id, buf)| <= old(lives)
      ensures r == 0 ==> sent == old(sent) + Flat(Records(id, buf))
    {
      var rest := buf;
      ghost var start := sent;
      assert start + Flat(Records(id, buf)) == sent + Flat(Records(id, rest));
      while |rest| > 0
        invariant sent + Flat(Records(id, rest)) == start + Flat(Records(id, buf))
        invariant lives - |Records(id, rest)| == old(lives) - |Records(id, buf)|
        decreases |rest|
      {
        var n := if |rest| > CONTENT then CONTENT else |rest|;
        ghost var rs := Records(id, rest);
        assert rs[1..] == Records(id, rest[n..]);
        Associate(sent, rs[0], Flat(rs[1..]));
        var failed := Send(STDOUT, rest[..n]);
        if failed {
          return -1;
        }
        rest := rest[n..];
      }
      assert rest == [] && sent + [] == sent;
      r := 0;
    }
  }

  lemma Associate<T>(a: seq<T>, b: seq<T>, c: seq<T>)
    ensures a + b + c == a + (b + c)
  {
  }

  /** The content of a record. */
  function Content(r: seq<int>): seq<int>
    requires |r| >= HEADER
  {
    if 0 <= ContentLength(r) <= |r| - HEADER then r[HEADER..HEADER + ContentLength(r)] else []
  }

  /** `fastcgi_request_id` */
  function RequestId(r: seq<int>): int
    requires |r| >= HEADER
  {
    r[2] * 256 + r[3]
  }

  /** The header of a record: version 1, a type, a request, and neither padding nor anything reserved. */
  predicate Headed(r: seq<int>, typ: int, id: int) {
    |r| >= HEADER && r[0] == 1 && r[1] == typ && RequestId(r) == id && r[6] == 0 && r[7] == 0
  }

  ghost function Contents(rs: seq<seq<int>>): seq<int> {
    if rs == [] then [] else (if |rs[0]| >= HEADER then Content(rs[0]) else []) + Contents(rs[1..])
  }

  lemma RecordShape(typ: int, id: int, content: seq<int>, rest: seq<int>)
    requires |content| <= CONTENT && 0 <= typ < 256 && 0 <= id < 65536 && Bytes(content)
    ensures var r := Record(typ, id, content);
      && Bytes(r) && HasRecord(r + rest) && Needed(r + rest) == |r| && Content(r) == content
      && (r + rest)[..|r|] == r && (r + rest)[|r|..] == rest
  {
    var r := Record(typ, id, content);
    assert (r + rest)[4] * 256 + (r + rest)[5] == |content|;
    forall i {:trigger r[i]} | 0 <= i < |r| ensures 0 <= r[i] < 256 {
      if i >= HEADER {
        assert r[i] == content[i - HEADER];
      }
    }
  }

  /** And its header is as the standard has it. */
  lemma RecordHeader(typ: int, id: int, content: seq<int>)
    requires |content| <= CONTENT && 0 <= typ < 256 && 0 <= id < 65536
    ensures Headed(Record(typ, id, content), typ, id) && |Record(typ, id, content)| == 8 + |content|
  {
  }

  /** Every record that `write_stdout` sends is one of standard output (type 6) for the request, and not empty. */
  lemma {:induction false} RecordsHeaded(id: int, buf: seq<int>, i: nat)
    requires 0 <= id < 65536 && Bytes(buf) && i < |Records(id, buf)|
    ensures Headed(Records(id, buf)[i], 6, id) && Content(Records(id, buf)[i]) != []
    decreases i
  {
    var n := if |buf| > CONTENT then CONTENT else |buf|;
    if i == 0 {
      RecordShape(STDOUT, id, buf[..n], []);
      RecordHeader(STDOUT, id, buf[..n]);
    } else {
      assert Records(id, buf)[1..] == Records(id, buf[n..]);
      RecordsHeaded(id, buf[n..], i - 1);
    }
  }

  /** What `write_stdout` sends is read as records whose contents are the buffer. */
  lemma WrittenIsRead(id: int, buf: seq<int>)
    requires 0 <= id < 65536 && Bytes(buf)
    ensures Bytes(Flat(Records(id, buf))) && Parse(Flat(Records(id, buf))) == Records(id, buf)
    ensures Contents(Records(id, buf)) == buf
  {
    RecordsParsed(id, buf);
    RecordsContents(id, buf);
  }

  lemma {:induction false} RecordsParsed(id: int, buf: seq<int>)
    requires 0 <= id < 65536 && Bytes(buf)
    ensures Bytes(Flat(Records(id, buf))) && Parse(Flat(Records(id, buf))) == Records(id, buf)
    decreases |buf|
  {
    if buf != [] {
      var n := if |buf| > CONTENT then CONTENT else |buf|;
      var r, rs := Record(STDOUT, id, buf[..n]), Records(id, buf[n..]);
      RecordsParsed(id, buf[n..]);
      RecordShape(STDOUT, id, buf[..n], Flat(rs));
      assert Records(id, buf)[1..] == rs;
      ParseFirst(r, Flat(rs));
    }
  }

  lemma {:induction false} RecordsContents(id: int, buf: seq<int>)
    requires 0 <= id < 65536 && Bytes(buf)
    ensures Contents(Records(id, buf)) == buf
    decreases |buf|
  {
    if buf != [] {
      var n := if |buf| > CONTENT then CONTENT else |buf|;
      RecordsContents(id, buf[n..]);
      RecordShape(STDOUT, id, buf[..n], []);
      assert Records(id, buf)[1..] == Records(id, buf[n..]);
      assert buf[..n] + buf[n..] == buf;
    }
  }

  lemma ParseFirst(r: seq<int>, rest: seq<int>)
    requires Bytes(r) && Bytes(rest) && HasRecord(r + rest) && Needed(r + rest) == |r|
    ensures Bytes(r + rest) && Parse(r + rest) == [r] + Parse(rest)
  {
    assert (r + rest)[..|r|] == r && (r + rest)[|r|..] == rest;
  }

  // ---------------------------------------------------------------- name-value pairs (section 3.4)

  /** A length: one byte when it is below 128, otherwise four with the high bit of the first set. */
  function EncodeLength(n: nat): seq<int>
    requires n < 0x8000_0000
  {
    if n < 128 then [n] else [128 + n / 0x100_0000, n / 0x1_0000 % 256, n / 256 % 256, n % 256]
  }

  /** `read_funny_len`: the length and the position after it. */
  method ReadFunnyLen(buf: seq<int>, pos: nat) returns (len: int, next: nat)
    requires Bytes(buf) && pos <= |buf|
    ensures pos <= next <= |buf|
    ensures (len, next) == FunnyLen(buf, pos)
  {
    if pos == |buf| {
      return -1, pos;
    }
    if buf[pos] / 128 == 0 {
      return buf[pos], pos + 1;
    }
    if |buf| - pos < 4 {
      return -1, pos;
    }
    len := (buf[pos] % 128) * 0x100_0000 + buf[pos + 1] * 0x1_0000 + buf[pos + 2] * 256 + buf[pos + 3];
    next := pos + 4;
  }

  function FunnyLen(buf: seq<int>, pos: nat): (int, nat)
    requires pos <= |buf|
  {
    if pos == |buf| then (-1, pos)
    else if buf[pos] < 128 then (buf[pos], pos + 1)
    else if |buf| - pos < 4 then (-1, pos)
    else ((buf[pos] % 128) * 0x100_0000 + buf[pos + 1] * 0x1_0000 + buf[pos + 2] * 256 + buf[pos + 3], pos + 4)
  }

  datatype Pair = Pair(name: seq<int>, value: seq<int>)

  function FunnyLenNext(buf: seq<int>, pos: nat): (next: nat)
    requires pos <= |buf|
    ensures pos <= next <= |buf|
  {
    FunnyLen(buf, pos).1
  }

  /** What comes of reading a pair: the code, the pair and the position after it. */
  function NvpAt(buf: seq<int>, pos: nat): (int, Pair, nat)
    requires pos <= |buf|
  {
    var n, p1 := FunnyLen(buf, pos).0, FunnyLenNext(buf, pos);
    if n < 0 then (-1, Pair([], []), p1)
    else
      var m, p2 := FunnyLen(buf, p1).0, FunnyLenNext(buf, p1);
      if m < 0 then (-2, Pair([], []), p2)
      else if |buf| - p2 < n + m then (-3, Pair([], []), p2)
      else (0, Pair(buf[p2..p2 + n], buf[p2 + n..p2 + n + m]), p2 + n + m)
  }

  /** `read_nvp` */
  method ReadNvp(buf: seq<int>, pos: nat) returns (code: int, pair: Pair, next: nat)
    requires Bytes(buf) && pos <= |buf|
    ensures (code, pair, next) == NvpAt(buf, pos)
  {
    pair := Pair([], []);
    var n, p1 := ReadFunnyLen(buf, pos);
    if n < 0 {
      return -1, pair, p1;
    }
    var m, p2 := ReadFunnyLen(buf, p1);
    if m < 0 {
      return -2, pair, p2;
    }
    if |buf| - p2 < n + m {
      return -3, pair, p2;
    }
    code, pair, next := 0, Pair(buf[p2..p2 + n], buf[p2 + n..p2 + n + m]), p2 + n + m;
  }

  function EncodePair(p: Pair): seq<int>
    requires |p.name| < 0x8000_0000 && |p.value| < 0x8000_0000
  {
    EncodeLength(|p.name|) + EncodeLength(|p.value|) + p.name + p.value
  }

  lemma LengthDigits(n: nat)
    requires n < 0x8000_0000
    ensures n == n / 0x100_0000 * 0x100_0000 + n / 0x1_0000 % 256 * 0x1_0000 + n / 256 % 256 * 256 + n % 256
    ensures n / 0x100_0000 < 128
  {
    assert n / 256 == n / 0x1_0000 * 256 + n / 256 % 256;
    assert n / 0x1_0000 == n / 0x100_0000 * 256 + n / 0x1_0000 % 256;
  }

  predicate Holds(buf: seq<int>, pos: nat, part: seq<int>) {
    pos + |part| <= |buf| && buf[pos..pos + |part|] == part
  }

  lemma FunnyLenOf(buf: seq<int>, pos: nat, n: nat)
    requires n < 0x8000_0000 && Holds(buf, pos, EncodeLength(n))
    ensures FunnyLen(buf, pos) == (n, pos + |EncodeLength(n)|)
  {
    LengthDigits(n);
    var e := EncodeLength(n);
    forall i | 0 <= i < |e| ensures buf[pos + i] == e[i] {
      assert buf[pos..pos + |e|][i] == buf[pos + i];
    }
  }

  lemma FourParts(before: seq<int>, a: seq<int>, b: seq<int>, n: seq<int>, v: seq<int>, after: seq<int>)
    ensures
      var buf := before + (a + b + n + v) + after;
      var p2 := |before| + |a| + |b|;
      && Holds(buf, |before|, a) && Holds(buf, |before| + |a|, b) && Holds(buf, p2, n) && Holds(buf, p2 + |n|, v)
  {
  }

  lemma NvpOf(buf: seq<int>, pos: nat, p: Pair)
    requires |p.name| < 0x8000_0000 && |p.value| < 0x8000_0000
    requires Holds(buf, pos, EncodeLength(|p.name|))
    requires Holds(buf, pos + |EncodeLength(|p.name|)|, EncodeLength(|p.value|))
    requires var p2 := pos + |EncodeLength(|p.name|)| + |EncodeLength(|p.value|)|;
             Holds(buf, p2, p.name) && Holds(buf, p2 + |p.name|, p.value)
    ensures NvpAt(buf, pos) == (0, p, pos + |EncodePair(p)|)
  {
    FunnyLenOf(buf, pos, |p.name|);
    FunnyLenOf(buf, pos + |EncodeLength(|p.name|)|, |p.value|);
  }

  /** A pair as the standard encodes it is read back, wherever it is in a buffer. */
  lemma PairComesBack(before: seq<int>, p: Pair, after: seq<int>)
    requires |p.name| < 0x8000_0000 && |p.value| < 0x8000_0000
    ensures NvpAt(before + EncodePair(p) + after, |before|) == (0, p, |before| + |EncodePair(p)|)
  {
    FourParts(before, EncodeLength(|p.name|), EncodeLength(|p.value|), p.name, p.value, after);
    NvpOf(before + EncodePair(p) + after, |before|, p);
  }
}
