/** The text of messages from the server to the browser. */
module MessageText {

  datatype Option<T> = None | Some(value: T)

  // ---------------------------------------------------------------- the text of messages

  datatype Frame = Frame(channel: nat, text: string)

  function Digit(d: nat): char
    requires d < 10
  {
    '0' + d as char
  }

  /** A number as `sprintf("%u")` writes it. */
  function Decimal(n: nat): (s: string)
    ensures s != [] && forall i :: 0 <= i < |s| ==> '0' <= s[i] <= '9'
  {
    if n < 10 then [Digit(n)] else Decimal(n / 10) + [Digit(n % 10)]
  }

  function ParseDecimal(s: string): (r: Option<nat>) {
    if s == [] then None
    else
      var c := s[|s| - 1];
      if !('0' <= c <= '9') then None
      else if |s| == 1 then Some((c - '0') as nat)
      else
        match ParseDecimal(s[..|s| - 1])
        case None => None
        case Some(n) => Some(10 * n + (c - '0') as nat)
  }

  lemma {:induction false} ParseOfDecimal(n: nat)
    ensures ParseDecimal(Decimal(n)) == Some(n)
  {
    var s := Decimal(n);
    if n >= 10 {
      ParseOfDecimal(n / 10);
      assert s[..|s| - 1] == Decimal(n / 10);
    }
  }

  function EncodeFrame(f: Frame): string {
    Decimal(f.channel) + "\n" + f.text + "\n"
  }

  function Encode(frames: seq<Frame>): string {
    if frames == [] then "" else EncodeFrame(frames[0]) + Encode(frames[1..])
  }

  lemma {:induction false} EncodeConcat(a: seq<Frame>, b: seq<Frame>)
    ensures Encode(a + b) == Encode(a) + Encode(b)
  {
    if a == [] {
      assert a + b == b;
    } else {
      assert (a + b)[1..] == a[1..] + b;
      EncodeConcat(a[1..], b);
    }
  }

  lemma EncodeEmpty(frames: seq<Frame>)
    ensures Encode(frames) == "" <==> frames == []
  {
    if frames != [] {
      assert |EncodeFrame(frames[0])| > 0;
    }
  }

  /** What a response says after its headers: a script to run, if there is one, and messages. */
  function Body(script: string, msgs: string): string {
    (if script == "" then "" else "E\n" + script + "\n") + msgs
  }

  // ---------------------------------------------------------------- what the reader makes of it

  predicate OneLine(s: string) {
    forall i :: 0 <= i < |s| ==> s[i] != '\n'
  }

  /** `split("\n")` */
  function Split(s: string): (lines: seq<string>)
    ensures lines != []
  {
    if s == "" then [""]
    else
      var rest := Split(s[1..]);
      if s[0] == '\n' then [""] + rest else [[s[0]] + rest[0]] + rest[1..]
  }

  lemma {:induction false} SplitLine(line: string, rest: string)
    requires OneLine(line)
    ensures Split(line + "\n" + rest) == [line] + Split(rest)
  {
    var s := line + "\n" + rest;
    if line == "" {
      assert s[1..] == rest;
    } else {
      assert s[1..] == line[1..] + "\n" + rest;
      SplitLine(line[1..], rest);
      assert [line[0]] + line[1..] == line;
    }
  }

  datatype Event = Eval(script: string) | Message(channel: nat, text: string)

  /** `messageReader` over the lines from `i` on; nothing when a channel is not a number. */
  function Read(lines: seq<string>, i: nat): Option<seq<Event>>
    decreases |lines| - i
  {
    if i + 1 >= |lines| then Some([])
    else
      match Read(lines, i + 2)
      case None => None
      case Some(rest) =>
        if lines[i] == "E" then Some([Eval(lines[i + 1])] + rest)
        else
          match ParseDecimal(lines[i])
          case None => None
          case Some(n) => Some([Message(n, lines[i + 1])] + rest)
  }

  ghost predicate OneLiners(frames: seq<Frame>) {
    forall i {:trigger frames[i]} :: 0 <= i < |frames| ==> OneLine(frames[i].text)
  }

  function Events(frames: seq<Frame>): seq<Event> {
    if frames == [] then [] else [Message(frames[0].channel, frames[0].text)] + Events(frames[1..])
  }

  lemma ReadShift(lines: seq<string>, a: string, b: string, i: nat)
    ensures Read([a, b] + lines, i + 2) == Read(lines, i)
    decreases |lines| - i
  {
    var l := [a, b] + lines;
    if i + 1 < |lines| {
      ReadShift(lines, a, b, i + 2);
      assert l[i + 2] == lines[i] && l[i + 3] == lines[i + 1];
    }
  }

  lemma SplitPair(a: string, b: string, rest: string)
    requires OneLine(a) && OneLine(b)
    ensures Split(a + "\n" + b + "\n" + rest) == [a, b] + Split(rest)
  {
    assert a + "\n" + b + "\n" + rest == a + "\n" + (b + "\n" + rest);
    SplitLine(a, b + "\n" + rest);
    SplitLine(b, rest);
    assert [a] + ([b] + Split(rest)) == [a, b] + Split(rest);
  }

  /** The reader gets back the messages, when no text has a newline in it. */
  lemma {:induction false} ReadMessages(frames: seq<Frame>)
    requires OneLiners(frames)
    ensures Read(Split(Encode(frames)), 0) == Some(Events(frames))
  {
    if frames != [] {
      var f, rest := frames[0], Encode(frames[1..]);
      var chn := Decimal(f.channel);
      ReadMessages(frames[1..]);
      assert Encode(frames) == chn + "\n" + f.text + "\n" + rest;
      SplitPair(chn, f.text, rest);
      ReadShift(Split(rest), chn, f.text, 0);
      ParseOfDecimal(f.channel);
      assert chn[0] != 'E';
    }
  }

  /** And the script before them. */
  lemma ReadBody(script: string, frames: seq<Frame>)
    requires OneLine(script) && OneLiners(frames)
    ensures Read(Split(Body(script, Encode(frames))), 0) ==
            Some((if script == "" then [] else [Eval(script)]) + Events(frames))
  {
    ReadMessages(frames);
    if script != "" {
      ReadScript(script, Encode(frames));
    } else {
      assert Body(script, Encode(frames)) == Encode(frames);
      assert [] + Events(frames) == Events(frames);
    }
  }

  lemma ReadScript(script: string, rest: string)
    requires OneLine(script) && script != "" && Read(Split(rest), 0).Some?
    ensures Read(Split(Body(script, rest)), 0) == Some([Eval(script)] + Read(Split(rest), 0).value)
  {
    assert Body(script, rest) == "E" + "\n" + script + "\n" + rest;
    SplitPair("E", script, rest);
    ReadShift(Split(rest), "E", script, 0);
  }
}
