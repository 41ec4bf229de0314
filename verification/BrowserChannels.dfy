/** Messages in the browser: the queues of a channel, and the channels of a page. */
module BrowserChannels {
  import opened MessageText

  // ---------------------------------------------------------------- queues in the browser

  class Node<T> {
    const data: T
    var next: Node?<T>
    ghost const serial: nat

    constructor (data: T, ghost serial: nat)
      ensures this.data == data && next == null && this.serial == serial
    {
      this.data, next, this.serial := data, null, serial;
    }
  }

  /** A list with a pointer to its last node. */
  class Queue<T> {
    var front: Node?<T>
    var back: Node?<T>
    ghost var nodes: seq<Node<T>>
    ghost var contents: seq<T>
    ghost var taken: nat

    ghost predicate Valid()
      reads this, nodes
    {
      && (forall i {:trigger nodes[i]} :: 0 <= i < |nodes| ==> nodes[i].serial == taken + i)
      && |contents| == |nodes| && (forall i {:trigger nodes[i]} :: 0 <= i < |nodes| ==> nodes[i].data == contents[i])
      && (forall i {:trigger nodes[i].next} ::
        0 <= i < |nodes| ==> nodes[i].next == if i + 1 < |nodes| then nodes[i + 1] else null)
      && front == (if nodes == [] then null else nodes[0])
      && back == (if nodes == [] then null else nodes[|nodes| - 1])
    }

    /** `newQueue` */
    constructor ()
      ensures Valid() && nodes == [] && contents == []
    {
      front, back := null, null;
      nodes, contents, taken := [], [], 0;
    }

    /** `enqueue` */
    method Enqueue(v: T)
      requires Valid()
      modifies this, nodes
      ensures Valid() && contents == old(contents) + [v]
      ensures |nodes| > 0 && fresh(nodes[|nodes| - 1]) && nodes == old(nodes) + [nodes[|nodes| - 1]]
    {
      var node := new Node(v, taken + |nodes|);
      if front == null {
        front := node;
        back := front;
      } else {
        back.next := node;
        back := node;
      }
      nodes, contents := nodes + [node], contents + [v];
    }

    /** `dequeue` */
    method Dequeue() returns (r: Option<T>)
      requires Valid()
      modifies this
      ensures Valid()
      ensures match r
              case None => old(contents) == [] && contents == [] && nodes == old(nodes)
              case Some(v) => old(contents) == [v] + contents && nodes == old(nodes)[1..]
    {
      if front == null {
        return None;
      }
      r := Some(front.data);
      front := front.next;
      if front == null {
        back := null;
      }
      nodes, contents, taken := nodes[1..], contents[1..], taken + 1;
    }
  }

  // ---------------------------------------------------------------- a channel

  /** The messages that no receive has asked for yet, and the receives that no message has come for yet. */
  datatype Lists = Lists(msgs: seq<string>, listeners: seq<nat>)

  /** A message arrives: the oldest receive gets it, or it waits. */
  function ArriveOn(l: Lists, text: string): (r: (Lists, Option<nat>)) {
    if l.listeners == [] then (l.(msgs := l.msgs + [text]), None)
    else (l.(listeners := l.listeners[1..]), Some(l.listeners[0]))
  }

  /** A receive with the continuation `k`: it gets the oldest message, or it waits. */
  function ReceiveOn(l: Lists, k: nat): (r: (Lists, Option<string>)) {
    if l.msgs == [] then (l.(listeners := l.listeners + [k]), None)
    else (l.(msgs := l.msgs[1..]), Some(l.msgs[0]))
  }

  class Channel {
    const msgs: Queue<string>
    const listeners: Queue<nat>

    ghost predicate Valid()
      reads this, msgs, listeners, msgs.nodes, listeners.nodes
    {
      msgs.Valid() && listeners.Valid()
    }

    ghost function View(): Lists
      reads this, msgs, listeners
    {
      Lists(msgs.contents, listeners.contents)
    }

    /** `newChannel` */
    constructor ()
      ensures Valid() && View() == Lists([], []) && fresh(msgs) && fresh(listeners)
    {
      msgs := new Queue();
      listeners := new Queue();
    }

    /** The part of `messageReader` for one message; the continuation to call, if there is one. */
    method Arrive(text: string) returns (k: Option<nat>)
      requires Valid()
      modifies msgs, listeners, msgs.nodes
      ensures Valid() && (View(), k) == ArriveOn(old(View()), text)
    {
      k := listeners.Dequeue();
      if k.None? {
        msgs.Enqueue(text);
      }
    }

    /** The part of `rv` for its channel; the message to go on with, if there is one. */
    method Receive(k: nat) returns (text: Option<string>)
      requires Valid()
      modifies msgs, listeners, listeners.nodes
      ensures Valid() && (View(), text) == ReceiveOn(old(View()), k)
    {
      text := msgs.Dequeue();
      if text.None? {
        listeners.Enqueue(k);
      }
    }
  }

  // ---------------------------------------------------------------- what a channel has seen

  /** What has come and what has been asked for, so far. */
  datatype Seen = Seen(arrived: seq<string>, receivers: seq<nat>)

  ghost function Beyond<T>(s: seq<T>, n: nat): seq<T> {
    if n <= |s| then s[n..] else []
  }

  /** Only what is in excess is kept. */
  ghost predicate Keeps(l: Lists, seen: Seen) {
    l == Lists(Beyond(seen.arrived, |seen.receivers|), Beyond(seen.receivers, |seen.arrived|))
  }

  /** A call of the continuation of a receive with a message. */
  datatype Call = Call(channel: nat, receiver: nat, text: string)

  /** The calls that are due: the `i`th receive goes on with the `i`th message. */
  ghost function Due(n: nat, seen: Seen): (c: seq<Call>)
    ensures |c| == if |seen.receivers| <= |seen.arrived| then |seen.receivers| else |seen.arrived|
    ensures forall i :: 0 <= i < |c| ==> c[i] == Call(n, seen.receivers[i], seen.arrived[i])
  {
    var m := if |seen.receivers| <= |seen.arrived| then |seen.receivers| else |seen.arrived|;
    seq(m, i requires 0 <= i < m => Call(n, seen.receivers[i], seen.arrived[i]))
  }

  lemma AfterArrival(n: nat, l: Lists, seen: Seen, text: string)
    requires Keeps(l, seen)
    ensures
      var r := ArriveOn(l, text);
      var seen' := seen.(arrived := seen.arrived + [text]);
      && Keeps(r.0, seen')
      && Due(n, seen') == Due(n, seen) + match r.1 case Some(k) => [Call(n, k, text)] case None => []
  {
  }

  lemma AfterReceive(n: nat, l: Lists, seen: Seen, k: nat)
    requires Keeps(l, seen)
    ensures
      var r := ReceiveOn(l, k);
      var seen' := seen.(receivers := seen.receivers + [k]);
      && Keeps(r.0, seen')
      && Due(n, seen') == Due(n, seen) + match r.1 case Some(text) => [Call(n, k, text)] case None => []
  {
  }

  // ---------------------------------------------------------------- a page

  ghost function OnChannel(calls: seq<Call>, n: nat): seq<Call> {
    if calls == [] then []
    else OnChannel(calls[..|calls| - 1], n) + if calls[|calls| - 1].channel == n then [calls[|calls| - 1]] else []
  }

  lemma OnChannelSnoc(calls: seq<Call>, c: Call, n: nat)
    ensures OnChannel(calls + [c], n) == OnChannel(calls, n) + if c.channel == n then [c] else []
  {
    assert (calls + [c])[..|calls|] == calls;
  }

  ghost function SeenOn(seen: map<nat, Seen>, n: nat): Seen {
    if n in seen then seen[n] else Seen([], [])
  }

  function ListsOn(channels: map<nat, Lists>, n: nat): Lists {
    if n in channels then channels[n] else Lists([], [])
  }

  ghost predicate ChannelOk(channels: map<nat, Lists>, calls: seq<Call>, seen: map<nat, Seen>, n: nat) {
    Keeps(ListsOn(channels, n), SeenOn(seen, n)) && OnChannel(calls, n) == Due(n, SeenOn(seen, n))
  }

  ghost function Receiving(seen: map<nat, Seen>, n: nat, k: nat): map<nat, Seen> {
    seen[n := Seen(SeenOn(seen, n).arrived, SeenOn(seen, n).receivers + [k])]
  }

  ghost function Arriving(seen: map<nat, Seen>, n: nat, text: string): map<nat, Seen> {
    seen[n := Seen(SeenOn(seen, n).arrived + [text], SeenOn(seen, n).receivers)]
  }

  lemma SplitAlone(text: string)
    ensures text == "R" <==> Split(text) == ["R"]
  {
    if text != "" {
      var rest := Split(text[1..]);
      SplitEmpty(text[1..]);
      assert text == [text[0]] + text[1..];
      if text == "R" {
        assert Split(text) == [[text[0]] + ""] + [];
      }
      if Split(text) == ["R"] {
        assert ([[text[0]] + rest[0]] + rest[1..])[0] == [text[0]] + rest[0];
        assert |rest| == 1 && rest[0] == "" && rest == [""];
      }
    }
  }

  lemma SplitEmpty(text: string)
    ensures Split(text) == [""] <==> text == ""
  {
  }

  /** A page: its channels by number, the calls and evaluations it has made, the lines of the response
      it is reading and how far it has come, and whether it loads itself again or has lost its connection. */
  class Page {
    var channels: map<nat, Lists>
    var calls: seq<Call>
    var evals: seq<string>
    var lines: seq<string>
    var at: nat
    var reloads: bool
    var lost: bool
    ghost var seen: map<nat, Seen>

    ghost predicate Valid()
      reads this`channels, this`calls, this`seen
    {
      forall n: nat {:trigger ChannelOk(channels, calls, seen, n)} :: ChannelOk(channels, calls, seen, n)
    }

    constructor ()
      ensures Valid() && calls == [] && evals == [] && seen == map[] && lines == [] && at == 0 && !reloads && !lost
    {
      channels, calls, evals, seen := map[], [], [], map[];
      lines, at, reloads, lost := [], 0, false, false;
    }

    /** Whether the page has read its last response to the end, and waits for the next. */
    predicate Idle()
      reads this`lines, this`at
    {
      at + 1 >= |lines|
    }

    /** The events of the response that are still to be read. */
    ghost function Pending(): Option<seq<Event>>
      reads this`lines, this`at
    {
      Read(lines, at)
    }

    /** `orsc`: a response has come. */
    method Respond(text: string)
      requires Idle()
      modifies this`lines, this`at, this`reloads, this`lost
      ensures reloads == (old(reloads) || text == "R")
      ensures text == "" ==> lost == old(lost)
      ensures |Split(text)| >= 2 ==> lines == Split(text) && at == 0 && lost == old(lost)
      ensures |Split(text)| < 2 ==> lines == old(lines) && at == old(at)
    {
      if text == "" {
        return;
      }
      var parts := Split(text);
      SplitAlone(text);
      if |parts| == 1 && parts[0] == "R" {
        reloads := true;
      } else if |parts| < 2 {
        lost := true;
      } else {
        lines, at := parts, 0;
      }
    }

    /** One turn of `messageReader`. Between two turns other code of the page may run, and receive; so may a
        continuation that is called, when the channel is as it is left here. */
    method Turn()
      requires Valid() && !Idle() && Pending().Some?
      modifies this`channels, this`calls, this`seen, this`evals, this`at
      ensures Valid() && old(Pending()).value != [] && Pending() == Some(old(Pending()).value[1..])
      ensures (evals, seen) == match old(Pending()).value[0]
                               case Eval(script) => (old(evals) + [script], old(seen))
                               case Message(n, text) => (old(evals), Arriving(old(seen), n, text))
    {
      var chn, msg := lines[at], lines[at + 1];
      at := at + 2;
      if chn == "E" {
        evals := evals + [msg];
      } else {
        Message(ParseDecimal(chn).value, msg);
      }
    }

    /** One message of a response. */
    method Message(n: nat, text: string)
      requires Valid()
      modifies this`channels, this`calls, this`seen
      ensures Valid() && seen == Arriving(old(seen), n, text)
    {
      var (lists, k) := ArriveOn(ListsOn(channels, n), text);
      assert ChannelOk(channels, calls, seen, n);
      AfterArrival(n, ListsOn(channels, n), SeenOn(seen, n), text);
      Called(n, lists, match k case Some(r) => Some(Call(n, r, text)) case None => None, Arriving(seen, n, text));
    }

    /** `rv`, with `k` for the continuation. */
    method Receive(n: nat, k: nat)
      requires Valid()
      modifies this`channels, this`calls, this`seen
      ensures Valid() && seen == Receiving(old(seen), n, k)
    {
      var (lists, text) := ReceiveOn(ListsOn(channels, n), k);
      assert ChannelOk(channels, calls, seen, n);
      AfterReceive(n, ListsOn(channels, n), SeenOn(seen, n), k);
      Called(n, lists, match text case Some(t) => Some(Call(n, k, t)) case None => None, Receiving(seen, n, k));
    }

    /** Keeping the channel, and making the call that is due, if one is. */
    method Called(n: nat, lists: Lists, call: Option<Call>, ghost now: map<nat, Seen>)
      requires Valid() && (call.Some? ==> call.value.channel == n) && Keeps(lists, SeenOn(now, n))
      requires forall m: nat {:trigger SeenOn(now, m)} :: m != n ==> SeenOn(now, m) == SeenOn(seen, m)
      requires Due(n, SeenOn(now, n)) == OnChannel(calls, n) + match call case Some(c) => [c] case None => []
      modifies this`channels, this`calls, this`seen
      ensures Valid() && seen == now
    {
      ghost var channels0, calls0, seen0 := channels, calls, seen;
      channels, seen := channels[n := lists], now;
      if call.Some? {
        calls := calls + [call.value];
      }
      forall m: nat ensures ChannelOk(channels, calls, seen, m) {
        assert ChannelOk(channels0, calls0, seen0, m);
        if call.Some? {
          OnChannelSnoc(calls0, call.value, m);
        }
      }
    }
  }

  /** The texts for a channel, in order. */
  ghost function OfChannel(frames: seq<Frame>, n: nat): seq<string> {
    if frames == [] then []
    else (if frames[0].channel == n then [frames[0].text] else []) + OfChannel(frames[1..], n)
  }

  /** The texts of events for a channel, and the scripts, in order. */
  ghost function OnEvents(events: seq<Event>, n: nat): seq<string> {
    if events == [] then []
    else (if events[0].Message? && events[0].channel == n then [events[0].text] else []) + OnEvents(events[1..], n)
  }

  ghost function Scripts(events: seq<Event>): seq<string> {
    if events == [] then [] else (if events[0].Eval? then [events[0].script] else []) + Scripts(events[1..])
  }

  lemma {:induction false} OnMessages(frames: seq<Frame>, n: nat)
    ensures OnEvents(Events(frames), n) == OfChannel(frames, n) && Scripts(Events(frames)) == []
    decreases |frames|
  {
    if frames != [] {
      assert Events(frames)[1..] == Events(frames[1..]);
      OnMessages(frames[1..], n);
    }
  }

  /** A response that the server writes is read, and has its script and its messages in it. */
  lemma BodyEvents(script: string, frames: seq<Frame>, n: nat)
    requires OneLine(script) && OneLiners(frames)
    ensures
      var text := Body(script, Encode(frames));
      var events := (if script == "" then [] else [Eval(script)]) + Events(frames);
      && Read(Split(text), 0) == Some(events) && text != "R" && (|Split(text)| < 2 <==> text == "")
        && (text == "" <==> events == [])
      && OnEvents(events, n) == OfChannel(frames, n) && Scripts(events) == if script == "" then [] else [script]
  {
    var text := Body(script, Encode(frames));
    var events := (if script == "" then [] else [Eval(script)]) + Events(frames);
    ReadBody(script, frames);
    OnMessages(frames, n);
    EncodeEmpty(frames);
    assert [] + Events(frames) == Events(frames);
    assert ([Eval(script)] + Events(frames))[1..] == Events(frames);
    SplitAlone(text);
    assert text == "R" ==> |Split(text)| < 2;
  }
}
