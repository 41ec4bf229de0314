/** From the server to the browser: what a page that reads its responses has done with what was sent to it. */
module MessageDelivery {
  import opened MessageText
  import opened ServerMessages
  import opened BrowserChannels

  lemma {:induction false} OfChannelConcat(a: seq<Frame>, b: seq<Frame>, n: nat)
    ensures OfChannel(a + b, n) == OfChannel(a, n) + OfChannel(b, n)
  {
    if a == [] {
      assert a + b == b;
    } else {
      assert (a + b)[1..] == a[1..] + b;
      OfChannelConcat(a[1..], b, n);
    }
  }

  /** The scripts of responses, in order. */
  ghost function ScriptsOf(batches: seq<Batch>): seq<string> {
    if batches == [] then []
    else
      var script := batches[|batches| - 1].script;
      ScriptsOf(batches[..|batches| - 1]) + if script == "" then [] else [script]
  }

  /** No newline in what is sent, nor in a script, and no response without a message. */
  ghost predicate Plain(log: Log) {
    forall b: nat {:trigger PlainAt(log, b)} :: PlainAt(log, b)
  }

  ghost predicate PlainAt(log: Log, b: nat) {
    && OneLiners(log.sent) && OneLiners(log.kept)
    && (b < |log.batches| ==>
      OneLine(log.batches[b].script) && OneLiners(log.batches[b].frames) && log.batches[b].frames != [])
  }

  /** What a page has seen and what it is still to read of its response are together the first `handled` responses. */
  ghost predicate Reached(seen: map<nat, Seen>, evals: seq<string>, pending: seq<Event>, batches: seq<Batch>, n: nat) {
    && SeenOn(seen, n).arrived + OnEvents(pending, n) == OfChannel(Flat(batches), n)
    && evals + Scripts(pending) == ScriptsOf(batches)
  }

  ghost predicate AllReached(seen: map<nat, Seen>, evals: seq<string>, pending: seq<Event>, batches: seq<Batch>) {
    forall n: nat {:trigger Reached(seen, evals, pending, batches, n)} :: Reached(seen, evals, pending, batches, n)
  }

  lemma TurnReaches(seen: map<nat, Seen>, evals: seq<string>, pending: seq<Event>, seen': map<nat, Seen>,
                    evals': seq<string>,
                    batches: seq<Batch>, n: nat)
    requires Reached(seen, evals, pending, batches, n) && pending != []
    requires (evals', seen') == match pending[0]
                                case Eval(script) => (evals + [script], seen)
                                case Message(m, text) => (evals, Arriving(seen, m, text))
    ensures Reached(seen', evals', pending[1..], batches, n)
  {
    OnRest(pending, n);
    match pending[0]
    case Eval(script) => Shift(evals, [script], Scripts(pending[1..]));
    case Message(m, text) => Shift(SeenOn(seen, n).arrived, if m == n then [text] else [], OnEvents(pending[1..], n));
  }

  lemma OnRest(pending: seq<Event>, n: nat)
    requires pending != []
    ensures OnEvents(pending, n) == match pending[0]
                                    case Eval(_) => OnEvents(pending[1..], n)
                                    case Message(m, text) => (if m == n then [text] else []) + OnEvents(pending[1..], n)
    ensures Scripts(pending) == match pending[0]
                                case Eval(script) => [script] + Scripts(pending[1..])
                                case Message(_, _) => Scripts(pending[1..])
  {
    assert [] + OnEvents(pending[1..], n) == OnEvents(pending[1..], n)
      && [] + Scripts(pending[1..]) == Scripts(pending[1..]);
  }

  lemma Shift<T>(a: seq<T>, b: seq<T>, c: seq<T>)
    ensures a + (b + c) == (a + b) + c && a + [] == a
  {
  }

  lemma ResponseReaches(seen: map<nat, Seen>, evals: seq<string>, batches: seq<Batch>, k: nat, n: nat)
    requires k < |batches| && Reached(seen, evals, [], batches[..k], n)
    requires OneLine(batches[k].script) && OneLiners(batches[k].frames)
    ensures Reached(seen, evals, BatchEvents(batches[k]), batches[..k + 1], n)
  {
    var b := batches[k];
    assert batches[..k + 1][..k] == batches[..k];
    BodyEvents(b.script, b.frames, n);
    OfChannelConcat(Flat(batches[..k]), b.frames, n);
    assert SeenOn(seen, n).arrived + [] == SeenOn(seen, n).arrived && evals + [] == evals;
  }

  lemma AllResponseReaches(seen: map<nat, Seen>, evals: seq<string>, batches: seq<Batch>, k: nat)
    requires k < |batches| && AllReached(seen, evals, [], batches[..k])
    requires OneLine(batches[k].script) && OneLiners(batches[k].frames)
    ensures AllReached(seen, evals, BatchEvents(batches[k]), batches[..k + 1])
  {
    var events, done := BatchEvents(batches[k]), batches[..k + 1];
    forall n: nat ensures Reached(seen, evals, events, done, n) {
      assert Reached(seen, evals, [], batches[..k], n);
      ResponseReaches(seen, evals, batches, k, n);
    }
  }

  ghost function BatchEvents(b: Batch): seq<Event> {
    (if b.script == "" then [] else [Eval(b.script)]) + Events(b.frames)
  }

  /** The text of a response to a client is read as the events of its part of the log. */
  lemma WrittenText(clients: seq<Client>, logs: seq<Log>, out: seq<Action>, id: nat, k: nat)
    requires |clients| == |logs| && id < |clients| && ClientOk(clients, logs, out, id) && Plain(logs[id])
    requires k < |Written(out, id)|
    ensures k < |logs[id].batches| && OneLine(logs[id].batches[k].script) && OneLiners(logs[id].batches[k].frames)
    ensures
      var text, events := Written(out, id)[k].text, BatchEvents(logs[id].batches[k]);
      && Read(Split(text), 0) == Some(events) && text != "R"
      && |Split(text)| >= 2 && events != []
  {
    var b := logs[id].batches[k];
    assert PlainAt(logs[id], k);
    assert Written(out, id)[k] == Response(id, b);
    BodyEvents(b.script, b.frames, 0);
  }

  /** A server, and the page of one of its clients, which reads the responses to it one after the other. */
  class Session {
    const server: Server
    const page: Page
    const id: nat
    /** How many responses have come. */
    var handled: nat

    ghost predicate Valid()
      reads this, server, page
    {
      && server.Valid() && page.Valid() && id < |server.clients|
      && Plain(server.logs[id]) && handled <= |server.logs[id].batches| && page.Pending().Some?
      && AllReached(page.seen, page.evals, page.Pending().value, server.logs[id].batches[..handled])
    }

    /** A new page, of a client that nothing has been sent to. */
    constructor (server: Server, id: nat)
      requires server.Valid() && id < |server.clients| && server.logs[id] == Log([], [], [])
      ensures Valid() && this.server == server && this.id == id && fresh(page) && page.seen == map[]
    {
      this.server, this.id, handled := server, id, 0;
      page := new Page();
      new;
      var b := server.logs[id].batches[..0];
      assert b == [] && Read([], 0) == Some([]);
      assert AllReached(map[], [], [], []);
    }

    /** The next response to the client comes to the page, and there is something in it to read. */
    method Arrive()
      requires Valid() && page.Idle() && handled < |Written(server.out, id)|
      modifies this`handled, page`lines, page`at, page`reloads, page`lost
      ensures Valid() && !page.Idle() && handled == old(handled) + 1 && page.reloads == old(page.reloads)
      ensures page.lost == old(page.lost)
    {
      ghost var batches := server.logs[id].batches;
      WrittenText(server.clients, server.logs, server.out, id, handled);
      AllResponseReaches(page.seen, page.evals, batches, handled);
      page.Respond(Written(server.out, id)[handled].text);
      handled := handled + 1;
    }

    /** The page reads on. */
    method Turn()
      requires Valid() && !page.Idle()
      modifies page`channels, page`calls, page`seen, page`evals, page`at
      ensures Valid() && |page.Pending().value| + 1 == |old(page.Pending()).value|
    {
      ghost var seen, evals, pending := page.seen, page.evals, page.Pending().value;
      ghost var batches := server.logs[id].batches[..handled];
      page.Turn();
      forall n: nat ensures Reached(page.seen, page.evals, pending[1..], batches, n) {
        assert Reached(seen, evals, pending, batches, n);
        TurnReaches(seen, evals, pending, page.seen, page.evals, batches, n);
      }
    }

    /** The page receives on a channel. */
    method Receive(n: nat, k: nat)
      requires Valid()
      modifies page`channels, page`calls, page`seen
      ensures Valid() && page.seen == Receiving(old(page.seen), n, k)
    {
      ghost var seen, pending, batches := page.seen, page.Pending().value, server.logs[id].batches[..handled];
      page.Receive(n, k);
      forall m: nat ensures Reached(page.seen, page.evals, pending, batches, m) {
        assert Reached(seen, page.evals, pending, batches, m);
      }
    }

    /** Some client connects. */
    method Connect(client: nat, pass: int, sock: int)
      requires Valid() && sock != NO_SOCKET
      modifies server
      ensures Valid() && page.Pending() == old(page.Pending()) && server.logs[id].sent == old(server.logs[id].sent)
    {
      ghost var log := server.logs[id];
      ghost var c := server.clients[id];
      assert ClientOk(server.clients, server.logs, server.out, id);
      EncodeEmpty(log.kept);
      server.Connect(client, pass, sock);
      if c.msgs != "" {
        ReleasingPlain(log, sock);
      }
      assert server.logs[id].batches[..handled] == log.batches[..handled];
    }

    /** A transaction sends what it has to its clients. */
    method Commit(t: Transaction, script: string)
      requires Valid() && t.Valid() && t.Filled() && OneLine(script)
      requires forall i {:trigger t.sent[i]} :: 0 <= i < |t.sent| ==> OneLine(t.sent[i].frame.text)
      requires forall i {:trigger t.deltas[i]} :: 0 <= i < |t.deltas| ==> t.deltas[i].client < |server.clients|
      modifies server
      ensures Valid()
      ensures server.logs[id].sent == old(server.logs[id].sent) +
        if HasDelta(t.deltas, id) && Fits(old(server.clients[id]), ToClient(t.sent, id), server.max)
        then ToClient(t.sent, id) else []
    {
      ghost var c, log, sent := server.clients[id], server.logs[id], ToClient(t.sent, id);
      ghost var clients, logs := server.clients, server.logs;
      t.SendAll(server, script);
      assert ClientServed(t, server, clients, logs, script, id);
      ToClientPlain(t.sent, id);
      if HasDelta(t.deltas, id) {
        FilledFor(t, id);
        AfterPlain(c, log, sent, script, server.max);
      }
      assert server.logs[id].batches[..handled] == log.batches[..handled];
    }
  }

  lemma {:induction false} ToClientPlain(sent: seq<Sent>, client: nat)
    requires forall i {:trigger sent[i]} :: 0 <= i < |sent| ==> OneLine(sent[i].frame.text)
    ensures OneLiners(ToClient(sent, client))
  {
    if sent != [] {
      var before := sent[..|sent| - 1];
      assert forall i {:trigger before[i]} :: 0 <= i < |before| ==> before[i] == sent[i];
      ToClientPlain(before, client);
    }
  }

  ghost predicate Continues(log: Log, log': Log) {
    |log.batches| <= |log'.batches| && forall i: nat {:trigger log'.batches[i]} ::
      i < |log.batches| ==> log'.batches[i] == log.batches[i]
  }

  lemma FilledFor(t: Transaction, id: nat)
    requires t.Valid() && t.Filled() && HasDelta(t.deltas, id)
    ensures ToClient(t.sent, id) != []
  {
    var i :| 0 <= i < |t.deltas| && t.deltas[i].client == id;
    EncodeEmpty(ToClient(t.sent, t.deltas[i].client));
  }

  lemma ReleasingPlain(log: Log, sock: int)
    requires Plain(log) && log.kept != []
    ensures Plain(Releasing(log, sock)) && Continues(log, Releasing(log, sock))
  {
    forall b: nat ensures PlainAt(Releasing(log, sock), b) {
      assert PlainAt(log, b);
    }
  }

  lemma AfterPlain(c: Client, log: Log, sent: seq<Frame>, script: string, max: nat)
    requires Plain(log) && OneLine(script) && OneLiners(sent) && sent != []
    ensures Plain(LogAfter(c, log, sent, script, max)) && Continues(log, LogAfter(c, log, sent, script, max))
  {
    forall b: nat ensures PlainAt(LogAfter(c, log, sent, script, max), b) {
      assert PlainAt(log, b);
    }
  }

  /** From end to end: the `i`th receive on a channel goes on with the `i`th message that was sent to the client on it,
      whatever has been kept back so far and however the messages were put together into responses; and when all
      responses have been read and nothing is kept, no message is held back from a receive. */
  lemma Delivery(s: Session, n: nat)
    requires s.Valid()
    ensures
      var log, receivers, calls := s.server.logs[s.id], SeenOn(s.page.seen, n).receivers, OnChannel(s.page.calls, n);
      var sent := OfChannel(log.sent, n);
      && |calls| <= |sent| && |calls| <= |receivers|
      && (forall i :: 0 <= i < |calls| ==> calls[i] == Call(n, receivers[i], sent[i]))
      && (s.server.clients[s.id].msgs == "" && s.handled == |Written(s.server.out, s.id)| && s.page.Idle() ==>
            |calls| == |receivers| || |calls| == |sent|)
  {
    assert ClientOk(s.server.clients, s.server.logs, s.server.out, s.id);
    assert ChannelOk(s.page.channels, s.page.calls, s.page.seen, n);
    var log, pending := s.server.logs[s.id], s.page.Pending().value;
    assert Reached(s.page.seen, s.page.evals, pending, log.batches[..s.handled], n);
    SentBeyond(s.server.clients[s.id], log, s.handled, SeenOn(s.page.seen, n).arrived, pending, n);
  }

  /** What has arrived is what was sent first; it is all when nothing is on the way. */
  lemma SentBeyond(c: Client, log: Log, handled: nat, arrived: seq<string>, pending: seq<Event>, n: nat)
    requires Accounted(c, log) && handled <= |log.batches|
    requires arrived + OnEvents(pending, n) == OfChannel(Flat(log.batches[..handled]), n)
    ensures arrived <= OfChannel(log.sent, n)
    ensures c.msgs == "" && handled == |log.batches| && pending == [] ==> arrived == OfChannel(log.sent, n)
  {
    var done, left := log.batches[..handled], log.batches[handled..];
    assert done + left == log.batches;
    FlatConcat(done, left);
    OfChannelConcat(Flat(done), Flat(left), n);
    OfChannelConcat(Flat(log.batches), log.kept, n);
    EncodeEmpty(log.kept);
    var here, coming, kept := OnEvents(pending, n), OfChannel(Flat(left), n), OfChannel(log.kept, n);
    Shift(arrived + here, coming, kept);
    Shift(arrived, here, coming + kept);
    assert OfChannel(log.sent, n) == arrived + (here + (coming + kept));
  }

  lemma {:induction false} FlatConcat(a: seq<Batch>, b: seq<Batch>)
    ensures Flat(a + b) == Flat(a) + Flat(b)
    decreases |b|
  {
    if b == [] {
      assert a + b == a;
    } else {
      FlatConcat(a, b[..|b| - 1]);
      assert (a + b)[..|a + b| - 1] == a + b[..|b| - 1];
    }
  }

  /** And every script of a response is run once, in order. */
  lemma ScriptsRun(s: Session)
    requires s.Valid() && s.page.Idle()
    ensures s.page.evals == ScriptsOf(s.server.logs[s.id].batches[..s.handled])
  {
    assert Reached(s.page.seen, s.page.evals, s.page.Pending().value, s.server.logs[s.id].batches[..s.handled], 0);
    assert s.page.evals + [] == s.page.evals;
  }
}
