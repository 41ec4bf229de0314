/** Messages to clients on the server: what is kept, and who waits. */
module ServerMessages {
  import opened MessageText

  // ---------------------------------------------------------------- the server's clients

  /** A client: its password, the socket it waits on or -1, and the messages kept for it. */
  datatype Client = Client(used: bool, pass: int, sock: int, msgs: string)

  const NO_SOCKET := -1

  /** What happens on the sockets: a response to a client, after its headers; the command to load the page again;
      a socket closed with nothing written. The first two close the socket as well. */
  datatype Action = Respond(client: nat, sock: int, text: string) | Refuse(sock: int) | Drop(sock: int)

  /** The messages of one response. */
  datatype Batch = Batch(sock: int, script: string, frames: seq<Frame>)

  /** The messages sent to a client: those that have gone out, by response, and those that are kept. */
  datatype Log = Log(sent: seq<Frame>, batches: seq<Batch>, kept: seq<Frame>)

  ghost function Flat(batches: seq<Batch>): seq<Frame> {
    if batches == [] then [] else Flat(batches[..|batches| - 1]) + batches[|batches| - 1].frames
  }

  /** Nothing is lost, repeated or out of order, and nothing is kept for a client that waits. */
  ghost predicate Accounted(c: Client, log: Log) {
    && Flat(log.batches) + log.kept == log.sent
    && c.msgs == Encode(log.kept)
    && (c.sock != NO_SOCKET ==> log.kept == [])
  }

  ghost function Delivering(log: Log, sent: seq<Frame>, sock: int, script: string): Log {
    Log(log.sent + sent, log.batches + [Batch(sock, script, sent)], log.kept)
  }

  ghost function Keeping(log: Log, sent: seq<Frame>): Log {
    Log(log.sent + sent, log.batches, log.kept + sent)
  }

  ghost function Releasing(log: Log, sock: int): Log {
    Log(log.sent, log.batches + [Batch(sock, "", log.kept)], [])
  }

  lemma FlatSnoc(batches: seq<Batch>, b: Batch)
    ensures Flat(batches + [b]) == Flat(batches) + b.frames
  {
    assert (batches + [b])[..|batches|] == batches;
  }

  lemma Released(c: Client, log: Log, sock: int)
    requires Accounted(c, log)
    ensures Accounted(c.(sock := NO_SOCKET, msgs := ""), Releasing(log, sock))
  {
    FlatSnoc(log.batches, Batch(sock, "", log.kept));
  }

  lemma Delivered(c: Client, log: Log, sent: seq<Frame>, sock: int, script: string)
    requires Accounted(c, log) && c.sock != NO_SOCKET
    ensures Accounted(c.(sock := NO_SOCKET), Delivering(log, sent, sock, script))
  {
    FlatSnoc(log.batches, Batch(sock, script, sent));
  }

  lemma Kept(c: Client, log: Log, sent: seq<Frame>)
    requires Accounted(c, log) && c.sock == NO_SOCKET
    ensures Accounted(c.(msgs := c.msgs + Encode(sent)), Keeping(log, sent))
  {
    EncodeConcat(log.kept, sent);
    assert Flat(log.batches) + (log.kept + sent) == Flat(log.batches) + log.kept + sent;
  }

  lemma Waiting(c: Client, log: Log, sock: int)
    requires Accounted(c, log) && c.msgs == ""
    ensures Accounted(c.(sock := sock), log)
  {
    EncodeEmpty(log.kept);
  }

  /** The responses to a client, in order. */
  function Written(out: seq<Action>, id: nat): (r: seq<Action>)
    ensures forall i :: 0 <= i < |r| ==> r[i].Respond?
  {
    if out == [] then []
    else Written(out[..|out| - 1], id) + WrittenIn(out[|out| - 1], id)
  }

  function WrittenIn(a: Action, id: nat): seq<Action> {
    if a.Respond? && a.client == id then [a] else []
  }

  ghost function Response(id: nat, b: Batch): Action {
    Respond(id, b.sock, Body(b.script, Encode(b.frames)))
  }

  ghost function Responses(id: nat, batches: seq<Batch>): (r: seq<Action>)
    ensures |r| == |batches| && forall i :: 0 <= i < |r| ==> r[i] == Response(id, batches[i])
  {
    seq(|batches|, i requires 0 <= i < |batches| => Response(id, batches[i]))
  }

  lemma WrittenSnoc(out: seq<Action>, a: Action, id: nat)
    ensures Written(out + [a], id) == Written(out, id) + WrittenIn(a, id)
  {
    assert (out + [a])[..|out|] == out;
  }

  /** What a client has been sent is on its log, and the responses on the log are those that were written. */
  ghost predicate ClientOk(clients: seq<Client>, logs: seq<Log>, out: seq<Action>, id: nat)
    requires |clients| == |logs|
  {
    id < |clients| ==> Accounted(clients[id], logs[id]) && Written(out, id) == Responses(id, logs[id].batches)
  }

  /** The clients of a server. `max` bounds what is kept for one. */
  class Server {
    const max: nat
    var clients: seq<Client>
    var out: seq<Action>
    ghost var logs: seq<Log>

    ghost predicate Valid()
      reads this
    {
      |logs| == |clients| && forall id: nat {:trigger ClientOk(clients, logs, out, id)} ::
        ClientOk(clients, logs, out, id)
    }

    /** `uw_client_connect` */
    method Connect(id: nat, pass: int, sock: int)
      requires Valid() && sock != NO_SOCKET
      modifies this
      ensures Valid()
      ensures
        if id >= |old(clients)| || !old(clients)[id].used || old(clients)[id].pass != pass then
          clients == old(clients) && logs == old(logs) && out == old(out) + [Refuse(sock)]
        else
          var c := old(clients)[id];
          var dropped := if c.sock == NO_SOCKET then [] else [Drop(c.sock)];
          if c.msgs == "" then
            clients == old(clients)[id := c.(sock := sock)] && logs == old(logs) && out == old(out) + dropped
          else
            && clients == old(clients)[id := c.(sock := NO_SOCKET, msgs := "")]
            && logs == old(logs)[id := Releasing(old(logs)[id], sock)]
            && out == old(out) + dropped + [Respond(id, sock, c.msgs)]
    {
      if id >= |clients| || !clients[id].used || pass != clients[id].pass {
        Act(Refuse(sock));
        return;
      }
      var c := clients[id];
      assert ClientOk(clients, logs, out, id);
      if c.sock != NO_SOCKET {
        Act(Drop(c.sock));
      }
      if |c.msgs| > 0 {
        Released(c, logs[id], sock);
        assert Body("", c.msgs) == c.msgs;
        Answer(id, c.(sock := NO_SOCKET, msgs := ""), "", c.msgs, sock, Releasing(logs[id], sock), logs[id].kept);
      } else {
        Waiting(c, logs[id], sock);
        Change(id, c.(sock := sock), logs[id]);
      }
    }

    /** What is on a socket, when it is for no client. */
    method Act(a: Action)
      requires Valid() && !a.Respond?
      modifies this`out
      ensures Valid() && out == old(out) + [a]
    {
      ghost var before := out;
      out := out + [a];
      forall id: nat ensures ClientOk(clients, logs, out, id) {
        assert ClientOk(clients, logs, before, id);
        WrittenSnoc(before, a, id);
      }
    }

    /** A response to a client, and what it and its log are then. */
    method Answer(id: nat, c: Client, script: string, msgs: string, sock: int, ghost log: Log, ghost frames: seq<Frame>)
      requires Valid() && id < |clients| && Accounted(c, log) && msgs == Encode(frames)
      requires log.batches == logs[id].batches + [Batch(sock, script, frames)]
      modifies this
      ensures Valid() && clients == old(clients)[id := c] && logs == old(logs)[id := log]
      ensures out == old(out) + [Respond(id, sock, Body(script, msgs))]
    {
      ghost var clients0, logs0, out0 := clients, logs, out;
      var a := Respond(id, sock, Body(script, msgs));
      out := out + [a];
      clients, logs := clients[id := c], logs[id := log];
      forall k: nat ensures ClientOk(clients, logs, out, k) {
        assert ClientOk(clients0, logs0, out0, k);
        WrittenSnoc(out0, a, k);
        if k == id {
          assert Responses(id, log.batches) == Responses(id, logs0[id].batches) + [a];
        }
      }
    }

    /** A change of a client with nothing written. */
    method Change(id: nat, c: Client, ghost log: Log)
      requires Valid() && id < |clients| && Accounted(c, log) && log.batches == logs[id].batches
      modifies this`clients, this`logs
      ensures Valid() && clients == old(clients)[id := c] && logs == old(logs)[id := log]
    {
      ghost var clients0, logs0 := clients, logs;
      clients, logs := clients[id := c], logs[id := log];
      forall k: nat ensures ClientOk(clients, logs, out, k) {
        assert ClientOk(clients0, logs0, out, k);
      }
    }

    /** `client_send`: what a transaction has for a client goes out at once, or is kept, or does not fit. */
    method ClientSend(id: nat, script: string, msg: string, ghost sent: seq<Frame>)
      requires Valid() && id < |clients| && msg == Encode(sent)
      modifies this
      ensures Valid()
      ensures clients == old(clients)[id := ClientAfter(old(clients)[id], msg, max)]
      ensures logs == old(logs)[id := LogAfter(old(clients)[id], old(logs)[id], sent, script, max)]
      ensures
        var c := old(clients)[id];
        out == old(out) + if c.used && c.sock != NO_SOCKET then [Respond(id, c.sock, Body(script, msg))] else []
    {
      var c := clients[id];
      assert ClientOk(clients, logs, out, id);
      if !c.used {
      } else if c.sock != NO_SOCKET {
        Delivered(c, logs[id], sent, c.sock, script);
        Answer(id, c.(sock := NO_SOCKET), script, msg, c.sock, Delivering(logs[id], sent, c.sock, script), sent);
      } else if |c.msgs| + |msg| + 1 <= max {
        Kept(c, logs[id], sent);
        Change(id, c.(msgs := c.msgs + msg), Keeping(logs[id], sent));
      }
    }
  }

  /** A client that is in use and waits gets what is sent and waits no more; otherwise it is kept for it, if it fits. */
  ghost function ClientAfter(c: Client, msg: string, max: nat): Client {
    if !c.used then c
    else if c.sock != NO_SOCKET then c.(sock := NO_SOCKET)
    else if |c.msgs| + |msg| + 1 <= max then c.(msgs := c.msgs + msg)
    else c
  }

  ghost function LogAfter(c: Client, log: Log, sent: seq<Frame>, script: string, max: nat): Log {
    if !Fits(c, sent, max) then log
    else if c.sock != NO_SOCKET then Delivering(log, sent, c.sock, script)
    else Keeping(log, sent)
  }

  /** Whether a client in use is waiting, or has room for what a transaction sends it. */
  ghost predicate Fits(c: Client, frames: seq<Frame>, max: nat) {
    c.used && (c.sock != NO_SOCKET || |c.msgs| + |Encode(frames)| + 1 <= max)
  }

  // ---------------------------------------------------------------- the messages of a transaction

  datatype Sent = Sent(client: nat, frame: Frame)

  datatype Delta = Delta(client: nat, msgs: string)

  ghost function ToClient(sent: seq<Sent>, client: nat): seq<Frame> {
    if sent == [] then []
    else ToClient(sent[..|sent| - 1], client)
         + if sent[|sent| - 1].client == client then [sent[|sent| - 1].frame] else []
  }

  lemma ToClientSnoc(sent: seq<Sent>, s: Sent, client: nat)
    ensures ToClient(sent + [s], client) == ToClient(sent, client) + if s.client == client then [s.frame] else []
  {
    assert (sent + [s])[..|sent|] == sent;
  }

  /** The deltas hold the transaction's messages, client by client. */
  ghost predicate Sorted(deltas: seq<Delta>, sent: seq<Sent>) {
    && (forall i, j :: 0 <= i < j < |deltas| ==> deltas[i].client != deltas[j].client)
    && (forall i {:trigger deltas[i]} ::
      0 <= i < |deltas| ==> deltas[i].msgs == Encode(ToClient(sent, deltas[i].client)))
    && (forall c {:trigger ToClient(sent, c)} :: ToClient(sent, c) != [] ==> HasDelta(deltas, c))
  }

  ghost predicate HasDelta(deltas: seq<Delta>, c: nat) {
    exists i :: 0 <= i < |deltas| && deltas[i].client == c
  }

  /** What a transaction sends. There are at most `max` deltas. */
  class Transaction {
    const max: nat
    var deltas: seq<Delta>
    ghost var sent: seq<Sent>

    ghost predicate Valid()
      reads this
    {
      Sorted(deltas, sent)
    }

    /** No delta is without a message. */
    ghost predicate Filled()
      reads this
    {
      forall i {:trigger deltas[i]} :: 0 <= i < |deltas| ==> deltas[i].msgs != ""
    }

    constructor (max: nat)
      ensures Valid() && Filled() && deltas == [] && sent == [] && this.max == max
    {
      this.max := max;
      deltas, sent := [], [];
    }

    /** `allocate_delta`; nothing when there is no room for one more. */
    method AllocateDelta(client: nat) returns (d: Option<nat>)
      requires Valid()
      modifies this`deltas
      ensures Valid()
      ensures d.None? <==> !HasDelta(old(deltas), client) && |old(deltas)| >= max
      ensures deltas == old(deltas) + if d.None? || HasDelta(old(deltas), client) then [] else [Delta(client, "")]
      ensures d.Some? ==> d.value < |deltas| && deltas[d.value].client == client
    {
      var i: nat := 0;
      while i < |deltas|
        invariant i <= |deltas| && forall j :: 0 <= j < i ==> deltas[j].client != client
      {
        if deltas[i].client == client {
          return Some(i);
        }
        i := i + 1;
      }
      assert !HasDelta(deltas, client);
      if |deltas| >= max {
        return None;
      }
      d := Some(i);
      ghost var before := deltas;
      deltas := deltas + [Delta(client, "")];
      forall c | ToClient(sent, c) != [] ensures HasDelta(deltas, c) {
        assert HasDelta(before, c);
        var i :| 0 <= i < |before| && before[i].client == c;
        assert deltas[i].client == c;
      }
    }

    /** `uw_Basis_send`; an error when there are too many clients. */
    method Send(client: nat, channel: nat, text: string) returns (ok: bool)
      requires Valid()
      modifies this
      ensures Valid() && (ok <==> HasDelta(old(deltas), client) || |old(deltas)| < max)
      ensures sent == old(sent) + if ok then [Sent(client, Frame(channel, text))] else []
      ensures old(Filled()) ==> Filled()
    {
      var d := AllocateDelta(client);
      if d.None? {
        return false;
      }
      ok := true;
      var frame, i := Frame(channel, text), d.value;
      Added(deltas, sent, i, frame);
      deltas := deltas[i := deltas[i].(msgs := deltas[i].msgs + Decimal(channel) + "\n" + text + "\n")];
      sent := sent + [Sent(client, frame)];
    }

    /** The loop of `uw_commit` over the deltas. Each client gets its part of the transaction whole or not at all. */
    method SendAll(server: Server, script: string)
      requires Valid() && server.Valid()
      requires forall i {:trigger deltas[i]} :: 0 <= i < |deltas| ==> deltas[i].client < |server.clients|
      modifies server
      ensures server.Valid() && |server.clients| == |old(server.clients)|
      ensures forall id: nat {:trigger ClientServed(this, server, old(server.clients), old(server.logs), script, id)} ::
        ClientServed(this, server, old(server.clients), old(server.logs), script, id)
    {
      ghost var clients, logs := server.clients, server.logs;
      var i := 0;
      while i < |deltas|
        invariant i <= |deltas| && server.Valid() && |server.clients| == |clients|
        invariant AllServed(clients, logs, server.clients, server.logs, deltas[..i], sent, script, server.max)
      {
        var d := deltas[i];
        ghost var clients1, logs1 := server.clients, server.logs;
        assert ServedTo(clients, logs, clients1, logs1, deltas[..i], sent, script, d.client, server.max);
        server.ClientSend(d.client, script, d.msgs, ToClient(sent, d.client));
        ghost var served := deltas[..i + 1];
        forall id: nat
          ensures ServedTo(clients, logs, server.clients, server.logs, served, sent, script, id, server.max)
        {
          assert ServedTo(clients, logs, clients1, logs1, deltas[..i], sent, script, id, server.max);
          HasDeltaSnoc(deltas, i, id);
        }
        i := i + 1;
      }
      assert deltas[..i] == deltas;
      forall id: nat ensures ClientServed(this, server, clients, logs, script, id) {
        assert ServedTo(clients, logs, server.clients, server.logs, deltas, sent, script, id, server.max);
      }
    }
  }

  ghost predicate ClientServed(t: Transaction, server: Server, clients: seq<Client>, logs: seq<Log>, script: string,
                               id: nat)
    reads t, server
  {
    ServedTo(clients, logs, server.clients, server.logs, t.deltas, t.sent, script, id, server.max)
  }

  /** A client that is among the deltas has been sent its messages; another is as it was. */
  ghost predicate ServedTo(clients: seq<Client>, logs: seq<Log>, clients': seq<Client>, logs': seq<Log>,
                           deltas: seq<Delta>,
                           sent: seq<Sent>, script: string, id: nat, max: nat)
  {
    id < |clients| == |clients'| && id < |logs| && id < |logs'| ==>
      if HasDelta(deltas, id) then
        && clients'[id] == ClientAfter(clients[id], Encode(ToClient(sent, id)), max)
        && logs'[id] == LogAfter(clients[id], logs[id], ToClient(sent, id), script, max)
      else logs'[id] == logs[id] && clients'[id] == clients[id]
  }

  ghost predicate AllServed(clients: seq<Client>, logs: seq<Log>, clients': seq<Client>, logs': seq<Log>,
                            deltas: seq<Delta>, sent: seq<Sent>, script: string, max: nat)
  {
    forall id: nat {:trigger ServedTo(clients, logs, clients', logs', deltas, sent, script, id, max)} ::
      ServedTo(clients, logs, clients', logs', deltas, sent, script, id, max)
  }

  lemma HasDeltaSnoc(deltas: seq<Delta>, i: nat, id: nat)
    requires i < |deltas| && forall i, j :: 0 <= i < j < |deltas| ==> deltas[i].client != deltas[j].client
    ensures HasDelta(deltas[..i + 1], id) <==> HasDelta(deltas[..i], id) || deltas[i].client == id
    ensures !HasDelta(deltas[..i], deltas[i].client)
  {
    if HasDelta(deltas[..i], id) {
      var j :| 0 <= j < |deltas[..i]| && deltas[..i][j].client == id;
      assert deltas[..i + 1][j].client == id;
    }
    assert deltas[..i + 1][i] == deltas[i];
  }

  lemma FrameAdded(frames: seq<Frame>, f: Frame)
    ensures Encode(frames + [f]) == Encode(frames) + Decimal(f.channel) + "\n" + f.text + "\n"
  {
    EncodeConcat(frames, [f]);
    assert [f][1..] == [];
    assert Encode(frames) + EncodeFrame(f) == Encode(frames) + Decimal(f.channel) + "\n" + f.text + "\n";
  }

  lemma Added(deltas: seq<Delta>, sent: seq<Sent>, d: nat, frame: Frame)
    requires Sorted(deltas, sent) && d < |deltas|
    ensures
      var delta := deltas[d];
      var text := delta.msgs + Decimal(frame.channel) + "\n" + frame.text + "\n";
      Sorted(deltas[d := delta.(msgs := text)], sent + [Sent(delta.client, frame)])
  {
    var delta, s := deltas[d], Sent(deltas[d].client, frame);
    var text := delta.msgs + Decimal(frame.channel) + "\n" + frame.text + "\n";
    var deltas', sent' := deltas[d := delta.(msgs := text)], sent + [s];
    FrameAdded(ToClient(sent, delta.client), frame);
    forall i {:trigger deltas'[i]} | 0 <= i < |deltas'|
      ensures deltas'[i].msgs == Encode(ToClient(sent', deltas'[i].client))
    {
      ToClientSnoc(sent, s, deltas[i].client);
      assert i != d ==> ToClient(sent', deltas[i].client) == ToClient(sent, deltas[i].client);
    }
    forall c {:trigger ToClient(sent', c)} | ToClient(sent', c) != [] ensures HasDelta(deltas', c) {
      ToClientSnoc(sent, s, c);
      if c != delta.client {
        assert HasDelta(deltas, c);
        var i :| 0 <= i < |deltas| && deltas[i].client == c;
        assert deltas'[i].client == c;
      } else {
        assert deltas'[d].client == c;
      }
    }
  }
}
