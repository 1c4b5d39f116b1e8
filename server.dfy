/** The chat server's state and handlers, step by step: the registry, the
    default-name counter and the watched sockets are fields that the handlers
    update in place, and every `send` is appended to a ghost outbox. Each
    handler is proved to do exactly what the matching function of the
    `Routing`, `Dispatch` and `Lifecycle` modules describes. */
module Server {
  import opened Wrappers
  import opened Text
  import opened Common
  import opened Registry
  import opened Routing
  import opened Dispatch
  import opened Lifecycle

  /** A socket that `select` reported readable: the listening socket with a
      connection that `accept` returned, or a client socket with what `recv`
      and `decode` produced (`None` when either raised). */
  datatype Ready = Accept(conn: ConnId, addr: Address) | Receive(conn: ConnId, data: Option<string>)

  /** The watched socket a readiness report is about. */
  function SockOf(r: Ready): Sock {
    match r
    case Accept(_, _) => Listener
    case Receive(c, _) => Client(c)
  }

  /** The scan of `/whisper` over the longest-first names: the first name
      that starts the argument string, followed by a space. */
  method FindWhisperRecipient(sorted: seq<string>, args: string) returns (found: Option<string>)
    ensures found == FirstMatch(sorted, args)
  {
    var k := 0;
    while k < |sorted|
      invariant 0 <= k <= |sorted|
      invariant FirstMatch(sorted, args) == FirstMatch(sorted[k..], args)
    {
      var u := sorted[k];
      if StartsWith(args, u + " ") {
        return Some(u);
      }
      assert sorted[k..][1..] == sorted[k + 1..];
      k := k + 1;
    }
    return None;
  }

  /** The recipient scan of `send_private_message`: where the first entry
      holding `name` sits. */
  method FindRecipient(cs: seq<Entry>, name: string) returns (found: Option<nat>)
    ensures found == FirstWithName(cs, name)
  {
    var i := 0;
    while i < |cs|
      invariant 0 <= i <= |cs|
      invariant forall j :: 0 <= j < i ==> cs[j].username != name
    {
      if cs[i].username == name {
        FirstWithNameAt(cs, name, i);
        return Some(i);
      }
      i := i + 1;
    }
    assert name !in Usernames(cs);
    return None;
  }

  /** The loop of `/help`: one line appended per table entry. */
  method DescribeCommands(cmds: seq<(string, string)>) returns (text: string)
    ensures text == CommandLines(cmds)
  {
    text := "";
    var k := 0;
    while k < |cmds|
      invariant 0 <= k <= |cmds|
      invariant text == CommandLines(cmds[..k])
    {
      assert cmds[..k + 1][..k] == cmds[..k];
      var (cmd, desc) := cmds[k];
      text := text + ("  " + cmd + " - " + desc + "\n");
      k := k + 1;
    }
    assert cmds[..k] == cmds;
  }

  class ChatServer {
    /** `clients`: connection to (address, username), in insertion order. */
    var clients: seq<Entry>
    /** `user_counter` */
    var userCounter: nat
    /** `inputs`: the sockets `select` watches. */
    var inputs: seq<Sock>
    /** Whether the listening socket is still among `inputs`. */
    ghost var listening: bool
    /** Every text sent so far, with its connection, in order. */
    ghost var outbox: seq<Send>

    /** No connection is registered twice, and `inputs` is the listening
        socket, while it is watched, followed by the registered connections
        in registry order. */
    ghost predicate Valid()
      reads this
    {
      DistinctKeys(clients) && inputs == Watched(listening, clients)
    }

    /** A server that has just started listening. */
    constructor ()
      ensures Valid() && listening
      ensures clients == [] && userCounter == 0 && inputs == [Listener] && outbox == []
    {
      clients := [];
      userCounter := 0;
      inputs := [Listener];
      listening := true;
      outbox := [];
    }

    /** `broadcast_message(message, sender, kind)` */
    method BroadcastMessage(message: string, sender: Option<ConnId>, kind: MessageType, ts: string)
      requires sender.Some? && kind == Chat ==> Registered(clients, sender.value)
      modifies this`outbox
      ensures outbox == old(outbox) + Broadcast(clients, message, sender, kind, ts)
    {
      var text := BroadcastText(clients, message, sender, kind, ts);
      var i := 0;
      while i < |clients|
        invariant 0 <= i <= |clients|
        invariant outbox == old(outbox) + BroadcastSends(clients[..i], sender, text)
      {
        assert clients[..i + 1][..i] == clients[..i];
        var c := clients[i].conn;
        if Some(c) != sender {
          outbox := outbox + [(c, text)];
        }
        i := i + 1;
      }
      assert clients[..|clients|] == clients;
    }

    /** `send_private_message(message, sender, name)` */
    method SendPrivateMessage(message: string, sender: ConnId, name: string, ts: string) returns (delivered: bool)
      requires Registered(clients, sender)
      modifies this`outbox
      ensures var d := PrivateMessage(clients, sender, name, message, ts);
        outbox == old(outbox) + d.sends && delivered == d.delivered
    {
      var senderName := GetUsername(clients, sender);
      var found := FindRecipient(clients, name);
      if found.Some? {
        var recipient := clients[found.value].conn;
        var toRecipient := FormatMessage(ts, Private, message, Some(senderName), Some(name));
        outbox := outbox + [(recipient, toRecipient)];
        var toSender := FormatMessage(ts, Private, message, Some(senderName), Some(name));
        outbox := outbox + [(sender, toSender)];
        assert outbox == old(outbox) + [(recipient, toRecipient), (sender, toSender)];
        return true;
      }
      outbox := outbox + Reply(sender, ts, Error, NotFoundNotice(name));
      return false;
    }

    /** The `/help` text: the header, then one line per table entry. */
    method HelpReply() returns (text: string)
      ensures text == HelpText()
    {
      var lines := DescribeCommands(Common.Commands);
      text := HelpHeader + lines;
    }

    /** The `/list` text, one line appended per named entry. */
    method ListReply() returns (text: string)
      ensures text == ListText(clients)
    {
      text := "Connected users (" + NatToString(|clients|) + "):\n";
      var k := 0;
      while k < |clients|
        invariant 0 <= k <= |clients|
        invariant text == "Connected users (" + NatToString(|clients|) + "):\n" + UserLines(clients[..k])
      {
        assert clients[..k + 1][..k] == clients[..k];
        var user := clients[k].username;
        if user != "" {
          text := text + "  - " + user + "\n";
        }
        k := k + 1;
      }
      assert clients[..k] == clients;
    }

    /** `[username for _, username in clients.values() if username]` */
    method CollectNames() returns (names: seq<string>)
      ensures names == NonEmptyNames(clients)
    {
      names := [];
      var k := 0;
      while k < |clients|
        invariant 0 <= k <= |clients|
        invariant names == NonEmptyNames(clients[..k])
      {
        assert clients[..k + 1][..k] == clients[..k];
        var user := clients[k].username;
        if user != "" {
          names := names + [user];
        }
        k := k + 1;
      }
      assert clients[..k] == clients;
    }

    /** The `/whisper` branch of `handle_command`. */
    method HandleWhisper(conn: ConnId, args: string, ts: string)
      requires Registered(clients, conn)
      modifies this`outbox
      ensures outbox == old(outbox) + WhisperOutcome(clients, conn, args, ts).sends
    {
      if ' ' !in args {
        outbox := outbox + Reply(conn, ts, Error, WhisperUsage);
        return;
      }
      var names := CollectNames();
      var sorted := SortByLength(names);
      var found := FindWhisperRecipient(sorted, args);
      var recipient, body;
      if found.Some? {
        recipient := found.value;
        body := args[|recipient| + 1..];
      } else {
        var parts := SplitOnce(args);
        recipient := parts[0];
        body := if |parts| > 1 then parts[1] else "";
      }
      assert (recipient, body) == WhisperSplit(clients, args);
      if body != "" {
        var _ := SendPrivateMessage(body, conn, recipient, ts);
      } else {
        outbox := outbox + Reply(conn, ts, Error, WhisperUsage);
      }
    }

    /** The duplicate check of `/nick`: whether any entry, the requester's
        included, already holds `name`. */
    method IsTaken(name: string) returns (taken: bool)
      ensures taken <==> name in Usernames(clients)
    {
      var i := 0;
      while i < |clients|
        invariant 0 <= i <= |clients|
        invariant forall j :: 0 <= j < i ==> clients[j].username != name
      {
        if clients[i].username == name {
          assert Usernames(clients)[i] == name;
          return true;
        }
        i := i + 1;
      }
      return false;
    }

    /** The `/nick` branch of `handle_command`; `displayed` is the
        requester's `get_username` taken before dispatch. */
    method HandleNick(conn: ConnId, args: string, displayed: string, ts: string)
      requires DistinctKeys(clients) && Registered(clients, conn)
      requires displayed == GetUsername(clients, conn)
      modifies this`clients, this`outbox
      ensures var o := NickOutcome(old(clients), conn, args, ts);
        clients == o.clients && outbox == old(outbox) + o.sends
    {
      if args == "" {
        outbox := outbox + Reply(conn, ts, Error, NickUsage);
        return;
      }
      var chosen := Strip(args);
      var taken := IsTaken(chosen);
      if taken {
        NickCases(clients, conn, args, ts);
        outbox := outbox + Reply(conn, ts, Error, NickTaken(chosen));
        return;
      }
      NickCases(clients, conn, args, ts);
      var previous := Lookup(clients, conn).username;
      Rename(conn, chosen, NickNotice(previous, displayed, chosen), ts);
    }

    /** The success path of `/nick`: store the name, confirm it to the
        requester, announce `notice` to everyone else. */
    method Rename(conn: ConnId, chosen: string, notice: string, ts: string)
      requires DistinctKeys(clients) && Registered(clients, conn)
      modifies this`clients, this`outbox
      ensures clients == SetUsername(old(clients), conn, chosen)
      ensures outbox == old(outbox) + (Reply(conn, ts, Server, NickConfirmed(chosen))
                                       + Broadcast(clients, notice, Some(conn), UserEvent, ts))
    {
      clients := SetUsername(clients, conn, chosen);
      outbox := outbox + Reply(conn, ts, Server, NickConfirmed(chosen));
      BroadcastMessage(notice, Some(conn), UserEvent, ts);
      SendsAssoc(old(outbox), Reply(conn, ts, Server, NickConfirmed(chosen)),
                 Broadcast(clients, notice, Some(conn), UserEvent, ts));
    }

    /** `handle_command(conn, command)` */
    method HandleCommand(conn: ConnId, command: string, ts: string) returns (handled: bool)
      requires DistinctKeys(clients)
      requires StartsWith(command, "/") ==> Registered(clients, conn)
      modifies this`clients, this`outbox
      ensures var o := CommandOutcome(old(clients), conn, command, ts);
        clients == o.clients && outbox == old(outbox) + o.sends && handled == o.handled
    {
      if !StartsWith(command, "/") {
        return false;
      }
      var parts := SplitOnce(command);
      var cmd := Lower(parts[0]);
      var args := if |parts| > 1 then parts[1] else "";
      assert cmd == CommandName(command) && args == CommandArgs(command);
      var username := GetUsername(clients, conn);
      if cmd == "/help" {
        var text := HelpReply();
        outbox := outbox + Reply(conn, ts, CommandResult, text);
      } else if cmd == "/list" {
        var text := ListReply();
        outbox := outbox + Reply(conn, ts, CommandResult, text);
      } else if cmd == "/whisper" {
        HandleWhisper(conn, args, ts);
      } else if cmd == "/exit" {
        outbox := outbox + Reply(conn, ts, Server, ExitNotice);
        return false;
      } else if cmd == "/nick" {
        HandleNick(conn, args, username, ts);
      } else {
        outbox := outbox + Reply(conn, ts, Error, UnknownNotice(cmd));
      }
      return true;
    }

    /** `handle_new_connection` once `accept` returned `conn` from `addr`. */
    method HandleNewConnection(conn: ConnId, addr: Address, ts: string)
      requires DistinctKeys(clients) && !Registered(clients, conn)
      modifies this`clients, this`userCounter, this`outbox
      ensures var st := ConnectOutcome(old(clients), old(userCounter), conn, addr, ts);
        clients == st.clients && userCounter == st.counter && outbox == old(outbox) + st.sends
    {
      userCounter := userCounter + 1;
      var name := DefaultName(userCounter);
      clients := clients + [Entry(conn, addr, name)];
      ghost var welcome, told := Reply(conn, ts, Server, WelcomeNotice(|clients|)), Reply(conn, ts, Server, AssignedNotice(name));
      outbox := outbox + Reply(conn, ts, Server, WelcomeNotice(|clients|));
      outbox := outbox + Reply(conn, ts, Server, AssignedNotice(name));
      SendsAssoc(old(outbox), welcome, told);
      BroadcastMessage(JoinedNotice(name), Some(conn), UserEvent, ts);
      SendsAssoc(old(outbox), welcome + told, Broadcast(clients, JoinedNotice(name), Some(conn), UserEvent, ts));
    }

    /** `handle_client_message(conn)` once `recv` and `decode` produced
        `data`; the result says whether the connection stays open. */
    method HandleClientMessage(conn: ConnId, data: Option<string>, ts: string) returns (stillConnected: bool)
      requires DistinctKeys(clients) && Registered(clients, conn)
      modifies this`clients, this`outbox
      ensures var o := MessageOutcome(old(clients), conn, data, ts);
        clients == o.clients && outbox == old(outbox) + o.sends && stillConnected == o.handled
      ensures DistinctKeys(clients) && Keys(clients) == Keys(old(clients))
    {
      if data.None? || data.value == "" {
        return false;
      }
      var message := Strip(data.value);
      if StartsWith(message, "/") {
        var _ := HandleCommand(conn, message, ts);
        return true;
      }
      BroadcastMessage(message, Some(conn), Chat, ts);
      return true;
    }

    /** `remove_client(conn)` */
    method RemoveClient(conn: ConnId, ts: string)
      requires DistinctKeys(clients)
      modifies this`clients, this`outbox
      ensures var (cs, sends) := RemoveOutcome(old(clients), conn, ts);
        clients == cs && outbox == old(outbox) + sends
      ensures DistinctKeys(clients) && !Registered(clients, conn)
      ensures forall c :: c != conn ==> (Registered(clients, c) <==> old(Registered(clients, c)))
    {
      DeleteRemovesKey(clients, conn);
      if Registered(clients, conn) {
        var e := Lookup(clients, conn);
        var name := if e.username != "" then e.username else AddressText(e.addr);
        clients := Delete(clients, conn);
        BroadcastMessage(LeftNotice(name), None, UserEvent, ts);
      }
    }

    /** The listening socket is readable: accept, register, watch. */
    method OnAccept(conn: ConnId, addr: Address, ts: string)
      requires Valid() && !Registered(clients, conn)
      modifies this
      ensures Valid() && listening == old(listening)
      ensures var st := ConnectOutcome(old(clients), old(userCounter), conn, addr, ts);
        clients == st.clients && userCounter == st.counter && outbox == old(outbox) + st.sends
      ensures inputs == old(inputs) + [Client(conn)]
      ensures forall c :: Registered(clients, c) <==> old(Registered(clients, c)) || c == conn
    {
      ConnectWatched(listening, clients, userCounter, conn, addr, ts);
      HandleNewConnection(conn, addr, ts);
      inputs := inputs + [Client(conn)];
    }

    /** A connection that is over leaves the registry and `inputs`. */
    method Disconnect(conn: ConnId, ts: string)
      requires Valid() && Registered(clients, conn)
      modifies this
      ensures Valid() && listening == old(listening) && userCounter == old(userCounter)
      ensures var (cs, sends) := RemoveOutcome(old(clients), conn, ts);
        clients == cs && outbox == old(outbox) + sends
      ensures inputs == RemoveFirst(old(inputs), Client(conn))
      ensures forall c :: c != conn ==> (Registered(clients, c) <==> old(Registered(clients, c)))
    {
      WatchRemove(listening, clients, conn);
      RemoveClient(conn, ts);
      inputs := RemoveFirst(inputs, Client(conn));
    }

    /** A client socket is readable: handle what arrived and, when the
        connection is over, remove it from the registry and from `inputs`. */
    method OnReceive(conn: ConnId, data: Option<string>, ts: string)
      requires Valid() && Client(conn) in inputs
      modifies this
      ensures Valid() && listening == old(listening) && userCounter == old(userCounter)
      ensures old(Registered(clients, conn))
      ensures var o := MessageOutcome(old(clients), conn, data, ts);
        if o.handled then clients == o.clients && outbox == old(outbox) + o.sends && inputs == old(inputs)
        else var (cs, sends) := RemoveOutcome(o.clients, conn, ts);
          clients == cs && outbox == old(outbox) + o.sends + sends
          && inputs == RemoveFirst(old(inputs), Client(conn))
      ensures forall c :: c != conn ==> (Registered(clients, c) <==> old(Registered(clients, c)))
    {
      WatchedClients(listening, clients, conn);
      var stillConnected := HandleClientMessage(conn, data, ts);
      WatchListKeys(old(clients), clients);
      if !stillConnected {
        Disconnect(conn, ts);
      }
    }

    /** `select` reported an error on `sock`: stop watching it and remove
        it from the registry (nothing when it is the listening socket). */
    method OnError(sock: Sock, ts: string)
      requires Valid()
      modifies this
      ensures Valid() && userCounter == old(userCounter)
      ensures listening == (old(listening) && sock != Listener)
      ensures sock == Listener ==> clients == old(clients) && outbox == old(outbox)
      ensures sock.Client? ==> var (cs, sends) := RemoveOutcome(old(clients), sock.conn, ts);
        clients == cs && outbox == old(outbox) + sends
    {
      if sock == Listener {
        WatchedListener(listening, clients);
        if sock in inputs {
          WatchDropListener(clients);
          inputs := RemoveFirst(inputs, sock);
          listening := false;
        }
      } else {
        WatchedClients(listening, clients, sock.conn);
        if sock in inputs {
          Disconnect(sock.conn, ts);
        } else {
          RemoveClient(sock.conn, ts);
        }
      }
    }

    /** What a readiness report still to be handled may assume: an accepted
        connection is new, a client socket that reports data is registered. */
    ghost predicate Pending(r: Ready)
      reads this
    {
      match r
      case Accept(c, _) => !Registered(clients, c)
      case Receive(c, _) => Registered(clients, c)
    }

    /** One readable socket: accept on the listening socket, receive on a
        client socket. The new state is the one the event's handler leaves,
        and only the connection it is about changes its registration. */
    method OnReady(r: Ready, ts: string)
      requires Valid() && Pending(r)
      modifies this
      ensures Valid() && listening == old(listening)
      ensures r.Accept? ==>
        var st := ConnectOutcome(old(clients), old(userCounter), r.conn, r.addr, ts);
        clients == st.clients && userCounter == st.counter && outbox == old(outbox) + st.sends
        && inputs == old(inputs) + [Client(r.conn)]
      ensures r.Receive? ==> userCounter == old(userCounter)
      ensures r.Receive? ==>
        var o := MessageOutcome(old(clients), r.conn, r.data, ts);
        if o.handled then clients == o.clients && outbox == old(outbox) + o.sends && inputs == old(inputs)
        else var (cs, sends) := RemoveOutcome(o.clients, r.conn, ts);
          clients == cs && outbox == old(outbox) + o.sends + sends
          && inputs == RemoveFirst(old(inputs), Client(r.conn))
      ensures forall c :: c != r.conn ==> (Registered(clients, c) <==> old(Registered(clients, c)))
    {
      match r {
        case Accept(conn, addr) =>
          OnAccept(conn, addr, ts);
        case Receive(conn, data) =>
          WatchedClients(listening, clients, conn);
          OnReceive(conn, data, ts);
      }
    }

    /** One pass of the select loop: every readable socket in the order
        reported, then every socket in error. `inputs` stays the listening
        socket, while watched, followed by the registered connections. */
    method ServeRound(readable: seq<Ready>, exceptional: seq<Sock>, ts: string)
      requires Valid()
      requires forall i, j :: 0 <= i < j < |readable| ==> SockOf(readable[i]) != SockOf(readable[j])
      requires forall r :: r in readable ==> SockOf(r) in inputs
      requires forall r :: r in readable && r.Accept? ==> !Registered(clients, r.conn)
      modifies this
      ensures Valid()
    {
      forall j | 0 <= j < |readable| ensures Pending(readable[j]) {
        if readable[j].Receive? {
          assert SockOf(readable[j]) in inputs;
          WatchedClients(listening, clients, readable[j].conn);
        }
      }
      var k := 0;
      while k < |readable|
        invariant 0 <= k <= |readable| && Valid()
        invariant forall j :: k <= j < |readable| ==> Pending(readable[j])
      {
        OnReady(readable[k], ts);
        forall j | k < j < |readable| ensures Pending(readable[j]) {
          assert SockOf(readable[j]) != SockOf(readable[k]);
        }
        k := k + 1;
      }
      var e := 0;
      while e < |exceptional|
        invariant 0 <= e <= |exceptional| && Valid()
      {
        OnError(exceptional[e], ts);
        e := e + 1;
      }
    }
  }
}
