/** Connecting and disconnecting: `handle_new_connection`, `remove_client`,
    and the list of sockets the select loop watches. */
module Lifecycle {
  import opened Wrappers
  import opened Text
  import opened Common
  import opened Registry
  import opened Routing
  import opened Dispatch

  /** `f"User {n}"` */
  function DefaultName(n: nat): string {
    "User " + NatToString(n)
  }

  /** Different counter values give different default names. */
  lemma DefaultNamesDistinct(n: nat, m: nat)
    ensures DefaultName(n) == DefaultName(m) <==> n == m
  {
    if DefaultName(n) == DefaultName(m) {
      assert NatToString(n) == DefaultName(n)[5..] == DefaultName(m)[5..] == NatToString(m);
      NatToStringInjective(n, m);
    }
  }

  /** The registry, the counter and what a handler sent. */
  datatype Step = Step(clients: seq<Entry>, counter: nat, sends: seq<Send>)

  /** The greeting to a new connection; `count` includes it. */
  function WelcomeNotice(count: nat): string {
    "Welcome to the TCP Chat Server! There are " + NatToString(count) + " clients connected."
  }

  /** The note telling a new connection its default name. */
  function AssignedNotice(name: string): string {
    "You have been assigned the username '" + name + "'. You can change it using the /nick command."
  }

  /** The event announcing a new connection to the others. */
  function JoinedNotice(name: string): string {
    "User '" + name + "' has joined the chat."
  }

  /** The event announcing a departure to those remaining. */
  function LeftNotice(name: string): string {
    "User '" + name + "' has left the chat."
  }

  /** `handle_new_connection` once `accept` returned the new connection
      `conn` from `addr`: the counter goes up by one, the connection is
      registered last under the default name for the new counter, it is
      greeted twice, and everyone else hears that it joined. */
  function ConnectOutcome(cs: seq<Entry>, counter: nat, conn: ConnId, addr: Address, ts: string): (st: Step)
    requires DistinctKeys(cs) && !Registered(cs, conn)
    ensures st.counter == counter + 1
    ensures st.clients == cs + [Entry(conn, addr, DefaultName(st.counter))]
  {
    var name := DefaultName(counter + 1);
    var cs' := cs + [Entry(conn, addr, name)];
    var greet := Reply(conn, ts, Server, WelcomeNotice(|cs'|)) + Reply(conn, ts, Server, AssignedNotice(name));
    Step(cs', counter + 1, greet + Broadcast(cs', JoinedNotice(name), Some(conn), UserEvent, ts))
  }

  /** What one connection receives from two replies to `conn` followed by a
      broadcast that excludes `conn`. */
  lemma {:induction false} TwoRepliesThenBroadcast(cs: seq<Entry>, conn: ConnId, first: string, second: string,
                                                   text: string, c: ConnId)
    requires DistinctKeys(cs) && Registered(cs, conn)
    ensures SentTo([(conn, first), (conn, second)] + BroadcastSends(cs, Some(conn), text), c)
         == if c == conn then [first, second] else if Registered(cs, c) then [text] else []
  {
    var greet: seq<Send> := [(conn, first), (conn, second)];
    SentToAppend(greet, BroadcastSends(cs, Some(conn), text), c);
    BroadcastOnce(cs, Some(conn), text, c);
    assert greet[..1] == [(conn, first)];
    assert SentTo(greet[..1], c) == SentTo([], c) + (if c == conn then [first] else []);
  }

  /** The new connection receives the welcome, counting itself, and its
      default name; every previously registered connection receives the
      join event once; nobody else receives anything. */
  lemma ConnectGreets(cs: seq<Entry>, counter: nat, conn: ConnId, addr: Address, ts: string, c: ConnId)
    requires DistinctKeys(cs) && !Registered(cs, conn)
    ensures var name := DefaultName(counter + 1);
      SentTo(ConnectOutcome(cs, counter, conn, addr, ts).sends, c)
        == if c == conn then [ts + " [SERVER] " + WelcomeNotice(|cs| + 1), ts + " [SERVER] " + AssignedNotice(name)]
           else if Registered(cs, c) then [ts + " [SERVER] " + JoinedNotice(name)]
           else []
  {
    var name := DefaultName(counter + 1);
    var cs' := cs + [Entry(conn, addr, name)];
    AppendFresh(cs, Entry(conn, addr, name));
    ConnectSends(cs, counter, conn, addr, ts);
    TwoRepliesThenBroadcast(cs', conn, ts + " [SERVER] " + WelcomeNotice(|cs| + 1),
                            ts + " [SERVER] " + AssignedNotice(name), ts + " [SERVER] " + JoinedNotice(name), c);
  }

  /** The sends of `handle_new_connection` in order, with their texts. */
  lemma ConnectSends(cs: seq<Entry>, counter: nat, conn: ConnId, addr: Address, ts: string)
    requires DistinctKeys(cs) && !Registered(cs, conn)
    ensures var name := DefaultName(counter + 1);
      ConnectOutcome(cs, counter, conn, addr, ts).sends
        == [(conn, ts + " [SERVER] " + WelcomeNotice(|cs| + 1)), (conn, ts + " [SERVER] " + AssignedNotice(name))]
           + BroadcastSends(cs + [Entry(conn, addr, name)], Some(conn), ts + " [SERVER] " + JoinedNotice(name))
  {
    var name := DefaultName(counter + 1);
    FormatLabelled(ts, Server, WelcomeNotice(|cs| + 1), None, None);
    FormatLabelled(ts, Server, AssignedNotice(name), None, None);
    FormatLabelled(ts, UserEvent, JoinedNotice(name), None, None);
  }

  /** Registering the new connection keeps the keys distinct, adds exactly
      its key, and extends the watch list by its socket. */
  lemma ConnectWatched(listening: bool, cs: seq<Entry>, counter: nat, conn: ConnId, addr: Address, ts: string)
    requires DistinctKeys(cs) && !Registered(cs, conn)
    ensures var cs' := ConnectOutcome(cs, counter, conn, addr, ts).clients;
      && DistinctKeys(cs')
      && Watched(listening, cs') == Watched(listening, cs) + [Client(conn)]
      && forall c :: Registered(cs', c) <==> Registered(cs, c) || c == conn
  {
    var e := Entry(conn, addr, DefaultName(counter + 1));
    WatchAppend(listening, cs, e);
    AppendFresh(cs, e);
  }

  /** Names handed out by successive connections never repeat: the name for
      the new counter differs from every name an earlier counter gave. */
  lemma ConnectNameIsNew(counter: nat, earlier: nat)
    requires earlier <= counter
    ensures DefaultName(counter + 1) != DefaultName(earlier)
  {
    DefaultNamesDistinct(counter + 1, earlier);
  }

  /** `remove_client(conn)`: a registered connection is deleted and every
      remaining one hears that it left, under its username or, when that is
      empty, its address; an unregistered one changes nothing. */
  function RemoveOutcome(cs: seq<Entry>, conn: ConnId, ts: string): (r: (seq<Entry>, seq<Send>))
    requires DistinctKeys(cs)
    ensures r.0 == Delete(cs, conn)
    ensures !Registered(cs, conn) ==> r.1 == []
  {
    if !Registered(cs, conn) then (cs, [])
    else
      var e := Lookup(cs, conn);
      var name := if e.username != "" then e.username else AddressText(e.addr);
      var cs' := Delete(cs, conn);
      (cs', Broadcast(cs', LeftNotice(name), None, UserEvent, ts))
  }

  /** Removing a registered connection deletes exactly it, keeps the other
      keys, and tells each remaining connection once, naming the leaver as
      `get_username` would have. The leaver hears nothing. */
  lemma RemoveTellsRemaining(cs: seq<Entry>, conn: ConnId, ts: string, c: ConnId)
    requires DistinctKeys(cs) && Registered(cs, conn)
    ensures var (cs', sends) := RemoveOutcome(cs, conn, ts);
      && DistinctKeys(cs') && !Registered(cs', conn)
      && (c != conn ==> (Registered(cs', c) <==> Registered(cs, c)))
      && SentTo(sends, c)
           == if c != conn && Registered(cs, c) then [ts + " [SERVER] " + LeftNotice(GetUsername(cs, conn))] else []
  {
    var cs' := Delete(cs, conn);
    DeleteRemovesKey(cs, conn);
    var text := ts + " [SERVER] " + LeftNotice(GetUsername(cs, conn));
    FormatLabelled(ts, UserEvent, LeftNotice(GetUsername(cs, conn)), None, None);
    BroadcastOnce(cs', None, text, c);
  }

  /** Removing an unregistered connection sends nothing and keeps the registry. */
  lemma RemoveAbsent(cs: seq<Entry>, conn: ConnId, ts: string)
    requires DistinctKeys(cs) && !Registered(cs, conn)
    ensures RemoveOutcome(cs, conn, ts) == (cs, [])
  {
  }

  /** A default name has no surrounding whitespace, so `/nick` takes it
      as written. */
  lemma DefaultNameStripped(n: nat)
    ensures Strip(DefaultName(n)) == DefaultName(n)
  {
    var d := DefaultName(n);
    assert d[0] == 'U';
    assert d[|d| - 1] == NatToString(n)[|NatToString(n)| - 1];
    StripTrimmed(d);
  }

  /** Renaming a connection to `name` gives it that username and keeps the
      keys. */
  lemma RenamedHolds(cs: seq<Entry>, conn: ConnId, name: string, ts: string)
    requires DistinctKeys(cs) && Registered(cs, conn)
    requires name != "" && Strip(name) == name && name !in Usernames(cs)
    ensures var renamed := NickOutcome(cs, conn, name, ts).clients;
      && DistinctKeys(renamed) && Keys(renamed) == Keys(cs)
      && Registered(renamed, conn) && Lookup(renamed, conn).username == name
  {
    NickRenames(cs, conn, name, ts, conn);
    var renamed := NickOutcome(cs, conn, name, ts).clients;
    assert Registered(renamed, conn);
  }

  /** Appending a fresh entry leaves the lookup of every other key alone. */
  lemma LookupAppend(cs: seq<Entry>, e: Entry, conn: ConnId)
    requires DistinctKeys(cs) && !Registered(cs, e.conn)
    ensures DistinctKeys(cs + [e]) && Registered(cs + [e], e.conn) && Lookup(cs + [e], e.conn) == e
    ensures Registered(cs, conn) ==>
      Registered(cs + [e], conn) && Lookup(cs + [e], conn) == Lookup(cs, conn)
  {
    AppendFresh(cs, e);
    FindAt(cs + [e], |cs|);
    if Registered(cs, conn) {
      var i := Find(cs, conn).value;
      assert (cs + [e])[i] == cs[i];
      FindAt(cs + [e], i);
    }
  }

  /** A connection holding the next default name keeps it when the next
      connection arrives, and the newcomer gets the same name. */
  lemma ConnectAfterRename(renamed: seq<Entry>, counter: nat, conn: ConnId, next: ConnId, addr: Address, ts: string)
    requires DistinctKeys(renamed) && Registered(renamed, conn) && !Registered(renamed, next)
    requires Lookup(renamed, conn).username == DefaultName(counter + 1)
    ensures var both := ConnectOutcome(renamed, counter, next, addr, ts).clients;
      && conn != next && Registered(both, conn) && Registered(both, next)
      && Lookup(both, conn).username == Lookup(both, next).username == DefaultName(counter + 1)
  {
    LookupAppend(renamed, Entry(next, addr, DefaultName(counter + 1)), conn);
  }

  // ---------------------------------------------------------------- watch list

  /** A socket the select loop watches: the listening socket or a client. */
  datatype Sock = Listener | Client(conn: ConnId)

  /** One watched client socket per registry key, in registry order. */
  function WatchList(cs: seq<Entry>): (ws: seq<Sock>)
    ensures |ws| == |cs| && forall i :: 0 <= i < |cs| ==> ws[i] == Client(cs[i].conn)
  {
    if cs == [] then [] else WatchList(cs[..|cs| - 1]) + [Client(cs[|cs| - 1].conn)]
  }

  /** The watch list depends on the keys only, so a rename leaves it. */
  lemma WatchListKeys(a: seq<Entry>, b: seq<Entry>)
    requires Keys(a) == Keys(b)
    ensures WatchList(a) == WatchList(b)
  {
    assert forall i :: 0 <= i < |a| ==> WatchList(a)[i] == Client(Keys(a)[i]);
  }

  /** What `inputs` holds: the listening socket while it is watched, then the
      registered connections. */
  function Watched(listening: bool, cs: seq<Entry>): seq<Sock> {
    if listening then [Listener] + WatchList(cs) else WatchList(cs)
  }

  /** `s.remove(x)`: drops the first occurrence of `x`. */
  function RemoveFirst(s: seq<Sock>, x: Sock): (r: seq<Sock>)
    requires x in s
    ensures |r| == |s| - 1
  {
    if s[0] == x then s[1..] else [s[0]] + RemoveFirst(s[1..], x)
  }

  /** `inputs.append(new_client)` after registering a fresh connection keeps
      `inputs` in step with the registry. */
  lemma WatchAppend(listening: bool, cs: seq<Entry>, e: Entry)
    ensures Watched(listening, cs) + [Client(e.conn)] == Watched(listening, cs + [e])
  {
    assert (cs + [e])[..|cs|] == cs;
  }

  /** A client socket is watched exactly when it is registered. */
  lemma WatchedClients(listening: bool, cs: seq<Entry>, conn: ConnId)
    ensures Client(conn) in Watched(listening, cs) <==> Registered(cs, conn)
  {
    var ws := Watched(listening, cs);
    var k := if listening then 1 else 0;
    if Client(conn) in ws {
      var i :| 0 <= i < |ws| && ws[i] == Client(conn);
      assert Keys(cs)[i - k] == conn;
    }
    if Registered(cs, conn) {
      var i :| 0 <= i < |cs| && Keys(cs)[i] == conn;
      assert ws[i + k] == Client(conn);
    }
  }

  /** The listening socket is watched exactly while listening. */
  lemma WatchedListener(listening: bool, cs: seq<Entry>)
    ensures Listener in Watched(listening, cs) <==> listening
  {
    assert Listener !in WatchList(cs) by {
      forall i | 0 <= i < |cs| ensures WatchList(cs)[i] != Listener {
      }
    }
  }

  /** Cutting entry `i` out of the registry cuts position `i` out of its
      watch list. */
  lemma WatchListCut(cs: seq<Entry>, i: nat)
    requires i < |cs|
    ensures WatchList(cs[..i] + cs[i + 1..]) == WatchList(cs)[..i] + WatchList(cs)[i + 1..]
  {
    var r := cs[..i] + cs[i + 1..];
    var ws := WatchList(cs);
    var cut := ws[..i] + ws[i + 1..];
    forall j | 0 <= j < |r| ensures cut[j] == Client(r[j].conn) {
      if j < i {
        assert r[j] == cs[j] && cut[j] == ws[j];
      } else {
        assert r[j] == cs[j + 1] && cut[j] == ws[j + 1];
      }
    }
    WatchListIs(r, cut);
  }

  /** The watch list is the one sequence holding each entry's socket at the
      entry's position. */
  lemma WatchListIs(cs: seq<Entry>, ws: seq<Sock>)
    requires |ws| == |cs| && forall j :: 0 <= j < |cs| ==> ws[j] == Client(cs[j].conn)
    ensures WatchList(cs) == ws
  {
  }

  /** Removing a registered connection's socket from the client part of
      the watch list is deleting it from the registry. */
  lemma WatchListRemove(cs: seq<Entry>, conn: ConnId)
    requires DistinctKeys(cs) && Registered(cs, conn)
    ensures Client(conn) in WatchList(cs)
    ensures RemoveFirst(WatchList(cs), Client(conn)) == WatchList(Delete(cs, conn))
  {
    var i := Find(cs, conn).value;
    var ws := WatchList(cs);
    assert Client(conn) !in ws[..i] by {
      forall j | 0 <= j < i ensures ws[..i][j] != Client(conn) {
        assert cs[j].conn != cs[i].conn;
      }
    }
    WatchRemoveAt(ws, Client(conn), i);
    WatchListCut(cs, i);
  }

  /** `inputs.remove(sock)` of a registered connection, next to its
      deletion from the registry, keeps `inputs` in step with the registry. */
  lemma WatchRemove(listening: bool, cs: seq<Entry>, conn: ConnId)
    requires DistinctKeys(cs) && Registered(cs, conn)
    ensures Client(conn) in Watched(listening, cs)
    ensures RemoveFirst(Watched(listening, cs), Client(conn)) == Watched(listening, Delete(cs, conn))
  {
    WatchListRemove(cs, conn);
    if listening {
      RemoveAfterListener(WatchList(cs), Client(conn));
    }
  }

  /** Removing a client socket skips over the listening socket in front. */
  lemma RemoveAfterListener(ws: seq<Sock>, x: Sock)
    requires x in ws && x != Listener
    ensures RemoveFirst([Listener] + ws, x) == [Listener] + RemoveFirst(ws, x)
  {
    assert ([Listener] + ws)[1..] == ws;
  }

  /** Removing the first occurrence of something found first at `i` cuts out
      position `i`. */
  lemma {:induction false} WatchRemoveAt(s: seq<Sock>, x: Sock, i: nat)
    requires i < |s| && s[i] == x && x !in s[..i]
    ensures x in s && RemoveFirst(s, x) == s[..i] + s[i + 1..]
  {
    if i > 0 {
      assert s[0] == s[..i][0];
      assert s[1..][..i - 1] == s[..i][1..];
      WatchRemoveAt(s[1..], x, i - 1);
      assert [s[0]] + (s[1..][..i - 1] + s[1..][i..]) == s[..i] + s[i + 1..];
    }
  }

  /** Dropping the listening socket after an error on it leaves only the
      client sockets watched. */
  lemma WatchDropListener(cs: seq<Entry>)
    ensures Listener in Watched(true, cs)
    ensures RemoveFirst(Watched(true, cs), Listener) == Watched(false, cs)
  {
  }
}
