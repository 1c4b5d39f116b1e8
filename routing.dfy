/** What the server's two routing primitives send: `broadcast_message` and
    `send_private_message`, as lists of sends in the order they happen. */
module Routing {
  import opened Wrappers
  import opened Common
  import opened Registry

  /** One `sock.send(text)`: the connection written to and the text. */
  type Send = (ConnId, string)

  /** One reply to one connection, naming no party. */
  function Reply(conn: ConnId, ts: string, kind: MessageType, content: string): seq<Send> {
    [(conn, FormatMessage(ts, kind, content, None, None))]
  }

  /** Sending in batches: appending two batches one after the other is
      appending their concatenation. */
  lemma SendsAssoc(a: seq<Send>, b: seq<Send>, c: seq<Send>)
    ensures a + b + c == a + (b + c)
  {
  }

  /** The texts one connection receives from a list of sends, in order. */
  function SentTo(out: seq<Send>, c: ConnId): seq<string> {
    if out == [] then []
    else SentTo(out[..|out| - 1], c) + (if out[|out| - 1].0 == c then [out[|out| - 1].1] else [])
  }

  /** What a connection receives from two batches is what it receives from
      the first followed by what it receives from the second. */
  lemma {:induction false} SentToAppend(a: seq<Send>, b: seq<Send>, c: ConnId)
    ensures SentTo(a + b, c) == SentTo(a, c) + SentTo(b, c)
  {
    if b == [] {
      assert a + b == a;
    } else {
      var b' := b[..|b| - 1];
      assert (a + b)[..|a + b| - 1] == a + b';
      SentToAppend(a, b', c);
    }
  }

  /** One more send reaches only its own connection. */
  lemma SentToSnoc(out: seq<Send>, s: Send, c: ConnId)
    ensures SentTo(out + [s], c) == SentTo(out, c) + (if s.0 == c then [s.1] else [])
  {
    assert (out + [s])[..|out|] == out;
  }

  /** The connections written to, in order. */
  function Targets(out: seq<Send>): (ts: seq<ConnId>)
    ensures |ts| == |out| && forall k :: 0 <= k < |out| ==> ts[k] == out[k].0
  {
    if out == [] then [] else Targets(out[..|out| - 1]) + [out[|out| - 1].0]
  }

  /** `ks` with the excluded connection left out, order kept. */
  function Without(ks: seq<ConnId>, exclude: Option<ConnId>): seq<ConnId> {
    if ks == [] then []
    else Without(ks[..|ks| - 1], exclude) + (if Some(ks[|ks| - 1]) == exclude then [] else [ks[|ks| - 1]])
  }

  /** The loop of `broadcast_message`: `text` to every registered connection
      other than `exclude`, in registry order. */
  function BroadcastSends(cs: seq<Entry>, exclude: Option<ConnId>, text: string): (r: seq<Send>)
    ensures forall k :: 0 <= k < |r| ==> r[k].1 == text && Some(r[k].0) != exclude
  {
    if cs == [] then []
    else
      var last := cs[|cs| - 1].conn;
      BroadcastSends(cs[..|cs| - 1], exclude, text) + (if Some(last) == exclude then [] else [(last, text)])
  }

  /** The broadcast writes to the registry's keys in order, skipping only the
      excluded one. */
  lemma {:induction false} BroadcastTargets(cs: seq<Entry>, exclude: Option<ConnId>, text: string)
    ensures Targets(BroadcastSends(cs, exclude, text)) == Without(Keys(cs), exclude)
  {
    if cs != [] {
      var init := cs[..|cs| - 1];
      assert Keys(cs)[..|cs| - 1] == Keys(init);
      BroadcastTargets(init, exclude, text);
      var r0 := BroadcastSends(init, exclude, text);
      var r := BroadcastSends(cs, exclude, text);
      if Some(cs[|cs| - 1].conn) == exclude {
        assert r == r0;
      } else {
        assert r[..|r| - 1] == r0;
      }
    }
  }

  /** Without an exclusion a broadcast reaches every key, in registry order. */
  lemma {:induction false} BroadcastToAll(cs: seq<Entry>, text: string)
    ensures Targets(BroadcastSends(cs, None, text)) == Keys(cs)
  {
    if cs != [] {
      var init := cs[..|cs| - 1];
      BroadcastToAll(init, text);
      var r := BroadcastSends(cs, None, text);
      assert r[..|r| - 1] == BroadcastSends(init, None, text);
      assert Keys(cs) == Keys(init) + [cs[|cs| - 1].conn];
    }
  }

  /** Each registered connection other than the excluded one receives exactly
      one copy; the excluded one and unregistered ones receive nothing. */
  lemma {:induction false} BroadcastOnce(cs: seq<Entry>, exclude: Option<ConnId>, text: string, c: ConnId)
    requires DistinctKeys(cs)
    ensures SentTo(BroadcastSends(cs, exclude, text), c)
         == if Registered(cs, c) && Some(c) != exclude then [text] else []
  {
    if cs != [] {
      var init := cs[..|cs| - 1];
      assert cs == init + [cs[|cs| - 1]];
      BroadcastOnce(init, exclude, text, c);
      BroadcastStep(init, cs[|cs| - 1], exclude, text, c);
    }
  }

  /** The step of `BroadcastOnce`: one more, fresh, entry at the end. */
  lemma BroadcastStep(init: seq<Entry>, e: Entry, exclude: Option<ConnId>, text: string, c: ConnId)
    requires DistinctKeys(init + [e])
    requires SentTo(BroadcastSends(init, exclude, text), c)
          == if Registered(init, c) && Some(c) != exclude then [text] else []
    ensures SentTo(BroadcastSends(init + [e], exclude, text), c)
         == if Registered(init + [e], c) && Some(c) != exclude then [text] else []
  {
    var cs := init + [e];
    assert cs[..|cs| - 1] == init;
    assert Keys(cs) == Keys(init) + [e.conn];
    assert !Registered(init, e.conn);
    var r0 := BroadcastSends(init, exclude, text);
    if Some(e.conn) == exclude {
      assert BroadcastSends(cs, exclude, text) == r0;
    } else {
      SentToSnoc(r0, (e.conn, text), c);
      if c == e.conn {
        assert SentTo(r0, c) == [];
      }
    }
  }

  /** The text `broadcast_message` formats: only a chat message names its
      sender, looked up by `get_username`. */
  function BroadcastText(cs: seq<Entry>, message: string, sender: Option<ConnId>,
                         kind: MessageType, ts: string): (r: string)
    requires sender.Some? && kind == Chat ==> Registered(cs, sender.value)
    ensures sender.Some? && kind == Chat ==>
      r == ts + " [" + GetUsername(cs, sender.value) + "] " + message
    ensures sender.None? || kind != Chat ==> r == FormatMessage(ts, kind, message, None, None)
  {
    var name := if sender.Some? && kind == Chat then Some(GetUsername(cs, sender.value)) else None;
    FormatMessage(ts, kind, message, name, None)
  }

  /** Everything `broadcast_message(message, sender, kind)` sends. */
  function Broadcast(cs: seq<Entry>, message: string, sender: Option<ConnId>,
                     kind: MessageType, ts: string): seq<Send>
    requires sender.Some? && kind == Chat ==> Registered(cs, sender.value)
  {
    BroadcastSends(cs, sender, BroadcastText(cs, message, sender, kind, ts))
  }

  /** What `send_private_message` sends, and what it returns. */
  datatype Delivery = Delivery(sends: seq<Send>, delivered: bool)

  /** The error a sender receives when nobody holds the name. */
  function NotFoundNotice(name: string): string {
    "User '" + name + "' not found."
  }

  /** `send_private_message(message, sender, name)`: to the first entry
      holding `name` and then back to the sender the same PRIVATE text; when
      no entry holds it, one ERROR to the sender. */
  function PrivateMessage(cs: seq<Entry>, sender: ConnId, name: string,
                          message: string, ts: string): Delivery
    requires Registered(cs, sender)
  {
    var senderName := GetUsername(cs, sender);
    match FirstWithName(cs, name)
    case Some(i) =>
      var text := FormatMessage(ts, Private, message, Some(senderName), Some(name));
      Delivery([(cs[i].conn, text), (sender, text)], true)
    case None =>
      Delivery(Reply(sender, ts, Error, NotFoundNotice(name)), false)
  }

  /** The call reports success exactly when some entry holds the name; it
      sends twice then and once otherwise, and the last send goes back to
      the sender. */
  lemma PrivateReports(cs: seq<Entry>, sender: ConnId, name: string, message: string, ts: string)
    requires Registered(cs, sender)
    ensures var d := PrivateMessage(cs, sender, name, message, ts);
      && (d.delivered <==> name in Usernames(cs))
      && |d.sends| == (if d.delivered then 2 else 1)
      && d.sends[|d.sends| - 1].0 == sender
  {
  }

  /** A name nobody holds: one ERROR to the sender, nothing else, and the
      call reports failure. */
  lemma PrivateNotFound(cs: seq<Entry>, sender: ConnId, name: string, message: string, ts: string)
    requires Registered(cs, sender) && name !in Usernames(cs)
    ensures PrivateMessage(cs, sender, name, message, ts)
         == Delivery([(sender, ts + " [ERROR] " + NotFoundNotice(name))], false)
  {
    FormatLabelled(ts, Error, NotFoundNotice(name), None, None);
  }

  /** A name held first at position `i`: the same text to that entry and then
      to the sender, and the call reports success. When the name is
      non-empty the text reads FROM the sender for both of them, otherwise
      TO the empty name. */
  lemma PrivateFound(cs: seq<Entry>, sender: ConnId, name: string, message: string, ts: string, i: nat)
    requires Registered(cs, sender)
    requires i < |cs| && cs[i].username == name
    requires forall j :: 0 <= j < i ==> cs[j].username != name
    ensures var text := FormatMessage(ts, Private, message, Some(GetUsername(cs, sender)), Some(name));
      PrivateMessage(cs, sender, name, message, ts) == Delivery([(cs[i].conn, text), (sender, text)], true)
    ensures name != "" ==>
      PrivateMessage(cs, sender, name, message, ts).sends[0].1
        == ts + " [PRIVATE FROM " + GetUsername(cs, sender) + "] " + message
    ensures name == "" ==>
      PrivateMessage(cs, sender, name, message, ts).sends[0].1 == ts + " [PRIVATE TO " + name + "] " + message
  {
    FirstWithNameAt(cs, name, i);
    if name != "" {
      FormatPrivateFrom(ts, message, GetUsername(cs, sender), name, name);
    } else {
      FormatPrivateTo(ts, message, GetUsername(cs, sender), Some(name));
    }
  }
}
