/** The message kinds, the command table and the wire formatter shared by the
    chat server and its clients. */
module Common {
  import opened Wrappers

  /** The kind of a formatted message. */
  datatype MessageType = Chat | Server | Private | CommandResult | Error | UserEvent

  /** The string each kind stands for in the program. */
  function TypeTag(t: MessageType): string {
    match t
    case Chat => "CHAT"
    case Server => "SERVER"
    case Private => "PRIVATE"
    case CommandResult => "CMD"
    case Error => "ERROR"
    case UserEvent => "EVENT"
  }

  /** The tags are pairwise distinct, so comparing tags, as the program does,
      tells the kinds apart exactly as comparing constructors does. */
  lemma TypeTagInjective(a: MessageType, b: MessageType)
    ensures TypeTag(a) == TypeTag(b) <==> a == b
  {
  }

  /** The commands a client may issue and their descriptions, in table order. */
  const Commands: seq<(string, string)> := [
    ("/help", "Show available commands"),
    ("/list", "List all connected users"),
    ("/whisper", "Send a private message to a user: /whisper <username> <message>"),
    ("/exit", "Disconnect from the server"),
    ("/nick", "Change your username: /nick <new_username>")
  ]

  /** Python truthiness of an optional string: present and non-empty. */
  predicate Truthy(s: Option<string>) {
    s.Some? && s.value != ""
  }

  /** How an optional string is interpolated into an f-string. */
  function Show(s: Option<string>): string {
    match s
    case None => "None"
    case Some(v) => v
  }

  /** The wire text for one message stamped `ts`. The first matching case
      wins; a private message with both parties named always reads FROM. */
  function FormatMessage(ts: string, kind: MessageType, content: string,
                         sender: Option<string>, recipient: Option<string>): (r: string)
  {
    if kind == Chat && Truthy(sender) then
      ts + " [" + sender.value + "] " + content
    else if kind == Private && Truthy(sender) && Truthy(recipient) then
      ts + " [PRIVATE FROM " + sender.value + "] " + content
    else if kind == Private && Truthy(sender) then
      ts + " [PRIVATE TO " + Show(recipient) + "] " + content
    else if kind == Server then
      ts + " [SERVER] " + content
    else if kind == CommandResult then
      ts + " [SERVER] " + content
    else if kind == Error then
      ts + " [ERROR] " + content
    else if kind == UserEvent then
      ts + " [SERVER] " + content
    else
      ts + " " + content
  }

  /** Every formatted message starts with its timestamp and ends with its
      content, with a non-empty label or separator between them. */
  lemma FormatFrames(ts: string, kind: MessageType, content: string,
                     sender: Option<string>, recipient: Option<string>)
    ensures var r := FormatMessage(ts, kind, content, sender, recipient);
      && |ts| + |content| < |r|
      && r[..|ts|] == ts && r[|r| - |content|..] == content
  {
  }

  /** A chat message with a named sender carries the sender in brackets. */
  lemma FormatChat(ts: string, content: string, sender: string, recipient: Option<string>)
    requires sender != ""
    ensures FormatMessage(ts, Chat, content, Some(sender), recipient) == ts + " [" + sender + "] " + content
  {
  }

  /** Server notices, command results and user events share the SERVER label;
      errors carry the ERROR label; neither depends on sender or recipient. */
  lemma FormatLabelled(ts: string, kind: MessageType, content: string,
                       sender: Option<string>, recipient: Option<string>)
    ensures kind in {Server, CommandResult, UserEvent} ==>
      FormatMessage(ts, kind, content, sender, recipient) == ts + " [SERVER] " + content
    ensures kind == Error ==>
      FormatMessage(ts, kind, content, sender, recipient) == ts + " [ERROR] " + content
  {
  }

  /** With both parties named, a private message reads FROM the sender,
      whichever recipient it names: the recipient's copy and the sender's
      confirmation are the same text. */
  lemma FormatPrivateFrom(ts: string, content: string, sender: string,
                          recipient1: string, recipient2: string)
    requires sender != "" && recipient1 != "" && recipient2 != ""
    ensures FormatMessage(ts, Private, content, Some(sender), Some(recipient1))
         == FormatMessage(ts, Private, content, Some(sender), Some(recipient2))
         == ts + " [PRIVATE FROM " + sender + "] " + content
  {
  }

  /** The TO form is reached only when the recipient is missing or empty. */
  lemma FormatPrivateTo(ts: string, content: string, sender: string, recipient: Option<string>)
    requires sender != ""
    ensures !Truthy(recipient) <==>
      FormatMessage(ts, Private, content, Some(sender), recipient)
        == ts + " [PRIVATE TO " + Show(recipient) + "] " + content
  {
    var r := FormatMessage(ts, Private, content, Some(sender), recipient);
    if Truthy(recipient) {
      var from := ts + " [PRIVATE FROM " + sender + "] " + content;
      var to := ts + " [PRIVATE TO " + Show(recipient) + "] " + content;
      assert r == from;
      assert from[|ts| + 10] == 'F' && to[|ts| + 10] == 'T';
    }
  }

  /** A chat or private message without a sender falls through to the bare
      form: the timestamp, a space and the content. */
  lemma FormatPlain(ts: string, kind: MessageType, content: string,
                    sender: Option<string>, recipient: Option<string>)
    requires kind in {Chat, Private} && !Truthy(sender)
    ensures FormatMessage(ts, kind, content, sender, recipient) == ts + " " + content
  {
  }

  /** The text between the timestamp and the content depends on the kind and
      the parties only, so a reader who knows them recovers the content. */
  lemma {:induction false} FormatContentInjective(ts: string, kind: MessageType, c1: string, c2: string,
                                                  sender: Option<string>, recipient: Option<string>)
    requires FormatMessage(ts, kind, c1, sender, recipient) == FormatMessage(ts, kind, c2, sender, recipient)
    ensures c1 == c2
  {
    var r1 := FormatMessage(ts, kind, c1, sender, recipient);
    var r2 := FormatMessage(ts, kind, c2, sender, recipient);
    var n := |r1| - |c1|;
    assert r1 == r1[..n] + c1 && r2 == r2[..|r2| - |c2|] + c2;
    assert |c1| == |c2|;
    assert c1 == r1[n..] == r2[n..] == c2;
  }
}
