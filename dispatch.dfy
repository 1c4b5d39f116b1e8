/** The command dispatcher `handle_command` and the decision logic of
    `handle_client_message`, as the registry they leave, what they send and
    what they return. */
module Dispatch {
  import opened Wrappers
  import opened Text
  import opened Common
  import opened Registry
  import opened Routing

  /** The registry after a handler, what it sent, and its boolean result. */
  datatype Outcome = Outcome(clients: seq<Entry>, sends: seq<Send>, handled: bool)

  // ---------------------------------------------------------------- /help, /list

  const HelpHeader := "Available commands:\n"

  /** The `/help` line `  <command> - <description>` of one table entry. */
  function CommandLine(entry: (string, string)): string {
    "  " + entry.0 + " - " + entry.1 + "\n"
  }

  /** One line per table entry, in table order. */
  function CommandLines(cmds: seq<(string, string)>): string {
    if cmds == [] then "" else CommandLines(cmds[..|cmds| - 1]) + CommandLine(cmds[|cmds| - 1])
  }

  /** The lines of a prefix of the table start the lines of the whole table. */
  lemma {:induction false} CommandLinesPrefix(cmds: seq<(string, string)>, n: nat)
    requires n <= |cmds|
    ensures StartsWith(CommandLines(cmds), CommandLines(cmds[..n]))
    decreases |cmds|
  {
    if n < |cmds| {
      var init := cmds[..|cmds| - 1];
      assert init[..n] == cmds[..n];
      CommandLinesPrefix(init, n);
      var whole := CommandLines(cmds);
      var p := CommandLines(cmds[..n]);
      assert whole[..|p|] == CommandLines(init)[..|p|];
    } else {
      assert cmds[..n] == cmds;
    }
  }

  /** Entry `k` of the table gets its own `  <command> - <description>` line,
      placed right after the lines of the entries before it. */
  lemma CommandLineAt(cmds: seq<(string, string)>, k: nat)
    requires k < |cmds|
    ensures var at := |CommandLines(cmds[..k])|;
      var line := CommandLine(cmds[k]);
      at + |line| <= |CommandLines(cmds)| && CommandLines(cmds)[at..at + |line|] == line
  {
    var head := cmds[..k + 1];
    assert head[..k] == cmds[..k] && head[k] == cmds[k];
    CommandLinesPrefix(cmds, k + 1);
    var line := CommandLine(cmds[k]);
    var before := CommandLines(cmds[..k]);
    assert CommandLines(head) == before + line;
    var whole := CommandLines(cmds);
    assert whole[..|before| + |line|] == before + line;
    assert whole[|before|..|before| + |line|] == (before + line)[|before|..];
  }

  /** The `/help` reply body. */
  function HelpText(): string {
    HelpHeader + CommandLines(Commands)
  }

  /** One line `  - <name>` per entry with a non-empty username. */
  function UserLines(cs: seq<Entry>): string {
    if cs == [] then ""
    else
      var u := cs[|cs| - 1].username;
      UserLines(cs[..|cs| - 1]) + (if u != "" then "  - " + u + "\n" else "")
  }

  /** One line `  - <name>` per name. */
  function Bullets(names: seq<string>): string {
    if names == [] then "" else Bullets(names[..|names| - 1]) + "  - " + names[|names| - 1] + "\n"
  }

  /** The `/list` body lists exactly the non-empty usernames, in registry
      order, the same names the whisper split considers. */
  lemma {:induction false} UserLinesAreNonEmptyNames(cs: seq<Entry>)
    ensures UserLines(cs) == Bullets(NonEmptyNames(cs))
  {
    if cs != [] {
      var init := cs[..|cs| - 1];
      var u := cs[|cs| - 1].username;
      UserLinesAreNonEmptyNames(init);
      if u != "" {
        var ns := NonEmptyNames(init) + [u];
        assert ns[..|ns| - 1] == NonEmptyNames(init);
      } else {
        assert NonEmptyNames(cs) == NonEmptyNames(init);
      }
    }
  }

  /** The `/list` reply body: the count of all entries, then the named ones. */
  function ListText(cs: seq<Entry>): string {
    "Connected users (" + NatToString(|cs|) + "):\n" + UserLines(cs)
  }

  // ---------------------------------------------------------------- /whisper

  const WhisperUsage := "Usage: /whisper <username> <message>"

  /** `args.startswith(u + ' ')` */
  predicate StartsWithName(args: string, u: string) {
    StartsWith(args, u + " ")
  }

  /** Longest first: no later name is longer than an earlier one. */
  predicate LengthSorted(s: seq<string>) {
    forall i, j :: 0 <= i < j < |s| ==> |s[j]| <= |s[i]|
  }

  /** Puts `u` before the first name not longer than it. */
  function InsertByLength(u: string, s: seq<string>): (r: seq<string>)
    ensures forall x :: x in r <==> x == u || x in s
  {
    if s == [] || |s[0]| <= |u| then [u] + s
    else
      assert s == [s[0]] + s[1..];
      [s[0]] + InsertByLength(u, s[1..])
  }

  /** Inserting adds exactly one copy of the inserted name. */
  lemma {:induction false} InsertPermutes(u: string, s: seq<string>)
    ensures multiset(InsertByLength(u, s)) == multiset(s) + multiset{u}
  {
    if s != [] && |u| < |s[0]| {
      InsertPermutes(u, s[1..]);
      assert s == [s[0]] + s[1..];
    }
  }

  /** Inserting into a longest-first list keeps it longest first. */
  lemma {:induction false} InsertKeepsSorted(u: string, s: seq<string>)
    requires LengthSorted(s)
    ensures LengthSorted(InsertByLength(u, s))
  {
    if s != [] && |u| < |s[0]| {
      InsertKeepsSorted(u, s[1..]);
      var t := InsertByLength(u, s[1..]);
      assert forall x :: x in t ==> |x| <= |s[0]|;
      assert forall j :: 0 <= j < |t| ==> t[j] in t;
    }
  }

  /** `names.sort(key=len, reverse=True)`, as a stable insertion sort. */
  function SortByLength(s: seq<string>): (r: seq<string>)
    ensures LengthSorted(r)
  {
    if s == [] then []
    else
      InsertKeepsSorted(s[0], SortByLength(s[1..]));
      InsertByLength(s[0], SortByLength(s[1..]))
  }

  /** The sort is a permutation of the names it was given. */
  lemma {:induction false} SortPermutes(s: seq<string>)
    ensures multiset(SortByLength(s)) == multiset(s)
  {
    if s != [] {
      SortPermutes(s[1..]);
      InsertPermutes(s[0], SortByLength(s[1..]));
      assert s == [s[0]] + s[1..];
    }
  }

  /** The loop over the sorted names: the first one that `args` starts with,
      followed by a space. */
  function FirstMatch(names: seq<string>, args: string): (r: Option<string>)
    ensures r.Some? ==> r.value in names && StartsWithName(args, r.value)
    ensures r.None? <==> forall u :: u in names ==> !StartsWithName(args, u)
  {
    if names == [] then None
    else if StartsWithName(args, names[0]) then Some(names[0])
    else FirstMatch(names[1..], args)
  }

  /** In a longest-first list the first match is a longest match. */
  lemma {:induction false} FirstMatchLongest(names: seq<string>, args: string, v: string)
    requires LengthSorted(names) && v in names && StartsWithName(args, v)
    ensures FirstMatch(names, args).Some? && |v| <= |FirstMatch(names, args).value|
  {
    if !StartsWithName(args, names[0]) {
      assert v in names[1..];
      FirstMatchLongest(names[1..], args, v);
    }
  }

  /** Two names of one length that `args` both starts with are the same name. */
  lemma SameLengthNamesEqual(args: string, u: string, v: string)
    requires StartsWithName(args, u) && StartsWithName(args, v) && |u| == |v|
    ensures u == v
  {
    assert u == (u + " ")[..|u|] == args[..|u|] == (v + " ")[..|v|] == v;
  }

  /** Which longest-first ordering of the names is searched does not matter:
      the sort's tie-breaking never changes the chosen recipient. */
  lemma FirstMatchOrderIrrelevant(s1: seq<string>, s2: seq<string>, args: string)
    requires LengthSorted(s1) && LengthSorted(s2) && multiset(s1) == multiset(s2)
    ensures FirstMatch(s1, args) == FirstMatch(s2, args)
  {
    assert forall u :: u in s1 <==> u in s2 by {
      forall u ensures u in s1 <==> u in s2 {
        assert u in s1 <==> u in multiset(s1);
        assert u in s2 <==> u in multiset(s2);
      }
    }
    var m1, m2 := FirstMatch(s1, args), FirstMatch(s2, args);
    if m1.Some? {
      FirstMatchLongest(s2, args, m1.value);
      FirstMatchLongest(s1, args, m2.value);
      SameLengthNamesEqual(args, m1.value, m2.value);
    }
  }

  /** Sorting keeps exactly the names it was given. */
  lemma SortedSameNames(names: seq<string>)
    ensures forall u :: u in SortByLength(names) <==> u in names
  {
    var sorted := SortByLength(names);
    SortPermutes(names);
    forall u ensures u in sorted <==> u in names {
      assert u in sorted <==> u in multiset(sorted);
      assert u in names <==> u in multiset(names);
    }
  }

  /** The recipient and body `/whisper` extracts from its argument string:
      the longest registered non-empty username that `args` starts with,
      followed by a space, and the text after it; failing that, the text
      before and after the first space. */
  function WhisperSplit(cs: seq<Entry>, args: string): (string, string) {
    match FirstMatch(SortByLength(NonEmptyNames(cs)), args)
    case Some(u) => (u, args[|u| + 1..])
    case None =>
      var p := SplitOnce(args);
      (p[0], if |p| > 1 then p[1] else "")
  }

  /** Whichever way it goes, a split of an argument string holding a space
      is a split at a space: recipient, space, body. */
  lemma WhisperSplitJoins(cs: seq<Entry>, args: string)
    requires ' ' in args
    ensures args == WhisperSplit(cs, args).0 + " " + WhisperSplit(cs, args).1
  {
    match FirstMatch(SortByLength(NonEmptyNames(cs)), args)
    case Some(u) =>
      assert args == args[..|u| + 1] + args[|u| + 1..];
    case None =>
  }

  /** When some registered non-empty username `v` starts `args`, the
      recipient is a registered non-empty username that starts `args` and is
      at least as long as `v`, and the body is what follows it. */
  lemma WhisperPrefersLongest(cs: seq<Entry>, args: string, v: string)
    requires v in Usernames(cs) && v != "" && StartsWithName(args, v)
    ensures var (recipient, body) := WhisperSplit(cs, args);
      && recipient in Usernames(cs) && recipient != ""
      && StartsWithName(args, recipient) && |v| <= |recipient|
      && body == args[|recipient| + 1..]
  {
    var names := NonEmptyNames(cs);
    var sorted := SortByLength(names);
    assert FirstMatch(sorted, args).Some? && |v| <= |FirstMatch(sorted, args).value| by {
      SortedSameNames(names);
      FirstMatchLongest(sorted, args, v);
    }
    var u := FirstMatch(sorted, args).value;
    assert u in Usernames(cs) && u != "" by {
      SortedSameNames(names);
    }
    WhisperSplitFound(cs, args);
  }

  /** A name found in the sorted list is the recipient, and the body is the
      text after it and its space. */
  lemma WhisperSplitFound(cs: seq<Entry>, args: string)
    requires FirstMatch(SortByLength(NonEmptyNames(cs)), args).Some?
    ensures var u := FirstMatch(SortByLength(NonEmptyNames(cs)), args).value;
      WhisperSplit(cs, args) == (u, args[|u| + 1..])
  {
  }

  /** When no registered non-empty username starts `args`, the split falls
      back to the first space. */
  lemma WhisperFallback(cs: seq<Entry>, args: string)
    requires forall v :: v in Usernames(cs) && v != "" ==> !StartsWithName(args, v)
    ensures var p := SplitOnce(args);
      WhisperSplit(cs, args) == (p[0], if |p| > 1 then p[1] else "")
  {
    SortedSameNames(NonEmptyNames(cs));
  }

  /** The `/whisper` branch: a usage error without a space or without a
      body, otherwise the private send. */
  function WhisperOutcome(cs: seq<Entry>, conn: ConnId, args: string, ts: string): (o: Outcome)
    requires Registered(cs, conn)
    ensures o.clients == cs && o.handled
  {
    if ' ' !in args then Outcome(cs, Reply(conn, ts, Error, WhisperUsage), true)
    else
      var (recipient, body) := WhisperSplit(cs, args);
      if body != "" then Outcome(cs, PrivateMessage(cs, conn, recipient, body, ts).sends, true)
      else Outcome(cs, Reply(conn, ts, Error, WhisperUsage), true)
  }

  // ---------------------------------------------------------------- /nick

  const NickUsage := "Usage: /nick <new_username>"

  /** The reply to a rename onto a name some entry holds. */
  function NickTaken(chosen: string): string {
    "Username '" + chosen + "' is already taken."
  }

  /** The confirmation of a rename to the requester. */
  function NickConfirmed(chosen: string): string {
    "Your username has been changed to '" + chosen + "'."
  }

  /** The rename notice: quoted previous name, or the unquoted display name when
      the previous name was empty. */
  function NickNotice(previous: string, displayed: string, chosen: string): string {
    if previous != "" then "User '" + previous + "' is now known as '" + chosen + "'."
    else "User " + displayed + " is now known as '" + chosen + "'."
  }

  /** The `/nick` branch. The name taken is the stripped argument; any
      current holder of it, the requester included, makes it an error. */
  function NickOutcome(cs: seq<Entry>, conn: ConnId, args: string, ts: string): (o: Outcome)
    requires DistinctKeys(cs) && Registered(cs, conn)
    ensures DistinctKeys(o.clients) && Keys(o.clients) == Keys(cs) && o.handled
  {
    if args == "" then Outcome(cs, Reply(conn, ts, Error, NickUsage), true)
    else
      var chosen := Strip(args);
      if chosen in Usernames(cs) then
        Outcome(cs, Reply(conn, ts, Error, NickTaken(chosen)), true)
      else
        var displayed := GetUsername(cs, conn);
        var previous := Lookup(cs, conn).username;
        var cs' := SetUsername(cs, conn, chosen);
        var confirm := Reply(conn, ts, Server, NickConfirmed(chosen));
        Outcome(cs', confirm + Broadcast(cs', NickNotice(previous, displayed, chosen), Some(conn), UserEvent, ts), true)
  }

  /** The three ways `/nick` goes once its argument is non-empty. */
  lemma NickCases(cs: seq<Entry>, conn: ConnId, args: string, ts: string)
    requires DistinctKeys(cs) && Registered(cs, conn) && args != ""
    ensures Strip(args) in Usernames(cs) ==>
      NickOutcome(cs, conn, args, ts) == Outcome(cs, Reply(conn, ts, Error, NickTaken(Strip(args))), true)
    ensures Strip(args) !in Usernames(cs) ==>
      var renamed := SetUsername(cs, conn, Strip(args));
      var notice := NickNotice(Lookup(cs, conn).username, GetUsername(cs, conn), Strip(args));
      NickOutcome(cs, conn, args, ts)
        == Outcome(renamed, Reply(conn, ts, Server, NickConfirmed(Strip(args)))
                            + Broadcast(renamed, notice, Some(conn), UserEvent, ts), true)
  {
  }

  /** An empty argument, or a name some entry already holds, gets exactly
      one ERROR and leaves the registry as it was. */
  lemma NickRejected(cs: seq<Entry>, conn: ConnId, args: string, ts: string)
    requires DistinctKeys(cs) && Registered(cs, conn)
    requires args == "" || Strip(args) in Usernames(cs)
    ensures var o := NickOutcome(cs, conn, args, ts);
      && o.clients == cs && |o.sends| == 1 && o.sends[0].0 == conn
      && o.sends[0].1 == ts + " [ERROR] "
           + (if args == "" then NickUsage else NickTaken(Strip(args)))
  {
  }

  /** The sends of a successful rename: the confirmation to the requester,
      then the notice to every other connection of the renamed registry. */
  lemma {:induction false} NickSucceeds(cs: seq<Entry>, conn: ConnId, args: string, ts: string)
    requires DistinctKeys(cs) && Registered(cs, conn)
    requires args != "" && Strip(args) !in Usernames(cs)
    ensures var chosen := Strip(args);
      var cs' := SetUsername(cs, conn, chosen);
      var notice := NickNotice(Lookup(cs, conn).username, GetUsername(cs, conn), chosen);
      NickOutcome(cs, conn, args, ts)
        == Outcome(cs', [(conn, ts + " [SERVER] " + NickConfirmed(chosen))]
                        + BroadcastSends(cs', Some(conn), ts + " [SERVER] " + notice), true)
  {
    var chosen := Strip(args);
    var notice := NickNotice(Lookup(cs, conn).username, GetUsername(cs, conn), chosen);
    FormatLabelled(ts, Server, NickConfirmed(chosen), None, None);
    FormatLabelled(ts, UserEvent, notice, None, None);
  }

  /** What one connection receives from a confirmation followed by a
      broadcast that excludes the confirmed connection. */
  lemma {:induction false} ConfirmThenBroadcast(cs: seq<Entry>, conn: ConnId, confirm: string, text: string, c: ConnId)
    requires DistinctKeys(cs) && Registered(cs, conn)
    ensures SentTo([(conn, confirm)] + BroadcastSends(cs, Some(conn), text), c)
         == if c == conn then [confirm] else if Registered(cs, c) then [text] else []
  {
    var rest := BroadcastSends(cs, Some(conn), text);
    SentToAppend([(conn, confirm)], rest, c);
    BroadcastOnce(cs, Some(conn), text, c);
    assert SentTo([(conn, confirm)], c) == SentTo([], c) + (if c == conn then [confirm] else []);
  }

  /** A successful rename changes the requester's username only, keeps its
      address and position, confirms to the requester and tells every other
      connection, once each. */
  lemma NickRenames(cs: seq<Entry>, conn: ConnId, args: string, ts: string, c: ConnId)
    requires DistinctKeys(cs) && Registered(cs, conn)
    requires args != "" && Strip(args) !in Usernames(cs)
    ensures var o := NickOutcome(cs, conn, args, ts);
      var chosen := Strip(args);
      var previous := Lookup(cs, conn);
      && o.clients == SetUsername(cs, conn, chosen)
      && Lookup(o.clients, conn) == Entry(conn, previous.addr, chosen)
      && Find(o.clients, conn) == Find(cs, conn)
      && SentTo(o.sends, c) ==
           if c == conn then [ts + " [SERVER] " + NickConfirmed(chosen)]
           else if Registered(cs, c) then
             [ts + " [SERVER] " + NickNotice(previous.username, GetUsername(cs, conn), chosen)]
           else []
  {
    var chosen := Strip(args);
    var cs' := SetUsername(cs, conn, chosen);
    FindAt(cs', Find(cs, conn).value);
    NickSucceeds(cs, conn, args, ts);
    var notice := NickNotice(Lookup(cs, conn).username, GetUsername(cs, conn), chosen);
    ConfirmThenBroadcast(cs', conn, ts + " [SERVER] " + NickConfirmed(chosen),
                         ts + " [SERVER] " + notice, c);
  }

  // ---------------------------------------------------------------- dispatch

  const ExitNotice := "Disconnecting..."

  /** The reply to an unrecognised command word. */
  function UnknownNotice(cmd: string): string {
    "Unknown command: " + cmd + ". Type /help for available commands."
  }

  /** The command word, lower-cased: `command.split(' ', 1)[0].lower()`. */
  function CommandName(command: string): string {
    Lower(SplitOnce(command)[0])
  }

  /** Everything after the first space, or nothing when there is none. */
  function CommandArgs(command: string): (r: string)
    ensures ' ' !in command ==> r == ""
    ensures ' ' in command ==> command == SplitOnce(command)[0] + " " + r
  {
    var p := SplitOnce(command);
    if |p| > 1 then p[1] else ""
  }

  /** `handle_command(conn, command)`. Text not starting with `/` is not a
      command. `/exit` only acknowledges and returns false; every other
      command returns true. */
  function CommandOutcome(cs: seq<Entry>, conn: ConnId, command: string, ts: string): (o: Outcome)
    requires DistinctKeys(cs)
    requires StartsWith(command, "/") ==> Registered(cs, conn)
    ensures DistinctKeys(o.clients) && Keys(o.clients) == Keys(cs)
    ensures o.handled <==> StartsWith(command, "/") && CommandName(command) != "/exit"
    ensures CommandName(command) != "/nick" ==> o.clients == cs
  {
    if !StartsWith(command, "/") then Outcome(cs, [], false)
    else
      var cmd := CommandName(command);
      var args := CommandArgs(command);
      if cmd == "/help" then Outcome(cs, Reply(conn, ts, CommandResult, HelpText()), true)
      else if cmd == "/list" then Outcome(cs, Reply(conn, ts, CommandResult, ListText(cs)), true)
      else if cmd == "/whisper" then WhisperOutcome(cs, conn, args, ts)
      else if cmd == "/exit" then Outcome(cs, Reply(conn, ts, Server, ExitNotice), false)
      else if cmd == "/nick" then NickOutcome(cs, conn, args, ts)
      else Outcome(cs, Reply(conn, ts, Error, UnknownNotice(cmd)), true)
  }

  /** Lower-casing twice is lower-casing once. */
  lemma LowerIdempotent(s: string)
    ensures Lower(Lower(s)) == Lower(s)
  {
    assert forall k :: 0 <= k < |s| ==> LowerChar(LowerChar(s[k])) == LowerChar(s[k]);
  }

  /** Lower-casing introduces no space. */
  lemma LowerKeepsSpaces(s: string)
    requires ' ' !in s
    ensures ' ' !in Lower(s)
  {
    forall k | 0 <= k < |s| ensures Lower(s)[k] != ' ' {
      assert s[k] in s;
    }
  }

  /** A command word in any case is dispatched as its lower-case form:
      upper-casing letters of the word changes nothing, whether or not
      arguments follow it. */
  lemma CommandNameIgnoresCase(word: string, tail: string)
    requires ' ' !in word
    ensures CommandName(word) == CommandName(Lower(word)) == Lower(word)
    ensures CommandArgs(word) == CommandArgs(Lower(word)) == ""
    ensures CommandName(word + " " + tail) == CommandName(Lower(word) + " " + tail) == Lower(word)
    ensures CommandArgs(word + " " + tail) == CommandArgs(Lower(word) + " " + tail) == tail
  {
    LowerKeepsSpaces(word);
    LowerIdempotent(word);
    SplitOnceUnique(word + " " + tail, word, tail);
    SplitOnceUnique(Lower(word) + " " + tail, Lower(word), tail);
  }

  /** Text that is not a command sends nothing and returns false. */
  lemma NotACommand(cs: seq<Entry>, conn: ConnId, command: string, ts: string)
    requires DistinctKeys(cs) && !StartsWith(command, "/")
    ensures CommandOutcome(cs, conn, command, ts) == Outcome(cs, [], false)
  {
  }

  /** `/exit` falls to its own branch. */
  lemma ExitDispatch(cs: seq<Entry>, conn: ConnId, command: string, ts: string)
    requires DistinctKeys(cs) && Registered(cs, conn)
    requires StartsWith(command, "/") && CommandName(command) == "/exit"
    ensures CommandOutcome(cs, conn, command, ts) == Outcome(cs, Reply(conn, ts, Server, ExitNotice), false)
  {
  }

  /** `/exit` acknowledges once, returns false and leaves the registry. */
  lemma ExitAcknowledges(cs: seq<Entry>, conn: ConnId, command: string, ts: string)
    requires DistinctKeys(cs) && Registered(cs, conn)
    requires StartsWith(command, "/") && CommandName(command) == "/exit"
    ensures CommandOutcome(cs, conn, command, ts)
         == Outcome(cs, [(conn, ts + " [SERVER] " + ExitNotice)], false)
  {
    ExitDispatch(cs, conn, command, ts);
    FormatLabelled(ts, Server, ExitNotice, None, None);
  }

  /** An unrecognised command word falls to the last branch. */
  lemma UnknownDispatch(cs: seq<Entry>, conn: ConnId, command: string, ts: string)
    requires DistinctKeys(cs) && Registered(cs, conn) && StartsWith(command, "/")
    requires CommandName(command) !in {"/help", "/list", "/whisper", "/exit", "/nick"}
    ensures CommandOutcome(cs, conn, command, ts)
         == Outcome(cs, Reply(conn, ts, Error, UnknownNotice(CommandName(command))), true)
  {
  }

  /** An unrecognised command word gets one ERROR naming it (lower-cased). */
  lemma UnknownCommand(cs: seq<Entry>, conn: ConnId, command: string, ts: string)
    requires DistinctKeys(cs) && Registered(cs, conn) && StartsWith(command, "/")
    requires CommandName(command) !in {"/help", "/list", "/whisper", "/exit", "/nick"}
    ensures CommandOutcome(cs, conn, command, ts)
         == Outcome(cs, [(conn, ts + " [ERROR] " + UnknownNotice(CommandName(command)))], true)
  {
    UnknownDispatch(cs, conn, command, ts);
    FormatLabelled(ts, Error, UnknownNotice(CommandName(command)), None, None);
  }

  /** `/whisper` with no space in its arguments, or with an empty body after
      the split, gets one usage ERROR and no private send. */
  lemma WhisperUsageError(cs: seq<Entry>, conn: ConnId, args: string, ts: string)
    requires Registered(cs, conn)
    requires ' ' !in args || WhisperSplit(cs, args).1 == ""
    ensures WhisperOutcome(cs, conn, args, ts)
         == Outcome(cs, [(conn, ts + " [ERROR] " + WhisperUsage)], true)
  {
  }

  /** `/whisper` with a body hands the split to the private send. */
  lemma WhisperSends(cs: seq<Entry>, conn: ConnId, args: string, ts: string)
    requires Registered(cs, conn) && ' ' in args && WhisperSplit(cs, args).1 != ""
    ensures var (recipient, body) := WhisperSplit(cs, args);
      WhisperOutcome(cs, conn, args, ts)
        == Outcome(cs, PrivateMessage(cs, conn, recipient, body, ts).sends, true)
  {
  }

  /** `/whisper` with a body whose recipient is held first at position `i`:
      the same text goes to that entry and then back to the requester. It
      reads FROM the requester's display name when the recipient is
      non-empty, and TO an empty name otherwise. */
  lemma WhisperDelivers(cs: seq<Entry>, conn: ConnId, args: string, ts: string, i: nat)
    requires Registered(cs, conn) && ' ' in args && WhisperSplit(cs, args).1 != ""
    requires i < |cs| && cs[i].username == WhisperSplit(cs, args).0
    requires forall j :: 0 <= j < i ==> cs[j].username != WhisperSplit(cs, args).0
    ensures var (recipient, body) := WhisperSplit(cs, args);
      var t := ts + " [PRIVATE FROM " + GetUsername(cs, conn) + "] " + body;
      recipient != "" ==> WhisperOutcome(cs, conn, args, ts) == Outcome(cs, [(cs[i].conn, t), (conn, t)], true)
    ensures var (recipient, body) := WhisperSplit(cs, args);
      var t := ts + " [PRIVATE TO " + recipient + "] " + body;
      recipient == "" ==> WhisperOutcome(cs, conn, args, ts) == Outcome(cs, [(cs[i].conn, t), (conn, t)], true)
  {
    var (recipient, body) := WhisperSplit(cs, args);
    WhisperSends(cs, conn, args, ts);
    PrivateFound(cs, conn, recipient, body, ts, i);
  }

  /** `/whisper` with a body to a name nobody holds: one `not found` ERROR
      back to the requester and nothing else. */
  lemma WhisperNobody(cs: seq<Entry>, conn: ConnId, args: string, ts: string)
    requires Registered(cs, conn) && ' ' in args && WhisperSplit(cs, args).1 != ""
    requires WhisperSplit(cs, args).0 !in Usernames(cs)
    ensures WhisperOutcome(cs, conn, args, ts)
         == Outcome(cs, [(conn, ts + " [ERROR] " + NotFoundNotice(WhisperSplit(cs, args).0))], true)
  {
    var recipient := WhisperSplit(cs, args).0;
    var body := WhisperSplit(cs, args).1;
    WhisperSends(cs, conn, args, ts);
    PrivateNotFound(cs, conn, recipient, body, ts);
  }

  // ---------------------------------------------------------------- inbound data

  /** `handle_client_message` after `recv`: `None` when the read raised,
      `Some("")` when the peer closed, otherwise the decoded text. The result
      says whether the connection stays open. */
  function MessageOutcome(cs: seq<Entry>, conn: ConnId, data: Option<string>, ts: string): (o: Outcome)
    requires DistinctKeys(cs) && Registered(cs, conn)
    ensures o.handled <==> data.Some? && data.value != ""
    ensures DistinctKeys(o.clients) && Keys(o.clients) == Keys(cs)
  {
    if data.None? || data.value == "" then Outcome(cs, [], false)
    else
      var message := Strip(data.value);
      if StartsWith(message, "/") then
        var o := CommandOutcome(cs, conn, message, ts);
        Outcome(o.clients, o.sends, true)
      else
        Outcome(cs, Broadcast(cs, message, Some(conn), Chat, ts), true)
  }

  /** A chat line goes, stripped and labelled with the sender's display name,
      to every other connection once; the sender gets nothing. */
  lemma ChatReachesOthers(cs: seq<Entry>, conn: ConnId, data: string, ts: string, c: ConnId)
    requires DistinctKeys(cs) && Registered(cs, conn)
    requires data != "" && !StartsWith(Strip(data), "/")
    ensures SentTo(MessageOutcome(cs, conn, Some(data), ts).sends, c)
         == if Registered(cs, c) && c != conn
            then [ts + " [" + GetUsername(cs, conn) + "] " + Strip(data)] else []
  {
    var text := BroadcastText(cs, Strip(data), Some(conn), Chat, ts);
    BroadcastOnce(cs, Some(conn), text, c);
  }

  /** `/exit` does not close the connection: its `False` is dropped, so the
      connection stays open after the acknowledgement. */
  lemma ExitStaysConnected(cs: seq<Entry>, conn: ConnId, data: string, ts: string)
    requires DistinctKeys(cs) && Registered(cs, conn) && data != ""
    requires StartsWith(Strip(data), "/") && CommandName(Strip(data)) == "/exit"
    ensures MessageOutcome(cs, conn, Some(data), ts)
         == Outcome(cs, [(conn, ts + " [SERVER] " + ExitNotice)], true)
  {
    ExitAcknowledges(cs, conn, Strip(data), ts);
  }
}
