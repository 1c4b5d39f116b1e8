# TCP chat server — Dafny model

This project models the core of a small TCP chat server written in Python.
The server keeps a registry of connected clients: each connection maps to
its remote address and its username. New connections get the default names
`User 1`, `User 2`, …, taken from a counter. Each line a client sends is
either broadcast to everyone else as a chat line or run as a command:
`/help`, `/list`, `/whisper`, `/nick` and `/exit`. Every message on the wire
is a timestamp, a label and the content. These come from `format_message`
in the shared module.

Modules, in dependency order:

- `text.dfy`: `Wrappers.Option`, plus the `Text` module. `Text` holds the
  pieces of Python's string library the server uses: `strip`, `lower`,
  `split(' ', 1)`, `startswith` and integer formatting.
- `common.dfy` (`Common`): the message kinds, the command table and the
  formatter `FormatMessage`, with lemmas naming the text of each case.
- `registry.dfy` (`Registry`): the `clients` dictionary. It is an
  insertion-ordered sequence of entries with distinct keys, together with
  `get_username`, lookup, rename, delete and append.
- `routing.dfy` (`Routing`): `broadcast_message` and `send_private_message`.
  Each is described as the list of sends it performs, in order.
- `dispatch.dfy` (`Dispatch`): `handle_command` and the decision logic of
  `handle_client_message`. The outcome of a handler is the registry it
  leaves, what it sends and the boolean it returns.
- `lifecycle.dfy` (`Lifecycle`): `handle_new_connection`, `remove_client`,
  and the `inputs` list that the select loop watches.
- `server.dfy` (`Server`): the server as a class.
  - The state is `clients`, `user_counter` and `inputs`, as fields that the
    handlers update in place.
  - Each socket send is appended to a ghost `outbox`.
  - Every handler is a method with a loop where the source has one. Each is
    proved to leave exactly the state, and send exactly the texts, that the
    matching function in `Routing`, `Dispatch` or `Lifecycle` states.
  - The class invariant `Valid` holds across every event of one pass of the
    select loop. It says that no connection is registered twice, and that
    `inputs` is the listening socket (while watched) followed by the
    registered connections in registry order.

Several behaviours of the code are modelled as they are written, because
the code is what decides them:

- For a non-empty recipient name, the sender's copy of a whisper reads
  `[PRIVATE FROM <sender>]`, not `[PRIVATE TO <recipient>]`. `format_message` tests the FROM case first,
  and `send_private_message` always passes both parties (`PrivateFound`,
  `FormatPrivateFrom`).
- `/exit` does not close the connection. `handle_client_message` drops the
  `False` that `handle_command` returns and reports the connection as still
  connected (`ExitStaysConnected`).
- Usernames are not unique. A client can `/nick` itself to the next default
  name (`User <n+1>`), and the next connection is then assigned that same
  name (`RenamedHolds`, `ConnectAfterRename`).

## Model

| member | source | states |
|---|---|---|
| Text.Strip | server.py:330 | `str.strip`: the result is no longer than the input and neither starts nor ends with Python whitespace |
| Text.StripStart | server.py:330 | `lstrip`: the result is a suffix of the input, everything cut off is whitespace, and it does not start with whitespace |
| Text.StripEnd | server.py:330 | `rstrip`: the result is a prefix of the input, everything cut off is whitespace, and it does not end with whitespace |
| Text.Lower | server.py:137 | `str.lower` on the command word: same length, each ASCII capital mapped to its small letter, every other character kept |
| Text.SplitOnce | server.py:136 | `split(' ', 1)`: one part, the whole text, exactly when there is no space; otherwise the space-free text before the first space and the text after it, joined again by that space |
| Text.SplitOnceUnique | server.py:136-138 | `split(' ', 1)` of `head + " " + tail`, where `head` has no space, is exactly `[head, tail]` |
| Text.NatToString | server.py:275 | `str(n)` as interpolated into `User {n}`, the `host:port` text and the `/list` and welcome counts: at least one character, decimal digits only, a single digit exactly below ten; `NatToStringValue` states that the digits denote `n` without a leading zero, and `NatToStringInjective` that they determine it |
| Text.NatToStringValue | server.py:275 | read left to right, the digits of `str(n)` denote `n`, and a number of two or more digits does not start with `0` |
| Text.NatToStringInjective | server.py:275 | the decimal digits of a counter value determine the value |
| Common.TypeTagInjective | common.py:17-24 | the six message-kind tags are pairwise distinct, so comparing tags compares kinds |
| Common.FormatMessage | common.py:39-69 | the formatter, with the eight cases tested in the source's order and Python truthiness for sender and recipient; the text of each case is stated by the `Format…` lemmas below |
| Common.FormatFrames | common.py:52-69 | every formatted message starts with the timestamp, ends with the content, and has a non-empty label or separator between them |
| Common.FormatChat | common.py:54-55 | a chat message with a non-empty sender reads `ts [sender] content` |
| Common.FormatPrivateFrom | common.py:56-57 | a private message naming both parties reads `ts [PRIVATE FROM sender] content`, whatever recipient it names |
| Common.FormatPrivateTo | common.py:56-59 | the `PRIVATE TO` form is produced exactly when the recipient is missing or empty |
| Common.FormatLabelled | common.py:60-67 | server notices, command results and user events carry `[SERVER]`; errors carry `[ERROR]`; the parties play no part |
| Common.FormatPlain | common.py:54-69 | a chat or private message with no sender falls through to `ts content` |
| Common.FormatContentInjective | common.py:52-69 | with the kind and parties fixed, the formatted text determines the content |
| Registry.AddressText | server.py:38 | `f"{host}:{port}"`, also used for the leave notice at server.py:361: the result is the host, then `:`, then exactly `str(port)` |
| Registry.GetUsername | server.py:32-38 | the result is never empty: the username when it is non-empty, otherwise `host:port`; the connection must be registered |
| Registry.Find | server.py:34 | a position is found exactly when the connection is registered, and that position holds it |
| Registry.FirstWithName | server.py:82-86 | the first position whose username equals the name; none exactly when no entry holds the name |
| Registry.SetUsername | server.py:231-232 | same keys and order; only the renamed entry's username changes, and its address is kept |
| Registry.Delete | server.py:364 | `del clients[conn]`: an unregistered connection leaves the registry as it is; a registered one is cut out at its position, the other entries keeping their order |
| Registry.DeleteRemovesKey | server.py:359-364 | deleting a connection unregisters it, keeps every other key, and keeps keys distinct |
| Registry.AppendFresh | server.py:279 | adding a fresh connection keeps keys distinct and registers exactly it in addition |
| Registry.NonEmptyNames | server.py:173 | the collected names are exactly the registered non-empty usernames |
| Routing.Broadcast | server.py:40-65 | `broadcast_message` as the list of sends it performs: the text `BroadcastText` formats, to each key but the sender; its properties are stated by the `Broadcast…` lemmas below |
| Routing.BroadcastSends | server.py:56-60 | every send of a broadcast carries the formatted text, and none goes to the excluded connection |
| Routing.BroadcastTargets | server.py:56-60 | a broadcast writes to the registry's keys in insertion order, skipping only the sender |
| Routing.BroadcastToAll | server.py:56-60 | with no sender, a broadcast reaches every key in order |
| Routing.BroadcastOnce | server.py:49-65 | each registered connection other than the sender receives exactly one copy; the sender and unregistered connections receive nothing |
| Routing.BroadcastText | server.py:49-53 | only a chat message with a sender is labelled with the sender's `get_username`; every other kind uses the unnamed format |
| Routing.PrivateMessage | server.py:67-120 | `send_private_message` as its sends and its result: to the first holder of the name and back to the sender, or one `not found` ERROR; stated by the `Private…` lemmas below |
| Routing.PrivateReports | server.py:67-120 | the call reports success exactly when some entry holds the name; it sends twice then and once otherwise, and the last send goes to the sender |
| Routing.PrivateFound | server.py:79-109 | the first holder of the name, then the sender, receive the same text; it reads FROM the sender when the name is non-empty, and `[PRIVATE TO <name>]`, with the empty name, when it is empty |
| Routing.PrivateNotFound | server.py:113-120 | for an unknown name there is one `[ERROR] User '<name>' not found.` to the sender, and the call reports failure |
| Dispatch.HelpText | server.py:144-146 | the `/help` body: the header, then one line per entry of the command table; `CommandLineAt` states where each line sits |
| Dispatch.CommandLineAt | server.py:145-146 | entry `k` of the command table gets its line `  <command> - <description>`, right after the lines of the entries before it |
| Dispatch.ListText | server.py:151-154 | the `/list` body: the count of all entries, including those with an empty name, then the bullets `UserLinesAreNonEmptyNames` states |
| Dispatch.UserLines | server.py:152-154 | the `/list` loop: one `  - <name>` line per entry with a non-empty username; `UserLinesAreNonEmptyNames` states that these are the bullets of exactly the non-empty names in registry order |
| Dispatch.UserLinesAreNonEmptyNames | server.py:151-154 | the `/list` body lists exactly the non-empty usernames, in registry order |
| Dispatch.SortByLength | server.py:176 | the sorted names are longest first |
| Dispatch.SortPermutes | server.py:176 | sorting is a permutation of the collected names |
| Dispatch.InsertPermutes | server.py:176 | one insertion step adds exactly one copy of the inserted name |
| Dispatch.InsertKeepsSorted | server.py:176 | one insertion step keeps the list longest first |
| Dispatch.SortedSameNames | server.py:173-176 | the sorted names are exactly the collected names |
| Dispatch.FirstMatch | server.py:179-183 | a match is a listed name that starts the arguments followed by a space; there is no match exactly when no listed name does |
| Dispatch.FirstMatchLongest | server.py:175-183 | in a longest-first list, the first match is at least as long as any matching name |
| Dispatch.FirstMatchOrderIrrelevant | server.py:175-183 | any two longest-first orderings of the same names choose the same recipient, so the sort's tie-breaking does not matter |
| Dispatch.WhisperSplit | server.py:167-189 | the recipient and body `/whisper` extracts: the first match in the longest-first list of registered non-empty names, else `split(' ', 1)`; stated by the `Whisper…` lemmas below |
| Dispatch.WhisperSplitJoins | server.py:178-189 | whichever way the split goes, the arguments are recipient, one space, body |
| Dispatch.WhisperPrefersLongest | server.py:167-183 | when a registered non-empty name starts the arguments, the recipient is a registered name at least that long that also starts them, and the body is what follows it |
| Dispatch.WhisperFallback | server.py:185-189 | when no registered name starts the arguments, the split falls back to the first space |
| Dispatch.WhisperOutcome | server.py:157-199 | `/whisper` never changes the registry and returns True |
| Dispatch.WhisperUsageError | server.py:160-199 | arguments without a space, or with an empty body after the split, get one usage ERROR and nothing else |
| Dispatch.WhisperDelivers | server.py:191-193 | with a non-empty body and the split's recipient held first at position `i`, the two sends are the same text to that entry and then to the requester: `ts [PRIVATE FROM <requester's get_username>] body` for a non-empty recipient, `ts [PRIVATE TO <recipient>] body`, with the empty recipient, for an empty one |
| Dispatch.WhisperNobody | server.py:191-193 | with a non-empty body and a recipient nobody holds, the only send is `ts [ERROR] User '<recipient>' not found.` to the requester |
| Dispatch.NickOutcome | server.py:210-244 | `/nick` keeps the keys, keeps them distinct and returns True |
| Dispatch.NickRejected | server.py:212-228 | an empty argument, or a stripped name that any entry holds (the requester's own included), gets exactly one ERROR and leaves the registry |
| Dispatch.NickSucceeds | server.py:230-244 | the sends of a rename are the `[SERVER]` confirmation, then the notice broadcast over the renamed registry without the requester |
| Dispatch.NickNotice | server.py:241-244 | the rename notice: `User '<old>' is now known as '<new>'.` when the old username is non-empty, else `User <get_username> is now known as '<new>'.`; `NickRenames` states that every other connection receives it once |
| Dispatch.NickRenames | server.py:219-244 | a rename changes only the requester's username, keeps its address and position, confirms to the requester once, and tells every other connection once, quoting the old name or showing `get_username` when it was empty |
| Dispatch.CommandOutcome | server.py:122-253 | the result is True exactly for a `/` command other than `/exit`; only `/nick` can change the registry; the keys never change |
| Dispatch.NotACommand | server.py:133-134 | text not starting with `/` sends nothing and returns False |
| Dispatch.CommandName | server.py:136-137 | `parts[0].lower()`: the text before the first space, lower-cased; `CommandNameIgnoresCase` and `LowerIdempotent` state that any capitalisation of a command word dispatches as the word itself |
| Dispatch.CommandArgs | server.py:136-138 | `parts[1] if len(parts) > 1 else ""`: empty when there is no space; otherwise the command word, one space and the result rejoin to the command |
| Dispatch.CommandNameIgnoresCase | server.py:136-138 | the command word is matched lower-cased, with or without arguments, and the arguments are the text after the first space |
| Dispatch.LowerIdempotent | server.py:137 | lower-casing twice is lower-casing once |
| Dispatch.ExitAcknowledges | server.py:201-208 | `/exit` sends one `[SERVER] Disconnecting...`, leaves the registry and returns False |
| Dispatch.UnknownCommand | server.py:246-251 | an unrecognised command word gets one ERROR naming the lower-cased word and returns True |
| Dispatch.MessageOutcome | server.py:307-349 | the connection stays open exactly when data arrived and was non-empty; the keys never change |
| Dispatch.ChatReachesOthers | server.py:330-345 | a chat line, stripped and labelled with the sender's display name, reaches every other connection once and the sender not at all |
| Dispatch.ExitStaysConnected | server.py:333-337 | `/exit` received as data is acknowledged, and the connection is reported as still connected |
| Lifecycle.DefaultName | server.py:275 | the default name `User <n>`; `DefaultNamesDistinct` and `ConnectNameIsNew` state what it promises |
| Lifecycle.DefaultNamesDistinct | server.py:274-275 | two counter values give the same default name exactly when they are equal |
| Lifecycle.ConnectNameIsNew | server.py:274-275 | the name given to a new connection differs from every name an earlier counter value gave |
| Lifecycle.ConnectOutcome | server.py:255-303 | the counter goes up by one, and the connection is registered last under the default name for the new counter |
| Lifecycle.ConnectSends | server.py:284-303 | the sends are the welcome and the assigned-name notice to the newcomer, then the join event to everyone else in registry order |
| Lifecycle.ConnectGreets | server.py:284-303 | the newcomer receives the welcome, counting itself, and its name; every earlier connection receives the join event once; nobody else receives anything |
| Lifecycle.ConnectWatched | server.py:411-413 | registering the newcomer keeps keys distinct, registers exactly it in addition, and extends the watch list by its socket |
| Lifecycle.RemoveOutcome | server.py:351-373 | the result is the registry without the connection; an unregistered connection sends nothing |
| Lifecycle.RemoveTellsRemaining | server.py:358-373 | removing a registered connection unregisters exactly it, and tells each remaining connection once under the name `get_username` gave; the leaver hears nothing |
| Lifecycle.RemoveAbsent | server.py:359 | removing an unregistered connection changes nothing and sends nothing |
| Lifecycle.DefaultNameStripped | server.py:219 | a default name has no surrounding whitespace, so `/nick` takes it as written |
| Lifecycle.RenamedHolds | server.py:219-232 | a rename to a free, stripped name gives the requester that username and keeps the keys |
| Lifecycle.ConnectAfterRename | server.py:222-279 | after a client has renamed itself to the next default name, the next connection gets the same name, and both are registered and hold it |
| Lifecycle.Watched | server.py:398-427 | what `inputs` holds: the listening socket while watched, then one socket per registered connection; `WatchedClients` and `WatchedListener` state exactly which sockets are watched, and `WatchAppend`, `WatchRemove` and `WatchDropListener` that `append` and `remove` keep `inputs` equal to it |
| Lifecycle.WatchList | server.py:413-421 | the client part of the watch list holds each registered connection, at its own position |
| Lifecycle.WatchListKeys | server.py:232 | the watch list depends on the keys only, so a rename leaves it unchanged |
| Lifecycle.WatchAppend | server.py:411-413 | appending the new socket after registering it keeps `inputs` in step with the registry |
| Lifecycle.WatchedClients | server.py:409-421 | a client socket is watched exactly when it is registered |
| Lifecycle.WatchedListener | server.py:424-427 | the listening socket is watched exactly while it has not been dropped |
| Lifecycle.WatchRemove | server.py:419-421 | `inputs.remove` of a registered socket, together with its deletion from the registry, keeps `inputs` in step with the registry |
| Lifecycle.WatchDropListener | server.py:424-427 | dropping the listening socket leaves only the client sockets watched |
| Lifecycle.RemoveFirst | server.py:421 | `list.remove` removes one element; `WatchRemoveAt` states which: the first occurrence |
| Lifecycle.WatchRemoveAt | server.py:421 | when `x` first occurs at position `i`, `list.remove(x)` cuts out exactly position `i` |
| Server.FindWhisperRecipient | server.py:179-183 | the loop finds the same recipient as `FirstMatch` |
| Server.FindRecipient | server.py:82-86 | the loop returns the position of the first entry holding the name, or none |
| Server.DescribeCommands | server.py:145-146 | the loop builds one `  <command> - <description>` line per table entry, in table order |
| Server.ChatServer.Valid | server.py:398-427 | the class invariant: no connection is registered twice, and `inputs` is `[server_socket]` while the listener is watched, followed by one socket per registered connection in registry order; every event method keeps it |
| Server.ChatServer.constructor | server.py:398 | `inputs = [server_socket]`: only the listening socket is watched, with `clients = {}` and `user_counter = 0` as at server.py:27-30, and an empty outbox |
| Server.ChatServer.BroadcastMessage | server.py:40-65 | the loop sends exactly `Broadcast`: the formatted text to every registered connection but the sender, in registry order |
| Server.ChatServer.SendPrivateMessage | server.py:67-120 | sends exactly what `PrivateMessage` lists and returns its success flag |
| Server.ChatServer.HelpReply | server.py:142-147 | the `/help` text is the header followed by the command lines |
| Server.ChatServer.ListReply | server.py:149-155 | the `/list` text is the count of all entries, then one line per non-empty username |
| Server.ChatServer.CollectNames | server.py:173 | the loop collects exactly the non-empty usernames in registry order |
| Server.ChatServer.HandleWhisper | server.py:157-199 | sends exactly what `WhisperOutcome` lists |
| Server.ChatServer.IsTaken | server.py:221-228 | the result is true exactly when some entry, the requester included, holds the name |
| Server.ChatServer.Rename | server.py:230-244 | stores the name, then sends the confirmation and the broadcast to the others |
| Server.ChatServer.HandleNick | server.py:210-244 | leaves exactly the registry that `NickOutcome` gives, and sends exactly its texts |
| Server.ChatServer.HandleCommand | server.py:122-253 | leaves the registry, sends the texts and returns the result that `CommandOutcome` gives |
| Server.ChatServer.HandleNewConnection | server.py:255-305 | leaves the registry and counter, and sends the texts, that `ConnectOutcome` gives |
| Server.ChatServer.HandleClientMessage | server.py:307-349 | leaves the registry, sends the texts and returns the flag that `MessageOutcome` gives; the keys are unchanged |
| Server.ChatServer.RemoveClient | server.py:351-373 | leaves the registry and sends the texts that `RemoveOutcome` gives; only the removed connection changes its registration |
| Server.ChatServer.OnAccept | server.py:409-413 | handles the new connection, appends its socket to `inputs`, and keeps `Valid` |
| Server.ChatServer.Disconnect | server.py:419-421 | removes the client, removes its socket from `inputs`, and keeps `Valid` |
| Server.ChatServer.OnReceive | server.py:415-421 | handles the data; when the connection is over, also removes it from the registry and from `inputs`; keeps `Valid` |
| Server.ChatServer.OnError | server.py:424-428 | drops the socket from `inputs` when it is there and removes any client it was; the listening socket leaves the registry alone; keeps `Valid` |
| Server.ChatServer.OnReady | server.py:407-421 | an accept leaves the `ConnectOutcome` registry, counter and sends and appends the new socket to `inputs`; a receive leaves the `MessageOutcome` state, followed by `RemoveOutcome` and the removal from `inputs` when the connection is over; only the event's own connection changes registration; keeps `Valid` |
| Server.ChatServer.ServeRound | server.py:400-428 | one pass over the readable and the exceptional sockets keeps `Valid` |

## Left out

- Sockets, `select`, `accept`, `recv`, `close`, `setblocking`, `bind` and
  `listen` are not modelled as I/O. An accepted connection and what `recv` and
  `decode` produced arrive as parameters. A read that raised is `None`.
- UTF-8 encoding and decoding and `BUFFER_SIZE` are left out: messages are
  modelled as already-decoded strings, so a message split across reads is
  not modelled.
- Logging is left out: it has no effect on the state or on what is sent.
- `get_timestamp` reads the clock. The model takes one timestamp `ts` per
  handler call as a parameter. The source reads the clock once per
  formatted message, so two messages of one handler could differ in
  timestamp.
- Failed sends are not modelled. Nothing ever raises: the swallowed
  exception in `broadcast_message`, the `False` returned after a failed
  private send, and an exception inside `handle_command` caught by
  `handle_client_message` are all left out.
- Text.Strip: its own contract states only that the result is no longer
  than the input and has no surrounding whitespace. What is cut off is
  stated by the contracts of `StripStart` and `StripEnd`, which it applies
  in turn.
- `Text.Lower` lower-cases ASCII letters only. Python's `str.lower` also
  maps non-ASCII letters.
- Dispatch.SortByLength: Python's sort is modelled as an insertion sort.
  Its contract states that the result is longest first and, in
  `SortPermutes`, a permutation of its input. It does not state Python's
  stability guarantee for names of equal length.
  `FirstMatchOrderIrrelevant` proves that the chosen recipient does not
  depend on the order of equal-length names.
- Server.ChatServer.ServeRound models one pass of the `while inputs` loop.
  Repeating it forever, and the `KeyboardInterrupt` exit, are left out.
  Its own contract states only that the invariant is kept. What each event
  does is stated by `OnReady` (which states the `OnAccept` and `OnReceive`
  effects) and `OnError`.
- Server.ChatServer.ServeRound and OnAccept require that an accepted
  connection is not already registered. The operating system guarantees
  this for a fresh socket, and the model has no allocator to show it.
- `main`'s socket setup, its `finally` block that closes every client
  socket, and the outer exception handler are left out.
- `send_message` in common.py and the whole client program (client.py) are
  outside the server core and are not part of this model. So are `HOST`,
  `PORT` and `BUFFER_SIZE`.
