# P2P chat endpoint: connection registry and command layer

This project models, in Dafny, the core of a small peer-to-peer chat
endpoint. That core is the fixed table of `MAX_CONNECTIONS` (50) peer
connections (connection.c), together with the logic around it:

- the operator's commands that change the table (command.c);
- the address and port validators and the send/receive length bounds (socket.c);
- the in-place string helpers used on command lines (signal.c).

Each registry call holds `connections_mutex` for its whole bookkeeping
body, so it is modelled as one atomic method.

- **Registry.** `Connections.Registry` is a class. It holds the slot array
  (`array<Connection>`) and `next_connection_id`. Each of its methods is
  proved against a pure function on the value `ConnectionTable.Table`: `Add`,
  `Remove`, `CloseAll`, `IndexById`, `IndexByAddress`, `ActiveCount` and
  `Listing`. The registry's invariant `Inv` says:
  - the table has 50 slots;
  - every ip fits its 16-byte field;
  - the ids of active slots are distinct and lie in `1 .. next_connection_id - 1`.

  Lemmas show that `Inv` holds initially and is preserved by every
  operation. Further lemmas prove the properties callers rely on: the
  lowest free slot is used, ids are never reused, removal is idempotent,
  the listing is in slot order, and after close-all nothing is active.
- **Receiver and acceptor.** The loops of the receiver and accept threads
  are modelled as one-round step methods, `ReceiverStep` and `AcceptStep`.
  The outcome of `recv`/`accept` is a parameter, and each step returns
  whether the loop goes on.
- **Commands.** `connect`, `terminate` and `send` are guard chains, given as
  the functions `Commands.Connect`, `Commands.Terminate` and `Commands.Send`.
  The methods `CmdConnect`, `CmdTerminate` and `CmdSend` perform them on the
  registry and are proved against those functions.
- **Line parsing.** `process_command` trims the line in its buffer, splits it
  the way its `sscanf` call does (`ScanCommand`): a command word, a first
  argument and the rest of the line, with the number of fields filled. It reads numbers
  as `atoi` does (`Atoi`), and dispatches on the exact command name
  (`Classify`, `Execute`).
- **String helpers.** `trim_string`, `str_to_lower`, `str_to_upper` and
  `is_empty_string` work on NUL-terminated `array<char>` buffers, with
  `null` standing for a NULL pointer. Each is proved against a function on
  the text before the first NUL (`Trim`, `Lower`, `Upper`, `AllSpace`), using
  the C-locale character classes.
- **Validators.** `is_valid_ip` is the dotted-quad grammar of `inet_pton`
  for AF_INET in POSIX.1-2017: four decimal numbers of one to three digits,
  each at most 255. The address text written for an accepted peer
  (`inet_ntop`) is `FormatIp`, and it is proved to parse back to the same
  four octets.

The environment is made of parameters (`Commands.Env`, `Net.Incoming`,
`Connections.AcceptOutcome`). It covers:
- the local address and listening port;
- whether dialing a peer, starting a receiver thread and sending succeed;
- what `recv` and `accept` deliver.

Sockets and threads are abstract integer handles. Every socket an
operation closes is returned to the caller. When the socket was in the
table, it comes back as a `Release` value, which also records whether
`shutdown` was called first. This is the case for:
- the registry's removals;
- `terminate` and a failed `send`;
- the receiver's removal of its own link;
- `exit`.

When `connect` or the accept loop closes a socket that never entered the
table, the bare handle is returned.

Characters are Dafny `char`s. The C code works on bytes, so the model is
meant for texts whose characters are all below 256. The character classes
(`isspace`, `tolower`, `toupper`) change nothing outside ASCII, so this
restriction changes no result.

## Model

| member | source | states |
|---|---|---|
| CType.ToLower | signal.c:99-104 | C-locale `tolower`: a character changes exactly when it is an upper-case letter, and then becomes the matching lower-case letter; nothing upper-case is left |
| CType.ToUpper | signal.c:107-112 | C-locale `toupper`: a character changes exactly when it is a lower-case letter, and then becomes the matching upper-case letter |
| CType.CaseRoundTrip | signal.c:99-112 | lowering an upper-case letter and raising it again gives it back, and vice versa |
| Strings.RightLen | signal.c:80-84 | the trailing-whitespace loop stops at the end of the last non-space character; everything after it is whitespace |
| Strings.LeadingSpaces | signal.c:86-90 | the leading-whitespace loop stops at the first non-space character or the end |
| Strings.Trim | signal.c:77-96 | definition: the text with trailing whitespace cut first, then leading whitespace; `TrimExact`, `TrimShape`, `TrimIdempotent` and `TrimEmptyIffBlank` state what it means |
| Strings.TrimExact | signal.c:77-96 | trimming whitespace-prefix + text + whitespace-suffix, where the text neither starts nor ends with whitespace, gives exactly that text |
| Strings.TrimShape | signal.c:77-96 | the trimmed text has no leading or trailing whitespace, and is a contiguous slice of the input with only whitespace removed on either side |
| Strings.TrimIdempotent | signal.c:77-96 | trimming twice is the same as trimming once |
| Strings.TrimEmptyIffBlank | signal.c:77-96 | the trimmed text is empty exactly when the input is all whitespace |
| Strings.TrimString | signal.c:77-96 | on NULL nothing happens; otherwise the buffer starts with the trimmed text and a NUL; behind them the positions of the trailing whitespace hold NULs and every other byte is as it was |
| Strings.TrimmedText | signal.c:93-95 | after `trim_string` the C string in the buffer is exactly the trimmed input text |
| Strings.Lower | signal.c:99-104 | lowering a text keeps its length |
| Strings.Upper | signal.c:107-112 | raising a text keeps its length |
| Strings.LowerAt | signal.c:101-103 | every character of the lowered text is `tolower` of the input character at that position |
| Strings.UpperAt | signal.c:109-111 | every character of the raised text is `toupper` of the input character at that position |
| Strings.LowerIdempotent | signal.c:99-104 | lowering twice is lowering once |
| Strings.UpperIdempotent | signal.c:107-112 | raising twice is raising once |
| Strings.StrToLower | signal.c:99-104 | on NULL nothing happens; otherwise the text before the NUL is replaced by its lowered form and the NUL and everything after it are unchanged |
| Strings.StrToUpper | signal.c:107-112 | on NULL nothing happens; otherwise the text before the NUL is replaced by its raised form and the rest is unchanged |
| Strings.IsEmptyString | signal.c:115-122 | returns 0 or 1, and 1 exactly when the pointer is NULL or every character before the NUL is whitespace |
| Net.IsValidPort | socket.c:80-82 | definition: a port is valid when it is greater than 0 and at most 65535; its boundaries are proved in `PortBoundaries` |
| Net.PortBoundaries | socket.c:80-82 | a port is valid exactly when it lies in 1..65535, so 0 and 65536 are rejected and 1 and 65535 accepted |
| Net.IsValidIp | socket.c:73-77 | definition: exactly four fields separated by dots, each one to three decimal digits with a value of at most 255; `ParseIp`, `ValidIpFits` and `FormatIpRoundTrip` state its properties |
| Net.ParseIp | socket.c:73-77 | the text parses to four octets exactly when it is a valid IPv4 literal, and every octet is at most 255 |
| Net.ValidIpFits | socket.c:73-77 | every text accepted as an IPv4 literal has at most 15 characters, so it fits the 16-byte `ip` field it is copied into |
| Net.FormatIpRoundTrip | connection.c:204-206 | the text `inet_ntop` writes for four octets is a valid literal, parses back to the same octets and fits `INET_ADDRSTRLEN` |
| Net.LoopbackIsValid | socket.c:73-77 | "127.0.0.1" is accepted |
| Net.OctetTooLargeIsInvalid | socket.c:73-77 | an octet of 256 is rejected |
| Net.WrongFieldCountIsInvalid | socket.c:73-77 | three or five dotted fields are rejected |
| Net.ReceiveMessage | socket.c:169-171 | at most `buffer_size - 1` bytes are requested, so the result is between -1 and `buffer_size - 1`; received data is copied to the buffer front, and an orderly close returns 0 and an error -1 with the buffer untouched |
| Net.SendMessage | socket.c:164-166 | takes a NUL-terminated buffer; a successful send transmits exactly the text before the first NUL, `strlen` bytes, with no terminator, delimiter or length prefix, and reports that count; a failure returns -1 and transmits nothing |
| ConnectionTable.Add | connection.c:17-56 | definition of `add_connection`: with no free slot, the table and counter are unchanged and the result is -1; otherwise the lowest free slot gets the counter as id, the socket, ip and port, and stays active only if the thread starts; the counter moves on either way; properties in `AddPreservesInv`, `AddedIsFound`, `ThreadFailureConsumesId` |
| ConnectionTable.Remove | connection.c:59-87 | definition of the slot change made by `remove_connection` and `close_connection`: the lowest active slot with the id becomes inactive, nothing else changes; properties in `RemoveForgetsId`, `RemovePreservesInv` |
| ConnectionTable.CloseAll | connection.c:90-102 | definition of `close_all_connections`: every slot becomes inactive and the counter is kept; properties in `CloseAllEmpties` |
| ConnectionTable.Listing | connection.c:167-185 | definition of what `print_connection_list` shows: id, ip and port of the active slots in slot order; properties in `ListingInSlotOrder` |
| ConnectionTable.InitialInv | connection.c:12-14 | the zeroed table with the counter at 1 satisfies the registry invariant |
| ConnectionTable.FirstWhere | connection.c:105-134 | the slot scan returns the lowest index whose slot matches, and -1 exactly when no slot matches |
| ConnectionTable.ActiveSlots | connection.c:172-178 | the active slot indices, strictly ascending, covering every active slot |
| ConnectionTable.ListingInSlotOrder | connection.c:167-185 | the listing has one entry per active slot, in ascending slot order, each showing that slot's id, ip and port |
| ConnectionTable.FullIffNoFreeSlot | connection.c:20-33 | `add_connection` finds no free slot exactly when all slots are active |
| ConnectionTable.AddPreservesInv | connection.c:17-56 | adding, whether it succeeds, fails for lack of a slot or fails at thread creation, keeps the invariant |
| ConnectionTable.AddedIsFound | connection.c:20-39 | a successful add returns the counter's old value, uses the lowest free slot, stores the socket, ip and port there, makes it findable by its id and raises the active count by one |
| ConnectionTable.ThreadFailureConsumesId | connection.c:45-52 | when the receiver thread cannot be started, -1 is returned and the listing is unchanged, but the counter has still moved on |
| ConnectionTable.AddAdmitsDuplicateEndpoint | connection.c:17-56 | `add_connection` itself does not refuse an ip:port that is already connected; two active slots can then share it |
| ConnectionTable.OwnIdFindsSlot | connection.c:122-134 | under the invariant, looking up an active slot's id finds that very slot |
| ConnectionTable.RemovePreservesInv | connection.c:59-71 | removing an id keeps the invariant |
| ConnectionTable.RemoveForgetsId | connection.c:59-87 | after removal the id is found nowhere, every other slot is unchanged, a second removal changes nothing and closes nothing |
| ConnectionTable.CloseAllEmpties | connection.c:90-102 | after closing everything the invariant holds, no slot is active, the count is 0, no id is found and the listing is empty |
| ConnectionTable.IdsNeverReused | connection.c:35 | over any sequence of adds, removals and close-alls, the ids handed out are strictly increasing, at least the counter at the start and below the counter at the end |
| ConnectionTable.SlotReuseScenario | connection.c:20-39 | from start-up, two adds get ids 1 and 2; after id 1 is removed the next add gets id 3 in slot 0, id 1 is gone, and the listing shows id 3 before id 2 |
| Connections.Registry.constructor | connection.c:12-14 | a fresh registry is the zeroed table with the counter at 1 |
| Connections.Registry.InitConnections | connection.c:12-14 | zeroes every slot and leaves the counter alone |
| Connections.Registry.AddConnection | connection.c:17-56 | the new table and returned id are those of `Add`: lowest free slot, id from the counter, counter incremented, slot freed again and -1 returned if the thread cannot start, -1 and nothing changed when full |
| Connections.Registry.RemoveConnection | connection.c:59-71 | frees the active slot carrying the id and closes its socket without shutdown; an unknown id changes nothing |
| Connections.Registry.CloseConnection | connection.c:74-87 | as removal, but the socket is shut down before it is closed |
| Connections.Registry.CloseAllConnections | connection.c:90-102 | frees every active slot and shuts down and closes each of their sockets in slot order |
| Connections.Registry.FindConnectionByAddress | connection.c:105-119 | returns the lowest active slot with that ip and port, or -1 |
| Connections.Registry.FindConnectionById | connection.c:122-134 | returns the lowest active slot with that id, or -1 |
| Connections.Registry.GetConnectionById | connection.c:137-149 | returns the active slot carrying the id, or nothing exactly when no active slot carries it |
| Connections.Registry.GetActiveConnectionCount | connection.c:152-164 | returns the number of active slots, between 0 and 50 |
| Connections.Registry.ConnectionList | connection.c:167-185 | returns the id, ip and port of every active slot in slot order |
| Connections.Registry.ReceiverStep | connection.c:230-268 | shutdown or a freed slot stops the loop with nothing removed or closed; data is NUL-terminated within the buffer and reported up to its first NUL, as printed, with the table unchanged; an orderly close or an error other than EAGAIN/EWOULDBLOCK removes the slot's own id, closes its socket without shutdown, and stops; a retry continues with nothing changed |
| Connections.Registry.AcceptStep | connection.c:194-217 | a failed accept goes round again with nothing changed; an accepted peer is added under its `inet_ntop` text and port without any duplicate check, and its socket is closed when the add fails |
| Commands.Connect | command.c:34-73 | definition of `cmd_connect`: the checks in source order (ip, port, own endpoint, existing ip:port), then the dial, then the add; properties in `ConnectRefusals`, `ConnectedIsOnlyLinkToEndpoint` |
| Commands.Terminate | command.c:81-89 | definition of `cmd_terminate`: an unknown id changes nothing; a known id is removed and its socket shut down and closed; properties in `TerminateForgetsId` |
| Commands.Send | command.c:92-111 | definition of `cmd_send`: length check, then lookup, then send of the NUL-terminated message, then removal without shutdown on failure; properties in `SendGuards` |
| Commands.ConnectRefusals | command.c:34-64 | an invalid ip, an invalid port, the own endpoint and an existing ip:port are reported exactly when that check is the first to fail; these and a failed dial leave the table unchanged |
| Commands.ConnectedIsOnlyLinkToEndpoint | command.c:53-69 | a connection that `connect` makes is to a valid address other than the own one; no active slot had that ip:port before, and afterwards exactly one active slot has it, the one its id finds |
| Commands.TerminateForgetsId | command.c:81-89 | an unknown id is reported not found and nothing changes; a known id's socket is shut down and then closed; afterwards the id is unknown to every lookup, a repeat reports not found, and the invariant holds |
| Commands.SendGuards | command.c:92-111 | a message is refused as too long exactly when it has more than 100 characters (so 100 passes); an unknown id sends nothing; a successful send puts exactly the message text on the socket of the slot with that id and changes nothing; a failed send closes that slot's socket without shutdown and removes the id |
| Commands.ScanCommand | command.c:152 | the count is -1 exactly for an all-whitespace line, otherwise 1, 2 or 3; each filled word has no whitespace and each unfilled field is empty; the rest-of-line field starts with a non-space and holds no newline; a line without NUL gives fields without NUL |
| Commands.ScanThreeFields | command.c:152 | word, space, word, space, rest-of-line splits back into exactly those three fields, with count 3 |
| Commands.ScanTwoFields | command.c:152 | word, space, word splits into two fields, with count 2 |
| Commands.ScanOneField | command.c:152 | a single word splits into one field, with count 1 |
| Commands.Atoi | command.c:162-178 | definition of `atoi`: leading whitespace, an optional sign, then the leading decimal digits; `AtoiDigits` is its round trip |
| Commands.AtoiDigits | command.c:162 | `atoi` reads back a number written in decimal, whatever non-digit text follows it |
| Commands.Classify | command.c:154-188 | definition of the dispatch: exact command names; connect and send need three fields and terminate two, otherwise the usage line; any other name is unknown |
| Commands.BlankLineIgnored | command.c:136-140 | a line that is all whitespace asks for nothing |
| Commands.ParseConnect | command.c:160-166 | "connect IP PORT" asks to connect to IP at PORT |
| Commands.ParseTerminate | command.c:169-175 | "terminate ID" asks to terminate ID |
| Commands.ParseSend | command.c:176-182 | "send ID MESSAGE" asks to send exactly MESSAGE, including its inner spaces, to ID |
| Commands.ConnectUsage | command.c:160-166 | "connect" with one argument only prints the usage line |
| Commands.SendUsage | command.c:176-182 | "send" with one argument only prints the usage line |
| Commands.TerminateUsage | command.c:169-175 | "terminate" with no argument only prints the usage line |
| Commands.NamesAreCaseSensitive | command.c:154-188 | "CONNECT IP PORT" is an unknown command, not a connect |
| Commands.ExecuteKeepsInv | command.c:154-188 | every command keeps the registry invariant, and only connect, terminate, send and exit can change the table |
| Commands.CmdConnect | command.c:34-73 | performs `Connect` on the registry: the checks in order, then the dial, then the add, closing the dialed socket if the add fails |
| Commands.CmdTerminate | command.c:81-89 | performs `Terminate`: look the id up, then `close_connection` it; returns the socket it shut down and closed, or nothing for an unknown id |
| Commands.CmdSend | command.c:92-111 | performs `Send`: length check, lookup, send, and `remove_connection` on failure; a failed send returns the socket it closed |
| Commands.CmdExit | command.c:114-132 | clears `running` and closes every connection, returning the sockets shut down and closed |
| Commands.ProcessCommand | command.c:135-189 | trims the buffer in place, then does to the table and reports what `Execute` gives for the request the trimmed line parses to |
| Commands.Dispatch | command.c:154-188 | the if-else chain: exact names; connect and send need three fields and terminate two, otherwise the usage line; anything else is unknown |

## Left out

- Threads and the mutex. Each registry call is one atomic step, so these races are not modelled:
  - the gap between `find_connection_by_address` and `add_connection` in `connect`;
  - a receiver thread still running on a slot that has been freed and reused;
  - `cmd_send` using the connection pointer after the lock is released.
- Real sockets. `accept`, `connect`, `send`, `recv`, `shutdown`, `close`, `bind`, `listen` and `setsockopt` are replaced by abstract handles, parameters for their outcomes and `Release` records for closes.
- `get_local_ip`, WSA start-up and clean-up, `main`'s input loop, `sleep` and `exit`. The local address and listening port are parameters.
- Console output: `printf` text, banners, prompts, colours, `clear_screen`, the terminal title and `kbhit`. Replies are data values instead of printed text.
- Signal handling and the clock in signal.c.
- Net.ParseIp: leading zeros are accepted ("01.2.3.4"), as POSIX inet_pton's grammar allows. glibc's inet_pton rejects them, so this accepts some texts the running program would refuse.
- Net.ReceiveMessage: `recv` is modelled as returning all pending data up to the request size. A shorter read is not modelled.
- Net.SendMessage: partial sends are not modelled. A send either transmits the whole message or fails.
- Commands.Atoi: overflow of `int` is not modelled. Numbers are unbounded.
- ConnectionTable.IdsNeverReused: `next_connection_id` is a C `int`. Incrementing it past INT_MAX is undefined behaviour, and the model does not capture that. Its counter is an unbounded integer, so the no-reuse property holds only for runs that hand out fewer than INT_MAX ids.
- Command-line buffers are unbounded sequences rather than 256-byte arrays. `fgets` already limits a line to 255 characters, so the fields of the scan always fit.
- Commands.CmdExit: closing the listening socket is not modelled, and neither is the process exit that follows.
- Text comparisons (`strcmp`) are modelled as equality of the texts before the NUL.
