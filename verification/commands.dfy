/**
 * The operator's commands (command.c): the guard chains of connect,
 * terminate and send over the registry, the sscanf-based splitting of a
 * command line, and the dispatch of process_command. Each command has a
 * function on ConnectionTable.Table saying what it does, and a method that
 * does it on the Registry and is proved against that function.
 */
module Commands {
  import opened Common
  import opened CType
  import opened Strings
  import opened Decimal
  import opened Net
  import opened ConnectionTable
  import opened Connections

  /**
   * What the world outside the registry contributes to a command: the
   * endpoint this process listens on (local_ip, listen_port), the result of
   * dialing a peer, whether a receiver thread starts, and whether send()
   * succeeds.
   */
  datatype Env = Env(localIp: string, listenPort: int, dial: Option<Handle>, threadOk: bool, thread: ThreadId, sendOk: bool)

  // ---------------------------------------------------------------- connect

  datatype ConnectOutcome =
    | InvalidIp
    | InvalidPort
    | SelfConnect
    | AlreadyConnected
    | DialFailed
    | AddFailed(closed: Handle)
    | Connected(id: int)

  /** The checks cmd_connect makes before dialing, in its order; None when all pass. */
  function ConnectCheck(t: Table, env: Env, ip: string, port: int): Option<ConnectOutcome> {
    if !IsValidIp(ip) then Some(InvalidIp)
    else if !IsValidPort(port) then Some(InvalidPort)
    else if ip == env.localIp && port == env.listenPort then Some(SelfConnect)
    else if IndexByAddress(t.slots, ip, port) != -1 then Some(AlreadyConnected)
    else None
  }

  /**
   * cmd_connect: a refused check or a failed dial leaves the table alone;
   * otherwise the new socket is added, and closed again if the add fails.
   */
  function Connect(t: Table, env: Env, ip: string, port: int): (Table, ConnectOutcome) {
    match ConnectCheck(t, env, ip, port)
    case Some(refusal) => (t, refusal)
    case None =>
      match env.dial
      case None => (t, DialFailed)
      case Some(sock) =>
        var (t', id) := Add(t, sock, ip, port, env.thread, env.threadOk);
        (t', if id == -1 then AddFailed(sock) else Connected(id))
  }

  /**
   * Every refusal of cmd_connect, and a failed dial, leaves the table as it
   * was; each refusal is reported exactly when its check is the first to fail.
   */
  lemma ConnectRefusals(t: Table, env: Env, ip: string, port: int)
    ensures var (t', r) := Connect(t, env, ip, port);
      && (r == InvalidIp <==> !IsValidIp(ip))
      && (r == InvalidPort <==> IsValidIp(ip) && !IsValidPort(port))
      && (r == SelfConnect <==> IsValidIp(ip) && IsValidPort(port) && ip == env.localIp && port == env.listenPort)
      && (r == AlreadyConnected <==>
            IsValidIp(ip) && IsValidPort(port) && !(ip == env.localIp && port == env.listenPort) &&
            IndexByAddress(t.slots, ip, port) != -1)
      && (r.InvalidIp? || r.InvalidPort? || r.SelfConnect? || r.AlreadyConnected? || r.DialFailed? ==> t' == t)
  {
  }

  /**
   * An outbound connection that cmd_connect makes is to a valid address
   * other than this process's own, and afterwards it is the only active
   * connection to that ip and port; it is found again by its id.
   */
  lemma ConnectedIsOnlyLinkToEndpoint(t: Table, env: Env, ip: string, port: int)
    requires Inv(t)
    requires Connect(t, env, ip, port).1.Connected?
    ensures var (t', r) := Connect(t, env, ip, port);
      var k := IndexById(t'.slots, r.id);
      && IsValidIp(ip) && IsValidPort(port) && !(ip == env.localIp && port == env.listenPort)
      && IndexByAddress(t.slots, ip, port) == -1
      && k == IndexByAddress(t'.slots, ip, port) && k >= 0
      && (forall i :: 0 <= i < |t'.slots| && t'.slots[i].active && t'.slots[i].ip == ip && t'.slots[i].port == port ==> i == k)
  {
    ValidIpFits(ip);
    AddedIsFound(t, env.dial.value, ip, port, env.thread);
  }

  // -------------------------------------------------------------- terminate

  /**
   * cmd_terminate: an unknown id is reported and nothing changes; a known
   * one is closed with close_connection, which shuts its socket down before
   * closing it.
   */
  function Terminate(t: Table, id: int): (Table, Option<Release>) {
    if IndexById(t.slots, id) == -1 then (t, None) else (Remove(t, id), Removed(t, id, true))
  }

  /**
   * Terminating a known id shuts down and closes exactly that connection's
   * socket; afterwards the id is unknown to every lookup, and a second
   * terminate of the same id reports not-found and changes nothing.
   */
  lemma TerminateForgetsId(t: Table, id: int)
    requires Inv(t)
    ensures var (t', released) := Terminate(t, id);
      var k := IndexById(t.slots, id);
      && Inv(t')
      && (released.Some? <==> k != -1)
      && (released.Some? ==> released.value == Release(t.slots[k].socket, true))
      && (released.None? ==> t' == t)
      && IndexById(t'.slots, id) == -1
      && Terminate(t', id) == (t', None)
  {
    RemovePreservesInv(t, id);
    RemoveForgetsId(t, id);
  }

  // ------------------------------------------------------------------- send

  /** What cmd_send does; a failed send names the socket it closes. */
  datatype SendOutcome = TooLong | NotFound | SendFailed(closed: Release) | Sent(socket: Handle, bytes: string)

  /**
   * cmd_send: a message longer than MAX_MESSAGE_LENGTH is refused before
   * anything else; an unknown id sends nothing; a failed send removes the
   * connection with remove_connection, closing its socket without shutdown.
   * The message goes to send_message as a NUL-terminated buffer.
   */
  function Send(t: Table, id: int, message: string, sendOk: bool): (Table, SendOutcome) {
    if |message| > MAX_MESSAGE_LENGTH then (t, TooLong)
    else
      var k := IndexById(t.slots, id);
      if k == -1 then (t, NotFound)
      else
        var (count, wire) := SendMessage(message + ['\0'], sendOk);
        if count < 0 then (Remove(t, id), SendFailed(Release(t.slots[k].socket, false)))
        else (t, Sent(t.slots[k].socket, wire))
  }

  /**
   * A message is refused as too long exactly when it has more than 100
   * characters; what is sent is exactly the message text, on the socket of
   * the active connection with that id; a refused or unknown send changes
   * nothing, and a failed one closes that connection's socket and leaves the
   * id unknown.
   */
  lemma SendGuards(t: Table, id: int, message: string, sendOk: bool)
    requires Inv(t)
    ensures var (t', r) := Send(t, id, message, sendOk);
      var k := IndexById(t.slots, id);
      && (r == TooLong <==> |message| > MAX_MESSAGE_LENGTH)
      && (r == NotFound <==> |message| <= MAX_MESSAGE_LENGTH && k == -1)
      && (r.TooLong? || r.NotFound? || r.Sent? ==> t' == t)
      && (r.Sent? ==>
            && sendOk && k != -1 && r.socket == t.slots[k].socket
            && r.bytes == CStr(message + ['\0']) && |r.bytes| <= MAX_MESSAGE_LENGTH
            && ('\0' !in message ==> r.bytes == message))
      && (r.SendFailed? ==>
            && !sendOk && k != -1 && Removed(t, id, false) == Some(r.closed)
            && IndexById(t'.slots, id) == -1 && Inv(t'))
  {
    if |message| <= MAX_MESSAGE_LENGTH && IndexById(t.slots, id) != -1 {
      RemoveForgetsId(t, id);
      RemovePreservesInv(t, id);
      if '\0' !in message {
        StrlenAt(message + ['\0'], |message|);
        assert (message + ['\0'])[..|message|] == message;
      }
    }
  }

  // -------------------------------------------------------------- tokenising

  /** The index of the first non-whitespace character at or after i. */
  function SkipSpace(s: string, i: nat): (j: nat)
    requires i <= |s|
    ensures i <= j <= |s| && AllSpace(s[i..j])
    ensures j == |s| || !IsSpace(s[j])
    decreases |s| - i
  {
    if i == |s| || !IsSpace(s[i]) then i else SkipSpace(s, i + 1)
  }

  /** The end of the run of non-whitespace characters starting at i, as %s reads it. */
  function SkipToken(s: string, i: nat): (j: nat)
    requires i <= |s|
    ensures i <= j <= |s| && forall k :: i <= k < j ==> !IsSpace(s[k])
    ensures j == |s| || IsSpace(s[j])
    decreases |s| - i
  {
    if i == |s| || IsSpace(s[i]) then i else SkipToken(s, i + 1)
  }

  /** The end of the run of characters other than newline starting at i, as the last field of the scan reads it. */
  function SkipLine(s: string, i: nat): (j: nat)
    requires i <= |s|
    ensures i <= j <= |s| && '\n' !in s[i..j]
    ensures j == |s| || s[j] == '\n'
    decreases |s| - i
  {
    if i == |s| || s[i] == '\n' then i else SkipLine(s, i + 1)
  }

  /** What the scan of a command line yields: the number of fields converted, then the command word, the first argument and the rest of the line; unfilled fields stay empty. */
  datatype Scan = Scan(count: int, cmd: string, arg1: string, arg2: string)

  /**
   * The scan process_command makes with sscanf: a word, whitespace, a second
   * word, whitespace, then everything up to a newline. Reaching the end of
   * the input stops the scan; with no field converted the count is EOF (-1).
   */
  function ScanCommand(s: string): (r: Scan)
    ensures r.count in {-1, 1, 2, 3}
    ensures r.count == -1 <==> AllSpace(s)
    ensures if r.count >= 1 then IsWord(r.cmd) else r.cmd == []
    ensures if r.count >= 2 then IsWord(r.arg1) else r.arg1 == []
    ensures if r.count == 3 then r.arg2 != [] && !IsSpace(r.arg2[0]) && '\n' !in r.arg2 else r.arg2 == []
    ensures '\0' !in s ==> '\0' !in r.cmd && '\0' !in r.arg1 && '\0' !in r.arg2
  {
    var a := SkipSpace(s, 0);
    if a == |s| then Scan(-1, "", "", "")
    else
      var b := SkipToken(s, a);
      var c := SkipSpace(s, b);
      if c == |s| then Scan(1, s[a..b], "", "")
      else
        var d := SkipToken(s, c);
        var e := SkipSpace(s, d);
        if e == |s| then Scan(2, s[a..b], s[c..d], "")
        else Scan(3, s[a..b], s[c..d], s[e..SkipLine(s, e)])
  }

  predicate IsWord(w: string) {
    w != [] && forall i :: 0 <= i < |w| ==> !IsSpace(w[i])
  }

  /** The end of a word placed at i is found where the word ends. */
  lemma SkipTokenOver(s: string, i: nat, w: string)
    requires IsWord(w) && i + |w| <= |s| && s[i..i + |w|] == w
    requires i + |w| == |s| || IsSpace(s[i + |w|])
    ensures SkipToken(s, i) == i + |w|
    decreases |w|
  {
    assert s[i] == w[0];
    if |w| > 1 {
      assert s[i + 1..i + |w|] == w[1..];
      SkipTokenOver(s, i + 1, w[1..]);
    }
  }

  /** Whitespace is skipped up to the first non-space character. */
  lemma SkipSpaceTo(s: string, i: nat, j: nat)
    requires i <= j < |s| && !IsSpace(s[j])
    requires forall k :: i <= k < j ==> IsSpace(s[k])
    ensures SkipSpace(s, i) == j
    decreases j - i
  {
    if i < j {
      SkipSpaceTo(s, i + 1, j);
    }
  }

  /** With no newline left, the last field of the scan reads to the end of the input. */
  lemma SkipLineToEnd(s: string, i: nat)
    requires i <= |s| && forall k :: i <= k < |s| ==> s[k] != '\n'
    ensures SkipLine(s, i) == |s|
    decreases |s| - i
  {
    if i < |s| {
      SkipLineToEnd(s, i + 1);
    }
  }

  /**
   * Splitting inverts joining with single spaces: a word, a space, a word, a
   * space and a rest that starts with a non-space and has no newline scan
   * back into exactly those three fields.
   */
  lemma ScanThreeFields(c: string, a: string, r: string)
    requires IsWord(c) && IsWord(a)
    requires r != [] && !IsSpace(r[0]) && '\n' !in r
    ensures ScanCommand(c + " " + a + " " + r) == Scan(3, c, a, r)
  {
    var s := c + " " + a + " " + r;
    var p1 := |c|;
    var p3 := p1 + 1 + |a|;
    assert s[..p1] == c && s[p1] == ' ';
    assert s[p1 + 1..p3] == a && s[p3] == ' ';
    assert s[p3 + 1..] == r;
    ScanThreeAt(s, p1, p3);
  }

  /** The three-field scan of a line laid out as word, space, word, space, rest. */
  lemma ScanThreeAt(s: string, p1: nat, p3: nat)
    requires p1 < p3 < |s| - 1
    requires IsWord(s[..p1]) && s[p1] == ' ' && IsWord(s[p1 + 1..p3]) && s[p3] == ' '
    requires !IsSpace(s[p3 + 1]) && '\n' !in s[p3 + 1..]
    ensures ScanCommand(s) == Scan(3, s[..p1], s[p1 + 1..p3], s[p3 + 1..])
  {
    var c, a := s[..p1], s[p1 + 1..p3];
    assert s[0] == c[0] && s[p1 + 1] == a[0];
    SkipSpaceTo(s, 0, 0);
    assert s[0..p1] == c;
    SkipTokenOver(s, 0, c);
    SkipSpaceTo(s, p1, p1 + 1);
    SkipTokenOver(s, p1 + 1, a);
    SkipSpaceTo(s, p3, p3 + 1);
    forall k | p3 + 1 <= k < |s| ensures s[k] != '\n' {
      assert s[k] == s[p3 + 1..][k - p3 - 1];
    }
    SkipLineToEnd(s, p3 + 1);
    assert s[p3 + 1..|s|] == s[p3 + 1..];
  }

  /** A word, a space and a word scan into two fields. */
  lemma ScanTwoFields(c: string, a: string)
    requires IsWord(c) && IsWord(a)
    ensures ScanCommand(c + " " + a) == Scan(2, c, a, "")
  {
    var s := c + " " + a;
    var p1 := |c|;
    var p2 := p1 + 1;
    assert s[..p1] == c && s[p1] == ' ' && s[0] == c[0];
    assert s[p2..] == a && s[p2] == a[0] && |s| == p2 + |a|;
    SkipSpaceTo(s, 0, 0);
    SkipTokenOver(s, 0, c);
    SkipSpaceTo(s, p1, p2);
    SkipTokenOver(s, p2, a);
    assert s[0..p1] == c && s[p2..|s|] == a;
  }

  /** A word alone scans into one field. */
  lemma ScanOneField(c: string)
    requires IsWord(c)
    ensures ScanCommand(c) == Scan(1, c, "", "")
  {
    assert c[0..] == c && c[0..|c|] == c;
    SkipSpaceTo(c, 0, 0);
    SkipTokenOver(c, 0, c);
  }

  // ------------------------------------------------------------------- atoi

  /** atoi: optional leading whitespace, an optional sign, then the leading decimal digits (overflow is not modelled). */
  function Atoi(s: string): int {
    var w := s[LeadingSpaces(s)..];
    if |w| > 0 && (w[0] == '-' || w[0] == '+') then
      var v: int := Value(w[1..][..LeadingDigits(w[1..])]);
      if w[0] == '-' then -v else v
    else Value(w[..LeadingDigits(w)])
  }

  /** atoi reads back a number written in decimal, whatever non-digit text follows it. */
  lemma AtoiDigits(n: nat, rest: string)
    requires rest == [] || !IsDigit(rest[0])
    ensures Atoi(Digits(n) + rest) == n
  {
    var d := Digits(n);
    var s := d + rest;
    assert s[0] == d[0];
    LeadingSpacesUnique(s, 0);
    assert s[0..] == s;
    assert s[..|d|] == d;
    LeadingDigitsUnique(s, |d|);
    DigitsValue(n);
  }

  // --------------------------------------------------------------- dispatch

  /** What process_command decides to do with a line. */
  datatype Request =
    | Blank
    | Help
    | MyIp
    | MyPort
    | ConnectTo(ip: string, port: int)
    | List
    | TerminateId(id: int)
    | SendTo(id: int, message: string)
    | Exit
    | Usage(name: string)
    | Unknown(name: string)

  /** The if-else chain of process_command: exact, case-sensitive names and the field counts each needs. */
  function Classify(sc: Scan): Request {
    if sc.cmd == "help" then Help
    else if sc.cmd == "myip" then MyIp
    else if sc.cmd == "myport" then MyPort
    else if sc.cmd == "connect" then
      if sc.count >= 3 then ConnectTo(sc.arg1, Atoi(sc.arg2)) else Usage("connect")
    else if sc.cmd == "list" then List
    else if sc.cmd == "terminate" then
      if sc.count >= 2 then TerminateId(Atoi(sc.arg1)) else Usage("terminate")
    else if sc.cmd == "send" then
      if sc.count >= 3 then SendTo(Atoi(sc.arg1), sc.arg2) else Usage("send")
    else if sc.cmd == "exit" then Exit
    else Unknown(sc.cmd)
  }

  /** A line is trimmed first; a line blank after trimming asks for nothing. */
  function ParseRequest(line: string): Request {
    var t := Trim(line);
    if |t| == 0 then Blank else Classify(ScanCommand(t))
  }

  /** A line of only whitespace is ignored. */
  lemma BlankLineIgnored(line: string)
    requires AllSpace(line)
    ensures ParseRequest(line) == Blank
  {
    TrimEmptyIffBlank(line);
  }

  /** A text that neither starts nor ends with whitespace is its own trim. */
  lemma TrimmedAlready(s: string)
    requires s != [] && !IsSpace(s[0]) && !IsSpace(s[|s| - 1])
    ensures Trim(s) == s
  {
    TrimExact([], s, []);
    assert [] + s + [] == s;
  }

  /** A line of a command word and two more fields is classified on those three fields. */
  lemma ParseThree(c: string, a: string, r: string)
    requires IsWord(c) && IsWord(a)
    requires r != [] && !IsSpace(r[0]) && !IsSpace(r[|r| - 1]) && '\n' !in r
    ensures ParseRequest(c + " " + a + " " + r) == Classify(Scan(3, c, a, r))
  {
    var line := c + " " + a + " " + r;
    assert line[0] == c[0] && line[|line| - 1] == r[|r| - 1];
    TrimmedAlready(line);
    ScanThreeFields(c, a, r);
  }

  /** A line of a command word and one more field is classified on those two fields. */
  lemma ParseTwo(c: string, a: string)
    requires IsWord(c) && IsWord(a)
    ensures ParseRequest(c + " " + a) == Classify(Scan(2, c, a, ""))
  {
    var line := c + " " + a;
    assert line[0] == c[0] && line[|line| - 1] == a[|a| - 1];
    TrimmedAlready(line);
    ScanTwoFields(c, a);
  }

  /** A number written in decimal is a word, and atoi reads it back. */
  lemma DigitsWord(n: nat)
    ensures IsWord(Digits(n)) && '\n' !in Digits(n) && !IsSpace(Digits(n)[|Digits(n)| - 1])
    ensures Atoi(Digits(n)) == n
  {
    var d := Digits(n);
    assert forall i :: 0 <= i < |d| ==> IsDigit(d[i]);
    AtoiDigits(n, []);
    assert d + [] == d;
  }

  /** "send <id> <message>" asks to send exactly that message to that id. */
  lemma ParseSend(id: nat, message: string)
    requires message != [] && !IsSpace(message[0]) && !IsSpace(message[|message| - 1]) && '\n' !in message
    ensures ParseRequest("send " + Digits(id) + " " + message) == SendTo(id, message)
  {
    DigitsWord(id);
    assert "send " + Digits(id) + " " + message == "send" + " " + Digits(id) + " " + message;
    ParseThree("send", Digits(id), message);
  }

  /** "connect <ip> <port>" asks to connect to that ip and port. */
  lemma ParseConnect(ip: string, port: nat)
    requires IsWord(ip)
    ensures ParseRequest("connect " + ip + " " + Digits(port)) == ConnectTo(ip, port)
  {
    DigitsWord(port);
    assert "connect " + ip + " " + Digits(port) == "connect" + " " + ip + " " + Digits(port);
    ParseThree("connect", ip, Digits(port));
  }

  /** "terminate <id>" asks to terminate that id. */
  lemma ParseTerminate(id: nat)
    ensures ParseRequest("terminate " + Digits(id)) == TerminateId(id)
  {
    var d := Digits(id);
    DigitsWord(id);
    assert "terminate " + d == "terminate" + " " + d;
    ParseTwo("terminate", d);
    assert Classify(Scan(2, "terminate", d, "")) == TerminateId(Atoi(d));
  }

  /** "connect" with a single argument lacks the port, so only the usage line is printed. */
  lemma ConnectUsage(w: string)
    requires IsWord(w)
    ensures ParseRequest("connect " + w) == Usage("connect")
  {
    assert "connect " + w == "connect" + " " + w;
    ParseTwo("connect", w);
    assert Classify(Scan(2, "connect", w, "")) == Usage("connect");
  }

  /** "send" with a single argument lacks the message, so only the usage line is printed. */
  lemma SendUsage(w: string)
    requires IsWord(w)
    ensures ParseRequest("send " + w) == Usage("send")
  {
    assert "send " + w == "send" + " " + w;
    ParseTwo("send", w);
    assert Classify(Scan(2, "send", w, "")) == Usage("send");
  }

  /** "terminate" alone lacks the id, so only the usage line is printed. */
  lemma TerminateUsage()
    ensures ParseRequest("terminate") == Usage("terminate")
  {
    assert IsWord("terminate");
    TrimmedAlready("terminate");
    ScanOneField("terminate");
    assert Classify(Scan(1, "terminate", "", "")) == Usage("terminate");
  }

  /** Command names are matched exactly: "CONNECT" is not "connect". */
  lemma NamesAreCaseSensitive(ip: string, port: nat)
    requires IsWord(ip)
    ensures ParseRequest("CONNECT " + ip + " " + Digits(port)) == Unknown("CONNECT")
  {
    DigitsWord(port);
    assert "CONNECT " + ip + " " + Digits(port) == "CONNECT" + " " + ip + " " + Digits(port);
    ParseThree("CONNECT", ip, Digits(port));
  }

  /** What process_command reports. */
  datatype Reply =
    | NoReply
    | HelpText
    | ShowIp(ip: string)
    | ShowPort(port: int)
    | ConnectReply(connect: ConnectOutcome)
    | ListReply(entries: seq<Entry>)
    | TerminateReply(closed: Option<Release>)
    | SendReply(send: SendOutcome)
    | ExitReply(closedAll: seq<Release>)
    | UsageReply(name: string)
    | UnknownReply(name: string)

  /** The effect of a request on the table and what is reported. */
  function Execute(t: Table, env: Env, req: Request): (Table, Reply) {
    match req
    case Blank => (t, NoReply)
    case Help => (t, HelpText)
    case MyIp => (t, ShowIp(env.localIp))
    case MyPort => (t, ShowPort(env.listenPort))
    case ConnectTo(ip, port) =>
      var (t', r) := Connect(t, env, ip, port);
      (t', ConnectReply(r))
    case List => (t, ListReply(Listing(t.slots)))
    case TerminateId(id) =>
      var (t', released) := Terminate(t, id);
      (t', TerminateReply(released))
    case SendTo(id, message) =>
      var (t', r) := Send(t, id, message, env.sendOk);
      (t', SendReply(r))
    case Exit => (CloseAll(t), ExitReply(Releases(t.slots)))
    case Usage(name) => (t, UsageReply(name))
    case Unknown(name) => (t, UnknownReply(name))
  }

  /**
   * Every command keeps the registry's invariant, and only connect,
   * terminate, send and exit change the table: a blank line, a usage error
   * or an unknown command leaves it as it was.
   */
  lemma ExecuteKeepsInv(t: Table, env: Env, req: Request)
    requires Inv(t)
    ensures Inv(Execute(t, env, req).0)
    ensures !(req.ConnectTo? || req.TerminateId? || req.SendTo? || req.Exit?) ==> Execute(t, env, req).0 == t
  {
    match req
    case ConnectTo(ip, port) =>
      if ConnectCheck(t, env, ip, port).None? && env.dial.Some? {
        ValidIpFits(ip);
        AddPreservesInv(t, env.dial.value, ip, port, env.thread, env.threadOk);
      }
    case TerminateId(id) =>
      RemovePreservesInv(t, id);
    case SendTo(id, message) =>
      RemovePreservesInv(t, id);
    case Exit =>
      CloseAllEmpties(t);
    case _ =>
  }

  // ---------------------------------------------------------------- methods

  /** cmd_connect on the registry. */
  method CmdConnect(reg: Registry, env: Env, ip: string, port: int) returns (outcome: ConnectOutcome)
    requires reg.Valid()
    modifies reg, reg.slots
    ensures reg.Valid() && reg.slots == old(reg.slots)
    ensures (reg.State(), outcome) == Connect(old(reg.State()), env, ip, port)
  {
    if !IsValidIp(ip) {
      return InvalidIp;
    }
    if !IsValidPort(port) {
      return InvalidPort;
    }
    if ip == env.localIp && port == env.listenPort {
      return SelfConnect;
    }
    var existing := reg.FindConnectionByAddress(ip, port);
    if existing != -1 {
      return AlreadyConnected;
    }
    if env.dial.None? {
      return DialFailed;
    }
    var sock := env.dial.value;
    ValidIpFits(ip);
    var id := reg.AddConnection(sock, ip, port, env.threadOk, env.thread);
    if id != -1 {
      outcome := Connected(id);
    } else {
      outcome := AddFailed(sock);
    }
  }

  /** cmd_terminate on the registry. */
  method CmdTerminate(reg: Registry, connId: int) returns (released: Option<Release>)
    requires reg.Valid()
    modifies reg.slots
    ensures reg.Valid()
    ensures (reg.State(), released) == Terminate(old(reg.State()), connId)
  {
    var index := reg.FindConnectionById(connId);
    if index == -1 {
      return None;
    }
    released := reg.CloseConnection(connId);
  }

  /** cmd_send on the registry. */
  method CmdSend(reg: Registry, connId: int, message: string, sendOk: bool) returns (outcome: SendOutcome)
    requires reg.Valid()
    modifies reg.slots
    ensures reg.Valid()
    ensures (reg.State(), outcome) == Send(old(reg.State()), connId, message, sendOk)
  {
    if |message| > MAX_MESSAGE_LENGTH {
      return TooLong;
    }
    var conn := reg.GetConnectionById(connId);
    if conn.None? {
      return NotFound;
    }
    var (count, wire) := SendMessage(message + ['\0'], sendOk);
    if count < 0 {
      var released := reg.RemoveConnection(connId);
      return SendFailed(released.value);
    }
    return Sent(conn.value.socket, wire);
  }

  /** cmd_exit's effect on the registry: running is cleared and every connection closed. */
  method CmdExit(reg: Registry) returns (running: bool, released: seq<Release>)
    requires reg.Valid()
    modifies reg.slots
    ensures reg.Valid() && !running
    ensures reg.State() == CloseAll(old(reg.State()))
    ensures released == Releases(old(reg.slots[..]))
  {
    running := false;
    released := reg.CloseAllConnections();
  }

  /**
   * process_command: the line is trimmed in its buffer; a blank line is
   * ignored; otherwise it is split by sscanf and dispatched.
   */
  method ProcessCommand(reg: Registry, command: array<char>, env: Env) returns (reply: Reply)
    requires reg.Valid() && '\0' in command[..]
    modifies reg, reg.slots, command
    ensures reg.Valid() && reg.slots == old(reg.slots)
    ensures TrimmedBuffer(old(command[..]), command[..])
    ensures (reg.State(), reply) == Execute(old(reg.State()), env, ParseRequest(old(CStr(command[..]))))
  {
    ghost var before := command[..];
    TrimString(command);
    TrimmedText(before, command[..]);
    var line := CStr(command[..]);
    if |line| == 0 {
      return NoReply;
    }
    var sc := ScanCommand(line);
    reply := Dispatch(reg, sc, env);
  }

  /** The if-else chain of process_command on the exact command name. */
  method Dispatch(reg: Registry, sc: Scan, env: Env) returns (reply: Reply)
    requires reg.Valid()
    modifies reg, reg.slots
    ensures reg.Valid() && reg.slots == old(reg.slots)
    ensures (reg.State(), reply) == Execute(old(reg.State()), env, Classify(sc))
  {
    ghost var req := Classify(sc);
    if sc.cmd == "help" {
      reply := HelpText;
    } else if sc.cmd == "myip" {
      reply := ShowIp(env.localIp);
    } else if sc.cmd == "myport" {
      reply := ShowPort(env.listenPort);
    } else if sc.cmd == "connect" {
      if sc.count >= 3 {
        assert req == ConnectTo(sc.arg1, Atoi(sc.arg2));
        var r := CmdConnect(reg, env, sc.arg1, Atoi(sc.arg2));
        reply := ConnectReply(r);
      } else {
        reply := UsageReply("connect");
      }
    } else if sc.cmd == "list" {
      assert req == List;
      var entries := reg.ConnectionList();
      reply := ListReply(entries);
    } else if sc.cmd == "terminate" {
      if sc.count >= 2 {
        assert req == TerminateId(Atoi(sc.arg1));
        var released := CmdTerminate(reg, Atoi(sc.arg1));
        reply := TerminateReply(released);
      } else {
        reply := UsageReply("terminate");
      }
    } else if sc.cmd == "send" {
      if sc.count >= 3 {
        assert req == SendTo(Atoi(sc.arg1), sc.arg2);
        var r := CmdSend(reg, Atoi(sc.arg1), sc.arg2, env.sendOk);
        reply := SendReply(r);
      } else {
        reply := UsageReply("send");
      }
    } else if sc.cmd == "exit" {
      assert req == Exit;
      var _, released := CmdExit(reg);
      reply := ExitReply(released);
    } else {
      reply := UnknownReply(sc.cmd);
    }
  }
}
