/**
 * The socket layer's pure parts (socket.c): the port and IPv4 address
 * validators, the textual form of an accepted peer's address, and the
 * length bounds of sending and receiving.
 */
module Net {
  import opened Common
  import opened CType
  import opened Decimal
  import opened Strings

  /** is_valid_port: ports 1 through 65535. */
  predicate IsValidPort(port: int) {
    port > 0 && port <= 65535
  }

  /** The boundaries of the port check: 0, negatives and 65536 are out. */
  lemma PortBoundaries(port: int)
    ensures IsValidPort(port) <==> 0 < port < 0x1_0000
    ensures !IsValidPort(0) && IsValidPort(1) && IsValidPort(65535) && !IsValidPort(65536)
  {
  }

  /** The dot-separated fields of a string, empty fields included. */
  function Fields(s: string): (fs: seq<string>)
    ensures |fs| >= 1
    ensures forall i :: 0 <= i < |fs| ==> '.' !in fs[i]
  {
    if s == [] then [[]]
    else
      var rest := Fields(s[1..]);
      if s[0] == '.' then [[]] + rest else [[s[0]] + rest[0]] + rest[1..]
  }

  /** Fields put back together with a dot between neighbours. */
  function Join(fs: seq<string>): string
    requires |fs| >= 1
  {
    if |fs| == 1 then fs[0] else fs[0] + ['.'] + Join(fs[1..])
  }

  /** Splitting at the dots and joining again gives back the string. */
  lemma {:induction false} JoinFields(s: string)
    ensures Join(Fields(s)) == s
  {
    if s != [] {
      JoinFields(s[1..]);
      var rest := Fields(s[1..]);
      if s[0] != '.' && |rest| > 1 {
        assert Join(rest) == rest[0] + ['.'] + Join(rest[1..]);
        assert Join([[s[0]] + rest[0]] + rest[1..]) == [s[0]] + rest[0] + ['.'] + Join(rest[1..]);
      }
    }
  }

  lemma {:induction false} FieldsPrefix(x: string, r: string)
    requires '.' !in x
    ensures Fields(x + r) == [x + Fields(r)[0]] + Fields(r)[1..]
  {
    if x != [] {
      assert x[0] in x;
      assert (x + r)[0] == x[0] && (x + r)[1..] == x[1..] + r;
      FieldsPrefix(x[1..], r);
      var rest := Fields(x[1..] + r);
      assert rest[0] == x[1..] + Fields(r)[0] && rest[1..] == Fields(r)[1..];
      assert [x[0]] + (x[1..] + Fields(r)[0]) == x + Fields(r)[0];
    } else {
      assert x + r == r && x + Fields(r)[0] == Fields(r)[0];
      assert Fields(r) == [Fields(r)[0]] + Fields(r)[1..];
    }
  }

  /** Joining dot-free fields and splitting again gives back the fields. */
  lemma {:induction false} FieldsJoin(fs: seq<string>)
    requires |fs| >= 1
    requires forall i :: 0 <= i < |fs| ==> '.' !in fs[i]
    ensures Fields(Join(fs)) == fs
  {
    if |fs| == 1 {
      FieldsPrefix(fs[0], []);
      assert fs[0] + [] == fs[0];
    } else {
      FieldsJoin(fs[1..]);
      var j := Join(fs[1..]);
      assert Join(fs) == fs[0] + (['.'] + j);
      FieldsPrefix(fs[0], ['.'] + j);
      assert (['.'] + j)[1..] == j;
      assert Fields(['.'] + j) == [[]] + fs[1..];
      assert fs[0] + [] == fs[0];
      assert fs == [fs[0]] + fs[1..];
    }
  }

  /** Dot-free fields of at most three characters join to at most 4|fs| - 1 characters. */
  lemma {:induction false} JoinLength(fs: seq<string>)
    requires |fs| >= 1
    requires forall i :: 0 <= i < |fs| ==> |fs[i]| <= 3
    ensures |Join(fs)| <= 4 * |fs| - 1
  {
    if |fs| > 1 {
      JoinLength(fs[1..]);
    }
  }

  /** One field of a dotted quad: one to three decimal digits denoting at most 255. */
  predicate IsOctetText(t: string) {
    1 <= |t| <= 3 && AllDigits(t) && Value(t) <= 255
  }

  /**
   * is_valid_ip, which accepts what inet_pton(AF_INET, ...) accepts: four
   * dot-separated octet fields and nothing else.
   */
  predicate IsValidIp(s: string) {
    var fs := Fields(s);
    |fs| == 4 && forall i :: 0 <= i < 4 ==> IsOctetText(fs[i])
  }

  /** The four octets inet_pton stores for an accepted address. */
  function ParseIp(s: string): (q: Option<seq<nat>>)
    ensures q.Some? <==> IsValidIp(s)
    ensures q.Some? ==> |q.value| == 4 && forall i :: 0 <= i < 4 ==> q.value[i] <= 255
  {
    if IsValidIp(s) then
      var fs := Fields(s);
      Some([Value(fs[0]), Value(fs[1]), Value(fs[2]), Value(fs[3])])
    else None
  }

  predicate IsOctets(q: seq<nat>) {
    |q| == 4 && forall i :: 0 <= i < 4 ==> q[i] <= 255
  }

  /** inet_ntop(AF_INET, ...): each octet in shortest decimal, dot-separated. */
  function FormatIp(q: seq<nat>): string
    requires IsOctets(q)
  {
    Join([Digits(q[0]), Digits(q[1]), Digits(q[2]), Digits(q[3])])
  }

  /**
   * Every address is_valid_ip accepts fits, with its terminator, the
   * 16-character ip field of a connection.
   */
  lemma ValidIpFits(s: string)
    requires IsValidIp(s)
    ensures |s| < INET_ADDRSTRLEN
  {
    JoinFields(s);
    JoinLength(Fields(s));
  }

  /**
   * The text inet_ntop writes for an accepted peer is a valid address that
   * parses back to the same octets, and fits the ip field.
   */
  lemma FormatIpRoundTrip(q: seq<nat>)
    requires IsOctets(q)
    ensures IsValidIp(FormatIp(q))
    ensures ParseIp(FormatIp(q)) == Some(q)
    ensures |FormatIp(q)| < INET_ADDRSTRLEN
  {
    var fs := [Digits(q[0]), Digits(q[1]), Digits(q[2]), Digits(q[3])];
    forall i | 0 <= i < 4 ensures IsOctetText(fs[i]) && '.' !in fs[i] && Value(fs[i]) == q[i] {
      DigitsValue(q[i]);
      DigitsLength(q[i]);
      assert !IsDigit('.');
    }
    FieldsJoin(fs);
    ValidIpFits(FormatIp(q));
    assert q == [q[0], q[1], q[2], q[3]];
  }

  /** The loopback address passes the address check. */
  lemma LoopbackIsValid()
    ensures IsValidIp("127.0.0.1")
  {
    assert Digits(127) == "127" by {
      assert Digits(1) == "1";
      assert Digits(12) == "12";
    }
    assert Digits(0) == "0" && Digits(1) == "1";
    assert FormatIp([127, 0, 0, 1]) == Join(["127", "0", "0", "1"]);
    assert Join(["0", "1"]) == "0.1";
    assert Join(["0", "0", "1"]) == "0.0.1";
    assert "127.0.0.1" == Join(["127", "0", "0", "1"]);
    FormatIpRoundTrip([127, 0, 0, 1]);
  }

  /** An octet above 255 fails the address check. */
  lemma OctetTooLargeIsInvalid()
    ensures !IsValidIp("256.0.0.1")
  {
    assert "256.0.0.1" == Join(["256", "0", "0", "1"]);
    FieldsJoin(["256", "0", "0", "1"]);
    assert "256"[..2] == "25" && "25"[..1] == "2" && "2"[..0] == [];
    assert Value("256") == 256;
  }

  /** Three or five fields fail the address check. */
  lemma WrongFieldCountIsInvalid()
    ensures !IsValidIp("1.2.3")
    ensures !IsValidIp("1.2.3.4.5")
  {
    assert "1.2.3" == Join(["1", "2", "3"]);
    FieldsJoin(["1", "2", "3"]);
    assert "1.2.3.4.5" == Join(["1", "2", "3", "4", "5"]);
    FieldsJoin(["1", "2", "3", "4", "5"]);
  }

  /** errno values the receiver distinguishes. */
  datatype Errno = EAGAIN | EWOULDBLOCK | OtherErrno(code: int)

  /** A receive error that only asks the caller to try again. */
  predicate IsRetry(e: Errno) {
    e == EAGAIN || e == EWOULDBLOCK
  }

  /** What the peer's stream has for the next recv: bytes, an orderly close, or an error. */
  datatype Incoming = Pending(data: seq<char>) | PeerClosed | RecvError(errno: Errno)

  /** The number of bytes receive_message asks recv for: one short of the buffer. */
  function RequestSize(bufferSize: int): int {
    bufferSize - 1
  }

  function Min(a: int, b: int): int {
    if a <= b then a else b
  }

  /**
   * receive_message: recv into the buffer, asking for one byte fewer than it
   * holds. A non-negative result is at most buffer.Length - 1, so the caller's
   * terminator at buffer[r] is in bounds.
   */
  method ReceiveMessage(buffer: array<char>, incoming: Incoming) returns (r: int)
    requires RequestSize(buffer.Length) >= 1
    requires incoming.Pending? ==> incoming.data != []
    modifies buffer
    ensures -1 <= r <= buffer.Length - 1
    ensures incoming.Pending? ==>
      r == Min(|incoming.data|, RequestSize(buffer.Length)) && r > 0 &&
      buffer[..r] == incoming.data[..r] && buffer[r..] == old(buffer[r..])
    ensures incoming.PeerClosed? ==> r == 0 && buffer[..] == old(buffer[..])
    ensures incoming.RecvError? ==> r == -1 && buffer[..] == old(buffer[..])
  {
    match incoming
    case Pending(data) =>
      r := Min(|data|, RequestSize(buffer.Length));
      forall i | 0 <= i < r {
        buffer[i] := data[i];
      }
    case PeerClosed =>
      r := 0;
    case RecvError(_) =>
      r := -1;
  }

  /**
   * send_message: send() is handed the text of the NUL-terminated message,
   * strlen(message) bytes, without the terminator and with no delimiter or
   * length prefix; it reports that count, or -1.
   */
  function SendMessage(message: seq<char>, delivered: bool): (r: (int, string))
    requires '\0' in message
    ensures r.0 >= 0 <==> delivered
    ensures delivered ==>
      && r.1 == CStr(message) && r.0 == Strlen(message) == |r.1|
      && '\0' !in r.1 && message[..|r.1|] == r.1 && message[|r.1|] == '\0'
    ensures !delivered ==> r.1 == [] && r.0 == -1
  {
    if delivered then
      var n: int := Strlen(message);
      (n, message[..n])
    else (-1, [])
  }
}
