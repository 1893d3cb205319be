/**
 * The connection registry of connection.c as it runs: a table of slots
 * updated in place and a counter, each operation one atomic step (the
 * source holds connections_mutex around every bookkeeping body). Every
 * method is proved against the function of module ConnectionTable that
 * describes it.
 */
module Connections {
  import opened Common
  import opened Strings
  import opened Net
  import opened ConnectionTable

  /** A report the receiver loop prints. */
  datatype Event =
    | NoEvent
    | MessageFrom(ip: string, port: int, text: string)
    | PeerDisconnected(ip: string, port: int, id: int)
    | ConnectionLost(ip: string, port: int, id: int)

  /** What accept() gives the accept loop: nothing usable, or a socket and the peer's address. */
  datatype AcceptOutcome = AcceptFailed | AcceptedPeer(socket: Handle, addr: seq<nat>, port: int)

  class Registry {
    /** The MAX_CONNECTIONS slots of the table. */
    var slots: array<Connection>
    /** next_connection_id */
    var nextId: int

    ghost function State(): Table
      reads this, slots
    {
      Table(slots[..], nextId)
    }

    ghost predicate Valid()
      reads this, slots
    {
      slots.Length == MAX_CONNECTIONS && Inv(State())
    }

    /** The zero-initialised global table and next_connection_id = 1. */
    constructor ()
      ensures Valid() && fresh(slots)
      ensures State() == Initial
    {
      slots := new Connection[MAX_CONNECTIONS](_ => Zeroed);
      nextId := 1;
    }

    /** init_connections: every slot zeroed; the counter is not touched. */
    method InitConnections()
      requires Valid()
      modifies slots
      ensures Valid()
      ensures State() == Initial.(nextId := old(nextId))
    {
      forall i | 0 <= i < slots.Length {
        slots[i] := Zeroed;
      }
    }

    /**
     * add_connection: the lowest free slot takes the next id, the socket
     * and the endpoint; the counter moves on; the slot stays active only if
     * its receiver thread starts. Returns the id, or -1.
     */
    method AddConnection(sock: Handle, ip: string, port: int, threadOk: bool, thread: ThreadId) returns (id: int)
      requires Valid() && |ip| < INET_ADDRSTRLEN
      modifies this, slots
      ensures Valid() && slots == old(slots)
      ensures (State(), id) == Add(old(State()), sock, ip, port, thread, threadOk)
    {
      ghost var t := State();
      var slot := -1;
      var i := 0;
      while i < MAX_CONNECTIONS
        invariant 0 <= i <= MAX_CONNECTIONS
        invariant forall j :: 0 <= j < i ==> slots[j].active
      {
        if !slots[i].active {
          slot := i;
          break;
        }
        i := i + 1;
      }
      if slot == -1 {
        return -1;
      }
      assert slot == FirstInactive(t.slots);
      slots[slot] := Connection(nextId, sock, ip, port, slots[slot].thread, true);
      nextId := nextId + 1;
      // pthread_create records the receiver thread in the slot
      slots[slot] := slots[slot].(thread := thread);
      if !threadOk {
        slots[slot] := slots[slot].(active := false);
        assert slots[slot] == Connection(t.nextId, sock, ip, port, thread, false);
        assert slots[..] == t.slots[slot := Connection(t.nextId, sock, ip, port, thread, false)];
        AddPreservesInv(t, sock, ip, port, thread, threadOk);
        return -1;
      }
      assert slots[..] == t.slots[slot := Connection(t.nextId, sock, ip, port, thread, true)];
      AddPreservesInv(t, sock, ip, port, thread, threadOk);
      return slots[slot].id;
    }

    /** remove_connection: the active slot carrying connId, if any, is freed and its socket closed. */
    method RemoveConnection(connId: int) returns (released: Option<Release>)
      requires Valid()
      modifies slots
      ensures Valid()
      ensures State() == Remove(old(State()), connId)
      ensures released == Removed(old(State()), connId, false)
    {
      ghost var t := State();
      released := None;
      var i := 0;
      while i < MAX_CONNECTIONS
        invariant 0 <= i <= MAX_CONNECTIONS
        invariant forall j :: 0 <= j < i ==> !(slots[j].active && slots[j].id == connId)
        invariant State() == t
      {
        if slots[i].active && slots[i].id == connId {
          slots[i] := slots[i].(active := false);
          released := Some(Release(slots[i].socket, false));
          break;
        }
        i := i + 1;
      }
      RemovePreservesInv(t, connId);
    }

    /**
     * close_connection: as remove_connection, but both directions of the
     * socket are shut down before it is closed.
     */
    method CloseConnection(connId: int) returns (released: Option<Release>)
      requires Valid()
      modifies slots
      ensures Valid()
      ensures State() == Remove(old(State()), connId)
      ensures released == Removed(old(State()), connId, true)
    {
      ghost var t := State();
      released := None;
      var i := 0;
      while i < MAX_CONNECTIONS
        invariant 0 <= i <= MAX_CONNECTIONS
        invariant forall j :: 0 <= j < i ==> !(slots[j].active && slots[j].id == connId)
        invariant State() == t
      {
        if slots[i].active && slots[i].id == connId {
          slots[i] := slots[i].(active := false);
          released := Some(Release(slots[i].socket, true));
          break;
        }
        i := i + 1;
      }
      RemovePreservesInv(t, connId);
    }

    /** close_all_connections: every active slot's socket is shut down and closed, in slot order, and the slot freed. */
    method CloseAllConnections() returns (released: seq<Release>)
      requires Valid()
      modifies slots
      ensures Valid()
      ensures State() == CloseAll(old(State()))
      ensures released == Releases(old(slots[..]))
    {
      ghost var before := slots[..];
      released := [];
      var i := 0;
      while i < MAX_CONNECTIONS
        invariant 0 <= i <= MAX_CONNECTIONS
        invariant forall j :: 0 <= j < i ==> slots[j] == before[j].(active := false)
        invariant forall j :: i <= j < MAX_CONNECTIONS ==> slots[j] == before[j]
        invariant released == Releases(before[..i])
      {
        assert before[..i + 1][..i] == before[..i];
        if slots[i].active {
          released := released + [Release(slots[i].socket, true)];
          slots[i] := slots[i].(active := false);
        }
        i := i + 1;
      }
      assert before[..MAX_CONNECTIONS] == before;
      CloseAllEmpties(Table(before, nextId));
    }

    /** find_connection_by_address: the lowest active slot with this ip and port, or -1. */
    method FindConnectionByAddress(ip: string, port: int) returns (index: int)
      requires Valid()
      ensures index == IndexByAddress(slots[..], ip, port)
    {
      var i := 0;
      while i < MAX_CONNECTIONS
        invariant 0 <= i <= MAX_CONNECTIONS
        invariant forall j :: 0 <= j < i ==> !(slots[j].active && slots[j].ip == ip && slots[j].port == port)
      {
        if slots[i].active && slots[i].ip == ip && slots[i].port == port {
          return i;
        }
        i := i + 1;
      }
      return -1;
    }

    /** find_connection_by_id: the lowest active slot carrying connId, or -1. */
    method FindConnectionById(connId: int) returns (index: int)
      requires Valid()
      ensures index == IndexById(slots[..], connId)
    {
      var i := 0;
      while i < MAX_CONNECTIONS
        invariant 0 <= i <= MAX_CONNECTIONS
        invariant forall j :: 0 <= j < i ==> !(slots[j].active && slots[j].id == connId)
      {
        if slots[i].active && slots[i].id == connId {
          return i;
        }
        i := i + 1;
      }
      return -1;
    }

    /** get_connection_by_id: the active slot carrying connId, or nothing (a NULL pointer). */
    method GetConnectionById(connId: int) returns (conn: Option<Connection>)
      requires Valid()
      ensures conn.None? <==> IndexById(slots[..], connId) == -1
      ensures conn.Some? ==> conn.value == slots[IndexById(slots[..], connId)]
      ensures conn.Some? ==> conn.value.active && conn.value.id == connId
    {
      var i := 0;
      while i < MAX_CONNECTIONS
        invariant 0 <= i <= MAX_CONNECTIONS
        invariant forall j :: 0 <= j < i ==> !(slots[j].active && slots[j].id == connId)
      {
        if slots[i].active && slots[i].id == connId {
          return Some(slots[i]);
        }
        i := i + 1;
      }
      return None;
    }

    /** get_active_connection_count. */
    method GetActiveConnectionCount() returns (count: int)
      requires Valid()
      ensures count == ActiveCount(slots[..])
      ensures 0 <= count <= MAX_CONNECTIONS
    {
      count := 0;
      var i := 0;
      while i < MAX_CONNECTIONS
        invariant 0 <= i <= MAX_CONNECTIONS
        invariant count == ActiveCount(slots[..i])
      {
        assert slots[..i + 1][..i] == slots[..i];
        if slots[i].active {
          count := count + 1;
        }
        i := i + 1;
      }
      assert slots[..MAX_CONNECTIONS] == slots[..];
    }

    /** The lines print_connection_list prints: the active slots in ascending slot order. */
    method ConnectionList() returns (entries: seq<Entry>)
      requires Valid()
      ensures entries == Listing(slots[..])
    {
      entries := [];
      var i := 0;
      while i < MAX_CONNECTIONS
        invariant 0 <= i <= MAX_CONNECTIONS
        invariant entries == Listing(slots[..i])
      {
        assert slots[..i + 1][..i] == slots[..i];
        if slots[i].active {
          entries := entries + [EntryOf(slots[i])];
        }
        i := i + 1;
      }
      assert slots[..MAX_CONNECTIONS] == slots[..];
    }

    /**
     * One round of handle_peer_messages_thread for the receiver of slot:
     * a freed slot (or shutdown) ends the loop with nothing removed; data
     * is terminated in the buffer and reported up to its first NUL, as
     * the console shows a C string; an orderly close or an error other than
     * EAGAIN/EWOULDBLOCK removes the slot's own id, closing its socket
     * without shutdown, and ends the loop; a retry goes round again.
     */
    method ReceiverStep(slot: nat, running: bool, incoming: Incoming, buffer: array<char>)
      returns (next: Loop, event: Event, released: Option<Release>)
      requires Valid() && slot < MAX_CONNECTIONS && buffer.Length == BUFFER_SIZE
      requires incoming.Pending? ==> incoming.data != []
      modifies slots, buffer
      ensures Valid()
      ensures !running || !old(slots[slot].active) ==>
        next == Stop && event == NoEvent && released == None && State() == old(State())
      ensures running && old(slots[slot].active) ==>
        var c := old(slots[slot]);
        match incoming
        case Pending(data) =>
          var text := data[..Min(|data|, BUFFER_SIZE - 1)];
          && next == Continue && released == None && State() == old(State())
          && buffer[..|text| + 1] == text + ['\0']
          && event == MessageFrom(c.ip, c.port, CStr(text + ['\0']))
        case PeerClosed =>
          && next == Stop && event == PeerDisconnected(c.ip, c.port, c.id)
          && released == Some(Release(c.socket, false))
          && State() == Remove(old(State()), c.id) && !slots[slot].active
        case RecvError(e) =>
          if IsRetry(e) then
            next == Continue && event == NoEvent && released == None && State() == old(State())
          else
            && next == Stop && event == ConnectionLost(c.ip, c.port, c.id)
            && released == Some(Release(c.socket, false))
            && State() == Remove(old(State()), c.id) && !slots[slot].active
    {
      if !running || !slots[slot].active {
        return Stop, NoEvent, None;
      }
      var c := slots[slot];
      OwnIdFindsSlot(State(), slot);
      var received := ReceiveMessage(buffer, incoming);
      if received > 0 {
        buffer[received] := '\0';
        next, event, released := Continue, MessageFrom(c.ip, c.port, CStr(buffer[..received + 1])), None;
      } else if received == 0 {
        released := RemoveConnection(c.id);
        next, event := Stop, PeerDisconnected(c.ip, c.port, c.id);
      } else if !IsRetry(incoming.errno) {
        released := RemoveConnection(c.id);
        next, event := Stop, ConnectionLost(c.ip, c.port, c.id);
      } else {
        next, event, released := Continue, NoEvent, None;
      }
    }

    /**
     * One round of accept_connections_thread: an accept failure goes round
     * again; an accepted peer's address is written out as inet_ntop does and
     * handed to add_connection, whose refusal closes the socket. No check for
     * an existing connection to the same endpoint is made.
     */
    method AcceptStep(running: bool, incoming: AcceptOutcome, threadOk: bool, thread: ThreadId)
      returns (next: Loop, id: int, closed: Option<Handle>)
      requires Valid()
      requires incoming.AcceptedPeer? ==> IsOctets(incoming.addr) && 0 <= incoming.port <= 65535
      modifies this, slots
      ensures Valid() && slots == old(slots)
      ensures !running ==> next == Stop && id == -1 && closed == None && State() == old(State())
      ensures running && incoming.AcceptFailed? ==>
        next == Continue && id == -1 && closed == None && State() == old(State())
      ensures running && incoming.AcceptedPeer? ==>
        && next == Continue
        && (State(), id) == Add(old(State()), incoming.socket, FormatIp(incoming.addr), incoming.port, thread, threadOk)
        && closed == (if id == -1 then Some(incoming.socket) else None)
    {
      if !running {
        return Stop, -1, None;
      }
      match incoming
      case AcceptFailed =>
        return Continue, -1, None;
      case AcceptedPeer(sock, addr, port) =>
        var ip := FormatIp(addr);
        FormatIpRoundTrip(addr);
        id := AddConnection(sock, ip, port, threadOk, thread);
        closed := if id == -1 then Some(sock) else None;
        next := Continue;
    }
  }
}
