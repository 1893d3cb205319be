/**
 * The connection registry of connection.c as a value: the fixed table of
 * MAX_CONNECTIONS slots and the id counter, with one function per registry
 * operation and the lemmas about them. The class in module Connections
 * performs the same operations in place and is proved against these
 * functions.
 */
module ConnectionTable {
  import opened Common

  /** One slot of the table; a slot whose active flag is clear is free. */
  datatype Connection = Connection(id: int, socket: Handle, ip: string, port: int, thread: ThreadId, active: bool)

  /** A slot as init_connections' memset leaves it. */
  const Zeroed: Connection := Connection(0, 0, "", 0, 0, false)

  /** One line of the connection list. */
  datatype Entry = Entry(id: int, ip: string, port: int)

  function EntryOf(c: Connection): Entry {
    Entry(c.id, c.ip, c.port)
  }

  /** A socket a registry call closes; shutdown tells whether both directions were shut down first. */
  datatype Release = Release(socket: Handle, shutdown: bool)

  /** The slots and next_connection_id. */
  datatype Table = Table(slots: seq<Connection>, nextId: int)

  /** The registry at start-up: every slot zeroed, the counter at 1. */
  const Initial: Table := Table(seq(MAX_CONNECTIONS, _ => Zeroed), 1)

  /**
   * What every registry operation preserves: the table has its fixed size,
   * every ip fits its 16-character field, and the ids of active slots are
   * distinct and drawn from 1 .. nextId - 1.
   */
  predicate Inv(t: Table) {
    && |t.slots| == MAX_CONNECTIONS
    && t.nextId >= 1
    && (forall i :: 0 <= i < |t.slots| ==> |t.slots[i].ip| < INET_ADDRSTRLEN)
    && (forall i :: 0 <= i < |t.slots| && t.slots[i].active ==> 1 <= t.slots[i].id < t.nextId)
    && (forall i, j :: 0 <= i < j < |t.slots| && t.slots[i].active && t.slots[j].active ==>
          t.slots[i].id != t.slots[j].id)
  }

  lemma InitialInv()
    ensures Inv(Initial)
  {
  }

  /** The smallest index whose slot satisfies p, or -1 when none does. */
  function FirstWhere(s: seq<Connection>, p: Connection -> bool): (k: int)
    ensures -1 <= k < |s|
    ensures k == -1 <==> forall i :: 0 <= i < |s| ==> !p(s[i])
    ensures k >= 0 ==> p(s[k]) && forall i :: 0 <= i < k ==> !p(s[i])
  {
    if s == [] then -1
    else if p(s[0]) then 0
    else
      var k := FirstWhere(s[1..], p);
      if k == -1 then -1 else k + 1
  }

  /** The slot add_connection fills: the lowest-indexed free one. */
  function FirstInactive(s: seq<Connection>): int {
    FirstWhere(s, (c: Connection) => !c.active)
  }

  /** find_connection_by_id: the lowest active slot carrying id. */
  function IndexById(s: seq<Connection>, id: int): int {
    FirstWhere(s, (c: Connection) => c.active && c.id == id)
  }

  /** find_connection_by_address: the lowest active slot whose ip and port are these. */
  function IndexByAddress(s: seq<Connection>, ip: string, port: int): int {
    FirstWhere(s, (c: Connection) => c.active && c.ip == ip && c.port == port)
  }

  /**
   * add_connection: the lowest free slot takes the next id, the socket and
   * the endpoint, and the counter moves on; the slot stays active only when
   * its receiver thread starts. The result is the id, or -1 when the table
   * is full or the thread did not start.
   */
  function Add(t: Table, sock: Handle, ip: string, port: int, thread: ThreadId, threadOk: bool): (Table, int) {
    var k := FirstInactive(t.slots);
    if k == -1 then (t, -1)
    else
      (Table(t.slots[k := Connection(t.nextId, sock, ip, port, thread, threadOk)], t.nextId + 1),
       if threadOk then t.nextId else -1)
  }

  /** remove_connection and close_connection: the active slot carrying id, if any, becomes free. */
  function Remove(t: Table, id: int): Table {
    var k := IndexById(t.slots, id);
    if k == -1 then t else t.(slots := t.slots[k := t.slots[k].(active := false)])
  }

  /** The socket a removal of id closes, if a slot carries it. */
  function Removed(t: Table, id: int, shutdown: bool): Option<Release> {
    var k := IndexById(t.slots, id);
    if k == -1 then None else Some(Release(t.slots[k].socket, shutdown))
  }

  /** close_all_connections: every slot becomes free. */
  function CloseAll(t: Table): Table {
    t.(slots := seq(|t.slots|, i requires 0 <= i < |t.slots| => t.slots[i].(active := false)))
  }

  /** The sockets close_all_connections shuts down and closes, in slot order. */
  function Releases(s: seq<Connection>): seq<Release> {
    if s == [] then []
    else
      var last := s[|s| - 1];
      Releases(s[..|s| - 1]) + if last.active then [Release(last.socket, true)] else []
  }

  /** The indices of the active slots, ascending. */
  function ActiveSlots(s: seq<Connection>): (ix: seq<nat>)
    ensures |ix| <= |s|
    ensures forall p :: 0 <= p < |ix| ==> ix[p] < |s| && s[ix[p]].active
    ensures forall p, q :: 0 <= p < q < |ix| ==> ix[p] < ix[q]
    ensures forall i :: 0 <= i < |s| && s[i].active ==> i in ix
  {
    if s == [] then []
    else ActiveSlots(s[..|s| - 1]) + if s[|s| - 1].active then [|s| - 1] else []
  }

  /** get_active_connection_count. */
  function ActiveCount(s: seq<Connection>): nat {
    |ActiveSlots(s)|
  }

  /** The lines print_connection_list prints, in slot order. */
  function Listing(s: seq<Connection>): seq<Entry> {
    if s == [] then []
    else
      var last := s[|s| - 1];
      Listing(s[..|s| - 1]) + if last.active then [EntryOf(last)] else []
  }

  /**
   * The listing shows exactly the active slots, ascending by slot index;
   * a freed slot reused later is listed at its index, not at the end.
   */
  lemma {:induction false} ListingInSlotOrder(s: seq<Connection>)
    ensures |Listing(s)| == |ActiveSlots(s)|
    ensures forall p :: 0 <= p < |Listing(s)| ==> Listing(s)[p] == EntryOf(s[ActiveSlots(s)[p]])
  {
    if s != [] {
      var init := s[..|s| - 1];
      ListingInSlotOrder(init);
      forall p | 0 <= p < |ActiveSlots(init)|
        ensures s[ActiveSlots(init)[p]] == init[ActiveSlots(init)[p]]
      {
      }
    }
  }

  /** The table is full exactly when no slot is free, so add_connection fails exactly then. */
  lemma FullIffNoFreeSlot(s: seq<Connection>)
    ensures FirstInactive(s) == -1 <==> ActiveCount(s) == |s|
  {
    CountAllActive(s);
  }

  lemma {:induction false} CountAllActive(s: seq<Connection>)
    ensures ActiveCount(s) == |s| <==> forall i :: 0 <= i < |s| ==> s[i].active
  {
    if s != [] {
      var init := s[..|s| - 1];
      CountAllActive(init);
      if forall i :: 0 <= i < |s| ==> s[i].active {
        assert forall i :: 0 <= i < |init| ==> init[i].active by {
          forall i | 0 <= i < |init| ensures init[i].active {
            assert init[i] == s[i];
          }
        }
      }
      if ActiveCount(s) == |s| {
        assert s[|s| - 1].active;
        forall i | 0 <= i < |s| ensures s[i].active {
          if i < |init| {
            assert init[i] == s[i];
          }
        }
      }
    }
  }

  /** add_connection keeps the table's invariant; in particular the new id differs from every active one. */
  lemma AddPreservesInv(t: Table, sock: Handle, ip: string, port: int, thread: ThreadId, threadOk: bool)
    requires Inv(t) && |ip| < INET_ADDRSTRLEN
    ensures Inv(Add(t, sock, ip, port, thread, threadOk).0)
  {
    var k := FirstInactive(t.slots);
    if k != -1 {
      var t' := Add(t, sock, ip, port, thread, threadOk).0;
      forall i, j | 0 <= i < j < |t'.slots| && t'.slots[i].active && t'.slots[j].active
        ensures t'.slots[i].id != t'.slots[j].id
      {
        if i != k && j != k {
          assert t'.slots[i] == t.slots[i] && t'.slots[j] == t.slots[j];
        }
      }
    }
  }

  /**
   * A successful add is found again by its id, at the slot it filled, with
   * the endpoint and socket it was given.
   */
  lemma AddedIsFound(t: Table, sock: Handle, ip: string, port: int, thread: ThreadId)
    requires Inv(t) && |ip| < INET_ADDRSTRLEN
    requires Add(t, sock, ip, port, thread, true).1 != -1
    ensures var (t', id) := Add(t, sock, ip, port, thread, true);
      var k := IndexById(t'.slots, id);
      id == t.nextId && k == FirstInactive(t.slots) && k >= 0 &&
      t'.slots[k].ip == ip && t'.slots[k].port == port && t'.slots[k].socket == sock &&
      ActiveCount(t'.slots) == ActiveCount(t.slots) + 1
  {
    var (t', id) := Add(t, sock, ip, port, thread, true);
    var k := FirstInactive(t.slots);
    AddPreservesInv(t, sock, ip, port, thread, true);
    var j := IndexById(t'.slots, id);
    assert t'.slots[k].active && t'.slots[k].id == id;
    assert j != -1;
    ActiveCountSet(t.slots, k, t'.slots[k]);
    assert t.slots[k := t'.slots[k]] == t'.slots;
  }

  /** Making one free slot active adds exactly one to the count. */
  lemma {:induction false} ActiveCountSet(s: seq<Connection>, k: nat, c: Connection)
    requires k < |s| && !s[k].active && c.active
    ensures ActiveCount(s[k := c]) == ActiveCount(s) + 1
  {
    var init := s[..|s| - 1];
    if k < |s| - 1 {
      ActiveCountSet(init, k, c);
      assert s[k := c][..|s| - 1] == init[k := c];
    } else {
      assert s[k := c][..|s| - 1] == init;
    }
  }

  /**
   * When the receiver thread cannot start, add_connection returns -1 and the
   * listing is what it was, yet the id it took is gone for good.
   */
  lemma ThreadFailureConsumesId(t: Table, sock: Handle, ip: string, port: int, thread: ThreadId)
    requires FirstInactive(t.slots) != -1
    ensures var (t', id) := Add(t, sock, ip, port, thread, false);
      id == -1 && t'.nextId == t.nextId + 1 && Listing(t'.slots) == Listing(t.slots)
  {
    var k := FirstInactive(t.slots);
    ListingSetInactive(t.slots, k, Connection(t.nextId, sock, ip, port, thread, false));
  }

  /** Overwriting a free slot with another free slot leaves the listing as it was. */
  lemma {:induction false} ListingSetInactive(s: seq<Connection>, k: nat, c: Connection)
    requires k < |s| && !s[k].active && !c.active
    ensures Listing(s[k := c]) == Listing(s)
  {
    var init := s[..|s| - 1];
    if k < |s| - 1 {
      ListingSetInactive(init, k, c);
      assert s[k := c][..|s| - 1] == init[k := c];
    } else {
      assert s[k := c][..|s| - 1] == init;
    }
  }

  /**
   * add_connection does not look for the endpoint: with a free slot and a
   * running thread it admits a second active connection to an ip and port
   * that already has one.
   */
  lemma AddAdmitsDuplicateEndpoint(t: Table, sock: Handle, ip: string, port: int, thread: ThreadId)
    requires IndexByAddress(t.slots, ip, port) != -1
    requires FirstInactive(t.slots) != -1
    ensures var t' := Add(t, sock, ip, port, thread, true).0;
      exists i, j :: 0 <= i < j < |t'.slots| &&
        t'.slots[i].active && t'.slots[j].active &&
        t'.slots[i].ip == t'.slots[j].ip == ip && t'.slots[i].port == t'.slots[j].port == port
  {
    var old_ := IndexByAddress(t.slots, ip, port);
    var k := FirstInactive(t.slots);
    var t' := Add(t, sock, ip, port, thread, true).0;
    assert old_ != k;
    if old_ < k {
      assert t'.slots[old_].active && t'.slots[k].active;
    } else {
      assert t'.slots[k].active && t'.slots[old_].active;
    }
  }

  /** Ids of active slots are distinct, so an active slot is the one its own id finds. */
  lemma OwnIdFindsSlot(t: Table, k: nat)
    requires Inv(t) && k < |t.slots| && t.slots[k].active
    ensures IndexById(t.slots, t.slots[k].id) == k
  {
  }

  /** remove_connection keeps the invariant. */
  lemma RemovePreservesInv(t: Table, id: int)
    requires Inv(t)
    ensures Inv(Remove(t, id))
  {
  }

  /**
   * After a removal of id no active slot carries it, every other slot is as
   * it was, and removing it again changes nothing.
   */
  lemma RemoveForgetsId(t: Table, id: int)
    requires Inv(t)
    ensures IndexById(Remove(t, id).slots, id) == -1
    ensures forall i :: 0 <= i < |t.slots| && i != IndexById(t.slots, id) ==> Remove(t, id).slots[i] == t.slots[i]
    ensures Remove(Remove(t, id), id) == Remove(t, id)
    ensures Removed(Remove(t, id), id, true) == None
  {
    var k := IndexById(t.slots, id);
    var t' := Remove(t, id);
    if k != -1 {
      forall i | 0 <= i < |t'.slots| ensures !(t'.slots[i].active && t'.slots[i].id == id) {
      }
    }
  }

  /** close_all_connections keeps the invariant and leaves no slot active, so the count is 0 and every id is unknown. */
  lemma CloseAllEmpties(t: Table)
    requires Inv(t)
    ensures Inv(CloseAll(t))
    ensures ActiveCount(CloseAll(t).slots) == 0
    ensures forall id :: IndexById(CloseAll(t).slots, id) == -1
    ensures Listing(CloseAll(t).slots) == []
  {
    var s := CloseAll(t).slots;
    ListingInSlotOrder(s);
    CountNoneActive(s);
  }

  lemma {:induction false} CountNoneActive(s: seq<Connection>)
    requires forall i :: 0 <= i < |s| ==> !s[i].active
    ensures ActiveCount(s) == 0
  {
    if s != [] {
      CountNoneActive(s[..|s| - 1]);
    }
  }

  /** A registry operation, for reasoning about sequences of them. */
  datatype Op =
    | AddOp(socket: Handle, ip: string, port: int, thread: ThreadId, threadOk: bool)
    | RemoveOp(id: int)
    | CloseAllOp

  /** The table after a sequence of operations, with the result of every add in order. */
  function Run(t: Table, ops: seq<Op>): (Table, seq<int>)
    decreases |ops|
  {
    if ops == [] then (t, [])
    else
      match ops[0]
      case AddOp(sock, ip, port, thread, ok) =>
        var (t1, id) := Add(t, sock, ip, port, thread, ok);
        var (t2, ids) := Run(t1, ops[1..]);
        (t2, [id] + ids)
      case RemoveOp(id) => Run(Remove(t, id), ops[1..])
      case CloseAllOp => Run(CloseAll(t), ops[1..])
  }

  /**
   * Ids are never reused: whatever adds, removals and closes happen, every
   * id an add hands out is at least the counter's value at the start (so it
   * differs from every id in the table then), below the counter's value at
   * the end, and larger than every id handed out before it.
   */
  lemma {:induction false} IdsNeverReused(t: Table, ops: seq<Op>)
    ensures var (t', ids) := Run(t, ops);
      && t.nextId <= t'.nextId
      && (forall i :: 0 <= i < |ids| && ids[i] != -1 ==> t.nextId <= ids[i] < t'.nextId)
      && (forall i, j :: 0 <= i < j < |ids| && ids[i] != -1 && ids[j] != -1 ==> ids[i] < ids[j])
    decreases |ops|
  {
    if ops != [] {
      match ops[0]
      case AddOp(sock, ip, port, thread, ok) =>
        var (t1, id) := Add(t, sock, ip, port, thread, ok);
        IdsNeverReused(t1, ops[1..]);
        var (t2, ids) := Run(t1, ops[1..]);
        assert Run(t, ops) == (t2, [id] + ids);
        assert id != -1 ==> id == t.nextId && t1.nextId == t.nextId + 1;
      case RemoveOp(id) =>
        IdsNeverReused(Remove(t, id), ops[1..]);
      case CloseAllOp =>
        IdsNeverReused(CloseAll(t), ops[1..]);
    }
  }

  /** Listing a table split in two lists the first part, then the second. */
  lemma {:induction false} ListingAppend(a: seq<Connection>, b: seq<Connection>)
    ensures Listing(a + b) == Listing(a) + Listing(b)
  {
    if b == [] {
      assert a + b == a;
    } else {
      var init := b[..|b| - 1];
      ListingAppend(a, init);
      assert (a + b)[..|a + b| - 1] == a + init;
    }
  }

  lemma {:induction false} ListingNoneActive(s: seq<Connection>)
    requires forall i :: 0 <= i < |s| ==> !s[i].active
    ensures Listing(s) == []
  {
    if s != [] {
      ListingNoneActive(s[..|s| - 1]);
    }
  }

  /**
   * Two adds from start-up get ids 1 and 2 in slots 0 and 1; after removing
   * id 1 the next add gets id 3, not 1, and reuses slot 0, so the listing
   * shows id 3 before id 2.
   */
  lemma SlotReuseScenario(a: Handle, b: Handle, d: Handle, ip: string, pa: int, pb: int, pd: int, thread: ThreadId)
    ensures var (t1, id1) := Add(Initial, a, ip, pa, thread, true);
      var (t2, id2) := Add(t1, b, ip, pb, thread, true);
      var t3 := Remove(t2, id1);
      var (t4, id3) := Add(t3, d, ip, pd, thread, true);
      && id1 == 1 && id2 == 2 && id3 == 3
      && IndexById(t4.slots, 1) == -1
      && Listing(t4.slots) == [Entry(3, ip, pd), Entry(2, ip, pb)]
  {
    var (t1, id1) := Add(Initial, a, ip, pa, thread, true);
    assert FirstInactive(Initial.slots) == 0 by { assert !Initial.slots[0].active; }
    var (t2, id2) := Add(t1, b, ip, pb, thread, true);
    assert FirstInactive(t1.slots) == 1 by { assert !t1.slots[1].active; }
    var t3 := Remove(t2, id1);
    assert IndexById(t2.slots, 1) == 0;
    var (t4, id3) := Add(t3, d, ip, pd, thread, true);
    assert FirstInactive(t3.slots) == 0;
    var rest := Initial.slots[2..];
    var c3, c2 := Connection(3, d, ip, pd, thread, true), Connection(2, b, ip, pb, thread, true);
    assert t4.slots == [c3, c2] + rest;
    ListingNoneActive(rest);
    ListingAppend([c3, c2], rest);
    assert Listing([c3]) == [EntryOf(c3)] by {
      assert [c3][..0] == [];
    }
    assert Listing([c3, c2]) == [EntryOf(c3), EntryOf(c2)] by {
      assert [c3, c2][..1] == [c3];
    }
    assert Listing([c3, c2]) + [] == Listing([c3, c2]);
  }
}
