/**
 The socket registry over kqueue (src/io_kqueue.c:66-177). Live sockets sit densely at the front
 of a fixed array; the kernel's queue maps each armed descriptor to the slot it is to be
 reported with. Registrations are one-shot: reporting one disarms it.
 */
module Registries {

  const MAX_SOCKETS: nat := 64

  /** A registry slot. Rings and user data are referred to by handle. */
  datatype IOSocket = IOSocket(
    fd: int, rxRing: int, txRing: int, userData: int, nicNs: nat, nicTicks: nat)

  /** A reported event: the read or write filter of a descriptor, with the slot it was armed with. */
  datatype Event = Event(isRead: bool, fd: int, udata: int)

  /** The live slots, and the armed read filters with their slot numbers. */
  datatype Registry = Registry(slots: seq<IOSocket>, kq: map<int, int>)

  /** Each live slot's descriptor is armed with that slot's number, and nothing else is armed. */
  ghost predicate Agrees(r: Registry) {
    && (forall i | 0 <= i < |r.slots| ::
          r.slots[i].fd >= 0 && r.slots[i].fd in r.kq && r.kq[r.slots[i].fd] == i)
    && (forall fd <- r.kq :: 0 <= r.kq[fd] < |r.slots| && r.slots[r.kq[fd]].fd == fd)
  }

  /** What the registry means to its users: a table from descriptor to socket. */
  ghost function Table(r: Registry): map<int, IOSocket>
    requires Agrees(r)
  {
    map fd | fd in r.kq :: r.slots[r.kq[fd]]
  }

  // ---- The operations on values ---------------------------------------------------------------------

  function Added(r: Registry, s: IOSocket): Registry {
    Registry(r.slots + [s], r.kq[s.fd := |r.slots|])
  }

  /** The first slot that holds the descriptor, or -1. */
  function Find(slots: seq<IOSocket>, fd: int): (idx: int)
    ensures idx == -1 <==> forall i | 0 <= i < |slots| :: slots[i].fd != fd
    ensures idx != -1 ==> 0 <= idx < |slots| && slots[idx].fd == fd && forall j | 0 <= j < idx :: slots[j].fd != fd
  {
    if slots == [] then -1
    else if slots[0].fd == fd then 0
    else
      var i := Find(slots[1..], fd);
      assert slots == [slots[0]] + slots[1..];
      if i == -1 then -1 else i + 1
  }

  /** Swap-removal: the last slot moves into the hole and its registration is renumbered. */
  function Vacated(r: Registry, idx: nat): Registry
    requires idx < |r.slots|
  {
    var last := |r.slots| - 1;
    var kq := r.kq - {r.slots[idx].fd};
    if idx < last then
      Registry(r.slots[..last][idx := r.slots[last]], kq[r.slots[last].fd := idx])
    else
      Registry(r.slots[..last], kq)
  }

  function Removed(r: Registry, fd: int): Registry {
    var idx := Find(r.slots, fd);
    if fd < 0 || idx == -1 then r else Vacated(r, idx)
  }

  /** Reporting read events disarms them. */
  function Fired(kq: map<int, int>, events: seq<Event>): map<int, int> {
    if events == [] then kq
    else Fired(if events[0].isRead then kq - {events[0].fd} else kq, events[1..])
  }

  /** The loop after the report: every event with a live slot number re-arms that slot. */
  function Rearmed(slots: seq<IOSocket>, kq: map<int, int>, events: seq<Event>): map<int, int>
    decreases |events|
  {
    if events == [] then kq else
      var e := events[0];
      Rearmed(slots, if 0 <= e.udata < |slots| then kq[slots[e.udata].fd := e.udata] else kq, events[1..])
  }

  function Polled(r: Registry, events: seq<Event>): Registry {
    r.(kq := Rearmed(r.slots, Fired(r.kq, events), events))
  }

  /**
   The kernel reports only armed read filters, with the slot number they were armed with; write events are
   arbitrary.
   */
  ghost predicate Reportable(r: Registry, events: seq<Event>) {
    forall i | 0 <= i < |events| && events[i].isRead ::
      events[i].fd in r.kq && r.kq[events[i].fd] == events[i].udata
  }

  // ---- What they keep ---------------------------------------------------------------------------------

  /** In an agreeing registry any slot holding the descriptor is the one the kernel would report. */
  lemma SearchFinds(r: Registry, fd: int, idx: int)
    requires Agrees(r)
    requires idx == -1 ==> forall k | 0 <= k < |r.slots| :: r.slots[k].fd != fd
    requires idx != -1 ==> 0 <= idx < |r.slots| && r.slots[idx].fd == fd
    ensures idx == Find(r.slots, fd)
    ensures idx == if fd in r.kq then r.kq[fd] else -1
  {
    if fd in r.kq { assert r.slots[r.kq[fd]].fd == fd; }
  }

  lemma FindIsReported(r: Registry, fd: int)
    requires Agrees(r)
    ensures Find(r.slots, fd) == if fd in r.kq then r.kq[fd] else -1
  {
    SearchFinds(r, fd, Find(r.slots, fd));
  }

  lemma AddKeeps(r: Registry, s: IOSocket)
    requires Agrees(r) && s.fd >= 0 && s.fd !in r.kq
    ensures Agrees(Added(r, s))
    ensures Table(Added(r, s)) == Table(r)[s.fd := s]
    ensures |Added(r, s).kq| == |r.kq| + 1
  {
    var r' := Added(r, s);
    assert r'.kq.Keys == r.kq.Keys + {s.fd};
    forall x <- r.kq ensures r'.kq[x] == r.kq[x] && r'.slots[r'.kq[x]] == r.slots[r.kq[x]] {}
  }

  /**
   Adding a descriptor that is registered already is not refused: the kernel then has one registration for two
   slots. An add keeps the agreement exactly if it is refused or the descriptor is new.
   */
  lemma AddKeepsIff(r: Registry, s: IOSocket, registers: bool)
    requires Agrees(r)
    ensures Agrees(Do(r, Add(s, registers))) <==> Do(r, Add(s, registers)) == r || s.fd !in r.kq
  {
    var r' := Do(r, Add(s, registers));
    if r' != r {
      if s.fd !in r.kq {
        AddKeeps(r, s);
      } else {
        var i := r.kq[s.fd];
        assert r'.slots[i] == r.slots[i] && r'.kq[r'.slots[i].fd] == |r.slots|;
      }
    }
  }

  lemma NoNegative(r: Registry, fd: int)
    requires Agrees(r) && fd in r.kq
    ensures fd >= 0
  {
    assert r.slots[r.kq[fd]].fd == fd;
  }

  /** Where the sockets other than the removed one are found afterwards. */
  lemma RemoveMoves(r: Registry, fd: int)
    requires Agrees(r) && fd in r.kq
    ensures var r' := Removed(r, fd);
      && r'.kq.Keys == r.kq.Keys - {fd} && |r'.slots| == |r.slots| - 1
      && (forall x <- r'.kq :: 0 <= r'.kq[x] < |r'.slots| && r'.slots[r'.kq[x]] == r.slots[r.kq[x]])
      && (forall i | 0 <= i < |r'.slots| ::
            r'.slots[i].fd >= 0 && r'.slots[i].fd in r'.kq && r'.kq[r'.slots[i].fd] == i)
  {
    hide Find;
    FindIsReported(r, fd);
    var idx, last, r' := r.kq[fd], |r.slots| - 1, Removed(r, fd);
    assert r.slots[idx].fd == fd;
    assert r.slots[last].fd in r.kq && r.kq[r.slots[last].fd] == last;
    forall i | 0 <= i < |r'.slots|
      ensures r'.slots[i].fd >= 0 && r'.slots[i].fd in r'.kq && r'.kq[r'.slots[i].fd] == i
    {
      assert r'.slots[i] == r.slots[if i == idx then last else i];
    }
  }

  /** Every other socket survives a removal: the table loses exactly the one entry. */
  lemma RemoveKeeps(r: Registry, fd: int)
    requires Agrees(r)
    ensures Agrees(Removed(r, fd))
    ensures Table(Removed(r, fd)) == Table(r) - {fd}
    ensures fd in r.kq ==> |Removed(r, fd).kq| == |r.kq| - 1 && |Removed(r, fd).slots| == |r.slots| - 1
    ensures fd !in r.kq ==> Removed(r, fd) == r
  {
    FindIsReported(r, fd);
    if fd in r.kq {
      hide Removed, Find;
      RemoveMoves(r, fd);
      var r' := Removed(r, fd);
      forall x <- r'.kq ensures r'.slots[r'.kq[x]].fd == x {
        assert r.slots[r.kq[x]].fd == x;
      }
      assert |r'.kq.Keys| == |r.kq.Keys| - 1;
      assert Table(r').Keys == (Table(r) - {fd}).Keys;
    }
  }

  /** A slot number handed out by an earlier add stays right exactly for the sockets that are not the last one. */
  lemma SlotNumberStays(r: Registry, fd: int, x: int)
    requires Agrees(r) && fd in r.kq && x in r.kq && x != fd
    ensures x in Removed(r, fd).kq
    ensures Removed(r, fd).kq[x] == r.kq[x] <==> r.kq[x] != |r.slots| - 1
  {
    hide Find;
    FindIsReported(r, fd);
    assert r.slots[r.kq[x]].fd == x && r.slots[r.kq[fd]].fd == fd;
  }

  /** Reporting disarms exactly the descriptors whose read events are reported. */
  lemma {:induction false} FiredExactly(kq: map<int, int>, events: seq<Event>, fd: int)
    ensures var reported := exists i | 0 <= i < |events| :: events[i].isRead && events[i].fd == fd;
      && (fd in Fired(kq, events) <==> fd in kq && !reported)
      && (fd in Fired(kq, events) ==> Fired(kq, events)[fd] == kq[fd])
    decreases |events|
  {
    if events == [] {
    } else {
      FiredExactly(if events[0].isRead then kq - {events[0].fd} else kq, events[1..], fd);
      assert forall i | 0 <= i < |events[1..]| :: events[1..][i] == events[i + 1];
      if i :| 0 <= i < |events| && events[i].isRead && events[i].fd == fd {
        if i > 0 { assert events[1..][i - 1].fd == fd; }
      }
    }
  }

  /** kq lies between what is still to be re-armed and what should be armed. */
  ghost predicate Between(r: Registry, kq: map<int, int>, events: seq<Event>) {
    && (forall fd <- kq :: fd in r.kq && kq[fd] == r.kq[fd])
    && (forall fd <- r.kq :: fd in kq || exists i | 0 <= i < |events| :: events[i].isRead && events[i].fd == fd)
  }

  lemma {:induction false} FiredBetween(r: Registry, kq: map<int, int>, done: seq<Event>, events: seq<Event>)
    requires Between(r, kq, done)
    ensures Between(r, Fired(kq, events), done + events)
    decreases |events|
  {
    if events == [] {
      assert done + events == done;
    } else {
      var e := events[0];
      var kq' := if e.isRead then kq - {e.fd} else kq;
      assert (done + [e])[|done|] == e;
      assert forall i | 0 <= i < |done| :: (done + [e])[i] == done[i];
      assert Between(r, kq', done + [e]);
      FiredBetween(r, kq', done + [e], events[1..]);
      assert done + [e] + events[1..] == done + events;
    }
  }

  lemma {:induction false} RearmRestores(r: Registry, kq: map<int, int>, events: seq<Event>)
    requires Agrees(r) && Reportable(r, events) && Between(r, kq, events)
    ensures Rearmed(r.slots, kq, events) == r.kq
    decreases |events|
  {
    if events == [] {
      assert forall fd :: fd in kq <==> fd in r.kq;
      assert forall fd | fd in kq :: kq[fd] == r.kq[fd];
      assert kq == r.kq;
    } else {
      var e := events[0];
      var kq' := if 0 <= e.udata < |r.slots| then kq[r.slots[e.udata].fd := e.udata] else kq;
      assert e.isRead ==> r.slots[e.udata].fd == e.fd;
      assert Between(r, kq', events[1..]) by {
        forall fd <- r.kq
          ensures fd in kq' || exists i | 0 <= i < |events[1..]| :: events[1..][i].isRead && events[1..][i].fd == fd
        {
          if fd !in kq' {
            var i :| 0 <= i < |events| && events[i].isRead && events[i].fd == fd;
            assert events[1..][i - 1] == events[i];
          }
        }
      }
      RearmRestores(r, kq', events[1..]);
    }
  }

  /** After a poll everything is armed as before, and each read event names the slot of its own descriptor. */
  lemma PollKeeps(r: Registry, events: seq<Event>)
    requires Agrees(r) && Reportable(r, events)
    ensures Polled(r, events) == r
    ensures forall i | 0 <= i < |events| && events[i].isRead ::
      0 <= events[i].udata < |r.slots| && r.slots[events[i].udata].fd == events[i].fd
  {
    FiredBetween(r, r.kq, [], events);
    assert [] + events == events;
    RearmRestores(r, Fired(r.kq, events), events);
  }

  // ---- Runs ----------------------------------------------------------------------------------------------

  datatype Op = Add(socket: IOSocket, registers: bool) | Remove(fd: int) | Poll(events: seq<Event>)

  /** Adding fails on a bad descriptor, a full registry or a refused registration; removing on an unknown one. */
  function Do(r: Registry, op: Op): Registry {
    match op
    case Add(s, registers) =>
      if s.fd < 0 || |r.slots| >= MAX_SOCKETS || !registers then r else Added(r, s)
    case Remove(fd) => Removed(r, fd)
    case Poll(events) => Polled(r, events)
  }

  function Run(r: Registry, ops: seq<Op>): Registry
    decreases |ops|
  {
    if ops == [] then r else Run(Do(r, ops[0]), ops[1..])
  }

  /** What the same run does to a plain table. */
  function DoTable(t: map<int, IOSocket>, op: Op): map<int, IOSocket> {
    match op
    case Add(s, registers) => if s.fd < 0 || |t| >= MAX_SOCKETS || !registers then t else t[s.fd := s]
    case Remove(fd) => t - {fd}
    case Poll(events) => t
  }

  function RunTable(t: map<int, IOSocket>, ops: seq<Op>): map<int, IOSocket>
    decreases |ops|
  {
    if ops == [] then t else RunTable(DoTable(t, ops[0]), ops[1..])
  }

  /** No descriptor is added while it is registered, and the kernel reports only what is armed. */
  ghost predicate Legal(r: Registry, ops: seq<Op>)
    decreases |ops|
  {
    ops != [] ==>
      && (ops[0].Add? ==> Find(r.slots, ops[0].socket.fd) == -1)
      && (ops[0].Poll? ==> Reportable(r, ops[0].events))
      && Legal(Do(r, ops[0]), ops[1..])
  }

  lemma StepRefines(r: Registry, op: Op)
    requires Agrees(r) && |r.kq| == |r.slots| && Legal(r, [op])
    ensures var r' := Do(r, op);
      && Agrees(r') && |r'.kq| == |r'.slots|
      && Table(r') == DoTable(Table(r), op)
  {
    assert Table(r).Keys == r.kq.Keys;
    match op
    case Add(s, registers) =>
      FindIsReported(r, s.fd);
      if s.fd >= 0 { AddKeeps(r, s); }
    case Remove(fd) => RemoveKeeps(r, fd);
    case Poll(events) => PollKeeps(r, events);
  }

  lemma {:induction false} RunRefines(r: Registry, ops: seq<Op>)
    requires Agrees(r) && |r.kq| == |r.slots| && Legal(r, ops)
    ensures Agrees(Run(r, ops)) && Table(Run(r, ops)) == RunTable(Table(r), ops)
    decreases |ops|
  {
    if ops == [] {
    } else {
      assert [ops[0]][1..] == [];
      StepRefines(r, ops[0]);
      RunRefines(Do(r, ops[0]), ops[1..]);
    }
  }

  /**
   Over every run the registry behaves as a plain table from descriptor to socket, and the kernel's queue
   agrees with the slots: swaps, renumbering, rollbacks and one-shot disarming never show.
   */
  lemma RegistryIsTable(ops: seq<Op>)
    requires Legal(Registry([], map[]), ops)
    ensures var r := Run(Registry([], map[]), ops);
      && Agrees(r) && Table(r) == RunTable(map[], ops)
  {
    var r := Registry([], map[]);
    assert Table(r) == map[];
    RunRefines(r, ops);
  }

  // ---- The registry in place ---------------------------------------------------------------------------

  class IOContext {
    const sockets: array<IOSocket>
    var socketCount: nat
    /** The kernel's armed read filters. */
    var kq: map<int, int>

    ghost predicate Valid()
      reads this
    {
      sockets.Length == MAX_SOCKETS && socketCount <= MAX_SOCKETS
    }

    ghost function View(): Registry
      requires Valid()
      reads this, sockets
    {
      Registry(sockets[..socketCount], kq)
    }

    constructor ()
      ensures Valid() && View() == Registry([], map[])
    {
      sockets := new IOSocket[MAX_SOCKETS](_ => IOSocket(0, 0, 0, 0, 0, 0));
      socketCount, kq := 0, map[];
    }

    /**
     `configured` and `registers` say whether the two system calls succeed. Nothing keeps a descriptor from
     being added twice; that, and nothing else, ends the agreement with the kernel.
     */
    method AddSocket(fd: int, rxRing: int, txRing: int, userData: int, configured: bool, registers: bool)
      returns (r: int)
      requires Valid()
      modifies this, sockets
      ensures Valid()
      ensures View() == Do(old(View()), Add(IOSocket(fd, rxRing, txRing, userData, 0, 0), configured && registers))
      ensures r == -1 <==> fd < 0 || old(socketCount) >= MAX_SOCKETS || !configured || !registers
      ensures r != -1 ==> r == old(socketCount)
      ensures old(Agrees(View())) ==> (Agrees(View()) <==> r == -1 || fd !in old(kq))
    {
      hide Agrees;
      ghost var v, s := View(), IOSocket(fd, rxRing, txRing, userData, 0, 0);
      if Agrees(v) { AddKeepsIff(v, s, configured && registers); }
      if fd < 0 || socketCount >= MAX_SOCKETS || !configured {
        return -1;
      }
      var idx := socketCount;
      socketCount := socketCount + 1;
      sockets[idx] := IOSocket(fd, rxRing, txRing, userData, 0, 0);
      if !registers {
        socketCount := socketCount - 1;
        assert View().slots == v.slots;
        return -1;
      }
      kq := kq[fd := idx];
      assert View().slots == v.slots + [s];
      return idx;
    }

    /** The linear search for a descriptor. */
    method FindSocket(fd: int) returns (idx: int)
      requires Valid()
      ensures idx == Find(sockets[..socketCount], fd)
    {
      var i := 0;
      assert sockets[0..socketCount] == sockets[..socketCount];
      while i < socketCount
        invariant 0 <= i <= socketCount
        invariant Find(sockets[..socketCount], fd)
               == (var k := Find(sockets[i..socketCount], fd); if k == -1 then -1 else i + k)
      {
        assert sockets[i..socketCount][1..] == sockets[i + 1..socketCount];
        if sockets[i].fd == fd {
          return i;
        }
        i := i + 1;
      }
      return -1;
    }

    /** Disarms the socket of a slot and fills the hole with the last one. */
    method Vacate(fd: int, idx: nat)
      requires Valid() && idx < socketCount && sockets[idx].fd == fd
      modifies this, sockets
      ensures Valid() && View() == Vacated(old(View()), idx)
    {
      ghost var slots := sockets[..socketCount];
      kq := kq - {fd};
      if idx < socketCount - 1 {
        sockets[idx] := sockets[socketCount - 1];
        kq := kq[sockets[idx].fd := idx];
      }
      socketCount := socketCount - 1;
      assert sockets[..socketCount]
          == if idx < socketCount then slots[..socketCount][idx := slots[socketCount]] else slots[..socketCount];
    }

    method RemoveSocket(fd: int) returns (r: int)
      requires Valid()
      modifies this, sockets
      ensures Valid() && View() == Removed(old(View()), fd)
      ensures r == if fd < 0 || Find(old(sockets[..socketCount]), fd) == -1 then -1 else 0
      ensures old(Agrees(View())) ==> Agrees(View()) && Table(View()) == old(Table(View())) - {fd}
      ensures old(Agrees(View())) ==> (r == 0 <==> fd in old(kq))
    {
      hide Agrees, Find, Vacated, Table;
      if Agrees(View()) {
        RemoveKeeps(View(), fd);
        FindIsReported(View(), fd);
        if fd in kq { NoNegative(View(), fd); }
      }
      if fd < 0 {
        return -1;
      }
      var idx := FindSocket(fd);
      if idx == -1 {
        return -1;
      }
      Vacate(fd, idx);
      return 0;
    }

    /** A poll that reports `events`: the kernel disarms the read events, the loop re-arms by slot number. */
    method Poll(events: seq<Event>)
      requires Valid()
      modifies this`kq
      ensures Valid() && View() == Polled(old(View()), events)
      ensures old(Agrees(View()) && Reportable(View(), events)) ==>
        && View() == old(View())
        && forall i | 0 <= i < |events| && events[i].isRead ::
             0 <= events[i].udata < socketCount && sockets[events[i].udata].fd == events[i].fd
    {
      hide Agrees, Reportable;
      ghost var v := View();
      if Agrees(v) && Reportable(v, events) { PollKeeps(v, events); }
      kq := Fired(kq, events);
      var i := 0;
      assert events[0..] == events;
      while i < |events|
        invariant 0 <= i <= |events|
        invariant Rearmed(v.slots, kq, events[i..]) == Polled(v, events).kq
      {
        var udata := events[i].udata;
        assert events[i..][0] == events[i] && events[i..][1..] == events[i + 1..];
        if 0 <= udata < socketCount {
          kq := kq[sockets[udata].fd := udata];
        }
        i := i + 1;
      }
    }
  }
}
