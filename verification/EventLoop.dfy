/** The daemon's table of connections and its poll loop. */
module EventLoop {
  import opened Bytes
  import opened Connection
  import opened Tls
  import Protocol
  import Session

  const MAX_CLIENTS: nat := 8

  /** What the outside world answered: poll, whether a socket could be accepted, the clock, and the device, with
      the events that were waiting and whether it is still there. */
  datatype Happening =
    | Polled(masks: seq<Mask>, events: seq<Revents>)
    | Socket(came: bool)
    | Ticked(now: int)
    | Device(given: seq<Protocol.Event>, alive: bool)

  ghost predicate Apart(c: Client, d: Client) {
    c != d && {c.inbuf, c.outbuf, c.msgbuf} !! {d.inbuf, d.outbuf, d.msgbuf} && c.tape != d.tape
  }

  /** A slot, as far as the rounds of the loop go. */
  datatype Seat = Seat(used: bool, hasCtrl: bool, epoch: nat, look: Glance, last: Glance, spoken: seq<seq<Byte>>,
                       secured: seq<bool>, shakes: seq<AcceptResult>, told: seq<bool>, felt: seq<Felt>)

  ghost function SeatOf(c: Client): Seat
    reads c, c.tape
  {
    Seat(c.used, c.hasCtrl, c.epoch, c.Look(), c.last, c.spoken, c.tape.secured, c.tape.shakes, c.tape.told,
         c.tape.felt)
  }

  // ----- a new connection -----

  ghost predicate IsFirstFree(seats: seq<Seat>, i: nat) {
    i < |seats| && !seats[i].used && forall j :: 0 <= j < i ==> seats[j].used
  }

  /** A socket that came takes the first free slot; in the others nothing changes. */
  ghost predicate Took(before: seq<Seat>, after: seq<Seat>, came: bool, since: Option<int>) {
    && |after| == |before|
    && (since.Some? <==> came && exists i: nat :: IsFirstFree(before, i))
    && forall i: nat :: i < |before| ==>
         if since.Some? && IsFirstFree(before, i) then Seated(before[i], after[i], since.value)
         else after[i] == before[i]
  }

  /** The slot holds a new connection that begins its handshake, unless there was no TLS object for it. */
  ghost predicate Seated(before: Seat, after: Seat, now: int) {
    && after.epoch == before.epoch + 1 && after.secured == before.secured + [after.used]
    && (after.used ==> after.look == NewLook(now) && !after.hasCtrl)
    && after.shakes == before.shakes && after.told == before.told && after.felt == before.felt
  }

  // ----- device events -----

  function TextsOf(felt: seq<Felt>): seq<seq<Byte>> {
    if felt == [] then [] else TextsOf(felt[..|felt| - 1]) + felt[|felt| - 1].texts
  }

  /** A connection with a controller has been given each of the events, in order, and its controller has sent
      what it sends on them; nothing else has changed but its output queue. */
  ghost predicate Heard(before: Seat, after: Seat, events: seq<Protocol.Event>) {
    && |after.felt| == |before.felt| + |events| && after.felt[..|before.felt|] == before.felt
    && (forall k :: 0 <= k < |events| ==> after.felt[|before.felt| + k].event == events[k])
    && after == before.(felt := after.felt, spoken := before.spoken + TextsOf(after.felt[|before.felt|..]),
                        look := before.look.(failed := after.look.failed, overrun := after.look.overrun,
                                             outlen := after.look.outlen, writeStarted := after.look.writeStarted))
  }

  ghost predicate HeardOne(before: Seat, after: Seat, ev: Protocol.Event) {
    Heard(before, after, [ev])
  }

  /** Every connection with a controller has been given the events; the others are as they were. */
  ghost predicate Gave(before: seq<Seat>, after: seq<Seat>, events: seq<Protocol.Event>) {
    && |after| == |before|
    && forall i :: 0 <= i < |before| ==>
         if before[i].used && before[i].hasCtrl then Heard(before[i], after[i], events) else after[i] == before[i]
  }

  /** The same for one event and the first n slots. */
  ghost predicate Giving(before: seq<Seat>, after: seq<Seat>, ev: Protocol.Event, n: nat) {
    && |after| == |before|
    && forall i :: 0 <= i < |before| ==>
         if i < n && before[i].used && before[i].hasCtrl then HeardOne(before[i], after[i], ev)
         else after[i] == before[i]
  }

  lemma HeardNothing(seat: Seat)
    ensures Heard(seat, seat, [])
  {
    assert seat.felt[|seat.felt|..] == [] && seat.spoken + [] == seat.spoken;
  }

  lemma HeardMore(a: Seat, b: Seat, c: Seat, events: seq<Protocol.Event>, ev: Protocol.Event)
    requires Heard(a, b, events) && HeardOne(b, c, ev)
    ensures Heard(a, c, events + [ev])
  {
    var n, more := |a.felt|, c.felt[|b.felt|..];
    assert more == [more[0]] && more[..0] == [];
    assert c.felt == b.felt + more && c.felt[n..] == b.felt[n..] + more;
    assert c.felt[n..][..|events|] == b.felt[n..];
    assert TextsOf(more) == more[0].texts by { assert [] + more[0].texts == more[0].texts; }
    assert c.felt[n..][..|c.felt[n..]| - 1] == b.felt[n..];
    assert TextsOf(c.felt[n..]) == TextsOf(b.felt[n..]) + more[0].texts;
    Associates(a.spoken, TextsOf(b.felt[n..]), more[0].texts);
    forall k | 0 <= k < |events + [ev]|
      ensures c.felt[n + k].event == (events + [ev])[k]
    {
      if k < |events| { assert c.felt[n + k] == b.felt[n + k]; }
    }
  }

  lemma GaveNothing(seats: seq<Seat>)
    ensures Gave(seats, seats, [])
  {
    forall i | 0 <= i < |seats| ensures Heard(seats[i], seats[i], []) { HeardNothing(seats[i]); }
  }

  lemma GaveMore(a: seq<Seat>, b: seq<Seat>, c: seq<Seat>, events: seq<Protocol.Event>, ev: Protocol.Event)
    requires Gave(a, b, events) && Giving(b, c, ev, |b|)
    ensures Gave(a, c, events + [ev])
  {
    hide HeardOne;
    forall i | 0 <= i < |a| && a[i].used && a[i].hasCtrl
      ensures Heard(a[i], c[i], events + [ev])
    {
      HeardMore(a[i], b[i], c[i], events, ev);
    }
  }

  // ----- turns -----

  /** Each of these slots has had its turn, on its own events: before and after are the slots at the start
      of the turns and now. */
  ghost predicate AllServed(slots: seq<nat>, events: seq<Revents>, before: seq<Seat>, after: seq<Seat>,
                            deeds: seq<Deeds>)
  {
    && |slots| == |events| == |deeds| && |before| == |after|
    && forall k :: 0 <= k < |slots| ==>
         slots[k] < |before| && ServedOn(before[slots[k]], events[k], deeds[k], after[slots[k]])
  }

  ghost predicate ServedOn(before: Seat, ev: Revents, did: Deeds, after: Seat) {
    && Serves(before.look, ev, did, after.used, if after.used then after.look else after.last)
    && after.shakes == before.shakes + (if did.accept.Some? then [did.accept.value] else [])
    && after.told == before.told + did.told && after.felt == before.felt
    && after.epoch == before.epoch && after.secured == before.secured
  }

  /** The other slots are as they were. */
  ghost predicate Spared(served: seq<nat>, before: seq<Seat>, after: seq<Seat>) {
    |before| == |after| && forall i: nat :: i < |before| && i !in served ==> after[i] == before[i]
  }

  lemma ServedMore(slots: seq<nat>, events: seq<Revents>, before: seq<Seat>, after: seq<Seat>, deeds: seq<Deeds>,
                   slot: nat, ev: Revents, did: Deeds, now: Seat)
    requires AllServed(slots, events, before, after, deeds) && Spared(slots, before, after)
    requires slot < |before| && slot !in slots && ServedOn(after[slot], ev, did, now)
    ensures var later := after[slot := now];
            && AllServed(slots + [slot], events + [ev], before, later, deeds + [did])
            && Spared(slots + [slot], before, later)
  {
    hide ServedOn;
    forall i: nat | i !in slots + [slot] ensures i !in slots && i != slot { assert slot in slots + [slot]; }
  }

  // ----- a round -----

  /** One round of the main loop: what poll was asked about which slots and what it reported; the socket, and
      when it was given a slot; the events of the device; how the slots stood after each; and the turns. */
  datatype Round = Round(slots: seq<nat>, masks: seq<Mask>, events: seq<Revents>, came: bool, since: Option<int>,
                         givenAt: int, given: seq<Protocol.Event>, alive: bool, seated: seq<Seat>, mid: seq<Seat>,
                         deeds: seq<Deeds>)

  /** What a round does to the slots. */
  ghost predicate Rounded(before: seq<Seat>, after: seq<Seat>, r: Round, running: bool) {
    && |r.masks| == |r.events| == 2 + |r.slots|
    && (if r.events[0].input then Took(before, r.seated, r.came, r.since) else r.seated == before)
    && (if r.events[1].input then Gave(r.seated, r.mid, r.given) else r.mid == r.seated)
    && (running <==> !r.events[1].input || r.alive)
    && (if running then AllServed(r.slots, r.events[2..], r.mid, after, r.deeds) && Spared(r.slots, r.mid, after)
        else after == r.mid && r.deeds == [])
  }

  function Ticks(deeds: seq<Deeds>): seq<Happening> {
    if deeds == [] then [] else Ticks(deeds[..|deeds| - 1]) + [Ticked(deeds[|deeds| - 1].now)]
  }

  /** What a round asked the world, behind poll, and was answered. */
  function Arrivals(r: Round): seq<Happening>
    requires |r.events| >= 2
  {
    (if r.events[0].input then [Socket(r.came)] + (if r.since.Some? then [Ticked(r.since.value)] else []) else [])
    + (if r.events[1].input then [Ticked(r.givenAt), Device(r.given, r.alive)] else [])
  }

  class Server {
    const clients: seq<Client>
    /** What the outside world has answered so far. */
    ghost var trace: seq<Happening>

    /** The buffers and the records of the slots. */
    ghost function Buffers(): set<object> {
      (set c: Client | c in clients :: c.inbuf as object) + (set c: Client | c in clients :: c.outbuf as object)
      + (set c: Client | c in clients :: c.msgbuf as object) + (set c: Client | c in clients :: c.tape as object)
    }

    lemma NotMine()
      ensures this as object !in Buffers() && forall o: object :: o in Buffers() ==> allocated(o)
    {
    }

    lemma BuffersOf()
      ensures forall c: Client :: c in clients ==>
                c.inbuf in Buffers() && c.outbuf in Buffers() && c.msgbuf in Buffers() && c.tape in Buffers()
    {
    }

    // The outside world, with any answer it may give.

    /** poll itself: whatever it reports, it is only ever asked about descriptors that wait for something. */
    method Poll(masks: seq<Mask>) returns (events: seq<Revents>)
      requires forall k :: 0 <= k < |masks| ==> masks[k].input || masks[k].output
      modifies this`trace
      ensures |events| == |masks| && trace == old(trace) + [Polled(masks, events)]
    {
      events := [];
      while |events| < |masks|
        invariant |events| <= |masks|
      {
        var r: Revents := *;
        events := events + [r];
      }
      trace := trace + [Polled(masks, events)];
    }

    method Clock() returns (now: int)
      modifies this`trace
      ensures trace == old(trace) + [Ticked(now)]
    {
      now := *;
      trace := trace + [Ticked(now)];
    }

    method NewSocket() returns (came: bool)
      modifies this`trace
      ensures trace == old(trace) + [Socket(came)]
    {
      came := *;
      trace := trace + [Socket(came)];
    }

    method ReadDevice() returns (given: seq<Protocol.Event>, alive: bool)
      modifies this`trace
      ensures trace == old(trace) + [Device(given, alive)]
    {
      given, alive := *, *;
      trace := trace + [Device(given, alive)];
    }

    /** Eight slots that share nothing. */
    ghost predicate Table() {
      && |clients| == MAX_CLIENTS
      && forall i, j :: 0 <= i < j < |clients| ==> Apart(clients[i], clients[j])
    }

    ghost predicate AllReady()
      reads clients, Buffers()
    {
      forall i :: 0 <= i < |clients| ==> clients[i].Ready()
    }

    /** Enough to close every connection. */
    ghost predicate Closable()
      reads clients, Buffers()
    {
      forall i :: 0 <= i < |clients| ==> clients[i].Shape() && (!clients[i].used ==> clients[i].Ready())
    }

    /** The slots asked about, in order: exactly those in use. */
    ghost predicate Lists(slots: seq<nat>, upto: nat)
      reads clients
      requires upto <= |clients|
    {
      && (forall k :: 0 <= k < |slots| ==> slots[k] < upto && clients[slots[k]].used)
      && (forall j, k :: 0 <= j < k < |slots| ==> slots[j] < slots[k])
      && (forall i :: 0 <= i < upto && clients[i].used ==> i in slots)
    }

    /** What poll is asked about those slots. */
    ghost predicate Asks(slots: seq<nat>, masks: seq<Mask>)
      reads clients
    {
      && |masks| == |slots|
      && forall k :: 0 <= k < |slots| ==> slots[k] < |clients| && masks[k] == clients[slots[k]].Interest()
    }

    lemma NothingListed()
      ensures Lists([], 0) && Asks([], [])
    {
    }

    /** One more slot looked at. */
    lemma ListsMore(slots: seq<nat>, masks: seq<Mask>, i: nat)
      requires i < |clients| && Lists(slots, i) && Asks(slots, masks)
      ensures if clients[i].used then Lists(slots + [i], i + 1) && Asks(slots + [i], masks + [clients[i].Interest()])
              else Lists(slots, i + 1)
    {
    }

    /** A slot during one turn of the loop. While it waits to be served it holds the connection that was
        polled. Otherwise it is ready for the next poll, and what it holds is the connection that was
        polled or, in the first slot that was free, one just accepted. */
    ghost predicate Stands(i: nat, waiting: bool, polled: seq<nat>, epoch: nat)
      requires i < |clients|
      reads clients[i], clients[i].inbuf, clients[i].outbuf, clients[i].msgbuf
    {
      var c := clients[i];
      if waiting then c.used && c.Valid() && c.epoch == epoch
      else c.Ready() && (c.used ==> if i in polled then c.epoch == epoch
                                    else c.epoch == epoch + 1 && c.phase == Handshake && !c.hasCtrl && c.calls == []
                                         && forall j: nat :: j < i ==> j in polled)
    }

    ghost function Epochs(n: nat): (e: seq<nat>)
      requires n <= |clients|
      reads clients
      ensures |e| == n && forall i :: 0 <= i < n ==> e[i] == clients[i].epoch
    {
      if n == 0 then [] else Epochs(n - 1) + [clients[n - 1].epoch]
    }

    ghost function Seats(n: nat): (e: seq<Seat>)
      requires n <= |clients|
      reads clients, Buffers()
      ensures |e| == n && forall i :: 0 <= i < n ==> e[i] == SeatOf(clients[i])
    {
      if n == 0 then [] else Seats(n - 1) + [SeatOf(clients[n - 1])]
    }

    /** Which slots are in use. */
    ghost function Live(n: nat): (e: seq<bool>)
      requires n <= |clients|
      reads clients
      ensures |e| == n && forall i :: 0 <= i < n ==> e[i] == clients[i].used
    {
      if n == 0 then [] else Live(n - 1) + [clients[n - 1].used]
    }

    /** Afterwards a slot holds the connection it held before, unless that was closed, or, in the first slot
        that was free, one just accepted and not yet served. */
    ghost predicate Continued(live: seq<bool>, epochs: seq<nat>)
      requires |live| == |epochs| == |clients|
      reads clients
    {
      forall i :: 0 <= i < |clients| && clients[i].used ==>
        var c := clients[i];
        if live[i] then c.epoch == epochs[i]
        else c.epoch == epochs[i] + 1 && c.phase == Handshake && c.calls == [] && forall j :: 0 <= j < i ==> live[j]
    }

    ghost predicate AllStand(waiting: seq<nat>, polled: seq<nat>, epochs: seq<nat>)
      requires |epochs| == |clients|
      reads clients, Buffers()
    {
      forall i :: 0 <= i < |clients| ==> Stands(i, i in waiting, polled, epochs[i])
    }

    constructor (env: Session.Env)
      ensures Table() && AllReady() && fresh(clients) && fresh(Buffers()) && trace == []
      ensures forall i :: 0 <= i < |clients| ==> !clients[i].used
    {
      hide Client.Ready;
      var cs: seq<Client> := [];
      while |cs| < MAX_CLIENTS
        invariant |cs| <= MAX_CLIENTS && fresh(cs)
        invariant forall i :: 0 <= i < |cs| ==> cs[i].Ready() && !cs[i].used
        invariant forall i :: 0 <= i < |cs| ==> fresh(cs[i].inbuf) && fresh(cs[i].outbuf) && fresh(cs[i].msgbuf)
        invariant forall i :: 0 <= i < |cs| ==> fresh(cs[i].tape)
        invariant forall i, j :: 0 <= i < j < |cs| ==> Apart(cs[i], cs[j])
      {
        var c := new Client(env);
        cs := cs + [c];
      }
      clients, trace := cs, [];
    }

    static method AddSlot(pfds: array<Mask>, clientIdx: array<nat>, nfds: nat, mask: Mask, i: nat)
      requires 2 <= nfds < pfds.Length && nfds < clientIdx.Length
      modifies pfds, clientIdx
      ensures pfds[..2] == old(pfds[..2]) && pfds[2..nfds + 1] == old(pfds[2..nfds]) + [mask]
      ensures clientIdx[2..nfds + 1] == old(clientIdx[2..nfds]) + [i]
    {
      pfds[nfds], clientIdx[nfds] := mask, i;
    }

    /** Adds slot i to the poll set, if it is in use. */
    method AddClient(pfds: array<Mask>, clientIdx: array<nat>, nfds: nat, i: nat) returns (n: nat)
      requires i < |clients| && 2 <= nfds < pfds.Length && nfds < clientIdx.Length
      requires Lists(clientIdx[2..nfds], i) && Asks(clientIdx[2..nfds], pfds[2..nfds])
      modifies pfds, clientIdx
      ensures nfds <= n <= nfds + 1 && pfds[..2] == old(pfds[..2])
      ensures Lists(clientIdx[2..n], i + 1) && Asks(clientIdx[2..n], pfds[2..n])
    {
      hide Client.Interest;
      hide Lists;
      hide Asks;
      ListsMore(clientIdx[2..nfds], pfds[2..nfds], i);
      n := nfds;
      if clients[i].used {
        AddSlot(pfds, clientIdx, nfds, clients[i].Interest(), i);
        n := nfds + 1;
      }
    }

    /** Builds the poll set: the listener, the device, then every connection. */
    method PollSet(pfds: array<Mask>, clientIdx: array<nat>) returns (nfds: nat)
      requires Table() && pfds.Length == clientIdx.Length == 2 + MAX_CLIENTS
      modifies pfds, clientIdx
      ensures 2 <= nfds <= 2 + MAX_CLIENTS && pfds[..2] == [Mask(true, false), Mask(true, false)]
      ensures Lists(clientIdx[2..nfds], |clients|) && Asks(clientIdx[2..nfds], pfds[2..nfds])
    {
      hide Apart;
      hide Lists;
      hide Asks;
      pfds[0], pfds[1], nfds := Mask(true, false), Mask(true, false), 2;
      NothingListed();
      assert clientIdx[2..nfds] == [] && pfds[2..nfds] == [];
      for i := 0 to MAX_CLIENTS
        invariant 2 <= nfds <= 2 + i && pfds[..2] == [Mask(true, false), Mask(true, false)]
        invariant Lists(clientIdx[2..nfds], i) && Asks(clientIdx[2..nfds], pfds[2..nfds])
      {
        nfds := AddClient(pfds, clientIdx, nfds, i);
      }
    }

    /** The first slot that is not in use, or 8. */
    method FindFreeSlot() returns (slot: nat)
      requires Table()
      ensures slot <= MAX_CLIENTS && (slot < MAX_CLIENTS ==> !clients[slot].used)
      ensures forall i :: 0 <= i < slot ==> clients[i].used
    {
      slot := 0;
      while slot < MAX_CLIENTS && clients[slot].used
        invariant slot <= MAX_CLIENTS
        invariant forall i :: 0 <= i < slot ==> clients[i].used
      {
        slot := slot + 1;
      }
    }

    /** Takes a new socket, if there is one, into the first free slot, or turns it away when there is none. */
    method Accept(ghost polled: seq<nat>, ghost epochs: seq<nat>) returns (ghost came: bool, ghost since: Option<int>)
      requires Table() && |epochs| == |clients| && Lists(polled, |clients|)
      requires AllReady() && forall i :: 0 <= i < |clients| ==> clients[i].epoch == epochs[i]
      modifies clients, Buffers(), this`trace
      ensures AllStand(polled, polled, epochs)
      ensures Took(old(Seats(|clients|)), Seats(|clients|), came, since)
      ensures trace == old(trace) + [Socket(came)] + (if since.Some? then [Ticked(since.value)] else [])
    {
      hide Buffers;
      BuffersOf();
      hide Client.Valid;
      hide Client.Ready;
      hide Client.Look;
      hide Seats;
      AllPolled(polled, epochs);
      ghost var before := Seats(|clients|);
      var socket := NewSocket();
      came, since := socket, None;
      if socket {
        var slot := FindFreeSlot();
        if slot < MAX_CLIENTS {
          var now := Clock();
          since := Some(now);
          OpenSlot(slot, now);
          assert IsFirstFree(before, slot);
        }
      }
    }

    method OpenSlot(slot: nat, now: int)
      requires Table() && slot < |clients| && clients[slot].Ready() && !clients[slot].used
      modifies clients[slot], clients[slot].inbuf, clients[slot].outbuf, clients[slot].msgbuf, clients[slot].tape
      ensures clients[slot].Ready() && Seated(old(SeatOf(clients[slot])), SeatOf(clients[slot]), now)
      ensures clients[slot].used ==> clients[slot].phase == Handshake && clients[slot].calls == []
    {
      hide Client.Valid;
      hide Client.Ready;
      clients[slot].Open(now);
    }

    lemma AllPolled(polled: seq<nat>, epochs: seq<nat>)
      requires |epochs| == |clients| && Lists(polled, |clients|)
      requires AllReady() && forall i :: 0 <= i < |clients| ==> clients[i].epoch == epochs[i]
      ensures AllStand(polled, polled, epochs)
    {
    }

    predicate Listening(i: nat)
      requires i < |clients|
      reads clients[i]
    {
      clients[i].used && clients[i].hasCtrl
    }

    /** Nothing of the slot has changed. */
    twostate predicate Still(i: nat)
      requires i < |clients|
      reads clients[i], clients[i].inbuf, clients[i].outbuf, clients[i].msgbuf, clients[i].tape
    {
      unchanged(clients[i], clients[i].inbuf, clients[i].outbuf, clients[i].msgbuf, clients[i].tape)
    }

    /** Hands every device event that is waiting to the controller of every connection; false when the
        device is lost. No other slot is touched, and the library is not called. */
    method DeviceEvents(ghost polled: seq<nat>, ghost epochs: seq<nat>)
      returns (running: bool, ghost now: int, ghost given: seq<Protocol.Event>)
      requires Table() && |epochs| == |clients| && AllStand(polled, polled, epochs)
      modifies clients, Buffers(), this`trace
      ensures AllStand(polled, polled, epochs)
      ensures Gave(old(Seats(|clients|)), Seats(|clients|), given)
      ensures trace == old(trace) + [Ticked(now), Device(given, running)]
      ensures forall j :: 0 <= j < |clients| && !old(Listening(j)) ==> Still(j)
    {
      hide Buffers;
      NotMine();
      hide AllStand;
      hide Seats;
      hide Gave;
      hide Giving;
      ghost var before := Seats(|clients|);
      var time := Clock();
      var events, alive := ReadDevice();
      GaveNothing(before);
      assert trace == old(trace) + [Ticked(time), Device(events, alive)];
      for n := 0 to |events|
        invariant AllStand(polled, polled, epochs) && trace == old(trace) + [Ticked(time), Device(events, alive)]
        invariant Gave(before, Seats(|clients|), events[..n])
        invariant forall j :: 0 <= j < |clients| ==> Listening(j) == old(Listening(j))
        invariant forall j :: 0 <= j < |clients| && !old(Listening(j)) ==> Still(j)
      {
        ghost var mid := Seats(|clients|);
        NotifyAll(events[n], time, polled, epochs);
        GaveMore(before, mid, Seats(|clients|), events[..n], events[n]);
        assert events[..n + 1] == events[..n] + [events[n]];
      }
      assert events[..|events|] == events;
      running, now, given := alive, time, events;
    }

    /** One event, to every connection. */
    method NotifyAll(ev: Protocol.Event, now: int, ghost polled: seq<nat>, ghost epochs: seq<nat>)
      requires Table() && |epochs| == |clients| && AllStand(polled, polled, epochs)
      modifies clients, Buffers()
      ensures AllStand(polled, polled, epochs)
      ensures Giving(old(Seats(|clients|)), Seats(|clients|), ev, |clients|)
      ensures forall j :: 0 <= j < |clients| ==> Listening(j) == old(Listening(j))
      ensures forall j :: 0 <= j < |clients| && !old(Listening(j)) ==> Still(j)
    {
      hide Buffers;
      hide AllStand;
      hide Seats;
      hide HeardOne;
      for i := 0 to MAX_CLIENTS
        invariant AllStand(polled, polled, epochs)
        invariant Giving(old(Seats(|clients|)), Seats(|clients|), ev, i)
        invariant forall j :: 0 <= j < |clients| ==> Listening(j) == old(Listening(j))
        invariant forall j :: 0 <= j < |clients| && !old(Listening(j)) ==> Still(j)
      {
        NotifyOne(i, ev, now, polled, epochs);
      }
    }

    method NotifyOne(i: nat, ev: Protocol.Event, now: int, ghost polled: seq<nat>, ghost epochs: seq<nat>)
      requires Table() && |epochs| == |clients| && AllStand(polled, polled, epochs) && i < |clients|
      modifies clients, Buffers()
      ensures AllStand(polled, polled, epochs)
      ensures Seats(|clients|) == old(Seats(|clients|))[i := Seats(|clients|)[i]]
      ensures old(Listening(i)) ==> HeardOne(old(Seats(|clients|))[i], Seats(|clients|)[i], ev)
      ensures Listening(i) == old(Listening(i))
      ensures forall j :: 0 <= j < |clients| && (j != i || !old(Listening(j))) ==> Still(j)
    {
      hide Buffers;
      BuffersOf();
      hide Client.Valid;
      hide Seats;
      hide HeardOne;
      hide SeatOf;
      var c := clients[i];
      if c.used && c.hasCtrl {
        assert Stands(i, i in polled, polled, epochs[i]);
        Notify(c, ev, now);
      }
    }

    static method Notify(c: Client, ev: Protocol.Event, now: int)
      requires c.Valid() && c.hasCtrl
      modifies c`failed, c`overrun, c`writeStarted, c`outlen, c`items, c`spoken, c.tape`felt, c.outbuf
      ensures c.Valid() && HeardOne(old(SeatOf(c)), SeatOf(c), ev)
    {
      hide Client.Valid;
      c.DeviceEvent(ev, now);
      OneHeard(old(c.tape.felt), c.tape.felt[|old(c.tape.felt)|]);
    }

    static lemma OneHeard(felt: seq<Felt>, did: Felt)
      ensures (felt + [did])[|felt|..] == [did] && TextsOf([did]) == did.texts
    {
      assert [did][..0] == [] && [] + did.texts == did.texts;
    }

    /** Serves the connections that were polled, each with its own events. */
    method ServeAll(host: Host, clientIdx: seq<nat>, revents: seq<Revents>, ghost epochs: seq<nat>)
      returns (ghost deeds: seq<Deeds>)
      requires Table() && |epochs| == |clients| && 2 <= |clientIdx| == |revents|
      requires NoRepeats(clientIdx[2..]) && AllStand(clientIdx[2..], clientIdx[2..], epochs)
      modifies clients, Buffers(), this`trace
      ensures AllStand([], clientIdx[2..], epochs)
      ensures AllServed(clientIdx[2..], revents[2..], old(Seats(|clients|)), Seats(|clients|), deeds)
      ensures Spared(clientIdx[2..], old(Seats(|clients|)), Seats(|clients|))
      ensures trace == old(trace) + Ticks(deeds)
    {
      hide Buffers;
      NotMine();
      hide InProgress;
      hide Seats;
      deeds := [];
      ghost var before := Seats(|clients|);
      StartsInProgress(clientIdx, revents, epochs);
      for k := 2 to |revents|
        invariant InProgress(k, clientIdx, revents, epochs, before, deeds)
        invariant trace == old(trace) + Ticks(deeds)
      {
        ghost var did := ServeNext(host, k, clientIdx, revents, epochs, before, deeds);
        TicksSnoc(deeds, did);
        deeds := deeds + [did];
      }
      EndsInProgress(clientIdx, revents, epochs, before, deeds);
    }

    /** Of the slots polled, those before position k have been served. */
    ghost predicate InProgress(k: nat, clientIdx: seq<nat>, revents: seq<Revents>, epochs: seq<nat>, before: seq<Seat>,
                               deeds: seq<Deeds>)
      requires 2 <= k <= |clientIdx| == |revents| && |epochs| == |clients|
      reads clients, Buffers()
    {
      && NoRepeats(clientIdx[2..]) && AllStand(clientIdx[k..], clientIdx[2..], epochs)
      && Spared(clientIdx[2..k], before, Seats(|clients|))
      && AllServed(clientIdx[2..k], revents[2..k], before, Seats(|clients|), deeds)
    }

    lemma StartsInProgress(clientIdx: seq<nat>, revents: seq<Revents>, epochs: seq<nat>)
      requires 2 <= |clientIdx| == |revents| && |epochs| == |clients|
      requires NoRepeats(clientIdx[2..]) && AllStand(clientIdx[2..], clientIdx[2..], epochs)
      ensures InProgress(2, clientIdx, revents, epochs, Seats(|clients|), [])
    {
      hide AllStand;
      NoneServed(Seats(|clients|));
      assert clientIdx[2..2] == [] && revents[2..2] == [];
    }

    lemma EndsInProgress(clientIdx: seq<nat>, revents: seq<Revents>, epochs: seq<nat>, before: seq<Seat>,
                         deeds: seq<Deeds>)
      requires 2 <= |clientIdx| == |revents| && |epochs| == |clients|
      requires InProgress(|revents|, clientIdx, revents, epochs, before, deeds)
      ensures AllStand([], clientIdx[2..], epochs)
      ensures AllServed(clientIdx[2..], revents[2..], before, Seats(|clients|), deeds)
      ensures Spared(clientIdx[2..], before, Seats(|clients|))
    {
      hide AllStand;
      hide AllServed;
      hide Spared;
      assert clientIdx[|revents|..] == [];
      assert clientIdx[2..|revents|] == clientIdx[2..] && revents[2..|revents|] == revents[2..];
    }

    /** The turn of the k-th entry of the poll set. */
    method ServeNext(host: Host, k: nat, clientIdx: seq<nat>, revents: seq<Revents>, ghost epochs: seq<nat>,
                     ghost before: seq<Seat>, ghost deeds: seq<Deeds>)
      returns (ghost did: Deeds)
      requires Table() && 2 <= k < |clientIdx| == |revents| && |epochs| == |clients|
      requires InProgress(k, clientIdx, revents, epochs, before, deeds)
      modifies clients, Buffers(), this`trace
      ensures InProgress(k + 1, clientIdx, revents, epochs, before, deeds + [did])
      ensures trace == old(trace) + [Ticked(did.now)]
    {
      hide Buffers;
      hide AllStand;
      hide AllServed;
      hide Spared;
      hide NoRepeats;
      hide Seats;
      hide ServedOn;
      NextSlot(clientIdx, k);
      ghost var after := Seats(|clients|);
      did := ServeOne(host, clientIdx[k], revents[k], clientIdx[k..], clientIdx[2..], epochs);
      SparedLength(clientIdx[2..k], before, after);
      ServedMore(clientIdx[2..k], revents[2..k], before, after, deeds, clientIdx[k], revents[k], did,
                 Seats(|clients|)[clientIdx[k]]);
      assert clientIdx[2..k + 1] == clientIdx[2..k] + [clientIdx[k]];
      assert revents[2..k + 1] == revents[2..k] + [revents[k]];
    }

    lemma SparedLength(served: seq<nat>, before: seq<Seat>, after: seq<Seat>)
      requires Spared(served, before, after)
      ensures |before| == |after|
    {
    }

    lemma NoneServed(seats: seq<Seat>)
      ensures Spared([], seats, seats) && AllServed([], [], seats, seats, [])
    {
    }

    static lemma TicksSnoc(deeds: seq<Deeds>, did: Deeds)
      ensures Ticks(deeds + [did]) == Ticks(deeds) + [Ticked(did.now)]
    {
      assert (deeds + [did])[..|deeds|] == deeds;
    }

    ghost predicate NoRepeats(slots: seq<nat>) {
      && (forall k :: 0 <= k < |slots| ==> slots[k] < |clients|)
      && (forall j, k :: 0 <= j < k < |slots| ==> slots[j] != slots[k])
    }

    lemma NextSlot(clientIdx: seq<nat>, k: nat)
      requires 2 <= k < |clientIdx| && NoRepeats(clientIdx[2..])
      ensures NoRepeats(clientIdx[k..]) && clientIdx[k] in clientIdx[2..] && clientIdx[k] < |clients|
      ensures clientIdx[k..] != [] && clientIdx[k..][0] == clientIdx[k] && clientIdx[k..][1..] == clientIdx[k + 1..]
      ensures clientIdx[k] !in clientIdx[2..k] && clientIdx[k] !in clientIdx[k + 1..]
    {
      assert forall j :: 2 <= j < |clientIdx| ==> clientIdx[j] == clientIdx[2..][j - 2];
      assert clientIdx[2..][k - 2] == clientIdx[k];
    }

    method ServeOne(host: Host, i: nat, ev: Revents,
                    ghost waiting: seq<nat>, ghost polled: seq<nat>, ghost epochs: seq<nat>)
      returns (ghost did: Deeds)
      requires Table() && |epochs| == |clients| && AllStand(waiting, polled, epochs) && NoRepeats(waiting)
      requires waiting != [] && i == waiting[0] && i in polled
      modifies clients, Buffers(), this`trace
      ensures AllStand(waiting[1..], polled, epochs)
      ensures Seats(|clients|) == old(Seats(|clients|))[i := Seats(|clients|)[i]]
      ensures ServedOn(old(Seats(|clients|))[i], ev, did, Seats(|clients|)[i])
      ensures trace == old(trace) + [Ticked(did.now)]
    {
      hide Buffers;
      BuffersOf();
      hide Client.Valid;
      hide Client.Ready;
      hide Client.Look;
      hide Serves;
      hide Seats;
      assert Stands(i, i in waiting, polled, epochs[i]);
      var c := clients[i];
      if c.used {
        var now := Clock();
        did := c.Service(host, ev, now);
      }
      assert i !in waiting[1..];
      assert forall j :: j != i ==> (j in waiting <==> j in waiting[1..]);
    }

    /** What follows poll: a new connection, device events, then every polled connection in turn. */
    method Turn(host: Host, clientIdx: seq<nat>, revents: seq<Revents>, ghost masks: seq<Mask>, ghost epochs: seq<nat>)
      returns (running: bool, ghost r: Round)
      requires Table() && AllReady() && 2 <= |clientIdx| == |revents| == |masks| && Lists(clientIdx[2..], |clients|)
      requires |epochs| == |clients| && forall i :: 0 <= i < |clients| ==> clients[i].epoch == epochs[i]
      modifies clients, Buffers(), this`trace
      ensures if running then AllStand([], clientIdx[2..], epochs) else Closable()
      ensures r.slots == clientIdx[2..] && r.masks == masks && r.events == revents
      ensures Rounded(old(Seats(|clients|)), Seats(|clients|), r, running)
      ensures trace == old(trace) + Arrivals(r) + Ticks(r.deeds)
    {
      hide Buffers;
      NotMine();
      hide AllStand;
      hide AllReady;
      hide Closable;
      hide Lists;
      hide Seats;
      hide Took;
      hide Gave;
      hide AllServed;
      hide Spared;
      ghost var polled := clientIdx[2..];
      ListsNoRepeats(polled);
      running, r := Arrive(revents, polled, epochs);
      r := r.(masks := masks);
      if running {
        ghost var deeds := ServeAll(host, clientIdx, revents, epochs);
        r := r.(deeds := deeds);
      } else {
        Shaped(polled, polled, epochs);
        assert trace + Ticks([]) == trace;
      }
    }

    lemma ListsNoRepeats(slots: seq<nat>)
      requires Lists(slots, |clients|)
      ensures NoRepeats(slots)
    {
    }

    /** The listener's and the device's part of a turn. */
    method Arrive(revents: seq<Revents>, ghost polled: seq<nat>, ghost epochs: seq<nat>)
      returns (running: bool, ghost r: Round)
      requires Table() && AllReady() && Lists(polled, |clients|) && |revents| >= 2
      requires |epochs| == |clients| && forall i :: 0 <= i < |clients| ==> clients[i].epoch == epochs[i]
      modifies clients, Buffers(), this`trace
      ensures AllStand(polled, polled, epochs)
      ensures r.slots == polled && r.events == revents && r.deeds == []
      ensures if revents[0].input then Took(old(Seats(|clients|)), r.seated, r.came, r.since)
              else r.seated == old(Seats(|clients|))
      ensures if revents[1].input then Gave(r.seated, r.mid, r.given) else r.mid == r.seated
      ensures r.mid == Seats(|clients|) && (running <==> !revents[1].input || r.alive)
      ensures trace == old(trace) + Arrivals(r)
    {
      hide Buffers;
      NotMine();
      hide AllStand;
      hide AllReady;
      hide Lists;
      hide Still;
      hide Listening;
      hide Seats;
      hide Took;
      hide Gave;
      AllPolled(polled, epochs);
      r := Round(polled, [], revents, false, None, 0, [], true, Seats(|clients|), Seats(|clients|), []);
      if revents[0].input {
        ghost var came, since := Accept(polled, epochs);
        r := r.(came := came, since := since, seated := Seats(|clients|), mid := Seats(|clients|));
      }
      running := true;
      if revents[1].input {
        ghost var now, given;
        running, now, given := DeviceEvents(polled, epochs);
        r := r.(givenAt := now, given := given, alive := running, mid := Seats(|clients|));
      }
    }

    lemma Served(polled: seq<nat>, live: seq<bool>, epochs: seq<nat>)
      requires |live| == |epochs| == |clients| && AllStand([], polled, epochs)
      requires forall i :: 0 <= i < |clients| ==> (live[i] <==> i in polled)
      ensures AllReady() && Continued(live, epochs)
    {
      hide Client.Valid;
      hide Client.Ready;
      forall i | 0 <= i < |clients|
        ensures Stands(i, false, polled, epochs[i]) && clients[i].Ready()
      {
        assert Stands(i, i in [], polled, epochs[i]);
      }
    }

    lemma Shaped(waiting: seq<nat>, polled: seq<nat>, epochs: seq<nat>)
      requires |epochs| == |clients| && AllStand(waiting, polled, epochs)
      ensures Closable()
    {
      forall i | 0 <= i < |clients|
        ensures clients[i].Shape() && (!clients[i].used ==> clients[i].Ready())
      {
        assert Stands(i, i in waiting, polled, epochs[i]);
        if i in waiting { clients[i].ShapeOfValid(); } else { clients[i].ShapeOfReady(); }
      }
    }

    lemma ReadyClosable()
      requires AllReady()
      ensures Closable()
    {
    }

    /** One round of the main loop: every slot asked about has its turn on what poll reported of it, behind the
        new connection and the device events; afterwards every slot is ready for the next poll. */
    method Iterate(host: Host) returns (running: bool, ghost r: Round)
      requires Table() && AllReady()
      modifies clients, Buffers(), this`trace
      ensures if running then AllReady() && Continued(old(Live(|clients|)), old(Epochs(|clients|))) else Closable()
      ensures |r.masks| == 2 + |r.slots| && r.masks[..2] == [Mask(true, false), Mask(true, false)]
      ensures old(Lists(r.slots, |clients|) && Asks(r.slots, r.masks[2..]))
      ensures Rounded(old(Seats(|clients|)), Seats(|clients|), r, running)
      ensures trace == old(trace) + [Polled(r.masks, r.events)] + Arrivals(r) + Ticks(r.deeds)
    {
      hide Buffers;
      NotMine();
      hide AllReady;
      hide Closable;
      hide AllStand;
      hide Continued;
      hide Lists;
      hide Asks;
      hide Seats;
      hide AllServed;
      hide Spared;
      hide Took;
      hide Gave;
      hide Arrivals;
      ghost var live, epochs := Live(|clients|), Epochs(|clients|);
      var clientIdx, revents;
      ghost var masks;
      clientIdx, revents, masks := Ask();
      ListsLive(clientIdx[2..]);
      running, r := Turn(host, clientIdx, revents, masks, epochs);
      if running {
        Served(clientIdx[2..], live, epochs);
      }
    }

    lemma ListsLive(polled: seq<nat>)
      requires Lists(polled, |clients|)
      ensures forall i :: 0 <= i < |clients| ==> (Live(|clients|)[i] <==> i in polled)
    {
    }

    /** Builds the poll set and polls. */
    method Ask() returns (clientIdx: seq<nat>, revents: seq<Revents>, ghost masks: seq<Mask>)
      requires Table() && AllReady()
      modifies this`trace
      ensures 2 <= |clientIdx| == |revents| == |masks| <= 2 + MAX_CLIENTS
      ensures masks[..2] == [Mask(true, false), Mask(true, false)]
      ensures Lists(clientIdx[2..], |clients|) && Asks(clientIdx[2..], masks[2..])
      ensures trace == old(trace) + [Polled(masks, revents)]
    {
      hide Client.Interest;
      hide Client.Ready;
      hide Lists;
      hide Asks;
      var pfds, indices := new Mask[2 + MAX_CLIENTS](_ => Mask(false, false)), new nat[2 + MAX_CLIENTS](_ => 0);
      var nfds := PollSet(pfds, indices);
      AsksForSomething(indices[2..nfds], pfds[2..nfds]);
      assert pfds[..nfds] == pfds[..2] + pfds[2..nfds] && indices[..nfds][2..] == indices[2..nfds];
      masks := pfds[..nfds];
      assert masks[2..] == pfds[2..nfds];
      revents := Poll(pfds[..nfds]);
      clientIdx := indices[..nfds];
    }

    lemma AsksForSomething(slots: seq<nat>, masks: seq<Mask>)
      requires AllReady() && Lists(slots, |clients|) && Asks(slots, masks)
      ensures forall k :: 0 <= k < |masks| ==> masks[k].input || masks[k].output
    {
    }

    /** The main loop, and the end of it: every connection is closed. */
    method Run(hosts: seq<Host>)
      requires Table() && AllReady()
      modifies clients, Buffers(), this`trace
      ensures AllReady() && forall i :: 0 <= i < |clients| ==> !clients[i].used
    {
      hide Client.Valid;
      hide Client.Ready;
      var n := 0;
      var running := true;
      while running && n < |hosts|
        invariant running ==> AllReady()
        invariant !running ==> Closable()
      {
        ghost var r;
        running, r := Iterate(hosts[n]);
        n := n + 1;
      }
      if running {
        ReadyClosable();
      }
      CloseAll();
    }

    method CloseAll()
      requires Table() && Closable()
      modifies clients, Buffers()
      ensures AllReady() && forall i :: 0 <= i < |clients| ==> !clients[i].used
    {
      hide Client.Ready;
      for i := 0 to MAX_CLIENTS
        invariant Closable()
        invariant forall j :: 0 <= j < i ==> !clients[j].used
      {
        CloseOne(i);
      }
    }

    method CloseOne(i: nat)
      requires Table() && Closable() && i < |clients|
      modifies clients, Buffers()
      ensures Closable() && !clients[i].used
      ensures forall j :: 0 <= j < |clients| && j != i ==> clients[j].used == old(clients[j].used)
    {
      hide Client.Ready;
      if clients[i].used {
        clients[i].CloseClient();
        clients[i].ShapeOfReady();
      }
    }
  }
}
