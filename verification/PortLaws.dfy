/** What the steps of a port of components/mdns/mdns_pcb.c come to: what is sent and when, what a port does that is left
    alone, what removal, closing and lack of memory leave behind, and how failed probes are counted. */
module PortLaws {
  import opened Common
  import opened TxQueue
  import opened ProbeMachine
  import opened SendTiming

  // ------------------------------------------------------------------ what is sent

  lemma ProceedSendsNothing(st: State, x: Packet, prepared: bool, e: Entry)
    requires e in Proceed(st, x, prepared).log && e.Sent?
    ensures e in st.log
  {
  }

  lemma ExecuteSends(st: State, prepared: bool, e: Entry) returns (x: Packet)
    requires Inv(st) && st.actions != [] && e in Execute(st, prepared).log && e.Sent? && e !in st.log
    ensures x in st.queue && x.id == st.actions[0] && x.sendAt < st.clock && !StateOf(st.pcbs, x.port).Off?
    ensures e == Sent(x.port, x.id, st.clock)
  {
    x := st.queue[0];
    assert x in st.queue;
    var popped := st.(actions := st.actions[1..], queue := st.queue[1..]);
    ProceedSendsNothing(Note(popped, Sent(x.port, x.id, st.clock)), x, prepared, e);
  }

  /** Whatever the step: something is sent only by executing an action, and then it is the packet of that action, which
      was due, on a port that is not off. */
  lemma SendsOnlyWhatIsDue(st: State, ev: Event, e: Entry)
    requires Inv(st) && e in Step(st, ev).log && e.Sent? && e !in st.log
    ensures ev.Action? && !StateOf(st.pcbs, e.port).Off? && e.time == st.clock
    ensures st.actions != [] && e.id == st.actions[0]
    ensures exists x :: x in st.queue && x.id == e.id && x.port == e.port && x.sendAt < st.clock
  {
    if ev.Action? {
      var x := ExecuteSends(st, ev.prepared, e);
    } else {
      StepCalm(st, ev);
    }
  }

  // ------------------------------------------------------------------ a port that is left alone

  /** The time of the first packet comes, the timer goes off and the action is executed, with memory; this n times. */
  function LeftAlone(st: State, n: nat): (q: State)
    decreases n
  {
    if n == 0 || st.queue == [] then st
    else LeftAlone(Run(st, [Wait(st.queue[0].sendAt + 1), Timer(1), Action(true)]), n - 1)
  }

  /** Nothing waits but this packet. */
  predicate IsAlone(st: State, x: Packet) {
    st.queue == [x] && !x.queued && st.actions == [] && x.sendAt >= st.clock
  }

  lemma OneRound(st: State, x: Packet, n: nat)
    requires IsAlone(st, x) && n > 0
    ensures LeftAlone(st, n) ==
            LeftAlone(Handle(st.(clock := x.sendAt + 1, queue := []), x.(queued := true), true), n - 1)
  {
    var events := [Wait(x.sendAt + 1), Timer(1), Action(true)];
    RunThree(st, events);
    var a := Step(st, events[0]);
    assert [x][1..] == [];
    var b := Step(a, events[1]);
    assert FlagDue([x], a.clock, 1) == [x.(queued := true)] + FlagDue([], a.clock, 0);
    assert DueIds([x], a.clock, 1) == [x.id] + DueIds([], a.clock, 0);
    assert b.queue == [x.(queued := true)] && b.actions == [x.id];
    assert Step(b, events[2]) == Handle(st.(clock := x.sendAt + 1, queue := []), x.(queued := true), true);
  }

  /** The state after which the packet is sent again, and how much later. */
  function Again(s: PcbState): (r: Option<(PcbState, nat)>) {
    match s
    case Probe1 => Some((Probe2, 250))
    case Probe2 => Some((Probe3, 250))
    case Announce1 => Some((Announce2, 1000))
    case Announce2 => Some((Announce3, 1000))
    case _ => None
  }

  lemma SentAgain(st: State, x: Packet, n: nat) returns (q: State, y: Packet)
    requires IsAlone(st, x) && n > 0 && Again(StateOf(st.pcbs, x.port)).Some?
    ensures LeftAlone(st, n) == LeftAlone(q, n - 1) && IsAlone(q, y) && q.next == st.next
    ensures var (s, delay) := Again(StateOf(st.pcbs, x.port)).value;
            PcbOf(q.pcbs, x.port) == PcbOf(st.pcbs, x.port).(state := s) && y == x.(sendAt := x.sendAt + 1 + delay)
    ensures q.log == st.log + [Sent(x.port, x.id, x.sendAt + 1)]
  {
    OneRound(st, x, n);
    q := Handle(st.(clock := x.sendAt + 1, queue := []), x.(queued := true), true);
    y := x.(sendAt := x.sendAt + 1 + Again(StateOf(st.pcbs, x.port)).value.1);
  }

  lemma SentLast(st: State, x: Packet, n: nat) returns (q: State)
    requires IsAlone(st, x) && n > 0 && StateOf(st.pcbs, x.port) == Announce3
    ensures LeftAlone(st, n) == LeftAlone(q, n - 1) && q.queue == []
    ensures PcbOf(q.pcbs, x.port) == PcbOf(st.pcbs, x.port).(state := Running)
    ensures q.log == st.log + [Sent(x.port, x.id, x.sendAt + 1)]
  {
    OneRound(st, x, n);
    q := Handle(st.(clock := x.sendAt + 1, queue := []), x.(queued := true), true);
  }

  lemma ProbeCompletes(st: State, x: Packet, n: nat) returns (q: State, y: Packet)
    requires IsAlone(st, x) && n > 0 && StateOf(st.pcbs, x.port) == Probe3
    ensures LeftAlone(st, n) == LeftAlone(q, n - 1) && IsAlone(q, y) && StateOf(q.pcbs, x.port) == Announce1
    ensures PcbOf(q.pcbs, x.port).ready == PcbOf(st.pcbs, x.port).ready
    ensures y == Packet(st.next, x.port, x.sendAt + 251, false)
    ensures q.log == st.log + [Sent(x.port, x.id, x.sendAt + 1), Announced(x.port, st.next, x.sendAt + 1)]
  {
    OneRound(st, x, n);
    q := Handle(st.(clock := x.sendAt + 1, queue := []), x.(queued := true), true);
    y := Packet(st.next, x.port, x.sendAt + 251, false);
    assert q.log == st.log + [Sent(x.port, x.id, x.sendAt + 1)] + [Announced(x.port, st.next, x.sendAt + 1)];
  }

  lemma TwoAnnouncements(st: State, x: Packet) returns (q: State, y: Packet)
    requires IsAlone(st, x) && StateOf(st.pcbs, x.port) == Announce1
    ensures LeftAlone(st, 3) == LeftAlone(q, 1) && IsAlone(q, y) && y == x.(sendAt := x.sendAt + 2002)
    ensures PcbOf(q.pcbs, x.port) == PcbOf(st.pcbs, x.port).(state := Announce3)
    ensures q.log == st.log + [Sent(x.port, x.id, x.sendAt + 1)] + [Sent(x.port, x.id, x.sendAt + 1002)]
  {
    var a, z := SentAgain(st, x, 3);
    q, y := SentAgain(a, z, 2);
  }

  /** A port that announces and is left alone sends its announcement three times, one second apart, and then runs. */
  lemma ThreeAnnouncements(st: State, x: Packet)
    requires IsAlone(st, x) && StateOf(st.pcbs, x.port) == Announce1
    ensures var q, t := LeftAlone(st, 3), x.sendAt + 1;
            && q.queue == [] && PcbOf(q.pcbs, x.port) == PcbOf(st.pcbs, x.port).(state := Running)
            && q.log == st.log + [Sent(x.port, x.id, t), Sent(x.port, x.id, t + 1001), Sent(x.port, x.id, t + 2002)]
  {
    var a, y := TwoAnnouncements(st, x);
    var q := SentLast(a, y, 1);
    var t := x.sendAt + 1;
    assert q.log == st.log + [Sent(x.port, x.id, t)] + [Sent(x.port, x.id, t + 1001)] + [Sent(x.port, x.id, t + 2002)];
  }

  // Two packets for one port: each counts as an announcement when it is sent.

  predicate AreTwo(st: State, y: Packet, x: Packet) {
    && st.queue == [y, x] && !y.queued && !x.queued && st.actions == []
    && st.clock <= y.sendAt <= x.sendAt && y.port == x.port
  }

  lemma RoundOfTwo(st: State, y: Packet, x: Packet, n: nat)
    requires AreTwo(st, y, x) && n > 0
    ensures LeftAlone(st, n) ==
            LeftAlone(Handle(st.(clock := y.sendAt + 1, queue := [x]), y.(queued := true), true), n - 1)
  {
    var events := [Wait(y.sendAt + 1), Timer(1), Action(true)];
    RunThree(st, events);
    var a := Step(st, events[0]);
    assert [y, x][1..] == [x];
    var b := Step(a, events[1]);
    assert FlagDue([y, x], a.clock, 1) == [y.(queued := true)] + FlagDue([x], a.clock, 0);
    assert DueIds([y, x], a.clock, 1) == [y.id] + DueIds([x], a.clock, 0);
    assert b.queue == [y.(queued := true), x] && b.actions == [y.id];
    assert Step(b, events[2]) == Handle(st.(clock := y.sendAt + 1, queue := [x]), y.(queued := true), true);
  }

  lemma TwoSentAgain(st: State, y: Packet, x: Packet, n: nat) returns (q: State, z: Packet)
    requires AreTwo(st, y, x) && n > 0 && x.sendAt <= y.sendAt + 1001
    requires StateOf(st.pcbs, y.port) == Announce1 || StateOf(st.pcbs, y.port) == Announce2
    ensures LeftAlone(st, n) == LeftAlone(q, n - 1) && z == y.(sendAt := y.sendAt + 1001)
    ensures q.queue == [x, z] && q.actions == [] && q.clock == y.sendAt + 1
    ensures StateOf(q.pcbs, y.port) == if StateOf(st.pcbs, y.port) == Announce1 then Announce2 else Announce3
    ensures q.log == st.log + [Sent(y.port, y.id, y.sendAt + 1)]
  {
    RoundOfTwo(st, y, x, n);
    q := Handle(st.(clock := y.sendAt + 1, queue := [x]), y.(queued := true), true);
    z := y.(sendAt := y.sendAt + 1001);
    assert [x][1..] == [];
    assert Insert([x], z) == [x] + Insert([], z);
  }

  lemma TwoSentLast(st: State, y: Packet, x: Packet, n: nat) returns (q: State)
    requires AreTwo(st, y, x) && y.sendAt < x.sendAt && n > 0 && StateOf(st.pcbs, y.port) == Announce3
    ensures LeftAlone(st, n) == LeftAlone(q, n - 1) && IsAlone(q, x) && StateOf(q.pcbs, y.port) == Running
    ensures q.log == st.log + [Sent(y.port, y.id, y.sendAt + 1)]
  {
    RoundOfTwo(st, y, x, n);
    q := Handle(st.(clock := y.sendAt + 1, queue := [x]), y.(queued := true), true);
  }

  lemma SentWhileRunning(st: State, x: Packet, n: nat) returns (q: State)
    requires IsAlone(st, x) && n > 0 && StateOf(st.pcbs, x.port) == Running
    ensures LeftAlone(st, n) == LeftAlone(q, n - 1) && q.queue == [] && StateOf(q.pcbs, x.port) == Running
    ensures q.log == st.log + [Sent(x.port, x.id, x.sendAt + 1)]
  {
    OneRound(st, x, n);
    q := Handle(st.(clock := x.sendAt + 1, queue := []), x.(queued := true), true);
  }

  lemma BothSentOnce(st: State, y: Packet, x: Packet) returns (q: State, z: Packet, w: Packet)
    requires AreTwo(st, y, x) && y.sendAt < x.sendAt <= y.sendAt + 1000 && StateOf(st.pcbs, y.port) == Announce1
    ensures LeftAlone(st, 4) == LeftAlone(q, 2) && AreTwo(q, z, w) && StateOf(q.pcbs, y.port) == Announce3
    ensures z == y.(sendAt := y.sendAt + 1001) && w == x.(sendAt := x.sendAt + 1001)
    ensures q.log == st.log + [Sent(y.port, y.id, y.sendAt + 1)] + [Sent(x.port, x.id, x.sendAt + 1)]
  {
    var a;
    a, z := TwoSentAgain(st, y, x, 4);
    q, w := TwoSentAgain(a, x, z, 3);
  }

  lemma BothSentLast(st: State, y: Packet, x: Packet) returns (q: State)
    requires AreTwo(st, y, x) && y.sendAt < x.sendAt && StateOf(st.pcbs, y.port) == Announce3
    ensures LeftAlone(st, 2) == q && q.queue == [] && StateOf(q.pcbs, y.port) == Running
    ensures q.log == st.log + [Sent(y.port, y.id, y.sendAt + 1)] + [Sent(x.port, x.id, x.sendAt + 1)]
  {
    var a := TwoSentLast(st, y, x, 2);
    q := SentWhileRunning(a, x, 1);
  }

  /** A reply that is due before the announcement, within a second, is taken for one: both are sent twice, and the
      announcement is not sent a third time. */
  lemma AnnouncementIsCut(st: State, y: Packet, x: Packet)
    requires AreTwo(st, y, x) && y.sendAt < x.sendAt <= y.sendAt + 1000 && StateOf(st.pcbs, y.port) == Announce1
    ensures var q, port, s, t := LeftAlone(st, 4), x.port, y.sendAt + 1, x.sendAt + 1;
            && q.queue == [] && StateOf(q.pcbs, port) == Running
            && q.log == st.log + [Sent(port, y.id, s), Sent(port, x.id, t),
                                  Sent(port, y.id, s + 1001), Sent(port, x.id, t + 1001)]
  {
    var a, z, w := BothSentOnce(st, y, x);
    var q := BothSentLast(a, z, w);
  }

  lemma TwoProbes(st: State, x: Packet) returns (q: State, y: Packet)
    requires IsAlone(st, x) && StateOf(st.pcbs, x.port) == Probe1
    ensures LeftAlone(st, 6) == LeftAlone(q, 4) && IsAlone(q, y) && y == x.(sendAt := x.sendAt + 502)
    ensures PcbOf(q.pcbs, x.port) == PcbOf(st.pcbs, x.port).(state := Probe3) && q.next == st.next
    ensures q.log == st.log + [Sent(x.port, x.id, x.sendAt + 1)] + [Sent(x.port, x.id, x.sendAt + 252)]
  {
    var a, z := SentAgain(st, x, 6);
    q, y := SentAgain(a, z, 5);
  }

  lemma ThreeProbes(st: State, x: Packet) returns (q: State, y: Packet)
    requires IsAlone(st, x) && StateOf(st.pcbs, x.port) == Probe1
    ensures LeftAlone(st, 6) == LeftAlone(q, 3) && IsAlone(q, y) && StateOf(q.pcbs, x.port) == Announce1
    ensures y == Packet(st.next, x.port, x.sendAt + 753, false)
    ensures PcbOf(q.pcbs, x.port).ready == PcbOf(st.pcbs, x.port).ready
    ensures var t, port := x.sendAt + 1, x.port;
            q.log == st.log + [Sent(port, x.id, t), Sent(port, x.id, t + 251), Sent(port, x.id, t + 502),
                               Announced(port, st.next, t + 502)]
  {
    var a, z := TwoProbes(st, x);
    q, y := ProbeCompletes(a, z, 4);
    var t, port := x.sendAt + 1, x.port;
    assert q.log == st.log + [Sent(port, x.id, t)] + [Sent(port, x.id, t + 251)]
                    + [Sent(port, x.id, t + 502), Announced(port, st.next, t + 502)];
  }

  /** A port that probes and is left alone sends its probe three times, 250 ms apart, then its announcement three times,
      the first one 250 ms later and then one second apart, and then runs. */
  lemma ComesUp(st: State, x: Packet)
    requires IsAlone(st, x) && StateOf(st.pcbs, x.port) == Probe1
    ensures var q, t, port := LeftAlone(st, 6), x.sendAt + 1, x.port;
            && q.queue == [] && StateOf(q.pcbs, port) == Running
            && PcbOf(q.pcbs, port).ready == PcbOf(st.pcbs, port).ready
            && q.log == st.log
                        + [Sent(port, x.id, t), Sent(port, x.id, t + 251), Sent(port, x.id, t + 502),
                           Announced(port, st.next, t + 502)]
                        + [Sent(port, st.next, t + 753), Sent(port, st.next, t + 1754), Sent(port, st.next, t + 2755)]
  {
    var a, y := ThreeProbes(st, x);
    ThreeAnnouncements(a, y);
  }

  /** So a port that is opened while nothing else waits, with memory and a name for the host, comes to run. */
  lemma OpenedComesUp(st: State, port: nat, services: seq<nat>, chance: nat)
    requires st.named && st.queue == [] && st.actions == [] && port < st.size
    ensures var q := LeftAlone(Step(st, Enabling(port, true, services, Enough(chance))), 6);
            q.queue == [] && PcbOf(q.pcbs, port).ready && StateOf(q.pcbs, port) == Running
  {
    var a := Note(SetPcb(st, port, PcbOf(st.pcbs, port).(ready := true)), Opened(port));
    var q := Restart(a, port, services, true, Enough(chance));
    ProbeScheduled(a, port, services, true, chance);
    var x := Packet(st.next, port, st.clock + ProbeDelay(PcbOf(a.pcbs, port).failed, chance), false);
    assert Clear([], port) == [];
    assert q.queue == [x];
    ComesUp(q, x);
  }

  /** An announcement of a port that is not probing: it starts over while one is waiting, and starts again from Running;
      nothing that waits is lost or delayed. */
  lemma AnnouncesAgain(st: State, port: nat, services: seq<nat>, ip: bool, memory: Memory, prepared: bool)
    requires PcbOf(st.pcbs, port).ready && !IsProbing(StateOf(st.pcbs, port))
    ensures var q, s := Announce(st, port, services, ip, memory, prepared), StateOf(st.pcbs, port);
            && StateOf(q.pcbs, port) == (if (IsAnnouncing(s) && exists x :: x in st.queue && x.port == port)
                                            || (s == Running && st.named) then Announce1 else s)
            && (forall x: Packet :: x in q.queue <==>
                                    x in st.queue || (s == Running && st.named && prepared
                                                      && x == Packet(st.next, port, st.clock, false)))
  {
  }

  // ------------------------------------------------------------------ closing and waking

  /** Nothing waits any more for a port that was closed. */
  lemma ClosedIsSilent(st: State, port: nat, other: Option<nat>, opens: bool, services: seq<nat>, memory: Memory)
    requires PcbOf(st.pcbs, port).ready && other != Some(port)
    ensures var q := Disable(st, port, other, opens, services, memory);
            PcbOf(q.pcbs, port) == CLOSED && forall x <- q.queue :: x.port != port
  {
  }

  lemma DuplicateIsSilent(st: State, port: nat, other: nat, memory: Memory, prepared: bool)
    requires PcbOf(st.pcbs, port).ready && PcbOf(st.pcbs, other).ready && port != other
    ensures var q := Duplicate(st, port, other, memory, prepared);
            PcbOf(q.pcbs, port) == CLOSED.(state := Dup) && forall x <- q.queue :: x.port != port
  {
  }

  /** When a port closes, the one on the other interface that was its duplicate opens, and probes for the host if it has
      a name. */
  lemma DuplicateWakes(st: State, port: nat, other: nat, services: seq<nat>, chance: nat)
    requires PcbOf(st.pcbs, port).ready && port != other && StateOf(st.pcbs, other).Dup? && other < st.size
    ensures var p := PcbOf(Disable(st, port, Some(other), true, services, Enough(chance)).pcbs, other);
            p.ready && if st.named then p.state == Probe1 && p.ip else p.state == Running
  {
  }

  // ------------------------------------------------------------------ without memory

  /** A probe that cannot be started leaves no packet for its port, and the port where it was. Without memory for its
      list the port keeps what it asks for, without memory for its packet it asks for nothing. */
  lemma StarvedExactly(st: State, port: nat, services: seq<nat>, ip: bool, memory: Memory)
    requires st.named && !memory.Enough?
    ensures var q, p := Restart(st, port, services, ip, memory), PcbOf(st.pcbs, port);
            && (forall x: Packet :: x in q.queue <==> x in st.queue && x.port != port)
            && q.log == st.log + [Starved(port)]
            && PcbOf(q.pcbs, port) ==
               if memory.NoList? && (services != [] || (IsProbing(p.state) && p.services != [])) then p
               else p.(ip := false, services := [], running := false)
  {
    var p := PcbOf(st.pcbs, port);
    if services != [] {
      assert services[0] in Missing(services, p.services) || services[0] in p.services;
    }
  }

  // ------------------------------------------------------------------ a service is removed

  lemma {:induction false} AnnouncingChecked(pcbs: map<nat, Pcb>, queue: seq<Packet>, service: nat, cleared: set<nat>,
                                             k: nat)
    requires PcbOf(pcbs, k).ready && (IsAnnouncing(StateOf(pcbs, k)) || StateOf(pcbs, k) == Running)
    ensures StateOf(CheckedAll(pcbs, queue, service, cleared), k) ==
            if exists x :: x in queue && x.port == k && x.id in cleared then Running else StateOf(pcbs, k)
    decreases queue
  {
    if queue != [] {
      var x := queue[0];
      assert queue == [x] + queue[1..];
      var p := PcbOf(pcbs, x.port);
      AnnouncingChecked(if p.ready then pcbs[x.port := Checked(p, service, x.id in cleared)] else pcbs, queue[1..],
                        service, cleared, k);
    }
  }

  lemma {:induction false} OthersChecked(pcbs: map<nat, Pcb>, queue: seq<Packet>, service: nat, cleared: set<nat>,
                                         k: nat)
    requires forall x <- queue :: x.port != k
    ensures PcbOf(CheckedAll(pcbs, queue, service, cleared), k) == PcbOf(pcbs, k)
    decreases queue
  {
    if queue != [] {
      var x := queue[0];
      assert queue == [x] + queue[1..];
      var p := PcbOf(pcbs, x.port);
      OthersChecked(if p.ready then pcbs[x.port := Checked(p, service, x.id in cleared)] else pcbs, queue[1..], service,
                    cleared, k);
    }
  }

  lemma {:induction false} OnceChecked(pcbs: map<nat, Pcb>, queue: seq<Packet>, service: nat, cleared: set<nat>,
                                       y: Packet)
    requires y in queue && (forall x <- queue :: x.port == y.port ==> x.id == y.id) && Distinct(queue)
    requires PcbOf(pcbs, y.port).ready
    ensures PcbOf(CheckedAll(pcbs, queue, service, cleared), y.port) ==
            Checked(PcbOf(pcbs, y.port), service, y.id in cleared)
    decreases queue
  {
    var x := queue[0];
    assert queue == [x] + queue[1..];
    var p := PcbOf(pcbs, x.port);
    var next := if p.ready then pcbs[x.port := Checked(p, service, x.id in cleared)] else pcbs;
    if x.port == y.port {
      assert forall z <- queue[1..] :: z.port != y.port;
      OthersChecked(next, queue[1..], service, cleared, y.port);
    } else {
      OnceChecked(next, queue[1..], service, cleared, y);
    }
  }

  lemma {:induction false} RemovedOnce(list: seq<nat>, service: nat)
    requires service in list
    ensures multiset(RemoveFirst(list, service)) == multiset(list) - multiset{service}
  {
    assert list == [list[0]] + list[1..];
    if list[0] != service {
      RemovedOnce(list[1..], service);
    }
  }

  /** The removal of a service: a port that announces runs exactly if a packet of it lost its last answer, a port that
      probes asks for that service once less, and runs exactly if there is nothing else that it asks for. Only packets
      with nothing left go. */
  lemma RemovalExactly(st: State, service: nat, cleared: set<nat>, empty: set<nat>, k: nat)
    requires Inv(st) && PcbOf(st.pcbs, k).ready
    ensures var q, p := RemoveService(st, service, cleared, empty), PcbOf(st.pcbs, k);
            var waits := exists x :: x in st.queue && x.port == k;
            && (forall x: Packet :: x in q.queue <==> x in st.queue && x.id !in empty)
            && (IsAnnouncing(p.state) ==>
                  StateOf(q.pcbs, k) ==
                  if exists x :: x in st.queue && x.port == k && x.id in cleared then Running else p.state)
            && (InProbe(p.state) && !(waits && service in p.services) ==> PcbOf(q.pcbs, k) == p)
            && (InProbe(p.state) && waits && service in p.services ==>
                  && multiset(PcbOf(q.pcbs, k).services) == multiset(p.services) - multiset{service}
                  && StateOf(q.pcbs, k) == if |p.services| == 1 && !p.ip then Running else p.state)
  {
    var p := PcbOf(st.pcbs, k);
    if IsAnnouncing(p.state) {
      AnnouncingChecked(st.pcbs, st.queue, service, cleared, k);
    }
    if InProbe(p.state) {
      ProbingChecked(st, service, cleared, k);
    }
  }

  lemma ProbingChecked(st: State, service: nat, cleared: set<nat>, k: nat)
    requires Inv(st) && PcbOf(st.pcbs, k).ready && InProbe(StateOf(st.pcbs, k))
    ensures var r, p := PcbOf(CheckedAll(st.pcbs, st.queue, service, cleared), k), PcbOf(st.pcbs, k);
            if service in p.services && exists x :: x in st.queue && x.port == k
            then && multiset(r.services) == multiset(p.services) - multiset{service}
                 && r.state == if |p.services| == 1 && !p.ip then Running else p.state
            else r == p
  {
    assert ProbeInv(st.queue, st.log, st.clock, k, StateOf(st.pcbs, k));
    var p := PcbOf(st.pcbs, k);
    if x :| x in st.queue && x.port == k {
      OnceChecked(st.pcbs, st.queue, service, cleared, x);
      if service in p.services {
        RemovedOnce(p.services, service);
        assert |p.services| == 1 ==> p.services == [service];
      }
    } else {
      OthersChecked(st.pcbs, st.queue, service, cleared, k);
    }
  }

  // ------------------------------------------------------------------ how failed probes are counted

  function FailedOf(st: State, port: nat): (n: nat) {
    PcbOf(st.pcbs, port).failed
  }

  ghost predicate SameFailures(st: State, q: State) {
    forall port :: FailedOf(q, port) == FailedOf(st, port)
  }

  lemma ProbeOneFailures(st: State, port: nat, services: seq<nat>, ip: bool, forget: bool, memory: Memory)
    ensures SameFailures(st, ProbeOne(st, port, services, ip, forget, memory))
  {
  }

  lemma ProbeBelowFailures(st: State, n: nat, services: seq<nat>, ip: bool, forget: bool, memory: map<nat, Memory>)
    ensures SameFailures(st, ProbeBelow(st, n, services, ip, forget, memory))
  {
    forall a: State, port: nat, m: Memory | SameFailures(st, a)
      ensures SameFailures(st, ProbeOne(a, port, services, ip, forget, m))
    {
      ProbeOneFailures(a, port, services, ip, forget, m);
    }
    EveryTurnKeeps(st, n, services, ip, forget, memory, a => SameFailures(st, a));
  }

  lemma {:induction false} CheckedFailures(pcbs: map<nat, Pcb>, queue: seq<Packet>, service: nat, cleared: set<nat>,
                                           k: nat)
    ensures PcbOf(CheckedAll(pcbs, queue, service, cleared), k).failed == PcbOf(pcbs, k).failed
    decreases queue
  {
    if queue != [] {
      var x := queue[0];
      var p := PcbOf(pcbs, x.port);
      CheckedFailures(if p.ready then pcbs[x.port := Checked(p, service, x.id in cleared)] else pcbs, queue[1..],
                      service, cleared, k);
    }
  }

  /** The port cannot be opened. */
  predicate CannotOpen(st: State, port: nat, opens: bool) {
    port < st.size && !PcbOf(st.pcbs, port).ready && !opens
  }

  /** The count of a port starts over: its probe is complete, it was closed, or it cannot be opened. */
  predicate StartsOver(st: State, ev: Event, port: nat) {
    match ev
    case Action(_) => StateOf(st.pcbs, port) == Probe3 && StateOf(Step(st, ev).pcbs, port) == Announce1
    case Enabling(p, opens, _, _) => p == port && CannotOpen(st, port, opens)
    case Disabling(p, other, opens, _, _) =>
      && PcbOf(st.pcbs, p).ready
      && (p == port || (other == Some(port) && StateOf(st.pcbs, port).Dup? && CannotOpen(st, port, opens)))
    case Duplicating(p, another, _, _) => p == port && PcbOf(st.pcbs, port).ready && PcbOf(st.pcbs, another).ready
    case _ => false
  }

  lemma EnableFailures(st: State, port: nat, opens: bool, services: seq<nat>, memory: Memory, k: nat)
    ensures FailedOf(Enable(st, port, opens, services, memory), k) ==
            if k == port && CannotOpen(st, port, opens) then 0 else FailedOf(st, k)
  {
  }

  lemma DisableFailures(st: State, ev: Event, k: nat)
    requires ev.Disabling?
    ensures FailedOf(Step(st, ev), k) == if StartsOver(st, ev, k) then 0 else FailedOf(st, k)
  {
    var a := Close(st, ev.port);
    if ev.other.Some? {
      EnableFailures(SetState(a, ev.other.value, Off), ev.other.value, ev.opens, ev.services, ev.start, k);
    }
  }

  lemma AnnounceFailures(st: State, port: nat, services: seq<nat>, ip: bool, memory: Memory, prepared: bool, k: nat)
    ensures FailedOf(Announce(st, port, services, ip, memory, prepared), k) == FailedOf(st, k)
  {
  }

  lemma DuplicateFailures(st: State, ev: Event, k: nat)
    requires ev.Duplicating?
    ensures FailedOf(Step(st, ev), k) == if StartsOver(st, ev, k) then 0 else FailedOf(st, k)
  {
    AnnounceFailures(SetState(Close(st, ev.port), ev.port, Dup), ev.another, [], true, ev.start, ev.prepared, k);
  }

  lemma ProceedFailures(st: State, x: Packet, prepared: bool, k: nat)
    ensures FailedOf(Proceed(st, x, prepared), k) ==
            if StateOf(st.pcbs, k) == Probe3 && StateOf(Proceed(st, x, prepared).pcbs, k) == Announce1 then 0
            else FailedOf(st, k)
  {
  }

  lemma ExecuteFailures(st: State, ev: Event, k: nat)
    requires ev.Action? && st.actions != []
    ensures FailedOf(Step(st, ev), k) == if StartsOver(st, ev, k) then 0 else FailedOf(st, k)
  {
    if st.queue != [] {
      var x, popped := st.queue[0], st.(actions := st.actions[1..], queue := st.queue[1..]);
      ProceedFailures(Note(popped, Sent(x.port, x.id, st.clock)), x, ev.prepared, k);
    }
  }

  /** What a step does to the count, whatever the step. */
  lemma StepCounts(st: State, ev: Event, k: nat)
    ensures FailedOf(Step(st, ev), k) ==
            if ev == Failure(k) then (FailedOf(st, k) + 1) % 0x1_0000
            else if StartsOver(st, ev, k) then 0
            else FailedOf(st, k)
  {
    match ev {
      case Wait(until) =>
      case Timer(n) =>
      case Action(prepared) => {
        if st.actions != [] {
          ExecuteFailures(st, ev, k);
        }
      }
      case Naming(services, memory) =>
        ProbeBelowFailures(Note(st.(named := true, queue := []), Renamed), st.size, services, true, true, memory);
      case Enabling(port, opens, services, start) => EnableFailures(st, port, opens, services, start, k);
      case Disabling(port, other, opens, services, start) => DisableFailures(st, ev, k);
      case Duplicating(port, another, start, prepared) => DuplicateFailures(st, ev, k);
      case Probe(port, services, ip, start) =>
      case ProbeAll(services, ip, forget, memory) => ProbeBelowFailures(st, st.size, services, ip, forget, memory);
      case Announcement(port, services, ip, start, prepared) =>
        AnnounceFailures(st, port, services, ip, start, prepared, k);
      case Reply(port, delay) =>
      case Failure(port) =>
      case Removal(service, cleared, empty) => CheckedFailures(st.pcbs, st.queue, service, cleared, k);
      case Stop =>
    }
  }

  /** The failures of a port since its count started over, n of them before. */
  function Failures(st: State, events: seq<Event>, port: nat, n: nat): (r: nat)
    decreases events
  {
    if events == [] then n
    else
      var more := if events[0] == Failure(port) then n + 1 else if StartsOver(st, events[0], port) then 0 else n;
      Failures(Step(st, events[0]), events[1..], port, more)
  }

  /** Over every run the counter of a port is the number of its failed probes since it last completed one, was closed or
      could not be opened, modulo 65536. */
  lemma {:induction false} FailuresAreCounted(st: State, events: seq<Event>, port: nat, n: nat)
    requires FailedOf(st, port) == n % 0x1_0000
    ensures FailedOf(Run(st, events), port) == Failures(st, events, port, n) % 0x1_0000
    decreases events
  {
    if events != [] {
      StepCounts(st, events[0], port);
      var more := if events[0] == Failure(port) then n + 1 else if StartsOver(st, events[0], port) then 0 else n;
      FailuresAreCounted(Step(st, events[0]), events[1..], port, more);
    }
  }
}
