/** Which services a port of components/mdns/mdns_pcb.c asks for: a probe that is started over takes the services of the
    unfinished one with it, and over every run a service is asked for until there is a reason not to. */
module ProbedServices {
  import opened Common
  import opened TxQueue
  import opened ProbeMachine

  // ------------------------------------------------------------------ one step

  /** Starting a probe, for every state of the port: it asks for exactly the services given and, if the port was
      probing, those it asked for before. */
  lemma ProbeAsksFor(st: State, port: nat, services: seq<nat>, ip: bool, chance: nat, s: nat)
    requires st.named
    ensures var p := PcbOf(st.pcbs, port);
            var r := PcbOf(Step(st, Probe(port, services, ip, Enough(chance))).pcbs, port);
            && r.state == Probe1 && r.running && r.ip == (p.ip || ip)
            && (s in r.services <==>
                s in services || (s in p.services && (p.state.Dup? || p.state.Init? || p.state.Probe1?
                                                      || p.state.Probe2? || p.state.Probe3?)))
  {
    MergedServices(PcbOf(st.pcbs, port), services);
  }

  /** Likewise when all ports are probed. */
  lemma ProbeAllAsksFor(st: State, n: nat, services: seq<nat>, ip: bool, memory: map<nat, Memory>, port: nat, s: nat)
    requires st.named && port < n && PcbOf(st.pcbs, port).ready && MemoryFor(memory, port).Enough?
    ensures var p := PcbOf(st.pcbs, port);
            var r := PcbOf(ProbeBelow(st, n, services, ip, false, memory).pcbs, port);
            s in r.services <==> s in services || (IsProbing(p.state) && s in p.services)
    decreases n
  {
    var before := ProbeBelow(st, n - 1, services, ip, false, memory);
    if port == n - 1 {
      OthersStay(st, n - 1, services, ip, false, memory, port);
      MergedServices(PcbOf(before.pcbs, port), services);
    } else {
      ProbeAllAsksFor(st, n - 1, services, ip, memory, port, s);
      OtherStays(before, n - 1, services, ip, false, MemoryFor(memory, n - 1), port);
    }
  }

  lemma OtherStays(st: State, turn: nat, services: seq<nat>, ip: bool, forget: bool, memory: Memory, port: nat)
    requires port != turn
    ensures var q := ProbeOne(st, turn, services, ip, forget, memory);
            PcbOf(q.pcbs, port) == PcbOf(st.pcbs, port) && q.named == st.named
  {
  }

  lemma {:induction false} OthersStay(st: State, n: nat, services: seq<nat>, ip: bool, forget: bool,
                                      memory: map<nat, Memory>, port: nat)
    requires n <= port
    ensures var q := ProbeBelow(st, n, services, ip, forget, memory);
            PcbOf(q.pcbs, port) == PcbOf(st.pcbs, port) && q.named == st.named
    decreases n
  {
    if n > 0 {
      OthersStay(st, n - 1, services, ip, forget, memory, port);
      OtherStays(ProbeBelow(st, n - 1, services, ip, forget, memory), n - 1, services, ip, forget,
                 MemoryFor(memory, n - 1), port);
    }
  }

  // ------------------------------------------------------------------ every step

  /** The port probes for the service. */
  predicate Asked(st: State, port: nat, s: nat) {
    InProbe(StateOf(st.pcbs, port)) && s in PcbOf(st.pcbs, port).services
  }

  /** The third probe of the port, or a later one, is sent, and there is memory for the announcement. */
  predicate Completes(st: State, prepared: bool, port: nat) {
    && prepared && st.actions != [] && st.queue != [] && st.queue[0].id == st.actions[0] && st.queue[0].queued
    && st.queue[0].port == port && StateOf(st.pcbs, port) == Probe3
  }

  /** The reasons for which a port no longer asks for a service: the probe is complete, the service is removed, there is
      no memory for the packet when the probe is started over, the port is closed or becomes a duplicate, or the probe
      is forgotten. */
  predicate Releases(st: State, ev: Event, port: nat, s: nat) {
    match ev
    case Action(prepared) => Completes(st, prepared, port)
    case Removal(service, _, _) => service == s
    case Probe(x, _, _, start) => x == port && start.NoPacket?
    case Announcement(x, _, _, start, _) => x == port && start.NoPacket?
    case Enabling(x, _, _, start) => x == port && start.NoPacket?
    case Duplicating(x, other, start, _) => x == port || (other == port && start.NoPacket?)
    case Disabling(x, _, _, _, _) => x == port
    case ProbeAll(_, _, forget, memory) => forget || MemoryFor(memory, port).NoPacket?
    case Naming(_, _) => true
    case _ => false
  }

  lemma RestartAsks(st: State, x: nat, services: seq<nat>, ip: bool, memory: Memory, port: nat, s: nat)
    requires Asked(st, port, s) && st.named && (x == port ==> !memory.NoPacket?)
    ensures Asked(Restart(st, x, services, ip, memory), port, s)
  {
    MergedServices(PcbOf(st.pcbs, x), services);
  }

  lemma {:induction false} ProbeBelowAsks(st: State, n: nat, services: seq<nat>, ip: bool, memory: map<nat, Memory>,
                                          port: nat, s: nat)
    requires Asked(st, port, s) && st.named && !MemoryFor(memory, port).NoPacket?
    ensures var q := ProbeBelow(st, n, services, ip, false, memory); Asked(q, port, s) && q.named
    decreases n
  {
    if n > 0 {
      ProbeBelowAsks(st, n - 1, services, ip, memory, port, s);
      var before := ProbeBelow(st, n - 1, services, ip, false, memory);
      RestartAsks(before, n - 1, services, ip, MemoryFor(memory, n - 1), port, s);
    }
  }

  lemma EnableAsks(st: State, x: nat, opens: bool, services: seq<nat>, memory: Memory, port: nat, s: nat)
    requires Asked(st, port, s) && st.named && (x == port ==> !memory.NoPacket?)
    ensures Asked(Enable(st, x, opens, services, memory), port, s)
  {
    RestartAsks(Note(SetPcb(st, x, PcbOf(st.pcbs, x).(ready := true)), Opened(x)), x, services, true, memory, port, s);
  }

  lemma DisableAsks(st: State, x: nat, other: Option<nat>, opens: bool, services: seq<nat>, memory: Memory, port: nat,
                    s: nat)
    requires Asked(st, port, s) && st.named && x != port
    ensures Asked(Disable(st, x, other, opens, services, memory), port, s)
  {
    var a := Close(st, x);
    assert Asked(a, port, s);
    if other.Some? && StateOf(a.pcbs, other.value).Dup? {
      EnableAsks(SetState(a, other.value, Off), other.value, opens, services, memory, port, s);
    }
  }

  lemma AnnounceAsks(st: State, x: nat, services: seq<nat>, ip: bool, memory: Memory, prepared: bool, port: nat, s: nat)
    requires Asked(st, port, s) && st.named && (x == port ==> !memory.NoPacket?)
    ensures Asked(Announce(st, x, services, ip, memory, prepared), port, s)
  {
    RestartAsks(st, x, services, ip, memory, port, s);
  }

  lemma DuplicateAsks(st: State, x: nat, other: nat, memory: Memory, prepared: bool, port: nat, s: nat)
    requires Asked(st, port, s) && st.named && x != port && (other == port ==> !memory.NoPacket?)
    ensures Asked(Duplicate(st, x, other, memory, prepared), port, s)
  {
    AnnounceAsks(SetState(Close(st, x), x, Dup), other, [], true, memory, prepared, port, s);
  }

  lemma ExecuteAsks(st: State, prepared: bool, port: nat, s: nat)
    requires Asked(st, port, s) && st.actions != [] && !Completes(st, prepared, port)
    ensures Asked(Execute(st, prepared), port, s)
  {
  }

  lemma {:induction false} RemoveFirstHas(list: seq<nat>, service: nat, s: nat)
    requires s in list && s != service
    ensures s in RemoveFirst(list, service)
  {
    if list[0] != service && s != list[0] {
      RemoveFirstHas(list[1..], service, s);
    }
  }

  lemma {:induction false} CheckedAsks(pcbs: map<nat, Pcb>, queue: seq<Packet>, service: nat, cleared: set<nat>,
                                       port: nat, s: nat)
    requires var p := PcbOf(pcbs, port); InProbe(p.state) && s in p.services && s != service
    ensures var p := PcbOf(CheckedAll(pcbs, queue, service, cleared), port); InProbe(p.state) && s in p.services
    decreases queue
  {
    if queue != [] {
      var x := queue[0];
      var p := PcbOf(pcbs, x.port);
      if x.port == port && service in p.services {
        RemoveFirstHas(p.services, service, s);
      }
      CheckedAsks(if p.ready then pcbs[x.port := Checked(p, service, x.id in cleared)] else pcbs, queue[1..], service,
                  cleared, port, s);
    }
  }

  lemma StepAsks(st: State, ev: Event, port: nat, s: nat)
    requires Asked(st, port, s) && st.named && !Releases(st, ev, port, s)
    ensures Asked(Step(st, ev), port, s)
  {
    match ev {
      case Wait(until) =>
      case Timer(n) =>
      case Action(prepared) => {
        if st.actions != [] {
          ExecuteAsks(st, prepared, port, s);
        }
      }
      case Naming(services, memory) =>
      case Enabling(x, opens, services, start) => EnableAsks(st, x, opens, services, start, port, s);
      case Disabling(x, other, opens, services, start) => DisableAsks(st, x, other, opens, services, start, port, s);
      case Duplicating(x, another, start, prepared) => DuplicateAsks(st, x, another, start, prepared, port, s);
      case Probe(x, services, ip, start) => RestartAsks(st, x, services, ip, start, port, s);
      case ProbeAll(services, ip, forget, memory) => ProbeBelowAsks(st, st.size, services, ip, memory, port, s);
      case Announcement(x, services, ip, start, prepared) =>
        AnnounceAsks(st, x, services, ip, start, prepared, port, s);
      case Reply(x, delay) =>
      case Failure(x) =>
      case Removal(service, cleared, empty) => CheckedAsks(st.pcbs, st.queue, service, cleared, port, s);
      case Stop =>
    }
  }

  // ------------------------------------------------------------------ every run

  /** Only a host with a name is probed for. */
  predicate IsNamed(st: State, port: nat) {
    InProbe(StateOf(st.pcbs, port)) ==> st.named
  }

  lemma RestartNamed(st: State, x: nat, services: seq<nat>, ip: bool, memory: Memory, port: nat)
    requires IsNamed(st, port)
    ensures IsNamed(Restart(st, x, services, ip, memory), port)
  {
  }

  lemma ProbeBelowNamed(st: State, n: nat, services: seq<nat>, ip: bool, forget: bool, memory: map<nat, Memory>,
                        port: nat)
    requires IsNamed(st, port)
    ensures IsNamed(ProbeBelow(st, n, services, ip, forget, memory), port)
  {
    EveryTurnKeeps(st, n, services, ip, forget, memory, a => IsNamed(a, port));
  }

  lemma EnableNamed(st: State, x: nat, opens: bool, services: seq<nat>, memory: Memory, port: nat)
    requires IsNamed(st, port)
    ensures IsNamed(Enable(st, x, opens, services, memory), port)
  {
    RestartNamed(Note(SetPcb(st, x, PcbOf(st.pcbs, x).(ready := true)), Opened(x)), x, services, true, memory, port);
  }

  lemma DisableNamed(st: State, x: nat, other: Option<nat>, opens: bool, services: seq<nat>, memory: Memory, port: nat)
    requires IsNamed(st, port)
    ensures IsNamed(Disable(st, x, other, opens, services, memory), port)
  {
    var a := Close(st, x);
    assert IsNamed(a, port);
    if other.Some? && StateOf(a.pcbs, other.value).Dup? {
      var b := SetState(a, other.value, Off);
      assert IsNamed(b, port);
      EnableNamed(b, other.value, opens, services, memory, port);
    }
  }

  lemma AnnounceNamed(st: State, x: nat, services: seq<nat>, ip: bool, memory: Memory, prepared: bool, port: nat)
    requires IsNamed(st, port)
    ensures IsNamed(Announce(st, x, services, ip, memory, prepared), port)
  {
    RestartNamed(st, x, services, ip, memory, port);
  }

  lemma DuplicateNamed(st: State, x: nat, other: nat, memory: Memory, prepared: bool, port: nat)
    requires IsNamed(st, port)
    ensures IsNamed(Duplicate(st, x, other, memory, prepared), port)
  {
    var a := SetState(Close(st, x), x, Dup);
    assert IsNamed(a, port);
    AnnounceNamed(a, other, [], true, memory, prepared, port);
  }

  lemma ExecuteNamed(st: State, prepared: bool, port: nat)
    requires IsNamed(st, port) && st.actions != []
    ensures IsNamed(Execute(st, prepared), port)
  {
  }

  lemma RenameNames(st: State, services: seq<nat>, memory: map<nat, Memory>)
    ensures Rename(st, services, memory).named
  {
    var noted := Note(st.(named := true, queue := []), Renamed);
    EveryTurnKeeps(noted, st.size, services, true, true, memory, (a: State) => a.named);
  }

  lemma StepNamed(st: State, ev: Event, port: nat)
    requires IsNamed(st, port)
    ensures IsNamed(Step(st, ev), port)
  {
    match ev {
      case Wait(until) =>
      case Timer(n) =>
      case Action(prepared) => {
        if st.actions != [] {
          ExecuteNamed(st, prepared, port);
        }
      }
      case Naming(services, memory) => RenameNames(st, services, memory);
      case Enabling(x, opens, services, start) => EnableNamed(st, x, opens, services, start, port);
      case Disabling(x, other, opens, services, start) => DisableNamed(st, x, other, opens, services, start, port);
      case Duplicating(x, another, start, prepared) => DuplicateNamed(st, x, another, start, prepared, port);
      case Probe(x, services, ip, start) => RestartNamed(st, x, services, ip, start, port);
      case ProbeAll(services, ip, forget, memory) =>
        ProbeBelowNamed(st, st.size, services, ip, forget, memory, port);
      case Announcement(x, services, ip, start, prepared) =>
        AnnounceNamed(st, x, services, ip, start, prepared, port);
      case Reply(x, delay) =>
      case Failure(x) =>
      case Removal(service, cleared, empty) => CheckedAt(st.pcbs, st.queue, service, cleared, port);
      case Stop =>
    }
  }

  lemma {:induction false} RunNamed(st: State, events: seq<Event>, port: nat)
    requires IsNamed(st, port)
    ensures IsNamed(Run(st, events), port)
    decreases events
  {
    if events != [] {
      StepNamed(st, events[0], port);
      RunNamed(Step(st, events[0]), events[1..], port);
    }
  }

  /** None of the events is a reason to drop the service. */
  predicate NeverReleased(st: State, events: seq<Event>, port: nat, s: nat)
    decreases events
  {
    events == []
    || (!Releases(st, events[0], port, s) && NeverReleased(Step(st, events[0]), events[1..], port, s))
  }

  lemma {:induction false} RunAsks(st: State, events: seq<Event>, port: nat, s: nat)
    requires Asked(st, port, s) && st.named && NeverReleased(st, events, port, s)
    ensures Asked(Run(st, events), port, s)
    decreases events
  {
    if events != [] {
      StepAsks(st, events[0], port, s);
      StepNamed(st, events[0], port);
      RunAsks(Step(st, events[0]), events[1..], port, s);
    }
  }

  /** Over every run: once a port probes for a service, it goes on doing so, however often the probe is started over,
      until one of the reasons to stop comes up. */
  lemma EveryRunKeepsAsking(size: nat, before: seq<Event>, events: seq<Event>, port: nat, s: nat)
    requires var st := Run(Initial(size), before); Asked(st, port, s) && NeverReleased(st, events, port, s)
    ensures Asked(Run(Run(Initial(size), before), events), port, s)
  {
    RunNamed(Initial(size), before, port);
    RunAsks(Run(Initial(size), before), events, port, s);
  }
}
