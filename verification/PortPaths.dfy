/** The ways of a port of components/mdns/mdns_pcb.c to Running and on to announcing, and what memory has to do with
    them. */
module PortPaths {
  import opened Common
  import opened TxQueue
  import opened ProbeMachine
  import opened HostProbing

  // ------------------------------------------------------------------ how a port comes to run

  predicate IsNamedElsewhere(st: State, port: nat) {
    st.named && !StateOf(st.pcbs, port).Running?
  }

  lemma ProbingIsNotRunning(st: State, n: nat, services: seq<nat>, ip: bool, forget: bool, memory: map<nat, Memory>,
                            port: nat)
    requires IsNamedElsewhere(st, port)
    ensures IsNamedElsewhere(ProbeBelow(st, n, services, ip, forget, memory), port)
  {
    EveryTurnKeeps(st, n, services, ip, forget, memory, a => IsNamedElsewhere(a, port));
  }

  lemma RestartIsNotRunning(st: State, port: nat, services: seq<nat>, ip: bool, memory: Memory, k: nat)
    requires IsNamedElsewhere(st, k)
    ensures IsNamedElsewhere(Restart(st, port, services, ip, memory), k)
  {
  }

  lemma EnableIsNotRunning(st: State, port: nat, opens: bool, services: seq<nat>, memory: Memory, k: nat)
    requires IsNamedElsewhere(st, k)
    ensures IsNamedElsewhere(Enable(st, port, opens, services, memory), k)
  {
    var marked := Note(SetPcb(st, port, PcbOf(st.pcbs, port).(ready := true)), Opened(port));
    RestartIsNotRunning(marked, port, services, true, memory, k);
  }

  lemma DisableIsNotRunning(st: State, port: nat, other: Option<nat>, opens: bool, services: seq<nat>, memory: Memory,
                            k: nat)
    requires IsNamedElsewhere(st, k)
    ensures IsNamedElsewhere(Disable(st, port, other, opens, services, memory), k)
  {
    var a := Close(st, port);
    assert IsNamedElsewhere(a, k);
    if other.Some? {
      assert IsNamedElsewhere(SetState(a, other.value, Off), k);
      EnableIsNotRunning(SetState(a, other.value, Off), other.value, opens, services, memory, k);
    }
  }

  lemma AnnounceIsNotRunning(st: State, port: nat, services: seq<nat>, ip: bool, memory: Memory, prepared: bool, k: nat)
    requires IsNamedElsewhere(st, k)
    ensures IsNamedElsewhere(Announce(st, port, services, ip, memory, prepared), k)
  {
    RestartIsNotRunning(st, port, services, ip, memory, k);
  }

  lemma DuplicateIsNotRunning(st: State, port: nat, other: nat, memory: Memory, prepared: bool, k: nat)
    requires IsNamedElsewhere(st, k)
    ensures IsNamedElsewhere(Duplicate(st, port, other, memory, prepared), k)
  {
    AnnounceIsNotRunning(SetState(Close(st, port), port, Dup), other, [], true, memory, prepared, k);
  }

  lemma ExecuteIsNotRunning(st: State, prepared: bool, k: nat)
    requires IsNamedElsewhere(st, k) && st.actions != [] && !StateOf(st.pcbs, k).Announce3?
    ensures IsNamedElsewhere(Execute(st, prepared), k)
  {
  }

  /** What the port was doing. */
  ghost predicate MayRun(p: Pcb, ev: Event, named: bool) {
    || (ev.Action? && p.state == Announce3)
    || (ev.Removal? && (IsAnnouncing(p.state) || (IsProbing(p.state) && p.ready && !p.ip)))
    || !named
  }

  /** A port comes to Running in four ways only: its last announcement was sent, a service was removed while it
      announced, the last service was removed while it probed but not for the host, or the host has no name. */
  lemma ComesToRun(st: State, ev: Event, k: nat)
    requires !StateOf(st.pcbs, k).Running? && StateOf(Step(st, ev).pcbs, k).Running?
    ensures MayRun(PcbOf(st.pcbs, k), ev, st.named)
  {
    if !MayRun(PcbOf(st.pcbs, k), ev, st.named) {
      StaysElsewhere(st, ev, k);
    }
  }

  lemma StaysElsewhere(st: State, ev: Event, k: nat)
    requires IsNamedElsewhere(st, k) && !MayRun(PcbOf(st.pcbs, k), ev, st.named)
    ensures IsNamedElsewhere(Step(st, ev), k)
  {
    match ev {
      case Wait(until) =>
      case Timer(n) =>
      case Action(prepared) => {
        if st.actions != [] {
          ExecuteIsNotRunning(st, prepared, k);
        }
      }
      case Naming(services, memory) =>
        ProbingIsNotRunning(Note(st.(named := true, queue := []), Renamed), st.size, services, true, true, memory, k);
      case Enabling(port, opens, services, start) => EnableIsNotRunning(st, port, opens, services, start, k);
      case Disabling(port, other, opens, services, start) =>
        DisableIsNotRunning(st, port, other, opens, services, start, k);
      case Duplicating(port, another, start, prepared) => DuplicateIsNotRunning(st, port, another, start, prepared, k);
      case Probe(port, services, ip, start) => RestartIsNotRunning(st, port, services, ip, start, k);
      case ProbeAll(services, ip, forget, memory) => ProbingIsNotRunning(st, st.size, services, ip, forget, memory, k);
      case Announcement(port, services, ip, start, prepared) =>
        AnnounceIsNotRunning(st, port, services, ip, start, prepared, k);
      case Reply(port, delay) =>
      case Failure(port) =>
      case Removal(service, cleared, empty) => CheckedAt(st.pcbs, st.queue, service, cleared, k);
      case Stop =>
    }
  }

  // ------------------------------------------------------------------ probes that are cut short

  lemma {:induction false} CheckedRuns(pcbs: map<nat, Pcb>, queue: seq<Packet>, service: nat, cleared: set<nat>,
                                       port: nat)
    requires var p := PcbOf(pcbs, port);
             p.state == Running || (p.ready && p.state == Probe1 && !p.ip && p.services == [service]
                                    && exists x :: x in queue && x.port == port)
    ensures StateOf(CheckedAll(pcbs, queue, service, cleared), port) == Running
    ensures PcbOf(CheckedAll(pcbs, queue, service, cleared), port).ready == PcbOf(pcbs, port).ready
    decreases queue
  {
    if queue != [] {
      var p := PcbOf(pcbs, queue[0].port);
      var next := if p.ready then pcbs[queue[0].port := Checked(p, service, queue[0].id in cleared)] else pcbs;
      assert queue == [queue[0]] + queue[1..];
      CheckedRuns(next, queue[1..], service, cleared, port);
    }
  }

  lemma ServiceProbe(st: State, port: nat, service: nat, chance: nat)
    requires var p := PcbOf(st.pcbs, port); st.named && p.ready && p.state == Running && !p.ip
    ensures var q := Restart(st, port, [service], false, Enough(chance));
            && PcbOf(q.pcbs, port) == PcbOf(st.pcbs, port).(state := Probe1, services := [service], running := true)
            && (exists x :: x in q.queue && x.port == port)
            && q.named && q.log == st.log + [Started(port, st.next, false)]
  {
    var q := Restart(st, port, [service], false, Enough(chance));
    assert Packet(st.next, port, st.clock + ProbeDelay(PcbOf(st.pcbs, port).failed, chance), false) in q.queue;
  }

  lemma ResumesAt(st: State, port: nat, log: seq<Entry>, e: Entry)
    requires PcbOf(st.pcbs, port).ready && StateOf(st.pcbs, port) == Running && st.named && st.log == log + [e]
    ensures var q := Announce(st, port, [], false, Enough(0), false);
            StateOf(q.pcbs, port) == Announce1 && q.log == log + [e, Resumed(port)]
  {
    assert log + [e] + [Resumed(port)] == log + [e, Resumed(port)];
  }

  /** It is removed before its probe is sent. */
  lemma ServiceRemoved(st: State, port: nat, service: nat, cleared: set<nat>, empty: set<nat>)
    requires var p := PcbOf(st.pcbs, port);
             && p.ready && p.state == Probe1 && !p.ip && p.services == [service]
             && exists x :: x in st.queue && x.port == port
    ensures var q := RemoveService(st, service, cleared, empty);
            && PcbOf(q.pcbs, port).ready && StateOf(q.pcbs, port) == Running && q.named == st.named && q.log == st.log
  {
    CheckedRuns(st.pcbs, st.queue, service, cleared, port);
  }

  lemma CutInSteps(st: State, a: State, b: State, c: State, port: nat, service: nat, chance: nat, cleared: set<nat>)
    requires var p := PcbOf(st.pcbs, port); st.named && p.ready && p.state == Running && !p.ip
    requires a == Step(st, Probe(port, [service], false, Enough(chance)))
    requires b == Step(a, Removal(service, cleared, {st.next}))
    requires c == Step(b, Announcement(port, [], false, Enough(0), false))
    ensures StateOf(c.pcbs, port) == Announce1 && c.log == st.log + [Started(port, st.next, false), Resumed(port)]
  {
    ServiceProbe(st, port, service, chance);
    ServiceRemoved(a, port, service, cleared, {st.next});
    ResumesAt(b, port, st.log, Started(port, st.next, false));
  }

  /** A port that has finished its first probe probes for one more service, which is removed before the probe is sent:
      the port runs and may announce at once. */
  lemma LaterProbeIsCut(st: State, port: nat, service: nat, chance: nat, cleared: set<nat>, events: seq<Event>)
    requires var p := PcbOf(st.pcbs, port); st.named && p.ready && p.state == Running && !p.ip
    requires events == [Probe(port, [service], false, Enough(chance)), Removal(service, cleared, {st.next}),
                        Announcement(port, [], false, Enough(0), false)]
    ensures var q := Run(st, events);
            StateOf(q.pcbs, port) == Announce1 && q.log == st.log + [Started(port, st.next, false), Resumed(port)]
  {
    RunThree(st, events);
    var a := Step(st, events[0]);
    var b := Step(a, events[1]);
    CutInSteps(st, a, b, Step(b, events[2]), port, service, chance, cleared);
  }

  // ------------------------------------------------------------------ memory decides

  /** How often a probe could not be started. */
  function Starvations(log: seq<Entry>): (n: nat) {
    if log == [] then 0 else Starvations(log[..|log| - 1]) + if Last(log).Starved? then 1 else 0
  }

  lemma StarvationsAfter(log: seq<Entry>, e: Entry)
    ensures Starvations(log + [e]) == Starvations(log) + if e.Starved? then 1 else 0
  {
    assert (log + [e])[..|log|] == log;
  }

  lemma {:induction false} NeverStarved(log: seq<Entry>, port: nat)
    requires Starvations(log) == 0
    ensures !Since(log, port).starved
  {
    if log != [] {
      NeverStarved(log[..|log| - 1], port);
    }
  }

  /** Whoever announces has completed a probe for the host since it was opened and the host got its name. */
  ghost predicate HostsAreProbed(st: State) {
    forall port :: IsOut(st, port) ==> Since(st.log, port).probed
  }

  /** A port that opens before the host has a name runs. */
  lemma OpensUnnamed()
    ensures var a := Step(Initial(1), Enabling(0, true, [], Enough(0)));
            && a.pcbs == map[0 := CLOSED.(ready := true, state := Running)] && a.log == [Opened(0)]
            && a.size == 1 && !a.named
  {
  }

  /** There is no memory for the probe when the host gets its name. */
  lemma NamedWithoutMemory(a: State)
    requires a.size == 1 && a.pcbs == map[0 := CLOSED.(ready := true, state := Running)] && a.log == [Opened(0)]
    ensures var b := Step(a, Naming([], map[0 := NoPacket]));
            b.named && b.pcbs == a.pcbs && b.log == [Opened(0), Renamed] + [Starved(0)]
  {
    var named, memory := Note(a.(named := true, queue := []), Renamed), map[0 := NoPacket];
    assert ProbeBelow(named, 0, [], true, true, memory) == named;
    assert Step(a, Naming([], memory)) == ProbeOne(named, 0, [], true, true, NoPacket);
    assert named.log == [Opened(0), Renamed];
  }

  /** One probe that could not be started is enough. */
  lemma StarvedAnnounces()
    ensures var events := [Enabling(0, true, [], Enough(0)), Naming([], map[0 := NoPacket]),
                           Announcement(0, [], false, Enough(0), false)];
            var st := Run(Initial(1), events);
            && StateOf(st.pcbs, 0) == Announce1 && PcbOf(st.pcbs, 0).ready
            && st.log == [Opened(0), Renamed] + [Starved(0), Resumed(0)]
  {
    var e1, e2 := Enabling(0, true, [], Enough(0)), Naming([], map[0 := NoPacket]);
    var e3 := Announcement(0, [], false, Enough(0), false);
    RunThree(Initial(1), [e1, e2, e3]);
    OpensUnnamed();
    var a := Step(Initial(1), e1);
    NamedWithoutMemory(a);
    ResumesAt(Step(a, e2), 0, [Opened(0), Renamed], Starved(0));
  }

  /** Hosts are probed for before they are announced, in every run in which at most m probes lack memory, if and only if
      none does. */
  lemma MemoryDecides(m: nat)
    ensures (forall size, events | Starvations(Run(Initial(size), events).log) <= m ::
               HostsAreProbed(Run(Initial(size), events))) <==> m == 0
  {
    if m == 0 {
      forall size, events | Starvations(Run(Initial(size), events).log) <= m
        ensures HostsAreProbed(Run(Initial(size), events))
      {
        var st := Run(Initial(size), events);
        forall port | IsOut(st, port) ensures Since(st.log, port).probed {
          ReachedHost(size, events, port);
          NeverStarved(st.log, port);
        }
      }
    } else {
      var events := [Enabling(0, true, [], Enough(0)), Naming([], map[0 := NoPacket]),
                     Announcement(0, [], false, Enough(0), false)];
      StarvedAnnounces();
      var st := Run(Initial(1), events);
      ShortLog(st.log);
      assert IsOut(st, 0) && !HostsAreProbed(st);
    }
  }

  lemma ShortLog(log: seq<Entry>)
    requires log == [Opened(0), Renamed] + [Starved(0), Resumed(0)]
    ensures Starvations(log) == 1 && !Since(log, 0).probed
  {
    var a, b, c := [Opened(0)], [Opened(0), Renamed], [Opened(0), Renamed] + [Starved(0)];
    assert log == c + [Resumed(0)] && b == a + [Renamed] && a == [] + [Opened(0)];
    SinceAfter(c, Resumed(0), 0);
    SinceAfter(b, Starved(0), 0);
    SinceAfter(a, Renamed, 0);
    StarvationsAfter(c, Resumed(0));
    StarvationsAfter(b, Starved(0));
    StarvationsAfter(a, Renamed);
    StarvationsAfter([], Opened(0));
  }
}
