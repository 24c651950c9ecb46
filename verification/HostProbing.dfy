/** When a port of components/mdns/mdns_pcb.c may announce: over every run, a port that is open announces only after
    its host was probed for completely, unless a probe could not be started for want of memory. */
module HostProbing {
  import opened Common
  import opened TxQueue
  import opened ProbeMachine

  // ------------------------------------------------------------------ the log since the port was opened

  /** From here on the host has to be probed for: the port was opened, or the host got a new name. */
  predicate IsMark(e: Entry, port: nat) {
    e.Renamed? || (e.Opened? && e.port == port)
  }

  /** What is known of a port since the last mark: its latest probe asks for the host, such a probe was followed by its
      announcement, a probe could not be started. */
  datatype Known = Known(asks: bool, probed: bool, starved: bool)

  function After(k: Known, e: Entry, port: nat): (r: Known) {
    if IsMark(e, port) then Known(false, false, false)
    else if e.Renamed? || e.port != port then k
    else if e.Started? then k.(asks := e.ip)
    else if e.Announced? then k.(probed := k.probed || k.asks)
    else if e.Starved? then k.(starved := true)
    else k
  }

  function Since(log: seq<Entry>, port: nat): (r: Known) {
    if log == [] then Known(false, false, false) else After(Since(log[..|log| - 1], port), Last(log), port)
  }

  lemma SinceAfter(log: seq<Entry>, e: Entry, port: nat)
    ensures Since(log + [e], port) == After(Since(log, port), e, port)
  {
    assert (log + [e])[..|log|] == log;
  }

  // ------------------------------------------------------------------ the invariant

  predicate Permitted(p: Pcb, named: bool, k: Known) {
    match p.state
    case Off => false
    case Dup => false
    case Init => false
    case Running => k.probed || !named
    case _ => k.probed || (InProbe(p.state) && p.ip && k.asks)
  }

  predicate HostInv(st: State, port: nat) {
    var p, k := PcbOf(st.pcbs, port), Since(st.log, port);
    p.ready ==> port < st.size && (k.starved || Permitted(p, st.named, k))
  }

  /** Nothing about the port happened. */
  lemma OtherEntry(st: State, q: State, e: Entry, port: nat)
    requires HostInv(st, port) && q.log == st.log + [e] && !IsMark(e, port) && !IsStart(e, port)
    requires q.named == st.named && q.size == st.size && PcbOf(q.pcbs, port) == PcbOf(st.pcbs, port)
    ensures HostInv(q, port)
  {
    SinceAfter(st.log, e, port);
  }

  /** What a port may do without an entry: go on probing for the same, or go on to a later state, but from a probe for
      the host only by completing it. */
  predicate MayMove(p: Pcb, r: Pcb) {
    || !r.ready
    || (p.ready && r.state == p.state && (InProbe(r.state) ==> r.ip == p.ip))
    || (p.ready && InProbe(p.state) && InProbe(r.state) && r.ip == p.ip)
    || (p.ready && IsAfterProbing(r.state) && (IsAnnouncing(p.state) || (r.state == Running && !p.ip)))
  }

  lemma MovedOn(st: State, q: State, port: nat)
    requires HostInv(st, port) && q.log == st.log && q.named == st.named && q.size == st.size
    requires MayMove(PcbOf(st.pcbs, port), PcbOf(q.pcbs, port))
    ensures HostInv(q, port)
  {
  }

  /** The latest probe asks for the host if it is said to. */
  lemma RestartSame(st: State, port: nat, services: seq<nat>, ip: bool, memory: Memory, other: nat)
    requires other != port && HostInv(st, other)
    ensures HostInv(Restart(st, port, services, ip, memory), other)
  {
    var q := Restart(st, port, services, ip, memory);
    if q.log != st.log {
      OtherEntry(st, q, Last(q.log), other);
    }
  }

  lemma StartedHost(st: State, q: State, port: nat, ip: bool)
    requires port < st.size == q.size && InProbe(StateOf(q.pcbs, port)) && PcbOf(q.pcbs, port).ip == ip
    requires q.log == st.log + [Started(port, st.next, ip)] && q.named == st.named
    requires ip || (HostInv(st, port) && PcbOf(q.pcbs, port).ready == PcbOf(st.pcbs, port).ready)
    requires !ip ==> !PcbOf(st.pcbs, port).ip && st.named
    ensures HostInv(q, port)
  {
    SinceAfter(st.log, Started(port, st.next, ip), port);
  }

  /** A restart for the host is right from every state, any other from a permitted one. */
  lemma RestartHost(st: State, port: nat, services: seq<nat>, ip: bool, memory: Memory)
    requires port < st.size && (ip || HostInv(st, port))
    ensures HostInv(Restart(st, port, services, ip, memory), port)
  {
    var q := Restart(st, port, services, ip, memory);
    if st.named {
      if memory.Enough? {
        StartedHost(st, q, port, PcbOf(st.pcbs, port).ip || ip);
      } else {
        SinceAfter(st.log, Starved(port), port);
      }
    }
  }

  lemma RestartAny(st: State, port: nat, services: seq<nat>, ip: bool, memory: Memory, other: nat)
    requires HostInv(st, other)
    ensures HostInv(Restart(st, port, services, ip, memory), other)
  {
    if other != port {
      RestartSame(st, port, services, ip, memory, other);
    } else if PcbOf(st.pcbs, port).ready {
      RestartHost(st, port, services, ip, memory);
    }
  }

  lemma ProbeOneHost(st: State, port: nat, services: seq<nat>, ip: bool, forget: bool, memory: Memory, other: nat)
    requires HostInv(st, other)
    ensures HostInv(ProbeOne(st, port, services, ip, forget, memory), other)
  {
    var p := PcbOf(st.pcbs, port);
    var forgotten := if forget then SetPcb(st, port, p.(services := [], running := false)) else st;
    RestartAny(forgotten, port, services, ip, memory, other);
  }

  lemma ProbeBelowHost(st: State, n: nat, services: seq<nat>, ip: bool, forget: bool, memory: map<nat, Memory>,
                       other: nat)
    requires HostInv(st, other)
    ensures HostInv(ProbeBelow(st, n, services, ip, forget, memory), other)
  {
    forall a: State, port: nat, m: Memory | HostInv(a, other)
      ensures HostInv(ProbeOne(a, port, services, ip, forget, m), other)
    {
      ProbeOneHost(a, port, services, ip, forget, m, other);
    }
    EveryTurnKeeps(st, n, services, ip, forget, memory, a => HostInv(a, other));
  }

  lemma ProbeOneSame(st: State, port: nat, services: seq<nat>, ip: bool, forget: bool, memory: Memory, other: nat)
    ensures var q := ProbeOne(st, port, services, ip, forget, memory);
            q.size == st.size && PcbOf(q.pcbs, other).ready == PcbOf(st.pcbs, other).ready
  {
  }

  /** Probing opens and closes nothing. */
  lemma ProbeBelowSame(st: State, n: nat, services: seq<nat>, ip: bool, forget: bool, memory: map<nat, Memory>,
                       other: nat)
    ensures var q := ProbeBelow(st, n, services, ip, forget, memory);
            q.size == st.size && PcbOf(q.pcbs, other).ready == PcbOf(st.pcbs, other).ready
  {
    var keeps := (a: State) => a.size == st.size && PcbOf(a.pcbs, other).ready == PcbOf(st.pcbs, other).ready;
    forall a: State, port: nat, m: Memory | keeps(a) ensures keeps(ProbeOne(a, port, services, ip, forget, m)) {
      ProbeOneSame(a, port, services, ip, forget, m, other);
    }
    EveryTurnKeeps(st, n, services, ip, forget, memory, keeps);
  }

  /** A turn for the host is right for its own port in every state, and for the others if they were right. */
  lemma TurnHost(st: State, q: State, turn: nat, services: seq<nat>, forget: bool, memory: Memory, port: nat)
    requires q == ProbeOne(st, turn, services, true, forget, memory) && turn < st.size
    requires port != turn ==> HostInv(st, port)
    ensures HostInv(q, port)
  {
    if port != turn {
      ProbeOneHost(st, turn, services, true, forget, memory, port);
    } else {
      var p := PcbOf(st.pcbs, port);
      RestartHost(if forget then SetPcb(st, port, p.(services := [], running := false)) else st, port, services, true,
                  memory);
    }
  }

  /** Probing all ports for the host restores the invariant, whatever held before. */
  lemma {:induction false} ProbeAllHost(st: State, q: State, n: nat, services: seq<nat>, forget: bool,
                                        memory: map<nat, Memory>, port: nat)
    requires port < n <= st.size && q == ProbeBelow(st, n, services, true, forget, memory)
    ensures HostInv(q, port)
    decreases n
  {
    var before := ProbeBelow(st, n - 1, services, true, forget, memory);
    if port < n - 1 {
      ProbeAllHost(st, before, n - 1, services, forget, memory, port);
    }
    ProbeBelowSame(st, n - 1, services, true, forget, memory, port);
    TurnHost(before, q, n - 1, services, forget, MemoryFor(memory, n - 1), port);
  }

  lemma RenameHost(st: State, services: seq<nat>, memory: map<nat, Memory>, port: nat)
    requires HostInv(st, port)
    ensures HostInv(Rename(st, services, memory), port)
  {
    var noted := Note(st.(named := true, queue := []), Renamed);
    if port < st.size {
      ProbeAllHost(noted, Rename(st, services, memory), st.size, services, true, memory, port);
    } else {
      ProbeBelowSame(noted, st.size, services, true, true, memory, port);
    }
  }

  lemma EnableHost(st: State, port: nat, opens: bool, services: seq<nat>, memory: Memory, other: nat)
    requires HostInv(st, other)
    ensures HostInv(Enable(st, port, opens, services, memory), other)
  {
    var p := PcbOf(st.pcbs, port);
    if port < st.size && (p.ready || opens) {
      var marked := Note(SetPcb(st, port, p.(ready := true)), Opened(port));
      if other == port {
        RestartHost(marked, port, services, true, memory);
      } else {
        OtherEntry(st, marked, Opened(port), other);
        RestartSame(marked, port, services, true, memory, other);
      }
    }
  }

  lemma WakeHost(st: State, other: Option<nat>, opens: bool, services: seq<nat>, memory: Memory, k: nat)
    requires HostInv(st, k)
    ensures HostInv(Wake(st, other, opens, services, memory), k)
  {
    if other.Some? && StateOf(st.pcbs, other.value).Dup? {
      EnableHost(SetState(st, other.value, Off), other.value, opens, services, memory, k);
    }
  }

  /** Nobody but a duplicate wakes up. */
  lemma WakeOther(st: State, other: Option<nat>, opens: bool, services: seq<nat>, memory: Memory, port: nat)
    requires !StateOf(st.pcbs, port).Dup?
    ensures PcbOf(Wake(st, other, opens, services, memory).pcbs, port) == PcbOf(st.pcbs, port)
  {
  }

  lemma OffHost(st: State, port: nat, k: nat)
    requires HostInv(st, k) && !PcbOf(st.pcbs, port).ready
    ensures HostInv(SetState(st, port, Off), k)
  {
  }

  lemma DisableHost(st: State, port: nat, other: Option<nat>, opens: bool, services: seq<nat>, memory: Memory, k: nat)
    requires HostInv(st, k)
    ensures HostInv(Disable(st, port, other, opens, services, memory), k)
  {
    var a := Close(st, port);
    if PcbOf(st.pcbs, port).ready {
      WakeHost(a, other, opens, services, memory, k);
      WakeOther(a, other, opens, services, memory, port);
      OffHost(Wake(a, other, opens, services, memory), port, k);
    } else {
      OffHost(st, port, k);
    }
  }

  lemma ResumeHost(st: State, q: State, port: nat, other: nat)
    requires HostInv(st, other) && st.named && StateOf(st.pcbs, port) == Running
    requires q.log == st.log + [Resumed(port)] && q.named == st.named && q.size == st.size
    requires q.pcbs == st.pcbs[port := PcbOf(st.pcbs, port).(state := Announce1)]
    ensures HostInv(q, other)
  {
    SinceAfter(st.log, Resumed(port), other);
  }

  lemma AnnounceHost(st: State, port: nat, services: seq<nat>, ip: bool, memory: Memory, prepared: bool, other: nat)
    requires HostInv(st, other)
    ensures HostInv(Announce(st, port, services, ip, memory, prepared), other)
  {
    var s, q := StateOf(st.pcbs, port), Announce(st, port, services, ip, memory, prepared);
    if !PcbOf(st.pcbs, port).ready {
    } else if IsProbing(s) {
      RestartAny(st, port, services, ip, memory, other);
    } else if s.Running? && st.named {
      ResumeHost(st, q, port, other);
    } else {
      MovedOn(st, q, other);
    }
  }

  lemma DuplicateHost(st: State, port: nat, other: nat, memory: Memory, prepared: bool, k: nat)
    requires HostInv(st, k)
    ensures HostInv(Duplicate(st, port, other, memory, prepared), k)
  {
    if PcbOf(st.pcbs, other).ready {
      AnnounceHost(SetState(Close(st, port), port, Dup), other, [], true, memory, prepared, k);
    }
  }

  /** A probe is complete. */
  lemma FinishHost(st: State, q: State, port: nat, other: nat)
    requires HostInv(st, other) && StateOf(st.pcbs, port) == Probe3 && q.named == st.named && q.size == st.size
    requires q.log == st.log + [Announced(port, st.next, st.clock)]
    requires q.pcbs == st.pcbs[port := Finished(PcbOf(st.pcbs, port))]
    ensures HostInv(q, other)
  {
    SinceAfter(st.log, Announced(port, st.next, st.clock), other);
  }

  lemma StateMoves(pcbs: map<nat, Pcb>, x: nat, s: PcbState, port: nat)
    requires var was := StateOf(pcbs, x); (InProbe(was) && InProbe(s)) || (IsAnnouncing(was) && IsAfterProbing(s))
    ensures MayMove(PcbOf(pcbs, port), PcbOf(pcbs[x := PcbOf(pcbs, x).(state := s)], port))
  {
  }

  lemma ProceedMoves(st: State, x: Packet, prepared: bool, port: nat)
    requires !(StateOf(st.pcbs, x.port).Probe3? && prepared)
    ensures MayMove(PcbOf(st.pcbs, port), PcbOf(Proceed(st, x, prepared).pcbs, port))
  {
    match StateOf(st.pcbs, x.port) {
      case Probe1 => StateMoves(st.pcbs, x.port, Probe2, port);
      case Probe2 => StateMoves(st.pcbs, x.port, Probe3, port);
      case Announce1 => StateMoves(st.pcbs, x.port, Announce2, port);
      case Announce2 => StateMoves(st.pcbs, x.port, Announce3, port);
      case Announce3 => StateMoves(st.pcbs, x.port, Running, port);
      case _ =>
    }
  }

  /** The transitions of a port whose packet was sent. */
  lemma ProceedHost(st: State, x: Packet, prepared: bool, port: nat)
    requires HostInv(st, port)
    ensures HostInv(Proceed(st, x, prepared), port)
  {
    var q := Proceed(st, x, prepared);
    if StateOf(st.pcbs, x.port).Probe3? && prepared {
      FinishHost(st, q, x.port, port);
    } else {
      ProceedMoves(st, x, prepared, port);
      MovedOn(st, q, port);
    }
  }

  lemma ExecuteHost(st: State, prepared: bool, port: nat)
    requires HostInv(st, port) && st.actions != []
    ensures HostInv(Execute(st, prepared), port)
  {
    var id, rest := st.actions[0], st.(actions := st.actions[1..]);
    if st.queue != [] && st.queue[0].id == id && st.queue[0].queued && !StateOf(st.pcbs, st.queue[0].port).Off? {
      var x := st.queue[0];
      var noted := Note(rest.(queue := st.queue[1..]), Sent(x.port, x.id, st.clock));
      OtherEntry(st, noted, Sent(x.port, x.id, st.clock), port);
      ProceedHost(noted, x, prepared, port);
    }
  }

  lemma RemovalHost(st: State, service: nat, cleared: set<nat>, empty: set<nat>, port: nat)
    requires HostInv(st, port)
    ensures HostInv(RemoveService(st, service, cleared, empty), port)
  {
    CheckedAt(st.pcbs, st.queue, service, cleared, port);
    MovedOn(st, RemoveService(st, service, cleared, empty), port);
  }

  lemma StepHost(st: State, ev: Event, k: nat)
    requires HostInv(st, k)
    ensures HostInv(Step(st, ev), k)
  {
    match ev {
      case Wait(until) =>
      case Timer(n) =>
      case Action(prepared) => {
        if st.actions != [] {
          ExecuteHost(st, prepared, k);
        }
      }
      case Naming(services, memory) => RenameHost(st, services, memory, k);
      case Enabling(port, opens, services, start) => EnableHost(st, port, opens, services, start, k);
      case Disabling(port, other, opens, services, start) => DisableHost(st, port, other, opens, services, start, k);
      case Duplicating(port, another, start, prepared) => DuplicateHost(st, port, another, start, prepared, k);
      case Probe(port, services, ip, start) => RestartAny(st, port, services, ip, start, k);
      case ProbeAll(services, ip, forget, memory) => ProbeBelowHost(st, st.size, services, ip, forget, memory, k);
      case Announcement(port, services, ip, start, prepared) =>
        AnnounceHost(st, port, services, ip, start, prepared, k);
      case Reply(port, delay) =>
      case Failure(port) =>
      case Removal(service, cleared, empty) => RemovalHost(st, service, cleared, empty, k);
      case Stop =>
    }
  }

  lemma {:induction false} RunHost(st: State, events: seq<Event>, port: nat)
    requires HostInv(st, port)
    ensures HostInv(Run(st, events), port)
    decreases events
  {
    if events != [] {
      StepHost(st, events[0], port);
      RunHost(Step(st, events[0]), events[1..], port);
    }
  }

  // ------------------------------------------------------------------ what every run gives

  /** An entry of the log with no mark behind it. */
  predicate IsRecent(log: seq<Entry>, i: nat, port: nat) {
    i < |log| && forall k | i <= k < |log| :: !IsMark(log[k], port)
  }

  lemma {:induction false} StarvedAt(log: seq<Entry>, port: nat) returns (i: nat)
    requires Since(log, port).starved
    ensures IsRecent(log, i, port) && log[i] == Starved(port)
  {
    if Last(log) == Starved(port) {
      i := |log| - 1;
    } else {
      i := StarvedAt(log[..|log| - 1], port);
    }
  }

  lemma {:induction false} AskedAt(log: seq<Entry>, port: nat) returns (j: nat)
    requires Since(log, port).asks
    ensures IsRecent(log, j, port) && IsStart(log[j], port) && log[j].ip
    ensures forall k | j < k < |log| :: !IsStart(log[k], port)
  {
    if IsStart(Last(log), port) {
      j := |log| - 1;
    } else {
      j := AskedAt(log[..|log| - 1], port);
    }
  }

  lemma {:induction false} ProbedAt(log: seq<Entry>, port: nat) returns (i: nat)
    requires Since(log, port).probed
    ensures IsRecent(log, i, port) && log[i].Announced? && log[i].port == port && Since(log[..i], port).asks
  {
    var init := log[..|log| - 1];
    if Since(init, port).probed {
      i := ProbedAt(init, port);
      assert init[..i] == log[..i];
    } else {
      i := |log| - 1;
    }
  }

  /** A probe for the host, started at j behind the last mark, was sent three times, more than 250 ms apart, before
      another probe was started. */
  predicate IsHostProbe(log: seq<Entry>, port: nat, j: nat, a: nat, b: nat, c: nat) {
    && IsRecent(log, j, port) && IsStart(log[j], port) && log[j].ip && j < a
    && IsThree(log, port, log[j].id, a, b, c) && forall k | j < k <= c :: !IsStart(log[k], port)
  }

  lemma HostProbeIn(log: seq<Entry>, port: nat) returns (j: nat, a: nat, b: nat, c: nat)
    requires Lawful(log) && Since(log, port).probed
    ensures IsHostProbe(log, port, j, a, b, c)
  {
    var i := ProbedAt(log, port);
    var start := AskedAt(log[..i], port);
    LawfulAt(log, i);
    j, a, b, c := LastThree(log[..i], port, log[i].time);
    assert j == start;
    assert forall k | j <= k < i :: log[..i][k] == log[k];
  }

  lemma ReachedHost(size: nat, events: seq<Event>, port: nat)
    ensures Inv(Run(Initial(size), events)) && HostInv(Run(Initial(size), events), port)
  {
    InitialInv(size);
    RunKeeps(Initial(size), events);
    RunHost(Initial(size), events, port);
  }

  /** A port that is open and announces, or runs although the host has a name. */
  predicate IsOut(st: State, port: nat) {
    var p := PcbOf(st.pcbs, port);
    p.ready && (IsAnnouncing(p.state) || (p.state.Running? && st.named))
  }

  /** Section 8.1 of RFC 6762 for the host, over every run, whichever way the port came there: since it was opened and
      the host got its name, a probe for the host was completed, or a probe could not be started. */
  lemma EveryRunProbesHost(size: nat, events: seq<Event>, port: nat) returns (j: nat, a: nat, b: nat, c: nat)
    requires IsOut(Run(Initial(size), events), port)
    ensures var log := Run(Initial(size), events).log;
            IsHostProbe(log, port, j, a, b, c) || (IsRecent(log, j, port) && log[j] == Starved(port))
  {
    var st := Run(Initial(size), events);
    ReachedHost(size, events, port);
    a, b, c := 0, 0, 0;
    if Since(st.log, port).starved {
      j := StarvedAt(st.log, port);
    } else {
      j, a, b, c := HostProbeIn(st.log, port);
    }
  }
}
