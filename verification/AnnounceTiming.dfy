/** The log of the probe machine and the states of its ports: an announcement is noted exactly when a port begins to
    announce. */
module AnnounceTiming {
  import opened Common
  import opened TxQueue
  import opened ProbeMachine

  // ------------------------------------------------------------------ how a port comes to announce or run

  predicate IsOutside(st: State, port: nat) {
    !IsAnnouncing(StateOf(st.pcbs, port))
  }

  predicate IsNote(e: Entry, port: nat) {
    (e.Announced? || e.Resumed?) && e.port == port
  }

  /** How often the port has begun to announce. */
  function Noted(log: seq<Entry>, port: nat): (n: nat) {
    if log == [] then 0 else Noted(log[..|log| - 1], port) + if IsNote(Last(log), port) then 1 else 0
  }

  lemma NotedAfter(log: seq<Entry>, e: Entry, port: nat)
    ensures Noted(log + [e], port) == Noted(log, port) + if IsNote(e, port) then 1 else 0
  {
    assert (log + [e])[..|log|] == log;
  }

  /** Nothing was noted, and the port did not begin to announce. */
  predicate IsUneventful(st: State, q: State, port: nat) {
    Noted(q.log, port) == Noted(st.log, port) && (IsOutside(st, port) ==> IsOutside(q, port))
  }

  /** What happens to the port and to the log in a step that begins an announcement, and in every other. */
  ghost predicate IsNoted(st: State, q: State, port: nat) {
    || IsUneventful(st, q, port)
    || (&& IsOutside(st, port) && !IsOutside(q, port) && Noted(q.log, port) == Noted(st.log, port) + 1
        && q.log != [] && IsNote(Last(q.log), port)
        && if Last(q.log).Announced? then StateOf(st.pcbs, port) == Probe3 && Last(q.log).time == st.clock
           else PcbOf(st.pcbs, port).ready && StateOf(st.pcbs, port) == Running && st.named)
  }

  lemma RestartUneventful(st: State, port: nat, services: seq<nat>, ip: bool, memory: Memory, other: nat)
    ensures IsUneventful(st, Restart(st, port, services, ip, memory), other)
  {
    var q := Restart(st, port, services, ip, memory);
    if q.log != st.log {
      NotedAfter(st.log, Last(q.log), other);
    }
  }

  lemma ProbeOneUneventful(st: State, port: nat, services: seq<nat>, ip: bool, forget: bool, memory: Memory, other: nat)
    ensures IsUneventful(st, ProbeOne(st, port, services, ip, forget, memory), other)
  {
    var p := PcbOf(st.pcbs, port);
    RestartUneventful(if forget then SetPcb(st, port, p.(services := [], running := false)) else st, port, services, ip,
                      memory, other);
  }

  lemma ProbeBelowUneventful(st: State, n: nat, services: seq<nat>, ip: bool, forget: bool, memory: map<nat, Memory>,
                             other: nat)
    ensures IsUneventful(st, ProbeBelow(st, n, services, ip, forget, memory), other)
  {
    forall a: State, port: nat, m: Memory | IsUneventful(st, a, other)
      ensures IsUneventful(st, ProbeOne(a, port, services, ip, forget, m), other)
    {
      ProbeOneUneventful(a, port, services, ip, forget, m, other);
    }
    EveryTurnKeeps(st, n, services, ip, forget, memory, a => IsUneventful(st, a, other));
  }

  lemma RenameUneventful(st: State, services: seq<nat>, memory: map<nat, Memory>, port: nat)
    ensures IsUneventful(st, Rename(st, services, memory), port)
  {
    NotedAfter(st.log, Renamed, port);
    ProbeBelowUneventful(Note(st.(named := true, queue := []), Renamed), st.size, services, true, true, memory, port);
  }

  lemma OpeningUneventful(st: State, port: nat, p: Pcb, q: State, other: nat)
    requires p.state == StateOf(st.pcbs, port) && q == Note(SetPcb(st, port, p), Opened(port))
    ensures IsUneventful(st, q, other)
  {
    NotedAfter(st.log, Opened(port), other);
  }

  lemma EnableUneventful(st: State, port: nat, opens: bool, services: seq<nat>, memory: Memory, other: nat)
    ensures IsUneventful(st, Enable(st, port, opens, services, memory), other)
  {
    var p := PcbOf(st.pcbs, port);
    if port < st.size && (p.ready || opens) {
      var q := Note(SetPcb(st, port, p.(ready := true)), Opened(port));
      OpeningUneventful(st, port, p.(ready := true), q, other);
      RestartUneventful(q, port, services, true, memory, other);
    }
  }

  lemma WakeUneventful(st: State, other: Option<nat>, opens: bool, services: seq<nat>, memory: Memory, k: nat)
    ensures IsUneventful(st, Wake(st, other, opens, services, memory), k)
  {
    if other.Some? && StateOf(st.pcbs, other.value).Dup? {
      EnableUneventful(SetState(st, other.value, Off), other.value, opens, services, memory, k);
    }
  }

  lemma DisableUneventful(st: State, port: nat, other: Option<nat>, opens: bool, services: seq<nat>, memory: Memory,
                          k: nat)
    ensures IsUneventful(st, Disable(st, port, other, opens, services, memory), k)
  {
    WakeUneventful(Close(st, port), other, opens, services, memory, k);
  }

  lemma AnnounceNoted(st: State, port: nat, services: seq<nat>, ip: bool, memory: Memory, prepared: bool, k: nat)
    ensures IsNoted(st, Announce(st, port, services, ip, memory, prepared), k)
  {
    if IsProbing(StateOf(st.pcbs, port)) {
      RestartUneventful(st, port, services, ip, memory, k);
    } else {
      NotedAfter(st.log, Resumed(port), k);
    }
  }

  lemma DuplicateNoted(st: State, port: nat, other: nat, memory: Memory, prepared: bool, k: nat)
    ensures IsNoted(st, Duplicate(st, port, other, memory, prepared), k)
  {
    var closed := SetState(Close(st, port), port, Dup);
    assert IsUneventful(st, closed, k);
    AnnounceNoted(closed, other, [], true, memory, prepared, k);
  }

  lemma ProceedNoted(st: State, x: Packet, prepared: bool, port: nat)
    ensures IsNoted(st, Proceed(st, x, prepared), port)
  {
    NotedAfter(st.log, Announced(x.port, st.next, st.clock), port);
  }

  lemma ExecuteNoted(st: State, prepared: bool, port: nat)
    requires st.actions != []
    ensures IsNoted(st, Execute(st, prepared), port)
  {
    if st.queue != [] {
      var x := st.queue[0];
      var noted := Note(st.(actions := st.actions[1..], queue := st.queue[1..]), Sent(x.port, x.id, st.clock));
      NotedAfter(st.log, Sent(x.port, x.id, st.clock), port);
      ProceedNoted(noted, x, prepared, port);
    }
  }

  /** A port begins to announce in two ways only: when its third probe, or a later one, is sent, or again from Running.
      Each time is noted at the end of the log, and nothing else is noted as one. */
  lemma EveryBeginningIsNoted(st: State, ev: Event, k: nat)
    ensures IsNoted(st, Step(st, ev), k)
  {
    match ev {
      case Wait(until) =>
      case Timer(n) =>
      case Action(prepared) => {
        if st.actions != [] {
          ExecuteNoted(st, prepared, k);
        }
      }
      case Naming(services, memory) => RenameUneventful(st, services, memory, k);
      case Enabling(port, opens, services, start) => EnableUneventful(st, port, opens, services, start, k);
      case Disabling(port, other, opens, services, start) =>
        DisableUneventful(st, port, other, opens, services, start, k);
      case Duplicating(port, another, start, prepared) => DuplicateNoted(st, port, another, start, prepared, k);
      case Probe(port, services, ip, start) => RestartUneventful(st, port, services, ip, start, k);
      case ProbeAll(services, ip, forget, memory) => ProbeBelowUneventful(st, st.size, services, ip, forget, memory, k);
      case Announcement(port, services, ip, start, prepared) =>
        AnnounceNoted(st, port, services, ip, start, prepared, k);
      case Reply(port, delay) =>
      case Failure(port) =>
      case Removal(service, cleared, empty) => CheckedAt(st.pcbs, st.queue, service, cleared, k);
      case Stop =>
    }
  }
}
