/** When packets are sent: no probe and no announcement before its time. */
module SendTiming {
  import opened Common
  import opened TxQueue
  import opened ProbeMachine

  // ------------------------------------------------------------------ steps that send nothing

  /** A packet that was there, perhaps later, or is new. */
  ghost predicate IsFrom(x: Packet, queue: seq<Packet>, next: nat) {
    x.id >= next || exists y :: y in queue && y.id == x.id && y.port == x.port && x.sendAt >= y.sendAt
  }

  /** Nothing was sent or announced, and packets did not become due earlier. */
  ghost predicate IsCalm(st: State, q: State) {
    && q.next >= st.next
    && (forall e <- q.log :: e in st.log || (!e.Sent? && !e.Announced?))
    && (forall x <- q.queue :: IsFrom(x, st.queue, st.next))
  }

  lemma CalmChain(st: State, a: State, q: State)
    requires IsCalm(st, a) && IsCalm(a, q)
    ensures IsCalm(st, q)
  {
    forall x | x in q.queue ensures IsFrom(x, st.queue, st.next) {
      if x.id < a.next {
        var y :| y in a.queue && y.id == x.id && y.port == x.port && x.sendAt >= y.sendAt;
        assert IsFrom(y, st.queue, st.next);
      }
    }
  }

  lemma RestartCalm(st: State, port: nat, services: seq<nat>, ip: bool, memory: Memory)
    ensures IsCalm(st, Restart(st, port, services, ip, memory))
  {
  }

  lemma ProbeOneCalm(st: State, port: nat, services: seq<nat>, ip: bool, forget: bool, memory: Memory)
    ensures IsCalm(st, ProbeOne(st, port, services, ip, forget, memory))
  {
    var p := PcbOf(st.pcbs, port);
    RestartCalm(if forget then SetPcb(st, port, p.(services := [], running := false)) else st, port, services, ip,
                memory);
  }

  lemma ProbeBelowCalm(st: State, n: nat, services: seq<nat>, ip: bool, forget: bool, memory: map<nat, Memory>)
    ensures IsCalm(st, ProbeBelow(st, n, services, ip, forget, memory))
  {
    forall a: State, port: nat, m: Memory | IsCalm(st, a)
      ensures IsCalm(st, ProbeOne(a, port, services, ip, forget, m))
    {
      ProbeOneCalm(a, port, services, ip, forget, m);
      CalmChain(st, a, ProbeOne(a, port, services, ip, forget, m));
    }
    EveryTurnKeeps(st, n, services, ip, forget, memory, a => IsCalm(st, a));
  }

  lemma RenameCalm(st: State, services: seq<nat>, memory: map<nat, Memory>)
    ensures IsCalm(st, Rename(st, services, memory))
  {
    var noted := Note(st.(named := true, queue := []), Renamed);
    ProbeBelowCalm(noted, st.size, services, true, true, memory);
    CalmChain(st, noted, Rename(st, services, memory));
  }

  lemma EnableCalm(st: State, port: nat, opens: bool, services: seq<nat>, memory: Memory)
    ensures IsCalm(st, Enable(st, port, opens, services, memory))
  {
    var q := Note(SetPcb(st, port, PcbOf(st.pcbs, port).(ready := true)), Opened(port));
    RestartCalm(q, port, services, true, memory);
    CalmChain(st, q, Restart(q, port, services, true, memory));
  }

  lemma DisableCalm(st: State, port: nat, other: Option<nat>, opens: bool, services: seq<nat>, memory: Memory)
    ensures IsCalm(st, Disable(st, port, other, opens, services, memory))
  {
    var a := Close(st, port);
    assert IsCalm(st, a);
    if other.Some? {
      var b := SetState(a, other.value, Off);
      EnableCalm(b, other.value, opens, services, memory);
      CalmChain(st, b, Enable(b, other.value, opens, services, memory));
    }
  }

  lemma AnnounceCalm(st: State, port: nat, services: seq<nat>, ip: bool, memory: Memory, prepared: bool)
    ensures IsCalm(st, Announce(st, port, services, ip, memory, prepared))
  {
    RestartCalm(st, port, services, ip, memory);
  }

  lemma DuplicateCalm(st: State, port: nat, other: nat, memory: Memory, prepared: bool)
    ensures IsCalm(st, Duplicate(st, port, other, memory, prepared))
  {
    var a := SetState(Close(st, port), port, Dup);
    AnnounceCalm(a, other, [], true, memory, prepared);
    CalmChain(st, a, Announce(a, other, [], true, memory, prepared));
  }

  lemma TimerCalm(st: State, n: nat)
    requires Inv(st)
    ensures IsCalm(st, Step(st, Timer(n)))
  {
    var q := Step(st, Timer(n));
    FlagFromKeeps(st.queue, st.clock, n);
    forall x | x in q.queue ensures IsFrom(x, st.queue, st.next) {
      var y := LikeFrom(st.queue, q.queue, st.clock, x);
    }
  }

  lemma StepCalm(st: State, ev: Event)
    requires Inv(st) && !ev.Action?
    ensures IsCalm(st, Step(st, ev))
  {
    match ev {
      case Wait(until) =>
      case Timer(n) => TimerCalm(st, n);
      case Naming(services, memory) => RenameCalm(st, services, memory);
      case Enabling(port, opens, services, start) => EnableCalm(st, port, opens, services, start);
      case Disabling(port, other, opens, services, start) => DisableCalm(st, port, other, opens, services, start);
      case Duplicating(port, another, start, prepared) => DuplicateCalm(st, port, another, start, prepared);
      case Probe(port, services, ip, start) => RestartCalm(st, port, services, ip, start);
      case ProbeAll(services, ip, forget, memory) => ProbeBelowCalm(st, st.size, services, ip, forget, memory);
      case Announcement(port, services, ip, start, prepared) => AnnounceCalm(st, port, services, ip, start, prepared);
      case Reply(port, delay) =>
      case Failure(port) =>
      case Removal(service, cleared, empty) =>
      case Stop =>
    }
  }

  // ------------------------------------------------------------------ what is sent

  /** The packet is of this port, was not sent before this time, and does not become due before it. */
  ghost predicate IsLate(st: State, id: nat, port: nat, time: int) {
    && id < st.next
    && (forall x <- st.queue :: x.id == id ==> x.port == port && x.sendAt >= time)
    && (forall f <- st.log :: f.Sent? && f.id == id ==> f.port == port && f.time > time)
  }

  lemma CalmLate(st: State, q: State, id: nat, port: nat, time: int)
    requires IsCalm(st, q) && IsLate(st, id, port, time)
    ensures IsLate(q, id, port, time)
  {
    forall x | x in q.queue && x.id == id ensures x.port == port && x.sendAt >= time {
      assert IsFrom(x, st.queue, st.next);
    }
  }

  /** A packet that was sent goes back to the queue for later, if at all. */
  lemma ProceedLate(st: State, x: Packet, prepared: bool, id: nat, port: nat, time: int)
    requires IsLate(st, id, port, time) && (x.id == id ==> x.port == port && time <= st.clock)
    ensures IsLate(Proceed(st, x, prepared), id, port, time)
  {
  }

  lemma ExecuteLate(st: State, prepared: bool, id: nat, port: nat, time: int)
    requires Inv(st) && IsLate(st, id, port, time) && st.actions != []
    ensures IsLate(Execute(st, prepared), id, port, time)
  {
    if st.queue != [] && st.queue[0].id == st.actions[0] && st.queue[0].queued {
      var x, popped := st.queue[0], st.(actions := st.actions[1..], queue := st.queue[1..]);
      assert x in st.queue && x.sendAt < st.clock && forall y <- st.queue[1..] :: y in st.queue;
      assert IsLate(popped, id, port, time);
      var noted := Note(popped, Sent(x.port, x.id, st.clock));
      assert IsLate(noted, id, port, time);
      ProceedLate(noted, x, prepared, id, port, time);
    }
  }

  lemma StepLate(st: State, ev: Event, id: nat, port: nat, time: int)
    requires Inv(st) && IsLate(st, id, port, time)
    ensures IsLate(Step(st, ev), id, port, time)
  {
    if ev.Action? {
      if st.actions != [] {
        ExecuteLate(st, ev.prepared, id, port, time);
      }
    } else {
      StepCalm(st, ev);
      CalmLate(st, Step(st, ev), id, port, time);
    }
  }

  lemma {:induction false} RunLate(st: State, events: seq<Event>, id: nat, port: nat, time: int)
    requires Inv(st) && IsLate(st, id, port, time)
    ensures IsLate(Run(st, events), id, port, time)
    decreases events
  {
    if events != [] {
      StepKeeps(st, events[0]);
      StepLate(st, events[0], id, port, time);
      RunLate(Step(st, events[0]), events[1..], id, port, time);
    }
  }

  // ------------------------------------------------------------------ the first probe waits

  /** No packet of the log or of the queue is new. */
  ghost predicate IsPast(st: State) {
    (forall e <- st.log :: e.Sent? || e.Started? ==> e.id < st.next) && (forall x <- st.queue :: x.id < st.next)
  }

  lemma ProceedPast(st: State, x: Packet, prepared: bool)
    requires IsPast(st) && x.id < st.next
    ensures IsPast(Proceed(st, x, prepared))
  {
  }

  lemma ExecutePast(st: State, prepared: bool)
    requires IsPast(st) && st.actions != []
    ensures IsPast(Execute(st, prepared))
  {
    if st.queue != [] {
      var x, popped := st.queue[0], st.(actions := st.actions[1..], queue := st.queue[1..]);
      assert x in st.queue && forall y <- st.queue[1..] :: y in st.queue;
      assert IsPast(Note(popped, Sent(x.port, x.id, st.clock)));
      ProceedPast(Note(popped, Sent(x.port, x.id, st.clock)), x, prepared);
    }
  }

  /** A probe that can be started has the only packet of its port, at its time; the other ports keep theirs. */
  lemma ProbeScheduled(st: State, port: nat, services: seq<nat>, ip: bool, chance: nat)
    requires st.named
    ensures var q := Restart(st, port, services, ip, Enough(chance));
            var base := if PcbOf(st.pcbs, port).failed > 5 then 1000 else 120;
            && (forall x: Packet :: x in q.queue <==>
                                    (x in st.queue && x.port != port)
                                    || x == Packet(st.next, port, st.clock + base + chance, false))
            && q.log == st.log + [Started(port, st.next, PcbOf(st.pcbs, port).ip || ip)]
  {
  }

  /** How long the first packet of a probe waits. */
  function Pause(st: State, port: nat): (ms: nat) {
    if PcbOf(st.pcbs, port).failed > 5 then 1000 else 120
  }

  /** The packets of probes that were started since are not sent before their time. */
  ghost predicate StartedLate(st: State, q: State) {
    && q.clock == st.clock && q.next >= st.next && IsPast(q)
    && forall e <- q.log :: e.Started? && e.id >= st.next ==> IsLate(q, e.id, e.port, st.clock + Pause(q, e.port))
  }

  /** Nothing more is started. */
  lemma NoMoreStarted(st: State, a: State, q: State)
    requires StartedLate(st, a) && IsCalm(a, q) && q.clock == a.clock && (forall x <- q.queue :: x.id < q.next)
    requires forall e <- q.log :: e.Started? ==> e in a.log
    requires forall e <- a.log :: e.Started? && e.id >= st.next ==>
                                    PcbOf(q.pcbs, e.port).failed == PcbOf(a.pcbs, e.port).failed
    ensures StartedLate(st, q)
  {
    forall e | e in q.log && e.Started? && e.id >= st.next
      ensures IsLate(q, e.id, e.port, st.clock + Pause(q, e.port))
    {
      CalmLate(a, q, e.id, e.port, st.clock + Pause(a, e.port));
    }
  }

  lemma RestartStarts(st: State, a: State, port: nat, services: seq<nat>, ip: bool, memory: Memory)
    requires StartedLate(st, a)
    ensures StartedLate(st, Restart(a, port, services, ip, memory))
  {
    var q := Restart(a, port, services, ip, memory);
    RestartCalm(a, port, services, ip, memory);
    if a.named && memory.Enough? {
      forall e | e in q.log && e.Started? && e.id >= st.next
        ensures IsLate(q, e.id, e.port, st.clock + Pause(q, e.port))
      {
        if e in a.log {
          CalmLate(a, q, e.id, e.port, st.clock + Pause(a, e.port));
        }
      }
    } else {
      NoMoreStarted(st, a, q);
    }
  }

  lemma ProbeOneStarts(st: State, a: State, port: nat, services: seq<nat>, ip: bool, forget: bool, memory: Memory)
    requires StartedLate(st, a)
    ensures StartedLate(st, ProbeOne(a, port, services, ip, forget, memory))
  {
    var p := PcbOf(a.pcbs, port);
    var b := if forget then SetPcb(a, port, p.(services := [], running := false)) else a;
    NoMoreStarted(st, a, b);
    RestartStarts(st, b, port, services, ip, memory);
  }

  lemma ProbeBelowStarts(st: State, a: State, n: nat, services: seq<nat>, ip: bool, forget: bool,
                         memory: map<nat, Memory>)
    requires StartedLate(st, a)
    ensures StartedLate(st, ProbeBelow(a, n, services, ip, forget, memory))
  {
    forall b: State, port: nat, m: Memory | StartedLate(st, b)
      ensures StartedLate(st, ProbeOne(b, port, services, ip, forget, m))
    {
      ProbeOneStarts(st, b, port, services, ip, forget, m);
    }
    EveryTurnKeeps(a, n, services, ip, forget, memory, b => StartedLate(st, b));
  }

  lemma EnableStarts(st: State, a: State, port: nat, opens: bool, services: seq<nat>, memory: Memory)
    requires StartedLate(st, a) && (forall e <- a.log :: e.Started? ==> e.id < st.next)
    ensures StartedLate(st, Enable(a, port, opens, services, memory))
  {
    var p := PcbOf(a.pcbs, port);
    if port < a.size && (p.ready || opens) {
      var b := Note(SetPcb(a, port, p.(ready := true)), Opened(port));
      NoMoreStarted(st, a, b);
      RestartStarts(st, b, port, services, true, memory);
    } else {
      NoMoreStarted(st, a, Enable(a, port, opens, services, memory));
    }
  }

  lemma WakeStarts(st: State, a: State, other: Option<nat>, opens: bool, services: seq<nat>, memory: Memory)
    requires StartedLate(st, a) && (forall e <- a.log :: e.Started? ==> e.id < st.next)
    ensures StartedLate(st, Wake(a, other, opens, services, memory))
  {
    if other.Some? && StateOf(a.pcbs, other.value).Dup? {
      var b := SetState(a, other.value, Off);
      NoMoreStarted(st, a, b);
      EnableStarts(st, b, other.value, opens, services, memory);
    }
  }

  lemma OffStarts(st: State, a: State, port: nat)
    requires StartedLate(st, a)
    ensures StartedLate(st, SetState(a, port, Off))
  {
    NoMoreStarted(st, a, SetState(a, port, Off));
  }

  lemma DisableStarts(st: State, port: nat, other: Option<nat>, opens: bool, services: seq<nat>, memory: Memory)
    requires StartedLate(st, st) && IsPast(st)
    ensures StartedLate(st, Disable(st, port, other, opens, services, memory))
  {
    var a := Close(st, port);
    NoMoreStarted(st, st, a);
    WakeStarts(st, a, other, opens, services, memory);
    OffStarts(st, if PcbOf(st.pcbs, port).ready then Wake(a, other, opens, services, memory) else st, port);
  }

  lemma AnnounceStarts(st: State, a: State, port: nat, services: seq<nat>, ip: bool, memory: Memory, prepared: bool)
    requires StartedLate(st, a)
    ensures StartedLate(st, Announce(a, port, services, ip, memory, prepared))
  {
    if IsProbing(StateOf(a.pcbs, port)) {
      RestartStarts(st, a, port, services, ip, memory);
    } else {
      AnnounceCalm(a, port, services, ip, memory, prepared);
      NoMoreStarted(st, a, Announce(a, port, services, ip, memory, prepared));
    }
  }

  lemma DuplicateStarts(st: State, port: nat, other: nat, memory: Memory, prepared: bool)
    requires StartedLate(st, st) && IsPast(st)
    ensures StartedLate(st, Duplicate(st, port, other, memory, prepared))
  {
    var a := SetState(Close(st, port), port, Dup);
    NoMoreStarted(st, st, a);
    AnnounceStarts(st, a, other, [], true, memory, prepared);
  }

  lemma RenameStarts(st: State, services: seq<nat>, memory: map<nat, Memory>)
    requires StartedLate(st, st)
    ensures StartedLate(st, Rename(st, services, memory))
  {
    var noted := Note(st.(named := true, queue := []), Renamed);
    NoMoreStarted(st, st, noted);
    ProbeBelowStarts(st, noted, st.size, services, true, true, memory);
  }

  lemma StepStarts(st: State, ev: Event)
    requires Inv(st) && IsPast(st) && !ev.Action? && !ev.Wait?
    ensures StartedLate(st, Step(st, ev))
  {
    assert StartedLate(st, st);
    match ev {
      case Timer(n) => {
        TimerCalm(st, n);
        StepKeeps(st, ev);
        NoMoreStarted(st, st, Step(st, ev));
      }
      case Naming(services, memory) => RenameStarts(st, services, memory);
      case Enabling(port, opens, services, start) => EnableStarts(st, st, port, opens, services, start);
      case Disabling(port, other, opens, services, start) => DisableStarts(st, port, other, opens, services, start);
      case Duplicating(port, another, start, prepared) => DuplicateStarts(st, port, another, start, prepared);
      case Probe(port, services, ip, start) => RestartStarts(st, st, port, services, ip, start);
      case ProbeAll(services, ip, forget, memory) => ProbeBelowStarts(st, st, st.size, services, ip, forget, memory);
      case Announcement(port, services, ip, start, prepared) =>
        AnnounceStarts(st, st, port, services, ip, start, prepared);
      case Reply(port, delay) => NoMoreStarted(st, st, Step(st, ev));
      case Failure(port) => NoMoreStarted(st, st, Step(st, ev));
      case Removal(service, cleared, empty) => NoMoreStarted(st, st, Step(st, ev));
      case Stop => NoMoreStarted(st, st, Step(st, ev));
    }
  }

  lemma StepPast(st: State, ev: Event)
    requires Inv(st) && IsPast(st)
    ensures IsPast(Step(st, ev))
  {
    if ev.Action? {
      if st.actions != [] {
        ExecutePast(st, ev.prepared);
      }
    } else if !ev.Wait? {
      StepStarts(st, ev);
    }
  }

  lemma {:induction false} RunPast(st: State, events: seq<Event>)
    requires Inv(st) && IsPast(st)
    ensures Inv(Run(st, events)) && IsPast(Run(st, events))
    decreases events
  {
    if events != [] {
      StepKeeps(st, events[0]);
      StepPast(st, events[0]);
      RunPast(Step(st, events[0]), events[1..]);
    }
  }

  /** Over every run: the packet of a probe that an event started is sent only on its port, and more than 120 ms after
      that event, or more than one second if the port has failed more than five times. */
  lemma EveryProbeWaits(size: nat, before: seq<Event>, ev: Event, after: seq<Event>, e: Entry, f: Entry)
    requires var st := Run(Initial(size), before);
             e in Step(st, ev).log && e.Started? && e.id >= st.next
    requires var st := Run(Initial(size), before);
             f in Run(Step(st, ev), after).log && f.Sent? && f.id == e.id
    ensures var st := Run(Initial(size), before);
            && f.port == e.port
            && f.time > st.clock + if PcbOf(Step(st, ev).pcbs, e.port).failed > 5 then 1000 else 120
  {
    var st := Run(Initial(size), before);
    InitialInv(size);
    RunPast(Initial(size), before);
    if ev.Action? {
      NoStartInAction(st, ev, e);
    } else if !ev.Wait? {
      StepStarts(st, ev);
      StepKeeps(st, ev);
      RunLate(Step(st, ev), after, e.id, e.port, st.clock + Pause(Step(st, ev), e.port));
    }
  }

  lemma NoStartInAction(st: State, ev: Event, e: Entry)
    requires ev.Action? && e in Step(st, ev).log && e.Started?
    ensures e in st.log
  {
  }

  // ------------------------------------------------------------------ so does the first announcement

  ghost predicate AnnouncedLate(st: State) {
    forall e <- st.log :: e.Announced? ==> IsLate(st, e.id, e.port, e.time + PROBE_WAIT)
  }

  lemma ProceedAnnounces(st: State, x: Packet, prepared: bool, e: Entry)
    requires IsPast(st) && e in Proceed(st, x, prepared).log && e !in st.log
    ensures e.Announced? && IsLate(Proceed(st, x, prepared), e.id, e.port, e.time + PROBE_WAIT)
  {
  }

  /** An announcement that is new. */
  lemma ExecuteAnnounces(st: State, prepared: bool, e: Entry)
    requires IsPast(st) && st.actions != []
    requires e in Execute(st, prepared).log && e !in st.log && e.Announced?
    ensures IsLate(Execute(st, prepared), e.id, e.port, e.time + PROBE_WAIT)
  {
    var x, popped := st.queue[0], st.(actions := st.actions[1..], queue := st.queue[1..]);
    assert x in st.queue && forall y <- st.queue[1..] :: y in st.queue;
    var noted := Note(popped, Sent(x.port, x.id, st.clock));
    assert IsPast(noted);
    ProceedAnnounces(noted, x, prepared, e);
  }

  lemma StepAnnounced(st: State, ev: Event)
    requires Inv(st) && IsPast(st) && AnnouncedLate(st)
    ensures AnnouncedLate(Step(st, ev))
  {
    var q := Step(st, ev);
    forall e | e in q.log && e.Announced? ensures IsLate(q, e.id, e.port, e.time + PROBE_WAIT) {
      if e in st.log {
        StepLate(st, ev, e.id, e.port, e.time + PROBE_WAIT);
      } else if ev.Action? {
        ExecuteAnnounces(st, ev.prepared, e);
      } else {
        StepCalm(st, ev);
      }
    }
  }

  lemma {:induction false} RunAnnounced(st: State, events: seq<Event>)
    requires Inv(st) && IsPast(st) && AnnouncedLate(st)
    ensures AnnouncedLate(Run(st, events))
    decreases events
  {
    if events != [] {
      StepKeeps(st, events[0]);
      StepPast(st, events[0]);
      StepAnnounced(st, events[0]);
      RunAnnounced(Step(st, events[0]), events[1..]);
    }
  }

  /** Over every run: the packet that announces at the end of a probe is sent only on its port, and more than 250 ms
      after the probe that completed it. */
  lemma EveryAnnouncementWaits(size: nat, events: seq<Event>, i: nat, k: nat)
    requires var log := Run(Initial(size), events).log;
             i < |log| && k < |log| && log[i].Announced? && log[k].Sent? && log[k].id == log[i].id
    ensures var log := Run(Initial(size), events).log;
            log[k].port == log[i].port && log[k].time > log[i].time + PROBE_WAIT
  {
    var st := Run(Initial(size), events);
    InitialInv(size);
    RunAnnounced(Initial(size), events);
    assert st.log[i] in st.log && st.log[k] in st.log;
  }
}
