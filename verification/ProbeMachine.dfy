/** Probing and announcing: components/mdns/mdns_pcb.c on top of the transmit queue. Every event of the
    responder is a step; what is promised holds after every sequence of steps. */
module ProbeMachine {
  import opened Common
  import opened TxQueue

  datatype PcbState = Off | Dup | Init | Probe1 | Probe2 | Probe3 | Announce1 | Announce2 | Announce3 | Running

  /** PCB_STATE_IS_PROBING, which also covers an interface that is a duplicate or was just initialised. */
  predicate IsProbing(s: PcbState) {
    s.Dup? || s.Init? || InProbe(s)
  }

  predicate InProbe(s: PcbState) {
    s.Probe1? || s.Probe2? || s.Probe3?
  }

  predicate IsAnnouncing(s: PcbState) {
    s.Announce1? || s.Announce2? || s.Announce3?
  }

  predicate IsAfterProbing(s: PcbState) {
    IsAnnouncing(s) || s.Running?
  }

  /** mdns_pcb_t, with ready from the networking layer: services and ip are what the current probe asks for. */
  datatype Pcb = Pcb(state: PcbState, ready: bool, ip: bool, services: seq<nat>, running: bool, failed: nat)

  const CLOSED := Pcb(Off, false, false, [], false, 0)

  /** What happened: a port was opened, the host got a name, a probe was started with a new packet or could not be, a
      packet was sent, a port went from probing or from running to announcing. Announced has the announcement's packet
      and the time at which the probe before it was sent. */
  datatype Entry =
    | Opened(port: nat)
    | Renamed
    | Started(port: nat, id: nat, ip: bool)
    | Starved(port: nat)
    | Sent(port: nat, id: nat, time: int)
    | Announced(port: nat, id: nat, time: int)
    | Resumed(port: nat)

  /** size is the number of ports in the table, named whether the host has a name. */
  datatype State = State(
    queue: seq<Packet>,
    actions: seq<nat>,
    pcbs: map<nat, Pcb>,
    size: nat,
    named: bool,
    clock: int,
    next: nat,
    log: seq<Entry>)

  function Initial(size: nat): (st: State) {
    State([], [], map[], size, false, 0, 0, [])
  }

  function PcbOf(pcbs: map<nat, Pcb>, port: nat): (p: Pcb) {
    if port in pcbs then pcbs[port] else CLOSED
  }

  function StateOf(pcbs: map<nat, Pcb>, port: nat): (s: PcbState) {
    PcbOf(pcbs, port).state
  }

  // ------------------------------------------------------------------ the steps

  const PROBE_WAIT := 250
  const ANNOUNCE_WAIT := 1000

  /** A packet that is new, delay milliseconds from now. */
  function AddNew(st: State, port: nat, delay: nat): (q: State) {
    st.(queue := Insert(st.queue, Packet(st.next, port, st.clock + delay, false)), next := st.next + 1)
  }

  function AddAgain(st: State, p: Packet, delay: nat): (q: State) {
    st.(queue := Insert(st.queue, p.(sendAt := st.clock + delay, queued := false)))
  }

  function SetPcb(st: State, port: nat, p: Pcb): (q: State) {
    st.(pcbs := st.pcbs[port := p])
  }

  function SetState(st: State, port: nat, s: PcbState): (q: State) {
    SetPcb(st, port, PcbOf(st.pcbs, port).(state := s))
  }

  function Note(st: State, e: Entry): (q: State) {
    st.(log := st.log + [e])
  }

  function ClearPort(st: State, port: nat): (q: State) {
    st.(queue := Clear(st.queue, port))
  }

  /** How far memory lasts for a probe: the list of its services and its packet are allocated. With a packet, chance is
      the random part of the delay. */
  datatype Memory = Enough(chance: nat) | NoList | NoPacket

  /** A probe starts later after many failures. */
  function ProbeDelay(failed: nat, chance: nat): (r: nat) {
    (if failed > 5 then 1000 else 120) + chance
  }

  /** The services that are not in the list. */
  function Missing(services: seq<nat>, list: seq<nat>): (r: seq<nat>)
    ensures forall s :: s in r <==> s in services && s !in list
  {
    if services == [] then []
    else
      assert services == [services[0]] + services[1..];
      (if services[0] in list then [] else [services[0]]) + Missing(services[1..], list)
  }

  /** What a probe asks for: what is new, and what an unfinished probe asked for. */
  function Merged(p: Pcb, services: seq<nat>): (r: seq<nat>) {
    if IsProbing(p.state) then Missing(services, p.services) + p.services else services
  }

  /** init_probe_new_service */
  function StartProbe(st: State, port: nat, list: seq<nat>, ip: bool, memory: Memory): (q: State) {
    var p := PcbOf(st.pcbs, port);
    if memory.NoList? && list != [] then Note(st, Starved(port))
    else if !memory.Enough? then
      Note(SetPcb(st, port, p.(ip := false, services := [], running := false)), Starved(port))
    else
      var probing := p.(state := Probe1, ip := p.ip || ip, services := list, running := true);
      Note(SetPcb(AddNew(st, port, ProbeDelay(p.failed, memory.chance)), port, probing),
           Started(port, st.next, p.ip || ip))
  }

  /** mdns_priv_init_pcb_probe */
  function Restart(st: State, port: nat, services: seq<nat>, ip: bool, memory: Memory): (q: State) {
    var cleared := ClearPort(st, port);
    if !st.named then SetState(cleared, port, Running)
    else StartProbe(cleared, port, Merged(PcbOf(st.pcbs, port), services), ip, memory)
  }

  /** Where there is no entry, memory lasts. */
  function MemoryFor(memory: map<nat, Memory>, port: nat): (m: Memory) {
    if port in memory then memory[port] else Enough(0)
  }

  /** One turn of mdns_priv_probe_all_pcbs */
  function ProbeOne(st: State, port: nat, services: seq<nat>, ip: bool, forget: bool, memory: Memory): (q: State) {
    var p := PcbOf(st.pcbs, port);
    if !p.ready then st
    else
      Restart(if forget then SetPcb(st, port, p.(services := [], running := false)) else st, port, services, ip, memory)
  }

  /** mdns_priv_probe_all_pcbs for the first n ports */
  function ProbeBelow(st: State, n: nat, services: seq<nat>, ip: bool, forget: bool,
                      memory: map<nat, Memory>): (q: State)
  {
    if n == 0 then st
    else
      ProbeOne(ProbeBelow(st, n - 1, services, ip, forget, memory), n - 1, services, ip, forget,
               MemoryFor(memory, n - 1))
  }

  /** The host gets a name, then mdns_priv_restart_all_pcbs. */
  function Rename(st: State, services: seq<nat>, memory: map<nat, Memory>): (q: State) {
    ProbeBelow(Note(st.(named := true, queue := []), Renamed), st.size, services, true, true, memory)
  }

  /** mdns_priv_pcb_enable */
  function Enable(st: State, port: nat, opens: bool, services: seq<nat>, memory: Memory): (q: State) {
    var p := PcbOf(st.pcbs, port);
    if port >= st.size then st
    else if !p.ready && !opens then SetPcb(st, port, p.(failed := 0))
    else Restart(Note(SetPcb(st, port, p.(ready := true)), Opened(port)), port, services, true, memory)
  }

  /** A port that is ready is cleared and closed. */
  function Close(st: State, port: nat): (q: State) {
    if PcbOf(st.pcbs, port).ready then SetPcb(ClearPort(st, port), port, CLOSED) else st
  }

  /** A duplicate opens. */
  function Wake(st: State, other: Option<nat>, opens: bool, services: seq<nat>, memory: Memory): (q: State) {
    if other.None? || !StateOf(st.pcbs, other.value).Dup? then st
    else Enable(SetState(st, other.value, Off), other.value, opens, services, memory)
  }

  /** mdns_priv_pcb_disable. other is the same protocol on the other interface on the same network, if there is one; it
      wakes up if it was a duplicate. */
  function Disable(st: State, port: nat, other: Option<nat>, opens: bool, services: seq<nat>,
                   memory: Memory): (q: State)
  {
    var ready := PcbOf(st.pcbs, port).ready;
    SetState(if ready then Wake(Close(st, port), other, opens, services, memory) else st, port, Off)
  }

  /** mdns_priv_pcb_announce. prepared tells whether there is memory for the announcement. */
  function Announce(st: State, port: nat, services: seq<nat>, ip: bool, memory: Memory, prepared: bool): (q: State) {
    var s := StateOf(st.pcbs, port);
    if !PcbOf(st.pcbs, port).ready then st
    else if IsProbing(s) then Restart(st, port, services, ip, memory)
    else if IsAnnouncing(s) then
      if exists p :: p in st.queue && p.port == port then SetState(st, port, Announce1) else st
    else if s.Running? && st.named then
      var q := Note(SetState(st, port, Announce1), Resumed(port));
      if prepared then AddNew(q, port, 0) else q
    else st
  }

  /** mdns_priv_pcb_set_duplicate for one protocol */
  function Duplicate(st: State, port: nat, other: nat, memory: Memory, prepared: bool): (q: State) {
    if !PcbOf(st.pcbs, other).ready then st
    else Announce(SetState(Close(st, port), port, Dup), other, [], true, memory, prepared)
  }

  /** A port whose probe is complete. */
  function Finished(p: Pcb): (r: Pcb) {
    p.(state := Announce1, ip := false, services := [], running := false, failed := 0)
  }

  /** mdns_priv_pcb_schedule_tx_packet for a packet that was just sent */
  function Proceed(st: State, x: Packet, prepared: bool): (q: State) {
    match StateOf(st.pcbs, x.port)
    case Probe1 => SetState(AddAgain(st, x, PROBE_WAIT), x.port, Probe2)
    case Probe2 => SetState(AddAgain(st, x, PROBE_WAIT), x.port, Probe3)
    case Probe3 =>
      if !prepared then AddAgain(st, x, PROBE_WAIT)
      else
        Note(SetPcb(AddNew(st, x.port, PROBE_WAIT), x.port, Finished(PcbOf(st.pcbs, x.port))),
             Announced(x.port, st.next, st.clock))
    case Announce1 => SetState(AddAgain(st, x, ANNOUNCE_WAIT), x.port, Announce2)
    case Announce2 => SetState(AddAgain(st, x, ANNOUNCE_WAIT), x.port, Announce3)
    case Announce3 => SetState(st, x.port, Running)
    case _ => st
  }

  /** handle_packet: on a port that is off the packet is dropped. */
  function Handle(st: State, x: Packet, prepared: bool): (q: State) {
    if StateOf(st.pcbs, x.port).Off? then st else Proceed(Note(st, Sent(x.port, x.id, st.clock)), x, prepared)
  }

  /** The service task executes the first pending action: send_packet. */
  function Execute(st: State, prepared: bool): (q: State)
    requires st.actions != []
  {
    var id, rest := st.actions[0], st.(actions := st.actions[1..]);
    if st.queue != [] && st.queue[0].id == id && st.queue[0].queued
    then Handle(rest.(queue := st.queue[1..]), st.queue[0], prepared)
    else rest
  }

  /** A list without the first occurrence of a service. */
  function RemoveFirst(list: seq<nat>, service: nat): (r: seq<nat>) {
    if list == [] then [] else if list[0] == service then list[1..] else [list[0]] + RemoveFirst(list[1..], service)
  }

  /** mdns_priv_pcb_check_probing_services; removed tells whether the packet lost its last answer. */
  function Checked(p: Pcb, service: nat, removed: bool): (r: Pcb) {
    if IsProbing(p.state) then
      if service !in p.services then p
      else if |p.services| > 1 then p.(services := RemoveFirst(p.services, service))
      else if p.ip then p.(services := [])
      else p.(services := [], running := false, state := Running)
    else if IsAnnouncing(p.state) && removed then p.(state := Running)
    else p
  }

  /** The ports of all packets in the queue are checked, as far as they are ready. */
  function CheckedAll(pcbs: map<nat, Pcb>, queue: seq<Packet>, service: nat, cleared: set<nat>): (r: map<nat, Pcb>) {
    if queue == [] then pcbs
    else
      var x := queue[0];
      var p := PcbOf(pcbs, x.port);
      CheckedAll(if p.ready then pcbs[x.port := Checked(p, service, x.id in cleared)] else pcbs, queue[1..], service,
                 cleared)
  }

  /** mdns_priv_remove_scheduled_service_packets: cleared are the packets that lose their last answer, empty those with
      nothing left. */
  function RemoveService(st: State, service: nat, cleared: set<nat>, empty: set<nat>): (q: State) {
    st.(queue := Take(st.queue, empty), pcbs := CheckedAll(st.pcbs, st.queue, service, cleared))
  }

  /** mdns_priv_pcb_set_probe_failed, a counter of 16 bits */
  function Fail(st: State, port: nat): (q: State) {
    var p := PcbOf(st.pcbs, port);
    SetPcb(st, port, p.(failed := (p.failed + 1) % 0x1_0000))
  }

  datatype Event =
    | Wait(until: int)
    | Timer(actions: nat)
    | Action(prepared: bool)
    | Naming(services: seq<nat>, memory: map<nat, Memory>)
    | Enabling(port: nat, opens: bool, services: seq<nat>, start: Memory)
    | Disabling(port: nat, other: Option<nat>, opens: bool, services: seq<nat>, start: Memory)
    | Duplicating(port: nat, another: nat, start: Memory, prepared: bool)
    | Probe(port: nat, services: seq<nat>, ip: bool, start: Memory)
    | ProbeAll(services: seq<nat>, ip: bool, forget: bool, memory: map<nat, Memory>)
    | Announcement(port: nat, services: seq<nat>, ip: bool, start: Memory, prepared: bool)
    | Reply(port: nat, delay: nat)
    | Failure(port: nat)
    | Removal(service: nat, cleared: set<nat>, empty: set<nat>)
    | Stop

  function Step(st: State, ev: Event): (q: State) {
    match ev
    case Wait(until) => if until >= st.clock then st.(clock := until) else st
    case Timer(n) => st.(queue := FlagFrom(st.queue, st.clock, n),
    actions := st.actions + IdsFrom(st.queue, st.clock, n))
    case Action(prepared) => if st.actions == [] then st else Execute(st, prepared)
    case Naming(services, memory) => Rename(st, services, memory)
    case Enabling(port, opens, services, start) => Enable(st, port, opens, services, start)
    case Disabling(port, other, opens, services, start) => Disable(st, port, other, opens, services, start)
    case Duplicating(port, another, start, prepared) => Duplicate(st, port, another, start, prepared)
    case Probe(port, services, ip, start) => Restart(st, port, services, ip, start)
    case ProbeAll(services, ip, forget, memory) => ProbeBelow(st, st.size, services, ip, forget, memory)
    case Announcement(port, services, ip, start, prepared) => Announce(st, port, services, ip, start, prepared)
    case Reply(port, delay) => if IsAfterProbing(StateOf(st.pcbs, port)) then AddNew(st, port, delay) else st
    case Failure(port) => Fail(st, port)
    case Removal(service, cleared, empty) => RemoveService(st, service, cleared, empty)
    case Stop => st.(queue := [])
  }

  function Run(st: State, events: seq<Event>): (q: State)
    decreases events
  {
    if events == [] then st else Run(Step(st, events[0]), events[1..])
  }

  lemma RunThree(st: State, events: seq<Event>)
    requires |events| == 3
    ensures Run(st, events) == Step(Step(Step(st, events[0]), events[1]), events[2])
  {
    var rest := events[1..];
    var last := rest[1..];
    var a := Step(st, events[0]);
    var b := Step(a, rest[0]);
    assert Run(st, events) == Run(a, rest);
    assert Run(a, rest) == Run(b, last);
    assert last[1..] == [] && Run(b, last) == Run(Step(b, last[0]), last[1..]);
  }

  lemma {:induction false} MissingOnce(services: seq<nat>, list: seq<nat>)
    requires NoRepeat(services)
    ensures NoRepeat(Missing(services, list))
  {
    if services != [] {
      MissingOnce(services[1..], list);
      var rest := Missing(services[1..], list);
      assert ([services[0]] + rest)[1..] == rest && [] + rest == rest;
    }
  }

  /** A probe asks for the new services and for those of the probe it takes over from, each once. */
  lemma MergedServices(p: Pcb, services: seq<nat>)
    ensures forall s :: s in Merged(p, services) <==> s in services || (IsProbing(p.state) && s in p.services)
    ensures NoRepeat(services) && NoRepeat(p.services) ==> NoRepeat(Merged(p, services))
  {
    if NoRepeat(services) && NoRepeat(p.services) {
      MissingOnce(services, p.services);
      NoRepeatJoin(Missing(services, p.services), p.services);
    }
  }

  // ------------------------------------------------------------------ what the log says

  function Last<T>(s: seq<T>): (x: T)
    requires s != []
  {
    s[|s| - 1]
  }

  predicate IsStart(e: Entry, port: nat) {
    e.Started? && e.port == port
  }

  /** The packet of the latest probe of the port. */
  function ProbeOf(log: seq<Entry>, port: nat): (r: Option<nat>) {
    if log == [] then None
    else if IsStart(Last(log), port) then Some(Last(log).id)
    else ProbeOf(log[..|log| - 1], port)
  }

  /** When this packet was sent since the port was last started. */
  function SentSince(log: seq<Entry>, port: nat, id: nat): (r: seq<int>) {
    if log == [] || IsStart(Last(log), port) then []
    else
      var rest := SentSince(log[..|log| - 1], port, id);
      if Last(log).Sent? && Last(log).port == port && Last(log).id == id then rest + [Last(log).time] else rest
  }

  function ProbesSent(log: seq<Entry>, port: nat): (r: seq<int>) {
    var probe := ProbeOf(log, port);
    if probe.Some? then SentSince(log, port, probe.value) else []
  }

  ghost predicate Spaced(times: seq<int>) {
    forall i | 0 < i < |times| :: times[i] > times[i - 1] + PROBE_WAIT
  }

  /** Enough for section 8.1 of RFC 6762: the last of at least three probes was sent at this time. */
  ghost predicate Probed(log: seq<Entry>, port: nat, time: int) {
    var sent := ProbesSent(log, port);
    |sent| >= 3 && Spaced(sent) && Last(sent) == time
  }

  ghost predicate Lawful(log: seq<Entry>) {
    log == [] || (&& Lawful(log[..|log| - 1])
                  && (Last(log).Announced? ==> Probed(log[..|log| - 1], Last(log).port, Last(log).time)))
  }

  // ------------------------------------------------------------------ invariants

  /** The queue holds nothing for the port but its probe, and that is not due before its time. */
  ghost predicate OnlyProbe(queue: seq<Packet>, log: seq<Entry>, port: nat) {
    var probe, sent := ProbeOf(log, port), ProbesSent(log, port);
    && probe.Some?
    && forall x <- queue :: x.port == port ==>
                              x.id == probe.value && (sent != [] ==> x.sendAt >= Last(sent) + PROBE_WAIT)
  }

  ghost predicate Counted(s: PcbState, sent: seq<int>) {
    match s
    case Probe1 => |sent| == 0
    case Probe2 => |sent| == 1
    case Probe3 => |sent| >= 2
    case _ => true
  }

  ghost predicate ProbeInv(queue: seq<Packet>, log: seq<Entry>, clock: int, port: nat, s: PcbState) {
    InProbe(s) ==>
      var sent := ProbesSent(log, port);
      OnlyProbe(queue, log, port) && Counted(s, sent) && Spaced(sent) && (sent != [] ==> Last(sent) <= clock)
  }

  ghost predicate Numbered(st: State) {
    (forall x <- st.queue :: x.id < st.next) && (forall a <- st.actions :: a < st.next)
  }

  ghost predicate Inv(st: State) {
    && Orderly(st.queue, st.actions, st.clock) && Numbered(st) && Lawful(st.log)
    && forall port :: ProbeInv(st.queue, st.log, st.clock, port, StateOf(st.pcbs, port))
  }

  // ------------------------------------------------------------------ the log grows

  lemma LogAfter(log: seq<Entry>, e: Entry, port: nat)
    ensures IsStart(e, port) ==> ProbeOf(log + [e], port) == Some(e.id) && ProbesSent(log + [e], port) == []
    ensures !IsStart(e, port) ==> ProbeOf(log + [e], port) == ProbeOf(log, port)
    ensures !IsStart(e, port) && !(e.Sent? && e.port == port && ProbeOf(log, port) == Some(e.id)) ==>
              ProbesSent(log + [e], port) == ProbesSent(log, port)
    ensures e.Sent? && e.port == port && ProbeOf(log, port) == Some(e.id) ==>
              ProbesSent(log + [e], port) == ProbesSent(log, port) + [e.time]
  {
    assert (log + [e])[..|log|] == log;
  }

  lemma LawfulAfter(log: seq<Entry>, e: Entry)
    requires Lawful(log) && (e.Announced? ==> Probed(log, e.port, e.time))
    ensures Lawful(log + [e])
  {
    assert (log + [e])[..|log|] == log;
  }

  // ------------------------------------------------------------------ steps keep the invariants

  /** Fewer packets, the same log, later. */
  lemma FewerKeeps(st: State, q: State)
    requires Inv(st) && Orderly(q.queue, q.actions, q.clock) && q.log == st.log && q.clock >= st.clock
    requires q.next == st.next
    requires forall x <- q.queue ::
               exists y :: y in st.queue && y.id == x.id && y.port == x.port && y.sendAt == x.sendAt
    requires forall a <- q.actions :: a < st.next
    requires forall port :: InProbe(StateOf(q.pcbs, port)) ==> StateOf(q.pcbs, port) == StateOf(st.pcbs, port)
    ensures Inv(q)
  {
    forall port ensures ProbeInv(q.queue, q.log, q.clock, port, StateOf(q.pcbs, port)) {
      assert ProbeInv(st.queue, st.log, st.clock, port, StateOf(st.pcbs, port));
    }
  }

  lemma ClearKeeps(st: State, port: nat)
    requires Inv(st)
    ensures Inv(ClearPort(st, port))
  {
    Clears(st.queue, st.actions, st.clock, port);
    FewerKeeps(st, ClearPort(st, port));
  }

  /** A port does not begin to probe. */
  lemma SetKeeps(st: State, port: nat, p: Pcb)
    requires Inv(st) && (InProbe(p.state) ==> p.state == StateOf(st.pcbs, port))
    ensures Inv(SetPcb(st, port, p))
  {
    FewerKeeps(st, SetPcb(st, port, p));
  }

  lemma SetQuiet(st: State, port: nat, s: PcbState)
    requires Inv(st) && !InProbe(s)
    ensures Inv(SetState(st, port, s))
  {
    SetKeeps(st, port, PcbOf(st.pcbs, port).(state := s));
  }

  /** A packet for a port that is not probing. */
  lemma AddKeeps(st: State, q: State, p: Packet)
    requires Inv(st) && !InProbe(StateOf(st.pcbs, p.port)) && !p.queued && p.sendAt >= st.clock
    requires !Has(st.queue, p.id) && p.id !in st.actions && p.id < q.next && st.next <= q.next
    requires q == st.(queue := Insert(st.queue, p), next := q.next)
    ensures Inv(q)
  {
    Schedules(st.queue, st.actions, st.clock, p);
    forall port ensures ProbeInv(q.queue, q.log, q.clock, port, StateOf(q.pcbs, port)) {
      assert ProbeInv(st.queue, st.log, st.clock, port, StateOf(st.pcbs, port));
    }
  }

  lemma NewIsNew(st: State)
    requires Numbered(st)
    ensures !Has(st.queue, st.next) && st.next !in st.actions
  {
  }

  /** An entry that is no start, and sends nothing of a port that probes. */
  lemma NoteKeeps(st: State, e: Entry)
    requires Inv(st) && (e.Announced? ==> Probed(st.log, e.port, e.time)) && !e.Started?
    requires e.Sent? ==> !InProbe(StateOf(st.pcbs, e.port))
    ensures Inv(Note(st, e))
  {
    var q := Note(st, e);
    LawfulAfter(st.log, e);
    forall port ensures ProbeInv(q.queue, q.log, q.clock, port, StateOf(q.pcbs, port)) {
      assert ProbeInv(st.queue, st.log, st.clock, port, StateOf(st.pcbs, port));
      LogAfter(st.log, e, port);
    }
  }

  /** A probe starts on a port whose packets were cleared. */
  lemma StartKeeps(st: State, q: State, port: nat, delay: nat, p: Pcb)
    requires Inv(st) && (forall x <- st.queue :: x.port != port) && p.state == Probe1
    requires q == Note(SetPcb(AddNew(st, port, delay), port, p), Started(port, st.next, p.ip))
    ensures Inv(q)
  {
    NewIsNew(st);
    Schedules(st.queue, st.actions, st.clock, Packet(st.next, port, st.clock + delay, false));
    LawfulAfter(st.log, Started(port, st.next, p.ip));
    forall other ensures ProbeInv(q.queue, q.log, q.clock, other, StateOf(q.pcbs, other)) {
      assert ProbeInv(st.queue, st.log, st.clock, other, StateOf(st.pcbs, other));
      LogAfter(st.log, Started(port, st.next, p.ip), other);
    }
  }

  lemma RestartKeeps(st: State, port: nat, services: seq<nat>, ip: bool, memory: Memory)
    requires Inv(st)
    ensures Inv(Restart(st, port, services, ip, memory))
  {
    var cleared := ClearPort(st, port);
    ClearKeeps(st, port);
    var p := PcbOf(st.pcbs, port);
    var list := Merged(p, services);
    if !st.named {
      SetQuiet(cleared, port, Running);
    } else if memory.NoList? && list != [] {
      NoteKeeps(cleared, Starved(port));
    } else if memory.Enough? {
      StartKeeps(cleared, Restart(st, port, services, ip, memory), port, ProbeDelay(p.failed, memory.chance),
                 p.(state := Probe1, ip := p.ip || ip, services := list, running := true));
    } else {
      var none := p.(ip := false, services := [], running := false);
      SetKeeps(cleared, port, none);
      NoteKeeps(SetPcb(cleared, port, none), Starved(port));
    }
  }

  lemma ProbeOneKeeps(st: State, port: nat, services: seq<nat>, ip: bool, forget: bool, memory: Memory)
    requires Inv(st)
    ensures Inv(ProbeOne(st, port, services, ip, forget, memory))
  {
    var none := PcbOf(st.pcbs, port).(services := [], running := false);
    SetKeeps(st, port, none);
    RestartKeeps(if forget then SetPcb(st, port, none) else st, port, services, ip, memory);
  }

  /** What every turn keeps, the loop keeps. */
  lemma {:induction false} EveryTurnKeeps(st: State, n: nat, services: seq<nat>, ip: bool, forget: bool,
                                          memory: map<nat, Memory>, keeps: State -> bool)
    requires keeps(st)
    requires forall a: State, port: nat, m: Memory | keeps(a) :: keeps(ProbeOne(a, port, services, ip, forget, m))
    ensures keeps(ProbeBelow(st, n, services, ip, forget, memory))
    decreases n
  {
    if n > 0 {
      EveryTurnKeeps(st, n - 1, services, ip, forget, memory, keeps);
    }
  }

  lemma ProbeBelowKeeps(st: State, n: nat, services: seq<nat>, ip: bool, forget: bool, memory: map<nat, Memory>)
    requires Inv(st)
    ensures Inv(ProbeBelow(st, n, services, ip, forget, memory))
  {
    forall a: State, port: nat, m: Memory | Inv(a) ensures Inv(ProbeOne(a, port, services, ip, forget, m)) {
      ProbeOneKeeps(a, port, services, ip, forget, m);
    }
    EveryTurnKeeps(st, n, services, ip, forget, memory, a => Inv(a));
  }

  lemma {:induction false} NothingLive(actions: seq<nat>)
    ensures Live(actions, []) == []
  {
    if actions != [] {
      NothingLive(actions[1..]);
    }
  }

  lemma StopKeeps(st: State, named: bool)
    requires Inv(st)
    ensures Inv(st.(queue := [], named := named))
  {
    NothingLive(st.actions);
    FewerKeeps(st, st.(queue := [], named := named));
  }

  lemma RenameKeeps(st: State, services: seq<nat>, memory: map<nat, Memory>)
    requires Inv(st)
    ensures Inv(Rename(st, services, memory))
  {
    var stopped := st.(named := true, queue := []);
    StopKeeps(st, true);
    NoteKeeps(stopped, Renamed);
    ProbeBelowKeeps(Note(stopped, Renamed), st.size, services, true, true, memory);
  }

  lemma EnableKeeps(st: State, port: nat, opens: bool, services: seq<nat>, memory: Memory)
    requires Inv(st)
    ensures Inv(Enable(st, port, opens, services, memory))
  {
    var p := PcbOf(st.pcbs, port);
    if port < st.size {
      if !p.ready && !opens {
        SetKeeps(st, port, p.(failed := 0));
      } else {
        var ready := SetPcb(st, port, p.(ready := true));
        SetKeeps(st, port, p.(ready := true));
        NoteKeeps(ready, Opened(port));
        RestartKeeps(Note(ready, Opened(port)), port, services, true, memory);
      }
    }
  }

  lemma CloseKeeps(st: State, port: nat)
    requires Inv(st)
    ensures Inv(Close(st, port))
  {
    ClearKeeps(st, port);
    SetKeeps(ClearPort(st, port), port, CLOSED);
  }

  lemma WakeKeeps(st: State, other: Option<nat>, opens: bool, services: seq<nat>, memory: Memory)
    requires Inv(st)
    ensures Inv(Wake(st, other, opens, services, memory))
  {
    if other.Some? {
      SetQuiet(st, other.value, Off);
      EnableKeeps(SetState(st, other.value, Off), other.value, opens, services, memory);
    }
  }

  lemma DisableKeeps(st: State, port: nat, other: Option<nat>, opens: bool, services: seq<nat>, memory: Memory)
    requires Inv(st)
    ensures Inv(Disable(st, port, other, opens, services, memory))
  {
    var woken := Wake(Close(st, port), other, opens, services, memory);
    CloseKeeps(st, port);
    WakeKeeps(Close(st, port), other, opens, services, memory);
    SetQuiet(if PcbOf(st.pcbs, port).ready then woken else st, port, Off);
  }

  // ------------------------------------------------------------------ executing an action

  lemma PopKeeps(st: State, q: State)
    requires Inv(st) && st.actions != [] && Has(st.queue, st.actions[0])
    requires st.queue != [] && q == st.(queue := st.queue[1..], actions := st.actions[1..])
    ensures Inv(q) && !Has(q.queue, st.actions[0]) && st.actions[0] !in q.actions && st.actions[0] < q.next
  {
    Pops(st.queue, st.actions, st.clock);
    assert forall a <- q.actions :: a in st.actions;
    FewerKeeps(st, q);
  }

  /** The probe was sent once more: at least 250 ms after the last time, and nothing else waits on the port. */
  lemma ProbeSent(st: State, p: Packet, port: nat)
    requires Inv(st) && InProbe(StateOf(st.pcbs, port)) && p in st.queue && p.port == port && p.queued
    ensures var sent := ProbesSent(st.log, port);
            ProbeOf(st.log, port) == Some(p.id) && Spaced(sent + [st.clock]) && Counted(StateOf(st.pcbs, port), sent)
  {
    assert ProbeInv(st.queue, st.log, st.clock, port, StateOf(st.pcbs, port));
  }

  /** The rest of the queue has nothing for the port. */
  ghost predicate Silent(queue: seq<Packet>, port: nat) {
    forall x <- queue :: x.port != port
  }

  lemma RestIsSilent(st: State, port: nat)
    requires Inv(st) && st.queue != [] && st.queue[0].port == port && InProbe(StateOf(st.pcbs, port))
    ensures Silent(st.queue[1..], port)
  {
    assert ProbeInv(st.queue, st.log, st.clock, port, StateOf(st.pcbs, port));
    assert st.queue[0] in st.queue;
    assert forall x <- st.queue[1..] :: x in st.queue && x.id != st.queue[0].id;
  }

  /** Sending a probe again moves the port on. */
  lemma AgainKeeps(st: State, q: State, p: Packet, s: PcbState, sent: seq<int>)
    requires Inv(st) && Silent(st.queue, p.port) && !Has(st.queue, p.id) && p.id !in st.actions && p.id < st.next
    requires ProbeOf(st.log, p.port) == Some(p.id) && sent == ProbesSent(st.log, p.port) && Spaced(sent + [st.clock])
    requires Counted(s, sent + [st.clock]) && InProbe(s)
    requires q == SetState(AddAgain(Note(st, Sent(p.port, p.id, st.clock)), p, PROBE_WAIT), p.port, s)
    ensures Inv(q)
  {
    Schedules(st.queue, st.actions, st.clock, p.(sendAt := st.clock + PROBE_WAIT, queued := false));
    LawfulAfter(st.log, Sent(p.port, p.id, st.clock));
    forall port ensures ProbeInv(q.queue, q.log, q.clock, port, StateOf(q.pcbs, port)) {
      assert ProbeInv(st.queue, st.log, st.clock, port, StateOf(st.pcbs, port));
      LogAfter(st.log, Sent(p.port, p.id, st.clock), port);
    }
  }

  /** Waiting once more is not a change of state. */
  lemma StillThird(st: State, q: State, p: Packet)
    requires StateOf(st.pcbs, p.port) == Probe3 && p.port in st.pcbs
    requires q == AddAgain(Note(st, Sent(p.port, p.id, st.clock)), p, PROBE_WAIT)
    ensures q == SetState(q, p.port, Probe3)
  {
    assert st.pcbs[p.port := st.pcbs[p.port].(state := Probe3)] == st.pcbs;
  }

  /** The third probe, or a later one, is followed by the announcement. */
  lemma AnnounceKeeps(st: State, q: State, p: Packet, sent: seq<int>, done: Pcb)
    requires Inv(st) && Silent(st.queue, p.port) && p.id < st.next && done.state == Announce1
    requires ProbeOf(st.log, p.port) == Some(p.id) && sent == ProbesSent(st.log, p.port) && Spaced(sent + [st.clock])
    requires |sent| >= 2
    requires q == Note(SetPcb(AddNew(Note(st, Sent(p.port, p.id, st.clock)), p.port, PROBE_WAIT), p.port, done),
                       Announced(p.port, st.next, st.clock))
    ensures Inv(q)
  {
    var a := SetPcb(st, p.port, done);
    var b := Note(a, Sent(p.port, p.id, st.clock));
    var c := Note(b, Announced(p.port, st.next, st.clock));
    SetKeeps(st, p.port, done);
    NoteKeeps(a, Sent(p.port, p.id, st.clock));
    LogAfter(st.log, Sent(p.port, p.id, st.clock), p.port);
    NoteKeeps(b, Announced(p.port, st.next, st.clock));
    NewIsNew(c);
    AddKeeps(c, q, Packet(st.next, p.port, st.clock + PROBE_WAIT, false));
  }

  lemma QuietKeeps(st: State, q: State, p: Packet, prepared: bool)
    requires Inv(st) && !InProbe(StateOf(st.pcbs, p.port)) && !Has(st.queue, p.id) && p.id !in st.actions
    requires p.id < st.next
    requires !StateOf(st.pcbs, p.port).Off? && q == Proceed(Note(st, Sent(p.port, p.id, st.clock)), p, prepared)
    ensures Inv(q)
  {
    var noted := Note(st, Sent(p.port, p.id, st.clock));
    NoteKeeps(st, Sent(p.port, p.id, st.clock));
    var s := StateOf(st.pcbs, p.port);
    if s.Announce1? || s.Announce2? {
      var again := AddAgain(noted, p, ANNOUNCE_WAIT);
      AddKeeps(noted, again, p.(sendAt := st.clock + ANNOUNCE_WAIT, queued := false));
      SetQuiet(again, p.port, if s.Announce1? then Announce2 else Announce3);
    } else if s.Announce3? {
      SetQuiet(noted, p.port, Running);
    }
  }

  lemma HandleKeeps(st: State, rest: State, p: Packet, prepared: bool)
    requires Inv(st) && st.actions != [] && Has(st.queue, st.actions[0]) && st.queue != [] && p == st.queue[0]
    requires p.id == st.actions[0] && p.queued && rest == st.(queue := st.queue[1..], actions := st.actions[1..])
    ensures Inv(Handle(rest, p, prepared))
  {
    PopKeeps(st, rest);
    var s := StateOf(st.pcbs, p.port);
    var q := Handle(rest, p, prepared);
    if InProbe(s) {
      assert p in st.queue;
      ProbeSent(st, p, p.port);
      RestIsSilent(st, p.port);
      var sent := ProbesSent(st.log, p.port);
      match s {
        case Probe1 => AgainKeeps(rest, q, p, Probe2, sent);
        case Probe2 => AgainKeeps(rest, q, p, Probe3, sent);
        case Probe3 => {
          if prepared {
            AnnounceKeeps(rest, q, p, sent, Finished(PcbOf(st.pcbs, p.port)));
          } else {
            StillThird(rest, q, p);
            AgainKeeps(rest, q, p, Probe3, sent);
          }
        }
      }
    } else if !s.Off? {
      QuietKeeps(rest, q, p, prepared);
    }
  }

  lemma ExecuteKeeps(st: State, prepared: bool)
    requires Inv(st) && st.actions != []
    ensures Inv(Execute(st, prepared))
  {
    var q := Execute(st, prepared);
    if Has(st.queue, st.actions[0]) {
      HeadOrGone(st.queue, st.actions, st.clock);
      HandleKeeps(st, st.(queue := st.queue[1..], actions := st.actions[1..]), st.queue[0], prepared);
    } else {
      if st.queue != [] {
        assert st.queue[0] in st.queue;
      }
      Skips(st.queue, st.actions, st.clock);
      assert forall a <- q.actions :: a in st.actions;
      FewerKeeps(st, q);
    }
  }

  // ------------------------------------------------------------------ the other steps

  lemma AnnouncementKeeps(st: State, port: nat, services: seq<nat>, ip: bool, memory: Memory, prepared: bool)
    requires Inv(st)
    ensures Inv(Announce(st, port, services, ip, memory, prepared))
  {
    var s := StateOf(st.pcbs, port);
    if IsProbing(s) {
      RestartKeeps(st, port, services, ip, memory);
    } else if !s.Off? {
      var a := SetState(st, port, Announce1);
      var q := Note(a, Resumed(port));
      SetQuiet(st, port, Announce1);
      NoteKeeps(a, Resumed(port));
      NewIsNew(q);
      AddKeeps(q, AddNew(q, port, 0), Packet(q.next, port, q.clock, false));
    }
  }

  lemma DuplicateKeeps(st: State, port: nat, other: nat, memory: Memory, prepared: bool)
    requires Inv(st)
    ensures Inv(Duplicate(st, port, other, memory, prepared))
  {
    CloseKeeps(st, port);
    SetQuiet(Close(st, port), port, Dup);
    AnnouncementKeeps(SetState(Close(st, port), port, Dup), other, [], true, memory, prepared);
  }

  lemma TimerKeeps(st: State, n: nat)
    requires Inv(st)
    ensures Inv(Step(st, Timer(n)))
  {
    var q := Step(st, Timer(n));
    TimerFlags(st.queue, st.actions, st.clock, n);
    FlagFromKeeps(st.queue, st.clock, n);
    forall x | x in q.queue
      ensures exists y :: y in st.queue && y.id == x.id && y.port == x.port && y.sendAt == x.sendAt
    {
      var y := LikeFrom(st.queue, q.queue, st.clock, x);
    }
    FlaggedHas(q.queue);
    forall a | a in q.actions ensures a < st.next {
      if a in IdsFrom(st.queue, st.clock, n) {
        assert a in Flagged(st.queue) + IdsFrom(st.queue, st.clock, n);
        var x :| x in q.queue && x.id == a;
        var y := LikeFrom(st.queue, q.queue, st.clock, x);
      }
    }
    FewerKeeps(st, q);
  }

  /** A removal ends probes and announcements; it begins none. */
  lemma {:induction false} CheckedAt(pcbs: map<nat, Pcb>, queue: seq<Packet>, service: nat, cleared: set<nat>,
                                     port: nat)
    ensures var p, r := PcbOf(pcbs, port), PcbOf(CheckedAll(pcbs, queue, service, cleared), port);
            && r.ready == p.ready && r.ip == p.ip && r.failed == p.failed && (!p.ready ==> r == p)
            && (!IsProbing(p.state) ==> r.services == p.services)
            && (r.state == p.state
                || (r.state == Running && (IsAnnouncing(p.state) || (IsProbing(p.state) && !p.ip && r.services == []))))
    decreases queue
  {
    if queue != [] {
      var p := PcbOf(pcbs, queue[0].port);
      CheckedAt(if p.ready then pcbs[queue[0].port := Checked(p, service, queue[0].id in cleared)] else pcbs,
                queue[1..], service, cleared, port);
    }
  }

  lemma RemovalKeeps(st: State, service: nat, cleared: set<nat>, empty: set<nat>)
    requires Inv(st)
    ensures Inv(RemoveService(st, service, cleared, empty))
  {
    TakesOut(st.queue, st.actions, st.clock, empty);
    var q := RemoveService(st, service, cleared, empty);
    forall port | InProbe(StateOf(q.pcbs, port)) ensures StateOf(q.pcbs, port) == StateOf(st.pcbs, port) {
      CheckedAt(st.pcbs, st.queue, service, cleared, port);
    }
    FewerKeeps(st, q);
  }

  lemma ReplyKeeps(st: State, port: nat, delay: nat)
    requires Inv(st)
    ensures Inv(Step(st, Reply(port, delay)))
  {
    if IsAfterProbing(StateOf(st.pcbs, port)) {
      NewIsNew(st);
      AddKeeps(st, AddNew(st, port, delay), Packet(st.next, port, st.clock + delay, false));
    }
  }

  lemma StepKeeps(st: State, ev: Event)
    requires Inv(st)
    ensures Inv(Step(st, ev))
  {
    match ev {
      case Wait(until) => FewerKeeps(st, Step(st, ev));
      case Timer(n) => TimerKeeps(st, n);
      case Action(prepared) => {
        if st.actions != [] {
          ExecuteKeeps(st, prepared);
        }
      }
      case Naming(services, memory) => RenameKeeps(st, services, memory);
      case Enabling(port, opens, services, start) => EnableKeeps(st, port, opens, services, start);
      case Disabling(port, other, opens, services, start) => DisableKeeps(st, port, other, opens, services, start);
      case Duplicating(port, another, start, prepared) => DuplicateKeeps(st, port, another, start, prepared);
      case Probe(port, services, ip, start) => RestartKeeps(st, port, services, ip, start);
      case ProbeAll(services, ip, forget, memory) => ProbeBelowKeeps(st, st.size, services, ip, forget, memory);
      case Announcement(port, services, ip, start, prepared) =>
        AnnouncementKeeps(st, port, services, ip, start, prepared);
      case Reply(port, delay) => ReplyKeeps(st, port, delay);
      case Failure(port) => SetKeeps(st, port, PcbOf(Fail(st, port).pcbs, port));
      case Removal(service, cleared, empty) => RemovalKeeps(st, service, cleared, empty);
      case Stop => StopKeeps(st, st.named);
    }
  }

  lemma {:induction false} RunKeeps(st: State, events: seq<Event>)
    requires Inv(st)
    ensures Inv(Run(st, events))
    decreases events
  {
    if events != [] {
      StepKeeps(st, events[0]);
      RunKeeps(Step(st, events[0]), events[1..]);
    }
  }

  lemma InitialInv(size: nat)
    ensures Inv(Initial(size))
  {
  }

  // ------------------------------------------------------------------ what every run gives

  /** The queue stays sorted, its flagged packets come first, the pending actions for its packets name them in
      order, and the next action finds its packet at the head or the packet is gone. */
  lemma EveryRunIsOrderly(size: nat, events: seq<Event>)
    ensures var st := Run(Initial(size), events);
            && Sorted(st.queue) && FlaggedFirst(st.queue) && Live(st.actions, st.queue) == Flagged(st.queue)
            && (st.actions != [] && Has(st.queue, st.actions[0]) ==>
                  st.queue != [] && st.queue[0].id == st.actions[0] && st.queue[0].queued)
  {
    var st := Run(Initial(size), events);
    InitialInv(size);
    RunKeeps(Initial(size), events);
    if st.actions != [] {
      HeadOrGone(st.queue, st.actions, st.clock);
    }
  }

  /** While a port probes, at most one packet waits for it, and that is the probe it started with. */
  lemma EveryRunProbesAlone(size: nat, events: seq<Event>, port: nat, x: Packet, y: Packet)
    requires var st := Run(Initial(size), events);
             InProbe(StateOf(st.pcbs, port)) && x in st.queue && x.port == port && y in st.queue && y.port == port
    ensures x == y && ProbeOf(Run(Initial(size), events).log, port) == Some(x.id)
  {
    var st := Run(Initial(size), events);
    InitialInv(size);
    RunKeeps(Initial(size), events);
    assert ProbeInv(st.queue, st.log, st.clock, port, StateOf(st.pcbs, port));
    SameId(st.queue, x, y);
  }

  // ------------------------------------------------------------------ reading the log

  lemma {:induction false} LastSent(log: seq<Entry>, port: nat, id: nat) returns (k: nat)
    requires SentSince(log, port, id) != []
    ensures k < |log| && log[k] == Sent(port, id, Last(SentSince(log, port, id)))
    ensures SentSince(log[..k], port, id) == SentSince(log, port, id)[..|SentSince(log, port, id)| - 1]
    ensures forall j | k <= j < |log| :: !IsStart(log[j], port)
  {
    var e, init := Last(log), log[..|log| - 1];
    if e.Sent? && e.port == port && e.id == id {
      k := |log| - 1;
    } else {
      k := LastSent(init, port, id);
      assert init[..k] == log[..k];
    }
  }

  lemma {:induction false} LastStart(log: seq<Entry>, port: nat) returns (j: nat)
    requires ProbeOf(log, port).Some?
    ensures j < |log| && IsStart(log[j], port) && log[j].id == ProbeOf(log, port).value
    ensures forall i | j < i < |log| :: !IsStart(log[i], port)
  {
    if IsStart(Last(log), port) {
      j := |log| - 1;
    } else {
      j := LastStart(log[..|log| - 1], port);
    }
  }

  lemma {:induction false} LawfulAt(log: seq<Entry>, i: nat)
    requires Lawful(log) && i < |log| && log[i].Announced?
    ensures Probed(log[..i], log[i].port, log[i].time)
  {
    if i < |log| - 1 {
      LawfulAt(log[..|log| - 1], i);
      assert log[..|log| - 1][..i] == log[..i];
    }
  }

  /** Three transmissions of one packet, each more than 250 ms after the one before. */
  predicate IsThree(log: seq<Entry>, port: nat, id: nat, a: nat, b: nat, c: nat) {
    && a < b < c < |log| && log[a].Sent? && log[b].Sent? && log[c].Sent?
    && log[a].port == log[b].port == log[c].port == port && log[a].id == log[b].id == log[c].id == id
    && log[b].time > log[a].time + PROBE_WAIT && log[c].time > log[b].time + PROBE_WAIT
  }

  lemma LastTwo(log: seq<Entry>, port: nat, id: nat) returns (a: nat, b: nat)
    requires |SentSince(log, port, id)| >= 2
    ensures var times := SentSince(log, port, id);
            a < b < |log| && log[a] == Sent(port, id, times[|times| - 2])
            && log[b] == Sent(port, id, times[|times| - 1])
    ensures var times := SentSince(log, port, id); SentSince(log[..a], port, id) == times[..|times| - 2]
    ensures forall j | a <= j < |log| :: !IsStart(log[j], port)
  {
    var times := SentSince(log, port, id);
    b := LastSent(log, port, id);
    a := LastSent(log[..b], port, id);
    assert log[..b][..a] == log[..a] && times[..|times| - 1][..|times| - 2] == times[..|times| - 2];
    forall j | a <= j < |log| ensures !IsStart(log[j], port) {
      if j < b {
        assert log[..b][j] == log[j];
      }
    }
  }

  lemma LastThree(log: seq<Entry>, port: nat, time: int) returns (j: nat, a: nat, b: nat, c: nat)
    requires Probed(log, port, time)
    ensures j < a < |log| && IsStart(log[j], port)
    ensures (forall i | j < i < |log| :: !IsStart(log[i], port))
    ensures IsThree(log, port, log[j].id, a, b, c) && log[c].time == time
  {
    j := LastStart(log, port);
    var id, times := ProbeOf(log, port).value, ProbesSent(log, port);
    b, c := LastTwo(log, port, id);
    a := LastSent(log[..b], port, id);
    assert IsStart(log[j], port);
    assert forall k | a <= k < b :: log[..b][k] == log[k];
  }

  /** Section 8.1 of RFC 6762, over every run: a port goes from probing to announcing only after the packet
      of its latest probe was sent three times, more than 250 ms apart, with no restart in between. */
  lemma EveryRunProbesFirst(size: nat, events: seq<Event>, i: nat) returns (j: nat, a: nat, b: nat, c: nat)
    requires i < |Run(Initial(size), events).log| && Run(Initial(size), events).log[i].Announced?
    ensures var log := Run(Initial(size), events).log;
            && j < a < b < c < i && IsStart(log[j], log[i].port)
            && (forall k | j < k < i :: !IsStart(log[k], log[i].port))
            && IsThree(log, log[i].port, log[j].id, a, b, c) && log[c].time == log[i].time
  {
    var log := Run(Initial(size), events).log;
    InitialInv(size);
    RunKeeps(Initial(size), events);
    LawfulAt(log, i);
    j, a, b, c := LastThree(log[..i], log[i].port, log[i].time);
  }
}
