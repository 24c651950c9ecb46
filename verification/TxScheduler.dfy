/** The transmit queue and the probe machine as the code runs them: the queue of components/mdns/mdns_send.c
    and the table of components/mdns/mdns_pcb.c, updated in place by every call. */
module TxScheduler {
  import opened Common
  import opened TxQueue
  import opened ProbeMachine

  // ------------------------------------------------------------------ lists, by position

  lemma {:induction false} InsertAt(q: seq<Packet>, p: Packet, k: nat)
    requires k <= |q| && (forall i | 0 <= i < k :: q[i].sendAt <= p.sendAt) && (k == |q| || q[k].sendAt > p.sendAt)
    ensures Insert(q, p) == q[..k] + [p] + q[k..]
  {
    if k == 0 {
      assert q[..0] + [p] + q[0..] == [p] + q;
    } else {
      InsertAt(q[1..], p, k - 1);
      assert q[..k] + [p] + q[k..] == [q[0]] + (q[1..][..k - 1] + [p] + q[1..][k - 1..]);
    }
  }

  lemma {:induction false} ClearJoin(a: seq<Packet>, b: seq<Packet>, port: nat)
    ensures Clear(a + b, port) == Clear(a, port) + Clear(b, port)
  {
    if a == [] {
      assert a + b == b;
    } else {
      assert (a + b)[1..] == a[1..] + b;
      ClearJoin(a[1..], b, port);
    }
  }

  lemma {:induction false} TakeJoin(a: seq<Packet>, b: seq<Packet>, ids: set<nat>)
    ensures Take(a + b, ids) == Take(a, ids) + Take(b, ids)
  {
    if a == [] {
      assert a + b == b;
    } else {
      assert (a + b)[1..] == a[1..] + b;
      TakeJoin(a[1..], b, ids);
    }
  }

  /** One more packet was looked at. */
  lemma TakeOneMore(q: seq<Packet>, i: nat, ids: set<nat>)
    requires i < |q|
    ensures Take(q[..i + 1], ids) == Take(q[..i], ids) + if q[i].id in ids then [] else [q[i]]
  {
    assert q[..i + 1] == q[..i] + [q[i]];
    TakeJoin(q[..i], [q[i]], ids);
  }

  /** The next packet of the port goes. */
  lemma ClearHere(q: seq<Packet>, k: nat, port: nat)
    requires k < |q| && q[k].port == port
    ensures Clear(q[..k] + q[k + 1..], port) == Clear(q, port)
  {
    ClearJoin(q[..k], q[k..], port);
    ClearJoin(q[..k], q[k + 1..], port);
    assert q == q[..k] + q[k..] && q[k..][1..] == q[k + 1..];
  }

  lemma {:induction false} ClearNothing(q: seq<Packet>, port: nat)
    requires forall i | 0 <= i < |q| :: q[i].port != port
    ensures Clear(q, port) == q
  {
    if q != [] {
      ClearNothing(q[1..], port);
    }
  }

  lemma {:induction false} FlagAt(q: seq<Packet>, now: int, n: nat, k: nat)
    requires k <= |q| && (forall i | 0 <= i < k :: q[i].queued) && (k == |q| || !q[k].queued)
    ensures FlagFrom(q, now, n) == q[..k] + FlagDue(q[k..], now, n) && IdsFrom(q, now, n) == DueIds(q[k..], now, n)
  {
    if k == 0 {
      assert q[0..] == q && q[..0] + FlagDue(q, now, n) == FlagDue(q, now, n);
    } else {
      FlagAt(q[1..], now, n, k - 1);
      assert q[1..][k - 1..] == q[k..] && q[..k] == [q[0]] + q[1..][..k - 1];
    }
  }

  /** The packets behind the flagged ones are untouched. */
  lemma {:induction false} FlagNext(q: seq<Packet>, now: int, n: nat)
    requires n <= |q| && forall i | 0 <= i < n :: q[i].sendAt < now
    ensures |FlagDue(q, now, n)| == |q| && (n < |q| ==> FlagDue(q, now, n)[n] == q[n])
  {
    if n > 0 {
      FlagNext(q[1..], now, n - 1);
    }
  }

  /** More memory than there are due packets makes no difference. */
  lemma {:induction false} FlagStops(q: seq<Packet>, now: int, n: nat, memory: nat)
    requires n <= |q| && n <= memory && (forall i | 0 <= i < n :: q[i].sendAt < now)
    requires n == memory || n == |q| || q[n].sendAt >= now
    ensures FlagDue(q, now, memory) == FlagDue(q, now, n) && DueIds(q, now, memory) == DueIds(q, now, n)
  {
    if n > 0 {
      FlagStops(q[1..], now, n - 1, memory - 1);
    }
  }

  /** One more of the packets that are due. */
  lemma {:induction false} FlagOneMore(q: seq<Packet>, now: int, n: nat)
    requires n < |q| && forall i | 0 <= i <= n :: q[i].sendAt < now
    ensures |FlagDue(q, now, n)| == |q|
    ensures FlagDue(q, now, n + 1) == FlagDue(q, now, n)[n := q[n].(queued := true)]
    ensures DueIds(q, now, n + 1) == DueIds(q, now, n) + [q[n].id]
  {
    FlagNext(q, now, n);
    if n == 0 {
      assert FlagDue(q[1..], now, 0) == q[1..];
    } else {
      FlagOneMore(q[1..], now, n - 1);
    }
  }

  /** The same in a list with a head in front. */
  lemma FlagInList(head: seq<Packet>, q: seq<Packet>, now: int, n: nat, list: seq<Packet>)
    requires n < |q| && (forall i | 0 <= i < n :: q[i].sendAt < now) && list == head + FlagDue(q, now, n)
    ensures |list| == |head| + |q| && list[|head| + n] == q[n]
    ensures q[n].sendAt < now ==> list[|head| + n := q[n].(queued := true)] == head + FlagDue(q, now, n + 1)
  {
    FlagNext(q, now, n);
    if q[n].sendAt < now {
      FlagOneMore(q, now, n);
    }
  }

  lemma {:induction false} MissingSnoc(a: seq<nat>, s: nat, list: seq<nat>)
    ensures Missing(a + [s], list) == Missing(a, list) + if s in list then [] else [s]
    decreases a
  {
    if a == [] {
      assert a + [s] == [s] && [s][1..] == [];
    } else {
      var first, last := if a[0] in list then [] else [a[0]], if s in list then [] else [s];
      assert (a + [s])[1..] == a[1..] + [s] && (a + [s])[0] == a[0];
      MissingSnoc(a[1..], s, list);
      assert first + (Missing(a[1..], list) + last) == first + Missing(a[1..], list) + last;
    }
  }

  lemma {:induction false} RemoveFirstAt(list: seq<nat>, service: nat, i: nat)
    requires i < |list| && list[i] == service && forall k | 0 <= k < i :: list[k] != service
    ensures RemoveFirst(list, service) == list[..i] + list[i + 1..]
  {
    if i > 0 {
      RemoveFirstAt(list[1..], service, i - 1);
      assert list[1..][..i - 1] + list[1..][i..] == list[1..i] + list[i + 1..];
    }
  }

  class Responder {
    var queue: seq<Packet>
    var actions: seq<nat>
    var pcbs: map<nat, Pcb>
    const size: nat
    var named: bool
    var next: nat
    ghost var clock: int
    ghost var log: seq<Entry>

    ghost function Snap(): (st: State)
      reads this
    {
      State(queue, actions, pcbs, size, named, clock, next, log)
    }

    constructor (size: nat)
      ensures Snap() == Initial(size) && Inv(Snap())
    {
      this.size := size;
      queue, actions, pcbs, named, next, clock, log := [], [], map[], false, 0, 0, [];
      new;
      InitialInv(size);
    }

    // ---------------------------------------------------------------- the queue

    /** mdns_priv_send_after */
    method SendAfter(p: Packet, ms: nat, now: int)
      modifies this`queue
      ensures queue == Insert(old(queue), p.(sendAt := now + ms, queued := false))
    {
      var packet := p.(sendAt := now + ms, queued := false);
      var k := 0;
      while k < |queue| && queue[k].sendAt <= packet.sendAt
        invariant 0 <= k <= |queue| && forall i | 0 <= i < k :: queue[i].sendAt <= packet.sendAt
        invariant queue == old(queue)
      {
        k := k + 1;
      }
      InsertAt(queue, packet, k);
      queue := queue[..k] + [packet] + queue[k..];
    }

    /** mdns_priv_clear_tx_queue_if */
    method ClearIf(port: nat)
      modifies this`queue
      ensures queue == Clear(old(queue), port)
    {
      while queue != [] && queue[0].port == port
        invariant Clear(queue, port) == Clear(old(queue), port)
        decreases |queue|
      {
        queue := queue[1..];
      }
      var k := 0;
      while k < |queue|
        invariant 0 <= k <= |queue| && Clear(queue, port) == Clear(old(queue), port)
        invariant forall i | 0 <= i < k :: queue[i].port != port
        decreases |queue| - k
      {
        if queue[k].port == port {
          ClearHere(queue, k, port);
          queue := queue[..k] + queue[k + 1..];
        } else {
          k := k + 1;
        }
      }
      ClearNothing(queue, port);
    }

    /** mdns_priv_get_next_packet */
    method NextPacket(port: nat) returns (found: bool)
      ensures found == exists p :: p in queue && p.port == port
    {
      for i := 0 to |queue|
        invariant forall j | 0 <= j < i :: queue[j].port != port
      {
        if queue[i].port == port {
          return true;
        }
      }
      found := false;
    }

    /** mdns_priv_send_packets; memory is how many actions can be allocated. */
    method SendPackets(now: int, memory: nat)
      requires Inv(Snap()) && clock <= now
      modifies this
      ensures Snap() == Step(Step(old(Snap()), Wait(now)), Timer(memory)) && Inv(Snap())
    {
      ghost var st := Step(Snap(), Wait(now));
      StepKeeps(Snap(), Wait(now));
      clock := now;
      var k := 0;
      while k < |queue| && queue[k].queued
        invariant 0 <= k <= |queue| && (forall i | 0 <= i < k :: queue[i].queued) && Snap() == st
      {
        k := k + 1;
      }
      FlagAll(k, now, memory);
      FlagAt(st.queue, now, memory, k);
      StepKeeps(st, Timer(memory));
    }

    /** The second loop of mdns_priv_send_packets */
    method FlagAll(k: nat, now: int, memory: nat)
      requires k <= |queue|
      modifies this`queue, this`actions
      ensures queue == old(queue)[..k] + FlagDue(old(queue)[k..], now, memory)
      ensures actions == old(actions) + DueIds(old(queue)[k..], now, memory)
    {
      ghost var head, tail := queue[..k], queue[k..];
      var n := 0;
      assert queue == head + FlagDue(tail, now, 0);
      while k + n < |queue| && queue[k + n].sendAt < now
        invariant 0 <= n <= |tail| && n <= memory && |queue| == k + |tail|
        invariant queue == head + FlagDue(tail, now, n) && actions == old(actions) + DueIds(tail, now, n)
        invariant forall i | 0 <= i < n :: tail[i].sendAt < now
        decreases |tail| - n
      {
        if n == memory {
          break;
        }
        FlagInList(head, tail, now, n, queue);
        FlagOneMore(tail, now, n);
        actions := actions + [queue[k + n].id];
        queue := queue[k + n := queue[k + n].(queued := true)];
        n := n + 1;
      }
      if n < |tail| {
        FlagNext(tail, now, n);
      }
      FlagStops(tail, now, n, memory);
    }

    // ---------------------------------------------------------------- executing an action

    /** send_packet and handle_packet for the first pending action; prepared is whether there is memory for the next
        packet. */
    method ExecuteAction(now: int, prepared: bool)
      requires Inv(Snap()) && clock <= now && actions != []
      modifies this
      ensures Snap() == Step(Step(old(Snap()), Wait(now)), Action(prepared)) && Inv(Snap())
    {
      ghost var st := Step(Snap(), Wait(now));
      StepKeeps(Snap(), Wait(now));
      clock := now;
      var id := actions[0];
      actions := actions[1..];
      if queue != [] && queue[0].id == id && queue[0].queued {
        var p := queue[0];
        queue := queue[1..];
        HandlePacket(p, now, prepared);
      }
      StepKeeps(st, Action(prepared));
    }

    method HandlePacket(x: Packet, now: int, prepared: bool)
      requires clock == now
      modifies this
      ensures Snap() == Handle(old(Snap()), x, prepared)
    {
      if StateOf(pcbs, x.port).Off? {
        return;
      }
      log := log + [Sent(x.port, x.id, now)];
      ScheduleTxPacket(x, now, prepared);
    }

    /** mdns_priv_pcb_schedule_tx_packet */
    method ScheduleTxPacket(x: Packet, now: int, prepared: bool)
      requires clock == now
      modifies this
      ensures Snap() == Proceed(old(Snap()), x, prepared)
    {
      var p := PcbOf(pcbs, x.port);
      var s := p.state;
      if s.Probe1? || s.Probe2? {
        SendAfter(x, PROBE_WAIT, now);
        pcbs := pcbs[x.port := p.(state := if s.Probe1? then Probe2 else Probe3)];
      } else if s.Probe3? {
        if !prepared {
          SendAfter(x, PROBE_WAIT, now);
        } else {
          AnnounceAfterProbe(x.port, now);
        }
      } else if s.Announce1? || s.Announce2? {
        SendAfter(x, ANNOUNCE_WAIT, now);
        pcbs := pcbs[x.port := p.(state := if s.Announce1? then Announce2 else Announce3)];
      } else if s.Announce3? {
        pcbs := pcbs[x.port := p.(state := Running)];
      }
    }

    method AnnounceAfterProbe(port: nat, now: int)
      requires clock == now
      modifies this
      ensures Snap() == Note(SetPcb(AddNew(old(Snap()), port, PROBE_WAIT), port, Finished(old(PcbOf(pcbs, port)))),
                             Announced(port, old(next), now))
    {
      SendAfter(Packet(next, port, 0, false), PROBE_WAIT, now);
      pcbs := pcbs[port := PcbOf(pcbs, port).(state := Announce1, ip := false, services := [], running := false,
      failed := 0)];
      log := log + [Announced(port, next, now)];
      next := next + 1;
    }

    // ---------------------------------------------------------------- starting a probe

    /** The loops of mdns_priv_init_pcb_probe */
    method NewServices(services: seq<nat>, list: seq<nat>) returns (added: seq<nat>)
      ensures added == Missing(services, list)
    {
      added := [];
      assert services[..0] == [];
      for j := 0 to |services|
        invariant added == Missing(services[..j], list)
      {
        var found := false;
        for i := 0 to |list|
          invariant found <==> services[j] in list[..i]
        {
          found := found || list[i] == services[j];
        }
        assert list[..|list|] == list && services[..j + 1] == services[..j] + [services[j]];
        MissingSnoc(services[..j], services[j], list);
        if !found {
          added := added + [services[j]];
        }
      }
      assert services[..|services|] == services;
    }

    /** init_probe_new_service; list is what it allocates and fills. */
    method InitProbeNewService(port: nat, list: seq<nat>, ip: bool, memory: Memory, now: int)
      requires clock == now
      modifies this
      ensures Snap() == StartProbe(old(Snap()), port, list, ip, memory)
    {
      var p := PcbOf(pcbs, port);
      if list != [] && memory.NoList? {
        log := log + [Starved(port)];
        return;
      }
      if !memory.Enough? {
        pcbs := pcbs[port := p.(ip := false, services := [], running := false)];
        log := log + [Starved(port)];
        return;
      }
      SendAfter(Packet(next, port, 0, false), ProbeDelay(p.failed, memory.chance), now);
      log := log + [Started(port, next, p.ip || ip)];
      next := next + 1;
      pcbs := pcbs[port := p.(state := Probe1, ip := p.ip || ip, services := list, running := true)];
    }

    method InitPcbProbe(port: nat, services: seq<nat>, ip: bool, memory: Memory, now: int)
      requires clock == now
      modifies this
      ensures Snap() == Restart(old(Snap()), port, services, ip, memory)
    {
      ClearIf(port);
      var p := PcbOf(pcbs, port);
      if !named {
        pcbs := pcbs[port := p.(state := Running)];
      } else if IsProbing(p.state) {
        var added := NewServices(services, p.services);
        InitProbeNewService(port, added + p.services, ip, memory, now);
      } else {
        InitProbeNewService(port, services, ip, memory, now);
      }
    }

    /** mdns_priv_init_pcb_probe */
    method InitProbe(port: nat, services: seq<nat>, ip: bool, memory: Memory, now: int)
      requires Inv(Snap()) && clock == now
      modifies this
      ensures Snap() == Step(old(Snap()), Probe(port, services, ip, memory)) && Inv(Snap())
    {
      StepKeeps(Snap(), Probe(port, services, ip, memory));
      InitPcbProbe(port, services, ip, memory, now);
    }

    method ProbeTable(services: seq<nat>, ip: bool, forget: bool, memory: map<nat, Memory>, now: int)
      requires clock == now
      modifies this
      ensures Snap() == ProbeBelow(old(Snap()), size, services, ip, forget, memory)
    {
      for port := 0 to size
        invariant clock == now && Snap() == ProbeBelow(old(Snap()), port, services, ip, forget, memory)
      {
        var p := PcbOf(pcbs, port);
        if p.ready {
          if forget {
            pcbs := pcbs[port := p.(services := [], running := false)];
          }
          InitPcbProbe(port, services, ip, MemoryFor(memory, port), now);
        }
      }
    }

    /** mdns_priv_probe_all_pcbs */
    method ProbeAllPcbs(services: seq<nat>, ip: bool, forget: bool, memory: map<nat, Memory>, now: int)
      requires Inv(Snap()) && clock == now
      modifies this
      ensures Snap() == Step(old(Snap()), ProbeAll(services, ip, forget, memory)) && Inv(Snap())
    {
      StepKeeps(Snap(), ProbeAll(services, ip, forget, memory));
      ProbeTable(services, ip, forget, memory, now);
    }

    /** The host gets a name, then mdns_priv_restart_all_pcbs. */
    method SetHostname(services: seq<nat>, memory: map<nat, Memory>, now: int)
      requires Inv(Snap()) && clock == now
      modifies this
      ensures Snap() == Step(old(Snap()), Naming(services, memory)) && Inv(Snap())
    {
      StepKeeps(Snap(), Naming(services, memory));
      named := true;
      log := log + [Renamed];
      queue := [];
      ProbeTable(services, true, true, memory, now);
    }

    // ---------------------------------------------------------------- announcing, opening and closing

    method AnnounceAgain(port: nat, now: int, prepared: bool)
      requires clock == now
      modifies this
      ensures Snap() == var q := Note(SetState(old(Snap()), port, Announce1), Resumed(port));
                        if prepared then AddNew(q, port, 0) else q
    {
      pcbs := pcbs[port := PcbOf(pcbs, port).(state := Announce1)];
      log := log + [Resumed(port)];
      if prepared {
        SendAfter(Packet(next, port, 0, false), 0, now);
        next := next + 1;
      }
    }

    method AnnouncePort(port: nat, services: seq<nat>, ip: bool, memory: Memory, prepared: bool, now: int)
      requires clock == now
      modifies this
      ensures Snap() == Announce(old(Snap()), port, services, ip, memory, prepared)
    {
      var p := PcbOf(pcbs, port);
      if p.ready {
        if IsProbing(p.state) {
          InitPcbProbe(port, services, ip, memory, now);
        } else if IsAnnouncing(p.state) {
          var found := NextPacket(port);
          if found {
            pcbs := pcbs[port := p.(state := Announce1)];
          }
        } else if p.state.Running? && named {
          AnnounceAgain(port, now, prepared);
        }
      }
    }

    /** mdns_priv_pcb_announce */
    method PcbAnnounce(port: nat, services: seq<nat>, ip: bool, memory: Memory, prepared: bool, now: int)
      requires Inv(Snap()) && clock == now
      modifies this
      ensures Snap() == Step(old(Snap()), Announcement(port, services, ip, memory, prepared)) && Inv(Snap())
    {
      StepKeeps(Snap(), Announcement(port, services, ip, memory, prepared));
      AnnouncePort(port, services, ip, memory, prepared, now);
    }

    method EnablePort(port: nat, opens: bool, services: seq<nat>, memory: Memory, now: int)
      requires clock == now
      modifies this
      ensures Snap() == Enable(old(Snap()), port, opens, services, memory)
    {
      if port >= size {
        return;
      }
      var p := PcbOf(pcbs, port);
      if !p.ready {
        if !opens {
          pcbs := pcbs[port := p.(failed := 0)];
          return;
        }
      }
      pcbs := pcbs[port := p.(ready := true)];
      log := log + [Opened(port)];
      InitPcbProbe(port, services, true, memory, now);
    }

    /** mdns_priv_pcb_enable, services being all of the responder's */
    method PcbEnable(port: nat, opens: bool, services: seq<nat>, memory: Memory, now: int)
      requires Inv(Snap()) && clock == now
      modifies this
      ensures Snap() == Step(old(Snap()), Enabling(port, opens, services, memory)) && Inv(Snap())
    {
      StepKeeps(Snap(), Enabling(port, opens, services, memory));
      EnablePort(port, opens, services, memory, now);
    }

    /** mdns_priv_clear_tx_queue_if and deinit_pcb */
    method ClosePort(port: nat)
      modifies this
      ensures Snap() == Close(old(Snap()), port)
    {
      if PcbOf(pcbs, port).ready {
        ClearIf(port);
        pcbs := pcbs[port := CLOSED];
      }
    }

    method WakePort(other: Option<nat>, opens: bool, services: seq<nat>, memory: Memory, now: int)
      requires clock == now
      modifies this
      ensures Snap() == Wake(old(Snap()), other, opens, services, memory)
    {
      if other.Some? && StateOf(pcbs, other.value).Dup? {
        pcbs := pcbs[other.value := PcbOf(pcbs, other.value).(state := Off)];
        EnablePort(other.value, opens, services, memory, now);
      }
    }

    /** mdns_priv_pcb_disable. other is the same protocol on the other interface on the same network, if there is one;
        it wakes up if it was a duplicate, and probes if it can be opened. */
    method PcbDisable(port: nat, other: Option<nat>, opens: bool, services: seq<nat>, memory: Memory, now: int)
      requires Inv(Snap()) && clock == now
      modifies this
      ensures Snap() == Step(old(Snap()), Disabling(port, other, opens, services, memory)) && Inv(Snap())
    {
      StepKeeps(Snap(), Disabling(port, other, opens, services, memory));
      if PcbOf(pcbs, port).ready {
        ClosePort(port);
        WakePort(other, opens, services, memory, now);
      }
      pcbs := pcbs[port := PcbOf(pcbs, port).(state := Off)];
    }

    /** mdns_priv_pcb_set_duplicate for one protocol: the port becomes a duplicate and the other one announces. */
    method PcbSetDuplicate(port: nat, other: nat, memory: Memory, prepared: bool, now: int)
      requires Inv(Snap()) && clock == now
      modifies this
      ensures Snap() == Step(old(Snap()), Duplicating(port, other, memory, prepared)) && Inv(Snap())
    {
      StepKeeps(Snap(), Duplicating(port, other, memory, prepared));
      if PcbOf(pcbs, other).ready {
        ClosePort(port);
        pcbs := pcbs[port := PcbOf(pcbs, port).(state := Dup)];
        AnnouncePort(other, [], true, memory, prepared, now);
      }
    }

    /** mdns_priv_pcb_set_probe_failed */
    method SetProbeFailed(port: nat)
      requires Inv(Snap())
      modifies this`pcbs
      ensures Snap() == Step(old(Snap()), Failure(port)) && Inv(Snap())
    {
      StepKeeps(Snap(), Failure(port));
      var p := PcbOf(pcbs, port);
      pcbs := pcbs[port := p.(failed := (p.failed + 1) % 0x1_0000)];
    }

    // ---------------------------------------------------------------- removing a service

    /** mdns_priv_pcb_check_probing_services */
    method CheckProbingServices(port: nat, service: nat, removed: bool)
      modifies this`pcbs
      ensures pcbs == old(pcbs)[port := Checked(old(PcbOf(pcbs, port)), service, removed)]
    {
      var p := PcbOf(pcbs, port);
      var r := p;
      if IsProbing(p.state) {
        var i := 0;
        while i < |p.services| && p.services[i] != service
          invariant 0 <= i <= |p.services| && forall k | 0 <= k < i :: p.services[k] != service
        {
          i := i + 1;
        }
        if i < |p.services| {
          if |p.services| > 1 {
            RemoveFirstAt(p.services, service, i);
            r := p.(services := p.services[..i] + p.services[i + 1..]);
          } else if p.ip {
            r := p.(services := []);
          } else {
            r := p.(services := [], running := false, state := Running);
          }
        }
      } else if IsAnnouncing(p.state) && removed {
        r := p.(state := Running);
      }
      pcbs := pcbs[port := r];
    }

    method RemovePackets(service: nat, cleared: set<nat>, empty: set<nat>)
      modifies this`pcbs, this`queue
      ensures Snap() == RemoveService(old(Snap()), service, cleared, empty)
    {
      ghost var all := queue;
      var k := 0;
      ghost var i := 0;
      assert all[..0] == [] && all[0..] == all;
      while k < |queue|
        invariant 0 <= i <= |all| && 0 <= k <= |queue| && queue[..k] == Take(all[..i], empty) && queue[k..] == all[i..]
        invariant CheckedAll(pcbs, all[i..], service, cleared) == CheckedAll(old(pcbs), all, service, cleared)
        decreases |all| - i
      {
        var x := queue[k];
        assert x == queue[k..][0] == all[i] && all[i..][1..] == all[i + 1..] && queue[k..][1..] == queue[k + 1..];
        TakeOneMore(all, i, empty);
        if PcbOf(pcbs, x.port).ready {
          CheckProbingServices(x.port, service, x.id in cleared);
        }
        if x.id in empty {
          queue := queue[..k] + queue[k + 1..];
        } else {
          assert queue[..k + 1] == queue[..k] + [x];
          k := k + 1;
        }
        i := i + 1;
      }
      assert all[..i] == all && queue[..k] == queue;
    }

    /** mdns_priv_remove_scheduled_service_packets */
    method RemoveScheduledService(service: nat, cleared: set<nat>, empty: set<nat>)
      requires Inv(Snap())
      modifies this`pcbs, this`queue
      ensures Snap() == Step(old(Snap()), Removal(service, cleared, empty)) && Inv(Snap())
    {
      StepKeeps(Snap(), Removal(service, cleared, empty));
      RemovePackets(service, cleared, empty);
    }

    /** The reply to a query: shared answers wait, and nothing is answered while probing. */
    method ReplyShared(port: nat, shareStep: nat, now: int)
      requires Inv(Snap()) && clock == now && shareStep < 4
      modifies this
      ensures Snap() == Step(old(Snap()), Reply(port, 25 + shareStep * 25)) && Inv(Snap())
    {
      StepKeeps(Snap(), Reply(port, 25 + shareStep * 25));
      if IsAfterProbing(StateOf(pcbs, port)) {
        SendAfter(Packet(next, port, 0, false), 25 + shareStep * 25, now);
        next := next + 1;
      }
    }
  }
}
