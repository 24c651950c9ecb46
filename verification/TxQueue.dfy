/** The transmit queue of the mDNS responder: components/mdns/mdns_send.c. Packets wait in the order of
    their deadlines; a timer turns the due ones into actions of the service task, which are executed
    later, when some of the packets may be gone. */
module TxQueue {
  import opened Common
  /** A scheduled packet. Packets are told apart by their number, ports are interface and protocol. */
  datatype Packet = Packet(id: nat, port: nat, sendAt: int, queued: bool)

  // ------------------------------------------------------------------ the operations on the list

  /** mdns_priv_send_after: behind all packets that are not due later. */
  function Insert(q: seq<Packet>, p: Packet): (r: seq<Packet>)
    ensures forall x :: x in r <==> x in q || x == p
  {
    if q == [] || q[0].sendAt > p.sendAt then [p] + q
    else
      assert q == [q[0]] + q[1..];
      [q[0]] + Insert(q[1..], p)
  }

  /** mdns_priv_clear_tx_queue_if */
  function Clear(q: seq<Packet>, port: nat): (r: seq<Packet>)
    ensures forall x :: x in r <==> x in q && x.port != port
  {
    if q == [] then []
    else
      assert q == [q[0]] + q[1..];
      if q[0].port == port then Clear(q[1..], port) else [q[0]] + Clear(q[1..], port)
  }

  /** Packets that became empty are taken out. */
  function Take(q: seq<Packet>, ids: set<nat>): (r: seq<Packet>)
    ensures forall x :: x in r <==> x in q && x.id !in ids
  {
    if q == [] then []
    else
      assert q == [q[0]] + q[1..];
      if q[0].id in ids then Take(q[1..], ids) else [q[0]] + Take(q[1..], ids)
  }

  /** The second loop of mdns_priv_send_packets: at most n due packets are flagged, n being how many
      actions could be allocated. */
  function FlagDue(q: seq<Packet>, now: int, n: nat): (r: seq<Packet>) {
    if q == [] || q[0].sendAt >= now || n == 0 then q
    else [q[0].(queued := true)] + FlagDue(q[1..], now, n - 1)
  }

  function DueIds(q: seq<Packet>, now: int, n: nat): (r: seq<nat>) {
    if q == [] || q[0].sendAt >= now || n == 0 then []
    else [q[0].id] + DueIds(q[1..], now, n - 1)
  }

  /** The first loop skips the packets that have their action already. */
  function FlagFrom(q: seq<Packet>, now: int, n: nat): (r: seq<Packet>) {
    if q != [] && q[0].queued then [q[0]] + FlagFrom(q[1..], now, n) else FlagDue(q, now, n)
  }

  function IdsFrom(q: seq<Packet>, now: int, n: nat): (r: seq<nat>) {
    if q != [] && q[0].queued then IdsFrom(q[1..], now, n) else DueIds(q, now, n)
  }

  // ------------------------------------------------------------------ what holds of queue and actions

  ghost predicate Sorted(q: seq<Packet>) {
    q == [] || ((forall x <- q :: q[0].sendAt <= x.sendAt) && Sorted(q[1..]))
  }

  ghost predicate Distinct(q: seq<Packet>) {
    q == [] || ((forall x <- q[1..] :: x.id != q[0].id) && Distinct(q[1..]))
  }

  ghost predicate NoneQueued(q: seq<Packet>) {
    forall x <- q :: !x.queued
  }

  /** The flagged packets come first. */
  ghost predicate FlaggedFirst(q: seq<Packet>) {
    q == [] || if q[0].queued then FlaggedFirst(q[1..]) else NoneQueued(q)
  }

  ghost predicate Has(q: seq<Packet>, id: nat) {
    exists x :: x in q && x.id == id
  }

  /** The flagged packets, in order. */
  function Flagged(q: seq<Packet>): (r: seq<nat>) {
    if q == [] then [] else if q[0].queued then [q[0].id] + Flagged(q[1..]) else Flagged(q[1..])
  }

  /** The actions whose packet is still in the queue. */
  ghost function Live(actions: seq<nat>, q: seq<Packet>): (r: seq<nat>) {
    if actions == [] then []
    else if Has(q, actions[0]) then [actions[0]] + Live(actions[1..], q) else Live(actions[1..], q)
  }

  /** The queue is in order, and the pending actions for its packets name its flagged prefix in order. */
  ghost predicate Orderly(q: seq<Packet>, actions: seq<nat>, clock: int) {
    && Sorted(q) && Distinct(q) && FlaggedFirst(q) && NoRepeat(actions) && Live(actions, q) == Flagged(q)
    && (forall x <- q :: x.queued ==> x.sendAt < clock)
  }

  // ------------------------------------------------------------------ helpers

  lemma {:induction false} FlaggedHas(q: seq<Packet>)
    ensures forall id :: id in Flagged(q) <==> exists x :: x in q && x.queued && x.id == id
  {
    if q != [] {
      FlaggedHas(q[1..]);
      assert q == [q[0]] + q[1..];
      forall id ensures id in Flagged(q) <==> exists x :: x in q && x.queued && x.id == id {
        if id in Flagged(q[1..]) {
          var x :| x in q[1..] && x.queued && x.id == id;
          assert x in q;
        }
        assert q[0] in q;
      }
    }
  }

  lemma {:induction false} LiveHas(actions: seq<nat>, q: seq<Packet>)
    ensures forall id :: id in Live(actions, q) <==> id in actions && Has(q, id)
  {
    if actions != [] {
      LiveHas(actions[1..], q);
      assert actions == [actions[0]] + actions[1..];
    }
  }

  lemma {:induction false} LiveSame(actions: seq<nat>, q: seq<Packet>, p: seq<Packet>)
    requires forall id <- actions :: Has(q, id) <==> Has(p, id)
    ensures Live(actions, q) == Live(actions, p)
  {
    if actions != [] {
      assert actions[0] in actions && forall id <- actions[1..] :: id in actions;
      LiveSame(actions[1..], q, p);
    }
  }

  lemma {:induction false} LiveJoin(a: seq<nat>, b: seq<nat>, q: seq<Packet>)
    ensures Live(a + b, q) == Live(a, q) + Live(b, q)
  {
    if a == [] {
      assert a + b == b;
    } else {
      assert (a + b)[1..] == a[1..] + b;
      LiveJoin(a[1..], b, q);
    }
  }

  lemma {:induction false} NoneFlagged(q: seq<Packet>)
    requires NoneQueued(q)
    ensures Flagged(q) == []
  {
    if q != [] {
      assert q[0] in q;
      NoneFlagged(q[1..]);
    }
  }

  /** A packet without action belongs behind all that have one. */
  lemma {:induction false} InsertKeeps(q: seq<Packet>, p: Packet)
    requires Sorted(q) && Distinct(q) && FlaggedFirst(q) && !p.queued && !Has(q, p.id)
    requires forall x <- q :: x.queued ==> x.sendAt <= p.sendAt
    ensures Sorted(Insert(q, p)) && Distinct(Insert(q, p)) && FlaggedFirst(Insert(q, p))
    ensures Flagged(Insert(q, p)) == Flagged(q)
  {
    if q == [] || q[0].sendAt > p.sendAt {
      var r := [p] + q;
      assert r[1..] == q;
      forall x | x in q ensures p.sendAt <= x.sendAt && x.id != p.id {
      }
      if q != [] {
        assert q[0] in q && !q[0].queued;
      }
      NoneFlagged(q);
      assert NoneQueued(r);
    } else {
      var rest := Insert(q[1..], p);
      assert q == [q[0]] + q[1..];
      assert ([q[0]] + rest)[1..] == rest;
      assert forall x | x in q[1..] :: x in q;
      if !q[0].queued {
        NoneFlaggedFirst(q[1..]);
      }
      InsertKeeps(q[1..], p);
    }
  }

  lemma NoneFlaggedFirst(q: seq<Packet>)
    requires NoneQueued(q)
    ensures FlaggedFirst(q)
  {
    if q != [] {
      assert q[0] in q;
    }
  }

  lemma {:induction false} TakeKeeps(q: seq<Packet>, ids: set<nat>)
    ensures Sorted(q) ==> Sorted(Take(q, ids))
    ensures Distinct(q) ==> Distinct(Take(q, ids))
    ensures FlaggedFirst(q) ==> FlaggedFirst(Take(q, ids))
  {
    if q != [] {
      var rest := Take(q[1..], ids);
      assert q == [q[0]] + q[1..];
      assert ([q[0]] + rest)[1..] == rest;
      TakeKeeps(q[1..], ids);
      if FlaggedFirst(q) && !q[0].queued {
        assert NoneQueued(q[1..]);
        NoneFlaggedFirst(q[1..]);
        assert NoneQueued(Take(q, ids));
        NoneFlaggedFirst(Take(q, ids));
      }
    }
  }

  function Kept(s: seq<nat>, ids: set<nat>): (r: seq<nat>) {
    if s == [] then [] else if s[0] in ids then Kept(s[1..], ids) else [s[0]] + Kept(s[1..], ids)
  }

  lemma {:induction false} TakeFlagged(q: seq<Packet>, ids: set<nat>)
    ensures Flagged(Take(q, ids)) == Kept(Flagged(q), ids)
  {
    if q != [] {
      var rest := Take(q[1..], ids);
      assert ([q[0]] + rest)[1..] == rest;
      assert ([q[0].id] + Flagged(q[1..]))[1..] == Flagged(q[1..]);
      TakeFlagged(q[1..], ids);
    }
  }

  lemma {:induction false} TakeLive(actions: seq<nat>, q: seq<Packet>, ids: set<nat>)
    ensures Live(actions, Take(q, ids)) == Kept(Live(actions, q), ids)
  {
    if actions != [] {
      TakeLive(actions[1..], q, ids);
      var rest := Live(actions[1..], q);
      assert ([actions[0]] + rest)[1..] == rest;
      assert Has(Take(q, ids), actions[0]) <==> Has(q, actions[0]) && actions[0] !in ids;
    }
  }

  /** Clearing a port takes out its packets. */
  lemma {:induction false} ClearIsTake(q: seq<Packet>, port: nat, ids: set<nat>)
    requires forall x <- q :: x.id in ids <==> x.port == port
    ensures Clear(q, port) == Take(q, ids)
  {
    if q != [] {
      assert q[0] in q;
      ClearIsTake(q[1..], port, ids);
    }
  }

  lemma PortIds(q: seq<Packet>, port: nat) returns (ids: set<nat>)
    requires Distinct(q)
    ensures forall x <- q :: x.id in ids <==> x.port == port
  {
    ids := set x | x in q && x.port == port :: x.id;
    forall x | x in q && x.id in ids ensures x.port == port {
      var y :| y in q && y.port == port && y.id == x.id;
      SameId(q, x, y);
    }
  }

  lemma {:induction false} SameId(q: seq<Packet>, x: Packet, y: Packet)
    requires Distinct(q) && x in q && y in q && x.id == y.id
    ensures x == y
  {
    if x != q[0] && y != q[0] {
      SameId(q[1..], x, y);
    }
  }

  /** The same packets in the same places, some of the due ones newly flagged. */
  ghost predicate Like(q: seq<Packet>, r: seq<Packet>, now: int) {
    if q == [] || r == [] then q == r
    else (r[0] == q[0] || (r[0] == q[0].(queued := true) && q[0].sendAt < now)) && Like(q[1..], r[1..], now)
  }

  lemma {:induction false} LikeItself(q: seq<Packet>, now: int)
    ensures Like(q, q, now)
  {
    if q != [] {
      LikeItself(q[1..], now);
    }
  }

  lemma {:induction false} LikeAt(q: seq<Packet>, r: seq<Packet>, now: int)
    requires Like(q, r, now)
    ensures |r| == |q|
    ensures forall i | 0 <= i < |q| :: r[i] == q[i] || (r[i] == q[i].(queued := true) && q[i].sendAt < now)
  {
    if q != [] && r != [] {
      LikeAt(q[1..], r[1..], now);
    }
  }

  lemma LikeHas(q: seq<Packet>, r: seq<Packet>, now: int, id: nat)
    requires Like(q, r, now)
    ensures Has(r, id) <==> Has(q, id)
  {
    LikeAt(q, r, now);
    if Has(q, id) {
      var i :| 0 <= i < |q| && q[i].id == id;
      assert r[i] in r;
    }
    if Has(r, id) {
      var i :| 0 <= i < |r| && r[i].id == id;
      assert q[i] in q;
    }
  }

  /** The original of a packet. */
  lemma LikeFrom(q: seq<Packet>, r: seq<Packet>, now: int, x: Packet) returns (y: Packet)
    requires Like(q, r, now) && x in r
    ensures y in q && (x == y || (x == y.(queued := true) && y.sendAt < now))
  {
    LikeAt(q, r, now);
    var i :| 0 <= i < |r| && r[i] == x;
    y := q[i];
  }

  lemma {:induction false} LikeKeeps(q: seq<Packet>, r: seq<Packet>, now: int)
    requires Like(q, r, now)
    ensures Sorted(q) ==> Sorted(r)
    ensures Distinct(q) ==> Distinct(r)
  {
    if q != [] && r != [] {
      LikeKeeps(q[1..], r[1..], now);
      forall x | x in r[1..] ensures exists y :: y in q[1..] && y.id == x.id && y.sendAt == x.sendAt {
        var y := LikeFrom(q[1..], r[1..], now, x);
      }
      assert q == [q[0]] + q[1..] && r == [r[0]] + r[1..];
    }
  }

  lemma {:induction false} FlagDueKeeps(q: seq<Packet>, now: int, n: nat)
    requires NoneQueued(q)
    ensures var r := FlagDue(q, now, n); Like(q, r, now) && FlaggedFirst(r) && Flagged(r) == DueIds(q, now, n)
  {
    if q == [] || q[0].sendAt >= now || n == 0 {
      NoneFlaggedFirst(q);
      NoneFlagged(q);
      LikeItself(q, now);
    } else {
      var rest := FlagDue(q[1..], now, n - 1);
      assert ([q[0].(queued := true)] + rest)[1..] == rest;
      FlagDueKeeps(q[1..], now, n - 1);
    }
  }

  lemma {:induction false} FlagFromKeeps(q: seq<Packet>, now: int, n: nat)
    requires FlaggedFirst(q)
    ensures var r := FlagFrom(q, now, n);
            Like(q, r, now) && FlaggedFirst(r) && Flagged(r) == Flagged(q) + IdsFrom(q, now, n)
  {
    if q != [] && q[0].queued {
      var rest := FlagFrom(q[1..], now, n);
      assert ([q[0]] + rest)[1..] == rest;
      FlagFromKeeps(q[1..], now, n);
    } else {
      FlagDueKeeps(q, now, n);
      NoneFlagged(q);
    }
  }

  // ------------------------------------------------------------------ every operation keeps the order

  lemma NewIsLive(q: seq<Packet>, p: Packet, actions: seq<nat>)
    requires p.id !in actions
    ensures Live(actions, Insert(q, p)) == Live(actions, q)
  {
    forall id | id in actions ensures Has(Insert(q, p), id) <==> Has(q, id) {
    }
    LiveSame(actions, Insert(q, p), q);
  }

  /** A packet is scheduled, now or later. */
  lemma Schedules(q: seq<Packet>, actions: seq<nat>, clock: int, p: Packet)
    requires Orderly(q, actions, clock) && !p.queued && !Has(q, p.id) && p.id !in actions && p.sendAt >= clock
    ensures Orderly(Insert(q, p), actions, clock)
  {
    InsertKeeps(q, p);
    NewIsLive(q, p, actions);
  }

  lemma TakesOut(q: seq<Packet>, actions: seq<nat>, clock: int, ids: set<nat>)
    requires Orderly(q, actions, clock)
    ensures Orderly(Take(q, ids), actions, clock)
  {
    TakeKeeps(q, ids);
    TakeFlagged(q, ids);
    TakeLive(actions, q, ids);
  }

  lemma Clears(q: seq<Packet>, actions: seq<nat>, clock: int, port: nat)
    requires Orderly(q, actions, clock)
    ensures Orderly(Clear(q, port), actions, clock)
  {
    var ids := PortIds(q, port);
    ClearIsTake(q, port, ids);
    TakesOut(q, actions, clock, ids);
  }

  lemma {:induction false} FlaggedOnce(q: seq<Packet>)
    requires Distinct(q)
    ensures NoRepeat(Flagged(q))
  {
    if q != [] {
      FlaggedOnce(q[1..]);
      FlaggedHas(q[1..]);
      assert ([q[0].id] + Flagged(q[1..]))[1..] == Flagged(q[1..]);
    }
  }

  lemma {:induction false} AllLive(ids: seq<nat>, q: seq<Packet>)
    requires forall id <- ids :: Has(q, id)
    ensures Live(ids, q) == ids
  {
    if ids != [] {
      assert ids[0] in ids && forall id <- ids[1..] :: id in ids;
      AllLive(ids[1..], q);
    }
  }

  /** The timer turns due packets into actions, as far as memory lasts. */
  lemma TimerFlags(q: seq<Packet>, actions: seq<nat>, clock: int, n: nat)
    requires Orderly(q, actions, clock)
    ensures Orderly(FlagFrom(q, clock, n), actions + IdsFrom(q, clock, n), clock)
  {
    var r, ids := FlagFrom(q, clock, n), IdsFrom(q, clock, n);
    FlagFromKeeps(q, clock, n);
    LikeKeeps(q, r, clock);
    forall id ensures Has(r, id) <==> Has(q, id) {
      LikeHas(q, r, clock, id);
    }
    FlaggedOnce(r);
    TailNoRepeat(Flagged(q), ids);
    FlaggedHas(r);
    forall id | id in ids ensures Has(r, id) {
      assert id in Flagged(q) + ids;
    }
    AllLive(ids, r);
    LiveSame(actions, r, q);
    LiveJoin(actions, ids, r);
    LiveHas(actions, q);
    NoRepeatJoin(actions, ids);
    forall x | x in r && x.queued ensures x.sendAt < clock {
      var y := LikeFrom(q, r, clock, x);
    }
  }

  // ------------------------------------------------------------------ executing an action

  /** An action finds its packet at the head of the queue, or the packet is gone. */
  lemma HeadOrGone(q: seq<Packet>, actions: seq<nat>, clock: int)
    requires Orderly(q, actions, clock) && actions != []
    ensures Has(q, actions[0]) ==> q != [] && q[0].id == actions[0] && q[0].queued
  {
    if Has(q, actions[0]) {
      assert Live(actions, q)[0] == actions[0];
      FlaggedHead(q);
    }
  }

  lemma FlaggedHead(q: seq<Packet>)
    requires FlaggedFirst(q) && Flagged(q) != []
    ensures q[0].queued && Flagged(q) == [q[0].id] + Flagged(q[1..])
  {
    if !q[0].queued {
      NoneFlagged(q);
    }
  }

  lemma Skips(q: seq<Packet>, actions: seq<nat>, clock: int)
    requires Orderly(q, actions, clock) && actions != [] && !Has(q, actions[0])
    ensures Orderly(q, actions[1..], clock)
  {
  }

  /** The head goes with its action. */
  lemma Pops(q: seq<Packet>, actions: seq<nat>, clock: int)
    requires Orderly(q, actions, clock) && actions != [] && Has(q, actions[0])
    ensures q != [] && Orderly(q[1..], actions[1..], clock) && !Has(q[1..], actions[0]) && actions[0] !in actions[1..]
  {
    HeadOrGone(q, actions, clock);
    FlaggedHead(q);
    var rest := actions[1..];
    assert Live(actions, q) == [actions[0]] + Live(rest, q);
    assert Live(rest, q) == ([actions[0]] + Live(rest, q))[1..]
           && Flagged(q[1..]) == ([q[0].id] + Flagged(q[1..]))[1..];
    forall id | id in rest ensures Has(q, id) <==> Has(q[1..], id) {
      if Has(q, id) {
        var x :| x in q && x.id == id;
        assert x in q[1..];
      }
    }
    LiveSame(rest, q, q[1..]);
  }
}
