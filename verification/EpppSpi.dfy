/** The full-duplex EPPP link over SPI (components/eppp_link/eppp_spi.c): two endpoints that must
    independently agree on the size of the next transaction. Transfers are error-free here. */
module EpppSpi {
  import opened Common
  import opened Octets

  const MAX_PAYLOAD := 1500
  /** sizeof(struct header) */
  const HEADER_LEN := 8
  /** SPI_ALIGN(MAX_PAYLOAD + 6) */
  const TRANSFER_SIZE := (MAX_PAYLOAD + 6 + 3) / 4 * 4

  datatype Packet = Packet(channel: nat, data: seq<Byte>)
  /** An element of out_queue; Signal is the packet of length -1 that the interrupt handler posts. */
  datatype Item = Signal | Data(packet: Packet)
  /** What one end puts on the wire: a payload, empty when size is 0, and next_size. */
  datatype Outgoing = Outgoing(payload: Packet, nextSize: nat)

  /** One end. tx is set between building out_buf and the end of the transaction. */
  datatype Endpoint = Endpoint(
    queue: seq<Item>, outbound: Packet, transactionSize: nat, wantsRead: bool,
    tx: Option<Outgoing>, delivered: seq<Packet>)

  const INITIAL := Endpoint([], Packet(0, []), 0, false, None, [])

  // ------------------------------------------------------------------ steps of one end

  /** The do-while loop that takes the next packet and skips signals. */
  function Refill(outbound: Packet, queue: seq<Item>): (r: (Packet, seq<Item>))
    decreases |queue|
  {
    if queue == [] then (outbound, [])
    else if queue[0].Data? then (queue[0].packet, queue[1..])
    else Refill(Packet(0, []), queue[1..])
  }

  /** The master has nothing to do and waits for its queue. */
  predicate Idle(e: Endpoint) {
    e.outbound.data == [] && e.transactionSize == 0 && !e.wantsRead
  }

  function MasterWait(e: Endpoint): (r: Endpoint)
    requires Idle(e) ==> e.queue != []
  {
    if !Idle(e) then e.(wantsRead := false)
    else match e.queue[0]
         case Signal => e.(queue := e.queue[1..], outbound := Packet(0, []), wantsRead := true)
         case Data(p) => e.(queue := e.queue[1..], outbound := p)
  }

  /** Fill the outgoing buffer: send the outbound packet if the agreed size allows it. */
  function Load(e: Endpoint, test: bool): (r: Endpoint) {
    if |e.outbound.data| <= e.transactionSize && !test then
      var (next, rest) := Refill(e.outbound.(data := []), e.queue);
      e.(queue := rest, outbound := next, tx := Some(Outgoing(e.outbound, |next.data|)))
    else
      e.(tx := Some(Outgoing(Packet(0, []), |e.outbound.data|)))
  }

  function Max(a: nat, b: nat): (r: nat) {
    if a > b then a else b
  }

  /** The end of the transaction, rx being what the peer sent. */
  function Finish(e: Endpoint, rx: Outgoing): (r: Endpoint)
    requires e.tx.Some?
  {
    e.(delivered := if rx.payload.data != [] then e.delivered + [rx.payload] else e.delivered,
    transactionSize := Max(e.tx.value.nextSize, rx.nextSize),
    tx := None)
  }

  // ------------------------------------------------------------------ the pair

  /** sentX is every non-empty packet ever put in X's queue. */
  datatype Link = Link(master: Endpoint, slave: Endpoint, masterSent: seq<Packet>, slaveSent: seq<Packet>)

  datatype Event =
    | MasterEnqueue(mp: Packet)
    | SlaveEnqueue(sp: Packet)
    | Interrupt
    | MasterLoad(test: bool)
    | SlaveLoad
    | Transfer

  function NonEmpty(p: Packet): (r: seq<Packet>) {
    if p.data == [] then [] else [p]
  }

  predicate Enabled(l: Link, ev: Event) {
    match ev
    case MasterEnqueue(p) => |p.data| <= MAX_PAYLOAD
    case SlaveEnqueue(p) => |p.data| <= MAX_PAYLOAD
    case Interrupt => true
    case MasterLoad(_) => l.master.tx.None? && (Idle(l.master) ==> l.master.queue != [])
    case SlaveLoad => l.slave.tx.None?
    case Transfer => l.master.tx.Some? && l.slave.tx.Some?
  }

  function Step(l: Link, ev: Event): (r: Link)
    requires Enabled(l, ev)
  {
    match ev
    case MasterEnqueue(p) =>
      l.(master := l.master.(queue := l.master.queue + [Data(p)]), masterSent := l.masterSent + NonEmpty(p))
    case SlaveEnqueue(p) =>
      l.(slave := l.slave.(queue := l.slave.queue + [Data(p)]), slaveSent := l.slaveSent + NonEmpty(p))
    case Interrupt => l.(master := l.master.(queue := l.master.queue + [Signal]))
    case MasterLoad(test) => l.(master := Load(MasterWait(l.master), test))
    case SlaveLoad => l.(slave := Load(l.slave, false))
    case Transfer =>
      l.(master := Finish(l.master, l.slave.tx.value), slave := Finish(l.slave, l.master.tx.value))
  }

  const START := Link(INITIAL, INITIAL, [], [])

  predicate EnabledRun(l: Link, evs: seq<Event>)
    decreases |evs|
  {
    evs == [] || (Enabled(l, evs[0]) && EnabledRun(Step(l, evs[0]), evs[1..]))
  }

  function Run(l: Link, evs: seq<Event>): (r: Link)
    requires EnabledRun(l, evs)
    decreases |evs|
  {
    if evs == [] then l else Run(Step(l, evs[0]), evs[1..])
  }

  // ------------------------------------------------------------------ what every run keeps

  function Packets(q: seq<Item>): (r: seq<Packet>) {
    if q == [] then [] else (if q[0].Data? then NonEmpty(q[0].packet) else []) + Packets(q[1..])
  }

  /** Sent by e but not delivered yet, oldest first. */
  function InFlight(e: Endpoint): (r: seq<Packet>) {
    (if e.tx.Some? then NonEmpty(e.tx.value.payload) else []) + NonEmpty(e.outbound) + Packets(e.queue)
  }

  ghost predicate SmallQueue(q: seq<Item>) {
    forall i | 0 <= i < |q| && q[i].Data? :: |q[i].packet.data| <= MAX_PAYLOAD
  }

  ghost predicate EndpointInv(e: Endpoint) {
    && SmallQueue(e.queue) && |e.outbound.data| <= MAX_PAYLOAD && e.transactionSize <= MAX_PAYLOAD
    && (e.tx.None? ==> |e.outbound.data| <= e.transactionSize)
    && (e.tx.Some? ==> e.tx.value.nextSize == |e.outbound.data| && |e.tx.value.payload.data| <= e.transactionSize)
  }

  ghost predicate Inv(l: Link) {
    && EndpointInv(l.master) && EndpointInv(l.slave)
    && l.master.transactionSize == l.slave.transactionSize
    && l.slave.delivered + InFlight(l.master) == l.masterSent
    && l.master.delivered + InFlight(l.slave) == l.slaveSent
  }

  lemma {:induction false} PacketsAppend(q: seq<Item>, i: Item)
    ensures Packets(q + [i]) == Packets(q) + (if i.Data? then NonEmpty(i.packet) else [])
  {
    if q == [] {
      assert q + [i] == [i];
    } else {
      PacketsAppend(q[1..], i);
      assert (q + [i])[1..] == q[1..] + [i];
    }
  }

  lemma {:induction false} RefillKeeps(outbound: Packet, q: seq<Item>)
    requires outbound.data == [] && SmallQueue(q)
    ensures var (next, rest) := Refill(outbound, q);
            NonEmpty(next) + Packets(rest) == Packets(q) && SmallQueue(rest) && |next.data| <= MAX_PAYLOAD
    decreases |q|
  {
    if q != [] && q[0].Signal? {
      RefillKeeps(Packet(0, []), q[1..]);
    }
  }

  lemma LoadKeeps(e: Endpoint, test: bool)
    requires e.tx.None? && SmallQueue(e.queue) && |e.outbound.data| <= MAX_PAYLOAD && e.transactionSize <= MAX_PAYLOAD
    ensures EndpointInv(Load(e, test)) && InFlight(Load(e, test)) == InFlight(e)
  {
    if |e.outbound.data| <= e.transactionSize && !test {
      RefillKeeps(e.outbound.(data := []), e.queue);
    }
  }

  lemma MasterWaitKeeps(e: Endpoint)
    requires e.tx.None? && EndpointInv(e) && (Idle(e) ==> e.queue != [])
    ensures var w := MasterWait(e);
            SmallQueue(w.queue) && |w.outbound.data| <= MAX_PAYLOAD && InFlight(w) == InFlight(e)
    ensures MasterWait(e).(queue := e.queue, outbound := e.outbound, wantsRead := e.wantsRead) == e
  {
  }

  lemma FinishKeeps(e: Endpoint, peer: Endpoint)
    requires EndpointInv(e) && EndpointInv(peer) && e.tx.Some? && peer.tx.Some?
    ensures var f := Finish(e, peer.tx.value);
            && EndpointInv(f)
            && f.transactionSize == Finish(peer, e.tx.value).transactionSize
            && NonEmpty(e.tx.value.payload) + InFlight(f) == InFlight(e)
            && f.delivered == e.delivered + NonEmpty(peer.tx.value.payload)
  {
  }

  lemma EnqueueKeeps(e: Endpoint, i: Item)
    requires EndpointInv(e) && (i.Data? ==> |i.packet.data| <= MAX_PAYLOAD)
    ensures var f := e.(queue := e.queue + [i]);
            EndpointInv(f) && InFlight(f) == InFlight(e) + (if i.Data? then NonEmpty(i.packet) else [])
  {
    PacketsAppend(e.queue, i);
  }

  lemma StepKeepsInv(l: Link, ev: Event)
    requires Inv(l) && Enabled(l, ev)
    ensures Inv(Step(l, ev))
  {
    match ev
    case MasterEnqueue(p) => EnqueueKeeps(l.master, Data(p));
    case SlaveEnqueue(p) => EnqueueKeeps(l.slave, Data(p));
    case Interrupt => EnqueueKeeps(l.master, Signal);
    case MasterLoad(test) =>
      MasterWaitKeeps(l.master);
      LoadKeeps(MasterWait(l.master), test);
    case SlaveLoad => LoadKeeps(l.slave, false);
    case Transfer =>
      FinishKeeps(l.master, l.slave);
      FinishKeeps(l.slave, l.master);
  }

  /** In every run both ends hold the same transaction size, what is on the wire never exceeds it
      nor the DMA buffers, and nothing is lost, duplicated or reordered in either direction. */
  lemma {:induction false} RunKeepsInv(l: Link, evs: seq<Event>)
    requires Inv(l) && EnabledRun(l, evs)
    ensures Inv(Run(l, evs))
    decreases |evs|
  {
    if evs != [] {
      StepKeepsInv(l, evs[0]);
      RunKeepsInv(Step(l, evs[0]), evs[1..]);
    }
  }

  lemma EveryRun(evs: seq<Event>)
    requires EnabledRun(START, evs)
    ensures var l := Run(START, evs);
            && l.master.transactionSize == l.slave.transactionSize
            && HEADER_LEN + l.master.transactionSize <= TRANSFER_SIZE
            && (l.master.tx.Some? ==> |l.master.tx.value.payload.data| <= l.slave.transactionSize)
            && (l.slave.tx.Some? ==> |l.slave.tx.value.payload.data| <= l.master.transactionSize)
            && l.slave.delivered + InFlight(l.master) == l.masterSent
            && l.master.delivered + InFlight(l.slave) == l.slaveSent
  {
    RunKeepsInv(START, evs);
  }

  // ------------------------------------------------------------------ progress

  /** A packet that had to wait for a bigger transaction is sent by the next exchange that is not
      a test, on either side. */
  lemma HeldBackOnce(evs: seq<Event>)
    requires EnabledRun(START, evs)
    ensures var l := Run(START, evs);
            && (l.master.tx.None? && l.master.outbound.data != []
                ==> Load(MasterWait(l.master), false).tx.value.payload == l.master.outbound)
            && (l.slave.tx.None? && l.slave.outbound.data != []
                ==> Load(l.slave, false).tx.value.payload == l.slave.outbound)
  {
    RunKeepsInv(START, evs);
  }

  /** How many more exchanges an end needs at most to get everything out. */
  function Work(e: Endpoint): (r: nat) {
    2 * |e.queue| + |NonEmpty(e.outbound)|
  }

  lemma {:induction false} RefillShrinks(outbound: Packet, q: seq<Item>)
    ensures var (next, rest) := Refill(outbound, q);
            |rest| <= |q| && (q != [] ==> |rest| < |q|) && (q == [] ==> next == outbound)
    decreases |q|
  {
    if q != [] && q[0].Signal? {
      RefillShrinks(Packet(0, []), q[1..]);
    }
  }

  /** Every exchange that is not a test takes at least one unit of work off each end. */
  lemma LoadMakesProgress(e: Endpoint)
    requires EndpointInv(e) && e.tx.None?
    ensures Work(Load(e, false)) == 0 || Work(Load(e, false)) < Work(e)
    ensures (Idle(e) ==> e.queue != [])
            ==> Work(Load(MasterWait(e), false)) == 0 || Work(Load(MasterWait(e), false)) < Work(e)
  {
    RefillShrinks(e.outbound.(data := []), e.queue);
    if Idle(e) && e.queue != [] {
      var w := MasterWait(e);
      RefillShrinks(w.outbound.(data := []), w.queue);
    }
  }

  /** The exchanges of one end that are not tests. */
  function Loads(evs: seq<Event>, master: bool): (r: nat) {
    if evs == [] then 0
    else
      Loads(evs[1..], master)
      + if (if master then evs[0].MasterLoad? && !evs[0].test else evs[0].SlaveLoad?) then 1 else 0
  }

  /** Nothing is added to the queue of one end. */
  predicate Quiet(evs: seq<Event>, master: bool) {
    forall i | 0 <= i < |evs| ::
      if master then !evs[i].MasterEnqueue? && !evs[i].Interrupt? else !evs[i].SlaveEnqueue?
  }

  function Side(l: Link, master: bool): (e: Endpoint) {
    if master then l.master else l.slave
  }

  lemma StepWorks(l: Link, ev: Event, master: bool)
    requires Inv(l) && Enabled(l, ev) && Quiet([ev], master)
    ensures Work(Side(Step(l, ev), master)) == 0
            || Work(Side(Step(l, ev), master)) + Loads([ev], master) <= Work(Side(l, master))
  {
    assert [ev][0] == ev;
    var e := Side(l, master);
    if e.tx.None? {
      LoadMakesProgress(e);
    }
  }

  lemma {:induction false} RunWorks(l: Link, evs: seq<Event>, master: bool)
    requires Inv(l) && EnabledRun(l, evs) && Quiet(evs, master)
    ensures Work(Side(Run(l, evs), master)) == 0
            || Work(Side(Run(l, evs), master)) + Loads(evs, master) <= Work(Side(l, master))
    decreases |evs|
  {
    if evs != [] {
      StepKeepsInv(l, evs[0]);
      assert Quiet([evs[0]], master);
      StepWorks(l, evs[0], master);
      RunWorks(Step(l, evs[0]), evs[1..], master);
      assert Loads([evs[0]], master) + Loads(evs[1..], master) == Loads(evs, master);
    }
  }

  lemma {:induction false} QuietKeepsSent(l: Link, evs: seq<Event>)
    requires EnabledRun(l, evs)
    ensures Quiet(evs, true) ==> Run(l, evs).masterSent == l.masterSent
    ensures Quiet(evs, false) ==> Run(l, evs).slaveSent == l.slaveSent
    decreases |evs|
  {
    if evs != [] {
      QuietKeepsSent(Step(l, evs[0]), evs[1..]);
    }
  }

  /** Once one end stops queueing, Work exchanges that are not tests are enough to deliver
      everything it ever queued, in order, whatever else happens in between. */
  lemma EverythingIsDelivered(l: Link, evs: seq<Event>, master: bool)
    requires Inv(l) && EnabledRun(l, evs) && Quiet(evs, master)
    requires Loads(evs, master) >= Work(Side(l, master))
    requires Side(Run(l, evs), master).tx.None?
    ensures if master then Run(l, evs).slave.delivered == l.masterSent
            else Run(l, evs).master.delivered == l.slaveSent
  {
    RunWorks(l, evs, master);
    RunKeepsInv(l, evs);
    QuietKeepsSent(l, evs);
    var e := Side(Run(l, evs), master);
    assert e.queue == [] && NonEmpty(e.outbound) == [];
    assert InFlight(e) == [];
  }

  // ------------------------------------------------------------------ what is agreed on, and who waits

  /** In every run: the size that both ends agree on in a transfer is the larger of the two packets they hold, so it is
      0 exactly when neither holds one. Then, unless it has a read to do, the master waits for its queue; else it goes
      on. */
  lemma AgreedSize(evs: seq<Event>, m: nat, s: nat)
    requires EnabledRun(START, evs) && Enabled(Run(START, evs), Transfer)
    requires m == |Run(START, evs).master.outbound.data| && s == |Run(START, evs).slave.outbound.data|
    ensures var q := Step(Run(START, evs), Transfer);
            var n := q.master.transactionSize;
            && n == q.slave.transactionSize && n >= m && n >= s && (n == m || n == s) && (n == 0 <==> m == 0 && s == 0)
            && forall test :: Enabled(q, MasterLoad(test)) <==> n > 0 || q.master.queue != [] || q.master.wantsRead
  {
    RunKeepsInv(START, evs);
  }

  /** Everything of one end between two transactions. */
  lemma LoadedExactly(e: Endpoint, test: bool, k: nat)
    requires k <= |e.queue| && (forall i | 0 <= i < k :: e.queue[i].Signal?) && (k == |e.queue| || e.queue[k].Data?)
    ensures var f := Load(e, test);
            if test || |e.outbound.data| > e.transactionSize
            then f == e.(tx := Some(Outgoing(Packet(0, []), |e.outbound.data|)))
            else
              && f.tx.value.payload == e.outbound && f.tx.value.nextSize == |f.outbound.data|
              && f == e.(queue := f.queue, outbound := f.outbound, tx := f.tx)
              && if k == |e.queue| then f.outbound.data == [] && f.queue == []
                 else f.outbound == e.queue[k].packet && f.queue == e.queue[k + 1..]
  {
    if !test && |e.outbound.data| <= e.transactionSize {
      RefillExactly(e.outbound.(data := []), e.queue, k);
    }
  }

  /** The first packet of the queue is taken, with all signals before it. */
  lemma {:induction false} RefillExactly(outbound: Packet, q: seq<Item>, k: nat)
    requires outbound.data == []
    requires k <= |q| && (forall i | 0 <= i < k :: q[i].Signal?) && (k == |q| || q[k].Data?)
    ensures var (next, rest) := Refill(outbound, q);
            if k == |q| then next.data == [] && rest == [] else next == q[k].packet && rest == q[k + 1..]
    decreases k
  {
    if k > 0 {
      RefillExactly(Packet(0, []), q[1..], k - 1);
    }
  }

  /** A signal makes the master read: it starts a transaction with nothing of its own, and does not wait before the
      next one either, whatever the slave then holds. */
  lemma SignalReadsTwice(l: Link, test: bool)
    requires Inv(l) && l.master.tx.None? && l.slave.tx.None? && l.master.queue != [] && l.master.queue[0].Signal?
    requires l.master.outbound.data == [] && l.master.transactionSize == 0 && !l.master.wantsRead
    ensures EnabledRun(l, [MasterLoad(test), SlaveLoad, Transfer])
    ensures var q := Run(l, [MasterLoad(test), SlaveLoad, Transfer]);
            && q.master.wantsRead && Enabled(q, MasterLoad(false))
            && !Step(q, MasterLoad(false)).master.wantsRead && q.slave.delivered == l.slave.delivered
  {
    var evs := [MasterLoad(test), SlaveLoad, Transfer];
    var l1 := Step(l, evs[0]);
    var l2 := Step(l1, evs[1]);
    var l3 := Step(l2, evs[2]);
    assert evs[1..] == [SlaveLoad, Transfer] && evs[1..][1..] == [Transfer] && evs[1..][1..][1..] == [];
    assert EnabledRun(l3, []) && Run(l3, []) == l3;
    assert EnabledRun(l2, [Transfer]) && Run(l2, [Transfer]) == l3;
    assert EnabledRun(l1, evs[1..]) && Run(l1, evs[1..]) == l3;
  }

  // ------------------------------------------------------------------ fragmentation

  /** The pieces transmit_generic cuts a buffer into; an empty buffer is one empty piece. */
  function Fragments(buffer: seq<Byte>): (r: seq<seq<Byte>>)
    ensures |r| > 0
    decreases |buffer|
  {
    if |buffer| <= MAX_PAYLOAD then [buffer] else [buffer[..MAX_PAYLOAD]] + Fragments(buffer[MAX_PAYLOAD..])
  }

  function Join(pieces: seq<seq<Byte>>): (r: seq<Byte>) {
    if pieces == [] then [] else pieces[0] + Join(pieces[1..])
  }

  lemma {:induction false} FragmentsReassemble(buffer: seq<Byte>)
    ensures Join(Fragments(buffer)) == buffer
    ensures forall i | 0 <= i < |Fragments(buffer)| :: |Fragments(buffer)[i]| <= MAX_PAYLOAD
    ensures forall i | 0 <= i < |Fragments(buffer)| - 1 :: |Fragments(buffer)[i]| == MAX_PAYLOAD
    ensures buffer != [] ==> forall i | 0 <= i < |Fragments(buffer)| :: Fragments(buffer)[i] != []
    decreases |buffer|
  {
    if |buffer| > MAX_PAYLOAD {
      FragmentsReassemble(buffer[MAX_PAYLOAD..]);
    } else {
      assert Fragments(buffer)[1..] == [];
    }
  }

  function Items(channel: nat, pieces: seq<seq<Byte>>): (r: seq<Item>)
    ensures |r| == |pieces|
  {
    seq(|pieces|, i requires 0 <= i < |pieces| => Data(Packet(channel, pieces[i])))
  }

  // ------------------------------------------------------------------ the C code

  class Handle {
    const isMaster: bool
    const queueSize: nat
    var outQueue: seq<Item>
    var outbound: Packet
    var transactionSize: nat
    var wantsRead: bool
    var outBuf: Option<Outgoing>
    var delivered: seq<Packet>

    ghost function State(): (e: Endpoint)
      reads this
    {
      Endpoint(outQueue, outbound, transactionSize, wantsRead, outBuf, delivered)
    }

    constructor (isMaster: bool, queueSize: nat)
      ensures State() == INITIAL && this.isMaster == isMaster && this.queueSize == queueSize
    {
      this.isMaster, this.queueSize := isMaster, queueSize;
      outQueue, outbound, transactionSize := [], Packet(0, []), 0;
      wantsRead, outBuf, delivered := false, None, [];
    }

    /** transmit_generic: the queue grows by the first n fragments, all of them when ok. A fragment
        is refused only when memory, which lasts for so many, or the queue has run out. */
    method Transmit(channel: nat, buffer: seq<Byte>, memory: nat) returns (ok: bool, ghost n: nat)
      modifies this`outQueue
      ensures n <= |Fragments(buffer)| && (ok <==> n == |Fragments(buffer)|)
      ensures n <= memory && (n > 0 ==> |outQueue| <= queueSize)
      ensures !ok ==> n == memory || |outQueue| >= queueSize
      ensures outQueue == old(outQueue) + Items(channel, Fragments(buffer)[..n])
    {
      var rest, left := buffer, memory;
      ghost var pieces := Fragments(buffer);
      n := 0;
      var more := true;
      while more
        invariant n <= |pieces| && left == memory - n && (n > 0 ==> |outQueue| <= queueSize)
        invariant more ==> n < |pieces| && Fragments(rest) == pieces[n..]
        invariant !more ==> n == |pieces|
        invariant outQueue == old(outQueue) + Items(channel, pieces[..n])
        decreases more, |rest|
      {
        var batch := if |rest| > MAX_PAYLOAD then MAX_PAYLOAD else |rest|;
        if left == 0 || |outQueue| >= queueSize {
          return false, n;
        }
        assert pieces[n] == Fragments(rest)[0] == rest[..batch];
        outQueue := outQueue + [Data(Packet(channel, rest[..batch]))];
        assert Items(channel, pieces[..n + 1]) == Items(channel, pieces[..n]) + [Data(Packet(channel, pieces[n]))];
        assert |rest| > MAX_PAYLOAD ==> Fragments(rest)[1..] == Fragments(rest[batch..]);
        assert pieces[n..][1..] == pieces[n + 1..];
        rest, left, n := rest[batch..], left - 1, n + 1;
        more := |rest| > 0;
      }
      ok := true;
    }

    /** The do-while loop of eppp_perform. */
    method TakeNext()
      modifies this`outQueue, this`outbound
      ensures (outbound, outQueue) == Refill(old(outbound), old(outQueue))
    {
      var found := false;
      while !found && outQueue != []
        invariant found ==> (outbound, outQueue) == Refill(old(outbound), old(outQueue))
        invariant !found ==> Refill(outbound, outQueue) == Refill(old(outbound), old(outQueue))
        decreases |outQueue|
      {
        match outQueue[0] {
          case Signal => outbound := Packet(0, []);
          case Data(p) => outbound, found := p, true;
        }
        outQueue := outQueue[1..];
      }
    }

    /** The first half of eppp_perform: decide what goes out in this transaction. timedOut is
        whether the ready semaphore timed out, which makes this a test transaction. */
    method Prepare(timedOut: bool)
      requires outBuf.None? && (isMaster && Idle(State()) ==> outQueue != [])
      modifies this`outQueue, this`outbound, this`wantsRead, this`outBuf
      ensures State() == if isMaster then Load(MasterWait(old(State())), timedOut) else Load(old(State()), false)
    {
      var allowTestTx := false;
      if isMaster {
        allowTestTx := timedOut;
        if outbound.data == [] && transactionSize == 0 && !wantsRead {
          match outQueue[0] {
            case Signal => outbound, wantsRead := Packet(0, []), true;
            case Data(p) => outbound := p;
          }
          outQueue := outQueue[1..];
        } else {
          wantsRead := false;
        }
      }
      if |outbound.data| <= transactionSize && !allowTestTx {
        ghost var ready := State();
        var payload := outbound;
        outbound := outbound.(data := []);
        TakeNext();
        outBuf := Some(Outgoing(payload, |outbound.data|));
        assert State() == Load(ready, false);
      } else {
        outBuf := Some(Outgoing(Packet(0, []), |outbound.data|));
      }
    }

    /** The second half of eppp_perform, after an error-free transfer. */
    method Complete(rx: Outgoing)
      requires outBuf.Some?
      modifies this`delivered, this`transactionSize, this`outBuf
      ensures State() == Finish(old(State()), rx)
    {
      if rx.payload.data != [] {
        delivered := delivered + [rx.payload];
      }
      var nextTxSize := outBuf.value.nextSize;
      transactionSize := if nextTxSize > rx.nextSize then nextTxSize else rx.nextSize;
      outBuf := None;
    }
  }

  /** One whole transaction of a connected pair, which keeps everything a run keeps. */
  method Exchange(master: Handle, slave: Handle, timedOut: bool, ghost l: Link) returns (ghost r: Link)
    requires master != slave && master.isMaster && !slave.isMaster
    requires Inv(l) && l.master == master.State() && l.slave == slave.State()
    requires master.outBuf.None? && slave.outBuf.None? && (Idle(l.master) ==> l.master.queue != [])
    modifies master, slave
    ensures EnabledRun(l, [MasterLoad(timedOut), SlaveLoad, Transfer])
    ensures r == Run(l, [MasterLoad(timedOut), SlaveLoad, Transfer]) && Inv(r)
    ensures r.master == master.State() && r.slave == slave.State()
    ensures master.transactionSize == slave.transactionSize
  {
    master.Prepare(timedOut);
    slave.Prepare(false);
    var m, s := master.outBuf.value, slave.outBuf.value;
    master.Complete(s);
    slave.Complete(m);
    ghost var evs := [MasterLoad(timedOut), SlaveLoad, Transfer];
    ghost var l1 := Step(l, MasterLoad(timedOut));
    ghost var l2 := Step(l1, SlaveLoad);
    r := Step(l2, Transfer);
    assert evs[1..] == [SlaveLoad, Transfer] && evs[1..][1..] == [Transfer] && evs[1..][1..][1..] == [];
    assert EnabledRun(r, []) && Run(r, []) == r;
    assert EnabledRun(l2, [Transfer]) && Run(l2, [Transfer]) == r;
    assert EnabledRun(l1, evs[1..]) && Run(l1, evs[1..]) == r;
    RunKeepsInv(l, evs);
  }
}
