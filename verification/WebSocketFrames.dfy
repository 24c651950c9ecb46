/** Fragmentation of WebSocket messages (section 5.4 of RFC 6455): the send loop of
    components/esp_websocket_client/esp_websocket_client.c and the calls that build messages from parts. */
module WebSocketFrames {
  import opened Octets

  datatype Kind = Continuation | Text | Binary

  /** An opcode: a frame type and the FIN bit. */
  datatype Frame = Frame(kind: Kind, fin: bool, payload: seq<Byte>)

  // ------------------------------------------------------------------ what the loop sends

  /** The frames of one call. Nothing is sent for a bare continuation without data. */
  function Fragments(kind: Kind, fin: bool, data: seq<Byte>, size: nat): (r: seq<Frame>)
    requires size > 0
    decreases |data|
  {
    if |data| > size then [Frame(kind, false, data[..size])] + Fragments(Continuation, fin, data[size..], size)
    else if data == [] && kind.Continuation? && !fin then []
    else [Frame(kind, fin, data)]
  }

  // ------------------------------------------------------------------ what the peer makes of it

  datatype Message = Message(kind: Kind, data: seq<Byte>)

  /** The peer waits for a message, is in the middle of one, or has failed the connection. */
  datatype Peer = Idle | Within(kind: Kind, data: seq<Byte>) | Failed

  datatype Heard = Heard(peer: Peer, messages: seq<Message>)

  function Hear(peer: Peer, f: Frame): (h: Heard) {
    match peer
    case Failed => Heard(Failed, [])
    case Idle =>
      if f.kind.Continuation? then Heard(Failed, [])
      else if f.fin then Heard(Idle, [Message(f.kind, f.payload)])
      else Heard(Within(f.kind, f.payload), [])
    case Within(kind, data) =>
      if !f.kind.Continuation? then Heard(Failed, [])
      else if f.fin then Heard(Idle, [Message(kind, data + f.payload)])
      else Heard(Within(kind, data + f.payload), [])
  }

  function HearAll(peer: Peer, frames: seq<Frame>): (h: Heard)
    decreases |frames|
  {
    if frames == [] then Heard(peer, [])
    else
      var first := Hear(peer, frames[0]);
      var rest := HearAll(first.peer, frames[1..]);
      Heard(rest.peer, first.messages + rest.messages)
  }

  lemma HearNext(peer: Peer, a: seq<Frame>, b: seq<Frame>)
    requires a != []
    ensures var first := Hear(peer, a[0]);
            var rest := HearAll(first.peer, a[1..] + b);
            HearAll(peer, a + b) == Heard(rest.peer, first.messages + rest.messages)
  {
    assert (a + b)[1..] == a[1..] + b && (a + b)[0] == a[0];
  }

  lemma {:induction false} HearJoin(peer: Peer, a: seq<Frame>, b: seq<Frame>)
    ensures var x := HearAll(peer, a);
            var y := HearAll(x.peer, b);
            HearAll(peer, a + b) == Heard(y.peer, x.messages + y.messages)
    decreases |a|
  {
    if a == [] {
      assert a + b == b;
    } else {
      HearNext(peer, a, b);
      HearJoin(Hear(peer, a[0]).peer, a[1..], b);
    }
  }

  // ------------------------------------------------------------------ one call

  /** The type goes on the first frame, FIN on the last and only if asked for, and no frame is longer than the
      buffer. */
  lemma {:induction false} FragmentsAreLegal(kind: Kind, fin: bool, data: seq<Byte>, size: nat)
    requires size > 0
    ensures var fs := Fragments(kind, fin, data, size);
            && (forall i | 0 <= i < |fs| ::
                  fs[i].kind == (if i == 0 then kind else Continuation) && |fs[i].payload| <= size)
            && (forall i | 0 <= i < |fs| :: fs[i].fin == (fin && i == |fs| - 1))
            && (fs == [] <==> data == [] && kind.Continuation? && !fin)
    decreases |data|
  {
    if |data| > size {
      FragmentsAreLegal(Continuation, fin, data[size..], size);
    }
  }

  /** Continuing a message. */
  lemma {:induction false} ContinuationHeard(kind: Kind, got: seq<Byte>, fin: bool, data: seq<Byte>, size: nat)
    requires size > 0
    ensures HearAll(Within(kind, got), Fragments(Continuation, fin, data, size)) ==
            if fin then Heard(Idle, [Message(kind, got + data)]) else Heard(Within(kind, got + data), [])
    decreases |data|
  {
    var fs := Fragments(Continuation, fin, data, size);
    if |data| > size {
      ContinuationHeard(kind, got + data[..size], fin, data[size..], size);
      assert got + data[..size] + data[size..] == got + data;
      assert fs[1..] == Fragments(Continuation, fin, data[size..], size);
    } else if fs == [] {
      assert got + data == got;
    } else {
      assert fs[1..] == [];
    }
  }

  /** Starting one. */
  lemma StartHeard(kind: Kind, fin: bool, data: seq<Byte>, size: nat)
    requires size > 0 && !kind.Continuation?
    ensures HearAll(Idle, Fragments(kind, fin, data, size)) ==
            if fin then Heard(Idle, [Message(kind, data)]) else Heard(Within(kind, data), [])
  {
    var fs := Fragments(kind, fin, data, size);
    if |data| > size {
      ContinuationHeard(kind, data[..size], fin, data[size..], size);
      assert data[..size] + data[size..] == data;
      assert fs[1..] == Fragments(Continuation, fin, data[size..], size);
    } else {
      assert fs[1..] == [];
    }
  }

  // ------------------------------------------------------------------ the calls of the API

  /** send_text and send_bin, the _partial forms, send_cont_msg and send_fin */
  datatype Call =
    | Whole(kind: Kind, data: seq<Byte>)
    | Partial(kind: Kind, data: seq<Byte>)
    | More(data: seq<Byte>)
    | Fin

  /** How many bytes the call is given to send. */
  function DataLength(c: Call): (n: nat) {
    if c.Fin? then 0 else |c.data|
  }

  function Emitted(c: Call, size: nat): (r: seq<Frame>)
    requires size > 0
  {
    match c
    case Whole(kind, data) => Fragments(kind, true, data, size)
    case Partial(kind, data) => Fragments(kind, false, data, size)
    case More(data) => Fragments(Continuation, false, data, size)
    case Fin => Fragments(Continuation, true, [], size)
  }

  function EmittedBy(calls: seq<Call>, size: nat): (r: seq<Frame>)
    requires size > 0
  {
    if calls == [] then [] else Emitted(calls[0], size) + EmittedBy(calls[1..], size)
  }

  /** The order of calls that makes sense: a partial message is continued and finished before the next one. To add
      nothing is always possible. */
  predicate Sensible(open: bool, calls: seq<Call>)
    decreases |calls|
  {
    if calls == [] then true
    else
      match calls[0]
      case Whole(_, _) => !open && Sensible(false, calls[1..])
      case Partial(_, _) => !open && Sensible(true, calls[1..])
      case More(data) => (open || data == []) && Sensible(open, calls[1..])
      case Fin => open && Sensible(false, calls[1..])
  }

  /** The messages that the calls mean. */
  function Meant(peer: Peer, calls: seq<Call>): (h: Heard)
    decreases |calls|
  {
    if calls == [] then Heard(peer, [])
    else
      match calls[0]
      case Whole(kind, data) =>
        var rest := Meant(Idle, calls[1..]);
        Heard(rest.peer, [Message(kind, data)] + rest.messages)
      case Partial(kind, data) => Meant(Within(kind, data), calls[1..])
      case More(data) => Meant(if peer.Within? then Within(peer.kind, peer.data + data) else peer, calls[1..])
      case Fin =>
        var rest := Meant(Idle, calls[1..]);
        if peer.Within? then Heard(rest.peer, [Message(peer.kind, peer.data)] + rest.messages) else rest
  }

  /** Calls are for text or binary messages. */
  ghost predicate AreProper(calls: seq<Call>) {
    forall c <- calls :: c.Whole? || c.Partial? ==> !c.kind.Continuation?
  }

  lemma RestIsProper(calls: seq<Call>)
    requires calls != [] && AreProper(calls)
    ensures AreProper(calls[1..]) && (calls[0].Whole? || calls[0].Partial? ==> !calls[0].kind.Continuation?)
  {
    assert calls[0] in calls && forall c <- calls[1..] :: c in calls;
  }

  /** For every sensible sequence of calls and every buffer size, the peer reassembles exactly the messages meant:
      the parts of each in order, and the unfinished one as far as it was sent. */
  lemma {:induction false} CallsAreHeard(peer: Peer, calls: seq<Call>, size: nat)
    requires size > 0 && !peer.Failed? && AreProper(calls) && Sensible(peer.Within?, calls)
    ensures HearAll(peer, EmittedBy(calls, size)) == Meant(peer, calls)
    decreases |calls|
  {
    if calls != [] {
      var c, rest := calls[0], calls[1..];
      RestIsProper(calls);
      HearJoin(peer, Emitted(c, size), EmittedBy(rest, size));
      match c {
        case Whole(kind, data) => {
          StartHeard(kind, true, data, size);
          CallsAreHeard(Idle, rest, size);
        }
        case Partial(kind, data) => {
          StartHeard(kind, false, data, size);
          CallsAreHeard(Within(kind, data), rest, size);
        }
        case More(data) => {
          if peer.Within? {
            ContinuationHeard(peer.kind, peer.data, false, data, size);
            CallsAreHeard(Within(peer.kind, peer.data + data), rest, size);
          } else {
            CallsAreHeard(peer, rest, size);
          }
        }
        case Fin => {
          ContinuationHeard(peer.kind, peer.data, true, [], size);
          assert peer.data + [] == peer.data;
          CallsAreHeard(Idle, rest, size);
        }
      }
    }
  }

  lemma {:induction false} FailedStays(frames: seq<Frame>)
    ensures HearAll(Failed, frames) == Heard(Failed, [])
    decreases |frames|
  {
    if frames != [] {
      FailedStays(frames[1..]);
    }
  }

  /** One frame that is out of place fails the connection. */
  lemma FirstFrameFails(peer: Peer, kind: Kind, fin: bool, data: seq<Byte>, size: nat)
    requires size > 0 && Fragments(kind, fin, data, size) != [] && !peer.Failed?
    requires (peer.Within? <==> !kind.Continuation?)
    ensures HearAll(peer, Fragments(kind, fin, data, size)) == Heard(Failed, [])
  {
    var fs := Fragments(kind, fin, data, size);
    FragmentsAreLegal(kind, fin, data, size);
    FailedStays(fs[1..]);
  }

  lemma CallFails(peer: Peer, c: Call, size: nat)
    requires size > 0 && !peer.Failed? && AreProper([c]) && !Sensible(peer.Within?, [c])
    ensures HearAll(peer, Emitted(c, size)).peer.Failed?
  {
    assert c in [c];
    match c {
      case Whole(kind, data) => FirstFrameFails(peer, kind, true, data, size);
      case Partial(kind, data) => FirstFrameFails(peer, kind, false, data, size);
      case More(data) => FirstFrameFails(peer, Continuation, false, data, size);
      case Fin => FirstFrameFails(peer, Continuation, true, [], size);
    }
  }

  lemma {:induction false} NonsenseFails(peer: Peer, calls: seq<Call>, size: nat)
    requires size > 0 && !peer.Failed? && AreProper(calls) && !Sensible(peer.Within?, calls)
    ensures HearAll(peer, EmittedBy(calls, size)).peer.Failed?
    decreases |calls|
  {
    var c, rest := calls[0], calls[1..];
    RestIsProper(calls);
    HearJoin(peer, Emitted(c, size), EmittedBy(rest, size));
    if Sensible(peer.Within?, [c]) {
      CallsAreHeard(peer, [c], size);
      assert EmittedBy([c], size) == Emitted(c, size);
      NonsenseFails(HearAll(peer, Emitted(c, size)).peer, rest, size);
    } else {
      CallFails(peer, c, size);
      FailedStays(EmittedBy(rest, size));
    }
  }

  lemma {:induction false} MeantGoesOn(peer: Peer, calls: seq<Call>)
    requires !peer.Failed?
    ensures !Meant(peer, calls).peer.Failed?
    decreases |calls|
  {
    if calls != [] {
      var c, rest := calls[0], calls[1..];
      MeantGoesOn(Idle, rest);
      if c.Partial? {
        MeantGoesOn(Within(c.kind, c.data), rest);
      } else if c.More? {
        MeantGoesOn(if peer.Within? then Within(peer.kind, peer.data + c.data) else peer, rest);
      }
    }
  }

  /** The order of the calls is exactly what decides: the peer fails the connection if and only if they make no
      sense. */
  lemma OrderDecides(peer: Peer, calls: seq<Call>, size: nat)
    requires size > 0 && !peer.Failed? && AreProper(calls)
    ensures HearAll(peer, EmittedBy(calls, size)).peer.Failed? <==> !Sensible(peer.Within?, calls)
  {
    if Sensible(peer.Within?, calls) {
      CallsAreHeard(peer, calls, size);
      MeantGoesOn(peer, calls);
    } else {
      NonsenseFails(peer, calls, size);
    }
  }

  // ------------------------------------------------------------------ the loop as the code runs it

  class Client {
    const bufferSize: nat
    var sent: seq<Frame>
    /** How many more frames the transport will take. */
    var takes: nat
    var connected: bool
    /** The calls that succeeded on this connection. */
    ghost var called: seq<Call>

    ghost predicate Valid()
      reads this
    {
      && bufferSize > 0 && AreProper(called) && EmittedBy(called, bufferSize) <= sent
      && (connected ==> sent == EmittedBy(called, bufferSize))
    }

    constructor (size: nat, takes: nat)
      requires size > 0
      ensures Valid() && connected && bufferSize == size && this.takes == takes && called == []
    {
      bufferSize, this.takes, connected, sent, called := size, takes, true, [], [];
    }

    /** esp_transport_ws_send_raw, which sends the whole frame or fails */
    method SendRaw(f: Frame) returns (wlen: int)
      modifies this`sent, this`takes
      ensures if old(takes) > 0 then wlen == |f.payload| && sent == old(sent) + [f] && takes == old(takes) - 1
              else (wlen < 0 || (wlen == 0 && f.payload != [])) && sent == old(sent) && takes == 0
    {
      if takes > 0 {
        wlen, sent, takes := |f.payload|, sent + [f], takes - 1;
      } else {
        wlen := *;
        wlen := if wlen < 0 || (wlen == 0 && f.payload != []) then wlen else -1;
      }
    }

    /** esp_websocket_client_send_with_exact_opcode; when the transport fails part of the way the connection is
        aborted, and nothing is sent on it any more. */
    method SendExact(kind: Kind, fin: bool, data: seq<Byte>) returns (ret: int)
      requires bufferSize > 0
      modifies this`sent, this`takes, this`connected
      ensures !old(connected) ==> ret == -1 && sent == old(sent) && takes == old(takes) && !connected
      ensures old(connected) ==>
                var all := Fragments(kind, fin, data, bufferSize);
                if |all| <= old(takes)
                then ret == |data| && sent == old(sent) + all && takes == old(takes) - |all| && connected
                else ret != |data| && ret <= 0 && sent == old(sent) + all[..old(takes)] && takes == 0 && !connected
    {
      if !connected {
        return -1;
      }
      ghost var all := Fragments(kind, fin, data, bufferSize);
      ghost var n := 0;
      var widx, opcode, hasOpcode := 0, kind, !kind.Continuation? || fin;
      assert data[0..] == data;
      while widx < |data| || hasOpcode
        invariant 0 <= widx <= |data| && 0 <= n <= |all| && sent == old(sent) + all[..n] && takes == old(takes) - n
        invariant connected
        invariant hasOpcode ==> widx == 0 && n == 0 && opcode == kind && (!kind.Continuation? || fin)
        invariant !hasOpcode && n > 0 ==> opcode == Continuation
        invariant !hasOpcode && n == 0 ==> kind.Continuation? && !fin && opcode == kind && widx == 0
        invariant hasOpcode || widx < |data| ==>
                    all[n..] == Fragments(if n == 0 then kind else Continuation, fin, data[widx..], bufferSize)
        invariant !hasOpcode && widx == |data| ==> n == |all|
        decreases |data| - widx, hasOpcode
      {
        var needWrite := |data| - widx;
        var last := true;
        if needWrite > bufferSize {
          needWrite := bufferSize;
          last := false;
        }
        var f := Frame(opcode, last && fin, data[widx..widx + needWrite]);
        TakeNext(all, n, if n == 0 then kind else Continuation, fin, data, bufferSize, widx, needWrite);
        var wlen := SendRaw(f);
        if wlen < 0 || (wlen == 0 && needWrite != 0) {
          connected := false;
          return wlen;
        }
        hasOpcode := false;
        opcode := Continuation;
        widx := widx + wlen;
        n := n + 1;
      }
      assert all[..|all|] == all;
      ret := widx;
    }

    /** The functions of the API over it: send_text and send_bin, the _partial forms, send_cont_msg and send_fin */
    method Send(c: Call) returns (ret: int)
      requires Valid() && AreProper([c])
      modifies this
      ensures Valid() && called == (if connected then old(called) + [c] else old(called))
      ensures connected <==> old(connected) && |Emitted(c, bufferSize)| <= old(takes)
      ensures old(connected) ==>
                var all := Emitted(c, bufferSize);
                sent == old(sent) + if connected then all else all[..old(takes)]
      ensures !old(connected) ==> sent == old(sent)
      ensures connected ==> ret == DataLength(c)
      ensures !connected ==> ret <= 0 && ret != DataLength(c) && (old(connected) || ret == -1)
      ensures connected && Sensible(false, called) ==> HearAll(Idle, sent) == Meant(Idle, called)
    {
      match c {
        case Whole(kind, data) => ret := SendExact(kind, true, data);
        case Partial(kind, data) => ret := SendExact(kind, false, data);
        case More(data) => ret := SendExact(Continuation, false, data);
        case Fin => ret := SendExact(Continuation, true, []);
      }
      EmittedSnoc(called, c, bufferSize);
      if connected {
        called := called + [c];
        if Sensible(false, called) {
          CallsAreHeard(Idle, called, bufferSize);
        }
      }
    }
  }

  lemma {:induction false} EmittedSnoc(calls: seq<Call>, c: Call, size: nat)
    requires size > 0
    ensures EmittedBy(calls + [c], size) == EmittedBy(calls, size) + Emitted(c, size)
    decreases |calls|
  {
    if calls == [] {
      assert calls + [c] == [c] && [c][1..] == [];
    } else {
      assert (calls + [c])[1..] == calls[1..] + [c];
      EmittedSnoc(calls[1..], c, size);
    }
  }

  /** The next frame of what remains. */
  lemma TakeNext(all: seq<Frame>, n: nat, kind: Kind, fin: bool, data: seq<Byte>, size: nat, widx: nat, needWrite: nat)
    requires size > 0 && n <= |all| && widx <= |data| && all[n..] == Fragments(kind, fin, data[widx..], size)
    requires widx < |data| || !kind.Continuation? || fin
    requires needWrite == if |data| - widx > size then size else |data| - widx
    ensures n < |all| && all[n] == Frame(kind, needWrite == |data| - widx && fin, data[widx..widx + needWrite])
    ensures all[..n + 1] == all[..n] + [all[n]]
    ensures widx + needWrite < |data| ==> all[n + 1..] == Fragments(Continuation, fin, data[widx + needWrite..], size)
    ensures widx + needWrite == |data| ==> n + 1 == |all|
  {
    var rest := data[widx..];
    if |rest| > size {
      assert rest[..size] == data[widx..widx + size] && rest[size..] == data[widx + size..];
      assert all[n..][1..] == all[n + 1..];
    } else {
      assert data[widx..|data|] == rest;
      assert |all[n..]| == 1;
    }
    assert all[n] == all[n..][0];
  }
}
