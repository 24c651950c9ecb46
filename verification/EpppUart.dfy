/** The framed EPPP link over a UART: the sender of components/eppp_link/eppp_uart.c and its
    buffered deframer, which is proved to refine a scanner that looks at one byte at a time. */
module EpppUart {
  import opened Octets

  const MAX_PAYLOAD := 1500
  const HEADER_MAGIC: Byte := 0x7E
  const HEADER_SIZE := 4
  const MAX_PACKET_SIZE := MAX_PAYLOAD + HEADER_SIZE
  const UART_BUF_SIZE := MAX_PACKET_SIZE
  /** sizeof(in_buf) */
  const CAPACITY := 2 * UART_BUF_SIZE
  /** sizeof(struct header): one more than HEADER_SIZE. */
  const HEADER_LEN := 5

  datatype Frame = Frame(channel: Byte, payload: seq<Byte>)

  // ------------------------------------------------------------------ wire format

  function Xor(a: Byte, b: Byte): (r: Byte) {
    ((a as bv8) ^ (b as bv8)) as Byte
  }

  /** The check byte of a 16-bit size. */
  function Check(size: nat): (r: Byte)
    requires size < 0x1_0000
  {
    Xor(size % 256, size / 256)
  }

  /** The little-endian size field of a header. */
  function Size(s: seq<Byte>): (r: nat)
    requires |s| >= HEADER_LEN
    ensures r < 0x1_0000
  {
    s[3] as int + 256 * (s[4] as int)
  }

  predicate HeaderOk(s: seq<Byte>)
    requires |s| >= HEADER_LEN
  {
    s[0] == HEADER_MAGIC && s[2] == Check(Size(s)) && Size(s) <= MAX_PAYLOAD
  }

  function Header(channel: Byte, size: nat): (h: seq<Byte>)
    requires size < 0x1_0000
  {
    [HEADER_MAGIC, channel, Check(size), size % 256, size / 256]
  }

  function Encode(f: Frame): (s: seq<Byte>)
    requires |f.payload| < 0x1_0000
  {
    Header(f.channel, |f.payload|) + f.payload
  }

  function EncodeAll(fs: seq<Frame>): (s: seq<Byte>)
    requires forall f <- fs :: |f.payload| < 0x1_0000
  {
    if fs == [] then [] else Encode(fs[0]) + EncodeAll(fs[1..])
  }

  // ------------------------------------------------------------------ reference scanner

  /** What a receiver should deliver from a byte stream: a good header yields its frame once the
      frame is complete, and a bad one costs exactly one byte. */
  function Frames(s: seq<Byte>): (r: seq<Frame>) {
    if |s| < HEADER_LEN then []
    else if !HeaderOk(s) then Frames(s[1..])
    else if |s| < HEADER_LEN + Size(s) then []
    else [Frame(s[1], s[HEADER_LEN..HEADER_LEN + Size(s)])] + Frames(s[HEADER_LEN + Size(s)..])
  }

  /** Neither a deliverable frame nor a bad header: the deframer can only wait. */
  predicate Waiting(s: seq<Byte>) {
    |s| < HEADER_LEN || (HeaderOk(s) && |s| < HEADER_LEN + Size(s))
  }

  ghost predicate MagicFree(s: seq<Byte>) {
    forall i | 0 <= i < |s| :: s[i] != HEADER_MAGIC
  }

  lemma {:induction false} SkipMagicFree(g: seq<Byte>, s: seq<Byte>)
    requires MagicFree(g)
    ensures Frames(g + s) == Frames(s)
  {
    if g == [] {
      assert g + s == s;
    } else {
      SkipMagicFree(g[1..], s);
      assert (g + s)[1..] == g[1..] + s;
    }
  }

  lemma HeaderReadsBack(s: seq<Byte>, channel: Byte, size: nat)
    requires size <= MAX_PAYLOAD && |s| >= HEADER_LEN && s[..HEADER_LEN] == Header(channel, size)
    ensures HeaderOk(s) && Size(s) == size && s[1] == channel
  {
    var h := Header(channel, size);
    assert forall i | 0 <= i < HEADER_LEN :: s[i] == s[..HEADER_LEN][i];
    assert s[0] == h[0] && s[1] == h[1] && s[2] == h[2] && s[3] == h[3] && s[4] == h[4];
  }

  lemma FramesOfEncode(f: Frame, rest: seq<Byte>)
    requires |f.payload| <= MAX_PAYLOAD
    ensures Frames(Encode(f) + rest) == [f] + Frames(rest)
  {
    var s := Encode(f) + rest;
    assert s[..HEADER_LEN] == Header(f.channel, |f.payload|);
    HeaderReadsBack(s, f.channel, |f.payload|);
    assert s[HEADER_LEN..HEADER_LEN + Size(s)] == f.payload;
    assert s[HEADER_LEN + Size(s)..] == rest;
  }

  // ------------------------------------------------------------------ deframer as a function

  /** The deframer: bytes data occupy in_buf[start .. start + |data|], out is what was delivered. */
  datatype Cursor = Cursor(start: nat, data: seq<Byte>, out: seq<Frame>)

  const INITIAL := Cursor(0, [], [])

  function End(c: Cursor): (r: nat) {
    c.start + |c.data|
  }

  /** Drop n bytes, then move the rest to the front when the buffer is getting tight. */
  function Advance(c: Cursor, n: nat): (r: Cursor)
    requires n <= |c.data|
  {
    var start := c.start + n;
    if start > CAPACITY / 2 || CAPACITY - End(c) < UART_BUF_SIZE
    then Cursor(0, c.data[n..], c.out)
    else Cursor(start, c.data[n..], c.out)
  }

  /** After bytes were taken, what is left is at the front or has room for 1504 more bytes behind it. */
  lemma AdvanceLeavesRoom(c: Cursor, n: nat)
    requires n <= |c.data|
    ensures var r := Advance(c, n);
            && r.data == c.data[n..] && r.out == c.out
            && (r.start == 0 || (r.start <= 1504 && 3008 - (r.start + |r.data|) >= 1504))
  {
  }

  /** Stepping over bytes and then moving the rest is one step. */
  lemma AdvanceAfter(c: Cursor, n: nat, rest: Cursor)
    requires n <= |c.data| && rest == Cursor(c.start + n, c.data[n..], c.out)
    ensures Advance(rest, 0) == Advance(c, n)
  {
    assert rest.data[0..] == rest.data;
  }

  /** memchr for HEADER_MAGIC from index i; |s| when there is none. */
  function NextMagic(s: seq<Byte>, i: nat): (r: nat)
    requires i <= |s|
    ensures i <= r <= |s|
    ensures r < |s| ==> s[r] == HEADER_MAGIC
    ensures MagicFree(s[i..r])
    decreases |s| - i
  {
    if i == |s| || s[i] == HEADER_MAGIC then i
    else
      var r := NextMagic(s, i + 1);
      assert s[i..r] == [s[i]] + s[i + 1..r];
      r
  }

  function Recover(c: Cursor): (r: Cursor)
    requires c.data != []
    ensures |r.data| < |c.data|
  {
    var next := NextMagic(c.data, 1);
    if next < |c.data| then Advance(c, next) else Cursor(0, [], c.out)
  }

  function Deliver(c: Cursor): (r: Cursor)
    requires |c.data| >= HEADER_LEN && |c.data| >= HEADER_LEN + Size(c.data)
    ensures |r.data| < |c.data|
  {
    var total := HEADER_LEN + Size(c.data);
    Advance(c.(out := c.out + [Frame(c.data[1], c.data[HEADER_LEN..total])]), total)
  }

  function Drain(c: Cursor): (r: Cursor)
    decreases |c.data|
  {
    if Waiting(c.data) then c
    else if !HeaderOk(c.data) then Drain(Recover(c))
    else Drain(Deliver(c))
  }

  /** One call of process_packet that reads chunk. */
  function Feed(c: Cursor, chunk: seq<Byte>): (r: Cursor) {
    Drain(c.(data := c.data + chunk))
  }

  lemma {:induction false} DrainSettles(c: Cursor)
    requires c.start <= CAPACITY / 2 && End(c) <= CAPACITY
    ensures Waiting(Drain(c).data)
    ensures Drain(c).start <= CAPACITY / 2 && End(Drain(c)) <= CAPACITY
    decreases |c.data|
  {
    if !Waiting(c.data) {
      DrainSettles(if !HeaderOk(c.data) then Recover(c) else Deliver(c));
    }
  }

  lemma WaitingHasNoFrame(s: seq<Byte>)
    requires Waiting(s)
    ensures Frames(s) == []
  {
  }

  lemma HeaderStays(d: seq<Byte>, t: seq<Byte>)
    requires |d| >= HEADER_LEN
    ensures HeaderOk(d + t) == HeaderOk(d) && Size(d + t) == Size(d)
  {
  }

  lemma TailSplits(d: seq<Byte>, t: seq<Byte>, k: nat)
    requires 1 <= k <= |d|
    ensures (d + t)[1..] == d[1..k] + (d[k..] + t)
  {
  }

  lemma RecoverKeepsFrames(c: Cursor, t: seq<Byte>)
    requires |c.data| >= HEADER_LEN && !HeaderOk(c.data)
    ensures Frames(c.data + t) == Frames(Recover(c).data + t)
  {
    var d, next := c.data, NextMagic(c.data, 1);
    HeaderStays(d, t);
    TailSplits(d, t, next);
    SkipMagicFree(d[1..next], d[next..] + t);
    if next == |d| {
      assert d[next..] + t == t == [] + t;
    }
  }

  lemma DeliverKeepsFrames(c: Cursor, t: seq<Byte>)
    requires |c.data| >= HEADER_LEN && HeaderOk(c.data) && |c.data| >= HEADER_LEN + Size(c.data)
    ensures c.out + Frames(c.data + t) == Deliver(c).out + Frames(Deliver(c).data + t)
  {
    var d, total := c.data, HEADER_LEN + Size(c.data);
    FrameComesFirst(d, t, total);
    JoinFrames(c.out, Frame(d[1], d[HEADER_LEN..total]), Frames(d[total..] + t));
  }

  lemma FrameComesFirst(d: seq<Byte>, t: seq<Byte>, total: nat)
    requires |d| >= HEADER_LEN && HeaderOk(d) && total == HEADER_LEN + Size(d) <= |d|
    ensures Frames(d + t) == [Frame(d[1], d[HEADER_LEN..total])] + Frames(d[total..] + t)
  {
    HeaderStays(d, t);
    FrameSplits(d, t, total);
  }

  lemma JoinFrames(a: seq<Frame>, f: Frame, b: seq<Frame>)
    ensures a + ([f] + b) == a + [f] + b
  {
  }

  lemma FrameSplits(d: seq<Byte>, t: seq<Byte>, total: nat)
    requires HEADER_LEN <= total <= |d|
    ensures (d + t)[1] == d[1] && (d + t)[HEADER_LEN..total] == d[HEADER_LEN..total]
    ensures (d + t)[total..] == d[total..] + t
  {
  }

  /** Whatever still arrives, draining the buffer loses and invents no frame. */
  lemma {:induction false} DrainRefines(c: Cursor, t: seq<Byte>)
    ensures c.out + Frames(c.data + t) == Drain(c).out + Frames(Drain(c).data + t)
    decreases |c.data|
  {
    if Waiting(c.data) {
    } else if !HeaderOk(c.data) {
      RecoverKeepsFrames(c, t);
      DrainRefines(Recover(c), t);
    } else {
      DeliverKeepsFrames(c, t);
      DrainRefines(Deliver(c), t);
    }
  }

  // ------------------------------------------------------------------ whole runs

  /** The deframer after a sequence of reads. */
  function Run(chunks: seq<seq<Byte>>): (c: Cursor) {
    if chunks == [] then INITIAL else Feed(Run(chunks[..|chunks| - 1]), chunks[|chunks| - 1])
  }

  function Concat(chunks: seq<seq<Byte>>): (s: seq<Byte>) {
    if chunks == [] then [] else Concat(chunks[..|chunks| - 1]) + chunks[|chunks| - 1]
  }

  /** Every read asks for no more than the free space, as process_packet does. */
  ghost predicate Readable(chunks: seq<seq<Byte>>) {
    chunks == [] ||
    (Readable(chunks[..|chunks| - 1]) && End(Run(chunks[..|chunks| - 1])) + |chunks[|chunks| - 1]| <= CAPACITY)
  }

  lemma Join(a: seq<Byte>, b: seq<Byte>, c: seq<Byte>)
    ensures a + b + c == a + (b + c)
  {
  }

  lemma {:induction false} RunRefines(chunks: seq<seq<Byte>>, t: seq<Byte>)
    ensures Run(chunks).out + Frames(Run(chunks).data + t) == Frames(Concat(chunks) + t)
  {
    if chunks == [] {
      assert [] + t == t;
    } else {
      var before, last := Run(chunks[..|chunks| - 1]), chunks[|chunks| - 1];
      RunRefines(chunks[..|chunks| - 1], last + t);
      DrainRefines(before.(data := before.data + last), t);
      Join(before.data, last, t);
      Join(Concat(chunks[..|chunks| - 1]), last, t);
    }
  }

  lemma {:induction false} RunSettles(chunks: seq<seq<Byte>>)
    requires Readable(chunks)
    ensures Waiting(Run(chunks).data)
    ensures Run(chunks).start <= CAPACITY / 2 && End(Run(chunks)) <= CAPACITY
  {
    if chunks != [] {
      var before, last := Run(chunks[..|chunks| - 1]), chunks[|chunks| - 1];
      RunSettles(chunks[..|chunks| - 1]);
      DrainSettles(before.(data := before.data + last));
    }
  }

  /** For every byte stream and every way of splitting it into reads, exactly the frames of the
      byte-at-a-time scanner have been delivered, whatever compactions and recoveries happened. */
  lemma DeliveredIsScanned(chunks: seq<seq<Byte>>)
    requires Readable(chunks)
    ensures Run(chunks).out == Frames(Concat(chunks))
  {
    RunRefines(chunks, []);
    RunSettles(chunks);
    WaitingHasNoFrame(Run(chunks).data);
    assert Run(chunks).data + [] == Run(chunks).data;
    assert Concat(chunks) + [] == Concat(chunks);
  }

  /** Frames sent after garbage without a magic byte arrive exactly and in order, however the
      stream is cut. */
  lemma SentIsDelivered(garbage: seq<Byte>, fs: seq<Frame>, chunks: seq<seq<Byte>>)
    requires MagicFree(garbage)
    requires forall f <- fs :: |f.payload| <= MAX_PAYLOAD
    requires Readable(chunks) && Concat(chunks) == garbage + EncodeAll(fs)
    ensures Run(chunks).out == fs
  {
    DeliveredIsScanned(chunks);
    SkipMagicFree(garbage, EncodeAll(fs));
    FramesThenGarbage(fs, []);
    assert EncodeAll(fs) + [] == EncodeAll(fs);
  }

  // ------------------------------------------------------------------ room for the pending frame

  /** No byte can be read any more: process_packet asks the driver for 0 bytes from now on. */
  predicate Stalled(c: Cursor) {
    End(c) == CAPACITY
  }

  /** The frame being received will end inside the buffer. */
  predicate PendingFits(c: Cursor) {
    |c.data| >= HEADER_LEN ==> c.start + HEADER_LEN + Size(c.data) <= CAPACITY
  }

  /** A pending frame fits unless it has the maximum payload and starts in the exact middle of the
      buffer: HEADER_SIZE is one less than the header really takes. */
  lemma PendingFitsExactly(chunks: seq<seq<Byte>>)
    requires Readable(chunks)
    ensures var c := Run(chunks);
            PendingFits(c) <==> !(c.start == CAPACITY / 2 && |c.data| >= HEADER_LEN && Size(c.data) == MAX_PAYLOAD)
    ensures PendingFits(Run(chunks)) ==> !Stalled(Run(chunks))
  {
    RunSettles(chunks);
  }

  lemma StallIsForever(c: Cursor)
    requires Stalled(c) && Waiting(c.data)
    ensures Feed(c, []) == c
  {
    assert c.data + [] == c.data;
  }

  /** A frame of MAX_PAYLOAD - 1 bytes and then one of MAX_PAYLOAD bytes: the second can never be
      completed, whatever the payloads are. */
  lemma MaximumPayloadStalls(f: Frame, g: Frame)
    requires |f.payload| == MAX_PAYLOAD - 1 && |g.payload| == MAX_PAYLOAD
    ensures var chunks := [Encode(f), Encode(g)[..UART_BUF_SIZE]];
            Readable(chunks) && Stalled(Run(chunks)) && Waiting(Run(chunks).data) && Run(chunks).out == [f]
  {
    var a, b := Encode(f), Encode(g)[..UART_BUF_SIZE];
    var one: seq<seq<Byte>> := [a];
    assert [a, b][..1] == one && one[..0] == [];
    assert Readable([]);
    assert a[..HEADER_LEN] == Header(f.channel, |f.payload|);
    HeaderReadsBack(a, f.channel, |f.payload|);
    assert a[HEADER_LEN..HEADER_LEN + Size(a)] == f.payload;
    var c0 := Cursor(0, a, []);
    assert INITIAL.(data := INITIAL.data + a) == c0;
    assert Deliver(c0).out == [Frame(a[1], f.payload)] == [f];
    assert Deliver(c0).data == a[UART_BUF_SIZE..] == [];
    assert Run(one) == Drain(c0) == Cursor(UART_BUF_SIZE, [], [f]);
    assert b[..HEADER_LEN] == Header(g.channel, |g.payload|);
    HeaderReadsBack(b, g.channel, |g.payload|);
    assert Run(one).data + b == b;
    assert Readable(one);
  }

  lemma {:induction false} FramesThenGarbage(fs: seq<Frame>, g: seq<Byte>)
    requires forall f <- fs :: |f.payload| <= MAX_PAYLOAD
    requires MagicFree(g)
    ensures Frames(EncodeAll(fs) + g) == fs
  {
    if fs == [] {
      SkipMagicFree(g, []);
      assert EncodeAll(fs) + g == g == g + [];
    } else {
      FramesOfEncode(fs[0], EncodeAll(fs[1..]) + g);
      FramesThenGarbage(fs[1..], g);
      assert EncodeAll(fs) + g == Encode(fs[0]) + (EncodeAll(fs[1..]) + g);
    }
  }

  lemma PendingSizeIsSent(data: seq<Byte>, more: seq<Byte>, out: seq<Frame>, fs: seq<Frame>)
    requires |data| >= HEADER_LEN && HeaderOk(data) && |more| >= HEADER_LEN + MAX_PAYLOAD
    requires out + Frames(data + more) == fs
    ensures exists f :: f in fs && |f.payload| == Size(data)
  {
    var all := data + more;
    assert Size(all) == Size(data) && HeaderOk(all);
    var f := Frames(all)[0];
    assert |f.payload| == Size(data) && fs[|out|] == f;
  }

  lemma Regroup(a: seq<Byte>, b: seq<Byte>, c: seq<Byte>, d: seq<Byte>, pad: seq<Byte>)
    requires a + b == c + d
    ensures a + (b + pad) == c + (d + pad)
  {
    Join(a, b, pad);
    Join(c, d, pad);
  }

  /** The receiver after some reads, seen against everything that is still to come. */
  lemma RemainingFrames(garbage: seq<Byte>, fs: seq<Frame>, chunks: seq<seq<Byte>>, t: seq<Byte>, pad: seq<Byte>)
    requires MagicFree(garbage) && MagicFree(pad)
    requires forall f <- fs :: |f.payload| <= MAX_PAYLOAD
    requires Concat(chunks) + t == garbage + EncodeAll(fs)
    ensures Run(chunks).out + Frames(Run(chunks).data + (t + pad)) == fs
  {
    RunRefines(chunks, t + pad);
    Regroup(Concat(chunks), t, garbage, EncodeAll(fs), pad);
    SkipMagicFree(garbage, EncodeAll(fs) + pad);
    FramesThenGarbage(fs, pad);
  }

  /** At every moment of receiving frames that the sender's buffer can hold, the frame in progress
      fits in the receiver's buffer and there is room to read on. The bytes not read yet are t. */
  lemma SendableFramesNeverStall(garbage: seq<Byte>, fs: seq<Frame>, chunks: seq<seq<Byte>>, t: seq<Byte>)
    requires MagicFree(garbage)
    requires forall f <- fs :: HEADER_LEN + |f.payload| <= MAX_PACKET_SIZE
    requires Readable(chunks) && Concat(chunks) + t == garbage + EncodeAll(fs)
    ensures PendingFits(Run(chunks)) && !Stalled(Run(chunks))
  {
    var pad := seq(HEADER_LEN + MAX_PAYLOAD, _ => 0);
    PendingFitsExactly(chunks);
    RunSettles(chunks);
    RemainingFrames(garbage, fs, chunks, t, pad);
    if |Run(chunks).data| >= HEADER_LEN {
      PendingSizeIsSent(Run(chunks).data, t + pad, Run(chunks).out, fs);
    }
  }

  /** A sender that keeps to payloads of at most n bytes, seen after some reads; t is not read yet. */
  ghost predicate Receiving(garbage: seq<Byte>, fs: seq<Frame>, chunks: seq<seq<Byte>>, t: seq<Byte>, n: nat)
    requires n <= MAX_PAYLOAD
  {
    && MagicFree(garbage) && (forall f <- fs :: |f.payload| <= n)
    && Readable(chunks) && Concat(chunks) + t == garbage + EncodeAll(fs)
  }

  /** The bound on the payload is exactly what decides: whatever is sent and however it is read, the receiver never
      stalls if and only if the sender stays below MAX_PAYLOAD. */
  lemma PayloadBoundDecides(n: nat)
    requires n <= MAX_PAYLOAD
    ensures (forall garbage, fs, chunks, t | Receiving(garbage, fs, chunks, t, n) :: !Stalled(Run(chunks))) <==>
            n < MAX_PAYLOAD
  {
    if n < MAX_PAYLOAD {
      forall garbage, fs, chunks, t | Receiving(garbage, fs, chunks, t, n) ensures !Stalled(Run(chunks)) {
        SendableFramesNeverStall(garbage, fs, chunks, t);
      }
    } else {
      var chunks, fs, t := StallingReads();
      assert Receiving([], fs, chunks, t, n);
    }
  }

  lemma StallingReads() returns (chunks: seq<seq<Byte>>, fs: seq<Frame>, t: seq<Byte>)
    ensures Receiving([], fs, chunks, t, MAX_PAYLOAD) && Stalled(Run(chunks))
  {
    var f, g := Frame(0, seq(MAX_PAYLOAD - 1, _ => 0)), Frame(0, seq(MAX_PAYLOAD, _ => 0));
    var a, b := Encode(f), Encode(g);
    MaximumPayloadStalls(f, g);
    chunks, fs, t := [a, b[..UART_BUF_SIZE]], [f, g], b[UART_BUF_SIZE..];
    TwoReads(a, b, UART_BUF_SIZE);
    assert fs[1..] == [g] && [g][1..] == [];
    assert EncodeAll([g]) == b + [] == b;
  }

  lemma TwoReads(a: seq<Byte>, b: seq<Byte>, k: nat)
    requires k <= |b|
    ensures Concat([a, b[..k]]) + b[k..] == [] + (a + b)
  {
    assert [a, b[..k]][..1] == [a] && [a][..0] == [];
    assert Concat([a]) == [] + a == a;
    assert a + b[..k] + b[k..] == a + b;
  }

  // ------------------------------------------------------------------ the C code

  class Sender {
    /** out_buf, which has MAX_PACKET_SIZE bytes, and what lies behind it */
    const memory: array<Byte>
    /** The bytes given to uart_write_bytes so far. */
    var wire: seq<Byte>

    ghost predicate Valid()
      reads this
    {
      memory.Length >= HEADER_LEN + MAX_PAYLOAD
    }

    constructor (memory: array<Byte>)
      requires memory.Length >= HEADER_LEN + MAX_PAYLOAD
      ensures Valid() && wire == [] && this.memory == memory
    {
      this.memory := memory;
      wire := [];
    }

    method WriteHeader(channel: Byte, len: nat)
      requires Valid() && len <= MAX_PAYLOAD
      modifies memory
      ensures memory[..] == Header(channel, len) + old(memory[HEADER_LEN..])
    {
      memory[0] := HEADER_MAGIC;
      memory[2] := 0;
      memory[1] := channel;
      memory[3], memory[4] := len % 256, len / 256;
      memory[2] := Xor(len % 256, len / 256);
      assert memory[..HEADER_LEN] == Header(channel, len);
      assert memory[..] == memory[..HEADER_LEN] + memory[HEADER_LEN..];
    }

    method CopyPayload(buffer: seq<Byte>)
      requires Valid() && |buffer| <= MAX_PAYLOAD
      modifies memory
      ensures memory[..] == old(memory[..HEADER_LEN]) + buffer + old(memory[HEADER_LEN + |buffer|..])
    {
      forall i | 0 <= i < |buffer| {
        memory[HEADER_LEN + i] := buffer[i];
      }
    }

    /** transmit_generic, for payloads up to the MTU. The buffer is laid out for a header of 4 bytes, so the largest
        payload, and only that, is written past its end. */
    method Transmit(channel: Byte, buffer: seq<Byte>)
      requires Valid() && |buffer| <= MAX_PAYLOAD
      modifies this, memory
      ensures Valid() && wire == old(wire) + Encode(Frame(channel, buffer))
      ensures memory[..] == Encode(Frame(channel, buffer)) + old(memory[HEADER_LEN + |buffer|..])
      ensures |Encode(Frame(channel, buffer))| > MAX_PACKET_SIZE <==> |buffer| == MAX_PAYLOAD
    {
      ghost var was := memory[..];
      WriteHeader(channel, |buffer|);
      ghost var headed := memory[..];
      CopyPayload(buffer);
      Transmitted(was, headed, memory[..], Header(channel, |buffer|), buffer);
      wire := wire + memory[..HEADER_LEN + |buffer|];
    }
  }

  lemma Transmitted(was: seq<Byte>, headed: seq<Byte>, b: seq<Byte>, head: seq<Byte>, buffer: seq<Byte>)
    requires |head| == HEADER_LEN && |was| >= HEADER_LEN + |buffer| && headed == head + was[HEADER_LEN..]
    requires b == headed[..HEADER_LEN] + buffer + headed[HEADER_LEN + |buffer|..]
    ensures b[..HEADER_LEN + |buffer|] == head + buffer && b == head + buffer + was[HEADER_LEN + |buffer|..]
  {
    assert headed[..HEADER_LEN] == head;
    assert headed[HEADER_LEN + |buffer|..] == was[HEADER_LEN + |buffer|..];
  }

  lemma SliceOfSlice(b: seq<Byte>, s: nat, e: nat, i: nat, j: nat)
    requires s <= e <= |b| && i <= j <= e - s
    ensures b[s..e][i..j] == b[s + i..s + j]
  {
    assert forall k | 0 <= k < j - i :: b[s..e][i..j][k] == b[s + i..s + j][k];
  }

  class Deframer {
    const inBuf: array<Byte>
    var bufStart: nat
    var bufEnd: nat
    var delivered: seq<Frame>
    /** Every chunk read from the driver so far. */
    ghost var chunks: seq<seq<Byte>>

    ghost predicate Shape()
      reads this, inBuf
    {
      inBuf.Length == CAPACITY && bufStart <= bufEnd <= CAPACITY && bufStart <= CAPACITY / 2
    }

    ghost function State(): (c: Cursor)
      reads this, inBuf
      requires Shape()
    {
      Cursor(bufStart, inBuf[bufStart..bufEnd], delivered)
    }

    ghost predicate Valid()
      reads this, inBuf
    {
      Shape() && Readable(chunks) && State() == Run(chunks)
    }

    constructor ()
      ensures Valid() && fresh(inBuf) && chunks == [] && delivered == []
    {
      inBuf := new Byte[CAPACITY](_ => 0);
      bufStart, bufEnd := 0, 0;
      delivered, chunks := [], [];
    }

    method Compact()
      requires inBuf.Length == CAPACITY && bufStart <= bufEnd <= CAPACITY
      modifies this`bufStart, this`bufEnd, inBuf
      ensures Shape()
      ensures State() == Advance(Cursor(old(bufStart), old(inBuf[bufStart..bufEnd]), delivered), 0)
    {
      if bufStart > CAPACITY / 2 || CAPACITY - bufEnd < UART_BUF_SIZE {
        if bufStart < bufEnd {
          var remaining := bufEnd - bufStart;
          ghost var was := inBuf[bufStart..bufEnd];
          forall i | 0 <= i < remaining {
            inBuf[i] := inBuf[bufStart + i];
          }
          assert inBuf[..remaining] == was;
          bufEnd := remaining;
        } else {
          bufEnd := 0;
        }
        bufStart := 0;
      }
    }

    method FindMagic(from: nat) returns (next: nat)
      requires inBuf.Length == CAPACITY && bufStart <= from <= bufEnd <= CAPACITY
      ensures from <= next <= bufEnd
      ensures next - bufStart == NextMagic(inBuf[bufStart..bufEnd], from - bufStart)
    {
      next := from;
      ghost var data := inBuf[bufStart..bufEnd];
      while next < bufEnd && inBuf[next] != HEADER_MAGIC
        invariant from <= next <= bufEnd
        invariant NextMagic(data, next - bufStart) == NextMagic(data, from - bufStart)
      {
        assert data[next - bufStart] == inBuf[next];
        next := next + 1;
      }
      assert next < bufEnd ==> data[next - bufStart] == inBuf[next];
    }

    /** Append what the driver returned. */
    method ReadIn(data: seq<Byte>)
      requires Shape() && bufEnd + |data| <= CAPACITY
      modifies this`bufEnd, inBuf
      ensures Shape() && State() == old(State()).(data := old(State()).data + data)
    {
      ghost var was := inBuf[bufStart..bufEnd];
      forall i | 0 <= i < |data| {
        inBuf[bufEnd + i] := data[i];
      }
      assert inBuf[bufStart..bufEnd] == was;
      assert inBuf[bufEnd..bufEnd + |data|] == data;
      assert inBuf[bufStart..bufEnd + |data|] == inBuf[bufStart..bufEnd] + inBuf[bufEnd..bufEnd + |data|];
      bufEnd := bufEnd + |data|;
    }

    /** Pass the complete packet at bufStart on and step over it. */
    method TakePacket(total: nat)
      requires Shape() && bufEnd - bufStart >= HEADER_LEN
      requires total == HEADER_LEN + Size(State().data) <= bufEnd - bufStart
      modifies this`bufStart, this`bufEnd, this`delivered, inBuf
      ensures Shape() && State() == Deliver(old(State()))
    {
      ghost var data, b := inBuf[bufStart..bufEnd], inBuf[..];
      SliceOfSlice(b, bufStart, bufEnd, HEADER_LEN, total);
      SliceOfSlice(b, bufStart, bufEnd, total, bufEnd - bufStart);
      delivered := delivered + [Frame(inBuf[bufStart + 1], inBuf[bufStart + HEADER_LEN..bufStart + total])];
      AdvanceAfter(Cursor(bufStart, data, delivered), total, Cursor(bufStart + total, data[total..], delivered));
      bufStart := bufStart + total;
      Compact();
    }

    /** Jump to the next magic byte, or drop everything. */
    method Resync()
      requires Shape() && bufStart < bufEnd
      modifies this`bufStart, this`bufEnd, inBuf
      ensures Shape() && State() == Recover(old(State()))
    {
      var next := FindMagic(bufStart + 1);
      if next < bufEnd {
        SliceOfSlice(inBuf[..], bufStart, bufEnd, next - bufStart, bufEnd - bufStart);
        ghost var data := inBuf[bufStart..bufEnd];
        AdvanceAfter(Cursor(bufStart, data, delivered), next - bufStart,
                     Cursor(next, data[next - bufStart..], delivered));
        bufStart := next;
        Compact();
      } else {
        bufStart, bufEnd := 0, 0;
      }
    }

    /** One turn of the loop of process_packet; more is false when it would break out. */
    method HandleHead() returns (more: bool)
      requires Shape() && bufEnd - bufStart >= HEADER_LEN
      modifies this`bufStart, this`bufEnd, this`delivered, inBuf
      ensures Shape() && Drain(State()) == Drain(old(State()))
      ensures if more then bufEnd - bufStart < old(bufEnd - bufStart) else Waiting(State().data)
    {
      ghost var data := inBuf[bufStart..bufEnd];
      var size := inBuf[bufStart + 3] as int + 256 * (inBuf[bufStart + 4] as int);
      assert size == Size(data);
      if inBuf[bufStart] != HEADER_MAGIC || inBuf[bufStart + 2] != Xor(size % 256, size / 256) || size > MAX_PAYLOAD {
        assert !HeaderOk(data);
        Resync();
        more := true;
      } else if bufEnd - bufStart < HEADER_LEN + size {
        more := false;
      } else {
        assert HeaderOk(data);
        TakePacket(HEADER_LEN + size);
        more := true;
      }
    }

    /** The loop of process_packet */
    method DrainBuffer()
      requires Shape()
      modifies this`bufStart, this`bufEnd, this`delivered, inBuf
      ensures Shape() && State() == Drain(old(State()))
    {
      var more := true;
      while more && bufEnd - bufStart >= HEADER_LEN
        invariant Shape() && Drain(State()) == Drain(old(State())) && (more || Waiting(State().data))
        decreases more, bufEnd - bufStart
      {
        more := HandleHead();
      }
    }

    /** process_packet: data is what uart_read_bytes returned for a request of at most the free
        space. Everything deliverable is delivered and nothing else. */
    method ProcessPacket(data: seq<Byte>)
      requires Valid() && bufEnd + |data| <= CAPACITY
      modifies this, inBuf
      ensures Valid() && chunks == old(chunks) + [data]
      ensures delivered == Frames(Concat(chunks))
    {
      ReadIn(data);
      DrainBuffer();
      chunks := chunks + [data];
      assert chunks[..|chunks| - 1] == old(chunks);
      DeliveredIsScanned(chunks);
    }
  }
}
