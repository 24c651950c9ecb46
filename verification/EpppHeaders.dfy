/** What the deframer of components/eppp_link/eppp_uart.c takes for a frame, byte by byte. */
module EpppHeaders {
  import opened Octets
  import opened EpppUart

  /** The check byte is the exclusive or of the two bytes of the size. */
  predicate IsCheck(check: Byte, low: Byte, high: Byte) {
    check as int == ((low as bv8) ^ (high as bv8)) as int
  }

  function LittleEndian(low: Byte, high: Byte): (r: nat) {
    low as int + 256 * (high as int)
  }

  /** The magic byte, a good check byte and a size that is not above the MTU. */
  predicate IsHeader(s: seq<Byte>)
    requires |s| >= 5
  {
    s[0] == 0x7E && IsCheck(s[2], s[3], s[4]) && LittleEndian(s[3], s[4]) <= 1500
  }

  lemma SizeSplits(low: Byte, high: Byte)
    ensures LittleEndian(low, high) % 256 == low && LittleEndian(low, high) / 256 == high
  {
  }

  lemma HeaderIsRead(s: seq<Byte>)
    requires |s| >= 5
    ensures HeaderOk(s) <==> IsHeader(s)
    ensures Size(s) == LittleEndian(s[3], s[4])
  {
    SizeSplits(s[3], s[4]);
  }

  /** Anything but a header costs the scanner one byte. */
  lemma Rejected(s: seq<Byte>)
    requires |s| >= 5 && !IsHeader(s)
    ensures Frames(s) == Frames(s[1..])
  {
    HeaderIsRead(s);
  }

  /** Behind a header, a frame that has not come in completely is waited for. */
  lemma Awaited(s: seq<Byte>, end: nat)
    requires |s| >= 5 && IsHeader(s) && end == 5 + LittleEndian(s[3], s[4]) && |s| < end
    ensures Frames(s) == []
  {
    HeaderIsRead(s);
  }

  /** And a complete one is delivered. */
  lemma Accepted(s: seq<Byte>, end: nat, payload: seq<Byte>, rest: seq<Byte>)
    requires |s| >= 5 && IsHeader(s) && end == 5 + LittleEndian(s[3], s[4]) <= |s|
    requires payload == s[5..end] && rest == s[end..]
    ensures Frames(s) == [Frame(s[1], payload)] + Frames(rest)
  {
    HeaderIsRead(s);
    assert HEADER_LEN + Size(s) == end;
  }

  lemma TooShort(s: seq<Byte>)
    requires |s| < 5
    ensures Frames(s) == []
  {
  }

  // ------------------------------------------------------------------ nothing is made up

  /** A frame stands in a stream behind such a header. */
  ghost predicate Stands(s: seq<Byte>, at: nat, f: Frame) {
    && at + 5 + |f.payload| <= |s| && IsHeader(s[at..]) && s[at + 1] == f.channel
    && LittleEndian(s[at + 3], s[at + 4]) == |f.payload| && s[at + 5..at + 5 + |f.payload|] == f.payload
  }

  /** Frames stand one behind the other. */
  ghost predicate AllStand(s: seq<Byte>, from: nat, places: seq<nat>, fs: seq<Frame>)
    decreases |fs|
  {
    |places| == |fs|
    && (fs == [] || (&& from <= places[0] && Stands(s, places[0], fs[0])
                     && AllStand(s, places[0] + 5 + |fs[0].payload|, places[1..], fs[1..])))
  }

  lemma EarlierStand(s: seq<Byte>, from: nat, later: nat, places: seq<nat>, fs: seq<Frame>)
    requires from <= later && AllStand(s, later, places, fs)
    ensures AllStand(s, from, places, fs)
  {
  }

  lemma FirstStands(s: seq<Byte>, from: nat, rest: seq<Byte>, end: nat)
    requires from <= |s| && rest == s[from..] && |rest| >= 5 && IsHeader(rest)
    requires end == 5 + LittleEndian(rest[3], rest[4]) <= |rest|
    ensures Stands(s, from, Frame(rest[1], rest[5..end])) && rest[end..] == s[from + end..]
  {
    assert rest[5..end] == s[from + 5..from + end];
  }

  lemma StandsFirst(s: seq<Byte>, from: nat, f: Frame, places: seq<nat>, fs: seq<Frame>)
    requires Stands(s, from, f) && AllStand(s, from + 5 + |f.payload|, places, fs)
    ensures AllStand(s, from, [from] + places, [f] + fs)
  {
    assert ([from] + places)[1..] == places && ([f] + fs)[1..] == fs;
  }

  lemma StandsNext(s: seq<Byte>, from: nat, rest: seq<Byte>, places: seq<nat>)
    requires from < |s| && rest == s[from..] && |rest| >= 5 && !IsHeader(rest)
    requires AllStand(s, from + 1, places, Frames(s[from + 1..]))
    ensures AllStand(s, from, places, Frames(rest))
  {
    Rejected(rest);
    assert rest[1..] == s[from + 1..];
    EarlierStand(s, from, from + 1, places, Frames(s[from + 1..]));
  }

  lemma StandsHere(s: seq<Byte>, from: nat, rest: seq<Byte>, end: nat, places: seq<nat>)
    requires from <= |s| && rest == s[from..] && |rest| >= 5 && IsHeader(rest)
    requires end == 5 + LittleEndian(rest[3], rest[4]) <= |rest|
    requires AllStand(s, from + end, places, Frames(s[from + end..]))
    ensures AllStand(s, from, [from] + places, Frames(rest))
  {
    Accepted(rest, end, rest[5..end], rest[end..]);
    FirstStands(s, from, rest, end);
    StandsFirst(s, from, Frame(rest[1], rest[5..end]), places, Frames(rest[end..]));
  }

  /** Every frame that is scanned stands in the stream behind a good header, in order, and no byte belongs to two of
      them. */
  lemma {:induction false} ScannedStand(s: seq<Byte>, from: nat, rest: seq<Byte>) returns (places: seq<nat>)
    requires from <= |s| && rest == s[from..]
    ensures AllStand(s, from, places, Frames(rest))
    decreases |s| - from
  {
    places := [];
    if |rest| < 5 {
      TooShort(rest);
    } else if !IsHeader(rest) {
      places := ScannedStand(s, from + 1, s[from + 1..]);
      StandsNext(s, from, rest, places);
    } else {
      var end := 5 + LittleEndian(rest[3], rest[4]);
      if |rest| < end {
        Awaited(rest, end);
      } else {
        places := ScannedStand(s, from + end, s[from + end..]);
        StandsHere(s, from, rest, end, places);
        places := [from] + places;
      }
    }
  }

  /** So it is with what the deframer delivers, for every stream and every way of cutting it into reads. */
  lemma DeliveredStand(chunks: seq<seq<Byte>>) returns (places: seq<nat>)
    requires Readable(chunks)
    ensures AllStand(Concat(chunks), 0, places, Run(chunks).out)
  {
    DeliveredIsScanned(chunks);
    assert Concat(chunks)[0..] == Concat(chunks);
    places := ScannedStand(Concat(chunks), 0, Concat(chunks));
  }
}
