/** Reading back what append_fqdn wrote: when a name that stands in a packet, in full or with a pointer, is read as the
    labels that were asked for. */
module DnsRoundTrip {
  import opened Common
  import opened Octets
  import opened DnsReader
  import opened DnsWriter

  /** C strings have no NUL in them. */
  predicate IsCString(t: Text) {
    forall i | 0 <= i < |t| :: t[i] != 0
  }

  predicate AreCStrings(strings: seq<Text>) {
    strings == [] || (IsCString(strings[0]) && AreCStrings(strings[1..]))
  }

  lemma {:induction false} FirstAreCStrings(strings: seq<Text>, k: nat)
    requires AreCStrings(strings) && k <= |strings|
    ensures AreCStrings(strings[..k])
  {
    if k > 0 {
      assert strings[..k][1..] == strings[1..][..k - 1];
      FirstAreCStrings(strings[1..], k - 1);
    }
  }

  /** A string that can be one label of a name. */
  predicate IsLabel(t: Text) {
    1 <= |t| <= 63 && IsCString(t)
  }

  predicate AreLabels(strings: seq<Text>) {
    strings == [] || (IsLabel(strings[0]) && AreLabels(strings[1..]))
  }

  /** The packet holds these bytes at index. */
  ghost predicate Holds(q: seq<Byte>, index: nat, bytes: seq<Byte>)
    decreases |bytes|
  {
    index + |bytes| <= |q| && (bytes == [] || (q[index] == bytes[0] && Holds(q, index + 1, bytes[1..])))
  }

  lemma {:induction false} HoldsAt(q: seq<Byte>, index: nat, bytes: seq<Byte>, i: nat)
    requires Holds(q, index, bytes) && i < |bytes|
    ensures q[index + i] == bytes[i]
    decreases i
  {
    if i > 0 {
      HoldsAt(q, index + 1, bytes[1..], i - 1);
    }
  }

  lemma {:induction false} HoldsIf(q: seq<Byte>, index: nat, bytes: seq<Byte>)
    requires index + |bytes| <= |q| && forall i | 0 <= i < |bytes| :: q[index + i] == bytes[i]
    ensures Holds(q, index, bytes)
    decreases |bytes|
  {
    if bytes != [] {
      assert q[index + 0] == bytes[0];
      forall i | 0 <= i < |bytes[1..]| ensures q[index + 1 + i] == bytes[1..][i] {
        assert q[index + (1 + i)] == bytes[1 + i];
      }
      HoldsIf(q, index + 1, bytes[1..]);
    }
  }

  lemma {:induction false} HoldsParts(q: seq<Byte>, index: nat, a: seq<Byte>, b: seq<Byte>)
    requires Holds(q, index, a + b)
    ensures Holds(q, index, a) && Holds(q, index + |a|, b)
    decreases |a|
  {
    if a == [] {
      assert a + b == b;
    } else {
      assert (a + b)[1..] == a[1..] + b;
      HoldsParts(q, index + 1, a[1..], b);
    }
  }

  lemma PutHolds(p: seq<Byte>, index: nat, bytes: seq<Byte>)
    requires index + |bytes| <= |p|
    ensures Holds(Put(p, index, bytes), index, bytes) && SameBelow(p, Put(p, index, bytes), index)
  {
    HoldsIf(Put(p, index, bytes), index, bytes);
  }

  /** What was read is these labels, up to the case of letters, and ends at next. */
  ghost predicate Reads(d: Option<Decoding>, strings: seq<Text>, next: nat) {
    d.Some? && d.value.next == next && SameTexts(strings, Labels(d.value.tokens))
  }

  function Prepend(ts: seq<Token>, d: Option<Decoding>): (r: Option<Decoding>) {
    match d
    case None => None
    case Some(d) => Some(d.(tokens := ts + d.tokens))
  }

  // ------------------------------------------------------------------ strings and pointers in a packet

  lemma HeldPiece(q: seq<Byte>, index: nat, t: Text)
    requires Holds(q, index, Piece(t))
    ensures q[index] == |Stored(t)| && q[index + 1..index + 1 + |Stored(t)|] == Stored(t)
  {
    var s, piece := Stored(t), Piece(t);
    forall i | 0 <= i < |s| ensures q[index + 1..index + 1 + |s|][i] == s[i] {
      HoldsAt(q, index, piece, 1 + i);
    }
  }

  lemma DecodePiece(q: seq<Byte>, start: nat, index: nat, t: Text)
    requires start <= index && Holds(q, index, Piece(t)) && 1 <= |Stored(t)| <= 63
    ensures Decode(q, start, index, 0) == Prepend([Label(Stored(t))], Decode(q, start, index + |Piece(t)|, 0))
  {
    HeldPiece(q, index, t);
  }

  lemma ReachPiece(q: seq<Byte>, start: nat, index: nat, t: Text)
    requires start <= index && Holds(q, index, Piece(t)) && 1 <= |Stored(t)| <= 63
    ensures Reach(q, start, index) == Reach(q, start, index + |Piece(t)|)
  {
    HeldPiece(q, index, t);
  }

  /** What follows a first label. */
  lemma LabelsNext(t: Text, d: Option<Decoding>)
    requires IsCString(t)
    ensures d.Some? ==> Labels(Prepend([Label(t)], d).value.tokens) == [t] + Labels(d.value.tokens)
  {
    if d.Some? {
      var ts := [Label(t)] + d.value.tokens;
      assert ts[0] == Label(t) && ts[1..] == d.value.tokens;
    }
  }

  lemma TextsNext(t: Text, s: Text, more: seq<Text>, got: seq<Text>)
    ensures SameTexts([t] + more, [s] + got) <==> CaseEqual(t, s) && SameTexts(more, got)
  {
    var a, b := [t] + more, [s] + got;
    if SameTexts(a, b) {
      assert CaseEqual(a[0], b[0]);
      assert forall i | 0 <= i < |more| :: a[i + 1] == more[i] && b[i + 1] == got[i];
    }
  }

  lemma StoredWhole(t: Text)
    requires IsCString(t) && 1 <= |Stored(t)| <= 63
    ensures IsCString(Stored(t)) && (CaseEqual(t, Stored(t)) <==> IsLabel(t))
  {
  }

  /** The first string comes back exactly when it is a label; nothing else that its bytes may be read as ends
      behind it. */
  lemma PieceReads(q: seq<Byte>, start: nat, index: nat, t: Text, more: seq<Text>, end: nat)
    requires start <= index && IsCString(t) && Holds(q, index, Piece(t)) && end > index + |Piece(t)|
    ensures Reads(Decode(q, start, index, 0), [t] + more, end)
       <==> IsLabel(t) && Reads(Decode(q, start, index + |Piece(t)|, 0), more, end)
  {
    HeldPiece(q, index, t);
    if 1 <= |Stored(t)| <= 63 {
      var rest := Decode(q, start, index + |Piece(t)|, 0);
      DecodePiece(q, start, index, t);
      StoredWhole(t);
      LabelsNext(Stored(t), rest);
      if rest.Some? {
        TextsNext(t, Stored(t), more, Labels(rest.value.tokens));
      }
    }
  }

  lemma FirstHeld(q: seq<Byte>, index: nat, strings: seq<Text>)
    requires strings != [] && Holds(q, index, Wire(strings))
    ensures Holds(q, index, Piece(strings[0])) && Holds(q, index + |Piece(strings[0])|, Wire(strings[1..]))
    ensures |Wire(strings)| == |Piece(strings[0])| + |Wire(strings[1..])|
  {
    HoldsParts(q, index, Piece(strings[0]), Wire(strings[1..]));
  }

  lemma Regroup(strings: seq<Text>, rest: seq<Text>)
    requires strings != []
    ensures strings + rest == [strings[0]] + (strings[1..] + rest)
  {
  }

  lemma FirstReads(q: seq<Byte>, start: nat, index: nat, strings: seq<Text>, rest: seq<Text>, end: nat)
    requires start <= index && strings != [] && IsCString(strings[0]) && Holds(q, index, Wire(strings))
    requires end > index + |Wire(strings)|
    ensures var next := index + |Piece(strings[0])|;
            && Holds(q, next, Wire(strings[1..])) && end > next + |Wire(strings[1..])|
            && next + |Wire(strings[1..])| == index + |Wire(strings)|
            && (Reads(Decode(q, start, index, 0), strings + rest, end)
                <==> IsLabel(strings[0]) && Reads(Decode(q, start, next, 0), strings[1..] + rest, end))
  {
    FirstHeld(q, index, strings);
    Regroup(strings, rest);
    PieceReads(q, start, index, strings[0], strings[1..] + rest, end);
  }

  /** The strings in front of whatever ends a name. */
  lemma {:induction false} WireReads(q: seq<Byte>, start: nat, index: nat, strings: seq<Text>, rest: seq<Text>,
                                     end: nat)
    requires start <= index && AreCStrings(strings) && Holds(q, index, Wire(strings)) && end > index + |Wire(strings)|
    ensures Reads(Decode(q, start, index, 0), strings + rest, end)
       <==> AreLabels(strings) && Reads(Decode(q, start, index + |Wire(strings)|, 0), rest, end)
    decreases |strings|
  {
    if strings == [] {
      assert strings + rest == rest;
    } else {
      FirstReads(q, start, index, strings, rest, end);
      WireReads(q, start, index + |Piece(strings[0])|, strings[1..], rest, end);
    }
  }

  lemma {:induction false} ReachWire(q: seq<Byte>, start: nat, index: nat, strings: seq<Text>)
    requires start <= index && AreLabels(strings) && Holds(q, index, Wire(strings))
    ensures Reach(q, start, index) == Reach(q, start, index + |Wire(strings)|)
    decreases |strings|
  {
    if strings != [] {
      FirstHeld(q, index, strings);
      ReachPiece(q, start, index, strings[0]);
      ReachWire(q, start, index + |Piece(strings[0])|, strings[1..]);
    }
  }

  lemma PointerTarget(q: seq<Byte>, at: nat, j: nat)
    requires j < ADDRESSABLE && Holds(q, at, Pointer(j))
    ensures at + 1 < |q| && q[at] >= 0xC0 && Target(q, at) == j
  {
    HoldsAt(q, at, Pointer(j), 1);
  }

  lemma DecodePointer(q: seq<Byte>, start: nat, at: nat, j: nat)
    requires start <= at && j < ADDRESSABLE && Holds(q, at, Pointer(j))
    ensures Decode(q, start, at, 0) ==
            if j >= start || Decode(q, j, j, 1).None? then None
            else Some(Decoding([Jump] + Decode(q, j, j, 1).value.tokens, at + 2))
  {
    PointerTarget(q, at, j);
  }

  lemma ReachPointer(q: seq<Byte>, start: nat, at: nat, j: nat)
    requires j < start <= at && j < ADDRESSABLE && Holds(q, at, Pointer(j))
    ensures Reach(q, start, at) == if Reach(q, j, j) > at + 2 then Reach(q, j, j) else at + 2
  {
    PointerTarget(q, at, j);
  }

  lemma LabelsPastJump(ts: seq<Token>)
    ensures Labels([Jump] + ts) == Labels(ts)
  {
    assert ([Jump] + ts)[1..] == ts;
    assert [] + Labels(ts) == Labels(ts);
  }

  // ------------------------------------------------------------------ a name in full

  /** A name written out in full reads back if and only if every string has 1 to 63 bytes. */
  lemma FullNameRoundTrip(q: seq<Byte>, index: nat, strings: seq<Text>)
    requires AreCStrings(strings) && Holds(q, index, Wire(strings) + [0])
    ensures Reads(Decode(q, index, index, 0), strings, index + |Wire(strings)| + 1) <==> AreLabels(strings)
    ensures AreLabels(strings) ==> Reach(q, index, index) == index + |Wire(strings)| + 1
  {
    var at := index + |Wire(strings)|;
    HoldsParts(q, index, Wire(strings), [0]);
    assert strings + [] == strings;
    WireReads(q, index, index, strings, [], at + 1);
    if AreLabels(strings) {
      ReachWire(q, index, index, strings);
    }
  }

  lemma {:induction false} LabelsOfWire(p: seq<Byte>, start: nat, index: nat, strings: seq<Text>)
    requires start <= index && AreLabels(strings) && Holds(p, index, Wire(strings) + [0])
    ensures Decode(p, start, index, 0) == Some(Decoding(LabelTokens(strings), index + |Wire(strings)| + 1))
    decreases |strings|
  {
    if strings == [] {
      assert Wire(strings) + [0] == [0];
    } else {
      var piece, rest := Piece(strings[0]), Wire(strings[1..]) + [0];
      assert Wire(strings) + [0] == piece + rest;
      HoldsParts(p, index, piece, rest);
      LabelsOfWire(p, start, index + |piece|, strings[1..]);
      DecodePiece(p, start, index, strings[0]);
      assert LabelTokens(strings) == [Label(strings[0])] + LabelTokens(strings[1..]);
    }
  }

  function LabelTokens(strings: seq<Text>): (r: seq<Token>) {
    if strings == [] then [] else [Label(strings[0])] + LabelTokens(strings[1..])
  }

  lemma LabelTokensNext(strings: seq<Text>)
    requires strings != []
    ensures var ts := LabelTokens(strings);
            ts != [] && ts[0] == Label(strings[0]) && ts[1..] == LabelTokens(strings[1..])
  {
  }

  lemma {:induction false} LabelsOfTokens(strings: seq<Text>)
    requires AreLabels(strings)
    ensures Labels(LabelTokens(strings)) == strings
    decreases |strings|
  {
    if strings != [] {
      LabelTokensNext(strings);
      LabelsOfTokens(strings[1..]);
      assert CString(strings[0]) == strings[0];
    }
  }

  lemma {:induction false} PlaceLabelTokens(n: Name, strings: seq<Text>)
    requires n.parts <= 4 && AreLabels(strings)
    ensures PlaceAll(n, LabelTokens(strings)) == PlaceTexts(n, strings)
    decreases |strings|
  {
    if strings != [] {
      LabelTokensNext(strings);
      assert CString(strings[0]) == strings[0];
      PlaceLabelTokens(PlaceLabel(Enter(n), strings[0]), strings[1..]);
    }
  }

  // ------------------------------------------------------------------ a name with a pointer

  function Tokens(p: seq<Byte>, j: nat): (ts: seq<Token>) {
    match Decode(p, j, j, 0)
    case None => []
    case Some(d) => d.tokens
  }

  /** The strings init and a pointer to j stand at index. */
  ghost predicate Stands(q: seq<Byte>, index: nat, init: seq<Text>, j: nat) {
    && AreCStrings(init) && j < ADDRESSABLE
    && Holds(q, index, Wire(init)) && Holds(q, index + |Wire(init)|, Pointer(j))
  }

  /** They stand in q. When the pointer was chosen the packet was b, which q follows up to the pointer, and the writer
      accepted j for rest. */
  ghost predicate WrotePointer(b: seq<Byte>, q: seq<Byte>, index: nat, init: seq<Text>, rest: seq<Text>, j: nat) {
    Stands(q, index, init, j) && rest != [] && SameBelow(b, q, index + |Wire(init)|) && Accepts(b, j, rest)
  }

  /** A pointer in a name that starts at start leads before it, and what stands there reads, one jump deeper, as the
      rest. */
  ghost predicate LeadsTo(q: seq<Byte>, start: nat, j: nat, rest: seq<Text>) {
    var d := Decode(q, j, j, 1);
    j < start && d.Some? && SameTexts(rest, Labels(d.value.tokens))
  }

  lemma JumpReads(q: seq<Byte>, start: nat, at: nat, rest: seq<Text>, j: nat)
    requires start <= at && j < ADDRESSABLE && Holds(q, at, Pointer(j))
    ensures Reads(Decode(q, start, at, 0), rest, at + 2) <==> LeadsTo(q, start, j, rest)
  {
    DecodePointer(q, start, at, j);
    var d := Decode(q, j, j, 1);
    if d.Some? {
      LabelsPastJump(d.value.tokens);
    }
  }

  /** For every packet: the name reads back if and only if its strings are labels, the pointer leads before the name,
      and what stands there, with the pointer in place and one jump counted, is the rest. */
  lemma PointerDecides(q: seq<Byte>, index: nat, init: seq<Text>, rest: seq<Text>, j: nat)
    requires Stands(q, index, init, j)
    ensures Reads(Decode(q, index, index, 0), init + rest, index + |Wire(init)| + 2)
       <==> AreLabels(init) && LeadsTo(q, index, j, rest)
  {
    var at := index + |Wire(init)|;
    WireReads(q, index, index, init, rest, at + 2);
    JumpReads(q, index, at, rest, j);
  }

  /** A back-reference into the name being written is never readable. */
  lemma SelfReferenceIsUnreadable(q: seq<Byte>, index: nat, init: seq<Text>, rest: seq<Text>, j: nat)
    requires Stands(q, index, init, j) && j >= index
    ensures !Reads(Decode(q, index, index, 0), init + rest, index + |Wire(init)| + 2)
    ensures AreLabels(init) ==> Decode(q, index, index, 0).None?
  {
    PointerDecides(q, index, init, rest, j);
    if AreLabels(init) {
      DecodePointer(q, index, index + |Wire(init)|, j);
      WireFails(q, index, index, init);
    }
  }

  lemma PieceFails(q: seq<Byte>, start: nat, index: nat, t: Text)
    requires start <= index && Holds(q, index, Piece(t)) && IsLabel(t) && Decode(q, start, index + |Piece(t)|, 0).None?
    ensures Decode(q, start, index, 0).None?
  {
    DecodePiece(q, start, index, t);
  }

  lemma {:induction false} WireFails(q: seq<Byte>, start: nat, index: nat, strings: seq<Text>)
    requires start <= index && AreLabels(strings) && Holds(q, index, Wire(strings))
    requires Decode(q, start, index + |Wire(strings)|, 0).None?
    ensures Decode(q, start, index, 0).None?
    decreases |strings|
  {
    if strings != [] {
      var next := index + |Piece(strings[0])|;
      FirstHeld(q, index, strings);
      WireFails(q, start, next, strings[1..]);
      PieceFails(q, start, index, strings[0]);
    }
  }

  /** A step adds at most one part, and then the part is the label. */
  lemma PlaceAddsPart(n: Name, t: Token)
    requires n.parts <= 4
    ensures var r := Place(n, t);
            && r.parts <= n.parts + 1
            && (r.parts == n.parts + 1 ==> t.Label? && Field(r, n.parts) == CString(t.bytes)
                                           && forall i | 0 <= i < n.parts :: Field(r, i) == Field(n, i))
            && (t.Jump? ==> r.parts == n.parts && forall i | 0 <= i < n.parts :: Field(r, i) == Field(n, i))
  {
  }

  /** The parts of r from the given one on are these labels, and the parts below are those of n. */
  ghost predicate PartsAre(n: Name, r: Name, labels: seq<Text>) {
    && r.parts == n.parts + |labels| <= 4
    && (forall i | 0 <= i < n.parts :: Field(r, i) == Field(n, i))
    && (forall i | 0 <= i < |labels| :: Field(r, n.parts + i) == labels[i])
  }

  lemma PartsAreCons(n: Name, m: Name, r: Name, t: Text, rest: seq<Text>)
    requires m.parts == n.parts + 1 && PartsAre(n, m, [t]) && PartsAre(m, r, rest)
    ensures PartsAre(n, r, [t] + rest)
  {
    assert Field(m, n.parts + 0) == [t][0];
    assert forall i | 0 <= i < |rest| :: Field(r, n.parts + (1 + i)) == rest[i];
  }

  /** A name that has as many parts as labels is made of its labels. */
  lemma {:induction false} AllPlaced(n: Name, ts: seq<Token>)
    requires n.parts <= 4
    ensures PlaceAll(n, ts).parts - n.parts <= |Labels(ts)|
    ensures PlaceAll(n, ts).parts - n.parts == |Labels(ts)| ==> PartsAre(n, PlaceAll(n, ts), Labels(ts))
    decreases |ts|
  {
    if ts != [] {
      var m, rest := Place(n, ts[0]), Labels(ts[1..]);
      PlaceAddsPart(n, ts[0]);
      AllPlaced(m, ts[1..]);
      var r := PlaceAll(m, ts[1..]);
      if ts[0].Jump? {
        assert Labels(ts) == [] + rest == rest;
      } else if r.parts - n.parts == 1 + |rest| {
        PartsAreCons(n, m, r, CString(ts[0].bytes), rest);
      }
    }
  }

  /** The labels of an accepted name are the wanted ones when there are as many. */
  lemma AcceptedLabels(b: seq<Byte>, j: nat, rest: seq<Text>)
    requires SameName(b, j, rest) && |Labels(Tokens(b, j))| == |rest|
    ensures SameTexts(rest, Labels(Tokens(b, j)))
  {
    var ts := Tokens(b, j);
    AllPlaced(EMPTY, ts);
    var n := PlaceAll(EMPTY, ts);
    assert forall i | 0 <= i < |rest| :: CaseEqual(rest[i], Field(n, 0 + i));
  }

  // ------------------------------------------------------------------ pointers to settled bytes

  /** The accepted name starts before the new one, consists of the wanted labels only, and is not at
      the limit of jumps. The writer checks none of these. */
  ghost predicate Faithful(b: seq<Byte>, index: nat, rest: seq<Text>, j: nat) {
    j < index && |Labels(Tokens(b, j))| == |rest| && Jumps(Tokens(b, j)) < MAX_COMPRESSION_DEPTH
  }

  /** The accepted name does not run into bytes that are still to be written. */
  ghost predicate Settled(b: seq<Byte>, at: nat, j: nat) {
    Reach(b, j, j) <= at
  }

  /** A name that depends only on bytes below at, read again through one more pointer. */
  lemma FoundAgain(b: seq<Byte>, q: seq<Byte>, j: nat, at: nat)
    requires Decode(b, j, j, 0).Some? && SameBelow(b, q, at) && Settled(b, at, j)
    ensures Decode(q, j, j, 1) == if Jumps(Tokens(b, j)) < MAX_COMPRESSION_DEPTH then Decode(b, j, j, 0) else None
    ensures Reach(q, j, j) == Reach(b, j, j)
  {
    DecodeFrame(b, q, j, j, 1, at);
    DecodeDepth(b, j, j, 0, 1);
  }

  /** For every packet and every compression choice: when the accepted name is settled, reading gives the whole name
      back if and only if the strings are labels and the back-reference is faithful. */
  lemma PointerRoundTrip(b: seq<Byte>, q: seq<Byte>, index: nat, init: seq<Text>, rest: seq<Text>, j: nat)
    requires WrotePointer(b, q, index, init, rest, j) && Settled(b, index + |Wire(init)|, j)
    ensures Reads(Decode(q, index, index, 0), init + rest, index + |Wire(init)| + 2)
       <==> AreLabels(init) && Faithful(b, index, rest, j)
  {
    PointerDecides(q, index, init, rest, j);
    FoundAgain(b, q, j, index + |Wire(init)|);
    if |Labels(Tokens(b, j))| == |rest| {
      AcceptedLabels(b, j, rest);
    }
  }

  /** Reading such a name looks at nothing behind its pointer. */
  lemma PointerReach(q: seq<Byte>, index: nat, init: seq<Text>, j: nat)
    requires Stands(q, index, init, j) && AreLabels(init) && j < index && Settled(q, index + |Wire(init)|, j)
    ensures Reach(q, index, index) == index + |Wire(init)| + 2
  {
    ReachWire(q, index, index, init);
    ReachPointer(q, index, index + |Wire(init)|, j);
  }
}
