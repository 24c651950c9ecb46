/** Whole packets: names, other bytes and the fields that are filled in later, as mdns_priv_dispatch_tx_packet in
    components/mdns/mdns_send.c puts them together. */
module DnsPackets {
  import opened Common
  import opened Octets
  import opened DnsReader
  import opened DnsWriter
  import opened DnsRoundTrip
  import opened DnsNames

  /** One thing done to a packet: a name or other bytes are appended, or bytes that are already there are set, as
      set_u16 does with the length of a record's data and with the counts in the header. */
  datatype Item = NameItem(strings: seq<Text>) | RawItem(bytes: seq<Byte>) | PatchItem(at: nat, value: seq<Byte>)

  ghost predicate Wrote(p: seq<Byte>, index: nat, q: seq<Byte>, next: nat, item: Item) {
    index <= |p| < ADDRESSABLE &&
    match item
    case RawItem(bytes) => next == index + |bytes| <= |p| && q == Put(p, index, bytes)
    case PatchItem(at, value) => next == index && at + |value| <= index && q == Put(p, at, value)
    case NameItem(strings) =>
      && AreCStrings(strings) && !Decide(p, index, strings, 0).Breaks?
      && var bytes := Bytes(strings, Decide(p, index, strings, 0));
      next == index + |bytes| <= |p| && q == Put(p, index, bytes)
  }

  /** A packet made step by step: packets[i] and indices[i] are what item i found. */
  ghost predicate Built(packets: seq<seq<Byte>>, indices: seq<nat>, items: seq<Item>) {
    && |packets| == |indices| == |items| + 1
    && forall i | 0 <= i < |items| :: Wrote(packets[i], indices[i], packets[i + 1], indices[i + 1], items[i])
  }

  /** A patch that hits no byte which reading the name at s looks at. */
  ghost predicate Spares(item: Item, p: seq<Byte>, s: nat) {
    item.PatchItem? ==> forall i: nat | Touches(p, s, s, i) :: i < item.at || i >= item.at + |item.value|
  }

  // ------------------------------------------------------------------ what was written stays readable

  lemma PutSpares(p: seq<Byte>, at: nat, bytes: seq<Byte>, s: nat)
    requires at + |bytes| <= |p| && forall i: nat | Touches(p, s, s, i) :: i < at || i >= at + |bytes|
    ensures AgreeOnTouched(p, Put(p, at, bytes), s, s)
  {
  }

  lemma AppendSpares(p: seq<Byte>, index: nat, bytes: seq<Byte>, s: nat)
    requires index + |bytes| <= |p| && Reach(p, s, s) <= index
    ensures AgreeOnTouched(p, Put(p, index, bytes), s, s)
  {
    forall i: nat | Touches(p, s, s, i) ensures i < index {
      TouchesBelowReach(p, s, s, i);
    }
    PutSpares(p, index, bytes, s);
  }

  /** Whatever is done next: a complete name is read as before, unless a patch hits a byte that it is read from. */
  lemma WroteKeeps(p: seq<Byte>, index: nat, q: seq<Byte>, next: nat, item: Item, s: nat)
    requires Wrote(p, index, q, next, item) && Reach(p, s, s) <= index && Spares(item, p, s)
    ensures Decode(q, s, s, 0) == Decode(p, s, s, 0) && Reach(q, s, s) == Reach(p, s, s) && index <= next
    ensures forall i: nat :: Touches(q, s, s, i) <==> Touches(p, s, s, i)
  {
    match item {
      case RawItem(bytes) => AppendSpares(p, index, bytes, s);
      case NameItem(strings) => AppendSpares(p, index, Bytes(strings, Decide(p, index, strings, 0)), s);
      case PatchItem(at, value) => PutSpares(p, at, value, s);
    }
    DecodeTouch(p, q, s, s, 0);
    TouchesSame(p, q, s, s);
  }

  ghost predicate SpareAll(items: seq<Item>, from: nat, p: seq<Byte>, s: nat) {
    forall k | from <= k < |items| :: Spares(items[k], p, s)
  }

  lemma {:induction false} BuiltKeeps(packets: seq<seq<Byte>>, indices: seq<nat>, items: seq<Item>, i: nat, s: nat)
    requires Built(packets, indices, items) && i <= |items| && Reach(packets[i], s, s) <= indices[i]
    requires SpareAll(items, i, packets[i], s)
    ensures Decode(packets[|items|], s, s, 0) == Decode(packets[i], s, s, 0)
    decreases |items| - i
  {
    if i < |items| {
      WroteKeeps(packets[i], indices[i], packets[i + 1], indices[i + 1], items[i], s);
      SparedStill(items, i, packets[i], packets[i + 1], s);
      BuiltKeeps(packets, indices, items, i + 1, s);
    }
  }

  lemma SparedStill(items: seq<Item>, i: nat, p: seq<Byte>, q: seq<Byte>, s: nat)
    requires SpareAll(items, i, p, s) && forall k: nat :: Touches(q, s, s, k) <==> Touches(p, s, s, k)
    ensures SpareAll(items, i + 1, q, s)
  {
  }

  /** In a finished packet a name reads back where it was written, whatever was appended after it and whatever was
      filled in, if it was trusty and no patch hits a byte that it is read from; and a complete name that was not
      trusty does not. */
  lemma EveryNameReadsBack(packets: seq<seq<Byte>>, indices: seq<nat>, items: seq<Item>, i: nat)
    requires Built(packets, indices, items) && i < |items| && items[i].NameItem?
    requires indices[i] <= |packets[i]| < ADDRESSABLE
    requires SettledName(packets[i], indices[i], items[i].strings) && SpareAll(items, i + 1, packets[i + 1], indices[i])
    ensures Trusty(packets[i], indices[i], items[i].strings) ==>
              Reads(Decode(packets[|items|], indices[i], indices[i], 0), items[i].strings, indices[i + 1])
    ensures Reach(packets[i + 1], indices[i], indices[i]) <= indices[i + 1]
            && Reads(Decode(packets[|items|], indices[i], indices[i], 0), items[i].strings, indices[i + 1])
            ==> Trusty(packets[i], indices[i], items[i].strings)
  {
    assert Wrote(packets[i], indices[i], packets[i + 1], indices[i + 1], items[i]);
    NameRoundTrip(packets[i], indices[i], items[i].strings);
    if Reach(packets[i + 1], indices[i], indices[i]) <= indices[i + 1] {
      BuiltKeeps(packets, indices, items, i + 1, indices[i]);
    }
  }

  // ------------------------------------------------------------------ fields are not names

  lemma {:induction false} IndicesGrow(packets: seq<seq<Byte>>, indices: seq<nat>, items: seq<Item>, a: nat, b: nat)
    requires Built(packets, indices, items) && a <= b <= |items|
    ensures indices[a] <= indices[b]
    decreases b - a
  {
    if a < b {
      IndicesGrow(packets, indices, items, a, b - 1);
      assert Wrote(packets[b - 1], indices[b - 1], packets[b], indices[b], items[b - 1]);
    }
  }

  ghost predicate Growing(indices: seq<nat>) {
    forall a, b | 0 <= a <= b < |indices| :: indices[a] <= indices[b]
  }

  lemma BuiltGrows(packets: seq<seq<Byte>>, indices: seq<nat>, items: seq<Item>)
    requires Built(packets, indices, items)
    ensures Growing(indices)
  {
    forall a, b | 0 <= a <= b < |indices| ensures indices[a] <= indices[b] {
      IndicesGrow(packets, indices, items, a, b);
    }
  }

  /** Byte x belongs to one of the first k items, and that is a name. */
  ghost predicate IsNameByte(indices: seq<nat>, items: seq<Item>, k: nat, x: nat)
    requires k <= |items| < |indices|
  {
    exists m :: 0 <= m < k && items[m].NameItem? && indices[m] <= x < indices[m + 1]
  }

  /** The patch sets a field in the header, or one within other bytes that were appended before. */
  ghost predicate IsFieldPatch(indices: seq<nat>, items: seq<Item>, k: nat)
    requires k < |items| < |indices|
  {
    items[k].PatchItem? ==>
      || items[k].at + |items[k].value| <= indices[0]
      || exists m :: 0 <= m < k && items[m].RawItem? && indices[m] <= items[k].at
                     && items[k].at + |items[k].value| <= indices[m + 1]
  }

  lemma FieldIsNoName(indices: seq<nat>, items: seq<Item>, k: nat, n: nat, x: nat)
    requires Growing(indices) && k < |items| < |indices| && IsFieldPatch(indices, items, k) && items[k].PatchItem?
    requires items[k].at <= x < items[k].at + |items[k].value| && n <= |items|
    ensures !IsNameByte(indices, items, n, x)
  {
    forall m | 0 <= m < n && items[m].NameItem? ensures !(indices[m] <= x < indices[m + 1]) {
      if items[k].at + |items[k].value| > indices[0] {
        var l :| 0 <= l < k && items[l].RawItem? && indices[l] <= items[k].at
                 && items[k].at + |items[k].value| <= indices[l + 1];
        assert l < m ==> indices[l + 1] <= indices[m];
        assert m < l ==> indices[m + 1] <= indices[l];
      }
    }
  }

  // ------------------------------------------------------------------ what a name is read from

  lemma {:induction false} TouchesWire(q: seq<Byte>, start: nat, index: nat, strings: seq<Text>, x: nat)
    requires start <= index && AreLabels(strings) && Holds(q, index, Wire(strings)) && Touches(q, start, index, x)
    ensures index <= x < index + |Wire(strings)| || Touches(q, start, index + |Wire(strings)|, x)
    decreases |strings|
  {
    if strings != [] {
      FirstHeld(q, index, strings);
      HeldPiece(q, index, strings[0]);
      var next := index + |Piece(strings[0])|;
      if x < index || x >= next {
        TouchesWire(q, start, next, strings[1..], x);
      }
    }
  }

  lemma TouchesFull(q: seq<Byte>, index: nat, strings: seq<Text>, x: nat)
    requires AreLabels(strings) && Holds(q, index, Wire(strings) + [0]) && Touches(q, index, index, x)
    ensures index <= x < index + |Wire(strings)| + 1
  {
    HoldsParts(q, index, Wire(strings), [0]);
    TouchesWire(q, index, index, strings, x);
  }

  lemma TouchesPointed(q: seq<Byte>, index: nat, init: seq<Text>, j: nat, x: nat)
    requires Stands(q, index, init, j) && AreLabels(init) && Touches(q, index, index, x)
    ensures index <= x < index + |Wire(init)| + 2 || Touches(q, j, j, x)
  {
    TouchesWire(q, index, index, init, x);
    PointerTarget(q, index + |Wire(init)|, j);
  }

  /** The back-reference of name i, if it has one, is read from names only. */
  ghost predicate RefersToNames(packets: seq<seq<Byte>>, indices: seq<nat>, items: seq<Item>, i: nat)
    requires Built(packets, indices, items) && i < |items| && items[i].NameItem?
    requires indices[i] <= |packets[i]| < ADDRESSABLE
  {
    var p, strings, o := packets[i], items[i].strings, Decide(packets[i], indices[i], items[i].strings, 0);
    o.Points? ==> forall x: nat | Touches(Before(p, indices[i], strings, o.k), o.j, o.j, x) ::
        IsNameByte(indices, items, i, x)
  }

  /** The name that was just written is read from its own bytes and from those that its back-reference is read from. */
  lemma TouchesWritten(p: seq<Byte>, index: nat, q: seq<Byte>, next: nat, strings: seq<Text>, x: nat)
    requires Wrote(p, index, q, next, NameItem(strings)) && SettledName(p, index, strings) && Trusty(p, index, strings)
    requires Touches(q, index, index, x)
    ensures index <= x < next ||
            var o := Decide(p, index, strings, 0); o.Points? && Touches(Before(p, index, strings, o.k), o.j, o.j, x)
  {
    var o := Decide(p, index, strings, 0);
    if o.Ends? {
      PutHolds(p, index, Wire(strings) + [0]);
      TouchesFull(q, index, strings, x);
    } else {
      var b, init := Before(p, index, strings, o.k), strings[..o.k];
      DecidedPointer(p, index, strings, o.k, o.j);
      TouchesPointed(q, index, init, o.j, x);
      AgreeBelowReach(b, q, o.j, o.j, At(index, strings, o.k));
      TouchesSame(b, q, o.j, o.j);
    }
  }

  lemma WrittenIsNameByte(packets: seq<seq<Byte>>, indices: seq<nat>, items: seq<Item>, i: nat, x: nat)
    requires Built(packets, indices, items) && i < |items| && items[i].NameItem?
    requires indices[i] <= |packets[i]| < ADDRESSABLE
    requires SettledName(packets[i], indices[i], items[i].strings) && Trusty(packets[i], indices[i], items[i].strings)
    requires RefersToNames(packets, indices, items, i) && Touches(packets[i + 1], indices[i], indices[i], x)
    ensures IsNameByte(indices, items, i + 1, x)
  {
    assert Wrote(packets[i], indices[i], packets[i + 1], indices[i + 1], items[i]);
    TouchesWritten(packets[i], indices[i], packets[i + 1], indices[i + 1], items[i].strings, x);
    if !(indices[i] <= x < indices[i + 1]) {
      var m :| 0 <= m < i && items[m].NameItem? && indices[m] <= x < indices[m + 1];
    }
  }

  lemma FieldsSpareName(packets: seq<seq<Byte>>, indices: seq<nat>, items: seq<Item>, i: nat, k: nat)
    requires Built(packets, indices, items) && i < k < |items| && items[i].NameItem?
    requires indices[i] <= |packets[i]| < ADDRESSABLE
    requires SettledName(packets[i], indices[i], items[i].strings) && Trusty(packets[i], indices[i], items[i].strings)
    requires RefersToNames(packets, indices, items, i) && IsFieldPatch(indices, items, k)
    ensures Spares(items[k], packets[i + 1], indices[i])
  {
    if items[k].PatchItem? {
      var q, s := packets[i + 1], indices[i];
      BuiltGrows(packets, indices, items);
      forall x: nat | Touches(q, s, s, x) ensures x < items[k].at || x >= items[k].at + |items[k].value| {
        WrittenIsNameByte(packets, indices, items, i, x);
        if items[k].at <= x < items[k].at + |items[k].value| {
          FieldIsNoName(indices, items, k, i + 1, x);
        }
      }
    }
  }

  /** In the packets of the responder only fields are patched. Then every trusty name that refers to names reads
      back from the finished packet. */
  lemma FinishedPacketReadsBack(packets: seq<seq<Byte>>, indices: seq<nat>, items: seq<Item>, i: nat)
    requires Built(packets, indices, items) && i < |items| && items[i].NameItem?
    requires indices[i] <= |packets[i]| < ADDRESSABLE
    requires SettledName(packets[i], indices[i], items[i].strings) && Trusty(packets[i], indices[i], items[i].strings)
    requires RefersToNames(packets, indices, items, i) && forall k | 0 <= k < |items| :: IsFieldPatch(indices, items, k)
    ensures Reads(Decode(packets[|items|], indices[i], indices[i], 0), items[i].strings, indices[i + 1])
  {
    forall k | i + 1 <= k < |items| ensures Spares(items[k], packets[i + 1], indices[i]) {
      FieldsSpareName(packets, indices, items, i, k);
    }
    EveryNameReadsBack(packets, indices, items, i);
  }

  // ------------------------------------------------------------------ from names to their parts

  /** The last thing read is a label and not a pointer to the end of a name. */
  predicate LabelLast(ts: seq<Token>) {
    ts != [] && ts[|ts| - 1].Label?
  }

  /** At index stands the name of this form in the domain local, up to the case of letters, and it is parsed as such. */
  ghost predicate ParsesAs(p: seq<Byte>, index: nat, f: Form) {
    exists g, domain ::
      SameForm(f, g) && CaseEqual(domain, LOCAL) && Parsed(p, index) == Some(Meaning(g, domain))
  }

  lemma ReadNameParses(p: seq<Byte>, index: nat, f: Form, next: nat)
    requires Spellable(f) && Reads(Decode(p, index, index, 0), Spell(f) + [LOCAL], next) && LabelLast(Tokens(p, index))
    ensures ParsesAs(p, index, f)
  {
    ParseInverts(f, Tokens(p, index));
  }

  predicate EndsWell(d: Option<Decoding>) {
    d.Some? && (d.value.tokens == [] || LabelLast(d.value.tokens))
  }

  lemma EndsWellNext(t: Text, d: Option<Decoding>)
    requires EndsWell(d)
    ensures EndsWell(Prepend([Label(t)], d)) && Prepend([Label(t)], d).value.tokens != []
  {
    var ts := [Label(t)] + d.value.tokens;
    assert d.value.tokens != [] ==> ts[|ts| - 1] == d.value.tokens[|d.value.tokens| - 1];
  }

  lemma EndsWellPiece(q: seq<Byte>, start: nat, index: nat, t: Text)
    requires start <= index && IsLabel(t) && Holds(q, index, Piece(t))
    requires EndsWell(Decode(q, start, index + |Piece(t)|, 0))
    ensures var d := Decode(q, start, index, 0); EndsWell(d) && d.value.tokens != []
  {
    DecodePiece(q, start, index, t);
    EndsWellNext(Stored(t), Decode(q, start, index + |Piece(t)|, 0));
  }

  lemma {:induction false} EndsWellWire(q: seq<Byte>, start: nat, index: nat, strings: seq<Text>)
    requires start <= index && AreLabels(strings) && Holds(q, index, Wire(strings))
    requires EndsWell(Decode(q, start, index + |Wire(strings)|, 0))
    ensures EndsWell(Decode(q, start, index, 0))
    decreases |strings|
  {
    if strings != [] {
      FirstHeld(q, index, strings);
      EndsWellWire(q, start, index + |Piece(strings[0])|, strings[1..]);
      EndsWellPiece(q, start, index, strings[0]);
    }
  }

  lemma PieceLabelLast(q: seq<Byte>, index: nat, t: Text)
    requires IsLabel(t) && Holds(q, index, Piece(t)) && EndsWell(Decode(q, index, index + |Piece(t)|, 0))
    ensures LabelLast(Tokens(q, index))
  {
    EndsWellPiece(q, index, index, t);
  }

  lemma LabelLastWire(q: seq<Byte>, index: nat, strings: seq<Text>)
    requires AreLabels(strings) && Holds(q, index, Wire(strings))
    requires var d := Decode(q, index, index + |Wire(strings)|, 0);
             EndsWell(d) && (strings != [] || d.value.tokens != [])
    ensures LabelLast(Tokens(q, index))
  {
    if strings != [] {
      FirstHeld(q, index, strings);
      EndsWellWire(q, index, index + |Piece(strings[0])|, strings[1..]);
      PieceLabelLast(q, index, strings[0]);
    }
  }

  /** That is so for every name that was written, if it is so for its back-reference. */
  lemma WrittenEndsInLabel(p: seq<Byte>, index: nat, strings: seq<Text>)
    requires AreCStrings(strings) && strings != [] && index <= |p| < ADDRESSABLE
    requires SettledName(p, index, strings) && Trusty(p, index, strings)
    requires var o := Decide(p, index, strings, 0); o.Points? ==> LabelLast(Tokens(Before(p, index, strings, o.k), o.j))
    ensures var bytes := Bytes(strings, Decide(p, index, strings, 0));
            index + |bytes| <= |p| && LabelLast(Tokens(Put(p, index, bytes), index))
  {
    var o := Decide(p, index, strings, 0);
    BytesFit(p, index, strings);
    if o.Ends? {
      FullEndsInLabel(p, index, strings);
    } else {
      DecidedPointer(p, index, strings, o.k, o.j);
      PointedEndsInLabel(Before(p, index, strings, o.k), Put(p, index, Bytes(strings, o)), index, strings[..o.k], o.j);
    }
  }

  lemma FullEndsInLabel(p: seq<Byte>, index: nat, strings: seq<Text>)
    requires AreLabels(strings) && strings != [] && index + |Wire(strings)| + 1 <= |p|
    ensures LabelLast(Tokens(Put(p, index, Wire(strings) + [0]), index))
  {
    PutHolds(p, index, Wire(strings) + [0]);
    HoldsParts(Put(p, index, Wire(strings) + [0]), index, Wire(strings), [0]);
    LabelLastWire(Put(p, index, Wire(strings) + [0]), index, strings);
  }

  lemma PointedEndsInLabel(b: seq<Byte>, q: seq<Byte>, index: nat, init: seq<Text>, j: nat)
    requires Stands(q, index, init, j) && AreLabels(init) && j < index && SameBelow(b, q, index + |Wire(init)|)
    requires Settled(b, index + |Wire(init)|, j) && Decode(b, j, j, 0).Some? && LabelLast(Tokens(b, j))
    requires Jumps(Tokens(b, j)) < MAX_COMPRESSION_DEPTH
    ensures LabelLast(Tokens(q, index))
  {
    FoundAgain(b, q, j, index + |Wire(init)|);
    JumpEndsWell(q, index, index + |Wire(init)|, j, Tokens(b, j));
    LabelLastWire(q, index, init);
  }

  lemma JumpEndsWell(q: seq<Byte>, index: nat, at: nat, j: nat, ts: seq<Token>)
    requires j < index <= at && j < ADDRESSABLE && Holds(q, at, Pointer(j)) && LabelLast(ts)
    requires Decode(q, j, j, 1).Some? && Decode(q, j, j, 1).value.tokens == ts
    ensures EndsWell(Decode(q, index, at, 0)) && Decode(q, index, at, 0).value.tokens != []
  {
    DecodePointer(q, index, at, j);
    assert ([Jump] + ts)[|ts|] == ts[|ts| - 1];
  }

  /** Written by one device and parsed by another: every trusty name of one of the four kinds comes back from the
      finished packet as its parts, up to the case of letters. */
  lemma FinishedPacketParses(packets: seq<seq<Byte>>, indices: seq<nat>, items: seq<Item>, i: nat, f: Form)
    requires Built(packets, indices, items) && i < |items| && items[i] == NameItem(Spell(f) + [LOCAL]) && Spellable(f)
    requires indices[i] <= |packets[i]| < ADDRESSABLE && SettledName(packets[i], indices[i], items[i].strings)
    requires Trusty(packets[i], indices[i], items[i].strings) && SpareAll(items, i + 1, packets[i + 1], indices[i])
    requires var o := Decide(packets[i], indices[i], items[i].strings, 0);
             o.Points? ==> LabelLast(Tokens(Before(packets[i], indices[i], items[i].strings, o.k), o.j))
    ensures ParsesAs(packets[|items|], indices[i], f)
  {
    assert Wrote(packets[i], indices[i], packets[i + 1], indices[i + 1], items[i]);
    WrittenEndsInLabel(packets[i], indices[i], items[i].strings);
    NameRoundTrip(packets[i], indices[i], items[i].strings);
    BuiltKeeps(packets, indices, items, i + 1, indices[i]);
    ReadNameParses(packets[|items|], indices[i], f, indices[i + 1]);
  }
}
