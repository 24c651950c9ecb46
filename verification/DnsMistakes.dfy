/** Names that append_fqdn writes and that do not read back, in packets as mdns_priv_dispatch_tx_packet and
    mdns_priv_send_bye_subtype of components/mdns/mdns_send.c make them, and what the writer could check. */
module DnsMistakes {
  import opened Common
  import opened Octets
  import opened DnsReader
  import opened DnsWriter
  import opened DnsRoundTrip
  import opened DnsNames

  // ------------------------------------------------------------------ the flags the writer ignores

  lemma {:induction false} FlagsStay(n: Name, ts: seq<Token>)
    requires n.parts <= 4
    ensures n.sub ==> PlaceAll(n, ts).sub
    ensures n.invalid ==> PlaceAll(n, ts).invalid
    decreases |ts|
  {
    if ts != [] {
      FlagsStay(Place(n, ts[0]), ts[1..]);
    }
  }

  /** After the first part the host only grows. */
  lemma {:induction false} HostGrows(n: Name, ts: seq<Token>)
    requires 1 <= n.parts <= 4 && |n.host| < NAME_BUF_LEN
    ensures |n.host| <= |PlaceAll(n, ts).host| < NAME_BUF_LEN
    decreases |ts|
  {
    if ts != [] {
      HostGrows(Place(n, ts[0]), ts[1..]);
    }
  }

  lemma PlaceKeepsCount(n: Name, t: Token)
    requires 1 <= n.parts <= 4 && |n.host| < NAME_BUF_LEN - 1
    requires !Place(n, t).sub && !Place(n, t).invalid && |Place(n, t).host| == |n.host|
    ensures Place(n, t).parts == n.parts + if t.Label? then 1 else 0
  {
  }

  /** Without flags and with the host unchanged, every label is a part. */
  lemma {:induction false} UnflaggedCount(n: Name, ts: seq<Token>)
    requires 1 <= n.parts <= 4 && |n.host| < NAME_BUF_LEN - 1
    requires var r := PlaceAll(n, ts); !r.sub && !r.invalid && |r.host| == |n.host|
    ensures PlaceAll(n, ts).parts == n.parts + |Labels(ts)|
    decreases |ts|
  {
    if ts != [] {
      var m := Place(n, ts[0]);
      FlagsStay(m, ts[1..]);
      assert |m.host| < NAME_BUF_LEN && |m.host| >= |n.host|;
      HostGrows(m, ts[1..]);
      PlaceKeepsCount(n, ts[0]);
      UnflaggedCount(m, ts[1..]);
    }
  }

  lemma FirstToken(p: seq<Byte>, j: nat, t: Text)
    requires IsLabel(t) && j + 1 + |t| <= |p| && p[j] == |t| && p[j + 1..j + 1 + |t|] == t
    requires Decode(p, j, j, 0).Some?
    ensures Tokens(p, j) != [] && Tokens(p, j)[0] == Label(t)
  {
  }

  /** If the writer looked at the sub and invalid flags of the name it found, it would only accept
      names that have exactly the wanted labels. */
  lemma UnflaggedHasWantedLabels(b: seq<Byte>, j: nat, rest: seq<Text>)
    requires rest != [] && IsLabel(rest[0]) && Accepts(b, j, rest)
    requires var n := PlaceAll(EMPTY, Tokens(b, j)); !n.sub && !n.invalid
    ensures |Labels(Tokens(b, j))| == |rest|
  {
    var ts := Tokens(b, j);
    FirstToken(b, j, rest[0]);
    var n := Place(EMPTY, ts[0]);
    FlagsStay(n, ts[1..]);
    assert n.host == rest[0] && n.parts == 1;
    assert CaseEqual(rest[0], Field(PlaceAll(EMPTY, ts), 0));
    UnflaggedCount(n, ts[1..]);
  }

  // ------------------------------------------------------------------ the header

  const HEAD_LEN := 12

  /** The header while names are appended: the flags are those of a response or none, a count has a zero in front, and
      the last count is not set yet. */
  predicate IsHeader(p: seq<Byte>) {
    && |p| >= HEAD_LEN && (p[2] == 0x84 || p[2] == 0) && p[3] == 0
    && p[4] == 0 && p[6] == 0 && p[8] == 0 && p[10] == 0 && p[11] == 0
  }

  ghost predicate NoneBefore(p: seq<Byte>, at: nat, strings: seq<Text>)
    requires strings != []
  {
    forall j: nat | j < at :: !Accepts(p, j, strings)
  }

  lemma ZeroIsNoName(p: seq<Byte>, j: nat, strings: seq<Text>)
    requires j < |p| && p[j] == 0 && strings != []
    ensures !Accepts(p, j, strings)
  {
  }

  lemma ZeroAfterIsNoName(p: seq<Byte>, j: nat, strings: seq<Text>)
    requires j + 1 < |p| && p[j + 1] == 0 && strings != [] && IsCString(strings[0])
    ensures !Accepts(p, j, strings)
  {
    if p[j] != 0 {
      var first := Stored(strings[0]);
      assert j + 1 + |first| <= |p| && |first| > 0 ==> p[j + 1..j + 1 + |first|][0] == 0;
    } else {
      ZeroIsNoName(p, j, strings);
    }
  }

  /** One short label and a NUL. */
  lemma ShortIsNoName(p: seq<Byte>, j: nat, n: nat, strings: seq<Text>)
    requires j + 1 + n < |p| && p[j] == n && 1 <= n <= 2 && p[j + 1 + n] == 0
    requires strings != [] && |strings[|strings| - 1]| >= 3
    ensures !Accepts(p, j, strings)
  {
    var t := p[j + 1..j + 1 + n];
    var ts := [Label(t)];
    assert Decode(p, j, j + 1 + n, 0) == Some(Decoding([], j + 2 + n));
    assert [Label(t)] + [] == ts;
    assert Decode(p, j, j, 0) == Some(Decoding(ts, j + 2 + n));
    var r := PlaceAll(EMPTY, ts);
    assert [] + ts == ts;
    PlaceOne(EMPTY, [], EMPTY, ts[0]);
    if r.parts == |strings| {
      assert |strings| == 1 && |Field(r, 0)| <= 2;
      assert !CaseEqual(strings[0], Field(r, 0));
    }
  }

  /** Nothing in the header is taken for a name that ends in a label like local. */
  lemma HeaderHoldsNoName(p: seq<Byte>, j: nat, strings: seq<Text>)
    requires IsHeader(p) && j < HEAD_LEN && strings != [] && IsCString(strings[0]) && |strings[|strings| - 1]| >= 3
    ensures !Accepts(p, j, strings)
  {
    if p[j] == 0 {
      ZeroIsNoName(p, j, strings);
    } else if p[j + 1] == 0 {
      ZeroAfterIsNoName(p, j, strings);
    } else {
      StartHoldsNoName(p, j, strings);
    }
  }

  lemma StartHoldsNoName(p: seq<Byte>, j: nat, strings: seq<Text>)
    requires IsHeader(p) && j < 2 && p[j] != 0 && strings != [] && IsCString(strings[0])
    requires |strings[|strings| - 1]| >= 3
    ensures !Accepts(p, j, strings)
  {
    var n, first := p[j], Stored(strings[0]);
    if n > 2 - j {
      // The label would have the NUL at 3 in it.
      assert j + 1 + |first| <= |p| && n == |first| ==> p[j + 1..j + 1 + |first|][2 - j] == 0;
    } else if p[j + 1 + n] == 0 {
      ShortIsNoName(p, j, n, strings);
    } else {
      // A length of 0x84 is none.
      assert j + 1 + n == 2;
      assert Decode(p, j, 2, 0).None?;
    }
  }

  lemma HeaderHasNone(p: seq<Byte>, strings: seq<Text>)
    requires IsHeader(p) && strings != [] && IsCString(strings[0]) && |strings[|strings| - 1]| >= 3
    ensures NoneBefore(p, HEAD_LEN, strings)
  {
    forall j: nat | j < HEAD_LEN ensures !Accepts(p, j, strings) {
      HeaderHoldsNoName(p, j, strings);
    }
  }

  // ------------------------------------------------------------------ the first accepted place

  lemma FindsFirst(p: seq<Byte>, index: nat, strings: seq<Text>, at: nat)
    requires strings != [] && at < index <= |p| && NoneBefore(p, at, strings) && Accepts(p, at, strings)
    ensures FindName(p, index, strings, 0) == Some(at)
  {
    FindNameIsFirst(p, index, strings, 0, at);
  }

  lemma FindsNone(p: seq<Byte>, index: nat, strings: seq<Text>)
    requires strings != [] && index <= |p| && NoneBefore(p, index, strings)
    ensures FindName(p, index, strings, 0) == None
  {
  }

  lemma NothingWritten(p: seq<Byte>, index: nat, strings: seq<Text>)
    requires index <= |p|
    ensures At(index, strings, 0) == index && Before(p, index, strings, 0) == p && strings[0..] == strings
  {
    assert strings[..0] == [] && Put(p, index, []) == p;
  }

  lemma PointsAtOnce(p: seq<Byte>, index: nat, strings: seq<Text>, at: nat)
    requires strings != [] && at < index && index + 2 <= |p| < ADDRESSABLE
    requires NoneBefore(p, at, strings) && Accepts(p, at, strings)
    ensures Decide(p, index, strings, 0) == Points(0, at)
    ensures WrotePointer(p, Put(p, index, Pointer(at)), index, [], strings, at)
  {
    NothingWritten(p, index, strings);
    FindsFirst(p, index, strings, at);
    PutPointer(p, index, [], at);
    assert Wire([]) + Pointer(at) == Pointer(at) && Put(p, index, []) == p;
  }

  lemma WrongNumber(p: seq<Byte>, q: seq<Byte>, index: nat, strings: seq<Text>, at: nat)
    requires WrotePointer(p, q, index, [], strings, at) && Settled(p, index, at)
    requires |Labels(Tokens(p, at))| != |strings|
    ensures !Reads(Decode(q, index, index, 0), strings, index + 2)
  {
    PointerRoundTrip(p, q, index, [], strings, at);
    assert [] + strings == strings;
  }

  /** A name with another number of labels that is accepted first: what is written reads back wrong. */
  lemma ExtraLabelsAreMistaken(p: seq<Byte>, index: nat, strings: seq<Text>, at: nat)
    requires strings != [] && at < index && index + 2 <= |p| < ADDRESSABLE && NoneBefore(p, at, strings)
    requires Accepts(p, at, strings) && Reach(p, at, at) <= index && |Labels(Tokens(p, at))| != |strings|
    ensures Decide(p, index, strings, 0) == Points(0, at)
    ensures !Reads(Decode(Put(p, index, Pointer(at)), index, index, 0), strings, index + 2)
  {
    PointsAtOnce(p, index, strings, at);
    WrongNumber(p, Put(p, index, Pointer(at)), index, strings, at);
  }

  // ------------------------------------------------------------------ a subtype called like the instance

  lemma LocalIsLabel()
    ensures IsLabel(LOCAL) && IsLabel(SUB) && CaseEqual(LOCAL, LOCAL) && CaseEqual(SUB, SUB)
  {
  }

  /** The two names of append_subtype_ptr_record, when the instance is called like the subtype. */
  function SubtypeName(t: Text, s: Text, r: Text): (ss: seq<Text>) {
    [t, SUB, s, r, LOCAL]
  }

  function InstanceName(t: Text, s: Text, r: Text): (ss: seq<Text>) {
    [t, s, r, LOCAL]
  }

  predicate IsService(t: Text, s: Text, r: Text) {
    IsLabel(t) && IsLabel(s) && IsLabel(r) && !CaseEqual(t, SUB) && Underscored(s) && !CaseEqual(r, SUB)
  }

  lemma PlaceSubtypeName(t: Text, s: Text, r: Text)
    requires IsService(t, s, r)
    ensures PlaceTexts(EMPTY, SubtypeName(t, s, r)) == Name(t, s, r, LOCAL, 4, true, false)
  {
    LocalIsLabel();
    var n := EMPTY.(host := t, parts := 1);
    assert SubtypeName(t, s, r) == [t] + ([SUB] + [s, r, LOCAL]);
    PlacePart(EMPTY, t, [SUB] + [s, r, LOCAL]);
    PlaceSub(n, SUB, [s, r, LOCAL]);
    PlaceTail(n.(sub := true), s, r, LOCAL);
  }

  lemma FiveLabels(a: Text, b: Text, c: Text, d: Text, e: Text)
    requires IsLabel(a) && IsLabel(b) && IsLabel(c) && IsLabel(d) && IsLabel(e)
    ensures AreLabels([a, b, c, d, e]) && AreLabels([b, c, d, e])
  {
    var five: seq<Text>, four: seq<Text>, three: seq<Text>, two: seq<Text>, one: seq<Text> :=
      [a, b, c, d, e], [b, c, d, e], [c, d, e], [d, e], [e];
    assert one[1..] == [] && two[1..] == one && three[1..] == two && four[1..] == three && five[1..] == four;
    assert AreLabels(one) && AreLabels(two) && AreLabels(three);
  }

  lemma FirstStands(p: seq<Byte>, at: nat, strings: seq<Text>)
    requires strings != [] && IsLabel(strings[0]) && Holds(p, at, Wire(strings) + [0])
    ensures var first := strings[0];
            at + 1 + |first| <= |p| && p[at] == |first| && p[at + 1..at + 1 + |first|] == first
  {
    HoldsParts(p, at, Wire(strings), [0]);
    FirstHeld(p, at, strings);
    HeldPiece(p, at, strings[0]);
  }

  lemma SubtypeReads(p: seq<Byte>, at: nat, t: Text, s: Text, r: Text)
    requires IsService(t, s, r) && Holds(p, at, Wire(SubtypeName(t, s, r)) + [0])
    ensures Decode(p, at, at, 0).Some? && |Labels(Tokens(p, at))| == 5
    ensures PlaceAll(EMPTY, Tokens(p, at)) == Name(t, s, r, LOCAL, 4, true, false)
  {
    LocalIsLabel();
    FiveLabels(t, SUB, s, r, LOCAL);
    LabelsOfWire(p, at, at, SubtypeName(t, s, r));
    PlaceLabelTokens(EMPTY, SubtypeName(t, s, r));
    LabelsOfTokens(SubtypeName(t, s, r));
    PlaceSubtypeName(t, s, r);
  }

  lemma FourFields(p: seq<Byte>, at: nat, t: Text, s: Text, r: Text)
    requires Decode(p, at, at, 0).Some? && PlaceAll(EMPTY, Tokens(p, at)) == Name(t, s, r, LOCAL, 4, true, false)
    ensures SameName(p, at, InstanceName(t, s, r))
  {
    var n, four := PlaceAll(EMPTY, Tokens(p, at)), InstanceName(t, s, r);
    forall i | 0 <= i < 4 ensures CaseEqual(four[i], Field(n, i)) {
      assert four[i] == Field(n, i);
    }
  }

  lemma SubtypeIsAccepted(p: seq<Byte>, at: nat, t: Text, s: Text, r: Text)
    requires IsService(t, s, r) && Holds(p, at, Wire(SubtypeName(t, s, r)) + [0])
    ensures Accepts(p, at, InstanceName(t, s, r))
  {
    SubtypeReads(p, at, t, s, r);
    FourFields(p, at, t, s, r);
    FirstStands(p, at, SubtypeName(t, s, r));
  }

  lemma MistakenBehind(p: seq<Byte>, at: nat, full: seq<Text>, strings: seq<Text>, index: nat)
    requires AreLabels(full) && Holds(p, at, Wire(full) + [0]) && index == at + |Wire(full)| + 11
    requires index + 2 <= |p| < ADDRESSABLE && strings != [] && NoneBefore(p, at, strings) && Accepts(p, at, strings)
    requires |Labels(Tokens(p, at))| != |strings|
    ensures Decide(p, index, strings, 0) == Points(0, at)
    ensures !Reads(Decode(Put(p, index, Pointer(at)), index, index, 0), strings, index + 2)
  {
    FullNameReach(p, at, full);
    ExtraLabelsAreMistaken(p, index, strings, at);
  }

  /** Such a name, and what is asked of the place where it stands. */
  lemma SubtypeFacts(p: seq<Byte>, at: nat, t: Text, s: Text, r: Text, five: seq<Text>, four: seq<Text>)
    requires IsService(t, s, r) && five == SubtypeName(t, s, r) && four == InstanceName(t, s, r)
    requires Holds(p, at, Wire(five) + [0])
    ensures AreLabels(five) && four != [] && Accepts(p, at, four) && |Labels(Tokens(p, at))| != |four|
  {
    LocalIsLabel();
    FiveLabels(t, SUB, s, r, LOCAL);
    SubtypeIsAccepted(p, at, t, s, r);
    SubtypeReads(p, at, t, s, r);
  }

  /** In every packet: behind the full name of a subtype and the ten fixed bytes of its PTR record, the name of the
      instance called like the subtype is written as a pointer to the subtype, and so does not read back. */
  lemma SubtypeIsMistaken(p: seq<Byte>, at: nat, t: Text, s: Text, r: Text, five: seq<Text>, four: seq<Text>,
                          index: nat)
    requires IsService(t, s, r) && five == SubtypeName(t, s, r) && four == InstanceName(t, s, r)
    requires Holds(p, at, Wire(five) + [0]) && index == at + |Wire(five)| + 11 && index + 2 <= |p| < ADDRESSABLE
    requires NoneBefore(p, at, four)
    ensures Decide(p, index, four, 0) == Points(0, at)
    ensures !Reads(Decode(Put(p, index, Pointer(at)), index, index, 0), four, index + 2)
  {
    SubtypeFacts(p, at, t, s, r, five, four);
    MistakenBehind(p, at, five, four, index);
  }

  lemma FullNameReach(p: seq<Byte>, at: nat, strings: seq<Text>)
    requires AreLabels(strings) && Holds(p, at, Wire(strings) + [0])
    ensures Reach(p, at, at) == at + |Wire(strings)| + 1
  {
    HoldsParts(p, at, Wire(strings), [0]);
    ReachWire(p, at, at, strings);
  }

  /** In particular in the goodbye of a subtype, whose record is the first in its packet: p is what the header was put
      into, to which the name of the subtype, where the writer finds nothing to point to, and ten bytes are added. */
  lemma GoodbyeIsMistaken(p: seq<Byte>, ten: seq<Byte>, t: Text, s: Text, r: Text, five: seq<Text>, four: seq<Text>,
                          index: nat)
    requires IsService(t, s, r) && five == SubtypeName(t, s, r) && four == InstanceName(t, s, r)
    requires IsHeader(p) && |ten| == 10 && index == HEAD_LEN + |Wire(five)| + 11 && index + 2 <= |p| < ADDRESSABLE
    requires Decide(p, HEAD_LEN, five, 0) == Ends
    ensures var q := Put(p, HEAD_LEN, Bytes(five, Decide(p, HEAD_LEN, five, 0)) + ten);
            && Decide(q, index, four, 0) == Points(0, HEAD_LEN)
            && !Reads(Decode(Put(q, index, Pointer(HEAD_LEN)), index, index, 0), four, index + 2)
  {
    var q := Put(p, HEAD_LEN, Wire(five) + [0] + ten);
    PutHolds(p, HEAD_LEN, Wire(five) + [0] + ten);
    HoldsParts(q, HEAD_LEN, Wire(five) + [0], ten);
    HeaderHasNone(q, four);
    SubtypeIsMistaken(q, HEAD_LEN, t, s, r, five, four, index);
  }

  // ------------------------------------------------------------------ a host called local

  /** The name of the host "local", as the A record and the probe of such a host have it. */
  const LOCAL_HOST: seq<Text> := [LOCAL, LOCAL]

  lemma LocalDecodes(q: seq<Byte>, index: nat)
    requires index + 7 <= |q| && Holds(q, index, Piece(LOCAL)) && q[index + 6] == 0
    ensures Decode(q, index, index, 0) == Some(Decoding([Label(LOCAL)], index + 7))
  {
    LocalIsLabel();
    DecodePiece(q, index, index, LOCAL);
    assert [Label(LOCAL)] + [] == [Label(LOCAL)];
  }

  lemma LocalPlaces()
    ensures PlaceAll(EMPTY, [Label(LOCAL)]) == EMPTY.(host := LOCAL, parts := 1)
  {
    LocalIsLabel();
    LocalIsPlaced(LOCAL);
    assert [] + [Label(LOCAL)] == [Label(LOCAL)] && CString(LOCAL) == LOCAL;
    PlaceOne(EMPTY, [], EMPTY, Label(LOCAL));
  }

  lemma LocalStands(q: seq<Byte>, index: nat)
    requires index + 7 <= |q| && Holds(q, index, Piece(LOCAL)) && q[index + 6] == 0
    ensures Accepts(q, index, [LOCAL])
  {
    LocalIsLabel();
    HeldPiece(q, index, LOCAL);
    LocalDecodes(q, index);
    LocalPlaces();
    assert CaseEqual([LOCAL][0], Field(EMPTY.(host := LOCAL, parts := 1), 0));
  }

  lemma LocalWritten(p: seq<Byte>, index: nat)
    requires index + 6 <= |p|
    ensures At(index, LOCAL_HOST, 1) == index + 6 && Before(p, index, LOCAL_HOST, 1) == Put(p, index, Piece(LOCAL))
    ensures LOCAL_HOST[1..] == [LOCAL]
  {
    var one: seq<Text> := [LOCAL];
    assert LOCAL_HOST[..1] == one && one[1..] == [];
    assert Wire(one) == Piece(LOCAL) + [] == Piece(LOCAL);
  }

  lemma LocalFound(p: seq<Byte>, index: nat)
    requires index + 8 <= |p| && p[index + 6] == 0 && NoneBefore(Put(p, index, Piece(LOCAL)), index, [LOCAL])
    ensures FindName(Put(p, index, Piece(LOCAL)), index + 6, [LOCAL], 0) == Some(index)
  {
    PutHolds(p, index, Piece(LOCAL));
    LocalStands(Put(p, index, Piece(LOCAL)), index);
    FindsFirst(Put(p, index, Piece(LOCAL)), index + 6, [LOCAL], index);
  }

  lemma SelfPointer(p: seq<Byte>, index: nat)
    requires index + 8 <= |p| < ADDRESSABLE
    ensures Decode(Put(p, index, Piece(LOCAL) + Pointer(index)), index, index, 0).None?
  {
    var one: seq<Text> := [LOCAL];
    LocalIsLabel();
    assert one[1..] == [] && Wire(one) == Piece(LOCAL) + [] == Piece(LOCAL);
    PutPointer(p, index, one, index);
    SelfReferenceIsUnreadable(Put(p, index, Piece(LOCAL) + Pointer(index)), index, one, one, index);
  }

  /** In every packet: where a zero stands behind the first label and nothing before is taken for the name, the name of
      this host is written as a pointer to itself, and nothing can read it. */
  lemma LocalHostPointsToItself(p: seq<Byte>, index: nat)
    requires index + 8 <= |p| < ADDRESSABLE && p[index + 6] == 0
    requires NoneBefore(p, index, LOCAL_HOST) && NoneBefore(Put(p, index, Piece(LOCAL)), index, [LOCAL])
    ensures Decide(p, index, LOCAL_HOST, 0) == Points(1, index)
    ensures Decode(Put(p, index, Piece(LOCAL) + Pointer(index)), index, index, 0).None?
  {
    NothingWritten(p, index, LOCAL_HOST);
    FindsNone(p, index, LOCAL_HOST);
    LocalWritten(p, index);
    LocalFound(p, index);
    SelfPointer(p, index);
  }

  /** In particular when it is the first name in a packet. */
  lemma LocalHostFirst(p: seq<Byte>)
    requires IsHeader(p) && HEAD_LEN + 8 <= |p| < ADDRESSABLE && p[HEAD_LEN + 6] == 0
    ensures Decide(p, HEAD_LEN, LOCAL_HOST, 0) == Points(1, HEAD_LEN)
    ensures Decode(Put(p, HEAD_LEN, Piece(LOCAL) + Pointer(HEAD_LEN)), HEAD_LEN, HEAD_LEN, 0).None?
  {
    HeaderHasNone(p, LOCAL_HOST);
    HeaderHasNone(Put(p, HEAD_LEN, Piece(LOCAL)), [LOCAL]);
    LocalHostPointsToItself(p, HEAD_LEN);
  }
}
