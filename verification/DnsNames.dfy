/** append_fqdn of components/mdns/mdns_send.c as a whole: what it decides, and whether that reads back. */
module DnsNames {
  import opened Octets
  import opened DnsReader
  import opened DnsWriter
  import opened DnsRoundTrip

  lemma PutPointer(p: seq<Byte>, index: nat, init: seq<Text>, j: nat)
    requires AreCStrings(init) && j < ADDRESSABLE && index + |Wire(init)| + 2 <= |p|
    ensures var q := Put(p, index, Wire(init) + Pointer(j));
            Stands(q, index, init, j) && SameBelow(Put(p, index, Wire(init)), q, index + |Wire(init)|)
  {
    PutHolds(p, index, Wire(init) + Pointer(j));
    HoldsParts(Put(p, index, Wire(init) + Pointer(j)), index, Wire(init), Pointer(j));
    PutTwice(p, index, Wire(init), Pointer(j));
  }

  lemma DecidedPointer(p: seq<Byte>, index: nat, strings: seq<Text>, k: nat, j: nat)
    requires AreCStrings(strings) && index <= |p| < ADDRESSABLE && Decide(p, index, strings, 0) == Points(k, j)
    ensures k <= |strings| && At(index, strings, k) + 2 <= |p|
    ensures WrotePointer(Before(p, index, strings, k), Put(p, index, Wire(strings[..k]) + Pointer(j)), index,
                         strings[..k], strings[k..], j)
  {
    FirstAreCStrings(strings, k);
    PutPointer(p, index, strings[..k], j);
  }

  /** The back-reference chosen for this name, if any, is settled. */
  ghost predicate SettledName(p: seq<Byte>, index: nat, strings: seq<Text>)
    requires index <= |p| < ADDRESSABLE
  {
    var o := Decide(p, index, strings, 0);
    o.Points? ==> Settled(Before(p, index, strings, o.k), At(index, strings, o.k), o.j)
  }

  /** The strings that are written are labels, and the back-reference is faithful. */
  ghost predicate Trusty(p: seq<Byte>, index: nat, strings: seq<Text>)
    requires index <= |p| < ADDRESSABLE
  {
    var o := Decide(p, index, strings, 0);
    match o
    case Breaks(_) => false
    case Ends => AreLabels(strings)
    case Points(k, j) => AreLabels(strings[..k]) && Faithful(Before(p, index, strings, k), index, strings[k..], j)
  }

  /** What NameRoundTrip says of the packet that the name was written into. */
  ghost predicate RoundTrip(q: seq<Byte>, index: nat, strings: seq<Text>, end: nat, trusty: bool) {
    && (Reads(Decode(q, index, index, 0), strings, end) <==> trusty)
    && (trusty ==> Reach(q, index, index) == end)
  }

  lemma FullName(p: seq<Byte>, index: nat, strings: seq<Text>)
    requires AreCStrings(strings) && index + |Wire(strings)| + 1 <= |p|
    ensures RoundTrip(Put(p, index, Wire(strings) + [0]), index, strings, index + |Wire(strings)| + 1,
                      AreLabels(strings))
  {
    PutHolds(p, index, Wire(strings) + [0]);
    FullNameRoundTrip(Put(p, index, Wire(strings) + [0]), index, strings);
  }

  lemma PointedName(b: seq<Byte>, q: seq<Byte>, index: nat, strings: seq<Text>, init: seq<Text>, rest: seq<Text>,
                    j: nat)
    requires WrotePointer(b, q, index, init, rest, j) && Settled(b, index + |Wire(init)|, j) && strings == init + rest
    ensures RoundTrip(q, index, strings, index + |Wire(init)| + 2, AreLabels(init) && Faithful(b, index, rest, j))
  {
    PointerRoundTrip(b, q, index, init, rest, j);
    if AreLabels(init) && Faithful(b, index, rest, j) {
      FoundAgain(b, q, j, index + |Wire(init)|);
      PointerReach(q, index, init, j);
    }
  }

  lemma DecidedWrote(p: seq<Byte>, index: nat, strings: seq<Text>, k: nat, j: nat, init: seq<Text>, rest: seq<Text>,
                     b: seq<Byte>, q: seq<Byte>)
    requires AreCStrings(strings) && index <= |p| < ADDRESSABLE && Decide(p, index, strings, 0) == Points(k, j)
    requires init == strings[..k] && rest == strings[k..] && b == Before(p, index, strings, k)
    requires q == Put(p, index, Wire(init) + Pointer(j))
    ensures WrotePointer(b, q, index, init, rest, j)
  {
    DecidedPointer(p, index, strings, k, j);
  }

  lemma BytesFit(p: seq<Byte>, index: nat, strings: seq<Text>)
    requires index <= |p| < ADDRESSABLE && !Decide(p, index, strings, 0).Breaks?
    ensures index + |Bytes(strings, Decide(p, index, strings, 0))| <= |p|
  {
    assert strings[..|strings|] == strings;
  }

  /** Whatever append_fqdn decides for a name that fits: it reads back if and only if it is trusty. */
  lemma NameRoundTrip(p: seq<Byte>, index: nat, strings: seq<Text>)
    requires AreCStrings(strings) && index <= |p| < ADDRESSABLE && !Decide(p, index, strings, 0).Breaks?
    requires SettledName(p, index, strings)
    ensures var bytes := Bytes(strings, Decide(p, index, strings, 0));
            && index + |bytes| <= |p|
            && RoundTrip(Put(p, index, bytes), index, strings, index + |bytes|, Trusty(p, index, strings))
  {
    var o := Decide(p, index, strings, 0);
    BytesFit(p, index, strings);
    if o.Ends? {
      FullName(p, index, strings);
    } else {
      var init, rest, b := strings[..o.k], strings[o.k..], Before(p, index, strings, o.k);
      var q := Put(p, index, Wire(init) + Pointer(o.j));
      DecidedWrote(p, index, strings, o.k, o.j, init, rest, b, q);
      PointedName(b, q, index, strings, init, rest, o.j);
    }
  }
}
