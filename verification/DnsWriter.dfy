/** Writing compressed DNS names: append_fqdn of components/mdns/mdns_send.c. */
module DnsWriter {
  import opened Common
  import opened Octets
  import opened DnsReader

  /** Packets that pointers can address; MDNS_MAX_PACKET_SIZE, 1460, is well below. */
  const ADDRESSABLE := 0x4000

  function Put(p: seq<Byte>, index: nat, bytes: seq<Byte>): (r: seq<Byte>)
    requires index + |bytes| <= |p|
    ensures |r| == |p|
    ensures forall i | 0 <= i < |p| :: r[i] == if index <= i < index + |bytes| then bytes[i - index] else p[i]
  {
    p[..index] + bytes + p[index + |bytes|..]
  }

  lemma PutTwice(p: seq<Byte>, index: nat, a: seq<Byte>, b: seq<Byte>)
    requires index + |a| + |b| <= |p|
    ensures Put(Put(p, index, a), index + |a|, b) == Put(p, index, a + b)
    ensures SameBelow(Put(p, index, a), Put(p, index, a + b), index + |a|)
  {
  }

  // ------------------------------------------------------------------ the bytes of a name

  /** The length of a string is kept in one byte, and so many of its bytes are used. */
  function Stored(t: Text): (r: Text)
    ensures |r| < 256 && |r| <= |t| && r == t[..|r|]
  {
    if |t| < 256 then t else t[..|t| % 256]
  }

  function Piece(t: Text): (r: seq<Byte>) {
    [|Stored(t)|] + Stored(t)
  }

  function Wire(strings: seq<Text>): (r: seq<Byte>) {
    if strings == [] then [] else Piece(strings[0]) + Wire(strings[1..])
  }

  function Pointer(j: nat): (r: seq<Byte>)
    requires j < ADDRESSABLE
  {
    [0xC0 + j / 256, j % 256]
  }

  lemma {:induction false} WireAppend(a: seq<Text>, b: seq<Text>)
    ensures Wire(a + b) == Wire(a) + Wire(b)
  {
    if a == [] {
      assert a + b == b;
    } else {
      assert (a + b)[1..] == a[1..] + b;
      WireAppend(a[1..], b);
    }
  }

  lemma WireSnoc(strings: seq<Text>, k: nat)
    requires k < |strings|
    ensures Wire(strings[..k + 1]) == Wire(strings[..k]) + Piece(strings[k])
  {
    var last: seq<Text> := [strings[k]];
    assert strings[..k + 1] == strings[..k] + last;
    WireAppend(strings[..k], last);
    assert last[1..] == [];
  }

  // ------------------------------------------------------------------ the search for a back-reference

  /** The name read at j has the requested parts, as far as the writer checks. */
  predicate SameName(p: seq<Byte>, j: nat, strings: seq<Text>) {
    match Decode(p, j, j, 0)
    case None => false
    case Some(d) =>
      var n := PlaceAll(EMPTY, d.tokens);
      n.parts == |strings| && forall i | 0 <= i < n.parts :: CaseEqual(strings[i], Field(n, i))
  }

  /** The writer would point to j for these labels. */
  predicate Accepts(p: seq<Byte>, j: nat, strings: seq<Text>)
    requires strings != []
  {
    var first := Stored(strings[0]);
    var end := j + 1 + |first|;
    end <= |p| && p[j] == |first| && p[j + 1..end] == first && SameName(p, j, strings)
  }

  /** The first accepted place from j on. */
  function FindName(p: seq<Byte>, index: nat, strings: seq<Text>, j: nat): (r: Option<nat>)
    requires strings != [] && j <= index <= |p|
    ensures r.Some? ==> j <= r.value < index && Accepts(p, r.value, strings)
    decreases index - j
  {
    if j == index then None
    else if Accepts(p, j, strings) then Some(j)
    else FindName(p, index, strings, j + 1)
  }

  /** Nothing acceptable is passed over. */
  lemma {:induction false} FindNameIsFirst(p: seq<Byte>, index: nat, strings: seq<Text>, j: nat, i: nat)
    requires strings != [] && j <= i < index <= |p| && Accepts(p, i, strings)
    ensures FindName(p, index, strings, j).Some? && FindName(p, index, strings, j).value <= i
    decreases index - j
  {
    if j < i && !Accepts(p, j, strings) {
      FindNameIsFirst(p, index, strings, j + 1, i);
    }
  }

  /** What append_fqdn decides: k labels and then nothing, a NUL, or a pointer to j. */
  datatype Outcome = Breaks(k: nat) | Ends | Points(k: nat, j: nat)

  /** append_string returns its length in one byte: for 255 bytes that is 0, as for a string that does not fit. */
  predicate Wraps(t: Text) {
    |Piece(t)| == 256
  }

  function At(index: nat, strings: seq<Text>, k: nat): (r: nat)
    requires k <= |strings|
  {
    index + |Wire(strings[..k])|
  }

  /** The packet after the first k labels. */
  function Before(p: seq<Byte>, index: nat, strings: seq<Text>, k: nat): (r: seq<Byte>)
    requires k <= |strings| && At(index, strings, k) <= |p|
    ensures |r| == |p|
  {
    Put(p, index, Wire(strings[..k]))
  }

  /** append_fqdn with k labels already written. */
  function Decide(p: seq<Byte>, index: nat, strings: seq<Text>, k: nat): (o: Outcome)
    requires k <= |strings| && At(index, strings, k) <= |p| < ADDRESSABLE
    ensures o.Breaks? ==> k <= o.k <= |strings|
    ensures o.Points? ==> && k <= o.k < |strings| && At(index, strings, o.k) + 2 <= |p| && o.j < At(index, strings, o.k)
                          && Accepts(Before(p, index, strings, o.k), o.j, strings[o.k..])
    ensures o.Ends? ==> At(index, strings, |strings|) < |p|
    decreases |strings| - k
  {
    var at := At(index, strings, k);
    if k == |strings| then
      if at >= |p| then Breaks(k) else Ends
    else
      match FindName(Before(p, index, strings, k), at, strings[k..], 0)
      case Some(j) => if at + 1 >= |p| then Breaks(k) else Points(k, j)
      case None =>
        if at + |Piece(strings[k])| >= |p| then Breaks(k)
        else if Wraps(strings[k]) then Breaks(k + 1)
        else
          WireSnoc(strings, k);
          Decide(p, index, strings, k + 1)
  }

  /** The bytes that go out for an outcome. */
  function Bytes(strings: seq<Text>, o: Outcome): (r: seq<Byte>)
    requires (!o.Ends? ==> o.k <= |strings|) && (o.Points? ==> o.j < ADDRESSABLE)
  {
    match o
    case Breaks(k) => Wire(strings[..k])
    case Ends => Wire(strings) + [0]
    case Points(k, j) => Wire(strings[..k]) + Pointer(j)
  }

  lemma {:induction false} AtGrows(index: nat, strings: seq<Text>, k: nat)
    requires k < |strings|
    ensures At(index, strings, k) + |Piece(strings[k])| <= At(index, strings, |strings|)
    decreases |strings| - k
  {
    WireSnoc(strings, k);
    if k + 1 < |strings| {
      AtGrows(index, strings, k + 1);
    }
  }

  /** Where there is room for all labels and one byte more, and no string has 255 bytes, the name is finished, with a
      pointer or in full. */
  lemma {:induction false} RoomIsEnough(p: seq<Byte>, index: nat, strings: seq<Text>, k: nat)
    requires k <= |strings| && At(index, strings, |strings|) < |p| < ADDRESSABLE && At(index, strings, k) <= |p|
    requires forall t <- strings :: |t| % 256 != 255
    ensures !Decide(p, index, strings, k).Breaks?
    decreases |strings| - k
  {
    if k < |strings| {
      AtGrows(index, strings, k);
      WireSnoc(strings, k);
      assert strings[k] in strings;
      RoomIsEnough(p, index, strings, k + 1);
    }
  }

  // ------------------------------------------------------------------ the C code

  /** The comparison loop of append_fqdn. */
  method Compare(strings: seq<Text>, name: Name) returns (same: bool)
    requires name.parts <= 4
    ensures same <==> name.parts == |strings| && forall i | 0 <= i < name.parts :: CaseEqual(strings[i], Field(name, i))
  {
    if name.parts != |strings| {
      return false;
    }
    for i := 0 to |strings|
      invariant forall m | 0 <= m < i :: CaseEqual(strings[m], Field(name, m))
    {
      if !CaseEqual(strings[i], Field(name, i)) {
        return false;
      }
    }
    same := true;
  }

  /** The search loop of append_fqdn. */
  method Search(packet: array<Byte>, index: nat, strings: seq<Text>) returns (found: Option<nat>)
    requires strings != [] && index <= packet.Length
    ensures found == FindName(packet[..], index, strings, 0)
  {
    ghost var p := packet[..];
    var first, j := Stored(strings[0]), 0;
    var len := |first|;
    while j < index
      invariant 0 <= j <= index && packet[..] == p
      invariant FindName(p, index, strings, j) == FindName(p, index, strings, 0)
    {
      if j + 1 + len <= packet.Length && packet[j] == len && packet[j + 1..j + 1 + len] == first {
        var content, name := ReadFqdn(packet, j, EMPTY, 0);
        assert packet[..] == p;
        if content.Some? {
          var same := Compare(strings, name);
          if same {
            return Some(j);
          }
        }
      }
      j := j + 1;
    }
    found := None;
  }

  /** Store bytes at index. */
  method Store(packet: array<Byte>, index: nat, bytes: seq<Byte>)
    requires index + |bytes| <= packet.Length
    modifies packet
    ensures packet[..] == Put(old(packet[..]), index, bytes)
  {
    forall i | 0 <= i < |bytes| {
      packet[index + i] := bytes[i];
    }
    assert packet[..] == Put(old(packet[..]), index, bytes);
  }

  /** Nothing to point to: the next label is written out. */
  lemma DecideNext(p: seq<Byte>, index: nat, strings: seq<Text>, k: nat, at: nat)
    requires k < |strings| && at == At(index, strings, k) <= |p| < ADDRESSABLE
    requires FindName(Before(p, index, strings, k), at, strings[k..], 0) == None
    ensures At(index, strings, k + 1) == at + |Piece(strings[k])|
    ensures Decide(p, index, strings, k) ==
            if at + |Piece(strings[k])| >= |p| then Breaks(k)
            else if Wraps(strings[k]) then Breaks(k + 1)
            else Decide(p, index, strings, k + 1)
  {
    WireSnoc(strings, k);
  }

  /** append_string, with a result of one byte */
  method AppendString(packet: array<Byte>, index: nat, t: Text,
                      ghost was: seq<Byte>, ghost start: nat, ghost written: seq<Byte>)
    returns (next: nat, added: nat)
    requires |was| == packet.Length && index == start + |written| <= packet.Length
    requires packet[..] == Put(was, start, written)
    modifies packet
    ensures var piece := Piece(t);
            if index + |piece| >= packet.Length then next == index && added == 0 && packet[..] == old(packet[..])
            else && next == index + |piece| && packet[..] == Put(was, start, written + piece)
                 && if Wraps(t) then added == 0 else added == |piece| > 0
  {
    var piece := Piece(t);
    if index + |piece| >= packet.Length {
      return index, 0;
    }
    Store(packet, index, piece);
    PutTwice(was, start, written, piece);
    next, added := index + |piece|, |piece| % 256;
  }

  /** What append_fqdn has done when it returns: the bytes of its decision are in the packet, and the result counts
      them, but for a label whose own result wrapped to 0. */
  ghost predicate HasWritten(was: seq<Byte>, start: nat, all: seq<Text>, k: nat, packet: seq<Byte>, next: nat,
                             length: nat)
    requires k <= |all| && At(start, all, k) <= |was| < ADDRESSABLE
  {
    var o := Decide(was, start, all, k);
    && next == start + |Bytes(all, o)| <= |was| && packet == Put(was, start, Bytes(all, o))
    && length == next - At(start, all, k) - if o.Breaks? && o.k > k && Wraps(all[o.k - 1]) then 256 else 0
  }

  /** The end of the name, or a pointer: the last bytes, if they fit. */
  method AppendLast(packet: array<Byte>, index: nat, bytes: seq<Byte>,
                    ghost was: seq<Byte>, ghost start: nat, ghost all: seq<Text>, ghost k: nat)
    returns (next: nat, length: nat)
    requires k <= |all| && |was| == packet.Length < ADDRESSABLE && index == At(start, all, k) <= packet.Length
    requires packet[..] == Before(was, start, all, k) && bytes != []
    requires var o := Decide(was, start, all, k);
             if index + |bytes| > packet.Length then o == Breaks(k)
             else Bytes(all, o) == Wire(all[..k]) + bytes && !o.Breaks?
    modifies packet
    ensures HasWritten(was, start, all, k, packet[..], next, length)
  {
    if index + |bytes| > packet.Length {
      return index, 0;
    }
    Store(packet, index, bytes);
    PutTwice(was, start, Wire(all[..k]), bytes);
    next, length := index + |bytes|, |bytes|;
  }

  lemma GoesOn(was: seq<Byte>, start: nat, all: seq<Text>, k: nat, packet: seq<Byte>, next: nat, length: nat)
    requires k < |all| && At(start, all, k) <= At(start, all, k + 1) <= |was| < ADDRESSABLE && !Wraps(all[k])
    requires Decide(was, start, all, k) == Decide(was, start, all, k + 1)
    requires At(start, all, k + 1) == At(start, all, k) + |Piece(all[k])|
    requires HasWritten(was, start, all, k + 1, packet, next, length)
    ensures HasWritten(was, start, all, k, packet, next, |Piece(all[k])| + length)
  {
  }

  lemma StopsHere(was: seq<Byte>, start: nat, all: seq<Text>, k: nat, at: nat, packet: seq<Byte>, next: nat)
    requires k < |all| && at == At(start, all, k) <= |was| < ADDRESSABLE
    requires FindName(Before(was, start, all, k), at, all[k..], 0) == None
    requires if at + |Piece(all[k])| >= |was| then next == at && packet == Before(was, start, all, k)
             else Wraps(all[k]) && next == at + 256 && packet == Put(was, start, Wire(all[..k]) + Piece(all[k]))
    ensures HasWritten(was, start, all, k, packet, next, 0)
  {
    DecideNext(was, start, all, k, at);
    WireSnoc(all, k);
  }

  lemma StaysOn(was: seq<Byte>, start: nat, all: seq<Text>, k: nat, at: nat, packet: seq<Byte>, next: nat)
    requires k < |all| && at == At(start, all, k) <= |was| < ADDRESSABLE
    requires FindName(Before(was, start, all, k), at, all[k..], 0) == None
    requires next == at + |Piece(all[k])| < |was| && !Wraps(all[k])
    requires packet == Put(was, start, Wire(all[..k]) + Piece(all[k]))
    ensures next == At(start, all, k + 1) && packet == Before(was, start, all, k + 1)
    ensures Decide(was, start, all, k) == Decide(was, start, all, k + 1)
  {
    DecideNext(was, start, all, k, at);
    WireSnoc(all, k);
  }

  /** A label is written out: does the name go on? */
  method AppendLabel(packet: array<Byte>, index: nat, t: Text,
                     ghost was: seq<Byte>, ghost start: nat, ghost all: seq<Text>, ghost k: nat)
    returns (next: nat, added: nat)
    requires k < |all| && t == all[k]
    requires |was| == packet.Length < ADDRESSABLE && index == At(start, all, k) <= packet.Length
    requires packet[..] == Before(was, start, all, k)
    requires FindName(packet[..], index, all[k..], 0) == None
    modifies packet
    ensures added == 0 ==> HasWritten(was, start, all, k, packet[..], next, 0)
    ensures added != 0 ==> && added == |Piece(t)| && next == At(start, all, k + 1) == index + added <= packet.Length
                           && packet[..] == Before(was, start, all, k + 1) && !Wraps(t)
                           && Decide(was, start, all, k) == Decide(was, start, all, k + 1)
  {
    next, added := AppendString(packet, index, t, was, start, Wire(all[..k]));
    if added == 0 {
      StopsHere(was, start, all, k, index, packet[..], next);
    } else {
      StaysOn(was, start, all, k, index, packet[..], next);
    }
  }

  /** append_fqdn, called with the last labels of all after the first k have been written at start.
      The packet was was before the name. The result is nonzero even when the rest of the name did
      not fit, since the failure of an inner call counts as 0; so does a string of 255 bytes. */
  method AppendFqdn(packet: array<Byte>, index: nat, strings: seq<Text>,
                    ghost was: seq<Byte>, ghost start: nat, ghost all: seq<Text>, ghost k: nat)
    returns (next: nat, length: nat)
    requires k <= |all| && strings == all[k..]
    requires |was| == packet.Length < ADDRESSABLE && index == At(start, all, k) <= packet.Length
    requires packet[..] == Before(was, start, all, k)
    modifies packet
    ensures HasWritten(was, start, all, k, packet[..], next, length)
    decreases |strings|
  {
    if |strings| == 0 {
      assert all[..k] == all;
      next, length := AppendLast(packet, index, [0], was, start, all, k);
      return;
    }
    var found := Search(packet, index, strings);
    assert packet[..] == Before(was, start, all, k);
    if found.Some? {
      next, length := AppendLast(packet, index, Pointer(found.value), was, start, all, k);
      return;
    }
    var added, rest;
    next, added := AppendLabel(packet, index, strings[0], was, start, all, k);
    if added == 0 {
      return next, 0;
    }
    next, rest := AppendFqdn(packet, next, strings[1..], was, start, all, k + 1);
    GoesOn(was, start, all, k, packet[..], next, rest);
    length := added + rest;
  }
}
