/** Reading a possibly compressed DNS name out of a packet: mdns_utils_read_fqdn and
    mdns_utils_parse_fqdn of components/mdns/mdns_utils.c (section 4.1.4 of RFC 1035). */
module DnsReader {
  import opened Common
  import opened Octets
  import CaseFold

  /** A C string without its terminator. */
  type Text = seq<Byte>

  const NAME_BUF_LEN := 65
  const MAX_COMPRESSION_DEPTH := 16
  const DOT: Text := [0x2E]
  const UNDERSCORE: Byte := 0x5F
  const LOCAL: Text := [0x6C, 0x6F, 0x63, 0x61, 0x6C]
  const ARPA: Text := [0x61, 0x72, 0x70, 0x61]
  const IP6: Text := [0x69, 0x70, 0x36]
  const IN_ADDR: Text := [0x69, 0x6E, 0x2D, 0x61, 0x64, 0x64, 0x72]
  const SUB: Text := [0x5F, 0x73, 0x75, 0x62]

  // ------------------------------------------------------------------ C strings

  function Lower(b: Byte): (r: Byte) {
    if 0x41 <= b <= 0x5A then b + 0x20 else b
  }

  /** strcasecmp(a, b) == 0 */
  predicate CaseEqual(a: Text, b: Text) {
    |a| == |b| && forall i | 0 <= i < |a| :: Lower(a[i]) == Lower(b[i])
  }

  /** It holds exactly of strings that differ in the case of ASCII letters only. */
  lemma CaseEqualDecides(a: Text, b: Text)
    ensures CaseEqual(a, b)
       <==> |a| == |b| && forall i | 0 <= i < |a| :: CaseFold.SameLetter(a[i] as char, b[i] as char)
  {
    forall i | 0 <= i < |a| && i < |b|
      ensures Lower(a[i]) == Lower(b[i]) <==> CaseFold.SameLetter(a[i] as char, b[i] as char)
    {
      CaseFold.LowerDecides(a[i] as char, b[i] as char);
    }
  }

  /** The C string at the start of a byte array: everything before the first NUL. */
  function CString(s: seq<Byte>): (r: Text)
    ensures |r| <= |s|
    ensures (forall i | 0 <= i < |s| :: s[i] != 0) ==> r == s
  {
    if s == [] || s[0] == 0 then [] else [s[0]] + CString(s[1..])
  }

  // ------------------------------------------------------------------ labels on the wire

  datatype Token = Label(bytes: seq<Byte>) | Jump
  /** The labels and jumps of a name and where the bytes after it start. */
  datatype Decoding = Decoding(tokens: seq<Token>, next: nat)

  function Target(p: seq<Byte>, pos: nat): (r: nat)
    requires pos + 1 < |p| && p[pos] >= 0xC0
    ensures r < 0x4000
  {
    (p[pos] as int - 0xC0) * 256 + p[pos + 1] as int
  }

  /** Decode from pos the name whose current run of labels began at start. A run ends at a NUL, at
      the end of the packet or with a pointer to a place before the run. */
  function Decode(p: seq<Byte>, start: nat, pos: nat, depth: nat): (r: Option<Decoding>)
    requires start <= pos
    decreases start, if pos < |p| then |p| - pos else 0
  {
    if pos >= |p| || p[pos] == 0 then Some(Decoding([], pos + 1))
    else if p[pos] < 0xC0 then
      var end := pos + 1 + p[pos];
      if p[pos] > 63 || end > |p| then None
      else
        match Decode(p, start, end, depth)
        case None => None
        case Some(d) => Some(d.(tokens := [Label(p[pos + 1..end])] + d.tokens))
    else if pos + 1 >= |p| || Target(p, pos) >= start || depth >= MAX_COMPRESSION_DEPTH then None
    else
      match Decode(p, Target(p, pos), Target(p, pos), depth + 1)
      case None => None
      case Some(d) => Some(Decoding([Jump] + d.tokens, pos + 2))
  }

  /** One more than the last byte that decoding looks at. */
  function Reach(p: seq<Byte>, start: nat, pos: nat): (r: nat)
    requires start <= pos
    decreases start, if pos < |p| then |p| - pos else 0
  {
    if pos >= |p| || p[pos] == 0 then pos + 1
    else if p[pos] < 0xC0 then
      var end := pos + 1 + p[pos];
      if p[pos] > 63 || end > |p| then end else Reach(p, start, end)
    else if pos + 1 >= |p| || Target(p, pos) >= start then pos + 2
    else
      var r := Reach(p, Target(p, pos), Target(p, pos));
      if r > pos + 2 then r else pos + 2
  }

  function Jumps(ts: seq<Token>): (r: nat) {
    if ts == [] then 0 else (if ts[0].Jump? then 1 else 0) + Jumps(ts[1..])
  }

  /** The labels as the C strings that the code compares. */
  function Labels(ts: seq<Token>): (r: seq<Text>) {
    if ts == [] then [] else (if ts[0].Label? then [CString(ts[0].bytes)] else []) + Labels(ts[1..])
  }

  lemma {:induction false} ReachCovers(p: seq<Byte>, start: nat, pos: nat)
    requires start <= pos
    ensures pos < Reach(p, start, pos)
    decreases start, if pos < |p| then |p| - pos else 0
  {
    if pos < |p| && 0 < p[pos] <= 63 && pos + 1 + p[pos] <= |p| {
      ReachCovers(p, start, pos + 1 + p[pos]);
    }
  }

  /** Decoding looks at byte i. */
  ghost predicate Touches(p: seq<Byte>, start: nat, pos: nat, i: nat)
    requires start <= pos
    decreases start, if pos < |p| then |p| - pos else 0
  {
    pos < |p| &&
    if p[pos] == 0 then i == pos
    else if p[pos] < 0xC0 then
      var end := pos + 1 + p[pos];
      if p[pos] > 63 || end > |p| then i == pos else pos <= i < end || Touches(p, start, end, i)
    else
      || i == pos || (i == pos + 1 && i < |p|)
      || (pos + 1 < |p| && Target(p, pos) < start && Touches(p, Target(p, pos), Target(p, pos), i))
  }

  ghost predicate AgreeOnTouched(p: seq<Byte>, q: seq<Byte>, start: nat, pos: nat)
    requires start <= pos
  {
    |p| == |q| && forall i: nat | i < |p| && Touches(p, start, pos, i) :: p[i] == q[i]
  }

  lemma AgreeOnLabel(p: seq<Byte>, q: seq<Byte>, start: nat, pos: nat, end: nat)
    requires start <= pos < |p| && AgreeOnTouched(p, q, start, pos)
    requires 0 < p[pos] <= 63 && end == pos + 1 + p[pos] <= |p|
    ensures q[pos] == p[pos] && p[pos + 1..end] == q[pos + 1..end] && AgreeOnTouched(p, q, start, end)
  {
    assert forall i | pos <= i < end :: Touches(p, start, pos, i);
    assert forall i | Touches(p, start, end, i) :: Touches(p, start, pos, i);
  }

  lemma AgreeOnJump(p: seq<Byte>, q: seq<Byte>, start: nat, pos: nat)
    requires start <= pos && pos + 1 < |p| && AgreeOnTouched(p, q, start, pos) && p[pos] >= 0xC0
    ensures q[pos] == p[pos] && q[pos + 1] == p[pos + 1]
    ensures var t := Target(p, pos); t < start ==> AgreeOnTouched(p, q, t, t)
  {
    assert Touches(p, start, pos, pos) && Touches(p, start, pos, pos + 1);
    var t := Target(p, pos);
    assert t < start ==> forall i | Touches(p, t, t, i) :: Touches(p, start, pos, i);
  }

  /** Decoding depends on no other byte. */
  lemma {:induction false} DecodeTouch(p: seq<Byte>, q: seq<Byte>, start: nat, pos: nat, depth: nat)
    requires start <= pos && AgreeOnTouched(p, q, start, pos)
    ensures Decode(q, start, pos, depth) == Decode(p, start, pos, depth)
    decreases start, if pos < |p| then |p| - pos else 0
  {
    if pos < |p| {
      assert Touches(p, start, pos, pos);
      if 0 < p[pos] <= 63 && pos + 1 + p[pos] <= |p| {
        AgreeOnLabel(p, q, start, pos, pos + 1 + p[pos]);
        DecodeTouch(p, q, start, pos + 1 + p[pos], depth);
      } else if p[pos] >= 0xC0 && pos + 1 < |p| {
        AgreeOnJump(p, q, start, pos);
        if Target(p, pos) < start {
          DecodeTouch(p, q, Target(p, pos), Target(p, pos), depth + 1);
        }
      }
    }
  }

  lemma {:induction false} TouchesSame(p: seq<Byte>, q: seq<Byte>, start: nat, pos: nat)
    requires start <= pos && AgreeOnTouched(p, q, start, pos)
    ensures Reach(q, start, pos) == Reach(p, start, pos)
    ensures forall i: nat :: Touches(q, start, pos, i) <==> Touches(p, start, pos, i)
    decreases start, if pos < |p| then |p| - pos else 0
  {
    if pos < |p| {
      assert Touches(p, start, pos, pos);
      if 0 < p[pos] <= 63 && pos + 1 + p[pos] <= |p| {
        AgreeOnLabel(p, q, start, pos, pos + 1 + p[pos]);
        TouchesSame(p, q, start, pos + 1 + p[pos]);
      } else if p[pos] >= 0xC0 && pos + 1 < |p| {
        AgreeOnJump(p, q, start, pos);
        if Target(p, pos) < start {
          TouchesSame(p, q, Target(p, pos), Target(p, pos));
        }
      }
    }
  }

  lemma {:induction false} TouchesBelowReach(p: seq<Byte>, start: nat, pos: nat, i: nat)
    requires start <= pos && Touches(p, start, pos, i)
    ensures i < Reach(p, start, pos) && i < |p|
    decreases start, if pos < |p| then |p| - pos else 0
  {
    ReachCovers(p, start, pos);
    if 0 < p[pos] < 0xC0 {
      var end := pos + 1 + p[pos];
      if p[pos] <= 63 && end <= |p| {
        ReachCovers(p, start, end);
        if i >= end || i < pos {
          TouchesBelowReach(p, start, end, i);
        }
      }
    } else if p[pos] >= 0xC0 && i != pos && !(i == pos + 1 && i < |p|) {
      TouchesBelowReach(p, Target(p, pos), Target(p, pos), i);
    }
  }

  ghost predicate SameBelow(p: seq<Byte>, q: seq<Byte>, bound: nat) {
    |p| == |q| && forall i | 0 <= i < bound && i < |p| :: p[i] == q[i]
  }

  lemma AgreeBelowReach(p: seq<Byte>, q: seq<Byte>, start: nat, pos: nat, bound: nat)
    requires start <= pos && SameBelow(p, q, bound) && Reach(p, start, pos) <= bound
    ensures AgreeOnTouched(p, q, start, pos)
  {
    forall i: nat | i < |p| && Touches(p, start, pos, i) ensures p[i] == q[i] {
      TouchesBelowReach(p, start, pos, i);
    }
  }

  /** In particular on none from Reach on. */
  lemma DecodeFrame(p: seq<Byte>, q: seq<Byte>, start: nat, pos: nat, depth: nat, bound: nat)
    requires start <= pos && SameBelow(p, q, bound) && Reach(p, start, pos) <= bound
    ensures Decode(q, start, pos, depth) == Decode(p, start, pos, depth)
    ensures Reach(q, start, pos) == Reach(p, start, pos)
  {
    AgreeBelowReach(p, q, start, pos, bound);
    DecodeTouch(p, q, start, pos, depth);
    TouchesSame(p, q, start, pos);
  }

  /** The depth limit only counts jumps. */
  lemma {:induction false} DecodeDepth(p: seq<Byte>, start: nat, pos: nat, depth: nat, more: nat)
    requires start <= pos && Decode(p, start, pos, depth).Some?
    ensures var d := Decode(p, start, pos, depth);
            Decode(p, start, pos, depth + more) ==
            if more == 0 || Jumps(d.value.tokens) == 0 || depth + more + Jumps(d.value.tokens) <= MAX_COMPRESSION_DEPTH
            then d else None
    decreases start, if pos < |p| then |p| - pos else 0
  {
    if pos >= |p| || p[pos] == 0 {
    } else if p[pos] < 0xC0 {
      DecodeDepth(p, start, pos + 1 + p[pos], depth, more);
    } else {
      var t := Target(p, pos);
      DecodeDepth(p, t, t, depth + 1, more);
    }
  }

  // ------------------------------------------------------------------ the name structure

  datatype Name = Name(host: Text, service: Text, proto: Text, domain: Text, parts: nat, sub: bool, invalid: bool)

  const EMPTY := Name([], [], [], [], 0, false, false)

  function Field(n: Name, i: nat): (r: Text)
    requires i < 4
  {
    if i == 0 then n.host else if i == 1 then n.service else if i == 2 then n.proto else n.domain
  }

  function SetField(n: Name, i: nat, t: Text): (r: Name)
    requires i < 4
  {
    if i == 0 then n.(host := t) else if i == 1 then n.(service := t)
    else if i == 2 then n.(proto := t) else n.(domain := t)
  }

  /** The label continues a dotted host name instead of starting a new part. */
  predicate ContinuesHost(parts: nat, t: Text) {
    && parts == 1 && !(t != [] && t[0] == UNDERSCORE)
    && !CaseEqual(t, LOCAL) && !CaseEqual(t, ARPA) && !CaseEqual(t, IP6) && !CaseEqual(t, IN_ADDR)
  }

  function Truncate(t: Text): (r: Text) {
    if |t| < NAME_BUF_LEN then t else t[..NAME_BUF_LEN - 1]
  }

  /** Entering the loop body once more. */
  function Enter(n: Name): (r: Name) {
    if n.parts == 4 then n.(invalid := true) else n
  }

  function PlaceLabel(n: Name, t: Text): (r: Name)
    requires n.parts <= 4 && (n.parts == 4 ==> n.invalid)
  {
    if ContinuesHost(n.parts, t) then n.(host := Truncate(n.host + DOT + t))
    else if CaseEqual(t, SUB) then
      if n.parts != 1 || n.sub then n.(invalid := true) else n.(sub := true)
    else if n.invalid then n
    else SetField(n, n.parts, t).(parts := n.parts + 1)
  }

  function Place(n: Name, t: Token): (r: Name)
    requires n.parts <= 4
    ensures n.parts <= r.parts <= 4
  {
    match t
    case Jump => Enter(n)
    case Label(bytes) => PlaceLabel(Enter(n), CString(bytes))
  }

  /** The whole name: the placement step folded over the decoded labels and jumps. */
  function PlaceAll(n: Name, ts: seq<Token>): (r: Name)
    requires n.parts <= 4
    ensures n.parts <= r.parts <= 4
    decreases |ts|
  {
    if ts == [] then n else PlaceAll(Place(n, ts[0]), ts[1..])
  }

  lemma {:induction false} PlaceAllAppend(n: Name, ts: seq<Token>, us: seq<Token>)
    requires n.parts <= 4
    ensures PlaceAll(n, ts + us) == PlaceAll(PlaceAll(n, ts), us)
    decreases |ts|
  {
    if ts == [] {
      assert ts + us == us;
    } else {
      assert (ts + us)[1..] == ts[1..] + us;
      PlaceAllAppend(Place(n, ts[0]), ts[1..], us);
    }
  }

  // ------------------------------------------------------------------ what is read fits

  ghost predicate AreSmall(ts: seq<Token>) {
    forall t <- ts :: t.Label? ==> |t.bytes| <= 63
  }

  lemma {:induction false} DecodedAreSmall(p: seq<Byte>, start: nat, pos: nat, depth: nat)
    requires start <= pos
    ensures Decode(p, start, pos, depth).Some? ==> AreSmall(Decode(p, start, pos, depth).value.tokens)
    decreases start, if pos < |p| then |p| - pos else 0
  {
    if pos < |p| && 0 < p[pos] <= 63 && pos + 1 + p[pos] <= |p| {
      DecodedAreSmall(p, start, pos + 1 + p[pos], depth);
    } else if pos + 1 < |p| && p[pos] >= 0xC0 && Target(p, pos) < start {
      DecodedAreSmall(p, Target(p, pos), Target(p, pos), depth + 1);
    }
  }

  /** Every part fits in its buffer, with its terminator. */
  predicate Fits(n: Name) {
    && |n.host| < NAME_BUF_LEN && |n.service| < NAME_BUF_LEN
    && |n.proto| < NAME_BUF_LEN && |n.domain| < NAME_BUF_LEN
  }

  lemma {:induction false} PlacedFits(n: Name, ts: seq<Token>)
    requires n.parts <= 4 && Fits(n) && AreSmall(ts)
    ensures Fits(PlaceAll(n, ts))
    decreases |ts|
  {
    if ts != [] {
      assert ts[0] in ts && forall t <- ts[1..] :: t in ts;
      PlacedFits(Place(n, ts[0]), ts[1..]);
    }
  }

  // ------------------------------------------------------------------ the C code

  /** The loop has decoded done and stands at index. */
  ghost predicate Reading(p: seq<Byte>, start: nat, depth: nat, index: nat, done: seq<Token>)
    requires start <= index
  {
    match Decode(p, start, index, depth)
    case None => Decode(p, start, start, depth).None?
    case Some(d) => Decode(p, start, start, depth) == Some(d.(tokens := done + d.tokens))
  }

  lemma ReadingLabel(p: seq<Byte>, start: nat, depth: nat, index: nat, done: seq<Token>)
    requires start <= index < |p| && Reading(p, start, depth, index, done) && 0 < p[index] < 0xC0
    ensures if p[index] > 63 || index + 1 + p[index] > |p| then Decode(p, start, start, depth).None?
            else Reading(p, start, depth, index + 1 + p[index], done + [Label(p[index + 1..index + 1 + p[index]])])
  {
    if p[index] <= 63 && index + 1 + p[index] <= |p| {
      var t := Label(p[index + 1..index + 1 + p[index]]);
      var rest := Decode(p, start, index + 1 + p[index], depth);
      if rest.Some? {
        assert done + ([t] + rest.value.tokens) == done + [t] + rest.value.tokens;
      }
    }
  }

  lemma ReadingJump(p: seq<Byte>, start: nat, depth: nat, index: nat, done: seq<Token>)
    requires start <= index < |p| && Reading(p, start, depth, index, done) && p[index] >= 0xC0
    ensures if index + 1 >= |p| || Target(p, index) >= start || depth >= MAX_COMPRESSION_DEPTH
            then Decode(p, start, start, depth).None?
            else match Decode(p, Target(p, index), Target(p, index), depth + 1)
                 case None => Decode(p, start, start, depth).None?
                 case Some(d) => Decode(p, start, start, depth) == Some(Decoding(done + ([Jump] + d.tokens), index + 2))
  {
  }

  lemma ReadingStart(p: seq<Byte>, start: nat, depth: nat)
    ensures Reading(p, start, depth, start, [])
  {
    var d := Decode(p, start, start, depth);
    if d.Some? {
      assert [] + d.value.tokens == d.value.tokens;
    }
  }

  lemma ReadingEnd(p: seq<Byte>, start: nat, depth: nat, index: nat, done: seq<Token>)
    requires start <= index && Reading(p, start, depth, index, done) && (index >= |p| || p[index] == 0)
    ensures Decode(p, start, start, depth) == Some(Decoding(done, index + 1))
  {
    assert done + [] == done;
  }

  lemma PlaceJump(name: Name, done: seq<Token>, r: Name, ts: seq<Token>)
    requires name.parts <= 4 && PlaceAll(name, done) == r
    ensures PlaceAll(name, done + ([Jump] + ts)) == PlaceAll(Enter(r), ts)
  {
    PlaceAllAppend(name, done, [Jump] + ts);
    assert ([Jump] + ts)[1..] == ts;
  }

  lemma PlaceOne(name: Name, done: seq<Token>, r: Name, t: Token)
    requires name.parts <= 4 && PlaceAll(name, done) == r
    ensures PlaceAll(name, done + [t]) == Place(r, t)
  {
    PlaceAllAppend(name, done, [t]);
    assert PlaceAll(r, [t]) == PlaceAll(Place(r, t), []);
  }

  /** The turns of the loop of mdns_utils_read_fqdn_impl that read labels, up to the end of the name
      or a pointer. */
  method ReadLabels(packet: array<Byte>, start: nat, name: Name, ghost depth: nat)
    returns (ok: bool, index: nat, r: Name, ghost done: seq<Token>)
    requires start <= packet.Length && name.parts <= 4
    ensures start <= index <= packet.Length && r.parts <= 4 && r == PlaceAll(name, done)
    ensures if ok then Reading(packet[..], start, depth, index, done)
            else Decode(packet[..], start, start, depth).None?
    ensures ok && index < packet.Length ==> packet[index] == 0 || packet[index] >= 0xC0
  {
    ghost var p := packet[..];
    index, r, done := start, name, [];
    ReadingStart(p, start, depth);
    while index < packet.Length && packet[index] != 0 && packet[index] < 0xC0
      invariant start <= index <= packet.Length && r.parts <= 4
      invariant PlaceAll(name, done) == r && Reading(p, start, depth, index, done)
      decreases packet.Length - index
    {
      var len := packet[index];
      ReadingLabel(p, start, depth, index, done);
      if len > 63 || index + 1 + len > packet.Length {
        return false, index, r, done;
      }
      var bytes := packet[index + 1..index + 1 + len];
      PlaceOne(name, done, r, Label(bytes));
      done := done + [Label(bytes)];
      if r.parts == 4 {
        r := r.(invalid := true);
      }
      r := PlaceLabel(r, CString(bytes));
      index := index + 1 + len;
    }
    ok := true;
  }

  /** What reading a name returns, in terms of the decoded labels and jumps. */
  ghost predicate Read(p: seq<Byte>, start: nat, depth: nat, name: Name, next: Option<nat>, r: Name)
    requires name.parts <= 4
  {
    match Decode(p, start, start, depth)
    case None => next.None?
    case Some(d) => next == Some(d.next) && r == PlaceAll(name, d.tokens)
  }

  lemma ReadEnd(p: seq<Byte>, start: nat, depth: nat, index: nat, name: Name, done: seq<Token>)
    requires start <= index && Reading(p, start, depth, index, done) && (index >= |p| || p[index] == 0)
    requires name.parts <= 4
    ensures Read(p, start, depth, name, Some(index + 1), PlaceAll(name, done))
  {
    ReadingEnd(p, start, depth, index, done);
  }

  lemma ReadBadJump(p: seq<Byte>, start: nat, depth: nat, index: nat, name: Name, done: seq<Token>, r: Name)
    requires start <= index < |p| && Reading(p, start, depth, index, done) && p[index] >= 0xC0 && name.parts <= 4
    requires index + 1 >= |p| || Target(p, index) >= start || depth >= MAX_COMPRESSION_DEPTH
    ensures Read(p, start, depth, name, None, r)
  {
    ReadingJump(p, start, depth, index, done);
  }

  lemma ReadJump(p: seq<Byte>, start: nat, depth: nat, index: nat, name: Name, done: seq<Token>,
                 next: Option<nat>, r: Name)
    requires start <= index && index + 1 < |p| && Reading(p, start, depth, index, done) && p[index] >= 0xC0
    requires Target(p, index) < start && depth < MAX_COMPRESSION_DEPTH && name.parts <= 4
    requires Read(p, Target(p, index), depth + 1, Enter(PlaceAll(name, done)), next, r)
    ensures Read(p, start, depth, name, if next.None? then None else Some(index + 2), r)
  {
    ReadingJump(p, start, depth, index, done);
    var inner := Decode(p, Target(p, index), Target(p, index), depth + 1);
    if inner.Some? {
      PlaceJump(name, done, PlaceAll(name, done), inner.value.tokens);
    }
  }

  /** mdns_utils_read_fqdn_impl: terminates on every packet because a pointer leads strictly before
      the run it is in. */
  method ReadFqdn(packet: array<Byte>, start: nat, name: Name, depth: nat) returns (next: Option<nat>, r: Name)
    requires start <= packet.Length && name.parts <= 4
    ensures r.parts <= 4 && Read(packet[..], start, depth, name, next, r)
    decreases start
  {
    ghost var p, done := packet[..], [];
    var ok, index;
    ok, index, r, done := ReadLabels(packet, start, name, depth);
    assert packet[..] == p;
    if !ok {
      return None, r;
    }
    if index >= packet.Length || packet[index] == 0 {
      ReadEnd(p, start, depth, index, name, done);
      return Some(index + 1), r;
    }
    var address := if index + 1 < packet.Length then (packet[index] as int - 0xC0) * 256 + packet[index + 1] as int
    else 0;
    if index + 1 >= packet.Length || address >= start || depth >= MAX_COMPRESSION_DEPTH {
      ReadBadJump(p, start, depth, index, name, done, r);
      return None, r;
    }
    if r.parts == 4 {
      r := r.(invalid := true);
    }
    next, r := ReadFqdn(packet, address, r, depth + 1);
    assert packet[..] == p;
    ReadJump(p, start, depth, index, name, done, next, r);
    next := if next.None? then None else Some(index + 2);
  }

  /** The rearrangement at the end of mdns_utils_parse_fqdn. */
  function Finish(n: Name): (r: Name) {
    var m := if n.sub && n.parts != 4 then n.(invalid := true) else n;
    if m.parts == 0 || m.invalid then m
    else
      var s := if m.parts == 3 then m.(host := [], service := m.host, proto := m.service, domain := m.proto)
               else if m.parts == 2 then m.(service := [], proto := [], domain := m.service)
               else m;
      if CaseEqual(s.domain, LOCAL) || CaseEqual(s.domain, ARPA) then s else s.(invalid := true)
  }

  /** What mdns_utils_parse_fqdn finds at a place. */
  function Parsed(p: seq<Byte>, start: nat): (r: Option<Name>) {
    match Decode(p, start, start, 0)
    case None => None
    case Some(d) => Some(Finish(PlaceAll(EMPTY, d.tokens)))
  }

  /** Whatever the packet is, no part of a name is longer than its buffer. */
  lemma ParsedFits(p: seq<Byte>, start: nat)
    ensures Parsed(p, start).Some? ==> Fits(Parsed(p, start).value)
  {
    DecodedAreSmall(p, start, start, 0);
    var d := Decode(p, start, start, 0);
    if d.Some? {
      PlacedFits(EMPTY, d.value.tokens);
    }
  }

  method ParseFqdn(packet: array<Byte>, start: nat) returns (next: Option<nat>, name: Name)
    requires start <= packet.Length
    ensures match Decode(packet[..], start, start, 0)
            case None => next.None?
            case Some(d) => next == Some(d.next) && Parsed(packet[..], start) == Some(name) && Fits(name)
  {
    ParsedFits(packet[..], start);
    next, name := ReadFqdn(packet, start, EMPTY, 0);
    if next.None? {
      return;
    }
    if name.sub && name.parts != 4 {
      name := name.(invalid := true);
    }
    if name.parts == 0 || name.invalid {
      return;
    }
    if name.parts == 3 {
      name := name.(host := [], service := name.host, proto := name.service, domain := name.proto);
    } else if name.parts == 2 {
      name := name.(service := [], proto := [], domain := name.service);
    }
    if !CaseEqual(name.domain, LOCAL) && !CaseEqual(name.domain, ARPA) {
      name := name.(invalid := true);
    }
  }

  // ------------------------------------------------------------------ the four kinds of name

  /** Placement of labels alone. */
  function PlaceTexts(n: Name, ts: seq<Text>): (r: Name)
    requires n.parts <= 4
    decreases |ts|
  {
    if ts == [] then n else PlaceTexts(PlaceLabel(Enter(n), ts[0]), ts[1..])
  }

  /** Jumps are invisible, except one after the last label. */
  lemma {:induction false} JumpsAreInvisible(n: Name, ts: seq<Token>)
    requires n.parts <= 4 && ts != [] && ts[|ts| - 1].Label?
    ensures PlaceAll(n, ts) == PlaceTexts(n, Labels(ts)) && Labels(ts) != []
    decreases |ts|
  {
    if |ts| == 1 {
      assert ts[1..] == [] && Labels(ts) == [CString(ts[0].bytes)];
      assert Labels(ts)[1..] == [];
    } else {
      JumpsAreInvisible(Place(n, ts[0]), ts[1..]);
      if ts[0].Label? {
        assert Labels(ts)[1..] == Labels(ts[1..]);
      } else {
        assert Labels(ts) == [] + Labels(ts[1..]) == Labels(ts[1..]);
        assert Enter(Enter(n)) == Enter(n);
      }
    }
  }

  datatype Form =
    | Instance(instance: Text, iservice: Text, iproto: Text)
    | Service(sservice: Text, sproto: Text)
    | Host(hostname: Text)
    | Subtype(subtype: Text, tservice: Text, tproto: Text)

  /** The labels of a name of each kind, before the domain. */
  function Spell(f: Form): (r: seq<Text>) {
    match f
    case Instance(i, s, p) => [i, s, p]
    case Service(s, p) => [s, p]
    case Host(h) => [h]
    case Subtype(t, s, p) => [t, SUB, s, p]
  }

  function Meaning(f: Form, domain: Text): (r: Name) {
    match f
    case Instance(i, s, p) => Name(i, s, p, domain, 4, false, false)
    case Service(s, p) => Name([], s, p, domain, 3, false, false)
    case Host(h) => Name(h, [], [], domain, 2, false, false)
    case Subtype(t, s, p) => Name(t, s, p, domain, 4, true, false)
  }

  predicate Underscored(t: Text) {
    t != [] && t[0] == UNDERSCORE && !CaseEqual(t, SUB)
  }

  /** The label after the first must carry an underscore, or it would join the host name. */
  predicate Spellable(f: Form) {
    match f
    case Instance(i, s, p) => !CaseEqual(i, SUB) && Underscored(s) && !CaseEqual(p, SUB)
    case Service(s, p) => !CaseEqual(s, SUB) && Underscored(p)
    case Host(h) => !CaseEqual(h, SUB)
    case Subtype(t, s, p) => !CaseEqual(t, SUB) && Underscored(s) && !CaseEqual(p, SUB)
  }

  // ------------------------------------------------------------------ up to the case of letters

  ghost predicate SameTexts(a: seq<Text>, b: seq<Text>) {
    |a| == |b| && forall i | 0 <= i < |a| :: CaseEqual(a[i], b[i])
  }

  ghost predicate SameForm(f: Form, g: Form) {
    match (f, g)
    case (Instance(i, s, p), Instance(j, t, q)) => CaseEqual(i, j) && CaseEqual(s, t) && CaseEqual(p, q)
    case (Service(s, p), Service(t, q)) => CaseEqual(s, t) && CaseEqual(p, q)
    case (Host(h), Host(k)) => CaseEqual(h, k)
    case (Subtype(u, s, p), Subtype(v, t, q)) => CaseEqual(u, v) && CaseEqual(s, t) && CaseEqual(p, q)
    case _ => false
  }

  /** The form of the same kind that these labels spell, behind which the domain stands. */
  function FormOf(f: Form, labels: seq<Text>): (g: Form)
    requires |labels| == |Spell(f)| + 1
  {
    match f
    case Instance(_, _, _) => Instance(labels[0], labels[1], labels[2])
    case Service(_, _) => Service(labels[0], labels[1])
    case Host(_) => Host(labels[0])
    case Subtype(_, _, _) => Subtype(labels[0], labels[2], labels[3])
  }

  lemma CaseKeeps(a: Text, b: Text, c: Text)
    requires CaseEqual(a, b)
    ensures CaseEqual(a, c) <==> CaseEqual(b, c)
    ensures (a != [] && a[0] == UNDERSCORE) <==> (b != [] && b[0] == UNDERSCORE)
  {
    assert a != [] ==> Lower(a[0]) == Lower(b[0]);
  }

  lemma SpelledAlike(f: Form, labels: seq<Text>)
    requires Spellable(f) && SameTexts(Spell(f) + [LOCAL], labels)
    ensures Spellable(FormOf(f, labels)) && SameForm(f, FormOf(f, labels)) && CaseEqual(labels[|labels| - 1], LOCAL)
    ensures f.Subtype? ==> CaseEqual(labels[1], SUB)
  {
    var all := Spell(f) + [LOCAL];
    forall i | 0 <= i < |all|
      ensures CaseEqual(all[i], SUB) <==> CaseEqual(labels[i], SUB)
      ensures CaseEqual(all[i], LOCAL) <==> CaseEqual(labels[i], LOCAL)
      ensures (all[i] != [] && all[i][0] == UNDERSCORE) <==> (labels[i] != [] && labels[i][0] == UNDERSCORE)
    {
      CaseKeeps(all[i], labels[i], SUB);
      CaseKeeps(all[i], labels[i], LOCAL);
    }
    assert all[|all| - 1] == LOCAL && CaseEqual(LOCAL, LOCAL) && CaseEqual(SUB, SUB);
    assert all[0] == Spell(f)[0] && (|Spell(f)| > 1 ==> all[1] == Spell(f)[1]);
  }

  lemma LocalIsPlaced(d: Text)
    requires CaseEqual(d, LOCAL)
    ensures !CaseEqual(d, SUB) && forall parts :: !ContinuesHost(parts, d)
  {
    assert |d| == 5;
  }

  /** An ordinary label becomes the next part. */
  lemma PlacePart(n: Name, t: Text, ts: seq<Text>)
    requires n.parts < 4 && !n.invalid && !ContinuesHost(n.parts, t) && !CaseEqual(t, SUB)
    ensures PlaceTexts(n, [t] + ts) == PlaceTexts(SetField(n, n.parts, t).(parts := n.parts + 1), ts)
  {
    assert ([t] + ts)[1..] == ts;
  }

  lemma PlaceSub(n: Name, t: Text, ts: seq<Text>)
    requires n.parts == 1 && !n.sub && CaseEqual(t, SUB)
    ensures PlaceTexts(n, [t] + ts) == PlaceTexts(n.(sub := true), ts)
  {
    assert ([t] + ts)[1..] == ts;
    CaseKeeps(t, SUB, SUB);
  }

  lemma PlaceTail(n: Name, s: Text, p: Text, domain: Text)
    requires n.parts == 1 && !n.invalid && Underscored(s) && !CaseEqual(p, SUB) && CaseEqual(domain, LOCAL)
    ensures PlaceTexts(n, [s, p, domain]) == n.(service := s, proto := p, domain := domain, parts := 4)
  {
    LocalIsPlaced(domain);
    var n1 := n.(service := s, parts := 2);
    var n2 := n1.(proto := p, parts := 3);
    assert [s, p, domain] == [s] + [p, domain] && [p, domain] == [p] + [domain] && [domain] == [domain] + [];
    PlacePart(n, s, [p, domain]);
    PlacePart(n1, p, [domain]);
    PlacePart(n2, domain, []);
  }

  lemma PlaceTwo(n: Name, p: Text, domain: Text)
    requires n.parts == 1 && !n.invalid && Underscored(p) && CaseEqual(domain, LOCAL)
    ensures PlaceTexts(n, [p, domain]) == n.(service := p, proto := domain, parts := 3)
  {
    LocalIsPlaced(domain);
    assert [p, domain] == [p] + [domain] && [domain] == [domain] + [];
    PlacePart(n, p, [domain]);
    PlacePart(n.(service := p, parts := 2), domain, []);
  }

  lemma PlaceDomain(n: Name, domain: Text)
    requires n.parts == 1 && !n.invalid && CaseEqual(domain, LOCAL)
    ensures PlaceTexts(n, [domain]) == n.(service := domain, parts := 2)
  {
    LocalIsPlaced(domain);
    assert [domain] == [domain] + [];
    PlacePart(n, domain, []);
  }

  lemma PlaceFirst(labels: seq<Text>)
    requires labels != [] && !CaseEqual(labels[0], SUB)
    ensures PlaceTexts(EMPTY, labels) == PlaceTexts(EMPTY.(host := labels[0], parts := 1), labels[1..])
  {
    assert labels == [labels[0]] + labels[1..];
    PlacePart(EMPTY, labels[0], labels[1..]);
  }

  /** The labels of a form and its domain. */
  lemma FormLabels(f: Form, labels: seq<Text>)
    requires |labels| == |Spell(f)| + 1
    ensures match f
            case Instance(_, _, _) => labels[1..] == [labels[1], labels[2], labels[3]]
            case Service(_, _) => labels[1..] == [labels[1], labels[2]]
            case Host(_) => labels[1..] == [labels[1]]
            case Subtype(_, _, _) => labels[1..] == [labels[1]] + [labels[2], labels[3], labels[4]]
  {
  }

  /** The labels of a name of any kind are placed as the parts that they spell. */
  lemma SpelledPlaces(f: Form, labels: seq<Text>)
    requires Spellable(f) && SameTexts(Spell(f) + [LOCAL], labels)
    ensures Finish(PlaceTexts(EMPTY, labels)) == Meaning(FormOf(f, labels), labels[|labels| - 1])
  {
    SpelledAlike(f, labels);
    PlaceSpelled(f, FormOf(f, labels), labels);
  }

  lemma PlaceSpelled(f: Form, g: Form, labels: seq<Text>)
    requires |labels| == |Spell(f)| + 1 && g == FormOf(f, labels) && Spellable(g)
    requires CaseEqual(labels[|labels| - 1], LOCAL)
    requires f.Subtype? ==> CaseEqual(labels[1], SUB)
    ensures Finish(PlaceTexts(EMPTY, labels)) == Meaning(g, labels[|labels| - 1])
  {
    var n := EMPTY.(host := labels[0], parts := 1);
    FormLabels(f, labels);
    PlaceFirst(labels);
    match g {
      case Instance(_, s, p) => PlaceTail(n, s, p, labels[3]);
      case Service(_, p) => PlaceTwo(n, p, labels[2]);
      case Host(_) => PlaceDomain(n, labels[1]);
      case Subtype(_, s, p) =>
        PlaceSub(n, labels[1], [s, p, labels[4]]);
        PlaceTail(n.(sub := true), s, p, labels[4]);
    }
  }

  /** Parsing a name of any of the four kinds gives back its parts, up to case, however it was compressed. */
  lemma ParseInverts(f: Form, ts: seq<Token>)
    requires Spellable(f) && ts != [] && ts[|ts| - 1].Label? && SameTexts(Spell(f) + [LOCAL], Labels(ts))
    ensures var labels := Labels(ts);
            && Finish(PlaceAll(EMPTY, ts)) == Meaning(FormOf(f, labels), labels[|labels| - 1])
            && SameForm(f, FormOf(f, labels)) && CaseEqual(labels[|labels| - 1], LOCAL)
  {
    JumpsAreInvisible(EMPTY, ts);
    SpelledPlaces(f, Labels(ts));
    SpelledAlike(f, Labels(ts));
  }
}
