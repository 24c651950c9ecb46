/** Who gives way when two devices claim one service: check_srv_collision in components/mdns/mdns_receive.c,
    section 8.2 of RFC 6762. */
module SrvTieBreak {
  import opened Common
  import opened Octets
  import opened DnsReader
  import opened DnsWriter
  import opened DnsRoundTrip

  const NAME_MAX := 64

  type Word = n: int | 0 <= n < 0x1_0000

  /** What a device claims: its service's numbers and its own host name. */
  datatype Claim = Claim(priority: Word, weight: Word, port: Word, host: seq<Byte>)

  /** The SRV data as it is compared. */
  function Data(c: Claim, domain: seq<Byte>): (r: seq<Byte>) {
    U16(c.priority) + U16(c.weight) + U16(c.port) + [|c.host| % 256] + c.host + [|domain| % 256] + domain + [0]
  }

  /** memcmp */
  function MemCompare(a: seq<Byte>, b: seq<Byte>): (r: int)
    requires |a| == |b|
    ensures -1 <= r <= 1
  {
    if a == [] then 0 else if a[0] < b[0] then -1 else if a[0] > b[0] then 1 else MemCompare(a[1..], b[1..])
  }

  /** check_srv_collision: -1 we win, 1 they win, 0 the same. */
  function Collision(ours: Claim, theirs: Claim, domain: seq<Byte>): (r: int)
    ensures -1 <= r <= 1
  {
    var ourLen, theirLen := 14 + |ours.host|, 9 + |theirs.host| + |domain|;
    if ours.host == [] then 0
    else if theirLen > ourLen then 1
    else if theirLen < ourLen then -1
    else if |ours.host| > NAME_MAX || |theirs.host| > NAME_MAX || |domain| > NAME_MAX then 1
    else -MemCompare(Data(ours, LOCAL), Data(theirs, domain))
  }

  /** The order behind it: the longer data first, then by their bytes. */
  function Order(ours: Claim, theirs: Claim, domain: seq<Byte>): (r: int) {
    var ourLen, theirLen := 14 + |ours.host|, 9 + |theirs.host| + |domain|;
    if theirLen > ourLen then 1
    else if theirLen < ourLen then -1
    else -MemCompare(Data(ours, LOCAL), Data(theirs, domain))
  }

  /** A host name that mdns_hostname_set accepts. */
  predicate IsContender(c: Claim) {
    0 < |c.host| <= NAME_MAX
  }

  /** a wins against b, as a sees it. */
  predicate Beats(a: Claim, b: Claim) {
    Collision(a, b, LOCAL) == -1
  }

  // ------------------------------------------------------------------ memcmp is a total order

  lemma {:induction false} CompareFlips(a: seq<Byte>, b: seq<Byte>)
    requires |a| == |b|
    ensures MemCompare(a, b) == -MemCompare(b, a)
  {
    if a != [] {
      CompareFlips(a[1..], b[1..]);
    }
  }

  lemma {:induction false} CompareZero(a: seq<Byte>, b: seq<Byte>)
    requires |a| == |b|
    ensures MemCompare(a, b) == 0 <==> a == b
  {
    if a != [] {
      CompareZero(a[1..], b[1..]);
      assert a == [a[0]] + a[1..] && b == [b[0]] + b[1..];
    }
  }

  lemma {:induction false} CompareChains(a: seq<Byte>, b: seq<Byte>, c: seq<Byte>)
    requires |a| == |b| == |c| && MemCompare(a, b) == 1 && MemCompare(b, c) == 1
    ensures MemCompare(a, c) == 1
  {
    if a != [] && a[0] == b[0] == c[0] {
      CompareChains(a[1..], b[1..], c[1..]);
    }
  }

  // ------------------------------------------------------------------ and so is the collision check

  lemma DataLength(c: Claim, domain: seq<Byte>)
    ensures |Data(c, domain)| == 9 + |c.host| + |domain|
  {
  }

  lemma DataIsFaithful(a: Claim, b: Claim)
    requires |a.host| == |b.host|
    ensures Data(a, LOCAL) == Data(b, LOCAL) <==> a == b
  {
    var x, y, n := Data(a, LOCAL), Data(b, LOCAL), |a.host|;
    assert x[0] == a.priority / 256 && x[1] == a.priority % 256 && x[2] == a.weight / 256 && x[3] == a.weight % 256;
    assert y[0] == b.priority / 256 && y[1] == b.priority % 256 && y[2] == b.weight / 256 && y[3] == b.weight % 256;
    assert x[4] == a.port / 256 && x[5] == a.port % 256 && y[4] == b.port / 256 && y[5] == b.port % 256;
    assert x[7..7 + n] == a.host && y[7..7 + n] == b.host;
  }

  /** Two devices never both win and never both give way, and they agree exactly when their claims are the same. */
  lemma Antisymmetric(a: Claim, b: Claim)
    requires IsContender(a) && IsContender(b)
    ensures Collision(a, b, LOCAL) == -Collision(b, a, LOCAL)
    ensures Collision(a, b, LOCAL) == 0 <==> a == b
  {
    if |a.host| == |b.host| {
      DataLength(a, LOCAL);
      DataLength(b, LOCAL);
      CompareFlips(Data(a, LOCAL), Data(b, LOCAL));
      CompareZero(Data(a, LOCAL), Data(b, LOCAL));
      DataIsFaithful(a, b);
    }
  }

  lemma Transitive(a: Claim, b: Claim, c: Claim)
    requires IsContender(a) && IsContender(b) && IsContender(c) && Beats(a, b) && Beats(b, c)
    ensures Beats(a, c)
  {
    if |a.host| == |b.host| == |c.host| {
      DataLength(a, LOCAL);
      DataLength(b, LOCAL);
      DataLength(c, LOCAL);
      CompareChains(Data(a, LOCAL), Data(b, LOCAL), Data(c, LOCAL));
    }
  }

  /** Whatever devices claim a service, exactly one of them wins against all others. */
  lemma {:induction false} OneWinner(claims: set<Claim>) returns (w: Claim)
    requires claims != {} && forall c <- claims :: IsContender(c)
    ensures w in claims && (forall c | c in claims && c != w :: Beats(w, c) && !Beats(c, w))
    ensures forall v | v in claims && (forall c | c in claims && c != v :: Beats(v, c)) :: v == w
    decreases |claims|
  {
    var a :| a in claims;
    w := a;
    if claims != {a} {
      var rest := claims - {a};
      assert rest != {};
      var b := OneWinner(rest);
      Antisymmetric(a, b);
      w := if Beats(a, b) then a else b;
      forall c | c in claims && c != w ensures Beats(w, c) {
        if w == a && c != b {
          Transitive(a, b, c);
        }
      }
    }
    forall c | c in claims && c != w ensures !Beats(c, w) {
      Antisymmetric(w, c);
    }
  }

  // ------------------------------------------------------------------ who wins

  /** x comes after y where they first differ. */
  ghost predicate After(x: seq<Byte>, y: seq<Byte>) {
    exists k | 0 <= k < |x| && k < |y| :: x[..k] == y[..k] && x[k] > y[k]
  }

  lemma AfterNext(x: seq<Byte>, y: seq<Byte>)
    requires x != [] && y != [] && x[0] == y[0]
    ensures After(x, y) <==> After(x[1..], y[1..])
  {
    if After(x, y) {
      var k :| 0 <= k < |x| && k < |y| && x[..k] == y[..k] && x[k] > y[k];
      assert x[1..][..k - 1] == x[..k][1..] && y[1..][..k - 1] == y[..k][1..];
      assert x[1..][k - 1] > y[1..][k - 1];
    }
    if After(x[1..], y[1..]) {
      var k :| 0 <= k < |x| - 1 && k < |y| - 1 && x[1..][..k] == y[1..][..k] && x[1..][k] > y[1..][k];
      assert x[..k + 1] == [x[0]] + x[1..][..k] && y[..k + 1] == [y[0]] + y[1..][..k];
      assert x[k + 1] > y[k + 1];
    }
  }

  lemma AfterFirst(x: seq<Byte>, y: seq<Byte>)
    requires x != [] && y != [] && x[0] != y[0]
    ensures After(x, y) <==> x[0] > y[0]
  {
    if x[0] > y[0] {
      assert x[..0] == y[..0];
    }
    if After(x, y) {
      var k :| 0 <= k < |x| && k < |y| && x[..k] == y[..k] && x[k] > y[k];
      if k > 0 {
        assert x[..k][0] == x[0] && y[..k][0] == y[0];
      }
    }
  }

  lemma {:induction false} CompareDecides(x: seq<Byte>, y: seq<Byte>)
    requires |x| == |y|
    ensures MemCompare(x, y) == 1 <==> After(x, y)
  {
    if x != [] {
      if x[0] == y[0] {
        AfterNext(x, y);
        CompareDecides(x[1..], y[1..]);
      } else {
        AfterFirst(x, y);
      }
    }
  }

  /** After the same bytes the rest decides. */
  lemma {:induction false} AfterSame(z: seq<Byte>, x: seq<Byte>, y: seq<Byte>)
    requires |x| == |y|
    ensures MemCompare(z + x, z + y) == MemCompare(x, y)
  {
    if z == [] {
      assert z + x == x && z + y == y;
    } else {
      assert (z + x)[1..] == z[1..] + x && (z + y)[1..] == z[1..] + y;
      AfterSame(z[1..], x, y);
    }
  }

  /** Before the same bytes, too. */
  lemma {:induction false} BeforeSame(x: seq<Byte>, y: seq<Byte>, z: seq<Byte>)
    requires |x| == |y|
    ensures MemCompare(x + z, y + z) == MemCompare(x, y)
  {
    if x == [] {
      assert x + z == z && y + z == z;
      CompareZero(z, z);
    } else {
      assert (x + z)[1..] == x[1..] + z && (y + z)[1..] == y[1..] + z;
      BeforeSame(x[1..], y[1..], z);
    }
  }

  /** Numbers of two bytes come first. */
  lemma NumberFirst(m: Word, n: Word, x: seq<Byte>, y: seq<Byte>)
    requires |x| == |y|
    ensures MemCompare(U16(m) + x, U16(n) + y) == if m > n then 1 else if m < n then -1 else MemCompare(x, y)
  {
    var a, b := U16(m) + x, U16(n) + y;
    assert a[0] == m / 256 && a[1] == m % 256 && b[0] == n / 256 && b[1] == n % 256;
    assert a[1..][1..] == x && b[1..][1..] == y;
    assert a[1..][0] == a[1] && b[1..][0] == b[1];
    assert MemCompare(a[1..], b[1..]) == if a[1] < b[1] then -1 else if a[1] > b[1] then 1 else MemCompare(x, y);
  }

  function Rest(c: Claim): (r: seq<Byte>) {
    [|c.host| % 256] + c.host + [|LOCAL| % 256] + LOCAL + [0]
  }

  lemma DataParts(c: Claim)
    ensures Data(c, LOCAL) == U16(c.priority) + (U16(c.weight) + (U16(c.port) + Rest(c)))
  {
  }

  lemma HostsCompared(a: Claim, b: Claim)
    requires |a.host| == |b.host|
    ensures |Rest(a)| == |Rest(b)| && (MemCompare(Rest(a), Rest(b)) == 1 <==> After(a.host, b.host))
  {
    var n, tail := [|a.host| % 256], [|LOCAL| % 256] + LOCAL + [0];
    assert Rest(a) == n + (a.host + tail) && Rest(b) == n + (b.host + tail);
    AfterSame(n, a.host + tail, b.host + tail);
    BeforeSame(a.host, b.host, tail);
    CompareDecides(a.host, b.host);
  }

  /** Without a host name a device has nothing to claim. The claim with the longer host name wins; of two with names of
      one length the one with the greater priority, then weight, then port, then the one whose host name has the greater
      byte where they first differ. */
  lemma WhoWins(a: Claim, b: Claim)
    requires |a.host| <= 64 && |b.host| <= 64
    ensures a.host == [] ==> Collision(a, b, LOCAL) == 0
    ensures a.host != [] ==>
              (Beats(a, b) <==>
               if |a.host| != |b.host| then |a.host| > |b.host|
               else if a.priority != b.priority then a.priority > b.priority
               else if a.weight != b.weight then a.weight > b.weight
               else if a.port != b.port then a.port > b.port
               else After(a.host, b.host))
  {
    if |a.host| == |b.host| {
      DataLength(a, LOCAL);
      DataLength(b, LOCAL);
      DataParts(a);
      DataParts(b);
      HostsCompared(a, b);
      NumberFirst(a.port, b.port, Rest(a), Rest(b));
      NumberFirst(a.weight, b.weight, U16(a.port) + Rest(a), U16(b.port) + Rest(b));
      NumberFirst(a.priority, b.priority, U16(a.weight) + (U16(a.port) + Rest(a)),
                  U16(b.weight) + (U16(b.port) + Rest(b)));
    }
  }

  // ------------------------------------------------------------------ the pairs that the code compares

  /** What the receiver makes of an SRV record whose target stands at this place: mdns_utils_parse_fqdn and the numbers
      before it. */
  function Heard(p: seq<Byte>, at: nat, priority: Word, weight: Word, port: Word): (r: Option<Claim>) {
    match Parsed(p, at)
    case None => None
    case Some(n) => Some(Claim(priority, weight, port, n.host))
  }

  /** Whatever is received, no name is too long for the buffers of the comparison: the guard that would make both
      devices give way is never taken, and the result is that of the order. */
  lemma GuardIsNeverTaken(ours: Claim, p: seq<Byte>, at: nat, priority: Word, weight: Word, port: Word)
    requires IsContender(ours) && Parsed(p, at).Some?
    ensures var theirs, domain := Heard(p, at, priority, weight, port).value, Parsed(p, at).value.domain;
            && |theirs.host| <= NAME_MAX && |domain| <= NAME_MAX
            && Collision(ours, theirs, domain) == Order(ours, theirs, domain)
  {
    ParsedFits(p, at);
  }

  /** The record is heard as this claim, in the domain local. */
  ghost predicate IsHeardAs(p: seq<Byte>, at: nat, c: Claim) {
    && Heard(p, at, c.priority, c.weight, c.port) == Some(c)
    && Parsed(p, at).Some? && Parsed(p, at).value.domain == LOCAL
  }

  /** Two devices that hear each other's claims come to opposite results, whatever packets they hear them in. */
  lemma HeardAntisymmetric(a: Claim, p: seq<Byte>, i: nat, b: Claim, q: seq<Byte>, j: nat)
    requires a.host != [] && b.host != [] && IsHeardAs(p, i, a) && IsHeardAs(q, j, b)
    ensures Collision(a, b, LOCAL) == -Collision(b, a, LOCAL)
    ensures Collision(a, b, LOCAL) == 0 <==> a == b
  {
    ParsedFits(p, i);
    ParsedFits(q, j);
    Antisymmetric(a, b);
  }

  lemma HostLabels(h: Text)
    requires IsLabel(h)
    ensures AreLabels([h, LOCAL]) && AreCStrings([h, LOCAL])
  {
    var two: seq<Text>, one: seq<Text> := [h, LOCAL], [LOCAL];
    assert two[1..] == one && one[1..] == [] && IsLabel(LOCAL);
    assert AreLabels(one) && AreCStrings(one);
  }

  /** A device is heard as what it claims where its host name is written out, if that can be a label. */
  lemma WrittenIsHeard(c: Claim, p: seq<Byte>, at: nat)
    requires IsLabel(c.host) && !CaseEqual(c.host, SUB) && Holds(p, at, Wire([c.host, LOCAL]) + [0])
    ensures IsHeardAs(p, at, c)
  {
    HostLabels(c.host);
    WrittenHost(c.host, p, at);
  }

  lemma WrittenHost(h: Text, p: seq<Byte>, at: nat)
    requires IsLabel(h) && !CaseEqual(h, SUB) && AreLabels([h, LOCAL]) && Holds(p, at, Wire([h, LOCAL]) + [0])
    ensures Parsed(p, at) == Some(Name(h, [], [], LOCAL, 2, false, false))
  {
    LabelsOfWire(p, at, at, [h, LOCAL]);
    PlaceLabelTokens(EMPTY, [h, LOCAL]);
    assert Spell(Host(h)) + [LOCAL] == [h, LOCAL];
    assert SameTexts([h, LOCAL], [h, LOCAL]);
    SpelledPlaces(Host(h), [h, LOCAL]);
  }

  /** A host name of 64 bytes, which mdns_hostname_set accepts, is heard by nobody. */
  lemma LongestNameIsNotHeard(c: Claim, p: seq<Byte>, at: nat)
    requires |c.host| == NAME_MAX && Holds(p, at, Wire([c.host, LOCAL]) + [0])
    ensures Parsed(p, at) == None
  {
    HoldsParts(p, at, Wire([c.host, LOCAL]), [0]);
    FirstHeld(p, at, [c.host, LOCAL]);
    HeldPiece(p, at, c.host);
  }
}
