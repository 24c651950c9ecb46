/** The responses of the stub resolver (components/esp_dns/esp_dns_utils.c): skipping names, reading the answers and
    picking out the addresses. Sections 3.1, 4.1.3 and 4.1.4 of RFC 1035. */
module DnsResponse {
  import opened Common
  import opened Octets

  const HEADER := 12
  const QUESTION := 4
  const FIXED := 10
  const CLASS_IN := 1
  const TYPE_A := 1
  const TYPE_AAAA := 28
  const MAX_TTL := 604800

  // ------------------------------------------------------------------ names

  /** skip_dns_name: where the name at i ends */
  function SkipName(b: seq<Byte>, i: nat): (r: Option<nat>)
    ensures r.Some? ==> i < r.value <= |b|
    decreases |b| - i
  {
    if i >= |b| then None
    else if b[i] == 0 then Some(i + 1)
    else if b[i] >= 0xC0 then (if |b| - i < 2 then None else Some(i + 2))
    else if b[i] > 63 then None
    else if b[i] + 1 > |b| - i then None
    else SkipName(b, i + b[i] + 1)
  }

  /** A name as it may stand in a message: labels, then the root or a pointer. */
  datatype Name = Name(labels: seq<seq<Byte>>, end: End)
  datatype End = Root | Pointer(target: nat)

  ghost predicate IsName(n: Name) {
    (forall l <- n.labels :: 1 <= |l| <= 63) && (n.end.Pointer? ==> n.end.target < 0x4000)
  }

  function EndBytes(e: End): (r: seq<Byte>)
    requires e.Pointer? ==> e.target < 0x4000
  {
    if e.Root? then [0] else [0xC0 + e.target / 256, e.target % 256]
  }

  function LabelBytes(labels: seq<seq<Byte>>): (r: seq<Byte>)
    requires forall l <- labels :: 1 <= |l| <= 63
  {
    if labels == [] then [] else [|labels[0]|] + labels[0] + LabelBytes(labels[1..])
  }

  function NameBytes(n: Name): (r: seq<Byte>)
    requires IsName(n)
  {
    LabelBytes(n.labels) + EndBytes(n.end)
  }

  /** b has these bytes at i. */
  ghost predicate At(b: seq<Byte>, i: nat, bytes: seq<Byte>) {
    i + |bytes| <= |b| && forall k | 0 <= k < |bytes| :: b[i + k] == bytes[k]
  }

  lemma AtFirst(b: seq<Byte>, i: nat, bytes: seq<Byte>)
    requires At(b, i, bytes) && bytes != []
    ensures b[i] == bytes[0]
  {
    assert b[i + 0] == bytes[0];
  }

  lemma AtParts(b: seq<Byte>, i: nat, x: seq<Byte>, y: seq<Byte>)
    requires At(b, i, x + y)
    ensures At(b, i, x) && At(b, i + |x|, y)
  {
    forall k | 0 <= k < |x| ensures b[i + k] == x[k] {
      assert (x + y)[k] == x[k];
    }
    forall k | 0 <= k < |y| ensures b[i + |x| + k] == y[k] {
      assert (x + y)[|x| + k] == y[k];
    }
  }

  lemma SkipsLabel(b: seq<Byte>, i: nat, n: nat)
    requires i + n + 1 <= |b| && b[i] == n && 1 <= n <= 63
    ensures SkipName(b, i) == SkipName(b, i + n + 1)
  {
  }

  lemma SkipsEnd(b: seq<Byte>, i: nat, e: End)
    requires (e.Pointer? ==> e.target < 0x4000) && At(b, i, EndBytes(e))
    ensures SkipName(b, i) == Some(i + |EndBytes(e)|)
  {
    AtFirst(b, i, EndBytes(e));
  }

  /** Skipping a name ends exactly behind it, whatever follows. */
  lemma {:induction false} SkipsName(b: seq<Byte>, i: nat, labels: seq<seq<Byte>>, e: End)
    requires IsName(Name(labels, e)) && At(b, i, NameBytes(Name(labels, e)))
    ensures SkipName(b, i) == Some(i + |NameBytes(Name(labels, e))|)
    decreases |labels|
  {
    if labels == [] {
      assert NameBytes(Name([], e)) == EndBytes(e);
      SkipsEnd(b, i, e);
    } else {
      var first, rest := [|labels[0]|] + labels[0], NameBytes(Name(labels[1..], e));
      assert labels[0] in labels;
      assert NameBytes(Name(labels, e)) == first + rest;
      AtParts(b, i, first, rest);
      AtFirst(b, i, first);
      SkipsLabel(b, i, |labels[0]|);
      SkipsName(b, i + |first|, labels[1..], e);
    }
  }

  // ------------------------------------------------------------------ a response

  datatype Address = V4(bytes: seq<Byte>) | V6(bytes: seq<Byte>)

  /** A resource record in a response. */
  datatype Record = Record(name: Name, kind: nat, family: nat, ttl: nat, data: seq<Byte>)

  ghost predicate IsRecord(x: Record) {
    IsName(x.name) && x.kind < 0x1_0000 && x.family < 0x1_0000 && x.ttl < 0x1_0000_0000 && |x.data| < 0x1_0000
  }

  function FixedBytes(x: Record): (r: seq<Byte>)
    requires IsRecord(x)
    ensures |r| == FIXED
  {
    U16(x.kind) + U16(x.family) + U32(x.ttl) + U16(|x.data|)
  }

  function RecordBytes(x: Record): (r: seq<Byte>)
    requires IsRecord(x)
  {
    NameBytes(x.name) + (FixedBytes(x) + x.data)
  }

  function RecordsBytes(xs: seq<Record>): (r: seq<Byte>)
    requires forall x <- xs :: IsRecord(x)
  {
    if xs == [] then [] else RecordBytes(xs[0]) + RecordsBytes(xs[1..])
  }

  /** The address in a record, if it is one that counts: class IN, at most a week, A with 4 or AAAA with 16
      bytes. */
  function AddressOf(x: Record): (r: Option<Address>) {
    if x.family != CLASS_IN || x.ttl > MAX_TTL then None
    else if x.kind == TYPE_A && |x.data| == 4 then Some(V4(x.data))
    else if x.kind == TYPE_AAAA && |x.data| == 16 then Some(V6(x.data))
    else None
  }

  // ------------------------------------------------------------------ reading it

  /** One answer at i: its address, if valid, and where it ends. */
  function ParseAnswer(b: seq<Byte>, i: nat): (r: Option<(Option<Address>, nat)>)
    ensures r.Some? ==> i < r.value.1 <= |b|
  {
    var end := SkipName(b, i);
    if end.None? || end.value + FIXED > |b| then None
    else
      var at := end.value;
      var kind, family, ttl, n := ReadU16(b, at), ReadU16(b, at + 2), ReadU32(b, at + 4), ReadU16(b, at + 8);
      if at + FIXED + n > |b| then None
      else
        var data := b[at + FIXED..at + FIXED + n];
        Some((AddressOf(Record(Name([], Root), kind, family, ttl, data)), at + FIXED + n))
  }

  function ParseAnswers(b: seq<Byte>, i: nat, count: nat): (r: Option<seq<Option<Address>>>)
    decreases count
  {
    if count == 0 then Some([])
    else
      var first := ParseAnswer(b, i);
      if first.None? then None
      else
        var rest := ParseAnswers(b, first.value.1, count - 1);
        if rest.None? then None else Some([first.value.0] + rest.value)
  }

  /** esp_dns_parse_response: the answers up to the limit, each with its address if it is valid; None is ERR_VAL. */
  function ParseResponse(b: seq<Byte>, id: nat, limit: nat): (r: Option<seq<Option<Address>>>) {
    if |b| < HEADER then None
    else
      var answers := ReadU16(b, 6);
      if ReadU16(b, 0) != id || answers == 0 then None
      else
        var end := SkipName(b, HEADER);
        if end.None? || end.value + QUESTION > |b| then None
        else ParseAnswers(b, end.value + QUESTION, if answers < limit then answers else limit)
  }

  // ------------------------------------------------------------------ what a well-formed response gives

  lemma ReadsU16(b: seq<Byte>, i: nat, n: nat)
    requires n < 0x1_0000 && At(b, i, U16(n))
    ensures ReadU16(b, i) == n
  {
    assert b[i + 0] == U16(n)[0] && b[i + 1] == U16(n)[1];
  }

  lemma ReadsU32(b: seq<Byte>, i: nat, n: nat)
    requires n < 0x1_0000_0000 && At(b, i, U32(n))
    ensures ReadU32(b, i) == n
  {
    AtParts(b, i, U16(n / 0x1_0000), U16(n % 0x1_0000));
    ReadsU16(b, i, n / 0x1_0000);
    ReadsU16(b, i + 2, n % 0x1_0000);
  }

  lemma ReadsFixed(b: seq<Byte>, i: nat, x: Record)
    requires IsRecord(x) && At(b, i, FixedBytes(x))
    ensures ReadU16(b, i) == x.kind && ReadU16(b, i + 2) == x.family && ReadU32(b, i + 4) == x.ttl
    ensures ReadU16(b, i + 8) == |x.data|
  {
    var k, c, t, n := U16(x.kind), U16(x.family), U32(x.ttl), U16(|x.data|);
    assert FixedBytes(x) == k + (c + (t + n));
    AtParts(b, i, k, c + (t + n));
    AtParts(b, i + 2, c, t + n);
    AtParts(b, i + 4, t, n);
    ReadsU16(b, i, x.kind);
    ReadsU16(b, i + 2, x.family);
    ReadsU32(b, i + 4, x.ttl);
    ReadsU16(b, i + 8, |x.data|);
  }

  lemma ParsesRecord(b: seq<Byte>, i: nat, x: Record)
    requires IsRecord(x) && At(b, i, RecordBytes(x))
    ensures ParseAnswer(b, i) == Some((AddressOf(x), i + |RecordBytes(x)|))
  {
    var at := i + |NameBytes(x.name)|;
    AtParts(b, i, NameBytes(x.name), FixedBytes(x) + x.data);
    AtParts(b, at, FixedBytes(x), x.data);
    SkipsName(b, i, x.name.labels, x.name.end);
    assert Name(x.name.labels, x.name.end) == x.name;
    ReadsFixed(b, at, x);
    assert b[at + FIXED..at + FIXED + |x.data|] == x.data;
  }

  function Addresses(xs: seq<Record>): (r: seq<Option<Address>>) {
    if xs == [] then [] else [AddressOf(xs[0])] + Addresses(xs[1..])
  }

  lemma ParsesOneMore(b: seq<Byte>, i: nat, count: nat, a: Option<Address>, j: nat, rest: seq<Option<Address>>)
    requires count > 0 && ParseAnswer(b, i) == Some((a, j)) && ParseAnswers(b, j, count - 1) == Some(rest)
    ensures ParseAnswers(b, i, count) == Some([a] + rest)
  {
  }

  lemma AddressesOneMore(xs: seq<Record>, count: nat)
    requires 0 < count <= |xs|
    ensures Addresses(xs[..count]) == [AddressOf(xs[0])] + Addresses(xs[1..][..count - 1])
  {
    assert xs[..count][0] == xs[0] && xs[..count][1..] == xs[1..][..count - 1];
  }

  lemma RecordsSplit(xs: seq<Record>)
    requires xs != [] && forall x <- xs :: IsRecord(x)
    ensures IsRecord(xs[0]) && (forall x <- xs[1..] :: IsRecord(x))
    ensures RecordsBytes(xs) == RecordBytes(xs[0]) + RecordsBytes(xs[1..])
  {
    assert xs[0] in xs;
  }

  lemma {:induction false} ParsesRecords(b: seq<Byte>, i: nat, xs: seq<Record>, count: nat)
    requires (forall x <- xs :: IsRecord(x)) && At(b, i, RecordsBytes(xs)) && count <= |xs|
    ensures ParseAnswers(b, i, count) == Some(Addresses(xs[..count]))
    decreases count
  {
    if count > 0 {
      var j := ParsesFirst(b, i, xs);
      ParsesRecords(b, j, xs[1..], count - 1);
      ParsesOneMore(b, i, count, AddressOf(xs[0]), j, Addresses(xs[1..][..count - 1]));
      AddressesOneMore(xs, count);
    }
  }

  lemma ParsesFirst(b: seq<Byte>, i: nat, xs: seq<Record>) returns (j: nat)
    requires xs != [] && (forall x <- xs :: IsRecord(x)) && At(b, i, RecordsBytes(xs))
    ensures (forall x <- xs[1..] :: IsRecord(x)) && At(b, j, RecordsBytes(xs[1..]))
    ensures ParseAnswer(b, i) == Some((AddressOf(xs[0]), j))
  {
    RecordsSplit(xs);
    AtParts(b, i, RecordBytes(xs[0]), RecordsBytes(xs[1..]));
    ParsesRecord(b, i, xs[0]);
    j := i + |RecordBytes(xs[0])|;
  }

  /** A response to one question: header, question, answers and whatever else. */
  ghost predicate IsResponse(b: seq<Byte>, id: nat, question: Name, xs: seq<Record>) {
    && |b| >= HEADER && IsName(question) && (forall x <- xs :: IsRecord(x)) && 0 < |xs| < 0x1_0000 && id < 0x1_0000
    && ReadU16(b, 0) == id && ReadU16(b, 6) == |xs|
    && At(b, HEADER, NameBytes(question))
    && At(b, HEADER + |NameBytes(question)| + QUESTION, RecordsBytes(xs))
  }

  /** Every well-formed response is read record by record, whether names are written out or end in a pointer, and
      each answer counts exactly when AddressOf says so. */
  lemma ReadsResponse(b: seq<Byte>, id: nat, question: Name, xs: seq<Record>, limit: nat)
    requires IsResponse(b, id, question, xs)
    ensures ParseResponse(b, id, limit) == Some(Addresses(xs[..if |xs| < limit then |xs| else limit]))
  {
    SkipsName(b, HEADER, question.labels, question.end);
    assert Name(question.labels, question.end) == question;
    ParsesRecords(b, HEADER + |NameBytes(question)| + QUESTION, xs, if |xs| < limit then |xs| else limit);
  }

  // ------------------------------------------------------------------ the code

  /** skip_dns_name */
  method Skip(b: seq<Byte>, start: nat) returns (end: Option<nat>)
    requires start <= |b|
    ensures end == SkipName(b, start)
  {
    var i := start;
    while true
      invariant start <= i <= |b| && SkipName(b, start) == SkipName(b, i)
      decreases |b| - i
    {
      if i >= |b| {
        return None;
      }
      if b[i] == 0 {
        return Some(i + 1);
      }
      if b[i] >= 0xC0 {
        return if |b| - i < 2 then None else Some(i + 2);
      }
      if b[i] > 63 || b[i] + 1 > |b| - i {
        return None;
      }
      i := i + b[i] + 1;
    }
  }

  method ReadAnswer(b: seq<Byte>, i: nat) returns (r: Option<(Option<Address>, nat)>)
    requires i <= |b|
    ensures r == ParseAnswer(b, i)
  {
    var end := Skip(b, i);
    if end.None? || end.value + FIXED > |b| {
      return None;
    }
    var at := end.value;
    var kind, family, ttl, n := ReadU16(b, at), ReadU16(b, at + 2), ReadU32(b, at + 4), ReadU16(b, at + 8);
    at := at + FIXED;
    if at + n > |b| {
      return None;
    }
    var address := None;
    if family == CLASS_IN && ttl <= MAX_TTL {
      if kind == TYPE_A && n == 4 {
        address := Some(V4(b[at..at + n]));
      } else if kind == TYPE_AAAA && n == 16 {
        address := Some(V6(b[at..at + n]));
      }
    }
    r := Some((address, at + n));
  }

  /** Some answers, and those that the rest gives. */
  function Followed(answers: seq<Option<Address>>,
                    rest: Option<seq<Option<Address>>>): (r: Option<seq<Option<Address>>>) {
    if rest.None? then None else Some(answers + rest.value)
  }

  lemma ReadNone(rest: Option<seq<Option<Address>>>)
    ensures Followed([], rest) == rest
  {
    if rest.Some? {
      assert [] + rest.value == rest.value;
    }
  }

  lemma ReadOne(b: seq<Byte>, answers: seq<Option<Address>>, i: nat, left: nat, x: Option<(Option<Address>, nat)>,
                goal: Option<seq<Option<Address>>>)
    requires left > 0 && x == ParseAnswer(b, i) && goal == Followed(answers, ParseAnswers(b, i, left))
    ensures goal == if x.None? then None else Followed(answers + [x.value.0], ParseAnswers(b, x.value.1, left - 1))
  {
    if x.Some? {
      var rest := ParseAnswers(b, x.value.1, left - 1);
      if rest.Some? {
        assert answers + ([x.value.0] + rest.value) == answers + [x.value.0] + rest.value;
      }
    }
  }

  /** One turn of the loop over the answers */
  method ReadTurn(b: seq<Byte>, i: nat, answers: seq<Option<Address>>, ghost left: nat,
                  ghost goal: Option<seq<Option<Address>>>)
    returns (ok: bool, next: nat, more: seq<Option<Address>>)
    requires i <= |b| && left > 0 && goal == Followed(answers, ParseAnswers(b, i, left))
    ensures !ok ==> goal.None?
    ensures ok ==> next <= |b| && goal == Followed(more, ParseAnswers(b, next, left - 1))
  {
    var x := ReadAnswer(b, i);
    ReadOne(b, answers, i, left, x, goal);
    if x.None? {
      return false, i, answers;
    }
    ok, next, more := true, x.value.1, answers + [x.value.0];
  }

  /** The loop over the answers */
  method ReadAnswers(b: seq<Byte>, from: nat, total: nat) returns (r: Option<seq<Option<Address>>>)
    requires from <= |b|
    ensures r == ParseAnswers(b, from, total)
  {
    var i: nat := from;
    var left: nat := total;
    var answers: seq<Option<Address>> := [];
    ghost var goal := ParseAnswers(b, from, total);
    ReadNone(goal);
    while left > 0
      invariant i <= |b| && goal == Followed(answers, ParseAnswers(b, i, left))
    {
      var ok;
      ok, i, answers := ReadTurn(b, i, answers, left, goal);
      if !ok {
        return None;
      }
      left := left - 1;
    }
    assert answers + [] == answers;
    r := Some(answers);
  }

  /** esp_dns_parse_response */
  method Parse(b: seq<Byte>, id: nat, limit: nat) returns (r: Option<seq<Option<Address>>>)
    ensures r == ParseResponse(b, id, limit)
  {
    if |b| < HEADER {
      return None;
    }
    var count := ReadU16(b, 6);
    if ReadU16(b, 0) != id || count == 0 {
      return None;
    }
    var end := Skip(b, HEADER);
    if end.None? || end.value + QUESTION > |b| {
      return None;
    }
    r := ReadAnswers(b, end.value + QUESTION, if count < limit then count else limit);
  }

  // ------------------------------------------------------------------ the addresses

  /** The valid answers in order, up to a limit. */
  function Valid(answers: seq<Option<Address>>, limit: nat): (r: seq<Address>) {
    if answers == [] || limit == 0 then []
    else if answers[0].Some? then [answers[0].value] + Valid(answers[1..], limit - 1)
    else Valid(answers[1..], limit)
  }

  /** esp_dns_extract_ip_addresses_from_response; without an address it is ERR_VAL */
  method Extract(response: Option<seq<Option<Address>>>, limit: nat) returns (ok: bool, addresses: seq<Address>)
    ensures addresses == (if response.Some? then Valid(response.value, limit) else [])
    ensures ok <==> addresses != []
  {
    addresses := [];
    if response.None? {
      return false, [];
    }
    var answers := response.value;
    var i := 0;
    assert answers[0..] == answers;
    while i < |answers| && |addresses| < limit
      invariant 0 <= i <= |answers| && |addresses| <= limit
      invariant Valid(answers, limit) == addresses + Valid(answers[i..], limit - |addresses|)
    {
      assert answers[i..][1..] == answers[i + 1..];
      if answers[i].Some? {
        addresses := addresses + [answers[i].value];
      }
      i := i + 1;
    }
    assert i == |answers| ==> answers[i..] == [];
    ok := addresses != [];
  }

  lemma {:induction false} AllValid(xs: seq<Record>, limit: nat)
    requires |xs| <= limit
    ensures Valid(Addresses(xs), limit) == Collected(xs)
  {
    if xs != [] {
      assert Addresses(xs)[1..] == Addresses(xs[1..]);
      AllValid(xs[1..], if AddressOf(xs[0]).Some? then limit - 1 else limit);
    }
  }

  function Collected(xs: seq<Record>): (r: seq<Address>) {
    if xs == [] then [] else (if AddressOf(xs[0]).Some? then [AddressOf(xs[0]).value] else []) + Collected(xs[1..])
  }

  /** From response to addresses: with room for the limit that the parser keeps to, the valid ones among the first
      answers, in order, and nothing else. */
  lemma ResponseToAddresses(b: seq<Byte>, id: nat, question: Name, xs: seq<Record>, limit: nat)
    requires IsResponse(b, id, question, xs)
    ensures ParseResponse(b, id, limit).Some?
    ensures Valid(ParseResponse(b, id, limit).value, limit) == Collected(xs[..if |xs| < limit then |xs| else limit])
  {
    ReadsResponse(b, id, question, xs, limit);
    AllValid(xs[..if |xs| < limit then |xs| else limit], limit);
  }
}
