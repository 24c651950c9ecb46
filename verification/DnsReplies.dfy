/** Which responses esp_dns_parse_response of components/esp_dns/esp_dns_utils.c accepts: exactly the well-formed ones
    with the identifier that was asked with. */
module DnsReplies {
  import opened Common
  import opened Octets
  import opened DnsResponse

  // ------------------------------------------------------------------ what is skipped is a name

  lemma AtJoin(b: seq<Byte>, i: nat, x: seq<Byte>, y: seq<Byte>)
    requires At(b, i, x) && At(b, i + |x|, y)
    ensures At(b, i, x + y)
  {
    forall k | 0 <= k < |x + y| ensures b[i + k] == (x + y)[k] {
      if k >= |x| {
        assert b[i + |x| + (k - |x|)] == y[k - |x|];
      }
    }
  }

  lemma AtSlice(b: seq<Byte>, i: nat, j: nat)
    requires i <= j <= |b|
    ensures At(b, i, b[i..j])
  {
  }

  lemma NameMore(l: seq<Byte>, n: Name)
    requires IsName(n) && 1 <= |l| <= 63
    ensures IsName(Name([l] + n.labels, n.end))
    ensures NameBytes(Name([l] + n.labels, n.end)) == [|l|] + l + NameBytes(n)
  {
    assert ([l] + n.labels)[1..] == n.labels;
    assert [|l|] + l + LabelBytes(n.labels) + EndBytes(n.end) == [|l|] + l + (LabelBytes(n.labels) + EndBytes(n.end));
  }

  lemma EndStands(b: seq<Byte>, i: nat, e: nat) returns (n: Name)
    requires SkipName(b, i) == Some(e) && i < |b| && (b[i] == 0 || b[i] >= 0xC0)
    ensures IsName(n) && At(b, i, NameBytes(n)) && e == i + |NameBytes(n)|
  {
    if b[i] == 0 {
      n := Name([], Root);
      assert NameBytes(n) == [0];
    } else {
      n := Name([], Pointer((b[i] - 0xC0) as int * 256 + b[i + 1]));
      assert NameBytes(n) == [b[i], b[i + 1]];
    }
  }

  lemma {:induction false} SkippedIsName(b: seq<Byte>, i: nat, e: nat) returns (n: Name)
    requires SkipName(b, i) == Some(e)
    ensures IsName(n) && At(b, i, NameBytes(n)) && e == i + |NameBytes(n)|
    decreases |b| - i
  {
    if b[i] == 0 || b[i] >= 0xC0 {
      n := EndStands(b, i, e);
    } else {
      var l := b[i + 1..i + 1 + b[i]];
      var rest := SkippedIsName(b, i + 1 + b[i], e);
      n := Name([l] + rest.labels, rest.end);
      NameMore(l, rest);
      assert [|l|] + l == b[i..i + 1 + |l|];
      AtSlice(b, i, i + 1 + |l|);
      AtJoin(b, i, [|l|] + l, NameBytes(rest));
    }
  }

  // ------------------------------------------------------------------ what is read is a record

  lemma NumberStands(b: seq<Byte>, i: nat)
    requires i + 2 <= |b|
    ensures At(b, i, U16(ReadU16(b, i)))
  {
    assert U16(ReadU16(b, i)) == [b[i], b[i + 1]];
  }

  lemma LongNumberStands(b: seq<Byte>, i: nat)
    requires i + 4 <= |b|
    ensures At(b, i, U32(ReadU32(b, i)))
  {
    NumberStands(b, i);
    NumberStands(b, i + 2);
    AtJoin(b, i, U16(ReadU16(b, i)), U16(ReadU16(b, i + 2)));
  }

  lemma FixedStands(b: seq<Byte>, at: nat, x: Record)
    requires IsRecord(x) && at + FIXED <= |b| && x.kind == ReadU16(b, at) && x.family == ReadU16(b, at + 2)
    requires x.ttl == ReadU32(b, at + 4) && |x.data| == ReadU16(b, at + 8)
    ensures At(b, at, FixedBytes(x))
  {
    NumberStands(b, at);
    NumberStands(b, at + 2);
    LongNumberStands(b, at + 4);
    NumberStands(b, at + 8);
    var k, c, t, n := U16(x.kind), U16(x.family), U32(x.ttl), U16(|x.data|);
    AtJoin(b, at, k, c);
    AtJoin(b, at, k + c, t);
    AtJoin(b, at, k + c + t, n);
    assert FixedBytes(x) == k + c + t + n;
  }

  lemma AnswerIsRecord(b: seq<Byte>, i: nat) returns (x: Record)
    requires ParseAnswer(b, i).Some?
    ensures IsRecord(x) && At(b, i, RecordBytes(x))
    ensures ParseAnswer(b, i) == Some((AddressOf(x), i + |RecordBytes(x)|))
  {
    var at := SkipName(b, i).value;
    var n := SkippedIsName(b, i, at);
    var size := ReadU16(b, at + 8);
    var data := b[at + FIXED..at + FIXED + size];
    x := Record(n, ReadU16(b, at), ReadU16(b, at + 2), ReadU32(b, at + 4), data);
    FixedStands(b, at, x);
    AtSlice(b, at + FIXED, at + FIXED + size);
    AtJoin(b, at, FixedBytes(x), data);
    AtJoin(b, i, NameBytes(n), FixedBytes(x) + data);
    ParsesRecord(b, i, x);
  }

  lemma {:induction false} AnswersAreRecords(b: seq<Byte>, i: nat, count: nat) returns (xs: seq<Record>)
    requires i <= |b| && ParseAnswers(b, i, count).Some?
    ensures |xs| == count && (forall x <- xs :: IsRecord(x)) && At(b, i, RecordsBytes(xs))
    decreases count
  {
    xs := [];
    if count > 0 {
      var x := AnswerIsRecord(b, i);
      var j := i + |RecordBytes(x)|;
      var rest := AnswersAreRecords(b, j, count - 1);
      xs := [x] + rest;
      assert xs[1..] == rest;
      AtJoin(b, i, RecordBytes(x), RecordsBytes(rest));
    }
  }

  // ------------------------------------------------------------------ the whole response

  /** Byte by byte: the identifier, a number of answers, a question, and as many records as are looked at. */
  ghost predicate IsReply(b: seq<Byte>, id: nat, limit: nat, question: Name, xs: seq<Record>) {
    && |b| >= 12 && b[0] as int * 256 + b[1] as int == id
    && var count := b[6] as int * 256 + b[7] as int;
    && count > 0 && |xs| == (if count < limit then count else limit)
    && IsName(question) && At(b, 12, NameBytes(question)) && (forall x <- xs :: IsRecord(x))
    && At(b, 12 + |NameBytes(question)| + 4, RecordsBytes(xs))
  }

  lemma QuestionSkipped(b: seq<Byte>, question: Name)
    requires IsName(question) && At(b, HEADER, NameBytes(question))
    ensures SkipName(b, HEADER) == Some(HEADER + |NameBytes(question)|)
  {
    assert Name(question.labels, question.end) == question;
    SkipsName(b, HEADER, question.labels, question.end);
  }

  lemma AnswersRead(b: seq<Byte>, i: nat, xs: seq<Record>)
    requires (forall x <- xs :: IsRecord(x)) && At(b, i, RecordsBytes(xs))
    ensures ParseAnswers(b, i, |xs|) == Some(Addresses(xs))
  {
    ParsesRecords(b, i, xs, |xs|);
    assert xs[..|xs|] == xs;
  }

  lemma Assembled(b: seq<Byte>, id: nat, limit: nat, end: nat, n: nat, r: seq<Option<Address>>)
    requires |b| >= 12 && b[0] as int * 256 + b[1] as int == id && end + QUESTION <= |b|
    requires var count := b[6] as int * 256 + b[7] as int; count > 0 && n == if count < limit then count else limit
    requires SkipName(b, HEADER) == Some(end) && ParseAnswers(b, end + QUESTION, n) == Some(r)
    ensures ParseResponse(b, id, limit) == Some(r)
  {
  }

  lemma ReplyIsRead(b: seq<Byte>, id: nat, limit: nat, question: Name, xs: seq<Record>)
    requires IsReply(b, id, limit, question, xs)
    ensures ParseResponse(b, id, limit) == Some(Addresses(xs))
  {
    QuestionSkipped(b, question);
    AnswersRead(b, HEADER + |NameBytes(question)| + QUESTION, xs);
    Assembled(b, id, limit, HEADER + |NameBytes(question)|, |xs|, Addresses(xs));
  }

  lemma ReadIsReply(b: seq<Byte>, id: nat, limit: nat) returns (question: Name, xs: seq<Record>)
    requires ParseResponse(b, id, limit).Some?
    ensures IsReply(b, id, limit, question, xs)
  {
    var end := SkipName(b, HEADER).value;
    question := SkippedIsName(b, HEADER, end);
    var count := ReadU16(b, 6);
    xs := AnswersAreRecords(b, end + QUESTION, if count < limit then count else limit);
  }

  /** Which records count: Internet records that live for at most a week, with the four bytes of an IPv4 address or the
      sixteen of an IPv6 address. */
  ghost predicate Gives(x: Record, a: Option<Address>) {
    && (a.Some? && a.value.V4? <==> x.family == 1 && x.ttl <= 7 * 24 * 3600 && x.kind == 1 && |x.data| == 4)
    && (a.Some? && a.value.V6? <==> x.family == 1 && x.ttl <= 7 * 24 * 3600 && x.kind == 28 && |x.data| == 16)
    && (a.Some? ==> a.value.bytes == x.data)
  }

  ghost predicate GiveAll(xs: seq<Record>, addresses: seq<Option<Address>>) {
    |addresses| == |xs| && forall k | 0 <= k < |xs| :: Gives(xs[k], addresses[k])
  }

  lemma {:induction false} AddressesGiven(xs: seq<Record>)
    ensures GiveAll(xs, Addresses(xs))
  {
    if xs != [] {
      AddressesGiven(xs[1..]);
      assert GiveAll([xs[0]] + xs[1..], [AddressOf(xs[0])] + Addresses(xs[1..]));
      assert [xs[0]] + xs[1..] == xs;
    }
  }

  /** For every buffer: it is accepted if and only if it is a reply with this identifier, and then read as the
      addresses of its records, whichever way it is seen as a reply. */
  lemma AcceptedExactly(b: seq<Byte>, id: nat, limit: nat)
    ensures ParseResponse(b, id, limit).Some? <==> exists question, xs :: IsReply(b, id, limit, question, xs)
    ensures forall question, xs | IsReply(b, id, limit, question, xs) ::
              ParseResponse(b, id, limit).Some? && GiveAll(xs, ParseResponse(b, id, limit).value)
  {
    if ParseResponse(b, id, limit).Some? {
      var question, xs := ReadIsReply(b, id, limit);
    }
    forall question, xs | IsReply(b, id, limit, question, xs)
      ensures ParseResponse(b, id, limit).Some? && GiveAll(xs, ParseResponse(b, id, limit).value)
    {
      ReplyIsRead(b, id, limit, question, xs);
      AddressesGiven(xs);
    }
  }
}
