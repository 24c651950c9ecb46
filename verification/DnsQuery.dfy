/** The query of components/esp_dns/esp_dns_utils.c: what it asks for, and how it is written into its buffer. */
module DnsQuery {
  import opened Common
  import opened Octets
  import opened DnsResponse

  const DOT: Byte := 0x2E

  /** Up to the next dot. */
  function Upto(host: seq<Byte>): (r: seq<Byte>)
    ensures |r| <= |host| && DOT !in r
  {
    if host == [] || host[0] == DOT then [] else [host[0]] + Upto(host[1..])
  }

  /** Behind the next dot. */
  function Beyond(host: seq<Byte>): (r: seq<Byte>)
    requires host != []
    ensures |r| < |host|
  {
    var n := |Upto(host)|;
    if n < |host| then host[n + 1..] else []
  }

  /** The host name split at its dots; one at the very end does not count. */
  function Labels(host: seq<Byte>): (r: seq<seq<Byte>>)
    decreases |host|
  {
    if host == [] then [] else [Upto(host)] + Labels(Beyond(host))
  }

  function Dotted(labels: seq<seq<Byte>>): (r: seq<Byte>) {
    if labels == [] then [] else if |labels| == 1 then labels[0] else labels[0] + [DOT] + Dotted(labels[1..])
  }

  lemma {:induction false} UptoIsPrefix(host: seq<Byte>)
    ensures host[..|Upto(host)|] == Upto(host) && (|Upto(host)| < |host| ==> host[|Upto(host)|] == DOT)
  {
    if host != [] && host[0] != DOT {
      UptoIsPrefix(host[1..]);
      assert host == [host[0]] + host[1..];
    }
  }

  lemma HostSplits(host: seq<Byte>)
    requires host != []
    ensures if |Upto(host)| < |host| then host == Upto(host) + [DOT] + Beyond(host)
            else host == Upto(host) && Beyond(host) == []
  {
    UptoIsPrefix(host);
  }

  lemma DottedCons(first: seq<Byte>, labels: seq<seq<Byte>>)
    ensures Dotted([first] + labels) == if labels == [] then first else first + [DOT] + Dotted(labels)
  {
    assert ([first] + labels)[1..] == labels;
  }

  /** The labels are those of the host name: joined by dots they are the name, but for one dot at the end. */
  lemma {:induction false} LabelsJoin(host: seq<Byte>)
    ensures host == Dotted(Labels(host)) || host == Dotted(Labels(host)) + [DOT]
    decreases |host|
  {
    if host != [] {
      HostSplits(host);
      LabelsJoin(Beyond(host));
      DottedCons(Upto(host), Labels(Beyond(host)));
      RegroupDot(Upto(host), Dotted(Labels(Beyond(host))));
    }
  }

  lemma RegroupDot(a: seq<Byte>, b: seq<Byte>)
    ensures a + [DOT] + (b + [DOT]) == a + [DOT] + b + [DOT] && a + [DOT] + [] == a + [DOT]
  {
  }

  lemma {:induction false} LabelsHaveNoDot(host: seq<Byte>)
    ensures forall l <- Labels(host) :: DOT !in l
    decreases |host|
  {
    if host != [] {
      LabelsHaveNoDot(Beyond(host));
    }
  }

  /** A label's length is stored in one byte, and so many bytes are copied. */
  function Piece(l: seq<Byte>): (r: seq<Byte>) {
    [|l| % 256] + l[..|l| % 256]
  }

  /** The name that esp_dns_create_query writes for these labels */
  function Question(labels: seq<seq<Byte>>): (r: seq<Byte>)
    ensures r != []
  {
    if labels == [] then [0] else Piece(labels[0]) + Question(labels[1..])
  }

  /** Every label has 1 to 63 bytes, as section 3.1 of RFC 1035 asks. */
  predicate AreProper(labels: seq<seq<Byte>>) {
    labels == [] || (1 <= |labels[0]| <= 63 && AreProper(labels[1..]))
  }

  /** At i stands a name without pointers that has these labels and ends at end, as section 3.1 of RFC 1035 reads
      it. */
  predicate ReadsAs(b: seq<Byte>, i: nat, labels: seq<seq<Byte>>, end: nat)
    decreases |labels|
  {
    i < |b| &&
    if labels == [] then b[i] == 0 && end == i + 1
    else
      && 1 <= b[i] <= 63 && i + 1 + b[i] <= |b| && b[i + 1..i + 1 + b[i]] == labels[0]
      && ReadsAs(b, i + 1 + b[i], labels[1..], end)
  }

  lemma HeldLabel(b: seq<Byte>, i: nat, l: seq<Byte>)
    requires At(b, i, Piece(l))
    ensures var n := |l| % 256; i + 1 + n <= |b| && b[i] == n && b[i + 1..i + 1 + n] == l[..n]
  {
    var n, first := |l| % 256, Piece(l);
    AtFirst(b, i, first);
    forall k | 0 <= k < n ensures b[i + 1..i + 1 + n][k] == l[k] {
      assert b[i + (1 + k)] == first[1 + k];
    }
  }

  lemma LabelDecides(b: seq<Byte>, i: nat, labels: seq<seq<Byte>>, l: seq<Byte>, n: nat, end: nat)
    requires labels != [] && l == labels[0]
    requires n == |l| % 256 && i + 1 + n <= |b| && b[i] == n && b[i + 1..i + 1 + n] == l[..n]
    ensures ReadsAs(b, i, labels, end) <==> 1 <= |l| <= 63 && ReadsAs(b, i + 1 + n, labels[1..], end)
  {
    if |l| <= 63 {
      assert l[..|l|] == l;
    }
  }

  /** The question is for these labels if and only if all of them are proper: otherwise reading it fails, ends
      somewhere else or gives another name. */
  lemma {:induction false} QuestionIsFor(b: seq<Byte>, i: nat, labels: seq<seq<Byte>>)
    requires At(b, i, Question(labels))
    ensures ReadsAs(b, i, labels, i + |Question(labels)|) <==> AreProper(labels)
    decreases |labels|
  {
    if labels == [] {
      AtFirst(b, i, Question(labels));
    } else {
      var l, rest := labels[0], labels[1..];
      AtParts(b, i, Piece(l), Question(rest));
      HeldLabel(b, i, l);
      LabelDecides(b, i, labels, l, |l| % 256, i + |Question(labels)|);
      QuestionIsFor(b, i + |Piece(l)|, rest);
    }
  }

  /** Proper labels are written as a name, so the reader finds its end. */
  lemma {:induction false} ProperIsName(labels: seq<seq<Byte>>)
    requires AreProper(labels)
    ensures IsName(Name(labels, Root)) && Question(labels) == NameBytes(Name(labels, Root))
    decreases |labels|
  {
    if labels != [] {
      ProperIsName(labels[1..]);
      ShortPiece(labels[0]);
      assert labels == [labels[0]] + labels[1..];
      NameCons(labels);
    }
  }

  lemma ShortPiece(l: seq<Byte>)
    requires |l| <= 63
    ensures Piece(l) == [|l|] + l
  {
    assert l[..|l|] == l;
  }

  lemma NameCons(labels: seq<seq<Byte>>)
    requires labels != [] && IsName(Name(labels, Root)) && IsName(Name(labels[1..], Root)) && |labels[0]| <= 63
    ensures NameBytes(Name(labels, Root)) == [|labels[0]|] + labels[0] + NameBytes(Name(labels[1..], Root))
  {
  }

  lemma QuerySkips(b: seq<Byte>, i: nat, labels: seq<seq<Byte>>)
    requires At(b, i, Question(labels)) && AreProper(labels)
    ensures SkipName(b, i) == Some(i + |Question(labels)|)
  {
    ProperIsName(labels);
    SkipsName(b, i, labels, Root);
  }

  /** Every label has a stored length of 1 to 63. */
  predicate AreSkippable(labels: seq<seq<Byte>>) {
    labels == [] || (1 <= |labels[0]| % 256 <= 63 && AreSkippable(labels[1..]))
  }

  lemma SkipsBadLabel(b: seq<Byte>, i: nat, n: nat, length: nat)
    requires i < |b| && b[i] == n && (n == 0 || n > 63) && length >= n + 2
    ensures SkipName(b, i) != Some(i + length)
  {
  }

  /** The end of the question is found for more names than that: only the stored byte of each length counts. */
  lemma {:induction false} QueryEndIsFound(b: seq<Byte>, i: nat, labels: seq<seq<Byte>>)
    requires At(b, i, Question(labels))
    ensures SkipName(b, i) == Some(i + |Question(labels)|) <==> AreSkippable(labels)
    decreases |labels|
  {
    AtFirst(b, i, Question(labels));
    if labels != [] {
      var n, first, rest := |labels[0]| % 256, Piece(labels[0]), Question(labels[1..]);
      AtParts(b, i, first, rest);
      if 1 <= n <= 63 {
        SkipsLabel(b, i, n);
        QueryEndIsFound(b, i + |first|, labels[1..]);
      } else {
        SkipsBadLabel(b, i, n, |first| + |rest|);
      }
    }
  }

  function Cut(labels: seq<seq<Byte>>): (r: seq<seq<Byte>>)
    ensures |r| == |labels|
  {
    seq(|labels|, i requires 0 <= i < |labels| => labels[i][..|labels[i]| % 256])
  }

  lemma CutNext(labels: seq<seq<Byte>>)
    requires labels != []
    ensures Cut(labels)[0] == labels[0][..|labels[0]| % 256] && Cut(labels)[1..] == Cut(labels[1..])
  {
  }

  lemma CutPiece(l: seq<Byte>)
    ensures var n := |l| % 256; |l[..n]| == n && Piece(l[..n]) == Piece(l)
  {
    var k := l[..|l| % 256];
    assert k[..|k|] == k;
  }

  lemma {:induction false} CutQuestion(labels: seq<seq<Byte>>)
    requires AreSkippable(labels)
    ensures AreProper(Cut(labels)) && Question(Cut(labels)) == Question(labels)
  {
    if labels != [] {
      CutQuestion(labels[1..]);
      CutPiece(labels[0]);
      CutNext(labels);
    }
  }

  /** The names in between, like a host of 257 bytes without a dot: the reader is content, but the question is for
      another name, in which 256 bytes of a label are missing, or more. */
  lemma LongLabelsAskForAnother(b: seq<Byte>, i: nat, labels: seq<seq<Byte>>)
    requires At(b, i, Question(labels)) && AreSkippable(labels) && !AreProper(labels)
    ensures SkipName(b, i) == Some(i + |Question(labels)|)
    ensures Cut(labels) != labels && ReadsAs(b, i, Cut(labels), i + |Question(labels)|)
  {
    QueryEndIsFound(b, i, labels);
    CutQuestion(labels);
    QuestionIsFor(b, i, Cut(labels));
  }

  // ------------------------------------------------------------------ the code

  /** The search for the next dot in esp_dns_create_query, and where it goes on */
  method NextLabel(host: seq<Byte>) returns (l: seq<Byte>, rest: seq<Byte>)
    requires host != []
    ensures Labels(host) != [] && l == Labels(host)[0] && Labels(rest) == Labels(host)[1..] && |rest| < |host|
  {
    var n := 0;
    while n < |host| && host[n] != DOT
      invariant 0 <= n <= |host| && Upto(host) == host[..n] + Upto(host[n..])
    {
      assert host[n..][1..] == host[n + 1..] && host[..n + 1] == host[..n] + [host[n]];
      n := n + 1;
    }
    l := host[..n];
    rest := if n < |host| then host[n + 1..] else [];
    LabelsNext(host);
  }

  lemma LabelsNext(host: seq<Byte>)
    requires host != []
    ensures Labels(host) != [] && Labels(host)[0] == Upto(host) && Labels(host)[1..] == Labels(Beyond(host))
  {
  }

  lemma Regroup(a: seq<Byte>, x: seq<Byte>, y: seq<Byte>)
    ensures a + (x + y) == a + x + y
  {
  }

  /** A run of bytes replaced. */
  function Overwritten(was: seq<Byte>, at: nat, bytes: seq<Byte>): (r: seq<Byte>)
    requires at + |bytes| <= |was|
    ensures |r| == |was|
  {
    was[..at] + bytes + was[at + |bytes|..]
  }

  lemma OverwrittenNext(was: seq<Byte>, at: nat, x: seq<Byte>, y: seq<Byte>)
    requires at + |x| + |y| <= |was|
    ensures Overwritten(Overwritten(was, at, x), at + |x|, y) == Overwritten(was, at, x + y)
  {
  }

  method Store(memory: array<Byte>, at: nat, bytes: seq<Byte>)
    requires at + |bytes| <= memory.Length
    modifies memory
    ensures memory[..] == Overwritten(old(memory[..]), at, bytes)
  {
    forall i | 0 <= i < |bytes| {
      memory[at + i] := bytes[i];
    }
  }

  /** Bytes behind those that were written so far */
  method Append(memory: array<Byte>, end: nat, bytes: seq<Byte>,
                ghost was: seq<Byte>, ghost start: nat, ghost done: seq<Byte>)
    requires |was| == memory.Length && end == start + |done| && end + |bytes| <= memory.Length
    requires memory[..] == Overwritten(was, start, done)
    modifies memory
    ensures memory[..] == Overwritten(was, start, done + bytes)
  {
    OverwrittenNext(was, start, done, bytes);
    Store(memory, end, bytes);
  }

  /** What the loop over the labels writes into a buffer of this size, and whether the test of the size lets it end. */
  datatype Plan = Plan(bytes: seq<Byte>, ok: bool)

  /** A length is stored, and only then the size is looked at. */
  function PlanFor(labels: seq<seq<Byte>>, at: nat, size: nat): (r: Plan)
    decreases |labels|
  {
    if labels == [] then Plan([0], true)
    else if at + 1 > size then Plan([|labels[0]| % 256], false)
    else
      var rest := PlanFor(labels[1..], at + |Piece(labels[0])|, size);
      Plan(Piece(labels[0]) + rest.bytes, rest.ok)
  }

  /** What is written is the question, up to one byte behind the first length that lies outside the buffer. */
  lemma {:induction false} PlanIsQuestion(labels: seq<seq<Byte>>, at: nat, size: nat)
    ensures var plan, q := PlanFor(labels, at, size), Question(labels);
            && |plan.bytes| <= |q| && plan.bytes == q[..|plan.bytes|]
            && if plan.ok then plan.bytes == q else at + |plan.bytes| > size
    decreases |labels|
  {
    if labels != [] {
      var l, rest, next := labels[0], labels[1..], at + |Piece(labels[0])|;
      PlanIsQuestion(rest, next, size);
      PrefixOfBoth(Piece(l), PlanFor(rest, next, size).bytes, Question(rest));
      assert Piece(l)[..1] == [|l| % 256];
    }
  }

  lemma PrefixOfBoth(x: seq<Byte>, y: seq<Byte>, z: seq<Byte>)
    requires |y| <= |z| && y == z[..|y|]
    ensures x + y == (x + z)[..|x| + |y|]
    ensures x != [] ==> (x + z)[..1] == x[..1]
  {
  }

  /** And an error is reported if and only if the last label already starts outside. */
  lemma {:induction false} ErrorExactly(labels: seq<seq<Byte>>, at: nat, size: nat)
    ensures PlanFor(labels, at, size).ok <==>
            labels == [] || at + |Question(labels)| - |Piece(labels[|labels| - 1])| <= size
    decreases |labels|
  {
    if labels != [] {
      var rest, next := labels[1..], at + |Piece(labels[0])|;
      assert |Question(labels)| == |Piece(labels[0])| + |Question(rest)|;
      if rest != [] {
        ErrorExactly(rest, next, size);
        QuestionIsLonger(rest);
        assert rest[|rest| - 1] == labels[|labels| - 1];
      }
    }
  }

  lemma {:induction false} QuestionIsLonger(labels: seq<seq<Byte>>)
    requires labels != []
    ensures |Question(labels)| > |Piece(labels[|labels| - 1])|
    decreases |labels|
  {
    if |labels| > 1 {
      QuestionIsLonger(labels[1..]);
    }
  }

  lemma PlanStops(labels: seq<seq<Byte>>, at: nat, size: nat)
    requires labels != [] && at + 1 > size
    ensures PlanFor(labels, at, size) == Plan([|labels[0]| % 256], false)
  {
  }

  lemma PlanGoesOn(labels: seq<seq<Byte>>, rest: seq<seq<Byte>>, at: nat, size: nat) returns (left: Plan)
    requires labels != [] && rest == labels[1..] && at + 1 <= size
    ensures left == PlanFor(rest, at + |Piece(labels[0])|, size)
    ensures PlanFor(labels, at, size) == Plan(Piece(labels[0]) + left.bytes, left.ok)
  {
    left := PlanFor(rest, at + |Piece(labels[0])|, size);
  }

  /** One label of the host name: what is left of the plan afterwards. */
  method WriteLabel(memory: array<Byte>, size: nat, end: nat, l: seq<Byte>, ghost labels: seq<seq<Byte>>,
                    ghost was: seq<Byte>, ghost start: nat, ghost done: seq<Byte>, ghost plan: seq<Byte>)
    returns (ok: bool, next: nat, ghost written: seq<Byte>)
    requires labels != [] && l == labels[0] && |was| == memory.Length && start + |plan| <= memory.Length
    requires end == start + |done| && done + PlanFor(labels, end, size).bytes == plan && |done| <= |plan|
    requires memory[..] == Overwritten(was, start, done)
    modifies memory
    ensures ok == (end + 1 <= size) && next == start + |written| && |written| <= |plan|
    ensures memory[..] == Overwritten(was, start, written)
    ensures !ok ==> written == plan && !PlanFor(labels, end, size).ok
    ensures ok ==> written + PlanFor(labels[1..], next, size).bytes == plan
    ensures ok ==> PlanFor(labels[1..], next, size).ok == PlanFor(labels, end, size).ok
  {
    if end + 1 > size {
      PlanStops(labels, end, size);
      Append(memory, end, [|l| % 256], was, start, done);
      return false, end + 1, plan;
    }
    ghost var left := PlanGoesOn(labels, labels[1..], end, size);
    Regroup(done, Piece(l), left.bytes);
    written := done + Piece(l);
    Append(memory, end, Piece(l), was, start, done);
    ok, next := true, end + |Piece(l)|;
  }

  /** The loop of esp_dns_create_query over the labels of the host name. memory is all that lies from the buffer on,
      and size how much of it is the buffer. */
  method WriteQuestion(memory: array<Byte>, size: nat, start: nat, host: seq<Byte>) returns (ok: bool, end: nat)
    requires start + |PlanFor(Labels(host), start, size).bytes| <= memory.Length
    modifies memory
    ensures var plan := PlanFor(Labels(host), start, size);
            && ok == plan.ok && end == start + |plan.bytes|
            && memory[..] == Overwritten(old(memory[..]), start, plan.bytes)
  {
    var rest: seq<Byte> := host;
    ghost var was, plan := memory[..], PlanFor(Labels(host), start, size);
    ghost var labels, done: seq<Byte> := Labels(host), [];
    end := start;
    assert Overwritten(was, start, []) == was && [] + plan.bytes == plan.bytes;
    while rest != []
      invariant end == start + |done| && |done| <= |plan.bytes| && labels == Labels(rest)
      invariant done + PlanFor(labels, end, size).bytes == plan.bytes && PlanFor(labels, end, size).ok == plan.ok
      invariant memory[..] == Overwritten(was, start, done)
      decreases |rest|
    {
      var l;
      l, rest := NextLabel(rest);
      ok, end, done := WriteLabel(memory, size, end, l, labels, was, start, done, plan.bytes);
      if !ok {
        return;
      }
      labels := labels[1..];
    }
    Append(memory, end, [0], was, start, done);
    end := end + 1;
    ok := true;
  }

  /** The whole query: header, question, type and class */
  function Query(id: nat, labels: seq<seq<Byte>>, kind: nat): (r: seq<Byte>)
    requires id < 0x1_0000 && kind < 0x1_0000
  {
    QueryHead(id) + Question(labels) + (U16(kind) + U16(CLASS_IN))
  }

  function QueryHead(id: nat): (r: seq<Byte>)
    requires id < 0x1_0000
    ensures |r| == HEADER
  {
    U16(id) + U16(0x0100) + U16(1) + U16(0) + U16(0) + U16(0)
  }

  /** How far the code has written when it returns, with an error or not. */
  function Reached(labels: seq<seq<Byte>>, size: nat): (r: nat) {
    var plan := PlanFor(labels, HEADER, size);
    HEADER + |plan.bytes| + if plan.ok then QUESTION else 0
  }

  /** It writes past its buffer if and only if the query does not fit, whether it then reports an error or not. */
  lemma OverrunsExactly(labels: seq<seq<Byte>>, size: nat)
    ensures Reached(labels, size) > size <==> HEADER + |Question(labels)| + QUESTION > size
    ensures Reached(labels, size) <= HEADER + |Question(labels)| + QUESTION
  {
    PlanIsQuestion(labels, HEADER, size);
  }

  function Zeroed(was: seq<Byte>, size: nat): (r: seq<Byte>)
    requires size <= |was|
    ensures |r| == |was|
  {
    seq(size, i => 0) + was[size..]
  }

  /** What is written of the query when the loop over the labels is done. */
  lemma QueryPrefix(id: nat, labels: seq<seq<Byte>>, kind: nat, plan: Plan, size: nat)
    requires id < 0x1_0000 && kind < 0x1_0000 && plan == PlanFor(labels, HEADER, size)
    ensures var q := Query(id, labels, kind);
            && |q| == HEADER + |Question(labels)| + QUESTION && Reached(labels, size) <= |q|
            && (!plan.ok ==> QueryHead(id) + plan.bytes == q[..Reached(labels, size)])
            && (plan.ok ==> QueryHead(id) + plan.bytes + (U16(kind) + U16(CLASS_IN)) == q[..Reached(labels, size)])
  {
    PlanIsQuestion(labels, HEADER, size);
  }

  /** esp_dns_create_query; id is random. */
  method CreateQuery(memory: array<Byte>, size: nat, host: seq<Byte>, kind: nat, id: nat) returns (r: int)
    requires id < 0x1_0000 && kind < 0x1_0000 && size <= memory.Length && Reached(Labels(host), size) <= memory.Length
    modifies memory
    ensures r == if PlanFor(Labels(host), HEADER, size).ok then |Query(id, Labels(host), kind)| else -1
    ensures Reached(Labels(host), size) <= |Query(id, Labels(host), kind)|
    ensures memory[..] == Overwritten(Zeroed(old(memory[..]), size), 0,
                                      Query(id, Labels(host), kind)[..Reached(Labels(host), size)])
  {
    ghost var zeroed, plan := Zeroed(memory[..], size), PlanFor(Labels(host), HEADER, size);
    forall i | 0 <= i < size {
      memory[i] := 0;
    }
    assert memory[..] == zeroed;
    QueryPrefix(id, Labels(host), kind, plan, size);
    Store(memory, 0, U16(id) + U16(0x0100) + U16(1) + U16(0) + U16(0) + U16(0));
    OverwrittenNext(zeroed, 0, QueryHead(id), plan.bytes);
    var ok, end := WriteQuestion(memory, size, HEADER, host);
    if !ok {
      return -1;
    }
    Append(memory, end, U16(kind) + U16(CLASS_IN), zeroed, 0, QueryHead(id) + plan.bytes);
    r := end + QUESTION;
    PlanIsQuestion(Labels(host), HEADER, size);
  }

  lemma HeadBytes(id: nat)
    requires id < 0x1_0000
    ensures var h := QueryHead(id);
            h[0] as int * 256 + h[1] as int == id && h[2..] == [1, 0, 0, 1, 0, 0, 0, 0, 0, 0]
  {
    assert QueryHead(id) == U16(id) + [1, 0] + [0, 1] + [0, 0] + [0, 0] + [0, 0];
  }

  lemma TailBytes(kind: nat)
    requires kind < 0x1_0000
    ensures var t := U16(kind) + U16(CLASS_IN); t[0] as int * 256 + t[1] as int == kind && t[2..] == [0, 1]
  {
  }

  lemma QueryLayout(head: seq<Byte>, name: seq<Byte>, tail: seq<Byte>, b: seq<Byte>)
    requires |head| == 12 && |tail| == 4 && b == head + name + tail
    ensures b[..12] == head && b[|b| - 4..] == tail && At(b, 12, name)
  {
  }

  /** The first bytes and the last ones. */
  ghost predicate IsFramed(b: seq<Byte>, id: nat, kind: nat) {
    && |b| >= 16 && b[0] as int * 256 + b[1] as int == id && b[2..12] == [1, 0, 0, 1, 0, 0, 0, 0, 0, 0]
    && b[|b| - 4] as int * 256 + b[|b| - 3] as int == kind && b[|b| - 2..] == [0, 1]
  }

  lemma FramedBy(b: seq<Byte>, head: seq<Byte>, tail: seq<Byte>, id: nat, kind: nat)
    requires |b| >= 16 && b[..12] == head && b[|b| - 4..] == tail
    requires head[0] as int * 256 + head[1] as int == id && head[2..] == [1, 0, 0, 1, 0, 0, 0, 0, 0, 0]
    requires tail[0] as int * 256 + tail[1] as int == kind && tail[2..] == [0, 1]
    ensures IsFramed(b, id, kind)
  {
    assert b[2..12] == head[2..] && b[|b| - 2..] == tail[2..];
    assert b[0] == head[0] && b[1] == head[1] && b[|b| - 4] == tail[0] && b[|b| - 3] == tail[1];
  }

  lemma QueryIsFramed(id: nat, name: seq<Byte>, kind: nat, b: seq<Byte>)
    requires id < 0x1_0000 && kind < 0x1_0000 && b == QueryHead(id) + name + (U16(kind) + U16(CLASS_IN))
    ensures IsFramed(b, id, kind) && At(b, 12, name)
  {
    var head, tail := QueryHead(id), U16(kind) + U16(CLASS_IN);
    HeadBytes(id);
    TailBytes(kind);
    QueryLayout(head, name, tail, b);
    FramedBy(b, head, tail, id, kind);
  }

  /** The query asks for the host: in front the id that the response is checked for, the flag for recursion and the
      count of one question; then the name, if it is proper; then the type and the class IN. */
  lemma QueryAsksForHost(id: nat, host: seq<Byte>, kind: nat, b: seq<Byte>)
    requires id < 0x1_0000 && kind < 0x1_0000 && b == Query(id, Labels(host), kind)
    ensures IsFramed(b, id, kind)
    ensures ReadsAs(b, 12, Labels(host), |b| - 4) <==> AreProper(Labels(host))
  {
    QueryIsFramed(id, Question(Labels(host)), kind, b);
    QuestionIsFor(b, 12, Labels(host));
  }
}
