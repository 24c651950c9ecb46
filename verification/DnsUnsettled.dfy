/** Names of components/mdns/mdns_send.c whose back-reference leads to bytes that are still to be written. */
module DnsUnsettled {
  import opened Octets
  import opened DnsReader
  import opened DnsWriter
  import opened DnsRoundTrip

  /** Bytes that are not the start of a pointer, as in ASCII. */
  predicate ArePlain(strings: seq<Text>) {
    forall i, k | 0 <= i < |strings| && 0 <= k < |strings[i]| :: strings[i][k] < 0xC0
  }

  ghost predicate AreWhole(ts: seq<Token>) {
    forall t <- ts :: t.Label? ==> IsCString(t.bytes)
  }

  ghost predicate HasHigh(labels: seq<Text>) {
    exists i, k :: 0 <= i < |labels| && 0 <= k < |labels[i]| && labels[i][k] >= 0xC0
  }

  lemma HighIsNotPlain(strings: seq<Text>, labels: seq<Text>)
    requires ArePlain(strings) && HasHigh(labels)
    ensures !SameTexts(strings, labels)
  {
    var i, k :| 0 <= i < |labels| && 0 <= k < |labels[i]| && labels[i][k] >= 0xC0;
    assert |strings| == |labels| && |strings[i]| == |labels[i]| ==> Lower(strings[i][k]) != Lower(labels[i][k]);
  }

  lemma HighNext(t: Text, labels: seq<Text>)
    ensures HasHigh(labels) ==> HasHigh([t] + labels)
    ensures (exists k :: 0 <= k < |t| && t[k] >= 0xC0) ==> HasHigh([t] + labels)
  {
    var all := [t] + labels;
    if HasHigh(labels) {
      var i, k :| 0 <= i < |labels| && 0 <= k < |labels[i]| && labels[i][k] >= 0xC0;
      assert all[i + 1][k] >= 0xC0;
    }
    if k :| 0 <= k < |t| && t[k] >= 0xC0 {
      assert all[0][k] >= 0xC0;
    }
  }

  lemma {:induction false} CStringAt(s: seq<Byte>, o: nat)
    requires o < |s| && s[o] != 0 && forall i | 0 <= i < o :: s[i] != 0
    ensures o < |CString(s)| && CString(s)[o] == s[o]
    decreases o
  {
    if o > 0 {
      CStringAt(s[1..], o - 1);
    }
  }

  /** The label in which the pointer now stands. */
  lemma LabelOverruns(b: seq<Byte>, q: seq<Byte>, start: nat, pos: nat, depth: nat, at: nat, j: nat)
    requires start <= pos < at && SameBelow(b, q, at) && j < ADDRESSABLE && Holds(q, at, Pointer(j))
    requires 0 < b[pos] <= 63 && at < pos + 1 + b[pos] <= |b| && IsCString(b[pos + 1..pos + 1 + b[pos]])
    requires Decode(q, start, pos, depth).Some?
    ensures HasHigh(Labels(Decode(q, start, pos, depth).value.tokens))
  {
    PointerTarget(q, at, j);
    var end := pos + 1 + b[pos];
    var old_, new_, o := b[pos + 1..end], q[pos + 1..end], at - pos - 1;
    forall i | 0 <= i < o ensures new_[i] != 0 {
      assert old_[i] == b[pos + 1 + i];
    }
    assert new_[o] == q[at];
    CStringAt(new_, o);
    var rest := Decode(q, start, end, depth).value.tokens;
    HighNext(CString(new_), Labels(rest));
    assert ([Label(new_)] + rest)[1..] == rest;
  }

  ghost predicate ReadsWhole(b: seq<Byte>, start: nat, pos: nat, depth: nat)
    requires start <= pos
  {
    Decode(b, start, pos, depth).Some? && AreWhole(Decode(b, start, pos, depth).value.tokens)
  }

  ghost predicate Spoilt(q: seq<Byte>, start: nat, pos: nat, depth: nat)
    requires start <= pos
  {
    Decode(q, start, pos, depth).Some? ==> HasHigh(Labels(Decode(q, start, pos, depth).value.tokens))
  }

  lemma WholeLabel(b: seq<Byte>, start: nat, pos: nat, depth: nat)
    requires start <= pos < |b| && 0 < b[pos] < 0xC0 && ReadsWhole(b, start, pos, depth)
    ensures var end := pos + 1 + b[pos];
            b[pos] <= 63 && end <= |b| && IsCString(b[pos + 1..end]) && ReadsWhole(b, start, end, depth)
  {
    var end := pos + 1 + b[pos];
    var ts := Decode(b, start, pos, depth).value.tokens;
    assert ts[0] == Label(b[pos + 1..end]) && ts[0] in ts;
    assert ts[1..] == Decode(b, start, end, depth).value.tokens && forall t <- ts[1..] :: t in ts;
  }

  lemma WholeJump(b: seq<Byte>, start: nat, pos: nat, depth: nat)
    requires start <= pos < |b| && b[pos] >= 0xC0 && ReadsWhole(b, start, pos, depth)
    ensures pos + 1 < |b| && Target(b, pos) < start && ReadsWhole(b, Target(b, pos), Target(b, pos), depth + 1)
  {
    var t := Target(b, pos);
    var ts := Decode(b, start, pos, depth).value.tokens;
    assert ts[1..] == Decode(b, t, t, depth + 1).value.tokens && forall x <- ts[1..] :: x in ts;
  }

  /** Reading on from pos now meets the pointer, which leads nowhere or spoils a label. */
  lemma {:induction false} Overruns(b: seq<Byte>, q: seq<Byte>, start: nat, pos: nat, depth: nat, at: nat, j: nat)
    requires start <= pos <= at && start <= j && SameBelow(b, q, at) && j < ADDRESSABLE && Holds(q, at, Pointer(j))
    requires (at > 0 ==> b[at - 1] < 0xC0) && Reach(b, start, pos) > at && ReadsWhole(b, start, pos, depth)
    ensures Spoilt(q, start, pos, depth + 1)
    decreases start, if pos < |b| then |b| - pos else 0
  {
    PointerTarget(q, at, j);
    if pos < at && b[pos] < 0xC0 {
      WholeLabel(b, start, pos, depth);
      var end := pos + 1 + b[pos];
      if end <= at {
        Overruns(b, q, start, end, depth, at, j);
        LabelGoesOn(q, start, pos, end, depth + 1);
      } else if Decode(q, start, pos, depth + 1).Some? {
        LabelOverruns(b, q, start, pos, depth + 1, at, j);
      }
    } else if pos < at {
      WholeJump(b, start, pos, depth);
      var t := Target(b, pos);
      Overruns(b, q, t, t, depth + 1, at, j);
      JumpGoesOn(q, start, pos, t, depth + 1);
    }
  }

  lemma LabelGoesOn(q: seq<Byte>, start: nat, pos: nat, end: nat, depth: nat)
    requires start <= pos < |q| && 0 < q[pos] <= 63 && end == pos + 1 + q[pos] <= |q|
    ensures Decode(q, start, pos, depth).Some? <==> Decode(q, start, end, depth).Some?
    ensures Decode(q, start, pos, depth).Some? && HasHigh(Labels(Decode(q, start, end, depth).value.tokens))
            ==> HasHigh(Labels(Decode(q, start, pos, depth).value.tokens))
  {
    var d := Decode(q, start, end, depth);
    if d.Some? {
      var t, rest := q[pos + 1..end], d.value.tokens;
      assert ([Label(t)] + rest)[1..] == rest;
      HighNext(CString(t), Labels(rest));
    }
  }

  lemma JumpGoesOn(q: seq<Byte>, start: nat, pos: nat, t: nat, depth: nat)
    requires start <= pos && pos + 1 < |q| && q[pos] >= 0xC0 && t == Target(q, pos) < start
    ensures Decode(q, start, pos, depth).Some? ==>
              && Decode(q, t, t, depth + 1).Some?
              && Labels(Decode(q, start, pos, depth).value.tokens) == Labels(Decode(q, t, t, depth + 1).value.tokens)
  {
    var d := Decode(q, t, t, depth + 1);
    if d.Some? {
      LabelsPastJump(d.value.tokens);
    }
  }

  /** No byte that is wanted looks like the start of a pointer, nor does the byte before the place, and no label of the
      name pointed to is cut by a NUL. */
  ghost predicate IsPlainCase(b: seq<Byte>, at: nat, rest: seq<Text>, j: nat) {
    ArePlain(rest) && ReadsWhole(b, j, j, 0) && at <= |b| && (at > 0 ==> b[at - 1] < 0xC0)
  }

  lemma SpoiltIsNotPlain(q: seq<Byte>, rest: seq<Text>, j: nat)
    requires Spoilt(q, j, j, 1) && ArePlain(rest)
    ensures var d := Decode(q, j, j, 1); d.Some? ==> !SameTexts(rest, Labels(d.value.tokens))
  {
    var d := Decode(q, j, j, 1);
    if d.Some? {
      HighIsNotPlain(rest, Labels(d.value.tokens));
    }
  }

  lemma OverrunSpoils(b: seq<Byte>, q: seq<Byte>, at: nat, j: nat)
    requires j <= at && SameBelow(b, q, at) && j < ADDRESSABLE && Holds(q, at, Pointer(j)) && !Settled(b, at, j)
    requires ReadsWhole(b, j, j, 0) && (at > 0 ==> b[at - 1] < 0xC0)
    ensures Spoilt(q, j, j, 1)
  {
    Overruns(b, q, j, j, 0, at, j);
  }

  /** A back-reference that is not settled is not readable either, unless a byte like the start of a pointer or a NUL
      within a label makes up for it. */
  lemma UnsettledIsUnreadable(b: seq<Byte>, q: seq<Byte>, index: nat, init: seq<Text>, rest: seq<Text>, j: nat)
    requires Stands(q, index, init, j) && SameBelow(b, q, index + |Wire(init)|)
    requires !Settled(b, index + |Wire(init)|, j) && IsPlainCase(b, index + |Wire(init)|, rest, j)
    ensures !Reads(Decode(q, index, index, 0), init + rest, index + |Wire(init)| + 2)
  {
    PointerDecides(q, index, init, rest, j);
    if j < index {
      OverrunSpoils(b, q, index + |Wire(init)|, j);
      SpoiltIsNotPlain(q, rest, j);
    }
  }

  /** So for ASCII names the round trip is decided without any condition on the back-reference. */
  lemma PlainRoundTrip(b: seq<Byte>, q: seq<Byte>, index: nat, init: seq<Text>, rest: seq<Text>, j: nat)
    requires WrotePointer(b, q, index, init, rest, j) && IsPlainCase(b, index + |Wire(init)|, rest, j)
    ensures Reads(Decode(q, index, index, 0), init + rest, index + |Wire(init)| + 2)
       <==> AreLabels(init) && Settled(b, index + |Wire(init)|, j) && Faithful(b, index, rest, j)
  {
    var at := index + |Wire(init)|;
    if Settled(b, at, j) {
      PointerRoundTrip(b, q, index, init, rest, j);
    } else {
      UnsettledIsUnreadable(b, q, index, init, rest, j);
    }
  }
}
