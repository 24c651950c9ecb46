/** What mdns_utils_read_fqdn of components/mdns/mdns_utils.c can read: names as chains of label runs, as section 4.1.4
    of RFC 1035 describes them. */
module DnsChains {
  import opened Common
  import opened Octets
  import opened DnsReader

  /** The labels of a name, run by run. */
  type Runs = seq<seq<seq<Byte>>>

  /** These labels, of 1 to 63 bytes, stand one behind the other from pos on. */
  ghost predicate RunStands(p: seq<Byte>, pos: nat, labels: seq<seq<Byte>>)
    decreases |labels|
  {
    labels == []
    || var l := labels[0];
       && 1 <= |l| <= 63 && pos + 1 + |l| <= |p| && p[pos] == |l| && p[pos + 1..pos + 1 + |l|] == l
       && RunStands(p, pos + 1 + |l|, labels[1..])
  }

  /** Where they end. */
  function EndOf(pos: nat, labels: seq<seq<Byte>>): (end: nat)
    decreases |labels|
  {
    if labels == [] then pos else EndOf(pos + 1 + |labels[0]|, labels[1..])
  }

  /** Where a pointer leads. */
  function Leads(high: Byte, low: Byte): (t: nat) {
    (high as int) % 64 * 256 + (low as int)
  }

  /** A run ends with a zero byte or with the packet, or with a pointer to the next run, which starts before it. */
  ghost predicate ChainStands(p: seq<Byte>, start: nat, pos: nat, runs: Runs)
    decreases |runs|
  {
    && runs != [] && RunStands(p, pos, runs[0])
    && var end := EndOf(pos, runs[0]);
    if |runs| == 1 then end >= |p| || p[end] == 0
    else
      && end + 1 < |p| && p[end] >= 192
      && var t := Leads(p[end], p[end + 1]); t < start && ChainStands(p, t, t, runs[1..])
  }

  /** Behind the zero byte or the pointer. */
  function NextOf(pos: nat, runs: Runs): (next: nat)
    requires runs != []
  {
    EndOf(pos, runs[0]) + if |runs| == 1 then 1 else 2
  }

  function TokensOf(runs: Runs): (ts: seq<Token>) {
    if runs == [] then []
    else LabelsOf(runs[0]) + if |runs| == 1 then [] else [Jump] + TokensOf(runs[1..])
  }

  function LabelsOf(labels: seq<seq<Byte>>): (ts: seq<Token>) {
    seq(|labels|, i requires 0 <= i < |labels| => Label(labels[i]))
  }

  lemma LabelsCons(l: seq<Byte>, labels: seq<seq<Byte>>)
    ensures LabelsOf([l] + labels) == [Label(l)] + LabelsOf(labels)
  {
  }

  // ------------------------------------------------------------------ a chain is read

  lemma {:induction false} RunDecodes(p: seq<Byte>, start: nat, pos: nat, labels: seq<seq<Byte>>, end: nat, depth: nat)
    requires start <= pos && RunStands(p, pos, labels) && end == EndOf(pos, labels)
    ensures pos <= end
    ensures match Decode(p, start, end, depth)
            case None => Decode(p, start, pos, depth).None?
            case Some(d) => Decode(p, start, pos, depth) == Some(d.(tokens := LabelsOf(labels) + d.tokens))
    decreases |labels|
  {
    if labels == [] {
      var d := Decode(p, start, end, depth);
      if d.Some? {
        assert LabelsOf([]) + d.value.tokens == d.value.tokens;
      }
    } else {
      var l, rest := labels[0], labels[1..];
      assert labels == [l] + rest;
      RunDecodes(p, start, pos + 1 + |l|, rest, end, depth);
      LabelsCons(l, rest);
      var d := Decode(p, start, end, depth);
      if d.Some? {
        assert [Label(l)] + LabelsOf(rest) + d.value.tokens == [Label(l)] + (LabelsOf(rest) + d.value.tokens);
      }
    }
  }

  lemma LeadsIsTarget(p: seq<Byte>, pos: nat)
    requires pos + 1 < |p| && p[pos] >= 192
    ensures Leads(p[pos], p[pos + 1]) == Target(p, pos)
  {
  }

  lemma LinkDecodes(p: seq<Byte>, start: nat, pos: nat, end: nat, runs: Runs, depth: nat)
    requires start <= pos && runs != [] && RunStands(p, pos, runs[0]) && end == EndOf(pos, runs[0])
    requires depth + |runs| <= 17
    requires if |runs| == 1 then end >= |p| || p[end] == 0
             else
               && end + 1 < |p| && p[end] >= 192
               && var t := Leads(p[end], p[end + 1]);
               t < start && Decode(p, t, t, depth + 1) == Some(Decoding(TokensOf(runs[1..]), NextOf(t, runs[1..])))
    ensures Decode(p, start, pos, depth) == Some(Decoding(TokensOf(runs), NextOf(pos, runs)))
  {
    RunDecodes(p, start, pos, runs[0], end, depth);
    if |runs| == 1 {
      assert LabelsOf(runs[0]) + [] == LabelsOf(runs[0]);
    } else {
      LeadsIsTarget(p, end);
    }
  }

  /** Every chain of at most so many runs that the depth limit allows is read as its labels. */
  lemma {:induction false} ChainDecodes(p: seq<Byte>, start: nat, pos: nat, runs: Runs, depth: nat)
    requires start <= pos && ChainStands(p, start, pos, runs) && depth + |runs| <= 17
    ensures Decode(p, start, pos, depth) == Some(Decoding(TokensOf(runs), NextOf(pos, runs)))
    decreases |runs|
  {
    var end := EndOf(pos, runs[0]);
    if |runs| > 1 {
      var t := Leads(p[end], p[end + 1]);
      ChainDecodes(p, t, t, runs[1..], depth + 1);
    }
    LinkDecodes(p, start, pos, end, runs, depth);
  }

  // ------------------------------------------------------------------ what is read is a chain

  /** One more label in front. */
  function WithLabel(l: seq<Byte>, runs: Runs): (r: Runs)
    requires runs != []
  {
    [[l] + runs[0]] + runs[1..]
  }

  lemma ChainFirst(p: seq<Byte>, start: nat, pos: nat, l: seq<Byte>, runs: Runs)
    requires 1 <= |l| <= 63 && pos + 1 + |l| <= |p| && p[pos] == |l| && p[pos + 1..pos + 1 + |l|] == l
    requires ChainStands(p, start, pos + 1 + |l|, runs)
    ensures var more := WithLabel(l, runs);
            ChainStands(p, start, pos, more) && NextOf(pos, more) == NextOf(pos + 1 + |l|, runs)
  {
    var more := WithLabel(l, runs);
    assert more[1..] == runs[1..] && more[0][1..] == runs[0] && more[0][0] == l;
  }

  lemma TokensFirst(l: seq<Byte>, runs: Runs)
    requires runs != []
    ensures TokensOf(WithLabel(l, runs)) == [Label(l)] + TokensOf(runs)
  {
    LabelsCons(l, runs[0]);
    assert WithLabel(l, runs)[1..] == runs[1..];
  }

  lemma ChainJumps(p: seq<Byte>, start: nat, pos: nat, t: nat, runs: Runs, more: Runs)
    requires pos + 1 < |p| && p[pos] >= 192 && t == Leads(p[pos], p[pos + 1]) < start && ChainStands(p, t, t, runs)
    requires |more| == |runs| + 1 && more[0] == [] && more[1..] == runs
    ensures ChainStands(p, start, pos, more) && NextOf(pos, more) == pos + 2
    ensures TokensOf(more) == [Jump] + TokensOf(runs)
  {
    assert runs != [];
    assert EndOf(pos, more[0]) == pos && RunStands(p, pos, more[0]);
    assert LabelsOf(more[0]) + ([Jump] + TokensOf(runs)) == [Jump] + TokensOf(runs);
  }

  /** Whatever is read stands in the packet as a chain within the depth limit. */
  lemma {:induction false} DecodedIsChain(p: seq<Byte>, start: nat, pos: nat, depth: nat) returns (runs: Runs)
    requires start <= pos && depth <= 16 && Decode(p, start, pos, depth).Some?
    ensures ChainStands(p, start, pos, runs) && depth + |runs| <= 17
    ensures Decode(p, start, pos, depth) == Some(Decoding(TokensOf(runs), NextOf(pos, runs)))
    decreases start, if pos < |p| then |p| - pos else 0
  {
    if pos >= |p| || p[pos] == 0 {
      runs := [[]];
      assert LabelsOf(runs[0]) + [] == [];
    } else if p[pos] < 192 {
      var end := pos + 1 + p[pos];
      var l := p[pos + 1..end];
      var rest := DecodedIsChain(p, start, end, depth);
      ChainFirst(p, start, pos, l, rest);
      TokensFirst(l, rest);
      runs := WithLabel(l, rest);
      assert Decode(p, start, pos, depth).value.tokens == [Label(l)] + TokensOf(rest);
    } else {
      var t := Target(p, pos);
      LeadsIsTarget(p, pos);
      var rest := DecodedIsChain(p, t, t, depth + 1);
      runs := [[]] + rest;
      ChainJumps(p, start, pos, t, rest, runs);
    }
  }

  /** For every packet and place: a name is read if and only if a chain of at most 17 runs stands there, and then as
      its labels, ending where its first run does. */
  lemma ReadExactly(p: seq<Byte>, start: nat)
    ensures Decode(p, start, start, 0).Some? <==>
            exists runs: Runs :: |runs| <= 17 && ChainStands(p, start, start, runs)
    ensures forall runs: Runs | |runs| <= 17 && ChainStands(p, start, start, runs) ::
              Decode(p, start, start, 0) == Some(Decoding(TokensOf(runs), NextOf(start, runs)))
  {
    if Decode(p, start, start, 0).Some? {
      var runs := DecodedIsChain(p, start, start, 0);
    }
    forall runs: Runs | |runs| <= 17 && ChainStands(p, start, start, runs)
      ensures Decode(p, start, start, 0) == Some(Decoding(TokensOf(runs), NextOf(start, runs)))
    {
      ChainDecodes(p, start, start, runs, 0);
    }
  }
}
