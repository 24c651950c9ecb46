/** Which names mdns_utils_parse_fqdn of components/mdns/mdns_utils.c accepts, and what it makes of them, as a grammar
    over their labels. */
module DnsGrammar {
  import opened Common
  import opened Octets
  import opened CaseFold
  import opened DnsReader

  // ------------------------------------------------------------------ the grammar

  /** The label is this word, in any letters. */
  predicate IsWord(t: Text, w: string) {
    |t| == |w| && forall i | 0 <= i < |t| :: SameLetter(t[i] as char, w[i])
  }

  predicate IsSub(t: Text) {
    IsWord(t, "_sub")
  }

  predicate IsDomain(t: Text) {
    IsWord(t, "local") || IsWord(t, "arpa")
  }

  /** A label that can only continue a host name. */
  predicate IsPlain(t: Text) {
    && (t == [] || t[0] as char != '_')
    && !IsWord(t, "local") && !IsWord(t, "arpa") && !IsWord(t, "ip6") && !IsWord(t, "in-addr")
  }

  /** The labels before k belong to the host name, and k starts what comes behind it. */
  ghost predicate SplitsAt(ls: seq<Text>, k: nat) {
    && 1 <= k < |ls| && (forall i | 1 <= i < k :: IsPlain(ls[i]) || IsSub(ls[i])) && !IsPlain(ls[k]) && !IsSub(ls[k])
  }

  function Subs(ls: seq<Text>): (n: nat) {
    if ls == [] then 0 else (if IsSub(ls[0]) then 1 else 0) + Subs(ls[1..])
  }

  function Plains(ls: seq<Text>): (r: seq<Text>) {
    if ls == [] then [] else (if IsSub(ls[0]) then [] else [ls[0]]) + Plains(ls[1..])
  }

  /** A name: a first label, labels that continue it, at most one subtype marker among them, and then a domain, a
      protocol and a domain, or a service, a protocol and a domain; with the marker it has to be the last. */
  ghost predicate IsNameOf(ls: seq<Text>, k: nat) {
    && SplitsAt(ls, k) && !IsSub(ls[0]) && Subs(ls[1..k]) <= 1
    && |ls| - k <= 3 && (Subs(ls[1..k]) == 1 ==> |ls| - k == 3)
    && (forall i | k <= i < |ls| :: !IsSub(ls[i])) && IsDomain(ls[|ls| - 1])
  }

  /** Labels joined by dots. */
  function Joined(ls: seq<Text>): (r: Text) {
    if ls == [] then [] else if |ls| == 1 then ls[0] else ls[0] + [0x2E] + Joined(ls[1..])
  }

  function Cut(t: Text): (r: Text) {
    if |t| <= 64 then t else t[..64]
  }

  /** What the name is made of: with a domain alone it is a host, with a protocol a service, else an instance. */
  function MeaningOf(ls: seq<Text>, k: nat): (n: Name)
    requires 1 <= k < |ls| <= k + 3
  {
    var host, sub := Cut(Joined([ls[0]] + Plains(ls[1..k]))), Subs(ls[1..k]) == 1;
    if |ls| == k + 1 then Name(host, [], [], ls[k], 2, sub, false)
    else if |ls| == k + 2 then Name([], host, ls[k], ls[k + 1], 3, sub, false)
    else Name(host, ls[k], ls[k + 1], ls[k + 2], 4, sub, false)
  }

  // ------------------------------------------------------------------ the words

  lemma WordIs(t: Text, w: string, c: Text)
    requires |w| == |c| && forall i | 0 <= i < |w| :: w[i] == c[i] as char
    ensures CaseEqual(t, c) <==> IsWord(t, w)
  {
    CaseEqualDecides(t, c);
  }

  lemma Words(t: Text)
    ensures CaseEqual(t, SUB) <==> IsSub(t)
    ensures CaseEqual(t, LOCAL) || CaseEqual(t, ARPA) <==> IsDomain(t)
    ensures ContinuesHost(1, t) <==> IsPlain(t)
  {
    WordIs(t, "_sub", SUB);
    WordIs(t, "local", LOCAL);
    WordIs(t, "arpa", ARPA);
    WordIs(t, "ip6", IP6);
    WordIs(t, "in-addr", IN_ADDR);
  }

  lemma SubIsNotPlain(t: Text)
    requires IsSub(t)
    ensures !IsPlain(t) && t != []
  {
    Words(t);
    CaseKeeps(t, SUB, SUB);
  }

  // ------------------------------------------------------------------ joining

  function Dots(ls: seq<Text>): (r: Text) {
    if ls == [] then [] else [0x2E] + ls[0] + Dots(ls[1..])
  }

  lemma {:induction false} JoinedIsDots(h: Text, ls: seq<Text>)
    ensures Joined([h] + ls) == h + Dots(ls)
    decreases |ls|
  {
    assert ([h] + ls)[1..] == ls;
    if ls != [] {
      assert ls == [ls[0]] + ls[1..];
      JoinedIsDots(ls[0], ls[1..]);
      assert h + [0x2E] + (ls[0] + Dots(ls[1..])) == h + ([0x2E] + ls[0] + Dots(ls[1..]));
    }
  }

  lemma CutTwice(a: Text, b: Text)
    ensures Cut(Cut(a) + b) == Cut(a + b)
  {
  }

  // ------------------------------------------------------------------ the labels of the host

  ghost predicate AreMiddle(ls: seq<Text>) {
    forall t <- ls :: IsPlain(t) || IsSub(t)
  }

  lemma PlaceMiddle(n: Name, t: Text)
    requires n.parts == 1 && (IsPlain(t) || IsSub(t))
    ensures PlaceLabel(Enter(n), t) ==
            if IsPlain(t) then n.(host := Cut(n.host + [0x2E] + t))
            else if n.sub then n.(invalid := true) else n.(sub := true)
  {
    Words(t);
    if IsSub(t) {
      SubIsNotPlain(t);
    }
  }

  /** What the labels that continue the host name do, and the markers among them. */
  function Continued(n: Name, ls: seq<Text>): (r: Name) {
    n.(host := Cut(n.host + Dots(Plains(ls))), sub := n.sub || Subs(ls) > 0,
                                                      invalid := n.invalid || Subs(ls) + (if n.sub then 1 else 0) > 1)
  }

  lemma ContinuedPlain(n: Name, t: Text, rest: seq<Text>, ls: seq<Text>)
    requires ls == [t] + rest && IsPlain(t) && !IsSub(t)
    ensures Continued(n.(host := Cut(n.host + [0x2E] + t)), rest) == Continued(n, ls)
  {
    var more := Plains(rest);
    assert ls[1..] == rest && Plains(ls) == [t] + more && ([t] + more)[1..] == more;
    CutTwice(n.host + [0x2E] + t, Dots(more));
    assert n.host + [0x2E] + t + Dots(more) == n.host + ([0x2E] + t + Dots(more));
  }

  lemma ContinuedSub(n: Name, t: Text, rest: seq<Text>, ls: seq<Text>)
    requires ls == [t] + rest && IsSub(t)
    ensures Continued(if n.sub then n.(invalid := true) else n.(sub := true), rest) == Continued(n, ls)
  {
    assert ls[1..] == rest && Plains(ls) == [] + Plains(rest) == Plains(rest);
  }

  lemma {:induction false} MiddlePlaced(n: Name, ls: seq<Text>)
    requires n.parts == 1 && AreMiddle(ls) && |n.host| <= 64
    ensures PlaceTexts(n, ls) == Continued(n, ls)
    decreases |ls|
  {
    if ls == [] {
      assert n.host + [] == n.host;
    } else {
      var t, rest := ls[0], ls[1..];
      assert ls == [t] + rest && t in ls && forall x <- rest :: x in ls;
      PlaceMiddle(n, t);
      if IsSub(t) {
        SubIsNotPlain(t);
        ContinuedSub(n, t, rest, ls);
      } else {
        ContinuedPlain(n, t, rest, ls);
      }
      MiddlePlaced(PlaceLabel(Enter(n), t), rest);
    }
  }

  lemma {:induction false} TextsAppend(n: Name, a: seq<Text>, b: seq<Text>)
    requires n.parts <= 4
    ensures PlaceTexts(n, a).parts <= 4 && PlaceTexts(n, a + b) == PlaceTexts(PlaceTexts(n, a), b)
    decreases |a|
  {
    if a == [] {
      assert a + b == b;
    } else {
      assert (a + b)[1..] == a[1..] + b;
      TextsAppend(PlaceLabel(Enter(n), a[0]), a[1..], b);
    }
  }

  // ------------------------------------------------------------------ what comes behind it

  lemma {:induction false} InvalidStays(n: Name, ls: seq<Text>)
    requires n.parts <= 4 && n.invalid
    ensures PlaceTexts(n, ls).invalid && PlaceTexts(n, ls).parts <= 4
    decreases |ls|
  {
    if ls != [] {
      InvalidStays(PlaceLabel(Enter(n), ls[0]), ls[1..]);
    }
  }

  /** A label behind the host name: the next part, or too much. */
  lemma PlaceNext(n: Name, t: Text)
    requires 1 <= n.parts <= 4 && !n.invalid && (n.parts == 1 ==> !IsPlain(t) && !IsSub(t))
    ensures var m := PlaceLabel(Enter(n), t);
            if n.parts < 4 && !IsSub(t) then m == SetField(n, n.parts, t).(parts := n.parts + 1) else m.invalid
  {
    Words(t);
  }

  /** All of them: as many as there are parts left, and no marker, or the name is invalid. */
  lemma {:induction false} TailPlaced(n: Name, ls: seq<Text>)
    requires 1 <= n.parts <= 4 && !n.invalid && (n.parts == 1 && ls != [] ==> !IsPlain(ls[0]) && !IsSub(ls[0]))
    ensures var m := PlaceTexts(n, ls);
            && m.parts <= 4
            && (!m.invalid <==> n.parts + |ls| <= 4 && forall t <- ls :: !IsSub(t))
            && (!m.invalid ==> m == Filled(n, ls))
    decreases |ls|
  {
    if ls != [] {
      var t, rest := ls[0], ls[1..];
      assert t in ls && ls == [t] + rest;
      PlaceNext(n, t);
      var m := PlaceLabel(Enter(n), t);
      if m.invalid {
        InvalidStays(m, rest);
      } else {
        TailPlaced(m, rest);
      }
    }
  }

  /** The parts from the next one on. */
  function Filled(n: Name, ls: seq<Text>): (r: Name)
    requires n.parts + |ls| <= 4
    decreases |ls|
  {
    if ls == [] then n else Filled(SetField(n, n.parts, ls[0]).(parts := n.parts + 1), ls[1..])
  }

  // ------------------------------------------------------------------ the whole name

  lemma {:induction false} FindSplit(ls: seq<Text>, from: nat) returns (k: nat)
    requires 1 <= from <= |ls| && forall i | 1 <= i < from :: IsPlain(ls[i]) || IsSub(ls[i])
    ensures if k == |ls| then AreMiddle(ls[1..]) else SplitsAt(ls, k)
    decreases |ls| - from
  {
    if from == |ls| {
      k := from;
      forall t | t in ls[1..] ensures IsPlain(t) || IsSub(t) {
        var i :| 0 <= i < |ls| - 1 && ls[1..][i] == t;
        assert ls[i + 1] == t;
      }
    } else if IsPlain(ls[from]) || IsSub(ls[from]) {
      k := FindSplit(ls, from + 1);
    } else {
      k := from;
    }
  }

  lemma SplitsOnce(ls: seq<Text>, j: nat, k: nat)
    requires SplitsAt(ls, j) && SplitsAt(ls, k)
    ensures j == k
  {
  }

  ghost predicate AreShort(ls: seq<Text>) {
    forall t <- ls :: |t| <= 64
  }

  function Started(t: Text): (n: Name) {
    EMPTY.(host := t, parts := 1)
  }

  lemma FirstPlaced(ls: seq<Text>)
    requires ls != []
    ensures !IsSub(ls[0]) ==> PlaceTexts(EMPTY, ls) == PlaceTexts(Started(ls[0]), ls[1..])
    ensures IsSub(ls[0]) ==> PlaceTexts(EMPTY, ls).invalid
  {
    Words(ls[0]);
    if IsSub(ls[0]) {
      InvalidStays(PlaceLabel(Enter(EMPTY), ls[0]), ls[1..]);
    }
  }

  /** The host name of the labels before k. */
  lemma HostPlaced(ls: seq<Text>, k: nat)
    requires 1 <= k <= |ls| && |ls[0]| <= 64 && AreMiddle(ls[1..k]) && !IsSub(ls[0])
    ensures var n := Continued(Started(ls[0]), ls[1..k]);
            && PlaceTexts(EMPTY, ls) == PlaceTexts(n, ls[k..])
            && n.host == Cut(Joined([ls[0]] + Plains(ls[1..k]))) && n.parts == 1
            && n.sub == (Subs(ls[1..k]) > 0) && n.invalid == (Subs(ls[1..k]) > 1)
  {
    FirstPlaced(ls);
    MiddlePlaced(Started(ls[0]), ls[1..k]);
    assert ls[1..] == ls[1..k] + ls[k..];
    TextsAppend(Started(ls[0]), ls[1..k], ls[k..]);
    JoinedIsDots(ls[0], Plains(ls[1..k]));
  }

  lemma SplitMiddle(ls: seq<Text>, k: nat)
    requires SplitsAt(ls, k)
    ensures AreMiddle(ls[1..k])
  {
    forall t | t in ls[1..k] ensures IsPlain(t) || IsSub(t) {
      var i :| 0 <= i < k - 1 && ls[1..k][i] == t;
      assert ls[i + 1] == t;
    }
  }

  /** One to three parts behind the host name. */
  lemma FinishFilled(n: Name, ls: seq<Text>)
    requires n == Name(n.host, [], [], [], 1, n.sub, false) && 1 <= |ls| <= 3
    ensures var r := Finish(Filled(n, ls));
            && (!r.invalid <==> IsDomain(ls[|ls| - 1]) && (n.sub ==> |ls| == 3))
            && (!r.invalid ==>
                  r == if |ls| == 1 then Name(n.host, [], [], ls[0], 2, n.sub, false)
                  else if |ls| == 2 then Name([], n.host, ls[0], ls[1], 3, n.sub, false)
                  else Name(n.host, ls[0], ls[1], ls[2], 4, n.sub, false))
  {
    Words(ls[|ls| - 1]);
    var m := SetField(n, 1, ls[0]).(parts := 2);
    assert Filled(n, ls) == Filled(m, ls[1..]);
    if |ls| > 1 {
      var o := SetField(m, 2, ls[1]).(parts := 3);
      assert Filled(m, ls[1..]) == Filled(o, ls[1..][1..]);
      if |ls| > 2 {
        assert Filled(o, ls[2..]) == Filled(SetField(o, 3, ls[2]).(parts := 4), ls[2..][1..]);
      }
    }
  }

  /** A name that splits. */
  lemma SplitExactly(ls: seq<Text>, k: nat)
    requires SplitsAt(ls, k) && |ls[0]| <= 64 && !IsSub(ls[0])
    ensures var n := Finish(PlaceTexts(EMPTY, ls));
            (!n.invalid <==> IsNameOf(ls, k)) && (IsNameOf(ls, k) ==> n == MeaningOf(ls, k))
  {
    SplitMiddle(ls, k);
    HostPlaced(ls, k);
    var n, tail := Continued(Started(ls[0]), ls[1..k]), ls[k..];
    TailsAlike(ls, k, tail);
    if n.invalid {
      InvalidStays(n, tail);
    } else {
      TailPlaced(n, tail);
      if !PlaceTexts(n, tail).invalid {
        FinishFilled(n, tail);
      }
    }
  }

  lemma TailsAlike(ls: seq<Text>, k: nat, tail: seq<Text>)
    requires k < |ls| && tail == ls[k..]
    ensures (forall t <- tail :: !IsSub(t)) <==> (forall i | k <= i < |ls| :: !IsSub(ls[i]))
    ensures tail[|tail| - 1] == ls[|ls| - 1] && tail[0] == ls[k]
    ensures forall i | 0 <= i < |tail| :: tail[i] == ls[k + i]
  {
    if forall t <- tail :: !IsSub(t) {
      forall i | k <= i < |ls| ensures !IsSub(ls[i]) {
        assert tail[i - k] in tail;
      }
    }
  }

  /** Without anything behind the host name there is no domain. */
  lemma NoDomain(ls: seq<Text>)
    requires ls != [] && |ls[0]| <= 64 && !IsSub(ls[0]) && AreMiddle(ls[1..])
    ensures Finish(PlaceTexts(EMPTY, ls)).invalid
  {
    assert ls[1..|ls|] == ls[1..] && ls[|ls|..] == [];
    HostPlaced(ls, |ls|);
  }

  /** For all labels: the name is taken if and only if they are those of a name, and then as what they mean. */
  lemma NamesExactly(ls: seq<Text>)
    requires ls != [] && AreShort(ls)
    ensures var n := Finish(PlaceTexts(EMPTY, ls));
            && (!n.invalid <==> exists k: nat :: IsNameOf(ls, k))
            && (forall k: nat | IsNameOf(ls, k) :: n == MeaningOf(ls, k))
  {
    assert ls[0] in ls;
    if IsSub(ls[0]) {
      FirstPlaced(ls);
    } else {
      var k := FindSplit(ls, 1);
      if k == |ls| {
        NoDomain(ls);
        forall j: nat ensures !IsNameOf(ls, j) {
          if 1 <= j < |ls| {
            assert ls[1..][j - 1] == ls[j] && ls[j] in ls[1..];
          }
        }
      } else {
        SplitExactly(ls, k);
        forall j: nat | IsNameOf(ls, j) ensures j == k {
          SplitsOnce(ls, j, k);
        }
      }
    }
  }

  // ------------------------------------------------------------------ in a packet

  ghost predicate EndsInJump(ts: seq<Token>) {
    ts != [] && ts[|ts| - 1].Jump?
  }

  /** Where a name was compressed is invisible, but for a pointer behind its last label. */
  lemma {:induction false} PlacedTokens(n: Name, ts: seq<Token>)
    requires n.parts <= 4
    ensures PlaceTexts(n, Labels(ts)).parts <= 4
    ensures PlaceAll(n, ts) == if EndsInJump(ts) then Enter(PlaceTexts(n, Labels(ts))) else PlaceTexts(n, Labels(ts))
    decreases |ts|
  {
    if ts != [] {
      var rest := ts[1..];
      PlacedTokens(Place(n, ts[0]), rest);
      if ts[0].Label? {
        assert Labels(ts)[1..] == Labels(rest);
      } else {
        assert Labels(ts) == [] + Labels(rest) == Labels(rest);
        assert Enter(Enter(n)) == Enter(n);
        NoLabels(rest);
      }
    }
  }

  lemma {:induction false} NoLabels(ts: seq<Token>)
    ensures Labels(ts) == [] && ts != [] ==> EndsInJump(ts)
  {
    if ts != [] {
      NoLabels(ts[1..]);
    }
  }

  lemma {:induction false} LabelsAreShort(ts: seq<Token>)
    requires AreSmall(ts)
    ensures AreShort(Labels(ts))
  {
    if ts != [] {
      assert ts[0] in ts && forall t <- ts[1..] :: t in ts;
      LabelsAreShort(ts[1..]);
    }
  }

  /** For every packet and place: what stands there is taken for a name if and only if its labels are those of one,
      and then for what they mean. A name with all four parts must not end in a pointer to nothing. */
  lemma ParsedExactly(p: seq<Byte>, start: nat)
    requires Decode(p, start, start, 0).Some? && Labels(Decode(p, start, start, 0).value.tokens) != []
    ensures var ts := Decode(p, start, start, 0).value.tokens;
            var ls, n := Labels(ts), Parsed(p, start).value;
            && (!n.invalid <==> exists k: nat :: IsNameOf(ls, k) && (EndsInJump(ts) ==> |ls| - k < 3))
            && (forall k: nat | IsNameOf(ls, k) && (EndsInJump(ts) ==> |ls| - k < 3) :: n == MeaningOf(ls, k))
  {
    var ts := Decode(p, start, start, 0).value.tokens;
    DecodedAreSmall(p, start, start, 0);
    LabelsAreShort(ts);
    PlacedTokens(EMPTY, ts);
    var ls := Labels(ts);
    NamesExactly(ls);
    EnterDecides(PlaceTexts(EMPTY, ls));
    forall k: nat | IsNameOf(ls, k) ensures PlaceTexts(EMPTY, ls).parts == |ls| - k + 1 {
      PartsAreCounted(ls, k);
    }
  }

  /** Only a name with all four parts minds what comes behind it. */
  lemma EnterDecides(n: Name)
    requires n.parts <= 4
    ensures if n.parts == 4 then Finish(Enter(n)).invalid else Enter(n) == n
  {
  }

  lemma {:induction false} FilledParts(n: Name, ls: seq<Text>)
    requires n.parts + |ls| <= 4
    ensures Filled(n, ls).parts == n.parts + |ls|
    decreases |ls|
  {
    if ls != [] {
      FilledParts(SetField(n, n.parts, ls[0]).(parts := n.parts + 1), ls[1..]);
    }
  }

  /** How many parts a name has can be told from its labels. */
  lemma PartsAreCounted(ls: seq<Text>, k: nat)
    requires IsNameOf(ls, k) && |ls[0]| <= 64
    ensures PlaceTexts(EMPTY, ls).parts == |ls| - k + 1
  {
    SplitMiddle(ls, k);
    HostPlaced(ls, k);
    var n, tail := Continued(Started(ls[0]), ls[1..k]), ls[k..];
    TailsAlike(ls, k, tail);
    TailPlaced(n, tail);
    FilledParts(n, tail);
  }

  predicate ArePlain(ls: seq<Text>) {
    ls == [] || (IsPlain(ls[0]) && ArePlain(ls[1..]))
  }

  lemma {:induction false} PlainMiddle(ls: seq<Text>)
    requires ArePlain(ls)
    ensures AreMiddle(ls) && Subs(ls) == 0 && Plains(ls) == ls
  {
    if ls != [] {
      if IsSub(ls[0]) {
        SubIsNotPlain(ls[0]);
      }
      PlainMiddle(ls[1..]);
      assert ls == [ls[0]] + ls[1..];
    }
  }

  lemma DomainIsNotPlain(t: Text)
    requires IsDomain(t)
    ensures !IsPlain(t) && !IsSub(t)
  {
    Words(t);
    if IsSub(t) {
      CaseKeeps(t, SUB, LOCAL);
      CaseKeeps(t, SUB, ARPA);
    }
  }

  /** A host name of plain labels and what comes behind it. */
  lemma PlainHost(h: Text, mid: seq<Text>, tail: seq<Text>)
    requires |h| <= 64 && !IsSub(h) && ArePlain(mid) && 1 <= |tail| <= 3
    requires !IsPlain(tail[0]) && (forall t <- tail :: !IsSub(t)) && IsDomain(tail[|tail| - 1])
    ensures var n, host := Finish(PlaceTexts(EMPTY, [h] + mid + tail)), Cut(Joined([h] + mid));
            n == if |tail| == 1 then Name(host, [], [], tail[0], 2, false, false)
            else if |tail| == 2 then Name([], host, tail[0], tail[1], 3, false, false)
            else Name(host, tail[0], tail[1], tail[2], 4, false, false)
  {
    var ls, k := [h] + mid + tail, 1 + |mid|;
    assert ls[1..k] == mid && ls[k..] == tail && ls[0] == h;
    assert tail[0] in tail;
    PlainMiddle(mid);
    HostPlaced(ls, k);
    var n := Continued(Started(h), mid);
    TailPlaced(n, tail);
    FinishFilled(n, tail);
  }

  /** A host name with dots in it: however many labels, it is their join, cut to what the buffer holds, in the domain
      local or arpa. */
  lemma DottedHost(h: Text, mid: seq<Text>, domain: Text)
    requires |h| <= 64 && !IsSub(h) && ArePlain(mid) && IsDomain(domain)
    ensures Finish(PlaceTexts(EMPTY, [h] + mid + [domain])) ==
            Name(Cut(Joined([h] + mid)), [], [], domain, 2, false, false)
  {
    DomainIsNotPlain(domain);
    PlainHost(h, mid, [domain]);
  }

  lemma ReverseIsNotPlain(t: Text)
    requires IsWord(t, "in-addr") || IsWord(t, "ip6")
    ensures !IsPlain(t) && !IsSub(t)
  {
    assert |"_sub"| == 4 && |"in-addr"| == 7 && |"ip6"| == 3;
  }

  /** The name of an address: the address is the service, and in-addr or ip6 the protocol. */
  lemma ReverseName(h: Text, mid: seq<Text>, family: Text, domain: Text)
    requires |h| <= 64 && !IsSub(h) && ArePlain(mid) && IsDomain(domain)
    requires IsWord(family, "in-addr") || IsWord(family, "ip6")
    ensures Finish(PlaceTexts(EMPTY, [h] + mid + [family, domain])) ==
            Name([], Cut(Joined([h] + mid)), family, domain, 3, false, false)
  {
    DomainIsNotPlain(domain);
    ReverseIsNotPlain(family);
    PlainHost(h, mid, [family, domain]);
  }
}
