/** Capping the lifetime of records that no browse wants. */
module CacheTrim {
  import opened CacheIndex
  import opened CacheModel
  import opened CacheSteps
  import opened CacheViews
  import opened CacheOutcomes

  /** A browse as the cache sees it. */
  datatype Browse = Browse(service: string, proto: string, subtype: string, running: bool, notifier: bool)

  predicate Browsed(browses: seq<Browse>, service: string, proto: string) {
    exists b :: b in browses && b.running && b.service == service && b.proto == proto
  }

  predicate BrowsedSubtype(browses: seq<Browse>, service: string, proto: string, subtype: string) {
    exists b :: b in browses && b.running && b.service == service && b.proto == proto && b.subtype == subtype
  }

  /** Some running browse wants the record of this name: for an address one that wants a service of the host. */
  ghost predicate Wanted(st: State, k: Key, browses: seq<Browse>) {
    match k
    case PtrKey(svc) => BrowsedSubtype(browses, svc.names.service, svc.names.proto, "")
    case SubKey(svc, subtype) => BrowsedSubtype(browses, svc.names.service, svc.names.proto, subtype)
    case AdrKey(h, _) => Awaited(st, h, (service, proto) => Browsed(browses, service, proto))
    case _ => Browsed(browses, k.svc.names.service, k.svc.names.proto)
  }

  /** What becomes of a row. */
  ghost function Trimmed(st: State, x: Row, browses: seq<Browse>, deadline: int): (r: Row) {
    if x.deadline > deadline && !Wanted(st, x.key, browses) then x.(deadline := deadline) else x
  }

  // ------------------------------------------------------------------ the list

  /** The nodes that are capped, the last one first. */
  function CappedOf(ns: seq<Node>, wanted: set<Rec>, deadline: int): (r: seq<Node>) {
    if ns == [] then []
    else
      var init, last := ns[..|ns| - 1], ns[|ns| - 1];
      if last.rec in wanted then CappedOf(init, wanted, deadline)
      else [last.(expires := deadline)] + CappedOf(init, wanted, deadline)
  }

  function KeptOf(ns: seq<Node>, wanted: set<Rec>): (r: seq<Node>) {
    if ns == [] then []
    else
      var init, last := ns[..|ns| - 1], ns[|ns| - 1];
      if last.rec in wanted then KeptOf(init, wanted) + [last] else KeptOf(init, wanted)
  }

  lemma {:induction false} CappedHas(ns: seq<Node>, wanted: set<Rec>, deadline: int)
    ensures forall m :: m in CappedOf(ns, wanted, deadline) <==>
                        exists n :: n in ns && n.rec !in wanted && m == n.(expires := deadline)
  {
    if ns != [] {
      var init, last := ns[..|ns| - 1], ns[|ns| - 1];
      CappedHas(init, wanted, deadline);
      assert ns == init + [last];
      forall m ensures m in CappedOf(ns, wanted, deadline) <==>
                       exists n :: n in ns && n.rec !in wanted && m == n.(expires := deadline) {
        if n :| n in ns && n.rec !in wanted && m == n.(expires := deadline) {
          assert n in init || n == last;
        }
        if m in CappedOf(init, wanted, deadline) {
          var n :| n in init && n.rec !in wanted && m == n.(expires := deadline);
          assert n in ns;
        }
        assert last in ns;
      }
    }
  }

  lemma {:induction false} KeptHas(ns: seq<Node>, wanted: set<Rec>)
    ensures forall n :: n in KeptOf(ns, wanted) <==> n in ns && n.rec in wanted
  {
    if ns != [] {
      assert ns == ns[..|ns| - 1] + [ns[|ns| - 1]];
      KeptHas(ns[..|ns| - 1], wanted);
    }
  }

  lemma {:induction false} Joined(a: seq<Node>, b: seq<Node>)
    requires Sorted(a) && Sorted(b) && forall m, n | m in a && n in b :: m.expires <= n.expires
    requires Distinct(a) && Distinct(b) && forall m, n | m in a && n in b :: m.rec != n.rec
    ensures Sorted(a + b) && Distinct(a + b)
  {
    if a == [] {
      assert a + b == b;
    } else {
      Joined(a[1..], b);
      assert (a + b)[1..] == a[1..] + b && a[0] in a;
    }
  }

  lemma {:induction false} SplitOrder(a: seq<Node>, b: seq<Node>)
    requires Sorted(a + b) && Distinct(a + b)
    ensures Sorted(a) && Sorted(b) && Distinct(a) && Distinct(b)
    ensures forall m, n | m in a && n in b :: m.expires <= n.expires && m.rec != n.rec
  {
    if a == [] {
      assert a + b == b;
    } else {
      assert (a + b)[1..] == a[1..] + b;
      SplitOrder(a[1..], b);
      assert a[0] == (a + b)[0];
      forall m, n | m in a && n in b ensures m.expires <= n.expires && m.rec != n.rec {
        assert n in (a + b)[1..];
        assert m == a[0] || m in a[1..];
        HeadFirst(a + b, n);
      }
      forall m | m in a[1..] ensures a[0].rec != m.rec && a[0].expires <= m.expires {
        assert m in (a + b)[1..];
        HeadFirst(a + b, m);
      }
    }
  }

  lemma HeadFirst(ns: seq<Node>, m: Node)
    requires ns != [] && Sorted(ns) && Distinct(ns) && m in ns[1..]
    ensures ns[0].expires <= m.expires && ns[0].rec != m.rec
  {
    var i :| 0 <= i < |ns[1..]| && ns[1..][i] == m;
    SortedPair(ns, 0, i + 1);
    DistinctPair(ns, 0, i + 1);
  }

  lemma {:induction false} CappedOrder(ns: seq<Node>, wanted: set<Rec>, deadline: int)
    requires Sorted(ns) && Distinct(ns)
    ensures Sorted(CappedOf(ns, wanted, deadline)) && Distinct(CappedOf(ns, wanted, deadline))
  {
    if ns != [] {
      var init, last := ns[..|ns| - 1], ns[|ns| - 1];
      assert ns == init + [last];
      SplitOrder(init, [last]);
      CappedOrder(init, wanted, deadline);
      CappedHas(init, wanted, deadline);
      if last.rec !in wanted {
        Joined([last.(expires := deadline)], CappedOf(init, wanted, deadline));
      }
    }
  }

  lemma {:induction false} KeptOrder(ns: seq<Node>, wanted: set<Rec>)
    requires Sorted(ns) && Distinct(ns)
    ensures Sorted(KeptOf(ns, wanted)) && Distinct(KeptOf(ns, wanted))
  {
    if ns != [] {
      var init, last := ns[..|ns| - 1], ns[|ns| - 1];
      assert ns == init + [last];
      SplitOrder(init, [last]);
      KeptOrder(init, wanted);
      KeptHas(init, wanted);
      if last.rec in wanted {
        Joined(KeptOf(init, wanted), [last]);
      }
    }
  }

  function TrimmedList(head: seq<Node>, tail: seq<Node>, wanted: set<Rec>, deadline: int): (r: seq<Node>) {
    head + (CappedOf(tail, wanted, deadline) + KeptOf(tail, wanted))
  }

  function TrimmedNode(n: Node, wanted: set<Rec>, deadline: int): (r: Node) {
    if n.expires > deadline && n.rec !in wanted then n.(expires := deadline) else n
  }

  /** The list stays sorted and without duplicates, and every node gets its new deadline. */
  lemma TrimmedOrder(head: seq<Node>, tail: seq<Node>, wanted: set<Rec>, deadline: int)
    requires Sorted(head + tail) && Distinct(head + tail)
    requires (forall n <- head :: n.expires <= deadline) && (forall n <- tail :: n.expires > deadline)
    ensures var ms := TrimmedList(head, tail, wanted, deadline); Sorted(ms) && Distinct(ms)
  {
    var capped, kept := CappedOf(tail, wanted, deadline), KeptOf(tail, wanted);
    SplitOrder(head, tail);
    CappedOrder(tail, wanted, deadline);
    KeptOrder(tail, wanted);
    CappedHas(tail, wanted, deadline);
    KeptHas(tail, wanted);
    Joined(capped, kept);
    Joined(head, capped + kept);
  }

  lemma TrimmedNodes(head: seq<Node>, tail: seq<Node>, wanted: set<Rec>, deadline: int)
    requires (forall n <- head :: n.expires <= deadline) && (forall n <- tail :: n.expires > deadline)
    ensures Retimed(head + tail, TrimmedList(head, tail, wanted, deadline), wanted, deadline)
  {
    CappedHas(tail, wanted, deadline);
    KeptHas(tail, wanted);
    var ms := TrimmedList(head, tail, wanted, deadline);
    forall m ensures m in ms <==> exists n :: n in head + tail && m == TrimmedNode(n, wanted, deadline) {
      if m in ms {
        if m in head || m in KeptOf(tail, wanted) {
          assert m in head + tail && m == TrimmedNode(m, wanted, deadline);
        } else {
          var n :| n in tail && n.rec !in wanted && m == n.(expires := deadline);
          assert n in head + tail && m == TrimmedNode(n, wanted, deadline);
        }
      }
      if n :| n in head + tail && m == TrimmedNode(n, wanted, deadline) {
        assert n in head || n in tail;
      }
    }
  }

  // ------------------------------------------------------------------ the cache

  ghost function WantedRecs(st: State, browses: seq<Browse>): (r: set<Rec>) {
    set r | r in st.records && Wanted(st, KeyOf(st, r), browses)
  }

  ghost predicate IsTrimmed(st: State, q: State, browses: seq<Browse>, deadline: int) {
    && Sound(q) && q == st.(expiry := q.expiry)
    && Rows(q) == set x | x in Rows(st) :: Trimmed(st, x, browses, deadline)
  }

  ghost predicate Retimed(ns: seq<Node>, ms: seq<Node>, wanted: set<Rec>, deadline: int) {
    forall m :: m in ms <==> exists n :: n in ns && m == TrimmedNode(n, wanted, deadline)
  }

  lemma RetimedNode(st: State, ms: seq<Node>, wanted: set<Rec>, deadline: int, m: Node)
    requires Retimed(st.expiry, ms, wanted, deadline) && m in ms
    requires forall n <- st.expiry :: n.rec in st.records && n.entry == Home(st, n.rec) && n.queued
    ensures m.rec in st.records && m.entry == Home(st, m.rec) && m.queued
  {
    var n :| n in st.expiry && m == TrimmedNode(n, wanted, deadline);
  }

  lemma RetimedRecord(st: State, ms: seq<Node>, wanted: set<Rec>, deadline: int, r: Rec)
    requires Retimed(st.expiry, ms, wanted, deadline) && exists n :: n in st.expiry && n.rec == r
    ensures exists m :: m in ms && m.rec == r
  {
    var n :| n in st.expiry && n.rec == r;
    var m := TrimmedNode(n, wanted, deadline);
    assert m in ms && m.rec == r;
  }

  lemma RetimedNodes(st: State, ms: seq<Node>, wanted: set<Rec>, deadline: int)
    requires Retimed(st.expiry, ms, wanted, deadline)
    requires forall n <- st.expiry :: n.rec in st.records && n.entry == Home(st, n.rec) && n.queued
    ensures forall m <- ms :: m.rec in st.records && m.entry == Home(st, m.rec) && m.queued
  {
    forall m | m in ms ensures m.rec in st.records && m.entry == Home(st, m.rec) && m.queued {
      RetimedNode(st, ms, wanted, deadline, m);
    }
  }

  lemma RetimedRecords(st: State, ms: seq<Node>, wanted: set<Rec>, deadline: int)
    requires Retimed(st.expiry, ms, wanted, deadline)
    requires forall r | r in st.records :: exists n :: n in st.expiry && n.rec == r
    ensures forall r | r in st.records :: exists m :: m in ms && m.rec == r
  {
    forall r | r in st.records ensures exists m :: m in ms && m.rec == r {
      RetimedRecord(st, ms, wanted, deadline, r);
    }
  }

  lemma TrimKeepsIndex(st: State, q: State)
    requires Sorted(q.expiry) && Distinct(q.expiry) && q == st.(expiry := q.expiry)
    requires forall m <- q.expiry :: m.rec in st.records && m.entry == Home(st, m.rec) && m.queued
    requires forall r | r in st.records :: exists m :: m in q.expiry && m.rec == r
    ensures Indexed(q)
  {
    assert forall r :: Home(q, r) == Home(st, r);
  }

  lemma IndexAlone(st: State, q: State)
    requires Domains(st) && Listed(st) && Fresh(st) && Placed(st) && q == st.(expiry := q.expiry)
    ensures Domains(q) && Listed(q) && Fresh(q) && Placed(q)
  {
    PlacedCarriesOver(st, q);
  }

  lemma IndexAloneNamed(st: State, q: State)
    requires Named(st) && q == st.(expiry := q.expiry)
    ensures Named(q)
  {
    assert SameServiceKeys(st, q) && SameRecordNames(st, q);
    NamesCarryOver(st, q);
  }

  lemma IndexAloneTidy(st: State, q: State)
    requires Tidy(st, {}, {}) && q == st.(expiry := q.expiry)
    ensures Tidy(q, {}, {})
  {
    assert forall e :: HasContent(q, e) == HasContent(st, e);
    assert forall s :: HasRecord(q, s) == HasRecord(st, s);
  }

  lemma IndexAloneSound(st: State, q: State)
    requires Sound(st) && Indexed(q) && q == st.(expiry := q.expiry)
    ensures Sound(q)
  {
    Open(st);
    IndexAlone(st, q);
    IndexAloneNamed(st, q);
    SyncedCarriesOver(st, q);
    IndexAloneTidy(st, q);
    Close(q);
  }

  lemma TrimRow(st: State, q: State, n: Node, wanted: set<Rec>, browses: seq<Browse>, deadline: int)
    requires q == st.(expiry := q.expiry) && n.rec in st.records && n.entry == Home(st, n.rec)
    requires n.rec in wanted <==> Wanted(st, KeyOf(st, n.rec), browses)
    ensures RowOf(q, TrimmedNode(n, wanted, deadline)) == Trimmed(st, RowOf(st, n), browses, deadline)
  {
    assert RowOf(st, n).key == KeyOf(st, n.rec);
  }

  lemma TrimRows(st: State, q: State, wanted: set<Rec>, browses: seq<Browse>, deadline: int)
    requires q == st.(expiry := q.expiry) && wanted == WantedRecs(st, browses)
    requires forall n <- st.expiry :: n.rec in st.records && n.entry == Home(st, n.rec)
    requires Retimed(st.expiry, q.expiry, wanted, deadline)
    ensures Rows(q) == set x | x in Rows(st) :: Trimmed(st, x, browses, deadline)
  {
    var rows := set x | x in Rows(st) :: Trimmed(st, x, browses, deadline);
    forall y ensures y in Rows(q) <==> y in rows {
      if y in Rows(q) {
        var m :| m in q.expiry && y == RowOf(q, m);
        var n :| n in st.expiry && m == TrimmedNode(n, wanted, deadline);
        TrimRow(st, q, n, wanted, browses, deadline);
        assert RowOf(st, n) in Rows(st);
      }
      if y in rows {
        var x :| x in Rows(st) && y == Trimmed(st, x, browses, deadline);
        var n :| n in st.expiry && x == RowOf(st, n);
        TrimRow(st, q, n, wanted, browses, deadline);
        assert TrimmedNode(n, wanted, deadline) in q.expiry;
      }
    }
  }

  lemma SoundIndex(st: State)
    requires Sound(st)
    ensures Indexed(st)
  {
    Open(st);
  }

  lemma TrimDone(st: State, head: seq<Node>, tail: seq<Node>, q: State, browses: seq<Browse>, deadline: int)
    requires Sound(st) && st.expiry == head + tail
    requires (forall n <- head :: n.expires <= deadline) && (forall n <- tail :: n.expires > deadline)
    requires q.expiry == TrimmedList(head, tail, WantedRecs(st, browses), deadline) && q == st.(expiry := q.expiry)
    ensures IsTrimmed(st, q, browses, deadline)
  {
    var wanted := WantedRecs(st, browses);
    SoundIndex(st);
    TrimmedOrder(head, tail, wanted, deadline);
    TrimmedNodes(head, tail, wanted, deadline);
    RetimedNodes(st, q.expiry, wanted, deadline);
    RetimedRecords(st, q.expiry, wanted, deadline);
    TrimKeepsIndex(st, q);
    IndexAloneSound(st, q);
    TrimRows(st, q, wanted, browses, deadline);
  }

  lemma HeadOfList(st: State, i: nat, deadline: int)
    requires Sound(st) && i <= |st.expiry| && (forall j | 0 <= j < i :: st.expiry[j].expires <= deadline)
    requires i == |st.expiry| || st.expiry[i].expires > deadline
    ensures (forall n <- st.expiry[..i] :: n.expires <= deadline)
    ensures (forall n <- st.expiry[i..] :: n.expires > deadline)
  {
    Open(st);
    forall n | n in st.expiry[i..] ensures n.expires > deadline {
      var j :| 0 <= j < |st.expiry[i..]| && st.expiry[i..][j] == n;
      if j > 0 {
        SortedPair(st.expiry, i, i + j);
      }
    }
  }

  lemma OneMoreNode(ns: seq<Node>, i: nat, k: nat, wanted: set<Rec>, deadline: int)
    requires i <= k < |ns|
    ensures var a, b, n := ns[i..k], ns[i..k + 1], ns[k];
            if n.rec in wanted then
              CappedOf(b, wanted, deadline) == CappedOf(a, wanted, deadline)
              && KeptOf(b, wanted) == KeptOf(a, wanted) + [n]
            else
              CappedOf(b, wanted, deadline) == [n.(expires := deadline)] + CappedOf(a, wanted, deadline)
              && KeptOf(b, wanted) == KeptOf(a, wanted)
  {
    var b := ns[i..k + 1];
    assert b[..|b| - 1] == ns[i..k];
  }

  lemma {:induction false} SplitLength(ns: seq<Node>, wanted: set<Rec>, deadline: int)
    ensures |CappedOf(ns, wanted, deadline)| + |KeptOf(ns, wanted)| == |ns|
  {
    if ns != [] {
      SplitLength(ns[..|ns| - 1], wanted, deadline);
    }
  }

  lemma Rearrange(list: seq<Node>, head: seq<Node>, capped: seq<Node>, kept: seq<Node>, n: Node, m: Node,
                  tail: seq<Node>)
    requires list == head + (capped + kept) + ([n] + tail)
    ensures var i, k := |head|, |head| + |capped| + |kept|;
            && list[..i] == head && list[i..k] == capped + kept && list[k + 1..] == tail
            && head + (capped + (kept + [n])) + tail == list
            && head + ([m] + capped + kept) + tail == list[..i] + [m] + list[i..k] + list[k + 1..]
  {
  }

  /** One turn of the loop: the list before the turn determines the list after it. */
  lemma StepTrim(list: seq<Node>, ns: seq<Node>, i: nat, k: nat, wanted: set<Rec>, deadline: int)
    requires i <= k < |ns| && list == TrimmedList(ns[..i], ns[i..k], wanted, deadline) + ns[k..]
    ensures |list| == |ns| && list[k] == ns[k]
    ensures var n := ns[k];
            TrimmedList(ns[..i], ns[i..k + 1], wanted, deadline) + ns[k + 1..] ==
            if n.rec in wanted then list else list[..i] + [n.(expires := deadline)] + list[i..k] + list[k + 1..]
  {
    var n, capped, kept := ns[k], CappedOf(ns[i..k], wanted, deadline), KeptOf(ns[i..k], wanted);
    SplitLength(ns[i..k], wanted, deadline);
    OneMoreNode(ns, i, k, wanted, deadline);
    assert ns[k..] == [n] + ns[k + 1..];
    Rearrange(list, ns[..i], capped, kept, n, n.(expires := deadline), ns[k + 1..]);
  }

  lemma TrimEnds(ns: seq<Node>, i: nat, wanted: set<Rec>, deadline: int)
    requires i <= |ns|
    ensures ns == TrimmedList(ns[..i], ns[i..i], wanted, deadline) + ns[i..]
    ensures TrimmedList(ns[..i], ns[i..|ns|], wanted, deadline) + ns[|ns|..] ==
            TrimmedList(ns[..i], ns[i..], wanted, deadline)
  {
    assert ns[i..|ns|] == ns[i..] && ns[|ns|..] == [];
  }
}
