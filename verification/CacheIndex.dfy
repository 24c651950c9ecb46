/** The expiry index of the mDNS browse cache: the list s_expiry of components/mdns/mdns_cache.c,
    kept sorted by deadline. */
module CacheIndex {

  /** A pointer to an object of the cache; objects are never reused. */
  type Ref = nat

  /** A cached record: the PTR, SRV or TXT record of a service, one of its subtype PTR records, or an
      address of a host entry. This stands for the record mask and the pointers of an expiry node. */
  datatype Rec =
    | Ptr(s: Ref)
    | Srv(s: Ref)
    | Txt(s: Ref)
    | Sub(s: Ref, t: Ref)
    | Adr(e: Ref, a: Ref)

  datatype Node = Node(rec: Rec, entry: Ref, queued: bool, expires: int)

  ghost predicate Sorted(ns: seq<Node>) {
    ns == [] || ((forall m <- ns[1..] :: ns[0].expires <= m.expires) && Sorted(ns[1..]))
  }

  ghost predicate Distinct(ns: seq<Node>) {
    ns == [] || ((forall m <- ns[1..] :: ns[0].rec != m.rec) && Distinct(ns[1..]))
  }

  lemma {:induction false} SortedPair(ns: seq<Node>, i: nat, j: nat)
    requires Sorted(ns) && i < j < |ns|
    ensures ns[i].expires <= ns[j].expires
  {
    if i == 0 {
      assert ns[j] == ns[1..][j - 1];
    } else {
      SortedPair(ns[1..], i - 1, j - 1);
    }
  }

  lemma {:induction false} DistinctPair(ns: seq<Node>, i: nat, j: nat)
    requires Distinct(ns) && i < j < |ns|
    ensures ns[i].rec != ns[j].rec
  {
    if i == 0 {
      assert ns[j] == ns[1..][j - 1];
    } else {
      DistinctPair(ns[1..], i - 1, j - 1);
    }
  }

  /** The list without the nodes of a record. */
  function Drop(ns: seq<Node>, r: Rec): (ms: seq<Node>)
    ensures forall n :: n in ms <==> n in ns && n.rec != r
  {
    if ns == [] then []
    else
      var rest := Drop(ns[1..], r);
      assert ns == [ns[0]] + ns[1..];
      if ns[0].rec == r then rest else [ns[0]] + rest
  }

  /** Insertion from the head: before the first node that does not expire earlier. */
  function Insert(ns: seq<Node>, n: Node): (ms: seq<Node>)
    ensures forall m :: m in ms <==> m in ns || m == n
  {
    if ns == [] || ns[0].expires >= n.expires then [n] + ns
    else
      assert ns == [ns[0]] + ns[1..];
      [ns[0]] + Insert(ns[1..], n)
  }

  /** What expiry_schedule should do: put the node of a record where its deadline belongs. */
  function Schedule(ns: seq<Node>, n: Node): (ms: seq<Node>) {
    Insert(Drop(ns, n.rec), n)
  }

  lemma {:induction false} DropKeeps(ns: seq<Node>, r: Rec)
    ensures Sorted(ns) ==> Sorted(Drop(ns, r))
    ensures Distinct(ns) ==> Distinct(Drop(ns, r))
  {
    if ns != [] {
      DropKeeps(ns[1..], r);
      assert ([ns[0]] + Drop(ns[1..], r))[1..] == Drop(ns[1..], r);
    }
  }

  lemma {:induction false} InsertKeeps(ns: seq<Node>, n: Node)
    ensures Sorted(ns) ==> Sorted(Insert(ns, n))
    ensures Distinct(ns) && (forall m <- ns :: m.rec != n.rec) ==> Distinct(Insert(ns, n))
  {
    assert ([n] + ns)[1..] == ns;
    if ns != [] {
      assert ns == [ns[0]] + ns[1..];
      InsertKeeps(ns[1..], n);
      assert ([ns[0]] + Insert(ns[1..], n))[1..] == Insert(ns[1..], n);
    }
  }

  lemma ScheduleKeeps(ns: seq<Node>, n: Node)
    requires Sorted(ns) && Distinct(ns)
    ensures Sorted(Schedule(ns, n)) && Distinct(Schedule(ns, n))
    ensures forall m :: m in Schedule(ns, n) <==> m == n || (m in ns && m.rec != n.rec)
  {
    DropKeeps(ns, n.rec);
    InsertKeeps(Drop(ns, n.rec), n);
  }

  lemma {:induction false} DropAt(ns: seq<Node>, i: nat)
    requires i < |ns| && Distinct(ns)
    ensures Drop(ns, ns[i].rec) == ns[..i] + ns[i + 1..]
  {
    var rest := ns[1..];
    if i == 0 {
      DropAbsent(rest, ns[0].rec);
    } else {
      DropAt(rest, i - 1);
      assert rest[i - 1] == ns[i] && ns[i] in rest;
      assert ns[..i] + ns[i + 1..] == [ns[0]] + (rest[..i - 1] + rest[i..]);
    }
  }

  lemma {:induction false} DropAbsent(ns: seq<Node>, r: Rec)
    requires forall i | 0 <= i < |ns| :: ns[i].rec != r
    ensures Drop(ns, r) == ns
  {
    if ns != [] {
      DropAbsent(ns[1..], r);
    }
  }

  /** Insertion may skip any nodes that expire earlier. */
  lemma {:induction false} InsertAfter(ns: seq<Node>, n: Node, k: nat)
    requires k <= |ns| && forall i | 0 <= i < k :: ns[i].expires < n.expires
    ensures Insert(ns, n) == ns[..k] + Insert(ns[k..], n)
  {
    if k == 0 {
      assert ns[..0] + Insert(ns[0..], n) == Insert(ns, n);
    } else {
      InsertAfter(ns[1..], n, k - 1);
      assert ns[..k] == [ns[0]] + ns[1..][..k - 1];
      assert ns[1..][k - 1..] == ns[k..];
    }
  }

  lemma InsertAt(ns: seq<Node>, n: Node, k: nat)
    requires k <= |ns| && (forall i | 0 <= i < k :: ns[i].expires < n.expires)
    requires k == |ns| || ns[k].expires >= n.expires
    ensures Insert(ns, n) == ns[..k] + [n] + ns[k..]
  {
    InsertAfter(ns, n, k);
    assert Insert(ns[k..], n) == [n] + ns[k..];
  }
}
