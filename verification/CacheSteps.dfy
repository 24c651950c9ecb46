/** The elementary changes of the cache and what each of them keeps. */
module CacheSteps {
  import opened Common
  import opened CacheIndex
  import opened CacheModel

  // ------------------------------------------------------------------ lists

  lemma ListsPush(lists: map<Ref, seq<Ref>>, owner: map<Ref, Ref>, e: Ref, s: Ref)
    requires DupFree(lists) && ListsOwned(lists, owner) && OwnedListed(lists, owner) && e in lists && s !in owner
    ensures DupFree(lists[e := [s] + lists[e]])
    ensures ListsOwned(lists[e := [s] + lists[e]], owner[s := e])
    ensures OwnedListed(lists[e := [s] + lists[e]], owner[s := e])
  {
    NoRepeatPush(lists[e], s);
  }

  lemma ListsTake(lists: map<Ref, seq<Ref>>, owner: map<Ref, Ref>, e: Ref, s: Ref)
    requires DupFree(lists) && ListsOwned(lists, owner) && OwnedListed(lists, owner)
    requires e in lists && s in owner && owner[s] == e
    ensures DupFree(lists[e := Without(lists[e], s)])
    ensures ListsOwned(lists[e := Without(lists[e], s)], owner - {s})
    ensures OwnedListed(lists[e := Without(lists[e], s)], owner - {s})
  {
    WithoutKeeps(lists[e], s);
  }

  lemma ListsAdd(lists: map<Ref, seq<Ref>>, owner: map<Ref, Ref>, e: Ref)
    requires DupFree(lists) && ListsOwned(lists, owner) && OwnedListed(lists, owner) && e !in lists
    ensures DupFree(lists[e := []]) && ListsOwned(lists[e := []], owner) && OwnedListed(lists[e := []], owner)
  {
  }

  lemma ListsRemove(lists: map<Ref, seq<Ref>>, owner: map<Ref, Ref>, e: Ref)
    requires DupFree(lists) && ListsOwned(lists, owner) && OwnedListed(lists, owner)
    requires forall s | s in owner :: owner[s] != e
    ensures DupFree(lists - {e}) && ListsOwned(lists - {e}, owner) && OwnedListed(lists - {e}, owner)
  {
  }

  // ------------------------------------------------------------------ the changes

  function NewEntry(st: State, h: Host): (r: State) {
    st.(cache := [st.next] + st.cache,
    entries := st.entries[st.next := h],
    serviceList := st.serviceList[st.next := []],
    addrList := st.addrList[st.next := []],
    next := st.next + 1)
  }

  function DropEntry(st: State, e: Ref): (r: State) {
    st.(cache := Without(st.cache, e),
    entries := st.entries - {e},
    serviceList := st.serviceList - {e},
    addrList := st.addrList - {e})
  }

  function NewService(st: State, e: Ref, n: Names): (r: State)
    requires e in st.serviceList
  {
    st.(serviceList := st.serviceList[e := [st.next] + st.serviceList[e]],
    services := st.services[st.next := n],
    subtypeList := st.subtypeList[st.next := []],
    marks := st.marks[st.next := {}],
    next := st.next + 1,
    owner := st.owner[st.next := e])
  }

  function DropService(st: State, e: Ref, s: Ref): (r: State)
    requires e in st.serviceList
  {
    st.(serviceList := st.serviceList[e := Without(st.serviceList[e], s)],
    services := st.services - {s},
    subtypeList := st.subtypeList - {s},
    marks := st.marks - {s},
    owner := st.owner - {s})
  }

  function Relabeled(n: Node, s: Ref, e: Ref): (m: Node) {
    if !n.rec.Adr? && n.rec.s == s then n.(entry := e) else n
  }

  /** The nodes of a service point to its new entry. */
  function Relabel(ns: seq<Node>, s: Ref, e: Ref): (r: seq<Node>) {
    if ns == [] then [] else [Relabeled(ns[0], s, e)] + Relabel(ns[1..], s, e)
  }

  lemma {:induction false} RelabelAt(ns: seq<Node>, s: Ref, e: Ref)
    ensures |Relabel(ns, s, e)| == |ns| && forall i | 0 <= i < |ns| :: Relabel(ns, s, e)[i] == Relabeled(ns[i], s, e)
  {
    if ns != [] {
      RelabelAt(ns[1..], s, e);
    }
  }

  function Moved(lists: map<Ref, seq<Ref>>, e: Ref, f: Ref, s: Ref): (r: map<Ref, seq<Ref>>)
    requires e in lists && f in lists
  {
    var taken := lists[e := Without(lists[e], s)];
    taken[f := [s] + taken[f]]
  }

  function MoveService(st: State, e: Ref, f: Ref, s: Ref): (r: State)
    requires e in st.serviceList && f in st.serviceList
  {
    st.(serviceList := Moved(st.serviceList, e, f, s),
    expiry := Relabel(st.expiry, s, f),
    owner := st.owner[s := f])
  }

  /** Store the contents of a record and schedule it. */
  function SetRecord(st: State, r: Rec, d: Data, deadline: int): (q: State) {
    st.(records := st.records[r := d], expiry := Schedule(st.expiry, Node(r, Home(st, r), true, deadline)))
  }

  function NewSubtype(st: State, s: Ref, d: Data, deadline: int): (q: State)
    requires s in st.subtypeList
  {
    SetRecord(st, Sub(s, st.next), d, deadline).(
    subtypeList := st.subtypeList[s := [st.next] + st.subtypeList[s]], next := st.next + 1)
  }

  function NewAddr(st: State, e: Ref, d: Data, deadline: int): (q: State)
    requires e in st.addrList
  {
    SetRecord(st, Adr(e, st.next), d, deadline).(
    addrList := st.addrList[e := [st.next] + st.addrList[e]], next := st.next + 1)
  }

  /** Forget a record and its node. */
  function DropRecord(st: State, r: Rec): (q: State) {
    st.(records := st.records - {r},
    expiry := Drop(st.expiry, r),
    subtypeList := if r.Sub? && r.s in st.subtypeList
    then st.subtypeList[r.s := Without(st.subtypeList[r.s], r.t)] else st.subtypeList,
    addrList := if r.Adr? && r.e in st.addrList
    then st.addrList[r.e := Without(st.addrList[r.e], r.a)] else st.addrList)
  }

  function Mark(st: State, s: Ref, k: Kind): (q: State)
    requires s in st.marks
  {
    st.(marks := st.marks[s := st.marks[s] + {k}], syncPending := true)
  }

  // ------------------------------------------------------------------ rows

  /** A node reads the same in two states. */
  ghost predicate SameRow(st: State, q: State, n: Node) {
    && HostAt(q, n.entry) == HostAt(st, n.entry)
    && NamesOfRec(q, n.rec) == NamesOfRec(st, n.rec)
    && DataAt(q, n.rec) == DataAt(st, n.rec)
  }

  lemma SameRows(st: State, q: State)
    requires q.expiry == st.expiry && forall n <- st.expiry :: SameRow(st, q, n)
    ensures Rows(q) == Rows(st)
  {
    assert forall n | n in st.expiry :: RowOf(q, n) == RowOf(st, n);
  }

  lemma MapImage(a: seq<Row>, b: seq<Row>, f: Row -> Row)
    requires |a| == |b| && forall i | 0 <= i < |a| :: b[i] == f(a[i])
    ensures (set y | y in b) == set x | x in a :: f(x)
  {
    forall y | y in b ensures y in set x | x in a :: f(x) {
      var i :| 0 <= i < |b| && b[i] == y;
      assert a[i] in a;
    }
    forall x | x in a ensures f(x) in b {
      var i :| 0 <= i < |a| && a[i] == x;
      assert b[i] == f(x);
    }
  }

  function RowSeq(st: State): (r: seq<Row>) {
    seq(|st.expiry|, i requires 0 <= i < |st.expiry| => RowOf(st, st.expiry[i]))
  }

  lemma RowsAreSeq(st: State)
    ensures Rows(st) == set x | x in RowSeq(st)
  {
    var rows := RowSeq(st);
    forall x | x in Rows(st) ensures x in rows {
      var n :| n in st.expiry && x == RowOf(st, n);
      var i :| 0 <= i < |st.expiry| && st.expiry[i] == n;
      assert rows[i] == x;
    }
    forall x | x in rows ensures x in Rows(st) {
      var i :| 0 <= i < |rows| && rows[i] == x;
      assert st.expiry[i] in st.expiry;
    }
  }

  /** The nodes stay in place and every row becomes another. */
  lemma MapRows(st: State, q: State, f: Row -> Row)
    requires |q.expiry| == |st.expiry| && forall i | 0 <= i < |st.expiry| :: RowSeq(q)[i] == f(RowSeq(st)[i])
    ensures Rows(q) == set x | x in Rows(st) :: f(x)
  {
    RowsAreSeq(st);
    RowsAreSeq(q);
    MapImage(RowSeq(st), RowSeq(q), f);
  }

  // ------------------------------------------------------------------ names and owners

  /** Services keep their identity from one state to the next. */
  ghost predicate SameServiceKeys(st: State, q: State) {
    forall s | s in q.services :: s in st.services && SvcKeyOf(q, s) == SvcKeyOf(st, s)
                                  && q.services[s] == st.services[s]
  }

  /** No subtype or address is new or renamed. */
  ghost predicate SameRecordNames(st: State, q: State) {
    && (forall s, t | Sub(s, t) in q.records :: Sub(s, t) in st.records && SubName(q, s, t) == SubName(st, s, t))
    && (forall e, a | Adr(e, a) in q.records :: Adr(e, a) in st.records && AddrAt(q, e, a) == AddrAt(st, e, a))
  }

  lemma NamesCarryOver(st: State, q: State)
    requires Named(st) && UniqueHosts(q) && SameServiceKeys(st, q) && SameRecordNames(st, q)
    ensures Named(q)
  {
  }

  /** Every service belongs to an entry that exists, and so does every record. */
  ghost predicate Owned(st: State) {
    && (forall s | s in st.services :: s in st.owner && st.owner[s] in st.entries)
    && (forall r | r in st.records :: Home(st, r) in st.entries)
  }

  lemma InvOwned(st: State)
    requires Domains(st) && Listed(st) && Placed(st)
    ensures Owned(st)
  {
  }

  /** Records, their lists and their owners did not change. */
  lemma PlacedCarriesOver(st: State, q: State)
    requires Placed(st) && q.records == st.records && q.addrList == st.addrList && q.subtypeList == st.subtypeList
    requires q.services == st.services
    ensures Placed(q)
  {
  }

  lemma SyncedCarriesOver(st: State, q: State)
    requires Synced(st) && q.records == st.records && q.marks == st.marks && q.syncPending == st.syncPending
    ensures Synced(q)
  {
    assert forall s, t :: IsPending(q, s, t) == IsPending(st, s, t);
  }
}
