/** How the steps of the cache combine, seen through its rows. */
module CacheViews {
  import opened CacheIndex
  import opened CacheModel
  import opened CacheSteps
  import opened CacheEntries
  import opened CacheRecords

  // ------------------------------------------------------------------ scheduling

  /** The node of r and e is in the list, which is sorted but for a node that was never scheduled. */
  ghost predicate Schedulable(ns: seq<Node>, r: Rec, e: Ref) {
    && Distinct(ns) && Sorted(Drop(ns, r))
    && (exists n :: n in ns && n.rec == r && n.entry == e)
    && (forall n <- ns :: n.rec == r && n.queued ==> Sorted(ns))
  }

  lemma KnownIsSchedulable(st: State, r: Rec)
    requires Indexed(st) && r in st.records
    ensures Schedulable(st.expiry, r, Home(st, r))
  {
    DropKeeps(st.expiry, r);
  }

  /** A node pushed on the list leaves no trace once it is scheduled. */
  lemma NewIsSchedulable(st: State, r: Rec, pushed: Node, n: Node)
    requires Indexed(st) && r !in st.records && pushed.rec == n.rec == r && pushed.entry == n.entry && !pushed.queued
    ensures Schedulable([pushed] + st.expiry, r, n.entry)
    ensures Schedule([pushed] + st.expiry, n) == Schedule(st.expiry, n)
  {
    var ns := [pushed] + st.expiry;
    assert ns[1..] == st.expiry;
    forall i | 0 <= i < |st.expiry| ensures st.expiry[i].rec != r {
      assert st.expiry[i] in st.expiry;
    }
    DropAbsent(st.expiry, r);
    assert pushed in ns;
    assert forall m <- ns :: m == pushed || m in st.expiry;
  }

  // ------------------------------------------------------------------ undoing a creation

  /** What cache_remove_service_if_empty leaves. */
  function Removed(st: State, e: Ref, s: Ref): (q: State)
    requires e in st.serviceList
  {
    var q := DropService(st, e, s);
    if HasContent(q, e) then q else DropEntry(q, e)
  }

  /** Removing a service without records also removes an entry that was only kept for it. */
  lemma RemovedKeeps(st: State, e: Ref, s: Ref)
    requires Inv(st) && e in st.entries && e in st.serviceList && s in st.services && s in st.owner && st.owner[s] == e
    requires !HasRecord(st, s)
    ensures Inv(Removed(st, e, s)) && Rows(Removed(st, e, s)) == Rows(st)
  {
    var q := DropService(st, e, s);
    DropServiceKeeps(st, e, s);
    if !HasContent(q, e) {
      DropEntryKeeps(q, e);
    }
  }

  lemma TidyWithout(st: State, e: Ref, xe: set<Ref>, xs: set<Ref>)
    requires Tidy(st, xe + {e}, xs) && HasContent(st, e)
    ensures Tidy(st, xe, xs)
  {
  }

  lemma RemovedTidy(st: State, e: Ref, s: Ref, xs: set<Ref>)
    requires Tidy(st, {}, xs) && e in st.serviceList
    ensures Tidy(Removed(st, e, s), {}, xs - {s})
  {
    var q := DropService(st, e, s);
    DropServiceTidy(st, e, s, {}, xs);
    if HasContent(q, e) {
      TidyWithout(q, e, {}, xs - {s});
    } else {
      DropEntryTidy(q, e, {} + {e}, xs - {s});
      assert {} + {e} - {e} == {};
    }
  }

  // ------------------------------------------------------------------ finding or creating

  /** e is the entry of h, or where it will be created. */
  ghost predicate EntryFor(st: State, h: Host, e: Ref) {
    if e in st.entries then st.entries[e] == h
    else e == st.next && forall f | f in st.entries :: st.entries[f] != h
  }

  /** The state in which e exists. */
  function WithEntry(st: State, h: Host, e: Ref): (q: State) {
    if e in st.entries then st else NewEntry(st, h)
  }

  lemma WithEntryKeeps(st: State, h: Host, e: Ref)
    requires Inv(st) && EntryFor(st, h, e)
    ensures var q := WithEntry(st, h, e);
            Inv(q) && Rows(q) == Rows(st) && e in q.entries && q.entries[e] == h && e in q.serviceList
            && e in q.addrList
  {
    if e !in st.entries {
      NewEntryKeeps(st, h);
    }
  }

  lemma WithEntryTidy(st: State, h: Host, e: Ref, xs: set<Ref>)
    requires Tidy(st, {}, xs) && Fresh(st) && EntryFor(st, h, e)
    ensures Tidy(WithEntry(st, h, e), {e}, xs)
  {
    if e !in st.entries {
      NewEntryTidy(st, h, {}, xs);
      assert {} + {st.next} == {e};
    }
  }

  lemma WithEntryKeys(st: State, h: Host, e: Ref)
    requires Owned(st) && Fresh(st) && EntryFor(st, h, e)
    ensures WithEntry(st, h, e).services == st.services
    ensures forall s | s in st.services :: SvcKeyOf(WithEntry(st, h, e), s) == SvcKeyOf(st, s)
  {
    if e !in st.entries {
      NewEntrySvcKeys(st, h);
    }
  }

  /** cache_remove_entry_if_empty */
  function Swept(st: State, e: Ref): (q: State) {
    if HasContent(st, e) then st else DropEntry(st, e)
  }

  lemma SweptKeeps(st: State, e: Ref, xs: set<Ref>)
    requires Inv(st) && e in st.entries && Tidy(st, {e}, xs)
    ensures Inv(Swept(st, e)) && Rows(Swept(st, e)) == Rows(st) && Tidy(Swept(st, e), {}, xs)
  {
    if HasContent(st, e) {
      TidyWithout(st, e, {}, xs);
    } else {
      DropEntryKeeps(st, e);
      DropEntryTidy(st, e, {e}, xs);
      assert {e} - {e} == {};
    }
  }

  ghost predicate NoService(st: State, svc: SvcKey) {
    forall s | s in st.services :: SvcKeyOf(st, s) != svc
  }

  /** A new service for records that are about to come. */
  lemma CreatedFacts(st: State, e: Ref, n: Names)
    requires e in st.entries && e in st.serviceList
    ensures var q, s := NewService(st, e, n), st.next;
            && SvcKeyOf(q, s) == ServiceKey(st.entries[e], n) && e in q.entries
            && s in q.services && s in q.owner && q.owner[s] == e && s in q.marks && q.marks[s] == {}
            && s in q.subtypeList
  {
  }

  lemma CreatedTidy(st: State, e: Ref, n: Names)
    requires Fresh(st) && e in st.serviceList && Tidy(st, {e}, {})
    ensures Tidy(NewService(st, e, n), {}, {st.next})
  {
    NewServiceTidy(st, e, n, {e}, {});
    assert {e} - {e} == {} && {} + {st.next} == {st.next};
  }

  lemma NewServiceIsEmpty(st: State, e: Ref, n: Names)
    requires Domains(st) && Placed(st) && Fresh(st) && e in st.serviceList
    ensures !HasRecord(NewService(st, e, n), st.next)
  {
    assert st.next !in st.services;
    forall r | r in st.records && !r.Adr? ensures r.s != st.next {
    }
  }

  // ------------------------------------------------------------------ records and rows

  function KeyOf(st: State, r: Rec): (k: Key) {
    KeyAt(HostAt(st, Home(st, r)), NamesOfRec(st, r), r, DataAt(st, r))
  }

  function RowAt(st: State, r: Rec, deadline: int): (row: Row) {
    Row(KeyOf(st, r), DataAt(st, r), if r.Srv? then HostAt(st, Home(st, r)).name else "", deadline)
  }

  ghost predicate HasKey(rows: set<Row>, k: Key) {
    exists x :: x in rows && x.key == k
  }

  /** A record is present exactly when its key is. */
  lemma PresentHasKey(st: State, r: Rec)
    requires Indexed(st) && r in st.records
    ensures HasKey(Rows(st), KeyOf(st, r))
  {
    var n :| n in st.expiry && n.rec == r;
    assert RowOf(st, n) in Rows(st);
  }

  /** All records of this key expire at once. */
  function Expiring(rows: set<Row>, k: Key): (r: set<Row>) {
    set x | x in rows :: if x.key == k then x.(data := x.data.(ttl := 0), deadline := 0) else x
  }

  lemma UpsertIsExpiring(rows: set<Row>, x: Row)
    requires x in rows && forall y | y in rows && y.key == x.key :: y == x
    ensures Upsert(rows, x.(data := x.data.(ttl := 0), deadline := 0)) == Expiring(rows, x.key)
  {
    var z := x.(data := x.data.(ttl := 0), deadline := 0);
    forall y ensures y in Upsert(rows, z) <==> y in Expiring(rows, x.key) {
      if y in rows && y.key != x.key {
        assert y in Expiring(rows, x.key);
      }
      assert z in Expiring(rows, x.key);
    }
  }

  lemma UniqueRow(st: State, r: Rec) returns (x: Row)
    requires Inv(st) && r in st.records
    ensures x in Rows(st) && x.key == KeyOf(st, r) && x == RowAt(st, r, x.deadline)
    ensures forall y | y in Rows(st) && y.key == x.key :: y == x
  {
    InvOwned(st);
    AllHeld(st);
    var n :| n in st.expiry && n.rec == r;
    x := RowOf(st, n);
    forall y | y in Rows(st) && y.key == x.key ensures y == x {
      var m :| m in st.expiry && y == RowOf(st, m);
      SameKeySameRec(st, m, n);
      OneNode(st.expiry, m, n);
    }
  }

  lemma {:induction false} OneNode(ns: seq<Node>, m: Node, n: Node)
    requires Distinct(ns) && m in ns && n in ns && m.rec == n.rec
    ensures m == n
  {
    if m != ns[0] && n != ns[0] {
      OneNode(ns[1..], m, n);
    }
  }

  /** Setting the contents of a record, said in terms of its row. */
  lemma StoredRow(st: State, r: Rec, d: Data, deadline: int)
    ensures var q := SetRecord(st, r, d, deadline);
            RowOf(q, Node(r, Home(st, r), true, deadline)) == RowAt(q, r, deadline) && Home(q, r) == Home(st, r)
  {
  }

  lemma StorableAgain(st: State, r: Rec, ttl: nat)
    requires Domains(st) && Placed(st) && Synced(st) && r in st.records
    ensures Storable(st, r, st.records[r].(ttl := ttl))
  {
    if r.Sub? && st.records[r].pending {
      assert Sub(r.s, r.t) in st.records && IsPending(st, r.s, r.t);
    }
    if r.Adr? {
      assert Adr(r.e, r.a) in st.records;
    }
  }

  /** A goodbye leaves the record in place and lets it expire at once. */
  lemma GoodbyeKeeps(st: State, r: Rec)
    requires Valid(st) && r in st.records
    ensures var q := SetRecord(st, r, st.records[r].(ttl := 0), 0);
            Valid(q) && Rows(q) == Expiring(Rows(st), KeyOf(st, r))
  {
    var d := st.records[r].(ttl := 0);
    StorableAgain(st, r, 0);
    SetRecordKeeps(st, r, d, 0);
    SetRecordTidy(st, r, d, 0, {}, {});
    StoredRow(st, r, d, 0);
    GoodbyeRows(st, r);
  }

  lemma GoodbyeRows(st: State, r: Rec)
    requires Inv(st) && r in st.records
    ensures var q := SetRecord(st, r, st.records[r].(ttl := 0), 0);
            Upsert(Rows(st), RowAt(q, r, 0)) == Expiring(Rows(st), KeyOf(st, r))
  {
    var x := UniqueRow(st, r);
    UpsertIsExpiring(Rows(st), x);
  }

  // ------------------------------------------------------------------ the first record of a service

  /** The PTR, SRV or TXT record that holds this data. */
  function RecFor(s: Ref, d: Data): (r: Rec) {
    match d
    case PtrData(_) => Ptr(s)
    case SrvData(_, _, _, _) => Srv(s)
    case TxtData(_, _) => Txt(s)
    case _ => Ptr(s)
  }

  function KindFor(d: Data): (k: Kind) {
    match d
    case PtrData(_) => PTR
    case SrvData(_, _, _, _) => SRV
    case TxtData(_, _) => TXT
    case SubData(_, _, _) => SUBTYPE
    case AdrData(_, _) => ADDR
  }

  function KeyFor(svc: SvcKey, d: Data): (k: Key) {
    match d
    case PtrData(_) => PtrKey(svc)
    case SrvData(_, _, _, _) => SrvKey(svc)
    case TxtData(_, _) => TxtKey(svc)
    case SubData(name, _, _) => SubKey(svc, name)
    case AdrData(_, _) => PtrKey(svc)
  }

  predicate IsSingle(d: Data) {
    d.PtrData? || d.SrvData? || d.TxtData?
  }

  /** A fresh service under the entry of h. */
  function Created(st: State, h: Host, e: Ref, n: Names): (q: State)
    requires e in WithEntry(st, h, e).serviceList
  {
    NewService(WithEntry(st, h, e), e, n)
  }

  lemma CreatedInv(st: State, h: Host, e: Ref, n: Names)
    requires Valid(st) && EntryFor(st, h, e) && NonEmptyNames(n) && NoService(st, ServiceKey(h, n))
    ensures e in WithEntry(st, h, e).serviceList
    ensures var q := Created(st, h, e, n); Inv(q) && Rows(q) == Rows(st)
  {
    WithEntryKeeps(st, h, e);
    InvOwned(st);
    WithEntryKeys(st, h, e);
    NewServiceKeeps(WithEntry(st, h, e), e, n);
  }

  lemma CreatedMore(st: State, h: Host, e: Ref, n: Names)
    requires Valid(st) && EntryFor(st, h, e)
    ensures e in WithEntry(st, h, e).serviceList
    ensures var q, s := Created(st, h, e, n), WithEntry(st, h, e).next;
            && Tidy(q, {}, {s}) && !HasRecord(q, s) && SvcKeyOf(q, s) == ServiceKey(h, n)
            && s in q.services && s in q.owner && q.owner[s] == e && e in q.entries && q.entries[e] == h
            && s in q.marks && s in q.subtypeList && e in q.serviceList && e in q.addrList
  {
    var p := WithEntry(st, h, e);
    WithEntryKeeps(st, h, e);
    WithEntryTidy(st, h, e, {});
    CreatedFacts(p, e, n);
    CreatedTidy(p, e, n);
    NewServiceIsEmpty(p, e, n);
  }

  /** The row that a single record of a service gets. */
  function SingleRow(st: State, s: Ref, d: Data, deadline: int): (row: Row) {
    Row(KeyFor(SvcKeyOf(st, s), d), d, if d.SrvData? then HostAt(st, OwnerOf(st, s)).name else "", deadline)
  }

  lemma SingleRowIsRow(st: State, s: Ref, d: Data, deadline: int)
    requires IsSingle(d)
    ensures var r := RecFor(s, d);
            RowOf(SetRecord(st, r, d, deadline), Node(r, Home(st, r), true, deadline)) == SingleRow(st, s, d, deadline)
  {
  }

  lemma SingleStorable(st: State, s: Ref, d: Data)
    requires IsSingle(d) && s in st.services
    ensures Storable(st, RecFor(s, d), d)
  {
  }

  /** Storing one of the records a service has at most once. */
  lemma StoreSingle(st: State, s: Ref, d: Data, deadline: int)
    requires Inv(st) && IsSingle(d) && s in st.services
    ensures Inv(SetRecord(st, RecFor(s, d), d, deadline))
    ensures Rows(SetRecord(st, RecFor(s, d), d, deadline)) == Upsert(Rows(st), SingleRow(st, s, d, deadline))
  {
    SingleStorable(st, s, d);
    SingleRowIsRow(st, s, d, deadline);
    SetRecordKeeps(st, RecFor(s, d), d, deadline);
  }

  /** Marking afterwards completes the operation. */
  lemma MarkedValid(st: State, s: Ref, k: Kind)
    requires Inv(st) && Tidy(st, {}, {}) && s in st.marks
    ensures Valid(Mark(st, s, k)) && Rows(Mark(st, s, k)) == Rows(st)
  {
    MarkKeeps(st, s, k);
    MarkTidy(st, s, k, {}, {});
  }

  lemma FirstRecord(st: State, s: Ref, d: Data, deadline: int)
    requires Inv(st) && Tidy(st, {}, {s}) && IsSingle(d) && s in st.services && s in st.marks
    ensures var q := Mark(SetRecord(st, RecFor(s, d), d, deadline), s, KindFor(d));
            Valid(q) && Rows(q) == Upsert(Rows(st), SingleRow(st, s, d, deadline))
  {
    StoreSingle(st, s, d, deadline);
    SingleStorable(st, s, d);
    SetRecordTidy(st, RecFor(s, d), d, deadline, {}, {s});
    assert {s} - {s} == {};
    MarkedValid(SetRecord(st, RecFor(s, d), d, deadline), s, KindFor(d));
  }

  lemma NoFirstRecord(st: State, e: Ref, s: Ref)
    requires Inv(st) && Tidy(st, {}, {s}) && s in st.services && s in st.owner && st.owner[s] == e && e in st.entries
    requires e in st.serviceList && !HasRecord(st, s)
    ensures Valid(Removed(st, e, s)) && Rows(Removed(st, e, s)) == Rows(st)
  {
    RemovedKeeps(st, e, s);
    RemovedTidy(st, e, s, {s});
    assert {s} - {s} == {};
  }
}
