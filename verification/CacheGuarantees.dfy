/** What the cache promises after every operation, spelled out: the operations of MdnsCache keep Sound, and Sound
    means all of this. */
module CacheGuarantees {
  import opened CacheIndex
  import opened CacheModel
  import opened CacheViews

  /** The place of a record: its service is listed under the entry, a subtype under the service, an address under
      the entry. */
  ghost predicate IsAt(st: State, r: Rec, e: Ref) {
    && e in st.cache && e in st.serviceList && e in st.addrList
    && (r.Adr? ==> r.e == e && r.a in st.addrList[e])
    && (!r.Adr? ==> r.s in st.services && r.s in st.serviceList[e])
    && (r.Sub? ==> r.s in st.subtypeList && r.t in st.subtypeList[r.s])
  }

  lemma {:induction false} SortedInOrder(ns: seq<Node>)
    requires Sorted(ns) && Distinct(ns)
    ensures forall i, j | 0 <= i < j < |ns| :: ns[i].expires <= ns[j].expires && ns[i].rec != ns[j].rec
  {
    forall i, j | 0 <= i < j < |ns| ensures ns[i].expires <= ns[j].expires && ns[i].rec != ns[j].rec {
      SortedPair(ns, i, j);
      DistinctPair(ns, i, j);
    }
  }

  lemma RecordIsAt(st: State, r: Rec)
    requires Domains(st) && OwnedListed(st.serviceList, st.owner) && Placed(st) && r in st.records
    ensures IsAt(st, r, Home(st, r))
  {
    if r.Adr? {
      assert Adr(r.e, r.a) in st.records;
    } else {
      assert r.s in st.owner && r.s in st.serviceList[st.owner[r.s]];
      if r.Sub? {
        assert Sub(r.s, r.t) in st.records;
      }
    }
  }

  /** The index is sorted, and its nodes and the records that are present correspond one to one; every node names
      the entry that holds its record now. */
  lemma IndexIsExact(st: State)
    requires Sound(st)
    ensures forall i, j | 0 <= i < j < |st.expiry| ::
              st.expiry[i].expires <= st.expiry[j].expires && st.expiry[i].rec != st.expiry[j].rec
    ensures forall n <- st.expiry :: n.rec in st.records && IsAt(st, n.rec, n.entry)
    ensures forall r | r in st.records :: exists n :: n in st.expiry && n.rec == r
  {
    Open(st);
    SortedInOrder(st.expiry);
    forall n | n in st.expiry ensures n.rec in st.records && IsAt(st, n.rec, n.entry) {
      RecordIsAt(st, n.rec);
    }
  }

  /** No entry and no service is kept that holds nothing. */
  lemma NothingIsEmpty(st: State)
    requires Sound(st)
    ensures forall e | e in st.cache :: HasContent(st, e)
    ensures forall s | s in st.services :: HasRecord(st, s)
  {
    Open(st);
    EntriesOfCache(st);
  }

  lemma EntriesOfCache(st: State)
    requires Domains(st)
    ensures forall e | e in st.cache :: e in st.entries
  {
  }

  /** No two services of one interface and protocol have the same names, no two entries the same host, and what is
      marked is going to be reported. */
  lemma NothingIsTwice(st: State)
    requires Sound(st)
    ensures forall s, u | s in st.services && u in st.services && SvcKeyOf(st, s) == SvcKeyOf(st, u) :: s == u
    ensures forall e, f | e in st.entries && f in st.entries && st.entries[e] == st.entries[f] :: e == f
    ensures forall s | s in st.marks && st.marks[s] != {} :: st.syncPending
  {
    Open(st);
  }

  /** Rows are a faithful view: one row for every record, no two with the same key. */
  lemma {:induction false} RowsAreRecords(st: State, r: Rec) returns (x: Row)
    requires Sound(st) && r in st.records
    ensures x in Rows(st) && x == RowAt(st, r, x.deadline) && forall y | y in Rows(st) && y.key == x.key :: y == x
  {
    Open(st);
    x := UniqueRow(st, r);
  }
}
