/** What the cache has marked for the browses: the pending reports, by service name. */
module CacheReports {
  import opened CacheIndex
  import opened CacheModel
  import opened CacheSteps
  import opened CacheEntries
  import opened CacheViews
  import opened CacheUpdates

  /** A record of this kind of the service changed. */
  datatype Report = Report(svc: SvcKey, kind: Kind)

  function Reports(st: State): (r: set<Report>) {
    set s, k | s in st.marks && k in st.marks[s] :: Report(SvcKeyOf(st, s), k)
  }

  /** The services with marks are the same, with the same marks and names. */
  ghost predicate SameMarks(st: State, q: State) {
    && (forall s | s in st.marks && st.marks[s] != {} ::
          s in q.marks && q.marks[s] == st.marks[s] && SvcKeyOf(q, s) == SvcKeyOf(st, s))
    && (forall s | s in q.marks && q.marks[s] != {} :: s in st.marks && q.marks[s] == st.marks[s])
  }

  lemma ReportsSame(st: State, q: State)
    requires SameMarks(st, q)
    ensures Reports(q) == Reports(st)
  {
    forall x ensures x in Reports(q) <==> x in Reports(st) {
      if x in Reports(q) {
        var s, k :| s in q.marks && k in q.marks[s] && x == Report(SvcKeyOf(q, s), k);
        assert k in st.marks[s];
      }
      if x in Reports(st) {
        var s, k :| s in st.marks && k in st.marks[s] && x == Report(SvcKeyOf(st, s), k);
        assert k in q.marks[s];
      }
    }
  }

  lemma MarkReports(st: State, s: Ref, k: Kind)
    requires s in st.marks
    ensures Reports(Mark(st, s, k)) == Reports(st) + {Report(SvcKeyOf(st, s), k)}
  {
    var q := Mark(st, s, k);
    forall x ensures x in Reports(q) <==> x in Reports(st) + {Report(SvcKeyOf(st, s), k)} {
      if x in Reports(q) {
        var u, j :| u in q.marks && j in q.marks[u] && x == Report(SvcKeyOf(q, u), j);
        assert j in st.marks[u] || (u == s && j == k);
      }
      if x in Reports(st) {
        var u, j :| u in st.marks && j in st.marks[u] && x == Report(SvcKeyOf(st, u), j);
        assert j in q.marks[u];
      }
      assert k in q.marks[s];
    }
  }

  function ReportIf(reports: set<Report>, changed: bool, svc: SvcKey, k: Kind): (r: set<Report>) {
    if changed then reports + {Report(svc, k)} else reports
  }

  lemma MarkIfReports(st: State, changed: bool, s: Ref, k: Kind)
    requires s in st.marks
    ensures Reports(MarkIf(st, changed, s, k)) == ReportIf(Reports(st), changed, SvcKeyOf(st, s), k)
  {
    if changed {
      MarkReports(st, s, k);
    }
  }

  /** Storing a record reports nothing by itself. */
  lemma StoreReports(st: State, q: State)
    requires q.marks == st.marks && q.services == st.services && q.owner == st.owner && q.entries == st.entries
    ensures Reports(q) == Reports(st) && forall s :: SvcKeyOf(q, s) == SvcKeyOf(st, s)
  {
    ReportsSame(st, q);
  }

  lemma WithEntryReports(st: State, h: Host, e: Ref)
    requires Domains(st) && Owned(st) && Fresh(st) && EntryFor(st, h, e)
    ensures Reports(WithEntry(st, h, e)) == Reports(st)
  {
    WithEntryKeys(st, h, e);
    ReportsSame(st, WithEntry(st, h, e));
  }

  lemma DropEntryReports(st: State, e: Ref)
    requires (forall s | s in st.marks :: s in st.services) && Unused(st, e)
    ensures Reports(DropEntry(st, e)) == Reports(st)
  {
    ReportsSame(st, DropEntry(st, e));
  }

  lemma SweptReports(st: State, e: Ref)
    requires Domains(st) && Listed(st) && Placed(st) && e in st.entries
    ensures Reports(Swept(st, e)) == Reports(st)
  {
    if !HasContent(st, e) {
      EmptyIsUnused(st, e);
      DropEntryReports(st, e);
    }
  }

  lemma NewServiceReports(st: State, e: Ref, n: Names)
    requires Domains(st) && Fresh(st) && e in st.serviceList
    ensures Reports(NewService(st, e, n)) == Reports(st)
  {
    ReportsSame(st, NewService(st, e, n));
  }

  lemma CreatedReports(st: State, h: Host, e: Ref, n: Names)
    requires Valid(st) && EntryFor(st, h, e)
    ensures e in WithEntry(st, h, e).serviceList && Reports(Created(st, h, e, n)) == Reports(st)
  {
    InvOwned(st);
    WithEntryKeeps(st, h, e);
    WithEntryReports(st, h, e);
    NewServiceReports(WithEntry(st, h, e), e, n);
  }

  /** A service that is dropped takes its marks with it. */
  lemma DropServiceReports(st: State, e: Ref, s: Ref)
    requires UniqueServices(st) && Domains(st) && e in st.serviceList && s in st.services
    ensures Reports(DropService(st, e, s)) == set x | x in Reports(st) && x.svc != SvcKeyOf(st, s)
  {
    var q := DropService(st, e, s);
    forall x ensures x in Reports(q) <==> x in Reports(st) && x.svc != SvcKeyOf(st, s) {
      if x in Reports(q) {
        var u, j :| u in q.marks && j in q.marks[u] && x == Report(SvcKeyOf(q, u), j);
        assert u in st.marks && j in st.marks[u] && SvcKeyOf(q, u) == SvcKeyOf(st, u);
      }
      if x in Reports(st) && x.svc != SvcKeyOf(st, s) {
        var u, j :| u in st.marks && j in st.marks[u] && x == Report(SvcKeyOf(st, u), j);
        assert u in q.marks && j in q.marks[u] && SvcKeyOf(q, u) == SvcKeyOf(st, u);
      }
    }
  }

  lemma RemovedReports(st: State, e: Ref, s: Ref)
    requires Inv(st) && e in st.entries && e in st.serviceList && s in st.services && s in st.owner && st.owner[s] == e
    requires !HasRecord(st, s)
    ensures Reports(Removed(st, e, s)) == set x | x in Reports(st) && x.svc != SvcKeyOf(st, s)
  {
    DropServiceReports(st, e, s);
    DroppedSweptReports(st, DropService(st, e, s), e, s);
  }

  lemma DroppedSweptReports(st: State, q: State, e: Ref, s: Ref)
    requires Inv(st) && e in st.entries && e in st.serviceList && s in st.services && s in st.owner && st.owner[s] == e
    requires !HasRecord(st, s) && q == DropService(st, e, s)
    ensures Reports(Swept(q, e)) == Reports(q)
  {
    DropServiceKeeps(st, e, s);
    SweptReports(q, e);
  }

  lemma MoveReports(st: State, e: Ref, f: Ref, s: Ref)
    requires Movable(st, e, f, s)
    ensures Reports(MoveService(st, e, f, s)) == Reports(st)
  {
    ReportsSame(st, MoveService(st, e, f, s));
  }

  // ------------------------------------------------------------------ reports of the update operations

  lemma NoServiceNoReport(st: State, svc: SvcKey)
    requires Domains(st) && NoService(st, svc)
    ensures (set x | x in Reports(st) && x.svc != svc) == Reports(st)
  {
  }

  /** The first record of a service is reported. */
  lemma FirstReports(st: State, q: State, h: Host, e: Ref, n: Names, s: Ref, r: Rec, d: Data, deadline: int, k: Kind)
    requires Valid(st) && EntryFor(st, h, e) && e in WithEntry(st, h, e).serviceList && s == WithEntry(st, h, e).next
    requires var p := Created(st, h, e, n); s in p.marks && q == Mark(SetRecord(p, r, d, deadline), s, k)
    ensures Reports(q) == Reports(st) + {Report(ServiceKey(h, n), k)}
  {
    var p := Created(st, h, e, n);
    CreatedReports(st, h, e, n);
    CreatedMore(st, h, e, n);
    StoreReports(p, SetRecord(p, r, d, deadline));
    MarkReports(SetRecord(p, r, d, deadline), s, k);
  }

  lemma NotFirstReports(st: State, p: State, h: Host, e: Ref, n: Names, s: Ref)
    requires Valid(st) && EntryFor(st, h, e) && NonEmptyNames(n) && NoService(st, ServiceKey(h, n))
    requires e in WithEntry(st, h, e).serviceList && s == WithEntry(st, h, e).next && p == Created(st, h, e, n)
    requires e in p.serviceList
    ensures Reports(Removed(p, e, s)) == Reports(st)
  {
    CreatedReports(st, h, e, n);
    CreatedInv(st, h, e, n);
    CreatedMore(st, h, e, n);
    RemovedReports(p, e, s);
    NoServiceNoReport(st, ServiceKey(h, n));
  }

  lemma NotCreatedReports(st: State, h: Host, e: Ref)
    requires Valid(st) && EntryFor(st, h, e)
    ensures Reports(Swept(WithEntry(st, h, e), e)) == Reports(st)
  {
    InvOwned(st);
    WithEntryReports(st, h, e);
    WithEntryKeeps(st, h, e);
    SweptReports(WithEntry(st, h, e), e);
  }

  lemma KnownReports(st: State, s: Ref, r: Rec, d: Data, deadline: int, changed: bool, k: Kind)
    requires s in st.marks
    ensures Reports(MarkIf(SetRecord(st, r, d, deadline), changed, s, k)) ==
            ReportIf(Reports(st), changed, SvcKeyOf(st, s), k)
  {
    StoreReports(st, SetRecord(st, r, d, deadline));
    MarkIfReports(SetRecord(st, r, d, deadline), changed, s, k);
  }

  lemma NewSubtypeReports(st: State, s: Ref, d: Data, deadline: int)
    requires s in st.marks && s in st.subtypeList
    ensures Reports(Mark(NewSubtype(st, s, d, deadline), s, SUBTYPE)) ==
            Reports(st) + {Report(SvcKeyOf(st, s), SUBTYPE)}
  {
    StoreReports(st, NewSubtype(st, s, d, deadline));
    MarkReports(NewSubtype(st, s, d, deadline), s, SUBTYPE);
  }

  function ReportsAbout(st: State, list: seq<Ref>, k: Kind): (r: set<Report>) {
    set s | s in list :: Report(SvcKeyOf(st, s), k)
  }

  lemma {:induction false} MarkAllReports(st: State, list: seq<Ref>, k: Kind)
    requires forall s | s in list :: s in st.marks
    ensures Reports(MarkAll(st, list, k)) == Reports(st) + ReportsAbout(st, list, k)
    ensures forall s :: SvcKeyOf(MarkAll(st, list, k), s) == SvcKeyOf(st, s)
    decreases list
  {
    if list != [] {
      var q := Mark(st, list[0], k);
      MarkReports(st, list[0], k);
      assert forall s :: SvcKeyOf(q, s) == SvcKeyOf(st, s);
      MarkAllReports(q, list[1..], k);
      forall x ensures x in ReportsAbout(st, list, k) <==>
                       x == Report(SvcKeyOf(st, list[0]), k) || x in ReportsAbout(q, list[1..], k) {
      }
    }
  }

  /** A change of an address of the host, for every service there. */
  function HostReports(st: State, h: Host): (r: set<Report>) {
    set s | s in st.services && HostAt(st, OwnerOf(st, s)) == h :: Report(SvcKeyOf(st, s), ADDR)
  }

  lemma ListedReports(st: State, e: Ref)
    requires Domains(st) && Listed(st) && UniqueHosts(st) && e in st.entries && e in st.serviceList
    ensures ReportsAbout(st, st.serviceList[e], ADDR) == HostReports(st, st.entries[e])
  {
    forall s ensures s in st.serviceList[e] <==> s in st.services && HostAt(st, OwnerOf(st, s)) == st.entries[e] {
      ListedUnderHost(st, e, s);
    }
  }

  lemma ListedUnderHost(st: State, e: Ref, s: Ref)
    requires Domains(st) && ListsOwned(st.serviceList, st.owner) && OwnedListed(st.serviceList, st.owner)
    requires UniqueHosts(st)
    requires e in st.entries && e in st.serviceList
    ensures s in st.serviceList[e] <==> s in st.services && HostAt(st, OwnerOf(st, s)) == st.entries[e]
  {
    if s in st.serviceList[e] {
      assert s in st.owner && st.owner[s] == e;
    }
    if s in st.services && HostAt(st, OwnerOf(st, s)) == st.entries[e] {
      assert st.owner[s] in st.serviceList && s in st.serviceList[st.owner[s]];
      assert st.entries[st.owner[s]] == st.entries[e];
    }
  }
}
