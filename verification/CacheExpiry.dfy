/** The expiry of one record: what goes with it and what is reported. */
module CacheExpiry {
  import opened Common
  import opened CacheIndex
  import opened CacheModel
  import opened CacheSteps
  import opened CacheRecords
  import opened CacheViews
  import opened CacheUpdates
  import opened CacheReports
  import opened CacheSpec

  /** A record of a service goes: with the last one the service goes, and with the last service the
      entry. The loss of a PTR record is announced at once, that of another one is marked. */
  function ExpireRecord(st: State, r: Rec, e: Ref): (q: State)
    requires !r.Adr? && e in st.serviceList && r.s in st.marks
  {
    var p := DropRecord(st, r);
    if !HasRecord(p, r.s) then Removed(p, e, r.s)
    else if r.Srv? then Mark(p, r.s, SRV)
    else if r.Txt? then Mark(p, r.s, TXT)
    else p
  }

  /** An address goes: all services of the host are marked. */
  function ExpireAddr(st: State, e: Ref, a: Ref): (q: State)
    requires e in st.serviceList && forall s | s in st.serviceList[e] :: s in st.marks
  {
    Swept(MarkAll(DropRecord(st, Adr(e, a)), st.serviceList[e], ADDR), e)
  }

  // ------------------------------------------------------------------ what remains

  /** The reports about services that still have a record. */
  ghost function Surviving(reports: set<Report>, rows: set<Row>): (r: set<Report>) {
    set x | x in reports && HasService(rows, x.svc)
  }

  /** What the expiry of a row makes the cache report. */
  function RowReports(st: State, x: Row): (r: set<Report>) {
    match x.key
    case SrvKey(svc) => {Report(svc, SRV)}
    case TxtKey(svc) => {Report(svc, TXT)}
    case AdrKey(h, _) => HostReports(st, h)
    case _ => {}
  }

  ghost predicate Expires(st: State, q: State, x: Row) {
    && Sound(q) && x in Rows(st) && Rows(q) == Rows(st) - {x}
    && Reports(q) == Surviving(Reports(st) + RowReports(st, x), Rows(q))
    && forall h :: HostReports(q, h) == Surviving(HostReports(st, h), Rows(q))
  }

  // ------------------------------------------------------------------ rows

  lemma DroppedRow(st: State, n: Node)
    requires Inv(st) && n in st.expiry
    ensures n.rec in st.records && Rows(DropRecord(st, n.rec)) == Rows(st) - {RowOf(st, n)}
  {
    InvOwned(st);
    AllHeld(st);
    DropRecordRows(st, n.rec);
    RestOfRows(st, n);
  }

  lemma RestOfRows(st: State, n: Node)
    requires UniqueHosts(st) && UniqueServices(st) && UniqueSubtypes(st) && UniqueAddrs(st)
    requires Indexed(st) && n in st.expiry && forall r | r in st.records :: Held(st, r)
    ensures (set m | m in st.expiry && m.rec != n.rec :: RowOf(st, m)) == Rows(st) - {RowOf(st, n)}
  {
    forall m | m in st.expiry ensures m.rec == n.rec <==> RowOf(st, m) == RowOf(st, n) {
      if m.rec == n.rec {
        OneNode(st.expiry, m, n);
      } else if RowOf(st, m).key == RowOf(st, n).key {
        SameKeySameRec(st, m, n);
      }
    }
    var rest := set m | m in st.expiry && m.rec != n.rec :: RowOf(st, m);
    forall x ensures x in rest <==> x in Rows(st) && x != RowOf(st, n) {
      if x in Rows(st) && x != RowOf(st, n) {
        var m :| m in st.expiry && x == RowOf(st, m);
      }
    }
  }

  // ------------------------------------------------------------------ reports

  /** Services only disappear, and keep their names and hosts. */
  ghost predicate Shrunk(st: State, q: State) {
    forall s | s in q.services ::
      s in st.services && SvcKeyOf(q, s) == SvcKeyOf(st, s) && HostAt(q, OwnerOf(q, s)) == HostAt(st, OwnerOf(st, s))
  }

  /** The services have the marks they had and those for these reports. */
  ghost predicate MarkedFor(st: State, q: State, reports: set<Report>) {
    forall s | s in q.services ::
      s in st.marks && s in q.marks
      && forall k :: k in q.marks[s] <==> k in st.marks[s] || Report(SvcKeyOf(st, s), k) in reports
  }

  lemma ServiceRows(q: State, svc: SvcKey)
    requires Placed(q) && Indexed(q) && Tidy(q, {}, {})
    ensures HasService(Rows(q), svc) <==> !NoService(q, svc)
  {
    if NoService(q, svc) {
      NoServiceNoRow(q, svc);
    } else {
      var s :| s in q.services && SvcKeyOf(q, s) == svc;
      KnownHasService(q, s);
    }
  }

  lemma ReportsSurvive(st: State, q: State, reports: set<Report>)
    requires Shrunk(st, q) && MarkedFor(st, q, reports) && UniqueServices(st)
    requires forall s | s in q.marks :: s in q.services
    requires forall s | s in st.marks :: s in st.services
    requires forall x | x in reports :: !NoService(st, x.svc)
    ensures Reports(q) == set x | x in Reports(st) + reports && !NoService(q, x.svc)
  {
    forall x ensures x in Reports(q) <==> x in Reports(st) + reports && !NoService(q, x.svc) {
      if x in Reports(q) {
        var s, k :| s in q.marks && k in q.marks[s] && x == Report(SvcKeyOf(q, s), k);
        assert SvcKeyOf(st, s) == x.svc;
      }
      if x in Reports(st) + reports && !NoService(q, x.svc) {
        var u :| u in q.services && SvcKeyOf(q, u) == x.svc;
        SurvivorHasMark(st, q, reports, x, u);
      }
    }
  }

  lemma SurvivorHasMark(st: State, q: State, reports: set<Report>, x: Report, u: Ref)
    requires Shrunk(st, q) && MarkedFor(st, q, reports) && UniqueServices(st)
    requires forall s | s in st.marks :: s in st.services
    requires x in Reports(st) + reports && u in q.services && SvcKeyOf(q, u) == x.svc
    ensures x in Reports(q)
  {
    if x in Reports(st) {
      var s, k :| s in st.marks && k in st.marks[s] && x == Report(SvcKeyOf(st, s), k);
      assert SvcKeyOf(st, u) == SvcKeyOf(st, s);
    }
    assert x.kind in q.marks[u];
  }

  lemma HostsSurvive(st: State, q: State, h: Host)
    requires Shrunk(st, q) && UniqueServices(st)
    ensures HostReports(q, h) == set x | x in HostReports(st, h) && !NoService(q, x.svc)
  {
    forall x ensures x in HostReports(q, h) <==> x in HostReports(st, h) && !NoService(q, x.svc) {
      if x in HostReports(q, h) {
        var s :| s in q.services && HostAt(q, OwnerOf(q, s)) == h && x == Report(SvcKeyOf(q, s), ADDR);
        assert SvcKeyOf(st, s) == x.svc;
      }
      if x in HostReports(st, h) && !NoService(q, x.svc) {
        var s :| s in st.services && HostAt(st, OwnerOf(st, s)) == h && x == Report(SvcKeyOf(st, s), ADDR);
        var u :| u in q.services && SvcKeyOf(q, u) == x.svc;
        assert SvcKeyOf(st, u) == SvcKeyOf(st, s);
      }
    }
  }

  lemma SoundServiceRows(q: State)
    requires Sound(q)
    ensures forall svc :: HasService(Rows(q), svc) <==> !NoService(q, svc)
  {
    Open(q);
    forall svc ensures HasService(Rows(q), svc) <==> !NoService(q, svc) {
      ServiceRows(q, svc);
    }
  }

  lemma SoundNames(st: State)
    requires Sound(st)
    ensures UniqueServices(st) && (forall s | s in st.marks :: s in st.services)
  {
    Open(st);
  }

  /** All of Expires, once the rows and the marks are known. */
  lemma StepExpires(st: State, q: State, x: Row)
    requires Sound(st) && Sound(q) && x in Rows(st) && Rows(q) == Rows(st) - {x}
    requires Shrunk(st, q) && MarkedFor(st, q, RowReports(st, x))
    requires forall y | y in RowReports(st, x) :: !NoService(st, y.svc)
    ensures Expires(st, q, x)
  {
    SoundNames(st);
    SoundNames(q);
    ReportsSurvive(st, q, RowReports(st, x));
    SoundServiceRows(q);
    forall h ensures HostReports(q, h) == Surviving(HostReports(st, h), Rows(q)) {
      HostsSurvive(st, q, h);
    }
  }

  // ------------------------------------------------------------------ a record of a service

  lemma DropRows(st: State, p: State, n: Node)
    requires Sound(st) && n in st.expiry && p == DropRecord(st, n.rec)
    ensures n.rec in st.records && RowOf(st, n) in Rows(st) && Rows(p) == Rows(st) - {RowOf(st, n)}
  {
    Open(st);
    DroppedRow(st, n);
  }

  lemma DropSound(st: State, p: State, r: Rec)
    requires Sound(st) && r in st.records && p == DropRecord(st, r)
    ensures SoundBut(p, if r.Adr? then {r.e} else {}, if r.Adr? then {} else {r.s})
  {
    Open(st);
    DropRecordKeeps(st, r);
    DropTidy(st, p, r);
    CloseBut(p, if r.Adr? then {r.e} else {}, if r.Adr? then {} else {r.s});
  }

  lemma DropTidy(st: State, p: State, r: Rec)
    requires Tidy(st, {}, {}) && p == DropRecord(st, r)
    ensures Tidy(p, if r.Adr? then {r.e} else {}, if r.Adr? then {} else {r.s})
  {
    DropRecordTidy(st, r, {}, {});
  }

  /** Where a record belongs, for its removal. */
  ghost predicate Placement(st: State, s: Ref, e: Ref) {
    s in st.services && s in st.owner && st.owner[s] == e && s in st.marks && e in st.entries && e in st.serviceList
  }

  lemma RecordLeft(p: State, q: State, r: Rec, e: Ref)
    requires !r.Adr? && SoundBut(p, {}, {r.s}) && Placement(p, r.s, e)
    requires q == if !HasRecord(p, r.s) then Removed(p, e, r.s) else if r.Srv? then Mark(p, r.s, SRV)
                  else if r.Txt? then Mark(p, r.s, TXT) else p
    ensures Sound(q) && Rows(q) == Rows(p)
  {
    OpenBut(p, {}, {r.s});
    if !HasRecord(p, r.s) {
      NoFirstRecord(p, e, r.s);
    } else {
      assert Tidy(p, {}, {});
      if r.Srv? || r.Txt? {
        MarkedValid(p, r.s, if r.Srv? then SRV else TXT);
      }
    }
    Close(q);
  }

  lemma RecordRows(st: State, q: State, n: Node)
    requires Sound(st) && n in st.expiry && !n.rec.Adr? && Placement(st, n.rec.s, n.entry)
    requires q == ExpireRecord(st, n.rec, n.entry)
    ensures Sound(q) && RowOf(st, n) in Rows(st) && Rows(q) == Rows(st) - {RowOf(st, n)}
  {
    var p := DropRecord(st, n.rec);
    DropRows(st, p, n);
    DropSound(st, p, n.rec);
    RecordLeft(p, q, n.rec, n.entry);
  }

  lemma ServiceShrinks(p: State, e: Ref, s: Ref)
    requires Domains(p) && Listed(p) && e in p.serviceList && s in p.owner && p.owner[s] == e
    ensures Shrunk(p, Removed(p, e, s))
  {
    var q := Removed(p, e, s);
    forall u | u in q.services
      ensures u in p.services && SvcKeyOf(q, u) == SvcKeyOf(p, u)
      ensures HostAt(q, OwnerOf(q, u)) == HostAt(p, OwnerOf(p, u))
    {
      if !HasContent(DropService(p, e, s), e) {
        LeftElsewhere(p, e, s, u);
      }
      KeepsIdentity(p, q, e, s, u);
    }
  }

  lemma KeepsIdentity(p: State, q: State, e: Ref, s: Ref, u: Ref)
    requires q.services == p.services - {s} && q.owner == p.owner - {s} && u in q.services && u in p.owner
    requires q.entries == p.entries || (q.entries == p.entries - {e} && p.owner[u] != e)
    ensures u in p.services && SvcKeyOf(q, u) == SvcKeyOf(p, u) && HostAt(q, OwnerOf(q, u)) == HostAt(p, OwnerOf(p, u))
  {
  }

  lemma LeftElsewhere(p: State, e: Ref, s: Ref, u: Ref)
    requires Domains(p) && DupFree(p.serviceList) && OwnedListed(p.serviceList, p.owner) && e in p.serviceList
    requires u in p.services && u != s && !HasContent(DropService(p, e, s), e)
    ensures u in p.owner && p.owner[u] != e
  {
    WithoutKeeps(p.serviceList[e], s);
    assert Without(p.serviceList[e], s) == [] && u in p.serviceList[p.owner[u]];
  }

  lemma RecordShrinks(st: State, q: State, r: Rec, e: Ref)
    requires Sound(st) && !r.Adr? && Placement(st, r.s, e) && q == ExpireRecord(st, r, e)
    ensures Shrunk(st, q)
  {
    var p := DropRecord(st, r);
    if !HasRecord(p, r.s) {
      ListedStill(st, p);
      ServiceShrinks(p, e, r.s);
    }
  }

  lemma ListedStill(st: State, p: State)
    requires Sound(st) && p.cache == st.cache && p.entries == st.entries && p.serviceList == st.serviceList
    requires p.owner == st.owner
    requires p.services == st.services && p.marks == st.marks
    requires forall s :: s in p.subtypeList <==> s in st.subtypeList
    requires forall e :: e in p.addrList <==> e in st.addrList
    ensures Domains(p) && Listed(p)
  {
    Open(st);
  }

  lemma MarksDropped(st: State, q: State, s: Ref, reports: set<Report>)
    requires UniqueServices(st) && s in st.services && q.marks == st.marks - {s}
    requires forall u | u in q.services :: u in st.services && u in st.marks && u != s
    requires forall x | x in reports :: x.svc == SvcKeyOf(st, s)
    ensures MarkedFor(st, q, reports)
  {
    assert forall u | u in q.services :: SvcKeyOf(st, u) != SvcKeyOf(st, s);
  }

  lemma MarksAdded(st: State, q: State, s: Ref, k: Kind, reports: set<Report>)
    requires UniqueServices(st) && s in st.services && s in st.marks && q.marks == st.marks[s := st.marks[s] + {k}]
    requires (forall u | u in q.services :: u in st.services && u in st.marks)
    requires reports == {Report(SvcKeyOf(st, s), k)}
    ensures MarkedFor(st, q, reports)
  {
    assert forall u | u in q.services :: SvcKeyOf(st, u) == SvcKeyOf(st, s) ==> u == s;
  }

  lemma RecordMarks(st: State, q: State, r: Rec, e: Ref, x: Row)
    requires UniqueServices(st) && (forall s | s in st.services :: s in st.marks) && Typed(r, DataAt(st, r)) && !r.Adr?
    requires Placement(st, r.s, e) && q == ExpireRecord(st, r, e) && x.key == KeyOf(st, r)
    ensures MarkedFor(st, q, RowReports(st, x))
  {
    var p := DropRecord(st, r);
    if !HasRecord(p, r.s) {
      MarksDropped(st, q, r.s, RowReports(st, x));
    } else if r.Srv? {
      MarksAdded(st, q, r.s, SRV, RowReports(st, x));
    } else if r.Txt? {
      MarksAdded(st, q, r.s, TXT, RowReports(st, x));
    }
  }

  /** What the removal of the head relies on. */
  lemma NodeFacts(st: State, n: Node)
    requires Sound(st) && n in st.expiry
    ensures n.rec in st.records && Typed(n.rec, st.records[n.rec]) && n.entry == Home(st, n.rec)
    ensures !n.rec.Adr? ==> Placement(st, n.rec.s, n.entry)
    ensures n.rec.Adr? ==> n.entry == n.rec.e && n.entry in st.entries && n.entry in st.serviceList
  {
    Open(st);
    InvOwned(st);
  }

  lemma HeadFacts(st: State)
    requires Sound(st)
    ensures Distinct(st.expiry)
    ensures forall s | s in st.services :: s in st.subtypeList
    ensures forall e | e in st.entries :: e in st.serviceList && e in st.addrList
  {
    Open(st);
  }

  lemma HeadAddr(st: State, n: Node)
    requires Sound(st) && n in st.expiry && n.rec.Adr?
    ensures AddrNode(st, n)
  {
    Open(st);
    AddrHome(st, n);
    OwnedAreMarked(st, n.entry);
  }

  lemma AddrHome(st: State, n: Node)
    requires Domains(st) && Placed(st) && Indexed(st) && n in st.expiry && n.rec.Adr?
    ensures n.entry == n.rec.e && n.entry in st.entries && n.entry in st.serviceList
  {
    assert Adr(n.rec.e, n.rec.a) in st.records;
  }

  lemma OwnedAreMarked(st: State, e: Ref)
    requires Domains(st) && ListsOwned(st.serviceList, st.owner) && e in st.serviceList
    ensures forall s | s in st.serviceList[e] :: s in st.marks
  {
  }

  lemma MarksExist(st: State)
    requires Sound(st)
    ensures forall s | s in st.services :: s in st.marks
  {
    Open(st);
  }

  lemma RecordExpires(st: State, q: State, n: Node)
    requires Sound(st) && n in st.expiry && !n.rec.Adr? && Placement(st, n.rec.s, n.entry)
    requires q == ExpireRecord(st, n.rec, n.entry)
    ensures Expires(st, q, RowOf(st, n))
  {
    var x := RowOf(st, n);
    NodeFacts(st, n);
    MarksExist(st);
    SoundNames(st);
    RecordRows(st, q, n);
    RecordShrinks(st, q, n.rec, n.entry);
    RecordMarks(st, q, n.rec, n.entry, x);
    assert SvcKeyOf(st, n.rec.s) == x.key.svc;
    StepExpires(st, q, x);
  }

  // ------------------------------------------------------------------ an address

  lemma {:induction false} MarkAllMarks(st: State, list: seq<Ref>, k: Kind)
    requires forall s | s in list :: s in st.marks
    ensures var q := MarkAll(st, list, k);
            && q.services == st.services && q.owner == st.owner && q.entries == st.entries
            && q.serviceList == st.serviceList && q.addrList == st.addrList
            && (forall s | s in st.marks ::
                  s in q.marks && forall j :: j in q.marks[s] <==> j in st.marks[s] || (j == k && s in list))
    decreases list
  {
    if list != [] {
      MarkAllMarks(Mark(st, list[0], k), list[1..], k);
    }
  }

  lemma MarkBut(st: State, q: State, s: Ref, k: Kind, xe: set<Ref>)
    requires SoundBut(st, xe, {}) && s in st.marks && q == Mark(st, s, k)
    ensures SoundBut(q, xe, {}) && Rows(q) == Rows(st)
  {
    OpenBut(st, xe, {});
    MarkKeeps(st, s, k);
    MarkTidy(st, s, k, xe, {});
    CloseBut(q, xe, {});
  }

  lemma {:induction false} MarkAllBut(st: State, list: seq<Ref>, k: Kind, xe: set<Ref>)
    requires SoundBut(st, xe, {}) && forall s | s in list :: s in st.marks
    ensures var q := MarkAll(st, list, k); SoundBut(q, xe, {}) && Rows(q) == Rows(st)
    decreases list
  {
    if list != [] {
      MarkBut(st, Mark(st, list[0], k), list[0], k, xe);
      MarkAllBut(Mark(st, list[0], k), list[1..], k, xe);
    }
  }

  lemma SweptBut(m: State, e: Ref)
    requires SoundBut(m, {e}, {}) && e in m.entries
    ensures Sound(Swept(m, e)) && Rows(Swept(m, e)) == Rows(m)
  {
    OpenBut(m, {e}, {});
    SweptKeeps(m, e, {});
    Close(Swept(m, e));
  }

  ghost predicate AddrNode(st: State, n: Node) {
    && n in st.expiry && n.rec.Adr? && n.entry == n.rec.e && n.entry in st.entries && n.entry in st.serviceList
    && (forall s | s in st.serviceList[n.entry] :: s in st.marks)
  }

  lemma AddrRows(st: State, q: State, n: Node)
    requires Sound(st) && AddrNode(st, n) && q == ExpireAddr(st, n.entry, n.rec.a)
    ensures Sound(q) && RowOf(st, n) in Rows(st) && Rows(q) == Rows(st) - {RowOf(st, n)}
  {
    var p := DropRecord(st, n.rec);
    DropRows(st, p, n);
    DropSound(st, p, n.rec);
    MarkAllBut(p, st.serviceList[n.entry], ADDR, {n.entry});
    MarkAllMarks(p, st.serviceList[n.entry], ADDR);
    SweptBut(MarkAll(p, st.serviceList[n.entry], ADDR), n.entry);
  }

  lemma SweptShrinks(st: State, m: State, e: Ref)
    requires m.services == st.services && m.owner == st.owner && m.entries == st.entries
    requires m.serviceList == st.serviceList
    requires e in st.serviceList
    requires forall u | u in st.services :: u in st.owner && (st.serviceList[e] == [] ==> st.owner[u] != e)
    ensures Shrunk(st, Swept(m, e))
  {
  }

  lemma NoServiceUnder(st: State, e: Ref)
    requires Sound(st) && e in st.serviceList
    ensures forall u | u in st.services :: u in st.owner && (st.serviceList[e] == [] ==> st.owner[u] != e)
  {
    Open(st);
    forall u | u in st.services ensures u in st.owner && (st.serviceList[e] == [] ==> st.owner[u] != e) {
      assert u in st.serviceList[st.owner[u]];
    }
  }

  lemma UnderHost(st: State, e: Ref)
    requires Sound(st) && e in st.entries && e in st.serviceList
    ensures ReportsAbout(st, st.serviceList[e], ADDR) == HostReports(st, st.entries[e])
  {
    Open(st);
    ListedReports(st, e);
  }

  lemma ListHasServices(st: State, e: Ref)
    requires Sound(st) && e in st.serviceList
    ensures forall s | s in st.serviceList[e] :: s in st.services
  {
    Open(st);
    ListsHaveServices(st, e);
  }

  lemma ListsHaveServices(st: State, e: Ref)
    requires Domains(st) && ListsOwned(st.serviceList, st.owner) && e in st.serviceList
    ensures forall s | s in st.serviceList[e] :: s in st.services
  {
  }

  lemma ReportedIsListed(st: State, list: seq<Ref>, s: Ref)
    requires UniqueServices(st) && (forall u | u in list :: u in st.services) && s in st.services
    ensures s in list <==> Report(SvcKeyOf(st, s), ADDR) in ReportsAbout(st, list, ADDR)
  {
  }

  lemma AddrMarks(st: State, m: State, q: State, e: Ref, list: seq<Ref>, reports: set<Report>)
    requires UniqueServices(st) && (forall u | u in list :: u in st.services) && reports == ReportsAbout(st, list, ADDR)
    requires (forall s | s in st.services :: s in st.marks) && q.services == st.services && q.marks == m.marks
    requires forall s | s in st.marks ::
               s in m.marks && forall j :: j in m.marks[s] <==> j in st.marks[s] || (j == ADDR && s in list)
    ensures MarkedFor(st, q, reports)
  {
    forall s | s in st.services ensures s in list <==> Report(SvcKeyOf(st, s), ADDR) in reports {
      ReportedIsListed(st, list, s);
    }
  }

  lemma AddrShrinks(st: State, q: State, n: Node)
    requires Sound(st) && AddrNode(st, n) && q == ExpireAddr(st, n.entry, n.rec.a)
    ensures Shrunk(st, q)
  {
    var list := st.serviceList[n.entry];
    MarkAllMarks(DropRecord(st, n.rec), list, ADDR);
    NoServiceUnder(st, n.entry);
    SweptShrinks(st, MarkAll(DropRecord(st, n.rec), list, ADDR), n.entry);
  }

  lemma AddrRowReports(st: State, n: Node)
    requires n.rec.Adr? && n.entry in st.entries
    ensures RowReports(st, RowOf(st, n)) == HostReports(st, st.entries[n.entry])
  {
  }

  lemma AddrMarked(st: State, q: State, n: Node)
    requires Sound(st) && AddrNode(st, n) && q == ExpireAddr(st, n.entry, n.rec.a)
    ensures MarkedFor(st, q, RowReports(st, RowOf(st, n)))
  {
    var list := st.serviceList[n.entry];
    var m := MarkAll(DropRecord(st, n.rec), list, ADDR);
    SoundNames(st);
    MarksExist(st);
    UnderHost(st, n.entry);
    ListHasServices(st, n.entry);
    MarkAllMarks(DropRecord(st, n.rec), list, ADDR);
    AddrMarks(st, m, q, n.entry, list, HostReports(st, st.entries[n.entry]));
    AddrRowReports(st, n);
  }

  lemma HostsHaveServices(st: State, n: Node)
    requires n.rec.Adr?
    ensures forall y | y in RowReports(st, RowOf(st, n)) :: !NoService(st, y.svc)
  {
  }

  lemma AddrExpires(st: State, q: State, n: Node)
    requires Sound(st) && AddrNode(st, n) && q == ExpireAddr(st, n.entry, n.rec.a)
    ensures Expires(st, q, RowOf(st, n))
  {
    AddrRows(st, q, n);
    AddrShrinks(st, q, n);
    AddrMarked(st, q, n);
    HostsHaveServices(st, n);
    StepExpires(st, q, RowOf(st, n));
  }

  // ------------------------------------------------------------------ the whole pass

  function ExpiryReports(st: State, rows: set<Row>): (r: set<Report>) {
    set x, y | x in rows && y in RowReports(st, x) :: y
  }

  /** The loss of a PTR record is announced to the browses by name. */
  predicate IsAnnounced(k: Key) {
    k.PtrKey? || k.SubKey?
  }

  ghost predicate AnnouncedOnce(byes: seq<Key>, rows: set<Row>) {
    && (forall k :: k in byes <==> IsAnnounced(k) && HasKey(rows, k))
    && NoRepeat(byes)
  }

  /** From st to q these rows expired. */
  ghost predicate Passed(st: State, q: State, gone: set<Row>, byes: seq<Key>) {
    && Sound(q) && gone <= Rows(st) && Rows(q) == Rows(st) - gone
    && Reports(q) == Surviving(Reports(st) + ExpiryReports(st, gone), Rows(q))
    && (forall h :: HostReports(q, h) == Surviving(HostReports(st, h), Rows(q)))
    && AnnouncedOnce(byes, gone)
  }

  lemma FewerServices(rows: set<Row>, more: set<Row>, svc: SvcKey)
    requires rows <= more && HasService(rows, svc)
    ensures HasService(more, svc)
  {
    var x :| x in rows && !x.key.AdrKey? && x.key.svc == svc;
    assert x in more;
  }

  lemma SurvivingTwice(a: set<Report>, b: set<Report>, c: set<Report>, rows: set<Row>, fewer: set<Row>)
    requires fewer <= rows && (c == b || c == Surviving(b, rows))
    ensures Surviving(Surviving(a, rows) + c, fewer) == Surviving(a + b, fewer)
  {
    forall x ensures x in Surviving(Surviving(a, rows) + c, fewer) <==> x in Surviving(a + b, fewer) {
      if HasService(fewer, x.svc) {
        FewerServices(fewer, rows, x.svc);
      }
    }
  }

  lemma OneMoreReports(st: State, gone: set<Row>, x: Row)
    ensures ExpiryReports(st, gone + {x}) == ExpiryReports(st, gone) + RowReports(st, x)
  {
    forall y ensures y in ExpiryReports(st, gone + {x}) <==> y in ExpiryReports(st, gone) + RowReports(st, x) {
      if y in ExpiryReports(st, gone) {
        var z :| z in gone && y in RowReports(st, z);
        assert z in gone + {x};
      }
      if y in RowReports(st, x) {
        assert x in gone + {x};
      }
    }
  }

  lemma StepReports(st: State, p: State, q: State, gone: set<Row>, byes: seq<Key>, x: Row)
    requires Passed(st, p, gone, byes) && Expires(p, q, x)
    ensures Reports(q) == Surviving(Reports(st) + ExpiryReports(st, gone + {x}), Rows(q))
  {
    var a := Reports(st) + ExpiryReports(st, gone);
    assert RowReports(p, x) == RowReports(st, x) || RowReports(p, x) == Surviving(RowReports(st, x), Rows(p));
    SurvivingTwice(a, RowReports(st, x), RowReports(p, x), Rows(p), Rows(q));
    OneMoreReports(st, gone, x);
    assert Reports(st) + ExpiryReports(st, gone + {x}) == a + RowReports(st, x);
  }

  lemma StepHosts(st: State, p: State, q: State, gone: set<Row>, byes: seq<Key>, x: Row, h: Host)
    requires Passed(st, p, gone, byes) && Expires(p, q, x)
    ensures HostReports(q, h) == Surviving(HostReports(st, h), Rows(q))
  {
    SurvivingTwice(HostReports(st, h), {}, {}, Rows(p), Rows(q));
    assert HostReports(p, h) + {} == HostReports(p, h) && HostReports(st, h) + {} == HostReports(st, h);
  }

  lemma StepAnnounces(rows: set<Row>, gone: set<Row>, byes: seq<Key>, x: Row)
    requires AnnouncedOnce(byes, gone) && !HasKey(gone, x.key)
    ensures AnnouncedOnce(if IsAnnounced(x.key) then byes + [x.key] else byes, gone + {x})
  {
    if IsAnnounced(x.key) {
      NoRepeatSnoc(byes, x.key);
    }
    forall k ensures HasKey(gone + {x}, k) <==> HasKey(gone, k) || k == x.key {
      if HasKey(gone, k) {
        var z :| z in gone && z.key == k;
        assert z in gone + {x};
      }
      assert x in gone + {x};
    }
  }

  lemma OneRowPerKey(st: State, x: Row, y: Row)
    requires Sound(st) && x in Rows(st) && y in Rows(st) && x.key == y.key
    ensures x == y
  {
    Open(st);
    InvOwned(st);
    AllHeld(st);
    var n :| n in st.expiry && x == RowOf(st, n);
    var m :| m in st.expiry && y == RowOf(st, m);
    SameKeySameRec(st, n, m);
    OneNode(st.expiry, n, m);
  }

  lemma PassOne(st: State, p: State, q: State, gone: set<Row>, byes: seq<Key>, x: Row)
    requires Sound(st) && Passed(st, p, gone, byes) && Expires(p, q, x)
    ensures Passed(st, q, gone + {x}, if IsAnnounced(x.key) then byes + [x.key] else byes)
    ensures !HasKey(gone, x.key)
  {
    StepReports(st, p, q, gone, byes, x);
    forall h ensures HostReports(q, h) == Surviving(HostReports(st, h), Rows(q)) {
      StepHosts(st, p, q, gone, byes, x, h);
    }
    if HasKey(gone, x.key) {
      var y :| y in gone && y.key == x.key;
      OneRowPerKey(st, x, y);
    }
    StepAnnounces(Rows(st), gone, byes, x);
    assert Rows(q) == Rows(st) - (gone + {x});
  }

  lemma PassNone(st: State)
    requires Sound(st)
    ensures Passed(st, st, {}, [])
  {
    SoundNames(st);
    SoundServiceRows(st);
    forall h ensures HostReports(st, h) == Surviving(HostReports(st, h), Rows(st)) {
    }
    assert Reports(st) + ExpiryReports(st, {}) == Reports(st);
  }

  /** Nothing expires before the head. */
  lemma LastsLonger(st: State, now: int)
    requires Sound(st) && (st.expiry == [] || st.expiry[0].expires > now)
    ensures forall x | x in Rows(st) :: x.deadline > now
  {
    assert Sorted(st.expiry) by {
      Open(st);
    }
    forall x | x in Rows(st) ensures x.deadline > now {
      var n :| n in st.expiry && x == RowOf(st, n);
      LaterThanHead(st.expiry, n);
    }
  }

  lemma LaterThanHead(ns: seq<Node>, n: Node)
    requires Sorted(ns) && n in ns
    ensures ns[0].expires <= n.expires
  {
    var i :| 0 <= i < |ns| && ns[i] == n;
    if i > 0 {
      SortedPair(ns, 0, i);
    }
  }

  function ExpiredRows(rows: set<Row>, now: int): (r: set<Row>) {
    set x | x in rows && x.deadline <= now
  }

  lemma PassedAll(st: State, q: State, gone: set<Row>, byes: seq<Key>, now: int)
    requires Passed(st, q, gone, byes) && (forall x | x in gone :: x.deadline <= now)
    requires q.expiry == [] || q.expiry[0].expires > now
    ensures gone == ExpiredRows(Rows(st), now) && Rows(q) == Unexpired(Rows(st), now)
  {
    LastsLonger(q, now);
  }
}
