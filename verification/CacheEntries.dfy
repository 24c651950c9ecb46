/** Host entries and services of the cache: coming, going and moving. */
module CacheEntries {
  import opened Common
  import opened CacheIndex
  import opened CacheModel
  import opened CacheSteps

  // ------------------------------------------------------------------ new entry

  lemma NewEntryDomains(st: State, h: Host)
    requires Domains(st)
    ensures Domains(NewEntry(st, h))
  {
    var q := NewEntry(st, h);
    assert forall e :: e in q.cache <==> e == st.next || e in st.cache;
  }

  lemma NewEntryListed(st: State, h: Host)
    requires Domains(st) && Listed(st) && Fresh(st)
    ensures Listed(NewEntry(st, h))
  {
    assert st.next !in st.entries;
    NoRepeatPush(st.cache, st.next);
    ListsAdd(st.serviceList, st.owner, st.next);
  }

  lemma NewEntryPlaced(st: State, h: Host)
    requires Domains(st) && Placed(st) && Fresh(st)
    ensures Placed(NewEntry(st, h)) && Fresh(NewEntry(st, h))
  {
  }

  lemma NewEntryNamed(st: State, h: Host)
    requires Owned(st) && Named(st) && Fresh(st) && forall e | e in st.entries :: st.entries[e] != h
    ensures Named(NewEntry(st, h))
  {
    NewEntryHosts(st, h);
    NewEntrySvcKeys(st, h);
    NamesCarryOver(st, NewEntry(st, h));
  }

  lemma NewEntrySvcKeys(st: State, h: Host)
    requires Owned(st) && Fresh(st)
    ensures SameServiceKeys(st, NewEntry(st, h))
  {
  }

  lemma NewEntryHosts(st: State, h: Host)
    requires UniqueHosts(st) && Fresh(st) && forall e | e in st.entries :: st.entries[e] != h
    ensures UniqueHosts(NewEntry(st, h))
  {
  }

  lemma NewEntryIndexed(st: State, h: Host)
    requires Indexed(st)
    ensures Indexed(NewEntry(st, h))
  {
    assert forall r :: Home(NewEntry(st, h), r) == Home(st, r);
  }

  lemma NewEntrySynced(st: State, h: Host)
    requires Synced(st)
    ensures Synced(NewEntry(st, h))
  {
    assert forall s, t :: IsPending(NewEntry(st, h), s, t) == IsPending(st, s, t);
  }

  lemma NewEntryRows(st: State, h: Host)
    requires Owned(st) && Indexed(st) && Fresh(st)
    ensures Rows(NewEntry(st, h)) == Rows(st)
  {
    SameRows(st, NewEntry(st, h));
  }

  lemma NewEntryKeeps(st: State, h: Host)
    requires Inv(st) && forall e | e in st.entries :: st.entries[e] != h
    ensures Inv(NewEntry(st, h)) && Rows(NewEntry(st, h)) == Rows(st)
  {
    InvOwned(st);
    NewEntryDomains(st, h);
    NewEntryListed(st, h);
    NewEntryPlaced(st, h);
    NewEntryNamed(st, h);
    NewEntryIndexed(st, h);
    NewEntrySynced(st, h);
    NewEntryRows(st, h);
  }

  lemma NewEntryTidy(st: State, h: Host, xe: set<Ref>, xs: set<Ref>)
    requires Tidy(st, xe, xs) && Fresh(st)
    ensures Tidy(NewEntry(st, h), xe + {st.next}, xs)
  {
    var q := NewEntry(st, h);
    assert forall e | e in st.entries :: HasContent(q, e) == HasContent(st, e);
    assert forall s :: HasRecord(q, s) == HasRecord(st, s);
  }

  // ------------------------------------------------------------------ dropping an entry

  /** Nothing belongs to the entry. */
  ghost predicate Unused(st: State, e: Ref) {
    && (forall s | s in st.services :: s in st.owner && st.owner[s] != e)
    && (forall r | r in st.records :: Home(st, r) != e)
  }

  lemma EmptyIsUnused(st: State, e: Ref)
    requires Domains(st) && Listed(st) && Placed(st) && e in st.entries && !HasContent(st, e)
    ensures Unused(st, e)
  {
    forall s | s in st.services ensures s in st.owner && st.owner[s] != e {
      assert s in st.serviceList[st.owner[s]];
    }
    forall r | r in st.records ensures Home(st, r) != e {
      if r.Adr? {
        assert Adr(r.e, r.a) in st.records;
      }
    }
  }

  lemma DropEntryDomains(st: State, e: Ref)
    requires Domains(st) && NoRepeat(st.cache)
    ensures Domains(DropEntry(st, e))
  {
    WithoutKeeps(st.cache, e);
  }

  lemma DropEntryListed(st: State, e: Ref)
    requires Domains(st) && Listed(st) && Unused(st, e)
    ensures Listed(DropEntry(st, e))
  {
    WithoutKeeps(st.cache, e);
    ListsRemove(st.serviceList, st.owner, e);
  }

  lemma DropEntryPlaced(st: State, e: Ref)
    requires Placed(st) && Fresh(st) && Unused(st, e)
    ensures Placed(DropEntry(st, e)) && Fresh(DropEntry(st, e))
  {
    var q := DropEntry(st, e);
    forall f, a | Adr(f, a) in q.records ensures f in q.addrList && a in q.addrList[f] {
      assert Home(st, Adr(f, a)) != e;
    }
  }

  lemma DropEntryNamed(st: State, e: Ref)
    requires Named(st) && Unused(st, e)
    ensures Named(DropEntry(st, e))
  {
    var q := DropEntry(st, e);
    assert SameServiceKeys(st, q);
    NamesCarryOver(st, q);
  }

  lemma DropEntryIndexed(st: State, e: Ref)
    requires Indexed(st)
    ensures Indexed(DropEntry(st, e))
  {
    assert forall r :: Home(DropEntry(st, e), r) == Home(st, r);
  }

  lemma DropEntrySynced(st: State, e: Ref)
    requires Synced(st)
    ensures Synced(DropEntry(st, e))
  {
    assert forall s, t :: IsPending(DropEntry(st, e), s, t) == IsPending(st, s, t);
  }

  lemma DropEntryRows(st: State, e: Ref)
    requires Indexed(st) && Unused(st, e)
    ensures Rows(DropEntry(st, e)) == Rows(st)
  {
    SameRows(st, DropEntry(st, e));
  }

  /** An entry without services and addresses can go unnoticed. */
  lemma DropEntryKeeps(st: State, e: Ref)
    requires Inv(st) && e in st.entries && !HasContent(st, e)
    ensures Inv(DropEntry(st, e)) && Rows(DropEntry(st, e)) == Rows(st)
  {
    EmptyIsUnused(st, e);
    DropEntryDomains(st, e);
    DropEntryListed(st, e);
    DropEntryPlaced(st, e);
    DropEntryNamed(st, e);
    DropEntryIndexed(st, e);
    DropEntrySynced(st, e);
    DropEntryRows(st, e);
  }

  lemma DropEntryTidy(st: State, e: Ref, xe: set<Ref>, xs: set<Ref>)
    requires Tidy(st, xe, xs)
    ensures Tidy(DropEntry(st, e), xe - {e}, xs)
  {
    var q := DropEntry(st, e);
    assert forall f | f in q.entries :: HasContent(q, f) == HasContent(st, f);
    assert forall s :: HasRecord(q, s) == HasRecord(st, s);
  }

  // ------------------------------------------------------------------ new service

  lemma NewServiceDomains(st: State, e: Ref, n: Names)
    requires Domains(st) && e in st.serviceList
    ensures Domains(NewService(st, e, n))
  {
  }

  lemma NewServiceListed(st: State, e: Ref, n: Names)
    requires Domains(st) && Listed(st) && Fresh(st) && e in st.serviceList
    ensures Listed(NewService(st, e, n))
  {
    assert st.next !in st.services;
    ListsPush(st.serviceList, st.owner, e, st.next);
  }

  lemma NewServicePlaced(st: State, e: Ref, n: Names)
    requires Domains(st) && Placed(st) && Fresh(st) && e in st.serviceList
    ensures Placed(NewService(st, e, n)) && Fresh(NewService(st, e, n))
  {
    var q := NewService(st, e, n);
    assert st.next !in st.services;
    forall s | s in q.subtypeList
      ensures NoRepeat(q.subtypeList[s]) && forall t <- q.subtypeList[s] :: Sub(s, t) in q.records
    {
    }
  }

  lemma NewServiceNamed(st: State, e: Ref, n: Names)
    requires Owned(st) && Named(st) && Fresh(st) && e in st.entries && e in st.serviceList && NonEmptyNames(n)
    requires forall s | s in st.services :: SvcKeyOf(st, s) != ServiceKey(st.entries[e], n)
    ensures Named(NewService(st, e, n))
  {
    var q := NewService(st, e, n);
    assert forall s | s in st.services :: SvcKeyOf(q, s) == SvcKeyOf(st, s);
    assert SvcKeyOf(q, st.next) == ServiceKey(st.entries[e], n);
    assert UniqueServices(q);
    assert SameRecordNames(st, q);
    assert UniqueSubtypes(q) && UniqueAddrs(q);
  }

  lemma NewServiceIndexed(st: State, e: Ref, n: Names)
    requires Placed(st) && Indexed(st) && Fresh(st) && e in st.serviceList
    ensures Indexed(NewService(st, e, n))
  {
    assert forall r | r in st.records :: Home(NewService(st, e, n), r) == Home(st, r);
  }

  lemma NewServiceSynced(st: State, e: Ref, n: Names)
    requires Placed(st) && Synced(st) && Fresh(st) && e in st.serviceList
    ensures Synced(NewService(st, e, n))
  {
    var q := NewService(st, e, n);
    assert forall s, t :: IsPending(q, s, t) == IsPending(st, s, t);
    forall s, t | Sub(s, t) in q.records && s in q.marks && IsPending(q, s, t) ensures SUBTYPE in q.marks[s] {
      assert s in st.services;
    }
  }

  lemma NewServiceRows(st: State, e: Ref, n: Names)
    requires Placed(st) && Indexed(st) && Fresh(st) && e in st.serviceList
    ensures Rows(NewService(st, e, n)) == Rows(st)
  {
    SameRows(st, NewService(st, e, n));
  }

  /** A new service has no records, so nothing changes for the outside. */
  lemma NewServiceKeeps(st: State, e: Ref, n: Names)
    requires Inv(st) && e in st.entries && e in st.serviceList && NonEmptyNames(n)
    requires forall s | s in st.services :: SvcKeyOf(st, s) != ServiceKey(st.entries[e], n)
    ensures Inv(NewService(st, e, n)) && Rows(NewService(st, e, n)) == Rows(st)
  {
    InvOwned(st);
    NewServiceDomains(st, e, n);
    NewServiceListed(st, e, n);
    NewServicePlaced(st, e, n);
    NewServiceNamed(st, e, n);
    NewServiceIndexed(st, e, n);
    NewServiceSynced(st, e, n);
    NewServiceRows(st, e, n);
  }

  lemma NewServiceTidy(st: State, e: Ref, n: Names, xe: set<Ref>, xs: set<Ref>)
    requires Tidy(st, xe, xs) && Fresh(st) && e in st.serviceList
    ensures Tidy(NewService(st, e, n), xe - {e}, xs + {st.next})
  {
    var q := NewService(st, e, n);
    assert forall f :: HasContent(st, f) ==> HasContent(q, f);
    assert forall s | s in st.services :: HasRecord(q, s) == HasRecord(st, s);
  }

  // ------------------------------------------------------------------ dropping a service

  lemma EmptyServiceHasNoRecord(st: State, s: Ref)
    requires Placed(st) && s in st.subtypeList && !HasRecord(st, s)
    ensures forall r | r in st.records && !r.Adr? :: r.s != s
  {
    forall r | r in st.records && !r.Adr? ensures r.s != s {
      if r.Sub? {
        assert Sub(r.s, r.t) in st.records;
      }
    }
  }

  lemma DropServiceDomains(st: State, e: Ref, s: Ref)
    requires Domains(st) && e in st.serviceList
    ensures Domains(DropService(st, e, s))
  {
  }

  lemma DropServiceListed(st: State, e: Ref, s: Ref)
    requires Listed(st) && e in st.serviceList && s in st.owner && st.owner[s] == e
    ensures Listed(DropService(st, e, s))
  {
    ListsTake(st.serviceList, st.owner, e, s);
  }

  lemma DropServicePlaced(st: State, e: Ref, s: Ref)
    requires Placed(st) && Fresh(st) && e in st.serviceList && forall r | r in st.records && !r.Adr? :: r.s != s
    ensures Placed(DropService(st, e, s)) && Fresh(DropService(st, e, s))
  {
    var q := DropService(st, e, s);
    forall u, t | Sub(u, t) in q.records ensures u in q.subtypeList && t in q.subtypeList[u] {
      assert Sub(u, t).s != s;
    }
  }

  lemma DropServiceNamed(st: State, e: Ref, s: Ref)
    requires Named(st) && e in st.serviceList
    ensures Named(DropService(st, e, s))
  {
    var q := DropService(st, e, s);
    assert SameServiceKeys(st, q);
    NamesCarryOver(st, q);
  }

  lemma DropServiceIndexed(st: State, e: Ref, s: Ref)
    requires Indexed(st) && e in st.serviceList && forall r | r in st.records && !r.Adr? :: r.s != s
    ensures Indexed(DropService(st, e, s))
  {
    assert forall r | r in st.records :: Home(DropService(st, e, s), r) == Home(st, r);
  }

  lemma DropServiceSynced(st: State, e: Ref, s: Ref)
    requires Synced(st) && e in st.serviceList
    ensures Synced(DropService(st, e, s))
  {
    var q := DropService(st, e, s);
    forall u, t | Sub(u, t) in q.records && u in q.marks && IsPending(q, u, t) ensures SUBTYPE in q.marks[u] {
      assert IsPending(st, u, t);
    }
  }

  lemma DropServiceRows(st: State, e: Ref, s: Ref)
    requires Indexed(st) && e in st.serviceList && forall r | r in st.records && !r.Adr? :: r.s != s
    ensures Rows(DropService(st, e, s)) == Rows(st)
  {
    SameRows(st, DropService(st, e, s));
  }

  /** A service without records can go unnoticed. */
  lemma DropServiceKeeps(st: State, e: Ref, s: Ref)
    requires Inv(st) && e in st.serviceList && s in st.services && s in st.owner && st.owner[s] == e
    requires !HasRecord(st, s)
    ensures Inv(DropService(st, e, s)) && Rows(DropService(st, e, s)) == Rows(st)
  {
    EmptyServiceHasNoRecord(st, s);
    DropServiceDomains(st, e, s);
    DropServiceListed(st, e, s);
    DropServicePlaced(st, e, s);
    DropServiceNamed(st, e, s);
    DropServiceIndexed(st, e, s);
    DropServiceSynced(st, e, s);
    DropServiceRows(st, e, s);
  }

  lemma DropServiceTidy(st: State, e: Ref, s: Ref, xe: set<Ref>, xs: set<Ref>)
    requires Tidy(st, xe, xs) && e in st.serviceList
    ensures Tidy(DropService(st, e, s), xe + {e}, xs - {s})
  {
    var q := DropService(st, e, s);
    assert forall f | f != e :: HasContent(q, f) == HasContent(st, f);
    assert forall u | u in q.services :: HasRecord(q, u) == HasRecord(st, u);
  }

  // ------------------------------------------------------------------ moving a service

  function Retargeted(x: Row, svc: SvcKey, name: string): (r: Row) {
    if x.key == SrvKey(svc) then x.(target := name) else x
  }


  /** Only the target of the SRV record of a service changes. */
  function Retarget(rows: set<Row>, svc: SvcKey, name: string): (r: set<Row>) {
    set x | x in rows :: Retargeted(x, svc, name)
  }

  lemma UpsertRetarget(rows: set<Row>, svc: SvcKey, name: string, row: Row)
    requires row.key == SrvKey(svc)
    ensures Upsert(Retarget(rows, svc, name), row) == Upsert(rows, row)
  {
    var a, b := Upsert(Retarget(rows, svc, name), row), Upsert(rows, row);
    forall x ensures x in a <==> x in b {
      if x in rows && x.key != row.key {
        assert x in Retarget(rows, svc, name);
      }
    }
  }

  lemma RetargetNothing(rows: set<Row>, svc: SvcKey, name: string)
    requires forall x <- rows :: x.key != SrvKey(svc)
    ensures Retarget(rows, svc, name) == rows
  {
    forall x ensures x in Retarget(rows, svc, name) <==> x in rows {
    }
  }

  lemma {:induction false} RelabelOrder(ns: seq<Node>, s: Ref, e: Ref)
    ensures Sorted(ns) ==> Sorted(Relabel(ns, s, e))
    ensures Distinct(ns) ==> Distinct(Relabel(ns, s, e))
  {
    if ns != [] {
      RelabelOrder(ns[1..], s, e);
      RelabelAt(ns[1..], s, e);
      assert Relabel(ns, s, e)[1..] == Relabel(ns[1..], s, e);
    }
  }

  lemma MovedLists(st: State, e: Ref, f: Ref, s: Ref)
    requires Listed(st) && e in st.serviceList && f in st.serviceList && s in st.owner && st.owner[s] == e
    ensures Listed(MoveService(st, e, f, s))
  {
    var lists, owner := st.serviceList[e := Without(st.serviceList[e], s)], st.owner - {s};
    ListsTake(st.serviceList, st.owner, e, s);
    ListsPush(lists, owner, f, s);
    assert owner[s := f] == st.owner[s := f];
  }

  lemma MoveDomains(st: State, e: Ref, f: Ref, s: Ref)
    requires Domains(st) && e in st.serviceList && f in st.serviceList && s in st.owner
    ensures Domains(MoveService(st, e, f, s))
  {
  }

  lemma MovePlaced(st: State, e: Ref, f: Ref, s: Ref)
    requires Placed(st) && Fresh(st) && Synced(st) && e in st.serviceList && f in st.serviceList
    ensures Placed(MoveService(st, e, f, s)) && Fresh(MoveService(st, e, f, s)) && Synced(MoveService(st, e, f, s))
  {
    var q := MoveService(st, e, f, s);
    PlacedCarriesOver(st, q);
    SyncedCarriesOver(st, q);
  }

  lemma MoveNamed(st: State, e: Ref, f: Ref, s: Ref)
    requires Named(st) && e in st.serviceList && f in st.serviceList && s in st.owner && st.owner[s] == e
    requires e in st.entries && f in st.entries
    requires st.entries[e].netif == st.entries[f].netif && st.entries[e].ip == st.entries[f].ip
    ensures Named(MoveService(st, e, f, s))
  {
    var q := MoveService(st, e, f, s);
    assert SameServiceKeys(st, q);
    NamesCarryOver(st, q);
  }

  lemma RelabelNodes(st: State, q: State, s: Ref, f: Ref)
    requires q.expiry == Relabel(st.expiry, s, f) && q.records == st.records && q.owner == st.owner[s := f]
    requires forall n <- st.expiry :: n.rec in st.records && n.entry == Home(st, n.rec) && n.queued
    ensures forall m <- q.expiry :: m.rec in q.records && m.entry == Home(q, m.rec) && m.queued
  {
    RelabelAt(st.expiry, s, f);
    forall m | m in q.expiry ensures m.rec in q.records && m.entry == Home(q, m.rec) && m.queued {
      var i :| 0 <= i < |q.expiry| && q.expiry[i] == m;
      assert st.expiry[i] in st.expiry;
    }
  }

  lemma RelabelRecords(ns: seq<Node>, records: map<Rec, Data>, s: Ref, f: Ref)
    requires forall r | r in records :: exists n :: n in ns && n.rec == r
    ensures forall r | r in records :: exists m :: m in Relabel(ns, s, f) && m.rec == r
  {
    RelabelAt(ns, s, f);
    forall r | r in records ensures exists m :: m in Relabel(ns, s, f) && m.rec == r {
      var n :| n in ns && n.rec == r;
      var i :| 0 <= i < |ns| && ns[i] == n;
      assert Relabel(ns, s, f)[i] in Relabel(ns, s, f);
    }
  }

  lemma RelabelIndexed(st: State, q: State, s: Ref, f: Ref)
    requires Indexed(st) && q.records == st.records && q.owner == st.owner[s := f]
    requires q.expiry == Relabel(st.expiry, s, f)
    ensures Indexed(q)
  {
    RelabelOrder(st.expiry, s, f);
    RelabelNodes(st, q, s, f);
    RelabelRecords(st.expiry, st.records, s, f);
  }

  lemma MoveIndexed(st: State, e: Ref, f: Ref, s: Ref)
    requires Indexed(st) && e in st.serviceList && f in st.serviceList
    ensures Indexed(MoveService(st, e, f, s))
  {
    RelabelIndexed(st, MoveService(st, e, f, s), s, f);
  }

  lemma MoveRow(st: State, e: Ref, f: Ref, s: Ref, n: Node)
    requires e in st.serviceList && f in st.serviceList && e in st.entries && f in st.entries
    requires s in st.services && s in st.owner && st.owner[s] == e && n.entry == Home(st, n.rec)
    requires st.entries[e].netif == st.entries[f].netif && st.entries[e].ip == st.entries[f].ip
    ensures RowOf(MoveService(st, e, f, s), Relabeled(n, s, f)) ==
            if n.rec == Srv(s) then RowOf(st, n).(target := st.entries[f].name) else RowOf(st, n)
  {
  }

  lemma MovedRow(st: State, e: Ref, f: Ref, s: Ref, n: Node)
    requires Owned(st) && Placed(st) && Named(st) && Indexed(st) && e in st.serviceList && f in st.serviceList
    requires e in st.entries && f in st.entries && s in st.services && s in st.owner && st.owner[s] == e
    requires st.entries[e].netif == st.entries[f].netif && st.entries[e].ip == st.entries[f].ip && n in st.expiry
    ensures RowOf(MoveService(st, e, f, s), Relabeled(n, s, f)) ==
            Retargeted(RowOf(st, n), SvcKeyOf(st, s), st.entries[f].name)
  {
    MoveRow(st, e, f, s, n);
    SrvKeyIsSrv(st, s, n);
  }

  lemma MoveRows(st: State, e: Ref, f: Ref, s: Ref)
    requires Owned(st) && Placed(st) && Named(st) && Indexed(st) && e in st.serviceList && f in st.serviceList
    requires e in st.entries && f in st.entries && s in st.services && s in st.owner && st.owner[s] == e
    requires st.entries[e].netif == st.entries[f].netif && st.entries[e].ip == st.entries[f].ip
    ensures Rows(MoveService(st, e, f, s)) == Retarget(Rows(st), SvcKeyOf(st, s), st.entries[f].name)
  {
    var q, svc, name := MoveService(st, e, f, s), SvcKeyOf(st, s), st.entries[f].name;
    RelabelAt(st.expiry, s, f);
    forall i | 0 <= i < |st.expiry| ensures RowSeq(q)[i] == Retargeted(RowSeq(st)[i], svc, name) {
      assert st.expiry[i] in st.expiry;
      MovedRow(st, e, f, s, st.expiry[i]);
    }
    MapRows(st, q, (x: Row) => Retargeted(x, svc, name));
  }

  lemma SrvKeyIsSrv(st: State, s: Ref, n: Node)
    requires Named(st) && s in st.services && n.rec in st.records && n.entry == Home(st, n.rec)
    requires !n.rec.Adr? ==> n.rec.s in st.services
    ensures RowOf(st, n).key == SrvKey(SvcKeyOf(st, s)) <==> n.rec == Srv(s)
  {
    if n.rec.Srv? {
      assert SvcKeyOf(st, n.rec.s) == RowOf(st, n).key.svc;
    }
  }

  /** A service that moves takes all its nodes along; only its SRV record looks different. */
  lemma MoveKeeps(st: State, e: Ref, f: Ref, s: Ref)
    requires Inv(st) && e in st.serviceList && f in st.serviceList
    requires e in st.entries && f in st.entries && s in st.services && s in st.owner && st.owner[s] == e
    requires st.entries[e].netif == st.entries[f].netif && st.entries[e].ip == st.entries[f].ip
    ensures Inv(MoveService(st, e, f, s))
    ensures Rows(MoveService(st, e, f, s)) == Retarget(Rows(st), SvcKeyOf(st, s), st.entries[f].name)
  {
    InvOwned(st);
    MoveDomains(st, e, f, s);
    MovedLists(st, e, f, s);
    MovePlaced(st, e, f, s);
    MoveNamed(st, e, f, s);
    MoveIndexed(st, e, f, s);
    MoveRows(st, e, f, s);
  }

  lemma MoveTidy(st: State, e: Ref, f: Ref, s: Ref, xe: set<Ref>, xs: set<Ref>)
    requires Tidy(st, xe, xs) && e in st.serviceList && f in st.serviceList
    ensures Tidy(MoveService(st, e, f, s), xe + {e} - {f}, xs)
  {
    var q := MoveService(st, e, f, s);
    assert HasContent(q, f);
    assert forall g | g != e && g != f :: HasContent(q, g) == HasContent(st, g);
    assert forall u :: HasRecord(q, u) == HasRecord(st, u);
  }
}
