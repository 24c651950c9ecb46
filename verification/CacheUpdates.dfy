/** The update operations of the cache as compositions of its steps. */
module CacheUpdates {
  import opened CacheIndex
  import opened CacheModel
  import opened CacheSteps
  import opened CacheEntries
  import opened CacheRecords
  import opened CacheViews

  // ------------------------------------------------------------------ a record of a known service

  function MarkIf(st: State, changed: bool, s: Ref, k: Kind): (q: State)
    requires s in st.marks
  {
    if changed then Mark(st, s, k) else st
  }

  lemma MarkIfValid(st: State, changed: bool, s: Ref, k: Kind)
    requires Valid(st) && s in st.marks
    ensures Valid(MarkIf(st, changed, s, k)) && Rows(MarkIf(st, changed, s, k)) == Rows(st)
  {
    if changed {
      MarkedValid(st, s, k);
    }
  }

  lemma KnownSingle(st: State, s: Ref, d: Data, deadline: int, changed: bool)
    requires Valid(st) && IsSingle(d) && s in st.services && s in st.marks
    ensures var q := MarkIf(SetRecord(st, RecFor(s, d), d, deadline), changed, s, KindFor(d));
            Valid(q) && Rows(q) == Upsert(Rows(st), SingleRow(st, s, d, deadline))
  {
    StoreSingle(st, s, d, deadline);
    SingleStorable(st, s, d);
    SetRecordTidy(st, RecFor(s, d), d, deadline, {}, {});
    assert {} - {s} == {};
    MarkIfValid(SetRecord(st, RecFor(s, d), d, deadline), changed, s, KindFor(d));
  }

  // ------------------------------------------------------------------ an SRV record that moves the service

  lemma NoSrvRow(st: State, s: Ref)
    requires Owned(st) && Placed(st) && Named(st) && Indexed(st) && s in st.services && Srv(s) !in st.records
    ensures forall x <- Rows(st) :: x.key != SrvKey(SvcKeyOf(st, s))
  {
    forall x | x in Rows(st) ensures x.key != SrvKey(SvcKeyOf(st, s)) {
      var n :| n in st.expiry && x == RowOf(st, n);
      SrvKeyIsSrv(st, s, n);
    }
  }

  /** The preconditions of a move. */
  ghost predicate Movable(st: State, e: Ref, f: Ref, s: Ref) {
    && e in st.serviceList && f in st.serviceList && e in st.entries && f in st.entries
    && s in st.services && s in st.owner && st.owner[s] == e
    && st.entries[e].netif == st.entries[f].netif && st.entries[e].ip == st.entries[f].ip
  }

  lemma MoveFacts(st: State, e: Ref, f: Ref, s: Ref)
    requires Movable(st, e, f, s)
    ensures var q := MoveService(st, e, f, s);
            && Movable(q, f, e, s) && SvcKeyOf(q, s) == SvcKeyOf(st, s) && HostAt(q, OwnerOf(q, s)) == st.entries[f]
            && q.records == st.records && q.services == st.services && q.marks == st.marks && q.entries == st.entries
  {
  }

  lemma WithEntryMovable(st: State, h: Host, e: Ref, f: Ref, s: Ref)
    requires Inv(st) && EntryFor(st, h, f) && s in st.services && s in st.owner && st.owner[s] == e && e in st.entries
    requires st.entries[e].netif == h.netif && st.entries[e].ip == h.ip
    ensures Movable(WithEntry(st, h, f), e, f, s) && SvcKeyOf(WithEntry(st, h, f), s) == SvcKeyOf(st, s)
  {
    InvOwned(st);
    WithEntryKeys(st, h, f);
  }

  /** Moving keeps everything but the target of the SRV record; the old entry may be left empty. */
  lemma MovedTidy(st: State, e: Ref, f: Ref, s: Ref)
    requires Tidy(st, {f}, {}) && e in st.serviceList && f in st.serviceList && e != f
    ensures Tidy(MoveService(st, e, f, s), {e}, {})
  {
    MoveTidy(st, e, f, s, {f}, {});
    assert {f} + {e} - {f} == {e};
  }

  lemma MovedKeeps(st: State, e: Ref, f: Ref, s: Ref)
    requires Inv(st) && Tidy(st, {f}, {}) && Movable(st, e, f, s) && e != f
    ensures var q := MoveService(st, e, f, s);
            Inv(q) && Tidy(q, {e}, {}) && Rows(q) == Retarget(Rows(st), SvcKeyOf(st, s), st.entries[f].name)
  {
    MoveKeeps(st, e, f, s);
    MovedTidy(st, e, f, s);
  }

  /** The SRV record arrives at the new place and the old entry goes if it is empty. */
  lemma SrvTidy(st: State, e: Ref, s: Ref, d: Data, deadline: int)
    requires Tidy(st, {e}, {}) && Placed(st) && d.SrvData? && s in st.services
    ensures Tidy(SetRecord(st, Srv(s), d, deadline), {e}, {})
  {
    SingleStorable(st, s, d);
    SetRecordTidy(st, Srv(s), d, deadline, {e}, {});
    assert {} - {s} == {};
  }

  lemma SrvAfterMove(st: State, e: Ref, s: Ref, d: Data, deadline: int)
    requires Inv(st) && Tidy(st, {e}, {}) && e in st.entries && d.SrvData? && s in st.services
    ensures var q := Swept(SetRecord(st, Srv(s), d, deadline), e);
            Valid(q) && Rows(q) == Upsert(Rows(st), SingleRow(st, s, d, deadline))
  {
    SrvTidy(st, e, s, d, deadline);
    StoreSingle(st, s, d, deadline);
    SweptKeeps(SetRecord(st, Srv(s), d, deadline), e, {});
  }

  /** No memory for the node: the service goes back and a new entry disappears again. */
  lemma MovedBack(st: State, e: Ref, f: Ref, s: Ref)
    requires Inv(st) && Tidy(st, {e}, {}) && Movable(st, f, e, s) && e != f && Srv(s) !in st.records
    ensures var q := Swept(MoveService(st, f, e, s), f);
            Valid(q) && Rows(q) == Rows(st)
  {
    MovedKeeps(st, f, e, s);
    InvOwned(st);
    NoSrvRow(st, s);
    RetargetNothing(Rows(st), SvcKeyOf(st, s), st.entries[e].name);
    SweptKeeps(MoveService(st, f, e, s), f, {});
  }

  /** Relinking a service under its own entry changes nothing for the outside. */
  lemma RelinkedKeeps(st: State, e: Ref, s: Ref)
    requires Valid(st) && Movable(st, e, e, s) && Srv(s) !in st.records
    ensures var q := Swept(MoveService(st, e, e, s), e);
            Valid(q) && Rows(q) == Rows(st)
  {
    MoveKeeps(st, e, e, s);
    MoveTidy(st, e, e, s, {}, {});
    assert {} + {e} - {e} == {};
    InvOwned(st);
    NoSrvRow(st, s);
    RetargetNothing(Rows(st), SvcKeyOf(st, s), st.entries[e].name);
    assert HasContent(MoveService(st, e, e, s), e);
  }

  // ------------------------------------------------------------------ subtype PTR records

  lemma SubtypeRow(st: State, s: Ref, t: Ref, d: Data, deadline: int)
    requires d.SubData?
    ensures var r := Sub(s, t);
            RowOf(SetRecord(st, r, d, deadline), Node(r, Home(st, r), true, deadline)) ==
            Row(SubKey(SvcKeyOf(st, s), d.name), d, "", deadline)
  {
  }

  lemma SubtypeStored(st: State, s: Ref, t: Ref, d: Data, deadline: int)
    requires Valid(st) && s in st.marks && Sub(s, t) in st.records && d.SubData? && Storable(st, Sub(s, t), d)
    ensures var q := SetRecord(st, Sub(s, t), d, deadline);
            Valid(q) && Rows(q) == Upsert(Rows(st), Row(SubKey(SvcKeyOf(st, s), d.name), d, "", deadline))
  {
    SubtypeRow(st, s, t, d, deadline);
    SetRecordKeeps(st, Sub(s, t), d, deadline);
    SubtypeTidy(st, s, t, d, deadline);
  }

  lemma SubtypeTidy(st: State, s: Ref, t: Ref, d: Data, deadline: int)
    requires Tidy(st, {}, {}) && Placed(st) && Storable(st, Sub(s, t), d)
    ensures Tidy(SetRecord(st, Sub(s, t), d, deadline), {}, {})
  {
    SetRecordTidy(st, Sub(s, t), d, deadline, {}, {});
    assert {} - {s} == {};
  }

  /** The contents of a subtype that was received again. */
  function AgainSubtype(d: Data, ttl: nat): (r: Data)
    requires d.SubData?
  {
    SubData(d.name, ttl, d.pending || d.ttl != ttl)
  }

  lemma MarkedSubtype(st: State, s: Ref, t: Ref, ttl: nat, deadline: int)
    requires s in st.marks && Sub(s, t) in st.records && st.records[Sub(s, t)].SubData?
    ensures var d := st.records[Sub(s, t)];
            MarkIf(SetRecord(st, Sub(s, t), AgainSubtype(d, ttl), deadline), d.ttl != ttl, s, SUBTYPE) ==
            SetRecord(MarkIf(st, d.ttl != ttl, s, SUBTYPE), Sub(s, t), AgainSubtype(d, ttl), deadline)
    ensures var q := MarkIf(st, st.records[Sub(s, t)].ttl != ttl, s, SUBTYPE);
            SvcKeyOf(q, s) == SvcKeyOf(st, s) && q.records == st.records && s in q.marks
  {
  }

  lemma MarkedStorable(st: State, s: Ref, t: Ref, ttl: nat)
    requires Placed(st) && Synced(st) && s in st.services && s in st.marks && Sub(s, t) in st.records
    ensures st.records[Sub(s, t)].SubData?
    ensures var d := st.records[Sub(s, t)];
            Storable(MarkIf(st, d.ttl != ttl, s, SUBTYPE), Sub(s, t), AgainSubtype(d, ttl))
  {
    var d := st.records[Sub(s, t)];
    if d.pending {
      assert IsPending(st, s, t);
    }
  }

  /** A subtype that is received again: its time starts anew, and a change is marked. */
  lemma SubtypeAgain(st: State, q: State, s: Ref, t: Ref, ttl: nat, deadline: int)
    requires Valid(st) && s in st.services && s in st.marks && Sub(s, t) in st.records && st.records[Sub(s, t)].SubData?
    requires var d := st.records[Sub(s, t)];
             q == MarkIf(SetRecord(st, Sub(s, t), AgainSubtype(d, ttl), deadline), d.ttl != ttl, s, SUBTYPE)
    ensures Valid(q)
    ensures var d := AgainSubtype(st.records[Sub(s, t)], ttl);
            Rows(q) == Upsert(Rows(st), Row(SubKey(SvcKeyOf(st, s), d.name), d, "", deadline))
  {
    var d := st.records[Sub(s, t)];
    var p := MarkIf(st, d.ttl != ttl, s, SUBTYPE);
    MarkIfValid(st, d.ttl != ttl, s, SUBTYPE);
    MarkedSubtype(st, s, t, ttl, deadline);
    MarkedStorable(st, s, t, ttl);
    SubtypeStored(p, s, t, AgainSubtype(d, ttl), deadline);
  }

  lemma NewSubtypeRow(st: State, s: Ref, d: Data, deadline: int)
    requires d.SubData? && s in st.subtypeList
    ensures var r := Sub(s, st.next);
            RowOf(NewSubtype(st, s, d, deadline), Node(r, Home(st, r), true, deadline)) ==
            Row(SubKey(SvcKeyOf(st, s), d.name), d, "", deadline)
  {
  }

  lemma NewSubtypeAllTidy(st: State, s: Ref, d: Data, deadline: int)
    requires Tidy(st, {}, {s}) && s in st.subtypeList
    ensures Tidy(NewSubtype(st, s, d, deadline), {}, {})
  {
    NewSubtypeTidy(st, s, d, deadline, {}, {s});
    assert {s} - {s} == {};
  }

  lemma SubtypeStoredNew(st: State, s: Ref, d: Data, deadline: int)
    requires Inv(st) && Tidy(st, {}, {s}) && FreshSubtype(st, s, d)
    ensures var q := NewSubtype(st, s, d, deadline);
            Valid(q) && Rows(q) == Upsert(Rows(st), Row(SubKey(SvcKeyOf(st, s), d.name), d, "", deadline))
  {
    NewSubtypeRow(st, s, d, deadline);
    NewSubtypeKeeps(st, s, d, deadline);
    NewSubtypeAllTidy(st, s, d, deadline);
  }

  /** A subtype of the service, of this name, is not cached. */
  ghost predicate NoSubtype(st: State, s: Ref, name: string) {
    forall t | Sub(s, t) in st.records :: SubName(st, s, t) != name
  }

  lemma MarkedNewSubtype(st: State, s: Ref, d: Data, deadline: int)
    requires s in st.services && s in st.marks && s in st.subtypeList && d.SubData? && NoSubtype(st, s, d.name)
    ensures Mark(NewSubtype(st, s, d, deadline), s, SUBTYPE) == NewSubtype(Mark(st, s, SUBTYPE), s, d, deadline)
    ensures FreshSubtype(Mark(st, s, SUBTYPE), s, d) && SvcKeyOf(Mark(st, s, SUBTYPE), s) == SvcKeyOf(st, s)
  {
    MarkedFirst(st, s, d, deadline);
    MarkedFresh(st, s, d);
  }

  lemma MarkedFirst(st: State, s: Ref, d: Data, deadline: int)
    requires s in st.marks && s in st.subtypeList
    ensures Mark(NewSubtype(st, s, d, deadline), s, SUBTYPE) == NewSubtype(Mark(st, s, SUBTYPE), s, d, deadline)
  {
  }

  lemma MarkedFresh(st: State, s: Ref, d: Data)
    requires s in st.services && s in st.marks && s in st.subtypeList && d.SubData? && NoSubtype(st, s, d.name)
    ensures FreshSubtype(Mark(st, s, SUBTYPE), s, d) && SvcKeyOf(Mark(st, s, SUBTYPE), s) == SvcKeyOf(st, s)
  {
    assert forall t :: SubName(Mark(st, s, SUBTYPE), s, t) == SubName(st, s, t);
  }

  /** A subtype that was not known yet, of a service that may be new. */
  lemma SubtypeAdded(st: State, q: State, s: Ref, d: Data, deadline: int)
    requires Inv(st) && Tidy(st, {}, {s}) && s in st.services && s in st.marks && s in st.subtypeList
    requires d.SubData? && NoSubtype(st, s, d.name) && q == Mark(NewSubtype(st, s, d, deadline), s, SUBTYPE)
    ensures Valid(q) && Rows(q) == Upsert(Rows(st), Row(SubKey(SvcKeyOf(st, s), d.name), d, "", deadline))
  {
    var p := Mark(st, s, SUBTYPE);
    MarkKeeps(st, s, SUBTYPE);
    MarkTidy(st, s, SUBTYPE, {}, {s});
    MarkedNewSubtype(st, s, d, deadline);
    SubtypeStoredNew(p, s, d, deadline);
  }

  // ------------------------------------------------------------------ addresses

  /** Mark every service of a host. */
  function MarkAll(st: State, list: seq<Ref>, k: Kind): (q: State)
    requires forall s | s in list :: s in st.marks
    decreases list
  {
    if list == [] then st else MarkAll(Mark(st, list[0], k), list[1..], k)
  }

  lemma {:induction false} MarkAllValid(st: State, list: seq<Ref>, k: Kind)
    requires Valid(st) && forall s | s in list :: s in st.marks
    ensures Valid(MarkAll(st, list, k)) && Rows(MarkAll(st, list, k)) == Rows(st)
    decreases list
  {
    if list != [] {
      MarkedValid(st, list[0], k);
      MarkAllValid(Mark(st, list[0], k), list[1..], k);
    }
  }

  lemma AddrRow(st: State, e: Ref, a: Ref, d: Data, deadline: int)
    requires d.AdrData? && e in st.entries
    ensures RowOf(SetRecord(st, Adr(e, a), d, deadline), Node(Adr(e, a), e, true, deadline)) ==
            Row(AdrKey(st.entries[e], d.addr), d, "", deadline)
  {
  }

  lemma AddrStored(st: State, e: Ref, a: Ref, d: Data, deadline: int)
    requires Valid(st) && e in st.entries && d.AdrData? && Storable(st, Adr(e, a), d)
    ensures var q := SetRecord(st, Adr(e, a), d, deadline);
            Valid(q) && Rows(q) == Upsert(Rows(st), Row(AdrKey(st.entries[e], d.addr), d, "", deadline))
  {
    AddrRow(st, e, a, d, deadline);
    SetRecordKeeps(st, Adr(e, a), d, deadline);
    SetRecordTidy(st, Adr(e, a), d, deadline, {}, {});
  }

  lemma NewAddrRow(st: State, e: Ref, d: Data, deadline: int)
    requires d.AdrData? && e in st.entries && e in st.addrList
    ensures RowOf(NewAddr(st, e, d, deadline), Node(Adr(e, st.next), e, true, deadline)) ==
            Row(AdrKey(st.entries[e], d.addr), d, "", deadline)
  {
  }

  lemma NewAddrAllTidy(st: State, e: Ref, d: Data, deadline: int)
    requires Tidy(st, {e}, {}) && e in st.addrList
    ensures Tidy(NewAddr(st, e, d, deadline), {}, {})
  {
    NewAddrTidy(st, e, d, deadline, {e}, {});
    assert {e} - {e} == {};
  }

  /** An address that was not known yet, of an entry that may be new. */
  lemma AddrAdded(st: State, e: Ref, d: Data, deadline: int)
    requires Inv(st) && Tidy(st, {e}, {}) && FreshAddr(st, e, d)
    ensures var q := NewAddr(st, e, d, deadline);
            Valid(q) && Rows(q) == Upsert(Rows(st), Row(AdrKey(st.entries[e], d.addr), d, "", deadline))
  {
    NewAddrRow(st, e, d, deadline);
    NewAddrKeeps(st, e, d, deadline);
    NewAddrAllTidy(st, e, d, deadline);
  }
}
