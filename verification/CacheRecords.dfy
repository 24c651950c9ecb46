/** Records of the cache: storing, refreshing and dropping them together with their index nodes. */
module CacheRecords {
  import opened Common
  import opened CacheIndex
  import opened CacheModel
  import opened CacheSteps

  // ------------------------------------------------------------------ storing a record

  /** The record can be stored without touching any list: it is there already under the same name, or
      it is one of the three that a service has at most once. */
  ghost predicate Storable(st: State, r: Rec, d: Data) {
    && Typed(r, d)
    && (if r.Adr? then r.e in st.entries else r.s in st.services)
    && (r.Sub? ==> r in st.records && st.records[r].SubData? && st.records[r].name == d.name)
    && (r.Adr? ==> r in st.records && st.records[r].AdrData? && st.records[r].addr == d.addr)
    && (r.Sub? && d.pending ==> r.s in st.marks && SUBTYPE in st.marks[r.s])
  }

  lemma SetRecordListed(st: State, r: Rec, d: Data, deadline: int)
    requires Domains(st) && Listed(st)
    ensures Domains(SetRecord(st, r, d, deadline)) && Listed(SetRecord(st, r, d, deadline))
  {
  }

  lemma SetRecordPlaced(st: State, r: Rec, d: Data, deadline: int)
    requires Placed(st) && Fresh(st) && Storable(st, r, d)
    ensures Placed(SetRecord(st, r, d, deadline)) && Fresh(SetRecord(st, r, d, deadline))
  {
  }

  lemma SetRecordNamed(st: State, r: Rec, d: Data, deadline: int)
    requires Named(st) && Storable(st, r, d)
    ensures Named(SetRecord(st, r, d, deadline))
  {
    var q := SetRecord(st, r, d, deadline);
    assert SameServiceKeys(st, q);
    assert SameRecordNames(st, q);
    NamesCarryOver(st, q);
  }

  /** The index after scheduling a node. */
  lemma ScheduleIndexed(st: State, q: State, n: Node)
    requires Indexed(st) && q.expiry == Schedule(st.expiry, n) && n.queued
    requires forall r :: r in q.records <==> r == n.rec || r in st.records
    requires n.entry == Home(q, n.rec) && forall r | r in st.records :: Home(q, r) == Home(st, r)
    ensures Indexed(q)
  {
    ScheduleKeeps(st.expiry, n);
    forall r | r in q.records ensures exists m :: m in q.expiry && m.rec == r {
      if r == n.rec {
        assert n in q.expiry;
      } else {
        var m :| m in st.expiry && m.rec == r;
        assert m in q.expiry;
      }
    }
  }

  lemma SetRecordIndexed(st: State, r: Rec, d: Data, deadline: int)
    requires Indexed(st)
    ensures Indexed(SetRecord(st, r, d, deadline))
  {
    ScheduleIndexed(st, SetRecord(st, r, d, deadline), Node(r, Home(st, r), true, deadline));
  }

  lemma SetRecordSynced(st: State, r: Rec, d: Data, deadline: int)
    requires Synced(st) && Storable(st, r, d)
    ensures Synced(SetRecord(st, r, d, deadline))
  {
    var q := SetRecord(st, r, d, deadline);
    forall s, t | Sub(s, t) in q.records && s in q.marks && IsPending(q, s, t) ensures SUBTYPE in q.marks[s] {
      if Sub(s, t) != r {
        assert IsPending(st, s, t);
      }
    }
  }

  /** Rows after scheduling a node: the row of the node replaces the one with its name. */
  lemma ScheduleRows(st: State, q: State, n: Node)
    requires Sorted(st.expiry) && Distinct(st.expiry) && q.expiry == Schedule(st.expiry, n)
    requires forall m | m in st.expiry && m.rec != n.rec ::
               RowOf(q, m) == RowOf(st, m) && RowOf(st, m).key != RowOf(q, n).key
    requires forall m | m in st.expiry && m.rec == n.rec :: RowOf(st, m).key == RowOf(q, n).key
    ensures Rows(q) == Upsert(Rows(st), RowOf(q, n))
  {
    ScheduleKeeps(st.expiry, n);
    var row := RowOf(q, n);
    forall x ensures x in Rows(q) <==> x in Upsert(Rows(st), row) {
      if x in Rows(q) {
        var m :| m in q.expiry && x == RowOf(q, m);
        if m != n {
          assert m in st.expiry && RowOf(st, m) in Rows(st);
        }
      }
      if x in Upsert(Rows(st), row) {
        if x == row {
          assert n in q.expiry;
        } else {
          var m :| m in st.expiry && x == RowOf(st, m);
          assert m in q.expiry;
        }
      }
    }
  }

  lemma SetRecordRows(st: State, r: Rec, d: Data, deadline: int)
    requires Owned(st) && Placed(st) && Named(st) && Indexed(st) && Storable(st, r, d)
    ensures var q := SetRecord(st, r, d, deadline);
            Rows(q) == Upsert(Rows(st), RowOf(q, Node(r, Home(st, r), true, deadline)))
  {
    var q, n := SetRecord(st, r, d, deadline), Node(r, Home(st, r), true, deadline);
    SetRecordNamed(st, r, d, deadline);
    SetRecordHeld(st, r, d, deadline);
    forall m | m in st.expiry
      ensures m.rec != r ==> RowOf(q, m) == RowOf(st, m) && RowOf(st, m).key != RowOf(q, n).key
      ensures m.rec == r ==> RowOf(st, m).key == RowOf(q, n).key
    {
      SetRecordRow(st, r, d, deadline, m);
    }
    ScheduleRows(st, q, n);
  }

  lemma SetRecordHeld(st: State, r: Rec, d: Data, deadline: int)
    requires Owned(st) && Placed(st) && Storable(st, r, d)
    ensures forall x | x in SetRecord(st, r, d, deadline).records :: Held(SetRecord(st, r, d, deadline), x)
  {
  }

  lemma SetRecordRow(st: State, r: Rec, d: Data, deadline: int, m: Node)
    requires Storable(st, r, d) && m.rec in st.records && m.entry == Home(st, m.rec)
    requires var q := SetRecord(st, r, d, deadline);
             && UniqueHosts(q) && UniqueServices(q) && UniqueSubtypes(q) && UniqueAddrs(q)
             && (forall x | x in q.records :: Held(q, x))
    ensures var q, n := SetRecord(st, r, d, deadline), Node(r, Home(st, r), true, deadline);
            && (m.rec != r ==> RowOf(q, m) == RowOf(st, m) && RowOf(st, m).key != RowOf(q, n).key)
            && (m.rec == r ==> RowOf(st, m).key == RowOf(q, n).key)
  {
    var q, n := SetRecord(st, r, d, deadline), Node(r, Home(st, r), true, deadline);
    if m.rec != r && RowOf(q, m).key == RowOf(q, n).key {
      SameKeySameRec(q, m, n);
    }
  }

  /** Storing a record replaces exactly its row. */
  lemma SetRecordKeeps(st: State, r: Rec, d: Data, deadline: int)
    requires Inv(st) && Storable(st, r, d)
    ensures Inv(SetRecord(st, r, d, deadline))
    ensures var q := SetRecord(st, r, d, deadline);
            Rows(q) == Upsert(Rows(st), RowOf(q, Node(r, Home(st, r), true, deadline)))
  {
    InvOwned(st);
    SetRecordListed(st, r, d, deadline);
    SetRecordPlaced(st, r, d, deadline);
    SetRecordNamed(st, r, d, deadline);
    SetRecordIndexed(st, r, d, deadline);
    SetRecordSynced(st, r, d, deadline);
    SetRecordRows(st, r, d, deadline);
  }

  lemma SetRecordTidy(st: State, r: Rec, d: Data, deadline: int, xe: set<Ref>, xs: set<Ref>)
    requires Tidy(st, xe, xs) && Placed(st) && Storable(st, r, d)
    ensures Tidy(SetRecord(st, r, d, deadline), xe, if r.Adr? then xs else xs - {r.s})
  {
    var q := SetRecord(st, r, d, deadline);
    assert forall e :: HasContent(q, e) == HasContent(st, e);
    assert forall s :: HasRecord(st, s) ==> HasRecord(q, s);
    if r.Sub? {
      assert Sub(r.s, r.t) in st.records;
    }
  }

  // ------------------------------------------------------------------ new subtype

  /** A subtype of an existing service that the service does not have yet. */
  ghost predicate FreshSubtype(st: State, s: Ref, d: Data) {
    && d.SubData? && s in st.services && s in st.subtypeList && s in st.marks
    && (forall t | Sub(s, t) in st.records :: SubName(st, s, t) != d.name)
    && (d.pending ==> SUBTYPE in st.marks[s])
  }

  lemma NewSubtypeListed(st: State, s: Ref, d: Data, deadline: int)
    requires Domains(st) && Listed(st) && s in st.subtypeList
    ensures Domains(NewSubtype(st, s, d, deadline)) && Listed(NewSubtype(st, s, d, deadline))
  {
  }

  lemma NewSubtypePlaced(st: State, s: Ref, d: Data, deadline: int)
    requires Placed(st) && Fresh(st) && FreshSubtype(st, s, d)
    ensures Placed(NewSubtype(st, s, d, deadline)) && Fresh(NewSubtype(st, s, d, deadline))
  {
    var q := NewSubtype(st, s, d, deadline);
    assert Sub(s, st.next) !in st.records;
    assert st.next !in st.subtypeList[s];
    NoRepeatPush(st.subtypeList[s], st.next);
    forall u | u in q.subtypeList
      ensures NoRepeat(q.subtypeList[u]) && forall t <- q.subtypeList[u] :: Sub(u, t) in q.records
    {
    }
  }

  lemma NewSubtypeNamed(st: State, s: Ref, d: Data, deadline: int)
    requires Named(st) && Fresh(st) && FreshSubtype(st, s, d)
    ensures Named(NewSubtype(st, s, d, deadline))
  {
    var q := NewSubtype(st, s, d, deadline);
    assert SameServiceKeys(st, q);
    assert SubName(q, s, st.next) == d.name;
    assert forall u, t | Sub(u, t) in st.records :: SubName(q, u, t) == SubName(st, u, t);
    assert UniqueSubtypes(q);
    assert forall e, a :: AddrAt(q, e, a) == AddrAt(st, e, a);
  }

  lemma NewSubtypeIndexed(st: State, s: Ref, d: Data, deadline: int)
    requires Indexed(st) && s in st.subtypeList
    ensures Indexed(NewSubtype(st, s, d, deadline))
  {
    var r := Sub(s, st.next);
    ScheduleIndexed(st, NewSubtype(st, s, d, deadline), Node(r, Home(st, r), true, deadline));
  }

  lemma NewSubtypeSynced(st: State, s: Ref, d: Data, deadline: int)
    requires Synced(st) && FreshSubtype(st, s, d)
    ensures Synced(NewSubtype(st, s, d, deadline))
  {
    var q := NewSubtype(st, s, d, deadline);
    forall u, t | Sub(u, t) in q.records && u in q.marks && IsPending(q, u, t) ensures SUBTYPE in q.marks[u] {
      if Sub(u, t) != Sub(s, st.next) {
        assert IsPending(st, u, t);
      }
    }
  }

  /** Rows after adding a record that was not there. */
  lemma AddedRow(st: State, q: State, n: Node, m: Node)
    requires m.rec in st.records && Held(st, m.rec) && m.entry == Home(st, m.rec) && n.rec !in st.records
    requires UniqueHosts(q) && UniqueServices(q) && UniqueSubtypes(q) && UniqueAddrs(q)
    requires q.entries == st.entries && q.services == st.services && q.owner == st.owner
    requires m.rec in q.records && q.records[m.rec] == st.records[m.rec]
    requires Held(q, n.rec) && n.entry == Home(q, n.rec)
    ensures m.rec != n.rec && RowOf(q, m) == RowOf(st, m) && RowOf(st, m).key != RowOf(q, n).key
  {
    if RowOf(q, m).key == RowOf(q, n).key {
      SameKeySameRec(q, m, n);
    }
  }

  lemma AddedRows(st: State, q: State, n: Node)
    requires Indexed(st) && n.rec !in st.records && q.expiry == Schedule(st.expiry, n)
    requires forall r | r in st.records :: Held(st, r)
    requires UniqueHosts(q) && UniqueServices(q) && UniqueSubtypes(q) && UniqueAddrs(q)
    requires q.entries == st.entries && q.services == st.services && q.owner == st.owner
    requires forall r | r in st.records :: r in q.records && q.records[r] == st.records[r]
    requires Held(q, n.rec) && n.entry == Home(q, n.rec)
    ensures Rows(q) == Upsert(Rows(st), RowOf(q, n))
  {
    forall m | m in st.expiry
      ensures m.rec != n.rec && RowOf(q, m) == RowOf(st, m) && RowOf(st, m).key != RowOf(q, n).key {
      AddedRow(st, q, n, m);
    }
    ScheduleRows(st, q, n);
  }

  lemma AllHeld(st: State)
    requires Owned(st) && Placed(st)
    ensures forall r | r in st.records :: Held(st, r)
  {
  }

  lemma NewSubtypeHeld(st: State, q: State, s: Ref, d: Data, deadline: int)
    requires Owned(st) && Placed(st) && Fresh(st) && FreshSubtype(st, s, d) && q == NewSubtype(st, s, d, deadline)
    ensures Sub(s, st.next) !in st.records && Held(q, Sub(s, st.next))
    ensures Home(q, Sub(s, st.next)) == Home(st, Sub(s, st.next))
    ensures forall r | r in st.records :: Held(st, r) && r in q.records && q.records[r] == st.records[r]
  {
    AllHeld(st);
  }

  lemma NewSubtypeRows(st: State, s: Ref, d: Data, deadline: int)
    requires Owned(st) && Placed(st) && Named(st) && Indexed(st) && Fresh(st) && FreshSubtype(st, s, d)
    ensures var q, r := NewSubtype(st, s, d, deadline), Sub(s, st.next);
            Rows(q) == Upsert(Rows(st), RowOf(q, Node(r, Home(st, r), true, deadline)))
  {
    var q, r := NewSubtype(st, s, d, deadline), Sub(s, st.next);
    NewSubtypeNamed(st, s, d, deadline);
    NewSubtypeHeld(st, q, s, d, deadline);
    AddedRows(st, q, Node(r, Home(st, r), true, deadline));
  }

  lemma NewSubtypeKeeps(st: State, s: Ref, d: Data, deadline: int)
    requires Inv(st) && FreshSubtype(st, s, d)
    ensures Inv(NewSubtype(st, s, d, deadline))
    ensures var q, r := NewSubtype(st, s, d, deadline), Sub(s, st.next);
            Rows(q) == Upsert(Rows(st), RowOf(q, Node(r, Home(st, r), true, deadline)))
  {
    InvOwned(st);
    NewSubtypeListed(st, s, d, deadline);
    NewSubtypePlaced(st, s, d, deadline);
    NewSubtypeNamed(st, s, d, deadline);
    NewSubtypeIndexed(st, s, d, deadline);
    NewSubtypeSynced(st, s, d, deadline);
    NewSubtypeRows(st, s, d, deadline);
  }

  lemma NewSubtypeTidy(st: State, s: Ref, d: Data, deadline: int, xe: set<Ref>, xs: set<Ref>)
    requires Tidy(st, xe, xs) && s in st.subtypeList
    ensures Tidy(NewSubtype(st, s, d, deadline), xe, xs - {s})
  {
    var q := NewSubtype(st, s, d, deadline);
    assert forall e :: HasContent(q, e) == HasContent(st, e);
    assert forall u :: HasRecord(st, u) ==> HasRecord(q, u);
  }

  // ------------------------------------------------------------------ new address

  /** An address of an existing entry that the entry does not have yet. */
  ghost predicate FreshAddr(st: State, e: Ref, d: Data) {
    && d.AdrData? && e in st.entries && e in st.addrList
    && forall a | Adr(e, a) in st.records :: AddrAt(st, e, a) != d.addr
  }

  lemma NewAddrListed(st: State, e: Ref, d: Data, deadline: int)
    requires Domains(st) && Listed(st) && e in st.addrList
    ensures Domains(NewAddr(st, e, d, deadline)) && Listed(NewAddr(st, e, d, deadline))
  {
  }

  lemma NewAddrPlaced(st: State, e: Ref, d: Data, deadline: int)
    requires Placed(st) && Fresh(st) && FreshAddr(st, e, d)
    ensures Placed(NewAddr(st, e, d, deadline)) && Fresh(NewAddr(st, e, d, deadline))
  {
    var q := NewAddr(st, e, d, deadline);
    assert Adr(e, st.next) !in st.records;
    assert st.next !in st.addrList[e];
    NoRepeatPush(st.addrList[e], st.next);
    forall f | f in q.addrList
      ensures NoRepeat(q.addrList[f]) && forall a <- q.addrList[f] :: Adr(f, a) in q.records
    {
    }
  }

  lemma NewAddrNamed(st: State, e: Ref, d: Data, deadline: int)
    requires Named(st) && Fresh(st) && FreshAddr(st, e, d)
    ensures Named(NewAddr(st, e, d, deadline))
  {
    var q := NewAddr(st, e, d, deadline);
    assert SameServiceKeys(st, q);
    assert AddrAt(q, e, st.next) == d.addr;
    assert forall f, a | Adr(f, a) in st.records :: AddrAt(q, f, a) == AddrAt(st, f, a);
    assert UniqueAddrs(q);
    assert forall s, t :: SubName(q, s, t) == SubName(st, s, t);
  }

  lemma NewAddrIndexed(st: State, e: Ref, d: Data, deadline: int)
    requires Indexed(st) && e in st.addrList
    ensures Indexed(NewAddr(st, e, d, deadline))
  {
    ScheduleIndexed(st, NewAddr(st, e, d, deadline), Node(Adr(e, st.next), e, true, deadline));
  }

  lemma NewAddrSynced(st: State, e: Ref, d: Data, deadline: int)
    requires Synced(st) && FreshAddr(st, e, d)
    ensures Synced(NewAddr(st, e, d, deadline))
  {
    var q := NewAddr(st, e, d, deadline);
    assert forall s, t :: IsPending(q, s, t) == IsPending(st, s, t);
  }

  lemma NewAddrRows(st: State, e: Ref, d: Data, deadline: int)
    requires Owned(st) && Placed(st) && Named(st) && Indexed(st) && Fresh(st) && FreshAddr(st, e, d)
    ensures var q := NewAddr(st, e, d, deadline);
            Rows(q) == Upsert(Rows(st), RowOf(q, Node(Adr(e, st.next), e, true, deadline)))
  {
    var q := NewAddr(st, e, d, deadline);
    NewAddrNamed(st, e, d, deadline);
    AllHeld(st);
    AddedRows(st, q, Node(Adr(e, st.next), e, true, deadline));
  }

  lemma NewAddrKeeps(st: State, e: Ref, d: Data, deadline: int)
    requires Inv(st) && FreshAddr(st, e, d)
    ensures Inv(NewAddr(st, e, d, deadline))
    ensures var q := NewAddr(st, e, d, deadline);
            Rows(q) == Upsert(Rows(st), RowOf(q, Node(Adr(e, st.next), e, true, deadline)))
  {
    InvOwned(st);
    NewAddrListed(st, e, d, deadline);
    NewAddrPlaced(st, e, d, deadline);
    NewAddrNamed(st, e, d, deadline);
    NewAddrIndexed(st, e, d, deadline);
    NewAddrSynced(st, e, d, deadline);
    NewAddrRows(st, e, d, deadline);
  }

  lemma NewAddrTidy(st: State, e: Ref, d: Data, deadline: int, xe: set<Ref>, xs: set<Ref>)
    requires Tidy(st, xe, xs) && e in st.addrList
    ensures Tidy(NewAddr(st, e, d, deadline), xe - {e}, xs)
  {
    var q := NewAddr(st, e, d, deadline);
    assert forall f :: HasContent(st, f) ==> HasContent(q, f);
    assert forall s :: HasRecord(q, s) == HasRecord(st, s);
  }

  // ------------------------------------------------------------------ dropping a record

  lemma DropRecordListed(st: State, r: Rec)
    requires Domains(st) && Listed(st)
    ensures Domains(DropRecord(st, r)) && Listed(DropRecord(st, r))
  {
  }

  lemma DropRecordPlaced(st: State, r: Rec)
    requires Placed(st) && Fresh(st) && r in st.records
    ensures Placed(DropRecord(st, r)) && Fresh(DropRecord(st, r))
  {
    var q := DropRecord(st, r);
    if r.Sub? {
      assert Sub(r.s, r.t) in st.records;
      WithoutKeeps(st.subtypeList[r.s], r.t);
    } else if r.Adr? {
      assert Adr(r.e, r.a) in st.records;
      WithoutKeeps(st.addrList[r.e], r.a);
    }
    DropRecordLists(st, r);
  }

  lemma DropRecordLists(st: State, r: Rec)
    requires Placed(st) && r in st.records
    ensures var q := DropRecord(st, r);
            && (forall e | e in q.addrList ::
                  NoRepeat(q.addrList[e]) && forall a <- q.addrList[e] :: Adr(e, a) in q.records)
            && (forall s | s in q.subtypeList ::
                  NoRepeat(q.subtypeList[s]) && forall t <- q.subtypeList[s] :: Sub(s, t) in q.records)
  {
    var q := DropRecord(st, r);
    if r.Sub? {
      assert Sub(r.s, r.t) in st.records;
      WithoutKeeps(st.subtypeList[r.s], r.t);
    } else if r.Adr? {
      assert Adr(r.e, r.a) in st.records;
      WithoutKeeps(st.addrList[r.e], r.a);
    }
  }

  lemma DropRecordNamed(st: State, r: Rec)
    requires Named(st)
    ensures Named(DropRecord(st, r))
  {
    var q := DropRecord(st, r);
    assert SameServiceKeys(st, q);
    assert SameRecordNames(st, q);
    NamesCarryOver(st, q);
  }

  lemma DropIndexed(st: State, q: State, r: Rec)
    requires Indexed(st) && q.expiry == Drop(st.expiry, r) && q.owner == st.owner
    requires forall x :: x in q.records <==> x in st.records && x != r
    ensures Indexed(q)
  {
    DropKeeps(st.expiry, r);
    assert forall x :: Home(q, x) == Home(st, x);
    forall x | x in q.records ensures exists m :: m in q.expiry && m.rec == x {
      var m :| m in st.expiry && m.rec == x;
      assert m in q.expiry;
    }
  }

  lemma DropRecordIndexed(st: State, r: Rec)
    requires Indexed(st)
    ensures Indexed(DropRecord(st, r))
  {
    DropIndexed(st, DropRecord(st, r), r);
  }

  lemma DropRecordSynced(st: State, r: Rec)
    requires Synced(st)
    ensures Synced(DropRecord(st, r))
  {
    var q := DropRecord(st, r);
    forall s, t | Sub(s, t) in q.records && s in q.marks && IsPending(q, s, t) ensures SUBTYPE in q.marks[s] {
      assert IsPending(st, s, t);
    }
  }

  lemma DropRecordRows(st: State, r: Rec)
    ensures Rows(DropRecord(st, r)) == set n | n in st.expiry && n.rec != r :: RowOf(st, n)
  {
    var q := DropRecord(st, r);
    assert forall n | n in st.expiry && n.rec != r :: RowOf(q, n) == RowOf(st, n);
    assert forall n :: n in q.expiry <==> n in st.expiry && n.rec != r;
  }

  /** A record and its node go together; every other row stays. */
  lemma DropRecordKeeps(st: State, r: Rec)
    requires Inv(st) && r in st.records
    ensures Inv(DropRecord(st, r))
    ensures Rows(DropRecord(st, r)) == set n | n in st.expiry && n.rec != r :: RowOf(st, n)
  {
    DropRecordListed(st, r);
    DropRecordPlaced(st, r);
    DropRecordNamed(st, r);
    DropRecordIndexed(st, r);
    DropRecordSynced(st, r);
    DropRecordRows(st, r);
  }

  lemma DropRecordTidy(st: State, r: Rec, xe: set<Ref>, xs: set<Ref>)
    requires Tidy(st, xe, xs)
    ensures Tidy(DropRecord(st, r), if r.Adr? then xe + {r.e} else xe, if r.Adr? then xs else xs + {r.s})
  {
    var q := DropRecord(st, r);
    assert forall e | !r.Adr? || e != r.e :: HasContent(q, e) == HasContent(st, e);
    assert forall s | r.Adr? || s != r.s :: HasRecord(q, s) == HasRecord(st, s);
  }

  // ------------------------------------------------------------------ marking a service

  lemma MarkDomains(st: State, s: Ref, k: Kind)
    requires Domains(st) && s in st.marks
    ensures Domains(Mark(st, s, k))
  {
  }

  lemma MarkNamed(st: State, s: Ref, k: Kind)
    requires Named(st) && s in st.marks
    ensures Named(Mark(st, s, k))
  {
    var q := Mark(st, s, k);
    assert SameServiceKeys(st, q) && SameRecordNames(st, q);
    NamesCarryOver(st, q);
  }

  lemma MarkIndexed(st: State, s: Ref, k: Kind)
    requires Indexed(st) && s in st.marks
    ensures Indexed(Mark(st, s, k)) && Rows(Mark(st, s, k)) == Rows(st)
  {
    SameRows(st, Mark(st, s, k));
  }

  lemma MarkKeeps(st: State, s: Ref, k: Kind)
    requires Inv(st) && s in st.marks
    ensures Inv(Mark(st, s, k)) && Rows(Mark(st, s, k)) == Rows(st)
  {
    MarkDomains(st, s, k);
    PlacedCarriesOver(st, Mark(st, s, k));
    MarkNamed(st, s, k);
    MarkIndexed(st, s, k);
    MarkSynced(st, s, k);
  }

  lemma MarkSynced(st: State, s: Ref, k: Kind)
    requires Synced(st) && s in st.marks
    ensures Synced(Mark(st, s, k))
  {
    var q := Mark(st, s, k);
    forall u, t | Sub(u, t) in q.records && u in q.marks && IsPending(q, u, t) ensures SUBTYPE in q.marks[u] {
      assert IsPending(st, u, t);
    }
  }

  lemma MarkTidy(st: State, s: Ref, k: Kind, xe: set<Ref>, xs: set<Ref>)
    requires Tidy(st, xe, xs) && s in st.marks
    ensures Tidy(Mark(st, s, k), xe, xs)
  {
    var q := Mark(st, s, k);
    assert forall e :: HasContent(q, e) == HasContent(st, e);
    assert forall u :: HasRecord(q, u) == HasRecord(st, u);
  }
}
