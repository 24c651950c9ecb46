/** The update operations of the cache, from the state before to the state after: what has to be known
    when they start and what they leave. */
module CacheOutcomes {
  import opened CacheIndex
  import opened CacheModel
  import opened CacheSteps
  import opened CacheEntries
  import opened CacheViews
  import opened CacheUpdates
  import opened CacheReports
  import opened CacheSpec

  /** A record was stored in its row and, if it is news, reported; or nothing changed. */
  ghost predicate Outcome(st: State, q: State, ok: bool, row: Row, news: bool, report: Report) {
    && Sound(q) && Rows(q) == (if ok then Upsert(Rows(st), row) else Rows(st))
    && Reports(q) == if news then Reports(st) + {report} else Reports(st)
  }

  /** A record with a time to live was received: its row, the result and the report. */
  ghost predicate RecordSpec(st: State, q: State, r: Result, row: Row, same: (Data, string) -> bool, k: Kind)
    requires !row.key.AdrKey?
  {
    && Sound(q) && ReceiveSpec(Rows(st), Rows(q), r, row, same)
    && Reports(q) == if r.Added? || r.Updated? then Reports(st) + {Report(row.key.svc, k)} else Reports(st)
  }

  /** A goodbye was received; nothing is reported until the record expires. */
  ghost predicate ByeSpec(st: State, q: State, r: Result, k: Key) {
    Sound(q) && GoodbyeSpec(Rows(st), Rows(q), r, k) && Reports(q) == Reports(st)
  }

  lemma FirstSpec(st: State, q: State, ok: bool, row: Row, same: (Data, string) -> bool, k: Kind)
    requires Sound(st) && !row.key.AdrKey? && NoService(st, row.key.svc)
    requires Outcome(st, q, ok, row, ok, Report(row.key.svc, k))
    ensures RecordSpec(st, q, if ok then Added else Error, row, same, k)
  {
    if ok {
      AddFollows(st, Rows(q), row, same);
    }
  }

  /** data is what was stored: the received contents, or what was there when they count as the same. */
  lemma KnownSpec(st: State, q: State, ok: bool, s: Ref, data: Data, row: Row, same: (Data, string) -> bool)
    requires Sound(st) && s in st.services && IsSingle(data) && row.key == KeyFor(SvcKeyOf(st, s), data)
    requires var changed := !Cached(st, RecFor(s, data), same);
             && Outcome(st, q, ok, SingleRow(st, s, data, row.deadline), ok && changed,
                        Report(SvcKeyOf(st, s), KindFor(data)))
             && if changed then SingleRow(st, s, data, row.deadline) == row else st.records[RecFor(s, data)] == data
    ensures RecordSpec(st, q, if !ok then Error else if Cached(st, RecFor(s, data), same) then NoChange else Updated,
                       row, same, KindFor(data))
  {
    var rec := RecFor(s, data);
    if !ok {
    } else if Cached(st, rec, same) {
      KnownRec(st, s, data, row.deadline);
      NoChangeFollows(st, Rows(q), rec, row, same);
    } else {
      if rec in st.records {
        KnownRec(st, s, data, row.deadline);
      } else {
        SingleIsAbsent(st, s, data);
      }
      UpdateFollows(st, Rows(q), rec, row, same);
    }
  }

  lemma TxtKnown(st: State, q: State, ok: bool, s: Ref, d: Data, row: Row, items: seq<TxtItem>, ttl: nat, changed: bool)
    requires Sound(st) && s in st.services && d.TxtData?
    requires changed == !Cached(st, Txt(s), SameTxt(items, ttl))
    requires d == if changed then TxtData(items, ttl) else st.records[Txt(s)]
    requires row == Row(TxtKey(SvcKeyOf(st, s)), TxtData(items, ttl), "", row.deadline)
    requires Outcome(st, q, ok, SingleRow(st, s, d, row.deadline), ok && changed, Report(SvcKeyOf(st, s), KindFor(d)))
    ensures RecordSpec(st, q, if !ok then Error else if changed then Updated else NoChange, row, SameTxt(items, ttl),
                       TXT)
  {
    KnownSpec(st, q, ok, s, d, row, SameTxt(items, ttl));
  }

  lemma KnownRec(st: State, s: Ref, data: Data, deadline: int)
    requires IsSingle(data) && s in st.services && RecFor(s, data) in st.records
    ensures KeyOf(st, RecFor(s, data)) == KeyFor(SvcKeyOf(st, s), data)
    ensures st.records[RecFor(s, data)] == data ==>
              RowAt(st, RecFor(s, data), deadline) == SingleRow(st, s, data, deadline)
  {
  }

  /** An SRV record that leads elsewhere is never the same. */
  lemma MovedSpec(st: State, q: State, ok: bool, s: Ref, e: Ref, h: Host, d: Data, deadline: int)
    requires Sound(st) && s in st.services && s in st.owner && st.owner[s] == e && e in st.entries && d.SrvData?
    requires st.entries[e].netif == h.netif && st.entries[e].ip == h.ip && st.entries[e] != h
    requires Outcome(st, q, ok, Row(SrvKey(SvcKeyOf(st, s)), d, h.name, deadline), ok, Report(SvcKeyOf(st, s), SRV))
    ensures RecordSpec(st, q, if ok then Updated else Error,
                       Row(SrvKey(SvcKeyOf(st, s)), d, h.name, deadline), SameSrv(d, h.name), SRV)
  {
    var row := Row(SrvKey(SvcKeyOf(st, s)), d, h.name, deadline);
    if ok {
      if Srv(s) in st.records {
        KnownRec(st, s, d, deadline);
      } else {
        SingleIsAbsent(st, s, d);
      }
      UpdateFollows(st, Rows(q), Srv(s), row, SameSrv(d, h.name));
    }
  }

  /** No service, no record to say goodbye to. */
  lemma NobodyLeaves(st: State, k: Key)
    requires Sound(st) && !k.AdrKey? && NoService(st, k.svc)
    ensures ByeSpec(st, st, NoChange, k)
  {
    Open(st);
    NoRecordNoKey(st, k.svc, k);
  }

  /** What finding things relies on. */
  lemma Basics(st: State)
    requires Sound(st)
    ensures Domains(st) && Fresh(st) && Indexed(st)
    ensures ListsOwned(st.serviceList, st.owner) && OwnedListed(st.serviceList, st.owner)
  {
    Open(st);
  }

  lemma HasItsType(st: State, r: Rec)
    requires Sound(st)
    ensures r in st.records ==> Typed(r, st.records[r])
  {
    Open(st);
  }

  lemma PlacedBasics(st: State)
    requires Sound(st)
    ensures Placed(st)
  {
    Open(st);
  }

  lemma SaidGoodbye(st: State, q: State, r: Rec)
    requires Sound(st) && r in st.records && q == SetRecord(st, r, st.records[r].(ttl := 0), 0)
    ensures Sound(q) && Rows(q) == Expiring(Rows(st), KeyOf(st, r)) && Reports(q) == Reports(st)
  {
    Open(st);
    GoodbyeKeeps(st, r);
    StoreReports(st, q);
    Close(q);
  }

  // ------------------------------------------------------------------ the first record of a service

  /** The row of the first record of a service. */
  function FirstRow(h: Host, names: Names, d: Data, deadline: int): (r: Row) {
    Row(KeyFor(ServiceKey(h, names), d), d, if d.SrvData? then h.name else "", deadline)
  }

  lemma NotCreated(st: State, h: Host, e: Ref, q: State, row: Row, report: Report)
    requires Sound(st) && (q == st || (EntryFor(st, h, e) && q == Swept(WithEntry(st, h, e), e)))
    ensures Outcome(st, q, false, row, false, report)
  {
    if q != st {
      Open(st);
      WithEntryKeeps(st, h, e);
      WithEntryTidy(st, h, e, {});
      SweptKeeps(WithEntry(st, h, e), e, {});
      NotCreatedReports(st, h, e);
      Close(q);
    }
  }

  /** A service was just created for records to come. */
  ghost predicate NewlyCreated(st: State, q: State, h: Host, e: Ref, n: Names, s: Ref) {
    && EntryFor(st, h, e) && e in WithEntry(st, h, e).serviceList && s == WithEntry(st, h, e).next
    && q == Created(st, h, e, n)
  }

  lemma CreatedReady(st: State, q: State, h: Host, e: Ref, n: Names, s: Ref)
    requires Sound(st) && NonEmptyNames(n) && NoService(st, ServiceKey(h, n)) && NewlyCreated(st, q, h, e, n, s)
    ensures Indexed(q) && Fresh(q) && s in q.owner && q.owner[s] == e && s in q.services && s in q.marks
    ensures s in q.subtypeList
    ensures e in q.entries && e in q.serviceList && e in q.addrList && !HasRecord(q, s)
  {
    Open(st);
    CreatedInv(st, h, e, n);
    CreatedMore(st, h, e, n);
  }

  lemma FirstStored(st: State, p: State, q: State, h: Host, e: Ref, n: Names, s: Ref, d: Data, deadline: int)
    requires Sound(st) && NonEmptyNames(n) && NoService(st, ServiceKey(h, n)) && NewlyCreated(st, p, h, e, n, s)
    requires IsSingle(d) && s in p.marks && q == Mark(SetRecord(p, RecFor(s, d), d, deadline), s, KindFor(d))
    ensures Outcome(st, q, true, FirstRow(h, n, d, deadline), true, Report(ServiceKey(h, n), KindFor(d)))
  {
    Open(st);
    CreatedInv(st, h, e, n);
    CreatedMore(st, h, e, n);
    FirstRecord(p, s, d, deadline);
    Close(q);
    FirstReports(st, q, h, e, n, s, RecFor(s, d), d, deadline, KindFor(d));
  }

  lemma NotStored(st: State, p: State, q: State, h: Host, e: Ref, n: Names, s: Ref, row: Row, report: Report)
    requires Sound(st) && NonEmptyNames(n) && NoService(st, ServiceKey(h, n)) && NewlyCreated(st, p, h, e, n, s)
    requires e in p.serviceList && q == Removed(p, e, s)
    ensures Outcome(st, q, false, row, false, report)
  {
    Open(st);
    CreatedInv(st, h, e, n);
    CreatedMore(st, h, e, n);
    NoFirstRecord(p, e, s);
    NotFirstReports(st, p, h, e, n, s);
    Close(q);
  }

  // ------------------------------------------------------------------ a record of a cached service

  /** What storing a record of a cached service relies on. */
  ghost predicate Ready(st: State, s: Ref, e: Ref) {
    && Indexed(st) && s in st.services && s in st.marks && s in st.subtypeList && s in st.owner && st.owner[s] == e
    && HasRecord(st, s) && e in st.entries && e in st.serviceList && e in st.addrList
  }

  lemma KnownIsReady(st: State, s: Ref)
    requires Sound(st) && s in st.services
    ensures s in st.owner && Ready(st, s, st.owner[s])
  {
    Open(st);
  }

  lemma KnownUpdated(st: State, q: State, s: Ref, d: Data, deadline: int, changed: bool)
    requires Sound(st) && IsSingle(d) && s in st.services && s in st.marks
    requires q == MarkIf(SetRecord(st, RecFor(s, d), d, deadline), changed, s, KindFor(d))
    ensures Outcome(st, q, true, SingleRow(st, s, d, deadline), changed, Report(SvcKeyOf(st, s), KindFor(d)))
  {
    Open(st);
    KnownSingle(st, s, d, deadline, changed);
    KnownReports(st, s, RecFor(s, d), d, deadline, changed, KindFor(d));
    Close(q);
  }

  lemma StayingFacts(st: State, s: Ref, e: Ref)
    requires Sound(st) && s in st.services && s in st.owner && st.owner[s] == e
    ensures InTransit(st, e, e, s) && Movable(st, e, e, s) && OwnedListed(st.serviceList, st.owner)
  {
    Open(st);
    StayingPlace(st, s, e);
  }

  lemma StayingPlace(st: State, s: Ref, e: Ref)
    requires Domains(st) && OwnedListed(st.serviceList, st.owner) && s in st.services && s in st.owner
    requires st.owner[s] == e
    ensures e in st.entries && e in st.serviceList && e in st.addrList && s in st.marks
  {
  }

  lemma Relinked(st: State, q: State, s: Ref, e: Ref, row: Row, report: Report)
    requires Sound(st) && Movable(st, e, e, s) && Srv(s) !in st.records && q == Swept(MoveService(st, e, e, s), e)
    ensures Outcome(st, q, false, row, false, report)
  {
    Open(st);
    RelinkedKeeps(st, e, s);
    ReturnedReports(st, e, e, s);
    Close(q);
  }

  lemma StayingSwept(st: State, s: Ref, e: Ref, d: Data, deadline: int)
    requires OwnedListed(st.serviceList, st.owner) && s in st.owner && st.owner[s] == e
    ensures Swept(SetRecord(st, Srv(s), d, deadline), e) == SetRecord(st, Srv(s), d, deadline)
  {
    assert s in st.serviceList[e];
  }

  /** A cached service that an SRV record leads to another host of the same interface. */
  ghost predicate Leaving(st: State, h: Host, e: Ref, f: Ref, s: Ref) {
    && EntryFor(st, h, f) && s in st.services && s in st.owner && st.owner[s] == e && e in st.entries
    && st.entries[e].netif == h.netif && st.entries[e].ip == h.ip && st.entries[e] != h
  }

  lemma LeavingFacts(st: State, h: Host, e: Ref, f: Ref, s: Ref)
    requires Valid(st) && Leaving(st, h, e, f, s)
    ensures var p := WithEntry(st, h, f);
            && Inv(p) && Tidy(p, {f}, {}) && Rows(p) == Rows(st) && Movable(p, e, f, s) && e != f
            && SvcKeyOf(p, s) == SvcKeyOf(st, s) && p.entries[f] == h && p.records == st.records
  {
    WithEntryKeeps(st, h, f);
    WithEntryTidy(st, h, f, {});
    WithEntryMovable(st, h, e, f, s);
  }

  lemma MovedFacts(p: State, q: State, e: Ref, f: Ref, s: Ref)
    requires Inv(p) && Tidy(p, {f}, {}) && Movable(p, e, f, s) && e != f && q == MoveService(p, e, f, s)
    ensures Inv(q) && Tidy(q, {e}, {}) && Rows(q) == Retarget(Rows(p), SvcKeyOf(p, s), p.entries[f].name)
    ensures Movable(q, f, e, s) && SvcKeyOf(q, s) == SvcKeyOf(p, s) && HostAt(q, OwnerOf(q, s)) == p.entries[f]
    ensures q.records == p.records
  {
    MovedKeeps(p, e, f, s);
    MoveFacts(p, e, f, s);
  }

  /** What finishing a move relies on. */
  ghost predicate InTransit(q: State, e: Ref, f: Ref, s: Ref) {
    && Indexed(q) && f == Home(q, Srv(s)) && s in q.marks
    && e in q.entries && e in q.serviceList && e in q.addrList && f in q.entries && f in q.serviceList
    && f in q.addrList
  }

  lemma IsInTransit(st: State, h: Host, e: Ref, f: Ref, s: Ref)
    requires Sound(st) && Leaving(st, h, e, f, s)
    ensures e in WithEntry(st, h, f).serviceList && f in WithEntry(st, h, f).serviceList
    ensures InTransit(MoveService(WithEntry(st, h, f), e, f, s), e, f, s)
  {
    Open(st);
    LeavingFacts(st, h, e, f, s);
    TransitOf(WithEntry(st, h, f), e, f, s);
  }

  lemma TransitOf(p: State, e: Ref, f: Ref, s: Ref)
    requires Indexed(p) && Domains(p) && Movable(p, e, f, s)
    ensures InTransit(MoveService(p, e, f, s), e, f, s)
  {
    MoveIndexed(p, e, f, s);
  }

  lemma FinishedMove(st: State, p: State, q: State, r: State, h: Host, e: Ref, f: Ref, s: Ref, d: Data, deadline: int)
    requires Valid(st) && Leaving(st, h, e, f, s) && d.SrvData? && p == WithEntry(st, h, f)
    requires e in p.serviceList && f in p.serviceList && q == MoveService(p, e, f, s)
    requires var swept := Swept(SetRecord(q, Srv(s), d, deadline), e); s in swept.marks && r == Mark(swept, s, SRV)
    ensures Valid(r) && Rows(r) == Upsert(Rows(st), Row(SrvKey(SvcKeyOf(st, s)), d, h.name, deadline))
  {
    LeavingFacts(st, h, e, f, s);
    MovedFacts(p, q, e, f, s);
    SrvMoved(p, q, e, s, h.name, d, deadline);
    MarkedValid(Swept(SetRecord(q, Srv(s), d, deadline), e), s, SRV);
  }

  lemma MovedReports(st: State, p: State, q: State, h: Host, e: Ref, f: Ref, s: Ref)
    requires Valid(st) && Leaving(st, h, e, f, s) && p == WithEntry(st, h, f)
    requires e in p.serviceList && f in p.serviceList && q == MoveService(p, e, f, s)
    ensures Reports(q) == Reports(st) && SvcKeyOf(q, s) == SvcKeyOf(st, s)
    ensures Inv(q) && Tidy(q, {e}, {}) && e in q.entries && s in q.services && Movable(q, f, e, s)
  {
    LeavingFacts(st, h, e, f, s);
    MovedFacts(p, q, e, f, s);
    InvOwned(st);
    WithEntryReports(st, h, f);
    MoveReports(p, e, f, s);
  }

  lemma SettledReports(q: State, r: State, e: Ref, s: Ref, d: Data, deadline: int)
    requires Inv(q) && e in q.entries && s in q.services && d.SrvData?
    requires var swept := Swept(SetRecord(q, Srv(s), d, deadline), e); s in swept.marks && r == Mark(swept, s, SRV)
    ensures Reports(r) == Reports(q) + {Report(SvcKeyOf(q, s), SRV)}
  {
    var p := SetRecord(q, Srv(s), d, deadline);
    StoreSingle(q, s, d, deadline);
    StoreReports(q, p);
    SweptReports(p, e);
    SweptKey(p, e, s);
    MarkReports(Swept(p, e), s, SRV);
  }

  lemma SweptKey(st: State, e: Ref, s: Ref)
    requires Domains(st) && Listed(st) && Placed(st) && e in st.entries && s in st.services
    ensures SvcKeyOf(Swept(st, e), s) == SvcKeyOf(st, s)
  {
    if !HasContent(st, e) {
      EmptyIsUnused(st, e);
      DroppedKey(st, e, s);
    }
  }

  lemma DroppedKey(st: State, e: Ref, s: Ref)
    requires Unused(st, e) && s in st.services
    ensures SvcKeyOf(DropEntry(st, e), s) == SvcKeyOf(st, s)
  {
  }

  lemma ReturnedReports(q: State, e: Ref, f: Ref, s: Ref)
    requires Inv(q) && Movable(q, f, e, s)
    ensures Reports(Swept(MoveService(q, f, e, s), f)) == Reports(q)
  {
    MoveKeeps(q, f, e, s);
    MoveReports(q, f, e, s);
    SweptReports(MoveService(q, f, e, s), f);
  }

  lemma UndoneMove(st: State, p: State, q: State, h: Host, e: Ref, f: Ref, s: Ref)
    requires Valid(st) && Leaving(st, h, e, f, s) && p == WithEntry(st, h, f) && Srv(s) !in st.records
    requires e in p.serviceList && f in p.serviceList && q == MoveService(p, e, f, s)
    requires f in q.serviceList && e in q.serviceList
    ensures var r := Swept(MoveService(q, f, e, s), f); Valid(r) && Rows(r) == Rows(st)
  {
    LeavingFacts(st, h, e, f, s);
    MovedFacts(p, q, e, f, s);
    NoSrvRowMoved(p, q, s, h.name);
    MovedBack(q, e, f, s);
  }

  lemma HasMoved(st: State, p: State, q: State, r: State, h: Host, e: Ref, f: Ref, s: Ref, d: Data, deadline: int)
    requires Sound(st) && Leaving(st, h, e, f, s) && d.SrvData? && p == WithEntry(st, h, f)
    requires e in p.serviceList && f in p.serviceList && q == MoveService(p, e, f, s)
    requires var swept := Swept(SetRecord(q, Srv(s), d, deadline), e); s in swept.marks && r == Mark(swept, s, SRV)
    ensures Outcome(st, r, true, Row(SrvKey(SvcKeyOf(st, s)), d, h.name, deadline), true, Report(SvcKeyOf(st, s), SRV))
  {
    Open(st);
    FinishedMove(st, p, q, r, h, e, f, s, d, deadline);
    FinishedReports(st, p, q, r, h, e, f, s, d, deadline);
    Close(r);
  }

  lemma FinishedReports(st: State, p: State, q: State, r: State, h: Host, e: Ref, f: Ref, s: Ref, d: Data,
                        deadline: int)
    requires Valid(st) && Leaving(st, h, e, f, s) && d.SrvData? && p == WithEntry(st, h, f)
    requires e in p.serviceList && f in p.serviceList && q == MoveService(p, e, f, s)
    requires var swept := Swept(SetRecord(q, Srv(s), d, deadline), e); s in swept.marks && r == Mark(swept, s, SRV)
    ensures Reports(r) == Reports(st) + {Report(SvcKeyOf(st, s), SRV)}
  {
    MovedReports(st, p, q, h, e, f, s);
    SettledReports(q, r, e, s, d, deadline);
  }

  lemma HasReturned(st: State, p: State, q: State, r: State, h: Host, e: Ref, f: Ref, s: Ref, row: Row, report: Report)
    requires Sound(st) && Leaving(st, h, e, f, s) && p == WithEntry(st, h, f) && Srv(s) !in st.records
    requires e in p.serviceList && f in p.serviceList && q == MoveService(p, e, f, s)
    requires f in q.serviceList && e in q.serviceList && r == Swept(MoveService(q, f, e, s), f)
    ensures Outcome(st, r, false, row, false, report)
  {
    Open(st);
    UndoneMove(st, p, q, h, e, f, s);
    UndoneReports(st, p, q, h, e, f, s);
    Close(r);
  }

  lemma UndoneReports(st: State, p: State, q: State, h: Host, e: Ref, f: Ref, s: Ref)
    requires Valid(st) && Leaving(st, h, e, f, s) && p == WithEntry(st, h, f)
    requires e in p.serviceList && f in p.serviceList && q == MoveService(p, e, f, s)
    requires f in q.serviceList && e in q.serviceList
    ensures Reports(Swept(MoveService(q, f, e, s), f)) == Reports(st)
  {
    MovedReports(st, p, q, h, e, f, s);
    ReturnedReports(q, e, f, s);
  }

  lemma SrvMoved(st: State, q: State, e: Ref, s: Ref, name: string, d: Data, deadline: int)
    requires Inv(q) && Tidy(q, {e}, {}) && e in q.entries && d.SrvData? && s in q.services
    requires Rows(q) == Retarget(Rows(st), SvcKeyOf(st, s), name)
    requires SvcKeyOf(q, s) == SvcKeyOf(st, s) && HostAt(q, OwnerOf(q, s)).name == name
    ensures var p := Swept(SetRecord(q, Srv(s), d, deadline), e);
            Valid(p) && Rows(p) == Upsert(Rows(st), Row(SrvKey(SvcKeyOf(st, s)), d, name, deadline))
  {
    SrvAfterMove(q, e, s, d, deadline);
    UpsertRetarget(Rows(st), SvcKeyOf(st, s), name, SingleRow(q, s, d, deadline));
  }

  lemma NoSrvRowMoved(p: State, q: State, s: Ref, name: string)
    requires Inv(p) && s in p.services && Srv(s) !in p.records && Rows(q) == Retarget(Rows(p), SvcKeyOf(p, s), name)
    ensures Rows(q) == Rows(p)
  {
    InvOwned(p);
    NoSrvRow(p, s);
    RetargetNothing(Rows(p), SvcKeyOf(p, s), name);
  }

  // ------------------------------------------------------------------ subtypes

  function SubRow(svc: SvcKey, d: Data, deadline: int): (r: Row)
    requires d.SubData?
  {
    Row(SubKey(svc, d.name), d, "", deadline)
  }

  ghost predicate SubtypeSpec(st: State, q: State, r: Result, svc: SvcKey, name: string, ttl: nat, deadline: int) {
    RecordSpec(st, q, r, SubRow(svc, SubData(name, ttl, true), deadline), SameTtl(ttl), SUBTYPE)
  }

  lemma SubtypeRefreshed(st: State, q: State, s: Ref, t: Ref, name: string, ttl: nat, deadline: int, r: Result)
    requires Sound(st) && s in st.services && s in st.marks && Sub(s, t) in st.records && st.records[Sub(s, t)].SubData?
    requires SubName(st, s, t) == name
    requires var d := st.records[Sub(s, t)];
             q == MarkIf(SetRecord(st, Sub(s, t), AgainSubtype(d, ttl), deadline), d.ttl != ttl, s, SUBTYPE)
    requires r == if st.records[Sub(s, t)].ttl != ttl then Updated else NoChange
    ensures SubtypeSpec(st, q, r, SvcKeyOf(st, s), name, ttl, deadline)
  {
    var row := SubRow(SvcKeyOf(st, s), SubData(name, ttl, true), deadline);
    SubtypeSetAgain(st, q, s, t, ttl, deadline);
    if r.Updated? {
      UpdateFollows(st, Rows(q), Sub(s, t), row, SameTtl(ttl));
    } else {
      NoChangeFollows(st, Rows(q), Sub(s, t), row, SameTtl(ttl));
    }
  }

  lemma SubtypeSetAgain(st: State, q: State, s: Ref, t: Ref, ttl: nat, deadline: int)
    requires Sound(st) && s in st.services && s in st.marks && Sub(s, t) in st.records && st.records[Sub(s, t)].SubData?
    requires var d := st.records[Sub(s, t)];
             q == MarkIf(SetRecord(st, Sub(s, t), AgainSubtype(d, ttl), deadline), d.ttl != ttl, s, SUBTYPE)
    ensures var d := st.records[Sub(s, t)];
            Outcome(st, q, true, SubRow(SvcKeyOf(st, s), AgainSubtype(d, ttl), deadline), d.ttl != ttl,
                    Report(SvcKeyOf(st, s), SUBTYPE))
  {
    var d := st.records[Sub(s, t)];
    Open(st);
    SubtypeAgain(st, q, s, t, ttl, deadline);
    KnownReports(st, s, Sub(s, t), AgainSubtype(d, ttl), deadline, d.ttl != ttl, SUBTYPE);
    Close(q);
  }

  lemma SubtypeAppended(st: State, q: State, s: Ref, name: string, ttl: nat, deadline: int, r: Result)
    requires Sound(st) && s in st.services && s in st.marks && s in st.subtypeList && NoSubtype(st, s, name)
    requires r.Error? || r.Updated?
    requires q == if r.Updated? then Mark(NewSubtype(st, s, SubData(name, ttl, true), deadline), s, SUBTYPE) else st
    ensures SubtypeSpec(st, q, r, SvcKeyOf(st, s), name, ttl, deadline)
  {
    if r.Updated? {
      var d := SubData(name, ttl, true);
      SubtypeSetNew(st, q, s, d, deadline);
      SubtypeIsAbsent(st, s, name);
      UpdateFollows(st, Rows(q), Sub(s, st.next), SubRow(SvcKeyOf(st, s), d, deadline), SameTtl(ttl));
    }
  }

  lemma SubtypeSetNew(st: State, q: State, s: Ref, d: Data, deadline: int)
    requires Sound(st) && s in st.services && s in st.marks && s in st.subtypeList && d.SubData?
    requires NoSubtype(st, s, d.name)
    requires q == Mark(NewSubtype(st, s, d, deadline), s, SUBTYPE)
    ensures Outcome(st, q, true, SubRow(SvcKeyOf(st, s), d, deadline), true, Report(SvcKeyOf(st, s), SUBTYPE))
  {
    Open(st);
    assert Tidy(st, {}, {s});
    SubtypeAdded(st, q, s, d, deadline);
    NewSubtypeReports(st, s, d, deadline);
    Close(q);
  }

  lemma FirstSubtypeStored(st: State, p: State, q: State, h: Host, e: Ref, n: Names, s: Ref, name: string, ttl: nat,
                           deadline: int)
    requires Sound(st) && NonEmptyNames(n) && NoService(st, ServiceKey(h, n)) && NewlyCreated(st, p, h, e, n, s)
    requires s in p.marks && s in p.subtypeList
    requires q == Mark(NewSubtype(p, s, SubData(name, ttl, true), deadline), s, SUBTYPE)
    ensures SubtypeSpec(st, q, Added, ServiceKey(h, n), name, ttl, deadline)
  {
    var d := SubData(name, ttl, true);
    FirstSubtypeSet(st, p, q, h, e, n, s, d, deadline);
    FirstSubtypeReports(st, p, q, h, e, n, s, d, deadline);
    AddFollows(st, Rows(q), SubRow(ServiceKey(h, n), d, deadline), SameTtl(ttl));
  }

  lemma FirstSubtypeSet(st: State, p: State, q: State, h: Host, e: Ref, n: Names, s: Ref, d: Data, deadline: int)
    requires Sound(st) && NonEmptyNames(n) && NoService(st, ServiceKey(h, n)) && NewlyCreated(st, p, h, e, n, s)
    requires s in p.marks && s in p.subtypeList && d.SubData? && q == Mark(NewSubtype(p, s, d, deadline), s, SUBTYPE)
    ensures Sound(q) && Rows(q) == Upsert(Rows(st), SubRow(ServiceKey(h, n), d, deadline))
  {
    Open(st);
    CreatedInv(st, h, e, n);
    CreatedMore(st, h, e, n);
    NoRecordNoSubtype(p, s, d.name);
    SubtypeAdded(p, q, s, d, deadline);
    Close(q);
  }

  lemma FirstSubtypeReports(st: State, p: State, q: State, h: Host, e: Ref, n: Names, s: Ref, d: Data, deadline: int)
    requires Sound(st) && NewlyCreated(st, p, h, e, n, s)
    requires s in p.marks && s in p.subtypeList && q == Mark(NewSubtype(p, s, d, deadline), s, SUBTYPE)
    ensures Reports(q) == Reports(st) + {Report(ServiceKey(h, n), SUBTYPE)}
  {
    Open(st);
    CreatedMore(st, h, e, n);
    CreatedReports(st, h, e, n);
    NewSubtypeReports(p, s, d, deadline);
  }

  lemma NoRecordNoSubtype(st: State, s: Ref, name: string)
    requires Placed(st) && s in st.subtypeList && !HasRecord(st, s)
    ensures NoSubtype(st, s, name)
  {
    EmptyServiceHasNoRecord(st, s);
  }

  // ------------------------------------------------------------------ addresses

  function AdrRow(h: Host, addr: Ip, ttl: nat, deadline: int): (r: Row) {
    Row(AdrKey(h, addr), AdrData(addr, ttl), "", deadline)
  }

  /** An address of a host was received with a time to live. */
  ghost predicate AddrSpec(st: State, q: State, r: Result, row: Row)
    requires row.key.AdrKey?
  {
    && Sound(q) && r != Added && Rows(q) == (if r.Error? then Rows(st) else Upsert(Rows(st), row))
    && (r.Updated? ==> forall x | x in Rows(st) && x.key == row.key :: x.data.ttl != row.data.ttl)
    && (r.NoChange? ==> exists x :: x in Rows(st) && x.key == row.key && x.data == row.data)
    && Reports(q) == if r.Updated? then Reports(st) + HostReports(st, row.key.host) else Reports(st)
  }

  lemma AddrReady(st: State, p: State, h: Host, e: Ref)
    requires Sound(st) && EntryFor(st, h, e) && p == WithEntry(st, h, e)
    ensures Indexed(p) && Fresh(p) && Placed(p) && e in p.entries && p.entries[e] == h && e in p.addrList
    ensures e in p.serviceList
    ensures e !in st.entries ==> p.addrList[e] == []
  {
    Open(st);
    WithEntryKeeps(st, h, e);
  }

  lemma ServicesAreMarked(st: State, p: State, h: Host, e: Ref)
    requires Sound(st) && EntryFor(st, h, e) && p == WithEntry(st, h, e) && e in p.serviceList
    ensures forall s | s in p.serviceList[e] :: s in p.marks
  {
    if e in st.entries {
      Open(st);
      ListsAreMarked(st, e);
    }
  }

  lemma ListsAreMarked(st: State, e: Ref)
    requires Domains(st) && ListsOwned(st.serviceList, st.owner) && e in st.serviceList
    ensures forall s | s in st.serviceList[e] :: s in st.marks
  {
  }

  lemma AddrSet(st: State, q: State, e: Ref, a: Ref, ttl: nat, deadline: int)
    requires Sound(st) && e in st.entries && Adr(e, a) in st.records && st.records[Adr(e, a)].AdrData?
    requires q == SetRecord(st, Adr(e, a), AdrData(st.records[Adr(e, a)].addr, ttl), deadline)
    ensures Sound(q) && Rows(q) == Upsert(Rows(st), AdrRow(st.entries[e], st.records[Adr(e, a)].addr, ttl, deadline))
  {
    Open(st);
    StorableAgain(st, Adr(e, a), ttl);
    AddrStored(st, e, a, AdrData(st.records[Adr(e, a)].addr, ttl), deadline);
    Close(q);
  }

  lemma AddrIsCached(st: State, e: Ref, a: Ref)
    requires Sound(st) && e in st.entries && Adr(e, a) in st.records && st.records[Adr(e, a)].AdrData?
    ensures var k := AdrKey(st.entries[e], st.records[Adr(e, a)].addr);
            && (exists x :: x in Rows(st) && x.key == k && x.data == st.records[Adr(e, a)])
            && (forall x | x in Rows(st) && x.key == k :: x.data == st.records[Adr(e, a)])
  {
    Open(st);
    var x := CachedRow(st, Adr(e, a));
  }

  lemma AddrAgain(st: State, p: State, q: State, e: Ref, a: Ref, ttl: nat, deadline: int, r: Result)
    requires Sound(st) && e in st.entries && e in st.serviceList && Adr(e, a) in st.records
    requires st.records[Adr(e, a)].AdrData?
    requires p == SetRecord(st, Adr(e, a), AdrData(st.records[Adr(e, a)].addr, ttl), deadline)
    requires forall s | s in st.serviceList[e] :: s in p.marks
    requires r == if st.records[Adr(e, a)].ttl != ttl then Updated else NoChange
    requires q == if r.Updated? then MarkAll(p, st.serviceList[e], ADDR) else p
    ensures AddrSpec(st, q, r, AdrRow(st.entries[e], st.records[Adr(e, a)].addr, ttl, deadline))
  {
    AddrSet(st, p, e, a, ttl, deadline);
    AddrIsCached(st, e, a);
    StoreReports(st, p);
    if r.Updated? {
      MarkedSound(p, q, st.serviceList[e]);
      MarkAllReports(p, st.serviceList[e], ADDR);
      ReportsOfHost(st, p, e);
    }
  }

  lemma MarkedSound(st: State, q: State, list: seq<Ref>)
    requires Sound(st) && (forall s | s in list :: s in st.marks) && q == MarkAll(st, list, ADDR)
    ensures Sound(q) && Rows(q) == Rows(st)
  {
    Open(st);
    MarkAllValid(st, list, ADDR);
    Close(q);
  }

  lemma ReportsOfHost(st: State, p: State, e: Ref)
    requires Sound(st) && e in st.entries && e in st.serviceList && forall s :: SvcKeyOf(p, s) == SvcKeyOf(st, s)
    ensures ReportsAbout(p, st.serviceList[e], ADDR) == HostReports(st, st.entries[e])
  {
    Open(st);
    ListedReports(st, e);
  }

  lemma AddrAppendedTo(st: State, p: State, q: State, h: Host, e: Ref, addr: Ip, ttl: nat, deadline: int)
    requires Sound(st) && EntryFor(st, h, e) && p == WithEntry(st, h, e) && e in p.addrList
    requires (forall b | Adr(e, b) in p.records :: AddrAt(p, e, b) != addr)
    requires q == NewAddr(p, e, AdrData(addr, ttl), deadline)
    ensures Sound(q) && Rows(q) == Upsert(Rows(st), AdrRow(h, addr, ttl, deadline))
  {
    Open(st);
    WithEntryKeeps(st, h, e);
    WithEntryTidy(st, h, e, {});
    AddrAdded(p, e, AdrData(addr, ttl), deadline);
    Close(q);
  }

  lemma AddrIsAbsent(st: State, p: State, h: Host, e: Ref, addr: Ip)
    requires Sound(st) && EntryFor(st, h, e) && p == WithEntry(st, h, e)
    requires forall b | Adr(e, b) in p.records :: AddrAt(p, e, b) != addr
    ensures !HasKey(Rows(st), AdrKey(h, addr))
  {
    Open(st);
    InvOwned(st);
    if e in st.entries {
      AbsentAddr(st, e, addr);
    } else {
      AbsentHost(st, h, addr);
    }
  }

  lemma AddrNewReports(st: State, p: State, q: State, h: Host, e: Ref)
    requires Sound(st) && EntryFor(st, h, e) && p == WithEntry(st, h, e) && e in p.serviceList
    requires q.marks == p.marks && q.services == p.services && q.owner == p.owner && q.entries == p.entries
    requires forall s | s in p.serviceList[e] :: s in q.marks
    ensures Reports(MarkAll(q, p.serviceList[e], ADDR)) == Reports(st) + HostReports(st, h)
  {
    MarkAllReports(q, p.serviceList[e], ADDR);
    StoreReports(p, q);
    if e in st.entries {
      ReportsOfHost(st, q, e);
    } else {
      NewHostReports(st, h, e);
    }
  }

  lemma NewHostReports(st: State, h: Host, e: Ref)
    requires Sound(st) && EntryFor(st, h, e) && e !in st.entries
    ensures Reports(WithEntry(st, h, e)) == Reports(st) && HostReports(st, h) == {}
  {
    Open(st);
    InvOwned(st);
    WithEntryReports(st, h, e);
  }

  lemma AddrNew(st: State, p: State, q: State, m: State, h: Host, e: Ref, addr: Ip, ttl: nat, deadline: int)
    requires Sound(st) && EntryFor(st, h, e) && p == WithEntry(st, h, e) && e in p.addrList && e in p.serviceList
    requires (forall b | Adr(e, b) in p.records :: AddrAt(p, e, b) != addr)
    requires q == NewAddr(p, e, AdrData(addr, ttl), deadline)
    requires (forall s | s in p.serviceList[e] :: s in q.marks) && m == MarkAll(q, p.serviceList[e], ADDR)
    ensures AddrSpec(st, m, Updated, AdrRow(h, addr, ttl, deadline))
  {
    AddrAppendedTo(st, p, q, h, e, addr, ttl, deadline);
    AddrIsAbsent(st, p, h, e, addr);
    MarkedSound(q, m, p.serviceList[e]);
    AddrNewReports(st, p, q, h, e);
  }

  lemma AddrGone(st: State, q: State, h: Host, e: Ref, row: Row)
    requires Sound(st) && EntryFor(st, h, e) && q == Swept(WithEntry(st, h, e), e) && row.key.AdrKey?
    ensures AddrSpec(st, q, Error, row)
  {
    NotCreated(st, h, e, q, row, Report(SvcKey(0, 0, Names("", "", "")), ADDR));
  }

  lemma NoHostLeaves(st: State, h: Host, addr: Ip)
    requires Sound(st) && forall e | e in st.entries :: st.entries[e] != h
    ensures ByeSpec(st, st, NoChange, AdrKey(h, addr))
  {
    Open(st);
    InvOwned(st);
    AbsentHost(st, h, addr);
  }

  lemma NoAddrLeaves(st: State, e: Ref, addr: Ip)
    requires Sound(st) && e in st.entries && forall a | Adr(e, a) in st.records :: AddrAt(st, e, a) != addr
    ensures ByeSpec(st, st, NoChange, AdrKey(st.entries[e], addr))
  {
    Open(st);
    InvOwned(st);
    AbsentAddr(st, e, addr);
  }

  /** A browse is interested in a service of this host. */
  ghost predicate Awaited(st: State, h: Host, consumed: (string, string) -> bool) {
    exists e :: e in st.entries && st.entries[e] == h && HasConsumer(st, e, consumed)
  }

  ghost predicate HasConsumer(st: State, e: Ref, consumed: (string, string) -> bool) {
    exists s :: s in st.services && s in st.owner && st.owner[s] == e
                && consumed(st.services[s].service, st.services[s].proto)
  }

  lemma OneHost(st: State, e: Ref, consumed: (string, string) -> bool)
    requires Sound(st) && e in st.entries
    ensures Awaited(st, st.entries[e], consumed) <==> HasConsumer(st, e, consumed)
  {
    Open(st);
  }

  lemma ServicesOf(st: State, e: Ref)
    requires Sound(st) && e in st.entries
    ensures e in st.serviceList
    ensures forall s | s in st.serviceList[e] :: s in st.services && s in st.owner && st.owner[s] == e
    ensures forall s | s in st.services && s in st.owner && st.owner[s] == e :: s in st.serviceList[e]
  {
    Open(st);
    ServicesOfEntry(st, e);
  }

  lemma ServicesOfEntry(st: State, e: Ref)
    requires Domains(st) && ListsOwned(st.serviceList, st.owner) && OwnedListed(st.serviceList, st.owner)
    requires e in st.entries
    ensures e in st.serviceList
    ensures forall s | s in st.serviceList[e] :: s in st.services && s in st.owner && st.owner[s] == e
    ensures forall s | s in st.services && s in st.owner && st.owner[s] == e :: s in st.serviceList[e]
  {
  }
}
