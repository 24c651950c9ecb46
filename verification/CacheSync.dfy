/** Reporting what was marked to the browses. */
module CacheSync {
  import opened Common
  import opened CacheIndex
  import opened CacheModel
  import opened CacheSteps
  import opened CacheViews
  import opened CacheUpdates
  import opened CacheReports
  import opened CacheSpec
  import opened CacheTrim

  /** The notifier of the browse with this index is called about the service. */
  datatype Notice = Notice(browse: nat, svc: SvcKey)

  // ------------------------------------------------------------------ who is to be told

  /** The browse asks for the service: it has the PTR record the browse looks for. */
  ghost predicate Matches(rows: set<Row>, b: Browse, svc: SvcKey) {
    && b.running && b.notifier && b.service == svc.names.service && b.proto == svc.names.proto
    && HasKey(rows, if b.subtype == "" then PtrKey(svc) else SubKey(svc, b.subtype))
  }

  ghost predicate PendingSubtype(rows: set<Row>, svc: SvcKey, subtype: string) {
    exists x :: x in rows && x.key == SubKey(svc, subtype) && x.data.SubData? && x.data.pending
  }

  /** A change of SRV, TXT or addresses is for every browse of the service, one of the PTR record for the
      browses without subtype, one of a subtype for the browses of that subtype. */
  ghost predicate Due(rows: set<Row>, reports: set<Report>, b: Browse, svc: SvcKey) {
    && Matches(rows, b, svc)
    && (|| Report(svc, SRV) in reports || Report(svc, TXT) in reports || Report(svc, ADDR) in reports
        || if b.subtype == "" then Report(svc, PTR) in reports
           else Report(svc, SUBTYPE) in reports && PendingSubtype(rows, svc, b.subtype))
  }

  // The same, of a service in the heap.

  ghost predicate MatchesAt(st: State, b: Browse, s: Ref) {
    && b.running && b.notifier && b.service == NamesAt(st, s).service && b.proto == NamesAt(st, s).proto
    && if b.subtype == "" then Ptr(s) in st.records else !NoSubtype(st, s, b.subtype)
  }

  ghost predicate PendingAt(st: State, s: Ref, subtype: string) {
    exists t :: Sub(s, t) in st.records && SubName(st, s, t) == subtype && IsPending(st, s, t)
  }

  ghost predicate DueAt(st: State, b: Browse, s: Ref) {
    && s in st.marks && MatchesAt(st, b, s)
    && (|| SRV in st.marks[s] || TXT in st.marks[s] || ADDR in st.marks[s]
        || if b.subtype == "" then PTR in st.marks[s] else SUBTYPE in st.marks[s] && PendingAt(st, s, b.subtype))
  }

  lemma KeyIsOfService(st: State, s: Ref, n: Node)
    requires UniqueServices(st) && Placed(st) && s in st.services && n.rec in st.records && n.entry == Home(st, n.rec)
    ensures RowOf(st, n).key == PtrKey(SvcKeyOf(st, s)) <==> n.rec == Ptr(s)
    ensures forall name :: RowOf(st, n).key == SubKey(SvcKeyOf(st, s), name) <==>
                           n.rec.Sub? && n.rec.s == s && SubName(st, s, n.rec.t) == name
  {
    if !n.rec.Adr? {
      assert SvcKeyOf(st, n.rec.s) == SvcKeyOf(st, s) ==> n.rec.s == s;
    }
  }

  lemma PtrIsFlat(st: State, s: Ref)
    requires UniqueServices(st) && Placed(st) && Indexed(st) && s in st.services
    ensures HasKey(Rows(st), PtrKey(SvcKeyOf(st, s))) <==> Ptr(s) in st.records
  {
    var k := PtrKey(SvcKeyOf(st, s));
    if HasKey(Rows(st), k) {
      var x :| x in Rows(st) && x.key == k;
      var n :| n in st.expiry && x == RowOf(st, n);
      KeyIsOfService(st, s, n);
    }
    if Ptr(s) in st.records {
      PresentHasKey(st, Ptr(s));
    }
  }

  lemma SubtypeIsFlat(st: State, s: Ref, name: string)
    requires UniqueServices(st) && Placed(st) && Indexed(st) && s in st.services
    ensures HasKey(Rows(st), SubKey(SvcKeyOf(st, s), name)) <==> !NoSubtype(st, s, name)
  {
    var k := SubKey(SvcKeyOf(st, s), name);
    if HasKey(Rows(st), k) {
      var x :| x in Rows(st) && x.key == k;
      var n :| n in st.expiry && x == RowOf(st, n);
      KeyIsOfService(st, s, n);
      assert Sub(s, n.rec.t) in st.records;
    }
    if !NoSubtype(st, s, name) {
      var t :| Sub(s, t) in st.records && SubName(st, s, t) == name;
      PresentHasKey(st, Sub(s, t));
    }
  }

  lemma PendingIsFlat(st: State, s: Ref, name: string)
    requires UniqueServices(st) && Placed(st) && Indexed(st) && s in st.services
    ensures PendingSubtype(Rows(st), SvcKeyOf(st, s), name) <==> PendingAt(st, s, name)
  {
    var k := SubKey(SvcKeyOf(st, s), name);
    if PendingSubtype(Rows(st), SvcKeyOf(st, s), name) {
      var x :| x in Rows(st) && x.key == k && x.data.SubData? && x.data.pending;
      var n :| n in st.expiry && x == RowOf(st, n);
      KeyIsOfService(st, s, n);
      assert Sub(s, n.rec.t) in st.records && IsPending(st, s, n.rec.t);
    }
    if PendingAt(st, s, name) {
      var t :| Sub(s, t) in st.records && SubName(st, s, t) == name && IsPending(st, s, t);
      var n :| n in st.expiry && n.rec == Sub(s, t);
      assert RowOf(st, n) in Rows(st);
      KeyIsOfService(st, s, n);
    }
  }

  lemma MarkIsReport(st: State, s: Ref, k: Kind)
    requires UniqueServices(st) && Domains(st) && s in st.services
    ensures Report(SvcKeyOf(st, s), k) in Reports(st) <==> k in st.marks[s]
  {
    if Report(SvcKeyOf(st, s), k) in Reports(st) {
      var u, j :| u in st.marks && j in st.marks[u] && Report(SvcKeyOf(st, s), k) == Report(SvcKeyOf(st, u), j);
      assert u == s;
    }
  }

  lemma MatchIsFlat(st: State, b: Browse, s: Ref)
    requires Sound(st) && s in st.services
    ensures Matches(Rows(st), b, SvcKeyOf(st, s)) <==> MatchesAt(st, b, s)
  {
    Open(st);
    PtrIsFlat(st, s);
    SubtypeIsFlat(st, s, b.subtype);
  }

  lemma MarksAreFlat(st: State, s: Ref)
    requires Sound(st) && s in st.services
    ensures s in st.marks && forall k :: Report(SvcKeyOf(st, s), k) in Reports(st) <==> k in st.marks[s]
  {
    Open(st);
    forall k ensures Report(SvcKeyOf(st, s), k) in Reports(st) <==> k in st.marks[s] {
      MarkIsReport(st, s, k);
    }
  }

  lemma SubtypesAreFlat(st: State, s: Ref, name: string)
    requires Sound(st) && s in st.services
    ensures PendingSubtype(Rows(st), SvcKeyOf(st, s), name) <==> PendingAt(st, s, name)
  {
    Open(st);
    PendingIsFlat(st, s, name);
  }

  lemma DueIsFlat(st: State, b: Browse, s: Ref)
    requires Sound(st) && s in st.services
    ensures Due(Rows(st), Reports(st), b, SvcKeyOf(st, s)) <==> DueAt(st, b, s)
  {
    MatchIsFlat(st, b, s);
    MarksAreFlat(st, s);
    SubtypesAreFlat(st, s, b.subtype);
  }

  /** Only cached services match. */
  lemma MatchIsCached(st: State, b: Browse, svc: SvcKey)
    requires Sound(st) && Matches(Rows(st), b, svc)
    ensures exists s :: s in st.services && SvcKeyOf(st, s) == svc
  {
    Open(st);
    if NoService(st, svc) {
      NoServiceNoRow(st, svc);
    }
  }

  // ------------------------------------------------------------------ clearing the marks

  function SettledData(d: Data): (r: Data) {
    if d.SubData? then d.(pending := false) else d
  }

  function SettledRow(x: Row): (r: Row) {
    x.(data := SettledData(x.data))
  }

  /** The marks of these services are gone, and with them the marks of their subtypes. */
  function Settle(st: State, done: set<Ref>): (q: State) {
    var marks := map s | s in st.marks :: if s in done then {} else st.marks[s];
    var records := map r | r in st.records ::
                     if r.Sub? && r.s in done then SettledData(st.records[r]) else st.records[r];
    st.(marks := marks, records := records, syncPending := false)
  }

  /** service_cache_clear_sync_out */
  function ClearOne(st: State, s: Ref): (q: State)
    requires s in st.marks
  {
    st.(marks := st.marks[s := {}],
    records := map r | r in st.records :: if r.Sub? && r.s == s then SettledData(st.records[r]) else st.records[r])
  }

  lemma ClearSettles(st: State, done: set<Ref>, s: Ref)
    requires s in st.marks
    ensures ClearOne(Settle(st, done), s) == Settle(st, done + {s})
  {
    var a, b := ClearOne(Settle(st, done), s), Settle(st, done + {s});
    assert a.marks == b.marks;
    assert a.records == b.records;
  }

  /** A service without marks has nothing to clear. */
  lemma NothingToClear(st: State, done: set<Ref>, s: Ref)
    requires s in st.marks && st.marks[s] == {} && (forall r | r in st.records :: Typed(r, st.records[r]))
    requires forall t | Sub(s, t) in st.records :: !IsPending(st, s, t)
    ensures Settle(st, done + {s}) == Settle(st, done)
  {
    var a, b := Settle(st, done), Settle(st, done + {s});
    assert a.marks == b.marks;
    forall r | r in st.records && r.Sub? && r.s == s ensures SettledData(st.records[r]) == st.records[r] {
      assert r == Sub(s, r.t);
    }
    assert a.records == b.records;
  }

  lemma UnmarkedIsSettled(st: State, s: Ref)
    requires Sound(st) && s in st.marks && st.marks[s] == {}
    ensures (forall r | r in st.records :: Typed(r, st.records[r]))
    ensures forall t | Sub(s, t) in st.records :: !IsPending(st, s, t)
  {
    Open(st);
  }

  lemma DueElsewhere(st: State, done: set<Ref>, b: Browse, s: Ref)
    requires s !in done
    ensures DueAt(Settle(st, done), b, s) <==> DueAt(st, b, s)
  {
    var q := Settle(st, done);
    forall t ensures SubName(q, s, t) == SubName(st, s, t) && IsPending(q, s, t) == IsPending(st, s, t)
    {
      assert Sub(s, t) in q.records <==> Sub(s, t) in st.records;
    }
    assert NoSubtype(q, s, b.subtype) <==> NoSubtype(st, s, b.subtype);
    assert PendingAt(q, s, b.subtype) <==> PendingAt(st, s, b.subtype);
  }

  lemma SettleReads(st: State, done: set<Ref>)
    ensures var q := Settle(st, done);
            && (forall r :: r in q.records <==> r in st.records)
            && (forall s, t :: SubName(q, s, t) == SubName(st, s, t))
            && (forall e, a :: AddrAt(q, e, a) == AddrAt(st, e, a))
            && (forall s :: SvcKeyOf(q, s) == SvcKeyOf(st, s))
  {
  }

  lemma SettlePlaced(st: State, done: set<Ref>)
    requires Placed(st)
    ensures Placed(Settle(st, done))
  {
    var q := Settle(st, done);
    assert forall r :: r in q.records <==> r in st.records;
  }

  lemma SettleReady(st: State, q: State, done: set<Ref>)
    requires Sound(st) && q == Settle(st, done)
    ensures Placed(q) && UniqueSubtypes(q)
  {
    Open(st);
    SettlePlaced(st, done);
    SettleReads(st, done);
  }

  lemma SettleNamed(st: State, done: set<Ref>)
    requires Named(st)
    ensures Named(Settle(st, done))
  {
    var q := Settle(st, done);
    SettleReads(st, done);
    assert SameServiceKeys(st, q) && SameRecordNames(st, q);
    NamesCarryOver(st, q);
  }

  lemma SettleIndexed(st: State, done: set<Ref>)
    requires Indexed(st)
    ensures Indexed(Settle(st, done))
  {
    var q := Settle(st, done);
    assert forall r :: Home(q, r) == Home(st, r);
    assert forall r :: r in q.records <==> r in st.records;
  }

  lemma SettleRest(st: State, done: set<Ref>)
    requires Domains(st) && Listed(st) && Fresh(st)
    ensures Domains(Settle(st, done)) && Listed(Settle(st, done)) && Fresh(Settle(st, done))
  {
    var q := Settle(st, done);
    assert forall r :: r in q.records <==> r in st.records;
  }

  lemma SettleSynced(st: State, done: set<Ref>)
    requires Domains(st) && Placed(st) && forall s | s in st.services :: s in done
    ensures Synced(Settle(st, done))
  {
    var q := Settle(st, done);
    forall s, t | Sub(s, t) in q.records ensures !IsPending(q, s, t) {
      assert Sub(s, t) in st.records && s in done;
    }
  }

  lemma SettleTidy(st: State, done: set<Ref>)
    requires Tidy(st, {}, {})
    ensures Tidy(Settle(st, done), {}, {})
  {
    var q := Settle(st, done);
    assert forall s :: HasRecord(q, s) == HasRecord(st, s);
    assert forall e :: HasContent(q, e) == HasContent(st, e);
  }

  lemma SettleSound(st: State, q: State, done: set<Ref>)
    requires Sound(st) && q == Settle(st, done) && forall s | s in st.services :: s in done
    ensures Sound(q)
  {
    Open(st);
    SettleRest(st, done);
    SettlePlaced(st, done);
    SettleNamed(st, done);
    SettleIndexed(st, done);
    SettleSynced(st, done);
    SettleTidy(st, done);
    Close(q);
  }

  lemma SettledNode(st: State, q: State, done: set<Ref>, n: Node)
    requires q == Settle(st, done) && n.rec in st.records && (n.rec.Sub? ==> n.rec.s in done)
    requires Typed(n.rec, st.records[n.rec])
    ensures RowOf(q, n) == SettledRow(RowOf(st, n))
  {
  }

  lemma SettleRows(st: State, q: State, done: set<Ref>)
    requires q == Settle(st, done) && Placed(st) && Indexed(st) && forall s | s in st.services :: s in done
    ensures Rows(q) == set x | x in Rows(st) :: SettledRow(x)
  {
    forall n | n in st.expiry ensures RowOf(q, n) == SettledRow(RowOf(st, n)) {
      SettledNode(st, q, done, n);
    }
    var rows := set x | x in Rows(st) :: SettledRow(x);
    forall y ensures y in Rows(q) <==> y in rows {
      if y in Rows(q) {
        var n :| n in st.expiry && y == RowOf(q, n);
        assert RowOf(st, n) in Rows(st);
      }
      if y in rows {
        var x :| x in Rows(st) && y == SettledRow(x);
        var n :| n in st.expiry && x == RowOf(st, n);
      }
    }
  }

  // ------------------------------------------------------------------ the pass

  ghost predicate Told(st: State, done: set<Ref>, notices: seq<Notice>, browses: seq<Browse>) {
    && (forall n <- notices ::
          n.browse < |browses| && exists s :: s in done && n.svc == SvcKeyOf(st, s) && DueAt(st, browses[n.browse], s))
    && (forall s, i | s in done && 0 <= i < |browses| && DueAt(st, browses[i], s) ::
          Notice(i, SvcKeyOf(st, s)) in notices)
  }

  function NoticesFor(indices: seq<nat>, svc: SvcKey): (r: seq<Notice>) {
    seq(|indices|, i requires 0 <= i < |indices| => Notice(indices[i], svc))
  }

  lemma NoticesHave(indices: seq<nat>, svc: SvcKey)
    ensures forall n :: n in NoticesFor(indices, svc) <==> n.svc == svc && n.browse in indices
  {
    var ns := NoticesFor(indices, svc);
    forall n ensures n in ns <==> n.svc == svc && n.browse in indices {
      if n.svc == svc && n.browse in indices {
        var i :| 0 <= i < |indices| && indices[i] == n.browse;
        assert ns[i] == n;
      }
    }
  }

  lemma {:induction false} NoticesOnce(indices: seq<nat>, svc: SvcKey)
    requires NoRepeat(indices)
    ensures NoRepeat(NoticesFor(indices, svc))
  {
    if indices != [] {
      assert NoticesFor(indices, svc)[1..] == NoticesFor(indices[1..], svc);
      NoticesHave(indices[1..], svc);
      NoticesOnce(indices[1..], svc);
    }
  }

  lemma Tell(st: State, done: set<Ref>, notices: seq<Notice>, browses: seq<Browse>, s: Ref, indices: seq<nat>)
    requires UniqueServices(st) && (forall u | u in done :: u in st.services) && s in st.services && s !in done
    requires Told(st, done, notices, browses) && NoRepeat(notices) && NoRepeat(indices)
    requires forall i :: i in indices <==> 0 <= i < |browses| && DueAt(st, browses[i], s)
    ensures var more := notices + NoticesFor(indices, SvcKeyOf(st, s));
            Told(st, done + {s}, more, browses) && NoRepeat(more)
  {
    var latest := NoticesFor(indices, SvcKeyOf(st, s));
    NoticesHave(indices, SvcKeyOf(st, s));
    NoticesOnce(indices, SvcKeyOf(st, s));
    assert forall u | u in done :: SvcKeyOf(st, u) != SvcKeyOf(st, s);
    NoRepeatJoin(notices, latest);
    ToldMore(st, done, notices, latest, browses, s, indices);
  }

  lemma ToldMore(st: State, done: set<Ref>, notices: seq<Notice>, latest: seq<Notice>, browses: seq<Browse>, s: Ref,
                 indices: seq<nat>)
    requires Told(st, done, notices, browses)
    requires forall i :: i in indices <==> 0 <= i < |browses| && DueAt(st, browses[i], s)
    requires forall n :: n in latest <==> n.svc == SvcKeyOf(st, s) && n.browse in indices
    ensures Told(st, done + {s}, notices + latest, browses)
  {
    forall n | n in notices + latest
      ensures n.browse < |browses|
      ensures exists u :: u in done + {s} && n.svc == SvcKeyOf(st, u) && DueAt(st, browses[n.browse], u)
    {
      if n in notices {
        var u :| u in done && n.svc == SvcKeyOf(st, u) && DueAt(st, browses[n.browse], u);
        assert u in done + {s};
      } else {
        assert s in done + {s};
      }
    }
  }

  /** No notice without news, no news without notice. */
  ghost predicate ToldAll(st: State, notices: seq<Notice>, browses: seq<Browse>) {
    && NoRepeat(notices)
    && forall i: nat, svc :: Notice(i, svc) in notices <==> i < |browses| && Due(Rows(st), Reports(st), browses[i], svc)
  }

  lemma ToldIsFlat(st: State, done: set<Ref>, notices: seq<Notice>, browses: seq<Browse>, i: nat, svc: SvcKey)
    requires Sound(st) && Told(st, done, notices, browses) && (forall s :: s in done <==> s in st.services)
    ensures Notice(i, svc) in notices <==> i < |browses| && Due(Rows(st), Reports(st), browses[i], svc)
  {
    if Notice(i, svc) in notices {
      var s :| s in done && svc == SvcKeyOf(st, s) && DueAt(st, browses[i], s);
      DueIsFlat(st, browses[i], s);
    }
    if i < |browses| && Due(Rows(st), Reports(st), browses[i], svc) {
      MatchIsCached(st, browses[i], svc);
      var s :| s in st.services && SvcKeyOf(st, s) == svc;
      DueIsFlat(st, browses[i], s);
    }
  }

  /** The outcome of reporting. */
  ghost predicate SyncSpec(st: State, q: State, notices: seq<Notice>, browses: seq<Browse>) {
    && Sound(q) && !q.syncPending && Reports(q) == {} && (Rows(q) == set x | x in Rows(st) :: SettledRow(x))
    && ToldAll(st, notices, browses)
  }

  lemma SyncDone(st: State, q: State, done: set<Ref>, notices: seq<Notice>, browses: seq<Browse>)
    requires Sound(st) && q == Settle(st, done) && (forall s :: s in done <==> s in st.services)
    requires Told(st, done, notices, browses) && NoRepeat(notices)
    ensures SyncSpec(st, q, notices, browses)
  {
    SettleSound(st, q, done);
    SettledRowsSound(st, q, done);
    forall i: nat, svc ensures Notice(i, svc) in notices <==>
                               i < |browses| && Due(Rows(st), Reports(st), browses[i], svc) {
      ToldIsFlat(st, done, notices, browses, i, svc);
    }
  }

  lemma SettledRowsSound(st: State, q: State, done: set<Ref>)
    requires Sound(st) && q == Settle(st, done) && forall s | s in st.services :: s in done
    ensures Reports(q) == {} && Rows(q) == set x | x in Rows(st) :: SettledRow(x)
  {
    Open(st);
    SettleRows(st, q, done);
  }

  lemma NoMarks(st: State)
    requires Sound(st) && !st.syncPending
    ensures forall s | s in st.marks :: st.marks[s] == {}
    ensures forall r | r in st.records && r.Sub? :: st.records[r].SubData? && !st.records[r].pending
  {
    Open(st);
    UnmarkedMarks(st);
    forall r | r in st.records && r.Sub? ensures st.records[r].SubData? && !st.records[r].pending {
      NotPending(st, r);
    }
  }

  lemma UnmarkedMarks(st: State)
    requires Synced(st) && !st.syncPending
    ensures forall s | s in st.marks :: st.marks[s] == {}
  {
  }

  lemma NotPending(st: State, r: Rec)
    requires Domains(st) && Placed(st) && Synced(st) && r in st.records && r.Sub?
    requires (forall s | s in st.marks :: st.marks[s] == {})
    ensures st.records[r].SubData? && !st.records[r].pending
  {
    assert Sub(r.s, r.t) in st.records && r.s in st.marks;
    assert !IsPending(st, r.s, r.t);
  }

  lemma SettledAlready(st: State, done: set<Ref>)
    requires !st.syncPending && forall s | s in st.marks :: st.marks[s] == {}
    requires forall r | r in st.records && r.Sub? :: st.records[r].SubData? && !st.records[r].pending
    ensures Settle(st, done) == st
  {
    var q := Settle(st, done);
    assert q.marks == st.marks;
    assert q.records == st.records;
  }

  /** Without the flag there is nothing to report. */
  lemma NothingToSync(st: State, done: set<Ref>, browses: seq<Browse>)
    requires Sound(st) && !st.syncPending
    ensures Settle(st, done) == st && Told(st, done, [], browses)
  {
    NoMarks(st);
    SettledAlready(st, done);
  }

  // ------------------------------------------------------------------ visiting every service

  lemma OneSubtype(st: State, s: Ref, t: Ref)
    requires UniqueSubtypes(st) && Sub(s, t) in st.records
    ensures PendingAt(st, s, SubName(st, s, t)) <==> IsPending(st, s, t)
  {
  }

  lemma Cleared(st: State, records: map<Rec, Data>, s: Ref)
    requires Placed(st) && s in st.subtypeList && s in st.marks && forall r :: r in records <==> r in st.records
    requires forall r | r in st.records ::
               records[r] == if r.Sub? && r.s == s && r.t in st.subtypeList[s] then SettledData(st.records[r])
               else st.records[r]
    ensures records == ClearOne(st, s).records
  {
    forall r | r in st.records ensures r.Sub? && r.s == s ==> r.t in st.subtypeList[s] {
      if r.Sub? && r.s == s {
        assert r == Sub(s, r.t);
      }
    }
  }

  lemma ListedSubtypes(st: State, s: Ref)
    requires Placed(st) && s in st.subtypeList
    ensures forall t | t in st.subtypeList[s] :: Sub(s, t) in st.records && st.records[Sub(s, t)].SubData?
  {
    forall t | t in st.subtypeList[s] ensures Sub(s, t) in st.records && st.records[Sub(s, t)].SubData? {
      assert Typed(Sub(s, t), st.records[Sub(s, t)]);
    }
  }

  lemma SyncReady(st: State, s: Ref)
    requires Sound(st) && s in st.services
    ensures s in st.marks && s in st.subtypeList && UniqueServices(st)
  {
    Open(st);
  }

  lemma NothingDue(st: State, done: set<Ref>, notices: seq<Notice>, browses: seq<Browse>, s: Ref)
    requires s in st.marks && st.marks[s] == {} && Told(st, done, notices, browses)
    ensures Told(st, done + {s}, notices, browses)
  {
    forall n | n in notices
      ensures exists u :: u in done + {s} && n.svc == SvcKeyOf(st, u) && DueAt(st, browses[n.browse], u)
    {
      var u :| u in done && n.svc == SvcKeyOf(st, u) && DueAt(st, browses[n.browse], u);
      assert u in done + {s};
    }
  }

  lemma StillDue(st: State, done: set<Ref>, browses: seq<Browse>, s: Ref)
    requires s !in done
    ensures forall i | 0 <= i < |browses| :: DueAt(Settle(st, done), browses[i], s) <==> DueAt(st, browses[i], s)
  {
    forall i | 0 <= i < |browses| ensures DueAt(Settle(st, done), browses[i], s) <==> DueAt(st, browses[i], s) {
      DueElsewhere(st, done, browses[i], s);
    }
  }

  ghost function Members(list: seq<Ref>): (r: set<Ref>) {
    set s | s in list
  }

  lemma MembersNext(list: seq<Ref>, i: nat)
    requires NoRepeat(list) && i < |list|
    ensures list[i] !in Members(list[..i]) && Members(list[..i + 1]) == Members(list[..i]) + {list[i]}
  {
    NoRepeatAt(list, i);
    assert list[..i + 1] == list[..i] + [list[i]];
  }

  lemma ListedOnce(st: State, e: Ref)
    requires Sound(st) && e in st.serviceList
    ensures NoRepeat(st.serviceList[e])
    ensures forall s | s in st.serviceList[e] :: s in st.services && s in st.owner && st.owner[s] == e
  {
    Open(st);
  }

  /** The services of these entries. */
  ghost function ServicesIn(st: State, entries: seq<Ref>): (r: set<Ref>) {
    set s | s in st.services && OwnerOf(st, s) in entries
  }

  lemma ListIsServices(st: State, e: Ref)
    requires Sound(st) && e in st.serviceList
    ensures Members(st.serviceList[e]) == ServicesIn(st, [e])
  {
    OwnedAreListed(st, e);
  }

  lemma OwnedAreListed(st: State, e: Ref)
    requires Sound(st) && e in st.serviceList
    ensures forall s :: s in st.serviceList[e] <==> s in st.services && OwnerOf(st, s) == e
  {
    Open(st);
    OwnedIsListed(st, e);
  }

  lemma OwnedIsListed(st: State, e: Ref)
    requires Domains(st) && ListsOwned(st.serviceList, st.owner) && OwnedListed(st.serviceList, st.owner)
    requires e in st.serviceList
    ensures forall s :: s in st.serviceList[e] <==> s in st.services && OwnerOf(st, s) == e
  {
    forall s | s in st.services && OwnerOf(st, s) == e ensures s in st.serviceList[e] {
      assert s in st.owner && s in st.serviceList[st.owner[s]];
    }
  }

  lemma CacheFacts(st: State)
    requires Sound(st)
    ensures NoRepeat(st.cache) && forall e | e in st.cache :: e in st.entries && e in st.serviceList
  {
    Open(st);
  }

  lemma NextEntry(st: State, i: nat)
    requires Sound(st) && i < |st.cache|
    ensures st.cache[i] in st.entries && st.cache[i] in st.serviceList
    ensures var list, done := st.serviceList[st.cache[i]], ServicesIn(st, st.cache[..i]);
            && (forall s | s in list :: s !in done) && (forall s | s in done :: s in st.services)
            && ServicesIn(st, st.cache[..i + 1]) == done + Members(list)
  {
    CacheFacts(st);
    NoRepeatAt(st.cache, i);
    ListIsServices(st, st.cache[i]);
    assert st.cache[..i + 1] == st.cache[..i] + [st.cache[i]];
    forall s | s in st.serviceList[st.cache[i]] ensures s !in ServicesIn(st, st.cache[..i]) {
      assert s in Members(st.serviceList[st.cache[i]]);
    }
  }

  lemma AllServices(st: State)
    requires Sound(st)
    ensures forall s :: s in ServicesIn(st, st.cache) <==> s in st.services
  {
    Open(st);
    InvOwned(st);
  }

  lemma SettleNone(st: State)
    ensures Settle(st, {}) == st.(syncPending := false)
  {
    assert Settle(st, {}).marks == st.marks && Settle(st, {}).records == st.records;
  }

  // ------------------------------------------------------------------ a new browse

  ghost predicate Listing(st: State, done: set<Ref>, told: seq<SvcKey>, b: Browse) {
    && NoRepeat(told)
    && (forall svc <- told :: exists s :: s in done && SvcKeyOf(st, s) == svc && MatchesAt(st, b, s))
    && (forall s | s in done && MatchesAt(st, b, s) :: SvcKeyOf(st, s) in told)
  }

  /** The browse is told once of every service it matches, and of no other. */
  ghost predicate IsToldOf(st: State, told: seq<SvcKey>, b: Browse) {
    NoRepeat(told) && forall svc :: svc in told <==> Matches(Rows(st), b, svc)
  }

  lemma ListingNone(st: State, b: Browse)
    ensures Listing(st, ServicesIn(st, st.cache[..0]), [], b)
  {
  }

  lemma ListingAll(st: State, told: seq<SvcKey>, b: Browse)
    requires Sound(st) && Listing(st, ServicesIn(st, st.cache[..|st.cache|]), told, b)
    ensures IsToldOf(st, told, b)
  {
    assert st.cache[..|st.cache|] == st.cache;
    AllServices(st);
    ListingIsFlat(st, ServicesIn(st, st.cache), told, b);
  }

  lemma ListNext(st: State, done: set<Ref>, told: seq<SvcKey>, b: Browse, s: Ref)
    requires UniqueServices(st) && Listing(st, done, told, b) && (forall u | u in done :: u in st.services)
    requires s in st.services && s !in done
    ensures Listing(st, done + {s}, if MatchesAt(st, b, s) then told + [SvcKeyOf(st, s)] else told, b)
  {
    var k := SvcKeyOf(st, s);
    var more := if MatchesAt(st, b, s) then told + [k] else told;
    assert forall u | u in done :: SvcKeyOf(st, u) != k;
    NoRepeatSnoc(told, k);
    forall svc | svc in more ensures exists u :: u in done + {s} && SvcKeyOf(st, u) == svc && MatchesAt(st, b, u) {
      if svc in told {
        var u :| u in done && SvcKeyOf(st, u) == svc && MatchesAt(st, b, u);
        assert u in done + {s};
      } else {
        assert s in done + {s};
      }
    }
  }

  lemma ListingIsFlat(st: State, done: set<Ref>, told: seq<SvcKey>, b: Browse)
    requires Sound(st) && Listing(st, done, told, b) && (forall s :: s in done <==> s in st.services)
    ensures IsToldOf(st, told, b)
  {
    forall svc ensures svc in told <==> Matches(Rows(st), b, svc) {
      if svc in told {
        var s :| s in done && SvcKeyOf(st, s) == svc && MatchesAt(st, b, s);
        MatchIsFlat(st, b, s);
      }
      if Matches(Rows(st), b, svc) {
        MatchIsCached(st, b, svc);
        var s :| s in st.services && SvcKeyOf(st, s) == svc;
        MatchIsFlat(st, b, s);
      }
    }
  }

  lemma EmptyIsSound(st: State)
    requires st == EMPTY.(next := st.next)
    ensures Sound(st) && Rows(st) == {} && Reports(st) == {}
  {
    Close(st);
  }
}
