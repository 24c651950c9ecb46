/** The mDNS browse cache as the code runs it: components/mdns/mdns_cache.c over the heap of
    CacheModel. Every allocation may fail. */
module MdnsCache {
  import opened Common
  import opened CaseFold
  import opened CacheIndex
  import opened CacheModel
  import opened CacheSteps
  import opened CacheViews
  import opened CacheUpdates
  import opened CacheReports
  import opened CacheSpec
  import opened CacheOutcomes
  import opened CacheContracts
  import opened CacheExpiry
  import opened CacheTrim
  import opened CacheGoodbyes
  import opened CacheSync

  const UNSUBSCRIBED_GRACE_SEC := 300
  const INT64_MAX := 0x7FFF_FFFF_FFFF_FFFF

  method FindNode(ns: seq<Node>, r: Rec, e: Ref) returns (i: nat)
    requires exists n :: n in ns && n.rec == r && n.entry == e
    ensures i < |ns| && ns[i].rec == r && ns[i].entry == e
  {
    i := 0;
    while !(ns[i].rec == r && ns[i].entry == e)
      invariant i < |ns| && exists j :: i <= j < |ns| && ns[j].rec == r && ns[j].entry == e
      decreases |ns| - i
    {
      i := i + 1;
    }
  }

  /** The insertion point for a deadline, knowing that no node before from is later. */
  method FindLink(ns: seq<Node>, from: nat, expires: int) returns (k: nat)
    requires from <= |ns| && forall j | 0 <= j < from :: ns[j].expires < expires
    ensures k <= |ns| && (forall j | 0 <= j < k :: ns[j].expires < expires)
    ensures k == |ns| || ns[k].expires >= expires
  {
    k := from;
    while k < |ns| && ns[k].expires < expires
      invariant from <= k <= |ns|
      invariant forall j | 0 <= j < k :: ns[j].expires < expires
    {
      k := k + 1;
    }
  }

  /** The list part of expiry_schedule. When the deadline moves back the search starts from where the
      node was; the result is the same as inserting from the head. */
  method Reposition(ns: seq<Node>, r: Rec, e: Ref, expires: int) returns (ms: seq<Node>)
    requires Schedulable(ns, r, e)
    ensures ms == Schedule(ns, Node(r, e, true, expires))
  {
    var i := FindNode(ns, r, e);
    var rest := ns[..i] + ns[i + 1..];
    DropAt(ns, i);
    var extended := expires > ns[i].expires && ns[i].queued;
    if extended {
      assert ns[i] in ns;
      forall j | 0 <= j < i ensures rest[j].expires < expires {
        SortedPair(ns, j, i);
      }
    }
    var k := FindLink(rest, if extended then i else 0, expires);
    InsertAt(rest, Node(r, e, true, expires), k);
    ms := rest[..k] + [Node(r, e, true, expires)] + rest[k..];
  }

  /** The entry has no service of this name on this interface. */
  ghost predicate NoMatchIn(st: State, e: Ref, netif: nat, ip: nat, names: Names) {
    HostAt(st, e).netif == netif && HostAt(st, e).ip == ip ==>
      e in st.serviceList && forall u | u in st.serviceList[e] :: NamesAt(st, u) != names
  }

  lemma ListedIsService(st: State, e: Ref, s: Ref)
    requires Domains(st) && ListsOwned(st.serviceList, st.owner) && e in st.serviceList && s in st.serviceList[e]
    ensures s in st.services && s in st.owner && st.owner[s] == e
  {
  }

  lemma NoMatch(st: State, netif: nat, ip: nat, names: Names)
    requires Domains(st) && OwnedListed(st.serviceList, st.owner)
    requires forall j | 0 <= j < |st.cache| :: NoMatchIn(st, st.cache[j], netif, ip, names)
    ensures forall u | u in st.services :: SvcKeyOf(st, u) != SvcKey(netif, ip, names)
  {
    forall u | u in st.services ensures SvcKeyOf(st, u) != SvcKey(netif, ip, names) {
      assert st.owner[u] in st.cache;
    }
  }

  /** Unlink x from a list. */
  method Unlink(s: seq<Ref>, x: Ref) returns (r: seq<Ref>)
    ensures r == Without(s, x)
  {
    for i := 0 to |s|
      invariant forall j | 0 <= j < i :: s[j] != x
    {
      if s[i] == x {
        WithoutAt(s, i);
        return s[..i] + s[i + 1..];
      }
    }
    WithoutAbsent(s, x);
    r := s;
  }

  /** The loop of cache_move_service over the index. */
  method PointTo(ns: seq<Node>, s: Ref, e: Ref) returns (r: seq<Node>)
    ensures r == Relabel(ns, s, e)
  {
    r := [];
    var i := |ns|;
    while i > 0
      invariant 0 <= i <= |ns| && r == Relabel(ns[i..], s, e)
    {
      i := i - 1;
      assert ns[i..][1..] == ns[i + 1..];
      r := [if !ns[i].rec.Adr? && ns[i].rec.s == s then ns[i].(entry := e) else ns[i]] + r;
    }
    assert ns[0..] == ns;
  }

  method TxtListContains(list: seq<TxtItem>, item: TxtItem) returns (b: bool)
    ensures b == exists y :: y in list && ItemEqual(y, item)
  {
    for i := 0 to |list|
      invariant forall j | 0 <= j < i :: !ItemEqual(list[j], item)
    {
      if ItemEqual(list[i], item) {
        return true;
      }
    }
    b := false;
  }

  method TxtListEqual(a: seq<TxtItem>, b: seq<TxtItem>) returns (equal: bool)
    ensures equal == TxtEqual(a, b)
  {
    if |a| != |b| {
      return false;
    }
    for i := 0 to |a|
      invariant forall j | 0 <= j < i :: exists y :: y in b && ItemEqual(y, a[j])
    {
      var contained := TxtListContains(b, a[i]);
      if !contained {
        assert a[i] in a;
        return false;
      }
    }
    equal := true;
  }

  class Store {
    var cache: seq<Ref>
    var entries: map<Ref, Host>
    var serviceList: map<Ref, seq<Ref>>
    var addrList: map<Ref, seq<Ref>>
    var services: map<Ref, Names>
    var subtypeList: map<Ref, seq<Ref>>
    var marks: map<Ref, set<Kind>>
    var records: map<Rec, Data>
    var expiry: seq<Node>
    var syncPending: bool
    var next: Ref
    ghost var owner: map<Ref, Ref>
    /** There is always memory. */
    const ample: bool

    ghost function Snap(): (st: State)
      reads this
    {
      State(cache, entries, serviceList, addrList, services, subtypeList, marks, records, expiry, syncPending, next,
            owner)
    }

    constructor (ample: bool)
      ensures Sound(Snap()) && Rows(Snap()) == {} && Reports(Snap()) == {} && this.ample == ample
    {
      this.ample := ample;
      cache, entries, serviceList, addrList := [], map[], map[], map[];
      services, subtypeList, marks, records := map[], map[], map[], map[];
      expiry, syncPending, next, owner := [], false, 0, map[];
      new;
      EmptyIsSound(Snap());
    }

    /** Whether an allocation succeeds. */
    method Allocate() returns (ok: bool)
      ensures ample ==> ok
    {
      ok := *;
      ok := ok || ample;
    }

    // ---------------------------------------------------------------- the index

    /** expiry_new: an unscheduled node at the head of the list. */
    method ExpiryNew(r: Rec, e: Ref) returns (ok: bool)
      modifies this`expiry
      ensures expiry == if ok then [Node(r, e, false, INT64_MAX)] + old(expiry) else old(expiry)
      ensures ample ==> ok
    {
      ok := Allocate();
      if ok {
        expiry := [Node(r, e, false, INT64_MAX)] + expiry;
      }
    }

    /** expiry_schedule for the record r of entry e. */
    method ExpirySchedule(r: Rec, e: Ref, now: int)
      requires r in records && Schedulable(expiry, r, e)
      modifies this`expiry
      ensures expiry == Schedule(old(expiry), Node(r, e, true, Deadline(records[r].ttl, now)))
    {
      var ttl := records[r].ttl;
      expiry := Reposition(expiry, r, e, if ttl == 0 then 0 else now + ttl * US_PER_SEC);
    }

    // ---------------------------------------------------------------- lookup

    method FindEntry(h: Host) returns (e: Option<Ref>)
      requires Domains(Snap())
      ensures e.Some? ==> e.value in entries && entries[e.value] == h
      ensures e.None? ==> forall f | f in entries :: entries[f] != h
    {
      for i := 0 to |cache|
        invariant forall j | 0 <= j < i :: entries[cache[j]] != h
      {
        if entries[cache[i]] == h {
          return Some(cache[i]);
        }
      }
      e := None;
    }

    method FindService(netif: nat, ip: nat, names: Names) returns (s: Option<Ref>, e: Option<Ref>)
      requires Domains(Snap()) && ListsOwned(serviceList, owner) && OwnedListed(serviceList, owner)
      ensures s.Some? <==> e.Some?
      ensures s.Some? ==> && s.value in services && s.value in owner && owner[s.value] == e.value && e.value in entries
                          && SvcKeyOf(Snap(), s.value) == SvcKey(netif, ip, names)
      ensures s.None? ==> forall u | u in services :: SvcKeyOf(Snap(), u) != SvcKey(netif, ip, names)
    {
      ghost var st := Snap();
      for i := 0 to |cache|
        invariant forall j | 0 <= j < i :: NoMatchIn(st, st.cache[j], netif, ip, names)
      {
        if entries[cache[i]].netif == netif && entries[cache[i]].ip == ip {
          var list := serviceList[cache[i]];
          for k := 0 to |list|
            invariant forall j | 0 <= j < k :: NamesAt(st, list[j]) != names
          {
            ListedIsService(st, st.cache[i], list[k]);
            if services[list[k]] == names {
              return Some(list[k]), Some(cache[i]);
            }
          }
        }
      }
      NoMatch(st, netif, ip, names);
      s, e := None, None;
    }

    // ---------------------------------------------------------------- entries and services

    method AddEntry(h: Host) returns (e: Option<Ref>)
      modifies this
      ensures e.None? ==> Snap() == old(Snap())
      ensures e.Some? ==> e.value == old(next) && Snap() == NewEntry(old(Snap()), h)
      ensures ample ==> e.Some?
    {
      var ok := Allocate();
      if !ok {
        return None;
      }
      e := Some(next);
      entries, serviceList, addrList := entries[next := h], serviceList[next := []], addrList[next := []];
      cache, next := [next] + cache, next + 1;
    }

    method RemoveEntryIfEmpty(e: Ref)
      requires e in entries && e in serviceList && e in addrList
      modifies this
      ensures Snap() == if HasContent(old(Snap()), e) then old(Snap()) else DropEntry(old(Snap()), e)
    {
      if addrList[e] != [] || serviceList[e] != [] {
        return;
      }
      var rest := Unlink(cache, e);
      cache := rest;
      entries, serviceList, addrList := entries - {e}, serviceList - {e}, addrList - {e};
    }

    method AddService(e: Ref, names: Names) returns (s: Option<Ref>)
      requires e in serviceList
      modifies this
      ensures s.None? ==> Snap() == old(Snap())
      ensures s.Some? ==> s.value == old(next) && Snap() == NewService(old(Snap()), e, names)
      ensures ample ==> s.Some?
    {
      var ok := Allocate();
      if !ok {
        return None;
      }
      s := Some(next);
      services, subtypeList, marks := services[next := names], subtypeList[next := []], marks[next := {}];
      serviceList := serviceList[e := [next] + serviceList[e]];
      owner := owner[next := e];
      next := next + 1;
    }

    method RemoveServiceIfEmpty(e: Ref, s: Ref)
      requires e in entries && e in serviceList && e in addrList && s in subtypeList
      modifies this
      ensures Snap() ==
              if HasRecord(old(Snap()), s) then old(Snap()) else Removed(old(Snap()), e, s)
    {
      if Ptr(s) in records || Srv(s) in records || Txt(s) in records || subtypeList[s] != [] {
        return;
      }
      FreeService(e, s);
      RemoveEntryIfEmpty(e);
    }

    method FreeService(e: Ref, s: Ref)
      requires e in serviceList
      modifies this
      ensures Snap() == DropService(old(Snap()), e, s)
    {
      var rest := Unlink(serviceList[e], s);
      serviceList := serviceList[e := rest];
      services, subtypeList, marks := services - {s}, subtypeList - {s}, marks - {s};
      owner := owner - {s};
    }

    /** cache_move_service */
    method Transfer(e: Ref, f: Ref, s: Ref)
      requires e in serviceList && f in serviceList
      modifies this
      ensures Snap() == MoveService(old(Snap()), e, f, s)
    {
      var rest := Unlink(serviceList[e], s);
      serviceList := serviceList[e := rest];
      serviceList := serviceList[f := [s] + serviceList[f]];
      var nodes := PointTo(expiry, s, f);
      expiry := nodes;
      owner := owner[s := f];
    }

    /** service_cache_mark_sync_out for a change that is to be reported */
    method MarkSyncOut(s: Ref, k: Kind)
      requires s in marks
      modifies this
      ensures Snap() == Mark(old(Snap()), s, k)
    {
      marks := marks[s := marks[s] + {k}];
      syncPending := true;
    }

    /** cache_get_or_add_entry */
    method GetOrAddEntry(h: Host) returns (e: Option<Ref>)
      requires Domains(Snap()) && Fresh(Snap())
      modifies this
      ensures e.None? ==> Snap() == old(Snap())
      ensures e.Some? ==> EntryFor(old(Snap()), h, e.value) && Snap() == WithEntry(old(Snap()), h, e.value)
      ensures ample ==> e.Some?
    {
      e := FindEntry(h);
      if e.None? {
        e := AddEntry(h);
      }
    }

    // ---------------------------------------------------------------- storing a record

    /** Set the contents of a record that has a node, and schedule it. */
    method Refresh(r: Rec, e: Ref, d: Data, now: int)
      requires Schedulable(expiry, r, e) && e == Home(Snap(), r)
      modifies this
      ensures Snap() == SetRecord(old(Snap()), r, d, Deadline(d.ttl, now))
    {
      records := records[r := d];
      ExpirySchedule(r, e, now);
    }

    /** Give a PTR, SRV or TXT record its contents and its place in the index. */
    method StoreRecord(r: Rec, e: Ref, d: Data, now: int) returns (ok: bool)
      requires Indexed(Snap()) && e == Home(Snap(), r)
      modifies this
      ensures ok ==> Snap() == SetRecord(old(Snap()), r, d, Deadline(d.ttl, now))
      ensures !ok ==> Snap() == old(Snap()) && r !in records
      ensures ample ==> ok
    {
      ghost var st, n := Snap(), Node(r, e, true, Deadline(d.ttl, now));
      if r in records {
        KnownIsSchedulable(st, r);
      } else {
        ok := ExpiryNew(r, e);
        if !ok {
          return;
        }
        NewIsSchedulable(st, r, Node(r, e, false, INT64_MAX), n);
      }
      Refresh(r, e, d, now);
      ok := true;
    }

    /** The ttl == 0 branch of the update functions for a record that is present. */
    method SayGoodbye(r: Rec, e: Ref, now: int)
      requires Sound(Snap()) && r in records && e == Home(Snap(), r)
      modifies this
      ensures Sound(Snap()) && Rows(Snap()) == Expiring(old(Rows(Snap())), old(KeyOf(Snap(), r)))
      ensures Reports(Snap()) == old(Reports(Snap()))
    {
      ghost var st := Snap();
      Basics(st);
      KnownIsSchedulable(st, r);
      Refresh(r, e, records[r].(ttl := 0), now);
      SaidGoodbye(st, Snap(), r);
    }

    /** cache_get_or_add_entry and cache_add_service, with the clean-up when the latter fails. */
    method CreateService(h: Host, names: Names) returns (s: Option<Ref>, e: Ref)
      requires Domains(Snap()) && Fresh(Snap())
      modifies this
      ensures s.Some? ==> && EntryFor(old(Snap()), h, e) && e in WithEntry(old(Snap()), h, e).serviceList
                          && s.value == WithEntry(old(Snap()), h, e).next && Snap() == Created(old(Snap()), h, e, names)
      ensures s.None? ==> Snap() == old(Snap())
                          || (EntryFor(old(Snap()), h, e) && Snap() == Swept(WithEntry(old(Snap()), h, e), e))
      ensures ample ==> s.Some?
    {
      var entry := GetOrAddEntry(h);
      if entry.None? {
        return None, 0;
      }
      e := entry.value;
      s := AddService(e, names);
      if s.None? {
        RemoveEntryIfEmpty(e);
      }
    }

    /** The record that a service was created for, or the service goes again. */
    method StoreFirst(s: Ref, e: Ref, d: Data, now: int) returns (ok: bool)
      requires Indexed(Snap()) && s in owner && owner[s] == e && s in marks && s in subtypeList && IsSingle(d)
      requires e in entries && e in serviceList && e in addrList && !HasRecord(Snap(), s)
      modifies this
      ensures ok ==> Snap() == Mark(SetRecord(old(Snap()), RecFor(s, d), d, Deadline(d.ttl, now)), s, KindFor(d))
      ensures !ok ==> Snap() == Removed(old(Snap()), e, s)
      ensures ample ==> ok
    {
      ok := StoreRecord(RecFor(s, d), e, d, now);
      if ok {
        MarkSyncOut(s, KindFor(d));
      } else {
        RemoveServiceIfEmpty(e, s);
      }
    }

    /** A PTR, SRV or TXT record of a service that is not cached yet. When memory runs out at any point
        nothing is left behind. */
    method AddFirst(h: Host, names: Names, d: Data, now: int) returns (ok: bool)
      requires Sound(Snap()) && IsSingle(d) && NonEmptyNames(names) && NoService(Snap(), ServiceKey(h, names))
      modifies this
      ensures Outcome(old(Snap()), Snap(), ok, FirstRow(h, names, d, Deadline(d.ttl, now)), ok,
                      Report(ServiceKey(h, names), KindFor(d)))
      ensures ample ==> ok
    {
      ghost var st, row, report := Snap(), FirstRow(h, names, d, Deadline(d.ttl, now)),
                                   Report(ServiceKey(h, names), KindFor(d));
      Basics(st);
      var s, e := CreateService(h, names);
      if s.None? {
        NotCreated(st, h, e, Snap(), row, report);
        return false;
      }
      ghost var p := Snap();
      CreatedReady(st, p, h, e, names, s.value);
      ok := StoreFirst(s.value, e, d, now);
      if ok {
        FirstStored(st, p, Snap(), h, e, names, s.value, d, Deadline(d.ttl, now));
      } else {
        NotStored(st, p, Snap(), h, e, names, s.value, row, report);
      }
    }

    method StoreKnown(s: Ref, e: Ref, d: Data, changed: bool, now: int) returns (ok: bool)
      requires Ready(Snap(), s, e) && IsSingle(d)
      modifies this
      ensures !ok ==> Snap() == old(Snap())
      ensures ok ==> Snap() == MarkIf(SetRecord(old(Snap()), RecFor(s, d), d, Deadline(d.ttl, now)), changed, s,
                                      KindFor(d))
      ensures ample ==> ok
    {
      ok := StoreRecord(RecFor(s, d), e, d, now);
      if !ok {
        RemoveServiceIfEmpty(e, s);
      } else if changed {
        MarkSyncOut(s, KindFor(d));
      }
    }

    /** A PTR, SRV or TXT record of a cached service that stays where it is. */
    method UpdateKnown(s: Ref, e: Ref, d: Data, changed: bool, now: int) returns (ok: bool)
      requires Sound(Snap()) && IsSingle(d) && s in services && s in owner && owner[s] == e
      modifies this
      ensures Outcome(old(Snap()), Snap(), ok, SingleRow(old(Snap()), s, d, Deadline(d.ttl, now)),
                      ok && changed, Report(old(SvcKeyOf(Snap(), s)), KindFor(d)))
      ensures ample ==> ok
    {
      ghost var st := Snap();
      KnownIsReady(st, s);
      ok := StoreKnown(s, e, d, changed, now);
      if ok {
        KnownUpdated(st, Snap(), s, d, Deadline(d.ttl, now), changed);
      }
    }

    method BeginMove(s: Ref, e: Ref, h: Host) returns (host: Option<Ref>)
      requires Domains(Snap()) && Fresh(Snap()) && e in serviceList
      modifies this
      ensures host.None? ==> Snap() == old(Snap())
      ensures host.Some? ==>
                var f, p := host.value, WithEntry(old(Snap()), h, host.value);
                EntryFor(old(Snap()), h, f) && e in p.serviceList && f in p.serviceList
                && Snap() == MoveService(p, e, f, s)
      ensures ample ==> host.Some?
    {
      host := GetOrAddEntry(h);
      if host.Some? {
        Transfer(e, host.value, s);
      }
    }

    /** The rest of mdns_priv_cache_update_srv: e is where the service was found and f where it belongs. */
    method FinishMove(s: Ref, e: Ref, f: Ref, d: Data, changed: bool, now: int) returns (ok: bool)
      requires InTransit(Snap(), e, f, s) && d.SrvData?
      modifies this
      ensures ok ==> var q := Swept(SetRecord(old(Snap()), Srv(s), d, Deadline(d.ttl, now)), e);
                     s in q.marks && Snap() == MarkIf(q, changed, s, SRV)
      ensures !ok ==> Srv(s) !in old(records) && Snap() == Swept(MoveService(old(Snap()), f, e, s), f)
      ensures ample ==> ok
    {
      ok := StoreRecord(Srv(s), f, d, now);
      if ok {
        RemoveEntryIfEmpty(e);
        if changed {
          MarkSyncOut(s, SRV);
        }
      } else {
        Transfer(f, e, s);
        RemoveEntryIfEmpty(f);
      }
    }

    /** An SRV record that leads a cached service to another host. When memory runs out for the node the
        service goes back to where it was. */
    method UpdateMoved(s: Ref, e: Ref, h: Host, d: Data, now: int) returns (ok: bool)
      requires Sound(Snap()) && d.SrvData? && s in services && s in owner && owner[s] == e && e in entries
      requires entries[e].netif == h.netif && entries[e].ip == h.ip && entries[e] != h
      modifies this
      ensures Outcome(old(Snap()), Snap(), ok, Row(SrvKey(old(SvcKeyOf(Snap(), s))), d, h.name, Deadline(d.ttl, now)),
                      ok, Report(old(SvcKeyOf(Snap(), s)), SRV))
      ensures ample ==> ok
    {
      ghost var st := Snap();
      Basics(st);
      var host := BeginMove(s, e, h);
      if host.None? {
        return false;
      }
      var f := host.value;
      ghost var p, q := WithEntry(st, h, f), Snap();
      IsInTransit(st, h, e, f, s);
      ok := FinishMove(s, e, f, d, true, now);
      if ok {
        HasMoved(st, p, q, Snap(), h, e, f, s, d, Deadline(d.ttl, now));
      } else {
        HasReturned(st, p, q, Snap(), h, e, f, s, Row(SrvKey(SvcKeyOf(st, s)), d, h.name, Deadline(d.ttl, now)),
                    Report(SvcKeyOf(st, s), SRV));
      }
    }

    /** An SRV record of a cached service that is under its host already. */
    method UpdateStaying(s: Ref, e: Ref, d: Data, changed: bool, now: int) returns (ok: bool)
      requires Sound(Snap()) && d.SrvData? && s in services && s in owner && owner[s] == e
      modifies this
      ensures Outcome(old(Snap()), Snap(), ok, SingleRow(old(Snap()), s, d, Deadline(d.ttl, now)),
                      ok && changed, Report(old(SvcKeyOf(Snap(), s)), SRV))
      ensures ample ==> ok
    {
      ghost var st := Snap();
      KnownIsReady(st, s);
      StayingFacts(st, s, e);
      ok := FinishMove(s, e, e, d, changed, now);
      if ok {
        StayingSwept(st, s, e, d, Deadline(d.ttl, now));
        KnownUpdated(st, Snap(), s, d, Deadline(d.ttl, now), changed);
      } else {
        Relinked(st, Snap(), s, e, SingleRow(st, s, d, Deadline(d.ttl, now)), Report(SvcKeyOf(st, s), SRV));
      }
    }

    // ---------------------------------------------------------------- subtypes

    method FindSubtype(s: Ref, name: string) returns (t: Option<Ref>)
      requires Placed(Snap()) && s in subtypeList
      ensures t.Some? ==>
                Sub(s, t.value) in records && records[Sub(s, t.value)].SubData? && SubName(Snap(), s, t.value) == name
      ensures t.None? ==> NoSubtype(Snap(), s, name)
    {
      ghost var st := Snap();
      var list := subtypeList[s];
      for i := 0 to |list|
        invariant forall j | 0 <= j < i :: SubName(st, s, list[j]) != name
      {
        assert list[i] in st.subtypeList[s];
        if records[Sub(s, list[i])].name == name {
          return Some(list[i]);
        }
      }
      t := None;
    }

    /** The part of service_cache_update_subtype for a subtype that is there. */
    method RefreshSubtype(s: Ref, e: Ref, t: Ref, ttl: nat, now: int) returns (changed: bool)
      requires Ready(Snap(), s, e) && Sub(s, t) in records && records[Sub(s, t)].SubData?
      modifies this
      ensures changed == (old(records[Sub(s, t)]).ttl != ttl)
      ensures Snap() == MarkIf(SetRecord(old(Snap()), Sub(s, t), AgainSubtype(old(records[Sub(s, t)]), ttl),
                                         Deadline(ttl, now)),
                               changed, s, SUBTYPE)
    {
      ghost var st := Snap();
      KnownIsSchedulable(st, Sub(s, t));
      var d := records[Sub(s, t)];
      changed := d.ttl != ttl;
      Refresh(Sub(s, t), e, SubData(d.name, ttl, d.pending || changed), now);
      if changed {
        MarkSyncOut(s, SUBTYPE);
      }
    }

    /** The part of service_cache_update_subtype for a subtype that is not there. */
    method AddSubtype(s: Ref, e: Ref, name: string, ttl: nat, now: int) returns (ok: bool)
      requires Indexed(Snap()) && Fresh(Snap()) && s in subtypeList && s in marks && s in owner && owner[s] == e
      modifies this
      ensures !ok ==> Snap() == old(Snap())
      ensures ok ==> Snap() == Mark(NewSubtype(old(Snap()), s, SubData(name, ttl, true), Deadline(ttl, now)), s,
                                    SUBTYPE)
      ensures ample ==> ok
    {
      ghost var st := Snap();
      ok := Allocate();
      if !ok {
        return;
      }
      var t := next;
      assert Sub(s, t) !in records;
      ok := ExpiryNew(Sub(s, t), e);
      if !ok {
        return;
      }
      NewIsSchedulable(st, Sub(s, t), Node(Sub(s, t), e, false, INT64_MAX),
                       Node(Sub(s, t), e, true, Deadline(ttl, now)));
      Refresh(Sub(s, t), e, SubData(name, ttl, true), now);
      LinkSubtype(s);
    }

    method LinkSubtype(s: Ref)
      requires s in subtypeList && s in marks
      modifies this
      ensures var q := old(Snap()).(subtypeList := old(subtypeList)[s := [old(next)] + old(subtypeList)[s]],
                       next := old(next) + 1);
              Snap() == Mark(q, s, SUBTYPE)
    {
      subtypeList, next := subtypeList[s := [next] + subtypeList[s]], next + 1;
      MarkSyncOut(s, SUBTYPE);
    }

    /** A subtype PTR record of a cached service. */
    method UpdateSubtype(s: Ref, e: Ref, name: string, ttl: nat, now: int) returns (r: Result)
      requires Sound(Snap()) && s in services && s in owner && owner[s] == e
      modifies this
      ensures SubtypeSpec(old(Snap()), Snap(), r, old(SvcKeyOf(Snap(), s)), name, ttl, Deadline(ttl, now))
      ensures ample ==> r != Error
    {
      ghost var st := Snap();
      Basics(st);
      PlacedBasics(st);
      KnownIsReady(st, s);
      var t := FindSubtype(s, name);
      if t.Some? {
        var changed := RefreshSubtype(s, e, t.value, ttl, now);
        r := if changed then Updated else NoChange;
        SubtypeRefreshed(st, Snap(), s, t.value, name, ttl, Deadline(ttl, now), r);
      } else {
        var ok := AddSubtype(s, e, name, ttl, now);
        if !ok {
          RemoveServiceIfEmpty(e, s);
        }
        r := if ok then Updated else Error;
        SubtypeAppended(st, Snap(), s, name, ttl, Deadline(ttl, now), r);
      }
    }

    /** A subtype PTR record of a service that is not cached yet. */
    method AddFirstSubtype(h: Host, names: Names, name: string, ttl: nat, now: int) returns (r: Result)
      requires Sound(Snap()) && NonEmptyNames(names) && NoService(Snap(), ServiceKey(h, names))
      modifies this
      ensures SubtypeSpec(old(Snap()), Snap(), r, ServiceKey(h, names), name, ttl, Deadline(ttl, now))
      ensures ample ==> r != Error
    {
      ghost var st, row := Snap(), SubRow(ServiceKey(h, names), SubData(name, ttl, true), Deadline(ttl, now));
      ghost var report := Report(ServiceKey(h, names), SUBTYPE);
      Basics(st);
      var s, e := CreateService(h, names);
      if s.None? {
        NotCreated(st, h, e, Snap(), row, report);
        return Error;
      }
      ghost var p := Snap();
      CreatedReady(st, p, h, e, names, s.value);
      var ok := AddSubtype(s.value, e, name, ttl, now);
      if ok {
        r := Added;
        FirstSubtypeStored(st, p, Snap(), h, e, names, s.value, name, ttl, Deadline(ttl, now));
      } else {
        RemoveServiceIfEmpty(e, s.value);
        r := Error;
        NotStored(st, p, Snap(), h, e, names, s.value, row, report);
      }
    }

    // ---------------------------------------------------------------- what the receiver calls

    /** FindService on a sound cache */
    method Lookup(netif: nat, ip: nat, names: Names) returns (s: Option<Ref>, e: Option<Ref>)
      requires Sound(Snap())
      ensures s.Some? <==> e.Some?
      ensures s.Some? ==> && s.value in services && s.value in owner && owner[s.value] == e.value && e.value in entries
                          && SvcKeyOf(Snap(), s.value) == SvcKey(netif, ip, names)
      ensures s.None? ==> NoService(Snap(), SvcKey(netif, ip, names))
    {
      Basics(Snap());
      s, e := FindService(netif, ip, names);
    }

    /** A goodbye for a PTR, SRV or TXT record of a cached service. */
    method SingleGoodbye(s: Ref, e: Ref, d: Data, now: int) returns (r: Result)
      requires Sound(Snap()) && s in services && s in owner && owner[s] == e && IsSingle(d)
      modifies this
      ensures ByeSpec(old(Snap()), Snap(), r, KeyFor(old(SvcKeyOf(Snap(), s)), d))
    {
      ghost var st, k := Snap(), KeyFor(SvcKeyOf(Snap(), s), d);
      r := NoChange;
      if RecFor(s, d) in records {
        KnownRec(st, s, d, 0);
        SayGoodbye(RecFor(s, d), e, now);
        r := Updated;
      } else {
        SingleIsAbsent(st, s, d);
      }
      GoodbyeFollows(st, Rows(Snap()), RecFor(s, d), k, r);
    }

    method SubtypeGoodbye(s: Ref, e: Ref, name: string, now: int) returns (r: Result)
      requires Sound(Snap()) && s in services && s in owner && owner[s] == e
      modifies this
      ensures ByeSpec(old(Snap()), Snap(), r, SubKey(old(SvcKeyOf(Snap(), s)), name))
    {
      ghost var st := Snap();
      PlacedBasics(st);
      KnownIsReady(st, s);
      var t := FindSubtype(s, name);
      if t.Some? {
        SayGoodbye(Sub(s, t.value), e, now);
        r := Updated;
        GoodbyeFollows(st, Rows(Snap()), Sub(s, t.value), SubKey(SvcKeyOf(st, s), name), r);
      } else {
        SubtypeIsAbsent(st, s, name);
        r := NoChange;
      }
    }

    /** mdns_priv_cache_update_ptr with a time to live */
    method ReceivePtr(netif: nat, ip: nat, names: Names, ttl: nat, now: int) returns (r: Result)
      requires Sound(Snap()) && NonEmptyNames(names)
      modifies this
      ensures RecordSpec(old(Snap()), Snap(), r,
                         Row(PtrKey(SvcKey(netif, ip, names)), PtrData(ttl), "", Deadline(ttl, now)),
                         SameTtl(ttl), PTR)
      ensures ample ==> r != Error
    {
      ghost var st, row := Snap(), Row(PtrKey(SvcKey(netif, ip, names)), PtrData(ttl), "", Deadline(ttl, now));
      var s, e := Lookup(netif, ip, names);
      if s.None? {
        var ok := AddFirst(Host(netif, ip, ""), names, PtrData(ttl), now);
        r := if ok then Added else Error;
        FirstSpec(st, Snap(), ok, row, SameTtl(ttl), PTR);
      } else {
        HasItsType(st, Ptr(s.value));
        var changed := Ptr(s.value) !in records || records[Ptr(s.value)].ttl != ttl;
        var ok := UpdateKnown(s.value, e.value, PtrData(ttl), changed, now);
        r := if !ok then Error else if changed then Updated else NoChange;
        KnownSpec(st, Snap(), ok, s.value, PtrData(ttl), row, SameTtl(ttl));
      }
    }

    /** The same for a PTR record of a subtype */
    method ReceiveSubtype(netif: nat, ip: nat, names: Names, name: string, ttl: nat, now: int) returns (r: Result)
      requires Sound(Snap()) && NonEmptyNames(names)
      modifies this
      ensures SubtypeSpec(old(Snap()), Snap(), r, SvcKey(netif, ip, names), name, ttl, Deadline(ttl, now))
      ensures ample ==> r != Error
    {
      var s, e := Lookup(netif, ip, names);
      if s.None? {
        r := AddFirstSubtype(Host(netif, ip, ""), names, name, ttl, now);
      } else {
        r := UpdateSubtype(s.value, e.value, name, ttl, now);
      }
    }

    method Goodbye(netif: nat, ip: nat, names: Names, d: Data, now: int) returns (r: Result)
      requires Sound(Snap()) && IsSingle(d)
      modifies this
      ensures ByeSpec(old(Snap()), Snap(), r, KeyFor(SvcKey(netif, ip, names), d))
    {
      ghost var st := Snap();
      var s, e := Lookup(netif, ip, names);
      if s.None? {
        NobodyLeaves(st, KeyFor(SvcKey(netif, ip, names), d));
        r := NoChange;
      } else {
        r := SingleGoodbye(s.value, e.value, d, now);
      }
    }

    method GoodbyeSubtype(netif: nat, ip: nat, names: Names, name: string, now: int) returns (r: Result)
      requires Sound(Snap())
      modifies this
      ensures ByeSpec(old(Snap()), Snap(), r, SubKey(SvcKey(netif, ip, names), name))
    {
      ghost var st := Snap();
      var s, e := Lookup(netif, ip, names);
      if s.None? {
        NobodyLeaves(st, SubKey(SvcKey(netif, ip, names), name));
        r := NoChange;
      } else {
        r := SubtypeGoodbye(s.value, e.value, name, now);
      }
    }

    /** mdns_priv_cache_update_ptr */
    method UpdatePtr(netif: nat, ip: nat, instance: string, service: string, proto: string, subtype: string,
                     ttl: nat, now: int)
      returns (r: Result)
      requires Sound(Snap())
      modifies this
      ensures PtrUpdated(old(Snap()), Snap(), r, netif, ip, instance, service, proto, subtype, ttl, now)
      ensures ample ==> r != Error
    {
      var names := FoldNames(instance, service, proto);
      if instance == "" || service == "" || proto == "" {
        r := NoChange;
      } else if ttl == 0 {
        if subtype == "" {
          r := Goodbye(netif, ip, names, PtrData(0), now);
        } else {
          r := GoodbyeSubtype(netif, ip, names, Fold(subtype), now);
        }
      } else if subtype == "" {
        r := ReceivePtr(netif, ip, names, ttl, now);
      } else {
        r := ReceiveSubtype(netif, ip, names, Fold(subtype), ttl, now);
      }
    }

    method ReceiveKnownSrv(s: Ref, e: Ref, h: Host, d: Data, now: int) returns (r: Result)
      requires Sound(Snap()) && d.SrvData? && s in services && s in owner && owner[s] == e && e in entries
      requires entries[e].netif == h.netif && entries[e].ip == h.ip
      modifies this
      ensures RecordSpec(old(Snap()), Snap(), r, Row(SrvKey(old(SvcKeyOf(Snap(), s))), d, h.name, Deadline(d.ttl, now)),
                         SameSrv(d, h.name), SRV)
      ensures ample ==> r != Error
    {
      ghost var st, row := Snap(), Row(SrvKey(SvcKeyOf(Snap(), s)), d, h.name, Deadline(d.ttl, now));
      if entries[e] == h {
        var changed := Srv(s) !in records || records[Srv(s)] != d;
        var ok := UpdateStaying(s, e, d, changed, now);
        r := if !ok then Error else if changed then Updated else NoChange;
        KnownSpec(st, Snap(), ok, s, d, row, SameSrv(d, h.name));
      } else {
        var ok := UpdateMoved(s, e, h, d, now);
        r := if ok then Updated else Error;
        MovedSpec(st, Snap(), ok, s, e, h, d, Deadline(d.ttl, now));
      }
    }

    method ReceiveSrv(h: Host, names: Names, d: Data, now: int) returns (r: Result)
      requires Sound(Snap()) && NonEmptyNames(names) && d.SrvData?
      modifies this
      ensures RecordSpec(old(Snap()), Snap(), r, Row(SrvKey(ServiceKey(h, names)), d, h.name, Deadline(d.ttl, now)),
                         SameSrv(d, h.name), SRV)
      ensures ample ==> r != Error
    {
      ghost var st, row := Snap(), Row(SrvKey(ServiceKey(h, names)), d, h.name, Deadline(d.ttl, now));
      var s, e := Lookup(h.netif, h.ip, names);
      if s.None? {
        var ok := AddFirst(h, names, d, now);
        r := if ok then Added else Error;
        FirstSpec(st, Snap(), ok, row, SameSrv(d, h.name), SRV);
      } else {
        r := ReceiveKnownSrv(s.value, e.value, h, d, now);
      }
    }

    /** mdns_priv_cache_update_srv; the receiver only calls it with an instance, service and protocol */
    method UpdateSrv(netif: nat, ip: nat, hostname: string, instance: string, service: string, proto: string,
                     priority: nat, weight: nat, port: nat, ttl: nat, now: int)
      returns (r: Result)
      requires Sound(Snap()) && instance != "" && service != "" && proto != ""
      modifies this
      ensures SrvUpdated(old(Snap()), Snap(), r, netif, ip, hostname, instance, service, proto,
                         SrvData(priority, weight, port, ttl), now)
      ensures ample ==> r != Error
    {
      var names := FoldNames(instance, service, proto);
      if ttl == 0 {
        r := Goodbye(netif, ip, names, SrvData(priority, weight, port, ttl), now);
      } else {
        r := ReceiveSrv(Host(netif, ip, Fold(hostname)), names, SrvData(priority, weight, port, ttl), now);
      }
    }

    /** service_cache_txt_update: equal lists keep the old one. */
    method ChooseTxt(s: Ref, items: seq<TxtItem>, ttl: nat) returns (changed: bool, d: Data)
      requires Txt(s) in records ==> records[Txt(s)].TxtData?
      ensures changed == !Cached(Snap(), Txt(s), SameTxt(items, ttl))
      ensures d == if changed then TxtData(items, ttl) else records[Txt(s)]
      ensures d.TxtData? && d.ttl == ttl
    {
      changed, d := true, TxtData(items, ttl);
      if Txt(s) in records {
        var equal := TxtListEqual(records[Txt(s)].items, items);
        changed := !(equal && records[Txt(s)].ttl == ttl);
        d := if changed then d else records[Txt(s)];
      }
    }

    /** What becomes of the TXT record of a known service. */
    method StoreTxt(s: Ref, e: Ref, items: seq<TxtItem>, ttl: nat, now: int)
      returns (ok: bool, changed: bool, ghost d: Data)
      requires Sound(Snap()) && s in services && s in owner && owner[s] == e
      modifies this
      ensures d.TxtData? && changed == !Cached(old(Snap()), Txt(s), SameTxt(items, ttl))
      ensures d == if changed then TxtData(items, ttl) else old(records[Txt(s)])
      ensures Outcome(old(Snap()), Snap(), ok, SingleRow(old(Snap()), s, d, Deadline(ttl, now)), ok && changed,
                      Report(old(SvcKeyOf(Snap(), s)), KindFor(d)))
      ensures ample ==> ok
    {
      HasItsType(Snap(), Txt(s));
      var data;
      changed, data := ChooseTxt(s, items, ttl);
      d := data;
      ok := UpdateKnown(s, e, data, changed, now);
    }

    method ReceiveKnownTxt(s: Ref, e: Ref, items: seq<TxtItem>, ttl: nat, now: int) returns (r: Result)
      requires Sound(Snap()) && s in services && s in owner && owner[s] == e
      modifies this
      ensures RecordSpec(old(Snap()), Snap(), r,
                         Row(TxtKey(old(SvcKeyOf(Snap(), s))), TxtData(items, ttl), "", Deadline(ttl, now)),
                         SameTxt(items, ttl), TXT)
      ensures ample ==> r != Error
    {
      ghost var st, row := Snap(), Row(TxtKey(SvcKeyOf(Snap(), s)), TxtData(items, ttl), "", Deadline(ttl, now));
      var ok, changed;
      ghost var d;
      ok, changed, d := StoreTxt(s, e, items, ttl, now);
      r := if !ok then Error else if changed then Updated else NoChange;
      TxtKnown(st, Snap(), ok, s, d, row, items, ttl, changed);
    }

    method ReceiveTxt(netif: nat, ip: nat, names: Names, items: seq<TxtItem>, ttl: nat, now: int) returns (r: Result)
      requires Sound(Snap()) && NonEmptyNames(names)
      modifies this
      ensures RecordSpec(old(Snap()), Snap(), r,
                         Row(TxtKey(SvcKey(netif, ip, names)), TxtData(items, ttl), "", Deadline(ttl, now)),
                         SameTxt(items, ttl), TXT)
      ensures ample ==> r != Error
    {
      ghost var st, row := Snap(), Row(TxtKey(SvcKey(netif, ip, names)), TxtData(items, ttl), "", Deadline(ttl, now));
      var s, e := Lookup(netif, ip, names);
      if s.None? {
        var ok := AddFirst(Host(netif, ip, ""), names, TxtData(items, ttl), now);
        r := if ok then Added else Error;
        FirstSpec(st, Snap(), ok, row, SameTxt(items, ttl), TXT);
      } else {
        r := ReceiveKnownTxt(s.value, e.value, items, ttl, now);
      }
    }

    /** mdns_priv_cache_update_txt; the receiver only calls it with an instance, service and protocol */
    method UpdateTxt(netif: nat, ip: nat, instance: string, service: string, proto: string, items: seq<TxtItem>,
                     ttl: nat, now: int)
      returns (r: Result)
      requires Sound(Snap()) && instance != "" && service != "" && proto != ""
      modifies this
      ensures TxtUpdated(old(Snap()), Snap(), r, netif, ip, instance, service, proto, items, ttl, now)
      ensures ample ==> r != Error
    {
      var names := FoldNames(instance, service, proto);
      if ttl == 0 {
        r := Goodbye(netif, ip, names, TxtData(items, ttl), now);
      } else {
        r := ReceiveTxt(netif, ip, names, items, ttl, now);
      }
    }

    // ---------------------------------------------------------------- addresses

    method FindAddr(e: Ref, addr: Ip) returns (a: Option<Ref>)
      requires Placed(Snap()) && e in addrList
      ensures a.Some? ==>
                Adr(e, a.value) in records && records[Adr(e, a.value)].AdrData? && records[Adr(e, a.value)].addr == addr
      ensures a.None? ==> forall b | Adr(e, b) in records :: AddrAt(Snap(), e, b) != addr
    {
      ghost var st := Snap();
      var list := addrList[e];
      for i := 0 to |list|
        invariant forall j | 0 <= j < i :: AddrAt(st, e, list[j]) != addr
      {
        assert list[i] in st.addrList[e];
        if records[Adr(e, list[i])].addr == addr {
          return Some(list[i]);
        }
      }
      a := None;
    }

    /** A new address of an entry. */
    method AddAddr(e: Ref, addr: Ip, ttl: nat, now: int) returns (ok: bool)
      requires Indexed(Snap()) && Fresh(Snap()) && e in addrList
      modifies this
      ensures !ok ==> Snap() == old(Snap())
      ensures ok ==> Snap() == NewAddr(old(Snap()), e, AdrData(addr, ttl), Deadline(ttl, now))
      ensures ample ==> ok
    {
      ghost var st := Snap();
      ok := Allocate();
      if !ok {
        return;
      }
      var a := next;
      assert Adr(e, a) !in records;
      ok := ExpiryNew(Adr(e, a), e);
      if !ok {
        return;
      }
      NewIsSchedulable(st, Adr(e, a), Node(Adr(e, a), e, false, INT64_MAX),
                       Node(Adr(e, a), e, true, Deadline(ttl, now)));
      Refresh(Adr(e, a), e, AdrData(addr, ttl), now);
      LinkAddr(e);
    }

    method LinkAddr(e: Ref)
      requires e in addrList
      modifies this`addrList, this`next
      ensures addrList == old(addrList)[e := [old(next)] + old(addrList)[e]] && next == old(next) + 1
    {
      addrList, next := addrList[e := [next] + addrList[e]], next + 1;
    }

    method MarkServices(list: seq<Ref>, k: Kind)
      requires forall s | s in list :: s in marks
      modifies this
      ensures Snap() == MarkAll(old(Snap()), list, k)
    {
      ghost var st := Snap();
      var i := 0;
      assert list[0..] == list;
      while i < |list|
        invariant 0 <= i <= |list|
        invariant forall s | s in list :: s in marks
        invariant MarkAll(Snap(), list[i..], k) == MarkAll(st, list, k)
      {
        assert list[i..][0] == list[i] && list[i..][1..] == list[i + 1..];
        MarkSyncOut(list[i], k);
        i := i + 1;
      }
    }

    /** The address part of cache_update_addr, for an entry that is there or was just created. */
    method StoreAddr(e: Ref, addr: Ip, ttl: nat, now: int, ghost st: State, ghost h: Host) returns (r: Result)
      requires Sound(st) && EntryFor(st, h, e) && Snap() == WithEntry(st, h, e)
      modifies this
      ensures AddrSpec(st, Snap(), r, AdrRow(h, addr, ttl, Deadline(ttl, now)))
      ensures ample ==> r != Error
    {
      ghost var p := Snap();
      AddrReady(st, p, h, e);
      var a := FindAddr(e, addr);
      if a.Some? {
        assert e in st.entries;
        r := RefreshAddr(e, a.value, ttl, now);
      } else {
        r := AppendAddr(e, addr, ttl, now, st, h);
      }
    }

    method RefreshAddr(e: Ref, a: Ref, ttl: nat, now: int) returns (r: Result)
      requires Sound(Snap()) && e in entries && Adr(e, a) in records && records[Adr(e, a)].AdrData?
      modifies this
      ensures AddrSpec(old(Snap()), Snap(), r,
                       AdrRow(old(entries[e]), old(records[Adr(e, a)].addr), ttl, Deadline(ttl, now)))
      ensures ample ==> r != Error
    {
      ghost var st := Snap();
      AddrReady(st, st, entries[e], e);
      ServicesAreMarked(st, st, entries[e], e);
      KnownIsSchedulable(st, Adr(e, a));
      var d := records[Adr(e, a)];
      Refresh(Adr(e, a), e, AdrData(d.addr, ttl), now);
      ghost var p := Snap();
      r := if d.ttl != ttl then Updated else NoChange;
      if d.ttl != ttl {
        MarkServices(serviceList[e], ADDR);
      }
      AddrAgain(st, p, Snap(), e, a, ttl, Deadline(ttl, now), r);
    }

    method AppendAddr(e: Ref, addr: Ip, ttl: nat, now: int, ghost st: State, ghost h: Host) returns (r: Result)
      requires Sound(st) && EntryFor(st, h, e) && Snap() == WithEntry(st, h, e)
      requires forall b | Adr(e, b) in records :: AddrAt(Snap(), e, b) != addr
      modifies this
      ensures AddrSpec(st, Snap(), r, AdrRow(h, addr, ttl, Deadline(ttl, now)))
      ensures ample ==> r != Error
    {
      ghost var p := Snap();
      AddrReady(st, p, h, e);
      var ok := AddAddr(e, addr, ttl, now);
      if ok {
        r := Updated;
        ghost var q := Snap();
        ServicesAreMarked(st, p, h, e);
        MarkServices(serviceList[e], ADDR);
        AddrNew(st, p, q, Snap(), h, e, addr, ttl, Deadline(ttl, now));
      } else {
        r := Error;
        RemoveEntryIfEmpty(e);
        AddrGone(st, Snap(), h, e, AdrRow(h, addr, ttl, Deadline(ttl, now)));
      }
    }

    /** FindAddr on a sound cache */
    method LookupAddr(e: Ref, addr: Ip) returns (a: Option<Ref>)
      requires Sound(Snap()) && e in entries
      ensures a.Some? ==>
                Adr(e, a.value) in records && records[Adr(e, a.value)].AdrData? && records[Adr(e, a.value)].addr == addr
      ensures a.None? ==> forall b | Adr(e, b) in records :: AddrAt(Snap(), e, b) != addr
    {
      AddrReady(Snap(), Snap(), entries[e], e);
      a := FindAddr(e, addr);
    }

    method AddrGoodbyeAt(e: Ref, addr: Ip, now: int) returns (r: Result)
      requires Sound(Snap()) && e in entries
      modifies this
      ensures ByeSpec(old(Snap()), Snap(), r, AdrKey(old(entries[e]), addr))
    {
      ghost var st, k := Snap(), AdrKey(entries[e], addr);
      var a := LookupAddr(e, addr);
      if a.None? {
        NoAddrLeaves(st, e, addr);
        r := NoChange;
      } else {
        assert KeyOf(st, Adr(e, a.value)) == k;
        SayGoodbye(Adr(e, a.value), e, now);
        r := Updated;
        GoodbyeFollows(st, Rows(Snap()), Adr(e, a.value), k, r);
      }
    }

    method AddrGoodbye(h: Host, addr: Ip, now: int) returns (r: Result)
      requires Sound(Snap())
      modifies this
      ensures ByeSpec(old(Snap()), Snap(), r, AdrKey(h, addr))
    {
      var entry := FindHost(h);
      if entry.None? {
        NoHostLeaves(Snap(), h, addr);
        r := NoChange;
      } else {
        r := AddrGoodbyeAt(entry.value, addr, now);
      }
    }

    method FindHost(h: Host) returns (e: Option<Ref>)
      requires Sound(Snap())
      ensures e.Some? ==> e.value in entries && entries[e.value] == h
      ensures e.None? ==> forall f | f in entries :: entries[f] != h
    {
      Basics(Snap());
      e := FindEntry(h);
    }

    method GetHost(h: Host, create: bool) returns (e: Option<Ref>)
      requires Sound(Snap())
      modifies this
      ensures e.None? ==> Snap() == old(Snap()) && (!create ==> forall f | f in entries :: entries[f] != h)
      ensures e.Some? ==> EntryFor(old(Snap()), h, e.value) && Snap() == WithEntry(old(Snap()), h, e.value)
      ensures e.Some? && !create ==> e.value in old(entries)
      ensures ample && create ==> e.Some?
    {
      Basics(Snap());
      if create {
        e := GetOrAddEntry(h);
      } else {
        e := FindEntry(h);
      }
    }

    /** cache_update_addr */
    method UpdateAddr(netif: nat, ip: nat, hostname: string, addr: Ip, ttl: nat, create: bool,
                      now: int) returns (r: Result)
      requires Sound(Snap())
      modifies this
      ensures AddrUpdated(old(Snap()), Snap(), r, netif, ip, hostname, addr, ttl, create, now)
      ensures ample ==> r != Error
    {
      var h := Host(netif, ip, Fold(hostname));
      ghost var st := Snap();
      if ttl == 0 {
        r := AddrGoodbye(h, addr, now);
        return;
      }
      var entry := GetHost(h, create);
      if entry.None? {
        r := if create then Error else NoChange;
        return;
      }
      r := StoreAddr(entry.value, addr, ttl, now, st, h);
    }

    /** A browse is interested in a service of this entry. */
    method EntryHasConsumer(e: Ref, consumed: (string, string) -> bool) returns (b: bool)
      requires Sound(Snap()) && e in entries
      ensures b == HasConsumer(Snap(), e, consumed)
    {
      ghost var st := Snap();
      ServicesOf(st, e);
      var list := serviceList[e];
      for i := 0 to |list|
        invariant forall j | 0 <= j < i :: !consumed(services[list[j]].service, services[list[j]].proto)
      {
        if consumed(services[list[i]].service, services[list[i]].proto) {
          return true;
        }
      }
      b := false;
    }

    /** mdns_priv_cache_update_existing_addr */
    method UpdateExistingAddr(netif: nat, ip: nat, hostname: string, addr: Ip, ttl: nat, consumed: (string,
                                string) -> bool, now: int)
      returns (r: Result)
      requires Sound(Snap())
      modifies this
      ensures var h := Host(netif, ip, Fold(hostname));
              if !Awaited(old(Snap()), h, consumed) then r == NoChange && Snap() == old(Snap())
              else if ttl == 0 then ByeSpec(old(Snap()), Snap(), r, AdrKey(h, addr))
              else AddrSpec(old(Snap()), Snap(), r, AdrRow(h, addr, ttl, Deadline(ttl, now)))
      ensures ample ==> r != Error
    {
      ghost var st := Snap();
      r := NoChange;
      var entry := FindHost(Host(netif, ip, Fold(hostname)));
      if entry.None? {
        return;
      }
      OneHost(st, entry.value, consumed);
      var consumer := EntryHasConsumer(entry.value, consumed);
      if consumer {
        r := UpdateAddr(netif, ip, hostname, addr, ttl, false, now);
      }
    }

    // ---------------------------------------------------------------- expiry

    /** Take a record out of the list of its service or entry. */
    method Detach(r: Rec)
      modifies this`subtypeList, this`addrList
      ensures subtypeList == if r.Sub? && r.s in old(subtypeList)
                             then old(subtypeList)[r.s := Without(old(subtypeList)[r.s], r.t)] else old(subtypeList)
      ensures addrList == if r.Adr? && r.e in old(addrList)
                          then old(addrList)[r.e := Without(old(addrList)[r.e], r.a)] else old(addrList)
    {
      if r.Sub? && r.s in subtypeList {
        var rest := Unlink(subtypeList[r.s], r.t);
        subtypeList := subtypeList[r.s := rest];
      } else if r.Adr? && r.e in addrList {
        var rest := Unlink(addrList[r.e], r.a);
        addrList := addrList[r.e := rest];
      }
    }

    /** Take the head off the list and its record out of the cache. */
    method ForgetHead()
      requires expiry != [] && Distinct(expiry)
      modifies this
      ensures Snap() == DropRecord(old(Snap()), old(expiry)[0].rec)
    {
      var r := expiry[0].rec;
      DropAt(expiry, 0);
      expiry := expiry[1..];
      records := records - {r};
      Detach(r);
    }

    method ExpireServiceRecord()
      requires Sound(Snap()) && expiry != [] && !expiry[0].rec.Adr?
      modifies this
      ensures Expires(old(Snap()), Snap(), RowOf(old(Snap()), old(expiry)[0]))
    {
      ghost var st := Snap();
      var n := expiry[0];
      var r, e, s := n.rec, n.entry, n.rec.s;
      HeadFacts(st);
      NodeFacts(st, n);
      ForgetHead();
      if Ptr(s) !in records && Srv(s) !in records && Txt(s) !in records && subtypeList[s] == [] {
        RemoveServiceIfEmpty(e, s);
      } else if r.Srv? || r.Txt? {
        MarkSyncOut(s, if r.Srv? then SRV else TXT);
      }
      RecordExpires(st, Snap(), n);
    }

    method ExpireAddress()
      requires Sound(Snap()) && expiry != [] && expiry[0].rec.Adr?
      modifies this
      ensures Expires(old(Snap()), Snap(), RowOf(old(Snap()), old(expiry)[0]))
    {
      ghost var st := Snap();
      var n := expiry[0];
      HeadFacts(st);
      NodeFacts(st, n);
      HeadAddr(st, n);
      ForgetHead();
      MarkServices(serviceList[n.entry], ADDR);
      MarkAllMarks(DropRecord(st, n.rec), st.serviceList[n.entry], ADDR);
      RemoveEntryIfEmpty(n.entry);
      AddrExpires(st, Snap(), n);
    }

    method ExpireHead() returns (k: Key)
      requires Sound(Snap()) && expiry != []
      modifies this
      ensures Expires(old(Snap()), Snap(), RowOf(old(Snap()), old(expiry)[0]))
      ensures k == RowOf(old(Snap()), old(expiry)[0]).key
    {
      var n := expiry[0];
      NodeFacts(Snap(), n);
      k := KeyAt(entries[n.entry], if n.rec.Adr? then Names("", "", "") else services[n.rec.s], n.rec, records[n.rec]);
      if n.rec.Adr? {
        ExpireAddress();
      } else {
        ExpireServiceRecord();
      }
    }

    /** mdns_priv_browse_notify_ptr_goodbye_from_service_cache: the browses that are told about the loss */
    static method AskingBrowses(k: Key, browses: seq<Browse>) returns (indices: seq<nat>)
      ensures NoRepeat(indices) && forall i :: i in indices <==> 0 <= i < |browses| && Asks(browses[i], k)
    {
      indices := [];
      for i := 0 to |browses|
        invariant NoRepeat(indices) && forall j :: j in indices <==> 0 <= j < i && Asks(browses[j], k)
      {
        if Asks(browses[i], k) {
          NoRepeatSnoc<nat>(indices, i);
          indices := indices + [i];
        }
      }
    }

    /** mdns_priv_cache_remove_expired_records. byes are the PTR records whose loss is announced and told is which
        browses are called about them, in the order of the calls. */
    method RemoveExpired(now: int, browses: seq<Browse>) returns (told: seq<Goodbye>, ghost byes: seq<Key>)
      requires Sound(Snap())
      modifies this
      ensures Rows(Snap()) == Unexpired(old(Rows(Snap())), now)
      ensures Passed(old(Snap()), Snap(), ExpiredRows(old(Rows(Snap())), now), byes)
      ensures ToldGoodbyes(told, ExpiredRows(old(Rows(Snap())), now), browses)
    {
      ghost var st := Snap();
      ghost var gone: set<Row> := {};
      told, byes := [], [];
      PassNone(st);
      while expiry != [] && expiry[0].expires <= now
        invariant Passed(st, Snap(), gone, byes) && forall x | x in gone :: x.deadline <= now
        invariant ToldGoodbyes(told, gone, browses)
        decreases |Rows(Snap())|
      {
        ghost var p := Snap();
        ghost var x := RowOf(p, p.expiry[0]);
        var k := ExpireHead();
        PassOne(st, p, Snap(), gone, byes, x);
        var indices := AskingBrowses(k, browses);
        TellGoodbye(told, gone, browses, x, indices);
        told := told + GoodbyesFor(indices, k);
        gone := gone + {x};
        if IsAnnounced(k) {
          byes := byes + [k];
        }
      }
      PassedAll(st, Snap(), gone, byes, now);
    }

    // ---------------------------------------------------------------- unsubscribed records

    /** cache_record_has_consumer */
    method RecordHasConsumer(n: Node, browses: seq<Browse>) returns (b: bool)
      requires Sound(Snap()) && n in expiry
      ensures b == (n.rec in WantedRecs(Snap(), browses))
    {
      NodeFacts(Snap(), n);
      if n.rec.Adr? {
        OneHost(Snap(), n.entry, (service, proto) => Browsed(browses, service, proto));
        b := EntryHasConsumer(n.entry, (service, proto) => Browsed(browses, service, proto));
      } else {
        var names := services[n.rec.s];
        b := match n.rec
          case Ptr(_) => BrowsedSubtype(browses, names.service, names.proto, "")
          case Sub(_, _) => BrowsedSubtype(browses, names.service, names.proto, records[n.rec].name)
          case _ => Browsed(browses, names.service, names.proto);
      }
    }

    /** One turn of the second loop of mdns_priv_cache_trim_unsubscribed_records: a node that nobody wants moves to
        i. */
    method TrimOne(list: seq<Node>, i: nat, k: nat, deadline: int, browses: seq<Browse>) returns (next: seq<Node>)
      requires Sound(Snap()) && i <= k < |expiry|
      requires list == TrimmedList(expiry[..i], expiry[i..k], WantedRecs(Snap(), browses), deadline) + expiry[k..]
      ensures |next| == |expiry|
      ensures next == TrimmedList(expiry[..i], expiry[i..k + 1], WantedRecs(Snap(), browses), deadline)
                      + expiry[k + 1..]
    {
      StepTrim(list, expiry, i, k, WantedRecs(Snap(), browses), deadline);
      var n := list[k];
      var consumer := RecordHasConsumer(n, browses);
      next := if consumer then list else list[..i] + [n.(expires := deadline)] + list[i..k] + list[k + 1..];
    }

    /** The second loop, from the first node that is later than the deadline. */
    method TrimFrom(i: nat, deadline: int, browses: seq<Browse>) returns (list: seq<Node>)
      requires Sound(Snap()) && i <= |expiry|
      ensures list == TrimmedList(expiry[..i], expiry[i..], WantedRecs(Snap(), browses), deadline)
    {
      list := expiry;
      TrimEnds(expiry, i, WantedRecs(Snap(), browses), deadline);
      for k := i to |expiry|
        invariant list == TrimmedList(expiry[..i], expiry[i..k], WantedRecs(Snap(), browses), deadline) + expiry[k..]
      {
        list := TrimOne(list, i, k, deadline, browses);
      }
    }

    /** mdns_priv_cache_trim_unsubscribed_records */
    method TrimUnsubscribed(now: int, browses: seq<Browse>)
      requires Sound(Snap())
      modifies this`expiry
      ensures IsTrimmed(old(Snap()), Snap(), browses, now + 300 * 1_000_000)
    {
      ghost var st := Snap();
      var deadline := now + UNSUBSCRIBED_GRACE_SEC * US_PER_SEC;
      var i := 0;
      while i < |expiry| && expiry[i].expires <= deadline
        invariant 0 <= i <= |expiry| && forall j | 0 <= j < i :: expiry[j].expires <= deadline
        invariant expiry == st.expiry
      {
        i := i + 1;
      }
      HeadOfList(st, i, deadline);
      var list := TrimFrom(i, deadline, browses);
      expiry := list;
      assert st.expiry == st.expiry[..i] + st.expiry[i..];
      TrimDone(st, st.expiry[..i], st.expiry[i..], Snap(), browses, deadline);
    }

    // ---------------------------------------------------------------- reporting to the browses

    /** browse_matches_service_cache_with_subtype */
    method BrowseMatches(b: Browse, s: Ref) returns (matches: bool, t: Option<Ref>)
      requires Placed(Snap()) && s in services && s in subtypeList
      ensures matches == MatchesAt(Snap(), b, s)
      ensures matches && b.subtype != "" ==>
                t.Some? && Sub(s, t.value) in records && records[Sub(s, t.value)].SubData?
                && SubName(Snap(), s, t.value) == b.subtype
    {
      t := None;
      if !(b.running && b.notifier && b.service == services[s].service && b.proto == services[s].proto) {
        return false, t;
      }
      if b.subtype == "" {
        return Ptr(s) in records, t;
      }
      t := FindSubtype(s, b.subtype);
      matches := t.Some?;
    }

    /** ... and browse_need_update */
    method BrowseIsDue(b: Browse, s: Ref) returns (due: bool)
      requires Placed(Snap()) && UniqueSubtypes(Snap()) && s in services && s in subtypeList && s in marks
      ensures due == DueAt(Snap(), b, s)
    {
      var matches, t := BrowseMatches(b, s);
      if !matches {
        due := false;
      } else if SRV in marks[s] || TXT in marks[s] || ADDR in marks[s] {
        due := true;
      } else if b.subtype == "" {
        due := PTR in marks[s];
      } else if SUBTYPE !in marks[s] {
        due := false;
      } else {
        OneSubtype(Snap(), s, t.value);
        due := records[Sub(s, t.value)].pending;
      }
    }

    /** mdns_priv_browse_update_from_service_cache: the browses that are told about the service */
    method DueBrowses(s: Ref, browses: seq<Browse>) returns (indices: seq<nat>)
      requires Placed(Snap()) && UniqueSubtypes(Snap()) && s in services && s in subtypeList && s in marks
      ensures NoRepeat(indices) && forall i :: i in indices <==> 0 <= i < |browses| && DueAt(Snap(), browses[i], s)
    {
      indices := [];
      for i := 0 to |browses|
        invariant NoRepeat(indices) && forall j :: j in indices <==> 0 <= j < i && DueAt(Snap(), browses[j], s)
      {
        var due := BrowseIsDue(browses[i], s);
        if due {
          NoRepeatSnoc<nat>(indices, i);
          indices := indices + [i];
        }
      }
    }

    method SettleSubtypes(s: Ref, list: seq<Ref>)
      requires forall t | t in list :: Sub(s, t) in records && records[Sub(s, t)].SubData?
      modifies this`records
      ensures forall r :: r in records <==> r in old(records)
      ensures forall r | r in records ::
                records[r] == if r.Sub? && r.s == s && r.t in list then SettledData(old(records)[r])
                else old(records)[r]
    {
      for i := 0 to |list|
        invariant forall r :: r in records <==> r in old(records)
        invariant forall r | r in records ::
            records[r] == if r.Sub? && r.s == s && r.t in list[..i] then SettledData(old(records)[r])
            else old(records)[r]
      {
        assert list[..i + 1] == list[..i] + [list[i]];
        records := records[Sub(s, list[i]) := records[Sub(s, list[i])].(pending := false)];
      }
      assert list[..|list|] == list;
    }

    /** service_cache_clear_sync_out */
    method ClearSyncOut(s: Ref)
      requires Placed(Snap()) && s in subtypeList && s in marks
      modifies this`marks, this`records
      ensures Snap() == ClearOne(old(Snap()), s)
    {
      ghost var st := Snap();
      ListedSubtypes(st, s);
      SettleSubtypes(s, subtypeList[s]);
      marks := marks[s := {}];
      Cleared(st, records, s);
    }

    /** One turn of the inner loop of mdns_priv_cache_process_sync */
    method SyncService(e: Ref, s: Ref, browses: seq<Browse>, notices: seq<Notice>, ghost st: State,
                       ghost done: set<Ref>)
      returns (more: seq<Notice>)
      requires Sound(st) && Snap() == Settle(st, done) && (forall u | u in done :: u in st.services)
      requires s in st.services && s !in done && s in st.owner && st.owner[s] == e && e in st.entries
      requires Told(st, done, notices, browses) && NoRepeat(notices)
      modifies this`marks, this`records
      ensures Snap() == Settle(st, done + {s}) && Told(st, done + {s}, more, browses) && NoRepeat(more)
    {
      SyncReady(st, s);
      SettleReady(st, Snap(), done);
      if marks[s] == {} {
        UnmarkedIsSettled(st, s);
        NothingToClear(st, done, s);
        NothingDue(st, done, notices, browses, s);
        more := notices;
      } else {
        var indices := DueBrowses(s, browses);
        StillDue(st, done, browses, s);
        Tell(st, done, notices, browses, s, indices);
        more := notices + NoticesFor(indices, ServiceKey(entries[e], services[s]));
        ClearSettles(st, done, s);
        ClearSyncOut(s);
      }
    }

    method SyncEntry(e: Ref, browses: seq<Browse>, notices: seq<Notice>, ghost st: State, ghost done: set<Ref>)
      returns (more: seq<Notice>)
      requires Sound(st) && Snap() == Settle(st, done) && (forall u | u in done :: u in st.services)
      requires e in st.entries && e in st.serviceList && forall s | s in st.serviceList[e] :: s !in done
      requires Told(st, done, notices, browses) && NoRepeat(notices)
      modifies this`marks, this`records
      ensures Snap() == Settle(st, done + Members(st.serviceList[e])) && NoRepeat(more)
      ensures Told(st, done + Members(st.serviceList[e]), more, browses)
    {
      var list := serviceList[e];
      more := notices;
      ListedOnce(st, e);
      assert done + Members(list[..0]) == done;
      for i := 0 to |list|
        invariant Snap() == Settle(st, done + Members(list[..i])) && NoRepeat(more)
        invariant Told(st, done + Members(list[..i]), more, browses)
      {
        MembersNext(list, i);
        assert done + Members(list[..i]) + {list[i]} == done + Members(list[..i + 1]);
        more := SyncService(e, list[i], browses, more, st, done + Members(list[..i]));
      }
      assert list[..|list|] == list;
    }

    /** mdns_priv_cache_process_sync */
    method ProcessSync(browses: seq<Browse>) returns (notices: seq<Notice>)
      requires Sound(Snap())
      modifies this`marks, this`records, this`syncPending
      ensures SyncSpec(old(Snap()), Snap(), notices, browses)
    {
      ghost var st := Snap();
      ghost var all := set s | s in services;
      notices := [];
      if !syncPending {
        NothingToSync(st, all, browses);
        SyncDone(st, Snap(), all, notices, browses);
        return;
      }
      syncPending := false;
      SettleNone(st);
      assert ServicesIn(st, st.cache[..0]) == {};
      for i := 0 to |cache|
        invariant Snap() == Settle(st, ServicesIn(st, st.cache[..i])) && NoRepeat(notices)
        invariant Told(st, ServicesIn(st, st.cache[..i]), notices, browses)
      {
        NextEntry(st, i);
        notices := SyncEntry(cache[i], browses, notices, st, ServicesIn(st, st.cache[..i]));
      }
      assert st.cache[..|st.cache|] == st.cache;
      AllServices(st);
      SyncDone(st, Snap(), ServicesIn(st, st.cache), notices, browses);
    }

    /** mdns_priv_cache_notify_browse: a new browse is told of every service it matches. */
    method NotifyBrowse(b: Browse) returns (told: seq<SvcKey>)
      requires Sound(Snap())
      ensures IsToldOf(Snap(), told, b)
    {
      ghost var st := Snap();
      told := [];
      ListingNone(st, b);
      for i := 0 to |cache|
        invariant Listing(st, ServicesIn(st, st.cache[..i]), told, b)
      {
        NextEntry(st, i);
        told := NotifyEntry(cache[i], b, told, ServicesIn(st, st.cache[..i]));
      }
      ListingAll(st, told, b);
    }

    method NotifyEntry(e: Ref, b: Browse, told: seq<SvcKey>, ghost done: set<Ref>) returns (more: seq<SvcKey>)
      requires Sound(Snap()) && e in entries && e in serviceList && Listing(Snap(), done, told, b)
      requires (forall u | u in done :: u in services) && forall s | s in serviceList[e] :: s !in done
      ensures Listing(Snap(), done + Members(serviceList[e]), more, b)
    {
      ghost var st := Snap();
      var list := serviceList[e];
      more := told;
      ListedOnce(st, e);
      assert done + Members(list[..0]) == done;
      for i := 0 to |list|
        invariant Listing(st, done + Members(list[..i]), more, b)
      {
        MembersNext(list, i);
        SyncReady(st, list[i]);
        PlacedBasics(st);
        assert done + Members(list[..i]) + {list[i]} == done + Members(list[..i + 1]);
        var matches, t := BrowseMatches(b, list[i]);
        ListNext(st, done + Members(list[..i]), more, b, list[i]);
        if matches {
          more := more + [ServiceKey(entries[e], services[list[i]])];
        }
      }
      assert list[..|list|] == list;
    }

    // ---------------------------------------------------------------- the end

    /** mdns_priv_cache_clear */
    method Clear()
      modifies this
      ensures Sound(Snap()) && Rows(Snap()) == {} && Reports(Snap()) == {} && entries == map[] && services == map[]
    {
      cache, entries, serviceList, addrList := [], map[], map[], map[];
      services, subtypeList, marks, records := map[], map[], map[], map[];
      expiry, syncPending, owner := [], false, map[];
      EmptyIsSound(Snap());
    }
  }
}
