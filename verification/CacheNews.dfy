/** Who hears of what: an update of the cache and the report to the browses that follows it, together, and which records
    are kept for whom. */
module CacheNews {
  import opened CaseFold
  import opened CacheModel
  import opened CacheViews
  import opened CacheSpec
  import opened CacheReports
  import opened CacheOutcomes
  import opened CacheExpiry
  import opened CacheTrim
  import opened CacheGoodbyes
  import opened CacheSync
  import opened CacheContracts

  /** Nothing is pending, as after every report. */
  ghost predicate IsQuiet(st: State) {
    Reports(st) == {} && forall x | x in Rows(st) && x.data.SubData? :: !x.data.pending
  }

  lemma QuietAfterReport(st: State, q: State, notices: seq<Notice>, browses: seq<Browse>)
    requires SyncSpec(st, q, notices, browses)
    ensures IsQuiet(q)
  {
    forall x | x in Rows(q) && x.data.SubData? ensures !x.data.pending {
      var y :| y in Rows(st) && x == SettledRow(y);
    }
  }

  /** A running browse with a notifier for this service and protocol. */
  predicate Listens(b: Browse, svc: SvcKey) {
    b.running && b.notifier && b.service == svc.names.service && b.proto == svc.names.proto
  }

  /** There is the record by which it finds the service. */
  ghost predicate Finds(rows: set<Row>, b: Browse, svc: SvcKey) {
    HasKey(rows, if b.subtype == "" then PtrKey(svc) else SubKey(svc, b.subtype))
  }

  lemma NobodyIsTold(q: State, p: State, notices: seq<Notice>, browses: seq<Browse>)
    requires Reports(q) == {} && SyncSpec(q, p, notices, browses)
    ensures forall i: nat, svc :: Notice(i, svc) !in notices
  {
  }

  // ------------------------------------------------------------------ PTR records

  lemma OnlyPending(st: State, q: State, r: Result, svc: SvcKey, name: string, ttl: nat, deadline: int, other: string)
    requires IsQuiet(st) && SubtypeSpec(st, q, r, svc, name, ttl, deadline) && (r.Added? || r.Updated?)
    ensures PendingSubtype(Rows(q), svc, other) <==> other == name
  {
    var row := SubRow(svc, SubData(name, ttl, true), deadline);
    assert row in Rows(q) && row.key == SubKey(svc, name);
  }

  lemma PlainIsTold(q: State, p: State, svc: SvcKey, notices: seq<Notice>, browses: seq<Browse>, i: nat, s: SvcKey)
    requires Reports(q) == {Report(svc, PTR)} && HasKey(Rows(q), PtrKey(svc))
    requires SyncSpec(q, p, notices, browses) && i < |browses|
    ensures Notice(i, s) in notices <==> s == svc && Listens(browses[i], s) && browses[i].subtype == ""
  {
  }

  lemma SubtypeIsTold(q: State, p: State, svc: SvcKey, name: string, notices: seq<Notice>, browses: seq<Browse>, i: nat,
                      s: SvcKey)
    requires Reports(q) == {Report(svc, SUBTYPE)} && HasKey(Rows(q), SubKey(svc, name)) && name != ""
    requires SyncSpec(q, p, notices, browses) && i < |browses|
    requires PendingSubtype(Rows(q), svc, browses[i].subtype) <==> browses[i].subtype == name
    ensures Notice(i, s) in notices <==> s == svc && Listens(browses[i], s) && browses[i].subtype == name
  {
  }

  /** After a PTR record that is news the next report tells exactly the browses of its service that ask for its subtype,
      or for none if it has none; after one that is no news nobody. */
  lemma PtrIsTold(st: State, q: State, p: State, r: Result, netif: nat, ip: nat, instance: string, service: string,
                  proto: string, subtype: string, ttl: nat, now: int, notices: seq<Notice>, browses: seq<Browse>,
                  i: nat, s: SvcKey)
    requires IsQuiet(st) && PtrUpdated(st, q, r, netif, ip, instance, service, proto, subtype, ttl, now)
    requires SyncSpec(q, p, notices, browses) && i < |browses|
    ensures Notice(i, s) in notices <==>
            && s == SvcKey(netif, ip, FoldNames(instance, service, proto))
            && ttl > 0 && (r.Added? || r.Updated?) && Listens(browses[i], s) && browses[i].subtype == Fold(subtype)
  {
    var svc := SvcKey(netif, ip, FoldNames(instance, service, proto));
    if !NonEmptyNames(svc.names) || ttl == 0 || !(r.Added? || r.Updated?) {
      NobodyIsTold(q, p, notices, browses);
    } else if subtype == "" {
      assert Row(PtrKey(svc), PtrData(ttl), "", Deadline(ttl, now)) in Rows(q);
      PlainIsTold(q, p, svc, notices, browses, i, s);
    } else {
      assert SubRow(svc, SubData(Fold(subtype), ttl, true), Deadline(ttl, now)) in Rows(q);
      OnlyPending(st, q, r, svc, Fold(subtype), ttl, Deadline(ttl, now), browses[i].subtype);
      SubtypeIsTold(q, p, svc, Fold(subtype), notices, browses, i, s);
    }
  }

  // ------------------------------------------------------------------ SRV, TXT and addresses

  /** One report is pending, of an SRV or TXT record or of an address. */
  lemma OneIsTold(q: State, p: State, svc: SvcKey, k: Kind, notices: seq<Notice>, browses: seq<Browse>, i: nat,
                  s: SvcKey)
    requires (k == SRV || k == TXT) && Reports(q) == {Report(svc, k)}
    requires SyncSpec(q, p, notices, browses) && i < |browses|
    ensures Notice(i, s) in notices <==> s == svc && Listens(browses[i], s) && Finds(Rows(q), browses[i], s)
  {
  }

  /** After an SRV record that is news the next report tells exactly the browses that find the service. */
  lemma SrvIsTold(st: State, q: State, p: State, r: Result, netif: nat, ip: nat, host: string, instance: string,
                  service: string, proto: string, data: Data, now: int, notices: seq<Notice>, browses: seq<Browse>,
                  i: nat, s: SvcKey)
    requires IsQuiet(st) && SrvUpdated(st, q, r, netif, ip, host, instance, service, proto, data, now)
    requires SyncSpec(q, p, notices, browses) && i < |browses|
    ensures Notice(i, s) in notices <==>
            && s == SvcKey(netif, ip, FoldNames(instance, service, proto))
            && data.ttl > 0 && (r.Added? || r.Updated?) && Listens(browses[i], s) && Finds(Rows(q), browses[i], s)
  {
    var svc := SvcKey(netif, ip, FoldNames(instance, service, proto));
    if data.ttl > 0 && (r.Added? || r.Updated?) {
      OneIsTold(q, p, svc, SRV, notices, browses, i, s);
    } else {
      NobodyIsTold(q, p, notices, browses);
    }
  }

  /** So it is after a TXT record. */
  lemma TxtIsTold(st: State, q: State, p: State, r: Result, netif: nat, ip: nat, instance: string, service: string,
                  proto: string, items: seq<TxtItem>, ttl: nat, now: int, notices: seq<Notice>, browses: seq<Browse>,
                  i: nat, s: SvcKey)
    requires IsQuiet(st) && TxtUpdated(st, q, r, netif, ip, instance, service, proto, items, ttl, now)
    requires SyncSpec(q, p, notices, browses) && i < |browses|
    ensures Notice(i, s) in notices <==>
            && s == SvcKey(netif, ip, FoldNames(instance, service, proto))
            && ttl > 0 && (r.Added? || r.Updated?) && Listens(browses[i], s) && Finds(Rows(q), browses[i], s)
  {
    var svc := SvcKey(netif, ip, FoldNames(instance, service, proto));
    if ttl > 0 && (r.Added? || r.Updated?) {
      OneIsTold(q, p, svc, TXT, notices, browses, i, s);
    } else {
      NobodyIsTold(q, p, notices, browses);
    }
  }

  /** The service is one of the host's. */
  ghost predicate IsAtHost(st: State, h: Host, svc: SvcKey) {
    exists u :: u in st.services && HostAt(st, OwnerOf(st, u)) == h && SvcKeyOf(st, u) == svc
  }

  lemma HostIsReported(st: State, h: Host, svc: SvcKey, k: Kind)
    ensures Report(svc, k) in HostReports(st, h) <==> k == ADDR && IsAtHost(st, h, svc)
  {
  }

  /** And after an address of a host that is news, for every service of the host. */
  lemma AddrIsTold(st: State, q: State, p: State, r: Result, netif: nat, ip: nat, host: string, addr: Ip, ttl: nat,
                   create: bool, now: int, notices: seq<Notice>, browses: seq<Browse>, i: nat, s: SvcKey)
    requires IsQuiet(st) && AddrUpdated(st, q, r, netif, ip, host, addr, ttl, create, now)
    requires SyncSpec(q, p, notices, browses) && i < |browses|
    ensures Notice(i, s) in notices <==>
            && ttl > 0 && r.Updated? && IsAtHost(st, Host(netif, ip, Fold(host)), s)
            && Listens(browses[i], s) && Finds(Rows(q), browses[i], s)
  {
    var h := Host(netif, ip, Fold(host));
    if ttl > 0 && r.Updated? {
      forall k ensures Report(s, k) in Reports(q) <==> k == ADDR && IsAtHost(st, h, s) {
        HostIsReported(st, h, s, k);
      }
    } else {
      NobodyIsTold(q, p, notices, browses);
    }
  }

  // ------------------------------------------------------------------ what is lost, and what is there

  /** A record of this name has a deadline that is not in the future. */
  ghost predicate HasExpired(rows: set<Row>, k: Key, now: int) {
    exists x :: x in rows && x.key == k && x.deadline <= now
  }

  /** When records expire, exactly the browses that listen for a PTR record, with its subtype or without, are told of
      its loss, and nobody is told of the loss of another record. */
  lemma LossIsTold(rows: set<Row>, now: int, told: seq<Goodbye>, browses: seq<Browse>, i: nat, k: Key)
    requires ToldGoodbyes(told, ExpiredRows(rows, now), browses) && i < |browses|
    ensures Goodbye(i, k) in told <==>
            && (k.PtrKey? || k.SubKey?) && HasExpired(rows, k, now) && Listens(browses[i], k.svc)
            && browses[i].subtype == if k.PtrKey? then "" else k.subtype
  {
    if HasExpired(rows, k, now) {
      var x :| x in rows && x.key == k && x.deadline <= now;
      assert x in ExpiredRows(rows, now);
    }
  }

  /** A new browse is told of exactly the services that it listens for and finds. */
  lemma CachedIsTold(st: State, told: seq<SvcKey>, b: Browse, svc: SvcKey)
    requires IsToldOf(st, told, b)
    ensures svc in told <==> Listens(b, svc) && Finds(Rows(st), b, svc)
  {
  }

  // ------------------------------------------------------------------ which records are kept

  /** A running browse, with a notifier or without, asks for this record. */
  ghost predicate IsAsked(st: State, k: Key, b: Browse) {
    && b.running
    && match k
       case AdrKey(h, _) =>
         exists u :: u in st.services && HostAt(st, OwnerOf(st, u)) == h
                     && st.services[u].service == b.service && st.services[u].proto == b.proto
       case PtrKey(svc) => b.service == svc.names.service && b.proto == svc.names.proto && b.subtype == ""
       case SubKey(svc, subtype) => b.service == svc.names.service && b.proto == svc.names.proto && b.subtype == subtype
       case _ => b.service == k.svc.names.service && b.proto == k.svc.names.proto
  }

  /** Every service is under an entry. */
  ghost predicate IsHoused(st: State) {
    forall u | u in st.services :: u in st.owner && st.owner[u] in st.entries
  }

  lemma SoundIsHoused(st: State)
    requires Sound(st)
    ensures IsHoused(st)
  {
    Open(st);
    assert Domains(st) && OwnedListed(st.serviceList, st.owner);
  }

  /** The host has a service that is wanted. */
  lemma AwaitedIsAt(st: State, h: Host, consumed: (string, string) -> bool)
    requires IsHoused(st)
    ensures Awaited(st, h, consumed) <==>
            exists u :: u in st.services && HostAt(st, OwnerOf(st, u)) == h
                        && consumed(st.services[u].service, st.services[u].proto)
  {
    if u :| u in st.services && HostAt(st, OwnerOf(st, u)) == h
            && consumed(st.services[u].service, st.services[u].proto)
    {
      assert HasConsumer(st, st.owner[u], consumed);
    }
  }

  lemma AddressIsAsked(st: State, k: Key, browses: seq<Browse>)
    requires IsHoused(st) && k.AdrKey?
    ensures Wanted(st, k, browses) <==> exists b :: b in browses && IsAsked(st, k, b)
  {
    AwaitedIsAt(st, k.host, (service, proto) => Browsed(browses, service, proto));
  }

  lemma WantedIsAsked(st: State, k: Key, browses: seq<Browse>)
    requires IsHoused(st)
    ensures Wanted(st, k, browses) <==> exists b :: b in browses && IsAsked(st, k, b)
  {
    if k.AdrKey? {
      AddressIsAsked(st, k, browses);
    }
  }

  /** After trimming every record is there, and it has a new deadline exactly if it would have lived longer and no
      browse asks for it. */
  lemma TrimmedExactly(st: State, q: State, browses: seq<Browse>, deadline: int, x: Row)
    requires Sound(st) && IsTrimmed(st, q, browses, deadline) && x in Rows(st)
    ensures (if x.deadline <= deadline || exists b :: b in browses && IsAsked(st, x.key, b) then x
             else x.(deadline := deadline)) in Rows(q)
  {
    SoundIsHoused(st);
    WantedIsAsked(st, x.key, browses);
    assert Trimmed(st, x, browses, deadline) in Rows(q);
  }
}
