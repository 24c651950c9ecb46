/** What a call of each update function of components/mdns/mdns_cache.c does, and what it does when names are spelled
    in other letters. */
module CacheContracts {
  import opened CaseFold
  import opened CacheModel
  import opened CacheSpec
  import opened CacheOutcomes

  /** mdns_priv_cache_update_ptr turned st into q. */
  ghost predicate PtrUpdated(st: State, q: State, r: Result, netif: nat, ip: nat, instance: string, service: string,
                             proto: string, subtype: string, ttl: nat, now: int)
  {
    var names := FoldNames(instance, service, proto);
    var svc := SvcKey(netif, ip, names);
    if !NonEmptyNames(names) then r == NoChange && q == st
    else if ttl == 0 then ByeSpec(st, q, r, if subtype == "" then PtrKey(svc) else SubKey(svc, Fold(subtype)))
    else if subtype == "" then
      RecordSpec(st, q, r, Row(PtrKey(svc), PtrData(ttl), "", Deadline(ttl, now)), SameTtl(ttl), PTR)
    else SubtypeSpec(st, q, r, svc, Fold(subtype), ttl, Deadline(ttl, now))
  }

  /** mdns_priv_cache_update_srv */
  ghost predicate SrvUpdated(st: State, q: State, r: Result, netif: nat, ip: nat, hostname: string, instance: string,
                             service: string, proto: string, data: Data, now: int)
  {
    var svc := SvcKey(netif, ip, FoldNames(instance, service, proto));
    if data.ttl == 0 then ByeSpec(st, q, r, SrvKey(svc))
    else
      RecordSpec(st, q, r, Row(SrvKey(svc), data, Fold(hostname), Deadline(data.ttl, now)),
                 SameSrv(data, Fold(hostname)), SRV)
  }

  /** mdns_priv_cache_update_txt */
  ghost predicate TxtUpdated(st: State, q: State, r: Result, netif: nat, ip: nat, instance: string, service: string,
                             proto: string, items: seq<TxtItem>, ttl: nat, now: int)
  {
    var svc := SvcKey(netif, ip, FoldNames(instance, service, proto));
    if ttl == 0 then ByeSpec(st, q, r, TxtKey(svc))
    else
      RecordSpec(st, q, r, Row(TxtKey(svc), TxtData(items, ttl), "", Deadline(ttl, now)), SameTxt(items, ttl), TXT)
  }

  /** mdns_priv_cache_update_addr */
  ghost predicate AddrUpdated(st: State, q: State, r: Result, netif: nat, ip: nat, hostname: string, addr: Ip, ttl: nat,
                              create: bool, now: int)
  {
    var h := Host(netif, ip, Fold(hostname));
    if ttl == 0 then ByeSpec(st, q, r, AdrKey(h, addr))
    else if !create && forall e | e in st.entries :: st.entries[e] != h then r == NoChange && q == st
    else AddrSpec(st, q, r, AdrRow(h, addr, ttl, Deadline(ttl, now)))
  }

  // ------------------------------------------------------------------ the same names in other letters

  /** Three names that are the same up to the case of letters. */
  ghost predicate SameNames(a: (string, string, string), b: (string, string, string)) {
    SameName(a.0, b.0) && SameName(a.1, b.1) && SameName(a.2, b.2)
  }

  lemma FoldedAlike(a: (string, string, string), b: (string, string, string))
    ensures FoldNames(a.0, a.1, a.2) == FoldNames(b.0, b.1, b.2) <==> SameNames(a, b)
  {
    FoldDecides(a.0, b.0);
    FoldDecides(a.1, b.1);
    FoldDecides(a.2, b.2);
  }

  /** A received record has a row with its name that counts as the same record. */
  lemma ReceivedStands(rows: set<Row>, rows': set<Row>, r: Result, row: Row, same: (Data, string) -> bool)
    returns (x: Row)
    requires !row.key.AdrKey? && ReceiveSpec(rows, rows', r, row, same) && r != Error
    ensures x in rows' && x.key == row.key && (x == row || same(x.data, x.target))
    ensures forall y | y in rows' && y.key == row.key :: y == x
  {
    if r.NoChange? {
      var y :| y in rows && y.key == row.key && same(y.data, y.target)
               && rows' == Upsert(rows, y.(deadline := row.deadline));
      x := y.(deadline := row.deadline);
    } else {
      x := row;
    }
  }

  /** A record that is received when there is one of its service is not added, and where there is one of its name it is
      no news exactly if that counts as the same. */
  lemma NoNews(rows: set<Row>, rows': set<Row>, r: Result, row: Row, same: (Data, string) -> bool, x: Row)
    requires !row.key.AdrKey? && ReceiveSpec(rows, rows', r, row, same) && x in rows && !x.key.AdrKey?
    requires x.key.svc == row.key.svc && (x.key == row.key ==> forall y | y in rows && y.key == x.key :: y == x)
    ensures r != Added && (x.key == row.key && r != Error ==> (r == NoChange <==> same(x.data, x.target)))
  {
  }

  /** Receiving a PTR record again, with its names in other letters: the service is not added again, and nothing has
      changed exactly if the record lives as long as before. */
  lemma PtrInOtherLetters(st: State, q: State, p: State, r: Result, s: Result, netif: nat, ip: nat,
                          a: (string, string, string), b: (string, string, string), sub: string, sub': string,
                          ttl: nat, ttl': nat, now: int, now': int)
    requires PtrUpdated(st, q, r, netif, ip, a.0, a.1, a.2, sub, ttl, now) && r != Error && ttl > 0
    requires PtrUpdated(q, p, s, netif, ip, b.0, b.1, b.2, sub', ttl', now') && SameNames(a, b)
    ensures s != Added
    ensures SameName(sub, sub') && ttl' > 0 && s != Error && a.0 != "" && a.1 != "" && a.2 != "" ==>
              (s == NoChange <==> ttl' == ttl)
  {
    FoldedAlike(a, b);
    FoldDecides(sub, sub');
    var names := FoldNames(a.0, a.1, a.2);
    var svc := SvcKey(netif, ip, names);
    if NonEmptyNames(names) {
      var x := ReceivedStands(Rows(st), Rows(q), r, PtrRow(svc, sub, ttl, now), SameTtl(ttl));
      if ttl' > 0 {
        NoNews(Rows(q), Rows(p), s, PtrRow(svc, sub', ttl', now'), SameTtl(ttl'), x);
      }
    }
  }

  /** The row of a PTR record, with or without a subtype. */
  function PtrRow(svc: SvcKey, subtype: string, ttl: nat, now: int): (r: Row) {
    if subtype == "" then Row(PtrKey(svc), PtrData(ttl), "", Deadline(ttl, now))
    else SubRow(svc, SubData(Fold(subtype), ttl, true), Deadline(ttl, now))
  }

  /** The same for SRV records, where the host too may be in other letters. */
  lemma SrvInOtherLetters(st: State, q: State, p: State, r: Result, s: Result, netif: nat, ip: nat,
                          a: (string, string, string), b: (string, string, string), host: string, host': string,
                          data: Data, data': Data, now: int, now': int)
    requires SrvUpdated(st, q, r, netif, ip, host, a.0, a.1, a.2, data, now) && r != Error && data.ttl > 0
    requires SrvUpdated(q, p, s, netif, ip, host', b.0, b.1, b.2, data', now') && SameNames(a, b)
    ensures s != Added
    ensures data'.ttl > 0 && s != Error ==> (s == NoChange <==> SameName(host, host') && data' == data)
  {
    FoldedAlike(a, b);
    FoldDecides(host, host');
    var k := SrvKey(SvcKey(netif, ip, FoldNames(a.0, a.1, a.2)));
    var x := ReceivedStands(Rows(st), Rows(q), r, Row(k, data, Fold(host), Deadline(data.ttl, now)),
                            SameSrv(data, Fold(host)));
    if data'.ttl > 0 {
      NoNews(Rows(q), Rows(p), s, Row(k, data', Fold(host'), Deadline(data'.ttl, now')), SameSrv(data', Fold(host')),
             x);
    }
  }

  /** The same for TXT records, whose items are the same list. */
  lemma TxtInOtherLetters(st: State, q: State, p: State, r: Result, s: Result, netif: nat, ip: nat,
                          a: (string, string, string), b: (string, string, string), items: seq<TxtItem>,
                          items': seq<TxtItem>, ttl: nat, ttl': nat, now: int, now': int)
    requires TxtUpdated(st, q, r, netif, ip, a.0, a.1, a.2, items, ttl, now) && r != Error && ttl > 0
    requires TxtUpdated(q, p, s, netif, ip, b.0, b.1, b.2, items', ttl', now') && SameNames(a, b)
    ensures s != Added
    ensures items' == items && Keyed(items) && ttl' > 0 && s != Error ==> (s == NoChange <==> ttl' == ttl)
  {
    FoldedAlike(a, b);
    var k := TxtKey(SvcKey(netif, ip, FoldNames(a.0, a.1, a.2)));
    var x := ReceivedStands(Rows(st), Rows(q), r, Row(k, TxtData(items, ttl), "", Deadline(ttl, now)),
                            SameTxt(items, ttl));
    if Keyed(items) {
      EqualIsCovered(items, items);
    }
    if ttl' > 0 {
      NoNews(Rows(q), Rows(p), s, Row(k, TxtData(items', ttl'), "", Deadline(ttl', now')), SameTxt(items', ttl'), x);
    }
  }

  /** And an address of a host in other letters. */
  lemma AddrInOtherLetters(st: State, q: State, p: State, r: Result, s: Result, netif: nat, ip: nat, host: string,
                           host': string, addr: Ip, ttl: nat, ttl': nat, create: bool, now: int, now': int)
    requires AddrUpdated(st, q, r, netif, ip, host, addr, ttl, true, now) && r != Error && ttl > 0
    requires AddrUpdated(q, p, s, netif, ip, host', addr, ttl', create, now') && SameName(host, host')
    ensures s != Added && (ttl' == ttl ==> s == NoChange || s == Error)
    ensures create && ttl' > 0 && s != Error ==> (s == NoChange <==> ttl' == ttl)
  {
    FoldDecides(host, host');
    var row := AdrRow(Host(netif, ip, Fold(host)), addr, ttl, Deadline(ttl, now));
    assert row in Rows(q) && forall y | y in Rows(q) && y.key == row.key :: y == row;
  }
}
