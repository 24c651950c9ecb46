/** How long a record that was received is cached: its time to live in seconds, and after a goodbye not at all. */
module CacheLifetimes {
  import opened CaseFold
  import opened CacheModel
  import opened CacheViews
  import opened CacheSpec
  import opened CacheOutcomes
  import opened CacheContracts

  /** A removal of expired records at time t, in microseconds, finds the record alive exactly if t is before that
      time. */
  ghost predicate LivesUntil(rows: set<Row>, k: Key, time: int) {
    forall t :: HasKey(Unexpired(rows, t), k) <==> t < time
  }

  ghost predicate IsGone(rows: set<Row>, k: Key) {
    forall t | t >= 0 :: !HasKey(Unexpired(rows, t), k)
  }

  lemma UpsertLives(rows: set<Row>, row: Row)
    ensures LivesUntil(Upsert(rows, row), row.key, row.deadline)
  {
    forall t ensures HasKey(Unexpired(Upsert(rows, row), t), row.key) <==> t < row.deadline {
      if t < row.deadline {
        assert row in Unexpired(Upsert(rows, row), t);
      }
    }
  }

  lemma ReceivedLives(rows: set<Row>, rows': set<Row>, r: Result, row: Row, same: (Data, string) -> bool)
    requires !row.key.AdrKey? && ReceiveSpec(rows, rows', r, row, same) && r != Error
    ensures LivesUntil(rows', row.key, row.deadline)
  {
    if r.NoChange? {
      var x :| x in rows && x.key == row.key && same(x.data, x.target)
               && rows' == Upsert(rows, x.(deadline := row.deadline));
      UpsertLives(rows, x.(deadline := row.deadline));
    } else {
      UpsertLives(rows, row);
    }
  }

  lemma GoodbyeGone(rows: set<Row>, rows': set<Row>, r: Result, k: Key)
    requires GoodbyeSpec(rows, rows', r, k)
    ensures IsGone(rows', k)
  {
  }

  /** A PTR record that was received is alive for as many seconds as it says, and a goodbye ends it. */
  lemma PtrLives(st: State, q: State, r: Result, netif: nat, ip: nat, instance: string, service: string, proto: string,
                 subtype: string, ttl: nat, now: int)
    requires PtrUpdated(st, q, r, netif, ip, instance, service, proto, subtype, ttl, now) && r != Error
    requires instance != "" && service != "" && proto != ""
    ensures var svc := SvcKey(netif, ip, FoldNames(instance, service, proto));
            var k := if subtype == "" then PtrKey(svc) else SubKey(svc, Fold(subtype));
            if ttl == 0 then IsGone(Rows(q), k) else LivesUntil(Rows(q), k, now + ttl * 1_000_000)
  {
    var svc := SvcKey(netif, ip, FoldNames(instance, service, proto));
    if ttl == 0 {
      GoodbyeGone(Rows(st), Rows(q), r, if subtype == "" then PtrKey(svc) else SubKey(svc, Fold(subtype)));
    } else {
      ReceivedLives(Rows(st), Rows(q), r, PtrRow(svc, subtype, ttl, now), SameTtl(ttl));
    }
  }

  /** The same for SRV records. */
  lemma SrvLives(st: State, q: State, r: Result, netif: nat, ip: nat, host: string, instance: string, service: string,
                 proto: string, data: Data, now: int)
    requires SrvUpdated(st, q, r, netif, ip, host, instance, service, proto, data, now) && r != Error
    ensures var k := SrvKey(SvcKey(netif, ip, FoldNames(instance, service, proto)));
            if data.ttl == 0 then IsGone(Rows(q), k) else LivesUntil(Rows(q), k, now + data.ttl * 1_000_000)
  {
    var k := SrvKey(SvcKey(netif, ip, FoldNames(instance, service, proto)));
    if data.ttl == 0 {
      GoodbyeGone(Rows(st), Rows(q), r, k);
    } else {
      ReceivedLives(Rows(st), Rows(q), r, Row(k, data, Fold(host), Deadline(data.ttl, now)), SameSrv(data, Fold(host)));
    }
  }

  /** The same for TXT records. */
  lemma TxtLives(st: State, q: State, r: Result, netif: nat, ip: nat, instance: string, service: string, proto: string,
                 items: seq<TxtItem>, ttl: nat, now: int)
    requires TxtUpdated(st, q, r, netif, ip, instance, service, proto, items, ttl, now) && r != Error
    ensures var k := TxtKey(SvcKey(netif, ip, FoldNames(instance, service, proto)));
            if ttl == 0 then IsGone(Rows(q), k) else LivesUntil(Rows(q), k, now + ttl * 1_000_000)
  {
    var k := TxtKey(SvcKey(netif, ip, FoldNames(instance, service, proto)));
    if ttl == 0 {
      GoodbyeGone(Rows(st), Rows(q), r, k);
    } else {
      ReceivedLives(Rows(st), Rows(q), r, Row(k, TxtData(items, ttl), "", Deadline(ttl, now)), SameTxt(items, ttl));
    }
  }

  /** And for the addresses of a host, if it may be created or is known. */
  lemma AddrLives(st: State, q: State, r: Result, netif: nat, ip: nat, host: string, addr: Ip, ttl: nat, create: bool,
                  now: int)
    requires AddrUpdated(st, q, r, netif, ip, host, addr, ttl, create, now) && r != Error
    requires create || exists e :: e in st.entries && st.entries[e] == Host(netif, ip, Fold(host))
    ensures var k := AdrKey(Host(netif, ip, Fold(host)), addr);
            if ttl == 0 then IsGone(Rows(q), k) else LivesUntil(Rows(q), k, now + ttl * 1_000_000)
  {
    var k := AdrKey(Host(netif, ip, Fold(host)), addr);
    if ttl == 0 {
      GoodbyeGone(Rows(st), Rows(q), r, k);
    } else {
      UpsertLives(Rows(st), AdrRow(Host(netif, ip, Fold(host)), addr, ttl, Deadline(ttl, now)));
    }
  }
}
