/** The store of the mDNS browse cache (components/mdns/mdns_cache.c) and what has to hold of it: host
    entries own services and addresses, services own PTR, SRV, TXT and subtype records, and the expiry
    index lists exactly the records that are there. */
module CacheModel {
  import opened Common
  import opened CacheIndex

  datatype Kind = PTR | SUBTYPE | SRV | TXT | ADDR
  datatype Ip = V4(word: int) | V6(words: seq<int>)
  datatype Value = NoValue | Value(bytes: string)
  datatype TxtItem = TxtItem(key: string, value: Value)

  /** The identity of a host entry; an empty name is the entry of services without a known host. */
  datatype Host = Host(netif: nat, ip: nat, name: string)
  datatype Names = Names(instance: string, service: string, proto: string)

  /** The contents of one record. A record that is not present has no contents. */
  datatype Data =
    | PtrData(ttl: nat)
    | SrvData(priority: nat, weight: nat, port: nat, ttl: nat)
    | TxtData(items: seq<TxtItem>, ttl: nat)
    | SubData(name: string, ttl: nat, pending: bool)
    | AdrData(addr: Ip, ttl: nat)

  /** The heap of the cache, one map for every field that is followed: the list s_cache, the entries,
      their service and address lists, the services with their subtype lists and the marks of what
      is to be reported, the contents of all records, and the list s_expiry. owner is ghost: the
      entry that lists a service. */
  datatype State = State(
    cache: seq<Ref>,
    entries: map<Ref, Host>,
    serviceList: map<Ref, seq<Ref>>,
    addrList: map<Ref, seq<Ref>>,
    services: map<Ref, Names>,
    subtypeList: map<Ref, seq<Ref>>,
    marks: map<Ref, set<Kind>>,
    records: map<Rec, Data>,
    expiry: seq<Node>,
    syncPending: bool,
    next: Ref,
    owner: map<Ref, Ref>)

  const EMPTY := State([], map[], map[], map[], map[], map[], map[], map[], [], false, 0, map[])

  // ------------------------------------------------------------------ names

  // All names in a state are case-folded (CaseFold), which is how the code compares them.

  datatype SvcKey = SvcKey(netif: nat, ip: nat, names: Names)

  datatype Key =
    | PtrKey(svc: SvcKey)
    | SrvKey(svc: SvcKey)
    | TxtKey(svc: SvcKey)
    | SubKey(svc: SvcKey, subtype: string)
    | AdrKey(host: Host, addr: Ip)

  function HostAt(st: State, e: Ref): (r: Host) {
    if e in st.entries then st.entries[e] else Host(0, 0, "")
  }

  function NamesAt(st: State, s: Ref): (r: Names) {
    if s in st.services then st.services[s] else Names("", "", "")
  }

  function DataAt(st: State, r: Rec): (d: Data) {
    if r in st.records then st.records[r] else PtrData(0)
  }

  function OwnerOf(st: State, s: Ref): (e: Ref) {
    if s in st.owner then st.owner[s] else 0
  }

  function ServiceKey(h: Host, n: Names): (k: SvcKey) {
    SvcKey(h.netif, h.ip, n)
  }

  function SvcKeyOf(st: State, s: Ref): (k: SvcKey) {
    ServiceKey(HostAt(st, OwnerOf(st, s)), NamesAt(st, s))
  }

  // ------------------------------------------------------------------ the cache as a flat table

  /** A cached record as the outside sees it: its name, its contents, for an SRV record the host it
      leads to, and when it expires. */
  datatype Row = Row(key: Key, data: Data, target: string, deadline: int)

  function KeyAt(h: Host, n: Names, r: Rec, d: Data): (k: Key) {
    var svc := ServiceKey(h, n);
    match r
    case Ptr(_) => PtrKey(svc)
    case Srv(_) => SrvKey(svc)
    case Txt(_) => TxtKey(svc)
    case Sub(_, _) => SubKey(svc, if d.SubData? then d.name else "")
    case Adr(_, _) => AdrKey(h, if d.AdrData? then d.addr else V4(0))
  }

  function NamesOfRec(st: State, r: Rec): (n: Names) {
    if r.Adr? then Names("", "", "") else NamesAt(st, r.s)
  }

  function RowOf(st: State, n: Node): (r: Row) {
    var h := HostAt(st, n.entry);
    Row(KeyAt(h, NamesOfRec(st, n.rec), n.rec, DataAt(st, n.rec)), DataAt(st, n.rec),
        if n.rec.Srv? then h.name else "", n.expires)
  }

  function Rows(st: State): (rows: set<Row>) {
    set n | n in st.expiry :: RowOf(st, n)
  }

  function Upsert(rows: set<Row>, row: Row): (r: set<Row>) {
    (set x | x in rows && x.key != row.key) + {row}
  }

  function Unexpired(rows: set<Row>, now: int): (r: set<Row>) {
    set x | x in rows && x.deadline > now
  }

  // ------------------------------------------------------------------ invariants

  /** Every entry has its lists, every service its owner, list and marks. */
  ghost predicate Domains(st: State) {
    && (forall e | e in st.entries :: e in st.cache && e in st.serviceList && e in st.addrList)
    && (forall e | e in st.cache :: e in st.entries)
    && (forall e | e in st.serviceList :: e in st.entries)
    && (forall e | e in st.addrList :: e in st.entries)
    && (forall s | s in st.services :: s in st.owner && s in st.subtypeList && s in st.marks)
    && (forall s | s in st.owner :: s in st.services)
    && (forall s | s in st.subtypeList :: s in st.services)
    && (forall s | s in st.marks :: s in st.services)
  }

  ghost predicate DupFree(lists: map<Ref, seq<Ref>>) {
    forall e | e in lists :: NoRepeat(lists[e])
  }

  ghost predicate ListsOwned(lists: map<Ref, seq<Ref>>, owner: map<Ref, Ref>) {
    forall e, s | e in lists && s in lists[e] :: s in owner && owner[s] == e
  }

  ghost predicate OwnedListed(lists: map<Ref, seq<Ref>>, owner: map<Ref, Ref>) {
    forall s | s in owner :: owner[s] in lists && s in lists[owner[s]]
  }

  /** Entries and services are listed exactly once, the services under their owner. */
  ghost predicate Listed(st: State) {
    && NoRepeat(st.cache) && DupFree(st.serviceList)
    && ListsOwned(st.serviceList, st.owner) && OwnedListed(st.serviceList, st.owner)
  }

  predicate Typed(r: Rec, d: Data) {
    match r
    case Ptr(_) => d.PtrData?
    case Srv(_) => d.SrvData?
    case Txt(_) => d.TxtData?
    case Sub(_, _) => d.SubData?
    case Adr(_, _) => d.AdrData?
  }

  /** Records belong to services and entries that exist; subtypes and addresses are listed there. */
  ghost predicate Placed(st: State) {
    && (forall r | r in st.records :: Typed(r, st.records[r]))
    && (forall r | r in st.records && !r.Adr? :: r.s in st.services)
    && (forall e, a | Adr(e, a) in st.records :: e in st.addrList && a in st.addrList[e])
    && (forall s, t | Sub(s, t) in st.records :: s in st.subtypeList && t in st.subtypeList[s])
    && (forall e | e in st.addrList ::
          NoRepeat(st.addrList[e]) && forall a <- st.addrList[e] :: Adr(e, a) in st.records)
    && (forall s | s in st.subtypeList ::
          NoRepeat(st.subtypeList[s]) && forall t <- st.subtypeList[s] :: Sub(s, t) in st.records)
  }

  ghost predicate UniqueHosts(st: State) {
    forall e, f {:trigger st.entries[e], st.entries[f]} |
      e in st.entries && f in st.entries && st.entries[e] == st.entries[f] :: e == f
  }

  ghost predicate UniqueServices(st: State) {
    forall s, u {:trigger SvcKeyOf(st, s), SvcKeyOf(st, u)} |
      s in st.services && u in st.services && SvcKeyOf(st, s) == SvcKeyOf(st, u) :: s == u
  }

  ghost predicate UniqueSubtypes(st: State) {
    forall s, t, u {:trigger SubName(st, s, t), SubName(st, s, u)}
      | Sub(s, t) in st.records && Sub(s, u) in st.records && SubName(st, s, t) == SubName(st, s, u) :: t == u
  }

  ghost predicate UniqueAddrs(st: State) {
    forall e, a, b {:trigger AddrAt(st, e, a), AddrAt(st, e, b)}
      | Adr(e, a) in st.records && Adr(e, b) in st.records && AddrAt(st, e, a) == AddrAt(st, e, b) :: a == b
  }

  predicate NonEmptyNames(n: Names) {
    n.instance != "" && n.service != "" && n.proto != ""
  }

  /** Nothing is named twice, and no service lacks a name. */
  ghost predicate Named(st: State) {
    && UniqueHosts(st) && UniqueServices(st) && UniqueSubtypes(st) && UniqueAddrs(st)
    && (forall s | s in st.services :: NonEmptyNames(st.services[s]))
  }

  function SubName(st: State, s: Ref, t: Ref): (r: string) {
    var d := DataAt(st, Sub(s, t));
    if d.SubData? then d.name else ""
  }

  function AddrAt(st: State, e: Ref, a: Ref): (r: Ip) {
    var d := DataAt(st, Adr(e, a));
    if d.AdrData? then d.addr else V4(0)
  }

  /** The entry that holds a record. */
  function Home(st: State, r: Rec): (e: Ref) {
    if r.Adr? then r.e else OwnerOf(st, r.s)
  }

  /** The index lists every record once, sorted by deadline, and knows the record's entry. */
  ghost predicate Indexed(st: State) {
    && Sorted(st.expiry) && Distinct(st.expiry)
    && (forall n <- st.expiry :: n.rec in st.records && n.entry == Home(st, n.rec) && n.queued)
    && (forall r | r in st.records :: exists n :: n in st.expiry && n.rec == r)
  }

  ghost predicate Fresh(st: State) {
    && (forall e | e in st.entries :: e < st.next)
    && (forall s | s in st.services :: s < st.next)
    && (forall r | r in st.records :: (r.Adr? ==> r.a < st.next) && (r.Sub? ==> r.t < st.next))
  }

  /** Whatever is marked for reporting, the flag that asks for a report is set. */
  ghost predicate Synced(st: State) {
    && (forall s | s in st.marks && st.marks[s] != {} :: st.syncPending)
    && (forall s, t | Sub(s, t) in st.records && s in st.marks && IsPending(st, s, t) :: SUBTYPE in st.marks[s])
  }

  predicate IsPending(st: State, s: Ref, t: Ref) {
    var d := DataAt(st, Sub(s, t));
    d.SubData? && d.pending
  }

  ghost predicate Inv(st: State) {
    Domains(st) && Listed(st) && Placed(st) && Named(st) && Indexed(st) && Fresh(st) && Synced(st)
  }

  predicate HasRecord(st: State, s: Ref) {
    Ptr(s) in st.records || Srv(s) in st.records || Txt(s) in st.records
    || (s in st.subtypeList && st.subtypeList[s] != [])
  }

  predicate HasContent(st: State, e: Ref) {
    (e in st.serviceList && st.serviceList[e] != []) || (e in st.addrList && st.addrList[e] != [])
  }

  /** No entry or service is kept without reason, except the given ones. */
  ghost predicate Tidy(st: State, entries: set<Ref>, services: set<Ref>) {
    && (forall e | e in st.entries && e !in entries :: HasContent(st, e))
    && (forall s | s in st.services && s !in services :: HasRecord(st, s))
  }

  /** What holds of the cache between operations. */
  ghost predicate Valid(st: State) {
    Inv(st) && Tidy(st, {}, {})
  }

  datatype Condition = NothingIdleBut(entries: set<Ref>, services: set<Ref>) | Consistent

  /** All of these hold. A recursive predicate is opened one step at a time, and only where a proof
      asks for it. */
  ghost predicate All(st: State, conditions: seq<Condition>) {
    conditions == [] || (Meets(st, conditions[0]) && All(st, conditions[1..]))
  }

  ghost predicate Meets(st: State, c: Condition) {
    match c
    case NothingIdleBut(entries, services) => Tidy(st, entries, services)
    case Consistent => Inv(st)
  }

  /** Valid, as the contracts of the cache's operations say it, and in between but for an entry or a
      service that is about to be filled or removed. */
  ghost predicate SoundBut(st: State, entries: set<Ref>, services: set<Ref>) {
    All(st, [NothingIdleBut(entries, services), Consistent])
  }

  /** Exactly Valid: Open and Close go from one to the other. The list of conditions says nothing more than their
      conjunction; it only keeps the verifier from unfolding all of them wherever a contract mentions the cache. */
  ghost predicate Sound(st: State) {
    SoundBut(st, {}, {})
  }

  lemma OpenBut(st: State, entries: set<Ref>, services: set<Ref>)
    requires SoundBut(st, entries, services)
    ensures Inv(st) && Tidy(st, entries, services)
  {
    var conditions := [NothingIdleBut(entries, services), Consistent];
    assert All(st, conditions[1..]);
    assert conditions[1..][0] == Consistent;
  }

  lemma CloseBut(st: State, entries: set<Ref>, services: set<Ref>)
    requires Inv(st) && Tidy(st, entries, services)
    ensures SoundBut(st, entries, services)
  {
    assert [NothingIdleBut(entries, services), Consistent][1..] == [Consistent];
    assert All(st, [Consistent][1..]);
    assert All(st, [Consistent]);
  }

  lemma Open(st: State)
    requires Sound(st)
    ensures Valid(st)
  {
    OpenBut(st, {}, {});
  }

  lemma Close(st: State)
    requires Valid(st)
    ensures Sound(st)
  {
    CloseBut(st, {}, {});
  }

  // ------------------------------------------------------------------ a row names one record

  /** A record whose service or entry exists. */
  predicate Held(st: State, r: Rec) {
    r in st.records && if r.Adr? then r.e in st.entries else r.s in st.services
  }

  lemma SameKeySameRec(st: State, n: Node, m: Node)
    requires UniqueHosts(st) && UniqueServices(st) && UniqueSubtypes(st) && UniqueAddrs(st)
    requires Held(st, n.rec) && n.entry == Home(st, n.rec) && Held(st, m.rec) && m.entry == Home(st, m.rec)
    requires RowOf(st, n).key == RowOf(st, m).key
    ensures n.rec == m.rec
  {
    if n.rec.Adr? {
      assert n.rec.e == m.rec.e;
      assert AddrAt(st, n.rec.e, n.rec.a) == AddrAt(st, m.rec.e, m.rec.a);
    } else {
      assert SvcKeyOf(st, n.rec.s) == SvcKeyOf(st, m.rec.s);
      if n.rec.Sub? {
        assert SubName(st, n.rec.s, n.rec.t) == SubName(st, m.rec.s, m.rec.t);
      }
    }
  }
}
