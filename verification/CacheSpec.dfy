/** What the update operations of the cache promise, said of its rows alone. */
module CacheSpec {
  import opened CaseFold
  import opened CacheIndex
  import opened CacheModel
  import opened CacheSteps
  import opened CacheViews
  import opened CacheUpdates

  datatype Result = NoChange | Added | Updated | Error

  const US_PER_SEC := 1000000

  /** When a record received now expires; a goodbye expires at once. */
  function Deadline(ttl: nat, now: int): (r: int) {
    if ttl == 0 then 0 else now + ttl * US_PER_SEC
  }

  /** Some record of the service is cached. */
  ghost predicate HasService(rows: set<Row>, svc: SvcKey) {
    exists x :: x in rows && !x.key.AdrKey? && x.key.svc == svc
  }

  /** A goodbye: the record, if cached, expires at once. */
  ghost predicate GoodbyeSpec(rows: set<Row>, rows': set<Row>, r: Result, k: Key) {
    if HasKey(rows, k) then r == Updated && rows' == Expiring(rows, k) else r == NoChange && rows' == rows
  }

  /** A record of a service was received: it gets a row of its own with a new deadline, unless memory
      ran out, and then nothing changes. Added tells that the service was not cached, NoChange that the
      record was cached with contents and target that count as the same. */
  ghost predicate ReceiveSpec(rows: set<Row>, rows': set<Row>, r: Result, row: Row, same: (Data, string) -> bool)
    requires !row.key.AdrKey?
  {
    match r
    case Error => rows' == rows
    case Added => !HasService(rows, row.key.svc) && rows' == Upsert(rows, row)
    case Updated =>
      HasService(rows, row.key.svc) && rows' == Upsert(rows, row)
      && forall x | x in rows && x.key == row.key :: !same(x.data, x.target)
    case NoChange =>
      exists x :: x in rows && x.key == row.key && same(x.data, x.target)
                  && rows' == Upsert(rows, x.(deadline := row.deadline))
  }

  /** PTR records are the same when they live as long. */
  ghost function SameTtl(ttl: nat): (f: (Data, string) -> bool) {
    (d: Data, target: string) => d.ttl == ttl
  }

  /** SRV records are the same when they also lead to the same host. */
  ghost function SameSrv(data: Data, host: string): (f: (Data, string) -> bool) {
    (d: Data, target: string) => d == data && target == host
  }

  /** TXT records are the same when they live as long and the lists compare equal. */
  ghost function SameTxt(items: seq<TxtItem>, ttl: nat): (f: (Data, string) -> bool) {
    (d: Data, target: string) => d.TxtData? && d.ttl == ttl && TxtEqual(d.items, items)
  }

  function FoldNames(instance: string, service: string, proto: string): (r: Names) {
    Names(Fold(instance), Fold(service), Fold(proto))
  }

  // ------------------------------------------------------------------ comparing TXT records

  predicate ItemEqual(a: TxtItem, b: TxtItem) {
    a.key != "" && b.key != "" && Fold(a.key) == Fold(b.key) && a.value == b.value
  }

  /** As many items, and each of the first is among the second. */
  predicate TxtEqual(a: seq<TxtItem>, b: seq<TxtItem>) {
    |a| == |b| && forall x <- a :: exists y :: y in b && ItemEqual(y, x)
  }

  /** An item as the comparison sees it. */
  function Canonical(a: seq<TxtItem>): (r: seq<TxtItem>) {
    seq(|a|, i requires 0 <= i < |a| => TxtItem(Fold(a[i].key), a[i].value))
  }

  ghost predicate Keyed(a: seq<TxtItem>) {
    forall x <- a :: x.key != ""
  }

  ghost predicate Repeats<T>(a: seq<T>) {
    exists i, j :: 0 <= i < j < |a| && a[i] == a[j]
  }

  lemma FoldEmpty(s: string)
    ensures Fold(s) == "" <==> s == ""
  {
  }

  /** An item with an empty key is equal to nothing, so a list with one is not even equal to itself. */
  lemma EmptyKeyIsNeverEqual(a: seq<TxtItem>, b: seq<TxtItem>)
    requires !Keyed(a)
    ensures !TxtEqual(a, b)
  {
    var x :| x in a && x.key == "";
    assert forall y <- b :: !ItemEqual(y, x);
  }

  lemma EqualIsCovered(a: seq<TxtItem>, b: seq<TxtItem>)
    requires Keyed(a)
    ensures TxtEqual(a, b) <==> |a| == |b| && forall x <- Canonical(a) :: x in Canonical(b)
  {
    var c, d := Canonical(a), Canonical(b);
    if TxtEqual(a, b) {
      forall x | x in c ensures x in d {
        var i :| 0 <= i < |c| && c[i] == x;
        assert a[i] in a;
        var y :| y in b && ItemEqual(y, a[i]);
        var j :| 0 <= j < |b| && b[j] == y;
        assert d[j] == x;
      }
    }
    if |a| == |b| && forall x <- c :: x in d {
      forall x | x in a ensures exists y :: y in b && ItemEqual(y, x) {
        var i :| 0 <= i < |a| && a[i] == x;
        assert c[i] in c;
        var j :| 0 <= j < |d| && d[j] == c[i];
        FoldEmpty(x.key);
        FoldEmpty(b[j].key);
        assert b[j] in b && ItemEqual(b[j], x);
      }
    }
  }

  lemma {:induction false} CoveredIsPermuted<T>(a: seq<T>, b: seq<T>)
    requires !Repeats(a) && |a| == |b| && forall x <- a :: x in b
    ensures multiset(a) == multiset(b)
  {
    if a != [] {
      assert a[0] in b;
      var i :| 0 <= i < |b| && b[i] == a[0];
      var rest := b[..i] + b[i + 1..];
      forall x | x in a[1..] ensures x in rest {
        var j :| 0 <= j < |a[1..]| && a[1..][j] == x;
        assert a[0] != a[j + 1] && a[j + 1] in b;
        var k :| 0 <= k < |b| && b[k] == x;
        assert k < i ==> rest[k] == x;
        assert k > i ==> rest[k - 1] == x;
      }
      assert forall k, j | 0 <= k < j < |a[1..]| :: a[1..][k] == a[k + 1] && a[1..][j] == a[j + 1];
      CoveredIsPermuted(a[1..], rest);
      assert a == [a[0]] + a[1..] && b == b[..i] + [b[i]] + b[i + 1..];
    }
  }

  /** A cached list in which no item is repeated compares equal to exactly its permutations, if all its keys have a
      name, and else to nothing. */
  lemma TxtEqualIsPermutation(a: seq<TxtItem>, b: seq<TxtItem>)
    requires !Repeats(Canonical(a))
    ensures TxtEqual(a, b) <==> Keyed(a) && multiset(Canonical(a)) == multiset(Canonical(b))
  {
    if Keyed(a) {
      EqualIsPermuted(a, b);
    } else {
      EmptyKeyIsNeverEqual(a, b);
    }
  }

  lemma EqualIsPermuted(a: seq<TxtItem>, b: seq<TxtItem>)
    requires Keyed(a) && !Repeats(Canonical(a))
    ensures TxtEqual(a, b) <==> multiset(Canonical(a)) == multiset(Canonical(b))
  {
    EqualIsCovered(a, b);
    var c, d := Canonical(a), Canonical(b);
    if TxtEqual(a, b) {
      CoveredIsPermuted(c, d);
    }
    if multiset(c) == multiset(d) {
      assert |multiset(c)| == |a| && |multiset(d)| == |b|;
      forall x | x in c ensures x in d {
        assert x in multiset(c);
      }
    }
  }

  /** With a repeated item it also compares equal to a list that says something else: a change of that
      kind goes unnoticed. */
  lemma RepeatedItemHidesChange(a: seq<TxtItem>, x: TxtItem)
    requires Keyed(a) && Repeats(Canonical(a)) && x.key != "" && TxtItem(Fold(x.key), x.value) !in Canonical(a)
    ensures exists b :: Keyed(b) && TxtEqual(a, b) && multiset(Canonical(b)) != multiset(Canonical(a))
  {
    var c := Canonical(a);
    var i, j :| 0 <= i < j < |c| && c[i] == c[j];
    var b := a[j := x];
    var d := Canonical(b);
    forall k | 0 <= k < |c| ensures c[k] in d {
      assert k != j ==> d[k] == c[k];
      assert d[i] == c[i];
    }
    EqualIsCovered(a, b);
    assert d[j] in multiset(d) && d[j] !in multiset(c);
  }

  // ------------------------------------------------------------------ from records to rows

  lemma NoServiceNoRow(st: State, svc: SvcKey)
    requires Placed(st) && Indexed(st) && NoService(st, svc)
    ensures !HasService(Rows(st), svc)
  {
    forall x | x in Rows(st) && !x.key.AdrKey? ensures x.key.svc != svc {
      var n :| n in st.expiry && x == RowOf(st, n);
      assert SvcKeyOf(st, n.rec.s) == x.key.svc;
    }
  }

  lemma RecordHasService(st: State, r: Rec)
    requires Indexed(st) && r in st.records && !r.Adr?
    ensures HasService(Rows(st), SvcKeyOf(st, r.s))
  {
    var n :| n in st.expiry && n.rec == r;
    assert RowOf(st, n) in Rows(st);
  }

  lemma KnownHasService(st: State, s: Ref)
    requires Placed(st) && Indexed(st) && HasRecord(st, s)
    ensures HasService(Rows(st), SvcKeyOf(st, s))
  {
    if Ptr(s) in st.records {
      RecordHasService(st, Ptr(s));
    } else if Srv(s) in st.records {
      RecordHasService(st, Srv(s));
    } else if Txt(s) in st.records {
      RecordHasService(st, Txt(s));
    } else {
      var t := st.subtypeList[s][0];
      assert t in st.subtypeList[s];
      RecordHasService(st, Sub(s, t));
    }
  }

  lemma NoRecordNoKey(st: State, svc: SvcKey, k: Key)
    requires Placed(st) && Indexed(st) && NoService(st, svc) && !k.AdrKey? && k.svc == svc
    ensures !HasKey(Rows(st), k)
  {
    NoServiceNoRow(st, svc);
  }

  lemma AbsentSingle(st: State, s: Ref, d: Data)
    requires Placed(st) && UniqueServices(st) && Indexed(st) && s in st.services && IsSingle(d)
    requires RecFor(s, d) !in st.records
    ensures !HasKey(Rows(st), KeyFor(SvcKeyOf(st, s), d))
  {
    forall x | x in Rows(st) ensures x.key != KeyFor(SvcKeyOf(st, s), d) {
      var n :| n in st.expiry && x == RowOf(st, n);
      assert n.rec != RecFor(s, d);
      assert !n.rec.Adr? ==> (SvcKeyOf(st, n.rec.s) == SvcKeyOf(st, s) ==> n.rec.s == s);
    }
  }

  lemma AbsentSubtype(st: State, s: Ref, name: string)
    requires Placed(st) && UniqueServices(st) && Indexed(st) && s in st.services && NoSubtype(st, s, name)
    ensures !HasKey(Rows(st), SubKey(SvcKeyOf(st, s), name))
  {
    forall x | x in Rows(st) ensures x.key != SubKey(SvcKeyOf(st, s), name) {
      var n :| n in st.expiry && x == RowOf(st, n);
      assert !n.rec.Adr? ==> (SvcKeyOf(st, n.rec.s) == SvcKeyOf(st, s) ==> n.rec.s == s);
      assert n.rec.Sub? && n.rec.s == s ==> SubName(st, s, n.rec.t) != name;
    }
  }

  lemma AbsentAddr(st: State, e: Ref, addr: Ip)
    requires UniqueHosts(st) && Owned(st) && Indexed(st) && e in st.entries
    requires forall a | Adr(e, a) in st.records :: AddrAt(st, e, a) != addr
    ensures !HasKey(Rows(st), AdrKey(st.entries[e], addr))
  {
    forall x | x in Rows(st) ensures x.key != AdrKey(st.entries[e], addr) {
      var n :| n in st.expiry && x == RowOf(st, n);
      assert n.rec.Adr? && n.rec.e == e ==> AddrAt(st, e, n.rec.a) != addr;
    }
  }

  lemma AbsentHost(st: State, h: Host, addr: Ip)
    requires Owned(st) && Indexed(st) && forall e | e in st.entries :: st.entries[e] != h
    ensures !HasKey(Rows(st), AdrKey(h, addr))
  {
    forall x | x in Rows(st) ensures x.key != AdrKey(h, addr) {
      var n :| n in st.expiry && x == RowOf(st, n);
      assert Home(st, n.rec) in st.entries;
    }
  }

  /** The row of a cached record, as Inv gives it. */
  lemma CachedRow(st: State, r: Rec) returns (x: Row)
    requires Inv(st) && r in st.records
    ensures x in Rows(st) && x.key == KeyOf(st, r) && x.data == st.records[r]
    ensures x == RowAt(st, r, x.deadline)
    ensures forall y | y in Rows(st) && y.key == x.key :: y == x
  {
    x := UniqueRow(st, r);
  }

  // ------------------------------------------------------------------ the promises, case by case

  /** Where an SRV record leads; other records lead nowhere. */
  function TargetOf(st: State, r: Rec): (t: string) {
    if r.Srv? then HostAt(st, Home(st, r)).name else ""
  }

  /** The record is cached with contents that count as the same. */
  ghost predicate Cached(st: State, r: Rec, same: (Data, string) -> bool) {
    r in st.records && same(st.records[r], TargetOf(st, r))
  }

  lemma GoodbyeFollows(st: State, rows: set<Row>, r: Rec, k: Key, result: Result)
    requires Sound(st) && (r in st.records ==> KeyOf(st, r) == k) && (r !in st.records ==> !HasKey(Rows(st), k))
    requires if r in st.records then result == Updated && rows == Expiring(Rows(st), k)
             else result == NoChange && rows == Rows(st)
    ensures GoodbyeSpec(Rows(st), rows, result, k)
  {
    if r in st.records {
      Open(st);
      PresentHasKey(st, r);
    }
  }

  lemma UpdateFollows(st: State, rows: set<Row>, r: Rec, row: Row, same: (Data, string) -> bool)
    requires Sound(st) && !r.Adr? && r.s in st.services && !row.key.AdrKey? && row.key.svc == SvcKeyOf(st, r.s)
    requires r in st.records ==> KeyOf(st, r) == row.key
    requires r !in st.records ==> !HasKey(Rows(st), row.key)
    requires rows == Upsert(Rows(st), row) && !Cached(st, r, same)
    ensures ReceiveSpec(Rows(st), rows, Updated, row, same)
  {
    Open(st);
    KnownHasService(st, r.s);
    if r in st.records {
      var x := CachedRow(st, r);
    }
  }

  lemma NoChangeFollows(st: State, rows: set<Row>, r: Rec, row: Row, same: (Data, string) -> bool)
    requires Sound(st) && !row.key.AdrKey? && Cached(st, r, same) && KeyOf(st, r) == row.key
    requires rows == Upsert(Rows(st), RowAt(st, r, row.deadline))
    ensures ReceiveSpec(Rows(st), rows, NoChange, row, same)
  {
    Open(st);
    var x := CachedRow(st, r);
    assert x.(deadline := row.deadline) == RowAt(st, r, row.deadline);
  }

  lemma AddFollows(st: State, rows: set<Row>, row: Row, same: (Data, string) -> bool)
    requires Sound(st) && !row.key.AdrKey? && NoService(st, row.key.svc) && rows == Upsert(Rows(st), row)
    ensures ReceiveSpec(Rows(st), rows, Added, row, same)
  {
    Open(st);
    NoServiceNoRow(st, row.key.svc);
  }

  lemma SubtypeIsAbsent(st: State, s: Ref, name: string)
    requires Sound(st) && s in st.services && NoSubtype(st, s, name)
    ensures !HasKey(Rows(st), SubKey(SvcKeyOf(st, s), name)) && Sub(s, st.next) !in st.records
  {
    Open(st);
    AbsentSubtype(st, s, name);
  }

  lemma SingleIsAbsent(st: State, s: Ref, d: Data)
    requires Sound(st) && s in st.services && IsSingle(d) && RecFor(s, d) !in st.records
    ensures !HasKey(Rows(st), KeyFor(SvcKeyOf(st, s), d))
  {
    Open(st);
    AbsentSingle(st, s, d);
  }
}
