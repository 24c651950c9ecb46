/** Whole histories of the cache of components/mdns/mdns_cache.c: any sequence of its operations, each as the contract
    of its method in MdnsCache says. */
module CacheHistory {
  import opened CacheModel
  import opened CacheViews
  import opened CacheSpec
  import opened CacheOutcomes
  import opened CacheExpiry
  import opened CacheTrim
  import opened CacheSync

  /** An operation with its result: a record or an address was received, or a goodbye, or something that is ignored;
      expired records were removed, unwanted ones trimmed, changes reported; the cache was cleared. */
  datatype Event =
    | Receive(result: Result, row: Row, same: (Data, string) -> bool, kind: Kind)
    | ReceiveAddress(result: Result, row: Row)
    | Farewell(result: Result, key: Key)
    | Ignore
    | Expire(now: int, byes: seq<Key>)
    | Trim(browses: seq<Browse>, deadline: int)
    | Sync(notices: seq<Notice>, browses: seq<Browse>)
    | Reset

  ghost predicate Happens(st: State, q: State, ev: Event) {
    match ev
    case Receive(r, row, same, kind) => !row.key.AdrKey? && RecordSpec(st, q, r, row, same, kind)
    case ReceiveAddress(r, row) => row.key.AdrKey? && AddrSpec(st, q, r, row)
    case Farewell(r, k) => ByeSpec(st, q, r, k)
    case Ignore => q == st
    case Expire(now, byes) =>
      Rows(q) == Unexpired(Rows(st), now) && Passed(st, q, ExpiredRows(Rows(st), now), byes)
    case Trim(browses, deadline) => IsTrimmed(st, q, browses, deadline)
    case Sync(notices, browses) => SyncSpec(st, q, notices, browses)
    case Reset => Sound(q) && Rows(q) == {}
  }

  ghost predicate IsHistory(states: seq<State>, events: seq<Event>)
    decreases |events|
  {
    var n := |events|;
    |states| == n + 1
    && if n == 0 then Sound(states[0])
    else IsHistory(states[..n], events[..n - 1]) && Happens(states[n - 1], states[n], events[n - 1])
  }

  lemma {:induction false} HistoryAt(states: seq<State>, events: seq<Event>, i: nat)
    requires IsHistory(states, events) && i < |events|
    ensures Sound(states[i]) && Happens(states[i], states[i + 1], events[i])
    decreases |events|
  {
    var n := |events|;
    if i < n - 1 {
      HistoryAt(states[..n], events[..n - 1], i);
    } else if n > 1 {
      HistoryAt(states[..n], events[..n - 1], i - 1);
    }
  }

  // ------------------------------------------------------------------ one operation

  /** A record of this name that expires at this time is cached. */
  ghost predicate Lives(rows: set<Row>, k: Key, deadline: int) {
    exists x :: x in rows && x.key == k && x.deadline == deadline
  }

  /** The operation stores this record. */
  predicate Stores(ev: Event, k: Key) {
    (ev.Receive? || ev.ReceiveAddress?) && ev.row.key == k && !ev.result.Error?
  }

  /** The operation gives the record another deadline, or forgets everything. */
  ghost predicate Touches(st: State, ev: Event, k: Key, deadline: int) {
    || Stores(ev, k) || (ev.Farewell? && ev.key == k) || ev.Reset?
    || (ev.Trim? && deadline > ev.deadline && !Wanted(st, k, ev.browses))
  }

  predicate Removes(ev: Event, deadline: int) {
    ev.Expire? && deadline <= ev.now
  }

  /** What is received is stored under its name with its deadline, and nothing else changes. */
  lemma ReceivedRow(st: State, q: State, ev: Event) returns (row: Row)
    requires Happens(st, q, ev) && (ev.Receive? || ev.ReceiveAddress?) && !ev.result.Error?
    ensures row.key == ev.row.key && row.deadline == ev.row.deadline && Rows(q) == Upsert(Rows(st), row)
  {
    if ev.Receive? && ev.result.NoChange? {
      var x :| x in Rows(st) && x.key == ev.row.key && ev.same(x.data, x.target)
               && Rows(q) == Upsert(Rows(st), x.(deadline := ev.row.deadline));
      row := x.(deadline := ev.row.deadline);
    } else {
      row := ev.row;
    }
  }

  lemma ReceiveOther(st: State, q: State, ev: Event, k: Key, deadline: int)
    requires Happens(st, q, ev) && (ev.Receive? || ev.ReceiveAddress?) && !Stores(ev, k)
    ensures Lives(Rows(q), k, deadline) <==> Lives(Rows(st), k, deadline)
  {
    if !ev.result.Error? {
      var row := ReceivedRow(st, q, ev);
    }
  }

  /** Rows of other names, or with an earlier deadline, stay what they are. */
  lemma FarewellOther(st: State, q: State, ev: Event, k: Key, deadline: int)
    requires Happens(st, q, ev) && ev.Farewell? && ev.key != k
    ensures Lives(Rows(q), k, deadline) <==> Lives(Rows(st), k, deadline)
  {
    if HasKey(Rows(st), ev.key) && Lives(Rows(st), k, deadline) {
      var x :| x in Rows(st) && x.key == k && x.deadline == deadline;
      assert x in Expiring(Rows(st), ev.key);
    }
  }

  lemma TrimOther(st: State, q: State, ev: Event, k: Key, deadline: int)
    requires Happens(st, q, ev) && ev.Trim? && !Touches(st, ev, k, deadline) && Lives(Rows(st), k, deadline)
    ensures Lives(Rows(q), k, deadline)
  {
    var x :| x in Rows(st) && x.key == k && x.deadline == deadline;
    assert Trimmed(st, x, ev.browses, ev.deadline) in Rows(q);
  }

  lemma SyncKeeps(st: State, q: State, ev: Event, k: Key, deadline: int)
    requires Happens(st, q, ev) && ev.Sync? && Lives(Rows(st), k, deadline)
    ensures Lives(Rows(q), k, deadline)
  {
    var x :| x in Rows(st) && x.key == k && x.deadline == deadline;
    assert SettledRow(x) in Rows(q);
  }

  /** A record that the operation does not touch is still there, unless it was removed for its age. */
  lemma StepLives(st: State, q: State, ev: Event, k: Key, deadline: int)
    requires Sound(st) && Happens(st, q, ev) && Lives(Rows(st), k, deadline) && !Touches(st, ev, k, deadline)
    ensures Lives(Rows(q), k, deadline) <==> !Removes(ev, deadline)
    ensures Removes(ev, deadline) ==> !HasKey(Rows(q), k)
  {
    match ev {
      case Receive(_, _, _, _) => ReceiveOther(st, q, ev, k, deadline);
      case ReceiveAddress(_, _) => ReceiveOther(st, q, ev, k, deadline);
      case Farewell(_, _) => FarewellOther(st, q, ev, k, deadline);
      case Ignore =>
      case Expire(now, byes) => ExpireDecides(st, q, now, k, deadline);
      case Trim(_, _) => TrimOther(st, q, ev, k, deadline);
      case Sync(_, _) => SyncKeeps(st, q, ev, k, deadline);
      case Reset =>
    }
  }

  lemma ExpireDecides(st: State, q: State, now: int, k: Key, deadline: int)
    requires Sound(st) && Lives(Rows(st), k, deadline) && Rows(q) == Unexpired(Rows(st), now)
    ensures Lives(Rows(q), k, deadline) <==> deadline > now
    ensures deadline <= now ==> !HasKey(Rows(q), k)
  {
    var x :| x in Rows(st) && x.key == k && x.deadline == deadline;
    forall y | y in Rows(q) && y.key == k ensures y == x {
      OneRowPerKey(st, x, y);
    }
  }

  /** What is not there appears only by being received. */
  lemma StepAppears(st: State, q: State, ev: Event, k: Key)
    requires Happens(st, q, ev) && !HasKey(Rows(st), k) && !Stores(ev, k)
    ensures !HasKey(Rows(q), k)
  {
    if (ev.Receive? || ev.ReceiveAddress?) && !ev.result.Error? {
      var row := ReceivedRow(st, q, ev);
    }
  }

  // ------------------------------------------------------------------ histories

  /** No operation from i up to j touches the record. */
  ghost predicate Untouched(states: seq<State>, events: seq<Event>, i: nat, j: nat, k: Key, deadline: int)
    requires |states| == |events| + 1 && j <= |events|
  {
    forall m | i <= m < j :: !Touches(states[m], events[m], k, deadline)
  }

  lemma OneOn(states: seq<State>, events: seq<Event>, i: nat, k: Key, deadline: int)
    requires IsHistory(states, events) && i < |events| && Lives(Rows(states[i]), k, deadline)
    requires !Touches(states[i], events[i], k, deadline)
    ensures Lives(Rows(states[i + 1]), k, deadline) <==> !Removes(events[i], deadline)
    ensures Removes(events[i], deadline) ==> !HasKey(Rows(states[i + 1]), k)
  {
    HistoryAt(states, events, i);
    StepLives(states[i], states[i + 1], events[i], k, deadline);
  }

  /** What one operation does to a record that it does not touch. */
  ghost predicate IsSpared(rows: set<Row>, next: set<Row>, k: Key, deadline: int, removes: bool) {
    && (Lives(rows, k, deadline) ==> if removes then !HasKey(next, k) else Lives(next, k, deadline))
    && (!HasKey(rows, k) ==> !HasKey(next, k))
  }

  lemma SparedAt(states: seq<State>, events: seq<Event>, i: nat, k: Key, deadline: int)
    requires IsHistory(states, events) && i < |events| && !Touches(states[i], events[i], k, deadline)
    ensures IsSpared(Rows(states[i]), Rows(states[i + 1]), k, deadline, Removes(events[i], deadline))
  {
    HistoryAt(states, events, i);
    if Lives(Rows(states[i]), k, deadline) {
      OneOn(states, events, i, k, deadline);
    }
    if !HasKey(Rows(states[i]), k) {
      StepAppears(states[i], states[i + 1], events[i], k);
    }
  }

  lemma LivesHasKey(rows: set<Row>, k: Key, deadline: int)
    ensures Lives(rows, k, deadline) ==> HasKey(rows, k)
  {
  }

  /** No event from i up to j removes the record. */
  predicate NoneRemoves(events: seq<Event>, i: nat, j: nat, deadline: int)
    requires j <= |events|
    decreases j - i
  {
    i >= j || (!Removes(events[i], deadline) && NoneRemoves(events, i + 1, j, deadline))
  }

  lemma {:induction false} NoneRemovesIs(events: seq<Event>, i: nat, j: nat, deadline: int)
    requires j <= |events|
    ensures NoneRemoves(events, i, j, deadline) <==> forall m | i <= m < j :: !Removes(events[m], deadline)
    decreases j - i
  {
    if i < j {
      NoneRemovesIs(events, i + 1, j, deadline);
    }
  }

  /** The record is there at the end, or it is not. */
  ghost predicate EndsAs(rows: set<Row>, k: Key, deadline: int, alive: bool) {
    if alive then Lives(rows, k, deadline) else !HasKey(rows, k)
  }

  lemma {:induction false} GoneStays(states: seq<State>, events: seq<Event>, i: nat, j: nat, k: Key, deadline: int)
    requires IsHistory(states, events) && i <= j < |states| && EndsAs(Rows(states[i]), k, deadline, false)
    requires Untouched(states, events, i, j, k, deadline)
    ensures EndsAs(Rows(states[j]), k, deadline, false)
    decreases j - i
  {
    if i < j {
      SparedAt(states, events, i, k, deadline);
      GoneStays(states, events, i + 1, j, k, deadline);
    }
  }

  lemma {:induction false} LivesOn(states: seq<State>, events: seq<Event>, i: nat, j: nat, k: Key, deadline: int)
    requires IsHistory(states, events) && i <= j < |states| && EndsAs(Rows(states[i]), k, deadline, true)
    requires Untouched(states, events, i, j, k, deadline)
    ensures EndsAs(Rows(states[j]), k, deadline, NoneRemoves(events, i, j, deadline))
    decreases j - i
  {
    if i < j {
      SparedAt(states, events, i, k, deadline);
      if Removes(events[i], deadline) {
        GoneStays(states, events, i + 1, j, k, deadline);
      } else {
        LivesOn(states, events, i + 1, j, k, deadline);
      }
    }
  }

  /** Over every history: a record that is not received again, said goodbye to or trimmed is cached until the first
      removal of expired records at or after its deadline, and not from then on. */
  lemma LivesUntilDeadline(states: seq<State>, events: seq<Event>, i: nat, j: nat, k: Key, deadline: int)
    requires IsHistory(states, events) && i <= j < |states| && Lives(Rows(states[i]), k, deadline)
    requires Untouched(states, events, i, j, k, deadline)
    ensures Lives(Rows(states[j]), k, deadline) <==> forall m | i <= m < j :: !Removes(events[m], deadline)
    ensures Lives(Rows(states[j]), k, deadline) || !HasKey(Rows(states[j]), k)
  {
    LivesOn(states, events, i, j, k, deadline);
    NoneRemovesIs(events, i, j, deadline);
    LivesHasKey(Rows(states[j]), k, deadline);
  }

  /** A goodbye counts as time 0. */
  function Later(deadline: int): (r: int) {
    if deadline > 0 then deadline else 0
  }

  lemma StoredDeadline(st: State, q: State, ev: Event, k: Key, deadline: int)
    requires Happens(st, q, ev) && Lives(Rows(q), k, deadline) && Stores(ev, k)
    ensures deadline == ev.row.deadline
  {
    var row := ReceivedRow(st, q, ev);
  }

  lemma FarewellBefore(st: State, q: State, ev: Event, k: Key, deadline: int) returns (before: int)
    requires Happens(st, q, ev) && ev.Farewell? && Lives(Rows(q), k, deadline)
    ensures Lives(Rows(st), k, before) && deadline <= Later(before)
  {
    before := deadline;
    if ev.key != k {
      FarewellOther(st, q, ev, k, deadline);
    } else if HasKey(Rows(st), k) {
      var x :| x in Rows(st) && x.key == k;
      before := x.deadline;
    }
  }

  lemma TrimBefore(st: State, q: State, ev: Event, k: Key, deadline: int) returns (before: int)
    requires Happens(st, q, ev) && ev.Trim? && Lives(Rows(q), k, deadline)
    ensures Lives(Rows(st), k, before) && deadline <= before
  {
    var y :| y in Rows(q) && y.key == k && y.deadline == deadline;
    var x :| x in Rows(st) && y == Trimmed(st, x, ev.browses, ev.deadline);
    before := x.deadline;
  }

  lemma SyncBefore(st: State, q: State, ev: Event, k: Key, deadline: int)
    requires Happens(st, q, ev) && ev.Sync? && Lives(Rows(q), k, deadline)
    ensures Lives(Rows(st), k, deadline)
  {
    var y :| y in Rows(q) && y.key == k && y.deadline == deadline;
    var x :| x in Rows(st) && y == SettledRow(x);
    assert x.key == k && x.deadline == deadline;
  }

  /** A record that was not just received was there, and did not expire earlier. */
  lemma LivedBefore(st: State, q: State, ev: Event, k: Key, deadline: int) returns (before: int)
    requires Happens(st, q, ev) && Lives(Rows(q), k, deadline) && !Stores(ev, k)
    ensures Lives(Rows(st), k, before) && deadline <= Later(before)
    ensures ev.Expire? ==> ev.now < before
  {
    before := deadline;
    match ev {
      case Receive(_, _, _, _) => ReceiveOther(st, q, ev, k, deadline);
      case ReceiveAddress(_, _) => ReceiveOther(st, q, ev, k, deadline);
      case Farewell(_, _) => before := FarewellBefore(st, q, ev, k, deadline);
      case Ignore =>
      case Expire(_, _) =>
      case Trim(_, _) => before := TrimBefore(st, q, ev, k, deadline);
      case Sync(_, _) => SyncBefore(st, q, ev, k, deadline);
      case Reset =>
    }
  }

  /** One operation back: it stored the record, or the record was there. */
  lemma OneBack(states: seq<State>, events: seq<Event>, j: nat, k: Key, deadline: int) returns (before: int)
    requires IsHistory(states, events) && 0 < j < |states| && Lives(Rows(states[j]), k, deadline)
    ensures Stores(events[j - 1], k) ==> deadline == events[j - 1].row.deadline
    ensures !Stores(events[j - 1], k) ==> Lives(Rows(states[j - 1]), k, before) && deadline <= Later(before)
    ensures !Stores(events[j - 1], k) && events[j - 1].Expire? ==> events[j - 1].now < before
  {
    before := deadline;
    HistoryAt(states, events, j - 1);
    if Stores(events[j - 1], k) {
      StoredDeadline(states[j - 1], states[j], events[j - 1], k, deadline);
    } else {
      before := LivedBefore(states[j - 1], states[j], events[j - 1], k, deadline);
    }
  }

  /** Over every history from an empty cache: what is cached was received, its deadline is not later than what it was
      received with, and no removal of expired records came at or after that deadline. */
  lemma {:induction false} CachedWasReceived(states: seq<State>, events: seq<Event>, j: nat, k: Key, deadline: int)
    returns (i: nat)
    requires IsHistory(states, events) && j < |states| && Rows(states[0]) == {} && Lives(Rows(states[j]), k, deadline)
    ensures i < j && Stores(events[i], k) && deadline <= Later(events[i].row.deadline)
    ensures forall m | i < m < j :: !Stores(events[m], k) && !Removes(events[m], Later(events[i].row.deadline))
    decreases j
  {
    var before := OneBack(states, events, j, k, deadline);
    i := j - 1;
    if !Stores(events[j - 1], k) {
      i := CachedWasReceived(states, events, j - 1, k, before);
    }
  }
}
