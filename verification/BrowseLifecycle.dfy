/** The life of a browse (components/mdns/mdns_browser.c): the API creates and ends browses under the service
    lock and queues an action for each; the service task executes the actions later. */
module BrowseLifecycle {
  import opened Common
  import opened CaseFold

  /** What strndup keeps: MDNS_NAME_BUF_LEN - 1 characters. */
  const NAME_MAX := 64
  const SUBTYPE_MAX := 63

  datatype Phase = Initial | Running | Off
  datatype Item = Item(service: string, proto: string, subtype: string, phase: Phase)
  datatype Action = Start(browse: nat) | End(browse: nat)

  /** The list s_browse, the browses in it, and the actions that wait for the service task. */
  datatype State = State(list: seq<nat>, items: map<nat, Item>, actions: seq<Action>, next: nat)

  const INITIAL := State([], map[], [], 0)

  // ------------------------------------------------------------------ names

  function Cut(s: string): (r: string) {
    if |s| <= NAME_MAX then s else s[..NAME_MAX]
  }

  /** browse_matches_identity_with_subtype */
  predicate Matches(item: Item, service: string, proto: string, subtype: string) {
    && item.service != "" && service != "" && Fold(item.service) == Fold(service)
    && item.proto != "" && proto != "" && Fold(item.proto) == Fold(proto)
    && Fold(item.subtype) == Fold(subtype)
  }

  predicate Acceptable(service: string, proto: string, subtype: string) {
    service != "" && proto != "" && |subtype| <= SUBTYPE_MAX
  }

  /** The names are kept whole. */
  predicate Short(service: string, proto: string) {
    |service| <= NAME_MAX && |proto| <= NAME_MAX
  }

  function NewItem(service: string, proto: string, subtype: string): (r: Item) {
    Item(Cut(service), Cut(proto), Cut(subtype), Initial)
  }

  function PhaseOf(st: State, b: nat): (p: Phase) {
    if b in st.items then st.items[b].phase else Off
  }

  predicate IsLive(st: State, b: nat, service: string, proto: string, subtype: string) {
    b in st.items && !st.items[b].phase.Off? && Matches(st.items[b], service, proto, subtype)
  }

  /** get_non_off_browse_item */
  function Find(st: State, list: seq<nat>, service: string, proto: string, subtype: string): (r: Option<nat>)
    ensures r.Some? ==> r.value in list && IsLive(st, r.value, service, proto, subtype)
    ensures r.None? ==> forall b <- list :: !IsLive(st, b, service, proto, subtype)
  {
    if list == [] then None
    else if IsLive(st, list[0], service, proto, subtype) then Some(list[0])
    else Find(st, list[1..], service, proto, subtype)
  }

  // ------------------------------------------------------------------ the steps

  /** mdns_browse_new_with_subtype; enough tells whether there was memory for the browse and its action. */
  function Create(st: State, service: string, proto: string, subtype: string, enough: bool): (q: State) {
    if !Acceptable(service, proto, subtype) || !enough || Find(st, st.list, service, proto, subtype).Some? then st
    else State([st.next] + st.list, st.items[st.next := NewItem(service, proto, subtype)],
               st.actions + [Start(st.next)], st.next + 1)
  }

  /** mdns_browse_delete_with_subtype */
  function Delete(st: State, service: string, proto: string, subtype: string, enough: bool): (q: State) {
    var b := Find(st, st.list, service, proto, subtype);
    if !Acceptable(service, proto, subtype) || !enough || b.None? then st
    else st.(items := st.items[b.value := st.items[b.value].(phase := Off)], actions := st.actions + [End(b.value)])
  }

  /** mdns_priv_browse_action: browse_start or browse_finish. A start reads the browse it was queued for. */
  function Execute(st: State): (q: State)
    requires st.actions != [] && (st.actions[0].Start? ==> st.actions[0].browse in st.items)
  {
    var b, rest := st.actions[0].browse, st.actions[1..];
    match st.actions[0]
    case Start(_) =>
      if st.items[b].phase.Initial? then st.(items := st.items[b := st.items[b].(phase := Running)], actions := rest)
      else st.(actions := rest)
    case End(_) =>
      if b in st.list then st.(list := Without(st.list, b), items := st.items - {b}, actions := rest)
      else st.(actions := rest)
  }

  datatype Event =
    | New(service: string, proto: string, subtype: string, enough: bool)
    | Gone(service: string, proto: string, subtype: string, enough: bool)
    | Task

  // ------------------------------------------------------------------ invariants

  /** The pending actions of one browse, in order. */
  function Of(actions: seq<Action>, b: nat): (r: seq<Action>) {
    if actions == [] then [] else if actions[0].browse == b then [actions[0]] + Of(actions[1..], b)
    else Of(actions[1..], b)
  }

  /** A new browse waits for its start, a running one for nothing, an ended one for its end, perhaps after its
      start. */
  predicate Expected(p: Phase, pending: seq<Action>, b: nat) {
    match p
    case Initial => pending == [Start(b)]
    case Running => pending == []
    case Off => pending == [End(b)] || pending == [Start(b), End(b)]
  }

  ghost predicate Inv(st: State) {
    && NoRepeat(st.list) && (forall b :: b in st.items <==> b in st.list)
    && (forall b <- st.list :: b < st.next && Expected(PhaseOf(st, b), Of(st.actions, b), b))
    && (forall a <- st.actions :: a.browse in st.list)
  }

  /** The service, the protocol and the subtype, each in whatever letters. */
  ghost predicate Named(item: Item, service: string, proto: string, subtype: string) {
    SameName(item.service, service) && SameName(item.proto, proto) && SameName(item.subtype, subtype)
  }

  /** At most one browse of a name that is not off. */
  ghost predicate Unique(st: State) {
    forall a, b | a in st.items && b in st.items && !PhaseOf(st, a).Off? && !PhaseOf(st, b).Off?
                  && Named(st.items[a], st.items[b].service, st.items[b].proto, st.items[b].subtype) :: a == b
  }

  // ------------------------------------------------------------------ what is refused

  lemma MatchesExactly(item: Item, service: string, proto: string, subtype: string)
    ensures Matches(item, service, proto, subtype) <==>
            service != "" && proto != "" && Named(item, service, proto, subtype)
  {
    FoldDecides(item.service, service);
    FoldDecides(item.proto, proto);
    FoldDecides(item.subtype, subtype);
  }

  /** A browse of these names is in the list and not off. */
  ghost predicate IsBrowsed(st: State, service: string, proto: string, subtype: string) {
    exists b <- st.list :: !PhaseOf(st, b).Off? && b in st.items && Named(st.items[b], service, proto, subtype)
  }

  lemma FoundExactly(st: State, service: string, proto: string, subtype: string)
    requires service != "" && proto != ""
    ensures Find(st, st.list, service, proto, subtype).Some? <==> IsBrowsed(st, service, proto, subtype)
  {
    forall b | b in st.items
      ensures Matches(st.items[b], service, proto, subtype) <==> Named(st.items[b], service, proto, subtype)
    {
      MatchesExactly(st.items[b], service, proto, subtype);
    }
  }

  /** A browse is refused, with memory enough, only for an empty service or protocol, for a subtype of more than 63
      characters, or where all three names are browsed already: another subtype does not stand in its way. One is
      ended exactly where it would be refused as browsed already. */
  lemma RefusedExactly(st: State, service: string, proto: string, subtype: string)
    ensures Create(st, service, proto, subtype, true) == st <==>
            service == "" || proto == "" || |subtype| > 63 || IsBrowsed(st, service, proto, subtype)
    ensures Delete(st, service, proto, subtype, true) != st <==>
            service != "" && proto != "" && |subtype| <= 63 && IsBrowsed(st, service, proto, subtype)
  {
    if service != "" && proto != "" {
      FoundExactly(st, service, proto, subtype);
      assert |Create(st, service, proto, subtype, true).list| >= |st.list|;
      assert |Delete(st, service, proto, subtype, true).actions| >= |st.actions|;
    }
  }

  // ------------------------------------------------------------------ pending actions

  lemma {:induction false} OfJoin(a: seq<Action>, b: seq<Action>, n: nat)
    ensures Of(a + b, n) == Of(a, n) + Of(b, n)
  {
    if a == [] {
      assert a + b == b;
    } else {
      assert (a + b)[1..] == a[1..] + b;
      OfJoin(a[1..], b, n);
    }
  }

  lemma OfOneMore(actions: seq<Action>, a: Action, n: nat)
    ensures Of(actions + [a], n) == if a.browse == n then Of(actions, n) + [a] else Of(actions, n)
  {
    OfJoin(actions, [a], n);
    assert Of([a], n) == if a.browse == n then [a] else [];
  }

  lemma {:induction false} OfNone(actions: seq<Action>, n: nat)
    requires forall a <- actions :: a.browse != n
    ensures Of(actions, n) == []
  {
    if actions != [] {
      assert actions[0] in actions && forall a <- actions[1..] :: a in actions;
      OfNone(actions[1..], n);
    }
  }

  lemma {:induction false} OfEmpty(actions: seq<Action>, n: nat)
    requires Of(actions, n) == []
    ensures forall a <- actions :: a.browse != n
  {
    if actions != [] {
      OfEmpty(actions[1..], n);
    }
  }

  // ------------------------------------------------------------------ every step keeps the invariants

  lemma CreateKeeps(st: State, service: string, proto: string, subtype: string, enough: bool)
    requires Inv(st)
    ensures Inv(Create(st, service, proto, subtype, enough))
  {
    var q := Create(st, service, proto, subtype, enough);
    if q != st {
      assert st.next !in st.list;
      assert q.list[1..] == st.list;
      OfNone(st.actions, st.next);
      forall b | b in q.list ensures b < q.next && Expected(PhaseOf(q, b), Of(q.actions, b), b) {
        OfOneMore(st.actions, Start(st.next), b);
      }
    }
  }

  lemma DeleteKeeps(st: State, service: string, proto: string, subtype: string, enough: bool)
    requires Inv(st)
    ensures Inv(Delete(st, service, proto, subtype, enough))
  {
    var q := Delete(st, service, proto, subtype, enough);
    var found := Find(st, st.list, service, proto, subtype);
    if q != st {
      forall b | b in q.list ensures b < q.next && Expected(PhaseOf(q, b), Of(q.actions, b), b) {
        assert Expected(PhaseOf(st, b), Of(st.actions, b), b);
        OfOneMore(st.actions, End(found.value), b);
      }
    }
  }

  /** The browse that the next action is about is still there. */
  lemma NextIsListed(st: State)
    requires Inv(st) && st.actions != []
    ensures st.actions[0].browse in st.items
  {
    assert st.actions[0] in st.actions;
  }

  lemma StartKeeps(st: State, b: nat)
    requires Inv(st) && st.actions != [] && st.actions[0] == Start(b) && b in st.items
    ensures Inv(Execute(st))
  {
    var q := Execute(st);
    assert forall a <- st.actions[1..] :: a in st.actions;
    forall c | c in q.list ensures c < q.next && Expected(PhaseOf(q, c), Of(q.actions, c), c) {
      assert Expected(PhaseOf(st, c), Of(st.actions, c), c);
      if c == b {
        assert Of(st.actions, b)[0] == Start(b);
        assert Of(st.actions[1..], b) == Of(st.actions, b)[1..];
        assert [Start(b), End(b)][1..] == [End(b)];
      }
    }
  }

  lemma EndKeeps(st: State, b: nat)
    requires Inv(st) && st.actions != [] && st.actions[0] == End(b) && b in st.items
    ensures Inv(Execute(st))
  {
    var q := Execute(st);
    WithoutKeeps(st.list, b);
    assert Expected(PhaseOf(st, b), Of(st.actions, b), b);
    assert Of(st.actions, b)[0] == End(b);
    assert Of(st.actions[1..], b) == Of(st.actions, b)[1..];
    OfEmpty(st.actions[1..], b);
    assert forall a <- st.actions[1..] :: a in st.actions;
    forall c | c in q.list ensures c < q.next && Expected(PhaseOf(q, c), Of(q.actions, c), c) {
      assert Expected(PhaseOf(st, c), Of(st.actions, c), c);
    }
  }

  /** The service task executes the next action, if there is one. */
  ghost function Step(st: State, ev: Event): (q: State)
    requires Inv(st)
    ensures Inv(q)
  {
    match ev
    case New(service, proto, subtype, enough) =>
      CreateKeeps(st, service, proto, subtype, enough);
      Create(st, service, proto, subtype, enough)
    case Gone(service, proto, subtype, enough) =>
      DeleteKeeps(st, service, proto, subtype, enough);
      Delete(st, service, proto, subtype, enough)
    case Task =>
      if st.actions == [] then st
      else
        NextIsListed(st);
        TaskKeeps(st);
        Execute(st)
  }

  lemma TaskKeeps(st: State)
    requires Inv(st) && st.actions != [] && st.actions[0].browse in st.items
    ensures Inv(Execute(st))
  {
    match st.actions[0] {
      case Start(b) => StartKeeps(st, b);
      case End(b) => EndKeeps(st, b);
    }
  }

  ghost function Run(st: State, events: seq<Event>): (q: State)
    requires Inv(st)
    ensures Inv(q)
    decreases events
  {
    if events == [] then st else Run(Step(st, events[0]), events[1..])
  }

  /** Over every interleaving of the API and the service task: a browse that was not started yet has its start
      pending, one that was ended has its end pending, and no pending action is about a browse that is gone. */
  lemma EveryRun(events: seq<Event>)
    ensures Inv(INITIAL)
    ensures var st := Run(INITIAL, events);
            && (forall b <- st.list :: PhaseOf(st, b).Initial? ==> Start(b) in st.actions)
            && (forall b <- st.list :: PhaseOf(st, b).Off? <==> End(b) in st.actions)
            && (forall a <- st.actions :: a.browse in st.list)
  {
    var st := Run(INITIAL, events);
    forall b | b in st.list
      ensures (PhaseOf(st, b).Initial? ==> Start(b) in st.actions) && (PhaseOf(st, b).Off? <==> End(b) in st.actions)
    {
      assert Expected(PhaseOf(st, b), Of(st.actions, b), b);
      OfHas(st.actions, Start(b));
      OfHas(st.actions, End(b));
    }
  }

  lemma {:induction false} OfHas(actions: seq<Action>, a: Action)
    ensures a in Of(actions, a.browse) <==> a in actions
  {
    if actions != [] {
      assert actions == [actions[0]] + actions[1..];
      OfHas(actions[1..], a);
    }
  }

  // ------------------------------------------------------------------ one browse of a name

  /** Short names are compared as they are stored. */
  lemma CreateUnique(st: State, service: string, proto: string, subtype: string, enough: bool)
    requires Inv(st) && Unique(st) && Short(service, proto)
    ensures Unique(Create(st, service, proto, subtype, enough))
  {
    var q := Create(st, service, proto, subtype, enough);
    if q != st {
      assert q.items[st.next] == Item(service, proto, subtype, Initial);
      FoundExactly(st, service, proto, subtype);
      forall b | b in st.items && !PhaseOf(st, b).Off? ensures !Named(st.items[b], service, proto, subtype) {
        assert b in st.list;
      }
    }
  }

  lemma OtherStepsUnique(st: State, ev: Event)
    requires Inv(st) && Unique(st) && !ev.New?
    ensures Unique(Step(st, ev))
  {
    var q := Step(st, ev);
    forall b | b in q.items && !PhaseOf(q, b).Off?
      ensures b in st.items && !PhaseOf(st, b).Off? && q.items[b].service == st.items[b].service
      ensures q.items[b].proto == st.items[b].proto && q.items[b].subtype == st.items[b].subtype
    {
    }
  }

  lemma {:induction false} RunUnique(st: State, events: seq<Event>)
    requires Inv(st) && Unique(st) && forall ev <- events :: ev.New? ==> Short(ev.service, ev.proto)
    ensures Unique(Run(st, events))
    decreases events
  {
    if events != [] {
      var ev := events[0];
      assert ev in events && forall e <- events[1..] :: e in events;
      if ev.New? {
        CreateUnique(st, ev.service, ev.proto, ev.subtype, ev.enough);
      } else {
        OtherStepsUnique(st, ev);
      }
      RunUnique(Step(st, ev), events[1..]);
    }
  }

  /** With names that are kept whole there is never more than one browse of a name that is not off. */
  lemma EveryRunIsUnique(events: seq<Event>)
    requires forall ev <- events :: ev.New? ==> Short(ev.service, ev.proto)
    ensures Inv(INITIAL) && Unique(Run(INITIAL, events))
  {
    RunUnique(INITIAL, events);
  }

  /** The length is exactly what decides: a longer name is stored cut off, so the same call a second time does
      not find the browse of the first. */
  lemma LengthsDecide(service: string, proto: string, subtype: string)
    requires Acceptable(service, proto, subtype)
    ensures (forall st | Inv(st) && Unique(st) :: Unique(Create(st, service, proto, subtype, true))) <==>
            Short(service, proto)
  {
    if Short(service, proto) {
      forall st | Inv(st) && Unique(st) ensures Unique(Create(st, service, proto, subtype, true)) {
        CreateUnique(st, service, proto, subtype, true);
      }
    } else {
      var st := Create(INITIAL, service, proto, subtype, true);
      CreateKeeps(INITIAL, service, proto, subtype, true);
      assert Unique(st);
      LongNameTwice(st, service, proto, subtype);
    }
  }

  lemma LongNameTwice(st: State, service: string, proto: string, subtype: string)
    requires Acceptable(service, proto, subtype) && !Short(service, proto)
    requires st == Create(INITIAL, service, proto, subtype, true)
    ensures !Unique(Create(st, service, proto, subtype, true))
  {
    LongNameMissed(st, st.list, service, proto, subtype);
    var q := Create(st, service, proto, subtype, true);
    assert q.items[0] == q.items[1] == NewItem(service, proto, subtype);
    assert Named(q.items[0], q.items[1].service, q.items[1].proto, q.items[1].subtype);
    assert !PhaseOf(q, 0).Off? && !PhaseOf(q, 1).Off?;
  }

  /** A browse that was created with a long name is not found by that name, neither to refuse a second one nor to
      end it. */
  lemma LongNameMissed(st: State, list: seq<nat>, service: string, proto: string, subtype: string)
    requires !Short(service, proto)
    requires forall b | b in st.items :: |st.items[b].service| <= NAME_MAX && |st.items[b].proto| <= NAME_MAX
    ensures Find(st, list, service, proto, subtype).None?
  {
    forall b | b in st.items ensures !Matches(st.items[b], service, proto, subtype) {
      MatchesExactly(st.items[b], service, proto, subtype);
    }
  }

  // ------------------------------------------------------------------ as the code runs it

  class Browser {
    var list: seq<nat>
    var items: map<nat, Item>
    var actions: seq<Action>
    var next: nat

    ghost function Snap(): (st: State)
      reads this
    {
      State(list, items, actions, next)
    }

    constructor ()
      ensures Snap() == INITIAL && Inv(Snap())
    {
      list, items, actions, next := [], map[], [], 0;
    }

    /** get_non_off_browse_item */
    method FindNonOff(service: string, proto: string, subtype: string) returns (b: Option<nat>)
      ensures b == Find(Snap(), list, service, proto, subtype)
    {
      ghost var st := Snap();
      b := None;
      var i := 0;
      assert list[0..] == list;
      while i < |list|
        invariant 0 <= i <= |list|
        invariant Find(st, list, service, proto, subtype) == Find(st, list[i..], service, proto, subtype)
      {
        var c := list[i];
        assert list[i..][0] == c && list[i..][1..] == list[i + 1..];
        if c in items && !items[c].phase.Off? && Matches(items[c], service, proto, subtype) {
          return Some(c);
        }
        i := i + 1;
      }
    }

    /** mdns_browse_new_with_subtype; enough tells whether there is memory. */
    method BrowseNew(service: string, proto: string, subtype: string, enough: bool) returns (b: Option<nat>)
      requires Inv(Snap())
      modifies this
      ensures Snap() == Create(old(Snap()), service, proto, subtype, enough) && Inv(Snap())
      ensures b.Some? <==> Snap() != old(Snap())
      ensures b.Some? ==>
                b.value in items && items[b.value] == NewItem(service, proto, subtype) && Start(b.value) in actions
    {
      b := None;
      CreateKeeps(Snap(), service, proto, subtype, enough);
      if service == "" || proto == "" || |subtype| > SUBTYPE_MAX || !enough {
        return;
      }
      var found := FindNonOff(service, proto, subtype);
      if found.Some? {
        return;
      }
      actions := actions + [Start(next)];
      items := items[next := NewItem(service, proto, subtype)];
      list := [next] + list;
      b := Some(next);
      next := next + 1;
    }

    /** mdns_browse_delete_with_subtype; the phase is put back when the action cannot be queued. */
    method BrowseDelete(service: string, proto: string, subtype: string, enough: bool) returns (ok: bool)
      requires Inv(Snap())
      modifies this
      ensures Snap() == Delete(old(Snap()), service, proto, subtype, enough) && Inv(Snap())
      ensures ok <==> Snap() != old(Snap())
    {
      ok := false;
      ghost var st := Snap();
      DeleteKeeps(st, service, proto, subtype, enough);
      if service == "" || proto == "" || |subtype| > SUBTYPE_MAX {
        return;
      }
      var found := FindNonOff(service, proto, subtype);
      if found.None? {
        return;
      }
      var b := found.value;
      var before := items[b];
      items := items[b := before.(phase := Off)];
      if !enough {
        items := items[b := before];
        assert items == st.items;
        return;
      }
      actions := actions + [End(b)];
      ok := true;
      assert |actions| != |st.actions|;
    }

    /** mdns_priv_browse_action for the first pending action */
    method RunAction() returns (a: Action)
      requires Inv(Snap()) && actions != []
      modifies this
      ensures Snap() == Step(old(Snap()), Task) && a == old(actions)[0] && a.browse in old(items)
    {
      NextIsListed(Snap());
      TaskKeeps(Snap());
      a := actions[0];
      actions := actions[1..];
      if a.Start? {
        if items[a.browse].phase.Initial? {
          items := items[a.browse := items[a.browse].(phase := Running)];
        }
      } else {
        Detach(a.browse);
      }
    }

    /** browse_finish */
    method Detach(b: nat)
      modifies this`list, this`items
      ensures list == (if b in old(list) then Without(old(list), b) else old(list))
      ensures items == (if b in old(list) then old(items) - {b} else old(items))
    {
      for i := 0 to |list|
        invariant list == old(list) && items == old(items) && forall j | 0 <= j < i :: list[j] != b
      {
        if list[i] == b {
          WithoutAt(list, i);
          list := list[..i] + list[i + 1..];
          items := items - {b};
          return;
        }
      }
    }
  }
}
