/** The change watcher (internal/watch): one monotonic index over the registry's changes,
    a key per service name, buffered subscriptions, and blocking waiters woken by closing
    and replacing a broadcast channel. */
module Watcher {
  import opened Model
  import opened Sets

  /** The buffer of a subscription channel. */
  const CAPACITY: nat := 64

  datatype Sub = Sub(query: Query, queue: seq<ChangeEvent>)

  /** A watcher's state. `bump` numbers the current broadcast channel; every lower number is
      a channel that has been closed. */
  datatype Watch = Watch(
    index: nat,
    nameIndex: map<string, nat>,
    bump: nat,
    subs: map<int, Sub>,
    nextID: int)

  function New(base: nat): Watch {
    Watch(base, map[], 0, map[], 0)
  }

  function AtLeastOne(x: nat): nat {
    if x < 1 then 1 else x
  }

  function CurrentIndex(w: Watch, q: Query): nat {
    if q.name != "" && q.name in w.nameIndex then AtLeastOne(w.nameIndex[q.name]) else AtLeastOne(w.index)
  }

  // ---- the index ----

  /** The per-name keys after changes to `names`, the first at index base + 1. */
  function Keyed(nameIndex: map<string, nat>, base: nat, names: seq<string>): map<string, nat>
    decreases |names|
  {
    if names == [] then nameIndex
    else Keyed(nameIndex, base, names[..|names| - 1])[names[|names| - 1] := base + |names|]
  }

  function Names(events: seq<ChangeEvent>): seq<string> {
    seq(|events|, i requires 0 <= i < |events| => events[i].entry.service.name)
  }

  /** Changes to `names`, announced by one closing of the channel. */
  function Bumped(w: Watch, names: seq<string>): Watch {
    if names == [] then w
    else w.(index := w.index + |names|, nameIndex := Keyed(w.nameIndex, w.index, names), bump := w.bump + 1)
  }

  // ---- subscriptions ----

  predicate Selects(q: Query, ev: ChangeEvent) {
    Matches(q, ev.entry.node.datacenter, ev.entry.service)
  }

  /** The events of a batch a subscription selects, stamped with the watcher's index. */
  function Selected(q: Query, base: nat, events: seq<ChangeEvent>): seq<ChangeEvent>
    decreases |events|
  {
    if events == [] then []
    else
      var ev := events[|events| - 1];
      var rest := Selected(q, base, events[..|events| - 1]);
      if Selects(q, ev) then rest + [ev.(index := base + |events|)] else rest
  }

  /** A non-blocking send: dropped when the buffer is full. */
  function Offer(s: Sub, ev: ChangeEvent): Sub {
    if |s.queue| < CAPACITY then s.(queue := s.queue + [ev]) else s
  }

  function OfferAll(s: Sub, evs: seq<ChangeEvent>): Sub
    decreases |evs|
  {
    if evs == [] then s else Offer(OfferAll(s, evs[..|evs| - 1]), evs[|evs| - 1])
  }

  function Notified(w: Watch, events: seq<ChangeEvent>): Watch {
    Bumped(w, Names(events)).(
      subs := map id | id in w.subs :: OfferAll(w.subs[id], Selected(w.subs[id].query, w.index, events)))
  }

  /** The deliveries addressed to one subscription. */
  function To(deliver: seq<(int, ChangeEvent)>, id: int): seq<ChangeEvent>
    decreases |deliver|
  {
    if deliver == [] then []
    else
      var d := deliver[|deliver| - 1];
      var rest := To(deliver[..|deliver| - 1], id);
      if d.0 == id then rest + [d.1] else rest
  }

  lemma ToSnoc(deliver: seq<(int, ChangeEvent)>, d: (int, ChangeEvent), id: int)
    ensures To(deliver + [d], id) == if d.0 == id then To(deliver, id) + [d.1] else To(deliver, id)
  {
    assert (deliver + [d])[..|deliver + [d]| - 1] == deliver;
  }

  lemma OfferAllSnoc(s: Sub, evs: seq<ChangeEvent>, ev: ChangeEvent)
    ensures OfferAll(s, evs + [ev]) == Offer(OfferAll(s, evs), ev)
  {
    assert (evs + [ev])[..|evs + [ev]| - 1] == evs;
  }

  /** The subscriptions after the deliveries were offered to them in turn. */
  function Delivered(subs: map<int, Sub>, deliver: seq<(int, ChangeEvent)>): map<int, Sub> {
    map id | id in subs :: OfferAll(subs[id], To(deliver, id))
  }

  lemma DeliveredNothing(subs: map<int, Sub>)
    ensures Delivered(subs, []) == subs
  {
  }

  lemma DeliveredOne(subs: map<int, Sub>, deliver: seq<(int, ChangeEvent)>, d: (int, ChangeEvent))
    requires d.0 in subs
    ensures Delivered(subs, deliver + [d])
              == Delivered(subs, deliver)[d.0 := Offer(Delivered(subs, deliver)[d.0], d.1)]
  {
    forall id | id in subs
      ensures OfferAll(subs[id], To(deliver + [d], id))
                == if id == d.0 then Offer(OfferAll(subs[id], To(deliver, id)), d.1)
                   else OfferAll(subs[id], To(deliver, id))
    {
      ToSnoc(deliver, d, id);
      OfferAllSnoc(subs[id], To(deliver, id), d.1);
    }
  }

  lemma CountedNext(nameIndex: map<string, nat>, base: nat, events: seq<ChangeEvent>, i: nat)
    requires i < |events|
    ensures Keyed(nameIndex, base, Names(events)[..i + 1])
              == Keyed(nameIndex, base, Names(events)[..i])[events[i].entry.service.name := base + i + 1]
    ensures forall q {:trigger Selected(q, base, events[..i + 1])} :: Selected(q, base, events[..i + 1])
              == Selected(q, base, events[..i]) +
                 (if Selects(q, events[i]) then [events[i].(index := base + i + 1)] else [])
  {
    assert Names(events)[..i + 1][..i] == Names(events)[..i];
    assert events[..i + 1][..i] == events[..i] && events[..i + 1][i] == events[i];
  }

  class Watcher {
    var index: nat
    var nameIndex: map<string, nat>
    var bump: nat
    var subs: map<int, Sub>
    var nextID: int

    ghost function View(): Watch
      reads this
    {
      Watch(index, nameIndex, bump, subs, nextID)
    }

    constructor (base: nat)
      ensures View() == New(base)
    {
      index, nameIndex, bump, subs, nextID := base, map[], 0, map[], 0;
    }

    method SignalLocked()
      modifies this`bump
      ensures bump == old(bump) + 1
    {
      bump := bump + 1;
    }

    method NotifyNames(names: seq<string>)
      modifies this`index, this`nameIndex, this`bump
      ensures View() == Bumped(old(View()), names)
    {
      if |names| == 0 {
        return;
      }
      for i := 0 to |names|
        invariant index == old(index) + i
        invariant nameIndex == Keyed(old(nameIndex), old(index), names[..i])
        invariant bump == old(bump)
      {
        assert names[..i + 1][..i] == names[..i];
        index := index + 1;
        nameIndex := nameIndex[names[i] := index];
      }
      assert names[..|names|] == names;
      SignalLocked();
    }

    method Notify(events: seq<ChangeEvent>)
      modifies this
      ensures View() == Notified(old(View()), events)
    {
      if |events| == 0 {
        assert forall id | id in subs :: Selected(subs[id].query, index, events) == [];
        assert forall id | id in subs :: OfferAll(subs[id], []) == subs[id];
        assert subs == Notified(View(), events).subs;
        return;
      }
      var deliver := Count(events);
      SignalLocked();
      Deliver(deliver);
      assert subs == Notified(old(View()), events).subs;
    }

    /** Advances the index once per event and addresses the events to the subscriptions. */
    method Count(events: seq<ChangeEvent>) returns (deliver: seq<(int, ChangeEvent)>)
      modifies this`index, this`nameIndex
      ensures index == old(index) + |events| && nameIndex == Keyed(old(nameIndex), old(index), Names(events))
      ensures forall d | d in deliver :: d.0 in subs
      ensures forall id | id in subs :: To(deliver, id) == Selected(subs[id].query, old(index), events)
    {
      deliver := [];
      for i := 0 to |events|
        invariant index == old(index) + i
        invariant nameIndex == Keyed(old(nameIndex), old(index), Names(events)[..i])
        invariant forall d | d in deliver :: d.0 in subs
        invariant forall id | id in subs :: To(deliver, id) == Selected(subs[id].query, old(index), events[..i])
      {
        CountedNext(old(nameIndex), old(index), events, i);
        index := index + 1;
        nameIndex := nameIndex[events[i].entry.service.name := index];
        deliver := Address(deliver, events[i].(index := index));
      }
      assert Names(events)[..|events|] == Names(events) && events[..|events|] == events;
    }

    /** Addresses one event to every subscription that selects it, in any order. */
    method Address(deliver: seq<(int, ChangeEvent)>, ev: ChangeEvent) returns (all: seq<(int, ChangeEvent)>)
      requires forall d | d in deliver :: d.0 in subs
      ensures forall d | d in all :: d.0 in subs
      ensures forall id | id in subs ::
                To(all, id) == To(deliver, id) + (if Selects(subs[id].query, ev) then [ev] else [])
    {
      all := deliver;
      var todo := subs.Keys;
      while todo != {}
        invariant todo <= subs.Keys
        invariant forall d | d in all :: d.0 in subs
        invariant forall id | id in subs ::
            To(all, id) == To(deliver, id) + (if id !in todo && Selects(subs[id].query, ev) then [ev] else [])
        decreases todo
      {
        ghost var some := Element(todo);
        var s :| s in todo;
        if Selects(subs[s].query, ev) {
          forall id
            ensures To(all + [(s, ev)], id) == if s == id then To(all, id) + [ev] else To(all, id)
          {
            ToSnoc(all, (s, ev), id);
          }
          all := all + [(s, ev)];
        }
        todo := todo - {s};
      }
    }

    method Deliver(deliver: seq<(int, ChangeEvent)>)
      requires forall d | d in deliver :: d.0 in subs
      modifies this`subs
      ensures subs == Delivered(old(subs), deliver)
    {
      DeliveredNothing(subs);
      for i := 0 to |deliver|
        invariant subs == Delivered(old(subs), deliver[..i])
      {
        var d := deliver[i];
        assert deliver[..i + 1] == deliver[..i] + [d];
        DeliveredOne(old(subs), deliver[..i], d);
        subs := subs[d.0 := Offer(subs[d.0], d.1)];
      }
      assert deliver[..|deliver|] == deliver;
    }

    method Subscribe(q: Query) returns (id: int)
      modifies this`subs, this`nextID
      ensures id == old(nextID)
      ensures View() == old(View()).(subs := old(subs)[id := Sub(q, [])], nextID := id + 1)
    {
      id := nextID;
      nextID := nextID + 1;
      subs := subs[id := Sub(q, [])];
    }

    method Cancel(id: int)
      modifies this`subs
      ensures View() == old(View()).(subs := old(subs) - {id})
    {
      subs := subs - {id};
    }
  }

  // ---- what changes do to a query's index ----

  /** Name keys never run ahead of the table index. */
  ghost predicate Bounded(w: Watch) {
    forall n | n in w.nameIndex :: w.nameIndex[n] <= w.index
  }

  /** The last position, from 1, at which `names` changes what `q` asks about; 0 if never. */
  function LastChange(q: Query, names: seq<string>): nat
    decreases |names|
  {
    if names == [] then 0
    else if q.name == "" || names[|names| - 1] == q.name then |names|
    else LastChange(q, names[..|names| - 1])
  }

  lemma {:induction false} KeyedAt(nameIndex: map<string, nat>, base: nat, names: seq<string>, q: Query)
    requires q.name != ""
    ensures var m := Keyed(nameIndex, base, names);
            if LastChange(q, names) > 0 then q.name in m && m[q.name] == base + LastChange(q, names)
            else (q.name in m <==> q.name in nameIndex) && (q.name in m ==> m[q.name] == nameIndex[q.name])
    decreases |names|
  {
    if names != [] {
      KeyedAt(nameIndex, base, names[..|names| - 1], q);
    }
  }

  lemma {:induction false} KeyedBounded(nameIndex: map<string, nat>, base: nat, names: seq<string>)
    requires forall n | n in nameIndex :: nameIndex[n] <= base
    ensures forall n | n in Keyed(nameIndex, base, names) :: Keyed(nameIndex, base, names)[n] <= base + |names|
    decreases |names|
  {
    if names != [] {
      KeyedBounded(nameIndex, base, names[..|names| - 1]);
    }
  }

  /** The index of every query is monotone under every batch of changes. */
  lemma IndexMonotone(w: Watch, names: seq<string>, q: Query)
    requires Bounded(w)
    ensures Bounded(Bumped(w, names))
    ensures CurrentIndex(w, q) <= CurrentIndex(Bumped(w, names), q)
  {
    KeyedBounded(w.nameIndex, w.index, names);
    if q.name != "" {
      KeyedAt(w.nameIndex, w.index, names, q);
    }
  }

  /** A change to what `q` asks about raises its index, except for exactly one case: the very
      first change of a watcher that started at zero, which the floor of one hides. */
  lemma ChangeRaisesIndex(w: Watch, names: seq<string>, q: Query)
    requires Bounded(w) && LastChange(q, names) > 0
    ensures CurrentIndex(w, q) < CurrentIndex(Bumped(w, names), q) <==> w.index >= 1 || LastChange(q, names) >= 2
  {
    if q.name != "" {
      KeyedAt(w.nameIndex, w.index, names, q);
    }
  }

  lemma {:induction false} LastChangeAt(q: Query, names: seq<string>, i: nat)
    requires i < |names| && (q.name == "" || names[i] == q.name)
    requires forall j | i < j < |names| :: q.name != "" && names[j] != q.name
    ensures LastChange(q, names) == i + 1
    decreases |names|
  {
    if i < |names| - 1 {
      assert names[|names| - 1] != q.name;
      LastChangeAt(q, names[..|names| - 1], i);
    }
  }

  lemma {:induction false} NoChange(q: Query, names: seq<string>)
    requires q.name != "" && q.name !in names
    ensures LastChange(q, names) == 0
    decreases |names|
  {
    if names != [] {
      assert names[|names| - 1] in names && forall n | n in names[..|names| - 1] :: n in names;
      NoChange(q, names[..|names| - 1]);
    }
  }

  /** What a batch of changes does to the index of a name: the position of the last change of
      that name counts from the watcher's index, and changes of other names leave it alone. */
  lemma NameIndexAfter(w: Watch, names: seq<string>, q: Query)
    requires q.name != ""
    ensures forall i | 0 <= i < |names| && names[i] == q.name && (forall j | i < j < |names| :: names[j] != q.name) ::
              CurrentIndex(Bumped(w, names), q) == w.index + i + 1
    ensures q.name !in names && q.name in w.nameIndex ==> CurrentIndex(Bumped(w, names), q) == CurrentIndex(w, q)
  {
    KeyedAt(w.nameIndex, w.index, names, q);
    forall i | 0 <= i < |names| && names[i] == q.name && (forall j | i < j < |names| :: names[j] != q.name)
      ensures CurrentIndex(Bumped(w, names), q) == w.index + i + 1
    {
      LastChangeAt(q, names, i);
    }
    if q.name !in names {
      NoChange(q, names);
    }
  }

  /** List queries, and names never seen, are on the table index, which counts every change. */
  lemma TableIndexAfter(w: Watch, names: seq<string>, q: Query)
    requires q.name == "" || (q.name !in names && q.name !in w.nameIndex)
    ensures var x := w.index + |names|; CurrentIndex(Bumped(w, names), q) == if x < 1 then 1 else x
  {
    if q.name != "" {
      KeyedAt(w.nameIndex, w.index, names, q);
      NoChange(q, names);
    }
  }

  // ---- what a subscription is offered ----

  /** The query asks for the event's instance, field by field. */
  predicate AsksFor(q: Query, ev: ChangeEvent) {
    && (q.name == "" || q.name == ev.entry.service.name)
    && (q.datacenter == "" || q.datacenter == ev.entry.node.datacenter)
    && forall w | w in q.tags :: w in ev.entry.service.tags
  }

  lemma SelectsAsked(q: Query, ev: ChangeEvent)
    ensures Selects(q, ev) <==> AsksFor(q, ev)
  {
    assert forall w :: ev.entry.service.HasTag(w) <==> w in ev.entry.service.tags;
  }

  /** `x` is an event of the batch the query asks for, stamped with the watcher's index for it. */
  predicate Stamped(q: Query, base: nat, events: seq<ChangeEvent>, x: ChangeEvent) {
    && base < x.index <= base + |events|
    && AsksFor(q, events[x.index - base - 1]) && x == events[x.index - base - 1].(index := x.index)
  }

  lemma {:induction false} SelectedStamped(q: Query, base: nat, events: seq<ChangeEvent>, x: ChangeEvent)
    ensures x in Selected(q, base, events) <==> Stamped(q, base, events, x)
    decreases |events|
  {
    if events != [] {
      var n := |events| - 1;
      SelectedStamped(q, base, events[..n], x);
      SelectsAsked(q, events[n]);
      assert x.index <= base + n ==> (Stamped(q, base, events, x) <==> Stamped(q, base, events[..n], x));
    }
  }

  lemma {:induction false} SelectedInOrder(q: Query, base: nat, events: seq<ChangeEvent>)
    ensures forall a, b | 0 <= a < b < |Selected(q, base, events)| ::
              Selected(q, base, events)[a].index < Selected(q, base, events)[b].index
    decreases |events|
  {
    if events != [] {
      var n := |events| - 1;
      SelectedInOrder(q, base, events[..n]);
      forall x | x in Selected(q, base, events[..n])
        ensures x.index <= base + n
      {
        SelectedStamped(q, base, events[..n], x);
      }
    }
  }

  /** A subscription is offered exactly the events its query asks for, each stamped with the
      watcher's index for it, in order. */
  lemma OfferedExactly(q: Query, base: nat, events: seq<ChangeEvent>)
    ensures forall x :: x in Selected(q, base, events) <==> Stamped(q, base, events, x)
    ensures forall a, b | 0 <= a < b < |Selected(q, base, events)| ::
              Selected(q, base, events)[a].index < Selected(q, base, events)[b].index
  {
    forall x
      ensures x in Selected(q, base, events) <==> Stamped(q, base, events, x)
    {
      SelectedStamped(q, base, events, x);
    }
    SelectedInOrder(q, base, events);
  }

  /** Of what it is offered a subscription keeps what fits its buffer of 64, and drops the rest. */
  lemma {:induction false} BufferKeeps(s: Sub, evs: seq<ChangeEvent>)
    requires |s.queue| <= 64
    ensures var room := 64 - |s.queue|;
            OfferAll(s, evs) == s.(queue := s.queue + if |evs| <= room then evs else evs[..room])
    decreases |evs|
  {
    if evs != [] {
      var n := |evs| - 1;
      BufferKeeps(s, evs[..n]);
      assert evs == evs[..n] + [evs[n]];
    }
  }

  lemma {:induction false} SelectedShort(q: Query, base: nat, evs: seq<ChangeEvent>)
    ensures |Selected(q, base, evs)| <= |evs|
    decreases |evs|
  {
    if evs != [] {
      SelectedShort(q, base, evs[..|evs| - 1]);
    }
  }

  /** A notification adds to a subscription with room for it exactly the events asked for, after
      what was queued. */
  lemma NotifiedOffers(w: Watch, events: seq<ChangeEvent>, id: int)
    requires id in w.subs && |w.subs[id].queue| + |events| <= 64
    ensures var before, sub := w.subs[id], Notified(w, events).subs[id];
            && sub.query == before.query && before.queue <= sub.queue
            && forall x :: x in sub.queue[|before.queue|..] <==> Stamped(before.query, w.index, events, x)
  {
    var before := w.subs[id];
    var more := Selected(before.query, w.index, events);
    SelectedShort(before.query, w.index, events);
    BufferKeeps(before, more);
    OfferedExactly(before.query, w.index, events);
    assert (before.queue + more)[|before.queue|..] == more;
  }

  // ---- blocking waiters ----

  /** One call of WaitForChange: about to look, parked on a channel, or done. */
  datatype Waiter =
    | Checking(query: Query, minIndex: nat)
    | Parked(query: Query, minIndex: nat, channel: nat)
    | Returned(query: Query, minIndex: nat, result: nat)

  datatype System = System(w: Watch, waiters: map<int, Waiter>)

  datatype Action =
    | Notify(events: seq<ChangeEvent>)
    | NotifyNames(names: seq<string>)
    | Subscribe(query: Query)
    | Cancel(sub: int)
    | Receive(sub: int)
    | Wait(id: int, query: Query, minIndex: nat)
    | Look(id: int)
    | Wake(id: int)
    | Expire(id: int)

  /** What one look decides: return at once unless the index is exactly the client's. */
  function Looked(w: Watch, q: Query, minIndex: nat): Waiter {
    var cur := CurrentIndex(w, q);
    if minIndex == 0 || cur != minIndex then Returned(q, minIndex, cur) else Parked(q, minIndex, w.bump)
  }

  predicate Enabled(s: System, a: Action) {
    match a
    case Receive(id) => id in s.w.subs && s.w.subs[id].queue != []
    case Wait(id, _, _) => id !in s.waiters
    case Look(id) => id in s.waiters && s.waiters[id].Checking?
    case Wake(id) => id in s.waiters && s.waiters[id].Parked? && s.waiters[id].channel < s.w.bump
    case Expire(id) => id in s.waiters && s.waiters[id].Parked?
    case _ => true
  }

  function Act(s: System, a: Action): System
    requires Enabled(s, a)
  {
    match a
    case Notify(events) => s.(w := Notified(s.w, events))
    case NotifyNames(names) => s.(w := Bumped(s.w, names))
    case Subscribe(q) => s.(w := s.w.(subs := s.w.subs[s.w.nextID := Sub(q, [])], nextID := s.w.nextID + 1))
    case Cancel(id) => s.(w := s.w.(subs := s.w.subs - {id}))
    case Receive(id) =>
      s.(w := s.w.(subs := s.w.subs[id := s.w.subs[id].(queue := s.w.subs[id].queue[1..])]))
    case Wait(id, q, minIndex) => s.(waiters := s.waiters[id := Checking(q, minIndex)])
    case Look(id) => s.(waiters := s.waiters[id := Looked(s.w, s.waiters[id].query, s.waiters[id].minIndex)])
    case Wake(id) => s.(waiters := s.waiters[id := Checking(s.waiters[id].query, s.waiters[id].minIndex)])
    case Expire(id) =>
      var p := s.waiters[id];
      s.(waiters := s.waiters[id := Returned(p.query, p.minIndex, p.minIndex)])
  }

  ghost predicate Runs(s: System, actions: seq<Action>, t: System)
    decreases |actions|
  {
    if actions == [] then t == s
    else Enabled(s, actions[0]) && Runs(Act(s, actions[0]), actions[1..], t)
  }

  /** A waiter parked on the open channel is up to date: the index it waits on has not moved. */
  ghost predicate NoneForgotten(s: System) {
    forall id | id in s.waiters && s.waiters[id].Parked? ::
      && s.waiters[id].channel <= s.w.bump
      && s.waiters[id].minIndex != 0
      && (s.waiters[id].channel == s.w.bump ==> CurrentIndex(s.w, s.waiters[id].query) == s.waiters[id].minIndex)
  }

  lemma ActKeeps(s: System, a: Action, q: Query)
    requires Bounded(s.w) && NoneForgotten(s) && Enabled(s, a)
    ensures Bounded(Act(s, a).w) && NoneForgotten(Act(s, a))
    ensures CurrentIndex(s.w, q) <= CurrentIndex(Act(s, a).w, q)
  {
    match a
    case Notify(events) => IndexMonotone(s.w, Names(events), q);
    case NotifyNames(names) => IndexMonotone(s.w, names, q);
    case _ =>
  }

  lemma {:induction false} RunKeeps(s: System, actions: seq<Action>, t: System, q: Query)
    requires Bounded(s.w) && NoneForgotten(s) && Runs(s, actions, t)
    ensures Bounded(t.w) && NoneForgotten(t)
    ensures CurrentIndex(s.w, q) <= CurrentIndex(t.w, q)
    decreases |actions|
  {
    if actions != [] {
      ActKeeps(s, actions[0], q);
      RunKeeps(Act(s, actions[0]), actions[1..], t, q);
    }
  }

  /** A watcher resumed at `base`, with nobody waiting. */
  function Fresh(base: nat): System {
    System(New(base), map[])
  }

  lemma NewSystem(base: nat)
    ensures Bounded(New(base)) && NoneForgotten(Fresh(base))
  {
  }

  /** No lost wakeup and a monotone index, over every run of notifications, subscriptions and
      waiters: no query's index ever decreases, and whoever is parked on the channel that is
      still open has missed nothing. */
  lemma NoLostWakeup(base: nat, actions: seq<Action>, s: System, more: seq<Action>, t: System, q: Query)
    requires Runs(Fresh(base), actions, s) && Runs(s, more, t)
    ensures NoneForgotten(s)
    ensures CurrentIndex(s.w, q) <= CurrentIndex(t.w, q)
  {
    NewSystem(base);
    RunKeeps(Fresh(base), actions, s, q);
    RunKeeps(s, more, t, q);
  }

  /** The names a notification changes. */
  function Changes(a: Action): seq<string> {
    match a
    case Notify(events) => Names(events)
    case NotifyNames(names) => names
    case _ => []
  }

  /** Once the watcher has counted anything, a change to what `q` asks about lifts its index
      above every value reported at any earlier point of the run. */
  lemma ChangeExceedsHistory(
    base: nat, before: seq<Action>, s: System, actions: seq<Action>, t: System, a: Action, q: Query)
    requires Runs(Fresh(base), before, s) && Runs(s, actions, t)
    requires t.w.index >= 1 && LastChange(q, Changes(a)) > 0
    ensures CurrentIndex(s.w, q) < CurrentIndex(Act(t, a).w, q)
  {
    NewSystem(base);
    RunKeeps(Fresh(base), before, s, q);
    RunKeeps(s, actions, t, q);
    ChangeRaisesIndex(t.w, Changes(a), q);
  }

  // ---- released waiters ----

  /** The waiter is on its way out: it can be woken, or is about to look, or has returned an
      index above the one it waited with. */
  predicate Released(s: System, id: int, q: Query, minIndex: nat) {
    && id in s.waiters && s.waiters[id].query == q && s.waiters[id].minIndex == minIndex
    && match s.waiters[id]
       case Checking(_, _) => true
       case Parked(_, _, channel) => channel < s.w.bump
       case Returned(_, _, result) => result > minIndex
  }

  lemma ActReleased(s: System, a: Action, id: int, q: Query, minIndex: nat)
    requires Bounded(s.w) && NoneForgotten(s) && Enabled(s, a) && a != Expire(id)
    requires Released(s, id, q, minIndex) && CurrentIndex(s.w, q) > minIndex
    ensures Released(Act(s, a), id, q, minIndex)
  {
  }

  lemma {:induction false} RunReleased(s: System, actions: seq<Action>, t: System, id: int, q: Query, minIndex: nat)
    requires Bounded(s.w) && NoneForgotten(s) && Runs(s, actions, t) && Expire(id) !in actions
    requires Released(s, id, q, minIndex) && CurrentIndex(s.w, q) > minIndex
    ensures Released(t, id, q, minIndex)
    decreases |actions|
  {
    if actions != [] {
      var a := actions[0];
      assert a in actions && forall b | b in actions[1..] :: b in actions;
      ActKeeps(s, a, q);
      ActReleased(s, a, id, q, minIndex);
      RunReleased(Act(s, a), actions[1..], t, id, q, minIndex);
    }
  }

  /** Whatever happens after `a`, short of its own timeout, the waiter stays released. */
  ghost predicate ReleasedBy(s: System, a: Action, id: int, q: Query, minIndex: nat)
    requires Enabled(s, a)
  {
    forall more, t | Runs(Act(s, a), more, t) && Expire(id) !in more :: Released(t, id, q, minIndex)
  }

  /** A parked waiter is released by the change it waits for: in every continuation of the run
      it can be woken until it is, never parks again, and returns an index above the one it
      waited with - except for exactly the first change of a watcher at zero. */
  lemma ChangeReleasesWaiter(base: nat, before: seq<Action>, s: System, a: Action, id: int)
    requires Runs(Fresh(base), before, s) && id in s.waiters && s.waiters[id].Parked?
    requires s.waiters[id].channel == s.w.bump && LastChange(s.waiters[id].query, Changes(a)) > 0
    ensures ReleasedBy(s, a, id, s.waiters[id].query, s.waiters[id].minIndex) <==>
            s.w.index >= 1 || LastChange(s.waiters[id].query, Changes(a)) >= 2
  {
    var q, minIndex := s.waiters[id].query, s.waiters[id].minIndex;
    NewSystem(base);
    RunKeeps(Fresh(base), before, s, q);
    ActKeeps(s, a, q);
    ChangeRaisesIndex(s.w, Changes(a), q);
    if s.w.index >= 1 || LastChange(q, Changes(a)) >= 2 {
      forall more, t | Runs(Act(s, a), more, t) && Expire(id) !in more
        ensures Released(t, id, q, minIndex)
      {
        RunReleased(Act(s, a), more, t, id, q, minIndex);
      }
    } else {
      var t := ParksAgain(Act(s, a), id);
      assert !Released(t, id, q, minIndex);
    }
  }

  lemma ParksAgain(s: System, id: int) returns (t: System)
    requires id in s.waiters && s.waiters[id].Parked? && s.waiters[id].channel < s.w.bump
    requires CurrentIndex(s.w, s.waiters[id].query) == s.waiters[id].minIndex != 0
    ensures Runs(s, [Wake(id), Look(id)], t)
    ensures t == s.(waiters := s.waiters[id := Parked(s.waiters[id].query, s.waiters[id].minIndex, s.w.bump)])
  {
    var u := Act(s, Wake(id));
    t := Act(u, Look(id));
    assert [Look(id)][1..] == [] && Runs(t, [], t) && Runs(u, [Look(id)], t);
    assert [Wake(id), Look(id)][1..] == [Look(id)];
    assert t.waiters == s.waiters[id := Parked(s.waiters[id].query, s.waiters[id].minIndex, s.w.bump)];
  }

  /** The hidden case, as a run: on a watcher started at zero, a waiter that looks with index
      one parks, is woken by the first change of its name, finds the index still at one, and
      parks again. */
  lemma FirstChangeHidden(q: Query) returns (t: System)
    requires q.name != ""
    ensures Runs(Fresh(0), [Wait(0, q, 1), Look(0), NotifyNames([q.name]), Wake(0), Look(0)], t)
    ensures t.waiters == map[0 := Parked(q, 1, t.w.bump)]
  {
    var s1 := Act(Fresh(0), Wait(0, q, 1));
    var s2 := Act(s1, Look(0));
    var s3 := Act(s2, NotifyNames([q.name]));
    assert LastChange(q, [q.name]) == 1;
    KeyedAt(map[], 0, [q.name], q);
    t := ParksAgain(s3, 0);
    var rest := [Wake(0), Look(0)];
    assert [NotifyNames([q.name]), Wake(0), Look(0)][1..] == rest;
    assert [Look(0), NotifyNames([q.name]), Wake(0), Look(0)][1..] == [NotifyNames([q.name]), Wake(0), Look(0)];
    assert [Wait(0, q, 1), Look(0), NotifyNames([q.name]), Wake(0), Look(0)][1..]
        == [Look(0), NotifyNames([q.name]), Wake(0), Look(0)];
    assert Runs(s2, [NotifyNames([q.name]), Wake(0), Look(0)], t);
    assert Runs(s1, [Look(0), NotifyNames([q.name]), Wake(0), Look(0)], t);
  }

  // ---- what waiters return ----

  /** A look returns the query's index of that moment - above the client's, below it after a
      reset, or at once for a client with none - unless it is exactly the client's; a timeout
      returns the index the waiter parked on. */
  lemma LookReturnsCurrent(s: System, id: int)
    requires id in s.waiters
    ensures s.waiters[id].Checking? ==>
              var q, minIndex := s.waiters[id].query, s.waiters[id].minIndex;
              Act(s, Look(id)).waiters[id] ==
                if minIndex != 0 && CurrentIndex(s.w, q) == minIndex then Parked(q, minIndex, s.w.bump)
                else Returned(q, minIndex, CurrentIndex(s.w, q))
    ensures s.waiters[id].Parked? ==>
              Act(s, Expire(id)).waiters[id]
                == Returned(s.waiters[id].query, s.waiters[id].minIndex, s.waiters[id].minIndex)
  {
  }

  lemma {:induction false} RunsLast(s: System, actions: seq<Action>, a: Action, t: System) returns (m: System)
    requires Runs(s, actions + [a], t)
    ensures Runs(s, actions, m) && Enabled(m, a) && t == Act(m, a)
    decreases |actions|
  {
    var all := actions + [a];
    if actions == [] {
      assert all[0] == a && all[1..] == [];
      m := s;
    } else {
      assert all[0] == actions[0] && all[1..] == actions[1..] + [a];
      m := RunsLast(Act(s, actions[0]), actions[1..], a, t);
    }
  }

  lemma {:induction false} RunsMore(s: System, actions: seq<Action>, m: System, a: Action)
    requires Runs(s, actions, m) && Enabled(m, a)
    ensures Runs(s, actions + [a], Act(m, a))
    decreases |actions|
  {
    var all := actions + [a];
    if actions == [] {
      assert all[0] == a && all[1..] == [];
    } else {
      assert all[0] == actions[0] && all[1..] == actions[1..] + [a];
      RunsMore(Act(s, actions[0]), actions[1..], m, a);
    }
  }

  /** What the waiter parked on, or returned. */
  function Answer(p: Waiter): Option<nat> {
    match p
    case Checking(_, _) => None
    case Parked(_, minIndex, _) => Some(minIndex)
    case Returned(_, _, result) => Some(result)
  }

  /** At some point of the run the query's index was `x`. */
  ghost predicate WasCurrent(s: System, actions: seq<Action>, t: System, q: Query, x: nat) {
    exists n, m | 0 <= n <= |actions| ::
      Runs(s, actions[..n], m) && Runs(m, actions[n..], t) && CurrentIndex(m.w, q) == x
  }

  lemma WasCurrentLater(s: System, actions: seq<Action>, m: System, a: Action, q: Query, x: nat)
    requires WasCurrent(s, actions, m, q, x) && Enabled(m, a)
    ensures WasCurrent(s, actions + [a], Act(m, a), q, x)
  {
    var n, u :| 0 <= n <= |actions| && Runs(s, actions[..n], u) && Runs(u, actions[n..], m)
                && CurrentIndex(u.w, q) == x;
    RunsMore(u, actions[n..], m, a);
    assert (actions + [a])[..n] == actions[..n] && (actions + [a])[n..] == actions[n..] + [a];
  }

  lemma CurrentNow(s: System, actions: seq<Action>, m: System, a: Action, q: Query)
    requires Runs(s, actions, m) && Enabled(m, a)
    ensures WasCurrent(s, actions + [a], Act(m, a), q, CurrentIndex(m.w, q))
  {
    var n := |actions|;
    assert (actions + [a])[..n] == actions && (actions + [a])[n..] == [a] && [a][1..] == [];
    assert Runs(Act(m, a), [], Act(m, a));
    assert Runs(m, [a], Act(m, a));
  }

  /** Over every run: whatever a waiter returns was its query's index at some moment of the run,
      and so exceeds no later index of that query. */
  lemma {:induction false} ReturnedWasCurrent(base: nat, actions: seq<Action>, t: System, id: int)
    requires Runs(Fresh(base), actions, t) && id in t.waiters && Answer(t.waiters[id]).Some?
    ensures WasCurrent(Fresh(base), actions, t, t.waiters[id].query, Answer(t.waiters[id]).value)
    ensures Answer(t.waiters[id]).value <= CurrentIndex(t.w, t.waiters[id].query)
    decreases |actions|
  {
    var q := t.waiters[id].query;
    if actions != [] {
      var before, a := actions[..|actions| - 1], actions[|actions| - 1];
      assert before + [a] == actions;
      var m := RunsLast(Fresh(base), before, a, t);
      if id in m.waiters && Answer(m.waiters[id]) == Answer(t.waiters[id]) && m.waiters[id].query == q {
        ReturnedWasCurrent(base, before, m, id);
        WasCurrentLater(Fresh(base), before, m, a, q, Answer(t.waiters[id]).value);
      } else {
        assert a == Look(id);
        CurrentNow(Fresh(base), before, m, a, q);
      }
      NeverAhead(base, actions, t, q, Answer(t.waiters[id]).value);
    }
  }

  lemma NeverAhead(base: nat, actions: seq<Action>, t: System, q: Query, x: nat)
    requires WasCurrent(Fresh(base), actions, t, q, x)
    ensures x <= CurrentIndex(t.w, q)
  {
    var n, m :| 0 <= n <= |actions| && Runs(Fresh(base), actions[..n], m) && Runs(m, actions[n..], t)
                && CurrentIndex(m.w, q) == x;
    NewSystem(base);
    RunKeeps(Fresh(base), actions[..n], m, q);
    RunKeeps(m, actions[n..], t, q);
  }
}
