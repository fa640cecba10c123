/** Timers of the event loop (port/mini_event.c): the intrusive list, and the timer phase of a round. */
module TimerList {

  /** Where `prev_next` points: nowhere, at the list head, or at the `next` field of another event. */
  datatype Link = Unlinked | AtHead | Behind(event: Event)

  /** `id` only names the event; the code has its address for that. */
  class Event {
    const id: nat
    var next: Event?
    var prevNext: Link
    var pending: bool
    var expire: int

    constructor (id: nat)
      ensures this.id == id && next == null && prevNext == Unlinked && !pending
    {
      this.id := id;
      next, prevNext, pending, expire := null, Unlinked, false, 0;
    }
  }

  /** What the `next` field and the `prev_next` pointer of node `i` must be. */
  ghost function NextAt(nodes: seq<Event>, i: nat): Event? {
    if i + 1 < |nodes| then nodes[i + 1] else null
  }

  ghost function PrevAt(nodes: seq<Event>, i: nat): Link
    requires i < |nodes|
  {
    if i == 0 then AtHead else Behind(nodes[i - 1])
  }

  ghost predicate AllDifferent(nodes: seq<Event>) {
    forall i, j :: 0 <= i < j < |nodes| ==> nodes[i] != nodes[j]
  }

  class EventBase {
    var events: Event?
    ghost var nodes: seq<Event>

    /** The list is exactly `nodes`, without repetition, linked both ways. */
    ghost predicate Valid()
      reads this, nodes
    {
      && AllDifferent(nodes)
      && events == (if nodes == [] then null else nodes[0])
      && (forall i {:trigger nodes[i].next} :: 0 <= i < |nodes| ==> nodes[i].next == NextAt(nodes, i))
      && (forall i {:trigger nodes[i].prevNext} :: 0 <= i < |nodes| ==> nodes[i].prevNext == PrevAt(nodes, i))
    }

    constructor ()
      ensures Valid() && nodes == []
    {
      events, nodes := null, [];
    }

    /** `event_add`: arm, and link at the head unless linked already. */
    method Add(ev: Event, deadline: int)
      requires Valid() && (ev.prevNext == Unlinked <==> ev !in nodes)
      modifies this, ev, nodes
      ensures Valid() && nodes == if ev in old(nodes) then old(nodes) else [ev] + old(nodes)
      ensures ev.pending && ev.expire == deadline && ev.prevNext != Unlinked
      ensures forall n :: n in old(nodes) && n != ev ==> n.pending == old(n.pending) && n.expire == old(n.expire)
    {
      ev.expire, ev.pending := deadline, true;
      if ev.prevNext == Unlinked {
        ev.next := events;
        if ev.next != null {
          ev.next.prevNext := Behind(ev);
        }
        events := ev;
        ev.prevNext := AtHead;
        nodes := [ev] + nodes;
        assert forall i :: 0 < i < |nodes| ==> nodes[i] == old(nodes)[i - 1];
      }
    }

    /** `event_del`: disarm and unlink. */
    method Del(ev: Event, ghost k: nat)
      requires Valid() && (ev.prevNext == Unlinked <==> ev !in nodes)
      requires ev in nodes ==> k < |nodes| && nodes[k] == ev
      modifies this, ev, nodes
      ensures Valid() && nodes == if ev in old(nodes) then old(nodes)[..k] + old(nodes)[k + 1..] else old(nodes)
      ensures !ev.pending && ev.expire == old(ev.expire) && ev.prevNext == Unlinked && ev !in nodes
      ensures forall n :: n in old(nodes) && n != ev ==> n.pending == old(n.pending) && n.expire == old(n.expire)
    {
      ev.pending := false;
      if ev.prevNext != Unlinked {
        Unlink(ev, k);
      }
    }

    method Unlink(ev: Event, ghost k: nat)
      requires Valid() && k < |nodes| && nodes[k] == ev
      modifies this, nodes`next, nodes`prevNext
      ensures Valid() && nodes == old(nodes)[..k] + old(nodes)[k + 1..]
      ensures ev.prevNext == Unlinked && ev !in nodes
    {
      ghost var was := nodes;
      Splice(ev, k);
      nodes := was[..k] + was[k + 1..];
      forall i | 0 <= i < |nodes|
        ensures nodes[i].next == NextAt(nodes, i)
      {
        SpliceIndex(was, k, i);
      }
      forall i | 0 <= i < |nodes|
        ensures nodes[i].prevNext == PrevAt(nodes, i)
      {
        SpliceIndex(was, k, i);
      }
      SpliceDifferent(was, k);
    }

    /** The pointer assignments of the unlinking, before the list is looked at again. */
    method Splice(ev: Event, ghost k: nat)
      requires Valid() && k < |nodes| && nodes[k] == ev
      modifies this`events, nodes`next, nodes`prevNext
      ensures ev.prevNext == Unlinked
      ensures events == if k == 0 then NextAt(nodes, 0) else nodes[0]
      ensures k > 0 ==> nodes[k - 1].next == NextAt(nodes, k)
      ensures k + 1 < |nodes| ==> nodes[k + 1].prevNext == PrevAt(nodes, k)
      ensures forall i {:trigger nodes[i].next} :: 0 <= i < |nodes| && i != k && i != k - 1 ==>
                nodes[i].next == NextAt(nodes, i)
      ensures forall i {:trigger nodes[i].prevNext} :: 0 <= i < |nodes| && i != k && i != k + 1 ==>
                nodes[i].prevNext == PrevAt(nodes, i)
    {
      assert ev.prevNext == PrevAt(nodes, k) && ev.next == NextAt(nodes, k);
      if ev.prevNext == AtHead {
        events := ev.next;
      } else {
        ev.prevNext.event.next := ev.next;
      }
      if ev.next != null {
        ev.next.prevNext := ev.prevNext;
      }
      ev.next := null;
      ev.prevNext := Unlinked;
    }
  }

  lemma SpliceDifferent(was: seq<Event>, k: nat)
    requires AllDifferent(was) && k < |was|
    ensures var now := was[..k] + was[k + 1..]; AllDifferent(now) && was[k] !in now
  {
    var now := was[..k] + was[k + 1..];
    assert forall i :: 0 <= i < |now| ==> now[i] == was[if i < k then i else i + 1];
  }

  lemma SpliceIndex(was: seq<Event>, k: nat, i: nat)
    requires k < |was| && i < |was| - 1
    ensures var now := was[..k] + was[k + 1..];
            && now[i] == was[if i < k then i else i + 1]
            && NextAt(now, i) == NextAt(was, if i < k then (if i + 1 == k then k else i) else i + 1)
            && PrevAt(now, i) == PrevAt(was, if i <= k then i else i + 1)
  {}
}

module TimerPhase {
  import opened TimerList

  predicate Distinct(s: seq<nat>) {
    forall i, j :: 0 <= i < j < |s| ==> s[i] != s[j]
  }

  lemma DistinctCons(x: nat, s: seq<nat>)
    requires Distinct(s) && x !in s
    ensures Distinct([x] + s)
  {
    var r := [x] + s;
    forall i, j | 0 <= i < j < |r|
      ensures r[i] != r[j]
    {
      assert r[j] == s[j - 1] && (i > 0 ==> r[i] == s[i - 1]);
    }
  }

  datatype Timer = Timer(expire: int, pending: bool)

  /** The list of linked events, head first, and the record of each. */
  datatype Timers = Timers(list: seq<nat>, at: map<nat, Timer>)
  {
    predicate Valid() {
      && Distinct(list)
      && (forall id :: id in list ==> id in at)
    }

    predicate IsDue(id: nat, now: int) {
      id in list && id in at && at[id].pending && at[id].expire <= now
    }
  }

  function Due(t: Timers, now: int): set<nat> {
    set id | id in t.list && t.IsDue(id, now)
  }

  /** What a callback does to timers: re-arm one, or cancel (or free) one. */
  datatype Act = Arm(id: nat, delay: int) | Cancel(id: nat)

  /**
   The callbacks of a round, as a function of the events fired so far (the last one is the one whose
   callback runs), and the clock reading during each.
   */
  datatype World = World(acts: seq<nat> -> seq<Act>, clock: seq<nat> -> int)

  function Without(list: seq<nat>, id: nat): (r: seq<nat>)
    ensures forall x :: x in r <==> x in list && x != id
  {
    if list == [] then [] else (if list[0] == id then [] else [list[0]]) + Without(list[1..], id)
  }

  lemma {:induction false} WithoutDistinct(list: seq<nat>, id: nat)
    requires Distinct(list)
    ensures Distinct(Without(list, id))
  {
    if list == [] {
    } else {
      WithoutDistinct(list[1..], id);
      assert list[0] !in list[1..];
      if list[0] != id {
        DistinctCons(list[0], Without(list[1..], id));
      } else {
        assert [] + Without(list[1..], id) == Without(list[1..], id);
      }
    }
  }

  function With(list: seq<nat>, id: nat): seq<nat> {
    if id in list then list else [id] + list
  }

  function Perform(t: Timers, a: Act, clock: int): Timers {
    match a
    case Arm(id, delay) =>
      Timers(With(t.list, id), t.at[id := Timer(clock + delay, true)])
    case Cancel(id) =>
      Timers(Without(t.list, id), if id in t.at then t.at[id := t.at[id].(pending := false)] else t.at)
  }

  lemma PerformValid(t: Timers, a: Act, clock: int)
    requires t.Valid()
    ensures Perform(t, a, clock).Valid()
  {
    WithoutDistinct(t.list, a.id);
    if a.id !in t.list {
      DistinctCons(a.id, t.list);
    }
  }

  function PerformAll(t: Timers, acts: seq<Act>, clock: int): Timers
    decreases acts
  {
    if acts == [] then t else PerformAll(Perform(t, acts[0], clock), acts[1..], clock)
  }

  /** Fire one event: it is disarmed first, then its callback runs. */
  function Fire(t: Timers, id: nat, acts: seq<Act>, clock: int): Timers
    requires id in t.at
  {
    PerformAll(t.(at := t.at[id := t.at[id].(pending := false)]), acts, clock)
  }

  /** Timers that some act of the list names. */
  function Named(acts: seq<Act>): set<nat> {
    set a | a in acts :: a.id
  }

  /** Timers named by a callback of the round so far. */
  function Touched(w: World, log: seq<nat>): set<nat> {
    if log == [] then {} else Touched(w, log[..|log| - 1]) + Named(w.acts(log))
  }

  /** Every re-arming lies in the future of the round. */
  predicate LaterThan(acts: seq<Act>, clock: int, now: int) {
    forall a :: a in acts && a.Arm? ==> clock + a.delay > now
  }

  ghost predicate Patient(w: World, now: int) {
    forall log :: LaterThan(w.acts(log), w.clock(log), now)
  }

  /** A callback that only arms for later leaves due exactly the timers it does not name. */
  lemma {:induction false} PerformAllDue(t: Timers, acts: seq<Act>, clock: int, now: int)
    requires t.Valid() && LaterThan(acts, clock, now)
    ensures PerformAll(t, acts, clock).Valid()
    ensures Due(PerformAll(t, acts, clock), now) == Due(t, now) - Named(acts)
    decreases acts
  {
    if acts == [] {
    } else {
      var a := acts[0];
      var t1 := Perform(t, a, clock);
      PerformValid(t, a, clock);
      assert a in acts;
      assert Due(t1, now) == Due(t, now) - {a.id};
      assert LaterThan(acts[1..], clock, now);
      PerformAllDue(t1, acts[1..], clock, now);
      assert Named(acts) == {a.id} + Named(acts[1..]) by {
        assert acts == [a] + acts[1..];
      }
    }
  }

  lemma FireDue(t: Timers, id: nat, acts: seq<Act>, clock: int, now: int)
    requires t.Valid() && t.IsDue(id, now) && LaterThan(acts, clock, now)
    ensures Fire(t, id, acts, clock).Valid()
    ensures Due(Fire(t, id, acts, clock), now) == Due(t, now) - {id} - Named(acts)
  {
    var t1 := t.(at := t.at[id := t.at[id].(pending := false)]);
    assert Due(t1, now) == Due(t, now) - {id};
    PerformAllDue(t1, acts, clock, now);
  }

  // ---- The linked events behind the timers ----

  /** Every event the callbacks know, under its name, the linked ones among them. */
  ghost predicate Pooled(nodes: seq<Event>, pool: map<nat, Event>) {
    && (forall id :: id in pool ==> pool[id].id == id)
    && (forall n :: n in nodes ==> n in pool.Values && n.id in pool && pool[n.id] == n)
  }

  ghost predicate Linked(base: EventBase, pool: map<nat, Event>)
    reads base, base.nodes, pool.Values
  {
    && base.Valid() && Pooled(base.nodes, pool)
    && (forall id :: id in pool ==> (pool[id].prevNext == Unlinked <==> pool[id] !in base.nodes))
  }

  ghost function Ids(nodes: seq<Event>): (ids: seq<nat>)
    ensures |ids| == |nodes|
  {
    if nodes == [] then [] else [nodes[0].id] + Ids(nodes[1..])
  }

  ghost function Records(pool: map<nat, Event>): map<nat, Timer>
    reads pool.Values
  {
    map id | id in pool :: Timer(pool[id].expire, pool[id].pending)
  }

  /** The timers that the linked events and the records of all events stand for. */
  ghost function View(base: EventBase, pool: map<nat, Event>): Timers
    reads base, pool.Values
  {
    Timers(Ids(base.nodes), Records(pool))
  }

  lemma {:induction false} IdsAt(nodes: seq<Event>, i: nat)
    requires i < |nodes|
    ensures Ids(nodes)[i] == nodes[i].id
  {
    if i == 0 {
    } else {
      IdsAt(nodes[1..], i - 1);
    }
  }

  lemma InList(nodes: seq<Event>, pool: map<nat, Event>, id: nat)
    requires Pooled(nodes, pool)
    ensures id in Ids(nodes) <==> id in pool && pool[id] in nodes
  {
    var list := Ids(nodes);
    if id in list {
      var i :| 0 <= i < |list| && list[i] == id;
      IdsAt(nodes, i);
      assert nodes[i] in nodes;
    }
    if id in pool && pool[id] in nodes {
      var i :| 0 <= i < |nodes| && nodes[i] == pool[id];
      IdsAt(nodes, i);
    }
  }

  lemma IdsDistinct(nodes: seq<Event>, pool: map<nat, Event>)
    requires Pooled(nodes, pool) && AllDifferent(nodes)
    ensures Distinct(Ids(nodes))
  {
    var list := Ids(nodes);
    forall i, j | 0 <= i < j < |list|
      ensures list[i] != list[j]
    {
      IdsAt(nodes, i);
      IdsAt(nodes, j);
      assert nodes[i] in nodes && nodes[j] in nodes;
    }
  }

  lemma ViewValid(base: EventBase, pool: map<nat, Event>)
    requires Linked(base, pool)
    ensures View(base, pool).Valid()
  {
    IdsDistinct(base.nodes, pool);
    forall id | id in Ids(base.nodes)
      ensures id in pool
    {
      InList(base.nodes, pool, id);
    }
  }

  lemma {:induction false} WithoutSplice(list: seq<nat>, k: nat)
    requires Distinct(list) && k < |list|
    ensures Without(list, list[k]) == list[..k] + list[k + 1..]
  {
    if k == 0 {
      WithoutAbsent(list[1..], list[0]);
      assert list[..0] + list[1..] == list[1..];
    } else {
      WithoutSplice(list[1..], k - 1);
      assert list[1..][..k - 1] + list[1..][k..] == list[1..k] + list[k + 1..];
      assert [list[0]] + (list[1..k] + list[k + 1..]) == list[..k] + list[k + 1..];
    }
  }

  lemma {:induction false} WithoutAbsent(list: seq<nat>, id: nat)
    requires id !in list
    ensures Without(list, id) == list
  {
    if list == [] {
    } else {
      WithoutAbsent(list[1..], id);
      assert [list[0]] + list[1..] == list;
    }
  }

  /** The list with one event linked at its head, unless it is there already. */
  ghost function LinkedIn(nodes: seq<Event>, ev: Event): seq<Event> {
    if ev in nodes then nodes else [ev] + nodes
  }

  /** The list without its event `k`, if it has the event at all. */
  ghost function LinkedOut(nodes: seq<Event>, ev: Event, k: nat): seq<Event>
    requires ev in nodes ==> k < |nodes|
  {
    if ev in nodes then nodes[..k] + nodes[k + 1..] else nodes
  }

  lemma IdsIn(nodes: seq<Event>, pool: map<nat, Event>, id: nat)
    requires Pooled(nodes, pool) && id in pool
    ensures Ids(LinkedIn(nodes, pool[id])) == With(Ids(nodes), id)
  {
    InList(nodes, pool, id);
    if pool[id] !in nodes {
      assert ([pool[id]] + nodes)[1..] == nodes;
    }
  }

  lemma {:induction false} IdsInTwo(a: seq<Event>, b: seq<Event>)
    ensures Ids(a + b) == Ids(a) + Ids(b)
  {
    if a == [] {
      assert a + b == b && [] + Ids(b) == Ids(b);
    } else {
      assert (a + b)[1..] == a[1..] + b;
      IdsInTwo(a[1..], b);
    }
  }

  lemma IdsOut(nodes: seq<Event>, pool: map<nat, Event>, id: nat, k: nat)
    requires Pooled(nodes, pool) && AllDifferent(nodes) && id in pool
    requires pool[id] in nodes ==> k < |nodes| && nodes[k] == pool[id]
    ensures Ids(LinkedOut(nodes, pool[id], k)) == Without(Ids(nodes), id)
  {
    InList(nodes, pool, id);
    if pool[id] in nodes {
      IdsDistinct(nodes, pool);
      IdsAt(nodes, k);
      WithoutSplice(Ids(nodes), k);
      IdsAround(nodes, k);
    } else {
      WithoutAbsent(Ids(nodes), id);
    }
  }

  lemma IdsAround(nodes: seq<Event>, k: nat)
    requires k < |nodes|
    ensures Ids(nodes[..k] + nodes[k + 1..]) == Ids(nodes)[..k] + Ids(nodes)[k + 1..]
  {
    var a, b := nodes[..k], nodes[k + 1..];
    IdsInTwo(a, b);
    IdsSlices(nodes, k);
    IdsSlices(nodes, k + 1);
  }

  lemma {:induction false} IdsSlices(nodes: seq<Event>, k: nat)
    requires k <= |nodes|
    ensures Ids(nodes[..k]) == Ids(nodes)[..k] && Ids(nodes[k..]) == Ids(nodes)[k..]
  {
    var a, b := nodes[..k], nodes[k..];
    assert a + b == nodes;
    IdsInTwo(a, b);
  }

  /** `event_add` on the linked list is arming. */
  method ArmEvent(base: EventBase, pool: map<nat, Event>, id: nat, delay: int, clock: int)
    requires Linked(base, pool) && id in pool
    modifies base, pool.Values
    ensures Linked(base, pool) && View(base, pool) == Perform(old(View(base, pool)), Arm(id, delay), clock)
  {
    ghost var t, nodes := View(base, pool), base.nodes;
    AddLinked(base, pool, id, clock + delay);
    ghost var t' := View(base, pool);
    assert t'.list == With(t.list, id) by {
      IdsIn(nodes, pool, id);
    }
    assert t'.at == t.at[id := Timer(clock + delay, true)];
  }

  method AddLinked(base: EventBase, pool: map<nat, Event>, id: nat, deadline: int)
    requires Linked(base, pool) && id in pool
    modifies base, pool.Values
    ensures Linked(base, pool) && base.nodes == LinkedIn(old(base.nodes), pool[id])
    ensures Records(pool) == old(Records(pool))[id := Timer(deadline, true)]
  {
    base.Add(pool[id], deadline);
  }

  /** `event_del` on the linked list is cancelling. */
  method CancelEvent(base: EventBase, pool: map<nat, Event>, id: nat)
    requires Linked(base, pool) && id in pool
    modifies base, pool.Values
    ensures Linked(base, pool) && View(base, pool) == Perform(old(View(base, pool)), Cancel(id), 0)
  {
    ghost var k := 0;
    if pool[id] in base.nodes {
      k :| 0 <= k < |base.nodes| && base.nodes[k] == pool[id];
    }
    ghost var t, nodes := View(base, pool), base.nodes;
    DelLinked(base, pool, id, k);
    ghost var t' := View(base, pool);
    assert t'.list == Without(t.list, id) by {
      IdsOut(nodes, pool, id, k);
    }
    assert t'.at == t.at[id := t.at[id].(pending := false)];
  }

  method DelLinked(base: EventBase, pool: map<nat, Event>, id: nat, ghost k: nat)
    requires Linked(base, pool) && id in pool
    requires pool[id] in base.nodes ==> k < |base.nodes| && base.nodes[k] == pool[id]
    modifies base, pool.Values
    ensures Linked(base, pool) && base.nodes == LinkedOut(old(base.nodes), pool[id], k)
    ensures Records(pool) == old(Records(pool))[id := Timer(old(pool[id].expire), false)]
  {
    base.Del(pool[id], k);
  }

  lemma PerformNext(t: Timers, acts: seq<Act>, i: nat, clock: int)
    requires i < |acts|
    ensures PerformAll(t, acts[i..], clock) == PerformAll(Perform(t, acts[i], clock), acts[i + 1..], clock)
  {
    assert acts[i..][0] == acts[i] && acts[i..][1..] == acts[i + 1..];
  }

  /** The callback of a fired event. */
  method RunCallback(base: EventBase, pool: map<nat, Event>, acts: seq<Act>, clock: int)
    requires Linked(base, pool) && Named(acts) <= pool.Keys
    modifies base, pool.Values
    ensures Linked(base, pool) && View(base, pool) == PerformAll(old(View(base, pool)), acts, clock)
  {
    var i := 0;
    while i < |acts|
      invariant 0 <= i <= |acts| && Linked(base, pool)
      invariant PerformAll(View(base, pool), acts[i..], clock) == PerformAll(old(View(base, pool)), acts, clock)
    {
      assert acts[i].id in Named(acts);
      PerformNext(View(base, pool), acts, i, clock);
      match acts[i] {
        case Arm(id, delay) => ArmEvent(base, pool, id, delay, clock);
        case Cancel(id) => CancelEvent(base, pool, id);
      }
      i := i + 1;
    }
  }

  method Disarm(base: EventBase, pool: map<nat, Event>, ev: Event)
    requires Linked(base, pool) && ev in base.nodes
    modifies ev`pending
    ensures Linked(base, pool) && ev.id in old(View(base, pool)).at
    ensures View(base, pool) ==
            var t := old(View(base, pool)); t.(at := t.at[ev.id := t.at[ev.id].(pending := false)])
  {
    assert pool[ev.id] == ev;
    assert forall k :: k in pool && k != ev.id ==> pool[k] != ev;
    ghost var t := View(base, pool);
    ev.pending := false;
    assert View(base, pool).at == t.at[ev.id := t.at[ev.id].(pending := false)];
  }

  /** One-shot: the event is disarmed before its callback runs. */
  method FireEvent(base: EventBase, pool: map<nat, Event>, ev: Event, acts: seq<Act>, clock: int)
    requires Linked(base, pool) && ev in base.nodes && Named(acts) <= pool.Keys
    modifies base, pool.Values
    ensures ev.id in old(View(base, pool)).at
    ensures Linked(base, pool) && View(base, pool) == Fire(old(View(base, pool)), ev.id, acts, clock)
  {
    Disarm(base, pool, ev);
    RunCallback(base, pool, acts, clock);
  }

  /** The scan of one pass along the `next` pointers: the first event that is due. */
  method FindDue(base: EventBase, pool: map<nat, Event>, now: int) returns (ev: Event?)
    requires Linked(base, pool)
    ensures ev == null <==> Due(View(base, pool), now) == {}
    ensures ev != null ==> ev in base.nodes && View(base, pool).IsDue(ev.id, now)
    ensures ev != null ==>
              exists i :: 0 <= i < |base.nodes| && base.nodes[i] == ev &&
                          forall j :: 0 <= j < i ==> !View(base, pool).IsDue(base.nodes[j].id, now)
  {
    ghost var t, i := View(base, pool), 0;
    ev := base.events;
    while ev != null
      invariant 0 <= i <= |base.nodes|
      invariant ev == if i < |base.nodes| then base.nodes[i] else null
      invariant forall j :: 0 <= j < i ==> !t.IsDue(base.nodes[j].id, now)
      decreases |base.nodes| - i
    {
      IdsAt(base.nodes, i);
      assert ev in base.nodes && t.list[i] == ev.id;
      if ev.pending && ev.expire <= now {
        assert ev.id in Due(t, now);
        return;
      }
      assert ev.next == NextAt(base.nodes, i);
      ev, i := ev.next, i + 1;
    }
    forall id | id in t.list
      ensures !t.IsDue(id, now)
    {
      var j :| 0 <= j < |t.list| && t.list[j] == id;
      IdsAt(base.nodes, j);
    }
  }

  /** One turn of the loop: fire the first due event, if there is one. */
  method OnePass(base: EventBase, pool: map<nat, Event>, now: int, w: World, log: seq<nat>)
    returns (fired: bool, log': seq<nat>)
    requires Linked(base, pool) && forall log :: Named(w.acts(log)) <= pool.Keys
    modifies base, pool.Values
    ensures Linked(base, pool)
    ensures !fired ==> View(base, pool) == old(View(base, pool)) && Due(View(base, pool), now) == {} && log' == log
    ensures fired ==>
              && |log'| == |log| + 1 && log'[..|log|] == log
              && old(View(base, pool)).IsDue(log'[|log|], now)
              && View(base, pool) == Fire(old(View(base, pool)), log'[|log|], w.acts(log'), w.clock(log'))
  {
    var ev := FindDue(base, pool, now);
    if ev == null {
      return false, log;
    }
    log' := log + [ev.id];
    FireEvent(base, pool, ev, w.acts(log'), w.clock(log'));
    return true, log';
  }

  /**
   The timer phase of a round on the linked list: scan, disarm and fire the first due event, start over.
   With patient callbacks it terminates; nothing fires that was not due at the start, nothing fires twice,
   nothing is due at the end, and every timer due at the start has fired or was re-armed or cancelled by a
   callback. The list stays linked and free of duplicates.
   */
  method RunTimers(base: EventBase, pool: map<nat, Event>, now: int, w: World) returns (log: seq<nat>)
    requires Linked(base, pool) && Patient(w, now) && forall log :: Named(w.acts(log)) <= pool.Keys
    modifies base, pool.Values
    ensures Linked(base, pool) && Due(View(base, pool), now) == {}
    ensures Distinct(log)
    ensures forall i :: 0 <= i < |log| ==> old(View(base, pool)).IsDue(log[i], now)
    ensures forall id :: old(View(base, pool)).IsDue(id, now) ==> id in log || id in Touched(w, log)
  {
    ghost var start := View(base, pool);
    ghost var t := start;
    log := [];
    var fired := true;
    while fired
      invariant Linked(base, pool) && t == View(base, pool) && Progress(start, t, log, now, w)
      invariant !fired ==> Due(t, now) == {}
      decreases Due(t, now), fired
    {
      ViewValid(base, pool);
      ghost var before := t;
      fired, log := OnePass(base, pool, now, w, log);
      t := View(base, pool);
      if fired {
        FiredProgress(start, before, log, log[|log| - 1], now, w);
      }
    }
  }

  /** What holds after each firing of a round. */
  ghost predicate Progress(start: Timers, t: Timers, log: seq<nat>, now: int, w: World) {
    && Due(t, now) <= Due(start, now)
    && Distinct(log)
    && (forall i :: 0 <= i < |log| ==> start.IsDue(log[i], now) && log[i] !in Due(t, now))
    && (forall id :: start.IsDue(id, now) ==> id in Due(t, now) || id in log || id in Touched(w, log))
  }

  lemma FiredProgress(start: Timers, t: Timers, log: seq<nat>, id: nat, now: int, w: World)
    requires log != [] && log[|log| - 1] == id && t.Valid() && t.IsDue(id, now) && Patient(w, now)
    requires Progress(start, t, log[..|log| - 1], now, w)
    ensures var t' := Fire(t, id, w.acts(log), w.clock(log));
            Progress(start, t', log, now, w) && Due(t', now) < Due(t, now)
  {
    var before, acts := log[..|log| - 1], w.acts(log);
    assert log == before + [id];
    assert LaterThan(acts, w.clock(log), now);
    FireDue(t, id, acts, w.clock(log), now);
    assert id in Due(t, now);
  }

  /**
   Patience is needed: an event whose callback re-arms it is due again in the same round if and only if
   the new deadline is not later than the round's clock.
   */
  lemma RearmedFiresAgain(t: Timers, id: nat, delay: int, clock: int, now: int)
    requires t.Valid() && t.IsDue(id, now)
    ensures Fire(t, id, [Arm(id, delay)], clock).IsDue(id, now) <==> clock + delay <= now
  {
    var acts := [Arm(id, delay)];
    var t1 := t.(at := t.at[id := t.at[id].(pending := false)]);
    assert acts[1..] == [];
    assert PerformAll(t1, acts, clock) == PerformAll(Perform(t1, acts[0], clock), [], clock);
  }
}
