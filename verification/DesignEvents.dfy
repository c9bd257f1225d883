/** The design event bus and the store wrapper that feeds it (wirestudio/designs/events.py:50-108).
    Timestamps are left out; queue identity is a type parameter. */
module DesignEvents {
  import opened Options

  datatype Kind = Saved | Deleted

  datatype Event = Event(kind: Kind, id: string)

  /** The subscriber sets and the events waiting in every queue ever handed out. */
  datatype Fanout<!Q(==)> = Fanout(subs: map<string, set<Q>>, pending: map<Q, seq<Event>>)

  function SubsOf<Q>(b: Fanout<Q>, id: string): set<Q>
  {
    if id in b.subs then b.subs[id] else {}
  }

  function Subscribed<Q>(b: Fanout<Q>, id: string, q: Q): Fanout<Q>
  {
    Fanout(b.subs[id := SubsOf(b, id) + {q}], b.pending[q := []])
  }

  function Unsubscribed<Q>(b: Fanout<Q>, id: string, q: Q): Fanout<Q>
  {
    if id !in b.subs then b
    else if b.subs[id] - {q} == {} then Fanout(b.subs - {id}, b.pending)
    else Fanout(b.subs[id := b.subs[id] - {q}], b.pending)
  }

  function Published<Q>(b: Fanout<Q>, e: Event): Fanout<Q>
  {
    Fanout(b.subs, map q | q in b.pending :: if q in SubsOf(b, e.id) then b.pending[q] + [e] else b.pending[q])
  }

  function Received<Q>(b: Fanout<Q>, q: Q): Fanout<Q>
    requires q in b.pending && b.pending[q] != []
  {
    Fanout(b.subs, b.pending[q := b.pending[q][1..]])
  }

  // ------------------------------------------------------------- the objects

  class Queue {
    var items: seq<Event>

    constructor ()
      ensures items == []
    {
      items := [];
    }

    /** `get` on a queue that has something. */
    method Get() returns (e: Event)
      requires items != []
      modifies this
      ensures [e] + items == old(items)
    {
      e, items := items[0], items[1..];
    }
  }

  class DesignEventBus {
    var subs: map<string, set<Queue>>
    ghost var queues: set<Queue>

    /** No empty subscriber set survives, and every subscriber is a queue handed out here. */
    ghost predicate Valid()
      reads this
    {
      forall id | id in subs :: subs[id] != {} && subs[id] <= queues
    }

    ghost function View(): Fanout<Queue>
      reads this, queues
    {
      Fanout(subs, map q | q in queues :: q.items)
    }

    constructor ()
      ensures Valid() && queues == {} && View() == Fanout(map[], map[])
    {
      subs, queues := map[], {};
    }

    method Subscribe(id: string) returns (q: Queue)
      requires Valid()
      modifies this
      ensures Valid() && fresh(q) && queues == old(queues) + {q}
      ensures View() == Subscribed(old(View()), id, q)
    {
      q := new Queue();
      subs := subs[id := (if id in subs then subs[id] else {}) + {q}];
      queues := queues + {q};
      assert View().pending == old(View().pending)[q := []];
    }

    method Unsubscribe(id: string, q: Queue)
      requires Valid()
      modifies this`subs
      ensures Valid() && View() == Unsubscribed(old(View()), id, q)
    {
      if id !in subs { return; }
      subs := subs[id := subs[id] - {q}];
      if subs[id] == {} {
        subs := subs - {id};
      }
    }

    method Publish(e: Event)
      requires Valid()
      modifies queues
      ensures Valid() && View() == Published(old(View()), e)
    {
      var todo := if e.id in subs then subs[e.id] else {};
      ghost var all := todo;
      while todo != {}
        invariant todo <= all <= queues
        invariant forall q | q in queues :: q.items == old(q.items) + if q in all - todo then [e] else []
        decreases |todo|
      {
        var q :| q in todo;
        q.items := q.items + [e];
        todo := todo - {q};
      }
    }

    method SubscriberCount(id: string) returns (n: nat)
      ensures n == |SubsOf(View(), id)|
    {
      n := if id in subs then |subs[id]| else 0;
    }
  }

  /** Any store: which id a save goes to, or that it is refused, is the store's own rule. */
  class DesignStore<D> {
    const resolve: (D, Option<string>) -> Option<string>
    var designs: map<string, D>

    constructor (resolve: (D, Option<string>) -> Option<string>)
      ensures designs == map[] && this.resolve == resolve
    {
      this.resolve := resolve;
      designs := map[];
    }

    method Save(design: D, id: Option<string>) returns (result: Option<string>)
      modifies this
      ensures result == resolve(design, id)
      ensures designs == if result.Some? then old(designs)[result.value := design] else old(designs)
    {
      result := resolve(design, id);
      if result.Some? {
        designs := designs[result.value := design];
      }
    }

    method Delete(id: string) returns (removed: bool)
      modifies this
      ensures removed == (id in old(designs)) && designs == old(designs) - {id}
    {
      removed := id in designs;
      designs := designs - {id};
    }
  }

  class EventEmittingDesignStore<D> {
    const inner: DesignStore<D>
    const events: DesignEventBus

    constructor (inner: DesignStore<D>, events: DesignEventBus)
      ensures this.inner == inner && this.events == events
    {
      this.inner, this.events := inner, events;
    }

    ghost function View(): World<Queue>
      reads inner, events, events.queues
    {
      World(events.View(), inner.designs.Keys)
    }

    method Save(design: D, id: Option<string>) returns (result: Option<string>)
      requires events.Valid()
      modifies inner, events.queues
      ensures events.Valid() && result == inner.resolve(design, id)
      ensures View() == Step(old(View()), Op.Save(result))
      ensures inner.designs == if result.Some? then old(inner.designs)[result.value := design] else old(inner.designs)
    {
      result := inner.Save(design, id);
      assert events.View() == old(events.View());
      if result.None? { return; }
      events.Publish(Event(Saved, result.value));
    }

    method Delete(id: string) returns (removed: bool)
      requires events.Valid()
      modifies inner, events.queues
      ensures events.Valid() && removed == (id in old(inner.designs))
      ensures View() == Step(old(View()), Op.Delete(id))
      ensures inner.designs == old(inner.designs) - {id}
    {
      removed := inner.Delete(id);
      assert events.View() == old(events.View());
      if removed {
        events.Publish(Event(Deleted, id));
      }
    }
  }

  // -------------------------------------------------------------------- runs

  datatype World<!Q(==)> = World(bus: Fanout<Q>, stored: set<string>)

  /** `Save` carries the id the store reported, None when the write failed. */
  datatype Op<Q> =
    | Subscribe(id: string, queue: Q)
    | Unsubscribe(id: string, queue: Q)
    | Receive(queue: Q)
    | Save(result: Option<string>)
    | Delete(id: string)

  /** A new queue is a new object; receiving waits for an event. */
  predicate Enabled<Q>(w: World<Q>, op: Op<Q>)
  {
    match op
    case Subscribe(_, q) => q !in w.bus.pending
    case Receive(q) => q in w.bus.pending && w.bus.pending[q] != []
    case _ => true
  }

  function EventOf<Q>(w: World<Q>, op: Op<Q>): Option<Event>
  {
    match op
    case Save(Some(id)) => Some(Event(Saved, id))
    case Delete(id) => if id in w.stored then Some(Event(Deleted, id)) else None
    case _ => None
  }

  function Stored<Q>(w: World<Q>, op: Op<Q>): set<string>
  {
    match op
    case Save(Some(id)) => w.stored + {id}
    case Delete(id) => w.stored - {id}
    case _ => w.stored
  }

  function Step<Q>(w: World<Q>, op: Op<Q>): World<Q>
  {
    match op
    case Subscribe(id, q) => w.(bus := Subscribed(w.bus, id, q))
    case Unsubscribe(id, q) => w.(bus := Unsubscribed(w.bus, id, q))
    case Receive(q) => if Enabled(w, op) then w.(bus := Received(w.bus, q)) else w
    case _ =>
      var e := EventOf(w, op);
      World(if e.Some? then Published(w.bus, e.value) else w.bus, Stored(w, op))
  }

  /** The first n operations, from a store that holds the start designs and no subscriber. */
  function Run<Q>(start: set<string>, ops: seq<Op<Q>>, n: nat): World<Q>
    requires n <= |ops|
  {
    if n == 0 then World(Fanout(map[], map[]), start) else Step(Run(start, ops, n - 1), ops[n - 1])
  }

  ghost predicate Legal<Q>(start: set<string>, ops: seq<Op<Q>>)
  {
    forall k | 0 <= k < |ops| :: Enabled(Run(start, ops, k), ops[k])
  }

  lemma LegalAt<Q>(start: set<string>, ops: seq<Op<Q>>, k: nat)
    requires Legal(start, ops) && k < |ops|
    ensures Enabled(Run(start, ops, k), ops[k])
  {
    hide Run, Enabled;
  }

  /** Whether the last word about this id and queue was to subscribe. */
  predicate Listening<Q(==)>(ops: seq<Op<Q>>, n: nat, id: string, q: Q)
    requires n <= |ops|
  {
    if n == 0 then false
    else if ops[n - 1] == Subscribe(id, q) then true
    else if ops[n - 1] == Unsubscribe(id, q) then false
    else Listening(ops, n - 1, id, q)
  }

  function Owed<Q>(w: World<Q>, op: Op<Q>, id: string, listening: bool): seq<Event>
  {
    var e := EventOf(w, op);
    if e.Some? && e.value.id == id && listening then [e.value] else []
  }

  /** The events for the id published by the first n operations while the queue listened. */
  function Due<Q(==)>(start: set<string>, ops: seq<Op<Q>>, n: nat, id: string, q: Q): seq<Event>
    requires n <= |ops|
  {
    if n == 0 then []
    else Due(start, ops, n - 1, id, q) + Owed(Run(start, ops, n - 1), ops[n - 1], id, Listening(ops, n - 1, id, q))
  }

  function Took<Q(==)>(w: World<Q>, op: Op<Q>, q: Q): seq<Event>
  {
    if op == Receive(q) && Enabled(w, op) then [w.bus.pending[q][0]] else []
  }

  /** What the queue's owner has received so far. */
  function Consumed<Q(==)>(start: set<string>, ops: seq<Op<Q>>, n: nat, q: Q): seq<Event>
    requires n <= |ops|
  {
    if n == 0 then [] else Consumed(start, ops, n - 1, q) + Took(Run(start, ops, n - 1), ops[n - 1], q)
  }

  lemma {:induction false} NoEmptySets<Q>(start: set<string>, ops: seq<Op<Q>>, n: nat, id: string)
    requires n <= |ops| && id in Run(start, ops, n).bus.subs
    ensures Run(start, ops, n).bus.subs[id] != {}
  {
    if n > 0 {
      var before := Run(start, ops, n - 1).bus.subs;
      if id in before {
        NoEmptySets(start, ops, n - 1, id);
      }
      match ops[n - 1] {
        case Subscribe(x, q) =>
          assert q in Run(start, ops, n).bus.subs[x];
        case _ =>
      }
    }
  }

  lemma {:induction false} ListeningIsSubscribed<Q>(start: set<string>, ops: seq<Op<Q>>, n: nat, id: string, q: Q)
    requires n <= |ops|
    ensures q in SubsOf(Run(start, ops, n).bus, id) <==> Listening(ops, n, id, q)
  {
    if n > 0 {
      ListeningIsSubscribed(start, ops, n - 1, id, q);
    }
  }

  lemma {:induction false} QueuesStay<Q>(start: set<string>, ops: seq<Op<Q>>, m: nat, n: nat, q: Q)
    requires m <= n <= |ops| && q in Run(start, ops, m).bus.pending
    ensures q in Run(start, ops, n).bus.pending
  {
    if m < n {
      QueuesStay(start, ops, m, n - 1, q);
    }
  }

  lemma SubscribedNow<Q>(start: set<string>, ops: seq<Op<Q>>, n: nat, id: string, q: Q)
    requires n < |ops| && ops[n] == Subscribe(id, q)
    ensures q in Run(start, ops, n + 1).bus.pending
  {
  }

  /** A queue listens to the one id it was made for. */
  lemma {:induction false} ListensToItsOwn<Q>(start: set<string>, ops: seq<Op<Q>>, n: nat,
                                id: string, q: Q, m: nat, other: string)
    requires Legal(start, ops) && m < |ops| && ops[m] == Subscribe(id, q) && n <= |ops| && Listening(ops, n, other, q)
    ensures other == id && m < n
  {
    hide Legal, Run;
    if ops[n - 1] == Subscribe(other, q) {
      LegalAt(start, ops, n - 1);
      LegalAt(start, ops, m);
      SubscribedNow(start, ops, n - 1, other, q);
      SubscribedNow(start, ops, m, id, q);
      if m < n - 1 {
        QueuesStay(start, ops, m + 1, n - 1, q);
      } else if n - 1 < m {
        QueuesStay(start, ops, n, m, q);
      }
    } else {
      ListensToItsOwn(start, ops, n - 1, id, q, m, other);
    }
  }

  lemma {:induction false} NothingBefore<Q>(start: set<string>, ops: seq<Op<Q>>, n: nat, id: string, q: Q, m: nat)
    requires Legal(start, ops) && n <= m < |ops| && ops[m] == Subscribe(id, q)
    ensures Due(start, ops, n, id, q) == [] && Consumed(start, ops, n, q) == []
  {
    hide Legal, Run, Listening;
    if n > 0 {
      NothingBefore(start, ops, n - 1, id, q, m);
      NotListeningBefore(start, ops, n - 1, id, q, m);
      NotWaitingBefore(start, ops, n - 1, id, q, m);
    }
  }

  lemma NotListeningBefore<Q>(start: set<string>, ops: seq<Op<Q>>, n: nat, id: string, q: Q, m: nat)
    requires Legal(start, ops) && n <= m < |ops| && ops[m] == Subscribe(id, q)
    ensures !Listening(ops, n, id, q)
  {
    hide Legal, Listening, Run;
    if Listening(ops, n, id, q) {
      ListensToItsOwn(start, ops, n, id, q, m, id);
    }
  }

  lemma NotWaitingBefore<Q>(start: set<string>, ops: seq<Op<Q>>, n: nat, id: string, q: Q, m: nat)
    requires Legal(start, ops) && n <= m < |ops| && ops[m] == Subscribe(id, q)
    ensures q !in Run(start, ops, n).bus.pending
  {
    hide Legal, Run;
    LegalAt(start, ops, m);
    if q in Run(start, ops, n).bus.pending {
      QueuesStay(start, ops, n, m, q);
    }
  }

  /** One operation, seen from one queue that listens to one id at most. */
  lemma StepDelivers<Q>(w: World<Q>, op: Op<Q>, id: string, q: Q, listening: bool)
    requires Enabled(w, op) && q in w.bus.pending && (listening <==> q in SubsOf(w.bus, id))
    requires forall x | q in SubsOf(w.bus, x) :: x == id
    ensures q in Step(w, op).bus.pending
    ensures Took(w, op, q) + Step(w, op).bus.pending[q] == w.bus.pending[q] + Owed(w, op, id, listening)
  {
    var e := EventOf(w, op);
    if e.Some? {
      assert Took(w, op, q) == [];
    } else if op == Receive(q) {
      var waiting := w.bus.pending[q];
      assert waiting == [waiting[0]] + waiting[1..];
    }
  }

  /** The equations of the three recursions, one operation on. */
  lemma OneOn<Q>(start: set<string>, ops: seq<Op<Q>>, n: nat, id: string, q: Q)
    requires n < |ops|
    ensures
      var w, op := Run(start, ops, n), ops[n];
      && Run(start, ops, n + 1) == Step(w, op)
      && Consumed(start, ops, n + 1, q) == Consumed(start, ops, n, q) + Took(w, op, q)
      && Due(start, ops, n + 1, id, q) == Due(start, ops, n, id, q) + Owed(w, op, id, Listening(ops, n, id, q))
  {
    hide Step, Took, Owed, Listening;
  }

  /** Delivery is exact and in order: what a subscriber has consumed, then what waits in its
      queue, are the events published for its id while it was subscribed. */
  lemma {:induction false} Delivery<Q>(start: set<string>, ops: seq<Op<Q>>, n: nat, id: string, q: Q, m: nat)
    requires Legal(start, ops) && m < n <= |ops| && ops[m] == Subscribe(id, q)
    ensures q in Run(start, ops, n).bus.pending
    ensures Consumed(start, ops, n, q) + Run(start, ops, n).bus.pending[q] == Due(start, ops, n, id, q)
  {
    hide Legal, Run, Due, Consumed, Listening;
    OneOn(start, ops, n - 1, id, q);
    if n == m + 1 {
      NothingBefore(start, ops, m, id, q, m);
    } else {
      Delivery(start, ops, n - 1, id, q, m);
      DeliveryStep(start, ops, n - 1, id, q, m);
    }
  }

  lemma DeliveryStep<Q>(start: set<string>, ops: seq<Op<Q>>, n: nat, id: string, q: Q, m: nat)
    requires Legal(start, ops) && m < n < |ops| && ops[m] == Subscribe(id, q)
    requires q in Run(start, ops, n).bus.pending
    requires Consumed(start, ops, n, q) + Run(start, ops, n).bus.pending[q] == Due(start, ops, n, id, q)
    ensures q in Run(start, ops, n + 1).bus.pending
    ensures Consumed(start, ops, n + 1, q) + Run(start, ops, n + 1).bus.pending[q] == Due(start, ops, n + 1, id, q)
  {
    hide Legal, Run, Due, Consumed, Step, Enabled, EventOf, Listening, SubsOf, Took, Owed;
    var w, listening := Run(start, ops, n), Listening(ops, n, id, q);
    OneOn(start, ops, n, id, q);
    LegalAt(start, ops, n);
    ListeningIsSubscribed(start, ops, n, id, q);
    forall x | q in SubsOf(w.bus, x) ensures x == id {
      ListeningIsSubscribed(start, ops, n, x, q);
      ListensToItsOwn(start, ops, n, id, q, m, x);
    }
    StepDelivers(w, ops[n], id, q, listening);
    Regroup(Consumed(start, ops, n, q), w.bus.pending[q], Took(w, ops[n], q),
            Run(start, ops, n + 1).bus.pending[q], Owed(w, ops[n], id, listening));
  }

  lemma Regroup(consumed: seq<Event>, waiting: seq<Event>, took: seq<Event>, left: seq<Event>, owed: seq<Event>)
    requires took + left == waiting + owed
    ensures (consumed + took) + left == (consumed + waiting) + owed
  {
    assert (consumed + took) + left == consumed + (took + left);
  }

  /** An operation without an event leaves the stored designs alone, and a failed write leaves
      everything; a write that succeeds publishes once, and its event says what the store now
      holds. */
  lemma OneEventPerWrite<Q>(w: World<Q>, op: Op<Q>)
    ensures EventOf(w, op).Some? <==> (op.Save? && op.result.Some?) || (op.Delete? && op.id in w.stored)
    ensures op.Save? && op.result.Some? ==> EventOf(w, op) == Some(Event(Saved, op.result.value))
    ensures op.Delete? && op.id in w.stored ==> EventOf(w, op) == Some(Event(Deleted, op.id))
    ensures EventOf(w, op).None? ==> Step(w, op).stored == w.stored && (op.Save? || op.Delete? ==> Step(w, op) == w)
    ensures EventOf(w, op).Some? ==>
      var e := EventOf(w, op).value;
      && Step(w, op).bus == Published(w.bus, e)
      && (e.id in Step(w, op).stored <==> e.kind == Saved)
      && (forall x | x != e.id :: x in Step(w, op).stored <==> x in w.stored)
  {
  }

  ghost predicate Stays<Q>(ops: seq<Op<Q>>, m: nat, n: nat, id: string, q: Q)
    requires n <= |ops|
  {
    forall k | m < k <= n :: Listening(ops, k, id, q)
  }

  lemma StaysAt<Q>(ops: seq<Op<Q>>, m: nat, n: nat, id: string, q: Q)
    requires n <= |ops| && m + 1 < n && Stays(ops, m, n, id, q)
    ensures Listening(ops, n - 1, id, q) && Stays(ops, m, n - 1, id, q)
  {
    hide Listening;
  }

  /** While subscribed, the last event says whether the design exists; with no event yet, its
      existence has not changed since subscribing. */
  lemma {:induction false} LastEventTells<Q>(start: set<string>, ops: seq<Op<Q>>, n: nat, id: string, q: Q, m: nat)
    requires Legal(start, ops) && m < n <= |ops| && ops[m] == Subscribe(id, q)
    requires Stays(ops, m, n, id, q)
    ensures q in Run(start, ops, n).bus.pending
    ensures
      var seen := Consumed(start, ops, n, q) + Run(start, ops, n).bus.pending[q];
      && (seen != [] ==> (id in Run(start, ops, n).stored <==> seen[|seen| - 1].kind == Saved))
      && (seen == [] ==> (id in Run(start, ops, n).stored <==> id in Run(start, ops, m).stored))
  {
    hide Legal, Stays, Run, Due, Consumed;
    Delivery(start, ops, n, id, q, m);
    DueTells(start, ops, n, id, q, m);
  }

  lemma {:induction false} DueTells<Q>(start: set<string>, ops: seq<Op<Q>>, n: nat, id: string, q: Q, m: nat)
    requires Legal(start, ops) && m < n <= |ops| && ops[m] == Subscribe(id, q)
    requires Stays(ops, m, n, id, q)
    ensures
      var due := Due(start, ops, n, id, q);
      && (due != [] ==> (id in Run(start, ops, n).stored <==> due[|due| - 1].kind == Saved))
      && (due == [] ==> (id in Run(start, ops, n).stored <==> id in Run(start, ops, m).stored))
  {
    hide Legal, Stays, Run, Listening, Due, Step, EventOf;
    OneOn(start, ops, n - 1, id, q);
    OneEventPerWrite(Run(start, ops, n - 1), ops[n - 1]);
    if n == m + 1 {
      NothingBefore(start, ops, m, id, q, m);
      SubscribingStoresNothing(Run(start, ops, m), ops[m]);
    } else {
      StaysAt(ops, m, n, id, q);
      DueTells(start, ops, n - 1, id, q, m);
    }
  }

  lemma SubscribingStoresNothing<Q>(w: World<Q>, op: Op<Q>)
    requires op.Subscribe?
    ensures EventOf(w, op).None?
  {
  }
}
