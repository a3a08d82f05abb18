/**
 InMemoryBus: named queues of messages, some of them not due yet. A consumer gets
 the earliest entry that is due, and the entry is gone from then on.
 */
module Bus {
  import opened Contract

  type QueueName = string

  const DEAD_LETTER_QUEUE := "q.agent.deadletter"

  datatype Entry<M> = Entry(payload: M, retryAt: Option<real>)

  datatype Delivery<M> = Delivery(message: M, tag: nat)

  const SLACK := 0.000000001

  predicate IsDue<M>(e: Entry<M>, now: real) {
    (match e.retryAt case Some(at) => at case None => 0.0) <= now + SLACK
  }

  function Payloads<M>(q: seq<Entry<M>>): seq<M> {
    seq(|q|, i requires 0 <= i < |q| => q[i].payload)
  }

  function Entries<M>(queues: map<QueueName, seq<Entry<M>>>, queue: QueueName): seq<Entry<M>> {
    if queue in queues then queues[queue] else []
  }

  /** max(0.0, d) */
  function Positive(d: real): real {
    if d > 0.0 then d else 0.0
  }

  /** The first due entry, and nothing before it is due. */
  predicate FirstDue<M>(q: seq<Entry<M>>, now: real, i: nat) {
    i < |q| && IsDue(q[i], now) && forall j | 0 <= j < i :: !IsDue(q[j], now)
  }

  class InMemoryBus<M> {
    var queues: map<QueueName, seq<Entry<M>>>
    var tag: nat

    constructor ()
      ensures queues == map[] && tag == 0
    {
      queues, tag := map[], 0;
    }

    function Queue(queue: QueueName): seq<Entry<M>>
      reads this
    {
      Entries(queues, queue)
    }

    method Append(queue: QueueName, e: Entry<M>)
      modifies this`queues
      ensures queues == old(queues)[queue := old(Queue(queue)) + [e]]
    {
      queues := queues[queue := Queue(queue) + [e]];
    }

    method Publish(queue: QueueName, message: M)
      modifies this`queues
      ensures queues == old(queues)[queue := old(Queue(queue)) + [Entry(message, None)]]
    {
      Append(queue, Entry(message, None));
    }

    method PublishDeadLetter(message: M)
      modifies this`queues
      ensures queues == old(queues)[DEAD_LETTER_QUEUE := old(Queue(DEAD_LETTER_QUEUE)) + [Entry(message, None)]]
    {
      Publish(DEAD_LETTER_QUEUE, message);
    }

    method Requeue(queue: QueueName, message: M, delay: real, now: real)
      modifies this`queues
      ensures queues == old(queues)[queue := old(Queue(queue)) + [Entry(message, Some(now + Positive(delay)))]]
    {
      Append(queue, Entry(message, Some(now + Positive(delay))));
    }

    /** Takes the first due entry; `at` says where it was. Nothing is delivered only when nothing is due. */
    method Get(queue: QueueName, now: real) returns (d: Option<Delivery<M>>, ghost at: nat)
      modifies this
      ensures d.Some? ==> FirstDue(old(Queue(queue)), now, at)
      ensures d.Some? ==> d.value == Delivery(old(Queue(queue))[at].payload, old(tag)) && tag == old(tag) + 1
      ensures d.Some? ==>
                queues == old(queues)[queue := old(Queue(queue))[..at] + old(Queue(queue))[at + 1..]]
      ensures d.None? ==> tag == old(tag) && queues == old(queues)[queue := old(Queue(queue))]
      ensures d.None? ==> forall e | e in old(Queue(queue)) :: !IsDue(e, now)
      ensures d.Some? ==> match old(Queue(queue))[at].retryAt
                          case Some(due) => due <= now + 0.000000001
                          case None => 0.0 <= now + 0.000000001
      ensures d.Some? ==> forall e | e in old(Queue(queue))[..at] && e.retryAt.Some? ::
                e.retryAt.value > now + 0.000000001
      ensures (if d.Some? then Some(at) else None) == FirstDueFrom(old(Queue(queue)), now, 0)
      ensures d.None? ==> forall e | e in old(Queue(queue)) && e.retryAt.Some? :: e.retryAt.value > now + 0.000000001
      ensures d.None? && 0.0 <= now ==> forall e | e in old(Queue(queue)) :: e.retryAt.Some?
    {
      var q := Queue(queue);
      queues := queues[queue := q];
      var i := 0;
      at := 0;
      while i < |q|
        invariant 0 <= i <= |q|
        invariant forall j | 0 <= j < i :: !IsDue(q[j], now)
      {
        if IsDue(q[i], now) {
          at := i;
          d := Some(Delivery(q[i].payload, tag));
          queues := queues[queue := q[..i] + q[i + 1..]];
          tag := tag + 1;
          return;
        }
        i := i + 1;
      }
      d := None;
    }
  }

  /** A message requeued at one moment can be delivered at another once the delay has passed, a nanosecond short. */
  lemma RequeuedIsDue<M>(message: M, delay: real, at: real, now: real)
    ensures IsDue(Entry(message, Some(at + Positive(delay))), now) <==>
              now - at >= (if delay <= 0.0 then 0.0 else delay) - 0.000000001
  {}

  lemma PayloadsAppend<M>(q: seq<Entry<M>>, e: Entry<M>)
    ensures Payloads(q + [e]) == Payloads(q) + [e.payload]
  {}

  lemma PayloadsRemove<M>(q: seq<Entry<M>>, i: nat)
    requires i < |q|
    ensures Payloads(q[..i] + q[i + 1..]) == Payloads(q)[..i] + Payloads(q)[i + 1..]
  {}

  lemma RemovedOne<M>(ms: seq<M>, i: nat)
    requires i < |ms|
    ensures multiset(ms) == multiset(ms[..i] + ms[i + 1..]) + multiset([ms[i]])
  {
    assert ms == ms[..i] + [ms[i]] + ms[i + 1..];
  }

  // ---- what a queue delivers over its life ----

  datatype Call<M> = Added(entry: Entry<M>) | Asked(at: real)

  /** A queue after a list of calls, with everything delivered so far. */
  datatype Life<M> = Life(queue: seq<Entry<M>>, delivered: seq<M>)

  function FirstDueFrom<M>(q: seq<Entry<M>>, now: real, i: nat): (r: Option<nat>)
    requires i <= |q| && forall j | 0 <= j < i :: !IsDue(q[j], now)
    ensures r.Some? ==> FirstDue(q, now, r.value)
    ensures r.None? ==> forall j | 0 <= j < |q| :: !IsDue(q[j], now)
    decreases |q| - i
  {
    if i == |q| then None else if IsDue(q[i], now) then Some(i) else FirstDueFrom(q, now, i + 1)
  }

  function After<M>(l: Life<M>, call: Call<M>): Life<M> {
    match call
    case Added(e) => Life(l.queue + [e], l.delivered)
    case Asked(at) =>
      match FirstDueFrom(l.queue, at, 0)
      case None => l
      case Some(i) => Life(l.queue[..i] + l.queue[i + 1..], l.delivered + [l.queue[i].payload])
  }

  function Lived<M>(calls: seq<Call<M>>): Life<M> {
    if calls == [] then Life([], []) else After(Lived(calls[..|calls| - 1]), calls[|calls| - 1])
  }

  function Put<M>(call: Call<M>): seq<M> {
    match call case Added(e) => [e.payload] case Asked(_) => []
  }

  function PutBy<M>(calls: seq<Call<M>>): seq<M> {
    if calls == [] then []
    else PutBy(calls[..|calls| - 1]) + Put(calls[|calls| - 1])
  }

  lemma AfterConserves<M>(l: Life<M>, call: Call<M>)
    ensures multiset(After(l, call).delivered) + multiset(Payloads(After(l, call).queue))
         == multiset(l.delivered) + multiset(Payloads(l.queue)) + multiset(Put(call))
  {
    match call
    case Added(e) =>
      PayloadsAppend(l.queue, e);
    case Asked(at) =>
      var first := FirstDueFrom(l.queue, at, 0);
      if first.Some? {
        PayloadsRemove(l.queue, first.value);
        RemovedOne(Payloads(l.queue), first.value);
      }
  }

  /** Nothing is lost and nothing is delivered twice: what was put is what was delivered and what is queued. */
  lemma {:induction false} NothingLostOrRepeated<M>(calls: seq<Call<M>>)
    ensures multiset(PutBy(calls)) == multiset(Lived(calls).delivered) + multiset(Payloads(Lived(calls).queue))
  {
    if calls != [] {
      hide After, Payloads, Put;
      NothingLostOrRepeated(calls[..|calls| - 1]);
      AfterConserves(Lived(calls[..|calls| - 1]), calls[|calls| - 1]);
    } else {
      assert Payloads(Lived(calls).queue) == [];
    }
  }

  predicate Undelayed<M>(q: seq<Entry<M>>) {
    forall i | 0 <= i < |q| :: q[i].retryAt.None?
  }

  /** A call that adds no delayed entry and reads a clock that is not negative. */
  predicate Plain<M>(call: Call<M>) {
    match call case Added(e) => e.retryAt.None? case Asked(at) => at >= 0.0
  }

  lemma AfterFifo<M>(l: Life<M>, call: Call<M>)
    requires Undelayed(l.queue) && Plain(call)
    ensures Undelayed(After(l, call).queue)
    ensures After(l, call).delivered + Payloads(After(l, call).queue) == l.delivered + Payloads(l.queue) + Put(call)
  {
    match call
    case Added(e) =>
      PayloadsAppend(l.queue, e);
    case Asked(at) =>
      if l.queue != [] {
        PayloadsRemove(l.queue, 0);
        assert IsDue(l.queue[0], at);
        assert Payloads(l.queue) == [l.queue[0].payload] + Payloads(l.queue)[1..];
      }
  }

  /** Without delays a queue is first in, first out. */
  lemma {:induction false} UndelayedIsFifo<M>(calls: seq<Call<M>>)
    requires forall call | call in calls :: Plain(call)
    ensures PutBy(calls) == Lived(calls).delivered + Payloads(Lived(calls).queue)
    ensures Undelayed(Lived(calls).queue)
  {
    if calls != [] {
      hide After, Payloads, Put, Undelayed, Plain;
      UndelayedIsFifo(calls[..|calls| - 1]);
      AfterFifo(Lived(calls[..|calls| - 1]), calls[|calls| - 1]);
    }
  }
}
