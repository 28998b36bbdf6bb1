/**
 * The bounded message channel that all requests of a coordinator share
 * (mininet_ai/coordination/channel.py). Each method body that runs under the
 * channel's condition is one atomic operation.
 */
module Channel {
  import opened Basics

  /** `trail` names the agents from the entry agent to the target along the traversed messages. */
  datatype Message = Message(id: string, target: string, hop: nat, trail: seq<string>)

  datatype Refusal = Closed | Duplicate | Full

  datatype Queue = Queue(messages: seq<Message>, accepted: set<string>, closed: bool, capacity: nat)

  function MessageIds(messages: seq<Message>): set<string> {
    set m | m in messages :: m.id
  }

  ghost predicate DistinctMessages(messages: seq<Message>) {
    forall i, j :: 0 <= i < j < |messages| ==> messages[i].id != messages[j].id
  }

  ghost predicate Sound(q: Queue) {
    && |q.messages| <= q.capacity
    && DistinctMessages(q.messages)
    && MessageIds(q.messages) <= q.accepted
  }

  /** Accepts a message, unless the channel is closed, has ever accepted its id, or is full. */
  function Send(q: Queue, m: Message): Result<Queue, Refusal> {
    if q.closed then Err(Closed)
    else if m.id in q.accepted then Err(Duplicate)
    else if |q.messages| >= q.capacity then Err(Full)
    else Ok(q.(messages := q.messages + [m], accepted := q.accepted + {m.id}))
  }

  predicate Wanted(m: Message, ids: Option<set<string>>) {
    ids.None? || m.id in ids.value
  }

  /** The place of the oldest wanted message. */
  function FirstWanted(messages: seq<Message>, ids: Option<set<string>>): (place: Option<nat>)
    ensures place.Some? ==> place.value < |messages| && Wanted(messages[place.value], ids)
    ensures place.Some? ==> forall k :: 0 <= k < place.value ==> !Wanted(messages[k], ids)
    ensures place.None? ==> forall k :: 0 <= k < |messages| ==> !Wanted(messages[k], ids)
  {
    if messages == [] then None
    else if Wanted(messages[0], ids) then Some(0)
    else
      var rest := FirstWanted(messages[1..], ids);
      if rest.Some? then Some(rest.value + 1) else None
  }

  function Without(messages: seq<Message>, place: nat): seq<Message>
    requires place < |messages|
  {
    messages[..place] + messages[place + 1..]
  }

  /** Takes the oldest wanted message, if there is one. */
  function Receive(q: Queue, ids: Option<set<string>>): (Option<Message>, Queue) {
    var place := FirstWanted(q.messages, ids);
    if place.None? then (None, q)
    else (Some(q.messages[place.value]), q.(messages := Without(q.messages, place.value)))
  }

  lemma {:induction false} SendKeepsSound(q: Queue, m: Message)
    requires Sound(q)
    ensures Send(q, m).Ok? ==> Sound(Send(q, m).value) && m.id !in MessageIds(q.messages)
  {
    if Send(q, m).Ok? {
      assert forall k :: 0 <= k < |q.messages| ==> q.messages[k].id in MessageIds(q.messages);
    }
  }

  lemma {:induction false} ReceiveRemoves(q: Queue, ids: Option<set<string>>)
    requires Sound(q)
    ensures var (taken, rest) := Receive(q, ids);
            && Sound(rest) && rest.accepted == q.accepted
            && (taken.None? ==> rest == q && forall m :: m in q.messages ==> !Wanted(m, ids))
            && (taken.Some? ==> taken.value in q.messages && Wanted(taken.value, ids)
                                && forall m :: m in rest.messages <==> m in q.messages && m != taken.value)
  {
    var place := FirstWanted(q.messages, ids);
    if place.Some? {
      var rest := Without(q.messages, place.value);
      RemoveOne(q.messages, place.value);
      assert forall k :: 0 <= k < |rest| ==> rest[k] in q.messages;
    }
  }

  lemma {:induction false} RemoveOne(messages: seq<Message>, place: nat)
    requires DistinctMessages(messages) && place < |messages|
    ensures DistinctMessages(Without(messages, place))
    ensures forall m :: m in Without(messages, place) <==> m in messages && m != messages[place]
  {
    var rest := Without(messages, place);
    forall k | 0 <= k < |rest|
      ensures rest[k] == if k < place then messages[k] else messages[k + 1]
    {
    }
    forall m | m in messages && m != messages[place]
      ensures m in rest
    {
      var k :| 0 <= k < |messages| && messages[k] == m;
      assert rest[if k < place then k else k - 1] == m;
    }
  }

  // --------------------------------------------------------------- the channel

  class InMemoryMessageChannel {
    const capacity: nat
    var messages: seq<Message>
    var accepted: set<string>
    var closed: bool

    ghost predicate Valid()
      reads this
    {
      capacity > 0 && Sound(View())
    }

    ghost function View(): Queue
      reads this
    {
      Queue(messages, accepted, closed, capacity)
    }

    constructor (capacity: nat)
      requires capacity > 0
      ensures Valid() && View() == Queue([], {}, false, capacity)
    {
      this.capacity := capacity;
      messages, accepted, closed := [], {}, false;
    }

    method SendMessage(m: Message) returns (refusal: Option<Refusal>)
      requires Valid()
      modifies this
      ensures Valid()
      ensures match Send(old(View()), m)
              case Ok(q) => refusal.None? && View() == q
              case Err(e) => refusal == Some(e) && View() == old(View())
    {
      SendKeepsSound(View(), m);
      if closed {
        return Some(Closed);
      }
      if m.id in accepted {
        return Some(Duplicate);
      }
      if |messages| >= capacity {
        return Some(Full);
      }
      accepted := accepted + {m.id};
      messages := messages + [m];
      refusal := None;
    }

    /** One turn of the receive loop; with no message it ends if the channel is closed and otherwise waits. */
    method TryReceive(ids: Option<set<string>>) returns (taken: Option<Message>, ended: bool)
      requires Valid()
      modifies this`messages
      ensures Valid()
      ensures (taken, View()) == Receive(old(View()), ids)
      ensures ended <==> taken.Some? || closed
    {
      ReceiveRemoves(View(), ids);
      var place := FirstWanted(messages, ids);
      if place.Some? {
        taken := Some(messages[place.value]);
        messages := messages[..place.value] + messages[place.value + 1..];
        return taken, true;
      }
      return None, closed;
    }

    method Close()
      requires Valid()
      modifies this`closed
      ensures Valid() && View() == old(View()).(closed := true)
    {
      closed := true;
    }
  }

  // ------------------------------------------------------------------ whole runs

  datatype Operation = Sending(message: Message) | Receiving(ids: Option<set<string>>) | Closing

  /** A channel together with everything it ever accepted and handed out, in order. */
  datatype Journal = Journal(queue: Queue, sent: seq<Message>, received: seq<Message>)

  function Perform(j: Journal, op: Operation): Journal {
    match op
    case Sending(m) =>
      (match Send(j.queue, m)
       case Ok(q) => Journal(q, j.sent + [m], j.received)
       case Err(_) => j)
    case Receiving(ids) =>
      var (taken, q) := Receive(j.queue, ids);
      if taken.Some? then Journal(q, j.sent, j.received + [taken.value]) else j
    case Closing => j.(queue := j.queue.(closed := true))
  }

  function PerformAll(capacity: nat, ops: seq<Operation>): Journal {
    if ops == [] then Journal(Queue([], {}, false, capacity), [], [])
    else Perform(PerformAll(capacity, ops[..|ops| - 1]), ops[|ops| - 1])
  }

  /** What was accepted is what was handed out together with what still waits, each message once. */
  ghost predicate Conserved(j: Journal) {
    && Sound(j.queue)
    && DistinctMessages(j.sent) && j.queue.accepted == MessageIds(j.sent)
    && multiset(j.sent) == multiset(j.received) + multiset(j.queue.messages)
  }

  lemma {:induction false} SplitAt(messages: seq<Message>, place: nat)
    requires place < |messages|
    ensures multiset(messages) == multiset(Without(messages, place)) + multiset{messages[place]}
  {
    assert messages == messages[..place] + [messages[place]] + messages[place + 1..];
  }

  lemma {:induction false} SentDistinct(sent: seq<Message>, m: Message)
    requires DistinctMessages(sent) && m.id !in MessageIds(sent)
    ensures DistinctMessages(sent + [m]) && MessageIds(sent + [m]) == MessageIds(sent) + {m.id}
  {
    assert forall k :: 0 <= k < |sent| ==> sent[k].id in MessageIds(sent);
  }

  lemma {:induction false} PerformConserves(j: Journal, op: Operation)
    requires Conserved(j)
    ensures Conserved(Perform(j, op))
  {
    match op
    case Sending(m) =>
      SendKeepsSound(j.queue, m);
      if Send(j.queue, m).Ok? {
        SentDistinct(j.sent, m);
      }
    case Receiving(ids) =>
      ReceiveRemoves(j.queue, ids);
      var place := FirstWanted(j.queue.messages, ids);
      if place.Some? {
        SplitAt(j.queue.messages, place.value);
      }
    case Closing =>
  }

  /** Over any run of a channel nothing is lost, duplicated or accepted twice, and the bound holds. */
  lemma {:induction false} ChannelConserves(capacity: nat, ops: seq<Operation>)
    ensures Conserved(PerformAll(capacity, ops))
  {
    if ops != [] {
      ChannelConserves(capacity, ops[..|ops| - 1]);
      PerformConserves(PerformAll(capacity, ops[..|ops| - 1]), ops[|ops| - 1]);
    }
  }

  /** No message is handed out twice. */
  lemma {:induction false} ReceivedOnce(capacity: nat, ops: seq<Operation>)
    ensures DistinctMessages(PerformAll(capacity, ops).received)
  {
    ChannelConserves(capacity, ops);
    var j := PerformAll(capacity, ops);
    forall a, b | 0 <= a < b < |j.received|
      ensures j.received[a].id != j.received[b].id
    {
      if j.received[a].id == j.received[b].id {
        var x, y := j.received[a], j.received[b];
        assert x in multiset(j.sent) && y in multiset(j.sent);
        OneMessagePerId(j.sent, x, y);
        CountedOnce(j.sent, x);
        CountedTwice(j.received, a, b);
      }
    }
  }

  lemma {:induction false} OneMessagePerId(messages: seq<Message>, x: Message, y: Message)
    requires DistinctMessages(messages) && x in messages && y in messages && x.id == y.id
    ensures x == y
  {
  }

  lemma {:induction false} CountedOnce(messages: seq<Message>, m: Message)
    requires DistinctMessages(messages)
    ensures multiset(messages)[m] <= 1
  {
    if messages != [] {
      var n := |messages| - 1;
      assert messages == messages[..n] + [messages[n]];
      CountedOnce(messages[..n], m);
      assert messages[n] !in messages[..n];
    }
  }

  lemma {:induction false} CountedTwice(messages: seq<Message>, a: nat, b: nat)
    requires a < b < |messages| && messages[a] == messages[b]
    ensures multiset(messages)[messages[a]] >= 2
  {
    SplitAt(messages, b);
    assert messages[a] in messages[..b];
  }

  /** Without a filter the channel is first in, first out. */
  lemma {:induction false} FirstInFirstOut(capacity: nat, ops: seq<Operation>)
    requires forall op :: op in ops && op.Receiving? ==> op.ids.None?
    ensures var j := PerformAll(capacity, ops); j.sent == j.received + j.queue.messages
  {
    if ops != [] {
      var last := ops[|ops| - 1];
      FirstInFirstOut(capacity, ops[..|ops| - 1]);
      var j := PerformAll(capacity, ops[..|ops| - 1]);
      if last.Receiving? {
        TakeOldest(j);
      }
    }
  }

  lemma {:induction false} TakeOldest(j: Journal)
    requires j.sent == j.received + j.queue.messages
    ensures var after := Perform(j, Receiving(None)); after.sent == after.received + after.queue.messages
  {
    if j.queue.messages != [] {
      ReceiveOldest(j.queue);
      var first, rest := j.queue.messages[0], j.queue.messages[1..];
      assert j.received + ([first] + rest) == (j.received + [first]) + rest;
    }
  }

  lemma {:induction false} ReceiveOldest(q: Queue)
    requires q.messages != []
    ensures Receive(q, None) == (Some(q.messages[0]), q.(messages := q.messages[1..]))
    ensures q.messages == [q.messages[0]] + q.messages[1..]
  {
    assert FirstWanted(q.messages, None) == Some(0);
    assert Without(q.messages, 0) == q.messages[1..];
  }
}
