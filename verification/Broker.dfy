/** The core's publish/subscribe broker: bounded drop-oldest queues with a separate slot for the
    overflow notice. */
module Broker {
  import opened Options

  datatype Payload = Json(text: string) | OverflowInfo(droppedCount: nat, topics: seq<string>)

  datatype Event = Event(topic: string, payload: Payload)

  datatype GetError = SubscriptionClosed | QueueEmpty

  // ---- topic patterns ---------------------------------------------------------------

  predicate StartsWith(s: string, prefix: string) {
    |prefix| <= |s| && s[..|prefix|] == prefix
  }

  predicate EndsWith(s: string, suffix: string) {
    |suffix| <= |s| && s[|s| - |suffix|..] == suffix
  }

  /** _matches: a bare `*`, an exact topic, `prefix.*` or `*.suffix`. */
  predicate Matches(pattern: string, topic: string) {
    if pattern == "*" || pattern == topic then true
    else if EndsWith(pattern, ".*") && '*' !in pattern[..|pattern| - 2] then
      StartsWith(topic, pattern[..|pattern| - 2] + ".")
    else if StartsWith(pattern, "*.") && '*' !in pattern[2..] then
      EndsWith(topic, "." + pattern[2..])
    else false
  }

  /** A pattern without a star matches itself only. */
  lemma PlainPattern(p: string, topic: string)
    requires '*' !in p
    ensures Matches(p, topic) <==> p == topic
  {
    if p != "" {
      assert p[|p| - 1] != '*' && p[0] != '*';
    }
  }

  /** `prefix.*` matches the topics below the prefix, at any depth. */
  lemma PrefixPattern(p: string, topic: string)
    requires '*' !in p
    ensures Matches(p + ".*", topic) <==> StartsWith(topic, p + ".")
  {
    var pattern := p + ".*";
    assert pattern[..|pattern| - 2] == p && EndsWith(pattern, ".*") && |pattern| >= 2;
    if topic == pattern {
      assert topic == (p + ".") + "*";
    }
  }

  /** `*.suffix` matches the topics that end in the suffix after a dot. */
  lemma SuffixPattern(p: string, topic: string)
    requires '*' !in p
    ensures Matches("*." + p, topic) <==> EndsWith(topic, "." + p)
  {
    var pattern := "*." + p;
    assert pattern[2..] == p && StartsWith(pattern, "*.") && |pattern| >= 2;
    assert pattern[|pattern| - 1] == if p == "" then '.' else p[|p| - 1];
    assert !EndsWith(pattern, ".*");
    if topic == pattern {
      assert topic == "*" + ("." + p);
    }
  }

  /** The topic is below what stands before a final `.*`. */
  ghost predicate IsBelow(p: string, topic: string) {
    exists prefix :: '*' !in prefix && p == prefix + ".*" && prefix + "." <= topic
  }

  /** The topic ends, after a dot, in what stands after a leading `*.`. */
  ghost predicate IsAt(p: string, topic: string) {
    exists suffix :: '*' !in suffix && p == "*." + suffix && IsSuffix("." + suffix, topic)
  }

  lemma BelowMatches(p: string, topic: string)
    requires IsBelow(p, topic)
    ensures Matches(p, topic)
  {
    var prefix :| '*' !in prefix && p == prefix + ".*" && prefix + "." <= topic;
    PrefixPattern(prefix, topic);
  }

  lemma AtMatches(p: string, topic: string)
    requires IsAt(p, topic)
    ensures Matches(p, topic)
  {
    var suffix :| '*' !in suffix && p == "*." + suffix && IsSuffix("." + suffix, topic);
    SuffixPattern(suffix, topic);
  }

  lemma MatchingIsOne(p: string, topic: string)
    requires Matches(p, topic) && p != "*" && p != topic
    ensures IsBelow(p, topic) || IsAt(p, topic)
  {
    if EndsWith(p, ".*") && '*' !in p[..|p| - 2] {
      var prefix := p[..|p| - 2];
      assert p == prefix + ".*" && prefix + "." <= topic;
    } else {
      var suffix := p[2..];
      assert p == "*." + suffix && IsSuffix("." + suffix, topic);
    }
  }

  /** A pattern matches a topic in four ways, and no star but these means anything. */
  lemma MatchesIff(p: string, topic: string)
    ensures Matches(p, topic) <==> p == "*" || p == topic || IsBelow(p, topic) || IsAt(p, topic)
  {
    if Matches(p, topic) && p != "*" && p != topic {
      MatchingIsOne(p, topic);
    }
    if IsBelow(p, topic) {
      BelowMatches(p, topic);
    }
    if IsAt(p, topic) {
      AtMatches(p, topic);
    }
  }

  predicate IsSuffix(end: string, s: string) {
    |end| <= |s| && s[|s| - |end|..] == end
  }

  // ---- one subscription -------------------------------------------------------------

  datatype SubState = SubState(
    topics: seq<string>,
    bufferSize: int,
    queue: seq<Event>,
    overflowPending: Option<Event>,
    overflowCount: nat,
    closed: bool)

  /** A queue with a size of zero or less is unbounded, as in asyncio. */
  predicate Full(s: SubState) {
    0 < s.bufferSize <= |s.queue|
  }

  function Notice(s: SubState): Event {
    Event("core.overflow", OverflowInfo(s.overflowCount, s.topics))
  }

  function Enqueue(s: SubState, e: Event): SubState {
    if s.closed then s
    else if !Full(s) then s.(queue := s.queue + [e])
    else
      var s' := s.(queue := s.queue[1..] + [e], overflowCount := s.overflowCount + 1);
      if s'.overflowPending.Some? then s' else s'.(overflowPending := Some(Notice(s')))
  }

  function Consume(s: SubState): SubState {
    s.(overflowPending := None, overflowCount := 0)
  }

  function Get(s: SubState): (SubState, Result<Event, GetError>) {
    if s.closed then (s, Err(SubscriptionClosed))
    else if s.overflowPending.Some? then (Consume(s), Ok(s.overflowPending.value))
    else TakeQueued(s)
  }

  /** A get that already waits on the queue takes its head, whatever the overflow slot holds. */
  function TakeQueued(s: SubState): (SubState, Result<Event, GetError>) {
    if s.queue == [] then (s, Err(QueueEmpty)) else (s.(queue := s.queue[1..]), Ok(s.queue[0]))
  }

  function Deliver(s: SubState, e: Event): SubState {
    if !s.closed && (exists i :: 0 <= i < |s.topics| && Matches(s.topics[i], e.topic)) then Enqueue(s, e) else s
  }

  /** A publication reaches a subscription exactly if that is open and one of its patterns matches;
      then the event is the last of its queue, after all that was there or, at the bound, all but
      the oldest, and a loss is counted and noticed. */
  lemma DeliverIs(s: SubState, e: Event)
    ensures var s' := Deliver(s, e);
      if s.closed || (forall i :: 0 <= i < |s.topics| ==> !Matches(s.topics[i], e.topic)) then s' == s
      else if 0 < s.bufferSize <= |s.queue| then
        && s'.queue == s.queue[1..] + [e] && s'.overflowCount == s.overflowCount + 1 && s'.overflowPending.Some?
        && (s.overflowPending.Some? ==> s'.overflowPending == s.overflowPending)
        && s'.topics == s.topics && s'.bufferSize == s.bufferSize && !s'.closed
      else s' == s.(queue := s.queue + [e])
  {
  }

  /** What a get finds: nothing on a closed subscription, then the notice, then the oldest event. */
  lemma GetIs(s: SubState)
    ensures var (s', r) := Get(s);
      if s.closed then r == Err(SubscriptionClosed) && s' == s
      else if s.overflowPending.Some? then
        r == Ok(s.overflowPending.value) && s' == s.(overflowPending := None, overflowCount := 0)
      else if s.queue == [] then r == Err(QueueEmpty) && s' == s
      else r == Ok(s.queue[0]) && s' == s.(queue := s.queue[1..])
  {
  }

  // ---- runs of one subscription -----------------------------------------------------

  /** What can happen to a subscription, in any order. `WokenGet` is an asynchronous get that
      waited on an empty queue and now resumes. */
  datatype Op = Published(event: Event) | GetNow | WokenGet | Closing

  datatype Fate = Delivered | Dropped

  /** A subscription with the record of its whole past: every event enqueued, what became of the
      ones that left the queue, the events handed out, and the drops when a notice was last
      consumed. */
  datatype Past = Past(sub: SubState, enqueued: seq<Event>, fates: seq<Fate>, handedOut: seq<Event>, noticed: nat)

  function Count(fates: seq<Fate>, f: Fate): nat {
    multiset(fates)[f]
  }

  function Step(p: Past, op: Op): Past {
    match op
    case Published(e) =>
      var s' := Enqueue(p.sub, e);
      if p.sub.closed then p
      else p.(sub := s', enqueued := p.enqueued + [e], fates := if Full(p.sub) then p.fates + [Dropped] else p.fates)
    case GetNow =>
      if p.sub.closed then p
      else if p.sub.overflowPending.Some? then p.(sub := Get(p.sub).0, noticed := Count(p.fates, Dropped))
      else TakeStep(p, Get(p.sub))
    case WokenGet => if p.sub.closed then p else TakeStep(p, TakeQueued(p.sub))
    case Closing => p.(sub := p.sub.(closed := true))
  }

  function TakeStep(p: Past, r: (SubState, Result<Event, GetError>)): Past {
    match r.1
    case Ok(e) => p.(sub := r.0, fates := p.fates + [Delivered], handedOut := p.handedOut + [e])
    case Err(_) => p
  }

  function Born(topics: seq<string>, bufferSize: int): Past {
    Past(SubState(topics, bufferSize, [], None, 0, false), [], [], [], 0)
  }

  function Run(topics: seq<string>, bufferSize: int, ops: seq<Op>): Past {
    if ops == [] then Born(topics, bufferSize) else Step(Run(topics, bufferSize, ops[..|ops| - 1]), ops[|ops| - 1])
  }

  /** The events among `events` whose fate is to be delivered, in order. */
  ghost function DeliveredOf(events: seq<Event>, fates: seq<Fate>): seq<Event>
    requires |events| == |fates|
  {
    if events == [] then []
    else
      var n := |events| - 1;
      DeliveredOf(events[..n], fates[..n]) + (if fates[n] == Delivered then [events[n]] else [])
  }

  ghost predicate Conserves(p: Past) {
    && |p.enqueued| == |p.fates| + |p.sub.queue|
    // the queue is the contiguous suffix of what was enqueued
    && p.enqueued[|p.fates|..] == p.sub.queue
    // the events handed out are the delivered ones before it, each once and in publish order
    && p.handedOut == DeliveredOf(p.enqueued[..|p.fates|], p.fates)
    && |p.enqueued| == |p.handedOut| + Count(p.fates, Dropped) + |p.sub.queue|
    // the queue is bounded
    && (p.sub.bufferSize > 0 ==> |p.sub.queue| <= p.sub.bufferSize)
    // the overflow count is the drops since the last notice was consumed, and its slot is full
    // exactly if there are any; the notice itself was fixed at the first of them
    && Count(p.fates, Dropped) == p.noticed + p.sub.overflowCount
    && (p.sub.overflowPending.Some? <==> p.sub.overflowCount > 0)
    && (p.sub.overflowPending.Some? ==>
          p.sub.overflowPending.value == Event("core.overflow", OverflowInfo(1, p.sub.topics)))
  }

  lemma LeaveQueue(p: Past, p': Past, fate: Fate)
    requires Conserves(p) && p.sub.queue != []
    requires p'.fates == p.fates + [fate]
    requires p.enqueued <= p'.enqueued
    ensures |p'.fates| <= |p'.enqueued|
    ensures DeliveredOf(p'.enqueued[..|p'.fates|], p'.fates)
         == p.handedOut + (if fate == Delivered then [p.sub.queue[0]] else [])
  {
    var n := |p.fates|;
    assert p'.enqueued[..n + 1][..n] == p.enqueued[..n] && p'.fates[..n] == p.fates;
    assert p'.enqueued[n] == p.enqueued[n] == p.enqueued[n..][0];
  }

  lemma AppendConserves(p: Past, e: Event)
    requires Conserves(p) && !p.sub.closed && !Full(p.sub)
    ensures Conserves(Step(p, Published(e)))
  {
    var p', n := Step(p, Published(e)), |p.fates|;
    assert p'.enqueued[..n] == p.enqueued[..n] && p'.enqueued[n..] == p.enqueued[n..] + [e];
  }

  lemma DropConserves(p: Past, e: Event)
    requires Conserves(p) && !p.sub.closed && Full(p.sub)
    ensures Conserves(Step(p, Published(e)))
  {
    var p', n := Step(p, Published(e)), |p.fates|;
    LeaveQueue(p, p', Dropped);
    assert p'.enqueued[n + 1..] == p.enqueued[n..][1..] + [e];
  }

  lemma PublishConserves(p: Past, e: Event)
    requires Conserves(p)
    ensures Conserves(Step(p, Published(e)))
  {
    if !p.sub.closed && Full(p.sub) {
      DropConserves(p, e);
    } else if !p.sub.closed {
      AppendConserves(p, e);
    }
  }

  lemma TakeConserves(p: Past)
    requires Conserves(p)
    ensures Conserves(TakeStep(p, TakeQueued(p.sub)))
  {
    var p' := TakeStep(p, TakeQueued(p.sub));
    if p.sub.queue != [] {
      LeaveQueue(p, p', Delivered);
      assert p'.enqueued[|p'.fates|..] == p.enqueued[|p.fates|..][1..];
    }
  }

  lemma StepConserves(p: Past, op: Op)
    requires Conserves(p)
    ensures Conserves(Step(p, op))
  {
    match op {
      case Published(e) => PublishConserves(p, e);
      case Closing =>
      case _ => TakeConserves(p);
    }
  }

  /** Conservation over every interleaving of publishes and gets. */
  lemma {:induction false} RunsConserve(topics: seq<string>, bufferSize: int, ops: seq<Op>)
    ensures Conserves(Run(topics, bufferSize, ops))
  {
    if ops != [] {
      RunsConserve(topics, bufferSize, ops[..|ops| - 1]);
      StepConserves(Run(topics, bufferSize, ops[..|ops| - 1]), ops[|ops| - 1]);
    }
  }

  /** An operation that drops an event while a notice is already pending. */
  predicate DropsAgain(s: SubState, op: Op) {
    op.Published? && !s.closed && Full(s) && s.overflowPending.Some?
  }

  /** An operation that hands out the pending notice. */
  predicate TakesNotice(s: SubState, op: Op) {
    op.GetNow? && !s.closed && s.overflowPending.Some?
  }

  /** Some operation dropped an event while a notice was pending, and none after it took a notice. */
  predicate HasDroppedAgain(topics: seq<string>, bufferSize: int, ops: seq<Op>) {
    ops != [] &&
    var before, op := ops[..|ops| - 1], ops[|ops| - 1];
    var s := Run(topics, bufferSize, before).sub;
    DropsAgain(s, op) || (HasDroppedAgain(topics, bufferSize, before) && !TakesNotice(s, op))
  }

  lemma {:induction false} CountIsDroppedAgain(topics: seq<string>, bufferSize: int, ops: seq<Op>)
    ensures 1 < Run(topics, bufferSize, ops).sub.overflowCount <==> HasDroppedAgain(topics, bufferSize, ops)
  {
    if ops != [] {
      CountIsDroppedAgain(topics, bufferSize, ops[..|ops| - 1]);
      RunsConserve(topics, bufferSize, ops[..|ops| - 1]);
    }
  }

  /** A pending overflow notice always reports one dropped event. It understates what was dropped
      since the notice before it exactly if a further event was dropped while it was pending. */
  lemma NoticeReportsOneDrop(topics: seq<string>, bufferSize: int, ops: seq<Op>)
    ensures var p := Run(topics, bufferSize, ops);
      p.sub.overflowPending.Some? ==>
        && p.sub.overflowPending.value.payload == OverflowInfo(1, p.sub.topics)
        && (1 < Count(p.fates, Dropped) - p.noticed <==> HasDroppedAgain(topics, bufferSize, ops))
  {
    RunsConserve(topics, bufferSize, ops);
    CountIsDroppedAgain(topics, bufferSize, ops);
  }

  function Publishes(events: seq<Event>): (ops: seq<Op>)
    ensures |ops| == |events|
  {
    seq(|events|, i requires 0 <= i < |events| => Published(events[i]))
  }

  lemma {:induction false} BurstDrops(topics: seq<string>, bufferSize: nat, events: seq<Event>)
    requires 0 < bufferSize
    ensures var p, n := Run(topics, bufferSize, Publishes(events)), |events|;
      && !p.sub.closed && p.sub.bufferSize == bufferSize && p.noticed == 0
      && p.sub.overflowCount == (if n < bufferSize then 0 else n - bufferSize)
      && |p.sub.queue| == (if n < bufferSize then n else bufferSize)
  {
    if events != [] {
      var n := |events| - 1;
      BurstDrops(topics, bufferSize, events[..n]);
      assert Publishes(events)[..n] == Publishes(events[..n]);
    }
  }

  /** A burst of events that nobody reads leaves a notice if it outgrows the buffer, and one that
      understates the loss if it does so by more than one event. */
  lemma BurstUnderstates(topics: seq<string>, bufferSize: nat, events: seq<Event>)
    requires 0 < bufferSize
    ensures var p := Run(topics, bufferSize, Publishes(events));
      && (p.sub.overflowPending.Some? <==> bufferSize < |events|)
      && (bufferSize < |events| ==>
            && p.sub.overflowPending.value.payload == OverflowInfo(1, p.sub.topics)
            && Count(p.fates, Dropped) - p.noticed == |events| - bufferSize)
  {
    BurstDrops(topics, bufferSize, events);
    RunsConserve(topics, bufferSize, Publishes(events));
  }

  // ---- the objects ------------------------------------------------------------------

  class Subscription {
    const topics: seq<string>
    const bufferSize: int
    var queue: seq<Event>
    var overflowPending: Option<Event>
    var overflowCount: nat
    var closed: bool

    ghost function State(): SubState
      reads this
    {
      SubState(topics, bufferSize, queue, overflowPending, overflowCount, closed)
    }

    constructor (topics: seq<string>, bufferSize: int)
      ensures State() == Born(topics, bufferSize).sub
    {
      this.topics, this.bufferSize := topics, bufferSize;
      queue, overflowPending, overflowCount, closed := [], None, 0, false;
    }

    method Close()
      modifies this
      ensures State() == old(State()).(closed := true)
    {
      closed := true;
    }

    method GetNowait() returns (r: Result<Event, GetError>)
      modifies this
      ensures (State(), r) == Get(old(State()))
    {
      if closed {
        return Err(SubscriptionClosed);
      }
      if overflowPending.Some? {
        var e := ConsumeOverflow();
        return Ok(e);
      }
      if queue == [] {
        return Err(QueueEmpty);
      }
      r := Ok(queue[0]);
      queue := queue[1..];
    }

    method ConsumeOverflow() returns (e: Event)
      requires overflowPending.Some?
      modifies this
      ensures e == old(overflowPending.value) && State() == Consume(old(State()))
    {
      e := overflowPending.value;
      overflowPending := None;
      overflowCount := 0;
    }

    method TryEnqueue(e: Event)
      modifies this
      ensures State() == Enqueue(old(State()), e)
    {
      if closed {
        return;
      }
      if bufferSize <= 0 || |queue| < bufferSize {
        queue := queue + [e];
      } else {
        queue := queue[1..];
        queue := queue + [e];
        overflowCount := overflowCount + 1;
        MaterializeOverflow();
      }
    }

    method MaterializeOverflow()
      modifies this
      ensures State() == if old(overflowPending).Some? then old(State())
                         else old(State()).(overflowPending := Some(Notice(old(State()))))
    {
      if overflowPending.Some? {
        return;
      }
      overflowPending := Some(Event("core.overflow", OverflowInfo(overflowCount, topics)));
    }

    method Accepts(topic: string) returns (b: bool)
      ensures b <==> exists i :: 0 <= i < |topics| && Matches(topics[i], topic)
    {
      for i := 0 to |topics|
        invariant forall j :: 0 <= j < i ==> !Matches(topics[j], topic)
      {
        if Matches(topics[i], topic) {
          return true;
        }
      }
      b := false;
    }
  }

  class EventBroker {
    const defaultBufferSize: int
    var subscriptions: set<Subscription>

    constructor (size: int)
      ensures subscriptions == {} && defaultBufferSize == size
    {
      defaultBufferSize, subscriptions := size, {};
    }

    /** None is the source's ValueError on an empty topic list. */
    method Subscribe(topics: seq<string>, bufferSize: Option<int>) returns (sub: Option<Subscription>)
      modifies this
      ensures topics == [] <==> sub == None
      ensures topics == [] ==> subscriptions == old(subscriptions)
      ensures topics != [] ==> fresh(sub.value) && subscriptions == old(subscriptions) + {sub.value}
      ensures topics != [] ==>
        sub.value.State() == Born(topics, if bufferSize.Some? then bufferSize.value else defaultBufferSize).sub
    {
      if topics == [] {
        return None;
      }
      var s := new Subscription(topics, if bufferSize.Some? then bufferSize.value else defaultBufferSize);
      subscriptions := subscriptions + {s};
      sub := Some(s);
    }

    method Unsubscribe(sub: Subscription)
      modifies this, sub
      ensures subscriptions == old(subscriptions) - {sub} && sub.State() == old(sub.State()).(closed := true)
    {
      sub.Close();
      subscriptions := subscriptions - {sub};
    }

    /** Every matching open subscription gets the event once, whatever order the set is visited
        in, and no other one changes. */
    method Publish(e: Event)
      modifies subscriptions
      ensures forall s :: s in subscriptions ==> s.State() == Deliver(old(s.State()), e)
    {
      var rest := subscriptions;
      while rest != {}
        invariant rest <= subscriptions
        invariant forall s :: s in rest ==> s.State() == old(s.State())
        invariant forall s :: s in subscriptions - rest ==> s.State() == Deliver(old(s.State()), e)
        decreases rest
      {
        var sub :| sub in rest;
        var accepts := sub.Accepts(e.topic);
        if !sub.closed && accepts {
          sub.TryEnqueue(e);
        }
        rest := rest - {sub};
      }
    }
  }
}
