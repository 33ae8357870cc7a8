/** The notification queue: publishers and a drainer thread that retires itself share one lock.

    Each region run under the lock is one step; between steps the threads interleave freely. */
module Notifications {
  import opened Common
  import opened Text

  datatype Kind = Information | Attention | DecisionRequired | Critical | Resolved

  // An event as it is published; `kind` is None when its type is none of the five.
  datatype Payload = Payload(id: string, kind: Option<Kind>, message: string)

  datatype Notification = Notification(id: string, kind: Kind, message: string)

  // A payload without an id, a known type or a message is refused; long texts are cut.
  function Validated(p: Payload): Option<Notification> {
    if p.id == "" || p.kind.None? || p.message == "" then None
    else Some(Notification(FirstN(p.id, 160), p.kind.value, FirstN(p.message, 1000)))
  }

  function FirstN(text: string, n: nat): string { if |text| <= n then text else text[..n] }

  type ThreadId = nat

  // A drainer is about to take the lock, is delivering what it took, or has ended: it retired on
  // an empty queue, or its delivery raised.
  datatype Drainer = Looping | Delivering(item: Notification) | Ended

  const CAPACITY: nat := 100
  const REMEMBERED: nat := 256

  // `thread` is the field that names the current drainer; `threads` knows every thread ever
  // started. The last three are histories: accepted items, those taken from the queue, those
  // whose delivery finished.
  datatype State = State(
    queue: seq<Notification>, publishedIds: seq<string>, thread: Option<ThreadId>, threads: map<ThreadId, Drainer>,
    accepted: seq<Notification>, taken: seq<Notification>, delivered: seq<Notification>)

  const START: State := State([], [], None, map[], [], [], [])

  predicate Alive(s: State, t: ThreadId) { t in s.threads && !s.threads[t].Ended? }

  predicate Draining(s: State) { s.thread.Some? && Alive(s, s.thread.value) }

  datatype Event =
    | Publish(payload: Payload, spawned: ThreadId)   // the id a new thread would get
    | Take(t: ThreadId)
    | Deliver(t: ThreadId)
    | Raise(t: ThreadId)

  predicate Accepts(s: State, item: Notification) { item.id !in s.publishedIds && |s.queue| < CAPACITY }

  function Enqueue(s: State, item: Notification, spawned: ThreadId): State {
    if !Accepts(s, item) then s else
    var s1 := s.(queue := s.queue + [item], publishedIds := LastN(s.publishedIds + [item.id], REMEMBERED),
                 accepted := s.accepted + [item]);
    if Draining(s) || spawned in s.threads then s1
    else s1.(thread := Some(spawned), threads := s.threads[spawned := Looping])
  }

  function PublishStep(s: State, payload: Payload, spawned: ThreadId): State {
    var item := Validated(payload);
    if item.None? then s else Enqueue(s, item.value, spawned)
  }

  function TakeStep(s: State, t: ThreadId): State {
    if !(t in s.threads && s.threads[t].Looping?) then s
    else if s.queue == [] then s.(thread := None, threads := s.threads[t := Ended])
    else s.(queue := s.queue[1..], threads := s.threads[t := Delivering(s.queue[0])], taken := s.taken + [s.queue[0]])
  }

  function DeliverStep(s: State, t: ThreadId): State {
    if !(t in s.threads && s.threads[t].Delivering?) then s
    else s.(threads := s.threads[t := Looping], delivered := s.delivered + [s.threads[t].item])
  }

  function RaiseStep(s: State, t: ThreadId): State {
    if !(t in s.threads && s.threads[t].Delivering?) then s else s.(threads := s.threads[t := Ended])
  }

  function Step(s: State, e: Event): State {
    match e
    case Publish(payload, spawned) => PublishStep(s, payload, spawned)
    case Take(t) => TakeStep(s, t)
    case Deliver(t) => DeliverStep(s, t)
    case Raise(t) => RaiseStep(s, t)
  }

  // Thread ids are fresh: a publish that needs a thread names one never used.
  predicate Enabled(s: State, e: Event) { e.Publish? ==> e.spawned !in s.threads }

  ghost function Run(s: State, events: seq<Event>): State {
    if events == [] then s else Step(Run(s, events[..|events| - 1]), events[|events| - 1])
  }

  ghost predicate Possible(s: State, events: seq<Event>) {
    forall k :: 0 <= k < |events| ==> Enabled(Run(s, events[..k]), events[k])
  }

  // ------------------------------------------------------------ the program

  datatype PublishError = InvalidPayload

  class Publisher {
    var state: State
    const enabled: bool

    constructor (enabled: bool)
      ensures state == START && this.enabled == enabled
    {
      state, this.enabled := START, enabled;
    }

    method PublishItem(payload: Payload, spawned: ThreadId) returns (reply: Result<bool, PublishError>)
      requires spawned !in state.threads
      modifies this
      ensures state == if enabled then PublishStep(old(state), payload, spawned) else old(state)
      ensures reply.Err? <==> enabled && Validated(payload).None?
      ensures reply.Ok? ==> (reply.value <==> enabled && Accepts(old(state), Validated(payload).value))
    {
      if !enabled { return Ok(false); }
      var id, message := payload.id, payload.message;
      if |id| > 160 { id := id[..160]; }
      if |message| > 1000 { message := message[..1000]; }
      if id == "" || payload.kind.None? || message == "" { return Err(InvalidPayload); }
      var item := Notification(id, payload.kind.value, message);
      if item.id in state.publishedIds { return Ok(false); }
      if |state.queue| >= CAPACITY { return Ok(false); }
      state := state.(queue := state.queue + [item], accepted := state.accepted + [item]);
      var ids := state.publishedIds + [item.id];
      if |ids| > REMEMBERED { ids := ids[|ids| - REMEMBERED..]; }
      state := state.(publishedIds := ids);
      if state.thread.None? || !Alive(state, state.thread.value) {
        state := state.(thread := Some(spawned), threads := state.threads[spawned := Looping]);
      }
      return Ok(true);
    }

    // One pass of the drainer through the lock; it ends when it finds the queue empty.
    method TakeItem(t: ThreadId) returns (item: Option<Notification>)
      requires t in state.threads && state.threads[t].Looping?
      modifies this
      ensures state == TakeStep(old(state), t)
      ensures item == if old(state).queue == [] then None else Some(old(state).queue[0])
    {
      if state.queue == [] {
        state := state.(thread := None, threads := state.threads[t := Ended]);
        return None;
      }
      item := Some(state.queue[0]);
      state := state.(queue := state.queue[1..], taken := state.taken + [item.value],
                      threads := state.threads[t := Delivering(item.value)]);
    }

    // The drainer left to itself delivers the whole queue in order and retires.
    method Drain(t: ThreadId)
      requires t in state.threads && state.threads[t].Looping?
      modifies this
      ensures state.queue == [] && state.thread == None
      ensures state.threads == old(state).threads[t := Ended]
      ensures state.delivered == old(state).delivered + old(state).queue
      ensures state.taken == old(state).taken + old(state).queue
      ensures state.accepted == old(state).accepted && state.publishedIds == old(state).publishedIds
    {
      ghost var before := state;
      ghost var q := state.queue;
      ghost var n := 0;
      var item := TakeItem(t);
      while item.Some?
        invariant n <= |q| && (item.Some? <==> n < |q|)
        invariant state == Drained(before, t, n)
        invariant item.Some? ==> item.value == q[n]
        decreases |q| - n
      {
        state := DeliverStep(state, t);
        DrainedNext(before, t, n);
        item := TakeItem(t);
        n := n + 1;
      }
    }
  }

  // The state in which the drainer has delivered n items, and has taken the next one or retired.
  ghost function Drained(s: State, t: ThreadId, n: nat): State
    requires n <= |s.queue|
  {
    var rest := s.queue[n..];
    if rest == [] then
      s.(queue := [], thread := None, threads := s.threads[t := Ended], taken := s.taken + s.queue,
         delivered := s.delivered + s.queue)
    else
      s.(queue := rest[1..], threads := s.threads[t := Delivering(rest[0])], taken := s.taken + s.queue[..n + 1],
         delivered := s.delivered + s.queue[..n])
  }

  // Delivering that item and going through the lock again.
  lemma DrainedNext(s: State, t: ThreadId, n: nat)
    requires n < |s.queue|
    ensures TakeStep(DeliverStep(Drained(s, t, n), t), t) == Drained(s, t, n + 1)
  {
    var q := s.queue;
    var delivered := s.delivered + q[..n + 1];
    assert q[..n] + [q[n]] == q[..n + 1];
    assert DeliverStep(Drained(s, t, n), t).delivered == delivered;
    if n + 1 < |q| {
      assert q[n + 1..] == q[n..][1..] && q[..n + 1] + [q[n + 1]] == q[..n + 2];
    } else {
      assert q[..n + 1] == q;
    }
  }

  // --------------------------------------------------------------- invariants

  // Ids of a sequence of items, in order.
  function Ids(items: seq<Notification>): seq<string> { seq(|items|, i requires 0 <= i < |items| => items[i].id) }

  // Holds whatever deliveries do: one living drainer at most, first in first out, exact memory.
  ghost predicate Inv(s: State) {
    && s.accepted == s.taken + s.queue
    && |s.queue| <= CAPACITY
    && s.publishedIds == LastN(Ids(s.accepted), REMEMBERED)
    && (forall t: ThreadId :: Alive(s, t) ==> s.thread == Some(t))
    && (s.thread.Some? ==> s.thread.value in s.threads)
  }

  // Holds as long as no delivery raises.
  ghost predicate NothingStranded(s: State) {
    && (s.thread.Some? ==> Draining(s))
    && (s.queue != [] ==> Draining(s))
    && s.taken == s.delivered + InFlight(s)
  }

  function InFlight(s: State): seq<Notification> {
    if Draining(s) && s.threads[s.thread.value].Delivering? then [s.threads[s.thread.value].item] else []
  }

  lemma AcceptRemembers(s: State, item: Notification)
    requires s.publishedIds == LastN(Ids(s.accepted), REMEMBERED)
    ensures LastN(s.publishedIds + [item.id], REMEMBERED) == LastN(Ids(s.accepted + [item]), REMEMBERED)
  {
    LastNAppend(Ids(s.accepted), item.id, REMEMBERED);
    assert Ids(s.accepted + [item]) == Ids(s.accepted) + [item.id];
  }

  lemma StepInv(s: State, e: Event)
    requires Inv(s) && Enabled(s, e)
    ensures Inv(Step(s, e))
    ensures NothingStranded(s) && !e.Raise? ==> NothingStranded(Step(s, e))
  {
    if e.Publish? {
      if Validated(e.payload).Some? { AcceptRemembers(s, Validated(e.payload).value); }
    } else if e.t in s.threads && !s.threads[e.t].Ended? {
      assert Alive(s, e.t) && s.thread == Some(e.t);
      if e.Take? && s.queue != [] { assert s.queue == [s.queue[0]] + s.queue[1..]; }
    }
  }

  lemma PossiblePrefix(s: State, events: seq<Event>)
    requires Possible(s, events) && events != []
    ensures Possible(s, events[..|events| - 1]) && Enabled(Run(s, events[..|events| - 1]), events[|events| - 1])
  {
    var shorter := events[..|events| - 1];
    forall k | 0 <= k < |shorter| ensures Enabled(Run(s, shorter[..k]), shorter[k]) {
      assert shorter[..k] == events[..k];
    }
  }

  // In every interleaving items leave the queue once each, in the order they were accepted, by a
  // single living drainer; without a raising delivery a waiting item always has one.
  lemma {:induction false} EveryInterleavingIsSafe(events: seq<Event>)
    requires Possible(START, events)
    ensures Inv(Run(START, events))
    ensures (forall e :: e in events ==> !e.Raise?) ==> NothingStranded(Run(START, events))
  {
    if events != [] {
      PossiblePrefix(START, events);
      EveryInterleavingIsSafe(events[..|events| - 1]);
      StepInv(Run(START, events[..|events| - 1]), events[|events| - 1]);
    }
  }

  lemma AtMostOneDrainer(events: seq<Event>, a: ThreadId, b: ThreadId)
    requires Possible(START, events) && Alive(Run(START, events), a) && Alive(Run(START, events), b)
    ensures a == b
  {
    EveryInterleavingIsSafe(events);
    assert Some(a) == Run(START, events).thread == Some(b);
  }

  // An item whose id is among the last 256 accepted is not accepted again.
  lemma RecentIdsAreRefused(events: seq<Event>, payload: Payload, spawned: ThreadId, i: nat)
    requires Possible(START, events) && Validated(payload).Some?
    requires var a := Run(START, events).accepted;
             |a| - REMEMBERED <= i < |a| && a[i].id == Validated(payload).value.id
    ensures PublishStep(Run(START, events), payload, spawned) == Run(START, events)
  {
    var item := Validated(payload).value;
    EveryInterleavingIsSafe(events);
    var s := Run(START, events);
    var ids := Ids(s.accepted);
    assert ids[i] == item.id;
    var k := if |ids| <= REMEMBERED then i else i - (|ids| - REMEMBERED);
    assert s.publishedIds[k] == item.id;
  }

  // A payload is taken in exactly when it has an id, a known type and a message, its id, cut to 160
  // characters, is not among the last 256 accepted, and fewer than 100 items wait.
  lemma TakenInExactly(events: seq<Event>, payload: Payload, spawned: ThreadId)
    requires Possible(START, events)
    ensures var s := Run(START, events);
            var a := s.accepted;
            var id := if |payload.id| > 160 then payload.id[..160] else payload.id;
            PublishStep(s, payload, spawned) != s <==>
              && payload.id != "" && payload.kind.Some? && payload.message != ""
              && (forall i :: 0 <= i < |a| && |a| - 256 <= i ==> a[i].id != id)
              && |s.queue| < 100
    ensures var s := Run(START, events);
            var after := PublishStep(s, payload, spawned);
            after != s ==>
              && after.queue == s.queue + [AsSent(payload)] && after.accepted == s.accepted + [AsSent(payload)]
              && after.taken == s.taken && after.delivered == s.delivered
  {
    EveryInterleavingIsSafe(events);
    var s := Run(START, events);
    if Validated(payload).Some? {
      var item := Validated(payload).value;
      RememberedExactly(s, item.id);
      if Accepts(s, item) { assert |PublishStep(s, payload, spawned).queue| == |s.queue| + 1; }
    }
  }

  // The item a payload becomes: id and message as far as they are sent.
  function AsSent(p: Payload): Notification {
    Notification(if |p.id| > 160 then p.id[..160] else p.id, if p.kind.Some? then p.kind.value else Information,
                 if |p.message| > 1000 then p.message[..1000] else p.message)
  }

  lemma RememberedExactly(s: State, id: string)
    requires Inv(s)
    ensures id in s.publishedIds <==> exists i :: 0 <= i < |s.accepted| && |s.accepted| - 256 <= i && s.accepted[i].id == id
  {
    var ids := Ids(s.accepted);
    var k := |ids| - |s.publishedIds|;
    if id in s.publishedIds {
      var j :| 0 <= j < |s.publishedIds| && s.publishedIds[j] == id;
      assert s.accepted[k + j].id == id;
    }
    if i :| 0 <= i < |s.accepted| && |s.accepted| - 256 <= i && s.accepted[i].id == id {
      assert s.publishedIds[i - k] == ids[i];
    }
  }

  // ----------------------------------------------------- raising deliveries

  // A queue whose drainer's delivery raised waits for the next accepted item, which starts a new
  // drainer.
  lemma NextAcceptedItemRevives(s: State, payload: Payload, spawned: ThreadId)
    requires Inv(s) && spawned !in s.threads && Validated(payload).Some?
    ensures Accepts(s, Validated(payload).value) <==> PublishStep(s, payload, spawned) != s
    ensures Accepts(s, Validated(payload).value) ==> Draining(PublishStep(s, payload, spawned))
  {
    if Accepts(s, Validated(payload).value) { assert |PublishStep(s, payload, spawned).queue| == |s.queue| + 1; }
  }

  // Payloads the source accepts, told apart by short numbers.
  function Numbered(k: nat): Payload { Payload(Decimal(k), Some(Information), "Alert") }

  lemma NumberedIsValid(k: nat)
    requires k < 1000
    ensures Validated(Numbered(k)) == Some(Notification(Decimal(k), Information, "Alert"))
  {
    DecimalDigits(k);
    if k >= 10 {
      DecimalDigits(k / 10);
      if k >= 100 { DecimalDigits(k / 10 / 10); }
    }
    assert |Decimal(k)| <= 3;
  }

  lemma NumbersDiffer(a: nat, b: nat)
    ensures Decimal(a) == Decimal(b) <==> a == b
  {
    ParseDecimal(a);
    ParseDecimal(b);
  }

  // The source lets a full queue refuse an item before it looks at its drainer: once the drainer
  // of a full queue has died, no event ever changes anything again.
  lemma {:induction false} FullQueueStaysStranded(s: State, events: seq<Event>)
    requires Inv(s) && !Draining(s) && |s.queue| == CAPACITY
    ensures Run(s, events) == s
  {
    if events != [] {
      FullQueueStaysStranded(s, events[..|events| - 1]);
      var e := events[|events| - 1];
      if e.Take? { assert !Alive(s, e.t); }
      if e.Deliver? { assert !Alive(s, e.t); }
      if e.Raise? { assert !Alive(s, e.t); }
    }
  }

  lemma PossibleThen(s: State, events: seq<Event>, e: Event)
    requires Possible(s, events) && Enabled(Run(s, events), e)
    ensures Possible(s, events + [e]) && Run(s, events + [e]) == Step(Run(s, events), e)
  {
    var longer := events + [e];
    assert longer[..|events|] == events;
    forall k | 0 <= k < |longer| ensures Enabled(Run(s, longer[..k]), longer[k]) {
      if k < |events| { assert longer[..k] == events[..k]; }
    }
  }

  // The drainer holds one item, n more wait behind it, and no number above n was published.
  ghost predicate Behind(s: State, n: nat) {
    && Inv(s) && |s.queue| == n && s.threads.Keys == {0} && s.threads[0].Delivering?
    && (forall m: nat :: m > n ==> Decimal(m) !in s.publishedIds)
  }

  lemma OneMoreBehind(s: State, n: nat)
    requires n < CAPACITY && Behind(s, n)
    ensures Behind(PublishStep(s, Numbered(n + 1), 1), n + 1)
  {
    NumberedIsValid(n + 1);
    assert Alive(s, 0);
    StepInv(s, Publish(Numbered(n + 1), 1));
    forall m: nat | m > n + 1 ensures Decimal(m) !in PublishStep(s, Numbered(n + 1), 1).publishedIds {
      NumbersDiffer(m, n + 1);
    }
  }

  // The first item is published and taken.
  lemma FirstTaken() returns (events: seq<Event>)
    ensures Possible(START, events)
    ensures Run(START, events) == TakeStep(PublishStep(START, Numbered(0), 0), 0)
  {
    var first := Publish(Numbered(0), 0);
    PossibleThen(START, [], first);
    events := [] + [first];
    PossibleThen(START, events, Take(0));
    events := events + [Take(0)];
  }

  lemma NothingBehind()
    ensures Behind(TakeStep(PublishStep(START, Numbered(0), 0), 0), 0)
  {
    NumberedIsValid(0);
    assert Inv(START);
    StepInv(START, Publish(Numbered(0), 0));
    StepInv(PublishStep(START, Numbered(0), 0), Take(0));
    forall m: nat | m > 0 ensures Decimal(m) !in [Decimal(0)] { NumbersDiffer(m, 0); }
  }

  lemma {:induction false} FillBehindDelivery(n: nat) returns (events: seq<Event>)
    requires n <= CAPACITY
    ensures Possible(START, events) && Behind(Run(START, events), n)
  {
    if n == 0 {
      events := FirstTaken();
      NothingBehind();
    } else {
      var before := FillBehindDelivery(n - 1);
      var next := Publish(Numbered(n), 1);
      PossibleThen(START, before, next);
      OneMoreBehind(Run(START, before), n - 1);
      events := before + [next];
    }
  }

  // The stranded state is reached: the drainer fails on its first item with the queue full.
  lemma QueueCanBeStranded() returns (events: seq<Event>)
    ensures Possible(START, events)
    ensures |Run(START, events).queue| == CAPACITY && !Draining(Run(START, events))
    ensures forall more :: Run(Run(START, events), more) == Run(START, events)
  {
    var before := FillBehindDelivery(CAPACITY);
    PossibleThen(START, before, Raise(0));
    events := before + [Raise(0)];
    EveryInterleavingIsSafe(events);
    forall more ensures Run(Run(START, events), more) == Run(START, events) {
      FullQueueStaysStranded(Run(START, events), more);
    }
  }

  // A waiting queue can be revived exactly when it is not full.
  lemma RevivableIffNotFull(s: State)
    requires Inv(s) && !Draining(s)
    ensures (exists events :: Possible(s, events) && Draining(Run(s, events))) <==> |s.queue| < CAPACITY
  {
    if |s.queue| < CAPACITY {
      var k := UnusedNumber(s.publishedIds, REMEMBERED);
      var spawned := AboveAll(s.threads.Keys);
      var events := [Publish(Numbered(k), spawned)];
      assert events[..0] == [] && events[..|events| - 1] == [];
      assert Possible(s, events);
      NumberedIsValid(k);
      NextAcceptedItemRevives(s, Numbered(k), spawned);
      assert Draining(Run(s, events));
    } else {
      forall events: seq<Event> | Possible(s, events) ensures !Draining(Run(s, events)) {
        FullQueueStaysStranded(s, events);
      }
    }
  }

  // Among n + 1 numbers one is not in a list of n texts.
  lemma {:induction false} UnusedNumber(ids: seq<string>, n: nat) returns (k: nat)
    requires |ids| <= n
    ensures k <= n && Decimal(k) !in ids
  {
    k := n;
    if Decimal(n) in ids {
      var i :| 0 <= i < |ids| && ids[i] == Decimal(n);
      var others := ids[..i] + ids[i + 1..];
      k := UnusedNumber(others, n - 1);
      NumbersDiffer(k, n);
      forall j | 0 <= j < |ids| ensures ids[j] != Decimal(k) {
        if j < i { assert ids[j] == others[j]; }
        if j > i { assert ids[j] == others[j - 1]; }
      }
    }
  }

  lemma {:induction false} AboveAll(used: set<ThreadId>) returns (t: ThreadId)
    ensures forall u :: u in used ==> u < t
  {
    t := 0;
    if used != {} {
      var u :| u in used;
      var v := AboveAll(used - {u});
      t := Max(v, u + 1);
      forall w | w in used ensures w < t {
        if w != u { assert w in used - {u}; }
      }
    }
  }
}
