/** The two bounded hand-off queues: arriving MQTT messages to the subscribe worker
    (src/mqtt.cpp:162-187 and 448-482) and messages to the webhook worker
    (src/webhook.cpp:35-116).  They differ in one point: the webhook looks at
    `running_` before it takes the lock and ignores messages once that is false.
    Whether stop() returns is the subject of StopRace. */
module HandOff {
  import opened Text

  datatype Message = Message(topic: string, payload: string, retained: bool)

  datatype Worker = Top | Waiting | Busy(id: nat) | Returned

  // Messages are named by their place in the order of arrival.
  datatype State = State(
    running: bool,
    queue: seq<nat>,
    worker: Worker,
    arrivals: seq<Message>,
    pending: Option<nat>,   // arrived and counted, the queue's lock not yet taken
    handled: seq<nat>,
    dropped: seq<nat>,
    ignored: seq<nat>,
    delivered: nat,
    failed: nat)

  datatype Event =
    | Arrives(m: Message)
    | Enqueues
    | WorkerLoops
    | WorkerWakes
    | WorkerHandles(success: bool)
    | Stops

  // The capacity, and whether a message is looked at only while running.
  datatype Kind = Kind(bound: nat, checksRunning: bool)

  const START := State(true, [], Top, [], None, [], [], [], 0, 0)

  predicate Enabled(s: State, e: Event) {
    match e
    case Arrives(_) => s.pending == None
    case Enqueues => s.pending.Some?
    case WorkerLoops => s.worker == Top
    case WorkerWakes => s.worker == Waiting && (!s.running || s.queue != [])
    case WorkerHandles(_) => s.worker.Busy?
    case Stops => true
  }

  function Step(k: Kind, s: State, e: Event): State
    requires Enabled(s, e)
  {
    match e
    case Arrives(m) =>
      var id := |s.arrivals|;
      if k.checksRunning && !s.running then s.(arrivals := s.arrivals + [m], ignored := s.ignored + [id])
      else s.(arrivals := s.arrivals + [m], pending := Some(id))
    case Enqueues =>
      if |s.queue| >= k.bound then s.(pending := None, dropped := s.dropped + [s.pending.value])
      else s.(pending := None, queue := s.queue + [s.pending.value])
    case WorkerLoops => s.(worker := if s.running then Waiting else Returned)
    case WorkerWakes =>
      if s.queue == [] then s.(worker := Returned)
      else s.(worker := Busy(s.queue[0]), queue := s.queue[1..])
    case WorkerHandles(success) =>
      s.(worker := Top, handled := s.handled + [s.worker.id],
         delivered := s.delivered + (if success then 1 else 0), failed := s.failed + (if success then 0 else 1))
    case Stops => s.(running := false)
  }

  // ----- what every step keeps ------------------------------------------------

  function InHand(s: State): seq<nat> {
    if s.worker.Busy? then [s.worker.id] else []
  }

  function Pending(s: State): seq<nat> {
    if s.pending.Some? then [s.pending.value] else []
  }

  // What was put in the queue, in that order: handled, in hand, still queued.
  function Accepted(s: State): seq<nat> {
    s.handled + InHand(s) + s.queue
  }

  predicate Increasing(xs: seq<nat>, below: nat) {
    && (forall i, j :: 0 <= i < j < |xs| ==> xs[i] < xs[j])
    && (forall i :: 0 <= i < |xs| ==> xs[i] < below)
  }

  function One(b: bool): nat {
    if b then 1 else 0
  }

  // In how many places message i is.
  function Places(s: State, i: nat): nat {
    One(i in s.handled) + One(i in InHand(s)) + One(i in s.queue) + One(i in Pending(s)) + One(i in s.dropped) +
    One(i in s.ignored)
  }

  // What was accepted, dropped and ignored is in the order of arrival.
  predicate Ordered(s: State) {
    var n := |s.arrivals|;
    Increasing(Accepted(s) + Pending(s), n) && Increasing(s.dropped + Pending(s), n) && Increasing(s.ignored, n)
  }

  predicate Inv(k: Kind, s: State) {
    var n := |s.arrivals|;
    && Ordered(s)
    && (forall i :: 0 <= i < n ==> Places(s, i) == 1)
    && n == |Accepted(s)| + |Pending(s)| + |s.dropped| + |s.ignored|
    && s.delivered + s.failed == |s.handled|
    && |s.queue| <= k.bound
    && (s.pending.Some? ==> s.pending.value + 1 == n)
  }

  lemma ArrivesSequences(k: Kind, s: State, m: Message)
    requires Enabled(s, Arrives(m))
    ensures
      var t := Step(k, s, Arrives(m));
      var more := if t.pending.Some? then [|s.arrivals|] else [];
      && Accepted(t) + Pending(t) == (Accepted(s) + Pending(s)) + more
      && t.dropped + Pending(t) == (s.dropped + Pending(s)) + more
  {
  }

  lemma EnqueuesSequences(k: Kind, s: State)
    requires Enabled(s, Enqueues)
    ensures
      var t := Step(k, s, Enqueues);
      var a, d := Accepted(s) + Pending(s), s.dropped + Pending(s);
      && (Accepted(t) + Pending(t) == a || Accepted(t) + Pending(t) == a[..|a| - 1])
      && (t.dropped + Pending(t) == d || t.dropped + Pending(t) == d[..|d| - 1])
  {
    var t := Step(k, s, Enqueues);
    var a, d := Accepted(s) + Pending(s), s.dropped + Pending(s);
    if |s.queue| >= k.bound {
      assert Accepted(t) + Pending(t) == a[..|a| - 1];
    } else {
      assert t.dropped + Pending(t) == d[..|d| - 1];
    }
  }

  lemma WorkerSequences(k: Kind, s: State, e: Event)
    requires Enabled(s, e) && !e.Arrives? && !e.Enqueues?
    ensures Accepted(Step(k, s, e)) == Accepted(s)
  {
    if e.WorkerWakes? && s.queue != [] {
      assert s.queue == [s.queue[0]] + s.queue[1..];
    }
  }

  lemma OrderStep(k: Kind, s: State, e: Event)
    requires Ordered(s) && Enabled(s, e)
    ensures Ordered(Step(k, s, e))
  {
    hide *;
    if e.Arrives? {
      ArrivesInOrder(k, s, e.m);
    } else if e.Enqueues? {
      EnqueuesInOrder(k, s);
    } else {
      WorksInOrder(k, s, e);
    }
  }

  lemma ArrivesInOrder(k: Kind, s: State, m: Message)
    requires Ordered(s) && Enabled(s, Arrives(m))
    ensures Ordered(Step(k, s, Arrives(m)))
  {
    ArrivesSequences(k, s, m);
    hide Accepted;
    hide Pending;
    hide Increasing;
    var n := |s.arrivals|;
    var a, d := Accepted(s) + Pending(s), s.dropped + Pending(s);
    OneMoreIncreasing(a, n);
    OneMoreIncreasing(d, n);
    OneMoreIncreasing(s.ignored, n);
    assert a + [] == a && d + [] == d;
  }

  lemma EnqueuesInOrder(k: Kind, s: State)
    requires Ordered(s) && Enabled(s, Enqueues)
    ensures Ordered(Step(k, s, Enqueues))
  {
    EnqueuesSequences(k, s);
    var n := |s.arrivals|;
    var a, d := Accepted(s) + Pending(s), s.dropped + Pending(s);
    assert |a| > 0 && |d| > 0;
    hide Accepted;
    hide Pending;
    hide Increasing;
    StartsIncreasing(a, a[..|a| - 1], n);
    StartsIncreasing(d, d[..|d| - 1], n);
  }

  lemma WorksInOrder(k: Kind, s: State, e: Event)
    requires Ordered(s) && Enabled(s, e) && !e.Arrives? && !e.Enqueues?
    ensures Ordered(Step(k, s, e))
  {
    WorkerSequences(k, s, e);
    hide Accepted;
    hide Increasing;
  }

  lemma StartsIncreasing(xs: seq<nat>, ys: seq<nat>, n: nat)
    requires Increasing(xs, n) && ys <= xs
    ensures Increasing(ys, n)
  {
    assert forall i :: 0 <= i < |ys| ==> ys[i] == xs[i];
  }

  lemma OneMoreIncreasing(xs: seq<nat>, n: nat)
    requires Increasing(xs, n)
    ensures Increasing(xs, n + 1) && Increasing(xs + [n], n + 1)
  {
  }

  lemma PlacesStep(k: Kind, s: State, e: Event, i: nat)
    requires Inv(k, s) && Enabled(s, e) && i < |Step(k, s, e).arrivals|
    ensures Places(Step(k, s, e), i) == 1
  {
    hide *;
    match e
    case Arrives(m) => PlacesOfArrival(k, s, m, i);
    case Enqueues =>
      PlacedOnce(k, s, e, i);
      PlacesMoved(k, s, e, i);
    case WorkerWakes =>
      PlacedOnce(k, s, e, i);
      PlacesTaken(k, s, i);
    case _ =>
      PlacedOnce(k, s, e, i);
      PlacesMoved(k, s, e, i);
  }

  lemma PlacedOnce(k: Kind, s: State, e: Event, i: nat)
    requires Inv(k, s) && Enabled(s, e) && !e.Arrives? && i < |Step(k, s, e).arrivals|
    ensures Places(s, i) == 1
  {
    hide Places;
    hide Ordered;
  }

  lemma PlacesOfArrival(k: Kind, s: State, m: Message, i: nat)
    requires Inv(k, s) && Enabled(s, Arrives(m)) && i < |Step(k, s, Arrives(m)).arrivals|
    ensures Places(Step(k, s, Arrives(m)), i) == 1
  {
    if i == |s.arrivals| {
      NotYetArrived(s, k);
    } else {
      assert Places(s, i) == 1;
    }
    hide Ordered;
  }

  lemma PlacesMoved(k: Kind, s: State, e: Event, i: nat)
    requires Enabled(s, e) && !e.Arrives? && !e.WorkerWakes? && Places(s, i) == 1
    ensures Places(Step(k, s, e), i) == 1
  {
  }

  lemma PlacesTaken(k: Kind, s: State, i: nat)
    requires Inv(k, s) && Enabled(s, WorkerWakes)
    ensures Places(Step(k, s, WorkerWakes), i) == Places(s, i)
  {
    if s.queue != [] {
      FirstIsNotLater(k, s);
      assert s.queue == [s.queue[0]] + s.queue[1..];
    }
    hide Inv;
  }

  lemma FirstIsNotLater(k: Kind, s: State)
    requires Inv(k, s) && s.queue != []
    ensures s.queue[0] !in s.queue[1..]
  {
    hide Places;
    var a := Accepted(s) + Pending(s);
    var b := |s.handled + InHand(s)|;
    forall j | 1 <= j < |s.queue| ensures s.queue[0] != s.queue[j] {
      assert a[b] == s.queue[0] && a[b + j] == s.queue[j];
    }
  }

  lemma NotYetArrived(s: State, k: Kind)
    requires Inv(k, s)
    ensures Places(s, |s.arrivals|) == 0
  {
    var n := |s.arrivals|;
    var a := Accepted(s) + Pending(s);
    forall j | 0 <= j < |s.handled| ensures s.handled[j] < n {
      assert a[j] == s.handled[j];
    }
    forall j | 0 <= j < |InHand(s)| ensures InHand(s)[j] < n {
      assert a[|s.handled| + j] == InHand(s)[j];
    }
    forall j | 0 <= j < |s.queue| ensures s.queue[j] < n {
      assert a[|s.handled + InHand(s)| + j] == s.queue[j];
    }
    forall j | 0 <= j < |Pending(s)| ensures Pending(s)[j] < n {
      assert a[|Accepted(s)| + j] == Pending(s)[j];
    }
    forall j | 0 <= j < |s.dropped| ensures s.dropped[j] < n {
      assert (s.dropped + Pending(s))[j] == s.dropped[j];
    }
  }

  lemma InvStep(k: Kind, s: State, e: Event)
    requires Inv(k, s) && Enabled(s, e)
    ensures Inv(k, Step(k, s, e))
  {
    hide Places;
    hide Increasing;
    var t := Step(k, s, e);
    OrderStep(k, s, e);
    hide Ordered;
    forall i | 0 <= i < |t.arrivals| ensures Places(t, i) == 1 {
      PlacesStep(k, s, e, i);
    }
  }

  predicate Legal(k: Kind, s: State, es: seq<Event>)
    decreases |es|
  {
    es == [] || (Enabled(s, es[0]) && Legal(k, Step(k, s, es[0]), es[1..]))
  }

  function Run(k: Kind, s: State, es: seq<Event>): State
    requires Legal(k, s, es)
    decreases |es|
  {
    if es == [] then s else Run(k, Step(k, s, es[0]), es[1..])
  }

  lemma {:induction false} RunInv(k: Kind, s: State, es: seq<Event>)
    requires Inv(k, s) && Legal(k, s, es)
    ensures Inv(k, Run(k, s, es))
    decreases |es|
  {
    hide Inv;
    hide Step;
    hide Enabled;
    if es != [] {
      InvStep(k, s, es[0]);
      RunInv(k, Step(k, s, es[0]), es[1..]);
    }
  }

  // In every interleaving the messages handled are, in order, some of those that
  // arrived, none of them twice; the queue keeps its bound; and every message that
  // arrived is in exactly one place.
  lemma HandledInOrder(k: Kind, es: seq<Event>)
    requires Legal(k, START, es)
    ensures
      var s := Run(k, START, es);
      && Increasing(s.handled, |s.arrivals|) && |s.queue| <= k.bound
      && (forall i :: 0 <= i < |s.arrivals| ==> Places(s, i) == 1)
      && |s.arrivals| == |s.handled| + |InHand(s)| + |s.queue| + |Pending(s)| + |s.dropped| + |s.ignored|
      && s.delivered + s.failed == |s.handled|
      && (!k.checksRunning ==> s.ignored == [])
  {
    assert Inv(k, START);
    RunInv(k, START, es);
    if !k.checksRunning {
      IgnoredOnlyIfChecked(k, START, es);
    }
    hide Run;
    hide Legal;
    hide Inv;
    HandledIsFirst(k, Run(k, START, es));
  }

  lemma HandledIsFirst(k: Kind, s: State)
    requires Inv(k, s)
    ensures Increasing(s.handled, |s.arrivals|) && |s.queue| <= k.bound
    ensures forall i :: 0 <= i < |s.arrivals| ==> Places(s, i) == 1
    ensures |s.arrivals| == |s.handled| + |InHand(s)| + |s.queue| + |Pending(s)| + |s.dropped| + |s.ignored|
    ensures s.delivered + s.failed == |s.handled|
  {
    hide Places;
    hide Increasing;
    StartsIncreasing(Accepted(s) + Pending(s), s.handled, |s.arrivals|);
  }

  lemma {:induction false} IgnoredOnlyIfChecked(k: Kind, s: State, es: seq<Event>)
    requires Legal(k, s, es) && !k.checksRunning
    ensures Run(k, s, es).ignored == s.ignored
    decreases |es|
  {
    if es != [] {
      IgnoredOnlyIfChecked(k, Step(k, s, es[0]), es[1..]);
    }
  }

  // The messages that arrived, in order.
  function Messages(es: seq<Event>): seq<Message> {
    if es == [] then [] else (if es[0].Arrives? then [es[0].m] else []) + Messages(es[1..])
  }

  lemma {:induction false} ArrivalsRun(k: Kind, s: State, es: seq<Event>)
    requires Legal(k, s, es)
    ensures
      var t := Run(k, s, es);
      && t.arrivals == s.arrivals + Messages(es)
      && (t.running <==> s.running && Stops !in es)
      && ((s.worker == Returned ==> !s.running) ==> (t.worker == Returned ==> !t.running))
    decreases |es|
  {
    if es != [] {
      ArrivalsRun(k, Step(k, s, es[0]), es[1..]);
      assert Stops in es <==> es[0] == Stops || Stops in es[1..];
    }
  }

  // In every interleaving: message i is the i-th that arrived; it is dropped exactly
  // when the queue is as long as it may be, ignored exactly after stop() by a queue that
  // looks, and queued behind the others otherwise; and the worker goes on as long as
  // there is a message or until stop(), and then returns.
  lemma ArrivalsAreKept(k: Kind, es: seq<Event>)
    requires Legal(k, START, es)
    ensures
      var s := Run(k, START, es);
      && s.arrivals == Messages(es)
      && (s.worker == Returned ==> Stops in es) && (s.running <==> Stops !in es)
      && Enabled(s, Stops) && !Step(k, s, Stops).running
      && (s.worker != Returned && (s.queue != [] || Stops in es) ==>
            exists e :: (e == WorkerLoops || e == WorkerWakes || e.WorkerHandles?) && Enabled(s, e))
      && (Enabled(s, Enqueues) ==>
            var t, i := Step(k, s, Enqueues), s.pending.value;
            if |s.queue| == k.bound then t.dropped == s.dropped + [i] && t.queue == s.queue
            else t.queue == s.queue + [i] && t.dropped == s.dropped)
      && (forall m :: Enabled(s, Arrives(m)) ==>
            var t, i := Step(k, s, Arrives(m)), |Messages(es)|;
            if k.checksRunning && Stops in es then t.ignored == s.ignored + [i] && t.pending == None
            else t.ignored == s.ignored && t.pending == Some(i))
  {
    ArrivalsRun(k, START, es);
    HandledInOrder(k, es);
    hide Run;
    hide Legal;
    hide Messages;
    hide Places;
    hide Increasing;
    var s := Run(k, START, es);
    if s.worker != Returned && (s.queue != [] || Stops in es) {
      var e := match s.worker
        case Top => WorkerLoops
        case Waiting => WorkerWakes
        case _ => WorkerHandles(true);
      assert Enabled(s, e);
    }
  }

  // ----- the object of the source ---------------------------------------------

  class HandOffQueue {
    const kind: Kind
    var running: bool
    var queue: seq<nat>
    var worker: Worker
    var arrivals: seq<Message>
    var pending: Option<nat>
    var handled: seq<nat>
    var dropped: seq<nat>
    var ignored: seq<nat>
    var delivered: nat
    var failed: nat

    function S(): State
      reads this
    {
      State(running, queue, worker, arrivals, pending, handled, dropped, ignored, delivered, failed)
    }

    constructor (kind: Kind)
      ensures this.kind == kind && S() == START
    {
      this.kind := kind;
      running, queue, worker, arrivals, pending := true, [], Top, [], None;
      handled, dropped, ignored, delivered, failed := [], [], [], 0, 0;
    }

    // on_message_arrived / enqueue before the lock.
    method Arrive(m: Message)
      requires Enabled(S(), Arrives(m))
      modifies this
      ensures S() == Step(kind, old(S()), Arrives(m))
    {
      var id := |arrivals|;
      arrivals := arrivals + [m];
      if kind.checksRunning && !running {
        ignored := ignored + [id];
        return;
      }
      pending := Some(id);
    }

    // The critical section of on_message_arrived / enqueue.
    method EnqueueLocked()
      requires Enabled(S(), Enqueues)
      modifies this
      ensures S() == Step(kind, old(S()), Enqueues)
    {
      var id := pending.value;
      pending := None;
      if |queue| >= kind.bound {
        dropped := dropped + [id];
        return;
      }
      queue := queue + [id];
    }

    // A whole call of enqueue().
    method Enqueue(m: Message)
      requires Enabled(S(), Arrives(m))
      modifies this
      ensures
        var t := Step(kind, old(S()), Arrives(m));
        S() == if t.pending.Some? then Step(kind, t, Enqueues) else t
    {
      Arrive(m);
      if pending.Some? {
        EnqueueLocked();
      }
    }

    // The worker from the end of its wait to the end of its critical section.
    method TakeMessage() returns (m: Option<Message>)
      requires Enabled(S(), WorkerWakes) && forall k :: 0 <= k < |queue| ==> queue[k] < |arrivals|
      modifies this
      ensures S() == Step(kind, old(S()), WorkerWakes)
      ensures m == if old(queue) == [] then None else Some(arrivals[old(queue)[0]])
    {
      if queue == [] {
        worker := Returned;
        return None;
      }
      var id := queue[0];
      queue := queue[1..];
      worker := Busy(id);
      return Some(arrivals[id]);
    }

    method MessageHandled(success: bool)
      requires Enabled(S(), WorkerHandles(success))
      modifies this
      ensures S() == Step(kind, old(S()), WorkerHandles(success))
    {
      handled := handled + [worker.id];
      if success {
        delivered := delivered + 1;
      } else {
        failed := failed + 1;
      }
      worker := Top;
    }
  }
}
