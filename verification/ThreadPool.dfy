/** The HTTP worker pool: src/thread_pool.cpp.  The mutex and the condition variable
    are explicit: a step is one move of one thread, a critical section is entered
    only while the lock is free, waiting releases the lock, and a woken thread has
    to take the lock and look again.  Any thread may move at any time, and a blocked
    worker may wake without being notified. */
module ThreadPool {
  import opened Counting
  import opened Text

  // Where a worker is: it wants the lock, has it, sleeps on the condition variable,
  // is in the handler with the n-th connection submitted, or has returned.
  datatype Worker = Wanting | Inside | Blocked | Handling(id: nat) | Exited

  datatype Owner = Free | WorkerHas(w: nat) | SubmitHas(fd: int) | ShutdownHas

  // shutdown(): not called, stop_ set, all notified, the first n workers joined.
  datatype Shutdown = NotCalled | StopSet | Joining(joined: nat)

  // A submitted connection: the worker that took it, and how often it was handled
  // and closed by submit().
  datatype Submission = Submission(fd: int, taker: Option<nat>, handled: nat, closed: nat)

  datatype State = State(
    lock: Owner,
    stop: bool,
    queue: seq<nat>,
    subs: seq<Submission>,
    accepted: nat,      // submissions put in the queue so far
    notifies: nat,      // submits that have pushed but not yet notified
    workers: seq<Worker>,
    shutdown: Shutdown)

  datatype Event =
    | SubmitLocks(fd: int)
    | SubmitPushes
    | SubmitNotifies(w: nat)
    | SubmitNotifiesNobody
    | Locks(w: nat)
    | Looks(w: nat)
    | HandlerReturns(w: nat)
    | WakesUnasked(w: nat)
    | ShutdownLocks
    | ShutdownSetsStop
    | ShutdownNotifiesAll
    | Joins

  function Start(threads: nat): State {
    State(Free, false, [], [], 0, 0, seq(threads, _ => Wanting), NotCalled)
  }

  predicate WorkerIs(s: State, w: nat, x: Worker) {
    w < |s.workers| && s.workers[w] == x
  }

  predicate Enabled(s: State, e: Event) {
    match e
    case SubmitLocks(_) => s.lock == Free
    case SubmitPushes => s.lock.SubmitHas?
    case SubmitNotifies(w) => s.notifies > 0 && WorkerIs(s, w, Blocked)
    case SubmitNotifiesNobody => s.notifies > 0 && forall w :: 0 <= w < |s.workers| ==> s.workers[w] != Blocked
    case Locks(w) => s.lock == Free && WorkerIs(s, w, Wanting)
    case Looks(w) => WorkerIs(s, w, Inside)
    case HandlerReturns(w) => w < |s.workers| && s.workers[w].Handling? && s.workers[w].id < |s.subs|
    case WakesUnasked(w) => WorkerIs(s, w, Blocked)
    case ShutdownLocks => s.lock == Free && s.shutdown == NotCalled
    case ShutdownSetsStop => s.lock == ShutdownHas
    case ShutdownNotifiesAll => s.shutdown == StopSet
    case Joins => s.shutdown.Joining? && WorkerIs(s, s.shutdown.joined, Exited)
  }

  function SetWorker(s: State, w: nat, x: Worker): State
    requires w < |s.workers|
  {
    s.(workers := s.workers[w := x])
  }

  function Taken(subs: seq<Submission>, id: nat, w: nat): seq<Submission> {
    if id < |subs| then subs[id := subs[id].(taker := Some(w))] else subs
  }

  function Awake(x: Worker): Worker {
    if x == Blocked then Wanting else x
  }

  function Step(s: State, e: Event): State
    requires Enabled(s, e)
  {
    match e
    case SubmitLocks(fd) => s.(lock := SubmitHas(fd))
    case SubmitPushes =>
      if s.stop then s.(lock := Free, subs := s.subs + [Submission(s.lock.fd, None, 0, 1)])
      else s.(lock := Free, subs := s.subs + [Submission(s.lock.fd, None, 0, 0)], queue := s.queue + [|s.subs|],
              accepted := s.accepted + 1, notifies := s.notifies + 1)
    case SubmitNotifies(w) => SetWorker(s, w, Wanting).(notifies := s.notifies - 1)
    case SubmitNotifiesNobody => s.(notifies := s.notifies - 1)
    case Locks(w) => SetWorker(s, w, Inside).(lock := WorkerHas(w))
    case Looks(w) =>
      if !s.stop && s.queue == [] then SetWorker(s, w, Blocked).(lock := Free)
      else if s.queue == [] then SetWorker(s, w, Exited).(lock := Free)
      else SetWorker(s, w, Handling(s.queue[0])).(lock := Free, queue := s.queue[1..], subs := Taken(s.subs, s.queue[0], w))
    case HandlerReturns(w) =>
      var id := s.workers[w].id;
      SetWorker(s, w, Wanting).(subs := s.subs[id := s.subs[id].(handled := s.subs[id].handled + 1)])
    case WakesUnasked(w) => SetWorker(s, w, Wanting)
    case ShutdownLocks => s.(lock := ShutdownHas)
    case ShutdownSetsStop => s.(lock := Free, stop := true, shutdown := StopSet)
    case ShutdownNotifiesAll =>
      s.(workers := seq(|s.workers|, i requires 0 <= i < |s.workers| => Awake(s.workers[i])), shutdown := Joining(0))
    case Joins => s.(shutdown := Joining(s.shutdown.joined + 1))
  }

  // ----- what every step keeps ------------------------------------------------

  predicate LockInv(s: State) {
    && (forall w :: 0 <= w < |s.workers| ==> (s.workers[w] == Inside <==> s.lock == WorkerHas(w)))
    && (s.lock.WorkerHas? ==> s.lock.w < |s.workers|)
    && (s.lock == ShutdownHas ==> s.shutdown == NotCalled)
    && (s.stop <==> s.shutdown != NotCalled)
  }

  // Accepted submissions still in the queue are the youngest ones, oldest first; the
  // older ones have been taken, each by one worker that holds it until it has been
  // handled; those that came after stop_ were closed.
  predicate CustodyInv(s: State) {
    var taken := s.accepted - |s.queue|;
    && |s.queue| <= s.accepted <= |s.subs|
    && (!s.stop ==> s.accepted == |s.subs|)
    && (forall k :: 0 <= k < |s.queue| ==> s.queue[k] == taken + k)
    && (forall i :: s.accepted <= i < |s.subs| ==> s.subs[i].(fd := 0) == Submission(0, None, 0, 1))
    && (forall i :: taken <= i < s.accepted ==> s.subs[i].(fd := 0) == Submission(0, None, 0, 0))
    && (forall i :: 0 <= i < taken ==> TakenOnce(s, i))
    && (forall w :: 0 <= w < |s.workers| && s.workers[w].Handling? ==> Holds(s, w, taken))
  }

  predicate TakenOnce(s: State, i: nat)
    requires i < |s.subs|
  {
    var x := s.subs[i];
    x.closed == 0 && x.taker.Some? && x.handled <= 1 && (x.handled == 0 ==> WorkerIs(s, x.taker.value, Handling(i)))
  }

  predicate Holds(s: State, w: nat, taken: int)
    requires w < |s.workers| && s.workers[w].Handling? && taken <= |s.subs|
  {
    var id := s.workers[w].id;
    id < taken && s.subs[id].handled == 0 && s.subs[id].taker == Some(w)
  }

  predicate WillLook(x: Worker) {
    x == Wanting || x == Inside
  }

  predicate IsBlocked(x: Worker) {
    x == Blocked
  }

  // No lost wake-up: while some worker sleeps, every queued connection has a notify
  // on its way or a worker about to look at the queue.
  predicate WakeInv(s: State) {
    && (Tally(s.workers, IsBlocked) > 0 ==> |s.queue| <= s.notifies + Tally(s.workers, WillLook))
    && (s.shutdown.Joining? ==> Tally(s.workers, IsBlocked) == 0)
    && (forall w :: 0 <= w < |s.workers| && s.workers[w] == Exited ==> s.stop && s.queue == [])
    && (s.shutdown.Joining? ==> s.shutdown.joined <= |s.workers|)
    && (s.shutdown.Joining? ==> forall w :: 0 <= w < s.shutdown.joined ==> s.workers[w] == Exited)
  }

  predicate Inv(s: State) {
    LockInv(s) && CustodyInv(s) && WakeInv(s)
  }

  lemma StartInv(threads: nat)
    ensures Inv(Start(threads))
  {
    TallyZero(Start(threads).workers, IsBlocked);
  }

  lemma LockStep(s: State, e: Event)
    requires Inv(s) && Enabled(s, e)
    ensures LockInv(Step(s, e))
  {
  }

  lemma CustodyStep(s: State, e: Event)
    requires Inv(s) && Enabled(s, e)
    ensures CustodyInv(Step(s, e))
  {
    var s' := Step(s, e);
    var taken := s'.accepted - |s'.queue|;
    SubsStep(s, e);
    HoldsStep(s, e);
    hide TakenOnce;
    hide Inv;
    forall i | 0 <= i < taken ensures i < |s'.subs| && TakenOnce(s', i) {
      TakenStep(s, e, i);
    }
    hide Step;
    hide Holds;
  }

  lemma SubsStep(s: State, e: Event)
    requires Inv(s) && Enabled(s, e)
    ensures
      var t := Step(s, e);
      var taken := t.accepted - |t.queue|;
      && |t.queue| <= t.accepted <= |t.subs|
      && (!t.stop ==> t.accepted == |t.subs|)
      && (forall k :: 0 <= k < |t.queue| ==> t.queue[k] == taken + k)
      && (forall i :: t.accepted <= i < |t.subs| ==> t.subs[i].(fd := 0) == Submission(0, None, 0, 1))
      && (forall i :: taken <= i < t.accepted ==> t.subs[i].(fd := 0) == Submission(0, None, 0, 0))
  {
    hide TakenOnce;
    hide WakeInv;
    hide LockInv;
  }

  lemma HoldsStep(s: State, e: Event)
    requires Inv(s) && Enabled(s, e)
    ensures
      var t := Step(s, e);
      && t.accepted - |t.queue| <= |t.subs|
      && forall w :: 0 <= w < |t.workers| && t.workers[w].Handling? ==> Holds(t, w, t.accepted - |t.queue|)
  {
    hide TakenOnce;
    hide WakeInv;
    hide LockInv;
    var t := Step(s, e);
    SubsStep(s, e);
    forall w | 0 <= w < |t.workers| && t.workers[w].Handling? ensures Holds(t, w, t.accepted - |t.queue|) {
      assert s.workers[w].Handling? ==> Holds(s, w, s.accepted - |s.queue|);
    }
  }

  lemma TakenStep(s: State, e: Event, i: nat)
    requires Inv(s) && Enabled(s, e) && i < Step(s, e).accepted - |Step(s, e).queue|
    ensures i < |Step(s, e).subs| && TakenOnce(Step(s, e), i)
  {
    if i < s.accepted - |s.queue| {
      assert TakenOnce(s, i);
      var w := s.subs[i].taker.value;
      assert w < |s.workers| && s.workers[w].Handling? ==> Holds(s, w, s.accepted - |s.queue|);
    }
  }

  lemma WakeStep(s: State, e: Event)
    requires Inv(s) && Enabled(s, e)
    ensures WakeInv(Step(s, e))
  {
    match e
    case SubmitNotifies(w) => WorkerMoves(s, e, w, Wanting);
    case SubmitNotifiesNobody => TallyZero(s.workers, IsBlocked);
    case Locks(w) => WorkerMoves(s, e, w, Inside);
    case Looks(w) => LooksKeepsWakeInv(s, w);
    case HandlerReturns(w) => WorkerMoves(s, e, w, Wanting);
    case WakesUnasked(w) => WorkerMoves(s, e, w, Wanting);
    case ShutdownNotifiesAll =>
      TallyZero(Step(s, e).workers, IsBlocked);
    case _ =>
  }

  // A worker that starts to want the lock, or gets it.
  lemma WorkerMoves(s: State, e: Event, w: nat, x: Worker)
    requires Inv(s) && Enabled(s, e) && w < |s.workers| && WillLook(x)
    requires e in {SubmitNotifies(w), Locks(w), HandlerReturns(w), WakesUnasked(w)}
    requires Step(s, e).workers == s.workers[w := x]
    ensures WakeInv(Step(s, e))
  {
    WorkerTallies(s, w, x);
  }

  lemma LooksKeepsWakeInv(s: State, w: nat)
    requires Inv(s) && Enabled(s, Looks(w))
    ensures WakeInv(Step(s, Looks(w)))
  {
    var s' := Step(s, Looks(w));
    WorkerTallies(s, w, s'.workers[w]);
    assert s'.workers == s.workers[w := s'.workers[w]];
  }

  lemma WorkerTallies(s: State, w: nat, x: Worker)
    requires w < |s.workers|
    ensures Tally(s.workers[w := x], IsBlocked) ==
            Tally(s.workers, IsBlocked) - (if s.workers[w] == Blocked then 1 else 0) + (if x == Blocked then 1 else 0)
    ensures Tally(s.workers[w := x], WillLook) ==
            Tally(s.workers, WillLook) - (if WillLook(s.workers[w]) then 1 else 0) + (if WillLook(x) then 1 else 0)
  {
    TallyUpdate(s.workers, w, x, IsBlocked);
    TallyUpdate(s.workers, w, x, WillLook);
  }

  // ----- runs -----------------------------------------------------------------

  predicate Legal(s: State, es: seq<Event>)
    decreases |es|
  {
    es == [] || (Enabled(s, es[0]) && Legal(Step(s, es[0]), es[1..]))
  }

  function Run(s: State, es: seq<Event>): State
    requires Legal(s, es)
    decreases |es|
  {
    if es == [] then s else Run(Step(s, es[0]), es[1..])
  }

  lemma {:induction false} RunInv(s: State, es: seq<Event>)
    requires Inv(s) && Legal(s, es)
    ensures Inv(Run(s, es)) && |Run(s, es).workers| == |s.workers|
    decreases |es|
  {
    hide Step;
    hide Inv;
    if es != [] {
      InvStep(s, es[0]);
      SameWorkers(s, es[0]);
      RunInv(Step(s, es[0]), es[1..]);
    }
  }

  lemma InvStep(s: State, e: Event)
    requires Inv(s) && Enabled(s, e)
    ensures Inv(Step(s, e))
  {
    hide Step;
    LockStep(s, e);
    CustodyStep(s, e);
    WakeStep(s, e);
    hide LockInv;
    hide CustodyInv;
    hide WakeInv;
  }

  lemma SameWorkers(s: State, e: Event)
    requires Enabled(s, e)
    ensures |Step(s, e).workers| == |s.workers|
  {
  }

  // ----- the connections given to submit() ------------------------------------

  function Fds(subs: seq<Submission>): seq<int> {
    seq(|subs|, i requires 0 <= i < |subs| => subs[i].fd)
  }

  // The connections submit() was called with, in the order in which the calls got the
  // lock.
  function Given(es: seq<Event>): seq<int> {
    if es == [] then []
    else (if es[0].SubmitLocks? then [es[0].fd] else []) + Given(es[1..])
  }

  // Submitted, or about to be by the call that has the lock.
  function Known(s: State): seq<int> {
    Fds(s.subs) + if s.lock.SubmitHas? then [s.lock.fd] else []
  }

  lemma KnownStep(s: State, e: Event)
    requires Inv(s) && Enabled(s, e)
    ensures Known(Step(s, e)) == Known(s) + if e.SubmitLocks? then [e.fd] else []
    ensures Fds(s.subs) <= Fds(Step(s, e).subs)
  {
    hide CustodyInv;
    hide WakeInv;
  }

  lemma {:induction false} KnownRun(s: State, es: seq<Event>)
    requires Inv(s) && Legal(s, es)
    ensures Known(Run(s, es)) == Known(s) + Given(es) && Fds(s.subs) <= Fds(Run(s, es).subs)
    decreases |es|
  {
    hide Step;
    hide Known;
    hide Fds;
    hide Enabled;
    hide Inv;
    if es != [] {
      InvStep(s, es[0]);
      KnownStep(s, es[0]);
      KnownRun(Step(s, es[0]), es[1..]);
    }
  }

  // Submission i is the i-th connection given to submit(), now and in every
  // continuation; only the call that has the lock has not submitted its own yet.
  lemma SubmissionsAreTheGiven(threads: nat, es: seq<Event>, more: seq<Event>)
    requires Legal(Start(threads), es) && Legal(Run(Start(threads), es), more)
    ensures
      var s := Run(Start(threads), es);
      var t := Run(s, more);
      && Fds(s.subs) + (if s.lock.SubmitHas? then [s.lock.fd] else []) == Given(es)
      && (forall i :: 0 <= i < |s.subs| ==> s.subs[i].fd == Given(es)[i])
      && |s.subs| <= |t.subs| && (forall i :: 0 <= i < |s.subs| ==> t.subs[i].fd == s.subs[i].fd)
  {
    StartInv(threads);
    RunInv(Start(threads), es);
    KnownRun(Start(threads), es);
    var s := Run(Start(threads), es);
    KnownRun(s, more);
    var t := Run(s, more);
    hide Run;
    hide Legal;
    hide Given;
    hide Inv;
    assert Known(Start(threads)) == [];
    forall i | 0 <= i < |s.subs| ensures t.subs[i].fd == s.subs[i].fd == Given(es)[i] {
      assert Fds(t.subs)[i] == Fds(s.subs)[i] == Known(s)[i];
    }
  }

  function Notified(es: seq<Event>): nat {
    if es == [] then 0
    else (if es[0].SubmitNotifies? || es[0].SubmitNotifiesNobody? then 1 else 0) + Notified(es[1..])
  }

  lemma {:induction false} NotifiesRun(s: State, es: seq<Event>)
    requires Legal(s, es)
    ensures Run(s, es).notifies + Notified(es) + s.accepted == s.notifies + Run(s, es).accepted
    decreases |es|
  {
    if es != [] {
      NotifiesRun(Step(s, es[0]), es[1..]);
    }
  }

  // Each connection that was put in the queue is notified about once.
  lemma OneNotifyEach(threads: nat, es: seq<Event>)
    requires Legal(Start(threads), es)
    ensures Run(Start(threads), es).notifies + Notified(es) == Run(Start(threads), es).accepted
  {
    NotifiesRun(Start(threads), es);
  }

  // The four places a submitted connection can be in.
  predicate InQueue(s: State, i: nat) {
    i in s.queue
  }

  predicate HeldBy(s: State, i: nat, w: nat) {
    WorkerIs(s, w, Handling(i))
  }

  // In every interleaving, every connection given to submit() is in exactly one
  // place: queued, with one worker's handler, handled once, or closed once by submit.
  lemma SubmissionIsInOnePlace(threads: nat, es: seq<Event>, i: nat)
    requires Legal(Start(threads), es) && i < |Run(Start(threads), es).subs|
    ensures
      var s := Run(Start(threads), es);
      var x := s.subs[i];
      && i < |Given(es)| && x.fd == Given(es)[i]
      && x.handled + x.closed <= 1
      && (InQueue(s, i) ==> x.handled + x.closed == 0 && forall w :: !HeldBy(s, i, w))
      && (forall v, w :: HeldBy(s, i, v) && HeldBy(s, i, w) ==> v == w)
      && (forall w :: HeldBy(s, i, w) ==> x.handled + x.closed == 0)
      && (x.handled + x.closed == 0 ==> InQueue(s, i) || exists w :: HeldBy(s, i, w))
  {
    StartInv(threads);
    RunInv(Start(threads), es);
    SubmissionsAreTheGiven(threads, es, []);
    var s := Run(Start(threads), es);
    hide Run;
    hide Legal;
    hide Given;
    hide Fds;
    var taken := s.accepted - |s.queue|;
    if i < taken {
      assert TakenOnce(s, i);
      assert s.subs[i].handled == 0 ==> HeldBy(s, i, s.subs[i].taker.value);
    } else if i < s.accepted {
      assert s.queue[i - taken] == i;
      assert s.subs[i].(fd := 0) == Submission(0, None, 0, 0);
    } else {
      assert s.subs[i].(fd := 0) == Submission(0, None, 0, 1);
    }
    forall w: nat | HeldBy(s, i, w) ensures i < taken && s.subs[i].handled == 0 && s.subs[i].taker == Some(w) {
      assert Holds(s, w, taken);
    }
  }

  // Connections are taken in the order in which they were accepted.
  lemma TakenInOrder(threads: nat, es: seq<Event>, w: nat)
    requires Legal(Start(threads), es) && Enabled(Run(Start(threads), es), Looks(w))
    requires Run(Start(threads), es).queue != []
    ensures
      var s := Run(Start(threads), es);
      WorkerIs(Step(s, Looks(w)), w, Handling(s.queue[0])) && s.queue[0] == s.accepted - |s.queue|
  {
    StartInv(threads);
    RunInv(Start(threads), es);
  }

  // No queued connection is stranded: while one is queued and all workers sleep, a
  // notify is still to come; more generally, sleepers leave at most as many queued
  // connections as there are notifies to come and workers about to look.
  lemma NoLostWakeUp(threads: nat, es: seq<Event>)
    requires threads >= 1 && Legal(Start(threads), es)
    ensures
      var s := Run(Start(threads), es);
      && ((exists w :: WorkerIs(s, w, Blocked)) ==> |s.queue| <= s.notifies + Tally(s.workers, WillLook))
      && (s.queue != [] && s.notifies == 0 ==>
            exists w :: 0 <= w < |s.workers| && s.workers[w] != Blocked && s.workers[w] != Exited)
      && (s.shutdown.Joining? ==> forall w :: !WorkerIs(s, w, Blocked))
  {
    StartInv(threads);
    RunInv(Start(threads), es);
    hide Run;
    hide Legal;
    hide Inv;
    InvWakes(Run(Start(threads), es));
  }

  lemma InvWakes(s: State)
    requires Inv(s) && s.workers != []
    ensures (exists w :: WorkerIs(s, w, Blocked)) ==> |s.queue| <= s.notifies + Tally(s.workers, WillLook)
    ensures s.queue != [] && s.notifies == 0 ==>
      exists w :: 0 <= w < |s.workers| && s.workers[w] != Blocked && s.workers[w] != Exited
    ensures s.shutdown.Joining? ==> forall w :: !WorkerIs(s, w, Blocked)
  {
    TallyZero(s.workers, IsBlocked);
    TallyZero(s.workers, WillLook);
    hide CustodyInv;
    hide LockInv;
    hide Tally;
    assert s.workers[0] != Blocked || WorkerIs(s, 0, Blocked);
  }

  // ----- shutdown returns -----------------------------------------------------

  function Rank(x: Worker): nat {
    match x
    case Exited => 0
    case Inside => 1
    case Wanting => 2
    case Handling(_) => 3
    case Blocked => 3
  }

  // What is left to do once stop_ is set.
  function Work(s: State): nat {
    5 * |s.queue| + Sum(s.workers, Rank) + s.notifies + (if s.lock.SubmitHas? then 1 else 0) +
    (match s.shutdown
     case NotCalled => |s.workers| + 2
     case StopSet => |s.workers| + 1
     case Joining(n) => if n <= |s.workers| then |s.workers| - n else 0)
  }

  // Once stop_ is set every step leaves less work, apart from new calls of submit().
  lemma WorkDecreases(s: State, e: Event)
    requires Inv(s) && Enabled(s, e) && s.stop && !e.SubmitLocks?
    ensures Work(Step(s, e)) < Work(s)
  {
    if e.SubmitNotifies? || e.Locks? || e.Looks? || e.HandlerReturns? || e.WakesUnasked? {
      WorkerWorkDecreases(s, e);
    } else if e.ShutdownNotifiesAll? {
      hide CustodyInv;
      SumAtMost(Step(s, e).workers, s.workers, Rank);
    } else {
      hide CustodyInv;
    }
  }

  // A step of one worker, or a notify that reaches it.
  lemma WorkerWorkDecreases(s: State, e: Event)
    requires Inv(s) && Enabled(s, e) && s.stop
    requires e.SubmitNotifies? || e.Locks? || e.Looks? || e.HandlerReturns? || e.WakesUnasked?
    ensures Work(Step(s, e)) < Work(s)
  {
    hide CustodyInv;
    hide WakeInv;
    var s' := Step(s, e);
    var x := s'.workers[e.w];
    assert s'.workers == s.workers[e.w := x];
    SumUpdate(s.workers, e.w, x, Rank);
    hide Sum;
  }

  predicate Finished(s: State) {
    s.shutdown == Joining(|s.workers|)
  }

  // Until every worker is joined some thread can move, whoever holds the lock.
  lemma SomethingMoves(s: State) returns (e: Event)
    requires Inv(s) && s.stop && !Finished(s)
    ensures Enabled(s, e) && !e.SubmitLocks?
  {
    if s.lock.SubmitHas? {
      e := SubmitPushes;
    } else if s.lock.WorkerHas? {
      e := Looks(s.lock.w);
    } else if s.shutdown == StopSet {
      e := ShutdownNotifiesAll;
    } else {
      var w := s.shutdown.joined;
      TallyZero(s.workers, IsBlocked);
      match s.workers[w]
      case Wanting => e := Locks(w);
      case Inside => e := Looks(w);
      case Handling(_) =>
        assert Holds(s, w, s.accepted - |s.queue|);
        e := HandlerReturns(w);
      case Exited => e := Joins;
      case Blocked => assert false;
    }
  }

  predicate NoNewSubmits(es: seq<Event>) {
    forall k :: 0 <= k < |es| ==> !es[k].SubmitLocks?
  }

  lemma {:induction false} RunsAreShort(s: State, es: seq<Event>)
    requires Inv(s) && s.stop && Legal(s, es) && NoNewSubmits(es)
    ensures |es| + Work(Run(s, es)) <= Work(s) && Run(s, es).stop
    decreases |es|
  {
    hide Work;
    if es != [] {
      var e := es[0];
      WorkDecreases(s, e);
      InvStep(s, e);
      StaysStopped(s, e);
      hide Step;
      RunsAreShort(Step(s, e), es[1..]);
    }
  }

  lemma StaysStopped(s: State, e: Event)
    requires Enabled(s, e) && s.stop
    ensures Step(s, e).stop
  {
  }

  lemma {:induction false} NoneGiven(es: seq<Event>)
    requires NoNewSubmits(es)
    ensures Given(es) == []
  {
    if es != [] {
      assert forall k :: 0 <= k < |es| - 1 ==> es[1..][k] == es[k + 1];
      NoneGiven(es[1..]);
    }
  }

  lemma GivenBefore(threads: nat, before: seq<Event>, after: seq<Event>)
    requires Legal(Start(threads), before) && Legal(Run(Start(threads), before), after) && NoNewSubmits(after)
    ensures Known(Run(Run(Start(threads), before), after)) == Given(before)
  {
    StartInv(threads);
    RunInv(Start(threads), before);
    KnownRun(Start(threads), before);
    KnownRun(Run(Start(threads), before), after);
    NoneGiven(after);
    assert Known(Start(threads)) == [];
    hide Inv;
  }

  // shutdown() returns: after stop_ is set, with handlers that return and no new
  // calls of submit(), a run has at most Work(s) steps, and a run that cannot go on
  // has joined every worker, emptied the queue, and handled or closed every
  // connection that was given to submit() exactly once.
  lemma ShutdownReturns(threads: nat, before: seq<Event>, after: seq<Event>)
    requires threads >= 1 && Legal(Start(threads), before) && Run(Start(threads), before).stop
    requires Legal(Run(Start(threads), before), after) && NoNewSubmits(after)
    ensures
      var s := Run(Start(threads), before);
      var t := Run(s, after);
      && |after| <= Work(s)
      && ((forall e :: Enabled(t, e) ==> e.SubmitLocks?) ==>
            Finished(t) && t.queue == [] && Fds(t.subs) == Given(before) && forall i :: 0 <= i < |t.subs| ==> t.subs[i].handled + t.subs[i].closed == 1)
  {
    StartInv(threads);
    RunInv(Start(threads), before);
    var s := Run(Start(threads), before);
    RunsAreShort(s, after);
    RunInv(s, after);
    var t := Run(s, after);
    GivenBefore(threads, before, after);
    hide Run;
    hide Legal;
    hide Work;
    hide Given;
    hide Fds;
    if forall e :: Enabled(t, e) ==> e.SubmitLocks? {
      if !Finished(t) {
        var e := SomethingMoves(t);
        assert false;
      }
      assert !t.lock.SubmitHas? by {
        assert t.lock.SubmitHas? ==> Enabled(t, SubmitPushes);
      }
      assert t.workers[0] == Exited;
      forall i | 0 <= i < |t.subs| ensures t.subs[i].handled + t.subs[i].closed == 1 {
        if i < t.accepted {
          assert TakenOnce(t, i);
        } else {
          assert t.subs[i].(fd := 0) == Submission(0, None, 0, 1);
        }
      }
    }
  }

  // ----- shutdown can always be finished --------------------------------------

  lemma OneStep(s: State, e: Event, rest: seq<Event>) returns (es: seq<Event>)
    requires Enabled(s, e) && Legal(Step(s, e), rest)
    ensures es == [e] + rest && Legal(s, es) && Run(s, es) == Run(Step(s, e), rest)
  {
    hide Step;
    hide Enabled;
    es := [e] + rest;
    assert es[1..] == rest;
  }

  lemma {:induction false} FinishesAfterStop(s: State) returns (es: seq<Event>)
    requires Inv(s) && s.stop
    ensures Legal(s, es) && Finished(Run(s, es))
    decreases Work(s)
  {
    hide Work;
    if Finished(s) {
      es := [];
    } else {
      var e := SomethingMoves(s);
      WorkDecreases(s, e);
      InvStep(s, e);
      StaysStopped(s, e);
      hide Inv;
      hide Step;
      hide Enabled;
      var rest := FinishesAfterStop(Step(s, e));
      es := OneStep(s, e, rest);
    }
  }

  // Whatever the pool is doing, the threads can move so that shutdown() is called, if it
  // was not yet, and returns.
  lemma ShutdownCanFinish(threads: nat, before: seq<Event>) returns (es: seq<Event>)
    requires Legal(Start(threads), before)
    ensures Legal(Run(Start(threads), before), es) && Finished(Run(Run(Start(threads), before), es))
  {
    StartInv(threads);
    RunInv(Start(threads), before);
    es := FinishesFrom(Run(Start(threads), before));
  }

  lemma FinishesFrom(s: State) returns (es: seq<Event>)
    requires Inv(s)
    ensures Legal(s, es) && Finished(Run(s, es))
    decreases if s.stop then 0 else if s.lock == ShutdownHas then 1 else if s.lock == Free then 2 else 3
  {
    if s.stop {
      es := FinishesAfterStop(s);
    } else {
      var e := match s.lock
        case Free => ShutdownLocks
        case WorkerHas(w) => Looks(w)
        case SubmitHas(_) => SubmitPushes
        case ShutdownHas => ShutdownSetsStop;
      InvStep(s, e);
      hide Inv;
      var rest := FinishesFrom(Step(s, e));
      es := OneStep(s, e, rest);
    }
  }

  // ----- the object of the source ---------------------------------------------

  // Each method is one critical section or one move outside the lock, as the source
  // writes it; its effect is the step of the same name.
  class ThreadPool {
    var lock: Owner
    var stop: bool
    var queue: seq<nat>
    var subs: seq<Submission>
    var accepted: nat
    var notifies: nat
    var workers: seq<Worker>
    var shutdown: Shutdown

    function S(): State
      reads this
    {
      State(lock, stop, queue, subs, accepted, notifies, workers, shutdown)
    }

    constructor (numThreads: nat)
      ensures S() == Start(numThreads)
    {
      lock, stop, queue, subs := Free, false, [], [];
      accepted, notifies, shutdown := 0, 0, NotCalled;
      workers := seq(numThreads, _ => Wanting);
    }

    // submit() inside its lock guard, which it has taken for fd.
    method SubmitInside()
      requires Enabled(S(), SubmitPushes)
      modifies this
      ensures S() == Step(old(S()), SubmitPushes)
    {
      var id := |subs|;
      if stop {
        subs := subs + [Submission(lock.fd, None, 0, 1)];
        lock := Free;
        return;
      }
      subs := subs + [Submission(lock.fd, None, 0, 0)];
      queue := queue + [id];
      accepted := accepted + 1;
      notifies := notifies + 1;
      lock := Free;
    }

    // cv_.notify_one() behind the lock guard; the condition variable picks the
    // sleeper, if there is one.
    method NotifyOne(sleeper: Option<nat>)
      requires if sleeper.Some? then Enabled(S(), SubmitNotifies(sleeper.value)) else Enabled(S(), SubmitNotifiesNobody)
      modifies this
      ensures S() == Step(old(S()), if sleeper.Some? then SubmitNotifies(sleeper.value) else SubmitNotifiesNobody)
    {
      if sleeper.Some? {
        workers := workers[sleeper.value := Wanting];
      }
      notifies := notifies - 1;
    }

    // One look at the queue: the wait's predicate and what follows it, up to the end
    // of the critical section.
    method WorkerLooks(w: nat)
      requires Enabled(S(), Looks(w))
      modifies this
      ensures S() == Step(old(S()), Looks(w))
    {
      if !(stop || queue != []) {
        workers := workers[w := Blocked];
      } else if stop && queue == [] {
        workers := workers[w := Exited];
      } else {
        var id := queue[0];
        queue := queue[1..];
        workers := workers[w := Handling(id)];
        subs := Taken(subs, id, w);
      }
      lock := Free;
    }

    method HandlerDone(w: nat)
      requires Enabled(S(), HandlerReturns(w))
      modifies this
      ensures S() == Step(old(S()), HandlerReturns(w))
    {
      var id := workers[w].id;
      subs := subs[id := subs[id].(handled := subs[id].handled + 1)];
      workers := workers[w := Wanting];
    }

    method ShutdownInside()
      requires Enabled(S(), ShutdownSetsStop)
      modifies this
      ensures S() == Step(old(S()), ShutdownSetsStop)
    {
      stop := true;
      shutdown := StopSet;
      lock := Free;
    }

    // cv_.notify_all() after stop_ was set.
    method NotifyAll()
      requires Enabled(S(), ShutdownNotifiesAll)
      modifies this
      ensures S() == Step(old(S()), ShutdownNotifiesAll)
    {
      var before := workers;
      for w := 0 to |before|
        invariant |workers| == |before|
        invariant forall k :: 0 <= k < w ==> workers[k] == Awake(before[k])
        invariant forall k :: w <= k < |before| ==> workers[k] == before[k]
        invariant S() == old(S()).(workers := workers)
      {
        if workers[w] == Blocked {
          workers := workers[w := Wanting];
        }
      }
      shutdown := Joining(0);
    }
  }
}
