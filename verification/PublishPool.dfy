/** The MQTT publish pool: MqttClient::publish and stop and the connection workers of
    src/mqtt.cpp.  A step is one critical section or one shared access of one thread;
    Paho's answers, the ends of timed waits and lost connections come at any time. */
module PublishPool {
  import opened Text
  import opened Counting

  datatype Outcome = Ok | QueueFull | Timeout | Failed

  datatype Message = Message(topic: string, payload: string, qos: nat, retain: bool)

  // What happened to a job: nothing yet, given to Paho and waiting for its answer,
  // handed to the socket (QoS 0), acknowledged, refused, not acknowledged in time,
  // or cleared by stop() without having been tried.
  datatype Attempt = Untried | Given | HandedOff | Acked | Refused | NoAck | Cleared

  // A job, the publish() call that made it and the connection that took it.
  datatype Job = Job(message: Message, call: nat, taker: Option<nat>, attempt: Attempt, done: bool, outcome: Outcome)

  // A publish() call: turned away, waiting for its job, or returned.
  datatype Call = Call(message: Message, state: CallState)
  datatype CallState = Rejected | Waits(job: nat) | Returned(job: nat, result: Outcome)

  // Where a worker is in worker_loop() and run_job().
  datatype Pc =
    | Top
    | Check
    | Connecting
    | BackingOff
    | Waiting
    | Holding(job: nat)
    | Acking(job: nat)
    | Dropping(job: nat)
    | Reporting(job: nat)
    | Leaving
    | Exited

  // failures: connects failed since the last success, not counting one whose wait is
  // still running; taken: jobs taken with the flag down since it was last cleared.
  datatype Conn = Conn(pc: Pc, connected: bool, backoff: nat, failures: nat, taken: nat)

  datatype Stopping = NotCalled | Joining(joined: nat) | Stopped

  datatype State = State(
    running: bool,
    queue: seq<nat>,
    jobs: seq<Job>,
    calls: seq<Call>,
    conns: seq<Conn>,
    stopping: Stopping,
    drained: nat,       // jobs accepted when stop() cleared the queue
    okTotal: nat,
    failedTotal: nat,
    timeoutTotal: nat,
    queueFullTotal: nat)

  datatype Event =
    | Publish(m: Message)
    | CallReturns(call: nat)
    | CallTimesOut(call: nat)
    | Loop(c: nat)
    | TestFlag(c: nat)
    | Connects(c: nat)
    | ConnectFails(c: nat)
    | BackOffEnds(c: nat)
    | Wakes(c: nat)
    | PahoTakes(c: nat)
    | PahoRefuses(c: nat)
    | AckArrives(c: nat)
    | AckTimesOut(c: nat)
    | Drops(c: nat)
    | Reports(c: nat)
    | Leaves(c: nat)
    | ConnectionLost(c: nat)
    | StopBegins
    | Joins
    | Drains

  const MAX_BACKOFF := 30

  function Min(a: nat, b: nat): nat {
    if a <= b then a else b
  }

  function Start(connections: nat): State {
    State(true, [], [], [], seq(connections, _ => Conn(Top, false, 1, 0, 0)), NotCalled, 0, 0, 0, 0, 0)
  }

  // ----- steps ----------------------------------------------------------------

  predicate PcIs(s: State, c: nat, pc: Pc) {
    c < |s.conns| && s.conns[c].pc == pc
  }

  predicate JobExists(s: State, j: nat) {
    j < |s.jobs|
  }

  predicate Enabled(s: State, e: Event) {
    match e
    case Publish(_) => true
    case CallReturns(k) => k < |s.calls| && s.calls[k].state.Waits? && JobExists(s, s.calls[k].state.job) && s.jobs[s.calls[k].state.job].done
    case CallTimesOut(k) => k < |s.calls| && s.calls[k].state.Waits? && JobExists(s, s.calls[k].state.job) && !s.jobs[s.calls[k].state.job].done
    case Loop(c) => PcIs(s, c, Top)
    case TestFlag(c) => PcIs(s, c, Check)
    case Connects(c) => PcIs(s, c, Connecting)
    case ConnectFails(c) => PcIs(s, c, Connecting)
    case BackOffEnds(c) => PcIs(s, c, BackingOff)
    case Wakes(c) => PcIs(s, c, Waiting) && forall k :: 0 <= k < |s.queue| ==> JobExists(s, s.queue[k])
    case PahoTakes(c) => c < |s.conns| && s.conns[c].pc.Holding? && JobExists(s, s.conns[c].pc.job)
    case PahoRefuses(c) => c < |s.conns| && s.conns[c].pc.Holding? && JobExists(s, s.conns[c].pc.job)
    case AckArrives(c) => c < |s.conns| && s.conns[c].pc.Acking? && JobExists(s, s.conns[c].pc.job)
    case AckTimesOut(c) => c < |s.conns| && s.conns[c].pc.Acking? && JobExists(s, s.conns[c].pc.job)
    case Drops(c) => c < |s.conns| && s.conns[c].pc.Dropping?
    case Reports(c) => c < |s.conns| && s.conns[c].pc.Reporting? && JobExists(s, s.conns[c].pc.job)
    case Leaves(c) => PcIs(s, c, Leaving)
    case ConnectionLost(c) => c < |s.conns|
    case StopBegins => s.stopping == NotCalled
    case Joins => s.stopping.Joining? && PcIs(s, s.stopping.joined, Exited)
    case Drains => s.stopping == Joining(|s.conns|)
  }

  function SetConn(s: State, c: nat, x: Conn): State
    requires c < |s.conns|
  {
    s.(conns := s.conns[c := x])
  }

  function SetPc(s: State, c: nat, pc: Pc): State
    requires c < |s.conns|
  {
    SetConn(s, c, s.conns[c].(pc := pc))
  }

  function SetJob(s: State, j: nat, x: Job): State
    requires j < |s.jobs|
  {
    s.(jobs := s.jobs[j := x])
  }

  // connected_.store(false): a new interval without a connection begins if there was one.
  function FlagCleared(x: Conn): Conn {
    if x.connected then x.(connected := false, taken := 0) else x
  }

  // What the outcome of a finished attempt is called.
  function OutcomeOf(a: Attempt): Outcome {
    match a
    case HandedOff => Ok
    case Acked => Ok
    case NoAck => Timeout
    case _ => Failed
  }

  function Emptied(x: Job): Job {
    x.(attempt := Cleared, done := true, outcome := Failed)
  }

  function Clear(jobs: seq<Job>, queue: seq<nat>): (r: seq<Job>)
    ensures |r| == |jobs|
    ensures forall j :: 0 <= j < |jobs| ==>
      r[j] == if j in queue then Emptied(jobs[j]) else jobs[j]
    decreases |queue|
  {
    if queue == [] then jobs else
    var j := queue[0];
    var rest := Clear(jobs, queue[1..]);
    assert forall i :: i in queue <==> i == j || i in queue[1..];
    if j < |jobs| then rest[j := Emptied(jobs[j])] else rest
  }

  // Events that move one connection and no job.
  predicate MovesConn(e: Event) {
    e.Loop? || e.TestFlag? || e.Connects? || e.ConnectFails? || e.BackOffEnds? || e.Drops? || e.Leaves? || e.ConnectionLost?
  }

  function Moved(running: bool, x: Conn, e: Event): Conn {
    match e
    case Loop(_) => x.(pc := if running then Check else Leaving)
    case TestFlag(_) => x.(pc := if x.connected then Waiting else Connecting)
    case Connects(_) => Conn(Top, true, 1, 0, x.taken)
    case ConnectFails(_) => x.(pc := BackingOff)
    case BackOffEnds(_) => x.(pc := Top, backoff := Min(2 * x.backoff, MAX_BACKOFF), failures := x.failures + 1)
    case Drops(_) => if x.pc.Dropping? then FlagCleared(x).(pc := Reporting(x.pc.job)) else x
    case Leaves(_) => FlagCleared(x).(pc := Exited)
    case _ => FlagCleared(x)
  }

  // Events that move a connection and the job it holds: run_job().
  predicate MovesJob(e: Event) {
    e.PahoTakes? || e.PahoRefuses? || e.AckArrives? || e.AckTimesOut? || e.Reports?
  }

  function Worked(y: Job, e: Event): Job {
    match e
    case PahoTakes(_) => y.(attempt := if y.message.qos == 0 then HandedOff else Given)
    case PahoRefuses(_) => y.(attempt := Refused)
    case AckArrives(_) => y.(attempt := Acked)
    case AckTimesOut(_) => y.(attempt := NoAck)
    case _ => y.(done := true, outcome := OutcomeOf(y.attempt))
  }

  function Onward(y: Job, j: nat, e: Event): Pc {
    match e
    case PahoTakes(_) => if y.message.qos == 0 then Reporting(j) else Acking(j)
    case PahoRefuses(_) => Dropping(j)
    case AckArrives(_) => Reporting(j)
    case AckTimesOut(_) => Dropping(j)
    case _ => Top
  }

  function One(b: bool): nat {
    if b then 1 else 0
  }

  function JobWorked(s: State, c: nat, j: nat, e: Event): State
    requires c < |s.conns| && j < |s.jobs|
  {
    var y := s.jobs[j];
    SetPc(SetJob(s, j, Worked(y, e)), c, Onward(y, j, e)).(
      okTotal := s.okTotal + One(e.AckArrives? || (e.PahoTakes? && y.message.qos == 0)),
      failedTotal := s.failedTotal + One(e.PahoRefuses?),
      timeoutTotal := s.timeoutTotal + One(e.AckTimesOut?))
  }

  function Woken(s: State, c: nat): State
    requires c < |s.conns| && forall k :: 0 <= k < |s.queue| ==> JobExists(s, s.queue[k])
  {
    if !s.running then SetPc(s, c, Leaving)
    else if s.queue == [] then SetPc(s, c, Top)
    else
      var j, x := s.queue[0], s.conns[c];
      assert JobExists(s, j);
      SetConn(SetJob(s, j, s.jobs[j].(taker := Some(c))), c,
              x.(pc := Holding(j), taken := if x.connected then x.taken else x.taken + 1)).(queue := s.queue[1..])
  }

  function Step(bound: nat, s: State, e: Event): State
    requires Enabled(s, e)
  {
    if MovesConn(e) then SetConn(s, e.c, Moved(s.running, s.conns[e.c], e))
    else if MovesJob(e) then JobWorked(s, e.c, s.conns[e.c].pc.job, e)
    else
      match e
      case Wakes(c) => Woken(s, c)
      case Publish(m) =>
        if |s.queue| >= bound then
          s.(calls := s.calls + [Call(m, Rejected)], queueFullTotal := s.queueFullTotal + 1)
        else
          s.(calls := s.calls + [Call(m, Waits(|s.jobs|))], queue := s.queue + [|s.jobs|],
             jobs := s.jobs + [Job(m, |s.calls|, None, Untried, false, Failed)])
      case CallReturns(k) =>
        var j := s.calls[k].state.job;
        s.(calls := s.calls[k := s.calls[k].(state := Returned(j, s.jobs[j].outcome))])
      case CallTimesOut(k) =>
        s.(calls := s.calls[k := s.calls[k].(state := Returned(s.calls[k].state.job, Timeout))])
      case StopBegins => s.(running := false, stopping := Joining(0))
      case Joins => s.(stopping := Joining(s.stopping.joined + 1))
      case Drains => s.(jobs := Clear(s.jobs, s.queue), queue := [], stopping := Stopped, drained := |s.jobs|)
      case _ => s
  }

  lemma StepMovesConn(bound: nat, s: State, e: Event)
    requires Enabled(s, e) && MovesConn(e)
    ensures e.c < |s.conns| && Step(bound, s, e) == SetConn(s, e.c, Moved(s.running, s.conns[e.c], e))
    ensures e.Leaves? ==> s.conns[e.c].pc == Leaving
    ensures e.Drops? ==> s.conns[e.c].pc.Dropping?
    ensures Holder(Moved(s.running, s.conns[e.c], e)) == Holder(s.conns[e.c])
    ensures s.conns[e.c].pc == Exited ==> Moved(s.running, s.conns[e.c], e).pc == Exited
  {
  }

  lemma StepMovesJob(bound: nat, s: State, e: Event)
    requires Enabled(s, e) && MovesJob(e)
    ensures e.c < |s.conns| && Holder(s.conns[e.c]).Some? && Holder(s.conns[e.c]).value < |s.jobs|
    ensures Step(bound, s, e) == JobWorked(s, e.c, Holder(s.conns[e.c]).value, e)
    ensures e.PahoTakes? || e.PahoRefuses? ==> s.conns[e.c].pc.Holding?
    ensures e.AckArrives? || e.AckTimesOut? ==> s.conns[e.c].pc.Acking?
    ensures e.Reports? ==> s.conns[e.c].pc.Reporting?
  {
  }

  lemma StepDrains(bound: nat, s: State)
    requires Enabled(s, Drains)
    ensures Step(bound, s, Drains) ==
            s.(jobs := Clear(s.jobs, s.queue), queue := [], stopping := Stopped, drained := |s.jobs|)
  {
    hide Clear;
  }

  // ----- custody --------------------------------------------------------------

  function Holder(x: Conn): Option<nat> {
    match x.pc
    case Holding(j) => Some(j)
    case Acking(j) => Some(j)
    case Dropping(j) => Some(j)
    case Reporting(j) => Some(j)
    case _ => None
  }

  // The attempts a job can have at each place of run_job().
  predicate Fits(pc: Pc, a: Attempt) {
    match pc
    case Holding(_) => a == Untried
    case Acking(_) => a == Given
    case Dropping(_) => a == Refused || a == NoAck
    case Reporting(_) => a in {HandedOff, Acked, Refused, NoAck}
    case _ => true
  }

  // A job a connection is working on has been taken from the queue by it.
  predicate HolderInv(queue: seq<nat>, jobs: seq<Job>, conns: seq<Conn>, c: nat)
    requires c < |conns|
  {
    Holder(conns[c]).Some? ==>
      var j := Holder(conns[c]).value;
      j < |jobs| - |queue| && jobs[j].taker == Some(c) && !jobs[j].done && Fits(conns[c].pc, jobs[j].attempt)
  }

  // A job taken from the queue is with the connection that took it, or is done with
  // the outcome of its own attempt.
  predicate TakenInv(jobs: seq<Job>, conns: seq<Conn>, j: nat)
    requires j < |jobs|
  {
    var x := jobs[j];
    && (!x.done ==> x.taker.Some? && x.taker.value < |conns| && Holder(conns[x.taker.value]) == Some(j))
    && JobFits(x)
  }

  // Only a QoS 0 job succeeds without an acknowledgement; only a job nobody took is
  // cleared.
  predicate JobFits(x: Job) {
    && (x.done ==> x.attempt in {HandedOff, Acked, Refused, NoAck, Cleared} && x.outcome == OutcomeOf(x.attempt))
    && (x.attempt == HandedOff ==> x.message.qos == 0)
    && (x.attempt in {Given, Acked, NoAck} ==> x.message.qos > 0)
    && (x.attempt == Cleared <==> x.done && x.taker.None?)
  }

  predicate Fresh(x: Job) {
    x.taker.None? && x.attempt == Untried && !x.done
  }

  // The queue is the youngest accepted jobs, oldest first.
  predicate QueueInv(bound: nat, queue: seq<nat>, jobs: seq<Job>) {
    && |queue| <= |jobs| && |queue| <= bound
    && (forall k :: 0 <= k < |queue| ==> queue[k] == |jobs| - |queue| + k)
    && (forall j :: |jobs| - |queue| <= j < |jobs| ==> Fresh(jobs[j]))
  }

  predicate CustodyInv(bound: nat, queue: seq<nat>, jobs: seq<Job>, conns: seq<Conn>) {
    && QueueInv(bound, queue, jobs)
    && (forall c :: 0 <= c < |conns| ==> HolderInv(queue, jobs, conns, c))
    && (forall j :: 0 <= j < |jobs| - |queue| ==> TakenInv(jobs, conns, j))
  }

  // A worker moves without touching its job.
  lemma ConnMoves(bound: nat, queue: seq<nat>, jobs: seq<Job>, conns: seq<Conn>, c: nat, x: Conn)
    requires CustodyInv(bound, queue, jobs, conns) && c < |conns|
    requires Holder(x) == Holder(conns[c])
    requires Holder(x).Some? ==> Holder(x).value < |jobs| && Fits(x.pc, jobs[Holder(x).value].attempt)
    ensures CustodyInv(bound, queue, jobs, conns[c := x])
  {
    hide Fits;
    hide JobFits;
    hide Fresh;
    var conns' := conns[c := x];
    forall d | 0 <= d < |conns| ensures HolderInv(queue, jobs, conns', d) {
      assert HolderInv(queue, jobs, conns, d);
    }
    forall j | 0 <= j < |jobs| - |queue| ensures TakenInv(jobs, conns', j) {
      assert TakenInv(jobs, conns, j);
    }
  }

  // A worker moves and records what became of the job it holds, or finishes it.
  lemma JobMoves(bound: nat, queue: seq<nat>, jobs: seq<Job>, conns: seq<Conn>, c: nat, x: Conn, j: nat, y: Job)
    requires CustodyInv(bound, queue, jobs, conns) && c < |conns| && Holder(conns[c]) == Some(j) && j < |jobs|
    requires y.taker == jobs[j].taker && JobFits(y)
    requires if y.done then Holder(x) == None else Holder(x) == Some(j) && Fits(x.pc, y.attempt)
    ensures CustodyInv(bound, queue, jobs[j := y], conns[c := x])
  {
    hide Fits;
    hide JobFits;
    var conns', jobs' := conns[c := x], jobs[j := y];
    assert HolderInv(queue, jobs, conns, c);
    forall d | 0 <= d < |conns| ensures HolderInv(queue, jobs', conns', d) {
      assert HolderInv(queue, jobs, conns, d);
    }
    forall i | 0 <= i < |jobs| - |queue| ensures TakenInv(jobs', conns', i) {
      assert TakenInv(jobs, conns, i);
    }
  }

  lemma JobTaken(bound: nat, queue: seq<nat>, jobs: seq<Job>, conns: seq<Conn>, c: nat, x: Conn)
    requires CustodyInv(bound, queue, jobs, conns) && c < |conns| && Holder(conns[c]) == None && queue != []
    requires Holder(x) == Some(queue[0]) && x.pc == Holding(queue[0])
    ensures queue[0] < |jobs|
    ensures CustodyInv(bound, queue[1..], jobs[queue[0] := jobs[queue[0]].(taker := Some(c))], conns[c := x])
  {
    var j := queue[0];
    assert j == |jobs| - |queue| && Fresh(jobs[j]);
    var conns', jobs', queue' := conns[c := x], jobs[j := jobs[j].(taker := Some(c))], queue[1..];
    forall i | |jobs'| - |queue'| <= i < |jobs'| ensures Fresh(jobs'[i]) {
      assert Fresh(jobs[i]);
    }
    assert HolderInv(queue, jobs, conns, c);
    forall d | 0 <= d < |conns| ensures HolderInv(queue', jobs', conns', d) {
      assert HolderInv(queue, jobs, conns, d);
    }
    forall i | 0 <= i < |jobs'| - |queue'| ensures TakenInv(jobs', conns', i) {
      if i != j {
        assert TakenInv(jobs, conns, i);
      }
    }
  }

  lemma JobQueued(bound: nat, queue: seq<nat>, jobs: seq<Job>, conns: seq<Conn>, y: Job)
    requires CustodyInv(bound, queue, jobs, conns) && |queue| < bound && Fresh(y)
    ensures CustodyInv(bound, queue + [|jobs|], jobs + [y], conns)
  {
    hide Fits;
    hide JobFits;
    var jobs', queue' := jobs + [y], queue + [|jobs|];
    forall d | 0 <= d < |conns| ensures HolderInv(queue', jobs', conns, d) {
      assert HolderInv(queue, jobs, conns, d);
    }
    forall i | 0 <= i < |jobs'| - |queue'| ensures TakenInv(jobs', conns, i) {
      assert TakenInv(jobs, conns, i);
    }
  }

  lemma QueueCleared(bound: nat, queue: seq<nat>, jobs: seq<Job>, conns: seq<Conn>)
    requires CustodyInv(bound, queue, jobs, conns)
    ensures CustodyInv(bound, [], Clear(jobs, queue), conns)
  {
    hide Fits;
    var taken := |jobs| - |queue|;
    var jobs' := Clear(jobs, queue);
    forall j | 0 <= j < |jobs| ensures j in queue <==> taken <= j {
      if taken <= j {
        assert queue[j - taken] == j;
      }
    }
    forall d | 0 <= d < |conns| ensures HolderInv([], jobs', conns, d) {
      assert HolderInv(queue, jobs, conns, d);
    }
    forall i | 0 <= i < |jobs'| ensures TakenInv(jobs', conns, i) {
      if i < taken {
        assert TakenInv(jobs, conns, i);
      } else {
        assert Fresh(jobs[i]);
      }
    }
  }

  predicate Custody(bound: nat, s: State) {
    CustodyInv(bound, s.queue, s.jobs, s.conns)
  }

  lemma HeldJob(bound: nat, s: State, c: nat)
    requires Custody(bound, s) && c < |s.conns| && Holder(s.conns[c]).Some?
    ensures
      var j := Holder(s.conns[c]).value;
      j < |s.jobs| - |s.queue| && s.jobs[j].taker == Some(c) && !s.jobs[j].done &&
      Fits(s.conns[c].pc, s.jobs[j].attempt) && JobFits(s.jobs[j])
  {
    assert HolderInv(s.queue, s.jobs, s.conns, c);
    assert TakenInv(s.jobs, s.conns, Holder(s.conns[c]).value);
  }

  lemma ConnEvent(bound: nat, s: State, e: Event)
    requires Custody(bound, s) && Enabled(s, e) && MovesConn(e)
    ensures Custody(bound, Step(bound, s, e))
  {
    hide Step;
    hide Enabled;
    hide CustodyInv;
    StepMovesConn(bound, s, e);
    var x := s.conns[e.c];
    if Holder(x).Some? {
      HeldJob(bound, s, e.c);
    }
    ConnMoves(bound, s.queue, s.jobs, s.conns, e.c, Moved(s.running, x, e));
  }

  lemma WorkedFits(y: Job, j: nat, x: Conn, e: Event)
    requires MovesJob(e) && JobFits(y) && Fits(x.pc, y.attempt) && !y.done && y.taker.Some?
    requires e.PahoTakes? || e.PahoRefuses? ==> x.pc.Holding?
    requires e.AckArrives? || e.AckTimesOut? ==> x.pc.Acking?
    requires e.Reports? ==> x.pc.Reporting?
    ensures
      var z, u := Worked(y, e), x.(pc := Onward(y, j, e));
      z.taker == y.taker && z.message == y.message && z.call == y.call && JobFits(z) &&
      if z.done then Holder(u) == None else Holder(u) == Some(j) && Fits(u.pc, z.attempt)
  {
  }

  lemma JobEvent(bound: nat, s: State, e: Event)
    requires Custody(bound, s) && Enabled(s, e) && MovesJob(e)
    ensures Custody(bound, Step(bound, s, e))
  {
    hide Step;
    hide Enabled;
    hide CustodyInv;
    hide JobFits;
    hide Fits;
    StepMovesJob(bound, s, e);
    var c, j := e.c, Holder(s.conns[e.c]).value;
    HeldJob(bound, s, c);
    var x, y := s.conns[c], s.jobs[j];
    WorkedFits(y, j, x, e);
    JobMoves(bound, s.queue, s.jobs, s.conns, c, x.(pc := Onward(y, j, e)), j, Worked(y, e));
  }

  lemma WakesEvent(bound: nat, s: State, c: nat)
    requires Custody(bound, s) && Enabled(s, Wakes(c))
    ensures Custody(bound, Step(bound, s, Wakes(c)))
  {
    hide CustodyInv;
    var s' := Step(bound, s, Wakes(c));
    if s.running && s.queue != [] {
      JobTaken(bound, s.queue, s.jobs, s.conns, c, s'.conns[c]);
    } else {
      ConnMoves(bound, s.queue, s.jobs, s.conns, c, s'.conns[c]);
    }
  }

  lemma CustodyStep(bound: nat, s: State, e: Event)
    requires Custody(bound, s) && Enabled(s, e)
    ensures Custody(bound, Step(bound, s, e))
  {
    hide CustodyInv;
    if MovesConn(e) {
      ConnEvent(bound, s, e);
    } else if MovesJob(e) {
      JobEvent(bound, s, e);
    } else if e.Wakes? {
      WakesEvent(bound, s, e.c);
    } else if e.Publish? && |s.queue| < bound {
      JobQueued(bound, s.queue, s.jobs, s.conns, Job(e.m, |s.calls|, None, Untried, false, Failed));
    } else if e.Drains? {
      QueueCleared(bound, s.queue, s.jobs, s.conns);
    }
  }

  // ----- publish() calls ------------------------------------------------------

  function JobOf(x: Call): Option<nat> {
    match x.state
    case Rejected => None
    case Waits(j) => Some(j)
    case Returned(j, _) => Some(j)
  }

  predicate IsRejected(x: Call) {
    x.state == Rejected
  }

  // A call knows its own job, and hands back the outcome of that job or gives up.
  predicate CallInv(calls: seq<Call>, jobs: seq<Job>, k: nat)
    requires k < |calls|
  {
    JobOf(calls[k]).Some? ==>
      var j := JobOf(calls[k]).value;
      && j < |jobs| && jobs[j].call == k && jobs[j].message == calls[k].message
      && (calls[k].state.Returned? && calls[k].state.result != Timeout ==>
            jobs[j].done && calls[k].state.result == jobs[j].outcome)
  }

  predicate CallerInv(calls: seq<Call>, jobs: seq<Job>, j: nat)
    requires j < |jobs|
  {
    jobs[j].call < |calls| && JobOf(calls[jobs[j].call]) == Some(j)
  }

  predicate CallsInv(s: State) {
    && (forall k :: 0 <= k < |s.calls| ==> CallInv(s.calls, s.jobs, k))
    && (forall j :: 0 <= j < |s.jobs| ==> CallerInv(s.calls, s.jobs, j))
    && s.queueFullTotal == Tally(s.calls, IsRejected)
  }

  // Jobs keep their message and their caller, and a finished job is not touched.
  predicate JobsGrow(old': seq<Job>, new': seq<Job>) {
    && |old'| <= |new'|
    && forall j :: 0 <= j < |old'| ==>
         new'[j].message == old'[j].message && new'[j].call == old'[j].call && (old'[j].done ==> new'[j] == old'[j])
  }

  lemma StepGrowsJobs(bound: nat, s: State, e: Event)
    requires Custody(bound, s) && Enabled(s, e)
    ensures JobsGrow(s.jobs, Step(bound, s, e).jobs)
  {
    if MovesJob(e) {
      hide Step;
      hide Enabled;
      hide CustodyInv;
      StepMovesJob(bound, s, e);
      HeldJob(bound, s, e.c);
    } else if MovesConn(e) {
      hide Moved;
      hide Custody;
    } else if e.Wakes? {
      hide Moved;
      WakesGrowsJobs(bound, s, e.c);
    } else if e.Drains? {
      DrainsGrowsJobs(bound, s);
    }
  }

  lemma WakesGrowsJobs(bound: nat, s: State, c: nat)
    requires Custody(bound, s) && Enabled(s, Wakes(c))
    ensures JobsGrow(s.jobs, Step(bound, s, Wakes(c)).jobs)
  {
    if s.queue != [] {
      assert s.queue[0] == |s.jobs| - |s.queue|;
      assert Fresh(s.jobs[s.queue[0]]);
    }
    hide HolderInv;
    hide TakenInv;
  }

  lemma DrainsGrowsJobs(bound: nat, s: State)
    requires Custody(bound, s) && Enabled(s, Drains)
    ensures JobsGrow(s.jobs, Step(bound, s, Drains).jobs)
  {
    hide HolderInv;
    hide TakenInv;
    forall j | 0 <= j < |s.jobs| && j in s.queue ensures !s.jobs[j].done {
      assert Fresh(s.jobs[j]);
    }
  }

  // What a step makes of the calls.
  function NewCalls(bound: nat, s: State, e: Event): seq<Call>
    requires Enabled(s, e)
  {
    match e
    case Publish(m) => s.calls + [Call(m, if |s.queue| >= bound then Rejected else Waits(|s.jobs|))]
    case CallReturns(k) =>
      s.calls[k := s.calls[k].(state := Returned(s.calls[k].state.job, s.jobs[s.calls[k].state.job].outcome))]
    case CallTimesOut(k) => s.calls[k := s.calls[k].(state := Returned(s.calls[k].state.job, Timeout))]
    case _ => s.calls
  }

  lemma StepCalls(bound: nat, s: State, e: Event)
    requires Enabled(s, e)
    ensures Step(bound, s, e).calls == NewCalls(bound, s, e)
    ensures Step(bound, s, e).queueFullTotal == s.queueFullTotal + One(e.Publish? && |s.queue| >= bound)
    ensures e.Publish? && |s.queue| < bound ==>
      Step(bound, s, e).jobs == s.jobs + [Job(e.m, |s.calls|, None, Untried, false, Failed)]
    ensures e.Publish? && |s.queue| >= bound ==> Step(bound, s, e).jobs == s.jobs
    ensures |Step(bound, s, e).jobs| == |s.jobs| + One(e.Publish? && |s.queue| < bound)
  {
    if MovesConn(e) {
      hide Moved;
      hide Woken;
      hide JobWorked;
    } else if MovesJob(e) {
      hide Worked;
      hide Onward;
      hide Woken;
    } else if e.Wakes? {
      hide JobWorked;
    } else {
      hide JobWorked;
      hide Woken;
    }
  }

  lemma RejectedStep(bound: nat, s: State, e: Event)
    requires CallsInv(s) && Enabled(s, e)
    ensures Step(bound, s, e).queueFullTotal == Tally(Step(bound, s, e).calls, IsRejected)
  {
    StepCalls(bound, s, e);
    hide Step;
    hide Tally;
    hide CallInv;
    hide CallerInv;
    var new' := NewCalls(bound, s, e);
    if e.Publish? {
      TallyAppend(s.calls, new'[|s.calls|], IsRejected);
    } else if e.CallReturns? || e.CallTimesOut? {
      TallyUpdate(s.calls, e.call, new'[e.call], IsRejected);
    }
  }

  // Calls keep their message and their job.
  predicate CallsGrow(old': seq<Call>, new': seq<Call>) {
    && |old'| <= |new'|
    && forall k :: 0 <= k < |old'| ==> new'[k].message == old'[k].message && JobOf(new'[k]) == JobOf(old'[k])
  }

  lemma StepGrowsCalls(bound: nat, s: State, e: Event)
    requires Enabled(s, e)
    ensures CallsGrow(s.calls, Step(bound, s, e).calls)
    ensures e.Publish? || |Step(bound, s, e).calls| == |s.calls|
  {
    StepCalls(bound, s, e);
    hide Step;
  }

  lemma CallsStep(bound: nat, s: State, e: Event)
    requires Custody(bound, s) && CallsInv(s) && Enabled(s, e)
    ensures CallsInv(Step(bound, s, e))
  {
    hide Step;
    hide Enabled;
    hide CustodyInv;
    hide CallInv;
    hide CallerInv;
    hide Tally;
    var s' := Step(bound, s, e);
    StepGrowsJobs(bound, s, e);
    StepGrowsCalls(bound, s, e);
    RejectedStep(bound, s, e);
    forall k | 0 <= k < |s'.calls| ensures CallInv(s'.calls, s'.jobs, k) {
      CallStep(bound, s, e, k);
    }
    forall j | 0 <= j < |s'.jobs| ensures CallerInv(s'.calls, s'.jobs, j) {
      CallerStep(bound, s, e, j);
    }
  }

  lemma CallerStep(bound: nat, s: State, e: Event, j: nat)
    requires CallsInv(s) && Enabled(s, e) && j < |Step(bound, s, e).jobs|
    requires JobsGrow(s.jobs, Step(bound, s, e).jobs) && CallsGrow(s.calls, Step(bound, s, e).calls)
    ensures CallerInv(Step(bound, s, e).calls, Step(bound, s, e).jobs, j)
  {
    StepCalls(bound, s, e);
    hide Step;
    hide Tally;
    hide CallInv;
    if j < |s.jobs| {
      assert CallerInv(s.calls, s.jobs, j);
    }
  }

  lemma CallStep(bound: nat, s: State, e: Event, k: nat)
    requires CallsInv(s) && Enabled(s, e) && k < |Step(bound, s, e).calls|
    requires JobsGrow(s.jobs, Step(bound, s, e).jobs) && CallsGrow(s.calls, Step(bound, s, e).calls)
    ensures CallInv(Step(bound, s, e).calls, Step(bound, s, e).jobs, k)
  {
    StepCalls(bound, s, e);
    hide Step;
    hide Tally;
    hide CallerInv;
    if k < |s.calls| {
      assert CallInv(s.calls, s.jobs, k);
    }
  }

  // ----- counters -------------------------------------------------------------

  predicate Succeeded(x: Job) {
    x.attempt == HandedOff || x.attempt == Acked
  }

  predicate WasRefused(x: Job) {
    x.attempt == Refused
  }

  predicate TimedOut(x: Job) {
    x.attempt == NoAck
  }

  predicate WasCleared(x: Job) {
    x.attempt == Cleared
  }

  predicate Finished(x: Job) {
    x.done && x.attempt != Cleared
  }

  predicate Holds(x: Conn) {
    Holder(x).Some?
  }

  predicate HasResult(x: Conn) {
    x.pc.Dropping? || x.pc.Reporting?
  }

  predicate CountsInv(s: State) {
    && s.okTotal == Tally(s.jobs, Succeeded)
    && s.failedTotal == Tally(s.jobs, WasRefused)
    && s.timeoutTotal == Tally(s.jobs, TimedOut)
    && s.okTotal + s.failedTotal + s.timeoutTotal == Tally(s.jobs, Finished) + Tally(s.conns, HasResult)
    && |s.jobs| == Tally(s.jobs, Finished) + Tally(s.jobs, WasCleared) + Tally(s.conns, Holds) + |s.queue|
  }

  // How replacing one job changes the counts over the jobs.
  lemma JobTallies(jobs: seq<Job>, j: nat, y: Job)
    requires j < |jobs|
    ensures Tally(jobs[j := y], Succeeded) == Tally(jobs, Succeeded) - One(Succeeded(jobs[j])) + One(Succeeded(y))
    ensures Tally(jobs[j := y], WasRefused) == Tally(jobs, WasRefused) - One(WasRefused(jobs[j])) + One(WasRefused(y))
    ensures Tally(jobs[j := y], TimedOut) == Tally(jobs, TimedOut) - One(TimedOut(jobs[j])) + One(TimedOut(y))
    ensures Tally(jobs[j := y], Finished) == Tally(jobs, Finished) - One(Finished(jobs[j])) + One(Finished(y))
    ensures Tally(jobs[j := y], WasCleared) == Tally(jobs, WasCleared) - One(WasCleared(jobs[j])) + One(WasCleared(y))
  {
    TallyUpdate(jobs, j, y, Succeeded);
    TallyUpdate(jobs, j, y, WasRefused);
    TallyUpdate(jobs, j, y, TimedOut);
    TallyUpdate(jobs, j, y, Finished);
    TallyUpdate(jobs, j, y, WasCleared);
  }

  lemma ConnTallies(conns: seq<Conn>, c: nat, x: Conn)
    requires c < |conns|
    ensures Tally(conns[c := x], Holds) == Tally(conns, Holds) - One(Holds(conns[c])) + One(Holds(x))
    ensures Tally(conns[c := x], HasResult) == Tally(conns, HasResult) - One(HasResult(conns[c])) + One(HasResult(x))
  {
    TallyUpdate(conns, c, x, Holds);
    TallyUpdate(conns, c, x, HasResult);
  }

  lemma ConnEventCounts(bound: nat, s: State, e: Event)
    requires Custody(bound, s) && CountsInv(s) && Enabled(s, e) && MovesConn(e)
    ensures CountsInv(Step(bound, s, e))
  {
    hide Step;
    hide Enabled;
    hide CustodyInv;
    hide Tally;
    StepMovesConn(bound, s, e);
    ConnTallies(s.conns, e.c, Moved(s.running, s.conns[e.c], e));
  }

  // What one move of run_job() adds to each count.
  lemma WorkedCounts(y: Job, j: nat, x: Conn, e: Event)
    requires MovesJob(e) && JobFits(y) && Fits(x.pc, y.attempt) && Holder(x) == Some(j) && !y.done
    requires e.PahoTakes? || e.PahoRefuses? ==> x.pc.Holding?
    requires e.AckArrives? || e.AckTimesOut? ==> x.pc.Acking?
    requires e.Reports? ==> x.pc.Reporting?
    ensures
      var z, u := Worked(y, e), x.(pc := Onward(y, j, e));
      && One(Succeeded(z)) == One(Succeeded(y)) + One(e.AckArrives? || (e.PahoTakes? && y.message.qos == 0))
      && One(WasRefused(z)) == One(WasRefused(y)) + One(e.PahoRefuses?)
      && One(TimedOut(z)) == One(TimedOut(y)) + One(e.AckTimesOut?)
      && One(Finished(z)) == One(Finished(y)) + One(e.Reports?)
      && One(WasCleared(z)) == One(WasCleared(y))
      && One(Holds(u)) + One(e.Reports?) == One(Holds(x))
      && One(HasResult(u)) + One(e.Reports?) ==
         One(HasResult(x)) + One(e.AckArrives? || e.AckTimesOut? || e.PahoRefuses? || (e.PahoTakes? && y.message.qos == 0))
  {
  }

  lemma JobEventCounts(bound: nat, s: State, e: Event)
    requires Custody(bound, s) && CountsInv(s) && Enabled(s, e) && MovesJob(e)
    ensures CountsInv(Step(bound, s, e))
  {
    hide Step;
    hide Enabled;
    hide CustodyInv;
    hide Tally;
    StepMovesJob(bound, s, e);
    var c, j := e.c, Holder(s.conns[e.c]).value;
    HeldJob(bound, s, c);
    var x, y := s.conns[c], s.jobs[j];
    WorkedCounts(y, j, x, e);
    hide JobFits;
    hide Fits;
    hide Worked;
    hide Onward;
    hide Succeeded;
    hide WasRefused;
    hide TimedOut;
    hide Finished;
    hide WasCleared;
    hide Holds;
    hide HasResult;
    ConnTallies(s.conns, c, x.(pc := Onward(y, j, e)));
    JobTallies(s.jobs, j, Worked(y, e));
  }

  lemma WakesCounts(bound: nat, s: State, c: nat)
    requires Custody(bound, s) && CountsInv(s) && Enabled(s, Wakes(c))
    ensures CountsInv(Step(bound, s, Wakes(c)))
  {
    hide Tally;
    var s' := Step(bound, s, Wakes(c));
    ConnTallies(s.conns, c, s'.conns[c]);
    if s.running && s.queue != [] {
      var j := s.queue[0];
      assert j == |s.jobs| - |s.queue| && Fresh(s.jobs[j]);
      JobTallies(s.jobs, j, s.jobs[j].(taker := Some(c)));
    }
  }

  lemma {:induction false} ClearCounts(jobs: seq<Job>, queue: seq<nat>)
    requires forall k :: 0 <= k < |queue| ==> queue[k] < |jobs| && Fresh(jobs[queue[k]])
    requires forall k, l :: 0 <= k < l < |queue| ==> queue[k] != queue[l]
    ensures
      var r := Clear(jobs, queue);
      && Tally(r, Succeeded) == Tally(jobs, Succeeded) && Tally(r, WasRefused) == Tally(jobs, WasRefused)
      && Tally(r, TimedOut) == Tally(jobs, TimedOut) && Tally(r, Finished) == Tally(jobs, Finished)
      && Tally(r, WasCleared) == Tally(jobs, WasCleared) + |queue|
    decreases |queue|
  {
    hide Tally;
    if queue != [] {
      var j := queue[0];
      var rest := Clear(jobs, queue[1..]);
      forall k, l | 0 <= k < l < |queue| - 1 ensures queue[1..][k] != queue[1..][l] {
        assert queue[k + 1] != queue[l + 1];
      }
      forall k | 0 <= k < |queue| - 1 ensures queue[1..][k] < |jobs| && Fresh(jobs[queue[1..][k]]) {
        assert Fresh(jobs[queue[k + 1]]);
      }
      ClearCounts(jobs, queue[1..]);
      assert j !in queue[1..];
      assert Fresh(jobs[queue[0]]) && rest[j] == jobs[j];
      JobTallies(rest, j, jobs[j].(attempt := Cleared, done := true, outcome := Failed));
    }
  }

  lemma JobAppended(jobs: seq<Job>, y: Job)
    requires Fresh(y)
    ensures Tally(jobs + [y], Succeeded) == Tally(jobs, Succeeded)
    ensures Tally(jobs + [y], WasRefused) == Tally(jobs, WasRefused)
    ensures Tally(jobs + [y], TimedOut) == Tally(jobs, TimedOut)
    ensures Tally(jobs + [y], Finished) == Tally(jobs, Finished)
    ensures Tally(jobs + [y], WasCleared) == Tally(jobs, WasCleared)
  {
    TallyAppend(jobs, y, Succeeded);
    TallyAppend(jobs, y, WasRefused);
    TallyAppend(jobs, y, TimedOut);
    TallyAppend(jobs, y, Finished);
    TallyAppend(jobs, y, WasCleared);
  }

  lemma CountsStep(bound: nat, s: State, e: Event)
    requires Custody(bound, s) && CountsInv(s) && Enabled(s, e)
    ensures CountsInv(Step(bound, s, e))
  {
    hide Tally;
    if MovesConn(e) {
      ConnEventCounts(bound, s, e);
    } else if MovesJob(e) {
      JobEventCounts(bound, s, e);
    } else if e.Wakes? {
      WakesCounts(bound, s, e.c);
    } else if e.Publish? && |s.queue| < bound {
      JobAppended(s.jobs, Job(e.m, |s.calls|, None, Untried, false, Failed));
    } else if e.Drains? {
      ClearCounts(s.jobs, s.queue);
    }
  }

  // ----- connections and shutdown ---------------------------------------------

  function Pow2(n: nat): nat {
    if n == 0 then 1 else 2 * Pow2(n - 1)
  }

  // The wait after the k-th failed connect in a row is min(2^(k-1), 30) seconds; at
  // most one job is taken in an interval without a connection.
  predicate ConnInv(running: bool, x: Conn) {
    && x.backoff == Min(Pow2(x.failures), MAX_BACKOFF)
    && x.taken <= 1
    && (x.pc == Waiting && !x.connected ==> x.taken == 0)
    && (x.pc == Leaving || x.pc == Exited ==> !running)
    && (x.pc == Exited ==> !x.connected)
  }

  predicate MustHaveExited(s: State, c: nat) {
    s.stopping == Stopped || (s.stopping.Joining? && c < s.stopping.joined)
  }

  predicate StopInv(s: State) {
    && (forall c :: 0 <= c < |s.conns| ==> ConnInv(s.running, s.conns[c]))
    && (s.running <==> s.stopping == NotCalled)
    && (s.stopping.Joining? ==> s.stopping.joined <= |s.conns|)
    && (forall c :: 0 <= c < |s.conns| && MustHaveExited(s, c) ==> s.conns[c].pc == Exited)
    && (s.stopping == Stopped ==> s.drained + |s.queue| == |s.jobs|)
  }

  lemma MovedKeeps(running: bool, x: Conn, e: Event)
    requires ConnInv(running, x) && MovesConn(e)
    requires e.Leaves? ==> x.pc == Leaving
    ensures ConnInv(running, Moved(running, x, e))
  {
    assert Pow2(x.failures + 1) == 2 * Pow2(x.failures);
    assert Pow2(0) == 1;
  }

  lemma OtherStep(bound: nat, s: State, e: Event)
    requires StopInv(s) && Enabled(s, e) && !MovesConn(e) && !MovesJob(e)
    ensures StopInv(Step(bound, s, e))
  {
    hide Pow2;
    hide Clear;
    var s' := Step(bound, s, e);
    forall c | 0 <= c < |s'.conns| ensures ConnInv(s'.running, s'.conns[c]) {
      assert ConnInv(s.running, s.conns[c]);
    }
  }

  lemma ConnMovesStop(bound: nat, s: State, e: Event)
    requires StopInv(s) && Enabled(s, e) && MovesConn(e)
    ensures StopInv(Step(bound, s, e))
  {
    hide Step;
    hide Enabled;
    StepMovesConn(bound, s, e);
    assert ConnInv(s.running, s.conns[e.c]);
    MovedKeeps(s.running, s.conns[e.c], e);
    hide ConnInv;
    hide Moved;
  }

  lemma JobMovesStop(bound: nat, s: State, e: Event)
    requires StopInv(s) && Enabled(s, e) && MovesJob(e)
    ensures StopInv(Step(bound, s, e))
  {
    hide Step;
    hide Enabled;
    hide Pow2;
    hide Worked;
    StepMovesJob(bound, s, e);
    assert ConnInv(s.running, s.conns[e.c]);
  }

  lemma StopStep(bound: nat, s: State, e: Event)
    requires StopInv(s) && Enabled(s, e)
    ensures StopInv(Step(bound, s, e))
  {
    hide Step;
    hide Enabled;
    hide StopInv;
    if MovesConn(e) {
      ConnMovesStop(bound, s, e);
    } else if MovesJob(e) {
      JobMovesStop(bound, s, e);
    } else {
      OtherStep(bound, s, e);
    }
  }

  // ----- every interleaving ---------------------------------------------------

  predicate Inv(bound: nat, s: State) {
    Custody(bound, s) && CallsInv(s) && CountsInv(s) && StopInv(s)
  }

  lemma StartInv(bound: nat, connections: nat)
    ensures Inv(bound, Start(connections))
  {
    var s := Start(connections);
    TallyZero(s.conns, Holds);
    TallyZero(s.conns, HasResult);
  }

  lemma InvStep(bound: nat, s: State, e: Event)
    requires Inv(bound, s) && Enabled(s, e)
    ensures Inv(bound, Step(bound, s, e)) && |Step(bound, s, e).conns| == |s.conns|
  {
    hide Custody;
    hide CallsInv;
    hide CountsInv;
    hide StopInv;
    CustodyStep(bound, s, e);
    CallsStep(bound, s, e);
    CountsStep(bound, s, e);
    StopStep(bound, s, e);
  }

  predicate Legal(bound: nat, s: State, es: seq<Event>)
    decreases |es|
  {
    es == [] || (Enabled(s, es[0]) && Legal(bound, Step(bound, s, es[0]), es[1..]))
  }

  function Run(bound: nat, s: State, es: seq<Event>): State
    requires Legal(bound, s, es)
    decreases |es|
  {
    if es == [] then s else Run(bound, Step(bound, s, es[0]), es[1..])
  }

  lemma {:induction false} RunInv(bound: nat, s: State, es: seq<Event>)
    requires Inv(bound, s) && Legal(bound, s, es)
    ensures Inv(bound, Run(bound, s, es)) && |Run(bound, s, es).conns| == |s.conns|
    ensures JobsGrow(s.jobs, Run(bound, s, es).jobs)
    decreases |es|
  {
    hide Inv;
    hide Step;
    hide Enabled;
    if es != [] {
      InvStep(bound, s, es[0]);
      InvHasCustody(bound, s);
      StepGrowsJobs(bound, s, es[0]);
      RunInv(bound, Step(bound, s, es[0]), es[1..]);
    }
  }

  lemma InvHasCustody(bound: nat, s: State)
    requires Inv(bound, s)
    ensures Custody(bound, s)
  {
  }

  // The state after a legal run of the pool, whatever the interleaving.
  predicate Reachable(bound: nat, connections: nat, es: seq<Event>, s: State) {
    Legal(bound, Start(connections), es) && s == Run(bound, Start(connections), es)
  }

  lemma ReachableInv(bound: nat, connections: nat, es: seq<Event>, s: State)
    requires Reachable(bound, connections, es, s)
    ensures Inv(bound, s) && |s.conns| == connections
  {
    hide Inv;
    hide Run;
    hide Legal;
    StartInv(bound, connections);
    RunInv(bound, Start(connections), es);
  }

  predicate HeldBy(s: State, j: nat, c: nat) {
    c < |s.conns| && Holder(s.conns[c]) == Some(j)
  }

  // Every accepted job is in exactly one place: in the queue, with one connection, or
  // done; the queue is in the order of acceptance and never longer than its bound.
  lemma JobIsInOnePlace(bound: nat, connections: nat, es: seq<Event>, s: State, j: nat)
    requires Reachable(bound, connections, es, s) && j < |s.jobs|
    ensures |s.queue| <= bound
    ensures forall k, l :: 0 <= k < l < |s.queue| ==> s.queue[k] < s.queue[l]
    ensures j in s.queue ==> !s.jobs[j].done && forall c :: !HeldBy(s, j, c)
    ensures forall c :: HeldBy(s, j, c) ==> !s.jobs[j].done && j !in s.queue
    ensures forall c, d :: HeldBy(s, j, c) && HeldBy(s, j, d) ==> c == d
    ensures !s.jobs[j].done ==> j in s.queue || exists c :: HeldBy(s, j, c)
  {
    hide Run;
    hide Legal;
    ReachableInv(bound, connections, es, s);
    var taken := |s.jobs| - |s.queue|;
    forall c: nat | HeldBy(s, j, c) ensures j < taken && !s.jobs[j].done && s.jobs[j].taker == Some(c) {
      HeldJob(bound, s, c);
    }
    if j < taken {
      assert TakenInv(s.jobs, s.conns, j);
      assert !s.jobs[j].done ==> HeldBy(s, j, s.jobs[j].taker.value);
    } else {
      assert s.queue[j - taken] == j && Fresh(s.jobs[j]);
    }
  }

  // A connection that takes a job takes the oldest one not yet taken.
  lemma TakenInOrder(bound: nat, connections: nat, es: seq<Event>, s: State, c: nat)
    requires Reachable(bound, connections, es, s) && Enabled(s, Wakes(c)) && s.running && s.queue != []
    ensures HeldBy(Step(bound, s, Wakes(c)), s.queue[0], c)
    ensures s.queue[0] == |s.jobs| - |s.queue| && forall j :: 0 <= j < s.queue[0] ==> s.jobs[j].taker.Some? || s.jobs[j].done
  {
    hide Run;
    hide Legal;
    ReachableInv(bound, connections, es, s);
    forall j | 0 <= j < s.queue[0] ensures s.jobs[j].taker.Some? || s.jobs[j].done {
      assert TakenInv(s.jobs, s.conns, j);
    }
  }

  // An outcome is written once: whatever happens after a job is done, its record
  // stays as it is.
  lemma OutcomeIsFinal(bound: nat, connections: nat, es: seq<Event>, s: State, more: seq<Event>, j: nat)
    requires Reachable(bound, connections, es, s) && Legal(bound, s, more) && j < |s.jobs| && s.jobs[j].done
    ensures j < |Run(bound, s, more).jobs| && Run(bound, s, more).jobs[j] == s.jobs[j]
  {
    hide Inv;
    ReachableInv(bound, connections, es, s);
    hide Run;
    hide Legal;
    RunInv(bound, s, more);
  }

  // What a returned publish() tells its caller is true of the caller's own message.
  lemma ResultsAreTruthful(bound: nat, connections: nat, es: seq<Event>, s: State, k: nat)
    requires Reachable(bound, connections, es, s) && k < |s.calls|
    ensures s.calls[k].state == Rejected ==> forall j :: 0 <= j < |s.jobs| ==> s.jobs[j].call != k
    ensures s.calls[k].state.Returned? ==>
      var j, r := s.calls[k].state.job, s.calls[k].state.result;
      && j < |s.jobs| && s.jobs[j].call == k && s.jobs[j].message == s.calls[k].message
      && (r == Ok ==> s.jobs[j].attempt == if s.calls[k].message.qos == 0 then HandedOff else Acked)
      && (r == Failed ==> s.jobs[j].attempt == Refused || (s.jobs[j].attempt == Cleared && s.jobs[j].taker == None))
      && r != QueueFull
  {
    hide Run;
    hide Legal;
    ReachableInv(bound, connections, es, s);
    assert CallInv(s.calls, s.jobs, k);
    forall j | 0 <= j < |s.jobs| && s.jobs[j].call == k ensures s.calls[k].state != Rejected {
      assert CallerInv(s.calls, s.jobs, j);
    }
    if s.calls[k].state.Returned? && s.calls[k].state.result != Timeout {
      DoneJobFits(bound, s, s.calls[k].state.job);
    }
  }

  lemma DoneJobFits(bound: nat, s: State, j: nat)
    requires Custody(bound, s) && j < |s.jobs| && s.jobs[j].done
    ensures JobFits(s.jobs[j])
  {
    assert j >= |s.jobs| - |s.queue| ==> Fresh(s.jobs[j]);
    assert j < |s.jobs| - |s.queue| ==> TakenInv(s.jobs, s.conns, j);
  }

  // The counters are the numbers of attempts that ended that way, and no job is lost:
  // accepted = finished + cleared + held + queued.
  lemma CountersAddUp(bound: nat, connections: nat, es: seq<Event>, s: State)
    requires Reachable(bound, connections, es, s)
    ensures s.okTotal == Tally(s.jobs, Succeeded) && s.failedTotal == Tally(s.jobs, WasRefused)
    ensures s.timeoutTotal == Tally(s.jobs, TimedOut) && s.queueFullTotal == Tally(s.calls, IsRejected)
    ensures s.okTotal + s.failedTotal + s.timeoutTotal == Tally(s.jobs, Finished) + Tally(s.conns, HasResult)
    ensures |s.jobs| == Tally(s.jobs, Finished) + Tally(s.jobs, WasCleared) + Tally(s.conns, Holds) + |s.queue|
  {
    hide Run;
    hide Legal;
    ReachableInv(bound, connections, es, s);
  }

  // When stop() has returned, every job accepted before it cleared the queue is done;
  // so all are, exactly when nobody called publish() after that.
  lemma StopFinishesJobs(bound: nat, connections: nat, es: seq<Event>, s: State)
    requires Reachable(bound, connections, es, s) && s.stopping == Stopped
    ensures s.drained <= |s.jobs| && forall j :: 0 <= j < s.drained ==> s.jobs[j].done
    ensures (forall j :: 0 <= j < |s.jobs| ==> s.jobs[j].done) <==> s.drained == |s.jobs|
    ensures forall c :: 0 <= c < |s.conns| ==> s.conns[c].pc == Exited && !s.conns[c].connected
  {
    hide Run;
    hide Legal;
    ReachableInv(bound, connections, es, s);
    forall j | 0 <= j < s.drained ensures s.jobs[j].done {
      assert TakenInv(s.jobs, s.conns, j);
    }
    forall j | s.drained <= j < |s.jobs| ensures !s.jobs[j].done {
      assert Fresh(s.jobs[j]);
    }
    assert s.drained < |s.jobs| ==> !s.jobs[s.drained].done;
    forall c | 0 <= c < |s.conns| ensures s.conns[c].pc == Exited && !s.conns[c].connected {
      assert MustHaveExited(s, c) && ConnInv(s.running, s.conns[c]);
    }
  }

  // A connection takes at most one job while its flag is down, and each wait has the
  // length its run of failed connects calls for.
  lemma ConnectionDiscipline(bound: nat, connections: nat, es: seq<Event>, s: State, c: nat)
    requires Reachable(bound, connections, es, s) && c < |s.conns|
    ensures s.conns[c].taken <= 1
    ensures s.conns[c].pc == Waiting && !s.conns[c].connected ==> s.conns[c].taken == 0
    ensures s.conns[c].backoff == Min(Pow2(s.conns[c].failures), 30)
  {
    hide Run;
    hide Legal;
    ReachableInv(bound, connections, es, s);
    hide CustodyInv;
    hide CallsInv;
    hide CountsInv;
    hide Pow2;
    assert ConnInv(s.running, s.conns[c]);
  }

  predicate History(x: Conn, y: Conn, e: Event, own: bool) {
    && (!x.connected && y.connected ==> own && e.Connects?)
    && (x.connected && !y.connected ==> y.taken == 0)
    && (x.connected == y.connected ==> y.taken == x.taken + One(!x.connected && Holder(x) == None && Holder(y).Some?))
    && (y.pc == BackingOff && x.pc != BackingOff ==> own && e.ConnectFails? && y.backoff == x.backoff)
    && y.failures == if own && e.Connects? then 0 else x.failures + One(own && e.BackOffEnds?)
  }

  lemma MovedHistory(running: bool, x: Conn, e: Event)
    requires MovesConn(e)
    requires Holder(Moved(running, x, e)) == Holder(x)
    ensures History(x, Moved(running, x, e), e, true)
  {
  }

  lemma WorkedHistory(x: Conn, y: Job, j: nat, e: Event)
    requires MovesJob(e) && Holder(x) == Some(j)
    ensures History(x, x.(pc := Onward(y, j, e)), e, true)
  {
  }

  lemma WokenHistory(s: State, c: nat, d: nat)
    requires Enabled(s, Wakes(d)) && c < |s.conns|
    ensures History(s.conns[c], Woken(s, d).conns[c], Wakes(d), c == d)
  {
  }

  // The worker an event is a move of.
  function Mover(e: Event): Option<nat> {
    if MovesConn(e) || MovesJob(e) || e.Wakes? then Some(e.c) else None
  }

  lemma ConnMovesHistory(bound: nat, s: State, c: nat, e: Event)
    requires Enabled(s, e) && c < |s.conns| && MovesConn(e)
    ensures c < |Step(bound, s, e).conns| && History(s.conns[c], Step(bound, s, e).conns[c], e, e.c == c)
  {
    hide Step;
    hide Enabled;
    StepMovesConn(bound, s, e);
    MovedHistory(s.running, s.conns[e.c], e);
    hide Moved;
  }

  lemma JobMovesHistory(bound: nat, s: State, c: nat, e: Event)
    requires Enabled(s, e) && c < |s.conns| && MovesJob(e)
    ensures c < |Step(bound, s, e).conns| && History(s.conns[c], Step(bound, s, e).conns[c], e, e.c == c)
  {
    hide Step;
    hide Enabled;
    StepMovesJob(bound, s, e);
    var j := Holder(s.conns[e.c]).value;
    WorkedHistory(s.conns[e.c], s.jobs[j], j, e);
    hide Worked;
    hide Onward;
  }

  lemma ConnsStay(bound: nat, s: State, e: Event)
    requires Enabled(s, e) && Mover(e) == None
    ensures Step(bound, s, e).conns == s.conns
  {
  }

  lemma StepWakes(bound: nat, s: State, c: nat)
    requires Enabled(s, Wakes(c))
    ensures Step(bound, s, Wakes(c)) == Woken(s, c) && |Woken(s, c).conns| == |s.conns|
  {
  }

  // What the counts of ConnectionDiscipline count: only the connection's own worker
  // turns the flag on, a job taken with the flag down is counted, and the failures
  // grow by one per wait and are reset by a success.
  lemma ConnectionHistory(bound: nat, s: State, c: nat, e: Event)
    requires Enabled(s, e) && c < |s.conns|
    ensures c < |Step(bound, s, e).conns|
    ensures History(s.conns[c], Step(bound, s, e).conns[c], e, Mover(e) == Some(c))
  {
    hide Step;
    hide Enabled;
    if MovesConn(e) {
      ConnMovesHistory(bound, s, c, e);
    } else if MovesJob(e) {
      JobMovesHistory(bound, s, c, e);
    } else if e.Wakes? {
      StepWakes(bound, s, e.c);
      WokenHistory(s, c, e.c);
    } else {
      ConnsStay(bound, s, e);
    }
  }

  // ----- the object of the source ---------------------------------------------

  // Each method is one critical section or one shared access, as the source writes
  // it; its effect is the step of the same name.
  class MqttClient {
    const bound: nat
    var running: bool
    var queue: seq<nat>
    var jobs: seq<Job>
    var calls: seq<Call>
    var conns: seq<Conn>
    var stopping: Stopping
    var drained: nat
    var okTotal: nat
    var failedTotal: nat
    var timeoutTotal: nat
    var queueFullTotal: nat

    function S(): State
      reads this
    {
      State(running, queue, jobs, calls, conns, stopping, drained, okTotal, failedTotal, timeoutTotal, queueFullTotal)
    }

    constructor (poolSize: nat, queueSize: nat)
      ensures bound == queueSize && S() == Start(poolSize)
    {
      bound := queueSize;
      running, queue, jobs, calls := true, [], [], [];
      conns := seq(poolSize, _ => Conn(Top, false, 1, 0, 0));
      stopping, drained := NotCalled, 0;
      okTotal, failedTotal, timeoutTotal, queueFullTotal := 0, 0, 0, 0;
    }

    // publish() up to the end of its critical section.
    method PublishLocked(m: Message) returns (accepted: bool)
      modifies this
      ensures S() == Step(bound, old(S()), Publish(m)) && accepted == (|old(queue)| < bound)
    {
      if |queue| >= bound {
        queueFullTotal := queueFullTotal + 1;
        calls := calls + [Call(m, Rejected)];
        return false;
      }
      var id := |jobs|;
      jobs := jobs + [Job(m, |calls|, None, Untried, false, Failed)];
      calls := calls + [Call(m, Waits(id))];
      queue := queue + [id];
      return true;
    }

    // The end of publish(): the job is done, or the wait ran out.
    method AwaitOutcome(call: nat) returns (result: Outcome)
      requires Enabled(S(), CallReturns(call)) || Enabled(S(), CallTimesOut(call))
      modifies this`calls
      ensures S() == Step(bound, old(S()), if old(Enabled(S(), CallReturns(call))) then CallReturns(call) else CallTimesOut(call))
      ensures calls[call].state == Returned(old(calls[call].state.job), result)
    {
      var j := calls[call].state.job;
      if !jobs[j].done {
        result := Timeout;
      } else {
        result := jobs[j].outcome;
      }
      calls := calls[call := calls[call].(state := Returned(j, result))];
    }

    // worker_loop() after a connect attempt.
    method ConnectTried(c: nat, success: bool)
      requires Enabled(S(), if success then Connects(c) else ConnectFails(c))
      modifies this`conns
      ensures S() == Step(bound, old(S()), if success then Connects(c) else ConnectFails(c))
    {
      var x := conns[c];
      if success {
        conns := conns[c := x.(pc := Top, connected := true, backoff := 1, failures := 0)];
      } else {
        conns := conns[c := x.(pc := BackingOff)];
      }
    }

    method BackOffOver(c: nat)
      requires Enabled(S(), BackOffEnds(c))
      modifies this`conns
      ensures S() == Step(bound, old(S()), BackOffEnds(c))
    {
      var x := conns[c];
      var next := if x.backoff * 2 <= MAX_BACKOFF then x.backoff * 2 else MAX_BACKOFF;
      conns := conns[c := x.(pc := Top, backoff := next, failures := x.failures + 1)];
    }

    // worker_loop() from the end of its wait to the end of its critical section.
    method TakeJob(c: nat)
      requires Enabled(S(), Wakes(c))
      modifies this
      ensures S() == Step(bound, old(S()), Wakes(c))
    {
      var x := conns[c];
      if !running {
        conns := conns[c := x.(pc := Leaving)];
        return;
      }
      if queue == [] {
        conns := conns[c := x.(pc := Top)];
        return;
      }
      var job := queue[0];
      assert JobExists(S(), job);
      queue := queue[1..];
      jobs := jobs[job := jobs[job].(taker := Some(c))];
      conns := conns[c := x.(pc := Holding(job), taken := if x.connected then x.taken else x.taken + 1)];
    }

    // run_job() at the answer of MQTTClient_publishMessage.
    method PublishMessageAnswered(c: nat, success: bool)
      requires Enabled(S(), if success then PahoTakes(c) else PahoRefuses(c))
      modifies this
      ensures S() == Step(bound, old(S()), if success then PahoTakes(c) else PahoRefuses(c))
    {
      StepMovesJob(bound, S(), if success then PahoTakes(c) else PahoRefuses(c));
      hide Step;
      hide Enabled;
      var job := conns[c].pc.job;
      if !success {
        failedTotal := failedTotal + 1;
        jobs := jobs[job := jobs[job].(attempt := Refused)];
        conns := conns[c := conns[c].(pc := Dropping(job))];
      } else if jobs[job].message.qos == 0 {
        okTotal := okTotal + 1;
        jobs := jobs[job := jobs[job].(attempt := HandedOff)];
        conns := conns[c := conns[c].(pc := Reporting(job))];
      } else {
        jobs := jobs[job := jobs[job].(attempt := Given)];
        conns := conns[c := conns[c].(pc := Acking(job))];
      }
    }

    // run_job() at the answer of MQTTClient_waitForCompletion.
    method CompletionAnswered(c: nat, success: bool)
      requires Enabled(S(), if success then AckArrives(c) else AckTimesOut(c))
      modifies this
      ensures S() == Step(bound, old(S()), if success then AckArrives(c) else AckTimesOut(c))
    {
      StepMovesJob(bound, S(), if success then AckArrives(c) else AckTimesOut(c));
      hide Step;
      hide Enabled;
      var job := conns[c].pc.job;
      if success {
        okTotal := okTotal + 1;
        jobs := jobs[job := jobs[job].(attempt := Acked)];
        conns := conns[c := conns[c].(pc := Reporting(job))];
      } else {
        timeoutTotal := timeoutTotal + 1;
        jobs := jobs[job := jobs[job].(attempt := NoAck)];
        conns := conns[c := conns[c].(pc := Dropping(job))];
      }
    }

    // The end of run_job().
    method ReportOutcome(c: nat)
      requires Enabled(S(), Reports(c))
      modifies this
      ensures S() == Step(bound, old(S()), Reports(c))
    {
      var job := conns[c].pc.job;
      jobs := jobs[job := jobs[job].(done := true, outcome := OutcomeOf(jobs[job].attempt))];
      conns := conns[c := conns[c].(pc := Top)];
    }

    method OnConnectionLost(c: nat)
      requires Enabled(S(), ConnectionLost(c))
      modifies this`conns
      ensures S() == Step(bound, old(S()), ConnectionLost(c))
    {
      conns := conns[c := FlagCleared(conns[c])];
    }

    // stop() behind the joins: whatever is still queued never ran.
    method DrainQueue()
      requires Enabled(S(), Drains)
      modifies this
      ensures S() == Step(bound, old(S()), Drains)
    {
      StepDrains(bound, S());
      hide Step;
      hide Enabled;
      drained := |jobs|;
      jobs := FailQueued(jobs, queue);
      queue := [];
      stopping := Stopped;
    }
  }

  // The loop of stop() over the queued jobs.
  method FailQueued(before: seq<Job>, queue: seq<nat>) returns (jobs: seq<Job>)
    ensures jobs == Clear(before, queue)
  {
    jobs := before;
    for k := 0 to |queue|
      invariant |jobs| == |before|
      invariant forall j :: 0 <= j < |jobs| ==> jobs[j] == if j in queue[..k] then Emptied(before[j]) else before[j]
    {
      var job := queue[k];
      assert queue[..k + 1] == queue[..k] + [job];
      if job < |jobs| {
        jobs := jobs[job := jobs[job].(attempt := Cleared, done := true, outcome := Failed)];
      }
    }
    assert queue[..|queue|] == queue;
  }
}
