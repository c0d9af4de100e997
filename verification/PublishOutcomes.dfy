/** What publish() answers, against what was done with the message: over whole runs of
    the publish pool (src/mqtt.cpp:80-96, 129-157, 376-436).  The answer about a job is
    the last event that decides about it; the record the pool keeps is not asked. */
module PublishOutcomes {
  import opened Text
  import opened PublishPool

  // ----- the answer about a job -----------------------------------------------

  // Paho answers the connection that has the job, or stop() finds it in the queue.
  predicate Answers(s: State, e: Event, j: nat) {
    match e
    case PahoTakes(c) => HeldBy(s, j, c)
    case PahoRefuses(c) => HeldBy(s, j, c)
    case AckArrives(c) => HeldBy(s, j, c)
    case AckTimesOut(c) => HeldBy(s, j, c)
    case Drains => j in s.queue
    case _ => false
  }

  // The last answer of a run, or the one before it.
  function LastAnswer(bound: nat, s: State, es: seq<Event>, j: nat, before: Option<Event>): Option<Event>
    requires Legal(bound, s, es)
    decreases |es|
  {
    if es == [] then before
    else LastAnswer(bound, Step(bound, s, es[0]), es[1..], j, if Answers(s, es[0], j) then Some(es[0]) else before)
  }

  // What the caller is told: success is an acknowledgement or, for QoS 0, that Paho
  // took the message.
  predicate Told(r: Outcome, qos: nat, a: Event) {
    && (r == Ok <==> a.AckArrives? || (a.PahoTakes? && qos == 0))
    && (r == Timeout <==> a.AckTimesOut?)
    && (r == Failed <==> a.PahoRefuses? || a.Drains?)
  }

  // The record of a job is that of its last answer.
  predicate RecordIs(x: Job, a: Option<Event>) {
    && (a == None <==> x.attempt == Untried)
    && (a.Some? ==>
          match a.value
          case PahoTakes(_) => x.attempt == if x.message.qos == 0 then HandedOff else Given
          case PahoRefuses(_) => x.attempt == Refused
          case AckArrives(_) => x.attempt == Acked
          case AckTimesOut(_) => x.attempt == NoAck
          case Drains => x.attempt == Cleared
          case _ => false)
    && (x.done ==> a.Some? && Told(x.outcome, x.message.qos, a.value))
  }

  predicate RecordHolds(s: State, j: nat, a: Option<Event>) {
    if j < |s.jobs| then RecordIs(s.jobs[j], a) else a == None
  }

  // What a step does to a job it answers, or finishes.
  lemma AnswerStep(bound: nat, s: State, e: Event, j: nat, a: Option<Event>)
    requires Custody(bound, s) && Enabled(s, e) && RecordHolds(s, j, a)
    ensures RecordHolds(Step(bound, s, e), j, if Answers(s, e, j) then Some(e) else a)
  {
    if MovesJob(e) {
      WorkedStep(bound, s, e, j, a);
    } else if e.Drains? {
      DrainedStep(bound, s, j, a);
    } else {
      UntouchedStep(bound, s, e, j);
    }
  }

  lemma WorkedStep(bound: nat, s: State, e: Event, j: nat, a: Option<Event>)
    requires Custody(bound, s) && Enabled(s, e) && MovesJob(e) && RecordHolds(s, j, a)
    ensures RecordHolds(Step(bound, s, e), j, if Answers(s, e, j) then Some(e) else a)
  {
    hide Step;
    hide Custody;
    hide JobFits;
    StepMovesJob(bound, s, e);
    HeldJob(bound, s, e.c);
    hide Enabled;
    var y := s.jobs[Holder(s.conns[e.c]).value];
    if j < |s.jobs| && Answers(s, e, j) {
      WorkedRecord(y, e, a);
    } else if e.Reports? && HeldBy(s, j, e.c) {
      ReportedRecord(y, e, a);
    }
    hide Onward;
    hide Worked;
    hide Told;
  }

  lemma WorkedRecord(y: Job, e: Event, a: Option<Event>)
    requires MovesJob(e) && !e.Reports? && !y.done && RecordIs(y, a)
    ensures RecordIs(Worked(y, e), Some(e))
  {
  }

  lemma ReportedRecord(y: Job, e: Event, a: Option<Event>)
    requires e.Reports? && RecordIs(y, a) && y.attempt in {HandedOff, Acked, Refused, NoAck}
    ensures RecordIs(Worked(y, e), a)
  {
  }

  lemma DrainedStep(bound: nat, s: State, j: nat, a: Option<Event>)
    requires Custody(bound, s) && Enabled(s, Drains) && RecordHolds(s, j, a)
    ensures RecordHolds(Step(bound, s, Drains), j, if Answers(s, Drains, j) then Some(Drains) else a)
  {
    StepDrains(bound, s);
    hide Step;
    hide Clear;
    assert forall k :: 0 <= k < |s.queue| ==> s.queue[k] < |s.jobs|;
  }

  // Any other event leaves the record of a job as it is, or adds a fresh one.
  lemma UntouchedStep(bound: nat, s: State, e: Event, j: nat)
    requires Enabled(s, e) && !MovesJob(e) && !e.Drains?
    ensures
      var t := Step(bound, s, e);
      if j < |s.jobs| then
        j < |t.jobs| && t.jobs[j] == s.jobs[j].(taker := t.jobs[j].taker)
      else
        j < |t.jobs| ==> Fresh(t.jobs[j])
  {
    hide Moved;
  }

  lemma {:induction false} AnswerRun(bound: nat, s: State, es: seq<Event>, j: nat, a: Option<Event>)
    requires Inv(bound, s) && Legal(bound, s, es) && RecordHolds(s, j, a)
    ensures RecordHolds(Run(bound, s, es), j, LastAnswer(bound, s, es, j, a))
    decreases |es|
  {
    hide Inv;
    hide Step;
    hide Enabled;
    hide Answers;
    hide RecordHolds;
    if es != [] {
      InvStep(bound, s, es[0]);
      InvHasCustody(bound, s);
      AnswerStep(bound, s, es[0], j, a);
      AnswerRun(bound, Step(bound, s, es[0]), es[1..], j, if Answers(s, es[0], j) then Some(es[0]) else a);
    }
  }

  // In every interleaving the outcome of a job that is done is what the last answer
  // about it calls for, and the pool's record of every job is that of its last answer.
  lemma OutcomesAreTheAnswers(bound: nat, connections: nat, es: seq<Event>, s: State, j: nat)
    requires Reachable(bound, connections, es, s) && j < |s.jobs|
    ensures
      var a := LastAnswer(bound, Start(connections), es, j, None);
      && RecordIs(s.jobs[j], a)
      && (s.jobs[j].done ==> a.Some? && Told(s.jobs[j].outcome, s.jobs[j].message.qos, a.value))
  {
    StartInv(bound, connections);
    AnswerRun(bound, Start(connections), es, j, None);
  }

  // The same by the attempt on record.
  lemma OutcomesAreExact(bound: nat, connections: nat, es: seq<Event>, s: State, j: nat)
    requires Reachable(bound, connections, es, s) && j < |s.jobs| && s.jobs[j].done
    ensures s.jobs[j].outcome == Ok <==> s.jobs[j].attempt in {HandedOff, Acked}
    ensures s.jobs[j].outcome == Timeout <==> s.jobs[j].attempt == NoAck
    ensures s.jobs[j].outcome == Failed <==> s.jobs[j].attempt in {Refused, Cleared}
  {
    OutcomesAreTheAnswers(bound, connections, es, s, j);
    hide Reachable;
    hide LastAnswer;
  }

  // A publish() that returns with its job done gives its caller exactly that, about the
  // caller's own message; one that returns before gives Timeout.
  lemma ReturnsAreExact(bound: nat, connections: nat, es: seq<Event>, s: State, k: nat)
    requires Reachable(bound, connections, es, s)
    requires Enabled(s, CallReturns(k)) || Enabled(s, CallTimesOut(k))
    ensures
      var j := s.calls[k].state.job;
      var e := if s.jobs[j].done then CallReturns(k) else CallTimesOut(k);
      var a := LastAnswer(bound, Start(connections), es, j, None);
      && s.jobs[j].message == s.calls[k].message
      && Enabled(s, e) && Step(bound, s, e).calls[k].state.Returned?
      && (s.jobs[j].done ==> a.Some? && Told(Step(bound, s, e).calls[k].state.result, s.calls[k].message.qos, a.value))
      && (!s.jobs[j].done ==> Step(bound, s, e).calls[k].state.result == Timeout)
  {
    hide Reachable;
    hide LastAnswer;
    hide Told;
    hide RecordIs;
    hide Step;
    hide Inv;
    ReachableInv(bound, connections, es, s);
    CallsOwnJob(bound, s, k);
    OutcomesAreTheAnswers(bound, connections, es, s, s.calls[k].state.job);
    StepCalls(bound, s, if s.jobs[s.calls[k].state.job].done then CallReturns(k) else CallTimesOut(k));
  }

  lemma CallsOwnJob(bound: nat, s: State, k: nat)
    requires Inv(bound, s) && k < |s.calls| && s.calls[k].state.Waits? && JobExists(s, s.calls[k].state.job)
    ensures s.jobs[s.calls[k].state.job].message == s.calls[k].message
  {
    assert CallInv(s.calls, s.jobs, k);
  }

  // ----- what a failure does to its connection --------------------------------

  predicate Unpublished(a: Attempt) {
    a == Refused || a == NoAck
  }

  // A connection about to report a failure has been given up.
  predicate DroppedFirst(s: State, c: nat) {
    c < |s.conns| && s.conns[c].pc.Reporting? && JobExists(s, s.conns[c].pc.job) && Unpublished(s.jobs[s.conns[c].pc.job].attempt) ==>
      !s.conns[c].connected
  }

  lemma DropStep(bound: nat, s: State, e: Event, c: nat)
    requires Custody(bound, s) && Enabled(s, e) && DroppedFirst(s, c)
    ensures DroppedFirst(Step(bound, s, e), c)
  {
    var t := Step(bound, s, e);
    if c < |t.conns| && t.conns[c].pc.Reporting? {
      if MovesJob(e) {
        JobDropStep(bound, s, e, c);
      } else if MovesConn(e) {
        ConnDropStep(bound, s, e, c);
      } else {
        SameConn(bound, s, e, c);
      }
    }
  }

  lemma ConnDropStep(bound: nat, s: State, e: Event, c: nat)
    requires Enabled(s, e) && MovesConn(e) && DroppedFirst(s, c)
    ensures DroppedFirst(Step(bound, s, e), c)
  {
    StepMovesConn(bound, s, e);
    hide Step;
  }

  lemma JobDropStep(bound: nat, s: State, e: Event, c: nat)
    requires Custody(bound, s) && Enabled(s, e) && MovesJob(e) && DroppedFirst(s, c)
    ensures DroppedFirst(Step(bound, s, e), c)
  {
    hide Step;
    hide Custody;
    hide JobFits;
    StepMovesJob(bound, s, e);
    HeldJob(bound, s, e.c);
    if c < |s.conns| && Holder(s.conns[c]).Some? {
      HeldJob(bound, s, c);
    }
    hide Enabled;
  }

  // The other events leave a reporting connection and its job as they are.
  lemma SameConn(bound: nat, s: State, e: Event, c: nat)
    requires Custody(bound, s) && Enabled(s, e) && !MovesJob(e) && !MovesConn(e)
    requires c < |Step(bound, s, e).conns| && Step(bound, s, e).conns[c].pc.Reporting?
    ensures
      var t := Step(bound, s, e);
      && c < |s.conns| && t.conns[c] == s.conns[c] && JobExists(s, s.conns[c].pc.job) && JobExists(t, s.conns[c].pc.job)
      && t.jobs[s.conns[c].pc.job].attempt == s.jobs[s.conns[c].pc.job].attempt
  {
    if e.Drains? {
      StepDrains(bound, s);
      HeldJob(bound, s, c);
      hide Clear;
      assert forall k :: 0 <= k < |s.queue| ==> s.queue[k] >= |s.jobs| - |s.queue|;
    } else {
      if e.Wakes? {
        StepWakes(bound, s, e.c);
      }
      HeldJob(bound, s, c);
    }
    hide HolderInv;
    hide TakenInv;
  }

  lemma {:induction false} DropRun(bound: nat, s: State, es: seq<Event>, c: nat)
    requires Inv(bound, s) && Legal(bound, s, es) && DroppedFirst(s, c)
    ensures DroppedFirst(Run(bound, s, es), c)
    decreases |es|
  {
    hide Inv;
    hide Step;
    hide Enabled;
    hide DroppedFirst;
    if es != [] {
      InvStep(bound, s, es[0]);
      InvHasCustody(bound, s);
      DropStep(bound, s, es[0], c);
      DropRun(bound, Step(bound, s, es[0]), es[1..], c);
    }
  }

  // A connection's flag goes down by these events and no other.
  predicate FlagMoves(x: Conn, y: Conn, c: nat, e: Event) {
    && (x.connected && !y.connected ==> e == ConnectionLost(c) || e == Leaves(c) || (e == Drops(c) && x.pc.Dropping?))
    && (e == Drops(c) || e == Leaves(c) || e == ConnectionLost(c) ==> !y.connected)
  }

  lemma ConnFlag(bound: nat, s: State, e: Event, c: nat)
    requires Enabled(s, e) && MovesConn(e) && c < |s.conns|
    ensures c < |Step(bound, s, e).conns| && FlagMoves(s.conns[c], Step(bound, s, e).conns[c], c, e)
  {
    StepMovesConn(bound, s, e);
    hide Step;
    hide Enabled;
  }

  lemma OtherFlag(bound: nat, s: State, e: Event, c: nat)
    requires Enabled(s, e) && !MovesConn(e) && c < |s.conns|
    ensures c < |Step(bound, s, e).conns| && FlagMoves(s.conns[c], Step(bound, s, e).conns[c], c, e)
  {
    hide Step;
    if MovesJob(e) {
      StepMovesJob(bound, s, e);
      hide Worked;
      hide Onward;
    } else if e.Wakes? {
      StepWakes(bound, s, e.c);
    } else {
      ConnsStay(bound, s, e);
    }
    hide Enabled;
  }

  // A connection that failed to publish is given up before the failure is reported, and
  // a connection's flag goes down only then, when the connection is lost or when its
  // worker leaves; so after a success it stays up.
  lemma FailureDropsConnection(bound: nat, connections: nat, es: seq<Event>, s: State, c: nat, e: Event)
    requires Reachable(bound, connections, es, s) && Enabled(s, e) && c < |s.conns|
    ensures e == Reports(c) && Unpublished(s.jobs[s.conns[c].pc.job].attempt) ==> !s.conns[c].connected
    ensures c < |Step(bound, s, e).conns| && FlagMoves(s.conns[c], Step(bound, s, e).conns[c], c, e)
  {
    StartInv(bound, connections);
    DropRun(bound, Start(connections), es, c);
    hide Run;
    hide Legal;
    hide Inv;
    hide Step;
    hide FlagMoves;
    if MovesConn(e) {
      ConnFlag(bound, s, e, c);
    } else {
      OtherFlag(bound, s, e, c);
    }
  }

  // ----- the messages given ---------------------------------------------------

  function Messages(calls: seq<Call>): seq<Message> {
    seq(|calls|, k requires 0 <= k < |calls| => calls[k].message)
  }

  // The messages publish() was called with, in order.
  function Published(es: seq<Event>): seq<Message> {
    if es == [] then []
    else (if es[0].Publish? then [es[0].m] else []) + Published(es[1..])
  }

  lemma MessagesStep(bound: nat, s: State, e: Event)
    requires Enabled(s, e)
    ensures Messages(Step(bound, s, e).calls) == Messages(s.calls) + if e.Publish? then [e.m] else []
  {
    StepCalls(bound, s, e);
    hide Step;
  }

  lemma {:induction false} MessagesRun(bound: nat, s: State, es: seq<Event>)
    requires Legal(bound, s, es)
    ensures Messages(Run(bound, s, es).calls) == Messages(s.calls) + Published(es)
    decreases |es|
  {
    hide Step;
    hide Enabled;
    if es != [] {
      MessagesStep(bound, s, es[0]);
      MessagesRun(bound, Step(bound, s, es[0]), es[1..]);
    }
  }

  // Call k is about the k-th message given to publish(), and so is the job it waits for.
  lemma JobsCarryTheMessages(bound: nat, connections: nat, es: seq<Event>, s: State)
    requires Reachable(bound, connections, es, s)
    ensures |s.calls| == |Published(es)|
    ensures forall k :: 0 <= k < |s.calls| ==> s.calls[k].message == Published(es)[k]
    ensures forall j :: 0 <= j < |s.jobs| ==>
      s.jobs[j].call < |s.calls| && s.jobs[j].message == Published(es)[s.jobs[j].call]
  {
    ReachableInv(bound, connections, es, s);
    MessagesRun(bound, Start(connections), es);
    hide Run;
    hide Legal;
    hide Published;
    hide CustodyInv;
    hide CountsInv;
    hide StopInv;
    assert Messages(s.calls) == Published(es);
    forall k | 0 <= k < |s.calls| ensures s.calls[k].message == Messages(s.calls)[k] {
    }
    forall j | 0 <= j < |s.jobs| ensures s.jobs[j].call < |s.calls| && s.jobs[j].message == s.calls[s.jobs[j].call].message {
      assert CallerInv(s.calls, s.jobs, j);
      assert CallInv(s.calls, s.jobs, s.jobs[j].call);
    }
  }

  // A publish() is turned away exactly when the queue is as long as it may be, and
  // queued behind the others otherwise.
  lemma RejectedWhenFull(bound: nat, connections: nat, es: seq<Event>, s: State, m: Message)
    requires Reachable(bound, connections, es, s)
    ensures
      var t := Step(bound, s, Publish(m));
      && |t.calls| == |s.calls| + 1
      && (t.calls[|s.calls|].state == Rejected <==> |s.queue| == bound)
      && t.queue == if |s.queue| == bound then s.queue else s.queue + [|s.jobs|]
  {
    hide Reachable;
    ReachableInv(bound, connections, es, s);
  }
}
