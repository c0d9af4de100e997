/** MqttClient::stop returns for the publish connections, and no publish() waits for
    ever: src/mqtt.cpp:60-96, 129-157 and 288-436.  The waits of these workers are
    timed, so they see the cleared flag; the subscription's worker is StopRace's. */
module PoolStops {
  import opened Text
  import opened Counting
  import opened PublishPool

  // How many moves a worker has left once the flag is down.
  function Rank(x: Conn): nat {
    match x.pc
    case Exited => 0
    case Leaving => 1
    case Waiting => 2
    case Top => 3
    case Reporting(_) => 4
    case BackingOff => 4
    case Dropping(_) => 5
    case Connecting => 5
    case Acking(_) => 6
    case Check => 6
    case Holding(_) => 7
  }

  predicate IsWaiting(x: Call) {
    x.state.Waits?
  }

  function Work(s: State): nat {
    Sum(s.conns, Rank) + Tally(s.calls, IsWaiting) +
    match s.stopping
    case NotCalled => |s.conns| + 2
    case Joining(n) => if n <= |s.conns| then |s.conns| - n + 1 else 0
    case Stopped => 0
  }

  // A new call of publish(), or a connection lost, which may happen any number of times.
  predicate FromOutside(e: Event) {
    e.Publish? || e.ConnectionLost?
  }

  lemma ConnWorkDecreases(bound: nat, s: State, e: Event)
    requires StopInv(s) && !s.running && Enabled(s, e) && MovesConn(e) && !e.ConnectionLost?
    ensures Work(Step(bound, s, e)) < Work(s)
  {
    hide Step;
    hide StopInv;
    hide Sum;
    hide Tally;
    StepMovesConn(bound, s, e);
    SumUpdate(s.conns, e.c, Moved(s.running, s.conns[e.c], e), Rank);
  }

  lemma JobWorkDecreases(bound: nat, s: State, e: Event)
    requires StopInv(s) && !s.running && Enabled(s, e) && MovesJob(e)
    ensures Work(Step(bound, s, e)) < Work(s)
  {
    StepMovesJob(bound, s, e);
    var j := Holder(s.conns[e.c]).value;
    SumUpdate(s.conns, e.c, s.conns[e.c].(pc := Onward(s.jobs[j], j, e)), Rank);
    hide Step;
    hide StopInv;
    hide Sum;
    hide Tally;
    hide Worked;
  }

  lemma CallWorkDecreases(bound: nat, s: State, e: Event)
    requires Enabled(s, e) && (e.CallReturns? || e.CallTimesOut?)
    ensures Work(Step(bound, s, e)) < Work(s)
  {
    hide Sum;
    hide Tally;
    var t := Step(bound, s, e);
    TallyUpdate(s.calls, e.call, t.calls[e.call], IsWaiting);
    assert t.calls == s.calls[e.call := t.calls[e.call]];
  }

  lemma WakesWorkDecreases(bound: nat, s: State, c: nat)
    requires !s.running && Enabled(s, Wakes(c))
    ensures Work(Step(bound, s, Wakes(c))) < Work(s)
  {
    hide Sum;
    hide Tally;
    StepWakes(bound, s, c);
    SumUpdate(s.conns, c, s.conns[c].(pc := Leaving), Rank);
    hide Step;
  }

  lemma JoinWorkDecreases(bound: nat, s: State, e: Event)
    requires StopInv(s) && Enabled(s, e) && (e.Joins? || e.Drains?)
    ensures Work(Step(bound, s, e)) < Work(s)
  {
    hide Sum;
    hide Tally;
    hide Clear;
    hide ConnInv;
  }

  // Once stop() has cleared the flag, every step leaves less to do, apart from new calls
  // of publish() and connections that are lost.
  lemma WorkDecreases(bound: nat, s: State, e: Event)
    requires Inv(bound, s) && s.stopping != NotCalled && Enabled(s, e) && !FromOutside(e)
    ensures Work(Step(bound, s, e)) < Work(s) && Step(bound, s, e).stopping != NotCalled
  {
    FlagIsDown(bound, s);
    StaysStopping(bound, s, e);
    hide *;
    if MovesConn(e) {
      ConnWorkDecreases(bound, s, e);
    } else if MovesJob(e) {
      JobWorkDecreases(bound, s, e);
    } else if e.CallReturns? || e.CallTimesOut? {
      CallWorkDecreases(bound, s, e);
    } else if e.Wakes? {
      WakesWorkDecreases(bound, s, e.c);
    } else {
      JoinWorkDecreases(bound, s, e);
    }
  }

  lemma FlagIsDown(bound: nat, s: State)
    requires Inv(bound, s) && s.stopping != NotCalled
    ensures StopInv(s) && !s.running
  {
  }

  lemma StaysStopping(bound: nat, s: State, e: Event)
    requires Enabled(s, e) && s.stopping != NotCalled
    ensures Step(bound, s, e).stopping != NotCalled && !e.StopBegins?
  {
  }

  // ----- something moves ------------------------------------------------------

  // What a worker does next.
  function NextMove(pc: Pc, c: nat): Event
    requires pc != Exited
  {
    match pc
    case Top => Loop(c)
    case Check => TestFlag(c)
    case Connecting => Connects(c)
    case BackingOff => BackOffEnds(c)
    case Waiting => Wakes(c)
    case Holding(_) => PahoTakes(c)
    case Acking(_) => AckArrives(c)
    case Dropping(_) => Drops(c)
    case Reporting(_) => Reports(c)
    case Leaving => Leaves(c)
  }

  lemma WorkerMoves(bound: nat, s: State, c: nat)
    requires Custody(bound, s) && c < |s.conns| && s.conns[c].pc != Exited
    ensures Enabled(s, NextMove(s.conns[c].pc, c)) && !FromOutside(NextMove(s.conns[c].pc, c))
  {
    if Holder(s.conns[c]).Some? {
      HeldJob(bound, s, c);
    }
    hide Custody;
    assert s.conns[c].pc == Waiting ==> forall k :: 0 <= k < |s.queue| ==> JobExists(s, s.queue[k]) by {
      QueueExists(bound, s);
    }
  }

  lemma QueueExists(bound: nat, s: State)
    requires Custody(bound, s)
    ensures forall k :: 0 <= k < |s.queue| ==> JobExists(s, s.queue[k])
  {
  }

  // Until stop() has returned some thread can move.
  lemma StopMoves(bound: nat, s: State) returns (e: Event)
    requires Inv(bound, s) && s.stopping.Joining?
    ensures Enabled(s, e) && !FromOutside(e)
  {
    JoinedIsInRange(bound, s);
    InvHasCustody(bound, s);
    hide *;
    var n := s.stopping.joined;
    if n == |s.conns| {
      JoinMoves(s);
      e := Drains;
    } else if s.conns[n].pc == Exited {
      JoinMoves(s);
      e := Joins;
    } else {
      WorkerMoves(bound, s, n);
      e := NextMove(s.conns[n].pc, n);
    }
  }

  lemma JoinMoves(s: State)
    requires s.stopping.Joining? && s.stopping.joined <= |s.conns|
    ensures !FromOutside(Drains) && !FromOutside(Joins)
    ensures s.stopping.joined == |s.conns| ==> Enabled(s, Drains)
    ensures s.stopping.joined < |s.conns| && s.conns[s.stopping.joined].pc == Exited ==> Enabled(s, Joins)
  {
  }

  lemma JoinedIsInRange(bound: nat, s: State)
    requires Inv(bound, s) && s.stopping.Joining?
    ensures s.stopping.joined <= |s.conns|
  {
  }

  // A waiting call can return, with its job done or the time over.
  lemma CallMoves(bound: nat, s: State, k: nat)
    requires Inv(bound, s) && k < |s.calls| && s.calls[k].state.Waits?
    ensures Enabled(s, CallReturns(k)) || Enabled(s, CallTimesOut(k))
  {
    assert CallInv(s.calls, s.jobs, k);
    hide Custody;
    hide CountsInv;
    hide StopInv;
  }

  predicate NoneFromOutside(es: seq<Event>) {
    forall k :: 0 <= k < |es| ==> !FromOutside(es[k])
  }

  lemma {:induction false} RunsAreShort(bound: nat, s: State, es: seq<Event>)
    requires Inv(bound, s) && s.stopping != NotCalled && Legal(bound, s, es) && NoneFromOutside(es)
    ensures |es| + Work(Run(bound, s, es)) <= Work(s) && Run(bound, s, es).stopping != NotCalled
    ensures Inv(bound, Run(bound, s, es))
    decreases |es|
  {
    hide Work;
    hide Step;
    hide Enabled;
    hide Inv;
    hide FromOutside;
    if es != [] {
      WorkDecreases(bound, s, es[0]);
      InvStep(bound, s, es[0]);
      assert forall k :: 0 <= k < |es| - 1 ==> es[1..][k] == es[k + 1];
      RunsAreShort(bound, Step(bound, s, es[0]), es[1..]);
    }
  }

  // stop() returns: from any reachable state after it was called, a run in which nothing
  // comes from outside has at most Work(s) steps, and one that cannot go on has stopped:
  // every worker has returned, no publish() waits, and every job accepted before the
  // queue was cleared is done.
  lemma StopReturns(bound: nat, connections: nat, before: seq<Event>, s: State, after: seq<Event>)
    requires Reachable(bound, connections, before, s) && s.stopping != NotCalled
    requires Legal(bound, s, after) && NoneFromOutside(after)
    ensures
      var t := Run(bound, s, after);
      && |after| <= Work(s)
      && ((forall e :: Enabled(t, e) ==> FromOutside(e)) ==>
            && t.stopping == Stopped
            && (forall c :: 0 <= c < |t.conns| ==> t.conns[c].pc == Exited)
            && (forall k :: 0 <= k < |t.calls| ==> !t.calls[k].state.Waits?)
            && t.drained <= |t.jobs| && (forall j :: 0 <= j < t.drained ==> t.jobs[j].done))
  {
    ReachableInv(bound, connections, before, s);
    RunsAreShort(bound, s, after);
    var t := Run(bound, s, after);
    hide Run;
    hide Legal;
    hide Work;
    hide Inv;
    hide Enabled;
    hide FromOutside;
    if forall e :: Enabled(t, e) ==> FromOutside(e) {
      if t.stopping.Joining? {
        var e := StopMoves(bound, t);
        assert false;
      }
      StoppedIsDone(bound, t);
      forall k | 0 <= k < |t.calls| ensures !t.calls[k].state.Waits? {
        if t.calls[k].state.Waits? {
          CallMoves(bound, t, k);
          CallsAreInside(k);
        }
      }
    }
  }

  lemma CallsAreInside(k: nat)
    ensures !FromOutside(CallReturns(k)) && !FromOutside(CallTimesOut(k))
  {
  }

  lemma StoppedIsDone(bound: nat, s: State)
    requires Inv(bound, s) && s.stopping == Stopped
    ensures forall c :: 0 <= c < |s.conns| ==> s.conns[c].pc == Exited
    ensures s.drained <= |s.jobs| && forall j :: 0 <= j < s.drained ==> s.jobs[j].done
  {
    forall c | 0 <= c < |s.conns| ensures s.conns[c].pc == Exited {
      assert MustHaveExited(s, c);
    }
    forall j | 0 <= j < s.drained ensures s.jobs[j].done {
      assert TakenInv(s.jobs, s.conns, j);
    }
  }

  // stop() can be called at any time, once.
  lemma StopCanBegin(bound: nat, s: State)
    requires s.stopping == NotCalled
    ensures Enabled(s, StopBegins) && Step(bound, s, StopBegins).stopping == Joining(0) && !Step(bound, s, StopBegins).running
  {
  }
}
