/** When a worker of the publish pool takes a job although its connection is down:
    src/mqtt.cpp:315-369, against src/mqtt.h:66-68. */
module LostConnection {
  import opened Text
  import opened PublishPool

  // The connection was lost after its worker last looked at the flag.
  predicate LostSinceTest(es: seq<Event>, c: nat) {
    exists k :: 0 <= k < |es| && es[k] == ConnectionLost(c) && forall j :: k < j < |es| ==> es[j] != TestFlag(c)
  }

  // The same, event by event.
  function LostAfter(lost: bool, e: Event, c: nat): bool {
    if e == TestFlag(c) then false else lost || e == ConnectionLost(c)
  }

  function Lost(lost: bool, es: seq<Event>, c: nat): bool
    decreases |es|
  {
    if es == [] then lost else Lost(LostAfter(lost, es[0], c), es[1..], c)
  }

  predicate NeverTests(es: seq<Event>, c: nat) {
    forall j :: 0 <= j < |es| ==> es[j] != TestFlag(c)
  }

  lemma {:induction false} LostIs(lost: bool, es: seq<Event>, c: nat)
    ensures Lost(lost, es, c) <==> LostSinceTest(es, c) || (lost && NeverTests(es, c))
    decreases |es|
  {
    if es != [] {
      var rest := es[1..];
      LostIs(LostAfter(lost, es[0], c), rest, c);
      assert forall j :: 0 < j < |es| ==> es[j] == rest[j - 1];
      assert NeverTests(es, c) <==> es[0] != TestFlag(c) && NeverTests(rest, c);
      if LostSinceTest(rest, c) {
        var k :| 0 <= k < |rest| && rest[k] == ConnectionLost(c) && forall j :: k < j < |rest| ==> rest[j] != TestFlag(c);
        assert es[k + 1] == ConnectionLost(c);
      }
      if LostSinceTest(es, c) {
        var k :| 0 <= k < |es| && es[k] == ConnectionLost(c) && forall j :: k < j < |es| ==> es[j] != TestFlag(c);
        assert k > 0 ==> rest[k - 1] == ConnectionLost(c);
      }
    }
  }

  // While a worker waits for a job its flag is up unless the connection was lost.
  predicate FlagKnown(s: State, c: nat, lost: bool) {
    c < |s.conns| && (s.conns[c].pc == Waiting ==> (s.conns[c].connected <==> !lost))
  }

  lemma ConnFlagStep(bound: nat, s: State, e: Event, c: nat, lost: bool)
    requires Enabled(s, e) && FlagKnown(s, c, lost) && MovesConn(e)
    ensures FlagKnown(Step(bound, s, e), c, LostAfter(lost, e, c))
  {
    StepMovesConn(bound, s, e);
  }

  lemma JobFlagStep(bound: nat, s: State, e: Event, c: nat, lost: bool)
    requires Enabled(s, e) && FlagKnown(s, c, lost) && MovesJob(e)
    ensures FlagKnown(Step(bound, s, e), c, LostAfter(lost, e, c))
  {
  }

  lemma FlagStep(bound: nat, s: State, e: Event, c: nat, lost: bool)
    requires Enabled(s, e) && FlagKnown(s, c, lost)
    ensures FlagKnown(Step(bound, s, e), c, LostAfter(lost, e, c))
  {
    if MovesConn(e) {
      ConnFlagStep(bound, s, e, c, lost);
    } else if MovesJob(e) {
      JobFlagStep(bound, s, e, c, lost);
    }
  }

  lemma {:induction false} FlagRun(bound: nat, s: State, es: seq<Event>, c: nat, lost: bool)
    requires Legal(bound, s, es) && FlagKnown(s, c, lost)
    ensures FlagKnown(Run(bound, s, es), c, Lost(lost, es, c))
    decreases |es|
  {
    hide Step;
    hide Enabled;
    hide FlagKnown;
    hide LostAfter;
    if es != [] {
      FlagStep(bound, s, es[0], c, lost);
      FlagRun(bound, Step(bound, s, es[0]), es[1..], c, LostAfter(lost, es[0], c));
    }
  }

  // A worker that takes a job does so with its connection down exactly if that was
  // lost since the worker last looked.
  lemma TakesWithConnectionDown(bound: nat, connections: nat, es: seq<Event>, s: State, c: nat)
    requires Reachable(bound, connections, es, s) && Enabled(s, Wakes(c)) && s.running && s.queue != []
    ensures
      var t := Step(bound, s, Wakes(c));
      && HeldBy(t, s.queue[0], c)
      && (!t.conns[c].connected <==> LostSinceTest(es, c))
  {
    ReachableInv(bound, connections, es, s);
    FlagRun(bound, Start(connections), es, c, false);
    LostIs(false, es, c);
    hide Run;
    hide Legal;
    hide Inv;
    hide Lost;
    hide LostSinceTest;
    StepWakes(bound, s, c);
  }

  // It does happen: the connection is lost while the worker waits, and then a job comes.
  lemma JobTakenWithConnectionDown(bound: nat, m: Message)
    requires bound >= 1
    ensures
      var es := [Loop(0), TestFlag(0), Connects(0), Loop(0), TestFlag(0), ConnectionLost(0), Publish(m), Wakes(0)];
      && Legal(bound, Start(1), es)
      && var t := Run(bound, Start(1), es);
         |t.conns| == 1 && HeldBy(t, 0, 0) && !t.conns[0].connected && t.conns[0].taken == 1
  {
    hide *;
    Published(bound, m);
    var s7 := WithJob(m);
    var s8 := Takes(bound, m);
    NoEvents(bound, s8);
    var e7 := OneBefore(bound, s7, Wakes(0), s8, []);
    var e6 := OneBefore(bound, OneConn(Conn(Waiting, false, 1, 0, 0)), Publish(m), s7, e7);
    LosesFlag(bound);
    var e5 := OneBefore(bound, OneConn(Conn(Waiting, true, 1, 0, 0)), ConnectionLost(0), OneConn(Conn(Waiting, false, 1, 0, 0)), e6);
    var e0 := ConnectedBefore(bound, e5);
    assert e0 == [Loop(0), TestFlag(0), Connects(0), Loop(0), TestFlag(0), ConnectionLost(0), Publish(m), Wakes(0)];
  }

  // The first five events: the worker connects and waits for a job.
  lemma ConnectedBefore(bound: nat, es: seq<Event>) returns (all: seq<Event>)
    requires Legal(bound, OneConn(Conn(Waiting, true, 1, 0, 0)), es)
    ensures all == [Loop(0), TestFlag(0), Connects(0), Loop(0), TestFlag(0)] + es
    ensures Legal(bound, Start(1), all) && Run(bound, Start(1), all) == Run(bound, OneConn(Conn(Waiting, true, 1, 0, 0)), es)
  {
    hide *;
    var more := WaitsBefore(bound, true, es);
    Connected(bound);
    var e2 := OneBefore(bound, OneConn(Conn(Connecting, false, 1, 0, 0)), Connects(0), OneConn(Conn(Top, true, 1, 0, 0)), more);
    all := WaitsBefore(bound, false, e2);
    StartsWithOne();
  }

  // A worker at the top of its loop looks at its flag.
  lemma WaitsBefore(bound: nat, up: bool, es: seq<Event>) returns (all: seq<Event>)
    requires Legal(bound, OneConn(Conn(if up then Waiting else Connecting, up, 1, 0, 0)), es)
    ensures all == [Loop(0), TestFlag(0)] + es && Legal(bound, OneConn(Conn(Top, up, 1, 0, 0)), all)
    ensures
      Run(bound, OneConn(Conn(Top, up, 1, 0, 0)), all) == Run(bound, OneConn(Conn(if up then Waiting else Connecting, up, 1, 0, 0)), es)
  {
    hide *;
    OneMove(bound, Conn(Check, up, 1, 0, 0), TestFlag(0), if up then Waiting else Connecting);
    var tests := OneBefore(bound, OneConn(Conn(Check, up, 1, 0, 0)), TestFlag(0), OneConn(Conn(if up then Waiting else Connecting, up, 1, 0, 0)), es);
    OneMove(bound, Conn(Top, up, 1, 0, 0), Loop(0), Check);
    all := OneBefore(bound, OneConn(Conn(Top, up, 1, 0, 0)), Loop(0), OneConn(Conn(Check, up, 1, 0, 0)), tests);
  }

  lemma NoEvents(bound: nat, s: State)
    ensures Legal(bound, s, []) && Run(bound, s, []) == s
  {
  }

  lemma OneBefore(bound: nat, s: State, e: Event, t: State, es: seq<Event>) returns (all: seq<Event>)
    requires Enabled(s, e) && Step(bound, s, e) == t && Legal(bound, t, es)
    ensures all == [e] + es && Legal(bound, s, all) && Run(bound, s, all) == Run(bound, t, es)
  {
    hide Step;
    hide Enabled;
    all := [e] + es;
    assert all[1..] == es;
  }

  function OneConn(x: Conn): State {
    State(true, [], [], [], [x], NotCalled, 0, 0, 0, 0, 0)
  }

  lemma StartsWithOne()
    ensures Start(1) == OneConn(Conn(Top, false, 1, 0, 0))
  {
  }

  lemma OneMove(bound: nat, x: Conn, e: Event, pc: Pc)
    requires (e == Loop(0) && x.pc == Top && pc == Check) ||
             (e == TestFlag(0) && x.pc == Check && pc == if x.connected then Waiting else Connecting)
    ensures Enabled(OneConn(x), e) && Step(bound, OneConn(x), e) == OneConn(x.(pc := pc))
  {
  }

  lemma Connected(bound: nat)
    ensures
      var x := OneConn(Conn(Connecting, false, 1, 0, 0));
      Enabled(x, Connects(0)) && Step(bound, x, Connects(0)) == OneConn(Conn(Top, true, 1, 0, 0))
  {
  }

  lemma LosesFlag(bound: nat)
    ensures
      var x := OneConn(Conn(Waiting, true, 1, 0, 0));
      Enabled(x, ConnectionLost(0)) && Step(bound, x, ConnectionLost(0)) == OneConn(Conn(Waiting, false, 1, 0, 0))
  {
  }

  lemma Published(bound: nat, m: Message)
    requires bound >= 1
    ensures
      var x := OneConn(Conn(Waiting, false, 1, 0, 0));
      Enabled(x, Publish(m)) && Step(bound, x, Publish(m)) == WithJob(m)
  {
  }

  // A job in the queue of a pool whose one connection is lost.
  function WithJob(m: Message): State {
    State(true, [0], [Job(m, 0, None, Untried, false, Failed)], [Call(m, Waits(0))], [Conn(Waiting, false, 1, 0, 0)],
          NotCalled, 0, 0, 0, 0, 0)
  }

  lemma Takes(bound: nat, m: Message) returns (t: State)
    ensures Enabled(WithJob(m), Wakes(0)) && Step(bound, WithJob(m), Wakes(0)) == t
    ensures HeldBy(t, 0, 0) && |t.conns| == 1 && !t.conns[0].connected && t.conns[0].taken == 1
  {
    var s := WithJob(m);
    assert s.queue[0] == 0;
    StepWakes(bound, s, 0);
    t := Woken(s, 0);
    assert t.conns[0] == Conn(Holding(0), false, 1, 0, 1);
  }
}
