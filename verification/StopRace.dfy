/** Stopping the worker of a hand-off queue (src/mqtt.cpp:60-79 and 162-190 for the
    subscription, src/webhook.cpp:35-46 and 72-92 for the webhook).  stop() clears the
    flag and notifies without the queue's lock, and the worker's wait has no time limit:
    it tests its condition and then sleeps, holding the lock in between.  Wake-ups
    without a notify are left out. */
module StopRace {
  // Top: before the loop's test of the flag.  Locking: about to take the lock, for the
  // first time or after a wake-up, and to test the condition.  SawFalse: it did not
  // hold, the lock is still held.  Asleep: waiting, the lock is free.
  datatype Worker = Top | Locking | SawFalse | Asleep | Handling | Returned

  datatype Stop = NotCalled | Cleared | Notified | Joined

  // due: messages put in the queue whose notify_one is still to come.
  datatype State = State(running: bool, queued: nat, due: nat, worker: Worker, stop: Stop)

  datatype Event = Loops | Tests | Sleeps | Handles | Pushes | NotifiesOne | Clears | NotifiesAll | Joins

  const START := State(true, 0, 0, Top, NotCalled)

  predicate Enabled(s: State, e: Event) {
    match e
    case Loops => s.worker == Top
    case Tests => s.worker == Locking
    case Sleeps => s.worker == SawFalse
    case Handles => s.worker == Handling
    case Pushes => s.worker != SawFalse
    case NotifiesOne => s.due > 0
    case Clears => s.stop == NotCalled
    case NotifiesAll => s.stop == Cleared
    case Joins => s.stop == Notified && s.worker == Returned
  }

  function Woken(w: Worker): Worker {
    if w == Asleep then Locking else w
  }

  function Step(s: State, e: Event): State
    requires Enabled(s, e)
  {
    match e
    case Loops => s.(worker := if s.running then Locking else Returned)
    case Tests =>
      if s.queued > 0 then s.(worker := Handling, queued := s.queued - 1)
      else s.(worker := if s.running then SawFalse else Returned)
    case Sleeps => s.(worker := Asleep)
    case Handles => s.(worker := Top)
    case Pushes => s.(queued := s.queued + 1, due := s.due + 1)
    case NotifiesOne => s.(due := s.due - 1, worker := Woken(s.worker))
    case Clears => s.(running := false, stop := Cleared)
    case NotifiesAll => s.(stop := Notified, worker := Woken(s.worker))
    case Joins => s.(stop := Joined)
  }

  predicate Legal(s: State, es: seq<Event>)
    decreases |es|
  {
    es == [] || (Enabled(s, es[0]) && Legal(Step(s, es[0]), es[1..]))
  }

  function Run(s: State, es: seq<Event>): State
    requires Legal(s, es)
    decreases |es|
  {
    if es == [] then s else Run(Step(s, es[0]), es[1..])
  }

  // stop() waits for its worker, and without a new message nothing happens any more.
  ghost predicate Hung(s: State) {
    s.stop == Notified && forall e :: e != Pushes ==> !Enabled(s, e)
  }

  predicate NoPush(es: seq<Event>) {
    Pushes !in es
  }

  ghost predicate CanHang(s: State) {
    exists es :: Legal(s, es) && NoPush(es) && Hung(Run(s, es))
  }

  // Steps still possible without a new message once the flag is down.
  function Work(s: State): nat {
    s.due
    + (match s.worker case Returned => 0 case Top => 1 case Handling => 2 case Locking => 3 case Asleep => 4 case SawFalse => 5)
    + (match s.stop case Joined => 0 case Notified => 1 case Cleared => 2 case NotCalled => 3)
  }

  // stop() returns: every run without a new message is finite, and until the worker is
  // joined it can go on.
  ghost predicate AlwaysReturns(s: State) {
    forall es :: Legal(s, es) && NoPush(es) ==>
      && |es| <= Work(s)
      && (Run(s, es).stop != Joined ==> exists e :: e != Pushes && Enabled(Run(s, es), e))
  }

  predicate Inv(s: State) {
    (s.running <==> s.stop == NotCalled) && (s.stop == Joined ==> s.worker == Returned)
  }

  lemma {:induction false} RunInv(s: State, es: seq<Event>)
    requires Inv(s) && Legal(s, es)
    ensures Inv(Run(s, es))
    decreases |es|
  {
    if es != [] {
      RunInv(Step(s, es[0]), es[1..]);
    }
  }

  // With the flag down the condition holds: a worker that saw it false saw it before.
  lemma {:induction false} SawFalseBefore(s: State, es: seq<Event>)
    requires !s.running && Legal(s, es)
    ensures Run(s, es).worker == SawFalse <==> s.worker == SawFalse && Sleeps !in es
    decreases |es|
  {
    if es != [] {
      var t := Step(s, es[0]);
      SawFalseBefore(t, es[1..]);
      assert Sleeps in es <==> es[0] == Sleeps || Sleeps in es[1..];
    }
  }

  lemma {:induction false} RunTwo(s: State, xs: seq<Event>, ys: seq<Event>)
    requires Legal(s, xs + ys)
    ensures Legal(s, xs) && Legal(Run(s, xs), ys) && Run(s, xs + ys) == Run(Run(s, xs), ys)
    decreases |xs|
  {
    hide Step;
    hide Enabled;
    if xs == [] {
      assert xs + ys == ys;
    } else {
      assert (xs + ys)[1..] == xs[1..] + ys;
      RunTwo(Step(s, xs[0]), xs[1..], ys);
    }
  }

  // ----- a worker that will not sleep again -----------------------------------

  predicate Awake(s: State) {
    Inv(s) && (s.stop == Notified || s.stop == Joined) && s.worker != SawFalse && s.worker != Asleep
  }

  lemma {:induction false} StaysAwake(s: State, es: seq<Event>)
    requires Awake(s) && Legal(s, es)
    ensures Awake(Run(s, es)) && (NoPush(es) ==> |es| + Work(Run(s, es)) <= Work(s))
    decreases |es|
  {
    if es != [] {
      StaysAwake(Step(s, es[0]), es[1..]);
    }
  }

  lemma SomethingMoves(s: State)
    requires Awake(s) && s.stop != Joined
    ensures exists e :: e != Pushes && Enabled(s, e)
  {
    var e := match s.worker
      case Top => Loops
      case Locking => Tests
      case Handling => Handles
      case _ => Joins;
    assert e != Pushes && Enabled(s, e);
  }

  lemma AwakeReturns(s: State)
    requires Awake(s)
    ensures AlwaysReturns(s) && !CanHang(s)
  {
    forall es | Legal(s, es) && NoPush(es)
      ensures |es| <= Work(s)
      ensures Run(s, es).stop != Joined ==> exists e :: e != Pushes && Enabled(Run(s, es), e)
    {
      StaysAwake(s, es);
      if Run(s, es).stop != Joined {
        SomethingMoves(Run(s, es));
      }
    }
    hide Legal;
    hide Run;
    hide Work;
    hide Enabled;
  }

  // ----- a worker about to sleep ----------------------------------------------

  // The notifies due find nobody asleep, then the worker sleeps.
  lemma {:induction false} RunToHang(s: State) returns (es: seq<Event>)
    requires s.stop == Notified && s.worker == SawFalse
    ensures Legal(s, es) && NoPush(es) && Hung(Run(s, es))
    decreases s.due
  {
    var e := if s.due > 0 then NotifiesOne else Sleeps;
    var t := Step(s, e);
    var rest: seq<Event> := [];
    if s.due > 0 {
      rest := RunToHang(t);
    }
    es := [e] + rest;
    assert es[1..] == rest;
  }

  // With no notify due every run without a new message stays before the join.
  lemma {:induction false} NeverJoins(s: State, es: seq<Event>)
    requires s.stop == Notified && s.due == 0 && (s.worker == SawFalse || s.worker == Asleep) && Legal(s, es) && NoPush(es)
    ensures Run(s, es).stop == Notified
    decreases |es|
  {
    if es != [] {
      assert es[0] in es;
      NeverJoins(Step(s, es[0]), es[1..]);
    }
  }

  // ----- exactly when stop() hangs --------------------------------------------

  // Any run up to the notify of stop(): from there stop() can wait for ever if and only
  // if the worker had tested its condition before the flag was cleared and had not gone
  // to sleep by the notify; it does wait for ever if besides no notify of an earlier
  // message is due.  Otherwise it always returns.
  lemma StopHangsExactly(before: seq<Event>, between: seq<Event>)
    requires Legal(START, before + ([Clears] + (between + [NotifiesAll])))
    ensures
      var es := before + ([Clears] + (between + [NotifiesAll]));
      var t := Run(START, es);
      && Legal(START, before)
      && var missed := Run(START, before).worker == SawFalse && Sleeps !in between;
      && (CanHang(t) <==> missed)
      && (AlwaysReturns(t) <==> !missed)
      && (missed && t.due == 0 ==> forall zs :: Legal(t, zs) && NoPush(zs) ==> Run(t, zs).stop != Joined)
  {
    var es := before + ([Clears] + (between + [NotifiesAll]));
    var t := Run(START, es);
    RunInv(START, es);
    RunTwo(START, before, [Clears] + (between + [NotifiesAll]));
    var s := Run(START, before);
    RunTwo(s, [Clears], between + [NotifiesAll]);
    var s1 := OneStep(s, Clears);
    RunTwo(s1, between, [NotifiesAll]);
    var s2 := Run(s1, between);
    SawFalseBefore(s1, between);
    var s3 := OneStep(s2, NotifiesAll);
    assert t == s3;
    hide Legal;
    hide Run;
    if t.worker == SawFalse {
      var zs := RunToHang(t);
      HangsByRun(t, zs);
      if t.due == 0 {
        forall zs | Legal(t, zs) && NoPush(zs) ensures Run(t, zs).stop != Joined {
          NeverJoins(t, zs);
        }
      }
    } else {
      AwakeReturns(t);
    }
  }

  lemma OneStep(s: State, e: Event) returns (t: State)
    requires Legal(s, [e])
    ensures Enabled(s, e) && t == Step(s, e) == Run(s, [e])
  {
    t := Step(s, e);
    assert [e][1..] == [];
    assert Run(t, []) == t;
  }

  lemma HangsByRun(s: State, es: seq<Event>)
    requires Legal(s, es) && NoPush(es) && Hung(Run(s, es))
    ensures CanHang(s) && !AlwaysReturns(s)
  {
    var t := Run(s, es);
    assert t.stop != Joined;
  }

  // The run: the worker finds nothing to do, stop() clears the flag and notifies, and
  // only then the worker goes to sleep.
  lemma StopHangs()
    ensures
      var es := [Loops] + ([Tests] + ([Clears] + ([NotifiesAll] + ([Sleeps] + []))));
      Legal(START, es) && Hung(Run(START, es))
  {
    var s1 := State(true, 0, 0, Locking, NotCalled);
    var s2 := State(true, 0, 0, SawFalse, NotCalled);
    var s3 := State(false, 0, 0, SawFalse, Cleared);
    var s4 := State(false, 0, 0, SawFalse, Notified);
    var s5 := State(false, 0, 0, Asleep, Notified);
    assert Legal(s5, []) && Run(s5, []) == s5 && Hung(s5);
    hide Legal;
    hide Run;
    hide Hung;
    Unfold(s4, Sleeps, []);
    Unfold(s3, NotifiesAll, [Sleeps] + []);
    Unfold(s2, Clears, [NotifiesAll] + ([Sleeps] + []));
    Unfold(s1, Tests, [Clears] + ([NotifiesAll] + ([Sleeps] + [])));
    Unfold(START, Loops, [Tests] + ([Clears] + ([NotifiesAll] + ([Sleeps] + []))));
  }

  function Count(es: seq<Event>, e: Event): nat {
    if es == [] then 0 else One(es[0] == e) + Count(es[1..], e)
  }

  function One(b: bool): nat {
    if b then 1 else 0
  }

  lemma ConservedStep(s: State, e: Event)
    requires Enabled(s, e)
    ensures
      var t := Step(s, e);
      && t.queued + One(t.worker == Handling) + One(e == Handles) == s.queued + One(s.worker == Handling) + One(e == Pushes)
      && t.due + One(e == NotifiesOne) == s.due + One(e == Pushes)
  {
  }

  // In every interleaving each message put in the queue is in it, with the worker or
  // handled, and is notified about once.
  lemma {:induction false} MessagesAreConserved(s: State, es: seq<Event>)
    requires Legal(s, es)
    ensures
      var t := Run(s, es);
      && t.queued + One(t.worker == Handling) + Count(es, Handles) ==
         s.queued + One(s.worker == Handling) + Count(es, Pushes)
      && t.due + Count(es, NotifiesOne) == s.due + Count(es, Pushes)
    decreases |es|
  {
    hide Step;
    hide Enabled;
    if es != [] {
      ConservedStep(s, es[0]);
      MessagesAreConserved(Step(s, es[0]), es[1..]);
    }
  }

  // Only a new message ends such a wait: its notify wakes the worker, which handles the
  // message, sees the flag and returns.  (At the webhook the message must have passed
  // the test of the flag before stop().)
  lemma MessageEndsTheWait(s: State)
    requires Hung(s) && Inv(s)
    ensures
      var es := [Pushes] + ([NotifiesOne] + ([Tests] + ([Handles] + ([Loops] + ([Joins] + [])))));
      Legal(s, es) && Run(s, es).stop == Joined
  {
    assert s.worker == Asleep && s.due == 0 by {
      WorkerStands(s);
    }
    var s1 := Step(s, Pushes);
    var s2 := Step(s1, NotifiesOne);
    var s3 := Step(s2, Tests);
    var s4 := Step(s3, Handles);
    var s5 := Step(s4, Loops);
    var s6 := Step(s5, Joins);
    assert Legal(s6, []) && Run(s6, []) == s6 && s6.stop == Joined;
    hide Legal;
    hide Run;
    hide Hung;
    Unfold(s5, Joins, []);
    Unfold(s4, Loops, [Joins] + []);
    Unfold(s3, Handles, [Loops] + ([Joins] + []));
    Unfold(s2, Tests, [Handles] + ([Loops] + ([Joins] + [])));
    Unfold(s1, NotifiesOne, [Tests] + ([Handles] + ([Loops] + ([Joins] + []))));
    Unfold(s, Pushes, [NotifiesOne] + ([Tests] + ([Handles] + ([Loops] + ([Joins] + [])))));
  }

  lemma WorkerStands(s: State)
    requires Hung(s)
    ensures s.worker == Asleep && s.due == 0
  {
    assert s.stop == Notified;
    assert !Enabled(s, Loops) && !Enabled(s, Tests) && !Enabled(s, Sleeps) && !Enabled(s, Handles) && !Enabled(s, Joins);
    assert !Enabled(s, NotifiesOne);
  }

  lemma Unfold(s: State, e: Event, es: seq<Event>)
    requires Enabled(s, e) && Legal(Step(s, e), es)
    ensures Legal(s, [e] + es) && Run(s, [e] + es) == Run(Step(s, e), es)
  {
    hide Enabled;
    hide Step;
    assert ([e] + es)[1..] == es;
  }
}
