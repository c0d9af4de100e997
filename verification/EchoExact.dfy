/** What README.md:610-619 says of a write that comes back through the subscription,
    "guaranteed identical, never a race", and exactly when that is so: over all
    interleavings of writers, deleters, other publishers, the broker and arriving
    messages (src/server.cpp:551-619, src/main.cpp:437-489). */
module EchoExact {
  import opened Text
  import opened Numbers
  import opened Store
  import opened Service
  import opened Echo

  // The messages of xs that matter for the name.
  function Of(cfg: Config, c: Codec, xs: seq<Message>, name: string): seq<Message> {
    if xs == [] then []
    else (if Matters(cfg, c, xs[0], name) then [xs[0]] else []) + Of(cfg, c, xs[1..], name)
  }

  lemma {:induction false} NoneOf(cfg: Config, c: Codec, xs: seq<Message>, name: string)
    ensures Of(cfg, c, xs, name) == [] <==> forall k :: 0 <= k < |xs| ==> !Matters(cfg, c, xs[k], name)
  {
    hide Matters;
    if xs != [] {
      NoneOf(cfg, c, xs[1..], name);
      if !Matters(cfg, c, xs[0], name) && Of(cfg, c, xs[1..], name) == [] {
        assert forall k :: 0 < k < |xs| ==> xs[k] == xs[1..][k - 1];
      } else if !Matters(cfg, c, xs[0], name) {
        var k :| 0 <= k < |xs| - 1 && Matters(cfg, c, xs[1..][k], name);
        assert Matters(cfg, c, xs[k + 1], name);
      }
    }
  }

  // What is on its way: accepted by the broker, then not yet accepted.
  function InFlight(cfg: Config, c: Codec, s: State, name: string): seq<Message>
    requires s.handled <= |s.log|
  {
    Of(cfg, c, s.log[s.handled..], name) + Of(cfg, c, s.pending, name)
  }

  // A message is on its way that will give the name a value when it arrives.
  predicate OnItsWay(cfg: Config, c: Codec, s: State, name: string)
    requires s.handled <= |s.log|
  {
    exists p :: p in InFlight(cfg, c, s, name) && Effect(cfg, c, p, name).Some?
  }

  lemma {:induction false} OfTwo(cfg: Config, c: Codec, xs: seq<Message>, ys: seq<Message>, name: string)
    ensures Of(cfg, c, xs + ys, name) == Of(cfg, c, xs, name) + Of(cfg, c, ys, name)
  {
    hide Matters;
    if xs == [] {
      assert xs + ys == ys;
    } else {
      assert (xs + ys)[1..] == xs[1..] + ys;
      OfTwo(cfg, c, xs[1..], ys, name);
    }
  }

  lemma SettledIsNothing(cfg: Config, c: Codec, s: State, name: string)
    requires s.handled <= |s.log|
    ensures Settled(cfg, c, s, name) <==> InFlight(cfg, c, s, name) == []
  {
    var rest := s.log[s.handled..];
    NoneOf(cfg, c, rest, name);
    NoneOf(cfg, c, s.pending, name);
    hide Matters;
    assert (forall i :: s.handled <= i < |s.log| ==> !Matters(cfg, c, s.log[i], name)) <==>
           (forall k :: 0 <= k < |rest| ==> !Matters(cfg, c, rest[k], name)) by {
      if forall k :: 0 <= k < |rest| ==> !Matters(cfg, c, rest[k], name) {
        forall i | s.handled <= i < |s.log| ensures !Matters(cfg, c, s.log[i], name) {
          assert s.log[i] == rest[i - s.handled];
        }
      }
    }
  }

  // The message an event hands to the broker or puts into its log.
  function Sends(e: Event): seq<Message> {
    match e
    case Writes(name, v) => [Written(name, v)]
    case Deletes(name) => [Cleared(name)]
    case Others(topic, payload) => [Foreign(topic, payload)]
    case _ => []
  }

  // The event neither writes or deletes the name nor sends a message that changes it.
  predicate NotAbout(cfg: Config, c: Codec, e: Event, name: string) {
    forall p :: p in Sends(e) ==> !Matters(cfg, c, p, name)
  }

  predicate NoneAbout(cfg: Config, c: Codec, es: seq<Event>, name: string) {
    forall k :: 0 <= k < |es| ==> NotAbout(cfg, c, es[k], name)
  }

  // A message that matters for the name arrives.
  predicate Returns(cfg: Config, c: Codec, s: State, e: Event, name: string) {
    e.Arrives? && s.handled < |s.log| && Matters(cfg, c, s.log[s.handled], name)
  }

  // What is on its way is the same, perhaps in another order.
  ghost predicate SameInFlight(cfg: Config, c: Codec, s: State, t: State, name: string)
    requires s.handled <= |s.log| && t.handled <= |t.log|
  {
    && |InFlight(cfg, c, t, name)| == |InFlight(cfg, c, s, name)|
    && (forall p :: p in InFlight(cfg, c, t, name) <==> p in InFlight(cfg, c, s, name))
  }

  // An event about other names, or one that only moves a message about this one, keeps
  // what is on its way; an arrival takes the first of that away.
  lemma OtherStep(cfg: Config, c: Codec, s: State, e: Event, name: string)
    requires Inv(s) && Enabled(s, e) && NotAbout(cfg, c, e, name)
    ensures
      var t := Step(cfg, c, s, e);
      && t.handled <= |t.log|
      && if Returns(cfg, c, s, e, name) then
           var v := Effect(cfg, c, s.log[s.handled], name);
           && InFlight(cfg, c, s, name) == [s.log[s.handled]] + InFlight(cfg, c, t, name)
           && Lookup(t.store, name) == if v.Some? then v else Lookup(s.store, name)
         else
           SameInFlight(cfg, c, s, t, name) && Lookup(t.store, name) == Lookup(s.store, name)
  {
    var t := Step(cfg, c, s, e);
    match e
    case Writes(n, v) =>
      assert Sends(e)[0] == Written(n, v);
      NewRequest(cfg, c, s, t, Written(n, v), name);
      hide InFlight;
      hide Effect;
    case Deletes(n) =>
      assert Sends(e)[0] == Cleared(n);
      if n in s.store {
        NewRequest(cfg, c, s, t, Cleared(n), name);
      }
      hide InFlight;
      hide Effect;
    case Others(topic, payload) =>
      assert Sends(e)[0] == Foreign(topic, payload);
      LogGrows(cfg, c, s, t, Foreign(topic, payload), name);
      hide InFlight;
      hide Matters;
    case Accepts(i) =>
      AcceptsStep(cfg, c, s, i, name);
      hide InFlight;
      hide Matters;
    case Arrives =>
      ArrivesStep(cfg, c, s, name);
      hide InFlight;
      hide Effect;
      hide StoreAfter;
  }

  lemma NewRequest(cfg: Config, c: Codec, s: State, t: State, p: Message, name: string)
    requires s.handled <= |s.log| && t.log == s.log && t.handled == s.handled && t.pending == s.pending + [p]
    ensures InFlight(cfg, c, t, name) == InFlight(cfg, c, s, name) + if Matters(cfg, c, p, name) then [p] else []
  {
    hide Matters;
    OfTwo(cfg, c, s.pending, [p], name);
    assert [p][1..] == [];
  }

  lemma LogGrows(cfg: Config, c: Codec, s: State, t: State, p: Message, name: string)
    requires s.handled <= |s.log| && t.log == s.log + [p] && t.handled == s.handled && t.pending == s.pending
    requires !Matters(cfg, c, p, name)
    ensures InFlight(cfg, c, t, name) == InFlight(cfg, c, s, name)
  {
    hide Matters;
    OfTwo(cfg, c, s.log[s.handled..], [p], name);
    assert [p][1..] == [] && t.log[t.handled..] == s.log[s.handled..] + [p];
  }

  lemma ArrivesStep(cfg: Config, c: Codec, s: State, name: string)
    requires s.handled < |s.log|
    ensures
      var t, p := Step(cfg, c, s, Arrives), s.log[s.handled];
      && t.handled <= |t.log|
      && InFlight(cfg, c, s, name) == (if Matters(cfg, c, p, name) then [p] else []) + InFlight(cfg, c, t, name)
      && Lookup(t.store, name) == if Effect(cfg, c, p, name).Some? then Effect(cfg, c, p, name) else Lookup(s.store, name)
  {
    hide Update;
    hide Payload;
    var p, rest := s.log[s.handled], s.log[s.handled + 1..];
    ArrivalLooksUp(cfg, c, s.store, p, name);
    hide Matters;
    hide Effect;
    hide StoreAfter;
    hide Lookup;
    assert s.log[s.handled..][1..] == rest && s.log[s.handled..][0] == p;
  }

  lemma AcceptsStep(cfg: Config, c: Codec, s: State, i: nat, name: string)
    requires s.handled <= |s.log| && i < |s.pending|
    ensures
      var t := Step(cfg, c, s, Accepts(i));
      && t.handled <= |t.log| && t.store == s.store && SameInFlight(cfg, c, s, t, name)
  {
    hide Matters;
    hide StoreAfter;
    var t := Step(cfg, c, s, Accepts(i));
    var a, x, b := s.pending[..i], s.pending[i], s.pending[i + 1..];
    assert s.pending == a + ([x] + b) && t.pending == a + b;
    assert t.log[t.handled..] == s.log[s.handled..] + [x];
    OfTwo(cfg, c, a, [x] + b, name);
    OfTwo(cfg, c, [x], b, name);
    OfTwo(cfg, c, a, b, name);
    OfTwo(cfg, c, s.log[s.handled..], [x], name);
  }

  // ----- one write, everything else happening around it -----------------------

  // The write is on its way and its value in the store, or it is back and rounded.
  predicate OneWrite(cfg: Config, c: Codec, s: State, name: string, v: Double)
    requires s.handled <= |s.log|
  {
    || (InFlight(cfg, c, s, name) == [Written(name, v)] && Lookup(s.store, name) == Some(v))
    || (InFlight(cfg, c, s, name) == [] && Lookup(s.store, name) == Some(Rounded(c, v)))
  }

  lemma OneWriteStep(cfg: Config, c: Codec, s: State, e: Event, name: string, v: Double)
    requires Inv(s) && Enabled(s, e) && Covered(cfg, name) && NotAbout(cfg, c, e, name) && OneWrite(cfg, c, s, name, v)
    ensures Inv(Step(cfg, c, s, e)) && OneWrite(cfg, c, Step(cfg, c, s, e), name, v)
  {
    InvStep(cfg, c, s, e);
    OtherStep(cfg, c, s, e, name);
    EffectOnOwnName(cfg, c, Written(name, v));
    RoundedIs(c, v);
    hide Inv;
    hide Step;
    hide Enabled;
    hide Lookup;
    hide Readable;
    hide Rounded;
    hide InFlight;
    hide Effect;
    hide Matters;
    hide Covered;
    var t := Step(cfg, c, s, e);
    var was, now := InFlight(cfg, c, s, name), InFlight(cfg, c, t, name);
    if Returns(cfg, c, s, e, name) {
      assert was[0] == s.log[s.handled] && now == was[1..];
      assert now == [];
    } else if was == [] {
      assert now == [];
    } else {
      assert now[0] in now && now[0] in was;
      assert now == [was[0]];
    }
  }

  lemma RoundedIs(c: Codec, v: Double)
    ensures !Readable(c, v) ==> Rounded(c, v) == v
  {
  }

  lemma {:induction false} OneWriteRun(cfg: Config, c: Codec, s: State, es: seq<Event>, name: string, v: Double)
    requires Inv(s) && Covered(cfg, name) && OneWrite(cfg, c, s, name, v)
    requires Legal(cfg, c, s, es) && NoneAbout(cfg, c, es, name)
    ensures Inv(Run(cfg, c, s, es)) && OneWrite(cfg, c, Run(cfg, c, s, es), name, v)
    decreases |es|
  {
    hide Step;
    hide Enabled;
    hide OneWrite;
    hide NotAbout;
    hide Covered;
    if es != [] {
      assert NotAbout(cfg, c, es[0], name);
      assert forall k :: 0 <= k < |es| - 1 ==> es[1..][k] == es[k + 1];
      OneWriteStep(cfg, c, s, es[0], name, v);
      OneWriteRun(cfg, c, Step(cfg, c, s, es[0]), es[1..], name, v);
    }
  }

  lemma {:induction false} ReachedInv(cfg: Config, c: Codec, s: State, es: seq<Event>)
    requires Inv(s) && Legal(cfg, c, s, es)
    ensures Inv(Run(cfg, c, s, es))
    decreases |es|
  {
    hide Inv;
    hide Step;
    hide Enabled;
    if es != [] {
      InvStep(cfg, c, s, es[0]);
      ReachedInv(cfg, c, Step(cfg, c, s, es[0]), es[1..]);
    }
  }

  // A write of a name of which nothing is on its way, and any events of other names and
  // of the broker after it: until its own return the store holds the value written,
  // from then on the rounded one.  So the second write is identical exactly when the
  // value was already rounded.
  lemma SecondWriteIsIdentical(cfg: Config, c: Codec, start: Values, before: seq<Event>, name: string, v: Double, after: seq<Event>)
    requires Legal(cfg, c, Start(start), before) && Covered(cfg, name)
    requires Settled(cfg, c, Run(cfg, c, Start(start), before), name)
    requires Legal(cfg, c, Step(cfg, c, Run(cfg, c, Start(start), before), Writes(name, v)), after)
    requires NoneAbout(cfg, c, after, name)
    ensures
      var t := Run(cfg, c, Step(cfg, c, Run(cfg, c, Start(start), before), Writes(name, v)), after);
      && Lookup(t.store, name) == Some(if Settled(cfg, c, t, name) then Rounded(c, v) else v)
      && (Lookup(t.store, name) == Some(v) <==> !Settled(cfg, c, t, name) || Rounded(c, v) == v)
  {
    var s := Run(cfg, c, Start(start), before);
    ReachedInv(cfg, c, Start(start), before);
    hide Run;
    hide Legal;
    hide Covered;
    hide Rounded;
    hide Effect;
    SettledIsNothing(cfg, c, s, name);
    var s1 := Step(cfg, c, s, Writes(name, v));
    assert Lookup(s1.store, name) == Some(v);
    InvStep(cfg, c, s, Writes(name, v));
    NewRequest(cfg, c, s, s1, Written(name, v), name);
    hide InFlight;
    hide Step;
    hide Inv;
    assert InFlight(cfg, c, s1, name) == [Written(name, v)];
    assert OneWrite(cfg, c, s1, name, v);
    OneWriteRun(cfg, c, s1, after, name, v);
    SettledIsNothing(cfg, c, Run(cfg, c, s1, after), name);
    hide Settled;
    hide Lookup;
  }

  // ----- a delete -------------------------------------------------------------

  // The name is stored, or will be.
  predicate Stays(cfg: Config, c: Codec, s: State, name: string)
    requires s.handled <= |s.log|
  {
    name in s.store || OnItsWay(cfg, c, s, name)
  }

  lemma StaysStep(cfg: Config, c: Codec, s: State, e: Event, name: string)
    requires Inv(s) && Enabled(s, e) && NotAbout(cfg, c, e, name)
    ensures Inv(Step(cfg, c, s, e)) && (Stays(cfg, c, Step(cfg, c, s, e), name) <==> Stays(cfg, c, s, name))
  {
    InvStep(cfg, c, s, e);
    OtherStep(cfg, c, s, e, name);
    var t := Step(cfg, c, s, e);
    assert (name in s.store <==> Lookup(s.store, name).Some?) && (name in t.store <==> Lookup(t.store, name).Some?);
    hide Inv;
    hide Step;
    hide Enabled;
    hide Effect;
    hide Matters;
    hide InFlight;
    hide Lookup;
  }

  lemma {:induction false} StaysRun(cfg: Config, c: Codec, s: State, es: seq<Event>, name: string)
    requires Inv(s) && Legal(cfg, c, s, es) && NoneAbout(cfg, c, es, name)
    ensures Inv(Run(cfg, c, s, es)) && (Stays(cfg, c, Run(cfg, c, s, es), name) <==> Stays(cfg, c, s, name))
    decreases |es|
  {
    hide Step;
    hide Enabled;
    hide Stays;
    hide NotAbout;
    if es != [] {
      assert NotAbout(cfg, c, es[0], name);
      assert forall k :: 0 <= k < |es| - 1 ==> es[1..][k] == es[k + 1];
      StaysStep(cfg, c, s, es[0], name);
      StaysRun(cfg, c, Step(cfg, c, s, es[0]), es[1..], name);
    }
  }

  // A deleted name that nothing after the delete is about: once nothing of it is on its
  // way it is back in the store exactly if, at the delete, a value for it was.
  lemma DeletedNameReturnsExactly(cfg: Config, c: Codec, start: Values, before: seq<Event>, name: string, after: seq<Event>)
    requires Legal(cfg, c, Start(start), before)
    requires Covered(cfg, name) && name in Run(cfg, c, Start(start), before).store
    requires Legal(cfg, c, Step(cfg, c, Run(cfg, c, Start(start), before), Deletes(name)), after)
    requires NoneAbout(cfg, c, after, name)
    ensures
      var s := Run(cfg, c, Start(start), before);
      var t := Run(cfg, c, Step(cfg, c, s, Deletes(name)), after);
      && s.handled <= |s.log|
      && (Settled(cfg, c, t, name) ==> (name in t.store <==> OnItsWay(cfg, c, s, name)))
  {
    var s := Run(cfg, c, Start(start), before);
    ReachedInv(cfg, c, Start(start), before);
    EffectOnOwnName(cfg, c, Cleared(name));
    hide Run;
    hide Legal;
    hide Covered;
    hide Effect;
    var s1 := Step(cfg, c, s, Deletes(name));
    InvStep(cfg, c, s, Deletes(name));
    NewRequest(cfg, c, s, s1, Cleared(name), name);
    assert name !in s1.store;
    hide InFlight;
    hide Step;
    hide Inv;
    assert Stays(cfg, c, s1, name) <==> OnItsWay(cfg, c, s, name);
    StaysRun(cfg, c, s1, after, name);
    SettledIsNothing(cfg, c, Run(cfg, c, s1, after), name);
  }
}
