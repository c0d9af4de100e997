/** Metric writes, the broker, other publishers and the service's own subscription:
    src/server.cpp:551-619 and src/main.cpp:437-489.  Every publish of the service
    comes back to it; the broker hands messages on in the order it accepted them
    (section 4.6 of MQTT 3.1.1). */
module Echo {
  import opened Text
  import opened Numbers
  import opened Store
  import opened Service

  // A metric write's value, the empty payload of a delete, or any message that is
  // neither: of POST /event (src/server.cpp:547), of another client, or one the
  // broker kept and sends again.
  datatype Message = Written(topic: string, value: Double) | Cleared(topic: string) | Foreign(topic: string, payload: string)

  function Payload(c: Codec, p: Message): string {
    match p
    case Written(_, v) => c.format(v)
    case Cleared(_) => ""
    case Foreign(_, payload) => payload
  }

  // The value the message gives the name when it arrives, if any.
  function Effect(cfg: Config, c: Codec, p: Message, name: string): Option<Double> {
    match Update(cfg, c, p.topic, Payload(c, p))
    case None => None
    case Some(xs) => LastOf(xs, name, None)
  }

  // A write or delete of the name, or a message that changes it when it arrives.
  predicate Matters(cfg: Config, c: Codec, p: Message, name: string) {
    (!p.Foreign? && p.topic == name) || Effect(cfg, c, p, name).Some?
  }

  // pending: stored or removed by an HTTP handler, not yet accepted by the broker;
  // log: accepted, of which the first `handled` have arrived and been handled.
  datatype State = State(store: Values, pending: seq<Message>, log: seq<Message>, handled: nat, requests: nat)

  datatype Event =
    | Writes(name: string, value: Double)
    | Deletes(name: string)
    | Others(topic: string, payload: string)
    | Accepts(i: nat)
    | Arrives

  function Start(m: Values): State {
    State(m, [], [], 0, 0)
  }

  // The subscription covers the name, and it is not a JSON topic.
  predicate Covered(cfg: Config, name: string) {
    ForStore(cfg, name) && name !in cfg.jsonTopics
  }

  predicate Enabled(s: State, e: Event) {
    match e
    case Writes(_, _) => true
    case Deletes(_) => true
    case Others(_, _) => true
    case Accepts(i) => i < |s.pending|
    case Arrives => s.handled < |s.log|
  }

  function Step(cfg: Config, c: Codec, s: State, e: Event): State
    requires Enabled(s, e)
  {
    match e
    case Writes(name, v) =>
      s.(store := s.store[name := v], pending := s.pending + [Written(name, v)], requests := s.requests + 1)
    case Deletes(name) =>
      if name !in s.store then s
      else s.(store := s.store - {name}, pending := s.pending + [Cleared(name)], requests := s.requests + 1)
    case Others(topic, payload) =>
      s.(log := s.log + [Foreign(topic, payload)], requests := s.requests + 1)
    case Accepts(i) => s.(pending := s.pending[..i] + s.pending[i + 1..], log := s.log + [s.pending[i]])
    case Arrives =>
      var p := s.log[s.handled];
      s.(store := StoreAfter(cfg, c, s.store, p.topic, Payload(c, p)), handled := s.handled + 1)
  }

  predicate Legal(cfg: Config, c: Codec, s: State, es: seq<Event>)
    decreases |es|
  {
    es == [] || (Enabled(s, es[0]) && Legal(cfg, c, Step(cfg, c, s, es[0]), es[1..]))
  }

  function Run(cfg: Config, c: Codec, s: State, es: seq<Event>): State
    requires Legal(cfg, c, s, es)
    decreases |es|
  {
    if es == [] then s else Run(cfg, c, Step(cfg, c, s, es[0]), es[1..])
  }

  // ----- what arrives ---------------------------------------------------------

  // On a covered topic a written value is stored rounded, the empty payload of a
  // delete and a text that is no number are ignored, and any other number is stored.
  lemma ComesBackRounded(cfg: Config, c: Codec, m: Values, p: Message)
    requires Covered(cfg, p.topic)
    ensures StoreAfter(cfg, c, m, p.topic, Payload(c, p)) ==
      match p
      case Written(name, v) => if Readable(c, v) then m[name := Rounded(c, v)] else m
      case Cleared(_) => m
      case Foreign(topic, payload) =>
        if ParseDouble(c, payload).Some? then m[topic := ParseDouble(c, payload).value] else m
  {
    EmptyIsNoNumber(c);
    hide ParseDouble;
    hide ForStore;
    var v := ParseDouble(c, Payload(c, p));
    if v.Some? {
      OverlayOne(m, Sample(p.topic, v.value));
    }
    hide Overlay;
  }

  lemma EmptyIsNoNumber(c: Codec)
    ensures ParseDouble(c, "") == None
  {
  }

  // On a covered topic a message has the effect of the number it holds.
  lemma EffectOnOwnName(cfg: Config, c: Codec, p: Message)
    requires Covered(cfg, p.topic)
    ensures Effect(cfg, c, p, p.topic) ==
      match p
      case Written(_, v) => if Readable(c, v) then Some(Rounded(c, v)) else None
      case Cleared(_) => None
      case Foreign(_, payload) => ParseDouble(c, payload)
  {
    EmptyIsNoNumber(c);
    hide ParseDouble;
    hide ForStore;
    var v := ParseDouble(c, Payload(c, p));
    if v.Some? {
      var xs := [Sample(p.topic, v.value)];
      assert LastOf(xs, p.topic, None) == LastOf(xs[1..], p.topic, v);
      assert xs[1..] == [];
    }
  }

  // A message changes only its own topic's name or, on a JSON topic, names below it.
  lemma EffectIsBelow(cfg: Config, c: Codec, p: Message, name: string)
    requires Effect(cfg, c, p, name).Some?
    ensures ForStore(cfg, p.topic)
    ensures if p.topic in cfg.jsonTopics then p.topic + "/" <= name else name == p.topic
  {
    var xs := Update(cfg, c, p.topic, Payload(c, p)).value;
    LastOfHasName(xs, name);
    hide ParseDouble;
  }

  lemma {:induction false} LastOfHasName(xs: seq<Sample>, name: string)
    requires LastOf(xs, name, None).Some?
    ensures exists k :: 0 <= k < |xs| && xs[k].name == name
    decreases |xs|
  {
    if xs[0].name != name {
      LastOfHasName(xs[1..], name);
      var k :| 0 <= k < |xs| - 1 && xs[1..][k].name == name;
      assert xs[k + 1].name == name;
    }
  }

  // An arriving message gives each name its effect on that name.
  lemma ArrivalLooksUp(cfg: Config, c: Codec, m: Values, p: Message, name: string)
    ensures
      var e := Effect(cfg, c, p, name);
      Lookup(StoreAfter(cfg, c, m, p.topic, Payload(c, p)), name) == if e.Some? then e else Lookup(m, name)
  {
    var u := Update(cfg, c, p.topic, Payload(c, p));
    if u.Some? {
      OverlayLooksUpLast(m, u.value, name);
      LastOfBefore(u.value, name, Lookup(m, name));
    }
    hide Update;
    hide Payload;
    hide LastOf;
    hide Overlay;
  }

  lemma {:induction false} LastOfBefore(xs: seq<Sample>, name: string, before: Option<Double>)
    ensures LastOf(xs, name, before) == if LastOf(xs, name, None).Some? then LastOf(xs, name, None) else before
    decreases |xs|
  {
    if xs != [] {
      LastOfBefore(xs[1..], name, if xs[0].name == name then Some(xs[0].value) else before);
      LastOfBefore(xs[1..], name, if xs[0].name == name then Some(xs[0].value) else None);
    }
  }

  // The last message that matters for the name.
  function LastFor(cfg: Config, c: Codec, log: seq<Message>, name: string): Option<Message> {
    if log == [] then None
    else if Matters(cfg, c, log[|log| - 1], name) then Some(log[|log| - 1])
    else LastFor(cfg, c, log[..|log| - 1], name)
  }

  predicate Settled(cfg: Config, c: Codec, s: State, name: string) {
    && (forall i :: 0 <= i < |s.pending| ==> !Matters(cfg, c, s.pending[i], name))
    && (forall i :: s.handled <= i < |s.log| ==> !Matters(cfg, c, s.log[i], name))
  }

  // Once nothing that matters for a name is on its way, the store holds the value of
  // the last such message the broker accepted, or what was there before if there was
  // none.
  predicate NameInv(cfg: Config, c: Codec, start: Values, s: State, name: string) {
    Settled(cfg, c, s, name) ==>
      match LastFor(cfg, c, s.log, name)
      case None => Lookup(s.store, name) == Lookup(start, name)
      case Some(p) => Effect(cfg, c, p, name).Some? ==> Lookup(s.store, name) == Effect(cfg, c, p, name)
  }

  predicate Inv(s: State) {
    s.handled <= |s.log| && |s.pending| + |s.log| == s.requests
  }

  lemma InvStep(cfg: Config, c: Codec, s: State, e: Event)
    requires Inv(s) && Enabled(s, e)
    ensures Inv(Step(cfg, c, s, e))
  {
    hide StoreAfter;
  }

  lemma LastForAppend(cfg: Config, c: Codec, log: seq<Message>, p: Message, name: string)
    ensures LastFor(cfg, c, log + [p], name) == if Matters(cfg, c, p, name) then Some(p) else LastFor(cfg, c, log, name)
  {
    hide Matters;
    assert (log + [p])[..|log|] == log;
  }

  lemma {:induction false} LastForEnds(cfg: Config, c: Codec, log: seq<Message>, k: nat, name: string)
    requires k < |log| && Matters(cfg, c, log[k], name)
    requires forall i :: k < i < |log| ==> !Matters(cfg, c, log[i], name)
    ensures LastFor(cfg, c, log, name) == Some(log[k])
    decreases |log|
  {
    hide Matters;
    if k < |log| - 1 {
      LastForEnds(cfg, c, log[..|log| - 1], k, name);
    }
  }

  lemma NameStep(cfg: Config, c: Codec, start: Values, s: State, e: Event, name: string)
    requires Inv(s) && Enabled(s, e) && NameInv(cfg, c, start, s, name)
    ensures NameInv(cfg, c, start, Step(cfg, c, s, e), name)
  {
    var t := Step(cfg, c, s, e);
    match e
    case Writes(n, v) =>
      if Settled(cfg, c, t, name) {
        RequestUnsettles(cfg, c, s, t, Written(n, v), name);
      }
    case Deletes(n) =>
      if n in s.store && Settled(cfg, c, t, name) {
        RequestUnsettles(cfg, c, s, t, Cleared(n), name);
      }
    case Others(topic, payload) =>
      AppendKeepsName(cfg, c, start, s, t, Foreign(topic, payload), name);
    case Accepts(i) =>
      AcceptsKeepsName(cfg, c, start, s, i, name);
    case Arrives =>
      ArrivesKeepsName(cfg, c, start, s, name);
  }

  // A request that sent p of another name leaves the name as it was.
  lemma RequestUnsettles(cfg: Config, c: Codec, s: State, t: State, p: Message, name: string)
    requires t.pending == s.pending + [p] && s.log == t.log && s.handled == t.handled && Settled(cfg, c, t, name)
    ensures Settled(cfg, c, s, name) && !Matters(cfg, c, p, name)
  {
    hide Matters;
    assert t.pending[|s.pending|] == p;
    forall i | 0 <= i < |s.pending| ensures !Matters(cfg, c, s.pending[i], name) {
      assert t.pending[i] == s.pending[i];
    }
  }

  // A message at the end of the log, while what is pending only gets less by it.
  lemma AppendKeepsName(cfg: Config, c: Codec, start: Values, s: State, t: State, p: Message, name: string)
    requires Inv(s) && NameInv(cfg, c, start, s, name)
    requires t.log == s.log + [p] && t.store == s.store && t.handled == s.handled
    requires forall q :: q in s.pending ==> q in t.pending || q == p
    ensures NameInv(cfg, c, start, t, name)
  {
    LastForAppend(cfg, c, s.log, p, name);
    hide Matters;
    hide Effect;
    if Settled(cfg, c, t, name) {
      assert t.log[|s.log|] == p;
      forall k | 0 <= k < |s.pending| ensures !Matters(cfg, c, s.pending[k], name) {
        assert s.pending[k] in s.pending;
      }
      forall k | s.handled <= k < |s.log| ensures !Matters(cfg, c, s.log[k], name) {
        assert t.log[k] == s.log[k];
      }
    }
  }

  lemma AcceptsKeepsName(cfg: Config, c: Codec, start: Values, s: State, i: nat, name: string)
    requires Inv(s) && i < |s.pending| && NameInv(cfg, c, start, s, name)
    ensures NameInv(cfg, c, start, Step(cfg, c, s, Accepts(i)), name)
  {
    hide NameInv;
    var t := Step(cfg, c, s, Accepts(i));
    assert s.pending == s.pending[..i] + ([s.pending[i]] + s.pending[i + 1..]);
    AppendKeepsName(cfg, c, start, s, t, s.pending[i], name);
  }

  lemma ArrivesKeepsName(cfg: Config, c: Codec, start: Values, s: State, name: string)
    requires Inv(s) && s.handled < |s.log| && NameInv(cfg, c, start, s, name)
    ensures NameInv(cfg, c, start, Step(cfg, c, s, Arrives), name)
  {
    var t := Step(cfg, c, s, Arrives);
    var p := s.log[s.handled];
    ArrivalLooksUp(cfg, c, s.store, p, name);
    hide StoreAfter;
    hide Effect;
    if Settled(cfg, c, t, name) {
      if Matters(cfg, c, p, name) {
        LastForEnds(cfg, c, s.log, s.handled, name);
      } else {
        assert Settled(cfg, c, s, name);
      }
    }
  }

  lemma {:induction false} RunKeepsName(cfg: Config, c: Codec, start: Values, s: State, es: seq<Event>, name: string)
    requires Inv(s) && NameInv(cfg, c, start, s, name) && Legal(cfg, c, s, es)
    ensures Inv(Run(cfg, c, s, es)) && NameInv(cfg, c, start, Run(cfg, c, s, es), name)
    decreases |es|
  {
    hide Inv;
    hide NameInv;
    hide Step;
    hide Enabled;
    if es != [] {
      InvStep(cfg, c, s, es[0]);
      NameStep(cfg, c, start, s, es[0], name);
      RunKeepsName(cfg, c, start, Step(cfg, c, s, es[0]), es[1..], name);
    }
  }

  // Convergence: in every interleaving of writers, deleters, other publishers, the
  // broker and the messages that arrive, once nothing that matters for a name is on its
  // way the store holds the value of the message the broker accepted last of those that
  // matter, unless that was a delete or a write whose value cannot be read back.
  // Messages that arrive cause no publish: the broker accepts no more than there were
  // requests.
  lemma StoreConverges(cfg: Config, c: Codec, start: Values, es: seq<Event>, name: string)
    requires Legal(cfg, c, Start(start), es)
    ensures
      var s := Run(cfg, c, Start(start), es);
      && NameInv(cfg, c, start, s, name)
      && |s.pending| + |s.log| == s.requests
      && (s.pending == [] && s.handled == |s.log| ==> Settled(cfg, c, s, name))
  {
    hide Effect;
    RunKeepsName(cfg, c, start, Start(start), es, name);
  }

  // ----- single runs ----------------------------------------------------------

  // A number from another publisher reaches the store.
  lemma OthersReachTheStore(cfg: Config, c: Codec, m: Values, name: string, payload: string)
    requires Covered(cfg, name) && ParseDouble(c, payload).Some?
    ensures
      var es := [Others(name, payload)] + ([Arrives] + []);
      Legal(cfg, c, Start(m), es) && Run(cfg, c, Start(m), es).store == m[name := ParseDouble(c, payload).value]
  {
    var p := Foreign(name, payload);
    ComesBackRounded(cfg, c, m, p);
    hide ParseDouble;
    hide StoreAfter;
    var s1 := Step(cfg, c, Start(m), Others(name, payload));
    assert s1.log == [p] by { assert [] + [p] == [p]; }
    var s2 := Step(cfg, c, s1, Arrives);
    RunNothing(cfg, c, s2);
    hide Legal;
    hide Run;
    UnfoldRun(cfg, c, s1, Arrives, []);
    UnfoldRun(cfg, c, Start(m), Others(name, payload), [Arrives] + []);
  }

  // A name that was deleted is back when everything has settled, if its last write
  // came back after the delete.
  lemma DeletedNameReturns(cfg: Config, c: Codec, m: Values, name: string, v: Double)
    requires Covered(cfg, name) && Readable(c, v)
    ensures
      var es := [Writes(name, v)] + ([Accepts(0)] + ([Deletes(name)] + ([Arrives] + ([Accepts(0)] + ([Arrives] + [])))));
      && Legal(cfg, c, Start(m), es)
      && Settled(cfg, c, Run(cfg, c, Start(m), es), name)
      && Lookup(Run(cfg, c, Start(m), es).store, name) == Some(Rounded(c, v))
  {
    hide Step;
    hide Enabled;
    hide Legal;
    hide Run;
    hide Covered;
    hide Readable;
    hide Rounded;
    hide Matters;
    var p, q := Written(name, v), Cleared(name);
    var m1 := m[name := v];
    var s1 := State(m1, [p], [], 0, 1);
    var s2 := State(m1, [], [p], 0, 1);
    var s3 := State(m1 - {name}, [q], [p], 0, 2);
    var s4 := s3.(store := s3.store[name := Rounded(c, v)], handled := 1);
    var s5 := s4.(pending := [], log := [p, q]);
    var s6 := s5.(handled := 2);
    WritesOnly(cfg, c, Start(m), name, v);
    AcceptsOnly(cfg, c, s1);
    DeletesOnly(cfg, c, s2, name);
    ReturnsOnly(cfg, c, s3);
    AcceptsOnly(cfg, c, s4);
    ReturnsOnly(cfg, c, s5);
    RunNothing(cfg, c, s6);
    assert [] + [p] == [p] && [p] + [q] == [p, q];
    assert Step(cfg, c, s2, Deletes(name)) == s3;
    assert Step(cfg, c, s3, Arrives) == s4;
    assert Step(cfg, c, s5, Arrives) == s6;
    assert Settled(cfg, c, s6, name) && Lookup(s6.store, name) == Some(Rounded(c, v));
    hide *;
    UnfoldRun(cfg, c, s5, Arrives, []);
    UnfoldRun(cfg, c, s4, Accepts(0), [Arrives] + []);
    UnfoldRun(cfg, c, s3, Arrives, [Accepts(0)] + ([Arrives] + []));
    UnfoldRun(cfg, c, s2, Deletes(name), [Arrives] + ([Accepts(0)] + ([Arrives] + [])));
    UnfoldRun(cfg, c, s1, Accepts(0), [Deletes(name)] + ([Arrives] + ([Accepts(0)] + ([Arrives] + []))));
    UnfoldRun(cfg, c, Start(m), Writes(name, v), [Accepts(0)] + ([Deletes(name)] + ([Arrives] + ([Accepts(0)] + ([Arrives] + [])))));
  }

  lemma RunNothing(cfg: Config, c: Codec, s: State)
    ensures Legal(cfg, c, s, []) && Run(cfg, c, s, []) == s
  {
  }

  lemma WritesOnly(cfg: Config, c: Codec, s: State, name: string, v: Double)
    ensures Enabled(s, Writes(name, v))
    ensures Step(cfg, c, s, Writes(name, v)) ==
            s.(store := s.store[name := v], pending := s.pending + [Written(name, v)], requests := s.requests + 1)
  {
    hide StoreAfter;
  }

  lemma DeletesOnly(cfg: Config, c: Codec, s: State, name: string)
    requires name in s.store && s.pending == []
    ensures Enabled(s, Deletes(name))
    ensures Step(cfg, c, s, Deletes(name)) ==
            s.(store := s.store - {name}, pending := [Cleared(name)], requests := s.requests + 1)
  {
    hide StoreAfter;
  }

  lemma ReturnsOnly(cfg: Config, c: Codec, s: State)
    requires s.handled < |s.log| && !s.log[s.handled].Foreign? && Covered(cfg, s.log[s.handled].topic)
    ensures
      var p := s.log[s.handled];
      && Enabled(s, Arrives)
      && Step(cfg, c, s, Arrives) ==
         s.(handled := s.handled + 1,
            store := if p.Written? && Readable(c, p.value) then s.store[p.topic := Rounded(c, p.value)] else s.store)
  {
    ComesBackRounded(cfg, c, s.store, s.log[s.handled]);
    hide StoreAfter;
    hide Readable;
    hide Rounded;
    hide Payload;
  }

  lemma AcceptsOnly(cfg: Config, c: Codec, s: State)
    requires |s.pending| == 1
    ensures Enabled(s, Accepts(0)) && Step(cfg, c, s, Accepts(0)) == s.(pending := [], log := s.log + s.pending)
  {
    hide StoreAfter;
  }

  lemma UnfoldRun(cfg: Config, c: Codec, s: State, e: Event, es: seq<Event>)
    requires Enabled(s, e) && Legal(cfg, c, Step(cfg, c, s, e), es)
    ensures Legal(cfg, c, s, [e] + es) && Run(cfg, c, s, [e] + es) == Run(cfg, c, Step(cfg, c, s, e), es)
  {
    hide Step;
    hide Enabled;
    assert ([e] + es)[1..] == es;
  }
}
