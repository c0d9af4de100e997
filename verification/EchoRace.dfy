/** Several writers of one name (src/server.cpp:551-582): when README.md:610-619 is right
    that a write which comes back through the subscription is "never a race". */
module EchoRace {
  import opened Text
  import opened Numbers
  import opened Store
  import opened Service
  import opened Echo
  import opened EchoExact

  // The values the events write for the name, in order.
  function WritesOf(es: seq<Event>, name: string): seq<Double> {
    if es == [] then []
    else (if es[0].Writes? && es[0].name == name then [es[0].value] else []) + WritesOf(es[1..], name)
  }

  // Writes of the name, and events that are not about it.
  predicate OnlyWrites(cfg: Config, c: Codec, es: seq<Event>, name: string) {
    forall k :: 0 <= k < |es| ==> (es[k].Writes? && es[k].name == name) || NotAbout(cfg, c, es[k], name)
  }

  // If the next message to arrive is about the name, it leaves the store as it is.
  predicate NextIsIdentical(cfg: Config, c: Codec, s: State, name: string) {
    Returns(cfg, c, s, Arrives, name) ==> Step(cfg, c, s, Arrives).store == s.store
  }

  // In every interleaving, while the name is written with the first of the values or
  // with all of them, in their order, no arrival changes it.
  ghost predicate NeverARace(cfg: Config, c: Codec, s: State, name: string, vs: seq<Double>) {
    forall es :: Legal(cfg, c, s, es) && OnlyWrites(cfg, c, es, name) && WritesOf(es, name) <= vs ==>
      NextIsIdentical(cfg, c, Run(cfg, c, s, es), name)
  }

  // From the first value on that can be read back, all are the same rounded one.
  predicate OneRoundedValue(c: Codec, vs: seq<Double>) {
    forall i, j :: 0 <= i <= j < |vs| && Readable(c, vs[i]) ==> Rounded(c, vs[i]) == vs[i] && vs[j] == vs[i]
  }

  // ----- one value: no race ---------------------------------------------------

  // What is on its way are writes of the values ws, and the store holds each of them
  // that can be read back.
  ghost predicate HeldInStore(cfg: Config, c: Codec, s: State, name: string, ws: seq<Double>)
    requires s.handled <= |s.log|
  {
    forall p :: p in InFlight(cfg, c, s, name) ==>
      && p.Written? && p.topic == name && p.value in ws
      && (Readable(c, p.value) ==> Lookup(s.store, name) == Some(p.value))
  }

  lemma OtherKeepsHeld(cfg: Config, c: Codec, s: State, e: Event, name: string, ws: seq<Double>)
    requires Inv(s) && Enabled(s, e) && Covered(cfg, name) && NotAbout(cfg, c, e, name)
    requires OneRoundedValue(c, ws) && HeldInStore(cfg, c, s, name, ws)
    ensures Inv(Step(cfg, c, s, e)) && HeldInStore(cfg, c, Step(cfg, c, s, e), name, ws)
  {
    InvStep(cfg, c, s, e);
    OtherStep(cfg, c, s, e, name);
    hide Step;
    hide InFlight;
    hide Lookup;
    hide Effect;
    hide Matters;
    hide Covered;
    hide Readable;
    hide Rounded;
    if Returns(cfg, c, s, e, name) {
      var p := s.log[s.handled];
      assert p in InFlight(cfg, c, s, name);
      EffectOnOwnName(cfg, c, p);
    }
  }

  lemma WriteKeepsHeld(cfg: Config, c: Codec, s: State, name: string, ws: seq<Double>, v: Double)
    requires Inv(s) && OneRoundedValue(c, ws + [v]) && HeldInStore(cfg, c, s, name, ws)
    ensures Inv(Step(cfg, c, s, Writes(name, v))) && HeldInStore(cfg, c, Step(cfg, c, s, Writes(name, v)), name, ws + [v])
  {
    var t := Step(cfg, c, s, Writes(name, v));
    InvStep(cfg, c, s, Writes(name, v));
    NewRequest(cfg, c, s, t, Written(name, v), name);
    assert Lookup(t.store, name) == Some(v);
    hide Step;
    hide InFlight;
    hide Effect;
    hide Readable;
    hide Rounded;
    forall p | p in InFlight(cfg, c, s, name) && Readable(c, p.value) ensures p.value == v {
      var k :| 0 <= k < |ws| && ws[k] == p.value;
      assert (ws + [v])[k] == p.value && (ws + [v])[|ws|] == v;
    }
  }

  lemma {:induction false} RunKeepsHeld(cfg: Config, c: Codec, s: State, es: seq<Event>, name: string, ws: seq<Double>)
    requires Inv(s) && Covered(cfg, name) && HeldInStore(cfg, c, s, name, ws)
    requires Legal(cfg, c, s, es) && OnlyWrites(cfg, c, es, name) && OneRoundedValue(c, ws + WritesOf(es, name))
    ensures Inv(Run(cfg, c, s, es)) && HeldInStore(cfg, c, Run(cfg, c, s, es), name, ws + WritesOf(es, name))
    decreases |es|
  {
    hide Inv;
    hide Step;
    hide Enabled;
    hide Covered;
    hide NotAbout;
    hide HeldInStore;
    hide OneRoundedValue;
    if es == [] {
      assert ws + [] == ws;
    } else {
      var e := es[0];
      assert forall k :: 0 <= k < |es| - 1 ==> es[1..][k] == es[k + 1];
      PrefixIsOneValue(c, ws, WritesOf(es, name));
      if e.Writes? && e.name == name {
        assert ws + WritesOf(es, name) == (ws + [e.value]) + WritesOf(es[1..], name);
        PrefixIsOneValue(c, ws + [e.value], WritesOf(es[1..], name));
        WriteKeepsHeld(cfg, c, s, name, ws, e.value);
        RunKeepsHeld(cfg, c, Step(cfg, c, s, e), es[1..], name, ws + [e.value]);
      } else {
        assert WritesOf(es, name) == WritesOf(es[1..], name);
        OtherKeepsHeld(cfg, c, s, e, name, ws);
        RunKeepsHeld(cfg, c, Step(cfg, c, s, e), es[1..], name, ws);
      }
    }
  }

  lemma PrefixIsOneValue(c: Codec, vs: seq<Double>, rest: seq<Double>)
    requires OneRoundedValue(c, vs + rest)
    ensures OneRoundedValue(c, vs)
  {
    assert forall k :: 0 <= k < |vs| ==> (vs + rest)[k] == vs[k];
  }

  lemma HeldIsIdentical(cfg: Config, c: Codec, s: State, name: string, ws: seq<Double>)
    requires Inv(s) && Covered(cfg, name) && OneRoundedValue(c, ws) && HeldInStore(cfg, c, s, name, ws)
    ensures NextIsIdentical(cfg, c, s, name)
  {
    hide Matters;
    hide Covered;
    hide Readable;
    hide Rounded;
    hide Step;
    if Returns(cfg, c, s, Arrives, name) {
      var p := s.log[s.handled];
      assert p in InFlight(cfg, c, s, name) by {
        assert s.log[s.handled..][0] == p;
      }
      ReturnsOnly(cfg, c, s);
      hide InFlight;
      assert p.value in ws;
      if Readable(c, p.value) {
        assert s.store[name := p.value] == s.store;
      }
    }
  }

  lemma OneValueIsNoRace(cfg: Config, c: Codec, s: State, name: string, vs: seq<Double>)
    requires Inv(s) && Covered(cfg, name) && Settled(cfg, c, s, name) && OneRoundedValue(c, vs)
    ensures NeverARace(cfg, c, s, name, vs)
  {
    SettledIsNothing(cfg, c, s, name);
    assert HeldInStore(cfg, c, s, name, []);
    hide *;
    forall es | Legal(cfg, c, s, es) && OnlyWrites(cfg, c, es, name) && WritesOf(es, name) <= vs
      ensures NextIsIdentical(cfg, c, Run(cfg, c, s, es), name)
    {
      var ws := WritesOf(es, name);
      assert vs == ws + vs[|ws|..] && [] + ws == ws;
      PrefixIsOneValue(c, ws, vs[|ws|..]);
      RunKeepsHeld(cfg, c, s, es, name, []);
      HeldIsIdentical(cfg, c, Run(cfg, c, s, es), name, ws);
    }
  }

  // ----- otherwise: the run that loses a write --------------------------------

  lemma {:induction false} RunTwo(cfg: Config, c: Codec, s: State, xs: seq<Event>, ys: seq<Event>)
    requires Legal(cfg, c, s, xs) && Legal(cfg, c, Run(cfg, c, s, xs), ys)
    ensures Legal(cfg, c, s, xs + ys) && Run(cfg, c, s, xs + ys) == Run(cfg, c, Run(cfg, c, s, xs), ys)
    decreases |xs|
  {
    hide Step;
    hide Enabled;
    if xs == [] {
      assert xs + ys == ys;
    } else {
      RunTwo(cfg, c, Step(cfg, c, s, xs[0]), xs[1..], ys);
      assert (xs + ys)[1..] == xs[1..] + ys;
    }
  }

  lemma {:induction false} WritesOfTwo(xs: seq<Event>, ys: seq<Event>, name: string)
    ensures WritesOf(xs + ys, name) == WritesOf(xs, name) + WritesOf(ys, name)
  {
    if xs == [] {
      assert xs + ys == ys;
    } else {
      assert (xs + ys)[1..] == xs[1..] + ys;
      WritesOfTwo(xs[1..], ys, name);
    }
  }

  // Everything the broker has accepted arrives.
  lemma {:induction false} AllArrive(cfg: Config, c: Codec, s: State, name: string) returns (es: seq<Event>)
    requires Inv(s)
    ensures Legal(cfg, c, s, es) && OnlyWrites(cfg, c, es, name) && WritesOf(es, name) == []
    ensures
      var t := Run(cfg, c, s, es);
      t.log == s.log && t.pending == s.pending && t.handled == |s.log|
    decreases |s.log| - s.handled
  {
    es := [];
    if s.handled < |s.log| {
      var t := Step(cfg, c, s, Arrives);
      var rest := AllArrive(cfg, c, t, name);
      hide Step;
      es := [Arrives] + rest;
      UnfoldRun(cfg, c, s, Arrives, rest);
      assert es[1..] == rest;
      hide Enabled;
      hide Legal;
      hide Run;
    }
  }

  function WriteAll(name: string, vs: seq<Double>): seq<Event> {
    seq(|vs|, k requires 0 <= k < |vs| => Writes(name, vs[k]))
  }

  function AllOf(name: string, vs: seq<Double>): seq<Message> {
    seq(|vs|, k requires 0 <= k < |vs| => Written(name, vs[k]))
  }

  lemma {:induction false} WriteAllWrites(cfg: Config, c: Codec, name: string, vs: seq<Double>)
    ensures OnlyWrites(cfg, c, WriteAll(name, vs), name) && WritesOf(WriteAll(name, vs), name) == vs
    decreases |vs|
  {
    hide NotAbout;
    if vs != [] {
      WriteAllWrites(cfg, c, name, vs[1..]);
      assert WriteAll(name, vs)[1..] == WriteAll(name, vs[1..]);
    }
  }

  // The writes one after the other, before the broker accepts any of them.
  lemma {:induction false} AllWritten(cfg: Config, c: Codec, s: State, name: string, vs: seq<Double>)
    ensures Legal(cfg, c, s, WriteAll(name, vs))
    ensures
      var t := Run(cfg, c, s, WriteAll(name, vs));
      && t.log == s.log && t.handled == s.handled && t.pending == s.pending + AllOf(name, vs)
      && Lookup(t.store, name) == if vs == [] then Lookup(s.store, name) else Some(vs[|vs| - 1])
    decreases |vs|
  {
    if vs == [] {
      RunNothing(cfg, c, s);
    } else {
      WritesOnly(cfg, c, s, name, vs[0]);
      hide Step;
      hide Enabled;
      var e, rest := Writes(name, vs[0]), WriteAll(name, vs[1..]);
      var s1 := Step(cfg, c, s, e);
      AllWritten(cfg, c, s1, name, vs[1..]);
      UnfoldRun(cfg, c, s, e, rest);
      assert WriteAll(name, vs) == [e] + rest;
      hide Legal;
      hide Run;
      assert s.pending + AllOf(name, vs) == (s.pending + [Written(name, vs[0])]) + AllOf(name, vs[1..]);
    }
  }

  // The first messages arrive, the values are written up to vs[j], and the broker
  // accepts vs[i].
  lemma BeforeTheLoss(cfg: Config, c: Codec, s: State, name: string, vs: seq<Double>, i: nat, j: nat) returns (es: seq<Event>)
    requires Inv(s) && i <= j < |vs|
    ensures Legal(cfg, c, s, es) && OnlyWrites(cfg, c, es, name) && WritesOf(es, name) == vs[..j + 1]
    ensures
      var t := Run(cfg, c, s, es);
      && t.handled < |t.log| && t.log[t.handled] == Written(name, vs[i])
      && Lookup(t.store, name) == Some(vs[j])
  {
    hide *;
    var xs := AllArrive(cfg, c, s, name);
    var s1 := Run(cfg, c, s, xs);
    var ws := vs[..j + 1];
    var ys := WriteAll(name, ws);
    AllWritten(cfg, c, s1, name, ws);
    WriteAllWrites(cfg, c, name, ws);
    var s2 := Run(cfg, c, s1, ys);
    AllOfAt(s.pending, name, ws, i);
    OneAccepted(cfg, c, s2, |s.pending| + i, name);
    Then(cfg, c, s, xs, ys, name);
    es := (xs + ys) + [Accepts(|s.pending| + i)];
    Then(cfg, c, s, xs + ys, [Accepts(|s.pending| + i)], name);
    assert [] + ws == ws && ws + [] == ws;
  }

  lemma AllOfAt(pending: seq<Message>, name: string, ws: seq<Double>, i: nat)
    requires i < |ws|
    ensures |pending| + i < |pending + AllOf(name, ws)| && (pending + AllOf(name, ws))[|pending| + i] == Written(name, ws[i])
  {
  }

  lemma Then(cfg: Config, c: Codec, s: State, xs: seq<Event>, ys: seq<Event>, name: string)
    requires Legal(cfg, c, s, xs) && OnlyWrites(cfg, c, xs, name)
    requires Legal(cfg, c, Run(cfg, c, s, xs), ys) && OnlyWrites(cfg, c, ys, name)
    ensures Legal(cfg, c, s, xs + ys) && Run(cfg, c, s, xs + ys) == Run(cfg, c, Run(cfg, c, s, xs), ys)
    ensures OnlyWrites(cfg, c, xs + ys, name) && WritesOf(xs + ys, name) == WritesOf(xs, name) + WritesOf(ys, name)
  {
    RunTwo(cfg, c, s, xs, ys);
    WritesOfTwo(xs, ys, name);
    hide Legal;
    hide Run;
    hide WritesOf;
    hide NotAbout;
  }

  lemma OneAccepted(cfg: Config, c: Codec, s: State, i: nat, name: string)
    requires i < |s.pending|
    ensures Legal(cfg, c, s, [Accepts(i)]) && OnlyWrites(cfg, c, [Accepts(i)], name) && WritesOf([Accepts(i)], name) == []
    ensures
      var t := Run(cfg, c, s, [Accepts(i)]);
      t.store == s.store && t.handled == s.handled && t.log == s.log + [s.pending[i]]
  {
    hide StoreAfter;
    var t := Step(cfg, c, s, Accepts(i));
    RunNothing(cfg, c, t);
    UnfoldRun(cfg, c, s, Accepts(i), []);
    assert [Accepts(i)] + [] == [Accepts(i)];
    assert NotAbout(cfg, c, Accepts(i), name);
    hide Legal;
    hide Run;
  }

  // The write whose rounded value is not the one written last is accepted first.
  lemma WriteIsLost(cfg: Config, c: Codec, s: State, name: string, vs: seq<Double>, i: nat, j: nat)
    requires Inv(s) && Covered(cfg, name) && i <= j < |vs| && Readable(c, vs[i]) && Rounded(c, vs[i]) != vs[j]
    ensures !NeverARace(cfg, c, s, name, vs)
  {
    var es := BeforeTheLoss(cfg, c, s, name, vs, i, j);
    var t := Run(cfg, c, s, es);
    ReturnsOnly(cfg, c, t);
    hide Legal;
    hide Run;
    hide OnlyWrites;
    hide WritesOf;
    hide Covered;
    hide Readable;
    hide Rounded;
    hide Effect;
    assert Lookup(Step(cfg, c, t, Arrives).store, name) != Lookup(t.store, name);
    hide Step;
    hide Lookup;
    assert !NextIsIdentical(cfg, c, t, name);
  }

  // From any state in which nothing of a name is on its way, with writes of vs by any
  // clients and nothing else about the name: in every interleaving no write that comes
  // back changes the store if and only if, from the first of the values on that can be
  // read back, all are one value that was rounded already.
  lemma NeverARaceExactly(cfg: Config, c: Codec, start: Values, before: seq<Event>, name: string, vs: seq<Double>)
    requires Legal(cfg, c, Start(start), before) && Covered(cfg, name)
    requires Settled(cfg, c, Run(cfg, c, Start(start), before), name)
    ensures NeverARace(cfg, c, Run(cfg, c, Start(start), before), name, vs) <==> OneRoundedValue(c, vs)
  {
    ReachedInv(cfg, c, Start(start), before);
    var s := Run(cfg, c, Start(start), before);
    hide Run;
    hide Legal;
    hide Covered;
    hide Settled;
    hide Readable;
    hide Rounded;
    hide NeverARace;
    if OneRoundedValue(c, vs) {
      OneValueIsNoRace(cfg, c, s, name, vs);
    } else {
      var i, j :| 0 <= i <= j < |vs| && Readable(c, vs[i]) && (Rounded(c, vs[i]) != vs[i] || vs[j] != vs[i]);
      WriteIsLost(cfg, c, s, name, vs, i, if Rounded(c, vs[i]) != vs[i] then i else j);
    }
  }

  // Two writers of rounded values: the return of the first write puts its value back
  // over the second one.
  lemma OlderWriteReturns(cfg: Config, c: Codec, m: Values, name: string, v: Double, w: Double)
    requires Covered(cfg, name) && Readable(c, v) && Rounded(c, v) == v
    ensures
      var es := [Writes(name, v)] + ([Writes(name, w)] + ([Accepts(0)] + ([Arrives] + [])));
      Legal(cfg, c, Start(m), es) && Lookup(Run(cfg, c, Start(m), es).store, name) == Some(v)
  {
    var p, q := Written(name, v), Written(name, w);
    var s1 := State(m[name := v], [p], [], 0, 1);
    var s2 := State(m[name := v][name := w], [p, q], [], 0, 2);
    var s3 := State(m[name := v][name := w], [q], [p], 0, 2);
    WritesOnly(cfg, c, Start(m), name, v);
    WritesOnly(cfg, c, s1, name, w);
    assert [] + [p] == [p] && [p] + [q] == [p, q];
    assert Step(cfg, c, s2, Accepts(0)) == s3 by {
      assert s2.pending[..0] + s2.pending[1..] == [q];
      hide StoreAfter;
    }
    ReturnsOnly(cfg, c, s3);
    hide Step;
    hide Legal;
    hide Run;
    hide Covered;
    hide Readable;
    hide Rounded;
    var s4 := Step(cfg, c, s3, Arrives);
    RunNothing(cfg, c, s4);
    UnfoldRun(cfg, c, s3, Arrives, []);
    UnfoldRun(cfg, c, s2, Accepts(0), [Arrives] + []);
    UnfoldRun(cfg, c, s1, Writes(name, w), [Accepts(0)] + ([Arrives] + []));
    UnfoldRun(cfg, c, Start(m), Writes(name, v), [Writes(name, w)] + ([Accepts(0)] + ([Arrives] + [])));
  }
}
