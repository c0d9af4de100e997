/** Which values the service puts into its store, and whether it can always be started
    again on the file it wrote: src/main.cpp:399-414 and 437-489, src/state.cpp:52-125,
    src/text_util.cpp:83-124. */
module Restarting {
  import opened Text
  import opened Numbers
  import opened JsonScan
  import opened JsonFlatten
  import opened Store
  import opened Persistence
  import Service

  // The values that reach the store: read by parse_double, or a JSON true or false.
  ghost predicate FromText(c: Codec, v: Double) {
    v == ZERO || v == ONE || exists text :: ParseDouble(c, text) == Some(v)
  }

  ghost predicate AllFromText(c: Codec, xs: seq<Sample>) {
    forall k :: 0 <= k < |xs| ==> FromText(c, xs[k].value)
  }

  // What a message puts into the store.
  lemma StoredIsFromText(cfg: Service.Config, c: Codec, topic: string, payload: string)
    requires Service.Update(cfg, c, topic, payload).Some?
    ensures AllFromText(c, Service.Update(cfg, c, topic, payload).value)
  {
    if topic in cfg.jsonTopics {
      LeavesFromText(c, payload, "");
    }
    hide ParseDouble;
    hide FlattenText;
    hide Service.ForStore;
  }

  lemma {:induction false} LeavesFromText(c: Codec, text: string, prefix: string)
    requires FlattenText(c, text, prefix).Some?
    ensures AllFromText(c, FlattenText(c, text, prefix).value)
    decreases |text|, 2, 0
  {
    hide Tokens;
    TokensAreShorter(text);
    PairsFromText(c, Tokens(text).value, prefix, |text|);
    hide AllFromText;
  }

  lemma {:induction false} PairsFromText(c: Codec, ps: seq<Pair>, prefix: string, bound: nat)
    requires forall k :: 0 <= k < |ps| ==> 0 < |ps[k].raw| < bound
    requires FlattenPairs(c, ps, prefix, bound).Some?
    ensures AllFromText(c, FlattenPairs(c, ps, prefix, bound).value)
    decreases bound, 1, |ps|
  {
    hide FromText;
    if ps != [] {
      PairsFromText(c, ps[1..], prefix, bound);
      PairFromText(c, ps[0], prefix, bound);
    }
    hide FlattenPair;
  }

  lemma {:induction false} PairFromText(c: Codec, p: Pair, prefix: string, bound: nat)
    requires 0 < |p.raw| < bound && FlattenPair(c, p, prefix, bound).Some?
    ensures AllFromText(c, FlattenPair(c, p, prefix, bound).value)
    decreases bound, 0, 0
  {
    hide ParseDouble;
    if p.raw[0] == '{' {
      LeavesFromText(c, p.raw, Join(prefix, p.key));
    }
    hide FlattenText;
  }

  // Each such value is read back from the text it is saved as.
  ghost predicate ReadsBack(c: Codec) {
    forall v :: FromText(c, v) ==> Readable(c, v)
  }

  ghost predicate SetsFromText(c: Codec, es: seq<Event>) {
    forall k :: 0 <= k < |es| && es[k].Sets? ==> FromText(c, es[k].value)
  }

  // After a crash at any moment of any run the service starts again.
  ghost predicate AlwaysRestarts(c: Codec) {
    forall es :: Legal(c, START, es) && SetsFromText(c, es) && !Run(c, START, es).up ==>
      Step(c, Run(c, START, es), Restarts).up
  }

  lemma AlwaysRestartsExactly(c: Codec)
    requires Lawful(c)
    ensures AlwaysRestarts(c) <==> ReadsBack(c)
  {
    hide Step;
    hide Legal;
    hide Run;
    hide FromText;
    hide Readable;
    if ReadsBack(c) {
      forall es | Legal(c, START, es) && SetsFromText(c, es) && !Run(c, START, es).up
        ensures Step(c, Run(c, START, es), Restarts).up
      {
        AllReadable(c, es);
        RestartSucceeds(c, es);
      }
    } else {
      var v :| FromText(c, v) && !Readable(c, v);
      var es := SavedAndCrashed(c, v);
    }
  }

  lemma AllReadable(c: Codec, es: seq<Event>)
    requires ReadsBack(c) && SetsFromText(c, es)
    ensures ReadableSets(c, es)
  {
    hide FromText;
    hide Readable;
  }

  // The run: a value that cannot be read back is stored, saved, and the service stops.
  lemma SavedAndCrashed(c: Codec, v: Double) returns (es: seq<Event>)
    requires Lawful(c) && FromText(c, v) && !Readable(c, v)
    ensures Legal(c, START, es) && SetsFromText(c, es) && !Run(c, START, es).up
    ensures !Step(c, Run(c, START, es), Restarts).up
  {
    hide TextOf;
    hide Readable;
    var m: Values := map["a" := v];
    var s1 := State(true, m, Disk(None, None), NotSaving, None);
    var s2 := State(true, m, Disk(Some(TextOf(c, m)), None), NotSaving, Some(m));
    var s3 := State(false, map[], Disk(Some(TextOf(c, m)), None), NotSaving, Some(m));
    var save := SaveEvents(c, m, NoFault);
    es := [Sets("a", v)] + (save + [Crashes]);
    assert Step(c, START, Sets("a", v)) == s1;
    SaveIsARun(c, s1, NoFault);
    assert Step(c, s2, Crashes) == s3;
    hide Step;
    hide Legal;
    hide Run;
    RunOne(c, s2, Crashes);
    RunTwo(c, s1, save, [Crashes]);
    RunOne(c, START, Sets("a", v));
    RunTwo(c, START, [Sets("a", v)], save + [Crashes]);
    assert "a" in m && !StoreReadable(c, m);
    CrashLoadsLastSave(c, es);
    NoRestart(c, s3);
  }

  lemma NoRestart(c: Codec, s: State)
    requires !s.up && Load(c, s.disk) == None
    ensures Step(c, s, Restarts) == s
  {
    hide Load;
  }

  lemma RunOne(c: Codec, s: State, e: Event)
    requires Enabled(c, s, e)
    ensures Legal(c, s, [e]) && Run(c, s, [e]) == Step(c, s, e)
  {
    hide Step;
    hide Enabled;
    var t := Step(c, s, e);
    assert [e][1..] == [];
    assert Legal(c, t, []) && Run(c, t, []) == t;
  }

  lemma {:induction false} RunTwo(c: Codec, s: State, xs: seq<Event>, ys: seq<Event>)
    requires Legal(c, s, xs) && Legal(c, Run(c, s, xs), ys)
    ensures Legal(c, s, xs + ys) && Run(c, s, xs + ys) == Run(c, Run(c, s, xs), ys)
    decreases |xs|
  {
    hide Step;
    hide Enabled;
    if xs == [] {
      assert xs + ys == ys;
    } else {
      RunTwo(c, Step(c, s, xs[0]), xs[1..], ys);
      assert (xs + ys)[1..] == xs[1..] + ys;
    }
  }

  // ----- a value that is not read back ----------------------------------------

  // The least positive double, which strtod reads from its hexadecimal text without an
  // error, and its nine digits, for which it reports one.
  const TINY: Double := 1
  const TINY_HEX := "0x1p-1074"
  const TINY_DIGITS := "4.94065646e-324"

  ghost predicate ReadsTiny(c: Codec) {
    && c.strtod(TINY_HEX) == Some(TINY)
    && c.format(TINY) == TINY_DIGITS
    && c.strtod(TINY_DIGITS) == None
  }

  // So a client that writes that text once leaves a file the service cannot start on.
  lemma TinyStopsTheRestart(c: Codec)
    requires Lawful(c) && ReadsTiny(c)
    ensures !AlwaysRestarts(c)
  {
    hide *;
    TinyIsStored(c);
    AlwaysRestartsExactly(c);
    NotReadBack(c, TINY_HEX, TINY);
  }

  lemma TinyIsStored(c: Codec)
    requires ReadsTiny(c)
    ensures ParseDouble(c, TINY_HEX) == Some(TINY) && !Readable(c, TINY)
  {
    TinyTexts();
    ReadsTinyIs(c);
    hide *;
    ParseNumberText(c, "", TINY_HEX, "");
    ParseNumberText(c, "", TINY_DIGITS, "");
    NoSpaces();
    ReadableIs(c, TINY);
  }

  lemma ReadsTinyIs(c: Codec)
    requires ReadsTiny(c)
    ensures c.strtod(TINY_HEX) == Some(TINY) && c.format(TINY) == TINY_DIGITS && c.strtod(TINY_DIGITS) == None
  {
  }

  lemma NoSpaces()
    ensures AllSpace("")
  {
  }

  lemma ReadableIs(c: Codec, v: Double)
    ensures Readable(c, v) <==> ParseDouble(c, c.format(v)).Some?
  {
    hide ParseDouble;
  }

  lemma NotReadBack(c: Codec, text: string, v: Double)
    requires ParseDouble(c, text) == Some(v) && !Readable(c, v)
    ensures !ReadsBack(c)
  {
    hide ParseDouble;
    hide Readable;
    assert FromText(c, v);
  }

  // The laws allow that.
  function TinyFormat(v: Double): string {
    if v == TINY then TINY_DIGITS else UnitFormat(v)
  }

  function TinyStrtod(t: string): Option<Double> {
    if t == TINY_HEX then Some(TINY) else UnitStrtod(t)
  }

  lemma TinyCodecIsLawful()
    ensures Lawful(Codec(TinyFormat, TinyStrtod)) && ReadsTiny(Codec(TinyFormat, TinyStrtod))
  {
    UnitCodecIsLawful();
    TinyTexts();
    var u, c := Codec(UnitFormat, UnitStrtod), Codec(TinyFormat, TinyStrtod);
    forall v: Double, w | c.strtod(c.format(v)) == Some(w) ensures c.format(w) == c.format(v) {
      TinyIsNoUnit(v);
      assert u.strtod(u.format(v)) == Some(w);
    }
    hide UnitFormat;
    hide UnitStrtod;
    hide NumberText;
  }

  lemma TinyTexts()
    ensures NumberText(TINY_HEX) && NumberText(TINY_DIGITS)
    ensures UnitStrtod(TINY_DIGITS) == None && TINY_DIGITS != TINY_HEX
  {
    assert !IsDigit(TINY_DIGITS[1]) && TINY_HEX[1] != TINY_DIGITS[1];
    hide DigitsValue;
  }

  // A text the unit codec writes is none of the two, and it reads no such value.
  lemma TinyIsNoUnit(v: Double)
    ensures UnitFormat(v) != TINY_HEX && UnitFormat(v) != TINY_DIGITS && UnitStrtod(UnitFormat(v)) != Some(TINY)
  {
    var t := UnitFormat(v);
    if |t| > 1 {
      assert IsDigit(t[1]);
    }
    assert !IsDigit(TINY_DIGITS[1]) && !IsDigit(TINY_HEX[1]);
    hide Digits;
    hide DigitsValue;
  }
}
