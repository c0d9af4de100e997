/** The state file over whole runs of the service, with a crash between any two steps
    of a save: src/state.cpp:52-125 as src/server.cpp:551-599 and src/main.cpp:399-450
    use it.  One save runs at a time; other threads go on changing the store while it
    writes. */
module Persistence {
  import opened Text
  import opened Numbers
  import opened JsonFlatten
  import opened Store

  datatype Disk = Disk(file: Option<string>, temp: Option<string>)

  // Where a save can fail: at opening, after some bytes, or at the rename.
  datatype Fault = NoFault | OpenFails | WriteFails(written: nat) | RenameFails

  // What one save leaves behind.
  function AfterSave(text: string, d: Disk, fault: Fault): Disk {
    match fault
    case OpenFails => d
    case WriteFails(n) => d.(temp := Some(text[..if n <= |text| then n else |text|]))
    case RenameFails => d.(temp := Some(text))
    case NoFault => Disk(Some(text), None)
  }

  // A save has taken its snapshot, or has written so many bytes of its text to the
  // temporary file it opened.
  datatype Saving = NotSaving | Snapped(m: Values) | Writing(m: Values, written: nat)

  // onDisk: the store that was saved last.
  datatype State = State(up: bool, store: Values, disk: Disk, saving: Saving, onDisk: Option<Values>)

  datatype Event =
    | Sets(name: string, value: Double)
    | Removes(name: string)
    | SaveBegins
    | OpensTemp
    | Writes(upTo: nat)
    | Renames
    | SaveFails
    | Crashes
    | Restarts

  const START := State(true, map[], Disk(None, None), NotSaving, None)

  ghost function TextOf(c: Codec, m: Values): string {
    FileText(c, Snapshot(m))
  }

  ghost predicate Enabled(c: Codec, s: State, e: Event) {
    match e
    case Sets(_, _) => s.up
    case Removes(_) => s.up
    case SaveBegins => s.up && s.saving == NotSaving
    case OpensTemp => s.up && s.saving.Snapped?
    case Writes(n) => s.up && s.saving.Writing? && s.saving.written <= n <= |TextOf(c, s.saving.m)|
    case Renames => s.up && s.saving.Writing? && s.saving.written == |TextOf(c, s.saving.m)|
    case SaveFails => s.up && s.saving != NotSaving
    case Crashes => s.up
    case Restarts => !s.up
  }

  // What load() makes of the file; no file is an empty store.
  function Load(c: Codec, d: Disk): Option<Values> {
    if d.file.None? then Some(map[]) else ReadFlatObject(c, d.file.value)
  }

  ghost function Step(c: Codec, s: State, e: Event): State
    requires Enabled(c, s, e)
  {
    match e
    case Sets(name, v) => s.(store := s.store[name := v])
    case Removes(name) => s.(store := s.store - {name})
    case SaveBegins => s.(saving := Snapped(s.store))
    case OpensTemp => s.(saving := Writing(s.saving.m, 0), disk := s.disk.(temp := Some("")))
    case Writes(n) =>
      s.(saving := Writing(s.saving.m, n), disk := s.disk.(temp := Some(TextOf(c, s.saving.m)[..n])))
    case Renames => s.(saving := NotSaving, disk := Disk(s.disk.temp, None), onDisk := Some(s.saving.m))
    case SaveFails => s.(saving := NotSaving)
    case Crashes => s.(up := false, store := map[], saving := NotSaving)
    case Restarts =>
      match Load(c, s.disk)
      case Some(m) => s.(up := true, store := m)
      case None => s
  }

  ghost predicate Legal(c: Codec, s: State, es: seq<Event>)
    decreases |es|
  {
    es == [] || (Enabled(c, s, es[0]) && Legal(c, Step(c, s, es[0]), es[1..]))
  }

  ghost function Run(c: Codec, s: State, es: seq<Event>): State
    requires Legal(c, s, es)
    decreases |es|
  {
    if es == [] then s else Run(c, Step(c, s, es[0]), es[1..])
  }

  // The file is the whole text of the store saved last, at every moment; only the
  // temporary file is ever incomplete.
  ghost predicate Inv(c: Codec, s: State) {
    && (!s.up ==> s.saving == NotSaving && s.store == map[])
    && s.disk.file == (if s.onDisk.Some? then Some(TextOf(c, s.onDisk.value)) else None)
    && (s.saving.Writing? ==>
          s.saving.written <= |TextOf(c, s.saving.m)| && s.disk.temp == Some(TextOf(c, s.saving.m)[..s.saving.written]))
  }

  lemma InvStep(c: Codec, s: State, e: Event)
    requires Inv(c, s) && Enabled(c, s, e)
    ensures Inv(c, Step(c, s, e))
  {
    hide TextOf;
    hide Load;
    if e.Renames? {
      var t := TextOf(c, s.saving.m);
      assert t[..|t|] == t;
    }
  }

  lemma {:induction false} RunInv(c: Codec, s: State, es: seq<Event>)
    requires Inv(c, s) && Legal(c, s, es)
    ensures Inv(c, Run(c, s, es))
    decreases |es|
  {
    hide Inv;
    hide Step;
    hide Enabled;
    if es != [] {
      InvStep(c, s, es[0]);
      RunInv(c, Step(c, s, es[0]), es[1..]);
    }
  }

  // A crash at any moment leaves a file that loads to the store saved last, every
  // value rounded; it cannot be loaded exactly when that store held a value whose
  // text cannot be read back.
  lemma CrashLoadsLastSave(c: Codec, es: seq<Event>)
    requires Lawful(c) && Legal(c, START, es)
    ensures
      var s := Run(c, START, es);
      Load(c, s.disk) ==
      match s.onDisk
      case None => Some(map[])
      case Some(m) => if StoreReadable(c, m) then Some(RoundStore(c, m)) else None
  {
    assert Inv(c, START);
    RunInv(c, START, es);
    var s := Run(c, START, es);
    if s.onDisk.Some? {
      LoadOfSave(c, s.onDisk.value);
    }
    hide *;
    LoadIs(c, s.disk);
    InvIs(c, s);
    if s.onDisk.Some? {
      TextIs(c, s.onDisk.value);
    }
  }

  lemma LoadIs(c: Codec, d: Disk)
    ensures Load(c, d) == if d.file.None? then Some(map[]) else ReadFlatObject(c, d.file.value)
  {
  }

  lemma InvIs(c: Codec, s: State)
    requires Inv(c, s)
    ensures s.disk.file == (if s.onDisk.Some? then Some(TextOf(c, s.onDisk.value)) else None)
  {
  }

  lemma TextIs(c: Codec, m: Values)
    ensures TextOf(c, m) == FileText(c, Snapshot(m))
  {
  }

  // While the service is up its store can be changed and a crash can come, whatever a
  // save is doing; a save that fails or crashes leaves the file alone.
  lemma ChangesAnyTime(c: Codec, s: State, name: string, v: Double)
    requires s.up
    ensures Enabled(c, s, Sets(name, v)) && Step(c, s, Sets(name, v)) == s.(store := s.store[name := v])
    ensures Enabled(c, s, Removes(name)) && Step(c, s, Removes(name)) == s.(store := s.store - {name})
    ensures Enabled(c, s, Crashes) && Step(c, s, Crashes).disk == s.disk && !Step(c, s, Crashes).up
    ensures s.saving != NotSaving ==>
      Enabled(c, s, SaveFails) && Step(c, s, SaveFails).disk == s.disk && Step(c, s, SaveFails).store == s.store
  {
  }

  // ----- which store was saved last -------------------------------------------

  predicate NoSaveBegins(es: seq<Event>) {
    forall k :: 0 <= k < |es| ==> es[k] != SaveBegins
  }

  predicate OldOrNew(s: State, before: Option<Values>, m: Values) {
    && (s.onDisk == before || s.onDisk == Some(m))
    && (s.saving != NotSaving ==> s.saving.m == m && s.onDisk == before)
  }

  lemma {:induction false} OldOrNewRun(c: Codec, s: State, es: seq<Event>, before: Option<Values>, m: Values)
    requires OldOrNew(s, before, m) && Legal(c, s, es) && NoSaveBegins(es)
    ensures OldOrNew(Run(c, s, es), before, m)
    decreases |es|
  {
    hide TextOf;
    hide Load;
    if es != [] {
      OldOrNewStep(c, s, es[0], before, m);
      hide Step;
      hide Enabled;
      OldOrNewRun(c, Step(c, s, es[0]), es[1..], before, m);
    }
  }

  lemma OldOrNewStep(c: Codec, s: State, e: Event, before: Option<Values>, m: Values)
    requires OldOrNew(s, before, m) && Enabled(c, s, e) && e != SaveBegins
    ensures OldOrNew(Step(c, s, e), before, m)
  {
    hide TextOf;
    hide Load;
  }

  // From the moment a save begins until the next one does, whatever else happens and
  // wherever a crash comes, the store on disk is the one from before the save or the
  // one the save began with.
  lemma SaveIsAtomic(c: Codec, before: seq<Event>, after: seq<Event>)
    requires Legal(c, START, before) && Enabled(c, Run(c, START, before), SaveBegins)
    requires Legal(c, Step(c, Run(c, START, before), SaveBegins), after) && NoSaveBegins(after)
    ensures
      var s := Run(c, START, before);
      var t := Run(c, Step(c, s, SaveBegins), after);
      t.onDisk == s.onDisk || t.onDisk == Some(s.store)
  {
    var s := Run(c, START, before);
    OldOrNewRun(c, Step(c, s, SaveBegins), after, s.onDisk, s.store);
  }

  // A save that reaches its rename puts the store it began with on disk, and that is
  // the current store if nothing was changed meanwhile.
  lemma SaveSucceeds(c: Codec, before: seq<Event>, during: seq<Event>)
    requires Legal(c, START, before) && Enabled(c, Run(c, START, before), SaveBegins)
    requires Legal(c, Step(c, Run(c, START, before), SaveBegins), during) && NoSaveBegins(during)
    requires Enabled(c, Run(c, Step(c, Run(c, START, before), SaveBegins), during), Renames)
    ensures
      var s := Run(c, START, before);
      var t := Run(c, Step(c, s, SaveBegins), during);
      && Step(c, t, Renames).onDisk == Some(s.store)
      && ((forall k :: 0 <= k < |during| ==> !during[k].Sets? && !during[k].Removes? && !during[k].Crashes?) ==>
            Step(c, t, Renames).store == s.store)
  {
    var s := Run(c, START, before);
    OldOrNewRun(c, Step(c, s, SaveBegins), during, s.onDisk, s.store);
    if forall k :: 0 <= k < |during| ==> !during[k].Sets? && !during[k].Removes? && !during[k].Crashes? {
      StoreStays(c, Step(c, s, SaveBegins), during);
    }
  }

  lemma {:induction false} StoreStays(c: Codec, s: State, es: seq<Event>)
    requires Legal(c, s, es) && s.up
    requires forall k :: 0 <= k < |es| ==> !es[k].Sets? && !es[k].Removes? && !es[k].Crashes?
    ensures Run(c, s, es).store == s.store
    decreases |es|
  {
    hide TextOf;
    hide Load;
    if es != [] {
      assert !es[0].Sets? && !es[0].Removes? && !es[0].Crashes?;
      StoreStays(c, Step(c, s, es[0]), es[1..]);
    }
  }

  // ----- restarting -----------------------------------------------------------

  ghost predicate AllReadableStores(c: Codec, s: State) {
    && StoreReadable(c, s.store)
    && (s.saving != NotSaving ==> StoreReadable(c, s.saving.m))
    && (s.onDisk.Some? ==> StoreReadable(c, s.onDisk.value))
  }

  ghost predicate ReadableSets(c: Codec, es: seq<Event>) {
    forall k :: 0 <= k < |es| && es[k].Sets? ==> Readable(c, es[k].value)
  }

  lemma ReadableStep(c: Codec, s: State, e: Event)
    requires Lawful(c) && Inv(c, s) && AllReadableStores(c, s) && Enabled(c, s, e)
    requires e.Sets? ==> Readable(c, e.value)
    ensures AllReadableStores(c, Step(c, s, e))
    ensures e.Restarts? ==> Step(c, s, e).up
  {
    hide TextOf;
    hide Readable;
    if e.Restarts? {
      LoadIs(c, s.disk);
      if s.onDisk.Some? {
        var m := s.onDisk.value;
        LoadOfSave(c, m);
        TextIs(c, m);
        SecondSaveIsSame(c, m);
        hide FileText;
        hide ReadFlatObject;
        hide RoundStore;
      }
      hide Load;
    }
  }

  lemma {:induction false} ReadableRun(c: Codec, s: State, es: seq<Event>)
    requires Lawful(c) && Inv(c, s) && AllReadableStores(c, s) && Legal(c, s, es) && ReadableSets(c, es)
    ensures Inv(c, Run(c, s, es)) && AllReadableStores(c, Run(c, s, es))
    decreases |es|
  {
    hide Inv;
    hide Step;
    hide Enabled;
    hide AllReadableStores;
    hide Readable;
    if es != [] {
      assert es[0].Sets? ==> Readable(c, es[0].value);
      InvStep(c, s, es[0]);
      ReadableStep(c, s, es[0]);
      ReadableRun(c, Step(c, s, es[0]), es[1..]);
    }
  }

  // As long as only readable values are put into the store, a restart after a crash
  // at any moment succeeds.
  lemma RestartSucceeds(c: Codec, es: seq<Event>)
    requires Lawful(c) && Legal(c, START, es) && ReadableSets(c, es) && !Run(c, START, es).up
    ensures Step(c, Run(c, START, es), Restarts).up
  {
    assert Inv(c, START) && AllReadableStores(c, START);
    ReadableRun(c, START, es);
    hide Run;
    hide Legal;
    ReadableStep(c, Run(c, START, es), Restarts);
  }

  // What a start finds: nothing, or the store saved last with its values rounded; it
  // fails, and changes nothing, exactly if one of them cannot be read back.
  lemma RestartRestores(c: Codec, es: seq<Event>)
    requires Lawful(c) && Legal(c, START, es) && !Run(c, START, es).up
    ensures
      var s := Run(c, START, es);
      && s.saving == NotSaving && s.store == map[]
      && Step(c, s, Restarts) ==
      match s.onDisk
      case None => s.(up := true, store := map[])
      case Some(m) => if StoreReadable(c, m) then s.(up := true, store := RoundStore(c, m)) else s
  {
    CrashLoadsLastSave(c, es);
    assert Inv(c, START);
    RunInv(c, START, es);
    hide Run;
    hide Legal;
    hide Load;
    hide TextOf;
    hide StoreReadable;
    hide RoundStore;
  }

  // ----- one call of save -----------------------------------------------------

  // The events of a save that meets a fault.
  ghost function SaveEvents(c: Codec, m: Values, fault: Fault): seq<Event> {
    var n := |TextOf(c, m)|;
    match fault
    case OpenFails => [SaveBegins, SaveFails]
    case WriteFails(k) => [SaveBegins, OpensTemp, Writes(if k <= n then k else n), SaveFails]
    case RenameFails => [SaveBegins, OpensTemp, Writes(n), SaveFails]
    case NoFault => [SaveBegins, OpensTemp, Writes(n), Renames]
  }

  // A save that nothing comes between is a run of these events: it leaves the disk as
  // they do, and the store is on disk exactly if there was no fault.
  lemma SaveIsARun(c: Codec, s: State, fault: Fault)
    requires s.up && s.saving == NotSaving
    ensures
      var es := SaveEvents(c, s.store, fault);
      && Legal(c, s, es)
      && Run(c, s, es) ==
         s.(disk := AfterSave(TextOf(c, s.store), s.disk, fault), onDisk := if fault.NoFault? then Some(s.store) else s.onDisk)
  {
    var es, text := SaveEvents(c, s.store, fault), TextOf(c, s.store);
    hide TextOf;
    assert text[..|text|] == text;
    var s1 := Step(c, s, SaveBegins);
    if fault.OpenFails? {
      TwoEvents(c, s, SaveBegins, SaveFails);
    } else {
      var k := if fault.WriteFails? && fault.written <= |text| then fault.written else |text|;
      var s2 := Step(c, s1, OpensTemp);
      var s3 := Step(c, s2, Writes(k));
      var last := if fault.NoFault? then Renames else SaveFails;
      assert Enabled(c, s3, last);
      TwoEvents(c, s2, Writes(k), last);
      assert es == [SaveBegins, OpensTemp] + [Writes(k), last];
      assert es[1..] == [OpensTemp, Writes(k), last] && es[1..][1..] == [Writes(k), last];
      hide Step;
      hide Enabled;
      assert Legal(c, s1, es[1..]);
    }
  }

  lemma TwoEvents(c: Codec, s: State, e: Event, f: Event)
    requires Enabled(c, s, e) && Enabled(c, Step(c, s, e), f)
    ensures Legal(c, s, [e, f]) && Run(c, s, [e, f]) == Step(c, Step(c, s, e), f)
  {
    hide Step;
    hide Enabled;
    var t := Step(c, s, e);
    assert [e, f][1..] == [f] && [f][1..] == [];
    assert Legal(c, Step(c, t, f), []) && Run(c, Step(c, t, f), []) == Step(c, t, f);
    assert Legal(c, t, [f]) && Run(c, t, [f]) == Step(c, t, f);
  }
}
