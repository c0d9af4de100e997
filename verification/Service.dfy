/** The objects around the store: StateStore of src/state.cpp with its file, the
    message handler of src/main.cpp:437-489 and the metric handlers of
    src/server.cpp:551-619. */
module Service {
  import opened Text
  import opened Numbers
  import opened JsonScan
  import opened JsonTree
  import opened JsonFlatten
  import JsonPaths
  import opened Store
  import HandOff
  import Persistence
  import PublishPool
  import Topic

  // The state file and the temporary file beside it; None: there is no such file.
  class StateFile {
    var file: Option<string>
    var temp: Option<string>

    constructor (file: Option<string>)
      ensures this.file == file && temp == None
    {
      this.file, temp := file, None;
    }

    function D(): Persistence.Disk
      reads this
    {
      Persistence.Disk(file, temp)
    }
  }

  class StateStore {
    var values: Values

    constructor ()
      ensures values == map[]
    {
      values := map[];
    }

    method Set(name: string, value: Double)
      modifies this
      ensures values == old(values)[name := value]
    {
      values := values[name := value];
    }

    method Remove(name: string) returns (existed: bool)
      modifies this
      ensures values == old(values) - {name} && existed == (name in old(values))
    {
      existed := name in values;
      values := values - {name};
    }

    // The entries in the order of their names.
    method SnapshotItems() returns (items: seq<Sample>)
      ensures items == Snapshot(values)
    {
      items := [];
      var rest := values.Keys;
      while rest != {}
        invariant rest <= values.Keys && items + Entries(values, rest) == Snapshot(values)
        decreases |rest|
      {
        LeastExists(rest);
        var name :| name in rest && IsLeast(name, rest);
        ghost var least := EntriesStep(values, rest);
        LeastIsUnique(name, least, rest);
        items := items + [Sample(name, values[name])];
        rest := rest - {name};
      }
    }

    // readFails: the file can be opened and then not be read.
    method Load(c: Codec, disk: StateFile, readFails: bool) returns (ok: bool)
      modifies this
      ensures ok <==> disk.file == None || (!readFails && ReadFlatObject(c, disk.file.value).Some?)
      ensures values == if disk.file.Some? && ok then ReadFlatObject(c, disk.file.value).value else old(values)
    {
      if disk.file.None? {
        return true;
      }
      if readFails {
        return false;
      }
      var good, loaded := ParseFlatNumberObject(c, disk.file.value);
      if !good {
        return false;
      }
      values := loaded;
      return true;
    }

    // The text save() writes.
    method SaveText(c: Codec) returns (text: string)
      ensures text == FileText(c, Snapshot(values))
    {
      hide EntryText;
      hide Escape;
      var items := SnapshotItems();
      hide FileText;
      hide Separated;
      hide Snapshot;
      text := "{";
      SeparatedEnds(c, items);
      for i := 0 to |items|
        invariant text + Separated(c, items, i) == FileText(c, items)
      {
        SeparatedStep(c, items, i);
        ghost var before, rest := text, Separated(c, items, i + 1);
        if i > 0 {
          text := text + ",";
        }
        ghost var sep := if i > 0 then "," else "";
        assert text == before + sep;
        var entry := WriteEntry(c, items[i]);
        assert before + (sep + entry + rest) == (before + sep + entry) + rest;
        text := text + entry;
      }
      text := text + "}";
    }

    method WriteEntry(c: Codec, x: Sample) returns (entry: string)
      ensures entry == EntryText(c, x)
    {
      var name := JsonEscape(x.name);
      return "\"" + name + "\":" + c.format(x.value);
    }

    method Save(c: Codec, disk: StateFile, fault: Persistence.Fault) returns (ok: bool)
      modifies disk
      ensures ok == fault.NoFault?
      ensures disk.D() == Persistence.AfterSave(FileText(c, Snapshot(values)), old(disk.D()), fault)
    {
      var text := SaveText(c);
      if fault.OpenFails? {
        return false;
      }
      disk.temp := Some("");
      if fault.WriteFails? {
        disk.temp := Some(text[..if fault.written <= |text| then fault.written else |text|]);
        return false;
      }
      disk.temp := Some(text);
      if fault.RenameFails? {
        return false;
      }
      disk.file := disk.temp;
      disk.temp := None;
      return true;
    }
  }

  // What the loop of save() still has to write after i entries.
  function Separated(c: Codec, xs: seq<Sample>, i: nat): string
    requires i <= |xs|
  {
    (if 0 < i < |xs| then "," else "") + EntriesText(c, xs[i..]) + "}"
  }

  lemma SeparatedEnds(c: Codec, xs: seq<Sample>)
    ensures "{" + Separated(c, xs, 0) == FileText(c, xs) && Separated(c, xs, |xs|) == "}"
  {
    hide EntryText;
    assert xs[0..] == xs && xs[|xs|..] == [];
    var e := EntriesText(c, xs);
    assert "{" + ("" + e + "}") == "{" + e + "}";
  }

  lemma SeparatedStep(c: Codec, xs: seq<Sample>, i: nat)
    requires i < |xs|
    ensures Separated(c, xs, i) == (if i > 0 then "," else "") + EntryText(c, xs[i]) + Separated(c, xs, i + 1)
  {
    hide EntryText;
    assert xs[i..][0] == xs[i] && xs[i..][1..] == xs[i + 1..];
  }

  // ----- an arriving message --------------------------------------------------

  datatype Config = Config(
    subscribeEnabled: bool,
    subscribeTopics: seq<string>,
    jsonTopics: seq<string>,
    stateEnabled: bool,
    webhookEnabled: bool,
    webhookTopics: seq<string>,
    qos: nat)

  // The entries a flattened message becomes.
  function Prefixed(topic: string, leaves: seq<Sample>): (r: seq<Sample>)
    ensures |r| == |leaves|
    ensures forall k :: 0 <= k < |leaves| ==> r[k] == Sample(topic + "/" + leaves[k].name, leaves[k].value)
  {
    if leaves == [] then []
    else [Sample(topic + "/" + leaves[0].name, leaves[0].value)] + Prefixed(topic, leaves[1..])
  }

  predicate ForStore(cfg: Config, topic: string) {
    cfg.subscribeEnabled && Topic.MatchesAny(topic, cfg.subscribeTopics)
  }

  // The entries a message puts into the store, or None if it is ignored.
  function Update(cfg: Config, c: Codec, topic: string, payload: string): Option<seq<Sample>> {
    if !ForStore(cfg, topic) then None
    else if topic in cfg.jsonTopics then
      match FlattenText(c, payload, "")
      case None => None
      case Some(leaves) => Some(Prefixed(topic, leaves))
    else
      match ParseDouble(c, payload)
      case None => None
      case Some(v) => Some([Sample(topic, v)])
  }

  function StoreAfter(cfg: Config, c: Codec, m: Values, topic: string, payload: string): Values {
    match Update(cfg, c, topic, payload)
    case None => m
    case Some(xs) => Overlay(m, xs)
  }

  // A publish of the service, with the store and the state file as they were then.
  datatype Sent = Sent(topic: string, payload: string, qos: nat, retain: bool, storeThen: Values, fileThen: Option<string>)

  // The side of MqttClient::publish that the handlers see: what was given to it.
  class Broker {
    var sent: seq<Sent>

    constructor ()
      ensures sent == []
    {
      sent := [];
    }

    method Publish(topic: string, payload: string, qos: nat, retain: bool, storeThen: Values, fileThen: Option<string>)
      modifies this
      ensures sent == old(sent) + [Sent(topic, payload, qos, retain, storeThen, fileThen)]
    {
      sent := sent + [Sent(topic, payload, qos, retain, storeThen, fileThen)];
    }
  }

  class Handler {
    const cfg: Config
    const codec: Codec
    const store: StateStore
    const disk: StateFile
    const webhook: HandOff.HandOffQueue

    constructor (cfg: Config, codec: Codec, store: StateStore, disk: StateFile, webhook: HandOff.HandOffQueue)
      ensures this.cfg == cfg && this.codec == codec && this.store == store && this.disk == disk && this.webhook == webhook
    {
      this.cfg, this.codec, this.store, this.disk, this.webhook := cfg, codec, store, disk, webhook;
    }

    // The handler given to MqttClient.
    method OnMessage(topic: string, payload: string, retained: bool, fault: Persistence.Fault)
      requires webhook.pending == None
      modifies store, disk, webhook
      ensures store.values == StoreAfter(cfg, codec, old(store.values), topic, payload)
      ensures disk.file ==
        if Update(cfg, codec, topic, payload).Some? && cfg.stateEnabled && fault.NoFault?
        then Some(FileText(codec, Snapshot(store.values))) else old(disk.file)
      ensures webhook.arrivals ==
        if cfg.webhookEnabled && Topic.MatchesAny(topic, cfg.webhookTopics)
        then old(webhook.arrivals) + [HandOff.Message(topic, payload, retained)] else old(webhook.arrivals)
    {
      hide FlattenText;
      hide ParseDouble;
      hide FileText;
      hide Topic.Matches;
      hide Topic.MatchesAny;
      var forStore := false;
      if cfg.subscribeEnabled {
        forStore := Topic.TopicMatchesAny(topic, cfg.subscribeTopics);
      }
      if forStore {
        if topic in cfg.jsonTopics {
          var ok, leaves := FlattenJsonObject(codec, payload);
          if ok {
            SetAll(topic, leaves);
            SaveStateFile(fault);
          }
        } else {
          var v := ParseDouble(codec, payload);
          if v.Some? {
            store.Set(topic, v.value);
            SaveStateFile(fault);
            OverlayOne(old(store.values), Sample(topic, v.value));
          }
        }
      }
      if cfg.webhookEnabled {
        var forward := Topic.TopicMatchesAny(topic, cfg.webhookTopics);
        if forward {
          webhook.Enqueue(HandOff.Message(topic, payload, retained));
        }
      }
    }

    method SetAll(topic: string, leaves: seq<Sample>)
      modifies store
      ensures store.values == Overlay(old(store.values), Prefixed(topic, leaves))
    {
      assert leaves[0..] == leaves;
      for k := 0 to |leaves|
        invariant Overlay(store.values, Prefixed(topic, leaves[k..])) == Overlay(old(store.values), Prefixed(topic, leaves))
      {
        var rest := leaves[k..];
        assert rest[1..] == leaves[k + 1..];
        assert Prefixed(topic, rest)[1..] == Prefixed(topic, rest[1..]);
        store.Set(topic + "/" + leaves[k].name, leaves[k].value);
      }
    }

    method SaveStateFile(fault: Persistence.Fault)
      modifies disk
      ensures disk.file ==
        if cfg.stateEnabled && fault.NoFault? then Some(FileText(codec, Snapshot(store.values))) else old(disk.file)
    {
      if cfg.stateEnabled {
        var ok := store.Save(codec, disk, fault);
      }
    }

    // PUT /metric: the store first, then the file, then the broker, whose answer does
    // not undo the others.
    method MetricWrite(name: string, value: Double, fault: Persistence.Fault, broker: Broker, answer: PublishPool.Outcome)
      returns (mqttPublished: bool)
      modifies store, disk, broker
      ensures store.values == old(store.values)[name := value]
      ensures disk.file ==
        if cfg.stateEnabled && fault.NoFault? then Some(FileText(codec, Snapshot(store.values))) else old(disk.file)
      ensures broker.sent == old(broker.sent) + [Sent(name, codec.format(value), cfg.qos, true, store.values, disk.file)]
      ensures mqttPublished <==> answer == PublishPool.Ok
    {
      store.Set(name, value);
      SaveStateFile(fault);
      broker.Publish(name, codec.format(value), cfg.qos, true, store.values, disk.file);
      return answer == PublishPool.Ok;
    }

    // DELETE /metric: nothing happens for a name that is not there; otherwise the
    // broker is told to forget its retained message by an empty one, last.
    method MetricDelete(name: string, fault: Persistence.Fault, broker: Broker, answer: PublishPool.Outcome)
      returns (existed: bool, mqttCleared: bool)
      modifies store, disk, broker
      ensures existed <==> name in old(store.values)
      ensures store.values == old(store.values) - {name}
      ensures disk.file ==
        if existed && cfg.stateEnabled && fault.NoFault? then Some(FileText(codec, Snapshot(store.values))) else old(disk.file)
      ensures broker.sent ==
        if existed then old(broker.sent) + [Sent(name, "", cfg.qos, true, store.values, disk.file)] else old(broker.sent)
      ensures mqttCleared <==> existed && answer == PublishPool.Ok
    {
      existed := store.Remove(name);
      if !existed {
        return false, false;
      }
      SaveStateFile(fault);
      broker.Publish(name, "", cfg.qos, true, store.values, disk.file);
      return true, answer == PublishPool.Ok;
    }
  }

  // A message changes the store only if the subscription is on and one of its filters
  // matches; on a topic that is no JSON topic it is stored exactly if it is a number.
  lemma OnlySubscribedTopics(cfg: Config, c: Codec, m: Values, topic: string, payload: string)
    ensures
      var subscribed := cfg.subscribeEnabled && exists k :: 0 <= k < |cfg.subscribeTopics| && Topic.Matches(topic, cfg.subscribeTopics[k]);
      && (!subscribed ==> StoreAfter(cfg, c, m, topic, payload) == m)
      && (subscribed && topic !in cfg.jsonTopics ==>
            StoreAfter(cfg, c, m, topic, payload) ==
            if ParseDouble(c, payload).Some? then m[topic := ParseDouble(c, payload).value] else m)
  {
    hide ParseDouble;
    hide FlattenText;
    hide Topic.Matches;
    if ParseDouble(c, payload).Some? {
      OverlayOne(m, Sample(topic, ParseDouble(c, payload).value));
    }
    hide Overlay;
  }

  lemma OverlayOne(m: Values, x: Sample)
    ensures Overlay(m, [x]) == m[x.name := x.value]
  {
    assert [x][1..] == [];
  }

  // ----- messages on a JSON topic ---------------------------------------------

  // What the store holds for a name after the entries were put in: the last one of
  // that name, or what was there before.
  function LastOf(xs: seq<Sample>, name: string, before: Option<Double>): Option<Double> {
    if xs == [] then before
    else LastOf(xs[1..], name, if xs[0].name == name then Some(xs[0].value) else before)
  }

  function Lookup(m: Values, name: string): Option<Double> {
    if name in m then Some(m[name]) else None
  }

  lemma {:induction false} OverlayLooksUpLast(m: Values, xs: seq<Sample>, name: string)
    ensures Lookup(Overlay(m, xs), name) == LastOf(xs, name, Lookup(m, name))
    decreases |xs|
  {
    if xs != [] {
      OverlayLooksUpLast(m[xs[0].name := xs[0].value], xs[1..], name);
    }
  }

  // A message on a JSON topic is all or nothing.  For a well-formed object, with any
  // white space and anything behind it: if some scalar outside arrays cannot be read,
  // at any depth, the store stays as it was; otherwise it takes every leaf of the
  // tree under topic/leaf, a later leaf of the same name replacing an earlier one.
  lemma JsonTopicAllOrNothing(cfg: Config, c: Codec, m: Values, topic: string, payload: string, v: Json, ws: string,
                              name: string)
    requires ForStore(cfg, topic) && topic in cfg.jsonTopics
    requires v.Obj? && WellFormed(v) && AllSpace(ws) && At(payload, 0, ws + Print(v))
    ensures !NumbersReadable(c, v.members) ==> StoreAfter(cfg, c, m, topic, payload) == m
    ensures NumbersReadable(c, v.members) ==>
      Lookup(StoreAfter(cfg, c, m, topic, payload), name) ==
      LastOf(Prefixed(topic, JsonPaths.LeavesOf(c, v.members)), name, Lookup(m, name))
  {
    JsonPaths.FlattenGivesLeaves(c, v, payload, ws);
    hide *;
    UpdateOnJsonTopic(cfg, c, m, topic, payload);
    if NumbersReadable(c, v.members) {
      OverlayLooksUpLast(m, Prefixed(topic, JsonPaths.LeavesOf(c, v.members)), name);
    }
  }

  lemma UpdateOnJsonTopic(cfg: Config, c: Codec, m: Values, topic: string, payload: string)
    requires ForStore(cfg, topic) && topic in cfg.jsonTopics
    ensures FlattenText(c, payload, "").None? ==> StoreAfter(cfg, c, m, topic, payload) == m
    ensures FlattenText(c, payload, "").Some? ==>
      StoreAfter(cfg, c, m, topic, payload) == Overlay(m, Prefixed(topic, FlattenText(c, payload, "").value))
  {
    hide FlattenText;
    hide Overlay;
  }
}
