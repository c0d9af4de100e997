/** Prometheus names for the store's entries and the collisions among them:
    src/metrics.cpp:54-92. */
module MetricNames {
  import opened Text
  import opened Numbers
  import opened Store

  predicate NameChar(c: char) {
    'a' <= c <= 'z' || 'A' <= c <= 'Z' || IsDigit(c) || c == '_'
  }

  function Sanitize(raw: string): (r: string)
    ensures |r| == |raw|
    ensures forall k :: 0 <= k < |raw| ==> r[k] == if NameChar(raw[k]) then raw[k] else '_'
  {
    if raw == "" then "" else [if NameChar(raw[0]) then raw[0] else '_'] + Sanitize(raw[1..])
  }

  predicate StartsWithDigit(s: string) {
    s != "" && IsDigit(s[0])
  }

  // A name must not start with a digit.
  function Guarded(body: string): string {
    if StartsWithDigit(body) then "_" + body else body
  }

  function Normalized(prefix: string, topic: string, topicPrefix: string): string {
    prefix + Guarded(Sanitize(topicPrefix + topic))
  }

  method NormalizeMetricName(prefix: string, topic: string, topicPrefix: string) returns (name: string)
    ensures name == Normalized(prefix, topic, topicPrefix)
  {
    hide Sanitize;
    var raw := topicPrefix + topic;
    var body := "";
    for k := 0 to |raw|
      invariant body == Sanitize(raw)[..k]
    {
      body := body + [if NameChar(raw[k]) then raw[k] else '_'];
    }
    assert body == Sanitize(raw);
    if body != "" && '0' <= body[0] <= '9' {
      body := "_" + body;
    }
    return prefix + body;
  }

  // Letters, digits and the underscore.
  predicate Allowed(c: char) {
    var n := c as int;
    48 <= n <= 57 || 65 <= n <= 90 || n == 95 || 97 <= n <= 122
  }

  // Behind the prefix stand only characters that a Prometheus name may hold, the first
  // of them no digit; a text that is such a name already is kept.
  lemma NameIsValid(prefix: string, topic: string, topicPrefix: string)
    ensures
      var name, raw := Normalized(prefix, topic, topicPrefix), topicPrefix + topic;
      && prefix <= name
      && (forall k :: |prefix| <= k < |name| ==> Allowed(name[k]))
      && (|name| > |prefix| ==> !(48 <= name[|prefix|] as int <= 57))
      && (raw != "" ==> |name| > |prefix|)
      && ((forall k :: 0 <= k < |raw| ==> Allowed(raw[k])) && (raw != "" ==> !(48 <= raw[0] as int <= 57)) ==> name == prefix + raw)
  {
    var raw := topicPrefix + topic;
    var body := Sanitize(raw);
    hide Sanitize;
    assert forall c :: NameChar(c) <==> Allowed(c);
    if forall k :: 0 <= k < |raw| ==> Allowed(raw[k]) {
      assert body == raw;
    }
  }

  // Two topics get the same name exactly when their sanitized texts are equal, or one
  // is an underscore in front of the other and the other starts with a digit.
  lemma CollideIff(prefix: string, topicPrefix: string, a: string, b: string)
    ensures
      var x, y := Sanitize(topicPrefix + a), Sanitize(topicPrefix + b);
      Normalized(prefix, a, topicPrefix) == Normalized(prefix, b, topicPrefix) <==>
      x == y || (StartsWithDigit(y) && x == "_" + y) || (StartsWithDigit(x) && y == "_" + x)
  {
    var x, y := Sanitize(topicPrefix + a), Sanitize(topicPrefix + b);
    hide Sanitize;
    var g, h := Guarded(x), Guarded(y);
    assert (prefix + g)[|prefix|..] == g && (prefix + h)[|prefix|..] == h;
    assert ("_" + x)[1..] == x && ("_" + y)[1..] == y;
  }

  // ----- a whole snapshot -----------------------------------------------------

  // No earlier entry has claimed the name of entry i.
  predicate ClaimsName(prefix: string, topicPrefix: string, items: seq<Sample>, i: nat)
    requires i < |items|
  {
    forall j :: 0 <= j < i ==>
      Normalized(prefix, items[j].name, topicPrefix) != Normalized(prefix, items[i].name, topicPrefix)
  }

  // The metrics and the collisions after n entries.
  function Metrics(prefix: string, topicPrefix: string, items: seq<Sample>, n: nat): seq<Sample>
    requires n <= |items|
  {
    if n == 0 then [] else
    Metrics(prefix, topicPrefix, items, n - 1) +
    if ClaimsName(prefix, topicPrefix, items, n - 1)
    then [Sample(Normalized(prefix, items[n - 1].name, topicPrefix), items[n - 1].value)] else []
  }

  function Collisions(prefix: string, topicPrefix: string, items: seq<Sample>, n: nat): seq<string>
    requires n <= |items|
  {
    if n == 0 then [] else
    Collisions(prefix, topicPrefix, items, n - 1) +
    if ClaimsName(prefix, topicPrefix, items, n - 1) then [] else [items[n - 1].name]
  }

  method NormalizeAll(prefix: string, items: seq<Sample>, topicPrefix: string)
    returns (metrics: seq<Sample>, collisions: seq<string>)
    ensures metrics == Metrics(prefix, topicPrefix, items, |items|)
    ensures collisions == Collisions(prefix, topicPrefix, items, |items|)
  {
    hide Normalized;
    metrics, collisions := [], [];
    var claimed: map<string, string> := map[];
    for n := 0 to |items|
      invariant metrics == Metrics(prefix, topicPrefix, items, n)
      invariant collisions == Collisions(prefix, topicPrefix, items, n)
      invariant forall j :: 0 <= j < n ==> Normalized(prefix, items[j].name, topicPrefix) in claimed
      invariant forall k :: k in claimed ==> exists j :: 0 <= j < n && Normalized(prefix, items[j].name, topicPrefix) == k
    {
      var promName := NormalizeMetricName(prefix, items[n].name, topicPrefix);
      if promName in claimed {
        collisions := collisions + [items[n].name];
        continue;
      }
      claimed := claimed[promName := items[n].name];
      metrics := metrics + [Sample(promName, items[n].value)];
    }
  }

  // Entry i made the metric x, as the first of its name.
  predicate IsMetricOf(prefix: string, topicPrefix: string, items: seq<Sample>, i: nat, x: Sample)
    requires i < |items|
  {
    ClaimsName(prefix, topicPrefix, items, i) && x == Sample(Normalized(prefix, items[i].name, topicPrefix), items[i].value)
  }

  lemma MetricsStep(prefix: string, topicPrefix: string, items: seq<Sample>, n: nat)
    requires 0 < n <= |items|
    ensures
      var ms, before := Metrics(prefix, topicPrefix, items, n), Metrics(prefix, topicPrefix, items, n - 1);
      var cs, beforeCs := Collisions(prefix, topicPrefix, items, n), Collisions(prefix, topicPrefix, items, n - 1);
      if ClaimsName(prefix, topicPrefix, items, n - 1)
      then cs == beforeCs && ms == before + [Sample(Normalized(prefix, items[n - 1].name, topicPrefix), items[n - 1].value)]
      else ms == before && cs == beforeCs + [items[n - 1].name]
  {
    hide ClaimsName;
    hide Normalized;
  }

  lemma {:induction false} MetricsCount(prefix: string, topicPrefix: string, items: seq<Sample>, n: nat)
    requires n <= |items|
    ensures |Metrics(prefix, topicPrefix, items, n)| + |Collisions(prefix, topicPrefix, items, n)| == n
  {
    hide ClaimsName;
    hide Normalized;
    if n > 0 {
      MetricsCount(prefix, topicPrefix, items, n - 1);
      MetricsStep(prefix, topicPrefix, items, n);
    }
  }

  predicate FromItems(prefix: string, topicPrefix: string, items: seq<Sample>, n: nat, x: Sample)
    requires n <= |items|
  {
    exists i :: 0 <= i < n && IsMetricOf(prefix, topicPrefix, items, i, x)
  }

  lemma {:induction false} MetricsAreEntries(prefix: string, topicPrefix: string, items: seq<Sample>, n: nat)
    requires n <= |items|
    ensures forall x :: x in Metrics(prefix, topicPrefix, items, n) ==> FromItems(prefix, topicPrefix, items, n, x)
  {
    hide Normalized;
    hide ClaimsName;
    if n > 0 {
      MetricsAreEntries(prefix, topicPrefix, items, n - 1);
      forall x | x in Metrics(prefix, topicPrefix, items, n) ensures FromItems(prefix, topicPrefix, items, n, x) {
        if x in Metrics(prefix, topicPrefix, items, n - 1) {
          assert FromItems(prefix, topicPrefix, items, n - 1, x);
        } else {
          assert IsMetricOf(prefix, topicPrefix, items, n - 1, x);
        }
      }
    }
  }

  lemma {:induction false} NamesAreDistinct(prefix: string, topicPrefix: string, items: seq<Sample>, n: nat)
    requires n <= |items|
    ensures
      var ms := Metrics(prefix, topicPrefix, items, n);
      forall j, k :: 0 <= j < k < |ms| ==> ms[j].name != ms[k].name
  {
    hide Normalized;
    hide Metrics;
    if n == 0 {
      assert |Metrics(prefix, topicPrefix, items, n)| == 0 by { MetricsCount(prefix, topicPrefix, items, 0); }
    } else {
      NamesAreDistinct(prefix, topicPrefix, items, n - 1);
      MetricsAreEntries(prefix, topicPrefix, items, n - 1);
      MetricsStep(prefix, topicPrefix, items, n);
      var before := Metrics(prefix, topicPrefix, items, n - 1);
      if ClaimsName(prefix, topicPrefix, items, n - 1) {
        forall j | 0 <= j < |before| ensures before[j].name != Normalized(prefix, items[n - 1].name, topicPrefix) {
          assert before[j] in before;
          assert FromItems(prefix, topicPrefix, items, n - 1, before[j]);
          var i :| 0 <= i < n - 1 && IsMetricOf(prefix, topicPrefix, items, i, before[j]);
        }
      }
    }
  }

  predicate HasName(ms: seq<Sample>, name: string) {
    exists k :: 0 <= k < |ms| && ms[k].name == name
  }

  lemma {:induction false} EveryNameIsThere(prefix: string, topicPrefix: string, items: seq<Sample>, n: nat, i: nat)
    requires i < n <= |items|
    ensures HasName(Metrics(prefix, topicPrefix, items, n), Normalized(prefix, items[i].name, topicPrefix))
    decreases n
  {
    hide Normalized;
    var before, ms := Metrics(prefix, topicPrefix, items, n - 1), Metrics(prefix, topicPrefix, items, n);
    var name := Normalized(prefix, items[i].name, topicPrefix);
    if i == n - 1 && ClaimsName(prefix, topicPrefix, items, i) {
      assert ms[|before|].name == name;
    } else {
      var j := i;
      if i == n - 1 {
        j :| 0 <= j < i && Normalized(prefix, items[j].name, topicPrefix) == name;
      }
      EveryNameIsThere(prefix, topicPrefix, items, n - 1, j);
      var k :| 0 <= k < |before| && before[k].name == name;
      assert ms[k] == before[k];
    }
  }

  lemma FirstIsLeast(prefix: string, topicPrefix: string, m: Values, items: seq<Sample>, i: nat, x: Sample)
    requires Sorted(items) && forall y :: y in items <==> y.name in m && y.value == m[y.name]
    requires i < |items| && IsMetricOf(prefix, topicPrefix, items, i, x)
    ensures items[i].name in m && IsLeastMetric(prefix, topicPrefix, m, items[i].name, x)
  {
    hide Normalized;
    hide LexLe;
    var t := items[i].name;
    assert items[i] in items;
    forall u | u in m && Normalized(prefix, u, topicPrefix) == x.name ensures LexLe(t, u) {
      assert Sample(u, m[u]) in items;
      var j :| 0 <= j < |items| && items[j] == Sample(u, m[u]);
      if i == j {
        LexTotal(t, u);
      }
    }
  }

  // For the sorted snapshot the renderer uses: the names are pairwise distinct, every
  // topic's name is among them, every metric is that of the least topic of its name,
  // and metrics and collisions together are as many as the entries.
  lemma SnapshotMetrics(prefix: string, topicPrefix: string, m: Values)
    ensures
      var items := Snapshot(m);
      var ms := Metrics(prefix, topicPrefix, items, |items|);
      && |ms| + |Collisions(prefix, topicPrefix, items, |items|)| == |m|
      && (forall j, k :: 0 <= j < k < |ms| ==> ms[j].name != ms[k].name)
      && (forall t :: t in m ==> HasName(ms, Normalized(prefix, t, topicPrefix)))
      && (forall x :: x in ms ==> exists t :: t in m && IsLeastMetric(prefix, topicPrefix, m, t, x))
  {
    hide Normalized;
    hide HasName;
    hide IsLeastMetric;
    hide IsMetricOf;
    hide Metrics;
    hide Collisions;
    hide LexLe;
    var items := Snapshot(m);
    var ms := Metrics(prefix, topicPrefix, items, |items|);
    EntriesAreSorted(m, m.Keys);
    EntriesCount(m, m.Keys);
    MetricsCount(prefix, topicPrefix, items, |items|);
    NamesAreDistinct(prefix, topicPrefix, items, |items|);
    MetricsAreEntries(prefix, topicPrefix, items, |items|);
    hide Entries;
    hide Sorted;
    forall t | t in m ensures HasName(ms, Normalized(prefix, t, topicPrefix)) {
      assert Sample(t, m[t]) in items;
      var i :| 0 <= i < |items| && items[i] == Sample(t, m[t]);
      EveryNameIsThere(prefix, topicPrefix, items, |items|, i);
    }
    forall x | x in ms ensures exists t :: t in m && IsLeastMetric(prefix, topicPrefix, m, t, x) {
      assert FromItems(prefix, topicPrefix, items, |items|, x);
      var i :| 0 <= i < |items| && IsMetricOf(prefix, topicPrefix, items, i, x);
      FirstIsLeast(prefix, topicPrefix, m, items, i, x);
    }
  }

  // x is the metric of t, the least of the topics that share its name.
  predicate IsLeastMetric(prefix: string, topicPrefix: string, m: Values, t: string, x: Sample)
    requires t in m
  {
    && x == Sample(Normalized(prefix, t, topicPrefix), m[t])
    && forall u :: u in m && Normalized(prefix, u, topicPrefix) == x.name ==> LexLe(t, u)
  }
}
