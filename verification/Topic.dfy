/** MQTT topic filters: src/mqtt_topic.cpp, against sections 4.7.1.2, 4.7.1.3 and
    4.7.2 of MQTT 3.1.1. */
module Topic {
  import opened Text

  // ----- levels ---------------------------------------------------------------

  predicate IsLevel(s: string) {
    forall k :: 0 <= k < |s| ==> s[k] != '/'
  }

  predicate AllLevels(ls: seq<string>) {
    forall k :: 0 <= k < |ls| ==> IsLevel(ls[k])
  }

  function SplitFrom(s: string, start: nat): (r: seq<string>)
    requires start <= |s|
    ensures r != [] && AllLevels(r)
    decreases |s| - start
  {
    match Find(s, "/", start)
    case None =>
      NoSlashLeft(s, start);
      [s[start..]]
    case Some(p) =>
      NoSlash(s, start, p);
      [s[start..p]] + SplitFrom(s, p + 1)
  }

  lemma NoSlashLeft(s: string, i: nat)
    requires i <= |s| && forall k: nat :: i <= k ==> !At(s, k, "/")
    ensures IsLevel(s[i..])
  {
    NoSlash(s, i, |s|);
    assert s[i..|s|] == s[i..];
  }

  lemma NoSlash(s: string, i: nat, j: nat)
    requires i <= j <= |s| && forall k: nat :: i <= k < j ==> !At(s, k, "/")
    ensures IsLevel(s[i..j])
  {
    forall k | 0 <= k < j - i ensures s[i..j][k] != '/' {
      assert !At(s, i + k, "/");
      assert s[i + k..i + k + 1] == [s[i + k]];
    }
  }

  function Split(s: string): (r: seq<string>)
    ensures r != [] && AllLevels(r)
  {
    SplitFrom(s, 0)
  }

  function Join(ls: seq<string>): string {
    if ls == [] then "" else if |ls| == 1 then ls[0] else ls[0] + "/" + Join(ls[1..])
  }

  method SplitLevels(s: string) returns (levels: seq<string>)
    ensures levels == Split(s)
  {
    hide Find;
    hide AllLevels;
    levels := [];
    var start: nat := 0;
    while true
      invariant start <= |s| && levels + SplitFrom(s, start) == Split(s)
      decreases |s| - start
    {
      var slash := Find(s, "/", start);
      if slash.None? {
        levels := levels + [s[start..]];
        break;
      }
      var level := s[start..slash.value];
      assert levels + ([level] + SplitFrom(s, slash.value + 1)) == (levels + [level]) + SplitFrom(s, slash.value + 1);
      levels := levels + [level];
      start := slash.value + 1;
    }
  }

  // Joining the levels of a text gives the text back.
  lemma {:induction false} JoinSplitFrom(s: string, start: nat)
    requires start <= |s|
    ensures Join(SplitFrom(s, start)) == s[start..]
    decreases |s| - start
  {
    var p := Find(s, "/", start);
    if p.Some? {
      JoinSplitFrom(s, p.value + 1);
      var ls := SplitFrom(s, start);
      assert ls[1..] == SplitFrom(s, p.value + 1);
      assert s[p.value..p.value + 1] == "/";
      assert s[start..] == s[start..p.value] + s[p.value..p.value + 1] + s[p.value + 1..];
    }
  }

  lemma JoinSplit(s: string)
    ensures Join(Split(s)) == s
  {
    JoinSplitFrom(s, 0);
  }

  // Splitting joined levels gives the levels back, empty ones included.
  lemma {:induction false} SplitFromJoin(s: string, start: nat, ls: seq<string>)
    requires start <= |s| && ls != [] && AllLevels(ls) && s[start..] == Join(ls)
    ensures SplitFrom(s, start) == ls
    decreases |ls|
  {
    hide *;
    LevelHasNoSlash(ls);
    JoinStep(ls);
    var rest := ls[1..];
    if |ls| == 1 {
      FindNowhere(s, start, '/');
      SplitFromLast(s, start);
      assert ls == [ls[0]];
    } else {
      FindAfter(s, start, ls[0], '/', Join(rest));
      SplitFromJoin(s, start + |ls[0]| + 1, rest);
      SplitFromFirst(s, start, start + |ls[0]|);
      assert ls == [ls[0]] + rest;
    }
  }

  lemma LevelHasNoSlash(ls: seq<string>)
    requires ls != [] && AllLevels(ls)
    ensures '/' !in ls[0] && AllLevels(ls[1..])
  {
    assert IsLevel(ls[0]);
  }

  lemma JoinStep(ls: seq<string>)
    requires ls != []
    ensures Join(ls) == if |ls| == 1 then ls[0] else ls[0] + ['/'] + Join(ls[1..])
  {
    assert "/" == ['/'];
  }

  lemma SplitFromLast(s: string, start: nat)
    requires start <= |s| && Find(s, ['/'], start) == None
    ensures SplitFrom(s, start) == [s[start..]]
  {
    hide Find;
    assert "/" == ['/'];
  }

  lemma SplitFromFirst(s: string, start: nat, p: nat)
    requires start <= p < |s| && Find(s, ['/'], start) == Some(p)
    ensures SplitFrom(s, start) == [s[start..p]] + SplitFrom(s, p + 1)
  {
    hide Find;
    assert "/" == ['/'];
  }

  lemma SplitJoin(ls: seq<string>)
    requires ls != [] && AllLevels(ls)
    ensures Split(Join(ls)) == ls
  {
    assert Join(ls)[0..] == Join(ls);
    SplitFromJoin(Join(ls), 0, ls);
  }

  // ----- matching -------------------------------------------------------------

  function LevelsMatch(topic: seq<string>, filter: seq<string>): bool {
    if filter == [] then topic == []
    else if filter[0] == "#" then |filter| == 1
    else if topic == [] then false
    else if filter[0] != "+" && filter[0] != topic[0] then false
    else LevelsMatch(topic[1..], filter[1..])
  }

  predicate FirstIsWildcard(filter: string) {
    Split(filter)[0] == "+" || Split(filter)[0] == "#"
  }

  method TopicMatchesFilter(topic: string, filter: string) returns (r: bool)
    ensures r <==> Matches(topic, filter)
  {
    if filter == "" || topic == "" {
      return false;
    }
    var topicLevels := SplitLevels(topic);
    var filterLevels := SplitLevels(filter);
    FirstCharacter(topic);
    if topicLevels[0] != "" && topicLevels[0][0] == '$' && (filterLevels[0] == "+" || filterLevels[0] == "#") {
      return false;
    }
    var ti, fi := 0, 0;
    assert topicLevels[0..] == topicLevels && filterLevels[0..] == filterLevels;
    while fi < |filterLevels|
      invariant 0 <= ti <= |topicLevels| && 0 <= fi <= |filterLevels|
      invariant LevelsMatch(topicLevels[ti..], filterLevels[fi..]) == LevelsMatch(topicLevels, filterLevels)
    {
      var flevel := filterLevels[fi];
      if flevel == "#" {
        return fi == |filterLevels| - 1;
      }
      if ti >= |topicLevels| {
        return false;
      }
      if flevel != "+" && flevel != topicLevels[ti] {
        return false;
      }
      assert topicLevels[ti..][1..] == topicLevels[ti + 1..] && filterLevels[fi..][1..] == filterLevels[fi + 1..];
      ti := ti + 1;
      fi := fi + 1;
    }
    return ti == |topicLevels|;
  }

  // The first level starts with the first character of a topic that has one there.
  lemma FirstCharacter(topic: string)
    requires topic != ""
    ensures (Split(topic)[0] != "" && Split(topic)[0][0] == '$') <==> topic[0] == '$'
  {
    JoinSplit(topic);
    assert topic[0] == '$' ==> !At(topic, 0, "/") by {
      assert topic[0..1] == [topic[0]];
    }
  }

  predicate Matches(topic: string, filter: string) {
    topic != "" && filter != "" && !(topic[0] == '$' && FirstIsWildcard(filter)) &&
    LevelsMatch(Split(topic), Split(filter))
  }

  method TopicMatchesAny(topic: string, filters: seq<string>) returns (r: bool)
    ensures r <==> MatchesAny(topic, filters)
  {
    for k := 0 to |filters|
      invariant forall j :: 0 <= j < k ==> !Matches(topic, filters[j])
    {
      var m := TopicMatchesFilter(topic, filters[k]);
      if m {
        return true;
      }
    }
    return false;
  }

  predicate MatchesAny(topic: string, filters: seq<string>) {
    exists k :: 0 <= k < |filters| && Matches(topic, filters[k])
  }

  // ----- what a filter stands for ---------------------------------------------

  // The levels one filter level can stand for: "+" for any one level, a final "#"
  // for any list of levels, also none, and other text for itself.
  predicate StandsFor(f: string, last: bool, sub: seq<string>) {
    AllLevels(sub) && if f == "#" then last else if f == "+" then |sub| == 1 else sub == [f]
  }

  predicate Substitution(filter: seq<string>, subs: seq<seq<string>>) {
    |subs| == |filter| && forall k :: 0 <= k < |filter| ==> StandsFor(filter[k], k == |filter| - 1, subs[k])
  }

  function Concat(subs: seq<seq<string>>): seq<string> {
    if subs == [] then [] else subs[0] + Concat(subs[1..])
  }

  lemma {:induction false} MatchHasSubstitution(topic: seq<string>, filter: seq<string>) returns (subs: seq<seq<string>>)
    requires AllLevels(topic) && LevelsMatch(topic, filter)
    ensures Substitution(filter, subs) && Concat(subs) == topic
    decreases |filter|
  {
    if filter == [] {
      subs := [];
    } else if filter[0] == "#" {
      subs := [topic];
      assert subs[1..] == [] && topic + [] == topic;
    } else {
      var rest := MatchHasSubstitution(topic[1..], filter[1..]);
      subs := [[topic[0]]] + rest;
      assert subs[1..] == rest && topic == [topic[0]] + topic[1..];
      forall k | 0 <= k < |filter| ensures StandsFor(filter[k], k == |filter| - 1, subs[k]) {
        if k > 0 {
          assert filter[k] == filter[1..][k - 1] && subs[k] == rest[k - 1];
        } else {
          assert IsLevel(topic[0]) && AllLevels([topic[0]]);
        }
      }
    }
  }

  lemma {:induction false} SubstitutionMatches(topic: seq<string>, filter: seq<string>, subs: seq<seq<string>>)
    requires Substitution(filter, subs) && Concat(subs) == topic
    ensures AllLevels(topic) && LevelsMatch(topic, filter)
    decreases |filter|
  {
    if filter != [] {
      assert StandsFor(filter[0], |filter| == 1, subs[0]);
      if filter[0] == "#" {
        assert subs[1..] == [] && topic == subs[0] + [];
      } else {
        assert |subs[0]| == 1;
        assert topic[1..] == Concat(subs[1..]) && topic[0] == subs[0][0];
        forall k | 0 <= k < |filter| - 1
          ensures StandsFor(filter[1..][k], k == |filter| - 2, subs[1..][k])
        {
          assert StandsFor(filter[k + 1], k + 1 == |filter| - 1, subs[k + 1]);
        }
        SubstitutionMatches(topic[1..], filter[1..], subs[1..]);
        assert IsLevel(subs[0][0]);
        assert topic == [topic[0]] + topic[1..];
      }
    }
  }

  // The filter starts with a wildcard level (section 4.7.2 of MQTT 3.1.1).
  predicate WildcardInFront(filter: string) {
    filter != "" && (filter[0] == '+' || filter[0] == '#') && (|filter| == 1 || filter[1] == '/')
  }

  lemma FirstIsWildcardIs(filter: string)
    ensures FirstIsWildcard(filter) <==> WildcardInFront(filter)
  {
    JoinSplit(filter);
    var ls := Split(filter);
    hide Split;
    assert IsLevel(ls[0]);
    JoinStep(ls);
    hide Join;
  }

  // The two-index loop accepts exactly the topics that a substitution of the
  // filter's wildcards spells out, except that a leading wildcard does not stand for
  // a level starting with '$'.
  lemma MatchesIsSubstitution(topic: string, filter: string)
    ensures Matches(topic, filter) <==>
      topic != "" && filter != "" && !(topic[0] == '$' && WildcardInFront(filter)) &&
      exists subs :: Substitution(Split(filter), subs) && Join(Concat(subs)) == topic
  {
    FirstIsWildcardIs(filter);
    hide Split;
    hide Join;
    hide FirstIsWildcard;
    hide WildcardInFront;
    JoinSplit(topic);
    if topic != "" && LevelsMatch(Split(topic), Split(filter)) {
      var subs := MatchHasSubstitution(Split(topic), Split(filter));
    }
    if topic != "" {
      forall subs | Substitution(Split(filter), subs) && Join(Concat(subs)) == topic
        ensures LevelsMatch(Split(topic), Split(filter))
      {
        SubstitutionMatches(Concat(subs), Split(filter), subs);
        JoinNothing();
        SplitJoin(Concat(subs));
      }
    }
  }

  lemma JoinNothing()
    ensures Join([]) == ""
  {
  }
}
