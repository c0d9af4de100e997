/** flatten_json_object, extract_json_number_field and parse_flat_number_object
    (src/json_util.cpp:275-376), and their agreement with the tree they were printed
    from. */
module JsonFlatten {
  import opened Text
  import opened Numbers
  import opened JsonScan
  import opened JsonTree


  function Join(prefix: string, key: string): string {
    if prefix == "" then key else prefix + "_" + key
  }

  // ----- on text --------------------------------------------------------------

  function FlattenText(c: Codec, text: string, prefix: string): Option<seq<Sample>>
    decreases |text|, 2, 0
  {
    match Tokens(text)
    case None => None
    case Some(ps) =>
      TokensAreShorter(text);
      FlattenPairs(c, ps, prefix, |text|)
  }

  function FlattenPairs(c: Codec, ps: seq<Pair>, prefix: string, bound: nat): Option<seq<Sample>>
    requires forall k :: 0 <= k < |ps| ==> 0 < |ps[k].raw| < bound
    decreases bound, 1, |ps|
  {
    if ps == [] then Some([]) else
    Concat(FlattenPair(c, ps[0], prefix, bound), FlattenPairs(c, ps[1..], prefix, bound))
  }

  function FlattenPair(c: Codec, p: Pair, prefix: string, bound: nat): Option<seq<Sample>>
    requires 0 < |p.raw| < bound
    decreases bound, 0, 0
  {
    var name := Join(prefix, p.key);
    if p.raw[0] == '{' then FlattenText(c, p.raw, name)
    else if p.raw[0] == '[' || p.raw[0] == '\"' then Some([])
    else ScalarLeaf(c, p.raw, name)
  }

  function ScalarLeaf(c: Codec, t: string, name: string): Option<seq<Sample>> {
    if t == "true" then Some([Sample(name, ONE)])
    else if t == "false" then Some([Sample(name, ZERO)])
    else if t == "null" then Some([])
    else
      match ParseDouble(c, t)
      case Some(v) => Some([Sample(name, v)])
      case None => None
  }

  function Concat(a: Option<seq<Sample>>, b: Option<seq<Sample>>): Option<seq<Sample>> {
    if a.Some? && b.Some? then Some(a.value + b.value) else None
  }

  // The recursion of the source, appending to the caller's list; on failure the list
  // is discarded by the caller.
  method FlattenInto(c: Codec, text: string, prefix: string, before: seq<Sample>) returns (ok: bool, out: seq<Sample>)
    ensures ok <==> FlattenText(c, text, prefix).Some?
    ensures ok ==> out == before + FlattenText(c, text, prefix).value
    decreases |text|
  {
    hide Tokens;
    out := before;
    var good, pairs := TokenizeFlatObject(text);
    if !good {
      return false, out;
    }
    TokensAreShorter(text);
    ghost var whole := FlattenPairs(c, pairs, prefix, |text|);
    assert pairs[0..] == pairs;
    for k := 0 to |pairs|
      invariant Concat(Some(out), FlattenPairs(c, pairs[k..], prefix, |text|)) == Concat(Some(before), whole)
    {
      var p := pairs[k];
      assert pairs[k..][0] == p && pairs[k..][1..] == pairs[k + 1..];
      ghost var here := FlattenPair(c, p, prefix, |text|);
      ConcatAssociates(Some(out), here, FlattenPairs(c, pairs[k + 1..], prefix, |text|));
      var name := if prefix == "" then p.key else prefix + "_" + p.key;
      if p.raw[0] == '{' {
        good, out := FlattenInto(c, p.raw, name, out);
        if !good {
          return false, out;
        }
      } else if p.raw[0] == '[' || p.raw[0] == '\"' {
      } else if p.raw == "true" {
        out := out + [Sample(name, ONE)];
      } else if p.raw == "false" {
        out := out + [Sample(name, ZERO)];
      } else if p.raw == "null" {
      } else {
        var v := ParseDouble(c, p.raw);
        if v.None? {
          return false, out;
        }
        out := out + [Sample(name, v.value)];
      }
    }
    return true, out;
  }

  lemma ConcatAssociates(x: Option<seq<Sample>>, y: Option<seq<Sample>>, z: Option<seq<Sample>>)
    ensures Concat(x, Concat(y, z)) == Concat(Concat(x, y), z)
    ensures x.Some? ==> Concat(x, Some([])) == x
  {
    if x.Some? && y.Some? && z.Some? {
      assert x.value + (y.value + z.value) == (x.value + y.value) + z.value;
    }
    if x.Some? {
      assert x.value + [] == x.value;
    }
  }

  method FlattenJsonObject(c: Codec, text: string) returns (ok: bool, out: seq<Sample>)
    ensures ok <==> FlattenText(c, text, "").Some?
    ensures ok ==> out == FlattenText(c, text, "").value
  {
    ok, out := FlattenInto(c, text, "", []);
    if ok {
      assert [] + FlattenText(c, text, "").value == FlattenText(c, text, "").value;
    }
  }

  // ----- on trees -------------------------------------------------------------

  // The leaves of an object, defined on its tree: numbers and booleans kept in
  // order under their joined key, nested objects descended into, strings, nulls and
  // arrays dropped.
  function TreeLeaves(c: Codec, ms: Members, prefix: string): Option<seq<Sample>> {
    match ms
    case NoMember => Some([])
    case Member(_, k, _, _, v, _, rest) =>
      Concat(ValueLeaves(c, v, Join(prefix, Unescape(k))), TreeLeaves(c, rest, prefix))
  }

  function ValueLeaves(c: Codec, v: Json, name: string): Option<seq<Sample>> {
    match v
    case Str(_) => Some([])
    case Arr(_, _) => Some([])
    case Scalar(t) => ScalarLeaf(c, t, name)
    case Obj(_, ms) => TreeLeaves(c, ms, name)
  }

  // Every scalar that is not inside an array is a literal or a number.
  predicate NumbersReadable(c: Codec, ms: Members) {
    match ms
    case NoMember => true
    case Member(_, _, _, _, v, _, rest) =>
      (match v
       case Scalar(t) => t == "true" || t == "false" || t == "null" || ParseDouble(c, t).Some?
       case Obj(_, inner) => NumbersReadable(c, inner)
       case _ => true) && NumbersReadable(c, rest)
  }

  // Flattening the text of an object gives what flattening its tree gives, including
  // whether it fails: for every tree, all white space around and inside it, and any
  // text behind it.
  lemma {:induction false} FlattenTextIsTree(c: Codec, v: Json, s: string, ws: string, prefix: string)
    requires v.Obj? && WellFormed(v) && AllSpace(ws) && At(s, 0, ws + Print(v))
    ensures FlattenText(c, s, prefix) == TreeLeaves(c, v.members, prefix)
    decreases v, 0
  {
    hide Tokens;
    hide Print;
    TokensOfObject(v, s, ws);
    TokensAreShorter(s);
    FlattenPairsIsTree(c, v.members, prefix, |s|);
  }

  lemma {:induction false} FlattenPairsIsTree(c: Codec, ms: Members, prefix: string, bound: nat)
    requires WellFormedMembers(ms)
    requires forall k :: 0 <= k < |PairsOf(ms)| ==> 0 < |PairsOf(ms)[k].raw| < bound
    ensures FlattenPairs(c, PairsOf(ms), prefix, bound) == TreeLeaves(c, ms, prefix)
    decreases ms, 0
  {
    hide FlattenText;
    hide Print;
    if ms.Member? {
      var p, rest := Pair(Unescape(ms.rawKey), Print(ms.value)), PairsOf(ms.rest);
      var ps := PairsOf(ms);
      assert ps[0] == p && ps[1..] == rest;
      assert 0 < |ps[0].raw| < bound;
      forall k | 0 <= k < |rest| ensures 0 < |rest[k].raw| < bound {
        assert ps[k + 1] == rest[k];
      }
      FlattenPairsIsTree(c, ms.rest, prefix, bound);
      FlattenPairIsTree(c, ms.value, p, prefix, bound);
    }
  }

  lemma {:induction false} FlattenPairIsTree(c: Codec, v: Json, p: Pair, prefix: string, bound: nat)
    requires WellFormed(v) && p.raw == Print(v) && 0 < |p.raw| < bound
    ensures FlattenPair(c, p, prefix, bound) == ValueLeaves(c, v, Join(prefix, p.key))
    decreases v, 1
  {
    hide FlattenText;
    hide TreeLeaves;
    match v
    case Str(_) =>
    case Arr(_, _) =>
    case Scalar(t) =>
      assert Plain(t[0]);
    case Obj(_, _) =>
      assert "" + Print(v) == p.raw;
      assert p.raw[..|p.raw|] == p.raw;
      FlattenTextIsTree(c, v, p.raw, "", Join(prefix, p.key));
  }

  // Flattening succeeds exactly when every scalar outside arrays is readable.
  lemma {:induction false} TreeLeavesSucceed(c: Codec, ms: Members, prefix: string)
    ensures TreeLeaves(c, ms, prefix).Some? <==> NumbersReadable(c, ms)
    decreases ms
  {
    if ms.Member? {
      var name := Join(prefix, Unescape(ms.rawKey));
      TreeLeavesSucceed(c, ms.rest, prefix);
      if ms.value.Obj? {
        TreeLeavesSucceed(c, ms.value.members, name);
      }
    }
  }

  // The tokenizer is more lenient than JSON: it stops at the closing brace and does
  // not look at what follows, a closing brace inside an array passes unseen, and so
  // does anything else there.  JsonAccepted says exactly what is accepted.
  lemma MalformedAccepted(c: Codec)
    ensures FlattenText(c, "{}x", "") == Some([])
    ensures FlattenText(c, "{\"a\":[}]}", "") == Some([])
    ensures FlattenText(c, "{\"a\":[,,]}", "") == Some([])
  {
    hide Tokens;
    TrailingTextAccepted();
    BraceInArrayAccepted();
    CommasInArrayAccepted();
    OneIgnoredPair(c, Pair("a", "[}]"), "{\"a\":[}]}");
    OneIgnoredPair(c, Pair("a", "[,,]"), "{\"a\":[,,]}");
  }

  lemma OneIgnoredPair(c: Codec, p: Pair, text: string)
    requires p.raw != "" && p.raw[0] == '[' && Tokens(text) == Some([p])
    ensures FlattenText(c, text, "") == Some([])
  {
    hide Tokens;
    TokensAreShorter(text);
    var ps := [p];
    assert ps[0] == p && ps[1..] == [];
    assert FlattenPair(c, p, "", |text|) == Some([]);
    assert FlattenPairs(c, ps[1..], "", |text|) == Some([]);
    assert FlattenPairs(c, ps, "", |text|) == Concat(Some([]), Some([]));
    ConcatAssociates(Some([]), Some([]), Some([]));
    assert FlattenText(c, text, "") == FlattenPairs(c, ps, "", |text|);
  }

  lemma TrailingTextAccepted()
    ensures Tokens("{}x") == Some([])
  {
    hide MembersFrom;
  }

  // An array of the key a whose brackets hold x.
  lemma ArrayAccepted(x: string)
    requires forall k :: 0 <= k < |x| ==> x[k] != '\"' && x[k] != '[' && x[k] != ']'
    ensures Tokens("{\"a\":[" + x + "]}") == Some([Pair("a", "[" + x + "]")])
  {
    var s, t := "{\"a\":[" + x + "]}", "[" + x + "]";
    ArrayEnds(s, x);
    KeyA(s, x);
    assert s[5..7 + |x|] == t;
    hide NestEnd;
    hide StringEnd;
    hide Unescape;
    assert s[7 + |x|] == '}';
    assert MemberAt(s, 1) == Some(JsonScan.Member(Pair("a", t), 7 + |x|));
    hide MemberAt;
    assert MembersFrom(s, 1) == Some([Pair("a", t)]);
  }

  lemma ArrayEnds(s: string, x: string)
    requires s == "{\"a\":[" + x + "]}" && forall k :: 0 <= k < |x| ==> x[k] != '\"' && x[k] != '[' && x[k] != ']'
    ensures NestEnd(s, 6, '[', ']', 1) == Some(7 + |x|)
  {
    assert s[6..] == x + "]}";
    assert At(s, 6, x);
    NoBracketIn(s, 6, x);
    assert s[6 + |x|] == ']';
  }

  lemma KeyA(s: string, x: string)
    requires s == "{\"a\":[" + x + "]}"
    ensures StringEnd(s, 2) == Some(4) && Unescape(s[2..3]) == "a"
  {
    assert s[2..3] == "a" && Unescape("a") == "a" by { assert "a"[1..] == ""; }
  }

  lemma {:induction false} NoBracketIn(s: string, i: nat, x: string)
    requires At(s, i, x) && forall k :: 0 <= k < |x| ==> x[k] != '\"' && x[k] != '[' && x[k] != ']'
    ensures NestEnd(s, i, '[', ']', 1) == NestEnd(s, i + |x|, '[', ']', 1)
    decreases |x|
  {
    if x != "" {
      AtChars(s, i, x);
      assert s[i + 0] == x[0];
      assert x == x[..1] + x[1..];
      AtSplit(s, i, x[..1], x[1..]);
      NoBracketIn(s, i + 1, x[1..]);
    }
  }

  lemma BraceInArrayAccepted()
    ensures Tokens("{\"a\":[}]}") == Some([Pair("a", "[}]")])
  {
    hide Tokens;
    ArrayAccepted("}");
    assert "{\"a\":[" + "}" + "]}" == "{\"a\":[}]}" && "[" + "}" + "]" == "[}]";
  }

  lemma CommasInArrayAccepted()
    ensures Tokens("{\"a\":[,,]}") == Some([Pair("a", "[,,]")])
  {
    hide Tokens;
    ArrayAccepted(",,");
    assert "{\"a\":[" + ",," + "]}" == "{\"a\":[,,]}" && "[" + ",," + "]" == "[,,]";
  }

  // ----- the two readers of flat objects --------------------------------------

  function FirstField(c: Codec, ps: seq<Pair>, field: string): Option<Double> {
    if ps == [] then None
    else if ps[0].key == field then ParseDouble(c, ps[0].raw)
    else FirstField(c, ps[1..], field)
  }

  // The number of the first pair of that key.
  lemma {:induction false} FirstFieldIs(c: Codec, ps: seq<Pair>, field: string)
    ensures FirstField(c, ps, field).Some? ==> exists k :: 0 <= k < |ps| && ps[k].key == field
    ensures forall k :: 0 <= k < |ps| && ps[k].key == field && (forall j :: 0 <= j < k ==> ps[j].key != field) ==>
      FirstField(c, ps, field) == ParseDouble(c, ps[k].raw)
    decreases |ps|
  {
    hide ParseDouble;
    if ps != [] && ps[0].key != field {
      var rest := ps[1..];
      FirstFieldIs(c, rest, field);
      assert forall k :: 0 < k < |ps| ==> ps[k] == rest[k - 1];
      forall k | 0 <= k < |ps| && ps[k].key == field && (forall j :: 0 <= j < k ==> ps[j].key != field)
        ensures FirstField(c, ps, field) == ParseDouble(c, ps[k].raw)
      {
        assert rest[k - 1] == ps[k];
      }
      if FirstField(c, rest, field).Some? {
        var k :| 0 <= k < |rest| && rest[k].key == field;
        assert ps[k + 1].key == field;
      }
    }
  }

  method ExtractJsonNumberField(c: Codec, text: string, field: string) returns (r: Option<Double>)
    ensures r == if Tokens(text).Some? then FirstField(c, Tokens(text).value, field) else None
  {
    hide Tokens;
    var ok, pairs := TokenizeFlatObject(text);
    if !ok {
      return None;
    }
    assert pairs[0..] == pairs;
    for k := 0 to |pairs|
      invariant FirstField(c, pairs, field) == FirstField(c, pairs[k..], field)
    {
      assert pairs[k..][1..] == pairs[k + 1..];
      if pairs[k].key == field {
        return ParseDouble(c, pairs[k].raw);
      }
    }
    return None;
  }

  // Name and value pairs into a map, a later pair of a name replacing an earlier one.
  function ReadPairs(c: Codec, ps: seq<Pair>, m: map<string, Double>): Option<map<string, Double>> {
    if ps == [] then Some(m) else
    match ParseDouble(c, ps[0].raw)
    case None => None
    case Some(v) => ReadPairs(c, ps[1..], m[ps[0].key := v])
  }

  function ReadFlatObject(c: Codec, text: string): Option<map<string, Double>> {
    match Tokens(text)
    case None => None
    case Some(ps) => ReadPairs(c, ps, map[])
  }

  // On failure the map read so far is discarded by the caller.
  method ParseFlatNumberObject(c: Codec, text: string) returns (ok: bool, out: map<string, Double>)
    ensures ok <==> ReadFlatObject(c, text).Some?
    ensures ok ==> out == ReadFlatObject(c, text).value
  {
    hide Tokens;
    out := map[];
    var good, pairs := TokenizeFlatObject(text);
    if !good {
      return false, out;
    }
    assert pairs[0..] == pairs;
    for k := 0 to |pairs|
      invariant ReadPairs(c, pairs, map[]) == ReadPairs(c, pairs[k..], out)
    {
      assert pairs[k..][1..] == pairs[k + 1..];
      var v := ParseDouble(c, pairs[k].raw);
      if v.None? {
        return false, out;
      }
      out := out[pairs[k].key := v.value];
    }
    return true, out;
  }
}
