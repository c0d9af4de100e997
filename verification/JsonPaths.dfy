/** What a JSON object is flattened to, said by paths: src/json_util.h:47-59 against
    src/json_util.cpp:279-331.  A scalar outside arrays is at a path of keys; the leaves
    are those scalars but null, in the order of the document. */
module JsonPaths {
  import opened Text
  import opened Numbers
  import opened JsonScan
  import opened JsonTree
  import opened JsonFlatten

  // A scalar and the keys that lead to it, outermost first.
  datatype Place = Place(path: seq<string>, text: string)

  function Under(key: string, ps: seq<Place>): seq<Place> {
    seq(|ps|, k requires 0 <= k < |ps| => Place([key] + ps[k].path, ps[k].text))
  }

  // The scalars outside arrays, in the order of the document.
  function Places(ms: Members): seq<Place> {
    match ms
    case NoMember => []
    case Member(_, key, _, _, v, _, rest) => Under(Unescape(key), PlacesOf(v)) + Places(rest)
  }

  function PlacesOf(v: Json): seq<Place> {
    match v
    case Str(_) => []
    case Arr(_, _) => []
    case Scalar(t) => [Place([], t)]
    case Obj(_, ms) => Places(ms)
  }

  function NotNull(ps: seq<Place>): seq<Place> {
    if ps == [] then [] else IfNotNull(ps[0]) + NotNull(ps[1..])
  }

  function IfNotNull(p: Place): seq<Place> {
    if p.text == "null" then [] else [p]
  }

  // ----- the name of a path ---------------------------------------------------

  function Underscored(path: seq<string>): string {
    if path == [] then "" else if |path| == 1 then path[0] else path[0] + ("_" + Underscored(path[1..]))
  }

  function WithoutEmptyFront(path: seq<string>): seq<string> {
    if path != [] && path[0] == "" then WithoutEmptyFront(path[1..]) else path
  }

  function NameOf(path: seq<string>): string {
    Underscored(WithoutEmptyFront(path))
  }

  // The name of a path below what has been joined so far.
  function NameBelow(prefix: string, path: seq<string>): string {
    if prefix == "" then NameOf(path) else if path == [] then prefix else prefix + ("_" + Underscored(path))
  }

  lemma NameGrows(prefix: string, key: string, path: seq<string>)
    ensures NameBelow(Join(prefix, key), path) == NameBelow(prefix, [key] + path)
  {
    var whole := [key] + path;
    assert whole[0] == key && whole[1..] == path;
    if prefix != "" && path != [] {
      assert prefix + "_" + key + ("_" + Underscored(path)) == prefix + ("_" + (key + ("_" + Underscored(path))));
    } else if prefix != "" {
      assert prefix + "_" + key == prefix + ("_" + key);
    }
  }

  // ----- the leaves -----------------------------------------------------------

  // The doubles 1.0 and 0.0: exponent 1023 and no fraction, and nothing at all
  // (section 3.4 of IEEE 754).
  function LeafValue(c: Codec, t: string): Double {
    if t == "true" then 1023 * 0x10_0000_0000_0000
    else if t == "false" then 0
    else match ParseDouble(c, t) case Some(v) => v case None => 0
  }

  function LeavesBelow(c: Codec, prefix: string, ps: seq<Place>): seq<Sample> {
    seq(|ps|, k requires 0 <= k < |ps| => Sample(NameBelow(prefix, ps[k].path), LeafValue(c, ps[k].text)))
  }

  // What an object is flattened to: one leaf for each scalar that is not null.
  function LeavesOf(c: Codec, ms: Members): (xs: seq<Sample>)
    ensures
      var ps := NotNull(Places(ms));
      && |xs| == |ps|
      && forall k :: 0 <= k < |ps| ==> xs[k] == Sample(NameOf(ps[k].path), LeafValue(c, ps[k].text))
  {
    LeavesBelow(c, "", NotNull(Places(ms)))
  }

  lemma {:induction false} NotNullTwo(ps: seq<Place>, qs: seq<Place>)
    ensures NotNull(ps + qs) == NotNull(ps) + NotNull(qs)
  {
    hide IfNotNull;
    if ps == [] {
      assert ps + qs == qs;
    } else {
      NotNullTwo(ps[1..], qs);
      NotNullStep(ps[0], ps[1..] + qs);
      assert ps + qs == [ps[0]] + (ps[1..] + qs);
      var a, b, d := IfNotNull(ps[0]), NotNull(ps[1..]), NotNull(qs);
      assert a + (b + d) == (a + b) + d;
    }
  }

  lemma NotNullStep(p: Place, ps: seq<Place>)
    ensures NotNull([p] + ps) == IfNotNull(p) + NotNull(ps)
  {
    hide IfNotNull;
    assert ([p] + ps)[1..] == ps;
  }

  lemma {:induction false} NotNullUnder(key: string, ps: seq<Place>)
    ensures NotNull(Under(key, ps)) == Under(key, NotNull(ps))
  {
    if ps != [] {
      NotNullUnder(key, ps[1..]);
      assert Under(key, ps)[1..] == Under(key, ps[1..]);
      assert Under(key, ps)[0] == Place([key] + ps[0].path, ps[0].text);
      assert NotNull(ps) == IfNotNull(ps[0]) + NotNull(ps[1..]);
    }
  }

  lemma LeavesUnder(c: Codec, prefix: string, key: string, ps: seq<Place>)
    ensures LeavesBelow(c, prefix, Under(key, ps)) == LeavesBelow(c, Join(prefix, key), ps)
  {
    hide Join;
    hide NameBelow;
    hide LeafValue;
    forall k | 0 <= k < |ps|
      ensures LeavesBelow(c, prefix, Under(key, ps))[k] == LeavesBelow(c, Join(prefix, key), ps)[k]
    {
      NameGrows(prefix, key, ps[k].path);
    }
  }

  lemma LeavesTwo(c: Codec, prefix: string, ps: seq<Place>, qs: seq<Place>)
    ensures LeavesBelow(c, prefix, ps + qs) == LeavesBelow(c, prefix, ps) + LeavesBelow(c, prefix, qs)
  {
  }

  // A value below the name built so far.
  lemma {:induction false} ValueLeavesAre(c: Codec, v: Json, name: string)
    requires ValueLeaves(c, v, name).Some?
    ensures ValueLeaves(c, v, name).value == LeavesBelow(c, name, NotNull(PlacesOf(v)))
    decreases v, 0
  {
    match v
    case Str(_) =>
    case Arr(_, _) =>
    case Scalar(t) =>
      ScalarLeafIs(c, t, name);
    case Obj(_, ms) =>
      TreeLeavesAre(c, ms, name);
  }

  lemma ScalarLeafIs(c: Codec, t: string, name: string)
    requires ScalarLeaf(c, t, name).Some?
    ensures ScalarLeaf(c, t, name).value == LeavesBelow(c, name, NotNull([Place([], t)]))
  {
    hide ParseDouble;
    var ps := [Place([], t)];
    assert ps[1..] == [];
    assert NameBelow(name, []) == name;
  }

  lemma {:induction false} TreeLeavesAre(c: Codec, ms: Members, prefix: string)
    requires TreeLeaves(c, ms, prefix).Some?
    ensures TreeLeaves(c, ms, prefix).value == LeavesBelow(c, prefix, NotNull(Places(ms)))
    decreases ms, 1
  {
    hide LeavesBelow;
    hide NotNull;
    hide Under;
    hide Unescape;
    hide Join;
    hide ValueLeaves;
    if ms.Member? {
      var key := Unescape(ms.rawKey);
      var here := PlacesOf(ms.value);
      ValueLeavesAre(c, ms.value, Join(prefix, key));
      TreeLeavesAre(c, ms.rest, prefix);
      NotNullTwo(Under(key, here), Places(ms.rest));
      NotNullUnder(key, here);
      LeavesTwo(c, prefix, Under(key, NotNull(here)), NotNull(Places(ms.rest)));
      LeavesUnder(c, prefix, key, NotNull(here));
    } else {
      NoLeaves(c, prefix);
    }
  }

  lemma NoLeaves(c: Codec, prefix: string)
    ensures LeavesBelow(c, prefix, NotNull([])) == []
  {
  }

  // Flattening the text of any well-formed object, with any white space and any text
  // behind it, gives exactly its leaves, or fails exactly for a scalar outside arrays
  // that cannot be read.
  lemma FlattenGivesLeaves(c: Codec, v: Json, s: string, ws: string)
    requires v.Obj? && WellFormed(v) && AllSpace(ws) && At(s, 0, ws + Print(v))
    ensures FlattenText(c, s, "") == if NumbersReadable(c, v.members) then Some(LeavesOf(c, v.members)) else None
  {
    hide *;
    FlattenTextIsTree(c, v, s, ws, "");
    TreeLeavesSucceed(c, v.members, "");
    if NumbersReadable(c, v.members) {
      TreeLeavesAre(c, v.members, "");
      LeavesOfIs(c, v.members);
    }
  }

  lemma LeavesOfIs(c: Codec, ms: Members)
    ensures LeavesOf(c, ms) == LeavesBelow(c, "", NotNull(Places(ms)))
  {
  }
}
