/** Exactly which texts the readers built on the tokenizer accept:
    src/json_util.cpp:279-331 and 352-370, whose header promises to reject every
    structural problem (src/json_util.h:41-45). */
module JsonAccepted {
  import opened Numbers
  import opened JsonScan
  import opened JsonEntries
  import opened JsonFlatten
  import opened JsonLenient

  // A text flattening accepts: a lenient document in which every value is accepted.
  ghost predicate Accepted(c: Codec, s: string)
    decreases |s|, 1
  {
    exists d :: StartsWith(s, d) && forall k :: 0 <= k < |d.entries| ==> ValueAccepted(c, d.entries[k].text, |s|)
  }

  // An object is looked into, arrays and strings are not, a scalar is a literal or a
  // number.
  ghost predicate ValueAccepted(c: Codec, t: string, bound: nat)
    decreases bound, 0
  {
    0 < |t| < bound &&
    if t[0] == '{' then Accepted(c, t)
    else t[0] == '[' || t[0] == '\"' || t == "true" || t == "false" || t == "null" || ParseDouble(c, t).Some?
  }

  lemma {:induction false} PairsOfEntries(es: seq<Entry>)
    ensures |EntryPairs(es)| == |es| && forall k :: 0 <= k < |es| ==> EntryPairs(es)[k].raw == es[k].text
  {
    hide Unescape;
    if es != [] {
      PairsOfEntries(es[1..]);
    }
  }

  lemma {:induction false} PairsSucceed(c: Codec, ps: seq<Pair>, prefix: string, bound: nat)
    requires forall k :: 0 <= k < |ps| ==> 0 < |ps[k].raw| < bound
    ensures FlattenPairs(c, ps, prefix, bound).Some? <==>
      forall k :: 0 <= k < |ps| ==> FlattenPair(c, ps[k], prefix, bound).Some?
    decreases |ps|
  {
    hide FlattenPair;
    if ps != [] {
      var rest := ps[1..];
      forall k | 0 <= k < |rest| ensures 0 < |rest[k].raw| < bound {
        assert rest[k] == ps[k + 1];
      }
      PairsSucceed(c, rest, prefix, bound);
      if forall k :: 0 <= k < |rest| ==> FlattenPair(c, rest[k], prefix, bound).Some? {
        assert forall k :: 0 < k < |ps| ==> ps[k] == rest[k - 1];
      } else {
        var k :| 0 <= k < |rest| && FlattenPair(c, rest[k], prefix, bound).None?;
        assert ps[k + 1] == rest[k];
      }
    }
  }

  lemma {:induction false} PairSucceeds(c: Codec, p: Pair, prefix: string, bound: nat)
    requires 0 < |p.raw| < bound
    ensures FlattenPair(c, p, prefix, bound).Some? <==> ValueAccepted(c, p.raw, bound)
    decreases bound, 0
  {
    hide FlattenText;
    hide Accepted;
    hide ParseDouble;
    if p.raw[0] == '{' {
      FlattenAcceptsExactly(c, p.raw, Join(prefix, p.key));
    }
  }

  // Flattening succeeds exactly on the accepted texts, whatever the prefix.
  lemma {:induction false} FlattenAcceptsExactly(c: Codec, s: string, prefix: string)
    ensures FlattenText(c, s, prefix).Some? <==> Accepted(c, s)
    decreases |s|, 1
  {
    hide Tokens;
    hide StartsWith;
    hide ValueAccepted;
    if Tokens(s).Some? {
      TokensAreShorter(s);
      var ps := Tokens(s).value;
      PairsSucceed(c, ps, prefix, |s|);
      forall k | 0 <= k < |ps| ensures FlattenPair(c, ps[k], prefix, |s|).Some? <==> ValueAccepted(c, ps[k].raw, |s|) {
        PairSucceeds(c, ps[k], prefix, |s|);
      }
      hide FlattenPairs;
      hide FlattenPair;
      hide EntryPairs;
      var e := TokensIs(s);
      PairsOfEntries(e.entries);
      forall d | StartsWith(s, d)
        ensures |d.entries| == |ps| && forall k :: 0 <= k < |ps| ==> ps[k].raw == d.entries[k].text
      {
        DocumentRead(s, d);
        PairsOfEntries(d.entries);
      }
    } else {
      forall d | StartsWith(s, d) ensures false {
        DocumentRead(s, d);
      }
    }
  }

  lemma {:induction false} ReadPairsSucceeds(c: Codec, ps: seq<Pair>, m: map<string, Double>)
    ensures ReadPairs(c, ps, m).Some? <==> forall k :: 0 <= k < |ps| ==> ParseDouble(c, ps[k].raw).Some?
    decreases |ps|
  {
    hide ParseDouble;
    if ps != [] && ParseDouble(c, ps[0].raw).Some? {
      var rest := ps[1..];
      ReadPairsSucceeds(c, rest, m[ps[0].key := ParseDouble(c, ps[0].raw).value]);
      if forall k :: 0 <= k < |rest| ==> ParseDouble(c, rest[k].raw).Some? {
        assert forall k :: 0 < k < |ps| ==> ps[k] == rest[k - 1];
      } else {
        var k :| 0 <= k < |rest| && ParseDouble(c, rest[k].raw).None?;
        assert ps[k + 1] == rest[k];
      }
    }
  }

  ghost predicate NumbersOnly(c: Codec, d: Document) {
    forall k :: 0 <= k < |d.entries| ==> ParseDouble(c, d.entries[k].text).Some?
  }

  lemma FlatObjectAccepted(c: Codec, s: string)
    ensures ReadFlatObject(c, s).Some? <==> exists d :: StartsWith(s, d) && NumbersOnly(c, d)
  {
    hide Tokens;
    hide StartsWith;
    hide ParseDouble;
    hide EntryPairs;
    if Tokens(s).Some? {
      var ps := Tokens(s).value;
      ReadPairsSucceeds(c, ps, map[]);
      hide ReadPairs;
      var e := TokensIs(s);
      forall d | StartsWith(s, d) ensures NumbersOnly(c, d) <==> ReadPairs(c, ps, map[]).Some? {
        DocumentRead(s, d);
        PairsOfEntries(d.entries);
      }
    } else {
      forall d | StartsWith(s, d) ensures false {
        DocumentRead(s, d);
      }
    }
  }
}
