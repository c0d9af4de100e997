/** The current-state store and its file: src/state.cpp.  The ordered map of the
    source is a `map`; its iteration order, which snapshot and save use, is the
    byte order of the names. */
module Store {
  import opened Text
  import opened Numbers
  import opened JsonScan
  import JsonEntries
  import opened JsonTree
  import opened JsonFlatten

  type Values = map<string, Double>

  // ----- the order of names ---------------------------------------------------

  predicate LexLe(a: string, b: string) {
    a == "" || (b != "" && (a[0] < b[0] || (a[0] == b[0] && LexLe(a[1..], b[1..]))))
  }

  lemma {:induction false} LexTotal(a: string, b: string)
    ensures LexLe(a, b) || LexLe(b, a)
    ensures LexLe(a, b) && LexLe(b, a) ==> a == b
  {
    if a != "" && b != "" && a[0] == b[0] {
      LexTotal(a[1..], b[1..]);
      assert a == [a[0]] + a[1..] && b == [b[0]] + b[1..];
    }
  }

  lemma {:induction false} LexTransitive(a: string, b: string, c: string)
    requires LexLe(a, b) && LexLe(b, c)
    ensures LexLe(a, c)
  {
    if a != "" && a[0] == b[0] == c[0] {
      LexTransitive(a[1..], b[1..], c[1..]);
    }
  }

  predicate IsLeast(k: string, ks: set<string>) {
    k in ks && forall x :: x in ks ==> LexLe(k, x)
  }

  lemma {:induction false} LeastExists(ks: set<string>)
    requires ks != {}
    ensures exists k :: IsLeast(k, ks)
    decreases |ks|
  {
    var x :| x in ks;
    var rest := ks - {x};
    LexTotal(x, x);
    if rest == {} {
      assert ks == {x};
      assert IsLeast(x, ks);
    } else {
      LeastExists(rest);
      var y :| IsLeast(y, rest);
      LexTotal(x, y);
      var k := if LexLe(x, y) then x else y;
      forall z | z in ks ensures LexLe(k, z) {
        if z != x && k == x {
          LexTransitive(x, y, z);
        }
      }
      assert IsLeast(k, ks);
    }
  }

  lemma LeastIsUnique(k: string, l: string, ks: set<string>)
    requires IsLeast(k, ks) && IsLeast(l, ks)
    ensures k == l
  {
    LexTotal(k, l);
  }

  // The entries of m whose names are in ks, in the order of their names.
  ghost function Entries(m: Values, ks: set<string>): (r: seq<Sample>)
    requires ks <= m.Keys
    decreases |ks|
  {
    if ks == {} then [] else
    LeastExists(ks);
    var k :| IsLeast(k, ks);
    [Sample(k, m[k])] + Entries(m, ks - {k})
  }

  ghost function Snapshot(m: Values): seq<Sample> {
    Entries(m, m.Keys)
  }

  lemma EntriesStep(m: Values, ks: set<string>) returns (k: string)
    requires ks <= m.Keys && ks != {}
    ensures IsLeast(k, ks) && Entries(m, ks) == [Sample(k, m[k])] + Entries(m, ks - {k})
  {
    LeastExists(ks);
    k := Entries(m, ks)[0].name;
  }

  predicate Sorted(xs: seq<Sample>) {
    forall i, j :: 0 <= i < j < |xs| ==> LexLe(xs[i].name, xs[j].name) && xs[i].name != xs[j].name
  }

  // A snapshot lists every entry of the store once, in the order of the names.
  lemma {:induction false} EntriesAreSorted(m: Values, ks: set<string>)
    requires ks <= m.Keys
    ensures Sorted(Entries(m, ks))
    ensures forall x :: x in Entries(m, ks) <==> x.name in ks && x.value == m[x.name]
    decreases |ks|
  {
    if ks != {} {
      var k := EntriesStep(m, ks);
      EntriesAreSorted(m, ks - {k});
      var rest := Entries(m, ks - {k});
      hide Entries;
      hide LexLe;
      InFrontOfSorted(Sample(k, m[k]), rest);
      assert forall x :: x in Entries(m, ks) <==> x == Sample(k, m[k]) || x in rest;
    }
  }

  lemma InFrontOfSorted(x: Sample, xs: seq<Sample>)
    requires Sorted(xs) && forall y :: y in xs ==> LexLe(x.name, y.name) && x.name != y.name
    ensures Sorted([x] + xs)
  {
    hide LexLe;
    var ys := [x] + xs;
    forall i, j | 0 <= i < j < |ys| ensures LexLe(ys[i].name, ys[j].name) && ys[i].name != ys[j].name {
      assert ys[j] == xs[j - 1] && xs[j - 1] in xs;
      assert i > 0 ==> ys[i] == xs[i - 1];
    }
  }

  lemma {:induction false} EntriesCount(m: Values, ks: set<string>)
    requires ks <= m.Keys
    ensures |Entries(m, ks)| == |ks|
    decreases |ks|
  {
    if ks != {} {
      var k := EntriesStep(m, ks);
      EntriesCount(m, ks - {k});
    }
  }

  // ----- the text of the file -------------------------------------------------

  function EntryText(c: Codec, x: Sample): string {
    "\"" + Escape(x.name) + "\":" + c.format(x.value)
  }

  function EntriesText(c: Codec, xs: seq<Sample>): string {
    if xs == [] then ""
    else if |xs| == 1 then EntryText(c, xs[0])
    else EntryText(c, xs[0]) + "," + EntriesText(c, xs[1..])
  }

  function FileText(c: Codec, xs: seq<Sample>): string {
    "{" + EntriesText(c, xs) + "}"
  }

  // The same text as a JSON document.
  function MembersOf(c: Codec, xs: seq<Sample>): Members {
    if xs == [] then NoMember
    else Members.Member("", Escape(xs[0].name), "", "", Scalar(c.format(xs[0].value)), "", MembersOf(c, xs[1..]))
  }

  lemma NumberTextIsScalar(t: string)
    requires NumberText(t)
    ensures ScalarText(t)
  {
    forall k | 0 <= k < |t| ensures !EndsScalar(t[k]) && Plain(t[k]) {
      assert NumberChar(t[k]);
    }
  }

  lemma EntryIsPrinted(c: Codec, x: Sample, rest: Members)
    requires Lawful(c)
    ensures
      var m := Members.Member("", Escape(x.name), "", "", Scalar(c.format(x.value)), "", rest);
      PrintMember(m) == EntryText(c, x) && (WellFormedMembers(rest) ==> WellFormedMembers(m))
  {
    hide Escape;
    var k, v := Escape(x.name), c.format(x.value);
    UnescapeEscape(x.name);
    NumberTextIsScalar(v);
    assert "" + ("\"" + ((k + "\"") + ("" + (":" + ("" + (v + "")))))) == "\"" + k + "\":" + v;
  }

  lemma PrintMembersStep(m: Members)
    requires m.Member?
    ensures PrintMembers(m) == PrintMember(m) + (JsonEntries.Comma(m.rest.Member?) + PrintMembers(m.rest))
  {
    hide PrintMember;
  }

  lemma MembersOfStep(c: Codec, xs: seq<Sample>)
    requires xs != []
    ensures
      MembersOf(c, xs) == Members.Member("", Escape(xs[0].name), "", "", Scalar(c.format(xs[0].value)), "", MembersOf(c, xs[1..]))
    ensures MembersOf(c, xs[1..]).Member? <==> |xs| > 1
    ensures EntriesText(c, xs) == EntryText(c, xs[0]) + (JsonEntries.Comma(|xs| > 1) + EntriesText(c, xs[1..]))
  {
    hide Escape;
    hide EntryText;
    hide EntriesText;
    CommaBetween(c, xs);
  }

  lemma CommaBetween(c: Codec, xs: seq<Sample>)
    requires xs != []
    ensures EntriesText(c, xs) == EntryText(c, xs[0]) + (JsonEntries.Comma(|xs| > 1) + EntriesText(c, xs[1..]))
  {
    hide EntryText;
    var x, rest := EntryText(c, xs[0]), EntriesText(c, xs[1..]);
    if |xs| > 1 {
      assert (x + ",") + rest == x + ("," + rest);
    } else {
      assert xs[1..] == [];
      assert x + ("" + "") == x;
    }
  }

  lemma {:induction false} EntriesArePrinted(c: Codec, xs: seq<Sample>)
    requires Lawful(c)
    ensures WellFormedMembers(MembersOf(c, xs)) && PrintMembers(MembersOf(c, xs)) == EntriesText(c, xs)
  {
    if xs != [] {
      hide *;
      EntriesArePrinted(c, xs[1..]);
      EntryIsPrinted(c, xs[0], MembersOf(c, xs[1..]));
      MembersOfStep(c, xs);
      PrintMembersStep(MembersOf(c, xs));
    }
  }

  // The pairs the tokenizer reads from a written file.
  function EntryPairs(c: Codec, xs: seq<Sample>): (r: seq<Pair>)
    ensures |r| == |xs| && forall k :: 0 <= k < |xs| ==> r[k] == Pair(xs[k].name, c.format(xs[k].value))
  {
    if xs == [] then [] else [Pair(xs[0].name, c.format(xs[0].value))] + EntryPairs(c, xs[1..])
  }

  lemma {:induction false} PairsOfEntries(c: Codec, xs: seq<Sample>)
    ensures PairsOf(MembersOf(c, xs)) == EntryPairs(c, xs)
  {
    if xs != [] {
      hide Escape;
      hide Unescape;
      PairsOfEntries(c, xs[1..]);
      UnescapeEscape(xs[0].name);
    }
  }

  lemma FileIsPrinted(c: Codec, xs: seq<Sample>)
    requires Lawful(c)
    ensures WellFormed(Obj("", MembersOf(c, xs))) && Print(Obj("", MembersOf(c, xs))) == FileText(c, xs)
  {
    hide MembersOf;
    hide PrintMembers;
    hide WellFormedMembers;
    hide EntriesText;
    EntriesArePrinted(c, xs);
    var e := EntriesText(c, xs);
    assert "{" + ("" + (e + "}")) == "{" + e + "}";
  }

  lemma FileTokens(c: Codec, xs: seq<Sample>)
    requires Lawful(c)
    ensures Tokens(FileText(c, xs)) == Some(EntryPairs(c, xs))
  {
    hide *;
    var v := Obj("", MembersOf(c, xs));
    var s := FileText(c, xs);
    FileIsPrinted(c, xs);
    PairsOfEntries(c, xs);
    AtStart(s);
    assert AllSpace("") by {
      NothingIsSpace();
    }
    assert "" + Print(v) == s;
    TokensOfObject(v, s, "");
  }

  lemma AtStart(s: string)
    ensures At(s, 0, s)
  {
    assert s[..|s|] == s;
  }

  lemma NothingIsSpace()
    ensures AllSpace("")
  {
  }

  // ----- reading it back ------------------------------------------------------

  predicate AllReadable(c: Codec, xs: seq<Sample>) {
    forall k :: 0 <= k < |xs| ==> Readable(c, xs[k].value)
  }

  // xs put into m one after the other, as StateStore::set does.
  function Overlay(m: Values, xs: seq<Sample>): Values
    decreases |xs|
  {
    if xs == [] then m else Overlay(m[xs[0].name := xs[0].value], xs[1..])
  }

  function RoundAll(c: Codec, xs: seq<Sample>): (r: seq<Sample>)
    ensures |r| == |xs| && forall k :: 0 <= k < |xs| ==> r[k] == Sample(xs[k].name, Rounded(c, xs[k].value))
  {
    if xs == [] then [] else [Sample(xs[0].name, Rounded(c, xs[0].value))] + RoundAll(c, xs[1..])
  }

  lemma {:induction false} ReadEntries(c: Codec, xs: seq<Sample>, m: Values)
    ensures ReadPairs(c, EntryPairs(c, xs), m) == if AllReadable(c, xs) then Some(Overlay(m, RoundAll(c, xs))) else None
  {
    if xs != [] {
      var x := xs[0];
      var m' := m[x.name := Rounded(c, x.value)];
      assert EntryPairs(c, xs)[1..] == EntryPairs(c, xs[1..]);
      assert RoundAll(c, xs)[1..] == RoundAll(c, xs[1..]);
      assert AllReadable(c, xs) <==> Readable(c, x.value) && AllReadable(c, xs[1..]) by {
        assert forall k :: 1 <= k < |xs| ==> xs[k] == xs[1..][k - 1];
      }
      ReadEntries(c, xs[1..], m');
    }
  }

  ghost predicate StoreReadable(c: Codec, m: Values) {
    forall k :: k in m ==> Readable(c, m[k])
  }

  function RoundStore(c: Codec, m: Values): Values {
    map k | k in m :: Rounded(c, m[k])
  }

  function RoundPart(c: Codec, m: Values, ks: set<string>): Values
    requires ks <= m.Keys
  {
    map k | k in ks :: Rounded(c, m[k])
  }

  lemma RoundPartStep(c: Codec, acc: Values, m: Values, ks: set<string>, k: string)
    requires ks <= m.Keys && k in ks
    ensures acc[k := Rounded(c, m[k])] + RoundPart(c, m, ks - {k}) == acc + RoundPart(c, m, ks)
  {
    hide Rounded;
  }

  lemma {:induction false} OverlayOfEntries(c: Codec, acc: Values, m: Values, ks: set<string>)
    requires ks <= m.Keys
    ensures Overlay(acc, RoundAll(c, Entries(m, ks))) == acc + RoundPart(c, m, ks)
    ensures AllReadable(c, Entries(m, ks)) <==> forall k :: k in ks ==> Readable(c, m[k])
    decreases |ks|
  {
    hide Readable;
    hide Rounded;
    if ks == {} {
      assert acc + RoundPart(c, m, ks) == acc;
    } else {
      hide IsLeast;
      hide Entries;
      hide Overlay;
      hide RoundAll;
      hide RoundPart;
      hide AllReadable;
      var k := EntriesStep(m, ks);
      assert k in ks by {
        LeastIsIn(k, ks);
      }
      var rest := Entries(m, ks - {k});
      OverlayOfEntries(c, acc[k := Rounded(c, m[k])], m, ks - {k});
      RoundAllStep(c, Sample(k, m[k]), rest);
      OverlayStep(acc, Sample(k, Rounded(c, m[k])), RoundAll(c, rest));
      RoundPartStep(c, acc, m, ks, k);
    }
  }

  lemma LeastIsIn(k: string, ks: set<string>)
    requires IsLeast(k, ks)
    ensures k in ks
  {
  }

  lemma OverlayStep(m: Values, x: Sample, xs: seq<Sample>)
    ensures Overlay(m, [x] + xs) == Overlay(m[x.name := x.value], xs)
  {
    assert ([x] + xs)[1..] == xs;
  }

  lemma RoundAllStep(c: Codec, x: Sample, xs: seq<Sample>)
    ensures RoundAll(c, [x] + xs) == [Sample(x.name, Rounded(c, x.value))] + RoundAll(c, xs)
    ensures AllReadable(c, [x] + xs) <==> Readable(c, x.value) && AllReadable(c, xs)
  {
    assert ([x] + xs)[1..] == xs;
    forall k | 1 <= k < |xs| + 1 ensures ([x] + xs)[k] == xs[k - 1] {
    }
    if AllReadable(c, [x] + xs) {
      forall k | 0 <= k < |xs| ensures Readable(c, xs[k].value) {
        assert ([x] + xs)[k + 1] == xs[k];
      }
    }
  }

  // Loading a saved store: for names of any bytes, the same map with every value
  // rounded to nine digits; it fails exactly when some value cannot be read back.
  lemma LoadOfSave(c: Codec, m: Values)
    requires Lawful(c)
    ensures ReadFlatObject(c, FileText(c, Snapshot(m))) == if StoreReadable(c, m) then Some(RoundStore(c, m)) else None
  {
    var xs := Snapshot(m);
    FileTokens(c, xs);
    ReadEntries(c, xs, map[]);
    OverlayOfEntries(c, map[], m, m.Keys);
    WholeStore(c, m);
    hide *;
    ReadOfTokens(c, FileText(c, xs), EntryPairs(c, xs));
  }

  lemma ReadOfTokens(c: Codec, text: string, ps: seq<Pair>)
    requires Tokens(text) == Some(ps)
    ensures ReadFlatObject(c, text) == ReadPairs(c, ps, map[])
  {
    hide Tokens;
    hide ReadPairs;
  }

  lemma WholeStore(c: Codec, m: Values)
    ensures map[] + RoundPart(c, m, m.Keys) == RoundStore(c, m)
    ensures StoreReadable(c, m) <==> forall k :: k in m.Keys ==> Readable(c, m[k])
    ensures Snapshot(m) == Entries(m, m.Keys)
  {
    hide Rounded;
    hide Readable;
    hide Entries;
  }

  lemma EntriesTextStep(c: Codec, x: Sample, xs: seq<Sample>)
    ensures EntriesText(c, [x] + xs) == EntryText(c, x) + (if xs == [] then "" else "," + EntriesText(c, xs))
  {
    hide EntryText;
    assert ([x] + xs)[1..] == xs;
  }

  lemma {:induction false} RoundedEntriesText(c: Codec, m: Values, ks: set<string>)
    requires Lawful(c) && ks <= m.Keys && forall k :: k in ks ==> Readable(c, m[k])
    ensures EntriesText(c, Entries(RoundStore(c, m), ks)) == EntriesText(c, Entries(m, ks))
    ensures |Entries(RoundStore(c, m), ks)| == |Entries(m, ks)|
    decreases |ks|
  {
    if ks != {} {
      var n := RoundStore(c, m);
      var k := EntriesStep(m, ks);
      var l := EntriesStep(n, ks);
      LeastIsUnique(k, l, ks);
      hide Entries;
      hide IsLeast;
      hide EntriesText;
      RoundedEntriesText(c, m, ks - {k});
      RoundedAgain(c, m[k]);
      EntriesTextStep(c, Sample(k, m[k]), Entries(m, ks - {k}));
      EntriesTextStep(c, Sample(k, n[k]), Entries(n, ks - {k}));
    }
  }

  // Saving what was loaded writes the same file again.
  lemma SecondSaveIsSame(c: Codec, m: Values)
    requires Lawful(c) && StoreReadable(c, m)
    ensures StoreReadable(c, RoundStore(c, m)) && RoundStore(c, RoundStore(c, m)) == RoundStore(c, m)
    ensures FileText(c, Snapshot(RoundStore(c, m))) == FileText(c, Snapshot(m))
  {
    hide EntriesText;
    hide Entries;
    hide Readable;
    hide Rounded;
    hide Lawful;
    RoundedEntriesText(c, m, m.Keys);
    assert RoundStore(c, m).Keys == m.Keys;
    forall k | k in m
      ensures Readable(c, Rounded(c, m[k])) && Rounded(c, Rounded(c, m[k])) == Rounded(c, m[k])
    {
      RoundedAgain(c, m[k]);
    }
  }
}
