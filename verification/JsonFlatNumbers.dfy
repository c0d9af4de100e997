/** What parse_flat_number_object accepts (src/json_util.cpp:352-370) and flattening
    refuses (src/json_util.cpp:279-331), against the comments of src/json_util.h:40-45
    and 60-64. */
module JsonFlatNumbers {
  import opened Text
  import opened Numbers
  import opened JsonScan
  import opened JsonEntries
  import opened JsonFlatten
  import opened JsonLenient
  import opened JsonAccepted
  import JsonTree

  // ----- flat objects hold numbers only ---------------------------------------

  // A scalar run of which strtod reads all that c_str() shows.
  predicate NumberWord(c: Codec, t: string) {
    Fits(Word(t)) && NumberText(CString(t)) && c.strtod(CString(t)).Some?
  }

  ghost predicate NumberWords(c: Codec, d: Document) {
    forall k :: 0 <= k < |d.entries| ==> NumberWord(c, d.entries[k].text)
  }

  lemma ValueHasNoSpaceAround(t: string)
    requires IsValue(t)
    ensures t != "" && !IsSpace(t[0]) && !IsSpace(t[|t| - 1])
    ensures t[0] != '\"' && t[0] != '{' && t[0] != '[' ==> Fits(Word(t))
  {
    var v :| Fits(v) && Print(v) == t;
    hide PrintRun;
    hide FitsRun;
    hide StringBody;
    match v
    case Quoted(raw) =>
    case Bracketed(open, inside) =>
    case Word(w) => assert !EndsScalar(t[0]) && !EndsScalar(t[|t| - 1]);
  }

  lemma CStringStarts(t: string)
    requires CString(t) != ""
    ensures t != "" && CString(t)[0] == t[0]
  {
  }

  // No nested value and no string is read as a number.
  lemma NumberIsWord(c: Codec, t: string)
    requires Lawful(c) && IsValue(t)
    ensures ParseDouble(c, t).Some? <==> NumberWord(c, t)
  {
    ValueHasNoSpaceAround(t);
    hide IsValue;
    hide Fits;
    hide Print;
    TrimIs("", t, "");
    assert "" + t + "" == t;
    hide Trim;
    if CString(t) != "" && c.strtod(CString(t)).Some? {
      CStringStarts(t);
      assert NumberText(CString(t));
      assert NumberChar(CString(t)[0]);
    }
  }

  // A flat object is read exactly if the text starts with a document whose values are
  // all number words: behind the object, behind a NUL in a number and in the spelling of
  // a number the reader is lenient, and nowhere else.
  lemma FlatObjectExactly(c: Codec, s: string)
    requires Lawful(c)
    ensures ReadFlatObject(c, s).Some? <==> exists d :: StartsWith(s, d) && NumberWords(c, d)
  {
    FlatObjectAccepted(c, s);
    forall d | StartsWith(s, d) ensures NumbersOnly(c, d) <==> NumberWords(c, d) {
      forall k | 0 <= k < |d.entries| ensures ParseDouble(c, d.entries[k].text).Some? <==> NumberWord(c, d.entries[k].text) {
        assert IsValue(d.entries[k].text);
        NumberIsWord(c, d.entries[k].text);
      }
      hide ParseDouble;
      hide NumberWord;
    }
    hide StartsWith;
    hide NumbersOnly;
    hide NumberWords;
    hide ReadFlatObject;
  }

  // ----- and, without NUL bytes, they are JSON --------------------------------

  predicate AllNumbers(c: Codec, ms: JsonTree.Members) {
    ms.NoMember? || (ms.value.Scalar? && c.strtod(ms.value.text).Some? && AllNumbers(c, ms.rest))
  }

  // An object tree whose values are all numbers, at the start of the text.
  predicate StartsWithNumbers(c: Codec, s: string, ws: string, v: JsonTree.Json) {
    && v.Obj? && JsonTree.WellFormed(v) && AllNumbers(c, v.members)
    && AllSpace(ws) && At(s, 0, ws + JsonTree.Print(v))
  }

  function Tree(es: seq<Entry>): JsonTree.Members {
    if es == [] then JsonTree.NoMember
    else JsonTree.Members.Member(es[0].before, es[0].rawKey, es[0].afterKey, es[0].beforeValue,
                                 JsonTree.Scalar(es[0].text), es[0].after, Tree(es[1..]))
  }

  predicate NulFree(s: string) {
    forall k :: 0 <= k < |s| ==> s[k] != '\0'
  }

  ghost predicate NumberEntries(c: Codec, es: seq<Entry>) {
    forall k :: 0 <= k < |es| ==> SpacedEntry(es[k]) && NumberText(es[k].text) && c.strtod(es[k].text).Some?
  }

  lemma NumberTextIsScalar(t: string)
    requires NumberText(t)
    ensures JsonTree.ScalarText(t)
  {
    forall k | 0 <= k < |t| ensures !EndsScalar(t[k]) && JsonTree.Plain(t[k]) {
      assert NumberChar(t[k]);
    }
  }

  lemma {:induction false} TreeOfNumbers(c: Codec, es: seq<Entry>)
    requires NumberEntries(c, es)
    ensures JsonTree.WellFormedMembers(Tree(es)) && AllNumbers(c, Tree(es)) && JsonTree.EntriesOf(Tree(es)) == es
  {
    hide StringBody;
    hide AllSpace;
    hide NumberText;
    if es != [] {
      assert NumberText(es[0].text) && SpacedEntry(es[0]);
      NumberTextIsScalar(es[0].text);
      hide JsonTree.ScalarText;
      var rest := es[1..];
      assert forall k :: 0 <= k < |rest| ==> rest[k] == es[k + 1];
      TreeOfNumbers(c, rest);
      assert es == [es[0]] + rest;
    }
  }

  lemma {:induction false} NumbersOfTree(c: Codec, ms: JsonTree.Members)
    requires AllNumbers(c, ms)
    ensures forall k :: 0 <= k < |JsonTree.PairsOf(ms)| ==> c.strtod(JsonTree.PairsOf(ms)[k].raw).Some?
  {
    hide Unescape;
    if ms.Member? {
      NumbersOfTree(c, ms.rest);
    }
  }

  lemma NumbersAreRead(c: Codec, v: JsonTree.Json, s: string, ws: string)
    requires Lawful(c) && StartsWithNumbers(c, s, ws, v)
    ensures ReadFlatObject(c, s).Some?
  {
    var ps := JsonTree.PairsOf(v.members);
    JsonTree.TokensOfObject(v, s, ws);
    NumbersOfTree(c, v.members);
    ScalarsStartPlain(c, v.members);
    hide Tokens;
    hide At;
    hide JsonTree.Print;
    forall k | 0 <= k < |ps| ensures ParseDouble(c, ps[k].raw).Some? {
      var t := ps[k].raw;
      assert NumberText(t);
      ParseNumberText(c, "", t, "");
    }
    ReadPairsSucceeds(c, ps, map[]);
  }

  lemma {:induction false} ScalarsStartPlain(c: Codec, ms: JsonTree.Members)
    requires JsonTree.WellFormedMembers(ms) && AllNumbers(c, ms)
    ensures forall k :: 0 <= k < |JsonTree.PairsOf(ms)| ==>
      JsonTree.PairsOf(ms)[k].raw != "" && !IsSpace(JsonTree.PairsOf(ms)[k].raw[0])
  {
    hide Unescape;
    if ms.Member? {
      ScalarsStartPlain(c, ms.rest);
      var t := ms.value.text;
      assert JsonTree.ScalarText(t);
      assert !EndsScalar(t[0]);
    }
  }

  lemma {:induction false} TextsAreNulFree(es: seq<Entry>)
    requires NulFree(PrintEntries(es))
    ensures forall k :: 0 <= k < |es| ==> NulFree(es[k].text)
  {
    if es != [] {
      var e, rest := es[0], es[1..];
      hide NulFree;
      hide PrintEntry;
      NulFreeParts(PrintEntry(e), Comma(|es| > 1) + PrintEntries(rest));
      NulFreeParts(Comma(|es| > 1), PrintEntries(rest));
      TextsAreNulFree(rest);
      EntryIsNulFree(e);
      hide PrintEntries;
      assert forall k :: 0 < k < |es| ==> es[k] == rest[k - 1];
    }
  }

  lemma EntryIsNulFree(e: Entry)
    requires NulFree(PrintEntry(e))
    ensures NulFree(e.text)
  {
    hide NulFree;
    var value := e.beforeValue + (e.text + e.after);
    NulFreeParts(e.before, "\"" + ((e.rawKey + "\"") + (e.afterKey + (":" + value))));
    NulFreeParts("\"", (e.rawKey + "\"") + (e.afterKey + (":" + value)));
    NulFreeParts(e.rawKey + "\"", e.afterKey + (":" + value));
    NulFreeParts(e.afterKey, ":" + value);
    NulFreeParts(":", value);
    NulFreeParts(e.beforeValue, e.text + e.after);
    NulFreeParts(e.text, e.after);
  }

  lemma NulFreeParts(x: string, y: string)
    requires NulFree(x + y)
    ensures NulFree(x) && NulFree(y)
  {
    forall k | 0 <= k < |x| ensures x[k] != '\0' {
      assert (x + y)[k] == x[k];
    }
    forall k | 0 <= k < |y| ensures y[k] != '\0' {
      assert (x + y)[|x| + k] == y[k];
    }
  }

  lemma DocumentIsNulFree(s: string, d: Document)
    requires NulFree(s) && StartsWith(s, d)
    ensures forall k :: 0 <= k < |d.entries| ==> NulFree(d.entries[k].text) && SpacedEntry(d.entries[k])
  {
    var es := d.entries;
    hide IsValue;
    hide SpacedEntry;
    hide PrintEntries;
    PrintedIsNulFree(s, PrintObject(d.ws, d.inner, es));
    assert PrintObject(d.ws, d.inner, es) == (d.ws + ("{" + d.inner)) + (PrintEntries(es) + "}");
    NulFreeParts(d.ws + ("{" + d.inner), PrintEntries(es) + "}");
    NulFreeParts(PrintEntries(es), "}");
    TextsAreNulFree(es);
  }

  lemma PrintedIsNulFree(s: string, text: string)
    requires NulFree(s) && At(s, 0, text)
    ensures NulFree(text)
  {
    AtIs(s, 0, text);
    assert forall k :: 0 <= k < |text| ==> s[0..|text|][k] == s[k];
  }

  lemma TreeStarts(c: Codec, s: string, d: Document)
    requires StartsWith(s, d) && NumberEntries(c, d.entries)
    ensures StartsWithNumbers(c, s, d.ws, JsonTree.Obj(d.inner, Tree(d.entries)))
  {
    var es := d.entries;
    TreeOfNumbers(c, es);
    JsonTree.MembersAreEntries(Tree(es));
    hide At;
    hide PrintEntries;
    hide IsValue;
    hide JsonTree.PrintMembers;
    hide AllNumbers;
    hide NumberEntries;
    assert es == [] <==> Tree(es).NoMember?;
  }

  lemma ReadNumbersAreJson(c: Codec, s: string) returns (ws: string, v: JsonTree.Json)
    requires Lawful(c) && NulFree(s) && ReadFlatObject(c, s).Some?
    ensures StartsWithNumbers(c, s, ws, v)
  {
    FlatObjectExactly(c, s);
    hide ReadFlatObject;
    hide StartsWith;
    hide StartsWithNumbers;
    var d :| StartsWith(s, d) && NumberWords(c, d);
    DocumentIsNulFree(s, d);
    hide SpacedEntry;
    hide NumberText;
    forall k | 0 <= k < |d.entries|
      ensures SpacedEntry(d.entries[k]) && NumberText(d.entries[k].text) && c.strtod(d.entries[k].text).Some?
    {
      CStringOfNumber(d.entries[k].text);
      assert NumberWord(c, d.entries[k].text);
    }
    ws, v := d.ws, JsonTree.Obj(d.inner, Tree(d.entries));
    TreeStarts(c, s, d);
  }

  // Without NUL bytes: a text is read exactly if it starts with a JSON object whose
  // values are all numbers.  So nothing but what follows the object is accepted too
  // much.
  lemma FlatObjectIsJson(c: Codec, s: string)
    requires Lawful(c) && NulFree(s)
    ensures ReadFlatObject(c, s).Some? <==> exists ws, v :: StartsWithNumbers(c, s, ws, v)
  {
    hide ReadFlatObject;
    hide StartsWithNumbers;
    hide Lawful;
    if ReadFlatObject(c, s).Some? {
      var ws, v := ReadNumbersAreJson(c, s);
    }
    forall ws, v | StartsWithNumbers(c, s, ws, v) ensures ReadFlatObject(c, s).Some? {
      NumbersAreRead(c, v, s, ws);
    }
  }

  // ----- what is accepted and refused against the comments --------------------

  // Trailing data.
  lemma TrailingDataRead(c: Codec)
    ensures ReadFlatObject(c, "{}x") == Some(map[])
  {
    hide Tokens;
    TrailingTextAccepted();
  }

  // The member of key a with the value t.
  lemma OneMember(t: string)
    requires IsValue(t)
    ensures Tokens("{\"a\":" + t + "}") == Some([Pair("a", t)])
  {
    hide *;
    var e := Entry("", "a", "", "", t, "");
    var s := "{\"a\":" + t + "}";
    EntryOfA(t);
    Single(e);
    ObjectOfA(t);
    AtFrontAll(s);
    IsDocument(s, Document("", "", [e]));
    DocumentRead(s, Document("", "", [e]));
  }

  lemma EntryOfA(t: string)
    ensures SpacedEntry(Entry("", "a", "", "", t, "")) && Unescape("a") == "a"
  {
    assert "a"[1..] == "";
    hide PrintEntry;
  }

  lemma ObjectOfA(t: string)
    ensures PrintObject("", "", [Entry("", "a", "", "", t, "")]) == "{\"a\":" + t + "}"
  {
    var e := Entry("", "a", "", "", t, "");
    PrintOfA(t);
    hide PrintEntry;
    assert PrintEntries([e]) == PrintEntry(e) by {
      assert [e][1..] == [];
    }
    hide PrintEntries;
    assert "\"a\":" + t + ("}" + "") == "\"a\":" + t + "}";
    assert "" + ("{" + ("" + ("\"a\":" + t + "}"))) == "{\"a\":" + t + "}";
  }

  lemma PrintOfA(t: string)
    ensures PrintEntry(Entry("", "a", "", "", t, "")) == "\"a\":" + t
  {
    assert t + "" == t;
    assert "" + ("\"" + (("a" + "\"") + ("" + (":" + ("" + t))))) == "\"a\":" + t;
  }

  lemma AtFrontAll(s: string)
    ensures At(s, 0, s) && AllSpace("")
  {
  }

  // A number is read up to a NUL, whatever stands behind it.
  lemma NulHidesText(c: Codec, v: Double, x: string)
    requires Lawful(c) && c.strtod(c.format(v)).Some? && forall k :: 0 <= k < |x| ==> !EndsScalar(x[k])
    ensures ReadFlatObject(c, "{\"a\":" + (c.format(v) + "\0" + x) + "}") == Some(map["a" := c.strtod(c.format(v)).value])
  {
    var t := c.format(v);
    var w := t + "\0" + x;
    WordWithNul(t, x);
    assert NumberText(t);
    NumberIsWord(c, w);
    ParsesUpToNul(c, t, x);
    OneMember(w);
    hide *;
    OnePair(c, "{\"a\":" + w + "}", Pair("a", w));
  }

  lemma OnePair(c: Codec, s: string, p: Pair)
    requires Tokens(s) == Some([p]) && ParseDouble(c, p.raw).Some?
    ensures ReadFlatObject(c, s) == Some(map[p.key := ParseDouble(c, p.raw).value])
  {
    hide Tokens;
    hide ParseDouble;
    var v := ParseDouble(c, p.raw).value;
    var m: map<string, Double> := map[];
    assert [p][1..] == [] && m[p.key := v] == map[p.key := v];
    assert ReadPairs(c, [p], m) == ReadPairs(c, [], m[p.key := v]);
  }

  lemma WordWithNul(t: string, x: string)
    requires NumberText(t) && forall k :: 0 <= k < |x| ==> !EndsScalar(x[k])
    ensures IsValue(t + "\0" + x)
  {
    var w := t + "\0" + x;
    forall k | 0 <= k < |w| ensures !EndsScalar(w[k]) {
      if k < |t| {
        assert NumberChar(t[k]) && w[k] == t[k];
      } else if k > |t| {
        assert w[k] == x[k - |t| - 1];
      }
    }
    assert NumberChar(t[0]) && w[0] == t[0];
    assert Fits(Word(w)) && Print(Word(w)) == w;
  }

  lemma ParsesUpToNul(c: Codec, t: string, x: string)
    requires NumberText(t) && IsValue(t + "\0" + x)
    ensures ParseDouble(c, t + "\0" + x) == c.strtod(t)
  {
    var w := t + "\0" + x;
    ValueHasNoSpaceAround(w);
    TrimIs("", w, "");
    assert "" + w + "" == w;
    assert forall k :: 0 <= k < |t| ==> NumberChar(t[k]);
    CutAtNul(t, x);
    hide Trim;
    hide IsValue;
  }

  lemma {:induction false} CutAtNul(t: string, x: string)
    requires NulFree(t)
    ensures CString(t + "\0" + x) == t
  {
    var w := t + "\0" + x;
    if t != "" {
      assert w[1..] == t[1..] + "\0" + x;
      CutAtNul(t[1..], x);
    }
  }

  // A well-formed object with a number that cannot be read, for its range say, is
  // refused by flattening.
  lemma UnreadableNumberRefused(c: Codec, t: string)
    requires JsonTree.ScalarText(t) && t != "true" && t != "false" && t != "null" && ParseDouble(c, t) == None
    ensures FlattenText(c, "{\"a\":" + t + "}", "") == None
  {
    assert JsonTree.Plain(t[0]);
    assert Fits(Word(t)) && Print(Word(t)) == t;
    OneMember(t);
    hide Tokens;
    hide JsonTree.ScalarText;
    hide ParseDouble;
    var s := "{\"a\":" + t + "}";
    TokensAreShorter(s);
    var ps := [Pair("a", t)];
    assert ps[0].raw == t;
    assert FlattenPair(c, ps[0], "", |s|) == None;
    assert FlattenPairs(c, ps, "", |s|) == None;
  }
}
