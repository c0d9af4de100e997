/** The members of an object as they stand in a text: keys, white space and the texts
    of the values.  Whatever the values are, as long as skip_json_value ends where they
    end, the tokenizer of src/json_util.cpp:215-273 reports exactly these members. */
module JsonEntries {
  import opened Text
  import opened JsonScan

  // One member: white space at four places, the key between its quotes and the text of
  // the value.
  datatype Entry = Entry(before: string, rawKey: string, afterKey: string, beforeValue: string, text: string, after: string)

  predicate SpacedEntry(e: Entry) {
    AllSpace(e.before) && StringBody(e.rawKey) && AllSpace(e.afterKey) && AllSpace(e.beforeValue) && AllSpace(e.after)
  }

  function PrintEntry(e: Entry): string {
    e.before + ("\"" + ((e.rawKey + "\"") + (e.afterKey + (":" + (e.beforeValue + (e.text + e.after))))))
  }

  function Comma(more: bool): string {
    if more then "," else ""
  }

  function PrintEntries(es: seq<Entry>): string {
    if es == [] then "" else PrintEntry(es[0]) + (Comma(|es| > 1) + PrintEntries(es[1..]))
  }

  function EntryPairs(es: seq<Entry>): seq<Pair> {
    if es == [] then [] else [Pair(Unescape(es[0].rawKey), es[0].text)] + EntryPairs(es[1..])
  }

  // skip_json_value ends where t ends, in every text in which a value may end there.
  ghost predicate EndsWhereItEnds(t: string) {
    t != "" && !IsSpace(t[0]) &&
    forall s, i: nat ::
      At(s, i, t) && i + |t| < |s| && EndsScalar(s[i + |t|]) ==> ValueEnd(s, i) == Some(i + |t|)
  }

  ghost predicate ReadableEntries(es: seq<Entry>) {
    forall k :: 0 <= k < |es| ==> SpacedEntry(es[k]) && EndsWhereItEnds(es[k].text)
  }

  // ----- where the parts stand ------------------------------------------------

  lemma {:induction false} WsEndAt(s: string, i: nat, ws: string)
    requires AllSpace(ws) && At(s, i, ws)
    requires i + |ws| >= |s| || !IsSpace(s[i + |ws|])
    ensures WsEnd(s, i) == i + |ws|
    decreases |ws|
  {
    if ws != "" {
      AtChars(s, i, ws);
      assert s[i + 0] == ws[0];
      assert ws == ws[..1] + ws[1..];
      AtSplit(s, i, ws[..1], ws[1..]);
      WsEndAt(s, i + 1, ws[1..]);
    }
  }

  lemma {:induction false} ScalarEndAt(s: string, i: nat, t: string)
    requires At(s, i, t) && forall k :: 0 <= k < |t| ==> !EndsScalar(t[k])
    requires i + |t| < |s| && EndsScalar(s[i + |t|])
    ensures ScalarEnd(s, i) == i + |t|
    decreases |t|
  {
    if t != "" {
      AtChars(s, i, t);
      assert s[i + 0] == t[0];
      assert t == t[..1] + t[1..];
      AtSplit(s, i, t[..1], t[1..]);
      ScalarEndAt(s, i + 1, t[1..]);
    }
  }

  lemma FirstOfNonSpace(s: string, i: nat, c: char)
    requires At(s, i, [c])
    ensures i < |s| && s[i] == c
  {
    AtChars(s, i, [c]);
    assert s[i + 0] == c;
  }

  lemma EntryParts(e: Entry, s: string, i: nat)
    requires At(s, i, PrintEntry(e))
    ensures
      var k := i + |e.before|;
      var a := k + 1 + |e.rawKey| + 1;
      var v := a + |e.afterKey| + 1 + |e.beforeValue|;
      At(s, i, e.before) && At(s, k, "\"") && At(s, k + 1, e.rawKey + "\"") && At(s, k + 1, e.rawKey) &&
      At(s, a, e.afterKey) && At(s, a + |e.afterKey|, ":") && At(s, a + |e.afterKey| + 1, e.beforeValue) &&
      At(s, v, e.text) && At(s, v + |e.text|, e.after) &&
      i + |PrintEntry(e)| == v + |e.text| + |e.after|
  {
    hide At;
    var t := e.text;
    var k := i + |e.before|;
    var a := k + 1 + |e.rawKey| + 1;
    AtSplit(s, i, e.before, "\"" + ((e.rawKey + "\"") + (e.afterKey + (":" + (e.beforeValue + (t + e.after))))));
    AtSplit(s, k, "\"", (e.rawKey + "\"") + (e.afterKey + (":" + (e.beforeValue + (t + e.after)))));
    AtSplit(s, k + 1, e.rawKey + "\"", e.afterKey + (":" + (e.beforeValue + (t + e.after))));
    AtSplit(s, k + 1, e.rawKey, "\"");
    AtSplit(s, a, e.afterKey, ":" + (e.beforeValue + (t + e.after)));
    AtSplit(s, a + |e.afterKey|, ":", e.beforeValue + (t + e.after));
    AtSplit(s, a + |e.afterKey| + 1, e.beforeValue, t + e.after);
    AtSplit(s, a + |e.afterKey| + 1 + |e.beforeValue|, t, e.after);
  }

  // ----- the tokenizer finds them ---------------------------------------------

  // The key of a printed entry as the tokenizer reads it.
  lemma KeyScan(e: Entry, s: string, i: nat)
    requires SpacedEntry(e) && At(s, i, PrintEntry(e))
    ensures
      var k := i + |e.before|;
      var a := k + 1 + |e.rawKey| + 1;
      var c := a + |e.afterKey|;
      WsEnd(s, i) == k && k < |s| && s[k] == '\"' && StringEnd(s, k + 1) == Some(a) && a <= |s| &&
      s[k + 1..a - 1] == e.rawKey && WsEnd(s, a) == c && c < |s| && s[c] == ':'
  {
    hide At;
    hide PrintEntry;
    hide WsEnd;
    hide StringEnd;
    EntryParts(e, s, i);
    var k := i + |e.before|;
    var a := k + 1 + |e.rawKey| + 1;
    var c := a + |e.afterKey|;
    FirstOfNonSpace(s, k, '\"');
    WsEndAt(s, i, e.before);
    StringEndAt(s, k + 1, e.rawKey);
    FirstOfNonSpace(s, c, ':');
    WsEndAt(s, a, e.afterKey);
    AtIs(s, k + 1, e.rawKey);
  }

  lemma EndsHere(t: string, s: string, i: nat)
    requires EndsWhereItEnds(t) && At(s, i, t) && i + |t| < |s| && EndsScalar(s[i + |t|])
    ensures ValueEnd(s, i) == Some(i + |t|) && !IsSpace(s[i]) && t != ""
  {
    hide ValueEnd;
    AtChars(s, i, t);
    assert s[i + 0] == t[0];
  }

  lemma SpaceEndsScalar(ws: string, s: string, n: nat)
    requires AllSpace(ws) && At(s, n, ws)
    ensures ws != "" ==> n < |s| && EndsScalar(s[n])
  {
    AtChars(s, n, ws);
    assert ws != "" ==> s[n + 0] == ws[0] && IsSpace(ws[0]);
  }

  // Its value, and the white space around that.
  lemma ValueScan(e: Entry, s: string, i: nat)
    requires SpacedEntry(e) && EndsWhereItEnds(e.text) && At(s, i, PrintEntry(e))
    requires i + |PrintEntry(e)| < |s| && EndsScalar(s[i + |PrintEntry(e)|]) && !IsSpace(s[i + |PrintEntry(e)|])
    ensures
      var c := i + |e.before| + 1 + |e.rawKey| + 1 + |e.afterKey|;
      var v := c + 1 + |e.beforeValue|;
      var n := v + |e.text|;
      WsEnd(s, c + 1) == v && ValueEnd(s, v) == Some(n) && n <= |s| && s[v..n] == e.text &&
      WsEnd(s, n) == i + |PrintEntry(e)|
  {
    hide At;
    hide PrintEntry;
    hide WsEnd;
    hide StringEnd;
    hide ValueEnd;
    hide EndsWhereItEnds;
    hide AllSpace;
    EntryParts(e, s, i);
    var c := i + |e.before| + 1 + |e.rawKey| + 1 + |e.afterKey|;
    var v := c + 1 + |e.beforeValue|;
    var n := v + |e.text|;
    SpaceEndsScalar(e.after, s, n);
    EndsHere(e.text, s, v);
    WsEndAt(s, c + 1, e.beforeValue);
    WsEndAt(s, n, e.after);
    AtIs(s, v, e.text);
  }

  lemma EntryAt(e: Entry, s: string, i: nat)
    requires SpacedEntry(e) && EndsWhereItEnds(e.text) && At(s, i, PrintEntry(e))
    requires i + |PrintEntry(e)| < |s| && EndsScalar(s[i + |PrintEntry(e)|]) && !IsSpace(s[i + |PrintEntry(e)|])
    ensures MemberAt(s, i) == Some(Member(Pair(Unescape(e.rawKey), e.text), i + |PrintEntry(e)|))
  {
    hide At;
    hide PrintEntry;
    hide WsEnd;
    hide StringEnd;
    hide ValueEnd;
    hide Unescape;
    hide EndsWhereItEnds;
    hide SpacedEntry;
    KeyScan(e, s, i);
    ValueScan(e, s, i);
  }

  lemma {:induction false} EntriesAt(es: seq<Entry>, s: string, i: nat)
    requires es != [] && ReadableEntries(es) && At(s, i, PrintEntries(es) + "}")
    ensures MembersFrom(s, i) == Some(EntryPairs(es))
    decreases |es|
  {
    hide *;
    EntriesStand(es, s, i);
    var p := i + |PrintEntry(es[0])|;
    EntryAt(es[0], s, i);
    if |es| > 1 {
      EntriesAt(es[1..], s, p + 1);
    }
    MembersFromAt(s, i);
    EntryPairsStep(es);
  }

  lemma EntriesStand(es: seq<Entry>, s: string, i: nat)
    requires es != [] && ReadableEntries(es) && At(s, i, PrintEntries(es) + "}")
    ensures
      var p := i + |PrintEntry(es[0])|;
      && SpacedEntry(es[0]) && EndsWhereItEnds(es[0].text) && ReadableEntries(es[1..])
      && At(s, i, PrintEntry(es[0])) && p < |s| && EndsScalar(s[p]) && !IsSpace(s[p])
      && s[p] == (if |es| > 1 then ',' else '}')
      && (|es| > 1 ==> At(s, p + 1, PrintEntries(es[1..]) + "}"))
  {
    hide At;
    hide PrintEntry;
    hide SpacedEntry;
    hide EndsWhereItEnds;
    assert SpacedEntry(es[0]) && EndsWhereItEnds(es[0].text);
    var m, rest := PrintEntry(es[0]), es[1..];
    assert forall k :: 0 <= k < |rest| ==> rest[k] == es[k + 1];
    var c, r := Comma(|es| > 1), PrintEntries(rest);
    AtSplit(s, i, m + (c + r), "}");
    AtSplit(s, i, m, c + r);
    AtSplit(s, i + |m|, c, r);
    FirstOfNonSpace(s, i + |m|, if |es| > 1 then ',' else '}');
    if |es| > 1 {
      AtSplit(s, i + |m| + 1, r, "}");
    }
  }

  lemma MembersFromAt(s: string, i: nat)
    requires MemberAt(s, i).Some? && MemberAt(s, i).value.next < |s|
    ensures
      var Member(pair, p) := MemberAt(s, i).value;
      && (s[p] == '}' ==> MembersFrom(s, i) == Some([pair]))
      && (s[p] == ',' && MembersFrom(s, p + 1).Some? ==> MembersFrom(s, i) == Some([pair] + MembersFrom(s, p + 1).value))
  {
    hide MemberAt;
  }

  lemma EntryPairsStep(es: seq<Entry>)
    requires es != []
    ensures EntryPairs(es) ==
      if |es| == 1 then [Pair(Unescape(es[0].rawKey), es[0].text)]
      else [Pair(Unescape(es[0].rawKey), es[0].text)] + EntryPairs(es[1..])
  {
    hide Unescape;
  }

  // An object: white space, a brace, white space if there are no members, the members,
  // a brace.
  function PrintObject(ws: string, inner: string, es: seq<Entry>): string {
    ws + ("{" + (inner + (PrintEntries(es) + "}")))
  }

  // The tokenizer reports exactly the members of an object at the start of a text.
  lemma TokensOfEntries(ws: string, inner: string, es: seq<Entry>, s: string)
    requires AllSpace(ws) && AllSpace(inner) && ReadableEntries(es) && (es != [] ==> inner == "")
    requires At(s, 0, PrintObject(ws, inner, es))
    ensures Tokens(s) == Some(EntryPairs(es))
  {
    hide At;
    hide MembersFrom;
    hide WsEnd;
    hide PrintEntries;
    hide EndsWhereItEnds;
    var text := PrintEntries(es);
    AtSplit(s, 0, ws, "{" + (inner + (text + "}")));
    AtSplit(s, |ws|, "{", inner + (text + "}"));
    AtSplit(s, |ws| + 1, inner, text + "}");
    FirstOfNonSpace(s, |ws|, '{');
    WsEndAt(s, 0, ws);
    if es == [] {
      assert text == "" by { NoEntries(); }
      AtSplit(s, |ws| + 1 + |inner|, text, "}");
      FirstOfNonSpace(s, |ws| + 1 + |inner|, '}');
      WsEndAt(s, |ws| + 1, inner);
    } else {
      LeadingSpace(s, |ws| + 1);
      LeadingQuote(es, s, |ws| + 1);
      EntriesAt(es, s, |ws| + 1);
    }
  }

  lemma NoEntries()
    ensures PrintEntries([]) == "" && EntryPairs([]) == []
  {
  }

  lemma LeadingQuote(es: seq<Entry>, s: string, i: nat)
    requires es != [] && SpacedEntry(es[0]) && At(s, i, PrintEntries(es) + "}")
    ensures WsEnd(s, i) < |s| && s[WsEnd(s, i)] == '\"'
  {
    hide At;
    hide WsEnd;
    hide PrintEntry;
    AtSplit(s, i, PrintEntries(es), "}");
    AtSplit(s, i, PrintEntry(es[0]), Comma(|es| > 1) + PrintEntries(es[1..]));
    KeyScan(es[0], s, i);
  }

  // The tokenizer skips white space before the first member twice.
  lemma LeadingSpace(s: string, i: nat)
    ensures MembersFrom(s, WsEnd(s, i)) == MembersFrom(s, i)
  {
    hide MemberAt;
    WsEndTwice(s, i);
    SameMember(s, WsEnd(s, i), i);
  }

  lemma SameMember(s: string, i: nat, j: nat)
    requires WsEnd(s, i) == WsEnd(s, j)
    ensures MemberAt(s, i) == MemberAt(s, j)
  {
    hide WsEnd;
    hide StringEnd;
    hide ValueEnd;
    hide Unescape;
  }

  lemma {:induction false} WsEndTwice(s: string, i: nat)
    ensures WsEnd(s, WsEnd(s, i)) == WsEnd(s, i)
    decreases |s| - i
  {
    if i < |s| && IsSpace(s[i]) {
      WsEndTwice(s, i + 1);
    }
  }
}
