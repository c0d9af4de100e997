/** The language that the tokenizer of src/json_util.cpp:54-101 and 215-273 accepts.
    It is wider than JSON: a bracketed value is any text in which the brackets of its
    own kind are balanced outside strings, a scalar is any run of characters up to a
    comma, a closing bracket or white space, and text behind the object is ignored.
    A text is accepted exactly if it is in this language, and what is reported is what
    it says. */
module JsonLenient {
  import opened Text
  import opened JsonScan
  import opened JsonEntries
  import JsonTree

  datatype Value =
    | Quoted(raw: string)
    | Bracketed(open: char, inside: Run)
    | Word(text: string)

  // What stands between two brackets: other characters, strings, and further pairs of
  // brackets of the same kind.
  datatype Run =
    | Nothing
    | Other(c: char, rest: Run)
    | Text(raw: string, rest: Run)
    | Deeper(inner: Run, rest: Run)

  function Close(open: char): char {
    if open == '{' then '}' else ']'
  }

  predicate FitsRun(r: Run, open: char) {
    match r
    case Nothing => true
    case Other(c, rest) => c != '\"' && c != open && c != Close(open) && FitsRun(rest, open)
    case Text(raw, rest) => StringBody(raw) && FitsRun(rest, open)
    case Deeper(inner, rest) => FitsRun(inner, open) && FitsRun(rest, open)
  }

  predicate Fits(v: Value) {
    match v
    case Quoted(raw) => StringBody(raw)
    case Bracketed(open, inside) => (open == '{' || open == '[') && FitsRun(inside, open)
    case Word(t) =>
      t != "" && t[0] != '\"' && t[0] != '{' && t[0] != '[' && forall k :: 0 <= k < |t| ==> !EndsScalar(t[k])
  }

  function PrintRun(r: Run, open: char): string {
    match r
    case Nothing => ""
    case Other(c, rest) => [c] + PrintRun(rest, open)
    case Text(raw, rest) => "\"" + ((raw + "\"") + PrintRun(rest, open))
    case Deeper(inner, rest) => [open] + (PrintRun(inner, open) + ([Close(open)] + PrintRun(rest, open)))
  }

  function Print(v: Value): string {
    match v
    case Quoted(raw) => "\"" + (raw + "\"")
    case Bracketed(open, inside) => [open] + (PrintRun(inside, open) + [Close(open)])
    case Word(t) => t
  }

  ghost predicate IsValue(t: string) {
    exists v :: Fits(v) && Print(v) == t
  }

  datatype Document = Document(ws: string, inner: string, entries: seq<Entry>)

  // The text starts with the document; anything may follow.
  ghost predicate StartsWith(s: string, d: Document) {
    && AllSpace(d.ws) && AllSpace(d.inner) && (d.entries != [] ==> d.inner == "")
    && (forall k :: 0 <= k < |d.entries| ==> SpacedEntry(d.entries[k]) && IsValue(d.entries[k].text))
    && At(s, 0, PrintObject(d.ws, d.inner, d.entries))
  }

  // ----- what is in the language is accepted ----------------------------------

  lemma {:induction false} NestOverRun(r: Run, s: string, i: nat, open: char, d: nat)
    requires FitsRun(r, open) && At(s, i, PrintRun(r, open)) && (open == '{' || open == '[') && d >= 1
    ensures NestEnd(s, i, open, Close(open), d) == NestEnd(s, i + |PrintRun(r, open)|, open, Close(open), d)
    decreases r
  {
    hide At;
    hide NestEnd;
    hide StringBody;
    hide PrintRun;
    match r
    case Nothing =>
      assert PrintRun(Nothing, open) == "" by { NoRun(open); }
    case Other(c, rest) =>
      OtherParts(c, rest, s, i, open, d);
      NestOverRun(rest, s, i + 1, open, d);
    case Text(raw, rest) =>
      TextParts(raw, rest, s, i, open);
      JsonTree.NestString(s, i, raw, open, Close(open), d);
      NestOverRun(rest, s, i + 1 + |raw| + 1, open, d);
    case Deeper(inner, rest) =>
      var x := PrintRun(inner, open);
      DeeperParts(inner, rest, s, i, open);
      JsonTree.NestOne(s, i, open, open, Close(open), d);
      NestOverRun(inner, s, i + 1, open, d + 1);
      JsonTree.NestOne(s, i + 1 + |x|, Close(open), open, Close(open), d + 1);
      NestOverRun(rest, s, i + 1 + |x| + 1, open, d);
  }

  lemma NoRun(open: char)
    ensures PrintRun(Nothing, open) == ""
  {
  }

  lemma OtherParts(c: char, rest: Run, s: string, i: nat, open: char, d: nat)
    requires At(s, i, PrintRun(Other(c, rest), open)) && (open == '{' || open == '[') && d >= 1
    requires c != '\"' && c != open && c != Close(open)
    ensures At(s, i + 1, PrintRun(rest, open)) && |PrintRun(Other(c, rest), open)| == 1 + |PrintRun(rest, open)|
    ensures NestEnd(s, i, open, Close(open), d) == NestEnd(s, i + 1, open, Close(open), d)
  {
    hide At;
    hide NestEnd;
    AtSplit(s, i, [c], PrintRun(rest, open));
    JsonTree.NestOne(s, i, c, open, Close(open), d);
  }

  lemma TextParts(raw: string, rest: Run, s: string, i: nat, open: char)
    requires At(s, i, PrintRun(Text(raw, rest), open))
    ensures At(s, i, "\"") && At(s, i + 1, raw + "\"") && At(s, i + 1 + |raw| + 1, PrintRun(rest, open))
    ensures |PrintRun(Text(raw, rest), open)| == 1 + |raw| + 1 + |PrintRun(rest, open)|
  {
    hide At;
    AtSplit(s, i, "\"", (raw + "\"") + PrintRun(rest, open));
    AtSplit(s, i + 1, raw + "\"", PrintRun(rest, open));
  }

  lemma DeeperParts(inner: Run, rest: Run, s: string, i: nat, open: char)
    requires At(s, i, PrintRun(Deeper(inner, rest), open))
    ensures
      var x := PrintRun(inner, open);
      && At(s, i, [open]) && At(s, i + 1, x) && At(s, i + 1 + |x|, [Close(open)])
      && At(s, i + 1 + |x| + 1, PrintRun(rest, open))
      && |PrintRun(Deeper(inner, rest), open)| == 1 + |x| + 1 + |PrintRun(rest, open)|
  {
    hide At;
    var x, y := PrintRun(inner, open), PrintRun(rest, open);
    AtSplit(s, i, [open], x + ([Close(open)] + y));
    AtSplit(s, i + 1, x, [Close(open)] + y);
    AtSplit(s, i + 1 + |x|, [Close(open)], y);
  }

  lemma ValueEndsThere(v: Value, s: string, i: nat)
    requires Fits(v) && At(s, i, Print(v)) && i + |Print(v)| < |s| && EndsScalar(s[i + |Print(v)|])
    ensures ValueEnd(s, i) == Some(i + |Print(v)|)
  {
    hide NestEnd;
    hide ScalarEnd;
    hide StringEnd;
    hide At;
    hide PrintRun;
    AtChars(s, i, Print(v));
    assert s[i + 0] == Print(v)[0];
    match v
    case Quoted(raw) =>
      AtSplit(s, i, "\"", raw + "\"");
      StringEndAt(s, i + 1, raw);
    case Bracketed(open, inside) =>
      var x := PrintRun(inside, open);
      AtSplit(s, i, [open], x + [Close(open)]);
      AtSplit(s, i + 1, x, [Close(open)]);
      NestOverRun(inside, s, i + 1, open, 1);
      JsonTree.NestCloses(s, i + 1 + |x|, open, Close(open));
    case Word(t) =>
      ScalarEndAt(s, i, t);
  }

  lemma ValueEndsWhereItEnds(t: string)
    requires IsValue(t)
    ensures EndsWhereItEnds(t)
  {
    var v :| Fits(v) && Print(v) == t;
    assert t != "" && !IsSpace(t[0]) by {
      assert v.Word? ==> !EndsScalar(t[0]);
    }
    hide *;
    forall s, i: nat | At(s, i, t) && i + |t| < |s| && EndsScalar(s[i + |t|]) ensures ValueEnd(s, i) == Some(i + |t|) {
      ValueEndsThere(v, s, i);
    }
    EndsIs(t);
  }

  lemma EndsIs(t: string)
    requires t != "" && !IsSpace(t[0])
    requires forall s, i: nat :: At(s, i, t) && i + |t| < |s| && EndsScalar(s[i + |t|]) ==> ValueEnd(s, i) == Some(i + |t|)
    ensures EndsWhereItEnds(t)
  {
    hide At;
    hide ValueEnd;
    hide EndsScalar;
    hide IsSpace;
  }

  // ----- what is accepted is in the language ----------------------------------

  lemma {:induction false} WsEndIs(s: string, i: nat)
    requires i <= |s|
    ensures WsEnd(s, i) <= |s| && AllSpace(s[i..WsEnd(s, i)])
    decreases |s| - i
  {
    if i < |s| && IsSpace(s[i]) {
      WsEndIs(s, i + 1);
      var e := WsEnd(s, i + 1);
      assert s[i..e] == [s[i]] + s[i + 1..e];
    }
  }

  lemma {:induction false} StringEndIs(s: string, i: nat)
    requires StringEnd(s, i).Some?
    ensures
      var e := StringEnd(s, i).value;
      s[e - 1] == '\"' && StringBody(s[i..e - 1])
    decreases |s| - i
  {
    var e := StringEnd(s, i).value;
    var raw := s[i..e - 1];
    if s[i] == '\\' {
      StringEndIs(s, i + 2);
      assert raw[0] == '\\' && raw[2..] == s[i + 2..e - 1];
    } else if s[i] != '\"' {
      StringEndIs(s, i + 1);
      assert raw[0] == s[i] && raw[1..] == s[i + 1..e - 1];
    }
  }

  // The rest of d open brackets: a run, the bracket that closes the innermost one, and so on.
  function PrintOpen(rs: seq<Run>, open: char): string {
    if rs == [] then "" else PrintRun(rs[0], open) + ([Close(open)] + PrintOpen(rs[1..], open))
  }

  predicate FitOpen(rs: seq<Run>, open: char) {
    forall k :: 0 <= k < |rs| ==> FitsRun(rs[k], open)
  }

  // The same with something more in front of the first run.
  lemma InFront(r: Run, rs: seq<Run>, open: char, x: string)
    requires rs != [] && PrintRun(r, open) == x + PrintRun(rs[0], open) && FitsRun(r, open) && FitOpen(rs, open)
    ensures PrintOpen([r] + rs[1..], open) == x + PrintOpen(rs, open) && FitOpen([r] + rs[1..], open)
  {
    hide PrintRun;
    hide FitsRun;
    var qs := [r] + rs[1..];
    assert qs[1..] == rs[1..];
    assert forall k :: 0 < k < |qs| ==> qs[k] == rs[k];
    assert PrintOpen(rs, open) == PrintRun(rs[0], open) + ([Close(open)] + PrintOpen(rs[1..], open));
  }

  lemma OneMore(c: char, rs: seq<Run>, open: char) returns (qs: seq<Run>)
    requires rs != [] && FitOpen(rs, open) && c != '\"' && c != open && c != Close(open)
    ensures |qs| == |rs| && FitOpen(qs, open) && PrintOpen(qs, open) == [c] + PrintOpen(rs, open)
  {
    qs := [Other(c, rs[0])] + rs[1..];
    InFront(qs[0], rs, open, [c]);
  }

  lemma StringMore(raw: string, rs: seq<Run>, open: char) returns (qs: seq<Run>)
    requires rs != [] && FitOpen(rs, open) && StringBody(raw)
    ensures |qs| == |rs| && FitOpen(qs, open) && PrintOpen(qs, open) == ("\"" + (raw + "\"")) + PrintOpen(rs, open)
  {
    qs := [Text(raw, rs[0])] + rs[1..];
    assert PrintRun(qs[0], open) == ("\"" + (raw + "\"")) + PrintRun(rs[0], open);
    hide StringBody;
    assert FitsRun(qs[0], open) by { assert FitsRun(rs[0], open); }
    InFront(qs[0], rs, open, "\"" + (raw + "\""));
  }

  // An opening bracket takes the two innermost runs together.
  lemma OneDeeper(rs: seq<Run>, open: char) returns (qs: seq<Run>)
    requires |rs| >= 2 && FitOpen(rs, open)
    ensures |qs| == |rs| - 1 && FitOpen(qs, open) && PrintOpen(qs, open) == [open] + PrintOpen(rs, open)
  {
    var rest, r := rs[1..], Deeper(rs[0], rs[1]);
    qs := [r] + rest[1..];
    assert rest[0] == rs[1] && forall k :: 0 <= k < |rest| ==> rest[k] == rs[k + 1];
    var x, y := PrintRun(rs[0], open), PrintRun(rs[1], open);
    assert FitsRun(r, open) by { assert FitsRun(rs[0], open) && FitsRun(rs[1], open); }
    assert PrintRun(r, open) == ([open] + (x + [Close(open)])) + y;
    hide PrintRun;
    hide FitsRun;
    InFront(r, rest, open, [open] + (x + [Close(open)]));
    assert PrintOpen(rs, open) == x + ([Close(open)] + PrintOpen(rest, open));
    hide PrintOpen;
  }

  lemma OneClosed(rs: seq<Run>, open: char) returns (qs: seq<Run>)
    requires FitOpen(rs, open)
    ensures |qs| == |rs| + 1 && FitOpen(qs, open) && PrintOpen(qs, open) == [Close(open)] + PrintOpen(rs, open)
  {
    qs := [Nothing] + rs;
    assert qs[1..] == rs && FitsRun(Nothing, open);
    assert forall k :: 0 < k < |qs| ==> qs[k] == rs[k - 1];
    assert PrintRun(Nothing, open) == "";
    hide FitsRun;
  }

  lemma {:induction false} NestEndIs(s: string, i: nat, open: char, d: nat) returns (rs: seq<Run>)
    requires (open == '{' || open == '[') && d >= 1 && NestEnd(s, i, open, Close(open), d).Some?
    ensures |rs| == d && FitOpen(rs, open)
    ensures s[i..NestEnd(s, i, open, Close(open), d).value] == PrintOpen(rs, open)
    decreases |s| - i
  {
    hide *;
    NestEndStep(s, i, open, d);
    var close := Close(open);
    var e := NestEnd(s, i, open, close, d).value;
    if s[i] == '\"' {
      var j := StringEnd(s, i + 1).value;
      StringEndIs(s, i + 1);
      var more := NestEndIs(s, j, open, d);
      rs := StringMore(s[i + 1..j - 1], more, open);
      QuotedPart(s, i, j, e);
    } else {
      FirstPart(s, i, e);
      if s[i] == open {
        var more := NestEndIs(s, i + 1, open, d + 1);
        rs := OneDeeper(more, open);
      } else if s[i] == close && d == 1 {
        NothingOpen(open);
        rs := OneClosed([], open);
      } else if s[i] == close {
        var more := NestEndIs(s, i + 1, open, d - 1);
        rs := OneClosed(more, open);
      } else {
        var more := NestEndIs(s, i + 1, open, d);
        rs := OneMore(s[i], more, open);
      }
    }
  }

  lemma FirstPart(s: string, i: nat, e: nat)
    requires i < e <= |s|
    ensures s[i..e] == [s[i]] + s[i + 1..e] && (e == i + 1 ==> s[i + 1..e] == "")
  {
  }

  lemma QuotedPart(s: string, i: nat, j: nat, e: nat)
    requires i + 1 < j <= e <= |s| && s[i] == '\"' && s[j - 1] == '\"'
    ensures s[i..e] == ("\"" + (s[i + 1..j - 1] + "\"")) + s[j..e]
  {
  }

  lemma NestEndStep(s: string, i: nat, open: char, d: nat)
    requires (open == '{' || open == '[') && d >= 1 && NestEnd(s, i, open, Close(open), d).Some?
    ensures
      var close, r := Close(open), NestEnd(s, i, open, Close(open), d);
      && i < |s| && open != '\"' && close != '\"' && open != close && i < r.value <= |s|
      && if s[i] == '\"' then
           StringEnd(s, i + 1).Some? && i + 1 < StringEnd(s, i + 1).value <= r.value &&
           NestEnd(s, StringEnd(s, i + 1).value, open, close, d) == r
         else if s[i] == open then NestEnd(s, i + 1, open, close, d + 1) == r
         else if s[i] == close then if d == 1 then r.value == i + 1 else NestEnd(s, i + 1, open, close, d - 1) == r
         else NestEnd(s, i + 1, open, close, d) == r
  {
    hide StringEnd;
  }

  lemma NothingOpen(open: char)
    ensures PrintOpen([], open) == "" && FitOpen([], open)
  {
  }

  lemma {:induction false} ScalarEndIs(s: string, i: nat)
    requires i <= |s|
    ensures ScalarEnd(s, i) <= |s| && forall k :: i <= k < ScalarEnd(s, i) ==> !EndsScalar(s[k])
    decreases |s| - i
  {
    if i < |s| && !EndsScalar(s[i]) {
      ScalarEndIs(s, i + 1);
    }
  }

  lemma ValueEndIs(s: string, i: nat)
    requires ValueEnd(s, i).Some?
    ensures IsValue(s[i..ValueEnd(s, i).value])
  {
    hide NestEnd;
    hide StringEnd;
    hide ScalarEnd;
    var e := ValueEnd(s, i).value;
    var t := s[i..e];
    if s[i] == '\"' {
      StringEndIs(s, i + 1);
      var raw := s[i + 1..e - 1];
      assert t == "\"" + (raw + "\"");
      assert Fits(Quoted(raw)) && Print(Quoted(raw)) == t;
    } else if s[i] == '{' || s[i] == '[' {
      var open := s[i];
      var rs := NestEndIs(s, i + 1, open, 1);
      OnlyOne(rs, open);
      assert t == [open] + s[i + 1..e];
      var v := Bracketed(open, rs[0]);
      assert Fits(v) && Print(v) == t;
    } else {
      ScalarEndIs(s, i);
      assert Fits(Word(t)) && Print(Word(t)) == t;
    }
  }

  lemma OnlyOne(rs: seq<Run>, open: char)
    requires |rs| == 1 && FitOpen(rs, open)
    ensures PrintOpen(rs, open) == PrintRun(rs[0], open) + [Close(open)] && FitsRun(rs[0], open)
  {
    hide PrintRun;
    assert rs[1..] == [];
    assert [Close(open)] + "" == [Close(open)];
  }

  lemma MemberAtIs(s: string, i: nat) returns (e: Entry)
    requires i <= |s| && MemberAt(s, i).Some?
    ensures
      var m := MemberAt(s, i).value;
      && SpacedEntry(e) && IsValue(e.text) && m.pair == Pair(Unescape(e.rawKey), e.text)
      && m.next <= |s| && s[i..m.next] == PrintEntry(e)
  {
    hide *;
    var k, a, c, v, n := MemberAtStep(s, i);
    WsEndIs(s, i);
    StringEndIs(s, k + 1);
    WsEndIs(s, a);
    WsEndIs(s, c + 1);
    ValueEndIs(s, v);
    var next := WsEnd(s, n);
    WsEndIs(s, n);
    e := Entry(s[i..k], s[k + 1..a - 1], s[a..c], s[c + 1..v], s[v..n], s[n..next]);
    SevenParts(s, i, k, a, c, v, n, next);
    IsSpaced(e);
  }

  lemma IsSpaced(e: Entry)
    requires AllSpace(e.before) && StringBody(e.rawKey) && AllSpace(e.afterKey) && AllSpace(e.beforeValue) && AllSpace(e.after)
    ensures SpacedEntry(e)
  {
  }

  // What the tokenizer looks at while it reads a member.
  lemma MemberAtStep(s: string, i: nat) returns (k: nat, a: nat, c: nat, v: nat, n: nat)
    requires i <= |s| && MemberAt(s, i).Some?
    ensures k == WsEnd(s, i) && i <= k < |s| && s[k] == '\"'
    ensures StringEnd(s, k + 1) == Some(a) && k + 1 <= a - 1 && a <= |s|
    ensures c == WsEnd(s, a) && a <= c < |s| && s[c] == ':'
    ensures v == WsEnd(s, c + 1) && c + 1 <= v
    ensures ValueEnd(s, v) == Some(n) && v < n <= |s| && n <= WsEnd(s, n)
    ensures MemberAt(s, i).value == Member(Pair(Unescape(s[k + 1..a - 1]), s[v..n]), WsEnd(s, n))
  {
    hide WsEnd;
    hide StringEnd;
    hide ValueEnd;
    hide Unescape;
    k := WsEnd(s, i);
    a := StringEnd(s, k + 1).value;
    c := WsEnd(s, a);
    v := WsEnd(s, c + 1);
    n := ValueEnd(s, v).value;
  }

  lemma SevenParts(s: string, i: nat, k: nat, a: nat, c: nat, v: nat, n: nat, next: nat)
    requires i <= k && k + 1 <= a - 1 && a <= c && c + 1 <= v <= n <= next <= |s|
    requires s[k] == '\"' && s[a - 1] == '\"' && s[c] == ':'
    ensures s[i..next] == PrintEntry(Entry(s[i..k], s[k + 1..a - 1], s[a..c], s[c + 1..v], s[v..n], s[n..next]))
  {
    assert s[v..next] == s[v..n] + s[n..next];
    assert s[c + 1..next] == s[c + 1..v] + s[v..next];
    assert s[c..next] == ":" + s[c + 1..next];
    assert s[a..next] == s[a..c] + s[c..next];
    assert s[k + 1..a] == s[k + 1..a - 1] + "\"";
    assert s[k + 1..next] == s[k + 1..a] + s[a..next];
    assert s[k..next] == "\"" + s[k + 1..next];
    assert s[i..next] == s[i..k] + s[k..next];
  }

  ghost predicate FitEntries(es: seq<Entry>) {
    forall k :: 0 <= k < |es| ==> SpacedEntry(es[k]) && IsValue(es[k].text)
  }

  lemma {:induction false} MembersFromIs(s: string, i: nat) returns (es: seq<Entry>)
    requires i <= |s| && MembersFrom(s, i).Some?
    ensures es != [] && FitEntries(es) && EntryPairs(es) == MembersFrom(s, i).value
    ensures At(s, i, PrintEntries(es) + "}")
    decreases |s| - i
  {
    hide *;
    MembersFromStep(s, i);
    var m := MemberAt(s, i).value;
    var e := MemberAtIs(s, i);
    var x := PrintEntry(e);
    if s[m.next] == ',' {
      var more := MembersFromIs(s, m.next + 1);
      es := [e] + more;
      InFrontOf(e, more);
      ThreeParts(s, i, x, ",", PrintEntries(more) + "}");
    } else {
      es := [e];
      Single(e);
      AtEnd(s, m.next + 1);
      ThreeParts(s, i, x, "}", "");
    }
  }

  lemma AtEnd(s: string, i: nat)
    requires i <= |s|
    ensures At(s, i, "")
  {
  }

  lemma MembersFromStep(s: string, i: nat)
    requires MembersFrom(s, i).Some?
    ensures MemberAt(s, i).Some?
    ensures
      var m := MemberAt(s, i).value;
      && m.next > i && m.next < |s| && (s[m.next] == ',' || s[m.next] == '}')
      && if s[m.next] == ','
         then MembersFrom(s, m.next + 1).Some? && MembersFrom(s, i).value == [m.pair] + MembersFrom(s, m.next + 1).value
         else MembersFrom(s, i).value == [m.pair]
  {
    hide MemberAt;
    MemberIsShorter(s, i);
  }

  lemma InFrontOf(e: Entry, es: seq<Entry>)
    requires SpacedEntry(e) && IsValue(e.text) && FitEntries(es) && es != []
    ensures FitEntries([e] + es) && EntryPairs([e] + es) == [Pair(Unescape(e.rawKey), e.text)] + EntryPairs(es)
    ensures PrintEntries([e] + es) + "}" == PrintEntry(e) + ("," + (PrintEntries(es) + "}"))
  {
    hide SpacedEntry;
    hide IsValue;
    hide Unescape;
    hide PrintEntries;
    var fs := [e] + es;
    assert fs[1..] == es && forall k :: 0 < k < |fs| ==> fs[k] == es[k - 1];
    PrintedInFront(e, es);
  }

  lemma PrintedInFront(e: Entry, es: seq<Entry>)
    requires es != []
    ensures PrintEntries([e] + es) + "}" == PrintEntry(e) + ("," + (PrintEntries(es) + "}"))
  {
    hide PrintEntry;
    var fs, x, y := [e] + es, PrintEntry(e), PrintEntries(es);
    assert fs[1..] == es;
    assert PrintEntries(fs) == x + ("," + y);
    hide PrintEntries;
    assert (x + ("," + y)) + "}" == x + ("," + (y + "}"));
  }

  lemma Single(e: Entry)
    requires SpacedEntry(e) && IsValue(e.text)
    ensures FitEntries([e]) && EntryPairs([e]) == [Pair(Unescape(e.rawKey), e.text)]
    ensures PrintEntries([e]) + "}" == PrintEntry(e) + ("}" + "")
  {
    hide SpacedEntry;
    hide IsValue;
    hide PrintEntry;
    hide Unescape;
    assert [e][1..] == [];
    assert PrintEntries([e]) == PrintEntry(e) + ("" + "");
  }

  lemma ThreeParts(s: string, i: nat, x: string, c: string, y: string)
    requires |c| == 1 && i + |x| < |s| && s[i..i + |x|] == x && s[i + |x|] == c[0] && At(s, i + |x| + 1, y)
    ensures At(s, i, x + (c + y))
  {
    assert s[i + |x|..i + |x| + 1] == c;
    AtSplit(s, i + |x|, c, y);
    AtSplit(s, i, x, c + y);
  }

  lemma TokensIs(s: string) returns (d: Document)
    requires Tokens(s).Some?
    ensures StartsWith(s, d) && EntryPairs(d.entries) == Tokens(s).value
  {
    hide *;
    TokensStep(s);
    var i := WsEnd(s, 0);
    WsEndIs(s, 0);
    var j := WsEnd(s, i + 1);
    WsEndIs(s, i + 1);
    if j < |s| && s[j] == '}' {
      d := Document(s[0..i], s[i + 1..j], []);
      NoEntries();
      EmptyObject(s, i, j);
      IsDocument(s, d);
    } else {
      LeadingSpace(s, i + 1);
      var es := MembersFromIs(s, i + 1);
      d := Document(s[0..i], "", es);
      ThreeParts(s, 0, s[0..i], "{", PrintEntries(es) + "}");
      FullObject(s[0..i], es);
      NothingIsSpace();
      IsDocument(s, d);
    }
  }

  lemma NothingIsSpace()
    ensures AllSpace("")
  {
  }

  lemma TokensStep(s: string)
    requires Tokens(s).Some?
    ensures
      var i := WsEnd(s, 0);
      && i < |s| && s[i] == '{' && i + 1 <= |s|
      && var j := WsEnd(s, i + 1);
         if j < |s| && s[j] == '}' then j >= i + 1 && Tokens(s).value == []
         else MembersFrom(s, j).Some? && Tokens(s) == MembersFrom(s, j)
  {
    hide MembersFrom;
  }

  lemma EmptyObject(s: string, i: nat, j: nat)
    requires i + 1 <= j < |s| && s[i] == '{' && s[j] == '}'
    ensures At(s, 0, PrintObject(s[0..i], s[i + 1..j], []))
  {
    assert PrintObject(s[0..i], s[i + 1..j], []) == s[0..i] + ("{" + (s[i + 1..j] + "}"));
    assert s[0..j + 1] == s[0..i] + ("{" + (s[i + 1..j] + "}"));
  }

  lemma FullObject(ws: string, es: seq<Entry>)
    ensures PrintObject(ws, "", es) == ws + ("{" + (PrintEntries(es) + "}"))
  {
    hide PrintEntries;
    var y := PrintEntries(es) + "}";
    assert "" + y == y;
  }

  lemma IsDocument(s: string, d: Document)
    requires AllSpace(d.ws) && AllSpace(d.inner) && (d.entries != [] ==> d.inner == "")
    requires d.entries == [] || FitEntries(d.entries)
    requires At(s, 0, PrintObject(d.ws, d.inner, d.entries))
    ensures StartsWith(s, d)
  {
    hide SpacedEntry;
    hide IsValue;
    hide PrintObject;
  }

  // The tokenizer accepts a text exactly if it starts with a document of the lenient
  // language, and then reports the members of that document.
  lemma TokensExactly(s: string, ps: seq<Pair>)
    ensures Tokens(s) == Some(ps) <==> exists d :: StartsWith(s, d) && EntryPairs(d.entries) == ps
  {
    hide Tokens;
    hide EntryPairs;
    if Tokens(s) == Some(ps) {
      var d := TokensIs(s);
    }
    forall d | StartsWith(s, d) ensures Tokens(s) == Some(EntryPairs(d.entries)) {
      DocumentRead(s, d);
    }
  }

  lemma DocumentRead(s: string, d: Document)
    requires StartsWith(s, d)
    ensures Tokens(s) == Some(EntryPairs(d.entries))
  {
    hide Tokens;
    hide IsValue;
    hide SpacedEntry;
    hide PrintObject;
    hide EndsWhereItEnds;
    forall k | 0 <= k < |d.entries| ensures SpacedEntry(d.entries[k]) && EndsWhereItEnds(d.entries[k].text) {
      ValueEndsWhereItEnds(d.entries[k].text);
    }
    TokensOfEntries(d.ws, d.inner, d.entries, s);
  }
}
