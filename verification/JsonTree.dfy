/** JSON documents as trees that remember their text: RFC 8259, section 2 to 7.
    Printing a tree gives a document with any white space at any place the grammar
    allows it; the lemmas say that the scanner of JsonScan finds exactly the parts
    the tree was built from. */
module JsonTree {
  import opened Text
  import opened JsonScan
  import opened JsonEntries

  // `raw` is the text between the quotes; `ws`, `before`, `after`... are white space.
  // White space in front of a first member belongs to that member, so `ws` of an
  // object is for the empty one.
  datatype Json =
    | Str(raw: string)
    | Scalar(text: string)
    | Arr(ws: string, items: Items)
    | Obj(ws: string, members: Members)

  datatype Items =
    | NoItem
    | Item(before: string, value: Json, after: string, rest: Items)

  datatype Members =
    | NoMember
    | Member(before: string, rawKey: string, afterKey: string, beforeValue: string,
             value: Json, after: string, rest: Members)

  // ----- well-formed documents ------------------------------------------------

  // A number, true, false or null: no structural character and no white space.
  predicate ScalarText(t: string) {
    t != "" && AllPlain(t) && forall k :: 0 <= k < |t| ==> !EndsScalar(t[k])
  }

  predicate Plain(c: char) {
    c != '\"' && c != '{' && c != '}' && c != '[' && c != ']'
  }

  predicate WellFormed(v: Json) {
    match v
    case Str(raw) => StringBody(raw)
    case Scalar(t) => ScalarText(t)
    case Arr(ws, items) => AllSpace(ws) && WellFormedItems(items)
    case Obj(ws, members) =>
      AllSpace(ws) && WellFormedMembers(members) && (members.Member? ==> ws == "")
  }

  predicate WellFormedItems(xs: Items) {
    match xs
    case NoItem => true
    case Item(b, v, a, rest) => AllSpace(b) && WellFormed(v) && AllSpace(a) && WellFormedItems(rest)
  }

  predicate WellFormedMembers(ms: Members) {
    match ms
    case NoMember => true
    case Member(b, k, ak, bv, v, a, rest) =>
      AllSpace(b) && StringBody(k) && AllSpace(ak) && AllSpace(bv) && WellFormed(v) && AllSpace(a) &&
      WellFormedMembers(rest)
  }

  // ----- printing -------------------------------------------------------------

  function Print(v: Json): (t: string)
    ensures WellFormed(v) ==> t != ""
    decreases v, 1
  {
    match v
    case Str(raw) => "\"" + (raw + "\"")
    case Scalar(t) => t
    case Arr(ws, items) => "[" + (ws + (PrintItems(items) + "]"))
    case Obj(ws, members) => "{" + (ws + (PrintMembers(members) + "}"))
  }

  function PrintItems(xs: Items): string
    decreases xs, 1
  {
    match xs
    case NoItem => ""
    case Item(b, v, a, rest) => b + (Print(v) + (a + (Comma(rest.Item?) + PrintItems(rest))))
  }

  function PrintMembers(ms: Members): string
    decreases ms, 1
  {
    match ms
    case NoMember => ""
    case Member(_, _, _, _, _, _, rest) => PrintMember(ms) + (Comma(rest.Member?) + PrintMembers(rest))
  }

  function PrintMember(m: Members): string
    requires m.Member?
    decreases m, 0
  {
    PrintEntry(Entry(m.before, m.rawKey, m.afterKey, m.beforeValue, Print(m.value), m.after))
  }

  // ----- the scanner steps over a printed value -------------------------------

  // One kind of bracket, as skip_json_value counts it.
  predicate Brackets(open: char, close: char) {
    (open == '{' && close == '}') || (open == '[' && close == ']')
  }

  predicate AllPlain(x: string) {
    forall k :: 0 <= k < |x| ==> Plain(x[k])
  }

  lemma {:induction false} NestPlain(s: string, i: nat, x: string, open: char, close: char, d: nat)
    requires Brackets(open, close) && d >= 1
    requires At(s, i, x) && (AllPlain(x) || AllSpace(x))
    ensures NestEnd(s, i, open, close, d) == NestEnd(s, i + |x|, open, close, d)
    decreases |x|
  {
    if x != "" {
      AtChars(s, i, x);
      assert s[i + 0] == x[0];
      assert x == x[..1] + x[1..];
      AtSplit(s, i, x[..1], x[1..]);
      NestPlain(s, i + 1, x[1..], open, close, d);
    }
  }

  function After(c: char, open: char, close: char, d: nat): nat
    requires d >= 1
  {
    if c == open then d + 1 else if c == close then d - 1 else d
  }

  // One character other than a quote.
  lemma NestOne(s: string, i: nat, c: char, open: char, close: char, d: nat)
    requires Brackets(open, close) && d >= 1 && At(s, i, [c]) && c != '\"'
    ensures NestEnd(s, i, open, close, d) == NestEnd(s, i + 1, open, close, After(c, open, close, d))
  {
    AtChars(s, i, [c]);
    assert s[i + 0] == c;
  }

  lemma NestString(s: string, i: nat, raw: string, open: char, close: char, d: nat)
    requires Brackets(open, close) && d >= 1 && StringBody(raw)
    requires At(s, i, "\"") && At(s, i + 1, raw + "\"")
    ensures NestEnd(s, i, open, close, d) == NestEnd(s, i + 1 + |raw| + 1, open, close, d)
  {
    AtChars(s, i, "\"");
    assert s[i + 0] == '\"';
    StringEndAt(s, i + 1, raw);
  }

  // An array or object is its bracket, white space, what is inside, its bracket.
  predicate Nested(v: Json) {
    v.Arr? || v.Obj?
  }

  function Open(v: Json): char {
    if v.Arr? then '[' else '{'
  }

  function Close(v: Json): char {
    if v.Arr? then ']' else '}'
  }

  function Body(v: Json): string
    requires Nested(v)
  {
    if v.Arr? then PrintItems(v.items) else PrintMembers(v.members)
  }

  lemma NestedParts(v: Json, s: string, i: nat)
    requires Nested(v) && At(s, i, Print(v))
    ensures At(s, i, [Open(v)]) && At(s, i + 1, v.ws) && At(s, i + 1 + |v.ws|, Body(v))
    ensures At(s, i + 1 + |v.ws| + |Body(v)|, [Close(v)]) && |Print(v)| == 1 + |v.ws| + |Body(v)| + 1
  {
    hide At;
    AtSplit(s, i, [Open(v)], v.ws + (Body(v) + [Close(v)]));
    AtSplit(s, i + 1, v.ws, Body(v) + [Close(v)]);
    AtSplit(s, i + 1 + |v.ws|, Body(v), [Close(v)]);
  }

  // Inside brackets of either kind, a whole well-formed value leaves the depth as it
  // was: brackets inside strings and brackets of the other kind do not disturb it.
  lemma {:induction false} NestOverValue(v: Json, s: string, i: nat, open: char, close: char, d: nat)
    requires WellFormed(v) && At(s, i, Print(v)) && Brackets(open, close) && d >= 1
    ensures NestEnd(s, i, open, close, d) == NestEnd(s, i + |Print(v)|, open, close, d)
    decreases v, 1
  {
    hide At;
    hide NestEnd;
    match v
    case Str(raw) =>
      AtSplit(s, i, "\"", raw + "\"");
      NestString(s, i, raw, open, close, d);
    case Scalar(t) =>
      NestPlain(s, i, t, open, close, d);
    case Arr(_, _) =>
      NestOverNested(v, s, i, open, close, d);
    case Obj(_, _) =>
      NestOverNested(v, s, i, open, close, d);
  }

  lemma {:induction false} NestOverNested(v: Json, s: string, i: nat, open: char, close: char, d: nat)
    requires Nested(v) && WellFormed(v) && At(s, i, Print(v)) && Brackets(open, close) && d >= 1
    ensures NestEnd(s, i, open, close, d) == NestEnd(s, i + |Print(v)|, open, close, d)
    decreases v, 0
  {
    hide At;
    hide NestEnd;
    hide Print;
    NestedParts(v, s, i);
    var d' := After(Open(v), open, close, d);
    var b := i + 1 + |v.ws|;
    NestOne(s, i, Open(v), open, close, d);
    NestPlain(s, i + 1, v.ws, open, close, d');
    if v.Arr? {
      NestOverItems(v.items, s, b, open, close, d');
    } else {
      NestOverMembers(v.members, s, b, open, close, d');
    }
    NestOne(s, b + |Body(v)|, Close(v), open, close, d');
  }

  lemma {:induction false} NestOverItems(xs: Items, s: string, i: nat, open: char, close: char, d: nat)
    requires WellFormedItems(xs) && At(s, i, PrintItems(xs)) && Brackets(open, close) && d >= 1
    ensures NestEnd(s, i, open, close, d) == NestEnd(s, i + |PrintItems(xs)|, open, close, d)
    decreases xs, 0
  {
    hide At;
    hide NestEnd;
    hide Print;
    match xs
    case NoItem =>
    case Item(b, v, a, rest) =>
      var t, c, r := Print(v), Comma(rest.Item?), PrintItems(rest);
      AtSplit(s, i, b, t + (a + (c + r)));
      AtSplit(s, i + |b|, t, a + (c + r));
      AtSplit(s, i + |b| + |t|, a, c + r);
      AtSplit(s, i + |b| + |t| + |a|, c, r);
      NestPlain(s, i, b, open, close, d);
      NestOverValue(v, s, i + |b|, open, close, d);
      NestPlain(s, i + |b| + |t|, a, open, close, d);
      NestPlain(s, i + |b| + |t| + |a|, c, open, close, d);
      NestOverItems(rest, s, i + |b| + |t| + |a| + |c|, open, close, d);
  }

  lemma {:induction false} NestOverMembers(ms: Members, s: string, i: nat, open: char, close: char, d: nat)
    requires WellFormedMembers(ms) && At(s, i, PrintMembers(ms)) && Brackets(open, close) && d >= 1
    ensures NestEnd(s, i, open, close, d) == NestEnd(s, i + |PrintMembers(ms)|, open, close, d)
    decreases ms, 1
  {
    hide At;
    hide NestEnd;
    hide PrintMember;
    if ms.Member? {
      var m, c, r := PrintMember(ms), Comma(ms.rest.Member?), PrintMembers(ms.rest);
      AtSplit(s, i, m, c + r);
      AtSplit(s, i + |m|, c, r);
      NestOverMember(ms, s, i, open, close, d);
      NestPlain(s, i + |m|, c, open, close, d);
      NestOverMembers(ms.rest, s, i + |m| + |c|, open, close, d);
    }
  }

  lemma {:induction false} NestOverMember(m: Members, s: string, i: nat, open: char, close: char, d: nat)
    requires m.Member? && WellFormedMembers(m) && At(s, i, PrintMember(m)) && Brackets(open, close) && d >= 1
    ensures NestEnd(s, i, open, close, d) == NestEnd(s, i + |PrintMember(m)|, open, close, d)
    decreases m, 0
  {
    hide At;
    hide NestEnd;
    hide Print;
    hide PrintEntry;
    EntryParts(Entry(m.before, m.rawKey, m.afterKey, m.beforeValue, Print(m.value), m.after), s, i);
    var k := i + |m.before|;
    var e := k + 1 + |m.rawKey| + 1;
    var w := e + |m.afterKey| + 1;
    var v := w + |m.beforeValue|;
    NestPlain(s, i, m.before, open, close, d);
    NestString(s, k, m.rawKey, open, close, d);
    NestPlain(s, e, m.afterKey, open, close, d);
    NestOne(s, e + |m.afterKey|, ':', open, close, d);
    NestPlain(s, w, m.beforeValue, open, close, d);
    NestOverValue(m.value, s, v, open, close, d);
    NestPlain(s, v + |Print(m.value)|, m.after, open, close, d);
  }

  // skip_json_value stops exactly behind a well-formed value of any depth.
  lemma ValueEndAt(v: Json, s: string, i: nat)
    requires WellFormed(v) && At(s, i, Print(v))
    requires i + |Print(v)| < |s| && EndsScalar(s[i + |Print(v)|])
    ensures ValueEnd(s, i) == Some(i + |Print(v)|)
    ensures !IsSpace(s[i])
  {
    hide NestEnd;
    hide ScalarEnd;
    hide StringEnd;
    hide At;
    AtChars(s, i, Print(v));
    assert s[i + 0] == Print(v)[0];
    match v
    case Str(raw) =>
      AtSplit(s, i, "\"", raw + "\"");
      StringEndAt(s, i + 1, raw);
    case Scalar(t) =>
      ScalarEndAt(s, i, t);
    case Arr(_, _) =>
      NestedEndAt(v, s, i);
    case Obj(_, _) =>
      NestedEndAt(v, s, i);
  }

  lemma NestedEndAt(v: Json, s: string, i: nat)
    requires Nested(v) && WellFormed(v) && At(s, i, Print(v))
    ensures NestEnd(s, i + 1, Open(v), Close(v), 1) == Some(i + |Print(v)|)
  {
    hide At;
    hide NestEnd;
    hide Print;
    NestedParts(v, s, i);
    var b := i + 1 + |v.ws|;
    NestPlain(s, i + 1, v.ws, Open(v), Close(v), 1);
    if v.Arr? {
      NestOverItems(v.items, s, b, '[', ']', 1);
    } else {
      NestOverMembers(v.members, s, b, '{', '}', 1);
    }
    NestCloses(s, b + |Body(v)|, Open(v), Close(v));
  }

  lemma NestCloses(s: string, i: nat, open: char, close: char)
    requires Brackets(open, close) && At(s, i, [close])
    ensures NestEnd(s, i, open, close, 1) == Some(i + 1)
  {
    NestOne(s, i, close, open, close, 1);
  }

  // ----- tokens ---------------------------------------------------------------

  // What the tokenizer is to report about an object: its members in order.
  function PairsOf(ms: Members): seq<Pair> {
    match ms
    case NoMember => []
    case Member(_, k, _, _, v, _, rest) => [Pair(Unescape(k), Print(v))] + PairsOf(rest)
  }

  function EntriesOf(ms: Members): seq<Entry> {
    match ms
    case NoMember => []
    case Member(b, k, ak, bv, v, a, rest) => [Entry(b, k, ak, bv, Print(v), a)] + EntriesOf(rest)
  }

  lemma ValueIsReadable(v: Json)
    requires WellFormed(v)
    ensures EndsWhereItEnds(Print(v))
  {
    var t := Print(v);
    hide Print;
    hide ValueEnd;
    hide WellFormed;
    hide At;
    forall s, i: nat | At(s, i, t) && i + |t| < |s| && EndsScalar(s[i + |t|]) ensures ValueEnd(s, i) == Some(i + |t|) {
      ValueEndAt(v, s, i);
    }
    assert t + "," == [t[0]] + (t[1..] + ",");
    WholeText(t, ",");
    ValueEndAt(v, t + ",", 0);
  }

  lemma WholeText(t: string, more: string)
    ensures At(t + more, 0, t)
  {
  }

  // A printed object is its members one after the other.
  lemma {:induction false} MembersAreEntries(ms: Members)
    requires WellFormedMembers(ms)
    ensures PrintMembers(ms) == PrintEntries(EntriesOf(ms)) && PairsOf(ms) == EntryPairs(EntriesOf(ms))
    ensures ReadableEntries(EntriesOf(ms))
    decreases ms
  {
    hide Print;
    hide PrintEntry;
    hide Unescape;
    hide EndsWhereItEnds;
    hide WellFormed;
    if ms.Member? {
      MembersAreEntries(ms.rest);
      ValueIsReadable(ms.value);
      var es, rest := EntriesOf(ms), EntriesOf(ms.rest);
      assert es[1..] == rest;
      assert ms.rest.Member? <==> |es| > 1;
      assert SpacedEntry(es[0]);
      assert forall k :: 0 < k < |es| ==> es[k] == rest[k - 1];
    }
  }

  // For every well-formed object, with any white space before it and any text
  // behind it, the tokenizer reports exactly its members, in order.
  lemma TokensOfObject(v: Json, s: string, ws: string)
    requires v.Obj? && WellFormed(v) && AllSpace(ws) && At(s, 0, ws + Print(v))
    ensures Tokens(s) == Some(PairsOf(v.members))
  {
    var es := EntriesOf(v.members);
    MembersAreEntries(v.members);
    hide At;
    hide Tokens;
    hide PrintEntries;
    hide ReadableEntries;
    TokensOfEntries(ws, v.ws, es, s);
  }
}
