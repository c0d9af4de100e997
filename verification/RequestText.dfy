/** Requests as a client may write them, and what the parser makes of them:
    src/http.cpp:174-325, section 2.1 of RFC 3986 and section 3 of RFC 7230. */
module RequestText {
  import opened Text
  import opened HttpText
  import opened HttpRequests

  // ----- the query ------------------------------------------------------------

  // A query item: the text of its key and value, and what they encode.
  datatype Item = Item(keyText: string, key: string, valueText: string, value: string, bare: bool)

  function ItemText(x: Item): string {
    if x.bare then x.keyText else x.keyText + "=" + x.valueText
  }

  predicate WellFormedItem(x: Item) {
    && Encodes(x.keyText, x.key) && '&' !in x.keyText && '=' !in x.keyText && ' ' !in x.keyText
    && Encodes(x.valueText, x.value) && '&' !in x.valueText && ' ' !in x.valueText
    && (x.bare ==> x.keyText != "" && x.value == "")
  }

  predicate WellFormedItems(items: seq<Item>) {
    forall k :: 0 <= k < |items| ==> WellFormedItem(items[k])
  }

  function QueryText(items: seq<Item>): string {
    if items == [] then "" else if |items| == 1 then ItemText(items[0]) else ItemText(items[0]) + "&" + QueryText(items[1..])
  }

  function Pairs(items: seq<Item>): seq<(string, string)> {
    if items == [] then [] else [(items[0].key, items[0].value)] + Pairs(items[1..])
  }

  lemma DigitsAreNoControl(hi: char, lo: char, c: char)
    requires EscapeIs(hi, lo, c)
    ensures !IsControl(hi) && !IsControl(lo)
  {
    EscapedByteIs(hi, lo, c);
    hide EscapeIs;
  }

  // No encoding holds a raw control character.
  lemma {:induction false} EncodingHasNoControl(e: string, s: string)
    requires Encodes(e, s)
    ensures forall c :: c in e ==> !IsControl(c)
    decreases |s|
  {
    if e != "" && s != "" {
      if e[0] == '%' {
        EncodingHasNoControl(e[3..], s[1..]);
        DigitsAreNoControl(e[1], e[2], s[0]);
        hide EscapeIs;
        assert e == [e[0], e[1], e[2]] + e[3..];
      } else {
        EncodingHasNoControl(e[1..], s[1..]);
        assert e == [e[0]] + e[1..];
      }
    }
  }

  lemma ItemRead(x: Item)
    requires WellFormedItem(x)
    ensures ReadPair(ItemText(x)) == Some([(x.key, x.value)])
    ensures ItemText(x) != "" && '&' !in ItemText(x) && ' ' !in ItemText(x)
    ensures forall c :: c in ItemText(x) ==> !IsControl(c)
  {
    var t := ItemText(x);
    DecodesExactly(x.keyText, x.key);
    DecodesExactly(x.valueText, x.value);
    DecodesExactly("", "");
    EncodingHasNoControl(x.keyText, x.key);
    EncodingHasNoControl(x.valueText, x.value);
    hide Encodes;
    hide PercentDecode;
    if x.bare {
      FindNoChar(t, '=', 0);
    } else {
      FindChar(t, '=', 0, |x.keyText|);
      assert t[..|x.keyText|] == x.keyText && t[|x.keyText| + 1..] == x.valueText;
    }
  }

  lemma {:induction false} PairsRead(query: string, start: nat, items: seq<Item>)
    requires start <= |query| && items != [] && WellFormedItems(items) && query[start..] == QueryText(items)
    ensures ReadPairs(query, start) == Some(Pairs(items))
    decreases |items|
  {
    hide *;
    WellFormedRest(items);
    ItemRead(items[0]);
    QueryStep(items);
    var t, one := ItemText(items[0]), [(items[0].key, items[0].value)];
    if |items| > 1 {
      FindAfter(query, start, t, '&', QueryText(items[1..]));
      PairsRead(query, start + |t| + 1, items[1..]);
      ReadPairsStep(query, start, start + |t|, one, Pairs(items[1..]));
    } else {
      FindNowhere(query, start, '&');
      ReadPairsEnd(query, start);
      assert one + [] == one;
    }
  }

  lemma WellFormedRest(items: seq<Item>)
    requires items != [] && WellFormedItems(items)
    ensures WellFormedItem(items[0]) && WellFormedItems(items[1..])
  {
    hide WellFormedItem;
  }

  lemma QueryStep(items: seq<Item>)
    requires items != []
    ensures if |items| == 1 then QueryText(items) == ItemText(items[0]) else QueryText(items) == ItemText(items[0]) + ['&'] + QueryText(items[1..])
    ensures Pairs(items) == [(items[0].key, items[0].value)] + (if |items| == 1 then [] else Pairs(items[1..]))
  {
    hide ItemText;
  }

  lemma ReadPairsStep(query: string, start: nat, amp: nat, one: seq<(string, string)>, more: seq<(string, string)>)
    requires start <= amp < |query| && Find(query, ['&'], start) == Some(amp)
    requires ReadPair(query[start..amp]) == Some(one) && ReadPairs(query, amp + 1) == Some(more)
    ensures ReadPairs(query, start) == Some(one + more)
  {
    hide ReadPair;
    assert "&" == ['&'];
  }

  lemma ReadPairsEnd(query: string, start: nat)
    requires start <= |query| && Find(query, ['&'], start) == None
    ensures ReadPairs(query, start) == ReadPair(query[start..])
  {
    hide ReadPair;
    assert "&" == ['&'];
  }

  lemma {:induction false} QueryIsPlain(items: seq<Item>)
    requires WellFormedItems(items)
    ensures forall c :: c in QueryText(items) ==> !IsControl(c) && c != ' '
  {
    hide ItemText;
    hide WellFormedItem;
    if items != [] {
      ItemRead(items[0]);
      QueryIsPlain(items[1..]);
      hide IsControl;
      if |items| > 1 {
        var t, q := ItemText(items[0]), QueryText(items[1..]);
        forall c | c in QueryText(items) ensures !IsControl(c) && c != ' ' {
          assert c in t || c == '&' || c in q;
          assert !IsControl('&') by { NotControl(); }
        }
      }
    }
  }

  lemma NotControl()
    ensures !IsControl('&') && !IsControl('?')
  {
  }

  // ----- the headers ----------------------------------------------------------

  // A header line: the name in any case, and blanks at four places.
  datatype Header = Header(before: string, name: string, between: string, left: string, value: string, right: string)

  function HeaderText(h: Header): string {
    h.before + h.name + h.between + ":" + h.left + h.value + h.right
  }

  predicate OneLine(s: string) {
    '\r' !in s && '\n' !in s
  }

  predicate WellFormedHeader(h: Header) {
    && Blank(h.before) && Blank(h.between) && Blank(h.left) && Blank(h.right)
    && Trimmed(h.name) && OneLine(h.name) && ':' !in h.name
    && Trimmed(h.value) && OneLine(h.value)
  }

  predicate WellFormedHeaders(hs: seq<Header>) {
    forall k :: 0 <= k < |hs| ==> WellFormedHeader(hs[k])
  }

  predicate Is(h: Header, f: Field) {
    FieldOf(ToLower(h.name)) == f
  }

  // The value of the last header of a field.
  function Last(hs: seq<Header>, f: Field, none: string): string
    decreases |hs|
  {
    if hs == [] then none
    else if Is(hs[|hs| - 1], f) then hs[|hs| - 1].value
    else Last(hs[..|hs| - 1], f, none)
  }

  predicate LengthsValid(hs: seq<Header>) {
    forall k :: 0 <= k < |hs| && Is(hs[k], ContentLength) ==> ParseLength(hs[k].value).Some?
  }

  // The length the headers leave, given the one before them.
  function LengthAfter(hs: seq<Header>, before: int): int {
    var length := ParseLength(Last(hs, ContentLength, ""));
    if length.Some? then length.value else before
  }

  predicate AnyChunked(hs: seq<Header>) {
    exists k :: 0 <= k < |hs| && Is(hs[k], TransferEncoding) && SaysChunked(hs[k].value)
  }

  // What the headers make of a request, field by field.
  function Described(req: HttpRequest, hs: seq<Header>): HttpRequest {
    req.(
      accept := Last(hs, Accept, req.accept),
      contentType := Last(hs, ContentType, req.contentType),
      contentLength := LengthAfter(hs, req.contentLength),
      chunked := req.chunked || AnyChunked(hs),
      authToken := Last(hs, ApiKey, req.authToken),
      qos := Last(hs, Qos, req.qos),
      retain := Last(hs, Retain, req.retain))
  }

  function Applied(req: HttpRequest, hs: seq<Header>): Option<HttpRequest>
    decreases |hs|
  {
    if hs == [] then Some(req)
    else match ApplyField(req, FieldOf(ToLower(hs[0].name)), hs[0].value)
      case None => None
      case Some(req') => Applied(req', hs[1..])
  }

  lemma {:induction false} LastFromFront(hs: seq<Header>, f: Field, none: string)
    requires hs != []
    ensures Last(hs, f, none) == Last(hs[1..], f, if Is(hs[0], f) then hs[0].value else none)
    decreases |hs|
  {
    hide FieldOf;
    hide Is;
    var n := |hs| - 1;
    if n > 0 {
      assert hs[1..][n - 1] == hs[n] && hs[1..][..n - 1] == hs[..n][1..] && hs[..n][0] == hs[0];
      LastFromFront(hs[..n], f, none);
    }
  }

  lemma NoLength()
    ensures ParseLength("") == None
  {
  }

  // Headers taken one by one, or the last of each field at once; a bad length among
  // them refuses the request.
  lemma {:induction false} AppliedIsDescribed(req: HttpRequest, hs: seq<Header>)
    ensures Applied(req, hs) == if LengthsValid(hs) then Some(Described(req, hs)) else None
    decreases |hs|
  {
    hide FieldOf;
    hide Last;
    hide SaysChunked;
    hide ParseLength;
    if hs == [] {
      NoHeaders(req);
    } else {
      var rest, r := hs[1..], ApplyField(req, FieldOf(ToLower(hs[0].name)), hs[0].value);
      ValidFromFront(hs);
      hide LengthsValid;
      hide Described;
      if r.Some? {
        AppliedIsDescribed(r.value, rest);
        if LengthsValid(rest) {
          DescribedFromFront(req, hs, r.value);
        }
      }
    }
  }

  lemma NoHeaders(req: HttpRequest)
    ensures Described(req, []) == req
  {
    hide ParseLength;
    hide FieldOf;
    NoLength();
  }

  lemma ValidFromFront(hs: seq<Header>)
    requires hs != []
    ensures LengthsValid(hs) <==> LengthsValid(hs[1..]) && (Is(hs[0], ContentLength) ==> ParseLength(hs[0].value).Some?)
  {
    hide FieldOf;
    hide ParseLength;
    hide Is;
    if LengthsValid(hs[1..]) && (Is(hs[0], ContentLength) ==> ParseLength(hs[0].value).Some?) {
      forall k | 0 <= k < |hs| && Is(hs[k], ContentLength) ensures ParseLength(hs[k].value).Some? {
        if k > 0 {
          assert hs[1..][k - 1] == hs[k];
        }
      }
    } else if LengthsValid(hs) {
      forall k | 0 <= k < |hs| - 1 && Is(hs[1..][k], ContentLength) ensures ParseLength(hs[1..][k].value).Some? {
        assert hs[1..][k] == hs[k + 1];
      }
    }
  }

  predicate Has(hs: seq<Header>, f: Field) {
    exists k :: 0 <= k < |hs| && Is(hs[k], f)
  }

  // If the field is there at all, Last is one of its values whatever stands for none.
  lemma {:induction false} LastIsThere(hs: seq<Header>, f: Field, a: string, b: string)
    requires Has(hs, f)
    ensures Last(hs, f, a) == Last(hs, f, b)
    ensures exists k :: 0 <= k < |hs| && Is(hs[k], f) && hs[k].value == Last(hs, f, a)
    decreases |hs|
  {
    hide Is;
    hide FieldOf;
    var n := |hs| - 1;
    if !Is(hs[n], f) {
      var k :| 0 <= k < |hs| && Is(hs[k], f);
      assert hs[..n][k] == hs[k];
      LastIsThere(hs[..n], f, a, b);
      var m :| 0 <= m < n && Is(hs[..n][m], f) && hs[..n][m].value == Last(hs[..n], f, a);
      assert hs[m] == hs[..n][m];
    }
  }

  lemma LengthFromFront(hs: seq<Header>, before: int)
    requires hs != [] && LengthsValid(hs)
    ensures LengthAfter(hs, before) ==
      LengthAfter(hs[1..], if Is(hs[0], ContentLength) then ParseLength(hs[0].value).value else before)
  {
    hide *;
    ValidFromFront(hs);
    NoLength();
    LastFromFront(hs, ContentLength, "");
    LengthIs(hs, before);
    var rest, v := hs[1..], hs[0].value;
    if Has(rest, ContentLength) {
      LengthIs(rest, if Is(hs[0], ContentLength) then ParseLength(v).value else before);
      LastIsThere(rest, ContentLength, "", v);
      LastLengthIsValid(rest, "");
    } else {
      LengthIs(rest, if Is(hs[0], ContentLength) then ParseLength(v).value else before);
      LastIsNone(rest, ContentLength, "");
      LastIsNone(rest, ContentLength, v);
    }
  }

  lemma LengthIs(hs: seq<Header>, before: int)
    ensures
      var length := ParseLength(Last(hs, ContentLength, ""));
      LengthAfter(hs, before) == if length.Some? then length.value else before
  {
  }

  lemma LastLengthIsValid(hs: seq<Header>, none: string)
    requires LengthsValid(hs) && Has(hs, ContentLength)
    ensures ParseLength(Last(hs, ContentLength, none)).Some?
  {
    hide Is;
    hide Last;
    hide ParseLength;
    LastIsThere(hs, ContentLength, none, none);
  }

  lemma {:induction false} LastIsNone(hs: seq<Header>, f: Field, none: string)
    requires !Has(hs, f)
    ensures Last(hs, f, none) == none
    decreases |hs|
  {
    hide Is;
    if hs != [] {
      assert !Is(hs[|hs| - 1], f);
      var rest := hs[..|hs| - 1];
      assert forall k :: 0 <= k < |rest| ==> rest[k] == hs[k] && !Is(hs[k], f);
      LastIsNone(rest, f, none);
    }
  }

  lemma ChunkedFromFront(hs: seq<Header>)
    requires hs != []
    ensures AnyChunked(hs) <==> (Is(hs[0], TransferEncoding) && SaysChunked(hs[0].value)) || AnyChunked(hs[1..])
  {
    hide Is;
    hide SaysChunked;
    if AnyChunked(hs[1..]) {
      var k :| 0 <= k < |hs| - 1 && Is(hs[1..][k], TransferEncoding) && SaysChunked(hs[1..][k].value);
      assert hs[k + 1] == hs[1..][k];
    } else if AnyChunked(hs) {
      var k :| 0 <= k < |hs| && Is(hs[k], TransferEncoding) && SaysChunked(hs[k].value);
      assert k > 0 ==> hs[1..][k - 1] == hs[k];
    }
  }

  lemma DescribedFromFront(req: HttpRequest, hs: seq<Header>, req': HttpRequest)
    requires hs != [] && LengthsValid(hs) && ApplyField(req, FieldOf(ToLower(hs[0].name)), hs[0].value) == Some(req')
    ensures Described(req', hs[1..]) == Described(req, hs)
  {
    hide FieldOf;
    hide Last;
    hide SaysChunked;
    hide ParseLength;
    hide LengthsValid;
    LastFromFront(hs, Accept, req.accept);
    LastFromFront(hs, ContentType, req.contentType);
    LastFromFront(hs, ApiKey, req.authToken);
    LastFromFront(hs, Qos, req.qos);
    LastFromFront(hs, Retain, req.retain);
    LengthFromFront(hs, req.contentLength);
    ChunkedFromFront(hs);
    hide AnyChunked;
    hide LengthAfter;
  }

  // ----- the message ----------------------------------------------------------

  datatype Message = Message(
    name: string, pathText: string, path: string, items: seq<Item>, version: string, headers: seq<Header>, body: string)

  function Target(m: Message): string {
    if m.items == [] then m.pathText else m.pathText + "?" + QueryText(m.items)
  }

  function LineText(m: Message): string {
    m.name + " " + (Target(m) + " " + m.version)
  }

  function Tail(hs: seq<Header>, body: string): string {
    if hs == [] then CRLF + body else HeaderText(hs[0]) + CRLF + Tail(hs[1..], body)
  }

  function MessageText(m: Message): string {
    LineText(m) + CRLF + Tail(m.headers, m.body)
  }

  predicate WellFormedMessage(m: Message) {
    && m.name != "" && IsUpper(m.name)
    && IsTarget(m.pathText) && Encodes(m.pathText, m.path) && '?' !in m.pathText && ' ' !in m.pathText
    && WellFormedItems(m.items) && KnownVersion(m.version) && WellFormedHeaders(m.headers)
  }

  function Meaning(m: Message, before: HttpRequest): HttpRequest {
    Described(Cleared(before, m.name), m.headers).(path := m.path, query := Pairs(m.items))
  }

  predicate Plain(s: string) {
    forall c :: c in s ==> c != ' ' && !IsControl(c)
  }

  lemma TargetIsPlain(m: Message)
    requires WellFormedMessage(m)
    ensures Plain(Target(m)) && IsTarget(Target(m))
  {
    EncodingHasNoControl(m.pathText, m.path);
    QueryIsPlain(m.items);
    NotControl();
    hide Encodes;
    hide QueryText;
    hide IsControl;
    hide WellFormedItems;
    hide WellFormedHeaders;
    hide KnownVersion;
    var t, q := Target(m), QueryText(m.items);
    if m.items != [] {
      forall c | c in t ensures c != ' ' && !IsControl(c) {
        assert c in m.pathText || c == '?' || c in q;
      }
    }
  }

  lemma VersionIsPlain(v: string)
    requires KnownVersion(v)
    ensures ' ' !in v && '\r' !in v
  {
  }

  lemma UpperIsPlain(s: string)
    requires IsUpper(s)
    ensures ' ' !in s && '\r' !in s
  {
  }

  lemma LineHasNoReturn(m: Message)
    requires WellFormedMessage(m)
    ensures '\r' !in LineText(m)
  {
    TargetIsPlain(m);
    VersionIsPlain(m.version);
    UpperIsPlain(m.name);
    hide IsTarget;
    hide Target;
    hide WellFormedMessage;
    hide KnownVersion;
    var t := Target(m);
    assert '\r' !in t by {
      assert IsControl('\r');
    }
  }

  lemma LineRead(m: Message)
    requires WellFormedMessage(m)
    ensures RequestLine(LineText(m)) == Some((m.name, Target(m)))
  {
    hide *;
    var s, t := LineText(m), Target(m);
    TargetIsPlain(m);
    LineParts(m);
    assert s[0..] == m.name + [' '] + (t + " " + m.version);
    FindAfter(s, 0, m.name, ' ', t + " " + m.version);
    FindAfter(s, |m.name| + 1, t, ' ', m.version);
    assert s[..|m.name|] == s[0..0 + |m.name|];
    LineReadAt(s, |m.name|, |m.name| + 1 + |t|);
  }

  lemma LineParts(m: Message)
    requires WellFormedMessage(m) && Plain(Target(m))
    ensures LineText(m) == m.name + [' '] + (Target(m) + [' '] + m.version)
    ensures m.name != "" && IsUpper(m.name) && KnownVersion(m.version) && ' ' !in m.name && ' ' !in Target(m)
  {
    UpperIsPlain(m.name);
    hide Target;
    hide KnownVersion;
    hide IsTarget;
    hide Encodes;
  }

  lemma LineReadAt(s: string, sp1: nat, sp2: nat)
    requires sp1 < sp2 < |s| && Find(s, [' '], 0) == Some(sp1) && Find(s, [' '], sp1 + 1) == Some(sp2)
    requires KnownVersion(s[sp2 + 1..]) && s[..sp1] != "" && IsUpper(s[..sp1]) && IsTarget(s[sp1 + 1..sp2])
    ensures RequestLine(s) == Some((s[..sp1], s[sp1 + 1..sp2]))
  {
    hide KnownVersion;
    hide IsTarget;
    hide IsUpper;
    hide Find;
    assert " " == [' '];
  }

  lemma TargetRead(m: Message, req: HttpRequest)
    requires WellFormedMessage(m)
    ensures ReadTarget(req, Target(m)) == Some(req.(path := m.path, query := Pairs(m.items)))
  {
    DecodesExactly(m.pathText, m.path);
    var t, q := Target(m), QueryText(m.items);
    assert t[0..] == t && q[0..] == q;
    if m.items == [] {
      FindNowhere(t, 0, '?');
      NoPairs();
    } else {
      assert t == m.pathText + ['?'] + q;
      FindAfter(t, 0, m.pathText, '?', q);
      PairsRead(q, 0, m.items);
      assert t[..|m.pathText|] == t[0..0 + |m.pathText|];
    }
    hide Encodes;
    hide ReadPairs;
    hide PercentDecode;
    hide QueryText;
    hide WellFormedItems;
  }

  lemma NoPairs()
    ensures ReadPairs("", 0) == Some([]) && Pairs([]) == []
  {
  }

  // ----- the header lines -----------------------------------------------------

  lemma HeaderRead(h: Header, req: HttpRequest)
    requires WellFormedHeader(h)
    ensures ApplyLine(req, HeaderText(h)) == ApplyField(req, FieldOf(ToLower(h.name)), h.value)
  {
    hide *;
    var name, value := h.before + h.name + h.between, h.left + h.value + h.right;
    var s := HeaderText(h);
    HeaderColon(h);
    assert s[0..] == s;
    FindAfter(s, 0, name, ':', value);
    assert s[..|name|] == s[0..0 + |name|];
    HeaderTrims(h);
    ApplyLineAt(req, s, |name|);
  }

  lemma HeaderColon(h: Header)
    requires WellFormedHeader(h)
    ensures ':' !in h.before + h.name + h.between
    ensures HeaderText(h) == (h.before + h.name + h.between) + [':'] + (h.left + h.value + h.right)
  {
  }

  lemma ApplyLineAt(req: HttpRequest, line: string, colon: nat)
    requires colon < |line| && Find(line, [':'], 0) == Some(colon)
    ensures ApplyLine(req, line) == ApplyField(req, FieldOf(ToLower(TrimSpaces(line[..colon]))), TrimSpaces(line[colon + 1..]))
  {
    hide FieldOf;
    hide ApplyField;
    hide Find;
    hide TrimSpaces;
    hide ToLower;
    assert ":" == [':'];
  }

  lemma HeaderTrims(h: Header)
    requires WellFormedHeader(h)
    ensures TrimSpaces(h.before + h.name + h.between) == h.name && TrimSpaces(h.left + h.value + h.right) == h.value
  {
    TrimSpacesIs(h.before, h.name, h.between);
    TrimSpacesIs(h.left, h.value, h.right);
  }

  lemma HeaderIsLine(h: Header)
    requires WellFormedHeader(h)
    ensures HeaderText(h) != "" && '\r' !in HeaderText(h)
  {
    assert forall s :: Blank(s) ==> '\r' !in s;
  }

  // ----- where the lines end --------------------------------------------------

  lemma AtCrlf(s: string, k: nat)
    ensures At(s, k, CRLF) <==> k + 1 < |s| && s[k] == '\r' && s[k + 1] == '\n'
  {
    if k + 1 < |s| {
      assert s[k..k + 2] == [s[k], s[k + 1]];
    }
  }

  lemma AtBlankLine(s: string, k: nat)
    ensures At(s, k, BLANK_LINE) <==> At(s, k, CRLF) && At(s, k + 2, CRLF)
  {
    assert BLANK_LINE == CRLF + CRLF;
    AtSplit(s, k, CRLF, CRLF);
  }

  // The first line end behind a text without a carriage return.
  lemma LineEnd(s: string, i: nat, t: string, rest: string)
    requires i <= |s| && s[i..] == t + CRLF + rest && '\r' !in t
    ensures Find(s, CRLF, i) == Some(i + |t|) && i + |t| + 2 <= |s|
    ensures s[i..i + |t|] == t && s[i + |t| + 2..] == rest && s[i + |t|..] == CRLF + rest
  {
    hide *;
    LineStands(s, i, t, rest);
    var p := i + |t|;
    AtCrlf(s, p);
    forall k: nat | i <= k < p ensures !At(s, k, CRLF) {
      AtCrlf(s, k);
    }
    FindIs(s, CRLF, i, p);
  }

  lemma LineStands(s: string, i: nat, t: string, rest: string)
    requires i <= |s| && s[i..] == t + CRLF + rest && '\r' !in t
    ensures i + |t| + 2 <= |s| && s[i + |t|] == '\r' && s[i + |t| + 1] == '\n'
    ensures s[i..i + |t|] == t && s[i + |t| + 2..] == rest && s[i + |t|..] == CRLF + rest
    ensures forall k :: i <= k < i + |t| ==> s[k] != '\r'
  {
    var u := s[i..];
    var p := i + |t|;
    assert s[i..p] == u[..|t|] && s[p + 2..] == u[|t| + 2..] && s[p..] == u[|t|..];
    assert s[p] == u[|t|] && s[p + 1] == u[|t| + 1];
    forall k | i <= k < p ensures s[k] != '\r' {
      assert s[k] == u[k - i] == t[k - i];
    }
  }

  function HeadersSize(hs: seq<Header>): nat {
    if hs == [] then 0 else |HeaderText(hs[0])| + 2 + HeadersSize(hs[1..])
  }

  // No blank line before the end of a line that another one follows.
  lemma NoBlankLine(raw: string, p: nat, t: string, rest: string)
    requires p <= |raw| && raw[p..] == CRLF + (t + CRLF + rest) && t != "" && '\r' !in t
    ensures Find(raw, BLANK_LINE, p) == Find(raw, BLANK_LINE, p + 2 + |t|)
    ensures p + 2 + |t| <= |raw| && raw[p + 2 + |t|..] == CRLF + rest
  {
    hide Find;
    var u := raw[p..];
    var q := p + 2 + |t|;
    assert raw[q..] == u[2 + |t|..];
    forall k: nat | p <= k < q ensures !At(raw, k, BLANK_LINE) {
      AtBlankLine(raw, k);
      AtCrlf(raw, k);
      AtCrlf(raw, k + 2);
      assert k < |raw| ==> raw[k] == u[k - p];
      if k == p {
        assert raw[k + 2] == u[2] == t[0];
      } else if k > p + 1 {
        assert u[k - p] == t[k - p - 2];
      }
    }
    FindFrom(raw, BLANK_LINE, p, q);
  }

  lemma {:induction false} EndFound(raw: string, p: nat, hs: seq<Header>, body: string)
    requires p <= |raw| && WellFormedHeaders(hs) && raw[p..] == CRLF + Tail(hs, body)
    ensures Find(raw, BLANK_LINE, p) == Some(p + HeadersSize(hs))
    ensures p + HeadersSize(hs) + 4 <= |raw| && raw[p + HeadersSize(hs) + 4..] == body
    decreases |hs|
  {
    hide *;
    TailIs(hs, body);
    if hs == [] {
      assert raw[p..] == CRLF + (CRLF + body);
      BlankLineHere(raw, p, body);
    } else {
      RestWellFormed(hs);
      HeaderIsLine(hs[0]);
      NoBlankLine(raw, p, HeaderText(hs[0]), Tail(hs[1..], body));
      EndFound(raw, p + 2 + |HeaderText(hs[0])|, hs[1..], body);
    }
  }

  lemma BlankLineHere(raw: string, p: nat, body: string)
    requires p <= |raw| && raw[p..] == CRLF + (CRLF + body)
    ensures Find(raw, BLANK_LINE, p) == Some(p) && p + 4 <= |raw| && raw[p + 4..] == body
  {
    hide Find;
    var u := raw[p..];
    assert raw[p] == u[0] && raw[p + 1] == u[1] && raw[p + 2] == u[2] && raw[p + 3] == u[3];
    assert raw[p + 4..] == u[4..];
    AtCrlf(raw, p);
    AtCrlf(raw, p + 2);
    AtBlankLine(raw, p);
    FindIs(raw, BLANK_LINE, p, p);
  }

  lemma TailIs(hs: seq<Header>, body: string)
    ensures hs == [] ==> Tail(hs, body) == CRLF + body && HeadersSize(hs) == 0
    ensures hs != [] ==>
      && Tail(hs, body) == HeaderText(hs[0]) + CRLF + Tail(hs[1..], body)
      && HeadersSize(hs) == |HeaderText(hs[0])| + 2 + HeadersSize(hs[1..])
  {
    hide HeaderText;
  }

  lemma RestWellFormed(hs: seq<Header>)
    requires hs != [] && WellFormedHeaders(hs)
    ensures WellFormedHeader(hs[0]) && WellFormedHeaders(hs[1..])
  {
    hide WellFormedHeader;
  }

  lemma {:induction false} HeadersRead(raw: string, pos: nat, hs: seq<Header>, body: string, req: HttpRequest)
    requires 2 <= pos <= |raw| && WellFormedHeaders(hs) && raw[pos..] == Tail(hs, body)
    requires pos - 2 + HeadersSize(hs) <= |raw|
    ensures ReadHeaders(raw, pos, pos - 2 + HeadersSize(hs), req) == Applied(req, hs)
    decreases |hs|
  {
    hide *;
    TailIs(hs, body);
    if hs == [] {
      HeadersDone(raw, pos, req);
    } else {
      var t := HeaderText(hs[0]);
      RestWellFormed(hs);
      HeaderIsLine(hs[0]);
      LineEnd(raw, pos, t, Tail(hs[1..], body));
      HeaderRead(hs[0], req);
      var limit := pos - 2 + HeadersSize(hs);
      var one := ApplyLine(req, t);
      HeaderStep(raw, pos, limit, |t|, req);
      AppliedStep(req, hs);
      if one.Some? {
        HeadersRead(raw, pos + |t| + 2, hs[1..], body, one.value);
      }
    }
  }

  lemma HeadersDone(raw: string, pos: nat, req: HttpRequest)
    requires 2 <= pos <= |raw|
    ensures ReadHeaders(raw, pos, pos - 2, req) == Some(req) == Applied(req, [])
  {
  }

  lemma HeaderStep(raw: string, pos: nat, limit: nat, n: nat, req: HttpRequest)
    requires pos + n <= limit <= |raw| && n > 0 && Find(raw, CRLF, pos) == Some(pos + n)
    ensures
      var one := ApplyLine(req, raw[pos..pos + n]);
      ReadHeaders(raw, pos, limit, req) == if one.None? then None else ReadHeaders(raw, pos + n + 2, limit, one.value)
  {
    hide ApplyLine;
  }

  lemma AppliedStep(req: HttpRequest, hs: seq<Header>)
    requires hs != []
    ensures
      var one := ApplyField(req, FieldOf(ToLower(hs[0].name)), hs[0].value);
      Applied(req, hs) == if one.None? then None else Applied(one.value, hs[1..])
  {
    hide FieldOf;
    hide ApplyField;
  }

  // ----- the round trip -------------------------------------------------------

  // Parsing a request returns what was written: every part in order and exactly the
  // bytes behind the blank line; a malformed Content-Length, and nothing else, is
  // refused.
  lemma RequestRoundTrip(m: Message, before: HttpRequest)
    requires WellFormedMessage(m)
    ensures ParseRequest(MessageText(m), before) == if LengthsValid(m.headers) then Some((Meaning(m, before), m.body)) else None
  {
    hide *;
    var raw, line, tail := MessageText(m), LineText(m), Tail(m.headers, m.body);
    MessageParts(m);
    assert raw[0..] == raw;
    LineHasNoReturn(m);
    LineEnd(raw, 0, line, tail);
    assert raw[..|line|] == raw[0..0 + |line|];
    LineRead(m);
    EndFound(raw, |line|, m.headers, m.body);
    var req := Cleared(before, m.name);
    HeadersRead(raw, |line| + 2, m.headers, m.body, req);
    AppliedIsDescribed(req, m.headers);
    if LengthsValid(m.headers) {
      TargetRead(m, Described(req, m.headers));
    }
    ParsedIs(raw, before, |line|, m.name, Target(m), |line| + HeadersSize(m.headers));
  }

  // The head of a message ends where its body starts.
  lemma MessageHead(m: Message)
    requires WellFormedMessage(m)
    ensures |MessageText(m)| >= |m.body| + 4
    ensures Find(MessageText(m), BLANK_LINE, 0) == Some(|MessageText(m)| - |m.body| - 4)
  {
    hide *;
    var raw, line, tail := MessageText(m), LineText(m), Tail(m.headers, m.body);
    MessageParts(m);
    assert raw[0..] == raw;
    LineHasNoReturn(m);
    LineEnd(raw, 0, line, tail);
    EndFound(raw, |line|, m.headers, m.body);
    forall k: nat | k < |line| ensures !At(raw, k, BLANK_LINE) {
      AtBlankLine(raw, k);
    }
    FindFrom(raw, BLANK_LINE, 0, |line|);
  }

  lemma MessageParts(m: Message)
    requires WellFormedMessage(m)
    ensures MessageText(m) == LineText(m) + CRLF + Tail(m.headers, m.body) && WellFormedHeaders(m.headers)
    ensures forall before ::
      Meaning(m, before) == Described(Cleared(before, m.name), m.headers).(path := m.path, query := Pairs(m.items))
  {
    hide LineText;
    hide Tail;
    hide Described;
    hide Encodes;
    hide WellFormedItems;
    hide WellFormedHeaders;
  }

  lemma ParsedIs(raw: string, before: HttpRequest, lineEnd: nat, name: string, target: string, end: nat)
    requires lineEnd <= end && end + 4 <= |raw| && Find(raw, CRLF, 0) == Some(lineEnd)
    requires RequestLine(raw[..lineEnd]) == Some((name, target)) && Find(raw, BLANK_LINE, lineEnd) == Some(end)
    ensures
      var headers := ReadHeaders(raw, lineEnd + 2, end, Cleared(before, name));
      ParseRequest(raw, before) ==
      if headers.None? || ReadTarget(headers.value, target).None? then None
      else Some((ReadTarget(headers.value, target).value, raw[end + 4..]))
  {
    hide Find;
    hide RequestLine;
    hide ReadHeaders;
    hide ReadTarget;
  }

  // ----- every request can be written -----------------------------------------

  predicate Encodable(s: string) {
    IsByteString(s) && '\0' !in s
  }

  predicate EncodablePairs(pairs: seq<(string, string)>) {
    forall k :: 0 <= k < |pairs| ==> Encodable(pairs[k].0) && Encodable(pairs[k].1)
  }

  function EncodedItems(pairs: seq<(string, string)>): seq<Item>
    requires EncodablePairs(pairs)
  {
    if pairs == [] then []
    else
      var (key, value) := pairs[0];
      assert Encodable(pairs[0].0) && Encodable(pairs[0].1);
      assert EncodablePairs(pairs[1..]) by { assert forall k :: 0 <= k < |pairs| - 1 ==> pairs[1..][k] == pairs[k + 1]; }
      [Item(PercentEncode(key), key, PercentEncode(value), value, false)] + EncodedItems(pairs[1..])
  }

  lemma EncodedIsPlain(s: string)
    requires Encodable(s)
    ensures Encodes(PercentEncode(s), s)
    ensures '&' !in PercentEncode(s) && '=' !in PercentEncode(s) && ' ' !in PercentEncode(s) && '?' !in PercentEncode(s)
  {
    PercentRoundTrip(s);
    hide PercentEncode;
    hide Encodes;
  }

  lemma {:induction false} EncodedItemsAreWellFormed(pairs: seq<(string, string)>)
    requires EncodablePairs(pairs)
    ensures WellFormedItems(EncodedItems(pairs)) && Pairs(EncodedItems(pairs)) == pairs
  {
    hide Encodes;
    hide PercentEncode;
    if pairs != [] {
      EncodedIsPlain(pairs[0].0);
      EncodedIsPlain(pairs[0].1);
      hide Encodable;
      assert EncodablePairs(pairs[1..]) by {
        assert forall k :: 0 <= k < |pairs| - 1 ==> pairs[1..][k] == pairs[k + 1];
      }
      EncodedItemsAreWellFormed(pairs[1..]);
      var items, rest := EncodedItems(pairs), EncodedItems(pairs[1..]);
      assert WellFormedItem(items[0]);
      assert items[1..] == rest && forall k :: 0 < k < |items| ==> items[k] == rest[k - 1];
      assert pairs == [(items[0].key, items[0].value)] + pairs[1..];
    }
  }

  function Encoded(name: string, path: string, pairs: seq<(string, string)>, hs: seq<Header>, body: string): Message
    requires Encodable(path) && EncodablePairs(pairs)
  {
    Message(name, PercentEncode(path), path, EncodedItems(pairs), "HTTP/1.1", hs, body)
  }

  // Any path from the root and any query without NUL bytes has a request that is read
  // back as that path and that query.
  lemma EncodedRoundTrip(name: string, path: string, pairs: seq<(string, string)>, hs: seq<Header>, body: string, before: HttpRequest)
    requires name != "" && IsUpper(name) && path != "" && path[0] == '/' && Encodable(path) && EncodablePairs(pairs)
    requires WellFormedHeaders(hs) && LengthsValid(hs)
    ensures ParseRequest(MessageText(Encoded(name, path, pairs, hs, body)), before) ==
      Some((Described(Cleared(before, name), hs).(path := path, query := pairs), body))
  {
    EncodedIsWellFormed(name, path, pairs, hs, body);
    hide Described;
    hide Cleared;
    hide WellFormedHeaders;
    hide LengthsValid;
    hide ParseRequest;
    hide MessageText;
    hide PercentEncode;
    hide EncodedItems;
    hide WellFormedMessage;
    RequestRoundTrip(Encoded(name, path, pairs, hs, body), before);
  }

  lemma EncodedIsWellFormed(name: string, path: string, pairs: seq<(string, string)>, hs: seq<Header>, body: string)
    requires name != "" && IsUpper(name) && path != "" && path[0] == '/' && Encodable(path) && EncodablePairs(pairs)
    requires WellFormedHeaders(hs)
    ensures
      var m := Encoded(name, path, pairs, hs, body);
      WellFormedMessage(m) && m.headers == hs && m.path == path && m.body == body && Pairs(m.items) == pairs
  {
    var m := Encoded(name, path, pairs, hs, body);
    hide WellFormedHeaders;
    assert m.pathText[0] == '/';
    EncodedIsPlain(path);
    EncodedItemsAreWellFormed(pairs);
    hide PercentEncode;
    hide EncodedItems;
    hide WellFormedItems;
    hide Encodes;
  }

  // ----- the recognised names -------------------------------------------------

  function Written(name: string, value: string): Header {
    Header("", name, "", " ", value, "")
  }

  lemma AcceptName()
    ensures FieldOf(ToLower("Accept")) == Accept
  {
    hide ToLower;
    LowerIs("Accept", "accept");
  }

  lemma ContentTypeName()
    ensures FieldOf(ToLower("Content-Type")) == ContentType
  {
    hide ToLower;
    LowerIs("Content-Type", "content-type");
  }

  lemma ContentLengthName()
    ensures FieldOf(ToLower("Content-Length")) == ContentLength
  {
    hide ToLower;
    LowerIs("Content-Length", "content-length");
  }

  lemma ApiKeyName()
    ensures FieldOf(ToLower("X-Mqtt-Api-Key")) == ApiKey
  {
    hide ToLower;
    LowerIs("X-Mqtt-Api-Key", "x-mqtt-api-key");
  }

  lemma QosName()
    ensures FieldOf(ToLower("X-Mqtt-Qos")) == Qos
  {
    hide ToLower;
    LowerIs("X-Mqtt-Qos", "x-mqtt-qos");
  }

  lemma RetainName()
    ensures FieldOf(ToLower("X-Mqtt-Retain")) == Retain
  {
    hide ToLower;
    LowerIs("X-Mqtt-Retain", "x-mqtt-retain");
  }

  lemma TransferEncodingName()
    ensures FieldOf(ToLower("Transfer-Encoding")) == TransferEncoding
  {
    hide ToLower;
    LowerIs("Transfer-Encoding", "transfer-encoding");
  }

  lemma LowerIs(s: string, t: string)
    requires |s| == |t| && forall k :: 0 <= k < |s| ==> Lower(s[k]) == t[k]
    ensures ToLower(s) == t
  {
    var u := ToLower(s);
    assert forall k :: 0 <= k < |s| ==> u[k] == t[k];
  }

  function StandardHeaders(accept: string, contentType: string, length: nat, key: string, qos: string, retain: string): seq<Header> {
    [Written("Accept", accept), Written("Content-Type", contentType), Written("Content-Length", Digits(length)),
     Written("X-Mqtt-Api-Key", key), Written("X-Mqtt-Qos", qos), Written("X-Mqtt-Retain", retain)]
  }

  // Each recognised header reaches its own field of the request.
  lemma StandardHeadersRead(accept: string, contentType: string, length: nat, key: string, qos: string, retain: string, before: HttpRequest)
    requires length <= LONG_MAX
    ensures
      var hs := StandardHeaders(accept, contentType, length, key, qos, retain);
      LengthsValid(hs) &&
      Described(before, hs) ==
      before.(accept := accept, contentType := contentType, contentLength := length, authToken := key, qos := qos, retain := retain)
  {
    hide *;
    AcceptName();
    ContentTypeName();
    ContentLengthName();
    ApiKeyName();
    QosName();
    RetainName();
    DigitsAreALength(length);
    var n := ["Accept", "Content-Type", "Content-Length", "X-Mqtt-Api-Key", "X-Mqtt-Qos", "X-Mqtt-Retain"];
    SixApplied(n, accept, contentType, Digits(length), key, qos, retain, before);
    StandardIs(accept, contentType, length, key, qos, retain);
    AppliedIsDescribed(before, StandardHeaders(accept, contentType, length, key, qos, retain));
  }

  lemma StandardIs(accept: string, contentType: string, length: nat, key: string, qos: string, retain: string)
    ensures StandardHeaders(accept, contentType, length, key, qos, retain) ==
      [Written("Accept", accept), Written("Content-Type", contentType), Written("Content-Length", Digits(length)),
       Written("X-Mqtt-Api-Key", key), Written("X-Mqtt-Qos", qos), Written("X-Mqtt-Retain", retain)]
  {
  }

  lemma AppliedTo(name: string, value: string, hs: seq<Header>, req: HttpRequest, req': HttpRequest)
    requires ApplyField(req, FieldOf(ToLower(name)), value) == Some(req')
    ensures Applied(req, [Written(name, value)] + hs) == Applied(req', hs)
  {
    hide FieldOf;
    hide ApplyField;
    assert ([Written(name, value)] + hs)[1..] == hs;
  }

  // The same with the names unspelled.
  lemma SixApplied(n: seq<string>, accept: string, contentType: string, length: string, key: string, qos: string,
    retain: string, before: HttpRequest)
    requires |n| == 6 && ParseLength(length).Some?
    requires FieldOf(ToLower(n[0])) == Accept && FieldOf(ToLower(n[1])) == ContentType && FieldOf(ToLower(n[2])) == ContentLength
    requires FieldOf(ToLower(n[3])) == ApiKey && FieldOf(ToLower(n[4])) == Qos && FieldOf(ToLower(n[5])) == Retain
    ensures
      Applied(before, [Written(n[0], accept), Written(n[1], contentType), Written(n[2], length),
                       Written(n[3], key), Written(n[4], qos), Written(n[5], retain)]) ==
      Some(before.(accept := accept, contentType := contentType, contentLength := ParseLength(length).value,
                   authToken := key, qos := qos, retain := retain))
  {
    hide *;
    var h5 := [Written(n[5], retain)];
    var h4 := [Written(n[4], qos)] + h5;
    var h3 := [Written(n[3], key)] + h4;
    var h2 := [Written(n[2], length)] + h3;
    var h1 := [Written(n[1], contentType)] + h2;
    var h0 := [Written(n[0], accept)] + h1;
    assert h5 == [Written(n[5], retain)] + [];
    ApplyFieldIs(before, accept);
    var r1 := before.(accept := accept);
    AppliedTo(n[0], accept, h1, before, r1);
    ApplyFieldIs(r1, contentType);
    var r2 := r1.(contentType := contentType);
    AppliedTo(n[1], contentType, h2, r1, r2);
    ApplyFieldIs(r2, length);
    var r3 := r2.(contentLength := ParseLength(length).value);
    AppliedTo(n[2], length, h3, r2, r3);
    ApplyFieldIs(r3, key);
    var r4 := r3.(authToken := key);
    AppliedTo(n[3], key, h4, r3, r4);
    ApplyFieldIs(r4, qos);
    var r5 := r4.(qos := qos);
    AppliedTo(n[4], qos, h5, r4, r5);
    ApplyFieldIs(r5, retain);
    var r6 := r5.(retain := retain);
    AppliedTo(n[5], retain, [], r5, r6);
    AppliedNone(r6);
    assert h0 == [Written(n[0], accept), Written(n[1], contentType), Written(n[2], length),
                  Written(n[3], key), Written(n[4], qos), Written(n[5], retain)];
  }

  lemma ApplyFieldIs(req: HttpRequest, value: string)
    ensures ApplyField(req, Accept, value) == Some(req.(accept := value))
    ensures ApplyField(req, ContentType, value) == Some(req.(contentType := value))
    ensures ParseLength(value).Some? ==> ApplyField(req, ContentLength, value) == Some(req.(contentLength := ParseLength(value).value))
    ensures ApplyField(req, ApiKey, value) == Some(req.(authToken := value))
    ensures ApplyField(req, Qos, value) == Some(req.(qos := value))
    ensures ApplyField(req, Retain, value) == Some(req.(retain := value))
  {
    hide ParseLength;
  }

  lemma AppliedNone(req: HttpRequest)
    ensures Applied(req, []) == Some(req)
  {
  }

  lemma ChunkedHeaderRead(value: string, before: HttpRequest)
    requires SaysChunked(value)
    ensures Described(before, [Written("Transfer-Encoding", value)]) == before.(chunked := true)
  {
    hide *;
    TransferEncodingName();
    WrittenIs("Transfer-Encoding", value);
    OneChunked(Written("Transfer-Encoding", value), before);
  }

  lemma WrittenIs(name: string, value: string)
    ensures Written(name, value).value == value
    ensures forall f :: Is(Written(name, value), f) <==> FieldOf(ToLower(name)) == f
  {
    hide FieldOf;
  }

  lemma OneChunked(h: Header, before: HttpRequest)
    requires Is(h, TransferEncoding) && SaysChunked(h.value)
    ensures Described(before, [h]) == before.(chunked := true)
  {
    hide SaysChunked;
    hide FieldOf;
    hide ParseLength;
    var hs := [h];
    NoLength();
    assert AnyChunked(hs) by { assert Is(hs[0], TransferEncoding) && SaysChunked(hs[0].value); }
    assert forall f: Field :: f != TransferEncoding ==> !Has(hs, f);
    LastIsNone(hs, Accept, before.accept);
    LastIsNone(hs, ContentType, before.contentType);
    LastIsNone(hs, ContentLength, "");
    LastIsNone(hs, ApiKey, before.authToken);
    LastIsNone(hs, Qos, before.qos);
    LastIsNone(hs, Retain, before.retain);
  }

  // A request that announces a length, whatever its body is.
  lemma WithLength(path: string, body: string, length: nat) returns (m: Message)
    requires path != "" && path[0] == '/' && Encodable(path) && length <= LONG_MAX
    ensures WellFormedMessage(m) && m.body == body
    ensures
      var p := ParseRequest(MessageText(m), FRESH);
      p.Some? && !p.value.0.chunked && p.value.0.contentLength == length
  {
    hide *;
    var h := Written("Content-Length", Digits(length));
    NoPairsToEncode();
    m := Encoded("PUT", path, [], [h], body);
    LengthHeader(length);
    EncodedIsWellFormed("PUT", path, [], [h], body);
    EncodedRoundTrip("PUT", path, [], [h], body, FRESH);
    LengthDescribed(length, Cleared(FRESH, "PUT"));
    FreshIsPlain("PUT");
  }

  lemma FreshIsPlain(name: string)
    ensures !Cleared(FRESH, name).chunked
  {
  }

  lemma LengthHeader(length: nat)
    requires length <= LONG_MAX
    ensures
      var h := Written("Content-Length", Digits(length));
      WellFormedHeaders([h]) && LengthsValid([h])
  {
    DigitsAreALength(length);
    LengthIsPlain(length);
    hide Digits;
    hide ParseLength;
    hide WellFormedHeader;
    hide FieldOf;
  }

  lemma LengthIsPlain(length: nat)
    ensures WellFormedHeader(Written("Content-Length", Digits(length)))
  {
    var v := Digits(length);
    assert forall k :: 0 <= k < |v| ==> IsDigit(v[k]);
    hide Digits;
  }

  lemma LengthDescribed(length: nat, before: HttpRequest)
    requires length <= LONG_MAX
    ensures
      Described(before, [Written("Content-Length", Digits(length))]) == before.(contentLength := length)
  {
    hide *;
    var h := Written("Content-Length", Digits(length));
    LengthHeader(length);
    DigitsAreALength(length);
    ContentLengthName();
    ApplyFieldIs(before, Digits(length));
    AppliedTo("Content-Length", Digits(length), [], before, before.(contentLength := length));
    AppliedNone(before.(contentLength := length));
    assert [h] + [] == [h];
    AppliedIsDescribed(before, [h]);
  }

  lemma NoPairsToEncode()
    ensures EncodablePairs([]) && IsUpper("PUT") && "PUT" != ""
  {
  }
}
