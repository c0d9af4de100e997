/** The index-driven JSON scanner: src/json_util.cpp:20-273 and json_escape of
    src/text_util.cpp:17-62.  Every loop of the source is a method proved equal to
    a recursive function on the remaining text; the functions are what the other
    modules reason about. */
module JsonScan {
  import opened Text

  // ----- where a token ends ---------------------------------------------------

  function WsEnd(s: string, i: nat): (r: nat)
    ensures i <= r && (r > i ==> r <= |s|)
    decreases |s| - i
  {
    if i < |s| && IsSpace(s[i]) then WsEnd(s, i + 1) else i
  }

  // i is inside a string; the result is the index just past its closing quote.
  function StringEnd(s: string, i: nat): (r: Option<nat>)
    ensures r.Some? ==> i < r.value <= |s|
    decreases |s| - i
  {
    if i >= |s| then None
    else if s[i] == '\\' then StringEnd(s, i + 2)
    else if s[i] == '\"' then Some(i + 1)
    else StringEnd(s, i + 1)
  }

  // i is `depth` levels inside brackets of one kind; brackets of the other kind are
  // ordinary characters and strings are jumped over.
  function NestEnd(s: string, i: nat, open: char, close: char, depth: nat): (r: Option<nat>)
    ensures r.Some? ==> i <= r.value && (depth > 0 ==> i < r.value <= |s|)
    decreases |s| - i
  {
    if depth == 0 then Some(i)
    else if i >= |s| then None
    else if s[i] == '\"' then
      match StringEnd(s, i + 1)
      case None => None
      case Some(j) => NestEnd(s, j, open, close, depth)
    else if s[i] == open then NestEnd(s, i + 1, open, close, depth + 1)
    else if s[i] == close then NestEnd(s, i + 1, open, close, depth - 1)
    else NestEnd(s, i + 1, open, close, depth)
  }

  predicate EndsScalar(c: char) {
    c == ',' || c == '}' || c == ']' || IsSpace(c)
  }

  function ScalarEnd(s: string, i: nat): (r: nat)
    ensures i <= r && (r > i ==> r <= |s|)
    decreases |s| - i
  {
    if i < |s| && !EndsScalar(s[i]) then ScalarEnd(s, i + 1) else i
  }

  function ValueEnd(s: string, i: nat): (r: Option<nat>)
    ensures r.Some? ==> i < r.value <= |s|
  {
    if i >= |s| then None
    else if s[i] == '\"' then StringEnd(s, i + 1)
    else if s[i] == '{' then NestEnd(s, i + 1, '{', '}', 1)
    else if s[i] == '[' then NestEnd(s, i + 1, '[', ']', 1)
    else if ScalarEnd(s, i) > i then Some(ScalarEnd(s, i)) else None
  }

  // ----- escaping -------------------------------------------------------------

  function HexDigit(n: nat): char
    requires n < 16
  {
    if n < 10 then ('0' as int + n) as char else ('a' as int + n - 10) as char
  }

  // The value of a hexadecimal digit of either case.
  function HexValue(c: char): (r: Option<nat>)
    ensures r.Some? ==> r.value < 16
  {
    if '0' <= c <= '9' then Some(c as int - '0' as int)
    else if 'a' <= c <= 'f' then Some(c as int - 'a' as int + 10)
    else if 'A' <= c <= 'F' then Some(c as int - 'A' as int + 10)
    else None
  }

  const LOWER_HEX := "0123456789abcdef"
  const UPPER_HEX := "0123456789ABCDEF"

  // c is a way to write the hexadecimal digit n.
  predicate Writes(c: char, n: nat) {
    n < 16 && (c == LOWER_HEX[n] || c == UPPER_HEX[n])
  }

  lemma HexValueIs(c: char, n: nat)
    ensures HexValue(c) == Some(n) <==> Writes(c, n)
  {
    if n < 16 {
      HexCharacters(n);
    }
  }

  lemma HexCharacters(n: nat)
    requires n < 16
    ensures LOWER_HEX[n] as int == n + if n < 10 then 48 else 87
    ensures UPPER_HEX[n] as int == n + if n < 10 then 48 else 55
  {
  }

  function EscapeChar(c: char): (r: string)
    ensures |r| > 0
  {
    if c == '\"' then "\\\""
    else if c == '\\' then "\\\\"
    else if c == 8 as char then "\\b"
    else if c == 12 as char then "\\f"
    else if c == '\n' then "\\n"
    else if c == '\r' then "\\r"
    else if c == '\t' then "\\t"
    else if c as int < 0x20 then "\\u00" + [HexDigit(c as int / 16), HexDigit(c as int % 16)]
    else [c]
  }

  function Escape(s: string): string {
    if s == "" then "" else EscapeChar(s[0]) + Escape(s[1..])
  }

  // The byte a two-character escape stands for; unknown escapes keep their letter.
  function EscapeTarget(c: char): char {
    if c == 'b' then 8 as char
    else if c == 'f' then 12 as char
    else if c == 'n' then '\n'
    else if c == 'r' then '\r'
    else if c == 't' then '\t'
    else c
  }

  // The UTF-8 bytes of a code point below 0x10000; the source's bitwise "or" adds
  // to zero bits only, so it is a sum.
  function Utf8(cp: nat): string
    requires cp < 0x10000
  {
    if cp < 0x80 then [cp as char]
    else if cp < 0x800 then [(0xC0 + cp / 64) as char, (0x80 + cp % 64) as char]
    else [(0xE0 + cp / 4096) as char, (0x80 + cp / 64 % 64) as char, (0x80 + cp % 64) as char]
  }

  function HexNumber(h: string): (r: Option<nat>)
    ensures |h| <= 4 && r.Some? ==> r.value < 0x10000
    ensures r.Some? && |h| == 3 ==> r.value < 0x1000
    ensures r.Some? && |h| == 2 ==> r.value < 0x100
    ensures r.Some? && |h| == 1 ==> r.value < 0x10
    ensures |h| == 0 ==> r == Some(0)
  {
    if h == "" then Some(0)
    else
      match (HexNumber(h[..|h| - 1]), HexValue(h[|h| - 1]))
      case (Some(n), Some(d)) => Some(16 * n + d)
      case _ => None
  }

  function Unescape(s: string): string {
    if s == "" then ""
    else if s[0] != '\\' then [s[0]] + Unescape(s[1..])
    else if |s| == 1 then ""
    else if s[1] != 'u' then [EscapeTarget(s[1])] + Unescape(s[2..])
    else if |s| < 6 || HexNumber(s[2..6]).None? then "u" + Unescape(s[2..])
    else Utf8(HexNumber(s[2..6]).value) + Unescape(s[6..])
  }

  // ----- the flat tokenizer ---------------------------------------------------

  // One member of a flat object: the unescaped key and the raw text of its value.
  datatype Pair = Pair(key: string, raw: string)

  // A member as it stands in the text: its pair, and where the text goes on after
  // the white space behind it.
  datatype Member = Member(pair: Pair, next: nat)

  function MemberAt(s: string, i: nat): (r: Option<Member>)
    ensures r.Some? ==> 0 < |r.value.pair.raw| < |s| - i && i < r.value.next
  {
    var k := WsEnd(s, i);
    if k >= |s| || s[k] != '\"' then None else
    var keyEnd := StringEnd(s, k + 1);
    if keyEnd.None? then None else
    var c := WsEnd(s, keyEnd.value);
    if c >= |s| || s[c] != ':' then None else
    var v := WsEnd(s, c + 1);
    var vEnd := ValueEnd(s, v);
    if vEnd.None? then None else
    Some(Member(Pair(Unescape(s[k + 1..keyEnd.value - 1]), s[v..vEnd.value]), WsEnd(s, vEnd.value)))
  }

  function MembersFrom(s: string, i: nat): (r: Option<seq<Pair>>)
    decreases |s| - i
  {
    var m := MemberAt(s, i);
    if m.None? then None else
    var Member(p, d) := m.value;
    if d < |s| && s[d] == ',' then
      match MembersFrom(s, d + 1)
      case None => None
      case Some(ps) => Some([p] + ps)
    else if d < |s| && s[d] == '}' then Some([p])
    else None
  }

  function Tokens(s: string): (r: Option<seq<Pair>>) {
    var i := WsEnd(s, 0);
    if i >= |s| || s[i] != '{' then None else
    var j := WsEnd(s, i + 1);
    if j < |s| && s[j] == '}' then Some([]) else MembersFrom(s, j)
  }

  // Every value handed on is a strictly shorter, non-empty piece of the text: what
  // ends the recursion of the flattener.
  lemma TokensAreShorter(s: string)
    ensures Tokens(s).Some? ==> forall k :: 0 <= k < |Tokens(s).value| ==> 0 < |Tokens(s).value[k].raw| < |s|
  {
    var j := WsEnd(s, WsEnd(s, 0) + 1);
    MembersAreShorter(s, j);
  }

  lemma MemberIsShorter(s: string, i: nat)
    ensures MemberAt(s, i).Some? ==>
      0 < |MemberAt(s, i).value.pair.raw| < |s| - i && i < MemberAt(s, i).value.next
  {
  }

  lemma {:induction false} MembersAreShorter(s: string, i: nat)
    ensures MembersFrom(s, i).Some? ==>
      forall k :: 0 <= k < |MembersFrom(s, i).value| ==> 0 < |MembersFrom(s, i).value[k].raw| < |s| - i
    decreases |s| - i
  {
    hide MemberAt;
    MemberIsShorter(s, i);
    var m := MemberAt(s, i);
    if m.Some? && m.value.next < |s| {
      MembersAreShorter(s, m.value.next + 1);
    }
  }

  // ----- the loops of the source ----------------------------------------------

  method SkipWs(s: string, start: nat) returns (i: nat)
    ensures i == WsEnd(s, start)
  {
    i := start;
    while i < |s| && IsSpace(s[i])
      invariant WsEnd(s, i) == WsEnd(s, start)
    {
      i := i + 1;
    }
  }

  method SkipJsonString(s: string, start: nat) returns (r: Option<nat>)
    ensures r == StringEnd(s, start + 1)
  {
    var i := start + 1;
    while i < |s|
      invariant StringEnd(s, i) == StringEnd(s, start + 1)
    {
      if s[i] == '\\' {
        i := i + 2;
        continue;
      }
      if s[i] == '\"' {
        return Some(i + 1);
      }
      i := i + 1;
    }
    return None;
  }

  method SkipJsonValue(s: string, start: nat) returns (r: Option<nat>)
    ensures r == ValueEnd(s, start)
  {
    if start >= |s| {
      return None;
    }
    var c := s[start];
    if c == '\"' {
      r := SkipJsonString(s, start);
      return;
    }
    var i: nat := start;
    if c == '{' || c == '[' {
      var close := if c == '{' then '}' else ']';
      var depth: nat := 1;
      i := i + 1;
      while i < |s| && depth > 0
        invariant NestEnd(s, i, c, close, depth) == NestEnd(s, start + 1, c, close, 1)
        decreases |s| - i
      {
        if s[i] == '\"' {
          var j := SkipJsonString(s, i);
          if j.None? {
            return None;
          }
          i := j.value;
          continue;
        }
        if s[i] == c {
          depth := depth + 1;
        } else if s[i] == close {
          depth := depth - 1;
        }
        i := i + 1;
      }
      return if depth == 0 then Some(i) else None;
    }
    while i < |s| && !EndsScalar(s[i])
      invariant start <= i && ScalarEnd(s, i) == ScalarEnd(s, start)
    {
      i := i + 1;
    }
    return if i > start then Some(i) else None;
  }

  method JsonEscape(s: string) returns (out: string)
    ensures out == Escape(s)
  {
    out := "";
    for i := 0 to |s|
      invariant out + Escape(s[i..]) == Escape(s)
    {
      assert s[i..][1..] == s[i + 1..];
      out := out + EscapeChar(s[i]);
    }
  }

  method JsonUnescape(s: string) returns (out: string)
    ensures out == Unescape(s)
  {
    out := "";
    var i := 0;
    while i < |s|
      invariant 0 <= i <= |s|
      invariant out + Unescape(s[i..]) == Unescape(s)
    {
      var piece, next := UnescapeOne(s, i);
      assert out + (piece + Unescape(s[next..])) == (out + piece) + Unescape(s[next..]);
      out, i := out + piece, next;
    }
  }

  // One round of json_unescape's loop: what it appends and where it goes on.
  method UnescapeOne(s: string, start: nat) returns (piece: string, next: nat)
    requires start < |s|
    ensures start < next <= |s| && Unescape(s[start..]) == piece + Unescape(s[next..])
  {
    var c := s[start];
    ghost var rest := s[start..];
    if c != '\\' {
      assert rest[1..] == s[start + 1..];
      return [c], start + 1;
    }
    var i := start + 1;
    if i >= |s| {
      return "", i;
    }
    assert rest[2..] == s[i + 1..];
    if s[i] != 'u' {
      return [EscapeTarget(s[i])], i + 1;
    }
    if i + 4 >= |s| {
      return "u", i + 1;
    }
    assert rest[2..6] == s[i + 1..i + 5] && rest[6..] == s[i + 5..];
    var cp := ReadHex4(s[i + 1..i + 5]);
    if cp.None? {
      return "u", i + 1;
    }
    return Utf8(cp.value), i + 5;
  }

  // The inner loop of json_unescape over the four digits after "\u".
  method ReadHex4(h: string) returns (r: Option<nat>)
    requires |h| == 4
    ensures r == HexNumber(h)
  {
    var cp := 0;
    for k := 0 to 4
      invariant HexNumber(h[..k]) == Some(cp)
    {
      var d := HexValue(h[k]);
      assert h[..k + 1][..k] == h[..k];
      if d.None? {
        HexNumberStuck(h, k + 1);
        return None;
      }
      cp := 16 * cp + d.value;
    }
    assert h[..4] == h;
    return Some(cp);
  }

  lemma {:induction false} HexNumberStuck(h: string, k: nat)
    requires k <= |h| && HexNumber(h[..k]).None?
    ensures HexNumber(h).None?
    decreases |h| - k
  {
    if k < |h| {
      assert h[..k + 1][..k] == h[..k];
      HexNumberStuck(h, k + 1);
    } else {
      assert h[..k] == h;
    }
  }

  // The body of the tokenizer's loop: one member, starting at i.
  method ReadMember(s: string, i: nat) returns (r: Option<Member>)
    ensures r == MemberAt(s, i)
  {
    hide WsEnd;
    hide StringEnd;
    hide ValueEnd;
    hide Unescape;
    var k := SkipWs(s, i);
    if k >= |s| || s[k] != '\"' {
      return None;
    }
    var keyEnd := SkipJsonString(s, k);
    if keyEnd.None? {
      return None;
    }
    var c := SkipWs(s, keyEnd.value);
    if c >= |s| || s[c] != ':' {
      return None;
    }
    var v := SkipWs(s, c + 1);
    var vEnd := SkipJsonValue(s, v);
    if vEnd.None? {
      return None;
    }
    var key := JsonUnescape(s[k + 1..keyEnd.value - 1]);
    var d := SkipWs(s, vEnd.value);
    return Some(Member(Pair(key, s[v..vEnd.value]), d));
  }

  function Prepend(ps: seq<Pair>, r: Option<seq<Pair>>): Option<seq<Pair>> {
    match r
    case None => None
    case Some(qs) => Some(ps + qs)
  }

  lemma PrependNothing(r: Option<seq<Pair>>)
    ensures Prepend([], r) == r
  {
    if r.Some? {
      assert [] + r.value == r.value;
    }
  }

  lemma MembersStep(s: string, i: nat, ps: seq<Pair>)
    requires MemberAt(s, i).Some?
    ensures
      var Member(p, d) := MemberAt(s, i).value;
      Prepend(ps, MembersFrom(s, i)) ==
      if d < |s| && s[d] == ',' then Prepend(ps + [p], MembersFrom(s, d + 1))
      else if d < |s| && s[d] == '}' then Some(ps + [p])
      else None
  {
    hide MemberAt;
    var Member(p, d) := MemberAt(s, i).value;
    if d < |s| && s[d] == ',' && MembersFrom(s, d + 1).Some? {
      var qs := MembersFrom(s, d + 1).value;
      assert ps + ([p] + qs) == (ps + [p]) + qs;
    }
  }

  // On failure the pairs read so far are discarded by every caller.
  method TokenizeFlatObject(s: string) returns (ok: bool, pairs: seq<Pair>)
    ensures ok <==> Tokens(s).Some?
    ensures ok ==> pairs == Tokens(s).value
  {
    hide MemberAt;
    pairs := [];
    var i := SkipWs(s, 0);
    if i >= |s| || s[i] != '{' {
      return false, pairs;
    }
    i := SkipWs(s, i + 1);
    if i < |s| && s[i] == '}' {
      return true, pairs;
    }
    PrependNothing(MembersFrom(s, i));
    while true
      invariant Tokens(s) == Prepend(pairs, MembersFrom(s, i))
      decreases |s| - i
    {
      var m := ReadMember(s, i);
      if m.None? {
        return false, pairs;
      }
      MembersStep(s, i, pairs);
      pairs := pairs + [m.value.pair];
      var d := m.value.next;
      if d < |s| && s[d] == ',' {
        i := d + 1;
        continue;
      }
      return d < |s| && s[d] == '}', pairs;
    }
  }

  // ----- escaping and scanning undo each other --------------------------------

  // Text that can stand between two quotes: every backslash escapes a character and
  // no quote is bare.
  predicate StringBody(raw: string) {
    raw == "" ||
    if raw[0] == '\\' then |raw| >= 2 && StringBody(raw[2..])
    else raw[0] != '\"' && StringBody(raw[1..])
  }

  lemma {:induction false} StringEndAt(s: string, i: nat, raw: string)
    requires StringBody(raw) && At(s, i, raw + "\"")
    ensures StringEnd(s, i) == Some(i + |raw| + 1)
    decreases |raw|
  {
    AtChars(s, i, raw + "\"");
    if raw == "" {
    } else {
      assert s[i] == raw[0];
      var n := if raw[0] == '\\' then 2 else 1;
      assert raw + "\"" == raw[..n] + (raw[n..] + "\"");
      AtSplit(s, i, raw[..n], raw[n..] + "\"");
      StringEndAt(s, i + n, raw[n..]);
    }
  }

  lemma UnescapeEscapeChar(c: char, rest: string)
    ensures Unescape(EscapeChar(c) + rest) == [c] + Unescape(rest)
    ensures StringBody(rest) ==> StringBody(EscapeChar(c) + rest)
  {
    hide Unescape;
    var e := EscapeChar(c);
    var t := e + rest;
    if e == [c] {
      assert t[1..] == rest;
      UnescapePlain(t);
    } else if |e| == 2 {
      assert t[2..] == rest;
      UnescapeTwo(t);
    } else {
      UnescapeControl(c as int, rest);
    }
  }

  lemma UnescapePlain(t: string)
    requires t != "" && t[0] != '\\'
    ensures Unescape(t) == [t[0]] + Unescape(t[1..])
  {
  }

  lemma UnescapeTwo(t: string)
    requires |t| >= 2 && t[0] == '\\' && t[1] != 'u'
    ensures Unescape(t) == [EscapeTarget(t[1])] + Unescape(t[2..])
  {
  }

  lemma UnescapeControl(n: nat, rest: string)
    requires n < 0x20
    ensures
      var t := "\\u00" + [HexDigit(n / 16), HexDigit(n % 16)] + rest;
      Unescape(t) == [n as char] + Unescape(rest) && (StringBody(rest) ==> StringBody(t))
  {
    hide Unescape;
    var hi, lo := HexDigit(n / 16), HexDigit(n % 16);
    var t := "\\u00" + [hi, lo] + rest;
    HexOfByte(n);
    assert t[2..6] == ['0', '0', hi, lo] && t[6..] == rest;
    UnescapeUnicode(t);
    if StringBody(rest) {
      assert t[5..][1..] == rest && t[4..][1..] == t[5..] && t[3..][1..] == t[4..] && t[2..][1..] == t[3..];
      assert StringBody(t[5..]);
      assert StringBody(t[4..]);
      assert StringBody(t[3..]);
      assert StringBody(t[2..]);
    }
  }

  lemma UnescapeUnicode(t: string)
    requires |t| >= 6 && t[0] == '\\' && t[1] == 'u' && HexNumber(t[2..6]).Some?
    ensures Unescape(t) == Utf8(HexNumber(t[2..6]).value) + Unescape(t[6..])
  {
  }

  lemma HexOfByte(n: nat)
    requires n < 0x20
    ensures HexNumber(['0', '0', HexDigit(n / 16), HexDigit(n % 16)]) == Some(n)
  {
    var h := ['0', '0', HexDigit(n / 16), HexDigit(n % 16)];
    assert h[..3][..2][..1] == ['0'] && h[..3][..2] == ['0', '0'];
    assert HexNumber(['0']) == Some(0);
    assert HexNumber(['0', '0']) == Some(0);
    assert h[..3] == ['0', '0', HexDigit(n / 16)];
    assert HexNumber(h[..3]) == Some(n / 16);
  }

  // json_unescape undoes json_escape, and what json_escape writes is read back as
  // one string body, for every byte string.
  lemma {:induction false} UnescapeEscape(s: string)
    ensures Unescape(Escape(s)) == s
    ensures StringBody(Escape(s))
  {
    if s != "" {
      UnescapeEscape(s[1..]);
      UnescapeEscapeChar(s[0], Escape(s[1..]));
    }
  }

  // skip_json_string stops exactly at the closing quote of an escaped string,
  // whatever follows it.
  lemma EscapedStringEnds(s: string, i: nat, name: string)
    requires At(s, i, Escape(name) + "\"")
    ensures StringEnd(s, i) == Some(i + |Escape(name)| + 1)
    ensures Unescape(s[i..i + |Escape(name)|]) == name
  {
    hide *;
    UnescapeEscape(name);
    StringEndAt(s, i, Escape(name));
    AtSplit(s, i, Escape(name), "\"");
    AtIs(s, i, Escape(name));
  }

  lemma {:induction false} EscapeHasNoControl(s: string)
    ensures forall k :: 0 <= k < |Escape(s)| ==> Escape(s)[k] as int >= 0x20
  {
    if s != "" {
      EscapeHasNoControl(s[1..]);
      assert forall k :: 0 <= k < |EscapeChar(s[0])| ==> EscapeChar(s[0])[k] as int >= 0x20;
    }
  }
}
