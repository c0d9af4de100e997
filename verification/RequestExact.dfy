/** Exactly which request lines, header names, lengths and queries the parser accepts,
    and as what: src/http.cpp:185-325, without the parser's own vocabulary. */
module RequestExact {
  import opened Text
  import opened Numbers
  import opened JsonScan
  import opened HttpText
  import opened HttpRequests

  // ----- the request line -----------------------------------------------------

  predicate Capitals(s: string) {
    forall k :: 0 <= k < |s| ==> 65 <= s[k] as int <= 90
  }

  predicate LineIs(line: string, name: string, target: string, version: string) {
    && name != "" && Capitals(name)
    && target != "" && target[0] == '/' && ' ' !in target
    && (version == "HTTP/1.1" || version == "HTTP/1.0")
    && line == name + [' '] + (target + [' '] + version)
  }

  // A method in capitals, one space, a target that starts with a slash, one space and
  // one of two versions; nothing else is accepted.
  lemma RequestLineExactly(line: string, name: string, target: string)
    ensures RequestLine(line) == Some((name, target)) <==> exists v :: LineIs(line, name, target, v)
  {
    if RequestLine(line) == Some((name, target)) {
      var v := LineParts(line, name, target);
    }
    forall v | LineIs(line, name, target, v) ensures RequestLine(line) == Some((name, target)) {
      LineAccepted(line, name, target, v);
    }
    hide RequestLine;
    hide LineIs;
  }

  lemma LineParts(line: string, name: string, target: string) returns (v: string)
    requires RequestLine(line) == Some((name, target))
    ensures LineIs(line, name, target, v)
  {
    hide Find;
    TargetHasNoSpace(line);
    var sp1 := Find(line, " ", 0).value;
    var sp2 := Find(line, " ", sp1 + 1).value;
    AtChar(line, sp1, ' ');
    AtChar(line, sp2, ' ');
    hide At;
    v := line[sp2 + 1..];
    VersionIs(v);
    hide KnownVersion;
    assert line[sp1 + 1..] == target + ([' '] + v);
    assert line == name + ([' '] + line[sp1 + 1..]);
    Rejoin(name, target, v);
  }

  lemma Rejoin(name: string, target: string, v: string)
    ensures name + ([' '] + (target + ([' '] + v))) == name + [' '] + (target + [' '] + v)
  {
  }

  lemma VersionIs(v: string)
    ensures KnownVersion(v) <==> v == "HTTP/1.1" || v == "HTTP/1.0"
  {
  }

  lemma LineAccepted(line: string, name: string, target: string, v: string)
    requires LineIs(line, name, target, v)
    ensures RequestLine(line) == Some((name, target))
  {
    hide Find;
    hide KnownVersion;
    var rest := target + [' '] + v;
    assert line[0..] == line && " " == [' '];
    assert line == name + [' '] + rest;
    NoSpaceInVersion(v);
    FindAfter(line, 0, name, ' ', rest);
    assert line[..|name|] == line[0..0 + |name|];
    FindAfter(line, |name| + 1, target, ' ', v);
  }

  lemma NoSpaceInVersion(v: string)
    requires v == "HTTP/1.1" || v == "HTTP/1.0"
    ensures ' ' !in v && KnownVersion(v)
  {
  }

  // ----- header names ---------------------------------------------------------

  // a is the lower-case text b with any of its letters in capitals.
  predicate InAnyCase(a: string, b: string) {
    |a| == |b| && forall k :: 0 <= k < |b| ==> a[k] == b[k] || ('a' <= b[k] <= 'z' && a[k] as int == b[k] as int - 32)
  }

  lemma ToLowerIs(a: string, b: string)
    requires forall k :: 0 <= k < |b| ==> !(65 <= b[k] as int <= 90)
    ensures ToLower(a) == b <==> InAnyCase(a, b)
  {
    if InAnyCase(a, b) {
      assert forall k :: 0 <= k < |b| ==> ToLower(a)[k] == b[k];
    }
  }

  lemma FieldTexts(n: string)
    ensures FieldOf(n) == Accept <==> n == "accept"
    ensures FieldOf(n) == ContentType <==> n == "content-type"
    ensures FieldOf(n) == ContentLength <==> n == "content-length"
    ensures FieldOf(n) == TransferEncoding <==> n == "transfer-encoding"
    ensures FieldOf(n) == ApiKey <==> n == "x-mqtt-api-key"
    ensures FieldOf(n) == Qos <==> n == "x-mqtt-qos"
    ensures FieldOf(n) == Retain <==> n == "x-mqtt-retain"
  {
    assert "x-mqtt-api-key"[0] != "content-length"[0];
  }

  lemma LowerTexts()
    ensures NoCapital("accept") && NoCapital("content-type") && NoCapital("content-length")
    ensures NoCapital("transfer-encoding") && NoCapital("x-mqtt-api-key") && NoCapital("x-mqtt-qos") && NoCapital("x-mqtt-retain")
  {
  }

  predicate NoCapital(b: string) {
    forall k :: 0 <= k < |b| ==> !(65 <= b[k] as int <= 90)
  }

  // Seven header names are recognised, each in any case.
  lemma FieldsExactly(name: string)
    ensures
      var f := FieldOf(ToLower(name));
      && (f == Accept <==> InAnyCase(name, "accept"))
      && (f == ContentType <==> InAnyCase(name, "content-type"))
      && (f == ContentLength <==> InAnyCase(name, "content-length"))
      && (f == TransferEncoding <==> InAnyCase(name, "transfer-encoding"))
      && (f == ApiKey <==> InAnyCase(name, "x-mqtt-api-key"))
      && (f == Qos <==> InAnyCase(name, "x-mqtt-qos"))
      && (f == Retain <==> InAnyCase(name, "x-mqtt-retain"))
  {
    hide *;
    FieldTexts(ToLower(name));
    LowerTexts();
    LowerIs(name, "accept");
    LowerIs(name, "content-type");
    LowerIs(name, "content-length");
    LowerIs(name, "transfer-encoding");
    LowerIs(name, "x-mqtt-api-key");
    LowerIs(name, "x-mqtt-qos");
    LowerIs(name, "x-mqtt-retain");
  }

  lemma LowerIs(a: string, b: string)
    requires NoCapital(b)
    ensures ToLower(a) == b <==> InAnyCase(a, b)
  {
    ToLowerIs(a, b);
  }

  // The word is at k, in any case.
  predicate WordAt(s: string, k: nat, word: string) {
    k + |word| <= |s| && InAnyCase(s[k..k + |word|], word)
  }

  // A transfer coding is chunked if the word is anywhere in it, in any case.
  lemma SaysChunkedExactly(value: string)
    ensures SaysChunked(value) <==> exists k: nat :: WordAt(value, k, "chunked")
  {
    var low, word := ToLower(value), "chunked";
    forall k: nat ensures At(low, k, word) <==> WordAt(value, k, word) {
      WordAtIs(value, k, word);
    }
    hide WordAt;
    hide At;
    hide ToLower;
    if Find(low, word, 0).Some? {
      assert At(low, Find(low, word, 0).value, word);
    }
  }

  lemma WordAtIs(s: string, k: nat, word: string)
    requires forall i :: 0 <= i < |word| ==> !(65 <= word[i] as int <= 90)
    ensures At(ToLower(s), k, word) <==> WordAt(s, k, word)
  {
    AtIs(ToLower(s), k, word);
    if k + |word| <= |s| {
      assert ToLower(s)[k..k + |word|] == ToLower(s[k..k + |word|]);
      ToLowerIs(s[k..k + |word|], word);
    }
    hide At;
    hide InAnyCase;
  }

  // A line without a colon says nothing.
  lemma NoColonNoHeader(req: HttpRequest, line: string)
    requires ':' !in line
    ensures ApplyLine(req, line) == Some(req)
  {
    assert line[0..] == line && ":" == [':'];
    FindNowhere(line, 0, ':');
  }

  // The text up to the next line end is the line.
  predicate IsLine(line: string) {
    forall k :: 0 <= k < |line| - 1 ==> !(line[k] == '\r' && line[k + 1] == '\n')
  }

  function Lines(lines: seq<string>): string {
    if lines == [] then "" else lines[0] + (CRLF + Lines(lines[1..]))
  }

  function ApplyAll(req: HttpRequest, lines: seq<string>): Option<HttpRequest>
    decreases |lines|
  {
    if lines == [] then Some(req)
    else
      var one := ApplyLine(req, lines[0]);
      if one.None? then None else ApplyAll(one.value, lines[1..])
  }

  // The headers are the lines up to the limit, one after the other, the one that ends
  // there included; text behind the last line end says nothing.
  lemma {:induction false} HeadersAreLines(raw: string, pos: nat, limit: nat, lines: seq<string>, tail: string, req: HttpRequest)
    requires pos <= |raw| && raw[pos..] == Lines(lines) + tail && limit <= |raw|
    requires forall k :: 0 <= k < |lines| ==> IsLine(lines[k])
    requires
      var behind := pos + |Lines(lines)|;
      (lines != [] && limit == behind - 2) || (limit == |raw| && Find(raw, CRLF, behind) == None)
    ensures ReadHeaders(raw, pos, limit, req) == ApplyAll(req, lines)
    decreases |lines|
  {
    hide Find;
    hide ApplyLine;
    if lines != [] {
      var line, rest := lines[0], Lines(lines[1..]);
      Behind(raw, pos, line, rest, tail);
      var one := ApplyLine(req, line);
      NoColonNoHeader(req, "");
      if one.Some? {
        forall k | 0 <= k < |lines| - 1 ensures IsLine(lines[1..][k]) {
          assert IsLine(lines[k + 1]);
        }
        if lines[1..] == [] && limit == pos + |line| {
          assert ReadHeaders(raw, pos + |line| + 2, limit, one.value) == Some(one.value);
        } else {
          HeadersAreLines(raw, pos + |line| + 2, limit, lines[1..], tail, one.value);
        }
      }
    }
  }

  lemma Behind(raw: string, pos: nat, line: string, rest: string, tail: string)
    requires pos <= |raw| && raw[pos..] == (line + (CRLF + rest)) + tail && IsLine(line)
    ensures pos + |line| + 2 <= |raw| && Find(raw, CRLF, pos) == Some(pos + |line|)
    ensures raw[pos..pos + |line|] == line && raw[pos + |line| + 2..] == rest + tail
  {
    assert (line + (CRLF + rest)) + tail == line + (CRLF + (rest + tail));
    LineEndsAt(raw, pos, line, rest + tail);
    hide Find;
    hide IsLine;
    var s := raw[pos..];
    assert s[..|line|] == line && s[|line| + 2..] == rest + tail;
  }

  lemma LineEndsAt(raw: string, pos: nat, line: string, rest: string)
    requires pos <= |raw| && raw[pos..] == line + (CRLF + rest) && IsLine(line)
    ensures Find(raw, CRLF, pos) == Some(pos + |line|) && pos + |line| + 2 <= |raw|
  {
    var p := pos + |line|;
    var s := raw[pos..];
    assert s[|line|] == '\r' && s[|line| + 1] == '\n';
    AtTwo(raw, p);
    forall k: nat | pos <= k < p ensures !At(raw, k, CRLF) {
      AtTwo(raw, k);
      assert raw[k] == s[k - pos] == line[k - pos] && raw[k + 1] == s[k - pos + 1];
    }
    FindIs(raw, CRLF, pos, p);
  }

  lemma AtTwo(s: string, k: nat)
    ensures At(s, k, CRLF) <==> k + 1 < |s| && s[k] == '\r' && s[k + 1] == '\n'
  {
    if k + 1 < |s| {
      assert s[k..k + 2] == [s[k], s[k + 1]];
    }
  }

  // Behind a request without a blank line nothing is left over.
  lemma NothingLeftOver(raw: string, before: HttpRequest)
    requires Find(raw, BLANK_LINE, 0) == None && ParseRequest(raw, before).Some?
    ensures ParseRequest(raw, before).value.1 == ""
  {
    hide At;
    hide RequestLine;
    hide ReadHeaders;
    hide ReadTarget;
  }

  // What a parsed request was before does not matter but for qos and retain, which the
  // parser does not reset, and for what the target replaces.
  lemma ClearedForgets(before: HttpRequest, name: string)
    ensures Cleared(before, name) ==
      HttpRequest(name, before.path, before.query, "", "", -1, false, "", before.qos, before.retain, "")
    ensures FRESH == HttpRequest("", "", [], "", "", -1, false, "", "", "", "")
  {
  }

  // ----- Content-Length -------------------------------------------------------

  predicate LengthIs(t: string, ws: string, sign: string, digits: string, n: nat) {
    && AllSpace(ws) && (sign == "" || sign == "+" || sign == "-")
    && digits != "" && AllDigits(digits) && DigitsValue(digits) == n <= 0x7FFF_FFFF_FFFF_FFFF && (sign == "-" ==> n == 0)
    && t == ws + (sign + digits)
  }

  // A length is white space, a sign and decimal digits up to the end or a NUL, in the
  // range of a 64-bit integer, and not negative.
  lemma LengthExactly(value: string, n: nat)
    ensures ParseLength(value) == Some(n) <==>
      exists ws, sign, digits :: LengthIs(CString(value), ws, sign, digits, n)
  {
    hide ParseLength;
    hide LengthIs;
    hide CString;
    if ParseLength(value) == Some(n) {
      var ws, sign, digits := LengthParts(value, n);
    }
    forall ws, sign, digits | LengthIs(CString(value), ws, sign, digits, n) ensures ParseLength(value) == Some(n) {
      SignedIsRead(value, ws, sign, digits, n);
    }
  }

  lemma LengthParts(value: string, n: nat) returns (ws: string, sign: string, digits: string)
    requires ParseLength(value) == Some(n)
    ensures LengthIs(CString(value), ws, sign, digits, n)
  {
    hide CString;
    hide DigitsValue;
    hide WsEnd;
    var t := CString(value);
    SpaceFront(t, 0);
    var start := WsEnd(t, 0);
    ws := t[..start];
    var u := t[start..];
    assert t == ws + u && ws == t[0..start];
    sign, digits := SignOf(u);
    hide AllSpace;
    hide AllDigits;
  }

  lemma SignOf(u: string) returns (sign: string, digits: string)
    requires u != ""
    ensures u == sign + digits
    ensures sign == (if u[0] == '-' then "-" else if u[0] == '+' then "+" else "")
    ensures digits == if u[0] == '-' || u[0] == '+' then u[1..] else u
  {
    sign := if u[0] == '-' then "-" else if u[0] == '+' then "+" else "";
    digits := if sign == "" then u else u[1..];
  }

  lemma {:induction false} SpaceFront(t: string, i: nat)
    requires i <= |t|
    ensures i <= WsEnd(t, i) <= |t| && AllSpace(t[i..WsEnd(t, i)])
    decreases |t| - i
  {
    if i < |t| && IsSpace(t[i]) {
      SpaceFront(t, i + 1);
      assert t[i..WsEnd(t, i)] == [t[i]] + t[i + 1..WsEnd(t, i)];
    }
  }

  lemma {:induction false} SpaceEnds(t: string, i: nat, j: nat)
    requires i <= j <= |t| && (forall k :: i <= k < j ==> IsSpace(t[k])) && (j < |t| ==> !IsSpace(t[j]))
    ensures WsEnd(t, i) == j
    decreases j - i
  {
    if i < j {
      SpaceEnds(t, i + 1, j);
    }
  }

  lemma SignedIsRead(value: string, ws: string, sign: string, digits: string, n: nat)
    requires LengthIs(CString(value), ws, sign, digits, n)
    ensures ParseLength(value) == Some(n)
  {
    hide CString;
    hide DigitsValue;
    var t := CString(value);
    var u := sign + digits;
    assert IsDigit(digits[0]);
    assert t[|ws|..] == u && t[|ws|] == u[0];
    SpaceEnds(t, 0, |ws|);
    assert sign != "" ==> u[1..] == digits;
    assert sign == "" ==> u == digits;
    hide WsEnd;
  }

  // ----- the query ------------------------------------------------------------

  // A key and a value around the first equals sign, or a key alone.
  ghost predicate PairIs(piece: string, key: string, value: string) {
    if '=' in piece then
      exists k, v :: piece == k + ['='] + v && '=' !in k && Encodes(k, key) && Encodes(v, value)
    else
      Encodes(piece, key) && value == ""
  }

  // An empty piece says nothing, any other one pair.
  ghost predicate PieceIs(piece: string, ps: seq<(string, string)>) {
    if piece == "" then ps == [] else |ps| == 1 && PairIs(piece, ps[0].0, ps[0].1)
  }

  // The pieces between the ampersands, in order.
  ghost predicate QueryIs(q: string, ps: seq<(string, string)>)
    decreases |q|
  {
    if '&' in q then
      exists piece, rest, n :: AmpersandAt(q, piece, rest) && 0 <= n <= |ps| && PieceIs(piece, ps[..n]) && QueryIs(rest, ps[n..])
    else
      PieceIs(q, ps)
  }

  predicate AmpersandAt(q: string, piece: string, rest: string) {
    |rest| < |q| && q == piece + ['&'] + rest && '&' !in piece
  }

  // There is one first place of a character.
  lemma FirstPlace(c: char, a: string, x: string, b: string, y: string)
    requires a + [c] + x == b + [c] + y && c !in a && c !in b
    ensures a == b && x == y
  {
    var s := a + [c] + x;
    assert s[0..] == s;
    FindAfter(s, 0, a, c, x);
    FindAfter(s, 0, b, c, y);
    assert a == s[..|a|] && b == s[..|b|] && x == s[|a| + 1..] && y == s[|b| + 1..];
  }

  lemma FindFirst(s: string, c: char, i: nat)
    requires i <= |s|
    ensures Find(s, [c], i) == None <==> c !in s[i..]
    ensures Find(s, [c], i).Some? ==>
      var p := Find(s, [c], i).value;
      i <= p < |s| && s[i..] == s[i..p] + [c] + s[p + 1..] && c !in s[i..p]
  {
    if c !in s[i..] {
      FindNowhere(s, i, c);
    } else {
      var k :| 0 <= k < |s| - i && s[i..][k] == c;
      AtChar(s, i + k, c);
      var p := Find(s, [c], i).value;
      AtChar(s, p, c);
      forall j: nat | i <= j < p ensures s[j] != c {
        AtChar(s, j, c);
      }
    }
  }

  lemma ReadPairExactly(piece: string, ps: seq<(string, string)>)
    ensures ReadPair(piece) == Some(ps) <==> PieceIs(piece, ps)
  {
    hide Encodes;
    hide PercentDecode;
    hide Find;
    FindFirst(piece, '=', 0);
    assert piece[0..] == piece && "=" == ['='];
    if piece != "" && |ps| == 1 {
      var key, value := ps[0].0, ps[0].1;
      assert ps == [(key, value)];
      if '=' in piece {
        var p := Find(piece, "=", 0).value;
        assert piece[0..p] == piece[..p];
        DecodesExactly(piece[..p], key);
        DecodesExactly(piece[p + 1..], value);
        forall k, v | piece == k + ['='] + v && '=' !in k ensures k == piece[..p] && v == piece[p + 1..] {
          FirstPlace('=', k, v, piece[..p], piece[p + 1..]);
        }
      } else {
        DecodesExactly(piece, key);
        NothingDecodes();
      }
    }
  }

  lemma NothingDecodes()
    ensures PercentDecode("") == Some("")
  {
  }

  lemma QueryHas(q: string, piece: string, rest: string, ps: seq<(string, string)>, n: nat)
    requires AmpersandAt(q, piece, rest) && n <= |ps| && PieceIs(piece, ps[..n]) && QueryIs(rest, ps[n..])
    ensures QueryIs(q, ps)
  {
    hide PieceIs;
  }

  lemma QueryParts(q: string, ps: seq<(string, string)>) returns (piece: string, rest: string, n: nat)
    requires '&' in q && QueryIs(q, ps)
    ensures AmpersandAt(q, piece, rest) && n <= |ps| && PieceIs(piece, ps[..n]) && QueryIs(rest, ps[n..])
  {
    hide PieceIs;
    var a, b, k :| AmpersandAt(q, a, b) && 0 <= k <= |ps| && PieceIs(a, ps[..k]) && QueryIs(b, ps[k..]);
    piece, rest, n := a, b, k;
  }

  lemma OnePiece(q: string, ps: seq<(string, string)>)
    requires '&' !in q
    ensures QueryIs(q, ps) <==> PieceIs(q, ps)
  {
    hide PieceIs;
  }

  lemma ReadPairsStep(query: string, start: nat)
    requires start <= |query|
    ensures '&' !in query[start..] ==> ReadPairs(query, start) == ReadPair(query[start..])
    ensures '&' in query[start..] ==>
      Find(query, "&", start).Some? &&
      var p := Find(query, "&", start).value;
      && start <= p < |query| && AmpersandAt(query[start..], query[start..p], query[p + 1..])
      && ReadPairs(query, start) == Joined(ReadPair(query[start..p]), ReadPairs(query, p + 1))
  {
    hide Find;
    hide ReadPair;
    hide Joined;
    assert "&" == ['&'];
    FindFirst(query, '&', start);
  }

  lemma JoinedIs(a: Option<seq<(string, string)>>, b: Option<seq<(string, string)>>, ps: seq<(string, string)>)
    ensures Joined(a, b) == Some(ps) <==>
      a.Some? && b.Some? && |a.value| <= |ps| && a.value == ps[..|a.value|] && b.value == ps[|a.value|..]
  {
    if a.Some? && b.Some? {
      var n := |a.value|;
      assert (a.value + b.value)[..n] == a.value && (a.value + b.value)[n..] == b.value;
      assert n <= |ps| ==> ps[..n] + ps[n..] == ps;
    }
  }

  lemma SamePlace(q: string, piece: string, rest: string, piece': string, rest': string)
    requires AmpersandAt(q, piece, rest) && AmpersandAt(q, piece', rest')
    ensures piece == piece' && rest == rest'
  {
    FirstPlace('&', piece, rest, piece', rest');
  }

  // The pairs of a query in order, or nothing if one piece cannot be decoded.
  lemma {:induction false} ReadPairsExactly(query: string, start: nat, ps: seq<(string, string)>)
    requires start <= |query|
    ensures ReadPairs(query, start) == Some(ps) <==> QueryIs(query[start..], ps)
    decreases |query| - start
  {
    hide *;
    var q := query[start..];
    ReadPairsStep(query, start);
    if '&' !in q {
      ReadPairExactly(q, ps);
      OnePiece(q, ps);
    } else {
      var p := Find(query, "&", start).value;
      var piece, rest := query[start..p], query[p + 1..];
      var a := ReadPair(piece);
      JoinedIs(a, ReadPairs(query, p + 1), ps);
      if ReadPairs(query, start) == Some(ps) {
        var n := |a.value|;
        ReadPairExactly(piece, ps[..n]);
        ReadPairsExactly(query, p + 1, ps[n..]);
        QueryHas(q, piece, rest, ps, n);
      } else if QueryIs(q, ps) {
        var piece', rest', n := QueryParts(q, ps);
        SamePlace(q, piece, rest, piece', rest');
        ReadPairExactly(piece, ps[..n]);
        ReadPairsExactly(query, p + 1, ps[n..]);
      }
    }
  }

  // The path in front of the first question mark, and the query behind it.
  ghost predicate TargetIs(target: string, path: string, query: seq<(string, string)>) {
    if '?' in target then
      exists p, q :: target == p + ['?'] + q && '?' !in p && Encodes(p, path) && QueryIs(q, query)
    else
      Encodes(target, path) && query == []
  }

  lemma ReadTargetExactly(req: HttpRequest, target: string, r: HttpRequest)
    ensures ReadTarget(req, target) == Some(r) <==>
      TargetIs(target, r.path, r.query) && r == req.(path := r.path, query := r.query)
  {
    hide Encodes;
    hide PercentDecode;
    hide Find;
    hide QueryIs;
    FindFirst(target, '?', 0);
    assert target[0..] == target && "?" == ['?'];
    var path, query := target, "";
    if '?' in target {
      var m := Find(target, "?", 0).value;
      path, query := target[..m], target[m + 1..];
      assert target[0..m] == path;
      forall p, q | target == p + ['?'] + q && '?' !in p ensures p == path && q == query {
        FirstPlace('?', p, q, path, query);
      }
    } else {
      NoQuery(r.query);
    }
    DecodesExactly(path, r.path);
    assert query[0..] == query;
    ReadPairsExactly(query, 0, r.query);
    hide ReadPairs;
  }

  lemma NoQuery(ps: seq<(string, string)>)
    ensures QueryIs("", ps) <==> ps == []
  {
  }
}
