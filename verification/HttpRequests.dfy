/** The request parser: src/http.cpp:174-325, against section 3 of RFC 7230. */
module HttpRequests {
  import opened Text
  import opened HttpText

  datatype HttpRequest = HttpRequest(
    method_: string, path: string, query: seq<(string, string)>, accept: string, contentType: string,
    contentLength: int, chunked: bool, authToken: string, qos: string, retain: string, body: string)

  // What a HttpRequest holds before anything is parsed into it.
  const FRESH := HttpRequest("", "", [], "", "", -1, false, "", "", "", "")

  const CRLF := "\r\n"
  const BLANK_LINE := "\r\n\r\n"

  // ----- the request line -----------------------------------------------------

  predicate IsUpper(s: string) {
    forall k :: 0 <= k < |s| ==> 'A' <= s[k] <= 'Z'
  }

  predicate KnownVersion(v: string) {
    v == "HTTP/1.1" || v == "HTTP/1.0"
  }

  predicate IsTarget(t: string) {
    t != "" && t[0] == '/'
  }

  // The method and the target.
  function RequestLine(line: string): Option<(string, string)> {
    match Find(line, " ", 0)
    case None => None
    case Some(sp1) =>
      match Find(line, " ", sp1 + 1)
      case None => None
      case Some(sp2) =>
        var name, target, version := line[..sp1], line[sp1 + 1..sp2], line[sp2 + 1..];
        if KnownVersion(version) && name != "" && IsTarget(target) && IsUpper(name) then Some((name, target)) else None
  }

  // The target of a request line holds no space, so the decoder never meets one there.
  lemma TargetHasNoSpace(line: string)
    ensures RequestLine(line).Some? ==> ' ' !in RequestLine(line).value.1
  {
    if RequestLine(line).Some? {
      var sp1 := Find(line, " ", 0).value;
      var sp2 := Find(line, " ", sp1 + 1).value;
      forall k: nat | sp1 + 1 <= k < sp2 ensures line[k] != ' ' {
        assert !At(line, k, " ");
        AtChar(line, k, ' ');
      }
    }
  }

  // ----- the headers ----------------------------------------------------------

  datatype Field = Accept | ContentType | ContentLength | TransferEncoding | ApiKey | Qos | Retain | Other

  function FieldOf(name: string): Field {
    if name == "accept" then Accept
    else if name == "content-type" then ContentType
    else if name == "content-length" then ContentLength
    else if name == "transfer-encoding" then TransferEncoding
    else if name == "x-mqtt-api-key" then ApiKey
    else if name == "x-mqtt-qos" then Qos
    else if name == "x-mqtt-retain" then Retain
    else Other
  }

  predicate SaysChunked(value: string) {
    Find(ToLower(value), "chunked", 0).Some?
  }

  function ApplyField(req: HttpRequest, f: Field, value: string): Option<HttpRequest> {
    match f
    case Accept => Some(req.(accept := value))
    case ContentType => Some(req.(contentType := value))
    case ContentLength => if ParseLength(value).None? then None else Some(req.(contentLength := ParseLength(value).value))
    case TransferEncoding => Some(if SaysChunked(value) then req.(chunked := true) else req)
    case ApiKey => Some(req.(authToken := value))
    case Qos => Some(req.(qos := value))
    case Retain => Some(req.(retain := value))
    case Other => Some(req)
  }

  function ApplyLine(req: HttpRequest, line: string): Option<HttpRequest> {
    match Find(line, ":", 0)
    case None => Some(req)
    case Some(colon) => ApplyField(req, FieldOf(ToLower(TrimSpaces(line[..colon]))), TrimSpaces(line[colon + 1..]))
  }

  function ReadHeaders(raw: string, pos: nat, limit: nat, req: HttpRequest): Option<HttpRequest>
    requires limit <= |raw|
    decreases |raw| - pos
  {
    if pos >= limit then Some(req)
    else match Find(raw, CRLF, pos)
      case None => Some(req)
      case Some(next) =>
        if next > limit then Some(req)
        else match ApplyLine(req, raw[pos..next])
          case None => None
          case Some(req') => ReadHeaders(raw, next + 2, limit, req')
  }

  // ----- the target -----------------------------------------------------------

  function ReadPair(pair: string): Option<seq<(string, string)>> {
    if pair == "" then Some([])
    else
      var eq := Find(pair, "=", 0);
      var key := if eq.None? then pair else pair[..eq.value];
      var value := if eq.None? then "" else pair[eq.value + 1..];
      if PercentDecode(key).None? || PercentDecode(value).None? then None
      else Some([(PercentDecode(key).value, PercentDecode(value).value)])
  }

  function Joined(a: Option<seq<(string, string)>>, b: Option<seq<(string, string)>>): Option<seq<(string, string)>> {
    if a.None? || b.None? then None else Some(a.value + b.value)
  }

  function ReadPairs(query: string, start: nat): Option<seq<(string, string)>>
    requires start <= |query|
    decreases |query| - start
  {
    match Find(query, "&", start)
    case None => ReadPair(query[start..])
    case Some(amp) => Joined(ReadPair(query[start..amp]), ReadPairs(query, amp + 1))
  }

  function ReadTarget(req: HttpRequest, target: string): Option<HttpRequest> {
    var mark := Find(target, "?", 0);
    var path := if mark.None? then target else target[..mark.value];
    var query := if mark.None? then "" else target[mark.value + 1..];
    if PercentDecode(path).None? || ReadPairs(query, 0).None? then None
    else Some(req.(path := PercentDecode(path).value, query := ReadPairs(query, 0).value))
  }

  // ----- the whole request ----------------------------------------------------

  function Cleared(req: HttpRequest, name: string): HttpRequest {
    req.(method_ := name, accept := "", contentType := "", contentLength := -1, chunked := false, authToken := "", body := "")
  }

  // The request and what follows its blank line.
  function ParseRequest(raw: string, before: HttpRequest): Option<(HttpRequest, string)> {
    match Find(raw, CRLF, 0)
    case None => None
    case Some(lineEnd) =>
      match RequestLine(raw[..lineEnd])
      case None => None
      case Some(line) =>
        var end := Find(raw, BLANK_LINE, lineEnd);
        var limit := if end.None? then |raw| else end.value;
        match ReadHeaders(raw, lineEnd + 2, limit, Cleared(before, line.0))
        case None => None
        case Some(req) =>
          match ReadTarget(req, line.1)
          case None => None
          case Some(done) => Some((done, if end.None? then "" else raw[end.value + 4..]))
  }

  method ReadQuery(query: string) returns (r: Option<seq<(string, string)>>)
    ensures r == ReadPairs(query, 0)
  {
    hide ReadPair;
    var pairs: seq<(string, string)> := [];
    var start: nat := 0;
    JoinedThrice(Some([]), ReadPairs(query, 0), Some([]));
    while query != "" && start <= |query|
      invariant start <= |query| && ReadPairs(query, 0) == Joined(Some(pairs), ReadPairs(query, start))
      decreases |query| - start
    {
      var amp := Find(query, "&", start);
      var pair := if amp.None? then query[start..] else query[start..amp.value];
      var one := ReadPair(pair);
      JoinedThrice(Some(pairs), one, if amp.None? then Some([]) else ReadPairs(query, amp.value + 1));
      if one.None? {
        return None;
      }
      pairs := pairs + one.value;
      if amp.None? {
        return Some(pairs);
      }
      start := amp.value + 1;
    }
    assert query == "" ==> ReadPairs(query, 0) == ReadPair("");
    EmptyPair();
    return Some(pairs);
  }

  lemma EmptyPair()
    ensures ReadPair("") == Some([])
  {
  }

  lemma JoinedThrice(a: Option<seq<(string, string)>>, b: Option<seq<(string, string)>>, c: Option<seq<(string, string)>>)
    ensures Joined(a, Joined(b, c)) == Joined(Joined(a, b), c)
    ensures Joined(a, Some([])) == a && Joined(b, Some([])) == b && Joined(Some([]), b) == b
  {
    if a.Some? && b.Some? && c.Some? {
      assert a.value + (b.value + c.value) == (a.value + b.value) + c.value;
    }
    assert a.Some? ==> a.value + [] == a.value;
    assert b.Some? ==> b.value + [] == b.value && [] + b.value == b.value;
  }

  method ParseHeaders(raw: string, start: nat, limit: nat, before: HttpRequest) returns (r: Option<HttpRequest>)
    requires limit <= |raw|
    ensures r == ReadHeaders(raw, start, limit, before)
  {
    hide ApplyLine;
    hide Find;
    var pos, req := start, before;
    while pos < limit
      invariant ReadHeaders(raw, start, limit, before) == ReadHeaders(raw, pos, limit, req)
      decreases |raw| - pos
    {
      var next := Find(raw, CRLF, pos);
      if next.None? || next.value > limit {
        break;
      }
      var applied := ApplyLine(req, raw[pos..next.value]);
      if applied.None? {
        return None;
      }
      req := applied.value;
      pos := next.value + 2;
    }
    return Some(req);
  }

  method ParseTarget(before: HttpRequest, target: string) returns (r: Option<HttpRequest>)
    ensures r == ReadTarget(before, target)
  {
    hide ReadPairs;
    var mark := Find(target, "?", 0);
    var path := DecodePercent(if mark.None? then target else target[..mark.value]);
    if path.None? {
      return None;
    }
    var query := ReadQuery(if mark.None? then "" else target[mark.value + 1..]);
    if query.None? {
      return None;
    }
    return Some(before.(path := path.value, query := query.value));
  }

  method ParseHttpRequest(raw: string, before: HttpRequest) returns (ok: bool, req: HttpRequest, leftover: string)
    ensures ok == ParseRequest(raw, before).Some?
    ensures ok ==> ParseRequest(raw, before) == Some((req, leftover))
  {
    hide RequestLine;
    hide ReadHeaders;
    hide ReadTarget;
    ok, req, leftover := false, before, "";
    var lineEnd := Find(raw, CRLF, 0);
    if lineEnd.None? {
      return;
    }
    var line := ParseRequestLine(raw[..lineEnd.value]);
    if line.None? {
      return;
    }
    req := Cleared(req, line.value.0);
    var end := Find(raw, BLANK_LINE, lineEnd.value);
    var headers := ParseHeaders(raw, lineEnd.value + 2, if end.None? then |raw| else end.value, req);
    if headers.None? {
      return;
    }
    if end.Some? {
      leftover := raw[end.value + 4..];
    }
    var done := ParseTarget(headers.value, line.value.1);
    if done.None? {
      return;
    }
    ok, req := true, done.value;
  }

  method ParseRequestLine(line: string) returns (r: Option<(string, string)>)
    ensures r == RequestLine(line)
  {
    var sp1 := Find(line, " ", 0);
    if sp1.None? {
      return None;
    }
    var sp2 := Find(line, " ", sp1.value + 1);
    if sp2.None? {
      return None;
    }
    var name, target, version := line[..sp1.value], line[sp1.value + 1..sp2.value], line[sp2.value + 1..];
    if !KnownVersion(version) || name == "" || !IsTarget(target) {
      return None;
    }
    for k := 0 to |name|
      invariant forall i :: 0 <= i < k ==> 'A' <= name[i] <= 'Z'
    {
      if !('A' <= name[k] <= 'Z') {
        return None;
      }
    }
    return Some((name, target));
  }
}
