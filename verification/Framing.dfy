/** Reading one request from a socket in pieces: src/http.cpp:97-172 and
    src/server.cpp:764-838.  The connection is the list of pieces that recv returns
    and the way it ends; a time-out is an ending. */
module Framing {
  import opened Text
  import opened HttpRequests
  import HttpText
  import RequestText

  datatype ReadResult = Ok | TooLarge | ConnectionClosed | Timeout | IoError

  const RECV_BYTES := 4096

  predicate Pieces(chunks: seq<string>) {
    forall k :: 0 <= k < |chunks| ==> 1 <= |chunks[k]| <= RECV_BYTES
  }

  predicate Ending(r: ReadResult) {
    r == ConnectionClosed || r == Timeout || r == IoError
  }

  // When read_until stops: at the end of the head, or at so many bytes.
  datatype Goal = BlankLine | Size(target: nat)

  predicate Reached(goal: Goal, s: string) {
    match goal
    case BlankLine => Find(s, BLANK_LINE, 0).Some?
    case Size(n) => |s| >= n
  }

  datatype Read = Read(result: ReadResult, buffer: string, rest: seq<string>)

  function ReadUntil(chunks: seq<string>, end: ReadResult, max: nat, buffer: string, goal: Goal): Read
    decreases |chunks|
  {
    if Reached(goal, buffer) then Read(Ok, buffer, chunks)
    else if chunks == [] then Read(end, buffer, [])
    else if |buffer + chunks[0]| > max then Read(TooLarge, buffer + chunks[0], chunks[1..])
    else ReadUntil(chunks[1..], end, max, buffer + chunks[0], goal)
  }

  datatype Outcome = Dropped | HeadTooLarge | Malformed | LengthRequired | BodyTooLarge | Routed(request: HttpRequest)

  // From the parsed head to the routed request; the body may need more pieces.
  function Assembled(req: HttpRequest, leftover: string, rest: seq<string>, end: ReadResult, maxBody: nat): Outcome {
    if req.chunked then LengthRequired
    else if req.contentLength > 0 && req.contentLength > maxBody then BodyTooLarge
    else if req.contentLength <= 0 then Routed(req)
    else if |leftover| >= req.contentLength then Routed(req.(body := leftover[..req.contentLength]))
    else
      var r := ReadUntil(rest, end, req.contentLength, leftover, Size(req.contentLength));
      if r.result == Ok then Routed(req.(body := r.buffer)) else Dropped
  }

  function Parsed(raw: string, rest: seq<string>, end: ReadResult, maxBody: nat): Outcome {
    var p := ParseRequest(raw, FRESH);
    if p.None? then Malformed else Assembled(p.value.0, p.value.1, rest, end, maxBody)
  }

  function Served(chunks: seq<string>, end: ReadResult, maxRequest: nat, maxBody: nat): Outcome {
    var head := ReadUntil(chunks, end, maxRequest, "", BlankLine);
    if head.result == TooLarge then HeadTooLarge
    else if head.result != Ok then Dropped
    else Parsed(head.buffer, head.rest, end, maxBody)
  }

  class Connection {
    var chunks: seq<string>
    const end: ReadResult

    constructor (chunks: seq<string>, end: ReadResult)
      requires Ending(end)
      ensures this.chunks == chunks && this.end == end
    {
      this.chunks, this.end := chunks, end;
    }

    method ReadUntilGoal(max: nat, start: string, goal: Goal) returns (result: ReadResult, out: string)
      requires Ending(end)
      modifies this
      ensures Read(result, out, chunks) == ReadUntil(old(chunks), end, max, start, goal)
    {
      hide Reached;
      out := start;
      while true
        invariant ReadUntil(chunks, end, max, out, goal) == ReadUntil(old(chunks), end, max, start, goal)
        decreases |chunks|
      {
        if Reached(goal, out) {
          return Ok, out;
        }
        if chunks == [] {
          return end, out;
        }
        var piece := chunks[0];
        chunks := chunks[1..];
        out := out + piece;
        if |out| > max {
          return TooLarge, out;
        }
      }
    }

    method Handle(maxRequest: nat, maxBody: nat) returns (outcome: Outcome)
      requires Ending(end)
      modifies this
      ensures outcome == Served(old(chunks), end, maxRequest, maxBody)
    {
      hide ReadUntil;
      hide ParseRequest;
      var result, raw := ReadUntilGoal(maxRequest, "", BlankLine);
      if result == TooLarge {
        return HeadTooLarge;
      }
      if result != Ok {
        return Dropped;
      }
      var ok, req, leftover := ParseHttpRequest(raw, FRESH);
      if !ok {
        return Malformed;
      }
      if req.chunked {
        return LengthRequired;
      }
      if req.contentLength > 0 && req.contentLength > maxBody {
        return BodyTooLarge;
      }
      if req.contentLength > 0 {
        var need := req.contentLength;
        var body := leftover;
        if |body| > need {
          body := body[..need];
        }
        if |body| < need {
          result, body := ReadUntilGoal(need, body, Size(need));
          if result != Ok {
            return Dropped;
          }
        }
        req := req.(body := body);
      }
      return Routed(req);
    }
  }

  // ----- the head decides the request -----------------------------------------

  lemma FindInPrefix(raw: string, n: nat, x: string, i: nat, p: nat)
    requires n <= |raw| && Find(raw, x, i) == Some(p) && p + |x| <= n
    ensures Find(raw[..n], x, i) == Some(p)
  {
    forall k: nat | k + |x| <= n ensures At(raw[..n], k, x) <==> At(raw, k, x) {
      assert raw[..n][k..k + |x|] == raw[k..k + |x|];
    }
    FindIs(raw[..n], x, i, p);
  }

  lemma BlankLineParts(raw: string, e: nat)
    requires At(raw, e, BLANK_LINE)
    ensures At(raw, e, CRLF) && e + 4 <= |raw|
  {
    assert BLANK_LINE == CRLF + CRLF;
    AtSplit(raw, e, CRLF, CRLF);
  }

  lemma FoundBy(raw: string, x: string, i: nat, e: nat)
    requires i <= e && At(raw, e, x)
    ensures Find(raw, x, i).Some? && Find(raw, x, i).value <= e
  {
  }

  lemma {:induction false} HeadersInPrefix(raw: string, n: nat, pos: nat, e: nat, req: HttpRequest)
    requires At(raw, e, BLANK_LINE) && e + 4 <= n <= |raw|
    ensures ReadHeaders(raw[..n], pos, e, req) == ReadHeaders(raw, pos, e, req)
    decreases |raw| - pos
  {
    hide Find;
    hide ApplyLine;
    hide At;
    if pos < e {
      BlankLineParts(raw, e);
      FoundBy(raw, CRLF, pos, e);
      var next := Find(raw, CRLF, pos).value;
      FindInPrefix(raw, n, CRLF, pos, next);
      assert raw[..n][pos..next] == raw[pos..next];
      var one := ApplyLine(req, raw[pos..next]);
      if one.Some? {
        HeadersInPrefix(raw, n, next + 2, e, one.value);
      }
    }
  }

  // A request and what is left over: the bytes after the head change only the latter.
  lemma HeadDecides(raw: string, n: nat, e: nat, before: HttpRequest)
    requires Find(raw, BLANK_LINE, 0) == Some(e) && e + 4 <= n <= |raw|
    ensures
      var whole, part := ParseRequest(raw, before), ParseRequest(raw[..n], before);
      if whole.None? then part.None?
      else part == Some((whole.value.0, raw[e + 4..n])) && whole.value.1 == raw[e + 4..]
  {
    hide Find;
    hide At;
    hide RequestLine;
    hide ReadHeaders;
    hide ReadTarget;
    BlankLineParts(raw, e);
    FoundBy(raw, CRLF, 0, e);
    var lineEnd := Find(raw, CRLF, 0).value;
    FindIs(raw, BLANK_LINE, lineEnd, e);
    FindInPrefix(raw, n, CRLF, 0, lineEnd);
    FindInPrefix(raw, n, BLANK_LINE, lineEnd, e);
    assert raw[..n][..lineEnd] == raw[..lineEnd];
    assert raw[..n][e + 4..] == raw[e + 4..n];
    var line := RequestLine(raw[..lineEnd]);
    if line.Some? {
      HeadersInPrefix(raw, n, lineEnd + 2, e, Cleared(before, line.value.0));
    }
  }

  // ----- what a read loop collects --------------------------------------------

  function Bytes(chunks: seq<string>): string {
    if chunks == [] then "" else chunks[0] + Bytes(chunks[1..])
  }

  // How many bytes there are, with got before the pieces, once whole pieces reach size;
  // all of them if they do not.
  function FirstCut(chunks: seq<string>, got: nat, size: nat): (c: nat)
    decreases |chunks|
  {
    if got >= size || chunks == [] then got else FirstCut(chunks[1..], got + |chunks[0]|, size)
  }

  lemma {:induction false} CutBounds(chunks: seq<string>, got: nat, size: nat)
    ensures got <= FirstCut(chunks, got, size) <= got + |Bytes(chunks)|
    ensures FirstCut(chunks, got, size) >= size <==> got + |Bytes(chunks)| >= size
    ensures Pieces(chunks) && got < size ==> FirstCut(chunks, got, size) < size + RECV_BYTES
    decreases |chunks|
  {
    if chunks != [] {
      assert forall k :: 0 <= k < |chunks| - 1 ==> chunks[1..][k] == chunks[k + 1];
      CutBounds(chunks[1..], got + |chunks[0]|, size);
    }
  }

  lemma {:induction false} CutShift(chunks: seq<string>, got: nat, size: nat, d: nat)
    ensures FirstCut(chunks, got + d, size + d) == FirstCut(chunks, got, size) + d
    decreases |chunks|
  {
    if chunks != [] && got < size {
      CutShift(chunks[1..], got + |chunks[0]|, size, d);
    }
  }

  // size is where the goal is reached in the bytes read before and still to come.
  ghost predicate GoalAt(goal: Goal, all: string, from: nat, size: nat) {
    forall k :: from <= k <= |all| ==> (Reached(goal, all[..k]) <==> k >= size)
  }

  predicate ReadsTo(r: Read, chunks: seq<string>, end: ReadResult, got: nat, all: string, size: nat, max: nat) {
    var c := FirstCut(chunks, got, size);
    if c < size then r.result == if chunks != [] && c > max then TooLarge else end
    else if got >= size || c <= max then
      r.result == Ok && c <= |all| && r.buffer == all[..c] && Bytes(r.rest) == all[c..]
    else r.result == TooLarge
  }

  lemma {:induction false} ReadUntilReads(chunks: seq<string>, end: ReadResult, max: nat, out: string, goal: Goal, size: nat)
    requires Ending(end) && GoalAt(goal, out + Bytes(chunks), |out|, size)
    ensures ReadsTo(ReadUntil(chunks, end, max, out, goal), chunks, end, |out|, out + Bytes(chunks), size, max)
    decreases |chunks|
  {
    hide Reached;
    var all := out + Bytes(chunks);
    assert all[..|out|] == out && all[|out|..] == Bytes(chunks);
    if |out| < size && chunks != [] {
      var out' := out + chunks[0];
      assert out' + Bytes(chunks[1..]) == all;
      CutBounds(chunks[1..], |out'|, size);
      if |out'| <= max {
        ReadUntilReads(chunks[1..], end, max, out', goal, size);
      }
    }
  }

  // The pieces a loop leaves go on where it stopped.
  lemma {:induction false} CutGoesOn(chunks: seq<string>, end: ReadResult, max: nat, out: string, goal: Goal, size: nat, more: nat)
    requires Ending(end) && GoalAt(goal, out + Bytes(chunks), |out|, size) && size <= more
    requires ReadUntil(chunks, end, max, out, goal).result == Ok
    ensures
      FirstCut(ReadUntil(chunks, end, max, out, goal).rest, FirstCut(chunks, |out|, size), more) == FirstCut(chunks, |out|, more)
    decreases |chunks|
  {
    hide Reached;
    var all := out + Bytes(chunks);
    assert all[..|out|] == out;
    if |out| < size && chunks != [] {
      var out' := out + chunks[0];
      assert out' + Bytes(chunks[1..]) == all;
      CutGoesOn(chunks[1..], end, max, out', goal, size, more);
    }
  }

  lemma BlankLineGoal(all: string, e: nat)
    requires Find(all, BLANK_LINE, 0) == Some(e)
    ensures GoalAt(BlankLine, all, 0, e + 4)
  {
    forall k | 0 <= k <= |all| ensures Reached(BlankLine, all[..k]) <==> k >= e + 4 {
      if k >= e + 4 {
        FindInPrefix(all, k, BLANK_LINE, 0, e);
      } else {
        var r := Find(all[..k], BLANK_LINE, 0);
        if r.Some? {
          assert all[..k][r.value..r.value + 4] == all[r.value..r.value + 4];
          assert At(all, r.value, BLANK_LINE);
          assert false;
        }
      }
    }
  }

  // ----- chunking -------------------------------------------------------------

  // The body is read right: nothing of it has to be read, or it comes with the head,
  // or a piece ends where it ends.
  predicate BodyFits(chunks: seq<string>, head: nat, req: HttpRequest, maxBody: nat) {
    || req.chunked || req.contentLength <= 0 || req.contentLength > maxBody
    || |Bytes(chunks)| < head + req.contentLength
    || FirstCut(chunks, 0, head) >= head + req.contentLength
    || FirstCut(chunks, 0, head + req.contentLength) == head + req.contentLength
  }

  lemma BodyRead(chunks: seq<string>, rest: seq<string>, end: ReadResult, leftover: string, all: string, head: nat, n: nat)
    requires Ending(end) && n > 0 && head <= |all| && leftover + Bytes(rest) == all[head..] && |leftover| < n
    ensures
      var r := ReadUntil(rest, end, n, leftover, Size(n));
      var c := FirstCut(rest, |leftover|, n);
      (r.result == Ok <==> c == n) && (r.result == Ok ==> n <= |all| - head && r.buffer == all[head..][..n])
  {
    ReadUntilReads(rest, end, n, leftover, Size(n), n);
    CutBounds(rest, |leftover|, n);
    hide ReadUntil;
  }

  // The head read stops at the first piece that completes the head; it is too large
  // exactly if it has too many bytes by then.
  lemma HeadRead(chunks: seq<string>, end: ReadResult, maxRequest: nat, e: nat)
    requires Ending(end) && Find(Bytes(chunks), BLANK_LINE, 0) == Some(e)
    ensures
      var all, c := Bytes(chunks), FirstCut(chunks, 0, e + 4);
      var r := ReadUntil(chunks, end, maxRequest, "", BlankLine);
      && e + 4 <= c <= |all|
      && r.result == (if c <= maxRequest then Ok else TooLarge)
      && (r.result == Ok ==>
            r.buffer == all[..c] && Bytes(r.rest) == all[c..] &&
            forall more :: more >= e + 4 ==> FirstCut(r.rest, c, more) == FirstCut(chunks, 0, more))
  {
    hide Find;
    hide ReadUntil;
    hide FirstCut;
    hide Bytes;
    hide GoalAt;
    var all := Bytes(chunks);
    assert "" + all == all;
    BlankLineGoal(all, e);
    ReadUntilReads(chunks, end, maxRequest, "", BlankLine, e + 4);
    CutBounds(chunks, 0, e + 4);
    if FirstCut(chunks, 0, e + 4) <= maxRequest {
      forall more | more >= e + 4
        ensures FirstCut(ReadUntil(chunks, end, maxRequest, "", BlankLine).rest, FirstCut(chunks, 0, e + 4), more) ==
          FirstCut(chunks, 0, more)
      {
        CutGoesOn(chunks, end, maxRequest, "", BlankLine, e + 4, more);
      }
    }
  }

  // A limit with room for one more piece behind the head is never reached.
  lemma RoomForAPiece(chunks: seq<string>, maxRequest: nat, e: nat)
    requires Pieces(chunks) && e + 4 + RECV_BYTES - 1 <= maxRequest
    ensures FirstCut(chunks, 0, e + 4) <= maxRequest
  {
    CutBounds(chunks, 0, e + 4);
  }

  // Without the end of a head the connection is dropped, or refused if more than the
  // limit arrives.
  lemma NoHeadIsRefused(chunks: seq<string>, end: ReadResult, maxRequest: nat, maxBody: nat)
    requires Pieces(chunks) && Ending(end) && Find(Bytes(chunks), BLANK_LINE, 0) == None
    ensures Served(chunks, end, maxRequest, maxBody) == if |Bytes(chunks)| > maxRequest then HeadTooLarge else Dropped
  {
    var all := Bytes(chunks);
    assert "" + all == all;
    NeverBlankLine(all);
    ReadUntilReads(chunks, end, maxRequest, "", BlankLine, |all| + 1);
    CutBounds(chunks, 0, |all| + 1);
    AllCut(chunks, 0, |all| + 1);
    hide ReadUntil;
    hide FirstCut;
    hide Parsed;
  }

  lemma {:induction false} AllCut(chunks: seq<string>, got: nat, size: nat)
    requires got + |Bytes(chunks)| < size
    ensures FirstCut(chunks, got, size) == got + |Bytes(chunks)|
    decreases |chunks|
  {
    if chunks != [] {
      AllCut(chunks[1..], got + |chunks[0]|, size);
    }
  }

  lemma NeverBlankLine(all: string)
    requires Find(all, BLANK_LINE, 0) == None
    ensures GoalAt(BlankLine, all, 0, |all| + 1)
  {
    forall k | 0 <= k <= |all| ensures !Reached(BlankLine, all[..k]) {
      NotInPrefix(all, BLANK_LINE, k);
    }
  }

  lemma NotInPrefix(all: string, x: string, k: nat)
    requires Find(all, x, 0) == None && k <= |all|
    ensures Find(all[..k], x, 0) == None
  {
    var r := Find(all[..k], x, 0);
    hide Find;
    if r.Some? {
      AtInPrefix(all, x, k, r.value);
    }
  }

  lemma AtInPrefix(all: string, x: string, k: nat, p: nat)
    requires k <= |all| && At(all[..k], p, x)
    ensures At(all, p, x)
  {
    assert all[..k][p..p + |x|] == all[p..p + |x|];
  }

  lemma NoPieceLeft(end: ReadResult, n: nat, body: string)
    requires Ending(end)
    ensures ReadUntil([], end, n, body, Size(n)).result == if |body| >= n then Ok else end
  {
  }

  // The body of a request whose head is known, read from the pieces that are left.
  lemma BodyAssembled(chunks: seq<string>, rest: seq<string>, end: ReadResult, maxBody: nat, head: nat, c: nat, req: HttpRequest)
    requires Ending(end) && head <= c <= |Bytes(chunks)| && Bytes(rest) == Bytes(chunks)[c..]
    requires c == FirstCut(chunks, 0, head) && forall more :: more >= head ==> FirstCut(rest, c, more) == FirstCut(chunks, 0, more)
    ensures
      var all := Bytes(chunks);
      Assembled(req, all[head..c], rest, end, maxBody) ==
      if BodyFits(chunks, head, req, maxBody) then Assembled(req, all[head..], [], end, maxBody) else Dropped
    ensures !BodyFits(chunks, head, req, maxBody) ==> Assembled(req, Bytes(chunks)[head..], [], end, maxBody).Routed?
  {
    hide Bytes;
    hide ReadUntil;
    var all, n := Bytes(chunks), req.contentLength;
    var leftover := all[head..c];
    if !req.chunked && 0 < n <= maxBody {
      if |leftover| >= n {
        assert leftover[..n] == all[head..][..n];
      } else {
        assert leftover + Bytes(rest) == all[head..];
        BodyRead(chunks, rest, end, leftover, all, head, n);
        CutShift(rest, c - head, n, head);
        CutBounds(rest, |leftover|, n);
        NoPieceLeft(end, n, all[head..]);
        hide FirstCut;
        assert FirstCut(rest, c, head + n) == FirstCut(chunks, 0, head + n);
      }
    }
  }

  // Whatever the pieces: the head is too large exactly if it is by the piece that
  // completes it; otherwise the request is served as if it had come whole, exactly when
  // its body fits, and dropped when not.
  lemma ServedExactlyWhen(chunks: seq<string>, end: ReadResult, maxRequest: nat, maxBody: nat, e: nat)
    requires Ending(end) && Find(Bytes(chunks), BLANK_LINE, 0) == Some(e)
    ensures
      var all := Bytes(chunks);
      var p := ParseRequest(all, FRESH);
      var fits := p.Some? ==> BodyFits(chunks, e + 4, p.value.0, maxBody);
      var small := FirstCut(chunks, 0, e + 4) <= maxRequest;
      && (Served(chunks, end, maxRequest, maxBody) == HeadTooLarge <==> !small)
      && (small && fits ==> Served(chunks, end, maxRequest, maxBody) == Parsed(all, [], end, maxBody))
      && (small && !fits ==> Served(chunks, end, maxRequest, maxBody) == Dropped && Parsed(all, [], end, maxBody).Routed?)
  {
    hide *;
    var all, c := Bytes(chunks), FirstCut(chunks, 0, e + 4);
    HeadRead(chunks, end, maxRequest, e);
    var r := ReadUntil(chunks, end, maxRequest, "", BlankLine);
    if c <= maxRequest {
      HeadDecides(all, c, e, FRESH);
      var p := ParseRequest(all, FRESH);
      ServedParsed(chunks, end, maxRequest, maxBody, r, all);
      if p.Some? {
        BodyAssembled(chunks, r.rest, end, maxBody, e + 4, c, p.value.0);
      }
    } else {
      ServedTooLarge(chunks, end, maxRequest, maxBody);
    }
  }

  lemma ServedTooLarge(chunks: seq<string>, end: ReadResult, maxRequest: nat, maxBody: nat)
    requires ReadUntil(chunks, end, maxRequest, "", BlankLine).result == TooLarge
    ensures Served(chunks, end, maxRequest, maxBody) == HeadTooLarge
  {
    hide ReadUntil;
    hide Parsed;
  }

  lemma ServedParsed(chunks: seq<string>, end: ReadResult, maxRequest: nat, maxBody: nat, r: Read, all: string)
    requires r == ReadUntil(chunks, end, maxRequest, "", BlankLine) && r.result == Ok
    ensures
      var p, q := ParseRequest(r.buffer, FRESH), ParseRequest(all, FRESH);
      && Served(chunks, end, maxRequest, maxBody) ==
         (if p.None? then Malformed else Assembled(p.value.0, p.value.1, r.rest, end, maxBody))
      && Parsed(all, [], end, maxBody) ==
         (if q.None? then Malformed else Assembled(q.value.0, q.value.1, [], end, maxBody))
      && Served(chunks, end, maxRequest, maxBody) != HeadTooLarge
  {
    hide ReadUntil;
    hide ParseRequest;
  }

  // With exactly the announced bytes behind the head, the pieces never matter.
  lemma ExactBodyIsServed(chunks: seq<string>, end: ReadResult, maxRequest: nat, maxBody: nat, e: nat)
    requires Pieces(chunks) && Ending(end) && Find(Bytes(chunks), BLANK_LINE, 0) == Some(e)
    requires e + 4 + RECV_BYTES - 1 <= maxRequest
    requires
      match ParseRequest(Bytes(chunks), FRESH)
      case None => true
      case Some(p) => p.0.contentLength <= 0 || |Bytes(chunks)| <= e + 4 + p.0.contentLength
    ensures Served(chunks, end, maxRequest, maxBody) == Parsed(Bytes(chunks), [], end, maxBody)
  {
    hide ParseRequest;
    hide Served;
    hide Parsed;
    hide Find;
    hide FirstCut;
    hide Bytes;
    RoomForAPiece(chunks, maxRequest, e);
    ServedExactlyWhen(chunks, end, maxRequest, maxBody, e);
    var p := ParseRequest(Bytes(chunks), FRESH);
    if p.Some? && p.value.0.contentLength > 0 {
      CutBounds(chunks, 0, e + 4 + p.value.0.contentLength);
    }
  }

  // The same bytes, with some behind the announced body: routed if they come in one
  // piece, dropped if the first piece ends with the head.
  lemma ExtraBytesDecide(raw: string, e: nat, end: ReadResult, maxRequest: nat, maxBody: nat)
    requires Ending(end) && Find(raw, BLANK_LINE, 0) == Some(e) && e + 4 <= |raw| <= maxRequest
    requires ParseRequest(raw, FRESH).Some?
    requires
      var req := ParseRequest(raw, FRESH).value.0;
      !req.chunked && 0 < req.contentLength <= maxBody && e + 4 + req.contentLength < |raw|
    ensures Served([raw], end, maxRequest, maxBody).Routed?
    ensures Served([raw[..e + 4], raw[e + 4..]], end, maxRequest, maxBody) == Dropped
  {
    var req := ParseRequest(raw, FRESH).value.0;
    hide *;
    OneIsRouted(raw, e, end, maxRequest, maxBody, req);
    TwoAreDropped(raw, e, end, maxRequest, maxBody, req);
  }

  lemma OneIsRouted(raw: string, e: nat, end: ReadResult, maxRequest: nat, maxBody: nat, req: HttpRequest)
    requires Ending(end) && Find(raw, BLANK_LINE, 0) == Some(e) && e + 4 <= |raw| <= maxRequest
    requires ParseRequest(raw, FRESH).Some? && req == ParseRequest(raw, FRESH).value.0
    requires !req.chunked && 0 < req.contentLength <= maxBody && e + 4 + req.contentLength < |raw|
    ensures Served([raw], end, maxRequest, maxBody).Routed?
  {
    hide *;
    OnePiece(raw);
    OnePieceCut(raw, e + 4);
    ServedExactlyWhen([raw], end, maxRequest, maxBody, e);
    FitsIs([raw], e + 4, req, maxBody);
    HeadDecides(raw, |raw|, e, FRESH);
    assert raw[..|raw|] == raw;
    ParsedRoutes(raw, e, end, maxBody);
  }

  lemma ParsedRoutes(raw: string, e: nat, end: ReadResult, maxBody: nat)
    requires e + 4 <= |raw| && ParseRequest(raw, FRESH).Some? && ParseRequest(raw, FRESH).value.1 == raw[e + 4..]
    requires
      var req := ParseRequest(raw, FRESH).value.0;
      !req.chunked && 0 < req.contentLength <= maxBody && e + 4 + req.contentLength <= |raw|
    ensures Parsed(raw, [], end, maxBody).Routed?
  {
    hide ParseRequest;
  }

  lemma TwoAreDropped(raw: string, e: nat, end: ReadResult, maxRequest: nat, maxBody: nat, req: HttpRequest)
    requires Ending(end) && Find(raw, BLANK_LINE, 0) == Some(e) && e + 4 <= |raw| <= maxRequest
    requires ParseRequest(raw, FRESH).Some? && req == ParseRequest(raw, FRESH).value.0
    requires !req.chunked && 0 < req.contentLength <= maxBody && e + 4 + req.contentLength < |raw|
    ensures Served([raw[..e + 4], raw[e + 4..]], end, maxRequest, maxBody) == Dropped
  {
    hide *;
    var two := [raw[..e + 4], raw[e + 4..]];
    TwoPieces(raw, e + 4);
    TwoPiecesCut(raw, e + 4, e + 4);
    TwoPiecesCut(raw, e + 4, e + 4 + req.contentLength);
    ServedExactlyWhen(two, end, maxRequest, maxBody, e);
    FitsIs(two, e + 4, req, maxBody);
  }

  lemma FitsIs(chunks: seq<string>, head: nat, req: HttpRequest, maxBody: nat)
    requires !req.chunked && 0 < req.contentLength <= maxBody && |Bytes(chunks)| >= head + req.contentLength
    ensures BodyFits(chunks, head, req, maxBody) <==>
      FirstCut(chunks, 0, head) >= head + req.contentLength ||
      FirstCut(chunks, 0, head + req.contentLength) == head + req.contentLength
  {
    hide Bytes;
    hide FirstCut;
  }

  lemma OnePiece(raw: string)
    ensures Bytes([raw]) == raw
  {
    assert [raw][1..] == [];
    assert raw + "" == raw;
  }

  lemma TwoPieces(raw: string, n: nat)
    requires n <= |raw|
    ensures Bytes([raw[..n], raw[n..]]) == raw
  {
    OnePiece(raw[n..]);
    assert [raw[..n], raw[n..]][1..] == [raw[n..]];
    assert raw[..n] + raw[n..] == raw;
  }

  lemma OnePieceCut(raw: string, size: nat)
    requires 0 < size <= |raw|
    ensures FirstCut([raw], 0, size) == |raw|
  {
    assert [raw][1..] == [];
  }

  lemma TwoPiecesCut(raw: string, n: nat, size: nat)
    requires 0 < n <= |raw| && 0 < size <= |raw|
    ensures FirstCut([raw[..n], raw[n..]], 0, size) == if size <= n then n else |raw|
  {
    var two := [raw[..n], raw[n..]];
    assert two[1..] == [raw[n..]] && two[1..][1..] == [];
    assert FirstCut(two, 0, size) == FirstCut([raw[n..]], n, size);
    assert [raw[n..]][1..] == [];
    assert FirstCut([], |raw|, size) == |raw|;
  }

  lemma RootIsEncodable()
    ensures RequestText.Encodable("/") && 1 <= HttpText.LONG_MAX
  {
  }

  // There are such requests.
  lemma ExtraBytesHappen(end: ReadResult, maxRequest: nat, maxBody: nat) returns (raw: string, e: nat)
    requires Ending(end) && maxBody >= 1
    ensures e + 4 <= |raw|
    ensures |raw| <= maxRequest ==>
      && Served([raw], end, maxRequest, maxBody).Routed?
      && Served([raw[..e + 4], raw[e + 4..]], end, maxRequest, maxBody) == Dropped
  {
    hide *;
    RootIsEncodable();
    var m := RequestText.WithLength("/", "ab", 1);
    RequestText.MessageHead(m);
    raw, e := RequestText.MessageText(m), |RequestText.MessageText(m)| - |m.body| - 4;
    if |raw| <= maxRequest {
      ExtraBytesDecide(raw, e, end, maxRequest, maxBody);
    }
  }

  // From the client's request to the router: cut in any pieces, it arrives with its
  // fields and its body.
  lemma WrittenRequestIsServed(m: RequestText.Message, chunks: seq<string>, end: ReadResult, maxRequest: nat, maxBody: nat)
    requires RequestText.WellFormedMessage(m) && RequestText.LengthsValid(m.headers)
    requires Pieces(chunks) && Ending(end) && Bytes(chunks) == RequestText.MessageText(m)
    requires |RequestText.MessageText(m)| - |m.body| + RECV_BYTES - 1 <= maxRequest
    requires
      var req := RequestText.Meaning(m, FRESH);
      !req.chunked && |m.body| <= maxBody && (req.contentLength == |m.body| || (m.body == "" && req.contentLength == -1))
    ensures Served(chunks, end, maxRequest, maxBody) == Routed(RequestText.Meaning(m, FRESH).(body := m.body))
  {
    hide *;
    RequestText.MessageHead(m);
    RequestText.RequestRoundTrip(m, FRESH);
    var text := RequestText.MessageText(m);
    ExactBodyIsServed(chunks, end, maxRequest, maxBody, |text| - |m.body| - 4);
    var req := RequestText.Meaning(m, FRESH);
    ParsedIs(text, req, m.body, end, maxBody);
    if m.body == "" {
      MeaningHasNoBody(m);
      assert req.(body := m.body) == req;
    } else {
      assert m.body[..|m.body|] == m.body;
    }
  }

  lemma MeaningHasNoBody(m: RequestText.Message)
    ensures RequestText.Meaning(m, FRESH).body == ""
  {
    hide FRESH;
  }

  lemma ParsedIs(raw: string, req: HttpRequest, leftover: string, end: ReadResult, maxBody: nat)
    requires ParseRequest(raw, FRESH) == Some((req, leftover)) && !req.chunked && req.contentLength <= maxBody
    requires req.contentLength > 0 ==> req.contentLength == |leftover|
    ensures Parsed(raw, [], end, maxBody) == Routed(if req.contentLength > 0 then req.(body := leftover) else req)
  {
    hide ParseRequest;
    assert leftover[..|leftover|] == leftover;
  }
}
