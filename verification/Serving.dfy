/** How a request is answered, from its parsed fields and its bytes alone:
    src/server.cpp:764-838 over every way in which recv can cut it. */
module Serving {
  import opened Text
  import opened HttpRequests
  import opened Framing

  // The bytes the head announces.
  function Announced(req: HttpRequest): nat {
    if req.contentLength > 0 then req.contentLength else 0
  }

  // They come with the head, or a piece ends where they end.
  predicate Arrives(chunks: seq<string>, head: nat, n: nat) {
    && |Bytes(chunks)| >= head + n
    && (FirstCut(chunks, 0, head) >= head + n || FirstCut(chunks, 0, head + n) == head + n)
  }

  // A chunked request is refused, then one that announces too much; a request is routed
  // with exactly the announced bytes behind its head, or dropped.
  predicate Answer(r: Outcome, req: HttpRequest, behind: string, arrives: bool, maxBody: nat) {
    && (r == LengthRequired <==> req.chunked)
    && (r == BodyTooLarge <==> !req.chunked && req.contentLength > maxBody)
    && (r == Dropped <==> !req.chunked && req.contentLength <= maxBody && !arrives)
    && (r.Routed? <==> !req.chunked && req.contentLength <= maxBody && arrives)
    && (r.Routed? ==>
          && Announced(req) <= |behind|
          && r.request == req.(body := behind[..Announced(req)]))
  }

  // The answers to a request that comes whole.
  lemma WholeIsAnswered(req: HttpRequest, behind: string, end: ReadResult, maxBody: nat)
    requires Ending(end) && req.body == ""
    ensures Answer(Assembled(req, behind, [], end, maxBody), req, behind, Announced(req) <= |behind|, maxBody)
  {
    var n := req.contentLength;
    if n > 0 {
      NoPieceLeft(end, n, behind);
    }
    assert behind[..0] == "";
    assert behind[..|behind|] == behind;
    hide ReadUntil;
  }

  // ----- the body is empty until it is read -----------------------------------

  lemma LineKeepsBody(req: HttpRequest, line: string)
    ensures ApplyLine(req, line).Some? ==> ApplyLine(req, line).value.body == req.body
  {
    hide Find;
  }

  lemma {:induction false} HeadersKeepBody(raw: string, pos: nat, limit: nat, req: HttpRequest)
    requires limit <= |raw|
    ensures ReadHeaders(raw, pos, limit, req).Some? ==> ReadHeaders(raw, pos, limit, req).value.body == req.body
    decreases |raw| - pos
  {
    hide Find;
    hide ApplyLine;
    if pos < limit {
      var next := Find(raw, CRLF, pos);
      if next.Some? && next.value <= limit {
        LineKeepsBody(req, raw[pos..next.value]);
        var one := ApplyLine(req, raw[pos..next.value]);
        if one.Some? {
          HeadersKeepBody(raw, next.value + 2, limit, one.value);
        }
      }
    }
  }

  lemma ParsedHasNoBody(raw: string, before: HttpRequest)
    ensures ParseRequest(raw, before).Some? ==> ParseRequest(raw, before).value.0.body == ""
  {
    hide RequestLine;
    hide ReadHeaders;
    var lineEnd := Find(raw, CRLF, 0);
    if lineEnd.Some? {
      var line := RequestLine(raw[..lineEnd.value]);
      if line.Some? {
        var end := Find(raw, BLANK_LINE, lineEnd.value);
        HeadersKeepBody(raw, lineEnd.value + 2, if end.None? then |raw| else end.value, Cleared(before, line.value.0));
      }
    }
    hide Find;
  }

  // ----- every way of cutting it ----------------------------------------------

  // Bytes with a complete head, in any pieces: refused as a whole if the head is too
  // large by the piece that completes it, or malformed; otherwise answered by the
  // fields of the head, the bytes behind it and where the pieces end.
  lemma AnsweredByItsFields(chunks: seq<string>, end: ReadResult, maxRequest: nat, maxBody: nat, e: nat)
    requires Ending(end) && Find(Bytes(chunks), BLANK_LINE, 0) == Some(e)
    ensures e + 4 <= |Bytes(chunks)|
    ensures
      var all := Bytes(chunks);
      var p, r := ParseRequest(all, FRESH), Served(chunks, end, maxRequest, maxBody);
      && (r == HeadTooLarge <==> FirstCut(chunks, 0, e + 4) > maxRequest)
      && (FirstCut(chunks, 0, e + 4) <= maxRequest ==>
            && (r == Malformed <==> p == None)
            && (p.Some? ==> Answer(r, p.value.0, all[e + 4..], Arrives(chunks, e + 4, Announced(p.value.0)), maxBody)))
  {
    hide *;
    var all := Bytes(chunks);
    var p := ParseRequest(all, FRESH);
    BlankLineParts(all, e);
    ServedExactlyWhen(chunks, end, maxRequest, maxBody, e);
    ParsedIsAnswered(all, e, end, maxBody);
    if p.Some? {
      FitsExactly(chunks, e + 4, p.value.0, maxBody);
      AnswerWithPieces(Parsed(all, [], end, maxBody), p.value.0, all[e + 4..],
                       Arrives(chunks, e + 4, Announced(p.value.0)), maxBody);
    }
  }

  lemma ParsedIsAnswered(all: string, e: nat, end: ReadResult, maxBody: nat)
    requires Ending(end) && Find(all, BLANK_LINE, 0) == Some(e) && e + 4 <= |all|
    ensures
      var p, r := ParseRequest(all, FRESH), Parsed(all, [], end, maxBody);
      && (r == Malformed <==> p == None)
      && (p.Some? ==>
            var behind := all[e + 4..];
            Answer(r, p.value.0, behind, Announced(p.value.0) <= |behind|, maxBody))
  {
    HeadDecides(all, |all|, e, FRESH);
    assert all[..|all|] == all;
    ParsedHasNoBody(all, FRESH);
    var p := ParseRequest(all, FRESH);
    if p.Some? {
      WholeIsAnswered(p.value.0, all[e + 4..], end, maxBody);
    }
    hide ParseRequest;
    hide Find;
    hide Assembled;
  }

  // Where the pieces end decides only between routing and dropping.
  lemma FitsExactly(chunks: seq<string>, head: nat, req: HttpRequest, maxBody: nat)
    requires head <= |Bytes(chunks)|
    ensures
      var n := Announced(req);
      var whole := n <= |Bytes(chunks)| - head;
      && (Arrives(chunks, head, n) ==> whole)
      && (BodyFits(chunks, head, req, maxBody) && !req.chunked && req.contentLength <= maxBody ==>
            (whole <==> Arrives(chunks, head, n)))
      && (!BodyFits(chunks, head, req, maxBody) ==>
            !req.chunked && req.contentLength <= maxBody && whole && !Arrives(chunks, head, n))
  {
    CutBounds(chunks, 0, head);
    hide Bytes;
    hide FirstCut;
  }

  lemma AnswerWithPieces(r: Outcome, req: HttpRequest, behind: string, arrives: bool, maxBody: nat)
    requires Answer(r, req, behind, Announced(req) <= |behind|, maxBody) && (arrives ==> Announced(req) <= |behind|)
    ensures req.chunked || req.contentLength > maxBody ==> Answer(r, req, behind, arrives, maxBody)
    ensures (Announced(req) <= |behind| <==> arrives) ==> Answer(r, req, behind, arrives, maxBody)
    ensures !req.chunked && req.contentLength <= maxBody && !arrives ==> Answer(Dropped, req, behind, arrives, maxBody)
  {
  }
}
