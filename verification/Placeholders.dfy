/** Event placeholders: src/event_placeholders.cpp:91-133.  The generators are a
    parameter: g(k, n) is what the call number n of pass k returns. */
module Placeholders {
  import opened Text

  const PASSES := 12

  const PREFIX := "NSHMQTT_"

  // The name after the prefix in the token of each pass, in the order of the passes.
  function Name(k: nat): string
    requires k < PASSES
  {
    match k
    case 0 => "RANDOM_HEX8"
    case 1 => "RANDOM_HEX16"
    case 2 => "RANDOM_HEX32"
    case 3 => "RANDOM_HEX64"
    case 4 => "RANDOM_UUID"
    case 5 => "TIMESTAMP_S"
    case 6 => "TIMESTAMP_MS"
    case 7 => "TIMESTAMP_US"
    case 8 => "TIMESTAMP_NS"
    case 9 => "DATETIME_UTC"
    case 10 => "DATE_UTC"
    case 11 => "TIME_UTC"
  }

  function Token(k: nat): string
    requires k < PASSES
  {
    PREFIX + Name(k)
  }

  type Generators = (nat, nat) -> string

  // The length of random hexadecimal text.
  function Width(k: nat): nat {
    if k == 0 then 8 else if k == 1 then 16 else if k == 2 then 32 else 64
  }

  predicate HexChar(c: char) {
    IsDigit(c) || 'a' <= c <= 'f'
  }

  // The layout of a random UUID and of a date: x stands for a hexadecimal digit, v for
  // one of 8, 9, a and b, d for a decimal digit, everything else for itself.
  function Layout(k: nat): string {
    if k == 4 then "xxxxxxxx-xxxx-4xxx-vxxx-xxxxxxxxxxxx"
    else if k == 9 then "dddd-dd-ddTdd:dd:ddZ"
    else if k == 10 then "dddd-dd-dd"
    else "dd:dd:dd"
  }

  predicate FitsLayout(layout: string, v: string) {
    |v| == |layout| && forall q :: 0 <= q < |v| ==> Fits(layout[q], v[q])
  }

  predicate Fits(l: char, c: char) {
    match l
    case 'x' => HexChar(c)
    case 'v' => c == '8' || c == '9' || c == 'a' || c == 'b'
    case 'd' => IsDigit(c)
    case _ => c == l
  }

  predicate ValueChar(k: nat, c: char) {
    IsDigit(c) || (k < 5 && HexChar(c)) || (k >= 4 && c == '-') || (k >= 9 && (c == ':' || c == 'T' || c == 'Z'))
  }

  // What random_hex, random_uuid_v4, timestamp_string and utc_strftime write; a year
  // has four digits.
  predicate IsValue(k: nat, v: string) {
    && v != "" && (IsDigit(v[0]) || (k < 5 && HexChar(v[0])) || (5 <= k < 9 && v[0] == '-'))
    && (forall q :: 0 <= q < |v| ==> ValueChar(k, v[q]))
    && if k < 4 then |v| == Width(k)
       else if 5 <= k < 9 then forall q :: 0 < q < |v| ==> IsDigit(v[q])
       else FitsLayout(Layout(k), v)
  }

  ghost predicate Generating(g: Generators) {
    forall k: nat, n: nat :: k < PASSES ==> IsValue(k, g(k, n))
  }

  // ----- one pass -------------------------------------------------------------

  // Left to right, each occurrence of the token replaced by the next value.
  function ReplaceAll(s: string, k: nat, g: Generators, n: nat): string
    requires k < PASSES
    decreases |s|
  {
    if s == "" then ""
    else if At(s, 0, Token(k)) then
      TokenKnown(k);
      g(k, n) + ReplaceAll(s[|Token(k)|..], k, g, n + 1)
    else [s[0]] + ReplaceAll(s[1..], k, g, n)
  }

  // ----- what the twelve texts have in common ---------------------------------

  predicate TokenChar(c: char) {
    'A' <= c <= 'Z' || c == '_' || '0' <= c <= '8'
  }

  predicate StartsLikeToken(t: string, q: nat) {
    q < |t| && t[q] == 'N' && (q + 1 < |t| ==> t[q + 1] == 'S')
  }

  // The characters at 0, 4 and 7, and at 10 for those names that go so far.
  predicate Marked(t: string, a: char, b: char, c: char, d: char) {
    && 8 <= |t| <= 12 && t[0] == a && t[4] == b && t[7] == c
    && (d == ' ' || (|t| > 10 && t[10] == d))
  }

  function Mark(k: nat): (char, char, char, char)
    requires k < PASSES
  {
    if k < 4 then ('R', 'O', 'H', if k == 0 then '8' else if k == 1 then '1' else if k == 2 then '3' else '6')
    else if k == 4 then ('R', 'O', 'U', ' ')
    else if k < 9 then ('T', 'S', 'M', if k == 5 then 'S' else if k == 6 then 'M' else if k == 7 then 'U' else 'N')
    else if k == 9 then ('D', 'T', 'E', ' ')
    else if k == 10 then ('D', '_', 'C', ' ')
    else ('T', '_', 'C', ' ')
  }

  predicate Known(k: nat, t: string)
    requires k < PASSES
  {
    var (a, b, c, d) := Mark(k);
    && Marked(t, a, b, c, d) && (k == 8 ==> |t| == 12)
    && (k < 4 ==> |t| > 10 && t[9] == 'X')
    && (forall q :: 0 <= q < |t| ==> TokenChar(t[q]) && (IsDigit(t[q]) <==> k < 4 && q >= 10))
    && (forall q :: 0 <= q < |t| && StartsLikeToken(t, q) ==> k == 8 && q == 10)
  }

  lemma KnownTo3(k: nat)
    requires k < 3
    ensures Known(k, Name(k))
  {
  }

  lemma KnownTo6(k: nat)
    requires 3 <= k < 6
    ensures Known(k, Name(k))
  {
  }

  lemma KnownTo9(k: nat)
    requires 6 <= k < 9
    ensures Known(k, Name(k))
  {
  }

  lemma KnownTo12(k: nat)
    requires 9 <= k < PASSES
    ensures Known(k, Name(k))
  {
  }

  lemma TokenKnown(k: nat)
    requires k < PASSES
    ensures Known(k, Name(k))
  {
    hide *;
    if k < 3 {
      KnownTo3(k);
    } else if k < 6 {
      KnownTo6(k);
    } else if k < 9 {
      KnownTo9(k);
    } else {
      KnownTo12(k);
    }
  }

  // Every token starts with "NS", and only TIMESTAMP_NS has a second place where a
  // token could start.
  lemma TokenShape(k: nat)
    requires k < PASSES
    ensures
      var t := Token(k);
      && 16 <= |t| <= 20 && (k == 8 ==> |t| == 20)
      && (k < 4 ==> |t| > 18 && t[17] == 'X')
      && (forall q :: 0 <= q < |t| ==> TokenChar(t[q]) && (IsDigit(t[q]) <==> k < 4 && q >= 18))
      && StartsLikeToken(t, 0) && (forall q :: 0 < q < |t| && StartsLikeToken(t, q) ==> k == 8 && q == 18)
  {
    hide Name;
    hide Mark;
    TokenKnown(k);
    var t := Token(k);
    forall q | 0 <= q < |t| ensures TokenChar(t[q]) && (IsDigit(t[q]) <==> k < 4 && q >= 18) {
      if q >= 8 {
        assert t[q] == Name(k)[q - 8];
      }
    }
    forall q | 0 < q < |t| && StartsLikeToken(t, q) ensures k == 8 && q == 18 {
      if q >= 8 {
        assert StartsLikeToken(Name(k), q - 8);
      }
    }
  }

  // The characters of a token in a text by which it is known.
  lemma MarksAt(s: string, p: nat, k: nat)
    requires k < PASSES && At(s, p, Token(k))
    ensures
      var (a, b, c, d) := Mark(k);
      p + 16 <= |s| && s[p + 8] == a && s[p + 12] == b && s[p + 15] == c &&
      (d == ' ' || (p + 18 < |s| && s[p + 18] == d))
  {
    TokenKnown(k);
    AtChars(s, p, Token(k));
    hide Mark;
    hide Name;
    hide StartsLikeToken;
    hide At;
    var t := Name(k);
    assert Token(k)[8] == t[0] && Token(k)[12] == t[4] && Token(k)[15] == t[7];
    assert |t| > 10 ==> Token(k)[18] == t[10];
  }

  lemma MarksDiffer(i: nat, k: nat)
    requires i < PASSES && k < PASSES
    requires Mark(i).0 == Mark(k).0 && Mark(i).1 == Mark(k).1 && Mark(i).2 == Mark(k).2
    requires Mark(i).3 == Mark(k).3 || Mark(i).3 == ' ' || Mark(k).3 == ' '
    ensures i == k
  {
  }

  // No two tokens start at the same place.
  lemma PrefixFree(s: string, p: nat, i: nat, k: nat)
    requires i < PASSES && k < PASSES && At(s, p, Token(i)) && At(s, p, Token(k))
    ensures i == k
  {
    hide *;
    MarksAt(s, p, i);
    MarksAt(s, p, k);
    MarksDiffer(i, k);
  }

  // ----- the loop -------------------------------------------------------------

  function Occurrences(s: string, k: nat): nat
    requires k < PASSES
    decreases |s|
  {
    if s == "" then 0
    else if At(s, 0, Token(k)) then TokenShape(k); 1 + Occurrences(s[|Token(k)|..], k)
    else Occurrences(s[1..], k)
  }

  // Text without a match is copied.
  lemma {:induction false} SkipText(x: string, s: string, k: nat, g: Generators, n: nat)
    requires k < PASSES && forall q: nat :: q < |x| ==> !At(x + s, q, Token(k))
    ensures ReplaceAll(x + s, k, g, n) == x + ReplaceAll(s, k, g, n)
    ensures Occurrences(x + s, k) == Occurrences(s, k)
  {
    hide Token;
    if x == "" {
      assert x + s == s;
    } else {
      assert !At(x + s, 0, Token(k));
      assert (x + s)[1..] == x[1..] + s;
      forall q: nat | q < |x| - 1 ensures !At(x[1..] + s, q, Token(k)) {
        ShiftAt(x + s, 1, q, Token(k));
      }
      SkipText(x[1..], s, k, g, n);
    }
  }

  lemma ShiftAt(s: string, d: nat, q: nat, t: string)
    requires d <= |s|
    ensures At(s[d..], q, t) <==> At(s, d + q, t)
  {
    if d + q + |t| <= |s| {
      assert s[d..][q..q + |t|] == s[d + q..d + q + |t|];
    }
  }

  // The loop is leftmost replacement: one call of the generator for each occurrence,
  // and no value is scanned again however long it is.
  method ReplaceAllWithFreshValues(s: string, k: nat, g: Generators) returns (text: string, calls: nat)
    requires k < PASSES
    ensures text == ReplaceAll(s, k, g, 0) && calls == Occurrences(s, k)
  {
    hide Token;
    hide ReplaceAll;
    hide Occurrences;
    text, calls := s, 0;
    var pos: nat := 0;
    while true
      invariant pos <= |text|
      invariant text[..pos] + ReplaceAll(text[pos..], k, g, calls) == ReplaceAll(s, k, g, 0)
      invariant calls + Occurrences(text[pos..], k) == Occurrences(s, k)
      decreases |text| - pos
    {
      var found := Find(text, Token(k), pos);
      ghost var before, rest := text, text[pos..];
      if found.None? {
        NoMatchLeft(rest, k, g, calls, text, pos);
        break;
      }
      var p := found.value;
      TokenShape(k);
      MatchAhead(text, pos, p, k, g, calls);
      var value := g(k, calls);
      text := text[..p] + value + text[p + |Token(k)|..];
      assert text[..p + |value|] == before[..pos] + before[pos..p] + value;
      assert text[p + |value|..] == before[p + |Token(k)|..];
      pos := p + |value|;
      calls := calls + 1;
    }
  }

  lemma NoMatchLeft(rest: string, k: nat, g: Generators, n: nat, text: string, pos: nat)
    requires k < PASSES && pos <= |text| && rest == text[pos..] && forall q: nat :: pos <= q ==> !At(text, q, Token(k))
    ensures ReplaceAll(rest, k, g, n) == rest && Occurrences(rest, k) == 0
  {
    hide Token;
    forall q: nat | q < |rest| ensures !At(rest + "", q, Token(k)) {
      assert rest + "" == rest;
      ShiftAt(text, pos, q, Token(k));
      assert !At(text, pos + q, Token(k));
    }
    SkipText(rest, "", k, g, n);
    assert rest + "" == rest;
  }

  lemma MatchAtStart(s: string, k: nat, g: Generators, n: nat)
    requires k < PASSES && At(s, 0, Token(k))
    ensures ReplaceAll(s, k, g, n) == g(k, n) + ReplaceAll(s[|Token(k)|..], k, g, n + 1)
    ensures Occurrences(s, k) == 1 + Occurrences(s[|Token(k)|..], k)
  {
    TokenShape(k);
    hide Token;
  }

  lemma MatchAhead(text: string, pos: nat, p: nat, k: nat, g: Generators, n: nat)
    requires k < PASSES && pos <= p && At(text, p, Token(k))
    requires forall q: nat :: pos <= q < p ==> !At(text, q, Token(k))
    ensures
      var after := text[p + |Token(k)|..];
      && ReplaceAll(text[pos..], k, g, n) == text[pos..p] + g(k, n) + ReplaceAll(after, k, g, n + 1)
      && Occurrences(text[pos..], k) == 1 + Occurrences(after, k)
  {
    hide Token;
    hide ReplaceAll;
    hide Occurrences;
    var x, s := text[pos..p], text[p..];
    assert x + s == text[pos..];
    forall q: nat | q < |x| ensures !At(x + s, q, Token(k)) {
      ShiftAt(text, pos, q, Token(k));
      assert !At(text, pos + q, Token(k));
    }
    SkipText(x, s, k, g, n);
    ShiftAt(text, p, 0, Token(k));
    MatchAtStart(s, k, g, n);
    assert s[|Token(k)|..] == text[p + |Token(k)|..];
  }

  // ----- twelve passes --------------------------------------------------------

  function Passes(payload: string, g: Generators, i: nat): string
    requires i <= PASSES
  {
    if i == 0 then payload else ReplaceAll(Passes(payload, g, i - 1), i - 1, g, 0)
  }

  method SubstituteEventPlaceholders(payload: string, g: Generators) returns (result: string)
    ensures result == Passes(payload, g, PASSES)
  {
    hide ReplaceAll;
    hide Token;
    hide Name;
    var calls: nat;
    result := payload;
    result, calls := ReplaceAllWithFreshValues(result, 0, g);
    assert result == Passes(payload, g, 1);
    result, calls := ReplaceAllWithFreshValues(result, 1, g);
    assert result == Passes(payload, g, 2);
    result, calls := ReplaceAllWithFreshValues(result, 2, g);
    assert result == Passes(payload, g, 3);
    result, calls := ReplaceAllWithFreshValues(result, 3, g);
    assert result == Passes(payload, g, 4);
    result, calls := ReplaceAllWithFreshValues(result, 4, g);
    assert result == Passes(payload, g, 5);
    result, calls := ReplaceAllWithFreshValues(result, 5, g);
    assert result == Passes(payload, g, 6);
    result, calls := ReplaceAllWithFreshValues(result, 6, g);
    assert result == Passes(payload, g, 7);
    result, calls := ReplaceAllWithFreshValues(result, 7, g);
    assert result == Passes(payload, g, 8);
    result, calls := ReplaceAllWithFreshValues(result, 8, g);
    assert result == Passes(payload, g, 9);
    result, calls := ReplaceAllWithFreshValues(result, 9, g);
    assert result == Passes(payload, g, 10);
    result, calls := ReplaceAllWithFreshValues(result, 10, g);
    assert result == Passes(payload, g, 11);
    result, calls := ReplaceAllWithFreshValues(result, 11, g);
  }

  // ----- one simultaneous substitution ----------------------------------------

  // The token at the start of s.
  function TokenHere(s: string, k: nat): (r: Option<nat>)
    requires k <= PASSES
    ensures r.Some? ==> k <= r.value < PASSES && At(s, 0, Token(r.value))
    ensures r.None? ==> forall i: nat :: k <= i < PASSES ==> !At(s, 0, Token(i))
    decreases PASSES - k
  {
    if k == PASSES then None
    else if At(s, 0, Token(k)) then Some(k)
    else TokenHere(s, k + 1)
  }

  // The payload read once from left to right, each token of the first i passes
  // replaced by its value; counts says how often each token has come before.
  function Substituted(payload: string, g: Generators, counts: seq<nat>, i: nat): string
    requires |counts| == PASSES && i <= PASSES
    decreases |payload|
  {
    if payload == "" then ""
    else match TokenHere(payload, 0)
      case None => [payload[0]] + Substituted(payload[1..], g, counts, i)
      case Some(k) =>
        TokenShape(k);
        (if k < i then g(k, counts[k]) else Token(k)) +
        Substituted(payload[|Token(k)|..], g, counts[k := counts[k] + 1], i)
  }

  const ZEROS: seq<nat> := [0, 0, 0, 0, 0, 0, 0, 0, 0, 0, 0, 0]

  function Simultaneous(payload: string, g: Generators): string {
    Substituted(payload, g, ZEROS, PASSES)
  }

  // ----- what can go wrong ----------------------------------------------------

  // At pos, the start of the token of pass i runs up to the token of an earlier pass,
  // whose value may complete it.
  predicate GapAt(payload: string, pos: nat, i: nat, j: nat, k: nat)
    requires i < PASSES
  {
    k < i && j < |Token(i)| && IsDigit(Token(i)[j]) && At(payload, pos, Token(i)[..j] + Token(k))
  }

  // The token of pass i starts inside the token of a later pass.
  predicate OverlapAt(payload: string, i: nat, q: nat, m: nat)
    requires i < PASSES && m < PASSES
  {
    i < m && 0 < q < |Token(m)| && At(payload, 0, Token(m)) && At(payload, q, Token(i))
  }

  function PieceSize(payload: string): (n: nat)
    requires payload != ""
    ensures 0 < n <= |payload|
  {
    match TokenHere(payload, 0)
    case None => 1
    case Some(k) =>
      TokenShape(k);
      |Token(k)|
  }

  // Pass i meets nothing unexpected in the first piece of the payload.
  predicate PieceSafe(payload: string, i: nat)
    requires i < PASSES && payload != ""
  {
    && (forall pos, j, k :: 0 <= pos < PieceSize(payload) && 0 <= j < |Token(i)| && 0 <= k < i ==> !GapAt(payload, pos, i, j, k))
    && (forall q, m :: 0 <= m < PASSES && 0 <= q < PieceSize(payload) ==> !OverlapAt(payload, i, q, m))
  }

  predicate SafeFor(payload: string, i: nat)
    requires i < PASSES
    decreases |payload|
  {
    payload == "" || (PieceSafe(payload, i) && SafeFor(payload[PieceSize(payload)..], i))
  }

  predicate Safe(payload: string) {
    forall i :: 0 <= i < PASSES ==> SafeFor(payload, i)
  }

  // The first piece of the payload: w becomes x, and the counts for what follows.
  lemma FirstPiece(payload: string, g: Generators, counts: seq<nat>, i: nat)
    returns (w: string, x: string, after: seq<nat>)
    requires payload != "" && |counts| == PASSES && i <= PASSES
    ensures w != "" && At(payload, 0, w) && payload == w + payload[|w|..] && |after| == PASSES && |w| == PieceSize(payload)
    ensures Substituted(payload, g, counts, i) == x + Substituted(payload[|w|..], g, after, i)
    ensures
      match TokenHere(payload, 0)
      case None => w == x == [payload[0]] && after == counts
      case Some(k) => w == Token(k) && x == (if k < i then g(k, counts[k]) else w) && after == counts[k := counts[k] + 1]
  {
    hide Token;
    hide TokenHere;
    match TokenHere(payload, 0)
    case None =>
      w, x, after := [payload[0]], [payload[0]], counts;
    case Some(k) =>
      TokenShape(k);
      w, after := Token(k), counts[k := counts[k] + 1];
      x := if k < i then g(k, counts[k]) else w;
      assert payload == payload[0..|w|] + payload[|w|..];
  }

  lemma {:induction false} NothingSubstituted(payload: string, g: Generators, counts: seq<nat>)
    requires |counts| == PASSES
    ensures Substituted(payload, g, counts, 0) == payload
    decreases |payload|
  {
    hide Token;
    if payload != "" {
      var w, x, after := FirstPiece(payload, g, counts, 0);
      hide Substituted;
      NothingSubstituted(payload[|w|..], g, after);
    }
  }

  predicate TokenText(y: string) {
    forall q :: 0 <= q < |y| ==> TokenChar(y[q])
  }

  lemma AtFront(x: string, rest: string)
    ensures At(x + rest, 0, x)
  {
  }

  lemma NoPiece(g: Generators, counts: seq<nat>, i: nat, y: string)
    requires |counts| == PASSES && i <= PASSES && At(Substituted("", g, counts, i), 0, y)
    ensures y == ""
  {
  }

  lemma ConsumePiece(x: string, rest: string, y: string)
    requires At(x + rest, 0, y)
    ensures if |y| <= |x| then At(x, 0, y) else y == x + y[|x|..] && At(rest, 0, y[|x|..])
  {
    var text := x + rest;
    if |y| <= |x| {
      assert x[0..|y|] == text[0..|y|];
    } else {
      assert y[..|x|] == text[0..|y|][..|x|] == x;
      AtSplit(text, 0, x, y[|x|..]);
      ShiftAt(text, |x|, 0, y[|x|..]);
      assert text[|x|..] == rest;
      assert y == x + y[|x|..];
    }
  }

  lemma AddPiece(w: string, rest: string, z: string)
    requires At(rest, 0, z)
    ensures At(w + rest, 0, w + z)
  {
    var text := w + rest;
    assert text[|w|..] == rest && text[0..|w|] == w;
    ShiftAt(text, |w|, 0, z);
    AtSplit(text, 0, w, z);
  }

  lemma StartsInValue(x: string, y: string, g: Generators, k: nat, n: nat)
    requires Generating(g) && k < PASSES && x == g(k, n) && y != "" && TokenText(y)
    requires if |y| <= |x| then At(x, 0, y) else y == x + y[|x|..]
    ensures IsDigit(y[0])
  {
    assert IsValue(k, x);
    if |y| <= |x| {
      AtChars(x, 0, y);
    }
    assert y[0] == x[0] && TokenChar(y[0]);
  }

  lemma PieceStart(payload: string, w: string, y: string)
    requires At(payload, 0, w) && At(w, 0, y)
    ensures At(payload, 0, y)
  {
    assert payload[0..|y|] == w[0..|y|];
  }

  lemma TokenTextFrom(y: string, d: nat)
    requires TokenText(y) && d <= |y|
    ensures TokenText(y[d..])
  {
  }

  lemma Regroup(w: string, y: string, y': string, j: nat, t: string)
    requires y == w + y' && j < |y'|
    ensures w + (y'[..j] + t) == y[..|w| + j] + t && y[|w| + j] == y'[j]
  {
    assert y[..|w| + j] == w + y'[..j];
  }

  // Token characters that stand at the start of the half-substituted payload stand at
  // the start of the payload too, or they run into a value at one of their digits.
  lemma {:induction false} RunsIntoValue(payload: string, g: Generators, counts: seq<nat>, i: nat, y: string)
    returns (j: nat, k: nat)
    requires Generating(g) && |counts| == PASSES && i <= PASSES && TokenText(y)
    requires At(Substituted(payload, g, counts, i), 0, y)
    ensures At(payload, 0, y) || (k < i && j < |y| && IsDigit(y[j]) && At(payload, 0, y[..j] + Token(k)))
    decreases |payload|
  {
    hide *;
    j, k := 0, 0;
    if payload == "" {
      NoPiece(g, counts, i, y);
    }
    if y == "" {
      AtFront(y, payload);
      assert y + payload == payload;
      return;
    }
    var w, x, after := FirstPiece(payload, g, counts, i);
    var t := TokenHere(payload, 0);
    ConsumePiece(x, Substituted(payload[|w|..], g, after, i), y);
    if t.Some? && t.value < i {
      k := t.value;
      StartsInValue(x, y, g, k, counts[k]);
      assert y[..0] + Token(k) == Token(k);
    } else if |y| <= |w| {
      PieceStart(payload, w, y);
    } else {
      var y' := y[|w|..];
      TokenTextFrom(y, |w|);
      j, k := RunsIntoValue(payload[|w|..], g, after, i, y');
      if At(payload[|w|..], 0, y') {
        AddPiece(w, payload[|w|..], y');
      } else {
        AddPiece(w, payload[|w|..], y'[..j] + Token(k));
        Regroup(w, y, y', j, Token(k));
        j := |w| + j;
      }
    }
  }

  // ----- the passes are one substitution --------------------------------------

  lemma NoGap(payload: string, pos: nat, i: nat, j: nat, k: nat)
    requires i < PASSES && payload != "" && PieceSafe(payload, i)
    requires k < i && pos < PieceSize(payload) && j < |Token(i)| && IsDigit(Token(i)[j])
    ensures !At(payload, pos, Token(i)[..j] + Token(k))
  {
    hide Token;
    hide At;
    assert !GapAt(payload, pos, i, j, k);
  }

  // Where no token starts, the next pass finds none.
  lemma NoStrayMatch(payload: string, g: Generators, counts: seq<nat>, i: nat)
    requires Generating(g) && |counts| == PASSES && i < PASSES && payload != "" && PieceSafe(payload, i)
    requires !At(payload, 0, Token(i))
    ensures !At(Substituted(payload, g, counts, i), 0, Token(i))
  {
    hide *;
    if At(Substituted(payload, g, counts, i), 0, Token(i)) {
      TokenTextOf(i);
      var j, k := RunsIntoValue(payload, g, counts, i, Token(i));
      NoGap(payload, 0, i, j, k);
      assert false;
    }
  }

  lemma TokenTextOf(i: nat)
    requires i < PASSES
    ensures TokenText(Token(i))
  {
    TokenShape(i);
    hide Token;
  }

  lemma OnlyPlaceInside(w: string, text: string, i: nat, k: nat, q: nat)
    requires i < PASSES && k < PASSES && w == Token(k) && 0 < q < |w| <= |text| && text[..|w|] == w && At(text, q, Token(i))
    ensures k == 8 && q == 18 && |w| == 20
  {
    TokenShape(i);
    TokenShape(k);
    hide Token;
    AtChars(text, q, Token(i));
    assert text[q] == 'N' && text[q + 1] == 'S';
    assert text[q] == w[q];
    assert q + 1 < |w| ==> text[q + 1] == w[q + 1];
    assert StartsLikeToken(w, q);
  }

  lemma Rejoin(payload: string, p: nat, a: string, z: string)
    requires At(payload, p, a) && At(payload[p + |a|..], 0, z)
    ensures At(payload, p, a + z)
  {
    ShiftAt(payload, p + |a|, 0, z);
    AtSplit(payload, p, a, z);
  }

  lemma NoOverlap(payload: string, i: nat, q: nat, m: nat)
    requires i < m < PASSES && payload != "" && PieceSafe(payload, i) && 0 < q < |Token(m)| && At(payload, 0, Token(m))
    ensures !At(payload, q, Token(i))
  {
    hide Token;
    if q < PieceSize(payload) {
      assert !OverlapAt(payload, i, q, m);
    } else {
      var t := TokenHere(payload, 0);
      PrefixFree(payload, 0, t.value, m);
    }
  }

  lemma NoGapAcross(payload: string, p: nat, a: string, y: string, i: nat, j: nat, m: nat)
    requires payload != "" && m < i < PASSES && PieceSafe(payload, i) && a + y == Token(i) && j < |y| && IsDigit(y[j])
    requires p < PieceSize(payload) && At(payload, p, a) && p + |a| <= |payload|
    ensures !At(payload[p + |a|..], 0, y[..j] + Token(m))
  {
    hide *;
    var z, t := y[..j] + Token(m), Token(i);
    if At(payload[p + |a|..], 0, z) {
      Rejoin(payload, p, a, z);
      assert a + y[..j] == t[..|a| + j] && t[|a| + j] == y[j];
      assert a + z == t[..|a| + j] + Token(m);
      NoGap(payload, p, i, |a| + j, m);
    }
  }

  // a ends the token of pass k and starts that of pass i.
  lemma NoMatchAcross(payload: string, p: nat, a: string, y: string, g: Generators, after: seq<nat>, i: nat, k: nat)
    requires Generating(g) && |after| == PASSES && i < k < PASSES && payload != "" && PieceSafe(payload, i)
    requires a + y == Token(i) && At(payload, 0, Token(k)) && 0 < p < |Token(k)| == PieceSize(payload) && At(payload, p, a) && p + |a| <= |payload|
    ensures !At(Substituted(payload[p + |a|..], g, after, i), 0, y)
  {
    TokenShape(i);
    hide *;
    var t, rest := Token(i), payload[p + |a|..];
    if At(Substituted(rest, g, after, i), 0, y) {
      TokenTextOf(i);
      TokenTextFrom(t, |a|);
      assert t[|a|..] == y;
      var j, m := RunsIntoValue(rest, g, after, i, y);
      NoOverlap(payload, i, p, k);
      if At(rest, 0, y) {
        Rejoin(payload, p, a, y);
      } else {
        NoGapAcross(payload, p, a, y, i, j, m);
      }
    }
  }

  lemma SplitMatch(payload: string, w: string, rest: string, p: nat, t: string)
    requires p < |w| <= p + |t| && At(payload, 0, w) && At(w + rest, p, t)
    ensures
      var n := |w| - p;
      t == t[..n] + t[n..] && |payload| >= |w| && At(payload, p, t[..n]) && At(rest, 0, t[n..])
  {
    var text, n := w + rest, |w| - p;
    var a, y := t[..n], t[n..];
    assert t == a + y;
    AtSplit(text, p, a, y);
    ShiftAt(text, |w|, 0, y);
    assert text[|w|..] == rest;
    assert payload[p..|w|] == payload[0..|w|][p..] == w[p..] == text[p..|w|];
  }

  // Nor does it find one inside a token of a later pass.
  lemma NoMatchInside(payload: string, w: string, g: Generators, after: seq<nat>, i: nat, k: nat, q: nat)
    requires Generating(g) && |after| == PASSES && i < k < PASSES && payload != "" && PieceSafe(payload, i)
    requires w == Token(k) && At(payload, 0, w) && 0 < q < |w| == PieceSize(payload)
    ensures !At(w + Substituted(payload[|w|..], g, after, i), q, Token(i))
  {
    TokenShape(i);
    hide *;
    var rest := Substituted(payload[|w|..], g, after, i);
    if At(w + rest, q, Token(i)) {
      assert (w + rest)[..|w|] == w;
      OnlyPlaceInside(w, w + rest, i, k, q);
      SplitMatch(payload, w, rest, q, Token(i));
      NoMatchAcross(payload, q, Token(i)[..2], Token(i)[2..], g, after, i, k);
    }
  }

  lemma NoMatchInValue(x: string, rest: string, g: Generators, k: nat, n: nat, i: nat, q: nat)
    requires Generating(g) && k < PASSES && x == g(k, n) && i < PASSES && q < |x|
    ensures !At(x + rest, q, Token(i))
  {
    TokenShape(i);
    hide Token;
    assert IsValue(k, x);
    assert ValueChar(k, x[q]) && (x + rest)[q] == x[q];
    if At(x + rest, q, Token(i)) {
      AtChars(x + rest, q, Token(i));
      assert false;
    }
  }

  lemma NoMatchInPiece(payload: string, g: Generators, counts: seq<nat>, i: nat, w: string, x: string, after: seq<nat>, q: nat)
    requires Generating(g) && |counts| == PASSES && |after| == PASSES && i < PASSES && payload != "" && PieceSafe(payload, i)
    requires |w| == PieceSize(payload) && At(payload, 0, w)
    requires Substituted(payload, g, counts, i) == x + Substituted(payload[|w|..], g, after, i)
    requires
      match TokenHere(payload, 0)
      case None => |x| == 1
      case Some(k) => k != i && w == Token(k) && x == if k < i then g(k, counts[k]) else w
    requires q < |x|
    ensures !At(x + Substituted(payload[|w|..], g, after, i), q, Token(i))
  {
    hide *;
    var t := TokenHere(payload, 0);
    if t.Some? && t.value < i {
      NoMatchInValue(x, Substituted(payload[|w|..], g, after, i), g, t.value, counts[t.value], i, q);
    } else if q == 0 {
      if t.Some? && At(payload, 0, Token(i)) {
        PrefixFree(payload, 0, i, t.value);
      }
      NoStrayMatch(payload, g, counts, i);
    } else {
      NoMatchInside(payload, w, g, after, i, t.value, q);
    }
  }

  lemma PieceReplaced(payload: string, g: Generators, counts: seq<nat>, i: nat, w: string, x: string, after: seq<nat>)
    requires Generating(g) && |counts| == PASSES && |after| == PASSES && i < PASSES && payload != "" && PieceSafe(payload, i)
    requires |w| == PieceSize(payload) && At(payload, 0, w)
    requires Substituted(payload, g, counts, i) == x + Substituted(payload[|w|..], g, after, i)
    requires
      match TokenHere(payload, 0)
      case None => |x| == 1 && after == counts
      case Some(k) => w == Token(k) && x == (if k < i then g(k, counts[k]) else w) && after == counts[k := counts[k] + 1]
    ensures
      ReplaceAll(Substituted(payload, g, counts, i), i, g, counts[i]) ==
      (if TokenHere(payload, 0) == Some(i) then g(i, counts[i]) else x) +
      ReplaceAll(Substituted(payload[|w|..], g, after, i), i, g, after[i])
  {
    hide *;
    var rest := Substituted(payload[|w|..], g, after, i);
    if TokenHere(payload, 0) == Some(i) {
      assert (x + rest)[|x|..] == rest;
      AtFront(x, rest);
      MatchAtStart(x + rest, i, g, counts[i]);
    } else {
      forall q: nat | q < |x| ensures !At(x + rest, q, Token(i)) {
        NoMatchInPiece(payload, g, counts, i, w, x, after, q);
      }
      SkipText(x, rest, i, g, counts[i]);
    }
  }

  lemma SafeStep(payload: string, i: nat)
    requires i < PASSES && payload != "" && SafeFor(payload, i)
    ensures PieceSafe(payload, i) && SafeFor(payload[PieceSize(payload)..], i)
  {
  }

  // The next pass over a payload substituted up to it.
  lemma {:induction false} NextPass(payload: string, g: Generators, counts: seq<nat>, i: nat)
    requires Generating(g) && |counts| == PASSES && i < PASSES && SafeFor(payload, i)
    ensures ReplaceAll(Substituted(payload, g, counts, i), i, g, counts[i]) == Substituted(payload, g, counts, i + 1)
    decreases |payload|
  {
    hide *;
    if payload == "" {
      NothingToPass(g, counts, i);
    } else {
      var w, x, x', after := PieceBeforeAndAfter(payload, g, counts, i);
      SafeStep(payload, i);
      NextPass(payload[|w|..], g, after, i);
      PieceReplaced(payload, g, counts, i, w, x, after);
    }
  }

  lemma NothingToPass(g: Generators, counts: seq<nat>, i: nat)
    requires |counts| == PASSES && i < PASSES
    ensures ReplaceAll(Substituted("", g, counts, i), i, g, counts[i]) == Substituted("", g, counts, i + 1)
  {
    hide Token;
  }

  // The first piece before and after pass i.
  lemma PieceBeforeAndAfter(payload: string, g: Generators, counts: seq<nat>, i: nat)
    returns (w: string, x: string, x': string, after: seq<nat>)
    requires payload != "" && |counts| == PASSES && i < PASSES
    ensures w != "" && At(payload, 0, w) && |after| == PASSES && |w| == PieceSize(payload)
    ensures Substituted(payload, g, counts, i) == x + Substituted(payload[|w|..], g, after, i)
    ensures Substituted(payload, g, counts, i + 1) == x' + Substituted(payload[|w|..], g, after, i + 1)
    ensures x' == if TokenHere(payload, 0) == Some(i) then g(i, counts[i]) else x
    ensures
      match TokenHere(payload, 0)
      case None => |x| == 1 && after == counts
      case Some(k) => w == Token(k) && x == (if k < i then g(k, counts[k]) else w) && after == counts[k := counts[k] + 1]
  {
    hide *;
    w, x, after := FirstPiece(payload, g, counts, i);
    var w', after';
    w', x', after' := FirstPiece(payload, g, counts, i + 1);
  }

  lemma {:induction false} PassesSubstitute(payload: string, g: Generators, i: nat)
    requires Generating(g) && i <= PASSES && forall m :: 0 <= m < i ==> SafeFor(payload, m)
    ensures Passes(payload, g, i) == Substituted(payload, g, ZEROS, i)
  {
    hide Token;
    hide Substituted;
    hide SafeFor;
    if i == 0 {
      NothingSubstituted(payload, g, ZEROS);
    } else {
      PassesSubstitute(payload, g, i - 1);
      NextPass(payload, g, ZEROS, i - 1);
      assert ZEROS[i - 1] == 0;
    }
  }
}
