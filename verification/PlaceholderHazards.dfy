/** The converse for the placeholders: a payload that is not safe has values with
    which the twelve passes do not make one substitution
    (src/event_placeholders.cpp:91-133).  The values of one pass carry a nine, which
    no token and no other value has, so that counting nines counts replacements. */
module PlaceholderHazards {
  import opened Text
  import opened Placeholders

  // ----- counting nines -------------------------------------------------------

  function Nines(s: string): nat {
    if s == "" then 0 else (if s[0] == '9' then 1 else 0) + Nines(s[1..])
  }

  lemma {:induction false} NinesOf(a: string, b: string)
    ensures Nines(a + b) == Nines(a) + Nines(b)
  {
    if a == "" {
      assert a + b == b;
    } else {
      assert (a + b)[1..] == a[1..] + b;
      NinesOf(a[1..], b);
    }
  }

  lemma {:induction false} NoNines(s: string)
    requires forall q :: 0 <= q < |s| ==> s[q] != '9'
    ensures Nines(s) == 0
  {
    if s != "" {
      NoNines(s[1..]);
    }
  }

  lemma TokenHasNoNines(k: nat)
    requires k < PASSES
    ensures Nines(Token(k)) == 0
  {
    TokenShape(k);
    hide Token;
    NoNines(Token(k));
  }

  function Zeros(n: nat): (r: string)
    ensures |r| == n && forall q :: 0 <= q < n ==> r[q] == '0'
  {
    if n == 0 then "" else "0" + Zeros(n - 1)
  }

  function Padded(v: string, n: nat): string {
    if |v| < n then v + Zeros(n - |v|) else v
  }

  predicate ShortDigits(v: string) {
    0 < |v| <= 8 && forall q :: 0 <= q < |v| ==> '0' <= v[q] <= '8'
  }

  const UUID := "00000000-0000-4000-8000-000000000000"
  const MARKED_UUID := "90000000-0000-4000-8000-000000000000"

  function SomeDate(m: nat): string {
    if m == 9 then "2000-01-01T00:00:00Z" else if m == 10 then "2000-01-01" else "00:00:00"
  }

  // Pass i writes one nine each time, pass k starts with v.
  function Telling(i: nat, k: nat, v: string): Generators {
    (m: nat, n: nat) => if m < 4 then Padded(TellingStart(i, k, v, m), Width(m)) else Fixed(m, m == i)
  }

  lemma PaddedValue(m: nat, u: string, nines: nat)
    requires m < 4 && 0 < |u| <= 8 && AllDecimal(u) && Nines(u) == nines
    ensures IsValue(m, Padded(u, Width(m))) && Nines(Padded(u, Width(m))) == nines
  {
    var z := Zeros(Width(m) - |u|);
    NinesOf(u, z);
    NoNines(z);
    assert u + "" == u;
  }

  predicate AllDecimal(u: string) {
    forall q :: 0 <= q < |u| ==> IsDigit(u[q])
  }

  lemma UuidFits()
    ensures FitsLayout(Layout(4), UUID)
  {
  }

  lemma MarkedUuidFits()
    ensures FitsLayout(Layout(4), MARKED_UUID)
  {
    hide FitsLayout;
    UuidFits();
    OtherDigitFits(Layout(4), UUID, MARKED_UUID);
  }

  // A value that differs from a fitting one in a hexadecimal digit at the front.
  lemma OtherDigitFits(layout: string, v: string, w: string)
    requires FitsLayout(layout, v) && layout != "" && layout[0] == 'x'
    requires w != "" && HexChar(w[0]) && |w| == |v| && w[1..] == v[1..]
    ensures FitsLayout(layout, w)
  {
    hide Fits;
    assert forall q :: 1 <= q < |w| ==> w[q] == w[1..][q - 1] == v[1..][q - 1] == v[q];
    assert Fits(layout[0], w[0]) by {
      FitsHex(w[0]);
    }
  }

  lemma FitsHex(c: char)
    requires HexChar(c)
    ensures Fits('x', c)
  {
  }

  lemma UuidValues()
    ensures IsValue(4, UUID) && IsValue(4, MARKED_UUID)
  {
    hide FitsLayout;
    UuidFits();
    MarkedUuidFits();
  }

  lemma MarkedUuidHasOneNine()
    ensures Nines(MARKED_UUID) == 1
  {
    assert forall q :: 1 <= q < |MARKED_UUID| ==> MARKED_UUID[q] != '9';
    var s := MARKED_UUID;
    assert s[0] == '9';
    var t := s[1..];
    assert forall q :: 0 <= q < |t| ==> t[q] == s[q + 1];
    NoNines(t);
  }

  lemma DateTimeFits()
    ensures FitsLayout(Layout(9), SomeDate(9))
  {
  }

  lemma DateTimeValue()
    ensures IsValue(9, SomeDate(9))
  {
    hide FitsLayout;
    DateTimeFits();
  }

  lemma DateValues()
    ensures IsValue(10, SomeDate(10)) && IsValue(11, SomeDate(11))
  {
  }

  lemma ShortValues(m: nat)
    requires 5 <= m < 9
    ensures IsValue(m, "9") && IsValue(m, "0")
  {
  }

  lemma OneNine(s: string)
    requires forall q :: 0 <= q < |s| ==> s[q] != '9'
    ensures Nines("9" + s) == 1 && Nines("0" + s) == 0
  {
    NoNines(s);
    assert ("9" + s)[1..] == s && ("0" + s)[1..] == s;
  }

  lemma FixedHaveNoNines(m: nat)
    ensures forall q :: 0 <= q < |UUID| ==> UUID[q] != '9'
    ensures forall q :: 0 <= q < |SomeDate(m)| ==> SomeDate(m)[q] != '9'
  {
  }

  lemma TellingValues(i: nat, k: nat, v: string, m: nat, n: nat)
    requires i < 8 && ShortDigits(v) && m < PASSES
    ensures
      var g := Telling(i, k, v);
      IsValue(m, g(m, n)) && Nines(g(m, n)) == if m == i then 1 else 0
  {
    NoNines(v);
    assert AllDecimal(v);
    hide *;
    TellingIsFixed(i, k, v, m, n);
    if m < 4 {
      PaddedValue(m, TellingStart(i, k, v, m), if m == i then 1 else 0);
    } else {
      FixedValue(m, m == i);
    }
  }

  function TellingStart(i: nat, k: nat, v: string, m: nat): string {
    if m == i then "9" else if m == k then v else "0"
  }

  function Fixed(m: nat, marked: bool): string {
    if m == 4 then (if marked then MARKED_UUID else UUID)
    else if m >= 9 then SomeDate(m)
    else if marked then "9" else "0"
  }

  lemma FixedValue(m: nat, marked: bool)
    requires 4 <= m < PASSES && (marked ==> m < 8)
    ensures IsValue(m, Fixed(m, marked)) && Nines(Fixed(m, marked)) == if marked then 1 else 0
  {
    hide *;
    if m == 4 {
      FixedUuid(marked);
    } else if m >= 9 {
      FixedDate(m);
    } else {
      FixedNumber(m, marked);
    }
  }

  lemma FixedUuid(marked: bool)
    ensures IsValue(4, Fixed(4, marked)) && Nines(Fixed(4, marked)) == if marked then 1 else 0
  {
    UuidValues();
    MarkedUuidHasOneNine();
    FixedHaveNoNines(4);
    NoNines(UUID);
    hide IsValue;
    hide Nines;
  }

  lemma FixedDate(m: nat)
    requires 9 <= m < PASSES
    ensures IsValue(m, Fixed(m, false)) && Nines(Fixed(m, false)) == 0
  {
    DateTimeValue();
    DateValues();
    FixedHaveNoNines(m);
    NoNines(SomeDate(m));
    hide IsValue;
    hide Nines;
  }

  lemma FixedNumber(m: nat, marked: bool)
    requires 5 <= m < 9
    ensures IsValue(m, Fixed(m, marked)) && Nines(Fixed(m, marked)) == if marked then 1 else 0
  {
    OneNine("");
    assert "9" + "" == "9" && "0" + "" == "0";
    ShortValues(m);
    hide IsValue;
    hide Nines;
  }

  lemma TellingIsFixed(i: nat, k: nat, v: string, m: nat, n: nat)
    requires i < 8 && ShortDigits(v) && m < PASSES && Nines(v) == 0 && AllDecimal(v)
    ensures Telling(i, k, v)(m, n) == if m < 4 then Padded(TellingStart(i, k, v, m), Width(m)) else Fixed(m, m == i)
    ensures
      var u := TellingStart(i, k, v, m);
      0 < |u| <= 8 && AllDecimal(u) && Nines(u) == if m == i then 1 else 0
  {
    OneNine("");
    assert "9" + "" == "9" && "0" + "" == "0";
    hide Padded;
    hide Width;
    hide SomeDate;
  }

  // The nines of a pass's result: one for each call when its values carry one.
  lemma {:induction false} ReplacedNines(s: string, m: nat, g: Generators, n: nat, one: bool)
    requires m < PASSES && forall c: nat :: Nines(g(m, c)) == if one then 1 else 0
    ensures Nines(ReplaceAll(s, m, g, n)) == Nines(s) + if one then Occurrences(s, m) else 0
    decreases |s|
  {
    hide Token;
    hide Nines;
    if s == "" {
    } else if At(s, 0, Token(m)) {
      TokenShape(m);
      var rest := s[|Token(m)|..];
      AtIs(s, 0, Token(m));
      assert s == Token(m) + rest;
      NinesOf(Token(m), rest);
      TokenHasNoNines(m);
      NinesOf(g(m, n), ReplaceAll(rest, m, g, n + 1));
      ReplacedNines(rest, m, g, n + 1, one);
    } else {
      assert s == [s[0]] + s[1..];
      NinesOf([s[0]], s[1..]);
      NinesOf([s[0]], ReplaceAll(s[1..], m, g, n));
      ReplacedNines(s[1..], m, g, n, one);
    }
  }

  // How often the token of pass i is a piece of the payload.
  function Pieces(payload: string, i: nat): nat
    decreases |payload|
  {
    if payload == "" then 0
    else (if TokenHere(payload, 0) == Some(i) then 1 else 0) + Pieces(payload[PieceSize(payload)..], i)
  }

  ghost predicate Tells(g: Generators, i: nat) {
    Generating(g) && forall m: nat, c: nat :: m < PASSES ==> Nines(g(m, c)) == if m == i then 1 else 0
  }

  lemma {:induction false} SubstitutedNines(payload: string, g: Generators, counts: seq<nat>, m: nat, i: nat)
    requires Tells(g, i) && i < PASSES && m <= PASSES && |counts| == PASSES
    ensures Nines(Substituted(payload, g, counts, m)) == Nines(payload) + if i < m then Pieces(payload, i) else 0
    decreases |payload|
  {
    hide Token;
    hide Nines;
    hide TokenHere;
    if payload != "" {
      var w, x, after := FirstPiece(payload, g, counts, m);
      hide Substituted;
      var rest := payload[|w|..];
      SubstitutedNines(rest, g, after, m, i);
      NinesOf(w, rest);
      NinesOf(x, Substituted(rest, g, after, m));
      if TokenHere(payload, 0).Some? {
        TokenHasNoNines(TokenHere(payload, 0).value);
      }
    }
  }

  // ----- the first pass in danger ---------------------------------------------

  lemma NoOtherStart(s: string, i: nat, q: nat)
    requires i < PASSES && i != 8 && At(s, 0, Token(i)) && 0 < q < |Token(i)|
    ensures !At(s, q, Token(i))
  {
    if At(s, q, Token(i)) {
      AtIs(s, 0, Token(i));
      OnlyPlaceInside(Token(i), s, i, i, q);
    }
  }

  // All places where a token other than TIMESTAMP_NS occurs are replaced.
  lemma EveryPlaceCounts(s: string, i: nat)
    requires i < PASSES && i != 8 && s != ""
    ensures Occurrences(s, i) == (if At(s, 0, Token(i)) then 1 else 0) + Occurrences(s[1..], i)
  {
    TokenShape(i);
    hide *;
    var t := Token(i);
    if At(s, 0, t) {
      AtIs(s, 0, t);
      MatchAtStart(s, i, (m, n) => "", 0);
      var x, rest := s[1..|t|], s[|t|..];
      assert x + rest == s[1..];
      forall q: nat | q < |x| ensures !At(x + rest, q, t) {
        ShiftAt(s, 1, q, t);
        NoOtherStart(s, i, 1 + q);
      }
      SkipText(x, rest, i, (m, n) => "", 0);
    }
  }

  lemma {:induction false} PlacesInFront(x: string, rest: string, i: nat)
    requires i < PASSES && i != 8
    ensures Occurrences(x + rest, i) >= Occurrences(rest, i)
    ensures forall q: nat :: q < |x| && At(x + rest, q, Token(i)) ==> Occurrences(x + rest, i) > Occurrences(rest, i)
  {
    hide Token;
    hide Occurrences;
    if x == "" {
      assert x + rest == rest;
    } else {
      EveryPlaceCounts(x + rest, i);
      assert (x + rest)[1..] == x[1..] + rest;
      PlacesInFront(x[1..], rest, i);
      forall q: nat | q < |x| && At(x + rest, q, Token(i)) ensures Occurrences(x + rest, i) > Occurrences(rest, i) {
        if q > 0 {
          ShiftAt(x + rest, 1, q - 1, Token(i));
        }
      }
    }
  }

  // No token starts in y, nor at its last character.
  predicate Quiet(y: string) {
    forall q :: 0 <= q < |y| ==> !StartsLikeToken(y, q)
  }

  lemma NoTokenIn(payload: string, y: string)
    requires Quiet(y) && y != "" && At(payload, 0, y)
    ensures TokenHere(payload, 0).None?
  {
    var r := TokenHere(payload, 0);
    hide TokenHere;
    hide Token;
    assert !StartsLikeToken(y, 0);
    if r.Some? {
      TokenShape(r.value);
      AtChars(payload, 0, Token(r.value));
      AtChars(payload, 0, y);
      assert false;
    }
  }

  lemma QuietTail(payload: string, y: string)
    requires Quiet(y) && y != "" && At(payload, 0, y)
    ensures Quiet(y[1..]) && At(payload[1..], 0, y[1..]) && payload[0] == y[0] && payload[1..][|y| - 1..] == payload[|y|..]
  {
    AtChars(payload, 0, y);
    assert payload[0 + 0] == y[0];
    forall q | 0 <= q < |y| - 1 ensures !StartsLikeToken(y[1..], q) {
      assert !StartsLikeToken(y, q + 1);
    }
    assert y == y[..1] + y[1..];
    AtSplit(payload, 0, y[..1], y[1..]);
    ShiftAt(payload, 1, 0, y[1..]);
  }

  lemma {:induction false} QuietText(payload: string, g: Generators, counts: seq<nat>, i: nat, y: string)
    requires Quiet(y) && At(payload, 0, y) && |counts| == PASSES && i <= PASSES
    ensures Substituted(payload, g, counts, i) == y + Substituted(payload[|y|..], g, counts, i)
    decreases |payload|
  {
    hide *;
    if y == "" {
      assert payload[0..] == payload;
    } else {
      AtIs(payload, 0, y);
      var w, x, after := FirstPiece(payload, g, counts, i);
      NoTokenIn(payload, y);
      QuietTail(payload, y);
      QuietText(payload[1..], g, counts, i, y[1..]);
      assert x == [y[0]] && y == [y[0]] + y[1..];
    }
  }

  // ----- a match no token of the payload explains -----------------------------

  ghost predicate Fills(g: Generators, i: nat, j: nat, k: nat)
    requires i < PASSES && j <= |Token(i)|
  {
    forall c: nat :: At(g(k, c), 0, Token(i)[j..])
  }

  lemma TokenAt(payload: string, k: nat)
    requires k < PASSES && At(payload, 0, Token(k))
    ensures TokenHere(payload, 0) == Some(k)
  {
    hide Token;
    PrefixFree(payload, 0, k, TokenHere(payload, 0).value);
  }

  lemma QuietPart(i: nat, d: nat, e: nat)
    requires i < PASSES && i != 8 && 0 < d <= e <= |Token(i)|
    requires e == |Token(i)| || IsDigit(Token(i)[e])
    ensures Quiet(Token(i)[d..e])
  {
    TokenShape(i);
    hide Token;
    var t, y := Token(i), Token(i)[d..e];
    forall q | 0 <= q < |y| ensures !StartsLikeToken(y, q) {
      assert y[q] == t[d + q] && (q + 1 < |y| ==> y[q + 1] == t[d + q + 1]);
      assert !StartsLikeToken(t, d + q);
    }
  }

  lemma ValueThere(payload: string, g: Generators, counts: seq<nat>, i: nat, j: nat, k: nat)
    requires |counts| == PASSES && k < i < PASSES && j <= |Token(i)| && Fills(g, i, j, k) && At(payload, 0, Token(k))
    ensures At(Substituted(payload, g, counts, i), 0, Token(i)[j..])
  {
    var v := g(k, counts[k]);
    assert At(v, 0, Token(i)[j..]);
    hide *;
    TokenAt(payload, k);
    TokenSome(payload, k);
    var w, x, counts' := FirstPiece(payload, g, counts, i);
    AtFrontOf(v, Substituted(payload[|w|..], g, counts', i), Token(i)[j..]);
  }

  lemma TokenSome(payload: string, k: nat)
    requires k < PASSES && At(payload, 0, Token(k))
    ensures payload != ""
  {
    TokenShape(k);
  }

  // From its character d on, the token of pass i stands at a gap once the value is in.
  lemma Completed(payload: string, g: Generators, counts: seq<nat>, i: nat, d: nat, j: nat, k: nat)
    requires |counts| == PASSES && k < i < PASSES && i != 8 && 0 < d <= j < |Token(i)| && IsDigit(Token(i)[j])
    requires Fills(g, i, j, k) && At(payload, 0, Token(i)[d..j] + Token(k))
    ensures At(Substituted(payload, g, counts, i), 0, Token(i)[d..])
  {
    hide *;
    var t, y := Token(i), Token(i)[d..j];
    QuietPart(i, d, j);
    SplitPayload(payload, y, Token(k));
    QuietText(payload, g, counts, i, y);
    ValueThere(payload[|y|..], g, counts, i, j, k);
    AddPiece(y, Substituted(payload[|y|..], g, counts, i), t[j..]);
    assert y + t[j..] == t[d..];
  }

  lemma SplitPayload(payload: string, y: string, z: string)
    requires At(payload, 0, y + z)
    ensures At(payload, 0, y) && |y| <= |payload| && At(payload[|y|..], 0, z)
  {
    AtSplit(payload, 0, y, z);
    AtIs(payload, 0, y);
    ShiftAt(payload, |y|, 0, z);
  }

  lemma AtFrontOf(v: string, rest: string, z: string)
    requires At(v, 0, z)
    ensures At(v + rest, 0, z)
  {
    assert (v + rest)[0..|z|] == v[0..|z|];
  }

  predicate AgreesUpToN(m: nat, i: nat, j: nat)
    requires i < PASSES && m < PASSES && j < |Token(i)|
  {
    && (forall c :: 0 <= c < j && c < |Token(m)| ==> Token(m)[c] == Token(i)[c])
    && (j < |Token(m)| ==> Token(m)[j] == 'N')
  }

  // No token agrees with a hexadecimal one up to a digit and has an N there.
  lemma NoSuchToken(i: nat, j: nat, m: nat)
    requires i < PASSES && m < PASSES && j < |Token(i)| && IsDigit(Token(i)[j])
    ensures !AgreesUpToN(m, i, j)
  {
    TokenKnown(i);
    TokenKnown(m);
    TokenShape(i);
    TokenShape(m);
    hide Name;
    hide StartsLikeToken;
    assert Token(m)[8] == Name(m)[0] && Token(i)[8] == Name(i)[0];
    assert Token(m)[12] == Name(m)[4] && Token(i)[12] == Name(i)[4];
    assert Token(m)[15] == Name(m)[7] && Token(i)[15] == Name(i)[7];
    assert m < 4 ==> Token(m)[18] == Name(m)[10];
    assert Token(i)[18] == Name(i)[10];
  }

  // What a gap starts with is no token.
  lemma NoTokenAtGap(payload: string, i: nat, j: nat, k: nat)
    requires k < i < PASSES && j < |Token(i)| && IsDigit(Token(i)[j]) && At(payload, 0, Token(i)[..j] + Token(k))
    ensures TokenHere(payload, 0).None?
  {
    var r := TokenHere(payload, 0);
    if r.Some? {
      TokenShape(k);
      hide Token;
      hide TokenHere;
      var z, t := Token(i)[..j] + Token(k), Token(r.value);
      AtChars(payload, 0, z);
      AtChars(payload, 0, t);
      forall c | 0 <= c < |t| && c <= j ensures t[c] == z[c] {
        assert payload[0 + c] == t[c] && payload[0 + c] == z[c];
      }
      NoSuchToken(i, j, r.value);
    }
  }

  lemma InsideToken(payload: string, z: string, pos: nat)
    requires payload != "" && At(payload, pos, z) && |z| >= 2 && StartsLikeToken(z, 0) && 0 < pos < PieceSize(payload)
    ensures TokenHere(payload, 0) == Some(8) && pos == 18 && PieceSize(payload) == 20
  {
    var m := TokenHere(payload, 0).value;
    TokenShape(m);
    hide Token;
    hide TokenHere;
    var w := Token(m);
    AtChars(payload, 0, w);
    AtChars(payload, pos, z);
    assert w[pos] == payload[0 + pos] && payload[pos + 0] == z[0];
    assert pos + 1 < |w| ==> w[pos + 1] == payload[0 + pos + 1];
    assert payload[pos + 1] == z[1];
    assert StartsLikeToken(w, pos);
  }

  // A gap in the first piece starts with a plain character or at the end of TIMESTAMP_NS.
  lemma GapPlace(payload: string, i: nat, pos: nat, j: nat, k: nat)
    requires i < PASSES && payload != "" && GapAt(payload, pos, i, j, k) && pos < PieceSize(payload)
    ensures TokenHere(payload, 0).None? || (TokenHere(payload, 0) == Some(8) && i < 8)
    ensures PieceSize(payload) <= pos + 2 && 18 <= j
  {
    TokenShape(i);
    hide Token;
    hide At;
    if pos == 0 {
      NoTokenAtGap(payload, i, j, k);
    } else {
      var z := Token(i)[..j] + Token(k);
      assert z[0] == Token(i)[0] && z[1] == Token(i)[1];
      InsideToken(payload, z, pos);
    }
  }

  lemma SplitGap(payload: string, pos: nat, n: nat, j: nat, t: string, t': string)
    requires n <= j <= |t| && At(payload, pos, t[..j] + t')
    ensures pos + n <= |payload| && At(payload, pos, t[..n]) && At(payload[pos + n..], 0, t[n..j] + t')
  {
    var a, y := t[..n], t[n..j] + t';
    assert t[..j] + t' == a + y;
    hide At;
    AtSplit(payload, pos, a, y);
    AtIs(payload, pos, a);
    ShiftAt(payload, pos + n, 0, y);
  }

  lemma JoinMatch(payload: string, w: string, rest: string, p: nat, t: string)
    requires p < |w| <= p + |t| && At(payload, 0, w) && At(payload, p, t[..|w| - p]) && At(rest, 0, t[|w| - p..])
    ensures At(w + rest, p, t)
  {
    var text, n := w + rest, |w| - p;
    var a, y := t[..n], t[n..];
    assert text[p..|w|] == w[p..] == payload[0..|w|][p..] == payload[p..|w|];
    assert text[|w|..] == rest;
    ShiftAt(text, |w|, 0, y);
    AtSplit(text, p, a, y);
    assert t == a + y;
  }

  predicate OverlapIn(payload: string, i: nat)
    requires i < PASSES
  {
    exists q, m :: 0 <= q < 20 && 0 <= m < PASSES && OverlapAt(payload, i, q, m)
  }

  predicate GapIn(payload: string, i: nat, j: nat, k: nat)
    requires i < PASSES && payload != ""
  {
    exists pos :: 0 <= pos < PieceSize(payload) && GapAt(payload, pos, i, j, k)
  }

  // After a gap in the first piece, the pass finds a match that starts in that piece.
  lemma GapMatches(payload: string, g: Generators, i: nat, j: nat, k: nat, w: string, after: seq<nat>)
    returns (q: nat)
    requires i < PASSES && payload != "" && |after| == PASSES && GapIn(payload, i, j, k) && Fills(g, i, j, k)
    requires At(payload, 0, w) && |w| == PieceSize(payload)
    ensures q < |w| && At(w + Substituted(payload[|w|..], g, after, i), q, Token(i))
    ensures TokenHere(payload, 0).None? || (TokenHere(payload, 0) == Some(8) && i < 8)
  {
    hide Token;
    hide At;
    hide TokenHere;
    hide PieceSize;
    hide Substituted;
    hide Fills;
    q :| 0 <= q < PieceSize(payload) && GapAt(payload, q, i, j, k);
    GapPlace(payload, i, q, j, k);
    SplitGap(payload, q, |w| - q, j, Token(i), Token(k));
    TokenShape(i);
    Completed(payload[|w|..], g, after, i, |w| - q, j, k);
    JoinMatch(payload, w, Substituted(payload[|w|..], g, after, i), q, Token(i));
  }

  // So it does where its token starts inside the first piece.
  lemma OverlapMatches(payload: string, g: Generators, i: nat, w: string, after: seq<nat>)
    returns (q: nat)
    requires i < PASSES && payload != "" && |after| == PASSES && OverlapIn(payload, i)
    requires At(payload, 0, w) && |w| == PieceSize(payload)
    ensures q < |w| && At(w + Substituted(payload[|w|..], g, after, i), q, Token(i))
    ensures TokenHere(payload, 0) == Some(8) && i < 8
  {
    hide Token;
    hide At;
    hide TokenHere;
    hide Substituted;
    var m;
    q, m :| 0 <= q < 20 && 0 <= m < PASSES && OverlapAt(payload, i, q, m);
    TokenAt(payload, m);
    TokenShape(i);
    var t := Token(i);
    InsideToken(payload, t, q);
    var y := t[2..];
    assert t == t[..2] + y && y == t[2..|t|];
    AtSplit(payload, 18, t[..2], y);
    ShiftAt(payload, 20, 0, y);
    QuietPart(i, 2, |t|);
    QuietText(payload[20..], g, after, i, y);
    AtIs(payload[20..], 0, y);
    AtFront(y, Substituted(payload[20..][|y|..], g, after, i));
    JoinMatch(payload, w, Substituted(payload[20..], g, after, i), 18, t);
  }

  // ----- more replacements than pieces ----------------------------------------

  predicate Danger(payload: string, i: nat, j: nat, k: nat)
    requires i < PASSES
    decreases |payload|
  {
    payload != "" &&
    (GapIn(payload, i, j, k) || OverlapIn(payload, i) || Danger(payload[PieceSize(payload)..], i, j, k))
  }

  lemma {:induction false} AtLeastThePieces(payload: string, g: Generators, counts: seq<nat>, i: nat)
    requires i < PASSES && i != 8 && |counts| == PASSES
    ensures Occurrences(Substituted(payload, g, counts, i), i) >= Pieces(payload, i)
    decreases |payload|
  {
    hide Token;
    hide At;
    hide TokenHere;
    hide Occurrences;
    if payload != "" {
      var w, x, after := FirstPiece(payload, g, counts, i);
      var rest := Substituted(payload[|w|..], g, after, i);
      AtLeastThePieces(payload[|w|..], g, after, i);
      PlacesInFront(x, rest, i);
      if TokenHere(payload, 0) == Some(i) {
        AtFront(x, rest);
        TokenShape(i);
        assert At(x + rest, 0, Token(i));
      }
    }
  }

  lemma {:induction false} MoreThanThePieces(payload: string, g: Generators, counts: seq<nat>, i: nat, j: nat, k: nat)
    requires i < PASSES && i != 8 && |counts| == PASSES && Danger(payload, i, j, k) && j <= |Token(i)| && Fills(g, i, j, k)
    ensures Occurrences(Substituted(payload, g, counts, i), i) > Pieces(payload, i)
    decreases |payload|
  {
    hide Token;
    hide At;
    hide TokenHere;
    hide Occurrences;
    hide GapIn;
    hide OverlapIn;
    hide Fills;
    hide PieceSize;
    var w, x, after := FirstPiece(payload, g, counts, i);
    var rest := Substituted(payload[|w|..], g, after, i);
    hide Substituted;
    PlacesInFront(x, rest, i);
    if GapIn(payload, i, j, k) || OverlapIn(payload, i) {
      AtLeastThePieces(payload[|w|..], g, after, i);
      var q: nat;
      if GapIn(payload, i, j, k) {
        q := GapMatches(payload, g, i, j, k, w, after);
      } else {
        q := OverlapMatches(payload, g, i, w, after);
      }
      assert x == w;
    } else {
      MoreThanThePieces(payload[|w|..], g, after, i, j, k);
      if TokenHere(payload, 0) == Some(i) {
        AtFront(x, rest);
        TokenShape(i);
        assert At(x + rest, 0, Token(i));
      }
    }
  }

  // ----- exactly when ---------------------------------------------------------

  predicate Fitting(i: nat, j: nat, k: nat)
    requires i < PASSES
  {
    (k < i && j < |Token(i)| && IsDigit(Token(i)[j])) || (k == i && j == |Token(i)|)
  }

  lemma {:induction false} DangerFound(payload: string, i: nat) returns (j: nat, k: nat)
    requires i < PASSES && !SafeFor(payload, i)
    ensures i < 8 && Danger(payload, i, j, k) && Fitting(i, j, k)
    decreases |payload|
  {
    hide Token;
    hide At;
    hide TokenHere;
    hide PieceSize;
    if !PieceSafe(payload, i) {
      j, k := DangerHere(payload, i);
    } else {
      j, k := DangerFound(payload[PieceSize(payload)..], i);
    }
  }

  lemma DangerHere(payload: string, i: nat) returns (j: nat, k: nat)
    requires i < PASSES && payload != "" && !PieceSafe(payload, i)
    ensures i < 8 && Danger(payload, i, j, k) && Fitting(i, j, k)
  {
    hide Token;
    hide At;
    hide TokenHere;
    hide PieceSize;
    hide Danger;
    if pos, j', k' :| 0 <= pos < PieceSize(payload) && 0 <= j' < |Token(i)| && 0 <= k' < i && GapAt(payload, pos, i, j', k') {
      j, k := j', k';
      TokenShape(i);
      assert GapIn(payload, i, j, k);
      InDanger(payload, i, j, k);
    } else {
      var q, m :| 0 <= m < PASSES && 0 <= q < PieceSize(payload) && OverlapAt(payload, i, q, m);
      j, k := |Token(i)|, i;
      TokenShape(m);
      TokenShape(i);
      assert OverlapIn(payload, i);
      InDanger(payload, i, j, k);
      TokenAt(payload, m);
      PieceIsToken(payload);
      InsideToken(payload, Token(i), q);
    }
  }

  lemma InDanger(payload: string, i: nat, j: nat, k: nat)
    requires i < PASSES && payload != "" && (GapIn(payload, i, j, k) || OverlapIn(payload, i))
    ensures Danger(payload, i, j, k)
  {
  }

  lemma PieceIsToken(payload: string)
    requires payload != "" && TokenHere(payload, 0).Some?
    ensures PieceSize(payload) == |Token(TokenHere(payload, 0).value)|
  {
  }

  lemma TellingIs(i: nat, j: nat, k: nat) returns (g: Generators)
    requires i < 8 && Fitting(i, j, k)
    ensures Tells(g, i) && j <= |Token(i)| && Fills(g, i, j, k)
  {
    TokenShape(i);
    hide Token;
    var t := Token(i);
    var v := if k < i then t[j..] else "0";
    g := Telling(i, k, v);
    assert ShortDigits(v);
    forall m: nat, n: nat | m < PASSES ensures IsValue(m, g(m, n)) && Nines(g(m, n)) == if m == i then 1 else 0 {
      TellingValues(i, k, v, m, n);
    }
    forall c: nat ensures At(g(k, c), 0, t[j..]) {
      assert Telling(i, k, v)(k, c)[0..|t[j..]|] == t[j..];
    }
  }

  lemma {:induction false} PassesNines(payload: string, g: Generators, i: nat, m: nat)
    requires Tells(g, i) && i < m <= PASSES
    ensures Nines(Passes(payload, g, m)) == Nines(Passes(payload, g, i)) + Occurrences(Passes(payload, g, i), i)
    decreases m
  {
    hide Token;
    hide Nines;
    hide Occurrences;
    hide ReplaceAll;
    if m - 1 > i {
      PassesNines(payload, g, i, m - 1);
    }
    ReplacedNines(Passes(payload, g, m - 1), m - 1, g, 0, m - 1 == i);
  }

  lemma UnsafeDiffers(payload: string, i: nat) returns (g: Generators)
    requires i < PASSES && !SafeFor(payload, i) && forall m :: 0 <= m < i ==> SafeFor(payload, m)
    ensures Generating(g) && Passes(payload, g, PASSES) != Simultaneous(payload, g)
  {
    var j, k := DangerFound(payload, i);
    g := TellingIs(i, j, k);
    hide Token;
    hide Nines;
    hide Occurrences;
    hide Passes;
    hide Substituted;
    hide SafeFor;
    hide Danger;
    PassesSubstitute(payload, g, i);
    PassesNines(payload, g, i, PASSES);
    SubstitutedNines(payload, g, ZEROS, i, i);
    SubstitutedNines(payload, g, ZEROS, PASSES, i);
    MoreThanThePieces(payload, g, ZEROS, i, j, k);
  }

  // The twelve passes make one left-to-right substitution whatever the values are,
  // exactly when the payload is safe.
  lemma SimultaneousExactlyWhenSafe(payload: string)
    ensures
      (forall g :: Generating(g) ==> Passes(payload, g, PASSES) == Simultaneous(payload, g)) <==> Safe(payload)
  {
    hide Passes;
    hide Simultaneous;
    hide SafeFor;
    hide Generating;
    if Safe(payload) {
      forall g | Generating(g) ensures Passes(payload, g, PASSES) == Simultaneous(payload, g) {
        SafeSubstitutes(payload, g);
      }
    } else {
      var i :| 0 <= i < PASSES && !SafeFor(payload, i);
      var n := FirstUnsafe(payload, i);
      var g := UnsafeDiffers(payload, n);
    }
  }

  lemma SafeSubstitutes(payload: string, g: Generators)
    requires Generating(g) && Safe(payload)
    ensures Passes(payload, g, PASSES) == Simultaneous(payload, g)
  {
    hide SafeFor;
    hide Passes;
    PassesSubstitute(payload, g, PASSES);
  }

  lemma {:induction false} FirstUnsafe(payload: string, i: nat) returns (n: nat)
    requires i < PASSES && !SafeFor(payload, i)
    ensures n < PASSES && !SafeFor(payload, n) && forall m :: 0 <= m < n ==> SafeFor(payload, m)
    decreases i
  {
    hide SafeFor;
    if m :| 0 <= m < i && !SafeFor(payload, m) {
      n := FirstUnsafe(payload, m);
    } else {
      n := i;
    }
  }

  // Both dangers exist: a token of random digits behind a cut-off longer one, and a
  // token on the last two letters of TIMESTAMP_NS.
  lemma GapIsUnsafe(i: nat, j: nat, k: nat)
    requires k < i < PASSES && j < |Token(i)| && IsDigit(Token(i)[j])
    ensures !Safe(Token(i)[..j] + Token(k))
  {
    var payload := Token(i)[..j] + Token(k);
    TokenShape(k);
    hide Token;
    hide TokenHere;
    AtFront(payload, "");
    assert payload + "" == payload;
    assert GapAt(payload, 0, i, j, k);
    assert !PieceSafe(payload, i);
    assert !SafeFor(payload, i);
  }

  lemma OverlapIsUnsafe(i: nat)
    requires i < 8
    ensures !Safe(Token(8)[..18] + Token(i))
  {
    TokenShape(8);
    TokenShape(i);
    EndsInNS();
    var t := Token(i);
    var payload := Token(8)[..18] + t;
    hide Token;
    hide TokenHere;
    hide PieceSize;
    assert payload[18..] == t && payload[..20] == Token(8)[..18] + t[..2];
    assert t[..2] == "NS" == Token(8)[18..];
    assert payload[0..20] == Token(8)[..18] + Token(8)[18..] == Token(8);
    TokenAt(payload, 8);
    PieceIsToken(payload);
    assert payload[18..18 + |t|] == t;
    assert OverlapAt(payload, i, 18, 8);
    assert !PieceSafe(payload, i);
    assert !SafeFor(payload, i);
  }

  lemma EndsInNS()
    ensures |Token(8)| == 20 && Token(8)[18..] == "NS"
  {
    assert Name(8)[10..] == "NS";
    assert Token(8)[18..] == Name(8)[10..];
  }
}
