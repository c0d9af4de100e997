/** What the escapes of a JSON string stand for: json_unescape of
    src/json_util.cpp:107-206 against section 7 of RFC 8259 and section 3 of RFC 3629. */
module JsonEscapes {
  import opened Text
  import opened JsonScan

  // Four digits, each in either case, write the code unit cp.
  predicate WritesUnit(h: string, cp: nat) {
    && |h| == 4 && cp < 0x10000
    && Writes(h[0], cp / 4096) && Writes(h[1], cp / 256 % 16) && Writes(h[2], cp / 16 % 16) && Writes(h[3], cp % 16)
  }

  lemma HexNumberStep(h: string, c: char, n: nat)
    ensures
      HexNumber(h + [c]) == Some(n) <==> Writes(c, n % 16) && HexNumber(h) == Some(n / 16)
  {
    HexValueIs(c, n % 16);
    hide HexValue;
    hide Writes;
    assert (h + [c])[..|h|] == h;
    var d, m := HexValue(c), HexNumber(h);
    if d.Some? && m.Some? {
      assert (16 * m.value + d.value) / 16 == m.value && (16 * m.value + d.value) % 16 == d.value;
    }
  }

  lemma HexNumberIs(h: string, cp: nat)
    requires |h| == 4
    ensures HexNumber(h) == Some(cp) <==> WritesUnit(h, cp)
  {
    assert h == (([] + [h[0]] + [h[1]]) + [h[2]]) + [h[3]];
    HexNumberStep(([] + [h[0]] + [h[1]]) + [h[2]], h[3], cp);
    HexNumberStep([] + [h[0]] + [h[1]], h[2], cp / 16);
    HexNumberStep([] + [h[0]], h[1], cp / 16 / 16);
    HexNumberStep([], h[0], cp / 16 / 16 / 16);
    hide Writes;
    Sixteenths(cp);
  }

  lemma Sixteenths(n: nat)
    ensures n / 16 / 16 == n / 256 && n / 16 / 16 / 16 == n / 4096
    ensures n / 4096 / 16 == 0 <==> n < 0x10000
    ensures n < 0x10000 ==> n / 4096 % 16 == n / 4096
  {
  }

  predicate Continues(c: char) {
    0x80 <= c as int <= 0xBF
  }

  // u is the UTF-8 form of cp, read from its bytes; the code does not exclude the
  // surrogates.
  predicate IsUtf8(u: string, cp: nat) {
    || (|u| == 1 && u[0] as int == cp < 0x80)
    || (|u| == 2 && 0xC2 <= u[0] as int <= 0xDF && Continues(u[1])
        && cp == (u[0] as int - 0xC0) * 64 + (u[1] as int - 0x80))
    || (|u| == 3 && 0xE0 <= u[0] as int <= 0xEF && Continues(u[1]) && Continues(u[2]) && cp >= 0x800
        && cp == (u[0] as int - 0xE0) * 4096 + (u[1] as int - 0x80) * 64 + (u[2] as int - 0x80))
  }

  lemma Utf8Is(u: string, cp: nat)
    requires cp < 0x10000
    ensures Utf8(cp) == u <==> IsUtf8(u, cp)
  {
    SixtyFourths(cp);
    if IsUtf8(u, cp) && |u| == 2 {
      var a, b := u[0] as int - 0xC0, u[1] as int - 0x80;
      assert cp / 64 == a && cp % 64 == b;
      assert u == [(0xC0 + a) as char, (0x80 + b) as char];
    } else if IsUtf8(u, cp) && |u| == 3 {
      var a, b, d := u[0] as int - 0xE0, u[1] as int - 0x80, u[2] as int - 0x80;
      assert cp / 4096 == a && cp / 64 % 64 == b && cp % 64 == d;
      assert u == [(0xE0 + a) as char, (0x80 + b) as char, (0x80 + d) as char];
    }
  }

  lemma SixtyFourths(n: nat)
    ensures n == n / 4096 * 4096 + n / 64 % 64 * 64 + n % 64 && n == n / 64 * 64 + n % 64
  {
    assert n / 64 / 64 == n / 4096;
  }

  // A \u escape of four digits, each in either case, gives the UTF-8 form of its code
  // unit.
  lemma UnicodeEscapeGives(h: string, cp: nat, u: string, rest: string)
    requires WritesUnit(h, cp) && IsUtf8(u, cp)
    ensures Unescape("\\u" + (h + rest)) == u + Unescape(rest)
  {
    HexNumberIs(h, cp);
    Utf8Is(u, cp);
    hide *;
    UnicodeParts(h, rest);
    LengthOf(h, cp);
    UnicodeStep("\\u" + (h + rest));
  }

  lemma LengthOf(h: string, cp: nat)
    requires WritesUnit(h, cp)
    ensures |h| == 4 && cp < 0x10000
  {
  }

  lemma UnicodeParts(h: string, rest: string)
    ensures
      var s := "\\u" + (h + rest);
      && s[0] == '\\' && s[1] == 'u' && s[2..] == h + rest
      && (|h| == 4 ==> |s| >= 6 && s[2..6] == h && s[6..] == rest)
  {
  }

  // Anything else behind \u leaves the letter and is read as text.
  lemma OtherUnicodeEscape(t: string)
    requires |t| < 4 || forall cp :: !WritesUnit(t[..4], cp)
    ensures Unescape("\\u" + t) == "u" + Unescape(t)
  {
    hide *;
    UnicodeParts("", t);
    assert "" + t == t;
    var s := "\\u" + t;
    UnicodeStep(s);
    if |t| >= 4 && HexNumber(t[..4]).Some? {
      HexNumberIs(t[..4], HexNumber(t[..4]).value);
    }
    assert |t| >= 4 ==> s[2..6] == t[..4];
  }

  lemma UnicodeStep(s: string)
    requires |s| >= 2 && s[0] == '\\' && s[1] == 'u'
    ensures Unescape(s) ==
      if |s| < 6 || HexNumber(s[2..6]).None? then "u" + Unescape(s[2..])
      else Utf8(HexNumber(s[2..6]).value) + Unescape(s[6..])
  {
  }

  const ESCAPED := "bfnrt"
  const MEANT: seq<int> := [8, 12, 10, 13, 9]

  // The two-character escapes: five letters stand for control characters, and every
  // other character but u for itself, at the end of the text for nothing.
  lemma LetterEscapes(c: char, rest: string)
    requires c != 'u'
    ensures forall k :: 0 <= k < |ESCAPED| && ESCAPED[k] == c ==>
      0 <= MEANT[k] < 0x20 && Unescape(['\\', c] + rest) == [MEANT[k] as char] + Unescape(rest)
    ensures c !in ESCAPED ==> Unescape(['\\', c] + rest) == [c] + Unescape(rest)
    ensures Unescape("\\") == ""
  {
    var s := ['\\', c] + rest;
    assert s[2..] == rest;
    UnescapeTwo(s);
    hide Unescape;
    assert ESCAPED[0] == 'b' && ESCAPED[1] == 'f' && ESCAPED[2] == 'n' && ESCAPED[3] == 'r' && ESCAPED[4] == 't';
    LoneBackslash();
  }

  lemma LoneBackslash()
    ensures Unescape("\\") == ""
  {
  }

  // ----- what json_escape chooses ---------------------------------------------

  // A text between quotes that reads as one character and holds no control character.
  predicate SpellsOne(e: string, c: char) {
    StringBody(e) && Unescape(e) == [c] && forall k :: 0 <= k < |e| ==> e[k] as int >= 0x20
  }

  // Of all ways to write a character json_escape takes a shortest one.
  lemma EscapeIsShortest(c: char, e: string)
    requires SpellsOne(e, c)
    ensures |EscapeChar(c)| <= |e|
  {
    if e[0] != '\\' {
      RestReadsAsText(e[1..]);
      assert Unescape(e)[0] == e[0] && Unescape(e)[1..] == Unescape(e[1..]);
      assert e == [c];
    } else if e[1] != 'u' {
      RestReadsAsText(e[2..]);
      UnescapeTwo(e);
      hide Unescape;
      assert Unescape(e)[0] == EscapeTarget(e[1]) && Unescape(e)[1..] == Unescape(e[2..]);
    } else {
      UnicodeStep(e);
      hide Unescape;
      assert |e| < 6 ==> Unescape(e)[0] == 'u';
    }
    hide HexDigit;
  }

  lemma RestReadsAsText(s: string)
    requires StringBody(s)
    ensures Unescape(s) == "" <==> s == ""
  {
    if s != "" && s[0] == '\\' && s[1] == 'u' && |s| >= 6 && HexNumber(s[2..6]).Some? {
      assert Utf8(HexNumber(s[2..6]).value) != "";
    }
  }
}
