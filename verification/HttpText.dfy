/** The text helpers of the request parser: percent_decode, trim_spaces, to_lower and
    the strtol call of src/http.cpp:25-93 and 251-260, against section 2.1 of RFC 3986. */
module HttpText {
  import opened Text
  import opened Numbers
  import opened JsonScan

  // ----- percent-encoding -----------------------------------------------------

  function Prefixed(c: char, r: Option<string>): Option<string> {
    if r.None? then None else Some([c] + r.value)
  }

  predicate IsControl(c: char) {
    c < ' ' || c == '\U{7f}'
  }

  // The byte an escape of two hexadecimal digits stands for; not NUL.
  function EscapedByte(hi: char, lo: char): Option<char> {
    match (HexValue(hi), HexValue(lo))
    case (Some(h), Some(l)) => if 16 * h + l == 0 then None else Some((16 * h + l) as char)
    case _ => None
  }

  function PercentDecode(s: string): Option<string>
    decreases |s|
  {
    if s == "" then Some("")
    else if s[0] == '+' then Prefixed(' ', PercentDecode(s[1..]))
    else if s[0] == '%' then
      if |s| < 3 || EscapedByte(s[1], s[2]).None? then None
      else Prefixed(EscapedByte(s[1], s[2]).value, PercentDecode(s[3..]))
    else if IsControl(s[0]) then None
    else Prefixed(s[0], PercentDecode(s[1..]))
  }

  function After(out: string, r: Option<string>): Option<string> {
    if r.None? then None else Some(out + r.value)
  }

  lemma AfterOne(out: string, c: char, r: Option<string>)
    ensures After(out, Prefixed(c, r)) == After(out + [c], r)
  {
    if r.Some? {
      assert out + ([c] + r.value) == (out + [c]) + r.value;
    }
  }

  method DecodePercent(s: string) returns (r: Option<string>)
    ensures r == PercentDecode(s)
  {
    hide EscapedByte;
    hide After;
    hide Prefixed;
    var out := "";
    var i := 0;
    assert s[0..] == s;
    NothingBefore(PercentDecode(s));
    while i < |s|
      invariant 0 <= i <= |s| && PercentDecode(s) == After(out, PercentDecode(s[i..]))
    {
      ghost var rest := s[i..];
      ghost var before := out;
      var c := s[i];
      if c == '+' {
        out := out + [' '];
      } else if c == '%' {
        if i + 2 >= |s| {
          FailsAfter(out);
          return None;
        }
        var byte := EscapedByte(s[i + 1], s[i + 2]);
        if byte.None? {
          FailsAfter(out);
          return None;
        }
        out := out + [byte.value];
        assert rest[3..] == s[i + 3..];
        i := i + 2;
      } else {
        if IsControl(c) {
          FailsAfter(out);
          return None;
        }
        out := out + [c];
      }
      i := i + 1;
      assert rest[1..] == s[|s| - |rest| + 1..];
      AfterOne(before, out[|out| - 1], PercentDecode(s[i..]));
    }
    EndsAfter(out);
    return Some(out);
  }

  lemma NothingBefore(r: Option<string>)
    ensures After("", r) == r
  {
    if r.Some? {
      assert "" + r.value == r.value;
    }
  }

  lemma FailsAfter(out: string)
    ensures After(out, None) == None
  {
  }

  lemma EndsAfter(out: string)
    ensures After(out, Some("")) == Some(out)
  {
    assert out + "" == out;
  }

  // The two digits write the byte, in either case and mixed; it is not NUL.
  predicate EscapeIs(hi: char, lo: char, c: char) {
    0 < c as int < 256 && Writes(hi, c as int / 16) && Writes(lo, c as int % 16)
  }

  lemma EscapedByteIs(hi: char, lo: char, c: char)
    ensures EscapedByte(hi, lo) == Some(c) <==> EscapeIs(hi, lo, c)
  {
    hide HexValue;
    hide Writes;
    var n := c as int;
    HexValueIs(hi, n / 16);
    HexValueIs(lo, n % 16);
    match (HexValue(hi), HexValue(lo))
    case (Some(h), Some(l)) =>
      assert (16 * h + l) / 16 == h && (16 * h + l) % 16 == l;
    case _ =>
  }

  // e is one of the encodings of s: each byte of s as itself, as an escape of two
  // digits in either case or, for a space, as a plus.
  predicate Encodes(e: string, s: string)
    decreases |s|
  {
    if s == "" || e == "" then e == s
    else if e[0] == '+' then s[0] == ' ' && Encodes(e[1..], s[1..])
    else if e[0] == '%' then |e| >= 3 && EscapeIs(e[1], e[2], s[0]) && Encodes(e[3..], s[1..])
    else e[0] == s[0] && s[0] as int >= 0x20 && s[0] as int != 0x7F && Encodes(e[1..], s[1..])
  }

  // An escape stands for one byte: every digit in either case gives it, and NUL or any
  // other character in the place of a digit makes the decoding fail.
  lemma EscapesDecode(hi: char, lo: char, rest: string)
    ensures forall c :: EscapeIs(hi, lo, c) ==> PercentDecode(['%', hi, lo] + rest) == Prefixed(c, PercentDecode(rest))
    ensures (forall c :: !EscapeIs(hi, lo, c)) ==> PercentDecode(['%', hi, lo] + rest) == None
    ensures (exists c :: EscapeIs(hi, lo, c)) <==> exists h, l :: Writes(hi, h) && Writes(lo, l) && h + l > 0
  {
    var e := ['%', hi, lo] + rest;
    assert e[3..] == rest;
    forall c ensures EscapedByte(hi, lo) == Some(c) <==> EscapeIs(hi, lo, c) {
      EscapedByteIs(hi, lo, c);
    }
    forall h, l | Writes(hi, h) && Writes(lo, l) && h + l > 0 ensures exists c :: EscapeIs(hi, lo, c) {
      var c := (16 * h + l) as char;
      assert c as int / 16 == h && c as int % 16 == l;
      assert EscapeIs(hi, lo, c);
    }
    hide EscapedByte;
    hide Writes;
    forall c | EscapeIs(hi, lo, c) ensures exists h, l :: Writes(hi, h) && Writes(lo, l) && h + l > 0 {
      assert Writes(hi, c as int / 16) && Writes(lo, c as int % 16);
    }
    hide EscapeIs;
    if EscapedByte(hi, lo).Some? {
      assert EscapeIs(hi, lo, EscapedByte(hi, lo).value);
    }
  }

  // What is decoded is what it encodes, and all that it encodes is decoded.
  lemma {:induction false} DecodesExactly(e: string, s: string)
    ensures PercentDecode(e) == Some(s) <==> Encodes(e, s)
    decreases |e|
  {
    hide EscapedByte;
    hide EscapeIs;
    if e != "" && s != "" {
      assert s == [s[0]] + s[1..];
      DecodesExactly(e[1..], s[1..]);
      if |e| >= 3 {
        EscapedByteIs(e[1], e[2], s[0]);
        DecodesExactly(e[3..], s[1..]);
      }
      var d := PercentDecode(e);
      if d.Some? {
        assert d.value[1..] == PercentDecode(if e[0] == '%' then e[3..] else e[1..]).value;
      }
    }
  }

  // A raw space is decoded, against the comment of the test for control bytes.
  lemma RawSpaceIsDecoded()
    ensures PercentDecode(" ") == Some(" ")
  {
    DecodesExactly(" ", " ");
    assert Encodes(" "[1..], " "[1..]);
  }

  // ----- an encoder -----------------------------------------------------------

  // Section 2.3 of RFC 3986, and the slash of a path.
  predicate Unreserved(c: char) {
    'a' <= c <= 'z' || 'A' <= c <= 'Z' || IsDigit(c) || c == '-' || c == '.' || c == '_' || c == '~' || c == '/'
  }

  function EncodeByte(c: char): string
    requires c as int < 256
  {
    if Unreserved(c) then [c] else ['%', HexDigit(c as int / 16), HexDigit(c as int % 16)]
  }

  function PercentEncode(s: string): string
    requires IsByteString(s)
  {
    if s == "" then "" else EncodeByte(s[0]) + PercentEncode(s[1..])
  }

  lemma EscapedByteOf(c: char)
    requires 0 < c as int < 256
    ensures EscapedByte(HexDigit(c as int / 16), HexDigit(c as int % 16)) == Some(c)
  {
    var h, l := c as int / 16, c as int % 16;
    assert HexValue(HexDigit(h)) == Some(h) && HexValue(HexDigit(l)) == Some(l);
  }

  lemma EncodedByte(c: char)
    requires 0 < c as int < 256
    ensures
      var p := EncodeByte(c);
      && (forall d :: d in p ==> Unreserved(d) || d == '%')
      && if Unreserved(c)
         then p == [c] && c != '%' && c != '+' && c as int >= 0x20 && c as int != 0x7F
         else |p| == 3 && p[0] == '%' && EscapeIs(p[1], p[2], c)
  {
    EscapedByteOf(c);
    EscapedByteIs(HexDigit(c as int / 16), HexDigit(c as int % 16), c);
    hide EscapedByte;
    hide EscapeIs;
    assert Unreserved(HexDigit(c as int / 16)) && Unreserved(HexDigit(c as int % 16));
  }

  // Everything but NUL survives, and the text is free of what separates the parts of
  // a request.
  lemma {:induction false} PercentRoundTrip(s: string)
    requires IsByteString(s) && forall k :: 0 <= k < |s| ==> s[k] != '\0'
    ensures Encodes(PercentEncode(s), s)
    ensures forall c :: c in PercentEncode(s) ==> Unreserved(c) || c == '%'
  {
    if s != "" {
      PercentRoundTrip(s[1..]);
      EncodedByte(s[0]);
      hide EncodeByte;
      hide EscapeIs;
      hide Unreserved;
      var p, rest := EncodeByte(s[0]), PercentEncode(s[1..]);
      assert (p + rest)[|p|..] == rest;
      assert |p| == 3 ==> (p + rest)[0] == p[0] && (p + rest)[1] == p[1] && (p + rest)[2] == p[2];
      assert (p + rest)[0] == p[0];
    }
  }

  // ----- trim_spaces and to_lower ---------------------------------------------

  predicate Blank(s: string) {
    forall k :: 0 <= k < |s| ==> s[k] == ' '
  }

  function DropBlanks(s: string): string {
    if s != "" && s[0] == ' ' then DropBlanks(s[1..]) else s
  }

  function DropLastBlanks(s: string): string {
    if s != "" && s[|s| - 1] == ' ' then DropLastBlanks(s[..|s| - 1]) else s
  }

  function TrimSpaces(s: string): string {
    DropLastBlanks(DropBlanks(s))
  }

  predicate Trimmed(s: string) {
    s != "" ==> s[0] != ' ' && s[|s| - 1] != ' '
  }

  lemma {:induction false} TrimSpacesIs(a: string, t: string, b: string)
    requires Blank(a) && Blank(b) && Trimmed(t)
    ensures TrimSpaces(a + t + b) == t
    decreases |a| + |b|
  {
    var s := a + t + b;
    if a != "" {
      assert s[0] == ' ' && s[1..] == a[1..] + t + b;
      TrimSpacesIs(a[1..], t, b);
    } else if b != "" {
      var b' := b[..|b| - 1];
      assert s == t + b;
      if t == "" {
        assert s[0] == ' ' && s[1..] == a + t + b[1..];
        TrimSpacesIs(a, t, b[1..]);
      } else {
        assert s[0] == t[0] && s[..|s| - 1] == t + b' == a + t + b';
        TrimSpacesIs(a, t, b');
        assert (t + b')[0] == t[0];
        assert DropBlanks(t + b') == t + b' && DropBlanks(s) == s;
      }
    } else {
      assert s == t;
    }
  }

  function Lower(c: char): char {
    if 'A' <= c <= 'Z' then (c as int + 32) as char else c
  }

  function ToLower(s: string): (r: string)
    ensures |r| == |s| && forall k :: 0 <= k < |s| ==> r[k] == Lower(s[k])
  {
    if s == "" then "" else [Lower(s[0])] + ToLower(s[1..])
  }

  // ----- strtol for Content-Length --------------------------------------------

  const LONG_MAX: nat := 0x7FFF_FFFF_FFFF_FFFF

  predicate AllDigits(s: string) {
    forall k :: 0 <= k < |s| ==> IsDigit(s[k])
  }

  // The text up to a NUL, white space and a sign before the digits, nothing after
  // them; a range error or a negative number is refused.
  function ParseLength(value: string): (r: Option<nat>)
    ensures r.Some? ==> r.value <= LONG_MAX
  {
    var t := CString(value);
    var start := WsEnd(t, 0);
    var u := if start <= |t| then t[start..] else "";
    var negative := u != "" && u[0] == '-';
    var digits := if u != "" && (u[0] == '-' || u[0] == '+') then u[1..] else u;
    if digits == "" || !AllDigits(digits) then None
    else
      var n := DigitsValue(digits);
      if n > LONG_MAX || (negative && n > 0) then None else Some(n)
  }

  lemma DigitsAreALength(n: nat)
    requires n <= LONG_MAX
    ensures ParseLength(Digits(n)) == Some(n)
    ensures Trimmed(Digits(n)) && AllDigits(Digits(n))
  {
    var s := Digits(n);
    assert IsDigit(s[0]) && IsDigit(s[|s| - 1]);
    CStringOfNumber(s);
    assert s[0..] == s;
    DigitsRoundTrip(n);
  }
}
