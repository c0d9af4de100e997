/** Numbers and their text: format_double, trim_ws and parse_double of
    src/text_util.cpp:83-126.  A double is its 64-bit pattern, so that infinities,
    NaNs and both zeros are among the values; the C library's conversions are
    parameters of which only three facts are used. */
module Numbers {
  import opened Text

  newtype Double = n: int | 0 <= n < 0x1_0000_0000_0000_0000

  const ZERO: Double := 0
  const ONE: Double := 0x3FF0_0000_0000_0000

  // A named value: a leaf of a JSON message, or an entry of the store.
  datatype Sample = Sample(name: string, value: Double)

  // format: what an ostringstream with 9 significant digits writes.
  // strtod: the value if strtod reads the whole of a NUL-free text without an error.
  datatype Codec = Codec(format: Double -> string, strtod: string -> Option<Double>)

  // Text a JSON scanner reads as one scalar, free of white space and of NUL.
  predicate NumberText(t: string) {
    t != "" && forall k :: 0 <= k < |t| ==> NumberChar(t[k])
  }

  predicate NumberChar(c: char) {
    !IsSpace(c) && c != '\0' && c != ',' && c != '\"' && c != '{' && c != '}' && c != '[' && c != ']'
  }

  // Formatted text is a number's text, a value read back from it is formatted the same
  // way again (nine digits survive a trip through a double), and strtod reads nothing
  // but a number's text: digits, signs, points, letters and, in a NaN, parentheses.
  // White space in front it would skip; parse_double never hands it any.
  ghost predicate Lawful(c: Codec) {
    && (forall v :: NumberText(c.format(v)))
    && (forall v, w :: c.strtod(c.format(v)) == Some(w) ==> c.format(w) == c.format(v))
    && (forall t :: c.strtod(t).Some? && (t == "" || !IsSpace(t[0])) ==> NumberText(t))
  }

  // ----- trim_ws --------------------------------------------------------------

  function TrimLeft(s: string): (r: string) {
    if s != "" && IsSpace(s[0]) then TrimLeft(s[1..]) else s
  }

  function TrimRight(s: string): (r: string) {
    if s != "" && IsSpace(s[|s| - 1]) then TrimRight(s[..|s| - 1]) else s
  }

  function Trim(s: string): string {
    TrimRight(TrimLeft(s))
  }

  method TrimWs(s: string) returns (r: string)
    ensures r == Trim(s)
  {
    var start, end := 0, |s|;
    while start < end && IsSpace(s[start])
      invariant 0 <= start <= |s| && TrimLeft(s) == TrimLeft(s[start..])
    {
      assert s[start..][1..] == s[start + 1..];
      start := start + 1;
    }
    ghost var left := s[start..];
    assert TrimLeft(s) == left && left[..end - start] == left;
    while end > start && IsSpace(s[end - 1])
      invariant start <= end <= |s| && TrimRight(left) == TrimRight(left[..end - start])
    {
      assert left[..end - start][..end - start - 1] == left[..end - 1 - start];
      end := end - 1;
    }
    assert s[start..end] == left[..end - start];
    return s[start..end];
  }

  // Trimming takes the white space at both ends and nothing else.
  lemma {:induction false} TrimIs(a: string, t: string, b: string)
    requires AllSpace(a) && AllSpace(b)
    requires t != "" ==> !IsSpace(t[0]) && !IsSpace(t[|t| - 1])
    ensures Trim(a + t + b) == t
    decreases |a| + |b|
  {
    var s := a + t + b;
    if a != "" {
      assert s[0] == a[0] && s[1..] == a[1..] + t + b;
      TrimIs(a[1..], t, b);
    } else if b != "" {
      assert s == t + b;
      if t == "" {
        assert s[0] == b[0] && s[1..] == a + t + b[1..];
        TrimIs(a, t, b[1..]);
      } else {
        var b' := b[..|b| - 1];
        assert s[0] == t[0] && s[..|s| - 1] == t + b' == a + t + b';
        TrimIs(a, t, b');
        assert (t + b')[0] == t[0];
        assert TrimLeft(t + b') == t + b' && TrimLeft(s) == s;
      }
    } else {
      assert s == t;
    }
  }

  // ----- parse_double ---------------------------------------------------------

  // What c_str() shows a C function: the text up to the first NUL.
  function CString(s: string): string {
    if s == "" || s[0] == '\0' then "" else [s[0]] + CString(s[1..])
  }

  function ParseDouble(c: Codec, text: string): Option<Double> {
    var t := CString(Trim(text));
    if t == "" then None else c.strtod(t)
  }

  lemma {:induction false} CStringOfNumber(t: string)
    requires forall k :: 0 <= k < |t| ==> t[k] != '\0'
    ensures CString(t) == t
  {
    if t != "" {
      CStringOfNumber(t[1..]);
    }
  }

  // White space around a number does not change what is read.
  lemma ParseNumberText(c: Codec, a: string, t: string, b: string)
    requires AllSpace(a) && NumberText(t) && AllSpace(b)
    ensures ParseDouble(c, a + t + b) == c.strtod(t) == ParseDouble(c, t)
  {
    assert NumberChar(t[0]) && NumberChar(t[|t| - 1]);
    TrimIs(a, t, b);
    TrimIs("", t, "");
    assert "" + t + "" == t;
    CStringOfNumber(t);
  }

  // A value whose text the store can read back: not so for subnormal doubles, for
  // whose nine digits strtod reports a range error.
  predicate Readable(c: Codec, v: Double) {
    ParseDouble(c, c.format(v)).Some?
  }

  // The value rounded to nine significant digits.
  function Rounded(c: Codec, v: Double): Double {
    match ParseDouble(c, c.format(v))
    case Some(w) => w
    case None => v
  }

  // Rounding is idempotent, keeps a value readable and does not change its text.
  lemma RoundedAgain(c: Codec, v: Double)
    requires Lawful(c) && Readable(c, v)
    ensures Readable(c, Rounded(c, v)) && Rounded(c, Rounded(c, v)) == Rounded(c, v)
    ensures c.format(Rounded(c, v)) == c.format(v)
  {
    ParseNumberText(c, "", c.format(v), "");
  }

  // ----- one lawful codec -----------------------------------------------------

  const UNIT := 1024

  function UnitFormat(v: Double): string {
    Digits(v as int / UNIT)
  }

  function UnitStrtod(t: string): Option<Double> {
    if t != "" && (forall k :: 0 <= k < |t| ==> IsDigit(t[k])) && DigitsValue(t) < 0x40_0000_0000_0000
    then Some((DigitsValue(t) * UNIT) as Double)
    else None
  }

  // The laws can be met by a codec that does lose digits.
  lemma UnitCodecIsLawful()
    ensures Lawful(Codec(UnitFormat, UnitStrtod))
    ensures forall v :: Readable(Codec(UnitFormat, UnitStrtod), v)
    ensures Rounded(Codec(UnitFormat, UnitStrtod), 2047) == 1024
  {
    var c := Codec(UnitFormat, UnitStrtod);
    forall v: Double
      ensures NumberText(c.format(v))
      ensures c.strtod(c.format(v)) == Some((v as int / UNIT * UNIT) as Double) == ParseDouble(c, c.format(v))
      ensures c.format((v as int / UNIT * UNIT) as Double) == c.format(v)
    {
      var t := c.format(v);
      DigitsRoundTrip(v as int / UNIT);
      forall k | 0 <= k < |t| ensures NumberChar(t[k]) {
        assert IsDigit(t[k]);
      }
      ParseNumberText(c, "", t, "");
    }
    forall t | c.strtod(t).Some? ensures NumberText(t) {
      forall k | 0 <= k < |t| ensures NumberChar(t[k]) {
        assert IsDigit(t[k]);
      }
    }
  }
}
