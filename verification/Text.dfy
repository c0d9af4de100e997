/** Byte strings and the few library calls the engines share.  A `string` stands
    for a C++ `std::string`: one `char` is one byte, so a byte string is one whose
    characters are below 256.  Results that hold for any characters do not say so. */
module Text {

  datatype Option<+T> = None | Some(value: T)

  // isspace() in the C locale: bytes 9 to 13 and 32.
  predicate IsSpace(c: char) {
    c == ' ' || '\t' <= c <= '\r'
  }

  predicate IsDigit(c: char) {
    '0' <= c <= '9'
  }

  predicate IsByteString(s: string) {
    forall k :: 0 <= k < |s| ==> s[k] as int < 256
  }

  predicate AllSpace(s: string) {
    forall k :: 0 <= k < |s| ==> IsSpace(s[k])
  }

  // x occurs in s at position i.
  predicate At(s: string, i: nat, x: string) {
    i + |x| <= |s| && s[i..i + |x|] == x
  }

  lemma AtIs(s: string, p: nat, x: string)
    ensures At(s, p, x) <==> p + |x| <= |s| && s[p..p + |x|] == x
  {
  }

  lemma AtSplit(s: string, i: nat, a: string, b: string)
    ensures At(s, i, a + b) <==> At(s, i, a) && At(s, i + |a|, b)
  {
    var n := i + |a| + |b|;
    if n <= |s| {
      assert s[i..n] == s[i..i + |a|] + s[i + |a|..n];
      if At(s, i, a + b) {
        assert s[i..i + |a|] == s[i..n][..|a|] == a;
        assert s[i + |a|..n] == s[i..n][|a|..] == b;
      }
    }
  }

  lemma AtChars(s: string, i: nat, x: string)
    requires At(s, i, x)
    ensures forall k :: 0 <= k < |x| ==> s[i + k] == x[k]
  {
    forall k | 0 <= k < |x| ensures s[i + k] == x[k] {
      assert s[i..i + |x|][k] == s[i + k];
    }
  }

  // Position of the first occurrence of x in s at or after i: std::string::find.
  function Find(s: string, x: string, i: nat): (r: Option<nat>)
    ensures r.Some? ==> i <= r.value && At(s, r.value, x) && forall k: nat :: i <= k < r.value ==> !At(s, k, x)
    ensures r.None? ==> forall k: nat :: i <= k ==> !At(s, k, x)
    decreases |s| - i
  {
    if i + |x| > |s| then None
    else if s[i..i + |x|] == x then Some(i)
    else Find(s, x, i + 1)
  }

  lemma FindIs(s: string, x: string, i: nat, p: nat)
    requires i <= p && At(s, p, x)
    requires forall k: nat :: i <= k < p ==> !At(s, k, x)
    ensures Find(s, x, i) == Some(p)
  {
  }

  // ----- searching for one character ------------------------------------------

  lemma AtChar(s: string, k: nat, c: char)
    ensures At(s, k, [c]) <==> k < |s| && s[k] == c
  {
    if k < |s| {
      assert s[k..k + 1] == [s[k]];
    }
  }

  lemma FindChar(s: string, c: char, i: nat, p: nat)
    requires i <= p < |s| && s[p] == c && forall k :: i <= k < p ==> s[k] != c
    ensures Find(s, [c], i) == Some(p)
  {
    forall k: nat | i <= k <= p ensures At(s, k, [c]) <==> k == p {
      AtChar(s, k, c);
    }
    FindIs(s, [c], i, p);
  }

  lemma FindNoChar(s: string, c: char, i: nat)
    requires forall k :: i <= k < |s| ==> s[k] != c
    ensures Find(s, [c], i) == None
  {
    var r := Find(s, [c], i);
    if r.Some? {
      AtChar(s, r.value, c);
    }
  }

  // The first c behind a part that has none, and the parts it separates.
  lemma FindAfter(s: string, i: nat, t: string, c: char, rest: string)
    requires i <= |s| && s[i..] == t + [c] + rest && c !in t
    ensures Find(s, [c], i) == Some(i + |t|) && i + |t| < |s|
    ensures s[i..i + |t|] == t && s[i + |t| + 1..] == rest
  {
    var u := s[i..];
    forall k | i <= k < i + |t| ensures s[k] != c {
      assert s[k] == u[k - i] == t[k - i];
    }
    assert s[i + |t|] == u[|t|] == c;
    FindChar(s, c, i, i + |t|);
    assert s[i..i + |t|] == u[..|t|];
    assert s[i + |t| + 1..] == u[|t| + 1..];
  }

  lemma FindNowhere(s: string, i: nat, c: char)
    requires i <= |s| && c !in s[i..]
    ensures Find(s, [c], i) == None
  {
    forall k | i <= k < |s| ensures s[k] != c {
      assert s[k] == s[i..][k - i];
    }
    FindNoChar(s, c, i);
  }

  // Where there is no occurrence, the search goes on.
  lemma {:induction false} FindFrom(s: string, x: string, i: nat, p: nat)
    requires i <= p && forall k: nat :: i <= k < p ==> !At(s, k, x)
    ensures Find(s, x, i) == Find(s, x, p)
  {
    var r := Find(s, x, p);
    if r.Some? {
      FindIs(s, x, i, r.value);
    } else {
      assert forall k: nat :: i <= k ==> !At(s, k, x);
    }
  }

  // Decimal digits of a natural number, as std::to_string writes it.
  function Digits(n: nat): (s: string)
    ensures |s| >= 1 && forall k :: 0 <= k < |s| ==> IsDigit(s[k])
  {
    if n < 10 then [('0' as int + n) as char] else Digits(n / 10) + [('0' as int + n % 10) as char]
  }

  function DigitsValue(s: string): nat
    requires forall k :: 0 <= k < |s| ==> IsDigit(s[k])
  {
    if s == "" then 0 else
    var last := s[|s| - 1];
    assert IsDigit(last);
    10 * DigitsValue(s[..|s| - 1]) + (last as int - '0' as int)
  }

  lemma {:induction false} DigitsRoundTrip(n: nat)
    ensures DigitsValue(Digits(n)) == n
  {
    if n >= 10 {
      DigitsRoundTrip(n / 10);
      var d := Digits(n / 10);
      var s := Digits(n);
      assert s[..|s| - 1] == d;
    }
  }
}
