/** The random values of src/event_placeholders.cpp:18-65, from the bytes the device
    gives: they have the layout that Placeholders asks of a value. */
module RandomValues {
  import opened Text
  import opened JsonScan
  import opened Placeholders

  predicate Bytes(bs: seq<nat>) {
    forall k :: 0 <= k < |bs| ==> bs[k] < 256
  }

  function HexPair(b: nat): string
    requires b < 256
  {
    [HexDigit(b / 16), HexDigit(b % 16)]
  }

  lemma PairIsHex(b: nat)
    requires b < 256
    ensures HexChar(HexPair(b)[0]) && HexChar(HexPair(b)[1])
  {
  }

  // ----- random_hex -----------------------------------------------------------

  function HexText(bs: seq<nat>): string
    requires Bytes(bs)
  {
    if bs == [] then "" else HexText(bs[..|bs| - 1]) + HexPair(bs[|bs| - 1])
  }

  // The device is asked for one byte after the other.
  method RandomHex(hexChars: nat, device: seq<nat>) returns (out: string)
    requires Bytes(device) && |device| >= hexChars / 2
    ensures out == HexText(device[..hexChars / 2])
  {
    out := "";
    for i := 0 to hexChars / 2
      invariant out == HexText(device[..i])
    {
      assert device[..i + 1][..i] == device[..i];
      out := out + [HexDigit(device[i] / 16), HexDigit(device[i] % 16)];
    }
  }

  lemma {:induction false} HexTextFits(bs: seq<nat>)
    requires Bytes(bs)
    ensures |HexText(bs)| == 2 * |bs| && forall q :: 0 <= q < |HexText(bs)| ==> HexChar(HexText(bs)[q])
    ensures forall i :: 0 <= i < |bs| ==> HexText(bs)[2 * i..2 * i + 2] == HexPair(bs[i])
  {
    if bs != [] {
      var init := bs[..|bs| - 1];
      HexTextFits(init);
      PairIsHex(bs[|bs| - 1]);
      hide HexChar;
      hide HexDigit;
      assert HexText(bs) == HexText(init) + HexPair(bs[|bs| - 1]);
      hide HexText;
      forall i | 0 <= i < |bs| ensures HexText(bs)[2 * i..2 * i + 2] == HexPair(bs[i]) {
        if i < |init| {
          assert HexText(bs)[2 * i..2 * i + 2] == HexText(init)[2 * i..2 * i + 2];
        }
      }
    }
  }

  // As many characters as the name of the token says, two for each byte, from which the
  // byte can be read again.
  lemma HexValuesFit(k: nat, bs: seq<nat>)
    requires k < 4 && Bytes(bs) && |bs| == Width(k) / 2
    ensures IsValue(k, HexText(bs)) && Name(k) == "RANDOM_HEX" + Digits(|HexText(bs)|)
    ensures forall i :: 0 <= i < |bs| ==> HexNumber(HexText(bs)[2 * i..2 * i + 2]) == Some(bs[i])
  {
    HexTextFits(bs);
    WidthIsNamed(k);
    forall i | 0 <= i < |bs| ensures HexNumber(HexText(bs)[2 * i..2 * i + 2]) == Some(bs[i]) {
      PairReadsBack(bs[i]);
    }
    hide HexText;
    hide Name;
    hide HexChar;
    hide HexNumber;
  }

  lemma WidthIsNamed(k: nat)
    requires k < 4
    ensures Name(k) == "RANDOM_HEX" + Digits(Width(k)) && Width(k) % 2 == 0 && Width(k) > 0
  {
    assert Digits(8) == "8";
    assert Digits(1) == "1" && Digits(16) == "16";
    assert Digits(3) == "3" && Digits(32) == "32";
    assert Digits(6) == "6" && Digits(64) == "64";
  }

  lemma PairReadsBack(b: nat)
    requires b < 256
    ensures HexNumber(HexPair(b)) == Some(b)
  {
    var h := HexPair(b);
    assert h[..1] == [h[0]] && [h[0]][..0] == "";
    assert HexNumber([h[0]]) == Some(b / 16);
  }

  // ----- random_uuid_v4 -------------------------------------------------------

  predicate Dashed(i: nat) {
    i == 4 || i == 6 || i == 8 || i == 10
  }

  function UuidText(bs: seq<nat>): string
    requires Bytes(bs)
  {
    if bs == [] then ""
    else UuidText(bs[..|bs| - 1]) + ((if Dashed(|bs| - 1) then "-" else "") + HexPair(bs[|bs| - 1]))
  }

  // Version 4 in byte 6 and variant 10 in byte 8 (section 4.4 of RFC 4122); masking and
  // setting bits is a remainder and a sum.
  function Versioned(device: seq<nat>): seq<nat>
    requires |device| == 16
  {
    device[6 := device[6] % 16 + 0x40][8 := device[8] % 64 + 0x80]
  }

  method RandomUuidV4(device: seq<nat>) returns (out: string)
    requires Bytes(device) && |device| == 16
    ensures out == UuidText(Versioned(device))
  {
    var bytes := device;
    bytes := bytes[6 := bytes[6] % 16 + 0x40];
    bytes := bytes[8 := bytes[8] % 64 + 0x80];
    out := "";
    for i := 0 to 16
      invariant out == UuidText(bytes[..i])
    {
      assert bytes[..i + 1][..i] == bytes[..i];
      ghost var before := out;
      if i == 4 || i == 6 || i == 8 || i == 10 {
        out := out + "-";
      }
      out := out + [HexDigit(bytes[i] / 16), HexDigit(bytes[i] % 16)];
      assert out == before + ((if Dashed(i) then "-" else "") + HexPair(bytes[i]));
    }
    assert bytes[..16] == Versioned(device);
  }

  // How long the text of so many bytes is.
  function Length(n: nat): nat {
    2 * n + (if n > 4 then 1 else 0) + (if n > 6 then 1 else 0) + (if n > 8 then 1 else 0) + (if n > 10 then 1 else 0)
  }

  lemma LayoutAt(i: nat)
    requires i < 16
    ensures
      var l, p := Layout(4), Length(i + 1);
      && 2 <= p <= |l| == 36
      && (Dashed(i) ==> p > 2 && l[p - 3] == '-')
      && l[p - 2] == (if i == 6 then '4' else if i == 8 then 'v' else 'x') && l[p - 1] == 'x'
  {
    LayoutMarks();
    if i != 6 && i != 8 {
      LayoutDigit(Length(i + 1) - 2);
    }
    LayoutDigit(Length(i + 1) - 1);
    hide Layout;
  }

  lemma LayoutMarks()
    ensures
      var l := Layout(4);
      |l| == 36 && l[8] == l[13] == l[18] == l[23] == '-' && l[14] == '4' && l[19] == 'v'
  {
  }

  lemma LayoutDigit(q: nat)
    requires q < 36 && q != 8 && q != 13 && q != 18 && q != 23 && q != 14 && q != 19
    ensures |Layout(4)| == 36 && Layout(4)[q] == 'x'
  {
  }

  predicate Marked(bs: seq<nat>) {
    Bytes(bs) && (|bs| > 6 ==> 0x40 <= bs[6] < 0x50) && (|bs| > 8 ==> 0x80 <= bs[8] < 0xC0)
  }

  lemma {:induction false} UuidTextFits(bs: seq<nat>)
    requires Marked(bs) && |bs| <= 16
    ensures |UuidText(bs)| == Length(|bs|) <= |Layout(4)| && FitsLayout(Layout(4)[..Length(|bs|)], UuidText(bs))
  {
    hide Layout;
    if bs == [] {
      LayoutAt(0);
    } else {
      var init, b := bs[..|bs| - 1], bs[|bs| - 1];
      UuidTextFits(init);
      LayoutAt(|bs| - 1);
      UuidStep(bs);
      PairIsHex(b);
      MarksFit(bs);
      hide HexDigit;
      hide HexChar;
      hide UuidText;
      var l, v := Layout(4)[..Length(|bs|)], UuidText(bs);
      forall q | 0 <= q < |v| ensures Fits(l[q], v[q]) {
        if q < |UuidText(init)| {
          assert l[q] == Layout(4)[..Length(|init|)][q] && v[q] == UuidText(init)[q];
        }
      }
    }
  }

  lemma UuidStep(bs: seq<nat>)
    requires Bytes(bs) && bs != []
    ensures UuidText(bs) == UuidText(bs[..|bs| - 1]) + ((if Dashed(|bs| - 1) then "-" else "") + HexPair(bs[|bs| - 1]))
  {
  }

  // The digits that say version and variant.
  lemma MarksFit(bs: seq<nat>)
    requires Marked(bs) && bs != []
    ensures |bs| == 7 ==> HexPair(bs[6])[0] == '4'
    ensures |bs| == 9 ==> Fits('v', HexPair(bs[8])[0])
  {
  }

  // The text of sixteen bytes is a UUID of version 4, whatever the device gave.
  lemma UuidFits(device: seq<nat>)
    requires Bytes(device) && |device| == 16
    ensures IsValue(4, UuidText(Versioned(device)))
  {
    var bs := Versioned(device);
    UuidTextFits(bs);
    LayoutAt(15);
    assert Layout(4)[..36] == Layout(4);
    FittingIsValue(UuidText(bs));
  }

  lemma FittingIsValue(v: string)
    requires FitsLayout(Layout(4), v)
    ensures IsValue(4, v)
  {
  }
}
