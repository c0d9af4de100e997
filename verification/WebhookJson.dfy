/** The webhook envelope: src/webhook_json.cpp, read back by the repository's own
    tokenizer. */
module WebhookJson {
  import opened Text
  import opened JsonScan
  import JsonEntries
  import opened JsonTree

  // std::to_string of a 64-bit integer.
  function IntText(n: int): string {
    if n < 0 then "-" + Digits(-n) else Digits(n)
  }

  // The text of n in decimal digits, with a minus sign if n is negative.
  predicate IsDecimal(s: string, n: int) {
    s != "" && if s[0] == '-' then OnlyDigits(s[1..]) && DigitsValue(s[1..]) == -n && n < 0 else OnlyDigits(s) && DigitsValue(s) == n
  }

  predicate OnlyDigits(s: string) {
    s != "" && forall k :: 0 <= k < |s| ==> IsDigit(s[k])
  }

  lemma IntTextIsDecimal(n: int)
    ensures IsDecimal(IntText(n), n)
  {
    var d := Digits(if n < 0 then -n else n);
    DigitsRoundTrip(if n < 0 then -n else n);
    assert IsDigit(d[0]);
    assert ("-" + d)[1..] == d;
    hide Digits;
    hide DigitsValue;
  }

  function BoolText(b: bool): string {
    if b then "true" else "false"
  }

  method BuildWebhookJson(topic: string, payload: string, retained: bool, epochSeconds: int) returns (out: string)
    ensures out == Print(Envelope(topic, payload, retained, epochSeconds))
  {
    hide Print;
    var t := JsonEscape(topic);
    var p := JsonEscape(payload);
    ghost var r, e := BoolText(retained), IntText(epochSeconds);
    out := "{\"topic\":\"";
    ghost var s0 := out;
    out := out + t;
    ghost var s1 := out;
    out := out + "\",\"payload\":\"";
    ghost var s2 := out;
    out := out + p;
    ghost var s3 := out;
    out := out + "\",\"retain\":";
    ghost var s4 := out;
    out := out + (if retained then "true" else "false");
    ghost var s5 := out;
    out := out + ",\"timestamp\":";
    ghost var s6 := out;
    out := out + IntText(epochSeconds);
    out := out + "}";
    // Grouping the pieces from the right, as the document does.
    Regroup(s6, e, "}");
    Regroup(s5, ",\"timestamp\":", e + "}");
    Regroup(s4, r, ",\"timestamp\":" + (e + "}"));
    Regroup(s3, "\",\"retain\":", r + (",\"timestamp\":" + (e + "}")));
    Regroup(s2, p, "\",\"retain\":" + (r + (",\"timestamp\":" + (e + "}"))));
    Regroup(s1, "\",\"payload\":\"", p + ("\",\"retain\":" + (r + (",\"timestamp\":" + (e + "}")))));
    Regroup(s0, t, "\",\"payload\":\"" + (p + ("\",\"retain\":" + (r + (",\"timestamp\":" + (e + "}"))))));
    EnvelopeText(t, p, r, e);
  }

  lemma Regroup(a: string, b: string, c: string)
    ensures (a + b) + c == a + (b + c)
  {
  }

  function Field(key: string, v: Json, rest: Members): Members {
    Members.Member("", key, "", "", v, "", rest)
  }

  function EnvelopeOf(t: string, p: string, r: string, e: string): Json {
    Obj("", Field("topic", Str(t), Field("payload", Str(p), Field("retain", Scalar(r),
            Field("timestamp", Scalar(e), NoMember)))))
  }

  // The envelope as a document.
  function Envelope(topic: string, payload: string, retained: bool, epochSeconds: int): Json {
    EnvelopeOf(Escape(topic), Escape(payload), BoolText(retained), IntText(epochSeconds))
  }

  predicate PlainKey(k: string) {
    forall i :: 0 <= i < |k| ==> k[i] != '\\' && k[i] != '\"'
  }

  // A key without quotes and backslashes stands for itself.
  lemma {:induction false} PlainKeyStands(k: string)
    requires PlainKey(k)
    ensures Unescape(k) == k && StringBody(k)
  {
    if k != "" {
      PlainKeyStands(k[1..]);
    }
  }

  function KeyText(key: string): string {
    "\"" + key + "\":"
  }

  lemma PrintField(key: string, v: Json, rest: Members)
    ensures PrintMember(Field(key, v, rest)) == KeyText(key) + Print(v)
  {
    hide Print;
    var x := Print(v);
    assert "" + ("\"" + ((key + "\"") + ("" + (":" + ("" + (x + "")))))) == "\"" + key + "\":" + x;
  }

  lemma FieldStep(key: string, v: Json, rest: Members, tail: string)
    ensures PrintMembers(Field(key, v, rest)) + tail ==
            KeyText(key) + (Print(v) + (JsonEntries.Comma(rest.Member?) + (PrintMembers(rest) + tail)))
  {
    PrintField(key, v, rest);
    assert PrintMembers(Field(key, v, rest)) ==
           PrintMember(Field(key, v, rest)) + (JsonEntries.Comma(rest.Member?) + PrintMembers(rest)) by {
      hide PrintMember;
      hide JsonEntries.Comma;
    }
    hide *;
    var k, x, c, r := KeyText(key), Print(v), JsonEntries.Comma(rest.Member?), PrintMembers(rest);
    assert ((k + x) + (c + r)) + tail == k + (x + (c + (r + tail)));
  }

  lemma FieldIsRead(key: string, v: Json, rest: Members)
    requires PlainKey(key)
    ensures PairsOf(Field(key, v, rest)) == [Pair(key, Print(v))] + PairsOf(rest)
    ensures WellFormed(v) && WellFormedMembers(rest) ==> WellFormedMembers(Field(key, v, rest))
  {
    hide Print;
    hide Unescape;
    hide StringBody;
    PlainKeyStands(key);
  }

  lemma EnvelopeText(t: string, p: string, r: string, e: string)
    ensures Print(EnvelopeOf(t, p, r, e)) ==
      "{\"topic\":\"" + (t + ("\",\"payload\":\"" + (p + ("\",\"retain\":" + (r + (",\"timestamp\":" + (e + "}")))))))
  {
    hide KeyText;
    hide PrintMembers;
    hide PrintMember;
    var m4 := Field("timestamp", Scalar(e), NoMember);
    var m3 := Field("retain", Scalar(r), m4);
    var m2 := Field("payload", Str(p), m3);
    var m1 := Field("topic", Str(t), m2);
    assert Print(EnvelopeOf(t, p, r, e)) == "{" + ("" + (PrintMembers(m1) + "}"));
    assert PrintMembers(NoMember) == "" by {
      PrintNothing();
    }
    assert Print(Str(t)) == "\"" + (t + "\"") && Print(Str(p)) == "\"" + (p + "\"");
    assert Print(Scalar(r)) == r && Print(Scalar(e)) == e;
    assert m1.Member? && m2.Member? && m3.Member? && m4.Member?;
    assert JsonEntries.Comma(true) == "," && JsonEntries.Comma(false) == "";
    FieldStep("timestamp", Scalar(e), NoMember, "}");
    FieldStep("retain", Scalar(r), m4, "}");
    FieldStep("payload", Str(p), m3, "}");
    FieldStep("topic", Str(t), m2, "}");
    hide *;
    EmptyLeft("}");
    EmptyLeft(PrintMembers(m1) + "}");
    Literals();
    Shape("{", "\"", ",", "}", "", KeyText("topic"), KeyText("payload"), KeyText("retain"), KeyText("timestamp"), t, p, r, e);
  }

  lemma PrintNothing()
    ensures PrintMembers(NoMember) == ""
  {
  }

  lemma EmptyLeft(a: string)
    ensures "" + a == a
  {
  }

  lemma Literals()
    ensures ("{" + KeyText("topic")) + "\"" == "{\"topic\":\""
    ensures "\"" + ("," + (KeyText("payload") + "\"")) == "\",\"payload\":\""
    ensures "\"" + ("," + KeyText("retain")) == "\",\"retain\":"
    ensures "," + KeyText("timestamp") == ",\"timestamp\":"
  {
  }

  // The pieces of the envelope, grouped as the document prints them and as the
  // source writes them.
  lemma Shape(ob: string, q: string, c: string, cb: string, none: string, k1: string, k2: string, k3: string, k4: string,
              t: string, p: string, r: string, e: string)
    requires none == ""
    ensures
      ob + (k1 + ((q + (t + q)) + (c + (k2 + ((q + (p + q)) + (c + (k3 + (r + (c + (k4 + (e + (none + cb)))))))))))) ==
      ((ob + k1) + q) + (t + ((q + (c + (k2 + q))) + (p + ((q + (c + k3)) + (r + ((c + k4) + (e + cb)))))))
  {
    var x := r + ((c + k4) + (e + cb));
    assert c + (k4 + (e + cb)) == (c + k4) + (e + cb);
    assert (q + (p + q)) + (c + (k3 + x)) == q + (p + ((q + (c + k3)) + x));
    var y := p + ((q + (c + k3)) + x);
    assert (q + (t + q)) + (c + (k2 + (q + y))) == q + (t + ((q + (c + (k2 + q))) + y));
    var z := t + ((q + (c + (k2 + q))) + y);
    assert ob + (k1 + (q + z)) == ((ob + k1) + q) + z;
    EmptyLeft(cb);
  }

  // ----- read back ------------------------------------------------------------

  lemma IntTextIsScalar(n: int)
    ensures ScalarText(IntText(n))
  {
    var t := IntText(n);
    forall k | 0 <= k < |t| ensures Plain(t[k]) && !EndsScalar(t[k]) {
      assert IsDigit(t[k]) || t[k] == '-';
    }
  }

  lemma EnvelopeFields(t: string, p: string, r: string, e: string)
    requires StringBody(t) && StringBody(p) && ScalarText(r) && ScalarText(e)
    ensures EnvelopeOf(t, p, r, e).Obj? && WellFormed(EnvelopeOf(t, p, r, e))
    ensures PairsOf(EnvelopeOf(t, p, r, e).members) ==
            [Pair("topic", "\"" + (t + "\""))] + ([Pair("payload", "\"" + (p + "\""))] + ([Pair("retain", r)] +
            ([Pair("timestamp", e)] + [])))
  {
    hide StringBody;
    hide ScalarText;
    hide PairsOf;
    hide WellFormedMembers;
    var m4 := Field("timestamp", Scalar(e), NoMember);
    var m3 := Field("retain", Scalar(r), m4);
    var m2 := Field("payload", Str(p), m3);
    FieldIsRead("timestamp", Scalar(e), NoMember);
    FieldIsRead("retain", Scalar(r), m4);
    FieldIsRead("payload", Str(p), m3);
    FieldIsRead("topic", Str(t), m2);
    NothingRead();
  }

  lemma NothingRead()
    ensures PairsOf(NoMember) == [] && WellFormedMembers(NoMember)
  {
  }

  // For all bytes in topic and payload the tokenizer reads the four fields in order,
  // and what stands between the quotes unescapes to the topic and the payload.
  lemma EnvelopeReadsBack(topic: string, payload: string, retained: bool, epochSeconds: int)
    ensures Tokens(Print(Envelope(topic, payload, retained, epochSeconds))) == Some([
      Pair("topic", "\"" + (Escape(topic) + "\"")),
      Pair("payload", "\"" + (Escape(payload) + "\"")),
      Pair("retain", if retained then "true" else "false"),
      Pair("timestamp", IntText(epochSeconds))])
    ensures IsDecimal(IntText(epochSeconds), epochSeconds)
    ensures Unescape(Escape(topic)) == topic && Unescape(Escape(payload)) == payload
  {
    var t, p, r, e := Escape(topic), Escape(payload), BoolText(retained), IntText(epochSeconds);
    UnescapeEscape(topic);
    UnescapeEscape(payload);
    IntTextIsScalar(epochSeconds);
    BoolTextIsScalar(retained);
    assert r == if retained then "true" else "false";
    IntTextIsDecimal(epochSeconds);
    hide *;
    EnvelopeFields(t, p, r, e);
    EnvelopeIs(topic, payload, retained, epochSeconds);
    var v := EnvelopeOf(t, p, r, e);
    EmptyLeft(Print(v));
    WholeText(Print(v));
    TokensOfObject(v, Print(v), "");
    FourItems(Pair("topic", "\"" + (t + "\"")), Pair("payload", "\"" + (p + "\"")), Pair("retain", r), Pair("timestamp", e));
  }

  lemma FourItems<T>(a: T, b: T, c: T, d: T)
    ensures [a] + ([b] + ([c] + ([d] + []))) == [a, b, c, d]
  {
  }

  lemma BoolTextIsScalar(b: bool)
    ensures ScalarText(BoolText(b))
  {
  }

  lemma EnvelopeIs(topic: string, payload: string, retained: bool, epochSeconds: int)
    ensures Envelope(topic, payload, retained, epochSeconds) ==
            EnvelopeOf(Escape(topic), Escape(payload), BoolText(retained), IntText(epochSeconds))
  {
  }

  lemma WholeText(s: string)
    ensures At(s, 0, s) && AllSpace("")
  {
    assert s[..|s|] == s;
  }

  predicate NoControl(s: string) {
    forall k :: 0 <= k < |s| ==> s[k] as int >= 0x20
  }

  lemma NoControlConcat(a: string, b: string)
    requires NoControl(a) && NoControl(b)
    ensures NoControl(a + b)
  {
  }

  lemma PartsHaveNoControl(b: bool, n: int)
    ensures NoControl(BoolText(b)) && NoControl(IntText(n))
    ensures NoControl("{\"topic\":\"") && NoControl("\",\"payload\":\"") && NoControl("\",\"retain\":") &&
            NoControl(",\"timestamp\":") && NoControl("}")
  {
    var e := IntText(n);
    forall k | 0 <= k < |e| ensures e[k] as int >= 0x20 {
      assert IsDigit(e[k]) || e[k] == '-';
    }
  }

  // No raw control character appears in the envelope (section 7 of RFC 8259).
  lemma EnvelopeHasNoControl(topic: string, payload: string, retained: bool, epochSeconds: int)
    ensures NoControl(Print(Envelope(topic, payload, retained, epochSeconds)))
  {
    var t, p, r, e := Escape(topic), Escape(payload), BoolText(retained), IntText(epochSeconds);
    EscapeHasNoControl(topic);
    EscapeHasNoControl(payload);
    PartsHaveNoControl(retained, epochSeconds);
    EnvelopeIs(topic, payload, retained, epochSeconds);
    hide *;
    EnvelopeText(t, p, r, e);
    var u3 := r + (",\"timestamp\":" + (e + "}"));
    var u2 := p + ("\",\"retain\":" + u3);
    NoControlConcat(e, "}");
    NoControlConcat(",\"timestamp\":", e + "}");
    NoControlConcat(r, ",\"timestamp\":" + (e + "}"));
    NoControlConcat("\",\"retain\":", u3);
    NoControlConcat(p, "\",\"retain\":" + u3);
    NoControlConcat("\",\"payload\":\"", u2);
    NoControlConcat(t, "\",\"payload\":\"" + u2);
    NoControlConcat("{\"topic\":\"", t + ("\",\"payload\":\"" + u2));
  }
}
