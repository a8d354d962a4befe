/**
  The topic envelope the publish handler hands to the messaging client:
  the JSON object `{"default":"<body>"}` with the request body as its one
  string value. The body's bytes become one character each, and the
  string is escaped by backslash-quoting `"` and `\`. A parser for the
  envelope is the partner that shows the body is carried exactly.
 */
module TopicEnvelope {
  import opened Http

  /** The body's bytes read as a string, one character per byte. */
  function Latin1(b: seq<byte>): (s: string)
    ensures |s| == |b|
    ensures forall i :: 0 <= i < |b| ==> s[i] as int == b[i] as int
  {
    seq(|b|, i requires 0 <= i < |b| => (b[i] as int) as char)
  }

  /** The inverse of `Latin1`: fails on a character that is not a single byte. */
  function ToBytes(s: string): (r: Option<seq<byte>>)
    ensures r.Some? <==> forall i :: 0 <= i < |s| ==> s[i] as int < 256
    ensures r.Some? ==> Latin1(r.value) == s
    decreases |s|
  {
    if s == [] then Some([])
    else if s[0] as int >= 256 then None
    else
      match ToBytes(s[1..])
      case None => None
      case Some(rest) => Some([(s[0] as int) as byte] + rest)
  }

  /** The characters a JSON string literal must backslash-quote in this model. */
  predicate NeedsEscape(c: char)
  {
    c == '"' || c == '\\'
  }

  function EscapeChar(c: char): string
  {
    if NeedsEscape(c) then ['\\', c] else [c]
  }

  /** The body of a JSON string literal holding `s`. */
  function Escape(s: string): (e: string)
    ensures |e| >= |s|
    decreases |s|
  {
    if s == [] then [] else EscapeChar(s[0]) + Escape(s[1..])
  }

  /** Reads back the body of a JSON string literal; fails on a bare `"` or a dangling or unknown escape. */
  function Unescape(e: string): (r: Option<string>)
    decreases |e|
  {
    if e == [] then Some([])
    else if e[0] == '\\' then
      if |e| >= 2 && NeedsEscape(e[1]) then
        match Unescape(e[2..])
        case None => None
        case Some(rest) => Some([e[1]] + rest)
      else None
    else if e[0] == '"' then None
    else
      match Unescape(e[1..])
      case None => None
      case Some(rest) => Some([e[0]] + rest)
  }

  const Prefix: string := "{\"default\":\""
  const Suffix: string := "\"}"

  /** `json.Marshal(map[string]string{"default": string(body)})`. */
  function Envelope(body: seq<byte>): (m: string)
    ensures Prefix <= m
    ensures |m| >= |Prefix| + |Suffix| + |body|
    ensures m[|m| - |Suffix|..] == Suffix
  {
    Prefix + Escape(Latin1(body)) + Suffix
  }

  /** Reads the `"default"` value out of an envelope, as a subscriber would. */
  function ParseEnvelope(m: string): Option<seq<byte>>
  {
    if |m| >= |Prefix| + |Suffix| && m[..|Prefix|] == Prefix && m[|m| - |Suffix|..] == Suffix then
      match Unescape(m[|Prefix|..|m| - |Suffix|])
      case None => None
      case Some(s) => ToBytes(s)
    else
      None
  }

  /** Unescaping undoes escaping, for every string. */
  lemma {:induction false} EscapeRoundTrip(s: string)
    ensures Unescape(Escape(s)) == Some(s)
    decreases |s|
  {
    if s != [] {
      var c := s[0];
      var rest := Escape(s[1..]);
      EscapeRoundTrip(s[1..]);
      assert Escape(s) == EscapeChar(c) + rest;
      if NeedsEscape(c) {
        assert (['\\', c] + rest)[2..] == rest;
      } else {
        assert ([c] + rest)[1..] == rest;
      }
      assert s == [c] + s[1..];
    }
  }

  /** A string with no character to quote is carried as it is. */
  lemma {:induction false} EscapeKeepsPlain(s: string)
    requires forall i :: 0 <= i < |s| ==> !NeedsEscape(s[i])
    ensures Escape(s) == s
    decreases |s|
  {
    if s != [] {
      EscapeKeepsPlain(s[1..]);
      assert s == [s[0]] + s[1..];
    }
  }

  /** A subscriber reading the envelope gets back exactly the published body. */
  lemma EnvelopeRoundTrip(body: seq<byte>)
    ensures ParseEnvelope(Envelope(body)) == Some(body)
  {
    var e := Escape(Latin1(body));
    var m := Envelope(body);
    assert m[..|Prefix|] == Prefix;
    assert m[|Prefix|..|m| - |Suffix|] == e;
    EscapeRoundTrip(Latin1(body));
    var r := ToBytes(Latin1(body));
    assert r.Some?;
    assert r.value == body;
  }

  /** Whatever `Unescape` accepts is the escaping of what it returns. */
  lemma {:induction false} UnescapeExact(e: string)
    ensures Unescape(e).Some? ==> e == Escape(Unescape(e).value)
    decreases |e|
  {
    if e != [] && Unescape(e).Some? {
      var s := Unescape(e).value;
      if e[0] == '\\' {
        UnescapeExact(e[2..]);
        var rest := Unescape(e[2..]).value;
        assert s == [e[1]] + rest;
        assert s[1..] == rest;
        assert Escape(s) == ['\\', e[1]] + Escape(rest);
        assert e == e[..2] + e[2..];
      } else {
        UnescapeExact(e[1..]);
        var rest := Unescape(e[1..]).value;
        assert s == [e[0]] + rest;
        assert s[1..] == rest;
        assert Escape(s) == [e[0]] + Escape(rest);
        assert e == [e[0]] + e[1..];
      }
    }
  }

  /** A message that parses to a body is exactly that body's envelope. */
  lemma ParseEnvelopeExact(m: string, body: seq<byte>)
    ensures ParseEnvelope(m) == Some(body) ==> m == Envelope(body)
  {
    if ParseEnvelope(m) == Some(body) {
      var mid := m[|Prefix|..|m| - |Suffix|];
      UnescapeExact(mid);
      var s := Unescape(mid).value;
      assert ToBytes(s) == Some(body);
      assert Latin1(body) == s;
      assert m == m[..|Prefix|] + mid + m[|m| - |Suffix|..];
    }
  }

  /** Distinct bodies give distinct envelopes. */
  lemma EnvelopeInjective(a: seq<byte>, b: seq<byte>)
    ensures Envelope(a) == Envelope(b) ==> a == b
  {
    EnvelopeRoundTrip(a);
    EnvelopeRoundTrip(b);
  }
}
