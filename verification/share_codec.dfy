/**
 * The shareable-link codec of the generator screen. Encoding takes the
 * standard Base64 text of the serialized bank (section 4 of RFC 4648),
 * rewrites it into the URL- and filename-safe alphabet (section 5) and drops
 * the `=` padding (section 3.2). Decoding maps the two symbols back,
 * restores the padding and runs the browser's forgiving Base64 decoder.
 * The serialized bank is an opaque sequence of bytes here.
 */
module ShareCodec {
  import opened Options
  import QuizTypes
  import QuizSession

  type Byte = b: int | 0 <= b < 256

  /** A six-bit group, the value one Base64 symbol carries. */
  type Sextet = v: int | 0 <= v < 64

  const Pad: char := '='

  // ---------------------------------------------------------------------
  // The standard alphabet
  // ---------------------------------------------------------------------

  /** The symbol of the standard alphabet carrying `v`. */
  function Symbol(v: Sextet): (c: char)
    ensures c != Pad && c != '-' && c != '_'
  {
    if v < 26 then (('A' as int) + v) as char
    else if v < 52 then (('a' as int) + (v - 26)) as char
    else if v < 62 then (('0' as int) + (v - 52)) as char
    else if v == 62 then '+'
    else '/'
  }

  /** The value a character carries, if it belongs to the standard alphabet. */
  function SymbolValue(c: char): (r: Option<Sextet>)
    ensures r.Some? ==> Symbol(r.value) == c
  {
    if 'A' <= c <= 'Z' then Some(c as int - 'A' as int)
    else if 'a' <= c <= 'z' then Some(c as int - 'a' as int + 26)
    else if '0' <= c <= '9' then Some(c as int - '0' as int + 52)
    else if c == '+' then Some(62)
    else if c == '/' then Some(63)
    else None
  }

  /** Every symbol reads back as the value it was written for. */
  lemma SymbolValueOfSymbol(v: Sextet)
    ensures SymbolValue(Symbol(v)) == Some(v)
  {
  }

  predicate IsSymbol(c: char) { SymbolValue(c).Some? }

  function Symbols(vs: seq<Sextet>): (s: string)
    ensures |s| == |vs|
    ensures forall i :: 0 <= i < |vs| ==> s[i] == Symbol(vs[i])
  {
    seq(|vs|, i requires 0 <= i < |vs| => Symbol(vs[i]))
  }

  // ---------------------------------------------------------------------
  // Bytes to sextets and back
  // ---------------------------------------------------------------------

  /** Splits bytes into sextets, three bytes to four sextets; a short tail
      yields two or three sextets with the unused low bits zero. */
  function EncodeSextets(bytes: seq<Byte>): (vs: seq<Sextet>)
    ensures |vs| % 4 != 1
    ensures |bytes| > 0 ==> |vs| >= 2
    decreases |bytes|
  {
    if |bytes| == 0 then []
    else if |bytes| == 1 then
      [bytes[0] / 4, (bytes[0] % 4) * 16]
    else if |bytes| == 2 then
      [bytes[0] / 4, (bytes[0] % 4) * 16 + bytes[1] / 16, (bytes[1] % 16) * 4]
    else
      [bytes[0] / 4, (bytes[0] % 4) * 16 + bytes[1] / 16,
       (bytes[1] % 16) * 4 + bytes[2] / 64, bytes[2] % 64]
      + EncodeSextets(bytes[3..])
  }

  /** The first byte a group carries, from its first two sextets. */
  function Byte0(v0: Sextet, v1: Sextet): Byte { v0 * 4 + v1 / 16 }

  /** The second byte a group carries, from its second and third sextets. */
  function Byte1(v1: Sextet, v2: Sextet): Byte { (v1 % 16) * 16 + v2 / 4 }

  /** The third byte a group carries, from its last two sextets. */
  function Byte2(v2: Sextet, v3: Sextet): Byte { (v2 % 4) * 64 + v3 }

  /** Joins sextets back into bytes, four sextets to three bytes; a tail of
      two or three sextets yields one or two bytes and its leftover bits are
      discarded, as the forgiving decoder does. */
  function DecodeSextets(vs: seq<Sextet>): (bytes: seq<Byte>)
    requires |vs| % 4 != 1
    ensures 4 * |bytes| <= 3 * |vs| < 4 * |bytes| + 4
    ensures |vs| >= 2 ==> bytes[0] == Byte0(vs[0], vs[1])
    decreases |vs|
  {
    if |vs| == 0 then []
    else if |vs| == 2 then
      [Byte0(vs[0], vs[1])]
    else if |vs| == 3 then
      [Byte0(vs[0], vs[1]), Byte1(vs[1], vs[2])]
    else
      [Byte0(vs[0], vs[1]), Byte1(vs[1], vs[2]), Byte2(vs[2], vs[3])]
      + DecodeSextets(vs[4..])
  }

  /** The sextets a group of bytes is split into join back to the bytes. */
  lemma GroupRoundTrip(b0: Byte, b1: Byte, b2: Byte)
    ensures Byte0(b0 / 4, (b0 % 4) * 16 + b1 / 16) == b0
    ensures Byte1((b0 % 4) * 16 + b1 / 16, (b1 % 16) * 4 + b2 / 64) == b1
    ensures Byte2((b1 % 16) * 4 + b2 / 64, b2 % 64) == b2
  {
    var v1 := (b0 % 4) * 16 + b1 / 16;
    var v2 := (b1 % 16) * 4 + b2 / 64;
    assert v1 / 16 == b0 % 4 && v1 % 16 == b1 / 16;
    assert v2 / 4 == b1 % 16 && v2 % 4 == b2 / 64;
  }

  /** Joining the sextets of any byte sequence gives the bytes back. */
  lemma {:induction false} DecodeEncodeSextets(bytes: seq<Byte>)
    ensures |EncodeSextets(bytes)| % 4 != 1
    ensures DecodeSextets(EncodeSextets(bytes)) == bytes
    decreases |bytes|
  {
    var vs := EncodeSextets(bytes);
    if |bytes| == 1 {
      GroupRoundTrip(bytes[0], 0, 0);
    } else if |bytes| == 2 {
      GroupRoundTrip(bytes[0], bytes[1], 0);
    } else if |bytes| >= 3 {
      GroupRoundTrip(bytes[0], bytes[1], bytes[2]);
      DecodeEncodeSextets(bytes[3..]);
      assert vs[4..] == EncodeSextets(bytes[3..]);
      assert bytes == bytes[..3] + bytes[3..];
    }
  }

  // ---------------------------------------------------------------------
  // Standard Base64 text: btoa and atob
  // ---------------------------------------------------------------------

  /** The `=` padding that completes the last group of four symbols. */
  function Padding(k: nat): (s: string)
    ensures |s| == k && forall i :: 0 <= i < k ==> s[i] == Pad
  {
    if k == 0 then "" else [Pad] + Padding(k - 1)
  }

  /** `btoa`: standard Base64 with padding. */
  function Btoa(bytes: seq<Byte>): (s: string)
    ensures |s| % 4 == 0
  {
    var vs := EncodeSextets(bytes);
    Symbols(vs) + Padding((4 - |vs| % 4) % 4)
  }

  /** Removes one or two trailing `=` from a text whose length is a
      multiple of four, as the forgiving decoder does first. */
  function StripPadding(s: string): (t: string)
    ensures |t| <= |s|
  {
    if |s| % 4 != 0 then s
    else if |s| >= 2 && s[|s| - 1] == Pad && s[|s| - 2] == Pad then s[..|s| - 2]
    else if |s| >= 1 && s[|s| - 1] == Pad then s[..|s| - 1]
    else s
  }

  /** The values of a text made only of alphabet symbols. */
  function Values(s: string): (vs: seq<Sextet>)
    requires forall i :: 0 <= i < |s| ==> IsSymbol(s[i])
    ensures |vs| == |s|
    ensures forall i :: 0 <= i < |s| ==> Symbol(vs[i]) == s[i]
  {
    seq(|s|, i requires 0 <= i < |s| && IsSymbol(s[i]) => SymbolValue(s[i]).value)
  }

  /**
   * `atob`, the forgiving Base64 decoder: strips the padding, refuses a
   * length that leaves a single symbol in the last group and any character
   * outside the alphabet.
   */
  function Atob(s: string): (r: Option<seq<Byte>>)
    ensures r.Some? ==> |StripPadding(s)| % 4 != 1
    ensures r.Some? ==> forall i :: 0 <= i < |StripPadding(s)| ==> IsSymbol(StripPadding(s)[i])
  {
    var t := StripPadding(s);
    if |t| % 4 == 1 then None
    else if exists i :: 0 <= i < |t| && !IsSymbol(t[i]) then None
    else Some(DecodeSextets(Values(t)))
  }

  /** Reading symbols back gives the values they were written from. */
  lemma ValuesOfSymbols(vs: seq<Sextet>)
    ensures forall i :: 0 <= i < |vs| ==> IsSymbol(Symbols(vs)[i])
    ensures Values(Symbols(vs)) == vs
  {
    forall i | 0 <= i < |vs|
      ensures SymbolValue(Symbols(vs)[i]) == Some(vs[i])
    {
      SymbolValueOfSymbol(vs[i]);
    }
  }

  /** `atob` undoes `btoa`. */
  lemma AtobBtoa(bytes: seq<Byte>)
    ensures Atob(Btoa(bytes)) == Some(bytes)
  {
    var vs := EncodeSextets(bytes);
    DecodeEncodeSextets(bytes);
    BtoaUnpadded(bytes);
    var t := StripPadding(Btoa(bytes));
    ValuesOfSymbols(vs);
    assert !exists i :: 0 <= i < |t| && !IsSymbol(t[i]);
  }

  /** Stripping the padding of `btoa`'s output leaves exactly its symbols. */
  lemma BtoaUnpadded(bytes: seq<Byte>)
    ensures StripPadding(Btoa(bytes)) == Symbols(EncodeSextets(bytes))
  {
    var vs := EncodeSextets(bytes);
    var k := (4 - |vs| % 4) % 4;
    assert k <= 2 && (k > 0 ==> |vs| % 4 >= 2);
    assert Btoa(bytes) == Symbols(vs) + Padding(k);
    StripsExactly(Symbols(vs), k);
  }

  /** Stripping removes exactly the padding `btoa` appended. */
  lemma StripsExactly(body: string, k: nat)
    requires k <= 2 && (|body| + k) % 4 == 0
    requires k > 0 ==> |body| % 4 >= 2
    requires forall i :: 0 <= i < |body| ==> body[i] != Pad
    ensures StripPadding(body + Padding(k)) == body
  {
    var s := body + Padding(k);
    if k == 2 {
      assert s[..|s| - 2] == body;
    } else if k == 1 {
      assert s[|s| - 2] == body[|body| - 1];
      assert s[..|s| - 1] == body;
    } else {
      assert s == body;
    }
  }

  // ---------------------------------------------------------------------
  // The URL-safe form used in links
  // ---------------------------------------------------------------------

  /** `+` becomes `-`, `/` becomes `_`, and every `=` is dropped. */
  function ToUrlSafe(s: string): (u: string)
    ensures |u| <= |s|
    ensures forall i :: 0 <= i < |u| ==> u[i] != '+' && u[i] != '/' && u[i] != Pad
  {
    if |s| == 0 then ""
    else
      var c := s[0];
      (if c == '+' then "-" else if c == '/' then "_" else if c == Pad then "" else [c])
      + ToUrlSafe(s[1..])
  }

  /** `-` becomes `+` and `_` becomes `/`; every other character stays. */
  function FromUrlSafeChar(c: char): char {
    if c == '-' then '+' else if c == '_' then '/' else c
  }

  /** The number of `=` that completes the last group of four. */
  function PadCount(n: nat): (k: nat)
    ensures k < 4 && (n + k) % 4 == 0
  {
    (4 - n % 4) % 4
  }

  /** The restoration a link payload undergoes before `atob`. */
  function FromUrlSafe(u: string): (s: string)
    ensures |s| % 4 == 0
    ensures |s| == |u| + PadCount(|u|)
  {
    seq(|u|, i requires 0 <= i < |u| => FromUrlSafeChar(u[i])) + Padding(PadCount(|u|))
  }

  /**
   * The payload written into a link for the serialized bank: one URL-safe
   * symbol per sextet, with no `+`, `/` or `=` left.
   */
  function ShareEncode(bytes: seq<Byte>): (u: string)
    ensures forall i :: 0 <= i < |u| ==> u[i] != '+' && u[i] != '/' && u[i] != Pad
    ensures |u| == |EncodeSextets(bytes)|
    ensures forall i :: 0 <= i < |u| ==> FromUrlSafeChar(u[i]) == Symbol(EncodeSextets(bytes)[i])
  {
    var vs := EncodeSextets(bytes);
    UrlSafeDropsPadding(Symbols(vs), (4 - |vs| % 4) % 4);
    UrlSafeOfSymbols(vs);
    ToUrlSafe(Btoa(bytes))
  }

  /**
   * The bytes a link payload decodes to, if it decodes: a payload one
   * symbol past a whole group never does, and otherwise three bytes come
   * from every four symbols left once the padding is stripped.
   */
  function ShareDecode(u: string): (r: Option<seq<Byte>>)
    ensures |u| % 4 == 1 ==> r.None?
    ensures r.Some? ==> 4 * |r.value| <= 3 * |StripPadding(FromUrlSafe(u))| < 4 * |r.value| + 4
  {
    var s := FromUrlSafe(u);
    if |u| % 4 == 1 then
      var t := StripPadding(s);
      assert t[|t| - 1] == Pad && !IsSymbol(Pad);
      Atob(s)
    else Atob(s)
  }

  /** On symbols without padding, the URL-safe rewrite is a per-symbol map. */
  lemma {:induction false} UrlSafeOfSymbols(vs: seq<Sextet>)
    ensures |ToUrlSafe(Symbols(vs))| == |vs|
    ensures forall i :: 0 <= i < |vs| ==> FromUrlSafeChar(ToUrlSafe(Symbols(vs))[i]) == Symbol(vs[i])
  {
    if |vs| > 0 {
      UrlSafeOfSymbols(vs[1..]);
      assert Symbols(vs)[1..] == Symbols(vs[1..]);
    }
  }

  /** Dropping `=` from `btoa`'s output removes exactly its padding. */
  lemma {:induction false} UrlSafeDropsPadding(s: string, k: nat)
    requires forall i :: 0 <= i < |s| ==> s[i] != Pad
    ensures ToUrlSafe(s + Padding(k)) == ToUrlSafe(s)
    decreases |s| + k
  {
    if |s| > 0 {
      assert (s + Padding(k))[1..] == s[1..] + Padding(k);
      UrlSafeDropsPadding(s[1..], k);
    } else if k > 0 {
      assert (s + Padding(k))[1..] == s + Padding(k - 1);
      UrlSafeDropsPadding(s, k - 1);
    } else {
      assert s + Padding(k) == s;
    }
  }

  /**
   * The padding restored when a link is opened is exactly the padding
   * dropped when it was made.
   */
  lemma RestoredPaddingMatches(bytes: seq<Byte>)
    ensures |ShareEncode(bytes)| + PadCount(|ShareEncode(bytes)|) == |Btoa(bytes)|
    ensures forall i :: 0 <= i < |ShareEncode(bytes)| ==> IsSymbol(FromUrlSafe(ShareEncode(bytes))[i])
  {
    var vs := EncodeSextets(bytes);
    UrlSafeDropsPadding(Symbols(vs), (4 - |vs| % 4) % 4);
    UrlSafeOfSymbols(vs);
    ValuesOfSymbols(vs);
  }

  /** Opening a link made from some bytes yields those bytes. */
  lemma ShareRoundTrip(bytes: seq<Byte>)
    ensures ShareDecode(ShareEncode(bytes)) == Some(bytes)
  {
    var vs := EncodeSextets(bytes);
    var u, b := ShareEncode(bytes), Btoa(bytes);
    assert b == Symbols(vs) + Padding(PadCount(|vs|));
    var s := FromUrlSafe(u);
    assert forall i :: 0 <= i < |s| ==> s[i] == b[i];
    assert s == b;
    AtobBtoa(bytes);
  }

  // ---------------------------------------------------------------------
  // Opening a shared link
  // ---------------------------------------------------------------------

  const Marker: string := "#quiz="

  /** The text after the first `#quiz=` of the fragment, when there is any:
      the capture of the pattern `#quiz=(.+)`. */
  function LinkPayload(hash: string): (r: Option<string>)
    ensures r.Some? ==> |r.value| > 0
    decreases |hash|
  {
    if |hash| < |Marker| then None
    else if hash[..|Marker|] == Marker then
      (if |hash| > |Marker| then Some(hash[|Marker|..]) else None)
    else LinkPayload(hash[1..])
  }

  /** A fragment made of the marker and a payload yields that payload. */
  lemma LinkPayloadOfLink(payload: string)
    requires |payload| > 0
    ensures LinkPayload(Marker + payload) == Some(payload)
  {
    assert (Marker + payload)[..|Marker|] == Marker;
    assert (Marker + payload)[|Marker|..] == payload;
  }

  /** What parsing the decoded text as JSON produced. */
  datatype Parsed = NotJson | NotAnArray | QuestionArray(questions: seq<QuizTypes.Question>)

  /** The distinct ways opening a shared link can fail. */
  datatype LinkError =
    | BadLinkFormat
    | BadEncoding
    | BadJson
    | NoQuestions
    | Rejected(reason: QuizSession.ValidationError)

  /**
   * Opening a `#quiz=` link: extract the payload, decode it, parse it
   * (`parse` stands for `JSON.parse` applied to the decoded text), refuse
   * anything but a non-empty array, then generate the quiz.
   */
  function OpenLink(hash: string, parse: seq<Byte> -> Parsed, randomMode: bool, picks: seq<nat>)
    : (r: Result<QuizSession.Session, LinkError>)
    ensures LinkPayload(hash).None? ==> r == Err(BadLinkFormat)
    ensures r.Ok? ==>
      && LinkPayload(hash).Some?
      && ShareDecode(LinkPayload(hash).value).Some?
      && var p := parse(ShareDecode(LinkPayload(hash).value).value);
      && p.QuestionArray?
      && |p.questions| > 0
      && QuizSession.Valid(r.value)
      && multiset(r.value.questions) == multiset(p.questions)
  {
    match LinkPayload(hash)
    case None => Err(BadLinkFormat)
    case Some(payload) =>
      match ShareDecode(payload)
      case None => Err(BadEncoding)
      case Some(bytes) =>
        match parse(bytes)
        case NotJson => Err(BadJson)
        case NotAnArray => Err(NoQuestions)
        case QuestionArray(qs) =>
          if |qs| == 0 then Err(NoQuestions)
          else
            match QuizSession.Generate(qs, randomMode, picks)
            case Err(e) => Err(Rejected(e))
            case Ok(s) => Ok(s)
  }

  /**
   * A link made from a serialized bank opens to a session over that bank,
   * provided the serialization parses back to it and the bank is valid.
   */
  lemma OpenSharedLink(bank: seq<QuizTypes.Question>, text: seq<Byte>, parse: seq<Byte> -> Parsed)
    requires |text| > 0 && parse(text) == QuestionArray(bank)
    requires QuizSession.Validate(bank).None?
    ensures OpenLink(Marker + ShareEncode(text), parse, false, []).Ok?
    ensures OpenLink(Marker + ShareEncode(text), parse, false, []).value.questions == bank
  {
    ShareRoundTrip(text);
    var vs := EncodeSextets(text);
    UrlSafeDropsPadding(Symbols(vs), (4 - |vs| % 4) % 4);
    UrlSafeOfSymbols(vs);
    LinkPayloadOfLink(ShareEncode(text));
  }
}
