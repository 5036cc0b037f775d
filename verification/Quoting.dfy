/** Text carried inside URNs (`mora/util.py`): percent-encoding over UTF-8, in
    a form that survives changes of case. */
module Quoting {
  import opened Prelude

  newtype Byte = x: int | 0 <= x < 256

  // ---------------------------------------------------------------- UTF-8

  /** The encoding of one Unicode scalar value (section 3 of RFC 3629). */
  function EncodeChar(c: char): (b: seq<Byte>)
    ensures 1 <= |b| <= 4
  {
    var n := c as int;
    if n < 0x80 then [n as Byte]
    else if n < 0x800 then [(0xC0 + n / 0x40) as Byte, Continuation(n)]
    else if n < 0x10000 then [(0xE0 + n / 0x1000) as Byte, Continuation(n / 0x40), Continuation(n)]
    else [(0xF0 + n / 0x40000) as Byte, Continuation(n / 0x1000), Continuation(n / 0x40), Continuation(n)]
  }

  function Continuation(n: nat): (b: Byte)
    ensures 0x80 <= b < 0xC0 && n % 0x40 == b as int - 0x80
  {
    (0x80 + n % 0x40) as Byte
  }

  function Encode(s: string): seq<Byte> {
    if s == "" then [] else EncodeChar(s[0]) + Encode(s[1..])
  }

  datatype Decoded = Decoded(c: char, size: nat)

  function Payload(b: seq<Byte>, i: nat): (r: Option<nat>)
    ensures r.Some? ==> i < |b| && 0x80 <= b[i] < 0xC0 && r.value == b[i] as int - 0x80
  {
    if i < |b| && 0x80 <= b[i] < 0xC0 then Some(b[i] as int - 0x80) else None
  }

  predicate IsScalar(n: int) { 0 <= n < 0xD800 || 0xE000 <= n < 0x110000 }

  /** The first character; nothing for bytes that are not UTF-8: stray or
      missing continuation bytes, overlong forms, surrogates and numbers
      beyond the last code point. */
  function DecodeChar(b: seq<Byte>): Option<Decoded>
    requires b != []
  {
    var lead := b[0] as int;
    var p, q, r := Payload(b, 1), Payload(b, 2), Payload(b, 3);
    if lead < 0x80 then Some(Decoded(lead as char, 1))
    else if 0xC0 <= lead < 0xE0 && p.Some? then
      Checked((lead - 0xC0) * 0x40 + p.value, 0x80, 2)
    else if 0xE0 <= lead < 0xF0 && p.Some? && q.Some? then
      Checked((lead - 0xE0) * 0x1000 + p.value * 0x40 + q.value, 0x800, 3)
    else if 0xF0 <= lead < 0xF8 && p.Some? && q.Some? && r.Some? then
      Checked((lead - 0xF0) * 0x40000 + p.value * 0x1000 + q.value * 0x40 + r.value, 0x10000, 4)
    else None
  }

  function Checked(n: nat, least: nat, size: nat): Option<Decoded> {
    if least <= n && IsScalar(n) then Some(Decoded(n as char, size)) else None
  }

  function Decode(b: seq<Byte>): Option<string> {
    if b == [] then Some("")
    else match DecodeChar(b)
         case None => None
         case Some(d) =>
           if d.size == 0 || |b| < d.size then None
           else match Decode(b[d.size..])
                case None => None
                case Some(rest) => Some([d.c] + rest)
  }

  /** Base-64 digits of a number. */
  lemma Digits(n: nat)
    ensures n == n / 0x40 * 0x40 + n % 0x40
    ensures n / 0x1000 == n / 0x40 / 0x40 && n / 0x40000 == n / 0x1000 / 0x40
    ensures n == n / 0x1000 * 0x1000 + n / 0x40 % 0x40 * 0x40 + n % 0x40
    ensures n == n / 0x40000 * 0x40000 + n / 0x1000 % 0x40 * 0x1000 + n / 0x40 % 0x40 * 0x40 + n % 0x40
  {
  }

  lemma FromDigits(a: nat, b: nat, c: nat, d: nat)
    requires b < 0x40 && c < 0x40 && d < 0x40
    ensures var n := a * 0x40000 + b * 0x1000 + c * 0x40 + d;
            n / 0x40000 == a && n / 0x1000 % 0x40 == b && n / 0x40 % 0x40 == c && n % 0x40 == d
            && n / 0x1000 == a * 0x40 + b && n / 0x40 == a * 0x1000 + b * 0x40 + c
  {
    var m := a * 0x40 + b;
    DivMod(m * 0x40 + c, d);
    DivMod(m, c);
    DivMod(a, b);
    Digits(m * 0x1000 + c * 0x40 + d);
  }

  lemma DivMod(q: nat, r: nat)
    requires r < 0x40
    ensures (q * 0x40 + r) / 0x40 == q && (q * 0x40 + r) % 0x40 == r
  {
  }

  /** The bytes' values, without the characters. */
  lemma DecodeCharIs(b: seq<Byte>, size: nat)
    requires 1 <= size <= 4 && size <= |b|
    requires forall i | 1 <= i < size :: 0x80 <= b[i] < 0xC0
    ensures size == 1 && b[0] < 0x80 ==> DecodeChar(b) == Some(Decoded(b[0] as int as char, 1))
    ensures size == 2 && 0xC0 <= b[0] < 0xE0
            ==> DecodeChar(b) == Checked((b[0] as int - 0xC0) * 0x40 + (b[1] as int - 0x80), 0x80, 2)
    ensures size == 3 && 0xE0 <= b[0] < 0xF0
            ==> DecodeChar(b) == Checked((b[0] as int - 0xE0) * 0x1000 + (b[1] as int - 0x80) * 0x40
                                         + (b[2] as int - 0x80), 0x800, 3)
    ensures size == 4 && 0xF0 <= b[0] < 0xF8
            ==> DecodeChar(b) == Checked((b[0] as int - 0xF0) * 0x40000 + (b[1] as int - 0x80) * 0x1000
                                         + (b[2] as int - 0x80) * 0x40 + (b[3] as int - 0x80), 0x10000, 4)
  {
  }

  lemma DecodeCharEncoded(c: char, rest: seq<Byte>)
    ensures DecodeChar(EncodeChar(c) + rest) == Some(Decoded(c, |EncodeChar(c)|))
  {
    var e, n := EncodeChar(c), c as int;
    var b := e + rest;
    Digits(n);
    assert forall i | 0 <= i < |e| :: b[i] == e[i];
    DecodeCharIs(b, |e|);
  }

  lemma EncodedDecodeChar(b: seq<Byte>)
    requires b != [] && DecodeChar(b).Some?
    ensures var d := DecodeChar(b).value; 1 <= d.size <= |b| && EncodeChar(d.c) == b[..d.size]
  {
    var d := DecodeChar(b).value;
    var e := EncodeChar(d.c);
    if d.size == 2 {
      FromDigits(0, 0, b[0] as int - 0xC0, b[1] as int - 0x80);
    } else if d.size == 3 {
      FromDigits(0, b[0] as int - 0xE0, b[1] as int - 0x80, b[2] as int - 0x80);
    } else if d.size == 4 {
      FromDigits(b[0] as int - 0xF0, b[1] as int - 0x80, b[2] as int - 0x80, b[3] as int - 0x80);
    }
  }

  /** Every text survives encoding, */
  lemma {:induction false} DecodeEncoded(s: string)
    ensures Decode(Encode(s)) == Some(s)
  {
    if s != "" {
      var e := EncodeChar(s[0]);
      DecodeCharEncoded(s[0], Encode(s[1..]));
      assert (e + Encode(s[1..]))[|e|..] == Encode(s[1..]);
      DecodeEncoded(s[1..]);
      assert [s[0]] + s[1..] == s;
    }
  }

  lemma EncodeCons(c: char, s: string)
    ensures Encode([c] + s) == EncodeChar(c) + Encode(s)
  {
    assert ([c] + s)[1..] == s;
  }

  /** and only encodings of a text are accepted. */
  lemma {:induction false} DecodesOnlyEncoded(b: seq<Byte>)
    requires Decode(b).Some?
    ensures Encode(Decode(b).value) == b
  {
    if b != [] {
      EncodedDecodeChar(b);
      var d := DecodeChar(b).value;
      DecodesOnlyEncoded(b[d.size..]);
      EncodeCons(d.c, Decode(b[d.size..]).value);
      assert b[..d.size] + b[d.size..] == b;
    }
  }

  // ------------------------------------------------------------- quoting

  predicate Safe(b: Byte) {
    'a' as int <= b as int <= 'z' as int || '0' as int <= b as int <= '9' as int || b as int == '+' as int
  }

  function HexDigit(n: nat): (c: char)
    requires n < 16
    ensures HexValue(c) == Some(n) && ('0' <= c <= '9' || 'a' <= c <= 'f')
  {
    if n < 10 then ('0' as int + n) as char else ('a' as int + n - 10) as char
  }

  /** Hexadecimal digits are read in either case. */
  function HexValue(c: char): (r: Option<nat>)
    ensures r.Some? ==> r.value < 16
  {
    if '0' <= c <= '9' then Some(c as int - '0' as int)
    else if 'a' <= c <= 'f' then Some(c as int - 'a' as int + 10)
    else if 'A' <= c <= 'F' then Some(c as int - 'A' as int + 10)
    else None
  }

  function QuoteByte(b: Byte): (q: string)
    ensures |q| > 0
  {
    if Safe(b) then [b as char] else ['%', HexDigit(b as int / 16), HexDigit(b as int % 16)]
  }

  function QuoteBytes(b: seq<Byte>): string {
    if b == [] then "" else QuoteByte(b[0]) + QuoteBytes(b[1..])
  }

  function Quoted(s: string): string { QuoteBytes(Encode(s)) }

  /** An in-memory text stream: writing replaces what stands at the position. */
  class TextStream {
    var content: string
    var position: nat

    constructor (initial: string)
      ensures content == initial && position == 0
    {
      content, position := initial, 0;
    }

    method Write(s: string)
      requires position <= |content|
      modifies this
      ensures position == old(position) + |s| <= |content|
      ensures content[..position] == old(content[..position]) + s
      ensures content[position..] == old(content)[Min(position, |old(content)|)..]
    {
      var end := Min(position + |s|, |content|);
      content := content[..position] + s + content[end..];
      position := position + |s|;
    }
  }

  lemma {:induction false} QuoteBytesMore(b: seq<Byte>, i: nat)
    requires i < |b|
    ensures QuoteBytes(b[..i + 1]) == QuoteBytes(b[..i]) + QuoteByte(b[i])
  {
    if i > 0 {
      QuoteBytesMore(b[1..], i - 1);
      assert b[1..][..i] == b[..i + 1][1..] && b[1..][..i - 1] == b[..i][1..];
    } else {
      assert b[..1][1..] == [] && b[..0] == [];
    }
  }

  /** The stream is created holding a letter; since something is written for
      every non-empty text, that letter never shows in the result. */
  method UrnQuote(s: string) returns (r: string)
    ensures r == Quoted(s)
  {
    if s == "" {
      return "";
    }
    var bytes := Encode(s);
    var buffer := new TextStream("w");
    for i := 0 to |bytes|
      invariant buffer.position <= |buffer.content|
      invariant buffer.content[..buffer.position] == QuoteBytes(bytes[..i])
      invariant i <= buffer.position
      invariant buffer.content[buffer.position..] == (if i == 0 then "w" else "")
    {
      QuoteBytesMore(bytes, i);
      buffer.Write(QuoteByte(bytes[i]));
    }
    assert bytes[..|bytes|] == bytes;
    assert buffer.content == buffer.content[..buffer.position] + buffer.content[buffer.position..];
    r := buffer.content;
  }

  // ----------------------------------------------------------- unquoting

  predicate IsAscii(c: char) { c as int < 0x80 }

  function AsciiRun(s: string): (n: nat)
    ensures n <= |s| && (forall i | 0 <= i < n :: IsAscii(s[i])) && (n < |s| ==> !IsAscii(s[n]))
  {
    if s == "" || !IsAscii(s[0]) then 0 else 1 + AsciiRun(s[1..])
  }

  /** A percent sign not followed by two hexadecimal digits stands for itself. */
  function UnquoteBytes(s: string): seq<Byte>
    requires forall i | 0 <= i < |s| :: IsAscii(s[i])
  {
    if s == "" then []
    else if s[0] == '%' && |s| >= 3 && HexValue(s[1]).Some? && HexValue(s[2]).Some? then
      [(HexValue(s[1]).value * 16 + HexValue(s[2]).value) as Byte] + UnquoteBytes(s[3..])
    else
      assert IsAscii(s[0]);
      [s[0] as int as Byte] + UnquoteBytes(s[1..])
  }

  /** Runs of ASCII characters are unquoted and decoded; other characters are
      kept. Nothing when a run does not decode. */
  function Unquoted(s: string): Option<string> {
    if s == "" then Some("")
    else
      var n := AsciiRun(s);
      if n == 0 then
        match Unquoted(s[1..])
        case None => None
        case Some(rest) => Some([s[0]] + rest)
      else
        match (Decode(UnquoteBytes(s[..n])), Unquoted(s[n..]))
        case (Some(run), Some(rest)) => Some(run + rest)
        case _ => None
  }

  function LowerChar(c: char): char {
    if 'A' <= c <= 'Z' then (c as int + 32) as char else c
  }

  function Lower(s: string): string { seq(|s|, i requires 0 <= i < |s| => LowerChar(s[i])) }

  /** What may appear in a quoted text. */
  predicate UrnChar(c: char) { 'a' <= c <= 'z' || '0' <= c <= '9' || c == '+' || c == '%' }

  lemma {:induction false} QuotedAlphabet(b: seq<Byte>)
    ensures forall i | 0 <= i < |QuoteBytes(b)| :: UrnChar(QuoteBytes(b)[i])
  {
    if b != [] {
      QuotedAlphabet(b[1..]);
      assert forall i | 0 <= i < |QuoteByte(b[0])| :: UrnChar(QuoteByte(b[0])[i]);
    }
  }

  lemma {:induction false} UnquoteQuotedBytes(b: seq<Byte>)
    ensures forall i | 0 <= i < |QuoteBytes(b)| :: IsAscii(QuoteBytes(b)[i])
    ensures UnquoteBytes(QuoteBytes(b)) == b
  {
    QuotedAlphabet(b);
    if b != [] {
      UnquoteQuotedBytes(b[1..]);
      var q := QuoteByte(b[0]);
      assert QuoteBytes(b)[..|q|] == q && QuoteBytes(b)[|q|..] == QuoteBytes(b[1..]);
      assert forall i | 0 <= i < |q| :: QuoteBytes(b)[i] == q[i];
      assert [b[0]] + b[1..] == b;
    }
  }

  /** Round trip, for every text. */
  lemma UnquoteQuoted(s: string)
    ensures Unquoted(Quoted(s)) == Some(s)
  {
    var q := Quoted(s);
    UnquoteQuotedBytes(Encode(s));
    DecodeEncoded(s);
    if q == "" {
      assert UnquoteBytes(q) == [];
    } else {
      assert AsciiRun(q) == |q| && q[..|q|] == q && q[|q|..] == "";
      assert Unquoted(q[|q|..]) == Some("");
      assert s + "" == s;
    }
  }

  lemma QuotedIsLower(s: string)
    ensures Lower(Quoted(s)) == Quoted(s)
  {
    QuotedAlphabet(Encode(s));
    assert forall i | 0 <= i < |Quoted(s)| :: LowerChar(Quoted(s)[i]) == Quoted(s)[i];
  }

  /** However case is changed on the way, lower-casing what arrives is enough
      to recover the text. */
  lemma CaseSafeRoundTrip(s: string, arrived: string)
    requires Lower(arrived) == Lower(Quoted(s))
    ensures Unquoted(Lower(arrived)) == Some(s)
  {
    QuotedIsLower(s);
    UnquoteQuoted(s);
  }

  /** Two texts never share a quoted form, even when case is disregarded. */
  lemma QuotedInjective(s: string, t: string)
    ensures Lower(Quoted(s)) == Lower(Quoted(t)) <==> s == t
  {
    if Lower(Quoted(s)) == Lower(Quoted(t)) {
      CaseSafeRoundTrip(s, Quoted(t));
      CaseSafeRoundTrip(t, Quoted(t));
    }
  }

  // ---- The forms themselves -----------------------------------------------------

  /** The byte sequences of section 4 of RFC 3629, by their number of bytes: which code
      points have them, their leading bits, and the bits they carry. */
  lemma EncodedForm(c: char)
    ensures var n, b := c as int, EncodeChar(c);
            && (forall i :: 1 <= i < |b| ==> 0x80 <= b[i] <= 0xBF)
            && (n <= 0x7F <==> |b| == 1) && (0x80 <= n <= 0x7FF <==> |b| == 2)
            && (0x800 <= n <= 0xFFFF <==> |b| == 3) && (0x10000 <= n <==> |b| == 4)
            && (|b| == 1 ==> n == b[0] as int)
            && (|b| == 2 ==> 0xC2 <= b[0] <= 0xDF && n == (b[0] as int - 0xC0) * 64 + (b[1] as int - 0x80))
            && (|b| == 3 ==> 0xE0 <= b[0] <= 0xEF
                             && n == (b[0] as int - 0xE0) * 4096 + (b[1] as int - 0x80) * 64 + (b[2] as int - 0x80))
            && (|b| == 4 ==> 0xF0 <= b[0] <= 0xF4
                             && n == (b[0] as int - 0xF0) * 262144 + (b[1] as int - 0x80) * 4096
                                     + (b[2] as int - 0x80) * 64 + (b[3] as int - 0x80))
  {
    Digits(c as int);
  }

  const URN_SAFE := "abcdefghijklmnopqrstuvwxyz0123456789+"

  lemma SafeIs(b: Byte)
    requires b < 0x80
    ensures Safe(b) <==> (b as int as char) in URN_SAFE
  {
    var c := b as int as char;
    if 'a' <= c <= 'z' {
      assert URN_SAFE[c as int - 'a' as int] == c;
    } else if '0' <= c <= '9' {
      assert URN_SAFE[26 + c as int - '0' as int] == c;
    } else if c == '+' {
      assert URN_SAFE[36] == c;
    } else {
      NotSafe(c);
    }
  }

  lemma NotSafe(c: char)
    requires !('a' <= c <= 'z') && !('0' <= c <= '9') && c != '+'
    ensures c !in URN_SAFE
  {
    forall i | 0 <= i < |URN_SAFE|
      ensures URN_SAFE[i] != c
    {
      SafeAt(i);
    }
  }

  lemma SafeAt(i: nat)
    requires i < |URN_SAFE|
    ensures var c := URN_SAFE[i]; 'a' <= c <= 'z' || '0' <= c <= '9' || c == '+'
  {}

  /** How a byte is quoted: as itself if safe, else by a percent sign and its two
      hexadecimal digits. */
  lemma QuotedByte(b: Byte)
    ensures b < 0x80 && (b as int as char) in URN_SAFE ==> QuoteByte(b) == [b as int as char]
    ensures !(b < 0x80 && (b as int as char) in URN_SAFE) ==>
      var q := QuoteByte(b);
      && |q| == 3 && q[0] == '%' && q[1] in "0123456789abcdef" && q[2] in "0123456789abcdef"
      && HexValue(q[1]) == Some(b as int / 16) && HexValue(q[2]) == Some(b as int % 16)
  {
    if b < 0x80 {
      SafeIs(b);
    }
    if !Safe(b) {
      HexDigitIn(b as int / 16);
      HexDigitIn(b as int % 16);
    }
  }

  lemma HexDigitIn(n: nat)
    requires n < 16
    ensures HexDigit(n) == "0123456789abcdef"[n]
  {}

  lemma {:induction false} QuoteBytesAppend(a: seq<Byte>, b: seq<Byte>)
    ensures QuoteBytes(a + b) == QuoteBytes(a) + QuoteBytes(b)
  {
    if a == [] {
      assert a + b == b;
    } else {
      assert (a + b)[1..] == a[1..] + b;
      QuoteBytesAppend(a[1..], b);
      assert QuoteByte(a[0]) + (QuoteBytes(a[1..]) + QuoteBytes(b)) == (QuoteByte(a[0]) + QuoteBytes(a[1..])) + QuoteBytes(b);
    }
  }

  /** A character is quoted as itself if safe, else by more characters. */
  lemma QuotedChar(c: char)
    ensures c in URN_SAFE ==> QuoteBytes(EncodeChar(c)) == [c]
    ensures c !in URN_SAFE ==> |QuoteBytes(EncodeChar(c))| > 1
  {
    var b := EncodeChar(c);
    EncodedForm(c);
    QuotedByte(b[0]);
    assert QuoteBytes(b) == QuoteByte(b[0]) + QuoteBytes(b[1..]);
    if c in URN_SAFE {
      var j :| 0 <= j < |URN_SAFE| && URN_SAFE[j] == c;
      SafeAt(j);
      assert QuoteBytes(b[1..]) == [];
    } else if |b| > 1 {
      assert QuoteBytes(b[1..]) == QuoteByte(b[1..][0]) + QuoteBytes(b[1..][1..]);
    }
  }

  predicate Plain(c: char) { 'a' <= c <= 'z' || '0' <= c <= '9' || c == '+' }

  lemma PlainIs(c: char)
    ensures Plain(c) <==> c in URN_SAFE
  {
    if Plain(c) {
      SafeIs(c as int as Byte);
    } else {
      NotSafe(c);
    }
  }

  predicate AllPlain(s: string) { forall i :: 0 <= i < |s| ==> Plain(s[i]) }

  lemma AllPlainFirst(s: string)
    requires s != ""
    ensures AllPlain(s) <==> Plain(s[0]) && AllPlain(s[1..])
  {
    assert forall i :: 1 <= i < |s| ==> s[i] == s[1..][i - 1];
  }

  lemma QuotedFirst(s: string)
    requires s != ""
    ensures Quoted(s) == QuoteBytes(EncodeChar(s[0])) + Quoted(s[1..])
    ensures Plain(s[0]) ==> Quoted(s) == [s[0]] + Quoted(s[1..])
    ensures !Plain(s[0]) ==> |Quoted(s)| > 1 + |Quoted(s[1..])|
  {
    QuoteBytesAppend(EncodeChar(s[0]), Encode(s[1..]));
    PlainIs(s[0]);
    QuotedChar(s[0]);
  }

  lemma {:induction false} QuotedPlain(s: string)
    ensures AllPlain(s) ==> Quoted(s) == s
    ensures |Quoted(s)| >= |s| && (!AllPlain(s) ==> |Quoted(s)| > |s|)
  {
    if s != "" {
      QuotedPlain(s[1..]);
      QuotedFirst(s);
      AllPlainFirst(s);
      assert s == [s[0]] + s[1..];
    }
  }

  /** A text is left as it is exactly if it consists of safe characters; else it grows. */
  lemma QuotedUnchangedIff(s: string)
    ensures Quoted(s) == s <==> forall i :: 0 <= i < |s| ==> s[i] in URN_SAFE
    ensures Quoted(s) == s || |Quoted(s)| > |s|
  {
    QuotedPlain(s);
    forall i | 0 <= i < |s| ensures Plain(s[i]) <==> s[i] in URN_SAFE { PlainIs(s[i]); }
  }

  /** Hexadecimal digits have their usual values, in either case. */
  lemma HexValueIs(c: char, n: nat)
    requires n < 16
    ensures HexValue(c) == Some(n) <==> c == "0123456789abcdef"[n] || c == "0123456789ABCDEF"[n]
  {}

  /** An escape is read as its byte, */
  lemma EscapeRead(high: nat, low: nat, s: string)
    requires |s| >= 3 && forall i | 0 <= i < |s| :: IsAscii(s[i])
    requires s[0] == '%' && HexValue(s[1]) == Some(high) && HexValue(s[2]) == Some(low)
    ensures UnquoteBytes(s) == [(high * 16 + low) as Byte] + UnquoteBytes(s[3..])
  {}

  /** and any other character, also a percent sign that starts none, as itself. */
  lemma OtherRead(s: string)
    requires s != "" && forall i | 0 <= i < |s| :: IsAscii(s[i])
    requires s[0] != '%' || |s| < 3 || HexValue(s[1]) == None || HexValue(s[2]) == None
    ensures UnquoteBytes(s) == [s[0] as int as Byte] + UnquoteBytes(s[1..])
  {
    assert IsAscii(s[0]);
  }

  lemma {:induction false} AsciiReadBack(s: string)
    requires forall i | 0 <= i < |s| :: IsAscii(s[i]) && s[i] != '%'
    ensures UnquoteBytes(s) == Encode(s)
  {
    if s != "" {
      assert IsAscii(s[0]);
      AsciiReadBack(s[1..]);
    }
  }

  lemma UnquotedRun(s: string, n: nat)
    requires s != "" && n == AsciiRun(s) > 0
    requires Decode(UnquoteBytes(s[..n])) == Some(s[..n]) && Unquoted(s[n..]) == Some(s[n..])
    ensures Unquoted(s) == Some(s)
  {
    assert s == s[..n] + s[n..];
  }

  lemma UnquotedOther(s: string)
    requires s != "" && AsciiRun(s) == 0 && Unquoted(s[1..]) == Some(s[1..])
    ensures Unquoted(s) == Some(s)
  {
    assert s == [s[0]] + s[1..];
  }

  /** A text without a percent sign, ASCII or not, is left alone. */
  lemma {:induction false} NothingToUnquote(s: string)
    requires '%' !in s
    ensures Unquoted(s) == Some(s)
  {
    if s != "" {
      var n := AsciiRun(s);
      if n == 0 {
        NothingToUnquote(s[1..]);
        UnquotedOther(s);
      } else {
        AsciiReadBack(s[..n]);
        DecodeEncoded(s[..n]);
        NothingToUnquote(s[n..]);
        UnquotedRun(s, n);
      }
    }
  }

  /** Lower-casing turns capital letters into the small ones in their places, and
      changes nothing else. */
  lemma LowerIs(s: string, i: nat)
    requires i < |s|
    ensures |Lower(s)| == |s|
    ensures forall k :: 0 <= k < 26 && s[i] == "ABCDEFGHIJKLMNOPQRSTUVWXYZ"[k] ==>
              Lower(s)[i] == "abcdefghijklmnopqrstuvwxyz"[k]
    ensures s[i] < 'A' || s[i] > 'Z' ==> Lower(s)[i] == s[i]
  {
    forall k | 0 <= k < 26 && s[i] == "ABCDEFGHIJKLMNOPQRSTUVWXYZ"[k]
      ensures LowerChar(s[i]) == "abcdefghijklmnopqrstuvwxyz"[k]
    {
      LetterPairs(k);
    }
  }

  lemma LetterPairs(k: nat)
    requires k < 26
    ensures "ABCDEFGHIJKLMNOPQRSTUVWXYZ"[k] as int + 32 == "abcdefghijklmnopqrstuvwxyz"[k] as int
    ensures 'A' <= "ABCDEFGHIJKLMNOPQRSTUVWXYZ"[k] <= 'Z'
  {}
}
