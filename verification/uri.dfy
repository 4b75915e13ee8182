/**
 `encodeURIComponent`, which the image resolver applies to the thumbnail
 search query: every character except the unreserved ones is written as the
 percent-escapes of its UTF-8 bytes. `Decode` is the matching
 `decodeURIComponent` on well-formed input; the two are proved to be inverse.
 */
module Uri {
  import opened Types

  /** Characters `encodeURIComponent` leaves as they are. */
  predicate IsUnreserved(c: char) {
    || ('A' <= c <= 'Z') || ('a' <= c <= 'z') || ('0' <= c <= '9')
    || c == '-' || c == '_' || c == '.' || c == '!' || c == '~'
    || c == '*' || c == '\'' || c == '(' || c == ')'
  }

  /** An upper-case hexadecimal digit. */
  predicate IsHexDigit(c: char) {
    ('0' <= c <= '9') || ('A' <= c <= 'F')
  }

  type Byte = b: int | 0 <= b < 256

  /** The UTF-8 encoding of one Unicode scalar value. */
  function Utf8(c: char): (bs: seq<Byte>)
    ensures 1 <= |bs| <= 4
    ensures |bs| == 1 <==> (c as int) < 0x80
  {
    var cp := c as int;
    if cp < 0x80 then [cp]
    else if cp < 0x800 then
      [0xC0 + cp / 64, 0x80 + cp % 64]
    else if cp < 0x10000 then
      [0xE0 + cp / 64 / 64, 0x80 + cp / 64 % 64, 0x80 + cp % 64]
    else
      assert cp / 64 / 64 / 64 <= 4;
      [0xF0 + cp / 64 / 64 / 64, 0x80 + cp / 64 / 64 % 64, 0x80 + cp / 64 % 64, 0x80 + cp % 64]
  }

  function HexDigit(d: nat): (c: char)
    requires d < 16
    ensures IsHexDigit(c)
  {
    "0123456789ABCDEF"[d]
  }

  /** `%XX` for one byte, upper-case hex as the source's runtime writes it. */
  function Escape(b: Byte): (r: string)
    ensures |r| == 3 && r[0] == '%' && IsHexDigit(r[1]) && IsHexDigit(r[2])
  {
    ['%', HexDigit(b / 16), HexDigit(b % 16)]
  }

  function EscapeAll(bs: seq<Byte>): (r: string)
    ensures |r| == 3 * |bs|
    ensures forall i :: 0 <= i < |r| ==> r[i] == '%' || IsHexDigit(r[i])
  {
    if |bs| == 0 then "" else Escape(bs[0]) + EscapeAll(bs[1..])
  }

  function EncodeChar(c: char): (r: string)
    ensures |r| >= 1
    ensures forall i :: 0 <= i < |r| ==> IsUnreserved(r[i]) || r[i] == '%' || IsHexDigit(r[i])
  {
    if IsUnreserved(c) then [c] else EscapeAll(Utf8(c))
  }

  /** `encodeURIComponent(s)`. Its output consists of unreserved characters,
      `%` and hex digits only, so it can never contain `&`, `=`, `#` or a space. */
  function Encode(s: string): (r: string)
    ensures forall i :: 0 <= i < |r| ==> IsUnreserved(r[i]) || r[i] == '%' || IsHexDigit(r[i])
  {
    if |s| == 0 then "" else EncodeChar(s[0]) + Encode(s[1..])
  }

  /** The value of a hex digit; both cases are accepted when decoding. */
  function HexValue(c: char): Option<nat> {
    if '0' <= c <= '9' then Some(c as int - '0' as int)
    else if 'A' <= c <= 'F' then Some(c as int - 'A' as int + 10)
    else if 'a' <= c <= 'f' then Some(c as int - 'a' as int + 10)
    else None
  }

  /** Reads `n` escapes `%XX` off the front of `s`. */
  function ReadEscapes(s: string, n: nat): (r: Option<seq<Byte>>)
    ensures r.Some? ==> |r.value| == n && 3 * n <= |s|
    decreases n
  {
    if n == 0 then Some([])
    else if |s| >= 3 && s[0] == '%' && HexValue(s[1]).Some? && HexValue(s[2]).Some?
            && HexValue(s[1]).value < 16 && HexValue(s[2]).value < 16 then
      var rest := ReadEscapes(s[3..], n - 1);
      if rest.Some? then Some([HexValue(s[1]).value * 16 + HexValue(s[2]).value] + rest.value)
      else None
    else None
  }

  /** The length of the UTF-8 sequence a lead byte announces; 0 if it is no lead byte. */
  function SequenceLength(b: Byte): nat {
    if b < 0x80 then 1
    else if 0xC0 <= b < 0xE0 then 2
    else if 0xE0 <= b < 0xF0 then 3
    else if 0xF0 <= b < 0xF8 then 4
    else 0
  }

  predicate IsContinuation(b: int) {
    0x80 <= b < 0xC0
  }

  /** The scalar value a well-formed, shortest-form UTF-8 sequence encodes. */
  function DecodeUtf8(bytes: seq<Byte>): Option<char> {
    var bs := seq(|bytes|, i requires 0 <= i < |bytes| => bytes[i] as int);
    if |bs| == 1 && bs[0] < 0x80 then Some(bs[0] as char)
    else if |bs| == 2 && IsContinuation(bs[1]) && 0xC0 <= bs[0] < 0xE0 then
      var v := (bs[0] - 0xC0) * 64 + (bs[1] - 0x80);
      if v >= 0x80 then Some(v as char) else None
    else if |bs| == 3 && IsContinuation(bs[1]) && IsContinuation(bs[2]) && 0xE0 <= bs[0] < 0xF0 then
      var v := ((bs[0] - 0xE0) * 64 + (bs[1] - 0x80)) * 64 + (bs[2] - 0x80);
      if v >= 0x800 && !(0xD800 <= v < 0xE000) then Some(v as char) else None
    else if |bs| == 4 && IsContinuation(bs[1]) && IsContinuation(bs[2]) && IsContinuation(bs[3])
            && 0xF0 <= bs[0] < 0xF8 then
      var v := (((bs[0] - 0xF0) * 64 + (bs[1] - 0x80)) * 64 + (bs[2] - 0x80)) * 64 + (bs[3] - 0x80);
      if 0x10000 <= v <= 0x10FFFF then Some(v as char) else None
    else None
  }

  /** `decodeURIComponent(s)`; `None` where the source's runtime throws `URIError`. */
  function Decode(s: string): Option<string>
    decreases |s|
  {
    if |s| == 0 then Some("")
    else if s[0] != '%' then
      var rest := Decode(s[1..]);
      if rest.Some? then Some([s[0]] + rest.value) else None
    else
      var lead := ReadEscapes(s, 1);
      if lead.None? then None
      else
        var n := SequenceLength(lead.value[0]);
        var bs := ReadEscapes(s, n);
        if n == 0 || bs.None? then None
        else
          var c := DecodeUtf8(bs.value);
          if c.None? then None
          else
            var rest := Decode(s[3 * n..]);
            if rest.Some? then Some([c.value] + rest.value) else None
  }

  lemma HexRoundTrip(d: nat)
    requires d < 16
    ensures HexValue(HexDigit(d)) == Some(d)
  {
  }

  /** One escape read back: `%XX` in front of `tail` yields `b` and then whatever `tail` yields. */
  lemma ReadEscapeStep(b: Byte, tail: string, n: nat)
    requires n > 0
    ensures ReadEscapes(Escape(b) + tail, n)
         == if ReadEscapes(tail, n - 1).Some? then Some([b] + ReadEscapes(tail, n - 1).value) else None
  {
    var s := Escape(b) + tail;
    HexRoundTrip(b / 16);
    HexRoundTrip(b % 16);
    assert s[1] == HexDigit(b / 16) && s[2] == HexDigit(b % 16);
    assert s[3..] == tail;
  }

  lemma {:induction false} ReadEscapesOfEscapeAll(bs: seq<Byte>, rest: string, n: nat)
    requires n <= |bs|
    ensures ReadEscapes(EscapeAll(bs) + rest, n) == Some(bs[..n])
    decreases n
  {
    if n > 0 {
      var tail := EscapeAll(bs[1..]) + rest;
      assert EscapeAll(bs) + rest == Escape(bs[0]) + tail;
      ReadEscapeStep(bs[0], tail, n);
      ReadEscapesOfEscapeAll(bs[1..], rest, n - 1);
      assert [bs[0]] + bs[1..][..n - 1] == bs[..n];
    }
  }

  lemma Utf8RoundTrip(c: char)
    ensures SequenceLength(Utf8(c)[0]) == |Utf8(c)|
    ensures DecodeUtf8(Utf8(c)) == Some(c)
  {
    var cp := c as int;
    var q1 := cp / 64;
    assert cp == q1 * 64 + cp % 64;
    if cp >= 0x800 {
      var q2 := q1 / 64;
      assert q1 == q2 * 64 + q1 % 64;
      if cp >= 0x10000 {
        var q3 := q2 / 64;
        assert q2 == q3 * 64 + q2 % 64;
      }
    }
  }

  /** Decoding undoes encoding one character at a time. */
  lemma DecodeEncodeChar(c: char, rest: string)
    ensures Decode(EncodeChar(c) + rest) ==
      (if Decode(rest).Some? then Some([c] + Decode(rest).value) else None)
  {
    var s := EncodeChar(c) + rest;
    if IsUnreserved(c) {
      assert s[1..] == rest;
    } else {
      var bs := Utf8(c);
      Utf8RoundTrip(c);
      ReadEscapesOfEscapeAll(bs, rest, 1);
      ReadEscapesOfEscapeAll(bs, rest, |bs|);
      assert bs[..1] == [bs[0]] && bs[..|bs|] == bs;
      assert s[3 * |bs|..] == rest;
    }
  }

  /** `decodeURIComponent(encodeURIComponent(s)) == s`: the encoded query
      determines the original one. */
  lemma {:induction false} DecodeEncode(s: string)
    ensures Decode(Encode(s)) == Some(s)
  {
    if |s| > 0 {
      DecodeEncode(s[1..]);
      DecodeEncodeChar(s[0], Encode(s[1..]));
      assert [s[0]] + s[1..] == s;
    }
  }
}
