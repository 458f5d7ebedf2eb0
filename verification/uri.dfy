/** `decodeURIComponent` and `encodeURIComponent` (section 19.2.6 of
    ECMA-262): the cookie value carrying the CSRF token is percent-decoded
    before it is sent back in a header. A string here is a sequence of
    Unicode scalar values; a `URIError` is `None`. */
module UriComponent {
  import opened Wrappers
  import opened JsNumber

  /** The octet written `%XY` at position `k` of `s`, if one is there. */
  function OctetAt(s: string, k: nat): (r: Option<nat>)
    ensures r.Some? ==> k + 3 <= |s| && s[k] == '%' && r.value < 256
  {
    if k + 2 < |s| && s[k] == '%' && IsHexDigit(s[k + 1]) && IsHexDigit(s[k + 2]) then
      Some(16 * HexDigitValue(s[k + 1]) + HexDigitValue(s[k + 2]))
    else None
  }

  /** The length of the UTF-8 sequence a lead octet announces, by its
      leading one bits; 0 for an octet that cannot lead one (a continuation
      octet, or five or more leading ones). */
  function SequenceLength(b: nat): (n: nat)
    ensures n <= 4
  {
    if b < 0x80 then 1
    else if b < 0xC0 then 0
    else if b < 0xE0 then 2
    else if b < 0xF0 then 3
    else if b < 0xF8 then 4
    else 0
  }

  predicate IsContinuation(b: nat) {
    0x80 <= b < 0xC0
  }

  /** `count` continuation octets, each written `%XY`, at the start of `s`. */
  function ContinuationBytes(s: string, count: nat): (r: Option<seq<nat>>)
    ensures r.Some? ==> |r.value| == count && 3 * count <= |s|
    ensures r.Some? ==> forall i :: 0 <= i < count ==> IsContinuation(r.value[i])
  {
    if count == 0 then Some([])
    else
      match OctetAt(s, 0)
      case None => None
      case Some(b) =>
        if !IsContinuation(b) then None
        else
          match ContinuationBytes(s[3..], count - 1)
          case None => None
          case Some(rest) => Some([b] + rest)
  }

  /** A Unicode scalar value: a code point that is not a surrogate. */
  predicate IsScalar(cp: int) {
    0 <= cp < 0xD800 || 0xE000 <= cp < 0x11_0000
  }

  /** The code point a multi-octet UTF-8 sequence encodes, or `None` when
      the encoding is not the shortest one, names a surrogate, or lies above
      U+10FFFF. */
  function Utf8CodePoint(lead: nat, tail: seq<nat>): (r: Option<nat>)
    requires |tail| == SequenceLength(lead) - 1 && |tail| >= 1
    requires forall i :: 0 <= i < |tail| ==> IsContinuation(tail[i])
    ensures r.Some? ==> IsScalar(r.value) && r.value >= 0x80
  {
    if |tail| == 1 then
      assert lead < 0xE0 && IsContinuation(tail[0]);
      var cp: int := (lead as int - 0xC0) * 64 + (tail[0] as int - 0x80);
      if cp < 0x80 then None else Some(cp)
    else if |tail| == 2 then
      assert lead < 0xF0 && IsContinuation(tail[0]) && IsContinuation(tail[1]);
      var cp: int := ((lead as int - 0xE0) * 64 + (tail[0] as int - 0x80)) * 64 + (tail[1] as int - 0x80);
      if cp < 0x800 || (0xD800 <= cp < 0xE000) then None else Some(cp)
    else
      var cp: int := (((lead as int - 0xF0) * 64 + (tail[0] as int - 0x80)) * 64 + (tail[1] as int - 0x80)) * 64 + (tail[2] as int - 0x80);
      if cp < 0x1_0000 || cp >= 0x11_0000 then None else Some(cp)
  }

  /** `decodeURIComponent`: every `%XY` sequence that spells one UTF-8
      encoded character becomes that character; everything else is copied.
      A `%` not followed by two hex digits, a stray or missing continuation
      octet, or an invalid encoding is a `URIError`. */
  function Decode(s: string): (r: Option<string>)
    ensures r.Some? ==> |r.value| <= |s|
    ensures (forall i :: 0 <= i < |s| ==> s[i] != '%') ==> r == Some(s)
    decreases |s|
  {
    if |s| == 0 then Some([])
    else if s[0] != '%' then
      assert [s[0]] + s[1..] == s;
      assert (forall i :: 0 <= i < |s| ==> s[i] != '%') ==> (forall i :: 0 <= i < |s[1..]| ==> s[1..][i] != '%');
      match Decode(s[1..])
      case None => None
      case Some(rest) => Some([s[0]] + rest)
    else
      match OctetAt(s, 0)
      case None => None
      case Some(b) =>
        if b < 0x80 then
          match Decode(s[3..])
          case None => None
          case Some(rest) => Some([b as char] + rest)
        else
          var n := SequenceLength(b);
          if n == 0 then None
          else
            match ContinuationBytes(s[3..], n - 1)
            case None => None
            case Some(tail) =>
              match Utf8CodePoint(b, tail)
              case None => None
              case Some(cp) =>
                match Decode(s[3 * n..])
                case None => None
                case Some(rest) => Some([cp as char] + rest)
  }

  /** The characters `encodeURIComponent` leaves as they are. */
  predicate Unreserved(c: char) {
    'A' <= c <= 'Z' || 'a' <= c <= 'z' || '0' <= c <= '9'
    || c in "-_.!~*'()"
  }

  /** The UTF-8 octets of a scalar value. */
  function Utf8(cp: nat): (r: seq<nat>)
    requires IsScalar(cp)
    ensures 1 <= |r| <= 4
    ensures forall i :: 0 <= i < |r| ==> r[i] < 256
  {
    if cp < 0x80 then [cp]
    else if cp < 0x800 then [0xC0 + cp / 64, 0x80 + cp % 64]
    else if cp < 0x1_0000 then [0xE0 + cp / 4096, 0x80 + (cp / 64) % 64, 0x80 + cp % 64]
    else [0xF0 + cp / 262144, 0x80 + (cp / 4096) % 64, 0x80 + (cp / 64) % 64, 0x80 + cp % 64]
  }

  function UpperHexChar(n: nat): (c: char)
    requires n < 16
    ensures IsHexDigit(c) && HexDigitValue(c) == n
  {
    if n < 10 then DigitChar(n) else ('A' as int + n - 10) as char
  }

  /** One octet written `%XY` with upper-case hex digits. */
  function PercentByte(b: nat): (r: string)
    requires b < 256
    ensures |r| == 3 && r[0] == '%'
  {
    ['%', UpperHexChar(b / 16), UpperHexChar(b % 16)]
  }

  /** An escape written by `PercentByte` reads back as its octet. */
  lemma PercentByteReads(b: nat)
    requires b < 256
    ensures OctetAt(PercentByte(b), 0) == Some(b)
  {
  }

  function PercentBytes(bs: seq<nat>): (r: string)
    requires forall i :: 0 <= i < |bs| ==> bs[i] < 256
    ensures |r| == 3 * |bs|
  {
    if |bs| == 0 then "" else PercentByte(bs[0]) + PercentBytes(bs[1..])
  }

  function EncodeChar(c: char): string {
    if Unreserved(c) then [c] else PercentBytes(Utf8(c as nat))
  }

  /** `encodeURIComponent`: unreserved characters are kept, every other
      character becomes the percent-escaped octets of its UTF-8 encoding. */
  function Encode(s: string): (r: string)
    ensures forall i :: 0 <= i < |r| ==> Unreserved(r[i]) || r[i] == '%' || IsHexDigit(r[i])
  {
    if |s| == 0 then ""
    else
      var head := EncodeChar(s[0]);
      assert forall i :: 0 <= i < |head| ==> Unreserved(head[i]) || head[i] == '%' || IsHexDigit(head[i]) by {
        if !Unreserved(s[0]) {
          PercentBytesAlphabet(Utf8(s[0] as nat));
        }
      }
      head + Encode(s[1..])
  }

  lemma {:induction false} PercentBytesAlphabet(bs: seq<nat>)
    requires forall i :: 0 <= i < |bs| ==> bs[i] < 256
    ensures forall i :: 0 <= i < |PercentBytes(bs)| ==> PercentBytes(bs)[i] == '%' || IsHexDigit(PercentBytes(bs)[i])
  {
    if |bs| > 0 {
      PercentBytesAlphabet(bs[1..]);
      var r := PercentBytes(bs);
      var h := PercentByte(bs[0]);
      forall i | 0 <= i < |r| ensures r[i] == '%' || IsHexDigit(r[i]) {
        if i >= 3 { assert r[i] == PercentBytes(bs[1..])[i - 3]; }
      }
    }
  }

  /** Continuation octets written with `%XY` are read back in order. */
  lemma {:induction false} ContinuationBytesOf(bs: seq<nat>, rest: string)
    requires forall i :: 0 <= i < |bs| ==> bs[i] < 256 && IsContinuation(bs[i])
    ensures ContinuationBytes(PercentBytes(bs) + rest, |bs|) == Some(bs)
  {
    if |bs| > 0 {
      LeadEscape(bs, rest);
      ContinuationBytesOf(bs[1..], rest);
      assert [bs[0]] + bs[1..] == bs;
    }
  }

  /** The UTF-8 encoding of a scalar value at or above U+0080 is a valid
      sequence whose decoding gives the value back. */
  lemma Utf8Decodes(cp: nat)
    requires IsScalar(cp) && cp >= 0x80
    ensures |Utf8(cp)| == SequenceLength(Utf8(cp)[0])
    ensures forall i :: 1 <= i < |Utf8(cp)| ==> IsContinuation(Utf8(cp)[i])
    ensures Utf8CodePoint(Utf8(cp)[0], Utf8(cp)[1..]) == Some(cp)
  {
    var r := Utf8(cp);
    if cp < 0x800 {
      assert r[1..] == [0x80 + cp % 64];
    } else if cp < 0x1_0000 {
      assert r[1..] == [0x80 + (cp / 64) % 64, 0x80 + cp % 64];
      assert cp / 4096 == (cp / 64) / 64;
    } else {
      assert r[1..] == [0x80 + (cp / 4096) % 64, 0x80 + (cp / 64) % 64, 0x80 + cp % 64];
      assert cp / 262144 == ((cp / 64) / 64) / 64;
      assert cp / 4096 == (cp / 64) / 64;
    }
  }

  /** Decoding the encoding of one character, followed by anything. */
  lemma DecodeEncodedChar(c: char, rest: string)
    ensures Decode(EncodeChar(c) + rest)
         == match Decode(rest) case None => None case Some(t) => Some([c] + t)
  {
    if Unreserved(c) {
      var s := EncodeChar(c) + rest;
      assert s[1..] == rest;
    } else if c as nat < 0x80 {
      DecodeAsciiEscape(c, rest);
    } else {
      DecodeMultiByte(c, rest);
    }
  }

  /** A reserved ASCII character is one `%XY` escape. */
  lemma DecodeAsciiEscape(c: char, rest: string)
    requires !Unreserved(c) && c as nat < 0x80
    ensures Decode(EncodeChar(c) + rest)
         == match Decode(rest) case None => None case Some(t) => Some([c] + t)
  {
    var b := c as nat;
    assert EncodeChar(c) == PercentBytes([b]) by {
      assert Utf8(b) == [b];
    }
    LeadEscape([b], rest);
    assert PercentBytes([b][1..]) + rest == rest;
    assert (b as char) == c;
  }

  /** A character at or above U+0080 is the escapes of its UTF-8 octets. */
  lemma DecodeMultiByte(c: char, rest: string)
    requires c as nat >= 0x80
    ensures Decode(EncodeChar(c) + rest)
         == match Decode(rest) case None => None case Some(t) => Some([c] + t)
  {
    var bs := Utf8(c as nat);
    assert EncodeChar(c) == PercentBytes(bs);
    LeadEscape(bs, rest);
    AfterEscapes(bs, rest);
    Utf8Decodes(c as nat);
    ContinuationBytesOf(bs[1..], rest);
  }

  /** What follows a complete escape does not change how it reads. */
  lemma OctetPrefix(h: string, t: string)
    requires |h| >= 3
    ensures OctetAt(h + t, 0) == OctetAt(h, 0)
  {
    var s := h + t;
    assert s[0] == h[0] && s[1] == h[1] && s[2] == h[2];
  }

  /** The escapes of a non-empty octet sequence, followed by anything: the
      first escape reads as the first octet and is followed by the others. */
  lemma LeadEscape(bs: seq<nat>, rest: string)
    requires |bs| >= 1 && forall i :: 0 <= i < |bs| ==> bs[i] < 256
    ensures OctetAt(PercentBytes(bs) + rest, 0) == Some(bs[0])
    ensures (PercentBytes(bs) + rest)[3..] == PercentBytes(bs[1..]) + rest
  {
    var h, t := PercentByte(bs[0]), PercentBytes(bs[1..]);
    assert PercentBytes(bs) == h + t;
    OctetPrefix(h + t, rest);
    OctetPrefix(h, t);
    PercentByteReads(bs[0]);
    DropEscape(h, t, rest);
  }

  lemma DropEscape(h: string, t: string, rest: string)
    requires |h| == 3
    ensures (h + t + rest)[3..] == t + rest
  {
  }

  /** The escapes of an octet sequence are followed by what comes after
      them. */
  lemma AfterEscapes(bs: seq<nat>, rest: string)
    requires forall i :: 0 <= i < |bs| ==> bs[i] < 256
    ensures (PercentBytes(bs) + rest)[3 * |bs|..] == rest
  {
    assert |PercentBytes(bs)| == 3 * |bs|;
  }

  /** `decodeURIComponent(encodeURIComponent(s)) === s` for every string. */
  lemma {:induction false} DecodeEncode(s: string)
    ensures Decode(Encode(s)) == Some(s)
  {
    if |s| > 0 {
      DecodeEncode(s[1..]);
      DecodeEncodedChar(s[0], Encode(s[1..]));
      assert [s[0]] + s[1..] == s;
    }
  }

  /** A lone `%` and a truncated escape are `URIError`s. */
  lemma DecodeTruncated()
    ensures Decode("%") == None
    ensures Decode("abc%4") == None
  {
    assert Decode("abc%4") == Decode("bc%4") == Decode("c%4") == Decode("%4");
  }

  /** One continuation octet `%XY` read on its own. */
  lemma OneContinuation(s: string, b: nat)
    requires |s| == 3 && OctetAt(s, 0) == Some(b) && IsContinuation(b)
    ensures ContinuationBytes(s, 1) == Some([b])
  {
    var e: seq<nat> := [];
    assert s[3..] == [];
    assert ContinuationBytes(s[3..], 0) == Some(e);
    assert [b] + e == [b];
  }

  /** The overlong two-octet form of `/` and an encoded surrogate are
      rejected; a well-formed two-octet sequence reads as its character. */
  lemma DecodeValidates()
    ensures Decode("%C0%AF") == None
    ensures Decode("%ED%A0%80") == None
    ensures Decode("%C3%A9") == Some("\U{E9}")
  {
    var overlong := "%C0%AF";
    assert OctetAt(overlong, 0) == Some(0xC0);
    assert OctetAt(overlong[3..], 0) == Some(0xAF);
    OneContinuation(overlong[3..], 0xAF);
    var surrogate := "%ED%A0%80";
    assert OctetAt(surrogate, 0) == Some(0xED);
    var tail := surrogate[3..];
    assert OctetAt(tail, 0) == Some(0xA0);
    assert OctetAt(tail[3..], 0) == Some(0x80);
    OneContinuation(tail[3..], 0x80);
    assert [0xA0 as nat] + [0x80] == [0xA0, 0x80];
    assert ContinuationBytes(tail, 2) == Some([0xA0, 0x80]);
    var e := "%C3%A9";
    assert OctetAt(e, 0) == Some(0xC3);
    assert OctetAt(e[3..], 0) == Some(0xA9);
    OneContinuation(e[3..], 0xA9);
    assert e[6..] == "";
    assert Utf8CodePoint(0xC3, [0xA9]) == Some(0xE9);
    assert Decode(e[6..]) == Some("");
    assert [0xE9 as char] + "" == "\U{E9}";
  }
}
