/**
 * JavaScript's `encodeURIComponent`, which the logout handler applies to
 * the `returnTo` address: every character other than the unreserved
 * `A-Z a-z 0-9 - _ . ! ~ * ' ( )` is written as UTF-8 bytes, each as `%`
 * and two upper-case hexadecimal digits. `Decode` is a reference decoder
 * (JavaScript's `decodeURIComponent`) that undoes it.
 */
module UriComponent {
  import opened Wrappers

  predicate Unreserved(c: char) {
    'A' <= c <= 'Z' || 'a' <= c <= 'z' || '0' <= c <= '9'
    || c == '-' || c == '_' || c == '.' || c == '!' || c == '~' || c == '*'
    || c == '\'' || c == '(' || c == ')'
  }

  predicate IsHexDigit(c: char) {
    '0' <= c <= '9' || 'A' <= c <= 'F' || 'a' <= c <= 'f'
  }

  function HexValue(c: char): (n: nat)
    requires IsHexDigit(c)
    ensures n < 16
  {
    if '0' <= c <= '9' then c as int - '0' as int
    else if 'A' <= c <= 'F' then c as int - 'A' as int + 10
    else c as int - 'a' as int + 10
  }

  function HexDigit(n: nat): (c: char)
    requires n < 16
    ensures IsHexDigit(c) && Unreserved(c) && HexValue(c) == n
  {
    if n < 10 then ('0' as int + n) as char else ('A' as int + n - 10) as char
  }

  predicate IsByte(b: int) { 0 <= b < 256 }

  predicate IsContinuation(b: int) { 0x80 <= b < 0xC0 }

  /** How many bytes a UTF-8 sequence has, judged by its first byte; 0 for a byte no sequence starts with. */
  function SequenceLength(b: int): nat {
    if 0 <= b < 0x80 then 1
    else if 0xC0 <= b < 0xE0 then 2
    else if 0xE0 <= b < 0xF0 then 3
    else if 0xF0 <= b < 0xF8 then 4
    else 0
  }

  predicate IsScalar(n: int) {
    0 <= n < 0xD800 || 0xE000 <= n < 0x11_0000
  }

  /** The UTF-8 encoding of one character. */
  function Utf8(c: char): (bs: seq<int>)
    ensures 1 <= |bs| <= 4 && SequenceLength(bs[0]) == |bs|
    ensures forall i :: 0 <= i < |bs| ==> IsByte(bs[i])
    ensures forall i :: 1 <= i < |bs| ==> IsContinuation(bs[i])
  {
    var n := c as int;
    if n < 0x80 then [n]
    else if n < 0x800 then [0xC0 + n / 64, 0x80 + n % 64]
    else if n < 0x1_0000 then [0xE0 + n / 4096, 0x80 + (n / 64) % 64, 0x80 + n % 64]
    else [0xF0 + n / 262144, 0x80 + (n / 4096) % 64, 0x80 + (n / 64) % 64, 0x80 + n % 64]
  }

  /** The character a well-formed UTF-8 sequence stands for; None for overlong forms, surrogates and values past U+10FFFF. */
  function Utf8Char(bs: seq<int>): Option<char>
    requires 1 <= |bs| <= 4 && SequenceLength(bs[0]) == |bs|
    requires forall i :: 1 <= i < |bs| ==> IsContinuation(bs[i])
  {
    var n :=
      if |bs| == 1 then bs[0]
      else if |bs| == 2 then (bs[0] - 0xC0) * 64 + (bs[1] - 0x80)
      else if |bs| == 3 then (bs[0] - 0xE0) * 4096 + (bs[1] - 0x80) * 64 + (bs[2] - 0x80)
      else (bs[0] - 0xF0) * 262144 + (bs[1] - 0x80) * 4096 + (bs[2] - 0x80) * 64 + (bs[3] - 0x80);
    var least := if |bs| == 1 then 0 else if |bs| == 2 then 0x80 else if |bs| == 3 then 0x800 else 0x1_0000;
    if least <= n && IsScalar(n) then Some(n as char) else None
  }

  function Escape(bs: seq<int>): (s: string)
    requires forall i :: 0 <= i < |bs| ==> IsByte(bs[i])
    ensures |s| == 3 * |bs|
    ensures forall i :: 0 <= i < |s| ==> Unreserved(s[i]) || s[i] == '%'
  {
    if bs == [] then ""
    else
      assert IsByte(bs[0]);
      ['%', HexDigit(bs[0] / 16), HexDigit(bs[0] % 16)] + Escape(bs[1..])
  }

  function EncodeChar(c: char): string {
    if Unreserved(c) then [c] else Escape(Utf8(c))
  }

  /** `encodeURIComponent`: the result consists of unreserved characters and `%` escapes only. */
  function Encode(s: string): (r: string)
    ensures forall i :: 0 <= i < |r| ==> Unreserved(r[i]) || r[i] == '%'
  {
    if s == [] then "" else EncodeChar(s[0]) + Encode(s[1..])
  }

  /** The byte written as `%HH` at position `i` of `t`, if there is one. */
  function EscapedByte(t: string, i: nat): (r: Option<int>)
    ensures r.Some? ==> IsByte(r.value)
  {
    if i + 3 <= |t| && t[i] == '%' && IsHexDigit(t[i + 1]) && IsHexDigit(t[i + 2])
    then Some(HexValue(t[i + 1]) * 16 + HexValue(t[i + 2]))
    else None
  }

  /** The `n` bytes escaped at the front of `t`. */
  function EscapedBytes(t: string, n: nat): (r: Option<seq<int>>)
    ensures r.Some? ==> |r.value| == n && 3 * n <= |t|
    ensures r.Some? ==> forall i :: 0 <= i < n ==> IsByte(r.value[i])
  {
    if n == 0 then Some([])
    else match EscapedByte(t, 0)
      case None => None
      case Some(b) =>
        match EscapedBytes(t[3..], n - 1)
        case None => None
        case Some(rest) => Some([b] + rest)
  }

  /** The character escaped at the front of `t` and how many characters of `t` it occupies. */
  function EscapedChar(t: string): (r: Option<(char, nat)>)
    ensures r.Some? ==> 3 <= r.value.1 <= |t|
  {
    match EscapedByte(t, 0)
    case None => None
    case Some(b0) =>
      var n := SequenceLength(b0);
      if n == 0 then None
      else match EscapedBytes(t, n)
        case None => None
        case Some(bs) =>
          if forall i :: 1 <= i < n ==> IsContinuation(bs[i]) then
            assert bs[0] == b0;
            match Utf8Char(bs)
            case None => None
            case Some(c) => Some((c, 3 * n))
          else None
  }

  /** `decodeURIComponent`: None where JavaScript throws a URIError. */
  function Decode(t: string): Option<string>
    decreases |t|
  {
    if t == [] then Some("")
    else if t[0] != '%' then
      match Decode(t[1..])
      case None => None
      case Some(rest) => Some([t[0]] + rest)
    else
      match EscapedChar(t)
      case None => None
      case Some((c, used)) =>
        match Decode(t[used..])
        case None => None
        case Some(rest) => Some([c] + rest)
  }

  // ---------------------------------------------------------------- lemmas

  lemma Utf8RoundTrip(c: char)
    ensures Utf8Char(Utf8(c)) == Some(c)
  {
    var n := c as int;
    var bs := Utf8(c);
    if n >= 0x1_0000 {
      FourBytes(n);
      assert Utf8Char(bs) == Some(n as char);
    } else if n >= 0x800 {
      ThreeBytes(n);
      assert Utf8Char(bs) == Some(n as char);
    } else if n >= 0x80 {
      assert Utf8Char(bs) == Some(n as char);
    }
  }

  lemma ThreeBytes(n: int)
    requires 0x800 <= n < 0x1_0000
    ensures (n / 4096) * 4096 + ((n / 64) % 64) * 64 + n % 64 == n
  {
    assert n / 64 == (n / 4096) * 64 + (n / 64) % 64;
  }

  lemma FourBytes(n: int)
    requires 0x1_0000 <= n < 0x11_0000
    ensures (n / 262144) * 262144 + ((n / 4096) % 64) * 4096 + ((n / 64) % 64) * 64 + n % 64 == n
  {
    assert n / 4096 == (n / 262144) * 64 + (n / 4096) % 64;
    assert n / 64 == (n / 4096) * 64 + (n / 64) % 64;
  }

  lemma {:induction false} EscapedBytesRoundTrip(bs: seq<int>, rest: string)
    requires forall i :: 0 <= i < |bs| ==> IsByte(bs[i])
    ensures EscapedBytes(Escape(bs) + rest, |bs|) == Some(bs)
  {
    if bs != [] {
      var t := Escape(bs) + rest;
      var b := bs[0];
      FirstEscapedByte(bs, rest);
      assert t[3..] == Escape(bs[1..]) + rest;
      EscapedBytesRoundTrip(bs[1..], rest);
      assert bs == [b] + bs[1..];
    }
  }

  lemma EscapedCharRoundTrip(c: char, rest: string)
    requires !Unreserved(c)
    ensures EscapedChar(EncodeChar(c) + rest) == Some((c, 3 * |Utf8(c)|))
  {
    var bs := Utf8(c);
    var t := Escape(bs) + rest;
    assert EncodeChar(c) == Escape(bs);
    EscapedBytesRoundTrip(bs, rest);
    FirstEscapedByte(bs, rest);
    Utf8RoundTrip(c);
  }

  lemma FirstEscapedByte(bs: seq<int>, rest: string)
    requires bs != [] && forall i :: 0 <= i < |bs| ==> IsByte(bs[i])
    ensures EscapedByte(Escape(bs) + rest, 0) == Some(bs[0])
  {
    EscapeFront(bs);
    var e := Escape(bs);
    var t := e + rest;
    assert t[0] == e[0] && t[1] == e[1] && t[2] == e[2];
    EscapedPair(t, bs[0]);
  }

  /** The escape of a byte sequence begins with the escape of its first byte. */
  lemma EscapeFront(bs: seq<int>)
    requires bs != [] && forall i :: 0 <= i < |bs| ==> IsByte(bs[i])
    ensures IsByte(bs[0]) && |Escape(bs)| >= 3
    ensures Escape(bs)[0] == '%' && Escape(bs)[1] == HexDigit(bs[0] / 16) && Escape(bs)[2] == HexDigit(bs[0] % 16)
  {
    assert IsByte(bs[0]);
  }

  /** `%` and the two hexadecimal digits of a byte read back as that byte. */
  lemma EscapedPair(t: string, b: int)
    requires IsByte(b)
    requires |t| >= 3 && t[0] == '%' && t[1] == HexDigit(b / 16) && t[2] == HexDigit(b % 16)
    ensures EscapedByte(t, 0) == Some(b)
  {
  }

  lemma DecodeCons(c: char, rest: string)
    ensures Decode(EncodeChar(c) + rest) == match Decode(rest) case None => None case Some(s) => Some([c] + s)
  {
    var t := EncodeChar(c) + rest;
    if Unreserved(c) {
      assert t[0] == c && t[1..] == rest;
    } else {
      EscapedCharRoundTrip(c, rest);
      var bs := Utf8(c);
      assert t[0] == '%';
      assert t[3 * |bs|..] == rest;
    }
  }

  /** Decoding undoes encoding. */
  lemma {:induction false} RoundTrip(s: string)
    ensures Decode(Encode(s)) == Some(s)
  {
    if s != [] {
      var t := Encode(s[1..]);
      RoundTrip(s[1..]);
      assert Encode(s) == EncodeChar(s[0]) + t;
      DecodeCons(s[0], t);
      assert [s[0]] + s[1..] == s;
    }
  }
}
