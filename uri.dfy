/** `encodeURIComponent` (ECMA-262, section 19.2.6.5): every character
    outside `A-Z a-z 0-9 - _ . ! ~ * ' ( )` is replaced by the percent
    escapes (RFC 3986, section 2.1, upper-case hex) of its UTF-8 octets
    (RFC 3629, section 3). A decoder in the manner of `decodeURIComponent`
    is given beside it as its inverse. */
module UriEncoding {
  import opened Wrappers
  import Text

  predicate IsUnescaped(c: char) {
    ('A' <= c <= 'Z') || ('a' <= c <= 'z') || ('0' <= c <= '9')
    || c == '-' || c == '_' || c == '.' || c == '!' || c == '~'
    || c == '*' || c == '\'' || c == '(' || c == ')'
  }

  predicate IsByte(b: int) {
    0 <= b < 256
  }

  /** The UTF-8 octets of a code point. */
  function Utf8(cp: int): (bytes: seq<int>)
    requires 0 <= cp < 0x110000
    ensures 1 <= |bytes| <= 4
    ensures forall i :: 0 <= i < |bytes| ==> IsByte(bytes[i])
  {
    if cp < 0x80 then [cp]
    else if cp < 0x800 then [0xC0 + cp / 64, 0x80 + cp % 64]
    else if cp < 0x10000 then [0xE0 + cp / 4096, 0x80 + (cp / 64) % 64, 0x80 + cp % 64]
    else [0xF0 + cp / 262144, 0x80 + (cp / 4096) % 64, 0x80 + (cp / 64) % 64, 0x80 + cp % 64]
  }

  function HexDigit(d: int): (c: char)
    requires 0 <= d < 16
    ensures '0' <= c <= '9' || 'A' <= c <= 'F'
  {
    if d < 10 then ('0' as int + d) as char else ('A' as int + d - 10) as char
  }

  /** `%XY` for each octet. */
  function PercentBytes(bytes: seq<int>): (r: string)
    requires forall i :: 0 <= i < |bytes| ==> IsByte(bytes[i])
    ensures |r| == 3 * |bytes|
    ensures forall i :: 0 <= i < |r| ==> r[i] == '%' || '0' <= r[i] <= '9' || 'A' <= r[i] <= 'F'
  {
    if bytes == [] then ""
    else
      assert IsByte(bytes[0]);
      ['%', HexDigit(bytes[0] / 16), HexDigit(bytes[0] % 16)] + PercentBytes(bytes[1..])
  }

  /** Printable ASCII other than `/`: every character the encoder emits. */
  predicate IsSafeOutput(c: char) {
    (IsUnescaped(c) || c == '%') && c != '/'
  }

  function EncodeChar(c: char): (r: string)
    ensures 1 <= |r|
    ensures forall i :: 0 <= i < |r| ==> IsSafeOutput(r[i])
  {
    if IsUnescaped(c) then [c] else PercentBytes(Utf8(c as int))
  }

  /** `encodeURIComponent(s)`. Its output never contains `/`, so it can
      stand as one path segment of a URL. */
  function EncodeUriComponent(s: string): (r: string)
    ensures forall i :: 0 <= i < |r| ==> IsSafeOutput(r[i])
    ensures '/' !in r
    ensures |r| >= |s|
  {
    if s == [] then "" else EncodeChar(s[0]) + EncodeUriComponent(s[1..])
  }

  function HexValue(c: char): Option<int> {
    if '0' <= c <= '9' then Some(c as int - '0' as int)
    else if 'A' <= c <= 'F' then Some(c as int - 'A' as int + 10)
    else if 'a' <= c <= 'f' then Some(c as int - 'a' as int + 10)
    else None
  }

  /** The octet escaped as `%XY` at position `k`, if there is one. */
  function ByteAt(t: string, k: nat): (b: Option<int>)
    ensures b.Some? ==> IsByte(b.value)
  {
    if k + 3 <= |t| && t[k] == '%' && HexValue(t[k + 1]).Some? && HexValue(t[k + 2]).Some? then
      Some(HexValue(t[k + 1]).value * 16 + HexValue(t[k + 2]).value)
    else None
  }

  /** The six payload bits of a UTF-8 continuation octet escaped at `k`. */
  function Continuation(t: string, k: nat): (bits: Option<int>)
    ensures bits.Some? ==> 0 <= bits.value < 64
  {
    var b := ByteAt(t, k);
    if b.Some? && 0x80 <= b.value < 0xC0 then Some(b.value - 0x80) else None
  }

  /** The first character `t` stands for and how many characters of `t`
      denote it; `None` where `decodeURIComponent` throws. */
  function DecodeFirst(t: string): (r: Option<(char, nat)>)
    requires t != []
    ensures r.Some? ==> 1 <= r.value.1 <= |t|
  {
    if t[0] != '%' then Some((t[0], 1))
    else
      var lead := ByteAt(t, 0);
      if lead.None? then None
      else
        var b := lead.value;
        if b < 0x80 then Some((b as char, 3))
        else if 0xC0 <= b < 0xE0 then
          var c1 := Continuation(t, 3);
          if c1.None? then None
          else
            var cp := (b - 0xC0) * 64 + c1.value;
            if 0x80 <= cp then Some((cp as char, 6)) else None
        else if 0xE0 <= b < 0xF0 then
          var c1, c2 := Continuation(t, 3), Continuation(t, 6);
          if c1.None? || c2.None? then None
          else
            var cp := (b - 0xE0) * 4096 + c1.value * 64 + c2.value;
            if 0x800 <= cp && !(0xD800 <= cp < 0xE000) then Some((cp as char, 9)) else None
        else if 0xF0 <= b < 0xF8 then
          var c1, c2, c3 := Continuation(t, 3), Continuation(t, 6), Continuation(t, 9);
          if c1.None? || c2.None? || c3.None? then None
          else
            var cp := (b - 0xF0) * 262144 + c1.value * 4096 + c2.value * 64 + c3.value;
            if 0x10000 <= cp < 0x110000 then Some((cp as char, 12)) else None
        else None
  }

  /** `decodeURIComponent(t)`, `None` where it throws. */
  function DecodeUriComponent(t: string): Option<string>
    decreases |t|
  {
    if t == [] then Some("")
    else
      match DecodeFirst(t)
      case None => None
      case Some((c, n)) =>
        match DecodeUriComponent(t[n..])
        case None => None
        case Some(rest) => Some([c] + rest)
  }

  lemma HexDigitValue(d: int)
    requires 0 <= d < 16
    ensures HexValue(HexDigit(d)) == Some(d)
  {
  }

  /** The octet escaped at position `3 * j` of an escape run is the `j`-th octet. */
  lemma {:induction false} ByteAtPercent(bytes: seq<int>, rest: string, j: nat)
    requires forall i :: 0 <= i < |bytes| ==> IsByte(bytes[i])
    requires j < |bytes|
    ensures ByteAt(PercentBytes(bytes) + rest, 3 * j) == Some(bytes[j])
  {
    var b, more := bytes[0], bytes[1..];
    assert IsByte(b);
    var head := ['%', HexDigit(b / 16), HexDigit(b % 16)];
    var tail := PercentBytes(more) + rest;
    var t := PercentBytes(bytes) + rest;
    calc {
      t;
      { PercentBytesCons(bytes); }
      head + PercentBytes(more) + rest;
      { Text.Regroup3(head, PercentBytes(more), rest); }
      head + tail;
    }
    if j == 0 {
      ByteAtEscape(b, tail);
    } else {
      calc {
        ByteAt(t, 3 * j);
        { ByteAtShift(t, 3 * j); }
        ByteAt(t[3..], 3 * j - 3);
        { assert t[3..] == tail; assert 3 * j - 3 == 3 * (j - 1); }
        ByteAt(tail, 3 * (j - 1));
        { PercentBytesCons(bytes); ByteAtPercent(more, rest, j - 1); }
        Some(more[j - 1]);
        Some(bytes[j]);
      }
    }
  }

  /** The escapes of a non-empty run: the first octet's, then the rest's. */
  lemma PercentBytesCons(bytes: seq<int>)
    requires bytes != [] && forall i :: 0 <= i < |bytes| ==> IsByte(bytes[i])
    ensures IsByte(bytes[0]) && forall i :: 0 <= i < |bytes[1..]| ==> IsByte(bytes[1..][i])
    ensures PercentBytes(bytes) == ['%', HexDigit(bytes[0] / 16), HexDigit(bytes[0] % 16)] + PercentBytes(bytes[1..])
  {
  }

  /** An escape `%XY` decodes to the octet it was written from. */
  lemma ByteAtEscape(b: int, rest: string)
    requires IsByte(b)
    ensures ByteAt(['%', HexDigit(b / 16), HexDigit(b % 16)] + rest, 0) == Some(b)
  {
    HexDigitValue(b / 16);
    HexDigitValue(b % 16);
  }

  /** Reading an escape past the first three characters. */
  lemma ByteAtShift(t: string, k: nat)
    requires 3 <= k && 3 <= |t|
    ensures ByteAt(t, k) == ByteAt(t[3..], k - 3)
  {
  }

  lemma ThreeOctets(cp: int)
    requires 0 <= cp
    ensures (cp / 4096) * 4096 + ((cp / 64) % 64) * 64 + cp % 64 == cp
  {
    var q := cp / 64;
    assert cp == q * 64 + cp % 64;
    assert q == (q / 64) * 64 + q % 64;
    assert q / 64 == cp / 4096;
  }

  lemma FourOctets(cp: int)
    requires 0 <= cp
    ensures (cp / 262144) * 262144 + ((cp / 4096) % 64) * 4096 + ((cp / 64) % 64) * 64 + cp % 64 == cp
  {
    var q := cp / 4096;
    ThreeOctets(cp);
    assert q == (q / 64) * 64 + q % 64;
    assert q / 64 == cp / 262144;
  }

  /** Decoding the start of an escape run of `k` octets: the first `k`
      octets of the run are found at positions 0, 3, 6, 9. */
  lemma EscapedOctets(bytes: seq<int>, rest: string)
    requires forall i :: 0 <= i < |bytes| ==> IsByte(bytes[i])
    ensures forall j :: 0 <= j < |bytes| ==> ByteAt(PercentBytes(bytes) + rest, 3 * j) == Some(bytes[j])
  {
    forall j | 0 <= j < |bytes| ensures ByteAt(PercentBytes(bytes) + rest, 3 * j) == Some(bytes[j]) {
      ByteAtPercent(bytes, rest, j);
    }
  }

  lemma DecodeFirstTwo(cp: int, rest: string)
    requires 0x80 <= cp < 0x800
    ensures DecodeFirst(PercentBytes(Utf8(cp)) + rest) == Some((cp as char, 6))
  {
    var bytes := Utf8(cp);
    var t := PercentBytes(bytes) + rest;
    var b0, b1 := cp / 64, cp % 64;
    assert bytes == [0xC0 + b0, 0x80 + b1];
    assert ByteAt(t, 0) == Some(0xC0 + b0) && ByteAt(t, 3) == Some(0x80 + b1) by {
      EscapedOctets(bytes, rest);
      assert ByteAt(t, 3 * 0) == Some(bytes[0]);
      assert ByteAt(t, 3 * 1) == Some(bytes[1]);
    }
    assert Continuation(t, 3) == Some(b1);
    assert b0 * 64 + b1 == cp;
  }

  lemma DecodeFirstThree(cp: int, rest: string)
    requires 0x800 <= cp < 0x10000 && !(0xD800 <= cp < 0xE000)
    ensures DecodeFirst(PercentBytes(Utf8(cp)) + rest) == Some((cp as char, 9))
  {
    var bytes := Utf8(cp);
    var t := PercentBytes(bytes) + rest;
    var b0, b1, b2 := cp / 4096, (cp / 64) % 64, cp % 64;
    assert bytes == [0xE0 + b0, 0x80 + b1, 0x80 + b2];
    assert ByteAt(t, 0) == Some(0xE0 + b0) && ByteAt(t, 3) == Some(0x80 + b1) && ByteAt(t, 6) == Some(0x80 + b2) by {
      EscapedOctets(bytes, rest);
      assert ByteAt(t, 3 * 0) == Some(bytes[0]);
      assert ByteAt(t, 3 * 1) == Some(bytes[1]);
      assert ByteAt(t, 3 * 2) == Some(bytes[2]);
    }
    assert b0 * 4096 + b1 * 64 + b2 == cp by {
      ThreeOctets(cp);
    }
    assert 0 <= b0 < 16;
    DecodeThreeOctets(t, b0, b1, b2);
  }

  /** Decoding a three-octet escape run, from the octets it holds. */
  lemma DecodeThreeOctets(t: string, b0: int, b1: int, b2: int)
    requires t != [] && 0 <= b0 < 16 && 0 <= b1 < 64 && 0 <= b2 < 64
    requires ByteAt(t, 0) == Some(0xE0 + b0) && ByteAt(t, 3) == Some(0x80 + b1) && ByteAt(t, 6) == Some(0x80 + b2)
    requires var cp := b0 * 4096 + b1 * 64 + b2; 0x800 <= cp && !(0xD800 <= cp < 0xE000)
    ensures DecodeFirst(t) == Some(((b0 * 4096 + b1 * 64 + b2) as char, 9))
  {
    assert Continuation(t, 3) == Some(b1) && Continuation(t, 6) == Some(b2);
  }

  lemma DecodeFirstFour(cp: int, rest: string)
    requires 0x10000 <= cp < 0x110000
    ensures DecodeFirst(PercentBytes(Utf8(cp)) + rest) == Some((cp as char, 12))
  {
    var bytes := Utf8(cp);
    var t := PercentBytes(bytes) + rest;
    var b0, b1, b2, b3 := cp / 262144, (cp / 4096) % 64, (cp / 64) % 64, cp % 64;
    assert bytes == [0xF0 + b0, 0x80 + b1, 0x80 + b2, 0x80 + b3];
    assert ByteAt(t, 0) == Some(0xF0 + b0) && ByteAt(t, 3) == Some(0x80 + b1)
           && ByteAt(t, 6) == Some(0x80 + b2) && ByteAt(t, 9) == Some(0x80 + b3) by {
      EscapedOctets(bytes, rest);
      assert ByteAt(t, 3 * 0) == Some(bytes[0]);
      assert ByteAt(t, 3 * 1) == Some(bytes[1]);
      assert ByteAt(t, 3 * 2) == Some(bytes[2]);
      assert ByteAt(t, 3 * 3) == Some(bytes[3]);
    }
    assert b0 * 262144 + b1 * 4096 + b2 * 64 + b3 == cp by {
      FourOctets(cp);
    }
    assert 0 <= b0 < 8;
    DecodeFourOctets(t, b0, b1, b2, b3);
  }

  /** Decoding a four-octet escape run, from the octets it holds. */
  lemma DecodeFourOctets(t: string, b0: int, b1: int, b2: int, b3: int)
    requires t != [] && 0 <= b0 < 8 && 0 <= b1 < 64 && 0 <= b2 < 64 && 0 <= b3 < 64
    requires ByteAt(t, 0) == Some(0xF0 + b0) && ByteAt(t, 3) == Some(0x80 + b1)
    requires ByteAt(t, 6) == Some(0x80 + b2) && ByteAt(t, 9) == Some(0x80 + b3)
    requires 0x10000 <= b0 * 262144 + b1 * 4096 + b2 * 64 + b3 < 0x110000
    ensures DecodeFirst(t) == Some(((b0 * 262144 + b1 * 4096 + b2 * 64 + b3) as char, 12))
  {
    assert Continuation(t, 3) == Some(b1) && Continuation(t, 6) == Some(b2) && Continuation(t, 9) == Some(b3);
  }

  /** Decoding the start of an encoded character gives the character back. */
  lemma DecodeFirstEncodeChar(c: char, rest: string)
    ensures DecodeFirst(EncodeChar(c) + rest) == Some((c, |EncodeChar(c)|))
  {
    if !IsUnescaped(c) {
      var cp := c as int;
      if cp < 0x80 {
        EscapedOctets(Utf8(cp), rest);
      } else if cp < 0x800 {
        DecodeFirstTwo(cp, rest);
      } else if cp < 0x10000 {
        DecodeFirstThree(cp, rest);
      } else {
        DecodeFirstFour(cp, rest);
      }
    }
  }

  /** `decodeURIComponent(encodeURIComponent(s)) == s`, so the encoding is
      injective. */
  lemma {:induction false} DecodeEncode(s: string)
    ensures DecodeUriComponent(EncodeUriComponent(s)) == Some(s)
  {
    if s != [] {
      var rest := EncodeUriComponent(s[1..]);
      var e := EncodeChar(s[0]);
      var t := e + rest;
      assert EncodeUriComponent(s) == t;
      DecodeFirstEncodeChar(s[0], rest);
      assert t[|e|..] == rest;
      DecodeEncode(s[1..]);
      DecodeCons(t, s[0], |e|, s[1..]);
      assert [s[0]] + s[1..] == s;
    }
  }

  /** A decoded first character followed by the decoded remainder. */
  lemma DecodeCons(t: string, c: char, n: nat, s: string)
    requires t != [] && DecodeFirst(t) == Some((c, n)) && DecodeUriComponent(t[n..]) == Some(s)
    ensures DecodeUriComponent(t) == Some([c] + s)
  {
  }

  lemma EncodeInjective(s: string, s': string)
    requires EncodeUriComponent(s) == EncodeUriComponent(s')
    ensures s == s'
  {
    DecodeEncode(s);
    DecodeEncode(s');
  }
}
