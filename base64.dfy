/** The byte-level part of an HTTP Basic `Authorization` header:
    `Buffer.from(text)` (UTF-8, section 3 of RFC 3629) followed by
    `.toString('base64')` (the padded alphabet of section 4 of RFC 4648).
    The decoder is the partner of the encoder: it exists to state that the
    encoding loses nothing. */
module Base64 {
  import opened JsText

  newtype byte = x: int | 0 <= x < 256

  // ---------------------------------------------------------------------------
  // UTF-8

  function Utf8Char(c: char): (r: seq<byte>)
    ensures 1 <= |r| <= 4
    ensures (c as int < 0x80) <==> |r| == 1
    ensures |r| == 1 ==> r[0] as int == c as int
    ensures |r| > 1 ==> forall k :: 0 <= k < |r| ==> r[k] >= 0x80
  {
    var n := c as int;
    if n < 0x80 then [n as byte]
    else if n < 0x800 then [(0xC0 + n / 0x40) as byte, (0x80 + n % 0x40) as byte]
    else if n < 0x1_0000 then
      [(0xE0 + n / 0x1000) as byte, (0x80 + (n / 0x40) % 0x40) as byte, (0x80 + n % 0x40) as byte]
    else
      [(0xF0 + n / 0x4_0000) as byte, (0x80 + (n / 0x1000) % 0x40) as byte,
       (0x80 + (n / 0x40) % 0x40) as byte, (0x80 + n % 0x40) as byte]
  }

  /** Each character's bytes, one after another. */
  function Concat(s: string, enc: char -> seq<byte>): seq<byte> {
    if s == [] then [] else Concat(s[..|s| - 1], enc) + enc(s[|s| - 1])
  }

  lemma {:induction false} ConcatAppend(s: string, t: string, enc: char -> seq<byte>)
    ensures Concat(s + t, enc) == Concat(s, enc) + Concat(t, enc)
    decreases |t|
  {
    if t == [] {
      assert s + t == s;
    } else {
      var st := s + t;
      assert st[..|st| - 1] == s + t[..|t| - 1] && st[|st| - 1] == t[|t| - 1];
      ConcatAppend(s, t[..|t| - 1], enc);
    }
  }

  /** `Buffer.from(s)`: the UTF-8 encoding of `s`, character by character. */
  function Utf8(s: string): seq<byte> {
    Concat(s, Utf8Char)
  }

  lemma Utf8Append(s: string, t: string)
    ensures Utf8(s + t) == Utf8(s) + Utf8(t)
  {
    ConcatAppend(s, t, Utf8Char);
  }

  lemma Utf8Colon()
    ensures Utf8(":") == [0x3A]
  {
    assert ":"[..0] == [];
  }

  /** A byte below 0x80 appears in the encoding only as the encoding of the
      very same ASCII character: multi-byte sequences use only bytes from
      0x80 upwards. */
  lemma {:induction false} Utf8AsciiByte(s: string, c: char)
    requires c as int < 0x80
    ensures (c as int) as byte in Utf8(s) <==> c in s
    decreases |s|
  {
    if s != [] {
      var init, last := s[..|s| - 1], s[|s| - 1];
      Utf8AsciiByte(init, c);
      assert s == init + [last];
      var enc := Utf8Char(last);
      assert (c as int) as byte in enc <==> c == last by {
        if |enc| == 1 {
          assert enc == [enc[0]];
        }
      }
    }
  }

  // ---------------------------------------------------------------------------
  // base64

  /** The 64 symbols, in the order of Table 1 of RFC 4648. */
  function Symbol(i: nat): (c: char)
    requires i < 64
  {
    if i < 26 then ('A' as int + i) as char
    else if i < 52 then ('a' as int + (i - 26)) as char
    else if i < 62 then ('0' as int + (i - 52)) as char
    else if i == 62 then '+' else '/'
  }

  function SymbolValue(c: char): (r: Option<nat>)
    ensures r.Some? ==> r.value < 64 && Symbol(r.value) == c
  {
    if 'A' <= c <= 'Z' then Some(c as int - 'A' as int)
    else if 'a' <= c <= 'z' then Some(c as int - 'a' as int + 26)
    else if '0' <= c <= '9' then Some(c as int - '0' as int + 52)
    else if c == '+' then Some(62)
    else if c == '/' then Some(63)
    else None
  }

  lemma SymbolRoundTrip(i: nat)
    requires i < 64
    ensures SymbolValue(Symbol(i)) == Some(i)
  {
  }

  /** One group of up to three bytes as four characters, `=`-padded. */
  function EncodeGroup(g: seq<byte>): (r: string)
    requires 1 <= |g| <= 3
    ensures |r| == 4
  {
    var b0 := g[0] as int;
    var b1 := if |g| > 1 then g[1] as int else 0;
    var b2 := if |g| > 2 then g[2] as int else 0;
    [Symbol(b0 / 4), Symbol((b0 % 4) * 16 + b1 / 16),
     if |g| > 1 then Symbol((b1 % 16) * 4 + b2 / 64) else '=',
     if |g| > 2 then Symbol(b2 % 64) else '=']
  }

  /** `.toString('base64')`: each group of three bytes becomes four
      symbols; a final group of one or two bytes is padded with `=`. */
  function Encode(b: seq<byte>): (r: string)
    ensures |r| == (|b| + 2) / 3 * 4
    decreases |b|
  {
    if b == [] then ""
    else if |b| <= 3 then EncodeGroup(b)
    else EncodeGroup(b[..3]) + Encode(b[3..])
  }

  function DecodeGroup(q: string): (r: Option<seq<byte>>)
    requires |q| == 4
  {
    var v0, v1, v2, v3 := SymbolValue(q[0]), SymbolValue(q[1]), SymbolValue(q[2]), SymbolValue(q[3]);
    if v0.None? || v1.None? then None
    else
      var b0 := (v0.value * 4 + v1.value / 16) as byte;
      if q[2] == '=' && q[3] == '=' then Some([b0])
      else if v2.None? then None
      else
        var b1 := ((v1.value % 16) * 16 + v2.value / 4) as byte;
        if q[3] == '=' then Some([b0, b1])
        else if v3.None? then None
        else Some([b0, b1, ((v2.value % 4) * 64 + v3.value) as byte])
  }

  /** The inverse the encoder is proved against; it accepts padding only
      in the last group. */
  function Decode(s: string): Option<seq<byte>>
    decreases |s|
  {
    if s == [] then Some([])
    else if |s| < 4 then None
    else
      match DecodeGroup(s[..4])
      case None => None
      case Some(g) =>
        if |g| < 3 && |s| > 4 then None
        else
          match Decode(s[4..])
          case None => None
          case Some(rest) => Some(g + rest)
  }

  /** The four six-bit symbols of a group put the three bytes back together. */
  lemma GroupBits(b0: int, b1: int, b2: int)
    requires 0 <= b0 < 256 && 0 <= b1 < 256 && 0 <= b2 < 256
    ensures var c0, c1 := b0 / 4, (b0 % 4) * 16 + b1 / 16;
            var c2, c3 := (b1 % 16) * 4 + b2 / 64, b2 % 64;
      && c0 < 64 && c1 < 64 && c2 < 64 && c3 < 64
      && c0 * 4 + c1 / 16 == b0
      && (c1 % 16) * 16 + c2 / 4 == b1
      && (c2 % 4) * 64 + c3 == b2
  {
  }

  lemma DecodeFull(c0: nat, c1: nat, c2: nat, c3: nat)
    requires c0 < 64 && c1 < 64 && c2 < 64 && c3 < 64
    ensures DecodeGroup([Symbol(c0), Symbol(c1), Symbol(c2), Symbol(c3)])
      == Some([(c0 * 4 + c1 / 16) as byte, ((c1 % 16) * 16 + c2 / 4) as byte, ((c2 % 4) * 64 + c3) as byte])
  {
    SymbolRoundTrip(c0);
    SymbolRoundTrip(c1);
    SymbolRoundTrip(c2);
    SymbolRoundTrip(c3);
  }

  lemma DecodeTwo(c0: nat, c1: nat, c2: nat)
    requires c0 < 64 && c1 < 64 && c2 < 64
    ensures DecodeGroup([Symbol(c0), Symbol(c1), Symbol(c2), '='])
      == Some([(c0 * 4 + c1 / 16) as byte, ((c1 % 16) * 16 + c2 / 4) as byte])
  {
    SymbolRoundTrip(c0);
    SymbolRoundTrip(c1);
    SymbolRoundTrip(c2);
  }

  lemma DecodeOne(c0: nat, c1: nat)
    requires c0 < 64 && c1 < 64
    ensures DecodeGroup([Symbol(c0), Symbol(c1), '=', '=']) == Some([(c0 * 4 + c1 / 16) as byte])
  {
    SymbolRoundTrip(c0);
    SymbolRoundTrip(c1);
  }

  lemma GroupRoundTrip(g: seq<byte>)
    requires 1 <= |g| <= 3
    ensures DecodeGroup(EncodeGroup(g)) == Some(g)
  {
    var b0 := g[0] as int;
    var b1 := if |g| > 1 then g[1] as int else 0;
    var b2 := if |g| > 2 then g[2] as int else 0;
    GroupBits(b0, b1, b2);
    if |g| == 1 {
      GroupOfOne(g, b0 / 4, (b0 % 4) * 16 + b1 / 16);
    } else if |g| == 2 {
      GroupOfTwo(g, b0 / 4, (b0 % 4) * 16 + b1 / 16, (b1 % 16) * 4 + b2 / 64);
    } else {
      GroupOfThree(g, b0 / 4, (b0 % 4) * 16 + b1 / 16, (b1 % 16) * 4 + b2 / 64, b2 % 64);
    }
  }

  lemma GroupOfOne(g: seq<byte>, c0: nat, c1: nat)
    requires |g| == 1 && c0 < 64 && c1 < 64
    requires EncodeGroup(g) == [Symbol(c0), Symbol(c1), '=', '=']
    requires c0 * 4 + c1 / 16 == g[0] as int
    ensures DecodeGroup(EncodeGroup(g)) == Some(g)
  {
    DecodeOne(c0, c1);
    assert g == [g[0]];
  }

  lemma GroupOfTwo(g: seq<byte>, c0: nat, c1: nat, c2: nat)
    requires |g| == 2 && c0 < 64 && c1 < 64 && c2 < 64
    requires EncodeGroup(g) == [Symbol(c0), Symbol(c1), Symbol(c2), '=']
    requires c0 * 4 + c1 / 16 == g[0] as int && (c1 % 16) * 16 + c2 / 4 == g[1] as int
    ensures DecodeGroup(EncodeGroup(g)) == Some(g)
  {
    DecodeTwo(c0, c1, c2);
    assert g == [g[0], g[1]];
  }

  lemma GroupOfThree(g: seq<byte>, c0: nat, c1: nat, c2: nat, c3: nat)
    requires |g| == 3 && c0 < 64 && c1 < 64 && c2 < 64 && c3 < 64
    requires EncodeGroup(g) == [Symbol(c0), Symbol(c1), Symbol(c2), Symbol(c3)]
    requires c0 * 4 + c1 / 16 == g[0] as int && (c1 % 16) * 16 + c2 / 4 == g[1] as int
    requires (c2 % 4) * 64 + c3 == g[2] as int
    ensures DecodeGroup(EncodeGroup(g)) == Some(g)
  {
    DecodeFull(c0, c1, c2, c3);
    assert g == [g[0], g[1], g[2]];
  }

  /** Encoding loses nothing: decoding the encoding gives the bytes back. */
  lemma {:induction false} EncodeRoundTrip(b: seq<byte>)
    ensures Decode(Encode(b)) == Some(b)
    decreases |b|
  {
    if b == [] {
    } else if |b| <= 3 {
      GroupRoundTrip(b);
      var s := Encode(b);
      assert s == EncodeGroup(b);
      assert s[..4] == s && s[4..] == [];
      assert Decode(s[4..]) == Some([]) && b + [] == b;
    } else {
      var s := Encode(b);
      GroupRoundTrip(b[..3]);
      EncodeRoundTrip(b[3..]);
      assert s[..4] == EncodeGroup(b[..3]);
      assert s[4..] == Encode(b[3..]);
      assert b == b[..3] + b[3..];
    }
  }
}
