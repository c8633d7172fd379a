/** Base64 with the URL- and filename-safe alphabet of section 5 of RFC 4648,
    in the three forms the service uses: padded (`urlsafe_b64encode`),
    padding stripped (`.rstrip("=")`), and padding restored before
    `urlsafe_b64decode`; plus lower-case hexadecimal (`bytes.hex()`). */
module Base64 {
  import opened Common
  import opened Text

  /** The sextet value a symbol stands for. */
  type Sextet = x: int | 0 <= x < 64

  /** The symbol of the URL-safe alphabet for a sextet. */
  function Symbol(v: Sextet): (ch: char)
    ensures ch != '=' && ch != '+' && ch != '/'
  {
    if v < 26 then ('A' as int + v) as char
    else if v < 52 then ('a' as int + (v - 26)) as char
    else if v < 62 then ('0' as int + (v - 52)) as char
    else if v == 62 then '-'
    else '_'
  }

  /** The value of a symbol. Python's `urlsafe_b64decode` translates `-` and
      `_` to `+` and `/` before decoding, so both alphabets are accepted. */
  function SymbolValue(ch: char): Option<Sextet> {
    if 'A' <= ch <= 'Z' then Some(ch as int - 'A' as int)
    else if 'a' <= ch <= 'z' then Some(ch as int - 'a' as int + 26)
    else if '0' <= ch <= '9' then Some(ch as int - '0' as int + 52)
    else if ch == '-' || ch == '+' then Some(62)
    else if ch == '_' || ch == '/' then Some(63)
    else None
  }

  lemma SymbolValueOfSymbol(v: Sextet)
    ensures SymbolValue(Symbol(v)) == Some(v)
  {
  }

  /** The four sextets of three octets, most significant bits first. */
  function Sextets(b0: Byte, b1: Byte, b2: Byte): (Sextet, Sextet, Sextet, Sextet) {
    (b0 / 4, (b0 % 4) * 16 + b1 / 16, (b1 % 16) * 4 + b2 / 64, b2 % 64)
  }

  /** The three octets carried by four sextets. */
  function Octets(c0: Sextet, c1: Sextet, c2: Sextet, c3: Sextet): (Byte, Byte, Byte) {
    (c0 * 4 + c1 / 16, (c1 % 16) * 16 + c2 / 4, (c2 % 4) * 64 + c3)
  }

  /** Regrouping three octets into sextets and back loses nothing. */
  lemma OctetsOfSextets(b0: Byte, b1: Byte, b2: Byte)
    ensures var (c0, c1, c2, c3) := Sextets(b0, b1, b2); Octets(c0, c1, c2, c3) == (b0, b1, b2)
  {
    var q1 := b1 / 16;
    assert ((b0 % 4) * 16 + q1) / 16 == b0 % 4;
    assert ((b0 % 4) * 16 + q1) % 16 == q1;
    var q2 := b2 / 64;
    assert ((b1 % 16) * 4 + q2) / 4 == b1 % 16;
    assert ((b1 % 16) * 4 + q2) % 4 == q2;
  }

  /** The symbols of up to three bytes, without padding: 4, 3 or 2 symbols. */
  function EncodeGroup(g: Bytes): (r: string)
    requires 1 <= |g| <= 3
    ensures |r| == |g| + 1
    ensures '=' !in r && '+' !in r && '/' !in r
  {
    var (c0, c1, c2, c3) :=
      Sextets(g[0], if |g| > 1 then g[1] else 0, if |g| > 2 then g[2] else 0);
    [Symbol(c0), Symbol(c1), Symbol(c2), Symbol(c3)][..|g| + 1]
  }

  /** The number of symbols that encode `n` bytes. */
  function RawLength(n: nat): nat {
    if n == 0 then 0 else if n <= 3 then n + 1 else 4 + RawLength(n - 3)
  }

  /** A multiple of four symbols, plus two or three for a final partial group:
      never one more than a multiple of four. */
  lemma {:induction false} RawLengthMod(n: nat)
    ensures RawLength(n) % 4 == (if n % 3 == 0 then 0 else n % 3 + 1)
  {
    if n > 3 {
      RawLengthMod(n - 3);
    }
  }

  /** The symbols of `b` with no padding. */
  function EncodeRaw(b: Bytes): (r: string)
    ensures |r| == RawLength(|b|)
    ensures '=' !in r && '+' !in r && '/' !in r
  {
    if |b| == 0 then ""
    else if |b| <= 3 then EncodeGroup(b)
    else
      EncodeGroup(b[..3]) + EncodeRaw(b[3..])
  }

  /** `"=" * n` */
  function Pad(n: nat): (r: string)
    ensures |r| == n && forall i :: 0 <= i < n ==> r[i] == '='
  {
    if n == 0 then "" else "=" + Pad(n - 1)
  }

  /** The number of `=` that pad the symbols of `n` bytes. */
  function PadCount(n: nat): nat {
    if n % 3 == 0 then 0 else 3 - n % 3
  }

  /** `base64.urlsafe_b64encode(b)`: padded to a multiple of four. */
  function Encode(b: Bytes): (r: string)
    ensures |r| % 4 == 0
  {
    PaddedLength(|b|);
    EncodeRaw(b) + Pad(PadCount(|b|))
  }

  /** The symbols of `n` bytes and their padding fill whole groups of four. */
  lemma PaddedLength(n: nat)
    ensures (RawLength(n) + PadCount(n)) % 4 == 0
  {
    RawLengthMod(n);
    var q := RawLength(n);
    var k := q / 4;
    assert q == 4 * k + q % 4;
    if n % 3 != 0 {
      assert q + PadCount(n) == 4 * k + 4;
    }
  }

  /** `urlsafe_b64encode(b).rstrip("=")`: padding stripped. */
  function EncodeUnpadded(b: Bytes): string {
    RStripChar(Encode(b), '=')
  }

  /** Right-stripping `=` from symbols followed by padding removes exactly
      the padding. */
  lemma {:induction false} StripPad(raw: string, n: nat)
    requires '=' !in raw
    ensures RStripChar(raw + Pad(n), '=') == raw
  {
    var e := raw + Pad(n);
    if n == 0 {
      assert e == raw;
      if |raw| > 0 {
        assert raw[|raw| - 1] in raw;
      }
    } else {
      assert e[..|e| - 1] == raw + Pad(n - 1);
      StripPad(raw, n - 1);
    }
  }

  /** Stripping the padding leaves exactly the symbols. */
  lemma EncodeUnpaddedIsRaw(b: Bytes)
    ensures EncodeUnpadded(b) == EncodeRaw(b)
    ensures |EncodeUnpadded(b)| % 4 != 1
  {
    StripPad(EncodeRaw(b), PadCount(|b|));
    RawLengthMod(|b|);
  }

  /** Every character of the encoding is a symbol of the alphabet. */
  lemma {:induction false} EncodeRawAlphabet(b: Bytes)
    ensures forall i :: 0 <= i < |EncodeRaw(b)| ==> SymbolValue(EncodeRaw(b)[i]).Some?
  {
    if 0 < |b| <= 3 {
      var g := EncodeGroup(b);
      assert forall i :: 0 <= i < |g| ==> exists v: Sextet :: g[i] == Symbol(v);
    } else if |b| > 3 {
      EncodeRawAlphabet(b[3..]);
      var g := EncodeGroup(b[..3]);
      assert forall i :: 0 <= i < |g| ==> exists v: Sextet :: g[i] == Symbol(v);
    }
  }

  /** The stripped form is ASCII, so `compare_digest` accepts it. */
  lemma UnpaddedAscii(b: Bytes)
    ensures IsAscii(EncodeUnpadded(b))
  {
    EncodeUnpaddedIsRaw(b);
    EncodeRawAlphabet(b);
    forall ch | SymbolValue(ch).Some?
      ensures ch as int < 128
    {
    }
  }

  /** The stripped form holds neither dots nor spaces, so it can stand between
      the `.` separators of a token. */
  lemma UnpaddedHasNoSeparator(b: Bytes)
    ensures '.' !in EncodeUnpadded(b) && ' ' !in EncodeUnpadded(b)
  {
    EncodeUnpaddedIsRaw(b);
    EncodeRawAlphabet(b);
    assert SymbolValue('.').None? && SymbolValue(' ').None?;
  }

  /** `4 - len(s) % 4` equals signs appended unless that is 4, as the decoders
      in the service do before `urlsafe_b64decode`. */
  function RestorePadding(s: string): (r: string)
    ensures |r| % 4 == 0
  {
    var p := 4 - |s| % 4;
    if p != 4 then s + Pad(p) else s
  }

  /** Decoding of symbols with no padding: groups of four give three bytes, a
      final group of three or two gives two or one. A final group of one symbol
      or a character outside the alphabet is an error. Non-zero unused bits in
      the last symbol are accepted, as Python does by default. */
  function DecodeRaw(s: string): (r: Option<Bytes>)
  {
    if |s| == 0 then Some([])
    else if |s| == 1 then None
    else
      var n := if |s| >= 4 then 4 else |s|;
      var v0 := SymbolValue(s[0]);
      var v1 := SymbolValue(s[1]);
      var v2 := if n > 2 then SymbolValue(s[2]) else Some(0);
      var v3 := if n > 3 then SymbolValue(s[3]) else Some(0);
      if v0.None? || v1.None? || v2.None? || v3.None? then None
      else
        var (o0, o1, o2) := Octets(v0.value, v1.value, v2.value, v3.value);
        match DecodeRaw(s[n..])
        case None => None
        case Some(rest) => Some([o0, o1, o2][..n - 1] + rest)
  }

  /** `urlsafe_b64decode` on padded input: the length must be a multiple of
      four and at most two trailing `=` may follow the symbols. */
  function DecodePadded(s: string): (r: Option<Bytes>)
  {
    if |s| % 4 != 0 then None
    else
      var body := RStripChar(s, '=');
      if |s| - |body| > 2 then None else DecodeRaw(body)
  }

  /** Decoding the symbols of one group followed by more symbols decodes the
      group, then the rest. */
  lemma DecodeGroupThen(g: Bytes, rest: string)
    requires 1 <= |g| <= 3
    requires |g| < 3 ==> rest == ""
    ensures DecodeRaw(EncodeGroup(g) + rest) ==
      match DecodeRaw(rest)
      case None => None
      case Some(t) => Some(g + t)
  {
    var b1: Byte := if |g| > 1 then g[1] else 0;
    var b2: Byte := if |g| > 2 then g[2] else 0;
    var (c0, c1, c2, c3) := Sextets(g[0], b1, b2);
    OctetsOfSextets(g[0], b1, b2);
    SymbolValueOfSymbol(c0);
    SymbolValueOfSymbol(c1);
    SymbolValueOfSymbol(c2);
    SymbolValueOfSymbol(c3);
    var e := EncodeGroup(g) + rest;
    assert e[|g| + 1..] == rest;
    assert [g[0], b1, b2][..|g|] == g;
  }

  /** Decoding the symbols of `b` gives back `b`. */
  lemma {:induction false} DecodeEncodeRaw(b: Bytes)
    ensures DecodeRaw(EncodeRaw(b)) == Some(b)
  {
    if 0 < |b| <= 3 {
      DecodeGroupThen(b, "");
      assert EncodeGroup(b) + "" == EncodeRaw(b);
      assert b + [] == b;
    } else if |b| > 3 {
      DecodeEncodeRaw(b[3..]);
      DecodeGroupThen(b[..3], EncodeRaw(b[3..]));
      assert b[..3] + b[3..] == b;
    }
  }

  /** The round trip of the padded form (`urlsafe_b64decode(urlsafe_b64encode(b)) == b`). */
  lemma DecodeEncode(b: Bytes)
    ensures DecodePadded(Encode(b)) == Some(b)
  {
    EncodeUnpaddedIsRaw(b);
    DecodeEncodeRaw(b);
  }

  /** Restoring the padding of the stripped form gives the padded form. */
  lemma RestoreUnpadded(b: Bytes)
    ensures RestorePadding(EncodeUnpadded(b)) == Encode(b)
  {
    EncodeUnpaddedIsRaw(b);
    RawLengthMod(|b|);
  }

  /** The round trip of the stripped form through padding restoration. */
  lemma DecodeRestoredUnpadded(b: Bytes)
    ensures DecodePadded(RestorePadding(EncodeUnpadded(b))) == Some(b)
  {
    RestoreUnpadded(b);
    DecodeEncode(b);
  }

  /** Restoring padding adds only `=` and keeps what was there. */
  lemma RestorePaddingPrefix(s: string)
    ensures |s| <= |RestorePadding(s)| < |s| + 4
    ensures RestorePadding(s)[..|s|] == s
    ensures forall i :: |s| <= i < |RestorePadding(s)| ==> RestorePadding(s)[i] == '='
  {
  }

  /** A stripped string of length one more than a multiple of four never
      decodes (Python raises `binascii.Error`). */
  lemma DecodeLengthOne(s: string)
    requires '=' !in s && |s| % 4 == 1
    ensures DecodePadded(RestorePadding(s)) == None
  {
    var r := RestorePadding(s);
    var k := TrailingCount(r, ch => ch == '=');
    assert r[..|s|] == s;
  }

  /** The lower-case hex digit of a value below 16. */
  function HexDigit(v: nat): char
    requires v < 16
  {
    if v < 10 then ('0' as int + v) as char else ('a' as int + (v - 10)) as char
  }

  /** `bytes.hex()`: two lower-case hex digits per byte. */
  function Hex(b: Bytes): (r: string)
    ensures |r| == 2 * |b|
  {
    if |b| == 0 then "" else [HexDigit(b[0] / 16), HexDigit(b[0] % 16)] + Hex(b[1..])
  }

  function HexValue(ch: char): Option<nat> {
    if '0' <= ch <= '9' then Some(ch as int - '0' as int)
    else if 'a' <= ch <= 'f' then Some(ch as int - 'a' as int + 10)
    else None
  }

  /** `bytes.fromhex` on lower-case digits with no separators. */
  function Unhex(s: string): (r: Option<Bytes>)
    ensures r.Some? ==> 2 * |r.value| == |s|
  {
    if |s| == 0 then Some([])
    else if |s| == 1 then None
    else
      match (HexValue(s[0]), HexValue(s[1]))
      case (Some(h), Some(l)) =>
        if h < 16 && l < 16 then
          match Unhex(s[2..])
          case Some(rest) => Some([h * 16 + l] + rest)
          case None => None
        else None
      case _ => None
  }

  lemma {:induction false} UnhexHex(b: Bytes)
    ensures Unhex(Hex(b)) == Some(b)
  {
    if |b| > 0 {
      UnhexHex(b[1..]);
      var h := Hex(b);
      var hi, lo := b[0] / 16, b[0] % 16;
      assert HexValue(h[0]) == Some(hi) && HexValue(h[1]) == Some(lo);
      assert hi * 16 + lo == b[0];
      assert h[2..] == Hex(b[1..]);
      assert b == [b[0]] + b[1..];
    }
  }

  /** Distinct byte strings have distinct hex forms, so comparing hex digests
      compares the digests. */
  lemma HexInjective(a: Bytes, b: Bytes)
    requires Hex(a) == Hex(b)
    ensures a == b
  {
    UnhexHex(a);
    UnhexHex(b);
  }

  /** Every character of a hex form is a lower-case hex digit. */
  lemma {:induction false} HexChars(b: Bytes)
    ensures forall i :: 0 <= i < |Hex(b)| ==> HexValue(Hex(b)[i]).Some?
  {
    if |b| > 0 {
      HexChars(b[1..]);
      assert Hex(b) == [HexDigit(b[0] / 16), HexDigit(b[0] % 16)] + Hex(b[1..]);
    }
  }

  /** A hex form is ASCII. */
  lemma HexAscii(b: Bytes)
    ensures IsAscii(Hex(b))
  {
    HexChars(b);
    forall ch | HexValue(ch).Some?
      ensures ch as int < 128
    {
    }
  }
}
