/** Secret storage helpers of the backend: the AES-256-GCM blob that holds
    stored tokens, PBKDF2 hashing of access codes, and slug generation. The
    random nonce, salt, key and suffix bytes are parameters. */
module TokenCrypto {
  import opened Common
  import opened Text
  import opened Base64
  import opened Crypto

  /** AES-GCM's recommended 96-bit nonce. */
  const NonceSize: nat := 12

  /** The authentication tag AES-GCM appends. */
  const TagSize: nat := 16

  const KeySize: nat := 32

  const HashIterations: nat := 100000

  /** Why an operation raises: the key or the data is not base64
      (`binascii.Error`), the key is not 32 bytes, the blob is shorter than
      a nonce and a tag, or the tag or the text does not check out (each a
      `ValueError`). */
  datatype BlobError = NotBase64 | WrongKeySize | InvalidData | DecryptionFailed

  /** `generate_encryption_key` with the 32 random bytes given. */
  function GenerateEncryptionKey(random: Bytes): string
    requires |random| == KeySize
  {
    Encode(random)
  }

  /** `_get_key_bytes`: `urlsafe_b64decode`, falling back to `b64decode`.
      Modelled by the strict decoder, which accepts both alphabets but
      refuses any other character and bad padding; Python's decoders are
      laxer (they drop characters outside their alphabet, and the fallback
      drops `-` and `_`), so some keys they read are refused here. */
  function KeyBytes(key: string): Option<Bytes> {
    DecodePadded(key)
  }

  /** The key check both `encrypt` and `decrypt` start with. */
  function CheckedKey(key: string): (r: Result<Bytes, BlobError>)
    ensures r.Ok? <==> KeyBytes(key).Some? && |KeyBytes(key).value| == KeySize
    ensures r.Ok? ==> r.value == KeyBytes(key).value
    ensures r.Err? ==> r.error == if KeyBytes(key).None? then NotBase64 else WrongKeySize
  {
    match KeyBytes(key)
    case None => Err(NotBase64)
    case Some(k) => if |k| != KeySize then Err(WrongKeySize) else Ok(k)
  }

  /** `encrypt` with the nonce given: base64url of the nonce followed by
      the sealed UTF-8 text and its tag. */
  function Encrypt(c: Crypto, plaintext: string, key: string, nonce: Bytes): (r: Result<string, BlobError>)
    requires |nonce| == NonceSize
    ensures r.Err? <==> CheckedKey(key).Err?
    ensures r.Err? ==> r.error == CheckedKey(key).error
  {
    match CheckedKey(key)
    case Err(e) => Err(e)
    case Ok(k) => Ok(Encode(nonce + c.gcmSeal(k, nonce, c.utf8(plaintext))))
  }

  /** The blob is long enough, its tag verifies under the key, and the
      opened bytes are the UTF-8 of the text. */
  predicate OpensTo(c: Crypto, k: Bytes, combined: Bytes, text: string) {
    && |combined| >= NonceSize + TagSize
    && c.gcmOpen(k, combined[..NonceSize], combined[NonceSize..]).Some?
    && c.fromUtf8(c.gcmOpen(k, combined[..NonceSize], combined[NonceSize..]).value) == Some(text)
  }

  /** `decrypt`: the first twelve bytes are the nonce, the rest the sealed
      text and tag; shorter than 28 bytes is rejected before opening. */
  function Decrypt(c: Crypto, encrypted: string, key: string): (r: Result<string, BlobError>)
    ensures CheckedKey(key).Err? ==> r == Err(CheckedKey(key).error)
    ensures CheckedKey(key).Ok? && DecodePadded(encrypted).None? ==> r == Err(NotBase64)
    ensures CheckedKey(key).Ok? && DecodePadded(encrypted).Some? && |DecodePadded(encrypted).value| < NonceSize + TagSize ==>
      r == Err(InvalidData)
    ensures r.Ok? <==> (CheckedKey(key).Ok? && DecodePadded(encrypted).Some?
      && exists text :: OpensTo(c, CheckedKey(key).value, DecodePadded(encrypted).value, text))
    ensures r.Ok? ==> OpensTo(c, CheckedKey(key).value, DecodePadded(encrypted).value, r.value)
  {
    match CheckedKey(key)
    case Err(e) => Err(e)
    case Ok(k) =>
      match DecodePadded(encrypted)
      case None => Err(NotBase64)
      case Some(combined) =>
        if |combined| < NonceSize + TagSize then Err(InvalidData)
        else
          match c.gcmOpen(k, combined[..NonceSize], combined[NonceSize..])
          case None => Err(DecryptionFailed)
          case Some(p) =>
            match c.fromUtf8(p)
            case None => Err(DecryptionFailed)
            case Some(text) =>
              assert OpensTo(c, k, combined, text);
              Ok(text)
  }

  /** `decrypt(encrypt(p, k), k) == p` for a valid key. */
  lemma DecryptEncrypt(c: Crypto, plaintext: string, key: string, nonce: Bytes)
    requires GcmSound(c) && Utf8RoundTrip(c)
    requires |nonce| == NonceSize && CheckedKey(key).Ok?
    ensures Encrypt(c, plaintext, key, nonce).Ok?
    ensures Decrypt(c, Encrypt(c, plaintext, key, nonce).value, key) == Ok(plaintext)
  {
    var k := CheckedKey(key).value;
    var sealed := c.gcmSeal(k, nonce, c.utf8(plaintext));
    var combined := nonce + sealed;
    DecodeEncode(combined);
    assert combined[..NonceSize] == nonce && combined[NonceSize..] == sealed;
  }

  /** A generated key is accepted by both `encrypt` and `decrypt`. */
  lemma GeneratedKeyAccepted(random: Bytes)
    requires |random| == KeySize
    ensures CheckedKey(GenerateEncryptionKey(random)) == Ok(random)
  {
    DecodeEncode(random);
  }

  /** `hash_code` with the salt given: the PBKDF2-SHA256 key of the code and
      the salt, both in padded base64url. */
  function HashCode(c: Crypto, code: string, salt: Bytes): (string, string) {
    (Encode(c.pbkdf2(c.utf8(code), salt, HashIterations, 32)), Encode(salt))
  }

  /** `verify_code`: a salt that does not decode raises; otherwise the
      answer is whether the stored hash decodes to the key derived from the
      code, and a mismatch is False, not an exception. */
  function VerifyCode(c: Crypto, code: string, storedHash: string, storedSalt: string): (r: Result<bool, BlobError>)
    ensures r.Err? <==> DecodePadded(storedSalt).None?
    ensures r == Ok(true) <==> (DecodePadded(storedSalt).Some?
      && DecodePadded(storedHash) == Some(c.pbkdf2(c.utf8(code), DecodePadded(storedSalt).value, HashIterations, 32)))
  {
    match DecodePadded(storedSalt)
    case None => Err(NotBase64)
    case Some(salt) =>
      match DecodePadded(storedHash)
      case None => Ok(false)
      case Some(expected) => Ok(expected == c.pbkdf2(c.utf8(code), salt, HashIterations, 32))
  }

  /** `verify_code(c, *hash_code(c, s))` is True. */
  lemma VerifyHashedCode(c: Crypto, code: string, salt: Bytes)
    ensures VerifyCode(c, code, HashCode(c, code, salt).0, HashCode(c, code, salt).1) == Ok(true)
  {
    DecodeEncode(salt);
    DecodeEncode(c.pbkdf2(c.utf8(code), salt, HashIterations, 32));
  }

  /** A code whose derived key differs from the stored one is refused. */
  lemma VerifyOtherCode(c: Crypto, code: string, other: string, salt: Bytes)
    requires c.pbkdf2(c.utf8(other), salt, HashIterations, 32) != c.pbkdf2(c.utf8(code), salt, HashIterations, 32)
    ensures VerifyCode(c, other, HashCode(c, code, salt).0, HashCode(c, code, salt).1) == Ok(false)
  {
    DecodeEncode(salt);
    DecodeEncode(c.pbkdf2(c.utf8(code), salt, HashIterations, 32));
  }

  /** `generate_token` with the random bytes given: unpadded base64url. */
  function GenerateToken(random: Bytes): string {
    EncodeUnpadded(random)
  }

  /** The token carries the random bytes, recoverable once the padding is
      restored. */
  lemma GenerateTokenDecodes(random: Bytes)
    ensures DecodePadded(RestorePadding(GenerateToken(random))) == Some(random)
  {
    DecodeRestoredUnpadded(random);
  }

  /** The characters a slug keeps: `[a-z0-9]`. */
  predicate SlugChar(ch: char) {
    'a' <= ch <= 'z' || '0' <= ch <= '9'
  }

  predicate NotSlugChar(ch: char) {
    !SlugChar(ch)
  }

  /** `re.sub(r'[^a-z0-9]+', '-', s)`: each maximal run of other characters
      becomes one `-`. */
  function CollapseRuns(s: string): (r: string)
    ensures forall i :: 0 <= i < |r| ==> SlugChar(r[i]) || r[i] == '-'
    ensures forall i :: 0 <= i < |r| - 1 ==> r[i] != '-' || r[i + 1] != '-'
    ensures |s| == 0 <==> |r| == 0
    ensures |s| > 0 ==> (r[0] == '-' <==> !SlugChar(s[0]))
    decreases |s|
  {
    if |s| == 0 then ""
    else if SlugChar(s[0]) then [s[0]] + CollapseRuns(s[1..])
    else
      var rest := LStripBy(s[1..], NotSlugChar);
      "-" + CollapseRuns(rest)
  }

  /** Text over `[a-z0-9-]` with no two `-` in a row. */
  predicate SlugText(s: string) {
    && (forall i :: 0 <= i < |s| ==> SlugChar(s[i]) || s[i] == '-')
    && (forall i :: 0 <= i < |s| - 1 ==> s[i] != '-' || s[i + 1] != '-')
  }

  /** What `generate_slug` puts before the suffix: at most 20 characters of
      slug text, neither starting nor ending with `-`. */
  predicate IsSlug(s: string) {
    SlugText(s) && |s| <= 20 && (|s| > 0 ==> s[0] != '-' && s[|s| - 1] != '-')
  }

  /** Slug text stays slug text when cut. */
  lemma SlugTextSlice(s: string, a: nat, b: nat)
    requires SlugText(s) && a <= b <= |s|
    ensures SlugText(s[a..b])
  {
    var t := s[a..b];
    assert forall i :: 0 <= i < |t| ==> t[i] == s[a + i];
  }

  /** Stripping `-` from both ends of slug text leaves text that neither
      starts nor ends with `-`. */
  lemma StripDashes(s: string)
    requires SlugText(s)
    ensures var t := StripChar(s, '-');
      SlugText(t) && (|t| > 0 ==> t[0] != '-' && t[|t| - 1] != '-')
  {
    var drop := ch => ch == '-';
    var n := LeadingCount(s, drop);
    var u := s[n..];
    SlugTextSlice(s, n, |s|);
    var m := TrailingCount(u, drop);
    SlugTextSlice(u, 0, |u| - m);
    var t := u[..|u| - m];
    assert StripChar(s, '-') == t;
    if |t| > 0 {
      assert t[0] == u[0];
      assert !drop(u[0]);
      assert t[|t| - 1] == u[|u| - m - 1];
    }
  }

  /** The part of `generate_slug` before the suffix: lower-cased,
      whitespace-stripped, runs collapsed, `-` stripped, then cut to 20
      characters and right-stripped of `-` again. */
  function SlugBase(base: string): string {
    var s := StripChar(CollapseRuns(Strip(Lower(base))), '-');
    if |s| > 20 then RStripChar(s[..20], '-') else s
  }

  /** Every slug base is a slug. */
  lemma SlugBaseIsSlug(base: string)
    ensures IsSlug(SlugBase(base))
  {
    var c := CollapseRuns(Strip(Lower(base)));
    StripDashes(c);
    var s := StripChar(c, '-');
    if |s| > 20 {
      SlugTextSlice(s, 0, 20);
      assert s[..20][0] == s[0];
      TrimTrailingDashes(s[..20]);
    }
  }

  /** Right-stripping `-` from slug text that does not start with `-`
      leaves slug text, no longer, that neither starts nor ends with `-`. */
  lemma TrimTrailingDashes(u: string)
    requires SlugText(u) && (|u| > 0 ==> u[0] != '-')
    ensures var t := RStripChar(u, '-');
      SlugText(t) && |t| <= |u| && (|t| > 0 ==> t[0] != '-' && t[|t| - 1] != '-')
  {
    var m := TrailingCount(u, ch => ch == '-');
    SlugTextSlice(u, 0, |u| - m);
    var t := u[..|u| - m];
    assert RStripChar(u, '-') == t;
    if |t| > 0 {
      assert t[0] == u[0];
    }
  }

  /** Slug text that does not start with `-` after a `-` is left as it is
      by the run collapse. */
  lemma {:induction false} CollapseSlugText(s: string)
    requires SlugText(s)
    ensures CollapseRuns(s) == s
    decreases |s|
  {
    if |s| > 0 {
      SlugTextSlice(s, 1, |s|);
      CollapseSlugText(s[1..]);
      if !SlugChar(s[0]) {
        var rest := s[1..];
        assert |rest| > 0 ==> SlugChar(rest[0]);
        assert LeadingCount(rest, NotSlugChar) == 0;
        assert LStripBy(rest, NotSlugChar) == rest;
      }
    }
  }

  /** A slug is its own slug base: `generate_slug` reproduces the slug part
      of a slug it made. */
  lemma SlugBaseOfSlug(s: string)
    requires IsSlug(s)
    ensures SlugBase(s) == s
  {
    LowerSlug(s);
    if |s| > 0 {
      assert !IsSpace(s[0]) && !IsSpace(s[|s| - 1]);
      StripIdentity(s);
    }
    CollapseSlugText(s);
    StripDashesOfSlug(s);
  }

  /** Slug text is already lower-case. */
  lemma LowerSlug(s: string)
    requires SlugText(s)
    ensures Lower(s) == s
  {
    var l := Lower(s);
    forall i | 0 <= i < |s| ensures l[i] == s[i] {
    }
  }

  /** A slug neither starts nor ends with `-`, so stripping `-` keeps it. */
  lemma StripDashesOfSlug(s: string)
    requires IsSlug(s)
    ensures StripChar(s, '-') == s
  {
  }

  /** The slug base is idempotent. */
  lemma SlugBaseIdempotent(base: string)
    ensures SlugBase(SlugBase(base)) == SlugBase(base)
  {
    SlugBaseIsSlug(base);
    SlugBaseOfSlug(SlugBase(base));
  }

  /** `generate_slug` with the three random bytes of `token_hex(3)` given:
      the slug base, a `-` and the six hex digits, or the digits alone when
      the base leaves nothing. */
  function GenerateSlug(base: string, random: Bytes): string
    requires |random| == 3
  {
    var slug := SlugBase(base);
    var suffix := Hex(random);
    if slug != "" then slug + "-" + suffix else suffix
  }

  /** The slug reads back: its last six characters are the hex of the
      random bytes, and what precedes them is either nothing or the slug
      base and a `-`. */
  lemma GenerateSlugParts(base: string, random: Bytes)
    requires |random| == 3
    ensures var r := GenerateSlug(base, random);
      && 6 <= |r| <= 27
      && Unhex(r[|r| - 6..]) == Some(random)
      && (if SlugBase(base) == "" then |r| == 6 else r[..|r| - 7] == SlugBase(base) && r[|r| - 7] == '-')
      && (forall i :: 0 <= i < |r| ==> SlugChar(r[i]) || r[i] == '-')
  {
    var slug := SlugBase(base);
    var suffix := Hex(random);
    SlugBaseIsSlug(base);
    UnhexHex(random);
    HexIsSlugText(random);
    if slug != "" {
      SlugWithSuffix(slug, suffix);
    }
  }

  /** A slug, a `-` and a suffix: each part is where it was put, and the
      whole is over `[a-z0-9-]`. */
  lemma SlugWithSuffix(slug: string, suffix: string)
    requires forall i :: 0 <= i < |slug| ==> SlugChar(slug[i]) || slug[i] == '-'
    requires |suffix| == 6 && forall i :: 0 <= i < |suffix| ==> SlugChar(suffix[i])
    ensures var r := slug + "-" + suffix;
      && |r| == |slug| + 7
      && r[|r| - 6..] == suffix && r[..|r| - 7] == slug && r[|r| - 7] == '-'
      && (forall i :: 0 <= i < |r| ==> SlugChar(r[i]) || r[i] == '-')
  {
    var r := slug + "-" + suffix;
    assert r[|r| - 6..] == suffix;
    assert r[..|r| - 7] == slug;
    forall i | 0 <= i < |r|
      ensures SlugChar(r[i]) || r[i] == '-'
    {
      if i >= |slug| + 1 {
        assert r[i] == suffix[i - |slug| - 1];
      } else if i < |slug| {
        assert r[i] == slug[i];
      }
    }
  }

  /** Every character of the hex of bytes is a slug character. */
  lemma HexIsSlugText(b: Bytes)
    ensures forall i :: 0 <= i < |Hex(b)| ==> SlugChar(Hex(b)[i])
  {
    forall i | 0 <= i < |Hex(b)|
      ensures SlugChar(Hex(b)[i])
    {
      HexDigitChar(b, i);
    }
  }

  /** The hex of bytes is lower-case digits and letters. */
  lemma HexDigitChar(b: Bytes, i: nat)
    requires i < |Hex(b)|
    ensures SlugChar(Hex(b)[i])
  {
    HexChars(b);
  }
}
