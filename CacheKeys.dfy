/**
 * The cache keys of MessageCacheAdapter: "msg-svc-{userId}-list-{hash}", where the hash is the
 * lowercase hex of the MD5 digest of "page={page}&size={size}", or "{page}-{size}" when the
 * runtime offers no MD5. MD5 itself (RFC 1321) is a parameter: the digest function is opaque to
 * this model, which proves only what the key format and the hex encoding guarantee around it.
 */
module CacheKeys {
  import opened Wrappers
  import opened JavaInts
  import opened Pagination

  const CACHE_PREFIX: string := "msg-svc"
  const LIST_SUFFIX: string := "list"

  /** MessageDigest.getInstance("MD5"): a digest function, or NoSuchAlgorithmException. */
  datatype DigestProvider = Md5(digest: seq<JavaByte> -> seq<JavaByte>) | NoSuchAlgorithm

  /** An MD5 implementation yields 16 bytes for every message. */
  ghost predicate SixteenByteDigest(md: DigestProvider)
  {
    md.Md5? ==> forall m :: |md.digest(m)| == 16
  }

  // ---------------------------------------------------------------------------------------------
  // The digested text
  // ---------------------------------------------------------------------------------------------

  /** The text "page=%d&size=%d" that is digested. */
  function ParamsString(p: Pageable): string
  {
    "page=" + IntToDecimal(p.page) + "&size=" + IntToDecimal(p.size)
  }

  predicate IsAscii(s: string)
  {
    forall i :: 0 <= i < |s| ==> s[i] as int < 128
  }

  /** String.getBytes(UTF_8) of ASCII text: one byte per character, with the character's code. */
  function Utf8(s: string): (bs: seq<JavaByte>)
    requires IsAscii(s)
    ensures |bs| == |s| && forall i :: 0 <= i < |s| ==> bs[i] == s[i] as int
  {
    seq(|s|, i requires 0 <= i < |s| => s[i] as int as JavaByte)
  }

  lemma DecimalIsAscii(i: int)
    ensures IsAscii(IntToDecimal(i))
  {
    var s := IntToDecimal(i);
    forall k | 0 <= k < |s|
      ensures s[k] as int < 128
    {
      if k > 0 {
        assert IsDigit(s[k]);
      }
    }
  }

  lemma ParamsStringIsAscii(p: Pageable)
    ensures IsAscii(ParamsString(p))
  {
    DecimalIsAscii(p.page);
    DecimalIsAscii(p.size);
  }

  /** params.getBytes(UTF_8): the bytes handed to the digest. */
  function DigestInput(p: Pageable): (bs: seq<JavaByte>)
    ensures |bs| == |ParamsString(p)| && forall i :: 0 <= i < |bs| ==> bs[i] == ParamsString(p)[i] as int
  {
    ParamsStringIsAscii(p);
    Utf8(ParamsString(p))
  }

  /**
   * A decimal numeral followed by text that does not start with a digit is read back unambiguously:
   * the number and the rest are both determined.
   */
  lemma DecimalPrefixUnique(x: int, y: int, r1: string, r2: string)
    requires IntToDecimal(x) + r1 == IntToDecimal(y) + r2
    requires |r1| > 0 && |r2| > 0 && !IsDigit(r1[0]) && !IsDigit(r2[0])
    ensures x == y && r1 == r2
  {
    var a, b := IntToDecimal(x), IntToDecimal(y);
    assert |a| == |b| by {
      var n := if |a| < |b| then |a| else |b|;
      DigitAt(x, r1, n);
      DigitAt(y, r2, n);
    }
    assert a == (a + r1)[..|a|] == (b + r2)[..|b|] == b;
    IntToDecimalInjective(x, y);
    assert r1 == (a + r1)[|a|..] == (b + r2)[|b|..] == r2;
  }

  /** Within a numeral followed by a non-digit, the characters after the sign are digits exactly up to the numeral's end. */
  lemma DigitAt(x: int, r: string, n: nat)
    requires |r| > 0 && !IsDigit(r[0])
    requires 1 <= n <= |IntToDecimal(x)|
    ensures IsDigit((IntToDecimal(x) + r)[n]) <==> n < |IntToDecimal(x)|
  {
  }

  /** Distinct pageables are digested from distinct texts. */
  lemma ParamsStringInjective(p: Pageable, q: Pageable)
    requires ParamsString(p) == ParamsString(q)
    ensures p == q
  {
    var tail1 := "&size=" + IntToDecimal(p.size);
    var tail2 := "&size=" + IntToDecimal(q.size);
    assert ParamsString(p) == "page=" + (IntToDecimal(p.page) + tail1);
    assert ParamsString(q) == "page=" + (IntToDecimal(q.page) + tail2);
    assert IntToDecimal(p.page) + tail1 == ParamsString(p)[5..] == ParamsString(q)[5..] == IntToDecimal(q.page) + tail2;
    DecimalPrefixUnique(p.page, q.page, tail1, tail2);
    assert IntToDecimal(p.size) == tail1[6..] == tail2[6..] == IntToDecimal(q.size);
    IntToDecimalInjective(p.size, q.size);
  }

  // ---------------------------------------------------------------------------------------------
  // Hex encoding of the digest
  // ---------------------------------------------------------------------------------------------

  const HEX_DIGITS: string := "0123456789abcdef"

  predicate IsLowerHex(c: char)
  {
    '0' <= c <= '9' || 'a' <= c <= 'f'
  }

  function HexDigit(d: nat): (c: char)
    requires d < 16
    ensures IsLowerHex(c) && HexValue(c) == d
  {
    HEX_DIGITS[d]
  }

  /** The value of a lowercase hex digit (0 for any other character). */
  function HexValue(c: char): (d: nat)
    ensures d < 16
  {
    if '0' <= c <= '9' then c as int - '0' as int
    else if 'a' <= c <= 'f' then c as int - 'a' as int + 10
    else 0
  }

  /** `0xff & b`: the byte read as unsigned. */
  function Unsigned(b: JavaByte): (u: nat)
    ensures u < 256
  {
    if b < 0 then b as int + 256 else b as int
  }

  /** The signed byte with unsigned value u (the inverse of Unsigned). */
  function Signed(u: nat): (b: JavaByte)
    requires u < 256
    ensures Unsigned(b) == u
  {
    if u < 128 then u else u - 256
  }

  /** Integer.toHexString of a non-negative int: lowercase hex digits without leading zeros. */
  function ToHexString(n: nat): (s: string)
    ensures |s| >= 1 && (|s| == 1 <==> n < 16)
    ensures forall i :: 0 <= i < |s| ==> IsLowerHex(s[i])
  {
    if n < 16 then [HexDigit(n)] else ToHexString(n / 16) + [HexDigit(n % 16)]
  }

  /** One loop step: toHexString(0xff & b), left-padded with '0' when it has a single digit. */
  function HexPair(b: JavaByte): string
  {
    var hex := ToHexString(Unsigned(b));
    if |hex| == 1 then ['0'] + hex else hex
  }

  /** Every byte becomes its two hex digits, high nibble first. */
  lemma HexPairDigits(b: JavaByte)
    ensures HexPair(b) == [HexDigit(Unsigned(b) / 16), HexDigit(Unsigned(b) % 16)]
  {
    var u := Unsigned(b);
    if u >= 16 {
      assert ToHexString(u / 16) == [HexDigit(u / 16)];
    }
  }

  /** The string the for-each loop builds: the pairs of all bytes, in order. */
  function Hex(bs: seq<JavaByte>): string
  {
    if bs == [] then [] else Hex(bs[..|bs| - 1]) + HexPair(bs[|bs| - 1])
  }

  lemma {:induction false} HexShape(bs: seq<JavaByte>)
    ensures |Hex(bs)| == 2 * |bs|
    ensures forall i :: 0 <= i < |Hex(bs)| ==> IsLowerHex(Hex(bs)[i])
  {
    if bs != [] {
      HexShape(bs[..|bs| - 1]);
      HexPairDigits(bs[|bs| - 1]);
    }
  }

  /** Reads a lowercase hex string back into bytes, two digits per byte. */
  function Unhex(s: string): seq<JavaByte>
  {
    if |s| < 2 then []
    else Unhex(s[..|s| - 2]) + [Signed(16 * HexValue(s[|s| - 2]) + HexValue(s[|s| - 1]))]
  }

  /** A byte's two hex digits read back as that byte. */
  lemma HexPairDecodes(b: JavaByte)
    ensures |HexPair(b)| == 2
    ensures Signed(16 * HexValue(HexPair(b)[0]) + HexValue(HexPair(b)[1])) == b
  {
    HexPairDigits(b);
    var u := Unsigned(b);
    assert 16 * (u / 16) + u % 16 == u;
  }

  /** Unhex reads one more pair as one more byte. */
  lemma UnhexSnoc(t: string, h: string)
    requires |h| == 2
    ensures Unhex(t + h) == Unhex(t) + [Signed(16 * HexValue(h[0]) + HexValue(h[1]))]
  {
    var s := t + h;
    assert s[..|s| - 2] == t;
  }

  /** Decoding the hex text gives back the digest bytes. */
  lemma {:induction false} HexRoundTrip(bs: seq<JavaByte>)
    ensures Unhex(Hex(bs)) == bs
  {
    if bs != [] {
      var init, b := bs[..|bs| - 1], bs[|bs| - 1];
      var h := HexPair(b);
      HexPairDecodes(b);
      calc {
        Unhex(Hex(bs));
        Unhex(Hex(init) + h);
        { UnhexSnoc(Hex(init), h); }
        Unhex(Hex(init)) + [Signed(16 * HexValue(h[0]) + HexValue(h[1]))];
        { HexRoundTrip(init); }
        init + [b];
        bs;
      }
    }
  }

  /** Distinct digests give distinct hex strings. */
  lemma HexInjective(a: seq<JavaByte>, b: seq<JavaByte>)
    requires Hex(a) == Hex(b)
    ensures a == b
  {
    HexRoundTrip(a);
    HexRoundTrip(b);
  }

  /** The hex loop of generateParametersHash. */
  method HexEncode(hash: seq<JavaByte>) returns (s: string)
    ensures s == Hex(hash)
  {
    s := [];
    for i := 0 to |hash|
      invariant s == Hex(hash[..i])
    {
      var hex := ToHexString(Unsigned(hash[i]));
      if |hex| == 1 {
        s := s + ['0'];
      }
      s := s + hex;
      assert hash[..i + 1][..i] == hash[..i];
    }
    assert hash[..|hash|] == hash;
  }

  // ---------------------------------------------------------------------------------------------
  // Parameter hash and key
  // ---------------------------------------------------------------------------------------------

  /** generateParametersHash: hex of the digest, or "%d-%d" of page and size without MD5. */
  function ParametersHash(md: DigestProvider, p: Pageable): (h: string)
    ensures md.NoSuchAlgorithm? ==> h == IntToDecimal(p.page) + "-" + IntToDecimal(p.size)
    ensures md.Md5? && SixteenByteDigest(md) ==> |h| == 32 && forall i :: 0 <= i < |h| ==> IsLowerHex(h[i])
  {
    match md
    case NoSuchAlgorithm => IntToDecimal(p.page) + "-" + IntToDecimal(p.size)
    case Md5(digest) =>
      var bs := digest(DigestInput(p));
      HexShape(bs);
      Hex(bs)
  }

  /** The imperative generateParametersHash, with its for-each loop. */
  method GenerateParametersHash(md: DigestProvider, p: Pageable) returns (h: string)
    ensures h == ParametersHash(md, p)
  {
    if md.NoSuchAlgorithm? {
      return IntToDecimal(p.page) + "-" + IntToDecimal(p.size);
    }
    var hash := md.digest(DigestInput(p));
    h := HexEncode(hash);
  }

  /** With MD5, two pageables share a hash only when MD5 collides on their parameter texts. */
  lemma Md5HashCollision(md: DigestProvider, p: Pageable, q: Pageable)
    requires md.Md5? && p != q
    ensures ParametersHash(md, p) == ParametersHash(md, q) <==>
      DigestInput(p) != DigestInput(q) && md.digest(DigestInput(p)) == md.digest(DigestInput(q))
  {
    var mp, mq := DigestInput(p), DigestInput(q);
    if mp == mq {
      assert ParamsString(p) == ParamsString(q) by {
        assert forall i :: 0 <= i < |mp| ==> ParamsString(p)[i] as int == mp[i];
      }
      ParamsStringInjective(p, q);
    }
    if ParametersHash(md, p) == ParametersHash(md, q) {
      HexInjective(md.digest(mp), md.digest(mq));
    }
  }

  /** Without MD5 the fallback hash still tells every two pageables apart. */
  lemma FallbackHashInjective(p: Pageable, q: Pageable)
    requires ParametersHash(NoSuchAlgorithm, p) == ParametersHash(NoSuchAlgorithm, q)
    ensures p == q
  {
    var r1, r2 := "-" + IntToDecimal(p.size), "-" + IntToDecimal(q.size);
    assert IntToDecimal(p.page) + "-" + IntToDecimal(p.size) == IntToDecimal(p.page) + r1;
    assert IntToDecimal(q.page) + "-" + IntToDecimal(q.size) == IntToDecimal(q.page) + r2;
    DecimalPrefixUnique(p.page, q.page, r1, r2);
    assert IntToDecimal(p.size) == r1[1..] == r2[1..] == IntToDecimal(q.size);
    IntToDecimalInjective(p.size, q.size);
  }

  /** The text every key of one user starts with: the KEYS pattern "msg-svc-%d-list-*" without its '*'. */
  function UserKeyPrefix(userId: Int32): string
  {
    CACHE_PREFIX + "-" + IntToDecimal(userId) + "-" + LIST_SUFFIX + "-"
  }

  /** generateCacheKey: "%s-%d-%s-%s" of the prefix, the user id, the suffix and the parameter hash. */
  function CacheKey(md: DigestProvider, userId: Int32, p: Pageable): (k: string)
    ensures |UserKeyPrefix(userId)| <= |k| && k[..|UserKeyPrefix(userId)|] == UserKeyPrefix(userId)
    ensures k[|UserKeyPrefix(userId)|..] == ParametersHash(md, p)
  {
    UserKeyPrefix(userId) + ParametersHash(md, p)
  }

  /** The imperative generateCacheKey, which runs the hashing loop. */
  method GenerateCacheKey(md: DigestProvider, userId: Int32, p: Pageable) returns (k: string)
    ensures k == CacheKey(md, userId, p)
  {
    var paramsHash := GenerateParametersHash(md, p);
    k := CACHE_PREFIX + "-" + IntToDecimal(userId) + "-" + LIST_SUFFIX + "-" + paramsHash;
  }

  /**
   * A user's key pattern matches that user's keys and no other user's: the '-' after the id keeps
   * user 1's pattern from matching the keys of user 12.
   */
  lemma UserPrefixMatchesOnlyOwnKeys(md: DigestProvider, u: Int32, v: Int32, p: Pageable)
    ensures (|UserKeyPrefix(u)| <= |CacheKey(md, v, p)| && CacheKey(md, v, p)[..|UserKeyPrefix(u)|] == UserKeyPrefix(u)) <==> u == v
  {
    var k, pre := CacheKey(md, v, p), UserKeyPrefix(u);
    if |pre| <= |k| && k[..|pre|] == pre {
      var rest := k[|pre|..];
      var r1 := "-list-" + rest;
      var r2 := "-list-" + ParametersHash(md, p);
      assert k == pre + rest;
      KeyText(u, rest);
      KeyText(v, ParametersHash(md, p));
      assert IntToDecimal(u) + r1 == k[8..] == IntToDecimal(v) + r2;
      DecimalPrefixUnique(u, v, r1, r2);
    }
  }

  /** A user's prefix followed by some text, with the fixed parts gathered. */
  lemma KeyText(u: Int32, rest: string)
    ensures UserKeyPrefix(u) + rest == "msg-svc-" + (IntToDecimal(u) + ("-list-" + rest))
    ensures (UserKeyPrefix(u) + rest)[8..] == IntToDecimal(u) + ("-list-" + rest)
  {
    var d := IntToDecimal(u);
    assert UserKeyPrefix(u) == "msg-svc-" + d + "-list-";
    assert UserKeyPrefix(u) + rest == "msg-svc-" + (d + ("-list-" + rest));
  }

  /** Two keys coincide exactly when the user and the parameter hash do. */
  lemma CacheKeyInjective(md: DigestProvider, u: Int32, p: Pageable, v: Int32, q: Pageable)
    ensures CacheKey(md, u, p) == CacheKey(md, v, q) <==> u == v && ParametersHash(md, p) == ParametersHash(md, q)
  {
    if CacheKey(md, u, p) == CacheKey(md, v, q) {
      UserPrefixMatchesOnlyOwnKeys(md, u, v, q);
      assert u == v;
    }
  }
}
