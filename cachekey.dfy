/** The cache key of a filename (TmdbMatcher.getCacheKey): the MD5 digest of the
    filename's UTF-8 bytes written as lowercase hexadecimal, two digits per byte, or,
    when computing the digest throws, the decimal form of the filename's Java hash
    code. MD5 itself and the UTF-8 encoding are a function parameter. */
module CacheKey {
  import opened Wrappers
  import opened Text

  /** A Java `byte`: a signed 8-bit value. */
  newtype JByte = b: int | -128 <= b < 128

  /** `0xff & b`: the byte read as unsigned. */
  function Unsigned(b: JByte): (u: int)
    ensures 0 <= u < 256
    ensures b >= 0 ==> u == b as int
    ensures b < 0 ==> u == b as int + 256
  {
    if b < 0 then b as int + 256 else b as int
  }

  /** A lowercase hexadecimal digit. */
  function HexDigit(d: int): (c: char)
    requires 0 <= d < 16
    ensures '0' <= c <= '9' || 'a' <= c <= 'f'
  {
    if d < 10 then ('0' as int + d) as char else ('a' as int + d - 10) as char
  }

  predicate IsHexDigit(c: char) {
    '0' <= c <= '9' || 'a' <= c <= 'f'
  }

  /** The value of a lowercase hexadecimal digit. */
  function DigitValue(c: char): (d: int)
    requires IsHexDigit(c)
    ensures 0 <= d < 16 && HexDigit(d) == c
  {
    if c <= '9' then c as int - '0' as int else c as int - 'a' as int + 10
  }

  /** `Integer.toHexString` of a value in [0, 255]: lowercase, no leading zero. */
  function ToHexString(u: int): (s: string)
    requires 0 <= u < 256
    ensures |s| == 1 <==> u < 16
    ensures |s| == 1 || |s| == 2
    ensures s[0] != '0' || u == 0
  {
    if u < 16 then [HexDigit(u)] else [HexDigit(u / 16), HexDigit(u % 16)]
  }

  /** What each byte contributes to the key: exactly two digits, high nibble first. */
  function HexPair(b: JByte): string {
    [HexDigit(Unsigned(b) / 16), HexDigit(Unsigned(b) % 16)]
  }

  /** The whole key of a digest: the pairs of its bytes, in order. */
  function Hex(bs: seq<JByte>): string {
    if bs == [] then [] else Hex(bs[..|bs| - 1]) + HexPair(bs[|bs| - 1])
  }

  /** The loop body's padding: a one-digit hex string gets a leading '0', which makes
      every byte's contribution its two-digit pair. */
  lemma PaddedIsPair(b: JByte)
    ensures (if |ToHexString(Unsigned(b))| == 1 then "0" else "") + ToHexString(Unsigned(b)) == HexPair(b)
  {
    if Unsigned(b) < 16 {
      assert HexDigit(0) == '0';
    }
  }

  /** The hex loop of getCacheKey. */
  method HexString(hash: seq<JByte>) returns (s: string)
    ensures s == Hex(hash)
  {
    s := "";
    for k := 0 to |hash|
      invariant s == Hex(hash[..k])
    {
      var hex := ToHexString(Unsigned(hash[k]));
      PaddedIsPair(hash[k]);
      assert hash[..k + 1][..k] == hash[..k];
      if |hex| == 1 {
        s := s + "0";
      }
      s := s + hex;
    }
    assert hash[..|hash|] == hash;
  }

  /** The key has two lowercase hexadecimal digits per digest byte. */
  lemma {:induction false} HexShape(bs: seq<JByte>)
    ensures |Hex(bs)| == 2 * |bs|
    ensures forall k :: 0 <= k < |Hex(bs)| ==> IsHexDigit(Hex(bs)[k])
  {
    if bs != [] {
      HexShape(bs[..|bs| - 1]);
    }
  }

  /** The byte a pair of hex digits stands for, read back as a signed Java byte. */
  function ByteOf(hi: char, lo: char): JByte
    requires IsHexDigit(hi) && IsHexDigit(lo)
  {
    var v := 16 * DigitValue(hi) + DigitValue(lo);
    if v >= 128 then (v - 256) as JByte else v as JByte
  }

  /** Reading a key back into the digest bytes, two digits at a time from the end. */
  function Unhex(s: string): seq<JByte>
    requires |s| % 2 == 0
    requires forall k :: 0 <= k < |s| ==> IsHexDigit(s[k])
  {
    if s == [] then [] else Unhex(s[..|s| - 2]) + [ByteOf(s[|s| - 2], s[|s| - 1])]
  }

  lemma HexDigitInjective(d: int, e: int)
    requires 0 <= d < 16 && 0 <= e < 16 && HexDigit(d) == HexDigit(e)
    ensures d == e
  {
    assert DigitValue(HexDigit(d)) == d;
    assert DigitValue(HexDigit(e)) == e;
  }

  lemma ByteOfPair(b: JByte)
    ensures ByteOf(HexPair(b)[0], HexPair(b)[1]) == b
  {
    var u := Unsigned(b);
    HexDigitInjective(DigitValue(HexPair(b)[0]), u / 16);
    HexDigitInjective(DigitValue(HexPair(b)[1]), u % 16);
  }

  /** Reading the key back gives the digest: the key loses nothing. */
  lemma {:induction false} UnhexHex(bs: seq<JByte>)
    ensures |Hex(bs)| % 2 == 0 && forall k :: 0 <= k < |Hex(bs)| ==> IsHexDigit(Hex(bs)[k])
    ensures Unhex(Hex(bs)) == bs
  {
    HexShape(bs);
    if bs != [] {
      var init, b := bs[..|bs| - 1], bs[|bs| - 1];
      var s := Hex(bs);
      assert s == Hex(init) + HexPair(b);
      assert s[..|s| - 2] == Hex(init);
      assert s[|s| - 2] == HexPair(b)[0] && s[|s| - 1] == HexPair(b)[1];
      UnhexHex(init);
      ByteOfPair(b);
      assert bs == init + [b];
    }
  }

  /** Different digests give different keys. */
  lemma HexInjective(a: seq<JByte>, b: seq<JByte>)
    requires Hex(a) == Hex(b)
    ensures a == b
  {
    UnhexHex(a);
    UnhexHex(b);
  }

  // ---------------------------------------------------------------------
  // The fallback: String.valueOf(filename.hashCode())
  // ---------------------------------------------------------------------

  const TwoTo31: int := 0x8000_0000
  const TwoTo32: int := 0x1_0000_0000

  /** A value wrapped to Java's 32-bit two's-complement int. */
  function Wrap32(x: int): (w: int)
    ensures -TwoTo31 <= w < TwoTo31
    ensures (w - x) % TwoTo32 == 0
  {
    (x + TwoTo31) % TwoTo32 - TwoTo31
  }

  /** String.hashCode: h = 31 * h + c over the characters, in int arithmetic, taking
      each character as one code unit. */
  function HashCode(s: string): (h: int)
    ensures -TwoTo31 <= h < TwoTo31
  {
    if s == [] then 0 else Wrap32(31 * HashCode(s[..|s| - 1]) + s[|s| - 1] as int)
  }

  /** A number below 10^k, k >= 1, has at most k digits. */
  lemma {:induction false} NatStringLength(n: nat, k: nat, bound: nat)
    requires 1 <= k && bound == Pow10(k) && n < bound
    ensures |NatString(n)| <= k
  {
    if n >= 10 {
      assert Pow10(1) == 10;
      NatStringLength(n / 10, k - 1, Pow10(k - 1));
    }
  }

  function Pow10(k: nat): (p: nat)
    ensures p >= 1
  {
    if k == 0 then 1 else 10 * Pow10(k - 1)
  }

  /** The fallback key has at most eleven characters: a sign and ten digits. */
  lemma IntStringShort(n: int)
    requires -TwoTo31 <= n < TwoTo31
    ensures 1 <= |IntString(n)| <= 11
  {
    assert Pow10(10) == 10_000_000_000;
    if n < 0 {
      NatStringLength(-n, 10, Pow10(10));
    } else {
      NatStringLength(n, 10, Pow10(10));
    }
  }

  // ---------------------------------------------------------------------
  // getCacheKey
  // ---------------------------------------------------------------------

  /** getCacheKey, given what the MD5 digest of the filename's UTF-8 bytes yields:
      the digest bytes, or None when computing it throws. */
  method GetCacheKey(filename: string, md5: string -> Option<seq<JByte>>) returns (key: string)
    ensures key == CacheKeyOf(filename, md5)
  {
    var digest := md5(filename);
    if digest.Some? {
      key := HexString(digest.value);
    } else {
      key := IntString(HashCode(filename));
    }
  }

  /** The key getCacheKey returns. */
  function CacheKeyOf(filename: string, md5: string -> Option<seq<JByte>>): string {
    match md5(filename)
    case Some(hash) => Hex(hash)
    case None => IntString(HashCode(filename))
  }

  /** Two filenames whose digests are 16 bytes long share a key exactly when their
      digests are equal; and a digest key (32 characters) is never a fallback key. */
  lemma CacheKeyProperties(f: string, g: string, md5: string -> Option<seq<JByte>>)
    requires md5(f).Some? ==> |md5(f).value| == 16
    requires md5(g).Some? ==> |md5(g).value| == 16
    ensures md5(f).Some? ==> |CacheKeyOf(f, md5)| == 32
    ensures md5(f).None? ==> |CacheKeyOf(f, md5)| <= 11
    ensures md5(f).Some? && md5(g).Some? ==> (CacheKeyOf(f, md5) == CacheKeyOf(g, md5) <==> md5(f) == md5(g))
    ensures md5(f).Some? && md5(g).None? ==> CacheKeyOf(f, md5) != CacheKeyOf(g, md5)
  {
    if md5(f).Some? {
      HexShape(md5(f).value);
    } else {
      IntStringShort(HashCode(f));
    }
    if md5(g).Some? {
      HexShape(md5(g).value);
    } else {
      IntStringShort(HashCode(g));
    }
    if md5(f).Some? && md5(g).Some? && CacheKeyOf(f, md5) == CacheKeyOf(g, md5) {
      HexInjective(md5(f).value, md5(g).value);
    }
  }
}
