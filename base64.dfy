/**
 * The base 64 encoding of section 4 of RFC 4648 (`base64.b64encode`), used to
 * embed binary assets in `data:` URIs, and its decoding.
 */
module Base64 {
  import opened Outcomes

  type Byte = b: int | 0 <= b < 256
  type Sextet = n: int | 0 <= n < 64

  /** The 64-character alphabet of section 4 of RFC 4648. */
  function Alphabet(n: Sextet): char {
    if n < 26 then ('A' as int + n) as char
    else if n < 52 then ('a' as int + n - 26) as char
    else if n < 62 then ('0' as int + n - 52) as char
    else if n == 62 then '+'
    else '/'
  }

  predicate InAlphabet(c: char) {
    ('A' <= c <= 'Z') || ('a' <= c <= 'z') || ('0' <= c <= '9') || c == '+' || c == '/'
  }

  /** The value of an alphabet character, or -1 for any other character. */
  function IndexOf(c: char): (r: int)
    ensures -1 <= r < 64
    ensures r >= 0 <==> InAlphabet(c)
  {
    if 'A' <= c <= 'Z' then c as int - 'A' as int
    else if 'a' <= c <= 'z' then c as int - 'a' as int + 26
    else if '0' <= c <= '9' then c as int - '0' as int + 52
    else if c == '+' then 62
    else if c == '/' then 63
    else -1
  }

  lemma AlphabetIndex(n: Sextet)
    ensures InAlphabet(Alphabet(n))
    ensures IndexOf(Alphabet(n)) == n
  {
  }

  /** Three bytes become four characters, six bits each, most significant first. */
  function EncodeGroup(b0: Byte, b1: Byte, b2: Byte): string {
    [Alphabet(b0 / 4), Alphabet((b0 % 4) * 16 + b1 / 16), Alphabet((b1 % 16) * 4 + b2 / 64), Alphabet(b2 % 64)]
  }

  /** `base64.b64encode(bs)`: a final group of one or two bytes is padded with `=`. */
  function Encode(bs: seq<Byte>): (r: string)
    ensures |r| == 4 * ((|bs| + 2) / 3)
    decreases |bs|
  {
    if bs == [] then ""
    else if |bs| == 1 then [Alphabet(bs[0] / 4), Alphabet((bs[0] % 4) * 16), '=', '=']
    else if |bs| == 2 then [Alphabet(bs[0] / 4), Alphabet((bs[0] % 4) * 16 + bs[1] / 16), Alphabet((bs[1] % 16) * 4), '=']
    else EncodeGroup(bs[0], bs[1], bs[2]) + Encode(bs[3..])
  }

  /** An encoded text holds only alphabet characters and padding. */
  lemma {:induction false} EncodeAlphabet(bs: seq<Byte>)
    ensures forall i :: 0 <= i < |Encode(bs)| ==> InAlphabet(Encode(bs)[i]) || Encode(bs)[i] == '='
    decreases |bs|
  {
    if |bs| == 1 {
      AlphabetIndex(bs[0] / 4);
      AlphabetIndex((bs[0] % 4) * 16);
    } else if |bs| == 2 {
      AlphabetIndex(bs[0] / 4);
      AlphabetIndex((bs[0] % 4) * 16 + bs[1] / 16);
      AlphabetIndex((bs[1] % 16) * 4);
    } else if |bs| >= 3 {
      AlphabetIndex(bs[0] / 4);
      AlphabetIndex((bs[0] % 4) * 16 + bs[1] / 16);
      AlphabetIndex((bs[1] % 16) * 4 + bs[2] / 64);
      AlphabetIndex(bs[2] % 64);
      EncodeAlphabet(bs[3..]);
    }
  }

  /** `base64.b64decode(s)` on padded input; `None` for text that is not base 64. */
  function Decode(s: string): Option<seq<Byte>>
    decreases |s|
  {
    if s == [] then Some([])
    else if |s| < 4 then None
    else
      var i0, i1, i2, i3 := IndexOf(s[0]), IndexOf(s[1]), IndexOf(s[2]), IndexOf(s[3]);
      if i0 < 0 || i1 < 0 then None
      else if s[2] == '=' && s[3] == '=' then
        if |s| == 4 then Some([i0 * 4 + i1 / 16]) else None
      else if i2 < 0 then None
      else if s[3] == '=' then
        if |s| == 4 then Some([i0 * 4 + i1 / 16, (i1 % 16) * 16 + i2 / 4]) else None
      else if i3 < 0 then None
      else
        match Decode(s[4..])
        case None => None
        case Some(rest) => Some([i0 * 4 + i1 / 16, (i1 % 16) * 16 + i2 / 4, (i2 % 4) * 64 + i3] + rest)
  }

  /** Regrouping six-bit pieces into bytes undoes the split of the encoder. */
  lemma SplitBits(hi: nat, lo: nat, k: nat)
    requires k in {4, 16} && lo < k
    ensures (hi * k + lo) / k == hi && (hi * k + lo) % k == lo
  {
    if k == 4 {
      assert hi * 4 + lo == 4 * hi + lo;
    } else {
      assert hi * 16 + lo == 16 * hi + lo;
    }
  }

  /** The decoder's arithmetic recovers the bytes from the encoder's sextets. */
  lemma GroupBits(b0: Byte, b1: Byte, b2: Byte)
    ensures (b0 / 4) * 4 + ((b0 % 4) * 16 + b1 / 16) / 16 == b0
    ensures (((b0 % 4) * 16 + b1 / 16) % 16) * 16 + ((b1 % 16) * 4 + b2 / 64) / 4 == b1
    ensures (((b1 % 16) * 4 + b2 / 64) % 4) * 64 + b2 % 64 == b2
  {
    SplitBits(b0 % 4, b1 / 16, 16);
    SplitBits(b1 % 16, b2 / 64, 4);
  }

  /** The decoder on a last group with two padding characters. */
  lemma DecodePadTwo(s: string, i0: Sextet, i1: Sextet)
    requires |s| == 4 && IndexOf(s[0]) == i0 && IndexOf(s[1]) == i1 && s[2] == '=' && s[3] == '='
    ensures Decode(s) == Some([i0 * 4 + i1 / 16])
  {
  }

  /** The decoder on a last group with one padding character. */
  lemma DecodePadOne(s: string, i0: Sextet, i1: Sextet, i2: Sextet)
    requires |s| == 4 && IndexOf(s[0]) == i0 && IndexOf(s[1]) == i1 && IndexOf(s[2]) == i2 && s[3] == '='
    ensures Decode(s) == Some([i0 * 4 + i1 / 16, (i1 % 16) * 16 + i2 / 4])
  {
  }

  /** The decoder on a group of four alphabet characters. */
  lemma DecodeFull(s: string, i0: Sextet, i1: Sextet, i2: Sextet, i3: Sextet)
    requires |s| >= 4 && IndexOf(s[0]) == i0 && IndexOf(s[1]) == i1 && IndexOf(s[2]) == i2 && IndexOf(s[3]) == i3
    ensures Decode(s) == match Decode(s[4..])
      case None => None
      case Some(rest) => Some([i0 * 4 + i1 / 16, (i1 % 16) * 16 + i2 / 4, (i2 % 4) * 64 + i3] + rest)
  {
  }

  lemma DecodeOne(b0: Byte)
    ensures Decode(Encode([b0])) == Some([b0])
  {
    var s0, s1 := b0 / 4, (b0 % 4) * 16;
    AlphabetIndex(s0);
    AlphabetIndex(s1);
    DecodePadTwo(Encode([b0]), s0, s1);
    GroupBits(b0, 0, 0);
  }

  lemma DecodeTwo(b0: Byte, b1: Byte)
    ensures Decode(Encode([b0, b1])) == Some([b0, b1])
  {
    var s0, s1, s2 := b0 / 4, (b0 % 4) * 16 + b1 / 16, (b1 % 16) * 4;
    AlphabetIndex(s0);
    AlphabetIndex(s1);
    AlphabetIndex(s2);
    DecodePadOne(Encode([b0, b1]), s0, s1, s2);
    GroupBits(b0, b1, 0);
  }

  lemma DecodeGroup(b0: Byte, b1: Byte, b2: Byte, rest: string)
    requires Decode(rest).Some?
    ensures Decode(EncodeGroup(b0, b1, b2) + rest) == Some([b0, b1, b2] + Decode(rest).value)
  {
    var e := EncodeGroup(b0, b1, b2) + rest;
    var s0, s1, s2, s3 := b0 / 4, (b0 % 4) * 16 + b1 / 16, (b1 % 16) * 4 + b2 / 64, b2 % 64;
    AlphabetIndex(s0);
    AlphabetIndex(s1);
    AlphabetIndex(s2);
    AlphabetIndex(s3);
    assert e[4..] == rest;
    GroupBits(b0, b1, b2);
    assert [s0 * 4 + s1 / 16, (s1 % 16) * 16 + s2 / 4, (s2 % 4) * 64 + s3] == [b0, b1, b2];
    DecodeFull(e, s0, s1, s2, s3);
  }

  /** Decoding an encoded text gives the bytes back. */
  lemma {:induction false} DecodeEncode(bs: seq<Byte>)
    ensures Decode(Encode(bs)) == Some(bs)
    decreases |bs|
  {
    if |bs| == 1 {
      assert bs == [bs[0]];
      DecodeOne(bs[0]);
    } else if |bs| == 2 {
      assert bs == [bs[0], bs[1]];
      DecodeTwo(bs[0], bs[1]);
    } else if |bs| >= 3 {
      var rest := bs[3..];
      assert [bs[0], bs[1], bs[2]] + rest == bs;
      assert Encode(bs) == EncodeGroup(bs[0], bs[1], bs[2]) + Encode(rest);
      DecodeEncode(rest);
      DecodeGroup(bs[0], bs[1], bs[2], Encode(rest));
    }
  }
}
