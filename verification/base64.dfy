/**
  `base64.StdEncoding` (section 4 of RFC 4648: alphabet A-Z a-z 0-9 + /, padded with '=')
  as Go's `EncodeToString` and `DecodeString` implement it. The decoder skips '\r' and
  '\n' wherever they occur and, not being in strict mode, ignores the unused low bits of
  the last quantum.
 */
module Base64 {
  import opened Wrappers
  import opened GoStrings

  const Pad: byte := 61

  /** The alphabet character for a 6-bit value. */
  function Char(i: int): (c: byte)
    requires 0 <= i < 64
  {
    if i < 26 then 65 + i
    else if i < 52 then 97 + (i - 26)
    else if i < 62 then 48 + (i - 52)
    else if i == 62 then 43
    else 47
  }

  /** The decode map: the 6-bit value of an alphabet character, or -1 for any other byte. */
  function Index(c: byte): (i: int)
    ensures -1 <= i < 64
    ensures i >= 0 ==> Char(i) == c
  {
    if 65 <= c <= 90 then c - 65
    else if 97 <= c <= 122 then c - 97 + 26
    else if 48 <= c <= 57 then c - 48 + 52
    else if c == 43 then 62
    else if c == 47 then 63
    else -1
  }

  lemma IndexChar(i: int)
    requires 0 <= i < 64
    ensures Index(Char(i)) == i
  {
  }

  /** A byte `EncodeToString` may emit. */
  predicate IsEncodingByte(c: byte) {
    Index(c) >= 0 || c == Pad
  }

  /** `EncodeToString`: each group of three bytes becomes four characters; a final group of one or two bytes is padded. */
  function Encode(src: seq<byte>): (r: GoString)
    ensures |r| == 4 * ((|src| + 2) / 3)
    ensures |r| % 4 == 0 && |src| <= 3 * |r| / 4 < |src| + 3
    decreases |src|
  {
    if |src| == 0 then []
    else if |src| == 1 then
      [Char(src[0] / 4), Char(src[0] % 4 * 16), Pad, Pad]
    else if |src| == 2 then
      [Char(src[0] / 4), Char(src[0] % 4 * 16 + src[1] / 16), Char(src[1] % 16 * 4), Pad]
    else Quantum(src[0], src[1], src[2]) + Encode(src[3..])
  }

  /** The four characters of a full group of three bytes. */
  function Quantum(x: byte, y: byte, z: byte): (q: GoString)
    ensures |q| == 4
  {
    [Char(x / 4), Char(x % 4 * 16 + y / 16), Char(y % 16 * 4 + z / 64), Char(z % 64)]
  }

  /** `DecodeString` ignores carriage returns and line feeds. */
  function StripNewlines(s: GoString): (r: GoString)
    ensures |r| <= |s|
    ensures 10 !in r && 13 !in r
    decreases |s|
  {
    if |s| == 0 then []
    else if s[0] == 10 || s[0] == 13 then StripNewlines(s[1..])
    else [s[0]] + StripNewlines(s[1..])
  }

  /**
    Decodes newline-free input quantum by quantum: every quantum has four characters; only
    the last may end in "==" (one byte) or "=" (two bytes), and nothing may follow it.
   */
  function DecodeQuanta(s: GoString): (r: Option<seq<byte>>)
    decreases |s|
  {
    if |s| == 0 then Some([])
    else if |s| < 4 then None
    else
      var a, b, c, d := Index(s[0]), Index(s[1]), Index(s[2]), Index(s[3]);
      if a < 0 || b < 0 then None
      else if c < 0 then
        if s[2] == Pad && s[3] == Pad && |s| == 4 then Some([a * 4 + b / 16]) else None
      else if d < 0 then
        if s[3] == Pad && |s| == 4 then Some([a * 4 + b / 16, b % 16 * 16 + c / 4]) else None
      else
        var rest :- DecodeQuanta(s[4..]);
        Some([a * 4 + b / 16, b % 16 * 16 + c / 4, c % 4 * 64 + d] + rest)
  }

  /** `DecodeString`: `None` stands for Go's `CorruptInputError`. */
  function Decode(s: GoString): (r: Option<seq<byte>>)
    ensures r.Some? ==> 4 * |r.value| <= 3 * |s|
  {
    var t := StripNewlines(s);
    DecodeQuantaLength(t);
    DecodeQuanta(t)
  }

  lemma {:induction false} DecodeQuantaLength(s: GoString)
    ensures DecodeQuanta(s).Some? ==> 4 * |DecodeQuanta(s).value| <= 3 * |s|
    decreases |s|
  {
    if |s| >= 4 && Index(s[0]) >= 0 && Index(s[1]) >= 0 && Index(s[2]) >= 0 && Index(s[3]) >= 0 {
      DecodeQuantaLength(s[4..]);
      var rest := DecodeQuanta(s[4..]);
      if rest.Some? {
        var a, b, c, d := Index(s[0]), Index(s[1]), Index(s[2]), Index(s[3]);
        assert DecodeQuanta(s) == Some([a * 4 + b / 16, b % 16 * 16 + c / 4, c % 4 * 64 + d] + rest.value);
      }
    }
  }

  /** An encoding has no newlines to strip. */
  lemma {:induction false} StripNewlinesIdentity(s: GoString)
    requires 10 !in s && 13 !in s
    ensures StripNewlines(s) == s
    decreases |s|
  {
    if |s| > 0 {
      StripNewlinesIdentity(s[1..]);
      assert s == [s[0]] + s[1..];
    }
  }

  /** Every byte of an encoding is an alphabet character or padding. */
  lemma {:induction false} EncodeAlphabet(src: seq<byte>)
    ensures forall i :: 0 <= i < |Encode(src)| ==> IsEncodingByte(Encode(src)[i])
    decreases |src|
  {
    if |src| >= 3 {
      var q := Quantum(src[0], src[1], src[2]);
      assert Encode(src) == q + Encode(src[3..]);
      EncodeAlphabet(src[3..]);
    }
  }

  /** In particular an encoding contains no newline and no token separator. */
  lemma EncodeHasNoNewlines(src: seq<byte>)
    ensures 10 !in Encode(src) && 13 !in Encode(src) && Dot !in Encode(src)
  {
    EncodeAlphabet(src);
    var e := Encode(src);
    forall i | 0 <= i < |e|
      ensures e[i] != 10 && e[i] != 13 && e[i] != Dot
    {
      assert IsEncodingByte(e[i]);
    }
  }

  /** One full quantum decodes back to the three bytes it encodes. */
  lemma QuantumRoundTrip(x: byte, y: byte, z: byte)
    ensures var a, b, c, d := x / 4, x % 4 * 16 + y / 16, y % 16 * 4 + z / 64, z % 64;
            a * 4 + b / 16 == x && b % 16 * 16 + c / 4 == y && c % 4 * 64 + d == z
  {
  }

  lemma DecodeLastOne(x: byte)
    ensures DecodeQuanta(Encode([x])) == Some([x])
  {
    var a, b := x / 4, x % 4 * 16;
    IndexChar(a);
    IndexChar(b);
    assert Encode([x]) == [Char(a), Char(b), Pad, Pad];
  }

  lemma DecodeLastTwo(x: byte, y: byte)
    ensures DecodeQuanta(Encode([x, y])) == Some([x, y])
  {
    QuantumRoundTrip(x, y, 0);
    var a, b, c := x / 4, x % 4 * 16 + y / 16, y % 16 * 4;
    IndexChar(a);
    IndexChar(b);
    IndexChar(c);
    assert Encode([x, y]) == [Char(a), Char(b), Char(c), Pad];
  }

  /** Decoding a full quantum followed by more input continues with that input. */
  lemma DecodeQuantumThen(x: byte, y: byte, z: byte, t: GoString)
    ensures DecodeQuanta(Quantum(x, y, z) + t) ==
            match DecodeQuanta(t)
            case None => None
            case Some(rest) => Some([x, y, z] + rest)
  {
    var a, b, c, d := x / 4, x % 4 * 16 + y / 16, y % 16 * 4 + z / 64, z % 64;
    QuantumRoundTrip(x, y, z);
    IndexChar(a);
    IndexChar(b);
    IndexChar(c);
    IndexChar(d);
    var s := Quantum(x, y, z) + t;
    assert s[4..] == t;
    assert Index(s[0]) == a && Index(s[1]) == b && Index(s[2]) == c && Index(s[3]) == d;
  }

  lemma {:induction false} DecodeQuantaEncode(src: seq<byte>)
    ensures DecodeQuanta(Encode(src)) == Some(src)
    decreases |src|
  {
    if |src| == 1 {
      assert src == [src[0]];
      DecodeLastOne(src[0]);
    } else if |src| == 2 {
      assert src == [src[0], src[1]];
      DecodeLastTwo(src[0], src[1]);
    } else if |src| >= 3 {
      DecodeQuantaEncode(src[3..]);
      EncodeHead(src);
      DecodeQuantumThen(src[0], src[1], src[2], Encode(src[3..]));
      assert src == [src[0], src[1], src[2]] + src[3..];
    }
  }

  lemma EncodeHead(src: seq<byte>)
    requires |src| >= 3
    ensures Encode(src) == Quantum(src[0], src[1], src[2]) + Encode(src[3..])
  {
    assert |src| != 0 && |src| != 1 && |src| != 2;
  }

  /** Round trip: `DecodeString(EncodeToString(src))` succeeds and returns `src`. */
  lemma DecodeEncode(src: seq<byte>)
    ensures Decode(Encode(src)) == Some(src)
  {
    EncodeHasNoNewlines(src);
    StripNewlinesIdentity(Encode(src));
    DecodeQuantaEncode(src);
  }
}
