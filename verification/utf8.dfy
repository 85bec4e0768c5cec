/**
  The parts of `unicode/utf8` and `unicode/utf16` that Go's JSON string encoder and
  decoder rely on: decoding one rune from bytes (with Go's acceptance ranges, so that
  overlong forms, surrogates and values above U+10FFFF are invalid), encoding one rune,
  and combining a UTF-16 surrogate pair.
 */
module Utf8 {
  import opened GoStrings

  /** U+FFFD, `utf8.RuneError` and `unicode.ReplacementChar`. */
  const RuneError: int := 0xFFFD

  /** The UTF-8 form of U+FFFD. */
  const ReplacementBytes: seq<byte> := [0xEF, 0xBF, 0xBD]

  predicate IsContinuation(b: byte) {
    0x80 <= b <= 0xBF
  }

  /**
    `utf8.DecodeRune` on non-empty input: the rune at the start of `p` and its size in
    bytes; `(RuneError, 1)` when `p` does not start with a complete, valid encoding.
   */
  function DecodeRune(p: seq<byte>): (r: (int, int))
    requires |p| >= 1
    ensures 1 <= r.1 <= 4 && r.1 <= |p|
    ensures p[0] < 0x80 <==> r == (p[0], 1)
    ensures r.1 == 1 && p[0] >= 0x80 ==> r.0 == RuneError
    ensures forall i :: 1 <= i < r.1 ==> IsContinuation(p[i])
  {
    var p0 := p[0];
    if p0 < 0x80 then (p0, 1)
    else if p0 < 0xC2 || 0xF4 < p0 then (RuneError, 1)
    else
      var size := if p0 < 0xE0 then 2 else if p0 < 0xF0 then 3 else 4;
      var lo := if p0 == 0xE0 then 0xA0 else if p0 == 0xF0 then 0x90 else 0x80;
      var hi := if p0 == 0xED then 0x9F else if p0 == 0xF4 then 0x8F else 0xBF;
      if |p| < size || p[1] < lo || hi < p[1] then (RuneError, 1)
      else if size == 2 then ((p0 - 0xC0) * 64 + (p[1] - 0x80), 2)
      else if !IsContinuation(p[2]) then (RuneError, 1)
      else if size == 3 then ((p0 - 0xE0) * 4096 + (p[1] - 0x80) * 64 + (p[2] - 0x80), 3)
      else if !IsContinuation(p[3]) then (RuneError, 1)
      else ((p0 - 0xF0) * 262144 + (p[1] - 0x80) * 4096 + (p[2] - 0x80) * 64 + (p[3] - 0x80), 4)
  }

  /** `p` does not start with a valid encoding: Go reads one byte and reports U+FFFD. */
  predicate StartsInvalid(p: seq<byte>)
    requires |p| >= 1
  {
    DecodeRune(p) == (RuneError, 1)
  }

  /** A valid rune is decoded from its own bytes only: what follows it does not matter. */
  lemma DecodeRunePrefix(p: seq<byte>, t: seq<byte>)
    requires |p| >= 1 && !StartsInvalid(p)
    ensures var n := DecodeRune(p).1;
            DecodeRune(p[..n] + t) == DecodeRune(p)
  {
    var n := DecodeRune(p).1;
    var q := p[..n] + t;
    assert q[..n] == p[..n];
  }

  /** `utf8.EncodeRune`: surrogates and values beyond U+10FFFF are written as U+FFFD. */
  function EncodeRune(r: int): (b: seq<byte>)
    ensures 1 <= |b| <= 4
    ensures |b| == 1 <==> 0 <= r < 0x80
    ensures forall i :: 1 <= i < |b| ==> IsContinuation(b[i])
    ensures r < 0 || 0x10FFFF < r || IsSurrogate(r) ==> b == ReplacementBytes
  {
    if 0 <= r < 0x80 then [r]
    else if 0 <= r < 0x800 then [0xC0 + r / 64, 0x80 + r % 64]
    else if r < 0 || 0x10FFFF < r || (0xD800 <= r <= 0xDFFF) then ReplacementBytes
    else if r < 0x10000 then [0xE0 + r / 4096, 0x80 + r / 64 % 64, 0x80 + r % 64]
    else [0xF0 + r / 262144, 0x80 + r / 4096 % 64, 0x80 + r / 64 % 64, 0x80 + r % 64]
  }

  /** Every rune `EncodeRune` accepts decodes back from its encoding, using all of it. */
  lemma DecodeEncodeRune(r: int)
    requires 0 <= r <= 0x10FFFF && !IsSurrogate(r)
    ensures DecodeRune(EncodeRune(r)) == (r, |EncodeRune(r)|)
  {
    if 0x80 <= r < 0x800 {
      DecodeEncodeTwo(r);
    } else if 0x800 <= r < 0x10000 {
      DecodeEncodeThree(r);
    } else if 0x10000 <= r {
      DecodeEncodeFour(r);
    }
  }

  lemma DecodeEncodeTwo(r: int)
    requires 0x80 <= r < 0x800
    ensures DecodeRune(EncodeRune(r)) == (r, 2)
  {
    var b := EncodeRune(r);
    assert b == [0xC0 + r / 64, 0x80 + r % 64];
    assert (b[0] as int - 0xC0) * 64 + (b[1] as int - 0x80) == r;
  }

  lemma DecodeEncodeThree(r: int)
    requires 0x800 <= r < 0x10000 && !IsSurrogate(r)
    ensures DecodeRune(EncodeRune(r)) == (r, 3)
  {
    var b := EncodeRune(r);
    var hi, mid, lo := r / 4096, r / 64 % 64, r % 64;
    assert r / 64 == hi * 64 + mid;
    assert r == hi * 4096 + mid * 64 + lo;
    assert b == [0xE0 + hi, 0x80 + mid, 0x80 + lo];
    assert hi == 0 ==> mid >= 0x20;
    assert hi == 0xD ==> mid < 0x20;
  }

  lemma DecodeEncodeFour(r: int)
    requires 0x10000 <= r <= 0x10FFFF
    ensures DecodeRune(EncodeRune(r)) == (r, 4)
  {
    var b := EncodeRune(r);
    var top, hi, mid, lo := r / 262144, r / 4096 % 64, r / 64 % 64, r % 64;
    assert r / 64 == r / 4096 * 64 + mid;
    assert r / 4096 == top * 64 + hi;
    assert r == top * 262144 + hi * 4096 + mid * 64 + lo;
    assert b == [0xF0 + top, 0x80 + hi, 0x80 + mid, 0x80 + lo];
    assert top == 0 ==> hi >= 0x10;
    assert top == 4 ==> hi < 0x10;
  }

  /** `utf16.IsSurrogate`. */
  predicate IsSurrogate(r: int) {
    0xD800 <= r < 0xE000
  }

  /** `utf16.DecodeRune`: the rune a surrogate pair stands for, or U+FFFD. */
  function DecodeSurrogates(r1: int, r2: int): (r: int)
    ensures r == RuneError || 0x10000 <= r <= 0x10FFFF
  {
    if 0xD800 <= r1 < 0xDC00 && 0xDC00 <= r2 < 0xE000 then (r1 - 0xD800) * 1024 + (r2 - 0xDC00) + 0x10000
    else RuneError
  }

  /** `utf8.Valid`: the whole of `p` is a sequence of valid encodings. */
  predicate Valid(p: seq<byte>)
    decreases |p|
  {
    |p| == 0 || (!StartsInvalid(p) && Valid(p[DecodeRune(p).1..]))
  }

  /**
    What survives a round trip through Go's JSON string encoding: every byte that does
    not start a valid encoding is replaced by the three bytes of U+FFFD.
   */
  function Sanitize(p: seq<byte>): (r: seq<byte>)
    ensures |r| >= |p|
    decreases |p|
  {
    if |p| == 0 then []
    else if StartsInvalid(p) then ReplacementBytes + Sanitize(p[1..])
    else
      var n := DecodeRune(p).1;
      p[..n] + Sanitize(p[n..])
  }

  lemma SanitizeAsciiHead(p: seq<byte>)
    requires |p| >= 1 && p[0] < 0x80
    ensures Sanitize(p) == [p[0]] + Sanitize(p[1..])
  {
    assert p[..1] == [p[0]];
  }

  lemma SanitizeInvalidHead(p: seq<byte>)
    requires |p| >= 1 && StartsInvalid(p)
    ensures Sanitize(p) == ReplacementBytes + Sanitize(p[1..])
  {
  }

  lemma SanitizeValidHead(p: seq<byte>)
    requires |p| >= 1 && !StartsInvalid(p)
    ensures Sanitize(p) == p[..DecodeRune(p).1] + Sanitize(p[DecodeRune(p).1..])
  {
  }

  /** Sanitizing changes nothing exactly when the input is valid UTF-8. */
  lemma {:induction false} SanitizeIdentity(p: seq<byte>)
    ensures Sanitize(p) == p <==> Valid(p)
    decreases |p|
  {
    if |p| > 0 {
      if StartsInvalid(p) {
        assert |Sanitize(p)| > |p|;
      } else {
        var n := DecodeRune(p).1;
        SanitizeIdentity(p[n..]);
        assert p == p[..n] + p[n..];
        assert Sanitize(p) == p[..n] + Sanitize(p[n..]);
        if Sanitize(p) == p {
          assert Sanitize(p)[n..] == Sanitize(p[n..]);
        }
      }
    }
  }

  /**
    Go re-encodes every rune it decodes; for a valid encoding that gives back the very
    same bytes, because the acceptance ranges rule out overlong and surrogate forms.
   */
  lemma EncodeDecodeRune(p: seq<byte>)
    requires |p| >= 1 && !StartsInvalid(p)
    ensures EncodeRune(DecodeRune(p).0) == p[..DecodeRune(p).1]
  {
    var n := DecodeRune(p).1;
    if p[0] >= 0x80 {
      if n == 2 {
        EncodeTwo(p[0], p[1]);
      } else if n == 3 {
        EncodeThree(p[0], p[1], p[2]);
      } else {
        EncodeFour(p[0], p[1], p[2], p[3]);
      }
    }
  }

  lemma EncodeTwo(b0: byte, b1: byte)
    requires 0xC2 <= b0 <= 0xDF && IsContinuation(b1)
    ensures EncodeRune((b0 - 0xC0) * 64 + (b1 - 0x80)) == [b0, b1]
  {
  }

  lemma EncodeThree(b0: byte, b1: byte, b2: byte)
    requires 0xE0 <= b0 <= 0xEF && IsContinuation(b1) && IsContinuation(b2)
    requires b0 == 0xE0 ==> 0xA0 <= b1
    requires b0 == 0xED ==> b1 <= 0x9F
    ensures EncodeRune((b0 - 0xE0) * 4096 + (b1 - 0x80) * 64 + (b2 - 0x80)) == [b0, b1, b2]
  {
    var r := (b0 - 0xE0) * 4096 + (b1 - 0x80) * 64 + (b2 - 0x80);
    DivMod(r, (b0 - 0xE0) * 64 + (b1 - 0x80), b2 - 0x80, 64);
    DivMod(r, b0 - 0xE0, (b1 - 0x80) * 64 + (b2 - 0x80), 4096);
    DivMod(r / 64, b0 - 0xE0, b1 - 0x80, 64);
    assert 0x800 <= r < 0x10000;
  }

  lemma EncodeFour(b0: byte, b1: byte, b2: byte, b3: byte)
    requires 0xF0 <= b0 <= 0xF4 && IsContinuation(b1) && IsContinuation(b2) && IsContinuation(b3)
    requires b0 == 0xF0 ==> 0x90 <= b1
    requires b0 == 0xF4 ==> b1 <= 0x8F
    ensures EncodeRune((b0 - 0xF0) * 262144 + (b1 - 0x80) * 4096 + (b2 - 0x80) * 64 + (b3 - 0x80)) == [b0, b1, b2, b3]
  {
    var r := (b0 - 0xF0) * 262144 + (b1 - 0x80) * 4096 + (b2 - 0x80) * 64 + (b3 - 0x80);
    DivMod(r, ((b0 - 0xF0) * 64 + (b1 - 0x80)) * 64 + (b2 - 0x80), b3 - 0x80, 64);
    DivMod(r, (b0 - 0xF0) * 64 + (b1 - 0x80), (b2 - 0x80) * 64 + (b3 - 0x80), 4096);
    DivMod(r, b0 - 0xF0, (b1 - 0x80) * 4096 + (b2 - 0x80) * 64 + (b3 - 0x80), 262144);
    DivMod(r / 64, (b0 - 0xF0) * 64 + (b1 - 0x80), b2 - 0x80, 64);
    DivMod(r / 4096, b0 - 0xF0, b1 - 0x80, 64);
    assert 0x10000 <= r <= 0x10FFFF;
  }

  /** Division by a positive constant, by the uniqueness of quotient and remainder. */
  lemma DivMod(x: int, q: int, r: int, d: int)
    requires 0 < d && 0 <= r < d && x == q * d + r
    ensures x / d == q && x % d == r
  {
    var m := x / d;
    assert x == d * m + x % d;
    QuotientUnique(d, q, r, m, x % d);
  }

  /** Two divisions of the same number by `d` with remainders in `[0, d)` have the same quotient. */
  lemma QuotientUnique(d: int, a: int, ra: int, b: int, rb: int)
    requires 0 < d && 0 <= ra < d && 0 <= rb < d && a * d + ra == d * b + rb
    ensures a == b && ra == rb
  {
    if a < b {
      MulGap(d, a, b);
    } else if b < a {
      MulGap(d, b, a);
    }
  }

  /** Multiplying by a non-negative `k` keeps a strict gap of at least `k`. */
  lemma {:induction false} MulGap(k: int, a: int, b: int)
    requires 0 <= k && a < b
    ensures k * a + k <= k * b
    decreases b - a
  {
    if a + 1 < b {
      MulGap(k, a + 1, b);
    }
    assert k * (a + 1) == k * a + k;
  }
}
