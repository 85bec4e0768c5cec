/**
  Go strings as byte sequences, and the three functions of package `strings`
  the core uses with a one-byte separator: `Contains`, `LastIndex` and `Split`.
  `Join` is the reference inverse of `Split`.
 */
module GoStrings {

  /** A Go `byte`. */
  type byte = b: int | 0 <= b < 256

  /** A Go `string` (or `[]byte`): Go strings are byte strings, so `[]byte(s)` is the identity here. */
  type GoString = seq<byte>

  /** '.', the token separator. */
  const Dot: byte := 46

  /** '/', `os.PathSeparator` on the platforms the model describes. */
  const Slash: byte := 47

  /** Number of occurrences of `c` in `s`. */
  function Count(s: GoString, c: byte): (n: nat)
    ensures n <= |s|
    ensures n == 0 <==> c !in s
    decreases |s|
  {
    if |s| == 0 then 0
    else (if s[0] == c then 1 else 0) + Count(s[1..], c)
  }

  lemma {:induction false} CountConcat(a: GoString, b: GoString, c: byte)
    ensures Count(a + b, c) == Count(a, c) + Count(b, c)
    decreases |a|
  {
    if |a| == 0 {
      assert a + b == b;
    } else {
      assert (a + b)[1..] == a[1..] + b;
      CountConcat(a[1..], b, c);
    }
  }

  /** `strings.IndexByte`: the first index of `c` in `s`, or -1. */
  function IndexByte(s: GoString, c: byte): (r: int)
    ensures -1 <= r < |s|
    ensures r == -1 <==> c !in s
    ensures r >= 0 ==> s[r] == c && c !in s[..r]
    decreases |s|
  {
    if |s| == 0 then -1
    else if s[0] == c then 0
    else
      var k := IndexByte(s[1..], c);
      if k < 0 then -1
      else
        assert s[..k + 1] == [s[0]] + s[1..][..k];
        k + 1
  }

  /** `strings.LastIndex(s, string(c))`: the last index of `c` in `s`, or -1. */
  function LastIndex(s: GoString, c: byte): (r: int)
    ensures -1 <= r < |s|
    ensures r == -1 <==> c !in s
    ensures r >= 0 ==> s[r] == c && c !in s[r + 1..]
    decreases |s|
  {
    if |s| == 0 then -1
    else if s[|s| - 1] == c then |s| - 1
    else
      var init := s[..|s| - 1];
      var k := LastIndex(init, c);
      assert s == init + [s[|s| - 1]];
      assert k >= 0 ==> s[k + 1..] == init[k + 1..] + [s[|s| - 1]];
      k
  }

  /** `strings.Split(s, string(sep))`: the pieces between the occurrences of `sep`. */
  function Split(s: GoString, sep: byte): (parts: seq<GoString>)
    ensures |parts| >= 1
    ensures forall i :: 0 <= i < |parts| ==> sep !in parts[i]
    decreases |s|
  {
    var i := IndexByte(s, sep);
    if i < 0 then [s] else [s[..i]] + Split(s[i + 1..], sep)
  }

  /** `strings.Join(parts, string(sep))`. */
  function Join(parts: seq<GoString>, sep: byte): GoString
  {
    if |parts| == 0 then []
    else if |parts| == 1 then parts[0]
    else parts[0] + [sep] + Join(parts[1..], sep)
  }

  /** Split yields one more piece than there are separators. */
  lemma {:induction false} SplitCount(s: GoString, sep: byte)
    ensures |Split(s, sep)| == Count(s, sep) + 1
    decreases |s|
  {
    var i := IndexByte(s, sep);
    if i >= 0 {
      assert s == s[..i] + [sep] + s[i + 1..];
      CountConcat(s[..i] + [sep], s[i + 1..], sep);
      CountConcat(s[..i], [sep], sep);
      SplitCount(s[i + 1..], sep);
    }
  }

  /** Joining the pieces of a split gives back the original string. */
  lemma {:induction false} JoinSplit(s: GoString, sep: byte)
    ensures Join(Split(s, sep), sep) == s
    decreases |s|
  {
    var i := IndexByte(s, sep);
    if i >= 0 {
      var a, b := s[..i], s[i + 1..];
      var rest := Split(b, sep);
      assert Split(s, sep) == [a] + rest;
      JoinSplit(b, sep);
      JoinCons(a, rest, sep);
      Around(s, i);
    } else {
      assert Split(s, sep) == [s];
    }
  }

  /** A string is its bytes before `i`, byte `i`, and its bytes after `i`. */
  lemma Around(s: GoString, i: int)
    requires 0 <= i < |s|
    ensures s == s[..i] + [s[i]] + s[i + 1..]
  {
  }

  lemma Regroup(a: GoString, b: GoString, c: GoString, d: GoString)
    ensures a + b + c + d == a + (b + c + d)
  {
  }

  lemma JoinCons(x: GoString, rest: seq<GoString>, sep: byte)
    requires |rest| >= 1
    ensures Join([x] + rest, sep) == x + [sep] + Join(rest, sep)
  {
    assert ([x] + rest)[1..] == rest;
  }

  /** Splitting a join of separator-free pieces gives back the pieces. */
  lemma {:induction false} SplitJoin(parts: seq<GoString>, sep: byte)
    requires |parts| >= 1
    requires forall i :: 0 <= i < |parts| ==> sep !in parts[i]
    ensures Split(Join(parts, sep), sep) == parts
    decreases |parts|
  {
    if |parts| > 1 {
      SplitJoin(parts[1..], sep);
      SplitCons(parts[0], Join(parts[1..], sep), sep);
      assert parts == [parts[0]] + parts[1..];
    }
  }

  /** A separator-free head splits off as the first piece. */
  lemma SplitCons(a: GoString, b: GoString, sep: byte)
    requires sep !in a
    ensures Split(a + [sep] + b, sep) == [a] + Split(b, sep)
  {
    var s := a + [sep] + b;
    assert s[|a|] == sep;
    assert s[..|a|] == a;
    assert s[|a| + 1..] == b;
  }

  /** The shape of a path token: one separator between two separator-free halves. */
  lemma SplitTwo(a: GoString, b: GoString, sep: byte)
    requires sep !in a && sep !in b
    ensures Split(a + [sep] + b, sep) == [a, b]
    ensures Count(a + [sep] + b, sep) == 1
  {
    assert Join([a, b], sep) == a + [sep] + b;
    SplitJoin([a, b], sep);
    SplitCount(a + [sep] + b, sep);
  }
}
