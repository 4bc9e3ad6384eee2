/** Byte strings, fixed-width big-endian integers and the option/result types shared by every module. */
module Bytes {

  datatype Option<+T> = None | Some(value: T) {
    function GetOr(default: T): T {
      if Some? then value else default
    }
  }

  datatype Result<+T, +E> = Ok(value: T) | Err(error: E)

  type byte = x: int | 0 <= x < 256

  type bytes = seq<byte>

  const COUNTER_LIMIT: int := 0x1_0000_0000_0000_0000

  /** The byte values of an ASCII text. */
  function Ascii(text: string): (b: bytes)
    requires forall i :: 0 <= i < |text| ==> text[i] < 128 as char
    ensures |b| == |text|
    ensures forall i :: 0 <= i < |text| ==> b[i] == text[i] as int
  {
    seq(|text|, i requires 0 <= i < |text| => text[i] as int)
  }

  function Zeros(n: nat): (b: bytes)
    ensures |b| == n
    ensures forall i :: 0 <= i < n ==> b[i] == 0
  {
    seq(n, i => 0)
  }

  function Pow256(k: nat): (p: nat)
    ensures p > 0
  {
    if k == 0 then 1 else 256 * Pow256(k - 1)
  }

  /** `n.to_bytes(width, "big")`. */
  function ToBytes(n: nat, width: nat): (b: bytes)
    requires n < Pow256(width)
    ensures |b| == width
  {
    if width == 0 then [] else ToBytes(n / 256, width - 1) + [n % 256]
  }

  /** `int.from_bytes(b, "big")`. */
  function FromBytes(b: bytes): (n: nat)
    ensures n < Pow256(|b|)
  {
    if b == [] then 0 else 256 * FromBytes(b[..|b| - 1]) + b[|b| - 1]
  }

  lemma {:induction false} FromToBytes(n: nat, width: nat)
    requires n < Pow256(width)
    ensures FromBytes(ToBytes(n, width)) == n
  {
    if width > 0 {
      var b := ToBytes(n, width);
      assert b[..width - 1] == ToBytes(n / 256, width - 1);
      FromToBytes(n / 256, width - 1);
    }
  }

  lemma {:induction false} ToFromBytes(b: bytes)
    ensures ToBytes(FromBytes(b), |b|) == b
  {
    if b != [] {
      ToFromBytes(b[..|b| - 1]);
      assert b == b[..|b| - 1] + [b[|b| - 1]];
    }
  }

  /** The first byte is the most significant one. */
  lemma {:induction false} BigEndian(b: bytes)
    requires b != []
    ensures FromBytes(b) == b[0] * Pow256(|b| - 1) + FromBytes(b[1..])
  {
    var front := b[..|b| - 1];
    if |b| > 1 {
      BigEndian(front);
      assert front[1..] == b[1..][..|b| - 2] && b[1..][|b| - 2] == b[|b| - 1];
      assert 256 * (b[0] * Pow256(|b| - 2)) == b[0] * Pow256(|b| - 1);
    }
  }

  /** `sep.join(parts)`. */
  function JoinBytes(sep: byte, parts: seq<bytes>): bytes {
    if parts == [] then []
    else if |parts| == 1 then parts[0]
    else parts[0] + [sep] + JoinBytes(sep, parts[1..])
  }

  lemma JoinCons(sep: byte, part: bytes, rest: seq<bytes>)
    requires rest != []
    ensures JoinBytes(sep, [part] + rest) == part + [sep] + JoinBytes(sep, rest)
  {
    assert ([part] + rest)[1..] == rest;
  }

  lemma JoinTwo(sep: byte, part: bytes, last: bytes)
    ensures JoinBytes(sep, [part, last]) == part + [sep] + last
  {
    assert [part, last][1..] == [last];
  }

  lemma CounterWidth()
    ensures Pow256(8) == COUNTER_LIMIT
  {
    assert Pow256(4) == 0x1_0000_0000;
    assert Pow256(8) == 256 * (256 * (256 * (256 * Pow256(4))));
  }

  /** The eight-byte big-endian form of a counter that fits 64 bits. */
  function Counter8(counter: nat): (b: bytes)
    requires counter < COUNTER_LIMIT
    ensures |b| == 8
  {
    CounterWidth();
    ToBytes(counter, 8)
  }

  lemma Counter8Injective(a: nat, b: nat)
    requires a < COUNTER_LIMIT && b < COUNTER_LIMIT
    requires Counter8(a) == Counter8(b)
    ensures a == b
  {
    CounterWidth();
    FromToBytes(a, 8);
    FromToBytes(b, 8);
  }

  predicate Unique<X(==)>(xs: seq<X>) {
    forall i, j :: 0 <= i < j < |xs| ==> xs[i] != xs[j]
  }

  /** Equal concatenations whose first parts have equal length agree part by part. */
  lemma SplitEqual<T>(a: seq<T>, b: seq<T>, c: seq<T>, d: seq<T>)
    requires |a| == |c|
    requires a + b == c + d
    ensures a == c && b == d
  {
    assert a == (a + b)[..|a|];
    assert c == (c + d)[..|c|];
    assert b == (a + b)[|a|..];
    assert d == (c + d)[|c|..];
  }

  /** A first part without the separator, the separator and the rest determine both parts. */
  lemma FirstSplit<T>(sep: T, a: seq<T>, b: seq<T>, c: seq<T>, d: seq<T>)
    requires sep !in a && sep !in c
    requires a + [sep] + b == c + [sep] + d
    ensures a == c && b == d
  {
    var s, t := a + [sep] + b, c + [sep] + d;
    assert s[|a|] == sep && t[|c|] == sep;
    assert forall i :: 0 <= i < |a| ==> s[i] == a[i];
    assert forall i :: 0 <= i < |c| ==> t[i] == c[i];
    assert |a| == |c|;
    SplitEqual(a + [sep], b, c + [sep], d);
    SplitEqual(a, [sep], c, [sep]);
  }

  /** So do a first part, the separator and a rest without it. */
  lemma LastSplit<T>(sep: T, a: seq<T>, b: seq<T>, c: seq<T>, d: seq<T>)
    requires sep !in b && sep !in d
    requires a + [sep] + b == c + [sep] + d
    ensures a == c && b == d
  {
    var s, t := a + [sep] + b, c + [sep] + d;
    assert s[|a|] == sep && t[|c|] == sep;
    assert forall i :: |a| < i < |s| ==> s[i] == b[i - |a| - 1];
    assert forall i :: |c| < i < |t| ==> t[i] == d[i - |c| - 1];
    assert |a| == |c|;
    SplitEqual(a + [sep], b, c + [sep], d);
    SplitEqual(a, [sep], c, [sep]);
  }

  // ----- text -----

  predicate IsSpace(c: char) {
    || ('\t' <= c <= '\r') || (28 as char <= c <= ' ') || c == 133 as char || c == 160 as char
    || c == 0x1680 as char || (0x2000 as char <= c <= 0x200A as char) || c == 0x2028 as char || c == 0x2029 as char
    || c == 0x202F as char || c == 0x205F as char || c == 0x3000 as char
  }

  /** `str.strip()`. */
  function Strip(s: string): string
    decreases |s|
  {
    if s != [] && IsSpace(s[0]) then Strip(s[1..])
    else if s != [] && IsSpace(s[|s| - 1]) then Strip(s[..|s| - 1])
    else s
  }

  predicate AllSpace(s: string) {
    forall i :: 0 <= i < |s| ==> IsSpace(s[i])
  }

  /** A text between two runs of spaces. */
  predicate Between(s: string, lead: string, middle: string, trail: string) {
    s == lead + middle + trail && AllSpace(lead) && AllSpace(trail)
  }

  lemma BetweenMore(s: string, lead: string, middle: string, trail: string, c: char)
    requires Between(s, lead, middle, trail) && IsSpace(c)
    ensures Between([c] + s, [c] + lead, middle, trail) && Between(s + [c], lead, middle, trail + [c])
  {
  }

  /** What `str.strip()` leaves: the middle, from the first to the last character that is no space. */
  lemma {:induction false} StripExactly(s: string) returns (lead: string, trail: string)
    ensures Between(s, lead, Strip(s), trail)
    ensures Strip(s) != [] ==> !IsSpace(Strip(s)[0]) && !IsSpace(Strip(s)[|Strip(s)| - 1])
    decreases |s|
  {
    lead, trail := [], [];
    if s != [] && IsSpace(s[0]) {
      lead, trail := StripExactly(s[1..]);
      BetweenMore(s[1..], lead, Strip(s[1..]), trail, s[0]);
      lead := [s[0]] + lead;
      assert s == [s[0]] + s[1..];
    } else if s != [] && IsSpace(s[|s| - 1]) {
      lead, trail := StripExactly(s[..|s| - 1]);
      BetweenMore(s[..|s| - 1], lead, Strip(s[..|s| - 1]), trail, s[|s| - 1]);
      trail := trail + [s[|s| - 1]];
      assert s == s[..|s| - 1] + [s[|s| - 1]];
    }
  }

  lemma StripNothing(s: string)
    ensures Strip(s) == [] <==> AllSpace(s)
    ensures Strip(s) == s <==> s == [] || (!IsSpace(s[0]) && !IsSpace(s[|s| - 1]))
  {
    var lead, trail := StripExactly(s);
    if Strip(s) == [] {
      assert s == lead + trail;
    } else {
      assert s[|lead|] == Strip(s)[0];
    }
  }
}
