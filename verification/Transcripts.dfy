/** The transcript both sides sign, and what it pins down. */
module Transcripts {
  import opened Bytes

  const NUL: byte := 0
  const LABEL: string := "secure-llm/1.0"

  function Digit(d: nat): byte
    requires d < 10
  {
    48 + d
  }

  function Digits(n: nat): (b: bytes)
    ensures |b| > 0 && forall i :: 0 <= i < |b| ==> 48 <= b[i] <= 57
    ensures |b| == 1 <==> n < 10
  {
    if n < 10 then [Digit(n)] else Digits(n / 10) + [Digit(n % 10)]
  }

  /** `str(n).encode("ascii")`. */
  function Decimal(n: int): (b: bytes)
    ensures NUL !in b
  {
    if n < 0 then [45] + Digits(-n) else Digits(n)
  }

  lemma {:induction false} DigitsInjective(a: nat, b: nat)
    requires Digits(a) == Digits(b)
    ensures a == b
  {
    if a >= 10 && b >= 10 {
      SplitEqual(Digits(a / 10), [Digit(a % 10)], Digits(b / 10), [Digit(b % 10)]);
      assert [Digit(a % 10)][0] == [Digit(b % 10)][0];
      DigitsInjective(a / 10, b / 10);
    } else {
      assert Digits(a)[0] == Digits(b)[0];
    }
  }

  lemma DecimalInjective(a: int, b: int)
    requires Decimal(a) == Decimal(b)
    ensures a == b
  {
    assert Decimal(a)[0] == Decimal(b)[0];
    if a < 0 && b < 0 {
      SplitEqual([45], Digits(-a), [45], Digits(-b));
      DigitsInjective(-a, -b);
    } else if a >= 0 && b >= 0 {
      DigitsInjective(a, b);
    }
  }

  /** A field name between separators. */
  function Tag(name: string): bytes
    requires forall i :: 0 <= i < |name| ==> name[i] < 128 as char
  {
    [NUL] + Ascii(name) + [NUL]
  }

  /** Everything before the host: fixed width once both keys are 32 bytes. */
  function KeysPart(staticPk: bytes, ephPk: bytes): bytes {
    Ascii(LABEL) + Tag("client_static") + (staticPk + (Tag("client_eph") + (ephPk + Tag("host"))))
  }

  /** Host, then the timestamp marker. */
  function HostPart(host: bytes): bytes {
    host + [NUL] + Ascii("ts")
  }

  function Base(staticPk: bytes, ephPk: bytes, host: bytes, timestamp: int): bytes {
    KeysPart(staticPk, ephPk) + (HostPart(host) + [NUL] + Decimal(timestamp))
  }

  function ServerPart(serverEphPk: bytes, serverStaticPk: bytes, sessionId: bytes): bytes {
    Tag("server_eph") + (serverEphPk + (Tag("server_static") + (serverStaticPk + (Tag("session") + sessionId))))
  }

  function Full(base: bytes, serverEphPk: bytes, serverStaticPk: bytes, sessionId: bytes): bytes {
    base + ServerPart(serverEphPk, serverStaticPk, sessionId)
  }

  lemma TagThen(x: bytes, t: bytes, rest: bytes)
    ensures x + ([NUL] + t + [NUL]) + rest == x + [NUL] + (t + [NUL] + rest)
  {
  }

  lemma Nested(a: bytes, t: bytes, b: bytes, rest: bytes)
    ensures a + (t + b) + rest == a + t + (b + rest)
  {
  }

  /** The nine fields of a base transcript, joined. */
  lemma NineJoined(l: bytes, cs: bytes, s: bytes, ce: bytes, e: bytes, h: bytes, host: bytes, ts: bytes, d: bytes)
    ensures JoinBytes(0, [l, cs, s, ce, e, h, host, ts, d])
            == l + ([NUL] + cs + [NUL]) + (s + (([NUL] + ce + [NUL]) + (e + ([NUL] + h + [NUL])))) + (host + [NUL] + ts + [NUL] + d)
  {
    var j6 := host + [NUL] + (ts + [NUL] + d);
    JoinTwo(0, ts, d);
    JoinCons(0, host, [ts, d]);
    JoinCons(0, h, [host, ts, d]);
    JoinCons(0, e, [h, host, ts, d]);
    JoinCons(0, ce, [e, h, host, ts, d]);
    JoinCons(0, s, [ce, e, h, host, ts, d]);
    JoinCons(0, cs, [s, ce, e, h, host, ts, d]);
    JoinCons(0, l, [cs, s, ce, e, h, host, ts, d]);
    assert host + [NUL] + ts + [NUL] + d == j6;
    var j4 := e + [NUL] + (h + [NUL] + j6);
    TagThen(e, h, j6);
    var inner := e + ([NUL] + h + [NUL]);
    TagThen(s, ce, j4);
    Nested(s, [NUL] + ce + [NUL], inner, j6);
    var j2 := s + [NUL] + (ce + [NUL] + j4);
    var keys := s + (([NUL] + ce + [NUL]) + inner);
    assert keys + j6 == j2;
    TagThen(l, cs, j2);
    assert l + ([NUL] + cs + [NUL]) + keys + j6 == l + ([NUL] + cs + [NUL]) + (keys + j6);
  }

  /** Both transcripts are joins of their fields. */
  lemma BaseJoined(staticPk: bytes, ephPk: bytes, host: bytes, timestamp: int)
    ensures Base(staticPk, ephPk, host, timestamp)
            == JoinBytes(0, [Ascii("secure-llm/1.0"), Ascii("client_static"), staticPk, Ascii("client_eph"), ephPk,
                             Ascii("host"), host, Ascii("ts"), Decimal(timestamp)])
  {
    NineJoined(Ascii("secure-llm/1.0"), Ascii("client_static"), staticPk, Ascii("client_eph"), ephPk, Ascii("host"), host,
               Ascii("ts"), Decimal(timestamp));
  }

  lemma SevenJoined(base: bytes, se: bytes, e: bytes, ss: bytes, s: bytes, n: bytes, id: bytes)
    ensures JoinBytes(0, [base, se, e, ss, s, n, id])
            == base + (([NUL] + se + [NUL]) + (e + (([NUL] + ss + [NUL]) + (s + (([NUL] + n + [NUL]) + id)))))
  {
    JoinTwo(0, n, id);
    JoinCons(0, s, [n, id]);
    JoinCons(0, ss, [s, n, id]);
    JoinCons(0, e, [ss, s, n, id]);
    JoinCons(0, se, [e, ss, s, n, id]);
    JoinCons(0, base, [se, e, ss, s, n, id]);
    var j4 := s + [NUL] + (n + [NUL] + id);
    TagThen(s, n, id);
    assert s + (([NUL] + n + [NUL]) + id) == j4;
    var j2 := e + [NUL] + (ss + [NUL] + j4);
    TagThen(e, ss, j4);
    assert e + (([NUL] + ss + [NUL]) + j4) == j2;
    TagThen(base, se, j2);
    assert base + (([NUL] + se + [NUL]) + j2) == base + [NUL] + (se + [NUL] + j2);
  }

  lemma FullJoined(base: bytes, serverEphPk: bytes, serverStaticPk: bytes, sessionId: bytes)
    ensures Full(base, serverEphPk, serverStaticPk, sessionId)
            == JoinBytes(0, [base, Ascii("server_eph"), serverEphPk, Ascii("server_static"), serverStaticPk,
                             Ascii("session"), sessionId])
  {
    SevenJoined(base, Ascii("server_eph"), serverEphPk, Ascii("server_static"), serverStaticPk, Ascii("session"), sessionId);
  }

  lemma KeysPartInjective(s1: bytes, e1: bytes, s2: bytes, e2: bytes)
    requires |s1| == |e1| == |s2| == |e2| == 32
    requires KeysPart(s1, e1) == KeysPart(s2, e2)
    ensures s1 == s2 && e1 == e2
  {
    var h, m, t := Ascii(LABEL) + Tag("client_static"), Tag("client_eph"), Tag("host");
    SplitEqual(h, s1 + (m + (e1 + t)), h, s2 + (m + (e2 + t)));
    SplitEqual(s1, m + (e1 + t), s2, m + (e2 + t));
    SplitEqual(m, e1 + t, m, e2 + t);
    SplitEqual(e1, t, e2, t);
  }

  /** Equal base transcripts have equal keys, host and timestamp, whatever bytes the host holds. */
  lemma BaseInjective(s1: bytes, e1: bytes, h1: bytes, t1: int, s2: bytes, e2: bytes, h2: bytes, t2: int)
    requires |s1| == |e1| == |s2| == |e2| == 32
    requires Base(s1, e1, h1, t1) == Base(s2, e2, h2, t2)
    ensures s1 == s2 && e1 == e2 && h1 == h2 && t1 == t2
  {
    SplitEqual(KeysPart(s1, e1), HostPart(h1) + [NUL] + Decimal(t1), KeysPart(s2, e2), HostPart(h2) + [NUL] + Decimal(t2));
    KeysPartInjective(s1, e1, s2, e2);
    LastSplit(NUL, HostPart(h1), Decimal(t1), HostPart(h2), Decimal(t2));
    DecimalInjective(t1, t2);
    assert |h1| == |HostPart(h1)| - 3 == |h2|;
    SplitEqual(h1 + [NUL], Ascii("ts"), h2 + [NUL], Ascii("ts"));
    SplitEqual(h1, [NUL], h2, [NUL]);
  }

  /** Equal full transcripts also have equal server keys and session ids, and equal bases. */
  lemma FullInjective(b1: bytes, e1: bytes, s1: bytes, i1: bytes, b2: bytes, e2: bytes, s2: bytes, i2: bytes)
    requires |e1| == |s1| == |e2| == |s2| == 32 && |i1| == |i2| == 16
    requires Full(b1, e1, s1, i1) == Full(b2, e2, s2, i2)
    ensures b1 == b2 && e1 == e2 && s1 == s2 && i1 == i2
  {
    assert |b1| == |b2|;
    SplitEqual(b1, ServerPart(e1, s1, i1), b2, ServerPart(e2, s2, i2));
    var h, m, t := Tag("server_eph"), Tag("server_static"), Tag("session");
    SplitEqual(h, e1 + (m + (s1 + (t + i1))), h, e2 + (m + (s2 + (t + i2))));
    SplitEqual(e1, m + (s1 + (t + i1)), e2, m + (s2 + (t + i2)));
    SplitEqual(m, s1 + (t + i1), m, s2 + (t + i2));
    SplitEqual(s1, t + i1, s2, t + i2);
    SplitEqual(t, i1, t, i2);
  }
}
