/** A toy suite that meets every law assumed of the primitives, so the laws do not contradict each other. */
module SuiteModel {
  import opened Bytes
  import opened Handshake
  import opened Kdf
  import Streaming

  /** A length in unary, then the two parts. */
  function Tagged(key: bytes, message: bytes): bytes {
    Zeros(|key|) + [1] + (key + message)
  }

  function Wide(s: string): bytes {
    if s == [] then [] else [s[0] as int / 65536, s[0] as int / 256 % 256, s[0] as int % 256] + Wide(s[1..])
  }

  const TOY: Suite := Suite(
    sk => Zeros(32),
    (a, b) => Zeros(32),
    sk => sk,
    (sk, m) => Tagged(sk, m),
    (pk, m, sig) => sig == Tagged(pk, m),
    (k, m) => Zeros(HASH_LEN),
    s => Wide(s))

  lemma TaggedInjective(a: bytes, m: bytes, b: bytes, n: bytes)
    requires Tagged(a, m) == Tagged(b, n)
    ensures a == b && m == n
  {
    var s, t := Tagged(a, m), Tagged(b, n);
    assert s[|a|] == 1 && t[|b|] == 1;
    assert forall i :: 0 <= i < |a| ==> s[i] == 0;
    assert forall i :: 0 <= i < |b| ==> t[i] == 0;
    assert |a| == |b|;
    SplitEqual(Zeros(|a|) + [1], a + m, Zeros(|b|) + [1], b + n);
    SplitEqual(a, m, b, n);
  }

  lemma {:induction false} WideInjective(a: string, b: string)
    requires Wide(a) == Wide(b)
    ensures a == b
  {
    if a != [] && b != [] {
      var x, y := Wide(a), Wide(b);
      assert x[0] == a[0] as int / 65536 && x[1] == a[0] as int / 256 % 256 && x[2] == a[0] as int % 256;
      assert y[0] == b[0] as int / 65536 && y[1] == b[0] as int / 256 % 256 && y[2] == b[0] as int % 256;
      assert a[0] == b[0];
      assert x[3..] == Wide(a[1..]) && y[3..] == Wide(b[1..]);
      WideInjective(a[1..], b[1..]);
      assert a == [a[0]] + a[1..] && b == [b[0]] + b[1..];
    }
  }

  lemma LawsAreConsistent()
    ensures Lawful(TOY) && Unforgeable(TOY)
  {
    forall pk, m, sig | TOY.verify(pk, m, sig)
      ensures exists sk :: TOY.ed25519Pk(sk) == pk && TOY.sign(sk, m) == sig
    {
      assert TOY.ed25519Pk(pk) == pk && TOY.sign(pk, m) == sig;
    }
    forall pk, m, sk, n
      ensures TOY.verify(pk, m, TOY.sign(sk, n)) <==> pk == TOY.ed25519Pk(sk) && m == n
    {
      if Tagged(sk, n) == Tagged(pk, m) {
        TaggedInjective(sk, n, pk, m);
      }
    }
    forall a, b | TOY.utf8(a) == TOY.utf8(b)
      ensures a == b
    {
      WideInjective(a, b);
    }
  }

  // ----- codecs -----

  /** Characters past the ASCII range, one for each byte. */
  function Shift(b: bytes): (s: string)
    ensures |s| == |b| && forall i :: 0 <= i < |s| ==> s[i] as int == b[i] as int + 256
  {
    seq(|b|, i requires 0 <= i < |b| => (b[i] as int + 256) as char)
  }

  function Unshift(s: string): Option<bytes> {
    if forall i :: 0 <= i < |s| ==> 256 <= s[i] as int < 512
    then Some(seq(|s|, i requires 0 <= i < |s| && 256 <= s[i] as int < 512 => s[i] as int - 256))
    else None
  }

  function Dump(m: Streaming.Message): bytes {
    match m
    case Keepalive => [0]
    case Delta(chunk) => [1] + chunk.json
    case Other(json) => [2] + json
    case Empty => []
  }

  function Load(b: bytes): Option<Streaming.Message> {
    if b == [] then None
    else if b[0] == 0 then Some(Streaming.Keepalive)
    else if b[0] == 1 then Some(Streaming.Delta(Streaming.ChatChunk(b[1..])))
    else Some(Streaming.Other(b[1..]))
  }

  const TOY_CODEC: Streaming.Codec := Streaming.Codec(m => Dump(m), b => Load(b), b => Shift(b), s => Unshift(s))

  lemma CodecLawsAreConsistent()
    ensures Streaming.IsCodec(TOY_CODEC)
  {
    forall b: bytes
      ensures Unshift(Shift(b)) == Some(b) && Shift(b) != Streaming.DONE
    {
      assert Unshift(Shift(b)).Some? && Unshift(Shift(b)).value == b;
      assert Streaming.DONE[0] == '[' && |Streaming.DONE| == 6;
      assert b != [] ==> Shift(b)[0] as int == b[0] as int + 256;
    }
    forall m: Streaming.Message | m != Streaming.Empty
      ensures Dump(m) != [] && Load(Dump(m)) == Some(m)
    {
      match m
      case Keepalive =>
      case Delta(chunk) => assert Dump(m)[1..] == chunk.json;
      case Other(json) => assert Dump(m)[1..] == json;
    }
  }
}
